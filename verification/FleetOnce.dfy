/** The board's conservation law: each roster row once, wherever it is shown. */
module FleetOnce {
  import opened Common
  import opened Sorting
  import opened Roster
  import opened FleetJoin
  import opened FleetRows
  import opened FleetBoard
  import opened FleetShown

  // ----- counting a row on the board

  function InPane(i: nat): BoardPane -> nat { (p: BoardPane) => CountTree(p.tree, i) }

  function InTab(i: nat): BoardTab -> nat { (t: BoardTab) => Sum(t.panes, InPane(i)) }

  function InWorkspace(i: nat): BoardWorkspace -> nat { (w: BoardWorkspace) => Sum(w.tabs, InTab(i)) }

  /** How often roster row i is shown: as a pane, an unplaced row or a nested subagent. */
  function CountBoard(board: Board, i: nat): nat {
    Sum(board.workspaces, InWorkspace(i)) + CountTrees(board.unplaced, i)
  }

  predicate DistinctIds(snap: Snapshot) {
    && Distinct(snap.workspaces)
    && (forall a, b :: 0 <= a < b < |snap.tabs| ==> snap.tabs[a].id != snap.tabs[b].id)
    && (forall a, b :: 0 <= a < b < |snap.panes| ==> snap.panes[a].id != snap.panes[b].id)
  }

  /** Unique non-empty names, and statuses that cannot be taken for an absent one. */
  predicate KnownRows(roster: seq<Seat>) {
    && UniqueNames(roster)
    && (forall i :: 0 <= i < |roster| ==> roster[i].name != "" && roster[i].status != "" && roster[i].status != "-")
  }

  /** What pane k of the snapshot shows of row i. */
  function Share(placed: map<string, Tree>, snap: Snapshot, i: nat, k: nat): nat
    requires k < |snap.panes|
  {
    CountTree(ShowPane(placed, snap.panes[k]).tree, i)
  }

  lemma LeafCount(row: Row, i: nat)
    ensures CountTree(Tree(row, None, []), i) == 0
  {
    assert CountTrees([], i) == 0;
  }

  lemma PlainCount(pane: PaneInfo, i: nat)
    ensures CountTree(PlainTree(pane), i) == 0
  {
    LeafCount(PlainTree(pane).row, i);
  }

  // ----- from panes to workspaces

  lemma TabNone(placed: map<string, Tree>, snap: Snapshot, i: nat, tab: TabInfo)
    requires forall k: nat :: k < |snap.panes| && snap.panes[k].tab == tab.id ==> Share(placed, snap, i, k) == 0
    ensures InTab(i)(ShowTab(placed, snap.panes, tab)) == 0
  {
    PickNone(snap.panes, OfTab(tab.id), PaneShower(placed), InPane(i));
  }

  lemma TabOne(placed: map<string, Tree>, snap: Snapshot, i: nat, tab: TabInfo, at: nat)
    requires at < |snap.panes| && snap.panes[at].tab == tab.id
    requires forall k: nat :: k < |snap.panes| && k != at ==> Share(placed, snap, i, k) == 0
    ensures InTab(i)(ShowTab(placed, snap.panes, tab)) == Share(placed, snap, i, at)
  {
    forall k: nat | k < |snap.panes| && k != at ensures InPane(i)(PaneShower(placed)(snap.panes[k])) == 0 {
      assert Share(placed, snap, i, k) == 0;
    }
    PickOne(snap.panes, OfTab(tab.id), PaneShower(placed), InPane(i), at);
  }

  lemma {:induction false} TabIndex(tabs: seq<TabInfo>, id: string) returns (b: nat)
    requires TabOf(tabs, id).Some?
    ensures b < |tabs| && tabs[b] == TabOf(tabs, id).value && tabs[b].id == id
  {
    if tabs[|tabs| - 1].id == id { b := |tabs| - 1; } else { b := TabIndex(tabs[..|tabs| - 1], id); }
  }

  /** A row shown at no pane is in no workspace. */
  lemma PanesNone(placed: map<string, Tree>, snap: Snapshot, i: nat)
    requires forall k: nat :: k < |snap.panes| ==> Share(placed, snap, i, k) == 0
    ensures Sum(WorkspacesOf(placed, snap, snap.workspaces), InWorkspace(i)) == 0
  {
    forall w | 0 <= w < |snap.workspaces| ensures InWorkspace(i)(ShowWorkspace(placed, snap, snap.workspaces[w])) == 0 {
      forall t | 0 <= t < |snap.tabs| ensures InTab(i)(ShowTab(placed, snap.panes, snap.tabs[t])) == 0 {
        TabNone(placed, snap, i, snap.tabs[t]);
      }
      PickNone(snap.tabs, OfWorkspace(snap.workspaces[w]), TabShower(placed, snap.panes), InTab(i));
    }
    PickNone(snap.workspaces, Every, WorkspaceShower(placed, snap), InWorkspace(i));
  }

  lemma WorkspaceShare(placed: map<string, Tree>, snap: Snapshot, i: nat, at: nat, b: nat, w: nat)
    requires DistinctIds(snap) && at < |snap.panes| && b < |snap.tabs| && w < |snap.workspaces| &&
      snap.tabs[b].id == snap.panes[at].tab
    requires forall k: nat :: k < |snap.panes| && k != at ==> Share(placed, snap, i, k) == 0
    ensures InWorkspace(i)(ShowWorkspace(placed, snap, snap.workspaces[w])) ==
      if snap.tabs[b].workspace == snap.workspaces[w] then Share(placed, snap, i, at) else 0
  {
    forall t | 0 <= t < |snap.tabs| && t != b ensures InTab(i)(ShowTab(placed, snap.panes, snap.tabs[t])) == 0 {
      assert snap.tabs[t].id != snap.tabs[b].id;
      TabNone(placed, snap, i, snap.tabs[t]);
    }
    TabOne(placed, snap, i, snap.tabs[b], at);
    var keep, make := OfWorkspace(snap.workspaces[w]), TabShower(placed, snap.panes);
    if snap.tabs[b].workspace == snap.workspaces[w] {
      PickOne(snap.tabs, keep, make, InTab(i), b);
    } else {
      PickNone(snap.tabs, keep, make, InTab(i));
    }
  }

  /** A row shown at one pane is in one workspace: a valid hierarchy loses and repeats no pane. */
  lemma PanesOne(placed: map<string, Tree>, snap: Snapshot, i: nat, at: nat)
    requires Sound(snap) && DistinctIds(snap) && at < |snap.panes|
    requires forall k: nat :: k < |snap.panes| && k != at ==> Share(placed, snap, i, k) == 0
    ensures Sum(WorkspacesOf(placed, snap, snap.workspaces), InWorkspace(i)) == Share(placed, snap, i, at)
  {
    var b := TabIndex(snap.tabs, snap.panes[at].tab);
    assert snap.tabs[b].workspace in snap.workspaces;
    var home :| 0 <= home < |snap.workspaces| && snap.workspaces[home] == snap.tabs[b].workspace;
    forall w: nat | w < |snap.workspaces|
      ensures InWorkspace(i)(ShowWorkspace(placed, snap, snap.workspaces[w])) == if w == home
        then Share(placed, snap, i, at) else 0
    {
      WorkspaceShare(placed, snap, i, at, b, w);
    }
    PickOne(snap.workspaces, Every, WorkspaceShower(placed, snap), InWorkspace(i), home);
  }

  // ----- from rows to panes and the unplaced

  /** How often row i is shown by the tree of joined row k. */
  function RowShare(ix: Index, rows: seq<Joined>, i: nat, k: nat): nat
    requires Covers(ix, rows) && k < |rows|
  {
    if Skipped(ix, rows[k]) then 0 else CountTree(Shown(ix, rows[k]), i)
  }

  lemma {:induction false} UnplacedNone(ix: Index, rows: seq<Joined>, i: nat)
    requires Covers(ix, rows)
    requires forall k: nat :: k < |rows| && rows[k].row.pane == "-" ==> RowShare(ix, rows, i, k) == 0
    ensures CountTrees(UnplacedOf(ix, rows), i) == 0
  {
    if rows != [] {
      var init := rows[..|rows| - 1];
      forall k: nat | k < |init| && init[k].row.pane == "-" ensures RowShare(ix, init, i, k) == 0 {
        assert RowShare(ix, rows, i, k) == 0;
      }
      UnplacedNone(ix, init, i);
      assert rows[|rows| - 1].row.pane == "-" ==> RowShare(ix, rows, i, |rows| - 1) == 0;
    }
  }

  lemma {:induction false} UnplacedOne(ix: Index, rows: seq<Joined>, i: nat, at: nat)
    requires Covers(ix, rows) && at < |rows| && rows[at].row.pane == "-"
    requires forall k: nat :: k < |rows| && k != at && rows[k].row.pane == "-" ==> RowShare(ix, rows, i, k) == 0
    ensures CountTrees(UnplacedOf(ix, rows), i) == RowShare(ix, rows, i, at)
  {
    hide Shown, Skipped;
    var last := |rows| - 1;
    var init := rows[..last];
    forall k: nat | k < |init| && k != at && init[k].row.pane == "-" ensures RowShare(ix, init, i, k) == 0 {
      assert RowShare(ix, rows, i, k) == 0;
    }
    if at < last {
      UnplacedOne(ix, init, i, at);
      assert rows[last].row.pane == "-" ==> RowShare(ix, rows, i, last) == 0;
    } else {
      UnplacedNone(ix, init, i);
    }
  }

  /** What is placed at a pane is the tree of a row at that pane. */
  lemma {:induction false} PlacedMeans(ix: Index, rows: seq<Joined>, pane: string) returns (k: nat)
    requires Covers(ix, rows) && pane in PlacedOf(ix, rows)
    ensures k < |rows| && !Skipped(ix, rows[k]) && rows[k].row.pane == pane && pane != "-" &&
      PlacedOf(ix, rows)[pane] == Shown(ix, rows[k])
  {
    var j := rows[|rows| - 1];
    if !(Skipped(ix, j) || j.row.pane == "-") && j.row.pane == pane {
      k := |rows| - 1;
    } else {
      k := PlacedMeans(ix, rows[..|rows| - 1], pane);
    }
  }

  lemma {:induction false} PlacedHas(ix: Index, rows: seq<Joined>, k: nat)
    requires Covers(ix, rows) && k < |rows| && !Skipped(ix, rows[k]) && rows[k].row.pane != "-"
    ensures rows[k].row.pane in PlacedOf(ix, rows)
  {
    if k < |rows| - 1 { PlacedHas(ix, rows[..|rows| - 1], k); }
  }

  predicate OnePerPane(rows: seq<Joined>) {
    forall a, b :: 0 <= a < b < |rows| && rows[a].row.pane != "-" ==> rows[a].row.pane != rows[b].row.pane
  }

  /** A snapshot pane shows what its one row shows, and nothing of the roster without one. */
  lemma ShareMeans(ix: Index, rows: seq<Joined>, snap: Snapshot, i: nat, k: nat, a: nat)
    requires Covers(ix, rows) && OnePerPane(rows) && k < |snap.panes| && a < |rows| &&
      rows[a].row.pane == snap.panes[k].id != "-"
    ensures Share(PlacedOf(ix, rows), snap, i, k) == RowShare(ix, rows, i, a)
  {
    var pane := snap.panes[k].id;
    var placed := PlacedOf(ix, rows);
    if pane in placed {
      var b := PlacedMeans(ix, rows, pane);
      assert a == b;
    } else {
      if !Skipped(ix, rows[a]) { PlacedHas(ix, rows, a); }
      PlainCount(snap.panes[k], i);
    }
  }

  lemma ShareNone(ix: Index, rows: seq<Joined>, snap: Snapshot, i: nat, k: nat)
    requires Covers(ix, rows) && OnePerPane(rows) && k < |snap.panes|
    requires forall a: nat :: a < |rows| && rows[a].row.pane == snap.panes[k].id && rows[a].row.pane != "-" ==>
      RowShare(ix, rows, i, a) == 0
    ensures Share(PlacedOf(ix, rows), snap, i, k) == 0
  {
    var pane := snap.panes[k].id;
    if pane in PlacedOf(ix, rows) {
      var b := PlacedMeans(ix, rows, pane);
      assert RowShare(ix, rows, i, b) == 0;
    } else {
      PlainCount(snap.panes[k], i);
    }
  }

  /** When only one joined row shows row i, the board shows it as often as that row does. */
  lemma BoardShowsRow(snap: Snapshot, ix: Index, rows: seq<Joined>, i: nat, at: nat)
    requires Sound(snap) && DistinctIds(snap) && Covers(ix, rows) && OnePerPane(rows) && at < |rows|
    requires rows[at].row.pane == "-" || Live(snap, rows[at].row.pane)
    requires forall k: nat :: k < |rows| && k != at ==> RowShare(ix, rows, i, k) == 0
    ensures CountBoard(BoardOf(snap, ix, rows), i) == RowShare(ix, rows, i, at)
  {
    var placed := PlacedOf(ix, rows);
    if rows[at].row.pane == "-" {
      UnplacedOne(ix, rows, i, at);
      forall k: nat | k < |snap.panes| ensures Share(placed, snap, i, k) == 0 { ShareNone(ix, rows, snap, i, k); }
      PanesNone(placed, snap, i);
    } else {
      UnplacedNone(ix, rows, i);
      var p :| 0 <= p < |snap.panes| && snap.panes[p].id == rows[at].row.pane;
      forall k: nat | k < |snap.panes| && k != p ensures Share(placed, snap, i, k) == 0 {
        assert snap.panes[k].id != snap.panes[p].id;
        ShareNone(ix, rows, snap, i, k);
      }
      ShareMeans(ix, rows, snap, i, p, at);
      PanesOne(placed, snap, i, p);
    }
  }

  lemma BoardShowsNone(snap: Snapshot, ix: Index, rows: seq<Joined>, i: nat)
    requires Covers(ix, rows) && OnePerPane(rows)
    requires forall k: nat :: k < |rows| ==> RowShare(ix, rows, i, k) == 0
    ensures CountBoard(BoardOf(snap, ix, rows), i) == 0
  {
    UnplacedNone(ix, rows, i);
    forall k: nat | k < |snap.panes| ensures Share(PlacedOf(ix, rows), snap, i, k) == 0 {
      ShareNone(ix, rows, snap, i, k);
    }
    PanesNone(PlacedOf(ix, rows), snap, i);
  }

  // ----- what each joined row shows

  /** Row i is shown by joined row k exactly when k is the row its parents end at. */
  lemma RowShareMeans(roster: seq<Seat>, ix: Index, rows: seq<Joined>, i: nat, k: nat)
    requires CleanRows(roster, rows) && Indexed(roster, ix) && Covers(ix, rows) && i < |roster| && k < |rows|
    ensures RowShare(ix, rows, i, k) ==
      if rows[k].bus.Some? && ParentIndex(roster, rows[k].bus.value).None? && Descends(roster, i, rows[k].bus.value)
        then 1 else 0
  {
    var j := rows[k];
    if j.bus.Some? {
      var r := j.bus.value;
      assert RowOf(roster, j, r);
      assert Skipped(ix, j) <==> ParentIndex(roster, r).Some?;
      if ParentIndex(roster, r).None? {
        assert Depth(roster, r, 0);
        assert Nearer(roster, {}, 0);
        AttachCount(roster, ix, j, {}, r, 0, i);
      }
    } else {
      LeafCount(j.row, i);
    }
  }

  /** The row at which a rooted row's parents end. */
  lemma {:induction false} RootOf(roster: seq<Seat>, i: nat, d: nat) returns (r: nat)
    requires Depth(roster, i, d)
    ensures r < |roster| && ParentIndex(roster, r).None? && Up(roster, i, d) == Some(r)
    decreases d
  {
    if d == 0 { r := i; } else { r := RootOf(roster, ParentIndex(roster, i).value, d - 1); }
  }

  /** Only that root shows the row. */
  lemma OneRoot(roster: seq<Seat>, rows: seq<Joined>, i: nat, r: nat, at: nat, k: nat)
    requires CleanRows(roster, rows) && i < |roster| && r < |roster| && ParentIndex(roster, r).None? &&
      Descends(roster, i, r)
    requires at < |rows| && k < |rows| && k != at && rows[at].bus == Some(r)
    ensures !(rows[k].bus.Some? && ParentIndex(roster, rows[k].bus.value).None? &&
              Descends(roster, i, rows[k].bus.value))
  {
    if rows[k].bus.Some? && ParentIndex(roster, rows[k].bus.value).None? && Descends(roster, i, rows[k].bus.value) {
      var q := rows[k].bus.value;
      SameDepthSame(roster, i, r, q, 0);
    }
  }

  // ----- the join's rows are clean

  lemma JoinIsClean(snap: Snapshot, roster: seq<Seat>, rows: seq<Joined>)
    requires Sound(snap) && KnownRows(roster) && IsJoin(snap, roster, rows)
    ensures CleanRows(roster, rows)
  {
    forall k | 0 <= k < |rows|
      ensures if rows[k].bus.Some? then RowOf(roster, rows[k], rows[k].bus.value) && rows[k].row.busStatus != "-"
        else rows[k].row.busStatus == "-"
    {
      RowsAreTrue(snap, roster, rows, k);
    }
    forall i: nat | i < |roster| ensures exists k :: 0 <= k < |rows| && rows[k].bus == Some(i) {
      EveryRowOnce(snap, roster, rows, i);
      var k := SumPositive(rows, From(i));
      assert rows[k].bus == Some(i);
    }
    forall a, b | 0 <= a < b < |rows| && rows[a].bus.Some? ensures rows[a].bus != rows[b].bus {
      var i := rows[a].bus.value;
      assert i < |roster|;
      EveryRowOnce(snap, roster, rows, i);
      SumAtLeastTwo(rows, From(i), a, b);
    }
  }

  lemma JoinOnePerPane(snap: Snapshot, roster: seq<Seat>, rows: seq<Joined>)
    requires Uncontested(roster) && IsJoin(snap, roster, rows)
    ensures OnePerPane(rows)
  {
    forall a, b | 0 <= a < b < |rows| && rows[a].row.pane != "-" ensures rows[a].row.pane != rows[b].row.pane {
      OneRowPerPane(snap, roster, rows, rows[a].row.pane);
      SumAtLeastTwo(rows, Beside(rows[a].row.pane), a, b);
    }
  }

  lemma RowIsSomewhere(snap: Snapshot, roster: seq<Seat>, rows: seq<Joined>, k: nat)
    requires Sound(snap) && IsJoin(snap, roster, rows) && k < |rows|
    ensures rows[k].row.pane == "-" || Live(snap, rows[k].row.pane)
  {
    RowsAreTrue(snap, roster, rows, k);
    var pane := rows[k].row.pane;
    if PlacementAt(snap, roster, pane).Some? { PlacedIsLive(snap, roster, pane); }
  }

  // ----- the law

  /**
   * For a validated snapshot and roster with distinct ids and names, the board
   * shows a roster row exactly once when its parents end at some row, and never
   * when they run in a circle.
   */
  lemma EachRowShownOnce(snap: Snapshot, roster: seq<Seat>, board: Board, i: nat)
    requires Sound(snap) && Uncontested(roster) && DistinctIds(snap) && KnownRows(roster)
    requires IsBoard(snap, roster, board) && i < |roster|
    ensures CountBoard(board, i) == if Rooted(roster, i) then 1 else 0
  {
    var rows: seq<Joined> :| BoardFrom(snap, roster, rows, board);
    var ix := IndexAfter(roster, rows, |roster|);
    JoinIsClean(snap, roster, rows);
    JoinOnePerPane(snap, roster, rows);
    CleanIsIndexed(roster, rows);
    forall k: nat | k < |rows|
      ensures RowShare(ix, rows, i, k) ==
        if rows[k].bus.Some? && ParentIndex(roster, rows[k].bus.value).None? && Descends(roster, i, rows[k].bus.value)
          then 1 else 0
    {
      RowShareMeans(roster, ix, rows, i, k);
    }
    if d: nat :| Depth(roster, i, d) {
      var r := RootOf(roster, i, d);
      var at :| 0 <= at < |rows| && rows[at].bus == Some(r);
      forall k: nat | k < |rows| && k != at ensures RowShare(ix, rows, i, k) == 0 {
        OneRoot(roster, rows, i, r, at, k);
      }
      RowIsSomewhere(snap, roster, rows, at);
      BoardShowsRow(snap, ix, rows, i, at);
    } else {
      forall k: nat | k < |rows| ensures RowShare(ix, rows, i, k) == 0 { NoRoot(roster, rows, i, k); }
      BoardShowsNone(snap, ix, rows, i);
    }
  }

  lemma NoRoot(roster: seq<Seat>, rows: seq<Joined>, i: nat, k: nat)
    requires CleanRows(roster, rows) && !Rooted(roster, i) && k < |rows|
    ensures !(rows[k].bus.Some? && ParentIndex(roster, rows[k].bus.value).None? &&
              Descends(roster, i, rows[k].bus.value))
  {
    if rows[k].bus.Some? && ParentIndex(roster, rows[k].bus.value).None? && Descends(roster, i, rows[k].bus.value) {
      var r := rows[k].bus.value;
      var n: nat :| Up(roster, i, n) == Some(r);
      UpDepth(roster, i, n, r, 0);
    }
  }

  /** A row that names itself as its parent is on no board. */
  lemma OwnParentVanishes(snap: Snapshot, roster: seq<Seat>, board: Board, i: nat)
    requires Sound(snap) && Uncontested(roster) && DistinctIds(snap) && KnownRows(roster)
    requires IsBoard(snap, roster, board) && i < |roster| && ParentIndex(roster, i) == Some(i)
    ensures CountBoard(board, i) == 0
  {
    hide IsBoard, CountBoard, Sound, Uncontested, KnownRows, DistinctIds;
    EachRowShownOnce(snap, roster, board, i);
    if d: nat :| Depth(roster, i, d) { DepthUnique(roster, i, d, d - 1); }
  }

  /** One such roster, over an empty snapshot. */
  lemma VanishingExample()
    ensures var roster := [Seat("ann-1", "ann", "claude", "listening", "", "ann", "", "", None)];
      && Sound(Snapshot([], [], [], [])) && DistinctIds(Snapshot([], [], [], []))
      && Uncontested(roster) && KnownRows(roster) && ParentIndex(roster, 0) == Some(0)
  {
    var roster := [Seat("ann-1", "ann", "claude", "listening", "", "ann", "", "", None)];
    assert BaseCount(roster[..0], "ann") == 0 && BaseCount(roster, "ann") == 1;
  }
}
