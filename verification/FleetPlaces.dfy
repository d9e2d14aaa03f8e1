/** The board shows each row in its place: a root at its pane, a subagent under its parent. */
module FleetPlaces {
  import opened Common
  import opened Sorting
  import opened Roster
  import opened FleetJoin
  import opened FleetRows
  import opened FleetBoard
  import opened FleetShown
  import opened FleetOnce

  /** Each node is a roster row, and what is nested under it is exactly the rows it is the parent of. */
  ghost predicate Nested(roster: seq<Seat>, t: Tree) {
    match t.bus
    case None => t.kids == []
    case Some(r) =>
      && r < |roster| && t.row.agent == roster[r].name
      && (forall k :: 0 <= k < |t.kids| ==>
            t.kids[k].bus.Some? && t.kids[k].bus.value < |roster| &&
              ParentIndex(roster, t.kids[k].bus.value) == Some(r) && Nested(roster, t.kids[k]))
      && (forall c: nat :: c < |roster| && ParentIndex(roster, c) == Some(r) ==>
           exists k :: 0 <= k < |t.kids| && t.kids[k].bus == Some(c))
  }

  /** A tree nested under row r. */
  ghost predicate KidOf(roster: seq<Seat>, r: nat, t: Tree) {
    t.bus.Some? && t.bus.value < |roster| && ParentIndex(roster, t.bus.value) == Some(r) && Nested(roster, t)
  }

  lemma HasKid(roster: seq<Seat>, ix: Index, r: nat, c: nat, above: set<string>)
    requires Indexed(roster, ix) && r < |roster| && c < |roster| && ParentIndex(roster, c) == Some(r)
    ensures var trees := AttachAll(ix, Listed(ix.children, roster[r].name), above);
      exists k :: 0 <= k < |trees| && trees[k].bus == Some(c)
  {
    hide ParentIndex;
    var list := Listed(ix.children, roster[r].name);
    AttachAllAt(ix, list, above);
    assert IsChild(roster, |roster|, r, roster[c].name, c);
    var k :| 0 <= k < |list| && list[k] == roster[c].name;
    assert AttachAll(ix, list, above)[k].bus == Some(c);
  }

  lemma {:induction false} AttachNests(roster: seq<Seat>, ix: Index, j: Joined, above: set<string>, r: nat, d: nat)
    requires UniqueNames(roster) && Indexed(roster, ix) && RowOf(roster, j, r) && Depth(roster, r, d) &&
      Nearer(roster, above, d)
    ensures Nested(roster, Attach(ix, j, above))
    decreases |ix.byAgent.Keys - above|
  {
    hide Nested, ParentIndex, Sort, Nearer;
    NotAbove(roster, above, r, d);
    var name := roster[r].name;
    Shrinks(ix.byAgent.Keys, above, name);
    var list := Listed(ix.children, name);
    var trees := AttachAll(ix, list, above + {name});
    AttachAllAt(ix, list, above + {name});
    forall k: nat | k < |list| ensures KidOf(roster, r, trees[k]) {
      var c := ChildAt(roster, list, r, d, k);
      AttachNests(roster, ix, ix.byAgent[list[k]], above + {name}, c, d + 1);
    }
    forall c: nat | c < |roster| && ParentIndex(roster, c) == Some(r)
      ensures exists k :: 0 <= k < |trees| && trees[k].bus == Some(c) {
      HasKid(roster, ix, r, c, above + {name});
    }
    SortedNests(roster, Tree(j.row, j.bus, Sort(TreeLess, trees)), trees, r);
  }

  lemma SortedNests(roster: seq<Seat>, t: Tree, trees: seq<Tree>, r: nat)
    requires t.bus == Some(r) && r < |roster| && t.row.agent == roster[r].name && t.kids == Sort(TreeLess, trees)
    requires forall k :: 0 <= k < |trees| ==> KidOf(roster, r, trees[k])
    requires forall c: nat :: c < |roster| && ParentIndex(roster, c) == Some(r) ==>
      exists k :: 0 <= k < |trees| && trees[k].bus == Some(c)
    ensures Nested(roster, t)
  {
    SortMembers(TreeLess, trees);
    forall k | 0 <= k < |t.kids| ensures KidOf(roster, r, t.kids[k]) {
      assert t.kids[k] in trees;
    }
    forall c: nat | c < |roster| && ParentIndex(roster, c) == Some(r)
      ensures exists k :: 0 <= k < |t.kids| && t.kids[k].bus == Some(c) {
      var m :| 0 <= m < |trees| && trees[m].bus == Some(c);
      assert trees[m] in t.kids;
    }
  }

  // ----- the board

  /** A tree at a pane: nested right, and a roster row only where the join put it. */
  ghost predicate InPlace(snap: Snapshot, roster: seq<Seat>, pane: string, t: Tree) {
    Nested(roster, t) && (t.bus.Some? ==> At(snap, roster, t.bus.value, pane))
  }

  /** An unplaced tree: a roster row the join found no pane for. */
  ghost predicate Adrift(snap: Snapshot, roster: seq<Seat>, t: Tree) {
    Nested(roster, t) && (t.bus.Some? ==> forall p :: p != "-" ==> !At(snap, roster, t.bus.value, p))
  }

  lemma ShownNests(roster: seq<Seat>, ix: Index, rows: seq<Joined>, k: nat)
    requires CleanRows(roster, rows) && Indexed(roster, ix) && Covers(ix, rows) && k < |rows| && !Skipped(ix, rows[k])
    ensures Nested(roster, Shown(ix, rows[k])) && Shown(ix, rows[k]).bus == rows[k].bus &&
      Shown(ix, rows[k]).row == rows[k].row
  {
    var j := rows[k];
    if j.bus.Some? {
      var r := j.bus.value;
      assert RowOf(roster, j, r);
      assert ParentIndex(roster, r).None?;
      assert Depth(roster, r, 0);
      AttachNests(roster, ix, j, {}, r, 0);
    }
  }

  lemma {:induction false} UnplacedMeans(ix: Index, rows: seq<Joined>, m: nat) returns (k: nat)
    requires Covers(ix, rows) && m < |UnplacedOf(ix, rows)|
    ensures k < |rows| && !Skipped(ix, rows[k]) && rows[k].row.pane == "-" &&
      UnplacedOf(ix, rows)[m] == Shown(ix, rows[k])
  {
    var init := UnplacedOf(ix, rows[..|rows| - 1]);
    if m < |init| { k := UnplacedMeans(ix, rows[..|rows| - 1], m); } else { k := |rows| - 1; }
  }

  lemma {:induction false} PickFrom<A, B>(s: seq<A>, keep: A -> bool, make: A -> B, m: nat) returns (k: nat)
    requires m < |Pick(s, keep, make)|
    ensures k < |s| && keep(s[k]) && Pick(s, keep, make)[m] == make(s[k])
  {
    var init := Pick(s[..|s| - 1], keep, make);
    if m < |init| { k := PickFrom(s[..|s| - 1], keep, make, m); } else { k := |s| - 1; }
  }

  lemma JoinedAt(snap: Snapshot, roster: seq<Seat>, rows: seq<Joined>, k: nat)
    requires Sound(snap) && IsJoin(snap, roster, rows) && k < |rows| && rows[k].bus.Some?
    ensures if rows[k].row.pane != "-" then At(snap, roster, rows[k].bus.value, rows[k].row.pane)
            else forall p :: p != "-" ==> !At(snap, roster, rows[k].bus.value, p)
  {
    RowsAreTrue(snap, roster, rows, k);
    var i := rows[k].bus.value;
    forall p | At(snap, roster, i, rows[k].row.pane) && At(snap, roster, i, p) ensures p == rows[k].row.pane {
      OnePlace(snap, roster, i, rows[k].row.pane, p);
    }
  }

  lemma PaneInPlace(snap: Snapshot, roster: seq<Seat>, ix: Index, rows: seq<Joined>, pane: PaneInfo)
    requires Sound(snap) && IsJoin(snap, roster, rows) && CleanRows(roster, rows) && Indexed(roster, ix) &&
      Covers(ix, rows)
    ensures InPlace(snap, roster, pane.id, ShowPane(PlacedOf(ix, rows), pane).tree)
  {
    if pane.id in PlacedOf(ix, rows) {
      var k := PlacedMeans(ix, rows, pane.id);
      ShownNests(roster, ix, rows, k);
      if rows[k].bus.Some? { JoinedAt(snap, roster, rows, k); }
    }
  }

  /**
   * Every pane of the board shows its own row, every unplaced row has no pane,
   * and every subagent is under its parent.
   */
  lemma EachRowInPlace(snap: Snapshot, roster: seq<Seat>, board: Board)
    requires Sound(snap) && KnownRows(roster) && IsBoard(snap, roster, board)
    ensures forall m :: 0 <= m < |board.unplaced| ==> Adrift(snap, roster, board.unplaced[m])
    ensures forall w, t, p ::
      (0 <= w < |board.workspaces| && 0 <= t < |board.workspaces[w].tabs| &&
       0 <= p < |board.workspaces[w].tabs[t].panes|) ==>
      InPlace(snap, roster, board.workspaces[w].tabs[t].panes[p].id, board.workspaces[w].tabs[t].panes[p].tree)
  {
    var rows: seq<Joined> :| BoardFrom(snap, roster, rows, board);
    var ix := IndexAfter(roster, rows, |roster|);
    JoinIsClean(snap, roster, rows);
    CleanIsIndexed(roster, rows);
    forall m: nat | m < |board.unplaced| ensures Adrift(snap, roster, board.unplaced[m]) {
      var k := UnplacedMeans(ix, rows, m);
      ShownNests(roster, ix, rows, k);
      if rows[k].bus.Some? { JoinedAt(snap, roster, rows, k); }
    }
    var placed := PlacedOf(ix, rows);
    forall w: nat, t: nat, p: nat | w < |board.workspaces| && t < |board.workspaces[w].tabs| &&
      p < |board.workspaces[w].tabs[t].panes|
      ensures InPlace(snap, roster, board.workspaces[w].tabs[t].panes[p].id, board.workspaces[w].tabs[t].panes[p].tree)
    {
      var a := PickFrom(snap.workspaces, Every, WorkspaceShower(placed, snap), w);
      var b := PickFrom(snap.tabs, OfWorkspace(snap.workspaces[a]), TabShower(placed, snap.panes), t);
      var c := PickFrom(snap.panes, OfTab(snap.tabs[b].id), PaneShower(placed), p);
      PaneInPlace(snap, roster, ix, rows, snap.panes[c]);
    }
  }
}
