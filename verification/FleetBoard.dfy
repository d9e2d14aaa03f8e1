/**
 * The board built from the join: workspaces, tabs and panes, rows that are at
 * no pane, and subagents nested under the roster row their parent name proves.
 */
module FleetBoard {
  import opened Common
  import opened Text
  import opened Sorting
  import opened Roster
  import opened FleetJoin

  datatype Tree = Tree(row: Row, bus: Option<nat>, kids: seq<Tree>)

  datatype BoardPane = BoardPane(id: string, tree: Tree)

  datatype BoardTab = BoardTab(id: string, panes: seq<BoardPane>)

  datatype BoardWorkspace = BoardWorkspace(id: string, tabs: seq<BoardTab>)

  datatype Board = Board(workspaces: seq<BoardWorkspace>, unplaced: seq<Tree>)

  // ----- who is whose child

  /** Rows on the bus by agent name; the last one wins. */
  function ByAgent(rows: seq<Joined>): map<string, Joined> {
    if rows == [] then map[]
    else
      var m, j := ByAgent(rows[..|rows| - 1]), rows[|rows| - 1];
      if j.row.busStatus != "-" then m[j.row.agent := j] else m
  }

  /** The parent a roster row is nested under: proved by its parent name, and both visible. */
  function VisibleParent(roster: seq<Seat>, names: set<string>, i: nat): Option<string>
    requires i < |roster|
  {
    match Parent(roster, roster[i])
    case Some(p) => if roster[i].name in names && p.name in names then Some(p.name) else None
    case None => None
  }

  datatype Index = Index(byAgent: map<string, Joined>, children: map<string, seq<string>>, proven: set<string>)

  predicate Keyed(m: map<string, Joined>) { forall n :: n in m ==> m[n].row.agent == n }

  /** Every listed child has a row of its own. */
  predicate Closed(ix: Index) {
    Keyed(ix.byAgent) && forall p, k :: p in ix.children && 0 <= k < |ix.children[p]| ==>
      ix.children[p][k] in ix.byAgent
  }

  function IndexStep(roster: seq<Seat>, names: set<string>, ix: Index, i: nat): Index
    requires i < |roster|
  {
    match VisibleParent(roster, names, i)
    case None => ix
    case Some(p) =>
      var child := roster[i].name;
      Index(if child in ix.byAgent
              then ix.byAgent[child := ix.byAgent[child].(row := ix.byAgent[child].row.(parent := p))]
              else ix.byAgent,
            ix.children[p := Listed(ix.children, p) + [child]],
            ix.proven + {child})
  }

  /** The index after the first n roster rows. */
  function IndexAfter(roster: seq<Seat>, rows: seq<Joined>, n: nat): Index
    requires n <= |roster|
  {
    if n == 0 then Index(ByAgent(rows), map[], {})
    else IndexStep(roster, ByAgent(rows).Keys, IndexAfter(roster, rows, n - 1), n - 1)
  }

  lemma {:induction false} ByAgentKeyed(rows: seq<Joined>)
    ensures Keyed(ByAgent(rows))
    ensures forall k :: 0 <= k < |rows| && rows[k].row.busStatus != "-" ==> rows[k].row.agent in ByAgent(rows)
  {
    if rows != [] { ByAgentKeyed(rows[..|rows| - 1]); }
  }

  lemma {:induction false} IndexClosed(roster: seq<Seat>, rows: seq<Joined>, n: nat)
    requires n <= |roster|
    ensures IndexAfter(roster, rows, n).byAgent.Keys == ByAgent(rows).Keys && Closed(IndexAfter(roster, rows, n))
  {
    ByAgentKeyed(rows);
    if n > 0 { IndexClosed(roster, rows, n - 1); }
  }

  // ----- nesting

  predicate TreeLess(a: Tree, b: Tree) { TextLess(a.row.agent, b.row.agent) }

  /** Nests a row's children under it; a name already above is not nested again, so this ends on every roster. */
  function Attach(ix: Index, j: Joined, above: set<string>): Tree
    requires Closed(ix) && j.row.agent in ix.byAgent
    decreases |ix.byAgent.Keys - above|, 0
  {
    if j.row.agent in above then Tree(j.row, j.bus, [])
    else
      Shrinks(ix.byAgent.Keys, above, j.row.agent);
      Tree(j.row, j.bus, Sort(TreeLess, AttachAll(ix, Listed(ix.children, j.row.agent), above + {j.row.agent})))
  }

  function AttachAll(ix: Index, names: seq<string>, above: set<string>): seq<Tree>
    requires Closed(ix) && forall k :: 0 <= k < |names| ==> names[k] in ix.byAgent
    decreases |ix.byAgent.Keys - above|, |names|
  {
    if names == [] then []
    else AttachAll(ix, names[..|names| - 1], above) + [Attach(ix, ix.byAgent[names[|names| - 1]], above)]
  }

  lemma Shrinks(all: set<string>, above: set<string>, x: string)
    requires x in all && x !in above
    ensures |all - (above + {x})| < |all - above|
  {
    assert all - above == (all - (above + {x})) + {x};
  }

  lemma {:induction false} AttachAllAt(ix: Index, names: seq<string>, above: set<string>)
    requires Closed(ix) && forall k :: 0 <= k < |names| ==> names[k] in ix.byAgent
    ensures |AttachAll(ix, names, above)| == |names|
    ensures forall k :: 0 <= k < |names| ==> AttachAll(ix, names, above)[k] == Attach(ix, ix.byAgent[names[k]], above)
    decreases |names|
  {
    if names != [] { AttachAllAt(ix, names[..|names| - 1], above); }
  }

  // ----- assembling the board

  predicate Covers(ix: Index, rows: seq<Joined>) {
    Closed(ix) && forall k :: 0 <= k < |rows| && rows[k].row.busStatus != "-" ==> rows[k].row.agent in ix.byAgent
  }

  predicate Skipped(ix: Index, j: Joined) { j.row.agent in ix.proven && j.row.busStatus != "-" }

  function Shown(ix: Index, j: Joined): Tree
    requires Covers(ix, [j])
  {
    assert [j][0] == j;
    if j.row.busStatus != "-" then Attach(ix, j, {}) else Tree(j.row, j.bus, [])
  }

  function UnplacedOf(ix: Index, rows: seq<Joined>): seq<Tree>
    requires Covers(ix, rows)
  {
    if rows == [] then []
    else
      var j, init := rows[|rows| - 1], UnplacedOf(ix, rows[..|rows| - 1]);
      if Skipped(ix, j) || j.row.pane != "-" then init else init + [Shown(ix, j)]
  }

  function PlacedOf(ix: Index, rows: seq<Joined>): map<string, Tree>
    requires Covers(ix, rows)
  {
    if rows == [] then map[]
    else
      var j, init := rows[|rows| - 1], PlacedOf(ix, rows[..|rows| - 1]);
      if Skipped(ix, j) || j.row.pane == "-" then init else init[j.row.pane := Shown(ix, j)]
  }

  /** What a pane with no joined row shows. */
  function PlainTree(pane: PaneInfo): Tree {
    if pane.tool == "" && pane.session == ""
    then Tree(Row(pane.id, "-", "-", "-", "-", "-", ""), None, [])
    else Tree(Row(pane.id, Display(pane.title), Display(pane.tool), Display(FirstNonEmpty([pane.status, "visible"])),
      "-", "no bus row", ""), None, [])
  }

  function ShowPane(placed: map<string, Tree>, pane: PaneInfo): BoardPane {
    BoardPane(pane.id, if pane.id in placed then placed[pane.id] else PlainTree(pane))
  }

  function PanesOf(placed: map<string, Tree>, panes: seq<PaneInfo>, tab: string): seq<BoardPane> {
    Pick(panes, OfTab(tab), PaneShower(placed))
  }

  function OfTab(tab: string): PaneInfo -> bool { (p: PaneInfo) => p.tab == tab }

  function PaneShower(placed: map<string, Tree>): PaneInfo -> BoardPane { (p: PaneInfo) => ShowPane(placed, p) }

  function ShowTab(placed: map<string, Tree>, panes: seq<PaneInfo>, tab: TabInfo): BoardTab {
    BoardTab(tab.id, PanesOf(placed, panes, tab.id))
  }

  function TabsOf(placed: map<string, Tree>, panes: seq<PaneInfo>, tabs: seq<TabInfo>,
    workspace: string): seq<BoardTab> {
    Pick(tabs, OfWorkspace(workspace), TabShower(placed, panes))
  }

  function OfWorkspace(workspace: string): TabInfo -> bool { (t: TabInfo) => t.workspace == workspace }

  function TabShower(placed: map<string, Tree>, panes: seq<PaneInfo>): TabInfo -> BoardTab {
    (t: TabInfo) => ShowTab(placed, panes, t)
  }

  function ShowWorkspace(placed: map<string, Tree>, snap: Snapshot, id: string): BoardWorkspace {
    BoardWorkspace(id, TabsOf(placed, snap.panes, snap.tabs, id))
  }

  function WorkspacesOf(placed: map<string, Tree>, snap: Snapshot, ids: seq<string>): seq<BoardWorkspace> {
    Pick(ids, Every, WorkspaceShower(placed, snap))
  }

  predicate Every(id: string) { true }

  function WorkspaceShower(placed: map<string, Tree>, snap: Snapshot): string -> BoardWorkspace {
    (id: string) => ShowWorkspace(placed, snap, id)
  }

  function BoardOf(snap: Snapshot, ix: Index, rows: seq<Joined>): Board
    requires Covers(ix, rows)
  {
    Board(WorkspacesOf(PlacedOf(ix, rows), snap, snap.workspaces), UnplacedOf(ix, rows))
  }

  /** The board of a snapshot and a roster. */
  ghost predicate IsBoard(snap: Snapshot, roster: seq<Seat>, board: Board) {
    exists rows: seq<Joined> :: BoardFrom(snap, roster, rows, board)
  }

  ghost predicate BoardFrom(snap: Snapshot, roster: seq<Seat>, rows: seq<Joined>, board: Board) {
    var ix := IndexAfter(roster, rows, |roster|);
    IsJoin(snap, roster, rows) && Covers(ix, rows) && board == BoardOf(snap, ix, rows)
  }

  // ----- the loops

  lemma PanesOfSnoc(placed: map<string, Tree>, panes: seq<PaneInfo>, i: nat, tab: string)
    requires i < |panes|
    ensures PanesOf(placed, panes[..i + 1], tab) ==
      if panes[i].tab == tab then PanesOf(placed, panes[..i], tab) + [ShowPane(placed, panes[i])]
        else PanesOf(placed, panes[..i], tab)
  {
    assert panes[..i + 1][..i] == panes[..i];
  }

  lemma TabsOfSnoc(placed: map<string, Tree>, panes: seq<PaneInfo>, tabs: seq<TabInfo>, i: nat, w: string)
    requires i < |tabs|
    ensures TabsOf(placed, panes, tabs[..i + 1], w) ==
      if tabs[i].workspace == w then TabsOf(placed, panes, tabs[..i], w) + [ShowTab(placed, panes, tabs[i])]
        else TabsOf(placed, panes, tabs[..i], w)
  {
    assert tabs[..i + 1][..i] == tabs[..i];
  }

  method BuildIndex(roster: seq<Seat>, rows: seq<Joined>) returns (ix: Index)
    ensures ix == IndexAfter(roster, rows, |roster|) && Covers(ix, rows)
  {
    var byAgent: map<string, Joined> := map[];
    var i := 0;
    while i < |rows|
      invariant 0 <= i <= |rows| && byAgent == ByAgent(rows[..i])
    {
      assert rows[..i + 1][..i] == rows[..i];
      if rows[i].row.busStatus != "-" { byAgent := byAgent[rows[i].row.agent := rows[i]]; }
      i := i + 1;
    }
    assert rows[..i] == rows;
    ghost var names := byAgent.Keys;
    var children: map<string, seq<string>>, proven: set<string> := map[], {};
    i := 0;
    while i < |roster|
      invariant 0 <= i <= |roster| && Index(byAgent, children, proven) == IndexAfter(roster, rows, i)
      invariant byAgent.Keys == names
    {
      var child := roster[i];
      var parent: Option<Seat> := None;
      if child.parentName != "" { parent := FindUniqueBase(roster, child.parentName); }
      if parent.Some? && child.name in byAgent && parent.value.name in byAgent {
        var p := parent.value.name;
        byAgent := byAgent[child.name := byAgent[child.name].(row := byAgent[child.name].row.(parent := p))];
        children := children[p := Listed(children, p) + [child.name]];
        proven := proven + {child.name};
      }
      i := i + 1;
    }
    ix := Index(byAgent, children, proven);
    IndexClosed(roster, rows, |roster|);
    ByAgentKeyed(rows);
  }

  method PlaceRows(ix: Index, rows: seq<Joined>) returns (unplaced: seq<Tree>, placed: map<string, Tree>)
    requires Covers(ix, rows)
    ensures unplaced == UnplacedOf(ix, rows) && placed == PlacedOf(ix, rows)
  {
    unplaced, placed := [], map[];
    var i := 0;
    while i < |rows|
      invariant 0 <= i <= |rows| && unplaced == UnplacedOf(ix, rows[..i]) && placed == PlacedOf(ix, rows[..i])
    {
      assert rows[..i + 1][..i] == rows[..i];
      var j := rows[i];
      if !Skipped(ix, j) {
        var tree := if j.row.busStatus != "-" then Attach(ix, j, {}) else Tree(j.row, j.bus, []);
        assert tree == Shown(ix, j);
        if j.row.pane == "-" { unplaced := unplaced + [tree]; } else { placed := placed[j.row.pane := tree]; }
      }
      i := i + 1;
    }
    assert rows[..i] == rows;
  }

  method GroupPanes(placed: map<string, Tree>, panes: seq<PaneInfo>) returns (groups: map<string, seq<BoardPane>>)
    ensures forall t :: Listed(groups, t) == PanesOf(placed, panes, t)
  {
    groups := map[];
    var i := 0;
    while i < |panes|
      invariant 0 <= i <= |panes| && forall t :: Listed(groups, t) == PanesOf(placed, panes[..i], t)
    {
      var p := panes[i];
      ghost var before := groups;
      groups := groups[p.tab := Listed(groups, p.tab) + [ShowPane(placed, p)]];
      forall t ensures Listed(groups, t) == PanesOf(placed, panes[..i + 1], t) {
        assert Listed(before, t) == PanesOf(placed, panes[..i], t);
        PanesOfSnoc(placed, panes, i, t);
      }
      i := i + 1;
    }
    assert panes[..i] == panes;
  }

  method GroupTabs(placed: map<string, Tree>, snap: Snapshot, panes: map<string, seq<BoardPane>>)
    returns (groups: map<string, seq<BoardTab>>)
    requires forall t :: Listed(panes, t) == PanesOf(placed, snap.panes, t)
    ensures forall w :: Listed(groups, w) == TabsOf(placed, snap.panes, snap.tabs, w)
  {
    groups := map[];
    var i := 0;
    while i < |snap.tabs|
      invariant 0 <= i <= |snap.tabs| && forall w :: Listed(groups, w) == TabsOf(placed, snap.panes, snap.tabs[..i], w)
    {
      var t := snap.tabs[i];
      var tab := BoardTab(t.id, Listed(panes, t.id));
      assert tab == ShowTab(placed, snap.panes, t);
      ghost var before := groups;
      groups := groups[t.workspace := Listed(groups, t.workspace) + [tab]];
      forall w ensures Listed(groups, w) == TabsOf(placed, snap.panes, snap.tabs[..i + 1], w) {
        assert Listed(before, w) == TabsOf(placed, snap.panes, snap.tabs[..i], w);
        TabsOfSnoc(placed, snap.panes, snap.tabs, i, w);
      }
      i := i + 1;
    }
    assert snap.tabs[..i] == snap.tabs;
  }

  method Build(snap: Snapshot, roster: seq<Seat>) returns (board: Board)
    ensures IsBoard(snap, roster, board)
  {
    var rows := JoinRows(snap, roster);
    var ix := BuildIndex(roster, rows);
    var unplaced, placed := PlaceRows(ix, rows);
    var panes := GroupPanes(placed, snap.panes);
    var tabs := GroupTabs(placed, snap, panes);
    var workspaces: seq<BoardWorkspace> := [];
    var i := 0;
    while i < |snap.workspaces|
      invariant 0 <= i <= |snap.workspaces| && workspaces == WorkspacesOf(placed, snap, snap.workspaces[..i])
    {
      assert snap.workspaces[..i + 1][..i] == snap.workspaces[..i];
      var w := snap.workspaces[i];
      assert Listed(tabs, w) == TabsOf(placed, snap.panes, snap.tabs, w);
      workspaces := workspaces + [BoardWorkspace(w, Listed(tabs, w))];
      i := i + 1;
    }
    assert snap.workspaces[..i] == snap.workspaces;
    board := Board(workspaces, unplaced);
    assert BoardFrom(snap, roster, rows, board);
  }
}
