/**
 * What the board shows: with valid inputs and unique names, a roster row is on
 * the board exactly once when its parents lead up to a row without one, and not
 * at all when they run in a circle.
 */
module FleetShown {
  import opened Common
  import opened Sorting
  import opened Roster
  import opened FleetJoin
  import opened FleetBoard

  // ----- ancestry

  function BaseIndex(rows: seq<Seat>, base: string): (r: Option<nat>)
    ensures r.Some? ==> r.value < |rows| && LastWithBase(rows, base) == Some(rows[r.value])
    ensures r.None? ==> LastWithBase(rows, base).None?
  {
    if rows == [] then None
    else if rows[|rows| - 1].baseName == base then Some(|rows| - 1)
    else BaseIndex(rows[..|rows| - 1], base)
  }

  /** The index of the row a roster row's parent name proves. */
  function ParentIndex(roster: seq<Seat>, i: nat): (r: Option<nat>)
    requires i < |roster|
    ensures r.Some? <==> Parent(roster, roster[i]).Some?
    ensures r.Some? ==> r.value < |roster| && Parent(roster, roster[i]) == Some(roster[r.value])
  {
    if Parent(roster, roster[i]).Some? then
      LastWithBaseMeans(roster, roster[i].parentName);
      BaseIndex(roster, roster[i].parentName)
    else None
  }

  /** The n-th ancestor. */
  function Up(roster: seq<Seat>, i: nat, n: nat): (r: Option<nat>)
    requires i < |roster|
    ensures r.Some? ==> r.value < |roster|
    decreases n
  {
    if n == 0 then Some(i)
    else
      match ParentIndex(roster, i)
      case None => None
      case Some(p) => Up(roster, p, n - 1)
  }

  /** The row's parents end after d steps at a row without one. */
  predicate Depth(roster: seq<Seat>, i: nat, d: nat)
    decreases d
  {
    i < |roster| &&
    match ParentIndex(roster, i)
    case None => d == 0
    case Some(p) => d > 0 && Depth(roster, p, d - 1)
  }

  ghost predicate Rooted(roster: seq<Seat>, i: nat) { exists d: nat :: Depth(roster, i, d) }

  /** Row r is i or one of its ancestors. */
  ghost predicate Descends(roster: seq<Seat>, i: nat, r: nat) {
    i < |roster| && exists n: nat :: Up(roster, i, n) == Some(r)
  }

  lemma {:induction false} DepthUnique(roster: seq<Seat>, i: nat, a: nat, b: nat)
    requires Depth(roster, i, a) && Depth(roster, i, b)
    ensures a == b
    decreases a
  {
    if a > 0 { DepthUnique(roster, ParentIndex(roster, i).value, a - 1, b - 1); }
  }

  lemma {:induction false} UpDepth(roster: seq<Seat>, i: nat, n: nat, r: nat, d: nat)
    requires i < |roster| && Up(roster, i, n) == Some(r) && Depth(roster, r, d)
    ensures Depth(roster, i, n + d)
    decreases n
  {
    if n > 0 { UpDepth(roster, ParentIndex(roster, i).value, n - 1, r, d); }
  }

  /** Going up one more step is taking the parent of the ancestor. */
  lemma {:induction false} UpOneMore(roster: seq<Seat>, i: nat, n: nat, c: nat)
    requires i < |roster| && Up(roster, i, n) == Some(c)
    ensures Up(roster, i, n + 1) == ParentIndex(roster, c)
    decreases n
  {
    if n > 0 {
      UpOneMore(roster, ParentIndex(roster, i).value, n - 1, c);
    } else {
      var p := ParentIndex(roster, i);
      if p.Some? { assert Up(roster, p.value, 0) == Some(p.value); }
    }
  }

  lemma {:induction false} UpDefined(roster: seq<Seat>, i: nat, n: nat)
    requires i < |roster| && Up(roster, i, n + 1).Some?
    ensures Up(roster, i, n).Some?
    decreases n
  {
    if n > 0 { UpDefined(roster, ParentIndex(roster, i).value, n - 1); }
  }

  /** A row descends from r exactly when it is r or descends from one of r's children. */
  lemma DescendsStep(roster: seq<Seat>, i: nat, r: nat) returns (c: nat)
    requires Descends(roster, i, r) && i != r
    ensures c < |roster| && ParentIndex(roster, c) == Some(r) && Descends(roster, i, c)
  {
    var n: nat :| Up(roster, i, n) == Some(r);
    UpDefined(roster, i, n - 1);
    c := Up(roster, i, n - 1).value;
    UpOneMore(roster, i, n - 1, c);
  }

  lemma DescendsBack(roster: seq<Seat>, i: nat, c: nat, r: nat)
    requires c < |roster| && ParentIndex(roster, c) == Some(r) && Descends(roster, i, c)
    ensures Descends(roster, i, r)
  {
    var n: nat :| Up(roster, i, n) == Some(c);
    UpOneMore(roster, i, n, c);
  }

  /** Two ancestors at the same depth are one. */
  lemma SameDepthSame(roster: seq<Seat>, i: nat, a: nat, b: nat, d: nat)
    requires Descends(roster, i, a) && Descends(roster, i, b) && Depth(roster, a, d) && Depth(roster, b, d)
    ensures a == b
  {
    var n: nat :| Up(roster, i, n) == Some(a);
    var m: nat :| Up(roster, i, m) == Some(b);
    UpDepth(roster, i, n, a, d);
    UpDepth(roster, i, m, b, d);
    DepthUnique(roster, i, n + d, m + d);
  }

  // ----- counting a row in a tree

  function CountTree(t: Tree, i: nat): nat {
    (if t.bus == Some(i) then 1 else 0) + CountTrees(t.kids, i)
  }

  function CountTrees(ts: seq<Tree>, i: nat): nat {
    if ts == [] then 0 else CountTrees(ts[..|ts| - 1], i) + CountTree(ts[|ts| - 1], i)
  }

  function InTree(i: nat): Tree -> nat { (t: Tree) => CountTree(t, i) }

  lemma {:induction false} CountTreesIsSum(ts: seq<Tree>, i: nat)
    ensures CountTrees(ts, i) == Sum(ts, InTree(i))
  {
    if ts != [] { CountTreesIsSum(ts[..|ts| - 1], i); }
  }

  // ----- the index of a roster with unique names

  predicate UniqueNames(roster: seq<Seat>) {
    forall i, j :: 0 <= i < j < |roster| ==> roster[i].name != roster[j].name
  }

  /** Row c, among the first n, is called name and has parent r. */
  predicate IsChild(roster: seq<Seat>, n: nat, r: nat, name: string, c: nat)
    requires n <= |roster|
  {
    c < n && roster[c].name == name && ParentIndex(roster, c) == Some(r)
  }

  ghost predicate NamesChild(roster: seq<Seat>, n: nat, r: nat, name: string)
    requires n <= |roster|
  {
    exists c: nat :: IsChild(roster, n, r, name, c)
  }

  /** The names listed under a roster row are exactly its children, each once. */
  ghost predicate ListsChildren(roster: seq<Seat>, list: seq<string>, r: nat, n: nat)
    requires n <= |roster|
  {
    && Distinct(list)
    && (forall c: nat, name :: IsChild(roster, n, r, name, c) ==> name in list)
    && (forall k :: 0 <= k < |list| ==> NamesChild(roster, n, r, list[k]))
  }

  predicate RowOf(roster: seq<Seat>, j: Joined, i: nat) {
    i < |roster| && j.bus == Some(i) && j.row.agent == roster[i].name
  }

  /** The index knows every roster row by its name, its children and whether it is one. */
  ghost predicate Indexed(roster: seq<Seat>, ix: Index) {
    && Closed(ix)
    && (forall i: nat :: i < |roster| ==> roster[i].name in ix.byAgent && RowOf(roster, ix.byAgent[roster[i].name], i))
    && (forall r: nat :: r < |roster| ==> ListsChildren(roster, Listed(ix.children, roster[r].name), r, |roster|))
    && (forall i: nat :: i < |roster| ==> (roster[i].name in ix.proven <==> ParentIndex(roster, i).Some?))
  }

  /** Names above a row, all strictly nearer to the root. */
  ghost predicate Nearer(roster: seq<Seat>, above: set<string>, d: nat) {
    forall a :: a in above ==> exists q: nat, e: nat :: e < d && Depth(roster, q, e) && roster[q].name == a
  }

  lemma NotAbove(roster: seq<Seat>, above: set<string>, r: nat, d: nat)
    requires UniqueNames(roster) && Nearer(roster, above, d) && Depth(roster, r, d)
    ensures roster[r].name !in above
    ensures Nearer(roster, above + {roster[r].name}, d + 1)
  {
    if roster[r].name in above {
      var q: nat, e: nat :| e < d && Depth(roster, q, e) && roster[q].name == roster[r].name;
      DepthUnique(roster, r, d, e);
    }
    forall a | a in above + {roster[r].name}
      ensures exists q: nat, e: nat :: e < d + 1 && Depth(roster, q, e) && roster[q].name == a
    {
      if a == roster[r].name {
        assert d < d + 1 && Depth(roster, r, d) && roster[r].name == a;
      } else {
        var q: nat, e: nat :| e < d && Depth(roster, q, e) && roster[q].name == a;
        assert e < d + 1 && Depth(roster, q, e) && roster[q].name == a;
      }
    }
  }

  /** The trees of r's children, each counting row i as its root does. */
  ghost predicate KidTrees(roster: seq<Seat>, list: seq<string>, trees: seq<Tree>, r: nat, i: nat) {
    && i < |roster| && |trees| == |list| && ListsChildren(roster, list, r, |roster|)
    && (forall k, c: nat :: 0 <= k < |list| && c < |roster| && roster[c].name == list[k] ==>
          CountTree(trees[k], i) == if Descends(roster, i, c) then 1 else 0)
  }

  lemma ChildAt(roster: seq<Seat>, list: seq<string>, r: nat, d: nat, k: nat) returns (c: nat)
    requires Depth(roster, r, d) && ListsChildren(roster, list, r, |roster|) && k < |list|
    ensures c < |roster| && roster[c].name == list[k] && ParentIndex(roster, c) == Some(r) && Depth(roster, c, d + 1)
  {
    assert NamesChild(roster, |roster|, r, list[k]);
    c :| IsChild(roster, |roster|, r, list[k], c);
  }

  lemma OtherKidCounts(roster: seq<Seat>, list: seq<string>, trees: seq<Tree>, r: nat, d: nat, i: nat, c: nat,
    at: nat, k: nat)
    requires Depth(roster, r, d) && KidTrees(roster, list, trees, r, i)
    requires c < |roster| && ParentIndex(roster, c) == Some(r) && Descends(roster, i, c)
    requires at < |list| && list[at] == roster[c].name && k < |list| && k != at
    ensures CountTree(trees[k], i) == 0
  {
    var o := ChildAt(roster, list, r, d, k);
    if Descends(roster, i, o) { SameDepthSame(roster, i, c, o, d + 1); }
  }

  /** A descendant is in one child's tree. */
  lemma KidsCountOne(roster: seq<Seat>, list: seq<string>, trees: seq<Tree>, r: nat, d: nat, i: nat)
    requires Depth(roster, r, d) && KidTrees(roster, list, trees, r, i) && i != r && Descends(roster, i, r)
    ensures CountTrees(trees, i) == 1
  {
    CountTreesIsSum(trees, i);
    var c := DescendsStep(roster, i, r);
    assert IsChild(roster, |roster|, r, roster[c].name, c);
    var at :| 0 <= at < |list| && list[at] == roster[c].name;
    forall k | 0 <= k < |trees| && k != at ensures InTree(i)(trees[k]) == 0 {
      OtherKidCounts(roster, list, trees, r, d, i, c, at, k);
    }
    SumOne(trees, InTree(i), at);
  }

  /** Any other row is in none. */
  lemma KidsCountNone(roster: seq<Seat>, list: seq<string>, trees: seq<Tree>, r: nat, d: nat, i: nat)
    requires Depth(roster, r, d) && KidTrees(roster, list, trees, r, i) && !(i != r && Descends(roster, i, r))
    ensures CountTrees(trees, i) == 0
  {
    CountTreesIsSum(trees, i);
    forall k | 0 <= k < |trees| ensures InTree(i)(trees[k]) == 0 {
      var o := ChildAt(roster, list, r, d, k);
      if Descends(roster, i, o) { NotOwnAncestor(roster, i, o, r, d); }
    }
    SumNone(trees, InTree(i));
  }

  lemma NotOwnAncestor(roster: seq<Seat>, i: nat, c: nat, r: nat, d: nat)
    requires c < |roster| && ParentIndex(roster, c) == Some(r) && Descends(roster, i, c) && Depth(roster, r, d)
    ensures i != r && Descends(roster, i, r)
  {
    DescendsBack(roster, i, c, r);
    var n: nat :| Up(roster, i, n) == Some(c);
    UpDepth(roster, i, n, c, d + 1);
    if i == r { DepthUnique(roster, i, d, n + d + 1); }
  }

  lemma AttachUnfolds(ix: Index, j: Joined, above: set<string>, i: nat)
    requires Closed(ix) && j.row.agent in ix.byAgent && j.row.agent !in above
    ensures CountTree(Attach(ix, j, above), i) ==
      (if j.bus == Some(i) then 1 else 0) +
        CountTrees(AttachAll(ix, Listed(ix.children, j.row.agent), above + {j.row.agent}), i)
  {
    var trees := AttachAll(ix, Listed(ix.children, j.row.agent), above + {j.row.agent});
    CountTreesIsSum(trees, i);
    SortSum(TreeLess, trees, InTree(i));
    CountTreesIsSum(Sort(TreeLess, trees), i);
  }

  /** A rooted row's tree shows each of its descendants once and nothing else. */
  lemma {:induction false} AttachCount(roster: seq<Seat>, ix: Index, j: Joined, above: set<string>, r: nat,
    d: nat, i: nat)
    requires UniqueNames(roster) && Indexed(roster, ix) && RowOf(roster, j, r) && i < |roster|
    requires Depth(roster, r, d) && Nearer(roster, above, d)
    ensures CountTree(Attach(ix, j, above), i) == if Descends(roster, i, r) then 1 else 0
    decreases |ix.byAgent.Keys - above|
  {
    NotAbove(roster, above, r, d);
    var name := roster[r].name;
    Shrinks(ix.byAgent.Keys, above, name);
    var list := Listed(ix.children, name);
    var trees := AttachAll(ix, list, above + {name});
    AttachAllAt(ix, list, above + {name});
    forall k, c: nat | 0 <= k < |list| && c < |roster| && roster[c].name == list[k]
      ensures CountTree(trees[k], i) == if Descends(roster, i, c) then 1 else 0
    {
      var o := ChildAt(roster, list, r, d, k);
      AttachCount(roster, ix, ix.byAgent[list[k]], above + {name}, o, d + 1, i);
    }
    AttachUnfolds(ix, j, above, i);
    if i != r && Descends(roster, i, r) {
      KidsCountOne(roster, list, trees, r, d, i);
    } else {
      KidsCountNone(roster, list, trees, r, d, i);
    }
    assert Up(roster, r, 0) == Some(r);
  }

  // ----- the index of a joined roster

  /** Rows of the join over a roster with unique names and known statuses. */
  predicate CleanRows(roster: seq<Seat>, rows: seq<Joined>) {
    && UniqueNames(roster)
    && (forall k :: 0 <= k < |rows| ==>
          if rows[k].bus.Some? then RowOf(roster, rows[k], rows[k].bus.value) && rows[k].row.busStatus != "-"
          else rows[k].row.busStatus == "-")
    && (forall i: nat :: i < |roster| ==> exists k :: 0 <= k < |rows| && rows[k].bus == Some(i))
    && (forall a, b :: 0 <= a < b < |rows| && rows[a].bus.Some? ==> rows[a].bus != rows[b].bus)
  }

  lemma {:induction false} ByAgentRight(roster: seq<Seat>, rows: seq<Joined>)
    requires forall k :: 0 <= k < |rows| ==>
      if rows[k].bus.Some? then RowOf(roster, rows[k], rows[k].bus.value) && rows[k].row.busStatus != "-"
      else rows[k].row.busStatus == "-"
    ensures forall n :: n in ByAgent(rows) ==>
      ByAgent(rows)[n].bus.Some? && RowOf(roster, ByAgent(rows)[n], ByAgent(rows)[n].bus.value)
  {
    if rows != [] { ByAgentRight(roster, rows[..|rows| - 1]); }
  }

  lemma ByAgentKnows(roster: seq<Seat>, rows: seq<Joined>, i: nat)
    requires CleanRows(roster, rows) && i < |roster|
    ensures roster[i].name in ByAgent(rows) && RowOf(roster, ByAgent(rows)[roster[i].name], i)
  {
    ByAgentRight(roster, rows);
    ByAgentKeyed(rows);
    var k :| 0 <= k < |rows| && rows[k].bus == Some(i);
    assert RowOf(roster, rows[k], i);
    var j := ByAgent(rows)[roster[i].name];
    assert roster[j.bus.value].name == roster[i].name;
  }

  /** Recording parents changes no row's origin or name. */
  lemma {:induction false} TagsKeep(roster: seq<Seat>, rows: seq<Joined>, n: nat, m: string)
    requires n <= |roster|
    ensures var t := IndexAfter(roster, rows, n).byAgent;
      (m in t <==> m in ByAgent(rows)) &&
        (m in t ==> t[m].bus == ByAgent(rows)[m].bus && t[m].row.agent == ByAgent(rows)[m].row.agent)
  {
    if n > 0 { TagsKeep(roster, rows, n - 1, m); }
  }

  lemma VisibleIsParent(roster: seq<Seat>, rows: seq<Joined>, i: nat)
    requires CleanRows(roster, rows) && i < |roster|
    ensures VisibleParent(roster, ByAgent(rows).Keys, i) ==
      if ParentIndex(roster, i).Some? then Some(roster[ParentIndex(roster, i).value].name) else None
  {
    ByAgentKnows(roster, rows, i);
    var p := ParentIndex(roster, i);
    if p.Some? { ByAgentKnows(roster, rows, p.value); }
  }

  lemma {:induction false} ChildrenListed(roster: seq<Seat>, rows: seq<Joined>, n: nat, r: nat)
    requires CleanRows(roster, rows) && n <= |roster| && r < |roster|
    ensures ListsChildren(roster, Listed(IndexAfter(roster, rows, n).children, roster[r].name), r, n)
  {
    hide ListsChildren, ParentIndex, VisibleParent, ByAgent;
    if n == 0 {
      NothingListed(roster, r);
    } else {
      ChildrenListed(roster, rows, n - 1, r);
      VisibleIsParent(roster, rows, n - 1);
      var list := Listed(IndexAfter(roster, rows, n - 1).children, roster[r].name);
      var now := Listed(IndexAfter(roster, rows, n).children, roster[r].name);
      if ParentIndex(roster, n - 1) == Some(r) {
        assert now == list + [roster[n - 1].name];
        ListGrows(roster, list, r, n);
      } else {
        assert now == list;
        ListStays(roster, list, r, n);
      }
    }
  }

  lemma NothingListed(roster: seq<Seat>, r: nat)
    ensures ListsChildren(roster, [], r, 0)
  {
  }

  lemma ListGrows(roster: seq<Seat>, list: seq<string>, r: nat, n: nat)
    requires UniqueNames(roster) && 0 < n <= |roster| && ListsChildren(roster, list, r, n - 1) &&
      ParentIndex(roster, n - 1) == Some(r)
    ensures ListsChildren(roster, list + [roster[n - 1].name], r, n)
  {
    var name := roster[n - 1].name;
    var now := list + [name];
    forall k | 0 <= k < |now| ensures NamesChild(roster, n, r, now[k]) {
      if k < |list| {
        assert NamesChild(roster, n - 1, r, list[k]);
        var c: nat :| IsChild(roster, n - 1, r, list[k], c);
        assert IsChild(roster, n, r, now[k], c);
      } else {
        assert IsChild(roster, n, r, now[k], n - 1);
      }
    }
    forall k | 0 <= k < |list| ensures list[k] != name {
      assert NamesChild(roster, n - 1, r, list[k]);
      var c: nat :| IsChild(roster, n - 1, r, list[k], c);
    }
    assert Distinct(now);
    forall c: nat, m | IsChild(roster, n, r, m, c) ensures m in now {
      if c == n - 1 { assert now[|list|] == name; } else { assert IsChild(roster, n - 1, r, m, c); }
    }
  }

  lemma ListStays(roster: seq<Seat>, list: seq<string>, r: nat, n: nat)
    requires 0 < n <= |roster| && ListsChildren(roster, list, r, n - 1) && ParentIndex(roster, n - 1) != Some(r)
    ensures ListsChildren(roster, list, r, n)
  {
    forall k | 0 <= k < |list| ensures NamesChild(roster, n, r, list[k]) {
      assert NamesChild(roster, n - 1, r, list[k]);
      var c: nat :| IsChild(roster, n - 1, r, list[k], c);
      assert IsChild(roster, n, r, list[k], c);
    }
    forall c: nat, m | IsChild(roster, n, r, m, c) ensures m in list {
      assert IsChild(roster, n - 1, r, m, c);
    }
  }

  lemma {:induction false} ProvenMeans(roster: seq<Seat>, rows: seq<Joined>, n: nat, i: nat)
    requires CleanRows(roster, rows) && n <= |roster| && i < |roster|
    ensures roster[i].name in IndexAfter(roster, rows, n).proven <==> i < n && ParentIndex(roster, i).Some?
  {
    if n > 0 {
      ProvenMeans(roster, rows, n - 1, i);
      VisibleIsParent(roster, rows, n - 1);
      assert i != n - 1 ==> roster[i].name != roster[n - 1].name;
    }
  }

  lemma CleanIsIndexed(roster: seq<Seat>, rows: seq<Joined>)
    requires CleanRows(roster, rows)
    ensures Indexed(roster, IndexAfter(roster, rows, |roster|))
  {
    var ix := IndexAfter(roster, rows, |roster|);
    IndexClosed(roster, rows, |roster|);
    forall i: nat | i < |roster| ensures roster[i].name in ix.byAgent && RowOf(roster, ix.byAgent[roster[i].name], i) {
      ByAgentKnows(roster, rows, i);
      TagsKeep(roster, rows, |roster|, roster[i].name);
    }
    forall r: nat | r < |roster| ensures ListsChildren(roster, Listed(ix.children, roster[r].name), r, |roster|) {
      ChildrenListed(roster, rows, |roster|, r);
    }
    forall i: nat | i < |roster| ensures roster[i].name in ix.proven <==> ParentIndex(roster, i).Some? {
      ProvenMeans(roster, rows, |roster|, i);
    }
  }
}
