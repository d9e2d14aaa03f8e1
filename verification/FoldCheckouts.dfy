/**
 * The checkout fold of ranked search hits: hits that name one file of one
 * repository become a single result, which counts and lists the checkouts it
 * stands for. Every hit is accounted for.
 */
module FoldCheckouts {
  import opened Common

  const MAX_ALSO_ROOTS := 20

  /** One ranked match; `band` below the global band means it was anchored. */
  datatype Hit = Hit(root: string, path: string, kind: string, band: nat)

  datatype Repo = Repo(group: string, main: bool)

  datatype Context = Context(globalBand: nat, repos: map<string, Repo>, contextRoot: string)

  /** What identifies a file within a repository. */
  datatype Key = Key(group: string, path: string, kind: string)

  predicate Grouped(c: Context, root: string) { root in c.repos && c.repos[root].group != "" }

  predicate IsMain(c: Context, root: string) { root in c.repos && c.repos[root].main }

  predicate Anchored(c: Context, h: Hit) { h.band < c.globalBand }

  function KeyOf(c: Context, h: Hit): Key {
    Key(if h.root in c.repos then c.repos[h.root].group else "", h.path, h.kind)
  }

  /** A shown file: the hit it was first seen as, and the roots of the copies folded into it. */
  datatype Group = Group(first: Hit, copies: seq<string>)

  /** The first group that grouped hits with this key fold into. */
  function IndexOf(c: Context, groups: seq<Group>, k: Key): (r: int)
    ensures -1 <= r < |groups|
  {
    if groups == [] then -1
    else
      var i := IndexOf(c, groups[..|groups| - 1], k);
      if i >= 0 then i
      else if Grouped(c, groups[|groups| - 1].first.root) && KeyOf(c, groups[|groups| - 1].first) == k then |groups| - 1
      else -1
  }

  /** Whether a hit folds into an earlier group. */
  predicate Folds(c: Context, groups: seq<Group>, h: Hit) {
    Grouped(c, h.root) && !Anchored(c, h) && IndexOf(c, groups, KeyOf(c, h)) >= 0
  }

  function FoldHits(c: Context, hits: seq<Hit>): seq<Group> {
    if hits == [] then []
    else
      var groups, h := FoldHits(c, hits[..|hits| - 1]), hits[|hits| - 1];
      if Folds(c, groups, h) then
        var i := IndexOf(c, groups, KeyOf(c, h));
        groups[i := groups[i].(copies := groups[i].copies + [h.root])]
      else groups + [Group(h, [])]
  }

  /** The first main checkout among some roots, or -1. */
  function MainIndex(c: Context, roots: seq<string>): (r: int)
    ensures -1 <= r < |roots|
    ensures r >= 0 ==> IsMain(c, roots[r])
    ensures forall j :: 0 <= j < (if r < 0 then |roots| else r) ==> !IsMain(c, roots[j])
  {
    if roots == [] then -1
    else
      var i := MainIndex(c, roots[..|roots| - 1]);
      assert forall j :: 0 <= j < |roots| - 1 ==> roots[..|roots| - 1][j] == roots[j];
      if i >= 0 then i else if IsMain(c, roots[|roots| - 1]) then |roots| - 1 else -1
  }

  /** Whether the main checkout takes the first copy's place. */
  predicate MainTakesOver(c: Context, g: Group) {
    !Anchored(c, g.first) && g.first.root != c.contextRoot && !IsMain(c, g.first.root) && MainIndex(c, g.copies) >= 0
  }

  datatype Result = Result(root: string, path: string, kind: string, also: nat, alsoRoots: seq<string>)

  /** A group as it is shown: winner, and the other roots best first. */
  function WinnerOf(c: Context, g: Group): string {
    if MainTakesOver(c, g) then g.copies[MainIndex(c, g.copies)] else g.first.root
  }

  function OthersOf(c: Context, g: Group): seq<string> {
    if MainTakesOver(c, g) then
      var i := MainIndex(c, g.copies);
      [g.first.root] + g.copies[..i] + g.copies[i + 1..]
    else g.copies
  }

  function Shown(c: Context, g: Group): Result {
    var others := OthersOf(c, g);
    Result(WinnerOf(c, g), g.first.path, g.first.kind, |others|,
           if |others| > MAX_ALSO_ROOTS then others[..MAX_ALSO_ROOTS] else others)
  }

  // ----- nothing is lost

  datatype File = File(root: string, path: string, kind: string)

  function FileOf(h: Hit): File { File(h.root, h.path, h.kind) }

  /** How often x is among the files at some roots. */
  function TimesAt(roots: seq<string>, path: string, kind: string, x: File): nat {
    if roots == [] then 0
    else TimesAt(roots[..|roots| - 1], path, kind, x) + (if File(roots[|roots| - 1], path, kind) == x then 1 else 0)
  }

  /** How often one shown group stands for x: as its winner or as a copy folded into it. */
  function TimesInGroup(winner: string, others: seq<string>, g: Group, x: File): nat {
    (if File(winner, g.first.path, g.first.kind) == x then 1 else 0) + TimesAt(others, g.first.path, g.first.kind, x)
  }

  function TimesShown(c: Context, groups: seq<Group>, x: File): nat {
    if groups == [] then 0
    else
      var g := groups[|groups| - 1];
      TimesShown(c, groups[..|groups| - 1], x) + TimesInGroup(WinnerOf(c, g), OthersOf(c, g), g, x)
  }

  function TimesFirst(groups: seq<Group>, x: File): nat {
    if groups == [] then 0
    else
      var g := groups[|groups| - 1];
      TimesFirst(groups[..|groups| - 1], x) + TimesInGroup(g.first.root, g.copies, g, x)
  }

  /** How often x was ranked. */
  function TimesRanked(hits: seq<Hit>, x: File): nat {
    if hits == [] then 0 else TimesRanked(hits[..|hits| - 1], x) + (if FileOf(hits[|hits| - 1]) == x then 1 else 0)
  }

  function CountShown(c: Context, groups: seq<Group>): nat {
    if groups == [] then 0 else CountShown(c, groups[..|groups| - 1]) + 1 + Shown(c, groups[|groups| - 1]).also
  }

  function CountFirst(groups: seq<Group>): nat {
    if groups == [] then 0 else CountFirst(groups[..|groups| - 1]) + 1 + |groups[|groups| - 1].copies|
  }

  lemma {:induction false} TimesAtConcat(a: seq<string>, b: seq<string>, path: string, kind: string, x: File)
    ensures TimesAt(a + b, path, kind, x) == TimesAt(a, path, kind, x) + TimesAt(b, path, kind, x)
  {
    if b == [] {
      assert a + b == a;
    } else {
      assert (a + b)[..|a + b| - 1] == a + b[..|b| - 1];
      TimesAtConcat(a, b[..|b| - 1], path, kind, x);
    }
  }

  /** Promoting the main checkout only reorders a group. */
  lemma PromotionKeepsFiles(c: Context, g: Group, x: File)
    ensures TimesInGroup(WinnerOf(c, g), OthersOf(c, g), g, x) == TimesInGroup(g.first.root, g.copies, g, x)
    ensures |OthersOf(c, g)| == |g.copies|
  {
    if MainTakesOver(c, g) {
      var i, p, k := MainIndex(c, g.copies), g.first.path, g.first.kind;
      var a, b := g.copies[..i], g.copies[i + 1..];
      assert g.copies == (a + [g.copies[i]]) + b;
      TimesAtConcat(a + [g.copies[i]], b, p, k, x);
      TimesAtConcat(a, [g.copies[i]], p, k, x);
      TimesAtConcat([g.first.root] + a, b, p, k, x);
      TimesAtConcat([g.first.root], a, p, k, x);
      assert OthersOf(c, g) == ([g.first.root] + a) + b;
    }
  }

  lemma {:induction false} ShownIsFirst(c: Context, groups: seq<Group>, x: File)
    ensures TimesShown(c, groups, x) == TimesFirst(groups, x)
    ensures CountShown(c, groups) == CountFirst(groups)
  {
    if groups != [] {
      ShownIsFirst(c, groups[..|groups| - 1], x);
      PromotionKeepsFiles(c, groups[|groups| - 1], x);
    }
  }

  /** Adding a copy to one group adds exactly that file. */
  lemma {:induction false} CopyAddsFile(groups: seq<Group>, i: nat, root: string, x: File)
    requires i < |groups|
    ensures var g := groups[i]; var more := groups[i := g.(copies := g.copies + [root])];
      && TimesFirst(more, x) == TimesFirst(groups, x) + (if File(root, g.first.path, g.first.kind) == x then 1 else 0)
      && CountFirst(more) == CountFirst(groups) + 1
    decreases |groups|
  {
    var n, g := |groups| - 1, groups[i];
    var more := groups[i := g.(copies := g.copies + [root])];
    if i < n {
      CopyAddsFile(groups[..n], i, root, x);
      assert more[..n] == groups[..n][i := g.(copies := g.copies + [root])];
    } else {
      assert more[..n] == groups[..n];
      TimesAtConcat(g.copies, [root], g.first.path, g.first.kind, x);
    }
  }

  lemma {:induction false} FoldKeepsFiles(c: Context, hits: seq<Hit>, x: File)
    ensures TimesFirst(FoldHits(c, hits), x) == TimesRanked(hits, x)
    ensures CountFirst(FoldHits(c, hits)) == |hits|
  {
    if hits != [] {
      var init, h := hits[..|hits| - 1], hits[|hits| - 1];
      var groups := FoldHits(c, init);
      FoldKeepsFiles(c, init, x);
      if Folds(c, groups, h) {
        IndexMeans(c, groups, KeyOf(c, h));
        CopyAddsFile(groups, IndexOf(c, groups, KeyOf(c, h)), h.root, x);
      } else {
        assert (groups + [Group(h, [])])[..|groups|] == groups;
      }
    }
  }

  lemma {:induction false} IndexMeans(c: Context, groups: seq<Group>, k: Key)
    ensures var i := IndexOf(c, groups, k);
      && (i >= 0 ==> Grouped(c, groups[i].first.root) && KeyOf(c, groups[i].first) == k)
      && forall j :: 0 <= j < (if i < 0 then |groups| else i) ==>
           !(Grouped(c, groups[j].first.root) && KeyOf(c, groups[j].first) == k)
  {
    if groups != [] {
      IndexMeans(c, groups[..|groups| - 1], k);
      assert forall j :: 0 <= j < |groups| - 1 ==> groups[..|groups| - 1][j] == groups[j];
    }
  }

  /**
   * Conservation: every file is shown, as a winner or a folded copy, exactly
   * as often as it was ranked, and 1 + Also counts every ranked hit.
   */
  lemma FoldLosesNothing(c: Context, hits: seq<Hit>, x: File)
    ensures TimesShown(c, FoldHits(c, hits), x) == TimesRanked(hits, x)
    ensures CountShown(c, FoldHits(c, hits)) == |hits|
  {
    FoldKeepsFiles(c, hits, x);
    ShownIsFirst(c, FoldHits(c, hits), x);
  }

  // ----- what stays apart, and in what order

  /** The hits that became groups, in ranked order. */
  function Firsts(c: Context, hits: seq<Hit>): seq<Hit> {
    if hits == [] then []
    else
      var init, h := hits[..|hits| - 1], hits[|hits| - 1];
      Firsts(c, init) + (if Folds(c, FoldHits(c, init), h) then [] else [h])
  }

  /** Groups stay where their first hit ranked, and an anchored hit is always one of them. */
  lemma {:induction false} GroupsKeepRank(c: Context, hits: seq<Hit>)
    ensures |FoldHits(c, hits)| == |Firsts(c, hits)|
    ensures forall i :: 0 <= i < |Firsts(c, hits)| ==> FoldHits(c, hits)[i].first == Firsts(c, hits)[i]
    ensures forall h :: h in hits && (Anchored(c, h) || !Grouped(c, h.root)) ==> h in Firsts(c, hits)
    ensures forall h :: h in Firsts(c, hits) ==> h in hits
  {
    if hits != [] {
      GroupsKeepRank(c, hits[..|hits| - 1]);
      assert hits == hits[..|hits| - 1] + [hits[|hits| - 1]];
    }
  }

  /** At most one unanchored group remains per repository, path and kind. */
  lemma {:induction false} OneUnanchoredPerKey(c: Context, hits: seq<Hit>, i: nat, j: nat)
    requires i < j < |FoldHits(c, hits)|
    requires var a, b := FoldHits(c, hits)[i].first, FoldHits(c, hits)[j].first;
      Grouped(c, a.root) && Grouped(c, b.root) && KeyOf(c, a) == KeyOf(c, b)
    ensures Anchored(c, FoldHits(c, hits)[j].first)
  {
    var init, h := hits[..|hits| - 1], hits[|hits| - 1];
    var groups := FoldHits(c, init);
    if Folds(c, groups, h) || j < |groups| {
      OneUnanchoredPerKey(c, init, i, j);
    } else {
      IndexMeans(c, groups, KeyOf(c, h));
    }
  }

  /** A copy lies in the same repository as the hit it folded into, and was not anchored. */
  lemma {:induction false} CopiesBelong(c: Context, hits: seq<Hit>, i: nat, root: string)
    requires i < |FoldHits(c, hits)| && root in FoldHits(c, hits)[i].copies
    ensures var f := FoldHits(c, hits)[i].first;
      exists h :: h in hits && h.root == root && !Anchored(c, h) && Grouped(c, root) && KeyOf(c, h) == KeyOf(c, f)
  {
    var init, h := hits[..|hits| - 1], hits[|hits| - 1];
    var groups := FoldHits(c, init);
    assert hits == init + [h];
    IndexMeans(c, groups, KeyOf(c, h));
    if i < |groups| && root in groups[i].copies {
      CopiesBelong(c, init, i, root);
      var x :| x in init && x.root == root && !Anchored(c, x) && Grouped(c, root) &&
        KeyOf(c, x) == KeyOf(c, groups[i].first);
      assert x in hits;
    } else {
      assert h.root == root;
    }
  }

  /**
   * The winner: the main checkout when the first copy is neither anchored, the
   * context root nor main and a main copy was folded; the first copy otherwise.
   */
  lemma WinnerRule(c: Context, g: Group)
    ensures var main := !Anchored(c, g.first) && g.first.root != c.contextRoot && !IsMain(c, g.first.root)
                        && exists r :: r in g.copies && IsMain(c, r);
      && (main ==> IsMain(c, Shown(c, g).root) && Shown(c, g).root in g.copies)
      && (!main ==> Shown(c, g).root == g.first.root)
      && Shown(c, g).also == |g.copies| && |Shown(c, g).alsoRoots| == Min(|g.copies|, MAX_ALSO_ROOTS)
      && Shown(c, g).alsoRoots <= OthersOf(c, g)
  {
    PromotionKeepsFiles(c, g, FileOf(g.first));
    var i := MainIndex(c, g.copies);
    if i >= 0 { assert g.copies[i] in g.copies; }
  }

  // ----- the code

  /** Folds ranked hits with an index of groups by key, then shows each group. */
  method FoldRanked(c: Context, ranked: seq<Hit>) returns (results: seq<Result>)
    ensures results ==
      seq(|FoldHits(c, ranked)|, i requires 0 <= i < |FoldHits(c, ranked)| => Shown(c, FoldHits(c, ranked)[i]))
  {
    var firsts, folded := Collect(c, ranked);
    results := [];
    ghost var groups := FoldHits(c, ranked);
    while |results| < |firsts|
      invariant |results| <= |firsts|
      invariant forall i :: 0 <= i < |results| ==> results[i] == Shown(c, groups[i])
    {
      var at := |results|;
      var g := Group(firsts[at], if at in folded then folded[at] else []);
      var r := Show(c, g);
      results := results + [r];
    }
  }

  method Collect(c: Context, ranked: seq<Hit>) returns (firsts: seq<Hit>, folded: map<nat, seq<string>>)
    ensures Holds(FoldHits(c, ranked), firsts, folded)
  {
    var index: map<Key, nat> := map[];
    firsts, folded := [], map[];
    var n := 0;
    while n < |ranked|
      invariant 0 <= n <= |ranked|
      invariant Holds(FoldHits(c, ranked[..n]), firsts, folded) && Indexes(c, FoldHits(c, ranked[..n]), index)
    {
      var item := ranked[n];
      ghost var groups := FoldHits(c, ranked[..n]);
      assert ranked[..n + 1][..n] == ranked[..n] && ranked[..n + 1][n] == item;
      var key := KeyOf(c, item);
      var grouped := Grouped(c, item.root);
      if grouped && !Anchored(c, item) && key in index {
        var at := index[key];
        CopyKeepsIndex(c, groups, at, item.root);
        folded := folded[at := (if at in folded then folded[at] else []) + [item.root]];
      } else {
        var at := |firsts|;
        GroupExtendsIndex(c, groups, item);
        firsts := firsts + [item];
        if grouped && key !in index { index := index[key := at]; }
      }
      n := n + 1;
    }
    assert ranked[..n] == ranked;
  }

  /** The loop's lists hold a list of groups. */
  ghost predicate Holds(groups: seq<Group>, firsts: seq<Hit>, folded: map<nat, seq<string>>) {
    && |firsts| == |groups|
    && (forall i: nat :: i < |groups| ==> groups[i] == Group(firsts[i], if i in folded then folded[i] else []))
    && (forall i :: i in folded ==> i < |groups|)
  }

  /** The index knows the first group of every key. */
  ghost predicate Indexes(c: Context, groups: seq<Group>, index: map<Key, nat>) {
    forall k :: (k in index <==> IndexOf(c, groups, k) >= 0) && (k in index ==> index[k] == IndexOf(c, groups, k))
  }

  lemma CopyKeepsIndex(c: Context, groups: seq<Group>, at: nat, root: string)
    requires at < |groups|
    ensures forall k ::
      IndexOf(c, groups[at := groups[at].(copies := groups[at].copies + [root])], k) == IndexOf(c, groups, k)
  {
    var more := groups[at := groups[at].(copies := groups[at].copies + [root])];
    forall k ensures IndexOf(c, more, k) == IndexOf(c, groups, k) { SameFirsts(c, more, groups, k); }
  }

  lemma {:induction false} SameFirsts(c: Context, a: seq<Group>, b: seq<Group>, k: Key)
    requires |a| == |b| && forall i :: 0 <= i < |a| ==> a[i].first == b[i].first
    ensures IndexOf(c, a, k) == IndexOf(c, b, k)
    decreases |a|
  {
    if a != [] { SameFirsts(c, a[..|a| - 1], b[..|b| - 1], k); }
  }

  function IndexAfter(c: Context, groups: seq<Group>, h: Hit, k: Key): int {
    if IndexOf(c, groups, k) >= 0 then IndexOf(c, groups, k)
      else if Grouped(c, h.root) && KeyOf(c, h) == k then |groups| else -1
  }

  lemma GroupExtendsIndex(c: Context, groups: seq<Group>, h: Hit)
    ensures forall k :: IndexOf(c, groups + [Group(h, [])], k) == IndexAfter(c, groups, h, k)
  {
    assert (groups + [Group(h, [])])[..|groups|] == groups;
  }

  method Show(c: Context, g: Group) returns (r: Result)
    ensures r == Shown(c, g)
  {
    var winner, roots := g.first.root, g.copies;
    if |roots| > 0 && !Anchored(c, g.first) && winner != c.contextRoot && !IsMain(c, winner) {
      var i := 0;
      while i < |roots| && !IsMain(c, roots[i])
        invariant 0 <= i <= |roots|
        invariant forall j :: 0 <= j < i ==> !IsMain(c, roots[j])
      {
        i := i + 1;
      }
      if i < |roots| {
        assert MainIndex(c, g.copies) == i;
        var root := roots[i];
        roots := [winner] + roots[..i] + roots[i + 1..];
        winner := root;
      } else {
        assert MainIndex(c, g.copies) < 0;
      }
    }
    r := Result(winner, g.first.path, g.first.kind, |roots|,
                if |roots| > MAX_ALSO_ROOTS then roots[..MAX_ALSO_ROOTS] else roots);
  }
}
