/**
 * The latest model and context usage of a session: read directly by a reverse
 * scan that stops early, or kept by folding only appended bytes.
 */
module Vitals {
  import opened Common
  import opened Lines
  import opened SessionRead

  datatype Vitals = Vitals(model: string, usage: Option<string>)

  const NoVitals := Vitals("", None)

  /** What one record's bytes say; empty parts say nothing. */
  type Facts = seq<byte> -> Vitals

  /** Later facts override earlier ones, each part on its own. */
  function Merge(prior: Vitals, later: Vitals): Vitals {
    Vitals(if later.model != "" then later.model else prior.model,
           if later.usage.Some? then later.usage else prior.usage)
  }

  /** prior with every complete record between folded in, oldest first. */
  function Folded(o: Facts, f: seq<byte>, from: nat, upto: nat, prior: Vitals): Vitals
    requires from <= upto && Boundary(f, upto)
    decreases |f| - from
  {
    if from == upto then prior
    else
      var e := LineEnd(f, from);
      assert e <= upto;
      Folded(o, f, e, upto, Merge(prior, o(Body(f[from..e]))))
  }

  /** The vitals of a file: its complete records folded from nothing. */
  function Direct(o: Facts, f: seq<byte>): Vitals {
    Folded(o, f, 0, CompleteEnd(f), NoVitals)
  }

  lemma {:induction false} FoldedSplit(o: Facts, f: seq<byte>, from: nat, mid: nat, upto: nat, prior: Vitals)
    requires from <= mid <= upto && Boundary(f, mid) && Boundary(f, upto)
    ensures Folded(o, f, from, upto, prior) == Folded(o, f, mid, upto, Folded(o, f, from, mid, prior))
    decreases |f| - from
  {
    if from < mid {
      var e := LineEnd(f, from);
      assert e <= mid;
      FoldedSplit(o, f, e, mid, upto, Merge(prior, o(Body(f[from..e]))));
    }
  }

  lemma {:induction false} FoldedLocal(o: Facts, f: seq<byte>, g: seq<byte>, from: nat, upto: nat, prior: Vitals)
    requires from <= upto <= |g| && Boundary(f, upto) && f[..upto] == g[..upto]
    ensures Boundary(g, upto) && Folded(o, f, from, upto, prior) == Folded(o, g, from, upto, prior)
    decreases |f| - from
  {
    if from < upto {
      LineEndLocal(f, g, from, upto);
      var e := LineEnd(f, from);
      FoldedLocal(o, f, g, e, upto, Merge(prior, o(Body(f[from..e]))));
    }
  }

  /** The last record before boundary `upto` is folded last. */
  lemma FoldedLast(o: Facts, f: seq<byte>, upto: nat)
    requires 0 < upto && Boundary(f, upto)
    ensures var s := LastStart(f, upto);
      Folded(o, f, 0, upto, NoVitals) == Merge(Folded(o, f, 0, s, NoVitals), o(Body(f[s..upto])))
  {
    var s := LastStart(f, upto);
    FoldedSplit(o, f, 0, s, upto, NoVitals);
    var e := LineEnd(f, s);
    assert e <= upto;
    assert upto <= e;
  }

  /** The direct read: newest record first, stopping once both parts are known. */
  method ReadVitals(o: Facts, f: seq<byte>, block: nat) returns (vitals: Vitals, end: nat)
    requires block >= 1
    ensures vitals == Direct(o, f) && end == CompleteEnd(f)
  {
    vitals := NoVitals;
    end := FindCompleteEnd(f, block);
    var completeEnd: nat := end;
    while completeEnd > 0
      invariant Boundary(f, completeEnd) && completeEnd <= end
      invariant Direct(o, f) == Merge(Folded(o, f, 0, completeEnd, NoVitals), vitals)
    {
      var newline := PreviousNewline(f, completeEnd - 1, block);
      var lineStart := newline + 1;
      assert lineStart == LastStart(f, completeEnd);
      FoldedLast(o, f, completeEnd);
      var facts := o(Body(f[lineStart..completeEnd]));
      if vitals.model == "" { vitals := vitals.(model := facts.model); }
      if vitals.usage.None? { vitals := vitals.(usage := facts.usage); }
      if !(vitals.model == "" || vitals.usage.None?) { return; }
      completeEnd := lineStart;
    }
  }

  datatype AdvanceResult = Advanced(vitals: Vitals, end: nat, read: nat) | Shrunk

  function Advance(o: Facts, f: seq<byte>, offset: nat, prior: Vitals): AdvanceResult {
    var end := CompleteEnd(f);
    if end < offset then Shrunk else Advanced(Folded(o, f, offset, end, prior), end, end - offset)
  }

  /** Folds the complete records between offset and the complete end into prior. */
  method AdvanceTail(o: Facts, f: seq<byte>, offset: nat, prior: Vitals, block: nat) returns (r: AdvanceResult)
    requires block >= 1
    ensures r == Advance(o, f, offset, prior)
  {
    var end := FindCompleteEnd(f, block);
    if end < offset { return Shrunk; }
    if end == offset { return Advanced(prior, offset, 0); }
    var vitals := prior;
    var pos := offset;
    while pos < end
      invariant offset <= pos <= end
      invariant Folded(o, f, pos, end, vitals) == Folded(o, f, offset, end, prior)
    {
      var next := ReadLine(f, pos);
      var facts := o(Body(f[pos..next.value]));
      if facts.model != "" { vitals := vitals.(model := facts.model); }
      if facts.usage.Some? { vitals := vitals.(usage := facts.usage); }
      pos := next.value;
    }
    r := Advanced(vitals, end, end - offset);
  }

  /** The cache holds exactly the records before its offset. */
  ghost predicate Tracks(o: Facts, f: seq<byte>, offset: nat, v: Vitals) {
    Boundary(f, offset) && v == Folded(o, f, 0, offset, NoVitals)
  }

  lemma GrowthKeepsTrack(o: Facts, f: seq<byte>, g: seq<byte>, offset: nat, v: Vitals)
    requires f <= g && Tracks(o, f, offset, v)
    ensures Tracks(o, g, offset, v)
  {
    assert f[..offset] == g[..offset];
    FoldedLocal(o, f, g, 0, offset, NoVitals);
  }

  /** Advancing a cache that holds the records before its offset gives the direct read, and never reports truncation. */
  lemma AdvanceIsDirect(o: Facts, f: seq<byte>, offset: nat, v: Vitals)
    requires Tracks(o, f, offset, v)
    ensures Advance(o, f, offset, v) == Advanced(Direct(o, f), CompleteEnd(f), CompleteEnd(f) - offset)
    ensures Tracks(o, f, CompleteEnd(f), Direct(o, f))
  {
    BoundaryInComplete(f, offset);
    FoldedSplit(o, f, 0, offset, CompleteEnd(f), NoVitals);
  }

  /** The file after the first k chunks. */
  function Grown(f: seq<byte>, chunks: seq<seq<byte>>, k: nat): seq<byte>
    requires k <= |chunks|
  {
    if k == 0 then f else Grown(f, chunks, k - 1) + chunks[k - 1]
  }

  datatype Cache = Cache(vitals: Vitals, offset: nat)

  /** The cache after seeding on the first file and advancing after each chunk that `looks` marks. */
  function Tailed(o: Facts, f: seq<byte>, chunks: seq<seq<byte>>, looks: seq<bool>, k: nat): Cache
    requires k <= |chunks| == |looks|
  {
    if k == 0 then Cache(Direct(o, f), CompleteEnd(f))
    else
      var c := Tailed(o, f, chunks, looks, k - 1);
      if !looks[k - 1] then c
      else
        match Advance(o, Grown(f, chunks, k), c.offset, c.vitals)
        case Advanced(v, end, _) => Cache(v, end)
        case Shrunk => Cache(Direct(o, Grown(f, chunks, k)), CompleteEnd(Grown(f, chunks, k)))
  }

  /**
   * On a transcript grown by arbitrary byte chunks, a seed followed by
   * advances at arbitrary moments holds, after each of them, exactly the
   * direct read; in between it holds the direct read of a complete prefix.
   */
  lemma {:induction false} TailEqualsDirect(o: Facts, f: seq<byte>, chunks: seq<seq<byte>>, looks: seq<bool>, k: nat)
    requires k <= |chunks| == |looks|
    ensures var c := Tailed(o, f, chunks, looks, k); Tracks(o, Grown(f, chunks, k), c.offset, c.vitals)
    ensures k == 0 || looks[k - 1] ==>
      Tailed(o, f, chunks, looks, k) == Cache(Direct(o, Grown(f, chunks, k)), CompleteEnd(Grown(f, chunks, k)))
  {
    if k > 0 {
      TailEqualsDirect(o, f, chunks, looks, k - 1);
      var c, g := Tailed(o, f, chunks, looks, k - 1), Grown(f, chunks, k);
      GrowthKeepsTrack(o, Grown(f, chunks, k - 1), g, c.offset, c.vitals);
      AdvanceIsDirect(o, g, c.offset, c.vitals);
    }
  }
}
