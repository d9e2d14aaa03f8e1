/**
 * Newline-terminated records in a byte file: where complete input ends, where
 * each complete record starts, and how the record list behaves when the file
 * grows. Both the agent journal and the session readers rest on these facts.
 */
module Lines {
  import opened Common

  const NL: byte := 10
  const CR: byte := 13

  /** One past the last newline of f; 0 when f holds no newline. */
  function CompleteEnd(f: seq<byte>): (r: nat)
    ensures r <= |f|
    ensures r > 0 ==> f[r - 1] == NL
    ensures forall i :: r <= i < |f| ==> f[i] != NL
  {
    if |f| == 0 then 0
    else if f[|f| - 1] == NL then |f|
    else CompleteEnd(f[..|f| - 1])
  }

  /** An offset where a record may start: 0 or just after a newline. */
  predicate Boundary(f: seq<byte>, o: nat) {
    o <= |f| && (o == 0 || f[o - 1] == NL)
  }

  /** One past the first newline at or after o. */
  function LineEnd(f: seq<byte>, o: nat): (r: nat)
    requires o < CompleteEnd(f)
    ensures o < r <= CompleteEnd(f)
    ensures f[r - 1] == NL
    ensures forall i :: o <= i < r - 1 ==> f[i] != NL
    decreases |f| - o
  {
    if f[o] == NL then o + 1 else LineEnd(f, o + 1)
  }

  /** One complete record: its first byte's offset and its bytes, newline included. */
  datatype Record = Record(start: nat, raw: seq<byte>)

  /** r is a complete record of f. */
  predicate IsRecord(f: seq<byte>, r: Record) {
    && r.raw != []
    && Boundary(f, r.start) && Boundary(f, r.start + |r.raw|)
    && r.raw == f[r.start..r.start + |r.raw|]
    && (forall i :: r.start <= i < r.start + |r.raw| - 1 ==> f[i] != NL)
  }

  /** The complete records of f from boundary `from` up to boundary `upto`, oldest first. */
  function Records(f: seq<byte>, from: nat, upto: nat): (r: seq<Record>)
    requires from <= upto && Boundary(f, from) && Boundary(f, upto)
    decreases |f| - from
  {
    if from == upto then []
    else
      var e := LineEnd(f, from);
      assert e <= upto;
      [Record(from, f[from..e])] + Records(f, e, upto)
  }

  /** Newlines among the first n bytes: the zero-based line number of offset n. */
  function LineNumber(f: seq<byte>, n: nat): (r: nat)
    requires n <= |f|
  {
    if n == 0 then 0 else LineNumber(f, n - 1) + (if f[n - 1] == NL then 1 else 0)
  }

  /** CompleteEnd is determined by its defining properties. */
  lemma {:induction false} CompleteEndIs(f: seq<byte>, r: nat)
    requires Boundary(f, r)
    requires forall i :: r <= i < |f| ==> f[i] != NL
    ensures CompleteEnd(f) == r
  {
    var c := CompleteEnd(f);
    assert r <= c;
    assert c <= r;
  }

  /** Every boundary lies in the complete input. */
  lemma {:induction false} BoundaryInComplete(f: seq<byte>, o: nat)
    requires Boundary(f, o)
    ensures o <= CompleteEnd(f)
  {
  }

  /** A line within a shared prefix ends at the same place in both files. */
  lemma {:induction false} LineEndLocal(f: seq<byte>, g: seq<byte>, from: nat, upto: nat)
    requires from < upto <= |g| && Boundary(f, upto) && f[..upto] == g[..upto]
    ensures Boundary(g, upto) && from < CompleteEnd(f) && from < CompleteEnd(g)
    ensures LineEnd(f, from) == LineEnd(g, from) <= upto && f[from..LineEnd(f, from)] == g[from..LineEnd(f, from)]
  {
    var e, d := LineEnd(f, from), LineEnd(g, from);
    assert e <= upto && d <= upto;
    assert d <= e;
    assert e <= d;
  }

  /** Records only depend on the bytes before `upto`. */
  lemma {:induction false} RecordsLocal(f: seq<byte>, g: seq<byte>, from: nat, upto: nat)
    requires Boundary(f, from) && Boundary(f, upto) && from <= upto <= |g|
    requires f[..upto] == g[..upto]
    ensures Boundary(g, from) && Boundary(g, upto)
    ensures Records(f, from, upto) == Records(g, from, upto)
    decreases |f| - from
  {
    if from < upto {
      LineEndLocal(f, g, from, upto);
      RecordsLocal(f, g, LineEnd(f, from), upto);
    }
  }

  /** A middle boundary splits the record list. */
  lemma {:induction false} RecordsSplit(f: seq<byte>, from: nat, mid: nat, upto: nat)
    requires Boundary(f, from) && Boundary(f, mid) && Boundary(f, upto) && from <= mid <= upto
    ensures Records(f, from, upto) == Records(f, from, mid) + Records(f, mid, upto)
    decreases mid - from
  {
    if from < mid {
      var e := LineEnd(f, from);
      RecordsSplit(f, e, mid, upto);
    }
  }

  /** Where the record ending at boundary `upto` starts. */
  function LastStart(f: seq<byte>, upto: nat): (s: nat)
    requires Boundary(f, upto) && upto > 0
    ensures s < upto && Boundary(f, s)
    ensures forall i :: s <= i < upto - 1 ==> f[i] != NL
  {
    CompleteEnd(f[..upto - 1])
  }

  /** Every record starts at a boundary in range and ends within it. */
  lemma {:induction false} RecordsInside(f: seq<byte>, from: nat, upto: nat, k: nat)
    requires from <= upto && Boundary(f, from) && Boundary(f, upto)
    requires k < |Records(f, from, upto)|
    ensures IsRecord(f, Records(f, from, upto)[k])
    ensures from <= Records(f, from, upto)[k].start
    ensures Records(f, from, upto)[k].start + |Records(f, from, upto)[k].raw| <= upto
    decreases |f| - from
  {
    var e := LineEnd(f, from);
    if k > 0 { RecordsInside(f, e, upto, k - 1); }
  }

  /** Appending bytes keeps the complete input and can only add records behind it. */
  lemma {:induction false} GrowthKeepsComplete(f: seq<byte>, g: seq<byte>)
    requires f <= g
    ensures Boundary(g, CompleteEnd(f)) && CompleteEnd(f) <= CompleteEnd(g)
    ensures Records(g, 0, CompleteEnd(g)) == Records(f, 0, CompleteEnd(f)) + Records(g, CompleteEnd(f), CompleteEnd(g))
  {
    var c := CompleteEnd(f);
    assert Boundary(g, c);
    assert f[..c] == g[..c];
    RecordsLocal(f, g, 0, c);
    BoundaryInComplete(g, c);
    RecordsSplit(g, 0, c, CompleteEnd(g));
  }

  /** Between two boundaries the line number advances by one per record. */
  lemma {:induction false} LineNumberCounts(f: seq<byte>, from: nat, upto: nat)
    requires from <= upto && Boundary(f, from) && Boundary(f, upto)
    ensures LineNumber(f, upto) == LineNumber(f, from) + |Records(f, from, upto)|
    decreases |f| - from
  {
    if from < upto {
      var e := LineEnd(f, from);
      LineNumberFlat(f, from, e - 1);
      LineNumberCounts(f, e, upto);
    }
  }

  lemma {:induction false} LineNumberFlat(f: seq<byte>, from: nat, upto: nat)
    requires from <= upto <= |f|
    requires forall i :: from <= i < upto ==> f[i] != NL
    ensures LineNumber(f, upto) == LineNumber(f, from)
    decreases upto
  {
    if from < upto { LineNumberFlat(f, from, upto - 1); }
  }

  lemma {:induction false} LineNumberLocal(f: seq<byte>, g: seq<byte>, n: nat)
    requires n <= |f| && n <= |g| && f[..n] == g[..n]
    ensures LineNumber(f, n) == LineNumber(g, n)
  {
    if n > 0 {
      assert f[n - 1] == f[..n][n - 1] == g[..n][n - 1];
      assert f[..n - 1] == f[..n][..n - 1] == g[..n - 1];
      LineNumberLocal(f, g, n - 1);
    }
  }

  /**
   * The block-wise backward newline search: reads at most `block` bytes ending
   * at `before`, looks for the last newline among them, and otherwise moves
   * one block towards the start. Returns -1 when there is none.
   */
  method PreviousNewline(f: seq<byte>, before: nat, block: nat) returns (at: int)
    requires before <= |f| && block >= 1
    ensures at == CompleteEnd(f[..before]) - 1
  {
    var b := before;
    while b > 0
      invariant 0 <= b <= before
      invariant forall i :: b <= i < before ==> f[i] != NL
    {
      var start := Max(0, b - block);
      var index := b - start;
      while index > 0 && f[start + index - 1] != NL
        invariant 0 <= index <= b - start
        invariant forall i :: start + index <= i < before ==> f[i] != NL
      {
        index := index - 1;
      }
      if index > 0 {
        at := start + index - 1;
        CompleteEndIs(f[..before], at + 1);
        return;
      }
      b := start;
    }
    at := -1;
    CompleteEndIs(f[..before], 0);
  }

  /** Reads one line from `from`: one past its newline, or none when the rest is partial. */
  method ReadLine(f: seq<byte>, from: nat) returns (end: Option<nat>)
    requires from <= |f|
    ensures end.None? <==> CompleteEnd(f) <= from
    ensures end.Some? ==> end.value == LineEnd(f, from)
  {
    var i := from;
    while i < |f| && f[i] != NL
      invariant from <= i <= |f|
      invariant forall j :: from <= j < i ==> f[j] != NL
    {
      i := i + 1;
    }
    if i == |f| {
      assert CompleteEnd(f) <= from;
      return None;
    }
    assert Boundary(f, i + 1);
    var e := LineEnd(f, from);
    assert i + 1 <= e;
    assert e <= i + 1;
    return Some(i + 1);
  }
}
