/**
 * Windows over a session file: forward from an offset, the tail, and backward
 * from a boundary, with blocks of any size. Classification of one record is a
 * function of its bytes.
 */
module SessionRead {
  import opened Common
  import opened Lines

  /** What a record becomes: an entry, a skipped sidechain record, or nothing. */
  datatype Class = Render(payload: string) | Sidechain | Hidden

  datatype Entry = Entry(line: nat, offset: nat, payload: string)

  type Classifier = seq<byte> -> Class

  /** A record's bytes without its line ending. */
  function Body(raw: seq<byte>): seq<byte>
    requires raw != []
  {
    var line := raw[..|raw| - 1];
    if line != [] && line[|line| - 1] == CR then line[..|line| - 1] else line
  }

  function EntryOf(c: Classifier, f: seq<byte>, from: nat, end: nat): seq<Entry>
    requires from < end <= |f|
  {
    match c(Body(f[from..end]))
    case Render(p) => [Entry(LineNumber(f, from), from, p)]
    case _ => []
  }

  /** The entries of the complete lines from `from` up to boundary `upto`, oldest first. */
  function Entries(c: Classifier, f: seq<byte>, from: nat, upto: nat): (r: seq<Entry>)
    requires from <= upto && Boundary(f, upto)
    decreases |f| - from
  {
    if from == upto then []
    else
      var e := LineEnd(f, from);
      assert e <= upto;
      EntryOf(c, f, from, e) + Entries(c, f, e, upto)
  }

  /** How many sidechain records lie between. */
  function Skips(c: Classifier, f: seq<byte>, from: nat, upto: nat): nat
    requires from <= upto && Boundary(f, upto)
    decreases |f| - from
  {
    if from == upto then 0
    else
      var e := LineEnd(f, from);
      assert e <= upto;
      (if c(Body(f[from..e])).Sidechain? then 1 else 0) + Skips(c, f, e, upto)
  }

  // ----- the record list

  lemma {:induction false} EntriesSplit(c: Classifier, f: seq<byte>, from: nat, mid: nat, upto: nat)
    requires from <= mid <= upto && Boundary(f, mid) && Boundary(f, upto)
    ensures Entries(c, f, from, upto) == Entries(c, f, from, mid) + Entries(c, f, mid, upto)
    decreases |f| - from
  {
    if from < mid {
      var e := LineEnd(f, from);
      assert e <= mid;
      EntriesSplit(c, f, e, mid, upto);
      assert Entries(c, f, from, upto) == EntryOf(c, f, from, e) + Entries(c, f, e, upto);
      assert Entries(c, f, from, mid) == EntryOf(c, f, from, e) + Entries(c, f, e, mid);
    } else {
      assert Entries(c, f, from, mid) == [];
    }
  }

  lemma {:induction false} SkipsSplit(c: Classifier, f: seq<byte>, from: nat, mid: nat, upto: nat)
    requires from <= mid <= upto && Boundary(f, mid) && Boundary(f, upto)
    ensures Skips(c, f, from, upto) == Skips(c, f, from, mid) + Skips(c, f, mid, upto)
    decreases |f| - from
  {
    if from < mid {
      var e := LineEnd(f, from);
      assert e <= mid;
      SkipsSplit(c, f, e, mid, upto);
    }
  }

  /** From an entry's offset on, the list is that entry and what follows. */
  lemma {:induction false} TailAtEntry(c: Classifier, f: seq<byte>, from: nat, upto: nat, i: nat)
    requires from <= upto && Boundary(f, upto) && i < |Entries(c, f, from, upto)|
    ensures var o := Entries(c, f, from, upto)[i].offset;
      && from <= o < upto && (if o == from then i == 0 else Boundary(f, o))
      && Entries(c, f, o, upto) == Entries(c, f, from, upto)[i..]
    decreases |f| - from
  {
    hide LineNumber, Body;
    var e := LineEnd(f, from);
    assert e <= upto;
    var head, rest := EntryOf(c, f, from, e), Entries(c, f, e, upto);
    EntriesUnfold(c, f, from, upto);
    EntryStarts(c, f, from, e);
    if i >= |head| {
      TailAtEntry(c, f, e, upto, i - |head|);
      assert (head + rest)[i..] == rest[i - |head|..];
    }
  }

  lemma EntriesUnfold(c: Classifier, f: seq<byte>, from: nat, upto: nat)
    requires from < upto && Boundary(f, upto)
    ensures LineEnd(f, from) <= upto
    ensures Entries(c, f, from, upto) == EntryOf(c, f, from, LineEnd(f, from)) + Entries(c, f, LineEnd(f, from), upto)
  {
    hide EntryOf;
  }

  lemma EntryStarts(c: Classifier, f: seq<byte>, from: nat, end: nat)
    requires from < end <= |f|
    ensures |EntryOf(c, f, from, end)| <= 1
    ensures EntryOf(c, f, from, end) != [] ==> EntryOf(c, f, from, end)[0].offset == from
  {
  }

  /** An entry's offset is a place the list can be cut at. */
  lemma CutAtEntry(c: Classifier, f: seq<byte>, from: nat, upto: nat, i: nat)
    requires from <= upto && Boundary(f, upto) && i < |Entries(c, f, from, upto)|
    ensures var o := Entries(c, f, from, upto)[i].offset;
      && from <= o < upto && (if o == from then i == 0 else Boundary(f, o))
      && Entries(c, f, o, upto) == Entries(c, f, from, upto)[i..]
      && (o > from ==> Entries(c, f, from, o) == Entries(c, f, from, upto)[..i])
  {
    TailAtEntry(c, f, from, upto, i);
    var all := Entries(c, f, from, upto);
    var o := all[i].offset;
    if o > from {
      EntriesSplit(c, f, from, o, upto);
      assert |Entries(c, f, from, o)| == i;
    }
  }

  /** Entries of the file so far stay as they are when the file grows: same lines, same offsets. */
  lemma {:induction false} EntriesLocal(c: Classifier, f: seq<byte>, g: seq<byte>, from: nat, upto: nat)
    requires from <= upto <= |g| && Boundary(f, upto) && f[..upto] == g[..upto]
    ensures Boundary(g, upto) && Entries(c, f, from, upto) == Entries(c, g, from, upto)
    decreases |f| - from
  {
    if from < upto {
      LineEndLocal(f, g, from, upto);
      var e := LineEnd(f, from);
      assert f[..from] == f[..upto][..from] == g[..from];
      LineNumberLocal(f, g, from);
      EntriesLocal(c, f, g, e, upto);
    }
  }

  lemma EntriesStable(c: Classifier, f: seq<byte>, g: seq<byte>)
    requires f <= g
    ensures Entries(c, f, 0, CompleteEnd(f)) <= Entries(c, g, 0, CompleteEnd(g))
  {
    GrowthKeepsComplete(f, g);
    assert f[..CompleteEnd(f)] == g[..CompleteEnd(f)];
    EntriesLocal(c, f, g, 0, CompleteEnd(f));
    EntriesSplit(c, g, 0, CompleteEnd(f), CompleteEnd(g));
  }

  // ----- forward windows

  datatype Window = Window(entries: seq<Entry>, next: nat, skipped: nat)

  /** A forward read from offset of at most limit entries (0 for no limit), as a function. */
  function Forward(c: Classifier, f: seq<byte>, offset: nat, limit: nat): (w: Window)
    requires offset <= |f|
    ensures offset <= w.next <= |f|
  {
    if CompleteEnd(f) <= offset then Window([], offset, 0)
    else
      var all := Entries(c, f, offset, CompleteEnd(f));
      if limit == 0 || |all| <= limit then Window(all, CompleteEnd(f), Skips(c, f, offset, CompleteEnd(f)))
      else
        CutAtEntry(c, f, offset, CompleteEnd(f), limit);
        Window(all[..limit], all[limit].offset, Skips(c, f, offset, all[limit].offset))
  }

  /** Newlines before an offset, counted block by block. */
  method CountLines(f: seq<byte>, end: nat, block: nat) returns (lines: nat)
    requires end <= |f| && block >= 1
    ensures lines == LineNumber(f, end)
  {
    lines := 0;
    var offset := 0;
    while offset < end
      invariant 0 <= offset <= end && lines == LineNumber(f, offset)
    {
      var count := Min(block, end - offset);
      var i := 0;
      while i < count
        invariant 0 <= i <= count && offset + i <= end && lines == LineNumber(f, offset + i)
      {
        if f[offset + i] == NL { lines := lines + 1; }
        i := i + 1;
      }
      offset := offset + count;
    }
  }

  datatype ReadError = NegativeOffset | OffsetBeyond(offset: int, size: nat) | BadLimit

  datatype ReadResult = Read(window: Window) | ReadFailed(error: ReadError)

  /** Reads complete lines from an offset, stopping before the first entry beyond the limit. */
  method ReadForward(c: Classifier, f: seq<byte>, offset: int, limit: nat, block: nat) returns (r: ReadResult)
    requires block >= 1
    ensures offset < 0 ==> r == ReadFailed(NegativeOffset)
    ensures offset > |f| ==> r == ReadFailed(OffsetBeyond(offset, |f|))
    ensures 0 <= offset <= |f| ==> r == Read(Forward(c, f, offset, limit))
  {
    if offset < 0 { return ReadFailed(NegativeOffset); }
    if offset > |f| { return ReadFailed(OffsetBeyond(offset, |f|)); }
    var line := CountLines(f, offset, block);
    var entries: seq<Entry>, next: nat, skipped := [], offset, 0;
    while true
      invariant offset <= next <= |f| && (next == offset || Boundary(f, next))
      invariant line == LineNumber(f, next) && (limit > 0 ==> |entries| <= limit)
      invariant next > offset ==> entries == Entries(c, f, offset, next) && skipped == Skips(c, f, offset, next)
      invariant next == offset ==> entries == [] && skipped == 0
      decreases |f| - next
    {
      var end := ReadLine(f, next);
      if end.None? { break; }
      var start := next;
      next := end.value;
      if start > offset { EntriesSplit(c, f, offset, start, next); SkipsSplit(c, f, offset, start, next); }
      LineNumberStep(f, start, next);
      match c(Body(f[start..next])) {
        case Sidechain => skipped := skipped + 1;
        case Hidden =>
        case Render(p) =>
          if limit > 0 && |entries| == limit {
            StopsHere(c, f, offset, start, limit);
            return Read(Window(entries, start, skipped));
          }
          entries := entries + [Entry(line, start, p)];
      }
      line := line + 1;
    }
    if next > offset { BoundaryInComplete(f, next); }
    r := Read(Window(entries, next, skipped));
  }

  lemma LineNumberStep(f: seq<byte>, from: nat, end: nat)
    requires from < end <= |f| && f[end - 1] == NL && forall i :: from <= i < end - 1 ==> f[i] != NL
    ensures LineNumber(f, end) == LineNumber(f, from) + 1
  {
    LineNumberFlat(f, from, end - 1);
  }

  /** A window that is full when the next line renders ends at that line. */
  lemma StopsHere(c: Classifier, f: seq<byte>, offset: nat, start: nat, limit: nat)
    requires offset < start < CompleteEnd(f) && Boundary(f, start) && limit > 0
    requires |Entries(c, f, offset, start)| == limit && c(Body(f[start..LineEnd(f, start)])).Render?
    ensures Forward(c, f, offset, limit) == Window(Entries(c, f, offset, start), start, Skips(c, f, offset, start))
  {
    EntriesSplit(c, f, offset, start, CompleteEnd(f));
    var all := Entries(c, f, offset, CompleteEnd(f));
    assert all[limit] == Entries(c, f, start, CompleteEnd(f))[0];
  }

  // ----- backward windows

  /** A backward read of at most limit entries ending at boundary `before`, as a function. */
  datatype Back = Back(entries: seq<Entry>, skipped: nat, reachedStart: bool)

  function Backward(c: Classifier, f: seq<byte>, before: nat, limit: nat): Back
    requires Boundary(f, before) && limit >= 1
  {
    var all := Entries(c, f, 0, before);
    if |all| < limit then Back(all, Skips(c, f, 0, before), true)
    else
      var o := all[|all| - limit].offset;
      CutAtEntry(c, f, 0, before, |all| - limit);
      Back(all[|all| - limit..], Skips(c, f, o, before), o == 0)
  }

  function Reversed<T>(s: seq<T>): (r: seq<T>)
    ensures |r| == |s| && forall i :: 0 <= i < |s| ==> r[i] == s[|s| - 1 - i]
  {
    if s == [] then [] else [s[|s| - 1]] + Reversed(s[..|s| - 1])
  }

  /** Visits records newest first, block by block, until limit entries are held. */
  method ScanBackward(c: Classifier, f: seq<byte>, end: nat, limit: nat, block: nat) returns (r: Back)
    requires Boundary(f, end) && limit >= 1 && block >= 1
    ensures r == Backward(c, f, end, limit)
  {
    var lines := CountLines(f, end, block);
    var newest: seq<Entry>, skipped := [], 0;
    var currentEnd: nat, line: int := end, lines;
    line := line - 1;
    while currentEnd > 0
      invariant Boundary(f, currentEnd) && currentEnd <= end
      invariant line == LineNumber(f, currentEnd) - 1
      invariant Reversed(newest) == Entries(c, f, currentEnd, end) && skipped == Skips(c, f, currentEnd, end)
      invariant |newest| < limit
    {
      var newline := PreviousNewline(f, currentEnd - 1, block);
      var lineStart := newline + 1;
      OneMoreBack(c, f, lineStart, currentEnd, end, newest, line);
      match c(Body(f[lineStart..currentEnd])) {
        case Sidechain => skipped := skipped + 1;
        case Hidden =>
        case Render(p) => newest := newest + [Entry(line, lineStart, p)];
      }
      if |newest| >= limit {
        FullBackward(c, f, lineStart, end, limit);
        return Back(Reversed(newest), skipped, lineStart == 0);
      }
      line := line - 1;
      currentEnd := lineStart;
    }
    r := Back(Reversed(newest), skipped, true);
  }

  lemma ReversedSnoc<T>(s: seq<T>, x: T)
    ensures Reversed(s + [x]) == [x] + Reversed(s)
  {
    assert (s + [x])[..|s|] == s;
  }

  /** Visiting the record before currentEnd prepends what it renders. */
  lemma OneMoreBack(c: Classifier, f: seq<byte>, start: nat, currentEnd: nat, end: nat, newest: seq<Entry>, line: int)
    requires 0 < currentEnd <= end && Boundary(f, currentEnd) && Boundary(f, end) &&
      start == CompleteEnd(f[..currentEnd - 1])
    requires Reversed(newest) == Entries(c, f, currentEnd, end) && line == LineNumber(f, currentEnd) - 1
    ensures start < currentEnd && Boundary(f, start) && line == LineNumber(f, start)
    ensures Skips(c, f, start, end) ==
      Skips(c, f, currentEnd, end) + (if c(Body(f[start..currentEnd])).Sidechain? then 1 else 0)
    ensures var kind := c(Body(f[start..currentEnd]));
      if kind.Render? then
        Reversed(newest + [Entry(LineNumber(f, start), start, kind.payload)]) == Entries(c, f, start, end) &&
          Entries(c, f, start, end)[0].offset == start
      else Reversed(newest) == Entries(c, f, start, end)
  {
    assert start == LastStart(f, currentEnd);
    EntriesSplit(c, f, start, currentEnd, end);
    SkipsSplit(c, f, start, currentEnd, end);
    LineNumberStep(f, start, currentEnd);
    match c(Body(f[start..currentEnd]))
    case Render(p) => ReversedSnoc(newest, Entry(LineNumber(f, start), start, p));
    case _ =>
  }

  /** A full backward window starts at its first entry's record. */
  lemma FullBackward(c: Classifier, f: seq<byte>, start: nat, end: nat, limit: nat)
    requires start <= end && Boundary(f, start) && Boundary(f, end) && limit >= 1
    requires |Entries(c, f, start, end)| == limit && Entries(c, f, start, end)[0].offset == start
    ensures Backward(c, f, end, limit) == Back(Entries(c, f, start, end), Skips(c, f, start, end), start == 0)
  {
    EntriesSplit(c, f, 0, start, end);
    var all := Entries(c, f, 0, end);
    assert all[|all| - limit..] == Entries(c, f, start, end);
    assert all[|all| - limit] == Entries(c, f, start, end)[0];
  }

  /** One past the last newline, with a fast check of the last byte. */
  method FindCompleteEnd(f: seq<byte>, block: nat) returns (end: nat)
    requires block >= 1
    ensures end == CompleteEnd(f)
  {
    if |f| == 0 { return 0; }
    if f[|f| - 1] == NL { return |f|; }
    var newline := PreviousNewline(f, |f|, block);
    assert f[..|f|] == f;
    end := newline + 1;
  }

  /** The last limit entries of the complete input, and the offset of the first of them. */
  method ReadTail(c: Classifier, f: seq<byte>, limit: int, block: nat) returns (r: ReadResult, from: nat)
    requires block >= 1
    ensures limit < 1 ==> r == ReadFailed(BadLimit)
    ensures limit >= 1 ==>
      var end := CompleteEnd(f); var b := Backward(c, f, end, limit);
      r == Read(Window(b.entries, end, b.skipped)) && from == (if b.entries == [] then end else b.entries[0].offset)
  {
    if limit < 1 { return ReadFailed(BadLimit), 0; }
    var end := FindCompleteEnd(f, block);
    var back := ScanBackward(c, f, end, limit, block);
    r := Read(Window(back.entries, end, back.skipped));
    from := end;
    if |back.entries| > 0 { from := back.entries[0].offset; }
  }

  datatype ResetReason = SessionChanged | Truncated

  datatype BeforeResult =
    | Page(entries: seq<Entry>, skipped: nat, next: int, prev: nat)
    | Reset(reason: ResetReason)
    | NotBoundary
    | LimitRefused

  /** The previous page's cursor: the first entry's offset, or 0 once nothing is left before it. */
  function PrevOffset(b: Back): nat {
    if !b.reachedStart && b.entries != [] then b.entries[0].offset else 0
  }

  /** A backward page, as a function of the file and the cursor. */
  function Before(c: Classifier, f: seq<byte>, session: string, cursorSession: string, offset: int,
    limit: int): BeforeResult {
    if limit < 1 then LimitRefused
    else if cursorSession != "" && cursorSession != session then Reset(SessionChanged)
    else if offset < 0 then NotBoundary
    else if offset > |f| then Reset(Truncated)
    else if !Boundary(f, offset) then NotBoundary
    else
      var b := Backward(c, f, offset, limit);
      Page(b.entries, b.skipped, offset, PrevOffset(b))
  }

  /** Checks the cursor, then scans backward from it. */
  method ReadBefore(c: Classifier, f: seq<byte>, session: string, cursorSession: string, offset: int, limit: int,
    block: nat) returns (r: BeforeResult)
    requires block >= 1
    ensures r == Before(c, f, session, cursorSession, offset, limit)
  {
    if limit < 1 { return LimitRefused; }
    if cursorSession != "" && cursorSession != session { return Reset(SessionChanged); }
    if offset < 0 { return NotBoundary; }
    if offset > |f| { return Reset(Truncated); }
    if offset == 0 {
      assert Entries(c, f, 0, 0) == [];
      return Page([], 0, 0, 0);
    }
    var end := FindCompleteEnd(f, block);
    if offset > end { return NotBoundary; }
    if f[offset - 1] != NL { return NotBoundary; }
    var back := ScanBackward(c, f, offset, limit, block);
    var prev := 0;
    if !back.reachedStart && |back.entries| > 0 { prev := back.entries[0].offset; }
    r := Page(back.entries, back.skipped, offset, prev);
  }

  // ----- paging

  lemma ForwardAdvances(c: Classifier, f: seq<byte>, offset: nat, limit: nat)
    requires offset < CompleteEnd(f) && limit >= 1
    ensures offset < Forward(c, f, offset, limit).next <= CompleteEnd(f)
    ensures Boundary(f, Forward(c, f, offset, limit).next)
    ensures var w := Forward(c, f, offset, limit);
      w.entries + Entries(c, f, w.next, CompleteEnd(f)) == Entries(c, f, offset, CompleteEnd(f))
  {
    var all := Entries(c, f, offset, CompleteEnd(f));
    if |all| > limit { CutAtEntry(c, f, offset, CompleteEnd(f), limit); }
  }

  /** All entries a reader collects paging forward until complete input is used up. */
  function ForwardPages(c: Classifier, f: seq<byte>, offset: nat, limit: nat): seq<Entry>
    requires offset <= CompleteEnd(f) && limit >= 1
    decreases |f| - offset
  {
    if offset == CompleteEnd(f) then []
    else
      ForwardAdvances(c, f, offset, limit);
      var w := Forward(c, f, offset, limit);
      w.entries + ForwardPages(c, f, w.next, limit)
  }

  /** A backward read holds the last entries before its cursor. */
  lemma BackwardIsLast(c: Classifier, f: seq<byte>, before: nat, limit: nat)
    requires Boundary(f, before) && limit >= 1
    ensures Backward(c, f, before, limit).entries == LastN(Entries(c, f, 0, before), limit)
  {
  }

  /** A backward page that does not reach the start leaves exactly the older entries before its cursor. */
  lemma BackwardRetreats(c: Classifier, f: seq<byte>, before: nat, limit: nat)
    requires Boundary(f, before) && limit >= 1
    ensures var b := Backward(c, f, before, limit); var prev := PrevOffset(b);
      if prev == 0 then b.entries == Entries(c, f, 0, before)
      else prev < before && Boundary(f, prev) && Entries(c, f, 0, prev) + b.entries == Entries(c, f, 0, before)
  {
    var all := Entries(c, f, 0, before);
    if |all| >= limit {
      var i := |all| - limit;
      CutAtEntry(c, f, 0, before, i);
      var o := all[i].offset;
      assert Backward(c, f, before, limit).entries == all[i..];
      if o > 0 { assert Entries(c, f, 0, o) + all[i..] == all; }
    }
  }

  /** All entries a reader collects paging backward until the previous offset is 0. */
  function BackwardPages(c: Classifier, f: seq<byte>, before: nat, limit: nat): seq<Entry>
    requires Boundary(f, before) && limit >= 1
    decreases before
  {
    var b := Backward(c, f, before, limit);
    BackwardRetreats(c, f, before, limit);
    if PrevOffset(b) == 0 then b.entries else BackwardPages(c, f, PrevOffset(b), limit) + b.entries
  }

  lemma {:induction false} ForwardPagesAreAll(c: Classifier, f: seq<byte>, offset: nat, limit: nat)
    requires offset <= CompleteEnd(f) && limit >= 1
    ensures ForwardPages(c, f, offset, limit) == Entries(c, f, offset, CompleteEnd(f))
    decreases |f| - offset
  {
    if offset < CompleteEnd(f) {
      ForwardAdvances(c, f, offset, limit);
      ForwardPagesAreAll(c, f, Forward(c, f, offset, limit).next, limit);
    }
  }

  lemma {:induction false} BackwardPagesAreAll(c: Classifier, f: seq<byte>, before: nat, limit: nat)
    requires Boundary(f, before) && limit >= 1
    ensures BackwardPages(c, f, before, limit) == Entries(c, f, 0, before)
    decreases before
  {
    var b := Backward(c, f, before, limit);
    BackwardRetreats(c, f, before, limit);
    if PrevOffset(b) > 0 { BackwardPagesAreAll(c, f, PrevOffset(b), limit); }
  }

  /**
   * One file, four readers: paging forward from 0, paging backward from the
   * complete end, and one unlimited read give the same entries with the same
   * line numbers and offsets, and the tail is the last of them. Both pagings end.
   */
  lemma ReadersAgree(c: Classifier, f: seq<byte>, limit: nat)
    requires limit >= 1
    ensures var all := Entries(c, f, 0, CompleteEnd(f));
      && Forward(c, f, 0, 0).entries == all
      && ForwardPages(c, f, 0, limit) == all
      && BackwardPages(c, f, CompleteEnd(f), limit) == all
      && Backward(c, f, CompleteEnd(f), limit).entries == LastN(all, limit)
  {
    ForwardPagesAreAll(c, f, 0, limit);
    BackwardPagesAreAll(c, f, CompleteEnd(f), limit);
    BackwardIsLast(c, f, CompleteEnd(f), limit);
    assert Entries(c, f, CompleteEnd(f), CompleteEnd(f)) == [];
  }
}
