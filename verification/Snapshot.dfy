/**
 * Reading the store: a full replay of the journal against a snapshot plus the
 * journal's tail. Journal writers may append, repair and die between reads.
 */
module Snapshot {
  import opened Common
  import opened Lines
  import opened Events
  import opened Journal
  import opened Projection

  /** A projection with the journal offset it covers. */
  datatype Loaded = Loaded(state: State, offset: nat)

  /** A full replay folds plainly unless some launch could alias an old base-name record. */
  datatype Replayed = Folded(loaded: Loaded) | AliasRepair

  function EventsOf(ps: seq<Placed>): (r: seq<Event>)
    ensures |r| == |ps| && forall i :: 0 <= i < |ps| ==> r[i] == ps[i].event
  {
    seq(|ps|, i requires 0 <= i < |ps| => ps[i].event)
  }

  /** Every event of the journal. */
  function AllEvents(c: Codec, f: seq<byte>): seq<Event> {
    EventsOf(Scan(c, f))
  }

  /** The latest launch request carrying id. */
  function LatestRequest(es: seq<Event>, id: string): (r: Option<Event>)
    ensures r.Some? ==> r.value in es && r.value.kind.LaunchRequested? && r.value.id == id
    ensures r.None? ==> forall e :: e in es ==> !(e.kind.LaunchRequested? && e.id == id)
  {
    if es == [] then None
    else
      var e := es[|es| - 1];
      assert es == es[..|es| - 1] + [e];
      if e.kind.LaunchRequested? && e.id == id then Some(e) else LatestRequest(es[..|es| - 1], id)
  }

  /** Whether a launch-ready names the tag of its request and a base behind it. */
  predicate FormsCandidate(request: Option<Event>, e: Event) {
    && e.kind.LaunchReady? && e.request != ""
    && request.Some? && request.value.tag != ""
    && request.value.tag + "-" < e.name
  }

  predicate NoCandidate(es: seq<Event>) {
    forall e :: e in es ==> !FormsCandidate(LatestRequest(es, e.request), e)
  }

  /** A replay of the whole journal. */
  function Replay(c: Codec, f: seq<byte>): Replayed {
    if NoCandidate(AllEvents(c, f))
    then Folded(Loaded(Fold(Empty, AllEvents(c, f)), CompleteEnd(f)))
    else AliasRepair
  }

  /** A snapshot is used only when its offset is a record boundary of the current file. */
  predicate Accepts(f: seq<byte>, snapshot: Option<Loaded>) {
    snapshot.Some? && Boundary(f, snapshot.value.offset)
  }

  /** The events behind a boundary. */
  function TailEvents(c: Codec, f: seq<byte>, from: nat): seq<Event>
    requires Boundary(f, from)
  {
    EventsOf(Decode(c, Records(f, from, CompleteEnd(f))))
  }

  /** Whether folding es from s meets a mirror event of a name with no record yet. */
  predicate MirrorsUnknown(s: State, es: seq<Event>) {
    if es == [] then false
    else
      var init, e := es[..|es| - 1], es[|es| - 1];
      MirrorsUnknown(s, init) || (IsMirrorKind(e.kind) && e.name != "" && Incarnations(Fold(s, init), e.name) == [])
  }

  /** What a load with the file to itself returns. */
  function Load(c: Codec, f: seq<byte>, snapshot: Option<Loaded>): Replayed {
    if !Accepts(f, snapshot) then Replay(c, f)
    else
      var s := snapshot.value;
      var tail := TailEvents(c, f, s.offset);
      if MirrorsUnknown(s.state, tail) then Replay(c, f)
      else Folded(Loaded(Fold(s.state, tail), CompleteEnd(f)))
  }

  // ----- the store directory over time

  /**
   * A load takes no lock: it has opened the snapshot (or must replay), or it
   * has its projection and may still save it.
   */
  datatype Loader = Opened(base: Option<Loaded>) | Done(loaded: Loaded)

  datatype Disk = Disk(file: seq<byte>, snapshot: Option<Loaded>, loaders: seq<Loader>)

  /** Opens the snapshot, if it describes the file now. */
  function OpenAt(f: seq<byte>, snapshot: Option<Loaded>): Loader {
    Opened(if Accepts(f, snapshot) then snapshot else None)
  }

  /** One scan of the file as it is now: a tail on the opened snapshot, which may ask for a replay, or the replay. */
  function ScanAt(c: Codec, f: seq<byte>, base: Option<Loaded>): Loader {
    if base.None? then
      match Replay(c, f)
      case Folded(l) => Done(l)
      case AliasRepair => Opened(None)
    else if !Boundary(f, base.value.offset) then Opened(None)   // not reached: repair never cuts below a snapshot
    else
      var tail := TailEvents(c, f, base.value.offset);
      if MirrorsUnknown(base.value.state, tail) then Opened(None)
      else Done(Loaded(Fold(base.value.state, tail), CompleteEnd(f)))
  }

  /**
   * A lock holder's operation, or one step of a load: it opens, it scans, and
   * it may save its projection at any later time.
   */
  datatype Act = Write(op: Op) | Open | Read(loader: nat) | Save(loader: nat, saved: bool)

  function Next(c: Codec, d: Disk, a: Act): Disk {
    match a
    case Write(op) => d.(file := Step(c, d.file, op).file)
    case Open => d.(loaders := d.loaders + [OpenAt(d.file, d.snapshot)])
    case Read(i) =>
      if i < |d.loaders| && d.loaders[i].Opened?
        then d.(loaders := d.loaders[i := ScanAt(c, d.file, d.loaders[i].base)]) else d
    case Save(i, saved) =>
      if i < |d.loaders| && d.loaders[i].Done? && saved then d.(snapshot := Some(d.loaders[i].loaded)) else d
  }

  function DiskAt(c: Codec, d: Disk, acts: seq<Act>, k: nat): Disk
    requires k <= |acts|
  {
    if k == 0 then d else Next(c, DiskAt(c, d, acts, k - 1), acts[k - 1])
  }

  /** l is the fold of a complete prefix of the file, and repair never cuts into that prefix. */
  ghost predicate Holds(c: Codec, f: seq<byte>, l: Loaded) {
    && Boundary(f, l.offset) && l.offset <= |Repair(f)|
    && l.state == Fold(Empty, EventsOf(Decode(c, Records(f, 0, l.offset))))
  }

  ghost predicate SnapshotHolds(c: Codec, f: seq<byte>, snapshot: Option<Loaded>) {
    snapshot.Some? ==> Holds(c, f, snapshot.value)
  }

  ghost predicate LoaderHolds(c: Codec, f: seq<byte>, l: Loader) {
    match l
    case Opened(base) => SnapshotHolds(c, f, base)
    case Done(loaded) => Holds(c, f, loaded)
  }

  /** So does every projection a load holds or has left. */
  ghost predicate AllHold(c: Codec, d: Disk) {
    SnapshotHolds(c, d.file, d.snapshot) && forall i :: 0 <= i < |d.loaders| ==> LoaderHolds(c, d.file, d.loaders[i])
  }

  lemma EventsOfConcat(a: seq<Placed>, b: seq<Placed>)
    ensures EventsOf(a + b) == EventsOf(a) + EventsOf(b)
  {
  }

  /** Reading a prefix and then the tail reads everything. */
  lemma TailCompletes(c: Codec, f: seq<byte>, o: nat)
    requires Boundary(f, o)
    ensures AllEvents(c, f) == EventsOf(Decode(c, Records(f, 0, o))) + TailEvents(c, f, o)
  {
    BoundaryInComplete(f, o);
    RecordsSplit(f, 0, o, CompleteEnd(f));
    DecodeConcat(c, Records(f, 0, o), Records(f, o, CompleteEnd(f)));
    EventsOfConcat(Decode(c, Records(f, 0, o)), Decode(c, Records(f, o, CompleteEnd(f))));
  }

  /** A tail folded on a projection that holds is the fold of everything. */
  lemma TailOnPrefix(c: Codec, f: seq<byte>, l: Loaded)
    requires Holds(c, f, l)
    ensures Fold(l.state, TailEvents(c, f, l.offset)) == Fold(Empty, AllEvents(c, f))
  {
    hide ApplyEvent;
    TailCompletes(c, f, l.offset);
    FoldConcat(Empty, EventsOf(Decode(c, Records(f, 0, l.offset))), TailEvents(c, f, l.offset));
  }

  /** With a snapshot that holds, a load is a replay. */
  lemma LoadIsReplay(c: Codec, f: seq<byte>, snapshot: Option<Loaded>)
    requires SnapshotHolds(c, f, snapshot) && NoCandidate(AllEvents(c, f))
    ensures Load(c, f, snapshot) == Replay(c, f)
  {
    hide ApplyEvent, Fold;
    if Accepts(f, snapshot) { TailOnPrefix(c, f, snapshot.value); }
  }

  /** So is a scan of a load that overlaps others: what it finishes with is the replay of the file as it is then. */
  lemma ScanIsReplay(c: Codec, f: seq<byte>, base: Option<Loaded>)
    requires SnapshotHolds(c, f, base) && NoCandidate(AllEvents(c, f))
    ensures var r := ScanAt(c, f, base);
      if r.Done? then Replay(c, f) == Folded(r.loaded) else base.Some? && r == Opened(None)
    ensures LoaderHolds(c, f, ScanAt(c, f, base))
  {
    hide ApplyEvent, Fold;
    if base.Some? { TailOnPrefix(c, f, base.value); }
  }

  /** What the next complete line adds to the events. */
  lemma EventsNext(c: Codec, f: seq<byte>, from: nat, start: nat, end: nat)
    requires from <= start < CompleteEnd(f) && Boundary(f, from) && Boundary(f, start) && end == LineEnd(f, start)
    ensures EventsOf(Decode(c, Records(f, from, end))) == EventsOf(Decode(c, Records(f, from, start))) +
      (if WellFormed(c, f[start..end]).Some? then [WellFormed(c, f[start..end]).value] else [])
  {
    DecodeNext(c, f, from, start, end);
  }

  /** No append, crash or repair falls below a projection's offset or changes what precedes it. */
  lemma WriteKeepsHeld(c: Codec, f: seq<byte>, op: Op, l: Loaded)
    requires Holds(c, f, l)
    ensures Holds(c, Step(c, f, op).file, l)
  {
    hide Step;
    StepKeepsPrefix(c, f, op);
    PrefixKeepsRecords(f, Step(c, f, op).file, l.offset);
  }

  /** A file that keeps the complete prefix keeps the records before any offset in it. */
  lemma PrefixKeepsRecords(f: seq<byte>, g: seq<byte>, o: nat)
    requires Repair(f) <= g && Boundary(f, o) && o <= |Repair(f)|
    ensures Boundary(g, o) && o <= |Repair(g)| && Records(f, 0, o) == Records(g, 0, o)
  {
    CompletePrefixKept(f, g);
    assert f[..o] == Repair(f)[..o] == g[..o];
    RecordsLocal(f, g, 0, o);
  }

  /** In a journal with unique ids, dropping later events cannot make a candidate. */
  lemma NoCandidateEarlier(es: seq<Event>, more: seq<Event>)
    requires NoCandidate(es + more)
    requires forall i, j :: 0 <= i < j < |es + more| ==> (es + more)[i].id != (es + more)[j].id
    ensures NoCandidate(es)
  {
    var all := es + more;
    forall e | e in es ensures !FormsCandidate(LatestRequest(es, e.request), e) {
      assert e in all;
      var r := LatestRequest(es, e.request);
      if r.Some? {
        assert r.value in all;
        var q := LatestRequest(all, e.request);
        assert q.Some?;
        var i :| 0 <= i < |all| && all[i] == r.value;
        var j :| 0 <= j < |all| && all[j] == q.value;
        assert i == j;
      }
    }
  }

  lemma NextGrows(c: Codec, d: Disk, a: Act)
    requires CodecLaws(c) && UniqueIds(Scan(c, d.file))
    ensures Scan(c, d.file) <= Scan(c, Next(c, d, a).file) && UniqueIds(Scan(c, Next(c, d, a).file))
  {
    if a.Write? { StepKeepsRecords(c, d.file, a.op); }
  }

  /** What is journaled after i acts is a prefix of what is journaled after j >= i. */
  lemma {:induction false} JournalGrows(c: Codec, d: Disk, acts: seq<Act>, i: nat, j: nat)
    requires CodecLaws(c) && i <= j <= |acts| && UniqueIds(Scan(c, d.file))
    ensures Scan(c, DiskAt(c, d, acts, i).file) <= Scan(c, DiskAt(c, d, acts, j).file)
    ensures UniqueIds(Scan(c, DiskAt(c, d, acts, j).file))
    decreases j
  {
    hide Next, Scan;
    if i < j {
      JournalGrows(c, d, acts, i, j - 1);
      NextGrows(c, DiskAt(c, d, acts, j - 1), acts[j - 1]);
    } else if j > 0 {
      JournalGrows(c, d, acts, j - 1, j - 1);
      NextGrows(c, DiskAt(c, d, acts, j - 1), acts[j - 1]);
    }
  }

  lemma NoCandidateThroughout(c: Codec, d: Disk, acts: seq<Act>, i: nat, j: nat)
    requires CodecLaws(c) && i <= j <= |acts| && UniqueIds(Scan(c, d.file))
    requires NoCandidate(AllEvents(c, DiskAt(c, d, acts, j).file))
    ensures NoCandidate(AllEvents(c, DiskAt(c, d, acts, i).file))
  {
    JournalGrows(c, d, acts, i, j);
    var a, b := Scan(c, DiskAt(c, d, acts, i).file), Scan(c, DiskAt(c, d, acts, j).file);
    assert b == a + b[|a|..];
    EventsOfConcat(a, b[|a|..]);
    NoCandidateEarlier(EventsOf(a), EventsOf(b[|a|..]));
  }

  lemma NextHolds(c: Codec, d: Disk, a: Act)
    requires AllHold(c, d) && NoCandidate(AllEvents(c, d.file))
    ensures AllHold(c, Next(c, d, a))
  {
    hide Holds, Fold, Step, ScanAt;
    var e := Next(c, d, a);
    match a
    case Write(op) =>
      forall l | Holds(c, d.file, l) ensures Holds(c, e.file, l) { WriteKeepsHeld(c, d.file, op, l); }
      forall i | 0 <= i < |e.loaders| ensures LoaderHolds(c, e.file, e.loaders[i]) {
        assert LoaderHolds(c, d.file, d.loaders[i]);
      }
    case Open =>
    case Read(i) =>
      if i < |d.loaders| && d.loaders[i].Opened? {
        assert LoaderHolds(c, d.file, d.loaders[i]);
        ScanIsReplay(c, d.file, d.loaders[i].base);
      }
    case Save(i, saved) =>
      if i < |d.loaders| { assert LoaderHolds(c, d.file, d.loaders[i]); }
  }

  lemma {:induction false} AlwaysHolds(c: Codec, d: Disk, acts: seq<Act>, k: nat)
    requires CodecLaws(c) && k <= |acts| && UniqueIds(Scan(c, d.file))
    requires AllHold(c, d) && NoCandidate(AllEvents(c, DiskAt(c, d, acts, k).file))
    ensures AllHold(c, DiskAt(c, d, acts, k))
  {
    hide Next, AllHold, NoCandidate, AllEvents, Scan, UniqueIds, CodecLaws;
    if k > 0 {
      NoCandidateThroughout(c, d, acts, k - 1, k);
      AlwaysHolds(c, d, acts, k - 1);
      NextHolds(c, DiskAt(c, d, acts, k - 1), acts[k - 1]);
    }
  }

  /**
   * For every history of appends, repairs and crashes, and of loads that open,
   * scan and save at any times in between, that starts with no snapshot and a
   * journal of unique ids, and in which no launch-ready forms an alias
   * candidate: a load from whatever snapshot an earlier load left gives exactly
   * the projection and offset of a full replay, and the next repair does not
   * cut below that snapshot's offset.
   */
  lemma SnapshotEqualsReplay(c: Codec, f: seq<byte>, acts: seq<Act>, k: nat)
    requires CodecLaws(c) && k <= |acts| && UniqueIds(Scan(c, f))
    requires NoCandidate(AllEvents(c, DiskAt(c, Disk(f, None, []), acts, k).file))
    ensures var d := DiskAt(c, Disk(f, None, []), acts, k);
      && Load(c, d.file, d.snapshot) == Replay(c, d.file)
         == Folded(Loaded(Fold(Empty, AllEvents(c, d.file)), CompleteEnd(d.file)))
      && (d.snapshot.Some? ==> d.snapshot.value.offset <= |Repair(d.file)|)
  {
    hide Next, Fold, Scan;
    AlwaysHolds(c, Disk(f, None, []), acts, k);
    var d := DiskAt(c, Disk(f, None, []), acts, k);
    LoadIsReplay(c, d.file, d.snapshot);
  }

  /** A load that overlaps writes and other loads finishes with the replay of the file as it is at its last scan. */
  lemma OverlappingLoadIsReplay(c: Codec, f: seq<byte>, acts: seq<Act>, k: nat, i: nat)
    requires CodecLaws(c) && k < |acts| && UniqueIds(Scan(c, f)) && acts[k] == Read(i)
    requires NoCandidate(AllEvents(c, DiskAt(c, Disk(f, None, []), acts, k).file))
    requires var d := DiskAt(c, Disk(f, None, []), acts, k); i < |d.loaders| && d.loaders[i].Opened?
    ensures var d, e := DiskAt(c, Disk(f, None, []), acts, k), DiskAt(c, Disk(f, None, []), acts, k + 1);
      if e.loaders[i].Done? then Replay(c, d.file) == Folded(e.loaders[i].loaded)
      else d.loaders[i].base.Some? && e.loaders[i] == Opened(None)
  {
    hide Fold, Scan, ScanAt, Replay, Step, Holds;
    AlwaysHolds(c, Disk(f, None, []), acts, k);
    var d := DiskAt(c, Disk(f, None, []), acts, k);
    assert LoaderHolds(c, d.file, d.loaders[i]);
    ScanIsReplay(c, d.file, d.loaders[i].base);
  }

  // ----- a scan that overlaps a repair

  /**
   * What a scan reads that buffered n bytes of the file before some writes, and
   * whatever lies behind them afterwards.
   */
  function Mixed(before: seq<byte>, n: nat, after: seq<byte>): seq<byte>
    requires n <= |before|
  {
    before[..n] + after[Min(n, |after|)..]
  }

  /** What a scan of those bytes leaves. */
  function Left(c: Codec, seen: seq<byte>): Loaded {
    Loaded(Fold(Empty, AllEvents(c, seen)), CompleteEnd(seen))
  }

  /** A scan that buffered complete lines alone reads the later file. */
  lemma MixedIsLater(before: seq<byte>, n: nat, after: seq<byte>)
    requires n <= CompleteEnd(before) && Repair(before) <= after
    ensures Mixed(before, n, after) == after
  {
    assert before[..n] == Repair(before)[..n] == after[..n];
  }

  /** The event that a torn line and the rest of a longer line make together, if they make one. */
  function Merged(c: Codec, torn: seq<byte>, e: Event): seq<Event>
    requires |torn| <= |c.encode(e)|
  {
    var m := WellFormed(c, torn + c.encode(e)[|torn|..]);
    if m.Some? then [m.value] else []
  }

  /**
   * A scan that buffered a torn line, and resumes in the longer line another
   * holder wrote over it, reads the two as one line. It ends past the new
   * event, having seen what the merged line says in its place: nothing, an
   * event nobody wrote, or the new event itself. What it leaves describes the
   * file exactly when both fold alike.
   */
  lemma TornScanExact(c: Codec, f: seq<byte>, torn: seq<byte>, e: Event)
    requires CodecLaws(c) && c.valid(e) && |c.encode(e)| <= MAX_LINE_BYTES
    requires CompleteEnd(f) == |f| && Lookup(Scan(c, f), e.id).None?
    requires (forall i :: 0 <= i < |torn| ==> torn[i] != NL) && |torn| < |c.encode(e)|
    ensures var before := f + torn;
      var after := Step(c, before, Append(e, Fate(|c.encode(e)|, true, true))).file;
      && after == f + c.encode(e) && AllEvents(c, after) == AllEvents(c, f) + [e]
      && var seen := Mixed(before, |before|, after);
      && AllEvents(c, seen) == AllEvents(c, f) + Merged(c, torn, e) && CompleteEnd(seen) == |after|
      && (Holds(c, after, Left(c, seen)) <==>
          Fold(Empty, AllEvents(c, f) + [e]) == Fold(Empty, AllEvents(c, f) + Merged(c, torn, e)))
  {
    hide *;
    var line, before := c.encode(e), f + torn;
    var after, merged := f + line, torn + line[|torn|..];
    TornIsRepaired(f, torn);
    AppendLands(c, f, before, e);
    TornIsMerged(c, f, torn, e);
    MergedLine(c, f, torn, e);
    LeftOf(c, Mixed(before, |before|, after));
    WholeFileHolds(c, after, Fold(Empty, AllEvents(c, f) + Merged(c, torn, e)));
  }

  lemma LeftOf(c: Codec, seen: seq<byte>)
    ensures Left(c, seen) == Loaded(Fold(Empty, AllEvents(c, seen)), CompleteEnd(seen))
  {
  }

  lemma TornIsMerged(c: Codec, f: seq<byte>, torn: seq<byte>, e: Event)
    requires CodecLaws(c) && c.valid(e) && (forall i :: 0 <= i < |torn| ==> torn[i] != NL) && |torn| < |c.encode(e)|
    ensures var line := c.encode(e); var merged := torn + line[|torn|..];
      && Mixed(f + torn, |f + torn|, f + line) == f + merged && |merged| == |line| && OneLine(merged)
  {
    var line := c.encode(e);
    assert OneLine(line);
  }

  lemma TornIsRepaired(f: seq<byte>, torn: seq<byte>)
    requires CompleteEnd(f) == |f| && forall i :: 0 <= i < |torn| ==> torn[i] != NL
    ensures Repair(f + torn) == f
  {
    CompleteEndIs(f + torn, |f|);
  }

  lemma AppendLands(c: Codec, f: seq<byte>, before: seq<byte>, e: Event)
    requires CodecLaws(c) && c.valid(e) && |c.encode(e)| <= MAX_LINE_BYTES
    requires CompleteEnd(f) == |f| && Repair(before) == f && Lookup(Scan(c, f), e.id).None?
    ensures var after := f + c.encode(e);
      && Step(c, before, Append(e, Fate(|c.encode(e)|, true, true))).file == after
      && CompleteEnd(after) == |after| && AllEvents(c, after) == AllEvents(c, f) + [e]
  {
    FreshAppend(c, before, e, Fate(|c.encode(e)|, true, true));
    ScanWithLine(c, f, c.encode(e), e);
    EventsOfConcat(Scan(c, f), [Placed(e, |f|)]);
  }

  lemma WholeFileHolds(c: Codec, f: seq<byte>, s: State)
    requires CompleteEnd(f) == |f|
    ensures Holds(c, f, Loaded(s, |f|)) <==> s == Fold(Empty, AllEvents(c, f))
  {
    hide ApplyEvent, Fold;
  }

  /** What one more line adds to the events: what it says, if it is well formed. */
  lemma MergedLine(c: Codec, f: seq<byte>, torn: seq<byte>, e: Event)
    requires |torn| <= |c.encode(e)| && OneLine(torn + c.encode(e)[|torn|..]) && CompleteEnd(f) == |f|
    ensures var line := torn + c.encode(e)[|torn|..];
      CompleteEnd(f + line) == |f + line| && AllEvents(c, f + line) == AllEvents(c, f) + Merged(c, torn, e)
  {
    var line := torn + c.encode(e)[|torn|..];
    LineIsOneRecord(f, line);
    LineAdds(c, f, line);
  }

  lemma LineAdds(c: Codec, f: seq<byte>, line: seq<byte>)
    requires OneLine(line) && CompleteEnd(f) == |f| && CompleteEnd(f + line) == |f + line|
    ensures AllEvents(c, f + line) == AllEvents(c, f) +
      (if WellFormed(c, line).Some? then [WellFormed(c, line).value] else [])
  {
    hide Records, Decode, WellFormed;
    var h := f + line;
    DecodeNext(c, h, 0, |f|, |h|);
    assert h[|f|..|h|] == line && f == f[..|f|] && h[..|f|] == f;
    RecordsLocal(f, h, 0, |f|);
    EventsOfConcat(Decode(c, Records(h, 0, |f|)),
                   if WellFormed(c, line).Some? then [Placed(WellFormed(c, line).value, |f|)] else []);
  }

  /** What a scan that buffered n bytes leaves describes the file, whatever is written before the scan goes on. */
  ghost predicate ScanIsSafe(c: Codec, before: seq<byte>, n: nat)
    requires n <= |before|
  {
    forall ops, k :: 0 <= k <= |ops| ==>
      Holds(c, FileAt(c, before, ops, k), Left(c, Mixed(before, n, FileAt(c, before, ops, k))))
  }

  /** An event that a writer may append over the torn bytes, and that folds otherwise than what the merged line says. */
  ghost predicate Tells(c: Codec, f: seq<byte>, torn: seq<byte>, e: Event) {
    && c.valid(e) && |torn| < |c.encode(e)| <= MAX_LINE_BYTES && Lookup(Scan(c, f), e.id).None?
    && Fold(Empty, AllEvents(c, f) + [e]) != Fold(Empty, AllEvents(c, f) + Merged(c, torn, e))
  }

  /** The complete part of any file describes it. */
  lemma WholeScanHolds(c: Codec, f: seq<byte>)
    ensures Holds(c, f, Left(c, f))
  {
    hide ApplyEvent, Fold;
  }

  lemma TellsMeans(c: Codec, f: seq<byte>, torn: seq<byte>, e: Event)
    requires Tells(c, f, torn, e)
    ensures c.valid(e) && |torn| < |c.encode(e)| <= MAX_LINE_BYTES && Lookup(Scan(c, f), e.id).None?
    ensures Fold(Empty, AllEvents(c, f) + [e]) != Fold(Empty, AllEvents(c, f) + Merged(c, torn, e))
  {
    hide Fold, AllEvents, Merged;
  }

  /** After one append that tells, what the scan leaves is not true of the file. */
  lemma TornAppendBreaks(c: Codec, before: seq<byte>, n: nat, e: Event)
    requires CodecLaws(c) && CompleteEnd(before) < n <= |before|
    requires Tells(c, Repair(before), before[CompleteEnd(before)..n], e)
    ensures var after := FileAt(c, before, [Append(e, Fate(|c.encode(e)|, true, true))], 1);
      !Holds(c, after, Left(c, Mixed(before, n, after)))
  {
    hide *;
    var f, torn := Repair(before), before[CompleteEnd(before)..n];
    var op := Append(e, Fate(|c.encode(e)|, true, true));
    TellsMeans(c, f, torn, e);
    BufferShape(before, n);
    TornScanExact(c, f, torn, e);
    AppendLands(c, f, before, e);
    OneStep(c, before, op);
    SameBuffer(before, n, f + torn, FileAt(c, before, [op], 1));
  }

  lemma TornBufferIsUnsafe(c: Codec, before: seq<byte>, n: nat, e: Event)
    requires CodecLaws(c) && CompleteEnd(before) < n <= |before|
    requires Tells(c, Repair(before), before[CompleteEnd(before)..n], e)
    ensures !ScanIsSafe(c, before, n)
  {
    hide Holds, Left, Mixed, FileAt, Tells, CodecLaws, Repair, CompleteEnd;
    TornAppendBreaks(c, before, n, e);
    var ops := [Append(e, Fate(|c.encode(e)|, true, true))];
    assert 0 <= 1 <= |ops|;
  }

  lemma BufferShape(before: seq<byte>, n: nat)
    requires CompleteEnd(before) < n <= |before|
    ensures var f, torn := Repair(before), before[CompleteEnd(before)..n];
      && CompleteEnd(f) == |f| && Repair(f) == f && before[..n] == f + torn
      && forall i :: 0 <= i < |torn| ==> torn[i] != NL
  {
    CompleteEndIs(Repair(before), CompleteEnd(before));
  }

  lemma SameBuffer(before: seq<byte>, n: nat, other: seq<byte>, after: seq<byte>)
    requires n <= |before| && other == before[..n]
    ensures Mixed(before, n, after) == Mixed(other, |other|, after)
  {
    assert other[..|other|] == other;
  }

  lemma OneStep(c: Codec, f: seq<byte>, op: Op)
    ensures FileAt(c, f, [op], 1) == Step(c, f, op).file
  {
    assert FileAt(c, f, [op], 0) == f;
  }

  /**
   * A scan that buffered n bytes leaves a true projection, whatever any run of
   * writers does before it reads on, exactly when those bytes end within the
   * complete lines: a reader can see that its buffer ends with a newline. The
   * event e only shows, when they do not, that one more append can be told.
   */
  lemma ScanSafeExactlyWhenComplete(c: Codec, before: seq<byte>, n: nat, e: Event)
    requires CodecLaws(c) && n <= |before|
    requires CompleteEnd(before) < n ==> Tells(c, Repair(before), before[CompleteEnd(before)..n], e)
    ensures ScanIsSafe(c, before, n) <==> n <= CompleteEnd(before)
  {
    hide Holds, Left, Mixed, Tells;
    if n <= CompleteEnd(before) {
      forall ops, k | 0 <= k <= |ops|
        ensures Holds(c, FileAt(c, before, ops, k), Left(c, Mixed(before, n, FileAt(c, before, ops, k))))
      {
        PrefixForever(c, before, ops, 0, k);
        MixedIsLater(before, n, FileAt(c, before, ops, k));
        WholeScanHolds(c, FileAt(c, before, ops, k));
      }
    } else {
      TornBufferIsUnsafe(c, before, n, e);
    }
  }

  // ----- an instance

  /** A lane is created. */
  const Lone :=
    Event("L", 0, LaneCreated, "", "", "", "", "", "", "", "", "", "", "", "", false, "", [], "", "", "", "x", "a", "")

  /** A codec of that one event, whose line is the letter L. */
  function LoneEncode(e: Event): seq<byte> { if e == Lone then [76, NL] else [] }

  function LoneParse(raw: seq<byte>): Option<Event> { if raw == [76, NL] then Some(Lone) else None }

  function LoneCodec(): Codec { Codec(LoneEncode, LoneParse, (e: Event) => e == Lone) }

  /** One torn byte and one append: the scan that buffered it is not safe. */
  lemma TornScanExample()
    ensures CodecLaws(LoneCodec()) && Tells(LoneCodec(), [], [77], Lone)
    ensures !ScanIsSafe(LoneCodec(), [77], 1)
  {
    LoneLaws();
    LoneTells();
    assert CompleteEnd([77]) == 0 by { CompleteEndIs([77], 0); }
    assert Repair([77]) == [] && [77][0..1] == [77];
    TornBufferIsUnsafe(LoneCodec(), [77], 1, Lone);
  }

  lemma LoneLaws()
    ensures CodecLaws(LoneCodec())
  {
  }

  lemma LoneTells()
    ensures Tells(LoneCodec(), [], [77], Lone)
  {
    hide Fold, ApplyEvent, AllEvents, Merged, Scan, Lookup;
    var none: seq<Event> := [];
    LoneScans();
    LoneMerges();
    LoneFolds();
    assert none + [Lone] == [Lone] && none + none == none;
  }

  lemma LoneScans()
    ensures AllEvents(LoneCodec(), []) == [] && Lookup(Scan(LoneCodec(), []), Lone.id).None?
  {
    assert Records([], 0, 0) == [];
  }

  lemma LoneMerges()
    ensures Merged(LoneCodec(), [77], Lone) == [] && LoneCodec().valid(Lone) && |LoneCodec().encode(Lone)| == 2
  {
    var line := LoneCodec().encode(Lone);
    assert line == [76, NL] && [77] + line[1..] == [77, NL];
  }

  lemma LoneFolds()
    ensures Fold(Empty, [Lone]) != Fold(Empty, [])
  {
    assert [Lone][..0] == [];
    assert Fold(Empty, [Lone]) == ApplyEvent(Empty, Lone);
    assert "L" in ApplyEvent(Empty, Lone).lanes;
  }

  // ----- the code

  lemma NoTail(start: State)
    ensures Fold(start, []) == start && !MirrorsUnknown(start, [])
  {
  }

  lemma TailNext(start: State, es: seq<Event>, e: Event)
    ensures var s := Fold(start, es);
      && Fold(start, es + [e]) == ApplyEvent(s, e)
      && (MirrorsUnknown(start, es + [e]) <==>
          MirrorsUnknown(start, es) || (IsMirrorKind(e.kind) && e.name != "" && Incarnations(s, e.name) == []))
  {
    hide ApplyEvent;
    assert (es + [e])[..|es|] == es;
  }

  class Reader {
    const codec: Codec
    var file: seq<byte>
    var snapshot: Option<Loaded>

    constructor (codec: Codec, file: seq<byte>, snapshot: Option<Loaded>)
      ensures this.codec == codec && this.file == file && this.snapshot == snapshot
    {
      this.codec, this.file, this.snapshot := codec, file, snapshot;
    }

    /** Collects the events of every complete line from a boundary, and where complete input ends. */
    method ScanFrom(from: nat) returns (events: seq<Event>, end: nat)
      requires Boundary(file, from)
      ensures events == TailEvents(codec, file, from) && end == CompleteEnd(file)
    {
      events, end := [], from;
      while true
        invariant from <= end && Boundary(file, end)
        invariant events == EventsOf(Decode(codec, Records(file, from, end)))
        decreases |file| - end
      {
        var next := ReadLine(file, end);
        if next.None? { break; }
        var start := end;
        end := next.value;
        EventsNext(codec, file, from, start, end);
        match WellFormed(codec, file[start..end]) {
          case None =>
          case Some(e) => events := events + [e];
        }
      }
      BoundaryInComplete(file, end);
    }

    /** Looks for launches that could alias a base-name record: a map of requests, then one pass. */
    static method HasCandidate(events: seq<Event>) returns (found: bool)
      ensures found <==> !NoCandidate(events)
    {
      var requests: map<string, Event> := map[];
      var i := 0;
      while i < |events|
        invariant 0 <= i <= |events|
        invariant forall id :: id in requests <==> LatestRequest(events[..i], id).Some?
        invariant forall id :: id in requests ==> Some(requests[id]) == LatestRequest(events[..i], id)
      {
        assert events[..i + 1][..i] == events[..i];
        if events[i].kind.LaunchRequested? { requests := requests[events[i].id := events[i]]; }
        i := i + 1;
      }
      assert events[..i] == events;
      found := false;
      i := 0;
      while i < |events|
        invariant 0 <= i <= |events|
        invariant found <==>
          exists j :: 0 <= j < i && FormsCandidate(LatestRequest(events, events[j].request), events[j])
      {
        var e := events[i];
        if e.kind.LaunchReady? && e.request != "" && e.request in requests {
          var request := requests[e.request];
          if request.tag != "" && request.tag + "-" < e.name { found := true; }
        }
        i := i + 1;
      }
    }

    /** Folds every event from byte 0. */
    method ReplayAll() returns (r: Replayed)
      ensures r == Replay(codec, file)
    {
      var events, end := ScanFrom(0);
      var candidate := HasCandidate(events);
      if candidate { return AliasRepair; }
      var p := new Projection();
      FoldAll(p, events);
      r := Folded(Loaded(State(p.agents, p.requests, p.unnamed, p.lanes), end));
    }

    static method FoldAll(p: Projection, events: seq<Event>)
      modifies p
      ensures p.Value() == Fold(old(p.Value()), events)
    {
      var i := 0;
      while i < |events|
        invariant 0 <= i <= |events|
        invariant p.Value() == Fold(old(p.Value()), events[..i])
      {
        assert events[..i + 1][..i] == events[..i];
        p.Apply(events[i]);
        i := i + 1;
      }
      assert events[..i] == events;
    }

    /** Opens the snapshot when its offset is a record boundary of the file. */
    method OpenSnapshot() returns (base: Option<Loaded>)
      ensures Opened(base) == OpenAt(file, snapshot)
    {
      if snapshot.None? || snapshot.value.offset > |file| { return None; }
      var from := snapshot.value.offset;
      if from > 0 && file[from - 1] != NL { return None; }
      base := snapshot;
    }

    /** One scan: the tail on an opened snapshot, or a replay. */
    method ScanOnce(base: Option<Loaded>) returns (l: Loader)
      requires base.Some? ==> Boundary(file, base.value.offset)
      ensures l == ScanAt(codec, file, base)
    {
      hide ApplyEvent, Fold, MirrorsUnknown;
      if base.None? {
        var r := ReplayAll();
        return if r.Folded? then Done(r.loaded) else Opened(None);
      }
      var start := base.value.state;
      var events, end := ScanFrom(base.value.offset);
      var p := new Projection();
      p.agents, p.requests, p.unnamed, p.lanes := start.agents, start.requests, start.unnamed, start.lanes;
      var replayTail := false;
      var i := 0;
      NoTail(start);
      assert events[..0] == [];
      while i < |events|
        invariant 0 <= i <= |events|
        invariant p.Value() == Fold(start, events[..i])
        invariant replayTail <==> MirrorsUnknown(start, events[..i])
        invariant fresh(p)
      {
        assert events[..i + 1] == events[..i] + [events[i]];
        TailNext(start, events[..i], events[i]);
        var e := events[i];
        if IsMirrorKind(e.kind) && e.name != "" && (if e.name in p.agents then p.agents[e.name] else []) == [] {
          replayTail := true;
        }
        p.Apply(e);
        i := i + 1;
      }
      assert events[..i] == events;
      l := if replayTail then Opened(None) else Done(Loaded(State(p.agents, p.requests, p.unnamed, p.lanes), end));
    }

    /** A load with the file to itself: snapshot plus tail, else a full replay. */
    method LoadOnly() returns (r: Replayed)
      ensures r == Load(codec, file, snapshot)
    {
      var base := OpenSnapshot();
      if base.Some? {
        var l := ScanOnce(base);
        if l.Done? { return Folded(l.loaded); }
      }
      r := ReplayAll();
    }

    /** Saves a finished load's projection as the snapshot, when the write succeeds. */
    method SaveSnapshot(loaded: Loaded, saved: bool)
      modifies this`snapshot
      ensures snapshot == if saved then Some(loaded) else old(snapshot)
    {
      if saved { snapshot := Some(loaded); }
    }
  }
}
