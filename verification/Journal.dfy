/**
 * The append-only event journal: idempotent appends under a lock, torn-tail
 * repair after a crash. A writer may die, or its write may fall short, after
 * any number of bytes of its line.
 */
module Journal {
  import opened Common
  import opened Lines
  import opened Events

  const MAX_LINE_BYTES := 16 * 1024
  const REPAIR_BLOCK := 64 * 1024

  /**
   * JSON as seen by the journal: `encode` gives the line of an event, `parse`
   * decodes one raw line (blank or undecodable lines give None), `valid` is
   * the field contract an append checks first.
   */
  datatype Codec = Codec(encode: Event -> seq<byte>, parse: seq<byte> -> Option<Event>, valid: Event -> bool)

  /** An encoded valid event is one newline-terminated line that decodes to itself. */
  ghost predicate CodecLaws(c: Codec) {
    forall e :: c.valid(e) ==>
      && c.parse(c.encode(e)) == Some(e)
      && e.id != "" && e.kind != Other("")
      && OneLine(c.encode(e))
  }

  predicate OneLine(l: seq<byte>) {
    l != [] && l[|l| - 1] == NL && forall i :: 0 <= i < |l| - 1 ==> l[i] != NL
  }

  /** What a scan makes of one raw line: an event with an id and a kind, or nothing. */
  function WellFormed(c: Codec, raw: seq<byte>): Option<Event> {
    match c.parse(raw)
    case Some(e) => if e.id != "" && e.kind != Other("") then Some(e) else None
    case None => None
  }

  datatype Placed = Placed(event: Event, offset: nat)

  /** The events among a list of records, with their offsets, in order. */
  function Decode(c: Codec, rs: seq<Record>): (r: seq<Placed>) {
    if rs == [] then []
    else
      var rest := Decode(c, rs[..|rs| - 1]);
      match WellFormed(c, rs[|rs| - 1].raw)
      case Some(e) => rest + [Placed(e, rs[|rs| - 1].start)]
      case None => rest
  }

  /** Every event a full scan of the file visits. */
  function Scan(c: Codec, f: seq<byte>): seq<Placed> {
    Decode(c, Records(f, 0, CompleteEnd(f)))
  }

  /** The last event carrying id: what the replay check finds. */
  function Lookup(ps: seq<Placed>, id: string): (r: Option<Placed>)
    ensures r.Some? ==> r.value in ps && r.value.event.id == id
    ensures r.None? <==> forall p :: p in ps ==> p.event.id != id
  {
    if ps == [] then None
    else if ps[|ps| - 1].event.id == id then Some(ps[|ps| - 1])
    else
      assert ps == ps[..|ps| - 1] + [ps[|ps| - 1]];
      Lookup(ps[..|ps| - 1], id)
  }

  function Repair(f: seq<byte>): seq<byte> {
    f[..CompleteEnd(f)]
  }

  datatype Receipt = Receipt(event: Event, offset: nat, replayed: bool)

  /**
   * How one append ends outside the code's control: the bytes of the line that
   * reached the file, whether fsync succeeded, whether the writer survived.
   */
  datatype Fate = Fate(written: nat, synced: bool, survives: bool)

  datatype Outcome =
    | Acknowledged(receipt: Receipt)
    | Invalid | TooLong | Conflict
    | Unavailable
    | Died
    | Looked(found: bool)

  datatype Appended = Appended(file: seq<byte>, outcome: Outcome)

  /** One append by a lock holder, as a function of the file and its fate. */
  function AppendTo(c: Codec, f: seq<byte>, e: Event, fate: Fate): Appended {
    if !c.valid(e) then Appended(f, Invalid)
    else if |c.encode(e)| > MAX_LINE_BYTES then Appended(f, TooLong)
    else
      var g := Repair(f);
      match Lookup(Scan(c, g), e.id)
      case Some(p) =>
        if c.encode(p.event) != c.encode(e.(at := p.event.at)) then Appended(g, Conflict)
        else Appended(g, Settle(fate, Receipt(p.event, p.offset, true)))
      case None =>
        var line := c.encode(e);
        Appended(g + line[..Min(fate.written, |line|)],
                 if fate.survives && fate.written < |line| then Unavailable
                 else Settle(fate, Receipt(e, |g|, false)))
  }

  function Settle(fate: Fate, r: Receipt): Outcome {
    if !fate.survives then Died else if !fate.synced then Unavailable else Acknowledged(r)
  }

  /** What a lock holder may do: append an event, or only look an id up (which repairs too). */
  datatype Op = Append(event: Event, fate: Fate) | Has(id: string)

  function Step(c: Codec, f: seq<byte>, op: Op): Appended {
    match op
    case Append(e, fate) => AppendTo(c, f, e, fate)
    case Has(id) => Appended(Repair(f), Looked(Lookup(Scan(c, Repair(f)), id).Some?))
  }

  /** The file after the first k operations. The lock makes them one sequence. */
  function FileAt(c: Codec, f: seq<byte>, ops: seq<Op>, k: nat): seq<byte>
    requires k <= |ops|
  {
    if k == 0 then f else Step(c, FileAt(c, f, ops, k - 1), ops[k - 1]).file
  }

  /** What the k-th operation reports. */
  function OutcomeOf(c: Codec, f: seq<byte>, ops: seq<Op>, k: nat): Outcome
    requires k < |ops|
  {
    Step(c, FileAt(c, f, ops, k), ops[k]).outcome
  }

  /** No id has two complete records. */
  predicate UniqueIds(ps: seq<Placed>) {
    forall i, j :: 0 <= i < j < |ps| ==> ps[i].event.id != ps[j].event.id
  }

  /** The event has a complete, well-formed record at that offset. */
  predicate Recorded(c: Codec, f: seq<byte>, e: Event, offset: nat) {
    && offset < CompleteEnd(f) && Boundary(f, offset)
    && WellFormed(c, f[offset..LineEnd(f, offset)]) == Some(e)
  }

  // ----- scanning facts

  lemma {:induction false} DecodeConcat(c: Codec, a: seq<Record>, b: seq<Record>)
    ensures Decode(c, a + b) == Decode(c, a) + Decode(c, b)
  {
    if b == [] {
      assert a + b == a;
    } else {
      assert (a + b)[..|a + b| - 1] == a + b[..|b| - 1];
      DecodeConcat(c, a, b[..|b| - 1]);
    }
  }

  /** A scan of the complete prefix of a grown file extends the earlier scan. */
  lemma {:induction false} ScanGrows(c: Codec, f: seq<byte>, g: seq<byte>)
    requires Repair(f) <= g
    ensures CompleteEnd(f) <= CompleteEnd(g) && Boundary(g, CompleteEnd(f))
    ensures Scan(c, g) == Scan(c, f) + Decode(c, Records(g, CompleteEnd(f), CompleteEnd(g)))
  {
    ScanRepaired(c, f);
    GrowthKeepsComplete(Repair(f), g);
    DecodeConcat(c, Records(Repair(f), 0, CompleteEnd(f)), Records(g, CompleteEnd(f), CompleteEnd(g)));
  }

  lemma {:induction false} ScanRepaired(c: Codec, f: seq<byte>)
    ensures Scan(c, Repair(f)) == Scan(c, f)
  {
    RecordsLocal(f, Repair(f), 0, CompleteEnd(f));
  }

  /** A full line is exactly one new record. */
  lemma {:induction false} LineIsOneRecord(g: seq<byte>, line: seq<byte>)
    requires OneLine(line) && CompleteEnd(g) == |g|
    ensures CompleteEnd(g + line) == |g + line| && Boundary(g + line, |g|)
    ensures LineEnd(g + line, |g|) == |g + line|
    ensures Records(g + line, |g|, |g + line|) == [Record(|g|, line)]
  {
    var h := g + line;
    assert forall i :: |g| <= i < |h| ==> h[i] == line[i - |g|];
    CompleteEndIs(h, |h|);
    assert h[|g|..|h|] == line;
  }

  lemma {:induction false} ScanWithLine(c: Codec, g: seq<byte>, line: seq<byte>, e: Event)
    requires OneLine(line) && WellFormed(c, line) == Some(e) && CompleteEnd(g) == |g|
    ensures Repair(g + line) == g + line
    ensures Scan(c, g + line) == Scan(c, g) + [Placed(e, |g|)]
    ensures Recorded(c, g + line, e, |g|)
  {
    var h := g + line;
    LineIsOneRecord(g, line);
    assert Repair(g) == g && Repair(h) == h;
    ScanGrows(c, g, h);
    assert h[|g|..|h|] == line;
  }

  /** A torn line leaves no record: repairing it gives the file back. */
  lemma {:induction false} TornLine(c: Codec, g: seq<byte>, e: Event, n: nat)
    requires CodecLaws(c) && c.valid(e) && CompleteEnd(g) == |g|
    requires n < |c.encode(e)|
    ensures Repair(g + c.encode(e)[..n]) == g
  {
    var h := g + c.encode(e)[..n];
    forall i | |g| <= i < |h| ensures h[i] != NL { assert h[i] == c.encode(e)[i - |g|]; }
    CompleteEndIs(h, |g|);
  }

  lemma {:induction false} ScannedIsRecorded(c: Codec, f: seq<byte>, p: Placed)
    ensures p in Scan(c, f) <==> Recorded(c, f, p.event, p.offset)
  {
    if p in Scan(c, f) { ScannedHolds(c, f, p); }
    if Recorded(c, f, p.event, p.offset) { RecordedIsScanned(c, f, p); }
  }

  lemma {:induction false} RecordedIsScanned(c: Codec, f: seq<byte>, p: Placed)
    requires Recorded(c, f, p.event, p.offset)
    ensures p in Scan(c, f)
  {
    var n, e := CompleteEnd(f), LineEnd(f, p.offset);
    DecodeNext(c, f, 0, p.offset, e);
    RecordsSplit(f, 0, e, n);
    DecodeConcat(c, Records(f, 0, e), Records(f, e, n));
    var upto := Decode(c, Records(f, 0, e));
    assert upto[|upto| - 1] == p;
  }

  lemma {:induction false} ScannedHolds(c: Codec, f: seq<byte>, p: Placed)
    requires p in Scan(c, f)
    ensures Recorded(c, f, p.event, p.offset)
  {
    var rs := Records(f, 0, CompleteEnd(f));
    DecodedFrom(c, rs, p);
    var k: nat :| k < |rs| && rs[k].start == p.offset && WellFormed(c, rs[k].raw) == Some(p.event);
    RecordsInside(f, 0, CompleteEnd(f), k);
    assert LineEnd(f, rs[k].start) <= rs[k].start + |rs[k].raw|;
    assert rs[k].start + |rs[k].raw| <= LineEnd(f, rs[k].start);
  }

  /** What the next complete line adds to the decoded events. */
  lemma {:induction false} DecodeNext(c: Codec, f: seq<byte>, from: nat, start: nat, end: nat)
    requires from <= start < end && Boundary(f, from) && Boundary(f, start) && Boundary(f, end)
    requires forall i :: start <= i < end - 1 ==> f[i] != NL
    ensures Decode(c, Records(f, from, end)) == Decode(c, Records(f, from, start)) +
      (if WellFormed(c, f[start..end]).Some? then [Placed(WellFormed(c, f[start..end]).value, start)] else [])
  {
    RecordsSplit(f, from, start, end);
    DecodeConcat(c, Records(f, from, start), Records(f, start, end));
    assert [Record(start, f[start..end])][..0] == [];
  }

  /** What one more complete line does to the last event found with an id. */
  lemma {:induction false} LookupNext(c: Codec, f: seq<byte>, start: nat, end: nat, id: string)
    requires start < CompleteEnd(f) && Boundary(f, start) && end == LineEnd(f, start)
    ensures var e := WellFormed(c, f[start..end]); var before := Lookup(Decode(c, Records(f, 0, start)), id);
      Lookup(Decode(c, Records(f, 0, end)), id) ==
        if e.Some? && e.value.id == id then Some(Placed(e.value, start)) else before
  {
    hide WellFormed, Records;
    DecodeNext(c, f, 0, start, end);
    var e, ps := WellFormed(c, f[start..end]), Decode(c, Records(f, 0, start));
    if e.Some? {
      var p := Placed(e.value, start);
      assert (ps + [p])[..|ps|] == ps && (ps + [p])[|ps|] == p;
    } else {
      assert ps + [] == ps;
    }
  }

  lemma {:induction false} NothingLooked(c: Codec, f: seq<byte>, id: string)
    ensures Lookup(Decode(c, Records(f, 0, 0)), id) == None
  {
  }

  lemma {:induction false} DecodedFrom(c: Codec, rs: seq<Record>, p: Placed)
    requires p in Decode(c, rs)
    ensures exists k: nat :: k < |rs| && rs[k].start == p.offset && WellFormed(c, rs[k].raw) == Some(p.event)
  {
    var init := rs[..|rs| - 1];
    if p in Decode(c, init) {
      DecodedFrom(c, init, p);
      var k: nat :| k < |init| && init[k].start == p.offset && WellFormed(c, init[k].raw) == Some(p.event);
      assert rs[k] == init[k];
    }
  }

  // ----- one operation

  /** A new id adds its record when the whole line landed, and nothing otherwise. */
  lemma {:induction false} FreshLine(c: Codec, g: seq<byte>, e: Event, n: nat)
    requires CodecLaws(c) && c.valid(e) && CompleteEnd(g) == |g|
    ensures var line := c.encode(e);
      Scan(c, g + line[..Min(n, |line|)]) == Scan(c, g) + (if n < |line| then [] else [Placed(e, |g|)])
  {
    var line := c.encode(e);
    if n < |line| {
      TornLine(c, g, e, n);
      ScanRepaired(c, g + line[..n]);
    } else {
      assert line[..|line|] == line;
      ScanWithLine(c, g, line, e);
    }
  }

  lemma {:induction false} StepKeepsPrefix(c: Codec, f: seq<byte>, op: Op)
    ensures Repair(f) <= Step(c, f, op).file
  {
  }

  /**
   * What every lock holder keeps: the complete records already on file stay
   * byte for byte, at most one record is added, and it is a new id.
   */
  lemma {:induction false} StepKeepsRecords(c: Codec, f: seq<byte>, op: Op)
    requires CodecLaws(c)
    ensures Repair(f) <= Repair(Step(c, f, op).file)
    ensures Scan(c, Step(c, f, op).file) == Scan(c, f) ||
            (op.Append? && Lookup(Scan(c, f), op.event.id).None?
             && Scan(c, Step(c, f, op).file) == Scan(c, f) + [Placed(op.event, CompleteEnd(f))])
  {
    var g := Repair(f);
    ScanRepaired(c, f);
    StepKeepsPrefix(c, f, op);
    CompletePrefixKept(f, Step(c, f, op).file);
    if op.Append? && c.valid(op.event) && |c.encode(op.event)| <= MAX_LINE_BYTES &&
      Lookup(Scan(c, g), op.event.id).None? {
      FreshLine(c, g, op.event, op.fate.written);
    }
  }

  /** An acknowledged receipt names a complete record of the file it leaves. */
  lemma {:induction false} AcknowledgedIsRecorded(c: Codec, f: seq<byte>, op: Op)
    requires CodecLaws(c)
    requires Step(c, f, op).outcome.Acknowledged?
    ensures var r := Step(c, f, op).outcome.receipt;
      Recorded(c, Step(c, f, op).file, r.event, r.offset) && r.event.id == op.event.id
      && (!r.replayed ==> r.event == op.event)
  {
    match Lookup(Scan(c, Repair(f)), op.event.id)
    case Some(p) =>
      ScannedIsRecorded(c, Repair(f), p);
    case None =>
      var line := c.encode(op.event);
      assert line[..|line|] == line;
      ScanWithLine(c, Repair(f), line, op.event);
  }

  /** A complete record survives any file that keeps the complete prefix. */
  lemma {:induction false} RecordedStays(c: Codec, f: seq<byte>, g: seq<byte>, e: Event, offset: nat)
    requires Recorded(c, f, e, offset) && Repair(f) <= g
    ensures Recorded(c, g, e, offset)
  {
    var p := Placed(e, offset);
    ScannedIsRecorded(c, f, p);
    ScanGrows(c, f, g);
    ScannedIsRecorded(c, g, p);
  }

  // ----- whole runs

  /** Keeping the complete prefix keeps all of it complete. */
  lemma {:induction false} CompletePrefixKept(f: seq<byte>, g: seq<byte>)
    requires Repair(f) <= g
    ensures Repair(f) <= Repair(g)
  {
    GrowthKeepsComplete(Repair(f), g);
  }

  /** Complete records on file after i operations are still there, unmoved, after any j >= i. */
  lemma {:induction false} PrefixForever(c: Codec, f: seq<byte>, ops: seq<Op>, i: nat, j: nat)
    requires i <= j <= |ops|
    ensures Repair(FileAt(c, f, ops, i)) <= FileAt(c, f, ops, j)
    decreases j
  {
    if i < j {
      PrefixForever(c, f, ops, i, j - 1);
      CompletePrefixKept(FileAt(c, f, ops, i), FileAt(c, f, ops, j - 1));
      StepKeepsPrefix(c, FileAt(c, f, ops, j - 1), ops[j - 1]);
    }
  }

  /**
   * Durability: once an operation acknowledges a receipt, its event is on file
   * at the receipt's offset after every later prefix of the run, whatever the
   * later writers do and wherever they die.
   */
  lemma {:induction false} AcknowledgedForever(c: Codec, f: seq<byte>, ops: seq<Op>, i: nat, j: nat)
    requires CodecLaws(c) && i < j <= |ops|
    requires OutcomeOf(c, f, ops, i).Acknowledged?
    ensures var r := OutcomeOf(c, f, ops, i).receipt; Recorded(c, FileAt(c, f, ops, j), r.event, r.offset)
  {
    var r := OutcomeOf(c, f, ops, i).receipt;
    AcknowledgedIsRecorded(c, FileAt(c, f, ops, i), ops[i]);
    PrefixForever(c, f, ops, i + 1, j);
    RecordedStays(c, FileAt(c, f, ops, i + 1), FileAt(c, f, ops, j), r.event, r.offset);
  }

  /** No run gives an id two complete records. */
  lemma {:induction false} IdsStayUnique(c: Codec, f: seq<byte>, ops: seq<Op>, k: nat)
    requires CodecLaws(c) && k <= |ops| && UniqueIds(Scan(c, f))
    ensures UniqueIds(Scan(c, FileAt(c, f, ops, k)))
  {
    if k > 0 {
      IdsStayUnique(c, f, ops, k - 1);
      StepKeepsUnique(c, FileAt(c, f, ops, k - 1), ops[k - 1]);
    }
  }

  lemma {:induction false} StepKeepsUnique(c: Codec, f: seq<byte>, op: Op)
    requires CodecLaws(c) && UniqueIds(Scan(c, f))
    ensures UniqueIds(Scan(c, Step(c, f, op).file))
  {
    StepKeepsRecords(c, f, op);
  }

  /**
   * Repair drops only bytes no receipt covers: the record of any acknowledged
   * receipt ends at or before the point the next repair cuts at.
   */
  lemma {:induction false} RepairSparesReceipts(c: Codec, f: seq<byte>, ops: seq<Op>, i: nat, j: nat)
    requires CodecLaws(c) && i < j <= |ops|
    requires OutcomeOf(c, f, ops, i).Acknowledged?
    ensures var r := OutcomeOf(c, f, ops, i).receipt; var g := FileAt(c, f, ops, j);
      r.offset < CompleteEnd(g) && LineEnd(g, r.offset) <= |Repair(g)|
      && Recorded(c, Repair(g), r.event, r.offset)
  {
    var r := OutcomeOf(c, f, ops, i).receipt;
    var g := FileAt(c, f, ops, j);
    AcknowledgedForever(c, f, ops, i, j);
    RecordedStays(c, g, Repair(g), r.event, r.offset);
  }

  /**
   * Idempotence: after a receipt for an event, any later append of the same
   * payload (its time may differ) that survives and syncs returns the same
   * event and offset, marked replayed, and adds no byte.
   */
  lemma {:induction false} RetryReturnsSameReceipt(c: Codec, f: seq<byte>, ops: seq<Op>, i: nat, j: nat)
    requires CodecLaws(c) && i < j < |ops| && UniqueIds(Scan(c, f))
    requires OutcomeOf(c, f, ops, i).Acknowledged?
    requires ops[j].Append? && c.valid(ops[j].event) && |c.encode(ops[j].event)| <= MAX_LINE_BYTES
    requires var r := OutcomeOf(c, f, ops, i).receipt; ops[j].event.(at := r.event.at) == r.event
    requires ops[j].fate.survives && ops[j].fate.synced
    ensures var r := OutcomeOf(c, f, ops, i).receipt;
      OutcomeOf(c, f, ops, j) == Acknowledged(Receipt(r.event, r.offset, true))
    ensures FileAt(c, f, ops, j + 1) == Repair(FileAt(c, f, ops, j))
  {
    var r := OutcomeOf(c, f, ops, i).receipt;
    var g := FileAt(c, f, ops, j);
    RepairSparesReceipts(c, f, ops, i, j);
    IdsStayUnique(c, f, ops, j);
    ScanRepaired(c, g);
    var ps := Scan(c, Repair(g));
    ScannedIsRecorded(c, Repair(g), Placed(r.event, r.offset));
    assert Placed(r.event, r.offset) in ps;
    LookupUnique(ps, Placed(r.event, r.offset));
  }

  lemma {:induction false} LookupUnique(ps: seq<Placed>, p: Placed)
    requires UniqueIds(ps) && p in ps
    ensures Lookup(ps, p.event.id) == Some(p)
  {
    var q := Lookup(ps, p.event.id).value;
    var i :| 0 <= i < |ps| && ps[i] == p;
    var j :| 0 <= j < |ps| && ps[j] == q;
  }

  /** A different payload under a taken id is refused, and the records stay as they were. */
  lemma {:induction false} ConflictChangesNothing(c: Codec, f: seq<byte>, e: Event, p: Placed, fate: Fate)
    requires CodecLaws(c) && c.valid(e) && |c.encode(e)| <= MAX_LINE_BYTES
    requires UniqueIds(Scan(c, f)) && p in Scan(c, f) && p.event.id == e.id
    requires c.valid(p.event) && c.valid(e.(at := p.event.at)) && e.(at := p.event.at) != p.event
    ensures AppendTo(c, f, e, fate) == Appended(Repair(f), Conflict)
  {
    ScanRepaired(c, f);
    LookupUnique(Scan(c, f), p);
    assert c.parse(c.encode(p.event)) != c.parse(c.encode(e.(at := p.event.at)));
  }

  /**
   * A crash costs nothing but the retry: whatever part of a new event's line
   * reached the file, appending it again acknowledges it at the offset the
   * first try would have used, and leaves exactly one record of it.
   */
  lemma {:induction false} RetryAfterCrash(c: Codec, f: seq<byte>, e: Event, fate: Fate, again: Fate)
    requires CodecLaws(c) && c.valid(e) && |c.encode(e)| <= MAX_LINE_BYTES
    requires Lookup(Scan(c, f), e.id).None?
    requires again.survives && again.synced && again.written >= |c.encode(e)|
    ensures var second := AppendTo(c, AppendTo(c, f, e, fate).file, e, again);
      && second.outcome == Acknowledged(Receipt(e, CompleteEnd(f), fate.written >= |c.encode(e)|))
      && Scan(c, second.file) == Scan(c, f) + [Placed(e, CompleteEnd(f))]
  {
    var g, line := Repair(f), c.encode(e);
    ScanRepaired(c, f);
    FreshAppend(c, f, e, again);
    if fate.written < |line| {
      TornLine(c, g, e, fate.written);
      FreshAppend(c, g + line[..fate.written], e, again);
    } else {
      assert line[..|line|] == line;
      ScanWithLine(c, g, line, e);
      LookupSkipsNew(Scan(c, g), Placed(e, |g|));
      ReplayedAppend(c, g + line, Placed(e, |g|), again);
    }
  }

  lemma {:induction false} FreshAppend(c: Codec, f: seq<byte>, e: Event, fate: Fate)
    requires CodecLaws(c) && c.valid(e) && |c.encode(e)| <= MAX_LINE_BYTES
    requires Lookup(Scan(c, Repair(f)), e.id).None?
    requires fate.survives && fate.synced && fate.written >= |c.encode(e)|
    ensures AppendTo(c, f, e, fate) ==
      Appended(Repair(f) + c.encode(e), Acknowledged(Receipt(e, CompleteEnd(f), false)))
    ensures Scan(c, AppendTo(c, f, e, fate).file) == Scan(c, Repair(f)) + [Placed(e, CompleteEnd(f))]
  {
    var line := c.encode(e);
    assert line[..|line|] == line;
    FreshLine(c, Repair(f), e, fate.written);
  }

  lemma {:induction false} ReplayedAppend(c: Codec, f: seq<byte>, p: Placed, fate: Fate)
    requires CodecLaws(c) && c.valid(p.event) && |c.encode(p.event)| <= MAX_LINE_BYTES
    requires Lookup(Scan(c, f), p.event.id) == Some(p)
    requires fate.survives && fate.synced
    ensures AppendTo(c, f, p.event, fate) == Appended(Repair(f), Acknowledged(Receipt(p.event, p.offset, true)))
  {
    ScanRepaired(c, f);
    assert p.event.(at := p.event.at) == p.event;
  }

  lemma {:induction false} LookupSkipsNew(ps: seq<Placed>, p: Placed)
    ensures Lookup(ps + [p], p.event.id) == Some(p)
  {
  }

  // ----- the store

  class Store {
    const codec: Codec
    var file: seq<byte>

    constructor (codec: Codec, file: seq<byte>)
      ensures this.codec == codec && this.file == file
    {
      this.codec, this.file := codec, file;
    }

    /** One past the last newline at or before size, found block by block from the end. */
    method CompleteEndBlocks(size: nat) returns (end: nat)
      requires size <= |file|
      ensures end == CompleteEnd(file[..size])
    {
      var pos := size;
      while pos > 0
        invariant 0 <= pos <= size
        invariant forall i :: pos <= i < size ==> file[i] != NL
      {
        var n := Min(REPAIR_BLOCK, pos);
        var i := n;
        while i > 0 && file[pos - n + i - 1] != NL
          invariant 0 <= i <= n
          invariant forall k :: pos - n + i <= k < size ==> file[k] != NL
        {
          i := i - 1;
        }
        if i > 0 {
          CompleteEndIs(file[..size], pos - n + i);
          return pos - n + i;
        }
        pos := pos - n;
      }
      CompleteEndIs(file[..size], 0);
      end := 0;
    }

    /** Truncates a final line without its newline. */
    method RepairTornTail()
      modifies this
      ensures file == Repair(old(file))
    {
      var size := |file|;
      if size == 0 { return; }
      if file[size - 1] == NL { return; }
      var end := CompleteEndBlocks(size);
      assert file[..size] == file;
      file := file[..end];
    }

    /** Scans every complete line from the start for id; a later match replaces an earlier one. */
    method FindId(id: string) returns (hit: Option<Placed>)
      ensures hit == Lookup(Scan(codec, file), id)
    {
      hit := None;
      hide Decode, Lookup, WellFormed;
      var offset := 0;
      NothingLooked(codec, file, id);
      while true
        invariant Boundary(file, offset)
        invariant hit == Lookup(Decode(codec, Records(file, 0, offset)), id)
        decreases |file| - offset
      {
        var next := ReadLine(file, offset);
        if next.None? { break; }
        var start := offset;
        offset := next.value;
        LookupNext(codec, file, start, offset, id);
        match WellFormed(codec, file[start..offset]) {
          case None =>
          case Some(e) => if e.id == id { hit := Some(Placed(e, start)); }
        }
      }
      BoundaryInComplete(file, offset);
    }

    /** Validates, repairs, checks the id for replay, else writes the line with one write and an fsync. */
    method Append(e: Event, fate: Fate) returns (outcome: Outcome)
      modifies this
      ensures Appended(file, outcome) == AppendTo(codec, old(file), e, fate)
    {
      if !codec.valid(e) { return Invalid; }
      var line := codec.encode(e);
      if |line| > MAX_LINE_BYTES { return TooLong; }
      RepairTornTail();
      var hit := FindId(e.id);
      if hit.Some? {
        var existing := hit.value.event;
        var retry := e.(at := existing.at);
        if codec.encode(existing) != codec.encode(retry) { return Conflict; }
        if !fate.survives { return Died; }
        if !fate.synced { return Unavailable; }
        return Acknowledged(Receipt(existing, hit.value.offset, true));
      }
      var end := |file|;
      file := file + line[..Min(fate.written, |line|)];
      if !fate.survives { return Died; }
      if fate.written < |line| { return Unavailable; }
      if !fate.synced { return Unavailable; }
      outcome := Acknowledged(Receipt(e, end, false));
    }

    /** Reports whether id is journaled, against the same repaired view as Append. */
    method Has(id: string) returns (found: bool)
      modifies this
      ensures file == Repair(old(file))
      ensures found <==> exists p :: p in Scan(codec, old(file)) && p.event.id == id
    {
      RepairTornTail();
      var hit := FindId(id);
      ScanRepaired(codec, old(file));
      found := hit.Some?;
    }
  }
}
