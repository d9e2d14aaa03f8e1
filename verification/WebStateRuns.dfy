/**
 * What the state store promises over whole runs of upserts and sweeps: exact
 * deltas for every cursor, convergence of writes in any order and batching,
 * and no return of a deleted row.
 */
module WebStateRuns {
  import opened Common
  import opened WebState

  datatype Op = UpsertOp(batch: seq<Row>, saved: bool) | SweepOp(policy: Policy, saved: bool)

  ghost predicate Step(lim: Limits, d: Data, op: Op, e: Data) {
    match op
    case UpsertOp(batch, saved) => e == Upsert(lim, d, batch, saved).data
    case SweepOp(p, saved) => Sweeps(d, p, saved, e)
  }

  /** ds is the sequence of states of a run of ops. */
  ghost predicate Run(lim: Limits, ds: seq<Data>, ops: seq<Op>) {
    |ds| == |ops| + 1 && forall i :: 0 <= i < |ops| ==> Step(lim, ds[i], ops[i], ds[i + 1])
  }

  // ----- what one upsert does to each key

  predicate Distinct(ks: seq<string>) {
    forall i, j :: 0 <= i < j < |ks| ==> ks[i] != ks[j]
  }

  lemma {:induction false} StoreAllAt(rows: map<string, Stored>, rev: nat, w: map<string, Row>, ks: seq<string>, i: nat)
    requires forall k :: k in ks ==> k in w
    requires Distinct(ks) && i < |ks|
    ensures ks[i] in StoreAll(rows, rev, w, ks) && StoreAll(rows, rev, w, ks)[ks[i]] == Stored(w[ks[i]], rev + i + 1)
  {
    var n := |ks| - 1;
    if i < n {
      StoreAllAt(rows, rev, w, ks[..n], i);
      assert ks[..n][i] == ks[i];
    }
  }

  lemma {:induction false} AcceptedDistinct(d: Data, w: map<string, Row>, ks: seq<string>)
    requires Distinct(ks)
    ensures Distinct(AcceptedKeys(d, w, ks))
  {
    if ks != [] {
      var init, k := ks[..|ks| - 1], ks[|ks| - 1];
      AcceptedDistinct(d, w, init);
      ListsMean(d, w, init);
      forall x | x in AcceptedKeys(d, w, init) ensures x != k {
        var j :| 0 <= j < |init| && init[j] == x;
        assert ks[j] == x;
      }
      var p := AcceptedKeys(d, w, init);
      var a := AcceptedKeys(d, w, ks);
      forall i, j | 0 <= i < j < |a| ensures a[i] != a[j] {
        assert a[i] == p[i] && p[i] in p;
        if j < |p| { assert a[j] == p[j]; } else { assert a[j] == k; }
      }
    }
  }

  /** What a finished upsert does to key k: its winner is stored with a new revision, or nothing changes. */
  ghost predicate KeyOutcome(d: Data, batch: seq<Row>, e: Data, k: string) {
    var w := Winners(batch);
    if k in w && IsStored(d, w[k]) then k in e.rows && e.rows[k].row == w[k] && d.rev < e.rows[k].rev <= e.rev
    else (k in e.rows <==> k in d.rows) && (k in d.rows ==> e.rows[k] == d.rows[k])
  }

  /** The accepted keys are the keys to be stored, each once. */
  lemma {:induction false} AcceptedMean(d: Data, batch: seq<Row>)
    ensures var a := AcceptedKeys(d, Winners(batch), Keys(batch));
      && (forall k :: k in a <==> k in Winners(batch) && IsStored(d, Winners(batch)[k]))
      && Distinct(a)
  {
    KeysMean(batch);
    ListsMean(d, Winners(batch), Keys(batch));
    AcceptedDistinct(d, Winners(batch), Keys(batch));
  }

  /** A finished upsert stores its accepted keys. */
  lemma {:induction false} UpsertShape(lim: Limits, d: Data, batch: seq<Row>, saved: bool) returns (a: seq<string>)
    requires Upsert(lim, d, batch, saved).result.Done?
    ensures a == AcceptedKeys(d, Winners(batch), Keys(batch))
    ensures Upsert(lim, d, batch, saved).data ==
      d.(rev := d.rev + |a|, rows := StoreAll(d.rows, d.rev, Winners(batch), a))
    ensures Upsert(lim, d, batch, saved).result.accepted == a
  {
    a := AcceptedKeys(d, Winners(batch), Keys(batch));
    assert a == [] ==> StoreAll(d.rows, d.rev, Winners(batch), a) == d.rows;
  }

  /** A stored key takes the revision of its place among the accepted keys. */
  lemma {:induction false} UpsertPlace(lim: Limits, d: Data, batch: seq<Row>, saved: bool, k: string) returns (i: nat)
    requires Upsert(lim, d, batch, saved).result.Done?
    requires k in Winners(batch) && IsStored(d, Winners(batch)[k])
    ensures var u := Upsert(lim, d, batch, saved);
      && i < |u.result.accepted| && u.result.accepted[i] == k && u.data.rev == d.rev + |u.result.accepted|
      && k in u.data.rows && u.data.rows[k] == Stored(Winners(batch)[k], d.rev + i + 1)
  {
    var a := UpsertShape(lim, d, batch, saved);
    AcceptedMean(d, batch);
    i :| 0 <= i < |a| && a[i] == k;
    StoreAllAt(d.rows, d.rev, Winners(batch), a, i);
  }

  lemma {:induction false} UpsertPerKey(lim: Limits, d: Data, batch: seq<Row>, saved: bool, k: string)
    requires Upsert(lim, d, batch, saved).result.Done?
    ensures KeyOutcome(d, batch, Upsert(lim, d, batch, saved).data, k)
  {
    if k in Winners(batch) && IsStored(d, Winners(batch)[k]) {
      var i := UpsertPlace(lim, d, batch, saved, k);
    } else {
      var a := UpsertShape(lim, d, batch, saved);
      AcceptedMean(d, batch);
      UntouchedByStore(d.rows, d.rev, Winners(batch), a, k);
    }
  }

  /** Two keys stored by one upsert get different revisions. */
  lemma {:induction false} UpsertRevisionsDistinct(lim: Limits, d: Data, batch: seq<Row>, saved: bool, k: string,
    l: string)
    requires Upsert(lim, d, batch, saved).result.Done? && k != l
    requires var w := Winners(batch); k in w && l in w && IsStored(d, w[k]) && IsStored(d, w[l])
    ensures var e := Upsert(lim, d, batch, saved).data; k in e.rows && l in e.rows && e.rows[k].rev != e.rows[l].rev
  {
    var i := UpsertPlace(lim, d, batch, saved, k);
    var j := UpsertPlace(lim, d, batch, saved, l);
  }

  /** The accepted keys are exactly those whose stored row changed, and each took one revision. */
  lemma {:induction false} AcceptedMeansChanged(lim: Limits, d: Data, batch: seq<Row>, saved: bool, k: string)
    requires Valid(d) && Upsert(lim, d, batch, saved).result.Done?
    ensures var u := Upsert(lim, d, batch, saved);
      && (k in u.result.accepted <==> k in u.data.rows && (k !in d.rows || u.data.rows[k] != d.rows[k]))
      && u.result.rev == u.data.rev == d.rev + |u.result.accepted|
  {
    var a := UpsertShape(lim, d, batch, saved);
    AcceptedMean(d, batch);
    UpsertPerKey(lim, d, batch, saved, k);
  }

  lemma {:induction false} UpsertKeepsValid(lim: Limits, d: Data, batch: seq<Row>, saved: bool)
    requires Valid(d)
    ensures Valid(Upsert(lim, d, batch, saved).data)
  {
    var u := Upsert(lim, d, batch, saved);
    if u.result.Done? {
      var e, w := u.data, Winners(batch);
      KeysMean(batch);
      forall k | k in e.rows ensures e.rows[k].row.key == k && e.rows[k].rev <= e.rev {
        UpsertPerKey(lim, d, batch, saved, k);
      }
      forall k, l | k in e.rows && l in e.rows && k != l ensures e.rows[k].rev != e.rows[l].rev {
        UpsertPerKey(lim, d, batch, saved, k);
        UpsertPerKey(lim, d, batch, saved, l);
        if k in w && IsStored(d, w[k]) && l in w && IsStored(d, w[l]) {
          UpsertRevisionsDistinct(lim, d, batch, saved, k, l);
        }
      }
    }
  }

  /** Every operation keeps the store valid. */
  lemma {:induction false} StepKeepsValid(lim: Limits, d: Data, op: Op, e: Data)
    requires Valid(d) && Step(lim, d, op, e)
    ensures Valid(e)
  {
    match op
    case UpsertOp(batch, saved) => UpsertKeepsValid(lim, d, batch, saved);
    case SweepOp(p, saved) =>
  }

  lemma {:induction false} RunKeepsValid(lim: Limits, ds: seq<Data>, ops: seq<Op>, i: nat)
    requires Run(lim, ds, ops) && i < |ds| && Valid(ds[0])
    ensures Valid(ds[i])
  {
    if i > 0 {
      RunKeepsValid(lim, ds, ops, i - 1);
      StepKeepsValid(lim, ds[i - 1], ops[i - 1], ds[i]);
    }
  }

  // ----- exact deltas

  /**
   * How a later state relates to the one a cursor was taken at: unless a sweep
   * removed rows in between, every row is still there, and any row that
   * differs carries a revision above the cursor.
   */
  ghost predicate Later(d: Data, e: Data) {
    && d.rev <= e.rev && d.floor <= e.floor
    && (e.floor <= d.rev ==>
          && (forall k :: k in d.rows ==> k in e.rows)
          && (forall k :: k in e.rows ==> (k in d.rows && e.rows[k] == d.rows[k]) || e.rows[k].rev > d.rev))
  }

  lemma {:induction false} StepStaysLater(lim: Limits, c: Data, d: Data, op: Op, e: Data)
    requires Valid(c) && Valid(d) && Later(c, d) && Step(lim, d, op, e)
    ensures Later(c, e)
  {
    if op.UpsertOp? && Upsert(lim, d, op.batch, op.saved).result.Done? {
      forall k ensures KeyOutcome(d, op.batch, e, k) { UpsertPerKey(lim, d, op.batch, op.saved, k); }
      forall k | k in e.rows && e.floor <= c.rev
        ensures (k in c.rows && e.rows[k] == c.rows[k]) || e.rows[k].rev > c.rev {
        assert KeyOutcome(d, op.batch, e, k);
      }
      forall k | k in c.rows && e.floor <= c.rev ensures k in e.rows { assert KeyOutcome(d, op.batch, e, k); }
    }
  }

  lemma {:induction false} RunIsLater(lim: Limits, ds: seq<Data>, ops: seq<Op>, i: nat, j: nat)
    requires Run(lim, ds, ops) && i <= j < |ds| && Valid(ds[0])
    ensures Valid(ds[i]) && Valid(ds[j]) && Later(ds[i], ds[j])
    decreases j
  {
    RunKeepsValid(lim, ds, ops, i);
    RunKeepsValid(lim, ds, ops, j);
    if i < j {
      RunIsLater(lim, ds, ops, i, j - 1);
      StepStaysLater(lim, ds[i], ds[j - 1], ops[j - 1], ds[j]);
    }
  }

  /** The rows a namespace shows. */
  function Rows(d: Data): map<string, Row> {
    map k | k in d.rows :: d.rows[k].row
  }

  /** A client's rows after taking in an answer. */
  function Overlay(held: map<string, Row>, rows: seq<Row>): map<string, Row> {
    if rows == [] then held
    else Overlay(held, rows[..|rows| - 1])[rows[|rows| - 1].key := rows[|rows| - 1]]
  }

  lemma {:induction false} OverlayMeans(held: map<string, Row>, rows: seq<Row>, d: Data)
    requires forall i :: 0 <= i < |rows| ==> rows[i].key in d.rows && d.rows[rows[i].key].row == rows[i]
    ensures forall k :: k in Overlay(held, rows) <==> k in held || exists i :: 0 <= i < |rows| && rows[i].key == k
    ensures forall i :: 0 <= i < |rows| ==> Overlay(held, rows)[rows[i].key] == rows[i]
    ensures forall k :: k in held && (forall i :: 0 <= i < |rows| ==> rows[i].key != k) ==>
      Overlay(held, rows)[k] == held[k]
  {
    if rows != [] {
      var init := rows[..|rows| - 1];
      OverlayMeans(held, init, d);
      assert forall i :: 0 <= i < |init| ==> init[i] == rows[i];
    }
  }

  /** Any answer to a cursor at or above the floor completes the rows held at that cursor. */
  lemma {:induction false} AnswerCompletes(c: Data, d: Data, rows: seq<Row>)
    requires Valid(c) && Valid(d) && Later(c, d) && IsAnswer(d, c.rev, rows) && d.floor <= c.rev
    ensures Overlay(Rows(c), rows) == Rows(d)
  {
    OverlayMeans(Rows(c), rows, d);
    var o := Overlay(Rows(c), rows);
    forall k ensures (k in o <==> k in d.rows) && (k in d.rows ==> o[k] == d.rows[k].row) {
      if k in d.rows && Selected(d, c.rev, d.rows[k]) {
        var i :| 0 <= i < |rows| && rows[i] == d.rows[k].row;
        assert rows[i].key == k;
      }
    }
  }

  /** An answer to a cursor below the floor is every current row. */
  lemma {:induction false} AnswerIsWhole(d: Data, cursor: nat, rows: seq<Row>)
    requires Valid(d) && IsAnswer(d, cursor, rows) && cursor < d.floor
    ensures Overlay(map[], rows) == Rows(d)
  {
    OverlayMeans(map[], rows, d);
    var o := Overlay(map[], rows);
    forall k ensures (k in o <==> k in d.rows) && (k in d.rows ==> o[k] == d.rows[k].row) {
      if k in d.rows {
        var i :| 0 <= i < |rows| && rows[i] == d.rows[k].row;
        assert rows[i].key == k;
      }
    }
  }

  /**
   * For every run and every cursor an earlier read returned: if the cursor is
   * at or above the floor, the rows held at it overlaid with the answer are
   * exactly the current rows; if it is below, the answer is exactly all of them.
   */
  lemma {:induction false} DeltasAreExact(lim: Limits, ds: seq<Data>, ops: seq<Op>, i: nat, j: nat, rows: seq<Row>)
    requires Run(lim, ds, ops) && i <= j < |ds| && Valid(ds[0])
    requires IsAnswer(ds[j], ds[i].rev, rows)
    ensures if ds[i].rev >= ds[j].floor then Overlay(Rows(ds[i]), rows) == Rows(ds[j])
            else Overlay(map[], rows) == Rows(ds[j])
  {
    RunIsLater(lim, ds, ops, i, j);
    if ds[i].rev >= ds[j].floor { AnswerCompletes(ds[i], ds[j], rows); } else { AnswerIsWhole(ds[j], ds[i].rev, rows); }
  }

  // ----- convergence

  /** All writes of a list of batches. */
  function Writes(batches: seq<seq<Row>>): seq<Row> {
    if batches == [] then [] else Writes(batches[..|batches| - 1]) + batches[|batches| - 1]
  }

  /** Applies the batches in order, each saved. */
  function ApplyBatches(lim: Limits, batches: seq<seq<Row>>): Data {
    if batches == [] then Fresh
    else Upsert(lim, ApplyBatches(lim, batches[..|batches| - 1]), batches[|batches| - 1], true).data
  }

  /** No batch is refused. */
  predicate NoneRefused(lim: Limits, batches: seq<seq<Row>>) {
    batches != [] ==>
      && NoneRefused(lim, batches[..|batches| - 1])
      && Upsert(lim, ApplyBatches(lim, batches[..|batches| - 1]), batches[|batches| - 1], true).result.Done?
  }

  /** d holds, per key, one of the writes that none of the writes beats. */
  ghost predicate HoldsMaxima(d: Data, writes: seq<Row>) {
    && (forall k :: k in d.rows ==> d.rows[k].row in writes && d.rows[k].row.key == k)
    && (forall w :: w in writes ==> w.key in d.rows && !Beats(w, d.rows[w.key].row))
  }

  lemma {:induction false} UpsertHoldsMaxima(lim: Limits, d: Data, writes: seq<Row>, batch: seq<Row>)
    requires HoldsMaxima(d, writes) && d.horizon == 0 && Upsert(lim, d, batch, true).result.Done?
    ensures HoldsMaxima(Upsert(lim, d, batch, true).data, writes + batch)
  {
    var e, ws := Upsert(lim, d, batch, true).data, Winners(batch);
    KeysMean(batch);
    forall k ensures KeyOutcome(d, batch, e, k) { UpsertPerKey(lim, d, batch, true, k); }
    forall k | k in e.rows ensures e.rows[k].row in writes + batch && e.rows[k].row.key == k {
      assert KeyOutcome(d, batch, e, k);
    }
    forall w | w in writes + batch ensures w.key in e.rows && !Beats(w, e.rows[w.key].row) {
      var k := w.key;
      assert KeyOutcome(d, batch, e, k);
      if w in batch {
        assert k in ws && !Beats(w, ws[k]);
        if !IsStored(d, ws[k]) { BeatsIsStrictOrder(d.rows[k].row, ws[k], w); }
      } else if k in ws && IsStored(d, ws[k]) {
        BeatsIsStrictOrder(e.rows[k].row, d.rows[k].row, w);
        BeatsIsStrictOrder(ws[k], d.rows[k].row, w);
      }
    }
  }

  /** After any batches, none refused and no sweep, the store holds the per-key maxima of all the writes. */
  lemma {:induction false} BatchesHoldMaxima(lim: Limits, batches: seq<seq<Row>>)
    requires NoneRefused(lim, batches)
    ensures HoldsMaxima(ApplyBatches(lim, batches), Writes(batches))
    ensures ApplyBatches(lim, batches).horizon == 0
  {
    if batches != [] {
      var init := batches[..|batches| - 1];
      BatchesHoldMaxima(lim, init);
      UpsertHoldsMaxima(lim, ApplyBatches(lim, init), Writes(init), batches[|batches| - 1]);
    }
  }

  /** (key, updated, writeId) identifies a row among the writes. */
  predicate Identified(writes: seq<Row>) {
    forall a, b ::
      a in writes && b in writes && a.key == b.key && a.updated == b.updated && a.writeId == b.writeId ==> a == b
  }

  /**
   * Convergence: two stores that received the same writes, in whatever order,
   * duplication and batching, hold the same rows.
   */
  lemma {:induction false} WritesConverge(lim: Limits, xs: seq<seq<Row>>, ys: seq<seq<Row>>)
    requires NoneRefused(lim, xs) && NoneRefused(lim, ys)
    requires forall w :: w in Writes(xs) <==> w in Writes(ys)
    requires Identified(Writes(xs))
    ensures Rows(ApplyBatches(lim, xs)) == Rows(ApplyBatches(lim, ys))
  {
    BatchesHoldMaxima(lim, xs);
    BatchesHoldMaxima(lim, ys);
    var d, e := ApplyBatches(lim, xs), ApplyBatches(lim, ys);
    forall k ensures (k in d.rows <==> k in e.rows) && (k in d.rows && k in e.rows ==> d.rows[k].row == e.rows[k].row) {
      if k in d.rows { assert d.rows[k].row in Writes(ys); }
      if k in e.rows { assert e.rows[k].row in Writes(xs); }
      if k in d.rows && k in e.rows { BeatsIsStrictOrder(d.rows[k].row, e.rows[k].row, e.rows[k].row); }
    }
  }

  /** Replaying a batch that was not refused stores nothing and changes nothing, horizon or not. */
  lemma {:induction false} ReplayChangesNothing(lim: Limits, d: Data, batch: seq<Row>, saved: bool, again: bool)
    requires Valid(d) && Upsert(lim, d, batch, saved).result.Done?
    ensures var e := Upsert(lim, d, batch, saved).data;
      Upsert(lim, e, batch, again).data == e &&
        (Upsert(lim, e, batch, again).result.Done? ==> Upsert(lim, e, batch, again).result.accepted == [])
  {
    var e, ws, ks := Upsert(lim, d, batch, saved).data, Winners(batch), Keys(batch);
    KeysMean(batch);
    forall k | k in ws ensures !IsStored(e, ws[k]) {
      UpsertPerKey(lim, d, batch, saved, k);
      BeatsIsStrictOrder(ws[k], ws[k], ws[k]);
    }
    NoneAccepted(e, ws, ks);
  }

  lemma {:induction false} NoneAccepted(d: Data, w: map<string, Row>, ks: seq<string>)
    requires forall k :: k in w ==> !IsStored(d, w[k])
    ensures AcceptedKeys(d, w, ks) == []
  {
    if ks != [] { NoneAccepted(d, w, ks[..|ks| - 1]); }
  }

  // ----- no resurrection

  /** Sweeps raise this namespace's horizon and remove no live row. */
  ghost predicate Protective(ops: seq<Op>) {
    forall i :: 0 <= i < |ops| && ops[i].SweepOp? ==>
      ops[i].policy.raisesHorizon && forall r :: !ops[i].policy.absent(r)
  }

  /** The delete still rules its key: what is stored is it or beats it, and nothing at or below it can be created. */
  ghost predicate Guarded(d: Data, tomb: Row) {
    && (tomb.updated > 0 || d.horizon > 0)
    && (if tomb.key in d.rows then d.rows[tomb.key].row == tomb || Beats(d.rows[tomb.key].row, tomb)
        else d.horizon > 0 && tomb.updated <= d.horizon)
  }

  lemma {:induction false} UpsertKeepsGuard(lim: Limits, d: Data, batch: seq<Row>, saved: bool, tomb: Row)
    requires Valid(d) && Guarded(d, tomb)
    ensures Guarded(Upsert(lim, d, batch, saved).data, tomb)
    ensures var e := Upsert(lim, d, batch, saved).data;
      tomb.key in e.rows && (tomb.key in d.rows ==> e.rows[tomb.key] != d.rows[tomb.key]) ==>
        Beats(e.rows[tomb.key].row, tomb)
  {
    var k := tomb.key;
    if Upsert(lim, d, batch, saved).result.Done? {
      var w := Winners(batch);
      KeysMean(batch);
      UpsertPerKey(lim, d, batch, saved, k);
      if k in w && k in d.rows { BeatsIsStrictOrder(w[k], d.rows[k].row, tomb); }
    }
  }

  lemma {:induction false} SweepKeepsGuard(d: Data, p: Policy, saved: bool, e: Data, tomb: Row)
    requires Valid(d) && Guarded(d, tomb) && Sweeps(d, p, saved, e)
    requires p.raisesHorizon && forall r :: !p.absent(r)
    ensures Guarded(e, tomb)
    ensures tomb.key in e.rows ==> tomb.key in d.rows && e.rows[tomb.key] == d.rows[tomb.key]
  {
  }

  /**
   * No resurrection: once a delete rules its key, over every run of upserts
   * and horizon-raising sweeps, every row stored for that key afterwards
   * strictly beats the delete, across purges.
   */
  lemma {:induction false} DeletedStaysDeleted(lim: Limits, ds: seq<Data>, ops: seq<Op>, tomb: Row, j: nat)
    requires Run(lim, ds, ops) && Valid(ds[0]) && Protective(ops) && Guarded(ds[0], tomb) && j < |ds|
    ensures Guarded(ds[j], tomb)
    ensures j > 0 && tomb.key in ds[j].rows &&
            (tomb.key in ds[j - 1].rows ==> ds[j].rows[tomb.key] != ds[j - 1].rows[tomb.key])
            ==> Beats(ds[j].rows[tomb.key].row, tomb)
    decreases j
  {
    if j > 0 {
      DeletedStaysDeleted(lim, ds, ops, tomb, j - 1);
      RunKeepsValid(lim, ds, ops, j - 1);
      match ops[j - 1]
      case UpsertOp(batch, saved) => UpsertKeepsGuard(lim, ds[j - 1], batch, saved, tomb);
      case SweepOp(p, saved) => SweepKeepsGuard(ds[j - 1], p, saved, ds[j], tomb);
    }
  }

  /** Over every protective run from d, the key only ever holds the delete or a row that beats it. */
  ghost predicate NeverUndone(lim: Limits, d: Data, tomb: Row) {
    forall ds: seq<Data>, ops: seq<Op>, j: nat ::
      Run(lim, ds, ops) && ds[0] == d && Protective(ops) && j < |ds| && tomb.key in ds[j].rows ==>
        ds[j].rows[tomb.key].row == tomb || Beats(ds[j].rows[tomb.key].row, tomb)
  }

  /**
   * Exactly when a stored delete is safe for good: its time is positive, or
   * the namespace already has a horizon. A delete written at or before time
   * zero can be purged without raising the horizon, and then undone.
   */
  lemma {:induction false} SafeExactlyWhenTimed(lim: Limits, d: Data, tomb: Row, live: Row)
    requires Valid(d) && tomb.deleted && tomb.key in d.rows && d.rows[tomb.key].row == tomb
    requires |d.rows| <= lim.maxRows
    requires RowRefusal(lim, live).None? && live.key == tomb.key && live.updated == tomb.updated - 1
    ensures NeverUndone(lim, d, tomb) <==> tomb.updated > 0 || d.horizon > 0
  {
    if tomb.updated > 0 || d.horizon > 0 {
      forall ds: seq<Data>, ops: seq<Op>, j: nat
        | Run(lim, ds, ops) && ds[0] == d && Protective(ops) && j < |ds| && tomb.key in ds[j].rows
        ensures ds[j].rows[tomb.key].row == tomb || Beats(ds[j].rows[tomb.key].row, tomb)
      {
        DeletedStaysDeleted(lim, ds, ops, tomb, j);
      }
    } else {
      var ds, ops := UndoneRun(lim, d, tomb, live);
      assert !(ds[2].rows[tomb.key].row == tomb || Beats(ds[2].rows[tomb.key].row, tomb));
    }
  }

  /** The failing run: purge the delete, then write an older row back. */
  lemma {:induction false} UndoneRun(lim: Limits, d: Data, tomb: Row, live: Row) returns (ds: seq<Data>, ops: seq<Op>)
    requires Valid(d) && tomb.deleted && tomb.key in d.rows && d.rows[tomb.key].row == tomb
    requires |d.rows| <= lim.maxRows
    requires RowRefusal(lim, live).None? && live.key == tomb.key && live.updated == tomb.updated - 1
    requires tomb.updated <= 0 && d.horizon == 0
    ensures Run(lim, ds, ops) && ds[0] == d && |ds| == 3 && Protective(ops)
    ensures tomb.key in ds[2].rows && ds[2].rows[tomb.key].row == live
  {
    var p := Policy(tomb.updated + 1, (r: Row) => false, true);
    var swept := Data(d.rev + 1, d.rev + 1, 0, Surviving(p, d.rows));
    PurgesOne(d, p, tomb);
    var e := Upsert(lim, swept, [live], true).data;
    SingleUpsert(lim, swept, live);
    ds := [d, swept, e];
    ops := [SweepOp(p, true), UpsertOp([live], true)];
    assert Step(lim, ds[0], ops[0], ds[1]) && Step(lim, ds[1], ops[1], ds[2]);
  }

  /** A sweep that purges an untimed tombstone raises no horizon. */
  lemma {:induction false} PurgesOne(d: Data, p: Policy, tomb: Row)
    requires tomb.deleted && tomb.key in d.rows && d.rows[tomb.key].row == tomb && tomb.updated <= 0 && d.horizon == 0
    requires p.tombstonesBefore == tomb.updated + 1 && p.raisesHorizon && forall r :: !p.absent(r)
    ensures var swept := Data(d.rev + 1, d.rev + 1, 0, Surviving(p, d.rows));
      Sweeps(d, p, true, swept) && tomb.key !in swept.rows && |swept.rows| < |d.rows|
  {
    assert Swept(p, d.rows[tomb.key].row);
    var kept := Surviving(p, d.rows);
    assert kept.Keys < d.rows.Keys;
    SmallerSubset(kept.Keys, d.rows.Keys);
  }

  lemma {:induction false} SmallerSubset<T>(a: set<T>, b: set<T>)
    requires a < b
    ensures |a| < |b|
  {
    assert b == a + (b - a);
    assert b - a != {};
  }

  lemma {:induction false} SingleBatch(lim: Limits, r: Row)
    ensures BatchRefusal(lim, [r]) == RowRefusal(lim, r)
    ensures Winners([r]) == map[r.key := r] && Keys([r]) == [r.key]
  {
    var none: seq<Row> := [];
    assert [r][..0] == none;
    assert Winners(none) == map[] && Keys(none) == [];
    assert BatchRefusal(lim, none).None?;
  }

  lemma {:induction false} SingleKey(d: Data, r: Row)
    requires r.key !in d.rows && !IsStale(d, r)
    ensures CreatedCount(d, map[r.key := r], [r.key]) == 1
    ensures AcceptedKeys(d, map[r.key := r], [r.key]) == [r.key]
  {
    var none: seq<string> := [];
    assert [r.key][..0] == none;
    assert CreatedCount(d, map[r.key := r], none) == 0;
    assert AcceptedKeys(d, map[r.key := r], none) == none;
  }

  lemma {:induction false} SingleUpsert(lim: Limits, d: Data, r: Row)
    requires RowRefusal(lim, r).None? && r.key !in d.rows && |d.rows| < lim.maxRows && !IsStale(d, r)
    ensures var e := Upsert(lim, d, [r], true).data; r.key in e.rows && e.rows[r.key].row == r
  {
    SingleBatch(lim, r);
    SingleKey(d, r);
    UpsertPerKey(lim, d, [r], true, r.key);
  }
}
