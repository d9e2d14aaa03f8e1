/**
 * The state store across restarts. A save can fail after the file was already
 * replaced: the write is refused and memory keeps the old rows, but a new
 * process reads the new ones. Such a run is a run in which the refused write
 * was made at the restart, so what holds over runs holds over restarts.
 */
module WebStateDisk {
  import opened WebState
  import opened WebStateRuns

  /** What the process holds, and what its file holds. */
  datatype Node = Node(data: Data, disk: Data)

  datatype Act = Do(op: Op, save: Save) | Restart

  function Resaved(op: Op, saved: bool): Op {
    match op
    case UpsertOp(batch, _) => UpsertOp(batch, saved)
    case SweepOp(p, _) => SweepOp(p, saved)
  }

  ghost predicate NodeStep(lim: Limits, n: Node, a: Act, m: Node) {
    match a
    case Do(op, save) => Does(lim, n, op, save, m)
    case Restart => m == Node(n.disk, n.disk)
  }

  /** The operation's outcome is e: memory takes it when it was saved, the file when it landed at least. */
  ghost predicate Does(lim: Limits, n: Node, op: Op, save: Save, m: Node) {
    exists e ::
      && Step(lim, n.data, Resaved(op, true), e)
      && m.data == (if save.Saved? then e else n.data)
      && m.disk == (if save.Failed? || e == n.data then n.disk else e)
  }

  ghost predicate NodeRun(lim: Limits, ns: seq<Node>, acts: seq<Act>) {
    |ns| == |acts| + 1 && forall i :: 0 <= i < |acts| ==> NodeStep(lim, ns[i], acts[i], ns[i + 1])
  }

  /** The code's two operations are such steps. */
  lemma UpsertDoes(lim: Limits, n: Node, batch: seq<Row>, save: Save)
    ensures var next := Upsert(lim, n.data, batch, true).data;
      Does(lim, n, UpsertOp(batch, true), save,
           Node(Upsert(lim, n.data, batch, save.Saved?).data, if save.Failed? || next == n.data then n.disk else next))
  {
    var e := Upsert(lim, n.data, batch, true).data;
    assert Step(lim, n.data, Resaved(UpsertOp(batch, true), true), e);
  }

  // ----- refused writes that landed

  /**
   * A restart after a refused batch shows the old rows exactly when the file
   * was not replaced, or the batch would change nothing.
   */
  lemma RefusedBatchStaysAway(lim: Limits, n: Node, batch: seq<Row>, save: Save, m: Node, r: Node)
    requires n.disk == n.data && !save.Saved?
    requires NodeStep(lim, n, Do(UpsertOp(batch, true), save), m) && NodeStep(lim, m, Restart, r)
    ensures m.data == n.data
    ensures r.data == n.data <==> save.Failed? || Upsert(lim, n.data, batch, true).data == n.data
  {
    hide Upsert;
  }

  /** So does one after a failed sweep, or when there was nothing to sweep. */
  lemma FailedSweepStaysAway(lim: Limits, n: Node, p: Policy, save: Save, m: Node, r: Node)
    requires n.disk == n.data && !save.Saved?
    requires NodeStep(lim, n, Do(SweepOp(p, true), save), m) && NodeStep(lim, m, Restart, r)
    ensures m.data == n.data
    ensures r.data == n.data <==> save.Failed? || forall k :: k in n.data.rows ==> !Swept(p, n.data.rows[k].row)
  {
    hide Swept, IsHorizon, Surviving;
  }

  /**
   * A first row is written, the save fails after the file was replaced, the
   * write is refused, and a restart brings the row.
   */
  lemma RefusedRowReturns(lim: Limits, row: Row) returns (ns: seq<Node>, acts: seq<Act>)
    requires RowRefusal(lim, row).None? && lim.maxRows > 0
    ensures acts == [Do(UpsertOp([row], true), Landed), Restart] && NodeRun(lim, ns, acts)
    ensures ns[0] == Node(Fresh, Fresh) && ns[1].data == Fresh
    ensures Upsert(lim, Fresh, [row], false).result == Refused(SaveFailed, 0)
    ensures row.key in ns[2].data.rows && ns[2].data.rows[row.key].row == row
  {
    var d := Fresh;
    var e := Upsert(lim, d, [row], true).data;
    SingleUpsert(lim, d, row);
    SingleRefused(lim, row);
    UpsertDoes(lim, Node(d, d), [row], Landed);
    ns, acts := [Node(d, d), Node(d, e), Node(e, e)], [Do(UpsertOp([row], true), Landed), Restart];
    hide Does, Upsert;
    assert NodeStep(lim, ns[0], acts[0], ns[1]) && NodeStep(lim, ns[1], acts[1], ns[2]);
  }

  lemma SingleRefused(lim: Limits, row: Row)
    requires RowRefusal(lim, row).None? && lim.maxRows > 0
    ensures Upsert(lim, Fresh, [row], false) == Upserted(Fresh, Refused(SaveFailed, 0))
    ensures Upsert(lim, Fresh, [row], true).data != Fresh
    ensures Upsert(lim, Fresh, [row], false).data == Fresh
  {
    SingleBatch(lim, row);
    SingleKey(Fresh, row);
    SingleUpsert(lim, Fresh, row);
  }

  // ----- runs

  const Idle := UpsertOp([], false)

  lemma IdleStays(lim: Limits, d: Data)
    ensures Step(lim, d, Idle, d)
  {
  }

  /** The file holds what memory holds, or one allowed operation more. */
  ghost predicate Behind(lim: Limits, n: Node, allowed: Op -> bool) {
    n.disk == n.data || exists op :: allowed(op) && Step(lim, n.data, op, n.disk)
  }

  /** Operations of which a variant that was or was not saved is allowed too. */
  ghost predicate Allows(allowed: Op -> bool, acts: seq<Act>) {
    allowed(Idle) && forall i :: 0 <= i < |acts| && acts[i].Do? ==> allowed(Resaved(acts[i].op, true))
  }

  lemma StepIsOp(lim: Limits, n: Node, a: Act, m: Node, allowed: Op -> bool) returns (op: Op)
    requires NodeStep(lim, n, a, m) && Behind(lim, n, allowed) && allowed(Idle) &&
      (a.Do? ==> allowed(Resaved(a.op, true)))
    ensures allowed(op) && Step(lim, n.data, op, m.data) && Behind(lim, m, allowed)
  {
    hide Step;
    IdleStays(lim, n.data);
    match a
    case Restart =>
      if n.disk == n.data {
        op := Idle;
      } else {
        op :| allowed(op) && Step(lim, n.data, op, n.disk);
      }
    case Do(o, save) =>
      var e :| Step(lim, n.data, Resaved(o, true), e)
        && m.data == (if save.Saved? then e else n.data) &&
             m.disk == (if save.Failed? || e == n.data then n.disk else e);
      op := if save.Saved? then Resaved(o, true) else Idle;
  }

  function Datas(ns: seq<Node>): seq<Data> { seq(|ns|, i requires 0 <= i < |ns| => ns[i].data) }

  /**
   * What a process holds over any run with restarts is a run of allowed
   * operations, refused writes that landed included.
   */
  lemma {:induction false} RestartsAreLateSaves(lim: Limits, ns: seq<Node>, acts: seq<Act>, allowed: Op -> bool)
    returns (ops: seq<Op>)
    requires NodeRun(lim, ns, acts) && ns[0].disk == ns[0].data && Allows(allowed, acts)
    ensures Run(lim, Datas(ns), ops) && forall op :: op in ops ==> allowed(op)
    ensures Behind(lim, ns[|ns| - 1], allowed)
  {
    hide NodeStep, Step;
    if acts == [] {
      ops := [];
    } else {
      var n := |acts| - 1;
      var init := RestartsAreLateSaves(lim, ns[..n + 1], acts[..n], allowed);
      assert ns[..n + 1][n] == ns[n];
      var op := StepIsOp(lim, ns[n], acts[n], ns[n + 1], allowed);
      ops := init + [op];
      forall i | 0 <= i < |ops| ensures Step(lim, Datas(ns)[i], ops[i], Datas(ns)[i + 1]) {
        if i < n { assert Step(lim, Datas(ns[..n + 1])[i], init[i], Datas(ns[..n + 1])[i + 1]); }
      }
    }
  }

  /** Deltas stay exact for every cursor across restarts. */
  lemma DeltasExactAcrossRestarts(lim: Limits, ns: seq<Node>, acts: seq<Act>, i: nat, j: nat, rows: seq<Row>)
    requires NodeRun(lim, ns, acts) && ns[0].disk == ns[0].data && Valid(ns[0].data) && i <= j < |ns|
    requires IsAnswer(ns[j].data, ns[i].data.rev, rows)
    ensures if ns[i].data.rev >= ns[j].data.floor then Overlay(Rows(ns[i].data), rows) == Rows(ns[j].data)
            else Overlay(map[], rows) == Rows(ns[j].data)
  {
    hide NodeRun, Valid, IsAnswer, Overlay, Run;
    var ops := RestartsAreLateSaves(lim, ns, acts, (op: Op) => true);
    DeltasAreExact(lim, Datas(ns), ops, i, j, rows);
  }

  /** Sweeps that remove no live row and raise the horizon. */
  ghost predicate ProtectiveOp(op: Op) {
    op.SweepOp? ==> op.policy.raisesHorizon && forall r :: !op.policy.absent(r)
  }

  /** And a timed delete stays deleted across restarts. */
  lemma DeletedAcrossRestarts(lim: Limits, ns: seq<Node>, acts: seq<Act>, tomb: Row, j: nat, protective: Op -> bool)
    requires NodeRun(lim, ns, acts) && ns[0].disk == ns[0].data && Valid(ns[0].data) && Guarded(ns[0].data, tomb) &&
      j < |ns|
    requires (forall op :: protective(op) <==> ProtectiveOp(op)) && forall i :: 0 <= i < |acts| && acts[i].Do? ==>
      ProtectiveOp(acts[i].op)
    ensures Guarded(ns[j].data, tomb)
  {
    hide NodeRun, Valid, Guarded, Run;
    forall i | 0 <= i < |acts| && acts[i].Do? ensures protective(Resaved(acts[i].op, true)) {
      assert ProtectiveOp(acts[i].op);
    }
    var ops := RestartsAreLateSaves(lim, ns, acts, protective);
    forall i | 0 <= i < |ops| ensures ProtectiveOp(ops[i]) { assert ops[i] in ops; }
    DeletedStaysDeleted(lim, Datas(ns), ops, tomb, j);
  }
}
