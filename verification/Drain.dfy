/**
 * The serve's draining handler: requests are admitted until a drain begins,
 * and the channel the drain hands out closes when the last of them is done.
 * Channels are numbered; closing one twice would crash the serve.
 */
module Drain {
  /** A request being served; a stream also has a number its cancel is filed under. */
  datatype Request = Plain | Stream(number: nat)

  datatype Handler = Handler(
    draining: bool,
    active: nat,
    idle: nat,                // the current idle channel
    closed: seq<bool>,        // which channels are closed
    nextStream: nat,
    streams: set<nat>,        // streams whose cancel is on file
    pending: set<nat>,        // cancels a drain took and has not called yet
    cancelled: set<nat>,
    running: map<nat, Request>,   // admitted requests by id
    admitted: nat)

  const Fresh := Handler(false, 0, 0, [true], 0, {}, {}, {}, map[], 0)

  /** A request arrives: refused while draining, else counted, with a new idle channel when it is the only one. */
  function Enter(h: Handler, stream: bool): Handler {
    if h.draining then h
    else
      var h1 := if h.active == 0 then h.(idle := |h.closed|, closed := h.closed + [false]) else h;
      var h2 := h1.(active := h1.active + 1, admitted := h1.admitted + 1);
      if stream then
        h2.(nextStream := h2.nextStream + 1, streams := h2.streams + {h2.nextStream + 1},
            running := h2.running[h.admitted := Stream(h2.nextStream + 1)])
      else h2.(running := h2.running[h.admitted := Plain])
  }

  /** A request leaves; the last one closes the idle channel. */
  function Leave(h: Handler, id: nat): Handler
    requires id in h.running && h.active > 0 && h.idle < |h.closed|
  {
    var number := if h.running[id].Stream? then h.running[id].number else 0;
    var h1 := h.(streams := h.streams - {number}, active := h.active - 1, running := h.running - {id});
    if h1.active == 0 then h1.(closed := h1.closed[h1.idle := true]) else h1
  }

  /**
   * The drain begins: no more admissions, and the cancel of every stream on
   * file is taken, to be called without the lock.
   */
  function BeginDrain(h: Handler): Handler {
    h.(draining := true, pending := h.pending + h.streams)
  }

  /** One cancel that a drain took is called. */
  function CallCancel(h: Handler, n: nat): Handler {
    h.(pending := h.pending - {n}, cancelled := h.cancelled + {n})
  }

  datatype Act = EnterAct(stream: bool) | LeaveAct(id: nat) | DrainAct | CancelAct(number: nat)

  ghost predicate Inv(h: Handler) {
    && h.active == |h.running|
    && h.idle < |h.closed|
    && (forall i :: 0 <= i < |h.closed| && i != h.idle ==> h.closed[i])
    && (h.closed[h.idle] <==> h.running == map[])
    && (forall id :: id in h.running ==> id < h.admitted)
    && (forall n :: n in h.streams <==> exists id :: id in h.running && h.running[id] == Stream(n))
    && (forall id :: id in h.running && h.running[id].Stream? ==> 0 < h.running[id].number <= h.nextStream)
    && (forall a, b :: a in h.running && b in h.running && a != b && h.running[a].Stream? ==>
         h.running[a] != h.running[b])
    && (h.draining ==> forall id :: id in h.running && h.running[id].Stream? ==>
         h.running[id].number in h.cancelled + h.pending)
  }

  predicate Enabled(h: Handler, a: Act) {
    && (a.LeaveAct? ==> a.id in h.running && h.active > 0 && h.idle < |h.closed|)
    && (a.CancelAct? ==> a.number in h.pending)
  }

  function Next(h: Handler, a: Act): Handler
    requires Enabled(h, a)
  {
    match a
    case EnterAct(stream) => Enter(h, stream)
    case LeaveAct(id) => Leave(h, id)
    case DrainAct => BeginDrain(h)
    case CancelAct(n) => CallCancel(h, n)
  }

  ghost predicate Run(hs: seq<Handler>, acts: seq<Act>) {
    && |hs| == |acts| + 1
    && forall i :: 0 <= i < |acts| ==> Enabled(hs[i], acts[i]) && hs[i + 1] == Next(hs[i], acts[i])
  }

  lemma EnterStreams(h: Handler, stream: bool)
    requires Inv(h) && !h.draining
    ensures var t := Enter(h, stream);
      forall n :: n in t.streams <==> exists id :: id in t.running && t.running[id] == Stream(n)
  {
    var t := Enter(h, stream);
    assert h.admitted !in h.running;
    forall n ensures n in t.streams <==> exists id :: id in t.running && t.running[id] == Stream(n) {
      if n in h.streams {
        var id :| id in h.running && h.running[id] == Stream(n);
        assert t.running[id] == Stream(n);
      }
      if stream && n == h.nextStream + 1 { assert t.running[h.admitted] == Stream(n); }
    }
  }

  lemma EnterKeeps(h: Handler, stream: bool)
    requires Inv(h)
    ensures Inv(Enter(h, stream))
  {
    if !h.draining {
      EnterStreams(h, stream);
      assert h.admitted in Enter(h, stream).running;
    }
  }

  lemma LeaveKeeps(h: Handler, id: nat)
    requires Inv(h) && Enabled(h, LeaveAct(id))
    ensures Inv(Leave(h, id))
    ensures !h.closed[h.idle]
  {
    var t := Leave(h, id);
    assert t.running.Keys == h.running.Keys - {id};
    assert |t.running.Keys| == |h.running.Keys| - 1;
    assert |t.running| == 0 <==> t.running == map[];
    forall n ensures n in t.streams <==> exists x :: x in t.running && t.running[x] == Stream(n) {
      if n in t.streams {
        var x :| x in h.running && h.running[x] == Stream(n);
        assert x in t.running && t.running[x] == Stream(n);
      }
    }
  }

  lemma {:induction false} RunKeeps(hs: seq<Handler>, acts: seq<Act>, i: nat)
    requires Run(hs, acts) && i < |hs| && hs[0] == Fresh
    ensures Inv(hs[i])
  {
    if i > 0 {
      RunKeeps(hs, acts, i - 1);
      match acts[i - 1]
      case EnterAct(stream) => EnterKeeps(hs[i - 1], stream);
      case LeaveAct(id) => LeaveKeeps(hs[i - 1], id);
      case DrainAct =>
      case CancelAct(n) =>
    }
  }

  /** No step opens a closed channel. */
  lemma StaysClosed(h: Handler, a: Act)
    requires Enabled(h, a)
    ensures var t := Next(h, a);
      |h.closed| <= |t.closed| && forall c :: 0 <= c < |h.closed| && h.closed[c] ==> t.closed[c]
  {
  }

  /** The idle channel is closed exactly while no request is active, and no channel is ever closed twice. */
  lemma IdleExactlyWhenInactive(hs: seq<Handler>, acts: seq<Act>, i: nat)
    requires Run(hs, acts) && i < |hs| && hs[0] == Fresh
    ensures hs[i].idle < |hs[i].closed| && (hs[i].closed[hs[i].idle] <==> hs[i].active == 0)
    ensures i < |acts| && acts[i].LeaveAct? ==> !hs[i].closed[hs[i].idle]
    ensures i < |acts| ==>
      |hs[i].closed| <= |hs[i + 1].closed| && forall c :: 0 <= c < |hs[i].closed| && hs[i].closed[c] ==>
        hs[i + 1].closed[c]
  {
    RunKeeps(hs, acts, i);
    if i < |acts| {
      StaysClosed(hs[i], acts[i]);
      if acts[i].LeaveAct? { LeaveKeeps(hs[i], acts[i].id); }
    }
  }

  /** Once draining, nothing is admitted, the idle channel stays the one the drain returned, and requests only leave. */
  lemma {:induction false} NoAdmissionAfterDrain(hs: seq<Handler>, acts: seq<Act>, i: nat, j: nat)
    requires Run(hs, acts) && i <= j < |hs| && hs[i].draining
    ensures hs[j].draining && hs[j].admitted == hs[i].admitted && hs[j].idle == hs[i].idle &&
      hs[j].active <= hs[i].active
    ensures hs[j].running.Keys <= hs[i].running.Keys
    decreases j
  {
    if i < j { NoAdmissionAfterDrain(hs, acts, i, j - 1); }
  }

  /**
   * The channel a drain returned is closed exactly once every request admitted
   * before it has finished; every stream still running was cancelled, or its
   * cancel is still to be called.
   */
  lemma DrainChannelClosesAtLast(hs: seq<Handler>, acts: seq<Act>, i: nat, j: nat)
    requires Run(hs, acts) && i < |acts| && acts[i] == DrainAct && i < j < |hs| && hs[0] == Fresh
    ensures hs[i].idle < |hs[j].closed|
    ensures hs[j].closed[hs[i].idle] <==> forall id :: id in hs[i].running ==> id !in hs[j].running
    ensures forall id :: id in hs[j].running && hs[j].running[id].Stream? ==>
      hs[j].running[id].number in hs[j].cancelled + hs[j].pending
    ensures hs[j].pending == {} ==> forall id :: id in hs[j].running && hs[j].running[id].Stream? ==>
      hs[j].running[id].number in hs[j].cancelled
  {
    NoAdmissionAfterDrain(hs, acts, i + 1, j);
    RunKeeps(hs, acts, j);
    assert hs[j].running.Keys <= hs[i].running.Keys;
    if forall id :: id in hs[i].running ==> id !in hs[j].running {
      assert hs[j].running.Keys == {};
      assert hs[j].running == map[];
    }
  }

  // ----- the code

  class DrainingHandler {
    var draining: bool
    var active: nat
    var idle: nat
    var closed: seq<bool>
    var nextStream: nat
    var streams: set<nat>
    var pending: set<nat>
    var cancelled: set<nat>
    ghost var running: map<nat, Request>
    ghost var admitted: nat

    ghost function Value(): Handler
      reads this
    {
      Handler(draining, active, idle, closed, nextStream, streams, pending, cancelled, running, admitted)
    }

    constructor ()
      ensures Value() == Fresh
    {
      draining, active, idle, closed := false, 0, 0, [true];
      nextStream, streams, pending, cancelled := 0, {}, {}, {};
      running, admitted := map[], 0;
    }

    /** The first mutex section of serving a request; the stream number is 0 for a plain one. */
    method Begin(stream: bool) returns (served: bool, number: nat)
      modifies this
      ensures Value() == Enter(old(Value()), stream)
      ensures served <==> !old(draining)
      ensures served ==> running[old(admitted)] == if stream then Stream(number) else Plain
      ensures served && !stream ==> number == 0
    {
      if draining { return false, 0; }
      if active == 0 {
        idle := |closed|;
        closed := closed + [false];
      }
      active := active + 1;
      number := 0;
      if stream {
        nextStream := nextStream + 1;
        number := nextStream;
        streams := streams + {number};
      }
      running := running[admitted := if stream then Stream(number) else Plain];
      admitted := admitted + 1;
      served := true;
    }

    /** The closing section: the channel closed here must still be open. */
    method Finish(number: nat, ghost id: nat)
      requires Inv(Value()) && id in running
      requires running[id] == (if number == 0 then Plain else Stream(number))
      modifies this
      ensures Value() == Leave(old(Value()), id) && Inv(Value())
    {
      LeaveKeeps(Value(), id);
      streams := streams - {number};
      active := active - 1;
      running := running - {id};
      if active == 0 {
        assert !closed[idle];
        closed := closed[idle := true];
      }
    }

    /** The mutex section of a drain. */
    method Drain() returns (channel: nat)
      modifies this
      ensures Value() == BeginDrain(old(Value())) && channel == idle
    {
      draining := true;
      channel := idle;
      pending := pending + streams;
    }

    /** One call of the loop a drain runs after its mutex section. */
    method CancelNext(number: nat)
      requires number in pending
      modifies this
      ensures Value() == CallCancel(old(Value()), number)
    {
      pending := pending - {number};
      cancelled := cancelled + {number};
    }
  }
}
