/**
 * The file index's per-root cache: single-flight loads, stale answers while a
 * refresh runs, forced lookups that wait out a running load. Steps are the
 * sections the code runs under its mutex; callers and loads interleave freely.
 */
module FileIndex {
  import opened Common

  datatype Outcome = Listed(paths: seq<string>) | Failed(error: string)

  /** One listing of a root; its number is its place in order of start. */
  datatype Load = Load(root: string, outcome: Option<Outcome>)

  datatype Entry = Entry(refreshed: int, paths: seq<string>)

  /** Where a lookup stands. `after` is how many loads had started when it was called. */
  datatype Phase =
    | WaitingOut(load: nat)      // a forced lookup behind a load that may predate it
    | Waiting(load: nat)
    | Cached(paths: seq<string>)
    | Answered(load: nat, outcome: Outcome)
    | Cancelled

  datatype Call = Call(root: string, forced: bool, after: nat, phase: Phase)

  datatype State = State(cache: map<string, Entry>, inflight: map<string, nat>, loads: seq<Load>, calls: seq<Call>)

  const Idle := State(map[], map[], [], [])

  /** Starts the root's one load. */
  function Start(s: State, root: string): State
    requires root !in s.inflight
  {
    s.(inflight := s.inflight[root := |s.loads|], loads := s.loads + [Load(root, None)])
  }

  function StartIfNone(s: State, root: string): State {
    if root in s.inflight then s else Start(s, root)
  }

  function Called(s: State, c: Call): State { s.(calls := s.calls + [c]) }

  /** A plain lookup: a cached root answers at once, past the TTL it also starts one refresh; any other waits. */
  function Lookup(s: State, root: string, now: int, ttl: int): State {
    if root in s.cache then
      var e := s.cache[root];
      Called(if now >= e.refreshed + ttl then StartIfNone(s, root) else s,
             Call(root, false, |s.loads|, Cached(e.paths)))
    else
      var t := StartIfNone(s, root);
      Called(t, Call(root, false, |s.loads|, Waiting(t.inflight[root])))
  }

  /** A forced lookup waits out a running load, else starts its own. */
  function Force(s: State, root: string): State {
    if root in s.inflight then Called(s, Call(root, true, |s.loads|, WaitingOut(s.inflight[root])))
    else Called(Start(s, root), Call(root, true, |s.loads|, Waiting(|s.loads|)))
  }

  /** The forced lookup goes on once the load it waited out is done: it shares a newer load or starts one. */
  function ResumeForced(s: State, i: nat): State
    requires i < |s.calls|
  {
    var c := s.calls[i];
    var t := StartIfNone(s, c.root);
    t.(calls := t.calls[i := c.(phase := Waiting(t.inflight[c.root]))])
  }

  function Settle(s: State, i: nat, p: Phase): State
    requires i < |s.calls|
  {
    s.(calls := s.calls[i := s.calls[i].(phase := p)])
  }

  /** A load lands: its list replaces the cached one, a failure drops it. */
  function Finish(s: State, l: nat, outcome: Outcome, now: int): State
    requires l < |s.loads|
  {
    var root := s.loads[l].root;
    State(match outcome
          case Listed(paths) => s.cache[root := Entry(now, paths)]
          case Failed(_) => s.cache - {root},
          s.inflight - {root},
          s.loads[l := Load(root, Some(outcome))],
          s.calls)
  }

  datatype Act =
    | LookupAct(root: string, now: int)
    | ForceAct(root: string)
    | ResumeAct(call: nat)
    | CancelAct(call: nat)
    | DeliverAct(call: nat)
    | FinishAct(load: nat, outcome: Outcome, now: int)

  predicate Done(s: State, l: nat) { l < |s.loads| && s.loads[l].outcome.Some? }

  /** When each step can happen. */
  predicate Enabled(s: State, a: Act) {
    match a
    case LookupAct(_, _) => true
    case ForceAct(_) => true
    case ResumeAct(i) => i < |s.calls| && s.calls[i].phase.WaitingOut? && Done(s, s.calls[i].phase.load)
    case CancelAct(i) => i < |s.calls| && (s.calls[i].phase.WaitingOut? || s.calls[i].phase.Waiting?)
    case DeliverAct(i) => i < |s.calls| && s.calls[i].phase.Waiting? && Done(s, s.calls[i].phase.load)
    case FinishAct(l, _, _) => l < |s.loads| && s.loads[l].outcome.None?
  }

  function Next(ttl: int, s: State, a: Act): State
    requires Enabled(s, a)
  {
    match a
    case LookupAct(root, now) => Lookup(s, root, now, ttl)
    case ForceAct(root) => Force(s, root)
    case ResumeAct(i) => ResumeForced(s, i)
    case CancelAct(i) => Settle(s, i, Cancelled)
    case DeliverAct(i) =>
      var l := s.calls[i].phase.load;
      Settle(s, i, Answered(l, s.loads[l].outcome.value))
    case FinishAct(l, outcome, now) => Finish(s, l, outcome, now)
  }

  ghost predicate Run(ttl: int, ss: seq<State>, acts: seq<Act>) {
    && |ss| == |acts| + 1
    && forall i :: 0 <= i < |acts| ==> Enabled(ss[i], acts[i]) && ss[i + 1] == Next(ttl, ss[i], acts[i])
  }

  // ----- the invariant

  /** A running load is its root's one load in flight, and the other way round. */
  ghost predicate SingleFlight(s: State) {
    && (forall r :: r in s.inflight ==> s.inflight[r] < |s.loads| && s.loads[s.inflight[r]] == Load(r, None))
    && (forall l :: 0 <= l < |s.loads| && s.loads[l].outcome.None? ==>
          s.loads[l].root in s.inflight && s.inflight[s.loads[l].root] == l)
    && (forall m :: 0 <= m < |s.loads| && s.loads[m].root in s.inflight ==> m <= s.inflight[s.loads[m].root])
  }

  /** l is the newest finished load of root. */
  ghost predicate NewestDone(s: State, root: string, l: nat) {
    && Done(s, l) && s.loads[l].root == root
    && forall m :: l < m < |s.loads| && s.loads[m].root == root ==> s.loads[m].outcome.None?
  }

  /** A root is cached exactly when its newest finished load succeeded, and then with that load's list. */
  ghost predicate CacheIsNewest(s: State) {
    && (forall r :: r in s.cache ==>
         exists l: nat :: NewestDone(s, r, l) && s.loads[l].outcome == Some(Listed(s.cache[r].paths)))
    && (forall l: nat :: l < |s.loads| && NewestDone(s, s.loads[l].root, l) && s.loads[l].outcome.value.Listed? ==>
         s.loads[l].root in s.cache)
  }

  ghost predicate CallHolds(s: State, c: Call) {
    && c.after <= |s.loads|
    && match c.phase
       case WaitingOut(l) =>
         && c.forced && l < c.after && s.loads[l].root == c.root
         && forall m :: 0 <= m < |s.loads| && s.loads[m].root == c.root && s.loads[m].outcome.None? ==>
              m == l || m >= c.after
       case Waiting(l) => l < |s.loads| && s.loads[l].root == c.root && (c.forced ==> l >= c.after)
       case Cached(paths) => !c.forced &&
         exists l: nat :: l < c.after && s.loads[l] == Load(c.root, Some(Listed(paths)))
       case Answered(l, outcome) => l < |s.loads| && s.loads[l] == Load(c.root, Some(outcome)) &&
         (c.forced ==> l >= c.after)
       case Cancelled => true
  }

  ghost predicate CallsHold(s: State) {
    forall i :: 0 <= i < |s.calls| ==> CallHolds(s, s.calls[i])
  }

  ghost predicate Inv(s: State) { SingleFlight(s) && CacheIsNewest(s) && CallsHold(s) }

  // ----- every step keeps it

  lemma StartKeepsCache(s: State, root: string)
    requires CacheIsNewest(s) && root !in s.inflight
    ensures CacheIsNewest(Start(s, root))
  {
    var t := Start(s, root);
    assert forall l :: 0 <= l < |s.loads| ==> t.loads[l] == s.loads[l];
    forall r | r in t.cache
      ensures exists l: nat :: NewestDone(t, r, l) && t.loads[l].outcome == Some(Listed(t.cache[r].paths)) {
      var l: nat :| NewestDone(s, r, l) && s.loads[l].outcome == Some(Listed(s.cache[r].paths));
      assert NewestDone(t, r, l);
    }
    forall l: nat | l < |t.loads| && NewestDone(t, t.loads[l].root, l) && t.loads[l].outcome.value.Listed?
      ensures t.loads[l].root in t.cache {
      assert NewestDone(s, s.loads[l].root, l);
    }
  }

  lemma StartKeepsCall(s: State, root: string, c: Call)
    requires CallHolds(s, c) && root !in s.inflight
    ensures CallHolds(Start(s, root), c)
  {
    var t := Start(s, root);
    assert forall l :: 0 <= l < |s.loads| ==> t.loads[l] == s.loads[l];
    if c.phase.Cached? {
      var l: nat :| l < c.after && s.loads[l] == Load(c.root, Some(Listed(c.phase.paths)));
      assert t.loads[l] == s.loads[l];
    }
  }

  lemma StartKeeps(s: State, root: string)
    requires Inv(s) && root !in s.inflight
    ensures Inv(Start(s, root))
    ensures forall l: nat :: l < |s.loads| ==> Start(s, root).loads[l] == s.loads[l]
  {
    StartKeepsCache(s, root);
    var t := Start(s, root);
    forall i | 0 <= i < |t.calls| ensures CallHolds(t, t.calls[i]) { StartKeepsCall(s, root, s.calls[i]); }
  }

  lemma CalledKeeps(s: State, c: Call)
    requires Inv(s) && CallHolds(s, c)
    ensures Inv(Called(s, c))
  {
    var t := Called(s, c);
    forall i | 0 <= i < |t.calls| ensures CallHolds(t, t.calls[i]) {
      if i < |s.calls| { assert CallHolds(s, s.calls[i]); }
    }
  }

  lemma SettleKeeps(s: State, i: nat, p: Phase)
    requires Inv(s) && i < |s.calls| && CallHolds(s, s.calls[i].(phase := p))
    ensures Inv(Settle(s, i, p))
  {
    var t := Settle(s, i, p);
    forall j | 0 <= j < |t.calls| ensures CallHolds(t, t.calls[j]) {
      if j != i { assert CallHolds(s, s.calls[j]); }
    }
  }

  lemma LookupKeeps(s: State, root: string, now: int, ttl: int)
    requires Inv(s)
    ensures Inv(Lookup(s, root, now, ttl))
  {
    if root !in s.inflight { StartKeeps(s, root); }
    var t := StartIfNone(s, root);
    if root in s.cache {
      var l: nat :| NewestDone(s, root, l) && s.loads[l].outcome == Some(Listed(s.cache[root].paths));
      var c := Call(root, false, |s.loads|, Cached(s.cache[root].paths));
      assert s.loads[l] == Load(root, Some(Listed(s.cache[root].paths)));
      assert t.loads[l] == s.loads[l];
      CalledKeeps(if now >= s.cache[root].refreshed + ttl then t else s, c);
    } else {
      CalledKeeps(t, Call(root, false, |s.loads|, Waiting(t.inflight[root])));
    }
  }

  lemma ForceKeeps(s: State, root: string)
    requires Inv(s)
    ensures Inv(Force(s, root))
  {
    if root in s.inflight {
      CalledKeeps(s, Call(root, true, |s.loads|, WaitingOut(s.inflight[root])));
    } else {
      StartKeeps(s, root);
      CalledKeeps(Start(s, root), Call(root, true, |s.loads|, Waiting(|s.loads|)));
    }
  }

  lemma ResumeKeeps(s: State, i: nat)
    requires Inv(s) && Enabled(s, ResumeAct(i))
    ensures Inv(ResumeForced(s, i))
  {
    var c := s.calls[i];
    assert CallHolds(s, c);
    if c.root !in s.inflight { StartKeeps(s, c.root); }
    var t := StartIfNone(s, c.root);
    SettleKeeps(t, i, Waiting(t.inflight[c.root]));
  }

  lemma FinishKeepsFlight(s: State, l: nat, outcome: Outcome, now: int)
    requires Inv(s) && Enabled(s, FinishAct(l, outcome, now))
    ensures SingleFlight(Finish(s, l, outcome, now)) && CallsHold(Finish(s, l, outcome, now))
  {
    var t := Finish(s, l, outcome, now);
    forall i | 0 <= i < |t.calls| ensures CallHolds(t, t.calls[i]) {
      assert CallHolds(s, s.calls[i]);
      if t.calls[i].phase.Cached? {
        var c := s.calls[i];
        var m: nat :| m < c.after && s.loads[m] == Load(c.root, Some(Listed(c.phase.paths)));
        assert t.loads[m] == s.loads[m];
      }
    }
  }

  /** A load that finishes is its root's newest: any other load of that root is done. */
  lemma FinishedIsNewest(s: State, l: nat, outcome: Outcome, now: int)
    requires SingleFlight(s) && Enabled(s, FinishAct(l, outcome, now))
    ensures NewestDone(Finish(s, l, outcome, now), s.loads[l].root, l)
    ensures forall m: nat :: m < |s.loads| && m != l && s.loads[m].root == s.loads[l].root ==>
      s.loads[m].outcome.Some? && m < l
  {
  }

  lemma OtherNewestStays(s: State, l: nat, outcome: Outcome, now: int, root: string, m: nat)
    requires Enabled(s, FinishAct(l, outcome, now)) && root != s.loads[l].root
    ensures NewestDone(Finish(s, l, outcome, now), root, m) <==> NewestDone(s, root, m)
  {
    var t := Finish(s, l, outcome, now);
    assert forall x :: 0 <= x < |s.loads| && x != l ==> t.loads[x] == s.loads[x];
    assert t.loads[l].root == s.loads[l].root;
  }

  lemma FinishKeepsCache(s: State, l: nat, outcome: Outcome, now: int)
    requires Inv(s) && Enabled(s, FinishAct(l, outcome, now))
    ensures CacheIsNewest(Finish(s, l, outcome, now))
  {
    var t := Finish(s, l, outcome, now);
    var root := s.loads[l].root;
    FinishedIsNewest(s, l, outcome, now);
    forall r | r in t.cache
      ensures exists m: nat :: NewestDone(t, r, m) && t.loads[m].outcome == Some(Listed(t.cache[r].paths)) {
      if r != root {
        var m: nat :| NewestDone(s, r, m) && s.loads[m].outcome == Some(Listed(s.cache[r].paths));
        OtherNewestStays(s, l, outcome, now, r, m);
      }
    }
    forall m: nat | m < |t.loads| && NewestDone(t, t.loads[m].root, m) && t.loads[m].outcome.value.Listed?
      ensures t.loads[m].root in t.cache {
      if t.loads[m].root != root { OtherNewestStays(s, l, outcome, now, t.loads[m].root, m); }
    }
  }

  /** Every step keeps the invariant. */
  lemma StepKeeps(ttl: int, s: State, a: Act)
    requires Inv(s) && Enabled(s, a)
    ensures Inv(Next(ttl, s, a))
  {
    match a
    case LookupAct(root, now) => LookupKeeps(s, root, now, ttl);
    case ForceAct(root) => ForceKeeps(s, root);
    case ResumeAct(i) => ResumeKeeps(s, i);
    case CancelAct(i) => SettleKeeps(s, i, Cancelled);
    case DeliverAct(i) =>
      assert CallHolds(s, s.calls[i]);
      SettleKeeps(s, i, Answered(s.calls[i].phase.load, s.loads[s.calls[i].phase.load].outcome.value));
    case FinishAct(l, outcome, now) =>
      FinishKeepsFlight(s, l, outcome, now);
      FinishKeepsCache(s, l, outcome, now);
  }

  lemma {:induction false} RunKeeps(ttl: int, ss: seq<State>, acts: seq<Act>, i: nat)
    requires Run(ttl, ss, acts) && i < |ss| && ss[0] == Idle
    ensures Inv(ss[i])
  {
    if i > 0 {
      RunKeeps(ttl, ss, acts, i - 1);
      StepKeeps(ttl, ss[i - 1], acts[i - 1]);
    }
  }

  /** A finished load keeps its outcome, and calls and loads keep their place, for the rest of the run. */
  lemma {:induction false} OutcomesAreFinal(ttl: int, ss: seq<State>, acts: seq<Act>, i: nat, j: nat)
    requires Run(ttl, ss, acts) && i <= j < |ss|
    ensures |ss[i].loads| <= |ss[j].loads|
    ensures forall l :: 0 <= l < |ss[i].loads| ==> ss[j].loads[l].root == ss[i].loads[l].root
    ensures forall l :: 0 <= l < |ss[i].loads| && ss[i].loads[l].outcome.Some? ==> ss[j].loads[l] == ss[i].loads[l]
    decreases j
  {
    if i < j { OutcomesAreFinal(ttl, ss, acts, i, j - 1); }
  }

  /** Over every interleaving, each root has at most one load in flight. */
  lemma AtMostOneInFlight(ttl: int, ss: seq<State>, acts: seq<Act>, i: nat, l: nat, m: nat)
    requires Run(ttl, ss, acts) && i < |ss| && ss[0] == Idle
    requires l < |ss[i].loads| && m < |ss[i].loads| && ss[i].loads[l].root == ss[i].loads[m].root
    requires ss[i].loads[l].outcome.None? && ss[i].loads[m].outcome.None?
    ensures l == m
  {
    RunKeeps(ttl, ss, acts, i);
  }

  /**
   * A forced lookup that got an answer got it from a load of its root begun
   * after the call, and every waiter's answer is its load's final outcome.
   */
  lemma AnswersAreFinalAndFresh(ttl: int, ss: seq<State>, acts: seq<Act>, i: nat, j: nat, n: nat)
    requires Run(ttl, ss, acts) && i <= j < |ss| && ss[0] == Idle
    requires n < |ss[i].calls| && ss[i].calls[n].phase.Answered?
    ensures var c := ss[i].calls[n];
      && c.phase.load < |ss[j].loads| && ss[j].loads[c.phase.load] == Load(c.root, Some(c.phase.outcome))
      && (c.forced ==> c.after <= c.phase.load)
  {
    RunKeeps(ttl, ss, acts, i);
    assert CallHolds(ss[i], ss[i].calls[n]);
    OutcomesAreFinal(ttl, ss, acts, i, j);
  }

  /** `after` is fixed at the call: loads numbered from it on had not begun then. */
  lemma CallStamp(ttl: int, s: State, a: Act)
    requires Enabled(s, a)
    ensures |s.calls| <= |Next(ttl, s, a).calls|
    ensures forall n :: 0 <= n < |s.calls| ==>
      Next(ttl, s, a).calls[n] == s.calls[n].(phase := Next(ttl, s, a).calls[n].phase)
    ensures forall n :: |s.calls| <= n < |Next(ttl, s, a).calls| ==> Next(ttl, s, a).calls[n].after == |s.loads|
    ensures a.ForceAct? ==> |Next(ttl, s, a).calls| == |s.calls| + 1 && Next(ttl, s, a).calls[|s.calls|].forced
                            && Next(ttl, s, a).calls[|s.calls|].root == a.root
  {
  }

  /** A failed load leaves no cached list, and a cached list is always the newest finished load's. */
  lemma CachedListIsNewest(ttl: int, ss: seq<State>, acts: seq<Act>, i: nat, root: string, l: nat)
    requires Run(ttl, ss, acts) && i < |ss| && ss[0] == Idle && NewestDone(ss[i], root, l)
    ensures var outcome := ss[i].loads[l].outcome.value;
      if outcome.Listed? then root in ss[i].cache && ss[i].cache[root].paths == outcome.paths else root !in ss[i].cache
  {
    var s := ss[i];
    RunKeeps(ttl, ss, acts, i);
    if root in s.cache {
      var m: nat :| NewestDone(s, root, m) && s.loads[m].outcome == Some(Listed(s.cache[root].paths));
      assert m == l;
    }
  }

  /** A lookup of a cached root never waits, and past the TTL it leaves a refresh in flight. */
  lemma StaleWhileRefresh(s: State, root: string, now: int, ttl: int)
    requires Inv(s) && root in s.cache
    ensures var t := Lookup(s, root, now, ttl);
      && t.calls[|s.calls|].phase == Cached(s.cache[root].paths)
      && (now >= s.cache[root].refreshed + ttl ==> root in t.inflight)
      && (now < s.cache[root].refreshed + ttl ==> t.loads == s.loads)
  {
  }

  // ----- the code

  class Index {
    const ttl: int
    var cache: map<string, Entry>
    var inflight: map<string, nat>
    var loads: seq<Load>
    var calls: seq<Call>

    ghost function Value(): State
      reads this
    {
      State(cache, inflight, loads, calls)
    }

    constructor (ttl: int)
      ensures this.ttl == ttl && Value() == Idle
    {
      this.ttl := ttl;
      cache, inflight, loads, calls := map[], map[], [], [];
    }

    /** Starts the root's one load; the caller has seen none running. */
    method StartLocked(root: string) returns (l: nat)
      requires root !in inflight
      modifies this
      ensures Value() == Start(old(Value()), root) && l == |old(loads)|
    {
      l := |loads|;
      loads := loads + [Load(root, None)];
      inflight := inflight[root := l];
    }

    /** The mutex section of a plain lookup. */
    method Candidates(root: string, now: int)
      modifies this
      ensures Value() == Lookup(old(Value()), root, now, ttl)
    {
      var after := |loads|;
      if root in cache {
        var entry := cache[root];
        if !(now < entry.refreshed + ttl) && root !in inflight {
          var l := StartLocked(root);
        }
        calls := calls + [Call(root, false, after, Cached(entry.paths))];
        return;
      }
      var current;
      if root in inflight { current := inflight[root]; } else { current := StartLocked(root); }
      calls := calls + [Call(root, false, after, Waiting(current))];
    }

    /** The first mutex section of a forced lookup. */
    method Forced(root: string)
      modifies this
      ensures Value() == Force(old(Value()), root)
    {
      var after := |loads|;
      if root in inflight {
        calls := calls + [Call(root, true, after, WaitingOut(inflight[root]))];
        return;
      }
      var current := StartLocked(root);
      calls := calls + [Call(root, true, after, Waiting(current))];
    }

    /** The second section, once the load waited out is done. */
    method ForcedAgain(i: nat)
      requires i < |calls|
      modifies this
      ensures Value() == ResumeForced(old(Value()), i)
    {
      var c := calls[i];
      var current;
      if c.root in inflight { current := inflight[c.root]; } else { current := StartLocked(c.root); }
      calls := calls[i := c.(phase := Waiting(current))];
    }

    /** The mutex section at the end of a load. */
    method Land(l: nat, outcome: Outcome, now: int)
      requires l < |loads|
      modifies this
      ensures Value() == Finish(old(Value()), l, outcome, now)
    {
      var root := loads[l].root;
      match outcome {
        case Listed(paths) => cache := cache[root := Entry(now, paths)];
        case Failed(_) => cache := cache - {root};
      }
      inflight := inflight - {root};
      loads := loads[l := Load(root, Some(outcome))];
    }
  }
}
