/**
 * What readers of the projection rely on, for every event sequence: no fact is
 * lost between lives, earlier lives are closed and stay closed, an ended
 * session never reopens, registered attribution never changes, and the order
 * in which assignments arrive does not matter.
 */
module ProjectionPromises {
  import opened Common
  import opened Events
  import opened Projection
  import opened ProjectionHistory

  // ----- lives

  function Flatten(lives: seq<seq<Fact>>): seq<Fact> {
    if lives == [] then [] else Flatten(lives[..|lives| - 1]) + lives[|lives| - 1]
  }

  lemma {:induction false} FlattenSnoc(lives: seq<seq<Fact>>, g: seq<Fact>)
    ensures Flatten(lives + [g]) == Flatten(lives) + g
  {
    assert (lives + [g])[..|lives|] == lives;
  }

  /** Every fact of a name belongs to exactly one life: the lives in order are the history. */
  lemma {:induction false} LivesPartition(h: seq<Fact>)
    ensures Flatten(Lives(h)) == h
  {
    if h != [] {
      var init, f := h[..|h| - 1], h[|h| - 1];
      LivesPartition(init);
      var r := Lives(init);
      var n := |r|;
      FlattenSnoc(r, [f]);
      if n > 0 {
        FlattenSnoc(r[..n - 1], r[n - 1] + [f]);
        assert Flatten(r) == Flatten(r[..n - 1]) + r[n - 1];
      }
      assert h == init + [f];
    }
  }

  /** Every life but the last is closed. */
  lemma {:induction false} EarlierLivesClosed(h: seq<Fact>, k: nat)
    requires k + 1 < |Lives(h)|
    ensures ClosedOf(Lives(h)[k]).Some?
  {
    var init := h[..|h| - 1];
    var r := Lives(init);
    if k + 1 < |r| {
      EarlierLivesClosed(init, k);
      assert Lives(h)[k] == r[k];
    }
  }

  lemma {:induction false} LivesStepGrows(h: seq<Fact>, f: Fact, k: nat)
    requires k < |Lives(h)|
    ensures |Lives(h)| <= |Lives(h + [f])| && Lives(h)[k] <= Lives(h + [f])[k]
    ensures k + 1 < |Lives(h)| ==> Lives(h + [f])[k] == Lives(h)[k]
  {
    hide FirstIndex, Attaches;
    SnocShape(h, f);
  }

  /** One more fact lengthens the last life or opens another; earlier lives do not change. */
  lemma {:induction false} LivesGrow(h: seq<Fact>, more: seq<Fact>, k: nat)
    requires k < |Lives(h)|
    ensures |Lives(h)| <= |Lives(h + more)|
    ensures Lives(h)[k] <= Lives(h + more)[k]
    ensures k + 1 < |Lives(h)| ==> Lives(h + more)[k] == Lives(h)[k]
    decreases |more|
  {
    hide Lives;
    if more == [] {
      assert h + more == h;
    } else {
      var init, f := more[..|more| - 1], more[|more| - 1];
      LivesGrow(h, init, k);
      LivesStepGrows(h + init, f, k);
      assert h + more == (h + init) + [f];
    }
  }

  /** A function that grows with every appended element grows with every appended sequence. */
  lemma {:induction false} GrowsByStep<E(!new), F>(h: seq<E> -> seq<F>, a: seq<E>, b: seq<E>)
    requires forall es: seq<E>, e: E :: h(es) <= h(es + [e])
    ensures h(a) <= h(a + b)
    decreases |b|
  {
    if b == [] {
      assert a + b == a;
    } else {
      var init, e := b[..|b| - 1], b[|b| - 1];
      GrowsByStep(h, a, init);
      assert a + b == (a + init) + [e];
      assert h(a + init) <= h((a + init) + [e]);
    }
  }

  /** A function that appends f(x) for each appended x appends them all for an appended sequence. */
  lemma {:induction false} AppendsByStep<E(!new), F>(h: seq<E> -> seq<F>, f: E -> F, a: seq<E>, b: seq<E>)
    requires forall es: seq<E>, e: E :: e in b ==> h(es + [e]) == h(es) + [f(e)]
    ensures h(a + b) == h(a) + seq(|b|, i requires 0 <= i < |b| => f(b[i]))
    decreases |b|
  {
    if b == [] {
      assert a + b == a;
    } else {
      var init, e := b[..|b| - 1], b[|b| - 1];
      AppendsByStep(h, f, a, init);
      assert a + b == (a + init) + [e];
      assert h((a + init) + [e]) == h(a + init) + [f(e)];
    }
  }

  lemma {:induction false} HistoryGrows(a: seq<Event>, b: seq<Event>, name: string)
    ensures History(a, name) <= History(a + b, name)
  {
    var h := (es: seq<Event>) => History(es, name);
    forall es: seq<Event>, e: Event ensures h(es) <= h(es + [e]) { HistorySnoc(es, e, name); }
    GrowsByStep(h, a, b);
  }

  lemma {:induction false} ClosedStays(g: seq<Fact>, more: seq<Fact>)
    requires ClosedOf(g).Some?
    ensures ClosedOf(g + more) == ClosedOf(g)
    decreases |more|
  {
    if more == [] {
      assert g + more == g;
    } else {
      var init := more[..|more| - 1];
      ClosedStays(g, init);
      ClosedSnoc(g + init, more[|more| - 1]);
      assert g + more == (g + init) + [more[|more| - 1]];
    }
  }

  /** Record k of a list that tells some lives, when it exists, is the summary of life k. */
  lemma {:induction false} ToldRecord(list: seq<Agent>, name: string, lives: seq<seq<Fact>>, k: nat)
    requires Tells(list, name, lives) && k < |list|
    ensures |lives| == |list| && lives[k] != [] && list[k] == Summary(name, lives[k])
  {
    assert IsSummary(name)(list[k], lives[k]);
  }

  /** The k-th record of a name and the life it summarises. */
  lemma {:induction false} RecordOfLife(es: seq<Event>, name: string, k: nat) returns (g: seq<Fact>)
    requires k < |Incarnations(Fold(Empty, es), name)|
    ensures |Lives(History(es, name))| == |Incarnations(Fold(Empty, es), name)|
    ensures g == Lives(History(es, name))[k] && g != []
    ensures Incarnations(Fold(Empty, es), name)[k] == Summary(name, g)
  {
    FoldIsHistory(es, name);
    ToldRecord(Incarnations(Fold(Empty, es), name), name, Lives(History(es, name)), k);
    g := Lives(History(es, name))[k];
  }

  /** v and w are the same incarnation before and after more events: its life is g, then g + more. */
  ghost predicate SameLife(v: Agent, w: Agent, name: string, g: seq<Fact>, more: seq<Fact>) {
    g != [] && v == Summary(name, g) && w == Summary(name, g + more)
  }

  lemma {:induction false} ToldLater<V>(list: seq<V>, later: seq<V>, rel: (V, seq<Fact>) -> bool, h: seq<Fact>,
    h': seq<Fact>, k: nat)
      returns (g: seq<Fact>, more: seq<Fact>)
    requires Pairwise(list, Lives(h), rel) && Pairwise(later, Lives(h'), rel) && h <= h' && k < |list|
    ensures k < |later| && rel(list[k], g) && rel(later[k], g + more)
    ensures k + 1 < |list| ==> more == []
  {
    assert h' == h + h'[|h|..];
    LivesGrow(h, h'[|h|..], k);
    g := Lives(h)[k];
    more := Lives(h')[k][|g|..];
    assert Lives(h')[k] == g + more;
  }

  /** Whatever follows, an incarnation keeps its place and its life only grows. */
  lemma {:induction false} LifeGrows(a: seq<Event>, b: seq<Event>, name: string, k: nat)
    returns (g: seq<Fact>, more: seq<Fact>)
    requires k < |Incarnations(Fold(Empty, a), name)|
    ensures k < |Incarnations(Fold(Empty, a + b), name)|
    ensures SameLife(Incarnations(Fold(Empty, a), name)[k], Incarnations(Fold(Empty, a + b), name)[k], name, g, more)
    ensures k + 1 < |Incarnations(Fold(Empty, a), name)| ==> more == []
  {
    FoldIsHistory(a, name);
    FoldIsHistory(a + b, name);
    HistoryGrows(a, b, name);
    g, more :=
      ToldLater(Incarnations(Fold(Empty, a), name), Incarnations(Fold(Empty, a + b), name), IsSummary(name),
        History(a, name), History(a + b, name), k);
  }

  /**
   * For every name, after any events: every incarnation but the last is
   * closed, and in every incarnation FirstSeen and LastSeen are the earliest
   * and latest time among its events, and Events holds exactly the last
   * EVENTS_KEPT of them.
   */
  lemma {:induction false} IncarnationFacts(es: seq<Event>, name: string, k: nat)
    requires k < |Incarnations(Fold(Empty, es), name)|
    ensures var list := Incarnations(Fold(Empty, es), name); var v := list[k];
      && |Lives(History(es, name))| == |list|
      && (k + 1 < |list| ==> v.closed.Some?)
      && var g := Lives(History(es, name))[k];
      && v.name == name && v.eventCount == |g| && v.events == LastN(EventsOf(g), EVENTS_KEPT)
      && (exists i :: 0 <= i < |g| && g[i].event.at == v.firstSeen)
      && (exists i :: 0 <= i < |g| && g[i].event.at == v.lastSeen)
      && (forall i :: 0 <= i < |g| ==> v.firstSeen <= g[i].event.at <= v.lastSeen)
      && v.incarnation == v.firstSeen
  {
    var g := RecordOfLife(es, name, k);
    if k + 1 < |Lives(History(es, name))| { EarlierLivesClosed(History(es, name), k); }
    TimesMean(g);
  }

  /** No incarnation disappears, changes place or reopens, whatever events follow. */
  lemma {:induction false} NeverReopens(a: seq<Event>, b: seq<Event>, name: string, k: nat)
    requires k < |Incarnations(Fold(Empty, a), name)|
    ensures k < |Incarnations(Fold(Empty, a + b), name)|
    ensures var v := Incarnations(Fold(Empty, a), name)[k]; var w := Incarnations(Fold(Empty, a + b), name)[k];
      && (v.closed.Some? ==> w.closed == v.closed)
      && v.eventCount <= w.eventCount
      && (k + 1 < |Incarnations(Fold(Empty, a), name)| ==> w == v)
  {
    var g, more := LifeGrows(a, b, name, k);
    assert g + [] == g;
    if ClosedOf(g).Some? { ClosedStays(g, more); }
  }

  // ----- sessions

  /** Every session behind the newest has ended. */
  predicate OnlyNewestOpen(ss: seq<Session>) {
    forall i :: 1 <= i < |ss| ==> ss[i].ended.Some?
  }

  /** t is session s later: same id and start, and any ending it had. */
  predicate Kept(s: Session, t: Session) {
    t.id == s.id && t.started == s.started && (s.ended.Some? ==> t.ended == s.ended)
  }

  /** ts continues ss: new sessions come in front, older ones are kept in order behind them. */
  predicate Continues(ss: seq<Session>, ts: seq<Session>) {
    |ss| <= |ts| && forall i :: 0 <= i < |ss| ==> Kept(ss[i], ts[|ts| - |ss| + i])
  }

  lemma {:induction false} ContinuesTrans(a: seq<Session>, b: seq<Session>, c: seq<Session>)
    requires Continues(a, b) && Continues(b, c)
    ensures Continues(a, c)
  {
    forall i | 0 <= i < |a| ensures Kept(a[i], c[|c| - |a| + i]) {
      var j := |b| - |a| + i;
      assert Kept(a[i], b[j]);
      assert Kept(b[j], c[|c| - |b| + j]);
    }
  }

  /** ts is a legal next state of the session list ss. */
  predicate StepsTo(ss: seq<Session>, ts: seq<Session>) {
    Continues(ss, ts) && OnlyNewestOpen(ts)
  }

  lemma {:induction false} EndNewestContinues(ss: seq<Session>, at: int, reason: string)
    requires OnlyNewestOpen(ss)
    ensures StepsTo(ss, EndNewest(ss, at, reason))
    ensures forall i :: 0 <= i < |EndNewest(ss, at, reason)| ==> EndNewest(ss, at, reason)[i].ended.Some?
  {
    var ts := EndNewest(ss, at, reason);
    forall i | 0 <= i < |ss| ensures Kept(ss[i], ts[i]) && ts[i].ended.Some? {
      if i > 0 { assert ts[i] == ss[i] && ss[i].ended.Some?; }
    }
  }

  /** A new session in front of ended ones. */
  lemma {:induction false} PushContinues(ss: seq<Session>, rest: seq<Session>, s: Session)
    requires Continues(ss, rest) && forall i :: 0 <= i < |rest| ==> rest[i].ended.Some?
    ensures StepsTo(ss, [s] + rest)
  {
    hide Kept;
    var ts := [s] + rest;
    forall i | 0 <= i < |rest| ensures ts[i + 1] == rest[i] { }
    forall i | 0 <= i < |ss| ensures Kept(ss[i], ts[|ts| - |ss| + i]) {
      assert ts[|ts| - |ss| + i] == rest[|rest| - |ss| + i];
    }
  }

  lemma {:induction false} RepathContinues(ss: seq<Session>, path: string)
    requires OnlyNewestOpen(ss) && ss != []
    ensures StepsTo(ss, [ss[0].(path := path)] + ss[1..])
  {
    var ts := [ss[0].(path := path)] + ss[1..];
    forall i | 1 <= i < |ss| ensures ts[i] == ss[i] { }
  }

  lemma {:induction false} OpenContinues(ss: seq<Session>, id: string, path: string, at: int)
    requires OnlyNewestOpen(ss)
    ensures StepsTo(ss, OpenSession(ss, id, path, at))
  {
    hide StepsTo, EndNewest;
    StaysPut(ss);
    if ss != [] && ss[0].id == id {
      RepathContinues(ss, path);
    } else {
      EndNewestContinues(ss, at, "superseded");
      StepsAreContinued(ss, EndNewest(ss, at, "superseded"));
      PushContinues(ss, EndNewest(ss, at, "superseded"), Session(id, path, at, None));
    }
  }

  lemma {:induction false} StepsAreContinued(ss: seq<Session>, ts: seq<Session>)
    requires StepsTo(ss, ts)
    ensures Continues(ss, ts)
  {
  }

  lemma {:induction false} EndNamedContinues(ss: seq<Session>, id: string, at: int, reason: string)
    requires OnlyNewestOpen(ss)
    ensures StepsTo(ss, EndNamed(ss, id, at, reason)) && |EndNamed(ss, id, at, reason)| == |ss|
  {
    if ss == [] {
    } else if ss[0].id == id {
      EndNewestContinues(ss, at, reason);
    } else {
      EndNamedContinues(ss[1..], id, at, reason);
    }
  }

  lemma {:induction false} StepsAgain(a: seq<Session>, b: seq<Session>, c: seq<Session>)
    requires StepsTo(a, b) && StepsTo(b, c)
    ensures StepsTo(a, c)
  {
    ContinuesTrans(a, b, c);
  }

  lemma {:induction false} StaysPut(ss: seq<Session>)
    requires OnlyNewestOpen(ss)
    ensures StepsTo(ss, ss)
  {
  }

  /** Every event kind is a legal step of the session list. */
  lemma {:induction false} SessionStepContinues(ss: seq<Session>, e: Event)
    requires OnlyNewestOpen(ss)
    ensures StepsTo(ss, SessionStep(ss, e))
  {
    StaysPut(ss);
    match e.kind
    case LaunchReady => OpenContinues(ss, e.session, "", e.at);
    case MirrorCreated => OpenContinues(ss, e.session, "", e.at);
    case MirrorReady => OpenContinues(ss, e.session, "", e.at);
    case MirrorBatch => OpenContinues(ss, e.session, "", e.at);
    case SessionObserved => OpenContinues(ss, e.session, e.path, e.at);
    case Culled => EndNewestContinues(ss, e.at, "culled");
    case MirrorStopped => EndNewestContinues(ss, e.at, FirstNonEmpty([e.reason, "stopped"]));
    case SessionEnded => EndNamedContinues(ss, e.session, e.at, FirstNonEmpty([e.reason, "ended"]));
    case SessionSuperseded => EndNamedContinues(ss, e.session, e.at, FirstNonEmpty([e.reason, "superseded"]));
    case Resume => ResumeContinues(ss, e);
    case _ =>
  }

  /** What a resume can do to the sessions: nothing, end the newest, open another, or both. */
  lemma {:induction false} ResumeShapes(ss: seq<Session>, e: Event)
    requires e.kind.Resume?
    ensures var ended := EndNewest(ss, e.at, "resumed");
      SessionStep(ss, e) in [ss, ended, OpenSession(ss, e.session, "", e.at), OpenSession(ended, e.session, "", e.at)]
  {
    var ended := EndNewest(ss, e.at, "resumed");
    var all := [ss, ended, OpenSession(ss, e.session, "", e.at), OpenSession(ended, e.session, "", e.at)];
    assert all[0] == ss && all[1] == ended;
    assert all[2] == OpenSession(ss, e.session, "", e.at) && all[3] == OpenSession(ended, e.session, "", e.at);
  }

  lemma {:induction false} OpenAfterEnd(ss: seq<Session>, at: int, id: string)
    requires OnlyNewestOpen(ss)
    ensures StepsTo(ss, OpenSession(EndNewest(ss, at, "resumed"), id, "", at))
  {
    var ended := EndNewest(ss, at, "resumed");
    EndNewestContinues(ss, at, "resumed");
    OpenContinues(ended, id, "", at);
    StepsAgain(ss, ended, OpenSession(ended, id, "", at));
  }

  lemma {:induction false} ResumeContinues(ss: seq<Session>, e: Event)
    requires OnlyNewestOpen(ss) && e.kind.Resume?
    ensures StepsTo(ss, SessionStep(ss, e))
  {
    ResumeShapes(ss, e);
    StaysPut(ss);
    EndNewestContinues(ss, e.at, "resumed");
    OpenContinues(ss, e.session, "", e.at);
    OpenAfterEnd(ss, e.at, e.session);
  }

  lemma {:induction false} SessionsOfLife(g: seq<Fact>)
    ensures OnlyNewestOpen(SessionsOf(g))
  {
    if g == [] {
      NoSessions();
    } else {
      var init, f := g[..|g| - 1], g[|g| - 1];
      SessionsOfLife(init);
      assert g == init + [f];
      SessionsOfSnoc(init, f);
      SessionStepContinues(SessionsOf(init), f.event);
    }
  }

  lemma {:induction false} SessionsSnoc(g: seq<Fact>, f: Fact)
    ensures Continues(SessionsOf(g), SessionsOf(g + [f]))
  {
    SessionsOfSnoc(g, f);
    SessionsOfLife(g);
    SessionStepContinues(SessionsOf(g), f.event);
  }

  lemma {:induction false} SessionsContinue(g: seq<Fact>, more: seq<Fact>)
    ensures Continues(SessionsOf(g), SessionsOf(g + more))
    decreases |more|
  {
    hide SessionsOf;
    if more == [] {
      assert g + more == g;
    } else {
      var init := more[..|more| - 1];
      SessionsContinue(g, init);
      SessionsSnoc(g + init, more[|more| - 1]);
      assert g + more == (g + init) + [more[|more| - 1]];
      ContinuesTrans(SessionsOf(g), SessionsOf(g + init), SessionsOf(g + more));
    }
  }

  /**
   * In every incarnation every session but the newest has ended, and whatever
   * events follow, each session keeps its place, id and start, and an ended
   * one keeps its ending.
   */
  lemma {:induction false} SessionsNeverReopen(a: seq<Event>, b: seq<Event>, name: string, k: nat)
    requires k < |Incarnations(Fold(Empty, a), name)|
    ensures OnlyNewestOpen(Incarnations(Fold(Empty, a), name)[k].sessions)
    ensures k < |Incarnations(Fold(Empty, a + b), name)|
    ensures Continues(Incarnations(Fold(Empty, a), name)[k].sessions,
      Incarnations(Fold(Empty, a + b), name)[k].sessions)
  {
    var g, more := LifeGrows(a, b, name, k);
    SessionsOfLife(g);
    SessionsContinue(g, more);
  }

  // ----- attribution

  lemma {:induction false} ClaimsGrow(g: seq<Fact>, more: seq<Fact>) returns (cs: seq<Claim>)
    ensures ClaimsOf(g + more) == ClaimsOf(g) + cs
    decreases |more|
  {
    if more == [] {
      assert g + more == g;
      cs := [];
    } else {
      var c := ClaimsGrow(g, more[..|more| - 1]);
      assert (g + more)[..|g + more| - 1] == g + more[..|more| - 1];
      cs := c + more[|more| - 1].claims;
    }
  }

  lemma {:induction false} RegisteredLauncherStays(cs: seq<Claim>, more: seq<Claim>)
    requires LauncherOf(cs).actor != "" && LauncherOf(cs).kind != "mirror"
    ensures LauncherOf(cs + more) == LauncherOf(cs)
    decreases |more|
  {
    if more == [] {
      assert cs + more == cs;
    } else {
      var init := cs + more[..|more| - 1];
      RegisteredLauncherStays(cs, more[..|more| - 1]);
      LauncherSnoc(init, more[|more| - 1]);
      assert cs + more == init + [more[|more| - 1]];
    }
  }

  /** A launcher attributed by anything other than a mirror never changes. */
  lemma {:induction false} RegisteredLauncherForever(a: seq<Event>, b: seq<Event>, name: string, k: nat)
    requires k < |Incarnations(Fold(Empty, a), name)|
    requires var v := Incarnations(Fold(Empty, a), name)[k]; v.launcher != "" && v.launcherKind != "mirror"
    ensures k < |Incarnations(Fold(Empty, a + b), name)|
    ensures var v := Incarnations(Fold(Empty, a), name)[k]; var w := Incarnations(Fold(Empty, a + b), name)[k];
      w.launcher == v.launcher && w.launcherKind == v.launcherKind
  {
    var g, more := LifeGrows(a, b, name, k);
    var cs := ClaimsGrow(g, more);
    RegisteredLauncherStays(ClaimsOf(g), cs);
  }

  /**
   * The manager is the launcher exactly until the first explicit assignment;
   * from then on it is the manager named by the latest of them.
   */
  lemma {:induction false} ManagerIsLatestOrLauncher(es: seq<Event>, name: string, k: nat)
    requires k < |Incarnations(Fold(Empty, es), name)|
    ensures |Lives(History(es, name))| == |Incarnations(Fold(Empty, es), name)|
    ensures var v := Incarnations(Fold(Empty, es), name)[k]; var g := Lives(History(es, name))[k];
      && (v.managerAt.None? <==> forall i :: 0 <= i < |g| ==> !SetsManager(g[i].event))
      && (v.managerAt.None? ==> v.manager == v.launcher)
      && (v.managerAt.Some? ==> exists i ::
            (IsLatest(g, SetsManager, i) && v.manager == g[i].event.manager
             && v.managerSetter == g[i].event.actor && v.managerAt == Some(g[i].event.at)))
  {
    var g := RecordOfLife(es, name, k);
    LatestIndexMeans(g, SetsManager);
    var i := LatestIndex(g, SetsManager);
    if i >= 0 { assert IsLatest(g, SetsManager, i); }
  }

  /**
   * The lane is unset exactly until the first assignment of one; from then on
   * it is the one the latest of them named.
   */
  lemma LaneIsLatest(es: seq<Event>, name: string, k: nat)
    requires k < |Incarnations(Fold(Empty, es), name)|
    ensures |Lives(History(es, name))| == |Incarnations(Fold(Empty, es), name)|
    ensures var v := Incarnations(Fold(Empty, es), name)[k]; var g := Lives(History(es, name))[k];
      && (v.laneAt.None? <==> forall i :: 0 <= i < |g| ==> !SetsLane(g[i].event))
      && (v.laneAt.None? ==> v.lane == "")
      && (v.laneAt.Some? ==>
           exists i :: (IsLatest(g, SetsLane, i) && v.lane == g[i].event.lane && v.laneAt == Some(g[i].event.at)))
  {
    var g := RecordOfLife(es, name, k);
    LatestIndexMeans(g, SetsLane);
    var i := LatestIndex(g, SetsLane);
    if i >= 0 { assert IsLatest(g, SetsLane, i); }
  }

  /** Two lives hold the same events that set a register; what else they hold, and in what order, is open. */
  ghost predicate SameSetters(g: seq<Fact>, h: seq<Fact>, p: Event -> bool) {
    forall e :: p(e) ==> (Says(g, e) <==> Says(h, e))
  }

  ghost predicate Says(g: seq<Fact>, e: Event) { exists i :: 0 <= i < |g| && g[i].event == e }

  /** No two different events that set the register carry one time. */
  ghost predicate NoTies(g: seq<Fact>, p: Event -> bool) {
    forall i, j :: 0 <= i < j < |g| && p(g[i].event) && p(g[j].event) && g[i].event.at == g[j].event.at ==>
      g[i].event == g[j].event
  }

  /**
   * Without ties, who holds a register is settled by which events set it, in
   * whatever order they came and among whatever others.
   */
  lemma RegisterIgnoresOrder(g: seq<Fact>, h: seq<Fact>, p: Event -> bool)
    requires SameSetters(g, h, p) && NoTies(h, p)
    ensures HolderOf(g, p) == HolderOf(h, p)
  {
    LatestIndexMeans(g, p);
    LatestIndexMeans(h, p);
    var i, j := LatestIndex(g, p), LatestIndex(h, p);
    if i >= 0 { var x := SetterThere(g, h, p, i); }
    if j >= 0 { var y := SetterThere(h, g, p, j); }
  }

  lemma SetterThere(g: seq<Fact>, h: seq<Fact>, p: Event -> bool, i: nat) returns (x: nat)
    requires SameSetters(g, h, p) || SameSetters(h, g, p)
    requires i < |g| && p(g[i].event)
    ensures x < |h| && h[x].event == g[i].event
  {
    assert Says(g, g[i].event);
    assert Says(h, g[i].event);
    x :| 0 <= x < |h| && h[x].event == g[i].event;
  }

  /**
   * Two histories whose lives of a name hold the same assignments, in whatever
   * orders and among whatever other events, leave the same lane and the same
   * manager, as long as no two different assignments carry one time.
   */
  lemma AssignmentOrderIrrelevant(es: seq<Event>, fs: seq<Event>, name: string, k: nat, j: nat)
    requires k < |Incarnations(Fold(Empty, es), name)| && j < |Incarnations(Fold(Empty, fs), name)|
    ensures |Lives(History(es, name))| == |Incarnations(Fold(Empty, es), name)| &&
      |Lives(History(fs, name))| == |Incarnations(Fold(Empty, fs), name)|
    ensures var v, w := Incarnations(Fold(Empty, es), name)[k], Incarnations(Fold(Empty, fs), name)[j];
      var g, h := Lives(History(es, name))[k], Lives(History(fs, name))[j];
      && (SameSetters(g, h, SetsLane) && NoTies(h, SetsLane) ==> v.lane == w.lane && v.laneAt == w.laneAt)
      && (SameSetters(g, h, SetsManager) && NoTies(h, SetsManager) ==>
            v.managerAt == w.managerAt && v.managerSetter == w.managerSetter
            && (if v.managerAt.Some? then v.manager == w.manager
                 else v.manager == v.launcher && w.manager == w.launcher))
  {
    hide Fold, History, Lives, SameSetters, NoTies;
    var g := RecordOfLife(es, name, k);
    var h := RecordOfLife(fs, name, j);
    if SameSetters(g, h, SetsLane) && NoTies(h, SetsLane) { RegisterIgnoresOrder(g, h, SetsLane); }
    if SameSetters(g, h, SetsManager) && NoTies(h, SetsManager) { RegisterIgnoresOrder(g, h, SetsManager); }
  }

  /** No two facts satisfying p carry the same time. */
  ghost predicate DistinctTimes(g: seq<Fact>, p: Event -> bool) {
    forall i, j :: 0 <= i < j < |g| && p(g[i].event) && p(g[j].event) ==> g[i].event.at != g[j].event.at
  }

  /** With distinct times, who holds a register does not depend on the order of the facts. */
  lemma {:induction false} HolderIgnoresOrder(g: seq<Fact>, h: seq<Fact>, p: Event -> bool)
    requires multiset(g) == multiset(h) && DistinctTimes(h, p)
    ensures HolderOf(g, p) == HolderOf(h, p)
  {
    LatestIndexMeans(g, p);
    LatestIndexMeans(h, p);
    forall f ensures f in g <==> f in h { assert f in g <==> f in multiset(g); assert f in h <==> f in multiset(h); }
    var i, j := LatestIndex(g, p), LatestIndex(h, p);
    if i >= 0 {
      assert g[i] in h;
      var x :| 0 <= x < |h| && h[x] == g[i];
      assert p(h[x].event);
      assert h[j] in g;
      var y :| 0 <= y < |g| && g[y] == h[j];
      assert g[y].event.at <= g[i].event.at;
    } else {
      assert forall x :: 0 <= x < |h| ==> h[x] in g;
      assert j < 0;
    }
  }

  function AssignFacts(xs: seq<Event>): seq<Fact> {
    seq(|xs|, i requires 0 <= i < |xs| => Fact(xs[i], []))
  }

  predicate AreAssignments(xs: seq<Event>, name: string) {
    forall x :: x in xs ==> x.kind.Assign? && x.name == name
  }

  lemma {:induction false} HistoryOfAssignment(es: seq<Event>, x: Event)
    requires x.kind.Assign? && x.name != ""
    ensures History(es + [x], x.name) == History(es, x.name) + [Fact(x, [])]
  {
    assert (es + [x])[..|es|] == es;
    var request := RequestedAt(es, x.request);
    assert Subjects(x) == [x] && [x][..0] == [];
    assert About([], x.name, request) == [];
    assert About([x], x.name, request) == [Fact(x, [])];
  }

  lemma {:induction false} HistoryOfAssignments(pre: seq<Event>, xs: seq<Event>, name: string)
    requires AreAssignments(xs, name) && name != ""
    ensures History(pre + xs, name) == History(pre, name) + AssignFacts(xs)
  {
    var h := (es: seq<Event>) => History(es, name);
    var f := (x: Event) => Fact(x, []);
    forall es: seq<Event>, x: Event | x in xs ensures h(es + [x]) == h(es) + [f(x)] { HistoryOfAssignment(es, x); }
    AppendsByStep(h, f, pre, xs);
    assert seq(|xs|, i requires 0 <= i < |xs| => f(xs[i])) == AssignFacts(xs);
  }

  /** The life a run of assignments lands in: the latest one while it is open, else a new one. */
  function Landing(lives: seq<seq<Fact>>): seq<Fact> {
    if lives != [] && FirstIndex(lives[|lives| - 1], IsClosing) < 0 then lives[|lives| - 1] else []
  }

  lemma {:induction false} LivesSnoc(h: seq<Fact>, f: Fact)
    requires f.event.kind.Assign?
    ensures var r := Lives(h); var n := |r|;
      Lives(h + [f]) == if n > 0 && FirstIndex(r[n - 1], IsClosing) < 0 then r[..n - 1] + [r[n - 1] + [f]]
        else r + [[f]]
  {
    hide FirstIndex;
    var all := h + [f];
    assert all[..|h|] == h && all[|h|] == f;
  }

  lemma {:induction false} NoIndexInNothing(p: Event -> bool)
    ensures FirstIndex([], p) < 0
  {
  }

  lemma {:induction false} LandingSnoc(h: seq<Fact>, f: Fact)
    requires f.event.kind.Assign?
    ensures Landing(Lives(h + [f])) == Landing(Lives(h)) + [f]
  {
    hide Lives, Landing;
    LivesSnoc(h, f);
    LandingNext(Lives(h), Lives(h + [f]), f);
  }

  lemma {:induction false} LandingNext(r: seq<seq<Fact>>, t: seq<seq<Fact>>, f: Fact)
    requires !IsClosing(f.event)
    requires t == if |r| > 0 && FirstIndex(r[|r| - 1], IsClosing) < 0 then r[..|r| - 1] + [r[|r| - 1] + [f]]
      else r + [[f]]
    ensures Landing(t) == Landing(r) + [f]
  {
    hide FirstIndex, IsClosing;
    if |r| > 0 && FirstIndex(r[|r| - 1], IsClosing) < 0 {
      var last := r[|r| - 1];
      IndexSnoc(last, f, IsClosing);
      assert t[|r| - 1] == last + [f];
    } else {
      IndexSnoc([], f, IsClosing);
      NoIndexInNothing(IsClosing);
      assert [] + [f] == [f] == t[|r|];
    }
  }

  lemma {:induction false} LivesOfAssignments(h: seq<Fact>, fs: seq<Fact>)
    requires forall f :: f in fs ==> f.event.kind.Assign?
    ensures Landing(Lives(h + fs)) == Landing(Lives(h)) + fs
  {
    hide Lives, Landing;
    var l := (x: seq<Fact>) => Landing(Lives(x));
    var id := (f: Fact) => f;
    forall es: seq<Fact>, f: Fact | f in fs ensures l(es + [f]) == l(es) + [id(f)] { LandingSnoc(es, f); }
    AppendsByStep(l, id, h, fs);
    assert seq(|fs|, i requires 0 <= i < |fs| => id(fs[i])) == fs;
  }

  /** The record a run of assignments lands in. */
  lemma {:induction false} AssignedRecord(pre: seq<Event>, xs: seq<Event>, name: string)
    requires name != "" && xs != [] && AreAssignments(xs, name)
    ensures var list := Incarnations(Fold(Empty, pre + xs), name);
      var g := Landing(Lives(History(pre, name))) + AssignFacts(xs);
      list != [] && g != [] && list[|list| - 1] == Summary(name, g)
  {
    HistoryOfAssignments(pre, xs, name);
    LivesOfAssignments(History(pre, name), AssignFacts(xs));
    FoldIsHistory(pre + xs, name);
    TellsLast(Incarnations(Fold(Empty, pre + xs), name), name, Lives(History(pre + xs, name)));
  }

  lemma {:induction false} SummaryIgnoresOrder(base: seq<Fact>, xs: seq<Event>, ys: seq<Event>, name: string)
    requires base + AssignFacts(xs) != [] && base + AssignFacts(ys) != []
    requires multiset(AssignFacts(xs)) == multiset(AssignFacts(ys))
    requires DistinctTimes(base + AssignFacts(ys), SetsManager) && DistinctTimes(base + AssignFacts(ys), SetsLane)
    ensures var v, w := Summary(name, base + AssignFacts(xs)), Summary(name, base + AssignFacts(ys));
      v.lane == w.lane && v.laneAt == w.laneAt && v.manager == w.manager && v.managerAt == w.managerAt
  {
    var g, h := base + AssignFacts(xs), base + AssignFacts(ys);
    assert multiset(g) == multiset(base) + multiset(AssignFacts(xs)) == multiset(h);
    HolderIgnoresOrder(g, h, SetsManager);
    HolderIgnoresOrder(g, h, SetsLane);
    ClaimsOfAssignments(base, xs);
    ClaimsOfAssignments(base, ys);
  }

  /**
   * Assignments with distinct times may arrive in any order: whatever came
   * before, the record they land in ends with the same manager and lane.
   */
  lemma {:induction false} FinalAssignmentsCommute(pre: seq<Event>, xs: seq<Event>, ys: seq<Event>, name: string)
    requires name != "" && xs != [] && AreAssignments(xs, name) && AreAssignments(ys, name)
    requires multiset(AssignFacts(xs)) == multiset(AssignFacts(ys))
    requires DistinctTimes(Landing(Lives(History(pre, name))) + AssignFacts(ys), SetsManager)
    requires DistinctTimes(Landing(Lives(History(pre, name))) + AssignFacts(ys), SetsLane)
    ensures var a := Incarnations(Fold(Empty, pre + xs), name); var b := Incarnations(Fold(Empty, pre + ys), name);
      && a != [] && b != []
      && a[|a| - 1].lane == b[|b| - 1].lane && a[|a| - 1].laneAt == b[|b| - 1].laneAt
      && a[|a| - 1].manager == b[|b| - 1].manager && a[|a| - 1].managerAt == b[|b| - 1].managerAt
  {
    assert |multiset(AssignFacts(xs))| == |xs| && |multiset(AssignFacts(ys))| == |ys|;
    AssignedRecord(pre, xs, name);
    AssignedRecord(pre, ys, name);
    SummaryIgnoresOrder(Landing(Lives(History(pre, name))), xs, ys, name);
  }

  lemma {:induction false} ClaimsOfAssignments(base: seq<Fact>, xs: seq<Event>)
    ensures ClaimsOf(base + AssignFacts(xs)) == ClaimsOf(base)
  {
    var fx := AssignFacts(xs);
    if xs == [] {
      assert base + fx == base;
    } else {
      ClaimsOfAssignments(base, xs[..|xs| - 1]);
      assert (base + fx)[..|base + fx| - 1] == base + AssignFacts(xs[..|xs| - 1]);
    }
  }
}
