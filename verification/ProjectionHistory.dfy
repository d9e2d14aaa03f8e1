/**
 * What the event fold means. The events of a name are grouped into lives by
 * one rule (a life ends with its first closing event and the next event that
 * is not about an ending starts another), and every record the fold holds is
 * shown equal to a summary of its group, written without the fold.
 * ProjectionPromises.dfy proves what closings, sessions, attribution and
 * assignments promise.
 */
module ProjectionHistory {
  import opened Common
  import opened Events
  import opened Projection
  import SessionHistory

  // ----- the reference: history of a request, of a name, and its groups

  /** What the events say about launch request `id`, from its latest request on. */
  function RequestAt(es: seq<Event>, id: string): Option<Request> {
    if es == [] then None
    else
      var prior := RequestAt(es[..|es| - 1], id);
      var e := es[|es| - 1];
      if e.kind.LaunchRequested? && e.id == id then Some(Request(e, Requested, e.name, ""))
      else if prior.None? || e.request != id then prior
      else if e.kind.LaunchReady? && e.name != "" then Some(prior.value.(state := Ready, name := e.name))
      else if e.kind.LaunchFailed? then
        Some(prior.value.(state := Failed, reason := e.reason,
                               name := if e.name != "" then e.name else prior.value.name))
      else prior
  }

  function RequestedAt(es: seq<Event>, id: string): Option<Event> {
    match RequestAt(es, id)
    case Some(r) => Some(r.requested)
    case None => None
  }

  /** The facts about `name` among some events that refer to one request. */
  function About(xs: seq<Event>, name: string, request: Option<Event>): seq<Fact> {
    if xs == [] then []
    else
      var x := xs[|xs| - 1];
      About(xs[..|xs| - 1], name, request) + (if x.name == name then [Fact(x, Claims(x, request))] else [])
  }

  /** Everything the events say about `name`, in order. */
  function History(es: seq<Event>, name: string): seq<Fact> {
    if es == [] then []
    else
      var init, e := es[..|es| - 1], es[|es| - 1];
      History(init, name) + About(Subjects(e), name, RequestedAt(init, e.request))
  }

  /** The first index of g satisfying p, or -1. */
  function FirstIndex(g: seq<Fact>, p: Event -> bool): (r: int)
    ensures -1 <= r < |g|
  {
    if g == [] then -1
    else
      var i := FirstIndex(g[..|g| - 1], p);
      if i >= 0 then i else if p(g[|g| - 1].event) then |g| - 1 else -1
  }

  lemma {:induction false} FirstIndexMeans(g: seq<Fact>, p: Event -> bool)
    ensures var r := FirstIndex(g, p);
      && (r >= 0 ==> p(g[r].event))
      && forall j :: 0 <= j < (if r < 0 then |g| else r) ==> !p(g[j].event)
  {
    if g != [] {
      FirstIndexMeans(g[..|g| - 1], p);
      assert forall j :: 0 <= j < |g| - 1 ==> g[..|g| - 1][j] == g[j];
    }
  }

  /** The last index of g satisfying p, or -1. */
  function LastIndex(g: seq<Fact>, p: Event -> bool): (r: int)
    ensures -1 <= r < |g|
  {
    if g == [] then -1
    else if p(g[|g| - 1].event) then |g| - 1
    else LastIndex(g[..|g| - 1], p)
  }

  lemma {:induction false} LastIndexMeans(g: seq<Fact>, p: Event -> bool)
    ensures var r := LastIndex(g, p);
      && (r >= 0 ==> p(g[r].event))
      && forall j :: r < j < |g| ==> !p(g[j].event)
  {
    if g != [] {
      LastIndexMeans(g[..|g| - 1], p);
      assert forall j :: 0 <= j < |g| - 1 ==> g[..|g| - 1][j] == g[j];
    }
  }

  /** Index i holds the latest of the events satisfying p: greatest time, and the last of those. */
  ghost predicate IsLatest(g: seq<Fact>, p: Event -> bool, i: int) {
    && 0 <= i < |g| && p(g[i].event)
    && forall j :: 0 <= j < |g| && p(g[j].event) ==>
         g[j].event.at <= g[i].event.at && (i < j ==> g[j].event.at < g[i].event.at)
  }

  /** The index of the latest event satisfying p, or -1. */
  function LatestIndex(g: seq<Fact>, p: Event -> bool): (r: int)
    ensures -1 <= r < |g|
  {
    if g == [] then -1
    else
      var i := LatestIndex(g[..|g| - 1], p);
      if p(g[|g| - 1].event) && (i < 0 || g[i].event.at <= g[|g| - 1].event.at) then |g| - 1 else i
  }

  lemma {:induction false} LatestIndexMeans(g: seq<Fact>, p: Event -> bool)
    ensures var r := LatestIndex(g, p);
      if r >= 0 then IsLatest(g, p, r) else forall j :: 0 <= j < |g| ==> !p(g[j].event)
  {
    if g != [] {
      LatestIndexMeans(g[..|g| - 1], p);
      assert forall j :: 0 <= j < |g| - 1 ==> g[..|g| - 1][j] == g[j];
    }
  }

  function EarliestTime(g: seq<Fact>): (r: int)
    requires g != []
  {
    var n := |g| - 1;
    if n == 0 then g[0].event.at else Min(EarliestTime(g[..n]), g[n].event.at)
  }

  function LatestTime(g: seq<Fact>): (r: int)
    requires g != []
  {
    var n := |g| - 1;
    if n == 0 then g[0].event.at else Max(LatestTime(g[..n]), g[n].event.at)
  }

  /** The two bounds are attained, and bound every event of the life. */
  lemma {:induction false} TimesMean(g: seq<Fact>)
    requires g != []
    ensures exists i :: 0 <= i < |g| && g[i].event.at == EarliestTime(g)
    ensures exists i :: 0 <= i < |g| && g[i].event.at == LatestTime(g)
    ensures forall i :: 0 <= i < |g| ==> EarliestTime(g) <= g[i].event.at <= LatestTime(g)
  {
    var n := |g| - 1;
    assert g[n].event.at == g[|g| - 1].event.at;
    if n > 0 {
      TimesMean(g[..n]);
      assert forall i :: 0 <= i < n ==> g[..n][i] == g[i];
    }
  }

  function EventsOf(g: seq<Fact>): (r: seq<Event>)
    ensures |r| == |g|
    ensures forall i :: 0 <= i < |g| ==> r[i] == g[i].event
  {
    if g == [] then [] else EventsOf(g[..|g| - 1]) + [g[|g| - 1].event]
  }

  function ClaimsOf(g: seq<Fact>): seq<Claim> {
    if g == [] then [] else ClaimsOf(g[..|g| - 1]) + g[|g| - 1].claims
  }

  predicate Attributes(c: Claim, registered: bool) {
    c.actor != "" && (registered ==> c.kind != "mirror")
  }

  /** The first attribution, among the registered ones only or among all. */
  function FirstClaim(cs: seq<Claim>, registered: bool): Option<Claim> {
    if cs == [] then None
    else if Attributes(cs[0], registered) then Some(cs[0])
    else FirstClaim(cs[1..], registered)
  }

  /** The launcher a life is attributed to: its first registered attribution, else its first mirrored one. */
  function LauncherOf(cs: seq<Claim>): Claim {
    match FirstClaim(cs, true)
    case Some(c) => c
    case None =>
      match FirstClaim(cs, false)
      case Some(c) => c
      case None => Claim("", "")
  }

  /** The sessions of a life, newest first, told from its events by stretches. */
  function SessionsOf(g: seq<Fact>): seq<Session> { SessionHistory.Sessions(EventsOf(g)) }

  predicate IsClosing(e: Event) { Closes(e.kind) }

  predicate IsRegistering(e: Event) { e.kind.LaunchRequested? || e.kind.LaunchReady? || e.kind.Resume? || e.kind.Fork? }

  predicate IsMirroring(e: Event) { Mirrors(e.kind) }

  predicate NamesParent(e: Event) { Mirrors(e.kind) && e.parentName != "" }

  predicate IsFork(e: Event) { e.kind.Fork? }

  /** A life is closed by its first closing event. */
  function ClosedOf(g: seq<Fact>): Option<Ending> {
    var i := FirstIndex(g, IsClosing);
    if i < 0 then None else Some(Ending(g[i].event.at, CloseReason(g[i].event)))
  }

  function StandingOf(g: seq<Fact>): Standing {
    if FirstIndex(g, IsRegistering) >= 0 then Registered
    else if FirstIndex(g, IsMirroring) >= 0 then Mirrored
    else Unregistered
  }

  function GroupingOf(g: seq<Fact>): Option<Grouping> {
    var i := LatestIndex(g, SetsGroup);
    if i < 0 then None else Some(Grouping(g[i].event.group, g[i].event.actor, g[i].event.at))
  }

  /** The event that holds a register now, if any set it. */
  function HolderOf(g: seq<Fact>, sets: Event -> bool): Option<Event> {
    var i := LatestIndex(g, sets);
    if i < 0 then None else Some(g[i].event)
  }

  function ParentOf(g: seq<Fact>): string {
    var i := LastIndex(g, NamesParent);
    if i < 0 then "" else g[i].event.parentName
  }

  function ForkedFrom(g: seq<Fact>): string {
    var i := LastIndex(g, IsFork);
    if i < 0 then "" else g[i].event.fromName
  }

  function AtOf(e: Option<Event>): Option<int> {
    match e
    case Some(x) => Some(x.at)
    case None => None
  }

  /** The record of one life, told from its facts alone. */
  function Summary(name: string, g: seq<Fact>): Agent
    requires g != []
  {
    var launcher := LauncherOf(ClaimsOf(g));
    var laned, managed := HolderOf(g, SetsLane), HolderOf(g, SetsManager);
    Agent(
      name, EarliestTime(g), EarliestTime(g), LatestTime(g),
      ClosedOf(g), StandingOf(g),
      launcher.actor, launcher.kind,
      GroupingOf(g),
      if laned.Some? then laned.value.lane else "", AtOf(laned),
      if managed.Some? then managed.value.manager else launcher.actor,
      if managed.Some? then managed.value.actor else "", AtOf(managed),
      ParentOf(g), ForkedFrom(g),
      SessionsOf(g),
      LastN(EventsOf(g), EVENTS_KEPT),
      |g|)
  }

  /** The lives of a name: a fact joins the latest life until it closed, or when it is about an ending. */
  function Lives(h: seq<Fact>): (r: seq<seq<Fact>>)
    ensures forall k :: 0 <= k < |r| ==> r[k] != []
  {
    if h == [] then []
    else
      var r, f := Lives(h[..|h| - 1]), h[|h| - 1];
      var n := |r|;
      if n > 0 && (FirstIndex(r[n - 1], IsClosing) < 0 || Attaches(f.event.kind))
      then r[..n - 1] + [r[n - 1] + [f]]
      else r + [[f]]
  }

  // ----- adding one fact to a summary

  lemma {:induction false} SnocShape(g: seq<Fact>, f: Fact)
    ensures (g + [f])[..|g|] == g && (g + [f])[|g|] == f
  {
  }

  lemma {:induction false} FirstClaimSnoc(cs: seq<Claim>, c: Claim, b: bool)
    ensures FirstClaim(cs + [c], b) ==
            if FirstClaim(cs, b).Some? then FirstClaim(cs, b) else if Attributes(c, b) then Some(c) else None
  {
    if cs != [] {
      assert (cs + [c])[1..] == cs[1..] + [c];
      FirstClaimSnoc(cs[1..], c, b);
    }
  }

  lemma {:induction false} FirstClaimMeans(cs: seq<Claim>, b: bool)
    ensures FirstClaim(cs, b).Some? ==> Attributes(FirstClaim(cs, b).value, b)
    ensures FirstClaim(cs, true).Some? ==> FirstClaim(cs, false).Some?
    ensures FirstClaim(cs, true).None? && FirstClaim(cs, false).Some? ==> FirstClaim(cs, false).value.kind == "mirror"
  {
    if cs != [] { FirstClaimMeans(cs[1..], b); }
  }

  lemma {:induction false} LauncherSnoc(cs: seq<Claim>, c: Claim)
    ensures var l := LauncherOf(cs);
      LauncherOf(cs + [c]) ==
        if c.actor == "" || (l.actor != "" && !(l.kind == "mirror" && c.kind != "mirror")) then l else c
  {
    FirstClaimSnoc(cs, c, true);
    FirstClaimSnoc(cs, c, false);
    FirstClaimMeans(cs, true);
    FirstClaimMeans(cs, false);
  }

  /** v carries the attribution of claims cs, and its manager follows it until one is set. */
  ghost predicate Attributed(v: Agent, cs: seq<Claim>) {
    && Claim(v.launcher, v.launcherKind) == LauncherOf(cs)
    && (v.managerAt.None? ==> v.manager == v.launcher)
    && (v.managerAt.Some? ==> v.manager != "")
  }

  lemma {:induction false} ClaimedAllAttributed(v: Agent, cs: seq<Claim>, more: seq<Claim>)
    requires Attributed(v, cs)
    ensures Attributed(ClaimedAll(v, more), cs + more)
    ensures ClaimedAll(v, more).managerAt == v.managerAt
    ensures v.managerAt.Some? ==> ClaimedAll(v, more).manager == v.manager
  {
    if more == [] {
      assert cs + more == cs;
    } else {
      var init, c := more[..|more| - 1], more[|more| - 1];
      ClaimedAllAttributed(v, cs, init);
      LauncherSnoc(cs + init, c);
      assert cs + more == (cs + init) + [c];
    }
  }

  /** A summary is attributed as its claims say. */
  lemma {:induction false} SummaryAttributed(name: string, g: seq<Fact>)
    requires g != []
    ensures Attributed(Summary(name, g), ClaimsOf(g))
  {
    LatestIndexMeans(g, SetsManager);
  }

  lemma {:induction false} EventsKeptSnoc(g: seq<Fact>, f: Fact)
    ensures LastN(LastN(EventsOf(g), EVENTS_KEPT) + [f.event], EVENTS_KEPT) == LastN(EventsOf(g + [f]), EVENTS_KEPT)
  {
    SnocShape(g, f);
  }

  lemma {:induction false} TimesSnoc(g: seq<Fact>, f: Fact)
    requires g != []
    ensures EarliestTime(g + [f]) == Min(EarliestTime(g), f.event.at)
    ensures LatestTime(g + [f]) == Max(LatestTime(g), f.event.at)
  {
    SnocShape(g, f);
  }

  lemma {:induction false} IndexSnoc(g: seq<Fact>, f: Fact, p: Event -> bool)
    ensures FirstIndex(g + [f], p) == if FirstIndex(g, p) >= 0 then FirstIndex(g, p) else if p(f.event) then |g| else -1
    ensures LastIndex(g + [f], p) == if p(f.event) then |g| else LastIndex(g, p)
    ensures LatestIndex(g + [f], p) ==
            var i := LatestIndex(g, p); if p(f.event) && (i < 0 || g[i].event.at <= f.event.at) then |g| else i
  {
    SnocShape(g, f);
  }

  lemma {:induction false} HolderSnoc(g: seq<Fact>, f: Fact, sets: Event -> bool)
    ensures HolderOf(g + [f], sets) ==
            var h := HolderOf(g, sets);
            if sets(f.event) && Supersedes(f.event.at, AtOf(h)) then Some(f.event) else h
  {
    SnocShape(g, f);
    IndexSnoc(g, f, sets);
  }

  lemma {:induction false} ClosedSnoc(g: seq<Fact>, f: Fact)
    ensures ClosedOf(g + [f]) == if ClosedOf(g).None? && IsClosing(f.event)
      then Some(Ending(f.event.at, CloseReason(f.event))) else ClosedOf(g)
  {
    SnocShape(g, f);
    IndexSnoc(g, f, IsClosing);
  }

  lemma {:induction false} StandingSnoc(g: seq<Fact>, f: Fact)
    ensures StandingOf(g + [f]) == StandingStep(StandingOf(g), f.event.kind)
  {
    IndexSnoc(g, f, IsRegistering);
    IndexSnoc(g, f, IsMirroring);
  }

  lemma {:induction false} GroupingSnoc(g: seq<Fact>, f: Fact)
    ensures GroupingOf(g + [f]) == var h := GroupingOf(g);
            if SetsGroup(f.event) && (h.None? || h.value.at <= f.event.at)
              then Some(Grouping(f.event.group, f.event.actor, f.event.at)) else h
  {
    SnocShape(g, f);
    IndexSnoc(g, f, SetsGroup);
  }

  lemma {:induction false} LineageSnoc(g: seq<Fact>, f: Fact)
    ensures ParentOf(g + [f]) == if NamesParent(f.event) then f.event.parentName else ParentOf(g)
    ensures ForkedFrom(g + [f]) == if IsFork(f.event) then f.event.fromName else ForkedFrom(g)
  {
    SnocShape(g, f);
    IndexSnoc(g, f, NamesParent);
    IndexSnoc(g, f, IsFork);
  }

  /** The fields of a record after one more fact, read off the fold. */
  lemma {:induction false} AbsorbFields(v: Agent, f: Fact)
    ensures var e := f.event; var w := Absorb(v, f); var c := ClaimedAll(Counted(v, e), f.claims);
      && w.name == v.name && w.eventCount == v.eventCount + 1 && w.events == LastN(v.events + [e], EVENTS_KEPT)
      && w.lastSeen == Max(v.lastSeen, e.at) && w.firstSeen == Min(v.firstSeen, e.at)
      && w.incarnation == (if e.at < v.firstSeen then e.at else v.incarnation)
      && w.launcher == c.launcher && w.launcherKind == c.launcherKind
      && w.closed == (if v.closed.None? && IsClosing(e) then Some(Ending(e.at, CloseReason(e))) else v.closed)
      && w.standing == StandingStep(v.standing, e.kind)
      && w.parent == (if NamesParent(e) then e.parentName else v.parent)
      && w.fromName == (if IsFork(e) then e.fromName else v.fromName)
      && w.sessions == SessionStep(v.sessions, e)
  {
    ClaimsTouch(Counted(v, f.event), f.claims);
  }

  lemma {:induction false} AbsorbRegisters(v: Agent, f: Fact)
    ensures var e := f.event; var w := Absorb(v, f); var c := ClaimedAll(Counted(v, e), f.claims);
      && w.grouping ==
           (if SetsGroup(e) && (v.grouping.None? || v.grouping.value.at <= e.at)
             then Some(Grouping(e.group, e.actor, e.at)) else v.grouping)
      && w.laneAt == (if SetsLane(e) && Supersedes(e.at, v.laneAt) then Some(e.at) else v.laneAt)
      && w.lane == (if SetsLane(e) && Supersedes(e.at, v.laneAt) then e.lane else v.lane)
      && w.managerAt == (if SetsManager(e) && Supersedes(e.at, v.managerAt) then Some(e.at) else v.managerAt)
      && w.manager == (if SetsManager(e) && Supersedes(e.at, v.managerAt) then e.manager else c.manager)
      && w.managerSetter == (if SetsManager(e) && Supersedes(e.at, v.managerAt) then e.actor else v.managerSetter)
  {
    ClaimsTouch(Counted(v, f.event), f.claims);
  }

  lemma {:induction false} SessionsOfSnoc(g: seq<Fact>, f: Fact)
    ensures SessionsOf(g + [f]) == SessionStep(SessionsOf(g), f.event)
  {
    hide SessionStep, SessionHistory.Sessions;
    SnocShape(g, f);
    SessionHistory.SessionsStep(EventsOf(g), f.event);
  }

  lemma {:induction false} NoSessions()
    ensures SessionsOf([]) == []
  {
  }

  /** Attribution of a record after one more fact. */
  lemma {:induction false} AbsorbAttribution(name: string, g: seq<Fact>, f: Fact)
    requires g != []
    ensures var c := ClaimedAll(Counted(Summary(name, g), f.event), f.claims);
            var l := LauncherOf(ClaimsOf(g + [f])); var h := HolderOf(g, SetsManager);
            && c.launcher == l.actor && c.launcherKind == l.kind
            && c.manager == (if h.Some? then h.value.manager else l.actor)
  {
    SnocShape(g, f);
    SummaryAttributed(name, g);
    assert Attributed(Counted(Summary(name, g), f.event), ClaimsOf(g));
    ClaimedAllAttributed(Counted(Summary(name, g), f.event), ClaimsOf(g), f.claims);
  }

  /** Folding a fact into a summary gives the summary of the longer life. */
  lemma {:induction false} AbsorbSummary(name: string, g: seq<Fact>, f: Fact)
    requires g != []
    ensures Absorb(Summary(name, g), f) == Summary(name, g + [f])
  {
    var v := Summary(name, g);
    AbsorbFields(v, f);
    AbsorbRegisters(v, f);
    AbsorbAttribution(name, g, f);
    EventsKeptSnoc(g, f);
    TimesSnoc(g, f);
    ClosedSnoc(g, f);
    StandingSnoc(g, f);
    GroupingSnoc(g, f);
    LineageSnoc(g, f);
    HolderSnoc(g, f, SetsLane);
    HolderSnoc(g, f, SetsManager);
    SessionsOfSnoc(g, f);
    SnocShape(g, f);
  }

  lemma {:induction false} FreshAttribution(f: Fact)
    ensures var c := ClaimedAll(Counted(Fresh(f.event), f.event), f.claims); var l := LauncherOf(ClaimsOf([f]));
            c.launcher == l.actor && c.launcherKind == l.kind && c.manager == l.actor
  {
    ClaimedAllAttributed(Counted(Fresh(f.event), f.event), [], f.claims);
    assert ClaimsOf([f]) == f.claims by {
      assert [f][..0] == [];
      assert ClaimsOf([f]) == [] + f.claims;
    }
    assert [] + f.claims == f.claims;
  }

  /** The registers of a one-fact life. */
  lemma {:induction false} OneFact(f: Fact)
    ensures EventsOf([f]) == [f.event] && SessionsOf([f]) == SessionStep([], f.event)
    ensures EarliestTime([f]) == LatestTime([f]) == f.event.at
    ensures HolderOf([f], SetsLane) == if SetsLane(f.event) then Some(f.event) else None
    ensures HolderOf([f], SetsManager) == if SetsManager(f.event) then Some(f.event) else None
    ensures GroupingOf([f]) == if SetsGroup(f.event) then Some(Grouping(f.event.group, f.event.actor, f.event.at))
      else None
    ensures ClosedOf([f]) == if IsClosing(f.event) then Some(Ending(f.event.at, CloseReason(f.event))) else None
    ensures StandingOf([f]) == StandingStep(Unregistered, f.event.kind)
    ensures ParentOf([f]) == if NamesParent(f.event) then f.event.parentName else ""
    ensures ForkedFrom([f]) == if IsFork(f.event) then f.event.fromName else ""
  {
    var g: seq<Fact> := [];
    assert g + [f] == [f] && [f][..0] == g;
    HolderSnoc(g, f, SetsLane);
    HolderSnoc(g, f, SetsManager);
    GroupingSnoc(g, f);
    ClosedSnoc(g, f);
    StandingSnoc(g, f);
    LineageSnoc(g, f);
    NoSessions();
    SessionsOfSnoc(g, f);
  }

  /** A fresh record with its first fact is the summary of a one-fact life. */
  lemma {:induction false} FreshSummary(f: Fact)
    ensures Absorb(Fresh(f.event), f) == Summary(f.event.name, [f])
  {
    hide Absorb, Summary;
    FreshFields(f);
    FreshStanding(f);
    FreshRegisters(f);
  }

  lemma {:induction false} FreshFields(f: Fact)
    ensures var w, s := Absorb(Fresh(f.event), f), Summary(f.event.name, [f]);
      && w.name == s.name && w.eventCount == s.eventCount && w.events == s.events
      && w.lastSeen == s.lastSeen && w.firstSeen == s.firstSeen && w.incarnation == s.incarnation
  {
    hide Absorb;
    var v := Fresh(f.event);
    AbsorbFields(v, f);
    OneFact(f);
    assert v.events + [f.event] == [f.event];
  }

  lemma {:induction false} FreshStanding(f: Fact)
    ensures var w, s := Absorb(Fresh(f.event), f), Summary(f.event.name, [f]);
      w.closed == s.closed && w.standing == s.standing && w.parent == s.parent && w.fromName == s.fromName &&
        w.sessions == s.sessions
  {
    hide Absorb;
    AbsorbFields(Fresh(f.event), f);
    OneFact(f);
  }

  lemma {:induction false} FreshRegisters(f: Fact)
    ensures var w, s := Absorb(Fresh(f.event), f), Summary(f.event.name, [f]);
      && w.launcher == s.launcher && w.launcherKind == s.launcherKind && w.grouping == s.grouping
      && w.lane == s.lane && w.laneAt == s.laneAt
      && w.manager == s.manager && w.managerAt == s.managerAt && w.managerSetter == s.managerSetter
  {
    hide Absorb;
    var v := Fresh(f.event);
    AbsorbFields(v, f);
    AbsorbRegisters(v, f);
    FreshAttribution(f);
    OneFact(f);
  }

  // ----- from facts to the whole fold

  /** Two lists agree element by element. */
  ghost predicate Pairwise<A, B>(xs: seq<A>, ys: seq<B>, rel: (A, B) -> bool) {
    |xs| == |ys| && forall k :: 0 <= k < |xs| ==> rel(xs[k], ys[k])
  }

  lemma {:induction false} PairwiseLast<A, B>(xs: seq<A>, ys: seq<B>, rel: (A, B) -> bool, x: A, y: B)
    requires Pairwise(xs, ys, rel) && rel(x, y)
    ensures Pairwise(xs + [x], ys + [y], rel)
    ensures xs != [] ==> Pairwise(xs[..|xs| - 1] + [x], ys[..|ys| - 1] + [y], rel)
  {
  }

  function IsSummary(name: string): (Agent, seq<Fact>) -> bool {
    (v: Agent, g: seq<Fact>) => g != [] && v == Summary(name, g)
  }

  /** The records of a name are the summaries of its lives. */
  ghost predicate Tells(list: seq<Agent>, name: string, lives: seq<seq<Fact>>) {
    Pairwise(list, lives, IsSummary(name))
  }

  lemma {:induction false} TellsLast(list: seq<Agent>, name: string, lives: seq<seq<Fact>>)
    requires Tells(list, name, lives) && list != []
    ensures var n := |list| - 1; |lives| == |list| && lives[n] != [] && list[n] == Summary(name, lives[n])
  {
    assert IsSummary(name)(list[|list| - 1], lives[|list| - 1]);
  }

  /** A fact about an open life, or about an ending, lengthens the last life. */
  lemma {:induction false} TellsJoined(list: seq<Agent>, name: string, lives: seq<seq<Fact>>, f: Fact)
    requires Tells(list, name, lives) && list != []
    ensures Tells(list[..|list| - 1] + [Absorb(list[|list| - 1], f)], name, lives[..|list| - 1] +
      [lives[|list| - 1] + [f]])
  {
    hide Absorb, Summary;
    var n := |list| - 1;
    TellsLast(list, name, lives);
    AbsorbSummary(name, lives[n], f);
    PairwiseLast(list, lives, IsSummary(name), Absorb(list[n], f), lives[n] + [f]);
  }

  lemma {:induction false} TellsOpened(list: seq<Agent>, name: string, lives: seq<seq<Fact>>, f: Fact)
    requires Tells(list, name, lives) && f.event.name == name
    ensures Tells(list + [Absorb(Fresh(f.event), f)], name, lives + [[f]])
  {
    FreshSummary(f);
    PairwiseLast(list, lives, IsSummary(name), Absorb(Fresh(f.event), f), [f]);
  }

  /** The last record is closed exactly when the last life holds a closing event. */
  lemma {:induction false} SummaryClosed(name: string, list: seq<Agent>, lives: seq<seq<Fact>>)
    requires Tells(list, name, lives)
    ensures list != [] ==> (list[|list| - 1].closed.Some? <==> FirstIndex(lives[|lives| - 1], IsClosing) >= 0)
  {
    if list != [] { TellsLast(list, name, lives); }
  }

  lemma {:induction false} PlaceTells(list: seq<Agent>, name: string, h: seq<Fact>, f: Fact)
    requires Tells(list, name, Lives(h)) && f.event.name == name
    ensures Tells(Place(list, f), name, Lives(h + [f]))
  {
    hide Absorb, Summary;
    SnocShape(h, f);
    SummaryClosed(name, list, Lives(h));
    if list != [] { TellsLast(list, name, Lives(h)); }
    if list != [] && (list[|list| - 1].closed.None? || Attaches(f.event.kind)) {
      TellsJoined(list, name, Lives(h), f);
    } else {
      TellsOpened(list, name, Lives(h), f);
    }
  }

  lemma {:induction false} RequestEventKept(s: State, x: Event, id: string)
    ensures RequestEvent(ApplyNamed(s, x), id) == RequestEvent(s, id)
  {
  }

  lemma {:induction false} ApplyAllTells(s: State, xs: seq<Event>, name: string, h: seq<Fact>, r: string)
    requires forall x :: x in xs ==> x.request == r
    requires Tells(Incarnations(s, name), name, Lives(h))
    ensures Tells(Incarnations(ApplyAll(s, xs), name), name, Lives(h + About(xs, name, RequestEvent(s, r))))
    ensures RequestEvent(ApplyAll(s, xs), r) == RequestEvent(s, r)
  {
    hide Place, Tells, Lives, Answered;
    if xs == [] {
      assert h + [] == h;
    } else {
      var init, x := xs[..|xs| - 1], xs[|xs| - 1];
      ApplyAllTells(s, init, name, h, r);
      var t, k := ApplyAll(s, init), h + About(init, name, RequestEvent(s, r));
      RequestEventKept(t, x, r);
      if x.name == name {
        var f := Fact(x, Claims(x, RequestEvent(s, r)));
        PlaceTells(Incarnations(t, name), name, k, f);
        assert h + About(xs, name, RequestEvent(s, r)) == k + [f];
      } else {
        assert h + About(xs, name, RequestEvent(s, r)) == k;
      }
    }
  }

  lemma {:induction false} SubjectsRefer(e: Event, names: seq<string>)
    ensures forall x :: x in Children(e, names) ==> x.request == e.request && x.kind == MirrorCreated
  {
    if names != [] { SubjectsRefer(e, names[..|names| - 1]); }
  }

  lemma {:induction false} AboutIgnoresRequest(xs: seq<Event>, name: string, a: Option<Event>, b: Option<Event>)
    requires forall x :: x in xs ==> !x.kind.LaunchReady?
    ensures About(xs, name, a) == About(xs, name, b)
  {
    if xs != [] { AboutIgnoresRequest(xs[..|xs| - 1], name, a, b); }
  }

  /** The request records hold what the history of each request says. */
  ghost predicate RequestsTell(s: State, es: seq<Event>) {
    forall id :: (id in s.requests <==> RequestAt(es, id).Some?)
              && (id in s.requests ==> Some(s.requests[id]) == RequestAt(es, id))
  }

  lemma {:induction false} CreationAnswersNothing(s: State, x: Event)
    requires x.kind.MirrorCreated?
    ensures ApplyNamed(s, x).requests == s.requests
  {
    hide Place;
  }

  lemma {:induction false} ChildrenAnswerNothing(s: State, e: Event, names: seq<string>)
    ensures ApplyAll(s, Children(e, names)).requests == s.requests
  {
    hide ApplyNamed;
    if names != [] {
      var init, last := names[..|names| - 1], names[|names| - 1];
      ChildrenAnswerNothing(s, e, init);
      if last == "" {
        assert Children(e, names) == Children(e, init);
      } else {
        ApplyAllSnoc(s, Children(e, init), Child(e, last));
        CreationAnswersNothing(ApplyAll(s, Children(e, init)), Child(e, last));
      }
    }
  }

  lemma {:induction false} SubjectsAnswer(s: State, e: Event)
    requires !IsLaneKind(e.kind)
    ensures ApplyAll(s, Subjects(e)).requests == if e.name != "" then Answered(s.requests, e) else s.requests
  {
    var before := if e.kind.MirrorBatch? then Children(e, e.instances) else [];
    if e.kind.MirrorBatch? { ChildrenAnswerNothing(s, e, e.instances); }
    assert ApplyAll(s, before).requests == s.requests;
    if e.name != "" {
      ApplyAllSnoc(s, before, e);
    } else {
      assert Subjects(e) == before;
    }
  }

  /** One event keeps the request records true to their histories. */
  lemma {:induction false} RequestsStep(s: State, es: seq<Event>, e: Event)
    requires RequestsTell(s, es)
    ensures RequestsTell(ApplyEvent(s, e), es + [e])
  {
    var t := ApplyEvent(s, e);
    forall id ensures (id in t.requests <==> RequestAt(es + [e], id).Some?)
                   && (id in t.requests ==> Some(t.requests[id]) == RequestAt(es + [e], id))
    {
      RequestStep(s, es, e, id);
    }
  }

  /** What an event does to the request records. */
  function NextRequests(requests: map<string, Request>, e: Event): map<string, Request> {
    if e.kind.LaunchRequested? then requests[e.id := Request(e, Requested, e.name, "")]
    else if e.kind.LaunchFailed? && e.name == "" then
      (if e.request in requests then requests[e.request := requests[e.request].(state := Failed, reason := e.reason)]
        else requests)
    else if e.name != "" then Answered(requests, e)
    else requests
  }

  lemma {:induction false} RequestsAfter(s: State, e: Event)
    ensures ApplyEvent(s, e).requests == NextRequests(s.requests, e)
  {
    hide ApplyAll, Subjects, LaneStep, UnnamedStep;
    if !IsLaneKind(e.kind) {
      SubjectsAnswer(s, e);
      SubjectsAnswer(s.(requests := s.requests[e.id := Request(e, Requested, e.name, "")]), e);
    }
  }

  lemma {:induction false} RequestAtNext(requests: map<string, Request>, es: seq<Event>, e: Event, id: string)
    requires id in requests <==> RequestAt(es, id).Some?
    requires id in requests ==> Some(requests[id]) == RequestAt(es, id)
    ensures var next := NextRequests(requests, e);
      && (id in next <==> RequestAt(es + [e], id).Some?)
      && (id in next ==> Some(next[id]) == RequestAt(es + [e], id))
  {
    assert (es + [e])[..|es|] == es;
  }

  lemma {:induction false} RequestStep(s: State, es: seq<Event>, e: Event, id: string)
    requires id in s.requests <==> RequestAt(es, id).Some?
    requires id in s.requests ==> Some(s.requests[id]) == RequestAt(es, id)
    ensures id in ApplyEvent(s, e).requests <==> RequestAt(es + [e], id).Some?
    ensures id in ApplyEvent(s, e).requests ==> Some(ApplyEvent(s, e).requests[id]) == RequestAt(es + [e], id)
  {
    hide ApplyEvent, NextRequests, RequestAt;
    RequestsAfter(s, e);
    RequestAtNext(s.requests, es, e, id);
  }

  /** The records of a name after one event. */
  lemma {:induction false} NamesAfter(s: State, e: Event, name: string)
    ensures Incarnations(ApplyEvent(s, e), name) ==
      Incarnations(ApplyAll(if e.kind.LaunchRequested?
        then s.(requests := s.requests[e.id := Request(e, Requested, e.name, "")]) else s, Subjects(e)), name)
  {
    hide ApplyNamed, LaneStep, UnnamedStep, Children;
    if IsLaneKind(e.kind) || (e.name == "" && !e.kind.MirrorBatch?) {
      assert Subjects(e) == [];
    }
  }

  /** One event extends the history of every name. */
  lemma {:induction false} HistorySnoc(es: seq<Event>, e: Event, name: string)
    ensures History(es + [e], name) == History(es, name) + About(Subjects(e), name, RequestedAt(es, e.request))
  {
    assert (es + [e])[..|es|] == es;
  }

  lemma {:induction false} NameStep(s: State, es: seq<Event>, e: Event, name: string)
    requires RequestsTell(s, es)
    requires Tells(Incarnations(s, name), name, Lives(History(es, name)))
    ensures Tells(Incarnations(ApplyEvent(s, e), name), name, Lives(History(es + [e], name)))
  {
    hide ApplyEvent, ApplyAll, Lives, Tells, About;
    var h, xs := History(es, name), Subjects(e);
    HistorySnoc(es, e, name);
    var request := RequestedAt(es, e.request);
    var s1 := if e.kind.LaunchRequested?
      then s.(requests := s.requests[e.id := Request(e, Requested, e.name, "")]) else s;
    NamesAfter(s, e, name);
    SubjectsRefer(e, e.instances);
    assert forall x :: x in xs ==> x.request == e.request;
    ApplyAllTells(s1, xs, name, h, e.request);
    if e.kind.LaunchReady? {
      assert RequestEvent(s, e.request) == request;
    } else {
      AboutIgnoresRequest(xs, name, RequestEvent(s1, e.request), request);
    }
  }

  /**
   * The fold, told by lives: after any events, the incarnations of
   * every name are exactly the summaries of that name's lives, oldest first,
   * and every request record is what that request's history says.
   */
  lemma {:induction false} FoldIsHistory(es: seq<Event>, name: string)
    ensures Tells(Incarnations(Fold(Empty, es), name), name, Lives(History(es, name)))
    ensures RequestsTell(Fold(Empty, es), es)
  {
    hide *;
    if es == [] {
      NothingFolded(name);
    } else {
      var init, e := es[..|es| - 1], es[|es| - 1];
      FoldIsHistory(init, name);
      assert es == init + [e];
      FoldSnoc(init, e);
      RequestsStep(Fold(Empty, init), init, e);
      NameStep(Fold(Empty, init), init, e, name);
    }
  }

  lemma {:induction false} FoldSnoc(es: seq<Event>, e: Event)
    ensures Fold(Empty, es + [e]) == ApplyEvent(Fold(Empty, es), e)
  {
    hide ApplyEvent;
    assert (es + [e])[..|es|] == es;
  }

  lemma {:induction false} NothingFolded(name: string)
    ensures Tells(Incarnations(Fold(Empty, []), name), name, Lives(History([], name)))
    ensures RequestsTell(Fold(Empty, []), [])
  {
  }
}
