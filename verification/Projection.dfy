/**
 * The event fold: one record per incarnation of an agent name, launch
 * requests, unnamed sessions and lanes. `ApplyEvent` is the fold of one event
 * as a function; class `Projection` is the code that updates its maps in place
 * and is proved equal to it. ProjectionHistory.dfy proves what the fold means.
 */
module Projection {
  import opened Common
  import opened Events

  const EVENTS_KEPT := 32

  datatype Ending = Ending(at: int, reason: string)

  datatype Session = Session(id: string, path: string, started: int, ended: Option<Ending>)

  datatype Standing = Unregistered | Mirrored | Registered

  datatype Grouping = Grouping(group: string, assigner: string, at: int)

  datatype Agent = Agent(
    name: string,
    incarnation: int, firstSeen: int, lastSeen: int,
    closed: Option<Ending>,
    standing: Standing,
    launcher: string, launcherKind: string,
    grouping: Option<Grouping>,
    lane: string, laneAt: Option<int>,
    manager: string, managerSetter: string, managerAt: Option<int>,
    parent: string, fromName: string,
    sessions: seq<Session>,   // newest first
    events: seq<Event>,       // the last EVENTS_KEPT
    eventCount: nat)

  datatype RequestState = Requested | Ready | Failed

  datatype Request = Request(requested: Event, state: RequestState, name: string, reason: string)

  datatype Lane = Lane(id: string, name: string, names: seq<string>, lead: string, leadAt: int, created: int,
    creator: string)

  datatype State = State(
    agents: map<string, seq<Agent>>,   // incarnations, oldest first
    requests: map<string, Request>,
    unnamed: map<string, Session>,
    lanes: map<string, Lane>)

  const Empty := State(map[], map[], map[], map[])

  // ----- sessions

  function EndNewest(ss: seq<Session>, at: int, reason: string): seq<Session> {
    if ss != [] && ss[0].ended.None? then [ss[0].(ended := Some(Ending(at, reason)))] + ss[1..] else ss
  }

  function OpenSession(ss: seq<Session>, id: string, path: string, at: int): seq<Session> {
    if ss != [] && ss[0].id == id then
      (if path != "" then [ss[0].(path := path)] + ss[1..] else ss)
    else
      [Session(id, path, at, None)] + EndNewest(ss, at, "superseded")
  }

  /** Ends the newest session of that id, when it is still open. */
  function EndNamed(ss: seq<Session>, id: string, at: int, reason: string): seq<Session> {
    if ss == [] then []
    else if ss[0].id == id then EndNewest(ss, at, reason)
    else [ss[0]] + EndNamed(ss[1..], id, at, reason)
  }

  function CurrentSession(ss: seq<Session>): string {
    if ss != [] && ss[0].ended.None? then ss[0].id else ""
  }

  function SessionStep(ss: seq<Session>, e: Event): seq<Session> {
    match e.kind
    case LaunchReady => if e.session != "" then OpenSession(ss, e.session, "", e.at) else ss
    case Culled => EndNewest(ss, e.at, "culled")
    case Resume =>
      if e.session != "" && e.session == CurrentSession(ss) then ss
      else
        var kept := if FirstNonEmpty([e.fromSession, CurrentSession(ss)]) != "" then EndNewest(ss, e.at, "resumed")
          else ss;
        if e.session != "" then OpenSession(kept, e.session, "", e.at) else kept
    case MirrorCreated => MirrorSession(ss, e)
    case MirrorReady => MirrorSession(ss, e)
    case MirrorBatch => MirrorSession(ss, e)
    case MirrorStopped => EndNewest(ss, e.at, FirstNonEmpty([e.reason, "stopped"]))
    case SessionObserved => OpenSession(ss, e.session, e.path, e.at)
    case SessionEnded => EndNamed(ss, e.session, e.at, FirstNonEmpty([e.reason, "ended"]))
    case SessionSuperseded => EndNamed(ss, e.session, e.at, FirstNonEmpty([e.reason, "superseded"]))
    case _ => ss
  }

  /** A mirror binds a session only to a record with no session history, or names the open one. */
  function MirrorSession(ss: seq<Session>, e: Event): seq<Session> {
    if e.session != "" && (ss == [] || e.session == CurrentSession(ss))
      then OpenSession(ss, e.session, "", e.at) else ss
  }

  // ----- one incarnation

  /** One attribution of a launcher. */
  datatype Claim = Claim(actor: string, kind: string)

  /** The attributions an event makes, given the request record it refers to. */
  function Claims(e: Event, request: Option<Event>): seq<Claim> {
    match e.kind
    case LaunchRequested => [LaunchClaim(e)]
    case LaunchReady => (if request.Some? then [LaunchClaim(request.value)] else []) + [LaunchClaim(e)]
    case Fork => [Claim(e.actor, FirstNonEmpty([e.actorKind, "agent"]))]
    case MirrorCreated => [Claim(e.actor, "mirror")]
    case MirrorReady => [Claim(e.actor, "mirror")]
    case MirrorBatch => [Claim(e.actor, "mirror")]
    case _ => []
  }

  function LaunchClaim(e: Event): Claim {
    Claim(e.actor, FirstNonEmpty([e.launcherKind, e.actorKind, "agent"]))
  }

  /** An event together with the attributions it made when it was folded. */
  datatype Fact = Fact(event: Event, claims: seq<Claim>)

  function Claimed(v: Agent, c: Claim): Agent {
    if c.actor == "" || (v.launcher != "" && !(v.launcherKind == "mirror" && c.kind != "mirror")) then v
    else
      var follows := v.manager == "" || (v.managerAt.None? && v.manager == v.launcher);
      v.(launcher := c.actor, launcherKind := c.kind, manager := if follows then c.actor else v.manager)
  }

  function ClaimedAll(v: Agent, cs: seq<Claim>): Agent {
    if cs == [] then v else Claimed(ClaimedAll(v, cs[..|cs| - 1]), cs[|cs| - 1])
  }

  function CloseReason(e: Event): string {
    match e.kind
    case LaunchFailed => "launch-failed: " + e.reason
    case Culled => "culled"
    case _ => "stopped: " + e.reason
  }

  function StandingStep(s: Standing, k: Kind): Standing {
    if k.LaunchRequested? || k.LaunchReady? || k.Resume? || k.Fork? then Registered
    else if Mirrors(k) && s.Unregistered? then Mirrored
    else s
  }

  predicate SetsManager(e: Event) { e.kind.Assign? && e.manager != "" }

  predicate SetsLane(e: Event) { e.kind.Assign? && e.lane != "" }

  predicate SetsGroup(e: Event) { e.kind.Assign? && (e.clearGroup || e.group != "") }

  /** Whether an assignment at `at` replaces one made at `previous`. */
  predicate Supersedes(at: int, previous: Option<int>) { previous.None? || previous.value <= at }

  function AssignStep(v: Agent, e: Event): Agent {
    var g := if SetsGroup(e) && (v.grouping.None? || v.grouping.value.at <= e.at)
             then v.(grouping := Some(Grouping(e.group, e.actor, e.at))) else v;
    var l := if SetsLane(e) && Supersedes(e.at, g.laneAt) then g.(lane := e.lane, laneAt := Some(e.at)) else g;
    if SetsManager(e) && Supersedes(e.at, l.managerAt)
    then l.(manager := e.manager, managerSetter := e.actor, managerAt := Some(e.at)) else l
  }

  function Fresh(e: Event): Agent {
    Agent(e.name, e.at, e.at, e.at, None, Unregistered, "", "", None, "", None, "", "", None, "", "", [], [], 0)
  }

  /** Counting and remembering the event, and the span of times seen. */
  function Counted(v: Agent, e: Event): Agent {
    v.(eventCount := v.eventCount + 1,
       events := LastN(v.events + [e], EVENTS_KEPT),
       lastSeen := Max(v.lastSeen, e.at),
       firstSeen := Min(v.firstSeen, e.at),
       incarnation := if e.at < v.firstSeen then e.at else v.incarnation)
  }

  predicate Mirrors(k: Kind) { k.MirrorCreated? || k.MirrorReady? || k.MirrorBatch? }

  /** What the event says about the record. */
  function Told(v: Agent, f: Fact): Agent {
    var e := f.event;
    AssignStep(ClaimedAll(v, f.claims), e).(
      closed := if v.closed.None? && Closes(e.kind) then Some(Ending(e.at, CloseReason(e))) else v.closed,
      standing := StandingStep(v.standing, e.kind),
      parent := if Mirrors(e.kind) && e.parentName != "" then e.parentName else v.parent,
      fromName := if e.kind.Fork? then e.fromName else v.fromName,
      sessions := SessionStep(v.sessions, e))
  }

  /** Folds one event into the incarnation it belongs to. */
  function Absorb(v: Agent, f: Fact): Agent {
    Told(Counted(v, f.event), f)
  }

  /**
   * The event joins the latest incarnation while it is open, or when it only
   * describes an end; else it opens a new one.
   */
  function Place(list: seq<Agent>, f: Fact): seq<Agent> {
    var n := |list|;
    if n > 0 && (list[n - 1].closed.None? || Attaches(f.event.kind))
    then list[..n - 1] + [Absorb(list[n - 1], f)]
    else list + [Absorb(Fresh(f.event), f)]
  }

  // ----- the whole projection

  function Incarnations(s: State, name: string): seq<Agent> {
    if name in s.agents then s.agents[name] else []
  }

  function RequestEvent(s: State, id: string): Option<Event> {
    if id in s.requests then Some(s.requests[id].requested) else None
  }

  /** What a named launch outcome does to the request it answers. */
  function Answered(requests: map<string, Request>, e: Event): map<string, Request> {
    if e.request !in requests then requests
    else
      var r := requests[e.request];
      match e.kind
      case LaunchReady => requests[e.request := r.(state := Ready, name := e.name)]
      case LaunchFailed => requests[e.request := r.(state := Failed, reason := e.reason, name := e.name)]
      case _ => requests
  }

  function ApplyNamed(s: State, e: Event): State {
    s.(agents := s.agents[e.name := Place(Incarnations(s, e.name), Fact(e, Claims(e, RequestEvent(s, e.request))))],
       requests := Answered(s.requests, e))
  }

  function ApplyAll(s: State, es: seq<Event>): State {
    if es == [] then s else ApplyNamed(ApplyAll(s, es[..|es| - 1]), es[|es| - 1])
  }

  /** The per-name events one event stands for: a batch stands for one creation per instance. */
  function Subjects(e: Event): seq<Event> {
    if IsLaneKind(e.kind) then []
    else (if e.kind.MirrorBatch? then Children(e, e.instances) else []) + (if e.name != "" then [e] else [])
  }

  function Children(e: Event, names: seq<string>): seq<Event> {
    if names == [] then []
    else
      var last := names[|names| - 1];
      Children(e, names[..|names| - 1]) + (if last != "" then [Child(e, last)] else [])
  }

  function Child(e: Event, name: string): Event {
    e.(name := name, instances := [], kind := MirrorCreated)
  }

  predicate IsSessionKind(k: Kind) {
    k.SessionObserved? || k.SessionEnded? || k.SessionSuperseded?
  }

  function UnnamedKey(e: Event): string { e.tool + "/" + e.session }

  function UnnamedStep(prior: Option<Session>, e: Event): Session {
    var s := if prior.Some? then prior.value else Session(e.session, "", e.at, None);
    var p := if e.path != "" then s.(path := e.path) else s;
    if !e.kind.SessionObserved? && p.ended.None?
    then p.(ended :=
      Some(Ending(e.at, FirstNonEmpty([e.reason, if e.kind.SessionEnded? then "ended" else "superseded"]))))
    else p
  }

  function LaneStep(lanes: map<string, Lane>, e: Event): map<string, Lane> {
    if e.kind.LaneCreated? then
      (if e.id in lanes then lanes
       else lanes[e.id := Lane(e.id, e.laneName, [], e.lead, e.at, e.at, e.actor)])
    else if e.kind.LaneUpdated? && e.lane in lanes then
      var lane := lanes[e.lane];
      var named := if e.laneName != "" && e.laneName != lane.name
                   then lane.(names := lane.names + [lane.name], name := e.laneName) else lane;
      lanes[e.lane := if e.lead != "" && lane.leadAt <= e.at then named.(lead := e.lead, leadAt := e.at) else named]
    else lanes
  }

  /** Folds one event. */
  function ApplyEvent(s: State, e: Event): State {
    if e.kind.LaunchFailed? && e.name == "" then
      (if e.request in s.requests
       then s.(requests := s.requests[e.request := s.requests[e.request].(state := Failed, reason := e.reason)])
       else s)
    else if IsLaneKind(e.kind) then s.(lanes := LaneStep(s.lanes, e))
    else if e.name == "" && e.session != "" && IsSessionKind(e.kind) then
      var key := UnnamedKey(e);
      s.(unnamed := s.unnamed[key := UnnamedStep(if key in s.unnamed then Some(s.unnamed[key]) else None, e)])
    else if e.kind.LaunchRequested? then
      ApplyAll(s.(requests := s.requests[e.id := Request(e, Requested, e.name, "")]), Subjects(e))
    else ApplyAll(s, Subjects(e))
  }

  /** Folds an event sequence. */
  function Fold(s: State, es: seq<Event>): State {
    if es == [] then s else ApplyEvent(Fold(s, es[..|es| - 1]), es[|es| - 1])
  }

  lemma {:induction false} FoldConcat(s: State, a: seq<Event>, b: seq<Event>)
    ensures Fold(s, a + b) == Fold(Fold(s, a), b)
  {
    if b == [] {
      assert a + b == a;
    } else {
      assert (a + b)[..|a + b| - 1] == a + b[..|b| - 1];
      FoldConcat(s, a, b[..|b| - 1]);
    }
  }

  lemma {:induction false} ApplyAllConcat(s: State, a: seq<Event>, b: seq<Event>)
    ensures ApplyAll(s, a + b) == ApplyAll(ApplyAll(s, a), b)
  {
    if b == [] {
      assert a + b == a;
    } else {
      assert (a + b)[..|a + b| - 1] == a + b[..|b| - 1];
      ApplyAllConcat(s, a, b[..|b| - 1]);
    }
  }

  lemma ApplyAllSnoc(s: State, es: seq<Event>, e: Event)
    ensures ApplyAll(s, es + [e]) == ApplyNamed(ApplyAll(s, es), e)
  {
    assert (es + [e])[..|es|] == es;
  }

  lemma ClaimedFew(v: Agent, a: Claim, b: Claim)
    ensures ClaimedAll(v, []) == v
    ensures ClaimedAll(v, [a]) == Claimed(v, a)
    ensures ClaimedAll(v, [a, b]) == Claimed(Claimed(v, a), b)
  {
    assert [a][..0] == [] && [a, b][..1] == [a];
  }

  /** Attribution touches the launcher and the manager only. */
  lemma {:induction false} ClaimsTouch(v: Agent, cs: seq<Claim>)
    ensures var c := ClaimedAll(v, cs);
      c == v.(launcher := c.launcher, launcherKind := c.launcherKind, manager := c.manager)
  {
    if cs != [] { ClaimsTouch(v, cs[..|cs| - 1]); }
  }

  /** A creation inside a batch is folded like any other named event, and skipped without a name. */
  lemma ChildApplies(s: State, e: Event, names: seq<string>, i: nat)
    requires e.kind.MirrorBatch? && i < |names|
    ensures ApplyEvent(ApplyAll(s, Children(e, names[..i])), Child(e, names[i])) ==
      ApplyAll(s, Children(e, names[..i + 1]))
  {
    var done, child := Children(e, names[..i]), Child(e, names[i]);
    assert names[..i + 1][..i] == names[..i];
    if child.name == "" {
      assert Subjects(child) == [];
      assert Children(e, names[..i + 1]) == done;
    } else {
      assert Subjects(child) == [] + [child];
      ApplyAllSnoc(ApplyAll(s, done), [], child);
      ApplyAllSnoc(s, done, child);
    }
  }

  // ----- the code

  class Projection {
    var agents: map<string, seq<Agent>>
    var requests: map<string, Request>
    var unnamed: map<string, Session>
    var lanes: map<string, Lane>

    ghost function Value(): State
      reads this
    {
      State(agents, requests, unnamed, lanes)
    }

    constructor ()
      ensures Value() == Empty
    {
      agents, requests, unnamed, lanes := map[], map[], map[], map[];
    }

    /** Folds one event in place. */
    method Apply(e: Event)
      modifies this
      ensures Value() == ApplyEvent(old(Value()), e)
      decreases |e.instances|
    {
      hide ApplyNamed, LaneStep, UnnamedStep;
      if e.kind.LaunchRequested? {
        requests := requests[e.id := Request(e, Requested, e.name, "")];
        if e.name == "" { return; }
      }
      if e.kind.LaunchFailed? && e.name == "" {
        if e.request in requests {
          requests := requests[e.request := requests[e.request].(state := Failed, reason := e.reason)];
        }
        return;
      }
      if IsLaneKind(e.kind) {
        ApplyLane(e);
        return;
      }
      if e.kind.MirrorBatch? && |e.instances| > 0 {
        ApplyBatch(e);
        if e.name == "" {
          assert Subjects(e) == Children(e, e.instances);
          return;
        }
      }
      if e.name == "" {
        if e.session != "" && IsSessionKind(e.kind) {
          ApplyUnnamed(e);
        }
        return;
      }
      ghost var before := if e.kind.MirrorBatch? then Children(e, e.instances) else [];
      ghost var s := if e.kind.LaunchRequested? then old(Value()).(requests := requests) else old(Value());
      assert Value() == ApplyAll(s, before);
      ApplyAllSnoc(s, before, e);
      ApplyToRecord(e);
    }

    /** A session seen without a seat name. */
    method ApplyUnnamed(e: Event)
      requires IsSessionKind(e.kind)
      modifies this`unnamed
      ensures var key := UnnamedKey(e);
        unnamed == old(unnamed)[key := UnnamedStep(if key in old(unnamed) then Some(old(unnamed)[key]) else None, e)]
    {
      var key := UnnamedKey(e);
      var view := if key in unnamed then unnamed[key] else Session(e.session, "", e.at, None);
      if e.path != "" { view := view.(path := e.path); }
      if !e.kind.SessionObserved? && view.ended.None? {
        view := view.(ended :=
          Some(Ending(e.at, FirstNonEmpty([e.reason, if e.kind.SessionEnded? then "ended" else "superseded"]))));
      }
      unnamed := unnamed[key := view];
    }

    /** A batch fans out: one creation per instance name. */
    method ApplyBatch(e: Event)
      requires e.kind.MirrorBatch?
      modifies this
      ensures Value() == ApplyAll(old(Value()), Children(e, e.instances))
      decreases |e.instances|, 0
    {
      var i := 0;
      while i < |e.instances|
        invariant 0 <= i <= |e.instances|
        invariant Value() == ApplyAll(old(Value()), Children(e, e.instances[..i]))
      {
        ChildApplies(old(Value()), e, e.instances, i);
        Apply(Child(e, e.instances[i]));
        i := i + 1;
      }
      assert e.instances[..i] == e.instances;
    }

    method ApplyLane(e: Event)
      requires IsLaneKind(e.kind)
      modifies this`lanes
      ensures lanes == LaneStep(old(lanes), e)
    {
      if e.kind.LaneCreated? {
        if e.id !in lanes { lanes := lanes[e.id := Lane(e.id, e.laneName, [], e.lead, e.at, e.at, e.actor)]; }
        return;
      }
      if e.lane !in lanes { return; }
      if e.kind.LaneUpdated? {
        var lane := lanes[e.lane];
        if e.laneName != "" && e.laneName != lane.name {
          lane := lane.(names := lane.names + [lane.name]);
          lane := lane.(name := e.laneName);
        }
        if e.lead != "" && !(e.at < lane.leadAt) { lane := lane.(lead := e.lead, leadAt := e.at); }
        lanes := lanes[e.lane := lane];
      }
    }

    /** Finds or opens the record of a named event and folds the event into it. */
    method ApplyToRecord(e: Event)
      modifies this`agents, this`requests
      ensures Value() == ApplyNamed(old(Value()), e)
    {
      var list := if e.name in agents then agents[e.name] else [];
      var n := |list|;
      var joins := n > 0 && (list[n - 1].closed.None? || Attaches(e.kind));
      var v := if joins then list[n - 1] else Fresh(e);
      var request := if e.request in requests then Some(requests[e.request].requested) else None;
      v := Update(v, e, request);
      agents := agents[e.name := (if joins then list[..n - 1] else list) + [v]];
      if e.kind.LaunchReady? && e.request in requests {
        requests := requests[e.request := requests[e.request].(state := Ready, name := e.name)];
      } else if e.kind.LaunchFailed? && e.request in requests {
        requests := requests[e.request := requests[e.request].(state := Failed, reason := e.reason, name := e.name)];
      }
    }

    static method SetLauncher(v: Agent, actor: string, kind: string) returns (r: Agent)
      ensures r == Claimed(v, Claim(actor, kind))
    {
      if actor == "" { return v; }
      if v.launcher != "" && !(v.launcherKind == "mirror" && kind != "mirror") { return v; }
      var managerFollows := v.manager == "" || (v.managerAt.None? && v.manager == v.launcher);
      r := v.(launcher := actor, launcherKind := kind);
      if managerFollows { r := r.(manager := actor); }
    }

    /** The per-kind switch over one record. */
    static method Update(view: Agent, e: Event, request: Option<Event>) returns (v: Agent)
      ensures v == Absorb(view, Fact(e, Claims(e, request)))
    {
      hide Counted;
      v := Count(view, e);
      ghost var base := v;
      ClaimsTouch(base, Claims(e, request));
      ClaimedFew(base, Claim(e.actor, "mirror"), Claim("", ""));
      match e.kind {
        case LaunchRequested => v := Launch(v, e, request);
        case LaunchReady => v := Launch(v, e, request);
        case Fork => v := Launch(v, e, request);
        case LaunchFailed => v := End(v, e);
        case Culled => v := End(v, e);
        case MirrorStopped => v := End(v, e);
        case Assign => v := AssignTo(v, e);
        case MirrorCreated => v := Mirror(v, e);
        case MirrorReady => v := Mirror(v, e);
        case MirrorBatch => v := Mirror(v, e);
        case Resume => v := Sessions(v, e);
        case SessionObserved => v := Sessions(v, e);
        case SessionEnded => v := Sessions(v, e);
        case SessionSuperseded => v := Sessions(v, e);
        case _ =>
      }
    }

    static method Count(view: Agent, e: Event) returns (v: Agent)
      ensures v == Counted(view, e)
    {
      v := view.(eventCount := view.eventCount + 1, events := view.events + [e]);
      if |v.events| > EVENTS_KEPT { v := v.(events := v.events[|v.events| - EVENTS_KEPT..]); }
      if e.at > v.lastSeen { v := v.(lastSeen := e.at); }
      if e.at < v.firstSeen { v := v.(firstSeen := e.at, incarnation := e.at); }
    }

    static method Launch(view: Agent, e: Event, request: Option<Event>) returns (v: Agent)
      requires e.kind.LaunchRequested? || e.kind.LaunchReady? || e.kind.Fork?
      ensures v == ClaimedAll(view, Claims(e, request)).(
                     standing := Registered,
                     fromName := if e.kind.Fork? then e.fromName else view.fromName,
                     sessions := SessionStep(view.sessions, e))
    {
      ClaimedFew(view, if request.Some? then LaunchClaim(request.value) else LaunchClaim(e), LaunchClaim(e));
      ClaimedFew(view, Claim(e.actor, FirstNonEmpty([e.actorKind, "agent"])), LaunchClaim(e));
      ClaimedFew(view, LaunchClaim(e), LaunchClaim(e));
      v := view;
      match e.kind {
        case LaunchRequested =>
          v := SetLauncher(v, e.actor, FirstNonEmpty([e.launcherKind, e.actorKind, "agent"]));
        case LaunchReady =>
          if request.Some? {
            var q := request.value;
            v := SetLauncher(v, q.actor, FirstNonEmpty([q.launcherKind, q.actorKind, "agent"]));
          }
          v := SetLauncher(v, e.actor, FirstNonEmpty([e.launcherKind, e.actorKind, "agent"]));
          if e.session != "" { v := v.(sessions := OpenSession(v.sessions, e.session, "", e.at)); }
        case Fork =>
          v := SetLauncher(v, e.actor, FirstNonEmpty([e.actorKind, "agent"]));
          v := v.(fromName := e.fromName);
      }
      v := v.(standing := Registered);
    }

    static method End(view: Agent, e: Event) returns (v: Agent)
      requires Closes(e.kind)
      ensures v == view.(closed := if view.closed.None? then Some(Ending(e.at, CloseReason(e))) else view.closed,
                         sessions := SessionStep(view.sessions, e))
    {
      match e.kind {
        case LaunchFailed =>
          v := Close(view, e.at, "launch-failed: " + e.reason);
        case Culled =>
          v := Close(view, e.at, "culled");
          v := v.(sessions := EndNewest(v.sessions, e.at, "culled"));
        case MirrorStopped =>
          v := Close(view, e.at, "stopped: " + e.reason);
          v := v.(sessions := EndNewest(v.sessions, e.at, FirstNonEmpty([e.reason, "stopped"])));
      }
    }

    static method AssignTo(view: Agent, e: Event) returns (v: Agent)
      requires e.kind.Assign?
      ensures v == AssignStep(view, e)
    {
      v := view;
      if (e.clearGroup || e.group != "") && (v.grouping.None? || !(e.at < v.grouping.value.at)) {
        v := v.(grouping := Some(Grouping(e.group, e.actor, e.at)));
      }
      if e.lane != "" && (v.laneAt.None? || !(e.at < v.laneAt.value)) {
        v := v.(lane := e.lane, laneAt := Some(e.at));
      }
      if e.manager != "" && (v.managerAt.None? || !(e.at < v.managerAt.value)) {
        v := v.(manager := e.manager, managerSetter := e.actor, managerAt := Some(e.at));
      }
    }

    static method Sessions(view: Agent, e: Event) returns (v: Agent)
      requires e.kind.Resume? || IsSessionKind(e.kind)
      ensures v == view.(standing := if e.kind.Resume? then Registered else view.standing,
                         sessions := SessionStep(view.sessions, e))
    {
      v := view;
      match e.kind {
        case Resume =>
          v := v.(standing := Registered);
          if e.session == "" || e.session != CurrentSession(v.sessions) {
            var from := FirstNonEmpty([e.fromSession, CurrentSession(v.sessions)]);
            if from != "" { v := v.(sessions := EndNewest(v.sessions, e.at, "resumed")); }
            if e.session != "" { v := v.(sessions := OpenSession(v.sessions, e.session, "", e.at)); }
          }
        case SessionObserved =>
          v := v.(sessions := OpenSession(v.sessions, e.session, e.path, e.at));
        case SessionEnded =>
          var ss := EndNamedSession(v.sessions, e.session, e.at, FirstNonEmpty([e.reason, "ended"]));
          v := v.(sessions := ss);
        case SessionSuperseded =>
          var ss := EndNamedSession(v.sessions, e.session, e.at, FirstNonEmpty([e.reason, "superseded"]));
          v := v.(sessions := ss);
      }
    }

    static method Mirror(view: Agent, e: Event) returns (v: Agent)
      ensures v == Claimed(view, Claim(e.actor, "mirror")).(
                     standing := if view.standing.Unregistered? then Mirrored else view.standing,
                     parent := if e.parentName != "" then e.parentName else view.parent,
                     sessions := MirrorSession(view.sessions, e))
    {
      v := view;
      if v.standing.Unregistered? { v := v.(standing := Mirrored); }
      v := SetLauncher(v, e.actor, "mirror");
      if e.parentName != "" { v := v.(parent := e.parentName); }
      if e.session != "" && (|v.sessions| == 0 || e.session == CurrentSession(v.sessions)) {
        v := v.(sessions := OpenSession(v.sessions, e.session, "", e.at));
      }
    }

    static method Close(v: Agent, at: int, reason: string) returns (r: Agent)
      ensures r == if v.closed.None? then v.(closed := Some(Ending(at, reason))) else v
    {
      r := v;
      if r.closed.None? { r := r.(closed := Some(Ending(at, reason))); }
    }

    /** Ends the session the event names, not whichever is current. */
    static method EndNamedSession(sessions: seq<Session>, id: string, at: int, reason: string)
      returns (ss: seq<Session>)
      ensures ss == EndNamed(sessions, id, at, reason)
    {
      var i := 0;
      while i < |sessions|
        invariant 0 <= i <= |sessions|
        invariant EndNamed(sessions, id, at, reason) == sessions[..i] + EndNamed(sessions[i..], id, at, reason)
      {
        if sessions[i].id == id {
          if sessions[i].ended.None? {
            ss := sessions[i := sessions[i].(ended := Some(Ending(at, reason)))];
          } else {
            ss := sessions;
          }
          return;
        }
        assert sessions[i..] == [sessions[i]] + sessions[i + 1..];
        i := i + 1;
      }
      ss := sessions;
    }
  }
}
