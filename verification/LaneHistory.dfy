/**
 * Lanes, told from the events: a lane exists exactly when it was created, its
 * lead is the latest one given, and it keeps every name it had, in order.
 */
module LaneHistory {
  import opened Events
  import opened Projection

  predicate Creates(e: Event, id: string) { e.kind.LaneCreated? && e.id == id }

  predicate Updates(e: Event, id: string) { e.kind.LaneUpdated? && e.lane == id }

  /** What the events say about a lane: its first creation, and the updates after it. */
  function About(es: seq<Event>, id: string): seq<Event> {
    if es == [] then []
    else
      var g, e := About(es[..|es| - 1], id), es[|es| - 1];
      if (g == [] && Creates(e, id)) || (g != [] && Updates(e, id)) then g + [e] else g
  }

  /** The names given, the creation's first. */
  function Given(g: seq<Event>): seq<string> {
    if g == [] then []
    else
      var init, e := Given(g[..|g| - 1]), g[|g| - 1];
      if |g| == 1 || e.laneName != "" then init + [e.laneName] else init
  }

  /** A sequence of names without a name repeated right after itself. */
  function Collapse(names: seq<string>): seq<string> {
    if names == [] then []
    else
      var init, n := Collapse(names[..|names| - 1]), names[|names| - 1];
      if init != [] && init[|init| - 1] == n then init else init + [n]
  }

  /** Whether an event gives the lane a lead: its creation does, and an update that names one. */
  predicate GivesLead(g: seq<Event>, i: nat)
    requires i < |g|
  {
    i == 0 || g[i].lead != ""
  }

  /** Event i gave the lead last: at the greatest time, and as the last of those. */
  ghost predicate LatestLead(g: seq<Event>, i: nat) {
    && i < |g| && GivesLead(g, i)
    && forall j :: 0 <= j < |g| && GivesLead(g, j) ==> g[j].at <= g[i].at && (i < j ==> g[j].at < g[i].at)
  }

  ghost predicate Tells(lane: Lane, id: string, g: seq<Event>) {
    && g != [] && lane.id == id && lane.created == g[0].at && lane.creator == g[0].actor
    && lane.names + [lane.name] == Collapse(Given(g))
    && exists i: nat :: LatestLead(g, i) && lane.lead == g[i].lead && lane.leadAt == g[i].at
  }

  /** What Collapse keeps: the last name, every name, and no name right after itself. */
  lemma {:induction false} CollapseMeans(names: seq<string>)
    ensures var r := Collapse(names);
      && (forall k :: 0 < k < |r| ==> r[k] != r[k - 1])
      && (r == [] <==> names == []) && (names != [] ==> r[|r| - 1] == names[|names| - 1])
      && forall n :: n in r <==> n in names
  {
    if names != [] {
      CollapseMeans(names[..|names| - 1]);
      assert names == names[..|names| - 1] + [names[|names| - 1]];
    }
  }

  lemma CreatedTells(e: Event, id: string)
    requires Creates(e, id)
    ensures Tells(Lane(id, e.laneName, [], e.lead, e.at, e.at, e.actor), id, [e])
  {
    var g := [e];
    assert g[..0] == [] && Given(g) == [e.laneName] && [e.laneName][..0] == [];
    assert LatestLead(g, 0);
  }

  lemma NamesNext(names: seq<string>, name: string, g: seq<Event>, e: Event)
    requires g != [] && names + [name] == Collapse(Given(g))
    ensures var changes := e.laneName != "" && e.laneName != name;
      Collapse(Given(g + [e])) == if changes then names + [name] + [e.laneName] else names + [name]
  {
    var h, given := g + [e], Given(g);
    assert h[..|g|] == g && h[|g|] == e;
    if e.laneName != "" {
      assert (given + [e.laneName])[..|given|] == given;
      assert (names + [name])[|names|] == name;
    }
  }

  lemma LeadNext(g: seq<Event>, e: Event, i: nat)
    requires LatestLead(g, i)
    ensures LatestLead(g + [e], if e.lead != "" && g[i].at <= e.at then |g| else i)
  {
    var h := g + [e];
    assert forall j :: 0 <= j < |g| ==> h[j] == g[j] && (GivesLead(h, j) <==> GivesLead(g, j));
  }

  /** An update of a lane that tells its events tells one more. */
  lemma UpdateTells(lanes: map<string, Lane>, id: string, g: seq<Event>, e: Event)
    requires id in lanes && Tells(lanes[id], id, g) && Updates(e, id)
    ensures id in LaneStep(lanes, e) && Tells(LaneStep(lanes, e)[id], id, g + [e])
  {
    hide Collapse, Given;
    var lane := lanes[id];
    NamesNext(lane.names, lane.name, g, e);
    var i: nat :| LatestLead(g, i) && lane.lead == g[i].lead && lane.leadAt == g[i].at;
    LeadNext(g, e, i);
    var h := g + [e];
    assert h[0] == g[0] && h[i] == g[i] && h[|g|] == e;
  }

  lemma {:induction false} NamedKeepsLanes(s: State, es: seq<Event>)
    ensures ApplyAll(s, es).lanes == s.lanes
  {
    hide Place;
    if es != [] { NamedKeepsLanes(s, es[..|es| - 1]); }
  }

  /** Only lane events change lanes. */
  lemma EventLanes(s: State, e: Event)
    ensures ApplyEvent(s, e).lanes == if IsLaneKind(e.kind) then LaneStep(s.lanes, e) else s.lanes
  {
    hide ApplyAll, Subjects, LaneStep, UnnamedStep;
    NamedKeepsLanes(s, Subjects(e));
    NamedKeepsLanes(s.(requests := s.requests[e.id := Request(e, Requested, e.name, "")]), Subjects(e));
  }

  lemma AboutSnoc(es: seq<Event>, e: Event, id: string)
    ensures var g := About(es, id);
      About(es + [e], id) == if (g == [] && Creates(e, id)) || (g != [] && Updates(e, id)) then g + [e] else g
  {
    assert (es + [e])[..|es|] == es;
  }

  /** One event keeps every lane told. */
  lemma StepTells(lanes: map<string, Lane>, es: seq<Event>, e: Event, id: string)
    requires id in lanes <==> About(es, id) != []
    requires id in lanes ==> Tells(lanes[id], id, About(es, id))
    ensures var next := if IsLaneKind(e.kind) then LaneStep(lanes, e) else lanes; var g := About(es + [e], id);
      (id in next <==> g != []) && (id in next ==> Tells(next[id], id, g))
  {
    hide Tells, About;
    AboutSnoc(es, e, id);
    if id in lanes {
      if Updates(e, id) { UpdateTells(lanes, id, About(es, id), e); }
    } else if Creates(e, id) {
      CreatedTells(e, id);
      assert About(es, id) + [e] == [e];
    }
  }

  /** After any events a lane exists exactly when it was created, and its record is told by the events about it. */
  lemma {:induction false} LanesAreHistory(es: seq<Event>, id: string)
    ensures var lanes := Fold(Empty, es).lanes;
      && (id in lanes <==> About(es, id) != []) && (id in lanes ==> Tells(lanes[id], id, About(es, id)))
    ensures About(es, id) != [] <==> exists i :: 0 <= i < |es| && Creates(es[i], id)
  {
    hide ApplyEvent, Tells, LaneStep, Creates;
    if es != [] {
      var init, e := es[..|es| - 1], es[|es| - 1];
      LanesAreHistory(init, id);
      assert es == init + [e];
      AboutSnoc(init, e, id);
      EventLanes(Fold(Empty, init), e);
      StepTells(Fold(Empty, init).lanes, init, e, id);
      if Creates(e, id) { assert Creates(es[|es| - 1], id); }
      if i :| 0 <= i < |init| && Creates(init[i], id) { assert Creates(es[i], id); }
    }
  }
}
