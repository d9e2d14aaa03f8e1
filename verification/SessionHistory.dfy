/**
 * The sessions of a life, told from its events. The events fall into
 * stretches: a stretch begins with an event that offers a session other than
 * the one before. Each stretch is one session, with the last path observed in
 * it, and with its first ending or else the beginning of the next stretch.
 */
module SessionHistory {
  import opened Common
  import opened Events
  import opened Projection

  /** The session an event says is the seat's, if it says one. */
  function Offer(e: Event): Option<string> {
    if e.kind.SessionObserved? then Some(e.session)
    else if (e.kind.LaunchReady? || e.kind.Resume? || Mirrors(e.kind)) && e.session != "" then Some(e.session)
    else None
  }

  datatype Stretch = Stretch(first: Event, rest: seq<Event>)

  function Id(st: Stretch): string { if Offer(st.first).Some? then Offer(st.first).value else "" }

  /** After a session of that id, the event begins another; a mirror never does. */
  predicate Begins(e: Event, id: string) {
    Offer(e).Some? && Offer(e).value != id && !Mirrors(e.kind)
  }

  /** The stretches of a life, oldest first. What precedes the first offer belongs to none. */
  function Stretches(es: seq<Event>): seq<Stretch> {
    if es == [] then []
    else
      var r, e := Stretches(es[..|es| - 1]), es[|es| - 1];
      if r == [] then (if Offer(e).Some? then [Stretch(e, [])] else [])
      else
        var last := r[|r| - 1];
        if Begins(e, Id(last)) then r + [Stretch(e, [])]
        else r[..|r| - 1] + [last.(rest := last.rest + [e])]
  }

  /** The ending an event gives an open session of that id. */
  function EndedBy(e: Event, id: string): Option<Ending> {
    match e.kind
    case Culled => Some(Ending(e.at, "culled"))
    case MirrorStopped => Some(Ending(e.at, if e.reason != "" then e.reason else "stopped"))
    case Resume =>
      if e.session == "" && (e.fromSession != "" || id != "") then Some(Ending(e.at, "resumed")) else None
    case SessionEnded => if e.session == id then Some(Ending(e.at, if e.reason != "" then e.reason else "ended"))
      else None
    case SessionSuperseded =>
      if e.session == id then Some(Ending(e.at, if e.reason != "" then e.reason else "superseded")) else None
    case _ => None
  }

  /** The first ending among some events. */
  function FirstEnd(es: seq<Event>, id: string): Option<Ending> {
    if es == [] then None
    else
      var earlier := FirstEnd(es[..|es| - 1], id);
      if earlier.Some? then earlier else EndedBy(es[|es| - 1], id)
  }

  /** The first ending is given by an event before which none gives one. */
  lemma {:induction false} FirstEndMeans(es: seq<Event>, id: string)
    ensures FirstEnd(es, id).None? ==> forall i :: 0 <= i < |es| ==> EndedBy(es[i], id).None?
    ensures FirstEnd(es, id).Some? ==>
      exists i :: 0 <= i < |es| && EndedBy(es[i], id) == FirstEnd(es, id) &&
        forall j :: 0 <= j < i ==> EndedBy(es[j], id).None?
  {
    if es != [] {
      var init := es[..|es| - 1];
      FirstEndMeans(init, id);
      assert forall j :: 0 <= j < |init| ==> init[j] == es[j];
    }
  }

  /** The last path observed. */
  function LastPath(first: Event, rest: seq<Event>): string {
    if rest == [] then (if first.kind.SessionObserved? then first.path else "")
    else
      var e := rest[|rest| - 1];
      if e.kind.SessionObserved? && e.path != "" then e.path else LastPath(first, rest[..|rest| - 1])
  }

  /** The next stretch ends a session that is still open. */
  function ReplacedBy(e: Event, id: string): Ending {
    Ending(e.at, if e.kind.Resume? && (e.fromSession != "" || id != "") then "resumed" else "superseded")
  }

  function Told(st: Stretch, next: Option<Event>): Session {
    var id := Id(st);
    var ended := FirstEnd(st.rest, id);
    Session(id, LastPath(st.first, st.rest), st.first.at,
            if ended.Some? || next.None? then ended else Some(ReplacedBy(next.value, id)))
  }

  /** The sessions of some stretches, newest first; `next` begins what follows them. */
  function Newest(sts: seq<Stretch>, next: Option<Event>): seq<Session> {
    if sts == [] then []
    else
      var last := sts[|sts| - 1];
      [Told(last, next)] + Newest(sts[..|sts| - 1], Some(last.first))
  }

  /** The sessions of a life, newest first. */
  function Sessions(es: seq<Event>): seq<Session> { Newest(Stretches(es), None) }

  // ----- one more event

  lemma FirstOf(a: string, b: string)
    ensures FirstNonEmpty([a, b]) == if a != "" then a else b
  {
    assert [a, b][1..] == [b];
    assert FirstNonEmpty([b]) == b;
  }

  lemma {:induction false} OlderEnded(sts: seq<Stretch>, next: Event)
    ensures forall i :: 0 <= i < |Newest(sts, Some(next))| ==> Newest(sts, Some(next))[i].ended.Some?
  {
    if sts != [] { OlderEnded(sts[..|sts| - 1], sts[|sts| - 1].first); }
  }

  /** Ending a session by name changes nothing once all have ended. */
  lemma {:induction false} EndedStay(ss: seq<Session>, id: string, at: int, reason: string)
    requires forall i :: 0 <= i < |ss| ==> ss[i].ended.Some?
    ensures EndNamed(ss, id, at, reason) == ss
  {
    if ss != [] && ss[0].id != id {
      EndedStay(ss[1..], id, at, reason);
      assert ss == [ss[0]] + ss[1..];
    }
  }

  lemma NamedEnds(ss: seq<Session>, id: string, at: int, reason: string)
    requires ss != [] && forall i :: 1 <= i < |ss| ==> ss[i].ended.Some?
    ensures EndNamed(ss, id, at, reason) == if ss[0].id == id then EndNewest(ss, at, reason) else ss
  {
    EndedStay(ss[1..], id, at, reason);
    assert ss == [ss[0]] + ss[1..];
  }

  /** What an event that begins no other session does to the newest one. */
  function Touched(s: Session, e: Event): Session {
    var p := if e.kind.SessionObserved? && e.path != "" then s.(path := e.path) else s;
    if s.ended.None? then p.(ended := EndedBy(e, s.id)) else p
  }

  lemma ResumeStays(ss: seq<Session>, e: Event)
    requires ss != [] && e.kind.Resume? && !Begins(e, ss[0].id)
    ensures SessionStep(ss, e) == [Touched(ss[0], e)] + ss[1..]
  {
    hide EndNamed, MirrorSession, FirstNonEmpty;
    FirstOf(e.fromSession, CurrentSession(ss));
    assert ss == [ss[0]] + ss[1..];
  }

  lemma EndingStays(ss: seq<Session>, e: Event)
    requires ss != [] && (e.kind.SessionEnded? || e.kind.SessionSuperseded? || e.kind.MirrorStopped? || e.kind.Culled?)
    requires forall i :: 1 <= i < |ss| ==> ss[i].ended.Some?
    ensures SessionStep(ss, e) == [Touched(ss[0], e)] + ss[1..]
  {
    hide EndNamed, MirrorSession, OpenSession, FirstNonEmpty;
    var word := if e.kind.SessionEnded? then "ended" else if e.kind.SessionSuperseded? then "superseded" else "stopped";
    FirstOf(e.reason, word);
    NamedEnds(ss, e.session, e.at, FirstNonEmpty([e.reason, word]));
    assert ss == [ss[0]] + ss[1..];
  }

  lemma StaysTouched(ss: seq<Session>, e: Event)
    requires ss != [] && !Begins(e, ss[0].id) && forall i :: 1 <= i < |ss| ==> ss[i].ended.Some?
    ensures SessionStep(ss, e) == [Touched(ss[0], e)] + ss[1..]
  {
    hide EndNamed, EndNewest, FirstNonEmpty;
    if e.kind.Resume? {
      ResumeStays(ss, e);
    } else if e.kind.SessionEnded? || e.kind.SessionSuperseded? || e.kind.MirrorStopped? || e.kind.Culled? {
      EndingStays(ss, e);
    } else {
      assert ss == [ss[0]] + ss[1..];
    }
  }

  lemma BeginsPushes(ss: seq<Session>, e: Event)
    requires ss != [] && Begins(e, ss[0].id)
    ensures var s, path := ss[0], if e.kind.SessionObserved? then e.path else "";
      SessionStep(ss, e) ==
        [Session(e.session, path, e.at, None)] +
          [if s.ended.None? then s.(ended := Some(ReplacedBy(e, s.id))) else s] + ss[1..]
  {
    var s, older := ss[0], ss[1..];
    assert ss == [s] + older;
    FirstOf(e.fromSession, CurrentSession(ss));
  }

  lemma FirstOffer(e: Event)
    ensures SessionStep([], e) ==
      if Offer(e).Some? then [Session(e.session, if e.kind.SessionObserved? then e.path else "", e.at, None)] else []
  {
    FirstOf(e.fromSession, "");
  }

  /** One more event in a stretch touches its session. */
  lemma ToldTouched(st: Stretch, e: Event)
    requires Offer(st.first).Some?
    ensures Told(st.(rest := st.rest + [e]), None) == Touched(Told(st, None), e)
  {
    assert (st.rest + [e])[..|st.rest|] == st.rest;
  }

  lemma {:induction false} StretchesOffer(es: seq<Event>)
    ensures forall i :: 0 <= i < |Stretches(es)| ==> Offer(Stretches(es)[i].first).Some?
  {
    if es != [] { StretchesOffer(es[..|es| - 1]); }
  }

  lemma StretchesSnoc(es: seq<Event>, e: Event)
    ensures var r := Stretches(es);
      Stretches(es + [e]) ==
        if r == [] then (if Offer(e).Some? then [Stretch(e, [])] else [])
        else if Begins(e, Id(r[|r| - 1])) then r + [Stretch(e, [])]
        else r[..|r| - 1] + [r[|r| - 1].(rest := r[|r| - 1].rest + [e])]
  {
    assert (es + [e])[..|es|] == es;
  }

  lemma NewestSnoc(sts: seq<Stretch>, st: Stretch, next: Option<Event>)
    ensures Newest(sts + [st], next) == [Told(st, next)] + Newest(sts, Some(st.first))
  {
    assert (sts + [st])[..|sts|] == sts;
  }

  /** The told sessions step as the code's do: one more event tells the next list. */
  lemma SessionsStep(es: seq<Event>, e: Event)
    ensures Sessions(es + [e]) == SessionStep(Sessions(es), e)
  {
    hide SessionStep, Told, Touched, Stretches;
    var r := Stretches(es);
    StretchesSnoc(es, e);
    StretchesOffer(es);
    if r == [] {
      FirstOffer(e);
      if Offer(e).Some? { FreshTold(e); NewestSnoc([], Stretch(e, []), None); }
    } else {
      var init, last := r[..|r| - 1], r[|r| - 1];
      assert r == init + [last];
      NewestSnoc(init, last, None);
      ToldId(last);
      if Begins(e, Id(last)) {
        BeginsPushes(Sessions(es), e);
        FreshTold(e);
        NewestSnoc(r, Stretch(e, []), None);
        NewestSnoc(init, last, Some(e));
        ToldReplaced(last, e);
      } else {
        OlderEnded(init, last.first);
        StaysTouched(Sessions(es), e);
        ToldTouched(last, e);
        NewestSnoc(init, last.(rest := last.rest + [e]), None);
      }
    }
  }

  lemma ToldId(st: Stretch)
    ensures Told(st, None).id == Id(st)
  {
  }

  lemma ToldReplaced(st: Stretch, e: Event)
    ensures var s := Told(st, None);
      Told(st, Some(e)) == if s.ended.None? then s.(ended := Some(ReplacedBy(e, s.id))) else s
  {
  }

  lemma FreshTold(e: Event)
    requires Offer(e).Some?
    ensures Told(Stretch(e, []), None) == Session(e.session, if e.kind.SessionObserved? then e.path else "", e.at, None)
  {
  }
}
