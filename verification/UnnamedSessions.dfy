/**
 * Sessions seen without a seat name: after any events, the record of each key
 * is told by that key's sightings alone, and an ending never changes.
 */
module UnnamedSessions {
  import opened Common
  import opened Events
  import opened Projection

  /** The event sights the session of a key, and names no seat. */
  predicate Sights(e: Event, key: string) {
    e.name == "" && e.session != "" && IsSessionKind(e.kind) && UnnamedKey(e) == key
  }

  /** The sightings of a key, in order. */
  function Sightings(es: seq<Event>, key: string): seq<Event> {
    if es == [] then []
    else
      var init, e := Sightings(es[..|es| - 1], key), es[|es| - 1];
      if Sights(e, key) then init + [e] else init
  }

  /** The last path given. */
  ghost predicate TellsPath(path: string, g: seq<Event>) {
    && (forall i :: 0 <= i < |g| && g[i].path != "" && (forall j :: i < j < |g| ==> g[j].path == "") ==>
         path == g[i].path)
    && ((forall i :: 0 <= i < |g| ==> g[i].path == "") ==> path == "")
  }

  /** The first ending. */
  ghost predicate TellsEnd(ended: Option<Ending>, g: seq<Event>) {
    && (forall i :: 0 <= i < |g| && FirstEnding(g, i) ==> ended == Some(EndedBy(g[i])))
    && ((forall i :: 0 <= i < |g| ==> g[i].kind.SessionObserved?) ==> ended.None?)
  }

  /** The record says: the first sighting's session and time, the last path given, and the first ending. */
  ghost predicate Tells(v: Session, g: seq<Event>) {
    g != [] && v.id == g[0].session && v.started == g[0].at && TellsPath(v.path, g) && TellsEnd(v.ended, g)
  }

  /** The ending an event gives: its own reason, or what its kind says. */
  function EndedBy(e: Event): Ending {
    Ending(e.at, if e.reason != "" then e.reason else if e.kind.SessionEnded? then "ended" else "superseded")
  }

  predicate FirstEnding(g: seq<Event>, i: nat)
    requires i < |g|
  {
    !g[i].kind.SessionObserved? && forall j :: 0 <= j < i ==> g[j].kind.SessionObserved?
  }

  /** Sightings that are not all observations have a first ending. */
  lemma {:induction false} SomeFirstEnding(g: seq<Event>)
    ensures (forall i :: 0 <= i < |g| ==> g[i].kind.SessionObserved?) || exists i :: 0 <= i < |g| && FirstEnding(g, i)
  {
    if g != [] {
      var init := g[..|g| - 1];
      SomeFirstEnding(init);
      if i :| 0 <= i < |init| && FirstEnding(init, i) {
        assert FirstEnding(g, i);
      } else {
        assert forall j :: 0 <= j < |init| ==> g[j] == init[j];
        assert !g[|g| - 1].kind.SessionObserved? ==> FirstEnding(g, |g| - 1);
      }
    }
  }

  lemma ReasonOf(e: Event)
    ensures FirstNonEmpty([e.reason, if e.kind.SessionEnded? then "ended" else "superseded"]) ==
      if e.reason != "" then e.reason else if e.kind.SessionEnded? then "ended" else "superseded"
  {
  }

  lemma PathTells(path: string, g: seq<Event>, e: Event)
    requires TellsPath(path, g)
    ensures TellsPath(if e.path != "" then e.path else path, g + [e])
  {
    var h, now, n := g + [e], if e.path != "" then e.path else path, |g|;
    assert h[n] == e && forall i :: 0 <= i < n ==> h[i] == g[i];
    if e.path == "" && forall i :: 0 <= i < |h| ==> h[i].path == "" {
      forall i | 0 <= i < n ensures g[i].path == "" { assert h[i] == g[i]; }
    }
  }

  lemma EndTells(ended: Option<Ending>, g: seq<Event>, e: Event)
    requires TellsEnd(ended, g)
    ensures TellsEnd(if !e.kind.SessionObserved? && ended.None? then Some(EndedBy(e)) else ended, g + [e])
  {
    var h, now, n := g + [e], if !e.kind.SessionObserved? && ended.None? then Some(EndedBy(e)) else ended, |g|;
    SomeFirstEnding(g);
    assert h[n] == e;
    forall i | 0 <= i < |h| && FirstEnding(h, i) ensures now == Some(EndedBy(h[i])) {
      if i < n { assert FirstEnding(g, i) by { assert forall j :: 0 <= j <= i ==> h[j] == g[j]; } }
      if i == n { assert forall j :: 0 <= j < n ==> g[j] == h[j]; }
    }
    if forall i :: 0 <= i < |h| ==> h[i].kind.SessionObserved? {
      assert e.kind.SessionObserved? && forall i :: 0 <= i < n ==> g[i] == h[i];
    }
  }

  /** One more sighting tells one more event. */
  lemma SightingTells(v: Session, g: seq<Event>, e: Event)
    requires Tells(v, g) && IsSessionKind(e.kind)
    ensures Tells(UnnamedStep(Some(v), e), g + [e])
    ensures v.ended.Some? ==> UnnamedStep(Some(v), e).ended == v.ended
  {
    hide TellsPath, TellsEnd;
    ReasonOf(e);
    PathTells(v.path, g, e);
    EndTells(v.ended, g, e);
  }

  lemma FirstSightingTells(e: Event)
    requires IsSessionKind(e.kind)
    ensures Tells(UnnamedStep(None, e), [e])
  {
    ReasonOf(e);
  }

  lemma {:induction false} NamedKeepsUnnamed(s: State, es: seq<Event>)
    ensures ApplyAll(s, es).unnamed == s.unnamed
  {
    hide Place;
    if es != [] { NamedKeepsUnnamed(s, es[..|es| - 1]); }
  }

  /** An event changes the record of the key it sights, and no other. */
  lemma EventSights(s: State, e: Event, key: string)
    ensures var t := ApplyEvent(s, e); var prior := if key in s.unnamed then Some(s.unnamed[key]) else None;
      if Sights(e, key) then key in t.unnamed && t.unnamed[key] == UnnamedStep(prior, e)
      else (key in t.unnamed <==> key in s.unnamed) && (key in s.unnamed ==> t.unnamed[key] == s.unnamed[key])
  {
    hide UnnamedStep, LaneStep, ApplyAll, Subjects;
    NamedKeepsUnnamed(s, Subjects(e));
    NamedKeepsUnnamed(s.(requests := s.requests[e.id := Request(e, Requested, e.name, "")]), Subjects(e));
  }

  lemma SightingsSnoc(es: seq<Event>, e: Event, key: string)
    ensures Sightings(es + [e], key) == if Sights(e, key) then Sightings(es, key) + [e] else Sightings(es, key)
  {
    assert (es + [e])[..|es|] == es;
  }

  /** After any events a key has a record exactly when it was sighted, and the record is told by its sightings. */
  lemma {:induction false} UnnamedIsHistory(es: seq<Event>, key: string)
    ensures var s := Fold(Empty, es);
      (key in s.unnamed <==> Sightings(es, key) != []) &&
        (key in s.unnamed ==> Tells(s.unnamed[key], Sightings(es, key)))
  {
    hide ApplyEvent, Tells, UnnamedStep;
    if es != [] {
      var init, e := es[..|es| - 1], es[|es| - 1];
      UnnamedIsHistory(init, key);
      assert es == init + [e];
      SightingsSnoc(init, e, key);
      var s := Fold(Empty, init);
      EventSights(s, e, key);
      if Sights(e, key) {
        if key in s.unnamed {
          SightingTells(s.unnamed[key], Sightings(init, key), e);
        } else {
          FirstSightingTells(e);
          assert Sightings(init, key) + [e] == [e];
        }
      }
    }
  }

  /** Whatever events follow, a sighted session keeps its id and start, and any ending it had. */
  lemma {:induction false} UnnamedEndsForever(a: seq<Event>, b: seq<Event>, key: string)
    requires key in Fold(Empty, a).unnamed
    ensures key in Fold(Empty, a + b).unnamed
    ensures var v, w := Fold(Empty, a).unnamed[key], Fold(Empty, a + b).unnamed[key];
      v.id == w.id && v.started == w.started && (v.ended.Some? ==> w.ended == v.ended)
    decreases |b|
  {
    hide ApplyEvent;
    if b == [] {
      assert a + b == a;
    } else {
      var init, e := b[..|b| - 1], b[|b| - 1];
      UnnamedEndsForever(a, init, key);
      assert (a + b)[..|a + b| - 1] == a + init && (a + b)[|a + b| - 1] == e;
      EventSights(Fold(Empty, a + init), e, key);
    }
  }
}
