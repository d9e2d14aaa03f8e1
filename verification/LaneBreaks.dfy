/**
 * `Settled` is the exact condition: from a store that keeps the lane rules,
 * every run of commands keeps them if and only if the store is settled. Where
 * it is not, a few commands leave a lane with a lead that is not its member.
 */
module LaneBreaks {
  import opened Common
  import opened Projection
  import opened Roster
  import opened Lanes
  import opened LaneRules

  /** Every run of commands from now on keeps the rules. */
  ghost predicate Safe(env: Env, s: State, now: int) {
    forall ss, cs :: Run(env, ss, cs, now) && ss[0] == s ==>
      LeadsBelong(env, ss[|ss| - 1]) && NamesApart(env, ss[|ss| - 1])
  }

  /** A valid lane name that no lane has. */
  predicate Unused(env: Env, s: State, name: string) {
    Named(env, name) && forall id :: id in s.lanes ==> !SameName(env, s.lanes[id].name, name)
  }

  /** Three lane names still to be had. */
  predicate Spare(env: Env, s: State, a: string, b: string, c: string) {
    && Unused(env, s, a) && Unused(env, s, b) && Unused(env, s, c)
    && !SameName(env, a, b) && !SameName(env, a, c) && !SameName(env, b, c)
  }

  // ----- reaching states

  /** Commands at one clock time lead from s to t. */
  ghost predicate Reach(env: Env, s: State, at: int, t: State) {
    exists ss, cs :: Steps(env, ss, cs, at) && ss[0] == s && ss[|ss| - 1] == t
  }

  ghost predicate Steps(env: Env, ss: seq<State>, cs: seq<Command>, at: int) {
    Run(env, ss, cs, at) && forall i :: 0 <= i < |cs| ==> cs[i].now == at
  }

  lemma ReachSelf(env: Env, s: State, at: int)
    ensures Reach(env, s, at, s)
  {
    var ss, cs: seq<Command> := [s], [];
    assert Steps(env, ss, cs, at);
  }

  lemma ReachNext(env: Env, s: State, at: int, t: State, v: Verb)
    requires Reach(env, s, at, t) && Legal(t, v)
    ensures Reach(env, s, at, Execute(env, t, Command(v, at)))
  {
    hide Execute;
    var ss, cs :| Steps(env, ss, cs, at) && ss[0] == s && ss[|ss| - 1] == t;
    var c := Command(v, at);
    var ts, ds := ss + [Execute(env, t, c)], cs + [c];
    forall i | 0 <= i < |ds|
      ensures Legal(ts[i], ds[i].verb) && ts[i + 1] == Execute(env, ts[i], ds[i]) && ds[i].now == at {
      if i < |cs| { assert ts[i] == ss[i] && ts[i + 1] == ss[i + 1] && ds[i] == cs[i]; }
    }
    assert Steps(env, ts, ds, at);
  }

  /** A reachable state that breaks a rule makes the start unsafe. */
  lemma ReachedBreak(env: Env, s: State, now: int, at: int, t: State)
    requires now <= at && Reach(env, s, at, t) && !LeadsBelong(env, t)
    ensures !Safe(env, s, now)
  {
    hide Execute, LeadsBelong, NamesApart;
    var ss, cs :| Steps(env, ss, cs, at) && ss[0] == s && ss[|ss| - 1] == t;
    assert Run(env, ss, cs, now);
  }

  // ----- unused texts

  /** A text longer than every one of a set. */
  lemma {:induction false} LongerText(avoid: set<string>) returns (x: string)
    ensures x != "" && forall a :: a in avoid ==> |a| < |x|
    decreases |avoid|
  {
    if avoid == {} {
      x := "x";
    } else {
      var a :| a in avoid;
      var y := LongerText(avoid - {a});
      x := y + a;
      forall b | b in avoid ensures |b| < |x| { assert b == a || b in avoid - {a}; }
    }
  }

  /** The texts a roster row is known by. */
  function RowTexts(rows: seq<Seat>): set<string> {
    (set i | 0 <= i < |rows| :: rows[i].name) + (set i | 0 <= i < |rows| :: rows[i].baseName)
  }

  /** A seat outside the roster, without a record. */
  lemma Outsider(env: Env, s: State, other: string) returns (seat: string)
    ensures seat != "" && seat != other && seat !in s.agents && seat !in RowTexts(env.rows)
    ensures SeatName(env.rows, seat) == seat && LaneOf(env, s, seat) == ""
  {
    seat := LongerText(RowTexts(env.rows) + s.agents.Keys + {other});
    RowNamedMeans(env.rows, seat);
    LastWithBaseMeans(env.rows, seat);
    forall i | 0 <= i < |env.rows| ensures env.rows[i].name != seat && env.rows[i].baseName != seat {
      assert env.rows[i].name in RowTexts(env.rows) && env.rows[i].baseName in RowTexts(env.rows);
    }
  }

  lemma FreshLane(s: State, other: string) returns (id: string)
    ensures id != "" && id != other && id !in s.lanes
  {
    id := LongerText(s.lanes.Keys + {other});
  }

  // ----- freeing a seat from a lane it leads

  /** Nothing but an outsider's records changed, and no lane was added or took a name but `spare`. */
  ghost predicate Near(env: Env, s: State, u: State, spare: string) {
    && (forall row :: row in env.rows ==>
         Incarnations(u, row.name) == Incarnations(s, row.name) &&
           Incarnations(u, row.baseName) == Incarnations(s, row.baseName))
    && u.lanes.Keys == s.lanes.Keys
    && (forall id :: id in s.lanes ==> u.lanes[id].name == s.lanes[id].name || u.lanes[id].name == spare)
  }

  /** Some commands leave the seat leading no lane it is in, and every roster record as it was. */
  lemma FreeSeat(env: Env, s: State, at: int, seat: string, spare: string) returns (u: State)
    requires Inv(env, s, at) && Unused(env, s, spare) && RowNamed(env.rows, seat).Some?
    ensures Reach(env, s, at, u) && Near(env, s, u, spare) && Clock(u, at)
    ensures forall id :: !LeavesLead(env, u, seat, id)
  {
    hide ApplyEvent, LaneOf, IsLive, SeatName, Clock, Unused;
    ReachSelf(env, s, at);
    var from := LaneOf(env, s, seat);
    if from == "" || from !in s.lanes || SeatName(env.rows, s.lanes[from].lead) != seat {
      u := s;
    } else {
      var r := RenameSpare(env, s, at, from, spare);
      var z := Outsider(env, r, seat);
      u := ApplyEvent(ApplyEvent(r, Assigned(at, z, from)), Led(at, from, z));
      HandOver(env, r, at, from, z, seat);
      ReachNext(env, s, at, s, RenameVerb(from, spare));
      ReachNext(env, s, at, r, Lead(from, z));
      StaysNear(env, s, r, u, spare);
      RowNamedMeans(env.rows, seat);
      RowsAlike(env, s, u, RowNamed(env.rows, seat).value);
    }
  }

  /** Renaming a lane to an unused name is accepted. */
  lemma RenameSpare(env: Env, s: State, at: int, lane: string, spare: string) returns (r: State)
    requires Inv(env, s, at) && Unused(env, s, spare) && lane in s.lanes
    ensures Rename(env, s, at, lane, spare) == Some(r) && r == Execute(env, s, Command(RenameVerb(lane, spare), at))
    ensures Inv(env, r, at) && Near(env, s, r, spare) && r.lanes[lane].name == spare &&
      r.lanes[lane].lead == s.lanes[lane].lead
    ensures forall id :: id in r.lanes && id != lane ==> !SameName(env, r.lanes[id].name, spare)
  {
    hide ApplyEvent, LaneOf, IsLive, SeatName, Inv;
    assert !NameTaken(env, s, spare, lane);
    r := ApplyEvent(s, Renamed(at, lane, spare));
    RenameKeeps(env, s, at, lane, spare);
    forall o ensures Incarnations(r, o) == Incarnations(s, o) { SameRecords(s, r, o); }
  }

  /** An outsider may take over a lane whose name nobody else has. */
  lemma HandOver(env: Env, r: State, at: int, lane: string, z: string, seat: string)
    requires Clock(r, at) && lane in r.lanes && lane != "" && z != "" && z != seat
    requires z !in r.agents && z !in RowTexts(env.rows) && SeatName(env.rows, z) == z && LaneOf(env, r, z) == ""
    requires forall id :: id in r.lanes && id != lane ==> !SameName(env, r.lanes[id].name, r.lanes[lane].name)
    ensures var u := ApplyEvent(ApplyEvent(r, Assigned(at, z, lane)), Led(at, lane, z));
      && u == Execute(env, r, Command(Lead(lane, z), at)) && Clock(u, at)
      && (forall o :: o != z ==> Incarnations(u, o) == Incarnations(r, o))
      && u.lanes == r.lanes[lane := r.lanes[lane].(lead := z, leadAt := at)]
  {
    hide ApplyEvent, LaneOf, IsLive, SeatName, Clock;
    assert !NameTaken(env, r, r.lanes[lane].name, lane);
    AssignAssigns(r, at, z, lane);
    var m := ApplyEvent(r, Assigned(at, z, lane));
    LaneEventsOnlyTouchLanes(env, m, Led(at, lane, z), at);
    var u := ApplyEvent(m, Led(at, lane, z));
    assert LanesClock(m.lanes, at) by { ClockOfLanes(m, at); }
    LedLanes(m.lanes, at, lane, z);
    forall o ensures Incarnations(u, o) == Incarnations(m, o) { SameRecords(m, u, o); }
  }

  lemma ClockOfLanes(s: State, at: int)
    requires Clock(s, at)
    ensures LanesClock(s.lanes, at)
  {
  }

  lemma StaysNear(env: Env, s: State, r: State, u: State, spare: string)
    requires Near(env, s, r, spare)
    requires forall row :: row in env.rows ==>
      Incarnations(u, row.name) == Incarnations(r, row.name) &&
        Incarnations(u, row.baseName) == Incarnations(r, row.baseName)
    requires u.lanes.Keys == r.lanes.Keys && forall id :: id in r.lanes ==> u.lanes[id].name == r.lanes[id].name
    ensures Near(env, s, u, spare)
  {
  }

  /** Roster rows whose records are as before keep their lanes, and what they read. */
  lemma RowsAlike(env: Env, s: State, u: State, row: Seat)
    requires row in env.rows && Incarnations(u, row.name) == Incarnations(s, row.name) &&
      Incarnations(u, row.baseName) == Incarnations(s, row.baseName)
    ensures RowLane(env.rows, u, row) == RowLane(env.rows, s, row) && Borrows(env, u, row) == Borrows(env, s, row)
  {
  }

  /** An unused name but the spent one is still unused. */
  lemma StillUnused(env: Env, s: State, u: State, spare: string, name: string)
    requires Near(env, s, u, spare) && Unused(env, s, name) && !SameName(env, spare, name)
    ensures Unused(env, u, name)
  {
  }

  // ----- a row that does not read the record its assignments land in

  /** The new lane's lead is not its member. */
  lemma UnseenAssignment(env: Env, u: State, at: int, row: Seat, id: string, name: string)
    requires Clock(u, at) && row in env.rows && row.name != "" && RowNamed(env.rows, row.name) == Some(row)
    requires !Reads(row, Incarnations(u, row.name), at)
    requires id != "" && id !in u.lanes && id != RowLane(env.rows, u, row)
    requires NewLane(env, u, at, id, name, row.name).Some?
    ensures var t := NewLane(env, u, at, id, name, row.name).value;
      id in t.lanes && t.lanes[id].lead == row.name && LaneOf(env, t, row.name) != id
  {
    hide ApplyEvent, IsLive, Clock, Reads, RowLane, Borrows, Follows;
    SeatOfRow(env, row);
    var e := Created(id, at, name, row.name);
    var m := ApplyEvent(u, e);
    LaneEventsOnlyTouchLanes(env, u, e, at);
    SameRecords(u, m, row.name);
    AssignAssigns(m, at, row.name, id);
    var t := ApplyEvent(m, Assigned(at, row.name, id));
    RowFollows(env.rows, m, t, at, row.name, id, row);
  }

  lemma SeatOfRow(env: Env, row: Seat)
    requires row in env.rows
    ensures SeatName(env.rows, row.name) == row.name
  {
    var i :| 0 <= i < |env.rows| && env.rows[i] == row;
  }

  /** Freeing the row's seat and giving it a new lane breaks a rule. */
  lemma StaleRowBreaks(env: Env, s: State, at: int, row: Seat, a: string, b: string) returns (t: State)
    requires Inv(env, s, at) && row in env.rows && row.name != "" && RowNamed(env.rows, row.name) == Some(row)
    requires !Reads(row, Incarnations(s, row.name), at)
    requires Unused(env, s, a) && Unused(env, s, b) && !SameName(env, a, b)
    ensures Reach(env, s, at, t) && !LeadsBelong(env, t)
  {
    hide ApplyEvent, IsLive, Clock, Reads, RowLane, Borrows, Inv, LeavesLead, LaneOf;
    var u := FreeSeat(env, s, at, row.name, a);
    RowsAlike(env, s, u, row);
    StillUnused(env, s, u, a, b);
    var id := FreshLane(u, RowLane(env.rows, u, row));
    NewLaneAccepted(env, u, at, id, b, row);
    UnseenAssignment(env, u, at, row, id, b);
    ReachNext(env, s, at, u, New(id, b, row.name));
    t := Execute(env, u, Command(New(id, b, row.name), at));
  }

  lemma NewLaneAccepted(env: Env, u: State, at: int, id: string, name: string, row: Seat)
    requires row in env.rows && row.name != "" && Unused(env, u, name) && !LeavesLead(env, u, row.name, id)
    ensures NewLane(env, u, at, id, name, row.name).Some?
  {
    hide ApplyEvent, IsLive, LeavesLead;
    SeatOfRow(env, row);
  }

  // ----- a row that shows another seat's lane

  /** Following the other seat into a new lane, leading it, and being left there breaks a rule. */
  lemma BorrowerBreaks(env: Env, s: State, at: int, row: Seat, a: string, b: string, c: string) returns (t: State)
    requires Inv(env, s, at) && row in env.rows && row.name != "" && RowNamed(env.rows, row.name) == Some(row)
    requires Borrows(env, s, row) && (row.created.Some? ==> row.created.value <= at) && Spare(env, s, a, b, c)
    ensures Reach(env, s, at, t) && !LeadsBelong(env, t)
  {
    hide ApplyEvent, IsLive, Clock, RowLane, Inv, LeavesLead, LaneOf, Unused, Follows, Reads, CanRead, NewLane;
    var q := RowNamed(env.rows, row.baseName).value;
    RowNamedMeans(env.rows, row.baseName);
    var u := FreeSeat(env, s, at, q.name, a);
    RowsAlike(env, s, u, row);
    StillUnused(env, s, u, a, b);
    StillUnused(env, s, u, a, c);
    var x := FreshLane(u, "");
    NewLaneAccepted(env, u, at, x, b, q);
    var v := NewLane(env, u, at, x, b, q.name).value;
    ReachNext(env, s, at, u, New(x, b, q.name));
    BorrowerFollows(env, u, at, x, b, q, row);
    UnusedAfter(env, u, v, x, b, c);
    if LeadsBelong(env, v) { t := LeaveBorrower(env, s, v, at, x, q, row, c); } else { t := v; }
  }

  /** The borrower leads the lane it shows, and the other seat leaves. */
  lemma LeaveBorrower(env: Env, s: State, v: State, at: int, x: string, q: Seat, row: Seat, c: string)
    returns (t: State)
    requires Reach(env, s, at, v) && Clock(v, at) && LeadsBelong(env, v) && x in v.lanes &&
      v.lanes[x].lead == q.name != row.name
    requires row in env.rows && row.name != "" && RowNamed(env.rows, row.name) == Some(row) &&
      RowLane(env.rows, v, row) == x
    requires q in env.rows && q.name == row.baseName != "" && Borrows(env, v, row) &&
      (row.created.Some? ==> row.created.value <= at)
    requires Unused(env, v, c)
    ensures Reach(env, s, at, t) && !LeadsBelong(env, t)
  {
    hide ApplyEvent, IsLive, Clock, RowLane, LeavesLead, LaneOf, Unused, NewLane, Borrows, Reach, LeadsBelong;
    var w := ApplyEvent(v, Led(at, x, row.name));
    FollowerLeads(env, v, at, x, q, row);
    ReachNext(env, s, at, v, Lead(x, row.name));
    SameNamesUnused(env, v, w, c);
    var z := FreshLane(w, x);
    NewLaneAccepted(env, w, at, z, c, q);
    ReachNext(env, s, at, w, New(z, c, q.name));
    BorrowerFollows(env, w, at, z, c, q, row);
    t := NewLane(env, w, at, z, c, q.name).value;
    LeftBehind(env, w, t, x, z, row);
  }

  lemma SameNamesUnused(env: Env, v: State, w: State, c: string)
    requires Unused(env, v, c) && w.lanes.Keys == v.lanes.Keys && forall id :: id in v.lanes ==>
      w.lanes[id].name == v.lanes[id].name
    ensures Unused(env, w, c)
  {
  }

  lemma UnusedAfter(env: Env, u: State, w: State, x: string, b: string, c: string)
    requires Unused(env, u, c) && !SameName(env, b, c) && w.lanes.Keys == u.lanes.Keys + {x} && w.lanes[x].name == b
    requires forall id :: id in u.lanes ==> w.lanes[id].name == u.lanes[id].name
    ensures Unused(env, w, c)
  {
  }

  /** A borrower follows the other seat into its new lane, and still borrows. */
  lemma BorrowerFollows(env: Env, u: State, at: int, id: string, name: string, q: Seat, row: Seat)
    requires Clock(u, at) && id != "" && id !in u.lanes && q in env.rows && q.name == row.baseName && row in env.rows
    requires Borrows(env, u, row) && (row.created.Some? ==> row.created.value <= at)
    requires NewLane(env, u, at, id, name, q.name).Some?
    ensures var t := NewLane(env, u, at, id, name, q.name).value;
      && RowLane(env.rows, t, row) == id && Borrows(env, t, row) && Clock(t, at)
      && t.lanes.Keys == u.lanes.Keys + {id} && t.lanes[id].name == name && t.lanes[id].lead == q.name
      && forall o :: o in u.lanes ==> t.lanes[o] == u.lanes[o]
  {
    hide ApplyEvent, IsLive, Clock, LeavesLead, Follows;
    SeatOfRow(env, q);
    var e := Created(id, at, name, q.name);
    var m := ApplyEvent(u, e);
    LaneEventsOnlyTouchLanes(env, u, e, at);
    SameRecords(u, m, q.name);
    SameRecords(u, m, row.name);
    AssignAssigns(m, at, q.name, id);
    var t := ApplyEvent(m, Assigned(at, q.name, id));
    AssignSeen(row, Incarnations(m, q.name), Incarnations(t, q.name), at, id);
    ReadsStay(row, Incarnations(m, q.name), Incarnations(t, q.name), at, id);
  }

  /** The borrower may take the lead of the lane it shows, while the other seat stays there. */
  lemma FollowerLeads(env: Env, v: State, at: int, x: string, q: Seat, row: Seat)
    requires Clock(v, at) && LeadsBelong(env, v) && x in v.lanes && v.lanes[x].lead == q.name != row.name
    requires row in env.rows && row.name != "" && RowNamed(env.rows, row.name) == Some(row) &&
      RowLane(env.rows, v, row) == x
    requires Borrows(env, v, row)
    ensures var w := ApplyEvent(v, Led(at, x, row.name));
      && w == Execute(env, v, Command(Lead(x, row.name), at)) && Clock(w, at)
      && w.lanes == v.lanes[x := v.lanes[x].(lead := row.name, leadAt := at)]
      && Borrows(env, w, row) && forall id :: !LeavesLead(env, w, q.name, id)
  {
    hide ApplyEvent, IsLive, Clock, RowLane, Borrows;
    SeatOfRow(env, row);
    var w := ApplyEvent(v, Led(at, x, row.name));
    LaneEventsOnlyTouchLanes(env, v, Led(at, x, row.name), at);
    ClockOfLanes(v, at);
    LedLanes(v.lanes, at, x, row.name);
    SameRow(env, v, w, row);
    assert LaneOf(env, w, q.name) == x;
  }

  lemma LeftBehind(env: Env, w: State, t: State, x: string, z: string, row: Seat)
    requires x in w.lanes && w.lanes[x].lead == row.name && x in t.lanes && t.lanes[x] == w.lanes[x] && x != z
    requires RowNamed(env.rows, row.name) == Some(row) && RowLane(env.rows, t, row) == z
    ensures !LeadsBelong(env, t)
  {
    hide RowLane;
    assert LaneOf(env, t, row.name) == z;
  }

  // ----- the exact condition

  lemma UnsettledIsUnsafe(env: Env, s: State, now: int, a: string, b: string, c: string)
    requires Inv(env, s, now) && !Settled(env, s, now) && Spare(env, s, a, b, c)
    ensures !Safe(env, s, now)
  {
    hide Inv, Reads, Borrows, Safe, Reach, LeadsBelong;
    var row :| row in env.rows && row.name != "" && RowNamed(env.rows, row.name) == Some(row)
      && !(Reads(row, Incarnations(s, row.name), now) && !Borrows(env, s, row));
    if !Reads(row, Incarnations(s, row.name), now) {
      var t := StaleRowBreaks(env, s, now, row, a, b);
      ReachedBreak(env, s, now, now, t);
    } else {
      var at := if row.created.Some? then Max(now, row.created.value) else now;
      ClockAdvances(env, s, now, at);
      var t := BorrowerBreaks(env, s, at, row, a, b, c);
      ReachedBreak(env, s, now, at, t);
    }
  }

  /**
   * From a store that keeps the rules, and while three lane names can still be
   * had, every run of commands from now on keeps them if and only if the store
   * is settled.
   */
  lemma SafeExactlyWhenSettled(env: Env, s: State, now: int, a: string, b: string, c: string)
    requires Inv(env, s, now) && Spare(env, s, a, b, c)
    ensures Safe(env, s, now) <==> Settled(env, s, now)
  {
    hide Inv, Spare, Execute, LeadsBelong, NamesApart;
    if Settled(env, s, now) {
      hide Settled;
      forall ss, cs | Run(env, ss, cs, now) && ss[0] == s
        ensures LeadsBelong(env, ss[|ss| - 1]) && NamesApart(env, ss[|ss| - 1]) {
        LaneRulesHold(env, ss, cs, now, |ss| - 1);
      }
    } else {
      UnsettledIsUnsafe(env, s, now, a, b, c);
    }
  }

  /**
   * The unrecorded end: a seat began again at 10 with a new session, and its
   * one record, from 5, was never closed. A new lane led by that seat is
   * accepted, and its lead is not a member of it.
   */
  lemma UnrecordedEndExample(env: Env, v: Agent, row: Seat)
    requires env.rows == [row] && Named(env, "x") && row.name == "a" == row.baseName && row.created == Some(10) &&
      row.session == "new"
    requires v.firstSeen == 5 && v.closed.None? && v.laneAt.None? && v.lane == "" &&
      v.sessions == [Session("old", "", 5, None)]
    ensures var s := State(map["a" := [v]], map[], map[], map[]);
      && Inv(env, s, 30) && !Settled(env, s, 30)
      && NewLane(env, s, 30, "L", "x", "a").Some?
      && !LeadsBelong(env, NewLane(env, s, 30, "L", "x", "a").value)
  {
    hide ApplyEvent;
    var s := State(map["a" := [v]], map[], map[], map[]);
    assert env.rows[0] == row;
    assert Incarnations(s, "a") == [v];
    UnseenAssignment(env, s, 30, row, "L", "x");
  }
}
