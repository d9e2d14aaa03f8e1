/**
 * What the lane commands keep over whole runs: every lane's lead is a member
 * of that lane, and no two lanes with live members share a case-folded name.
 * A roster row may read another record than the one assignments to its name
 * land in; `Settled` says when none does, and every command keeps it.
 */
module LaneRules {
  import opened Common
  import opened Events
  import opened Projection
  import opened Roster
  import opened Lanes

  // ----- the rules

  ghost predicate RecordsClock(list: seq<Agent>, now: int) {
    forall k :: 0 <= k < |list| ==> list[k].firstSeen <= now && (list[k].laneAt.Some? ==> list[k].laneAt.value <= now)
  }

  ghost predicate LanesClock(lanes: map<string, Lane>, now: int) {
    forall id :: id in lanes ==> lanes[id].leadAt <= now
  }

  /** No record begins, and no lane or lead was set, after now. */
  ghost predicate Clock(s: State, now: int) {
    (forall name :: RecordsClock(Incarnations(s, name), now)) && LanesClock(s.lanes, now)
  }

  /** Every lane's lead is a member of that lane, under its one identity. */
  ghost predicate LeadsBelong(env: Env, s: State) {
    forall id :: id in s.lanes ==>
      var lead := s.lanes[id].lead;
      id != "" && lead != "" && LaneOf(env, s, lead) == id && SeatName(env.rows, lead) == lead
  }

  /** No two lanes with live members share a case-folded name. */
  ghost predicate NamesApart(env: Env, s: State) {
    forall a, b :: a in s.lanes && b in s.lanes && a != b && IsLive(env, s, a) && IsLive(env, s, b) ==>
      !SameName(env, s.lanes[a].name, s.lanes[b].name)
  }

  ghost predicate Inv(env: Env, s: State, now: int) {
    Clock(s, now) && LeadsBelong(env, s) && NamesApart(env, s)
  }

  // ----- which record a row reads

  predicate IsOpen(list: seq<Agent>) { list != [] && list[|list| - 1].closed.None? }

  /** The incarnations an assignment leaves alone. */
  function Older(list: seq<Agent>): seq<Agent> { if IsOpen(list) then list[..|list| - 1] else list }

  predicate AllClosed(list: seq<Agent>, created: int) {
    forall k :: 0 <= k < |list| ==> list[k].closed.Some? && list[k].closed.value.at < created
  }

  /** An open record is the row's: it began no earlier, or holds the row's session. */
  predicate Fits(v: Agent, created: int, session: string) {
    created <= v.firstSeen || (session != "" && CurrentSession(v.sessions) == session)
  }

  /** Once its time has come, the row reads the record an assignment lands in. */
  predicate CanRead(row: Seat, list: seq<Agent>) {
    row.created.None? ||
    (AllClosed(Older(list), row.created.value) &&
      (IsOpen(list) ==> Fits(list[|list| - 1], row.created.value, row.session)))
  }

  /** The row reads the record an assignment made now lands in. */
  predicate Reads(row: Seat, list: seq<Agent>, now: int) {
    CanRead(row, list) && (row.created.Some? && !IsOpen(list) ==> row.created.value <= now)
  }

  /**
   * The row shows, for want of a lane of its own, that of a base name which is
   * itself a seat and can still be moved.
   */
  predicate Borrows(env: Env, s: State, row: Seat) {
    var owner := ByUniqueBase(env.rows, row.baseName);
    && owner.Some? && owner.value.name == row.name && row.baseName != row.name && row.baseName != ""
    && RecordLane(RecordFor(s, row.name, row)) == ""
    && RowNamed(env.rows, row.baseName).Some?
    && CanRead(row, Incarnations(s, row.baseName))
  }

  /** Every roster seat reads the record its assignments land in, and no record another seat's land in. */
  predicate Settled(env: Env, s: State, now: int) {
    forall row :: row in env.rows && row.name != "" && RowNamed(env.rows, row.name) == Some(row) ==>
      Reads(row, Incarnations(s, row.name), now) && !Borrows(env, s, row)
  }

  // ----- one assignment, on one name's records

  /** r is list after an assignment at `at` to `lane`. */
  ghost predicate Follows(list: seq<Agent>, r: seq<Agent>, at: int, lane: string) {
    && |r| == |Older(list)| + 1 && r[..|r| - 1] == Older(list)
    && var w := r[|r| - 1];
      && w.lane == lane && w.laneAt == Some(at) && w.closed.None? && w.firstSeen <= at
      && (if IsOpen(list) then w.firstSeen == list[|list| - 1].firstSeen && w.sessions == list[|list| - 1].sessions
          else w.firstSeen == at && w.sessions == [])
  }

  lemma AbsorbedAssign(v: Agent, f: Fact)
    requires f.event.kind.Assign? && f.event.lane != "" && f.claims == [] &&
      (v.laneAt.Some? ==> v.laneAt.value <= f.event.at)
    ensures var w := Absorb(v, f);
      w.lane == f.event.lane && w.laneAt == Some(f.event.at) && w.closed == v.closed && w.sessions == v.sessions
      && w.firstSeen == Min(v.firstSeen, f.event.at)
  {
  }

  lemma PlacedFollows(list: seq<Agent>, f: Fact)
    requires f.event.kind.Assign? && f.event.lane != "" && f.claims == [] && RecordsClock(list, f.event.at)
    ensures Follows(list, Place(list, f), f.event.at, f.event.lane)
  {
    hide Absorb;
    AbsorbedAssign(Fresh(f.event), f);
    if list != [] { AbsorbedAssign(list[|list| - 1], f); }
  }

  /** Records closed before the row began are passed over; the first other one decides. */
  lemma {:induction false} PickPasses(list: seq<Agent>, tail: seq<Agent>, created: int, session: string)
    ensures NotClosedBefore(list + tail, created, session) ==
      if AllClosed(list, created) then NotClosedBefore(tail, created, session)
        else NotClosedBefore(list, created, session)
  {
    if list == [] {
      assert list + tail == tail;
    } else {
      assert (list + tail)[1..] == list[1..] + tail;
      PickPasses(list[1..], tail, created, session);
      assert AllClosed(list, created) <==>
        list[0].closed.Some? && list[0].closed.value.at < created && AllClosed(list[1..], created) by {
        assert list == [list[0]] + list[1..];
      }
    }
  }

  /** An assignment shows in a row's record exactly when the row reads the record it lands in. */
  lemma AssignSeen(row: Seat, list: seq<Agent>, r: seq<Agent>, at: int, lane: string)
    requires Follows(list, r, at, lane)
    ensures RecordLane(RecordIn(r, row)) == if Reads(row, list, at) then lane else RecordLane(RecordIn(list, row))
  {
    if row.created.Some? {
      var c, w := row.created.value, r[|r| - 1];
      assert r == Older(list) + [w];
      PickPasses(Older(list), [w], c, row.session);
      PickPasses(Older(list), if IsOpen(list) then [list[|list| - 1]] else [], c, row.session);
      assert list == Older(list) + (if IsOpen(list) then [list[|list| - 1]] else []);
    }
  }

  /** A row that reads its record keeps reading it, and one that never will never does. */
  lemma ReadsStay(row: Seat, list: seq<Agent>, r: seq<Agent>, at: int, lane: string)
    requires Follows(list, r, at, lane)
    ensures Reads(row, list, at) ==> Reads(row, r, at)
    ensures !CanRead(row, list) ==> !CanRead(row, r)
  {
    assert IsOpen(r) && Older(r) == Older(list);
  }

  // ----- one assignment, on the whole store

  lemma AssignIsNamed(s: State, e: Event)
    requires e.kind.Assign? && e.name != ""
    ensures ApplyEvent(s, e) == ApplyNamed(s, e)
  {
    hide ApplyNamed, ApplyAll, UnnamedStep, LaneStep;
    assert Subjects(e) == [e];
    ApplyOne(s, e);
  }

  lemma ApplyOne(s: State, e: Event)
    ensures ApplyAll(s, [e]) == ApplyNamed(s, e)
  {
    hide ApplyNamed;
    assert [] + [e] == [e];
    ApplyAllSnoc(s, [], e);
  }

  lemma AssignRelists(s: State, t: State, e: Event)
    requires e.kind.Assign? && t == ApplyNamed(s, e)
    ensures t.lanes == s.lanes && t.agents == s.agents[e.name := Place(Incarnations(s, e.name), Fact(e, []))]
  {
    hide Place;
  }

  /** t is s after an assignment at `at` of the seat to the lane. */
  ghost predicate Assigns(s: State, t: State, at: int, seat: string, lane: string) {
    && t.lanes == s.lanes && Follows(Incarnations(s, seat), Incarnations(t, seat), at, lane)
    && forall o :: o != seat ==> Incarnations(t, o) == Incarnations(s, o)
  }

  lemma AssignAssigns(s: State, now: int, seat: string, lane: string)
    requires seat != "" && lane != "" && Clock(s, now)
    ensures var t := ApplyEvent(s, Assigned(now, seat, lane)); Assigns(s, t, now, seat, lane) && Clock(t, now)
  {
    hide ApplyEvent, ApplyNamed, Place;
    var e := Assigned(now, seat, lane);
    AssignIsNamed(s, e);
    AssignRelists(s, ApplyEvent(s, e), e);
    PlacedFollows(Incarnations(s, seat), Fact(e, []));
    AssignsClock(s, ApplyEvent(s, e), now, seat, lane);
  }

  lemma AssignsClock(s: State, t: State, now: int, seat: string, lane: string)
    requires Clock(s, now) && Assigns(s, t, now, seat, lane)
    ensures Clock(t, now)
  {
    forall name ensures RecordsClock(Incarnations(t, name), now) {
      var list, r := Incarnations(s, name), Incarnations(t, name);
      assert RecordsClock(list, now);
      if name == seat {
        forall k | 0 <= k < |r| - 1 ensures r[k] == list[k] { assert r[k] == Older(list)[k]; }
      }
    }
  }

  /** Whatever a row reads, an assignment moves it to the assigned lane or not at all. */
  lemma RowFollows(rows: seq<Seat>, s: State, t: State, at: int, seat: string, lane: string, row: Seat)
    requires Assigns(s, t, at, seat, lane) && lane != ""
    ensures RowLane(rows, t, row) == lane || RowLane(rows, t, row) == RowLane(rows, s, row)
    ensures row.name == seat && Reads(row, Incarnations(s, seat), at) ==> RowLane(rows, t, row) == lane
    ensures row.name == seat && !Reads(row, Incarnations(s, seat), at) && row.baseName != seat ==>
      RowLane(rows, t, row) == RowLane(rows, s, row)
    ensures row.name == seat == row.baseName && !Reads(row, Incarnations(s, seat), at) ==>
      RowLane(rows, t, row) == RowLane(rows, s, row)
  {
    hide Reads;
    AssignSeen(row, Incarnations(s, seat), Incarnations(t, seat), at, lane);
  }

  /** A seat that neither has the name nor borrows from it stays where it is. */
  lemma OthersStay(env: Env, s: State, t: State, at: int, seat: string, lane: string, row: Seat)
    requires Assigns(s, t, at, seat, lane) && lane != "" && seat != "" && SeatName(env.rows, seat) == seat
    requires row in env.rows && row.name != seat && !Borrows(env, s, row)
    ensures RowLane(env.rows, t, row) == RowLane(env.rows, s, row)
    ensures !Borrows(env, t, row)
  {
    RowNamedMeans(env.rows, row.baseName);
    if row.baseName == seat {
      var list, r := Incarnations(s, seat), Incarnations(t, seat);
      AssignSeen(row, list, r, at, lane);
      ReadsStay(row, list, r, at, lane);
      SeatIsRow(env.rows, seat);
    }
  }

  /** A seat that is a base name of one row is a row's name, or that row's. */
  lemma SeatIsRow(rows: seq<Seat>, seat: string)
    requires SeatName(rows, seat) == seat
    ensures var owner := ByUniqueBase(rows, seat);
      owner.Some? && owner.value.name != seat ==> RowNamed(rows, seat).Some?
  {
    RowNamedMeans(rows, seat);
  }

  lemma {:induction false} RowNamedMeans(rows: seq<Seat>, name: string)
    ensures RowNamed(rows, name).Some? ==> RowNamed(rows, name).value in rows && RowNamed(rows, name).value.name == name
    ensures RowNamed(rows, name).None? <==> forall i :: 0 <= i < |rows| ==> rows[i].name != name
  {
    if rows != [] {
      RowNamedMeans(rows[1..], name);
      assert rows == [rows[0]] + rows[1..];
    }
  }

  /** From s to t the seat goes to the lane, and no other seat moves. */
  ghost predicate Seated(env: Env, s: State, t: State, seat: string, lane: string) {
    LaneOf(env, t, seat) == lane && forall o :: o != "" && o != seat ==> LaneOf(env, t, o) == LaneOf(env, s, o)
  }

  /** From s to t no row goes anywhere but to the lane. */
  ghost predicate Toward(env: Env, s: State, t: State, lane: string) {
    forall row :: row in env.rows ==>
      RowLane(env.rows, t, row) == lane || RowLane(env.rows, t, row) == RowLane(env.rows, s, row)
  }

  /** On any store an assignment moves rows to its lane alone. */
  lemma AssignToward(env: Env, s: State, t: State, at: int, seat: string, lane: string)
    requires Assigns(s, t, at, seat, lane) && lane != ""
    ensures Toward(env, s, t, lane)
  {
    hide RowLane, Assigns;
    forall row | row in env.rows
      ensures RowLane(env.rows, t, row) == lane || RowLane(env.rows, t, row) == RowLane(env.rows, s, row) {
      RowFollows(env.rows, s, t, at, seat, lane, row);
    }
  }

  /**
   * On a settled store an assignment puts the seat in the lane and moves no
   * other seat, and the store stays settled.
   */
  lemma AssignLands(env: Env, s: State, t: State, at: int, seat: string, lane: string)
    requires Assigns(s, t, at, seat, lane) && lane != "" && seat != "" && SeatName(env.rows, seat) == seat &&
      Settled(env, s, at)
    ensures Seated(env, s, t, seat, lane) && Settled(env, t, at)
  {
    hide RowLane, Borrows;
    SeatLands(env, s, t, at, seat, lane);
    forall o | o != "" && o != seat ensures LaneOf(env, t, o) == LaneOf(env, s, o) {
      RowNamedMeans(env.rows, o);
      var row := RowNamed(env.rows, o);
      if row.Some? { OthersStay(env, s, t, at, seat, lane, row.value); }
    }
    forall row | row in env.rows && row.name != "" && RowNamed(env.rows, row.name) == Some(row)
      ensures Reads(row, Incarnations(t, row.name), at) && !Borrows(env, t, row)
    {
      if row.name == seat {
        ReadsStay(row, Incarnations(s, seat), Incarnations(t, seat), at, lane);
        OwnLaneBorrowsNot(env, s, t, at, seat, lane, row);
      } else {
        OthersStay(env, s, t, at, seat, lane, row);
      }
    }
  }

  lemma SeatLands(env: Env, s: State, t: State, at: int, seat: string, lane: string)
    requires Assigns(s, t, at, seat, lane) && lane != "" && seat != "" && Settled(env, s, at)
    ensures LaneOf(env, t, seat) == lane
  {
    hide RowLane, Borrows;
    RowNamedMeans(env.rows, seat);
    var row := RowNamed(env.rows, seat);
    if row.Some? { RowFollows(env.rows, s, t, at, seat, lane, row.value); }
  }

  lemma OwnLaneBorrowsNot(env: Env, s: State, t: State, at: int, seat: string, lane: string, row: Seat)
    requires Assigns(s, t, at, seat, lane) && lane != "" && row.name == seat && Reads(row, Incarnations(s, seat), at)
    ensures !Borrows(env, t, row)
  {
    hide Reads;
    AssignSeen(row, Incarnations(s, seat), Incarnations(t, seat), at, lane);
  }

  // ----- lane events

  /** From s to t every seat and every roster row keeps its lane. */
  ghost predicate SameSeats(env: Env, s: State, t: State) {
    && (forall o :: LaneOf(env, t, o) == LaneOf(env, s, o))
    && (forall row :: row in env.rows ==> RowLane(env.rows, t, row) == RowLane(env.rows, s, row))
  }

  /** Views read agent records alone. */
  lemma SameReading(env: Env, s: State, t: State, now: int)
    requires t.agents == s.agents
    ensures SameSeats(env, s, t) && (Settled(env, s, now) ==> Settled(env, t, now))
  {
    hide RowLane, LatestLane, Borrows, Reads;
    forall row: Seat ensures RowLane(env.rows, t, row) == RowLane(env.rows, s, row) { SameRow(env, s, t, row); }
    forall seat ensures LatestLane(t, seat) == LatestLane(s, seat) && Incarnations(t, seat) == Incarnations(s, seat) {
      SameRecords(s, t, seat);
    }
    forall row: Seat ensures Borrows(env, t, row) == Borrows(env, s, row) { SameRow(env, s, t, row); }
  }

  lemma SameRecords(s: State, t: State, seat: string)
    requires t.agents == s.agents
    ensures LatestLane(t, seat) == LatestLane(s, seat) && Incarnations(t, seat) == Incarnations(s, seat)
  {
  }

  lemma SameRow(env: Env, s: State, t: State, row: Seat)
    requires t.agents == s.agents
    ensures RowLane(env.rows, t, row) == RowLane(env.rows, s, row) && Borrows(env, t, row) == Borrows(env, s, row)
  {
  }

  /** A lane event changes lanes alone. */
  lemma LaneEventsOnlyTouchLanes(env: Env, s: State, e: Event, now: int)
    requires IsLaneKind(e.kind) && Clock(s, now) && e.at <= now
    ensures var t := ApplyEvent(s, e);
      t.lanes == LaneStep(s.lanes, e) && t.agents == s.agents && SameSeats(env, s, t) && Clock(t, now)
      && (Settled(env, s, now) ==> Settled(env, t, now))
  {
    hide LaneStep, Settled;
    LaneStepClock(s.lanes, e, now);
    SameReading(env, s, ApplyEvent(s, e), now);
    SameClock(s, ApplyEvent(s, e), now);
  }

  lemma SameClock(s: State, t: State, now: int)
    requires t.agents == s.agents && Clock(s, now) && LanesClock(t.lanes, now)
    ensures Clock(t, now)
  {
    forall name ensures RecordsClock(Incarnations(t, name), now) {
      assert RecordsClock(Incarnations(s, name), now);
    }
  }

  lemma LaneStepClock(lanes: map<string, Lane>, e: Event, now: int)
    requires LanesClock(lanes, now) && e.at <= now
    ensures LanesClock(LaneStep(lanes, e), now)
  {
  }

  // ----- names

  lemma OwnerIsRow(rows: seq<Seat>, i: nat)
    requires i < |rows|
    ensures Owner(rows, rows[i]) in rows
  {
    LastWithBaseMeans(rows, rows[i].parentName);
  }

  /** When rows only go to one lane, no other lane becomes live. */
  lemma OthersStayDormant(env: Env, s: State, t: State, lane: string, id: string)
    requires Toward(env, s, t, lane) && id != lane && id in s.lanes && IsLive(env, t, id)
    ensures IsLive(env, s, id)
  {
    hide RowLane;
    var i :| 0 <= i < |env.rows| && RowLane(env.rows, t, Owner(env.rows, env.rows[i])) == id;
    OwnerIsRow(env.rows, i);
    assert RowLane(env.rows, s, Owner(env.rows, env.rows[i])) == id;
  }

  /**
   * Moving rows to one lane, or none, keeps names apart when that lane's name
   * is free and the other lanes are as before.
   */
  lemma NamesStayApart(env: Env, s: State, t: State, lane: string, except: string)
    requires NamesApart(env, s) && Toward(env, s, t, lane) && lane in t.lanes
    requires !NameTaken(env, s, t.lanes[lane].name, except) && (except == lane || except !in s.lanes)
    requires forall id :: id in t.lanes && id != lane ==> id in s.lanes && t.lanes[id] == s.lanes[id]
    ensures NamesApart(env, t)
  {
    forall a, b | a in t.lanes && b in t.lanes && a != b && IsLive(env, t, a) && IsLive(env, t, b)
      ensures !SameName(env, t.lanes[a].name, t.lanes[b].name)
    {
      if a != lane { OthersStayDormant(env, s, t, lane, a); }
      if b != lane { OthersStayDormant(env, s, t, lane, b); }
    }
  }

  /** With no seat moved and no name changed, names stay apart. */
  lemma NamesUnchanged(env: Env, s: State, t: State)
    requires NamesApart(env, s) && SameSeats(env, s, t) && t.lanes.Keys == s.lanes.Keys
    requires forall id :: id in s.lanes ==> t.lanes[id].name == s.lanes[id].name
    ensures NamesApart(env, t)
  {
    forall id | id in t.lanes && IsLive(env, t, id) ensures IsLive(env, s, id) {
      var i :| 0 <= i < |env.rows| && RowLane(env.rows, t, Owner(env.rows, env.rows[i])) == id;
      OwnerIsRow(env.rows, i);
      assert RowLane(env.rows, s, Owner(env.rows, env.rows[i])) == id;
    }
  }

  /** A seat's identity is its own: naming it again changes nothing. */
  lemma SeatNameStable(rows: seq<Seat>, name: string)
    ensures SeatName(rows, SeatName(rows, name)) == SeatName(rows, name)
  {
    var r := ByUniqueBase(rows, name);
    if r.Some? {
      LastWithBaseMeans(rows, name);
      var i :| 0 <= i < |rows| && rows[i] == r.value;
    }
  }

  // ----- the commands

  /** Moving a seat that leads nothing else into a lane whose name is free keeps every rule. */
  lemma AssignKeeps(env: Env, s: State, now: int, seat: string, lane: string)
    requires Inv(env, s, now) && Settled(env, s, now) && seat != "" && SeatName(env.rows, seat) == seat &&
      lane in s.lanes
    requires !LeavesLead(env, s, seat, lane) && !NameTaken(env, s, s.lanes[lane].name, lane)
    ensures var t := ApplyEvent(s, Assigned(now, seat, lane));
      Inv(env, t, now) && Settled(env, t, now) && t.lanes == s.lanes && Seated(env, s, t, seat, lane)
  {
    hide ApplyEvent, Clock, LaneOf, SeatName, IsLive, Settled, Toward, Follows;
    AssignAssigns(s, now, seat, lane);
    var t := ApplyEvent(s, Assigned(now, seat, lane));
    AssignLands(env, s, t, now, seat, lane);
    AssignToward(env, s, t, now, seat, lane);
    NamesStayApart(env, s, t, lane, lane);
  }

  /** A permitted new lane keeps every rule, and its lead is in it. */
  lemma NewLaneKeeps(env: Env, s: State, now: int, id: string, name: string, leadArg: string)
    requires Inv(env, s, now) && Settled(env, s, now) && id != "" && id !in s.lanes
    requires NewLane(env, s, now, id, name, leadArg).Some?
    ensures var t := NewLane(env, s, now, id, name, leadArg).value;
      Inv(env, t, now) && Settled(env, t, now) && Seated(env, s, t, SeatName(env.rows, leadArg), id)
      && t.lanes.Keys == s.lanes.Keys + {id} && t.lanes[id].name == name &&
           t.lanes[id].lead == SeatName(env.rows, leadArg)
  {
    hide ApplyEvent, Clock, LaneOf, SeatName, IsLive, Settled, RowLane, Follows;
    var lead := SeatName(env.rows, leadArg);
    SeatNameStable(env.rows, leadArg);
    var e := Created(id, now, name, lead);
    var u := ApplyEvent(s, e);
    LaneEventsOnlyTouchLanes(env, s, e, now);
    AssignAssigns(u, now, lead, id);
    var t := ApplyEvent(u, Assigned(now, lead, id));
    AssignLands(env, u, t, now, lead, id);
    AssignToward(env, u, t, now, lead, id);
    assert Seated(env, s, t, lead, id);
    assert Toward(env, s, t, id);
    assert "" !in s.lanes;
    NamesStayApart(env, s, t, id, "");
  }

  lemma RenameKeeps(env: Env, s: State, now: int, lane: string, name: string)
    requires Inv(env, s, now) && lane in s.lanes && Rename(env, s, now, lane, name).Some?
    ensures var t := Rename(env, s, now, lane, name).value;
      && Inv(env, t, now) && (Settled(env, s, now) ==> Settled(env, t, now)) && SameSeats(env, s, t) &&
           t.agents == s.agents
      && t.lanes == s.lanes[lane := t.lanes[lane]] && t.lanes[lane].name == name &&
           t.lanes[lane].lead == s.lanes[lane].lead
  {
    hide ApplyEvent, Clock, LaneOf, SeatName, IsLive, Settled, RowLane;
    var e := Renamed(now, lane, name);
    LaneEventsOnlyTouchLanes(env, s, e, now);
    var t := ApplyEvent(s, e);
    assert Toward(env, s, t, lane);
    NamesStayApart(env, s, t, lane, lane);
  }

  /** Giving a lane a lead that is already in it. */
  lemma LedKeeps(env: Env, s: State, now: int, lane: string, seat: string)
    requires Inv(env, s, now) && lane in s.lanes && seat != "" && LaneOf(env, s, seat) == lane &&
      SeatName(env.rows, seat) == seat
    ensures var t := ApplyEvent(s, Led(now, lane, seat));
      && Inv(env, t, now) && (Settled(env, s, now) ==> Settled(env, t, now)) && SameSeats(env, s, t) &&
           t.agents == s.agents
      && t.lanes == s.lanes[lane := s.lanes[lane].(lead := seat, leadAt := now)]
  {
    hide ApplyEvent, LaneOf, SeatName, IsLive, Settled, RowLane;
    var e := Led(now, lane, seat);
    LaneEventsOnlyTouchLanes(env, s, e, now);
    LedLanes(s.lanes, now, lane, seat);
    NamesUnchanged(env, s, ApplyEvent(s, e));
  }

  /** A clock that never goes back lets the new lead replace the recorded one. */
  lemma LedLanes(lanes: map<string, Lane>, now: int, lane: string, seat: string)
    requires LanesClock(lanes, now) && lane in lanes && seat != ""
    ensures LaneStep(lanes, Led(now, lane, seat)) == lanes[lane := lanes[lane].(lead := seat, leadAt := now)]
  {
  }

  lemma SetLeadKeeps(env: Env, s: State, now: int, lane: string, seatArg: string)
    requires Inv(env, s, now) && Settled(env, s, now) && lane in s.lanes && SetLead(env, s, now, lane, seatArg).Some?
    ensures var t := SetLead(env, s, now, lane, seatArg).value;
      Inv(env, t, now) && Settled(env, t, now) && lane in t.lanes && t.lanes[lane].lead == SeatName(env.rows, seatArg)
  {
    hide ApplyEvent, LaneOf, SeatName, IsLive, Settled, Inv, Seated, SameSeats;
    var seat := SeatName(env.rows, seatArg);
    SeatNameStable(env.rows, seatArg);
    if LaneOf(env, s, seat) == lane {
      LedKeeps(env, s, now, lane, seat);
    } else {
      AssignKeeps(env, s, now, seat, lane);
      var u := ApplyEvent(s, Assigned(now, seat, lane));
      assert LaneOf(env, u, seat) == lane by { SeatedThere(env, s, u, seat, lane); }
      LedKeeps(env, u, now, lane, seat);
    }
  }

  lemma SeatedThere(env: Env, s: State, t: State, seat: string, lane: string)
    requires Seated(env, s, t, seat, lane)
    ensures LaneOf(env, t, seat) == lane
  {
  }

  lemma ExecuteKeeps(env: Env, s: State, c: Command)
    requires Inv(env, s, c.now) && Settled(env, s, c.now) && Legal(s, c.verb)
    ensures Inv(env, Execute(env, s, c), c.now) && Settled(env, Execute(env, s, c), c.now)
  {
    hide NewLane, Rename, SetLead, SeatName, Settled, Inv;
    match c.verb
    case New(id, name, lead) =>
      if NewLane(env, s, c.now, id, name, lead).Some? { NewLaneKeeps(env, s, c.now, id, name, lead); }
    case RenameVerb(lane, name) =>
      if Rename(env, s, c.now, lane, name).Some? { RenameKeeps(env, s, c.now, lane, name); }
    case Lead(lane, seat) => if SetLead(env, s, c.now, lane, seat).Some? { SetLeadKeeps(env, s, c.now, lane, seat); }
    case MoveVerb(seat, lane) =>
      SeatNameStable(env.rows, seat);
      if Move(env, s, c.now, seat, lane).Some? { AssignKeeps(env, s, c.now, SeatName(env.rows, seat), lane); }
  }

  // ----- whole runs

  /** A serial run of commands, each on the state the one before left, by a clock that never goes back. */
  ghost predicate Run(env: Env, ss: seq<State>, cs: seq<Command>, start: int) {
    && |ss| == |cs| + 1
    && (forall i :: 0 <= i < |cs| ==> Legal(ss[i], cs[i].verb) && ss[i + 1] == Execute(env, ss[i], cs[i]))
    && (forall i :: 0 <= i < |cs| ==> start <= cs[i].now)
    && (forall i, j :: 0 <= i < j < |cs| ==> cs[i].now <= cs[j].now)
  }

  lemma ClockAdvances(env: Env, s: State, a: int, b: int)
    requires a <= b
    ensures Inv(env, s, a) ==> Inv(env, s, b)
    ensures Settled(env, s, a) ==> Settled(env, s, b)
  {
    hide LaneOf, IsLive, CanRead, Borrows, SeatName;
    if Inv(env, s, a) {
      forall name ensures RecordsClock(Incarnations(s, name), b) { assert RecordsClock(Incarnations(s, name), a); }
    }
  }

  /**
   * From a settled store that keeps the rules, over every serial run of lane
   * commands by a clock that never goes back: each lane's lead is a member of
   * that lane, no seat leads two lanes, and no two lanes with live members
   * share a case-folded name.
   */
  lemma {:induction false} LaneRulesHold(env: Env, ss: seq<State>, cs: seq<Command>, start: int, i: nat)
    requires Run(env, ss, cs, start) && i < |ss| && Inv(env, ss[0], start) && Settled(env, ss[0], start)
    ensures LeadsBelong(env, ss[i]) && NamesApart(env, ss[i])
    ensures forall a, b :: a in ss[i].lanes && b in ss[i].lanes && ss[i].lanes[a].lead == ss[i].lanes[b].lead ==> a == b
    ensures var now := if i == 0 then start else cs[i - 1].now; Inv(env, ss[i], now) && Settled(env, ss[i], now)
  {
    hide Execute, Settled, IsLive, LaneOf, SeatName, Clock, SameName;
    if i > 0 {
      LaneRulesHold(env, ss, cs, start, i - 1);
      ClockAdvances(env, ss[i - 1], if i == 1 then start else cs[i - 2].now, cs[i - 1].now);
      ExecuteKeeps(env, ss[i - 1], cs[i - 1]);
      assert ss[i - 1 + 1] == Execute(env, ss[i - 1], cs[i - 1]);
    }
  }

  /** An accepted move on a settled store puts the seat in the lane, and no other seat moves. */
  lemma MoveMoves(env: Env, s: State, now: int, seatArg: string, lane: string)
    requires Inv(env, s, now) && Settled(env, s, now) && lane in s.lanes && Move(env, s, now, seatArg, lane).Some?
    ensures var t := Move(env, s, now, seatArg, lane).value;
      t.lanes == s.lanes && Seated(env, s, t, SeatName(env.rows, seatArg), lane)
  {
    hide ApplyEvent, Settled, Inv, SeatName;
    SeatNameStable(env.rows, seatArg);
    AssignKeeps(env, s, now, SeatName(env.rows, seatArg), lane);
  }

  /** Over a store with no events, rows that began by now are settled and every rule holds. */
  lemma EmptyStoreSettled(env: Env, now: int)
    requires forall row :: row in env.rows && row.created.Some? ==> row.created.value <= now
    requires forall row :: row in env.rows ==> RowNamed(env.rows, row.baseName).None? || row.baseName == row.name
    ensures Inv(env, Empty, now) && Settled(env, Empty, now)
  {
  }
}
