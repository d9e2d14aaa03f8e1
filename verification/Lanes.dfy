/**
 * Lane commands: new, rename, lead and move, each deciding on the folded store
 * and then appending events that the fold applies. A roster row reads its lane
 * from the record matching its creation time; assignments land in the latest.
 */
module Lanes {
  import opened Common
  import opened Events
  import opened Projection
  import opened Roster

  /** A fixed roster, case folding of lane names, and which lane names are valid. */
  datatype Env = Env(rows: seq<Seat>, fold: string -> string, valid: string -> bool)

  predicate Named(env: Env, name: string) { name != "" && env.valid(name) }

  // ----- reading the board

  /**
   * A seat argument's identity: a roster name stays, a unique base name becomes
   * its row's name, anything else is kept.
   */
  function SeatName(rows: seq<Seat>, name: string): string {
    if exists i :: 0 <= i < |rows| && rows[i].name == name then name
    else
      match ByUniqueBase(rows, name)
      case Some(row) => row.name
      case None => name
  }

  /**
   * The first incarnation not closed before the roster's creation time, unless
   * it began before that and its open session is another.
   */
  function NotClosedBefore(list: seq<Agent>, created: int, session: string): Option<Agent> {
    if list == [] then None
    else if list[0].closed.Some? && list[0].closed.value.at < created then NotClosedBefore(list[1..], created, session)
    else if list[0].firstSeen < created && (session == "" || CurrentSession(list[0].sessions) != session) then None
    else Some(list[0])
  }

  /** The record among a name's incarnations that matches a roster row; without a creation time, the latest. */
  function RecordIn(list: seq<Agent>, row: Seat): Option<Agent> {
    if list == [] then None
    else if row.created.None? then Some(list[|list| - 1])
    else NotClosedBefore(list, row.created.value, row.session)
  }

  function RecordFor(s: State, name: string, row: Seat): Option<Agent> { RecordIn(Incarnations(s, name), row) }

  function RecordLane(record: Option<Agent>): string { if record.Some? then record.value.lane else "" }

  /** A roster row's lane: its record's, filled from the base-name record when the row alone has that base name. */
  function RowLane(rows: seq<Seat>, s: State, row: Seat): string {
    var full := RecordLane(RecordFor(s, row.name, row));
    var owner := ByUniqueBase(rows, row.baseName);
    if full != "" || owner.None? || owner.value.name != row.name then full
    else RecordLane(RecordFor(s, row.baseName, row))
  }

  /** The lane of a name's latest record: where an assignment lands. */
  function LatestLane(s: State, seat: string): string {
    var list := Incarnations(s, seat);
    if list == [] then "" else list[|list| - 1].lane
  }

  /** The first roster row with a name. */
  function RowNamed(rows: seq<Seat>, name: string): Option<Seat> {
    if rows == [] then None else if rows[0].name == name then Some(rows[0]) else RowNamed(rows[1..], name)
  }

  /** A seat's lane: a roster row's as the row sees it, anyone else's from the latest record. */
  function LaneOf(env: Env, s: State, seat: string): string {
    match RowNamed(env.rows, seat)
    case Some(row) => RowLane(env.rows, s, row)
    case None => LatestLane(s, seat)
  }

  /** Whose record decides a roster row's lane: a proved parent's, else its own. */
  function Owner(rows: seq<Seat>, row: Seat): Seat {
    match Parent(rows, row)
    case Some(p) => p
    case None => row
  }

  /** A lane with a live member. */
  predicate IsLive(env: Env, s: State, lane: string) {
    lane in s.lanes && exists i :: 0 <= i < |env.rows| && RowLane(env.rows, s, Owner(env.rows, env.rows[i])) == lane
  }

  predicate SameName(env: Env, a: string, b: string) { env.fold(a) == env.fold(b) }

  /** The name belongs to another lane with a live member. */
  predicate NameTaken(env: Env, s: State, name: string, except: string) {
    exists id :: id in s.lanes && id != except && SameName(env, s.lanes[id].name, name) && IsLive(env, s, id)
  }

  /** Moving the seat would take a lane's lead out of it. */
  predicate LeavesLead(env: Env, s: State, seat: string, target: string) {
    var from := LaneOf(env, s, seat);
    from != "" && from != target && from in s.lanes && SeatName(env.rows, s.lanes[from].lead) == seat
  }

  /** What a lane argument refers to: an id, a name only one lane has, or a name only one live lane has. */
  predicate Resolves(env: Env, s: State, ref: string, id: string) {
    id in s.lanes &&
    (id == ref ||
     (ref !in s.lanes && SameName(env, s.lanes[id].name, ref) &&
      ((forall o :: o in s.lanes && o != id ==> !SameName(env, s.lanes[o].name, ref)) ||
       (IsLive(env, s, id) && forall o :: o in s.lanes && o != id && SameName(env, s.lanes[o].name, ref) ==>
         !IsLive(env, s, o)))))
  }

  // ----- events

  const Blank :=
    Event("", 0, Other(""), "", "", "", "", "", "", "", "", "", "", "", "", false, "", [], "", "", "", "", "", "")

  function Created(id: string, at: int, name: string, lead: string): Event {
    Blank.(id := id, at := at, kind := LaneCreated, laneName := name, lead := lead)
  }

  function Assigned(at: int, seat: string, lane: string): Event {
    Blank.(at := at, kind := Assign, name := seat, lane := lane)
  }

  function Renamed(at: int, lane: string, name: string): Event {
    Blank.(at := at, kind := LaneUpdated, lane := lane, laneName := name)
  }

  function Led(at: int, lane: string, seat: string): Event {
    Blank.(at := at, kind := LaneUpdated, lane := lane, lead := seat)
  }

  // ----- the commands, as functions of the folded store; None is a refusal

  function NewLane(env: Env, s: State, now: int, id: string, name: string, leadArg: string): Option<State> {
    var lead := SeatName(env.rows, leadArg);
    if lead == "" || !Named(env, name) || NameTaken(env, s, name, "") || LeavesLead(env, s, lead, id) then None
    else Some(ApplyEvent(ApplyEvent(s, Created(id, now, name, lead)), Assigned(now, lead, id)))
  }

  function Rename(env: Env, s: State, now: int, lane: string, name: string): Option<State> {
    if !Named(env, name) || NameTaken(env, s, name, lane) then None else Some(ApplyEvent(s, Renamed(now, lane, name)))
  }

  function SetLead(env: Env, s: State, now: int, lane: string, seatArg: string): Option<State>
    requires lane in s.lanes
  {
    var seat := SeatName(env.rows, seatArg);
    if seat == "" then None
    else if LaneOf(env, s, seat) == lane then Some(ApplyEvent(s, Led(now, lane, seat)))
    else if LeavesLead(env, s, seat, lane) || NameTaken(env, s, s.lanes[lane].name, lane) then None
    else Some(ApplyEvent(ApplyEvent(s, Assigned(now, seat, lane)), Led(now, lane, seat)))
  }

  function Move(env: Env, s: State, now: int, seatArg: string, lane: string): Option<State>
    requires lane in s.lanes
  {
    var seat := SeatName(env.rows, seatArg);
    if seat == "" || LeavesLead(env, s, seat, lane) || NameTaken(env, s, s.lanes[lane].name, lane) then None
    else Some(ApplyEvent(s, Assigned(now, seat, lane)))
  }

  // ----- a command

  datatype Verb =
    | New(id: string, name: string, lead: string)
    | RenameVerb(lane: string, name: string)
    | Lead(lane: string, seat: string)
    | MoveVerb(seat: string, lane: string)

  datatype Command = Command(verb: Verb, now: int)

  /** A new lane's id is fresh, and a lane argument was resolved to a lane. */
  predicate Legal(s: State, v: Verb) {
    match v
    case New(id, _, _) => id != "" && id !in s.lanes
    case RenameVerb(lane, _) => lane in s.lanes
    case Lead(lane, _) => lane in s.lanes
    case MoveVerb(_, lane) => lane in s.lanes
  }

  function Execute(env: Env, s: State, c: Command): State
    requires Legal(s, c.verb)
  {
    var r := match c.verb
      case New(id, name, lead) => NewLane(env, s, c.now, id, name, lead)
      case RenameVerb(lane, name) => Rename(env, s, c.now, lane, name)
      case Lead(lane, seat) => SetLead(env, s, c.now, lane, seat)
      case MoveVerb(seat, lane) => Move(env, s, c.now, seat, lane);
    if r.Some? then r.value else s
  }

  // ----- the code

  /** One command over a projection. */
  class Desk {
    const env: Env
    const projection: Projection

    constructor (env: Env, projection: Projection)
      ensures this.env == env && this.projection == projection
    {
      this.env, this.projection := env, projection;
    }

    method FindSeat(name: string) returns (seat: string)
      ensures seat == SeatName(env.rows, name)
    {
      var i := 0;
      while i < |env.rows|
        invariant 0 <= i <= |env.rows|
        invariant forall j :: 0 <= j < i ==> env.rows[j].name != name
      {
        if env.rows[i].name == name { return name; }
        i := i + 1;
      }
      var row := FindUniqueBase(env.rows, name);
      seat := if row.Some? then row.value.name else name;
    }

    /** Picks the record of a name that matches a roster row. */
    method FindRecord(name: string, row: Seat) returns (record: Option<Agent>)
      ensures record == RecordFor(projection.Value(), name, row)
    {
      if name !in projection.agents { return None; }
      var list := projection.agents[name];
      if list == [] { return None; }
      if row.created.None? { return Some(list[|list| - 1]); }
      var i := 0;
      while i < |list|
        invariant 0 <= i <= |list|
        invariant NotClosedBefore(list, row.created.value, row.session) ==
          NotClosedBefore(list[i..], row.created.value, row.session)
      {
        var v := list[i];
        assert list[i..][1..] == list[i + 1..];
        if !(v.closed.Some? && v.closed.value.at < row.created.value) {
          if v.firstSeen < row.created.value &&
            (row.session == "" || CurrentSession(v.sessions) != row.session) { return None; }
          return Some(v);
        }
        i := i + 1;
      }
      record := None;
    }

    /** A roster row's lane, its own record's or else its base name's. */
    method FindRowLane(row: Seat) returns (lane: string)
      ensures lane == RowLane(env.rows, projection.Value(), row)
    {
      var full := FindRecord(row.name, row);
      lane := RecordLane(full);
      var owner := FindUniqueBase(env.rows, row.baseName);
      if owner.Some? && owner.value.name == row.name {
        var base := FindRecord(row.baseName, row);
        if lane == "" { lane := RecordLane(base); }
      }
    }

    /** A seat's lane, by its first roster row or else by its latest record. */
    method FindLane(seat: string) returns (lane: string)
      ensures lane == LaneOf(env, projection.Value(), seat)
    {
      var i := 0;
      while i < |env.rows|
        invariant 0 <= i <= |env.rows| && RowNamed(env.rows, seat) == RowNamed(env.rows[i..], seat)
      {
        assert env.rows[i..][1..] == env.rows[i + 1..];
        if env.rows[i].name == seat {
          lane := FindRowLane(env.rows[i]);
          return;
        }
        i := i + 1;
      }
      if seat !in projection.agents || projection.agents[seat] == [] { return ""; }
      lane := projection.agents[seat][|projection.agents[seat]| - 1].lane;
    }

    method CheckLive(lane: string) returns (live: bool)
      requires lane in projection.lanes
      ensures live <==> IsLive(env, projection.Value(), lane)
    {
      live := false;
      var i := 0;
      while i < |env.rows|
        invariant 0 <= i <= |env.rows|
        invariant live <==>
          exists j :: 0 <= j < i && RowLane(env.rows, projection.Value(), Owner(env.rows, env.rows[j])) == lane
      {
        hide RowLane;
        var row := env.rows[i];
        var parent: Option<Seat> := None;
        if row.parentName != "" { parent := FindUniqueBase(env.rows, row.parentName); }
        var owner := if parent.Some? then parent.value else row;
        assert owner == Owner(env.rows, row);
        var at := FindRowLane(owner);
        if at == lane { live := true; }
        i := i + 1;
      }
    }

    method CheckName(name: string, except: string) returns (taken: bool)
      ensures taken <==> NameTaken(env, projection.Value(), name, except)
    {
      taken := false;
      var todo := projection.lanes.Keys;
      while todo != {}
        invariant todo <= projection.lanes.Keys
        invariant taken <==> (exists id :: (id in projection.lanes && id !in todo && id != except &&
          SameName(env, projection.lanes[id].name, name) && IsLive(env, projection.Value(), id)))
        decreases |todo|
      {
        var id :| id in todo;
        todo := todo - {id};
        var lane := projection.lanes[id];
        if id != except && SameName(env, lane.name, name) {
          var live := CheckLive(id);
          if live { taken := true; }
        }
      }
    }

    method CheckLeaving(seat: string, target: string) returns (refused: bool)
      ensures refused <==> LeavesLead(env, projection.Value(), seat, target)
    {
      var from := FindLane(seat);
      if from == "" || from == target || from !in projection.lanes { return false; }
      var lead := FindSeat(projection.lanes[from].lead);
      refused := lead == seat;
    }

    /** Finds a lane by id or by current name; a shared name picks the one with a live member. */
    method Resolve(ref: string) returns (id: Option<string>)
      ensures id.Some? ==> Resolves(env, projection.Value(), ref, id.value)
      ensures id.None? ==> forall x :: !Resolves(env, projection.Value(), ref, x)
    {
      if ref in projection.lanes { return Some(ref); }
      var matches: set<string>, live: set<string> := {}, {};
      var todo := projection.lanes.Keys;
      while todo != {}
        invariant todo <= projection.lanes.Keys
        invariant forall x :: x in matches <==>
          x in projection.lanes && x !in todo && SameName(env, projection.lanes[x].name, ref)
        invariant forall x :: x in live <==> x in matches && IsLive(env, projection.Value(), x)
        decreases |todo|
      {
        var x :| x in todo;
        todo := todo - {x};
        if SameName(env, projection.lanes[x].name, ref) {
          matches := matches + {x};
          var l := CheckLive(x);
          if l { live := live + {x}; }
        }
      }
      if |matches| == 1 {
        var x :| x in matches;
        OnlyOne(matches, x);
        return Some(x);
      }
      if |live| == 1 {
        var x :| x in live;
        OnlyOne(live, x);
        return Some(x);
      }
      forall x ensures !Resolves(env, projection.Value(), ref, x) {
        NotOnly(matches, x);
        NotOnly(live, x);
      }
      id := None;
    }

    method New(now: int, id: string, name: string, leadArg: string) returns (done: bool)
      modifies projection
      ensures var r := NewLane(env, old(projection.Value()), now, id, name, leadArg);
        done == r.Some? && projection.Value() == if r.Some? then r.value else old(projection.Value())
    {
      var lead := FindSeat(leadArg);
      if lead == "" || !Named(env, name) { return false; }
      var taken := CheckName(name, "");
      if taken { return false; }
      var leaving := CheckLeaving(lead, id);
      if leaving { return false; }
      projection.Apply(Created(id, now, name, lead));
      projection.Apply(Assigned(now, lead, id));
      done := true;
    }

    method RenameLane(now: int, lane: string, name: string) returns (done: bool)
      modifies projection
      ensures var r := Rename(env, old(projection.Value()), now, lane, name);
        done == r.Some? && projection.Value() == if r.Some? then r.value else old(projection.Value())
    {
      if !Named(env, name) { return false; }
      var taken := CheckName(name, lane);
      if taken { return false; }
      projection.Apply(Renamed(now, lane, name));
      done := true;
    }

    method SetLaneLead(now: int, lane: string, seatArg: string) returns (done: bool)
      requires lane in projection.lanes
      modifies projection
      ensures var r := SetLead(env, old(projection.Value()), now, lane, seatArg);
        done == r.Some? && projection.Value() == if r.Some? then r.value else old(projection.Value())
    {
      var seat := FindSeat(seatArg);
      if seat == "" { return false; }
      var at := FindLane(seat);
      if at != lane {
        var leaving := CheckLeaving(seat, lane);
        if leaving { return false; }
        var taken := CheckName(projection.lanes[lane].name, lane);
        if taken { return false; }
        projection.Apply(Assigned(now, seat, lane));
      }
      projection.Apply(Led(now, lane, seat));
      done := true;
    }

    method MoveSeat(now: int, seatArg: string, lane: string) returns (done: bool)
      requires lane in projection.lanes
      modifies projection
      ensures var r := Move(env, old(projection.Value()), now, seatArg, lane);
        done == r.Some? && projection.Value() == if r.Some? then r.value else old(projection.Value())
    {
      var seat := FindSeat(seatArg);
      if seat == "" { return false; }
      var leaving := CheckLeaving(seat, lane);
      if leaving { return false; }
      var taken := CheckName(projection.lanes[lane].name, lane);
      if taken { return false; }
      projection.Apply(Assigned(now, seat, lane));
      done := true;
    }
  }

  lemma OnlyOne(s: set<string>, x: string)
    requires |s| == 1 && x in s
    ensures forall y :: y in s ==> y == x
  {
    assert s == {x} + (s - {x});
    assert |s - {x}| == 0;
  }

  lemma NotOnly(s: set<string>, x: string)
    requires |s| != 1
    ensures x in s ==> exists y :: y in s && y != x
  {
    if forall y :: y in s ==> y == x { assert x in s ==> s == {x}; }
  }
}
