/**
 * The observer's session table: roster reconciliation, change batches and
 * safety sweeps over transcripts that other processes append to. Every cached
 * entry stays the direct read of a complete prefix of its transcript.
 */
module Observer {
  import opened Common
  import opened Lines
  import opened Roster
  import opened Vitals

  /** A transcript's identity; agentId is set for a Claude subagent only. */
  datatype Key = Key(tool: string, session: string, agentId: string)

  predicate IsSubagent(row: Seat) { row.tool == "claude" && row.agentId != "" }

  function KeyFor(row: Seat): Key {
    Key(row.tool, row.session, if IsSubagent(row) then row.agentId else "")
  }

  predicate Observable(row: Seat) { (row.tool == "claude" || row.tool == "codex") && row.session != "" }

  datatype Phase = AwaitingFile | Tailing | Ended

  datatype Session = Session(row: Seat, path: string, phase: Phase, offset: nat, size: nat, vitals: Vitals,
    endedAt: Option<int>)

  datatype Table = Table(sessions: map<Key, Session>, byName: map<string, Key>)

  /** What the observer sees of the world in one step: files by path, and which path a row resolves to. */
  datatype World = World(files: map<string, seq<byte>>, resolve: Seat -> Option<string>)

  /** How each kind of transcript is read. */
  type Reader = Key -> Facts

  // ----- one session

  /** The direct read; a missing file leaves the session waiting. */
  function Seeded(rd: Reader, w: World, k: Key, s: Session): Session {
    if s.path !in w.files then s.(phase := AwaitingFile)
    else
      var f := w.files[s.path];
      s.(vitals := Direct(rd(k), f), offset := CompleteEnd(f), size := CompleteEnd(f), phase := Tailing)
  }

  function Resolved(w: World, s: Session): Session {
    match w.resolve(s.row)
    case Some(p) => s.(path := p)
    case None => s.(path := "", phase := AwaitingFile)
  }

  function AdvancedSession(rd: Reader, w: World, k: Key, s: Session): Session {
    if s.phase != Tailing then s
    else if s.path !in w.files then s.(phase := AwaitingFile)
    else
      match Advance(rd(k), w.files[s.path], s.offset, s.vitals)
      case Shrunk => Seeded(rd, w, k, s)
      case Advanced(v, end, _) => s.(vitals := v, offset := end, size := end)
  }

  /** What a change or a sweep does for one session. */
  function Refreshed(rd: Reader, w: World, k: Key, s: Session): Session {
    match s.phase
    case Ended => s
    case AwaitingFile =>
      var r := if s.path == "" then Resolved(w, s) else s;
      if r.path == "" then r else Seeded(rd, w, k, r)
    case Tailing => AdvancedSession(rd, w, k, s)
  }

  // ----- the passes over the table

  predicate ChangeRefreshes(paths: set<string>, s: Session) {
    s.phase != Ended && ((s.path != "" && s.path in paths) || s.phase == AwaitingFile)
  }

  /** Each session is read in its own turn, in the world as it is then. */
  function AfterChange(rd: Reader, ws: Key -> World, t: Table, paths: set<string>): Table {
    t.(sessions := map k | k in t.sessions ::
         if ChangeRefreshes(paths, t.sessions[k]) then Refreshed(rd, ws(k), k, t.sessions[k]) else t.sessions[k])
  }

  /** The safety pass: waiting sessions resolve, vanished files wait, a changed size advances. */
  function SweptSession(rd: Reader, w: World, k: Key, s: Session): Session {
    if s.phase == Ended then s
    else if s.phase == AwaitingFile then Refreshed(rd, w, k, s)
    else if s.path !in w.files then s.(phase := AwaitingFile)
    else if |w.files[s.path]| != s.size then Refreshed(rd, w, k, s)
    else s
  }

  function AfterSweep(rd: Reader, ws: Key -> World, t: Table): Table {
    t.(sessions := map k | k in t.sessions :: SweptSession(rd, ws(k), k, t.sessions[k]))
  }

  function EndedSession(s: Session, now: int): Session {
    if s.phase == Ended then s else s.(phase := Ended, endedAt := Some(now))
  }

  function EndKey(t: Table, k: Key, now: int): Table {
    if k in t.sessions then t.(sessions := t.sessions[k := EndedSession(t.sessions[k], now)]) else t
  }

  /**
   * One roster row: a name that changed session ends the old one, a known
   * session that had ended resumes, a new one is seeded.
   */
  function SyncRow(rd: Reader, w: World, t: Table, row: Seat, now: int): Table {
    if !Observable(row) then t
    else
      var k := KeyFor(row);
      var t1 := if row.name in t.byName && t.byName[row.name] != k then EndKey(t, t.byName[row.name], now) else t;
      var named := t1.byName[row.name := k];
      if k in t1.sessions then
        var s := t1.sessions[k].(row := row);
        Table(t1.sessions[k := if s.phase == Ended then Refreshed(rd, w, k, s.(phase := Tailing, endedAt := None))
          else s], named)
      else
        var s := Resolved(w, Session(row, "", AwaitingFile, 0, 0, NoVitals, None));
        Table(t1.sessions[k := if s.path == "" then s else Seeded(rd, w, k, s)], named)
  }

  /** Row i is handled in world i. */
  function SyncRows(rd: Reader, ws: nat -> World, t: Table, rows: seq<Seat>, now: int): Table {
    if rows == [] then t
      else SyncRow(rd, ws(|rows| - 1), SyncRows(rd, ws, t, rows[..|rows| - 1], now), rows[|rows| - 1], now)
  }

  function Live(rows: seq<Seat>): set<Key> {
    set i | 0 <= i < |rows| && Observable(rows[i]) :: KeyFor(rows[i])
  }

  /** Names whose session left the roster are forgotten and their sessions end. */
  function DropGone(t: Table, live: set<Key>, now: int): Table {
    Table(map k | k in t.sessions ::
            if k !in live && k in t.byName.Values then EndedSession(t.sessions[k], now) else t.sessions[k],
          map n | n in t.byName && t.byName[n] in live :: t.byName[n])
  }

  predicate Expired(s: Session, now: int, ttl: int) {
    s.phase == Ended && s.endedAt.Some? && now - s.endedAt.value >= ttl
  }

  function DropExpired(t: Table, now: int, ttl: int): Table {
    t.(sessions := map k | k in t.sessions && !Expired(t.sessions[k], now, ttl) :: t.sessions[k])
  }

  function AfterSync(rd: Reader, ws: nat -> World, t: Table, rows: seq<Seat>, now: int, ttl: int): Table {
    DropExpired(DropGone(SyncRows(rd, ws, t, rows, now), Live(rows), now), now, ttl)
  }

  // ----- the invariant

  /** The session's cache is the fold of exactly the records before its offset. */
  ghost predicate Caches(rd: Reader, files: map<string, seq<byte>>, k: Key, s: Session) {
    && s.size == s.offset
    && (if s.path != "" && s.path in files then Tracks(rd(k), files[s.path], s.offset, s.vitals)
        else s.offset == 0 && s.vitals == NoVitals)
  }

  /** And a tailing session has its file. */
  ghost predicate Holds(rd: Reader, files: map<string, seq<byte>>, k: Key, s: Session) {
    Caches(rd, files, k, s) && (s.phase == Tailing ==> s.path in files)
  }

  ghost predicate TableHolds(rd: Reader, files: map<string, seq<byte>>, t: Table) {
    forall k :: k in t.sessions ==> Holds(rd, files, k, t.sessions[k])
  }

  /** No file has an empty name, and a row never resolves to one. */
  ghost predicate Sane(w: World) {
    "" !in w.files && forall row :: w.resolve(row) != Some("")
  }

  lemma RefreshHolds(rd: Reader, w: World, k: Key, s: Session)
    requires Sane(w) && Caches(rd, w.files, k, s)
    ensures Holds(rd, w.files, k, Refreshed(rd, w, k, s))
    ensures var r := Refreshed(rd, w, k, s);
      r.phase == Tailing ==>
        r.path in w.files && r.vitals == Direct(rd(k), w.files[r.path]) && r.offset == CompleteEnd(w.files[r.path])
  {
    match s.phase
    case Ended =>
    case AwaitingFile =>
      if s.path == "" {
        var r := Resolved(w, s);
        assert r.path != "" && r.path !in w.files ==> Caches(rd, w.files, k, r);
      }
    case Tailing =>
      if s.path in w.files { AdvanceIsDirect(rd(k), w.files[s.path], s.offset, s.vitals); }
  }

  lemma SweepHolds(rd: Reader, w: World, k: Key, s: Session)
    requires Sane(w) && Holds(rd, w.files, k, s)
    ensures Holds(rd, w.files, k, SweptSession(rd, w, k, s))
    ensures var r := SweptSession(rd, w, k, s);
      r.phase == Tailing ==> r.path in w.files && r.vitals == Direct(rd(k), w.files[r.path])
  {
    RefreshHolds(rd, w, k, s);
    if s.phase == Tailing && s.path in w.files && |w.files[s.path]| == s.size {
      AdvanceIsDirect(rd(k), w.files[s.path], s.offset, s.vitals);
      CompleteEndIs(w.files[s.path], s.offset);
    }
  }

  lemma SyncRowHolds(rd: Reader, w: World, t: Table, row: Seat, now: int)
    requires Sane(w) && TableHolds(rd, w.files, t)
    ensures TableHolds(rd, w.files, SyncRow(rd, w, t, row, now))
  {
    if Observable(row) {
      var k := KeyFor(row);
      var t1 := if row.name in t.byName && t.byName[row.name] != k then EndKey(t, t.byName[row.name], now) else t;
      assert TableHolds(rd, w.files, t1);
      if k in t1.sessions {
        RefreshHolds(rd, w, k, t1.sessions[k].(row := row, phase := Tailing, endedAt := None));
      } else {
        var s := Resolved(w, Session(row, "", AwaitingFile, 0, 0, NoVitals, None));
      }
    }
  }

  /** Transcripts are append-only: a file only grows and never disappears. */
  predicate Grows(a: map<string, seq<byte>>, b: map<string, seq<byte>>) {
    "" !in b && forall p :: p in a ==> p in b && a[p] <= b[p]
  }

  /** What a session caches stays true when files grow. */
  lemma GrowthHolds(rd: Reader, a: map<string, seq<byte>>, b: map<string, seq<byte>>, k: Key, s: Session)
    requires Holds(rd, a, k, s) && Grows(a, b)
    ensures Holds(rd, b, k, s)
  {
    if s.path in a { GrowthKeepsTrack(rd(k), a[s.path], b[s.path], s.offset, s.vitals); }
  }

  lemma TableGrows(rd: Reader, a: map<string, seq<byte>>, b: map<string, seq<byte>>, t: Table)
    requires TableHolds(rd, a, t) && Grows(a, b)
    ensures TableHolds(rd, b, t)
  {
    forall k | k in t.sessions ensures Holds(rd, b, k, t.sessions[k]) { GrowthHolds(rd, a, b, k, t.sessions[k]); }
  }

  /** The worlds of a roster pass, one row after the other. */
  ghost predicate InTurn(files: map<string, seq<byte>>, ws: nat -> World, n: nat) {
    && (forall i: nat :: i < n ==> Sane(ws(i)) && Grows(files, ws(i).files))
    && (forall i: nat, j: nat :: i < j < n ==> Grows(ws(i).files, ws(j).files))
  }

  lemma {:induction false} SyncRowsHold(rd: Reader, files: map<string, seq<byte>>, ws: nat -> World, t: Table,
    rows: seq<Seat>, now: int)
    requires TableHolds(rd, files, t) && InTurn(files, ws, |rows|)
    ensures TableHolds(rd, if rows == [] then files else ws(|rows| - 1).files, SyncRows(rd, ws, t, rows, now))
  {
    hide TableHolds, Sane;
    if rows != [] {
      var n := |rows| - 1;
      var w := ws(n);
      var before := SyncRows(rd, ws, t, rows[..n], now);
      SyncRowsHold(rd, files, ws, t, rows[..n], now);
      TableGrows(rd, if n == 0 then files else ws(n - 1).files, w.files, before);
      SyncRowHolds(rd, w, before, rows[n], now);
    }
  }

  // ----- whole runs

  /**
   * What can happen next: files grow or appear, or the observer makes one of
   * its passes, reading each session in its own turn while files go on growing
   * to what they are at the end of the pass.
   */
  datatype Act =
    | Grow(files: map<string, seq<byte>>)
    | Sync(rows: seq<Seat>, now: int, turns: nat -> World, files: map<string, seq<byte>>)
    | Change(paths: set<string>, worlds: Key -> World, files: map<string, seq<byte>>)
    | Sweep(worlds: Key -> World, files: map<string, seq<byte>>)

  datatype System = System(files: map<string, seq<byte>>, table: Table)

  ghost predicate Legal(s: System, a: Act) {
    && Grows(s.files, a.files)
    && match a
       case Grow(_) => true
       case Sync(rows, _, ws, files) => InTurn(s.files, ws, |rows|) && forall i: nat :: i < |rows| ==>
         Grows(ws(i).files, files)
       case Change(_, ws, files) => forall k :: Between(s.files, ws(k), files)
       case Sweep(ws, files) => forall k :: Between(s.files, ws(k), files)
  }

  ghost predicate Between(a: map<string, seq<byte>>, w: World, b: map<string, seq<byte>>) {
    Sane(w) && Grows(a, w.files) && Grows(w.files, b)
  }

  function After(rd: Reader, ttl: int, s: System, a: Act): System {
    System(a.files,
           match a
           case Grow(_) => s.table
           case Sync(rows, now, ws, _) => AfterSync(rd, ws, s.table, rows, now, ttl)
           case Change(paths, ws, _) => AfterChange(rd, ws, s.table, paths)
           case Sweep(ws, _) => AfterSweep(rd, ws, s.table))
  }

  ghost predicate Run(rd: Reader, ttl: int, ss: seq<System>, acts: seq<Act>) {
    && |ss| == |acts| + 1
    && forall i :: 0 <= i < |acts| ==> Legal(ss[i], acts[i]) && ss[i + 1] == After(rd, ttl, ss[i], acts[i])
  }

  /** A session read in its turn holds then, and at the end of the pass. */
  lemma TurnHolds(rd: Reader, a: map<string, seq<byte>>, w: World, b: map<string, seq<byte>>, k: Key, s: Session)
    requires Holds(rd, a, k, s) && Between(a, w, b)
    ensures Holds(rd, w.files, k, s) && Holds(rd, b, k, s)
    ensures Holds(rd, b, k, Refreshed(rd, w, k, s)) && Holds(rd, b, k, SweptSession(rd, w, k, s))
    ensures var r := SweptSession(rd, w, k, s);
      r.phase == Tailing ==> r.path in w.files && r.vitals == Direct(rd(k), w.files[r.path])
    ensures var r := Refreshed(rd, w, k, s);
      r.phase == Tailing ==> r.path in w.files && r.vitals == Direct(rd(k), w.files[r.path])
  {
    hide Refreshed, SweptSession, Grows;
    GrowthHolds(rd, a, w.files, k, s);
    GrowthHolds(rd, w.files, b, k, s);
    RefreshHolds(rd, w, k, s);
    SweepHolds(rd, w, k, s);
    GrowthHolds(rd, w.files, b, k, Refreshed(rd, w, k, s));
    GrowthHolds(rd, w.files, b, k, SweptSession(rd, w, k, s));
  }

  lemma SyncKeeps(rd: Reader, files: map<string, seq<byte>>, ws: nat -> World, t: Table, rows: seq<Seat>, now: int,
    ttl: int, end: map<string, seq<byte>>)
    requires TableHolds(rd, files, t) && Grows(files, end) && InTurn(files, ws, |rows|) &&
      forall i: nat :: i < |rows| ==> Grows(ws(i).files, end)
    ensures TableHolds(rd, end, AfterSync(rd, ws, t, rows, now, ttl))
  {
    hide Grows, SyncRows, InTurn;
    SyncRowsHold(rd, files, ws, t, rows, now);
    TableGrows(rd, if rows == [] then files else ws(|rows| - 1).files, end, SyncRows(rd, ws, t, rows, now));
  }

  lemma ActKeepsTable(rd: Reader, ttl: int, s: System, a: Act)
    requires TableHolds(rd, s.files, s.table) && Legal(s, a)
    ensures TableHolds(rd, After(rd, ttl, s, a).files, After(rd, ttl, s, a).table)
  {
    hide Refreshed, SweptSession, Grows, Holds, AfterSync, Between;
    var t := After(rd, ttl, s, a);
    match a
    case Grow(files) => TableGrows(rd, s.files, files, s.table);
    case Sync(rows, now, ws, files) => SyncKeeps(rd, s.files, ws, s.table, rows, now, ttl, files);
    case Change(paths, ws, files) =>
      forall k | k in t.table.sessions ensures Holds(rd, files, k, t.table.sessions[k]) {
        TurnHolds(rd, s.files, ws(k), files, k, s.table.sessions[k]);
      }
    case Sweep(ws, files) =>
      forall k | k in t.table.sessions ensures Holds(rd, files, k, t.table.sessions[k]) {
        TurnHolds(rd, s.files, ws(k), files, k, s.table.sessions[k]);
      }
  }

  /**
   * Through every interleaving of growth, roster syncs, change batches and
   * sweeps, growth between the sessions of one pass included, every cached
   * session is the direct read of a complete prefix of its transcript: no
   * record is skipped and none is folded twice.
   */
  lemma {:induction false} CacheNeverDrifts(rd: Reader, ttl: int, ss: seq<System>, acts: seq<Act>, i: nat)
    requires Run(rd, ttl, ss, acts) && i < |ss| && TableHolds(rd, ss[0].files, ss[0].table)
    ensures TableHolds(rd, ss[i].files, ss[i].table)
  {
    hide After, Legal, TableHolds;
    if i > 0 {
      CacheNeverDrifts(rd, ttl, ss, acts, i - 1);
      ActKeepsTable(rd, ttl, ss[i - 1], acts[i - 1]);
    }
  }

  /** After a sweep, every tailing session answers exactly what a direct read would have when its turn came. */
  lemma SweepCatchesUp(rd: Reader, ttl: int, ss: seq<System>, acts: seq<Act>, i: nat, k: Key)
    requires Run(rd, ttl, ss, acts) && i < |acts| && TableHolds(rd, ss[0].files, ss[0].table)
    requires acts[i].Sweep? && k in ss[i + 1].table.sessions && ss[i + 1].table.sessions[k].phase == Tailing
    ensures var s, w := ss[i + 1].table.sessions[k], acts[i].worlds(k);
      s.path in w.files && s.vitals == Direct(rd(k), w.files[s.path]) && Grows(ss[i].files, w.files) &&
        Grows(w.files, ss[i + 1].files)
  {
    hide Refreshed, SweptSession, Grows, Holds;
    CacheNeverDrifts(rd, ttl, ss, acts, i);
    TurnHolds(rd, ss[i].files, acts[i].worlds(k), acts[i].files, k, ss[i].table.sessions[k]);
  }

  /** So does, after a change batch, every tailing session whose path was in the batch. */
  lemma ChangeCatchesUp(rd: Reader, ttl: int, ss: seq<System>, acts: seq<Act>, i: nat, k: Key)
    requires Run(rd, ttl, ss, acts) && i < |acts| && TableHolds(rd, ss[0].files, ss[0].table)
    requires acts[i].Change? && k in ss[i + 1].table.sessions && ss[i + 1].table.sessions[k].phase == Tailing
    requires ss[i + 1].table.sessions[k].path in acts[i].paths && ss[i + 1].table.sessions[k].path != ""
    ensures var s, w := ss[i + 1].table.sessions[k], acts[i].worlds(k);
      s.path in w.files && s.vitals == Direct(rd(k), w.files[s.path]) && Grows(ss[i].files, w.files) &&
        Grows(w.files, ss[i + 1].files)
  {
    hide Refreshed, Grows, Holds;
    CacheNeverDrifts(rd, ttl, ss, acts, i);
    TurnHolds(rd, ss[i].files, acts[i].worlds(k), acts[i].files, k, ss[i].table.sessions[k]);
  }

  /** While a transcript exists, a sweep never loses sight of it: a tailing session stays tailing. */
  lemma SweepKeepsTailing(rd: Reader, w: World, k: Key, s: Session)
    requires Sane(w) && Holds(rd, w.files, k, s) && s.phase == Tailing && s.path in w.files
    ensures SweptSession(rd, w, k, s).phase == Tailing && SweptSession(rd, w, k, s).path == s.path
  {
    AdvanceIsDirect(rd(k), w.files[s.path], s.offset, s.vitals);
  }

  // ----- the code

  class Observer {
    const reader: Reader
    const ttl: int
    var sessions: map<Key, Session>
    var byName: map<string, Key>

    constructor (reader: Reader, ttl: int)
      ensures this.reader == reader && this.ttl == ttl && sessions == map[] && byName == map[]
    {
      this.reader, this.ttl := reader, ttl;
      sessions, byName := map[], map[];
    }

    ghost function Value(): Table
      reads this
    {
      Table(sessions, byName)
    }

    method Seed(w: World, k: Key, session: Session, block: nat) returns (s: Session)
      requires block >= 1
      ensures s == Seeded(reader, w, k, session)
    {
      s := session;
      if s.path !in w.files { return s.(phase := AwaitingFile); }
      var vitals, end := ReadVitals(reader(k), w.files[s.path], block);
      s := s.(vitals := vitals, offset := end, size := end, phase := Tailing);
    }

    method AdvanceOne(w: World, k: Key, session: Session, block: nat) returns (s: Session)
      requires block >= 1
      ensures s == AdvancedSession(reader, w, k, session)
    {
      s := session;
      if s.phase != Tailing { return; }
      if s.path !in w.files { return s.(phase := AwaitingFile); }
      var r := AdvanceTail(reader(k), w.files[s.path], s.offset, s.vitals, block);
      match r {
        case Shrunk => s := Seed(w, k, s, block);
        case Advanced(vitals, end, _) => s := s.(vitals := vitals, offset := end, size := end);
      }
    }

    method Refresh(w: World, k: Key, session: Session, block: nat) returns (s: Session)
      requires block >= 1
      ensures s == Refreshed(reader, w, k, session)
    {
      s := session;
      match s.phase {
        case Ended =>
        case AwaitingFile =>
          if s.path == "" {
            s := Resolved(w, s);
            if s.path == "" { return; }
          }
          s := Seed(w, k, s, block);
        case Tailing => s := AdvanceOne(w, k, s, block);
      }
    }

    /** One session in a batch of changed paths. */
    method ChangeOne(w: World, paths: set<string>, k: Key, session: Session, block: nat) returns (s: Session)
      requires block >= 1
      ensures s == if ChangeRefreshes(paths, session) then Refreshed(reader, w, k, session) else session
    {
      s := session;
      if s.phase != Ended {
        if s.path != "" && s.path in paths {
          s := Refresh(w, k, s, block);
        } else if s.phase == AwaitingFile {
          s := Refresh(w, k, s, block);
        }
      }
    }

    /** One debounced batch of changed paths. */
    method OnPaths(ws: Key -> World, paths: set<string>, block: nat)
      requires block >= 1
      modifies this`sessions
      ensures Value() == AfterChange(reader, ws, old(Value()), paths)
    {
      var todo := sessions.Keys;
      ghost var was := sessions;
      ghost var target := AfterChange(reader, ws, Value(), paths).sessions;
      while todo != {}
        invariant todo <= was.Keys && sessions.Keys == was.Keys == target.Keys
        invariant forall k :: k in was ==> sessions[k] == if k in todo then was[k] else target[k]
        decreases |todo|
      {
        var k :| k in todo;
        todo := todo - {k};
        var s := ChangeOne(ws(k), paths, k, sessions[k], block);
        assert s == target[k];
        sessions := sessions[k := s];
      }
      assert sessions == target;
    }

    /** One session in the safety pass. */
    method SweepOne(w: World, k: Key, session: Session, block: nat) returns (s: Session)
      requires block >= 1
      ensures s == SweptSession(reader, w, k, session)
    {
      s := session;
      if s.phase == AwaitingFile {
        s := Refresh(w, k, s, block);
      } else if s.phase == Tailing {
        if s.path !in w.files {
          s := s.(phase := AwaitingFile);
        } else if |w.files[s.path]| != s.size {
          s := Refresh(w, k, s, block);
        }
      }
    }

    /** The safety pass over every session that has not ended. */
    method SweepAll(ws: Key -> World, block: nat)
      requires block >= 1
      modifies this`sessions
      ensures Value() == AfterSweep(reader, ws, old(Value()))
    {
      var todo := sessions.Keys;
      ghost var was := sessions;
      ghost var target := AfterSweep(reader, ws, Value()).sessions;
      while todo != {}
        invariant todo <= was.Keys && sessions.Keys == was.Keys == target.Keys
        invariant forall k :: k in was ==> sessions[k] == if k in todo then was[k] else target[k]
        decreases |todo|
      {
        var k :| k in todo;
        todo := todo - {k};
        var s := SweepOne(ws(k), k, sessions[k], block);
        assert s == target[k];
        sessions := sessions[k := s];
      }
      assert sessions == target;
    }

    method End(k: Key, now: int)
      modifies this`sessions
      ensures Value() == EndKey(old(Value()), k, now)
    {
      if k !in sessions || sessions[k].phase == Ended {
        assert k in sessions ==> sessions[k := sessions[k]] == sessions;
        return;
      }
      sessions := sessions[k := sessions[k].(phase := Ended, endedAt := Some(now))];
    }

    /** Reconciles the table with one roster read. */
    method SyncRoster(ws: nat -> World, rows: seq<Seat>, now: int, block: nat)
      requires block >= 1
      modifies this
      ensures Value() == AfterSync(reader, ws, old(Value()), rows, now, ttl)
    {
      var live: set<Key> := {};
      var i := 0;
      while i < |rows|
        invariant 0 <= i <= |rows|
        invariant live == Live(rows[..i])
        invariant Value() == SyncRows(reader, ws, old(Value()), rows[..i], now)
      {
        assert rows[..i + 1][..i] == rows[..i];
        if Observable(rows[i]) { live := live + {KeyFor(rows[i])}; }
        SyncOne(ws(i), rows[i], now, block);
        i := i + 1;
      }
      assert rows[..i] == rows;
      EndGone(live, now);
      sessions := map k | k in sessions && !Expired(sessions[k], now, ttl) :: sessions[k];
    }

    method SyncOne(w: World, row: Seat, now: int, block: nat)
      requires block >= 1
      modifies this
      ensures Value() == SyncRow(reader, w, old(Value()), row, now)
    {
      if !Observable(row) { return; }
      var k := KeyFor(row);
      if row.name in byName && byName[row.name] != k { End(byName[row.name], now); }
      byName := byName[row.name := k];
      if k in sessions {
        var s := sessions[k].(row := row);
        if s.phase == Ended {
          s := s.(phase := Tailing, endedAt := None);
          s := Refresh(w, k, s, block);
        }
        sessions := sessions[k := s];
        return;
      }
      var s := Resolved(w, Session(row, "", AwaitingFile, 0, 0, NoVitals, None));
      if s.path != "" { s := Seed(w, k, s, block); }
      sessions := sessions[k := s];
    }

    /** Forgets names whose session is not live and ends those sessions. */
    method EndGone(live: set<Key>, now: int)
      modifies this
      ensures Value() == DropGone(old(Value()), live, now)
    {
      var names := byName.Keys;
      ghost var was := Value();
      ghost var gone: set<Key> := {};
      while names != {}
        invariant names <= was.byName.Keys
        invariant forall n :: n in byName <==> n in was.byName && (n in names || was.byName[n] in live)
        invariant forall n :: n in byName ==> byName[n] == was.byName[n]
        invariant forall k :: k in gone ==> k in was.byName.Values && k !in live
        invariant forall n :: n in was.byName && n !in names && was.byName[n] !in live ==> was.byName[n] in gone
        invariant sessions == EndAll(was.sessions, gone, now)
        decreases |names|
      {
        var n :| n in names;
        names := names - {n};
        var k := byName[n];
        if k !in live {
          byName := map m | m in byName && m != n :: byName[m];
          EndAllSnoc(was.sessions, gone, k, now);
          End(k, now);
          gone := gone + {k};
          assert was.byName[n] in was.byName.Values;
        }
      }
      assert byName == DropGone(was, live, now).byName;
      forall k ensures k in gone <==> k in was.byName.Values && k !in live {
        if k in was.byName.Values && k !in live { var n :| n in was.byName && was.byName[n] == k; }
      }
      assert sessions == DropGone(was, live, now).sessions;
    }
  }

  function EndAll(sessions: map<Key, Session>, keys: set<Key>, now: int): map<Key, Session> {
    map k | k in sessions :: if k in keys then EndedSession(sessions[k], now) else sessions[k]
  }

  lemma EndAllSnoc(sessions: map<Key, Session>, keys: set<Key>, k: Key, now: int)
    ensures EndAll(sessions, keys + {k}, now) ==
      var e := EndAll(sessions, keys, now); if k in e then e[k := EndedSession(e[k], now)] else e
  {
  }

}
