/**
 * The serve's roster cache. Fetches overlap and finish in any order; each is
 * stamped with the time it began. Base names are remembered across refreshes
 * until two names claim one.
 */
module RosterCache {
  import opened Common
  import opened Roster

  datatype Memory = Memory(remembered: map<string, string>, ambiguous: set<string>)

  const NoMemory := Memory(map[], {})

  function Remember(m: Memory, row: Seat): Memory {
    if row.baseName == "" || row.baseName in m.ambiguous then m
    else if row.baseName in m.remembered && m.remembered[row.baseName] != "" &&
      m.remembered[row.baseName] != row.name then
      Memory(m.remembered - {row.baseName}, m.ambiguous + {row.baseName})
    else m.(remembered := m.remembered[row.baseName := row.name])
  }

  function RememberAll(m: Memory, rows: seq<Seat>): Memory {
    if rows == [] then m else Remember(RememberAll(m, rows[..|rows| - 1]), rows[|rows| - 1])
  }

  /** The names rows gave a base, in order, once one of them was not empty. */
  function NamesFor(rows: seq<Seat>, base: string): seq<string> {
    if rows == [] then []
    else
      var earlier, r := NamesFor(rows[..|rows| - 1], base), rows[|rows| - 1];
      if r.baseName != base || (earlier == [] && r.name == "") then earlier else earlier + [r.name]
  }

  predicate Agree(names: seq<string>) { forall i, j :: 0 <= i < |names| && 0 <= j < |names| ==> names[i] == names[j] }

  /**
   * What is remembered of a base name after any accepted rows: n exactly when
   * every row that named it (from the first non-empty name on) named it n,
   * and ambiguous exactly when two of them disagreed.
   */
  lemma {:induction false} MemoryMeans(rows: seq<Seat>, base: string, n: string)
    requires base != ""
    ensures var m := RememberAll(NoMemory, rows); var names := NamesFor(rows, base);
      && (base in m.ambiguous <==> !Agree(names))
      && (n != "" ==>
           ((base in m.remembered && m.remembered[base] == n) <==> (names != [] && Agree(names) && names[0] == n)))
      && (base in m.ambiguous ==> base !in m.remembered)
      && (names == [] ==> base !in m.remembered || m.remembered[base] == "")
  {
    if rows != [] {
      var init, r := rows[..|rows| - 1], rows[|rows| - 1];
      var before := NamesFor(init, base);
      MemoryMeans(init, base, n);
      MemoryMeans(init, base, r.name);
      if before != [] {
        MemoryMeans(init, base, before[0]);
        NamesStartNonEmpty(init, base);
        var after := before + [r.name];
        assert after[|before|] == r.name && after[0] == before[0];
        assert Agree(before) && before[0] == r.name ==> Agree(after);
        assert !Agree(before) ==> !Agree(after) by {
          if !Agree(before) {
            var i, j :| 0 <= i < |before| && 0 <= j < |before| && before[i] != before[j];
            assert after[i] != after[j];
          }
        }
      }
    }
  }

  lemma {:induction false} NamesStartNonEmpty(rows: seq<Seat>, base: string)
    ensures NamesFor(rows, base) != [] ==> NamesFor(rows, base)[0] != ""
  {
    if rows != [] { NamesStartNonEmpty(rows[..|rows| - 1], base); }
  }

  /** When every row has a name, the names for a base are those of all its rows. */
  lemma {:induction false} NamesForAll(rows: seq<Seat>, base: string)
    requires forall i :: 0 <= i < |rows| ==> rows[i].name != ""
    ensures forall n :: n in NamesFor(rows, base) <==>
      exists i :: 0 <= i < |rows| && rows[i].baseName == base && rows[i].name == n
  {
    if rows != [] {
      NamesForAll(rows[..|rows| - 1], base);
      assert rows == rows[..|rows| - 1] + [rows[|rows| - 1]];
    }
  }

  // ----- the cache over time

  datatype Cached = Cached(rows: seq<Seat>, initialized: bool, at: int, changed: Option<int>, memory: Memory)

  const EmptyCache := Cached([], false, 0, None, NoMemory)

  /** A fetch that began at `observed` lands; one that began before the cached rows is refused. */
  function SetObserved(c: Cached, rows: seq<Seat>, observed: int): Cached {
    if c.initialized && observed < c.at then c
    else Cached(rows, true, observed, c.changed, RememberAll(c.memory, rows))
  }

  /** A roster change whose clock was read at `read` lands: the mark takes that time, whatever it was. */
  function Expire(c: Cached, read: int): Cached { c.(changed := Some(read)) }

  predicate IsFresh(c: Cached, now: int, bound: int) {
    c.initialized && now - c.at <= bound && c.at <= now && (c.changed.Some? ==> c.changed.value <= c.at)
  }

  /**
   * At clock time `now` a step takes the lock: a fetch that began at `observed`
   * lands, or a roster change that read the clock at `read`, before it had the
   * lock, expires the cache.
   */
  datatype Act = Land(rows: seq<Seat>, observed: int, now: int) | Change(read: int, now: int)

  function Next(c: Cached, a: Act): Cached {
    match a
    case Land(rows, observed, _) => SetObserved(c, rows, observed)
    case Change(read, _) => Expire(c, read)
  }

  function At(acts: seq<Act>, k: nat): Cached
    requires k <= |acts|
  {
    if k == 0 then EmptyCache else Next(At(acts, k - 1), acts[k - 1])
  }

  /** The clock never goes back, and a step takes the lock no earlier than it read the clock. */
  predicate Monotone(acts: seq<Act>) {
    && (forall i, j :: 0 <= i < j < |acts| ==> acts[i].now <= acts[j].now)
    && (forall i :: 0 <= i < |acts| && acts[i].Land? ==> acts[i].observed <= acts[i].now)
    && (forall i :: 0 <= i < |acts| && acts[i].Change? ==> acts[i].read <= acts[i].now)
  }

  predicate Accepted(acts: seq<Act>, i: nat)
    requires i < |acts|
  {
    acts[i].Land? && !(At(acts, i).initialized && acts[i].observed < At(acts, i).at)
  }

  /** The rows of every accepted fetch so far, in order of landing. */
  function AcceptedRows(acts: seq<Act>, k: nat): seq<Seat>
    requires k <= |acts|
  {
    if k == 0 then [] else AcceptedRows(acts, k - 1) + (if Accepted(acts, k - 1) then acts[k - 1].rows else [])
  }

  lemma {:induction false} RememberConcat(m: Memory, a: seq<Seat>, b: seq<Seat>)
    ensures RememberAll(m, a + b) == RememberAll(RememberAll(m, a), b)
  {
    if b == [] {
      assert a + b == a;
    } else {
      assert (a + b)[..|a + b| - 1] == a + b[..|b| - 1];
      RememberConcat(m, a, b[..|b| - 1]);
    }
  }

  /** The memory is that of all accepted rows. */
  lemma {:induction false} MemoryHistory(acts: seq<Act>, k: nat)
    requires k <= |acts|
    ensures At(acts, k).memory == RememberAll(NoMemory, AcceptedRows(acts, k))
  {
    if k > 0 {
      var before := AcceptedRows(acts, k - 1);
      MemoryHistory(acts, k - 1);
      if Accepted(acts, k - 1) {
        RememberConcat(NoMemory, before, acts[k - 1].rows);
      } else {
        assert before + [] == before;
      }
    }
  }

  /** The cache holds the rows of the accepted fetch with the newest observation. */
  lemma {:induction false} CacheHistory(acts: seq<Act>, k: nat)
    requires k <= |acts|
    ensures At(acts, k).initialized ==>
      exists i :: 0 <= i < k && Accepted(acts, i) && acts[i].rows == At(acts, k).rows &&
        acts[i].observed == At(acts, k).at
    ensures forall i :: 0 <= i < k && Accepted(acts, i) ==>
      At(acts, k).initialized && acts[i].observed <= At(acts, k).at
  {
    if k > 0 {
      CacheHistory(acts, k - 1);
      var c, d := At(acts, k - 1), At(acts, k);
      if Accepted(acts, k - 1) {
        assert acts[k - 1].rows == d.rows && acts[k - 1].observed == d.at;
      } else if d.initialized {
        var i :| 0 <= i < k - 1 && Accepted(acts, i) && acts[i].rows == c.rows && acts[i].observed == c.at;
        assert acts[i].rows == d.rows && acts[i].observed == d.at;
      }
    }
  }

  /**
   * For rows with names: a base name is remembered as n exactly when some
   * accepted row had that base and every accepted row with it was named n.
   */
  lemma RememberedExactly(acts: seq<Act>, k: nat, base: string, n: string)
    requires k <= |acts| && base != "" && n != ""
    requires forall i :: 0 <= i < |AcceptedRows(acts, k)| ==> AcceptedRows(acts, k)[i].name != ""
    ensures var m := At(acts, k).memory; var rows := AcceptedRows(acts, k);
      (base in m.remembered && m.remembered[base] == n) <==>
      ((exists i :: 0 <= i < |rows| && rows[i].baseName == base)
       && forall i :: 0 <= i < |rows| && rows[i].baseName == base ==> rows[i].name == n)
  {
    var rows := AcceptedRows(acts, k);
    var names := NamesFor(rows, base);
    MemoryHistory(acts, k);
    MemoryMeans(rows, base, n);
    NamesForAll(rows, base);
    if forall i :: 0 <= i < |rows| && rows[i].baseName == base ==> rows[i].name == n {
      assert forall x :: x in names ==> x == n;
      assert forall i :: 0 <= i < |names| ==> names[i] in names;
      if i :| 0 <= i < |rows| && rows[i].baseName == base { assert rows[i].name in names; }
    }
    if names != [] && Agree(names) && names[0] == n {
      assert names[0] in names;
      forall i | 0 <= i < |rows| && rows[i].baseName == base ensures rows[i].name == n {
        assert rows[i].name in names;
        var j :| 0 <= j < |names| && names[j] == rows[i].name;
      }
    }
  }

  /** The cached observation time never goes back. */
  lemma {:induction false} ObservationNeverGoesBack(acts: seq<Act>, i: nat, j: nat)
    requires i <= j <= |acts| && At(acts, i).initialized
    ensures At(acts, j).initialized && At(acts, i).at <= At(acts, j).at
    decreases j
  {
    if i < j { ObservationNeverGoesBack(acts, i, j - 1); }
  }

  /** The expiries among some steps, in the order they took the lock. */
  function Expiries(acts: seq<Act>): seq<Act> {
    if acts == [] then []
    else
      var init, a := Expiries(acts[..|acts| - 1]), acts[|acts| - 1];
      if a.Change? then init + [a] else init
  }

  /** The expiry that landed last carries the greatest read. */
  predicate LastReadGreatest(changes: seq<Act>) {
    forall i :: 0 <= i < |changes| && changes[i].Change? && changes[|changes| - 1].Change? ==>
      changes[i].read <= changes[|changes| - 1].read
  }

  /** The mark is the read of the expiry that landed last. */
  lemma {:induction false} ChangedIsLast(acts: seq<Act>, k: nat)
    requires k <= |acts|
    ensures var cs := Expiries(acts[..k]);
      && (forall a :: a in cs ==> a.Change?) && (forall i :: 0 <= i < k && acts[i].Change? ==> acts[i] in cs)
      && At(acts, k).changed == if cs == [] then None else Some(cs[|cs| - 1].read)
  {
    if k > 0 {
      ChangedIsLast(acts, k - 1);
      assert acts[..k][..k - 1] == acts[..k - 1];
    }
  }

  /**
   * A fresh read serves the rows of an accepted fetch that began within the
   * bound, and no earlier than the clock read by the expiry that landed last.
   */
  lemma FreshIsFresh(acts: seq<Act>, k: nat, now: int, bound: int) returns (i: nat)
    requires k <= |acts| && IsFresh(At(acts, k), now, bound)
    ensures i < k && Accepted(acts, i) && acts[i].rows == At(acts, k).rows
    ensures now - bound <= acts[i].observed <= now
    ensures var cs := Expiries(acts[..k]); cs != [] ==> cs[|cs| - 1].Change? && cs[|cs| - 1].read <= acts[i].observed
    ensures LastReadGreatest(Expiries(acts[..k])) ==> forall j :: 0 <= j < k && acts[j].Change? ==>
      acts[j].read <= acts[i].observed
  {
    hide At, Expiries, LastReadGreatest;
    CacheHistory(acts, k);
    ChangedIsLast(acts, k);
    i :| 0 <= i < k && Accepted(acts, i) && acts[i].rows == At(acts, k).rows && acts[i].observed == At(acts, k).at;
    var cs := Expiries(acts[..k]);
    forall j | 0 <= j < k && acts[j].Change? && LastReadGreatest(cs) ensures acts[j].read <= acts[i].observed {
      GreatestBounds(cs, acts[j]);
    }
  }

  lemma GreatestBounds(cs: seq<Act>, a: Act)
    requires LastReadGreatest(cs) && (forall x :: x in cs ==> x.Change?) && a in cs
    ensures a.Change? && cs[|cs| - 1].Change? && a.read <= cs[|cs| - 1].read
  {
  }

  /**
   * In every timely run with these expiries, fresh rows come from a fetch begun
   * no earlier than any clock read by one of them.
   */
  ghost predicate NeverStale(changes: seq<Act>) {
    forall acts, now, bound :: Monotone(acts) && Expiries(acts) == changes && IsFresh(At(acts, |acts|), now, bound) ==>
      forall j :: 0 <= j < |changes| && changes[j].Change? ==> changes[j].read <= At(acts, |acts|).at
  }

  lemma {:induction false} ExpiriesOfChanges(changes: seq<Act>)
    requires forall i :: 0 <= i < |changes| ==> changes[i].Change?
    ensures Expiries(changes) == changes
  {
    if changes != [] { ExpiriesOfChanges(changes[..|changes| - 1]); }
  }

  lemma {:induction false} AtOfPrefix(acts: seq<Act>, more: seq<Act>, k: nat)
    requires k <= |acts|
    ensures At(acts + more, k) == At(acts, k)
  {
    if k > 0 { AtOfPrefix(acts, more, k - 1); }
  }

  /** With no fetch landed yet, nothing is cached. */
  lemma {:induction false} OnlyChanges(changes: seq<Act>, k: nat)
    requires k <= |changes| && forall i :: 0 <= i < |changes| ==> changes[i].Change?
    ensures !At(changes, k).initialized
  {
    if k > 0 { OnlyChanges(changes, k - 1); }
  }

  /** A fetch begun at the last expiry's read lands and is fresh, though another expiry read a later time. */
  lemma StaleRun(changes: seq<Act>, j: nat) returns (acts: seq<Act>, now: int)
    requires Monotone(changes) && (forall i :: 0 <= i < |changes| ==> changes[i].Change?)
    requires j < |changes| && changes[|changes| - 1].read < changes[j].read
    ensures Monotone(acts) && Expiries(acts) == changes && IsFresh(At(acts, |acts|), now, 0) &&
      At(acts, |acts|).at < changes[j].read
  {
    var n := |changes|;
    var last := changes[n - 1];
    acts, now := changes + [Land([], last.read, last.now)], last.read;
    ExpiriesOfChanges(changes);
    LandsLast(changes, last.read, last.now);
    MarkOfChanges(changes);
  }

  lemma MarkOfChanges(changes: seq<Act>)
    requires changes != [] && forall i :: 0 <= i < |changes| ==> changes[i].Change?
    ensures !At(changes, |changes|).initialized && At(changes, |changes|).changed == Some(changes[|changes| - 1].read)
  {
    OnlyChanges(changes, |changes|);
  }

  /** One more fetch lands. */
  lemma LandsLast(acts: seq<Act>, observed: int, now: int)
    requires Monotone(acts) && acts != [] && acts[|acts| - 1].now <= now && observed <= now
    ensures var more := acts + [Land([], observed, now)];
      && Monotone(more) && Expiries(more) == Expiries(acts)
      && At(more, |more|) == SetObserved(At(acts, |acts|), [], observed)
  {
    var land := Land([], observed, now);
    AtOfPrefix(acts, [land], |acts|);
    assert (acts + [land])[..|acts|] == acts;
    forall i | 0 <= i < |acts| ensures (acts + [land])[i].now <= now { assert acts[i].now <= acts[|acts| - 1].now; }
  }

  /**
   * Fresh rows are no older than every clock an expiry read, in every timely
   * run with given expiries, exactly when the one that landed last carries the
   * greatest read.
   */
  lemma FreshExactlyWhenInOrder(changes: seq<Act>)
    requires Monotone(changes) && forall i :: 0 <= i < |changes| ==> changes[i].Change?
    ensures NeverStale(changes) <==> LastReadGreatest(changes)
  {
    if LastReadGreatest(changes) {
      forall acts, now, bound | Monotone(acts) && Expiries(acts) == changes && IsFresh(At(acts, |acts|), now, bound)
        ensures forall j :: 0 <= j < |changes| && changes[j].Change? ==> changes[j].read <= At(acts, |acts|).at
      {
        ChangedIsLast(acts, |acts|);
        assert acts[..|acts|] == acts;
      }
    } else {
      var j :| 0 <= j < |changes| && changes[j].Change? && changes[|changes| - 1].Change? &&
        changes[j].read > changes[|changes| - 1].read;
      var acts, now := StaleRun(changes, j);
      assert !NeverStale(changes);
    }
  }

  /** Expiries that do not overlap, each reading the clock after the one before has landed, are in order. */
  lemma ApartIsInOrder(changes: seq<Act>)
    requires Monotone(changes) && forall i :: 0 <= i < |changes| ==> changes[i].Change?
    requires forall i, j :: 0 <= i < j < |changes| ==> changes[i].now <= changes[j].read
    ensures LastReadGreatest(changes)
  {
  }

  /** Two overlapping launches read 3 and 5 and land the other way round: a fetch begun at 4 is served fresh. */
  lemma OverlappingExpiriesExample()
    ensures var acts := [Change(5, 6), Change(3, 7), Land([], 4, 8)];
      Monotone(acts) && IsFresh(At(acts, 3), 9, 10) && At(acts, 3).at == 4 < acts[0].read
  {
    var acts := [Change(5, 6), Change(3, 7), Land([], 4, 8)];
    assert At(acts, 1) == Expire(EmptyCache, 5) && At(acts, 2) == Expire(At(acts, 1), 3);
  }

  /** And it is the newest observation among the accepted ones. */
  lemma CachedIsNewest(acts: seq<Act>, k: nat, i: nat)
    requires i < k <= |acts| && Accepted(acts, i)
    ensures At(acts, k).initialized && acts[i].observed <= At(acts, k).at
  {
    CacheHistory(acts, k);
  }

  // ----- the code

  class Cache {
    var rows: seq<Seat>
    var initialized: bool
    var at: int
    var changed: Option<int>
    var remembered: map<string, string>
    var ambiguous: set<string>

    ghost function Value(): Cached
      reads this
    {
      Cached(rows, initialized, at, changed, Memory(remembered, ambiguous))
    }

    constructor ()
      ensures Value() == EmptyCache
    {
      rows, initialized, at, changed := [], false, 0, None;
      remembered, ambiguous := map[], {};
    }

    method SetRows(fetched: seq<Seat>, observed: int) returns (stored: bool)
      modifies this
      ensures Value() == SetObserved(old(Value()), fetched, observed)
      ensures stored <==> !(old(initialized) && observed < old(at))
    {
      if initialized && observed < at { return false; }
      rows, initialized, at := fetched, true, observed;
      var i := 0;
      while i < |fetched|
        invariant 0 <= i <= |fetched|
        invariant Memory(remembered, ambiguous) == RememberAll(old(Value()).memory, fetched[..i])
        invariant rows == fetched && initialized && at == observed && changed == old(changed)
      {
        var row := fetched[i];
        assert fetched[..i + 1][..i] == fetched[..i];
        if row.baseName != "" && row.baseName !in ambiguous {
          var name := if row.baseName in remembered then remembered[row.baseName] else "";
          if name != "" && name != row.name {
            remembered := remembered - {row.baseName};
            ambiguous := ambiguous + {row.baseName};
          } else {
            remembered := remembered[row.baseName := row.name];
          }
        }
        i := i + 1;
      }
      assert fetched[..i] == fetched;
      stored := true;
    }

    method Fresh(now: int, bound: int) returns (r: Option<seq<Seat>>)
      ensures r == if IsFresh(Value(), now, bound) then Some(rows) else None
    {
      if !initialized || now - at > bound || now < at { return None; }
      if changed.Some? && at < changed.value { return None; }
      r := Some(rows);
    }

    /** The locked part of an expiry; the clock was read before the lock was taken. */
    method MarkChanged(read: int)
      modifies this
      ensures Value() == Expire(old(Value()), read)
    {
      changed := Some(read);
    }
  }
}
