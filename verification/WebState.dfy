/**
 * One namespace of the browser state store: a last-writer-wins map with
 * revisions, delta reads by cursor, and a sweep that removes rows outright.
 * `Floor` forces full reads after a removal and `Horizon` stops a purged
 * delete from being undone.
 */
module WebState {
  import opened Common
  import opened Text

  datatype Row = Row(key: string, value: string, updated: int, writeId: string, deleted: bool)

  datatype Stored = Stored(row: Row, rev: nat)

  datatype Data = Data(rev: nat, floor: nat, horizon: int, rows: map<string, Stored>)

  const Fresh := Data(0, 0, 0, map[])

  /** Size limits, and what counts as a valid JSON value. */
  datatype Limits = Limits(maxValueBytes: nat, maxRows: nat, validJson: string -> bool)

  // ----- the write order

  /** Positive when a's (updated, writeId) wins, negative when b's does, zero for an idempotent replay. */
  function Compare(a: Row, b: Row): int {
    if a.updated > b.updated then 1
    else if a.updated < b.updated then -1
    else CompareText(a.writeId, b.writeId)
  }

  predicate Beats(a: Row, b: Row) { Compare(a, b) > 0 }

  /** The write order is a strict total order on (updated, writeId). */
  lemma {:induction false} BeatsIsStrictOrder(a: Row, b: Row, c: Row)
    ensures !Beats(a, a)
    ensures Beats(a, b) ==> !Beats(b, a)
    ensures Beats(a, b) && Beats(b, c) ==> Beats(a, c)
    ensures Beats(a, b) || Beats(b, a) || (a.updated == b.updated && a.writeId == b.writeId)
    ensures !Beats(b, a) && !Beats(c, b) ==> !Beats(c, a)
  {
    CompareTextFlips(a.writeId, b.writeId);
    CompareTextFlips(b.writeId, c.writeId);
    CompareTextFlips(a.writeId, c.writeId);
    if CompareText(a.writeId, b.writeId) > 0 && CompareText(b.writeId, c.writeId) > 0 {
      CompareTextTrans(a.writeId, b.writeId, c.writeId);
    }
    if CompareText(c.writeId, a.writeId) > 0 && CompareText(a.writeId, b.writeId) > 0 {
      CompareTextTrans(c.writeId, a.writeId, b.writeId);
    }
    if CompareText(b.writeId, c.writeId) > 0 && CompareText(c.writeId, a.writeId) > 0 {
      CompareTextTrans(b.writeId, c.writeId, a.writeId);
    }
  }

  // ----- a batch

  datatype Refusal = MissingKey | ValueTooLarge | InvalidJson | RowLimit | SaveFailed

  function RowRefusal(lim: Limits, r: Row): Option<Refusal> {
    if r.key == "" || r.writeId == "" then Some(MissingKey)
    else if |r.value| > lim.maxValueBytes then Some(ValueTooLarge)
    else if !lim.validJson(r.value) then Some(InvalidJson)
    else None
  }

  /** The refusal of the first bad row. */
  function BatchRefusal(lim: Limits, batch: seq<Row>): Option<Refusal> {
    if batch == [] then None
    else if BatchRefusal(lim, batch[..|batch| - 1]).Some? then BatchRefusal(lim, batch[..|batch| - 1])
    else RowRefusal(lim, batch[|batch| - 1])
  }

  /** The batch's winner per key. */
  function Winners(batch: seq<Row>): map<string, Row> {
    if batch == [] then map[]
    else
      var w, r := Winners(batch[..|batch| - 1]), batch[|batch| - 1];
      if r.key !in w || Beats(r, w[r.key]) then w[r.key := r] else w
  }

  /** The batch's keys in order of first appearance. */
  function Keys(batch: seq<Row>): seq<string> {
    if batch == [] then []
    else
      var ks, r := Keys(batch[..|batch| - 1]), batch[|batch| - 1];
      if r.key in Winners(batch[..|batch| - 1]) then ks else ks + [r.key]
  }

  /** A create at or below the horizon is stale: something deleted before a purge. */
  predicate IsStale(d: Data, w: Row) {
    w.key !in d.rows && d.horizon > 0 && w.updated <= d.horizon
  }

  /** Whether a batch winner is stored. */
  predicate IsStored(d: Data, w: Row) {
    !IsStale(d, w) && (w.key in d.rows ==> Beats(w, d.rows[w.key].row))
  }

  function CreatedCount(d: Data, w: map<string, Row>, ks: seq<string>): nat {
    if ks == [] then 0
    else
      var k := ks[|ks| - 1];
      CreatedCount(d, w, ks[..|ks| - 1]) + (if k in w && k !in d.rows && !IsStale(d, w[k]) then 1 else 0)
  }

  function StaleKeys(d: Data, w: map<string, Row>, ks: seq<string>): seq<string> {
    if ks == [] then []
    else
      var k := ks[|ks| - 1];
      StaleKeys(d, w, ks[..|ks| - 1]) + (if k in w && IsStale(d, w[k]) then [k] else [])
  }

  function AcceptedKeys(d: Data, w: map<string, Row>, ks: seq<string>): seq<string> {
    if ks == [] then []
    else
      var k := ks[|ks| - 1];
      AcceptedKeys(d, w, ks[..|ks| - 1]) + (if k in w && IsStored(d, w[k]) then [k] else [])
  }

  /** Stores the given keys' winners, each with the next revision. */
  function StoreAll(rows: map<string, Stored>, rev: nat, w: map<string, Row>, ks: seq<string>): map<string, Stored> {
    if ks == [] then rows
    else
      var k, earlier := ks[|ks| - 1], StoreAll(rows, rev, w, ks[..|ks| - 1]);
      if k in w then earlier[k := Stored(w[k], rev + |ks|)] else earlier
  }

  datatype Result = Refused(why: Refusal, at: nat) | Done(accepted: seq<string>, stale: seq<string>, rev: nat)

  datatype Upserted = Upserted(data: Data, result: Result)

  /** One upsert, as a function of the namespace; `saved` says whether the file could be written. */
  function Upsert(lim: Limits, d: Data, batch: seq<Row>, saved: bool): Upserted {
    if BatchRefusal(lim, batch).Some? then Upserted(d, Refused(BatchRefusal(lim, batch).value, d.rev))
    else
      var w, ks := Winners(batch), Keys(batch);
      if |d.rows| + CreatedCount(d, w, ks) > lim.maxRows then Upserted(d, Refused(RowLimit, d.rev))
      else
        var accepted := AcceptedKeys(d, w, ks);
        if accepted == [] then Upserted(d, Done([], StaleKeys(d, w, ks), d.rev))
        else if !saved then Upserted(d, Refused(SaveFailed, d.rev))
        else Upserted(d.(rev := d.rev + |accepted|, rows := StoreAll(d.rows, d.rev, w, accepted)),
                      Done(accepted, StaleKeys(d, w, ks), d.rev + |accepted|))
  }

  // ----- a sweep of one namespace

  /** Which rows a sweep removes here, and whether purging raises this namespace's horizon. */
  datatype Policy = Policy(tombstonesBefore: int, absent: Row -> bool, raisesHorizon: bool)

  predicate Purged(p: Policy, r: Row) { r.deleted && r.updated < p.tombstonesBefore }

  predicate Swept(p: Policy, r: Row) { Purged(p, r) || (!r.deleted && p.absent(r)) }

  /** h is the horizon after purging: the newest purged tombstone, unless an older horizon is newer. */
  ghost predicate IsHorizon(d: Data, p: Policy, h: int) {
    if !p.raisesHorizon then h == d.horizon
    else
      && d.horizon <= h
      && (forall k :: k in d.rows && Purged(p, d.rows[k].row) ==> d.rows[k].row.updated <= h)
      && (h == d.horizon || exists k :: k in d.rows && Purged(p, d.rows[k].row) && d.rows[k].row.updated == h)
  }

  /** One sweep takes d to e. */
  ghost predicate Sweeps(d: Data, p: Policy, saved: bool, e: Data) {
    if !saved || forall k :: k in d.rows ==> !Swept(p, d.rows[k].row) then e == d
    else
      && e.rev == d.rev + 1 && e.floor == e.rev
      && IsHorizon(d, p, e.horizon)
      && e.rows == Surviving(p, d.rows)
  }

  // ----- reads

  predicate Selected(d: Data, cursor: nat, s: Stored) { cursor < d.floor || s.rev > cursor }

  /** rows is the answer to a read from cursor: each selected row once, in revision order, and nothing else. */
  ghost predicate IsAnswer(d: Data, cursor: nat, rows: seq<Row>) {
    && (forall i :: 0 <= i < |rows| ==>
          rows[i].key in d.rows && d.rows[rows[i].key].row == rows[i] && Selected(d, cursor, d.rows[rows[i].key]))
    && (forall i, j :: 0 <= i < j < |rows| ==> d.rows[rows[i].key].rev < d.rows[rows[j].key].rev)
    && (forall k :: k in d.rows && Selected(d, cursor, d.rows[k]) ==> d.rows[k].row in rows)
  }

  /** What every operation keeps: rows under their own key, distinct revisions, none above the namespace's. */
  ghost predicate Valid(d: Data) {
    && d.floor <= d.rev && d.horizon >= 0
    && (forall k :: k in d.rows ==> d.rows[k].row.key == k && d.rows[k].rev <= d.rev)
    && (forall k, l :: k in d.rows && l in d.rows && k != l ==> d.rows[k].rev != d.rows[l].rev)
  }

  // ----- the code

  /**
   * How writing the file ends: done, failed before the file was replaced, or
   * failed after (its directory could not be synced).
   */
  datatype Save = Saved | Failed | Landed

  class Namespace {
    var data: Data
    var disk: Data
    const limits: Limits

    constructor (limits: Limits, data: Data)
      ensures this.limits == limits && this.data == data && this.disk == data
    {
      this.limits, this.data, this.disk := limits, data, data;
    }

    /** A new process reads the file. */
    method Restart()
      modifies this
      ensures data == disk == old(disk)
    {
      data := disk;
    }

    /** Writes a batch: last writer wins per key, stale creates are answered, the rest is saved at once. */
    method UpsertRows(rows: seq<Row>, save: Save) returns (result: Result)
      modifies this
      ensures Upserted(data, result) == Upsert(limits, old(data), rows, save.Saved?)
      ensures var next := Upsert(limits, old(data), rows, true).data;
        disk == if save.Failed? || next == old(data) then old(disk) else next
    {
      hide StoreAll, AcceptedKeys, StaleKeys, Winners, Keys, BatchRefusal, CreatedCount;
      var refusal, keys, candidates := Gather(limits, rows);
      if refusal.Some? { return Refused(refusal.value, data.rev); }
      KeysMean(rows);
      var stale, newRows := Screen(data, keys, candidates);
      if |data.rows| + newRows > limits.maxRows { return Refused(RowLimit, data.rev); }
      var next, accepted := StoreWinners(data, keys, candidates, stale);
      if accepted == [] { return Done([], stale, data.rev); }
      if !save.Failed? { disk := next; }
      if !save.Saved? { return Refused(SaveFailed, data.rev); }
      data := next;
      result := Done(accepted, stale, next.rev);
    }

    /** Checks every row and keeps each key's winner, keys in order of first appearance. */
    static method Gather(limits: Limits, rows: seq<Row>)
      returns (refusal: Option<Refusal>, keys: seq<string>, candidates: map<string, Row>)
      ensures refusal == BatchRefusal(limits, rows)
      ensures refusal.None? ==> keys == Keys(rows) && candidates == Winners(rows)
    {
      refusal, keys, candidates := None, [], map[];
      var i := 0;
      while i < |rows|
        invariant 0 <= i <= |rows|
        invariant refusal.None? && BatchRefusal(limits, rows[..i]).None?
        invariant keys == Keys(rows[..i]) && candidates == Winners(rows[..i])
      {
        var candidate := rows[i];
        assert rows[..i + 1][..i] == rows[..i] && rows[..i + 1][i] == candidate;
        if candidate.key == "" || candidate.writeId == "" {
          refusal := Some(MissingKey);
        } else if |candidate.value| > limits.maxValueBytes {
          refusal := Some(ValueTooLarge);
        } else if !limits.validJson(candidate.value) {
          refusal := Some(InvalidJson);
        }
        if refusal.Some? {
          FirstRefusalStays(limits, rows, i + 1);
          return;
        }
        if candidate.key !in candidates {
          keys := keys + [candidate.key];
          candidates := candidates[candidate.key := candidate];
        } else if Beats(candidate, candidates[candidate.key]) {
          candidates := candidates[candidate.key := candidate];
        }
        i := i + 1;
      }
      assert rows[..i] == rows;
    }

    /** Separates the creates at or below the horizon from the rows that are new. */
    static method Screen(d: Data, keys: seq<string>, w: map<string, Row>) returns (stale: seq<string>, newRows: nat)
      requires forall k :: k in keys ==> k in w && w[k].key == k
      ensures newRows == CreatedCount(d, w, keys) && stale == StaleKeys(d, w, keys)
    {
      stale, newRows := [], 0;
      var i := 0;
      while i < |keys|
        invariant 0 <= i <= |keys|
        invariant newRows == CreatedCount(d, w, keys[..i])
        invariant stale == StaleKeys(d, w, keys[..i])
      {
        var key := keys[i];
        assert keys[..i + 1][..i] == keys[..i];
        if key !in d.rows {
          if d.horizon > 0 && w[key].updated <= d.horizon {
            stale := stale + [key];
          } else {
            newRows := newRows + 1;
          }
        }
        i := i + 1;
      }
      assert keys[..i] == keys;
    }

    /** Stores every winner that is not stale and beats what is stored, one revision each. */
    static method StoreWinners(d: Data, keys: seq<string>, w: map<string, Row>, stale: seq<string>)
      returns (next: Data, accepted: seq<string>)
      requires forall k :: k in keys ==> k in w && w[k].key == k
      requires forall i, j :: 0 <= i < j < |keys| ==> keys[i] != keys[j]
      requires stale == StaleKeys(d, w, keys)
      ensures accepted == AcceptedKeys(d, w, keys)
      ensures next == d.(rev := d.rev + |accepted|, rows := StoreAll(d.rows, d.rev, w, accepted))
    {
      hide StoreAll, AcceptedKeys, StaleKeys;
      next, accepted := d, [];
      AcceptNone(d, w);
      assert keys[..0] == [];
      var i := 0;
      while i < |keys|
        invariant 0 <= i <= |keys|
        invariant accepted == AcceptedKeys(d, w, keys[..i])
        invariant next == d.(rev := d.rev + |accepted|, rows := StoreAll(d.rows, d.rev, w, accepted))
      {
        var key := keys[i];
        AcceptNext(d, w, keys, i);
        if key !in stale && !(key in next.rows && !Beats(w[key], next.rows[key].row)) {
          StoreSnoc(d.rows, d.rev, w, accepted, key);
          next := next.(rev := next.rev + 1);
          next := next.(rows := next.rows[key := Stored(w[key], next.rev)]);
          accepted := accepted + [key];
        }
        i := i + 1;
      }
      assert keys[..i] == keys;
    }

    /** Answers a cursor: what changed since, or every row when a removal may have been missed. */
    method Since(revision: nat) returns (rows: seq<Row>, rev: nat, horizon: int)
      requires Valid(data)
      ensures IsAnswer(data, revision, rows) && rev == data.rev && horizon == data.horizon
    {
      var changed := Changed(data, revision);
      rows := seq(|changed|, i requires 0 <= i < |changed| => changed[i].row);
      forall k | k in data.rows && Selected(data, revision, data.rows[k]) ensures data.rows[k].row in rows {
        var i :| 0 <= i < |changed| && changed[i] == data.rows[k];
        assert rows[i] == data.rows[k].row;
      }
      rev, horizon := data.rev, data.horizon;
    }

    /** The selected rows, visited in any order and kept sorted by revision. */
    static method Changed(d: Data, revision: nat) returns (changed: seq<Stored>)
      requires Valid(d)
      ensures forall i :: 0 <= i < |changed| ==>
        changed[i].row.key in d.rows && d.rows[changed[i].row.key] == changed[i] && Selected(d, revision, changed[i])
      ensures forall i, j :: 0 <= i < j < |changed| ==> changed[i].rev < changed[j].rev
      ensures forall k :: k in d.rows && Selected(d, revision, d.rows[k]) ==> d.rows[k] in changed
    {
      changed := [];
      var todo := d.rows.Keys;
      while todo != {}
        invariant todo <= d.rows.Keys
        invariant forall i, j :: 0 <= i < j < |changed| ==> changed[i].rev < changed[j].rev
        invariant forall s :: s in changed ==>
          s.row.key in d.rows && s.row.key !in todo && d.rows[s.row.key] == s && Selected(d, revision, s)
        invariant forall k :: k in d.rows && k !in todo && Selected(d, revision, d.rows[k]) ==> d.rows[k] in changed
        decreases |todo|
      {
        var key :| key in todo;
        var candidate := d.rows[key];
        if revision < d.floor || candidate.rev > revision {
          forall i | 0 <= i < |changed| ensures changed[i].rev != candidate.rev { assert changed[i] in changed; }
          changed := Insert(changed, candidate);
        }
        todo := todo - {key};
      }
      forall i | 0 <= i < |changed|
        ensures changed[i].row.key in d.rows && d.rows[changed[i].row.key] == changed[i] &&
          Selected(d, revision, changed[i])
      {
        assert changed[i] in changed;
      }
    }

    /** Places a row by revision in a list ordered by revision. */
    static method Insert(changed: seq<Stored>, s: Stored) returns (r: seq<Stored>)
      requires forall i, j :: 0 <= i < j < |changed| ==> changed[i].rev < changed[j].rev
      requires forall i :: 0 <= i < |changed| ==> changed[i].rev != s.rev
      ensures forall i, j :: 0 <= i < j < |r| ==> r[i].rev < r[j].rev
      ensures forall x :: x in r <==> x == s || x in changed
    {
      var i := |changed|;
      while i > 0 && changed[i - 1].rev > s.rev
        invariant 0 <= i <= |changed|
        invariant forall j :: i <= j < |changed| ==> changed[j].rev > s.rev
      {
        i := i - 1;
      }
      r := changed[..i] + [s] + changed[i..];
      InsertedIsOrdered(changed, s, i, r);
    }

    /** Removes old tombstones and absent rows; any removal takes one revision, which becomes the floor. */
    method SweepRows(p: Policy, save: Save) returns (removed: nat)
      modifies this
      ensures Sweeps(old(data), p, save.Saved?, data)
      ensures if save.Failed? || removed == 0 then disk == old(disk)
        else Sweeps(old(data), p, true, disk) && (save.Saved? ==> disk == data)
      ensures removed == |old(data).rows| - |Surviving(p, old(data).rows)|
    {
      var kept, horizon;
      kept, horizon, removed := Survivors(data, p);
      if removed == 0 { return; }
      var next := Data(data.rev + 1, data.rev + 1, horizon, kept);
      if !save.Failed? { disk := next; }
      if !save.Saved? { return; }
      data := next;
    }

    /** Visits every row once, keeping the survivors and the newest purged tombstone's time. */
    static method Survivors(d: Data, p: Policy) returns (kept: map<string, Stored>, horizon: int, removed: nat)
      ensures kept == Surviving(p, d.rows)
      ensures removed == |d.rows| - |kept|
      ensures removed == 0 <==> forall k :: k in d.rows ==> !Swept(p, d.rows[k].row)
      ensures IsHorizon(d, p, horizon)
    {
      kept, horizon, removed := map[], d.horizon, 0;
      var done: set<string> := {};
      while d.rows.Keys - done != {}
        invariant done <= d.rows.Keys && SurvivorsSoFar(d, p, done, kept)
        invariant removed == |done| - |kept|
        invariant HorizonSoFar(d, p, done, horizon)
        decreases d.rows.Keys - done
      {
        var key :| key in d.rows.Keys - done;
        var row := d.rows[key].row;
        var purge := row.deleted && row.updated < p.tombstonesBefore;
        var absent := !row.deleted && p.absent(row);
        HorizonVisits(d, p, done, horizon, key);
        SurvivorsVisit(d, p, done, kept, key);
        if purge || absent {
          removed := removed + 1;
          if purge && p.raisesHorizon && row.updated > horizon { horizon := row.updated; }
        } else {
          kept := kept[key := d.rows[key]];
        }
        done := done + {key};
      }
      assert done == d.rows.Keys;
      SurvivorsDone(d, p, kept);
    }
  }

  lemma {:induction false} InsertedIsOrdered(changed: seq<Stored>, s: Stored, i: nat, r: seq<Stored>)
    requires i <= |changed| && r == changed[..i] + [s] + changed[i..]
    requires forall a, b :: 0 <= a < b < |changed| ==> changed[a].rev < changed[b].rev
    requires i > 0 ==> changed[i - 1].rev < s.rev
    requires forall j :: i <= j < |changed| ==> changed[j].rev > s.rev
    ensures forall a, b :: 0 <= a < b < |r| ==> r[a].rev < r[b].rev
    ensures forall x :: x in r <==> x == s || x in changed
  {
    forall j | 0 <= j < i ensures changed[j].rev < s.rev { assert j == i - 1 || changed[j].rev < changed[i - 1].rev; }
    forall a, b | 0 <= a < b < |r| ensures r[a].rev < r[b].rev {
      InsertedAt(changed, s, i, a);
      InsertedAt(changed, s, i, b);
    }
    InsertedMembers(changed, s, i);
  }

  lemma {:induction false} InsertedMembers(changed: seq<Stored>, s: Stored, i: nat)
    requires i <= |changed|
    ensures forall x :: x in changed[..i] + [s] + changed[i..] <==> x == s || x in changed
  {
    assert changed == changed[..i] + changed[i..];
  }

  lemma {:induction false} InsertedAt(changed: seq<Stored>, s: Stored, i: nat, a: nat)
    requires i <= |changed| && a <= |changed|
    ensures (changed[..i] + [s] + changed[i..])[a] == if a < i then changed[a] else if a == i then s else changed[a - 1]
  {
  }

  /** The rows kept after visiting only the keys in `done`. */
  ghost predicate SurvivorsSoFar(d: Data, p: Policy, done: set<string>, kept: map<string, Stored>)
    requires done <= d.rows.Keys
  {
    && (forall k :: k in kept <==> k in done && !Swept(p, d.rows[k].row))
    && (forall k :: k in kept ==> kept[k] == d.rows[k])
    && kept.Keys <= done
  }

  lemma {:induction false} SurvivorsVisit(d: Data, p: Policy, done: set<string>, kept: map<string, Stored>, key: string)
    requires done <= d.rows.Keys && key in d.rows && key !in done && SurvivorsSoFar(d, p, done, kept)
    ensures |done + {key}| == |done| + 1 && key !in kept
    ensures if Swept(p, d.rows[key].row) then SurvivorsSoFar(d, p, done + {key}, kept)
            else
              SurvivorsSoFar(d, p, done + {key}, kept[key := d.rows[key]]) && |kept[key := d.rows[key]]| == |kept| + 1
  {
    assert kept[key := d.rows[key]].Keys == kept.Keys + {key};
  }

  lemma {:induction false} SurvivorsDone(d: Data, p: Policy, kept: map<string, Stored>)
    requires SurvivorsSoFar(d, p, d.rows.Keys, kept)
    ensures kept == Surviving(p, d.rows)
    ensures |kept| == |d.rows| <==> forall k :: k in d.rows ==> !Swept(p, d.rows[k].row)
  {
    if |kept| == |d.rows| {
      SubsetOfSameSize(kept.Keys, d.rows.Keys);
    } else {
      assert kept.Keys != d.rows.Keys;
    }
  }

  lemma {:induction false} SubsetOfSameSize<T>(a: set<T>, b: set<T>)
    requires a <= b && |a| == |b|
    ensures a == b
  {
    assert b == a + (b - a);
    assert |b - a| == |b| - |a|;
  }

  function Surviving(p: Policy, rows: map<string, Stored>): map<string, Stored> {
    map k | k in rows && !Swept(p, rows[k].row) :: rows[k]
  }

  /** The horizon after visiting only the keys in `done`. */
  ghost predicate HorizonSoFar(d: Data, p: Policy, done: set<string>, h: int)
    requires done <= d.rows.Keys
  {
    if !p.raisesHorizon then h == d.horizon
    else
      && d.horizon <= h
      && (forall k :: k in done && Purged(p, d.rows[k].row) ==> d.rows[k].row.updated <= h)
      && (h == d.horizon || exists k :: k in done && Purged(p, d.rows[k].row) && d.rows[k].row.updated == h)
  }

  lemma {:induction false} HorizonVisits(d: Data, p: Policy, done: set<string>, h: int, key: string)
    requires done <= d.rows.Keys && key in d.rows && HorizonSoFar(d, p, done, h)
    ensures var r := d.rows[key].row;
      HorizonSoFar(d, p, done + {key}, if Purged(p, r) && p.raisesHorizon && r.updated > h then r.updated else h)
  {
  }

  /** Winners come from the batch, under their own key; the keys are theirs, each once. */
  lemma {:induction false} KeysMean(batch: seq<Row>)
    ensures forall k :: k in Winners(batch) ==> Winners(batch)[k] in batch && Winners(batch)[k].key == k
    ensures forall r :: r in batch ==> r.key in Winners(batch) && !Beats(r, Winners(batch)[r.key])
    ensures forall k :: k in Keys(batch) <==> k in Winners(batch)
    ensures forall i, j :: 0 <= i < j < |Keys(batch)| ==> Keys(batch)[i] != Keys(batch)[j]
  {
    if batch != [] {
      var init, r := batch[..|batch| - 1], batch[|batch| - 1];
      KeysMean(init);
      assert batch == init + [r];
      forall x | x in batch ensures x.key in Winners(batch) && !Beats(x, Winners(batch)[x.key]) {
        if x.key in Winners(init) {
          BeatsIsStrictOrder(Winners(batch)[x.key], Winners(init)[x.key], x);
          BeatsIsStrictOrder(r, r, r);
        } else {
          assert x == r;
          BeatsIsStrictOrder(r, r, r);
        }
      }
    }
  }

  lemma {:induction false} ListsMean(d: Data, w: map<string, Row>, ks: seq<string>)
    ensures forall k :: k in StaleKeys(d, w, ks) <==> k in ks && k in w && IsStale(d, w[k])
    ensures forall k :: k in AcceptedKeys(d, w, ks) <==> k in ks && k in w && IsStored(d, w[k])
  {
    if ks != [] {
      ListsMean(d, w, ks[..|ks| - 1]);
      assert ks == ks[..|ks| - 1] + [ks[|ks| - 1]];
    }
  }

  lemma {:induction false} AcceptSnoc(d: Data, w: map<string, Row>, ks: seq<string>, key: string)
    requires key in w
    ensures AcceptedKeys(d, w, ks + [key]) == AcceptedKeys(d, w, ks) + (if IsStored(d, w[key]) then [key] else [])
  {
    assert (ks + [key])[..|ks|] == ks;
  }

  lemma {:induction false} AcceptNone(d: Data, w: map<string, Row>)
    ensures AcceptedKeys(d, w, []) == [] && StoreAll(d.rows, d.rev, w, []) == d.rows
  {
  }

  /** What accepting decides at the next key, and that earlier stores leave its row alone. */
  lemma {:induction false} AcceptNext(d: Data, w: map<string, Row>, keys: seq<string>, i: nat)
    requires i < |keys| && keys[i] in w && w[keys[i]].key == keys[i]
    requires forall a, b :: 0 <= a < b < |keys| ==> keys[a] != keys[b]
    ensures var accepted := AcceptedKeys(d, w, keys[..i]); var key := keys[i];
      var rows := StoreAll(d.rows, d.rev, w, accepted);
      && (key in rows <==> key in d.rows) && (key in d.rows ==> rows[key] == d.rows[key])
      && (key in StaleKeys(d, w, keys) <==> IsStale(d, w[key]))
      && AcceptedKeys(d, w, keys[..i + 1]) == if IsStored(d, w[key]) then accepted + [key] else accepted
  {
    ListsMean(d, w, keys[..i]);
    ListsMean(d, w, keys);
    UntouchedByStore(d.rows, d.rev, w, AcceptedKeys(d, w, keys[..i]), keys[i]);
    AcceptSnoc(d, w, keys[..i], keys[i]);
    assert keys[..i + 1] == keys[..i] + [keys[i]];
  }

  lemma {:induction false} StoreSnoc(rows: map<string, Stored>, rev: nat, w: map<string, Row>, ks: seq<string>,
    key: string)
    requires key in w
    ensures StoreAll(rows, rev, w, ks + [key]) == StoreAll(rows, rev, w, ks)[key := Stored(w[key], rev + |ks| + 1)]
  {
    assert (ks + [key])[..|ks|] == ks;
  }

  lemma {:induction false} UntouchedByStore(rows: map<string, Stored>, rev: nat, w: map<string, Row>, ks: seq<string>,
    key: string)
    requires key !in ks
    ensures key in StoreAll(rows, rev, w, ks) <==> key in rows
    ensures key in rows ==> StoreAll(rows, rev, w, ks)[key] == rows[key]
  {
    if ks != [] { UntouchedByStore(rows, rev, w, ks[..|ks| - 1], key); }
  }

  lemma {:induction false} FirstRefusalStays(lim: Limits, rows: seq<Row>, n: nat)
    requires n <= |rows| && BatchRefusal(lim, rows[..n]).Some?
    ensures BatchRefusal(lim, rows) == BatchRefusal(lim, rows[..n])
    decreases |rows|
  {
    if n < |rows| {
      assert rows[..|rows| - 1][..n] == rows[..n];
      FirstRefusalStays(lim, rows[..|rows| - 1], n);
    } else {
      assert rows[..n] == rows;
    }
  }
}
