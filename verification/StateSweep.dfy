/** Which browser-state rows the serve's sweep may remove, and what that protects. Times are in milliseconds. */
module StateSweep {
  import opened Common
  import opened Projection
  import opened Roster
  import opened WebState
  import opened WebStateRuns

  const DAY := 24 * 60 * 60 * 1000
  const ABSENT_AGENT_RETENTION := 7 * DAY
  const TOMBSTONE_RETENTION := 30 * DAY

  predicate AgentKeyed(namespace: string) { namespace == "read.markers" }

  predicate OwnerContent(namespace: string) { namespace in ["notes", "spaces", "spaces.members"] }

  /** Every name or base name on the roster. */
  function Present(rows: seq<Seat>): set<string> {
    if rows == [] then {}
    else
      var r := rows[|rows| - 1];
      Present(rows[..|rows| - 1]) + {r.name} + (if r.baseName != "" then {r.baseName} else {})
  }

  /** When the store last saw an agent: its last event or its closing, whichever is later. */
  function LastKnown(v: Agent): int {
    if v.closed.Some? && v.closed.value.at > v.lastSeen then v.closed.value.at else v.lastSeen
  }

  /** A live row's agent is gone: off the roster, and neither written nor seen within the retention. */
  predicate AgentGone(now: int, present: set<string>, projection: State, r: Row) {
    var cutoff := now - ABSENT_AGENT_RETENTION;
    && r.key !in present && r.updated < cutoff
    && var list := Incarnations(projection, r.key); (list != [] ==> LastKnown(list[|list| - 1]) < cutoff)
  }

  /** The policy of one sweep, as it applies to one namespace. Without a roster and a projection nothing is absent. */
  function PolicyFor(namespace: string, now: int, roster: Option<seq<Seat>>, projection: Option<State>): Policy {
    Policy(now - TOMBSTONE_RETENTION,
           (r: Row) => roster.Some? && projection.Some? && AgentKeyed(namespace) &&
             AgentGone(now, Present(roster.value), projection.value, r),
           OwnerContent(namespace))
  }

  /** Builds the set of present names row by row. */
  method CollectPresent(rows: seq<Seat>) returns (present: set<string>)
    ensures present == Present(rows)
    ensures forall n :: n in present <==>
      exists i :: 0 <= i < |rows| && (rows[i].name == n || (rows[i].baseName == n && n != ""))
  {
    present := {};
    var i := 0;
    while i < |rows|
      invariant 0 <= i <= |rows|
      invariant present == Present(rows[..i])
      invariant forall n :: n in present <==>
        exists j :: 0 <= j < i && (rows[j].name == n || (rows[j].baseName == n && n != ""))
    {
      assert rows[..i + 1][..i] == rows[..i];
      present := present + {rows[i].name};
      if rows[i].baseName != "" { present := present + {rows[i].baseName}; }
      i := i + 1;
    }
    assert rows[..i] == rows;
  }

  /**
   * The sweeps of one namespace in a run all come from the serve's policy,
   * whatever the clock, roster and store said.
   */
  ghost predicate ServeSweeps(namespace: string, ops: seq<Op>) {
    forall i :: 0 <= i < |ops| && ops[i].SweepOp? ==>
      exists now, roster, projection :: ops[i].policy == PolicyFor(namespace, now, roster, projection)
  }

  /**
   * Owner content: in notes, spaces and spaces.members no sweep removes a live
   * row, and once a delete with a positive time is stored, every row stored
   * for its key afterwards strictly beats it, over every run of the serve.
   */
  lemma OwnerContentStaysDeleted(namespace: string, lim: Limits, ds: seq<Data>, ops: seq<Op>, tomb: Row, i: nat, j: nat)
    requires OwnerContent(namespace) && ServeSweeps(namespace, ops) && Run(lim, ds, ops) && Valid(ds[0])
    requires i < j < |ds| && tomb.deleted && tomb.updated > 0 && tomb.key in ds[i].rows &&
      ds[i].rows[tomb.key].row == tomb
    ensures tomb.key in ds[j].rows ==> ds[j].rows[tomb.key].row == tomb || Beats(ds[j].rows[tomb.key].row, tomb)
    ensures tomb.key in ds[j].rows && (tomb.key in ds[j - 1].rows ==> ds[j].rows[tomb.key] != ds[j - 1].rows[tomb.key])
            ==> Beats(ds[j].rows[tomb.key].row, tomb)
  {
    RunKeepsValid(lim, ds, ops, i);
    var es, os := ds[i..], ops[i..];
    forall k | 0 <= k < |os| && os[k].SweepOp?
      ensures os[k].policy.raisesHorizon && forall r :: !os[k].policy.absent(r) {
      assert os[k] == ops[i + k];
      OwnerPolicy(namespace, ops[i + k].policy);
    }
    forall k | 0 <= k < |os| ensures Step(lim, es[k], os[k], es[k + 1]) {
      assert es[k] == ds[i + k] && os[k] == ops[i + k] && es[k + 1] == ds[i + k + 1];
    }
    assert Protective(os);
    DeletedStaysDeleted(lim, es, os, tomb, j - i);
  }

  lemma OwnerPolicy(namespace: string, p: Policy)
    requires OwnerContent(namespace)
    requires exists now, roster, projection :: p == PolicyFor(namespace, now, roster, projection)
    ensures p.raisesHorizon && forall r :: !p.absent(r)
  {
    assert !AgentKeyed(namespace) by {
      var i :| 0 <= i < 3 && namespace == ["notes", "spaces", "spaces.members"][i];
      assert "notes"[0] == 'n' && "spaces"[0] == 's' && "spaces.members"[0] == 's' && "read.markers"[0] == 'r';
    }
  }
}
