/** The live hcom roster: one row per seat, and parents named by base name. */
module Roster {
  import opened Common

  datatype Seat = Seat(
    name: string, baseName: string, tool: string, status: string,
    session: string, parentName: string, agentId: string, pane: string, created: Option<int>)

  /** How many rows expose a base name. */
  function BaseCount(rows: seq<Seat>, base: string): nat {
    if rows == [] then 0
    else BaseCount(rows[..|rows| - 1], base) + (if rows[|rows| - 1].baseName == base then 1 else 0)
  }

  /** The last row exposing a base name. */
  function LastWithBase(rows: seq<Seat>, base: string): Option<Seat> {
    if rows == [] then None
    else if rows[|rows| - 1].baseName == base then Some(rows[|rows| - 1])
    else LastWithBase(rows[..|rows| - 1], base)
  }

  /** The one row exposing a base name, when exactly one does. */
  function ByUniqueBase(rows: seq<Seat>, base: string): Option<Seat> {
    if BaseCount(rows, base) == 1 then LastWithBase(rows, base) else None
  }

  /** The row a child's parent name identifies. */
  function Parent(rows: seq<Seat>, child: Seat): Option<Seat> {
    if child.parentName == "" then None else ByUniqueBase(rows, child.parentName)
  }

  /** The loop behind ByUniqueBase: remember the last match and count them. */
  method FindUniqueBase(rows: seq<Seat>, base: string) returns (r: Option<Seat>)
    ensures r == ByUniqueBase(rows, base)
  {
    var parent: Option<Seat>, matches := None, 0;
    var i := 0;
    while i < |rows|
      invariant 0 <= i <= |rows|
      invariant parent == LastWithBase(rows[..i], base) && matches == BaseCount(rows[..i], base)
    {
      assert rows[..i + 1][..i] == rows[..i];
      if rows[i].baseName == base {
        parent := Some(rows[i]);
        matches := matches + 1;
      }
      i := i + 1;
    }
    assert rows[..i] == rows;
    r := if matches == 1 then parent else None;
  }

  lemma {:induction false} LastWithBaseMeans(rows: seq<Seat>, base: string)
    ensures LastWithBase(rows, base).Some? ==>
      LastWithBase(rows, base).value in rows && LastWithBase(rows, base).value.baseName == base
    ensures LastWithBase(rows, base).None? <==> forall i :: 0 <= i < |rows| ==> rows[i].baseName != base
    ensures LastWithBase(rows, base).None? <==> BaseCount(rows, base) == 0
  {
    if rows != [] {
      LastWithBaseMeans(rows[..|rows| - 1], base);
      assert rows == rows[..|rows| - 1] + [rows[|rows| - 1]];
    }
  }

  lemma {:induction false} BaseCountOfTwo(rows: seq<Seat>, base: string, i: nat, j: nat)
    requires i < j < |rows| && rows[i].baseName == base && rows[j].baseName == base
    ensures BaseCount(rows, base) >= 2
  {
    var init := rows[..|rows| - 1];
    if j < |init| {
      BaseCountOfTwo(init, base, i, j);
    } else {
      assert init[i].baseName == base;
      LastWithBaseMeans(init, base);
    }
  }

  /** A unique base name picks the row at the only index that exposes it. */
  lemma UniqueBaseMeans(rows: seq<Seat>, base: string, i: nat)
    requires i < |rows| && rows[i].baseName == base
    ensures ByUniqueBase(rows, base).Some? ==> ByUniqueBase(rows, base).value == rows[i]
    ensures ByUniqueBase(rows, base).Some? ==> forall j :: 0 <= j < |rows| && rows[j].baseName == base ==> j == i
  {
    LastWithBaseMeans(rows, base);
    if ByUniqueBase(rows, base).Some? {
      forall j | 0 <= j < |rows| && rows[j].baseName == base ensures j == i {
        if j < i { BaseCountOfTwo(rows, base, j, i); }
        if i < j { BaseCountOfTwo(rows, base, i, j); }
      }
      var v := LastWithBase(rows, base).value;
      var k :| 0 <= k < |rows| && rows[k] == v;
    }
  }
}
