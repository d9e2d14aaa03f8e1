/** What the join keeps: every roster row once, every placement, and nothing else. */
module FleetRows {
  import opened Common
  import opened Text
  import opened Sorting
  import opened Roster
  import opened FleetJoin

  /** Counts the rows made from roster row i. */
  function From(i: nat): Joined -> nat { (j: Joined) => if j.bus == Some(i) then 1 else 0 }

  /** Counts the rows shown at a pane. */
  function Beside(pane: string): Joined -> nat { (j: Joined) => if j.row.pane == pane then 1 else 0 }

  function Holds(i: nat): Spot -> nat { (spot: Spot) => if i in spot.matches then 1 else 0 }

  function Width(pane: string): Spot -> nat {
    (spot: Spot) => if spot.pane != pane then 0 else if spot.matches == [] then 1 else |spot.matches|
  }

  predicate Once(spot: Spot) { forall a, b :: 0 <= a < b < |spot.matches| ==> spot.matches[a] != spot.matches[b] }

  // ----- counting what was emitted

  lemma BusRowFrom(roster: seq<Seat>, pane: string, place: Placement, i: nat)
    requires i < |roster|
    ensures BusRow(roster, pane, place, i).bus == Some(i) && BusRow(roster, pane, place, i).row.pane == pane
  {
  }

  lemma {:induction false} SpotRowsCount(roster: seq<Seat>, spot: Spot, n: nat, i: nat, pane: string)
    requires n <= |spot.matches| && Once(spot) && forall m :: 0 <= m < n ==> spot.matches[m] < |roster|
    ensures Sum(SpotRows(roster, spot, n), From(i)) == if i in spot.matches[..n] then 1 else 0
    ensures Sum(SpotRows(roster, spot, n), Beside(pane)) == if spot.pane == pane then n else 0
  {
    hide BusRow;
    if n > 0 {
      BusRowFrom(roster, spot.pane, spot.place, spot.matches[n - 1]);
      var init, row := SpotRows(roster, spot, n - 1), BusRow(roster, spot.pane, spot.place, spot.matches[n - 1]);
      SpotRowsCount(roster, spot, n - 1, i, pane);
      assert spot.matches[..n] == spot.matches[..n - 1] + [spot.matches[n - 1]];
    }
  }

  lemma {:induction false} EmittedCount(roster: seq<Seat>, spots: seq<Spot>, i: nat, pane: string)
    requires Within(roster, spots) && forall k :: 0 <= k < |spots| ==> Once(spots[k])
    ensures Sum(Emitted(roster, spots), From(i)) == Sum(spots, Holds(i))
    ensures Sum(Emitted(roster, spots), Beside(pane)) == Sum(spots, Width(pane))
  {
    hide SpotRows, GapRow;
    if spots != [] {
      var spot, init := spots[|spots| - 1], spots[..|spots| - 1];
      EmittedCount(roster, init, i, pane);
      assert spot.matches[..|spot.matches|] == spot.matches;
      SpotRowsCount(roster, spot, |spot.matches|, i, pane);
      var here := if spot.matches == [] then [GapRow(spot.pane, spot.place)]
        else SpotRows(roster, spot, |spot.matches|);
      SumConcat(Emitted(roster, init), here, From(i));
      SumConcat(Emitted(roster, init), here, Beside(pane));
      GapCount(spot.pane, spot.place, i, pane);
    }
  }

  lemma GapCount(at: string, place: Placement, i: nat, pane: string)
    ensures Sum([GapRow(at, place)], From(i)) == 0
    ensures Sum([GapRow(at, place)], Beside(pane)) == if at == pane then 1 else 0
  {
    var g := GapRow(at, place);
    assert [g] == [] + [g];
  }

  lemma {:induction false} HomelessCount(roster: seq<Seat>, spots: seq<Spot>, n: nat, i: nat, pane: string)
    requires n <= |roster| && pane != "-"
    ensures Sum(Homeless(roster, spots, n), From(i)) == if i < n && !Matched(spots, i) then 1 else 0
    ensures Sum(Homeless(roster, spots, n), Beside(pane)) == 0
  {
    if n > 0 {
      var init := Homeless(roster, spots, n - 1);
      HomelessCount(roster, spots, n - 1, i, pane);
    }
  }

  lemma AssembledCount(roster: seq<Seat>, spots: seq<Spot>, i: nat, pane: string)
    requires Within(roster, spots) && (forall k :: 0 <= k < |spots| ==> Once(spots[k])) && pane != "-"
    ensures Sum(Assembled(roster, spots), From(i)) == Sum(spots, Holds(i)) + if i < |roster| && !Matched(spots, i)
      then 1 else 0
    ensures Sum(Assembled(roster, spots), Beside(pane)) == Sum(spots, Width(pane))
  {
    var placed, rest := Emitted(roster, spots), Homeless(roster, spots, |roster|);
    SortSum(RowLess, placed + rest, From(i));
    SortSum(RowLess, placed + rest, Beside(pane));
    SumConcat(placed, rest, From(i));
    SumConcat(placed, rest, Beside(pane));
    EmittedCount(roster, spots, i, pane);
    HomelessCount(roster, spots, |roster|, i, pane);
  }

  // ----- nobody is in two places

  lemma {:induction false} BoundMeans(agents: seq<AgentInfo>, pane: string)
    ensures Bound(agents, pane).Some? ==> exists k :: 0 <= k < |agents| && agents[k].pane == pane && pane != ""
  {
    if agents != [] { BoundMeans(agents[..|agents| - 1], pane); }
  }

  lemma {:induction false} PanePlacementLive(agents: seq<AgentInfo>, panes: seq<PaneInfo>, pane: string)
    ensures PanePlacement(agents, panes, pane).Some? ==> exists k :: 0 <= k < |panes| && panes[k].id == pane
  {
    if panes != [] { PanePlacementLive(agents, panes[..|panes| - 1], pane); }
  }

  /** A validated snapshot places only at live panes. */
  lemma PlacedIsLive(snap: Snapshot, roster: seq<Seat>, pane: string)
    requires Sound(snap) && PlacementAt(snap, roster, pane).Some?
    ensures Live(snap, pane)
  {
    PanePlacementLive(snap.agents, snap.panes, pane);
    BoundMeans(snap.agents, pane);
  }

  lemma OnePlace(snap: Snapshot, roster: seq<Seat>, i: nat, p: string, q: string)
    requires Sound(snap) && At(snap, roster, i, p) && At(snap, roster, i, q)
    ensures p == q
  {
    PlacedIsLive(snap, roster, p);
    PlacedIsLive(snap, roster, q);
  }

  lemma HoldsOnce(snap: Snapshot, roster: seq<Seat>, spots: seq<Spot>, i: nat)
    requires Sound(snap) && Spots(snap, roster, spots) && i < |roster|
    ensures Sum(spots, Holds(i)) == if Matched(spots, i) then 1 else 0
  {
    if Matched(spots, i) {
      var k :| 0 <= k < |spots| && i in spots[k].matches;
      forall o | 0 <= o < |spots| && o != k ensures Holds(i)(spots[o]) == 0 {
        if i in spots[o].matches {
          OnePlace(snap, roster, i, spots[o].pane, spots[k].pane);
          assert false;
        }
      }
      SumOne(spots, Holds(i), k);
    } else {
      SumNone(spots, Holds(i));
    }
  }

  /** For a validated snapshot the join emits every roster row exactly once. */
  lemma EveryRowOnce(snap: Snapshot, roster: seq<Seat>, rows: seq<Joined>, i: nat)
    requires Sound(snap) && IsJoin(snap, roster, rows) && i < |roster|
    ensures Sum(rows, From(i)) == 1
  {
    var spots: seq<Spot> :| Within(roster, spots) && Spots(snap, roster, spots) && rows == Assembled(roster, spots);
    AssembledCount(roster, spots, i, "");
    HoldsOnce(snap, roster, spots, i);
  }

  // ----- what each row is

  /** A row is a placement nobody on the bus is at, a roster row at its pane, or a roster row at none. */
  ghost predicate RowMeans(snap: Snapshot, roster: seq<Seat>, j: Joined) {
    var place := PlacementAt(snap, roster, j.row.pane);
    if j.bus.None? then
      place.Some? && j == GapRow(j.row.pane, place.value) && forall i: nat :: !At(snap, roster, i, j.row.pane)
    else
      var i := j.bus.value;
      && i < |roster|
      && ((At(snap, roster, i, j.row.pane) && j == BusRow(roster, j.row.pane, place.value, i)) ||
          (j == HomelessRow(roster, i) && forall p :: !At(snap, roster, i, p)))
  }

  lemma {:induction false} SpotRowsMean(snap: Snapshot, roster: seq<Seat>, spot: Spot, n: nat)
    requires SpotMeans(snap, roster, spot) && n <= |spot.matches| && forall m :: 0 <= m < n ==>
      spot.matches[m] < |roster|
    ensures forall j :: j in SpotRows(roster, spot, n) ==> RowMeans(snap, roster, j)
  {
    if n > 0 {
      SpotRowsMean(snap, roster, spot, n - 1);
      assert spot.matches[n - 1] in spot.matches;
    }
  }

  lemma {:induction false} EmittedMean(snap: Snapshot, roster: seq<Seat>, spots: seq<Spot>)
    requires Within(roster, spots) && forall k :: 0 <= k < |spots| ==> SpotMeans(snap, roster, spots[k])
    ensures forall j :: j in Emitted(roster, spots) ==> RowMeans(snap, roster, j)
  {
    if spots != [] {
      var spot := spots[|spots| - 1];
      EmittedMean(snap, roster, spots[..|spots| - 1]);
      if spot.matches != [] { SpotRowsMean(snap, roster, spot, |spot.matches|); }
    }
  }

  lemma {:induction false} HomelessMean(snap: Snapshot, roster: seq<Seat>, spots: seq<Spot>, n: nat)
    requires n <= |roster| && Spots(snap, roster, spots)
    ensures forall j :: j in Homeless(roster, spots, n) ==> RowMeans(snap, roster, j)
  {
    if n > 0 {
      HomelessMean(snap, roster, spots, n - 1);
    }
  }

  /** Every row of the join is a true one. */
  lemma RowsAreTrue(snap: Snapshot, roster: seq<Seat>, rows: seq<Joined>, k: nat)
    requires IsJoin(snap, roster, rows) && k < |rows|
    ensures RowMeans(snap, roster, rows[k])
  {
    var spots: seq<Spot> :| Within(roster, spots) && Spots(snap, roster, spots) && rows == Assembled(roster, spots);
    var all := Emitted(roster, spots) + Homeless(roster, spots, |roster|);
    SortMembers(RowLess, all);
    assert rows[k] in all;
    EmittedMean(snap, roster, spots);
    HomelessMean(snap, roster, spots, |roster|);
  }

  /** No placement is dropped: its pane has as many rows as roster rows are there, and one when none is. */
  lemma EveryPlacementShown(snap: Snapshot, roster: seq<Seat>, rows: seq<Joined>, pane: string)
    requires IsJoin(snap, roster, rows) && PlacementAt(snap, roster, pane).Some? && pane != "-"
    ensures exists matches: seq<nat> ::
      (SpotMeans(snap, roster, Spot(pane, PlacementAt(snap, roster, pane).value, matches)) &&
        Sum(rows, Beside(pane)) == Max(1, |matches|))
  {
    var spots: seq<Spot> :| Within(roster, spots) && Spots(snap, roster, spots) && rows == Assembled(roster, spots);
    AssembledCount(roster, spots, 0, pane);
    var k :| 0 <= k < |spots| && spots[k].pane == pane;
    SumOne(spots, Width(pane), k);
    assert spots[k] == Spot(pane, PlacementAt(snap, roster, pane).value, spots[k].matches);
  }

  /** With uncontested claims a pane has at most one row. */
  lemma OneRowPerPane(snap: Snapshot, roster: seq<Seat>, rows: seq<Joined>, pane: string)
    requires IsJoin(snap, roster, rows) && Uncontested(roster) && pane != "-"
    ensures Sum(rows, Beside(pane)) <= 1
  {
    var spots: seq<Spot> :| Within(roster, spots) && Spots(snap, roster, spots) && rows == Assembled(roster, spots);
    AssembledCount(roster, spots, 0, pane);
    if k :| 0 <= k < |spots| && spots[k].pane == pane {
      SumOne(spots, Width(pane), k);
      FewMatches(snap, roster, spots[k]);
    } else {
      SumNone(spots, Width(pane));
    }
  }

  /** Uncontested claims leave one roster row per pane. */
  lemma SameGuest(snap: Snapshot, roster: seq<Seat>, pane: string, a: nat, b: nat)
    requires At(snap, roster, a, pane) && At(snap, roster, b, pane) && Uncontested(roster)
    ensures a == b
  {
    ClaimsMean(roster, pane);
  }

  lemma FewMatches(snap: Snapshot, roster: seq<Seat>, spot: Spot)
    requires SpotMeans(snap, roster, spot) && Uncontested(roster)
    ensures |spot.matches| <= 1
  {
    if |spot.matches| > 1 {
      assert spot.matches[0] in spot.matches && spot.matches[1] in spot.matches;
      SameGuest(snap, roster, spot.pane, spot.matches[0], spot.matches[1]);
    }
  }

  /** The rows come out in order of pane, then agent. */
  lemma RowsAreOrdered(snap: Snapshot, roster: seq<Seat>, rows: seq<Joined>)
    requires IsJoin(snap, roster, rows)
    ensures Ordered(RowLess, rows)
  {
    var spots: seq<Spot> :| Within(roster, spots) && Spots(snap, roster, spots) && rows == Assembled(roster, spots);
    RowLessTotal();
    SortOrdered(RowLess, Emitted(roster, spots) + Homeless(roster, spots, |roster|));
  }

  lemma RowLessTotal()
    ensures TotalPreorder(RowLess)
  {
    forall a: Joined, b: Joined ensures RowLess(a, b) ==> !RowLess(b, a) {
      TextLessIsTotal(a.row.pane, b.row.pane, a.row.pane);
      TextLessIsTotal(a.row.agent, b.row.agent, a.row.agent);
    }
    forall a: Joined, b: Joined, c: Joined ensures !RowLess(b, a) && !RowLess(c, b) ==> !RowLess(c, a) {
      TextLessIsTotal(a.row.pane, b.row.pane, c.row.pane);
      TextLessIsTotal(b.row.pane, c.row.pane, a.row.pane);
      TextLessIsTotal(c.row.pane, a.row.pane, b.row.pane);
      TextLessIsTotal(a.row.agent, b.row.agent, c.row.agent);
    }
  }
}
