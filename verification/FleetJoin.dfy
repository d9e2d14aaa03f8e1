/**
 * The join of the terminal multiplexer's snapshot with the bus roster: exact
 * pane claims first, then unambiguous tool/session identities, then what is
 * left on either side. A joined row carries the roster index it came from.
 */
module FleetJoin {
  import opened Common
  import opened Text
  import opened Sorting
  import opened Roster

  datatype AgentInfo = AgentInfo(name: string, tool: string, status: string, pane: string)

  datatype PaneInfo = PaneInfo(id: string, tab: string, workspace: string, title: string, tool: string, session: string,
    status: string)

  datatype TabInfo = TabInfo(id: string, workspace: string)

  datatype Snapshot = Snapshot(workspaces: seq<string>, tabs: seq<TabInfo>, panes: seq<PaneInfo>,
    agents: seq<AgentInfo>)

  datatype Placement = Placement(name: string, tool: string, session: string, status: string)

  datatype Row = Row(pane: string, agent: string, tool: string, herdrStatus: string, busStatus: string, gap: string,
    parent: string)

  datatype Joined = Joined(row: Row, bus: Option<nat>)

  function Get<K, V>(m: map<K, V>, k: K): Option<V> { if k in m then Some(m[k]) else None }

  function Listed<K, V>(m: map<K, seq<V>>, k: K): seq<V> { if k in m then m[k] else [] }

  function Display(s: string): string { if s == "" then "-" else s }

  // ----- validation

  predicate Live(snap: Snapshot, pane: string) {
    exists k :: 0 <= k < |snap.panes| && snap.panes[k].id == pane
  }

  /** The last tab with an id. */
  function TabOf(tabs: seq<TabInfo>, id: string): Option<TabInfo> {
    if tabs == [] then None
    else if tabs[|tabs| - 1].id == id then Some(tabs[|tabs| - 1])
    else TabOf(tabs[..|tabs| - 1], id)
  }

  /** No gap in the hierarchy. */
  predicate Sound(snap: Snapshot) {
    && (forall k :: 0 <= k < |snap.tabs| ==> snap.tabs[k].workspace in snap.workspaces)
    && (forall k :: 0 <= k < |snap.panes| ==>
          var t := TabOf(snap.tabs, snap.panes[k].tab); t.Some? && t.value.workspace == snap.panes[k].workspace)
    && (forall k :: 0 <= k < |snap.agents| ==> snap.agents[k].pane == "" || Live(snap, snap.agents[k].pane))
  }

  /** No pane is claimed by two rows. */
  predicate Uncontested(roster: seq<Seat>) {
    forall i, j :: 0 <= i < j < |roster| && roster[i].pane != "" ==> roster[i].pane != roster[j].pane
  }

  method ValidateSnapshot(snap: Snapshot) returns (ok: bool)
    ensures ok <==> Sound(snap)
  {
    var tabs: map<string, TabInfo> := map[];
    var i := 0;
    while i < |snap.tabs|
      invariant 0 <= i <= |snap.tabs|
      invariant forall k :: 0 <= k < i ==> snap.tabs[k].workspace in snap.workspaces
      invariant forall id :: Get(tabs, id) == TabOf(snap.tabs[..i], id)
    {
      var tab := snap.tabs[i];
      if tab.workspace !in snap.workspaces { return false; }
      assert snap.tabs[..i + 1][..i] == snap.tabs[..i];
      tabs := tabs[tab.id := tab];
      i := i + 1;
    }
    assert snap.tabs[..i] == snap.tabs;
    var panes: set<string> := {};
    i := 0;
    while i < |snap.panes|
      invariant 0 <= i <= |snap.panes|
      invariant forall id :: id in panes <==> exists k :: 0 <= k < i && snap.panes[k].id == id
      invariant forall k :: 0 <= k < i ==>
        var t := TabOf(snap.tabs, snap.panes[k].tab); t.Some? && t.value.workspace == snap.panes[k].workspace
    {
      var pane := snap.panes[i];
      assert Get(tabs, pane.tab) == TabOf(snap.tabs, pane.tab);
      if pane.tab !in tabs || pane.workspace != tabs[pane.tab].workspace { return false; }
      panes := panes + {pane.id};
      i := i + 1;
    }
    i := 0;
    while i < |snap.agents|
      invariant 0 <= i <= |snap.agents|
      invariant forall k :: 0 <= k < i ==> snap.agents[k].pane == "" || Live(snap, snap.agents[k].pane)
    {
      if snap.agents[i].pane != "" && snap.agents[i].pane !in panes { return false; }
      i := i + 1;
    }
    ok := true;
  }

  method ValidateRoster(roster: seq<Seat>) returns (ok: bool)
    ensures ok <==> Uncontested(roster)
  {
    var claimed: map<string, string> := map[];
    var i := 0;
    while i < |roster|
      invariant 0 <= i <= |roster|
      invariant forall p :: p in claimed <==> p != "" && exists k :: 0 <= k < i && roster[k].pane == p
      invariant Uncontested(roster[..i])
    {
      var pane := roster[i].pane;
      if pane != "" {
        if pane in claimed {
          var k :| 0 <= k < i && roster[k].pane == pane;
          return false;
        }
        claimed := claimed[pane := roster[i].name];
      }
      i := i + 1;
    }
    assert roster[..i] == roster;
    ok := true;
  }

  // ----- what a pane shows

  /** The last agent bound to a pane. */
  function Bound(agents: seq<AgentInfo>, pane: string): Option<AgentInfo> {
    if agents == [] || pane == "" then None
    else if agents[|agents| - 1].pane == pane then Some(agents[|agents| - 1])
    else Bound(agents[..|agents| - 1], pane)
  }

  /** What a pane itself shows; a plain terminal shows nothing. */
  function FromPane(bound: Option<AgentInfo>, pane: PaneInfo): Option<Placement> {
    if bound.None? && pane.tool == "" && pane.session == "" then None
    else
      var a := if bound.Some? then bound.value else AgentInfo("", "", "", "");
      Some(Placement(FirstNonEmpty([a.name, pane.title]), FirstNonEmpty([a.tool, pane.tool]), pane.session,
                     FirstNonEmpty([a.status, pane.status, "visible"])))
  }

  function PanePlacement(agents: seq<AgentInfo>, panes: seq<PaneInfo>, pane: string): Option<Placement> {
    if panes == [] then None
    else
      var last := panes[|panes| - 1];
      if last.id == pane && FromPane(Bound(agents, pane), last).Some? then FromPane(Bound(agents, pane), last)
      else PanePlacement(agents, panes[..|panes| - 1], pane)
  }

  /** What the snapshot alone places at a pane. */
  function SnapPlacement(snap: Snapshot, pane: string): Option<Placement> {
    var p := PanePlacement(snap.agents, snap.panes, pane);
    if p.Some? then p
    else
      match Bound(snap.agents, pane)
      case Some(a) => Some(Placement(a.name, a.tool, "", a.status))
      case None => None
  }

  /** The roster rows whose launch claimed a pane, in order. */
  function ClaimsOf(roster: seq<Seat>, pane: string): seq<nat> {
    if roster == [] || pane == "" then []
    else
      var i, init := |roster| - 1, ClaimsOf(roster[..|roster| - 1], pane);
      if roster[i].pane == pane then init + [i] else init
  }

  /** What is placed at a pane: a live pane with one claim is shown even before an agent is bound to it. */
  function PlacementAt(snap: Snapshot, roster: seq<Seat>, pane: string): Option<Placement> {
    var p := SnapPlacement(snap, pane);
    if p.Some? then p
    else if Live(snap, pane) && |ClaimsOf(roster, pane)| == 1 then Some(Placement("", "", "", ""))
    else None
  }

  // ----- who is at a pane

  predicate SessionAt(snap: Snapshot, roster: seq<Seat>, pane: string, tool: string, session: string) {
    var p := PlacementAt(snap, roster, pane);
    tool != "" && session != "" && p.Some? && p.value.tool == tool && p.value.session == session
  }

  /** A roster row with an identity and no live pane claim. */
  predicate Floating(snap: Snapshot, roster: seq<Seat>, i: int, tool: string, session: string) {
    0 <= i < |roster| && tool != "" && session != "" && roster[i].tool == tool && roster[i].session == session &&
      !Live(snap, roster[i].pane)
  }

  /** One unclaimed pane and one floating row share an identity that nobody else has. */
  ghost predicate SessionMatch(snap: Snapshot, roster: seq<Seat>, pane: string, i: nat) {
    && i < |roster|
    && SessionAt(snap, roster, pane, roster[i].tool, roster[i].session)
    && Floating(snap, roster, i, roster[i].tool, roster[i].session)
    && ClaimsOf(roster, pane) == []
    && (forall q :: SessionAt(snap, roster, q, roster[i].tool, roster[i].session) ==> q == pane)
    && (forall j :: Floating(snap, roster, j, roster[i].tool, roster[i].session) ==> j == i)
  }

  /** Roster row i is shown at a pane. */
  ghost predicate At(snap: Snapshot, roster: seq<Seat>, i: nat, pane: string) {
    && i < |roster| && PlacementAt(snap, roster, pane).Some?
    && ((pane != "" && roster[i].pane == pane) || SessionMatch(snap, roster, pane, i))
  }

  // ----- the rows

  function GapRow(pane: string, place: Placement): Joined {
    Joined(Row(pane, Display(place.name), Display(place.tool), Display(place.status), "-", "no bus row", ""), None)
  }

  function BusRow(roster: seq<Seat>, pane: string, place: Placement, i: nat): Joined
    requires i < |roster|
  {
    var bus := roster[i];
    Joined(Row(pane, Display(FirstNonEmpty([bus.name, place.name])), Display(FirstNonEmpty([bus.tool, place.tool])),
               Display(place.status), Display(bus.status),
               if place == Placement("", "", "", "") then "pane not bound" else "-", ""), Some(i))
  }

  function HomelessRow(roster: seq<Seat>, i: nat): Joined
    requires i < |roster|
  {
    var bus := roster[i];
    Joined(Row("-", Display(bus.name), Display(bus.tool), "-", Display(bus.status), "no visible pane", ""), Some(i))
  }

  predicate RowLess(a: Joined, b: Joined) {
    if a.row.pane != b.row.pane then TextLess(a.row.pane, b.row.pane) else TextLess(a.row.agent, b.row.agent)
  }

  /** A placement with the roster rows matched to it. */
  datatype Spot = Spot(pane: string, place: Placement, matches: seq<nat>)

  predicate Within(roster: seq<Seat>, spots: seq<Spot>) {
    forall k, m :: 0 <= k < |spots| && 0 <= m < |spots[k].matches| ==> spots[k].matches[m] < |roster|
  }

  function SpotRows(roster: seq<Seat>, spot: Spot, n: nat): seq<Joined>
    requires n <= |spot.matches| && forall m :: 0 <= m < n ==> spot.matches[m] < |roster|
  {
    if n == 0 then [] else SpotRows(roster, spot, n - 1) + [BusRow(roster, spot.pane, spot.place, spot.matches[n - 1])]
  }

  function Emitted(roster: seq<Seat>, spots: seq<Spot>): seq<Joined>
    requires Within(roster, spots)
  {
    if spots == [] then []
    else
      var spot := spots[|spots| - 1];
      Emitted(roster, spots[..|spots| - 1]) +
      (if spot.matches == [] then [GapRow(spot.pane, spot.place)] else SpotRows(roster, spot, |spot.matches|))
  }

  predicate Matched(spots: seq<Spot>, i: nat) {
    exists k :: 0 <= k < |spots| && i in spots[k].matches
  }

  function Homeless(roster: seq<Seat>, spots: seq<Spot>, n: nat): seq<Joined>
    requires n <= |roster|
  {
    if n == 0 then []
    else if Matched(spots, n - 1) then Homeless(roster, spots, n - 1)
    else Homeless(roster, spots, n - 1) + [HomelessRow(roster, n - 1)]
  }

  ghost predicate SpotMeans(snap: Snapshot, roster: seq<Seat>, spot: Spot) {
    && PlacementAt(snap, roster, spot.pane) == Some(spot.place)
    && (forall i :: i in spot.matches <==> At(snap, roster, i, spot.pane))
    && (forall a, b :: 0 <= a < b < |spot.matches| ==> spot.matches[a] != spot.matches[b])
  }

  /** One spot per placement. */
  ghost predicate Spots(snap: Snapshot, roster: seq<Seat>, spots: seq<Spot>) {
    && (forall k :: 0 <= k < |spots| ==> SpotMeans(snap, roster, spots[k]))
    && (forall a, b :: 0 <= a < b < |spots| ==> spots[a].pane != spots[b].pane)
    && (forall p :: PlacementAt(snap, roster, p).Some? ==> exists k :: 0 <= k < |spots| && spots[k].pane == p)
  }

  function Assembled(roster: seq<Seat>, spots: seq<Spot>): seq<Joined>
    requires Within(roster, spots)
  {
    Sort(RowLess, Emitted(roster, spots) + Homeless(roster, spots, |roster|))
  }

  /** The rows of the join. */
  ghost predicate IsJoin(snap: Snapshot, roster: seq<Seat>, rows: seq<Joined>) {
    exists spots :: Within(roster, spots) && Spots(snap, roster, spots) && rows == Assembled(roster, spots)
  }

  // ----- the loops

  lemma BoundNext(agents: seq<AgentInfo>, i: nat, pane: string)
    requires i < |agents|
    ensures Bound(agents[..i + 1], pane) ==
      if pane != "" && agents[i].pane == pane then Some(agents[i]) else Bound(agents[..i], pane)
  {
    assert agents[..i + 1][..i] == agents[..i];
  }

  method BindAgents(snap: Snapshot) returns (agents: map<string, AgentInfo>)
    ensures forall p :: Get(agents, p) == Bound(snap.agents, p)
  {
    agents := map[];
    var i := 0;
    while i < |snap.agents|
      invariant 0 <= i <= |snap.agents|
      invariant forall p :: Get(agents, p) == Bound(snap.agents[..i], p)
    {
      ghost var before := agents;
      if snap.agents[i].pane != "" { agents := agents[snap.agents[i].pane := snap.agents[i]]; }
      forall p ensures Get(agents, p) == Bound(snap.agents[..i + 1], p) {
        assert Get(before, p) == Bound(snap.agents[..i], p);
        BoundNext(snap.agents, i, p);
      }
      i := i + 1;
    }
    assert snap.agents[..i] == snap.agents;
  }

  lemma ClaimsNext(roster: seq<Seat>, i: nat, pane: string)
    requires i < |roster|
    ensures ClaimsOf(roster[..i + 1], pane) ==
      if pane != "" && roster[i].pane == pane then ClaimsOf(roster[..i], pane) + [i] else ClaimsOf(roster[..i], pane)
  {
    assert roster[..i + 1][..i] == roster[..i];
  }

  method ClaimPanes(roster: seq<Seat>) returns (claims: map<string, seq<nat>>)
    ensures forall p :: Listed(claims, p) == ClaimsOf(roster, p)
  {
    claims := map[];
    var i := 0;
    while i < |roster|
      invariant 0 <= i <= |roster|
      invariant forall p :: Listed(claims, p) == ClaimsOf(roster[..i], p)
    {
      var pane := roster[i].pane;
      ghost var before := claims;
      if pane != "" { claims := claims[pane := Listed(claims, pane) + [i]]; }
      forall p ensures Listed(claims, p) == ClaimsOf(roster[..i + 1], p) {
        assert Listed(before, p) == ClaimsOf(roster[..i], p);
        ClaimsNext(roster, i, p);
      }
      i := i + 1;
    }
    assert roster[..i] == roster;
  }

  method FindLive(snap: Snapshot) returns (live: set<string>)
    ensures forall p :: p in live <==> Live(snap, p)
  {
    live := {};
    var i := 0;
    while i < |snap.panes|
      invariant 0 <= i <= |snap.panes|
      invariant forall p :: p in live <==> exists k :: 0 <= k < i && snap.panes[k].id == p
    {
      live := live + {snap.panes[i].id};
      i := i + 1;
    }
  }

  method PlacePanes(snap: Snapshot, agents: map<string, AgentInfo>) returns (placements: map<string, Placement>)
    requires forall p :: Get(agents, p) == Bound(snap.agents, p)
    ensures forall p :: Get(placements, p) == SnapPlacement(snap, p)
  {
    placements := map[];
    var i := 0;
    while i < |snap.panes|
      invariant 0 <= i <= |snap.panes|
      invariant forall p :: Get(placements, p) == PanePlacement(snap.agents, snap.panes[..i], p)
    {
      assert snap.panes[..i + 1][..i] == snap.panes[..i];
      var pane := snap.panes[i];
      var bound := Get(agents, pane.id);
      assert bound == Bound(snap.agents, pane.id);
      if !(bound.None? && pane.tool == "" && pane.session == "") {
        placements := placements[pane.id := FromPane(bound, pane).value];
      }
      i := i + 1;
    }
    assert snap.panes[..i] == snap.panes;
    var todo := agents.Keys;
    while todo != {}
      invariant todo <= agents.Keys
      invariant forall p ::
        Get(placements, p) == (if p in todo then PanePlacement(snap.agents, snap.panes, p) else SnapPlacement(snap, p))
      decreases |todo|
    {
      var p :| p in todo;
      todo := todo - {p};
      assert Get(agents, p) == Bound(snap.agents, p);
      var a := agents[p];
      if p !in placements { placements := placements[p := Placement(a.name, a.tool, "", a.status)]; }
    }
  }

  /** Shows a claimed live pane before its agent is bound. */
  method PlaceClaims(snap: Snapshot, roster: seq<Seat>, live: set<string>, claims: map<string, seq<nat>>,
    start: map<string, Placement>)
    returns (placements: map<string, Placement>)
    requires forall p :: p in live <==> Live(snap, p)
    requires forall p :: Listed(claims, p) == ClaimsOf(roster, p)
    requires forall p :: Get(start, p) == SnapPlacement(snap, p)
    ensures forall p :: Get(placements, p) == PlacementAt(snap, roster, p)
  {
    placements := start;
    var todo := live;
    while todo != {}
      invariant todo <= live
      invariant forall p :: Get(placements, p) == if p in todo then SnapPlacement(snap, p)
        else PlacementAt(snap, roster, p)
      decreases |todo|
    {
      var p :| p in todo;
      todo := todo - {p};
      assert Listed(claims, p) == ClaimsOf(roster, p);
      if p !in placements && |Listed(claims, p)| == 1 { placements := placements[p := Placement("", "", "", "")]; }
    }
  }

  type Identity = (string, string)

  function Grouped<V>(m: map<Identity, set<V>>, k: Identity): set<V> { if k in m then m[k] else {} }

  method PanesBySession(snap: Snapshot, roster: seq<Seat>, placements: map<string, Placement>)
    returns (panes: map<Identity, set<string>>)
    requires forall p :: Get(placements, p) == PlacementAt(snap, roster, p)
    ensures forall k: Identity, p :: p in Grouped(panes, k) <==> SessionAt(snap, roster, p, k.0, k.1)
  {
    hide PlacementAt;
    panes := map[];
    var todo := placements.Keys;
    while todo != {}
      invariant todo <= placements.Keys
      invariant forall k: Identity, p :: p in Grouped(panes, k) <==> p !in todo && SessionAt(snap, roster, p, k.0, k.1)
      decreases |todo|
    {
      var p :| p in todo;
      todo := todo - {p};
      assert Get(placements, p) == PlacementAt(snap, roster, p);
      var place := placements[p];
      if place.tool != "" && place.session != "" {
        var k := (place.tool, place.session);
        panes := panes[k := Grouped(panes, k) + {p}];
      }
    }
    forall k: Identity, p ensures p in Grouped(panes, k) <==> SessionAt(snap, roster, p, k.0, k.1) {
      assert Get(placements, p) == PlacementAt(snap, roster, p);
    }
  }

  predicate Rising(s: seq<nat>) { forall a, b :: 0 <= a < b < |s| ==> s[a] < s[b] }

  ghost predicate FloatingLists(snap: Snapshot, roster: seq<Seat>, rows: map<Identity, seq<nat>>, n: nat) {
    && (forall k: Identity, i: nat :: i in Listed(rows, k) <==> i < n && Floating(snap, roster, i, k.0, k.1))
    && (forall k: Identity :: Rising(Listed(rows, k)))
  }

  lemma ListsGrow(snap: Snapshot, roster: seq<Seat>, rows: map<Identity, seq<nat>>, n: nat)
    requires n < |roster| && FloatingLists(snap, roster, rows, n)
    ensures var bus := roster[n]; var k := (bus.tool, bus.session);
      FloatingLists(snap, roster,
                    if Floating(snap, roster, n, k.0, k.1) then rows[k := Listed(rows, k) + [n]] else rows,
                    n + 1)
  {
    hide Live;
    var k := (roster[n].tool, roster[n].session);
    if Floating(snap, roster, n, k.0, k.1) {
      var list, now := Listed(rows, k), rows[k := Listed(rows, k) + [n]];
      assert Rising(list);
      forall a | 0 <= a < |list| ensures list[a] < n { assert list[a] in list; }
      assert Rising(list + [n]);
      forall o: Identity ensures Rising(Listed(now, o)) { assert Rising(Listed(rows, o)); }
      forall o: Identity, i: nat ensures i in Listed(now, o) <==> i < n + 1 && Floating(snap, roster, i, o.0, o.1) {
        assert i in Listed(rows, o) <==> i < n && Floating(snap, roster, i, o.0, o.1);
      }
    }
  }

  method RowsBySession(snap: Snapshot, roster: seq<Seat>, live: set<string>) returns (rows: map<Identity, seq<nat>>)
    requires forall p :: p in live <==> Live(snap, p)
    ensures FloatingLists(snap, roster, rows, |roster|)
  {
    rows := map[];
    var n := 0;
    while n < |roster|
      invariant 0 <= n <= |roster| && FloatingLists(snap, roster, rows, n)
    {
      ListsGrow(snap, roster, rows, n);
      var bus := roster[n];
      if !(bus.tool == "" || bus.session == "" || bus.pane in live) {
        var k := (bus.tool, bus.session);
        rows := rows[k := Listed(rows, k) + [n]];
      }
      n := n + 1;
    }
  }

  lemma OneMember<T(!new)>(s: set<T>, x: T)
    requires x in s
    ensures |s| == 1 <==> forall y :: y in s ==> y == x
  {
    if |s| == 1 { assert |s - {x}| == 0; }
    if forall y :: y in s ==> y == x { assert s == {x}; }
  }

  lemma OneElement(s: seq<nat>, x: nat)
    requires x in s && Rising(s)
    ensures |s| == 1 <==> forall y: nat :: y in s ==> y == x
  {
    if |s| > 1 { assert s[0] in s && s[1] in s && s[0] < s[1]; }
  }

  /** The row paired with a pane by one identity, when exactly one of each has it and the pane is unclaimed. */
  method MatchOne(snap: Snapshot, roster: seq<Seat>, claims: map<string, seq<nat>>, k: Identity, here: set<string>,
    free: seq<nat>)
    returns (pair: Option<(string, nat)>)
    requires forall p :: Listed(claims, p) == ClaimsOf(roster, p)
    requires forall p :: p in here <==> SessionAt(snap, roster, p, k.0, k.1)
    requires Rising(free) && forall i: nat :: i in free <==> i < |roster| && Floating(snap, roster, i, k.0, k.1)
    ensures forall p, i: nat :: pair == Some((p, i)) <==>
      SessionMatch(snap, roster, p, i) && (roster[i].tool, roster[i].session) == k
  {
    pair := None;
    forall p, i: nat | SessionMatch(snap, roster, p, i) && (roster[i].tool, roster[i].session) == k
      ensures |here| == 1 && p in here && |free| == 1 && i in free && Listed(claims, p) == []
    {
      assert p in here && i in free;
      OneMember(here, p);
      OneElement(free, i);
    }
    if |here| == 1 && |free| == 1 {
      assert here != {};
      var p :| p in here;
      var i := free[0];
      OneMember(here, p);
      assert i in free;
      OneElement(free, i);
      if Listed(claims, p) == [] {
        assert SessionMatch(snap, roster, p, i);
        pair := Some((p, i));
      }
    }
  }

  /** Pairs each identity that has one unclaimed pane and one floating row. */
  method MatchSessions(snap: Snapshot, roster: seq<Seat>, claims: map<string, seq<nat>>,
    panes: map<Identity, set<string>>, rows: map<Identity, seq<nat>>)
    returns (pairs: map<string, nat>)
    requires forall p :: Listed(claims, p) == ClaimsOf(roster, p)
    requires forall k: Identity, p :: p in Grouped(panes, k) <==> SessionAt(snap, roster, p, k.0, k.1)
    requires FloatingLists(snap, roster, rows, |roster|)
    ensures forall p, i: nat :: Get(pairs, p) == Some(i) <==> SessionMatch(snap, roster, p, i)
  {
    pairs := map[];
    var todo := panes.Keys;
    while todo != {}
      invariant todo <= panes.Keys
      invariant forall p, i: nat :: Get(pairs, p) == Some(i) <==>
        SessionMatch(snap, roster, p, i) && (roster[i].tool, roster[i].session) !in todo
      decreases |todo|
    {
      var k :| k in todo;
      todo := todo - {k};
      assert panes[k] == Grouped(panes, k) && Rising(Listed(rows, k));
      var pair := MatchOne(snap, roster, claims, k, panes[k], Listed(rows, k));
      if pair.Some? {
        assert SessionMatch(snap, roster, pair.value.0, pair.value.1);
        pairs := pairs[pair.value.0 := pair.value.1];
      }
    }
    forall p, i: nat | SessionMatch(snap, roster, p, i) ensures Get(pairs, p) == Some(i) {
      assert p in Grouped(panes, (roster[i].tool, roster[i].session));
    }
  }

  /** A claim comes first; only an unclaimed pane takes a session match. */
  function MatchesAt(claims: seq<nat>, pair: Option<nat>): seq<nat> {
    if claims != [] then claims else if pair.Some? then [pair.value] else []
  }

  lemma {:induction false} ClaimsMean(roster: seq<Seat>, pane: string)
    ensures Rising(ClaimsOf(roster, pane))
    ensures forall i: nat :: i in ClaimsOf(roster, pane) <==> i < |roster| && pane != "" && roster[i].pane == pane
  {
    if roster != [] && pane != "" {
      var init := ClaimsOf(roster[..|roster| - 1], pane);
      ClaimsMean(roster[..|roster| - 1], pane);
      forall a | 0 <= a < |init| ensures init[a] < |roster| - 1 { assert init[a] in init; }
    }
  }

  lemma MatchesMean(snap: Snapshot, roster: seq<Seat>, pane: string, place: Placement, pair: Option<nat>)
    requires PlacementAt(snap, roster, pane) == Some(place)
    requires forall i: nat :: pair == Some(i) <==> SessionMatch(snap, roster, pane, i)
    ensures SpotMeans(snap, roster, Spot(pane, place, MatchesAt(ClaimsOf(roster, pane), pair)))
  {
    ClaimsMean(roster, pane);
    var claims := ClaimsOf(roster, pane);
    if claims != [] {
      assert forall i: nat :: !SessionMatch(snap, roster, pane, i);
    }
  }

  /** Emits the rows of one pane, then moves on. */
  method EmitSpot(roster: seq<Seat>, spot: Spot, start: seq<Joined>, seen: set<nat>)
    returns (rows: seq<Joined>, matched: set<nat>)
    requires forall m :: 0 <= m < |spot.matches| ==> spot.matches[m] < |roster|
    ensures rows == start + if spot.matches == [] then [GapRow(spot.pane, spot.place)]
      else SpotRows(roster, spot, |spot.matches|)
    ensures forall i :: i in matched <==> i in seen || i in spot.matches
  {
    rows, matched := start, seen;
    if spot.matches == [] { return rows + [GapRow(spot.pane, spot.place)], matched; }
    var m := 0;
    while m < |spot.matches|
      invariant 0 <= m <= |spot.matches| && rows == start + SpotRows(roster, spot, m)
      invariant forall i :: i in matched <==> i in seen || i in spot.matches[..m]
    {
      matched := matched + {spot.matches[m]};
      rows := rows + [BusRow(roster, spot.pane, spot.place, spot.matches[m])];
      m := m + 1;
    }
    assert spot.matches[..m] == spot.matches;
  }

  /** Everything known about the panes: who claimed them, what they show and which sessions pair up. */
  ghost predicate Known(snap: Snapshot, roster: seq<Seat>, placements: map<string, Placement>,
    claims: map<string, seq<nat>>, pairs: map<string, nat>) {
    && (forall p :: Get(placements, p) == PlacementAt(snap, roster, p))
    && (forall p :: Listed(claims, p) == ClaimsOf(roster, p))
    && (forall p, i: nat :: Get(pairs, p) == Some(i) <==> SessionMatch(snap, roster, p, i))
  }

  method Correlate(snap: Snapshot, roster: seq<Seat>)
    returns (placements: map<string, Placement>, claims: map<string, seq<nat>>, pairs: map<string, nat>)
    ensures Known(snap, roster, placements, claims, pairs)
  {
    var agents := BindAgents(snap);
    var bare := PlacePanes(snap, agents);
    claims := ClaimPanes(roster);
    var live := FindLive(snap);
    placements := PlaceClaims(snap, roster, live, claims, bare);
    var bySession := PanesBySession(snap, roster, placements);
    var floating := RowsBySession(snap, roster, live);
    pairs := MatchSessions(snap, roster, claims, bySession, floating);
  }

  /** Finds who is at a pane. */
  method SpotFor(snap: Snapshot, roster: seq<Seat>, placements: map<string, Placement>, claims: map<string, seq<nat>>,
    pairs: map<string, nat>, pane: string)
    returns (spot: Spot)
    requires Known(snap, roster, placements, claims, pairs) && pane in placements
    ensures spot.pane == pane && SpotMeans(snap, roster, spot)
    ensures forall m :: 0 <= m < |spot.matches| ==> spot.matches[m] < |roster|
  {
    assert Get(placements, pane) == PlacementAt(snap, roster, pane) && Listed(claims, pane) == ClaimsOf(roster, pane);
    spot := Spot(pane, placements[pane], MatchesAt(Listed(claims, pane), Get(pairs, pane)));
    MatchesMean(snap, roster, pane, placements[pane], Get(pairs, pane));
    forall m | 0 <= m < |spot.matches| ensures spot.matches[m] < |roster| { assert spot.matches[m] in spot.matches; }
  }

  method EmitPlaced(snap: Snapshot, roster: seq<Seat>, placements: map<string, Placement>,
    claims: map<string, seq<nat>>, pairs: map<string, nat>, ids: seq<string>)
    returns (rows: seq<Joined>, matched: set<nat>, ghost spots: seq<Spot>)
    requires Known(snap, roster, placements, claims, pairs) && forall p :: p in ids ==> p in placements
    ensures |spots| == |ids| && Within(roster, spots) && rows == Emitted(roster, spots)
    ensures forall k :: 0 <= k < |ids| ==> spots[k].pane == ids[k] && SpotMeans(snap, roster, spots[k])
    ensures forall i: nat :: i in matched <==> Matched(spots, i)
  {
    rows, matched, spots := [], {}, [];
    var n := 0;
    while n < |ids|
      invariant 0 <= n <= |ids| && |spots| == n
      invariant Within(roster, spots) && rows == Emitted(roster, spots)
      invariant forall k :: 0 <= k < n ==> spots[k].pane == ids[k] && SpotMeans(snap, roster, spots[k])
      invariant forall i: nat :: i in matched <==> Matched(spots, i)
    {
      assert ids[n] in ids;
      var spot := SpotFor(snap, roster, placements, claims, pairs, ids[n]);
      rows, matched := EmitSpot(roster, spot, rows, matched);
      MatchedSnoc(spots, spot);
      spots := spots + [spot];
      n := n + 1;
    }
  }

  method JoinRows(snap: Snapshot, roster: seq<Seat>) returns (rows: seq<Joined>)
    ensures IsJoin(snap, roster, rows)
  {
    hide Known, SpotMeans, Sort, Emitted;
    var placements, claims, pairs := Correlate(snap, roster);
    assert forall p :: p in placements.Keys <==> p in placements;
    var ids := SortedKeys(placements.Keys);
    ghost var spots: seq<Spot>;
    var matched: set<nat>;
    rows, matched, spots := EmitPlaced(snap, roster, placements, claims, pairs, ids);
    ghost var emitted := rows;
    var n := 0;
    while n < |roster|
      invariant 0 <= n <= |roster| && rows == emitted + Homeless(roster, spots, n)
    {
      if n !in matched { rows := rows + [HomelessRow(roster, n)]; }
      n := n + 1;
    }
    rows := Sort(RowLess, rows);
    SpotsComplete(snap, roster, placements, claims, pairs, ids, spots);
    assert rows == Assembled(roster, spots);
  }

  lemma SpotsComplete(
    snap: Snapshot, roster: seq<Seat>, placements: map<string, Placement>, claims: map<string, seq<nat>>,
    pairs: map<string, nat>,
    ids: seq<string>, spots: seq<Spot>)
    requires Known(snap, roster, placements, claims, pairs) && Distinct(ids) &&
      forall p :: p in ids <==> p in placements
    requires |spots| == |ids| && forall k :: 0 <= k < |ids| ==>
      spots[k].pane == ids[k] && SpotMeans(snap, roster, spots[k])
    ensures Spots(snap, roster, spots)
  {
    forall p | PlacementAt(snap, roster, p).Some? ensures exists k :: 0 <= k < |spots| && spots[k].pane == p {
      assert Get(placements, p) == PlacementAt(snap, roster, p);
      assert p in ids;
      var k :| 0 <= k < |ids| && ids[k] == p;
      assert spots[k].pane == p;
    }
  }

  predicate Distinct(s: seq<string>) { forall a, b :: 0 <= a < b < |s| ==> s[a] != s[b] }

  lemma MatchedSnoc(spots: seq<Spot>, spot: Spot)
    ensures forall i: nat :: Matched(spots + [spot], i) <==> Matched(spots, i) || i in spot.matches
  {
    forall i: nat ensures Matched(spots + [spot], i) <==> Matched(spots, i) || i in spot.matches {
      if Matched(spots, i) {
        var k :| 0 <= k < |spots| && i in spots[k].matches;
        assert (spots + [spot])[k] == spots[k];
      }
      if i in spot.matches { assert (spots + [spot])[|spots|] == spot; }
    }
  }

  /** A map's keys in text order. */
  method SortedKeys(keys: set<string>) returns (ids: seq<string>)
    ensures forall p :: p in ids <==> p in keys
    ensures Distinct(ids)
    ensures Ordered(TextLess, ids)
  {
    ids := [];
    var todo := keys;
    while todo != {}
      invariant todo <= keys
      invariant forall p :: p in ids <==> p in keys && p !in todo
      invariant Distinct(ids)
      decreases |todo|
    {
      var p :| p in todo;
      todo := todo - {p};
      ids := ids + [p];
    }
    SortMembers(TextLess, ids);
    SortDistinct(ids);
    TextTotal();
    SortOrdered(TextLess, ids);
    ids := Sort(TextLess, ids);
  }

  lemma TextTotal()
    ensures TotalPreorder(TextLess)
  {
    forall a, b ensures TextLess(a, b) ==> !TextLess(b, a) { TextLessIsTotal(a, b, a); }
    forall a, b, c ensures !TextLess(b, a) && !TextLess(c, b) ==> !TextLess(c, a) { TextLessIsTotal(a, b, c); }
  }

  function Is(x: string): string -> nat { y => if y == x then 1 else 0 }

  lemma {:induction false} CountDistinct(s: seq<string>, x: string)
    requires Distinct(s)
    ensures Sum(s, Is(x)) <= 1
  {
    if s != [] {
      CountDistinct(s[..|s| - 1], x);
      if s[|s| - 1] == x { SumNone(s[..|s| - 1], Is(x)); }
    }
  }

  lemma SortDistinct(s: seq<string>)
    requires Distinct(s)
    ensures Distinct(Sort(TextLess, s))
  {
    var r := Sort(TextLess, s);
    forall a, b | 0 <= a < b < |r| ensures r[a] != r[b] {
      SortSum(TextLess, s, Is(r[a]));
      CountDistinct(s, r[a]);
      SumAtLeastTwo(r, Is(r[a]), a, b);
    }
  }
}
