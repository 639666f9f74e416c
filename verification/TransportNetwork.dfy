/** The network object: loading it, and asking it for times and routes. */
module TransportNetworks {
  import opened Wrappers
  import opened Graphs
  import opened Search
  import opened Enumeration
  import opened NetworkModel
  import opened QuietRoute
  import opened Itineraries

  datatype Station = Station(id: Id, name: string)

  datatype Route = Route(id: Id, direction: string, lineId: Id, startStationId: Id, endStationId: Id, stops: seq<Id>)

  datatype Line = Line(id: Id, name: string, routes: seq<Route>)

  datatype TravelTime = TravelTime(startStationId: Id, endStationId: Id, travelTime: nat)

  datatype PassengerEventType = In | Out

  /** What loading a layout comes to: an exception, or the returned flag. */
  datatype LoadResult = Loaded(ok: bool) | Threw

  datatype GraphNode = GraphNode(id: Id, name: string, passengerCount: int, edges: seq<GraphEdge>)

  datatype LineInternal = LineInternal(id: Id, name: string, routes: map<Id, RouteInternal>)

  type Nodes = map<Id, GraphNode>
  type Lines = map<Id, LineInternal>

  // ----- What the source asks of a line, and what it checks itself -----

  ghost predicate WellFormedLine(line: Line) {
    forall k :: 0 <= k < |line.routes| ==> |line.routes[k].stops| >= 2 && DistinctStops(line.routes[k].stops)
  }

  ghost function EarlierIds(routes: seq<Route>, k: nat): set<Id>
    requires k <= |routes|
  {
    set j | 0 <= j < k :: routes[j].id
  }

  ghost predicate RouteAccepted(routes: seq<Route>, k: nat, ids: set<Id>)
    requires k < |routes|
  {
    routes[k].id !in EarlierIds(routes, k) && forall s :: s in routes[k].stops ==> s in ids
  }

  /** The route object made for route `k` of a line. */
  ghost function RouteObject(line: Line, serial: nat, k: nat): RouteInternal
    requires k < |line.routes|
  {
    RouteInternal(serial + k, line.routes[k].id, line.id, line.routes[k].stops)
  }

  /** The log entries for the first `n` routes of a line. */
  ghost function LineEntries(line: Line, serial: nat, n: nat): Log
    requires n <= |line.routes|
  {
    if n == 0 then [] else LineEntries(line, serial, n - 1) + [RouteAdded(RouteObject(line, serial, n - 1))]
  }

  ghost predicate Listed(lines: Lines, r: RouteInternal) {
    r.lineId in lines && r.id in lines[r.lineId].routes && lines[r.lineId].routes[r.id] == r
  }

  /** No line has failed to load: every route object belongs to a listed line. */
  ghost predicate AllListed(lines: Lines, log: Log) {
    forall r :: Added(log, r) ==> Listed(lines, r)
  }

  lemma ListedNamesAreUnique(lines: Lines, log: Log)
    requires AllListed(lines, log)
    ensures UniqueNames(log)
  {
    forall r, s | Added(log, r) && Added(log, s) && r.id == s.id && r.lineId == s.lineId ensures r == s {
      assert Listed(lines, r) && Listed(lines, s);
    }
  }

  ghost predicate NodeOk(log: Log, u: Id, n: GraphNode) {
    n.id == u && n.edges == EdgesOf(log, u)
  }

  ghost predicate LineOk(log: Log, l: Id, line: LineInternal) {
    && line.id == l
    && forall k :: k in line.routes ==>
         line.routes[k].id == k && line.routes[k].lineId == l && Added(log, line.routes[k])
  }

  /** The network's indexes agree with the log. */
  ghost predicate Consistent(stations: Nodes, lines: Lines, log: Log, nextSerial: nat) {
    && WellFormedLog(log)
    && StopsKnown(log, stations.Keys)
    && (forall r {:trigger Added(log, r)} :: Added(log, r) ==> r.serial < nextSerial)
    && (forall u {:trigger NodeOk(log, u, stations[u])} :: u in stations ==> NodeOk(log, u, stations[u]))
    && (forall l {:trigger LineOk(log, l, lines[l])} :: l in lines ==> LineOk(log, l, lines[l]))
  }

  function Net(stations: Nodes): Graph {
    map u | u in stations :: stations[u].edges
  }

  function CountsOf(stations: Nodes): Counts {
    map u | u in stations :: stations[u].passengerCount
  }

  ghost predicate SameButItsEdges(m: GraphNode, n: GraphNode) {
    n == m.(edges := n.edges)
  }

  /** `after` differs from `before` only in the edges of its stations. */
  ghost predicate SameButEdges(before: Nodes, after: Nodes) {
    && before.Keys == after.Keys
    && forall u {:trigger after[u]} :: u in before ==> SameButItsEdges(before[u], after[u])
  }

  /** The edges of the first `n` legs of a route have been added. */
  ghost predicate LegsAdded(before: Nodes, after: Nodes, r: RouteInternal, n: nat)
    requires n < |r.stops|
  {
    && SameButEdges(before, after)
    && forall u :: u in before ==> after[u].edges == before[u].edges + LegsFrom(r, u, n)
  }

  lemma LegAdded(before: Nodes, mid: Nodes, after: Nodes, r: RouteInternal, n: nat)
    requires n + 1 < |r.stops| && LegsAdded(before, mid, r, n) && r.stops[n] in mid
    requires var e := GraphEdge(r, n, r.stops[n + 1], 0);
             after == mid[r.stops[n] := mid[r.stops[n]].(edges := mid[r.stops[n]].edges + [e])]
    ensures LegsAdded(before, after, r, n + 1)
  {
    forall u | u in before
      ensures SameButItsEdges(before[u], after[u]) && after[u].edges == before[u].edges + LegsFrom(r, u, n + 1)
    {
      assert SameButItsEdges(before[u], mid[u]);
    }
  }

  lemma SameButEdgesTrans(a: Nodes, b: Nodes, c: Nodes)
    requires SameButEdges(a, b) && SameButEdges(b, c)
    ensures SameButEdges(a, c)
  {
    forall u | u in a ensures SameButItsEdges(a[u], c[u]) {
      assert SameButItsEdges(a[u], b[u]);
    }
  }

  lemma NetIsWellFormed(stations: Nodes, lines: Lines, log: Log, nextSerial: nat)
    requires Consistent(stations, lines, log, nextSerial)
    ensures GraphOf(log, Net(stations)) && WellFormedGraph(Net(stations))
    ensures StopsKnown(log, Net(stations).Keys)
  {
    assert Net(stations).Keys == stations.Keys;
    forall u | u in Net(stations) ensures Net(stations)[u] == EdgesOf(log, u) {
      assert NodeOk(log, u, stations[u]);
    }
    GraphIsWellFormed(log, Net(stations));
  }

  lemma RouteAddedKeeps(stations: Nodes, after: Nodes, lines: Lines, log: Log, nextSerial: nat, r: RouteInternal)
    requires Consistent(stations, lines, log, nextSerial)
    requires r.serial == nextSerial && WellFormedRoute(r)
    requires forall s :: s in r.stops ==> s in stations
    requires LegsAdded(stations, after, r, |r.stops| - 1)
    ensures Consistent(after, lines, log + [RouteAdded(r)], nextSerial + 1)
  {
    var log' := log + [RouteAdded(r)];
    assert log'[..|log'| - 1] == log;
    assert !Added(log, r);
    forall u | u in after ensures NodeOk(log', u, after[u]) {
      assert NodeOk(log, u, stations[u]);
    }
    forall l | l in lines ensures LineOk(log', l, lines[l]) {
      assert LineOk(log, l, lines[l]);
    }
    forall s | Added(log', s) ensures s.serial < nextSerial + 1 && StopsIn(s, after.Keys) {
      assert s == r || (Added(log, s) && StopsIn(s, stations.Keys));
    }
  }

  lemma TimeSetKeeps(stations: Nodes, after: Nodes, lines: Lines, log: Log, nextSerial: nat, a: Id, b: Id, t: nat)
    requires Consistent(stations, lines, log, nextSerial) && SameButEdges(stations, after)
    requires forall u :: u in stations ==> after[u].edges == Retimed(stations[u].edges, u, a, b, t)
    ensures Consistent(after, lines, log + [TimeSet(a, b, t)], nextSerial)
  {
    var log' := log + [TimeSet(a, b, t)];
    assert log'[..|log'| - 1] == log;
    forall u | u in after ensures NodeOk(log', u, after[u]) {
      assert NodeOk(log, u, stations[u]);
    }
    forall l | l in lines ensures LineOk(log', l, lines[l]) {
      assert LineOk(log, l, lines[l]);
    }
    forall s | Added(log', s) ensures s.serial < nextSerial && StopsIn(s, after.Keys) {
      assert Added(log, s) && StopsIn(s, stations.Keys);
    }
  }

  class TransportNetwork {
    var stations: Nodes
    var lines: Lines
    /** Stands for the allocator: the identity of the next route object. */
    var nextSerial: nat
    ghost var log: Log

    ghost predicate Valid()
      reads this
    {
      Consistent(stations, lines, log, nextSerial)
    }

    constructor ()
      ensures Valid() && stations == map[] && lines == map[] && nextSerial == 0 && log == []
    {
      stations, lines, nextSerial, log := map[], map[], 0, [];
    }

    method AddStation(station: Station) returns (ok: bool)
      requires Valid()
      modifies this`stations
      ensures Valid()
      ensures ok == (station.id !in old(stations))
      ensures stations == if ok then old(stations)[station.id := GraphNode(station.id, station.name, 0, [])]
                          else old(stations)
    {
      if station.id in stations {
        return false;
      }
      NoEdgesYet(log, stations.Keys, station.id);
      stations := stations[station.id := GraphNode(station.id, station.name, 0, [])];
      StopsStayKnown(log, old(stations).Keys, stations.Keys);
      return true;
    }

    method RecordPassengerEvent(stationId: Id, kind: PassengerEventType) returns (ok: bool)
      requires Valid()
      modifies this`stations
      ensures Valid() && ok == (stationId in old(stations))
      ensures stations == if !ok then old(stations)
                          else old(stations)[stationId := old(stations[stationId]).(passengerCount :=
                            old(stations[stationId]).passengerCount + if kind == In then 1 else -1)]
    {
      if stationId !in stations {
        return false;
      }
      var node := stations[stationId];
      var change := match kind case In => 1 case Out => -1;
      assert NodeOk(log, stationId, node);
      stations := stations[stationId := node.(passengerCount := node.passengerCount + change)];
      StopsStayKnown(log, old(stations).Keys, stations.Keys);
      return true;
    }

    method StopsExist(stops: seq<Id>) returns (ok: bool)
      ensures ok <==> forall s :: s in stops ==> s in stations
    {
      for i := 0 to |stops|
        invariant forall j :: 0 <= j < i ==> stops[j] in stations
      {
        if stops[i] !in stations {
          return false;
        }
      }
      return true;
    }

    /** Walks the stations of a route, adding an edge to all but the last. */
    method AddEdges(r: RouteInternal)
      requires WellFormedRoute(r) && forall s :: s in r.stops ==> s in stations
      modifies this`stations
      ensures LegsAdded(old(stations), stations, r, |r.stops| - 1)
    {
      for idx := 0 to |r.stops| - 1
        invariant LegsAdded(old(stations), stations, r, idx)
      {
        ghost var before := stations;
        var thisStop := stations[r.stops[idx]];
        var edge := GraphEdge(r, idx, r.stops[idx + 1], 0);
        stations := stations[r.stops[idx] := thisStop.(edges := thisStop.edges + [edge])];
        LegAdded(old(stations), before, stations, r, idx);
      }
    }

    /** Adds one route of a line, if its id is new to the line and all of its
        stations exist. */
    method AddRouteToLine(line: Line, k: nat, lineInternal: LineInternal) returns (ok: bool, after: LineInternal)
      requires Valid() && WellFormedLine(line) && k < |line.routes|
      requires LineOk(log, line.id, lineInternal) && lineInternal.routes.Keys == EarlierIds(line.routes, k)
      modifies this`stations, this`nextSerial, this`log
      ensures Valid() && SameButEdges(old(stations), stations)
      ensures ok == RouteAccepted(line.routes, k, old(stations).Keys)
      ensures !ok ==> stations == old(stations) && log == old(log) && nextSerial == old(nextSerial)
      ensures !ok ==> after == lineInternal
      ensures ok ==>
        var r := RouteInternal(old(nextSerial), line.routes[k].id, line.id, line.routes[k].stops);
        && log == old(log) + [RouteAdded(r)] && nextSerial == old(nextSerial) + 1
        && after == lineInternal.(routes := lineInternal.routes[r.id := r])
    {
      var route := line.routes[k];
      after := lineInternal;
      if route.id in lineInternal.routes {
        return false, after;
      }
      var known := StopsExist(route.stops);
      if !known {
        return false, after;
      }
      var r := RouteInternal(nextSerial, route.id, line.id, route.stops);
      AddEdges(r);
      RouteAddedKeeps(old(stations), stations, lines, log, nextSerial, r);
      log, nextSerial := log + [RouteAdded(r)], nextSerial + 1;
      after := lineInternal.(routes := lineInternal.routes[r.id := r]);
      return true, after;
    }

    /** Adds the routes of a line in order, up to the first that is refused. */
    method AddRoutes(line: Line) returns (ok: bool, lineInternal: LineInternal, ghost n: nat)
      requires Valid() && WellFormedLine(line)
      modifies this`stations, this`nextSerial, this`log
      ensures Valid() && n <= |line.routes|
      ensures Progress(line, n, lineInternal, old(stations), old(log), old(nextSerial), stations, log, nextSerial)
      ensures ok <==> n == |line.routes|
      ensures !ok ==> !RouteAccepted(line.routes, n, old(stations).Keys)
      ensures lineInternal.name == line.name
    {
      hide Consistent, RouteAccepted, Progress, LineOk, SameButEdges, WellFormedLine;
      n := 0;
      lineInternal := LineInternal(line.id, line.name, map[]);
      NoProgress(line, stations, log, nextSerial);
      for k := 0 to |line.routes|
        invariant Valid() && n == k && lineInternal.name == line.name
        invariant Progress(line, k, lineInternal, old(stations), old(log), old(nextSerial), stations, log, nextSerial)
      {
        ghost var before, serial, earlier, mid := log, nextSerial, lineInternal, stations;
        ProgressMeans(line, k, lineInternal, old(stations), old(log), old(nextSerial), stations, log, nextSerial);
        var accepted;
        accepted, lineInternal := AddRouteToLine(line, k, lineInternal);
        if !accepted {
          return false, lineInternal, n;
        }
        ProgressStep(line, k, earlier, old(stations), old(log), old(nextSerial), mid, before, serial, stations);
        n := n + 1;
      }
      return true, lineInternal, n;
    }

    /** Adds a line. If one of its routes is refused, the line is not listed,
        but the edges of the routes before it (there are `n`) stay. */
    method AddLine(line: Line) returns (ok: bool, ghost n: nat)
      requires Valid() && WellFormedLine(line)
      modifies this
      ensures Valid() && SameButEdges(old(stations), stations)
      ensures n <= |line.routes| && log == old(log) + LineEntries(line, old(nextSerial), n)
      ensures nextSerial == old(nextSerial) + n
      ensures forall k :: 0 <= k < n ==> RouteAccepted(line.routes, k, old(stations).Keys)
      ensures ok <==> line.id !in old(lines) && n == |line.routes|
      ensures line.id in old(lines) ==> n == 0
      ensures line.id !in old(lines) && n < |line.routes| ==> !RouteAccepted(line.routes, n, old(stations).Keys)
      ensures !ok ==> lines == old(lines)
      ensures SameTimes(log) <==> SameTimes(old(log)) && LineUntimed(old(log), line, old(nextSerial), n)
      ensures ok ==> line.id in lines && lines == old(lines)[line.id := lines[line.id]]
      ensures ok ==> lines[line.id].name == line.name
      ensures ok ==> forall k :: 0 <= k < n ==> Listed(lines, RouteObject(line, old(nextSerial), k))
    {
      if line.id in lines {
        return false, 0;
      }
      var lineInternal;
      ok, lineInternal, n := AddRoutes(line);
      LineKeepsPromise(old(stations), lines, old(log), old(nextSerial), line, n);
      LoadedRoutesAccepted(line, old(nextSerial), n, lineInternal, old(stations).Keys);
      if ok {
        ListLine(stations, lines, log, nextSerial, lineInternal);
        lines := lines[line.id := lineInternal];
        ListedObjects(lines, line, old(nextSerial), lineInternal, old(stations).Keys);
      }
    }

    /** Sets the time of the edges from one station that lead to another. */
    method RetimeEdges(from: Id, to: Id, travelTime: nat) returns (found: bool)
      requires from in stations
      modifies this`stations
      ensures stations == old(stations)[from := old(stations[from]).(edges :=
        RetimedTo(old(stations[from]).edges, to, travelTime))]
      ensures found <==> exists e :: e in old(stations[from]).edges && e.nextStop == to
    {
      var edges := stations[from].edges;
      var after := edges;
      found := false;
      for i := 0 to |edges|
        invariant |after| == |edges|
        invariant forall j :: 0 <= j < |edges| ==>
          after[j] == if j < i && edges[j].nextStop == to then edges[j].(travelTime := travelTime) else edges[j]
        invariant found <==> exists e :: e in edges[..i] && e.nextStop == to
      {
        assert edges[..i + 1] == edges[..i] + [edges[i]];
        if after[i].nextStop == to {
          assert edges[i] in edges[..i + 1];
          after := after[i := after[i].(travelTime := travelTime)];
          found := true;
        }
      }
      assert edges[..|edges|] == edges;
      assert after == RetimedTo(edges, to, travelTime);
      stations := stations[from := stations[from].(edges := after)];
    }

    method SetTravelTime(stationA: Id, stationB: Id, travelTime: nat) returns (ok: bool)
      requires Valid()
      modifies this`stations, this`log
      ensures Valid() && SameButEdges(old(stations), stations)
      ensures log == old(log) + [TimeSet(stationA, stationB, travelTime)]
      ensures ok <==> stationA in stations && stationB in stations && Adjacent(old(log), stationA, stationB)
      ensures SameTimes(old(log)) ==> SameTimes(log)
    {
      hide Consistent, SameTimes, SameButItsEdges, EdgesOf, Retimed, RetimedTo, Adjacent;
      ghost var before := stations;
      KnownEdges(stations, lines, log, nextSerial, stationA, stationB);
      if stationA !in stations || stationB !in stations {
        UnknownUntouched(stations, log, stationA, stationB, travelTime);
        SameButEdgesRefl(stations);
        ok := false;
      } else {
        var foundA := RetimeEdges(stationA, stationB, travelTime);
        ghost var mid := stations;
        var foundB := RetimeEdges(stationB, stationA, travelTime);
        ok := foundA || foundB;
        RetimedBothWays(before, mid, stations, stationA, stationB, travelTime);
        FoundMeans(log, before[stationA].edges, before[stationB].edges, stationA, stationB, ok);
      }
      TimeSetKeeps(before, stations, lines, log, nextSerial, stationA, stationB, travelTime);
      if SameTimes(log) {
        SettingKeepsPromise(log, stationA, stationB, travelTime);
      }
      log := log + [TimeSet(stationA, stationB, travelTime)];
    }

    /** The first edge to a given station, if any. */
    method FindEdgeTo(edges: seq<GraphEdge>, to: Id) returns (edge: Option<GraphEdge>)
      ensures edge == FirstTo(edges, to)
    {
      for i := 0 to |edges|
        invariant FirstTo(edges, to) == FirstTo(edges[i..], to)
      {
        assert edges[i..][1..] == edges[i + 1..];
        if edges[i].nextStop == to {
          return Some(edges[i]);
        }
      }
      return None;
    }

    /** The travel time between two adjacent stations: of the first edge found,
        in whatever order the network was loaded. It is the time of every route
        that connects them directly, as long as those agree, and the time last
        set if lines were loaded before times. */
    method GetTravelTime(stationA: Id, stationB: Id) returns (time: nat)
      requires Valid()
      ensures time == if stationA in stations && stationB in stations then PairTime(log, stationA, stationB) else 0
      ensures SameTimes(log) ==>
        forall r :: Added(log, r) && Connects(r, stationA, stationB) ==> time == TimeOf(log, r, stationA, stationB)
      ensures stationA in stations && stationB in stations && LoadOrder(log) ==>
        time == if Adjacent(log, stationA, stationB) then LastSet(log, stationA, stationB) else 0
    {
      hide SameTimes, LoadOrder, TimeOf, Connects, LastSet;
      KnownPairTime(log, stations.Keys, stationA, stationB);
      if stationA !in stations || stationB !in stations {
        return 0;
      }
      assert NodeOk(log, stationA, stations[stationA]) && NodeOk(log, stationB, stations[stationB]);
      var edge := FindEdgeTo(stations[stationA].edges, stationB);
      if edge.Some? {
        return edge.value.travelTime;
      }
      edge := FindEdgeTo(stations[stationB].edges, stationA);
      if edge.Some? {
        return edge.value.travelTime;
      }
      return 0;
    }

    method FindEdgeForRoute(edges: seq<GraphEdge>, r: RouteInternal) returns (edge: Option<GraphEdge>)
      ensures edge.Some? ==> edge.value in edges && edge.value.route == r
      ensures edge.None? ==> forall e :: e in edges ==> e.route != r
    {
      for i := 0 to |edges|
        invariant forall j :: 0 <= j < i ==> edges[j].route != r
      {
        if edges[i].route == r {
          return Some(edges[i]);
        }
      }
      return None;
    }

    /** The travel time between two stations on a given route: the ride from
        the one to the other if they come in this order, and 0 in every other
        case. */
    method GetTravelTimeOnRoute(line: Id, route: Id, stationA: Id, stationB: Id) returns (time: nat)
      requires Valid()
      ensures !KnowsRoute(lines, line, route) || stationA !in stations || stationB !in stations ==> time == 0
      ensures KnowsRoute(lines, line, route) && stationA in stations && stationB in stations ==>
        RideIs(log, lines[line].routes[route], stationA, stationB, time)
    {
      hide Consistent, RideIs, RouteTime, TimeOf, EdgesOf, LegEdge;
      if line !in lines || route !in lines[line].routes {
        return 0;
      }
      var r := lines[line].routes[route];
      ListedRoute(stations, lines, log, nextSerial, line, route);
      if stationA !in stations || stationB !in stations {
        return 0;
      }
      time := 0;
      var foundA := false;
      ghost var from := 0;
      for n := 0 to |r.stops|
        invariant stationB !in r.stops[..n]
        invariant if foundA then from < n && OnTheWay(log, r, stationA, from, n, time)
                  else time == 0 && stationA !in r.stops[..n]
      {
        var stop := r.stops[n];
        assert r.stops[..n + 1] == r.stops[..n] + [stop];
        if stop == stationA {
          foundA := true;
          from := n;
          RideStarts(log, r, n);
        }
        if stop == stationB {
          RideEnds(log, r, stationA, stationB, foundA, from, n, time);
          return time;
        }
        if foundA {
          var edge := FindEdgeForRoute(stations[stop].edges, r);
          RouteEdgeAt(log, r, n, edge);
          if edge.None? {
            assert r.stops[..n + 1] == r.stops;
            NoRide(log, r, stationA, stationB);
            return 0;
          }
          RideGoesOn(log, r, from, n);
          time := time + edge.value.travelTime;
        }
      }
      assert r.stops[..|r.stops|] == r.stops;
      NoRide(log, r, stationA, stationB);
    }

    /** The ids of the routes that serve a station. `served` are the route
        objects behind them. */
    method GetRoutesServingStation(station: Id) returns (routes: seq<Id>, ghost served: seq<RouteInternal>)
      requires Valid()
      ensures station !in stations ==> routes == []
      ensures routes == RouteIds(served) && Distinct(served)
      ensures station in stations ==> forall r ::
        r in served <==> (Added(log, r) && Leaves(r, station)) || (Listed(lines, r) && EndsAt(r, station))
    {
      routes, served := [], [];
      if station !in stations {
        return;
      }
      assert NodeOk(log, station, stations[station]);
      var edges := stations[station].edges;
      for i := 0 to |edges|
        invariant |served| == i && routes == RouteIds(served)
        invariant forall j :: 0 <= j < i ==> served[j] == edges[j].route
      {
        RouteIdsSnoc(served, edges[i].route);
        routes := routes + [edges[i].route.id];
        served := served + [edges[i].route];
      }
      LeavingServed(log, station, served);
      ghost var leaving := served;
      var rest := lines.Keys;
      while rest != {}
        invariant rest <= lines.Keys && routes == RouteIds(served) && Distinct(served)
        invariant forall r :: r in served <==>
          r in leaving || (Listed(lines, r) && EndsAt(r, station) && r.lineId !in rest)
        decreases rest
      {
        var l :| l in rest;
        rest := rest - {l};
        routes, served := AddEndingRoutes(l, station, rest, leaving, routes, served);
      }
    }

    /** The inner loop over the routes of one line. */
    method AddEndingRoutes(l: Id, station: Id, ghost rest: set<Id>, ghost leaving: seq<RouteInternal>,
                           routes0: seq<Id>, ghost served0: seq<RouteInternal>)
      returns (routes: seq<Id>, ghost served: seq<RouteInternal>)
      requires Valid() && l in lines && l !in rest
      requires routes0 == RouteIds(served0) && Distinct(served0)
      requires forall r :: r in leaving ==> !EndsAt(r, station)
      requires forall r :: r in served0 <==>
        r in leaving || (Listed(lines, r) && EndsAt(r, station) && r.lineId !in rest + {l})
      ensures routes == RouteIds(served) && Distinct(served)
      ensures forall r :: r in served <==>
        r in leaving || (Listed(lines, r) && EndsAt(r, station) && r.lineId !in rest)
    {
      routes, served := routes0, served0;
      assert LineOk(log, l, lines[l]);
      var names := lines[l].routes.Keys;
      while names != {}
        invariant names <= lines[l].routes.Keys && routes == RouteIds(served) && Distinct(served)
        invariant forall r :: r in served <==>
          r in leaving ||
          (Listed(lines, r) && EndsAt(r, station) && r.lineId !in rest && (r.lineId == l ==> r.id !in names))
        decreases names
      {
        var name :| name in names;
        names := names - {name};
        var r := lines[l].routes[name];
        AddedWellFormed(log, r);
        var endStop := r.stops[|r.stops| - 1];
        if station == endStop {
          RouteIdsSnoc(served, r);
          routes := routes + [r.id];
          served := served + [r];
        }
      }
    }

    /** Adds stations in order, up to the first whose id is known. */
    method LoadStations(items: seq<Station>) returns (ok: bool, ghost done: nat)
      requires Valid()
      modifies this`stations
      ensures Valid() && ok == FreshIds(StationIds(items), old(stations).Keys)
      ensures done <= |items| && (ok <==> done == |items|)
      ensures stations.Keys == old(stations).Keys + Members(StationIds(items)[..done])
      ensures !ok ==> items[done].id in stations
      ensures StationsAdded(old(stations), stations, items[..done])
    {
      hide Consistent, FreshIds, StationsAdded;
      var ids := StationIds(items);
      done := 0;
      NoStationsAdded(stations, ids);
      for i := 0 to |items|
        invariant done == i
        invariant Valid() && stations.Keys == old(stations).Keys + Members(ids[..i])
        invariant FreshIds(ids[..i], old(stations).Keys)
        invariant StationsAdded(old(stations), stations, items[..i])
      {
        FreshIdsSnoc(ids, i, old(stations).Keys);
        ghost var before := stations;
        var added := AddStation(items[i]);
        if !added {
          return false, i;
        }
        OneMoreStation(old(stations), before, stations, items, i);
        done := i + 1;
      }
      assert ids[..|items|] == ids;
      return true, done;
    }

    /** Adds lines in order, up to the first that is refused. Of that one the
        first `n` routes stay in the network. */
    method LoadLines(items: seq<Line>) returns (ok: bool, ghost done: nat, ghost n: nat)
      requires Valid() && forall i :: 0 <= i < |items| ==> WellFormedLine(items[i])
      modifies this
      ensures Valid() && stations.Keys == old(stations).Keys && SameButEdges(old(stations), stations)
      ensures ok == (FreshIds(LineIds(items), old(lines).Keys) && AllAccepted(items, stations.Keys))
      ensures ok ==> LinesLoaded(items, old(lines), old(log), old(nextSerial), lines, log, nextSerial)
      ensures !ok ==>
        && done < |items|
        && Aborted(items, done, n, stations.Keys, old(lines), old(log), old(nextSerial), lines, log)
    {
      hide Consistent, RouteAccepted, LineEntries, LinesLoaded, Aborted, FreshIds, AllAccepted, Listed, LineUntimed,
        SameButItsEdges;
      done, n := 0, 0;
      NothingLoaded(lines, log, nextSerial, stations.Keys);
      SameButEdgesRefl(stations);
      for i := 0 to |items|
        invariant done == i
        invariant Valid() && stations.Keys == old(stations).Keys && SameButEdges(old(stations), stations)
        invariant FreshIds(LineIds(items[..i]), old(lines).Keys) && AllAccepted(items[..i], stations.Keys)
        invariant LinesLoaded(items[..i], old(lines), old(log), old(nextSerial), lines, log, nextSerial)
      {
        ghost var before, known, serial, mid := log, lines, nextSerial, stations;
        var added;
        added, n := AddLine(items[i]);
        SameButEdgesTrans(old(stations), mid, stations);
        if !added {
          LineRefused(items, i, n, stations.Keys, old(lines), old(log), old(nextSerial), known, before, serial);
          return false, i, n;
        }
        LineJoins(items, i, stations.Keys, old(lines), old(log), old(nextSerial), known, before, serial, lines);
        done := i + 1;
      }
      assert items[..|items|] == items;
      return true, done, n;
    }

    method LoadTimes(items: seq<TravelTime>) returns (ok: bool)
      requires Valid()
      modifies this`stations, this`log
      ensures Valid() && stations.Keys == old(stations).Keys && SameButEdges(old(stations), stations)
      ensures log == old(log) + TimeEntries(items)
      ensures ok <==> forall i :: 0 <= i < |items| ==> Settable(old(log), stations.Keys, items[i])
    {
      hide Consistent, EdgesOf, Adjacent, SameButItsEdges;
      ok := true;
      SameButEdgesRefl(stations);
      for i := 0 to |items|
        invariant Valid() && stations.Keys == old(stations).Keys && SameButEdges(old(stations), stations)
        invariant log == old(log) + TimeEntries(items[..i])
        invariant ok <==> forall j :: 0 <= j < i ==> Settable(old(log), stations.Keys, items[j])
      {
        TimeEntriesSnoc(items, i);
        StillSettable(old(log), items[..i], stations.Keys, items[i]);
        ghost var mid := stations;
        var wasSet := SetTravelTime(items[i].startStationId, items[i].endStationId, items[i].travelTime);
        SameButEdgesTrans(old(stations), mid, stations);
        ok := ok && wasSet;
      }
      assert items[..|items|] == items;
    }

    /** Loads stations, then lines, then travel times. An exception leaves
        behind the first `done` stations, or all stations, the first `done`
        lines and `n` routes of the next line. */
    method FromJson(stationItems: seq<Station>, lineItems: seq<Line>, timeItems: seq<TravelTime>)
      returns (result: LoadResult, ghost done: nat, ghost n: nat)
      requires Valid() && forall i :: 0 <= i < |lineItems| ==> WellFormedLine(lineItems[i])
      modifies this
      ensures Valid()
      ensures result.Loaded? <==>
        && FreshIds(StationIds(stationItems), old(stations).Keys)
        && FreshIds(LineIds(lineItems), old(lines).Keys)
        && AllAccepted(lineItems, old(stations).Keys + Members(StationIds(stationItems)))
      ensures result.Loaded? ==>
        && stations.Keys == old(stations).Keys + Members(StationIds(stationItems))
        && lines.Keys == old(lines).Keys + Members(LineIds(lineItems))
        && log == old(log) + AllEntries(lineItems, old(nextSerial)) + TimeEntries(timeItems)
        && (result.ok <==> forall i :: 0 <= i < |timeItems| ==>
              Settable(old(log) + AllEntries(lineItems, old(nextSerial)), stations.Keys, timeItems[i]))
      ensures result.Loaded? && AllListed(old(lines), old(log)) ==> AllListed(lines, log)
      ensures !FreshIds(StationIds(stationItems), old(stations).Keys) ==>
        && done < |stationItems| && stationItems[done].id in stations
        && stations.Keys == old(stations).Keys + Members(StationIds(stationItems)[..done])
        && lines == old(lines) && log == old(log)
      ensures result.Threw? && FreshIds(StationIds(stationItems), old(stations).Keys) ==>
        && stations.Keys == old(stations).Keys + Members(StationIds(stationItems)) && done < |lineItems|
        && Aborted(lineItems, done, n, stations.Keys, old(lines), old(log), old(nextSerial), lines, log)
      ensures if FreshIds(StationIds(stationItems), old(stations).Keys)
              then StationsAdded(old(stations), stations, stationItems)
              else done <= |stationItems| && StationsAdded(old(stations), stations, stationItems[..done])
    {
      hide StationsAdded, SameButEdges;
      n := 0;
      var ok;
      ok, done := LoadStations(stationItems);
      if !ok {
        return Threw, done, n;
      }
      assert StationIds(stationItems)[..done] == StationIds(stationItems);
      assert stationItems[..done] == stationItems;
      ghost var loaded := stations;
      ok, done, n := LoadLines(lineItems);
      StationsStayAdded(old(stations), loaded, stations, stationItems);
      if !ok {
        return Threw, done, n;
      }
      StillListed(lines, log, timeItems);
      loaded := stations;
      ok := LoadTimes(timeItems);
      StationsStayAdded(old(stations), loaded, stations, stationItems);
      return Loaded(ok), done, n;
    }

    /** The fastest route between two stations; `path` is the path behind it. */
    method GetFastestTravelRoute(stationAId: Id, stationBId: Id) returns (route: TravelRoute, ghost path: Path)
      requires Valid()
      ensures stationAId !in stations || stationBId !in stations ==> route == TravelRoute("", "", 0, [])
      ensures stationAId in stations && stationAId == stationBId ==> route == Stay(stationAId)
      ensures stationAId in stations && stationBId in stations && stationAId != stationBId ==>
        FastestRoute(Net(stations), stationAId, stationBId, path, route)
    {
      path := [];
      if stationAId !in stations || stationBId !in stations {
        return TravelRoute("", "", 0, []), path;
      }
      if stationAId == stationBId {
        return TravelRoute(stationAId, stationAId, 0, [Step(stationAId, stationAId, "", "", 0)]), path;
      }
      NetIsWellFormed(stations, lines, log, nextSerial);
      var found, _ := FastestPath(Direct(Net(stations), stationAId, stationBId));
      path := found;
      if found == [] {
        return TravelRoute(stationAId, stationBId, 0, []), path;
      }
      WalkBoarded(Net(stations), found);
      route := Assemble(stationAId, stationBId, found);
    }

    /** A quiet route between two stations; `paths` are the candidates and `k`
        is the one chosen. */
    method GetQuietTravelRoute(stationAId: Id, stationBId: Id, maxSlowdownPc: real, minQuietnessPc: real,
                               maxNPaths: nat)
      returns (route: TravelRoute, ghost paths: seq<Path>, ghost k: int)
      requires Valid()
      ensures stationAId !in stations || stationBId !in stations ==> route == TravelRoute("", "", 0, [])
      ensures stationAId in stations && stationAId == stationBId ==> route == Stay(stationAId)
      ensures stationAId in stations && stationBId in stations && stationAId != stationBId ==>
        && Enumerated(Net(stations), stationAId, stationBId, maxSlowdownPc, maxNPaths, paths)
        && QuietestRoute(CountsOf(stations), stationAId, stationBId, paths, minQuietnessPc, k, route)
    {
      paths, k := [], 0;
      if stationAId !in stations || stationBId !in stations {
        return TravelRoute("", "", 0, []), paths, k;
      }
      if stationAId == stationBId {
        return TravelRoute(stationAId, stationAId, 0, [Step(stationAId, stationAId, "", "", 0)]), paths, k;
      }
      NetIsWellFormed(stations, lines, log, nextSerial);
      var candidates, _ := FastestPaths(Net(stations), stationAId, stationBId, maxSlowdownPc, maxNPaths);
      paths := candidates;
      if candidates == [] {
        return TravelRoute(stationAId, stationBId, 0, []), paths, k;
      }
      JourneysInNetwork(stations, stationAId, stationBId, candidates);
      var mostQuietPath := MostQuietPath(CountsOf(stations), candidates, minQuietnessPc);
      k :| 0 <= k < |candidates| && mostQuietPath == candidates[k]
           && Chosen(CountsOf(stations), candidates, minQuietnessPc, k);
      route := Assemble(stationAId, stationBId, mostQuietPath);
    }
  }

  function Stay(station: Id): TravelRoute {
    TravelRoute(station, station, 0, [Step(station, station, "", "", 0)])
  }

  /** The route is the itinerary of an optimal path, or empty if B cannot be reached. */
  ghost predicate FastestRoute(g: Graph, a: Id, b: Id, path: Path, route: TravelRoute) {
    if Unreachable(Direct(g, a, b)) then path == [] && route == TravelRoute(a, b, 0, [])
    else
      && path != [] && Boarded(path) && Loopless(path)
      && Optimal(Direct(g, a, b), path) && route == Itinerary(a, b, path)
  }

  ghost predicate QuietestRoute(counts: Counts, a: Id, b: Id, paths: seq<Path>, minQuietnessPc: real,
                                k: int, route: TravelRoute)
  {
    if paths == [] then route == TravelRoute(a, b, 0, [])
    else
      && 0 <= k < |paths| && Chosen(counts, paths, minQuietnessPc, k)
      && paths[k] != [] && Boarded(paths[k]) && route == Itinerary(a, b, paths[k])
  }

  /** Where both answers exist, the quiet route is no faster than the fastest
      one and stays under the slowdown ceiling. */
  lemma QuietUnderCeiling(g: Graph, counts: Counts, a: Id, b: Id, maxSlowdownPc: real, minQuietnessPc: real,
                          maxNPaths: nat, paths: seq<Path>, k: int, quiet: TravelRoute,
                          path: Path, fastest: TravelRoute)
    requires a != b && maxSlowdownPc >= 0.0
    requires Enumerated(g, a, b, maxSlowdownPc, maxNPaths, paths)
    requires QuietestRoute(counts, a, b, paths, minQuietnessPc, k, quiet)
    requires FastestRoute(g, a, b, path, fastest)
    ensures quiet.steps == [] <==> fastest.steps == []
    ensures fastest.totalTravelTime <= quiet.totalTravelTime
    ensures quiet.totalTravelTime as real <= fastest.totalTravelTime as real * (1.0 + maxSlowdownPc)
  {
    hide Ceiling, Chosen, IsWalk;
    CeilingMeans(fastest.totalTravelTime, maxSlowdownPc, quiet.totalTravelTime);
    if paths != [] {
      assert Answers(Direct(g, a, b), paths[0]) && Answers(Direct(g, a, b), path);
      assert Answers(Direct(g, a, b), paths[k]);
      NotJustStart(g, a, b, paths[k]);
      NotJustStart(g, a, b, path);
      StepAt(paths[k], 0);
      StepAt(path, 0);
    }
  }

  lemma NotJustStart(g: Graph, a: Id, b: Id, w: Path)
    requires a != b && Answers(Direct(g, a, b), w)
    ensures |w| > 1
  {
  }

  /** In a network without failed lines, every route returned between distinct
      stations conserves the path behind it. */
  lemma RouteConserved(stations: Nodes, lines: Lines, log: Log, nextSerial: nat, a: Id, b: Id, path: Path)
    requires Consistent(stations, lines, log, nextSerial) && AllListed(lines, log)
    requires a != b && Journey(Net(stations), a, b, path)
    ensures Boarded(path) && Conserved(log, a, b, Itinerary(a, b, path))
  {
    hide Conserved, Itinerary, Consistent, AllListed, UniqueNames;
    NetIsWellFormed(stations, lines, log, nextSerial);
    LogIsWellFormed(stations, lines, log, nextSerial);
    ListedNamesAreUnique(lines, log);
    WalkBoarded(Net(stations), path);
    ItineraryConserved(log, Net(stations), a, b, path);
  }

  lemma LogIsWellFormed(stations: Nodes, lines: Lines, log: Log, nextSerial: nat)
    requires Consistent(stations, lines, log, nextSerial)
    ensures WellFormedLog(log) && StopsKnown(log, stations.Keys)
  {
  }

  /** If A comes before B on a route, B can be reached, and the fastest route
      never takes longer than staying on that one. */
  lemma FastestBeatsRoute(stations: Nodes, log: Log, r: RouteInternal, i: nat, j: nat, time: nat,
                          path: Path, fastest: TravelRoute)
    requires WellFormedLog(log) && StopsKnown(log, Net(stations).Keys) && GraphOf(log, Net(stations))
    requires Added(log, r) && i < j < |r.stops| && RideIs(log, r, r.stops[i], r.stops[j], time)
    requires FastestRoute(Net(stations), r.stops[i], r.stops[j], path, fastest)
    ensures fastest.steps != [] && fastest.totalTravelTime <= time
  {
    AddedWellFormed(log, r);
    var w := RouteWalk(log, Net(stations), r, i, j);
    assert Answers(Direct(Net(stations), r.stops[i], r.stops[j]), w);
    StepAt(path, 0);
  }

  /** Wherever A leads to B and B to C, A leads to C, at most one change slower
      than the two fastest routes together. */
  lemma FastestTriangle(g: Graph, a: Id, b: Id, c: Id, ab: Path, bc: Path, ac: Path,
                        abRoute: TravelRoute, bcRoute: TravelRoute, acRoute: TravelRoute)
    requires FastestRoute(g, a, b, ab, abRoute) && FastestRoute(g, b, c, bc, bcRoute)
    requires FastestRoute(g, a, c, ac, acRoute)
    requires ab != [] && bc != []
    ensures ac != [] && acRoute.totalTravelTime <= abRoute.totalTravelTime + bcRoute.totalTravelTime + 5
  {
    var w := ThroughB(g, a, b, c, ab, bc);
    assert Answers(Direct(g, a, c), w);
  }

  lemma JourneysInNetwork(stations: Nodes, a: Id, b: Id, paths: seq<Path>)
    requires a in stations && ValidGraph(Net(stations))
    requires forall i :: 0 <= i < |paths| ==> Journey(Net(stations), a, b, paths[i])
    ensures forall i :: 0 <= i < |paths| ==> paths[i] != [] && Boarded(paths[i])
    ensures forall i, p :: 0 <= i < |paths| && p in paths[i] ==> p.stop.node in CountsOf(stations)
  {
    forall i | 0 <= i < |paths| ensures paths[i] != [] && Boarded(paths[i]) {
      WalkBoarded(Net(stations), paths[i]);
    }
    forall i, p | 0 <= i < |paths| && p in paths[i] ensures p.stop.node in CountsOf(stations) {
      var j :| 0 <= j < |paths[i]| && paths[i][j] == p;
      WalkStaysInGraph(Net(stations), {}, paths[i], j);
    }
  }

  // ----- Serving a station -----

  ghost function RouteIds(rs: seq<RouteInternal>): seq<Id> {
    seq(|rs|, i requires 0 <= i < |rs| => rs[i].id)
  }

  lemma RouteIdsSnoc(rs: seq<RouteInternal>, r: RouteInternal)
    ensures RouteIds(rs + [r]) == RouteIds(rs) + [r.id]
  {
  }

  lemma LeavingServed(log: Log, u: Id, served: seq<RouteInternal>)
    requires WellFormedLog(log)
    requires |served| == |EdgesOf(log, u)|
    requires forall j :: 0 <= j < |served| ==> served[j] == EdgesOf(log, u)[j].route
    ensures Distinct(served)
    ensures forall r :: r in served <==> Added(log, r) && Leaves(r, u)
    ensures forall r :: r in served ==> !EndsAt(r, u)
  {
    EdgesOnePerRoute(log, u);
    var es := EdgesOf(log, u);
    forall r ensures r in served <==> Added(log, r) && Leaves(r, u) {
      LeavingRoutes(log, u, r);
      if r in served {
        var j :| 0 <= j < |served| && served[j] == r;
        assert es[j] in es && es[j].route == r;
      }
      if e :| e in es && e.route == r {
        var j :| 0 <= j < |es| && es[j] == e;
        assert served[j] == r;
      }
    }
    forall r | r in served ensures !EndsAt(r, u) {
      AddedWellFormed(log, r);
      ServesMeans(r, u);
    }
  }

  /** With no failed line, every route whose stop list contains the station is
      reported, exactly once. */
  lemma EveryRouteServed(lines: Lines, log: Log, station: Id, served: seq<RouteInternal>)
    requires AllListed(lines, log) && Distinct(served)
    requires forall l :: l in lines ==> LineOk(log, l, lines[l])
    requires forall r ::
      r in served <==> (Added(log, r) && Leaves(r, station)) || (Listed(lines, r) && EndsAt(r, station))
    ensures forall r :: multiset(served)[r] == if Added(log, r) && station in r.stops then 1 else 0
  {
    forall r ensures multiset(served)[r] == if Added(log, r) && station in r.stops then 1 else 0 {
      ServesMeans(r, station);
      DistinctCount(served, r);
      if Listed(lines, r) {
        assert LineOk(log, r.lineId, lines[r.lineId]);
      }
    }
  }

  lemma {:induction false} DistinctCount<T(!new)>(s: seq<T>, x: T)
    requires Distinct(s)
    ensures multiset(s)[x] == if x in s then 1 else 0
  {
    if s != [] {
      DistinctCount(s[1..], x);
      assert s == [s[0]] + s[1..];
    }
  }

  // ----- Loading a layout -----

  function StationIds(items: seq<Station>): seq<Id> {
    seq(|items|, i requires 0 <= i < |items| => items[i].id)
  }

  function LineIds(items: seq<Line>): seq<Id> {
    seq(|items|, i requires 0 <= i < |items| => items[i].id)
  }

  ghost predicate FreshIds(ids: seq<Id>, known: set<Id>) {
    Distinct(ids) && Members(ids) !! known
  }

  lemma FreshIdsSnoc(ids: seq<Id>, i: nat, known: set<Id>)
    requires i < |ids|
    ensures FreshIds(ids[..i], known) ==>
      (FreshIds(ids[..i + 1], known) <==> ids[i] !in known + Members(ids[..i]))
    ensures FreshIds(ids, known) ==> FreshIds(ids[..i + 1], known)
    ensures Members(ids[..i + 1]) == Members(ids[..i]) + {ids[i]}
  {
    assert ids[..i + 1] == ids[..i] + [ids[i]];
    if FreshIds(ids[..i + 1], known) {
      forall x | x in Members(ids[..i]) ensures x != ids[i] {
        var j :| 0 <= j < i && ids[..i][j] == x;
        assert ids[..i + 1][j] == x && ids[..i + 1][i] == ids[i];
      }
    }
  }

  /** The station is there, by its name, and without passengers yet. */
  ghost predicate NewStation(stations: Nodes, item: Station) {
    && item.id in stations && stations[item.id].id == item.id
    && stations[item.id].name == item.name && stations[item.id].passengerCount == 0
  }

  ghost predicate StationKept(before: Nodes, after: Nodes, u: Id) {
    u in before ==> u in after && SameButItsEdges(before[u], after[u])
  }

  /** The stations have been added; those known before have kept their names and
      their passengers. */
  ghost predicate StationsAdded(before: Nodes, after: Nodes, items: seq<Station>) {
    && (forall u :: StationKept(before, after, u))
    && (forall i :: 0 <= i < |items| ==> items[i].id !in before && NewStation(after, items[i]))
  }

  lemma SameButEdgesRefl(stations: Nodes)
    ensures SameButEdges(stations, stations)
  {
  }

  lemma NoStationsAdded(stations: Nodes, ids: seq<Id>)
    ensures StationsAdded(stations, stations, []) && FreshIds([], stations.Keys)
  {
  }

  lemma OneMoreStation(before: Nodes, mid: Nodes, after: Nodes, items: seq<Station>, i: nat)
    requires i < |items| && StationsAdded(before, mid, items[..i]) && items[i].id !in mid
    requires after == mid[items[i].id := GraphNode(items[i].id, items[i].name, 0, [])]
    ensures StationsAdded(before, after, items[..i + 1])
  {
    assert items[..i + 1] == items[..i] + [items[i]];
    forall u ensures StationKept(before, after, u) {
      assert StationKept(before, mid, u);
    }
    forall k | 0 <= k < i + 1 ensures items[k].id !in before && NewStation(after, items[k]) {
      if k < i {
        assert items[..i][k] == items[k] && NewStation(mid, items[..i][k]);
      } else {
        assert StationKept(before, mid, items[i].id);
      }
    }
  }

  lemma StationsStayAdded(before: Nodes, mid: Nodes, after: Nodes, items: seq<Station>)
    requires StationsAdded(before, mid, items) && SameButEdges(mid, after)
    ensures StationsAdded(before, after, items)
  {
    forall u ensures StationKept(before, after, u) {
      assert StationKept(before, mid, u);
      assert u in mid ==> SameButItsEdges(mid[u], after[u]);
    }
    forall i | 0 <= i < |items| ensures items[i].id !in before && NewStation(after, items[i]) {
      assert NewStation(mid, items[i]) && SameButItsEdges(mid[items[i].id], after[items[i].id]);
    }
  }

  /** Every route of every line is accepted. */
  ghost predicate AllAccepted(items: seq<Line>, ids: set<Id>) {
    forall i, k :: 0 <= i < |items| && 0 <= k < |items[i].routes| ==> RouteAccepted(items[i].routes, k, ids)
  }

  ghost function RouteCount(items: seq<Line>): nat {
    if items == [] then 0 else RouteCount(items[..|items| - 1]) + |items[|items| - 1].routes|
  }

  /** The log entries of whole lines, in order. */
  ghost function AllEntries(items: seq<Line>, serial: nat): Log {
    if items == [] then []
    else
      var n := |items| - 1;
      AllEntries(items[..n], serial) +
      LineEntries(items[n], serial + RouteCount(items[..n]), |items[n].routes|)
  }

  /** What loading the lines `items` has changed. */
  ghost predicate LinesLoaded(items: seq<Line>, lines0: Lines, log0: Log, serial0: nat,
                              lines: Lines, log: Log, serial: nat)
  {
    && lines.Keys == lines0.Keys + Members(LineIds(items))
    && log == log0 + AllEntries(items, serial0)
    && serial == serial0 + RouteCount(items)
    && (AllListed(lines0, log0) ==> AllListed(lines, log))
  }

  /** Loading lines has stopped at line `k`, because its id is known or its
      route `n` is refused: the lines before it are listed, it is not, and the
      routes before the refused one stay. */
  ghost predicate Aborted(items: seq<Line>, k: nat, n: nat, ids: set<Id>, lines0: Lines, log0: Log, serial0: nat,
                          lines: Lines, log: Log)
    requires k < |items|
  {
    && lines.Keys == lines0.Keys + Members(LineIds(items[..k]))
    && n <= |items[k].routes|
    && log == log0 + AllEntries(items[..k], serial0) + LineEntries(items[k], serial0 + RouteCount(items[..k]), n)
    && if items[k].id in lines then n == 0
       else n < |items[k].routes| && !RouteAccepted(items[k].routes, n, ids)
  }

  lemma LinesStep(items: seq<Line>, i: nat, ids: set<Id>, lines0: Lines, log0: Log, serial0: nat,
                  lines: Lines, log: Log, serial: nat)
    requires i < |items| && LinesLoaded(items[..i], lines0, log0, serial0, lines, log, serial)
    requires FreshIds(LineIds(items[..i]), lines0.Keys) && AllAccepted(items[..i], ids)
    ensures items[i].id !in lines.Keys <==> FreshIds(LineIds(items[..i + 1]), lines0.Keys)
    ensures AllAccepted(items[..i + 1], ids) <==>
      forall k :: 0 <= k < |items[i].routes| ==> RouteAccepted(items[i].routes, k, ids)
    ensures FreshIds(LineIds(items), lines0.Keys) ==> FreshIds(LineIds(items[..i + 1]), lines0.Keys)
    ensures AllAccepted(items, ids) ==> AllAccepted(items[..i + 1], ids)
    ensures Members(LineIds(items[..i + 1])) == Members(LineIds(items[..i])) + {items[i].id}
    ensures RouteCount(items[..i + 1]) == RouteCount(items[..i]) + |items[i].routes|
    ensures log + LineEntries(items[i], serial, |items[i].routes|) == log0 + AllEntries(items[..i + 1], serial0)
  {
    hide FreshIds, AllAccepted, RouteAccepted, LineEntries, AllListed, Members;
    var more := items[..i + 1];
    assert LineIds(items)[..i] == LineIds(items[..i]) && LineIds(items)[..i + 1] == LineIds(more);
    FreshIdsSnoc(LineIds(items), i, lines0.Keys);
    AcceptedSnoc(items, i, ids);
    EntriesSnoc(items, i, serial0);
    assert log0 + (AllEntries(items[..i], serial0) + LineEntries(items[i], serial, |items[i].routes|)) ==
      log0 + AllEntries(items[..i], serial0) + LineEntries(items[i], serial, |items[i].routes|);
  }

  lemma AcceptedSnoc(items: seq<Line>, i: nat, ids: set<Id>)
    requires i < |items| && AllAccepted(items[..i], ids)
    ensures AllAccepted(items[..i + 1], ids) <==>
      forall k :: 0 <= k < |items[i].routes| ==> RouteAccepted(items[i].routes, k, ids)
    ensures AllAccepted(items, ids) ==> AllAccepted(items[..i + 1], ids)
  {
    hide RouteAccepted;
    var more := items[..i + 1];
    assert forall j :: 0 <= j < i ==> more[j] == items[..i][j];
    if AllAccepted(more, ids) {
      assert forall k :: 0 <= k < |items[i].routes| ==> RouteAccepted(more[i].routes, k, ids);
    }
  }

  lemma EntriesSnoc(items: seq<Line>, i: nat, serial: nat)
    requires i < |items|
    ensures RouteCount(items[..i + 1]) == RouteCount(items[..i]) + |items[i].routes|
    ensures AllEntries(items[..i + 1], serial) ==
      AllEntries(items[..i], serial) +
      LineEntries(items[i], serial + RouteCount(items[..i]), |items[i].routes|)
  {
    hide LineEntries;
    var more := items[..i + 1];
    assert more[..|more| - 1] == items[..i] && more[|more| - 1] == items[i];
  }

  lemma NothingLoaded(lines: Lines, log: Log, serial: nat, ids: set<Id>)
    ensures FreshIds(LineIds([]), lines.Keys) && AllAccepted([], ids)
    ensures LinesLoaded([], lines, log, serial, lines, log, serial)
  {
    assert log + AllEntries([], serial) == log;
  }

  /** One more line has been added. */
  lemma LineJoins(items: seq<Line>, i: nat, ids: set<Id>, lines0: Lines, log0: Log, serial0: nat,
                  known: Lines, log: Log, serial: nat, lines: Lines)
    requires i < |items| && LinesLoaded(items[..i], lines0, log0, serial0, known, log, serial)
    requires FreshIds(LineIds(items[..i]), lines0.Keys) && AllAccepted(items[..i], ids)
    requires items[i].id !in known && items[i].id in lines && lines == known[items[i].id := lines[items[i].id]]
    requires forall k :: 0 <= k < |items[i].routes| ==> RouteAccepted(items[i].routes, k, ids)
    requires forall k :: 0 <= k < |items[i].routes| ==> Listed(lines, RouteObject(items[i], serial, k))
    ensures FreshIds(LineIds(items[..i + 1]), lines0.Keys) && AllAccepted(items[..i + 1], ids)
    ensures LinesLoaded(items[..i + 1], lines0, log0, serial0, lines,
                        log + LineEntries(items[i], serial, |items[i].routes|), serial + |items[i].routes|)
  {
    hide FreshIds, AllAccepted, RouteAccepted, Listed, AllListed, LineEntries, AllEntries;
    LinesStep(items, i, ids, lines0, log0, serial0, known, log, serial);
    LineLoaded(items[i], serial, log, known, lines);
  }

  /** The next line is refused, after `n` of its routes. */
  lemma LineRefused(items: seq<Line>, i: nat, n: nat, ids: set<Id>, lines0: Lines, log0: Log, serial0: nat,
                    lines: Lines, log: Log, serial: nat)
    requires i < |items| && LinesLoaded(items[..i], lines0, log0, serial0, lines, log, serial)
    requires FreshIds(LineIds(items[..i]), lines0.Keys) && AllAccepted(items[..i], ids)
    requires n <= |items[i].routes|
    requires if items[i].id in lines then n == 0
             else n < |items[i].routes| && !RouteAccepted(items[i].routes, n, ids)
    ensures !(FreshIds(LineIds(items), lines0.Keys) && AllAccepted(items, ids))
    ensures Aborted(items, i, n, ids, lines0, log0, serial0, lines, log + LineEntries(items[i], serial, n))
  {
    hide FreshIds, AllAccepted, RouteAccepted, AllListed, LineEntries, AllEntries;
    LinesStep(items, i, ids, lines0, log0, serial0, lines, log, serial);
  }

  ghost predicate Settable(log: Log, ids: set<Id>, item: TravelTime) {
    && item.startStationId in ids && item.endStationId in ids
    && Adjacent(log, item.startStationId, item.endStationId)
  }

  lemma StillDeparts(log: Log, a: Id, b: Id, t: nat, u: Id, v: Id)
    ensures Departs(log + [TimeSet(a, b, t)], u, v) <==> Departs(log, u, v)
  {
    var after := log + [TimeSet(a, b, t)];
    assert after[..|after| - 1] == log;
    var es, fs := EdgesOf(log, u), EdgesOf(after, u);
    if Departs(after, u, v) {
      var f :| f in fs && f.nextStop == v;
      var i :| 0 <= i < |fs| && fs[i] == f;
      assert es[i] in es && es[i].nextStop == v;
    }
    if Departs(log, u, v) {
      var e :| e in es && e.nextStop == v;
      var i :| 0 <= i < |es| && es[i] == e;
      assert fs[i] in fs && fs[i].nextStop == v;
    }
  }

  lemma TimeEntriesSnoc(items: seq<TravelTime>, i: nat)
    requires i < |items|
    ensures TimeEntries(items[..i + 1]) ==
      TimeEntries(items[..i]) + [TimeSet(items[i].startStationId, items[i].endStationId, items[i].travelTime)]
  {
  }

  lemma {:induction false} StillSettable(log: Log, items: seq<TravelTime>, ids: set<Id>, item: TravelTime)
    ensures Settable(log + TimeEntries(items), ids, item) <==> Settable(log, ids, item)
  {
    if items == [] {
      assert log + TimeEntries(items) == log;
    } else {
      var n := |items| - 1;
      var x := items[n];
      StillSettable(log, items[..n], ids, item);
      TimeEntriesSnoc(items, n);
      assert items[..n + 1] == items;
      var before := log + TimeEntries(items[..n]);
      assert log + TimeEntries(items) == before + [TimeSet(x.startStationId, x.endStationId, x.travelTime)];
      StillDeparts(before, x.startStationId, x.endStationId, x.travelTime, item.startStationId, item.endStationId);
      StillDeparts(before, x.startStationId, x.endStationId, x.travelTime, item.endStationId, item.startStationId);
    }
  }

  lemma {:induction false} EntriesOnlyRoutes(items: seq<Line>, serial: nat)
    ensures NoTimes(AllEntries(items, serial))
  {
    if items != [] {
      var n := |items| - 1;
      EntriesOnlyRoutes(items[..n], serial);
      LineEntriesOnlyRoutes(items[n], serial + RouteCount(items[..n]), |items[n].routes|);
    }
  }

  /** A layout loaded into a network without times leaves a log in loading
      order, in which every pair has the time last given for it. */
  lemma LoadedTimes(log: Log, lines: seq<Line>, serial: nat, times: seq<TravelTime>)
    requires NoTimes(log)
    ensures var after := log + AllEntries(lines, serial) + TimeEntries(times);
            LoadOrder(after) && forall u, v :: LastSet(after, u, v) == LastSet(TimeEntries(times), u, v)
  {
    EntriesOnlyRoutes(lines, serial);
    TimesAfterRoutes(log + AllEntries(lines, serial), times);
  }

  /** So that loading a layout keeps the promise of one time for all routes. */
  lemma LayoutKeepsPromise(log: Log, lines: seq<Line>, serial: nat, times: seq<TravelTime>)
    requires NoTimes(log)
    ensures SameTimes(log + AllEntries(lines, serial) + TimeEntries(times))
  {
    LoadedTimes(log, lines, serial, times);
    LoadOrderKeepsPromise(log + AllEntries(lines, serial) + TimeEntries(times));
  }

  ghost function TimeEntries(times: seq<TravelTime>): Log {
    seq(|times|, i requires 0 <= i < |times| =>
      TimeSet(times[i].startStationId, times[i].endStationId, times[i].travelTime))
  }

  lemma {:induction false} LineEntriesOnlyRoutes(line: Line, serial: nat, n: nat)
    requires n <= |line.routes|
    ensures NoTimes(LineEntries(line, serial, n))
    ensures forall r :: Added(LineEntries(line, serial, n), r) ==>
      exists k :: 0 <= k < n && r == RouteObject(line, serial, k)
  {
    if n > 0 {
      LineEntriesOnlyRoutes(line, serial, n - 1);
      forall r | Added(LineEntries(line, serial, n), r)
        ensures exists k :: 0 <= k < n && r == RouteObject(line, serial, k)
      {
        if r != RouteObject(line, serial, n - 1) {
          assert Added(LineEntries(line, serial, n - 1), r);
        }
      }
    }
  }

  lemma LineLoaded(line: Line, serial: nat, log: Log, known: Lines, lines: Lines)
    requires line.id !in known && line.id in lines && lines == known[line.id := lines[line.id]]
    requires forall k :: 0 <= k < |line.routes| ==> Listed(lines, RouteObject(line, serial, k))
    ensures var after := log + LineEntries(line, serial, |line.routes|);
            && (NoTimes(log) ==> NoTimes(after))
            && (AllListed(known, log) ==> AllListed(lines, after))
  {
    var added := LineEntries(line, serial, |line.routes|);
    var after := log + added;
    LineEntriesOnlyRoutes(line, serial, |line.routes|);
    if AllListed(known, log) {
      forall r | Added(after, r) ensures Listed(lines, r) {
        if Added(log, r) {
          assert Listed(known, r);
        } else {
          assert Added(added, r);
        }
      }
    }
  }

  lemma StillListed(lines: Lines, log: Log, times: seq<TravelTime>)
    ensures AllListed(lines, log) ==> AllListed(lines, log + TimeEntries(times))
  {
    if AllListed(lines, log) {
      forall r | Added(log + TimeEntries(times), r) ensures Listed(lines, r) {
        assert Added(log, r);
      }
    }
  }

  lemma {:induction false} LastSetAppend(log: Log, times: Log, u: Id, v: Id)
    requires NoTimes(log)
    ensures LastSet(log + times, u, v) == LastSet(times, u, v)
    decreases |times|
  {
    if times == [] {
      assert log + times == log;
      NoTimesZero(log, u, v);
    } else {
      var all := log + times;
      assert all[..|all| - 1] == log + times[..|times| - 1];
      LastSetAppend(log, times[..|times| - 1], u, v);
    }
  }

  lemma TimesAfterRoutes(log: Log, times: seq<TravelTime>)
    requires NoTimes(log)
    ensures LoadOrder(log + TimeEntries(times))
    ensures forall u, v :: LastSet(log + TimeEntries(times), u, v) == LastSet(TimeEntries(times), u, v)
  {
    forall u, v ensures LastSet(log + TimeEntries(times), u, v) == LastSet(TimeEntries(times), u, v) {
      LastSetAppend(log, TimeEntries(times), u, v);
    }
    var all := log + TimeEntries(times);
    forall i | 0 <= i < |log| ensures all[i].RouteAdded? {
      assert all[i] == log[i] && log[i] in log;
    }
  }

  /** No time other than 0 is in force between two stations that one of the
      first `n` routes of the line connects directly. */
  ghost predicate LineUntimed(log: Log, line: Line, serial: nat, n: nat)
    requires n <= |line.routes|
  {
    forall k, u, v :: 0 <= k < n && Connects(RouteObject(line, serial, k), u, v) ==> PairTime(log, u, v) == 0
  }

  /** Loading a line keeps the promise of one time for all routes exactly if
      the network's time is 0 wherever the line connects two stations. */
  lemma LineKeepsPromise(stations: Nodes, lines: Lines, log: Log, nextSerial: nat, line: Line, n: nat)
    requires Consistent(stations, lines, log, nextSerial) && n <= |line.routes|
    ensures SameTimes(log + LineEntries(line, nextSerial, n)) <==>
      SameTimes(log) && LineUntimed(log, line, nextSerial, n)
  {
    hide SameTimes, Untimed, Connects, PairTime;
    assert forall r :: Added(log, r) ==> r.serial < nextSerial;
    EntriesKeepPromise(log, line, nextSerial, n);
    if SameTimes(log) {
      forall k | 0 <= k < n
        ensures Untimed(log, RouteObject(line, nextSerial, k)) <==>
          forall u, v :: Connects(RouteObject(line, nextSerial, k), u, v) ==> PairTime(log, u, v) == 0
      {
        UntimedMeans(log, RouteObject(line, nextSerial, k));
      }
    }
  }

  lemma {:induction false} EntriesKeepPromise(log: Log, line: Line, serial: nat, n: nat)
    requires n <= |line.routes| && forall r :: Added(log, r) ==> r.serial < serial
    ensures SameTimes(log + LineEntries(line, serial, n)) <==>
      SameTimes(log) && forall k :: 0 <= k < n ==> Untimed(log, RouteObject(line, serial, k))
  {
    hide SameTimes, Connects, TimeOf;
    if n == 0 {
      assert log + LineEntries(line, serial, 0) == log;
    } else {
      var before, r := log + LineEntries(line, serial, n - 1), RouteObject(line, serial, n - 1);
      EntriesKeepPromise(log, line, serial, n - 1);
      LineEntriesOnlyRoutes(line, serial, n - 1);
      assert log + LineEntries(line, serial, n) == before + [RouteAdded(r)];
      forall s | Added(before, s) ensures s.serial < serial + n - 1 {
        if !Added(log, s) {
          assert Added(LineEntries(line, serial, n - 1), s);
        }
      }
      AddingKeepsPromise(before, r);
      forall s, u, v | Added(before, s)
        ensures TimeOf(before, s, u, v) == if Added(log, s) then TimeOf(log, s, u, v) else 0
      {
        TimeOfEarlier(log, line, serial, n - 1, s, u, v);
      }
      assert forall s :: Added(log, s) ==> Added(before, s);
    }
  }

  /** The routes of a line start from 0 and leave earlier ones as they were. */
  lemma {:induction false} TimeOfEarlier(log: Log, line: Line, serial: nat, n: nat, s: RouteInternal, u: Id, v: Id)
    requires n <= |line.routes| && forall r :: Added(log, r) ==> r.serial < serial
    requires Added(log + LineEntries(line, serial, n), s)
    ensures TimeOf(log + LineEntries(line, serial, n), s, u, v) == if Added(log, s) then TimeOf(log, s, u, v) else 0
  {
    var all := log + LineEntries(line, serial, n);
    if n == 0 {
      assert all == log;
    } else {
      var r := RouteObject(line, serial, n - 1);
      assert all[..|all| - 1] == log + LineEntries(line, serial, n - 1);
      assert all[|all| - 1] == RouteAdded(r);
      if s != r {
        TimeOfEarlier(log, line, serial, n - 1, s, u, v);
      }
    }
  }

  /** A line with one route, from one station to another. */
  function Shuttle(line: Id, a: Id, b: Id): Line {
    Line(line, line, [Route("r", "", line, a, b, [a, b])])
  }

  /** The promise fails for a line added after a time was set: the network then
      gives two times for the same two stations. */
  method TimesDisagree(a: Id, b: Id, l: Id, m: Id, travelTime: nat)
    returns (ofPair: nat, onFirst: nat, onSecond: nat)
    requires a != b && l != m
    ensures ofPair == onFirst == travelTime && onSecond == 0
  {
    hide Consistent, RouteAccepted, SameTimes, LineUntimed, LineEntries, RideIs, PairTime, TimeOf, RouteTime,
      Listed, WellFormedLine, SameButItsEdges, Adjacent, LoadOrder, Connects;
    var network := new TransportNetwork();
    var first, second := Shuttle(l, a, b), Shuttle(m, a, b);
    var done := network.AddStation(Station(a, a));
    done := network.AddStation(Station(b, b));
    ShuttleAccepted(l, a, b, network.stations.Keys, 0);
    ShuttleAccepted(m, a, b, network.stations.Keys, 1);
    ghost var n;
    done, n := network.AddLine(first);
    done := network.SetTravelTime(a, b, travelTime);
    ghost var lines := network.lines;
    done, n := network.AddLine(second);
    StaysListed(lines, network.lines, RouteObject(first, 0, 0), m);
    ghost var r, s := RouteObject(first, 0, 0), RouteObject(second, 1, 0);
    assert network.log == [RouteAdded(r), TimeSet(a, b, travelTime), RouteAdded(s)];
    FirstAndSecond(network.stations, network.lines, network.nextSerial, network.log, r, s, a, b, travelTime);
    ofPair := network.GetTravelTime(a, b);
    onFirst := network.GetTravelTimeOnRoute(l, "r", a, b);
    onSecond := network.GetTravelTimeOnRoute(m, "r", a, b);
  }

  lemma StaysListed(before: Lines, after: Lines, r: RouteInternal, l: Id)
    requires Listed(before, r) && l != r.lineId && l in after && after == before[l := after[l]]
    ensures Listed(after, r)
  {
  }

  lemma ShuttleAccepted(line: Id, a: Id, b: Id, ids: set<Id>, serial: nat)
    requires a != b && a in ids && b in ids
    ensures WellFormedLine(Shuttle(line, a, b))
    ensures RouteAccepted(Shuttle(line, a, b).routes, 0, ids)
    ensures LineEntries(Shuttle(line, a, b), serial, 0) == []
    ensures LineEntries(Shuttle(line, a, b), serial, 1) == [RouteAdded(RouteObject(Shuttle(line, a, b), serial, 0))]
  {
  }

  lemma FirstAndSecond(stations: Nodes, lines: Lines, nextSerial: nat, log: Log, r: RouteInternal, s: RouteInternal,
                       a: Id, b: Id, t: nat)
    requires Consistent(stations, lines, log, nextSerial) && log == [RouteAdded(r), TimeSet(a, b, t), RouteAdded(s)]
    requires r != s && r.stops == s.stops == [a, b] && a != b
    requires Listed(lines, r) && Listed(lines, s)
    ensures KnowsRoute(lines, r.lineId, r.id) && lines[r.lineId].routes[r.id] == r
    ensures KnowsRoute(lines, s.lineId, s.id) && lines[s.lineId].routes[s.id] == s
    ensures PairTime(log, a, b) == t
    ensures forall time :: RideIs(log, r, a, b, time) ==> time == t
    ensures forall time :: RideIs(log, s, a, b, time) ==> time == 0
  {
    assert log[..2] == [RouteAdded(r), TimeSet(a, b, t)] && log[..2][..1] == [RouteAdded(r)];
    assert TimeOf(log, s, a, b) == 0 && TimeOf(log, r, a, b) == t;
    assert RouteTime(log, r, 0, 1) == RouteTime(log, r, 0, 0) + TimeOf(log, r, a, b);
    assert RouteTime(log, s, 0, 1) == RouteTime(log, s, 0, 0) + TimeOf(log, s, a, b);
    assert LegsFrom(r, a, 1) == [GraphEdge(r, 0, b, 0)] + LegsFrom(r, a, 0);
    assert EdgesOf(log[..2][..1], a) == EdgesOf([], a) + LegsFrom(r, a, 1);
    assert EdgesOf(log[..2], a) == [GraphEdge(r, 0, b, t)];
    assert EdgesOf(log, a)[0] == GraphEdge(r, 0, b, t);
  }

  /** What GetTravelTime promises, of a time found in the log. */
  lemma KnownPairTime(log: Log, ids: set<Id>, a: Id, b: Id)
    requires WellFormedLog(log) && StopsKnown(log, ids)
    ensures a !in ids || b !in ids ==> !Adjacent(log, a, b)
    ensures SameTimes(log) ==>
      forall r :: Added(log, r) && Connects(r, a, b) ==> PairTime(log, a, b) == TimeOf(log, r, a, b)
    ensures LoadOrder(log) ==> PairTime(log, a, b) == if Adjacent(log, a, b) then LastSet(log, a, b) else 0
    ensures !Adjacent(log, a, b) ==> forall r :: !(Added(log, r) && Connects(r, a, b))
  {
    hide Connects, EdgesOf, TimeOf, LastSet, PairTime;
    PairTimeMeans(log, a, b);
    if r :| Added(log, r) && Connects(r, a, b) {
      ConnectedAreKnown(log, ids, r, a, b);
    }
    if SameTimes(log) {
      forall r | Added(log, r) && Connects(r, a, b) ensures PairTime(log, a, b) == TimeOf(log, r, a, b) {
        PairTimeIsShared(log, r, a, b);
      }
    }
    if LoadOrder(log) {
      forall r ensures TimeOf(log, r, a, b) == LastSet(log, a, b) {
        TimeIsLastSet(log, r, a, b);
      }
    }
  }

  lemma ConnectedAreKnown(log: Log, ids: set<Id>, r: RouteInternal, a: Id, b: Id)
    requires StopsKnown(log, ids) && Added(log, r) && Connects(r, a, b)
    ensures a in ids && b in ids
  {
    assert StopsIn(r, ids);
  }

  ghost predicate KnowsRoute(lines: Lines, line: Id, route: Id) {
    line in lines && route in lines[line].routes
  }

  /** `time` is the ride from A to B along the route, or 0 if A does not come
      before B on it. */
  ghost predicate RideIs(log: Log, r: RouteInternal, a: Id, b: Id, time: nat) {
    && (forall i, j :: 0 <= i <= j < |r.stops| && r.stops[i] == a && r.stops[j] == b ==>
          time == RouteTime(log, r, i, j))
    && ((forall i, j :: 0 <= i <= j < |r.stops| ==> r.stops[i] != a || r.stops[j] != b) ==> time == 0)
  }

  /** The ride from stop `from`, which is A, has come to stop `n`. */
  ghost predicate OnTheWay(log: Log, r: RouteInternal, a: Id, from: nat, n: nat, time: nat) {
    from <= n < |r.stops| && r.stops[from] == a && time == RouteTime(log, r, from, n)
  }

  /** A route of a listed line, and the edges at its stops. */
  lemma ListedRoute(stations: Nodes, lines: Lines, log: Log, nextSerial: nat, line: Id, route: Id)
    requires Consistent(stations, lines, log, nextSerial) && KnowsRoute(lines, line, route)
    ensures var r := lines[line].routes[route];
            && WellFormedLog(log) && Added(log, r) && WellFormedRoute(r)
            && forall k :: 0 <= k < |r.stops| ==>
                 r.stops[k] in stations && stations[r.stops[k]].edges == EdgesOf(log, r.stops[k])
  {
    hide EdgesOf;
    var r := lines[line].routes[route];
    assert LineOk(log, line, lines[line]);
    AddedWellFormed(log, r);
    assert StopsIn(r, stations.Keys);
    forall k | 0 <= k < |r.stops| ensures stations[r.stops[k]].edges == EdgesOf(log, r.stops[k]) {
      assert NodeOk(log, r.stops[k], stations[r.stops[k]]);
    }
  }

  lemma RideStarts(log: Log, r: RouteInternal, n: nat)
    requires n < |r.stops|
    ensures RouteTime(log, r, n, n) == 0
  {
  }

  lemma RideGoesOn(log: Log, r: RouteInternal, from: nat, n: nat)
    requires from <= n && n + 1 < |r.stops|
    ensures RouteTime(log, r, from, n + 1) == RouteTime(log, r, from, n) + TimeOf(log, r, r.stops[n], r.stops[n + 1])
  {
  }

  /** The first stop that is B, after or before A. */
  lemma RideEnds(log: Log, r: RouteInternal, a: Id, b: Id, foundA: bool, from: nat, n: nat, time: nat)
    requires WellFormedRoute(r) && n < |r.stops| && r.stops[n] == b
    requires if foundA then OnTheWay(log, r, a, from, n, time) else time == 0 && a !in r.stops[..n + 1]
    ensures RideIs(log, r, a, b, time)
  {
    hide RouteTime;
    if !foundA {
      assert forall i :: 0 <= i <= n ==> r.stops[i] == r.stops[..n + 1][i];
    }
  }

  /** B is not on the route at all, or it is over before B is reached. */
  lemma NoRide(log: Log, r: RouteInternal, a: Id, b: Id)
    requires b !in r.stops
    ensures RideIs(log, r, a, b, 0)
  {
  }

  lemma RouteEdgeAt(log: Log, r: RouteInternal, n: nat, edge: Option<GraphEdge>)
    requires WellFormedLog(log) && Added(log, r) && WellFormedRoute(r) && n < |r.stops|
    requires edge.Some? ==> edge.value in EdgesOf(log, r.stops[n]) && edge.value.route == r
    requires edge.None? ==> forall e :: e in EdgesOf(log, r.stops[n]) ==> e.route != r
    ensures edge.Some? <==> n + 1 < |r.stops|
    ensures edge.Some? ==> edge.value.travelTime == TimeOf(log, r, r.stops[n], r.stops[n + 1])
  {
    if n + 1 < |r.stops| {
      EdgesMean(log, r.stops[n], LegEdge(log, r, n));
    }
    if edge.Some? {
      EdgesMean(log, r.stops[n], edge.value);
    }
  }

  ghost function RetimedTo(es: seq<GraphEdge>, to: Id, t: nat): seq<GraphEdge> {
    seq(|es|, i requires 0 <= i < |es| => if es[i].nextStop == to then es[i].(travelTime := t) else es[i])
  }

  lemma KnownEdges(stations: Nodes, lines: Lines, log: Log, nextSerial: nat, a: Id, b: Id)
    requires Consistent(stations, lines, log, nextSerial)
    ensures WellFormedLog(log) && StopsKnown(log, stations.Keys)
    ensures forall u :: u in stations ==> NodeOk(log, u, stations[u])
    ensures a in stations ==> stations[a].edges == EdgesOf(log, a)
    ensures b in stations ==> stations[b].edges == EdgesOf(log, b)
  {
    hide EdgesOf, LineOk;
    assert forall u :: u in {a, b} && u in stations ==> NodeOk(log, u, stations[u]);
  }

  lemma FoundMeans(log: Log, fromA: seq<GraphEdge>, fromB: seq<GraphEdge>, a: Id, b: Id, found: bool)
    requires fromA == EdgesOf(log, a) && fromB == EdgesOf(log, b)
    requires found <==> (exists e :: e in fromA && e.nextStop == b) || exists e :: e in fromB && e.nextStop == a
    ensures found <==> Adjacent(log, a, b)
  {
    hide EdgesOf;
  }

  /** The two passes over the edges, A to B and B to A, are one retiming of
      every station. */
  lemma RetimedBothWays(before: Nodes, mid: Nodes, after: Nodes, a: Id, b: Id, t: nat)
    requires a in before && b in before
    requires mid == before[a := before[a].(edges := RetimedTo(before[a].edges, b, t))]
    requires after == mid[b := mid[b].(edges := RetimedTo(mid[b].edges, a, t))]
    ensures SameButEdges(before, after)
    ensures forall u :: u in before ==> after[u].edges == Retimed(before[u].edges, u, a, b, t)
    ensures forall e :: (e in mid[b].edges && e.nextStop == a) ==>
      exists f :: f in before[b].edges && f.nextStop == a
    ensures forall f :: (f in before[b].edges && f.nextStop == a) ==>
      exists e :: e in mid[b].edges && e.nextStop == a
  {
    if a == b {
      var es := before[a].edges;
      forall e | e in mid[b].edges && e.nextStop == a ensures exists f :: f in es && f.nextStop == a {
        var i :| 0 <= i < |es| && mid[b].edges[i] == e;
        assert es[i] in es;
      }
      forall f | f in es && f.nextStop == a ensures exists e :: e in mid[b].edges && e.nextStop == a {
        var i :| 0 <= i < |es| && es[i] == f;
        assert mid[b].edges[i] in mid[b].edges;
      }
    }
  }

  /** Setting a time for a station that is not in the network changes nothing. */
  lemma UnknownUntouched(stations: Nodes, log: Log, a: Id, b: Id, t: nat)
    requires WellFormedLog(log) && StopsKnown(log, stations.Keys)
    requires forall u :: u in stations ==> NodeOk(log, u, stations[u])
    requires a !in stations || b !in stations
    ensures forall u :: u in stations ==> Retimed(stations[u].edges, u, a, b, t) == stations[u].edges
  {
    forall u, e | u in stations && e in stations[u].edges ensures Retime(e, u, a, b, t) == e {
      assert NodeOk(log, u, stations[u]);
      EdgesMean(log, u, e);
      assert StopsIn(e.route, stations.Keys);
    }
  }

  /** A line being loaded holds the objects of its first `k` routes. */
  ghost predicate Loading(line: Line, serial: nat, k: nat, li: LineInternal, ids: set<Id>)
    requires k <= |line.routes|
  {
    && li.routes.Keys == EarlierIds(line.routes, k)
    && forall j {:trigger RouteObject(line, serial, j)} :: 0 <= j < k ==>
         && RouteAccepted(line.routes, j, ids)
         && line.routes[j].id in li.routes
         && li.routes[line.routes[j].id] == RouteObject(line, serial, j)
  }

  /** What the first `k` routes of a line have changed. */
  ghost predicate Progress(line: Line, k: nat, li: LineInternal, stations0: Nodes, log0: Log, serial0: nat,
                           stations: Nodes, log: Log, serial: nat)
    requires k <= |line.routes|
  {
    && SameButEdges(stations0, stations)
    && log == log0 + LineEntries(line, serial0, k) && serial == serial0 + k
    && LineOk(log, line.id, li) && Loading(line, serial0, k, li, stations0.Keys)
  }

  lemma NoProgress(line: Line, stations: Nodes, log: Log, serial: nat)
    ensures Progress(line, 0, LineInternal(line.id, line.name, map[]), stations, log, serial, stations, log, serial)
  {
  }

  lemma ProgressMeans(line: Line, k: nat, li: LineInternal, stations0: Nodes, log0: Log, serial0: nat,
                      stations: Nodes, log: Log, serial: nat)
    requires k <= |line.routes| && Progress(line, k, li, stations0, log0, serial0, stations, log, serial)
    ensures LineOk(log, line.id, li) && li.routes.Keys == EarlierIds(line.routes, k)
    ensures stations.Keys == stations0.Keys
  {
  }

  lemma ProgressStep(line: Line, k: nat, li: LineInternal, stations0: Nodes, log0: Log, serial0: nat,
                     stations: Nodes, log: Log, serial: nat, after: Nodes)
    requires k < |line.routes|
    requires Progress(line, k, li, stations0, log0, serial0, stations, log, serial)
    requires SameButEdges(stations, after) && RouteAccepted(line.routes, k, stations0.Keys)
    ensures var r := RouteObject(line, serial0, k);
            Progress(line, k + 1, li.(routes := li.routes[r.id := r]), stations0, log0, serial0,
                     after, log + [RouteAdded(r)], serial + 1)
  {
    SameButEdgesTrans(stations0, stations, after);
    LineGrows(log, line, serial0, k, li, stations0.Keys);
  }

  lemma LineGrows(log: Log, line: Line, serial: nat, k: nat, before: LineInternal, ids: set<Id>)
    requires k < |line.routes| && LineOk(log, line.id, before)
    requires Loading(line, serial, k, before, ids) && RouteAccepted(line.routes, k, ids)
    ensures var r := RouteObject(line, serial, k);
            var after := before.(routes := before.routes[r.id := r]);
            LineOk(log + [RouteAdded(r)], line.id, after) && Loading(line, serial, k + 1, after, ids)
  {
    var r := RouteObject(line, serial, k);
    var after := before.(routes := before.routes[r.id := r]);
    forall j | 0 <= j < k + 1
      ensures RouteAccepted(line.routes, j, ids) && line.routes[j].id in after.routes
      ensures after.routes[line.routes[j].id] == RouteObject(line, serial, j)
    {
      if j < k {
        assert RouteObject(line, serial, j).id in EarlierIds(line.routes, k);
      }
    }
  }

  lemma LoadedRoutesAccepted(line: Line, serial: nat, n: nat, li: LineInternal, ids: set<Id>)
    requires n <= |line.routes| && Loading(line, serial, n, li, ids)
    ensures forall k :: 0 <= k < n ==> RouteAccepted(line.routes, k, ids)
  {
    forall k | 0 <= k < n ensures RouteAccepted(line.routes, k, ids) {
      assert RouteObject(line, serial, k).serial == serial + k;
    }
  }

  lemma ListLine(stations: Nodes, lines: Lines, log: Log, nextSerial: nat, line: LineInternal)
    requires Consistent(stations, lines, log, nextSerial) && LineOk(log, line.id, line)
    ensures Consistent(stations, lines[line.id := line], log, nextSerial)
  {
    forall l | l in lines ensures LineOk(log, l, lines[l]) {
    }
  }

  lemma ListedObjects(lines: Lines, line: Line, serial: nat, li: LineInternal, ids: set<Id>)
    requires line.id in lines && lines[line.id] == li
    requires Loading(line, serial, |line.routes|, li, ids)
    ensures forall k :: 0 <= k < |line.routes| ==>
      RouteAccepted(line.routes, k, ids) && Listed(lines, RouteObject(line, serial, k))
  {
  }

  lemma EdgesLeaveKnown(log: Log, ids: set<Id>, u: Id, e: GraphEdge)
    requires WellFormedLog(log) && StopsKnown(log, ids)
    ensures e in EdgesOf(log, u) ==> u in ids
  {
    EdgesMean(log, u, e);
    if e in EdgesOf(log, u) {
      assert StopsIn(e.route, ids);
    }
  }

  /** A station that is not in the network has no edges in the log. */
  lemma NoEdgesYet(log: Log, ids: set<Id>, u: Id)
    requires WellFormedLog(log) && StopsKnown(log, ids) && u !in ids
    ensures EdgesOf(log, u) == []
  {
    if EdgesOf(log, u) != [] {
      EdgesLeaveKnown(log, ids, u, EdgesOf(log, u)[0]);
    }
  }
}
