/** The travel plan handed to the user, and what it conserves of the path it
    was assembled from. */
module Itineraries {
  import opened Graphs
  import opened Enumeration
  import opened NetworkModel

  datatype Step = Step(startStationId: Id, endStationId: Id, lineId: Id, routeId: Id, travelTime: nat)

  datatype TravelRoute = TravelRoute(startStationId: Id, endStationId: Id, totalTravelTime: nat, steps: seq<Step>)

  /** Every stop after the first was reached by an edge. */
  ghost predicate Boarded(path: Path) {
    forall i :: 0 < i < |path| ==> path[i].stop.edge.Some?
  }

  function StepOf(prev: PathStop, curr: PathStop): Step
    requires curr.edge.Some?
  {
    var e := curr.edge.value;
    Step(prev.node, curr.node, e.route.lineId, e.route.id, e.travelTime)
  }

  ghost function Steps(path: Path): seq<Step>
    requires Boarded(path)
    decreases |path|
  {
    if |path| <= 1 then [] else Steps(Init(path)) + [StepOf(Last(Init(path)).stop, Last(path).stop)]
  }

  ghost function Itinerary(a: Id, b: Id, path: Path): TravelRoute
    requires path != [] && Boarded(path)
  {
    TravelRoute(a, b, Last(path).dist, Steps(path))
  }

  lemma {:induction false} WalkBoarded(g: Graph, w: Path)
    requires IsWalk(g, {}, w)
    ensures Boarded(w)
  {
    forall i | 0 < i < |w| ensures w[i].stop.edge.Some? {
      WalkHop(g, {}, w, i);
    }
  }

  /** The loop both queries end with. */
  method Assemble(a: Id, b: Id, path: Path) returns (route: TravelRoute)
    requires path != [] && Boarded(path)
    ensures route == Itinerary(a, b, path)
  {
    var steps := [];
    for idx := 1 to |path|
      invariant Boarded(path[..idx]) && steps == Steps(path[..idx])
    {
      assert Init(path[..idx + 1]) == path[..idx];
      steps := steps + [StepOf(path[idx - 1].stop, path[idx].stop)];
    }
    assert path[..|path|] == path;
    route := TravelRoute(a, b, path[|path| - 1].dist, steps);
  }

  /** The step is a leg of the route it names, and takes the time of that leg. */
  ghost predicate RidesItsRoute(log: Log, s: Step) {
    exists r, k :: NamedLeg(log, s, r, k)
  }

  ghost predicate NamedLeg(log: Log, s: Step, r: RouteInternal, k: nat) {
    && Added(log, r) && r.id == s.routeId && r.lineId == s.lineId
    && k + 1 < |r.stops| && r.stops[k] == s.startStationId && r.stops[k + 1] == s.endStationId
    && s.travelTime == TimeOf(log, r, s.startStationId, s.endStationId)
  }

  ghost function StepTime(steps: seq<Step>): nat {
    if steps == [] then 0 else StepTime(steps[..|steps| - 1]) + steps[|steps| - 1].travelTime
  }

  ghost predicate SameRoute(s: Step, t: Step) {
    s.lineId == t.lineId && s.routeId == t.routeId
  }

  ghost function StepChanges(steps: seq<Step>): nat {
    if |steps| <= 1 then 0
    else StepChanges(steps[..|steps| - 1]) + if SameRoute(steps[|steps| - 2], steps[|steps| - 1]) then 0 else 1
  }

  /** Line and route ids name one route object. */
  ghost predicate UniqueNames(log: Log) {
    forall r, s :: Added(log, r) && Added(log, s) && r.id == s.id && r.lineId == s.lineId ==> r == s
  }

  lemma {:induction false} StepAt(w: Path, i: nat)
    requires Boarded(w) && i + 1 < |w|
    ensures |Steps(w)| == |w| - 1 && Steps(w)[i] == StepOf(w[i].stop, w[i + 1].stop)
    decreases |w|
  {
    if i + 2 < |w| {
      StepAt(Init(w), i);
    } else if i > 0 {
      StepAt(Init(w), 0);
    }
  }

  lemma StepRides(log: Log, g: Graph, w: Path, i: nat)
    requires WellFormedLog(log) && GraphOf(log, g)
    requires IsWalk(g, {}, w) && Boarded(w) && i + 1 < |w|
    ensures RidesItsRoute(log, StepOf(w[i].stop, w[i + 1].stop))
  {
    WalkHop(g, {}, w, i + 1);
    var e := w[i + 1].stop.edge.value;
    EdgesMean(log, w[i].stop.node, e);
    assert NamedLeg(log, StepOf(w[i].stop, w[i + 1].stop), e.route, e.idx);
  }

  lemma {:induction false} StepsTime(g: Graph, w: Path)
    requires IsWalk(g, {}, w) && Boarded(w)
    ensures StepTime(Steps(w)) == RideTime(w)
    decreases |w|
  {
    if |w| > 1 {
      StepsTime(g, Init(w));
      assert Steps(w)[..|Steps(w)| - 1] == Steps(Init(w));
    }
  }

  /** Two edges out of the log have the same route exactly when their routes
      have the same names. */
  lemma NamesTellRoutes(log: Log, u: Id, e: GraphEdge, v: Id, f: GraphEdge)
    requires WellFormedLog(log) && UniqueNames(log)
    requires e in EdgesOf(log, u) && f in EdgesOf(log, v)
    ensures e.route == f.route <==> e.route.id == f.route.id && e.route.lineId == f.route.lineId
  {
    EdgesMean(log, u, e);
    EdgesMean(log, v, f);
  }

  lemma {:induction false} StepsChanges(log: Log, g: Graph, w: Path)
    requires WellFormedLog(log) && GraphOf(log, g) && UniqueNames(log)
    requires IsWalk(g, {}, w) && Boarded(w) && First(w).stop.edge.None?
    ensures StepChanges(Steps(w)) == Changes(w)
    decreases |w|
  {
    hide WellFormedLog, GraphOf, UniqueNames, SameRoute, StepOf;
    if |w| > 1 {
      StepsChanges(log, g, Init(w));
      StepAt(w, 0);
      assert Steps(w)[..|w| - 2] == Steps(Init(w));
      if |w| > 2 {
        LastChange(log, g, w);
      }
    }
  }

  /** The last two steps name one route exactly if their edges have one. */
  lemma LastChange(log: Log, g: Graph, w: Path)
    requires WellFormedLog(log) && GraphOf(log, g) && UniqueNames(log)
    requires IsWalk(g, {}, w) && Boarded(w) && |w| > 2
    ensures |Steps(w)| == |w| - 1
    ensures SameRoute(Steps(w)[|w| - 3], Steps(w)[|w| - 2]) <==>
      w[|w| - 2].stop.edge.value.route == w[|w| - 1].stop.edge.value.route
  {
    hide WellFormedLog, UniqueNames;
    var n := |w| - 1;
    StepAt(w, n - 1);
    StepAt(w, n - 2);
    WalkHop(g, {}, w, n);
    WalkHop(g, {}, w, n - 1);
    NamesTellRoutes(log, w[n - 1].stop.node, w[n].stop.edge.value, w[n - 2].stop.node, w[n - 1].stop.edge.value);
  }

  /** An itinerary leads from A to B without gaps, each step rides a leg of the
      route it names, and the total is the ride times plus 5 per change. */
  ghost predicate Conserved(log: Log, a: Id, b: Id, t: TravelRoute) {
    && t.steps != []
    && t.startStationId == a == t.steps[0].startStationId
    && t.endStationId == b == t.steps[|t.steps| - 1].endStationId
    && (forall i :: 0 < i < |t.steps| ==> t.steps[i - 1].endStationId == t.steps[i].startStationId)
    && (forall i :: 0 <= i < |t.steps| ==> RidesItsRoute(log, t.steps[i]))
    && t.totalTravelTime == StepTime(t.steps) + 5 * StepChanges(t.steps)
  }

  lemma ItineraryConserved(log: Log, g: Graph, a: Id, b: Id, path: Path)
    requires WellFormedLog(log) && GraphOf(log, g) && UniqueNames(log)
    requires Journey(g, a, b, path) && a != b && Boarded(path)
    ensures Conserved(log, a, b, Itinerary(a, b, path))
  {
    var steps := Steps(path);
    assert |path| > 1;
    StepAt(path, 0);
    StepAt(path, |path| - 2);
    forall i | 0 <= i < |steps| ensures RidesItsRoute(log, steps[i]) {
      StepAt(path, i);
      StepRides(log, g, path, i);
    }
    forall i | 0 < i < |steps| ensures steps[i - 1].endStationId == steps[i].startStationId {
      StepAt(path, i);
      StepAt(path, i - 1);
    }
    StepsTime(g, path);
    StepsChanges(log, g, path);
    WalkCost(g, {}, path);
  }
}
