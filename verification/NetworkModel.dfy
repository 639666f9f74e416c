/** The simple model of a loaded network: a log of the routes added and the
    travel times set, and what every index of the network must then hold. */
module NetworkModel {
  import opened Wrappers
  import opened Graphs
  import opened Search
  import opened Enumeration

  datatype LogEntry = RouteAdded(route: RouteInternal) | TimeSet(a: Id, b: Id, time: nat)

  type Log = seq<LogEntry>

  // ----- Edges -----

  /** The edges that the first `n` legs of a route add to the station `u`. */
  ghost function LegsFrom(r: RouteInternal, u: Id, n: nat): seq<GraphEdge>
    requires n < |r.stops|
  {
    if n == 0 then []
    else LegsFrom(r, u, n - 1) + if r.stops[n - 1] == u then [GraphEdge(r, n - 1, r.stops[n], 0)] else []
  }

  ghost predicate Links(a: Id, b: Id, u: Id, v: Id) {
    (a == u && b == v) || (a == v && b == u)
  }

  function Retime(e: GraphEdge, u: Id, a: Id, b: Id, t: nat): GraphEdge {
    if (u == a && e.nextStop == b) || (u == b && e.nextStop == a) then e.(travelTime := t) else e
  }

  ghost function Retimed(es: seq<GraphEdge>, u: Id, a: Id, b: Id, t: nat): seq<GraphEdge> {
    seq(|es|, i requires 0 <= i < |es| => Retime(es[i], u, a, b, t))
  }

  /** The edges leaving `u`, by replaying the log. */
  ghost function EdgesOf(log: Log, u: Id): seq<GraphEdge> {
    if log == [] then []
    else
      var before := EdgesOf(log[..|log| - 1], u);
      match log[|log| - 1]
      case RouteAdded(r) => if |r.stops| == 0 then before else before + LegsFrom(r, u, |r.stops| - 1)
      case TimeSet(a, b, t) => Retimed(before, u, a, b, t)
  }

  ghost predicate Added(log: Log, r: RouteInternal) {
    RouteAdded(r) in log
  }

  ghost predicate WellFormedRoute(r: RouteInternal) {
    |r.stops| >= 2 && DistinctStops(r.stops)
  }

  /** Every route object in the log is well formed, and added once. */
  ghost predicate WellFormedLog(log: Log)
  {
    log != [] ==>
      && WellFormedLog(log[..|log| - 1])
      && (log[|log| - 1].RouteAdded? ==>
            WellFormedRoute(log[|log| - 1].route) && !Added(log[..|log| - 1], log[|log| - 1].route))
  }

  /** The travel time of a leg u-v of the route `r`: the time last set for the
      two stations since the route was added, or 0. */
  ghost function TimeOf(log: Log, r: RouteInternal, u: Id, v: Id): nat {
    if log == [] then 0
    else
      match log[|log| - 1]
      case RouteAdded(s) => if s == r then 0 else TimeOf(log[..|log| - 1], r, u, v)
      case TimeSet(a, b, t) => if Links(a, b, u, v) then t else TimeOf(log[..|log| - 1], r, u, v)
  }

  ghost predicate Leg(r: RouteInternal, k: int, u: Id) {
    0 <= k && k + 1 < |r.stops| && r.stops[k] == u
  }

  /** The edge of leg `k`, with the time the log gives it. */
  ghost function LegEdge(log: Log, r: RouteInternal, k: nat): GraphEdge
    requires k + 1 < |r.stops|
  {
    GraphEdge(r, k, r.stops[k + 1], TimeOf(log, r, r.stops[k], r.stops[k + 1]))
  }

  lemma {:induction false} LegsFromMeans(r: RouteInternal, u: Id, n: nat, e: GraphEdge)
    requires n < |r.stops|
    ensures e in LegsFrom(r, u, n) <==>
      e.route == r && e.idx < n && Leg(r, e.idx, u) && e == GraphEdge(r, e.idx, r.stops[e.idx + 1], 0)
  {
    if n > 0 {
      LegsFromMeans(r, u, n - 1, e);
    }
  }

  /** `e` is a leg of an added route that leaves `u`, with the right time. */
  ghost predicate IsLegOf(log: Log, u: Id, e: GraphEdge) {
    Added(log, e.route) && Leg(e.route, e.idx, u) && e == LegEdge(log, e.route, e.idx)
  }

  /** What the replayed edge lists contain, and with which times: exactly the
      legs of the added routes. */
  lemma {:induction false} EdgesMean(log: Log, u: Id, e: GraphEdge)
    requires WellFormedLog(log)
    ensures e in EdgesOf(log, u) <==> IsLegOf(log, u, e)
    decreases |log|, 1
  {
    if log != [] {
      assert log == log[..|log| - 1] + [log[|log| - 1]];
      if log[|log| - 1].RouteAdded? {
        EdgesMeanAdded(log, u, e);
      } else {
        EdgesMeanSet(log, u, e);
      }
    }
  }

  lemma {:induction false} EdgesMeanAdded(log: Log, u: Id, e: GraphEdge)
    requires WellFormedLog(log) && log != [] && log[|log| - 1].RouteAdded?
    ensures e in EdgesOf(log, u) <==> IsLegOf(log, u, e)
    decreases |log|, 0
  {
    var before, r := log[..|log| - 1], log[|log| - 1].route;
    assert log == before + [RouteAdded(r)];
    assert Added(log, e.route) <==> Added(before, e.route) || e.route == r;
    EdgesMean(before, u, e);
    LegsFromMeans(r, u, |r.stops| - 1, e);
  }

  lemma {:induction false} EdgesMeanSet(log: Log, u: Id, e: GraphEdge)
    requires WellFormedLog(log) && log != [] && log[|log| - 1].TimeSet?
    ensures e in EdgesOf(log, u) <==> IsLegOf(log, u, e)
    decreases |log|, 0
  {
    var before, x := log[..|log| - 1], log[|log| - 1];
    var es := EdgesOf(before, u);
    assert log == before + [x];
    assert Added(log, e.route) <==> Added(before, e.route);
    if e in EdgesOf(log, u) {
      var i :| 0 <= i < |es| && e == Retime(es[i], u, x.a, x.b, x.time);
      EdgesMean(before, u, es[i]);
    }
    if IsLegOf(log, u, e) {
      var f := LegEdge(before, e.route, e.idx);
      EdgesMean(before, u, f);
      var i :| 0 <= i < |es| && es[i] == f;
      assert EdgesOf(log, u)[i] == e;
    }
  }

  lemma StopsStayKnown(log: Log, ids: set<Id>, more: set<Id>)
    requires StopsKnown(log, ids) && ids <= more
    ensures StopsKnown(log, more)
  {
    forall r | Added(log, r) ensures StopsIn(r, more) {
      assert StopsIn(r, ids);
    }
  }

  /** At most one edge of each route leaves a station. */
  ghost predicate OnePerRoute(es: seq<GraphEdge>) {
    forall i, j :: 0 <= i < j < |es| ==> es[i].route != es[j].route
  }

  lemma {:induction false} LegsOnePerRoute(r: RouteInternal, u: Id, n: nat)
    requires n < |r.stops| && DistinctStops(r.stops)
    ensures |LegsFrom(r, u, n)| <= 1
    ensures LegsFrom(r, u, n) != [] ==> u in r.stops[..n]
  {
    if n > 0 {
      LegsOnePerRoute(r, u, n - 1);
      assert r.stops[..n] == r.stops[..n - 1] + [r.stops[n - 1]];
    }
  }

  lemma OnePerRouteAppend(es: seq<GraphEdge>, fs: seq<GraphEdge>, r: RouteInternal)
    requires OnePerRoute(es) && forall e :: e in es ==> e.route != r
    requires |fs| <= 1 && forall f :: f in fs ==> f.route == r
    ensures OnePerRoute(es + fs)
  {
  }

  lemma RetimedOnePerRoute(es: seq<GraphEdge>, u: Id, a: Id, b: Id, t: nat)
    requires OnePerRoute(es)
    ensures OnePerRoute(Retimed(es, u, a, b, t))
  {
  }

  lemma AddedOnePerRoute(log: Log, u: Id, r: RouteInternal)
    requires WellFormedLog(log) && !Added(log, r) && WellFormedRoute(r) && OnePerRoute(EdgesOf(log, u))
    ensures OnePerRoute(EdgesOf(log, u) + LegsFrom(r, u, |r.stops| - 1))
  {
    var n := |r.stops| - 1;
    LegsOnePerRoute(r, u, n);
    forall e | e in EdgesOf(log, u) ensures e.route != r {
      EdgesMean(log, u, e);
    }
    forall e | e in LegsFrom(r, u, n) ensures e.route == r {
      LegsFromMeans(r, u, n, e);
    }
    OnePerRouteAppend(EdgesOf(log, u), LegsFrom(r, u, n), r);
  }

  lemma {:induction false} EdgesOnePerRoute(log: Log, u: Id)
    requires WellFormedLog(log)
    ensures OnePerRoute(EdgesOf(log, u))
    decreases |log|
  {
    hide LegsFrom;
    if log != [] {
      var before := log[..|log| - 1];
      EdgesOnePerRoute(before, u);
      match log[|log| - 1]
      case RouteAdded(r) =>
        AddedOnePerRoute(before, u, r);
      case TimeSet(a, b, t) =>
        RetimedOnePerRoute(EdgesOf(before, u), u, a, b, t);
    }
  }

  // ----- Times are those last set, when lines come before times -----

  /** Lines are loaded before times, as the layout loader does. */
  ghost predicate LoadOrder(log: Log) {
    forall i, j :: 0 <= i < j < |log| && log[i].TimeSet? ==> !log[j].RouteAdded?
  }

  ghost predicate NoTimes(log: Log) {
    forall x :: x in log ==> x.RouteAdded?
  }

  /** The time last set for the unordered pair, or 0. */
  ghost function LastSet(log: Log, u: Id, v: Id): nat {
    if log == [] then 0
    else if log[|log| - 1].TimeSet? && Links(log[|log| - 1].a, log[|log| - 1].b, u, v) then log[|log| - 1].time
    else LastSet(log[..|log| - 1], u, v)
  }

  lemma {:induction false} NoTimesZero(log: Log, u: Id, v: Id)
    requires NoTimes(log)
    ensures LastSet(log, u, v) == 0
  {
    if log != [] {
      assert log[|log| - 1] in log;
      NoTimesZero(log[..|log| - 1], u, v);
    }
  }

  lemma {:induction false} TimeIsLastSet(log: Log, r: RouteInternal, u: Id, v: Id)
    requires LoadOrder(log)
    ensures TimeOf(log, r, u, v) == LastSet(log, u, v)
    decreases |log|
  {
    if log != [] {
      var before := log[..|log| - 1];
      TimeIsLastSet(before, r, u, v);
      if log[|log| - 1].RouteAdded? {
        forall x | x in before ensures x.RouteAdded? {
          var i :| 0 <= i < |before| && before[i] == x;
          assert log[i] == x && !log[i].TimeSet?;
        }
        NoTimesZero(before, u, v);
      }
    }
  }

  lemma {:induction false} LastSetSymmetric(log: Log, u: Id, v: Id)
    ensures LastSet(log, u, v) == LastSet(log, v, u)
  {
    if log != [] {
      LastSetSymmetric(log[..|log| - 1], u, v);
    }
  }

  /** Outside that order the promise that all routes between two stations take
      the same time fails: a line added later starts again from 0. */
  lemma TimesDifferOutOfOrder()
    ensures var r := RouteInternal(0, "r", "l", ["a", "b"]);
            var s := RouteInternal(1, "s", "m", ["a", "b"]);
            var log := [RouteAdded(r), TimeSet("a", "b", 7), RouteAdded(s)];
            WellFormedLog(log) && TimeOf(log, r, "a", "b") == 7 && TimeOf(log, s, "a", "b") == 0
  {
    var r := RouteInternal(0, "r", "l", ["a", "b"]);
    var s := RouteInternal(1, "s", "m", ["a", "b"]);
    var log := [RouteAdded(r), TimeSet("a", "b", 7), RouteAdded(s)];
    var one, two := [RouteAdded(r)], [RouteAdded(r), TimeSet("a", "b", 7)];
    assert log[..|log| - 1] == two && two[..|two| - 1] == one && one[..|one| - 1] == [];
    assert "a"[0] != "b"[0];
    assert WellFormedRoute(r) && WellFormedRoute(s);
    assert !Added([], r) && !Added(two, s);
    assert WellFormedLog([]) && WellFormedLog(one) && WellFormedLog(two);
    assert TimeOf(one, s, "a", "b") == 0;
  }

  // ----- Exactly when all routes between two stations take the same time -----

  ghost predicate ConnectsAt(r: RouteInternal, k: int, u: Id, v: Id) {
    0 <= k && k + 1 < |r.stops| && Links(r.stops[k], r.stops[k + 1], u, v)
  }

  /** The route connects the two stations directly, in either direction. */
  ghost predicate Connects(r: RouteInternal, u: Id, v: Id) {
    exists k :: ConnectsAt(r, k, u, v)
  }

  /** The promise: the travel time is the same for all routes that connect two
      stations directly. */
  ghost predicate SameTimes(log: Log) {
    forall r, s, u, v :: Added(log, r) && Added(log, s) && Connects(r, u, v) && Connects(s, u, v) ==>
                           TimeOf(log, r, u, v) == TimeOf(log, s, u, v)
  }

  /** No time other than 0 is in force between two stations that the route
      connects directly. */
  ghost predicate Untimed(log: Log, r: RouteInternal) {
    forall s, u, v :: Added(log, s) && Connects(s, u, v) && Connects(r, u, v) ==> TimeOf(log, s, u, v) == 0
  }

  /** Adding a route keeps the promise exactly if no time is in force on it. */
  lemma AddingKeepsPromise(log: Log, r: RouteInternal)
    requires !Added(log, r)
    ensures SameTimes(log + [RouteAdded(r)]) <==> SameTimes(log) && Untimed(log, r)
  {
    hide Connects;
    var after := log + [RouteAdded(r)];
    assert after[..|after| - 1] == log;
    assert forall s :: Added(after, s) <==> Added(log, s) || s == r;
    assert forall s, u, v :: TimeOf(after, s, u, v) == if s == r then 0 else TimeOf(log, s, u, v);
    if SameTimes(after) {
      forall s, u, v | Added(log, s) && Connects(s, u, v) && Connects(r, u, v) ensures TimeOf(log, s, u, v) == 0 {
        assert TimeOf(after, s, u, v) == TimeOf(after, r, u, v);
      }
      forall s, t, u, v | Added(log, s) && Added(log, t) && Connects(s, u, v) && Connects(t, u, v)
        ensures TimeOf(log, s, u, v) == TimeOf(log, t, u, v)
      {
        assert TimeOf(after, s, u, v) == TimeOf(after, t, u, v);
      }
    }
  }

  /** Setting a time never breaks the promise. */
  lemma SettingKeepsPromise(log: Log, a: Id, b: Id, t: nat)
    requires SameTimes(log)
    ensures SameTimes(log + [TimeSet(a, b, t)])
  {
    hide Connects;
    var after := log + [TimeSet(a, b, t)];
    assert after[..|after| - 1] == log;
    assert forall s :: Added(after, s) <==> Added(log, s);
    assert forall s, u, v :: TimeOf(after, s, u, v) == if Links(a, b, u, v) then t else TimeOf(log, s, u, v);
  }

  /** No time was set for the two stations since the route was added. */
  ghost predicate Missed(log: Log, r: RouteInternal, u: Id, v: Id) {
    log == [] ||
    match log[|log| - 1]
    case RouteAdded(s) => s == r || Missed(log[..|log| - 1], r, u, v)
    case TimeSet(a, b, _) => !Links(a, b, u, v) && Missed(log[..|log| - 1], r, u, v)
  }

  lemma {:induction false} TimeOfMeans(log: Log, r: RouteInternal, u: Id, v: Id)
    ensures TimeOf(log, r, u, v) == if Missed(log, r, u, v) then 0 else LastSet(log, u, v)
    decreases |log|
  {
    if log != [] {
      TimeOfMeans(log[..|log| - 1], r, u, v);
    }
  }

  /** The promise holds exactly if the time last set for two stations reached
      all routes that connect them, or none, or was 0. */
  lemma PromiseExactly(log: Log)
    ensures SameTimes(log) <==>
      forall r, s, u, v | Added(log, r) && Added(log, s) && Connects(r, u, v) && Connects(s, u, v) ::
        Missed(log, r, u, v) && !Missed(log, s, u, v) ==> LastSet(log, u, v) == 0
  {
    hide Connects, Added, Missed, LastSet, TimeOf;
    forall r, u, v
      ensures TimeOf(log, r, u, v) == if Missed(log, r, u, v) then 0 else LastSet(log, u, v)
    {
      TimeOfMeans(log, r, u, v);
    }
  }

  lemma LoadOrderKeepsPromise(log: Log)
    requires LoadOrder(log)
    ensures SameTimes(log)
  {
    hide Connects, Added;
    forall r, u, v ensures TimeOf(log, r, u, v) == LastSet(log, u, v) {
      TimeIsLastSet(log, r, u, v);
    }
  }

  // ----- The graph of a log -----

  ghost predicate StopsIn(r: RouteInternal, ids: set<Id>) {
    forall k :: 0 <= k < |r.stops| ==> r.stops[k] in ids
  }

  ghost predicate StopsKnown(log: Log, ids: set<Id>) {
    forall r {:trigger StopsIn(r, ids)} :: Added(log, r) ==> StopsIn(r, ids)
  }

  ghost predicate GraphOf(log: Log, g: Graph) {
    forall u :: u in g ==> g[u] == EdgesOf(log, u)
  }

  lemma {:induction false} AddedWellFormed(log: Log, r: RouteInternal)
    requires WellFormedLog(log) && Added(log, r)
    ensures WellFormedRoute(r)
    decreases |log|
  {
    if log[|log| - 1] != RouteAdded(r) {
      assert log == log[..|log| - 1] + [log[|log| - 1]];
      AddedWellFormed(log[..|log| - 1], r);
    }
  }

  lemma GraphIsWellFormed(log: Log, g: Graph)
    requires WellFormedLog(log) && StopsKnown(log, g.Keys) && GraphOf(log, g)
    ensures WellFormedGraph(g)
  {
    forall u, e | u in g && e in g[u] ensures EdgeOk(g, u, e) && DistinctStops(e.route.stops) {
      EdgesMean(log, u, e);
      AddedWellFormed(log, e.route);
      assert StopsIn(e.route, g.Keys);
    }
  }

  // ----- Riding along one route -----

  /** The ride along a route from its stop `i` to its stop `j`. */
  ghost function RouteTime(log: Log, r: RouteInternal, i: nat, j: nat): nat
    requires i <= j < |r.stops|
  {
    if i == j then 0
    else RouteTime(log, r, i, j - 1) + TimeOf(log, r, r.stops[j - 1], r.stops[j])
  }

  lemma LegInGraph(log: Log, g: Graph, r: RouteInternal, k: nat)
    requires WellFormedLog(log) && StopsKnown(log, g.Keys) && GraphOf(log, g)
    requires Added(log, r) && k + 1 < |r.stops|
    ensures r.stops[k] in g && LegEdge(log, r, k) in g[r.stops[k]]
  {
    assert StopsIn(r, g.Keys);
    EdgesMean(log, r.stops[k], LegEdge(log, r, k));
  }

  lemma {:induction false} RouteWalk(log: Log, g: Graph, r: RouteInternal, i: nat, j: nat) returns (w: Path)
    requires WellFormedLog(log) && StopsKnown(log, g.Keys) && GraphOf(log, g)
    requires Added(log, r) && i <= j < |r.stops|
    ensures IsWalkTo(g, {}, Cold(r.stops[i]), r.stops[j], w)
    ensures Last(w).dist == RouteTime(log, r, i, j)
    ensures |w| > 1 ==> Last(w).stop.edge.Some? && Last(w).stop.edge.value.route == r
    ensures |w| == 1 ==> Last(w).stop.edge.None?
    decreases j
  {
    hide TimeOf, WellFormedLog, StopsKnown, GraphOf, Added;
    if i == j {
      w := [Cold(r.stops[i])];
    } else {
      var v := RouteWalk(log, g, r, i, j - 1);
      LegInGraph(log, g, r, j - 1);
      w := v + [Arrive(Last(v), LegEdge(log, r, j - 1))];
      assert Init(w) == v;
    }
  }

  /** A walk started cold, taken up instead by someone who is already
      travelling: at most one more change. */
  lemma {:induction false} TakeUp(g: Graph, w: Path, p: PathStopDist) returns (v: Path)
    requires IsWalk(g, {}, w) && First(w) == Cold(p.stop.node)
    ensures IsWalk(g, {}, v) && First(v) == p && |v| == |w|
    ensures Last(v).stop.node == Last(w).stop.node
    ensures |w| > 1 ==> Last(v).stop == Last(w).stop
    ensures Last(v).dist <= p.dist + Last(w).dist + CHANGE_PENALTY
    decreases |w|
  {
    if |w| == 1 {
      v := [p];
    } else {
      var u := TakeUp(g, Init(w), p);
      v := u + [Arrive(Last(u), Last(w).stop.edge.value)];
      assert Init(v) == u;
      if |w| == 2 {
        assert Last(u) == p;
      }
    }
  }

  /** A way from A to B and one from B to C make one from A to C, at most one
      change slower than both together. */
  lemma ThroughB(g: Graph, a: Id, b: Id, c: Id, ab: Path, bc: Path) returns (ac: Path)
    requires Answers(Direct(g, a, b), ab) && Answers(Direct(g, b, c), bc)
    ensures Answers(Direct(g, a, c), ac)
    ensures Last(ac).dist <= Last(ab).dist + Last(bc).dist + 5
  {
    var v := TakeUp(g, bc, Last(ab));
    WalkJoin(g, {}, ab, v);
    ac := Init(ab) + v;
  }

  // ----- Adjacent stations -----

  ghost predicate Departs(log: Log, u: Id, v: Id) {
    exists e :: e in EdgesOf(log, u) && e.nextStop == v
  }

  ghost predicate Adjacent(log: Log, u: Id, v: Id) {
    Departs(log, u, v) || Departs(log, v, u)
  }

  // ----- The time of a pair of stations, in whatever order it was loaded -----

  /** The first of some edges that leads to a station. */
  ghost function FirstTo(es: seq<GraphEdge>, to: Id): (edge: Option<GraphEdge>)
    ensures edge.Some? ==> edge.value in es && edge.value.nextStop == to
    ensures edge.None? ==> forall e :: e in es ==> e.nextStop != to
  {
    if es == [] then None else if es[0].nextStop == to then Some(es[0]) else FirstTo(es[1..], to)
  }

  /** Edge `i` leads there, and none before it does. */
  ghost predicate FirstAt(es: seq<GraphEdge>, to: Id, i: int) {
    0 <= i < |es| && es[i].nextStop == to && forall j :: 0 <= j < i ==> es[j].nextStop != to
  }

  lemma {:induction false} FirstIsFirst(es: seq<GraphEdge>, to: Id)
    ensures FirstTo(es, to).Some? ==> exists i :: FirstAt(es, to, i) && FirstTo(es, to).value == es[i]
  {
    if es != [] {
      if es[0].nextStop == to {
        assert FirstAt(es, to, 0);
      } else {
        FirstIsFirst(es[1..], to);
        if i :| FirstAt(es[1..], to, i) && FirstTo(es, to).value == es[1..][i] {
          assert FirstAt(es, to, i + 1);
        }
      }
    }
  }

  /** The time of the first edge from the one to the other, or else back. */
  ghost function PairTime(log: Log, u: Id, v: Id): nat {
    if Departs(log, u, v) then FirstTo(EdgesOf(log, u), v).value.travelTime
    else if Departs(log, v, u) then FirstTo(EdgesOf(log, v), u).value.travelTime
    else 0
  }

  lemma {:induction false} TimeOfSymmetric(log: Log, r: RouteInternal, u: Id, v: Id)
    ensures TimeOf(log, r, u, v) == TimeOf(log, r, v, u)
  {
    if log != [] {
      TimeOfSymmetric(log[..|log| - 1], r, u, v);
    }
  }

  lemma EdgeConnects(log: Log, u: Id, e: GraphEdge)
    requires WellFormedLog(log) && e in EdgesOf(log, u)
    ensures Added(log, e.route) && Connects(e.route, u, e.nextStop) && Connects(e.route, e.nextStop, u)
    ensures e.travelTime == TimeOf(log, e.route, u, e.nextStop) == TimeOf(log, e.route, e.nextStop, u)
  {
    EdgesMean(log, u, e);
    TimeOfSymmetric(log, e.route, u, e.nextStop);
    assert ConnectsAt(e.route, e.idx, u, e.nextStop) && ConnectsAt(e.route, e.idx, e.nextStop, u);
  }

  /** It is the time of one of the routes that connect the two directly, and 0
      where there is none. */
  lemma PairTimeMeans(log: Log, u: Id, v: Id)
    requires WellFormedLog(log)
    ensures Adjacent(log, u, v) <==> exists r :: Added(log, r) && Connects(r, u, v)
    ensures Adjacent(log, u, v) ==>
      exists r :: Added(log, r) && Connects(r, u, v) && PairTime(log, u, v) == TimeOf(log, r, u, v)
    ensures !Adjacent(log, u, v) ==> PairTime(log, u, v) == 0
    ensures Departs(log, u, v) ==>
      exists i :: FirstAt(EdgesOf(log, u), v, i) && PairTime(log, u, v) == EdgesOf(log, u)[i].travelTime
    ensures !Departs(log, u, v) && Departs(log, v, u) ==>
      exists i :: FirstAt(EdgesOf(log, v), u, i) && PairTime(log, u, v) == EdgesOf(log, v)[i].travelTime
  {
    hide Connects, EdgesOf, TimeOf, FirstAt, FirstTo;
    FirstIsFirst(EdgesOf(log, u), v);
    FirstIsFirst(EdgesOf(log, v), u);
    if Departs(log, u, v) {
      EdgeConnects(log, u, FirstTo(EdgesOf(log, u), v).value);
    } else if Departs(log, v, u) {
      EdgeConnects(log, v, FirstTo(EdgesOf(log, v), u).value);
    }
    if r :| Added(log, r) && Connects(r, u, v) {
      ConnectedIsAdjacent(log, r, u, v);
    }
  }

  lemma ConnectedIsAdjacent(log: Log, r: RouteInternal, u: Id, v: Id)
    requires WellFormedLog(log) && Added(log, r) && Connects(r, u, v)
    ensures Adjacent(log, u, v)
  {
    var k :| ConnectsAt(r, k, u, v);
    var e := LegEdge(log, r, k);
    EdgesMean(log, r.stops[k], e);
    assert e in EdgesOf(log, r.stops[k]) && e.nextStop == r.stops[k + 1];
  }

  /** The promise in terms of answers: asking for the time of two stations, in
      either order, and asking for it on any route that connects them directly
      gives the same time. */
  lemma AnswersAgree(log: Log)
    requires WellFormedLog(log)
    ensures SameTimes(log) <==>
      forall r, k :: Added(log, r) && 0 <= k && k + 1 < |r.stops| ==>
                       RouteTime(log, r, k, k + 1)
                       == PairTime(log, r.stops[k], r.stops[k + 1])
                       == PairTime(log, r.stops[k + 1], r.stops[k])
  {
    hide EdgesOf, TimeOf, WellFormedLog, Added, PairTime;
    if SameTimes(log) {
      forall r, k | Added(log, r) && 0 <= k && k + 1 < |r.stops|
        ensures RouteTime(log, r, k, k + 1) == PairTime(log, r.stops[k], r.stops[k + 1])
        ensures RouteTime(log, r, k, k + 1) == PairTime(log, r.stops[k + 1], r.stops[k])
      {
        var u, v := r.stops[k], r.stops[k + 1];
        assert ConnectsAt(r, k, u, v) && ConnectsAt(r, k, v, u);
        TimeOfSymmetric(log, r, u, v);
        PairTimeIsShared(log, r, u, v);
        PairTimeIsShared(log, r, v, u);
        assert RouteTime(log, r, k, k) == 0;
      }
    } else {
      var r, s, u, v :| Added(log, r) && Added(log, s) && Connects(r, u, v) && Connects(s, u, v) &&
                        TimeOf(log, r, u, v) != TimeOf(log, s, u, v);
      var i, j :| ConnectsAt(r, i, u, v) && ConnectsAt(s, j, u, v);
      TimeOfSymmetric(log, r, u, v);
      TimeOfSymmetric(log, s, u, v);
      assert RouteTime(log, r, i, i) == 0 && RouteTime(log, s, j, j) == 0;
      assert RouteTime(log, r, i, i + 1) != RouteTime(log, s, j, j + 1);
    }
  }

  lemma PairTimeIsShared(log: Log, r: RouteInternal, u: Id, v: Id)
    requires WellFormedLog(log) && SameTimes(log) && Added(log, r) && Connects(r, u, v)
    ensures PairTime(log, u, v) == TimeOf(log, r, u, v)
  {
    hide EdgesOf, TimeOf, WellFormedLog, Added, PairTime, Connects;
    PairTimeMeans(log, u, v);
  }

  /** What can be asked before a route is added: while the promise holds, no
      time is in force on the route exactly if the time of every two stations
      it connects directly is 0. */
  lemma UntimedMeans(log: Log, r: RouteInternal)
    requires WellFormedLog(log) && SameTimes(log)
    ensures Untimed(log, r) <==> forall u, v :: Connects(r, u, v) ==> PairTime(log, u, v) == 0
  {
    hide EdgesOf, TimeOf, WellFormedLog, Added, PairTime, Connects;
    forall u, v | Connects(r, u, v)
      ensures PairTime(log, u, v) == 0 <==>
        forall s :: Added(log, s) && Connects(s, u, v) ==> TimeOf(log, s, u, v) == 0
    {
      PairTimeMeans(log, u, v);
      forall s | Added(log, s) && Connects(s, u, v) ensures TimeOf(log, s, u, v) == PairTime(log, u, v) {
        PairTimeIsShared(log, s, u, v);
      }
    }
  }

  // ----- Routes serving a station -----

  ghost predicate Leaves(r: RouteInternal, u: Id) {
    exists k :: Leg(r, k, u)
  }

  ghost predicate EndsAt(r: RouteInternal, u: Id) {
    r.stops != [] && r.stops[|r.stops| - 1] == u
  }

  lemma ServesMeans(r: RouteInternal, u: Id)
    ensures Leaves(r, u) || EndsAt(r, u) <==> u in r.stops
    ensures DistinctStops(r.stops) ==> !(Leaves(r, u) && EndsAt(r, u))
  {
    if u in r.stops {
      var k :| 0 <= k < |r.stops| && r.stops[k] == u;
      assert k + 1 < |r.stops| ==> Leg(r, k, u);
    }
    if Leaves(r, u) {
      var k :| Leg(r, k, u);
    }
  }

  lemma LeavingRoutes(log: Log, u: Id, r: RouteInternal)
    requires WellFormedLog(log)
    ensures (exists e :: e in EdgesOf(log, u) && e.route == r) <==> Added(log, r) && Leaves(r, u)
  {
    if e :| e in EdgesOf(log, u) && e.route == r {
      EdgesMean(log, u, e);
      assert Leg(r, e.idx, u);
    }
    if Added(log, r) && Leaves(r, u) {
      var k :| Leg(r, k, u);
      EdgesMean(log, u, LegEdge(log, r, k));
    }
  }
}
