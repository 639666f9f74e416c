/** The network graph as the path-finding code sees it, and the declarative
    notion of a walk against which the searches are proved. */
module Graphs {
  import opened Wrappers

  type Id = string

  /** A route object. `serial` is the object's identity: the source compares
      routes by pointer, and two objects may carry the same ids. */
  datatype RouteInternal = RouteInternal(serial: nat, id: Id, lineId: Id, stops: seq<Id>)

  /** An edge object, identified by its route and its position on it. */
  datatype GraphEdge = GraphEdge(route: RouteInternal, idx: nat, nextStop: Id, travelTime: nat)

  /** A station together with the edge used to reach it (None: the null edge). */
  datatype PathStop = PathStop(node: Id, edge: Option<GraphEdge>)

  datatype PathStopDist = PathStopDist(stop: PathStop, dist: nat)

  type Path = seq<PathStopDist>

  /** For every station, the edges leaving it. */
  type Graph = map<Id, seq<GraphEdge>>

  const CHANGE_PENALTY: nat := 5

  ghost predicate EdgeOk(g: Graph, u: Id, e: GraphEdge) {
    && e.idx + 1 < |e.route.stops|
    && e.route.stops[e.idx] == u
    && e.route.stops[e.idx + 1] == e.nextStop
    && e.nextStop in g
  }

  ghost predicate ValidGraph(g: Graph) {
    forall u, e :: u in g && e in g[u] ==> EdgeOk(g, u, e)
  }

  function Penalty(from: PathStop, e: GraphEdge): nat {
    if from.edge.Some? && from.edge.value.route != e.route then CHANGE_PENALTY else 0
  }

  function Arrival(e: GraphEdge): PathStop {
    PathStop(e.nextStop, Some(e))
  }

  function Arrive(p: PathStopDist, e: GraphEdge): PathStopDist {
    PathStopDist(Arrival(e), p.dist + e.travelTime + Penalty(p.stop, e))
  }

  function Cold(station: Id): PathStopDist {
    PathStopDist(PathStop(station, None), 0)
  }

  function First(w: Path): PathStopDist
    requires w != []
  {
    w[0]
  }

  function Last(w: Path): PathStopDist
    requires w != []
  {
    w[|w| - 1]
  }

  function Init(w: Path): Path
    requires w != []
  {
    w[..|w| - 1]
  }

  /** One ride: `q` is reached from `p` along one edge that is not excluded. */
  ghost predicate Hop(g: Graph, excluded: set<PathStop>, p: PathStopDist, q: PathStopDist) {
    && p.stop.node in g
    && q.stop.edge.Some?
    && q.stop.edge.value in g[p.stop.node]
    && q == Arrive(p, q.stop.edge.value)
    && q.stop !in excluded
  }

  /** A walk, each stop carrying the time accumulated so far. */
  ghost predicate IsWalk(g: Graph, excluded: set<PathStop>, w: Path)
    decreases |w|
  {
    && w != []
    && (|w| > 1 ==> IsWalk(g, excluded, Init(w)) && Hop(g, excluded, Last(Init(w)), Last(w)))
  }

  ghost predicate IsWalkTo(g: Graph, excluded: set<PathStop>, from: PathStopDist, station: Id, w: Path) {
    && IsWalk(g, excluded, w)
    && First(w) == from
    && Last(w).stop.node == station
  }

  ghost predicate Avoids(w: Path, station: Id) {
    forall q :: q in w ==> q.stop.node != station
  }

  /** No station occurs twice. */
  ghost predicate Loopless(w: Path)
    decreases |w|
  {
    w != [] ==> Loopless(Init(w)) && Avoids(Init(w), Last(w).stop.node)
  }

  lemma {:induction false} LooplessMeans(w: Path)
    ensures Loopless(w) <==> forall i, j :: 0 <= i < j < |w| ==> w[i].stop.node != w[j].stop.node
    decreases |w|
  {
    if w != [] {
      LooplessMeans(Init(w));
      if Loopless(w) {
        forall i, j | 0 <= i < j < |w| ensures w[i].stop.node != w[j].stop.node {
          assert w[i] == Init(w)[i] && w[i] in Init(w);
          if j < |w| - 1 {
            assert w[j] == Init(w)[j];
          }
        }
      } else if Loopless(Init(w)) {
        var p :| p in Init(w) && p.stop.node == Last(w).stop.node;
        var i :| 0 <= i < |Init(w)| && Init(w)[i] == p;
        assert w[i].stop.node == w[|w| - 1].stop.node;
      } else {
        var i, j :| 0 <= i < j < |Init(w)| && Init(w)[i].stop.node == Init(w)[j].stop.node;
        assert w[i].stop.node == w[j].stop.node;
      }
    }
  }

  // ----- The cost of a walk, stated without accumulated times -----

  ghost function RideTime(w: Path): nat
    decreases |w|
  {
    if |w| <= 1 then 0
    else RideTime(Init(w)) + if Last(w).stop.edge.Some? then Last(w).stop.edge.value.travelTime else 0
  }

  ghost function Changes(w: Path): nat
    decreases |w|
  {
    if |w| <= 1 then 0
    else Changes(Init(w)) +
         if Last(w).stop.edge.Some? && Penalty(Last(Init(w)).stop, Last(w).stop.edge.value) != 0 then 1 else 0
  }

  /** Accumulated time is start time, plus all ride times, plus 5 for every
      change of route. */
  lemma {:induction false} WalkCost(g: Graph, excluded: set<PathStop>, w: Path)
    requires IsWalk(g, excluded, w)
    ensures Last(w).dist == First(w).dist + RideTime(w) + 5 * Changes(w)
    decreases |w|
  {
    if |w| > 1 {
      WalkCost(g, excluded, Init(w));
    }
  }

  // ----- Walks can be cut and joined -----

  lemma {:induction false} WalkPrefix(g: Graph, excluded: set<PathStop>, w: Path, k: nat)
    requires IsWalk(g, excluded, w) && 0 < k <= |w|
    ensures IsWalk(g, excluded, w[..k])
    decreases |w|
  {
    if k < |w| {
      WalkPrefix(g, excluded, Init(w), k);
      assert Init(w)[..k] == w[..k];
    } else {
      assert w[..k] == w;
    }
  }

  lemma {:induction false} WalkHop(g: Graph, excluded: set<PathStop>, w: Path, k: nat)
    requires IsWalk(g, excluded, w) && 0 < k < |w|
    ensures Hop(g, excluded, w[k - 1], w[k])
  {
    WalkPrefix(g, excluded, w, k + 1);
    assert Init(w[..k + 1]) == w[..k];
  }

  lemma {:induction false} WalkSuffix(g: Graph, excluded: set<PathStop>, w: Path, k: nat)
    requires IsWalk(g, excluded, w) && k < |w|
    ensures IsWalk(g, excluded, w[k..])
    decreases |w|
  {
    if k < |w| - 1 {
      WalkSuffix(g, excluded, Init(w), k);
      assert Init(w[k..]) == Init(w)[k..];
    }
  }

  /** A walk continued by a walk that starts where the first one ends. */
  lemma {:induction false} WalkJoin(g: Graph, excluded: set<PathStop>, w: Path, v: Path)
    requires IsWalk(g, excluded, w) && IsWalk(g, excluded, v) && Last(w) == First(v)
    ensures IsWalk(g, excluded, Init(w) + v)
    decreases |v|
  {
    if |v| == 1 {
      assert Init(w) + v == w;
    } else {
      WalkJoin(g, excluded, w, Init(v));
      var j := Init(w) + v;
      assert Init(j) == Init(w) + Init(v);
      assert Last(Init(j)) == Last(Init(v)) && Last(j) == Last(v);
    }
  }

  lemma {:induction false} WalkNarrow(g: Graph, excluded: set<PathStop>, w: Path)
    requires IsWalk(g, excluded, w)
    ensures IsWalk(g, {}, w)
    decreases |w|
  {
    if |w| > 1 {
      WalkNarrow(g, excluded, Init(w));
    }
  }

  lemma {:induction false} WalkMonotone(g: Graph, excluded: set<PathStop>, w: Path, i: nat, j: nat)
    requires IsWalk(g, excluded, w) && i <= j < |w|
    ensures w[i].dist <= w[j].dist
    decreases j
  {
    if i < j {
      WalkHop(g, excluded, w, j);
      WalkMonotone(g, excluded, w, i, j - 1);
    }
  }

  lemma {:induction false} WalkStaysInGraph(g: Graph, excluded: set<PathStop>, w: Path, k: nat)
    requires ValidGraph(g) && IsWalk(g, excluded, w) && First(w).stop.node in g && k < |w|
    ensures w[k].stop.node in g
  {
    if k > 0 {
      WalkHop(g, excluded, w, k);
      var e := w[k].stop.edge.value;
      assert EdgeOk(g, w[k - 1].stop.node, e);
    }
  }

  /** Going on a detour and coming back never beats boarding directly: the
      time of any later stop is at least the earlier time plus the penalty of
      changing straight to the later stop's route. */
  lemma {:induction false} DetourCost(g: Graph, excluded: set<PathStop>, w: Path, k: nat)
    requires IsWalk(g, excluded, w) && k < |w| - 1
    ensures Last(w).stop.edge.Some?
    ensures w[k].dist + Penalty(w[k].stop, Last(w).stop.edge.value) <= Last(w).dist
    decreases |w|
  {
    if k < |w| - 2 {
      DetourCost(g, excluded, Init(w), k);
    }
  }
}
