/** The fastest-path search: Dijkstra's algorithm over pairs (station, edge
    used to get there), with a preset starting distance and incoming edge, and
    with a set of stops that must not be used. */
module Search {
  import opened Wrappers
  import opened Graphs
  import PriorityQueue

  datatype Query = Query(g: Graph, start: PathStopDist, target: Id, excluded: set<PathStop>)

  ghost predicate ValidQuery(q: Query) {
    ValidGraph(q.g) && q.start.stop.node in q.g
  }

  ghost predicate Answers(q: Query, w: Path) {
    IsWalkTo(q.g, q.excluded, q.start, q.target, w)
  }

  /** `w` answers the query at least as fast as any other walk. */
  ghost predicate Optimal(q: Query, w: Path) {
    && Answers(q, w)
    && forall v :: Answers(q, v) ==> Last(w).dist <= Last(v).dist
  }

  ghost predicate Unreachable(q: Query) {
    forall w :: !Answers(q, w)
  }

  // ----- A bound on every time the search computes -----

  ghost function Sources(g: Graph): set<Id> {
    set u | u in g && g[u] != []
  }

  ghost function Edges(g: Graph): set<GraphEdge> {
    set u, e | u in g && e in g[u] :: e
  }

  ghost function MaxTime(es: set<GraphEdge>): (m: nat)
    ensures forall e :: e in es ==> e.travelTime <= m
  {
    if es == {} then 0
    else
      var e :| e in es;
      var m := MaxTime(es - {e});
      if m < e.travelTime then e.travelTime else m
  }

  ghost function LongestRide(g: Graph): nat {
    MaxTime(Edges(g)) + CHANGE_PENALTY
  }

  ghost function Stations(w: Path): set<Id> {
    set p | p in w :: p.stop.node
  }

  lemma {:induction false} LooplessCount(w: Path)
    requires Loopless(w)
    ensures |Stations(w)| == |w|
    decreases |w|
  {
    if w != [] {
      LooplessCount(Init(w));
      assert w == Init(w) + [Last(w)];
      assert Stations(w) == Stations(Init(w)) + {Last(w).stop.node};
      assert Last(w).stop.node !in Stations(Init(w));
    } else {
      assert Stations(w) == {};
    }
  }

  lemma SubsetCount<T>(a: set<T>, b: set<T>)
    requires a <= b
    ensures |a| <= |b|
  {
    assert b == a + (b - a);
  }

  /** The time of `n` longest rides, each with a change. */
  ghost function Rides(g: Graph, n: nat): nat {
    if n == 0 then 0 else Rides(g, n - 1) + LongestRide(g)
  }

  lemma {:induction false} RidesTimes(g: Graph, n: nat)
    ensures Rides(g, n) == n * LongestRide(g)
  {
    if n > 0 {
      RidesTimes(g, n - 1);
    }
  }

  lemma {:induction false} RidesMonotone(g: Graph, m: nat, n: nat)
    requires m <= n
    ensures Rides(g, m) <= Rides(g, n)
    decreases n
  {
    if m < n {
      RidesMonotone(g, m, n - 1);
    }
  }

  /** A walk takes at most one longest ride per hop, and a walk that never
      leaves a station twice has no more hops than there are stations to leave. */
  lemma {:induction false} WalkBound(g: Graph, excluded: set<PathStop>, w: Path)
    requires IsWalk(g, excluded, w)
    ensures Last(w).dist <= First(w).dist + Rides(g, |w| - 1)
    decreases |w|
  {
    if |w| > 1 {
      WalkBound(g, excluded, Init(w));
      assert Last(w).stop.edge.value in Edges(g);
    }
  }

  lemma {:induction false} LooplessBound(g: Graph, excluded: set<PathStop>, w: Path)
    requires IsWalk(g, excluded, w) && Loopless(Init(w))
    ensures Last(w).dist <= First(w).dist + Rides(g, |Sources(g)|)
  {
    forall u | u in Stations(Init(w)) ensures u in Sources(g) {
      var p :| p in Init(w) && p.stop.node == u;
      var i: nat :| i < |Init(w)| && Init(w)[i] == p;
      WalkHop(g, excluded, w, i + 1);
    }
    LooplessCount(Init(w));
    SubsetCount(Stations(Init(w)), Sources(g));
    WalkBound(g, excluded, w);
    RidesMonotone(g, |w| - 1, |Sources(g)|);
  }

  lemma {:induction false} SourcesWithinEdges(g: Graph)
    requires ValidGraph(g)
    ensures |Sources(g)| <= |Edges(g)|
  {
    SourcesWithinEdgesOf(g, Sources(g));
    assert Edges(g) == set u, e | u in Sources(g) && e in g[u] :: e;
  }

  /** An edge leaves one station only. */
  lemma SourceOf(g: Graph, u: Id, v: Id, e: GraphEdge)
    requires ValidGraph(g) && u in g && v in g
    ensures e in g[u] && e in g[v] ==> u == v
  {
    assert e in g[u] && e in g[v] ==> EdgeOk(g, u, e) && EdgeOk(g, v, e);
  }

  lemma {:induction false} SourcesWithinEdgesOf(g: Graph, us: set<Id>)
    requires ValidGraph(g) && us <= Sources(g)
    ensures |us| <= |set u, e | u in us && e in g[u] :: e|
    decreases |us|
  {
    var all := set u, e | u in us && e in g[u] :: e;
    if u :| u in us {
      var us' := us - {u};
      var rest := set v, e | v in us' && e in g[v] :: e;
      SourcesWithinEdgesOf(g, us');
      var e := g[u][0];
      assert e !in rest by {
        if e in rest {
          var v :| v in us' && e in g[v];
          SourceOf(g, u, v, e);
        }
      }
      assert u in us && e in g[u];
      SubsetCount(rest + {e}, all);
    }
  }

  /** How far beyond its start time a search can count: one longest ride for
      every station that has edges, and one more. */
  ghost function Headroom(g: Graph): nat {
    (|Sources(g)| + 1) * LongestRide(g)
  }

  /** No sum of a search overflows 32 bits, if one longest ride for every edge
      and one more still fit after the start time. `peak` is the largest sum. */
  lemma SumsFit32(g: Graph, start: nat, peak: nat)
    requires ValidGraph(g) && peak <= start + Headroom(g)
    requires start + (|Edges(g)| + 1) * (MaxTime(Edges(g)) + 5) < 0x1_0000_0000
    ensures peak < 0x1_0000_0000
  {
    SourcesWithinEdges(g);
    RidesTimes(g, |Sources(g)| + 1);
    RidesTimes(g, |Edges(g)| + 1);
    RidesMonotone(g, |Sources(g)| + 1, |Edges(g)| + 1);
  }

  ghost function Bound(q: Query): nat {
    q.start.dist + Rides(q.g, |Sources(q.g)|)
  }

  ghost function Peak(q: Query): nat {
    Bound(q) + LongestRide(q.g)
  }

  // ----- What the loop keeps -----

  type Labels = map<PathStop, nat>

  ghost predicate RelaxedEdge(dist: Labels, s: PathStop, e: GraphEdge)
    requires s in dist
  {
    Arrival(e) in dist && dist[Arrival(e)] <= Arrive(PathStopDist(s, dist[s]), e).dist
  }

  ghost predicate RelaxedEdges(q: Query, dist: Labels, s: PathStop, edges: seq<GraphEdge>)
    requires s in dist
  {
    forall e {:trigger RelaxedEdge(dist, s, e)} ::
      e in edges && Arrival(e) !in q.excluded ==> RelaxedEdge(dist, s, e)
  }

  /** No edge out of `s` offers an improvement any more. */
  ghost predicate Relaxed(q: Query, dist: Labels, s: PathStop)
    requires s in dist
  {
    s.node in q.g && s.node != q.target ==> RelaxedEdges(q, dist, s, q.g[s.node])
  }

  /** `t` is the walk behind the label of `n`: all its earlier stops are settled
      and it leaves no station twice. */
  ghost predicate TrailOk(q: Query, dist: Labels, settled: set<PathStop>, n: PathStop, t: Path)
    requires n in dist
  {
    && IsWalk(q.g, q.excluded, t)
    && First(t) == q.start
    && Last(t) == PathStopDist(n, dist[n])
    && Avoids(Init(t), q.target)
    && Loopless(Init(t))
    && forall p :: p in Init(t) ==> p.stop in settled && p.stop in dist && p.dist == dist[p.stop]
  }

  ghost predicate LabelOk(q: Query, dist: Labels, prev: map<PathStop, PathStop>,
                          trail: map<PathStop, Path>, settled: set<PathStop>, n: PathStop)
  {
    && n in dist && n in trail && n.node in q.g
    && TrailOk(q, dist, settled, n, trail[n])
    && (n != q.start.stop ==>
          && n in prev && prev[n] in settled && prev[n] in trail
          && trail[n] == trail[prev[n]] + [PathStopDist(n, dist[n])])
  }

  ghost predicate LabelsOk(q: Query, dist: Labels, prev: map<PathStop, PathStop>,
                           trail: map<PathStop, Path>, settled: set<PathStop>)
  {
    && q.start.stop in dist && dist[q.start.stop] == q.start.dist
    && settled <= dist.Keys == trail.Keys
    && trail[q.start.stop] == [q.start]
    && forall n {:trigger LabelOk(q, dist, prev, trail, settled, n)} ::
         n in dist ==> LabelOk(q, dist, prev, trail, settled, n)
  }

  ghost predicate EntryOk(q: Query, dist: Labels, last: nat, p: PathStopDist) {
    p.stop in dist && dist[p.stop] <= p.dist && last <= p.dist <= Bound(q)
  }

  /** A labelled stop is waiting in the queue, or settled before `last`. */
  ghost predicate PlaceOk(dist: Labels, queue: multiset<PathStopDist>, settled: set<PathStop>,
                          last: nat, n: PathStop)
    requires n in dist
  {
    if n in settled then dist[n] <= last else PathStopDist(n, dist[n]) in queue
  }

  ghost predicate FrontierOk(q: Query, dist: Labels, queue: multiset<PathStopDist>,
                             settled: set<PathStop>, last: nat)
  {
    && (forall p {:trigger EntryOk(q, dist, last, p)} :: p in queue ==> EntryOk(q, dist, last, p))
    && (forall n {:trigger PlaceOk(dist, queue, settled, last, n)} ::
          n in dist ==> PlaceOk(dist, queue, settled, last, n))
  }

  ghost predicate AllRelaxed(q: Query, dist: Labels, stops: set<PathStop>) {
    forall t {:trigger Relaxed(q, dist, t)} :: t in stops && t in dist ==> Relaxed(q, dist, t)
  }

  lemma PenaltyTriangle(a: PathStop, f: GraphEdge, e: GraphEdge)
    ensures Penalty(a, e) <= Penalty(a, f) + Penalty(Arrival(f), e)
  {
  }

  /** A stop whose trail comes back to a station it already left has nothing
      to offer: its neighbours were reached at least as fast from there. */
  lemma DetourIsRelaxed(q: Query, dist: Labels, prev: map<PathStop, PathStop>,
                        trail: map<PathStop, Path>, settled: set<PathStop>, s: PathStop)
    requires LabelsOk(q, dist, prev, trail, settled) && AllRelaxed(q, dist, settled)
    requires s in dist && !Loopless(trail[s])
    ensures Relaxed(q, dist, s)
  {
    var t := trail[s];
    assert LabelOk(q, dist, prev, trail, settled, s);
    var p :| p in Init(t) && p.stop.node == s.node;
    var i: nat :| i < |Init(t)| && Init(t)[i] == p;
    DetourCost(q.g, q.excluded, t, i);
    var f := Last(t).stop.edge.value;
    if s.node in q.g && s.node != q.target {
      forall e | e in q.g[s.node] && Arrival(e) !in q.excluded ensures RelaxedEdge(dist, s, e) {
        assert Relaxed(q, dist, p.stop);
        assert RelaxedEdge(dist, p.stop, e);
        PenaltyTriangle(p.stop, f, e);
      }
    }
  }

  /** Recording an improvement found from the settled stop `curr`: what is
      known when it is recorded. */
  ghost predicate Improvement(q: Query, dist: Labels, prev: map<PathStop, PathStop>, trail: map<PathStop, Path>,
                              settled: set<PathStop>, curr: PathStopDist, n: PathStopDist)
  {
    && LabelsOk(q, dist, prev, trail, settled)
    && q.start.stop in settled && curr.stop in settled && curr.dist == dist[curr.stop]
    && Loopless(trail[curr.stop]) && curr.stop.node != q.target
    && Hop(q.g, q.excluded, curr, n)
    && (n.stop in dist ==> n.dist < dist[n.stop])
    && n.stop !in settled
  }

  lemma ImproveLabels(q: Query, dist: Labels, prev: map<PathStop, PathStop>, trail: map<PathStop, Path>,
                      settled: set<PathStop>, curr: PathStopDist, n: PathStopDist)
    requires ValidQuery(q) && Improvement(q, dist, prev, trail, settled, curr, n)
    ensures LabelsOk(q, dist[n.stop := n.dist], prev[n.stop := curr.stop],
                     trail[n.stop := trail[curr.stop] + [n]], settled)
  {
    var t := trail[curr.stop] + [n];
    var dist', prev', trail' := dist[n.stop := n.dist], prev[n.stop := curr.stop], trail[n.stop := t];
    forall m | m in dist' ensures LabelOk(q, dist', prev', trail', settled, m) {
      if m == n.stop {
        assert EdgeOk(q.g, curr.stop.node, n.stop.edge.value);
        assert LabelOk(q, dist, prev, trail, settled, curr.stop);
        ExtendTrail(q, dist, settled, trail[curr.stop], curr, n);
      } else {
        assert LabelOk(q, dist, prev, trail, settled, m);
        KeepTrail(q, dist, settled, m, trail[m], n);
      }
    }
  }

  lemma ImproveFrontier(q: Query, dist: Labels, prev: map<PathStop, PathStop>, trail: map<PathStop, Path>,
                        settled: set<PathStop>, queue: multiset<PathStopDist>, curr: PathStopDist, n: PathStopDist)
    requires ValidQuery(q) && Improvement(q, dist, prev, trail, settled, curr, n)
    requires FrontierOk(q, dist, queue, settled, curr.dist)
    ensures FrontierOk(q, dist[n.stop := n.dist], queue + multiset{n}, settled, curr.dist)
  {
    var t := trail[curr.stop] + [n];
    assert LabelOk(q, dist, prev, trail, settled, curr.stop);
    ExtendTrail(q, dist, settled, trail[curr.stop], curr, n);
    LooplessBound(q.g, q.excluded, t);
    var dist', queue' := dist[n.stop := n.dist], queue + multiset{n};
    forall m | m in dist' ensures PlaceOk(dist', queue', settled, curr.dist, m) {
      if m != n.stop {
        assert PlaceOk(dist, queue, settled, curr.dist, m);
      }
    }
    forall p | p in queue' ensures EntryOk(q, dist', curr.dist, p) {
      if p != n {
        assert EntryOk(q, dist, curr.dist, p);
      }
    }
  }

  lemma ExtendTrail(q: Query, dist: Labels, settled: set<PathStop>, t: Path, curr: PathStopDist, n: PathStopDist)
    requires curr.stop in dist && curr.stop in settled && n.stop !in settled
    requires TrailOk(q, dist, settled, curr.stop, t) && curr.dist == dist[curr.stop]
    requires Loopless(t) && curr.stop.node != q.target
    requires Hop(q.g, q.excluded, curr, n)
    ensures Init(t + [n]) == t
    ensures TrailOk(q, dist[n.stop := n.dist], settled, n.stop, t + [n])
  {
    assert Init(t + [n]) == t == Init(t) + [curr];
  }

  lemma KeepTrail(q: Query, dist: Labels, settled: set<PathStop>, m: PathStop, t: Path, n: PathStopDist)
    requires m in dist && TrailOk(q, dist, settled, m, t)
    requires m != n.stop && n.stop !in settled
    ensures TrailOk(q, dist[n.stop := n.dist], settled, m, t)
  {
  }

  /** Lowering or adding the label of an unsettled stop disturbs no settled one. */
  lemma RelaxedAfter(q: Query, dist: Labels, s: PathStop, edges: seq<GraphEdge>, n: PathStop, d: nat)
    requires s in dist && s != n && RelaxedEdges(q, dist, s, edges)
    requires n in dist ==> d <= dist[n]
    ensures RelaxedEdges(q, dist[n := d], s, edges)
  {
    forall e | e in edges && Arrival(e) !in q.excluded ensures RelaxedEdge(dist[n := d], s, e) {
      assert RelaxedEdge(dist, s, e);
    }
  }

  /** Between two edges of the stop `curr`, with the edges `seen` done. */
  ghost predicate Exploring(q: Query, curr: PathStopDist, dist: Labels, prev: map<PathStop, PathStop>,
                            queue: multiset<PathStopDist>, trail: map<PathStop, Path>, settled: set<PathStop>,
                            seen: seq<GraphEdge>)
  {
    && LabelsOk(q, dist, prev, trail, settled)
    && FrontierOk(q, dist, queue, settled, curr.dist)
    && AllRelaxed(q, dist, settled - {curr.stop})
    && q.start.stop in settled && curr.stop in settled
    && dist[curr.stop] <= curr.dist <= Bound(q)
    && RelaxedEdges(q, dist, curr.stop, seen)
  }

  lemma ExploreStep(q: Query, curr: PathStopDist, dist: Labels, prev: map<PathStop, PathStop>,
                    queue: multiset<PathStopDist>, trail: map<PathStop, Path>, settled: set<PathStop>,
                    seen: seq<GraphEdge>, n: PathStopDist)
    requires ValidQuery(q) && Exploring(q, curr, dist, prev, queue, trail, settled, seen)
    requires Improvement(q, dist, prev, trail, settled, curr, n)
    ensures Exploring(q, curr, dist[n.stop := n.dist], prev[n.stop := curr.stop], queue + multiset{n},
                      trail[n.stop := trail[curr.stop] + [n]], settled, seen)
  {
    ImproveLabels(q, dist, prev, trail, settled, curr, n);
    ImproveFrontier(q, dist, prev, trail, settled, queue, curr, n);
    RelaxedAfter(q, dist, curr.stop, seen, n.stop, n.dist);
    var dist' := dist[n.stop := n.dist];
    forall t | t in settled - {curr.stop} ensures Relaxed(q, dist', t) {
      assert Relaxed(q, dist, t);
      if t.node in q.g && t.node != q.target {
        RelaxedAfter(q, dist, t, q.g[t.node], n.stop, n.dist);
      }
    }
  }

  /** The loop over the edges leaving the stop just taken from the queue. */
  method Explore(q: Query, curr: PathStopDist, dist0: Labels, prev0: map<PathStop, PathStop>,
                 queue0: multiset<PathStopDist>, ghost trail0: map<PathStop, Path>, ghost settled: set<PathStop>)
    returns (dist: Labels, prev: map<PathStop, PathStop>, queue: multiset<PathStopDist>,
             ghost trail: map<PathStop, Path>, ghost peak: nat)
    requires ValidQuery(q) && curr.stop.node in q.g && curr.stop.node != q.target
    requires Exploring(q, curr, dist0, prev0, queue0, trail0, settled, [])
    requires Relaxed(q, dist0, curr.stop) || (curr.dist == dist0[curr.stop] && Loopless(trail0[curr.stop]))
    ensures Exploring(q, curr, dist, prev, queue, trail, settled, q.g[curr.stop.node])
    ensures Relaxed(q, dist0, curr.stop) ==> queue == queue0
    ensures peak <= Peak(q)
  {
    hide IsWalk, Loopless, EdgeOk;
    dist, prev, queue, trail := dist0, prev0, queue0, trail0;
    peak := 0;
    var edges := q.g[curr.stop.node];
    ghost var nothingNew := Relaxed(q, dist0, curr.stop);
    for i := 0 to |edges|
      invariant Exploring(q, curr, dist, prev, queue, trail, settled, edges[..i])
      invariant nothingNew ==> dist == dist0 && queue == queue0
      invariant !nothingNew ==> curr.dist == dist[curr.stop] && Loopless(trail[curr.stop])
      invariant peak <= Peak(q)
    {
      var e := edges[i];
      var neighbor := Arrival(e);
      assert PlaceOk(dist, queue, settled, curr.dist, curr.stop);
      assert edges[..i + 1] == edges[..i] + [e];
      if neighbor in q.excluded {
        continue;
      }
      var neighborDist := curr.dist + e.travelTime;
      if curr.stop.edge.Some? && curr.stop.edge.value.route != e.route {
        neighborDist := neighborDist + CHANGE_PENALTY;
      }
      assert curr.stop.node in q.g && e in q.g[curr.stop.node] && e in Edges(q.g);
      peak := if peak < neighborDist then neighborDist else peak;
      assert neighbor in dist ==> PlaceOk(dist, queue, settled, curr.dist, neighbor);
      assert nothingNew ==> RelaxedEdge(dist0, curr.stop, e);
      if neighbor !in dist || neighborDist < dist[neighbor] {
        ghost var n := PathStopDist(neighbor, neighborDist);
        ExploreStep(q, curr, dist, prev, queue, trail, settled, edges[..i], n);
        trail := trail[neighbor := trail[curr.stop] + [n]];
        dist := dist[neighbor := neighborDist];
        prev := prev[neighbor := curr.stop];
        queue := queue + multiset{PathStopDist(neighbor, neighborDist)};
      }
      assert RelaxedEdge(dist, curr.stop, e);
    }
    assert edges[..|edges|] == edges;
  }

  // ----- The main loop -----

  ghost function AllStops(q: Query): set<PathStop> {
    {q.start.stop} + set e | e in Edges(q.g) :: Arrival(e)
  }

  /** Between two turns of the main loop. */
  ghost predicate Searching(q: Query, dist: Labels, prev: map<PathStop, PathStop>,
                            queue: multiset<PathStopDist>, trail: map<PathStop, Path>, settled: set<PathStop>,
                            last: nat)
  {
    && LabelsOk(q, dist, prev, trail, settled)
    && FrontierOk(q, dist, queue, settled, last)
    && AllRelaxed(q, dist, settled)
    && (q.start.stop !in settled ==> settled == {} && queue == multiset{q.start})
  }

  lemma LabelsWithinAllStops(q: Query, dist: Labels, prev: map<PathStop, PathStop>,
                             trail: map<PathStop, Path>, settled: set<PathStop>)
    requires LabelsOk(q, dist, prev, trail, settled)
    ensures dist.Keys <= AllStops(q)
  {
    forall n | n in dist ensures n in AllStops(q) {
      assert LabelOk(q, dist, prev, trail, settled, n);
      var t := trail[n];
      if |t| > 1 {
        assert n.edge.value in Edges(q.g);
        assert n == Arrival(n.edge.value);
      }
    }
  }

  /** Taking a least entry off the queue and settling its stop. */
  lemma SettleFrontier(q: Query, dist: Labels, queue: multiset<PathStopDist>, settled: set<PathStop>,
                       last: nat, curr: PathStopDist)
    requires FrontierOk(q, dist, queue + multiset{curr}, settled, last)
    requires forall p :: p in queue ==> curr.dist <= p.dist
    ensures EntryOk(q, dist, last, curr)
    ensures FrontierOk(q, dist, queue, settled + {curr.stop}, curr.dist)
    ensures curr.stop in settled || curr.dist == dist[curr.stop]
  {
    var all, settled' := queue + multiset{curr}, settled + {curr.stop};
    assert curr in all && EntryOk(q, dist, last, curr);
    forall n | n in dist
      ensures PlaceOk(dist, queue, settled', curr.dist, n)
      ensures n == curr.stop ==> n in settled || dist[n] == curr.dist
    {
      assert PlaceOk(dist, all, settled, last, n);
    }
    forall p | p in queue ensures EntryOk(q, dist, curr.dist, p) {
      assert p in all && EntryOk(q, dist, last, p);
    }
  }

  lemma SettleLabels(q: Query, dist: Labels, prev: map<PathStop, PathStop>, trail: map<PathStop, Path>,
                     settled: set<PathStop>, s: PathStop)
    requires LabelsOk(q, dist, prev, trail, settled) && s in dist
    ensures LabelsOk(q, dist, prev, trail, settled + {s})
  {
    forall n | n in dist ensures LabelOk(q, dist, prev, trail, settled + {s}, n) {
      assert LabelOk(q, dist, prev, trail, settled, n);
    }
  }

  lemma Settle(q: Query, dist: Labels, prev: map<PathStop, PathStop>, queue: multiset<PathStopDist>,
               trail: map<PathStop, Path>, settled: set<PathStop>, last: nat, curr: PathStopDist)
    requires ValidQuery(q) && Searching(q, dist, prev, queue + multiset{curr}, trail, settled, last)
    requires forall p :: p in queue ==> curr.dist <= p.dist
    ensures curr.stop in dist && curr.stop.node in q.g
    ensures Exploring(q, curr, dist, prev, queue, trail, settled + {curr.stop}, [])
    ensures Relaxed(q, dist, curr.stop) || (curr.dist == dist[curr.stop] && Loopless(trail[curr.stop]))
    ensures curr.stop in settled ==> Relaxed(q, dist, curr.stop)
  {
    var s := curr.stop;
    assert q.start.stop !in settled ==> curr == q.start by {
      assert curr in queue + multiset{curr};
    }
    SettleFrontier(q, dist, queue, settled, last, curr);
    SettleLabels(q, dist, prev, trail, settled, s);
    assert LabelOk(q, dist, prev, trail, settled, s);
    if s in settled {
      assert Relaxed(q, dist, s);
    } else if !Loopless(trail[s]) {
      DetourIsRelaxed(q, dist, prev, trail, settled, s);
    }
    forall t | t in settled + {s} - {s} && t in dist ensures Relaxed(q, dist, t) {
      assert t in settled;
    }
  }

  /** Once the queue is empty, no walk arrives earlier than the labels say. */
  lemma {:induction false} LabelsAreLeast(q: Query, dist: Labels, w: Path)
    requires ValidQuery(q) && q.start.stop in dist && dist[q.start.stop] == q.start.dist
    requires AllRelaxed(q, dist, dist.Keys)
    requires IsWalk(q.g, q.excluded, w) && First(w) == q.start && Avoids(Init(w), q.target)
    ensures Last(w).stop in dist && dist[Last(w).stop] <= Last(w).dist
    decreases |w|
  {
    if |w| > 1 {
      var v := Init(w);
      assert v == Init(v) + [Last(v)];
      LabelsAreLeast(q, dist, v);
      assert Relaxed(q, dist, Last(v).stop);
      assert RelaxedEdge(dist, Last(v).stop, Last(w).stop.edge.value);
    }
  }

  /** A walk to the target, cut where it first gets there. */
  lemma {:induction false} CutAtTarget(q: Query, w: Path) returns (v: Path)
    requires Answers(q, w)
    ensures Answers(q, v) && Avoids(Init(v), q.target) && Last(v).dist <= Last(w).dist
    decreases |w|
  {
    if Avoids(Init(w), q.target) {
      v := w;
    } else {
      var p :| p in Init(w) && p.stop.node == q.target;
      var i :| 0 <= i < |Init(w)| && Init(w)[i] == p;
      WalkPrefix(q.g, q.excluded, w, i + 1);
      WalkMonotone(q.g, q.excluded, w, i, |w| - 1);
      v := CutAtTarget(q, w[..i + 1]);
    }
  }

  /** The labelled stop at the target with the least distance: any of them if
      there are several, as the source sorts with an unstable sort. */
  method Nearest(dist: Labels, target: Id) returns (best: Option<PathStop>)
    ensures best.None? ==> forall s :: s in dist ==> s.node != target
    ensures best.Some? ==> best.value in dist && best.value.node == target
    ensures best.Some? ==> forall s :: s in dist && s.node == target ==> dist[best.value] <= dist[s]
  {
    best := None;
    var rest := dist.Keys;
    while rest != {}
      invariant rest <= dist.Keys
      invariant best.None? ==> forall s :: s in dist.Keys - rest ==> s.node != target
      invariant best.Some? ==> best.value in dist && best.value.node == target
      invariant best.Some? ==>
        forall s :: s in dist.Keys - rest && s.node == target ==> dist[best.value] <= dist[s]
      decreases rest
    {
      var s :| s in rest;
      rest := rest - {s};
      if s.node == target && (best.None? || dist[s] < dist[best.value]) {
        best := Some(s);
      }
    }
  }

  function Reversed(w: Path): (r: Path)
    ensures |r| == |w|
  {
    if w == [] then [] else Reversed(w[1..]) + [w[0]]
  }

  lemma {:induction false} ReversedSnoc(w: Path, p: PathStopDist)
    ensures Reversed(w + [p]) == [p] + Reversed(w)
  {
    if w != [] {
      ReversedSnoc(w[1..], p);
      assert (w + [p])[1..] == w[1..] + [p];
    }
  }

  /** A loopless walk does not come back to its first station. */
  lemma NoReturn(w: Path)
    requires w != [] && Loopless(w)
    ensures |w| > 1 ==> Last(w).stop.node != First(w).stop.node
  {
    if |w| > 1 {
      assert First(w) == Init(w)[0];
    }
  }

  lemma {:induction false} LooplessPrefix(w: Path, v: Path)
    requires Loopless(w + v)
    ensures Loopless(w)
    decreases |v|
  {
    if v == [] {
      assert w + v == w;
    } else {
      assert Init(w + v) == w + Init(v);
      LooplessPrefix(w, Init(v));
    }
  }

  /** Walking back from the best stop until the starting station comes up. The
      loop tests the station only; it nevertheless ends at the exact start. */
  method WalkBack(q: Query, dist: Labels, prev: map<PathStop, PathStop>, best: PathStop,
                  ghost trail: map<PathStop, Path>, ghost settled: set<PathStop>)
    returns (path: Path)
    requires ValidQuery(q) && LabelsOk(q, dist, prev, trail, settled)
    requires best in dist && best.node == q.target != q.start.stop.node
    ensures path == trail[best] && Loopless(path)
  {
    assert LabelOk(q, dist, prev, trail, settled, best);
    path := [PathStopDist(best, dist[best])];
    var stop := best;
    ghost var tail: Path := [];
    assert trail[best] == Init(trail[best]) + [Last(trail[best])];
    assert Loopless(trail[best]);
    while stop.node != q.start.stop.node
      invariant stop in dist && LabelOk(q, dist, prev, trail, settled, stop)
      invariant path != [] && trail[best] == trail[stop] + Reversed(Init(path))
      invariant Last(path) == PathStopDist(stop, dist[stop])
      decreases |trail[stop]|
    {
      ghost var done := Init(path);
      stop := prev[stop];
      assert LabelOk(q, dist, prev, trail, settled, stop);
      assert path == done + [Last(path)];
      ReversedSnoc(done, Last(path));
      path := path + [PathStopDist(stop, dist[stop])];
      assert Init(path) == done + [Last(done + [Last(Init(path))])];
    }
    LooplessPrefix(trail[stop], Reversed(Init(path)));
    NoReturn(trail[stop]);
    assert path == Init(path) + [Last(path)];
    ReversedSnoc(Init(path), Last(path));
    assert trail[best] == Reversed(path);
    path := Reversed(path);
  }

  /** When the edges of the stop just settled are done, the main loop's
      invariant holds again. */
  lemma Explored(q: Query, curr: PathStopDist, dist: Labels, prev: map<PathStop, PathStop>,
                 queue: multiset<PathStopDist>, trail: map<PathStop, Path>, settled: set<PathStop>,
                 seen: seq<GraphEdge>)
    requires curr.stop.node in q.g
    requires Exploring(q, curr, dist, prev, queue, trail, settled, seen)
    requires curr.stop.node == q.target || seen == q.g[curr.stop.node]
    ensures Searching(q, dist, prev, queue, trail, settled, curr.dist)
  {
    forall t | t in settled && t in dist ensures Relaxed(q, dist, t) {
      assert t != curr.stop ==> t in settled - {curr.stop};
    }
  }

  /** With the queue empty, the labels at the target decide the answer. */
  lemma Conclude(q: Query, dist: Labels, prev: map<PathStop, PathStop>, trail: map<PathStop, Path>,
                 settled: set<PathStop>, last: nat)
    requires ValidQuery(q) && Searching(q, dist, prev, multiset{}, trail, settled, last)
    ensures forall w :: Answers(q, w) ==>
              exists s :: s in dist && s.node == q.target && dist[s] <= Last(w).dist
  {
    assert settled == dist.Keys by {
      forall n | n in dist ensures n in settled {
        assert PlaceOk(dist, multiset{}, settled, last, n);
      }
    }
    forall w | Answers(q, w)
      ensures exists s :: s in dist && s.node == q.target && dist[s] <= Last(w).dist
    {
      var v := CutAtTarget(q, w);
      LabelsAreLeast(q, dist, v);
    }
  }

  /** One turn of the main loop, once `curr` has been taken off the queue. */
  method Turn(q: Query, curr: PathStopDist, dist0: Labels, prev0: map<PathStop, PathStop>,
              queue0: multiset<PathStopDist>, ghost trail0: map<PathStop, Path>, ghost settled0: set<PathStop>,
              ghost last: nat, ghost peak0: nat)
    returns (dist: Labels, prev: map<PathStop, PathStop>, queue: multiset<PathStopDist>,
             ghost trail: map<PathStop, Path>, ghost settled: set<PathStop>, ghost peak: nat)
    requires ValidQuery(q)
    requires Searching(q, dist0, prev0, queue0 + multiset{curr}, trail0, settled0, last)
    requires forall p :: p in queue0 ==> curr.dist <= p.dist
    requires peak0 <= Peak(q)
    ensures Searching(q, dist, prev, queue, trail, settled, curr.dist)
    ensures var left := AllStops(q) - settled;
            left < AllStops(q) - settled0 || (settled == settled0 && queue == queue0)
    ensures peak <= Peak(q)
  {
    dist, prev, queue, trail, peak := dist0, prev0, queue0, trail0, peak0;
    Settle(q, dist, prev, queue0, trail, settled0, last, curr);
    LabelsWithinAllStops(q, dist, prev, trail, settled0);
    settled := settled0 + {curr.stop};
    if curr.stop.node == q.target {
      Explored(q, curr, dist, prev, queue, trail, settled, []);
    } else {
      ghost var high;
      dist, prev, queue, trail, high := Explore(q, curr, dist, prev, queue, trail, settled);
      Explored(q, curr, dist, prev, queue, trail, settled, q.g[curr.stop.node]);
      peak := if peak < high then high else peak;
    }
  }

  lemma SearchStarts(q: Query)
    requires ValidQuery(q)
    ensures Searching(q, map[q.start.stop := q.start.dist], map[], multiset{q.start},
                      map[q.start.stop := [q.start]], {}, q.start.dist)
  {
    assert LabelOk(q, map[q.start.stop := q.start.dist], map[], map[q.start.stop := [q.start]], {}, q.start.stop);
  }

  /** The main loop: labels every stop that can be reached. */
  method LabelStops(q: Query)
    returns (dist: Labels, prev: map<PathStop, PathStop>,
             ghost trail: map<PathStop, Path>, ghost settled: set<PathStop>, ghost last: nat, ghost peak: nat)
    requires ValidQuery(q) && q.start.stop.node != q.target
    ensures Searching(q, dist, prev, multiset{}, trail, settled, last)
    ensures peak <= Peak(q)
  {
    dist := map[q.start.stop := q.start.dist];
    prev := map[];
    var queue := multiset{q.start};
    trail, settled, last, peak := map[q.start.stop := [q.start]], {}, q.start.dist, 0;
    SearchStarts(q);
    while queue != multiset{}
      invariant Searching(q, dist, prev, queue, trail, settled, last)
      invariant peak <= Peak(q)
      decreases AllStops(q) - settled, queue
    {
      var curr, rest := PriorityQueue.PopLeast(queue, (p: PathStopDist) => p.dist);
      dist, prev, queue, trail, settled, peak := Turn(q, curr, dist, prev, rest, trail, settled, last, peak);
      last := curr.dist;
    }
  }

  /** The search. */
  method FastestPath(q: Query) returns (path: Path, ghost peak: nat)
    requires ValidQuery(q)
    ensures q.start.stop.node == q.target ==> path == [Cold(q.target)]
    ensures q.start.stop.node != q.target ==> (path == [] <==> Unreachable(q))
    ensures q.start.stop.node != q.target && path != [] ==> Optimal(q, path) && Loopless(path)
    ensures peak <= q.start.dist + Headroom(q.g)
  {
    peak := 0;
    RidesTimes(q.g, |Sources(q.g)| + 1);
    if q.start.stop.node == q.target {
      return [PathStopDist(PathStop(q.target, None), 0)], 0;
    }
    ghost var trail, settled, last;
    var dist, prev;
    dist, prev, trail, settled, last, peak := LabelStops(q);
    Conclude(q, dist, prev, trail, settled, last);
    var best := Nearest(dist, q.target);
    if best.None? {
      return [], peak;
    }
    path := WalkBack(q, dist, prev, best.value, trail, settled);
    assert LabelOk(q, dist, prev, trail, settled, best.value);
  }
}
