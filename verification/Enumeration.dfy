/** The enumeration of near-fastest paths: an adaptation of Yen's algorithm that
    stops at a travel-time ceiling instead of at a fixed number of paths. */
module Enumeration {
  import opened Wrappers
  import opened Graphs
  import opened Search
  import PriorityQueue

  ghost predicate DistinctStops(stops: seq<Id>) {
    forall i, j :: 0 <= i < j < |stops| ==> stops[i] != stops[j]
  }

  /** A valid graph none of whose routes visits a stop twice. */
  ghost predicate WellFormedGraph(g: Graph) {
    ValidGraph(g) && forall e :: e in Edges(g) ==> DistinctStops(e.route.stops)
  }

  /** The plain search from A to B. */
  function Direct(g: Graph, a: Id, b: Id): Query {
    Query(g, Cold(a), b, {})
  }

  /** A journey from A to B: a walk that reaches B only at its end. */
  ghost predicate Journey(g: Graph, a: Id, b: Id, w: Path) {
    IsWalkTo(g, {}, Cold(a), b, w) && Avoids(Init(w), b)
  }

  // ----- Only finitely many journeys fit under a ceiling -----

  ghost function MaxLength(es: set<GraphEdge>): (m: nat)
    ensures forall e :: e in es ==> |e.route.stops| <= m
  {
    if es == {} then 0
    else
      var e :| e in es;
      var m := MaxLength(es - {e});
      if m < |e.route.stops| then |e.route.stops| else m
  }

  ghost function Legs(g: Graph, n: nat): nat {
    if n == 0 then 0 else Legs(g, n - 1) + MaxLength(Edges(g))
  }

  /** Riding on along one route moves to its next position, so every stretch
      between two changes is shorter than the longest route. */
  lemma {:induction false} HopsPerChange(g: Graph, w: Path)
    requires WellFormedGraph(g) && IsWalk(g, {}, w) && |w| > 1
    ensures Last(w).stop.edge.Some?
    ensures |w| - 1 <= Legs(g, Changes(w)) + Last(w).stop.edge.value.idx + 1
    ensures Last(w).stop.edge.value.idx + 1 < MaxLength(Edges(g))
    decreases |w|
  {
    var v := Init(w);
    var e := Last(w).stop.edge.value;
    assert e in g[Last(v).stop.node] && e in Edges(g);
    assert EdgeOk(g, Last(v).stop.node, e);
    if |v| > 1 {
      HopsPerChange(g, v);
      var f := Last(v).stop.edge.value;
      assert f in g[Last(Init(v)).stop.node] && f in Edges(g);
      assert EdgeOk(g, Last(Init(v)).stop.node, f);
      if f.route == e.route {
        assert DistinctStops(e.route.stops);
        assert e.idx == f.idx + 1;
      }
    }
  }

  lemma {:induction false} LegsMonotone(g: Graph, m: nat, n: nat)
    requires m <= n
    ensures Legs(g, m) <= Legs(g, n)
    decreases n
  {
    if m < n {
      LegsMonotone(g, m, n - 1);
    }
  }

  ghost function LengthLimit(g: Graph, ceiling: nat): nat {
    Legs(g, ceiling / CHANGE_PENALTY) + MaxLength(Edges(g)) + 1
  }

  lemma WalkLength(g: Graph, w: Path, ceiling: nat)
    requires WellFormedGraph(g) && IsWalk(g, {}, w) && Last(w).dist <= ceiling
    ensures |w| <= LengthLimit(g, ceiling)
  {
    if |w| > 1 {
      HopsPerChange(g, w);
      WalkCost(g, {}, w);
      LegsMonotone(g, Changes(w), ceiling / CHANGE_PENALTY);
    }
  }

  ghost function SeqsUpTo<T(!new)>(alphabet: set<T>, n: nat): set<seq<T>> {
    if n == 0 then {[]}
    else {[]} + set x, s | x in alphabet && s in SeqsUpTo(alphabet, n - 1) :: [x] + s
  }

  lemma {:induction false} InSeqsUpTo<T(!new)>(alphabet: set<T>, n: nat, s: seq<T>)
    requires |s| <= n && forall x :: x in s ==> x in alphabet
    ensures s in SeqsUpTo(alphabet, n)
  {
    if s != [] {
      InSeqsUpTo(alphabet, n - 1, s[1..]);
      assert s == [s[0]] + s[1..];
    }
  }

  ghost function Entries(g: Graph, a: Id, ceiling: nat): set<PathStopDist> {
    set s, d | s in {Cold(a).stop} + (set e | e in Edges(g) :: Arrival(e)) && 0 <= d <= ceiling :: PathStopDist(s, d)
  }

  /** A finite set that holds every journey under the ceiling. */
  ghost function Universe(g: Graph, a: Id, ceiling: nat): set<Path> {
    SeqsUpTo(Entries(g, a, ceiling), LengthLimit(g, ceiling))
  }

  lemma FinitelyManyJourneys(g: Graph, a: Id, b: Id, ceiling: nat, w: Path)
    requires WellFormedGraph(g) && Journey(g, a, b, w) && Last(w).dist <= ceiling
    ensures w in Universe(g, a, ceiling)
  {
    forall p | p in w ensures p in Entries(g, a, ceiling) {
      var i :| 0 <= i < |w| && w[i] == p;
      WalkMonotone(g, {}, w, i, |w| - 1);
      if i > 0 {
        WalkHop(g, {}, w, i);
        assert w[i].stop.edge.value in g[w[i - 1].stop.node];
        assert p.stop.edge.value in Edges(g) && p.stop == Arrival(p.stop.edge.value);
      }
    }
    WalkLength(g, w, ceiling);
    InSeqsUpTo(Entries(g, a, ceiling), LengthLimit(g, ceiling), w);
  }

  // ----- Deviating from the latest path -----

  /** The next stops of the accepted paths that share the first `idx` stops. */
  function Removed(paths: seq<Path>, last: Path, idx: nat): set<PathStop>
    requires idx <= |last|
  {
    set p: Path | p in paths && idx + 1 < |p| && p[..idx] == last[..idx] :: p[idx + 1].stop
  }

  method RemovedStops(paths: seq<Path>, last: Path, idx: nat) returns (removed: set<PathStop>)
    requires idx <= |last|
    ensures removed == Removed(paths, last, idx)
    ensures forall s :: s in removed <==>
      exists p: Path :: p in paths && idx + 1 < |p| && p[..idx] == last[..idx] && p[idx + 1].stop == s
  {
    removed := {};
    for i := 0 to |paths|
      invariant removed == Removed(paths[..i], last, idx)
    {
      var path := paths[i];
      assert paths[..i + 1] == paths[..i] + [path];
      if idx + 1 < |path| && path[..idx] == last[..idx] {
        removed := removed + {path[idx + 1].stop};
      }
    }
    assert paths[..|paths|] == paths;
  }

  /** The search that looks for a way on from the stop `idx` of `last`. */
  function Spur(g: Graph, b: Id, paths: seq<Path>, last: Path, idx: nat): Query
    requires idx < |last|
  {
    Query(g, last[idx], b, Removed(paths, last, idx))
  }

  /** Root and spur join to a journey: the spur starts at the exact stop and
      time at which the root ends. */
  lemma SpliceIsWalk(g: Graph, a: Id, b: Id, paths: seq<Path>, last: Path, idx: nat, spur: Path)
    requires IsWalkTo(g, {}, Cold(a), b, last) && idx + 1 < |last|
    requires Answers(Spur(g, b, paths, last, idx), spur)
    ensures IsWalkTo(g, {}, Cold(a), b, last[..idx] + spur)
  {
    WalkPrefix(g, {}, last, idx + 1);
    WalkNarrow(g, Removed(paths, last, idx), spur);
    assert Init(last[..idx + 1]) == last[..idx];
    WalkJoin(g, {}, last[..idx + 1], spur);
  }

  lemma SpliceIsJourney(g: Graph, a: Id, b: Id, paths: seq<Path>, last: Path, idx: nat, spur: Path)
    requires Journey(g, a, b, last) && idx + 1 < |last|
    requires Answers(Spur(g, b, paths, last, idx), spur) && Loopless(spur)
    ensures Journey(g, a, b, last[..idx] + spur)
  {
    SpliceIsWalk(g, a, b, paths, last, idx, spur);
    var w := last[..idx] + spur;
    assert Init(w) == last[..idx] + Init(spur);
    forall p | p in Init(w) ensures p.stop.node != b {
      if p in last[..idx] {
        assert p in Init(last);
      }
    }
  }

  /** A deviation is new: were it accepted already, its stop after the spur
      stop would have been removed from the search. */
  lemma DeviationIsFresh(g: Graph, b: Id, paths: seq<Path>, last: Path, idx: nat, spur: Path)
    requires idx + 1 < |last| && last[idx].stop.node != b
    requires Answers(Spur(g, b, paths, last, idx), spur)
    ensures last[..idx] + spur !in paths
  {
    var w := last[..idx] + spur;
    WalkHop(g, Removed(paths, last, idx), spur, 1);
    assert w[idx + 1] == spur[1] && w[..idx] == last[..idx];
  }

  /** The search for a way on from the stop `idx` of the `j`-th path, when it
      was the latest one. */
  function SpurOf(g: Graph, b: Id, paths: seq<Path>, j: int, idx: int): Query
    requires 0 <= j < |paths| && 0 <= idx < |paths[j]|
  {
    Spur(g, b, paths[..j + 1], paths[j], idx)
  }

  ghost predicate SpurStop(paths: seq<Path>, j: int, idx: int) {
    0 <= j < |paths| && 0 <= idx && idx + 1 < |paths[j]|
  }

  /** `w` follows the `j`-th path up to its stop `idx`, and goes on from there in
      the fastest way that no path accepted by then has taken from that root. */
  ghost predicate DeviatesFrom(g: Graph, b: Id, paths: seq<Path>, j: int, idx: int, w: Path) {
    && SpurStop(paths, j, idx) && idx < |w|
    && w[..idx] == paths[j][..idx]
    && Optimal(SpurOf(g, b, paths, j, idx), w[idx..])
  }

  lemma DeviationStays(g: Graph, b: Id, paths: seq<Path>, more: seq<Path>, j: int, idx: int, w: Path)
    requires paths <= more && 0 <= j < |paths|
    ensures DeviatesFrom(g, b, paths, j, idx, w) <==> DeviatesFrom(g, b, more, j, idx, w)
  {
    hide Optimal;
    assert more[..j + 1] == paths[..j + 1] && more[j] == paths[j];
  }

  /** A deviation from the `j`-th path is none of the first `j` paths, nor that
      path, and no other way on is faster. */
  lemma DeviationIsBest(g: Graph, a: Id, b: Id, paths: seq<Path>, j: int, idx: int, w: Path)
    requires DeviatesFrom(g, b, paths, j, idx, w) && Journey(g, a, b, paths[j])
    ensures w != [] && w !in paths[..j + 1]
    ensures forall v :: Answers(SpurOf(g, b, paths, j, idx), v) ==> Last(w).dist <= Last(v).dist
  {
    assert paths[j][idx] == Init(paths[j])[idx];
    DeviationIsFresh(g, b, paths[..j + 1], paths[j], idx, w[idx..]);
    assert w == w[..idx] + w[idx..];
  }

  ghost predicate Candidate(g: Graph, a: Id, b: Id, paths: seq<Path>, w: Path) {
    Journey(g, a, b, w) && exists j, idx :: DeviatesFrom(g, b, paths, j, idx, w)
  }

  /** If there is a way on from that stop, a best one is queued or accepted. */
  ghost predicate Tried(g: Graph, b: Id, paths: seq<Path>, queue: multiset<Path>, j: int, idx: int)
    requires SpurStop(paths, j, idx)
  {
    || Unreachable(SpurOf(g, b, paths, j, idx))
    || exists w :: (w in queue || w in paths) && DeviatesFrom(g, b, paths, j, idx, w)
  }

  /** The queue holds deviations only. */
  ghost predicate Candidates(g: Graph, a: Id, b: Id, paths: seq<Path>, queue: multiset<Path>) {
    forall w :: w in queue ==> Candidate(g, a, b, paths, w)
  }

  /** All stops of the first `n` paths have been tried, and of the next path
      those before `m`. */
  ghost predicate AllTried(g: Graph, b: Id, paths: seq<Path>, queue: multiset<Path>, n: int, m: int) {
    forall j, idx {:trigger SpurStop(paths, j, idx)} ::
      SpurStop(paths, j, idx) && (j < n || (j == n && idx < m)) ==> Tried(g, b, paths, queue, j, idx)
  }

  lemma TriedGrows(g: Graph, b: Id, paths: seq<Path>, more: seq<Path>, q0: multiset<Path>, q1: multiset<Path>,
                   j: int, idx: int)
    requires paths <= more && (forall w :: w in q0 ==> w in q1 || w in more)
    requires SpurStop(paths, j, idx) && Tried(g, b, paths, q0, j, idx)
    ensures Tried(g, b, more, q1, j, idx)
  {
    hide DeviatesFrom, Answers;
    assert more[..j + 1] == paths[..j + 1] && more[j] == paths[j];
    if w :| (w in q0 || w in paths) && DeviatesFrom(g, b, paths, j, idx, w) {
      DeviationStays(g, b, paths, more, j, idx, w);
      assert w in paths ==> w in more;
    }
  }

  /** Tries one stop of the latest path. */
  method Deviate(g: Graph, a: Id, b: Id, paths: seq<Path>, idx: nat, queue0: multiset<Path>)
    returns (queue: multiset<Path>, ghost peak: nat)
    requires ValidGraph(g) && a in g && SpurStop(paths, |paths| - 1, idx) && Journey(g, a, b, paths[|paths| - 1])
    requires Candidates(g, a, b, paths, queue0)
    ensures Candidates(g, a, b, paths, queue) && queue0 <= queue && |queue| <= |queue0| + 1
    ensures Tried(g, b, paths, queue, |paths| - 1, idx)
    ensures peak <= Last(paths[|paths| - 1]).dist + Headroom(g)
  {
    hide ValidGraph, Removed, Loopless, Headroom, Candidate, Journey;
    var last := paths[|paths| - 1];
    LatestSpur(g, a, b, paths, idx);
    var removed := RemovedStops(paths, last, idx);
    var q := Query(g, last[idx], b, removed);
    var spur;
    spur, peak := FastestPath(q);
    if spur == [] {
      return queue0, peak;
    }
    var w := last[..idx] + spur;
    SpliceDeviates(g, a, b, paths, idx, spur);
    queue := queue0 + multiset{w};
    assert w in queue;
  }

  lemma LatestSpur(g: Graph, a: Id, b: Id, paths: seq<Path>, idx: nat)
    requires ValidGraph(g) && a in g && SpurStop(paths, |paths| - 1, idx) && Journey(g, a, b, paths[|paths| - 1])
    ensures var last := paths[|paths| - 1];
            && SpurOf(g, b, paths, |paths| - 1, idx) == Query(g, last[idx], b, Removed(paths, last, idx))
            && last[idx].stop.node in g && last[idx].stop.node != b && last[idx].dist <= Last(last).dist
  {
    hide ValidGraph, Removed;
    var last := paths[|paths| - 1];
    assert paths[..|paths|] == paths;
    WalkStaysInGraph(g, {}, last, idx);
    WalkMonotone(g, {}, last, idx, |last| - 1);
    assert last[idx] == Init(last)[idx];
  }

  lemma SpliceDeviates(g: Graph, a: Id, b: Id, paths: seq<Path>, idx: nat, spur: Path)
    requires SpurStop(paths, |paths| - 1, idx) && Journey(g, a, b, paths[|paths| - 1])
    requires Optimal(SpurOf(g, b, paths, |paths| - 1, idx), spur) && Loopless(spur)
    ensures DeviatesFrom(g, b, paths, |paths| - 1, idx, paths[|paths| - 1][..idx] + spur)
    ensures Candidate(g, a, b, paths, paths[|paths| - 1][..idx] + spur)
  {
    hide Loopless, Journey;
    var last := paths[|paths| - 1];
    var w := last[..idx] + spur;
    assert paths[..|paths|] == paths;
    SpliceIsJourney(g, a, b, paths, last, idx, spur);
    assert w[idx..] == spur && w[..idx] == last[..idx];
  }

  /** Tries every stop of the latest path but its last. */
  method Deviations(g: Graph, a: Id, b: Id, paths: seq<Path>, queue0: multiset<Path>)
    returns (queue: multiset<Path>, ghost peak: nat)
    requires ValidGraph(g) && a in g && paths != [] && Journey(g, a, b, paths[|paths| - 1])
    requires Candidates(g, a, b, paths, queue0) && AllTried(g, b, paths, queue0, |paths| - 1, 0)
    ensures Candidates(g, a, b, paths, queue) && AllTried(g, b, paths, queue, |paths|, 0)
    ensures peak <= Last(paths[|paths| - 1]).dist + Headroom(g)
  {
    hide Headroom, Candidates, Tried, ValidGraph;
    queue, peak := queue0, 0;
    for idx := 0 to |paths[|paths| - 1]| - 1
      invariant Candidates(g, a, b, paths, queue) && AllTried(g, b, paths, queue, |paths| - 1, idx)
      invariant peak <= Last(paths[|paths| - 1]).dist + Headroom(g)
    {
      var next;
      ghost var high;
      next, high := Deviate(g, a, b, paths, idx, queue);
      peak := if peak < high then high else peak;
      forall j, i | SpurStop(paths, j, i) && (j < |paths| - 1 || (j == |paths| - 1 && i < idx + 1))
        ensures Tried(g, b, paths, next, j, i)
      {
        if j < |paths| - 1 || i < idx {
          TriedGrows(g, b, paths, paths, queue, next, j, i);
        }
      }
      queue := next;
    }
  }

  /** Takes candidates off the queue until one is new, or too slow. */
  method NextPath(paths: seq<Path>, queue0: multiset<Path>, ceiling: int)
    returns (next: Option<Path>, queue: multiset<Path>)
    requires forall w :: w in queue0 ==> w != []
    ensures queue <= queue0
    ensures next.Some? ==> forall w :: w in queue0 ==> w in queue || w in paths || w == next.value
    ensures next.Some? ==> next.value in queue0 && next.value !in paths && Last(next.value).dist <= ceiling
    ensures next.Some? ==>
      forall w :: w in queue0 && w !in paths ==> Last(next.value).dist <= Last(w).dist
    ensures next.None? ==> forall w :: w in queue0 && Last(w).dist <= ceiling ==> w in paths
  {
    queue := queue0;
    while queue != multiset{}
      invariant queue <= queue0
      invariant forall w :: w in queue0 ==> w in queue || w in paths
      decreases queue
    {
      var top;
      top, queue := PriorityQueue.PopLeast(queue, (w: Path) => if w == [] then 0 else Last(w).dist);
      assert top in queue0;
      if Last(top).dist > ceiling {
        break;
      }
      if top !in paths {
        return Some(top), queue;
      }
    }
    return None, queue;
  }

  // ----- The enumeration -----

  ghost predicate Distinct<T(!new)>(s: seq<T>) {
    forall i, j :: 0 <= i < j < |s| ==> s[i] != s[j]
  }

  /** The ceiling: the fastest time increased by the allowed slowdown, cut to
      a whole number. */
  function Ceiling(fastest: nat, maxSlowdownPc: real): int {
    (fastest as real * (1.0 + maxSlowdownPc)).Floor
  }

  /** A time is under the ceiling exactly if it is at most the fastest one
      increased by the slowdown. */
  lemma CeilingMeans(fastest: nat, maxSlowdownPc: real, t: int)
    ensures t <= Ceiling(fastest, maxSlowdownPc) <==> t as real <= fastest as real * (1.0 + maxSlowdownPc)
    ensures maxSlowdownPc >= 0.0 ==> fastest <= Ceiling(fastest, maxSlowdownPc)
  {
    var d := fastest as real;
    var limit := d * (1.0 + maxSlowdownPc);
    assert t <= limit.Floor ==> t as real <= limit.Floor as real <= limit;
    assert limit == d + d * maxSlowdownPc;
    if maxSlowdownPc >= 0.0 {
      assert d * maxSlowdownPc >= 0.0;
    }
  }

  /** `v` goes on from a stop of the `j`-th path, as no path accepted by then
      with the same root has. */
  ghost predicate WayOn(g: Graph, b: Id, paths: seq<Path>, j: int, idx: int, v: Path) {
    SpurStop(paths, j, idx) && v != [] && Answers(SpurOf(g, b, paths, j, idx), v)
  }

  /** A best way on from that stop was accepted before the `k`-th path. */
  ghost predicate Taken(g: Graph, b: Id, paths: seq<Path>, j: int, idx: int, k: int)
    requires k <= |paths|
  {
    exists i :: 0 <= j < i < k && DeviatesFrom(g, b, paths, j, idx, paths[i])
  }

  /** The `k`-th path deviates from one before it, and no way on from a path
      before it was faster, unless a best one had been accepted already. */
  ghost predicate InTurn(g: Graph, b: Id, paths: seq<Path>, k: int)
    requires 0 < k < |paths| && paths[k] != []
  {
    && (exists j, idx :: j < k && DeviatesFrom(g, b, paths, j, idx, paths[k]))
    && (forall j, idx, v :: j < k && WayOn(g, b, paths, j, idx, v) ==>
          Last(paths[k]).dist <= Last(v).dist || Taken(g, b, paths, j, idx, k))
  }

  /** Every way on under the ceiling, from any of the paths, has been taken. */
  ghost predicate Exhausted(g: Graph, b: Id, ceiling: int, paths: seq<Path>) {
    forall j, idx, v :: WayOn(g, b, paths, j, idx, v) && Last(v).dist <= ceiling ==>
                          Taken(g, b, paths, j, idx, |paths|)
  }

  ghost predicate AllInTurn(g: Graph, b: Id, paths: seq<Path>) {
    forall k {:trigger paths[k]} :: 0 < k < |paths| ==> paths[k] != [] && InTurn(g, b, paths, k)
  }

  /** What the caller of the enumeration may rely on. */
  ghost predicate Enumerated(g: Graph, a: Id, b: Id, maxSlowdownPc: real, maxNPaths: nat, paths: seq<Path>) {
    && (paths == [] <==> Unreachable(Direct(g, a, b)))
    && Distinct(paths)
    && |paths| <= (if maxNPaths == 0 then 1 else maxNPaths)
    && (paths != [] ==>
          && Optimal(Direct(g, a, b), paths[0])
          && (forall i :: 0 <= i < |paths| ==>
                && Journey(g, a, b, paths[i])
                && Last(paths[0]).dist <= Last(paths[i]).dist
                && (i > 0 ==> Last(paths[i]).dist <= Ceiling(Last(paths[0]).dist, maxSlowdownPc)))
          && AllInTurn(g, b, paths)
          && (|paths| < maxNPaths ==> Exhausted(g, b, Ceiling(Last(paths[0]).dist, maxSlowdownPc), paths)))
  }

  /** A loopless journey other than the fastest path, under the ceiling. */
  ghost predicate Alternative(g: Graph, a: Id, b: Id, ceiling: int, fastest: Path, w: Path) {
    IsWalkTo(g, {}, Cold(a), b, w) && Loopless(w) && w != fastest && Last(w).dist <= ceiling
  }

  /** If there is a loopless alternative, then a second path is found, and no
      loopless alternative is faster than it. */
  ghost predicate SecondIsBest(g: Graph, a: Id, b: Id, ceiling: int, paths: seq<Path>)
    requires paths != []
  {
    forall w :: Alternative(g, a, b, ceiling, paths[0], w) ==>
                  |paths| >= 2 && paths[1] != [] && Last(paths[1]).dist <= Last(w).dist
  }

  lemma {:induction false} CommonPrefix(v: Path, w: Path) returns (k: nat)
    requires v != [] && w != [] && v[0] == w[0]
    ensures 0 < k <= |v| && k <= |w| && v[..k] == w[..k]
    ensures k == |v| || k == |w| || v[k] != w[k]
  {
    k := 1;
    while k < |v| && k < |w| && v[k] == w[k]
      invariant 0 < k <= |v| && k <= |w| && v[..k] == w[..k]
    {
      assert v[..k + 1] == v[..k] + [v[k]] && w[..k + 1] == w[..k] + [w[k]];
      k := k + 1;
    }
  }

  lemma {:induction false} LooplessAt(w: Path, i: nat, j: nat)
    requires Loopless(w) && i < j < |w|
    ensures w[i].stop.node != w[j].stop.node
  {
    LooplessMeans(w);
  }

  /** A journey does not go on past its target. */
  lemma NoProperPrefix(v: Path, w: Path, b: Id)
    requires v != [] && |v| <= |w| && v == w[..|v|] && Last(v).stop.node == b
    ensures Avoids(Init(w), b) ==> v == w
  {
    if |v| < |w| {
      assert Last(v) == Init(w)[|v| - 1];
    }
  }

  /** An edge out of the station of `w[i]` is not taken later on a loopless walk. */
  lemma NotTakenLater(g: Graph, w: Path, i: nat, j: nat, e: GraphEdge)
    requires ValidGraph(g) && IsWalk(g, {}, w) && Loopless(w) && i + 1 < j < |w|
    requires w[i].stop.node in g && e in g[w[i].stop.node]
    ensures w[j].stop.edge != Some(e)
  {
    WalkHop(g, {}, w, j);
    LooplessAt(w, i, j - 1);
    SourceOf(g, w[i].stop.node, w[j - 1].stop.node, e);
  }

  /** Where a loopless alternative leaves the fastest path, it is a way on that
      the search from there may take: it cannot use the removed stop later,
      because that would mean leaving the spur station a second time. */
  lemma AlternativeIsSpur(g: Graph, a: Id, b: Id, ceiling: int, fastest: Path, w: Path)
    returns (idx: nat)
    requires ValidGraph(g) && Journey(g, a, b, fastest) && Alternative(g, a, b, ceiling, fastest, w)
    ensures idx + 1 < |fastest| && idx < |w|
    ensures Answers(Spur(g, b, [fastest], fastest, idx), w[idx..])
  {
    hide ValidGraph, Loopless;
    var k := PartingStop(g, a, b, fastest, w);
    idx := k - 1;
    assert w[idx] == w[..k][idx] == fastest[..k][idx] == fastest[idx];
    assert Removed([fastest], fastest, idx) == {fastest[k].stop};
    LeavesFor(g, fastest, w, k);
    WalkSuffix(g, {}, w, idx);
  }

  /** Two journeys part before either of them ends. */
  lemma PartingStop(g: Graph, a: Id, b: Id, v: Path, w: Path) returns (k: nat)
    requires Journey(g, a, b, v) && IsWalkTo(g, {}, Cold(a), b, w) && Loopless(w) && v != w
    ensures 0 < k < |v| && k < |w| && v[..k] == w[..k] && v[k] != w[k]
  {
    k := CommonPrefix(v, w);
    if k == |v| {
      NoProperPrefix(v, w, b);
    } else if k == |w| {
      NoProperPrefix(w, v, b);
    }
  }

  /** A loopless walk that parts from another one at stop `k` never takes the
      edge that the other one took there. */
  lemma LeavesFor(g: Graph, v: Path, w: Path, k: nat)
    requires ValidGraph(g) && IsWalk(g, {}, v) && IsWalk(g, {}, w) && Loopless(w)
    requires 0 < k < |v| && k < |w| && v[k - 1] == w[k - 1] && v[k] != w[k]
    ensures IsWalk(g, {v[k].stop}, w[k - 1..])
  {
    hide ValidGraph, Loopless;
    WalkHop(g, {}, v, k);
    WalkHop(g, {}, w, k);
    WalkSuffix(g, {}, w, k - 1);
    var u := w[k - 1..];
    forall j | 0 < j < |u| ensures u[j].stop !in {v[k].stop} {
      if j > 1 {
        NotTakenLater(g, w, k - 1, k - 1 + j, v[k].stop.edge.value);
      }
    }
    WalkExcluding(g, {v[k].stop}, u);
  }

  lemma {:induction false} WalkExcluding(g: Graph, excluded: set<PathStop>, w: Path)
    requires IsWalk(g, {}, w) && forall j :: 0 < j < |w| ==> w[j].stop !in excluded
    ensures IsWalk(g, excluded, w)
    decreases |w|
  {
    if |w| > 1 {
      assert forall j :: 0 < j < |Init(w)| ==> Init(w)[j] == w[j];
      WalkExcluding(g, excluded, Init(w));
    }
  }

  /** All accepted paths so far, and all candidates, are in order. */
  ghost predicate Accepted(g: Graph, a: Id, b: Id, ceiling: int, paths: seq<Path>) {
    && paths != [] && Distinct(paths)
    && Optimal(Direct(g, a, b), paths[0])
    && (forall i :: 0 <= i < |paths| ==>
          Journey(g, a, b, paths[i]) && (i > 0 ==> Last(paths[i]).dist <= ceiling))
    && AllInTurn(g, b, paths)
  }

  lemma FastestIsJourney(g: Graph, a: Id, b: Id, fastest: Path)
    requires a == b ==> fastest == [Cold(b)]
    requires a != b ==> (fastest == [] <==> Unreachable(Direct(g, a, b)))
    requires a != b && fastest != [] ==> Optimal(Direct(g, a, b), fastest) && Loopless(fastest)
    ensures fastest == [] <==> Unreachable(Direct(g, a, b))
    ensures fastest != [] ==> Optimal(Direct(g, a, b), fastest) && Journey(g, a, b, fastest)
  {
    if a == b {
      assert Answers(Direct(g, a, b), fastest);
    }
  }

  ghost function Members<T(!new)>(s: seq<T>): set<T> {
    set x | x in s
  }

  /** The journeys under the ceiling that are not accepted yet. */
  ghost function Unseen(g: Graph, a: Id, ceiling: int, paths: seq<Path>): set<Path> {
    if ceiling < 0 then {} else Universe(g, a, ceiling) - Members(paths)
  }

  lemma Accept(g: Graph, a: Id, b: Id, ceiling: int, paths: seq<Path>, w: Path)
    requires WellFormedGraph(g) && Accepted(g, a, b, ceiling, paths)
    requires Journey(g, a, b, w) && w !in paths && Last(w).dist <= ceiling
    requires InTurn(g, b, paths + [w], |paths|)
    ensures Accepted(g, a, b, ceiling, paths + [w])
    ensures Unseen(g, a, ceiling, paths + [w]) < Unseen(g, a, ceiling, paths)
  {
    hide InTurn, Optimal;
    FinitelyManyJourneys(g, a, b, ceiling, w);
    assert w in Members(paths + [w]) && w !in Members(paths);
    assert Members(paths + [w]) == Members(paths) + {w};
    AllStayInTurn(g, b, paths, w);
  }

  lemma AllStayInTurn(g: Graph, b: Id, paths: seq<Path>, w: Path)
    requires paths != [] && w != [] && AllInTurn(g, b, paths) && InTurn(g, b, paths + [w], |paths|)
    ensures AllInTurn(g, b, paths + [w])
  {
    hide InTurn;
    var more := paths + [w];
    forall k | 0 < k < |more| ensures more[k] != [] && InTurn(g, b, more, k) {
      if k < |paths| {
        assert paths[k] == more[k];
        InTurnStays(g, b, paths, w, k);
      }
    }
  }

  lemma InTurnStays(g: Graph, b: Id, paths: seq<Path>, w: Path, k: int)
    requires 0 < k < |paths| && paths[k] != [] && InTurn(g, b, paths, k)
    ensures InTurn(g, b, paths + [w], k)
  {
    hide DeviatesFrom, Answers;
    var more := paths + [w];
    var j, idx :| j < k && DeviatesFrom(g, b, paths, j, idx, paths[k]);
    DeviationIndex(g, b, paths, j, idx, paths[k]);
    DeviationStays(g, b, paths, more, j, idx, paths[k]);
    forall j, idx, v | j < k && WayOn(g, b, more, j, idx, v)
      ensures Last(more[k]).dist <= Last(v).dist || Taken(g, b, more, j, idx, k)
    {
      assert more[..j + 1] == paths[..j + 1];
      assert WayOn(g, b, paths, j, idx, v);
      if i :| 0 <= j < i < k && DeviatesFrom(g, b, paths, j, idx, paths[i]) {
        DeviationStays(g, b, paths, more, j, idx, paths[i]);
        assert more[i] == paths[i];
      }
    }
  }

  lemma DeviationIndex(g: Graph, b: Id, paths: seq<Path>, j: int, idx: int, w: Path)
    requires DeviatesFrom(g, b, paths, j, idx, w)
    ensures SpurStop(paths, j, idx)
  {
  }

  /** The fastest candidate comes in turn. */
  lemma NextInTurn(g: Graph, a: Id, b: Id, paths: seq<Path>, queue: multiset<Path>, w: Path)
    requires paths != [] && forall i :: 0 <= i < |paths| ==> Journey(g, a, b, paths[i])
    requires w != [] && Candidate(g, a, b, paths, w) && AllTried(g, b, paths, queue, |paths|, 0)
    requires forall c :: c in queue ==> c != []
    requires forall c :: c in queue && c !in paths ==> Last(w).dist <= Last(c).dist
    ensures InTurn(g, b, paths + [w], |paths|)
  {
    hide DeviatesFrom, Answers, IsWalk;
    var n, more := |paths|, paths + [w];
    var j, idx :| DeviatesFrom(g, b, paths, j, idx, w);
    DeviationIndex(g, b, paths, j, idx, w);
    DeviationStays(g, b, paths, more, j, idx, w);
    forall j, idx, v | j < n && WayOn(g, b, more, j, idx, v)
      ensures Last(w).dist <= Last(v).dist || Taken(g, b, more, j, idx, n)
    {
      assert more[..j + 1] == paths[..j + 1];
      assert WayOn(g, b, paths, j, idx, v);
      var i := BestKnown(g, a, b, paths, queue, j, idx, v);
      if i.Some? {
        DeviationStays(g, b, paths, more, j, idx, paths[i.value]);
        assert more[i.value] == paths[i.value];
      }
    }
  }

  /** For every way on, a deviation that is no slower has been accepted, or is
      queued and new. */
  lemma BestKnown(g: Graph, a: Id, b: Id, paths: seq<Path>, queue: multiset<Path>, j: int, idx: int, v: Path)
    returns (i: Option<int>)
    requires forall i :: 0 <= i < |paths| ==> Journey(g, a, b, paths[i])
    requires AllTried(g, b, paths, queue, |paths|, 0) && WayOn(g, b, paths, j, idx, v)
    ensures i.Some? ==> 0 <= j < i.value < |paths| && DeviatesFrom(g, b, paths, j, idx, paths[i.value])
    ensures i.None? ==> exists c :: c in queue && c !in paths && c != [] && Last(c).dist <= Last(v).dist
  {
    hide DeviatesFrom, Answers, IsWalk;
    assert Tried(g, b, paths, queue, j, idx);
    var c :| (c in queue || c in paths) && DeviatesFrom(g, b, paths, j, idx, c);
    DeviationIsBest(g, a, b, paths, j, idx, c);
    if c in paths {
      assert forall k :: 0 <= k <= j ==> paths[k] in paths[..j + 1];
      var k :| 0 <= k < |paths| && paths[k] == c;
      return Some(k);
    }
    return None;
  }

  /** If no candidate under the ceiling is new, every way on has been taken. */
  lemma NoneLeft(g: Graph, a: Id, b: Id, ceiling: int, paths: seq<Path>, queue: multiset<Path>)
    requires forall i :: 0 <= i < |paths| ==> Journey(g, a, b, paths[i])
    requires AllTried(g, b, paths, queue, |paths|, 0)
    requires forall c :: c in queue && c != [] && Last(c).dist <= ceiling ==> c in paths
    ensures Exhausted(g, b, ceiling, paths)
  {
    hide DeviatesFrom, Answers, IsWalk;
    forall j, idx, v | WayOn(g, b, paths, j, idx, v) && Last(v).dist <= ceiling
      ensures Taken(g, b, paths, j, idx, |paths|)
    {
      var i := BestKnown(g, a, b, paths, queue, j, idx, v);
    }
  }

  /** One round: deviates from the latest path, and takes the next path. */
  method Round(g: Graph, a: Id, b: Id, ceiling: int, paths: seq<Path>, queue0: multiset<Path>)
    returns (next: Option<Path>, queue: multiset<Path>, ghost peak: nat)
    requires ValidGraph(g) && a in g && Accepted(g, a, b, ceiling, paths)
    requires Candidates(g, a, b, paths, queue0) && AllTried(g, b, paths, queue0, |paths| - 1, 0)
    ensures next.Some? ==>
      && next.value !in paths && Journey(g, a, b, next.value) && Last(next.value).dist <= ceiling
      && InTurn(g, b, paths + [next.value], |paths|)
      && Candidates(g, a, b, paths + [next.value], queue)
      && AllTried(g, b, paths + [next.value], queue, |paths|, 0)
    ensures next.None? ==> Exhausted(g, b, ceiling, paths)
    ensures peak <= Last(paths[|paths| - 1]).dist + Headroom(g)
  {
    hide Headroom, ValidGraph, Tried, InTurn, Exhausted, AllTried, DeviatesFrom, Optimal;
    var pushed;
    pushed, peak := Deviations(g, a, b, paths, queue0);
    assert forall w :: w in pushed ==> Candidate(g, a, b, paths, w);
    next, queue := NextPath(paths, pushed, ceiling);
    if next.Some? {
      NextInTurn(g, a, b, paths, pushed, next.value);
      RoundOver(g, a, b, paths, pushed, next.value, queue);
    } else {
      NoneLeft(g, a, b, ceiling, paths, pushed);
    }
  }

  lemma RoundOver(g: Graph, a: Id, b: Id, paths: seq<Path>, q0: multiset<Path>, w: Path, q1: multiset<Path>)
    requires Candidates(g, a, b, paths, q0) && AllTried(g, b, paths, q0, |paths|, 0)
    requires q1 <= q0 && forall c :: c in q0 ==> c in q1 || c in paths || c == w
    ensures Candidates(g, a, b, paths + [w], q1) && AllTried(g, b, paths + [w], q1, |paths|, 0)
  {
    hide DeviatesFrom, Journey, Tried;
    var more := paths + [w];
    forall c | c in q1 ensures Candidate(g, a, b, more, c) {
      assert c in q0;
      var j, idx :| DeviatesFrom(g, b, paths, j, idx, c);
      DeviationIndex(g, b, paths, j, idx, c);
      DeviationStays(g, b, paths, more, j, idx, c);
    }
    forall j, idx | SpurStop(more, j, idx) && j < |paths| ensures Tried(g, b, more, q1, j, idx) {
      assert SpurStop(paths, j, idx);
      TriedGrows(g, b, paths, more, q0, q1, j, idx);
    }
  }

  /** Every sum so far was part of a search that set out from an accepted path. */
  ghost predicate WithinReach(g: Graph, paths: seq<Path>, peak: nat) {
    exists w :: w in paths && w != [] && peak <= Last(w).dist + Headroom(g)
  }

  lemma ReachRises(g: Graph, paths: seq<Path>, peak: nat, high: nat)
    requires WithinReach(g, paths, peak) && paths[|paths| - 1] != []
    requires high <= Last(paths[|paths| - 1]).dist + Headroom(g)
    ensures WithinReach(g, paths, if peak < high then high else peak)
  {
    hide Headroom;
    assert paths[|paths| - 1] in paths;
  }

  lemma ReachGrows(g: Graph, paths: seq<Path>, peak: nat, w: Path)
    requires WithinReach(g, paths, peak)
    ensures WithinReach(g, paths + [w], peak)
  {
    hide Headroom;
    var v :| v in paths && v != [] && peak <= Last(v).dist + Headroom(g);
    assert v in paths + [w];
  }

  /** No sum of the whole enumeration overflows 32 bits, if one longest ride
      for every edge and one more still fit after the ceiling. */
  lemma EnumerationFits32(g: Graph, a: Id, b: Id, maxSlowdownPc: real, maxNPaths: nat, paths: seq<Path>, peak: nat)
    requires ValidGraph(g) && maxSlowdownPc >= 0.0
    requires Enumerated(g, a, b, maxSlowdownPc, maxNPaths, paths)
    requires if paths == [] then peak <= Headroom(g) else WithinReach(g, paths, peak)
    requires (if paths == [] then 0 else Ceiling(Last(paths[0]).dist, maxSlowdownPc))
             + (|Edges(g)| + 1) * (MaxTime(Edges(g)) + 5) < 0x1_0000_0000
    ensures peak < 0x1_0000_0000
  {
    hide Headroom, ValidGraph, Ceiling;
    if paths == [] {
      SumsFit32(g, 0, peak);
    } else {
      CeilingMeans(Last(paths[0]).dist, maxSlowdownPc, 0);
      var w :| w in paths && w != [] && peak <= Last(w).dist + Headroom(g);
      SumsFit32(g, Last(w).dist, peak);
    }
  }

  method FastestPaths(g: Graph, a: Id, b: Id, maxSlowdownPc: real, maxNPaths: nat)
    returns (paths: seq<Path>, ghost peak: nat)
    requires WellFormedGraph(g) && a in g && b in g
    ensures Enumerated(g, a, b, maxSlowdownPc, maxNPaths, paths)
    ensures paths != [] && maxNPaths >= 2 ==>
      SecondIsBest(g, a, b, Ceiling(Last(paths[0]).dist, maxSlowdownPc), paths)
    ensures if paths == [] then peak <= Headroom(g) else WithinReach(g, paths, peak)
  {
    hide SecondIsBest, Unseen, Ceiling, Headroom, WithinReach, Candidates, AllTried, InTurn, Exhausted;
    var fastest;
    fastest, peak := FastestPath(Direct(g, a, b));
    FastestIsJourney(g, a, b, fastest);
    if fastest == [] {
      return [], peak;
    }
    paths := [fastest];
    var queue := multiset{};
    var ceiling := Ceiling(Last(fastest).dist, maxSlowdownPc);
    ReachStarts(g, fastest, peak);
    NothingTried(g, a, b, fastest);
    while |paths| < maxNPaths
      invariant Accepted(g, a, b, ceiling, paths) && paths[0] == fastest
      invariant |paths| <= (if maxNPaths == 0 then 1 else maxNPaths)
      invariant Candidates(g, a, b, paths, queue) && AllTried(g, b, paths, queue, |paths| - 1, 0)
      invariant WithinReach(g, paths, peak)
      decreases Unseen(g, a, ceiling, paths)
    {
      var next;
      ghost var high;
      next, queue, high := Round(g, a, b, ceiling, paths, queue);
      ReachRises(g, paths, peak, high);
      peak := if peak < high then high else peak;
      if next.None? {
        break;
      }
      Accept(g, a, b, ceiling, paths, next.value);
      ReachGrows(g, paths, peak, next.value);
      paths := paths + [next.value];
    }
    if maxNPaths >= 2 {
      SecondPath(g, a, b, maxSlowdownPc, maxNPaths, paths);
    }
  }

  /** An enumeration that ends early leaves no way on from the latest path
      under the ceiling. */
  lemma EndsWhenTooSlow(g: Graph, a: Id, b: Id, maxSlowdownPc: real, maxNPaths: nat, paths: seq<Path>,
                        idx: nat, v: Path)
    requires Enumerated(g, a, b, maxSlowdownPc, maxNPaths, paths) && 0 < |paths| < maxNPaths
    requires idx + 1 < |paths[|paths| - 1]| && Answers(Spur(g, b, paths, paths[|paths| - 1], idx), v)
    ensures v != [] && Last(v).dist as real > Last(paths[0]).dist as real * (1.0 + maxSlowdownPc)
  {
    hide Ceiling, DeviatesFrom, Removed, AllInTurn;
    assert paths[..|paths|] == paths;
    assert WayOn(g, b, paths, |paths| - 1, idx, v);
    CeilingMeans(Last(paths[0]).dist, maxSlowdownPc, Last(v).dist);
  }

  /** No way on from the latest path is faster than the path accepted next. */
  lemma NextIsNoSlower(g: Graph, a: Id, b: Id, maxSlowdownPc: real, maxNPaths: nat, paths: seq<Path>,
                       k: nat, idx: nat, v: Path)
    requires Enumerated(g, a, b, maxSlowdownPc, maxNPaths, paths) && 0 < k < |paths|
    requires idx + 1 < |paths[k - 1]| && Answers(Spur(g, b, paths[..k], paths[k - 1], idx), v)
    ensures v != [] && Last(paths[k]).dist <= Last(v).dist
  {
    hide Ceiling, DeviatesFrom, Removed;
    assert WayOn(g, b, paths, k - 1, idx, v);
    assert InTurn(g, b, paths, k);
  }

  lemma NothingTried(g: Graph, a: Id, b: Id, fastest: Path)
    ensures Candidates(g, a, b, [fastest], multiset{}) && AllTried(g, b, [fastest], multiset{}, 0, 0)
  {
  }

  /** A loopless alternative to the fastest path is a way on from it, so the
      second path is no slower. */
  lemma SecondPath(g: Graph, a: Id, b: Id, maxSlowdownPc: real, maxNPaths: nat, paths: seq<Path>)
    requires ValidGraph(g) && Enumerated(g, a, b, maxSlowdownPc, maxNPaths, paths) && paths != [] && maxNPaths >= 2
    ensures SecondIsBest(g, a, b, Ceiling(Last(paths[0]).dist, maxSlowdownPc), paths)
  {
    hide ValidGraph, Ceiling, DeviatesFrom, Answers, Loopless;
    var ceiling := Ceiling(Last(paths[0]).dist, maxSlowdownPc);
    forall w | Alternative(g, a, b, ceiling, paths[0], w)
      ensures |paths| >= 2 && Last(paths[1]).dist <= Last(w).dist
    {
      var idx := AlternativeIsSpur(g, a, b, ceiling, paths[0], w);
      assert paths[..1] == [paths[0]];
      assert Last(w[idx..]) == Last(w);
      assert WayOn(g, b, paths, 0, idx, w[idx..]);
      assert |paths| >= 2 ==> paths[1] != [] && InTurn(g, b, paths, 1);
    }
  }

  lemma ReachStarts(g: Graph, w: Path, peak: nat)
    requires w != [] && peak <= Headroom(g)
    ensures WithinReach(g, [w], peak)
  {
    hide Headroom;
    assert w in [w];
  }
}
