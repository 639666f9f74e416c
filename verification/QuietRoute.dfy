/** The choice of a quiet path among the near-fastest ones. */
module QuietRoute {
  import opened Graphs

  type Counts = map<Id, int>

  const WORD: nat := 0x1_0000_0000

  /** Conversion to a 32-bit unsigned integer. */
  function Wrap(n: int): (r: nat)
    ensures r < WORD
  {
    n % WORD
  }

  ghost function Passengers(counts: Counts, path: Path): int {
    if path == [] then 0
    else Passengers(counts, Init(path)) +
         if Last(path).stop.node in counts then counts[Last(path).stop.node] else 0
  }

  ghost function Crowding(counts: Counts, path: Path): nat {
    Wrap(Passengers(counts, path))
  }

  lemma WrapAdd(a: int, b: int)
    ensures Wrap(Wrap(a) + b) == Wrap(a + b)
  {
    var k := a / WORD;
    assert a == k * WORD + Wrap(a);
    assert (Wrap(a) + b) % WORD == (Wrap(a) + b + k * WORD) % WORD by {
      AddMultiple(Wrap(a) + b, k);
    }
  }

  lemma AddMultiple(n: int, k: int)
    ensures n % WORD == (n + k * WORD) % WORD
  {
    var q := n / WORD;
    assert n + k * WORD == (q + k) * WORD + n % WORD;
  }

  /** The total is kept in 32 bits all along; what comes out is nevertheless
      the wrapped sum of all counts on the path, negative ones included. */
  method GetPathCrowding(counts: Counts, path: Path) returns (total: nat)
    requires forall p :: p in path ==> p.stop.node in counts
    ensures total == Crowding(counts, path)
  {
    total := 0;
    for i := 0 to |path|
      invariant total == Crowding(counts, path[..i])
    {
      assert path[..i + 1] == path[..i] + [path[i]];
      assert Init(path[..i + 1]) == path[..i];
      WrapAdd(Passengers(counts, path[..i]), counts[path[i].stop.node]);
      total := Wrap(total + counts[path[i].stop.node]);
    }
    assert path[..|path|] == path;
  }

  /** Crowding is the sum of the counts up to multiples of 2^32, and the plain
      sum if that is not negative and fits 32 bits. */
  lemma CrowdingIsSum(counts: Counts, path: Path)
    ensures Crowding(counts, path) < 0x1_0000_0000
    ensures (Passengers(counts, path) - Crowding(counts, path)) % 0x1_0000_0000 == 0
    ensures 0 <= Passengers(counts, path) < 0x1_0000_0000 ==> Crowding(counts, path) == Passengers(counts, path)
  {
  }

  function Threshold(crowding: nat, minQuietnessPc: real): int {
    (crowding as real * (1.0 - minQuietnessPc)).Floor
  }

  lemma ThresholdMeans(crowding: nat, minQuietnessPc: real, n: int)
    ensures n <= Threshold(crowding, minQuietnessPc) <==> n as real <= crowding as real * (1.0 - minQuietnessPc)
  {
    var limit := crowding as real * (1.0 - minQuietnessPc);
    assert n <= limit.Floor ==> n as real <= limit.Floor as real <= limit;
  }

  /** Crowding adds up: that of a single stop is the count of its station, and
      that of two stretches is the sum of both. */
  lemma {:induction false} PassengersAdd(counts: Counts, v: Path, w: Path)
    ensures Passengers(counts, v + w) == Passengers(counts, v) + Passengers(counts, w)
    ensures |w| == 1 && w[0].stop.node in counts ==> Passengers(counts, w) == counts[w[0].stop.node]
    decreases |w|
  {
    if w == [] {
      assert v + w == v;
    } else {
      assert Init(v + w) == v + Init(w);
      PassengersAdd(counts, v, Init(w));
    }
  }

  /** Less crowded, and by the fraction asked for. */
  ghost predicate Quieter(crowding: nat, fastest: nat, minQuietnessPc: real) {
    crowding < fastest && crowding as real <= fastest as real * (1.0 - minQuietnessPc)
  }

  /** Path `k` is quiet enough to be preferred to the fastest path. */
  ghost predicate QuietEnough(counts: Counts, paths: seq<Path>, minQuietnessPc: real, k: int)
    requires paths != []
  {
    0 < k < |paths| && Quieter(Crowding(counts, paths[k]), Crowding(counts, paths[0]), minQuietnessPc)
  }

  /** Path `k` is the choice: the fastest path if none is quiet enough,
      otherwise the earliest of the least crowded paths. */
  ghost predicate Chosen(counts: Counts, paths: seq<Path>, minQuietnessPc: real, k: int)
    requires paths != []
  {
    if forall j :: !QuietEnough(counts, paths, minQuietnessPc, j) then k == 0
    else
      && QuietEnough(counts, paths, minQuietnessPc, k)
      && (forall j :: 0 <= j < |paths| ==> Crowding(counts, paths[k]) <= Crowding(counts, paths[j]))
      && (forall j :: 0 <= j < k ==> Crowding(counts, paths[k]) < Crowding(counts, paths[j]))
  }

  /** The fastest path is kept exactly if no other candidate is less crowded than
      it by the fraction asked for; any other choice is, and is the earliest of
      the least crowded candidates. */
  lemma ChoiceIsQuieter(counts: Counts, paths: seq<Path>, minQuietnessPc: real, k: int)
    requires paths != [] && 0 <= k < |paths| && Chosen(counts, paths, minQuietnessPc, k)
    ensures k == 0 <==> forall j :: 0 < j < |paths| ==>
      !Quieter(Crowding(counts, paths[j]), Crowding(counts, paths[0]), minQuietnessPc)
    ensures k > 0 ==>
      && Quieter(Crowding(counts, paths[k]), Crowding(counts, paths[0]), minQuietnessPc)
      && (forall j :: 0 <= j < |paths| ==> Crowding(counts, paths[k]) <= Crowding(counts, paths[j]))
      && (forall j :: 0 <= j < k ==> Crowding(counts, paths[k]) < Crowding(counts, paths[j]))
  {
    hide Crowding, Quieter;
    if k == 0 {
      assert !QuietEnough(counts, paths, minQuietnessPc, k);
      forall j | 0 < j < |paths|
        ensures !Quieter(Crowding(counts, paths[j]), Crowding(counts, paths[0]), minQuietnessPc)
      {
        assert !QuietEnough(counts, paths, minQuietnessPc, j);
      }
    } else {
      assert QuietEnough(counts, paths, minQuietnessPc, k);
    }
  }

  /** Among the first `n` paths, `k` is the earliest of the least crowded ones
      that are quiet enough, or the fastest path. */
  ghost predicate BestSoFar(counts: Counts, paths: seq<Path>, minQuietnessPc: real, n: int, k: int)
    requires 0 < n <= |paths|
  {
    && 0 <= k < n
    && (k > 0 ==> QuietEnough(counts, paths, minQuietnessPc, k))
    && (forall j :: 0 <= j < k ==> Crowding(counts, paths[k]) < Crowding(counts, paths[j]))
    && (forall j :: 0 < j < n && QuietEnough(counts, paths, minQuietnessPc, j) ==>
          Crowding(counts, paths[k]) <= Crowding(counts, paths[j]))
  }

  lemma BestStep(counts: Counts, paths: seq<Path>, minQuietnessPc: real, n: int, k: int)
    requires 0 < n < |paths| && BestSoFar(counts, paths, minQuietnessPc, n, k)
    ensures var c := Crowding(counts, paths[n]);
            BestSoFar(counts, paths, minQuietnessPc, n + 1,
                      if c <= Threshold(Crowding(counts, paths[0]), minQuietnessPc) && c < Crowding(counts, paths[k])
                      then n else k)
  {
    hide Crowding, Threshold;
    var c, first := Crowding(counts, paths[n]), Crowding(counts, paths[0]);
    ThresholdMeans(first, minQuietnessPc, c);
    if c <= Threshold(first, minQuietnessPc) && c < Crowding(counts, paths[k]) {
      assert QuietEnough(counts, paths, minQuietnessPc, n);
      forall j | 0 <= j < n ensures c < Crowding(counts, paths[j]) {
        var d := Crowding(counts, paths[j]);
        ThresholdMeans(first, minQuietnessPc, d);
        if d < Crowding(counts, paths[k]) {
          assert !QuietEnough(counts, paths, minQuietnessPc, j);
        }
      }
    }
  }

  lemma BestIsChosen(counts: Counts, paths: seq<Path>, minQuietnessPc: real, k: int)
    requires paths != [] && BestSoFar(counts, paths, minQuietnessPc, |paths|, k)
    ensures Chosen(counts, paths, minQuietnessPc, k)
  {
    hide Crowding, Threshold;
    var first := Crowding(counts, paths[0]);
    if k > 0 {
      forall j | 0 <= j < |paths| ensures Crowding(counts, paths[k]) <= Crowding(counts, paths[j]) {
        ThresholdMeans(first, minQuietnessPc, Crowding(counts, paths[j]));
        ThresholdMeans(first, minQuietnessPc, Crowding(counts, paths[k]));
      }
    } else {
      assert forall j :: !QuietEnough(counts, paths, minQuietnessPc, j);
    }
  }

  /** The selection loop. The running choice is an alias of the first slot of
      the list, so every improvement overwrites that slot; the loop is right
      all the same because it never looks at the slot again. */
  method MostQuietPath(counts: Counts, paths0: seq<Path>, minQuietnessPc: real)
    returns (path: Path)
    requires paths0 != []
    requires forall i, p :: 0 <= i < |paths0| && p in paths0[i] ==> p.stop.node in counts
    ensures exists k :: 0 <= k < |paths0| && path == paths0[k] && Chosen(counts, paths0, minQuietnessPc, k)
  {
    hide Threshold, Crowding, BestSoFar, Chosen;
    var paths := paths0;
    ghost var k := 0;
    var minCrowding := GetPathCrowding(counts, paths[0]);
    var maxCrowding := Threshold(minCrowding, minQuietnessPc);
    FirstIsBest(counts, paths0, minQuietnessPc);
    for idx := 1 to |paths0|
      invariant 0 <= k < idx && |paths| == |paths0|
      invariant paths == paths0[0 := paths0[k]]
      invariant minCrowding == Crowding(counts, paths0[k])
      invariant maxCrowding == Threshold(Crowding(counts, paths0[0]), minQuietnessPc)
      invariant BestSoFar(counts, paths0, minQuietnessPc, idx, k)
    {
      assert paths[idx] == paths0[idx];
      var crowding := GetPathCrowding(counts, paths[idx]);
      BestStep(counts, paths0, minQuietnessPc, idx, k);
      if crowding > maxCrowding {
        continue;
      }
      if crowding < minCrowding {
        minCrowding := crowding;
        paths := paths[0 := paths[idx]];
        k := idx;
      }
    }
    path := paths[0];
    BestIsChosen(counts, paths0, minQuietnessPc, k);
  }

  lemma FirstIsBest(counts: Counts, paths: seq<Path>, minQuietnessPc: real)
    requires paths != []
    ensures BestSoFar(counts, paths, minQuietnessPc, 1, 0)
  {
  }
}
