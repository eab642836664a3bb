/** For every number of shards there are jobs for which the bound of greedy placement is exact:
    two of each size from 2m - 1 down to m, and one more of size m. The greedy rule pairs the
    largest with the smallest and has a job left over; the best placement keeps the three
    smallest together. */
module TightSchedule {
  import opened ShardSchedule

  function Size(m: nat, k: nat): int
    requires m >= 1
  {
    if k < 2 * m then 2 * m - 1 - k / 2 else m
  }

  function WorstJobs(m: nat): (w: seq<real>)
    requires m >= 1
    ensures |w| == 2 * m + 1 && HeaviestFirst(w) && NonNegative(w)
  {
    seq(2 * m + 1, k requires 0 <= k => Size(m, k) as real)
  }

  /** The later job that the greedy rule gives to the shard of job `k`, where `k < m`. */
  function Partner(m: nat, k: nat): (later: nat)
    requires k < m
    ensures m <= later < 2 * m && (Size(m, k) + Size(m, later) == 3 * m - 1)
  {
    if k % 2 == 1 then 2 * m - k else if k == m - 1 then m else 2 * m - 2 - k
  }

  /** The greedy placement. */
  function GreedyShard(m: nat, k: nat): (s: int)
    requires m >= 1 && k <= 2 * m
    ensures 1 <= s <= m
  {
    if k < m then k + 1
    else if k == 2 * m then 1
    else if k % 2 == 0 then 2 * m - 1 - k
    else if k == m then m
    else 2 * m - k + 1
  }

  lemma GreedyPairs(m: nat, k: nat, shard: nat)
    requires 1 <= shard <= m && k < 2 * m
    ensures GreedyShard(m, k) == shard <==> k == shard - 1 || k == Partner(m, shard - 1)
  {
  }

  function GreedyPlacement(m: nat): (a: seq<int>)
    requires m >= 1
    ensures |a| == 2 * m + 1
  {
    seq(2 * m + 1, k requires 0 <= k <= 2 * m => GreedyShard(m, k))
  }

  /** The best placement: the three last jobs on the last shard, the others paired to 3m. */
  function BestShard(m: nat, k: nat): (s: int)
    requires m >= 1 && k <= 2 * m
    ensures 1 <= s <= m
  {
    if k >= 2 * m - 2 then m else if k < m - 1 then k + 1 else 2 * m - 2 - k
  }

  function BestPlacement(m: nat): (b: seq<int>)
    requires m >= 1
    ensures Places(WorstJobs(m), b, m)
  {
    seq(2 * m + 1, k requires 0 <= k <= 2 * m => BestShard(m, k))
  }

  /** The load of a shard that has, of the first `n` jobs, none but these two. */
  lemma {:induction false} LoadOfTwo(w: seq<real>, a: seq<int>, n: nat, s: int, x: nat, y: nat)
    requires |w| == |a| && n <= |w| && x < y < |w|
    requires forall k :: 0 <= k < n ==> (a[k] == s <==> k == x || k == y)
    ensures Load(w[..n], a[..n], s) == (if x < n then w[x] else 0.0) + (if y < n then w[y] else 0.0)
  {
    if n > 0 {
      LoadOfTwo(w, a, n - 1, s, x, y);
      LastJob(w, a, n, s);
    }
  }

  lemma LastJob(w: seq<real>, a: seq<int>, n: nat, s: int)
    requires |w| == |a| && 0 < n <= |w|
    ensures Load(w[..n], a[..n], s) == Load(w[..n - 1], a[..n - 1], s) + if a[n - 1] == s then w[n - 1] else 0.0
  {
    assert w[..n][..n - 1] == w[..n - 1] && a[..n][..n - 1] == a[..n - 1];
  }

  /** What the first `n` jobs put on the shard of job `k`. */
  function GreedyLoad(m: nat, n: nat, k: nat): int
    requires k < m
  {
    (if k < n then Size(m, k) else 0) + if Partner(m, k) < n then Size(m, Partner(m, k)) else 0
  }

  lemma GreedyLoads(m: nat, n: nat, k: nat)
    requires k < m && n <= 2 * m
    ensures Load(WorstJobs(m)[..n], GreedyPlacement(m)[..n], k + 1) == GreedyLoad(m, n, k) as real
  {
    var w, a := WorstJobs(m), GreedyPlacement(m);
    forall i | 0 <= i < n ensures a[i] == k + 1 <==> i == k || i == Partner(m, k) {
      GreedyPairs(m, i, k + 1);
    }
    LoadOfTwo(w, a, n, k + 1, k, Partner(m, k));
  }

  lemma LightestLoad(m: nat, n: nat, k: nat)
    requires k < m && n <= 2 * m
    ensures var to := GreedyShard(m, n) - 1;
            GreedyLoad(m, n, to) < GreedyLoad(m, n, k) || (GreedyLoad(m, n, to) == GreedyLoad(m, n, k) && to <= k)
  {
  }

  lemma LightestOf(w: seq<real>, a: seq<int>, m: nat, loads: int -> int, to: int)
    requires |w| == |a| && 1 <= to <= m
    requires forall s :: 1 <= s <= m ==> Load(w, a, s) == loads(s) as real
    requires forall s :: 1 <= s <= m ==> loads(to) < loads(s) || (loads(to) == loads(s) && to <= s)
    ensures IsLightest(w, a, m, to)
  {
  }

  function ShardLoads(m: nat, n: nat): int -> int {
    s => if 1 <= s <= m then GreedyLoad(m, n, s - 1) else 0
  }

  lemma LoadsOfShards(m: nat, n: nat)
    requires m >= 1 && n <= 2 * m
    ensures forall s :: 1 <= s <= m ==>
              Load(WorstJobs(m)[..n], GreedyPlacement(m)[..n], s) == ShardLoads(m, n)(s) as real
  {
    forall s | 1 <= s <= m
      ensures Load(WorstJobs(m)[..n], GreedyPlacement(m)[..n], s) == ShardLoads(m, n)(s) as real
    {
      GreedyLoads(m, n, s - 1);
    }
  }

  lemma LightestOfShards(m: nat, n: nat)
    requires m >= 1 && n <= 2 * m
    ensures var loads, to := ShardLoads(m, n), GreedyShard(m, n);
            forall s :: 1 <= s <= m ==> loads(to) < loads(s) || (loads(to) == loads(s) && to <= s)
  {
    var loads, to := ShardLoads(m, n), GreedyShard(m, n);
    forall s | 1 <= s <= m ensures loads(to) < loads(s) || (loads(to) == loads(s) && to <= s) {
      LightestLoad(m, n, s - 1);
    }
  }

  lemma NextIsLightest(m: nat, n: nat)
    requires m >= 1 && n <= 2 * m
    ensures IsLightest(WorstJobs(m)[..n], GreedyPlacement(m)[..n], m, GreedyShard(m, n))
  {
    LoadsOfShards(m, n);
    LightestOfShards(m, n);
    LightestOf(WorstJobs(m)[..n], GreedyPlacement(m)[..n], m, ShardLoads(m, n), GreedyShard(m, n));
  }

  lemma PlacementIsGreedy(m: nat)
    requires m >= 1
    ensures IsGreedy(WorstJobs(m), GreedyPlacement(m), m)
  {
    var w, a := WorstJobs(m), GreedyPlacement(m);
    forall n | 0 <= n < |w| ensures IsLightest(w[..n], a[..n], m, a[n]) {
      NextIsLightest(m, n);
    }
  }

  lemma FullLoad(m: nat, s: int)
    requires 1 <= s <= m
    ensures Load(WorstJobs(m)[..2 * m + 1], GreedyPlacement(m)[..2 * m + 1], s)
         == (if s == 1 then 4 * m - 1 else 3 * m - 1) as real
  {
    GreedyLoads(m, 2 * m, s - 1);
    LastJob(WorstJobs(m), GreedyPlacement(m), 2 * m + 1, s);
  }

  lemma HeaviestGreedy(m: nat)
    requires m >= 1
    ensures Heaviest(WorstJobs(m), GreedyPlacement(m), m) == (4 * m - 1) as real
  {
    var w, a := WorstJobs(m), GreedyPlacement(m);
    assert w == w[..2 * m + 1] && a == a[..2 * m + 1];
    forall s | 1 <= s <= m ensures Load(w, a, s) == (if s == 1 then 4 * m - 1 else 3 * m - 1) as real {
      FullLoad(m, s);
    }
    assert Load(w, a, 1) <= Heaviest(w, a, m);
  }

  lemma BestPairs(m: nat, s: int)
    requires 1 <= s < m
    ensures Load(WorstJobs(m)[..2 * m + 1], BestPlacement(m)[..2 * m + 1], s) == (3 * m) as real
  {
    var w, b, later := WorstJobs(m), BestPlacement(m), 2 * m - 2 - s;
    assert Size(m, s - 1) + Size(m, later) == 3 * m;
    forall k | 0 <= k < 2 * m + 1 ensures b[k] == s <==> k == s - 1 || k == later {
      assert b[k] == BestShard(m, k);
    }
    LoadOfTwo(w, b, 2 * m + 1, s, s - 1, later);
  }

  lemma BestTriple(m: nat)
    requires m >= 1
    ensures Load(WorstJobs(m)[..2 * m + 1], BestPlacement(m)[..2 * m + 1], m) == (3 * m) as real
  {
    var w, b := WorstJobs(m), BestPlacement(m);
    forall k | 0 <= k < 2 * m ensures b[k] == m <==> k == 2 * m - 2 || k == 2 * m - 1 {
      assert b[k] == BestShard(m, k);
    }
    LoadOfTwo(w, b, 2 * m, m, 2 * m - 2, 2 * m - 1);
    LastJob(w, b, 2 * m + 1, m);
  }

  lemma BestLoads(m: nat, s: int)
    requires 1 <= s <= m
    ensures Load(WorstJobs(m), BestPlacement(m), s) == (3 * m) as real
  {
    var w, b := WorstJobs(m), BestPlacement(m);
    assert w == w[..2 * m + 1] && b == b[..2 * m + 1];
    if s < m { BestPairs(m, s); } else { BestTriple(m); }
  }

  lemma HeaviestBest(m: nat)
    requires m >= 1
    ensures Heaviest(WorstJobs(m), BestPlacement(m), m) == (3 * m) as real
  {
    forall s | 1 <= s <= m ensures Load(WorstJobs(m), BestPlacement(m), s) == (3 * m) as real {
      BestLoads(m, s);
    }
  }

  /** `best` is positive, and `total` is exactly 4/3 - 1/(3m) times it. */
  ghost predicate AtFourThirds(m: nat, total: real, best: real) {
    best > 0.0 && 3.0 * (m as real) * total == (4.0 * (m as real) - 1.0) * best
  }

  lemma BoundArithmetic(m: nat, greedy: real, best: real)
    requires m >= 1 && greedy == (4 * m - 1) as real && best == (3 * m) as real
    ensures AtFourThirds(m, greedy, best)
  {
  }

  /** For any number of shards there are jobs whose greedy placement is exactly
      4/3 - 1/(3m) times another placement of them, which no placement therefore beats. */
  lemma BoundIsTight(m: nat)
    requires m >= 1
    ensures exists w: seq<real>, a: seq<int>, b: seq<int> ::
              && IsGreedy(w, a, m) && HeaviestFirst(w) && NonNegative(w) && Places(w, b, m)
              && AtFourThirds(m, Heaviest(w, a, m), Heaviest(w, b, m))
  {
    PlacementIsGreedy(m);
    HeaviestGreedy(m);
    HeaviestBest(m);
    BoundArithmetic(m, Heaviest(WorstJobs(m), GreedyPlacement(m), m), Heaviest(WorstJobs(m), BestPlacement(m), m));
  }
}
