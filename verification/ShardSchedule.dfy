/** Placing weighted jobs on `m` shards numbered from 1, each on the lightest shard so far. */
module ShardSchedule {

  function Sum(w: seq<real>): real {
    if w == [] then 0.0 else Sum(w[..|w| - 1]) + w[|w| - 1]
  }

  /** The total of the jobs that placement `a` puts on `shard`. */
  function Load(w: seq<real>, a: seq<int>, shard: int): real
    requires |w| == |a|
  {
    if w == [] then 0.0
    else
      var n := |w| - 1;
      Load(w[..n], a[..n], shard) + if a[n] == shard then w[n] else 0.0
  }

  ghost predicate NonNegative(w: seq<real>) {
    forall i :: 0 <= i < |w| ==> w[i] >= 0.0
  }

  ghost predicate NoneAbove(w: seq<real>, heaviest: real) {
    forall i :: 0 <= i < |w| ==> w[i] <= heaviest
  }

  ghost predicate HeaviestFirst(w: seq<real>) {
    forall i, j :: 0 <= i < j < |w| ==> w[i] >= w[j]
  }

  /** `a` places every job on one of the `m` shards. */
  ghost predicate Places(w: seq<real>, a: seq<int>, m: int) {
    |a| == |w| && forall i :: 0 <= i < |a| ==> 1 <= a[i] <= m
  }

  /** `shard` has the least load, and the least number among those that do. */
  ghost predicate IsLightest(w: seq<real>, a: seq<int>, m: int, shard: int)
    requires |w| == |a|
  {
    && 1 <= shard <= m
    && forall k :: 1 <= k <= m ==>
         Load(w, a, shard) < Load(w, a, k) || (Load(w, a, shard) == Load(w, a, k) && shard <= k)
  }

  /** Each job went to the shard that was lightest when its turn came. */
  ghost predicate IsGreedy(w: seq<real>, a: seq<int>, m: int) {
    && |a| == |w|
    && forall i :: 0 <= i < |w| ==> IsLightest(w[..i], a[..i], m, a[i])
  }

  lemma {:induction false} GreedyPlaces(w: seq<real>, a: seq<int>, m: int)
    requires IsGreedy(w, a, m)
    ensures Places(w, a, m)
  {
    forall i | 0 <= i < |a| ensures 1 <= a[i] <= m {
      assert IsLightest(w[..i], a[..i], m, a[i]);
    }
  }

  lemma GreedyPrefix(w: seq<real>, a: seq<int>, m: int, n: nat)
    requires IsGreedy(w, a, m) && n <= |w|
    ensures IsGreedy(w[..n], a[..n], m)
  {
    forall i | 0 <= i < n ensures IsLightest(w[..n][..i], a[..n][..i], m, a[..n][i]) {
      assert w[..n][..i] == w[..i] && a[..n][..i] == a[..i];
    }
  }

  /** The rule leaves no choice. */
  lemma {:induction false} GreedyIsUnique(w: seq<real>, a: seq<int>, b: seq<int>, m: int)
    requires IsGreedy(w, a, m) && IsGreedy(w, b, m)
    ensures a == b
  {
    if w != [] {
      var n := |w| - 1;
      GreedyPrefix(w, a, m, n);
      GreedyPrefix(w, b, m, n);
      GreedyIsUnique(w[..n], a[..n], b[..n], m);
      assert IsLightest(w[..n], a[..n], m, a[n]) && IsLightest(w[..n], b[..n], m, b[n]);
      assert a == a[..n] + [a[n]] && b == b[..n] + [b[n]];
    }
  }

  // ---- What a placement conserves ----

  function TotalOfShards(w: seq<real>, a: seq<int>, k: nat): real
    requires |w| == |a|
  {
    if k == 0 then 0.0 else TotalOfShards(w, a, k - 1) + Load(w, a, k)
  }

  lemma {:induction false} ShardsGrowByOneJob(w: seq<real>, a: seq<int>, k: nat)
    requires |w| == |a| > 0
    ensures TotalOfShards(w, a, k)
         == TotalOfShards(w[..|w| - 1], a[..|w| - 1], k) + if 1 <= a[|w| - 1] <= k then w[|w| - 1] else 0.0
  {
    if k > 0 { ShardsGrowByOneJob(w, a, k - 1); }
  }

  lemma {:induction false} EmptyShards(k: nat)
    ensures TotalOfShards([], [], k) == 0.0
  {
    if k > 0 { EmptyShards(k - 1); }
  }

  /** No job is lost or run twice: the shards' loads add up to the jobs' total. */
  lemma {:induction false} LoadsAddUp(w: seq<real>, a: seq<int>, m: nat)
    requires Places(w, a, m)
    ensures TotalOfShards(w, a, m) == Sum(w)
  {
    if w == [] {
      EmptyShards(m);
    } else {
      var n := |w| - 1;
      ShardsGrowByOneJob(w, a, m);
      LoadsAddUp(w[..n], a[..n], m);
    }
  }

  /** `k` copies of `x`, added up. */
  function Times(k: nat, x: real): real {
    if k == 0 then 0.0 else Times(k - 1, x) + x
  }

  lemma {:induction false} TimesIsProduct(k: nat, x: real)
    ensures Times(k, x) == (k as real) * x
  {
    if k > 0 { TimesIsProduct(k - 1, x); }
  }

  lemma {:induction false} ShardsAtMost(w: seq<real>, a: seq<int>, k: nat, bound: real)
    requires |w| == |a|
    requires forall s :: 1 <= s <= k ==> Load(w, a, s) <= bound
    ensures TotalOfShards(w, a, k) <= Times(k, bound)
  {
    if k > 0 { ShardsAtMost(w, a, k - 1, bound); }
  }

  lemma {:induction false} ShardsAtLeast(w: seq<real>, a: seq<int>, k: nat, bound: real)
    requires |w| == |a|
    requires forall s :: 1 <= s <= k ==> Load(w, a, s) >= bound
    ensures TotalOfShards(w, a, k) >= Times(k, bound)
  {
    if k > 0 { ShardsAtLeast(w, a, k - 1, bound); }
  }

  lemma {:induction false} LoadOfPrefix(w: seq<real>, a: seq<int>, s: int, n: nat)
    requires |w| == |a| && NonNegative(w) && n <= |w|
    ensures 0.0 <= Load(w[..n], a[..n], s) <= Load(w, a, s)
    decreases |w|
  {
    if n == |w| {
      assert w[..n] == w && a[..n] == a;
      if n > 0 {
        LoadOfPrefix(w[..n - 1], a[..n - 1], s, n - 1);
        assert w[..n - 1][..n - 1] == w[..n - 1] && a[..n - 1][..n - 1] == a[..n - 1];
      }
    } else {
      var last := |w| - 1;
      LoadOfPrefix(w[..last], a[..last], s, n);
      assert w[..last][..n] == w[..n] && a[..last][..n] == a[..n];
    }
  }

  lemma {:induction false} SumOfPrefix(w: seq<real>, n: nat)
    requires NonNegative(w) && n <= |w|
    ensures Sum(w[..n]) <= Sum(w)
  {
    if n == |w| {
      assert w[..n] == w;
    } else {
      SumOfPrefix(w[..|w| - 1], n);
      assert w[..|w| - 1][..n] == w[..n];
    }
  }

  // ---- Balance ----

  /** The heaviest and lightest shard never differ by more than one job: at every step the
      gap is at most the heaviest job placed so far. */
  lemma {:induction false} GreedyStaysBalanced(w: seq<real>, a: seq<int>, m: int, s: int, t: int, heaviest: real)
    requires IsGreedy(w, a, m) && NonNegative(w)
    requires 1 <= s <= m && 1 <= t <= m
    requires heaviest >= 0.0 && NoneAbove(w, heaviest)
    ensures Load(w, a, s) - Load(w, a, t) <= heaviest
  {
    if w != [] {
      var n := |w| - 1;
      GreedyPrefix(w, a, m, n);
      GreedyStaysBalanced(w[..n], a[..n], m, s, t, heaviest);
      assert IsLightest(w[..n], a[..n], m, a[n]);
    }
  }

  /** A shard is at most (total + (m - 1) heaviest)/m: m times its excess over the heaviest job
      is at most the other jobs' total. */
  lemma GreedyNearMean(w: seq<real>, a: seq<int>, m: int, s: int, heaviest: real)
    requires IsGreedy(w, a, m) && NonNegative(w) && 1 <= s <= m
    requires heaviest >= 0.0 && NoneAbove(w, heaviest)
    ensures Times(m, Load(w, a, s) - heaviest) <= Sum(w) - heaviest
  {
    GreedyPlaces(w, a, m);
    LoadsAddUp(w, a, m);
    var bound := Load(w, a, s) - heaviest;
    forall t | 1 <= t <= m ensures Load(w, a, t) >= bound {
      GreedyStaysBalanced(w, a, m, s, t, heaviest);
    }
    AllShardsNearOne(w, a, m, s, bound);
  }

  /** If shard `s` exceeds a lower bound on every shard by `d`, the total exceeds m bounds by `d`. */
  lemma {:induction false} AllShardsNearOne(w: seq<real>, a: seq<int>, k: nat, s: int, bound: real)
    requires |w| == |a| && 1 <= s
    requires forall t :: 1 <= t <= k ==> Load(w, a, t) >= bound
    ensures TotalOfShards(w, a, k) >= Times(k, bound) + if s <= k then Load(w, a, s) - bound else 0.0
  {
    if k > 0 { AllShardsNearOne(w, a, k - 1, s, bound); }
  }

  // ---- The approximation bound ----
  //
  // Take the last job on a heaviest shard. If it is at most a third of the best achievable
  // heaviest total, the mean argument gives the bound. Otherwise every earlier job is more
  // than a third too, and counting each job that cannot share a shard twice ("points") shows
  // that the greedy placement is no worse than the best one.

  /** `total` is at most 4/3 - 1/(3m) times `best`. */
  ghost predicate WithinFourThirds(m: nat, total: real, best: real) {
    3.0 * (m as real) * total <= (4.0 * (m as real) - 1.0) * best
  }

  /** Two points for a job over `big`, one for any other. */
  function Points(w: seq<real>, big: real): seq<real> {
    seq(|w|, i requires 0 <= i < |w| => if w[i] > big then 2.0 else 1.0)
  }

  lemma PointsOfPrefix(w: seq<real>, big: real, n: nat)
    requires n <= |w|
    ensures Points(w, big)[..n] == Points(w[..n], big)
  {
  }

  /** When every job is more than a third of `opt`, a shard within `opt` holds at most two points. */
  lemma {:induction false} AtMostTwoPoints(w: seq<real>, a: seq<int>, s: int, least: real, opt: real)
    requires |w| == |a| && 3.0 * least > opt >= 0.0
    requires forall i :: 0 <= i < |w| ==> w[i] >= least
    ensures var points, load := Load(Points(w, opt - least), a, s), Load(w, a, s);
            || (points == 0.0 && load >= 0.0)
            || (points == 1.0 && load >= least)
            || (points == 2.0 && (load > opt - least || load >= 2.0 * least))
            || (points >= 3.0 && load > opt)
  {
    if w != [] {
      var n := |w| - 1;
      AtMostTwoPoints(w[..n], a[..n], s, least, opt);
      PointsOfPrefix(w, opt - least, n);
    }
  }

  /** A shard loaded beyond `big` holds at least two points. */
  lemma {:induction false} AtLeastTwoPoints(w: seq<real>, a: seq<int>, s: int, big: real)
    requires |w| == |a| && big >= 0.0 && NonNegative(w)
    ensures var points, load := Load(Points(w, big), a, s), Load(w, a, s);
            || (points == 0.0 && load == 0.0)
            || (points == 1.0 && load <= big)
            || points >= 2.0
  {
    if w != [] {
      var n := |w| - 1;
      AtLeastTwoPoints(w[..n], a[..n], s, big);
      PointsOfPrefix(w, big, n);
    }
  }

  /** If every job is more than a third of `opt`, the lightest shard had room for the last job. */
  lemma LargeJobsFit(w: seq<real>, a: seq<int>, b: seq<int>, m: int, opt: real)
    requires m >= 1 && w != [] && Places(w, b, m) && IsGreedy(w, a, m) && HeaviestFirst(w)
    requires forall s :: 1 <= s <= m ==> Load(w, b, s) <= opt
    requires 3.0 * w[|w| - 1] > opt >= w[|w| - 1] >= 0.0
    ensures Load(w, a, a[|w| - 1]) <= opt
  {
    var n := |w| - 1;
    var least := w[n];
    var big := opt - least;
    if Load(w, a, a[n]) > opt {
      GreedyPlaces(w, a, m);
      var points := Points(w, big);
      PointsOfPrefix(w, big, n);
      forall s | 1 <= s <= m ensures Load(points, b, s) <= 2.0 {
        AtMostTwoPoints(w, b, s, least, opt);
      }
      ShardsAtMost(points, b, m, 2.0);
      LoadsAddUp(points, b, m);
      forall s | 1 <= s <= m ensures Load(points[..n], a[..n], s) >= 2.0 {
        assert IsLightest(w[..n], a[..n], m, a[n]);
        AtLeastTwoPoints(w[..n], a[..n], s, big);
      }
      ShardsAtLeast(points[..n], a[..n], m, 2.0);
      LoadsAddUp(points[..n], a[..n], m);
      assert false;
    }
  }

  /** A job is on some shard, so no heaviest total is below any job's weight. */
  lemma {:induction false} JobWithinLoad(w: seq<real>, b: seq<int>, i: nat)
    requires |w| == |b| && NonNegative(w) && i < |w|
    ensures w[i] <= Load(w, b, b[i])
  {
    LoadOfPrefix(w, b, b[i], i + 1);
    LoadOfPrefix(w, b, b[i], i);
    assert w[..i + 1][..i] == w[..i] && b[..i + 1][..i] == b[..i];
  }

  /** The shard that received the last job exceeded the others' mean by at most that job. */
  lemma LastShardNearMean(w: seq<real>, a: seq<int>, m: int, least: real)
    requires m >= 1 && w != [] && IsGreedy(w, a, m)
    requires least == Load(w, a, a[|w| - 1]) - w[|w| - 1]
    ensures Sum(w) - w[|w| - 1] >= Times(m, least)
  {
    var n := |w| - 1;
    GreedyPrefix(w, a, m, n);
    GreedyPlaces(w[..n], a[..n], m);
    LoadsAddUp(w[..n], a[..n], m);
    assert IsLightest(w[..n], a[..n], m, a[n]);
    ShardsAtLeast(w[..n], a[..n], m, least);
  }

  /** Within 4/3 - 1/(3m) of any other placement's heaviest total, for the shard that
      received the last job. */
  lemma LastShardNearOptimal(w: seq<real>, a: seq<int>, b: seq<int>, m: int, opt: real)
    requires m >= 1 && w != [] && Places(w, b, m) && IsGreedy(w, a, m)
    requires HeaviestFirst(w) && NonNegative(w)
    requires forall s :: 1 <= s <= m ==> Load(w, b, s) <= opt
    ensures WithinFourThirds(m, Load(w, a, a[|w| - 1]), opt)
  {
    var job := w[|w| - 1];
    var load := Load(w, a, a[|w| - 1]);
    JobWithinLoad(w, b, |w| - 1);
    if 3.0 * job > opt {
      LargeJobsFit(w, a, b, m, opt);
      LargeJobArithmetic(m, load, opt);
    } else {
      ShardsAtMost(w, b, m, opt);
      LoadsAddUp(w, b, m);
      LastShardNearMean(w, a, m, load - job);
      SmallJobArithmetic(m, load, job, opt, Sum(w));
    }
  }

  lemma LargeJobArithmetic(m: nat, load: real, opt: real)
    requires m >= 1 && load <= opt && opt >= 0.0
    ensures WithinFourThirds(m, load, opt)
  {
    var shards := m as real;
    assert shards * (opt - load) >= 0.0;
    assert (shards - 1.0) * opt >= 0.0;
  }

  lemma SmallJobArithmetic(m: nat, load: real, job: real, opt: real, sum: real)
    requires m >= 1 && 3.0 * job <= opt
    requires sum - job >= Times(m, load - job) && sum <= Times(m, opt)
    ensures WithinFourThirds(m, load, opt)
  {
    TimesIsProduct(m, load - job);
    TimesIsProduct(m, opt);
    var shards := m as real;
    assert (shards - 1.0) * (opt - 3.0 * job) >= 0.0;
  }

  /** Heaviest-first greedy placement is near optimal, shard by shard. */
  lemma {:induction false} EveryShardNearOptimal(w: seq<real>, a: seq<int>, b: seq<int>, m: int, s: int, opt: real)
    requires 1 <= s <= m && Places(w, b, m) && IsGreedy(w, a, m)
    requires HeaviestFirst(w) && NonNegative(w)
    requires opt >= 0.0 && forall t :: 1 <= t <= m ==> Load(w, b, t) <= opt
    ensures WithinFourThirds(m, Load(w, a, s), opt)
  {
    if w == [] {
      LargeJobArithmetic(m, 0.0, opt);
    } else if a[|w| - 1] == s {
      LastShardNearOptimal(w, a, b, m, opt);
    } else {
      var n := |w| - 1;
      GreedyPrefix(w, a, m, n);
      forall t | 1 <= t <= m ensures Load(w[..n], b[..n], t) <= opt {
        LoadOfPrefix(w, b, t, n);
      }
      EveryShardNearOptimal(w[..n], a[..n], b[..n], m, s, opt);
    }
  }

  /** The heaviest load of shards 1 to `m`. */
  ghost function Heaviest(w: seq<real>, a: seq<int>, m: int): (t: real)
    requires m >= 1 && |w| == |a|
    ensures forall s :: 1 <= s <= m ==> Load(w, a, s) <= t
    ensures exists s :: 1 <= s <= m && Load(w, a, s) == t
  {
    if m == 1 || Heaviest(w, a, m - 1) < Load(w, a, m) then Load(w, a, m) else Heaviest(w, a, m - 1)
  }

  lemma HeaviestNearMean(w: seq<real>, a: seq<int>, m: int, heaviest: real)
    requires m >= 1 && IsGreedy(w, a, m) && NonNegative(w) && NoneAbove(w, heaviest) && heaviest >= 0.0
    ensures Times(m, Heaviest(w, a, m) - heaviest) <= Sum(w) - heaviest
  {
    var s :| 1 <= s <= m && Load(w, a, s) == Heaviest(w, a, m);
    GreedyNearMean(w, a, m, s, heaviest);
  }

  /** The heaviest shard is within 4/3 - 1/(3m) of the heaviest shard of any placement. */
  lemma GreedyNearOptimal(w: seq<real>, a: seq<int>, b: seq<int>, m: int)
    requires m >= 1 && Places(w, b, m) && IsGreedy(w, a, m) && HeaviestFirst(w) && NonNegative(w)
    ensures WithinFourThirds(m, Heaviest(w, a, m), Heaviest(w, b, m))
  {
    var s :| 1 <= s <= m && Load(w, a, s) == Heaviest(w, a, m);
    LoadOfPrefix(w, b, 1, |w|);
    assert w[..|w|] == w && b[..|w|] == b;
    EveryShardNearOptimal(w, a, b, m, s, Heaviest(w, b, m));
  }
}
