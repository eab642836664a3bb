/** Splitting the release test suite over shards, and checking that each test ran once. */
module ReleaseTestShards {
  import opened Outcome
  import opened Sorting
  import opened ShardSchedule
  import Text

  const SECONDS_PER_UNMEASURED_TEST: real := 0.04
  const LISTED_PROBLEM_LIMIT := 20

  // ---- Weights ----

  /** The file a pytest node ID belongs to: what comes before its first "::". */
  function NodeFile(nodeId: string): string {
    if nodeId == [] || (|nodeId| >= 2 && nodeId[..2] == "::") then []
    else [nodeId[0]] + NodeFile(nodeId[1..])
  }

  predicate SeparatorAt(text: string, i: nat) { i + 2 <= |text| && text[i] == ':' && text[i + 1] == ':' }

  /** `file` is the text of the node ID before its first separator, or all of an ID without one. */
  ghost predicate IsFileOf(file: string, nodeId: string) {
    && file <= nodeId
    && (forall i :: 0 <= i < |file| ==> !SeparatorAt(nodeId, i))
    && (|file| == |nodeId| || SeparatorAt(nodeId, |file|))
  }

  lemma {:induction false} NodeFileIsBeforeSeparator(nodeId: string)
    ensures IsFileOf(NodeFile(nodeId), nodeId)
  {
    SeparatorFirst(nodeId);
    if nodeId != [] && !SeparatorAt(nodeId, 0) {
      NodeFileIsBeforeSeparator(nodeId[1..]);
      FileFurther(NodeFile(nodeId[1..]), nodeId);
    }
  }

  lemma SeparatorFirst(nodeId: string)
    ensures SeparatorAt(nodeId, 0) <==> |nodeId| >= 2 && nodeId[..2] == "::"
  {
    if |nodeId| >= 2 { assert nodeId[..2] == [nodeId[0], nodeId[1]]; }
  }

  lemma FileFurther(file: string, nodeId: string)
    requires nodeId != [] && !SeparatorAt(nodeId, 0) && IsFileOf(file, nodeId[1..])
    ensures IsFileOf([nodeId[0]] + file, nodeId)
  {
    forall i | 0 <= i < |file| + 1 ensures !SeparatorAt(nodeId, i) {
      if i > 0 { assert !SeparatorAt(nodeId[1..], i - 1); }
    }
    assert nodeId == [nodeId[0]] + nodeId[1..];
  }

  /** A node ID has one file: its text before its first separator. */
  lemma NodeFileIs(nodeId: string, file: string)
    ensures NodeFile(nodeId) == file <==> IsFileOf(file, nodeId)
  {
    NodeFileIsBeforeSeparator(nodeId);
    var other := NodeFile(nodeId);
    if IsFileOf(file, nodeId) && |file| == |other| {
      assert file == nodeId[..|file|] == other;
    }
  }

  function Files(nodeIds: seq<string>): (files: seq<string>)
    ensures |files| == |nodeIds|
  {
    seq(|nodeIds|, i requires 0 <= i < |nodeIds| => NodeFile(nodeIds[i]))
  }

  function TestsPerFile(nodeIds: seq<string>): multiset<string> { multiset(Files(nodeIds)) }

  /** Each collected file's weight: its measured seconds, or else a fixed time per test. */
  function FileWeights(nodeIds: seq<string>, measured: map<string, real>): map<string, real> {
    var tests := TestsPerFile(nodeIds);
    map path | path in tests ::
      if path in measured then measured[path] else (tests[path] as real) * SECONDS_PER_UNMEASURED_TEST
  }

  lemma TestsPerFileCounts(nodeIds: seq<string>, id: string)
    requires id in nodeIds
    ensures NodeFile(id) in TestsPerFile(nodeIds)
  {
    var i :| 0 <= i < |nodeIds| && nodeIds[i] == id;
    assert Files(nodeIds)[i] == NodeFile(id);
  }

  /** The places of a file's tests among the collected ones. */
  ghost function TestsOf(nodeIds: seq<string>, file: string): set<nat> {
    set i | 0 <= i < |nodeIds| && IsFileOf(file, nodeIds[i])
  }

  ghost function Places<T>(items: seq<T>, x: T): set<nat> { set i: nat | i < |items| && items[i] == x }

  lemma {:induction false} CountInSeq<T>(items: seq<T>, x: T)
    ensures multiset(items)[x] == |Places(items, x)|
  {
    if items != [] {
      var n := |items| - 1;
      CountInSeq(items[..n], x);
      assert items == items[..n] + [items[n]];
      assert Places(items, x) == if items[n] == x then Places(items[..n], x) + {n} else Places(items[..n], x);
    }
  }

  /** A file has a weight exactly if one of its tests was collected: its measured time, or else a
      twenty-fifth of a second for each test of it that was collected. */
  lemma WeightsAre(nodeIds: seq<string>, measured: map<string, real>, file: string)
    ensures file in FileWeights(nodeIds, measured) <==> TestsOf(nodeIds, file) != {}
    ensures file in FileWeights(nodeIds, measured) ==>
              FileWeights(nodeIds, measured)[file]
              == if file in measured then measured[file] else |TestsOf(nodeIds, file)| as real / 25.0
  {
    var files := Files(nodeIds);
    CountInSeq(files, file);
    forall i | 0 <= i < |nodeIds| ensures files[i] == file <==> IsFileOf(file, nodeIds[i]) { NodeFileIs(nodeIds[i], file); }
    assert TestsOf(nodeIds, file) == Places(files, file);
    assert TestsPerFile(nodeIds)[file] == |TestsOf(nodeIds, file)|;
    if TestsOf(nodeIds, file) != {} {
      var i :| i in TestsOf(nodeIds, file);
      assert |TestsOf(nodeIds, file)| > 0;
    }
  }

  lemma RemoveOne<T>(s: seq<T>, k: nat)
    requires k < |s|
    ensures multiset(s[..k] + s[k + 1..]) == multiset(s) - multiset{s[k]}
  {
    assert s == (s[..k] + [s[k]]) + s[k + 1..];
  }

  /** Only which tests were collected matters, not in which order. */
  lemma {:induction false} TestsPerFileIgnoresOrder(a: seq<string>, b: seq<string>)
    requires multiset(a) == multiset(b)
    ensures TestsPerFile(a) == TestsPerFile(b)
  {
    assert |a| == |multiset(a)| == |multiset(b)| == |b|;
    if a != [] {
      var n := |a| - 1;
      assert a[n] in multiset(b);
      var k :| 0 <= k < |b| && b[k] == a[n];
      TakeOneOut(a, n);
      TakeOneOut(b, k);
      TestsPerFileIgnoresOrder(a[..n] + a[n + 1..], b[..k] + b[k + 1..]);
    }
  }

  lemma TakeOneOut(ids: seq<string>, k: nat)
    requires k < |ids|
    ensures multiset(ids[..k] + ids[k + 1..]) == multiset(ids) - multiset{ids[k]}
    ensures TestsPerFile(ids) == TestsPerFile(ids[..k] + ids[k + 1..]) + multiset{NodeFile(ids[k])}
  {
    RemoveOne(ids, k);
    RemoveOne(Files(ids), k);
    assert Files(ids[..k] + ids[k + 1..]) == Files(ids)[..k] + Files(ids)[k + 1..];
  }

  // ---- Assignment ----

  /** Heavier files first; equal weights in path order. */
  function HeavierFirst(weights: map<string, real>): (string, string) -> bool {
    (a, b) =>
      var wa, wb := if a in weights then weights[a] else 0.0, if b in weights then weights[b] else 0.0;
      wa > wb || (wa == wb && Text.Before(a, b))
  }

  lemma HeavierFirstIsTotalOrder(weights: map<string, real>)
    ensures TotalOrder(HeavierFirst(weights))
  {
    Text.BeforeIsTotalOrder();
  }

  /** The files are placed heaviest first, and equally heavy ones in lexicographic order. */
  lemma OrderIs(order: seq<string>, weights: map<string, real>, i: nat, j: nat)
    requires IsOrder(order, weights) && i < j < |order|
    ensures weights[order[i]] > weights[order[j]]
            || (weights[order[i]] == weights[order[j]] && Text.Precedes(order[i], order[j]))
  {
    assert HeavierFirst(weights)(order[i], order[j]);
    Text.BeforeIsLexicographic(order[i], order[j]);
  }

  function Along<V>(order: seq<string>, values: map<string, V>): (s: seq<V>)
    requires forall path :: path in order ==> path in values
    ensures |s| == |order|
  {
    seq(|order|, i requires 0 <= i < |order| => values[order[i]])
  }

  /** `order` lists the files, heaviest first. */
  ghost predicate IsOrder(order: seq<string>, weights: map<string, real>) {
    && (forall path :: path in order <==> path in weights)
    && Ordered(order, HeavierFirst(weights))
  }

  /** Every file has a shard, and each got the lightest one when its turn came. */
  ghost predicate IsAssignment(weights: map<string, real>, order: seq<string>, m: int, assignment: map<string, int>) {
    && IsOrder(order, weights)
    && assignment.Keys == weights.Keys
    && IsGreedy(Along(order, weights), Along(order, assignment), m)
  }

  /** Every runner that sees the same weights computes the same assignment. */
  lemma AssignmentIsUnique(weights: map<string, real>, m: int, orderA: seq<string>, a: map<string, int>,
                           orderB: seq<string>, b: map<string, int>)
    requires IsAssignment(weights, orderA, m, a) && IsAssignment(weights, orderB, m, b)
    ensures orderA == orderB && a == b
  {
    HeavierFirstIsTotalOrder(weights);
    OrderedListingIsUnique(orderA, orderB, HeavierFirst(weights));
    GreedyIsUnique(Along(orderA, weights), Along(orderA, a), Along(orderA, b), m);
    forall path | path in weights ensures a[path] == b[path] {
      var i :| 0 <= i < |orderA| && orderA[i] == path;
      assert Along(orderA, a)[i] == Along(orderA, b)[i];
    }
  }

  lemma AssignedToAShard(weights: map<string, real>, order: seq<string>, m: int, assignment: map<string, int>,
                         path: string)
    requires IsAssignment(weights, order, m, assignment) && path in weights
    ensures 1 <= assignment[path] <= m
  {
    GreedyPlaces(Along(order, weights), Along(order, assignment), m);
    var i :| 0 <= i < |order| && order[i] == path;
    assert Along(order, assignment)[i] == assignment[path];
  }

  /** The shard from 1 to `k` with the least total, and the least number among those. */
  function LightestShard(totals: map<int, real>, k: int): (shard: int)
    requires k >= 1 && forall s :: 1 <= s <= k ==> s in totals
    ensures 1 <= shard <= k
    ensures forall s :: 1 <= s <= k ==>
              totals[shard] < totals[s] || (totals[shard] == totals[s] && shard <= s)
  {
    if k == 1 then 1
    else
      var best := LightestShard(totals, k - 1);
      if totals[k] < totals[best] then k else best
  }

  function ShardNumbers(m: int): (shards: set<int>)
    ensures forall s :: s in shards <==> 1 <= s <= m
  {
    if m < 1 then {} else ShardNumbers(m - 1) + {m}
  }

  method AssignFilesToShards(weights: map<string, real>, shardCount: int)
    returns (r: Result<map<string, int>>, ghost order: seq<string>)
    ensures r.Err? <==> shardCount < 1
    ensures r.Ok? ==> IsAssignment(weights, order, shardCount, r.value)
  {
    if shardCount < 1 {
      return Err("there must be at least one shard"), [];
    }
    HeavierFirstIsTotalOrder(weights);
    var paths := Sorted(weights.Keys, HeavierFirst(weights));
    var assignment := AssignInOrder(weights, paths, shardCount);
    return Ok(assignment), paths;
  }

  /** The assignment loop, over the files in their sorted order. */
  method AssignInOrder(weights: map<string, real>, paths: seq<string>, shardCount: int)
    returns (assignment: map<string, int>)
    requires shardCount >= 1 && IsOrder(paths, weights)
    ensures IsAssignment(weights, paths, shardCount, assignment)
  {
    var shardTotals := ZeroTotals(weights, paths, shardCount);
    assignment := map[];
    for i := 0 to |paths|
      invariant Placed(weights, paths[..i], assignment, shardTotals, shardCount)
    {
      NotPlacedYet(weights, paths, i);
      assignment, shardTotals := PlaceFile(weights, paths[..i], paths[i], assignment, shardTotals, shardCount);
    }
    PlacedAll(weights, paths, assignment, shardTotals, shardCount);
  }

  method ZeroTotals(weights: map<string, real>, ghost paths: seq<string>, shardCount: int)
    returns (totals: map<int, real>)
    ensures Placed(weights, paths[..0], map[], totals, shardCount)
  {
    totals := map s | s in ShardNumbers(shardCount) :: 0.0;
    assert paths[..0] == [];
    NothingPlaced(weights, totals, shardCount);
  }

  /** The loop's body: the file goes to the lightest shard. */
  method PlaceFile(weights: map<string, real>, ghost done: seq<string>, path: string, assignment: map<string, int>,
                   shardTotals: map<int, real>, shardCount: int)
    returns (next: map<string, int>, totals: map<int, real>)
    requires shardCount >= 1 && path in weights && path !in done
    requires Placed(weights, done, assignment, shardTotals, shardCount)
    ensures Placed(weights, done + [path], next, totals, shardCount)
  {
    var lightestShard := LightestShard(shardTotals, shardCount);
    PlaceAfter(weights, done, path, assignment, shardTotals, shardCount, lightestShard);
    next := assignment[path := lightestShard];
    totals := shardTotals[lightestShard := shardTotals[lightestShard] + weights[path]];
  }

  lemma NothingPlaced(weights: map<string, real>, totals: map<int, real>, m: int)
    requires totals.Keys == ShardNumbers(m) && forall s :: 1 <= s <= m ==> totals[s] == 0.0
    ensures Placed(weights, [], map[], totals, m)
  {
  }

  lemma NotPlacedYet(weights: map<string, real>, paths: seq<string>, i: nat)
    requires IsOrder(paths, weights) && i < |paths|
    ensures paths[i] in weights && paths[i] !in paths[..i]
    ensures paths[..i] + [paths[i]] == paths[..i + 1]
  {
    OrderIsHeaviestFirst(weights, paths);
  }

  /** The state of the loop once the files of `done` are placed. */
  ghost predicate Placed(weights: map<string, real>, done: seq<string>, assignment: map<string, int>,
                         totals: map<int, real>, m: int) {
    && (forall path :: path in done ==> path in weights)
    && assignment.Keys == Elements(done)
    && IsGreedy(Along(done, weights), Along(done, assignment), m)
    && totals.Keys == ShardNumbers(m)
    && forall s :: 1 <= s <= m ==> totals[s] == Load(Along(done, weights), Along(done, assignment), s)
  }

  lemma PlacedAll(weights: map<string, real>, paths: seq<string>, assignment: map<string, int>,
                  totals: map<int, real>, m: int)
    requires IsOrder(paths, weights) && Placed(weights, paths[..|paths|], assignment, totals, m)
    ensures IsAssignment(weights, paths, m, assignment)
  {
    assert paths[..|paths|] == paths;
  }

  /** Giving the next file to the lightest shard keeps the placement greedy. */
  lemma PlaceAfter(weights: map<string, real>, done: seq<string>, path: string, assignment: map<string, int>,
                   totals: map<int, real>, m: int, shard: int)
    requires m >= 1 && path in weights && path !in done && Placed(weights, done, assignment, totals, m)
    requires shard == LightestShard(totals, m)
    ensures Placed(weights, done + [path], assignment[path := shard],
                   totals[shard := totals[shard] + weights[path]], m)
  {
    var next, i := assignment[path := shard], |done|;
    var w, a := Along(done + [path], weights), Along(done + [path], next);
    AlongNext(done, path, weights, assignment, shard);
    assert IsLightest(w[..i], a[..i], m, shard);
    GreedyExtends(w, a, m, i);
  }

  lemma AlongNext(done: seq<string>, path: string, weights: map<string, real>, assignment: map<string, int>, shard: int)
    requires path in weights && path !in done && (forall p :: p in done ==> p in weights && p in assignment)
    ensures var w, a := Along(done + [path], weights), Along(done + [path], assignment[path := shard]);
            && w[..|done|] == Along(done, weights) && a[..|done|] == Along(done, assignment)
            && w[|done|] == weights[path] && a[|done|] == shard
  {
  }

  lemma GreedyExtends(w: seq<real>, a: seq<int>, m: int, i: nat)
    requires |w| == |a| == i + 1 && IsGreedy(w[..i], a[..i], m) && IsLightest(w[..i], a[..i], m, a[i])
    ensures IsGreedy(w, a, m)
  {
    forall k | 0 <= k < |w| ensures IsLightest(w[..k], a[..k], m, a[k]) {
      if k < i {
        assert w[..k] == w[..i][..k] && a[..k] == a[..i][..k];
        assert IsLightest(w[..i][..k], a[..i][..k], m, a[..i][k]);
      }
    }
  }

  // ---- Near-optimality ----

  /** The total of the heaviest of shards 1 to `m`. */
  ghost function HeaviestTotal(weights: map<string, real>, order: seq<string>, assignment: map<string, int>, m: int): real
    requires m >= 1 && IsOrder(order, weights) && assignment.Keys == weights.Keys
  {
    Heaviest(Along(order, weights), Along(order, assignment), m)
  }

  ghost predicate NonNegativeWeights(weights: map<string, real>) {
    forall path :: path in weights ==> weights[path] >= 0.0
  }

  lemma OrderIsHeaviestFirst(weights: map<string, real>, order: seq<string>)
    requires IsOrder(order, weights)
    ensures HeaviestFirst(Along(order, weights))
    ensures NonNegativeWeights(weights) ==> NonNegative(Along(order, weights))
    ensures forall i :: 0 <= i < |order| ==> order[i] !in order[..i]
  {
    HeavierFirstIsTotalOrder(weights);
    forall i, j | 0 <= i < j < |order| ensures weights[order[i]] >= weights[order[j]] && order[i] != order[j] {
      assert HeavierFirst(weights)(order[i], order[j]);
    }
  }

  /** The heaviest shard is within 4/3 - 1/(3m) of the heaviest shard of any assignment
      of the same files to the same number of shards. */
  lemma AssignmentIsNearOptimal(weights: map<string, real>, order: seq<string>, m: int, assignment: map<string, int>,
                                other: map<string, int>)
    requires m >= 1 && NonNegativeWeights(weights) && IsAssignment(weights, order, m, assignment)
    requires other.Keys == weights.Keys && forall path :: path in other ==> 1 <= other[path] <= m
    ensures WithinFourThirds(m, HeaviestTotal(weights, order, assignment, m), HeaviestTotal(weights, order, other, m))
  {
    OrderIsHeaviestFirst(weights, order);
    GreedyNearOptimal(Along(order, weights), Along(order, assignment), Along(order, other), m);
  }

  /** Whenever `n` files have been placed, any two shards differ by at most the heaviest
      file placed so far, which is the first. */
  lemma LoopStaysBalanced(weights: map<string, real>, order: seq<string>, m: int, assignment: map<string, int>,
                          n: nat, s: int, t: int)
    requires NonNegativeWeights(weights) && IsAssignment(weights, order, m, assignment)
    requires 0 < n <= |order| && 1 <= s <= m && 1 <= t <= m
    ensures Load(Along(order[..n], weights), Along(order[..n], assignment), s)
          - Load(Along(order[..n], weights), Along(order[..n], assignment), t) <= weights[order[0]]
  {
    var w, a := Along(order, weights), Along(order, assignment);
    OrderIsHeaviestFirst(weights, order);
    GreedyPrefix(w, a, m, n);
    assert w[..n] == Along(order[..n], weights) && a[..n] == Along(order[..n], assignment);
    GreedyStaysBalanced(w[..n], a[..n], m, s, t, w[0]);
  }

  /** The heaviest shard exceeds the heaviest file by at most an equal share of the rest:
      `m` copies of the excess fit in the other files' total. */
  lemma HeaviestNearMean(weights: map<string, real>, order: seq<string>, m: int, assignment: map<string, int>,
                         heaviest: real)
    requires m >= 1 && NonNegativeWeights(weights) && IsAssignment(weights, order, m, assignment)
    requires heaviest >= 0.0 && forall path :: path in weights ==> weights[path] <= heaviest
    ensures Times(m, HeaviestTotal(weights, order, assignment, m) - heaviest)
         <= Sum(Along(order, weights)) - heaviest
  {
    OrderIsHeaviestFirst(weights, order);
    ShardSchedule.HeaviestNearMean(Along(order, weights), Along(order, assignment), m, heaviest);
  }

  // ---- Selection ----

  /** The collected tests whose file is assigned to `shard`, in collection order. */
  function Kept(nodeIds: seq<string>, assignment: map<string, int>, shard: int): seq<string>
    requires forall id :: id in nodeIds ==> NodeFile(id) in assignment
  {
    if nodeIds == [] then []
    else
      var last := nodeIds[|nodeIds| - 1];
      var kept := Kept(nodeIds[..|nodeIds| - 1], assignment, shard);
      if assignment[NodeFile(last)] == shard then kept + [last] else kept
  }

  /** What a runner that collected `nodeIds` keeps for shard `index` of `count`. */
  ghost predicate IsSelection(nodeIds: seq<string>, measured: map<string, real>, index: int, count: int,
                              order: seq<string>, assignment: map<string, int>, selected: seq<string>) {
    && IsAssignment(FileWeights(nodeIds, measured), order, count, assignment)
    && (forall id :: id in nodeIds ==> NodeFile(id) in assignment)
    && selected == Kept(nodeIds, assignment, index)
  }

  method ShardNodeIds(nodeIds: seq<string>, measured: map<string, real>, index: int, count: int)
    returns (r: Result<seq<string>>, ghost order: seq<string>, ghost assignment: map<string, int>)
    ensures r.Err? <==> count < 1
    ensures r.Ok? ==> IsSelection(nodeIds, measured, index, count, order, assignment, r.value)
  {
    assignment := map[];
    var split;
    split, order := AssignFilesToShards(FileWeights(nodeIds, measured), count);
    if split.Err? {
      return Err(split.error), order, assignment;
    }
    forall id | id in nodeIds ensures NodeFile(id) in split.value {
      TestsPerFileCounts(nodeIds, id);
    }
    assignment := split.value;
    r := Ok(Kept(nodeIds, split.value, index));
  }

  lemma {:induction false} KeptCounts(nodeIds: seq<string>, assignment: map<string, int>, shard: int, id: string)
    requires forall x :: x in nodeIds ==> NodeFile(x) in assignment
    ensures multiset(Kept(nodeIds, assignment, shard))[id]
         == if NodeFile(id) in assignment && assignment[NodeFile(id)] == shard then multiset(nodeIds)[id] else 0
  {
    if nodeIds != [] {
      var n := |nodeIds| - 1;
      KeptCounts(nodeIds[..n], assignment, shard, id);
      assert nodeIds == nodeIds[..n] + [nodeIds[n]];
    }
  }

  /** The positions of a subsequence in the sequence it was taken from. */
  ghost predicate EmbedsAt(part: seq<string>, whole: seq<string>, at: seq<nat>) {
    && |at| == |part|
    && (forall i :: 0 <= i < |at| ==> at[i] < |whole| && whole[at[i]] == part[i])
    && forall i, j :: 0 <= i < j < |at| ==> at[i] < at[j]
  }

  lemma EmbedsFurther(part: seq<string>, whole: seq<string>, at: seq<nat>, n: nat)
    requires |whole| == n + 1 && EmbedsAt(part, whole[..n], at)
    ensures EmbedsAt(part, whole, at) && EmbedsAt(part + [whole[n]], whole, at + [n])
  {
  }

  /** A shard keeps its tests in the order they were collected. */
  lemma {:induction false} KeptInCollectionOrder(nodeIds: seq<string>, assignment: map<string, int>, shard: int)
    returns (at: seq<nat>)
    requires forall x :: x in nodeIds ==> NodeFile(x) in assignment
    ensures EmbedsAt(Kept(nodeIds, assignment, shard), nodeIds, at)
  {
    if nodeIds == [] {
      at := [];
    } else {
      var n := |nodeIds| - 1;
      at := KeptInCollectionOrder(nodeIds[..n], assignment, shard);
      EmbedsFurther(Kept(nodeIds[..n], assignment, shard), nodeIds, at, n);
      if assignment[NodeFile(nodeIds[n])] == shard { at := at + [n]; }
    }
  }

  // ---- Coverage ----

  datatype ShardReport = ShardReport(index: int, count: int, collected: seq<string>, selected: seq<string>)

  datatype Kind = RunByNoShard | RunByMoreThanOneShard | RunButNotCollected

  datatype Problem =
    | DidNotReport(index: int)
    | WrongShard(index: int, saidIndex: int, saidCount: int)
    | CollectedDifferently(index: int, more: nat, fewer: nat)
    | Listed(kind: Kind, nodeId: string)
    | Unlisted(kind: Kind, others: nat)

  function Numerically(a: int, b: int): bool { a < b }

  function Indexes(reports: map<int, ShardReport>): (keys: seq<int>)
    ensures Ordered(keys, Numerically)
    ensures forall k :: k in keys <==> k in reports
  {
    Sorted(reports.Keys, Numerically)
  }

  /** How often each test was kept, over the reports of `keys`. */
  function Runs(reports: map<int, ShardReport>, keys: seq<int>): multiset<string>
    requires forall k :: k in keys ==> k in reports
  {
    if keys == [] then multiset{}
    else
      var last := keys[|keys| - 1];
      assert last in keys;
      Runs(reports, keys[..|keys| - 1]) + multiset(reports[last].selected)
  }

  /** Every shard reported as itself, all collected the same tests, and each collected
      test was kept exactly once and nothing else was. */
  ghost predicate EachTestRanOnce(reports: map<int, ShardReport>, shardCount: int) {
    && AllReported(reports, shardCount)
    && AllLabelled(reports, shardCount)
    && 1 in reports
    && AllCollected(reports, Elements(reports[1].collected))
    && CollectedRanOnce(reports)
  }

  ghost predicate AllReported(reports: map<int, ShardReport>, shardCount: int) {
    forall i :: 1 <= i <= shardCount ==> i in reports
  }

  ghost predicate AllLabelled(reports: map<int, ShardReport>, shardCount: int) {
    forall i :: i in reports ==> reports[i].index == i && reports[i].count == shardCount
  }

  ghost predicate AllCollected(reports: map<int, ShardReport>, tests: set<string>) {
    forall i :: i in reports ==> Elements(reports[i].collected) == tests
  }

  ghost predicate CollectedRanOnce(reports: map<int, ShardReport>)
    requires 1 in reports
  {
    forall id :: Runs(reports, Indexes(reports))[id] == if id in reports[1].collected then 1 else 0
  }

  /** What a reported problem says about the reports. */
  ghost predicate Holds(p: Problem, reports: map<int, ShardReport>, shardCount: int) {
    match p
    case DidNotReport(i) => 1 <= i <= shardCount && i !in reports
    case WrongShard(i, index, count) =>
      i in reports && reports[i].index == index && reports[i].count == count && (index, count) != (i, shardCount)
    case CollectedDifferently(i, more, fewer) =>
      i in reports && 1 in reports && more + fewer > 0
      && more == |Elements(reports[i].collected) - Elements(reports[1].collected)|
      && fewer == |Elements(reports[1].collected) - Elements(reports[i].collected)|
    case Listed(kind, id) => 1 in reports && Misrun(kind, id, reports)
    case Unlisted(kind, others) => others > 0 && exists id :: 1 in reports && Misrun(kind, id, reports)
  }

  ghost predicate Misrun(kind: Kind, id: string, reports: map<int, ShardReport>)
    requires 1 in reports
  {
    var runs, collected := Runs(reports, Indexes(reports)), reports[1].collected;
    match kind
    case RunByNoShard => id in collected && runs[id] == 0
    case RunByMoreThanOneShard => runs[id] > 1
    case RunButNotCollected => runs[id] > 0 && id !in collected
  }

  /** The first few of `ids`, and how many more there are. */
  function ListedProblems(kind: Kind, ids: seq<string>): (problems: seq<Problem>)
    ensures problems == [] <==> ids == []
    ensures forall p :: p in problems ==>
              match p
              case Listed(k, id) => k == kind && id in ids
              case Unlisted(k, others) => k == kind && others > 0 && others < |ids|
              case _ => false
  {
    var n := if |ids| < LISTED_PROBLEM_LIMIT then |ids| else LISTED_PROBLEM_LIMIT;
    seq(n, i requires 0 <= i < n => Listed(kind, ids[i]))
    + if |ids| > LISTED_PROBLEM_LIMIT then [Unlisted(kind, |ids| - LISTED_PROBLEM_LIMIT)] else []
  }

  function InPathOrder(ids: set<string>): (s: seq<string>)
    ensures Ordered(s, Text.Before)
    ensures forall id :: id in s <==> id in ids
  {
    Text.BeforeIsTotalOrder();
    Sorted(ids, Text.Before)
  }

  ghost predicate AllHold(problems: seq<Problem>, reports: map<int, ShardReport>, shardCount: int) {
    forall p :: p in problems ==> Holds(p, reports, shardCount)
  }

  lemma AllHoldTogether(a: seq<Problem>, b: seq<Problem>, reports: map<int, ShardReport>, shardCount: int)
    requires AllHold(a, reports, shardCount) && AllHold(b, reports, shardCount)
    ensures AllHold(a + b, reports, shardCount)
  {
  }

  /** `problems` are exactly the wrong labels, each with its entry, of the shards of `keys`. */
  ghost predicate NamesLabels(problems: seq<Problem>, keys: seq<int>, reports: map<int, ShardReport>, shardCount: int) {
    forall p :: p in problems <==> p.WrongShard? && p.index in keys && Holds(p, reports, shardCount)
  }

  /** The reports that say they are for another shard. */
  method LabelProblems(reports: map<int, ShardReport>, shardCount: int) returns (problems: seq<Problem>)
    ensures forall p :: p in problems <==> p.WrongShard? && Holds(p, reports, shardCount)
    ensures problems == [] <==> AllLabelled(reports, shardCount)
  {
    var keys := Indexes(reports);
    problems := [];
    for i := 0 to |keys|
      invariant NamesLabels(problems, keys[..i], reports, shardCount)
    {
      var report := reports[keys[i]];
      NextLabel(problems, keys[..i], keys[i], reports, shardCount);
      NextPrefix(keys, i);
      if (report.index, report.count) != (keys[i], shardCount) {
        problems := problems + [WrongShard(keys[i], report.index, report.count)];
      }
    }
    LabelsAreNamed(problems, keys, reports, shardCount);
  }

  lemma NextPrefix(keys: seq<int>, i: nat)
    requires i < |keys|
    ensures keys[..i] + [keys[i]] == keys[..i + 1]
  {
  }

  lemma LabelsAreNamed(problems: seq<Problem>, keys: seq<int>, reports: map<int, ShardReport>, shardCount: int)
    requires NamesLabels(problems, keys[..|keys|], reports, shardCount) && forall k :: k in keys <==> k in reports
    ensures forall p :: p in problems <==> p.WrongShard? && Holds(p, reports, shardCount)
    ensures problems == [] <==> AllLabelled(reports, shardCount)
  {
    assert keys[..|keys|] == keys;
    NoLabelNamed(problems, keys, reports, shardCount);
  }

  lemma NextLabel(problems: seq<Problem>, keys: seq<int>, k: int, reports: map<int, ShardReport>, shardCount: int)
    requires k in reports && NamesLabels(problems, keys, reports, shardCount)
    ensures var report := reports[k];
            NamesLabels(if (report.index, report.count) == (k, shardCount) then problems
                        else problems + [WrongShard(k, report.index, report.count)], keys + [k], reports, shardCount)
  {
  }

  lemma NoLabelNamed(problems: seq<Problem>, keys: seq<int>, reports: map<int, ShardReport>, shardCount: int)
    requires NamesLabels(problems, keys, reports, shardCount) && forall k :: k in keys <==> k in reports
    ensures problems == [] <==> AllLabelled(reports, shardCount)
  {
    if problems != [] { assert Holds(problems[0], reports, shardCount); }
    forall k | problems == [] && k in reports
      ensures reports[k].index == k && reports[k].count == shardCount
    {
      assert WrongShard(k, reports[k].index, reports[k].count) !in problems;
    }
  }

  function Difference(index: int, own: set<string>, collected: set<string>): Problem {
    CollectedDifferently(index, |own - collected|, |collected - own|)
  }

  /** `problems` are exactly the differing collections, each with its entry, of the shards of `keys`. */
  ghost predicate NamesDifferences(problems: seq<Problem>, keys: seq<int>, reports: map<int, ShardReport>, shardCount: int) {
    forall p :: p in problems <==> p.CollectedDifferently? && p.index in keys && Holds(p, reports, shardCount)
  }

  lemma DifferenceHolds(reports: map<int, ShardReport>, i: int, shardCount: int)
    requires i in reports && 1 in reports
    ensures forall p: Problem :: p.CollectedDifferently? && p.index == i && Holds(p, reports, shardCount)
              <==> Elements(reports[i].collected) != Elements(reports[1].collected)
                   && p == Difference(i, Elements(reports[i].collected), Elements(reports[1].collected))
  {
    var own, collected := Elements(reports[i].collected), Elements(reports[1].collected);
    if own != collected { assert own - collected != {} || collected - own != {}; }
    else { assert own - collected == {} == collected - own; }
  }

  /** The shards that collected other tests than shard 1. */
  method CollectionProblems(reports: map<int, ShardReport>, shardCount: int) returns (problems: seq<Problem>)
    requires 1 in reports
    ensures forall p :: p in problems <==> p.CollectedDifferently? && Holds(p, reports, shardCount)
    ensures problems == [] <==> AllCollected(reports, Elements(reports[1].collected))
  {
    var keys := Indexes(reports);
    var collected := Elements(reports[1].collected);
    problems := [];
    for i := 0 to |keys|
      invariant NamesDifferences(problems, keys[..i], reports, shardCount)
    {
      var own := Elements(reports[keys[i]].collected);
      NextDifference(problems, keys[..i], keys[i], reports, shardCount);
      NextPrefix(keys, i);
      if own != collected {
        problems := problems + [Difference(keys[i], own, collected)];
      }
    }
    DifferencesAreNamed(problems, keys, reports, shardCount);
  }

  lemma DifferencesAreNamed(problems: seq<Problem>, keys: seq<int>, reports: map<int, ShardReport>, shardCount: int)
    requires 1 in reports && NamesDifferences(problems, keys[..|keys|], reports, shardCount)
    requires forall k :: k in keys <==> k in reports
    ensures forall p :: p in problems <==> p.CollectedDifferently? && Holds(p, reports, shardCount)
    ensures problems == [] <==> AllCollected(reports, Elements(reports[1].collected))
  {
    assert keys[..|keys|] == keys;
    NoDifferenceNamed(problems, keys, reports, shardCount);
  }

  lemma NextDifference(problems: seq<Problem>, keys: seq<int>, k: int, reports: map<int, ShardReport>, shardCount: int)
    requires k in reports && 1 in reports && NamesDifferences(problems, keys, reports, shardCount)
    ensures var own, collected := Elements(reports[k].collected), Elements(reports[1].collected);
            NamesDifferences(if own == collected then problems else problems + [Difference(k, own, collected)],
                             keys + [k], reports, shardCount)
  {
    DifferenceHolds(reports, k, shardCount);
  }

  lemma NoDifferenceNamed(problems: seq<Problem>, keys: seq<int>, reports: map<int, ShardReport>, shardCount: int)
    requires 1 in reports && NamesDifferences(problems, keys, reports, shardCount)
    requires forall k :: k in keys <==> k in reports
    ensures problems == [] <==> AllCollected(reports, Elements(reports[1].collected))
  {
    if problems != [] {
      assert Holds(problems[0], reports, shardCount);
      DifferenceHolds(reports, problems[0].index, shardCount);
    }
    var collected := Elements(reports[1].collected);
    forall k | problems == [] && k in reports ensures Elements(reports[k].collected) == collected {
      DifferenceHolds(reports, k, shardCount);
      assert Difference(k, Elements(reports[k].collected), collected) !in problems;
    }
  }

  /** Why the shards did not run each collected test exactly once. Every problem it names is
      real, and it names none exactly when there is none. The only exception it can raise is
      the failed lookup of shard 1 when no shard was asked for. */
  method CoverageProblems(reports: map<int, ShardReport>, shardCount: int) returns (r: Result<seq<Problem>>)
    ensures r.Err? <==> 1 !in reports && AllReported(reports, shardCount) && AllLabelled(reports, shardCount)
    ensures r.Err? ==> shardCount < 1
    ensures r == Ok([]) <==> EachTestRanOnce(reports, shardCount)
    ensures r.Ok? ==> AllHold(r.value, reports, shardCount)
  {
    var unreported := Unreported(reports, shardCount);
    var labels := LabelProblems(reports, shardCount);
    AllHoldTogether(unreported, labels, reports, shardCount);
    if unreported + labels != [] {
      return Ok(unreported + labels);
    }
    if 1 !in reports {
      return Err("KeyError: 1");
    }
    var collections := CollectionProblems(reports, shardCount);
    var misruns := MisrunProblems(reports, shardCount, Runs(reports, Indexes(reports)));
    AllHoldTogether(collections, misruns, reports, shardCount);
    return Ok(collections + misruns);
  }

  function Unrun(collected: seq<string>, runs: multiset<string>): (ids: seq<string>)
    ensures forall id :: id in ids <==> id in collected && runs[id] == 0
  {
    if collected == [] then []
    else
      var last := collected[|collected| - 1];
      var unrun := Unrun(collected[..|collected| - 1], runs);
      if runs[last] == 0 then unrun + [last] else unrun
  }

  function Repeated(runs: multiset<string>): (ids: seq<string>)
    ensures Ordered(ids, Text.Before)
    ensures forall id :: id in ids <==> runs[id] > 1
  {
    InPathOrder(set id | id in runs && runs[id] > 1)
  }

  function Uncollected(collected: seq<string>, runs: multiset<string>): (ids: seq<string>)
    ensures Ordered(ids, Text.Before)
    ensures forall id :: id in ids <==> runs[id] > 0 && id !in collected
  {
    InPathOrder((set id | id in runs) - Elements(collected))
  }

  /** The misrun tests of a kind: those run by no shard as they were collected, the others in path order. */
  function MisrunIds(kind: Kind, reports: map<int, ShardReport>): (ids: seq<string>)
    requires 1 in reports
    ensures forall id :: id in ids <==> Misrun(kind, id, reports)
  {
    var runs, collected := Runs(reports, Indexes(reports)), reports[1].collected;
    match kind
    case RunByNoShard => Unrun(collected, runs)
    case RunByMoreThanOneShard => Repeated(runs)
    case RunButNotCollected => Uncollected(collected, runs)
  }

  /** A misrun test is named if it is among the first of its kind, and the number of the others if there are any. */
  predicate NamesMisrun(p: Problem, reports: map<int, ShardReport>)
    requires 1 in reports
  {
    match p
    case Listed(kind, id) => id in First(MisrunIds(kind, reports), 20)
    case Unlisted(kind, others) => others > 0 && |MisrunIds(kind, reports)| == 20 + others
    case _ => false
  }

  function First<T>(items: seq<T>, n: nat): seq<T> { if |items| <= n then items else items[..n] }

  lemma ListedAreFirst(kind: Kind, ids: seq<string>, p: Problem)
    ensures p in ListedProblems(kind, ids) <==>
              match p
              case Listed(k, id) => k == kind && id in First(ids, LISTED_PROBLEM_LIMIT)
              case Unlisted(k, others) => k == kind && others > 0 && |ids| == LISTED_PROBLEM_LIMIT + others
              case _ => false
  {
    var problems := ListedProblems(kind, ids);
    if p.Listed? && p.kind == kind && p.nodeId in First(ids, LISTED_PROBLEM_LIMIT) {
      var i :| 0 <= i < |First(ids, LISTED_PROBLEM_LIMIT)| && First(ids, LISTED_PROBLEM_LIMIT)[i] == p.nodeId;
      assert problems[i] == p;
    }
    if p.Unlisted? && p.kind == kind && p.others > 0 && |ids| == LISTED_PROBLEM_LIMIT + p.others {
      assert problems[LISTED_PROBLEM_LIMIT] == p;
    }
  }

  /** The tests that were not run exactly once, or not collected. */
  method MisrunProblems(reports: map<int, ShardReport>, shardCount: int, runs: multiset<string>)
    returns (problems: seq<Problem>)
    requires 1 in reports && runs == Runs(reports, Indexes(reports))
    ensures forall p :: p in problems <==> NamesMisrun(p, reports)
    ensures AllHold(problems, reports, shardCount)
    ensures problems == [] <==> CollectedRanOnce(reports)
  {
    var collected := reports[1].collected;
    problems := ListedProblems(RunByNoShard, Unrun(collected, runs))
                + ListedProblems(RunByMoreThanOneShard, Repeated(runs))
                + ListedProblems(RunButNotCollected, Uncollected(collected, runs));
    MisrunsNamed(reports, shardCount);
    NoMisrunNamed(reports);
  }

  function AllMisrunProblems(reports: map<int, ShardReport>): seq<Problem>
    requires 1 in reports
  {
    var runs, collected := Runs(reports, Indexes(reports)), reports[1].collected;
    ListedProblems(RunByNoShard, Unrun(collected, runs))
    + ListedProblems(RunByMoreThanOneShard, Repeated(runs))
    + ListedProblems(RunButNotCollected, Uncollected(collected, runs))
  }

  lemma MisrunIdsAre(reports: map<int, ShardReport>)
    requires 1 in reports
    ensures var runs, collected := Runs(reports, Indexes(reports)), reports[1].collected;
            && MisrunIds(RunByNoShard, reports) == Unrun(collected, runs)
            && MisrunIds(RunByMoreThanOneShard, reports) == Repeated(runs)
            && MisrunIds(RunButNotCollected, reports) == Uncollected(collected, runs)
  {
  }

  lemma MisrunsNamed(reports: map<int, ShardReport>, shardCount: int)
    requires 1 in reports
    ensures forall p :: p in AllMisrunProblems(reports) <==> NamesMisrun(p, reports)
    ensures AllHold(AllMisrunProblems(reports), reports, shardCount)
  {
    NamesAllMisrun(reports);
    NamedMisrunHolds(reports, shardCount);
  }

  lemma NoMisrunNamed(reports: map<int, ShardReport>)
    requires 1 in reports
    ensures AllMisrunProblems(reports) == [] <==> CollectedRanOnce(reports)
  {
    MisrunIdsAre(reports);
    NothingMisrun(reports, MisrunIds(RunByNoShard, reports), MisrunIds(RunByMoreThanOneShard, reports),
                  MisrunIds(RunButNotCollected, reports));
  }

  lemma NamesAllMisrun(reports: map<int, ShardReport>)
    requires 1 in reports
    ensures forall p :: p in AllMisrunProblems(reports) <==> NamesMisrun(p, reports)
  {
    MisrunIdsAre(reports);
    forall p ensures p in AllMisrunProblems(reports) <==> NamesMisrun(p, reports) {
      ListedAreFirst(RunByNoShard, MisrunIds(RunByNoShard, reports), p);
      ListedAreFirst(RunByMoreThanOneShard, MisrunIds(RunByMoreThanOneShard, reports), p);
      ListedAreFirst(RunButNotCollected, MisrunIds(RunButNotCollected, reports), p);
    }
  }

  lemma NamedMisrunHolds(reports: map<int, ShardReport>, shardCount: int)
    requires 1 in reports
    ensures forall p :: NamesMisrun(p, reports) ==> Holds(p, reports, shardCount)
  {
    forall p | NamesMisrun(p, reports) ensures Holds(p, reports, shardCount) {
      var ids := MisrunIds(p.kind, reports);
      assert ids[0] in ids;
    }
  }

  /** Tests that no shard ran are named in the order they were collected, the others by path. */
  lemma {:induction false} UnrunInCollectionOrder(collected: seq<string>, runs: multiset<string>) returns (at: seq<nat>)
    ensures EmbedsAt(Unrun(collected, runs), collected, at)
  {
    if collected == [] {
      at := [];
    } else {
      var n := |collected| - 1;
      at := UnrunInCollectionOrder(collected[..n], runs);
      EmbedsFurther(Unrun(collected[..n], runs), collected, at, n);
      if runs[collected[n]] == 0 { at := at + [n]; }
    }
  }

  lemma MisrunIdsInOrder(kind: Kind, reports: map<int, ShardReport>) returns (at: seq<nat>)
    requires 1 in reports
    ensures if kind == RunByNoShard then EmbedsAt(MisrunIds(kind, reports), reports[1].collected, at)
            else Ordered(MisrunIds(kind, reports), Text.Before)
  {
    at := [];
    if kind == RunByNoShard { at := UnrunInCollectionOrder(reports[1].collected, Runs(reports, Indexes(reports))); }
  }

  function Unreported(reports: map<int, ShardReport>, shardCount: int): (problems: seq<Problem>)
    ensures forall p :: p in problems <==> p.DidNotReport? && 1 <= p.index <= shardCount && p.index !in reports
    ensures problems == [] <==> AllReported(reports, shardCount)
    decreases if shardCount < 0 then 0 else shardCount
  {
    if shardCount < 1 then []
    else
      var rest := Unreported(reports, shardCount - 1);
      if shardCount in reports then rest
      else
        assert DidNotReport(shardCount) in rest + [DidNotReport(shardCount)];
        rest + [DidNotReport(shardCount)]
  }

  lemma NothingMisrun(reports: map<int, ShardReport>, unrun: seq<string>, repeated: seq<string>, uncollected: seq<string>)
    requires 1 in reports
    requires forall id :: id in unrun <==> Misrun(RunByNoShard, id, reports)
    requires forall id :: id in repeated <==> Misrun(RunByMoreThanOneShard, id, reports)
    requires forall id :: id in uncollected <==> Misrun(RunButNotCollected, id, reports)
    ensures unrun == repeated == uncollected == [] <==> CollectedRanOnce(reports)
  {
    var runs := Runs(reports, Indexes(reports));
    if unrun != [] { assert Misrun(RunByNoShard, unrun[0], reports); }
    if repeated != [] { assert Misrun(RunByMoreThanOneShard, repeated[0], reports); }
    if uncollected != [] { assert Misrun(RunButNotCollected, uncollected[0], reports); }
    if unrun == repeated == uncollected == [] {
      forall id ensures runs[id] == if id in reports[1].collected then 1 else 0 {
        assert id !in unrun && id !in repeated && id !in uncollected;
      }
    }
  }

  // ---- The split meets its checker ----

  /** Shard `i` of `n` collected the tests of `suite`, in its own order, and reported what it kept. */
  ghost predicate RanShard(report: ShardReport, suite: seq<string>, measured: map<string, real>, i: int, n: int,
                           order: seq<string>, assignment: map<string, int>) {
    && report.index == i && report.count == n
    && multiset(report.collected) == multiset(suite)
    && IsSelection(report.collected, measured, i, n, order, assignment, report.selected)
  }

  /** Runners that collect the same tests, in any order, compute the same assignment. */
  lemma RunnersAgree(a: seq<string>, b: seq<string>, measured: map<string, real>, n: int,
                     orderA: seq<string>, forA: map<string, int>, orderB: seq<string>, forB: map<string, int>)
    requires multiset(a) == multiset(b)
    requires IsAssignment(FileWeights(a, measured), orderA, n, forA)
    requires IsAssignment(FileWeights(b, measured), orderB, n, forB)
    ensures forA == forB
  {
    TestsPerFileIgnoresOrder(a, b);
    AssignmentIsUnique(FileWeights(a, measured), n, orderA, forA, orderB, forB);
  }

  /** How often shard `i` ran a test: as often as it was collected, if the test's file is the shard's. */
  lemma RunsOfShard(report: ShardReport, suite: seq<string>, measured: map<string, real>, i: int, n: int,
                    order: seq<string>, assignment: map<string, int>, id: string)
    requires RanShard(report, suite, measured, i, n, order, assignment)
    ensures multiset(report.selected)[id]
         == if NodeFile(id) in assignment && assignment[NodeFile(id)] == i then multiset(suite)[id] else 0
  {
    KeptCounts(report.collected, assignment, i, id);
  }

  /** A test that only shard `target` keeps, `times` times, runs that often over all shards. */
  lemma {:induction false} RunsAddUp(reports: map<int, ShardReport>, keys: seq<int>, target: int, id: string, times: nat)
    requires Ordered(keys, Numerically)
    requires forall k :: k in keys ==> k in reports
    requires forall k :: k in keys ==> multiset(reports[k].selected)[id] == if k == target then times else 0
    ensures Runs(reports, keys)[id] == if target in keys then times else 0
  {
    if keys != [] {
      var last := |keys| - 1;
      assert keys[last] in keys && keys[last] !in keys[..last];
      RunsAddUp(reports, keys[..last], target, id, times);
      assert keys == keys[..last] + [keys[last]];
    }
  }

  /** The shard that runs a collected test, and only that shard, is one of the `n`. */
  lemma CollectedTestRunsOnce(reports: map<int, ShardReport>, suite: seq<string>, measured: map<string, real>, n: int,
                              order: seq<string>, assignment: map<string, int>, id: string)
    requires n >= 1 && reports.Keys == ShardNumbers(n)
    requires forall i :: i in reports ==> exists o :: RanShard(reports[i], suite, measured, i, n, o, assignment)
    requires RanShard(reports[1], suite, measured, 1, n, order, assignment)
    ensures Runs(reports, Indexes(reports))[id] == multiset(suite)[id]
  {
    var file, collected := NodeFile(id), reports[1].collected;
    var target := if file in assignment then assignment[file] else 0;
    forall k | k in reports
      ensures multiset(reports[k].selected)[id] == if k == target then multiset(suite)[id] else 0
    {
      var o :| RanShard(reports[k], suite, measured, k, n, o, assignment);
      RunsOfShard(reports[k], suite, measured, k, n, o, assignment, id);
    }
    RunsAddUp(reports, Indexes(reports), target, id, multiset(suite)[id]);
    if id in multiset(suite) {
      assert id in multiset(collected);
      TestsPerFileCounts(collected, id);
      AssignedToAShard(FileWeights(collected, measured), order, n, assignment, file);
    }
  }

  /** If every runner collects the same distinct tests, in whatever order, the coverage check
      finds no problem: the shards' selections partition the suite. */
  lemma SplitPassesCoverage(reports: map<int, ShardReport>, suite: seq<string>, measured: map<string, real>, n: int,
                            orders: map<int, seq<string>>, assignments: map<int, map<string, int>>)
    requires n >= 1 && reports.Keys == orders.Keys == assignments.Keys == ShardNumbers(n)
    requires forall id :: id in suite ==> multiset(suite)[id] == 1
    requires forall i :: i in reports ==> RanShard(reports[i], suite, measured, i, n, orders[i], assignments[i])
    ensures EachTestRanOnce(reports, n)
  {
    forall i | i in reports
      ensures exists o :: RanShard(reports[i], suite, measured, i, n, o, assignments[1])
      ensures Elements(reports[i].collected) == Elements(suite)
    {
      RunnersAgree(reports[i].collected, reports[1].collected, measured, n, orders[i], assignments[i], orders[1], assignments[1]);
      SameElements(reports[i].collected, suite);
    }
    SuiteRunsOnce(reports, suite, measured, n, orders[1], assignments[1]);
  }

  lemma SuiteRunsOnce(reports: map<int, ShardReport>, suite: seq<string>, measured: map<string, real>, n: int,
                      order: seq<string>, assignment: map<string, int>)
    requires n >= 1 && reports.Keys == ShardNumbers(n)
    requires forall id :: id in suite ==> multiset(suite)[id] == 1
    requires forall i :: i in reports ==> exists o :: RanShard(reports[i], suite, measured, i, n, o, assignment)
    requires RanShard(reports[1], suite, measured, 1, n, order, assignment)
    requires Elements(reports[1].collected) == Elements(suite)
    ensures CollectedRanOnce(reports)
  {
    forall id ensures Runs(reports, Indexes(reports))[id] == if id in reports[1].collected then 1 else 0 {
      CollectedTestRunsOnce(reports, suite, measured, n, order, assignment, id);
      assert id in Elements(reports[1].collected) <==> id in Elements(suite);
      assert id in suite <==> id in multiset(suite);
    }
  }

  lemma SameElements(a: seq<string>, b: seq<string>)
    requires multiset(a) == multiset(b)
    ensures Elements(a) == Elements(b)
  {
    forall id ensures id in a <==> id in b {
      assert id in a <==> id in multiset(a);
      assert id in b <==> id in multiset(b);
    }
  }

  /** A runner keeps a collected test as often as it was collected if the test's file was assigned
      to its shard, and otherwise not at all. */
  lemma ShardKeepsItsFiles(nodeIds: seq<string>, measured: map<string, real>, index: int, count: int,
                           order: seq<string>, assignment: map<string, int>, selected: seq<string>, id: string,
                           file: string)
    requires IsSelection(nodeIds, measured, index, count, order, assignment, selected)
    requires id in nodeIds && IsFileOf(file, id)
    ensures file in assignment
    ensures multiset(selected)[id] == if assignment[file] == index then multiset(nodeIds)[id] else 0
  {
    NodeFileIs(id, file);
    KeptCounts(nodeIds, assignment, index, id);
  }

  /** Tests whose text before the first "::" is the same stay together. */
  lemma FilesStayWhole(nodeIds: seq<string>, measured: map<string, real>, index: int, count: int,
                       order: seq<string>, assignment: map<string, int>, selected: seq<string>, a: string, b: string,
                       file: string)
    requires IsSelection(nodeIds, measured, index, count, order, assignment, selected)
    requires a in nodeIds && b in nodeIds && IsFileOf(file, a) && IsFileOf(file, b)
    ensures a in selected <==> b in selected
  {
    ShardKeepsItsFiles(nodeIds, measured, index, count, order, assignment, selected, a, file);
    ShardKeepsItsFiles(nodeIds, measured, index, count, order, assignment, selected, b, file);
    assert a in multiset(nodeIds) && b in multiset(nodeIds);
    assert a in selected <==> a in multiset(selected);
    assert b in selected <==> b in multiset(selected);
  }
}
