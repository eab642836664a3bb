/** A run of the cache in which a record's score drops, and the index loses a record that belongs in it. */
module RescoredIndex {
  import opened Outcome
  import opened CacheStore
  import opened BoundedIndex
  import opened ReformImpacts

  /** The states of the run that takes these steps. */
  ghost function Trace(s: Cache, steps: seq<Step>): (states: seq<Cache>)
    ensures |states| == |steps| + 1 && states[0] == s
  {
    if steps == [] then [s]
    else
      var n := |steps| - 1;
      var before := Trace(s, steps[..n]);
      before + [Next(before[n], steps[n])]
  }

  lemma {:induction false} TraceIsRun(s: Cache, steps: seq<Step>)
    requires forall i :: 0 <= i < |steps| ==> LawfulStep(steps[i])
    ensures IsRun(Trace(s, steps), steps)
  {
    if steps != [] { TraceIsRun(s, steps[..|steps| - 1]); }
  }

  /** A write of this impact's record under this identifier, with this start time. */
  function Timed(impact: Impact, id: nat, start: real, onlyIfPresent: bool): (w: Write)
    ensures Lawful(w)
  {
    Write(impact.(startTime := Some(start)), id, REFORM_IMPACT_TTL_SECONDS, None, 0.0, 0.0, onlyIfPresent)
  }

  /** A full index of jobs that started together, an earlier job, and one of the first again with a
      start before that. */
  function RescoringSteps(impact: Impact): (steps: seq<Step>)
    ensures forall i :: 0 <= i < |steps| ==> LawfulStep(steps[i]) && (steps[i].Create? || steps[i].Rewrite?)
  {
    seq(REFORM_IMPACT_INDEX_LIMIT, i requires 0 <= i => Create(Timed(impact, i, 5.0, false)))
    + [Create(Timed(impact, REFORM_IMPACT_INDEX_LIMIT, 3.0, false))]
    + [Rewrite(Timed(impact, 0, 1.0, true))]
  }

  /** What those steps add to an index: one entry each. */
  function RescoredAdditions(): seq<Addition> {
    FirstAdditions() + [Addition(0, 1.0)]
  }

  function FirstAdditions(): seq<Addition> {
    seq(REFORM_IMPACT_INDEX_LIMIT, i requires 0 <= i => Addition(i, 5.0)) + [Addition(REFORM_IMPACT_INDEX_LIMIT, 3.0)]
  }

  lemma {:induction false} AdditionsOfWrites(steps: seq<Step>, index: Key)
    requires forall i :: 0 <= i < |steps| ==> Additions(steps[i], index) != []
    ensures |AllAdditions(steps, index)| == |steps|
    ensures forall i :: 0 <= i < |steps| ==> AllAdditions(steps, index)[i] == Additions(steps[i], index)[0]
  {
    if steps != [] { AdditionsOfWrites(steps[..|steps| - 1], index); }
  }

  lemma StepsAdd(impact: Impact)
    ensures AllAdditions(RescoringSteps(impact), RecentIndex) == RescoredAdditions()
  {
    AdditionsOfWrites(RescoringSteps(impact), RecentIndex);
  }

  /** The numbers below `n`. */
  function Below(n: nat): (numbers: set<nat>)
    ensures |numbers| == n && forall i: nat :: i in numbers <==> i < n
  {
    if n == 0 then {} else Below(n - 1) + {n - 1}
  }

  /** The members are the numbers below `n`, all with this score. */
  ghost predicate Uniform(members: map<nat, real>, n: nat, score: real) {
    (forall id: nat :: id in members <==> id < n) && forall id :: id in members ==> members[id] == score
  }

  lemma UniformNext(members: map<nat, real>, n: nat, score: real)
    requires Uniform(members, n, score)
    ensures Uniform(members[n := score], n + 1, score)
  {
  }

  lemma {:induction false} HistoryOfFirst(additions: seq<Addition>, score: real)
    requires forall i :: 0 <= i < |additions| ==> additions[i] == Addition(i, score)
    ensures Uniform(History(additions), |additions|, score)
  {
    if additions != [] {
      var n := |additions| - 1;
      HistoryOfFirst(additions[..n], score);
      UniformNext(History(additions[..n]), n, score);
    }
  }

  /** The earlier job is the one that is displaced; the first of the others is still among the newest. */
  lemma EarlierIsDisplaced(members: map<nat, real>, limit: nat)
    requires limit >= 1 && Uniform(members, limit, 5.0)
    ensures FallsBelowDisplaced(members[limit := 3.0], limit, 0, 1.0)
  {
    var history := members[limit := 3.0];
    assert Above(history, limit) == Below(limit);
    assert Above(history, 0) <= Below(limit) - {0};
    SubsetCount(Above(history, 0), Below(limit) - {0});
    assert limit in history && limit !in Newest(history, limit) && RanksAbove(history, limit, 0, 1.0);
  }

  lemma FirstNeverDrop()
    ensures NeverDrops(FirstAdditions())
  {
  }

  /** Scores must not drop: after this run of 1,002 writes an index holds a record that is not among
      its 1,000 highest-ranking entries, in place of one that is. */
  lemma RescoringLosesARecord(s: Cache, impact: Impact)
    requires s.sets == map[]
    ensures exists states: seq<Cache>, steps: seq<Step> ::
              && IsRun(states, steps) && states[0] == s && |steps| == REFORM_IMPACT_INDEX_LIMIT + 2
              && 0 in MembersOf(states[|steps|], RecentIndex)
              && 0 !in Newest(History(AllAdditions(steps, RecentIndex)), REFORM_IMPACT_INDEX_LIMIT)
  {
    var steps := RescoringSteps(impact);
    var states := Trace(s, steps);
    TraceIsRun(s, steps);
    IndexFollowsRun(states, steps, RecentIndex);
    StepsAdd(impact);
    RescoredIndexDiffers();
  }

  /** The index is exact up to the last addition. */
  lemma FirstIsExact()
    ensures Index(FirstAdditions(), REFORM_IMPACT_INDEX_LIMIT) == Newest(History(FirstAdditions()), REFORM_IMPACT_INDEX_LIMIT)
  {
    FirstNeverDrop();
    NeverDropsNoneFalls(FirstAdditions(), REFORM_IMPACT_INDEX_LIMIT);
    IndexIsHistoryTrimmedOnce(FirstAdditions(), REFORM_IMPACT_INDEX_LIMIT);
  }

  lemma LastFalls()
    ensures FallsBelowDisplaced(History(FirstAdditions()), REFORM_IMPACT_INDEX_LIMIT, 0, 1.0)
  {
    var full := seq(REFORM_IMPACT_INDEX_LIMIT, i requires 0 <= i => Addition(i, 5.0));
    HistoryOfFirst(full, 5.0);
    HistoryNext(full, Addition(REFORM_IMPACT_INDEX_LIMIT, 3.0));
    EarlierIsDisplaced(History(full), REFORM_IMPACT_INDEX_LIMIT);
  }

  lemma RescoredIndexDiffers()
    ensures 0 in Index(RescoredAdditions(), REFORM_IMPACT_INDEX_LIMIT)
    ensures 0 !in Newest(History(RescoredAdditions()), REFORM_IMPACT_INDEX_LIMIT)
  {
    var first := FirstAdditions();
    FirstIsExact();
    LastFalls();
    HistoryNext(first, Addition(0, 1.0));
    IndexNext(first, Addition(0, 1.0), REFORM_IMPACT_INDEX_LIMIT);
    SomethingLost(History(first), REFORM_IMPACT_INDEX_LIMIT, 0, 1.0);
  }
}
