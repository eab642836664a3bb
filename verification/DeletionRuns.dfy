/** A DELETE of a stored failure inside a run of annual economy requests. */
module DeletionRuns {
  import opened Outcome
  import opened CacheStore
  import opened ReformImpacts
  import opened ReusableImpact
  import opened EconomyRuns
  import FD = FailureDeletion

  /** The script that a DELETE removes its failure with. */
  function Removal(d: FD.Deletion): Step
    requires d.phase.Removing?
  {
    DeleteFailure(d.phase.id, d.phase.failure.scope, d.phase.failure.apiVersion, d.phase.value)
  }

  /** Step `k` of the DELETE meets the cache of the run's state `at[k]`, in the run's order; a step
      that changes the cache is the run's next move. */
  ghost predicate TakesPartIn(ds: seq<FD.Deletion>, caches: seq<Cache>, answers: seq<FD.Answer>, at: seq<nat>,
                              states: seq<Cache>, moves: seq<Move>)
    requires |ds| == |answers| + 1 && |caches| == |answers| && |states| == |moves| + 1
  {
    && |at| == |caches|
    && (forall k, l :: 0 <= k <= l < |at| ==> at[k] <= at[l])
    && forall k :: 0 <= k < |at| ==>
         && at[k] < |states| && caches[k] == states[at[k]]
         && (FD.StepCache(ds[k], caches[k], answers[k]) != caches[k] ==>
               ds[k].phase.Removing? && at[k] < |moves| && moves[at[k]] == Move.Other(Removal(ds[k])))
  }

  lemma RemovalIsStep(d: FD.Deletion, s: Cache, answer: FD.Answer)
    requires d.phase.Removing? && FD.StepCache(d, s, answer) != s
    ensures LawfulStep(Removal(d)) && Next(s, Removal(d)) == FD.StepCache(d, s, answer)
  {
  }

  /** In every run of the service, whatever other requests do between a DELETE's steps, the record
      that it removes is a job that was submitted for the DELETE's own calculation, of its scope and
      cache version and with its hash, the hash it resolved to, or one that extends it; and the run
      goes on without exactly that record and its two index entries. */
  lemma DeletedJobIsTheRequests(jobs: nat -> Identity, asked: Request -> bool, states: seq<Cache>, moves: seq<Move>,
                                start: FD.Deletion, ds: seq<FD.Deletion>, caches: seq<Cache>, answers: seq<FD.Answer>,
                                at: seq<nat>, i: nat)
    requires IsEconomyRun(jobs, asked, states, moves) && FD.IsDeletion(start, ds, caches, answers)
    requires TakesPartIn(ds, caches, answers, at, states, moves) && i < |answers|
    requires FD.StepCache(ds[i], caches[i], answers[i]) != caches[i]
    ensures IsFor(FD.RequestOf(start.original, ds[i].phase.selection.resolution), jobs(ds[i].phase.id))
    ensures FD.OnlyRemoves(states[at[i]], states[at[i] + 1], ds[i].phase.id,
                           ScopeIndex(start.original.scope, start.original.apiVersion))
  {
    SeenCachesAreConsistent(jobs, asked, states, moves, caches, at);
    FD.RemovedFailureIsTheRequests(jobs, start, ds, caches, answers, i);
    FD.DeleteIsSafe(start, ds, caches, answers, i);
    RemovalIsStep(ds[i], caches[i], answers[i]);
    assert RecordIsOf(jobs(ds[i].phase.id), ds[i].phase.id, Decoded(Get(caches[i], RecordKey(ds[i].phase.id))));
  }

  lemma SeenCachesAreConsistent(jobs: nat -> Identity, asked: Request -> bool, states: seq<Cache>, moves: seq<Move>,
                                caches: seq<Cache>, at: seq<nat>)
    requires IsEconomyRun(jobs, asked, states, moves) && |at| == |caches|
    requires forall k :: 0 <= k < |at| ==> at[k] < |states| && caches[k] == states[at[k]]
    ensures forall k :: 0 <= k < |caches| ==> Consistent(jobs, caches[k])
  {
    forall k | 0 <= k < |caches| ensures Consistent(jobs, caches[k]) {
      RecordsKeepToTheirJobs(jobs, asked, states, moves, at[k]);
    }
  }
}
