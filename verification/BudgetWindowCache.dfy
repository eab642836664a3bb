/** The cache of budget-window reports: one key holds a report's claim, then its batch, then its result. */
module BudgetWindowCache {
  import opened Outcome
  import opened CacheStore
  import opened CacheBackend
  import opened Claims
  import opened CacheCore
  import opened BudgetWindowState
  import RI = ReformImpacts

  const BUDGET_WINDOW_STARTING_TTL_SECONDS := 300
  const BUDGET_WINDOW_BATCH_TTL_SECONDS := 86_400
  const BUDGET_WINDOW_RESULT_TTL_SECONDS := 2_592_000

  /** The state key of one report: every input is part of it. */
  datatype Report = Report(scope: RI.Scope, optionsHash: Option<string>, apiVersion: string)

  type Cache = Store<Report, Encoded>

  /** A result's lifetime, less a random reduction of at most a tenth. */
  function ResultTtl(reduction: nat): (ttl: int)
    requires reduction <= BUDGET_WINDOW_RESULT_TTL_SECONDS / 10
    ensures ttl == BUDGET_WINDOW_RESULT_TTL_SECONDS - reduction && ttl > BUDGET_WINDOW_BATCH_TTL_SECONDS
  {
    JitteredTtl(BUDGET_WINDOW_RESULT_TTL_SECONDS, COMPLETED_RESULT_TTL_JITTER_FRACTION, reduction).value
  }

  // ---- What each operation does to the cache ----

  function WithState(s: Cache, report: Report, state: State, ttl: int): Cache {
    s.(values := s.values[report := EncodedState(state)], expires := s.expires[report := s.now + ttl as real])
  }

  function ReadState(s: Cache, report: Report): Option<State> {
    if report in s.values then DecodedState(s.values[report]) else None
  }

  /** A value that does not decode is removed by the read that finds it. */
  function AfterRead(s: Cache, report: Report): Cache {
    if report in s.values && DecodedState(s.values[report]).None? then Delete(s, {report}) else s
  }

  /** What is written is what the next read finds. */
  lemma StateReadsBack(s: Cache, report: Report, state: State, ttl: int)
    requires Complete(state)
    ensures ReadState(WithState(s, report, state, ttl), report) == Some(state)
  {
    StateRoundTrip(state);
  }

  lemma SettingState(s: Cache, report: Report, state: State, ttl: int)
    requires ttl > 0
    ensures SetValue(s, report, EncodedState(state), Some(ttl), false, false) == (WithState(s, report, state, ttl), true)
  {
  }

  /** Cleaning up after a read never removes a state that a request wrote. */
  lemma CleanupSparesStates(s: Cache, report: Report, state: State)
    requires Complete(state) && Get(s, report) == Some(EncodedState(state))
    ensures ReadState(s, report) == Some(state) && AfterRead(s, report) == s
  {
    StateRoundTrip(state);
  }

  class BudgetWindowCache {
    const client: InMemoryCacheBackend<Report, Encoded>
    const claims: ExpiringClaimStore<Report, Encoded>

    ghost predicate Valid()
      reads client
    {
      claims.client == client && client.Valid()
    }

    ghost function View(): Cache
      reads client
    {
      client.View()
    }

    constructor (client: InMemoryCacheBackend<Report, Encoded>)
      requires client.Valid()
      ensures Valid() && this.client == client && fresh(claims)
    {
      this.client := client;
      claims := new ExpiringClaimStore(client);
    }

    /** The report's state, if it has one; a value that is no state is removed. */
    method GetState(report: Report) returns (state: Option<State>)
      requires Valid()
      modifies client
      ensures Valid()
      ensures state == ReadState(old(View()), report)
      ensures View() == AfterRead(old(View()), report)
      ensures state.Some? ==> Complete(state.value)
    {
      var encoded := client.GetValue(report);
      if encoded.None? {
        return None;
      }
      state := DecodedState(encoded.value);
      if state.None? {
        var released := claims.Release(report, encoded.value);
      }
    }

    /** Claims the right to submit the report's batch, if the report has no state. */
    method ClaimBatchStart(report: Report, claimToken: string, observabilityId: Option<string>) returns (r: Result<bool>)
      requires Valid()
      modifies client
      ensures Valid()
      ensures r.Err? <==> claimToken == ""
      ensures r.Err? ==> View() == old(View())
      ensures r.Ok? ==> r.value == (report !in old(View()).values)
      ensures r.Ok? ==> View() == if r.value then
                                    WithState(old(View()), report, StartingState(claimToken, observabilityId),
                                              BUDGET_WINDOW_STARTING_TTL_SECONDS)
                                  else old(View())
    {
      var state := StartingState(claimToken, observabilityId);
      if !Complete(state) {
        return Err("starting state requires: submission_claim_id");
      }
      r := claims.Acquire(report, Some(EncodedState(state)), BUDGET_WINDOW_STARTING_TTL_SECONDS);
    }

    /** Removes this caller's own claim, and nothing else. */
    method ClearStartingClaim(report: Report, claimToken: string, observabilityId: Option<string>) returns (r: Result<()>)
      requires Valid()
      modifies client
      ensures Valid()
      ensures r.Err? <==> claimToken == ""
      ensures View() == if r.Ok? then
                          Released(old(View()), report, EncodedState(StartingState(claimToken, observabilityId)))
                        else old(View())
    {
      var state := StartingState(claimToken, observabilityId);
      if !Complete(state) {
        return Err("starting state requires: submission_claim_id");
      }
      var released := claims.Release(report, EncodedState(state));
      return Ok(());
    }

    /** Replaces whatever the report holds by the submitted batch. */
    method StoreSubmitted(report: Report, batchJobId: string, observabilityId: Option<string>) returns (r: Result<()>)
      requires Valid()
      modifies client
      ensures Valid()
      ensures r.Err? <==> batchJobId == ""
      ensures View() == if r.Err? then old(View())
                        else WithState(old(View()), report, SubmittedState(batchJobId, observabilityId),
                                       BUDGET_WINDOW_BATCH_TTL_SECONDS)
      ensures r.Ok? ==> ReadState(View(), report) == Some(SubmittedState(batchJobId, observabilityId))
    {
      var state := SubmittedState(batchJobId, observabilityId);
      if !Complete(state) {
        return Err("submitted state requires: batch_job_id");
      }
      Put(report, state, BUDGET_WINDOW_BATCH_TTL_SECONDS);
      return Ok(());
    }

    method SetCompletedResult(report: Report, result: Document, observabilityId: Option<string>, reduction: nat)
      returns (stored: bool)
      requires Valid() && reduction <= BUDGET_WINDOW_RESULT_TTL_SECONDS / 10
      modifies client
      ensures Valid() && stored
      ensures View() == WithState(old(View()), report, CompletedState(result, observabilityId),
                                  ResultTtl(reduction))
      ensures ReadState(View(), report) == Some(CompletedState(result, observabilityId))
    {
      stored := SetRecoverableState(report, CompletedState(result, observabilityId), reduction);
    }

    method SetFailure(report: Report, failureType: FailureType, error: Document, observabilityId: Option<string>,
                      reduction: nat)
      returns (stored: bool)
      requires Valid() && reduction <= BUDGET_WINDOW_RESULT_TTL_SECONDS / 10
      modifies client
      ensures Valid() && stored
      ensures View() == WithState(old(View()), report, FailedState(failureType, error, observabilityId),
                                  ResultTtl(reduction))
      ensures ReadState(View(), report) == Some(FailedState(failureType, error, observabilityId))
    {
      stored := SetRecoverableState(report, FailedState(failureType, error, observabilityId), reduction);
    }

    method SetRecoverableState(report: Report, state: State, reduction: nat) returns (stored: bool)
      requires Valid() && Complete(state) && reduction <= BUDGET_WINDOW_RESULT_TTL_SECONDS / 10
      modifies client
      ensures Valid() && stored
      ensures View() == WithState(old(View()), report, state, ResultTtl(reduction))
      ensures ReadState(View(), report) == Some(state)
    {
      Put(report, state, ResultTtl(reduction));
      stored := true;
    }

    method Put(report: Report, state: State, ttl: int)
      requires Valid() && Complete(state) && ttl > 0
      modifies client
      ensures Valid() && View() == WithState(old(View()), report, state, ttl)
      ensures ReadState(View(), report) == Some(state)
    {
      StateReadsBack(View(), report, state, ttl);
      SettingState(View(), report, state, ttl);
      var stored := client.Set(report, EncodedState(state), Some(ttl), false, false);
    }
  }
}
