/** What polling a simulation's execution writes to its record, and what becomes of the record after that. */
module ImpactExecution {
  import opened Outcome
  import opened CacheStore
  import opened ReformImpacts
  import opened OptionsHash
  import opened ReusableImpact
  import opened WorkerCertification

  const RETRYABLE_FAILURE_SECONDS := 120
  const SPM_CONFIGURATION_UNAVAILABLE := "SPM_CONFIGURATION_UNAVAILABLE"
  const LOCAL_AREA_BREAKDOWN := "local_areas"

  datatype ExecutionState = Succeeded | Unsuccessful | Pending | Unexpected

  /** The gateway's answer to a poll. `refusal` is a typed error of the poll itself, a code and a
      message; `result` is what a succeeded job returned, and `named` the application it names. */
  datatype Execution = Execution(
    refusal: Option<(string, string)>,
    state: ExecutionState,
    result: WorkerResult,
    named: Option<string>,
    resolvedAppName: Option<string>,
    message: string)

  datatype Update =
    | NoUpdate
    | Complete(result: WorkerResult, resolvedAppName: Option<string>)
    | Fail(message: string, errorCode: Option<string>, keepSeconds: Option<int>)

  predicate IsBreakdown(request: Request) { Given(request.options, "breakdown") }

  predicate IsUsState(request: Request) { request.scope.countryId == "us" && "state/" <= request.scope.region }

  /** How long the failure of such a job is kept, if not for the cache's usual lifetime. */
  function FailureKeepSeconds(request: Request): Option<int> {
    if IsBreakdown(request) || IsUsState(request) then Some(RETRYABLE_FAILURE_SECONDS) else None
  }

  const EMPTY_RESULT := Object(None, None, NoList, None, false, None)

  /** The result with its bundle: anything but an object counts as an empty one. */
  function WithBundle(result: WorkerResult): WorkerResult { if result.Object? then result else EMPTY_RESULT }

  function NonEmpty(name: Option<string>): Option<string> { if name == Some("") then None else name }

  /** The application that the stored result names: the execution's, the request's or the result's own. */
  function ResolvedName(request: Request, execution: Execution): Option<string> {
    if NonEmpty(execution.resolvedAppName).Some? then execution.resolvedAppName
    else if NonEmpty(request.runtimeAppName).Some? then request.runtimeAppName
    else execution.named
  }

  predicate IsKind(result: WorkerResult, kind: string) { result.Object? && result.kind == Some(kind) }

  predicate CertifiedFor(request: Request, result: WorkerResult) {
    Certifies(result, request.spm, Some(request.scope.timePeriod), None)
  }

  function HandleExecution(request: Request, execution: Execution): Update {
    if execution.refusal.Some? then Fail(execution.refusal.value.1, Some(execution.refusal.value.0), None)
    else
      match execution.state
      case Succeeded =>
        if IsBreakdown(request) && !IsKind(execution.result, LOCAL_AREA_BREAKDOWN) then
          Fail("a result of another kind", None, Some(RETRYABLE_FAILURE_SECONDS))
        else if !CertifiedFor(request, WithBundle(execution.result)) then
          Fail("the result cannot be certified", Some(SPM_CONFIGURATION_UNAVAILABLE), None)
        else Complete(WithBundle(execution.result), ResolvedName(request, execution))
      case Unsuccessful => Fail(execution.message, None, FailureKeepSeconds(request))
      case Pending => NoUpdate
      case Unexpected => NoUpdate
  }

  /** Replaying a finished job that can no longer be certified marks it, if it is the request's own. */
  function ReplayFinished(request: Request, impact: Impact): Update {
    if CertifiedFor(request, impact.result) || impact.optionsHash != Some(request.optionsHash) then NoUpdate
    else Fail("the result cannot be certified", Some(SPM_CONFIGURATION_UNAVAILABLE), None)
  }

  /** What answering from a selected job writes to its record. */
  function AnswerFrom(request: Request, selected: Impact, execution: Execution): Update {
    match selected.status
    case Computing => HandleExecution(request, execution)
    case Finished => ReplayFinished(request, selected)
    case _ => NoUpdate
  }

  /** A typed failure also clears the worker handle. */
  function Updated(impact: Impact, update: Update, now: real): (updated: Impact)
    requires !update.NoUpdate?
    ensures IdentityOf(updated) == IdentityOf(impact)
  {
    match update
    case Complete(result, resolvedAppName) =>
      impact.(status := Finished, result := result, resolvedAppName := resolvedAppName, endTime := Some(now))
    case Fail(message, errorCode, _) =>
      impact.(status := Failed, errorCode := errorCode, endTime := Some(now),
              executionId := if errorCode.Some? then None else impact.executionId)
  }

  function UpdateWrite(impact: Impact, id: nat, update: Update, now: real, ttl: int): (w: Write)
    requires !update.NoUpdate?
    ensures w.onlyIfPresent && w.impact.status != Computing
  {
    Write(Updated(impact, update, now), id, ttl, if update.Fail? then update.keepSeconds else None, now, now, true)
  }

  // ---- A briefly kept failure ----

  lemma WholeSecondsOf(seconds: nat)
    ensures WholeSeconds(Ceiling(seconds as real * 1000.0)) == seconds && Ceiling(seconds as real * 1000.0) == seconds * 1000
  {
    assert (-(seconds as real * 1000.0)) == (-(seconds * 1000)) as real;
  }

  lemma IndexedExpiry(s: Cache, index: Key, members: map<nat, real>, ttl: int, other: Key)
    ensures var indexed := Indexed(s, index, members, ttl);
            && indexed.now == s.now && indexed.values == s.values
            && index in indexed.expires && indexed.expires[index] == s.now + ttl as real && index in indexed.sets
            && (other != index && other in s.expires ==> other in indexed.expires && indexed.expires[other] == s.expires[other])
            && (other in s.sets ==> other in indexed.sets)
  {
  }

  lemma WrittenExpiries(s: Cache, w: Write)
    requires Lawful(w) && Stores(s, w)
    ensures Present(Wrote(s, w), RecordKey(w.id)) && Present(Wrote(s, w), IndexOf(w.impact))
    ensures RecordKey(w.id) in Wrote(s, w).expires && IndexOf(w.impact) in Wrote(s, w).expires
    ensures Wrote(s, w).now == s.now
    ensures Wrote(s, w).expires[RecordKey(w.id)] == s.now + RecordTtl(w.recordTtl, w.ttl) as real
    ensures Wrote(s, w).expires[IndexOf(w.impact)] == s.now + w.ttl as real
  {
    var recorded, scopeIndex := Recorded(s, w), IndexOf(w.impact);
    var inScope := Indexed(recorded, scopeIndex, EnteredBy(s, w, scopeIndex), w.ttl);
    IndexedExpiry(recorded, scopeIndex, EnteredBy(s, w, scopeIndex), w.ttl, RecordKey(w.id));
    IndexedExpiry(inScope, RecentIndex, EnteredBy(s, w, RecentIndex), w.ttl, RecordKey(w.id));
    IndexedExpiry(inScope, RecentIndex, EnteredBy(s, w, RecentIndex), w.ttl, scopeIndex);
  }

  lemma BriefRecordSecondsLeft(s: Cache, impact: Impact, id: nat, seconds: nat, ttl: nat)
    requires impact.executionId == Some(id) && seconds <= ttl
    requires Present(s, RecordKey(id)) && RecordKey(id) in s.expires && s.expires[RecordKey(id)] == s.now + seconds as real
    requires Present(s, IndexOf(impact)) && IndexOf(impact) in s.expires && s.expires[IndexOf(impact)] == s.now + ttl as real
    ensures SecondsLeft(s, impact) == Some(seconds)
  {
    WholeSecondsOf(seconds);
    WholeSecondsOf(ttl);
  }

  lemma ExpiredIsNotFound(s: Cache, id: nat, seconds: real, index: Key)
    requires RecordKey(id) in s.expires && s.expires[RecordKey(id)] <= s.now + seconds
    ensures !Finds(Advance(s, seconds), index, id)
  {
    assert RecordKey(id) !in Advance(s, seconds).values;
    FindsListed(Advance(s, seconds), index, id);
  }

  /** Storing a failure that may be retried tells its callers to wait exactly its two minutes, and
      by then no lookup finds it, through any index. */
  lemma RetryableFailureExpires(s: Cache, impact: Impact, id: nat, update: Update, now: real, ttl: int, index: Key)
    requires RecordKey(id) in s.values && impact.executionId == Some(id)
    requires update.Fail? && update.errorCode.None? && update.keepSeconds == Some(RETRYABLE_FAILURE_SECONDS)
    requires ttl >= RETRYABLE_FAILURE_SECONDS
    ensures var w := UpdateWrite(impact, id, update, now, ttl);
            var after := ApplyAll(s, WriteCommands(w));
            && SecondsLeft(after, w.impact) == Some(RETRYABLE_FAILURE_SECONDS)
            && !Finds(Advance(after, RETRYABLE_FAILURE_SECONDS as real), index, id)
  {
    var w := UpdateWrite(impact, id, update, now, ttl);
    WriteEffect(s, w);
    WrittenExpiries(s, w);
    BriefRecordSecondsLeft(Wrote(s, w), w.impact, id, RETRYABLE_FAILURE_SECONDS, ttl);
    ExpiredIsNotFound(Wrote(s, w), id, RETRYABLE_FAILURE_SECONDS as real, index);
  }
}
