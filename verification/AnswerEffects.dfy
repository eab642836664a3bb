/** What answering an annual request from a stored job does to the job's record, and for what reasons. */
module AnswerEffects {
  import opened Outcome
  import opened CacheStore
  import opened ReformImpacts
  import opened OptionsHash
  import opened ReusableImpact
  import opened ImpactExecution
  import opened EconomyRuns
  import WC = WorkerCertification

  // ---- The reasons to write ----

  predicate WantsBreakdown(request: Request) { "breakdown" in request.options && !request.options["breakdown"].isNone }

  /** The polled result is a breakdown's, if that was asked for. */
  predicate IsWanted(request: Request, result: WC.WorkerResult) {
    WantsBreakdown(request) ==> result.Object? && result.kind == Some("local_areas")
  }

  /** The result as it is stored: anything but an object counts as an empty one. */
  function Stored(result: WC.WorkerResult): WC.WorkerResult {
    if result.Object? then result else WC.Object(None, None, WC.NoList, None, false, None)
  }

  predicate IsCertified(request: Request, result: WC.WorkerResult) {
    WC.Certifies(result, request.spm, Some(request.scope.timePeriod), None)
  }

  predicate Polled(selected: Impact, execution: Execution, state: ExecutionState) {
    selected.status == Computing && execution.refusal.None? && execution.state == state
  }

  /** The job ended with a result that is wanted and certified. */
  predicate Finishes(request: Request, selected: Impact, execution: Execution) {
    Polled(selected, execution, Succeeded) && IsWanted(request, execution.result)
    && IsCertified(request, Stored(execution.result))
  }

  /** The job failed, or ended with a result that is not wanted. */
  predicate Fails(request: Request, selected: Impact, execution: Execution) {
    || Polled(selected, execution, Unsuccessful)
    || (Polled(selected, execution, Succeeded) && !IsWanted(request, execution.result))
  }

  /** The poll was refused, or the polled result, or the request's own stored one, is not certified. */
  predicate Refuses(request: Request, selected: Impact, execution: Execution) {
    || (selected.status == Computing && execution.refusal.Some?)
    || (Polled(selected, execution, Succeeded) && IsWanted(request, execution.result)
        && !IsCertified(request, Stored(execution.result)))
    || (selected.status == Finished && !IsCertified(request, selected.result)
        && selected.optionsHash == Some(request.optionsHash))
  }

  /** A record is written exactly for one of these three reasons: a job that is still running, one
      in a state nobody knows, a certified result and a failure are answered without a write. */
  lemma WritesForAReason(request: Request, selected: Impact, execution: Execution)
    ensures !AnswerFrom(request, selected, execution).NoUpdate?
       <==> Finishes(request, selected, execution) || Fails(request, selected, execution) || Refuses(request, selected, execution)
  {
  }

  lemma OneReason(request: Request, selected: Impact, execution: Execution)
    ensures !(Finishes(request, selected, execution) && Fails(request, selected, execution))
    ensures !(Finishes(request, selected, execution) && Refuses(request, selected, execution))
    ensures !(Fails(request, selected, execution) && Refuses(request, selected, execution))
  {
  }

  // ---- What is written ----

  predicate IsName(name: Option<string>) { name.Some? && name.value != "" }

  /** The application that ran the job: the execution's, or the request's, or the one the result names. */
  function AppOf(request: Request, execution: Execution): Option<string> {
    if IsName(execution.resolvedAppName) then execution.resolvedAppName
    else if IsName(request.runtimeAppName) then request.runtimeAppName
    else execution.named
  }

  function RefusalCode(selected: Impact, execution: Execution): string {
    if selected.status == Computing && execution.refusal.Some? then execution.refusal.value.0
    else "SPM_CONFIGURATION_UNAVAILABLE"
  }

  /** The record after the answer. Only a refusal, which has a code, drops the worker handle. */
  function RecordAfter(request: Request, selected: Impact, execution: Execution, read: Impact, now: real): Impact {
    if Finishes(request, selected, execution) then
      read.(status := Finished, endTime := Some(now), result := Stored(execution.result),
            resolvedAppName := AppOf(request, execution))
    else if Refuses(request, selected, execution) then
      read.(status := Failed, endTime := Some(now), errorCode := Some(RefusalCode(selected, execution)), executionId := None)
    else read.(status := Failed, endTime := Some(now), errorCode := None)
  }

  /** A failure is kept two minutes, for a breakdown or a US state; everything else for the usual time. */
  function KeptSeconds(request: Request, selected: Impact, execution: Execution, ttl: int): int {
    if Fails(request, selected, execution)
       && (WantsBreakdown(request) || (request.scope.countryId == "us" && "state/" <= request.scope.region))
    then 120 else ttl
  }

  lemma WriteIs(a: Answer, selected: Impact, read: Impact)
    requires a.ttl > 0 && selected.executionId.Some? && !AnswerFrom(a.request, selected, a.execution).NoUpdate?
    ensures var w := WriteOver(a, selected, read);
            && w.impact == RecordAfter(a.request, selected, a.execution, read, a.now)
            && RecordTtl(w.recordTtl, w.ttl) == KeptSeconds(a.request, selected, a.execution, a.ttl)
            && w.ttl == a.ttl
  {
    var update := AnswerFrom(a.request, selected, a.execution);
    WritesForAReason(a.request, selected, a.execution);
    OneReason(a.request, selected, a.execution);
    if Finishes(a.request, selected, a.execution) {
      assert update == Complete(Stored(a.execution.result), AppOf(a.request, a.execution));
    } else if Refuses(a.request, selected, a.execution) {
      assert update.Fail? && update.errorCode == Some(RefusalCode(selected, a.execution));
    } else {
      assert update.Fail? && update.errorCode.None?;
    }
  }

  lemma RewriteStores(s: Cache, w: ReformImpacts.Write)
    requires Lawful(w) && RecordKey(w.id) in s.values
    ensures var t := ApplyAll(s, WriteCommands(w));
            && Get(t, RecordKey(w.id)) == Some(ImpactStored(w.impact))
            && RecordKey(w.id) in t.expires && t.expires[RecordKey(w.id)] == s.now + RecordTtl(w.recordTtl, w.ttl) as real
  {
    WriteEffect(s, w);
    WrittenExpiries(s, w);
    WriteLeaves(s, w);
  }

  /** In every run an answer writes exactly this over its own job's record, if that is still there,
      and so that it lasts exactly so long; and it leaves every other record alone. */
  lemma AnswerHasItsEffect(jobs: nat -> Identity, asked: Request -> bool, states: seq<Cache>, moves: seq<Move>, i: nat)
    requires IsEconomyRun(jobs, asked, states, moves) && i < |moves| && moves[i].Write?
    ensures var a := moves[i].answer;
            var selected, key := RecordAt(states, a.selectedAt, a.listedId), RecordKey(a.listedId);
            && selected.Some? && RecordAt(states, a.readAt, a.listedId).Some?
            && (key in states[i].values ==>
                  && RecordAt(states, i + 1, a.listedId)
                     == Some(RecordAfter(a.request, selected.value, a.execution,
                                         RecordAt(states, a.readAt, a.listedId).value, a.now))
                  && key in states[i + 1].expires
                  && states[i + 1].expires[key]
                     == states[i].now + KeptSeconds(a.request, selected.value, a.execution, a.ttl) as real)
            && (key !in states[i].values ==> key !in states[i + 1].values)
            && forall id :: id != a.listedId ==> RecordAt(states, i + 1, id) == RecordAt(states, i, id)
  {
    var a := moves[i].answer;
    AnswerIsOwn(jobs, asked, states, moves, i);
    var selected := RecordAt(states, a.selectedAt, a.listedId).value;
    var read := RecordAt(states, a.readAt, a.listedId).value;
    var w := WriteOver(a, selected, read);
    WriteIs(a, selected, read);
    WriteValues(states[i], w);
    if RecordKey(w.id) in states[i].values { RewriteStores(states[i], w); }
  }

  lemma AnswerIsOwn(jobs: nat -> Identity, asked: Request -> bool, states: seq<Cache>, moves: seq<Move>, i: nat)
    requires IsEconomyRun(jobs, asked, states, moves) && i < |moves| && moves[i].Write?
    ensures var a := moves[i].answer;
            && LawfulAnswer(states, i, a)
            && RecordAt(states, a.selectedAt, a.listedId).Some? && RecordAt(states, a.readAt, a.listedId).Some?
            && RecordAt(states, a.selectedAt, a.listedId).value.executionId == Some(a.listedId)
            && AnswerWrite(states, i, a)
               == WriteOver(a, RecordAt(states, a.selectedAt, a.listedId).value, RecordAt(states, a.readAt, a.listedId).value)
            && states[i + 1] == ApplyAll(states[i], WriteCommands(AnswerWrite(states, i, a)))
  {
    var a := moves[i].answer;
    assert LawfulMove(jobs, asked, states, i, moves[i]);
    RunKeepsOrder(jobs, asked, states, moves, i);
    AnswersOwnJob(jobs, states, i, a);
  }
}
