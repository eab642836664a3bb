/** Every run of budget-window requests on the cache: the results that its reports come to hold, and that requests are answered with. */
module BudgetWindowRuns {
  import opened Outcome
  import opened CacheStore
  import opened CacheCore
  import opened BudgetWindowState
  import opened BudgetWindowCache
  import opened BudgetWindowSubmission
  import opened OptionsHash
  import OptionsIdentity
  import RI = ReformImpacts
  import SpmSelection
  import WC = WorkerCertification

  // ---- Only certified results are stored and answered ----

  /** A completed state's result is certified for the request. */
  predicate CertifiedState(p: Process, state: Option<State>) {
    state.Some? && state.value.status == Completed ==> state.value.result.Some? && p.certifies(state.value.result.value)
  }

  /** What the request is about to store is certified. */
  predicate WritesCertified(p: Process) { p.pc.Writing? ==> CertifiedState(p, Some(p.pc.state)) }

  ghost predicate ReportsCertified(sys: System) {
    forall i :: 0 <= i < |sys.processes| ==>
                  CertifiedState(sys.processes[i], ReadState(sys.cache, sys.processes[i].report))
  }

  /** Requests for the same report certify the same results. */
  ghost predicate AgreeOnResults(processes: seq<Process>) {
    forall i, j :: 0 <= i < |processes| && 0 <= j < |processes| && processes[i].report == processes[j].report ==>
                     processes[i].certifies == processes[j].certifies
  }

  lemma StepWritesCertified(s: Cache, p: Process, answer: Answer)
    ensures WritesCertified(p.(pc := StepPc(s, p, answer)))
  {
  }

  lemma {:induction false} RunWritesCertified(states: seq<System>, actions: seq<Action>, k: nat, i: nat)
    requires IsRun(states, actions) && k < |states| && i < |states[k].processes|
    ensures WritesCertified(states[k].processes[i])
  {
    if k > 0 {
      RequestsStay(states, actions, k, i);
      RequestsStay(states, actions, k - 1, i);
      RunWritesCertified(states, actions, k - 1, i);
      if actions[k - 1].Act? && actions[k - 1].i == i {
        StepWritesCertified(states[k - 1].cache, states[k - 1].processes[i], actions[k - 1].answer);
      }
    }
  }

  /** What a step leaves in a report: what was there, nothing, a state without a result, or what it stores. */
  lemma StepReads(s: Cache, p: Process, answer: Answer, report: Report)
    requires ProperPc(p) && p.token != "" && answer.reduction <= BUDGET_WINDOW_RESULT_TTL_SECONDS / 10
    ensures var after := ReadState(StepCache(s, p, answer), report);
            || after.None? || after == ReadState(s, report) || after.value.status != Completed
            || (p.report == report && p.pc.Writing? && after == Some(p.pc.state))
  {
    if p.report == report {
      match p.pc
      case Claiming(_) => StateReadsBack(s, report, OwnClaim(p), BUDGET_WINDOW_STARTING_TTL_SECONDS);
      case StoringSubmitted(batchJobId) =>
        if batchJobId != "" {
          StateReadsBack(s, report, SubmittedState(batchJobId, Some(p.bound)), BUDGET_WINDOW_BATCH_TTL_SECONDS);
        }
      case Writing(state, _) => StateReadsBack(s, report, state, ResultTtl(answer.reduction));
      case _ =>
    }
  }

  lemma ActionKeepsCertified(sys: System, action: Action)
    requires LawfulAction(sys, action) && Orderly(sys) && AgreeOnResults(sys.processes)
    requires forall i :: 0 <= i < |sys.processes| ==> WritesCertified(sys.processes[i])
    requires ReportsCertified(sys)
    ensures ReportsCertified(NextSystem(sys, action))
  {
    var next := NextSystem(sys, action);
    forall j | 0 <= j < |next.processes|
      ensures CertifiedState(next.processes[j], ReadState(next.cache, next.processes[j].report))
    {
      assert CertifiedState(sys.processes[j], ReadState(sys.cache, sys.processes[j].report));
      match action
      case Act(i, answer) =>
        assert Steady(sys.cache, sys.processes[i]) && WritesCertified(sys.processes[i]);
        StepReads(sys.cache, sys.processes[i], answer, sys.processes[j].report);
      case Wait(seconds) =>
    }
  }

  lemma {:induction false} RunKeepsCertified(states: seq<System>, actions: seq<Action>, k: nat)
    requires IsRun(states, actions) && k < |states|
    requires AgreeOnResults(states[0].processes) && ReportsCertified(states[0])
    ensures AgreeOnResults(states[k].processes) && ReportsCertified(states[k])
  {
    if k > 0 {
      RunKeepsCertified(states, actions, k - 1);
      RunStaysOrderly(states, actions, k - 1);
      var before := states[k - 1];
      forall i | 0 <= i < |before.processes| ensures WritesCertified(before.processes[i]) {
        RunWritesCertified(states, actions, k - 1, i);
      }
      ActionKeepsCertified(before, actions[k - 1]);
    }
  }

  /** The result that a step answers its request with: a stored one that is replayed, or a polled
      one as it is written to the cache. */
  function AnsweredResult(sys: System, action: Action): Option<Document>
    requires LawfulAction(sys, action)
  {
    if action.Wait? then None
    else
      var pc := sys.processes[action.i].pc;
      if pc.Answering? && pc.state.status == Completed && NextSystem(sys, action).processes[action.i].pc == Done(Replayed) then
        pc.state.result
      else if pc.Writing? && pc.state.status == Completed then pc.state.result
      else None
  }

  /** No request is ever answered with a result that is not certified for it, whatever the cache
      held at the start and whoever stored the result. */
  lemma AnsweredResultsAreCertified(states: seq<System>, actions: seq<Action>, k: nat)
    requires IsRun(states, actions) && k < |actions|
    ensures var result := AnsweredResult(states[k], actions[k]);
            result.Some? ==> states[k].processes[actions[k].i].certifies(result.value)
  {
    if actions[k].Act? { RunWritesCertified(states, actions, k, actions[k].i); }
  }

  // ---- Certified for the report's own request ----

  /** A request as it is sent, with the versions its hash is built from. */
  datatype WindowRequest = WindowRequest(
    scope: RI.Scope,
    apiVersion: string,
    options: map<string, OptionValue>,
    bundle: RuntimeBundle,
    startYear: int,
    windowSize: int)

  /** Certification of a result for a selection and the years of a window. `read` is how it reads a document. */
  function Certifying(read: Document -> WC.WorkerResult, spm: Option<SpmSelection.Values>, years: seq<string>)
    : Document -> bool
  {
    result => WC.Certifies(read(result), spm, None, Some(years))
  }

  /** The request is accepted, its options are plain, and this is its report and what it certifies. */
  ghost predicate MadeBy(p: Process, r: WindowRequest, read: Document -> WC.WorkerResult,
                         spmOf: map<string, OptionValue> -> Option<SpmSelection.Values>)
  {
    var setup := WC.BuildWindowSetup(r.startYear, r.windowSize, "general");
    && setup.Ok? && r.scope.timePeriod == setup.value.timePeriod
    && OptionsIdentity.Plain(r.options) && BundleAmpersandFree(r.bundle)
    && p.report == Report(r.scope, Some(BuildOptionsHash(r.options, r.bundle)), r.apiVersion)
    && p.certifies == Certifying(read, spmOf(r.options), setup.value.years)
  }

  /** A report's key tells the window and the selection: requests for one report agree on them. */
  lemma ReportNamesRequest(p: Process, r: WindowRequest, q: Process, other: WindowRequest,
                           read: Document -> WC.WorkerResult,
                           spmOf: map<string, OptionValue> -> Option<SpmSelection.Values>)
    requires MadeBy(p, r, read, spmOf) && MadeBy(q, other, read, spmOf) && p.report == q.report
    ensures r.options == other.options && r.startYear == other.startYear && r.windowSize == other.windowSize
    ensures p.certifies == q.certifies
  {
    WC.PeriodNamesWindow(r.startYear, r.windowSize, other.startYear, other.windowSize);
    OptionsIdentity.FoundHashHasSameOptions(r.options, r.bundle, other.options, other.bundle);
  }

  ghost predicate AllMadeBy(processes: seq<Process>, requests: seq<WindowRequest>, read: Document -> WC.WorkerResult,
                            spmOf: map<string, OptionValue> -> Option<SpmSelection.Values>)
  {
    && |requests| == |processes|
    && forall i :: 0 <= i < |processes| ==> MadeBy(processes[i], requests[i], read, spmOf)
  }

  lemma RequestsAgree(processes: seq<Process>, requests: seq<WindowRequest>, read: Document -> WC.WorkerResult,
                      spmOf: map<string, OptionValue> -> Option<SpmSelection.Values>)
    requires AllMadeBy(processes, requests, read, spmOf)
    ensures AgreeOnResults(processes)
  {
    forall i, j | 0 <= i < |processes| && 0 <= j < |processes| && processes[i].report == processes[j].report
      ensures processes[i].certifies == processes[j].certifies
    {
      ReportNamesRequest(processes[i], requests[i], processes[j], requests[j], read, spmOf);
    }
  }

  /** In every run from a cache whose results are certified, so from an empty one, a completed
      report holds a result that is certified for the report's own selection and years, whichever
      request polled it and however the requests interleave and fail. */
  lemma CompletedResultsAreCertified(states: seq<System>, actions: seq<Action>, requests: seq<WindowRequest>,
                                     read: Document -> WC.WorkerResult,
                                     spmOf: map<string, OptionValue> -> Option<SpmSelection.Values>, k: nat, i: nat)
    requires IsRun(states, actions) && k < |states|
    requires AllMadeBy(states[0].processes, requests, read, spmOf) && i < |requests| && ReportsCertified(states[0])
    ensures var state := ReadState(states[k].cache, states[0].processes[i].report);
            state.Some? && state.value.status == Completed ==>
              && state.value.result.Some?
              && WC.Certifies(read(state.value.result.value), spmOf(requests[i].options), None,
                              Some(WC.WindowYears(requests[i].startYear, requests[i].windowSize)))
  {
    RequestsAgree(states[0].processes, requests, read, spmOf);
    RunKeepsCertified(states, actions, k);
    RequestsStay(states, actions, k, i);
    assert MadeBy(states[0].processes[i], requests[i], read, spmOf);
    assert CertifiedState(states[k].processes[i], ReadState(states[k].cache, states[k].processes[i].report));
  }

  /** So a completed report with a selection holds exactly one certified annual result for each of
      the years that were asked for, in their order. */
  lemma CompletedWindowsAreComplete(states: seq<System>, actions: seq<Action>, requests: seq<WindowRequest>,
                                    read: Document -> WC.WorkerResult,
                                    spmOf: map<string, OptionValue> -> Option<SpmSelection.Values>, k: nat, i: nat)
    requires IsRun(states, actions) && k < |states|
    requires AllMadeBy(states[0].processes, requests, read, spmOf) && i < |requests| && ReportsCertified(states[0])
    requires spmOf(requests[i].options).Some?
    ensures var state := ReadState(states[k].cache, states[0].processes[i].report);
            state.Some? && state.value.status == Completed ==>
              && state.value.result.Some? && requests[i].startYear >= 1000
              && var result, years :=
                   read(state.value.result.value), WC.WindowYears(requests[i].startYear, requests[i].windowSize);
                 && WC.IsBudgetWindow(result) && result.rows.List? && |result.rows.value| == |years|
                 && forall n :: 0 <= n < |years| ==>
                      WC.AnnualResult(result.rows.value[n], spmOf(requests[i].options).value, years[n])
  {
    CompletedResultsAreCertified(states, actions, requests, read, spmOf, k, i);
    assert MadeBy(states[0].processes[i], requests[i], read, spmOf);
    var state := ReadState(states[k].cache, states[0].processes[i].report);
    if state.Some? && state.value.status == Completed {
      WC.RequestedWindowCertification(read(state.value.result.value), spmOf(requests[i].options).value,
                                      requests[i].startYear, requests[i].windowSize);
    }
  }
}
