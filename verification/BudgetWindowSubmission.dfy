/** Requests racing to submit one batch per budget-window report. */
module BudgetWindowSubmission {
  import opened Outcome
  import opened CacheStore
  import opened CacheCore
  import opened BudgetWindowState
  import opened BudgetWindowCache

  const BUDGET_WINDOW_CLAIM_ATTEMPTS: nat := 3
  const CLAIM_SECONDS := BUDGET_WINDOW_STARTING_TTL_SECONDS as real

  datatype Ending = Replayed | Queued | Polled | BatchStored | Rejected | Raised

  /** Where a request is. `since` is when it won the claim. */
  datatype Pc =
    | Reading
    | Cleaning(encoded: Encoded)
    | Answering(state: State)
    | Claiming(attempt: nat)
    | ReadingOwner(attempt: nat)
    | CleaningOwner(attempt: nat, encoded: Encoded)
    | Submitting(since: real)
    | StoringSubmitted(batchJobId: string)
    | Clearing
    | Writing(state: State, ending: Ending)
    | Done(ending: Ending)

  /** `candidate` is the diagnostic identifier the request claims with, `bound` the one it uses
      after that. `certifies` is whether a result is certified for the request. */
  datatype Process = Process(
    report: Report,
    token: string,
    candidate: string,
    bound: string,
    certifies: Document -> bool,
    pc: Pc)

  datatype System = System(cache: Cache, processes: seq<Process>)

  datatype Batch = Accepted(batchJobId: string) | Invalid(failure: Document) | Broken

  /** A refusal is a typed error of the poll itself. */
  datatype Poll = Pending | Succeeded(result: Option<Document>) | Unsuccessful | Refused | Unanswered

  /** What the world answers a step: whether the store fails (a write may or may not have been
      applied by then), what the gateway says, the text of a failure or error that is stored, and
      the random reduction of a result's lifetime. */
  datatype Answer = Answer(fault: bool, applied: bool, batch: Batch, poll: Poll, details: Document, reduction: nat)

  datatype Action = Act(i: nat, answer: Answer) | Wait(seconds: real)

  function OwnClaim(p: Process): State { StartingState(p.token, Some(p.candidate)) }

  // ---- Steps ----

  /** A typed error is stored as the report's failure, and raised. */
  function Refusal(p: Process, error: Document): Pc {
    Writing(FailedState(SpmValidation, error, Some(p.bound)), Raised)
  }

  /** A batch that ended without a result is a failure. */
  function Failure(p: Process, failure: Document): Pc {
    Writing(FailedState(Execution, failure, Some(p.bound)), Polled)
  }

  function AfterPoll(p: Process, poll: Poll, details: Document): Pc {
    match poll
    case Pending => Done(Polled)
    case Succeeded(result) =>
      if result.None? || result.value == map[] then Failure(p, details)
      else if !p.certifies(result.value) then Refusal(p, details)
      else Writing(CompletedState(result.value, Some(p.bound)), Polled)
    case Unsuccessful => Failure(p, details)
    case Refused => Refusal(p, details)
    case Unanswered => Done(Raised)
  }

  /** The answer from a stored state: replayed, still queued, or polled; a terminal answer is
      written back, and so is that a stored result can no longer be certified. */
  function AfterState(p: Process, state: State, poll: Poll, details: Document): Pc {
    match state.status
    case Failed => Done(Replayed)
    case Starting => Done(Queued)
    case Completed =>
      if state.result.Some? && p.certifies(state.result.value) then Done(Replayed) else Refusal(p, details)
    case Submitted => AfterPoll(p, poll, details)
  }

  function NextAttempt(attempt: nat): Pc {
    if attempt + 1 < BUDGET_WINDOW_CLAIM_ATTEMPTS then Claiming(attempt + 1) else Done(Raised)
  }

  function StepPc(s: Cache, p: Process, answer: Answer): Pc {
    match p.pc
    case Reading =>
      if answer.fault then Done(Raised)
      else if p.report !in s.values then Claiming(0)
      else if ReadState(s, p.report).None? then Cleaning(s.values[p.report])
      else Answering(ReadState(s, p.report).value)
    case Cleaning(_) => Claiming(0)
    case Answering(state) => AfterState(p, state, answer.poll, answer.details)
    case Claiming(attempt) =>
      if answer.fault then Done(Raised)
      else if p.report in s.values then ReadingOwner(attempt)
      else Submitting(s.now)
    case ReadingOwner(attempt) =>
      if answer.fault then Done(Raised)
      else if p.report !in s.values then NextAttempt(attempt)
      else if ReadState(s, p.report).None? then CleaningOwner(attempt, s.values[p.report])
      else Done(Queued)
    case CleaningOwner(attempt, _) => NextAttempt(attempt)
    case Submitting(_) =>
      (match answer.batch
       case Accepted(batchJobId) => StoringSubmitted(batchJobId)
       case Invalid(failure) => Writing(FailedState(Execution, failure, Some(p.bound)), Rejected)
       case Broken => Clearing)
    case StoringSubmitted(batchJobId) => if answer.fault || batchJobId == "" then Clearing else Done(BatchStored)
    case Clearing => Done(Raised)
    case Writing(_, ending) => Done(ending)
    case Done(_) => p.pc
  }

  function StepCache(s: Cache, p: Process, answer: Answer): Cache
    requires answer.reduction <= BUDGET_WINDOW_RESULT_TTL_SECONDS / 10
  {
    if answer.fault && !answer.applied then s
    else
      match p.pc
      case Cleaning(encoded) => CompareAndDelete(s, p.report, encoded).0
      case CleaningOwner(_, encoded) => CompareAndDelete(s, p.report, encoded).0
      case Claiming(_) =>
        if p.report in s.values then s else WithState(s, p.report, OwnClaim(p), BUDGET_WINDOW_STARTING_TTL_SECONDS)
      case StoringSubmitted(batchJobId) =>
        if batchJobId == "" then s
        else WithState(s, p.report, SubmittedState(batchJobId, Some(p.bound)), BUDGET_WINDOW_BATCH_TTL_SECONDS)
      case Clearing => CompareAndDelete(s, p.report, EncodedState(StartingState(p.token, Some(p.bound)))).0
      case Writing(state, _) => WithState(s, p.report, state, ResultTtl(answer.reduction))
      case _ => s
  }

  predicate LawfulAction(sys: System, action: Action) {
    match action
    case Act(i, answer) => i < |sys.processes| && answer.reduction <= BUDGET_WINDOW_RESULT_TTL_SECONDS / 10
    case Wait(seconds) => seconds >= 0.0
  }

  function NextSystem(sys: System, action: Action): System
    requires LawfulAction(sys, action)
  {
    match action
    case Act(i, answer) =>
      var p := sys.processes[i];
      System(StepCache(sys.cache, p, answer), sys.processes[i := p.(pc := StepPc(sys.cache, p, answer))])
    case Wait(seconds) => sys.(cache := Advance(sys.cache, seconds))
  }

  /** A run from any cache contents; no two requests have the same token, and none is empty. */
  ghost predicate IsRun(states: seq<System>, actions: seq<Action>) {
    && |states| == |actions| + 1
    && (forall i :: 0 <= i < |states[0].processes| ==> states[0].processes[i].pc == Reading)
    && ProperTokens(states[0].processes)
    && forall i :: 0 <= i < |actions| ==>
         LawfulAction(states[i], actions[i]) && states[i + 1] == NextSystem(states[i], actions[i])
  }

  ghost predicate ProperTokens(processes: seq<Process>) {
    && (forall i :: 0 <= i < |processes| ==> processes[i].token != "")
    && forall i, j :: 0 <= i < j < |processes| ==> processes[i].token != processes[j].token
  }

  // ---- What a request may find and leave ----

  /** A stored value that no request but the owner of this claim can remove. */
  predicate SafeFrom(value: Encoded, owner: Process) {
    DecodedState(value).Some? && (DecodedState(value).value.status != Starting || value == EncodedState(OwnClaim(owner)))
  }

  predicate ProperPc(p: Process) {
    match p.pc
    case Cleaning(encoded) => DecodedState(encoded).None?
    case CleaningOwner(_, encoded) => DecodedState(encoded).None?
    case Writing(state, _) => Complete(state) && state.status != Starting
    case _ => true
  }

  /** The request is submitting under a claim that has not run out. */
  predicate Owns(s: Cache, p: Process) { p.pc.Submitting? && s.now < p.pc.since + CLAIM_SECONDS }

  /** An owner's report is still there: it has had a state ever since the owner claimed it. */
  predicate Secured(s: Cache, p: Process) {
    Owns(s, p) ==>
      && p.report in s.values && SafeFrom(s.values[p.report], p)
      && p.report in s.expires && s.expires[p.report] >= p.pc.since + CLAIM_SECONDS
  }

  predicate Started(s: Cache, p: Process) { p.pc.Submitting? ==> p.pc.since <= s.now }

  predicate Rivals(s: Cache, p: Process, q: Process) { p.report == q.report && Owns(s, p) && Owns(s, q) }

  predicate Steady(s: Cache, p: Process) { ProperPc(p) && Secured(s, p) && Started(s, p) }

  ghost predicate Orderly(sys: System) {
    && ProperTokens(sys.processes)
    && (forall i :: 0 <= i < |sys.processes| ==> Steady(sys.cache, sys.processes[i]))
    && forall i, j :: 0 <= i < j < |sys.processes| ==> !Rivals(sys.cache, sys.processes[i], sys.processes[j])
  }

  lemma OwnStepIsProper(s: Cache, p: Process, answer: Answer)
    requires ProperPc(p)
    ensures ProperPc(p.(pc := StepPc(s, p, answer)))
  {
  }

  /** Every value a request writes is safe from every other request. */
  lemma WrittenIsSafe(p: Process, owner: Process, batchJobId: string)
    requires ProperPc(p) && batchJobId != ""
    ensures p.pc.Writing? ==> SafeFrom(EncodedState(p.pc.state), owner)
    ensures SafeFrom(EncodedState(SubmittedState(batchJobId, Some(p.bound))), owner)
  {
    StateRoundTrip(SubmittedState(batchJobId, Some(p.bound)));
    if p.pc.Writing? { StateRoundTrip(p.pc.state); }
  }

  lemma ClaimIsSafe(p: Process)
    requires p.token != ""
    ensures SafeFrom(EncodedState(OwnClaim(p)), p)
  {
    StateRoundTrip(OwnClaim(p));
  }

  /** Another request's claim is not what a safe value holds. */
  lemma OthersClaimDiffers(value: Encoded, owner: Process, other: Process, observabilityId: Option<string>)
    requires SafeFrom(value, owner) && owner.token != other.token && owner.token != "" && other.token != ""
    ensures value != EncodedState(StartingState(other.token, observabilityId))
  {
    StateRoundTrip(OwnClaim(owner));
    StateRoundTrip(StartingState(other.token, observabilityId));
  }

  lemma NowStays(s: Cache, p: Process, answer: Answer)
    requires answer.reduction <= BUDGET_WINDOW_RESULT_TTL_SECONDS / 10
    ensures StepCache(s, p, answer).now == s.now
  {
  }

  lemma WritingKeepsReport(s: Cache, p: Process, state: State, ttl: int)
    requires Owns(s, p) && SafeFrom(EncodedState(state), p) && ttl >= BUDGET_WINDOW_STARTING_TTL_SECONDS
    requires s.now >= p.pc.since
    ensures Secured(WithState(s, p.report, state, ttl), p)
  {
  }

  lemma ElsewhereKeepsReport(s: Cache, t: Cache, p: Process)
    requires Secured(s, p) && t.now == s.now
    requires p.report in s.values ==> p.report in t.values && t.values[p.report] == s.values[p.report]
    requires p.report in s.expires ==> p.report in t.expires && t.expires[p.report] == s.expires[p.report]
    ensures Secured(t, p)
  {
  }

  /** Another request's step leaves an owner's report with a state. */
  lemma OthersStepKeepsReport(s: Cache, p: Process, other: Process, answer: Answer)
    requires Secured(s, p) && Started(s, p) && ProperPc(other)
    requires answer.reduction <= BUDGET_WINDOW_RESULT_TTL_SECONDS / 10
    requires p.token != other.token && p.token != "" && other.token != ""
    ensures Secured(StepCache(s, other, answer), p)
  {
    NowStays(s, other, answer);
    if Owns(s, p) && p.report == other.report {
      match other.pc
      case StoringSubmitted(batchJobId) =>
        if batchJobId != "" {
          WrittenIsSafe(other, p, batchJobId);
          WritingKeepsReport(s, p, SubmittedState(batchJobId, Some(other.bound)), BUDGET_WINDOW_BATCH_TTL_SECONDS);
        }
      case Writing(state, _) =>
        WrittenIsSafe(other, p, "batch");
        WritingKeepsReport(s, p, state, ResultTtl(answer.reduction));
      case Clearing => OthersClaimDiffers(s.values[p.report], p, other, Some(other.bound));
      case _ =>
    } else if Owns(s, p) {
      ElsewhereKeepsReport(s, StepCache(s, other, answer), p);
    }
  }

  lemma OwnStepSecures(s: Cache, p: Process, answer: Answer)
    requires Secured(s, p) && p.token != "" && answer.reduction <= BUDGET_WINDOW_RESULT_TTL_SECONDS / 10
    ensures Secured(StepCache(s, p, answer), p.(pc := StepPc(s, p, answer)))
  {
    ClaimIsSafe(p);
    ClaimIsSafe(p.(pc := StepPc(s, p, answer)));
  }

  lemma TimeKeepsReport(s: Cache, p: Process, seconds: real)
    requires Secured(s, p) && seconds >= 0.0
    ensures Secured(Advance(s, seconds), p)
  {
  }

  /** A request becomes an owner only of a report without a state. */
  lemma NoNewRival(s: Cache, p: Process, other: Process, answer: Answer)
    requires Secured(s, other) && !Rivals(s, p, other) && answer.reduction <= BUDGET_WINDOW_RESULT_TTL_SECONDS / 10
    ensures !Rivals(StepCache(s, p, answer), p.(pc := StepPc(s, p, answer)), other)
  {
    NowStays(s, p, answer);
  }

  lemma StepKeepsSecured(sys: System, action: Action)
    requires LawfulAction(sys, action) && Orderly(sys)
    ensures var next := NextSystem(sys, action);
            forall i :: 0 <= i < |next.processes| ==> Steady(next.cache, next.processes[i])
  {
    var next := NextSystem(sys, action);
    forall j | 0 <= j < |next.processes| ensures Steady(next.cache, next.processes[j]) {
      assert Steady(sys.cache, sys.processes[j]);
      match action
      case Act(i, answer) =>
        assert Steady(sys.cache, sys.processes[i]);
        NowStays(sys.cache, sys.processes[i], answer);
        if i == j {
          OwnStepIsProper(sys.cache, sys.processes[i], answer);
          OwnStepSecures(sys.cache, sys.processes[i], answer);
        } else {
          OthersStepKeepsReport(sys.cache, sys.processes[j], sys.processes[i], answer);
        }
      case Wait(seconds) => TimeKeepsReport(sys.cache, sys.processes[j], seconds);
    }
  }

  lemma StepKeepsOneOwner(sys: System, action: Action)
    requires LawfulAction(sys, action) && Orderly(sys)
    ensures var next := NextSystem(sys, action);
            forall i, j :: 0 <= i < j < |next.processes| ==> !Rivals(next.cache, next.processes[i], next.processes[j])
  {
    var next := NextSystem(sys, action);
    forall i, j | 0 <= i < j < |next.processes| ensures !Rivals(next.cache, next.processes[i], next.processes[j]) {
      assert !Rivals(sys.cache, sys.processes[i], sys.processes[j]);
      assert Steady(sys.cache, sys.processes[i]) && Steady(sys.cache, sys.processes[j]);
      match action
      case Act(k, answer) =>
        NowStays(sys.cache, sys.processes[k], answer);
        if k == i { NoNewRival(sys.cache, sys.processes[i], sys.processes[j], answer); }
        if k == j { NoNewRival(sys.cache, sys.processes[j], sys.processes[i], answer); }
      case Wait(seconds) =>
    }
  }

  lemma {:induction false} RunStaysOrderly(states: seq<System>, actions: seq<Action>, i: nat)
    requires IsRun(states, actions) && i < |states|
    ensures Orderly(states[i])
  {
    if i > 0 {
      RunStaysOrderly(states, actions, i - 1);
      StepKeepsSecured(states[i - 1], actions[i - 1]);
      StepKeepsOneOwner(states[i - 1], actions[i - 1]);
    }
  }

  // ---- One claim and one batch per lifetime ----

  /** The step is this request winning the claim for its report. */
  predicate WinsClaim(sys: System, action: Action, i: nat) {
    && LawfulAction(sys, action) && action.Act? && action.i == i
    && sys.processes[i].pc.Claiming? && NextSystem(sys, action).processes[i].pc.Submitting?
  }

  /** The step is the gateway accepting this request's batch: the batch now exists. */
  predicate SubmitsBatch(sys: System, action: Action, i: nat) {
    && LawfulAction(sys, action) && action.Act? && action.i == i
    && sys.processes[i].pc.Submitting? && action.answer.batch.Accepted?
  }

  /** Nothing changes which requests there are, or their reports, tokens and certification. */
  lemma {:induction false} RequestsStay(states: seq<System>, actions: seq<Action>, i: nat, p: nat)
    requires IsRun(states, actions) && i < |states|
    ensures |states[i].processes| == |states[0].processes|
    ensures p < |states[0].processes| ==>
              && states[i].processes[p].report == states[0].processes[p].report
              && states[i].processes[p].token == states[0].processes[p].token
              && states[i].processes[p].certifies == states[0].processes[p].certifies
  {
    if i > 0 { RequestsStay(states, actions, i - 1, p); }
  }

  predicate HasNoState(sys: System, report: Report) { report !in sys.cache.values }

  /** The request won its claim at step `c`, on a report without a state, and has been submitting from then to `i`. */
  ghost predicate SubmittingSince(states: seq<System>, actions: seq<Action>, p: nat, c: nat, i: nat)
    requires |states| == |actions| + 1 && c < i < |states|
  {
    && WinsClaim(states[c], actions[c], p) && HasNoState(states[c], states[c].processes[p].report)
    && forall k :: c < k <= i ==> p < |states[k].processes| && states[k].processes[p].pc.Submitting?
  }

  /** Losing requests never submit: one that is submitting won its claim at some step, when its
      report had no state, and has been submitting ever since. */
  lemma {:induction false} OnlyWinnersSubmit(states: seq<System>, actions: seq<Action>, i: nat, p: nat)
    requires IsRun(states, actions) && i < |states| && p < |states[i].processes|
    requires states[i].processes[p].pc.Submitting?
    ensures exists c: nat :: c < i && SubmittingSince(states, actions, p, c, i)
  {
    RequestsStay(states, actions, i, p);
    RequestsStay(states, actions, i - 1, p);
    if states[i - 1].processes[p].pc.Submitting? {
      OnlyWinnersSubmit(states, actions, i - 1, p);
      var c: nat :| c < i - 1 && SubmittingSince(states, actions, p, c, i - 1);
      assert SubmittingSince(states, actions, p, c, i);
    } else {
      assert SubmittingSince(states, actions, p, i - 1, i);
    }
  }

  lemma TimeAdvances(sys: System, action: Action)
    requires LawfulAction(sys, action)
    ensures sys.cache.now <= NextSystem(sys, action).cache.now
  {
    match action
    case Act(k, answer) => NowStays(sys.cache, sys.processes[k], answer);
    case Wait(seconds) =>
  }

  /** The report has held a state since this request claimed it, and holds it at least until then. */
  predicate HeldFor(s: Cache, owner: Process, until: real) {
    && owner.report in s.values && SafeFrom(s.values[owner.report], owner)
    && owner.report in s.expires && s.expires[owner.report] >= until
  }

  /** The step is time running out on the report's state. */
  predicate RunsOut(sys: System, action: Action, report: Report) {
    && action.Wait? && report in sys.cache.expires && sys.cache.expires[report] <= sys.cache.now + action.seconds
  }

  /** The step is this request, its submission or its storing of the batch having failed, clearing its own claim. */
  predicate ClearsOwnClaim(sys: System, action: Action, i: nat) {
    && action.Act? && action.i == i && i < |sys.processes| && sys.processes[i].pc.Clearing?
    && var p := sys.processes[i];
       && p.report in sys.cache.values
       && DecodedState(sys.cache.values[p.report]) == Some(StartingState(p.token, Some(p.bound)))
  }

  lemma WinnerHolds(s: Cache, p: Process, answer: Answer)
    requires p.token != "" && p.pc.Claiming? && StepPc(s, p, answer).Submitting?
    requires answer.reduction <= BUDGET_WINDOW_RESULT_TTL_SECONDS / 10
    ensures HeldFor(StepCache(s, p, answer), p, s.now + CLAIM_SECONDS)
  {
    ClaimIsSafe(p);
  }

  lemma HeldWhenWritten(s: Cache, owner: Process, state: State, ttl: int, until: real)
    requires SafeFrom(EncodedState(state), owner) && ttl >= BUDGET_WINDOW_STARTING_TTL_SECONDS
    requires until <= s.now + CLAIM_SECONDS
    ensures HeldFor(WithState(s, owner.report, state, ttl), owner, until)
  {
  }

  /** A claimed report keeps its state through every step of a request but the owner's clearing of its claim. */
  lemma StepHolds(s: Cache, owner: Process, p: Process, answer: Answer, until: real)
    requires HeldFor(s, owner, until) && until <= s.now + CLAIM_SECONDS && ProperPc(p)
    requires owner.token != "" && p.token != "" && answer.reduction <= BUDGET_WINDOW_RESULT_TTL_SECONDS / 10
    ensures || HeldFor(StepCache(s, p, answer), owner, until)
            || (p.pc.Clearing? && p.token == owner.token && p.report == owner.report
                && DecodedState(s.values[p.report]) == Some(StartingState(p.token, Some(p.bound))))
  {
    if p.report == owner.report {
      match p.pc
      case StoringSubmitted(batchJobId) =>
        if batchJobId != "" {
          WrittenIsSafe(p, owner, batchJobId);
          HeldWhenWritten(s, owner, SubmittedState(batchJobId, Some(p.bound)), BUDGET_WINDOW_BATCH_TTL_SECONDS, until);
        }
      case Writing(state, _) =>
        WrittenIsSafe(p, owner, "batch");
        HeldWhenWritten(s, owner, state, ResultTtl(answer.reduction), until);
      case Clearing =>
        StateRoundTrip(OwnClaim(owner));
        StateRoundTrip(StartingState(p.token, Some(p.bound)));
      case _ =>
    }
  }

  lemma ActionHolds(sys: System, action: Action, p: nat, owner: Process, until: real)
    requires LawfulAction(sys, action) && Orderly(sys) && p < |sys.processes|
    requires sys.processes[p].report == owner.report && sys.processes[p].token == owner.token != ""
    requires HeldFor(sys.cache, owner, until) && until <= sys.cache.now + CLAIM_SECONDS
    ensures || HeldFor(NextSystem(sys, action).cache, owner, until)
            || (RunsOut(sys, action, owner.report) && sys.cache.now + action.seconds >= until)
            || ClearsOwnClaim(sys, action, p)
  {
    match action
    case Act(k, answer) =>
      assert Steady(sys.cache, sys.processes[k]);
      assert k < p ==> sys.processes[k].token != sys.processes[p].token;
      StepHolds(sys.cache, owner, sys.processes[k], answer, until);
    case Wait(seconds) =>
  }

  /** The report has held a state since step `i` up to `k`, where it ends: more than five minutes
      after the claim, or with the owner clearing it. */
  ghost predicate ClaimEnds(states: seq<System>, actions: seq<Action>, i: nat, k: nat, p: nat)
    requires |states| == |actions| + 1 && i < k < |actions| && p < |states[i].processes|
  {
    var owner := states[i].processes[p];
    && (forall n :: i < n <= k ==> HeldFor(states[n].cache, owner, states[i].cache.now + CLAIM_SECONDS))
    && (|| (RunsOut(states[k], actions[k], owner.report)
            && states[k + 1].cache.now >= states[i].cache.now + CLAIM_SECONDS)
        || ClearsOwnClaim(states[k], actions[k], p))
  }

  lemma HeldUntilItEnds(states: seq<System>, actions: seq<Action>, i: nat, k: nat, j: nat, p: nat) returns (end: nat)
    requires IsRun(states, actions) && i < k <= j < |actions| && p < |states[i].processes|
    requires forall n :: i < n <= k ==>
               HeldFor(states[n].cache, states[i].processes[p], states[i].cache.now + CLAIM_SECONDS)
    requires states[i].cache.now <= states[k].cache.now && HasNoState(states[j], states[i].processes[p].report)
    ensures i < end < j && ClaimEnds(states, actions, i, end, p)
    decreases j - k
  {
    var owner, until := states[i].processes[p], states[i].cache.now + CLAIM_SECONDS;
    RequestsStay(states, actions, i, p);
    RequestsStay(states, actions, k, p);
    RunStaysOrderly(states, actions, k);
    ActionHolds(states[k], actions[k], p, owner, until);
    TimeAdvances(states[k], actions[k]);
    if HeldFor(states[k + 1].cache, owner, until) {
      end := HeldUntilItEnds(states, actions, i, k + 1, j, p);
    } else {
      end := k;
    }
  }

  /** Every lifetime of a report's state holds at most one successful claim. After one is won, the
      report holds a state without a break until five minutes or more have passed and its time runs
      out, or until the winner itself clears exactly its own claim; only after that is there another. */
  lemma OneClaimPerLifetime(states: seq<System>, actions: seq<Action>, i: nat, j: nat, p: nat, q: nat)
    requires IsRun(states, actions) && i < j < |actions|
    requires WinsClaim(states[i], actions[i], p) && WinsClaim(states[j], actions[j], q)
    requires states[i].processes[p].report == states[j].processes[q].report
    ensures exists end: nat :: i < end < j && ClaimEnds(states, actions, i, end, p)
  {
    RequestsStay(states, actions, i, p);
    WinnerHolds(states[i].cache, states[i].processes[p], actions[i].answer);
    TimeAdvances(states[i], actions[i]);
    var end := HeldUntilItEnds(states, actions, i, i + 1, j, p);
  }

  /** The request submits within the five minutes of its claim. */
  ghost predicate InTime(states: seq<System>, p: nat) {
    forall i :: 0 <= i < |states| && p < |states[i].processes| && states[i].processes[p].pc.Submitting? ==>
                  Owns(states[i].cache, states[i].processes[p])
  }

  /** At most one batch is submitted in a lifetime of a report's state, whatever the interleaving,
      whichever cache operations fail and however late any other request is: between two submissions
      that are each in time the report had no state. */
  lemma OneBatchPerLifetime(states: seq<System>, actions: seq<Action>, i: nat, j: nat, p: nat, q: nat)
    requires IsRun(states, actions) && InTime(states, p) && InTime(states, q) && i < j < |actions|
    requires SubmitsBatch(states[i], actions[i], p) && SubmitsBatch(states[j], actions[j], q)
    requires states[i].processes[p].report == states[j].processes[q].report
    ensures exists absent :: i < absent < j && HasNoState(states[absent], states[i].processes[p].report)
  {
    RequestsStay(states, actions, j, q);
    OnlyWinnersSubmit(states, actions, j, q);
    var c: nat :| c < j && SubmittingSince(states, actions, q, c, j);
    RequestsStay(states, actions, c, q);
    LaterSubmitterClaimedLater(states, actions, i, j, p, q, c);
    assert HasNoState(states[c], states[i].processes[p].report);
  }

  lemma LaterSubmitterClaimedLater(states: seq<System>, actions: seq<Action>, i: nat, j: nat, p: nat, q: nat, c: nat)
    requires IsRun(states, actions) && InTime(states, p) && InTime(states, q) && i < j < |actions| && c < j
    requires SubmitsBatch(states[i], actions[i], p) && SubmittingSince(states, actions, q, c, j)
    requires states[i].processes[p].report == states[j].processes[q].report
    ensures i < c
  {
    RequestsStay(states, actions, i, q);
    RequestsStay(states, actions, j, q);
    RunStaysOrderly(states, actions, i);
    assert states[i + 1].processes[p].pc.StoringSubmitted?;
    NoTwoSubmitters(states[i], p, q);
  }

  lemma NoTwoSubmitters(sys: System, p: nat, q: nat)
    requires Orderly(sys) && p < |sys.processes| && q < |sys.processes|
    requires sys.processes[p].report == sys.processes[q].report
    ensures Owns(sys.cache, sys.processes[p]) && Owns(sys.cache, sys.processes[q]) ==> p == q
  {
    assert p < q ==> !Rivals(sys.cache, sys.processes[p], sys.processes[q]);
    assert q < p ==> !Rivals(sys.cache, sys.processes[q], sys.processes[p]);
  }

  /** Five minutes are needed: a request still submitting when its claim runs out adds a second
      batch to a lifetime in which another has been submitted. */
  lemma SlowSubmissionAddsABatch(p: Process, q: Process, s: Cache)
    requires p.pc == Reading && q.pc == Reading && p.token != q.token && p.token != "" && q.token != ""
    requires p.report == q.report && p.report !in s.values
    ensures exists states: seq<System>, actions: seq<Action> ::
              && IsRun(states, actions) && |actions| == 7 && states[0] == System(s, [p, q])
              && SubmitsBatch(states[5], actions[5], 1) && SubmitsBatch(states[6], actions[6], 0)
              && !HasNoState(states[5], p.report) && !HasNoState(states[6], p.report)
  {
    var own := Act(0, Answer(false, false, Accepted("a"), Unanswered, map[], 0));
    var s0 := System(s, [p, q]);
    TwoStepsToClaim(s0, 0, own);
    ThreeSteps(s0, own, own, Wait(CLAIM_SECONDS));
    ClaimRunsOut(s, p, CLAIM_SECONDS);
    var s1 := NextSystem(s0, own);
    var s2 := NextSystem(s1, own);
    Overtaken([s0, s1, s2, NextSystem(s2, Wait(CLAIM_SECONDS))], [own, own, Wait(CLAIM_SECONDS)], own);
  }

  /** A request that submits after its claim ran out comes after one that claimed meanwhile. */
  lemma Overtaken(states: seq<System>, actions: seq<Action>, own: Action)
    requires IsRun(states, actions) && |actions| == 3 && |states[3].processes| == 2
    requires states[3].processes[0].pc.Submitting? && states[3].processes[1].pc == Reading
    requires HasNoState(states[3], states[3].processes[1].report)
    requires own.Act? && own.i == 0 && own.answer.batch.Accepted? && own.answer.reduction == 0
    ensures exists more: seq<System>, further: seq<Action> ::
              && IsRun(more, further) && |further| == 7 && more[0] == states[0]
              && SubmitsBatch(more[5], further[5], 1) && SubmitsBatch(more[6], further[6], 0)
              && !HasNoState(more[5], states[3].processes[1].report) && !HasNoState(more[6], states[3].processes[1].report)
  {
    var other := Act(1, Answer(false, false, Accepted("b"), Unanswered, map[], 0));
    var s4 := NextSystem(states[3], other);
    var s5 := NextSystem(s4, other);
    TwoStepsToClaim(states[3], 1, other);
    var s6 := NextSystem(s5, other);
    assert s6.cache == s5.cache && s6.processes[0] == states[3].processes[0];
    FourMoreSteps(states, actions, other, other, other, own);
    var more, further := states + [s4, s5, s6, NextSystem(s6, own)], actions + [other, other, other, own];
    assert more[5] == s5 && more[6] == s6 && further[5] == other && further[6] == own;
  }

  lemma TwoStepsToClaim(sys: System, k: nat, action: Action)
    requires k < |sys.processes| && sys.processes[k].pc == Reading && HasNoState(sys, sys.processes[k].report)
    requires action.Act? && action.i == k && !action.answer.fault && action.answer.reduction == 0
    ensures var p := sys.processes[k];
            NextSystem(NextSystem(sys, action), action)
            == System(WithState(sys.cache, p.report, OwnClaim(p), BUDGET_WINDOW_STARTING_TTL_SECONDS),
                      sys.processes[k := p.(pc := Submitting(sys.cache.now))])
  {
    var p := sys.processes[k];
    assert NextSystem(sys, action) == System(sys.cache, sys.processes[k := p.(pc := Claiming(0))]);
    assert sys.processes[k := p.(pc := Claiming(0))][k := p.(pc := Submitting(sys.cache.now))]
        == sys.processes[k := p.(pc := Submitting(sys.cache.now))];
  }

  lemma ClaimRunsOut(s: Cache, p: Process, seconds: real)
    requires seconds >= CLAIM_SECONDS
    ensures p.report !in Advance(WithState(s, p.report, OwnClaim(p), BUDGET_WINDOW_STARTING_TTL_SECONDS), seconds).values
  {
  }

  lemma ThreeSteps(s0: System, a: Action, b: Action, c: Action)
    requires (forall i :: 0 <= i < |s0.processes| ==> s0.processes[i].pc == Reading) && ProperTokens(s0.processes)
    requires LawfulAction(s0, a) && LawfulAction(NextSystem(s0, a), b)
    requires LawfulAction(NextSystem(NextSystem(s0, a), b), c)
    ensures var s1 := NextSystem(s0, a);
            var s2 := NextSystem(s1, b);
            IsRun([s0, s1, s2, NextSystem(s2, c)], [a, b, c])
  {
  }

  lemma FourMoreSteps(states: seq<System>, actions: seq<Action>, a: Action, b: Action, c: Action, d: Action)
    requires IsRun(states, actions) && LawfulAction(states[|actions|], a)
    requires LawfulAction(NextSystem(states[|actions|], a), b)
    requires LawfulAction(NextSystem(NextSystem(states[|actions|], a), b), c)
    requires LawfulAction(NextSystem(NextSystem(NextSystem(states[|actions|], a), b), c), d)
    ensures var s1 := NextSystem(states[|actions|], a);
            var s2 := NextSystem(s1, b);
            var s3 := NextSystem(s2, c);
            IsRun(states + [s1, s2, s3, NextSystem(s3, d)], actions + [a, b, c, d])
  {
  }

  // ---- Only a claim's owner undoes it; a submitted batch is never undone ----

  /** In every run, a step that removes a report's state is time running out on it, or its owner
      clearing exactly its own claim, or a reader removing a value that is no state at all. */
  lemma RemovalsAreOwn(states: seq<System>, actions: seq<Action>, i: nat, report: Report)
    requires IsRun(states, actions) && i < |actions|
    requires !HasNoState(states[i], report) && HasNoState(states[i + 1], report)
    ensures var value := states[i].cache.values[report];
            || (actions[i].Wait? && report in states[i].cache.expires
                && states[i].cache.expires[report] <= states[i + 1].cache.now)
            || (actions[i].Act? && states[i].processes[actions[i].i].pc.Clearing?
                && DecodedState(value)
                   == Some(StartingState(states[i].processes[actions[i].i].token, Some(states[i].processes[actions[i].i].bound))))
            || DecodedState(value).None?
  {
    RunStaysOrderly(states, actions, i);
    if actions[i].Act? {
      var p := states[i].processes[actions[i].i];
      assert Steady(states[i].cache, p);
      StateRoundTrip(StartingState(p.token, Some(p.bound)));
    }
  }

  /** The report holds a submitted, completed or failed state until then, at least. */
  predicate Settles(s: Cache, report: Report, until: real) {
    && report in s.values && DecodedState(s.values[report]).Some?
    && DecodedState(s.values[report]).value.status != Starting
    && report in s.expires && s.expires[report] >= until
  }

  lemma WritingSettles(s: Cache, report: Report, state: State, ttl: int, until: real)
    requires Complete(state) && state.status != Starting && ttl >= BUDGET_WINDOW_BATCH_TTL_SECONDS
    requires until <= s.now + BUDGET_WINDOW_BATCH_TTL_SECONDS as real
    ensures Settles(WithState(s, report, state, ttl), report, until)
  {
    StateRoundTrip(state);
  }

  lemma StepKeepsSettled(s: Cache, p: Process, answer: Answer, report: Report, until: real)
    requires ProperPc(p) && p.token != "" && answer.reduction <= BUDGET_WINDOW_RESULT_TTL_SECONDS / 10
    requires Settles(s, report, until) && until <= s.now + BUDGET_WINDOW_BATCH_TTL_SECONDS as real
    ensures Settles(StepCache(s, p, answer), report, until)
  {
    if p.report == report {
      match p.pc
      case StoringSubmitted(batchJobId) =>
        if batchJobId != "" {
          WritingSettles(s, report, SubmittedState(batchJobId, Some(p.bound)), BUDGET_WINDOW_BATCH_TTL_SECONDS, until);
        }
      case Writing(state, _) => WritingSettles(s, report, state, ResultTtl(answer.reduction), until);
      case Clearing => StateRoundTrip(StartingState(p.token, Some(p.bound)));
      case _ =>
    }
  }

  predicate SettledUntil(sys: System, report: Report, until: real) {
    sys.cache.now < until ==> Settles(sys.cache, report, until)
  }

  lemma ActionKeepsSettled(sys: System, action: Action, report: Report, until: real)
    requires LawfulAction(sys, action) && Orderly(sys) && SettledUntil(sys, report, until)
    requires until <= sys.cache.now + BUDGET_WINDOW_BATCH_TTL_SECONDS as real
    ensures SettledUntil(NextSystem(sys, action), report, until)
  {
    TimeAdvances(sys, action);
    match action
    case Act(k, answer) =>
      assert Steady(sys.cache, sys.processes[k]);
      if sys.cache.now < until { StepKeepsSettled(sys.cache, sys.processes[k], answer, report, until); }
    case Wait(seconds) =>
  }

  lemma {:induction false} RunKeepsSettled(states: seq<System>, actions: seq<Action>, i: nat, j: nat, report: Report,
                                           until: real)
    requires IsRun(states, actions) && i <= j < |states|
    requires SettledUntil(states[i], report, until)
    requires until <= states[i].cache.now + BUDGET_WINDOW_BATCH_TTL_SECONDS as real
    ensures states[i].cache.now <= states[j].cache.now && SettledUntil(states[j], report, until)
  {
    if i < j {
      RunKeepsSettled(states, actions, i, j - 1, report, until);
      RunStaysOrderly(states, actions, j - 1);
      TimeAdvances(states[j - 1], actions[j - 1]);
      ActionKeepsSettled(states[j - 1], actions[j - 1], report, until);
    }
  }

  /** A settled report stays settled through every interleaving and every failure until its time is up. */
  lemma SettledReportLasts(states: seq<System>, actions: seq<Action>, i: nat, j: nat, report: Report, until: real)
    requires IsRun(states, actions) && i <= j < |states|
    requires Settles(states[i].cache, report, until)
    requires until <= states[i].cache.now + BUDGET_WINDOW_BATCH_TTL_SECONDS as real
    ensures states[j].cache.now < until ==> Settles(states[j].cache, report, until)
  {
    RunKeepsSettled(states, actions, i, j, report, until);
  }

  /** A stored batch shields its report for a day: no claim on it is won, however late a release or
      another request's write arrives. */
  lemma StoredBatchShieldsReport(states: seq<System>, actions: seq<Action>, i: nat, j: nat, p: nat, q: nat)
    requires IsRun(states, actions) && i < j < |actions|
    requires actions[i].Act? && actions[i].i == p && !actions[i].answer.fault
    requires states[i].processes[p].pc.StoringSubmitted? && states[i].processes[p].pc.batchJobId != ""
    requires states[j].cache.now < states[i].cache.now + BUDGET_WINDOW_BATCH_TTL_SECONDS as real
    ensures Settles(states[j].cache, states[i].processes[p].report,
                    states[i].cache.now + BUDGET_WINDOW_BATCH_TTL_SECONDS as real)
    ensures q < |states[j].processes| && states[j].processes[q].report == states[i].processes[p].report ==>
              !WinsClaim(states[j], actions[j], q)
  {
    var report, until := states[i].processes[p].report, states[i].cache.now + BUDGET_WINDOW_BATCH_TTL_SECONDS as real;
    WritingSettles(states[i].cache, report,
                   SubmittedState(states[i].processes[p].pc.batchJobId, Some(states[i].processes[p].bound)),
                   BUDGET_WINDOW_BATCH_TTL_SECONDS, until);
    SettledReportLasts(states, actions, i + 1, j, report, until);
  }
}
