/** What becomes of one budget-window request in a run: what it may write, and why. */
module BudgetWindowHistory {
  import opened Outcome
  import opened CacheStore
  import opened CacheCore
  import opened BudgetWindowState
  import opened BudgetWindowCache
  import opened BudgetWindowSubmission

  /** The request takes no step between the two states. */
  ghost predicate Rests(actions: seq<Action>, p: nat, i: nat, j: nat)
    requires j <= |actions|
  {
    forall k :: i <= k < j ==> !(actions[k].Act? && actions[k].i == p)
  }

  /** The request takes step `i`, and its next step is step `j`. */
  ghost predicate StepsAt(actions: seq<Action>, p: nat, i: nat, j: nat) {
    && i < j < |actions| && TakesStep(actions, p, i) && Rests(actions, p, i + 1, j) && TakesStep(actions, p, j)
  }

  predicate TakesStep(actions: seq<Action>, p: nat, i: nat) { i < |actions| && actions[i].Act? && actions[i].i == p }

  lemma {:induction false} RestingStays(states: seq<System>, actions: seq<Action>, p: nat, i: nat, j: nat)
    requires IsRun(states, actions) && i <= j < |states| && p < |states[i].processes| && Rests(actions, p, i, j)
    ensures p < |states[j].processes| && states[j].processes[p] == states[i].processes[p]
  {
    if i < j { RestingStays(states, actions, p, i, j - 1); }
  }

  /** The request's steps from `i` on leave the cache as it is. */
  ghost predicate WritesNothing(states: seq<System>, actions: seq<Action>, p: nat, i: nat)
    requires |states| == |actions| + 1
  {
    forall k :: i <= k && TakesStep(actions, p, k) ==> states[k + 1].cache == states[k].cache
  }

  lemma {:induction false} DoneStays(states: seq<System>, actions: seq<Action>, p: nat, i: nat, j: nat)
    requires IsRun(states, actions) && i <= j < |states| && p < |states[i].processes| && states[i].processes[p].pc.Done?
    ensures p < |states[j].processes| && states[j].processes[p] == states[i].processes[p]
  {
    if i < j { DoneStays(states, actions, p, i, j - 1); }
  }

  lemma DoneWritesNothing(states: seq<System>, actions: seq<Action>, p: nat, i: nat)
    requires IsRun(states, actions) && i < |states| && p < |states[i].processes| && states[i].processes[p].pc.Done?
    ensures WritesNothing(states, actions, p, i)
  {
    forall k | i <= k && TakesStep(actions, p, k) ensures states[k + 1].cache == states[k].cache {
      DoneStays(states, actions, p, i, k);
    }
  }

  // ---- Why a state is stored ----

  /** The poll said that the batch ended without a result, or the gateway that the submission was invalid. */
  predicate AnsweredFailure(p: Process, answer: Answer) {
    || (p.pc.Answering? && p.pc.state.status == Submitted
        && (answer.poll.Unsuccessful?
            || (answer.poll.Succeeded? && (answer.poll.result.None? || answer.poll.result.value == map[]))))
    || (p.pc.Submitting? && answer.batch.Invalid?)
  }

  /** The poll was refused, or a polled or stored result is not certified for the request. */
  predicate AnsweredRefusal(p: Process, answer: Answer) {
    || (p.pc.Answering? && p.pc.state.status == Submitted
        && (answer.poll.Refused?
            || (answer.poll.Succeeded? && answer.poll.result.Some? && answer.poll.result.value != map[]
                && !p.certifies(answer.poll.result.value))))
    || (p.pc.Answering? && p.pc.state.status == Completed
        && !(p.pc.state.result.Some? && p.certifies(p.pc.state.result.value)))
  }

  predicate AnsweredResult(p: Process, answer: Answer, result: Document) {
    && p.pc.Answering? && p.pc.state.status == Submitted && answer.poll == Succeeded(Some(result))
    && result != map[] && p.certifies(result)
  }

  predicate AnsweredBatch(p: Process, answer: Answer, batchJobId: string) {
    p.pc.Submitting? && answer.batch == Accepted(batchJobId)
  }

  /** The answer to the request's step is a reason to store this state. */
  predicate IsReasonFor(p: Process, answer: Answer, state: State) {
    match state.status
    case Starting => false
    case Submitted => state.batchJobId.Some? && AnsweredBatch(p, answer, state.batchJobId.value)
    case Completed => state.result.Some? && AnsweredResult(p, answer, state.result.value)
    case Failed =>
      if state.failureType == Some(Execution) then AnsweredFailure(p, answer)
      else state.failureType == Some(SpmValidation) && AnsweredRefusal(p, answer)
  }

  /** What the request is about to store. */
  function ToStore(p: Process): Option<State> {
    match p.pc
    case Writing(state, _) => Some(state)
    case StoringSubmitted(batchJobId) => Some(SubmittedState(batchJobId, Some(p.bound)))
    case _ => None
  }

  lemma StepHasReason(s: Cache, p: Process, answer: Answer)
    requires ToStore(p.(pc := StepPc(s, p, answer))).Some?
    ensures IsReasonFor(p, answer, ToStore(p.(pc := StepPc(s, p, answer))).value)
  {
  }

  /** The step just before was the request's own, and its answer the reason. */
  ghost predicate HadReason(states: seq<System>, actions: seq<Action>, i: nat, p: nat, state: State)
    requires |states| == |actions| + 1
  {
    exists m: nat :: m < i && StepsBefore(states, actions, m, i, p) && IsReasonFor(states[m].processes[p], actions[m].answer, state)
  }

  ghost predicate StepsBefore(states: seq<System>, actions: seq<Action>, m: nat, i: nat, p: nat)
    requires |states| == |actions| + 1
  {
    m < i <= |actions| && TakesStep(actions, p, m) && Rests(actions, p, m + 1, i) && p < |states[m].processes|
  }

  lemma {:induction false} StoringHasReason(states: seq<System>, actions: seq<Action>, i: nat, p: nat)
    requires IsRun(states, actions) && i < |states| && p < |states[i].processes| && ToStore(states[i].processes[p]).Some?
    ensures HadReason(states, actions, i, p, ToStore(states[i].processes[p]).value)
    decreases i
  {
    RequestsStay(states, actions, i, p);
    RequestsStay(states, actions, i - 1, p);
    if TakesStep(actions, p, i - 1) {
      StepHasReason(states[i - 1].cache, states[i - 1].processes[p], actions[i - 1].answer);
      assert StepsBefore(states, actions, i - 1, i, p);
    } else {
      StoringHasReason(states, actions, i - 1, p);
      var m: nat :| m < i - 1 && StepsBefore(states, actions, m, i - 1, p)
                    && IsReasonFor(states[m].processes[p], actions[m].answer, ToStore(states[i].processes[p]).value);
      assert StepsBefore(states, actions, m, i, p);
    }
  }

  lemma OnlyStoringChanges(s: Cache, p: Process, answer: Answer, report: Report)
    requires ProperPc(p) && p.token != "" && answer.reduction <= BUDGET_WINDOW_RESULT_TTL_SECONDS / 10
    requires ReadState(StepCache(s, p, answer), report).Some?
    requires ReadState(StepCache(s, p, answer), report) != ReadState(s, report)
    ensures p.report == report
    ensures || (p.pc.Claiming? && s.values.Keys !! {report} && ReadState(StepCache(s, p, answer), report) == Some(OwnClaim(p)))
            || ReadState(StepCache(s, p, answer), report) == ToStore(p)
  {
    match p.pc
    case Claiming(_) => StateReadsBack(s, p.report, OwnClaim(p), BUDGET_WINDOW_STARTING_TTL_SECONDS);
    case StoringSubmitted(batchJobId) =>
      if batchJobId != "" {
        StateReadsBack(s, p.report, SubmittedState(batchJobId, Some(p.bound)), BUDGET_WINDOW_BATCH_TTL_SECONDS);
      }
    case Writing(state, _) => StateReadsBack(s, p.report, state, ResultTtl(answer.reduction));
    case _ =>
  }

  /** Every state that a report comes to hold has its reason: a claim of a request that found the report
      empty, or the answer to the previous step of the request that stores it. So a report becomes
      failed only because a batch was said to have failed, to have no result, or to be invalid;
      refused only because a poll was, or a result is not certified; submitted only with the batch that
      the gateway accepted; and completed only with the certified result that it returned. */
  lemma EveryStateHasItsReason(states: seq<System>, actions: seq<Action>, k: nat, report: Report)
    requires IsRun(states, actions) && k < |actions|
    requires ReadState(states[k + 1].cache, report).Some?
    requires ReadState(states[k + 1].cache, report) != ReadState(states[k].cache, report)
    ensures actions[k].Act? && states[k].processes[actions[k].i].report == report
    ensures var state, p := ReadState(states[k + 1].cache, report).value, actions[k].i;
            || (states[k].processes[p].pc.Claiming? && report !in states[k].cache.values
                && state == StartingState(states[k].processes[p].token, Some(states[k].processes[p].candidate)))
            || HadReason(states, actions, k, p, state)
  {
    RunStaysOrderly(states, actions, k);
    if actions[k].Act? {
      var p := actions[k].i;
      assert Steady(states[k].cache, states[k].processes[p]);
      OnlyStoringChanges(states[k].cache, states[k].processes[p], actions[k].answer, report);
      if ToStore(states[k].processes[p]).Some? { StoringHasReason(states, actions, k, p); }
    }
  }

  // ---- What each answer leads to ----

  /** A batch that is still running, or a gateway that does not answer, makes a request write nothing. */
  lemma PendingWritesNothing(states: seq<System>, actions: seq<Action>, i: nat, p: nat)
    requires IsRun(states, actions) && TakesStep(actions, p, i) && states[i].processes[p].pc.Answering?
    requires states[i].processes[p].pc.state.status == Submitted
    requires actions[i].answer.poll.Pending? || actions[i].answer.poll.Unanswered?
    ensures WritesNothing(states, actions, p, i)
    ensures states[i + 1].processes[p].pc == Done(if actions[i].answer.poll.Pending? then Polled else Raised)
  {
    DoneWritesNothing(states, actions, p, i + 1);
  }

  /** A stored failure and a claim are answered as they are, and so is a result that is certified. */
  lemma ReplayWritesNothing(states: seq<System>, actions: seq<Action>, i: nat, p: nat)
    requires IsRun(states, actions) && TakesStep(actions, p, i) && states[i].processes[p].pc.Answering?
    requires var state := states[i].processes[p].pc.state;
             || state.status == Failed || state.status == Starting
             || (state.status == Completed && state.result.Some? && states[i].processes[p].certifies(state.result.value))
    ensures WritesNothing(states, actions, p, i)
    ensures states[i + 1].processes[p].pc
         == Done(if states[i].processes[p].pc.state.status == Starting then Queued else Replayed)
  {
    DoneWritesNothing(states, actions, p, i + 1);
  }

  /** The report holds this state, for at least as long, from the step on. */
  predicate Holds(s: Cache, report: Report, state: State, seconds: int) {
    && ReadState(s, report) == Some(state)
    && report in s.expires && s.expires[report] == s.now + seconds as real
  }

  /** The state that an answer ends the report with, if it does. */
  function TerminalState(p: Process, answer: Answer): Option<State> {
    if AnsweredFailure(p, answer) then
      Some(FailedState(Execution, if p.pc.Submitting? then answer.batch.failure else answer.details, Some(p.bound)))
    else if AnsweredRefusal(p, answer) then Some(FailedState(SpmValidation, answer.details, Some(p.bound)))
    else if answer.poll.Succeeded? && answer.poll.result.Some? && AnsweredResult(p, answer, answer.poll.result.value) then
      Some(CompletedState(answer.poll.result.value, Some(p.bound)))
    else None
  }

  /** How such a request ends: a refusal is raised, an invalid submission rejected. */
  function TerminalEnding(p: Process, answer: Answer): Ending {
    if AnsweredRefusal(p, answer) then Raised else if p.pc.Submitting? then Rejected else Polled
  }

  lemma StepEnds(s: Cache, p: Process, answer: Answer)
    requires TerminalState(p, answer).Some?
    ensures StepPc(s, p, answer) == Writing(TerminalState(p, answer).value, TerminalEnding(p, answer))
  {
  }

  lemma WritingIsStored(states: seq<System>, actions: seq<Action>, j: nat, p: nat)
    requires IsRun(states, actions) && TakesStep(actions, p, j) && !actions[j].answer.fault
    requires states[j].processes[p].pc.Writing?
    ensures Holds(states[j + 1].cache, states[j].processes[p].report, states[j].processes[p].pc.state,
                  BUDGET_WINDOW_RESULT_TTL_SECONDS - actions[j].answer.reduction)
    ensures states[j + 1].processes[p].pc == Done(states[j].processes[p].pc.ending)
  {
    RunStaysOrderly(states, actions, j);
    var q := states[j].processes[p];
    assert Steady(states[j].cache, q);
    StateReadsBack(states[j].cache, q.report, q.pc.state, ResultTtl(actions[j].answer.reduction));
  }

  /** A polled failure, an invalid submission, a refusal and a certified result are each stored by the
      request's next step, for a month less its reduction. */
  lemma TerminalAnswerIsStored(states: seq<System>, actions: seq<Action>, i: nat, j: nat, p: nat)
    requires IsRun(states, actions) && StepsAt(actions, p, i, j) && !actions[j].answer.fault
    requires TerminalState(states[i].processes[p], actions[i].answer).Some?
    ensures Holds(states[j + 1].cache, states[i].processes[p].report,
                  TerminalState(states[i].processes[p], actions[i].answer).value,
                  BUDGET_WINDOW_RESULT_TTL_SECONDS - actions[j].answer.reduction)
    ensures states[j + 1].processes[p].pc == Done(TerminalEnding(states[i].processes[p], actions[i].answer))
  {
    StepEnds(states[i].cache, states[i].processes[p], actions[i].answer);
    RestingStays(states, actions, p, i + 1, j);
    WritingIsStored(states, actions, j, p);
  }

  lemma BatchIsStored(states: seq<System>, actions: seq<Action>, j: nat, p: nat)
    requires IsRun(states, actions) && TakesStep(actions, p, j) && !actions[j].answer.fault
    requires states[j].processes[p].pc.StoringSubmitted? && states[j].processes[p].pc.batchJobId != ""
    ensures Holds(states[j + 1].cache, states[j].processes[p].report,
                  SubmittedState(states[j].processes[p].pc.batchJobId, Some(states[j].processes[p].bound)),
                  BUDGET_WINDOW_BATCH_TTL_SECONDS)
    ensures states[j + 1].processes[p].pc == Done(BatchStored)
  {
    var q := states[j].processes[p];
    StateReadsBack(states[j].cache, q.report, SubmittedState(q.pc.batchJobId, Some(q.bound)), BUDGET_WINDOW_BATCH_TTL_SECONDS);
  }

  /** An accepted batch is stored by the request's next step, for a day. */
  lemma AcceptedBatchIsStored(states: seq<System>, actions: seq<Action>, i: nat, j: nat, p: nat, batchJobId: string)
    requires IsRun(states, actions) && StepsAt(actions, p, i, j) && !actions[j].answer.fault
    requires AnsweredBatch(states[i].processes[p], actions[i].answer, batchJobId) && batchJobId != ""
    ensures Holds(states[j + 1].cache, states[i].processes[p].report,
                  SubmittedState(batchJobId, Some(states[i].processes[p].bound)), BUDGET_WINDOW_BATCH_TTL_SECONDS)
    ensures states[j + 1].processes[p].pc == Done(BatchStored)
  {
    RestingStays(states, actions, p, i + 1, j);
    BatchIsStored(states, actions, j, p);
  }

  /** `t` is `s` without the request's own claim on its report, if `s` holds that there. */
  ghost predicate ClaimCleared(s: Cache, t: Cache, p: Process) {
    if Get(s, p.report) == Some(EncodedState(StartingState(p.token, Some(p.bound)))) then
      p.report !in t.values && forall other :: other != p.report ==> Get(t, other) == Get(s, other)
    else t == s
  }

  lemma ClearingClears(states: seq<System>, actions: seq<Action>, j: nat, p: nat)
    requires IsRun(states, actions) && TakesStep(actions, p, j) && !actions[j].answer.fault
    requires states[j].processes[p].pc.Clearing?
    ensures ClaimCleared(states[j].cache, states[j + 1].cache, states[j].processes[p])
    ensures states[j + 1].processes[p].pc == Done(Raised)
  {
  }

  /** A failed submission, and a batch that cannot be stored, free the report: the next step
      removes the request's own claim, if it is still there, and nothing else. */
  lemma FailedSubmissionClearsClaim(states: seq<System>, actions: seq<Action>, i: nat, j: nat, p: nat)
    requires IsRun(states, actions) && StepsAt(actions, p, i, j) && !actions[j].answer.fault
    requires || (states[i].processes[p].pc.Submitting? && actions[i].answer.batch.Broken?)
             || (states[i].processes[p].pc.StoringSubmitted?
                 && (actions[i].answer.fault || states[i].processes[p].pc.batchJobId == ""))
    ensures ClaimCleared(states[j].cache, states[j + 1].cache, states[i].processes[p])
    ensures states[j + 1].processes[p].pc == Done(Raised)
  {
    RestingStays(states, actions, p, i + 1, j);
    ClearingClears(states, actions, j, p);
  }

  // ---- Reading and claiming ----

  /** A request that reads its report answers from the state it holds; with none there it claims the
      report, after removing a value that is no state. */
  lemma ReadLeadsTo(states: seq<System>, actions: seq<Action>, i: nat, p: nat)
    requires IsRun(states, actions) && TakesStep(actions, p, i) && !actions[i].answer.fault
    requires states[i].processes[p].pc == Reading
    ensures var report, pc := states[i].processes[p].report, states[i + 1].processes[p].pc;
            && states[i + 1].cache == states[i].cache
            && (ReadState(states[i].cache, report).Some? ==> pc == Answering(ReadState(states[i].cache, report).value))
            && (report !in states[i].cache.values ==> pc.Claiming?)
            && (report in states[i].cache.values && ReadState(states[i].cache, report).None? ==>
                  pc == Cleaning(states[i].cache.values[report]))
  {
  }

  /** A value that is no state is removed exactly if it is still there; then the request claims, again
      if it had lost before, up to three times. */
  lemma UnreadableIsCleaned(states: seq<System>, actions: seq<Action>, i: nat, p: nat)
    requires IsRun(states, actions) && TakesStep(actions, p, i) && !actions[i].answer.fault
    requires states[i].processes[p].pc.Cleaning? || states[i].processes[p].pc.CleaningOwner?
    ensures var q := states[i].processes[p];
            && q.pc.encoded != EncodedState(OwnClaim(q))
            && (if Get(states[i].cache, q.report) == Some(q.pc.encoded) then
                  q.report !in states[i + 1].cache.values
                  && forall other :: other != q.report ==> Get(states[i + 1].cache, other) == Get(states[i].cache, other)
                else states[i + 1].cache == states[i].cache)
    ensures var q, looked := states[i].processes[p], Looks(states, actions, p, i);
            states[i + 1].processes[p].pc == if looked < 3 then Claiming(looked) else Done(Raised)
  {
    RunStaysOrderly(states, actions, i);
    RequestsStay(states, actions, i, p);
    LooksAreCounted(states, actions, p, i);
    var q := states[i].processes[p];
    assert Steady(states[i].cache, q);
    StateRoundTrip(OwnClaim(q));
  }

  /** A claim is won exactly on a report without a value, and holds the report for 300 seconds. */
  lemma FreeReportIsClaimed(states: seq<System>, actions: seq<Action>, i: nat, p: nat)
    requires IsRun(states, actions) && TakesStep(actions, p, i) && states[i].processes[p].pc.Claiming?
    ensures var q, free := states[i].processes[p], HasNoState(states[i], states[i].processes[p].report);
            && (states[i + 1].processes[p].pc.Submitting? <==> free && !actions[i].answer.fault)
            && (free && !actions[i].answer.fault ==>
                  Holds(states[i + 1].cache, q.report, StartingState(q.token, Some(q.candidate)), 300))
            && (!free ==> states[i + 1].cache == states[i].cache)
  {
    RunStaysOrderly(states, actions, i);
    StateReadsBack(states[i].cache, states[i].processes[p].report, OwnClaim(states[i].processes[p]), 300);
  }

  /** A loser that reads a state is answered from that, as queued, and writes nothing. */
  lemma LoserIsQueued(states: seq<System>, actions: seq<Action>, i: nat, p: nat)
    requires IsRun(states, actions) && TakesStep(actions, p, i) && !actions[i].answer.fault
    requires states[i].processes[p].pc.ReadingOwner?
    requires ReadState(states[i].cache, states[i].processes[p].report).Some?
    ensures states[i + 1].processes[p].pc == Done(Queued) && WritesNothing(states, actions, p, i)
  {
    DoneWritesNothing(states, actions, p, i + 1);
  }

  /** A loser that reads a value that is no state cleans it up. */
  lemma LoserCleansUp(states: seq<System>, actions: seq<Action>, i: nat, p: nat)
    requires IsRun(states, actions) && TakesStep(actions, p, i) && !actions[i].answer.fault
    requires states[i].processes[p].pc.ReadingOwner? && !HasNoState(states[i], states[i].processes[p].report)
    requires ReadState(states[i].cache, states[i].processes[p].report).None?
    ensures states[i + 1].cache == states[i].cache && states[i + 1].processes[p].pc.CleaningOwner?
    ensures states[i + 1].processes[p].pc.encoded == states[i].cache.values[states[i].processes[p].report]
  {
  }

  /** A failing read or claim raises, and nothing is written after it. */
  lemma FaultRaises(states: seq<System>, actions: seq<Action>, i: nat, p: nat)
    requires IsRun(states, actions) && TakesStep(actions, p, i) && actions[i].answer.fault
    requires var pc := states[i].processes[p].pc; pc == Reading || pc.Claiming? || pc.ReadingOwner?
    ensures states[i + 1].processes[p].pc == Done(Raised) && WritesNothing(states, actions, p, i + 1)
  {
    DoneWritesNothing(states, actions, p, i + 1);
  }

  /** How often the request has looked for the owner. */
  function Looks(states: seq<System>, actions: seq<Action>, p: nat, i: nat): nat
    requires i <= |actions| <= |states|
  {
    if i == 0 then 0
    else
      Looks(states, actions, p, i - 1)
      + if TakesStep(actions, p, i - 1) && p < |states[i - 1].processes| && states[i - 1].processes[p].pc.ReadingOwner?
        then 1 else 0
  }

  predicate CountsLooks(pc: Pc, looks: nat) {
    match pc
    case Reading => looks == 0
    case Cleaning(_) => looks == 0
    case Answering(_) => looks == 0
    case Claiming(attempt) => attempt == looks < 3
    case ReadingOwner(attempt) => attempt == looks < 3
    case CleaningOwner(attempt, _) => attempt + 1 == looks <= 3
    case _ => true
  }

  lemma StepCountsLooks(s: Cache, p: Process, answer: Answer, looks: nat)
    requires CountsLooks(p.pc, looks)
    ensures CountsLooks(StepPc(s, p, answer), if p.pc.ReadingOwner? then looks + 1 else looks)
  {
  }

  lemma {:induction false} LooksAreCounted(states: seq<System>, actions: seq<Action>, p: nat, i: nat)
    requires IsRun(states, actions) && i < |states| && p < |states[0].processes|
    ensures p < |states[i].processes| && CountsLooks(states[i].processes[p].pc, Looks(states, actions, p, i))
  {
    if i > 0 {
      LooksAreCounted(states, actions, p, i - 1);
      RequestsStay(states, actions, i, p);
      if TakesStep(actions, p, i - 1) {
        StepCountsLooks(states[i - 1].cache, states[i - 1].processes[p], actions[i - 1].answer,
                        Looks(states, actions, p, i - 1));
      }
    }
  }

  /** A request that lost but finds the report empty claims again, until it has looked three times. */
  lemma ClaimsAgainUpToThreeTimes(states: seq<System>, actions: seq<Action>, i: nat, p: nat)
    requires IsRun(states, actions) && TakesStep(actions, p, i) && !actions[i].answer.fault
    requires states[i].processes[p].pc.ReadingOwner? && HasNoState(states[i], states[i].processes[p].report)
    ensures states[i + 1].processes[p].pc == if Looks(states, actions, p, i) < 2 then Claiming(Looks(states, actions, p, i) + 1)
                                             else Done(Raised)
  {
    RequestsStay(states, actions, i, p);
    LooksAreCounted(states, actions, p, i);
  }

  // ---- A failing store may have done what it was asked ----

  /** A claim or a write whose answer is lost has happened or not, as the world has it: so a report
      may be claimed by a request that raised, until the claim runs out. */
  lemma LostAnswersMayHaveApplied(states: seq<System>, actions: seq<Action>, i: nat, p: nat)
    requires IsRun(states, actions) && TakesStep(actions, p, i) && actions[i].answer.fault
    ensures !actions[i].answer.applied ==> states[i + 1].cache == states[i].cache
    ensures var q := states[i].processes[p];
            actions[i].answer.applied ==>
              && (q.pc.Claiming? && HasNoState(states[i], q.report) ==>
                    Holds(states[i + 1].cache, q.report, StartingState(q.token, Some(q.candidate)), 300)
                    && states[i + 1].processes[p].pc == Done(Raised))
              && (q.pc.Writing? ==> ReadState(states[i + 1].cache, q.report) == Some(q.pc.state))
              && (q.pc.Clearing? ==> ClaimCleared(states[i].cache, states[i + 1].cache, q))
  {
    RunStaysOrderly(states, actions, i);
    assert Steady(states[i].cache, states[i].processes[p]);
    LostStepMayHaveApplied(states[i].cache, states[i].processes[p], actions[i].answer);
  }

  lemma LostStepMayHaveApplied(s: Cache, p: Process, answer: Answer)
    requires ProperPc(p) && p.token != "" && answer.fault && answer.reduction <= BUDGET_WINDOW_RESULT_TTL_SECONDS / 10
    ensures !answer.applied ==> StepCache(s, p, answer) == s
    ensures answer.applied && p.pc.Claiming? && p.report !in s.values ==>
              Holds(StepCache(s, p, answer), p.report, StartingState(p.token, Some(p.candidate)), 300)
    ensures answer.applied && p.pc.Writing? ==> ReadState(StepCache(s, p, answer), p.report) == Some(p.pc.state)
    ensures answer.applied && p.pc.Clearing? ==> ClaimCleared(s, StepCache(s, p, answer), p)
  {
    match p.pc
    case Claiming(_) => StateReadsBack(s, p.report, OwnClaim(p), 300);
    case Writing(state, _) => StateReadsBack(s, p.report, state, ResultTtl(answer.reduction));
    case _ =>
  }
}
