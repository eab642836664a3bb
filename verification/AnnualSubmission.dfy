/** Requests racing to submit the same annual simulation, each holding a claim that lasts five minutes. */
module AnnualSubmission {
  import opened Outcome
  import opened CacheStore
  import opened ReformImpacts

  const REFORM_IMPACT_START_CLAIM_ATTEMPTS: nat := 3
  const CLAIM_SECONDS := REFORM_IMPACT_START_CLAIM_TTL_SECONDS as real

  /** Where a request is. `since` is when it won the claim. */
  datatype Pc =
    | Claiming(attempt: nat)
    | ReadingOwner(attempt: nat)
    | Submitting(since: real)
    | Storing(since: real, write: Write)
    | Releasing(since: real)
    | Released
    | HandoffFailed(since: real)
    | Waiting(owner: Claim)
    | Raised

  /** A request that found nothing stored. `candidate` is the diagnostic identifier it claims
      with, `bound` the one it releases with. */
  datatype Process = Process(identity: Identity, target: string, token: string, candidate: string, bound: string, pc: Pc)

  datatype System = System(cache: Cache, processes: seq<Process>)

  datatype Submission = Refused | Accepted(write: Write)

  /** What the world answers a step: whether the store fails (a write may or may not have been
      applied by then) and what the gateway says to a submission. */
  datatype Answer = Answer(fault: bool, applied: bool, submission: Submission)

  /** A request's step, the clock's, or a step of another flow of the same cache. */
  datatype Action = Act(i: nat, answer: Answer) | Wait(seconds: real) | Elsewhere(step: Step)

  function ClaimKey(p: Process): Key { StartClaimKey(p.identity, p.target) }

  function OwnClaim(p: Process): Claim { Claim(p.token, p.candidate) }

  function ReadOwner(p: Process, value: Option<Stored>, attempt: nat): Pc {
    if value.None? then
      if attempt + 1 < REFORM_IMPACT_START_CLAIM_ATTEMPTS then Claiming(attempt + 1) else Raised
    else if value.value.ClaimStored? then Waiting(value.value.claim)
    else Raised
  }

  function StepPc(s: Cache, p: Process, answer: Answer): Pc {
    match p.pc
    case Claiming(attempt) =>
      if answer.fault then Raised
      else if ClaimKey(p) in s.values then ReadingOwner(attempt)
      else Submitting(s.now)
    case ReadingOwner(attempt) => if answer.fault then Raised else ReadOwner(p, Get(s, ClaimKey(p)), attempt)
    case Submitting(since) =>
      if answer.submission.Accepted? then Storing(since, answer.submission.write) else Releasing(since)
    case Storing(since, _) => if answer.fault then HandoffFailed(since) else Releasing(since)
    case Releasing(_) => Released
    case _ => p.pc
  }

  function StepCache(s: Cache, p: Process, answer: Answer): Cache {
    if answer.fault && !answer.applied then s
    else
      match p.pc
      case Claiming(_) =>
        SetValue(s, ClaimKey(p), ClaimStored(OwnClaim(p)), Some(REFORM_IMPACT_START_CLAIM_TTL_SECONDS), true, false).0
      case Storing(_, write) => ApplyAll(s, WriteCommands(write))
      case Releasing(_) => CompareAndDelete(s, ClaimKey(p), ClaimStored(Claim(p.token, p.bound))).0
      case _ => s
  }

  predicate LawfulAction(sys: System, action: Action) {
    match action
    case Act(i, answer) =>
      i < |sys.processes| && (answer.submission.Accepted? ==> Lawful(answer.submission.write))
    case Wait(seconds) => seconds >= 0.0
    case Elsewhere(step) =>
      LawfulStep(step) && (step.Create? || step.Rewrite? || step.DeleteFailure? || step.DeleteComputing?)
  }

  function NextSystem(sys: System, action: Action): System
    requires LawfulAction(sys, action)
  {
    match action
    case Act(i, answer) =>
      var p := sys.processes[i];
      System(StepCache(sys.cache, p, answer), sys.processes[i := p.(pc := StepPc(sys.cache, p, answer))])
    case Wait(seconds) => sys.(cache := Advance(sys.cache, seconds))
    case Elsewhere(step) => sys.(cache := Next(sys.cache, step))
  }

  /** A run from a state in which no request has claimed yet, and no two have the same token. */
  ghost predicate IsRun(states: seq<System>, actions: seq<Action>) {
    && |states| == |actions| + 1
    && (forall i :: 0 <= i < |states[0].processes| ==> states[0].processes[i].pc == Claiming(0))
    && DistinctTokens(states[0].processes)
    && forall i :: 0 <= i < |actions| ==>
         LawfulAction(states[i], actions[i]) && states[i + 1] == NextSystem(states[i], actions[i])
  }

  ghost predicate DistinctTokens(processes: seq<Process>) {
    forall i, j :: 0 <= i < j < |processes| ==> processes[i].token != processes[j].token
  }

  // ---- A claim is held until it expires or its owner releases it ----

  /** When the request won the claim it has not released. */
  function HeldSince(pc: Pc): Option<real> {
    match pc
    case Submitting(since) => Some(since)
    case Storing(since, _) => Some(since)
    case Releasing(since) => Some(since)
    case HandoffFailed(since) => Some(since)
    case _ => None
  }

  /** The request holds a claim that has not run out. */
  predicate Owns(s: Cache, p: Process) {
    HeldSince(p.pc).Some? && s.now < HeldSince(p.pc).value + CLAIM_SECONDS
  }

  /** What the request is about to store is a lawful write. */
  predicate StoresLawfully(p: Process) { p.pc.Storing? ==> Lawful(p.pc.write) }

  predicate Secured(s: Cache, p: Process) {
    Owns(s, p) ==>
      && Get(s, ClaimKey(p)) == Some(ClaimStored(OwnClaim(p)))
      && ClaimKey(p) in s.expires && s.expires[ClaimKey(p)] == HeldSince(p.pc).value + CLAIM_SECONDS
  }

  ghost predicate AllSecured(sys: System) {
    forall i :: 0 <= i < |sys.processes| ==> StoresLawfully(sys.processes[i]) && Secured(sys.cache, sys.processes[i])
  }

  /** The key and its expiry are the same in both. */
  predicate SameAt(s: Cache, t: Cache, key: Key) {
    && t.now == s.now
    && Get(t, key) == Get(s, key)
    && (key in t.expires <==> key in s.expires)
    && (key in s.expires ==> t.expires[key] == s.expires[key])
  }

  lemma WriteLeavesClaims(s: Cache, w: Write, key: Key)
    requires key.StartClaimKey? && Lawful(w)
    ensures SameAt(s, ApplyAll(s, WriteCommands(w)), key)
  {
    WriteEffect(s, w);
    RecordingLeaves(s, w, key);
    var inScope := Indexed(Recorded(s, w), IndexOf(w.impact), EnteredBy(s, w, IndexOf(w.impact)), w.ttl);
    IndexingLeaves(Recorded(s, w), IndexOf(w.impact), EnteredBy(s, w, IndexOf(w.impact)), w.ttl, key);
    IndexingLeaves(inScope, RecentIndex, EnteredBy(s, w, RecentIndex), w.ttl, key);
  }

  lemma RecordingLeaves(s: Cache, w: Write, key: Key)
    requires !key.RecordKey?
    ensures SameAt(s, Recorded(s, w), key)
  {
  }

  lemma IndexingLeaves(s: Cache, index: Key, members: map<nat, real>, ttl: int, key: Key)
    requires key != index
    ensures SameAt(s, Indexed(s, index, members, ttl), key)
  {
  }

  lemma OtherFlowsLeaveClaims(s: Cache, step: Step, key: Key)
    requires key.StartClaimKey? && LawfulStep(step)
    requires step.Create? || step.Rewrite? || step.DeleteFailure? || step.DeleteComputing?
    ensures SameAt(s, Next(s, step), key)
  {
    match step
    case Create(w) => WriteLeavesClaims(s, w, key);
    case Rewrite(w) => WriteLeavesClaims(s, w, key);
    case DeleteComputing(impact, id) => DeleteComputingEffect(s, impact, id);
    case _ =>
  }

  /** Another request's step does not disturb a claim that has not run out. */
  lemma OthersStepKeepsClaim(s: Cache, p: Process, other: Process, answer: Answer)
    requires Secured(s, p) && p.token != other.token && StoresLawfully(other)
    ensures Secured(StepCache(s, other, answer), p)
  {
    if Owns(s, p) {
      match other.pc
      case Storing(_, write) => WriteLeavesClaims(s, write, ClaimKey(p));
      case _ =>
    }
    NowStays(s, other, answer);
  }

  lemma NowStays(s: Cache, p: Process, answer: Answer)
    requires StoresLawfully(p)
    ensures StepCache(s, p, answer).now == s.now
  {
    if p.pc.Storing? { WriteLeavesClaims(s, p.pc.write, ClaimKey(p)); }
  }

  lemma OwnStepKeepsClaim(s: Cache, p: Process, answer: Answer)
    requires Secured(s, p) && StoresLawfully(p) && (answer.submission.Accepted? ==> Lawful(answer.submission.write))
    ensures Secured(StepCache(s, p, answer), p.(pc := StepPc(s, p, answer)))
    ensures StoresLawfully(p.(pc := StepPc(s, p, answer)))
  {
    NowStays(s, p, answer);
    match p.pc
    case Storing(_, write) => WriteLeavesClaims(s, write, ClaimKey(p));
    case _ =>
  }

  lemma TimeKeepsClaim(s: Cache, p: Process, seconds: real)
    requires Secured(s, p) && seconds >= 0.0
    ensures Secured(Advance(s, seconds), p)
  {
  }

  lemma StepKeepsSecured(sys: System, action: Action)
    requires LawfulAction(sys, action) && AllSecured(sys) && DistinctTokens(sys.processes)
    ensures AllSecured(NextSystem(sys, action)) && DistinctTokens(NextSystem(sys, action).processes)
  {
    var next := NextSystem(sys, action);
    forall j | 0 <= j < |next.processes| ensures StoresLawfully(next.processes[j]) && Secured(next.cache, next.processes[j]) {
      assert StoresLawfully(sys.processes[j]) && Secured(sys.cache, sys.processes[j]);
      match action
      case Act(i, answer) =>
        if i == j {
          OwnStepKeepsClaim(sys.cache, sys.processes[i], answer);
        } else {
          assert StoresLawfully(sys.processes[i]);
          OthersStepKeepsClaim(sys.cache, sys.processes[j], sys.processes[i], answer);
        }
      case Wait(seconds) => TimeKeepsClaim(sys.cache, sys.processes[j], seconds);
      case Elsewhere(step) => OtherFlowsLeaveClaims(sys.cache, step, ClaimKey(sys.processes[j]));
    }
  }

  lemma {:induction false} RunKeepsSecured(states: seq<System>, actions: seq<Action>, i: nat)
    requires IsRun(states, actions) && i < |states|
    ensures AllSecured(states[i]) && DistinctTokens(states[i].processes)
  {
    if i > 0 {
      RunKeepsSecured(states, actions, i - 1);
      StepKeepsSecured(states[i - 1], actions[i - 1]);
    }
  }

  /** Annual submissions never overlap: in every run, whatever the interleaving and whatever the
      store does, of two requests for the same identity and target that are both between a won
      claim and its release, at least one has been there for the claim's whole five minutes. */
  lemma SubmissionsNeverOverlap(states: seq<System>, actions: seq<Action>, i: nat, p: nat, q: nat)
    requires IsRun(states, actions) && i < |states| && p < q < |states[i].processes|
    requires ClaimKey(states[i].processes[p]) == ClaimKey(states[i].processes[q])
    ensures !(Owns(states[i].cache, states[i].processes[p]) && Owns(states[i].cache, states[i].processes[q]))
  {
    RunKeepsSecured(states, actions, i);
    assert Secured(states[i].cache, states[i].processes[p]) && Secured(states[i].cache, states[i].processes[q]);
  }

  /** While a claim has not run out no other request wins it; so a failed hand-off keeps every
      other request from submitting until the claim expires. */
  lemma ClaimBlocksOthers(states: seq<System>, actions: seq<Action>, i: nat, p: nat)
    requires IsRun(states, actions) && i < |actions| && p < |states[i].processes|
    requires Owns(states[i].cache, states[i].processes[p])
    ensures actions[i].Act? && ClaimKey(states[i].processes[actions[i].i]) == ClaimKey(states[i].processes[p])
            && states[i].processes[actions[i].i].pc.Claiming? ==>
              !states[i + 1].processes[actions[i].i].pc.Submitting?
    ensures states[i].processes[p].pc.HandoffFailed? ==> states[i + 1].processes[p].pc == states[i].processes[p].pc
  {
    RunKeepsSecured(states, actions, i);
    assert Secured(states[i].cache, states[i].processes[p]);
  }

  /** A release in time frees the claim for the next request; a late one changes nothing. */
  lemma ReleaseFrees(states: seq<System>, actions: seq<Action>, i: nat)
    requires IsRun(states, actions) && i < |actions| && actions[i].Act? && !actions[i].answer.fault
    requires states[i].processes[actions[i].i].pc.Releasing?
    ensures var p := states[i].processes[actions[i].i];
            && (Owns(states[i].cache, p) && p.bound == p.candidate ==> ClaimKey(p) !in states[i + 1].cache.values)
            && (Get(states[i].cache, ClaimKey(p)) != Some(ClaimStored(Claim(p.token, p.bound))) ==>
                  states[i + 1].cache == states[i].cache)
  {
    RunKeepsSecured(states, actions, i);
    assert Secured(states[i].cache, states[i].processes[actions[i].i]);
  }

  /** Five minutes are needed: a request still submitting when its claim runs out overlaps with the next. */
  lemma LateSubmissionOverlaps(p: Process, q: Process, s: Cache)
    requires p.pc == Claiming(0) && q.pc == Claiming(0) && p.token != q.token && ClaimKey(p) == ClaimKey(q)
    requires ClaimKey(p) !in s.values
    ensures exists states: seq<System>, actions: seq<Action> ::
              && IsRun(states, actions) && |states| == 4 && states[0] == System(s, [p, q])
              && |states[3].processes| == 2
              && states[3].processes[0].pc.Submitting? && states[3].processes[1].pc.Submitting?
  {
    var accept := Answer(false, false, Refused);
    var actions := [Act(0, accept), Wait(CLAIM_SECONDS), Act(1, accept)];
    var s0 := System(s, [p, q]);
    var s1 := NextSystem(s0, actions[0]);
    var s2 := NextSystem(s1, actions[1]);
    assert Lapsed(s1.cache.expires, s1.cache.now + CLAIM_SECONDS, ClaimKey(p));
    var s3 := NextSystem(s2, actions[2]);
    assert IsRun([s0, s1, s2, s3], actions);
  }
}
