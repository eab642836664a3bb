/** What becomes of one annual request in a run, from its claim to its release or failed hand-off. */
module AnnualHandoff {
  import opened Outcome
  import opened CacheStore
  import RI = ReformImpacts
  import opened AnnualSubmission

  /** The request takes no step between the two states. */
  ghost predicate Rests(actions: seq<Action>, p: nat, i: nat, j: nat)
    requires j <= |actions|
  {
    forall k :: i <= k < j ==> !(actions[k].Act? && actions[k].i == p)
  }

  /** The request's next step after step `i` is step `j`. */
  ghost predicate NextStep(actions: seq<Action>, p: nat, i: nat, j: nat) {
    && i < j < |actions| && Rests(actions, p, i + 1, j)
    && actions[j].Act? && actions[j].i == p
  }

  lemma {:induction false} RestingStays(states: seq<System>, actions: seq<Action>, p: nat, i: nat, j: nat)
    requires IsRun(states, actions) && i <= j < |states| && p < |states[i].processes| && Rests(actions, p, i, j)
    ensures p < |states[j].processes| && states[j].processes[p] == states[i].processes[p]
  {
    if i < j { RestingStays(states, actions, p, i, j - 1); }
  }

  // ---- Claiming ----

  /** A request that finds the claim free wins it: it holds exactly its own claim, for 300 seconds
      from now, and goes on to submit. One that finds it held, or that the store fails, does not. */
  lemma FreeClaimIsWon(states: seq<System>, actions: seq<Action>, i: nat, p: nat)
    requires IsRun(states, actions) && i < |actions| && actions[i].Act? && actions[i].i == p
    requires states[i].processes[p].pc.Claiming?
    ensures var free := ClaimKey(states[i].processes[p]) !in states[i].cache.values;
            && (states[i + 1].processes[p].pc.Submitting? <==> free && !actions[i].answer.fault)
            && (free && !actions[i].answer.fault ==>
                  && Get(states[i + 1].cache, ClaimKey(states[i].processes[p]))
                     == Some(RI.ClaimStored(RI.Claim(states[i].processes[p].token, states[i].processes[p].candidate)))
                  && Owns(states[i + 1].cache, states[i + 1].processes[p])
                  && ClaimKey(states[i].processes[p]) in states[i + 1].cache.expires
                  && states[i + 1].cache.expires[ClaimKey(states[i].processes[p])] == states[i].cache.now + 300.0
                  && HeldSince(states[i + 1].processes[p].pc) == Some(states[i].cache.now))
            && (!free ==> states[i + 1].cache == states[i].cache)
  {
  }

  /** A loser reads whose claim it lost to, and waits for that owner: it changes the cache no more. */
  lemma LoserWaitsForOwner(states: seq<System>, actions: seq<Action>, i: nat, j: nat, p: nat, owner: RI.Claim)
    requires IsRun(states, actions) && i < |actions| && actions[i].Act? && actions[i].i == p
    requires states[i].processes[p].pc.Claiming? && !actions[i].answer.fault
    requires ClaimKey(states[i].processes[p]) in states[i].cache.values
    requires NextStep(actions, p, i, j) && !actions[j].answer.fault
    requires Get(states[j].cache, ClaimKey(states[j].processes[p])) == Some(RI.ClaimStored(owner))
    ensures states[j + 1].processes[p].pc == Waiting(owner) && states[j + 1].cache == states[j].cache
    ensures forall k :: j < k < |actions| && actions[k].Act? && actions[k].i == p ==> states[k + 1].cache == states[k].cache
  {
    RestingStays(states, actions, p, i + 1, j);
    forall k | j < k < |actions| && actions[k].Act? && actions[k].i == p ensures states[k + 1].cache == states[k].cache {
      WaitingStays(states, actions, p, j + 1, k);
    }
  }

  predicate Over(pc: Pc) { pc.Waiting? || pc.Released? || pc.Raised? || pc.HandoffFailed? }

  /** A request that is over takes no more steps that change anything. */
  lemma {:induction false} WaitingStays(states: seq<System>, actions: seq<Action>, p: nat, i: nat, j: nat)
    requires IsRun(states, actions) && i <= j < |states| && p < |states[i].processes| && Over(states[i].processes[p].pc)
    ensures p < |states[j].processes| && states[j].processes[p] == states[i].processes[p]
    ensures j < |actions| && actions[j].Act? && actions[j].i == p ==> states[j + 1].cache == states[j].cache
  {
    if i < j { WaitingStays(states, actions, p, i, j - 1); }
  }

  /** How often the request has looked for the owner. */
  function Looks(states: seq<System>, actions: seq<Action>, p: nat, i: nat): nat
    requires i <= |actions| <= |states|
  {
    if i == 0 then 0
    else
      Looks(states, actions, p, i - 1)
      + if actions[i - 1].Act? && actions[i - 1].i == p && p < |states[i - 1].processes|
           && states[i - 1].processes[p].pc.ReadingOwner? then 1 else 0
  }

  predicate CountsLooks(pc: Pc, looks: nat) {
    match pc
    case Claiming(attempt) => attempt == looks < 3
    case ReadingOwner(attempt) => attempt == looks < 3
    case _ => looks <= 3
  }

  lemma {:induction false} LooksAreCounted(states: seq<System>, actions: seq<Action>, p: nat, i: nat)
    requires IsRun(states, actions) && i < |states| && p < |states[0].processes|
    ensures |states[i].processes| == |states[0].processes|
    ensures CountsLooks(states[i].processes[p].pc, Looks(states, actions, p, i))
  {
    if i > 0 { LooksAreCounted(states, actions, p, i - 1); }
  }

  /** A request whose claim was gone when it looked for its owner claims again, until it has looked
      three times; then it raises. One that finds no claim there but something else raises at once. */
  lemma ClaimsAgainUpToThreeTimes(states: seq<System>, actions: seq<Action>, i: nat, p: nat)
    requires IsRun(states, actions) && i < |actions| && actions[i].Act? && actions[i].i == p
    requires states[i].processes[p].pc.ReadingOwner? && !actions[i].answer.fault
    ensures var value, looked := Get(states[i].cache, ClaimKey(states[i].processes[p])), Looks(states, actions, p, i);
            && looked < 3
            && (value.None? && looked < 2 ==> states[i + 1].processes[p].pc.Claiming?)
            && (value.None? && looked == 2 ==> states[i + 1].processes[p].pc == Raised)
            && (value.Some? && !value.value.ClaimStored? ==> states[i + 1].processes[p].pc == Raised)
  {
    ProcessesStay(states, actions, i);
    LooksAreCounted(states, actions, p, i);
  }

  lemma {:induction false} ProcessesStay(states: seq<System>, actions: seq<Action>, i: nat)
    requires IsRun(states, actions) && i < |states|
    ensures |states[i].processes| == |states[0].processes|
  {
    if i > 0 { ProcessesStay(states, actions, i - 1); }
  }

  // ---- Submitting and handing off ----

  /** A refused submission stores nothing, and the request's next step frees its claim. */
  lemma RefusalFreesClaim(states: seq<System>, actions: seq<Action>, i: nat, j: nat, p: nat)
    requires IsRun(states, actions) && i < |actions| && actions[i].Act? && actions[i].i == p
    requires states[i].processes[p].pc.Submitting? && actions[i].answer.submission.Refused?
    requires NextStep(actions, p, i, j) && !actions[j].answer.fault
    requires states[j].cache.now < states[i].processes[p].pc.since + CLAIM_SECONDS
    requires states[i].processes[p].bound == states[i].processes[p].candidate
    ensures states[i + 1].cache == states[i].cache
    ensures ClaimKey(states[i].processes[p]) !in states[j + 1].cache.values
    ensures states[j + 1].processes[p].pc == Released
  {
    RestingStays(states, actions, p, i + 1, j);
    ReleaseFrees(states, actions, j);
  }

  /** An accepted submission is stored: the request's next step is exactly the write of that job. If
      the store answers it, the step after that frees the claim. */
  lemma AcceptedJobIsHandedOff(states: seq<System>, actions: seq<Action>, i: nat, j: nat, k: nat, p: nat)
    requires IsRun(states, actions) && i < |actions| && actions[i].Act? && actions[i].i == p
    requires states[i].processes[p].pc.Submitting? && actions[i].answer.submission.Accepted?
    requires NextStep(actions, p, i, j) && !actions[j].answer.fault
    requires NextStep(actions, p, j, k) && !actions[k].answer.fault
    requires states[k].cache.now < states[i].processes[p].pc.since + CLAIM_SECONDS
    requires states[i].processes[p].bound == states[i].processes[p].candidate
    ensures states[i + 1].cache == states[i].cache
    ensures states[j + 1].cache == ApplyAll(states[j].cache, RI.WriteCommands(actions[i].answer.submission.write))
    ensures ClaimKey(states[i].processes[p]) !in states[k + 1].cache.values
    ensures states[k + 1].processes[p].pc == Released
  {
    RestingStays(states, actions, p, i + 1, j);
    RestingStays(states, actions, p, j + 1, k);
    ReleaseFrees(states, actions, k);
  }

  /** A failed hand-off keeps the claim: if the store fails while the request stores its accepted
      job, then in every continuation the key holds exactly that request's claim until its 300
      seconds are over, whatever this request and the others do. */
  lemma FailedHandoffKeepsClaim(states: seq<System>, actions: seq<Action>, i: nat, j: nat, p: nat)
    requires IsRun(states, actions) && i < |actions| && actions[i].Act? && actions[i].i == p
    requires states[i].processes[p].pc.Storing? && actions[i].answer.fault
    requires i < j < |states| && states[j].cache.now < states[i].processes[p].pc.since + CLAIM_SECONDS
    ensures var q := states[i].processes[p];
            Get(states[j].cache, ClaimKey(q)) == Some(RI.ClaimStored(RI.Claim(q.token, q.candidate)))
  {
    WaitingStays(states, actions, p, i + 1, j);
    RunKeepsSecured(states, actions, j);
    assert Secured(states[j].cache, states[j].processes[p]);
  }

  /** So nobody else submits before they are over. */
  lemma FailedHandoffBlocksOthers(states: seq<System>, actions: seq<Action>, i: nat, j: nat, p: nat, q: nat)
    requires IsRun(states, actions) && i < |actions| && actions[i].Act? && actions[i].i == p
    requires states[i].processes[p].pc.Storing? && actions[i].answer.fault
    requires i < j < |actions| && states[j].cache.now < states[i].processes[p].pc.since + CLAIM_SECONDS
    requires actions[j].Act? && actions[j].i == q && states[j].processes[q].pc.Claiming?
    requires ClaimKey(states[j].processes[q]) == ClaimKey(states[i].processes[p])
    ensures !states[j + 1].processes[q].pc.Submitting?
  {
    FailedHandoffKeepsClaim(states, actions, i, j, p);
  }

  // ---- A failing store may have done what it was asked ----

  /** A claim, a hand-off or a release whose answer is lost has happened or not, as the world has it:
      so a claim may be held that no request knows of, and a job stored whose request raised. */
  lemma LostAnswersMayHaveApplied(states: seq<System>, actions: seq<Action>, i: nat, p: nat)
    requires IsRun(states, actions) && i < |actions| && actions[i].Act? && actions[i].i == p && actions[i].answer.fault
    ensures !actions[i].answer.applied ==> states[i + 1].cache == states[i].cache
    ensures var q, s, t := states[i].processes[p], states[i].cache, states[i + 1].cache;
            actions[i].answer.applied ==>
              && (q.pc.Claiming? && ClaimKey(q) !in s.values ==>
                    Get(t, ClaimKey(q)) == Some(RI.ClaimStored(RI.Claim(q.token, q.candidate)))
                    && states[i + 1].processes[p].pc == Raised)
              && (q.pc.Storing? ==> t == ApplyAll(s, RI.WriteCommands(q.pc.write)))
              && (q.pc.Releasing? && Get(s, ClaimKey(q)) == Some(RI.ClaimStored(RI.Claim(q.token, q.bound))) ==>
                    ClaimKey(q) !in t.values)
  {
  }
}
