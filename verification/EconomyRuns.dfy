/** Every run of annual economy requests on the cache: what its records may come to hold. */
module EconomyRuns {
  import opened Outcome
  import opened CacheStore
  import opened ReformImpacts
  import opened OptionsHash
  import opened ReusableImpact
  import opened ImpactExecution
  import OptionsIdentity
  import SpmSelection

  /** An answer from a stored job, up to its write. The request found the job's identifier in its
      scope index, read the job, polled or replayed it, and read the record again to update it:
      each at its own state of the run, with anything in between. */
  datatype Answer = Answer(
    request: Request,
    listedId: nat,
    listedAt: nat,
    selectedAt: nat,
    execution: Execution,
    readAt: nat,
    now: real,
    ttl: int)

  /** What requests do to the cache, one transaction or script at a time. */
  datatype Move = Submit(write: Write) | Write(answer: Answer) | Other(step: Step)

  function RecordAt(states: seq<Cache>, i: nat, id: nat): Option<Impact>
    requires i < |states|
  {
    Decoded(Get(states[i], RecordKey(id)))
  }

  /** The job that was selected, and the record that was read, for the answer. */
  predicate LawfulAnswer(states: seq<Cache>, i: nat, a: Answer)
    requires i < |states|
  {
    && a.listedAt <= i && a.selectedAt <= i && a.readAt <= i && a.ttl > 0
    && a.listedId in RevRange(states[a.listedAt], ScopeIndex(a.request.scope, a.request.apiVersion), 0,
                              REFORM_IMPACT_INDEX_LIMIT - 1)
    && var selected := RecordAt(states, a.selectedAt, a.listedId);
       && selected.Some? && HashMatches(selected.value, a.request) && selected.value.executionId.Some?
       && !AnswerFrom(a.request, selected.value, a.execution).NoUpdate?
       && RecordAt(states, a.readAt, selected.value.executionId.value).Some?
  }

  /** The write of the answer from `selected`, over the record as it was read again. */
  function WriteOver(a: Answer, selected: Impact, read: Impact): (w: ReformImpacts.Write)
    requires a.ttl > 0 && selected.executionId.Some? && !AnswerFrom(a.request, selected, a.execution).NoUpdate?
    ensures Lawful(w) && w.onlyIfPresent && w.impact.status != Computing
    ensures w.id == selected.executionId.value && IdentityOf(w.impact) == IdentityOf(read)
    ensures w.impact.executionId.Some? ==> w.impact.executionId == read.executionId
  {
    UpdateWrite(read, selected.executionId.value, AnswerFrom(a.request, selected, a.execution), a.now, a.ttl)
  }

  function AnswerWrite(states: seq<Cache>, i: nat, a: Answer): (w: ReformImpacts.Write)
    requires i < |states| && LawfulAnswer(states, i, a)
    ensures Lawful(w) && w.onlyIfPresent && w.impact.status != Computing
  {
    var selected := RecordAt(states, a.selectedAt, a.listedId).value;
    WriteOver(a, selected, RecordAt(states, a.readAt, selected.executionId.value).value)
  }

  /** A submitted job is recorded as computing, under the execution identifier it was given. */
  predicate LawfulSubmission(jobs: nat -> Identity, w: ReformImpacts.Write) {
    && Lawful(w) && !w.onlyIfPresent && w.impact.status == Computing
    && IdentityOf(w.impact) == jobs(w.id) && w.impact.executionId == Some(w.id)
  }

  /** `asked` says which requests are made. */
  ghost predicate LawfulMove(jobs: nat -> Identity, asked: Request -> bool, states: seq<Cache>, i: nat, move: Move)
    requires i < |states|
  {
    match move
    case Submit(w) => LawfulSubmission(jobs, w)
    case Write(a) => asked(a.request) && LawfulAnswer(states, i, a)
    case Other(step) => LawfulStep(step) && !step.Create? && !step.Rewrite?
  }

  ghost function StepOf(jobs: nat -> Identity, asked: Request -> bool, states: seq<Cache>, i: nat, move: Move)
    : (step: Step)
    requires i < |states| && LawfulMove(jobs, asked, states, i, move)
    ensures LawfulStep(step)
  {
    match move
    case Submit(w) => Create(w)
    case Write(a) => Rewrite(AnswerWrite(states, i, a))
    case Other(step) => step
  }

  /** A run from an empty cache. `jobs` says which calculation each execution identifier is given to. */
  ghost predicate IsEconomyRun(jobs: nat -> Identity, asked: Request -> bool, states: seq<Cache>, moves: seq<Move>) {
    && |states| == |moves| + 1
    && states[0].values == map[] && states[0].sets == map[]
    && forall i :: 0 <= i < |moves| ==>
         LawfulMove(jobs, asked, states, i, moves[i]) && states[i + 1] == Next(states[i], StepOf(jobs, asked, states, i, moves[i]))
  }

  // ---- Consistent in every run ----

  /** The calculation that the answered job is of is one whose hash is, or extends, the request's. */
  predicate IsFor(request: Request, identity: Identity) {
    && IsIn(identity, request.scope, request.apiVersion)
    && identity.optionsHash.Some?
    && (|| identity.optionsHash.value == request.optionsHash
        || ExtendsOnOneLine(LookupPrefix(request.optionsHash), identity.optionsHash.value))
  }

  /** Whoever answers from a job found it through its own scope index, with a matching hash, and
      rewrites the record of that very job. */
  lemma AnswersOwnJob(jobs: nat -> Identity, states: seq<Cache>, i: nat, a: Answer)
    requires i < |states| && LawfulAnswer(states, i, a)
    requires Consistent(jobs, states[a.listedAt]) && Consistent(jobs, states[a.selectedAt])
    requires Consistent(jobs, states[a.readAt])
    ensures AnswerWrite(states, i, a).id == a.listedId && IsFor(a.request, jobs(a.listedId))
    ensures RecordIsOf(jobs(a.listedId), a.listedId, Some(AnswerWrite(states, i, a).impact))
  {
    var id := a.listedId;
    ListedIsFor(jobs, states[a.listedAt], a.request, id);
    RecordOf(jobs, states, a.selectedAt, id);
    RecordOf(jobs, states, a.readAt, id);
  }

  lemma RecordOf(jobs: nat -> Identity, states: seq<Cache>, i: nat, id: nat)
    requires i < |states| && Consistent(jobs, states[i])
    ensures RecordIsOf(jobs(id), id, RecordAt(states, i, id))
  {
  }

  lemma ListedIsFor(jobs: nat -> Identity, s: Cache, request: Request, id: nat)
    requires Consistent(jobs, s)
    requires id in RevRange(s, ScopeIndex(request.scope, request.apiVersion), 0, REFORM_IMPACT_INDEX_LIMIT - 1)
    ensures IsIn(jobs(id), request.scope, request.apiVersion)
  {
    ListedIsMember(s, ScopeIndex(request.scope, request.apiVersion), id);
    assert id in MembersOf(s, ScopeIndex(request.scope, request.apiVersion));
  }

  /** A finished record holds a result that was certified for a request of its own calculation and,
      if that request asked for a breakdown, is a breakdown's. */
  ghost predicate HoldsCertified(identity: Identity, asked: Request -> bool, record: Option<Impact>) {
    record.Some? && record.value.status == Finished ==>
      exists request :: asked(request) && IsFor(request, identity) && CertifiedFor(request, record.value.result)
                        && (IsBreakdown(request) ==> IsKind(record.value.result, LOCAL_AREA_BREAKDOWN))
  }

  ghost predicate AllCertified(jobs: nat -> Identity, asked: Request -> bool, s: Cache) {
    forall id :: HoldsCertified(jobs(id), asked, Decoded(Get(s, RecordKey(id))))
  }

  lemma CompletedIsCertified(request: Request, selected: Impact, execution: Execution, read: Impact, now: real)
    requires !AnswerFrom(request, selected, execution).NoUpdate?
    ensures var updated := Updated(read, AnswerFrom(request, selected, execution), now);
            updated.status == Finished ==>
              CertifiedFor(request, updated.result)
              && (IsBreakdown(request) ==> IsKind(updated.result, LOCAL_AREA_BREAKDOWN))
  {
  }

  lemma AnswerKeepsCertified(jobs: nat -> Identity, asked: Request -> bool, states: seq<Cache>, i: nat, a: Answer)
    requires i < |states| && asked(a.request) && LawfulAnswer(states, i, a)
    requires AnswerWrite(states, i, a).id == a.listedId && IsFor(a.request, jobs(a.listedId))
    requires AllCertified(jobs, asked, states[i])
    ensures AllCertified(jobs, asked, ApplyAll(states[i], WriteCommands(AnswerWrite(states, i, a))))
  {
    var w := AnswerWrite(states, i, a);
    var selected := RecordAt(states, a.selectedAt, a.listedId).value;
    CompletedIsCertified(a.request, selected, a.execution, RecordAt(states, a.readAt, a.listedId).value, a.now);
    assert HoldsCertified(jobs(a.listedId), asked, Some(w.impact));
    WriteKeepsCertified(jobs, asked, states[i], w);
  }

  lemma WriteKeepsCertified(jobs: nat -> Identity, asked: Request -> bool, s: Cache, w: ReformImpacts.Write)
    requires Lawful(w) && AllCertified(jobs, asked, s) && HoldsCertified(jobs(w.id), asked, Some(w.impact))
    ensures AllCertified(jobs, asked, ApplyAll(s, WriteCommands(w)))
  {
    WriteValues(s, w);
  }

  lemma OthersKeepCertified(jobs: nat -> Identity, asked: Request -> bool, s: Cache, step: Step)
    requires AllCertified(jobs, asked, s) && LawfulStep(step) && !step.Create? && !step.Rewrite?
    ensures AllCertified(jobs, asked, Next(s, step))
  {
    forall id ensures HoldsCertified(jobs(id), asked, Decoded(Get(Next(s, step), RecordKey(id)))) {
      OtherStepsOnlyRemove(s, step, id, RecentIndex, id);
    }
  }

  lemma MoveKeepsOrder(jobs: nat -> Identity, asked: Request -> bool, states: seq<Cache>, i: nat, move: Move)
    requires i < |states| && LawfulMove(jobs, asked, states, i, move)
    requires forall j :: 0 <= j <= i ==> Consistent(jobs, states[j])
    requires AllCertified(jobs, asked, states[i])
    ensures Consistent(jobs, Next(states[i], StepOf(jobs, asked, states, i, move)))
    ensures AllCertified(jobs, asked, Next(states[i], StepOf(jobs, asked, states, i, move)))
  {
    match move
    case Submit(w) =>
      WriteKeepsConsistent(jobs, states[i], w);
      WriteKeepsCertified(jobs, asked, states[i], w);
    case Write(a) =>
      AnswersOwnJob(jobs, states, i, a);
      WriteKeepsConsistent(jobs, states[i], AnswerWrite(states, i, a));
      AnswerKeepsCertified(jobs, asked, states, i, a);
    case Other(step) =>
      OtherStepsKeepConsistent(jobs, states[i], step);
      OthersKeepCertified(jobs, asked, states[i], step);
  }

  lemma {:induction false} RunKeepsOrder(jobs: nat -> Identity, asked: Request -> bool, states: seq<Cache>, moves: seq<Move>, i: nat)
    requires IsEconomyRun(jobs, asked, states, moves) && i < |states|
    ensures forall j :: 0 <= j <= i ==> Consistent(jobs, states[j])
    ensures AllCertified(jobs, asked, states[i])
  {
    if i > 0 {
      RunKeepsOrder(jobs, asked, states, moves, i - 1);
      NextInOrder(jobs, asked, states, moves, i - 1);
    } else {
      StartsInOrder(jobs, asked, states[0]);
    }
  }

  lemma StartsInOrder(jobs: nat -> Identity, asked: Request -> bool, s: Cache)
    requires s.values == map[] && s.sets == map[]
    ensures Consistent(jobs, s) && AllCertified(jobs, asked, s)
  {
  }

  lemma NextInOrder(jobs: nat -> Identity, asked: Request -> bool, states: seq<Cache>, moves: seq<Move>, i: nat)
    requires IsEconomyRun(jobs, asked, states, moves) && i < |moves|
    requires (forall j :: 0 <= j <= i ==> Consistent(jobs, states[j])) && AllCertified(jobs, asked, states[i])
    ensures Consistent(jobs, states[i + 1]) && AllCertified(jobs, asked, states[i + 1])
  {
    MoveKeepsOrder(jobs, asked, states, i, moves[i]);
  }

  /** Only certified results are stored: in every reachable cache, whatever polls, replays,
      deletions and expiry interleave, a finished record holds a result that is certified for a
      request that was made for the record's calculation, and a breakdown's result if that request
      asked for one. */
  lemma OnlyCertifiedResultsAreStored(jobs: nat -> Identity, asked: Request -> bool, states: seq<Cache>, moves: seq<Move>,
                                      i: nat, id: nat)
    requires IsEconomyRun(jobs, asked, states, moves) && i < |states|
    requires RecordAt(states, i, id).Some? && RecordAt(states, i, id).value.status == Finished
    ensures exists request ::
              && asked(request) && IsFor(request, jobs(id))
              && CertifiedFor(request, RecordAt(states, i, id).value.result)
              && (IsBreakdown(request) ==> IsKind(RecordAt(states, i, id).value.result, LOCAL_AREA_BREAKDOWN))
  {
    RunKeepsOrder(jobs, asked, states, moves, i);
    assert HoldsCertified(jobs(id), asked, Decoded(Get(states[i], RecordKey(id))));
  }

  /** The request's hash is built from plain options and names, and its selection from its options. */
  ghost predicate WellBuilt(request: Request, spmOf: map<string, OptionValue> -> Option<SpmSelection.Values>) {
    && request.optionsHash == BuildOptionsHash(request.options, Bundle(request))
    && OptionsIdentity.Plain(request.options) && BundleAmpersandFree(Bundle(request))
    && request.spm == spmOf(request.options)
  }

  /** Requests whose hashes match ask for the same selection and kind of result. */
  lemma MatchingRequestsAgree(request: Request, owner: Request, identity: Identity,
                              spmOf: map<string, OptionValue> -> Option<SpmSelection.Values>)
    requires WellBuilt(request, spmOf) && WellBuilt(owner, spmOf)
    requires IsFor(request, identity) && identity.optionsHash == Some(owner.optionsHash)
    ensures request.options == owner.options && request.spm == owner.spm
  {
    OptionsIdentity.FoundHashHasSameOptions(request.options, Bundle(request), owner.options, Bundle(owner));
  }

  /** A finished record holds a result certified for the very request that its job was submitted for
      and, if that one asked for a breakdown, a breakdown's: whoever polled it. */
  lemma ResultsAreCertifiedForTheirOwnRequest(
      jobs: nat -> Identity, asked: Request -> bool, spmOf: map<string, OptionValue> -> Option<SpmSelection.Values>,
      states: seq<Cache>, moves: seq<Move>, i: nat, id: nat, owner: Request)
    requires IsEconomyRun(jobs, asked, states, moves) && i < |states|
    requires forall request :: asked(request) ==> WellBuilt(request, spmOf)
    requires WellBuilt(owner, spmOf) && jobs(id) == Identity(owner.scope, owner.apiVersion, Some(owner.optionsHash))
    requires RecordAt(states, i, id).Some? && RecordAt(states, i, id).value.status == Finished
    ensures CertifiedFor(owner, RecordAt(states, i, id).value.result)
    ensures IsBreakdown(owner) ==> IsKind(RecordAt(states, i, id).value.result, LOCAL_AREA_BREAKDOWN)
  {
    OnlyCertifiedResultsAreStored(jobs, asked, states, moves, i, id);
    var request :| && asked(request) && IsFor(request, jobs(id))
                   && CertifiedFor(request, RecordAt(states, i, id).value.result)
                   && (IsBreakdown(request) ==> IsKind(RecordAt(states, i, id).value.result, LOCAL_AREA_BREAKDOWN));
    MatchingRequestsAgree(request, owner, jobs(id), spmOf);
  }

  /** In every reachable cache each record is of the calculation its identifier was given to, under
      its own identifier, and each scope index lists records of its own scope and version only. */
  lemma RecordsKeepToTheirJobs(jobs: nat -> Identity, asked: Request -> bool, states: seq<Cache>, moves: seq<Move>, i: nat)
    requires IsEconomyRun(jobs, asked, states, moves) && i < |states|
    ensures Consistent(jobs, states[i])
  {
    RunKeepsOrder(jobs, asked, states, moves, i);
  }

  // ---- A terminal record stays terminal ----

  predicate IsTerminal(record: Option<Impact>) { record.Some? && record.value.status != Computing }

  lemma WriteKeepsTerminal(s: Cache, w: ReformImpacts.Write, id: nat)
    requires Lawful(w) && (w.id == id ==> w.onlyIfPresent && w.impact.status != Computing)
    requires RecordKey(id) in s.values ==> IsTerminal(Decoded(Get(s, RecordKey(id))))
    ensures var t := ApplyAll(s, WriteCommands(w));
            RecordKey(id) in t.values ==> IsTerminal(Decoded(Get(t, RecordKey(id))))
  {
    WriteValues(s, w);
  }

  lemma MoveKeepsTerminal(jobs: nat -> Identity, asked: Request -> bool, states: seq<Cache>, i: nat, move: Move, id: nat)
    requires i < |states| && LawfulMove(jobs, asked, states, i, move) && !(move.Submit? && move.write.id == id)
    requires RecordKey(id) in states[i].values ==> IsTerminal(RecordAt(states, i, id))
    ensures var next := Next(states[i], StepOf(jobs, asked, states, i, move));
            RecordKey(id) in next.values ==> IsTerminal(Decoded(Get(next, RecordKey(id))))
  {
    match move
    case Submit(w) => WriteKeepsTerminal(states[i], w, id);
    case Write(a) => WriteKeepsTerminal(states[i], AnswerWrite(states, i, a), id);
    case Other(step) => OtherStepsOnlyRemove(states[i], step, id, RecentIndex, id);
  }

  /** Once a job's record is finished or failed it never is computing again, in any interleaving of
      late polls, replays, deletions and expiry, until a job is submitted under its identifier. */
  lemma {:induction false} TerminalRecordsStayTerminal(jobs: nat -> Identity, asked: Request -> bool, states: seq<Cache>, moves: seq<Move>,
                                                       id: nat, i: nat, j: nat)
    requires IsEconomyRun(jobs, asked, states, moves) && i <= j < |states|
    requires IsTerminal(RecordAt(states, i, id))
    requires forall k :: i <= k < j ==> !(moves[k].Submit? && moves[k].write.id == id)
    ensures RecordKey(id) in states[j].values ==> IsTerminal(RecordAt(states, j, id))
  {
    if i < j {
      TerminalRecordsStayTerminal(jobs, asked, states, moves, id, i, j - 1);
      MoveKeepsTerminal(jobs, asked, states, j - 1, moves[j - 1], id);
    }
  }
}
