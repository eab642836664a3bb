/** Which job a DELETE acts on: the one that its request would be answered from, by what it read. */
module DeletionHistory {
  import opened Outcome
  import opened CacheStore
  import RI = ReformImpacts
  import opened ReusableImpact
  import opened FailureDeletion

  // ---- The selections of an attempt ----

  /** Step `m` is in the attempt of state `i`, and asks the gateway about this selected job. */
  ghost predicate AsksAt(ds: seq<Deletion>, i: nat, m: nat) {
    m < i < |ds| && ds[m].phase.Resolving? && ds[m].attempt == ds[i].attempt
  }

  /** The gateway's answer made the attempt select again, under this resolution. */
  ghost predicate SelectsAgain(ds: seq<Deletion>, answers: seq<Answer>, i: nat, resolution: Resolution)
    requires |ds| == |answers| + 1
  {
    exists m: nat :: AsksAt(ds, i, m) && answers[m].resolution == Some(resolution)
                     && ShouldRefresh(ds[m].phase.impact, answers[m].resolution)
  }

  /** The attempt keeps the job of its first selection: it is computing, or the gateway's answer
      does not ask for another. */
  ghost predicate KeepsFirst(ds: seq<Deletion>, answers: seq<Answer>, i: nat, selection: Selection, impact: RI.Impact)
    requires |ds| == |answers| + 1
  {
    || impact.status == RI.Computing
    || exists m: nat :: AsksAt(ds, i, m) && ds[m].phase == Resolving(selection, impact)
                        && !ShouldRefresh(impact, answers[m].resolution)
  }

  /** The job that a phase acts on, with the selection that kept it. */
  function ActsOn(phase: Phase): Option<(Selection, RI.Impact)> {
    match phase
    case Checking(sel, impact) => Some((sel, impact))
    case FailureListing(sel, failure, _) => Some((sel, failure))
    case FailureReading(sel, failure, _, _, _) => Some((sel, failure))
    case Removing(sel, failure, _, _, _) => Some((sel, failure))
    case _ => None
  }

  function SecondResolution(phase: Phase): Option<Resolution> {
    match phase
    case Listing(resolution) => resolution
    case Reading(sel) => sel.resolution
    case _ => if ActsOn(phase).Some? then ActsOn(phase).value.0.resolution else None
  }

  ghost predicate Justified(ds: seq<Deletion>, answers: seq<Answer>, i: nat)
    requires |ds| == |answers| + 1 && i < |ds|
  {
    && (SecondResolution(ds[i].phase).Some? ==> SelectsAgain(ds, answers, i, SecondResolution(ds[i].phase).value))
    && (ActsOn(ds[i].phase).Some? && SecondResolution(ds[i].phase).None? ==>
          KeepsFirst(ds, answers, i, ActsOn(ds[i].phase).value.0, ActsOn(ds[i].phase).value.1))
  }

  lemma AsksLater(ds: seq<Deletion>, i: nat, m: nat)
    requires AsksAt(ds, i, m) && i + 1 < |ds| && ds[i + 1].attempt == ds[i].attempt
    ensures AsksAt(ds, i + 1, m)
  {
  }

  lemma SelectsAgainLater(ds: seq<Deletion>, answers: seq<Answer>, i: nat, resolution: Resolution)
    requires |ds| == |answers| + 1 && i < |answers| && SelectsAgain(ds, answers, i, resolution)
    requires ds[i + 1].attempt == ds[i].attempt
    ensures SelectsAgain(ds, answers, i + 1, resolution)
  {
    var m: nat :| AsksAt(ds, i, m) && answers[m].resolution == Some(resolution)
                  && ShouldRefresh(ds[m].phase.impact, answers[m].resolution);
    AsksLater(ds, i, m);
  }

  lemma KeepsFirstLater(ds: seq<Deletion>, answers: seq<Answer>, i: nat, selection: Selection, impact: RI.Impact)
    requires |ds| == |answers| + 1 && i < |answers| && KeepsFirst(ds, answers, i, selection, impact)
    requires ds[i + 1].attempt == ds[i].attempt
    ensures KeepsFirst(ds, answers, i + 1, selection, impact)
  {
    if impact.status != RI.Computing {
      var m: nat :| AsksAt(ds, i, m) && ds[m].phase == Resolving(selection, impact)
                    && !ShouldRefresh(impact, answers[m].resolution);
      AsksLater(ds, i, m);
    }
  }

  /** How a step may bring about a second selection, and a job to act on. */
  lemma StepJustifies(keeps: Selection -> Option<RI.Impact>, d: Deletion, s: RI.Cache, answer: Answer)
    requires Sound(keeps, d) && d.failClosed
    ensures var next := Step(keeps, d, s, answer);
            && (SecondResolution(next.phase).Some? ==>
                  && next.attempt == d.attempt
                  && (|| SecondResolution(d.phase) == SecondResolution(next.phase)
                      || (d.phase.Resolving? && answer.resolution == SecondResolution(next.phase)
                          && ShouldRefresh(d.phase.impact, answer.resolution))))
            && (ActsOn(next.phase).Some? && SecondResolution(next.phase).None? ==>
                  && next.attempt == d.attempt
                  && (|| (ActsOn(d.phase) == ActsOn(next.phase) && SecondResolution(d.phase).None?)
                      || ActsOn(next.phase).value.1.status == RI.Computing
                      || (d.phase == Resolving(ActsOn(next.phase).value.0, ActsOn(next.phase).value.1)
                          && !ShouldRefresh(d.phase.impact, answer.resolution))))
  {
  }

  lemma NextJustified(keeps: Selection -> Option<RI.Impact>, start: Deletion, ds: seq<Deletion>, caches: seq<RI.Cache>,
                      answers: seq<Answer>, i: nat)
    requires IsRun(keeps, start, ds, caches, answers) && i < |answers| && start.failClosed
    requires Sound(keeps, ds[i]) && ds[i].failClosed && Justified(ds, answers, i)
    ensures Justified(ds, answers, i + 1)
  {
    var next := ds[i + 1].phase;
    StepJustifies(keeps, ds[i], caches[i], answers[i]);
    if SecondResolution(next).Some? {
      if SecondResolution(ds[i].phase) == SecondResolution(next) {
        SelectsAgainLater(ds, answers, i, SecondResolution(next).value);
      } else {
        assert AsksAt(ds, i + 1, i);
      }
    } else if ActsOn(next).Some? {
      if ActsOn(ds[i].phase) == ActsOn(next) {
        KeepsFirstLater(ds, answers, i, ActsOn(next).value.0, ActsOn(next).value.1);
      } else if ds[i].phase.Resolving? {
        assert AsksAt(ds, i + 1, i);
      }
    }
  }

  lemma {:induction false} RunJustified(keeps: Selection -> Option<RI.Impact>, start: Deletion, ds: seq<Deletion>,
                                        caches: seq<RI.Cache>, answers: seq<Answer>, i: nat)
    requires IsRun(keeps, start, ds, caches, answers) && i < |ds| && start.failClosed
    ensures Justified(ds, answers, i)
  {
    if i > 0 {
      RunJustified(keeps, start, ds, caches, answers, i - 1);
      RunKeepsSound(keeps, start, ds, caches, answers, i - 1);
      NextJustified(keeps, start, ds, caches, answers, i - 1);
    }
  }

  // ---- Selections are complete readings ----

  /** The selection read every entry that its index listed. */
  predicate IsComplete(selection: Selection) { |selection.entries| == |selection.ids| }

  predicate PhaseComplete(phase: Phase) {
    match phase
    case Resolving(sel, _) => IsComplete(sel)
    case _ => ActsOn(phase).Some? ==> IsComplete(ActsOn(phase).value.0)
  }

  lemma StepKeepsComplete(keeps: Selection -> Option<RI.Impact>, d: Deletion, s: RI.Cache, answer: Answer)
    requires Sound(keeps, d) && d.failClosed && PhaseComplete(d.phase)
    ensures PhaseComplete(Step(keeps, d, s, answer).phase)
  {
  }

  lemma {:induction false} RunKeepsComplete(keeps: Selection -> Option<RI.Impact>, start: Deletion, ds: seq<Deletion>,
                                            caches: seq<RI.Cache>, answers: seq<Answer>, i: nat)
    requires IsRun(keeps, start, ds, caches, answers) && i < |ds| && start.failClosed
    ensures PhaseComplete(ds[i].phase)
  {
    if i > 0 {
      RunKeepsComplete(keeps, start, ds, caches, answers, i - 1);
      RunKeepsSound(keeps, start, ds, caches, answers, i - 1);
      StepKeepsComplete(keeps, ds[i - 1], caches[i - 1], answers[i - 1]);
    }
  }

  /** The identifiers of the phase's selection are what the scope index listed at some step before. */
  ghost predicate PhaseListed(caches: seq<RI.Cache>, i: nat, original: Request, phase: Phase)
    requires i <= |caches|
  {
    SelectionOf(phase).Some? ==> WereListed(caches, i, ScopeIndexOf(original), SelectionOf(phase).value.ids)
  }

  lemma StepKeepsListing(keeps: Selection -> Option<RI.Impact>, d: Deletion, s: RI.Cache, answer: Answer)
    requires d.failClosed
    ensures var next := SelectionOf(Step(keeps, d, s, answer).phase);
            next.Some? ==> || next.value.ids == IndexIds(s, ScopeIndexOf(d.original))
                           || (SelectionOf(d.phase).Some? && next.value.ids == SelectionOf(d.phase).value.ids)
  {
    if !(UsesStore(d.phase) && answer.fault) {
      match d.phase
      case Reading(sel) => if |sel.entries| == |sel.ids| { SelectionStays(sel, keeps(sel)); }
      case _ =>
    }
  }

  lemma SelectionStays(selection: Selection, kept: Option<RI.Impact>)
    ensures var next := SelectionOf(AfterSelection(selection, kept));
            next.Some? ==> next.value == selection
  {
  }

  lemma {:induction false} RunKeepsListing(keeps: Selection -> Option<RI.Impact>, start: Deletion, ds: seq<Deletion>,
                                           caches: seq<RI.Cache>, answers: seq<Answer>, i: nat)
    requires IsRun(keeps, start, ds, caches, answers) && i < |ds| && start.failClosed
    ensures PhaseListed(caches, i, start.original, ds[i].phase)
  {
    if i > 0 {
      RunKeepsListing(keeps, start, ds, caches, answers, i - 1);
      RunKeepsSound(keeps, start, ds, caches, answers, i - 1);
      NextListed(keeps, ds[i - 1], caches, i - 1, answers[i - 1]);
    }
  }

  lemma NextListed(keeps: Selection -> Option<RI.Impact>, d: Deletion, caches: seq<RI.Cache>, i: nat, answer: Answer)
    requires i < |caches| && d.failClosed && PhaseListed(caches, i, d.original, d.phase)
    ensures PhaseListed(caches, i + 1, d.original, Step(keeps, d, caches[i], answer).phase)
  {
    StepKeepsListing(keeps, d, caches[i], answer);
  }

  /** These entries are a whole reading of the request's scope index, made before step `i`. */
  ghost predicate WasReading(caches: seq<RI.Cache>, i: nat, original: Request, entries: Entries)
    requires i <= |caches|
  {
    exists ids :: |ids| == |entries| && WasRead(caches, i, ScopeIndexOf(original), ids, entries)
  }

  lemma ReadingSelected(caches: seq<RI.Cache>, i: nat, original: Request, selection: Selection)
    requires i <= |caches| && IsComplete(selection) && SelectionWasRead(caches, i, original, selection)
    requires WereListed(caches, i, ScopeIndexOf(original), selection.ids)
    ensures WasReading(caches, i, original, selection.entries)
  {
    assert WasRead(caches, i, ScopeIndexOf(original), selection.ids, selection.entries);
  }

  lemma {:induction false} WasReadSooner(caches: seq<RI.Cache>, m: nat, i: nat, index: RI.Key, ids: seq<nat>, entries: Entries)
    requires m <= i <= |caches| && WasRead(caches, m, index, ids, entries)
    ensures WasRead(caches, i, index, ids, entries)
  {
    if m < i {
      WasReadSooner(caches, m, i - 1, index, ids, entries);
      WasReadLater(caches, i - 1, index, ids, entries);
    }
  }

  lemma ReadingSooner(caches: seq<RI.Cache>, m: nat, i: nat, original: Request, entries: Entries)
    requires m <= i <= |caches| && WasReading(caches, m, original, entries)
    ensures WasReading(caches, i, original, entries)
  {
    var ids :| |ids| == |entries| && WasRead(caches, m, ScopeIndexOf(original), ids, entries);
    WasReadSooner(caches, m, i, ScopeIndexOf(original), ids, entries);
  }

  // ---- A DELETE acts on the job that answers its request ----

  /** What an attempt has read and been answered: the entries of its first selection and of its
      second, and the gateway's resolution, if it has been asked. */
  datatype Evidence = Evidence(first: Entries, second: Entries, resolution: Option<Resolution>)

  /** The gateway was asked in the attempt of state `i`, and answered so. */
  ghost predicate GatewayAnswered(ds: seq<Deletion>, answers: seq<Answer>, i: nat, resolution: Option<Resolution>)
    requires |ds| == |answers| + 1
  {
    exists m: nat :: AsksAt(ds, i, m) && answers[m].resolution == resolution
  }

  /** The attempt of state `i` read these entries, and the gateway answered it so, if it was asked at
      all: it is not asked about a computing job, nor if there is none. */
  ghost predicate IsEvidence(ds: seq<Deletion>, caches: seq<RI.Cache>, answers: seq<Answer>, i: nat, original: Request,
                             e: Evidence)
    requires |ds| == |answers| + 1 && |caches| == |answers| && i < |ds|
  {
    && WasReading(caches, i, original, e.first) && WasReading(caches, i, original, e.second)
    && (|| GatewayAnswered(ds, answers, i, e.resolution)
        || (e.resolution.None? && NotAsked(MostRecent(e.first, original))))
  }

  predicate NotAsked(selected: Option<RI.Impact>) { selected.Some? ==> selected.value.status == RI.Computing }

  function Reused(original: Request, e: Evidence): Option<RI.Impact> { Reusable(e.first, e.second, original, e.resolution) }

  lemma FirstIsReused(original: Request, selection: Selection, impact: RI.Impact, resolution: Option<Resolution>)
    requires selection.resolution.None? && KeptJob(original, selection) == Some(impact)
    requires impact.status == RI.Computing || !ShouldRefresh(impact, resolution)
    ensures Reused(original, Evidence(selection.entries, selection.entries, resolution)) == Some(impact)
  {
  }

  lemma SecondIsReused(original: Request, first: Selection, selected: RI.Impact, second: Selection)
    requires first.resolution.None? && KeptJob(original, first) == Some(selected)
    requires second.resolution.Some? && ShouldRefresh(selected, second.resolution)
    ensures Reused(original, Evidence(first.entries, second.entries, second.resolution)) == KeptJob(original, second)
  {
  }

  /** A second selection comes after a first one in the same attempt. */
  lemma SecondHasFirst(start: Deletion, ds: seq<Deletion>, caches: seq<RI.Cache>, answers: seq<Answer>, i: nat,
                       second: Selection)
    returns (e: Evidence)
    requires IsDeletion(start, ds, caches, answers) && start.failClosed && i < |ds|
    requires second.resolution.Some? && SelectsAgain(ds, answers, i, second.resolution.value)
    requires IsComplete(second) && SelectionWasRead(caches, i, start.original, second)
    requires WereListed(caches, i, ScopeIndexOf(start.original), second.ids)
    ensures IsEvidence(ds, caches, answers, i, start.original, e)
    ensures Reused(start.original, e) == KeptJob(start.original, second)
    ensures e.second == second.entries && e.resolution == second.resolution
  {
    var m: nat :| AsksAt(ds, i, m) && answers[m].resolution == second.resolution
                  && ShouldRefresh(ds[m].phase.impact, answers[m].resolution);
    var first := ds[m].phase.selection;
    RunKeepsSound(Keeping(start.original), start, ds, caches, answers, m);
    RunWasRead(Keeping(start.original), start, ds, caches, answers, m);
    RunKeepsComplete(Keeping(start.original), start, ds, caches, answers, m);
    RunKeepsListing(Keeping(start.original), start, ds, caches, answers, m);
    ReadingSelected(caches, m, start.original, first);
    ReadingSooner(caches, m, i, start.original, first.entries);
    ReadingSelected(caches, i, start.original, second);
    SecondIsReused(start.original, first, ds[m].phase.impact, second);
    e := Evidence(first.entries, second.entries, second.resolution);
  }

  lemma FirstHasEvidence(start: Deletion, ds: seq<Deletion>, caches: seq<RI.Cache>, answers: seq<Answer>, i: nat,
                         selection: Selection, impact: RI.Impact)
    returns (e: Evidence)
    requires IsDeletion(start, ds, caches, answers) && start.failClosed && i < |ds|
    requires selection.resolution.None? && KeptJob(start.original, selection) == Some(impact)
    requires KeepsFirst(ds, answers, i, selection, impact)
    requires IsComplete(selection) && SelectionWasRead(caches, i, start.original, selection)
    requires WereListed(caches, i, ScopeIndexOf(start.original), selection.ids)
    ensures IsEvidence(ds, caches, answers, i, start.original, e) && Reused(start.original, e) == Some(impact)
  {
    var resolution: Option<Resolution> := None;
    if impact.status != RI.Computing {
      var m: nat :| AsksAt(ds, i, m) && ds[m].phase == Resolving(selection, impact)
                    && !ShouldRefresh(impact, answers[m].resolution);
      resolution := answers[m].resolution;
    }
    ReadingSelected(caches, i, start.original, selection);
    FirstIsReused(start.original, selection, impact, resolution);
    e := Evidence(selection.entries, selection.entries, resolution);
  }

  lemma SoundActsOnKept(keeps: Selection -> Option<RI.Impact>, d: Deletion)
    requires Sound(keeps, d) && ActsOn(d.phase).Some?
    ensures keeps(ActsOn(d.phase).value.0) == Some(ActsOn(d.phase).value.1)
  {
  }

  lemma JustifiedActs(ds: seq<Deletion>, answers: seq<Answer>, i: nat)
    requires |ds| == |answers| + 1 && i < |ds| && Justified(ds, answers, i) && ActsOn(ds[i].phase).Some?
    ensures var sel, impact := ActsOn(ds[i].phase).value.0, ActsOn(ds[i].phase).value.1;
            && (sel.resolution.Some? ==> SelectsAgain(ds, answers, i, sel.resolution.value))
            && (sel.resolution.None? ==> KeepsFirst(ds, answers, i, sel, impact))
  {
  }

  lemma ActsOnKept(start: Deletion, ds: seq<Deletion>, caches: seq<RI.Cache>, answers: seq<Answer>, i: nat)
    requires IsDeletion(start, ds, caches, answers) && start.failClosed && i < |ds| && ActsOn(ds[i].phase).Some?
    ensures var sel, impact := ActsOn(ds[i].phase).value.0, ActsOn(ds[i].phase).value.1;
            && KeptJob(start.original, sel) == Some(impact)
            && (sel.resolution.Some? ==> SelectsAgain(ds, answers, i, sel.resolution.value))
            && (sel.resolution.None? ==> KeepsFirst(ds, answers, i, sel, impact))
  {
    RunKeepsSound(Keeping(start.original), start, ds, caches, answers, i);
    SoundActsOnKept(Keeping(start.original), ds[i]);
    RunJustified(Keeping(start.original), start, ds, caches, answers, i);
    JustifiedActs(ds, answers, i);
  }

  lemma ActsOnWholeReading(start: Deletion, ds: seq<Deletion>, caches: seq<RI.Cache>, answers: seq<Answer>, i: nat)
    requires IsDeletion(start, ds, caches, answers) && start.failClosed && i < |ds| && ActsOn(ds[i].phase).Some?
    ensures var sel := ActsOn(ds[i].phase).value.0;
            && IsComplete(sel) && SelectionWasRead(caches, i, start.original, sel)
            && WereListed(caches, i, ScopeIndexOf(start.original), sel.ids)
  {
    RunWasRead(Keeping(start.original), start, ds, caches, answers, i);
    RunKeepsComplete(Keeping(start.original), start, ds, caches, answers, i);
    RunKeepsListing(Keeping(start.original), start, ds, caches, answers, i);
  }

  /** A DELETE acts only on the job that its request would be answered from: in every run, whatever
      other requests do, whatever job it checks, searches or removes is the one that reuse chooses from
      the entries that this attempt read and the gateway's answer to it. So it is trusted: it names the
      application that the request resolves to, or has exactly the refreshed hash, or nothing could
      be resolved. */
  lemma ActsOnTheReusedJob(start: Deletion, ds: seq<Deletion>, caches: seq<RI.Cache>, answers: seq<Answer>, i: nat)
    returns (e: Evidence)
    requires IsDeletion(start, ds, caches, answers) && start.failClosed && i < |ds| && ActsOn(ds[i].phase).Some?
    ensures IsEvidence(ds, caches, answers, i, start.original, e)
    ensures Reused(start.original, e) == Some(ActsOn(ds[i].phase).value.1)
    ensures Trusted(ActsOn(ds[i].phase).value.1, Refreshed(start.original, e.resolution), e.resolution)
  {
    var sel, impact := ActsOn(ds[i].phase).value.0, ActsOn(ds[i].phase).value.1;
    ActsOnKept(start, ds, caches, answers, i);
    ActsOnWholeReading(start, ds, caches, answers, i);
    if sel.resolution.Some? {
      e := SecondHasFirst(start, ds, caches, answers, i, sel);
    } else {
      e := FirstHasEvidence(start, ds, caches, answers, i, sel, impact);
    }
    ReuseIsSound(e.first, e.second, start.original, e.resolution);
  }

  // ---- Every answer is the right one ----

  lemma NothingHasEvidence(start: Deletion, ds: seq<Deletion>, caches: seq<RI.Cache>, answers: seq<Answer>, i: nat,
                           selection: Selection)
    returns (e: Evidence)
    requires IsDeletion(start, ds, caches, answers) && start.failClosed && i < |ds|
    requires selection.resolution.None? && KeptJob(start.original, selection).None?
    requires IsComplete(selection) && SelectionWasRead(caches, i, start.original, selection)
    requires WereListed(caches, i, ScopeIndexOf(start.original), selection.ids)
    ensures IsEvidence(ds, caches, answers, i, start.original, e) && Reused(start.original, e).None?
  {
    ReadingSelected(caches, i, start.original, selection);
    e := Evidence(selection.entries, selection.entries, None);
  }

  /** Not found is answered only if reuse chooses no job from what the attempt read. */
  lemma NotFoundIsRight(start: Deletion, ds: seq<Deletion>, caches: seq<RI.Cache>, answers: seq<Answer>, i: nat)
    returns (e: Evidence)
    requires IsDeletion(start, ds, caches, answers) && start.failClosed && i < |answers|
    requires !ds[i].phase.Done? && ds[i + 1].phase == Done(NotFound)
    ensures IsEvidence(ds, caches, answers, i, start.original, e) && Reused(start.original, e).None?
  {
    RunKeepsSound(Keeping(start.original), start, ds, caches, answers, i);
    RunWasRead(Keeping(start.original), start, ds, caches, answers, i);
    RunKeepsListing(Keeping(start.original), start, ds, caches, answers, i);
    RunJustified(Keeping(start.original), start, ds, caches, answers, i);
    OnlySelectionsEndInNotFound(Keeping(start.original), ds[i], caches[i], answers[i]);
    var sel := ds[i].phase.selection;
    if sel.resolution.Some? {
      e := SecondHasFirst(start, ds, caches, answers, i, sel);
    } else {
      e := NothingHasEvidence(start, ds, caches, answers, i, sel);
    }
  }

  /** What an answer other than not found says about the job that the DELETE acts on. */
  ghost predicate EndsRightly(d: Deletion, s: RI.Cache, answer: Answer, impact: RI.Impact, ending: Ending) {
    match ending
    case NotFound => false
    case NotAFailure(status) => status == impact.status != RI.Failed
    case Locked(seconds) =>
      impact.status == RI.Failed
      && seconds == SecondsUntil(impact.endTime, answer.now, 10) > 0
    case Deleted(id) =>
      && impact.status == RI.Failed && RI.Decoded(Get(s, RI.RecordKey(id))) == Some(impact)
      && OnlyRemoves(s, StepCache(d, s, answer), id, RI.IndexOf(impact))
    case Raised =>
      && impact.status == RI.Failed && d.attempt == FAILED_IMPACT_DELETE_ATTEMPTS - 1
      && match d.phase
         case FailureReading(_, _, _, ids, entries) =>
           |entries| == |ids| && forall j :: 0 <= j < |entries| ==> RI.Decoded(entries[j].1) != Some(impact)
         case Removing(_, _, _, id, value) => Get(s, RI.RecordKey(id)) != Some(value)
         case _ => false
  }

  lemma LastStepEndsRightly(keeps: Selection -> Option<RI.Impact>, d: Deletion, s: RI.Cache, answer: Answer)
    requires Sound(keeps, d) && ActsOn(d.phase).Some? && (UsesStore(d.phase) ==> !answer.fault)
    requires Step(keeps, d, s, answer).phase.Done?
    ensures EndsRightly(d, s, answer, ActsOn(d.phase).value.1, Step(keeps, d, s, answer).phase.ending)
  {
    match d.phase
    case Removing(_, failure, _, id, value) =>
      if RemoveFailure(s, failure, id, value).1 { RemovalOnlyRemoves(s, failure, id, value); }
    case _ =>
  }

  lemma OnlyActingEnds(keeps: Selection -> Option<RI.Impact>, d: Deletion, s: RI.Cache, answer: Answer)
    requires Sound(keeps, d) && !d.phase.Done? && (UsesStore(d.phase) ==> !answer.fault)
    requires Step(keeps, d, s, answer).phase.Done? && Step(keeps, d, s, answer).phase.ending != NotFound
    ensures ActsOn(d.phase).Some?
  {
  }

  /** How often the DELETE has started over, because the failure it selected was not there any more. */
  function Restarts(ds: seq<Deletion>, i: nat): nat
    requires i < |ds|
  {
    if i == 0 then 0
    else
      Restarts(ds, i - 1)
      + if (ds[i - 1].phase.FailureReading? || ds[i - 1].phase.Removing?) && ds[i].phase.Listing? then 1 else 0
  }

  lemma StepCountsAttempts(keeps: Selection -> Option<RI.Impact>, d: Deletion, s: RI.Cache, answer: Answer)
    requires Sound(keeps, d)
    ensures var next := Step(keeps, d, s, answer);
            next.attempt == d.attempt + if (d.phase.FailureReading? || d.phase.Removing?) && next.phase.Listing? then 1 else 0
  {
  }

  lemma {:induction false} AttemptsAreCounted(keeps: Selection -> Option<RI.Impact>, start: Deletion, ds: seq<Deletion>,
                                              caches: seq<RI.Cache>, answers: seq<Answer>, i: nat)
    requires IsRun(keeps, start, ds, caches, answers) && i < |ds|
    ensures ds[i].attempt == Restarts(ds, i)
  {
    if i > 0 {
      AttemptsAreCounted(keeps, start, ds, caches, answers, i - 1);
      RunKeepsSound(keeps, start, ds, caches, answers, i - 1);
      StepCountsAttempts(keeps, ds[i - 1], caches[i - 1], answers[i - 1]);
    }
  }

  /** A DELETE gives up only after it has started over twice. */
  lemma RaisesAfterThreeAttempts(start: Deletion, ds: seq<Deletion>, caches: seq<RI.Cache>, answers: seq<Answer>, i: nat)
    requires IsDeletion(start, ds, caches, answers) && i < |answers|
    requires !ds[i].phase.Done? && ds[i + 1].phase == Done(Raised) && (UsesStore(ds[i].phase) ==> !answers[i].fault)
    ensures Restarts(ds, i) == 2
  {
    RunKeepsSound(Keeping(start.original), start, ds, caches, answers, i);
    AttemptsAreCounted(Keeping(start.original), start, ds, caches, answers, i);
    OnlyActingEnds(Keeping(start.original), ds[i], caches[i], answers[i]);
    LastStepEndsRightly(Keeping(start.original), ds[i], caches[i], answers[i]);
  }

  /** Every other answer is about the job that reuse chooses: it is no failure and is answered with
      its status, or locked for exactly the seconds left, or removed; and a DELETE raises, if no
      access failed, only because in its third attempt the failure was not there any more. */
  lemma EndingIsRight(start: Deletion, ds: seq<Deletion>, caches: seq<RI.Cache>, answers: seq<Answer>, i: nat)
    returns (e: Evidence)
    requires IsDeletion(start, ds, caches, answers) && start.failClosed && i < |answers|
    requires !ds[i].phase.Done? && ds[i + 1].phase.Done? && ds[i + 1].phase.ending != NotFound
    requires UsesStore(ds[i].phase) ==> !answers[i].fault
    ensures IsEvidence(ds, caches, answers, i, start.original, e) && Reused(start.original, e).Some?
    ensures ActsOn(ds[i].phase).Some? && ActsOn(ds[i].phase).value.1 == Reused(start.original, e).value
    ensures EndsRightly(ds[i], caches[i], answers[i], Reused(start.original, e).value, ds[i + 1].phase.ending)
  {
    RunKeepsSound(Keeping(start.original), start, ds, caches, answers, i);
    OnlyActingEnds(Keeping(start.original), ds[i], caches[i], answers[i]);
    e := ActsOnTheReusedJob(start, ds, caches, answers, i);
    LastStepEndsRightly(Keeping(start.original), ds[i], caches[i], answers[i]);
  }

  /** A removal whose answer is lost raises, and has happened or not, as the world has it. */
  lemma LostRemovalMayHaveApplied(start: Deletion, ds: seq<Deletion>, caches: seq<RI.Cache>, answers: seq<Answer>, i: nat)
    requires IsDeletion(start, ds, caches, answers) && i < |answers| && ds[i].phase.Removing? && answers[i].fault
    ensures ds[i + 1].phase == Done(Raised)
    ensures var d := ds[i].phase;
            if answers[i].applied && Get(caches[i], RI.RecordKey(d.id)) == Some(d.value) then
              OnlyRemoves(caches[i], StepCache(ds[i], caches[i], answers[i]), d.id, RI.IndexOf(d.failure))
            else StepCache(ds[i], caches[i], answers[i]) == caches[i]
  {
    var d := ds[i].phase;
    if answers[i].applied && Get(caches[i], RI.RecordKey(d.id)) == Some(d.value) {
      RemovalOnlyRemoves(caches[i], d.failure, d.id, d.value);
    }
  }
}
