/** A DELETE that nobody disturbs does what its request asks for: it removes the failure that the
    request would be answered from, if there is one and its lockout is over. */
module DeletionAlone {
  import opened Outcome
  import opened CacheStore
  import opened ReusableImpact
  import opened FailureDeletion
  import opened DeletionHistory
  import RI = ReformImpacts
  import RC = ReformImpactCache

  // ---- Searching the failure's record ----

  /** What the search for the failure's record has read so far, and the record it found. */
  ghost predicate Searched(caches: seq<RI.Cache>, i: nat, phase: Phase)
    requires i <= |caches|
  {
    match phase
    case FailureReading(_, failure, _, ids, entries) => WasRead(caches, i, RI.IndexOf(failure), ids, entries)
    case Removing(_, failure, _, id, value) => FoundHolding(caches, i, failure, id, value)
    case _ => true
  }

  /** The record is the first of a whole reading of the failure's index that held the failure. */
  ghost predicate FoundHolding(caches: seq<RI.Cache>, i: nat, failure: RI.Impact, id: nat, value: RI.Stored)
    requires i <= |caches|
  {
    exists ids, entries :: |ids| == |entries| && WasRead(caches, i, RI.IndexOf(failure), ids, entries)
                           && RC.HoldingEntry(entries, failure) == Some((id, value))
  }

  /** How a step searches: it lists the failure's own index, reads the next record, or takes the first that holds it. */
  lemma StepSearches(keeps: Selection -> Option<RI.Impact>, d: Deletion, s: RI.Cache, answer: Answer)
    requires Sound(keeps, d)
    ensures var next := Step(keeps, d, s, answer).phase;
            match next
            case FailureReading(_, failure, _, ids, entries) =>
              || (entries == [] && ids == IndexIds(s, RI.IndexOf(failure)))
              || (d.phase.FailureReading? && d.phase.failure == failure && d.phase.ids == ids
                  && |d.phase.entries| < |ids| && entries == ReadNext(s, ids, d.phase.entries))
            case Removing(_, failure, _, id, value) =>
              d.phase.FailureReading? && d.phase.failure == failure && |d.phase.entries| == |d.phase.ids|
              && RC.HoldingEntry(d.phase.entries, failure) == Some((id, value))
            case _ => true
  {
  }

  lemma FoundByWholeReading(caches: seq<RI.Cache>, i: nat, failure: RI.Impact, ids: seq<nat>, entries: Entries,
                            id: nat, value: RI.Stored)
    requires i < |caches| && |ids| == |entries| && WasRead(caches, i, RI.IndexOf(failure), ids, entries)
    requires RC.HoldingEntry(entries, failure) == Some((id, value))
    ensures FoundHolding(caches, i + 1, failure, id, value)
  {
    WasReadLater(caches, i, RI.IndexOf(failure), ids, entries);
  }

  lemma NextSearched(keeps: Selection -> Option<RI.Impact>, d: Deletion, caches: seq<RI.Cache>, i: nat, answer: Answer)
    requires i < |caches| && Sound(keeps, d) && Searched(caches, i, d.phase)
    ensures Searched(caches, i + 1, Step(keeps, d, caches[i], answer).phase)
  {
    var next := Step(keeps, d, caches[i], answer).phase;
    StepSearches(keeps, d, caches[i], answer);
    match next
    case FailureReading(_, failure, _, ids, entries) =>
      if entries == [] && ids == IndexIds(caches[i], RI.IndexOf(failure)) {
        ListedNow(caches, i, RI.IndexOf(failure));
      } else {
        ReadingOne(caches, i, RI.IndexOf(failure), ids, d.phase.entries);
      }
    case Removing(_, failure, _, id, value) =>
      FoundByWholeReading(caches, i, failure, d.phase.ids, d.phase.entries, id, value);
    case _ =>
  }

  lemma {:induction false} RunSearched(keeps: Selection -> Option<RI.Impact>, start: Deletion, ds: seq<Deletion>,
                                       caches: seq<RI.Cache>, answers: seq<Answer>, i: nat)
    requires IsRun(keeps, start, ds, caches, answers) && i < |ds|
    ensures Searched(caches, i, ds[i].phase)
  {
    if i > 0 {
      RunSearched(keeps, start, ds, caches, answers, i - 1);
      RunKeepsSound(keeps, start, ds, caches, answers, i - 1);
      NextSearched(keeps, ds[i - 1], caches, i - 1, answers[i - 1]);
    }
  }

  // ---- With nothing in between ----

  /** The cache is the same at every step so far, none fails, and the gateway always answers the same. */
  ghost predicate Undisturbed(caches: seq<RI.Cache>, answers: seq<Answer>, i: nat, s: RI.Cache,
                              resolution: Option<Resolution>)
  {
    i < |answers| == |caches|
    && forall k :: 0 <= k <= i ==> caches[k] == s && !answers[k].fault && answers[k].resolution == resolution
  }

  lemma ReadingOfOne(caches: seq<RI.Cache>, i: nat, s: RI.Cache, index: RI.Key, ids: seq<nat>, entries: Entries)
    requires i <= |caches| && (forall k :: 0 <= k < i ==> caches[k] == s)
    requires |ids| == |entries| && WasRead(caches, i, index, ids, entries)
    ensures entries == RI.IndexEntries(s, index, RI.REFORM_IMPACT_INDEX_LIMIT)
  {
    assert ids == IndexIds(s, index);
    forall j | 0 <= j < |entries| ensures entries[j] == (ids[j], Get(s, RI.RecordKey(ids[j]))) {
      assert WasHeld(caches, i, ids[j], entries[j]);
    }
  }

  /** The entries of the request's own scope. */
  function ScopeEntries(s: RI.Cache, original: Request): Entries {
    RI.IndexEntries(s, ScopeIndexOf(original), RI.REFORM_IMPACT_INDEX_LIMIT)
  }

  lemma NotAskedIsTheSame(original: Request, entries: Entries, resolution: Option<Resolution>)
    requires NotAsked(MostRecent(entries, original))
    ensures Reusable(entries, entries, original, None) == Reusable(entries, entries, original, resolution)
  {
  }

  lemma EvidenceOfOne(ds: seq<Deletion>, caches: seq<RI.Cache>, answers: seq<Answer>, i: nat, original: Request,
                      e: Evidence, s: RI.Cache, resolution: Option<Resolution>)
    requires |ds| == |answers| + 1 && Undisturbed(caches, answers, i, s, resolution)
    requires IsEvidence(ds, caches, answers, i, original, e)
    ensures Reused(original, e) == Reusable(ScopeEntries(s, original), ScopeEntries(s, original), original, resolution)
  {
    var first :| |first| == |e.first| && WasRead(caches, i, ScopeIndexOf(original), first, e.first);
    ReadingOfOne(caches, i, s, ScopeIndexOf(original), first, e.first);
    var second :| |second| == |e.second| && WasRead(caches, i, ScopeIndexOf(original), second, e.second);
    ReadingOfOne(caches, i, s, ScopeIndexOf(original), second, e.second);
    if !GatewayAnswered(ds, answers, i, e.resolution) { NotAskedIsTheSame(original, e.first, resolution); }
  }

  /** The record of the failure's own scope that holds it. */
  function HolderOf(s: RI.Cache, failure: RI.Impact): Option<(nat, RI.Stored)> {
    RC.HoldingEntry(RI.IndexEntries(s, RI.IndexOf(failure), RI.REFORM_IMPACT_INDEX_LIMIT), failure)
  }

  /** What the answer to such a DELETE is. */
  function AloneEnding(s: RI.Cache, original: Request, resolution: Option<Resolution>, now: real): Ending {
    var job := Reusable(ScopeEntries(s, original), ScopeEntries(s, original), original, resolution);
    if job.None? then NotFound
    else if job.value.status != RI.Failed then NotAFailure(job.value.status)
    else
      var seconds := SecondsUntil(job.value.endTime, now, FAILED_IMPACT_DELETE_LOCKOUT_SECONDS);
      if seconds > 0 then Locked(seconds)
      else if HolderOf(s, job.value).None? then Raised
      else Deleted(HolderOf(s, job.value).value.0)
  }

  /** How the last step of one that acts on a job follows from the job alone. */
  lemma ActingEndsAlone(keeps: Selection -> Option<RI.Impact>, d: Deletion, caches: seq<RI.Cache>, i: nat, answer: Answer,
                        s: RI.Cache)
    requires Sound(keeps, d) && ActsOn(d.phase).Some? && !answer.fault
    requires i < |caches| && (forall k :: 0 <= k <= i ==> caches[k] == s) && Searched(caches, i, d.phase)
    requires Step(keeps, d, s, answer).phase.Done?
    ensures var job, ending := ActsOn(d.phase).value.1, Step(keeps, d, s, answer).phase.ending;
            match ending
            case Deleted(id) =>
              HolderOf(s, job).Some? && id == HolderOf(s, job).value.0 && Removable(job, d.phase.checkedAt)
            case Raised => HolderOf(s, job).None? && !d.phase.Checking? && Removable(job, d.phase.checkedAt)
            case _ => d.phase.Checking?
  {
    match d.phase
    case FailureReading(_, failure, _, ids, entries) => ReadingOfOne(caches, i, s, RI.IndexOf(failure), ids, entries);
    case Removing(_, failure, _, id, value) => FoundIsHolder(caches, i, s, failure, id, value);
    case _ =>
  }

  lemma FoundIsHolder(caches: seq<RI.Cache>, i: nat, s: RI.Cache, failure: RI.Impact, id: nat, value: RI.Stored)
    requires i <= |caches| && (forall k :: 0 <= k < i ==> caches[k] == s) && FoundHolding(caches, i, failure, id, value)
    ensures HolderOf(s, failure) == Some((id, value)) && Get(s, RI.RecordKey(id)) == Some(value)
  {
    var ids, entries :| |ids| == |entries| && WasRead(caches, i, RI.IndexOf(failure), ids, entries)
                        && RC.HoldingEntry(entries, failure) == Some((id, value));
    ReadingOfOne(caches, i, s, RI.IndexOf(failure), ids, entries);
    HolderIsHeld(s, RI.IndexOf(failure), failure);
  }

  lemma HolderIsHeld(s: RI.Cache, index: RI.Key, failure: RI.Impact)
    ensures var holder := RC.HoldingEntry(RI.IndexEntries(s, index, RI.REFORM_IMPACT_INDEX_LIMIT), failure);
            holder.Some? ==> Get(s, RI.RecordKey(holder.value.0)) == Some(holder.value.1)
  {
  }

  predicate CheckedAt(phase: Phase, now: real) {
    match phase
    case FailureListing(_, _, checkedAt) => checkedAt == now
    case FailureReading(_, _, checkedAt, _, _) => checkedAt == now
    case Removing(_, _, checkedAt, _, _) => checkedAt == now
    case _ => true
  }

  lemma {:induction false} AlwaysCheckedAt(keeps: Selection -> Option<RI.Impact>, start: Deletion, ds: seq<Deletion>,
                                           caches: seq<RI.Cache>, answers: seq<Answer>, i: nat, now: real)
    requires IsRun(keeps, start, ds, caches, answers) && i < |ds| && forall k :: 0 <= k < i ==> answers[k].now == now
    ensures CheckedAt(ds[i].phase, now)
  {
    if i > 0 { AlwaysCheckedAt(keeps, start, ds, caches, answers, i - 1, now); }
  }

  /** Undisturbed, a DELETE answers exactly as its request asks, by the job that reuse chooses from
      the cache as it is. */
  lemma DeletesAlone(start: Deletion, ds: seq<Deletion>, caches: seq<RI.Cache>, answers: seq<Answer>, i: nat,
                     s: RI.Cache, resolution: Option<Resolution>, now: real)
    requires IsDeletion(start, ds, caches, answers) && start.failClosed && i < |answers|
    requires Undisturbed(caches, answers, i, s, resolution) && forall k :: 0 <= k <= i ==> answers[k].now == now
    requires !ds[i].phase.Done? && ds[i + 1].phase.Done?
    ensures ds[i + 1].phase.ending == AloneEnding(s, start.original, resolution, now)
  {
    var ending := ds[i + 1].phase.ending;
    if ending == NotFound {
      var e := NotFoundIsRight(start, ds, caches, answers, i);
      EvidenceOfOne(ds, caches, answers, i, start.original, e, s, resolution);
    } else {
      var e := EndingIsRight(start, ds, caches, answers, i);
      EvidenceOfOne(ds, caches, answers, i, start.original, e, s, resolution);
      ActsAlone(start, ds, caches, answers, i, s, e, now);
    }
  }

  lemma ActsAlone(start: Deletion, ds: seq<Deletion>, caches: seq<RI.Cache>, answers: seq<Answer>, i: nat,
                  s: RI.Cache, e: Evidence, now: real)
    requires IsDeletion(start, ds, caches, answers) && start.failClosed && i < |answers|
    requires !answers[i].fault && forall k :: 0 <= k <= i ==> caches[k] == s && answers[k].now == now
    requires !ds[i].phase.Done? && ds[i + 1].phase.Done? && ds[i + 1].phase.ending != NotFound
    requires Reused(start.original, e).Some?
    requires ActsOn(ds[i].phase).Some? && ActsOn(ds[i].phase).value.1 == Reused(start.original, e).value
    ensures var job, ending := Reused(start.original, e).value, ds[i + 1].phase.ending;
            var seconds := SecondsUntil(job.endTime, now, FAILED_IMPACT_DELETE_LOCKOUT_SECONDS);
            if job.status != RI.Failed then ending == NotAFailure(job.status)
            else if seconds > 0 then ending == Locked(seconds)
            else if HolderOf(s, job).None? then ending == Raised
            else ending == Deleted(HolderOf(s, job).value.0)
  {
    RunKeepsSound(Keeping(start.original), start, ds, caches, answers, i);
    RunSearched(Keeping(start.original), start, ds, caches, answers, i);
    AlwaysCheckedAt(Keeping(start.original), start, ds, caches, answers, i, now);
    ActingEndsAlone(Keeping(start.original), ds[i], caches, i, answers[i], s);
    LastStepEndsRightly(Keeping(start.original), ds[i], caches[i], answers[i]);
  }
}
