/** A DELETE of a stored failure, while other requests change the cache between any two of its steps. */
module FailureDeletion {
  import opened Outcome
  import opened CacheStore
  import opened ReformImpacts
  import opened ReusableImpact
  import RC = ReformImpactCache

  const FAILED_IMPACT_DELETE_ATTEMPTS: nat := 3
  const FAILED_IMPACT_DELETE_LOCKOUT_SECONDS := 10

  type Entries = seq<(nat, Option<Stored>)>

  datatype Ending = Deleted(id: nat) | Locked(seconds: int) | NotAFailure(status: Status) | NotFound | Raised

  /** What a selection read: the identifiers that the scope index listed and their records so far.
      A second selection is made under the options that `resolution` resolved. */
  datatype Selection = Selection(resolution: Option<Resolution>, ids: seq<nat>, entries: Entries)

  /** Where a DELETE is: selecting the stored job, checking it, finding the record that holds it,
      and removing that record. */
  datatype Phase =
    | Listing(resolution: Option<Resolution>)
    | Reading(selection: Selection)
    | Resolving(selection: Selection, impact: Impact)
    | Checking(selection: Selection, impact: Impact)
    | FailureListing(selection: Selection, failure: Impact, checkedAt: real)
    | FailureReading(selection: Selection, failure: Impact, checkedAt: real, ids: seq<nat>, entries: Entries)
    | Removing(selection: Selection, failure: Impact, checkedAt: real, id: nat, value: Stored)
    | Done(ending: Ending)

  /** `failClosed` says whether lookups raise when the cache cannot be read, or read it as empty. A
      DELETE selects with it set. */
  datatype Deletion = Deletion(original: Request, failClosed: bool, attempt: nat, phase: Phase)

  /** What the world answers a step: whether the store fails (a removal may or may not have been
      applied by then), the gateway's resolution and the clock. */
  datatype Answer = Answer(fault: bool, applied: bool, resolution: Option<Resolution>, now: real)

  function Start(request: Request, failClosed: bool): Deletion { Deletion(request, failClosed, 0, Listing(None)) }

  /** Whole seconds, rounded up, until this long after the impact's end; never more than that long. */
  function SecondsUntil(endTime: Option<real>, now: real, after: int): int {
    if endTime.None? then 0
    else
      var left := Ceiling(after as real - (now - endTime.value));
      var positive := if left > 0 then left else 0;
      if positive < after then positive else after
  }

  /** A caller that waits as long as it is told is not early, exactly unless the end lies ahead of
      this clock, because another instance's clock wrote it; and it is told 0 exactly when it may
      go ahead. */
  lemma WaitingIsEnough(endTime: real, now: real, after: nat)
    ensures SecondsUntil(Some(endTime), now + SecondsUntil(Some(endTime), now, after) as real, after) == 0
       <==> now >= endTime || after == 0
    ensures SecondsUntil(Some(endTime), now, after) == 0 <==> after == 0 || now - endTime >= after as real
  {
    var left := after as real - (now - endTime);
    assert (Ceiling(left) - 1) as real < left <= Ceiling(left) as real;
    var wait := SecondsUntil(Some(endTime), now, after);
    if now >= endTime {
      assert Ceiling(left) <= after;
      assert wait as real >= left;
    } else {
      assert wait == after;
      var still := after as real - (now + wait as real - endTime);
      assert still == endTime - now;
      assert Ceiling(still) > 0;
    }
  }

  /** The reported wait is the shortest: after any fewer whole seconds the caller is still early. And
      there is none for an impact without an end. */
  lemma WaitingIsNeeded(endTime: real, now: real, after: nat, wait: nat)
    requires wait < SecondsUntil(Some(endTime), now, after)
    ensures SecondsUntil(Some(endTime), now + wait as real, after) > 0
    ensures SecondsUntil(None, now, after) == 0
  {
    var left := after as real - (now - endTime);
    assert (Ceiling(left) - 1) as real < left <= Ceiling(left) as real;
    var later := after as real - (now + wait as real - endTime);
    assert later == left - wait as real;
    assert Ceiling(left) > wait;
    assert later > 0.0;
    assert later <= Ceiling(later) as real;
  }

  // ---- Steps ----

  /** The phases that read for the selection: outside them a failing store always raises. */
  predicate Selects(phase: Phase) {
    phase.Listing? || (phase.Reading? && |phase.selection.entries| < |phase.selection.ids|)
  }

  predicate UsesStore(phase: Phase) {
    || Selects(phase)
    || phase.FailureListing?
    || (phase.FailureReading? && |phase.entries| < |phase.ids|)
    || phase.Removing?
  }

  /** The request that a selection is made for. */
  function RequestOf(original: Request, resolution: Option<Resolution>): (request: Request)
    ensures request.scope == original.scope && request.apiVersion == original.apiVersion
  {
    if resolution.None? then original else Resolved(original, resolution.value)
  }

  function ScopeIndexOf(original: Request): Key { ScopeIndex(original.scope, original.apiVersion) }

  function IndexIds(s: Cache, index: Key): (ids: seq<nat>)
    ensures |ids| <= REFORM_IMPACT_INDEX_LIMIT
  {
    RevRange(s, index, 0, REFORM_IMPACT_INDEX_LIMIT - 1)
  }

  function ReadNext(s: Cache, ids: seq<nat>, entries: Entries): Entries
    requires |entries| < |ids|
  {
    entries + [(ids[|entries|], Get(s, RecordKey(ids[|entries|])))]
  }

  /** The job that a selection, or a second one, keeps. */
  function KeptJob(original: Request, selection: Selection): Option<Impact> {
    var request := RequestOf(original, selection.resolution);
    var selected := MostRecent(selection.entries, request);
    if selection.resolution.Some? then ExactOnly(selected, request) else selected
  }

  function AfterSelection(selection: Selection, kept: Option<Impact>): Phase {
    if kept.None? then Done(NotFound)
    else if selection.resolution.Some? || kept.value.status == Computing then Checking(selection, kept.value)
    else Resolving(selection, kept.value)
  }

  /** What a selection that reads nothing has read. */
  function NothingRead(phase: Phase): Selection
    requires Selects(phase)
  {
    Selection(if phase.Listing? then phase.resolution else phase.selection.resolution, [], [])
  }

  /** A lookup that fails raises, or else reads as having found nothing. `keeps` says which job a
      selection keeps. */
  function AfterFault(keeps: Selection -> Option<Impact>, d: Deletion): Phase {
    if Selects(d.phase) && !d.failClosed then AfterSelection(NothingRead(d.phase), keeps(NothingRead(d.phase)))
    else Done(Raised)
  }

  function AfterResolving(selection: Selection, impact: Impact, resolution: Option<Resolution>): Phase {
    if ShouldRefresh(impact, resolution) then Listing(resolution) else Checking(selection, impact)
  }

  function AfterCheckAt(selection: Selection, impact: Impact, now: real): Phase {
    if impact.status != Failed then Done(NotAFailure(impact.status))
    else
      var seconds := SecondsUntil(impact.endTime, now, FAILED_IMPACT_DELETE_LOCKOUT_SECONDS);
      if seconds > 0 then Done(Locked(seconds)) else FailureListing(selection, impact, now)
  }

  /** The failure was not removed: it is selected and checked again, up to three times in all. */
  function Retried(d: Deletion): Deletion {
    if d.attempt + 1 < FAILED_IMPACT_DELETE_ATTEMPTS then d.(attempt := d.attempt + 1, phase := Listing(None))
    else d.(phase := Done(Raised))
  }

  function RemoveFailure(s: Cache, failure: Impact, id: nat, value: Stored): (Cache, bool) {
    DeleteUnchanged(s, RecordKey(id), id, IndexOf(failure), RecentIndex, value)
  }

  function Step(keeps: Selection -> Option<Impact>, d: Deletion, s: Cache, answer: Answer): Deletion {
    if UsesStore(d.phase) && answer.fault then d.(phase := AfterFault(keeps, d))
    else
      match d.phase
      case Listing(resolution) => d.(phase := Reading(Selection(resolution, IndexIds(s, ScopeIndexOf(d.original)), [])))
      case Reading(sel) =>
        if |sel.entries| < |sel.ids| then d.(phase := Reading(sel.(entries := ReadNext(s, sel.ids, sel.entries))))
        else d.(phase := AfterSelection(sel, keeps(sel)))
      case Resolving(sel, impact) => d.(phase := AfterResolving(sel, impact, answer.resolution))
      case Checking(sel, impact) => d.(phase := AfterCheckAt(sel, impact, answer.now))
      case FailureListing(sel, failure, checkedAt) =>
        d.(phase := FailureReading(sel, failure, checkedAt, IndexIds(s, IndexOf(failure)), []))
      case FailureReading(sel, failure, checkedAt, ids, entries) =>
        if |entries| < |ids| then d.(phase := FailureReading(sel, failure, checkedAt, ids, ReadNext(s, ids, entries)))
        else
          var stored := RC.HoldingEntry(entries, failure);
          if stored.None? then Retried(d)
          else d.(phase := Removing(sel, failure, checkedAt, stored.value.0, stored.value.1))
      case Removing(_, failure, _, id, value) =>
        if RemoveFailure(s, failure, id, value).1 then d.(phase := Done(Deleted(id))) else Retried(d)
      case Done(_) => d
  }

  /** What the step does to the cache. */
  function StepCache(d: Deletion, s: Cache, answer: Answer): Cache {
    if d.phase.Removing? && (answer.fault ==> answer.applied) then
      RemoveFailure(s, d.phase.failure, d.phase.id, d.phase.value).0
    else s
  }

  /** `ds` are the states of one DELETE. Each of its steps sees the cache that the other requests
      left it, in `caches`: nothing is assumed about what they did. */
  ghost predicate IsRun(keeps: Selection -> Option<Impact>, start: Deletion, ds: seq<Deletion>, caches: seq<Cache>,
                        answers: seq<Answer>)
  {
    && |ds| == |answers| + 1 && |caches| == |answers|
    && ds[0] == start && start == Start(start.original, start.failClosed)
    && forall i :: 0 <= i < |answers| ==> ds[i + 1] == Step(keeps, ds[i], caches[i], answers[i])
  }

  /** The run of a DELETE of the stored failure that this request would be answered from. */
  ghost predicate IsDeletion(start: Deletion, ds: seq<Deletion>, caches: seq<Cache>, answers: seq<Answer>) {
    IsRun(Keeping(start.original), start, ds, caches, answers)
  }

  function Keeping(original: Request): Selection -> Option<Impact> { selection => KeptJob(original, selection) }

  // ---- Only the selected and checked failure is removed ----

  /** A failure that the lockout no longer protects. */
  predicate Removable(failure: Impact, checkedAt: real) {
    failure.status == Failed && SecondsUntil(failure.endTime, checkedAt, FAILED_IMPACT_DELETE_LOCKOUT_SECONDS) == 0
  }

  predicate Readings(ids: seq<nat>, entries: Entries) { |entries| <= |ids| <= REFORM_IMPACT_INDEX_LIMIT }

  predicate SoundPhase(keeps: Selection -> Option<Impact>, phase: Phase) {
    match phase
    case Listing(_) => true
    case Reading(sel) => Readings(sel.ids, sel.entries)
    case Resolving(sel, impact) => sel.resolution.None? && keeps(sel) == Some(impact)
    case Checking(sel, impact) => keeps(sel) == Some(impact)
    case FailureListing(sel, failure, checkedAt) =>
      keeps(sel) == Some(failure) && Removable(failure, checkedAt)
    case FailureReading(sel, failure, checkedAt, ids, entries) =>
      keeps(sel) == Some(failure) && Removable(failure, checkedAt) && Readings(ids, entries)
    case Removing(sel, failure, checkedAt, _, value) =>
      && keeps(sel) == Some(failure) && Removable(failure, checkedAt)
      && Decoded(Some(value)) == Some(failure)
    case Done(_) => true
  }

  predicate Sound(keeps: Selection -> Option<Impact>, d: Deletion) {
    d.attempt < FAILED_IMPACT_DELETE_ATTEMPTS && SoundPhase(keeps, d.phase)
  }

  lemma SecondsUntilIsNatural(endTime: Option<real>, now: real, after: nat)
    ensures 0 <= SecondsUntil(endTime, now, after) <= after
  {
  }

  lemma StepKeepsSound(keeps: Selection -> Option<Impact>, d: Deletion, s: Cache, answer: Answer)
    requires Sound(keeps, d)
    ensures Sound(keeps, Step(keeps, d, s, answer)) && Step(keeps, d, s, answer).original == d.original
    ensures Step(keeps, d, s, answer).failClosed == d.failClosed
  {
    match d.phase
    case Checking(sel, impact) =>
      SecondsUntilIsNatural(impact.endTime, answer.now, FAILED_IMPACT_DELETE_LOCKOUT_SECONDS);
    case _ =>
  }

  lemma {:induction false} RunKeepsSound(keeps: Selection -> Option<Impact>, start: Deletion, ds: seq<Deletion>,
                                         caches: seq<Cache>, answers: seq<Answer>, i: nat)
    requires IsRun(keeps, start, ds, caches, answers) && i < |ds|
    ensures Sound(keeps, ds[i]) && ds[i].original == start.original && ds[i].failClosed == start.failClosed
  {
    if i > 0 {
      RunKeepsSound(keeps, start, ds, caches, answers, i - 1);
      StepKeepsSound(keeps, ds[i - 1], caches[i - 1], answers[i - 1]);
    }
  }

  /** What a selection keeps matches the request it was made for, among the entries that were read. */
  lemma KeptJobMatches(original: Request, selection: Selection)
    ensures var kept := KeptJob(original, selection);
            kept.Some? ==> MatchesRequest(kept.value, selection.entries, RequestOf(original, selection.resolution))
  {
    SelectedMatches(selection.entries, RequestOf(original, selection.resolution));
  }

  /** `t` is `s` without this record and its entries in the two indexes; everything else is as it was. */
  ghost predicate OnlyRemoves(s: Cache, t: Cache, id: nat, scopeIndex: Key) {
    && t.now == s.now
    && t.values == s.values - {RecordKey(id)}
    && t.expires == s.expires - {RecordKey(id)}
    && t.sets.Keys == s.sets.Keys - {RecordKey(id)}
    && forall index :: index in t.sets ==>
         t.sets[index] == if index == scopeIndex || index == RecentIndex then s.sets[index] - {id} else s.sets[index]
  }

  lemma RemovalOnlyRemoves(s: Cache, failure: Impact, id: nat, value: Stored)
    requires RemoveFailure(s, failure, id, value).1
    ensures OnlyRemoves(s, RemoveFailure(s, failure, id, value).0, id, IndexOf(failure))
  {
    var gone := Delete(s, {RecordKey(id)});
    var inScope := RemoveMembers(gone, IndexOf(failure), {id});
    RemovalFromIndex(gone, IndexOf(failure), id);
    RemovalFromIndex(inScope, RecentIndex, id);
    assert gone.sets.Keys == s.sets.Keys - {RecordKey(id)};
  }

  lemma RemovalFromIndex(s: Cache, index: Key, id: nat)
    ensures var t := RemoveMembers(s, index, {id});
            && t == s.(sets := t.sets) && t.sets.Keys == s.sets.Keys
            && forall other :: other in t.sets ==> t.sets[other] == if other == index then s.sets[other] - {id} else s.sets[other]
  {
  }

  /** The failure was selected for this request: it was kept from the entries read under the
      request's own options or, if it was selected again, under the resolved ones; and it matches. */
  predicate SelectedFor(original: Request, selection: Selection, failure: Impact) {
    && KeptJob(original, selection) == Some(failure)
    && MatchesRequest(failure, selection.entries, RequestOf(original, selection.resolution))
  }

  /** DELETE is safe whatever other requests do: a step that changes the cache at all finds the
      record still holding exactly the failure that was selected for the request and checked; it
      removes that record with its two index entries, touches nothing else, and is the last to
      change the cache. */
  lemma DeleteIsSafe(start: Deletion, ds: seq<Deletion>, caches: seq<Cache>, answers: seq<Answer>, i: nat)
    requires IsDeletion(start, ds, caches, answers) && i < |answers|
    ensures var after := StepCache(ds[i], caches[i], answers[i]);
            after != caches[i] ==>
              && ds[i].phase.Removing?
              && SelectedFor(start.original, ds[i].phase.selection, ds[i].phase.failure)
              && Removable(ds[i].phase.failure, ds[i].phase.checkedAt)
              && Decoded(Get(caches[i], RecordKey(ds[i].phase.id))) == Some(ds[i].phase.failure)
              && OnlyRemoves(caches[i], after, ds[i].phase.id, IndexOf(ds[i].phase.failure))
              && ds[i + 1].phase == Done(if answers[i].fault then Raised else Deleted(ds[i].phase.id))
  {
    RunKeepsSound(Keeping(start.original), start, ds, caches, answers, i);
    var d := ds[i];
    if StepCache(d, caches[i], answers[i]) != caches[i] {
      RemovalOnlyRemoves(caches[i], d.phase.failure, d.phase.id, d.phase.value);
      KeptJobMatches(start.original, d.phase.selection);
    }
  }

  // ---- What was read ----

  /** The identifiers are what the index listed, and each entry what its record held, at some step before. */
  ghost predicate WasRead(caches: seq<Cache>, i: nat, index: Key, ids: seq<nat>, entries: Entries)
    requires i <= |caches|
  {
    && WereListed(caches, i, index, ids)
    && |entries| <= |ids|
    && forall j :: 0 <= j < |entries| ==> WasHeld(caches, i, ids[j], entries[j])
  }

  ghost predicate WereListed(caches: seq<Cache>, i: nat, index: Key, ids: seq<nat>)
    requires i <= |caches|
  {
    exists k :: 0 <= k < i && ids == IndexIds(caches[k], index)
  }

  ghost predicate WasHeld(caches: seq<Cache>, i: nat, id: nat, entry: (nat, Option<Stored>))
    requires i <= |caches|
  {
    exists k :: 0 <= k < i && entry == (id, Get(caches[k], RecordKey(id)))
  }

  ghost predicate SelectionWasRead(caches: seq<Cache>, i: nat, original: Request, selection: Selection)
    requires i <= |caches|
  {
    selection.entries == [] || WasRead(caches, i, ScopeIndexOf(original), selection.ids, selection.entries)
  }

  /** What the phase's selection read, once there is one. */
  function SelectionOf(phase: Phase): Option<Selection> {
    if phase.Listing? || phase.Done? then None else Some(phase.selection)
  }

  ghost predicate PhaseWasRead(caches: seq<Cache>, i: nat, original: Request, phase: Phase)
    requires i <= |caches|
  {
    && (phase.Reading? ==> WasRead(caches, i, ScopeIndexOf(original), phase.selection.ids, phase.selection.entries))
    && (SelectionOf(phase).Some? ==> SelectionWasRead(caches, i, original, SelectionOf(phase).value))
  }

  lemma WasReadLater(caches: seq<Cache>, i: nat, index: Key, ids: seq<nat>, entries: Entries)
    requires i < |caches| && WasRead(caches, i, index, ids, entries)
    ensures WasRead(caches, i + 1, index, ids, entries)
  {
    forall j | 0 <= j < |entries| ensures WasHeld(caches, i + 1, ids[j], entries[j]) {
      assert WasHeld(caches, i, ids[j], entries[j]);
    }
  }

  lemma ReadingOne(caches: seq<Cache>, i: nat, index: Key, ids: seq<nat>, entries: Entries)
    requires i < |caches| && WasRead(caches, i, index, ids, entries) && |entries| < |ids|
    ensures WasRead(caches, i + 1, index, ids, ReadNext(caches[i], ids, entries))
  {
    var id := ids[|entries|];
    WasReadLater(caches, i, index, ids, entries);
    HeldNow(caches, i, id);
    ReadFurther(caches, i + 1, index, ids, entries, (id, Get(caches[i], RecordKey(id))));
  }

  lemma HeldNow(caches: seq<Cache>, i: nat, id: nat)
    requires i < |caches|
    ensures WasHeld(caches, i + 1, id, (id, Get(caches[i], RecordKey(id))))
  {
  }

  lemma ReadFurther(caches: seq<Cache>, i: nat, index: Key, ids: seq<nat>, entries: Entries, next: (nat, Option<Stored>))
    requires i <= |caches| && WasRead(caches, i, index, ids, entries) && |entries| < |ids|
    requires WasHeld(caches, i, ids[|entries|], next)
    ensures WasRead(caches, i, index, ids, entries + [next])
  {
    var more := entries + [next];
    forall j | 0 <= j < |more| ensures WasHeld(caches, i, ids[j], more[j]) {
      if j < |entries| { assert more[j] == entries[j]; }
    }
  }

  lemma SelectionWasReadLater(caches: seq<Cache>, i: nat, original: Request, sel: Selection)
    requires i < |caches| && SelectionWasRead(caches, i, original, sel)
    ensures SelectionWasRead(caches, i + 1, original, sel)
  {
    if sel.entries != [] { WasReadLater(caches, i, ScopeIndexOf(original), sel.ids, sel.entries); }
  }

  /** Only listing starts a selection and only reading adds to it; the other steps keep it. */
  lemma StepKeepsSelection(keeps: Selection -> Option<Impact>, d: Deletion, s: Cache, answer: Answer)
    ensures var next := Step(keeps, d, s, answer).phase;
            if next.Reading? then
              || (d.phase.Listing? && next.selection.ids == IndexIds(s, ScopeIndexOf(d.original)) && next.selection.entries == [])
              || (d.phase.Reading? && |d.phase.selection.entries| < |d.phase.selection.ids|
                  && next.selection.ids == d.phase.selection.ids
                  && next.selection.entries == ReadNext(s, d.phase.selection.ids, d.phase.selection.entries))
            else
              SelectionOf(next).Some? ==> SelectionOf(next).value.entries == [] || SelectionOf(next) == SelectionOf(d.phase)
  {
  }

  lemma ListedNow(caches: seq<Cache>, i: nat, index: Key)
    requires i < |caches|
    ensures WasRead(caches, i + 1, index, IndexIds(caches[i], index), [])
  {
  }

  lemma NextWasRead(keeps: Selection -> Option<Impact>, d: Deletion, caches: seq<Cache>, i: nat, next: Phase, answer: Answer)
    requires i < |caches| && PhaseWasRead(caches, i, d.original, d.phase)
    requires next == Step(keeps, d, caches[i], answer).phase
    ensures PhaseWasRead(caches, i + 1, d.original, next)
  {
    StepKeepsSelection(keeps, d, caches[i], answer);
    if next.Reading? {
      if d.phase.Listing? {
        ListedNow(caches, i, ScopeIndexOf(d.original));
      } else {
        ReadingOne(caches, i, ScopeIndexOf(d.original), d.phase.selection.ids, d.phase.selection.entries);
      }
    } else if SelectionOf(next).Some? && SelectionOf(next).value.entries != [] {
      SelectionWasReadLater(caches, i, d.original, SelectionOf(next).value);
    }
  }

  lemma {:induction false} RunWasRead(keeps: Selection -> Option<Impact>, start: Deletion, ds: seq<Deletion>,
                                       caches: seq<Cache>, answers: seq<Answer>, i: nat)
    requires IsRun(keeps, start, ds, caches, answers) && i < |ds|
    ensures PhaseWasRead(caches, i, start.original, ds[i].phase)
  {
    if i > 0 {
      RunWasRead(keeps, start, ds, caches, answers, i - 1);
      RunKeepsSound(keeps, start, ds, caches, answers, i - 1);
      NextWasRead(keeps, ds[i - 1], caches, i - 1, ds[i].phase, answers[i - 1]);
    }
  }

  lemma {:induction false} FoundIsEntry(entries: Entries, impact: Impact)
    requires impact in Found(entries)
    ensures exists j :: 0 <= j < |entries| && Decoded(entries[j].1) == Some(impact)
  {
    var n := |entries| - 1;
    if Decoded(entries[n].1) != Some(impact) {
      FoundIsEntry(entries[..n], impact);
      var j :| 0 <= j < n && Decoded(entries[..n][j].1) == Some(impact);
      assert entries[j] == entries[..n][j];
    }
  }

  /** The removed failure is of the request's own scope and cache version, and its hash is the
      request's or extends it, wherever the caches that the DELETE saw keep records and scope
      indexes to their jobs, as every run of the service does. */
  lemma RemovedFailureIsTheRequests(jobs: nat -> Identity, start: Deletion, ds: seq<Deletion>, caches: seq<Cache>,
                                    answers: seq<Answer>, i: nat)
    requires IsDeletion(start, ds, caches, answers) && i < |answers|
    requires forall k :: 0 <= k < |caches| ==> Consistent(jobs, caches[k])
    requires StepCache(ds[i], caches[i], answers[i]) != caches[i]
    ensures var failure, resolution := ds[i].phase.failure, ds[i].phase.selection.resolution;
            && IsIn(IdentityOf(failure), start.original.scope, start.original.apiVersion)
            && HashMatches(failure, RequestOf(start.original, resolution))
  {
    DeleteIsSafe(start, ds, caches, answers, i);
    RunWasRead(Keeping(start.original), start, ds, caches, answers, i);
    var sel, failure := ds[i].phase.selection, ds[i].phase.failure;
    FoundIsEntry(sel.entries, failure);
    var j :| 0 <= j < |sel.entries| && Decoded(sel.entries[j].1) == Some(failure);
    ReadRecordIsInScope(jobs, caches, i, start.original, sel, j);
  }

  lemma ReadRecordIsInScope(jobs: nat -> Identity, caches: seq<Cache>, i: nat, original: Request, sel: Selection, j: nat)
    requires i <= |caches| && WasRead(caches, i, ScopeIndexOf(original), sel.ids, sel.entries) && j < |sel.entries|
    requires forall k :: 0 <= k < |caches| ==> Consistent(jobs, caches[k])
    ensures var record := Decoded(sel.entries[j].1);
            record.Some? ==> IsIn(IdentityOf(record.value), original.scope, original.apiVersion)
  {
    var id := sel.ids[j];
    var listed :| 0 <= listed < i && sel.ids == IndexIds(caches[listed], ScopeIndexOf(original));
    assert WasHeld(caches, i, id, sel.entries[j]);
    var held :| 0 <= held < i && sel.entries[j] == (id, Get(caches[held], RecordKey(id)));
    ListedIsMember(caches[listed], ScopeIndexOf(original), id);
    assert id in MembersOf(caches[listed], ScopeIndex(original.scope, original.apiVersion));
    assert RecordIsOf(jobs(id), id, Decoded(Get(caches[held], RecordKey(id))));
  }

  // ---- Nothing found means everything was read ----

  /** Once done, a DELETE stays as it is. */
  lemma {:induction false} DoneStays(keeps: Selection -> Option<Impact>, start: Deletion, ds: seq<Deletion>,
                                       caches: seq<Cache>, answers: seq<Answer>, i: nat, j: nat)
    requires IsRun(keeps, start, ds, caches, answers) && i <= j < |ds| && ds[i].phase.Done?
    ensures ds[j] == ds[i]
  {
    if i < j { DoneStays(keeps, start, ds, caches, answers, i, j - 1); }
  }

  /** Inside the block in which lookups fail closed, every answer but an exception means that no
      store access failed on the way to it: an outage is never reported as nothing stored. */
  lemma OutagesAreNotMissingRecords(start: Deletion, ds: seq<Deletion>, caches: seq<Cache>, answers: seq<Answer>, i: nat, j: nat)
    requires IsDeletion(start, ds, caches, answers) && start.failClosed && i <= j < |answers|
    requires ds[j + 1].phase.Done? && ds[j + 1].phase.ending != Raised
    ensures UsesStore(ds[i].phase) ==> !answers[i].fault
  {
    RunKeepsSound(Keeping(start.original), start, ds, caches, answers, i);
    if UsesStore(ds[i].phase) && answers[i].fault {
      DoneStays(Keeping(start.original), start, ds, caches, answers, i + 1, j + 1);
    }
  }

  lemma NothingFoundInNothing(original: Request, resolution: Option<Resolution>)
    ensures KeptJob(original, Selection(resolution, [], [])).None?
  {
    KeptJobMatches(original, Selection(resolution, [], []));
  }

  /** Outside the block an outage reads as nothing stored, whatever the cache holds: with lookups
      that fail open, a single failed read ends the same selection in not found. */
  lemma OpenLookupsHideOutages(d: Deletion, s: Cache, answer: Answer)
    requires Selects(d.phase) && answer.fault
    ensures Step(Keeping(d.original), d, s, answer).phase == Done(if d.failClosed then Raised else NotFound)
  {
    NothingFoundInNothing(d.original, if d.phase.Listing? then d.phase.resolution else d.phase.selection.resolution);
  }

  /** Not found is answered only from a selection that read everything its index listed and found
      no match: nothing that extends the request's hash or, selected again, nothing with exactly
      the resolved one. */
  lemma NotFoundMeansNoMatch(start: Deletion, ds: seq<Deletion>, caches: seq<Cache>, answers: seq<Answer>, i: nat, other: Impact)
    requires IsDeletion(start, ds, caches, answers) && start.failClosed && i < |answers|
    requires !ds[i].phase.Done? && ds[i + 1].phase == Done(NotFound)
    ensures ds[i].phase.Reading? && |ds[i].phase.selection.entries| == |ds[i].phase.selection.ids|
    ensures WasRead(caches, i, ScopeIndexOf(start.original), ds[i].phase.selection.ids, ds[i].phase.selection.entries)
    ensures var selection := ds[i].phase.selection;
            var request := RequestOf(start.original, selection.resolution);
            if selection.resolution.None? then !MatchesRequest(other, selection.entries, request)
            else other in Found(selection.entries) ==> other.optionsHash != Some(request.optionsHash)
  {
    RunKeepsSound(Keeping(start.original), start, ds, caches, answers, i);
    RunWasRead(Keeping(start.original), start, ds, caches, answers, i);
    OnlySelectionsEndInNotFound(Keeping(start.original), ds[i], caches[i], answers[i]);
    NothingKeptMeansNoMatch(start.original, ds[i].phase.selection, other);
  }

  lemma OnlySelectionsEndInNotFound(keeps: Selection -> Option<Impact>, d: Deletion, s: Cache, answer: Answer)
    requires Sound(keeps, d) && d.failClosed && !d.phase.Done? && Step(keeps, d, s, answer).phase == Done(NotFound)
    ensures d.phase.Reading? && |d.phase.selection.entries| == |d.phase.selection.ids|
    ensures keeps(d.phase.selection).None?
  {
  }

  lemma NothingKeptMeansNoMatch(original: Request, selection: Selection, other: Impact)
    requires KeptJob(original, selection).None?
    ensures var request := RequestOf(original, selection.resolution);
            if selection.resolution.None? then !MatchesRequest(other, selection.entries, request)
            else other in Found(selection.entries) ==> other.optionsHash != Some(request.optionsHash)
  {
    var request := RequestOf(original, selection.resolution);
    MostRecentIsBest(selection.entries, request, other);
    if other in Found(selection.entries) && other.optionsHash == Some(request.optionsHash) {
      ExactIsKept(selection.entries, request, other);
    }
  }

  // ---- At most three attempts ----

  const ATTEMPT_STEPS: nat := 3 * REFORM_IMPACT_INDEX_LIMIT + 9

  /** The most steps that a phase's attempt still has before it. */
  function PhaseSteps(phase: Phase): int {
    match phase
    case Listing(resolution) => if resolution.Some? then 2 * REFORM_IMPACT_INDEX_LIMIT + 6 else ATTEMPT_STEPS
    case Reading(sel) => SelectingSteps(sel.resolution.Some?) + |sel.ids| - |sel.entries|
    case Resolving(_, _) => 2 * REFORM_IMPACT_INDEX_LIMIT + 7
    case Checking(_, _) => REFORM_IMPACT_INDEX_LIMIT + 4
    case FailureListing(_, _, _) => REFORM_IMPACT_INDEX_LIMIT + 3
    case FailureReading(_, _, _, ids, entries) => 2 + |ids| - |entries|
    case Removing(_, _, _, _, _) => 1
    case Done(_) => 0
  }

  function SelectingSteps(refreshed: bool): int {
    if refreshed then REFORM_IMPACT_INDEX_LIMIT + 5 else 2 * REFORM_IMPACT_INDEX_LIMIT + 8
  }

  function LaterAttemptSteps(attempt: nat): int {
    if attempt == 0 then ATTEMPT_STEPS + ATTEMPT_STEPS else if attempt == 1 then ATTEMPT_STEPS else 0
  }

  function StepsLeft(d: Deletion): int {
    if d.phase.Done? then 0 else LaterAttemptSteps(d.attempt) + PhaseSteps(d.phase)
  }

  lemma StepsRemain(keeps: Selection -> Option<Impact>, d: Deletion)
    requires Sound(keeps, d)
    ensures d.phase.Done? <==> StepsLeft(d) < 1
    ensures StepsLeft(d) >= 0
  {
  }

  lemma SelectionSteps(selection: Selection, kept: Option<Impact>)
    ensures PhaseSteps(AfterSelection(selection, kept)) < SelectingSteps(selection.resolution.Some?)
  {
  }

  lemma ResolvingSteps(selection: Selection, impact: Impact, resolution: Option<Resolution>)
    ensures PhaseSteps(AfterResolving(selection, impact, resolution)) < 2 * REFORM_IMPACT_INDEX_LIMIT + 7
  {
  }

  lemma PhaseCountsDown(keeps: Selection -> Option<Impact>, d: Deletion, next: Phase)
    requires Sound(keeps, d) && !d.phase.Done? && (PhaseSteps(next) < PhaseSteps(d.phase) || next.Done?)
    ensures StepsLeft(d.(phase := next)) < StepsLeft(d)
  {
  }

  lemma RetryCountsDown(keeps: Selection -> Option<Impact>, d: Deletion)
    requires Sound(keeps, d) && (d.phase.FailureReading? || d.phase.Removing?)
    ensures StepsLeft(Retried(d)) < StepsLeft(d)
  {
  }

  lemma StepsCountDown(keeps: Selection -> Option<Impact>, d: Deletion, s: Cache, answer: Answer)
    requires Sound(keeps, d) && !d.phase.Done?
    ensures StepsLeft(Step(keeps, d, s, answer)) < StepsLeft(d)
  {
    if UsesStore(d.phase) && answer.fault {
      if Selects(d.phase) && !d.failClosed { SelectionSteps(NothingRead(d.phase), keeps(NothingRead(d.phase))); }
      PhaseCountsDown(keeps, d, AfterFault(keeps, d));
    } else {
      match d.phase
      case Reading(sel) =>
        SelectionSteps(sel, keeps(sel));
        PhaseCountsDown(keeps, d, Step(keeps, d, s, answer).phase);
      case Resolving(sel, impact) =>
        ResolvingSteps(sel, impact, answer.resolution);
        PhaseCountsDown(keeps, d, Step(keeps, d, s, answer).phase);
      case FailureReading(_, _, _, _, _) => RetryCountsDown(keeps, d);
      case Removing(_, _, _, _, _) => RetryCountsDown(keeps, d);
      case _ => PhaseCountsDown(keeps, d, Step(keeps, d, s, answer).phase);
    }
  }

  predicate WithinBudget(d: Deletion, steps: nat) { d.phase.Done? || StepsLeft(d) + steps <= 3 * ATTEMPT_STEPS }

  lemma StepStaysWithinBudget(keeps: Selection -> Option<Impact>, d: Deletion, s: Cache, answer: Answer, steps: nat)
    requires Sound(keeps, d) && WithinBudget(d, steps)
    ensures WithinBudget(Step(keeps, d, s, answer), steps + 1)
  {
    if !d.phase.Done? { StepsCountDown(keeps, d, s, answer); }
  }

  lemma {:induction false} RunCountsDown(keeps: Selection -> Option<Impact>, start: Deletion, ds: seq<Deletion>,
                                       caches: seq<Cache>, answers: seq<Answer>, i: nat)
    requires IsRun(keeps, start, ds, caches, answers) && i < |ds|
    ensures WithinBudget(ds[i], i)
  {
    if i > 0 {
      RunCountsDown(keeps, start, ds, caches, answers, i - 1);
      RunKeepsSound(keeps, start, ds, caches, answers, i - 1);
      StepStaysWithinBudget(keeps, ds[i - 1], caches[i - 1], answers[i - 1], i - 1);
    }
  }

  /** The loop ends, after at most three attempts, however often the record changes meanwhile. */
  lemma DeletionEnds(start: Deletion, ds: seq<Deletion>, caches: seq<Cache>, answers: seq<Answer>, i: nat)
    requires IsDeletion(start, ds, caches, answers) && i < |ds|
    ensures ds[i].attempt < FAILED_IMPACT_DELETE_ATTEMPTS
    ensures i >= 3 * ATTEMPT_STEPS ==> ds[i].phase.Done?
  {
    RunKeepsSound(Keeping(start.original), start, ds, caches, answers, i);
    RunCountsDown(Keeping(start.original), start, ds, caches, answers, i);
    StepsRemain(Keeping(start.original), ds[i]);
  }
}
