/** Stored reform impacts: expiring records found through bounded, expiring indexes. */
module ReformImpacts {
  import opened Outcome
  import opened CacheStore
  import opened BoundedIndex
  import opened WorkerCertification

  const REFORM_IMPACT_TTL_SECONDS := 2_592_000
  const REFORM_IMPACT_INDEX_LIMIT: nat := 1_000

  datatype Scope = Scope(
    countryId: string,
    reformPolicyId: int,
    baselinePolicyId: int,
    region: string,
    dataset: string,
    timePeriod: string)

  datatype Identity = Identity(scope: Scope, apiVersion: string, optionsHash: Option<string>)

  datatype Status = Computing | Finished | Failed | Other(name: string)

  /** A stored job. Jobs are named by the digests of their record keys; `result` is the stored
      result, as far as certification reads it. */
  datatype Impact = Impact(
    reformImpactId: nat,
    scope: Scope,
    apiVersion: string,
    optionsHash: Option<string>,
    status: Status,
    resolvedAppName: Option<string>,
    startTime: Option<real>,
    endTime: Option<real>,
    executionId: Option<nat>,
    errorCode: Option<string>,
    result: WorkerResult)

  datatype Claim = Claim(token: string, observabilityId: string)

  /** Keys are hashes of these inputs; distinct inputs are taken to have distinct hashes. */
  datatype Key =
    | RecordKey(id: nat)
    | ScopeIndex(scope: Scope, apiVersion: string)
    | RecentIndex
    | StartClaimKey(identity: Identity, target: string)

  /** What a key holds: an envelope that decodes to an impact or a claim, or text that does not decode. */
  datatype Stored = ImpactStored(impact: Impact) | ClaimStored(claim: Claim) | Unreadable(text: string)

  type Cache = Store<Key, Stored>

  function Decoded(value: Option<Stored>): Option<Impact> {
    if value.Some? && value.value.ImpactStored? then Some(value.value.impact) else None
  }

  function IndexOf(impact: Impact): Key { ScopeIndex(impact.scope, impact.apiVersion) }

  // ---- Storing ----

  function Score(impact: Impact, clock: real): real {
    if impact.startTime.Some? then impact.startTime.value else clock
  }

  /** `record_ttl_seconds or ttl_seconds`. */
  function RecordTtl(recordTtl: Option<int>, ttl: int): int {
    if recordTtl.Some? && recordTtl.value != 0 then recordTtl.value else ttl
  }

  datatype Write = Write(
    impact: Impact,
    id: nat,
    ttl: int,
    recordTtl: Option<int>,
    scopeClock: real,
    recentClock: real,
    onlyIfPresent: bool)

  /** The entry's score; the clock is read once for each index. */
  function ScoreIn(w: Write, index: Key): real {
    Score(w.impact, if index == RecentIndex then w.recentClock else w.scopeClock)
  }

  predicate Lawful(w: Write) { w.ttl > 0 && RecordTtl(w.recordTtl, w.ttl) > 0 }

  function IndexCommands(index: Key, id: nat, score: real, ttl: int): seq<Command<Key, Stored>> {
    [AddCommand(index, id, score),
     RemoveRanksCommand(index, 0, -(REFORM_IMPACT_INDEX_LIMIT + 1)),
     ExpireCommand(index, ttl)]
  }

  function RecordCommand(w: Write): Command<Key, Stored> {
    SetCommand(RecordKey(w.id), ImpactStored(w.impact), Some(RecordTtl(w.recordTtl, w.ttl)), w.onlyIfPresent)
  }

  /** The transaction of `set`: the record, then its entry in each index. */
  function WriteCommands(w: Write): seq<Command<Key, Stored>> {
    [RecordCommand(w)]
    + IndexCommands(IndexOf(w.impact), w.id, ScoreIn(w, IndexOf(w.impact)), w.ttl)
    + IndexCommands(RecentIndex, w.id, ScoreIn(w, RecentIndex), w.ttl)
  }

  function Entered(s: Cache, index: Key, id: nat, score: real): map<nat, real> {
    Trimmed(MembersOf(s, index)[id := score], REFORM_IMPACT_INDEX_LIMIT)
  }

  function Indexed(s: Cache, index: Key, members: map<nat, real>, ttl: int): Cache {
    s.(sets := s.sets[index := members], expires := s.expires[index := s.now + ttl as real])
  }

  lemma PutTwice<T>(m: map<Key, T>, key: Key, a: T, b: T)
    ensures m[key := a][key := b] == m[key := b]
  {
  }

  /** Adding an entry and dropping the lowest beyond the limit. */
  lemma EnteringEffect(s: Cache, index: Key, id: nat, score: real)
    ensures RemoveRanks(AddMember(s, index, id, score), index, 0, -(REFORM_IMPACT_INDEX_LIMIT + 1))
         == s.(sets := s.sets[index := Entered(s, index, id, score)])
  {
    var members := MembersOf(s, index)[id := score];
    var added := AddMember(s, index, id, score);
    assert MembersOf(added, index) == members;
    PutTwice(s.sets, index, members, Entered(s, index, id, score));
  }

  lemma RenewingEffect(s: Cache, index: Key, members: map<nat, real>, ttl: int)
    requires ttl > 0
    ensures Expire(s.(sets := s.sets[index := members]), index, ttl) == Indexed(s, index, members, ttl)
  {
  }

  lemma EnteringApplied(s: Cache, index: Key, id: nat, score: real)
    ensures Apply(Apply(s, AddCommand(index, id, score)), RemoveRanksCommand(index, 0, -(REFORM_IMPACT_INDEX_LIMIT + 1)))
         == s.(sets := s.sets[index := Entered(s, index, id, score)])
  {
    EnteringEffect(s, index, id, score);
  }

  lemma RenewingApplied(s: Cache, index: Key, members: map<nat, real>, ttl: int)
    requires ttl > 0
    ensures Apply(s.(sets := s.sets[index := members]), ExpireCommand(index, ttl)) == Indexed(s, index, members, ttl)
  {
    RenewingEffect(s, index, members, ttl);
  }

  /** Indexing adds the entry, drops the lowest beyond the limit, and renews the index. */
  lemma IndexingEffect(s: Cache, index: Key, id: nat, score: real, ttl: int)
    requires ttl > 0
    ensures ApplyAll(s, IndexCommands(index, id, score, ttl)) == Indexed(s, index, Entered(s, index, id, score), ttl)
  {
    ThreeInTurn(s, AddCommand(index, id, score),
                RemoveRanksCommand(index, 0, -(REFORM_IMPACT_INDEX_LIMIT + 1)), ExpireCommand(index, ttl));
    EnteringApplied(s, index, id, score);
    RenewingApplied(s, index, Entered(s, index, id, score), ttl);
  }

  /** Whether the record is written: always, or only over one that is still there. */
  predicate Stores(s: Cache, w: Write) { w.onlyIfPresent ==> RecordKey(w.id) in s.values }

  /** The record's part of a `set`. */
  function Recorded(s: Cache, w: Write): Cache {
    if Stores(s, w) then
      s.(values := s.values[RecordKey(w.id) := ImpactStored(w.impact)],
         expires := s.expires[RecordKey(w.id) := s.now + RecordTtl(w.recordTtl, w.ttl) as real])
    else s
  }

  /** What the write leaves in one of its two indexes. */
  function EnteredBy(s: Cache, w: Write, index: Key): map<nat, real> { Entered(s, index, w.id, ScoreIn(w, index)) }

  /** The whole effect of a `set`. */
  function Wrote(s: Cache, w: Write): Cache {
    Indexed(Indexed(Recorded(s, w), IndexOf(w.impact), EnteredBy(s, w, IndexOf(w.impact)), w.ttl),
            RecentIndex, EnteredBy(s, w, RecentIndex), w.ttl)
  }

  /** The transaction writes the record at most, and enters it in its two indexes; it leaves
      every other key alone. */
  lemma WriteEffect(s: Cache, w: Write)
    requires Lawful(w)
    ensures ApplyAll(s, WriteCommands(w)) == Wrote(s, w)
    ensures Replies(s, WriteCommands(w))[0] == Stores(s, w)
  {
    var scopeIndex := IndexOf(w.impact);
    WriteInTurn(s, w);
    EnteredAfterRecording(s, w, EnteredBy(s, w, scopeIndex));
    IndexingBoth(Recorded(s, w), w, EnteredBy(s, w, scopeIndex), EnteredBy(s, w, RecentIndex));
    WriteReply(s, w);
  }

  lemma WriteInTurn(s: Cache, w: Write)
    requires Lawful(w)
    ensures ApplyAll(s, WriteCommands(w))
         == ApplyAll(ApplyAll(Recorded(s, w), IndexCommands(IndexOf(w.impact), w.id, ScoreIn(w, IndexOf(w.impact)), w.ttl)),
                     IndexCommands(RecentIndex, w.id, ScoreIn(w, RecentIndex), w.ttl))
  {
    var inScope := IndexCommands(IndexOf(w.impact), w.id, ScoreIn(w, IndexOf(w.impact)), w.ttl);
    ApplyInTurn(s, [RecordCommand(w)] + inScope, IndexCommands(RecentIndex, w.id, ScoreIn(w, RecentIndex), w.ttl));
    ApplyInTurn(s, [RecordCommand(w)], inScope);
    RecordingEffect(s, w);
  }

  lemma WriteReply(s: Cache, w: Write)
    ensures Replies(s, WriteCommands(w))[0] == Stores(s, w)
  {
    WritesRecordFirst(w);
    FirstReply(s, WriteCommands(w));
  }

  lemma EnteredAfterRecording(s: Cache, w: Write, members: map<nat, real>)
    ensures EnteredBy(Recorded(s, w), w, IndexOf(w.impact)) == EnteredBy(s, w, IndexOf(w.impact))
    ensures EnteredBy(Indexed(Recorded(s, w), IndexOf(w.impact), members, w.ttl), w, RecentIndex) == EnteredBy(s, w, RecentIndex)
  {
    var scopeIndex := IndexOf(w.impact);
    MembersAfterRecording(s, Recorded(s, w), scopeIndex, members, w.ttl);
    SameMembers(s, Recorded(s, w), w, scopeIndex);
    SameMembers(s, Indexed(Recorded(s, w), scopeIndex, members, w.ttl), w, RecentIndex);
  }

  lemma MembersAfterRecording(s: Cache, recorded: Cache, scopeIndex: Key, members: map<nat, real>, ttl: int)
    requires recorded.sets == s.sets && scopeIndex != RecentIndex
    ensures MembersOf(s, scopeIndex) == MembersOf(recorded, scopeIndex)
    ensures MembersOf(s, RecentIndex) == MembersOf(Indexed(recorded, scopeIndex, members, ttl), RecentIndex)
  {
  }

  lemma IndexingBoth(recorded: Cache, w: Write, ofScope: map<nat, real>, ofRecent: map<nat, real>)
    requires Lawful(w) && ofScope == EnteredBy(recorded, w, IndexOf(w.impact))
    requires ofRecent == EnteredBy(Indexed(recorded, IndexOf(w.impact), ofScope, w.ttl), w, RecentIndex)
    ensures ApplyAll(ApplyAll(recorded, IndexCommands(IndexOf(w.impact), w.id, ScoreIn(w, IndexOf(w.impact)), w.ttl)),
                     IndexCommands(RecentIndex, w.id, ScoreIn(w, RecentIndex), w.ttl))
         == Indexed(Indexed(recorded, IndexOf(w.impact), ofScope, w.ttl), RecentIndex, ofRecent, w.ttl)
  {
    IndexingEffect(recorded, IndexOf(w.impact), w.id, ScoreIn(w, IndexOf(w.impact)), w.ttl);
    IndexingEffect(Indexed(recorded, IndexOf(w.impact), ofScope, w.ttl), RecentIndex, w.id, ScoreIn(w, RecentIndex), w.ttl);
  }

  lemma RecordingEffect(s: Cache, w: Write)
    requires Lawful(w)
    ensures ApplyAll(s, [RecordCommand(w)]) == Recorded(s, w)
  {
    assert [RecordCommand(w)][..0] == [];
    assert ApplyAll(s, []) == s;
  }

  lemma SameMembers(s: Cache, t: Cache, w: Write, index: Key)
    requires MembersOf(s, index) == MembersOf(t, index)
    ensures EnteredBy(s, w, index) == EnteredBy(t, w, index)
  {
  }

  lemma WritesRecordFirst(w: Write)
    ensures |WriteCommands(w)| == 7 && WriteCommands(w)[0] == RecordCommand(w)
  {
  }

  /** What the transaction leaves in each part of the cache. */
  lemma WriteLeaves(s: Cache, w: Write)
    ensures Wrote(s, w).now == s.now
    ensures Wrote(s, w).values == if Stores(s, w) then s.values[RecordKey(w.id) := ImpactStored(w.impact)] else s.values
    ensures Wrote(s, w).sets
         == s.sets[IndexOf(w.impact) := EnteredBy(s, w, IndexOf(w.impact))][RecentIndex := EnteredBy(s, w, RecentIndex)]
  {
  }

  /** The transaction changes no value but its own record's. */
  lemma WriteValues(s: Cache, w: Write)
    requires Lawful(w)
    ensures ApplyAll(s, WriteCommands(w)).values
         == if Stores(s, w) then s.values[RecordKey(w.id) := ImpactStored(w.impact)] else s.values
  {
    WriteEffect(s, w);
    WriteLeaves(s, w);
  }

  lemma RecordingKeepsSettled(s: Cache, w: Write)
    requires Settled(s) && Lawful(w)
    ensures Settled(Recorded(s, w))
  {
  }

  lemma IndexingKeepsSettled(s: Cache, index: Key, members: map<nat, real>, ttl: int)
    requires Settled(s) && ttl > 0
    ensures Settled(Indexed(s, index, members, ttl))
  {
  }

  lemma WriteKeepsSettled(s: Cache, w: Write)
    requires Settled(s) && Lawful(w)
    ensures Settled(ApplyAll(s, WriteCommands(w)))
  {
    var members := EnteredBy(s, w, IndexOf(w.impact));
    WriteEffect(s, w);
    RecordingKeepsSettled(s, w);
    IndexingKeepsSettled(Recorded(s, w), IndexOf(w.impact), members, w.ttl);
    IndexingKeepsSettled(Indexed(Recorded(s, w), IndexOf(w.impact), members, w.ttl), RecentIndex,
                         EnteredBy(s, w, RecentIndex), w.ttl);
  }

  // ---- Looking up ----

  /** The records an index lists, newest first, with their stored values. */
  function IndexEntries(s: Cache, index: Key, limit: nat): (entries: seq<(nat, Option<Stored>)>)
  {
    var ids := RevRange(s, index, 0, if limit == 0 then 0 else limit - 1);
    seq(|ids|, i requires 0 <= i < |ids| => (ids[i], Get(s, RecordKey(ids[i]))))
  }

  /** The impacts among the entries; missing and unreadable records are skipped. */
  function Found(entries: seq<(nat, Option<Stored>)>): seq<Impact> {
    if entries == [] then []
    else
      var n := |entries| - 1;
      var impact := Decoded(entries[n].1);
      if impact.Some? then Found(entries[..n]) + [impact.value] else Found(entries[..n])
  }

  /** A lookup through the index finds this job's record. */
  ghost predicate Finds(s: Cache, index: Key, id: nat) {
    var entries := IndexEntries(s, index, REFORM_IMPACT_INDEX_LIMIT);
    exists i :: 0 <= i < |entries| && entries[i].0 == id && Decoded(entries[i].1).Some?
  }

  lemma FindsListed(s: Cache, index: Key, id: nat)
    ensures Finds(s, index, id)
       <==> id in RevRange(s, index, 0, REFORM_IMPACT_INDEX_LIMIT - 1) && Decoded(Get(s, RecordKey(id))).Some?
  {
    var ids := RevRange(s, index, 0, REFORM_IMPACT_INDEX_LIMIT - 1);
    var entries := IndexEntries(s, index, REFORM_IMPACT_INDEX_LIMIT);
    if id in ids && Decoded(Get(s, RecordKey(id))).Some? {
      var i :| 0 <= i < |ids| && ids[i] == id;
      assert entries[i].0 == id && Decoded(entries[i].1).Some?;
    }
  }

  // ---- How long a lookup keeps finding a record ----

  /** Python's `math.ceil(milliseconds / 1000)`. */
  function WholeSeconds(milliseconds: int): int { -((-milliseconds) / 1000) }

  function SecondsLeft(s: Cache, impact: Impact): Option<int> {
    if impact.executionId.None? then None
    else
      var recordMilliseconds := Pttl(s, RecordKey(impact.executionId.value));
      var indexMilliseconds := Pttl(s, IndexOf(impact));
      if recordMilliseconds < 0 then None
      else if indexMilliseconds == PTTL_NO_EXPIRY then Some(WholeSeconds(recordMilliseconds))
      else if indexMilliseconds < 0 then Some(0)
      else
        Some(WholeSeconds(if recordMilliseconds < indexMilliseconds then recordMilliseconds else indexMilliseconds))
  }

  /** Rounding up to milliseconds and then to seconds is rounding up to seconds. */
  lemma NestedCeilings(left: real, wait: int)
    ensures wait < WholeSeconds(Ceiling(left * 1000.0)) <==> wait as real < left
  {
    var milliseconds := Ceiling(left * 1000.0);
    assert (milliseconds - 1) as real < left * 1000.0 <= milliseconds as real;
    var seconds := WholeSeconds(milliseconds);
    assert 1000 * (seconds - 1) < milliseconds <= 1000 * seconds;
    if wait < seconds {
      assert 1000 * wait <= milliseconds - 1;
      assert (1000 * wait) as real <= (milliseconds - 1) as real;
    } else {
      assert milliseconds <= 1000 * wait;
      assert milliseconds as real <= (1000 * wait) as real;
    }
  }

  lemma MinWholeSeconds(a: int, b: int, wait: int)
    ensures wait < WholeSeconds(if a < b then a else b) <==> wait < WholeSeconds(a) && wait < WholeSeconds(b)
  {
  }

  /** After `wait` seconds with no further writes, a key is there exactly if it does not expire by then. */
  predicate Lasts(s: Cache, key: Key, wait: real) { key in s.expires ==> wait < s.expires[key] - s.now }

  lemma EmptyIndexLists(s: Cache, index: Key)
    ensures index !in s.sets ==> RevRange(s, index, 0, REFORM_IMPACT_INDEX_LIMIT - 1) == []
  {
    assert |Ranked(map[])| == 0;
  }

  lemma FoundAfter(s: Cache, index: Key, id: nat, wait: real)
    requires Finds(s, index, id)
    ensures Finds(Advance(s, wait), index, id) <==> Lasts(s, RecordKey(id), wait) && Lasts(s, index, wait)
  {
    var later := Advance(s, wait);
    FindsListed(s, index, id);
    FindsListed(later, index, id);
    if !Lasts(s, index, wait) {
      EmptyIndexLists(later, index);
    } else {
      assert MembersOf(later, index) == MembersOf(s, index);
    }
  }

  lemma SecondsLeftIsEarlierExpiry(s: Cache, impact: Impact, wait: nat)
    requires Settled(s) && impact.executionId.Some? && RecordKey(impact.executionId.value) in s.expires
    requires IndexOf(impact) in s.sets
    ensures SecondsLeft(s, impact).Some?
    ensures wait < SecondsLeft(s, impact).value
       <==> Lasts(s, RecordKey(impact.executionId.value), wait as real) && Lasts(s, IndexOf(impact), wait as real)
  {
    var record, index := RecordKey(impact.executionId.value), IndexOf(impact);
    NestedCeilings(s.expires[record] - s.now, wait);
    assert Pttl(s, record) >= 0;
    if index in s.expires {
      NestedCeilings(s.expires[index] - s.now, wait);
      MinWholeSeconds(Pttl(s, record), Pttl(s, index), wait);
      assert Pttl(s, index) >= 0;
    }
  }

  /** The reported wait is the least whole number of seconds after which a lookup no longer finds
      the record, for every record with an expiry that a lookup finds now. */
  lemma SecondsLeftAgreesWithLookup(s: Cache, impact: Impact, wait: nat)
    requires Settled(s) && impact.executionId.Some? && RecordKey(impact.executionId.value) in s.expires
    requires Finds(s, IndexOf(impact), impact.executionId.value)
    ensures SecondsLeft(s, impact).Some?
    ensures Finds(Advance(s, wait as real), IndexOf(impact), impact.executionId.value)
       <==> wait < SecondsLeft(s, impact).value
  {
    var index := IndexOf(impact);
    FoundAfter(s, index, impact.executionId.value, wait as real);
    FindsListed(s, index, impact.executionId.value);
    EmptyIndexLists(s, index);
    SecondsLeftIsEarlierExpiry(s, impact, wait);
  }

  /** There is no answer exactly when the job has no handle, or its record is missing or never
      expires; and the answer is 0 exactly when the record has an expiry but its index is gone. */
  lemma NoSecondsLeft(s: Cache, impact: Impact)
    requires Settled(s)
    ensures SecondsLeft(s, impact).None?
       <==> impact.executionId.None? || RecordKey(impact.executionId.value) !in s.expires
    ensures SecondsLeft(s, impact) == Some(0)
       <==> impact.executionId.Some? && RecordKey(impact.executionId.value) in s.expires && !Present(s, IndexOf(impact))
  {
    if impact.executionId.Some? && RecordKey(impact.executionId.value) in s.expires {
      NestedCeilings(s.expires[RecordKey(impact.executionId.value)] - s.now, 0);
      if IndexOf(impact) in s.expires { NestedCeilings(s.expires[IndexOf(impact)] - s.now, 0); }
    }
  }

  // ---- Every run of the cache ----

  /** The atomic steps that requests take on the cache, in any order. A rewrite is the second
      half of an update, whatever the first half read and however long ago. */
  datatype Step =
    | Create(write: Write)
    | Rewrite(write: Write)
    | DeleteFailure(id: nat, scope: Scope, apiVersion: string, expected: Stored)
    | DeleteComputing(impact: Impact, id: nat)
    | ClaimStart(key: Key, claim: Claim)
    | ReleaseStart(key: Key, claim: Claim)
    | Tick(seconds: real)

  const REFORM_IMPACT_START_CLAIM_TTL_SECONDS := 300

  predicate LawfulStep(step: Step) {
    match step
    case Create(w) => Lawful(w) && !w.onlyIfPresent
    case Rewrite(w) => Lawful(w) && w.onlyIfPresent
    case ClaimStart(key, _) => key.StartClaimKey?
    case ReleaseStart(key, _) => key.StartClaimKey?
    case Tick(seconds) => seconds >= 0.0
    case _ => true
  }

  function DeleteComputingCommands(impact: Impact, id: nat): seq<Command<Key, Stored>> {
    [DeleteCommand(RecordKey(id)), RemoveCommand(IndexOf(impact), id), RemoveCommand(RecentIndex, id)]
  }

  function Next(s: Cache, step: Step): Cache {
    match step
    case Create(w) => ApplyAll(s, WriteCommands(w))
    case Rewrite(w) => ApplyAll(s, WriteCommands(w))
    case DeleteFailure(id, scope, apiVersion, expected) =>
      DeleteUnchanged(s, RecordKey(id), id, ScopeIndex(scope, apiVersion), RecentIndex, expected).0
    case DeleteComputing(impact, id) => ApplyAll(s, DeleteComputingCommands(impact, id))
    case ClaimStart(key, claim) =>
      SetValue(s, key, ClaimStored(claim), Some(REFORM_IMPACT_START_CLAIM_TTL_SECONDS), true, false).0
    case ReleaseStart(key, claim) => CompareAndDelete(s, key, ClaimStored(claim)).0
    case Tick(seconds) => Advance(s, seconds)
  }

  /** The states of a run, from the first. */
  ghost predicate IsRun(states: seq<Cache>, steps: seq<Step>) {
    && |states| == |steps| + 1
    && forall i :: 0 <= i < |steps| ==> LawfulStep(steps[i]) && states[i + 1] == Next(states[i], steps[i])
  }

  lemma DeleteComputingEffect(s: Cache, impact: Impact, id: nat)
    ensures ApplyAll(s, DeleteComputingCommands(impact, id))
         == RemoveMembers(RemoveMembers(Delete(s, {RecordKey(id)}), IndexOf(impact), {id}), RecentIndex, {id})
  {
    var commands := DeleteComputingCommands(impact, id);
    ThreeInTurn(s, commands[0], commands[1], commands[2]);
  }

  // ---- Records and indexes keep to their jobs ----

  function IdentityOf(impact: Impact): Identity { Identity(impact.scope, impact.apiVersion, impact.optionsHash) }

  /** Every record is of the calculation that its execution identifier was given to, and every
      scope index lists such records only. `jobs` says which calculation that is. */
  ghost predicate Consistent(jobs: nat -> Identity, s: Cache) {
    && (forall id :: RecordIsOf(jobs(id), id, Decoded(Get(s, RecordKey(id)))))
    && forall scope, apiVersion, id :: id in MembersOf(s, ScopeIndex(scope, apiVersion)) ==>
                                         IsIn(jobs(id), scope, apiVersion)
  }

  predicate RecordIsOf(identity: Identity, id: nat, record: Option<Impact>) {
    record.Some? ==>
      && IdentityOf(record.value) == identity
      && (record.value.executionId.Some? ==> record.value.executionId.value == id)
  }

  predicate IsIn(identity: Identity, scope: Scope, apiVersion: string) {
    identity.scope == scope && identity.apiVersion == apiVersion
  }

  lemma ListedIsMember(s: Cache, index: Key, id: nat)
    ensures id in RevRange(s, index, 0, REFORM_IMPACT_INDEX_LIMIT - 1) ==> id in MembersOf(s, index)
  {
    var ids := Ranked(MembersOf(s, index));
    if id in RevRange(s, index, 0, REFORM_IMPACT_INDEX_LIMIT - 1) { assert id in Reversed(ids) && id in ids; }
  }

  /** A step that is no write leaves every record as it is or removes it, and enters nothing into an index. */
  lemma OtherStepsOnlyRemove(s: Cache, step: Step, id: nat, index: Key, member: nat)
    requires LawfulStep(step) && !step.Create? && !step.Rewrite?
    ensures Get(Next(s, step), RecordKey(id)) == Get(s, RecordKey(id)) || Get(Next(s, step), RecordKey(id)).None?
    ensures member in MembersOf(Next(s, step), index) ==> member in MembersOf(s, index)
  {
    match step
    case DeleteComputing(impact, other) => DeleteComputingEffect(s, impact, other);
    case _ =>
  }

  /** A write of the job's own record keeps the cache consistent. */
  lemma WriteKeepsConsistent(jobs: nat -> Identity, s: Cache, w: Write)
    requires Consistent(jobs, s) && Lawful(w) && RecordIsOf(jobs(w.id), w.id, Some(w.impact))
    ensures Consistent(jobs, ApplyAll(s, WriteCommands(w)))
  {
    var after := ApplyAll(s, WriteCommands(w));
    WriteValues(s, w);
    forall scope, apiVersion, id | id in MembersOf(after, ScopeIndex(scope, apiVersion))
      ensures IsIn(jobs(id), scope, apiVersion)
    {
      WriteIndexes(s, w, ScopeIndex(scope, apiVersion));
    }
  }

  lemma OtherStepsKeepConsistent(jobs: nat -> Identity, s: Cache, step: Step)
    requires Consistent(jobs, s) && LawfulStep(step) && !step.Create? && !step.Rewrite?
    ensures Consistent(jobs, Next(s, step))
  {
    forall id ensures RecordIsOf(jobs(id), id, Decoded(Get(Next(s, step), RecordKey(id)))) {
      OtherStepsOnlyRemove(s, step, id, RecentIndex, id);
    }
    forall scope, apiVersion, id | id in MembersOf(Next(s, step), ScopeIndex(scope, apiVersion))
      ensures IsIn(jobs(id), scope, apiVersion)
    {
      OtherStepsOnlyRemove(s, step, id, ScopeIndex(scope, apiVersion), id);
    }
  }

  // ---- Updates never resurrect ----

  /** Only creating a record brings it into being. */
  lemma OnlyCreateAdds(s: Cache, step: Step, id: nat)
    requires LawfulStep(step) && RecordKey(id) !in s.values && !(step.Create? && step.write.id == id)
    ensures RecordKey(id) !in Next(s, step).values
    ensures step.Rewrite? && step.write.id == id ==> !Stores(s, step.write)
  {
    match step
    case Create(w) => WriteValues(s, w);
    case Rewrite(w) => WriteValues(s, w);
    case DeleteComputing(impact, other) => DeleteComputingEffect(s, impact, other);
    case _ =>
  }

  /** Once a job's record is gone, then in every run that does not create it again it stays gone,
      every update of it reports failure, and no lookup finds it however the indexes point. */
  lemma {:induction false} UpdatesNeverResurrect(states: seq<Cache>, steps: seq<Step>, id: nat, i: nat)
    requires IsRun(states, steps) && i < |states|
    requires RecordKey(id) !in states[0].values
    requires forall j :: 0 <= j < i ==> !(steps[j].Create? && steps[j].write.id == id)
    ensures RecordKey(id) !in states[i].values
    ensures forall index :: !Finds(states[i], index, id)
    ensures i < |steps| && steps[i].Rewrite? && steps[i].write.id == id ==>
              Replies(states[i], WriteCommands(steps[i].write))[0] == false
  {
    if i > 0 {
      UpdatesNeverResurrect(states, steps, id, i - 1);
      OnlyCreateAdds(states[i - 1], steps[i - 1], id);
    }
    forall index ensures !Finds(states[i], index, id) { FindsListed(states[i], index, id); }
    if i < |steps| && steps[i].Rewrite? && steps[i].write.id == id {
      WriteEffect(states[i], steps[i].write);
    }
  }

  // ---- The indexes stay bounded, and keep the newest ----

  ghost predicate Bounded(s: Cache) {
    forall index :: index in s.sets ==> |s.sets[index]| <= REFORM_IMPACT_INDEX_LIMIT
  }

  lemma RemovingKeepsBounded(s: Cache, index: Key, ids: set<nat>)
    requires Bounded(s)
    ensures Bounded(RemoveMembers(s, index, ids))
  {
    if index in s.sets {
      var less := s.sets[index] - ids;
      SubsetCount(less.Keys, s.sets[index].Keys);
      assert |less| == |less.Keys|;
    }
  }

  lemma StepKeepsBounded(s: Cache, step: Step)
    requires Bounded(s) && LawfulStep(step)
    ensures Bounded(Next(s, step))
  {
    match step
    case Create(w) => WriteKeepsBounded(s, w);
    case Rewrite(w) => WriteKeepsBounded(s, w);
    case DeleteFailure(id, scope, apiVersion, expected) =>
      RemovingKeepsBounded(Delete(s, {RecordKey(id)}), ScopeIndex(scope, apiVersion), {id});
      RemovingKeepsBounded(RemoveMembers(Delete(s, {RecordKey(id)}), ScopeIndex(scope, apiVersion), {id}), RecentIndex, {id});
    case DeleteComputing(impact, id) =>
      DeleteComputingEffect(s, impact, id);
      RemovingKeepsBounded(Delete(s, {RecordKey(id)}), IndexOf(impact), {id});
      RemovingKeepsBounded(RemoveMembers(Delete(s, {RecordKey(id)}), IndexOf(impact), {id}), RecentIndex, {id});
    case _ =>
  }

  lemma WriteKeepsBounded(s: Cache, w: Write)
    requires Bounded(s) && Lawful(w)
    ensures Bounded(ApplyAll(s, WriteCommands(w)))
  {
    WriteEffect(s, w);
    WriteLeaves(s, w);
    EnteredWithinLimit(s, w, IndexOf(w.impact));
    EnteredWithinLimit(s, w, RecentIndex);
    TwoPutsKeepBounded(s, Wrote(s, w), IndexOf(w.impact), EnteredBy(s, w, IndexOf(w.impact)),
                       RecentIndex, EnteredBy(s, w, RecentIndex));
  }

  lemma EnteredWithinLimit(s: Cache, w: Write, index: Key)
    ensures |EnteredBy(s, w, index)| <= REFORM_IMPACT_INDEX_LIMIT
  {
    TrimmedCount(MembersOf(s, index)[w.id := ScoreIn(w, index)], REFORM_IMPACT_INDEX_LIMIT);
  }

  lemma TwoPutsKeepBounded(s: Cache, t: Cache, a: Key, ofA: map<nat, real>, b: Key, ofB: map<nat, real>)
    requires Bounded(s) && t.sets == s.sets[a := ofA][b := ofB]
    requires |ofA| <= REFORM_IMPACT_INDEX_LIMIT && |ofB| <= REFORM_IMPACT_INDEX_LIMIT
    ensures Bounded(t)
  {
  }

  /** In any run at all, no index ever exceeds its limit. */
  lemma {:induction false} IndexesNeverExceedLimit(states: seq<Cache>, steps: seq<Step>, i: nat)
    requires IsRun(states, steps) && i < |states| && states[0].sets == map[]
    ensures Bounded(states[i])
  {
    if i > 0 {
      IndexesNeverExceedLimit(states, steps, i - 1);
      StepKeepsBounded(states[i - 1], steps[i - 1]);
    }
  }

  /** What a step adds to an index. */
  function Additions(step: Step, index: Key): seq<Addition> {
    if (step.Create? || step.Rewrite?) && (index == RecentIndex || index == IndexOf(step.write.impact)) then
      [Addition(step.write.id, ScoreIn(step.write, index))]
    else []
  }

  function AllAdditions(steps: seq<Step>, index: Key): seq<Addition> {
    if steps == [] then []
    else AllAdditions(steps[..|steps| - 1], index) + Additions(steps[|steps| - 1], index)
  }

  /** The step adds to the index, or leaves its members as they are: it removes none of them, and
      the index does not expire in it. */
  ghost predicate KeepsIndex(s: Cache, step: Step, index: Key) {
    step.Create? || step.Rewrite? || MembersOf(Next(s, step), index) == MembersOf(s, index)
  }

  lemma WriteIndexes(s: Cache, w: Write, index: Key)
    requires Lawful(w)
    ensures MembersOf(ApplyAll(s, WriteCommands(w)), index)
         == if index == RecentIndex || index == IndexOf(w.impact) then EnteredBy(s, w, index) else MembersOf(s, index)
  {
    WriteEffect(s, w);
    WriteLeaves(s, w);
    MembersAfterTwoPuts(s, Wrote(s, w), IndexOf(w.impact), EnteredBy(s, w, IndexOf(w.impact)),
                        RecentIndex, EnteredBy(s, w, RecentIndex), index);
  }

  lemma MembersAfterTwoPuts(s: Cache, t: Cache, a: Key, ofA: map<nat, real>, b: Key, ofB: map<nat, real>, index: Key)
    requires t.sets == s.sets[a := ofA][b := ofB]
    ensures MembersOf(t, index) == if index == b then ofB else if index == a then ofA else MembersOf(s, index)
  {
  }

  lemma StepIndexes(s: Cache, step: Step, index: Key)
    requires LawfulStep(step) && KeepsIndex(s, step, index)
    ensures MembersOf(Next(s, step), index)
         == if Additions(step, index) == [] then MembersOf(s, index) else EnteredBy(s, step.write, index)
  {
    match step
    case Create(w) => WriteIndexes(s, w, index);
    case Rewrite(w) => WriteIndexes(s, w, index);
    case _ =>
  }

  /** After any run in which no record's score drops and nothing is taken out of the index, the index
      holds exactly the 1,000 highest-ranking entries ever added. */
  lemma {:induction false} IndexHoldsNewestEverAdded(states: seq<Cache>, steps: seq<Step>, index: Key)
    requires IsRun(states, steps) && states[0].sets == map[]
    requires forall i :: 0 <= i < |steps| ==> KeepsIndex(states[i], steps[i], index)
    requires NeverDrops(AllAdditions(steps, index))
    ensures MembersOf(states[|steps|], index)
         == Newest(History(AllAdditions(steps, index)), REFORM_IMPACT_INDEX_LIMIT)
  {
    IndexFollowsRun(states, steps, index);
    NeverDropsNoneFalls(AllAdditions(steps, index), REFORM_IMPACT_INDEX_LIMIT);
    IndexIsHistoryTrimmedOnce(AllAdditions(steps, index), REFORM_IMPACT_INDEX_LIMIT);
  }

  /** Whatever the scores do, the index is what trimming after each addition makes of the additions. */
  lemma {:induction false} IndexFollowsRun(states: seq<Cache>, steps: seq<Step>, index: Key)
    requires IsRun(states, steps) && states[0].sets == map[]
    requires forall i :: 0 <= i < |steps| ==> KeepsIndex(states[i], steps[i], index)
    ensures MembersOf(states[|steps|], index) == Index(AllAdditions(steps, index), REFORM_IMPACT_INDEX_LIMIT)
  {
    if steps != [] {
      var n := |steps| - 1;
      assert IsRun(states[..n + 1], steps[..n]);
      IndexFollowsRun(states[..n + 1], steps[..n], index);
      StepIndexes(states[n], steps[n], index);
      IndexAfterStep(AllAdditions(steps[..n], index), Additions(steps[n], index));
    }
  }

  lemma IndexAfterStep(before: seq<Addition>, added: seq<Addition>)
    requires |added| <= 1
    ensures Index(before + added, REFORM_IMPACT_INDEX_LIMIT)
         == if added == [] then Index(before, REFORM_IMPACT_INDEX_LIMIT)
            else Trimmed(Index(before, REFORM_IMPACT_INDEX_LIMIT)[added[0].id := added[0].score], REFORM_IMPACT_INDEX_LIMIT)
  {
    if added == [] {
      assert before + added == before;
    } else {
      assert added == [added[0]];
      IndexUnfolds(before, added[0]);
    }
  }

  lemma IndexUnfolds(before: seq<Addition>, next: Addition)
    ensures Index(before + [next], REFORM_IMPACT_INDEX_LIMIT)
         == Trimmed(Index(before, REFORM_IMPACT_INDEX_LIMIT)[next.id := next.score], REFORM_IMPACT_INDEX_LIMIT)
  {
    assert (before + [next])[..|before|] == before;
  }
}
