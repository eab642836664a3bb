/** The cache of stored reform impacts, as requests use it. */
module ReformImpactCache {
  import opened Outcome
  import opened CacheStore
  import opened CacheBackend
  import CacheCore
  import CalendarText
  import opened Claims
  import opened LikePattern
  import opened ReformImpacts

  const DATETIME_MIN := -62_135_596_800.0

  // ---- The best match first ----

  predicate Selects(impact: Impact, optionsHash: Option<string>, pattern: Option<string>) {
    impact.optionsHash == optionsHash
    || (pattern.Some? && impact.optionsHash.Some? && MatchesLine(pattern.value, impact.optionsHash.value))
  }

  function Started(impact: Impact): real {
    if impact.startTime.Some? then impact.startTime.value else DATETIME_MIN
  }

  /** The first moment of year 1, in seconds before 1970: no start is earlier. */
  lemma NoEarlierStart()
    ensures DATETIME_MIN == -86_400.0 * (1969 * 365 + CalendarText.LeapsBefore(1969)) as real
  {
    CalendarText.LeapYearsAre(1969);
  }

  /** An exact hash ranks above an extension, then the later start, then the larger identifier. */
  predicate Better(a: Impact, b: Impact, optionsHash: Option<string>) {
    var exactA, exactB := a.optionsHash == optionsHash, b.optionsHash == optionsHash;
    || (exactA && !exactB)
    || (exactA == exactB && Started(a) > Started(b))
    || (exactA == exactB && Started(a) == Started(b) && a.reformImpactId > b.reformImpactId)
  }

  function Placed(ranked: seq<Impact>, impact: Impact, optionsHash: Option<string>): (r: seq<Impact>)
    ensures multiset(r) == multiset(ranked) + multiset{impact}
  {
    if ranked == [] then [impact]
    else if Better(impact, ranked[0], optionsHash) then [impact] + ranked
    else
      assert ranked == [ranked[0]] + ranked[1..];
      [ranked[0]] + Placed(ranked[1..], impact, optionsHash)
  }

  /** Python's stable `sorted`, best first. */
  function BestFirst(impacts: seq<Impact>, optionsHash: Option<string>): (r: seq<Impact>)
    ensures multiset(r) == multiset(impacts)
  {
    if impacts == [] then []
    else
      var n := |impacts| - 1;
      assert impacts == impacts[..n] + [impacts[n]];
      Placed(BestFirst(impacts[..n], optionsHash), impacts[n], optionsHash)
  }

  function Selected(impacts: seq<Impact>, optionsHash: Option<string>, pattern: Option<string>): seq<Impact> {
    if impacts == [] then []
    else
      var n := |impacts| - 1;
      var before := Selected(impacts[..n], optionsHash, pattern);
      if Selects(impacts[n], optionsHash, pattern) then before + [impacts[n]] else before
  }

  function Listed(s: Cache, index: Key, limit: nat): seq<Impact> { Found(IndexEntries(s, index, limit)) }

  function Matching(s: Cache, identity: Identity, pattern: Option<string>): seq<Impact> {
    BestFirst(
      Selected(Listed(s, ScopeIndex(identity.scope, identity.apiVersion), REFORM_IMPACT_INDEX_LIMIT),
               identity.optionsHash, pattern),
      identity.optionsHash)
  }

  ghost predicate Ranking(ranked: seq<Impact>, optionsHash: Option<string>) {
    forall i, j :: 0 <= i < j < |ranked| ==> !Better(ranked[j], ranked[i], optionsHash)
  }

  /** None of them is better than `best`. */
  ghost predicate NoneBetter(impacts: seq<Impact>, best: Impact, optionsHash: Option<string>) {
    forall i :: 0 <= i < |impacts| ==> !Better(impacts[i], best, optionsHash)
  }

  lemma {:induction false} PlacedNoneBetter(ranked: seq<Impact>, impact: Impact, best: Impact, optionsHash: Option<string>)
    requires NoneBetter(ranked, best, optionsHash) && !Better(impact, best, optionsHash)
    ensures NoneBetter(Placed(ranked, impact, optionsHash), best, optionsHash)
  {
    if ranked != [] && !Better(impact, ranked[0], optionsHash) {
      PlacedNoneBetter(ranked[1..], impact, best, optionsHash);
    }
  }

  lemma RankingOf(first: Impact, rest: seq<Impact>, optionsHash: Option<string>)
    requires NoneBetter(rest, first, optionsHash) && Ranking(rest, optionsHash)
    ensures Ranking([first] + rest, optionsHash)
  {
  }

  lemma {:induction false} PlacedRanks(ranked: seq<Impact>, impact: Impact, optionsHash: Option<string>)
    requires Ranking(ranked, optionsHash)
    ensures Ranking(Placed(ranked, impact, optionsHash), optionsHash)
  {
    if ranked != [] {
      var first, rest := ranked[0], ranked[1..];
      if Better(impact, first, optionsHash) {
        RankingOf(impact, ranked, optionsHash);
      } else {
        PlacedRanks(rest, impact, optionsHash);
        PlacedNoneBetter(rest, impact, first, optionsHash);
        RankingOf(first, Placed(rest, impact, optionsHash), optionsHash);
      }
    }
  }

  /** The matches are ranked best first, and nothing is lost or invented by ranking them. */
  lemma {:induction false} BestFirstRanks(impacts: seq<Impact>, optionsHash: Option<string>)
    ensures Ranking(BestFirst(impacts, optionsHash), optionsHash)
    ensures multiset(BestFirst(impacts, optionsHash)) == multiset(impacts)
  {
    if impacts != [] {
      BestFirstRanks(impacts[..|impacts| - 1], optionsHash);
      PlacedRanks(BestFirst(impacts[..|impacts| - 1], optionsHash), impacts[|impacts| - 1], optionsHash);
    }
  }

  lemma {:induction false} SelectedHolds(impacts: seq<Impact>, optionsHash: Option<string>, pattern: Option<string>, impact: Impact)
    ensures impact in Selected(impacts, optionsHash, pattern) <==> impact in impacts && Selects(impact, optionsHash, pattern)
  {
    if impacts != [] {
      var n := |impacts| - 1;
      assert impacts == impacts[..n] + [impacts[n]];
      SelectedHolds(impacts[..n], optionsHash, pattern, impact);
    }
  }

  /** The places of the selected impacts. */
  ghost predicate SelectedAt(impacts: seq<Impact>, selected: seq<Impact>, at: seq<nat>) {
    && |at| == |selected|
    && (forall k :: 0 <= k < |at| ==> at[k] < |impacts| && impacts[at[k]] == selected[k])
    && forall k, l :: 0 <= k < l < |at| ==> at[k] < at[l]
  }

  lemma SelectedFurther(impacts: seq<Impact>, selected: seq<Impact>, at: seq<nat>, n: nat)
    requires |impacts| == n + 1 && SelectedAt(impacts[..n], selected, at)
    ensures SelectedAt(impacts, selected, at) && SelectedAt(impacts, selected + [impacts[n]], at + [n])
  {
  }

  /** Every impact that matches is selected, each time it is listed, in the order of the list. */
  lemma {:induction false} SelectedInOrder(impacts: seq<Impact>, optionsHash: Option<string>, pattern: Option<string>)
    returns (at: seq<nat>)
    ensures SelectedAt(impacts, Selected(impacts, optionsHash, pattern), at)
    ensures forall i :: 0 <= i < |impacts| ==> (i in at <==> Selects(impacts[i], optionsHash, pattern))
  {
    at := [];
    if impacts != [] {
      var n := |impacts| - 1;
      at := SelectedInOrder(impacts[..n], optionsHash, pattern);
      SelectedFurther(impacts, Selected(impacts[..n], optionsHash, pattern), at, n);
      assert forall i :: 0 <= i < n ==> impacts[..n][i] == impacts[i];
      if Selects(impacts[n], optionsHash, pattern) { at := at + [n]; }
    }
  }

  /** A lookup finds exactly the listed impacts that match; the first of them is at least as good
      as each of the others: an exact hash before any extension, then the newest. */
  lemma BestMatchFirst(s: Cache, identity: Identity, pattern: Option<string>, impact: Impact)
    ensures var listed := Listed(s, ScopeIndex(identity.scope, identity.apiVersion), REFORM_IMPACT_INDEX_LIMIT);
            impact in Matching(s, identity, pattern)
            <==> impact in listed && Selects(impact, identity.optionsHash, pattern)
    ensures var matching := Matching(s, identity, pattern);
            impact in matching ==> !Better(impact, matching[0], identity.optionsHash)
  {
    var listed := Listed(s, ScopeIndex(identity.scope, identity.apiVersion), REFORM_IMPACT_INDEX_LIMIT);
    var selected := Selected(listed, identity.optionsHash, pattern);
    SelectedHolds(listed, identity.optionsHash, pattern, impact);
    BestFirstRanks(selected, identity.optionsHash);
    var matching := Matching(s, identity, pattern);
    assert impact in matching <==> impact in multiset(matching);
    assert impact in selected <==> impact in multiset(selected);
    if impact in matching {
      var i :| 0 <= i < |matching| && matching[i] == impact;
      assert !Better(impact, impact, identity.optionsHash);
    }
  }

  /** The first match by start and identifier, where a job without a start counts as the earliest. */
  predicate NoLater(a: Impact, b: Impact) {
    || (if a.startTime.None? then b.startTime.None? || b.startTime.value >= DATETIME_MIN
        else if b.startTime.None? then a.startTime.value <= DATETIME_MIN
        else a.startTime.value <= b.startTime.value)
  }

  predicate SameStart(a: Impact, b: Impact) { NoLater(a, b) && NoLater(b, a) }

  /** The first match has the looked-up hash itself if any match has; among those that have it, or
      have not, alike, none started later, and of those that started together none has a larger
      identifier. */
  lemma FirstMatchIsBest(s: Cache, identity: Identity, pattern: Option<string>, impact: Impact)
    requires impact in Matching(s, identity, pattern)
    ensures var first := Matching(s, identity, pattern)[0];
            && (impact.optionsHash == identity.optionsHash ==> first.optionsHash == identity.optionsHash)
            && ((impact.optionsHash == identity.optionsHash <==> first.optionsHash == identity.optionsHash) ==>
                  NoLater(impact, first) && (SameStart(impact, first) ==> impact.reformImpactId <= first.reformImpactId))
  {
    BestMatchFirst(s, identity, pattern, impact);
  }

  /** Equally good for this hash. */
  predicate Alike(a: Impact, b: Impact, optionsHash: Option<string>) {
    && (a.optionsHash == optionsHash <==> b.optionsHash == optionsHash)
    && SameStart(a, b) && a.reformImpactId == b.reformImpactId
  }

  /** The impacts that are like this, in their order. */
  function Those(impacts: seq<Impact>, like: Impact -> bool): seq<Impact> {
    if impacts == [] then [] else (if like(impacts[0]) then [impacts[0]] else []) + Those(impacts[1..], like)
  }

  /** Where one impact like this is better, each of them is. */
  ghost predicate EquallyGood(like: Impact -> bool, optionsHash: Option<string>) {
    forall a, b, other :: like(a) && like(b) && Better(a, other, optionsHash) ==> Better(b, other, optionsHash)
  }

  lemma {:induction false} NoneLike(ranked: seq<Impact>, like: Impact -> bool, best: Impact, optionsHash: Option<string>)
    requires NoneBetter(ranked, best, optionsHash) && forall a :: like(a) ==> Better(a, best, optionsHash)
    ensures Those(ranked, like) == []
  {
    if ranked != [] {
      assert !Better(ranked[0], best, optionsHash);
      NoneLike(ranked[1..], like, best, optionsHash);
    }
  }

  lemma ThoseOf(first: Impact, rest: seq<Impact>, like: Impact -> bool)
    ensures Those([first] + rest, like) == (if like(first) then [first] else []) + Those(rest, like)
  {
    assert ([first] + rest)[1..] == rest;
  }

  lemma ThoseBefore(impact: Impact, ranked: seq<Impact>, like: Impact -> bool, optionsHash: Option<string>)
    requires ranked != [] && Ranking(ranked, optionsHash) && EquallyGood(like, optionsHash)
    requires Better(impact, ranked[0], optionsHash)
    ensures Those([impact] + ranked, like) == Those(ranked, like) + if like(impact) then [impact] else []
  {
    ThoseOf(impact, ranked, like);
    if like(impact) {
      assert NoneBetter(ranked, ranked[0], optionsHash);
      NoneLike(ranked, like, ranked[0], optionsHash);
    }
  }

  lemma ThoseAfter(first: Impact, rest: seq<Impact>, placed: seq<Impact>, impact: Impact, like: Impact -> bool)
    requires Those(placed, like) == Those(rest, like) + if like(impact) then [impact] else []
    ensures Those([first] + placed, like) == Those([first] + rest, like) + if like(impact) then [impact] else []
  {
    ThoseOf(first, placed, like);
    ThoseOf(first, rest, like);
  }

  lemma {:induction false} PlacedKeepsOrder(ranked: seq<Impact>, impact: Impact, like: Impact -> bool, optionsHash: Option<string>)
    requires Ranking(ranked, optionsHash) && EquallyGood(like, optionsHash)
    ensures Those(Placed(ranked, impact, optionsHash), like) == Those(ranked, like) + if like(impact) then [impact] else []
  {
    if ranked != [] {
      if Better(impact, ranked[0], optionsHash) {
        ThoseBefore(impact, ranked, like, optionsHash);
      } else {
        PlacedKeepsOrder(ranked[1..], impact, like, optionsHash);
        ThoseAfter(ranked[0], ranked[1..], Placed(ranked[1..], impact, optionsHash), impact, like);
        assert ranked == [ranked[0]] + ranked[1..];
      }
    }
  }

  lemma {:induction false} ThoseNext(impacts: seq<Impact>, last: Impact, like: Impact -> bool)
    ensures Those(impacts + [last], like) == Those(impacts, like) + if like(last) then [last] else []
  {
    if impacts == [] {
      ThoseOf(last, [], like);
      assert [] + [last] == [last] + [];
    } else {
      ThoseNext(impacts[1..], last, like);
      ThoseOf(impacts[0], impacts[1..] + [last], like);
      assert impacts + [last] == [impacts[0]] + (impacts[1..] + [last]);
    }
  }

  lemma BestFirstNext(front: seq<Impact>, last: Impact, optionsHash: Option<string>)
    ensures BestFirst(front + [last], optionsHash) == Placed(BestFirst(front, optionsHash), last, optionsHash)
  {
    assert (front + [last])[..|front|] == front;
  }

  lemma {:induction false} RankingKeepsOrder(impacts: seq<Impact>, like: Impact -> bool, optionsHash: Option<string>)
    requires EquallyGood(like, optionsHash)
    ensures Those(BestFirst(impacts, optionsHash), like) == Those(impacts, like)
  {
    if impacts != [] {
      var front, last := impacts[..|impacts| - 1], impacts[|impacts| - 1];
      assert impacts == front + [last];
      RankingKeepsOrder(front, like, optionsHash);
      BestFirstRanks(front, optionsHash);
      BestFirstNext(front, last, optionsHash);
      PlacedKeepsOrder(BestFirst(front, optionsHash), last, like, optionsHash);
      ThoseNext(front, last, like);
    }
  }

  /** Impacts that are equally good keep the order in which the index lists them. */
  lemma BestFirstIsStable(impacts: seq<Impact>, x: Impact, optionsHash: Option<string>)
    ensures var like := (a: Impact) => Alike(a, x, optionsHash);
            Those(BestFirst(impacts, optionsHash), like) == Those(impacts, like)
  {
    RankingKeepsOrder(impacts, (a: Impact) => Alike(a, x, optionsHash), optionsHash);
  }

  // ---- The operations ----

  /** The first entry that holds this failure. */
  function HoldingEntry(entries: seq<(nat, Option<Stored>)>, failure: Impact): (r: Option<(nat, Stored)>)
    ensures r.Some? ==> (r.value.0, Some(r.value.1)) in entries && Decoded(Some(r.value.1)) == Some(failure)
    ensures r.None? ==> forall i :: 0 <= i < |entries| ==> Decoded(entries[i].1) != Some(failure)
    ensures r.Some? ==> exists i :: 0 <= i < |entries| && entries[i] == (r.value.0, Some(r.value.1))
                                    && forall j :: 0 <= j < i ==> Decoded(entries[j].1) != Some(failure)
  {
    if entries == [] then None
    else if Decoded(entries[0].1) == Some(failure) then Some((entries[0].0, entries[0].1.value))
    else HoldingEntry(entries[1..], failure)
  }

  /** The record's key: the given one, or the worker handle's. */
  function RecordId(impact: Impact, recordId: Option<nat>): Option<nat> {
    if recordId.Some? then recordId else impact.executionId
  }

  /** The write that `set` makes, with its lifetime shortened by the random reduction. */
  function ToWrite(impact: Impact, id: nat, recordTtl: Option<int>, onlyIfPresent: bool, reduction: int,
                   scopeClock: real, recentClock: real)
    : (w: Write)
    requires 0 <= reduction <= REFORM_IMPACT_TTL_SECONDS / 10 && (recordTtl.Some? ==> recordTtl.value >= 0)
    ensures Lawful(w)
    ensures w == Write(impact, id, REFORM_IMPACT_TTL_SECONDS - reduction, recordTtl, scopeClock, recentClock, onlyIfPresent)
  {
    Write(impact, id, CacheCore.JitteredTtl(REFORM_IMPACT_TTL_SECONDS, CacheCore.COMPLETED_RESULT_TTL_JITTER_FRACTION, reduction).value,
          recordTtl, scopeClock, recentClock, onlyIfPresent)
  }

  method SelectMatching(impacts: seq<Impact>, optionsHash: Option<string>, pattern: Option<string>)
    returns (selected: seq<Impact>)
    ensures selected == Selected(impacts, optionsHash, pattern)
  {
    selected := [];
    for i := 0 to |impacts|
      invariant selected == Selected(impacts[..i], optionsHash, pattern)
    {
      assert impacts[..i + 1][..i] == impacts[..i];
      var matches := impacts[i].optionsHash == optionsHash;
      if !matches && pattern.Some? && impacts[i].optionsHash.Some? {
        matches := LikeMatches(impacts[i].optionsHash.value, pattern.value);
      }
      if matches {
        selected := selected + [impacts[i]];
      }
    }
    assert impacts[..|impacts|] == impacts;
  }

  class ReformImpactCache {
    const client: InMemoryCacheBackend<Key, Stored>
    const startClaims: ExpiringClaimStore<Key, Stored>
    /** The canonical form of a diagnostic identifier, if it has one. */
    const normalize: string -> Option<string>

    ghost predicate Valid()
      reads client
    {
      startClaims.client == client && client.Valid()
    }

    ghost function View(): Cache
      reads client
    {
      client.View()
    }

    constructor (client: InMemoryCacheBackend<Key, Stored>, normalize: string -> Option<string>)
      requires client.Valid()
      ensures Valid() && this.client == client && this.normalize == normalize && fresh(startClaims)
    {
      this.client, this.normalize := client, normalize;
      startClaims := new ExpiringClaimStore(client);
    }

    /** Stores an impact and indexes it in one transaction; says whether the record was written. */
    method Set(impact: Impact, recordId: Option<nat>, recordTtl: Option<int>, onlyIfPresent: bool, reduction: int,
               scopeClock: real, recentClock: real)
      returns (r: Result<bool>)
      requires Valid() && 0 <= reduction <= REFORM_IMPACT_TTL_SECONDS / 10
      requires recordTtl.Some? ==> recordTtl.value >= 0
      modifies client
      ensures Valid()
      ensures r.Err? <==> recordId.None? && impact.executionId.None?
      ensures r.Err? ==> View() == old(View())
      ensures r.Ok? ==>
                var id := if recordId.Some? then recordId.value else impact.executionId.value;
                var w := Write(impact, id, REFORM_IMPACT_TTL_SECONDS - reduction, recordTtl, scopeClock, recentClock,
                               onlyIfPresent);
                && View() == ApplyAll(old(View()), WriteCommands(w))
                && r.value == (onlyIfPresent ==> RecordKey(id) in old(View()).values)
    {
      var id := RecordId(impact, recordId);
      if id.None? {
        return Err("a reform-impact cache record identifier is required");
      }
      var w := ToWrite(impact, id.value, recordTtl, onlyIfPresent, reduction, scopeClock, recentClock);
      WriteEffect(View(), w);
      var written := Store(w);
      return Ok(written);
    }

    method Store(w: Write) returns (written: bool)
      requires Valid() && Lawful(w)
      modifies client
      ensures Valid() && View() == Wrote(old(View()), w) && written == Stores(old(View()), w)
    {
      var pipeline := new InMemoryPipeline(client);
      pipeline.Queue(RecordCommand(w));
      assert pipeline.operations == [RecordCommand(w)];
      QueueIndexing(pipeline, IndexOf(w.impact), w.id, ScoreIn(w, IndexOf(w.impact)), w.ttl);
      QueueIndexing(pipeline, RecentIndex, w.id, ScoreIn(w, RecentIndex), w.ttl);
      assert pipeline.operations == WriteCommands(w);
      var replies := pipeline.Execute();
      WriteEffect(old(View()), w);
      written := !w.onlyIfPresent || replies[0];
    }

    method QueueIndexing(pipeline: InMemoryPipeline<Key, Stored>, index: Key, id: nat, score: real, ttl: int)
      modifies pipeline
      ensures pipeline.operations == old(pipeline.operations) + IndexCommands(index, id, score, ttl)
    {
      pipeline.Queue(AddCommand(index, id, score));
      pipeline.Queue(RemoveRanksCommand(index, 0, -(REFORM_IMPACT_INDEX_LIMIT + 1)));
      pipeline.Queue(ExpireCommand(index, ttl));
    }

    method GetByExecutionId(id: nat) returns (impact: Option<Impact>)
      requires Valid()
      modifies client
      ensures Valid() && View() == old(View())
      ensures impact == Decoded(Get(View(), RecordKey(id)))
    {
      var value := client.GetValue(RecordKey(id));
      impact := Decoded(value);
    }

    method ReadSecondsLeft(impact: Impact) returns (left: Option<int>)
      requires Valid()
      modifies client
      ensures Valid() && View() == old(View())
      ensures left == SecondsLeft(View(), impact)
    {
      if impact.executionId.None? {
        return None;
      }
      var recordMilliseconds := client.TimeToLive(RecordKey(impact.executionId.value));
      var indexMilliseconds := client.TimeToLive(IndexOf(impact));
      if recordMilliseconds < 0 {
        return None;
      }
      if indexMilliseconds == PTTL_NO_EXPIRY {
        return Some(WholeSeconds(recordMilliseconds));
      }
      if indexMilliseconds < 0 {
        return Some(0);
      }
      return Some(WholeSeconds(
                    if recordMilliseconds < indexMilliseconds then recordMilliseconds else indexMilliseconds));
    }

    method ReadIndex(index: Key, limit: nat) returns (entries: seq<(nat, Option<Stored>)>)
      requires Valid()
      modifies client
      ensures Valid() && View() == old(View())
      ensures entries == IndexEntries(View(), index, limit)
    {
      var ids := client.Zrevrange(index, 0, if limit == 0 then 0 else limit - 1);
      entries := Fetch(ids);
    }

    method Fetch(ids: seq<nat>) returns (entries: seq<(nat, Option<Stored>)>)
      requires Valid()
      modifies client
      ensures Valid() && View() == old(View())
      ensures entries == seq(|ids|, i requires 0 <= i < |ids| => (ids[i], Get(old(View()), RecordKey(ids[i]))))
    {
      entries := [];
      for i := 0 to |ids|
        invariant Valid() && View() == old(View())
        invariant |entries| == i
        invariant forall j :: 0 <= j < i ==> entries[j] == (ids[j], Get(old(View()), RecordKey(ids[j])))
      {
        var value := client.GetValue(RecordKey(ids[i]));
        entries := entries + [(ids[i], value)];
      }
    }

    method FromIndex(index: Key, limit: nat) returns (impacts: seq<Impact>)
      requires Valid()
      modifies client
      ensures Valid() && View() == old(View())
      ensures impacts == Listed(View(), index, limit)
    {
      var entries := ReadIndex(index, limit);
      impacts := [];
      for i := 0 to |entries|
        invariant impacts == Found(entries[..i])
      {
        assert entries[..i + 1][..i] == entries[..i];
        var impact := Decoded(entries[i].1);
        if impact.Some? {
          impacts := impacts + [impact.value];
        }
      }
      assert entries[..|entries|] == entries;
    }

    /** The cached impacts for one policy pair and scope, best match first. */
    method LookUp(identity: Identity, pattern: Option<string>) returns (matching: seq<Impact>)
      requires Valid()
      modifies client
      ensures Valid() && View() == old(View())
      ensures matching == Matching(View(), identity, pattern)
    {
      var impacts := FromIndex(ScopeIndex(identity.scope, identity.apiVersion), REFORM_IMPACT_INDEX_LIMIT);
      var selected := SelectMatching(impacts, identity.optionsHash, pattern);
      matching := BestFirst(selected, identity.optionsHash);
    }

    /** Rewrites a cached impact under the same key, if it is still there. */
    method Update(id: nat, changes: Impact -> Impact, clearExecutionId: bool, recordTtl: Option<int>, reduction: int,
                  scopeClock: real, recentClock: real)
      returns (updated: Option<Impact>)
      requires Valid() && 0 <= reduction <= REFORM_IMPACT_TTL_SECONDS / 10
      requires recordTtl.Some? ==> recordTtl.value >= 0
      modifies client
      ensures Valid()
      ensures updated.None? <==> Decoded(Get(old(View()), RecordKey(id))).None?
      ensures updated.None? ==> View() == old(View())
      ensures updated.Some? ==>
                var changed := changes(Decoded(Get(old(View()), RecordKey(id))).value);
                && updated.value == (if clearExecutionId then changed.(executionId := None) else changed)
                && View() == ApplyAll(old(View()), WriteCommands(Write(updated.value, id, REFORM_IMPACT_TTL_SECONDS - reduction,
                                                                      recordTtl, scopeClock, recentClock, true)))
    {
      var impact := GetByExecutionId(id);
      if impact.None? {
        return None;
      }
      var changed := Changed(impact.value, changes, clearExecutionId);
      var stored := Set(changed, Some(id), recordTtl, true, reduction, scopeClock, recentClock);
      return if stored.value then Some(changed) else None;
    }

    /** Removes a stored failure and its index entries, if a record still holds it. */
    method DeleteFailure(failure: Impact) returns (r: Result<bool>)
      requires Valid()
      modifies client
      ensures Valid()
      ensures r.Err? <==> failure.status != Failed
      ensures r.Err? ==> View() == old(View())
      ensures r.Ok? ==>
                var entries := IndexEntries(old(View()), IndexOf(failure), REFORM_IMPACT_INDEX_LIMIT);
                var stored := HoldingEntry(entries, failure);
                && r.value == stored.Some?
                && View() == if stored.None? then old(View())
                             else DeleteUnchanged(old(View()), RecordKey(stored.value.0), stored.value.0,
                                                  IndexOf(failure), RecentIndex, stored.value.1).0
    {
      if failure.status != Failed {
        return Err("only a failed reform impact can be deleted");
      }
      var scopeIndex := IndexOf(failure);
      var entries := ReadIndex(scopeIndex, REFORM_IMPACT_INDEX_LIMIT);
      var stored := HoldingEntry(entries, failure);
      if stored.None? {
        return Ok(false);
      }
      var deleted := client.EvalDeleteUnchanged(RecordKey(stored.value.0), stored.value.0, scopeIndex, RecentIndex,
                                                stored.value.1);
      return Ok(deleted);
    }

    /** The claim of this token, if the token is not empty and the identifier is valid. */
    function NewClaim(token: string, observabilityId: string): (claim: Option<Claim>)
      ensures claim.Some? <==> token != "" && normalize(observabilityId).Some?
      ensures claim.Some? ==> claim.value == Claim(token, normalize(observabilityId).value)
    {
      if token == "" || normalize(observabilityId).None? then None
      else Some(Claim(token, normalize(observabilityId).value))
    }

    method ClaimStart(identity: Identity, target: string, token: string, observabilityId: string) returns (r: Result<bool>)
      requires Valid()
      modifies client
      ensures Valid()
      ensures r.Err? <==> token == "" || normalize(observabilityId).None?
      ensures r.Err? ==> View() == old(View())
      ensures r.Ok? ==>
                && r.value == (StartClaimKey(identity, target) !in old(View()).values)
                && View() == Claimed(old(View()), StartClaimKey(identity, target),
                                     ClaimStored(NewClaim(token, observabilityId).value),
                                     REFORM_IMPACT_START_CLAIM_TTL_SECONDS)
    {
      var claim := NewClaim(token, observabilityId);
      if claim.None? {
        return Err("a claim token and valid observability identifier are required");
      }
      r := startClaims.Acquire(StartClaimKey(identity, target), Some(ClaimStored(claim.value)),
                               REFORM_IMPACT_START_CLAIM_TTL_SECONDS);
    }

    method GetStartClaim(identity: Identity, target: string) returns (r: Result<Option<Claim>>)
      requires Valid()
      modifies client
      ensures Valid() && View() == old(View())
      ensures var value := Get(View(), StartClaimKey(identity, target));
              && (value.None? ==> r == Ok(None))
              && (value.Some? && value.value.ClaimStored? ==> r == Ok(Some(value.value.claim)))
              && (value.Some? && !value.value.ClaimStored? ==> r.Err?)
    {
      var encoded := client.GetValue(StartClaimKey(identity, target));
      r := ReadClaim(encoded);
    }

    /** Releases the claim only if its complete state still matches. */
    method ReleaseStart(identity: Identity, target: string, token: string, observabilityId: string)
      returns (r: Result<bool>)
      requires Valid()
      modifies client
      ensures Valid()
      ensures r.Err? <==> token == "" || normalize(observabilityId).None?
      ensures r.Err? ==> View() == old(View())
      ensures r.Ok? ==>
                var claim := ClaimStored(NewClaim(token, observabilityId).value);
                && r.value == (Get(old(View()), StartClaimKey(identity, target)) == Some(claim))
                && View() == Released(old(View()), StartClaimKey(identity, target), claim)
    {
      var claim := NewClaim(token, observabilityId);
      if claim.None? {
        return Err("a claim token and valid observability identifier are required");
      }
      var released := startClaims.Release(StartClaimKey(identity, target), ClaimStored(claim.value));
      return Ok(released);
    }
  }

  function Changed(impact: Impact, changes: Impact -> Impact, clearExecutionId: bool): Impact {
    if clearExecutionId then changes(impact).(executionId := None) else changes(impact)
  }

  function ReadClaim(value: Option<Stored>): Result<Option<Claim>> {
    if value.None? then Ok(None)
    else if value.value.ClaimStored? then Ok(Some(value.value.claim))
    else Err("reform-impact submission ownership is unreadable")
  }
}
