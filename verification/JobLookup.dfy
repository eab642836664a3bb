/** What a lookup of stored jobs finds: every record that its index still holds, the newest first. */
module JobLookup {
  import opened Outcome
  import opened CacheStore
  import opened BoundedIndex
  import opened ReformImpacts

  lemma FindsNewest(s: Cache, index: Key, id: nat)
    ensures Finds(s, index, id)
       <==> id in Newest(MembersOf(s, index), REFORM_IMPACT_INDEX_LIMIT) && Decoded(Get(s, RecordKey(id))).Some?
  {
    FindsListed(s, index, id);
    ReadListsNewest(s, index, REFORM_IMPACT_INDEX_LIMIT);
  }

  /** A lookup finds a job exactly if it is among the index's newest 1,000 members and its record is
      there and readable. */
  lemma FindsExactly(s: Cache, index: Key, id: nat)
    ensures Finds(s, index, id)
       <==> id in Newest(MembersOf(s, index), 1_000) && Decoded(Get(s, RecordKey(id))).Some?
  {
    FindsNewest(s, index, id);
  }

  lemma AllAreNewest(members: map<nat, real>, limit: nat)
    requires |members| <= limit
    ensures Newest(members, limit) == members
  {
    forall id | id in members ensures |Above(members, id)| < limit {
      ByScoreIsTotalOrder(members);
      assert Above(members, id) <= members.Keys - {id};
      SubsetCount(Above(members, id), members.Keys - {id});
    }
  }

  /** In every run a lookup finds exactly the members of its index whose records are there and
      readable: the limit of a read cuts nothing off. */
  lemma LookupFindsAllMembers(states: seq<Cache>, steps: seq<Step>, i: nat, index: Key, id: nat)
    requires IsRun(states, steps) && i < |states| && states[0].sets == map[]
    ensures Finds(states[i], index, id)
       <==> id in MembersOf(states[i], index) && Decoded(Get(states[i], RecordKey(id))).Some?
  {
    FindsExactly(states[i], index, id);
    IndexesNeverExceedLimit(states, steps, i);
    AllAreNewest(MembersOf(states[i], index), REFORM_IMPACT_INDEX_LIMIT);
  }

  // ---- What is read from an index ----

  /** The entries of an index are its newest members in descending order, each with what its record holds now. */
  lemma EntriesAreNewestFirst(s: Cache, index: Key, limit: nat)
    requires limit >= 1
    ensures var entries, members := IndexEntries(s, index, limit), MembersOf(s, index);
            && |entries| == (if |members| < limit then |members| else limit)
            && (forall i :: 0 <= i < |entries| ==>
                  entries[i].0 in Newest(members, limit) && entries[i].1 == Get(s, RecordKey(entries[i].0)))
            && forall i, j :: 0 <= i < j < |entries| ==> Outranks(members, entries[i].0, entries[j].0)
  {
    var ids, entries := RevRange(s, index, 0, limit - 1), IndexEntries(s, index, limit);
    EntriesAreOf(s, index, limit);
    ReadListsNewest(s, index, limit);
    forall i | 0 <= i < |entries| ensures entries[i].0 in Newest(MembersOf(s, index), limit) { assert ids[i] in ids; }
  }

  lemma EntriesAreOf(s: Cache, index: Key, limit: nat)
    requires limit >= 1
    ensures var ids, entries := RevRange(s, index, 0, limit - 1), IndexEntries(s, index, limit);
            |entries| == |ids| && forall i :: 0 <= i < |ids| ==> entries[i] == (ids[i], Get(s, RecordKey(ids[i])))
  {
  }

  /** The places of the entries that hold the impacts found. */
  ghost predicate HeldAt(entries: seq<(nat, Option<Stored>)>, impacts: seq<Impact>, at: seq<nat>) {
    && |at| == |impacts|
    && (forall k :: 0 <= k < |at| ==> at[k] < |entries| && Decoded(entries[at[k]].1) == Some(impacts[k]))
    && forall k, l :: 0 <= k < l < |at| ==> at[k] < at[l]
  }

  lemma HeldFurther(entries: seq<(nat, Option<Stored>)>, impacts: seq<Impact>, at: seq<nat>, n: nat)
    requires |entries| == n + 1 && HeldAt(entries[..n], impacts, at)
    ensures HeldAt(entries, impacts, at)
    ensures Decoded(entries[n].1).Some? ==> HeldAt(entries, impacts + [Decoded(entries[n].1).value], at + [n])
  {
  }

  /** Every readable entry is found, in the order of the entries, and nothing else is. */
  lemma {:induction false} FoundInOrder(entries: seq<(nat, Option<Stored>)>) returns (at: seq<nat>)
    ensures HeldAt(entries, Found(entries), at)
    ensures forall i :: 0 <= i < |entries| ==> (Decoded(entries[i].1).Some? <==> i in at)
  {
    at := [];
    if entries != [] {
      var n := |entries| - 1;
      at := FoundInOrder(entries[..n]);
      HeldFurther(entries, Found(entries[..n]), at, n);
      assert forall i :: 0 <= i < n ==> entries[..n][i] == entries[i];
      if Decoded(entries[n].1).Some? { at := at + [n]; }
    }
  }

  // ---- What was written is found ----

  /** The clock that a write's entry in this index is read from. */
  function ClockOf(w: Write, index: Key): real { if index == RecentIndex then w.recentClock else w.scopeClock }

  /** A write scores its entry by the impact's start or, without one, by the clock, and leaves the
      scores of all other entries. */
  lemma WrittenScores(s: Cache, w: Write, index: Key, id: nat)
    requires Lawful(w) && (index == IndexOf(w.impact) || index == RecentIndex)
    requires id in MembersOf(ApplyAll(s, WriteCommands(w)), index)
    ensures var score := MembersOf(ApplyAll(s, WriteCommands(w)), index)[id];
            if id != w.id then id in MembersOf(s, index) && score == MembersOf(s, index)[id]
            else if w.impact.startTime.Some? then score == w.impact.startTime.value
            else score == ClockOf(w, index)
  {
    WriteIndexes(s, w, index);
  }

  /** The entries that a new one with this score would rank below. */
  function Higher(members: map<nat, real>, id: nat, score: real): set<nat> {
    set other | other in members && other != id && (members[other] > score || (members[other] == score && other > id))
  }

  /** A job that was just stored is found through both its indexes, if fewer than 1,000 of the
      index's entries are newer; and what is found is the impact that was stored. */
  lemma WrittenIsFound(s: Cache, w: Write, index: Key)
    requires Lawful(w) && (w.onlyIfPresent ==> RecordKey(w.id) in s.values)
    requires index == IndexOf(w.impact) || index == RecentIndex
    requires var score := if w.impact.startTime.Some? then w.impact.startTime.value else ClockOf(w, index);
             |Higher(MembersOf(s, index), w.id, score)| < REFORM_IMPACT_INDEX_LIMIT
    ensures var after := ApplyAll(s, WriteCommands(w));
            Finds(after, index, w.id) && Get(after, RecordKey(w.id)) == Some(ImpactStored(w.impact))
  {
    var after := ApplyAll(s, WriteCommands(w));
    EnteredIsNewest(MembersOf(s, index), w.id, ScoreIn(w, index));
    EnteredIsListed(s, w, index);
    FindsNewest(after, index, w.id);
    StoredIsHeld(s, w);
  }

  lemma StoredIsHeld(s: Cache, w: Write)
    requires Lawful(w) && (w.onlyIfPresent ==> RecordKey(w.id) in s.values)
    ensures Get(ApplyAll(s, WriteCommands(w)), RecordKey(w.id)) == Some(ImpactStored(w.impact))
  {
    WriteValues(s, w);
  }

  lemma EnteredIsNewest(members: map<nat, real>, id: nat, score: real)
    requires |Higher(members, id, score)| < REFORM_IMPACT_INDEX_LIMIT
    ensures id in Newest(members[id := score], REFORM_IMPACT_INDEX_LIMIT)
  {
    assert Above(members[id := score], id) == Higher(members, id, score);
  }

  lemma EnteredIsListed(s: Cache, w: Write, index: Key)
    requires Lawful(w) && (index == IndexOf(w.impact) || index == RecentIndex)
    requires w.id in Newest(MembersOf(s, index)[w.id := ScoreIn(w, index)], REFORM_IMPACT_INDEX_LIMIT)
    ensures w.id in Newest(MembersOf(ApplyAll(s, WriteCommands(w)), index), REFORM_IMPACT_INDEX_LIMIT)
  {
    var members := MembersOf(s, index)[w.id := ScoreIn(w, index)];
    WriteIndexes(s, w, index);
    TrimmedIsNewest(members, REFORM_IMPACT_INDEX_LIMIT);
    NewestCount(members, REFORM_IMPACT_INDEX_LIMIT);
    AllAreNewest(Newest(members, REFORM_IMPACT_INDEX_LIMIT), REFORM_IMPACT_INDEX_LIMIT);
  }
}
