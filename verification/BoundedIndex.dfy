/** A lookup index trimmed to its newest entries after every addition. */
module BoundedIndex {
  import opened Sorting
  import opened CacheStore

  /** The members that rank above `id`. */
  ghost function Above(members: map<nat, real>, id: nat): set<nat> {
    set other | other in members && ByScore(members)(id, other)
  }

  /** The `limit` highest-ranking members. */
  ghost function Newest(members: map<nat, real>, limit: nat): map<nat, real> {
    map id | id in members && |Above(members, id)| < limit :: members[id]
  }

  /** What ZREMRANGEBYRANK 0 -(limit + 1) leaves. */
  function Trimmed(members: map<nat, real>, limit: nat): map<nat, real> {
    members - Elements(Ranks(Ranked(members), 0, -(limit + 1)))
  }

  lemma {:induction false} ElementsCount<T(!new)>(s: seq<T>, before: (T, T) -> bool)
    requires TotalOrder(before) && Ordered(s, before)
    ensures |Elements(s)| == |s|
  {
    if s != [] {
      var n := |s| - 1;
      ElementsCount(s[..n], before);
      assert s == s[..n] + [s[n]];
      assert Elements(s) == Elements(s[..n]) + {s[n]};
      assert s[n] !in s[..n] by {
        forall i | 0 <= i < n ensures s[i] != s[n] { assert before(s[i], s[n]); }
      }
    }
  }

  lemma RankedIsOrdered(members: map<nat, real>)
    ensures TotalOrder(ByScore(members)) && Ordered(Ranked(members), ByScore(members))
  {
    ByScoreIsTotalOrder(members);
  }

  /** Above the member of ascending rank `p` is everything after it. */
  lemma AboveIsLater(members: map<nat, real>, p: nat)
    requires p < |Ranked(members)|
    ensures Above(members, Ranked(members)[p]) == Elements(Ranked(members)[p + 1..])
  {
    var ids := Ranked(members);
    RankedIsOrdered(members);
    forall other ensures other in Above(members, ids[p]) <==> other in Elements(ids[p + 1..]) {
      if other in members {
        var q :| 0 <= q < |ids| && ids[q] == other;
        LaterMember(ids, ByScore(members), p, q);
      }
    }
  }

  lemma LaterMember(ids: seq<nat>, before: (nat, nat) -> bool, p: nat, q: nat)
    requires TotalOrder(before) && Ordered(ids, before) && p < |ids| && q < |ids|
    ensures ids[q] in ids[p + 1..] <==> p < q
    ensures before(ids[p], ids[q]) <==> p < q
  {
    if p < q { assert ids[p + 1..][q - p - 1] == ids[q]; }
  }

  lemma AboveByRank(members: map<nat, real>, p: nat)
    requires p < |Ranked(members)|
    ensures |Above(members, Ranked(members)[p])| == |members| - 1 - p
  {
    RankedIsOrdered(members);
    AboveIsLater(members, p);
    ElementsCount(Ranked(members)[p + 1..], ByScore(members));
  }

  /** How many of `n` members rank too low for the limit. */
  function Cut(n: nat, limit: nat): nat { if n < limit then 0 else n - limit }

  lemma RanksBeforeCut(ids: seq<nat>, limit: nat)
    ensures Ranks(ids, 0, -(limit + 1)) == ids[..Cut(|ids|, limit)]
  {
  }

  /** A member is cut exactly if `limit` members rank above it. */
  lemma CutByRank(members: map<nat, real>, limit: nat, p: nat)
    requires p < |members|
    ensures Ranked(members)[p] in Ranked(members)[..Cut(|members|, limit)]
       <==> |Above(members, Ranked(members)[p])| >= limit
  {
    var ids := Ranked(members);
    RankedIsOrdered(members);
    AboveByRank(members, p);
    EarlierMember(ids, ByScore(members), Cut(|members|, limit), p);
  }

  lemma EarlierMember(ids: seq<nat>, before: (nat, nat) -> bool, cut: nat, p: nat)
    requires TotalOrder(before) && Ordered(ids, before) && cut <= |ids| && p < |ids|
    ensures ids[p] in ids[..cut] <==> p < cut
  {
    if p < cut { assert ids[..cut][p] == ids[p]; }
    if ids[p] in ids[..cut] {
      var q :| 0 <= q < cut && ids[..cut][q] == ids[p];
      LaterMember(ids, before, p, q);
      LaterMember(ids, before, q, p);
    }
  }

  /** Trimming by rank keeps exactly the highest-ranking members. */
  lemma TrimmedIsNewest(members: map<nat, real>, limit: nat)
    ensures Trimmed(members, limit) == Newest(members, limit)
  {
    var ids := Ranked(members);
    RanksBeforeCut(ids, limit);
    forall id | id in members ensures id in Elements(ids[..Cut(|ids|, limit)]) <==> |Above(members, id)| >= limit {
      assert id in ids;
      var p :| 0 <= p < |ids| && ids[p] == id;
      CutByRank(members, limit, p);
    }
  }

  lemma DifferenceCount(members: map<nat, real>, gone: set<nat>)
    requires gone <= members.Keys
    ensures |members - gone| == |members| - |gone|
  {
    assert (members - gone).Keys == members.Keys - gone;
    assert |members.Keys - gone| == |members.Keys| - |gone|;
  }

  lemma TrimmedCount(members: map<nat, real>, limit: nat)
    ensures |Trimmed(members, limit)| == if |members| < limit then |members| else limit
  {
    var ids := Ranked(members);
    var cut := Cut(|ids|, limit);
    RanksBeforeCut(ids, limit);
    RankedIsOrdered(members);
    ByScoreIsTotalOrder(members);
    ElementsCount(ids[..cut], ByScore(members));
    DifferenceCount(members, Elements(ids[..cut]));
  }

  /** The newest members number `limit`, or are all there are. */
  lemma NewestCount(members: map<nat, real>, limit: nat)
    ensures |Newest(members, limit)| == if |members| < limit then |members| else limit
  {
    TrimmedCount(members, limit);
    TrimmedIsNewest(members, limit);
  }

  /** A member that is not among the newest ranks below all of them. */
  lemma NewestRankAbove(members: map<nat, real>, limit: nat, id: nat)
    requires id in members && id !in Newest(members, limit)
    ensures Newest(members, limit).Keys <= Above(members, id)
  {
    ByScoreIsTotalOrder(members);
    forall other | other in Newest(members, limit) ensures other in Above(members, id) {
      if ByScore(members)(other, id) {
        assert Above(members, id) <= Above(members, other);
        SubsetCount(Above(members, id), Above(members, other));
      }
    }
  }

  lemma {:induction false} SubsetCount<T>(a: set<T>, b: set<T>)
    requires a <= b
    ensures |a| <= |b|
  {
    assert b == a + (b - a);
  }

  predicate Within(part: map<nat, real>, whole: map<nat, real>) {
    forall id :: id in part ==> id in whole && whole[id] == part[id]
  }

  /** Any part of the members that still has the newest has the same newest. */
  lemma NewestOfPart(part: map<nat, real>, whole: map<nat, real>, limit: nat)
    requires Within(part, whole) && Newest(whole, limit).Keys <= part.Keys
    ensures Newest(part, limit) == Newest(whole, limit)
  {
    forall id | id in part ensures id in Newest(part, limit) <==> id in Newest(whole, limit) {
      assert Above(part, id) <= Above(whole, id);
      SubsetCount(Above(part, id), Above(whole, id));
      if id !in Newest(whole, limit) {
        NewestRankAbove(whole, limit, id);
        var newest := Newest(whole, limit).Keys;
        assert newest <= Above(part, id);
        SubsetCount(newest, Above(part, id));
        NewestCount(whole, limit);
        assert |newest| == |Newest(whole, limit)|;
        SubsetCount(Above(whole, id), whole.Keys);
      }
    }
  }

  // ---- Reading ranks ----

  /** Ranks as the cache counts them: `start` to `end`, both included, where a negative `end` counts
      from the last. */
  lemma RanksAre<T>(s: seq<T>, start: nat, end: int)
    ensures var last := if end < 0 then |s| + end else if end < |s| then end else |s| - 1;
            && |Ranks(s, start, end)| == (if start <= last then last - start + 1 else 0)
            && forall k :: 0 <= k < |Ranks(s, start, end)| ==> Ranks(s, start, end)[k] == s[start + k]
  {
  }

  /** The member at place `k` of a descending read has exactly `start + k` members above it. */
  lemma ReadFromTop<K, V>(s: Store<K, V>, key: K, start: nat, end: int, k: nat)
    requires k < |RevRange(s, key, start, end)|
    ensures RevRange(s, key, start, end)[k] in MembersOf(s, key)
    ensures |Above(MembersOf(s, key), RevRange(s, key, start, end)[k])| == start + k
  {
    var ids := Ranked(MembersOf(s, key));
    RanksAre(Reversed(ids), start, end);
    var p := |ids| - 1 - (start + k);
    assert RevRange(s, key, start, end)[k] == ids[p];
    assert ids[p] in ids;
    AboveByRank(MembersOf(s, key), p);
  }

  lemma ReadLength<K, V>(s: Store<K, V>, key: K, limit: nat)
    requires limit >= 1
    ensures |RevRange(s, key, 0, limit - 1)|
         == if |MembersOf(s, key)| < limit then |MembersOf(s, key)| else limit
  {
    RanksAre(Reversed(Ranked(MembersOf(s, key))), 0, limit - 1);
  }

  /** The one member has the higher score, or the same and the larger name. */
  predicate Outranks(members: map<nat, real>, a: nat, b: nat) {
    a in members && b in members && (members[a] > members[b] || (members[a] == members[b] && a > b))
  }

  lemma MoreAboveIsLower(members: map<nat, real>, a: nat, b: nat)
    requires a in members && b in members && |Above(members, a)| < |Above(members, b)|
    ensures Outranks(members, a, b)
  {
    ByScoreIsTotalOrder(members);
    if ByScore(members)(a, b) {
      assert Above(members, b) <= Above(members, a);
      SubsetCount(Above(members, b), Above(members, a));
    }
  }

  /** A read of an index lists exactly its newest members, as many as there are up to the limit, the
      highest score first and of equal ones the larger name. */
  lemma ReadListsNewest<K, V>(s: Store<K, V>, key: K, limit: nat)
    requires limit >= 1
    ensures var ids, members := RevRange(s, key, 0, limit - 1), MembersOf(s, key);
            && (forall id :: id in ids <==> id in Newest(members, limit))
            && |ids| == (if |members| < limit then |members| else limit)
            && forall i, j :: 0 <= i < j < |ids| ==> Outranks(members, ids[i], ids[j])
  {
    var ids, members := RevRange(s, key, 0, limit - 1), MembersOf(s, key);
    ReadLength(s, key, limit);
    forall i, j | 0 <= i < j < |ids| ensures Outranks(members, ids[i], ids[j]) {
      ReadFromTop(s, key, 0, limit - 1, i);
      ReadFromTop(s, key, 0, limit - 1, j);
      MoreAboveIsLower(members, ids[i], ids[j]);
    }
    forall id ensures id in ids <==> id in Newest(members, limit) {
      if id in ids {
        var k :| 0 <= k < |ids| && ids[k] == id;
        ReadFromTop(s, key, 0, limit - 1, k);
      }
      if id in Newest(members, limit) { NewestIsRead(s, key, limit, id); }
    }
  }

  lemma NewestIsRead<K, V>(s: Store<K, V>, key: K, limit: nat, id: nat)
    requires limit >= 1 && id in Newest(MembersOf(s, key), limit)
    ensures id in RevRange(s, key, 0, limit - 1)
  {
    var ranked := Ranked(MembersOf(s, key));
    var p :| 0 <= p < |ranked| && ranked[p] == id;
    AboveByRank(MembersOf(s, key), p);
    TopIsRead(ranked, limit, p);
  }

  lemma TopIsRead<T>(ranked: seq<T>, limit: nat, p: nat)
    requires p < |ranked| && |ranked| - 1 - p < limit
    ensures ranked[p] in Ranks(Reversed(ranked), 0, limit - 1)
  {
    RanksAre(Reversed(ranked), 0, limit - 1);
    assert Ranks(Reversed(ranked), 0, limit - 1)[|ranked| - 1 - p] == Reversed(ranked)[|ranked| - 1 - p];
  }

  // ---- Runs of additions ----

  datatype Addition = Addition(id: nat, score: real)

  /** Every addition, the last score of each member counting. */
  function History(additions: seq<Addition>): map<nat, real> {
    if additions == [] then map[]
    else
      var last := additions[|additions| - 1];
      History(additions[..|additions| - 1])[last.id := last.score]
  }

  /** The index that is trimmed after each addition. */
  function Index(additions: seq<Addition>, limit: nat): map<nat, real> {
    if additions == [] then map[]
    else
      var last := additions[|additions| - 1];
      Trimmed(Index(additions[..|additions| - 1], limit)[last.id := last.score], limit)
  }

  /** No member ever comes back with a lower score. */
  ghost predicate NeverDrops(additions: seq<Addition>) {
    forall i, j :: 0 <= i < j < |additions| && additions[i].id == additions[j].id ==>
                     additions[i].score <= additions[j].score
  }

  lemma {:induction false} HistoryScore(additions: seq<Addition>, id: nat)
    requires id in History(additions)
    ensures exists i :: 0 <= i < |additions| && additions[i].id == id && additions[i].score == History(additions)[id]
  {
    var n := |additions| - 1;
    if additions[n].id != id {
      HistoryScore(additions[..n], id);
      var i :| 0 <= i < n && additions[..n][i].id == id && additions[..n][i].score == History(additions[..n])[id];
      assert additions[i].id == id;
    }
  }

  lemma HistoryNext(additions: seq<Addition>, next: Addition)
    ensures History(additions + [next]) == History(additions)[next.id := next.score]
  {
    assert (additions + [next])[..|additions|] == additions;
  }

  lemma IndexNext(additions: seq<Addition>, next: Addition, limit: nat)
    ensures Index(additions + [next], limit) == Newest(Index(additions, limit)[next.id := next.score], limit)
  {
    assert (additions + [next])[..|additions|] == additions;
    TrimmedIsNewest(Index(additions, limit)[next.id := next.score], limit);
  }

  /** Where the member would rank with this score: whether `other` stays above it. */
  predicate RanksAbove(members: map<nat, real>, other: nat, id: nat, score: real)
    requires other in members
  {
    score < members[other] || (score == members[other] && id < other)
  }

  /** A member that was among the newest falls below one that was not: the index no longer knows
      the one that should take its place. */
  ghost predicate FallsBelowDisplaced(history: map<nat, real>, limit: nat, id: nat, score: real) {
    id in Newest(history, limit)
    && exists other :: other in history && other !in Newest(history, limit) && RanksAbove(history, other, id, score)
  }

  lemma AboveAfterAddition(members: map<nat, real>, id: nat, score: real, other: nat)
    requires other in members && other != id
    ensures var after := members[id := score];
            && Above(after, other) - {id} == Above(members, other) - {id}
            && (id in Above(after, other) <==> !RanksAbove(members, other, id, score))
            && (other in Above(after, id) <==> RanksAbove(members, other, id, score))
  {
    ByScoreIsTotalOrder(members[id := score]);
  }

  /** A new member, or one that comes back no lower than every displaced one: nothing is lost. */
  lemma NothingLost(history: map<nat, real>, limit: nat, id: nat, score: real)
    requires !FallsBelowDisplaced(history, limit, id, score)
    ensures Newest(Newest(history, limit)[id := score], limit) == Newest(history[id := score], limit)
  {
    var part, whole := Newest(history, limit)[id := score], history[id := score];
    forall other | other in Newest(whole, limit) ensures other in part {
      if other != id && other !in Newest(history, limit) {
        DisplacedStaysOut(history, limit, id, score, other);
      }
    }
    NewestOfPart(part, whole, limit);
  }

  /** A displaced member stays displaced, unless a newer one falls below it. */
  lemma DisplacedStaysOut(history: map<nat, real>, limit: nat, id: nat, score: real, other: nat)
    requires !FallsBelowDisplaced(history, limit, id, score)
    requires other in history && other != id && other !in Newest(history, limit)
    ensures other !in Newest(history[id := score], limit)
  {
    var newest, after := Newest(history, limit).Keys, Above(history[id := score], other);
    AboveAfterAddition(history, id, score, other);
    NewestRankAbove(history, limit, other);
    NewestCount(history, limit);
    assert newest <= after by {
      forall x | x in newest ensures x in after {
        if x == id { assert !RanksAbove(history, other, id, score); }
      }
    }
    SubsetCount(newest, after);
    SubsetCount(Above(history, other), history.Keys);
  }

  /** The member that falls takes the place of a displaced one. */
  lemma SomethingLost(history: map<nat, real>, limit: nat, id: nat, score: real)
    requires FallsBelowDisplaced(history, limit, id, score)
    ensures id in Newest(Newest(history, limit)[id := score], limit) && id !in Newest(history[id := score], limit)
  {
    var newest := Newest(history, limit).Keys;
    NewestCount(history, limit);
    assert |newest| <= limit;
    var part := Newest(history, limit)[id := score];
    assert Above(part, id) <= newest - {id};
    SubsetCount(Above(part, id), newest - {id});
    var other :| other in history && other !in Newest(history, limit) && RanksAbove(history, other, id, score);
    FallenRank(history, limit, id, score, other);
  }

  lemma FallenRank(history: map<nat, real>, limit: nat, id: nat, score: real, other: nat)
    requires id in Newest(history, limit) && other in history && other !in Newest(history, limit)
    requires RanksAbove(history, other, id, score)
    ensures |Above(history[id := score], id)| >= limit
  {
    var newest, above := Newest(history, limit).Keys, Above(history[id := score], id);
    NewestRankAbove(history, limit, other);
    assert newest - {id} + {other} <= above by {
      forall x | x in newest && x != id ensures x in above { assert x in Above(history, other); }
    }
    SubsetCount(newest - {id} + {other}, above);
    DisplacedMeansFull(history, limit, other);
  }

  lemma DisplacedMeansFull(history: map<nat, real>, limit: nat, other: nat)
    requires other in history && other !in Newest(history, limit)
    ensures |Newest(history, limit).Keys| == limit
  {
    NewestCount(history, limit);
    SubsetCount(Above(history, other), history.Keys - {other});
    assert |Newest(history, limit).Keys| == |Newest(history, limit)|;
  }

  /** One more addition keeps the index exact, exactly if it does not fall below a displaced member. */
  lemma AdditionKeepsNewest(history: map<nat, real>, limit: nat, id: nat, score: real)
    ensures Newest(Newest(history, limit)[id := score], limit) == Newest(history[id := score], limit)
       <==> !FallsBelowDisplaced(history, limit, id, score)
  {
    if FallsBelowDisplaced(history, limit, id, score) {
      SomethingLost(history, limit, id, score);
    } else {
      NothingLost(history, limit, id, score);
    }
  }

  /** No addition falls below a member that the index has already displaced. */
  ghost predicate NoneFalls(additions: seq<Addition>, limit: nat) {
    additions == []
    || var n := |additions| - 1;
       && NoneFalls(additions[..n], limit)
       && !FallsBelowDisplaced(History(additions[..n]), limit, additions[n].id, additions[n].score)
  }

  ghost predicate Exact(additions: seq<Addition>, limit: nat) {
    Index(additions, limit) == Newest(History(additions), limit)
  }

  /** The index is the trimmed history after every addition. */
  ghost predicate AlwaysExact(additions: seq<Addition>, limit: nat) {
    Exact(additions, limit) && (additions == [] || AlwaysExact(additions[..|additions| - 1], limit))
  }

  lemma ExactNext(additions: seq<Addition>, next: Addition, limit: nat)
    requires Exact(additions, limit)
    ensures Exact(additions + [next], limit)
       <==> !FallsBelowDisplaced(History(additions), limit, next.id, next.score)
  {
    HistoryNext(additions, next);
    IndexNext(additions, next, limit);
    AdditionKeepsNewest(History(additions), limit, next.id, next.score);
  }

  /** The index always is the trimmed history exactly if no addition falls below a displaced member. */
  lemma {:induction false} ExactUnlessOneFalls(additions: seq<Addition>, limit: nat)
    ensures AlwaysExact(additions, limit) <==> NoneFalls(additions, limit)
  {
    if additions != [] {
      var n := |additions| - 1;
      var before, last := additions[..n], additions[n];
      ExactUnlessOneFalls(before, limit);
      assert additions == before + [last];
      if Exact(before, limit) { ExactNext(before, last, limit); }
    }
  }

  /** Trimming after every addition loses nothing if none falls: the index is the full history, trimmed once. */
  lemma IndexIsHistoryTrimmedOnce(additions: seq<Addition>, limit: nat)
    requires NoneFalls(additions, limit)
    ensures Index(additions, limit) == Newest(History(additions), limit)
  {
    ExactUnlessOneFalls(additions, limit);
  }

  /** Scores that never drop never fall below a displaced member. */
  lemma {:induction false} NeverDropsNoneFalls(additions: seq<Addition>, limit: nat)
    requires NeverDrops(additions)
    ensures NoneFalls(additions, limit)
  {
    if additions != [] {
      var n := |additions| - 1;
      var history, id := History(additions[..n]), additions[n].id;
      NeverDropsNoneFalls(additions[..n], limit);
      if id in Newest(history, limit) {
        HistoryScore(additions[..n], id);
        RisingDoesNotFall(history, limit, id, additions[n].score);
      }
    }
  }

  lemma RisingDoesNotFall(history: map<nat, real>, limit: nat, id: nat, score: real)
    requires id in Newest(history, limit) && history[id] <= score
    ensures !FallsBelowDisplaced(history, limit, id, score)
  {
    forall other | other in history && other !in Newest(history, limit) ensures !RanksAbove(history, other, id, score) {
      NewestRankAbove(history, limit, other);
      assert id in Above(history, other);
    }
  }
}
