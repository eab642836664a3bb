/** What the shared cache means: a store whose keys vanish at the moment they expire.
    Members of a sorted set are record keys, named by their digests. */
module CacheStore {
  import opened Outcome
  import opened Sorting

  const PTTL_MISSING_KEY := -2
  const PTTL_NO_EXPIRY := -1

  datatype Store<K, V> = Store(
    now: real,
    values: map<K, V>,
    sets: map<K, map<nat, real>>,
    expires: map<K, real>)

  function Empty<K, V>(now: real): Store<K, V> { Store(now, map[], map[], map[]) }

  predicate Present<K(==), V>(s: Store<K, V>, key: K) { key in s.values || key in s.sets }

  /** Nothing that has expired is still there. */
  ghost predicate Settled<K(!new), V>(s: Store<K, V>) {
    forall key :: key in s.expires ==> Present(s, key) && s.expires[key] > s.now
  }

  // ---- Commands ----

  function Get<K(==), V>(s: Store<K, V>, key: K): Option<V> {
    if key in s.values then Some(s.values[key]) else None
  }

  function Reset<K(==)>(expires: map<K, real>, key: K, at: Option<real>): map<K, real> {
    if at.Some? then expires[key := at.value] else expires - {key}
  }

  function At(now: real, ex: Option<int>): Option<real> {
    if ex.Some? then Some(now + ex.value as real) else None
  }

  /** SET, with its EX, NX and XX options. The reply says whether it wrote. A lifetime that is not
      positive is over at once, for everything the key held. */
  function SetValue<K(==), V>(s: Store<K, V>, key: K, value: V, ex: Option<int>, nx: bool, xx: bool): (Store<K, V>, bool) {
    if (nx && key in s.values) || (xx && key !in s.values) then (s, false)
    else if ex.Some? && ex.value <= 0 then (Delete(s, {key}), true)
    else
      (s.(values := s.values[key := value], expires := Reset(s.expires, key, At(s.now, ex))), true)
  }

  function Delete<K(==), V>(s: Store<K, V>, keys: set<K>): Store<K, V> {
    s.(values := s.values - keys, sets := s.sets - keys, expires := s.expires - keys)
  }

  function Expire<K(==), V>(s: Store<K, V>, key: K, seconds: int): Store<K, V> {
    if !Present(s, key) then s
    else if seconds <= 0 then Delete(s, {key})
    else s.(expires := Reset(s.expires, key, At(s.now, Some(seconds))))
  }

  function Ceiling(x: real): int { -((-x).Floor) }

  /** The key's milliseconds to live. */
  function Pttl<K(==), V>(s: Store<K, V>, key: K): int {
    if !Present(s, key) then PTTL_MISSING_KEY
    else if key !in s.expires then PTTL_NO_EXPIRY
    else Ceiling((s.expires[key] - s.now) * 1000.0)
  }

  function MembersOf<K(==), V>(s: Store<K, V>, key: K): map<nat, real> {
    if key in s.sets then s.sets[key] else map[]
  }

  function AddMember<K(==), V>(s: Store<K, V>, key: K, id: nat, score: real): Store<K, V> {
    s.(sets := s.sets[key := MembersOf(s, key)[id := score]])
  }

  function AddMembers<K(==), V>(s: Store<K, V>, key: K, scores: map<nat, real>): Store<K, V> {
    s.(sets := s.sets[key := MembersOf(s, key) + scores])
  }

  function RemoveMembers<K(==), V>(s: Store<K, V>, key: K, ids: set<nat>): Store<K, V> {
    if key in s.sets then s.(sets := s.sets[key := s.sets[key] - ids]) else s
  }

  /** Ascending by score, then by member. */
  function ByScore(members: map<nat, real>): (nat, nat) -> bool {
    (a, b) =>
      var sa, sb := if a in members then members[a] else 0.0, if b in members then members[b] else 0.0;
      sa < sb || (sa == sb && a < b)
  }

  lemma ByScoreIsTotalOrder(members: map<nat, real>)
    ensures TotalOrder(ByScore(members))
  {
  }

  function Ranked(members: map<nat, real>): (ids: seq<nat>)
    ensures forall id :: id in ids <==> id in members
    ensures |ids| == |members|
  {
    ByScoreIsTotalOrder(members);
    Sorted(members.Keys, ByScore(members))
  }

  function Reversed<T>(s: seq<T>): (r: seq<T>)
    ensures |r| == |s| && forall i :: 0 <= i < |s| ==> r[i] == s[|s| - 1 - i]
  {
    seq(|s|, i requires 0 <= i < |s| => s[|s| - 1 - i])
  }

  /** Python's `s[start:end + 1]`, and `s[start:]` when `end` is -1: the ranks `start` to `end`. */
  function Ranks<T>(s: seq<T>, start: nat, end: int): seq<T> {
    var stop := if end == -1 then |s| else if end + 1 < 0 then |s| + end + 1 else end + 1;
    var to := if stop < 0 then 0 else if stop > |s| then |s| else stop;
    if start < to then s[start..to] else []
  }

  /** ZREVRANGE. */
  function RevRange<K(==), V>(s: Store<K, V>, key: K, start: nat, end: int): seq<nat> {
    Ranks(Reversed(Ranked(MembersOf(s, key))), start, end)
  }

  /** ZREMRANGEBYRANK. */
  function RemoveRanks<K(==), V>(s: Store<K, V>, key: K, start: nat, end: int): Store<K, V> {
    RemoveMembers(s, key, Elements(Ranks(Ranked(MembersOf(s, key)), start, end)))
  }

  /** The claim store's script: delete the key if it still holds exactly this value. */
  function CompareAndDelete<K(==), V(==)>(s: Store<K, V>, key: K, expected: V): (Store<K, V>, bool) {
    if Get(s, key) == Some(expected) then (Delete(s, {key}), true) else (s, false)
  }

  /** The record script: delete the record and its two index entries if it still holds exactly this value. */
  function DeleteUnchanged<K(==), V(==)>(s: Store<K, V>, key: K, id: nat, scopeIndex: K, recentIndex: K, expected: V)
    : (Store<K, V>, bool)
  {
    if Get(s, key) == Some(expected) then
      (RemoveMembers(RemoveMembers(Delete(s, {key}), scopeIndex, {id}), recentIndex, {id}), true)
    else (s, false)
  }

  /** The clock moves on, and what has expired is gone. */
  function Advance<K(!new), V>(s: Store<K, V>, seconds: real): Store<K, V> {
    Purged(s.(now := s.now + seconds))
  }

  function Purged<K(!new), V>(s: Store<K, V>): Store<K, V> {
    Store(s.now, Unexpired(s.values, s.expires, s.now), Unexpired(s.sets, s.expires, s.now),
          Unexpired(s.expires, s.expires, s.now))
  }

  predicate Lapsed<K(==)>(expires: map<K, real>, now: real, key: K) { key in expires && expires[key] <= now }

  function Unexpired<K(!new), T>(m: map<K, T>, expires: map<K, real>, now: real): map<K, T> {
    map key | key in m && !Lapsed(expires, now, key) :: m[key]
  }

  // ---- Purging late changes nothing: each command commutes with it ----

  lemma UnexpiredTwice<K(!new), T>(m: map<K, T>, expires: map<K, real>, now: real, later: real)
    requires now <= later
    ensures Unexpired(Unexpired(m, expires, now), Unexpired(expires, expires, now), later)
         == Unexpired(m, expires, later)
  {
  }

  lemma PurgedAdvance<K(!new), V>(r: Store<K, V>, seconds: real)
    requires seconds >= 0.0
    ensures Purged(r.(now := r.now + seconds)) == Advance(Purged(r), seconds)
  {
    var later := r.now + seconds;
    UnexpiredTwice(r.values, r.expires, r.now, later);
    UnexpiredTwice(r.sets, r.expires, r.now, later);
    UnexpiredTwice(r.expires, r.expires, r.now, later);
  }

  /** A key given a new expiry, in the future, or none. */
  lemma UnexpiredReset<K(!new), T>(m: map<K, T>, expires: map<K, real>, now: real, key: K, at: Option<real>)
    requires !Lapsed(expires, now, key) && (at.Some? ==> at.value > now)
    ensures Unexpired(m, Reset(expires, key, at), now) == Unexpired(m, expires, now)
    ensures Unexpired(Reset(expires, key, at), Reset(expires, key, at), now)
         == Reset(Unexpired(expires, expires, now), key, at)
  {
  }

  lemma UnexpiredPut<K(!new), T>(m: map<K, T>, expires: map<K, real>, now: real, key: K, value: T)
    requires !Lapsed(expires, now, key)
    ensures Unexpired(m[key := value], expires, now) == Unexpired(m, expires, now)[key := value]
  {
  }

  lemma UnexpiredLess<K(!new), T>(m: map<K, T>, expires: map<K, real>, now: real, keys: set<K>)
    ensures Unexpired(m - keys, expires - keys, now) == Unexpired(m, expires, now) - keys
  {
  }

  /** A key whose time is up already takes everything it held with it. */
  lemma UnexpiredDoomed<K(!new), T>(m: map<K, T>, expires: map<K, real>, now: real, key: K, at: real)
    requires at <= now
    ensures Unexpired(m, expires[key := at], now) == Unexpired(m, expires, now) - {key}
    ensures Unexpired(expires[key := at], expires[key := at], now) == Unexpired(expires, expires, now) - {key}
  {
  }

  lemma UnexpiredDoomedPut<K(!new), T>(m: map<K, T>, expires: map<K, real>, now: real, key: K, at: real, value: T)
    requires at <= now
    ensures Unexpired(m[key := value], expires[key := at], now) == Unexpired(m, expires, now) - {key}
  {
  }

  /** What SET leaves in the fields, before anything is purged. */
  function Written<K(==), V>(r: Store<K, V>, key: K, value: V, ex: Option<int>): Store<K, V> {
    r.(values := r.values[key := value], expires := Reset(r.expires, key, At(r.now, ex)))
  }

  lemma PurgedSet<K(!new), V>(r: Store<K, V>, key: K, value: V, ex: Option<int>)
    requires !Lapsed(r.expires, r.now, key)
    ensures Purged(Written(r, key, value, ex)) == SetValue(Purged(r), key, value, ex, false, false).0
  {
    var at := At(r.now, ex);
    if ex.Some? && ex.value <= 0 {
      UnexpiredDoomedPut(r.values, r.expires, r.now, key, at.value, value);
      UnexpiredDoomed(r.sets, r.expires, r.now, key, at.value);
    } else {
      UnexpiredReset(r.values[key := value], r.expires, r.now, key, at);
      UnexpiredReset(r.sets, r.expires, r.now, key, at);
      UnexpiredPut(r.values, r.expires, r.now, key, value);
    }
  }

  lemma PurgedDelete<K(!new), V>(r: Store<K, V>, keys: set<K>)
    ensures Purged(Delete(r, keys)) == Delete(Purged(r), keys)
  {
    UnexpiredLess(r.values, r.expires, r.now, keys);
    UnexpiredLess(r.sets, r.expires, r.now, keys);
    UnexpiredLess(r.expires, r.expires, r.now, keys);
  }

  lemma PurgedExpire<K(!new), V>(r: Store<K, V>, key: K, seconds: int)
    requires !Lapsed(r.expires, r.now, key) && Present(r, key)
    ensures Purged(r.(expires := r.expires[key := r.now + seconds as real])) == Expire(Purged(r), key, seconds)
  {
    var at := r.now + seconds as real;
    assert Present(r, key) == Present(Purged(r), key);
    if seconds <= 0 {
      UnexpiredDoomed(r.values, r.expires, r.now, key, at);
      UnexpiredDoomed(r.sets, r.expires, r.now, key, at);
    } else {
      UnexpiredReset(r.values, r.expires, r.now, key, Some(at));
      UnexpiredReset(r.sets, r.expires, r.now, key, Some(at));
    }
  }

  lemma PurgedRemove<K(!new), V>(r: Store<K, V>, key: K, ids: set<nat>)
    ensures Purged(RemoveMembers(r, key, ids)) == RemoveMembers(Purged(r), key, ids)
  {
    if key in r.sets && !Lapsed(r.expires, r.now, key) {
      UnexpiredPut(r.sets, r.expires, r.now, key, r.sets[key] - ids);
    } else if key in r.sets {
      var less := r.sets[key := r.sets[key] - ids];
      assert Unexpired(less, r.expires, r.now) == Unexpired(r.sets, r.expires, r.now);
    }
  }

  // ---- Transactions ----

  datatype Command<K, V> =
    | SetCommand(key: K, value: V, ex: Option<int>, xx: bool)
    | AddCommand(key: K, id: nat, score: real)
    | RemoveRanksCommand(key: K, start: nat, end: int)
    | ExpireCommand(key: K, seconds: int)
    | DeleteCommand(key: K)
    | RemoveCommand(key: K, id: nat)

  function Apply<K(==), V>(s: Store<K, V>, c: Command<K, V>): Store<K, V> {
    match c
    case SetCommand(key, value, ex, xx) => SetValue(s, key, value, ex, false, xx).0
    case AddCommand(key, id, score) => AddMember(s, key, id, score)
    case RemoveRanksCommand(key, start, end) => RemoveRanks(s, key, start, end)
    case ExpireCommand(key, seconds) => Expire(s, key, seconds)
    case DeleteCommand(key) => Delete(s, {key})
    case RemoveCommand(key, id) => RemoveMembers(s, key, {id})
  }

  function ApplyAll<K(==), V>(s: Store<K, V>, commands: seq<Command<K, V>>): Store<K, V> {
    if commands == [] then s
    else Apply(ApplyAll(s, commands[..|commands| - 1]), commands[|commands| - 1])
  }

  lemma {:induction false} ApplyInTurn<K(!new), V>(s: Store<K, V>, a: seq<Command<K, V>>, b: seq<Command<K, V>>)
    ensures ApplyAll(s, a + b) == ApplyAll(ApplyAll(s, a), b)
  {
    if b == [] {
      assert a + b == a;
    } else {
      var n := |b| - 1;
      ApplyInTurn(s, a, b[..n]);
      assert (a + b)[..|a + b| - 1] == a + b[..n];
    }
  }

  lemma ThreeInTurn<K(!new), V>(s: Store<K, V>, a: Command<K, V>, b: Command<K, V>, c: Command<K, V>)
    ensures ApplyAll(s, [a, b, c]) == Apply(Apply(Apply(s, a), b), c)
  {
    assert [a, b, c][..2] == [a, b] && [a, b][..1] == [a] && [a][..0] == [];
    assert ApplyAll(s, []) == s;
    assert ApplyAll(s, [a]) == Apply(s, a);
    assert ApplyAll(s, [a, b]) == Apply(Apply(s, a), b);
  }

  /** Whether a SET command writes; the replies to other commands are not used. */
  function Reply<K(==), V>(s: Store<K, V>, c: Command<K, V>): bool {
    c.SetCommand? ==> SetValue(s, c.key, c.value, c.ex, false, c.xx).1
  }

  function Replies<K(==), V>(s: Store<K, V>, commands: seq<Command<K, V>>): (replies: seq<bool>)
    ensures |replies| == |commands|
  {
    if commands == [] then []
    else
      var before := commands[..|commands| - 1];
      Replies(s, before) + [Reply(ApplyAll(s, before), commands[|commands| - 1])]
  }

  lemma {:induction false} FirstReply<K(!new), V>(s: Store<K, V>, commands: seq<Command<K, V>>)
    requires commands != []
    ensures Replies(s, commands)[0] == Reply(s, commands[0])
  {
    var n := |commands| - 1;
    if n > 0 { FirstReply(s, commands[..n]); } else { assert commands[..n] == []; }
  }

  // ---- Commands keep the store settled ----

  lemma {:induction false} TransactionsKeepSettled<K(!new), V>(s: Store<K, V>, commands: seq<Command<K, V>>)
    requires Settled(s)
    ensures Settled(ApplyAll(s, commands)) && ApplyAll(s, commands).now == s.now
  {
    if commands != [] {
      var n := |commands| - 1;
      TransactionsKeepSettled(s, commands[..n]);
      CommandKeepsSettled(ApplyAll(s, commands[..n]), commands[n]);
    }
  }

  lemma CommandKeepsSettled<K(!new), V>(s: Store<K, V>, c: Command<K, V>)
    requires Settled(s)
    ensures Settled(Apply(s, c)) && Apply(s, c).now == s.now
  {
    match c
    case SetCommand(key, value, ex, xx) =>
    case AddCommand(key, id, score) =>
    case RemoveRanksCommand(key, start, end) =>
    case ExpireCommand(key, seconds) =>
    case DeleteCommand(key) =>
    case RemoveCommand(key, id) =>
  }
}
