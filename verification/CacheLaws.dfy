/** What callers of the cache may rely on: what a command leaves to be read, and for how long. */
module CacheLaws {
  import opened Outcome
  import opened CacheStore

  /** Nothing can be told apart about this key. */
  ghost predicate SameKey<K, V>(s: Store<K, V>, t: Store<K, V>, key: K) {
    && Get(t, key) == Get(s, key) && MembersOf(t, key) == MembersOf(s, key) && Present(t, key) == Present(s, key)
    && Pttl(t, key) == Pttl(s, key)
  }

  /** SET writes exactly if its NX and XX allow it, and then the value is read back, unless its
      lifetime is not positive: then nothing is there. It touches no other key. */
  lemma SetIsReadBack<K, V>(s: Store<K, V>, key: K, value: V, ex: Option<int>, nx: bool, xx: bool, other: K)
    ensures var (t, written) := SetValue(s, key, value, ex, nx, xx);
            && (written <==> (nx ==> Get(s, key).None?) && (xx ==> Get(s, key).Some?))
            && (!written ==> t == s)
            && (written && (ex.None? || ex.value > 0) ==> Get(t, key) == Some(value) && MembersOf(t, key) == MembersOf(s, key))
            && (written && ex.Some? && ex.value <= 0 ==> !Present(t, key))
            && (other != key ==> SameKey(s, t, other))
  {
  }

  /** What was set with a lifetime is read for exactly that long; without one, for ever. */
  lemma SetLasts<K(!new), V>(s: Store<K, V>, key: K, value: V, ex: Option<int>, nx: bool, xx: bool, seconds: real)
    requires SetValue(s, key, value, ex, nx, xx).1 && seconds >= 0.0 && (ex.Some? ==> ex.value > 0)
    ensures Get(Advance(SetValue(s, key, value, ex, nx, xx).0, seconds), key)
         == if ex.None? || seconds < ex.value as real then Some(value) else None
  {
  }

  /** EXPIRE gives a key that is there exactly this long, and does nothing for one that is not. */
  lemma ExpiryLasts<K(!new), V>(s: Store<K, V>, key: K, lifetime: int, seconds: real, other: K)
    requires seconds >= 0.0
    ensures var t := Expire(s, key, lifetime);
            && (Present(s, key) ==> (Present(Advance(t, seconds), key) <==> seconds < lifetime as real))
            && (!Present(s, key) ==> t == s)
            && (Present(s, key) && lifetime > 0 ==> Get(t, key) == Get(s, key) && MembersOf(t, key) == MembersOf(s, key))
            && (other != key ==> SameKey(s, t, other))
  {
  }

  /** PTTL is -2 for a missing key, -1 for one without expiry, and otherwise the least number of
      milliseconds after which the key is gone. */
  lemma TimeToLiveIs<K(!new), V>(s: Store<K, V>, key: K, wait: nat)
    requires Settled(s)
    ensures Pttl(s, key) == -2 <==> !Present(s, key)
    ensures Pttl(s, key) == -1 <==> Present(s, key) && key !in s.expires
    ensures Pttl(s, key) >= 0 ==> (wait < Pttl(s, key) <==> Present(Advance(s, wait as real / 1000.0), key))
  {
    if key in s.expires {
      var left := (s.expires[key] - s.now) * 1000.0;
      assert (Ceiling(left) - 1) as real < left <= Ceiling(left) as real;
      assert Ceiling(left) > 0;
    }
  }

  /** A deleted key is gone with everything it held; no other is. */
  lemma DeletedIsGone<K(!new), V>(s: Store<K, V>, keys: set<K>, key: K)
    ensures var t := Delete(s, keys);
            if key in keys then !Present(t, key) && Get(t, key).None? && MembersOf(t, key) == map[] && key !in t.expires
            else SameKey(s, t, key)
  {
  }

  /** ZADD gives its members their new scores, keeps the other members and their scores, and touches no other key. */
  lemma AddedAreMembers<K, V>(s: Store<K, V>, key: K, scores: map<nat, real>, id: nat, other: K)
    ensures var t := AddMembers(s, key, scores);
            && (id in MembersOf(t, key) <==> id in scores || id in MembersOf(s, key))
            && (id in scores ==> MembersOf(t, key)[id] == scores[id])
            && (id in MembersOf(s, key) && id !in scores ==> MembersOf(t, key)[id] == MembersOf(s, key)[id])
            && Get(t, key) == Get(s, key) && (other != key ==> SameKey(s, t, other))
  {
  }

  lemma AddedIsMember<K, V>(s: Store<K, V>, key: K, added: nat, score: real)
    ensures AddMember(s, key, added, score) == AddMembers(s, key, map[added := score])
  {
    assert MembersOf(s, key)[added := score] == MembersOf(s, key) + map[added := score];
  }

  /** ZREM removes these members, keeps the others, and touches no other key. */
  lemma RemovedAreNot<K, V>(s: Store<K, V>, key: K, ids: set<nat>, id: nat, other: K)
    ensures var t := RemoveMembers(s, key, ids);
            && (id in MembersOf(t, key) <==> id in MembersOf(s, key) && id !in ids)
            && (id in MembersOf(t, key) ==> MembersOf(t, key)[id] == MembersOf(s, key)[id])
            && Get(t, key) == Get(s, key) && (other != key ==> SameKey(s, t, other))
  {
  }

  /** The compare-and-delete script removes the key exactly if it holds the value, and says so. */
  lemma ComparedIsDeleted<K, V>(s: Store<K, V>, key: K, expected: V, other: K)
    ensures var (t, deleted) := CompareAndDelete(s, key, expected);
            && (deleted <==> Get(s, key) == Some(expected))
            && (if deleted then !Present(t, key) else t == s)
            && (other != key ==> SameKey(s, t, other))
  {
  }

  /** Time alone removes a key exactly when its expiry has come, and changes nothing else. */
  lemma TimePasses<K(!new), V>(s: Store<K, V>, seconds: real, key: K)
    requires seconds >= 0.0
    ensures var t := Advance(s, seconds);
            if key in s.expires && s.expires[key] <= s.now + seconds then !Present(t, key)
            else Get(t, key) == Get(s, key) && MembersOf(t, key) == MembersOf(s, key)
                 && (key in t.expires <==> key in s.expires) && (key in s.expires ==> t.expires[key] == s.expires[key])
  {
  }
}
