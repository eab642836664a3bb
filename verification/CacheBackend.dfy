/** The in-memory cache: expired keys linger until something touches them, and no caller can tell. */
module CacheBackend {
  import opened Outcome
  import opened Sorting
  import opened CacheStore

  class InMemoryCacheBackend<K(==, !new), V(==)> {
    var time: real
    var values: map<K, V>
    var expires: map<K, real>
    var sortedSets: map<K, map<nat, real>>

    /** What the fields hold, expired keys and all. */
    ghost function Raw(): Store<K, V>
      reads this
    {
      Store(time, values, sortedSets, expires)
    }

    /** What callers can see: the store without the keys whose time has come. */
    ghost function View(): Store<K, V>
      reads this
    {
      Purged(Raw())
    }

    /** Only keys that are there have an expiry. */
    ghost predicate Valid()
      reads this
    {
      forall key :: key in expires ==> key in values || key in sortedSets
    }

    constructor ()
      ensures Valid() && View() == Empty(0.0)
    {
      time, values, expires, sortedSets := 0.0, map[], map[], map[];
    }

    method AdvanceClock(seconds: real)
      requires Valid() && seconds >= 0.0
      modifies this
      ensures Valid() && View() == Advance(old(View()), seconds)
    {
      PurgedAdvance(Raw(), seconds);
      time := time + seconds;
    }

    method Purge(key: K)
      requires Valid()
      modifies this
      ensures Valid() && View() == old(View()) && time == old(time)
      ensures !Lapsed(expires, time, key)
      ensures Get(View(), key) == (if key in values then Some(values[key]) else None)
      ensures key in View().sets <==> key in sortedSets
    {
      if key in expires && expires[key] <= time {
        PurgedDelete(Raw(), {key});
        assert Delete(View(), {key}) == View();
        values := values - {key};
        sortedSets := sortedSets - {key};
        expires := expires - {key};
      }
    }

    method GetValue(key: K) returns (value: Option<V>)
      requires Valid()
      modifies this
      ensures Valid() && View() == old(View())
      ensures value == Get(View(), key)
    {
      Purge(key);
      value := if key in values then Some(values[key]) else None;
    }

    method Set(key: K, value: V, ex: Option<int>, nx: bool, xx: bool) returns (written: bool)
      requires Valid()
      modifies this
      ensures Valid() && (View(), written) == SetValue(old(View()), key, value, ex, nx, xx)
    {
      Purge(key);
      if (nx && key in values) || (xx && key !in values) {
        return false;
      }
      PurgedSet(Raw(), key, value, ex);
      values := values[key := value];
      if ex.Some? {
        expires := expires[key := time + ex.value as real];
      } else {
        expires := expires - {key};
      }
      return true;
    }

    method DeleteKey(key: K) returns (existed: bool)
      requires Valid()
      modifies this
      ensures Valid() && View() == Delete(old(View()), {key})
      ensures existed == Present(old(View()), key)
    {
      Purge(key);
      existed := key in values || key in sortedSets;
      PurgedDelete(Raw(), {key});
      values := values - {key};
      sortedSets := sortedSets - {key};
      expires := expires - {key};
    }

    /** Deletes every key, and counts those that existed. */
    method DeleteKeys(keys: seq<K>) returns (deleted: nat)
      requires Valid()
      modifies this
      ensures Valid() && View() == Delete(old(View()), Elements(keys))
      ensures deleted == |Existing(old(View()), Elements(keys))|
    {
      deleted := 0;
      DeleteNothing(View());
      for i := 0 to |keys|
        invariant Valid() && View() == Delete(old(View()), Elements(keys[..i]))
        invariant deleted == |Existing(old(View()), Elements(keys[..i]))|
      {
        DeleteNext(old(View()), keys[..i], keys[i]);
        assert keys[..i + 1] == keys[..i] + [keys[i]];
        var existed := DeleteKey(keys[i]);
        if existed {
          deleted := deleted + 1;
        }
      }
      assert keys[..|keys|] == keys;
    }

    method ExpireKey(key: K, seconds: int) returns (found: bool)
      requires Valid()
      modifies this
      ensures Valid() && View() == Expire(old(View()), key, seconds)
      ensures found == Present(old(View()), key)
    {
      Purge(key);
      if key !in values && key !in sortedSets {
        return false;
      }
      PurgedExpire(Raw(), key, seconds);
      expires := expires[key := time + seconds as real];
      return true;
    }

    method TimeToLive(key: K) returns (milliseconds: int)
      requires Valid()
      modifies this
      ensures Valid() && View() == old(View())
      ensures milliseconds == Pttl(View(), key)
    {
      Purge(key);
      if key !in values && key !in sortedSets {
        return PTTL_MISSING_KEY;
      }
      if key !in expires {
        return PTTL_NO_EXPIRY;
      }
      return Ceiling((expires[key] - time) * 1000.0);
    }

    /** Upserts the members' scores, and counts the new members. */
    method Zadd(key: K, scores: map<nat, real>) returns (added: nat)
      requires Valid()
      modifies this
      ensures Valid() && View() == AddMembers(old(View()), key, scores)
      ensures added == |scores.Keys - MembersOf(old(View()), key).Keys|
    {
      Purge(key);
      var members := if key in sortedSets then sortedSets[key] else map[];
      UnexpiredPut(sortedSets, expires, time, key, members + scores);
      added := |scores.Keys - members.Keys|;
      sortedSets := sortedSets[key := members + scores];
    }

    method Zrevrange(key: K, start: nat, end: int) returns (ids: seq<nat>)
      requires Valid()
      modifies this
      ensures Valid() && View() == old(View())
      ensures ids == RevRange(View(), key, start, end)
    {
      Purge(key);
      ids := Ranks(Reversed(Ranked(if key in sortedSets then sortedSets[key] else map[])), start, end);
    }

    /** Does not purge first, so it also counts members of a set that has expired but lingers. */
    method Zrem(key: K, ids: set<nat>) returns (removed: nat)
      requires Valid()
      modifies this
      ensures Valid() && View() == RemoveMembers(old(View()), key, ids)
      ensures removed == |ids * old(if key in sortedSets then sortedSets[key].Keys else {})|
      ensures !old(Lapsed(expires, time, key)) ==> removed == |ids * MembersOf(old(View()), key).Keys|
    {
      PurgedRemove(Raw(), key, ids);
      if key in sortedSets {
        var members := sortedSets[key];
        removed := |ids * members.Keys|;
        sortedSets := sortedSets[key := members - ids];
      } else {
        removed := |ids * {}|;
      }
    }

    method Zremrangebyrank(key: K, start: nat, end: int) returns (removed: nat)
      requires Valid()
      modifies this
      ensures Valid() && View() == RemoveRanks(old(View()), key, start, end)
      ensures removed == |Elements(Ranks(Ranked(MembersOf(old(View()), key)), start, end))|
    {
      Purge(key);
      var members := if key in sortedSets then sortedSets[key] else map[];
      var gone := Elements(Ranks(Ranked(members), start, end));
      assert gone * members.Keys == gone by {
        forall id | id in gone ensures id in members { assert id in Ranked(members); }
      }
      removed := Zrem(key, gone);
    }

    method EvalCompareAndDelete(key: K, expected: V) returns (deleted: bool)
      requires Valid()
      modifies this
      ensures Valid() && (View(), deleted) == CompareAndDelete(old(View()), key, expected)
    {
      var value := GetValue(key);
      if value != Some(expected) {
        return false;
      }
      deleted := DeleteKey(key);
    }

    method EvalDeleteUnchanged(key: K, id: nat, scopeIndex: K, recentIndex: K, expected: V) returns (deleted: bool)
      requires Valid()
      modifies this
      ensures Valid() && (View(), deleted) == DeleteUnchanged(old(View()), key, id, scopeIndex, recentIndex, expected)
    {
      var value := GetValue(key);
      if value != Some(expected) {
        return false;
      }
      var existed := DeleteKey(key);
      var inScope := Zrem(scopeIndex, {id});
      var inRecent := Zrem(recentIndex, {id});
      return true;
    }
  }

  /** The keys that exist. */
  ghost function Existing<K(!new), V>(s: Store<K, V>, keys: set<K>): set<K> { set key | key in keys && Present(s, key) }

  lemma DeleteNothing<K(!new), V>(s: Store<K, V>)
    ensures Delete(s, {}) == s && Existing(s, {}) == {}
    ensures forall keys: seq<K> :: Elements(keys[..0]) == {}
  {
  }

  lemma DeleteNext<K(!new), V>(s: Store<K, V>, before: seq<K>, key: K)
    ensures Delete(Delete(s, Elements(before)), {key}) == Delete(s, Elements(before + [key]))
    ensures |Existing(s, Elements(before + [key]))|
         == |Existing(s, Elements(before))| + if Present(Delete(s, Elements(before)), key) then 1 else 0
  {
    assert Elements(before + [key]) == Elements(before) + {key};
    DeleteTwice(s, Elements(before), {key});
    OneMoreExisting(s, Elements(before), key);
  }

  lemma DeleteTwice<K(!new), V>(s: Store<K, V>, a: set<K>, b: set<K>)
    ensures Delete(Delete(s, a), b) == Delete(s, a + b)
  {
    LessTwice(s.values, a, b);
    LessTwice(s.sets, a, b);
    LessTwice(s.expires, a, b);
  }

  lemma LessTwice<K(!new), T>(m: map<K, T>, a: set<K>, b: set<K>)
    ensures m - a - b == m - (a + b)
  {
  }

  lemma OneMoreExisting<K(!new), V>(s: Store<K, V>, keys: set<K>, key: K)
    ensures |Existing(s, keys + {key})| == |Existing(s, keys)| + if Present(Delete(s, keys), key) then 1 else 0
  {
    if Present(Delete(s, keys), key) {
      assert Existing(s, keys + {key}) == Existing(s, keys) + {key};
    } else {
      assert Existing(s, keys + {key}) == Existing(s, keys);
    }
  }

  lemma AddOneMember<K(!new), V>(s: Store<K, V>, key: K, id: nat, score: real)
    ensures AddMembers(s, key, map[id := score]) == AddMember(s, key, id, score)
  {
    assert MembersOf(s, key) + map[id := score] == MembersOf(s, key)[id := score];
  }

  /** Commands that run together: nothing else sees or changes the cache between them. */
  class InMemoryPipeline<K(==, !new), V(==)> {
    const backend: InMemoryCacheBackend<K, V>
    var operations: seq<Command<K, V>>

    constructor (backend: InMemoryCacheBackend<K, V>)
      ensures this.backend == backend && operations == []
    {
      this.backend := backend;
      operations := [];
    }

    method Queue(command: Command<K, V>)
      modifies this
      ensures operations == old(operations) + [command]
    {
      operations := operations + [command];
    }

    method Execute() returns (replies: seq<bool>)
      requires backend.Valid()
      modifies this, backend
      ensures backend.Valid() && operations == []
      ensures backend.View() == ApplyAll(old(backend.View()), old(operations))
      ensures replies == Replies(old(backend.View()), old(operations))
    {
      replies := [];
      var commands := operations;
      for i := 0 to |commands|
        invariant backend.Valid() && operations == commands
        invariant backend.View() == ApplyAll(old(backend.View()), commands[..i])
        invariant replies == Replies(old(backend.View()), commands[..i])
      {
        assert commands[..i + 1][..i] == commands[..i];
        var reply := Replay(commands[i]);
        replies := replies + [reply];
      }
      assert commands[..|commands|] == commands;
      operations := [];
    }

    method AddOne(key: K, id: nat, score: real)
      requires backend.Valid()
      modifies backend
      ensures backend.Valid() && backend.View() == AddMember(old(backend.View()), key, id, score)
    {
      AddOneMember(backend.View(), key, id, score);
      var added := backend.Zadd(key, map[id := score]);
    }

    method RemoveOne(key: K, id: nat)
      requires backend.Valid()
      modifies backend
      ensures backend.Valid() && backend.View() == RemoveMembers(old(backend.View()), key, {id})
    {
      var removed := backend.Zrem(key, {id});
    }

    method RemoveRanked(key: K, start: nat, end: int)
      requires backend.Valid()
      modifies backend
      ensures backend.Valid() && backend.View() == RemoveRanks(old(backend.View()), key, start, end)
    {
      var removed := backend.Zremrangebyrank(key, start, end);
    }

    method Replay(command: Command<K, V>) returns (reply: bool)
      requires backend.Valid()
      modifies backend
      ensures backend.Valid() && backend.View() == Apply(old(backend.View()), command)
      ensures reply == Reply(old(backend.View()), command)
    {
      reply := true;
      match command {
        case SetCommand(key, value, ex, xx) => reply := backend.Set(key, value, ex, false, xx);
        case AddCommand(key, id, score) => AddOne(key, id, score);
        case RemoveRanksCommand(key, start, end) => RemoveRanked(key, start, end);
        case ExpireCommand(key, seconds) => var found := backend.ExpireKey(key, seconds);
        case DeleteCommand(key) => var existed := backend.DeleteKey(key);
        case RemoveCommand(key, id) => RemoveOne(key, id);
      }
    }
  }
}
