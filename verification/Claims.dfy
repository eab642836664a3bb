/** Token-owned keys that let one worker claim shared work until a lifetime lapses. */
module Claims {
  import opened Outcome
  import opened CacheStore
  import opened CacheBackend

  const CLAIM_ARGUMENTS_REQUIRED := "claim token and positive TTL are required"

  class ExpiringClaimStore<K(==, !new), V(==)> {
    const client: InMemoryCacheBackend<K, V>

    constructor (client: InMemoryCacheBackend<K, V>)
      ensures this.client == client
    {
      this.client := client;
    }

    /** Claims the key for the token if the key is free. `None` is the empty token. */
    method Acquire(key: K, token: Option<V>, ttlSeconds: int) returns (r: Result<bool>)
      requires client.Valid()
      modifies client
      ensures client.Valid()
      ensures r.Err? <==> token.None? || ttlSeconds <= 0
      ensures r.Err? ==> client.View() == old(client.View())
      ensures r.Ok? ==> r.value == (key !in old(client.View()).values)
      ensures r.Ok? ==> client.View() == Claimed(old(client.View()), key, token.value, ttlSeconds)
    {
      if token.None? || ttlSeconds <= 0 {
        return Err(CLAIM_ARGUMENTS_REQUIRED);
      }
      var acquired := client.Set(key, token.value, Some(ttlSeconds), true, false);
      return Ok(acquired);
    }

    /** Deletes the claim only if the token still owns it. */
    method Release(key: K, token: V) returns (released: bool)
      requires client.Valid()
      modifies client
      ensures client.Valid()
      ensures released == (Get(old(client.View()), key) == Some(token))
      ensures client.View() == Released(old(client.View()), key, token)
    {
      released := client.EvalCompareAndDelete(key, token);
    }
  }

  function Claimed<K(==), V>(s: Store<K, V>, key: K, token: V, ttlSeconds: int): Store<K, V> {
    if key in s.values then s
    else s.(values := s.values[key := token], expires := s.expires[key := s.now + ttlSeconds as real])
  }

  function Released<K(==), V(==)>(s: Store<K, V>, key: K, token: V): Store<K, V> {
    if Get(s, key) == Some(token) then Delete(s, {key}) else s
  }

  /** A claim that expired, or that passed to another owner, is left alone, with everything else. */
  lemma LateReleaseChangesNothing<K(!new), V>(s: Store<K, V>, key: K, token: V, seconds: real, ttlSeconds: int, next: V)
    requires Settled(s) && key !in s.values && 0 < ttlSeconds && seconds >= ttlSeconds as real && next != token
    ensures var lapsed := Advance(Claimed(s, key, token, ttlSeconds), seconds);
            && Released(lapsed, key, token) == lapsed
            && Released(Claimed(lapsed, key, next, ttlSeconds), key, token) == Claimed(lapsed, key, next, ttlSeconds)
  {
    var claimed := Claimed(s, key, token, ttlSeconds);
    assert Lapsed(claimed.expires, s.now + seconds, key);
  }
}
