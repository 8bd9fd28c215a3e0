/** The Redis-backed service: token hashes, used nonces and rate-limit windows, each command a step. */
module Cache {
  import opened Wrappers
  import opened Records
  import Nonces
  import SlidingWindow

  class CacheService {
    var tokens: map<Uuid, TokenHash>
    var nonces: Nonces.Store
    var windows: map<string, SlidingWindow.ZSet>

    constructor ()
      ensures tokens == map[] && nonces == map[] && windows == map[]
    {
      tokens, nonces, windows := map[], map[], map[];
    }

    function Window(key: string): Option<SlidingWindow.ZSet>
      reads this
    {
      if key in windows then Some(windows[key]) else None
    }

    method CacheToken(jti: Uuid, provider: Uuid, expiresAt: int, revoked: bool, now: int, fate: Fate) returns (ok: bool)
      modifies this`tokens
      ensures ok == fate.Done?
      ensures tokens ==
        if fate.Failed? then old(tokens) else PutToken(old(tokens), jti, provider, expiresAt, revoked, now)
      ensures !fate.Failed? ==>
        && jti in tokens && tokens == old(tokens)[jti := tokens[jti]]
        && tokens[jti].provider == Some(provider) && tokens[jti].expiresAt == Some(expiresAt)
        && tokens[jti].revoked == Some(revoked) && tokens[jti].dropAt.Some?
        && (var ttl := tokens[jti].dropAt.value - now;
            if (expiresAt - 1) * SECOND < now then ttl == SECOND
            else ttl % SECOND == 0 && now + ttl - SECOND < expiresAt * SECOND <= now + ttl)
    {
      if fate.Failed? {
        return false;
      }
      var hash := if jti in tokens then tokens[jti] else TokenHash(None, None, None, None);
      hash := hash.(provider := Some(provider));
      hash := hash.(expiresAt := Some(expiresAt));
      hash := hash.(revoked := Some(revoked));
      var ttl := expiresAt - Timestamp(now);
      if ttl < 1 {
        ttl := 1;
      }
      hash := hash.(dropAt := Some(now + ttl * SECOND));
      tokens := tokens[jti := hash];
      ok := fate.Done?;
    }

    method GetCachedToken(jti: Uuid, answered: bool) returns (r: Option<CachedToken>)
      ensures r == if answered then Lookup(tokens, jti) else None
      ensures r.Some? <==>
        && answered && jti in tokens
        && tokens[jti].provider.Some? && tokens[jti].expiresAt.Some? && tokens[jti].revoked.Some?
      ensures r.Some? ==>
        && tokens[jti].provider == Some(r.value.provider) && tokens[jti].expiresAt == Some(r.value.expiresAt)
        && tokens[jti].revoked == Some(r.value.revoked)
    {
      r := None;
      if answered && jti in tokens {
        var hash := tokens[jti];
        if hash.provider.Some? && hash.expiresAt.Some? && hash.revoked.Some? {
          r := Some(CachedToken(hash.provider.value, hash.expiresAt.value, hash.revoked.value));
        }
      }
    }

    method MarkTokenRevoked(jti: Uuid, fate: Fate) returns (ok: bool)
      modifies this`tokens
      ensures ok == fate.Done?
      ensures tokens == if fate.Failed? then old(tokens) else MarkRevoked(old(tokens), jti)
      ensures !fate.Failed? ==>
        && jti in tokens && tokens == old(tokens)[jti := tokens[jti]]
        && tokens[jti] == if jti in old(tokens) then old(tokens)[jti].(revoked := Some(true))
                          else TokenHash(None, None, Some(true), None)
    {
      if !fate.Failed? {
        var hash := if jti in tokens then tokens[jti] else TokenHash(None, None, None, None);
        tokens := tokens[jti := hash.(revoked := Some(true))];
      }
      ok := fate.Done?;
    }

    /** True for a replay, false for a fresh nonce, none for an error. */
    method CheckAndSetNonce(nonce: string, ttlSecs: nat, now: int, setFate: Fate, expireFate: Fate)
      returns (seen: Option<bool>)
      modifies this`nonces
      ensures seen ==
        if !setFate.Done? then None
        else if nonce in old(nonces) then Some(true)
        else if expireFate.Done? then Some(false)
        else None
      ensures nonces ==
        if setFate.Failed? || nonce in old(nonces) then old(nonces)
        else old(nonces)[nonce := if setFate.Done? && !expireFate.Failed? then Some(now + ttlSecs * SECOND) else None]
    {
      var wasSet := nonce !in nonces;
      if wasSet && !setFate.Failed? {
        nonces := nonces[nonce := None];
      }
      if !setFate.Done? {
        return None;
      }
      if wasSet {
        if !expireFate.Failed? {
          nonces := nonces[nonce := Some(now + ttlSecs * SECOND)];
        }
        if !expireFate.Done? {
          return None;
        }
      }
      return Some(!wasSet);
    }

    method CheckRateLimit(key: string, windowSecs: nat, limit: nat, nowMillis: int, id: nat)
      returns (reply: SlidingWindow.Reply)
      modifies this`windows
      ensures (Window(key), reply) == SlidingWindow.Script(old(Window(key)), windowSecs * 1000, limit, nowMillis, id)
      ensures forall k :: k != key ==> Window(k) == old(Window(k))
    {
      var window := windowSecs * 1000;
      var entries := SlidingWindow.Evict(SlidingWindow.Entries(Window(key)), nowMillis - window);
      var count := |entries|;
      var kept := None;
      if count < limit {
        kept := Some(SlidingWindow.ZSet(entries[id := nowMillis], nowMillis + window));
        reply := SlidingWindow.Reply(true, count + 1, limit);
      } else {
        if key in windows && entries != map[] {
          kept := Some(SlidingWindow.ZSet(entries, windows[key].dropAt));
        }
        reply := SlidingWindow.Reply(false, count, limit);
      }
      assert (kept, reply) == SlidingWindow.Script(Window(key), window, limit, nowMillis, id);
      windows := if kept.Some? then windows[key := kept.value] else windows - {key};
    }
  }
}
