/** The verification endpoint: nonce, cache, database and four last checks, refined against a verifier
    that has no cache. */
module Verifier {
  import opened Wrappers
  import opened Records
  import opened Decisions
  import opened Cache
  import opened Tokens
  import Nonces

  /** What an allowed verification reports. */
  datatype Granted = Granted(agent: Uuid, caps: seq<Capability>, envelope: Envelope, remainingSecs: int)

  /** What one verification meets: how each call fares, and the clock readings. */
  datatype VerifyRun = VerifyRun(
    setFate: Fate, expireFate: Fate, cacheAnswers: bool, databaseAnswers: bool, fillFate: Fate,
    nonceClock: int, fillClock: int, clock: int)

  predicate NonceFresh(nonces: Nonces.Store, req: VerifyRequest, run: VerifyRun) {
    run.setFate.Done? && req.nonce !in nonces && run.expireFate.Done?
  }

  /** The cache as the verification sees it. */
  function Seen(cache: map<Uuid, TokenHash>, run: VerifyRun): map<Uuid, TokenHash> {
    if run.cacheAnswers then cache else map[]
  }

  /** The cache alone refuses. */
  predicate CacheDecides(cache: map<Uuid, TokenHash>, req: VerifyRequest, run: VerifyRun) {
    var c := Lookup(Seen(cache, run), req.jti);
    c.Some? && (c.value.revoked || c.value.provider != req.provider)
  }

  /** The row is read because the cache has no entry, and is worth caching. */
  predicate Fills(rows: map<Uuid, TokenRow>, cache: map<Uuid, TokenHash>, req: VerifyRequest, run: VerifyRun) {
    && Lookup(Seen(cache, run), req.jti).None?
    && req.jti in rows && !rows[req.jti].revoked && rows[req.jti].provider == req.provider
  }

  class Verifier {
    const db: TokenTable
    const cache: CacheService
    const config: VerifierConfig

    constructor (db: TokenTable, cache: CacheService, config: VerifierConfig)
      ensures this.db == db && this.cache == cache && this.config == config
    {
      this.db, this.cache, this.config := db, cache, config;
    }

    /** A verification answers what the cache and the table give it, and falls back to the table alone
        when the cache does not answer; while the cache is coherent that is the answer of the verifier
        without a cache. Without the database it can refuse but never allow. */
    method VerifyToken(req: VerifyRequest, run: VerifyRun) returns (outcome: Outcome, granted: Option<Granted>)
      modifies cache`tokens, cache`nonces
      ensures outcome == NonceReplay <==> run.setFate.Done? && req.nonce in old(cache.nonces)
      ensures !run.setFate.Done? || (req.nonce !in old(cache.nonces) && !run.expireFate.Done?) ==>
        outcome == InternalError
      ensures NonceFresh(old(cache.nonces), req, run) ==>
        outcome ==
          if run.databaseAnswers || CacheDecides(old(cache.tokens), req, run)
          then Cached(db.rows, Seen(old(cache.tokens), run), req, config, run.clock)
          else InternalError
      ensures NonceFresh(old(cache.nonces), req, run) && run.databaseAnswers && old(Coherent(cache.tokens, db.rows)) ==>
        outcome == CacheFree(db.rows, req, config, run.clock)
      ensures outcome == Allowed ==>
        var row := db.rows[req.jti];
        req.jti in db.rows &&
          granted == Some(Granted(row.agent, row.caps, row.envelope, WholeSeconds(row.expiresAt - run.clock)))
      ensures outcome != Allowed ==> granted == None
      ensures cache.tokens ==
        if NonceFresh(old(cache.nonces), req, run) && run.databaseAnswers && !run.fillFate.Failed? &&
          Fills(db.rows, old(cache.tokens), req, run)
        then PutToken(old(cache.tokens), req.jti, req.provider, Timestamp(db.rows[req.jti].expiresAt), false,
          run.fillClock)
        else old(cache.tokens)
      ensures old(Coherent(cache.tokens, db.rows)) ==> Coherent(cache.tokens, db.rows)
      ensures !run.setFate.Failed? ==> req.nonce in cache.nonces
      ensures outcome == Allowed ==>
        cache.nonces == old(cache.nonces)[req.nonce := Some(run.nonceClock + config.nonceTtlSecs * SECOND)]
    {
      // Step 1: the nonce, before anything else.
      var seen := cache.CheckAndSetNonce(req.nonce, config.nonceTtlSecs, run.nonceClock, run.setFate, run.expireFate);
      if seen.None? {
        return InternalError, None;
      }
      if seen.value {
        return NonceReplay, None;
      }

      // Step 2: revocation and provider.
      var fetched := FetchRow(req, run);
      if fetched.Err? {
        return fetched.error, None;
      }
      var row := fetched.value;

      // Steps 3, 4 and 6.
      outcome := CheckRow(row, req, run.clock);
      granted := if outcome == Allowed
        then Some(Granted(row.agent, row.caps, row.envelope, WholeSeconds(row.expiresAt - run.clock))) else None;
    }

    /** Revocation and provider, from the cache when it has the token and from its row otherwise, which is
        then cached; and the row, unless one of the two refuses. */
    method FetchRow(req: VerifyRequest, run: VerifyRun) returns (r: Result<TokenRow, Outcome>)
      modifies cache`tokens
      ensures r.Ok? ==>
        && run.databaseAnswers && req.jti in db.rows && r.value == db.rows[req.jti]
        && Cached(db.rows, Seen(old(cache.tokens), run), req, config, run.clock) ==
          TailOutcome(r.value, req, config, run.clock)
      ensures r.Err? ==>
        && r.error ==
          (if run.databaseAnswers || CacheDecides(old(cache.tokens), req, run)
           then Cached(db.rows, Seen(old(cache.tokens), run), req, config, run.clock)
           else InternalError)
        && r.error in {RevokedToken, ProviderMismatch, NotFound, InternalError}
      ensures
        var c := if run.cacheAnswers then Lookup(old(cache.tokens), req.jti) else None;
        var refuses := c.Some? && (c.value.revoked || c.value.provider != req.provider);
        var row := if req.jti in db.rows then Some(db.rows[req.jti]) else None;
        && (r == Err(RevokedToken) <==>
              (c.Some? && c.value.revoked) || (c.None? && run.databaseAnswers && row.Some? && row.value.revoked))
        && (r == Err(ProviderMismatch) <==>
              || (c.Some? && !c.value.revoked && c.value.provider != req.provider)
              || (&& c.None? && run.databaseAnswers && row.Some? && !row.value.revoked
                  && row.value.provider != req.provider))
        && (r == Err(NotFound) <==> !refuses && run.databaseAnswers && row.None?)
        && (r == Err(InternalError) <==> !refuses && !run.databaseAnswers)
        && cache.tokens ==
          if r.Ok? && c.None? && !run.fillFate.Failed?
          then PutToken(old(cache.tokens), req.jti, r.value.provider, Timestamp(r.value.expiresAt), false,
            run.fillClock)
          else old(cache.tokens)
      ensures r.Ok? ==> !CacheDecides(old(cache.tokens), req, run)
      ensures cache.tokens ==
        if run.databaseAnswers && !run.fillFate.Failed? && Fills(db.rows, old(cache.tokens), req, run)
        then PutToken(old(cache.tokens), req.jti, req.provider, Timestamp(db.rows[req.jti].expiresAt), false,
          run.fillClock)
        else old(cache.tokens)
      ensures old(Coherent(cache.tokens, db.rows)) ==> Coherent(cache.tokens, db.rows)
    {
      var cached := cache.GetCachedToken(req.jti, run.cacheAnswers);
      if cached.Some? {
        if cached.value.revoked {
          return Err(RevokedToken);
        }
        if cached.value.provider != req.provider {
          return Err(ProviderMismatch);
        }
      }
      if !run.databaseAnswers {
        return Err(InternalError);
      }
      var found := db.Get(req.jti);
      if found.None? {
        return Err(NotFound);
      }
      var row := found.value;
      if cached.None? {
        if row.revoked {
          return Err(RevokedToken);
        }
        if row.provider != req.provider {
          return Err(ProviderMismatch);
        }
        if Coherent(cache.tokens, db.rows) {
          FillKeepsCoherent(cache.tokens, db.rows, req.jti, run.fillClock);
        }
        var _ := cache.CacheToken(req.jti, row.provider, Timestamp(row.expiresAt), row.revoked, run.fillClock,
          run.fillFate);
      }
      return Ok(row);
    }

    /** The last checks, on the row: binding, proof, expiry. */
    method CheckRow(row: TokenRow, req: VerifyRequest, now: int) returns (outcome: Outcome)
      ensures outcome == TailOutcome(row, req, config, now)
      ensures row.provider == req.provider ==> (outcome == Allowed <==> Qualified(row, req, config, now))
      ensures
        var mismatch := row.binding.Some? && req.thumbprint.Some? && row.binding.value != req.thumbprint.value;
        var unproved := config.requireDpop && (!req.hasProof || (row.binding.Some? && req.thumbprint.None?));
        var expired := now > row.expiresAt + config.maxClockSkewSecs * SECOND;
        && (outcome == BindingMismatch <==> mismatch)
        && (outcome == InvalidDpopProof <==> !mismatch && unproved)
        && (outcome == Expired <==> !mismatch && !unproved && expired)
        && (outcome == Allowed <==> !mismatch && !unproved && !expired)
    {
      // Step 3: the token binding.
      if row.binding.Some? {
        if req.thumbprint.Some? {
          if row.binding.value != req.thumbprint.value {
            return BindingMismatch;
          }
        } else if config.requireDpop {
          return InvalidDpopProof;
        }
      }

      // Step 4: the proof, if one is required.
      if config.requireDpop && !req.hasProof {
        return InvalidDpopProof;
      }

      // Step 6: expiry, last.
      if row.expiresAt + config.maxClockSkewSecs * SECOND < now {
        return Expired;
      }
      return Allowed;
    }
  }

  lemma FillKeepsCoherent(cache: map<Uuid, TokenHash>, rows: map<Uuid, TokenRow>, jti: Uuid, now: int)
    requires Coherent(cache, rows) && jti in rows
    ensures Coherent(PutToken(cache, jti, rows[jti].provider, Timestamp(rows[jti].expiresAt), rows[jti].revoked, now),
      rows)
  {
    var cache' := PutToken(cache, jti, rows[jti].provider, Timestamp(rows[jti].expiresAt), rows[jti].revoked, now);
    forall j | j != jti
      ensures Lookup(cache', j) == Lookup(cache, j)
    {
    }
  }

  lemma VanishKeepsCoherent(cache: map<Uuid, TokenHash>, rows: map<Uuid, TokenRow>, jti: Uuid)
    requires Coherent(cache, rows)
    ensures Coherent(cache - {jti}, rows)
  {
    forall j | j != jti
      ensures Lookup(cache - {jti}, j) == Lookup(cache, j)
    {
    }
  }

  // Whole runs of handlers that do not overlap, with their Redis writes succeeding.

  datatype Op =
    | Issue(jti: Uuid, row: TokenRow, clock: int)
    | Revoke(jti: Uuid)
    | Fill(jti: Uuid, clock: int)
    | Vanish(jti: Uuid)

  datatype Stores = Stores(rows: map<Uuid, TokenRow>, cache: map<Uuid, TokenHash>)

  /** Issue under a fresh id, revoke an unrevoked token, refill the cache from a row, or lose a key. */
  function Do(s: Stores, op: Op): Stores {
    match op
    case Issue(j, row, clock) =>
      if j in s.rows || row.revoked then s
      else Stores(s.rows[j := row], PutToken(s.cache, j, row.provider, Timestamp(row.expiresAt), false, clock))
    case Revoke(j) =>
      if j !in s.rows || s.rows[j].revoked then s
      else Stores(s.rows[j := s.rows[j].(revoked := true)], MarkRevoked(s.cache, j))
    case Fill(j, clock) =>
      if j !in s.rows then s
      else s.(cache := PutToken(s.cache, j, s.rows[j].provider, Timestamp(s.rows[j].expiresAt), s.rows[j].revoked,
        clock))
    case Vanish(j) => s.(cache := s.cache - {j})
  }

  function DoAll(s: Stores, ops: seq<Op>): Stores
    decreases |ops|
  {
    if |ops| == 0 then s else DoAll(Do(s, ops[0]), ops[1..])
  }

  lemma {:induction false} RunStaysCoherent(s: Stores, ops: seq<Op>)
    requires Coherent(s.cache, s.rows)
    ensures Coherent(DoAll(s, ops).cache, DoAll(s, ops).rows)
    decreases |ops|
  {
    if |ops| != 0 {
      match ops[0] {
        case Issue(j, row, clock) =>
          if j !in s.rows && !row.revoked {
            InsertKeepsCoherent(s.cache, s.rows, j, row, clock);
          }
        case Revoke(j) =>
          if j in s.rows && !s.rows[j].revoked {
            RevokeKeepsCoherent(s.cache, s.rows, j);
          }
        case Fill(j, clock) =>
          if j in s.rows {
            FillKeepsCoherent(s.cache, s.rows, j, clock);
          }
        case Vanish(j) => VanishKeepsCoherent(s.cache, s.rows, j);
      }
      RunStaysCoherent(Do(s, ops[0]), ops[1..]);
    }
  }

  /** Cache refinement: after any such run the verifier with the cache answers every request as the one without. */
  lemma CacheIsUnobservable(ops: seq<Op>, req: VerifyRequest, cfg: VerifierConfig, now: int)
    ensures
      var s := DoAll(Stores(map[], map[]), ops);
      Cached(s.rows, s.cache, req, cfg, now) == CacheFree(s.rows, req, cfg, now)
  {
    RunStaysCoherent(Stores(map[], map[]), ops);
  }

  /** No request for the token tells the two verifiers apart. */
  ghost predicate Unobservable(rows: map<Uuid, TokenRow>, cache: map<Uuid, TokenHash>, jti: Uuid) {
    forall req: VerifyRequest, cfg: VerifierConfig, now: int :: req.jti == jti ==>
      Cached(rows, cache, req, cfg, now) == CacheFree(rows, req, cfg, now)
  }

  /** The entry is a miss, or the row exists and agrees on revocation and, if unrevoked, on the provider. */
  predicate EntryAgrees(rows: map<Uuid, TokenRow>, cache: map<Uuid, TokenHash>, jti: Uuid) {
    var c := Lookup(cache, jti);
    c.None? || (jti in rows && c.value.revoked == rows[jti].revoked &&
      (c.value.revoked || c.value.provider == rows[jti].provider))
  }

  /** What has to agree for the cache to be unobservable, exactly; the cached expiry need not. */
  lemma UnobservableIffAgrees(rows: map<Uuid, TokenRow>, cache: map<Uuid, TokenHash>, jti: Uuid)
    ensures Unobservable(rows, cache, jti) <==> EntryAgrees(rows, cache, jti)
  {
    if !EntryAgrees(rows, cache, jti) {
      var c := Lookup(cache, jti).value;
      var req := VerifyRequest(jti, if jti in rows then c.provider else c.provider + 1, "", true, None);
      var cfg := VerifierConfig(false, 0, 0);
      assert Cached(rows, cache, req, cfg, 0) != CacheFree(rows, req, cfg, 0);
    }
  }
}
