/** Issuing and revoking tokens one request at a time: the token table and the service that writes it
    and the cache. */
module Tokens {
  import opened Wrappers
  import opened Records
  import opened Cache

  /** Each complete cache entry agrees with its row on provider, expiry and revocation. */
  ghost predicate Coherent(cache: map<Uuid, TokenHash>, rows: map<Uuid, TokenRow>) {
    forall j :: j in cache && cache[j].provider.Some? ==>
      j in rows && Lookup(cache, j) ==
        Some(CachedToken(rows[j].provider, Timestamp(rows[j].expiresAt), rows[j].revoked))
  }

  /** Any two unrevoked tokens of one grant were issued more than the window apart. */
  ghost predicate Spaced(rows: map<Uuid, TokenRow>, windowSecs: nat) {
    forall i, j ::
      i in rows && j in rows && i != j && rows[i].grant == rows[j].grant && !rows[i].revoked && !rows[j].revoked
      && rows[i].issuedAt <= rows[j].issuedAt
      ==> rows[i].issuedAt + windowSecs * SECOND < rows[j].issuedAt
  }

  predicate Expires(row: TokenRow, lifetimeSecs: nat) {
    row.expiresAt == row.issuedAt + lifetimeSecs * SECOND
  }

  ghost predicate Lifetimes(rows: map<Uuid, TokenRow>, lifetimeSecs: nat) {
    forall j :: j in rows ==> Expires(rows[j], lifetimeSecs)
  }

  class TokenTable {
    var rows: map<Uuid, TokenRow>

    constructor ()
      ensures rows == map[]
    {
      rows := map[];
    }

    method Insert(jti: Uuid, row: TokenRow)
      requires jti !in rows
      modifies this
      ensures rows == old(rows)[jti := row]
    {
      rows := rows[jti := row];
    }

    method Get(jti: Uuid) returns (r: Option<TokenRow>)
      ensures r == if jti in rows then Some(rows[jti]) else None
    {
      r := if jti in rows then Some(rows[jti]) else None;
    }

    method FindExisting(grant: Uuid, since: int) returns (found: Option<Uuid>)
      ensures FindsExisting(rows, grant, since, found)
      ensures found.None? <==>
        forall j :: j in rows && rows[j].grant == grant && !rows[j].revoked ==> rows[j].issuedAt < since
      ensures found.Some? ==>
        && found.value in rows && rows[found.value].grant == grant && !rows[found.value].revoked
        && rows[found.value].issuedAt >= since
        && forall j :: j in rows && rows[j].grant == grant && !rows[j].revoked ==>
          rows[j].issuedAt <= rows[found.value].issuedAt
    {
      found := None;
      var rest := rows.Keys;
      while rest != {}
        invariant rest <= rows.Keys
        invariant found.None? ==> forall j :: j in rows.Keys - rest ==> !Candidate(rows, grant, since, j)
        invariant found.Some? ==> Candidate(rows, grant, since, found.value)
        invariant found.Some? ==> forall j :: j in rows.Keys - rest && Candidate(rows, grant, since, j) ==>
          rows[j].issuedAt <= rows[found.value].issuedAt
        decreases |rest|
      {
        var j :| j in rest;
        rest := rest - {j};
        if Candidate(rows, grant, since, j) && (found.None? || rows[found.value].issuedAt < rows[j].issuedAt) {
          found := Some(j);
        }
      }
      assert forall j :: Candidate(rows, grant, since, j) ==> j in rows.Keys - rest;
      assert forall j ::
        j in rows && !Candidate(rows, grant, since, j) && rows[j].grant == grant && !rows[j].revoked ==>
          rows[j].issuedAt < since;
    }

    /** The guarded UPDATE; true when it changed a row. */
    method Revoke(jti: Uuid) returns (changed: bool)
      modifies this
      ensures changed == (jti in old(rows) && !old(rows)[jti].revoked)
      ensures rows == if changed then old(rows)[jti := old(rows)[jti].(revoked := true)] else old(rows)
    {
      changed := jti in rows && !rows[jti].revoked;
      if changed {
        rows := rows[jti := rows[jti].(revoked := true)];
      }
    }
  }

  /** An unrevoked token of the grant issued at or after the time. */
  predicate IsLiveSince(rows: map<Uuid, TokenRow>, grant: Uuid, since: int, j: Uuid) {
    j in rows && rows[j].grant == grant && !rows[j].revoked && rows[j].issuedAt >= since
  }

  /** No token was issued after the time. */
  ghost predicate NoneAfter(rows: map<Uuid, TokenRow>, t: int) {
    forall j :: j in rows ==> rows[j].issuedAt <= t
  }

  ghost predicate AnyLiveSince(rows: map<Uuid, TokenRow>, grant: Uuid, since: int) {
    exists j: Uuid :: IsLiveSince(rows, grant, since, j)
  }

  datatype ServiceError = DatabaseError | CacheError | TokenNotFound | TokenAlreadyRevoked

  /** What one issuance meets: its clock readings, the fresh token id, and how each call fares. */
  datatype IssueRun = IssueRun(
    windowClock: int, clock: int, cacheClock: int, jti: Uuid, findOk: bool, insert: Fate, fill: Fate)

  class TokenService {
    const db: TokenTable
    const cache: CacheService
    const config: TokenConfig

    constructor (db: TokenTable, cache: CacheService, config: TokenConfig)
      ensures this.db == db && this.cache == cache && this.config == config
    {
      this.db, this.cache, this.config := db, cache, config;
    }

    ghost predicate Valid()
      reads this, db
    {
      Spaced(db.rows, config.idempotencyWindowSecs) && Lifetimes(db.rows, config.lifetimeSecs)
    }

    /** An insert or a cache write that happened is not undone when its reply is lost. */
    method IssueToken(grant: Uuid, agent: Uuid, provider: Uuid, human: Uuid, caps: seq<Capability>, envelope: Envelope,
                      binding: Option<string>, run: IssueRun)
      returns (r: Result<(Uuid, TokenRow), ServiceError>)
      requires Valid() && run.windowClock <= run.clock && run.jti !in db.rows
      modifies db, cache`tokens
      ensures Valid()
      ensures !run.findOk ==> r == Err(DatabaseError) && db.rows == old(db.rows) && cache.tokens == old(cache.tokens)
      // A stored token is returned when there is an unrevoked one of the window, a most recent of them.
      ensures
        var since := run.windowClock - config.idempotencyWindowSecs * SECOND;
        run.findOk && AnyLiveSince(old(db.rows), grant, since) ==>
          && db.rows == old(db.rows) && cache.tokens == old(cache.tokens)
          && r.Ok? && r.value.0 in db.rows && r.value.1 == db.rows[r.value.0]
          && forall j: Uuid :: IsLiveSince(db.rows, grant, since, j) ==> db.rows[j].issuedAt <= r.value.1.issuedAt
      // Otherwise a new one is issued.
      ensures
        var since := run.windowClock - config.idempotencyWindowSecs * SECOND;
        run.findOk && !AnyLiveSince(old(db.rows), grant, since) ==>
          var expiresAt := run.clock + config.lifetimeSecs * SECOND;
          var token := TokenRow(grant, agent, provider, human, binding, caps, envelope, run.clock, expiresAt, false);
          && r == (if !run.insert.Done? then Err(DatabaseError)
                   else if !run.fill.Done? then Err(CacheError)
                   else Ok((run.jti, token)))
          && db.rows == (if run.insert.Failed? then old(db.rows) else old(db.rows)[run.jti := token])
          && cache.tokens ==
            if !run.insert.Done? || run.fill.Failed? then old(cache.tokens)
            else PutToken(old(cache.tokens), run.jti, provider, Timestamp(expiresAt), false, run.cacheClock)
      ensures old(Coherent(cache.tokens, db.rows)) ==> Coherent(cache.tokens, db.rows)
      ensures r.Ok? ==>
        && r.value.1.grant == grant && !r.value.1.revoked
        && r.value.1.issuedAt >= run.windowClock - config.idempotencyWindowSecs * SECOND
      // With a lifetime no shorter than the window, no answer has expired.
      ensures r.Ok? && config.lifetimeSecs >= config.idempotencyWindowSecs ==> r.value.1.expiresAt >= run.windowClock
      // A repeat call in the window of a token returns that token.
      ensures
        var since := run.windowClock - config.idempotencyWindowSecs * SECOND;
        run.findOk && NoneAfter(old(db.rows), run.windowClock) ==>
          forall j: Uuid :: IsLiveSince(old(db.rows), grant, since, j) ==> r.Ok? && r.value.0 == j
    {
      if !run.findOk {
        return Err(DatabaseError);
      }
      var existing := FindInWindow(grant, run.windowClock);
      if existing.Some? {
        return Ok(existing.value);
      }
      var expiresAt := run.clock + config.lifetimeSecs * SECOND;
      var token := TokenRow(grant, agent, provider, human, binding, caps, envelope, run.clock, expiresAt, false);
      var since := run.windowClock - config.idempotencyWindowSecs * SECOND;
      InsertKeepsSpaced(db.rows, config.idempotencyWindowSecs, since, run.jti, token);
      r := StoreAndCache(token, run);
    }

    /** A most recent unrevoked token of the idempotency window. */
    method FindInWindow(grant: Uuid, clock: int) returns (found: Option<(Uuid, TokenRow)>)
      requires Valid()
      ensures
        var since := clock - config.idempotencyWindowSecs * SECOND;
        && (found.None? <==>
              forall j :: j in db.rows && db.rows[j].grant == grant && !db.rows[j].revoked ==>
                db.rows[j].issuedAt < since)
        && (found.None? <==> !AnyLiveSince(db.rows, grant, since))
        && (found.None? ==> FindsExisting(db.rows, grant, since, None))
        && (found.Some? ==>
              && found.value.0 in db.rows && found.value.1 == db.rows[found.value.0]
              && found.value.1.grant == grant && !found.value.1.revoked && found.value.1.issuedAt >= since
              && forall j: Uuid :: IsLiveSince(db.rows, grant, since, j) ==>
                db.rows[j].issuedAt <= found.value.1.issuedAt)
      ensures found.Some? && config.lifetimeSecs >= config.idempotencyWindowSecs ==> found.value.1.expiresAt >= clock
      ensures
        var since := clock - config.idempotencyWindowSecs * SECOND;
        NoneAfter(db.rows, clock) ==>
          forall j: Uuid :: IsLiveSince(db.rows, grant, since, j) ==> found.Some? && found.value.0 == j
    {
      var since := clock - config.idempotencyWindowSecs * SECOND;
      var existing := db.FindExisting(grant, since);
      if NoneAfter(db.rows, clock) {
        RepeatsReturn(db.rows, config, grant, clock, existing);
      }
      assert existing.None? ==> forall j: Uuid :: !IsLiveSince(db.rows, grant, since, j);
      assert existing.Some? ==> IsLiveSince(db.rows, grant, since, existing.value);
      if existing.None? {
        return None;
      }
      ReturnedIsUnexpired(db.rows, config, since, existing.value);
      var row := db.Get(existing.value);
      return Some((existing.value, row.value));
    }

    /** Inserting a new token and caching it. */
    method StoreAndCache(token: TokenRow, run: IssueRun) returns (r: Result<(Uuid, TokenRow), ServiceError>)
      requires run.jti !in db.rows && !token.revoked
      modifies db, cache`tokens
      ensures r == if !run.insert.Done? then Err(DatabaseError)
                   else if !run.fill.Done? then Err(CacheError)
                   else Ok((run.jti, token))
      ensures db.rows == if run.insert.Failed? then old(db.rows) else old(db.rows)[run.jti := token]
      ensures cache.tokens ==
        if !run.insert.Done? || run.fill.Failed? then old(cache.tokens)
        else PutToken(old(cache.tokens), run.jti, token.provider, Timestamp(token.expiresAt), false, run.cacheClock)
      ensures old(Coherent(cache.tokens, db.rows)) ==> Coherent(cache.tokens, db.rows)
    {
      if run.insert.Failed? {
        return Err(DatabaseError);
      }
      if Coherent(cache.tokens, db.rows) {
        InsertKeepsCoherent(cache.tokens, db.rows, run.jti, token, run.cacheClock);
      }
      db.Insert(run.jti, token);
      if run.insert.Lost? {
        return Err(DatabaseError);
      }
      var ok := cache.CacheToken(run.jti, token.provider, Timestamp(token.expiresAt), false, run.cacheClock, run.fill);
      if !ok {
        return Err(CacheError);
      }
      return Ok((run.jti, token));
    }

    /** The revocation is recorded in both stores, or refused. The cache stays coherent unless the row was
        revoked without a mark while the cache still shows the token as unrevoked. */
    method RevokeToken(jti: Uuid, update: Fate, readOk: bool, mark: Fate) returns (r: Result<(), ServiceError>)
      requires Valid()
      modifies db, cache`tokens
      ensures Valid()
      ensures r.Ok? ==>
        jti in db.rows && db.rows[jti].revoked &&
          (Lookup(cache.tokens, jti).None? || Lookup(cache.tokens, jti).value.revoked)
      ensures r.Ok? ==> jti in cache.tokens && cache.tokens[jti].revoked == Some(true)
      ensures r.Ok? <==> jti in old(db.rows) && !old(db.rows)[jti].revoked && update.Done? && mark.Done?
      ensures r == Err(TokenNotFound) <==> update.Done? && readOk && jti !in old(db.rows)
      ensures r == Err(TokenAlreadyRevoked) <==>
        update.Done? && readOk && jti in old(db.rows) && old(db.rows)[jti].revoked
      ensures r == Err(CacheError) <==> jti in old(db.rows) && !old(db.rows)[jti].revoked && update.Done? && !mark.Done?
      ensures db.rows ==
        if !update.Failed? && jti in old(db.rows) then old(db.rows)[jti := old(db.rows)[jti].(revoked := true)]
          else old(db.rows)
      ensures cache.tokens ==
        if update.Done? && jti in old(db.rows) && !old(db.rows)[jti].revoked && !mark.Failed?
        then MarkRevoked(old(cache.tokens), jti) else old(cache.tokens)
      ensures old(Coherent(cache.tokens, db.rows)) ==>
        (Coherent(cache.tokens, db.rows) <==>
           !(Lookup(old(cache.tokens), jti).Some? && !old(db.rows)[jti].revoked &&
             (update.Lost? || (update.Done? && mark.Failed?))))
    {
      if update.Failed? {
        return Err(DatabaseError);
      }
      ghost var rows, hashes := db.rows, cache.tokens;
      var revoked := db.Revoke(jti);
      if jti in rows && rows[jti].revoked {
        assert rows[jti := rows[jti].(revoked := true)] == rows;
      }
      if revoked && Coherent(hashes, rows) {
        RevokeKeepsCoherent(hashes, rows, jti);
      }
      if update.Lost? {
        return Err(DatabaseError);
      }
      if !revoked {
        if !readOk {
          return Err(DatabaseError);
        }
        var token := db.Get(jti);
        if token.None? {
          return Err(TokenNotFound);
        }
        return Err(TokenAlreadyRevoked);
      }
      MarkedIsRefused(hashes, jti);
      var ok := cache.MarkTokenRevoked(jti, mark);
      if !ok {
        return Err(CacheError);
      }
      return Ok(());
    }
  }

  lemma InsertKeepsSpaced(rows: map<Uuid, TokenRow>, windowSecs: nat, since: int, jti: Uuid, row: TokenRow)
    requires Spaced(rows, windowSecs) && jti !in rows && FindsExisting(rows, row.grant, since, None)
    requires since + windowSecs * SECOND <= row.issuedAt
    ensures Spaced(rows[jti := row], windowSecs)
  {
    forall i | i in rows && rows[i].grant == row.grant && !rows[i].revoked
      ensures rows[i].issuedAt < since
    {
      assert !Candidate(rows, row.grant, since, i);
    }
  }

  lemma InsertKeepsCoherent(cache: map<Uuid, TokenHash>, rows: map<Uuid, TokenRow>, jti: Uuid, row: TokenRow, now: int)
    requires Coherent(cache, rows) && jti !in rows && !row.revoked
    ensures Coherent(cache, rows[jti := row])
    ensures Coherent(PutToken(cache, jti, row.provider, Timestamp(row.expiresAt), false, now), rows[jti := row])
  {
    var rows', cache' := rows[jti := row], PutToken(cache, jti, row.provider, Timestamp(row.expiresAt), false, now);
    assert Lookup(cache, jti).None?;
    forall j | j != jti
      ensures Lookup(cache', j) == Lookup(cache, j)
    {
    }
  }

  lemma MarkedIsRefused(cache: map<Uuid, TokenHash>, jti: Uuid)
    ensures Lookup(MarkRevoked(cache, jti), jti).None? || Lookup(MarkRevoked(cache, jti), jti).value.revoked
  {
  }

  lemma RevokeKeepsCoherent(cache: map<Uuid, TokenHash>, rows: map<Uuid, TokenRow>, jti: Uuid)
    requires Coherent(cache, rows) && jti in rows && !rows[jti].revoked
    ensures Coherent(MarkRevoked(cache, jti), rows[jti := rows[jti].(revoked := true)])
    ensures Coherent(cache, rows[jti := rows[jti].(revoked := true)]) <==> Lookup(cache, jti).None?
  {
    var rows', cache' := rows[jti := rows[jti].(revoked := true)], MarkRevoked(cache, jti);
    forall j | j != jti
      ensures Lookup(cache', j) == Lookup(cache, j)
    {
    }
    if Lookup(cache, jti).Some? {
      assert Lookup(cache', jti).value == Lookup(cache, jti).value.(revoked := true);
    }
  }

  // What spacing means for callers.

  /** A repeat call inside the window returns the token issued first: nothing else can be found. */
  lemma RepeatReturnsSameToken(rows: map<Uuid, TokenRow>, windowSecs: nat, grant: Uuid, t: int, jti: Uuid,
                               found: Option<Uuid>)
    requires Spaced(rows, windowSecs) && (forall j :: j in rows ==> rows[j].issuedAt <= t)
    requires jti in rows && rows[jti].grant == grant && !rows[jti].revoked &&
      t <= rows[jti].issuedAt + windowSecs * SECOND
    requires FindsExisting(rows, grant, t - windowSecs * SECOND, found)
    ensures found == Some(jti)
  {
    assert Candidate(rows, grant, t - windowSecs * SECOND, jti);
  }

  lemma RepeatsReturn(rows: map<Uuid, TokenRow>, config: TokenConfig, grant: Uuid, t: int, found: Option<Uuid>)
    requires Spaced(rows, config.idempotencyWindowSecs)
    requires FindsExisting(rows, grant, t - config.idempotencyWindowSecs * SECOND, found)
    requires NoneAfter(rows, t)
    ensures
      var since := t - config.idempotencyWindowSecs * SECOND;
      forall j: Uuid :: IsLiveSince(rows, grant, since, j) ==> found == Some(j)
  {
    var since := t - config.idempotencyWindowSecs * SECOND;
    forall j: Uuid | IsLiveSince(rows, grant, since, j)
      ensures found == Some(j)
    {
      RepeatReturnsSameToken(rows, config.idempotencyWindowSecs, grant, t, j, found);
    }
  }

  lemma ReturnedIsUnexpired(rows: map<Uuid, TokenRow>, config: TokenConfig, since: int, jti: Uuid)
    requires Lifetimes(rows, config.lifetimeSecs) && jti in rows && rows[jti].issuedAt >= since
    ensures config.lifetimeSecs >= config.idempotencyWindowSecs ==>
      since + config.idempotencyWindowSecs * SECOND <= rows[jti].expiresAt
  {
    assert Expires(rows[jti], config.lifetimeSecs);
  }

  predicate Live(row: TokenRow, t: int) {
    !row.revoked && t <= row.expiresAt
  }

  /** With a lifetime no longer than the window, a grant never has two live tokens. */
  lemma AtMostOneLiveToken(rows: map<Uuid, TokenRow>, config: TokenConfig, t: int, i: Uuid, j: Uuid)
    requires Spaced(rows, config.idempotencyWindowSecs) && Lifetimes(rows, config.lifetimeSecs)
    requires config.lifetimeSecs <= config.idempotencyWindowSecs
    requires i in rows && j in rows && rows[i].grant == rows[j].grant && Live(rows[i], t) && Live(rows[j], t)
    requires rows[i].issuedAt <= t && rows[j].issuedAt <= t
    ensures i == j
  {
    assert Expires(rows[i], config.lifetimeSecs) && Expires(rows[j], config.lifetimeSecs);
  }

  ghost predicate NeverTwoLive(config: TokenConfig) {
    forall rows: map<Uuid, TokenRow>, t, i, j ::
      Spaced(rows, config.idempotencyWindowSecs) && Lifetimes(rows, config.lifetimeSecs)
      && i in rows && j in rows && rows[i].grant == rows[j].grant && Live(rows[i], t) && Live(rows[j], t)
      && rows[i].issuedAt <= t && rows[j].issuedAt <= t
      ==> i == j
  }

  /** A grant never has two live tokens, over all tables that issuance can leave and at all times, exactly
      when the lifetime is no longer than the window. */
  lemma NeverTwoLiveIff(config: TokenConfig)
    ensures NeverTwoLive(config) <==> config.lifetimeSecs <= config.idempotencyWindowSecs
  {
    var lifetime, t := config.lifetimeSecs * SECOND, config.idempotencyWindowSecs * SECOND + 1;
    if config.lifetimeSecs <= config.idempotencyWindowSecs {
      forall rows: map<Uuid, TokenRow>, t, i, j |
        Spaced(rows, config.idempotencyWindowSecs) && Lifetimes(rows, config.lifetimeSecs)
        && i in rows && j in rows && rows[i].grant == rows[j].grant && Live(rows[i], t) && Live(rows[j], t)
        && rows[i].issuedAt <= t && rows[j].issuedAt <= t
        ensures i == j
      {
        AtMostOneLiveToken(rows, config, t, i, j);
      }
    } else {
      var first := TokenRow(0, 0, 0, 0, None, [], Envelope(""), 0, lifetime, false);
      var rows := map[0 := first, 1 := first.(issuedAt := t, expiresAt := t + lifetime)];
      assert Spaced(rows, config.idempotencyWindowSecs) && Lifetimes(rows, config.lifetimeSecs);
      assert Live(rows[0], t) && Live(rows[1], t);
    }
  }

  /** Every token the idempotency query can return is unexpired at the clock reading of the call,
      which is one window after the start of the search. */
  ghost predicate ReturnsUnexpired(config: TokenConfig) {
    forall rows: map<Uuid, TokenRow>, grant, since, jti ::
      Spaced(rows, config.idempotencyWindowSecs) && Lifetimes(rows, config.lifetimeSecs)
      && FindsExisting(rows, grant, since, Some(jti))
      ==> since + config.idempotencyWindowSecs * SECOND <= rows[jti].expiresAt
  }

  /** A returned token has never expired, for all tables and clocks, exactly when the lifetime is at
      least the idempotency window. */
  lemma ReturnsUnexpiredIff(config: TokenConfig)
    ensures ReturnsUnexpired(config) <==> config.lifetimeSecs >= config.idempotencyWindowSecs
  {
    if config.lifetimeSecs >= config.idempotencyWindowSecs {
      forall rows: map<Uuid, TokenRow>, grant, since, jti |
        Spaced(rows, config.idempotencyWindowSecs) && Lifetimes(rows, config.lifetimeSecs) &&
          FindsExisting(rows, grant, since, Some(jti))
        ensures since + config.idempotencyWindowSecs * SECOND <= rows[jti].expiresAt
      {
        assert Candidate(rows, grant, since, jti);
        assert Expires(rows[jti], config.lifetimeSecs);
      }
    } else {
      var rows := map[0 := TokenRow(0, 0, 0, 0, None, [], Envelope(""), 0, config.lifetimeSecs * SECOND, false)];
      assert Spaced(rows, config.idempotencyWindowSecs) && Lifetimes(rows, config.lifetimeSecs);
      assert Candidate(rows, 0, 0, 0);
      assert FindsExisting(rows, 0, 0, Some(0));
    }
  }
}
