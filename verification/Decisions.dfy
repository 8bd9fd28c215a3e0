/** What a verification should conclude: from the token table alone, and from a cache entry and the table. */
module Decisions {
  import opened Records

  /** The verifier's last four checks, on the row it read: binding, proof, expiry. */
  function TailOutcome(row: TokenRow, req: VerifyRequest, cfg: VerifierConfig, now: int): Outcome {
    if row.binding.Some? && req.thumbprint.Some? && row.binding != req.thumbprint then BindingMismatch
    else if row.binding.Some? && req.thumbprint.None? && cfg.requireDpop then InvalidDpopProof
    else if cfg.requireDpop && !req.hasProof then InvalidDpopProof
    else if row.expiresAt + cfg.maxClockSkewSecs * SECOND < now then Expired
    else Allowed
  }

  /** The verifier without a cache, for a request whose nonce is fresh. */
  function CacheFree(rows: map<Uuid, TokenRow>, req: VerifyRequest, cfg: VerifierConfig, now: int): Outcome {
    if req.jti !in rows then NotFound
    else if rows[req.jti].revoked then RevokedToken
    else if rows[req.jti].provider != req.provider then ProviderMismatch
    else TailOutcome(rows[req.jti], req, cfg, now)
  }

  /** What the verifier concludes from a cache entry and the row it then reads. */
  function Cached(rows: map<Uuid, TokenRow>, cache: map<Uuid, TokenHash>, req: VerifyRequest, cfg: VerifierConfig,
                  now: int): Outcome {
    match Lookup(cache, req.jti)
    case None => CacheFree(rows, req, cfg, now)
    case Some(c) =>
      if c.revoked then RevokedToken
      else if c.provider != req.provider then ProviderMismatch
      else if req.jti !in rows then NotFound
      else TailOutcome(rows[req.jti], req, cfg, now)
  }

  /** `Duration::num_seconds`: whole seconds, rounded towards zero. */
  function WholeSeconds(micros: int): int {
    if micros >= 0 then micros / SECOND else -(-micros / SECOND)
  }

  lemma WholeSecondsTruncates(micros: int)
    ensures micros >= 0 ==> WholeSeconds(micros) * SECOND <= micros < WholeSeconds(micros) * SECOND + SECOND
    ensures micros < 0 ==> WholeSeconds(micros) * SECOND - SECOND < micros <= WholeSeconds(micros) * SECOND <= 0
  {
  }

  /** What being allowed means, whatever the order of the checks, revocation aside. */
  predicate Qualified(row: TokenRow, req: VerifyRequest, cfg: VerifierConfig, now: int) {
    && row.provider == req.provider
    && now <= row.expiresAt + cfg.maxClockSkewSecs * SECOND
    && (cfg.requireDpop ==> req.hasProof)
    && (row.binding.Some? ==> req.thumbprint == row.binding || (req.thumbprint.None? && !cfg.requireDpop))
  }

  lemma AllowedIffQualified(rows: map<Uuid, TokenRow>, req: VerifyRequest, cfg: VerifierConfig, now: int)
    ensures CacheFree(rows, req, cfg, now) == Allowed <==>
      req.jti in rows && !rows[req.jti].revoked && Qualified(rows[req.jti], req, cfg, now)
    ensures CacheFree(rows, req, cfg, now) == Allowed ==>
      -cfg.maxClockSkewSecs <= WholeSeconds(rows[req.jti].expiresAt - now)
  {
  }
}
