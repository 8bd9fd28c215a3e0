/** The rows, cache entries and requests that the registry and the verifier exchange.
    Times are microseconds since the epoch; configured durations are seconds. */
module Records {
  import opened Wrappers

  /** UUIDs are compared and stored, never inspected. */
  type Uuid = nat

  const SECOND: int := 1_000_000

  datatype WriteConditions = WriteConditions(filter: Option<string>, maxItems: Option<nat>, appendOnly: bool)

  datatype Capability =
    | Read(resource: string, filter: Option<string>)
    | Write(resource: string, conditions: Option<WriteConditions>)
    | Transact(resource: string, maxValue: nat, currency: Option<string>)
    | Delete(resource: string, filter: Option<string>)
    | Custom(namespace: string, name: string, params: map<string, string>)

  datatype Envelope = Envelope(json: string)

  datatype GrantStatus = Pending | Approved | Denied | Revoked

  datatype GrantRow = GrantRow(
    agent: Uuid,
    provider: Uuid,
    human: Uuid,
    caps: seq<Capability>,
    envelope: Envelope,
    status: GrantStatus,
    requestedAt: int,
    expiresAt: int)

  datatype TokenRow = TokenRow(
    grant: Uuid,
    agent: Uuid,
    provider: Uuid,
    human: Uuid,
    binding: Option<string>,
    caps: seq<Capability>,
    envelope: Envelope,
    issuedAt: int,
    expiresAt: int,
    revoked: bool)

  /** A Redis hash under a token key. Every field may be absent: marking a missing key as revoked
      creates a hash with the revoked flag alone. `dropAt` is the TTL deadline, if one was set. */
  datatype TokenHash = TokenHash(
    provider: Option<Uuid>,
    expiresAt: Option<int>,
    revoked: Option<bool>,
    dropAt: Option<int>)

  /** What a cache hit yields. */
  datatype CachedToken = CachedToken(provider: Uuid, expiresAt: int, revoked: bool)

  datatype VerifyRequest = VerifyRequest(
    jti: Uuid,
    provider: Uuid,
    nonce: string,
    hasProof: bool,
    thumbprint: Option<string>)

  datatype VerifierConfig = VerifierConfig(requireDpop: bool, maxClockSkewSecs: int, nonceTtlSecs: nat)

  datatype TokenConfig = TokenConfig(lifetimeSecs: nat, idempotencyWindowSecs: nat)

  datatype Outcome =
    | Allowed
    | NonceReplay
    | RevokedToken
    | BindingMismatch
    | InvalidDpopProof
    | Expired
    | NotFound
    | ProviderMismatch
    | InternalError

  /** `DateTime::timestamp`: whole seconds, rounded towards the past. */
  function Timestamp(t: int): int {
    t / SECOND
  }

  /** Reading a token hash; a hash without all three fields counts as a miss. */
  function Lookup(cache: map<Uuid, TokenHash>, jti: Uuid): Option<CachedToken> {
    if jti in cache && cache[jti].provider.Some? && cache[jti].expiresAt.Some? && cache[jti].revoked.Some?
    then Some(CachedToken(cache[jti].provider.value, cache[jti].expiresAt.value, cache[jti].revoked.value))
    else None
  }

  /** The pipeline that writes all three fields and a TTL of at least one second. */
  function PutToken(cache: map<Uuid, TokenHash>, jti: Uuid, provider: Uuid, expiresAt: int, revoked: bool, now: int)
    : map<Uuid, TokenHash>
  {
    var ttl := if expiresAt - Timestamp(now) >= 1 then expiresAt - Timestamp(now) else 1;
    cache[jti := TokenHash(Some(provider), Some(expiresAt), Some(revoked), Some(now + ttl * SECOND))]
  }

  /** Setting the revoked flag: it keeps the other fields and the TTL, and creates the hash when missing. */
  function MarkRevoked(cache: map<Uuid, TokenHash>, jti: Uuid): map<Uuid, TokenHash> {
    var was := if jti in cache then cache[jti] else TokenHash(None, None, None, None);
    cache[jti := was.(revoked := Some(true))]
  }

  /** A key may vanish once its TTL has run out, and only then. */
  predicate MayVanish(cache: map<Uuid, TokenHash>, jti: Uuid, now: int) {
    jti in cache && cache[jti].dropAt.Some? && cache[jti].dropAt.value <= now
  }

  /** An unrevoked token of a grant issued at or after `since`: what the idempotency query selects from. */
  predicate Candidate(rows: map<Uuid, TokenRow>, grant: Uuid, since: int, jti: Uuid) {
    jti in rows && rows[jti].grant == grant && rows[jti].issuedAt >= since && !rows[jti].revoked
  }

  /** `found` is an answer of the idempotency query: a most recent candidate, or none when there is none. */
  ghost predicate FindsExisting(rows: map<Uuid, TokenRow>, grant: Uuid, since: int, found: Option<Uuid>) {
    match found
    case None => forall j :: !Candidate(rows, grant, since, j)
    case Some(jti) =>
      && Candidate(rows, grant, since, jti)
      && forall j :: Candidate(rows, grant, since, j) ==> rows[j].issuedAt <= rows[jti].issuedAt
  }
}
