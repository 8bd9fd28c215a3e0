/** The grant, token, verification and revocation handlers as one state machine. Each handler is split
    where it awaits the database or Redis, any number of handlers run at once, and a handler may be
    abandoned between any two of its steps. */
module Protocol {
  import opened Wrappers
  import opened Records
  import opened Decisions
  import opened Capabilities

  datatype Config = Config(verifier: VerifierConfig, tokens: TokenConfig)

  /** A handler in flight, at the point where it waits, with what it remembers. `start` is the length
      of the history when a verification began. */
  datatype Task =
    | ApproveChecked(grant: Uuid, caps: seq<Capability>)
    | DenyChecked(grant: Uuid)
    | IssueRead(grant: Uuid, grantRow: GrantRow, binding: Option<string>)
    | IssueAbsent(grant: Uuid, grantRow: GrantRow, binding: Option<string>, searched: nat, cutoff: int)
    | IssueCaching(jti: Uuid, provider: Uuid, expiresAt: int)
    | VerifyFresh(start: nat, req: VerifyRequest)
    | VerifyHit(start: nat, req: VerifyRequest)
    | VerifyMiss(start: nat, req: VerifyRequest)
    | VerifyFilling(start: nat, req: VerifyRequest, row: TokenRow)
    | VerifyTail(start: nat, req: VerifyRequest, row: TokenRow)
    | RevokeMarking(jti: Uuid)
    | RevokeMissed(grant: Uuid, missed: nat)

  /** The history: decisions and answers in the order in which they happened. */
  datatype Event =
    | Decided(grant: Uuid, approved: bool)
    | ReadApproved(grant: Uuid, caps: seq<Capability>)
    | RevokeSucceeded(jti: Uuid)
    | VerifyStarted(jti: Uuid)
    | Issued(jti: Uuid, searched: nat)
    | GrantRevokeReported(grant: Uuid, changed: bool, missed: nat)
    | Verified(start: nat, req: VerifyRequest, outcome: Outcome, row: Option<TokenRow>, at: int)

  /** `requested` remembers what each grant originally asked for. */
  datatype State = State(
    now: int,
    grants: map<Uuid, GrantRow>,
    tokens: map<Uuid, TokenRow>,
    cache: map<Uuid, TokenHash>,
    tasks: map<nat, Task>,
    requested: map<Uuid, seq<Capability>>,
    log: seq<Event>)

  datatype Step =
    | Tick(micros: nat)
    | Abandon(task: nat)
    | Vanish(jti: Uuid)
    | InsertGrant(grant: Uuid, row: GrantRow)
    | ApproveRead(task: nat, grant: Uuid, subset: Option<seq<Capability>>)
    | ApproveUpdate(task: nat)
    | DenyRead(task: nat, grant: Uuid)
    | DenyUpdate(task: nat)
    | RevokeGrantUpdate(task: nat, grant: Uuid, acknowledged: bool)
    | RevokeGrantRead(task: nat)
    | IssueReadGrant(task: nat, grant: Uuid, binding: Option<string>)
    | IssueFind(task: nat, found: Option<Uuid>)
    | IssueInsert(task: nat, jti: Uuid)
    | IssueCache(task: nat, applied: bool)
    | VerifyStart(task: nat, req: VerifyRequest)
    | VerifyReadCache(task: nat, answered: bool)
    | VerifyReadRow(task: nat)
    | VerifyFill(task: nat, applied: bool)
    | VerifyDecide(task: nat)
    | RevokeUpdate(task: nat, jti: Uuid)
    | RevokeMark(task: nat, applied: bool, acknowledged: bool)

  // What one step writes, store by store.
  datatype GrantWrite =
    | KeepGrants
    | NewGrant(grant: Uuid, row: GrantRow)
    | Approve(grant: Uuid, caps: seq<Capability>)
    | Deny(grant: Uuid)
    | Withdraw(grant: Uuid)
  datatype TokenWrite = KeepTokens | NewToken(jti: Uuid, row: TokenRow) | Revoke(jti: Uuid)
  datatype CacheWrite =
    | KeepCache
    | Put(jti: Uuid, provider: Uuid, expiresAt: int, revoked: bool)
    | Mark(jti: Uuid)
    | Drop(jti: Uuid)
  datatype TaskWrite = KeepTasks | Await(id: nat, task: Task) | End(id: nat)
  datatype Writes = Writes(grant: GrantWrite, token: TokenWrite, cache: CacheWrite, task: TaskWrite,
    event: Option<Event>, micros: nat)

  const NONE := Writes(KeepGrants, KeepTokens, KeepCache, KeepTasks, None, 0)

  function ApplyGrant(grants: map<Uuid, GrantRow>, w: GrantWrite): map<Uuid, GrantRow> {
    match w
    case KeepGrants => grants
    case NewGrant(g, row) => grants[g := row]
    case Approve(g, caps) => if g in grants then grants[g := grants[g].(status := Approved, caps := caps)] else grants
    case Deny(g) => if g in grants then grants[g := grants[g].(status := Denied)] else grants
    case Withdraw(g) => if g in grants then grants[g := grants[g].(status := Revoked)] else grants
  }

  function ApplyToken(tokens: map<Uuid, TokenRow>, w: TokenWrite): map<Uuid, TokenRow> {
    match w
    case KeepTokens => tokens
    case NewToken(j, row) => tokens[j := row]
    case Revoke(j) => if j in tokens then tokens[j := tokens[j].(revoked := true)] else tokens
  }

  function ApplyCache(cache: map<Uuid, TokenHash>, w: CacheWrite, now: int): map<Uuid, TokenHash> {
    match w
    case KeepCache => cache
    case Put(j, provider, expiresAt, revoked) => PutToken(cache, j, provider, expiresAt, revoked, now)
    case Mark(j) => MarkRevoked(cache, j)
    case Drop(j) => cache - {j}
  }

  function ApplyTask(tasks: map<nat, Task>, w: TaskWrite): map<nat, Task> {
    match w
    case KeepTasks => tasks
    case Await(t, task) => tasks[t := task]
    case End(t) => tasks - {t}
  }

  function Apply(s: State, w: Writes): State {
    State(
      s.now + w.micros,
      ApplyGrant(s.grants, w.grant),
      ApplyToken(s.tokens, w.token),
      ApplyCache(s.cache, w.cache, s.now),
      ApplyTask(s.tasks, w.task),
      if w.grant.NewGrant? then s.requested[w.grant.grant := w.grant.row.caps] else s.requested,
      if w.event.Some? then s.log + [w.event.value] else s.log)
  }

  function Answer(s: State, t: nat, start: nat, req: VerifyRequest, outcome: Outcome,
                  row: Option<TokenRow>): Option<Writes> {
    Some(NONE.(task := End(t), event := Some(Verified(start, req, outcome, row, s.now))))
  }

  /** What a step writes in a state, or none when the step cannot be taken there. */
  ghost function Effect(cfg: Config, s: State, step: Step): Option<Writes> {
    if Begins(step) then (if step.task in s.tasks then None else Begin(s, step))
    else if Resumes(step) then (if step.task in s.tasks then Resume(cfg, s, step, s.tasks[step.task]) else None)
    else Happen(s, step)
  }

  /** Steps that are not part of a handler, or a handler in one statement. */
  function Happen(s: State, step: Step): Option<Writes>
    requires !Begins(step) && !Resumes(step)
  {
    match step
    case Tick(micros) => Some(NONE.(micros := micros))
    case Abandon(t) => if t in s.tasks then Some(NONE.(task := End(t))) else None
    case Vanish(j) => if MayVanish(s.cache, j, s.now) then Some(NONE.(cache := Drop(j))) else None
    case InsertGrant(g, row) =>
      if g in s.grants || row.status != Pending then None else Some(NONE.(grant := NewGrant(g, row)))
  }

  predicate Resumes(step: Step) {
    step.ApproveUpdate? || step.DenyUpdate? || step.IssueFind? || step.IssueInsert? || step.IssueCache?
    || step.VerifyReadCache? || step.VerifyReadRow? || step.VerifyFill? || step.VerifyDecide? || step.RevokeMark?
    || step.RevokeGrantRead?
  }

  predicate Begins(step: Step) {
    step.ApproveRead? || step.DenyRead? || step.IssueReadGrant? || step.VerifyStart? || step.RevokeUpdate?
    || step.RevokeGrantUpdate?
  }

  /** The first step of a handler, which takes an unused task number. */
  ghost function Begin(s: State, step: Step): Option<Writes>
    requires Begins(step)
  {
    match step
    case ApproveRead(t, g, subset) => BeginApprove(s, t, g, subset)
    case DenyRead(t, g) =>
      if g in s.grants && s.grants[g].status == Pending then Some(NONE.(task := Await(t, DenyChecked(g)))) else None
    case IssueReadGrant(t, g, binding) =>
      if g !in s.grants || s.grants[g].status != Approved then None
      else Some(NONE.(task := Await(t, IssueRead(g, s.grants[g], binding)),
                      event := Some(ReadApproved(g, s.grants[g].caps))))
    case VerifyStart(t, req) =>
      Some(NONE.(task := Await(t, VerifyFresh(|s.log|, req)), event := Some(VerifyStarted(req.jti))))
    case RevokeUpdate(t, j) =>
      if j !in s.tokens || s.tokens[j].revoked then None
      else Some(NONE.(token := Revoke(j), task := Await(t, RevokeMarking(j))))
    case RevokeGrantUpdate(t, g, acknowledged) => BeginRevokeGrant(s, t, g, acknowledged)
  }

  /** A later step of the handler `task`. */
  ghost function Resume(cfg: Config, s: State, step: Step, task: Task): Option<Writes>
    requires Resumes(step)
  {
    match (step, task)
    case (ApproveUpdate(t), ApproveChecked(g, caps)) => FinishApprove(s, t, g, caps)
    case (DenyUpdate(t), DenyChecked(g)) => FinishDeny(s, t, g)
    case (IssueFind(t, found), IssueRead(g, row, binding)) =>
      var cutoff := s.now - cfg.tokens.idempotencyWindowSecs * SECOND;
      if !FindsExisting(s.tokens, g, cutoff, found) then None
      else Some(NONE.(task := if found.Some? then End(t) else Await(t, IssueAbsent(g, row, binding, |s.log|, cutoff))))
    case (IssueInsert(t, j), IssueAbsent(g, row, binding, searched, _)) =>
      InsertToken(cfg, s, t, j, g, row, binding, searched)
    case (IssueCache(t, applied), IssueCaching(j, provider, expiresAt)) =>
      Some(NONE.(task := End(t), cache := if applied then Put(j, provider, Timestamp(expiresAt), false) else KeepCache))
    case (VerifyReadCache(t, answered), VerifyFresh(start, req)) => ReadCache(s, t, answered, start, req)
    case (VerifyReadRow(t), VerifyHit(start, req)) =>
      if req.jti !in s.tokens then Answer(s, t, start, req, NotFound, None)
      else Some(NONE.(task := Await(t, VerifyTail(start, req, s.tokens[req.jti]))))
    case (VerifyReadRow(t), VerifyMiss(start, req)) => ReadRowAfterMiss(s, t, start, req)
    case (VerifyFill(t, applied), VerifyFilling(start, req, row)) =>
      Some(NONE.(task := Await(t, VerifyTail(start, req, row)),
                 cache :=
                   if applied then Put(req.jti, row.provider, Timestamp(row.expiresAt), row.revoked) else KeepCache))
    case (VerifyDecide(t), VerifyTail(start, req, row)) =>
      Answer(s, t, start, req, TailOutcome(row, req, cfg.verifier, s.now), Some(row))
    case (RevokeMark(t, applied, acknowledged), RevokeMarking(j)) =>
      if acknowledged && !applied then None
      else Some(NONE.(task := End(t), cache := if applied then Mark(j) else KeepCache,
                      event := if acknowledged then Some(RevokeSucceeded(j)) else None))
    case (RevokeGrantRead(t), RevokeMissed(g, missed)) =>
      if g in s.grants && s.grants[g].status == Approved
      then Some(NONE.(task := End(t), event := Some(GrantRevokeReported(g, false, missed))))
      else Some(NONE.(task := End(t)))
    case _ => None
  }

  /** Withdrawing a grant is an UPDATE guarded by the approved status. When it changes no row, the handler
      reads the row to choose its error, and finds none to report if the row is approved by then. */
  function BeginRevokeGrant(s: State, t: nat, g: Uuid, acknowledged: bool): Option<Writes> {
    if g in s.grants && s.grants[g].status == Approved
    then Some(NONE.(grant := Withdraw(g),
                    event := if acknowledged then Some(GrantRevokeReported(g, true, |s.log|)) else None))
    else if acknowledged then Some(NONE.(task := Await(t, RevokeMissed(g, |s.log|))))
    else Some(NONE)
  }

  /** Approval reads the row and checks status, expiry and the chosen subset against that row. */
  ghost function BeginApprove(s: State, t: nat, g: Uuid, subset: Option<seq<Capability>>): Option<Writes> {
    if g !in s.grants || s.grants[g].status != Pending || s.now > s.grants[g].expiresAt then None
    else if subset.None? then Some(NONE.(task := Await(t, ApproveChecked(g, s.grants[g].caps))))
    else if subset.value == [] || !Within(subset.value, s.grants[g].caps) then None
    else Some(NONE.(task := Await(t, ApproveChecked(g, subset.value))))
  }

  /** The guarded UPDATEs change the row only if it is still pending. */
  function FinishApprove(s: State, t: nat, g: Uuid, caps: seq<Capability>): Option<Writes> {
    if g in s.grants && s.grants[g].status == Pending
    then Some(NONE.(task := End(t), grant := Approve(g, caps), event := Some(Decided(g, true))))
    else Some(NONE.(task := End(t)))
  }

  function FinishDeny(s: State, t: nat, g: Uuid): Option<Writes> {
    if g in s.grants && s.grants[g].status == Pending
    then Some(NONE.(task := End(t), grant := Deny(g), event := Some(Decided(g, false))))
    else Some(NONE.(task := End(t)))
  }

  function InsertToken(cfg: Config, s: State, t: nat, j: Uuid, g: Uuid, row: GrantRow, binding: Option<string>,
                       searched: nat): Option<Writes> {
    if j in s.tokens then None
    else
      var expiresAt := s.now + cfg.tokens.lifetimeSecs * SECOND;
      var token := TokenRow(g, row.agent, row.provider, row.human, binding, row.caps, row.envelope, s.now, expiresAt,
        false);
      Some(NONE.(token := NewToken(j, token), task := Await(t, IssueCaching(j, row.provider, expiresAt)),
                 event := Some(Issued(j, searched))))
  }

  /** A cache hit decides revocation and provider; an unanswered read counts as a miss. */
  function ReadCache(s: State, t: nat, answered: bool, start: nat, req: VerifyRequest): Option<Writes> {
    match if answered then Lookup(s.cache, req.jti) else None
    case None => Some(NONE.(task := Await(t, VerifyMiss(start, req))))
    case Some(c) =>
      if c.revoked then Answer(s, t, start, req, RevokedToken, None)
      else if c.provider != req.provider then Answer(s, t, start, req, ProviderMismatch, None)
      else Some(NONE.(task := Await(t, VerifyHit(start, req))))
  }

  /** After a miss, unlike after a hit, the row's own revocation and provider are checked. */
  function ReadRowAfterMiss(s: State, t: nat, start: nat, req: VerifyRequest): Option<Writes> {
    if req.jti !in s.tokens then Answer(s, t, start, req, NotFound, None)
    else
      var row := s.tokens[req.jti];
      if row.revoked then Answer(s, t, start, req, RevokedToken, None)
      else if row.provider != req.provider then Answer(s, t, start, req, ProviderMismatch, None)
      else Some(NONE.(task := Await(t, VerifyFilling(start, req, row))))
  }

  ghost predicate Init(s: State) {
    s.grants == map[] && s.tokens == map[] && s.cache == map[] && s.tasks == map[] && s.requested == map[] &&
      s.log == []
  }

  /** A run: the state after a sequence of steps, or none when one of them cannot be taken. */
  ghost function Run(cfg: Config, s: State, steps: seq<Step>): Option<State>
    decreases |steps|
  {
    if |steps| == 0 then Some(s)
    else
      var w := Effect(cfg, s, steps[0]);
      if w.None? then None else Run(cfg, Apply(s, w.value), steps[1..])
  }
}
