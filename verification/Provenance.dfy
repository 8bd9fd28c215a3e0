/** What every interleaving of the handlers keeps about grants and the tokens issued from them. */
module Provenance {
  import opened Wrappers
  import opened Records
  import opened Decisions
  import opened Capabilities
  import opened Protocol

  /** Equal but for the revoked flag. */
  predicate SameIssue(r: TokenRow, q: TokenRow) {
    r.(revoked := false) == q.(revoked := false)
  }

  predicate Approvable(status: GrantStatus) {
    status == Approved || status == Revoked
  }

  /** The grant stands approved, or was revoked after approval, with exactly these capabilities. */
  predicate ApprovedWith(s: State, g: Uuid, caps: seq<Capability>) {
    g in s.grants && Approvable(s.grants[g].status) && s.grants[g].caps == caps
  }

  ghost predicate GrantsTraced(s: State) {
    && s.requested.Keys == s.grants.Keys
    && (forall g :: g in s.grants ==> Within(s.grants[g].caps, s.requested[g]))
    && (forall g :: g in s.grants && s.grants[g].status == Pending ==> s.grants[g].caps == s.requested[g])
  }

  ghost predicate TokenTraced(s: State, row: TokenRow) {
    ApprovedWith(s, row.grant, row.caps) && ReadApproved(row.grant, row.caps) in s.log
  }

  ghost predicate TokensTraced(s: State) {
    forall j :: j in s.tokens ==> TokenTraced(s, s.tokens[j])
  }

  /** However stale about revocation, the cache is right about who the token is for and when it expires. */
  predicate HashTraced(s: State, j: Uuid, hash: TokenHash) {
    hash.provider.Some? ==>
      j in s.tokens && hash.provider.value == s.tokens[j].provider &&
        hash.expiresAt == Some(Timestamp(s.tokens[j].expiresAt))
  }

  ghost predicate CacheTraced(s: State) {
    forall j :: j in s.cache ==> HashTraced(s, j, s.cache[j])
  }

  ghost predicate TaskTraced(s: State, task: Task) {
    match task
    case ApproveChecked(g, caps) => g in s.requested && Within(caps, s.requested[g])
    case IssueRead(g, row, _) => ApprovedWith(s, g, row.caps) && ReadApproved(g, row.caps) in s.log
    case IssueAbsent(g, row, _, _, _) => ApprovedWith(s, g, row.caps) && ReadApproved(g, row.caps) in s.log
    case IssueCaching(jti, provider, expiresAt) =>
      jti in s.tokens && s.tokens[jti].provider == provider && s.tokens[jti].expiresAt == expiresAt
    case VerifyFilling(_, req, row) =>
      req.jti in s.tokens && SameIssue(row, s.tokens[req.jti]) && !row.revoked && row.provider == req.provider
    case VerifyHit(_, req) => req.jti in s.tokens && s.tokens[req.jti].provider == req.provider
    case VerifyTail(_, req, row) => req.jti in s.tokens && SameIssue(row, s.tokens[req.jti]) &&
      row.provider == req.provider
    case RevokeMarking(jti) => jti in s.tokens && s.tokens[jti].revoked
    case _ => true
  }

  ghost predicate TasksTraced(s: State) {
    forall t :: t in s.tasks ==> TaskTraced(s, s.tasks[t])
  }

  /** Each approval read follows an approving decision; each allowed answer follows the approval read
      of its token's grant and reports the stored row. */
  ghost predicate EventTraced(s: State, past: seq<Event>, e: Event) {
    match e
    case ReadApproved(g, _) => Decided(g, true) in past
    case Verified(_, req, outcome, row, _) =>
      outcome == Allowed ==>
        && row.Some? && req.jti in s.tokens && SameIssue(row.value, s.tokens[req.jti])
        && ReadApproved(row.value.grant, row.value.caps) in past
    case _ => true
  }

  ghost predicate LogTraced(s: State) {
    forall i :: 0 <= i < |s.log| ==> EventTraced(s, s.log[..i], s.log[i])
  }

  /** Decision events exist exactly for the grants no longer pending, and say which way they went. */
  ghost predicate DecisionsTraced(s: State) {
    && (forall i :: 0 <= i < |s.log| && s.log[i].Decided? ==>
          s.log[i].grant in s.grants && s.grants[s.log[i].grant].status != Pending)
    && (forall g :: g in s.grants && s.grants[g].status != Pending ==>
          Decided(g, Approvable(s.grants[g].status)) in s.log)
  }

  ghost predicate DecidedOnce(log: seq<Event>) {
    forall i, j :: 0 <= i < j < |log| && log[i].Decided? && log[j].Decided? ==> log[i].grant != log[j].grant
  }

  ghost predicate Inv(s: State) {
    GrantsTraced(s) && TokensTraced(s) && CacheTraced(s) && TasksTraced(s) && LogTraced(s) && DecisionsTraced(s) &&
      DecidedOnce(s.log)
  }

  /** The only status moves: pending to approved or denied, approved to revoked. */
  predicate CanBecome(a: GrantStatus, b: GrantStatus) {
    a == b || a == Pending || (a == Approved && b == Revoked)
  }

  /** Rows are never deleted, tokens change only by revocation, grants only along `CanBecome` and with
      their capabilities fixed once decided; the log only grows and the clock never goes back. */
  ghost predicate Later(s: State, s': State) {
    && s.now <= s'.now
    && s.log <= s'.log
    && (forall j :: j in s.tokens ==>
          j in s'.tokens && SameIssue(s.tokens[j], s'.tokens[j]) && (s.tokens[j].revoked ==> s'.tokens[j].revoked))
    && (forall g :: g in s.grants ==>
          g in s'.grants && CanBecome(s.grants[g].status, s'.grants[g].status)
          && (s.grants[g].status != Pending ==> s'.grants[g].caps == s.grants[g].caps))
    && (forall g :: g in s.requested ==> g in s'.requested && s'.requested[g] == s.requested[g])
  }

  // What the guards of the handlers guarantee about what they write.

  ghost predicate GrantWriteSound(s: State, w: GrantWrite, event: Option<Event>) {
    match w
    case KeepGrants => event.Some? ==> !event.value.Decided?
    case NewGrant(g, row) => g !in s.grants && row.status == Pending && event.None?
    case Approve(g, caps) =>
      && g in s.grants && s.grants[g].status == Pending && event == Some(Decided(g, true))
      && g in s.requested && Within(caps, s.requested[g])
    case Deny(g) => g in s.grants && s.grants[g].status == Pending && event == Some(Decided(g, false))
    case Withdraw(g) => g in s.grants && s.grants[g].status == Approved && (event.Some? ==> !event.value.Decided?)
  }

  ghost predicate TokenWriteSound(s: State, w: TokenWrite) {
    match w
    case KeepTokens => true
    case NewToken(j, row) => j !in s.tokens && TokenTraced(s, row)
    case Revoke(j) => j in s.tokens && !s.tokens[j].revoked
  }

  ghost predicate EventSound(s: State, e: Event) {
    match e
    case ReadApproved(g, caps) => ApprovedWith(s, g, caps)
    case Verified(_, req, outcome, row, _) =>
      outcome == Allowed ==> row.Some? && req.jti in s.tokens && SameIssue(row.value, s.tokens[req.jti])
    case _ => true
  }

  predicate CacheWriteSound(s: State, w: CacheWrite) {
    w.Put? ==>
      w.jti in s.tokens && w.provider == s.tokens[w.jti].provider && w.expiresAt == Timestamp(s.tokens[w.jti].expiresAt)
  }

  ghost predicate WritesSound(s: State, w: Writes) {
    && CacheWriteSound(s, w.cache)
    && GrantWriteSound(s, w.grant, w.event)
    && TokenWriteSound(s, w.token)
    && (w.event.Some? ==> EventSound(s, w.event.value))
    && (w.task.Await? ==> TaskTraced(Apply(s, w), w.task.task))
  }

  lemma BeginSound(s: State, step: Step, w: Writes)
    requires Begins(step) && GrantsTraced(s) && Begin(s, step) == Some(w)
    ensures WritesSound(s, w)
  {
    if step.IssueReadGrant? {
      assert Apply(s, w).log[|s.log|] == w.event.value;
    }
  }

  lemma ResumeSound(cfg: Config, s: State, step: Step, task: Task, w: Writes)
    requires Resumes(step) && CacheTraced(s) && TaskTraced(s, task) && Resume(cfg, s, step, task) == Some(w)
    ensures WritesSound(s, w)
  {
  }

  lemma EffectSound(cfg: Config, s: State, step: Step, w: Writes)
    requires GrantsTraced(s) && CacheTraced(s) && TasksTraced(s) && Effect(cfg, s, step) == Some(w)
    ensures WritesSound(s, w)
  {
    if Begins(step) {
      BeginSound(s, step, w);
    } else if Resumes(step) {
      ResumeSound(cfg, s, step, s.tasks[step.task], w);
    }
  }

  lemma SoundGoesForward(s: State, w: Writes)
    requires GrantsTraced(s) && GrantWriteSound(s, w.grant, w.event) && TokenWriteSound(s, w.token)
    ensures Later(s, Apply(s, w))
  {
  }

  lemma SoundKeepsGrants(s: State, w: Writes)
    requires GrantsTraced(s) && GrantWriteSound(s, w.grant, w.event)
    ensures GrantsTraced(Apply(s, w))
  {
  }

  lemma TokenStaysTraced(s: State, s': State, row: TokenRow)
    requires Later(s, s') && TokenTraced(s, row)
    ensures TokenTraced(s', row)
  {
  }

  lemma SoundKeepsTokens(s: State, w: Writes)
    requires TokensTraced(s) && TokenWriteSound(s, w.token) && Later(s, Apply(s, w))
    ensures TokensTraced(Apply(s, w))
  {
    var s' := Apply(s, w);
    forall j | j in s'.tokens
      ensures TokenTraced(s', s'.tokens[j])
    {
      if w.token.NewToken? && j == w.token.jti {
        TokenStaysTraced(s, s', s'.tokens[j]);
      } else {
        TokenStaysTraced(s, s', s.tokens[j]);
      }
    }
  }

  lemma TaskStaysTraced(s: State, s': State, task: Task)
    requires Later(s, s') && TaskTraced(s, task)
    ensures TaskTraced(s', task)
  {
  }

  lemma SoundKeepsTasks(s: State, w: Writes)
    requires TasksTraced(s) && Later(s, Apply(s, w)) && (w.task.Await? ==> TaskTraced(Apply(s, w), w.task.task))
    ensures TasksTraced(Apply(s, w))
  {
    var s' := Apply(s, w);
    forall t | t in s'.tasks
      ensures TaskTraced(s', s'.tasks[t])
    {
      if !(w.task.Await? && t == w.task.id) {
        TaskStaysTraced(s, s', s.tasks[t]);
      }
    }
  }

  lemma SoundKeepsCache(s: State, w: Writes)
    requires CacheTraced(s) && CacheWriteSound(s, w.cache) && Later(s, Apply(s, w))
    ensures CacheTraced(Apply(s, w))
  {
    var s' := Apply(s, w);
    forall j | j in s'.cache
      ensures HashTraced(s', j, s'.cache[j])
    {
      if j in s.cache {
        assert HashTraced(s, j, s.cache[j]);
      }
    }
  }

  lemma NewEventTraced(s: State, e: Event)
    requires TokensTraced(s) && DecisionsTraced(s) && EventSound(s, e)
    ensures EventTraced(s, s.log, e)
  {
    if e.Verified? && e.outcome == Allowed {
      assert TokenTraced(s, s.tokens[e.req.jti]);
    }
  }

  lemma SoundKeepsLog(s: State, w: Writes)
    requires TokensTraced(s) && DecisionsTraced(s) && LogTraced(s) && Later(s, Apply(s, w))
    requires w.event.Some? ==> EventSound(s, w.event.value)
    ensures LogTraced(Apply(s, w))
  {
    var s' := Apply(s, w);
    forall i | 0 <= i < |s'.log|
      ensures EventTraced(s', s'.log[..i], s'.log[i])
    {
      if i < |s.log| {
        assert EventTraced(s, s.log[..i], s.log[i]);
        assert s'.log[..i] == s.log[..i];
      } else {
        assert s'.log[..i] == s.log;
        NewEventTraced(s, w.event.value);
      }
    }
  }

  /** A grant that is decided now was pending, so no decision about it is logged yet. */
  lemma SoundKeepsDecidedOnce(s: State, w: Writes)
    requires DecisionsTraced(s) && DecidedOnce(s.log) && GrantWriteSound(s, w.grant, w.event)
    ensures DecidedOnce(Apply(s, w).log)
  {
  }

  lemma SoundKeepsDecisions(s: State, w: Writes)
    requires DecisionsTraced(s) && GrantWriteSound(s, w.grant, w.event) && Later(s, Apply(s, w))
    ensures DecisionsTraced(Apply(s, w))
  {
    var s' := Apply(s, w);
    forall g | g in s'.grants && s'.grants[g].status != Pending
      ensures Decided(g, Approvable(s'.grants[g].status)) in s'.log
    {
      if w.grant.Approve? || w.grant.Deny? {
        assert s'.log[|s.log|] == w.event.value;
      }
    }
  }

  lemma StepKeepsInv(cfg: Config, s: State, step: Step)
    requires Inv(s) && Effect(cfg, s, step).Some?
    ensures Inv(Apply(s, Effect(cfg, s, step).value)) && Later(s, Apply(s, Effect(cfg, s, step).value))
  {
    var w := Effect(cfg, s, step).value;
    EffectSound(cfg, s, step, w);
    SoundGoesForward(s, w);
    SoundKeepsGrants(s, w);
    SoundKeepsTokens(s, w);
    SoundKeepsCache(s, w);
    SoundKeepsTasks(s, w);
    SoundKeepsLog(s, w);
    SoundKeepsDecidedOnce(s, w);
    SoundKeepsDecisions(s, w);
  }

  lemma LaterTransitive(a: State, b: State, c: State)
    requires Later(a, b) && Later(b, c)
    ensures Later(a, c)
  {
  }

  lemma {:induction false} RunKeepsInv(cfg: Config, s: State, steps: seq<Step>, s': State)
    requires Inv(s) && Run(cfg, s, steps) == Some(s')
    ensures Inv(s') && Later(s, s')
    decreases |steps|
  {
    if |steps| != 0 {
      var mid := Apply(s, Effect(cfg, s, steps[0]).value);
      StepKeepsInv(cfg, s, steps[0]);
      RunKeepsInv(cfg, mid, steps[1..], s');
      LaterTransitive(s, mid, s');
    }
  }

  lemma InitInv(s: State)
    requires Init(s)
    ensures Inv(s)
  {
  }

  lemma ReadIsDecided(s: State, k: nat)
    requires LogTraced(s) && k < |s.log| && s.log[k].ReadApproved?
    ensures exists d :: 0 <= d < k && s.log[d] == Decided(s.log[k].grant, true)
  {
    assert EventTraced(s, s.log[..k], s.log[k]);
    var d :| 0 <= d < k && s.log[..k][d] == Decided(s.log[k].grant, true);
    assert s.log[d] == Decided(s.log[k].grant, true);
  }

  lemma TracedBack(s: State, m: nat)
    requires LogTraced(s) && m < |s.log| && s.log[m].Verified? && s.log[m].outcome == Allowed
    ensures s.log[m].row.Some?
    ensures
      var row := s.log[m].row.value;
      exists d, k ::
        0 <= d < k < m && s.log[d] == Decided(row.grant, true) && s.log[k] == ReadApproved(row.grant, row.caps)
  {
    assert EventTraced(s, s.log[..m], s.log[m]);
    var row := s.log[m].row.value;
    var k :| 0 <= k < m && s.log[..m][k] == ReadApproved(row.grant, row.caps);
    assert s.log[k] == ReadApproved(row.grant, row.caps);
    ReadIsDecided(s, k);
  }

  /** End-to-end provenance. Whenever a verification is allowed, its token's grant was decided by an
      approval, was then read as approved with exactly the token's capabilities, and each of those
      capabilities has the type key of one in the original request. */
  lemma AllowedIsProvenanced(cfg: Config, s0: State, steps: seq<Step>, s: State, m: nat)
    requires Init(s0) && Run(cfg, s0, steps) == Some(s)
    requires m < |s.log| && s.log[m].Verified? && s.log[m].outcome == Allowed
    ensures s.log[m].row.Some? && s.log[m].req.jti in s.tokens &&
      SameIssue(s.log[m].row.value, s.tokens[s.log[m].req.jti])
    ensures
      var row := s.log[m].row.value;
      && row.grant in s.requested
      && (forall c :: c in row.caps ==>
            exists q :: q in s.requested[row.grant] && TypeKey(q) == TypeKey(c) && SameTarget(q, c))
      && exists d, k ::
        0 <= d < k < m && s.log[d] == Decided(row.grant, true) && s.log[k] == ReadApproved(row.grant, row.caps)
  {
    InitInv(s0);
    RunKeepsInv(cfg, s0, steps, s);
    TracedBack(s, m);
    assert EventTraced(s, s.log[..m], s.log[m]);
    assert TokenTraced(s, s.tokens[s.log[m].req.jti]);
    var row := s.log[m].row.value;
    WithinMeans(row.caps, s.requested[row.grant]);
  }

  /** However approvals and denials interleave, at most one succeeds per grant, exactly the grants that
      left the pending state have one, and the status tells which it was. */
  lemma OneDecisionPerGrant(cfg: Config, s0: State, steps: seq<Step>, s: State)
    requires Init(s0) && Run(cfg, s0, steps) == Some(s)
    ensures DecidedOnce(s.log)
    ensures forall g, approved ::
      Decided(g, approved) in s.log <==>
      g in s.grants && s.grants[g].status != Pending && approved == Approvable(s.grants[g].status)
  {
    InitInv(s0);
    RunKeepsInv(cfg, s0, steps, s);
    forall g, approved | Decided(g, approved) in s.log
      ensures g in s.grants && s.grants[g].status != Pending && approved == Approvable(s.grants[g].status)
    {
      var i :| 0 <= i < |s.log| && s.log[i] == Decided(g, approved);
      var j :| 0 <= j < |s.log| && s.log[j] == Decided(g, Approvable(s.grants[g].status));
      assert i == j;
    }
  }

  /** From any reachable state on, statuses move only along `CanBecome`, and the capabilities of a
      decided grant never change again. */
  lemma StatusesMoveForward(cfg: Config, s0: State, before: seq<Step>, s: State, after: seq<Step>, s': State, g: Uuid)
    requires Init(s0) && Run(cfg, s0, before) == Some(s) && Run(cfg, s, after) == Some(s') && g in s.grants
    ensures g in s'.grants && CanBecome(s.grants[g].status, s'.grants[g].status)
    ensures s.grants[g].status != Pending ==> s'.grants[g].caps == s.grants[g].caps
  {
    InitInv(s0);
    RunKeepsInv(cfg, s0, before, s);
    RunKeepsInv(cfg, s, after, s');
  }

  /** Only the last step of a verification allows, and only what qualifies. */
  lemma OnlyDecideAllows(cfg: Config, s: State, step: Step, w: Writes)
    requires TasksTraced(s) && Effect(cfg, s, step) == Some(w)
    requires w.event.Some? && w.event.value.Verified? && w.event.value.outcome == Allowed
    ensures step.VerifyDecide? && step.task in s.tasks && s.tasks[step.task].VerifyTail?
    ensures
      var v := s.tasks[step.task];
      w.event.value == Verified(v.start, v.req, Allowed, Some(v.row), s.now) &&
        Qualified(v.row, v.req, cfg.verifier, s.now)
  {
    if Resumes(step) {
      assert TaskTraced(s, s.tasks[step.task]);
    }
  }

  predicate EventQualified(cfg: Config, e: Event) {
    e.Verified? && e.outcome == Allowed ==> e.row.Some? && Qualified(e.row.value, e.req, cfg.verifier, e.at)
  }

  lemma {:induction false} RunKeepsQualified(cfg: Config, s: State, steps: seq<Step>, s': State)
    requires Inv(s) && Run(cfg, s, steps) == Some(s') && forall e :: e in s.log ==> EventQualified(cfg, e)
    ensures forall e :: e in s'.log ==> EventQualified(cfg, e)
    decreases |steps|
  {
    if |steps| != 0 {
      var w := Effect(cfg, s, steps[0]).value;
      StepKeepsInv(cfg, s, steps[0]);
      if w.event.Some? && w.event.value.Verified? && w.event.value.outcome == Allowed {
        OnlyDecideAllows(cfg, s, steps[0], w);
      }
      RunKeepsQualified(cfg, Apply(s, w), steps[1..], s');
    }
  }

  /** Revocation aside, interleaving and caching grant nobody anything: every allowed answer reports a row
      of the token table that qualifies for the request at the time of the answer. */
  lemma AllowedIsQualified(cfg: Config, s0: State, steps: seq<Step>, s: State, e: Event)
    requires Init(s0) && Run(cfg, s0, steps) == Some(s)
    requires e in s.log && e.Verified? && e.outcome == Allowed
    ensures e.row.Some? && e.req.jti in s.tokens && SameIssue(e.row.value, s.tokens[e.req.jti])
    ensures Qualified(e.row.value, e.req, cfg.verifier, e.at)
  {
    InitInv(s0);
    RunKeepsInv(cfg, s0, steps, s);
    RunKeepsQualified(cfg, s0, steps, s);
    assert EventQualified(cfg, e);
    var i :| 0 <= i < |s.log| && s.log[i] == e;
    assert EventTraced(s, s.log[..i], s.log[i]);
  }
}
