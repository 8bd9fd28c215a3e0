/** Revocations whose mark never reaches the cache, and a run in which one is overtaken. */
module Unmarked {
  import opened Wrappers
  import opened Records
  import opened Protocol
  import opened Provenance
  import opened Uninterrupted
  import opened Revocation
  import Collections

  // A run that leads to the failing side of the condition for respected revocations.

  lemma {:induction false} RunSnoc(cfg: Config, s: State, steps: seq<Step>, mid: State, step: Step, w: Writes)
    requires Run(cfg, s, steps) == Some(mid) && Effect(cfg, mid, step) == Some(w)
    ensures Run(cfg, s, steps + [step]) == Some(Apply(mid, w))
    decreases |steps|
  {
    if |steps| == 0 {
      RunCons(cfg, s, step, w, []);
      assert steps + [step] == [step] + [];
    } else {
      RunSnoc(cfg, Apply(s, Effect(cfg, s, steps[0]).value), steps[1..], mid, step, w);
      assert (steps + [step])[1..] == steps[1..] + [step];
    }
  }

  /** The grant `0` of a first request, at the time it is made. */
  function FirstGrant(now: int): GrantRow {
    GrantRow(0, 0, 0, [], Envelope(""), Pending, now, now)
  }

  lemma GrantApproved(cfg: Config, s0: State) returns (steps: seq<Step>, s: State)
    requires Init(s0)
    ensures Run(cfg, s0, steps) == Some(s) && s.tasks == map[] && s.tokens == map[] && s.now == s0.now
    ensures 0 in s.grants && s.grants[0] == FirstGrant(s0.now).(status := Approved)
  {
    var w1 := Effect(cfg, s0, InsertGrant(0, FirstGrant(s0.now))).value;
    RunSnoc(cfg, s0, [], s0, InsertGrant(0, FirstGrant(s0.now)), w1);
    var s1 := Apply(s0, w1);
    var w2 := Effect(cfg, s1, ApproveRead(0, 0, None)).value;
    RunSnoc(cfg, s0, [] + [InsertGrant(0, FirstGrant(s0.now))], s1, ApproveRead(0, 0, None), w2);
    var s2 := Apply(s1, w2);
    assert s2.tasks[0] == ApproveChecked(0, []);
    var w3 := Effect(cfg, s2, ApproveUpdate(0)).value;
    steps := [] + [InsertGrant(0, FirstGrant(s0.now))] + [ApproveRead(0, 0, None)];
    RunSnoc(cfg, s0, steps, s2, ApproveUpdate(0), w3);
    steps, s := steps + [ApproveUpdate(0)], Apply(s2, w3);
  }

  lemma GrantRead(cfg: Config, s0: State, before: seq<Step>, s: State, t: nat)
    returns (steps: seq<Step>, s': State)
    requires Run(cfg, s0, before) == Some(s) && t !in s.tasks && 0 in s.grants && s.grants[0].status == Approved
    ensures Run(cfg, s0, steps) == Some(s') && s'.now == s.now && s'.tokens == s.tokens && s'.grants == s.grants
    ensures s'.tasks == s.tasks[t := IssueRead(0, s.grants[0], None)]
  {
    var w := Effect(cfg, s, IssueReadGrant(t, 0, None)).value;
    RunSnoc(cfg, s0, before, s, IssueReadGrant(t, 0, None), w);
    steps, s' := before + [IssueReadGrant(t, 0, None)], Apply(s, w);
  }

  lemma FindsNothing(cfg: Config, s: State, t: nat, row: GrantRow) returns (w: Writes)
    requires t in s.tasks && s.tasks[t] == IssueRead(0, row, None) && s.tokens == map[]
    ensures Effect(cfg, s, IssueFind(t, None)) == Some(w)
    ensures
      var cutoff := s.now - cfg.tokens.idempotencyWindowSecs * SECOND;
      w == NONE.(task := Await(t, IssueAbsent(0, row, None, |s.log|, cutoff)))
  {
    assert FindsExisting(s.tokens, 0, s.now - cfg.tokens.idempotencyWindowSecs * SECOND, None);
    w := Effect(cfg, s, IssueFind(t, None)).value;
  }

  lemma NothingFoundFor(cfg: Config, s0: State, before: seq<Step>, s: State, t: nat, row: GrantRow)
    returns (steps: seq<Step>, s': State)
    requires Run(cfg, s0, before) == Some(s)
    requires t in s.tasks && s.tasks[t] == IssueRead(0, row, None) && s.tokens == map[]
    ensures Run(cfg, s0, steps) == Some(s') && s'.now == s.now && s'.tokens == map[] && s'.grants == s.grants
    ensures s'.tasks.Keys == s.tasks.Keys && s'.tasks == s.tasks[t := s'.tasks[t]]
    ensures s'.tasks[t].IssueAbsent? && s'.tasks[t].grant == 0
  {
    var w := FindsNothing(cfg, s, t, row);
    RunSnoc(cfg, s0, before, s, IssueFind(t, None), w);
    steps, s' := before + [IssueFind(t, None)], Apply(s, w);
  }

  /** While there are no tokens, a handler reads the approved grant `0` and finds nothing issued for it. */
  lemma NothingFound(cfg: Config, s0: State, before: seq<Step>, s: State, t: nat)
    returns (steps: seq<Step>, s': State)
    requires Run(cfg, s0, before) == Some(s) && t !in s.tasks && s.tokens == map[]
    requires 0 in s.grants && s.grants[0].status == Approved
    ensures Run(cfg, s0, steps) == Some(s') && s'.now == s.now && s'.tokens == map[] && s'.grants == s.grants
    ensures t in s'.tasks && s'.tasks == s.tasks[t := s'.tasks[t]] && s'.tasks[t].IssueAbsent? && s'.tasks[t].grant == 0
  {
    var read, s1 := GrantRead(cfg, s0, before, s, t);
    steps, s' := NothingFoundFor(cfg, s0, read, s1, t, s.grants[0]);
  }

  lemma TokenInserted(cfg: Config, s0: State, before: seq<Step>, s: State, t: nat, j: Uuid)
    returns (steps: seq<Step>, s': State)
    requires Run(cfg, s0, before) == Some(s) && t in s.tasks && s.tasks[t].IssueAbsent? && j !in s.tokens
    ensures Run(cfg, s0, steps) == Some(s') && s'.now == s.now && j in s'.tokens
    ensures s'.tokens == s.tokens[j := s'.tokens[j]]
    ensures
      var row := s'.tokens[j];
      && row.grant == s.tasks[t].grant && !row.revoked && row.issuedAt == s.now
      && row.expiresAt == s.now + cfg.tokens.lifetimeSecs * SECOND
      && s'.tasks == s.tasks[t := IssueCaching(j, row.provider, row.expiresAt)]
  {
    var w := Effect(cfg, s, IssueInsert(t, j)).value;
    RunSnoc(cfg, s0, before, s, IssueInsert(t, j), w);
    steps, s' := before + [IssueInsert(t, j)], Apply(s, w);
  }

  lemma TokenAwaitsCache(cfg: Config, s0: State) returns (steps: seq<Step>, s: State)
    requires Init(s0)
    ensures Run(cfg, s0, steps) == Some(s) && 0 in s.tokens && !s.tokens[0].revoked
    ensures s.tokens[0].expiresAt == s.now + cfg.tokens.lifetimeSecs * SECOND
    ensures s.tasks == map[0 := IssueCaching(0, s.tokens[0].provider, s.tokens[0].expiresAt)]
  {
    var before, s1 := GrantApproved(cfg, s0);
    var found, s2 := NothingFound(cfg, s0, before, s1, 0);
    steps, s := TokenInserted(cfg, s0, found, s2, 0, 0);
  }

  /** From every start, unless tokens are issued expired, a run leads to a revocation that is overtaken:
      issuance has inserted the token and not yet cached it when the revoking UPDATE commits. */
  lemma OvertakenIsReachable(cfg: Config, s0: State) returns (steps: seq<Step>, s: State)
    requires Init(s0) && cfg.tokens.lifetimeSecs + cfg.verifier.maxClockSkewSecs >= 0
    ensures Run(cfg, s0, steps) == Some(s) && Effect(cfg, s, RevokeUpdate(1, 0)).Some?
    ensures StaleSnapshot(s, 0) && Unexpired(cfg, s, 0) && !HoldsForever(cfg, Updated(s, 1, 0), 0)
    ensures forall t :: t in s.tasks ==> !s.tasks[t].RevokeMarking?
  {
    steps, s := TokenAwaitsCache(cfg, s0);
    assert HoldsSnapshot(s.tasks[0], 0);
    RevocationHoldsIff(cfg, s0, steps, s, 1, 0);
  }

  // After the UPDATE, when the handler is gone and its mark was lost.

  /** The row is revoked and no handler is left to mark it in the cache. */
  ghost predicate MarkLost(s: State, j: Uuid) {
    j in s.tokens && s.tokens[j].revoked && forall t :: t in s.tasks ==> s.tasks[t] != RevokeMarking(j)
  }

  predicate NotMarked(cache: map<Uuid, TokenHash>, j: Uuid) {
    Lookup(cache, j).Some? ==> !Lookup(cache, j).value.revoked
  }

  /** Writes that neither mark the token in the cache nor report its revocation. */
  predicate DoesNotMark(w: Writes, j: Uuid) {
    && w.event != Some(RevokeSucceeded(j)) && w.cache != Mark(j) && (w.cache.Put? ==> !w.cache.revoked)
    && (w.task.Await? ==> w.task.task != RevokeMarking(j)) && (w.token.NewToken? ==> w.token.jti != j)
  }

  lemma ResumeDoesNotMark(cfg: Config, s: State, j: Uuid, step: Step, task: Task, w: Writes)
    requires MarkLost(s, j) && Resumes(step) && Resume(cfg, s, step, task) == Some(w)
    requires task != RevokeMarking(j) && TaskTraced(s, task)
    ensures DoesNotMark(w, j)
  {
  }

  lemma BeginDoesNotMark(s: State, j: Uuid, step: Step, w: Writes)
    requires MarkLost(s, j) && Begins(step) && Begin(s, step) == Some(w)
    ensures DoesNotMark(w, j)
  {
  }

  lemma WrittenUnmarked(s: State, j: Uuid, w: Writes)
    requires MarkLost(s, j) && DoesNotMark(w, j)
    ensures MarkLost(Apply(s, w), j) && (NotMarked(s.cache, j) ==> NotMarked(Apply(s, w).cache, j))
  {
  }

  lemma StepDoesNotMark(cfg: Config, s: State, j: Uuid, step: Step, w: Writes)
    requires MarkLost(s, j) && TasksTraced(s) && Effect(cfg, s, step) == Some(w)
    ensures w.event != Some(RevokeSucceeded(j)) && MarkLost(Apply(s, w), j)
    ensures NotMarked(s.cache, j) ==> NotMarked(Apply(s, w).cache, j)
  {
    if Begins(step) {
      BeginDoesNotMark(s, j, step, w);
    } else if Resumes(step) {
      assert TaskTraced(s, s.tasks[step.task]);
      ResumeDoesNotMark(cfg, s, j, step, s.tasks[step.task], w);
    }
    WrittenUnmarked(s, j, w);
  }

  ghost predicate Silent(s: State, base: nat, j: Uuid, hidden: bool) {
    && MarkLost(s, j) && (hidden ==> NotMarked(s.cache, j))
    && forall k :: !SucceededAt(s.log, base, j, k)
  }

  lemma StepStaysSilent(cfg: Config, s: State, base: nat, j: Uuid, hidden: bool, step: Step, w: Writes)
    requires Silent(s, base, j, hidden) && TasksTraced(s) && Effect(cfg, s, step) == Some(w)
    ensures Silent(Apply(s, w), base, j, hidden)
  {
    StepDoesNotMark(cfg, s, j, step, w);
    assert forall k: nat :: SucceededAt(Apply(s, w).log, base, j, k) ==> k < |s.log| && SucceededAt(s.log, base, j, k);
  }

  lemma {:induction false} RunStaysSilent(cfg: Config, s: State, base: nat, j: Uuid, hidden: bool, steps: seq<Step>,
                                          s': State)
    requires Inv(s) && Silent(s, base, j, hidden) && Run(cfg, s, steps) == Some(s')
    ensures Silent(s', base, j, hidden)
    decreases |steps|
  {
    if |steps| != 0 {
      var w := Effect(cfg, s, steps[0]).value;
      StepKeepsInv(cfg, s, steps[0]);
      StepStaysSilent(cfg, s, base, j, hidden, steps[0], w);
      RunStaysSilent(cfg, Apply(s, w), base, j, hidden, steps[1..], s');
    }
  }

  /** Retrying does not help: once the row is revoked and its mark lost, no call ever again reports the
      revocation as a success, and the cache never comes to show it. */
  lemma RetriesNeverMark(cfg: Config, s: State, steps: seq<Step>, s': State, j: Uuid)
    requires Inv(s) && MarkLost(s, j) && Run(cfg, s, steps) == Some(s')
    ensures MarkLost(s', j) && forall k :: !SucceededAt(s'.log, |s.log|, j, k)
    ensures NotMarked(s.cache, j) ==> NotMarked(s'.cache, j)
  {
    RunStaysSilent(cfg, s, |s.log|, j, NotMarked(s.cache, j), steps, s');
  }

  // When a verification of a revoked token can still be allowed.

  predicate AllowedFrom(e: Event, j: Uuid, base: nat) {
    e.Verified? && e.req.jti == j && e.outcome == Allowed && e.start >= base
  }

  /** Some run from here allows a verification that starts from now on. */
  ghost predicate CanBeAllowed(cfg: Config, s: State, j: Uuid) {
    exists steps, s', e :: Run(cfg, s, steps) == Some(s') && e in s'.log && AllowedFrom(e, j, |s.log|)
  }

  /** Nobody can find the token unrevoked, and who got past the cache with it began before `base`. */
  ghost predicate Shut(s: State, base: nat, j: Uuid) {
    && base <= |s.log| && j in s.tokens && s.tokens[j].revoked && CacheRefuses(s.cache, j)
    && (forall t :: t in s.tasks ==> !HoldsSnapshot(s.tasks[t], j))
    && (forall t :: t in s.tasks && PastHit(s.tasks[t], j) ==> StartOf(s.tasks[t]) < base)
    && (forall e :: e in s.log ==> !AllowedFrom(e, j, base))
  }

  ghost predicate WritesShut(s: State, base: nat, j: Uuid, w: Writes) {
    && (w.token.NewToken? ==> w.token.jti != j)
    && (w.cache.Put? ==> w.cache.jti != j)
    && (w.task.Await? ==>
          !HoldsSnapshot(w.task.task, j) && (PastHit(w.task.task, j) ==> StartOf(w.task.task) < base))
    && (w.event.Some? ==> !AllowedFrom(w.event.value, j, base))
  }

  lemma BeginShut(s: State, base: nat, j: Uuid, step: Step, w: Writes)
    requires Begins(step) && Shut(s, base, j) && Begin(s, step) == Some(w)
    ensures WritesShut(s, base, j, w)
  {
  }

  lemma ResumeShut(cfg: Config, s: State, base: nat, j: Uuid, step: Step, w: Writes)
    requires Resumes(step) && Shut(s, base, j) && Effect(cfg, s, step) == Some(w)
    ensures WritesShut(s, base, j, w)
  {
    var task := s.tasks[step.task];
    assert !HoldsSnapshot(task, j) && (PastHit(task, j) ==> StartOf(task) < base);
    ResumeKeepsStart(cfg, s, step, task, w);
  }

  lemma WrittenShut(s: State, base: nat, j: Uuid, w: Writes)
    requires Shut(s, base, j) && WritesShut(s, base, j, w)
    ensures Shut(Apply(s, w), base, j)
  {
  }

  lemma StaysShut(cfg: Config, s: State, base: nat, j: Uuid, step: Step, w: Writes)
    requires Shut(s, base, j) && Effect(cfg, s, step) == Some(w)
    ensures Shut(Apply(s, w), base, j)
  {
    if Begins(step) {
      BeginShut(s, base, j, step, w);
    } else if Resumes(step) {
      ResumeShut(cfg, s, base, j, step, w);
    }
    WrittenShut(s, base, j, w);
  }

  lemma {:induction false} RunStaysShut(cfg: Config, s: State, base: nat, j: Uuid, steps: seq<Step>, s': State)
    requires Shut(s, base, j) && Run(cfg, s, steps) == Some(s')
    ensures Shut(s', base, j)
    decreases |steps|
  {
    if |steps| != 0 {
      var w := Effect(cfg, s, steps[0]).value;
      StaysShut(cfg, s, base, j, steps[0], w);
      RunStaysShut(cfg, Apply(s, w), base, j, steps[1..], s');
    }
  }

  lemma ShutIsNeverAllowed(cfg: Config, s: State, j: Uuid)
    requires Inv(s) && StartsLogged(s) && j in s.tokens && s.tokens[j].revoked
    requires !CacheAdmits(s, j) && !StaleSnapshot(s, j)
    ensures !CanBeAllowed(cfg, s, j)
  {
    if Lookup(s.cache, j).Some? {
      assert HashTraced(s, j, s.cache[j]);
    }
    assert Shut(s, |s.log|, j);
    forall steps, s', e | Run(cfg, s, steps) == Some(s') && e in s'.log
      ensures !AllowedFrom(e, j, |s.log|)
    {
      RunStaysShut(cfg, s, |s.log|, j, steps, s');
    }
  }

  lemma RefusedAfter(s: State, log: seq<Event>, j: Uuid, e: Event)
    requires StartsLogged(s) && s.log <= log && RefusedSince(log, |s.log|, j) && e in log
    ensures !AllowedFrom(e, j, |s.log|)
  {
    var i :| 0 <= i < |log| && log[i] == e;
    if i < |s.log| {
      assert e == s.log[i];
    }
  }

  lemma ExpiredIsNeverAllowed(cfg: Config, s: State, j: Uuid)
    requires Inv(s) && StartsLogged(s) && j in s.tokens && !Unexpired(cfg, s, j)
    ensures !CanBeAllowed(cfg, s, j)
  {
    forall steps, s', e | Run(cfg, s, steps) == Some(s') && e in s'.log
      ensures !AllowedFrom(e, j, |s.log|)
    {
      RunKeepsInv(cfg, s, steps, s');
      ExpiredRunRefuses(cfg, s, |s.log|, j, steps, s');
      RefusedAfter(s, s'.log, j, e);
    }
  }

  lemma AdmittedCanBeAllowed(cfg: Config, s: State, j: Uuid) returns (steps: seq<Step>, s': State, e: Event)
    requires Unexpired(cfg, s, j) && CacheAdmits(s, j)
    ensures Run(cfg, s, steps) == Some(s') && e in s'.log && AllowedFrom(e, j, |s.log|)
  {
    var t := Collections.GreaterExists(s.tasks.Keys);
    steps, s', e := AdmittedIsAllowed(cfg, s, t, j);
  }

  /** What can be allowed after a step that records nothing can be allowed before it. */
  lemma AllowedAfterStep(cfg: Config, s: State, step: Step, w: Writes, j: Uuid)
    requires Effect(cfg, s, step) == Some(w) && Apply(s, w).log == s.log && CanBeAllowed(cfg, Apply(s, w), j)
    ensures CanBeAllowed(cfg, s, j)
  {
    var rest, s', e :| Run(cfg, Apply(s, w), rest) == Some(s') && e in s'.log && AllowedFrom(e, j, |s.log|);
    RunCons(cfg, s, step, w, rest);
  }

  lemma SnapshotCanBeAllowed(cfg: Config, s: State, j: Uuid)
    requires Inv(s) && Unexpired(cfg, s, j) && StaleSnapshot(s, j)
    ensures CanBeAllowed(cfg, s, j)
  {
    var h :| h in s.tasks && HoldsSnapshot(s.tasks[h], j);
    assert TaskTraced(s, s.tasks[h]);
    var w := WriteBackAdmits(cfg, s, h, j);
    var rest, s', e := AdmittedCanBeAllowed(cfg, Apply(s, w), j);
    AllowedAfterStep(cfg, s, WriteBack(h, s.tasks[h]), w, j);
  }

  /** A revoked token can still be let through in the future, by a verification that starts from now on,
      exactly when it is unexpired and either the cache shows it as unrevoked or a handler will write it
      back so. */
  lemma RevokedCanBeAllowedIff(cfg: Config, s: State, j: Uuid)
    requires Inv(s) && StartsLogged(s) && j in s.tokens && s.tokens[j].revoked
    ensures CanBeAllowed(cfg, s, j) <==> Unexpired(cfg, s, j) && (CacheAdmits(s, j) || StaleSnapshot(s, j))
  {
    if !Unexpired(cfg, s, j) {
      ExpiredIsNeverAllowed(cfg, s, j);
    } else if CacheAdmits(s, j) {
      var steps, s', e := AdmittedCanBeAllowed(cfg, s, j);
    } else if StaleSnapshot(s, j) {
      SnapshotCanBeAllowed(cfg, s, j);
    } else {
      ShutIsNeverAllowed(cfg, s, j);
    }
  }

  lemma Revoked(cfg: Config, s0: State, before: seq<Step>, s: State, t: nat, j: Uuid)
    returns (steps: seq<Step>, s': State)
    requires Run(cfg, s0, before) == Some(s) && t !in s.tasks && j in s.tokens && !s.tokens[j].revoked
    ensures Run(cfg, s0, steps) == Some(s') && s'.tasks == s.tasks[t := RevokeMarking(j)] && s'.now == s.now
    ensures s'.tokens == s.tokens[j := s.tokens[j].(revoked := true)]
  {
    var w := Effect(cfg, s, RevokeUpdate(t, j)).value;
    RunSnoc(cfg, s0, before, s, RevokeUpdate(t, j), w);
    steps, s' := before + [RevokeUpdate(t, j)], Apply(s, w);
  }

  lemma RevokedAndAbandoned(cfg: Config, s0: State, before: seq<Step>, s: State, j: Uuid)
    returns (steps: seq<Step>, s': State)
    requires Run(cfg, s0, before) == Some(s) && j in s.tokens && !s.tokens[j].revoked
    ensures Run(cfg, s0, steps) == Some(s') && s'.tasks == s.tasks && s'.now == s.now
    ensures s'.tokens == s.tokens[j := s.tokens[j].(revoked := true)]
  {
    var t := Collections.GreaterExists(s.tasks.Keys);
    var revoked, s1 := Revoked(cfg, s0, before, s, t, j);
    var w := Effect(cfg, s1, Abandon(t)).value;
    RunSnoc(cfg, s0, revoked, s1, Abandon(t), w);
    steps, s' := revoked + [Abandon(t)], Apply(s1, w);
    assert s'.tasks == s.tasks;
  }

  /** A run from every start, unless tokens are issued expired, to a revocation whose mark is lost while the
      cache shows the unexpired token as unrevoked: from there no retry helps, and it can be let through. */
  lemma LostMarkIsReachable(cfg: Config, s0: State) returns (steps: seq<Step>, s: State)
    requires Init(s0) && cfg.tokens.lifetimeSecs + cfg.verifier.maxClockSkewSecs >= 0
    ensures Run(cfg, s0, steps) == Some(s) && MarkLost(s, 0) && CacheAdmits(s, 0) && Unexpired(cfg, s, 0)
    ensures CanBeAllowed(cfg, s, 0)
  {
    var before, s1 := OvertakenIsReachable(cfg, s0);
    var revoked, s2 := RevokedAndAbandoned(cfg, s0, before, s1, 0);
    InitInv(s0);
    RunKeepsInv(cfg, s0, revoked, s2);
    var h :| h in s2.tasks && HoldsSnapshot(s2.tasks[h], 0);
    assert TaskTraced(s2, s2.tasks[h]);
    var w := WriteBackAdmits(cfg, s2, h, 0);
    RunSnoc(cfg, s0, revoked, s2, WriteBack(h, s2.tasks[h]), w);
    steps, s := revoked + [WriteBack(h, s2.tasks[h])], Apply(s2, w);
    StepDoesNotMark(cfg, s2, 0, WriteBack(h, s2.tasks[h]), w);
    var later, s', e := AdmittedCanBeAllowed(cfg, s, 0);
  }
}
