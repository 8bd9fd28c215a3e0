/** When a revocation that succeeded is respected by every later verification. */
module Revocation {
  import opened Wrappers
  import opened Records
  import opened Decisions
  import opened Protocol
  import opened Provenance
  import opened Uninterrupted

  /** A handler that will write the token into the cache as unrevoked. */
  predicate HoldsSnapshot(task: Task, j: Uuid) {
    (task.IssueCaching? && task.jti == j) || (task.VerifyFilling? && task.req.jti == j)
  }

  ghost predicate StaleSnapshot(s: State, j: Uuid) {
    exists t :: t in s.tasks && HoldsSnapshot(s.tasks[t], j)
  }

  predicate Unexpired(cfg: Config, s: State, j: Uuid) {
    j in s.tokens && s.now <= s.tokens[j].expiresAt + cfg.verifier.maxClockSkewSecs * SECOND
  }

  predicate SucceededAt(log: seq<Event>, base: nat, j: Uuid, k: nat) {
    base <= k < |log| && log[k] == RevokeSucceeded(j)
  }

  predicate AllowedSince(e: Event, j: Uuid, k: nat) {
    e.Verified? && e.req.jti == j && e.outcome == Allowed && e.start > k
  }

  /** No verification that started after a recorded success was allowed. */
  ghost predicate Respected(log: seq<Event>, base: nat, j: Uuid) {
    forall k, e :: SucceededAt(log, base, j, k) && e in log ==> !AllowedSince(e, j, k)
  }

  /** From this state on, whatever happens, the revocation of `j` is respected. */
  ghost predicate HoldsForever(cfg: Config, s: State, j: Uuid) {
    forall steps, s' :: Run(cfg, s, steps) == Some(s') ==> Respected(s'.log, |s.log|, j)
  }

  function StartOf(task: Task): int {
    match task
    case VerifyFresh(start, _) => start
    case VerifyHit(start, _) => start
    case VerifyMiss(start, _) => start
    case VerifyFilling(start, _, _) => start
    case VerifyTail(start, _, _) => start
    case _ => -1
  }

  /** Verifications in flight and answered ones started at an event already logged. */
  ghost predicate StartsLogged(s: State) {
    && (forall t :: t in s.tasks ==> StartOf(s.tasks[t]) < |s.log|)
    && (forall e :: e in s.log && e.Verified? ==> e.start < |s.log|)
  }

  /** A verification that got past the cache, if it did so with a hit. */
  predicate PastHit(task: Task, j: Uuid) {
    (task.VerifyHit? || task.VerifyTail?) && task.req.jti == j
  }

  /** What holds from the revoking UPDATE on, when nobody holds a snapshot: the row is revoked, nobody
      gets a snapshot, and after the success the cache never again shows the token as unrevoked. */
  ghost predicate Sealed(s: State, base: nat, j: Uuid) {
    && j in s.tokens && s.tokens[j].revoked
    && (forall t :: t in s.tasks ==> !HoldsSnapshot(s.tasks[t], j))
    && (forall k :: SucceededAt(s.log, base, j, k) ==> CacheRefuses(s.cache, j))
    && (forall k, t :: SucceededAt(s.log, base, j, k) && t in s.tasks && PastHit(s.tasks[t], j) ==>
      StartOf(s.tasks[t]) <= k)
    && Respected(s.log, base, j)
  }

  predicate CacheRefuses(cache: map<Uuid, TokenHash>, j: Uuid) {
    Lookup(cache, j).None? || Lookup(cache, j).value.revoked
  }

  ghost predicate TaskSealed(s: State, base: nat, j: Uuid, task: Task) {
    && !HoldsSnapshot(task, j)
    && (PastHit(task, j) ==> forall k :: SucceededAt(s.log, base, j, k) ==> StartOf(task) <= k)
  }

  ghost predicate WritesSealed(s: State, base: nat, j: Uuid, w: Writes) {
    && (w.token.NewToken? ==> w.token.jti != j)
    && (w.cache.Put? ==> w.cache.jti != j)
    && (w.task.Await? ==> TaskSealed(s, base, j, w.task.task) && !(w.event.Some? && w.event.value.RevokeSucceeded?))
    && (w.task.Await? ==> StartOf(w.task.task) < |Apply(s, w).log|)
    && (w.event == Some(RevokeSucceeded(j)) ==> w.cache == Mark(j))
    && (w.event.Some? && w.event.value.Verified? ==> w.event.value.start < |s.log|)
    && (w.event.Some? ==> forall k :: SucceededAt(s.log, base, j, k) ==> !AllowedSince(w.event.value, j, k))
  }

  lemma BeginSealed(s: State, base: nat, j: Uuid, step: Step, w: Writes)
    requires Begins(step) && Sealed(s, base, j) && Begin(s, step) == Some(w)
    ensures WritesSealed(s, base, j, w)
  {
  }

  lemma ResumeSealed(cfg: Config, s: State, base: nat, j: Uuid, step: Step, task: Task, w: Writes)
    requires Resumes(step) && Resume(cfg, s, step, task) == Some(w)
    requires Sealed(s, base, j) && TaskSealed(s, base, j, task) && StartOf(task) < |s.log|
    ensures WritesSealed(s, base, j, w)
  {
  }

  lemma EffectSealed(cfg: Config, s: State, base: nat, j: Uuid, step: Step, w: Writes)
    requires Sealed(s, base, j) && StartsLogged(s) && Effect(cfg, s, step) == Some(w)
    ensures WritesSealed(s, base, j, w)
  {
    if Begins(step) {
      BeginSealed(s, base, j, step, w);
    } else if Resumes(step) {
      ResumeSealed(cfg, s, base, j, step, s.tasks[step.task], w);
    }
  }

  lemma SealedStays(s: State, base: nat, j: Uuid, w: Writes)
    requires Sealed(s, base, j) && StartsLogged(s) && WritesSealed(s, base, j, w)
    ensures Sealed(Apply(s, w), base, j) && StartsLogged(Apply(s, w))
  {
    var s' := Apply(s, w);
    assert forall k :: SucceededAt(s'.log, base, j, k) ==>
      SucceededAt(s.log, base, j, k) || (k == |s.log| && w.event == Some(RevokeSucceeded(j)));
  }

  lemma {:induction false} RunStaysSealed(cfg: Config, s: State, base: nat, j: Uuid, steps: seq<Step>, s': State)
    requires Sealed(s, base, j) && StartsLogged(s) && Run(cfg, s, steps) == Some(s')
    ensures Sealed(s', base, j)
    decreases |steps|
  {
    if |steps| != 0 {
      var w := Effect(cfg, s, steps[0]).value;
      EffectSealed(cfg, s, base, j, steps[0], w);
      SealedStays(s, base, j, w);
      RunStaysSealed(cfg, Apply(s, w), base, j, steps[1..], s');
    }
  }

  /** The sufficient half: with no snapshot in flight when the revoking UPDATE commits, the revocation
      is respected for ever, whatever expires, vanishes or is marked on a missing key. */
  lemma RevocationHolds(cfg: Config, s0: State, t: nat, j: Uuid)
    requires StartsLogged(s0) && Effect(cfg, s0, RevokeUpdate(t, j)).Some? && !StaleSnapshot(s0, j)
    ensures HoldsForever(cfg, Apply(s0, Effect(cfg, s0, RevokeUpdate(t, j)).value), j)
  {
    var s := Apply(s0, Effect(cfg, s0, RevokeUpdate(t, j)).value);
    assert Sealed(s, |s.log|, j);
    forall steps, s' | Run(cfg, s, steps) == Some(s')
      ensures Respected(s'.log, |s.log|, j)
    {
      RunStaysSealed(cfg, s, |s.log|, j, steps, s');
    }
  }

  // A token that has expired is refused on that ground alone.

  ghost predicate RefusedSince(log: seq<Event>, base: nat, j: Uuid) {
    forall i :: base <= i < |log| && log[i].Verified? && log[i].req.jti == j ==> log[i].outcome != Allowed
  }

  /** A resumed handler keeps its start, and only the last step of a verification can allow. */
  lemma ResumeKeepsStart(cfg: Config, s: State, step: Step, task: Task, w: Writes)
    requires Resumes(step) && Resume(cfg, s, step, task) == Some(w)
    ensures w.task.Await? ==> StartOf(w.task.task) == StartOf(task) || StartOf(w.task.task) == -1
    ensures w.event.Some? && w.event.value.Verified? ==>
      && w.event.value.start == StartOf(task)
      && (w.event.value.outcome == Allowed ==>
            task.VerifyTail? && w.event.value.req == task.req &&
              TailOutcome(task.row, task.req, cfg.verifier, s.now) == Allowed)
  {
  }

  lemma BeginStartsNow(s: State, step: Step, w: Writes)
    requires Begins(step) && Begin(s, step) == Some(w)
    ensures w.task.Await? ==> StartOf(w.task.task) < |Apply(s, w).log|
    ensures w.event.Some? ==> !w.event.value.Verified?
  {
  }

  lemma ExpiredStepRefuses(cfg: Config, s: State, base: nat, j: Uuid, step: Step, w: Writes)
    requires TasksTraced(s) && Effect(cfg, s, step) == Some(w) && j in s.tokens && !Unexpired(cfg, s, j)
    requires RefusedSince(s.log, base, j)
    ensures RefusedSince(Apply(s, w).log, base, j)
  {
    if Begins(step) {
      BeginStartsNow(s, step, w);
    } else if Resumes(step) {
      var task := s.tasks[step.task];
      assert TaskTraced(s, task);
      ResumeKeepsStart(cfg, s, step, task, w);
    }
  }

  lemma {:induction false} ExpiredRunRefuses(cfg: Config, s: State, base: nat, j: Uuid, steps: seq<Step>, s': State)
    requires Inv(s) && Run(cfg, s, steps) == Some(s') && j in s.tokens && !Unexpired(cfg, s, j)
    requires RefusedSince(s.log, base, j)
    ensures RefusedSince(s'.log, base, j)
    decreases |steps|
  {
    if |steps| != 0 {
      var w := Effect(cfg, s, steps[0]).value;
      StepKeepsInv(cfg, s, steps[0]);
      ExpiredStepRefuses(cfg, s, base, j, steps[0], w);
      ExpiredRunRefuses(cfg, Apply(s, w), base, j, steps[1..], s');
    }
  }

  lemma StepKeepsStarts(cfg: Config, s: State, step: Step, w: Writes)
    requires StartsLogged(s) && Effect(cfg, s, step) == Some(w)
    ensures StartsLogged(Apply(s, w))
  {
    if Begins(step) {
      BeginStartsNow(s, step, w);
    } else if Resumes(step) {
      ResumeKeepsStart(cfg, s, step, s.tasks[step.task], w);
    }
  }

  lemma {:induction false} RunKeepsStarts(cfg: Config, s: State, steps: seq<Step>, s': State)
    requires StartsLogged(s) && Run(cfg, s, steps) == Some(s')
    ensures StartsLogged(s')
    decreases |steps|
  {
    if |steps| != 0 {
      var w := Effect(cfg, s, steps[0]).value;
      StepKeepsStarts(cfg, s, steps[0], w);
      RunKeepsStarts(cfg, Apply(s, w), steps[1..], s');
    }
  }

  lemma RefusedIsRespected(s: State, log: seq<Event>, j: Uuid)
    requires StartsLogged(s) && s.log <= log && RefusedSince(log, |s.log|, j)
    ensures Respected(log, |s.log|, j)
  {
    forall k, e | SucceededAt(log, |s.log|, j, k) && e in log
      ensures !AllowedSince(e, j, k)
    {
      var i :| 0 <= i < |log| && log[i] == e;
      if i < |s.log| {
        assert e == s.log[i];
      }
    }
  }

  lemma ExpiredHolds(cfg: Config, s: State, j: Uuid)
    requires Inv(s) && StartsLogged(s) && j in s.tokens && !Unexpired(cfg, s, j)
    ensures HoldsForever(cfg, s, j)
  {
    forall steps, s' | Run(cfg, s, steps) == Some(s')
      ensures Respected(s'.log, |s.log|, j)
    {
      ExpiredRunRefuses(cfg, s, |s.log|, j, steps, s');
      RunKeepsInv(cfg, s, steps, s');
      RefusedIsRespected(s, s'.log, j);
    }
  }

  // The necessary half: a snapshot of an unexpired token can be written back after the mark.

  /** The cache shows the token as unrevoked. */
  predicate CacheAdmits(s: State, j: Uuid) {
    j in s.tokens && Lookup(s.cache, j).Some? && !Lookup(s.cache, j).value.revoked
    && Lookup(s.cache, j).value.provider == s.tokens[j].provider
  }

  /** Whoever starts to verify a token that the cache admits can be allowed, whatever the row says about revocation. */
  lemma AdmittedIsAllowed(cfg: Config, s: State, t: nat, j: Uuid) returns (steps: seq<Step>, s': State, e: Event)
    requires t !in s.tasks && Unexpired(cfg, s, j) && CacheAdmits(s, j)
    ensures Run(cfg, s, steps) == Some(s') && s.log <= s'.log && e in s'.log
    ensures e.Verified? && e.start == |s.log| && e.req.jti == j && e.outcome == Allowed
  {
    var req := VerifyRequest(j, s.tokens[j].provider, "", true, s.tokens[j].binding);
    steps, s' := VerificationAlone(cfg, s, t, req);
    e := s'.log[|s.log| + 1];
  }

  /** The step by which a snapshot reaches the cache. */
  function WriteBack(t: nat, task: Task): Step {
    if task.IssueCaching? then IssueCache(t, true) else VerifyFill(t, true)
  }

  lemma WriteBackAdmits(cfg: Config, s: State, t: nat, j: Uuid) returns (w: Writes)
    requires t in s.tasks && HoldsSnapshot(s.tasks[t], j) && TaskTraced(s, s.tasks[t])
    ensures Effect(cfg, s, WriteBack(t, s.tasks[t])) == Some(w) && CacheAdmits(Apply(s, w), j)
    ensures Apply(s, w).now == s.now && Apply(s, w).log == s.log && Apply(s, w).tokens == s.tokens
    ensures Apply(s, w).tasks.Keys <= s.tasks.Keys
  {
    w := Effect(cfg, s, WriteBack(t, s.tasks[t])).value;
  }

  lemma MarkSucceeds(cfg: Config, s: State, t: nat, j: Uuid) returns (w: Writes)
    requires t in s.tasks && s.tasks[t] == RevokeMarking(j)
    ensures Effect(cfg, s, RevokeMark(t, true, true)) == Some(w)
    ensures
      var s' := Apply(s, w);
      s'.now == s.now && s'.log == s.log + [RevokeSucceeded(j)] && s'.tokens == s.tokens && s'.tasks == s.tasks - {t}
  {
    w := Effect(cfg, s, RevokeMark(t, true, true)).value;
  }

  /** From the UPDATE: the mark succeeds, the snapshot is written back, a new verification is allowed. */
  lemma SnapshotUndoesRevocation(cfg: Config, s: State, t: nat, h: nat, j: Uuid)
    requires TasksTraced(s) && Unexpired(cfg, s, j) && t != h
    requires t in s.tasks && s.tasks[t] == RevokeMarking(j) && h in s.tasks && HoldsSnapshot(s.tasks[h], j)
    ensures !HoldsForever(cfg, s, j)
  {
    var w1 := MarkSucceeds(cfg, s, t, j);
    var s1 := Apply(s, w1);
    assert TaskTraced(s, s.tasks[h]) && s1.tasks[h] == s.tasks[h];
    var w2 := WriteBackAdmits(cfg, s1, h, j);
    var s2 := Apply(s1, w2);
    var rest, s3, e := AdmittedIsAllowed(cfg, s2, t, j);
    RunCons(cfg, s1, WriteBack(h, s1.tasks[h]), w2, rest);
    RunCons(cfg, s, RevokeMark(t, true, true), w1, [WriteBack(h, s1.tasks[h])] + rest);
    assert s1.log[|s.log|] == RevokeSucceeded(j);
    assert SucceededAt(s3.log, |s.log|, j, |s.log|);
    assert e in s3.log && AllowedSince(e, j, |s.log|);
  }

  /** The state once the UPDATE of the revocation handler `t` has committed. */
  function Updated(s: State, t: nat, j: Uuid): State {
    Apply(s, NONE.(token := Revoke(j), task := Await(t, RevokeMarking(j))))
  }

  lemma UpdateFacts(cfg: Config, s: State, t: nat, j: Uuid)
    requires Inv(s) && StartsLogged(s) && Effect(cfg, s, RevokeUpdate(t, j)).Some?
    ensures t !in s.tasks && j in s.tokens
    ensures Updated(s, t, j) == Apply(s, Effect(cfg, s, RevokeUpdate(t, j)).value)
    ensures Inv(Updated(s, t, j)) && StartsLogged(Updated(s, t, j))
    ensures Unexpired(cfg, Updated(s, t, j), j) == Unexpired(cfg, s, j)
  {
    StepKeepsInv(cfg, s, RevokeUpdate(t, j));
    StepKeepsStarts(cfg, s, RevokeUpdate(t, j), Effect(cfg, s, RevokeUpdate(t, j)).value);
  }

  lemma StaleAtUpdate(cfg: Config, s: State, t: nat, j: Uuid)
    requires t !in s.tasks && j in s.tokens && TasksTraced(Updated(s, t, j)) && Unexpired(cfg, Updated(s, t, j), j)
    requires StaleSnapshot(s, j)
    ensures !HoldsForever(cfg, Updated(s, t, j), j)
  {
    var h :| h in s.tasks && HoldsSnapshot(s.tasks[h], j);
    assert Updated(s, t, j).tasks[h] == s.tasks[h];
    SnapshotUndoesRevocation(cfg, Updated(s, t, j), t, h, j);
  }

  lemma ReachedSound(cfg: Config, s0: State, before: seq<Step>, s: State)
    requires Init(s0) && Run(cfg, s0, before) == Some(s)
    ensures Inv(s) && StartsLogged(s)
  {
    InitInv(s0);
    RunKeepsInv(cfg, s0, before, s);
    RunKeepsStarts(cfg, s0, before, s);
  }

  /** Interleaved revocation, exactly. Take any reachable state and let the revoking UPDATE commit. A
      verification that starts after the revocation succeeds is never allowed, whatever the interleaving,
      if and only if at the UPDATE no handler held an unrevoked snapshot of the token awaiting its cache
      write, or the token had already expired. */
  lemma RevocationHoldsIff(cfg: Config, s0: State, before: seq<Step>, s: State, t: nat, j: Uuid)
    requires Init(s0) && Run(cfg, s0, before) == Some(s) && Effect(cfg, s, RevokeUpdate(t, j)).Some?
    ensures HoldsForever(cfg, Updated(s, t, j), j) <==> !StaleSnapshot(s, j) || !Unexpired(cfg, s, j)
    ensures Apply(s, Effect(cfg, s, RevokeUpdate(t, j)).value) == Updated(s, t, j)
  {
    ReachedSound(cfg, s0, before, s);
    UpdateFacts(cfg, s, t, j);
    if !StaleSnapshot(s, j) {
      RevocationHolds(cfg, s, t, j);
    } else if !Unexpired(cfg, s, j) {
      ExpiredHolds(cfg, Updated(s, t, j), j);
    } else {
      StaleAtUpdate(cfg, s, t, j);
    }
  }
}
