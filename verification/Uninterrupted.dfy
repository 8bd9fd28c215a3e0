/** Handlers that run alone: in the interleaved protocol they do what the sequential services do. */
module Uninterrupted {
  import opened Wrappers
  import opened Records
  import opened Decisions
  import opened Capabilities
  import opened Protocol

  lemma RunCons(cfg: Config, s: State, step: Step, w: Writes, rest: seq<Step>)
    requires Effect(cfg, s, step) == Some(w)
    ensures Run(cfg, s, [step] + rest) == Run(cfg, Apply(s, w), rest)
  {
    assert ([step] + rest)[0] == step && ([step] + rest)[1..] == rest;
  }

  /** The run answers the request with this outcome and does nothing else that is recorded. */
  ghost predicate Answers(cfg: Config, s: State, steps: seq<Step>, s': State, start: nat, req: VerifyRequest,
                          outcome: Outcome) {
    && Run(cfg, s, steps) == Some(s')
    && |s'.log| == |s.log| + 1 && s'.log[..|s.log|] == s.log
    && (var e := s'.log[|s.log|];
        e.Verified? && e.start == start && e.req == req && e.outcome == outcome && e.at == s.now)
  }

  lemma StepThenAnswers(cfg: Config, s: State, step: Step, rest: seq<Step>, s': State, start: nat, req: VerifyRequest,
                        outcome: Outcome)
    requires Effect(cfg, s, step).Some? && Effect(cfg, s, step).value.event.None? &&
      Effect(cfg, s, step).value.micros == 0
    requires Answers(cfg, Apply(s, Effect(cfg, s, step).value), rest, s', start, req, outcome)
    ensures Answers(cfg, s, [step] + rest, s', start, req, outcome)
  {
    RunCons(cfg, s, step, Effect(cfg, s, step).value, rest);
  }

  /** A step that answers at once. */
  lemma StepAnswers(cfg: Config, s: State, step: Step, start: nat, req: VerifyRequest, outcome: Outcome)
    returns (s': State)
    requires Effect(cfg, s, step).Some? && Effect(cfg, s, step).value.micros == 0
    requires
      var e := Effect(cfg, s, step).value.event;
      e.Some? && e.value.Verified? && e.value.start == start && e.value.req == req && e.value.outcome == outcome &&
        e.value.at == s.now
    ensures Answers(cfg, s, [step], s', start, req, outcome)
  {
    s' := Apply(s, Effect(cfg, s, step).value);
    RunCons(cfg, s, step, Effect(cfg, s, step).value, []);
    assert [step] + [] == [step];
  }

  lemma TailAlone(cfg: Config, s: State, t: nat, start: nat, req: VerifyRequest, row: TokenRow)
    returns (steps: seq<Step>, s': State)
    requires t in s.tasks && s.tasks[t] == VerifyTail(start, req, row)
    ensures Answers(cfg, s, steps, s', start, req, TailOutcome(row, req, cfg.verifier, s.now))
  {
    steps := [VerifyDecide(t)];
    s' := StepAnswers(cfg, s, VerifyDecide(t), start, req, TailOutcome(row, req, cfg.verifier, s.now));
  }

  lemma HitAlone(cfg: Config, s: State, t: nat, start: nat, req: VerifyRequest) returns (steps: seq<Step>, s': State)
    requires t in s.tasks && s.tasks[t] == VerifyHit(start, req)
    ensures Answers(cfg, s, steps, s', start, req,
                    if req.jti in s.tokens then TailOutcome(s.tokens[req.jti], req, cfg.verifier, s.now) else NotFound)
  {
    if req.jti in s.tokens {
      var rest;
      rest, s' := TailAlone(cfg, Apply(s, Effect(cfg, s, VerifyReadRow(t)).value), t, start, req, s.tokens[req.jti]);
      steps := [VerifyReadRow(t)] + rest;
      StepThenAnswers(cfg, s, VerifyReadRow(t), rest, s', start, req,
        TailOutcome(s.tokens[req.jti], req, cfg.verifier, s.now));
    } else {
      steps := [VerifyReadRow(t)];
      s' := StepAnswers(cfg, s, VerifyReadRow(t), start, req, NotFound);
    }
  }

  lemma FillAlone(cfg: Config, s: State, t: nat, start: nat, req: VerifyRequest, row: TokenRow)
    returns (steps: seq<Step>, s': State)
    requires t in s.tasks && s.tasks[t] == VerifyFilling(start, req, row)
    ensures Answers(cfg, s, steps, s', start, req, TailOutcome(row, req, cfg.verifier, s.now))
  {
    var rest;
    rest, s' := TailAlone(cfg, Apply(s, Effect(cfg, s, VerifyFill(t, true)).value), t, start, req, row);
    steps := [VerifyFill(t, true)] + rest;
    StepThenAnswers(cfg, s, VerifyFill(t, true), rest, s', start, req, TailOutcome(row, req, cfg.verifier, s.now));
  }

  lemma MissAlone(cfg: Config, s: State, t: nat, start: nat, req: VerifyRequest) returns (steps: seq<Step>, s': State)
    requires t in s.tasks && s.tasks[t] == VerifyMiss(start, req)
    ensures Answers(cfg, s, steps, s', start, req, CacheFree(s.tokens, req, cfg.verifier, s.now))
  {
    var outcome := CacheFree(s.tokens, req, cfg.verifier, s.now);
    if req.jti in s.tokens && !s.tokens[req.jti].revoked && s.tokens[req.jti].provider == req.provider {
      var rest;
      rest, s' := FillAlone(cfg, Apply(s, Effect(cfg, s, VerifyReadRow(t)).value), t, start, req, s.tokens[req.jti]);
      steps := [VerifyReadRow(t)] + rest;
      StepThenAnswers(cfg, s, VerifyReadRow(t), rest, s', start, req, outcome);
    } else {
      steps := [VerifyReadRow(t)];
      s' := StepAnswers(cfg, s, VerifyReadRow(t), start, req, outcome);
    }
  }

  lemma FreshAlone(cfg: Config, s: State, t: nat, start: nat, req: VerifyRequest) returns (steps: seq<Step>, s': State)
    requires t in s.tasks && s.tasks[t] == VerifyFresh(start, req)
    ensures Answers(cfg, s, steps, s', start, req, Cached(s.tokens, s.cache, req, cfg.verifier, s.now))
  {
    var outcome, c := Cached(s.tokens, s.cache, req, cfg.verifier, s.now), Lookup(s.cache, req.jti);
    var step := VerifyReadCache(t, true);
    if c.Some? && (c.value.revoked || c.value.provider != req.provider) {
      steps := [step];
      s' := StepAnswers(cfg, s, step, start, req, outcome);
    } else {
      var rest;
      if c.Some? {
        rest, s' := HitAlone(cfg, Apply(s, Effect(cfg, s, step).value), t, start, req);
      } else {
        rest, s' := MissAlone(cfg, Apply(s, Effect(cfg, s, step).value), t, start, req);
      }
      steps := [step] + rest;
      StepThenAnswers(cfg, s, step, rest, s', start, req, outcome);
    }
  }

  /** A verification whose steps nobody interrupts, all of them going through, answers exactly what the
      sequential verifier concludes from the cache and the table at that moment. */
  lemma VerificationAlone(cfg: Config, s: State, t: nat, req: VerifyRequest) returns (steps: seq<Step>, s': State)
    requires t !in s.tasks
    ensures Run(cfg, s, steps) == Some(s') && |s'.log| == |s.log| + 2 && s.log <= s'.log
    ensures
      var e := s'.log[|s.log| + 1];
      e.Verified? && e.start == |s.log| && e.req == req && e.at == s.now
      && e.outcome == Cached(s.tokens, s.cache, req, cfg.verifier, s.now)
  {
    var w := Effect(cfg, s, VerifyStart(t, req)).value;
    var rest;
    rest, s' := FreshAlone(cfg, Apply(s, w), t, |s.log|, req);
    steps := [VerifyStart(t, req)] + rest;
    RunCons(cfg, s, VerifyStart(t, req), w, rest);
    assert s'.log[..|s.log|] == s'.log[..|s.log| + 1][..|s.log|];
  }

  // The other handlers, with every call going through.

  lemma RunTwo(cfg: Config, s: State, a: Step, v: Writes, b: Step, w: Writes)
    requires Effect(cfg, s, a) == Some(v) && Effect(cfg, Apply(s, v), b) == Some(w)
    ensures Run(cfg, s, [a, b]) == Some(Apply(Apply(s, v), w))
  {
    RunCons(cfg, Apply(s, v), b, w, []);
    assert [b] + [] == [b];
    RunCons(cfg, s, a, v, [b]);
    assert [a] + [b] == [a, b];
  }

  /** What approving asks for: a pending, unexpired grant, and a subset, if one is chosen, that is not empty and
      has keys of the original request only. */
  lemma ApprovalBeginsIff(cfg: Config, s: State, t: nat, g: Uuid, subset: Option<seq<Capability>>)
    requires t !in s.tasks
    ensures Effect(cfg, s, ApproveRead(t, g, subset)).Some? <==>
      && g in s.grants && s.grants[g].status == Pending && s.now <= s.grants[g].expiresAt
      && (subset.Some? ==>
            && subset.value != []
            && forall c :: c in subset.value ==>
              exists q :: q in s.grants[g].caps && TypeKey(q) == TypeKey(c) && SameTarget(q, c))
  {
    if subset.Some? && g in s.grants {
      WithinMeans(subset.value, s.grants[g].caps);
    }
  }

  lemma ApprovalAlone(cfg: Config, s: State, t: nat, g: Uuid, subset: Option<seq<Capability>>) returns (s': State)
    requires t !in s.tasks && Effect(cfg, s, ApproveRead(t, g, subset)).Some?
    ensures Run(cfg, s, [ApproveRead(t, g, subset), ApproveUpdate(t)]) == Some(s') && g in s.grants
    ensures
      var resolved := if subset.Some? then subset.value else s.grants[g].caps;
      s'.grants == s.grants[g := s.grants[g].(status := Approved, caps := resolved)]
    ensures s'.tokens == s.tokens && s'.cache == s.cache && s'.tasks == s.tasks
  {
    var v := Effect(cfg, s, ApproveRead(t, g, subset)).value;
    var w := Effect(cfg, Apply(s, v), ApproveUpdate(t)).value;
    RunTwo(cfg, s, ApproveRead(t, g, subset), v, ApproveUpdate(t), w);
    s' := Apply(Apply(s, v), w);
    assert s'.tasks == s.tasks;
  }

  lemma DenialAlone(cfg: Config, s: State, t: nat, g: Uuid) returns (s': State)
    requires t !in s.tasks && g in s.grants && s.grants[g].status == Pending
    ensures Run(cfg, s, [DenyRead(t, g), DenyUpdate(t)]) == Some(s')
    ensures s'.grants == s.grants[g := s.grants[g].(status := Denied)]
    ensures s'.tokens == s.tokens && s'.cache == s.cache && s'.tasks == s.tasks
  {
    var v := Effect(cfg, s, DenyRead(t, g)).value;
    var w := Effect(cfg, Apply(s, v), DenyUpdate(t)).value;
    RunTwo(cfg, s, DenyRead(t, g), v, DenyUpdate(t), w);
    s' := Apply(Apply(s, v), w);
    assert s'.tasks == s.tasks;
  }

  lemma RevocationAlone(cfg: Config, s: State, t: nat, j: Uuid) returns (s': State)
    requires t !in s.tasks && j in s.tokens && !s.tokens[j].revoked
    ensures Run(cfg, s, [RevokeUpdate(t, j), RevokeMark(t, true, true)]) == Some(s')
    ensures s'.tokens == s.tokens[j := s.tokens[j].(revoked := true)]
    ensures j in s'.cache && s'.cache[j].revoked == Some(true) && s'.cache == s.cache[j := s'.cache[j]]
    ensures s'.grants == s.grants && s'.tasks == s.tasks && s'.log == s.log + [RevokeSucceeded(j)]
  {
    var v := Effect(cfg, s, RevokeUpdate(t, j)).value;
    var w := Effect(cfg, Apply(s, v), RevokeMark(t, true, true)).value;
    RunTwo(cfg, s, RevokeUpdate(t, j), v, RevokeMark(t, true, true), w);
    s' := Apply(Apply(s, v), w);
    assert s'.tasks == s.tasks;
  }

  /** Nothing of the grant was issued, and not revoked, since one window ago. */
  ghost predicate NothingRecent(cfg: Config, s: State, g: Uuid) {
    forall j :: j in s.tokens && s.tokens[j].grant == g && !s.tokens[j].revoked ==>
      s.tokens[j].issuedAt < s.now - cfg.tokens.idempotencyWindowSecs * SECOND
  }

  lemma IssuanceSearches(cfg: Config, s: State, t: nat, g: Uuid, binding: Option<string>) returns (s': State)
    requires t !in s.tasks && g in s.grants && s.grants[g].status == Approved && NothingRecent(cfg, s, g)
    ensures Run(cfg, s, [IssueReadGrant(t, g, binding), IssueFind(t, None)]) == Some(s')
    ensures s'.tokens == s.tokens && s'.cache == s.cache && s'.grants == s.grants && s'.now == s.now
    ensures t in s'.tasks && s'.tasks == s.tasks[t := s'.tasks[t]]
    ensures s'.tasks[t].IssueAbsent? && s'.tasks[t].grant == g
    ensures s'.tasks[t].grantRow == s.grants[g] && s'.tasks[t].binding == binding
  {
    var v := Effect(cfg, s, IssueReadGrant(t, g, binding)).value;
    var s1 := Apply(s, v);
    assert s1.tasks[t] == IssueRead(g, s.grants[g], binding);
    assert FindsExisting(s1.tokens, g, s1.now - cfg.tokens.idempotencyWindowSecs * SECOND, None);
    var w := Effect(cfg, s1, IssueFind(t, None)).value;
    RunTwo(cfg, s, IssueReadGrant(t, g, binding), v, IssueFind(t, None), w);
    s' := Apply(s1, w);
  }

  lemma IssuanceStores(cfg: Config, s: State, t: nat, j: Uuid) returns (s': State)
    requires t in s.tasks && s.tasks[t].IssueAbsent? && j !in s.tokens
    ensures Run(cfg, s, [IssueInsert(t, j), IssueCache(t, true)]) == Some(s')
    ensures
      var task, expiresAt := s.tasks[t], s.now + cfg.tokens.lifetimeSecs * SECOND;
      var g := task.grantRow;
      && s'.tokens == s.tokens[j := TokenRow(task.grant, g.agent, g.provider, g.human, task.binding, g.caps,
                                             g.envelope, s.now, expiresAt, false)]
      && s'.cache == PutToken(s.cache, j, g.provider, Timestamp(expiresAt), false, s.now)
    ensures s'.grants == s.grants && s'.tasks == s.tasks - {t}
  {
    var v := Effect(cfg, s, IssueInsert(t, j)).value;
    var w := Effect(cfg, Apply(s, v), IssueCache(t, true)).value;
    RunTwo(cfg, s, IssueInsert(t, j), v, IssueCache(t, true), w);
    s' := Apply(Apply(s, v), w);
  }
}
