/** Issuance handlers that overlap: two tokens of one grant can be issued within the idempotency window of
    each other only if one was inserted while the other's handler was between its search and its insert. */
module Issuance {
  import opened Wrappers
  import opened Records
  import opened Protocol
  import opened Provenance
  import opened Unmarked

  function Window(cfg: Config): int {
    cfg.tokens.idempotencyWindowSecs * SECOND
  }

  /** The event at `a` issued this token, which is not revoked. */
  predicate IssuedLive(s: State, a: nat, g: Uuid) {
    && a < |s.log| && s.log[a].Issued? && s.log[a].jti in s.tokens
    && s.tokens[s.log[a].jti].grant == g && !s.tokens[s.log[a].jti].revoked
  }

  /** Whatever was issued for the grant among the first `n` events was issued before the time, or is revoked. */
  ghost predicate NoneSince(s: State, g: Uuid, n: nat, time: int) {
    forall a: nat :: a < n && IssuedLive(s, a, g) ==> s.tokens[s.log[a].jti].issuedAt < time
  }

  /** Issued tokens are in the table, in the order of their times. */
  ghost predicate IssuesOrdered(s: State) {
    && (forall a: nat :: a < |s.log| && s.log[a].Issued? ==>
          s.log[a].jti in s.tokens && s.tokens[s.log[a].jti].issuedAt <= s.now)
    && (forall a: nat, b: nat :: a < b < |s.log| && s.log[a].Issued? && s.log[b].Issued? ==>
          s.tokens[s.log[a].jti].issuedAt <= s.tokens[s.log[b].jti].issuedAt)
  }

  ghost predicate SearchSound(cfg: Config, s: State, g: Uuid, searched: nat, cutoff: int) {
    searched <= |s.log| && cutoff + Window(cfg) <= s.now && NoneSince(s, g, searched, cutoff)
  }

  ghost predicate SearchesSound(cfg: Config, s: State) {
    forall t :: t in s.tasks && s.tasks[t].IssueAbsent? ==>
      SearchSound(cfg, s, s.tasks[t].grant, s.tasks[t].searched, s.tasks[t].cutoff)
  }

  /** What the issuing handler's search saw was issued more than a window before its token. */
  ghost predicate IssueSpaced(cfg: Config, s: State, b: nat)
    requires b < |s.log| && s.log[b].Issued? && s.log[b].jti in s.tokens
  {
    var row := s.tokens[s.log[b].jti];
    s.log[b].searched <= b && NoneSince(s, row.grant, s.log[b].searched, row.issuedAt - Window(cfg))
  }

  ghost predicate Paced(cfg: Config, s: State) {
    && IssuesOrdered(s) && SearchesSound(cfg, s)
    && (forall b: nat :: b < |s.log| && s.log[b].Issued? ==> IssueSpaced(cfg, s, b))
  }

  lemma NoneSinceStays(s: State, s': State, g: Uuid, n: nat, time: int, time': int)
    requires Later(s, s') && n <= |s.log| && NoneSince(s, g, n, time) && time <= time' && IssuesOrdered(s)
    ensures NoneSince(s', g, n, time')
  {
    forall a: nat | a < n && IssuedLive(s', a, g)
      ensures s'.tokens[s'.log[a].jti].issuedAt < time'
    {
      assert s'.log[a] == s.log[a];
      assert IssuedLive(s, a, g);
    }
  }

  /** What the steps write about issuance. */
  ghost predicate WritesPaced(cfg: Config, s: State, w: Writes) {
    && (w.event.Some? && w.event.value.Issued? <==> w.token.NewToken?)
    && (w.token.NewToken? ==>
          && w.event.value.jti == w.token.jti && w.token.row.issuedAt == s.now && w.micros == 0
          && exists cutoff :: SearchSound(cfg, s, w.token.row.grant, w.event.value.searched, cutoff))
    && (w.task.Await? && w.task.task.IssueAbsent? ==>
          && w.event.None? && w.token.KeepTokens? && w.micros == 0
          && SearchSound(cfg, s, w.task.task.grant, w.task.task.searched, w.task.task.cutoff))
  }

  lemma FoundNothing(cfg: Config, s: State, g: Uuid)
    requires IssuesOrdered(s) && FindsExisting(s.tokens, g, s.now - Window(cfg), None)
    ensures SearchSound(cfg, s, g, |s.log|, s.now - Window(cfg))
  {
    forall a: nat | a < |s.log| && IssuedLive(s, a, g)
      ensures s.tokens[s.log[a].jti].issuedAt < s.now - Window(cfg)
    {
      assert !Candidate(s.tokens, g, s.now - Window(cfg), s.log[a].jti);
    }
  }

  lemma EffectPaced(cfg: Config, s: State, step: Step, w: Writes)
    requires Paced(cfg, s) && Effect(cfg, s, step) == Some(w)
    ensures WritesPaced(cfg, s, w)
  {
    if step.IssueFind? && step.found.None? {
      FoundNothing(cfg, s, s.tasks[step.task].grant);
    } else if step.IssueInsert? {
      var task := s.tasks[step.task];
      assert SearchSound(cfg, s, task.grant, task.searched, task.cutoff);
    }
  }

  lemma WrittenOrdered(cfg: Config, s: State, w: Writes)
    requires IssuesOrdered(s) && WritesPaced(cfg, s, w) && Later(s, Apply(s, w))
    ensures IssuesOrdered(Apply(s, w))
  {
    var s' := Apply(s, w);
    assert forall a: nat :: a < |s.log| ==> s'.log[a] == s.log[a];
    assert forall a: nat :: a < |s.log| && s.log[a].Issued? ==>
      SameIssue(s.tokens[s.log[a].jti], s'.tokens[s.log[a].jti]);
  }

  lemma WrittenSearches(cfg: Config, s: State, w: Writes)
    requires Paced(cfg, s) && WritesPaced(cfg, s, w) && Later(s, Apply(s, w))
    ensures SearchesSound(cfg, Apply(s, w))
  {
    var s' := Apply(s, w);
    forall t | t in s'.tasks && s'.tasks[t].IssueAbsent?
      ensures SearchSound(cfg, s', s'.tasks[t].grant, s'.tasks[t].searched, s'.tasks[t].cutoff)
    {
      var task := s'.tasks[t];
      assert SearchSound(cfg, s, task.grant, task.searched, task.cutoff);
      NoneSinceStays(s, s', task.grant, task.searched, task.cutoff, task.cutoff);
    }
  }

  lemma WrittenSpaced(cfg: Config, s: State, w: Writes, b: nat)
    requires Paced(cfg, s) && WritesPaced(cfg, s, w) && Later(s, Apply(s, w)) && IssuesOrdered(Apply(s, w))
    requires b < |Apply(s, w).log| && Apply(s, w).log[b].Issued?
    ensures IssueSpaced(cfg, Apply(s, w), b)
  {
    var s' := Apply(s, w);
    var e, row := s'.log[b], s'.tokens[s'.log[b].jti];
    if b < |s.log| {
      assert e == s.log[b] && IssueSpaced(cfg, s, b) && SameIssue(s.tokens[e.jti], row);
      NoneSinceStays(s, s', row.grant, e.searched, row.issuedAt - Window(cfg), row.issuedAt - Window(cfg));
    } else {
      var cutoff :| SearchSound(cfg, s, row.grant, e.searched, cutoff);
      NoneSinceStays(s, s', row.grant, e.searched, cutoff, row.issuedAt - Window(cfg));
    }
  }

  lemma {:induction false} RunKeepsPaced(cfg: Config, s: State, steps: seq<Step>, s': State)
    requires Inv(s) && Paced(cfg, s) && Run(cfg, s, steps) == Some(s')
    ensures Paced(cfg, s')
    decreases |steps|
  {
    if |steps| != 0 {
      var w := Effect(cfg, s, steps[0]).value;
      StepKeepsInv(cfg, s, steps[0]);
      StepKeepsPaced(cfg, s, steps[0], w);
      RunKeepsPaced(cfg, Apply(s, w), steps[1..], s');
    }
  }

  lemma StepKeepsPaced(cfg: Config, s: State, step: Step, w: Writes)
    requires Paced(cfg, s) && Effect(cfg, s, step) == Some(w) && Later(s, Apply(s, w))
    ensures Paced(cfg, Apply(s, w))
  {
    EffectPaced(cfg, s, step, w);
    WrittenOrdered(cfg, s, w);
    WrittenSearches(cfg, s, w);
    forall b: nat | b < |Apply(s, w).log| && Apply(s, w).log[b].Issued?
      ensures IssueSpaced(cfg, Apply(s, w), b)
    {
      WrittenSpaced(cfg, s, w, b);
    }
  }

  /** In every run: if an unrevoked token was issued no more than the idempotency window before another
      token of its grant, it was inserted after the search of the handler that issued the other. Handlers
      of a grant that do not overlap therefore issue tokens more than the window apart. */
  lemma CloseTokensOverlap(cfg: Config, s0: State, steps: seq<Step>, s: State, a: nat, b: nat)
    requires Init(s0) && Run(cfg, s0, steps) == Some(s)
    requires a < b < |s.log| && s.log[a].Issued? && s.log[b].Issued?
    ensures s.log[a].jti in s.tokens && s.log[b].jti in s.tokens
    ensures
      var i, j := s.tokens[s.log[a].jti], s.tokens[s.log[b].jti];
      && i.issuedAt <= j.issuedAt
      && (i.grant == j.grant && !i.revoked && j.issuedAt <= i.issuedAt + Window(cfg) ==>
            s.log[b].searched <= a < b)
  {
    InitInv(s0);
    RunKeepsPaced(cfg, s0, steps, s);
    assert IssueSpaced(cfg, s, b);
    assert IssuedLive(s, a, s.tokens[s.log[b].jti].grant) ||
      s.tokens[s.log[a].jti].revoked || s.tokens[s.log[a].jti].grant != s.tokens[s.log[b].jti].grant;
  }

  // And then they can.

  /** A run from every start in which two handlers of one grant overlap and both issue. */
  lemma BothIssueIsReachable(cfg: Config, s0: State) returns (steps: seq<Step>, s: State)
    requires Init(s0)
    ensures Run(cfg, s0, steps) == Some(s) && 0 in s.tokens && 1 in s.tokens
    ensures s.tokens[0].grant == s.tokens[1].grant && !s.tokens[0].revoked && !s.tokens[1].revoked
    ensures s.tokens[0].issuedAt == s.tokens[1].issuedAt
  {
    var steps1, s1 := GrantApproved(cfg, s0);
    var steps2, s2 := NothingFound(cfg, s0, steps1, s1, 0);
    var steps3, s3 := NothingFound(cfg, s0, steps2, s2, 1);
    assert s3.tasks[0] == s2.tasks[0];
    var steps4, s4 := TokenInserted(cfg, s0, steps3, s3, 0, 0);
    assert s4.tasks[1] == s3.tasks[1];
    steps, s := TokenInserted(cfg, s0, steps4, s4, 1, 1);
    assert s.tokens[0] == s4.tokens[0];
  }
}
