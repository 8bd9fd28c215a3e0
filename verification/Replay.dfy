/** Replay protection and verification together: a verification begins when its nonce check passes. */
module Replay {
  import opened Records
  import opened Wrappers
  import opened Protocol
  import Nonces

  /** The nonce checks, the handlers, and for each verification, by its place in the history, the check
      with which it began. */
  datatype Joint = Joint(nonces: Nonces.State, handlers: Protocol.State, began: map<nat, nat>)

  datatype Step =
    | Tick(micros: nat)
    | Check(inner: Nonces.Step)
    | Pass(check: nat, task: nat, req: VerifyRequest)
    | Handle(step: Protocol.Step)

  function Ttl(cfg: Config): nat {
    cfg.verifier.nonceTtlSecs * SECOND
  }

  predicate Passes(step: Nonces.Step) {
    step.Expire? && step.replied
  }

  /** One clock for both; a check that passes starts the verification of its request, and nothing else does. */
  ghost function Next(cfg: Config, s: Joint, step: Step): Option<Joint> {
    match step
    case Tick(micros) =>
      var n, w := Nonces.Next(Ttl(cfg), s.nonces, Nonces.Tick(micros)), Effect(cfg, s.handlers, Protocol.Tick(micros));
      if n.None? || w.None? then None else Some(Joint(n.value, Apply(s.handlers, w.value), s.began))
    case Check(check) =>
      var n := Nonces.Next(Ttl(cfg), s.nonces, check);
      if n.None? || check.Tick? || Passes(check) then None else Some(s.(nonces := n.value))
    case Pass(c, t, req) =>
      var n := Nonces.Next(Ttl(cfg), s.nonces, Nonces.Expire(c, true, true));
      var w := Effect(cfg, s.handlers, VerifyStart(t, req));
      if n.None? || w.None? || s.nonces.checks[c].nonce != req.nonce then None
      else Some(Joint(n.value, Apply(s.handlers, w.value), s.began[|s.handlers.log| := |s.nonces.passes|]))
    case Handle(step) =>
      var w := Effect(cfg, s.handlers, step);
      if w.None? || step.Tick? || step.VerifyStart? then None else Some(s.(handlers := Apply(s.handlers, w.value)))
  }

  ghost function Run(cfg: Config, s: Joint, steps: seq<Step>): Option<Joint>
    decreases |steps|
  {
    if |steps| == 0 then Some(s)
    else
      var s' := Next(cfg, s, steps[0]);
      if s'.None? then None else Run(cfg, s'.value, steps[1..])
  }

  ghost predicate Init(s: Joint) {
    Nonces.Init(s.nonces) && Protocol.Init(s.handlers) && s.nonces.now == s.handlers.now && s.began == map[]
  }

  predicate Verifies(task: Task) {
    task.VerifyFresh? || task.VerifyHit? || task.VerifyMiss? || task.VerifyFilling? || task.VerifyTail?
  }

  /** The verification that began at `start` for this request did so with a check of its nonce. */
  predicate BeganWith(s: Joint, start: nat, req: VerifyRequest) {
    start in s.began && s.began[start] < |s.nonces.passes| && s.nonces.passes[s.began[start]].nonce == req.nonce
  }

  ghost predicate Matched(s: Joint) {
    && (forall k :: k in s.began ==> k < |s.handlers.log| && s.began[k] < |s.nonces.passes|)
    && (forall k, l :: k in s.began && l in s.began && k != l ==> s.began[k] != s.began[l])
    && (forall t :: t in s.handlers.tasks && Verifies(s.handlers.tasks[t]) ==>
          BeganWith(s, s.handlers.tasks[t].start, s.handlers.tasks[t].req))
    && (forall i :: 0 <= i < |s.handlers.log| && s.handlers.log[i].Verified? ==>
          BeganWith(s, s.handlers.log[i].start, s.handlers.log[i].req))
  }

  /** Each verification is in flight once, or was answered once. */
  ghost predicate Once(p: Protocol.State) {
    && (forall t, u :: t in p.tasks && u in p.tasks && t != u && Verifies(p.tasks[t]) && Verifies(p.tasks[u]) ==>
          p.tasks[t].start != p.tasks[u].start)
    && (forall t, i :: t in p.tasks && Verifies(p.tasks[t]) && 0 <= i < |p.log| && p.log[i].Verified? ==>
          p.log[i].start != p.tasks[t].start)
    && (forall i, j :: 0 <= i < j < |p.log| && p.log[i].Verified? && p.log[j].Verified? ==>
      p.log[i].start != p.log[j].start)
  }

  ghost predicate Inv(cfg: Config, s: Joint) {
    && Nonces.Inv(Ttl(cfg), s.nonces) && s.nonces.now == s.handlers.now
    && Matched(s) && Once(s.handlers)
  }

  /** What a step other than the start of a verification does to verifications: one of them goes on as
      the same, or is answered and ends. */
  predicate Continues(p: Protocol.State, w: Writes) {
    && (w.task.Await? && Verifies(w.task.task) ==>
          && w.task.id in p.tasks && Verifies(p.tasks[w.task.id])
          && w.task.task.start == p.tasks[w.task.id].start && w.task.task.req == p.tasks[w.task.id].req)
    && (w.event.Some? && w.event.value.Verified? ==>
          && w.task.End? && w.task.id in p.tasks && Verifies(p.tasks[w.task.id])
          && w.event.value.start == p.tasks[w.task.id].start && w.event.value.req == p.tasks[w.task.id].req)
  }

  lemma EffectContinues(cfg: Config, p: Protocol.State, step: Protocol.Step, w: Writes)
    requires Effect(cfg, p, step) == Some(w) && !step.VerifyStart? && !step.Tick?
    ensures Continues(p, w) && w.micros == 0
  {
  }

  lemma ContinuesKeepsOnce(p: Protocol.State, w: Writes)
    requires Once(p) && Continues(p, w)
    ensures Once(Apply(p, w))
  {
  }

  lemma ContinuesKeepsMatched(s: Joint, w: Writes)
    requires Matched(s) && Continues(s.handlers, w)
    ensures Matched(s.(handlers := Apply(s.handlers, w)))
  {
    var s' := s.(handlers := Apply(s.handlers, w));
    forall i | 0 <= i < |s'.handlers.log| && s'.handlers.log[i].Verified?
      ensures BeganWith(s', s'.handlers.log[i].start, s'.handlers.log[i].req)
    {
      if i < |s.handlers.log| {
        assert BeganWith(s, s.handlers.log[i].start, s.handlers.log[i].req);
      }
    }
  }

  /** The writes by which a verification begins. */
  function Started(p: Protocol.State, t: nat, req: VerifyRequest): Writes {
    NONE.(task := Await(t, VerifyFresh(|p.log|, req)), event := Some(VerifyStarted(req.jti)))
  }

  /** No verification has the next place in the history yet. */
  lemma StartKeepsOnce(s: Joint, t: nat, req: VerifyRequest)
    requires Matched(s) && Once(s.handlers) && t !in s.handlers.tasks
    ensures Once(Apply(s.handlers, Started(s.handlers, t, req)))
  {
    assert forall u :: u in s.handlers.tasks && Verifies(s.handlers.tasks[u]) ==>
      s.handlers.tasks[u].start < |s.handlers.log|;
    assert forall i :: 0 <= i < |s.handlers.log| && s.handlers.log[i].Verified? ==>
      s.handlers.log[i].start < |s.handlers.log|;
  }

  lemma StartKeepsMatched(s: Joint, t: nat, req: VerifyRequest, pass: Nonces.Pass, s': Joint)
    requires Matched(s) && t !in s.handlers.tasks && pass.nonce == req.nonce &&
      s'.nonces.passes == s.nonces.passes + [pass]
    requires s'.handlers == Apply(s.handlers, Started(s.handlers, t, req))
    requires s'.began == s.began[|s.handlers.log| := |s.nonces.passes|]
    ensures Matched(s')
  {
    assert forall start: nat, r :: BeganWith(s, start, r) ==> start < |s.handlers.log| && BeganWith(s', start, r);
    assert BeganWith(s', |s.handlers.log|, req);
  }

  lemma PassKeepsInv(cfg: Config, s: Joint, step: Step, s': Joint)
    requires Inv(cfg, s) && Next(cfg, s, step) == Some(s') && step.Pass?
    ensures Inv(cfg, s')
  {
    Nonces.StepKeepsInv(Ttl(cfg), s.nonces, Nonces.Expire(step.check, true, true), s'.nonces);
    assert Effect(cfg, s.handlers, VerifyStart(step.task, step.req)) == Some(Started(s.handlers, step.task, step.req));
    StartKeepsOnce(s, step.task, step.req);
    StartKeepsMatched(s, step.task, step.req, s'.nonces.passes[|s.nonces.passes|], s');
  }

  lemma CheckKeepsInv(cfg: Config, s: Joint, step: Step, s': Joint)
    requires Inv(cfg, s) && Next(cfg, s, step) == Some(s') && step.Check?
    ensures Inv(cfg, s')
  {
    Nonces.StepKeepsInv(Ttl(cfg), s.nonces, step.inner, s'.nonces);
    assert s'.nonces.passes == s.nonces.passes;
  }

  lemma TickKeepsInv(cfg: Config, s: Joint, step: Step, s': Joint)
    requires Inv(cfg, s) && Next(cfg, s, step) == Some(s') && step.Tick?
    ensures Inv(cfg, s')
  {
    Nonces.StepKeepsInv(Ttl(cfg), s.nonces, Nonces.Tick(step.micros), s'.nonces);
    assert s'.handlers == s.handlers.(now := s'.handlers.now);
  }

  lemma HandleKeepsInv(cfg: Config, s: Joint, step: Step, s': Joint)
    requires Inv(cfg, s) && Next(cfg, s, step) == Some(s') && step.Handle?
    ensures Inv(cfg, s')
  {
    var w := Effect(cfg, s.handlers, step.step).value;
    EffectContinues(cfg, s.handlers, step.step, w);
    ContinuesKeepsOnce(s.handlers, w);
    ContinuesKeepsMatched(s, w);
  }

  lemma StepKeepsInv(cfg: Config, s: Joint, step: Step, s': Joint)
    requires Inv(cfg, s) && Next(cfg, s, step) == Some(s')
    ensures Inv(cfg, s')
  {
    match step {
      case Pass(_, _, _) => PassKeepsInv(cfg, s, step, s');
      case Check(_) => CheckKeepsInv(cfg, s, step, s');
      case Tick(_) => TickKeepsInv(cfg, s, step, s');
      case Handle(_) => HandleKeepsInv(cfg, s, step, s');
    }
  }

  lemma {:induction false} RunKeepsInv(cfg: Config, s: Joint, steps: seq<Step>, s': Joint)
    requires Inv(cfg, s) && Run(cfg, s, steps) == Some(s')
    ensures Inv(cfg, s')
    decreases |steps|
  {
    if |steps| != 0 {
      var mid := Next(cfg, s, steps[0]).value;
      StepKeepsInv(cfg, s, steps[0], mid);
      RunKeepsInv(cfg, mid, steps[1..], s');
    }
  }

  /** Two allowed verifications with the same nonce are at least the nonce lifetime apart, however the
      checks and the handlers of any number of verifications interleave: one of them began that long
      before the other set the nonce. */
  lemma AllowedAreSpaced(cfg: Config, s0: Joint, steps: seq<Step>, s: Joint, i: nat, j: nat)
    requires Init(s0) && Run(cfg, s0, steps) == Some(s) && i < |s.handlers.log| && j < |s.handlers.log| && i != j
    requires s.handlers.log[i].Verified? && s.handlers.log[i].outcome == Allowed
    requires s.handlers.log[j].Verified? && s.handlers.log[j].outcome == Allowed
    requires s.handlers.log[i].req.nonce == s.handlers.log[j].req.nonce
    ensures
      var e, f := s.handlers.log[i], s.handlers.log[j];
      && BeganWith(s, e.start, e.req) && BeganWith(s, f.start, f.req)
      && (var p, q := s.nonces.passes[s.began[e.start]], s.nonces.passes[s.began[f.start]];
          p.passedAt + Ttl(cfg) <= q.setAt || q.passedAt + Ttl(cfg) <= p.setAt)
  {
    RunKeepsInv(cfg, s0, steps, s);
    var e, f := s.handlers.log[i], s.handlers.log[j];
    assert BeganWith(s, e.start, e.req) && BeganWith(s, f.start, f.req);
    assert e.start != f.start;
  }
}
