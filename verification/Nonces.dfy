/** Replay protection: SETNX and EXPIRE are separate commands, so the checks of concurrent verifications
    interleave between them, and either command or its reply may be lost. */
module Nonces {
  import opened Wrappers

  /** Each used nonce with the deadline of its key; a key without a deadline never expires. */
  type Store = map<string, Option<int>>

  function SetNx(store: Store, nonce: string): Store {
    if nonce in store then store else store[nonce := None]
  }

  function ExpireAt(store: Store, nonce: string, deadline: int): Store {
    if nonce in store then store[nonce := Some(deadline)] else store
  }

  predicate MayVanish(store: Store, nonce: string, now: int) {
    nonce in store && store[nonce].Some? && store[nonce].value <= now
  }

  /** A check that set the nonce at `setAt` and has yet to set its expiry. */
  datatype Pending = Pending(nonce: string, setAt: int)

  /** A check that passed: when it set the nonce, and when its expiry was set. */
  datatype Pass = Pass(nonce: string, setAt: int, passedAt: int)

  datatype State = State(now: int, store: Store, checks: map<nat, Pending>, passes: seq<Pass>)

  datatype Step =
    | Tick(elapsed: nat)
    | Vanish(nonce: string)
    | Set(check: nat, nonce: string, replied: bool)
    | Expire(check: nat, applied: bool, replied: bool)
    | Abandon(check: nat)

  /** The state after a step, or none when it cannot be taken. A check that finds the nonce in use ends
      as a replay; one whose command or reply is lost ends as an error; neither passes. */
  function Next(ttl: nat, s: State, step: Step): Option<State> {
    match step
    case Tick(elapsed) => Some(s.(now := s.now + elapsed))
    case Vanish(n) => if MayVanish(s.store, n, s.now) then Some(s.(store := s.store - {n})) else None
    case Set(c, n, replied) =>
      if c in s.checks then None
      else if n in s.store then Some(s)
      else Some(s.(store := SetNx(s.store, n),
                   checks := if replied then s.checks[c := Pending(n, s.now)] else s.checks))
    case Expire(c, applied, replied) =>
      if c !in s.checks || (replied && !applied) then None
      else
        var n := s.checks[c].nonce;
        Some(State(
          s.now,
          if applied then ExpireAt(s.store, n, s.now + ttl) else s.store,
          s.checks - {c},
          if replied then s.passes + [Pass(n, s.checks[c].setAt, s.now)] else s.passes))
    case Abandon(c) => if c in s.checks then Some(s.(checks := s.checks - {c})) else None
  }

  function Run(ttl: nat, s: State, steps: seq<Step>): Option<State>
    decreases |steps|
  {
    if |steps| == 0 then Some(s)
    else
      var s' := Next(ttl, s, steps[0]);
      if s'.None? then None else Run(ttl, s'.value, steps[1..])
  }

  predicate Init(s: State) {
    s.store == map[] && s.checks == map[] && s.passes == []
  }

  /** Either the lifetime after the pass is over, or the key is still there with a deadline no earlier. */
  predicate Guarded(ttl: nat, s: State, p: Pass) {
    p.passedAt + ttl <= s.now
    || (p.nonce in s.store && s.store[p.nonce].Some? && p.passedAt + ttl <= s.store[p.nonce].value)
  }

  ghost predicate Inv(ttl: nat, s: State) {
    && (forall c :: c in s.checks ==> s.checks[c].nonce in s.store && s.store[s.checks[c].nonce].None?)
    && (forall c, d :: c in s.checks && d in s.checks && c != d ==> s.checks[c].nonce != s.checks[d].nonce)
    && (forall i :: 0 <= i < |s.passes| ==> Guarded(ttl, s, s.passes[i]))
    && (forall i, c :: 0 <= i < |s.passes| && c in s.checks && s.passes[i].nonce == s.checks[c].nonce ==>
          s.passes[i].passedAt + ttl <= s.checks[c].setAt)
    && Spaced(ttl, s.passes)
  }

  /** Of two passes with the same nonce, the later one set it only after the lifetime of the earlier. */
  ghost predicate Spaced(ttl: nat, passes: seq<Pass>) {
    forall i, j :: 0 <= i < j < |passes| && passes[i].nonce == passes[j].nonce ==>
      passes[i].passedAt + ttl <= passes[j].setAt
  }

  lemma SetKeepsInv(ttl: nat, s: State, step: Step, s': State)
    requires Inv(ttl, s) && Next(ttl, s, step) == Some(s') && step.Set?
    ensures Inv(ttl, s')
  {
    assert forall i :: 0 <= i < |s.passes| ==> Guarded(ttl, s, s.passes[i]);
  }

  lemma ExpireKeepsInv(ttl: nat, s: State, step: Step, s': State)
    requires Inv(ttl, s) && Next(ttl, s, step) == Some(s') && step.Expire?
    ensures Inv(ttl, s')
  {
    forall i | 0 <= i < |s'.passes|
      ensures Guarded(ttl, s', s'.passes[i])
    {
      if i < |s.passes| {
        assert Guarded(ttl, s, s.passes[i]);
      }
    }
  }

  lemma StepKeepsInv(ttl: nat, s: State, step: Step, s': State)
    requires Inv(ttl, s) && Next(ttl, s, step) == Some(s')
    ensures Inv(ttl, s')
  {
    if step.Set? {
      SetKeepsInv(ttl, s, step, s');
    } else if step.Expire? {
      ExpireKeepsInv(ttl, s, step, s');
    } else {
      assert forall i :: 0 <= i < |s.passes| ==> Guarded(ttl, s, s.passes[i]);
    }
  }

  lemma {:induction false} RunKeepsInv(ttl: nat, s: State, steps: seq<Step>, s': State)
    requires Inv(ttl, s) && Run(ttl, s, steps) == Some(s')
    ensures Inv(ttl, s')
    decreases |steps|
  {
    if |steps| != 0 {
      var mid := Next(ttl, s, steps[0]).value;
      StepKeepsInv(ttl, s, steps[0], mid);
      RunKeepsInv(ttl, mid, steps[1..], s');
    }
  }

  /** Under every interleaving, with any commands or replies lost, two verifications that pass with the
      same nonce are at least the nonce lifetime apart: the second one begins no sooner than that after
      the first one passed. */
  lemma PassesAreSpaced(ttl: nat, s0: State, steps: seq<Step>, s: State)
    requires Init(s0) && Run(ttl, s0, steps) == Some(s)
    ensures Spaced(ttl, s.passes)
  {
    RunKeepsInv(ttl, s0, steps, s);
  }

  /** A check whose expiry was never set blocks its nonce for good. */
  lemma {:induction false} UnexpiredNonceBlocksForever(ttl: nat, s: State, n: string, steps: seq<Step>, s': State)
    requires n in s.store && s.store[n].None? && (forall c :: c in s.checks ==> s.checks[c].nonce != n)
    requires Run(ttl, s, steps) == Some(s')
    ensures n in s'.store && s'.store[n].None? && (forall p :: p in s'.passes && p.nonce == n ==> p in s.passes)
    decreases |steps|
  {
    if |steps| != 0 {
      UnexpiredNonceBlocksForever(ttl, Next(ttl, s, steps[0]).value, n, steps[1..], s');
    }
  }
}
