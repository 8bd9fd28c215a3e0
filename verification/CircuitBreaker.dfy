/** The circuit breaker: three states, a failure window that starts anew once it has run out, and what
    every sequence of recorded calls and permission checks keeps. */
module CircuitBreaker {
  import opened Wrappers

  const SECOND: int := 1_000_000

  datatype Config = Config(failureThreshold: nat, failureWindowSecs: nat, recoveryTimeoutSecs: nat,
    successThreshold: nat)

  datatype CircuitState = Closed | Open | HalfOpen

  datatype Inner = Inner(state: CircuitState, failureCount: nat, successCount: nat, windowStart: int,
    openedAt: Option<int>)

  /** `Instant::duration_since`, which is zero for an earlier instant. */
  function Since(now: int, earlier: int): int {
    if now >= earlier then now - earlier else 0
  }

  /** The time-based transitions that precede every operation. */
  function Update(cfg: Config, b: Inner, now: int): Inner {
    match b.state
    case Closed =>
      if Since(now, b.windowStart) > cfg.failureWindowSecs * SECOND
        then b.(failureCount := 0, windowStart := now) else b
    case Open =>
      if b.openedAt.Some? && Since(now, b.openedAt.value) > cfg.recoveryTimeoutSecs * SECOND
      then b.(state := HalfOpen, successCount := 0) else b
    case HalfOpen => b
  }

  /** Operations with the clock readings they take; a failure that opens the circuit reads the clock twice. */
  datatype Op = Check(now: int) | Success(now: int) | Failure(now: int, later: int)

  function Step(cfg: Config, was: Inner, op: Op): Inner {
    var b := Update(cfg, was, op.now);
    match op
    case Check(_) => b
    case Success(_) =>
      if b.state.Closed? then b.(failureCount := 0)
      else if b.state.HalfOpen? then
        if b.successCount + 1 >= cfg.successThreshold then Inner(Closed, 0, 0, b.windowStart, None)
        else b.(successCount := b.successCount + 1)
      else b
    case Failure(_, later) =>
      if b.state.Closed? then
        if b.failureCount + 1 >= cfg.failureThreshold
          then b.(state := Open, failureCount := b.failureCount + 1, openedAt := Some(later))
        else b.(failureCount := b.failureCount + 1)
      else if b.state.HalfOpen? then b.(state := Open, successCount := 0, openedAt := Some(later))
      else b
  }

  class DependencyCircuitBreaker {
    const config: Config
    var inner: Inner

    constructor (config: Config, now: int)
      ensures this.config == config && inner == Fresh(now)
    {
      this.config := config;
      inner := Inner(Closed, 0, 0, now, None);
    }

    method UpdateState(now: int)
      modifies this
      ensures inner == Update(config, old(inner), now)
    {
      if inner.state.Closed? {
        if Since(now, inner.windowStart) > config.failureWindowSecs * SECOND {
          inner := inner.(failureCount := 0);
          inner := inner.(windowStart := now);
        }
      } else if inner.state.Open? {
        if inner.openedAt.Some? {
          if Since(now, inner.openedAt.value) > config.recoveryTimeoutSecs * SECOND {
            inner := inner.(state := HalfOpen);
            inner := inner.(successCount := 0);
          }
        }
      }
    }

    method IsCallPermitted(now: int) returns (permitted: bool)
      modifies this
      ensures inner == Step(config, old(inner), Check(now))
      ensures permitted <==> Permitted(config, old(inner), now)
    {
      UpdateState(now);
      permitted := !inner.state.Open?;
    }

    method RecordSuccess(now: int)
      modifies this
      ensures inner == Step(config, old(inner), Success(now))
    {
      UpdateState(now);
      if inner.state.Closed? {
        inner := inner.(failureCount := 0);
      } else if inner.state.HalfOpen? {
        inner := inner.(successCount := inner.successCount + 1);
        if inner.successCount >= config.successThreshold {
          inner := inner.(state := Closed);
          inner := inner.(failureCount := 0);
          inner := inner.(successCount := 0);
          inner := inner.(openedAt := None);
        }
      }
    }

    method RecordFailure(now: int, later: int)
      modifies this
      ensures inner == Step(config, old(inner), Failure(now, later))
    {
      UpdateState(now);
      if inner.state.Closed? {
        inner := inner.(failureCount := inner.failureCount + 1);
        if inner.failureCount >= config.failureThreshold {
          inner := inner.(state := Open);
          inner := inner.(openedAt := Some(later));
        }
      } else if inner.state.HalfOpen? {
        inner := inner.(state := Open);
        inner := inner.(successCount := 0);
        inner := inner.(openedAt := Some(later));
      }
    }
  }

  // Whole runs.

  function Fresh(now: int): Inner {
    Inner(Closed, 0, 0, now, None)
  }

  predicate Permitted(cfg: Config, b: Inner, now: int) {
    !Update(cfg, b, now).state.Open?
  }

  function Run(cfg: Config, start: int, ops: seq<Op>): Inner {
    if ops == [] then Fresh(start) else Step(cfg, Run(cfg, start, ops[..|ops| - 1]), ops[|ops| - 1])
  }

  function Latest(start: int, ops: seq<Op>): int {
    if ops == [] then start
    else if ops[|ops| - 1].Failure? then ops[|ops| - 1].later
    else ops[|ops| - 1].now
  }

  /** Clock readings do not go back, within an operation or from one to the next. */
  predicate Ordered(start: int, ops: seq<Op>) {
    ops == [] ||
    (var init, op := ops[..|ops| - 1], ops[|ops| - 1];
     Ordered(start, init) && Latest(start, init) <= op.now && (op.Failure? ==> op.now <= op.later))
  }

  /** The times of the failures recorded since the last recorded success. */
  function Streak(ops: seq<Op>): seq<int> {
    if ops == [] then []
    else
      var s := Streak(ops[..|ops| - 1]);
      match ops[|ops| - 1]
      case Check(_) => s
      case Success(_) => []
      case Failure(now, _) => s + [now]
  }

  /** How many of the latest failures lie in the window that started at `from`. */
  function CountFrom(times: seq<int>, from: int): nat {
    if times == [] || times[|times| - 1] < from then 0 else CountFrom(times[..|times| - 1], from) + 1
  }

  lemma {:induction false} StreakSorted(start: int, ops: seq<Op>)
    requires Ordered(start, ops)
    ensures forall i, j :: 0 <= i < j < |Streak(ops)| ==> Streak(ops)[i] <= Streak(ops)[j]
    ensures forall i :: 0 <= i < |Streak(ops)| ==> start <= Streak(ops)[i] <= Latest(start, ops)
    ensures start <= Latest(start, ops)
  {
    if ops != [] {
      StreakSorted(start, ops[..|ops| - 1]);
    }
  }

  /** In the closed state the failure count is the number of failures since the last success that fall in
      the current window, and it is below the threshold; elsewhere the counters are within their thresholds. */
  ghost predicate Inv(cfg: Config, b: Inner, streak: seq<int>, latest: int) {
    && b.failureCount <= cfg.failureThreshold
    && (b.successCount > 0 ==> b.state.HalfOpen? && b.successCount < cfg.successThreshold)
    && b.windowStart <= latest
    && (b.state.Closed? ==>
          && b.failureCount < cfg.failureThreshold
          && b.failureCount == CountFrom(streak, b.windowStart)
          && forall i :: 0 <= i < |streak| ==> streak[i] <= b.windowStart + cfg.failureWindowSecs * SECOND)
    && (!b.state.Closed? ==> b.openedAt.Some? && b.openedAt.value <= latest)
  }

  lemma UpdateKeepsInv(cfg: Config, b: Inner, streak: seq<int>, latest: int, now: int)
    requires Inv(cfg, b, streak, latest) && latest <= now && cfg.failureThreshold > 0
    ensures Inv(cfg, Update(cfg, b, now), streak, now)
    ensures Update(cfg, b, now).state.Closed? ==>
      now <= Update(cfg, b, now).windowStart + cfg.failureWindowSecs * SECOND
  {
  }

  lemma FailureKeepsInv(cfg: Config, b: Inner, streak: seq<int>, op: Op)
    requires op.Failure? && op.now <= op.later && cfg.failureThreshold > 0
    requires Inv(cfg, Update(cfg, b, op.now), streak, op.now)
    requires Update(cfg, b, op.now).state.Closed? ==>
      op.now <= Update(cfg, b, op.now).windowStart + cfg.failureWindowSecs * SECOND
    ensures Inv(cfg, Step(cfg, b, op), streak + [op.now], op.later)
  {
    assert (streak + [op.now])[..|streak|] == streak;
  }

  /** With positive thresholds, every run keeps the invariant; in particular neither counter exceeds its threshold. */
  lemma {:induction false} RunKeepsInv(cfg: Config, start: int, ops: seq<Op>)
    requires Ordered(start, ops) && cfg.failureThreshold > 0
    ensures Inv(cfg, Run(cfg, start, ops), Streak(ops), Latest(start, ops))
  {
    if ops != [] {
      var init, op := ops[..|ops| - 1], ops[|ops| - 1];
      RunKeepsInv(cfg, start, init);
      UpdateKeepsInv(cfg, Run(cfg, start, init), Streak(init), Latest(start, init), op.now);
      if op.Failure? {
        FailureKeepsInv(cfg, Run(cfg, start, init), Streak(init), op);
      }
    }
  }

  lemma {:induction false} CountedAreRecent(times: seq<int>, from: int, n: nat)
    requires n <= CountFrom(times, from)
    ensures n <= |times| && forall i :: |times| - n <= i < |times| ==> from <= times[i]
  {
    if n > 0 {
      CountedAreRecent(times[..|times| - 1], from, n - 1);
    }
  }

  /** The window in which a failure at this time is counted: the current one, unless it has run out. */
  function WindowAt(cfg: Config, windowStart: int, now: int): int {
    if now - windowStart > cfg.failureWindowSecs * SECOND then now else windowStart
  }

  /** The window starts with the breaker, starts anew with the first operation in the closed state that comes
      more than its length later, and stands still in the other states. */
  lemma WindowTumbles(cfg: Config, start: int, ops: seq<Op>, op: Op)
    requires Ordered(start, ops + [op]) && cfg.failureThreshold > 0
    ensures Run(cfg, start, []).windowStart == start
    ensures
      var was := Run(cfg, start, ops);
      Run(cfg, start, ops + [op]).windowStart ==
        if was.state.Closed? && op.now - was.windowStart > cfg.failureWindowSecs * SECOND then op.now
        else was.windowStart
  {
    assert (ops + [op])[..|ops|] == ops;
    RunKeepsInv(cfg, start, ops);
  }

  /** A failure recorded in the closed state opens the circuit exactly when the failures since the last
      success that fall in its window, this one included, reach the threshold. */
  lemma OpensIff(cfg: Config, start: int, ops: seq<Op>, op: Op)
    requires Ordered(start, ops + [op]) && cfg.failureThreshold > 0 && op.Failure?
    requires Run(cfg, start, ops).state.Closed?
    ensures Run(cfg, start, ops + [op]).state.Open? <==>
      CountFrom(Streak(ops + [op]), WindowAt(cfg, Run(cfg, start, ops).windowStart, op.now)) >= cfg.failureThreshold
    ensures !Run(cfg, start, ops + [op]).state.Open? ==> Run(cfg, start, ops + [op]).state.Closed?
  {
    assert (ops + [op])[..|ops|] == ops;
    RunKeepsInv(cfg, start, ops);
    UpdateKeepsInv(cfg, Run(cfg, start, ops), Streak(ops), Latest(start, ops), op.now);
    assert Streak(ops + [op])[..|Streak(ops)|] == Streak(ops);
  }

  /** Only a failure opens a closed circuit. */
  lemma OnlyFailuresOpen(cfg: Config, start: int, ops: seq<Op>, op: Op)
    requires Run(cfg, start, ops).state.Closed? && !op.Failure?
    ensures Run(cfg, start, ops + [op]).state.Closed?
  {
    assert (ops + [op])[..|ops|] == ops;
  }

  /** Whenever the circuit opens from the closed state, the last `failureThreshold` recorded calls were
      failures, and they span no more than the failure window. */
  lemma OpeningHasItsFailures(cfg: Config, start: int, ops: seq<Op>, op: Op)
    requires Ordered(start, ops + [op]) && cfg.failureThreshold > 0
    requires Run(cfg, start, ops).state.Closed? && Run(cfg, start, ops + [op]).state.Open?
    ensures
      var s := Streak(ops + [op]);
      cfg.failureThreshold <= |s| && s[|s| - 1] - s[|s| - cfg.failureThreshold] <= cfg.failureWindowSecs * SECOND
  {
    assert (ops + [op])[..|ops|] == ops;
    if !op.Failure? {
      OnlyFailuresOpen(cfg, start, ops, op);
    }
    RunKeepsInv(cfg, start, ops);
    OpensIff(cfg, start, ops, op);
    var from := WindowAt(cfg, Run(cfg, start, ops).windowStart, op.now);
    CountedAreRecent(Streak(ops + [op]), from, cfg.failureThreshold);
  }

  /** The window is not a sliding one: enough failures within its length, but on both sides of a restart,
      leave the circuit closed. */
  lemma BurstAcrossRestartStaysClosed()
    ensures exists cfg: Config, start: int, ops: seq<Op> ::
      && Ordered(start, ops) && cfg.failureThreshold > 0 && Run(cfg, start, ops).state.Closed?
      && |Streak(ops)| == cfg.failureThreshold &&
        Streak(ops)[|Streak(ops)| - 1] - Streak(ops)[0] <= cfg.failureWindowSecs * SECOND
  {
    var cfg := Config(2, 5, 10, 1);
    var ops := [Failure(4 * SECOND, 4 * SECOND), Failure(6 * SECOND, 6 * SECOND)];
    assert ops[..1] == [ops[0]] && ops[..1][..0] == [];
    assert Run(cfg, 0, ops[..1]) == Inner(Closed, 1, 0, 0, None);
    assert Run(cfg, 0, ops) == Inner(Closed, 1, 0, 6 * SECOND, None);
    assert Streak(ops[..1]) == [4 * SECOND];
    assert Streak(ops) == [4 * SECOND, 6 * SECOND];
    assert Ordered(0, ops[..1]);
    assert Ordered(0, ops);
  }

  /** The run stands open since the operation at `i`, a failure that opened it. */
  ghost predicate OpenSince(cfg: Config, start: int, ops: seq<Op>, i: nat) {
    && i < |ops| && ops[i].Failure?
    && !Update(cfg, Run(cfg, start, ops[..i]), ops[i].now).state.Open?
    && (forall j :: i < j <= |ops| ==> Run(cfg, start, ops[..j]).state.Open?)
    && Run(cfg, start, ops).openedAt == Some(ops[i].later)
  }

  lemma {:induction false} OpenHasBeginning(cfg: Config, start: int, ops: seq<Op>) returns (i: nat)
    requires Run(cfg, start, ops).state.Open?
    ensures OpenSince(cfg, start, ops, i)
  {
    var n := |ops| - 1;
    var init, op := ops[..n], ops[n];
    assert ops[..|ops|] == ops;
    if op.Failure? && !Update(cfg, Run(cfg, start, init), op.now).state.Open? {
      i := n;
    } else {
      i := OpenHasBeginning(cfg, start, init);
      assert forall j :: 0 <= j <= n ==> init[..j] == ops[..j];
    }
  }

  /** Calls are refused exactly while the circuit is open and no more than the recovery timeout has passed
      since the failure that opened it. */
  lemma RefusedIffRecentlyOpened(cfg: Config, start: int, ops: seq<Op>, now: int)
    requires Ordered(start, ops) && Latest(start, ops) <= now
    ensures !Permitted(cfg, Run(cfg, start, ops), now) <==>
      exists i: nat :: OpenSince(cfg, start, ops, i) && now - ops[i].later <= cfg.recoveryTimeoutSecs * SECOND
  {
    if Run(cfg, start, ops).state.Open? {
      var i := OpenHasBeginning(cfg, start, ops);
      OpenedInThePast(cfg, start, ops, i);
    } else {
      forall i: nat
        ensures !OpenSince(cfg, start, ops, i)
      {
        assert ops[..|ops|] == ops;
      }
    }
  }

  lemma {:induction false} OpenedInThePast(cfg: Config, start: int, ops: seq<Op>, i: nat)
    requires Ordered(start, ops) && i < |ops| && ops[i].Failure?
    ensures ops[i].later <= Latest(start, ops)
  {
    if i < |ops| - 1 {
      OpenedInThePast(cfg, start, ops[..|ops| - 1], i);
    }
  }

  // Probing, said of the history: the circuit stood open when the operation at `h` came, after the timeout.

  function Successes(ops: seq<Op>): nat {
    if ops == [] then 0 else Successes(ops[..|ops| - 1]) + if ops[|ops| - 1].Success? then 1 else 0
  }

  predicate NoFailure(ops: seq<Op>) {
    forall i :: 0 <= i < |ops| ==> !ops[i].Failure?
  }

  /** The circuit was opened by the failure at `i`, stood open up to the operation at `h`, which came after
      the recovery timeout, and no failure has been recorded since. */
  ghost predicate ProbedSince(cfg: Config, start: int, ops: seq<Op>, h: nat, i: nat) {
    && h < |ops| && OpenSince(cfg, start, ops[..h], i)
    && ops[h].now - ops[i].later > cfg.recoveryTimeoutSecs * SECOND
    && NoFailure(ops[h..])
  }

  /** A probed circuit closes exactly when the successes since the first operation after the timeout reach the
      threshold; until then it is half-open and has counted them. */
  lemma {:induction false} ClosesIff(cfg: Config, start: int, ops: seq<Op>, h: nat, i: nat)
    requires ProbedSince(cfg, start, ops, h, i)
    ensures
      var n, b := Successes(ops[h..]), Run(cfg, start, ops);
      && (b.state.Closed? <==> n >= 1 && n >= cfg.successThreshold)
      && (!b.state.Closed? ==> b.state.HalfOpen? && b.successCount == n)
    decreases |ops| - h
  {
    var n := |ops| - 1;
    assert ops[..n][..h] == ops[..h] && ops[h..][..n - h] == ops[h..n] == ops[..n][h..];
    if h == n {
      assert ops[h..] == [ops[h]] && ops[h..][..0] == [];
      assert Run(cfg, start, ops[..h][..h]).state.Open? && ops[..h][..h] == ops[..h];
    } else {
      assert ops[..n][h] == ops[h] && ops[..n][i] == ops[i];
      ClosesIff(cfg, start, ops[..n], h, i);
      assert ops[n] == ops[h..][n - h];
    }
  }

  /** A failure while the circuit is probed, or the first operation after the timeout, opens it anew: calls are
      refused for the recovery timeout from then on. */
  lemma FailedProbeRefuses(cfg: Config, start: int, ops: seq<Op>, h: nat, i: nat, op: Op, t: int)
    requires Ordered(start, ops + [op]) && op.Failure? && t >= op.later
    requires
      || (&& ProbedSince(cfg, start, ops, h, i)
          && (Successes(ops[h..]) == 0 || Successes(ops[h..]) < cfg.successThreshold))
      || (OpenSince(cfg, start, ops, i) && op.now - ops[i].later > cfg.recoveryTimeoutSecs * SECOND)
    ensures Run(cfg, start, ops + [op]).state.Open?
    ensures !Permitted(cfg, Run(cfg, start, ops + [op]), t) <==> t - op.later <= cfg.recoveryTimeoutSecs * SECOND
  {
    assert (ops + [op])[..|ops|] == ops;
    if ProbedSince(cfg, start, ops, h, i) && (Successes(ops[h..]) == 0 || Successes(ops[h..]) < cfg.successThreshold) {
      ClosesIff(cfg, start, ops, h, i);
    } else {
      assert ops[..|ops|] == ops;
    }
  }
}
