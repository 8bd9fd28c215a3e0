/** The in-flight limiter: a request adds one to a shared counter first and takes it back if it was one
    too many, so between the two atomic operations the counter runs ahead of the live requests. */
module InFlight {
  import opened Wrappers

  // The counter is a 64-bit word.
  const WORD: int := 0x1_0000_0000_0000_0000

  function FetchAdd(counter: int): int {
    (counter + 1) % WORD
  }

  function FetchSub(counter: int): int {
    (counter - 1) % WORD
  }

  /** A task that has added to the counter: it holds a guard, or was refused and has yet to undo. */
  datatype Phase = Holding | Refused

  datatype State = State(counter: int, tasks: map<nat, Phase>)

  datatype Step = Acquire(task: nat) | Undo(task: nat) | DropGuard(task: nat)

  /** One atomic operation of one task; none when the task cannot take it. */
  function Next(max: nat, s: State, step: Step): Option<State> {
    match step
    case Acquire(t) =>
      if t in s.tasks then None
      else Some(State(FetchAdd(s.counter), s.tasks[t := if s.counter >= max then Refused else Holding]))
    case Undo(t) =>
      if t in s.tasks && s.tasks[t].Refused? then Some(State(FetchSub(s.counter), s.tasks - {t})) else None
    case DropGuard(t) =>
      if t in s.tasks && s.tasks[t].Holding? then Some(State(FetchSub(s.counter), s.tasks - {t})) else None
  }

  function Run(max: nat, s: State, steps: seq<Step>): Option<State>
    decreases |steps|
  {
    if |steps| == 0 then Some(s)
    else
      var s' := Next(max, s, steps[0]);
      if s'.None? then None else Run(max, s'.value, steps[1..])
  }

  function Live(s: State): set<nat> {
    set t | t in s.tasks && s.tasks[t].Holding?
  }

  function NotUndone(s: State): set<nat> {
    set t | t in s.tasks && s.tasks[t].Refused?
  }

  /** The counter is what the tasks in flight added to it, and no more guards are out than allowed. */
  ghost predicate Inv(max: nat, s: State) {
    s.counter == |Live(s)| + |NotUndone(s)| && |Live(s)| <= max
  }

  lemma WordDoesNotWrap(counter: int)
    requires 0 <= counter < WORD
    ensures counter + 1 < WORD ==> FetchAdd(counter) == counter + 1
    ensures counter >= 1 ==> FetchSub(counter) == counter - 1
  {
  }

  lemma AcquireKeepsInv(max: nat, s: State, t: nat, s': State)
    requires Inv(max, s) && Next(max, s, Acquire(t)) == Some(s') && s.counter + 1 < WORD
    ensures Inv(max, s')
    ensures t in Live(s') <==> |Live(s)| + |NotUndone(s)| < max
    ensures s.counter < max ==> Live(s') == Live(s) + {t} && NotUndone(s') == NotUndone(s)
  {
    WordDoesNotWrap(s.counter);
    assert t !in Live(s) && t !in NotUndone(s);
    if s.counter >= max {
      assert Live(s') == Live(s) && NotUndone(s') == NotUndone(s) + {t};
    } else {
      assert Live(s') == Live(s) + {t} && NotUndone(s') == NotUndone(s);
    }
  }

  /** Taking one back finds at least one to take. */
  lemma ReleaseKeepsInv(max: nat, s: State, step: Step, s': State)
    requires Inv(max, s) && Next(max, s, step) == Some(s') && !step.Acquire? && s.counter < WORD
    ensures Inv(max, s') && s.counter >= 1 && s'.counter == s.counter - 1
  {
    var t := step.task;
    if step.Undo? {
      assert t in NotUndone(s) && Live(s') == Live(s) && NotUndone(s') == NotUndone(s) - {t};
    } else {
      assert t in Live(s) && Live(s') == Live(s) - {t} && NotUndone(s') == NotUndone(s);
    }
    WordDoesNotWrap(s.counter);
  }

  /** In every interleaving of any number of tasks: never more guards than allowed, the counter is the
      live guards plus the refused attempts not yet undone, it never runs below zero, and it is back at
      zero once every task is done. A run of fewer than 2^64 steps cannot make the word wrap. */
  lemma {:induction false} InterleavingsAreSafe(max: nat, s: State, steps: seq<Step>, s': State)
    requires Inv(max, s) && Run(max, s, steps) == Some(s') && s.counter + |steps| < WORD
    ensures Inv(max, s')
    ensures s'.tasks == map[] ==> s'.counter == 0
    decreases |steps|
  {
    if |steps| != 0 {
      var mid := Next(max, s, steps[0]).value;
      if steps[0].Acquire? {
        AcquireKeepsInv(max, s, steps[0].task, mid);
      } else {
        ReleaseKeepsInv(max, s, steps[0], mid);
      }
      InterleavingsAreSafe(max, mid, steps[1..], s');
    } else if s'.tasks == map[] {
      assert Live(s') == {} && NotUndone(s') == {};
    }
  }

  class InFlightLimiter {
    const maxRequests: nat
    var current: int
    ghost var tasks: map<nat, Phase>

    constructor (maxRequests: nat)
      ensures this.maxRequests == maxRequests && At() == State(0, map[])
    {
      this.maxRequests, current, tasks := maxRequests, 0, map[];
    }

    ghost function At(): State
      reads this
    {
      State(current, tasks)
    }

    /** The fetch-and-add and the comparison with the value it returned. */
    method Enter(ghost t: nat) returns (admitted: bool)
      requires t !in tasks
      modifies this
      ensures Next(maxRequests, old(At()), Acquire(t)) == Some(At())
      ensures admitted <==> tasks[t].Holding?
    {
      var before := current;
      current := (current + 1) % WORD;
      admitted := before < maxRequests;
      tasks := tasks[t := if admitted then Holding else Refused];
    }

    method UndoEnter(ghost t: nat)
      requires t in tasks && tasks[t].Refused?
      modifies this
      ensures Next(maxRequests, old(At()), Undo(t)) == Some(At())
    {
      current := (current - 1) % WORD;
      tasks := tasks - {t};
    }

    /** Dropping a guard. */
    method Leave(ghost t: nat)
      requires t in tasks && tasks[t].Holding?
      modifies this
      ensures Next(maxRequests, old(At()), DropGuard(t)) == Some(At())
    {
      current := (current - 1) % WORD;
      tasks := tasks - {t};
    }

    /** An attempt that nobody interrupts: it gets a guard exactly when one is free, and otherwise leaves no trace. */
    method TryAcquire(ghost t: nat) returns (guard: bool)
      requires t !in tasks && Inv(maxRequests, At()) && current + 1 < WORD
      modifies this
      ensures Inv(maxRequests, At())
      ensures guard <==> |old(Live(At()))| + |old(NotUndone(At()))| < maxRequests
      ensures guard ==> Live(At()) == old(Live(At())) + {t} && NotUndone(At()) == old(NotUndone(At()))
      ensures !guard ==> At() == old(At())
    {
      ghost var s0 := At();
      guard := Enter(t);
      AcquireKeepsInv(maxRequests, s0, t, At());
      if !guard {
        WordDoesNotWrap(s0.counter);
        WordDoesNotWrap(s0.counter + 1);
        UndoEnter(t);
        assert tasks == s0.tasks;
      }
    }
  }
}
