/** Grant requests that overlap: the pending grants are counted before the insert, so concurrent requests
    can exceed the limit, by no more than their number less one. */
module Requests {
  import opened Wrappers
  import opened Records
  import opened Grants

  /** A request in flight: it passed the count, and then found no pending grant for its provider. */
  datatype Task = Counted(agent: Uuid, provider: Uuid) | Absent(agent: Uuid, provider: Uuid)

  datatype State = State(rows: map<Uuid, GrantRow>, tasks: map<nat, Task>)

  datatype Step =
    | Count(task: nat, agent: Uuid, provider: Uuid)
    | Find(task: nat)
    | Insert(task: nat, id: Uuid, row: GrantRow)
    | Abandon(task: nat)
    | Decide(id: Uuid, row: GrantRow)

  /** The state after a step, or none when it cannot be taken. A request that is refused or answered with
      an existing grant ends where that is decided. */
  ghost function Next(max: nat, s: State, step: Step): Option<State> {
    match step
    case Count(t, a, p) =>
      if t in s.tasks || |PendingOf(s.rows, a)| >= max then None else Some(s.(tasks := s.tasks[t := Counted(a, p)]))
    case Find(t) =>
      if t !in s.tasks || !s.tasks[t].Counted? then None
      else if FindsPending(s.rows, s.tasks[t].agent, s.tasks[t].provider, None)
      then Some(s.(tasks := s.tasks[t := Absent(s.tasks[t].agent, s.tasks[t].provider)]))
      else Some(s.(tasks := s.tasks - {t}))
    case Insert(t, id, row) =>
      if t !in s.tasks || !s.tasks[t].Absent? || id in s.rows then None
      else if row.agent != s.tasks[t].agent || row.provider != s.tasks[t].provider || row.status != Pending then None
      else Some(State(s.rows[id := row], s.tasks - {t}))
    case Abandon(t) => if t in s.tasks then Some(s.(tasks := s.tasks - {t})) else None
    case Decide(id, row) =>
      if id in s.rows && row.status != Pending then Some(s.(rows := s.rows[id := row])) else None
  }

  /** The requests of the agent in flight. */
  function InFlightOf(s: State, agent: Uuid): set<nat> {
    set t | t in s.tasks && s.tasks[t].agent == agent
  }

  /** The requests for the pair that found no pending grant and have yet to insert theirs. */
  function InsertingFor(s: State, agent: Uuid, provider: Uuid): set<nat> {
    set t | t in s.tasks && s.tasks[t] == Absent(agent, provider)
  }

  function PendingFor(s: State, agent: Uuid, provider: Uuid): set<Uuid> {
    set g | g in s.rows && PendingAt(s.rows, agent, provider, g)
  }

  /** No more than `c` requests of the agent are ever in flight at once. */
  ghost predicate AtMostAtOnce(max: nat, s: State, steps: seq<Step>, agent: Uuid, c: nat)
    decreases |steps|
  {
    && |InFlightOf(s, agent)| <= c
    && (|steps| == 0 ||
        (var s' := Next(max, s, steps[0]); s'.Some? ==> AtMostAtOnce(max, s'.value, steps[1..], agent, c)))
  }

  ghost function Run(max: nat, s: State, steps: seq<Step>): Option<State>
    decreases |steps|
  {
    if |steps| == 0 then Some(s)
    else
      var s' := Next(max, s, steps[0]);
      if s'.None? then None else Run(max, s'.value, steps[1..])
  }

  /** The limits, with every request in flight counted as if it had already inserted its grant. */
  ghost predicate Bounded(max: nat, s: State, agent: Uuid, c: nat) {
    && |PendingOf(s.rows, agent)| + |InFlightOf(s, agent)| <= max + c - 1
    && forall p :: |PendingFor(s, agent, p)| + |InsertingFor(s, agent, p)| <= c
  }

  lemma {:induction false} Fewer(a: set<nat>, b: set<nat>)
    requires a <= b
    ensures |a| <= |b|
    decreases |b|
  {
    if a != {} {
      var x :| x in a;
      Fewer(a - {x}, b - {x});
    }
  }

  lemma CountKeepsBounded(max: nat, s: State, step: Step, s': State, agent: Uuid, c: nat)
    requires Bounded(max, s, agent, c) && Next(max, s, step) == Some(s') && step.Count? && |InFlightOf(s', agent)| <= c
    ensures Bounded(max, s', agent, c)
  {
    if step.agent != agent {
      assert InFlightOf(s', agent) == InFlightOf(s, agent);
    }
    forall p
      ensures |PendingFor(s', agent, p)| + |InsertingFor(s', agent, p)| <= c
    {
      assert InsertingFor(s', agent, p) == InsertingFor(s, agent, p);
      assert PendingFor(s', agent, p) == PendingFor(s, agent, p);
    }
  }

  lemma FindKeepsBounded(max: nat, s: State, step: Step, s': State, agent: Uuid, c: nat)
    requires Bounded(max, s, agent, c) && Next(max, s, step) == Some(s') && step.Find? && |InFlightOf(s', agent)| <= c
    ensures Bounded(max, s', agent, c)
  {
    Fewer(InFlightOf(s', agent), InFlightOf(s, agent));
    forall p
      ensures |PendingFor(s', agent, p)| + |InsertingFor(s', agent, p)| <= c
    {
      assert PendingFor(s', agent, p) == PendingFor(s, agent, p);
      if step.task in s'.tasks && s'.tasks[step.task] == Absent(agent, p) {
        assert PendingFor(s, agent, p) == {};
        Fewer(InsertingFor(s', agent, p), InFlightOf(s', agent));
      } else {
        assert InsertingFor(s', agent, p) == InsertingFor(s, agent, p);
      }
    }
  }

  lemma PendingGrows(rows: map<Uuid, GrantRow>, id: Uuid, row: GrantRow, agent: Uuid)
    requires id !in rows && row.status == Pending
    ensures PendingOf(rows[id := row], agent) == PendingOf(rows, agent) + if row.agent == agent then {id} else {}
    ensures id !in PendingOf(rows, agent)
  {
  }

  /** The grant takes the place of the request that inserts it. */
  lemma InsertCounts(s: State, t: nat, id: Uuid, row: GrantRow, s': State, agent: Uuid)
    requires t in s.tasks && s.tasks[t].agent == row.agent && id !in s.rows && row.status == Pending
    requires s' == State(s.rows[id := row], s.tasks - {t})
    ensures |PendingOf(s'.rows, agent)| + |InFlightOf(s', agent)| == |PendingOf(s.rows, agent)| + |InFlightOf(s, agent)|
  {
    PendingGrows(s.rows, id, row, agent);
    assert InFlightOf(s', agent) == InFlightOf(s, agent) - {t};
    assert t in InFlightOf(s, agent) <==> row.agent == agent;
  }

  lemma PendingForGrows(s: State, id: Uuid, row: GrantRow, s': State, agent: Uuid, p: Uuid)
    requires id !in s.rows && row.status == Pending && s'.rows == s.rows[id := row]
    ensures PendingFor(s', agent, p) ==
      PendingFor(s, agent, p) + if row.agent == agent && row.provider == p then {id} else {}
    ensures id !in PendingFor(s, agent, p)
  {
  }

  lemma InsertCountsFor(s: State, t: nat, id: Uuid, row: GrantRow, s': State, agent: Uuid, p: Uuid)
    requires t in s.tasks && s.tasks[t] == Absent(row.agent, row.provider) && id !in s.rows && row.status == Pending
    requires s' == State(s.rows[id := row], s.tasks - {t})
    ensures |PendingFor(s', agent, p)| + |InsertingFor(s', agent, p)| ==
      |PendingFor(s, agent, p)| + |InsertingFor(s, agent, p)|
  {
    PendingForGrows(s, id, row, s', agent, p);
    assert InsertingFor(s', agent, p) == InsertingFor(s, agent, p) - {t};
    assert t in InsertingFor(s, agent, p) <==> row.agent == agent && row.provider == p;
  }

  lemma InsertKeepsBounded(max: nat, s: State, step: Step, s': State, agent: Uuid, c: nat)
    requires Bounded(max, s, agent, c) && Next(max, s, step) == Some(s') && step.Insert?
    ensures Bounded(max, s', agent, c)
  {
    InsertCounts(s, step.task, step.id, step.row, s', agent);
    forall p
      ensures |PendingFor(s', agent, p)| + |InsertingFor(s', agent, p)| <= c
    {
      InsertCountsFor(s, step.task, step.id, step.row, s', agent, p);
    }
  }

  lemma LeaveKeepsBounded(max: nat, s: State, step: Step, s': State, agent: Uuid, c: nat)
    requires Bounded(max, s, agent, c) && Next(max, s, step) == Some(s') && (step.Abandon? || step.Decide?)
    ensures Bounded(max, s', agent, c)
  {
    Fewer(PendingOf(s'.rows, agent), PendingOf(s.rows, agent));
    Fewer(InFlightOf(s', agent), InFlightOf(s, agent));
    forall p
      ensures |PendingFor(s', agent, p)| + |InsertingFor(s', agent, p)| <= c
    {
      Fewer(PendingFor(s', agent, p), PendingFor(s, agent, p));
      Fewer(InsertingFor(s', agent, p), InsertingFor(s, agent, p));
    }
  }

  lemma StepKeepsBounded(max: nat, s: State, step: Step, s': State, agent: Uuid, c: nat)
    requires Bounded(max, s, agent, c) && Next(max, s, step) == Some(s') && |InFlightOf(s', agent)| <= c
    ensures Bounded(max, s', agent, c)
  {
    match step {
      case Count(_, _, _) => CountKeepsBounded(max, s, step, s', agent, c);
      case Find(_) => FindKeepsBounded(max, s, step, s', agent, c);
      case Insert(_, _, _) => InsertKeepsBounded(max, s, step, s', agent, c);
      case _ => LeaveKeepsBounded(max, s, step, s', agent, c);
    }
  }

  lemma {:induction false} RunKeepsBounded(max: nat, s: State, steps: seq<Step>, s': State, agent: Uuid, c: nat)
    requires Bounded(max, s, agent, c) && Run(max, s, steps) == Some(s') && AtMostAtOnce(max, s, steps, agent, c)
    ensures Bounded(max, s', agent, c)
    decreases |steps|
  {
    if |steps| != 0 {
      var mid := Next(max, s, steps[0]).value;
      StepKeepsBounded(max, s, steps[0], mid, agent, c);
      RunKeepsBounded(max, mid, steps[1..], s', agent, c);
    }
  }

  /** With at most `c` requests of an agent in flight at once, it never has more than `max + c - 1` pending
      grants, nor more than `c` for one provider; without overlap the limits hold as they are meant. */
  lemma OvershootIsBounded(max: nat, s0: State, steps: seq<Step>, s: State, agent: Uuid, c: nat)
    requires Limited(s0.rows, max) && s0.tasks == map[] && c >= 1
    requires Run(max, s0, steps) == Some(s) && AtMostAtOnce(max, s0, steps, agent, c)
    ensures |PendingOf(s.rows, agent)| <= max + c - 1
    ensures forall p :: |PendingFor(s, agent, p)| <= c
  {
    assert |PendingOf(s0.rows, agent)| <= max && InFlightOf(s0, agent) == {};
    forall p
      ensures |PendingFor(s0, agent, p)| + |InsertingFor(s0, agent, p)| <= c
    {
      assert InsertingFor(s0, agent, p) == {};
      AtMostOne(PendingFor(s0, agent, p));
    }
    RunKeepsBounded(max, s0, steps, s, agent, c);
  }

  lemma AtMostOne(a: set<nat>)
    requires forall x, y :: x in a && y in a ==> x == y
    ensures |a| <= 1
  {
    if a != {} {
      var x :| x in a;
      assert a == {x};
    }
  }
}
