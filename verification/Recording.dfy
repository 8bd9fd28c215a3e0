/** Recording audit events with the handlers interleaved: each reads the head in memory, inserts its row,
    and then writes the head back; the process may restart at any point. */
module Recording {
  import opened Wrappers
  import opened AuditChain

  /** A handler that read the head, when the log had `length` rows and the head was or was not the hash
      of the last of them; or one that stored its row and has yet to write the head. */
  datatype Task = Reading(head: Hash, length: nat, current: bool) | Storing(rowHash: Hash)

  datatype State = State(rows: seq<Row>, head: Hash, tasks: map<nat, Task>)

  datatype Step =
    | Read(task: nat)
    | Insert(task: nat, id: Bytes, eventType: Bytes, fields: Fields, fate: Fate)
    | WriteHead(task: nat)
    | Abandon(task: nat)
    | Restart

  function RowOf(head: Hash, step: Step): Row
    requires step.Insert?
  {
    var digest := Content(step.id, step.eventType, step.fields);
    Row(step.id, step.eventType, step.fields, head, Chained(head, digest))
  }

  /** The state after a step, or none when it cannot be taken. A failed signature abandons the handler. */
  function Next(s: State, step: Step): Option<State> {
    match step
    case Read(t) =>
      if t in s.tasks then None
      else Some(s.(tasks := s.tasks[t := Reading(s.head, |s.rows|, s.head == Head(s.rows))]))
    case Insert(t, _, _, _, fate) =>
      if t !in s.tasks || !s.tasks[t].Reading? then None
      else
        var row := RowOf(s.tasks[t].head, step);
        Some(s.(rows := if fate.Failed? then s.rows else s.rows + [row],
                tasks := if fate.Done? then s.tasks[t := Storing(row.rowHash)] else s.tasks - {t}))
    case WriteHead(t) =>
      if t in s.tasks && s.tasks[t].Storing? then Some(s.(head := s.tasks[t].rowHash, tasks := s.tasks - {t})) else None
    case Abandon(t) => if t in s.tasks then Some(s.(tasks := s.tasks - {t})) else None
    case Restart => Some(s.(head := Genesis, tasks := map[]))
  }

  function Run(s: State, steps: seq<Step>): Option<State>
    decreases |steps|
  {
    if |steps| == 0 then Some(s)
    else
      var s' := Next(s, steps[0]);
      if s'.None? then None else Run(s'.value, steps[1..])
  }

  predicate StoresRow(step: Step) {
    step.Insert? && !step.fate.Failed?
  }

  /** If the step stores a row, its handler read the hash of the row that was then the last, and no row has
      been stored since. */
  predicate Undisturbed(s: State, step: Step) {
    StoresRow(step) && step.task in s.tasks && s.tasks[step.task].Reading? ==>
      s.tasks[step.task].current && s.tasks[step.task].length == |s.rows|
  }

  predicate AllUndisturbed(s: State, steps: seq<Step>)
    decreases |steps|
  {
    |steps| == 0 ||
    (Undisturbed(s, steps[0]) && (Next(s, steps[0]).Some? ==> AllUndisturbed(Next(s, steps[0]).value, steps[1..])))
  }

  /** No hash in memory is deeper than the log is long, and what a handler knows about its read is right. */
  ghost predicate Inv(s: State) {
    && Depth(s.head) <= |s.rows|
    && (forall t :: t in s.tasks && s.tasks[t].Storing? ==> Depth(s.tasks[t].rowHash) <= |s.rows|)
    && (forall t :: t in s.tasks && s.tasks[t].Reading? ==> ReadSound(s, s.tasks[t]))
  }

  predicate ReadSound(s: State, task: Task)
    requires task.Reading?
  {
    && Depth(task.head) <= task.length <= |s.rows|
    && (task.current <==> task.head == Head(s.rows[..task.length]))
  }

  lemma StepKeepsInv(s: State, step: Step, s': State)
    requires Inv(s) && Next(s, step) == Some(s')
    ensures Inv(s')
  {
    assert s.rows[..|s.rows|] == s.rows;
    forall t | t in s'.tasks && s'.tasks[t].Reading?
      ensures ReadSound(s', s'.tasks[t])
    {
      if t in s.tasks && s'.tasks[t] == s.tasks[t] {
        assert ReadSound(s, s.tasks[t]);
        assert s'.rows[..s.tasks[t].length] == s.rows[..s.tasks[t].length];
      }
    }
    if step.Insert? {
      assert ReadSound(s, s.tasks[step.task]);
    }
  }

  /** While the log is valid, a handler holds its last hash exactly when it read it and nothing was stored since. */
  lemma HoldsLastHashIff(s: State, t: nat)
    requires Inv(s) && ValidChain(s.rows) && t in s.tasks && s.tasks[t].Reading?
    ensures s.tasks[t].head == Head(s.rows) <==> s.tasks[t].current && s.tasks[t].length == |s.rows|
  {
    var task := s.tasks[t];
    assert ReadSound(s, task) && s.rows[..|s.rows|] == s.rows;
    if task.length < |s.rows| {
      DepthIsPosition(s.rows, |s.rows| - 1);
    }
  }

  /** A step keeps a valid log valid exactly when it is undisturbed; a broken log stays broken. */
  lemma StepValidIff(s: State, step: Step, s': State)
    requires Inv(s) && Next(s, step) == Some(s')
    ensures ValidChain(s'.rows) <==> ValidChain(s.rows) && Undisturbed(s, step)
  {
    if StoresRow(step) {
      var task := s.tasks[step.task];
      AppendValidIff(s.rows, RowOf(task.head, step));
      if ValidChain(s.rows) {
        HoldsLastHashIff(s, step.task);
      }
    }
  }

  lemma {:induction false} BrokenStaysBroken(s: State, steps: seq<Step>, s': State)
    requires Inv(s) && !ValidChain(s.rows) && Run(s, steps) == Some(s')
    ensures !ValidChain(s'.rows)
    decreases |steps|
  {
    if |steps| != 0 {
      var mid := Next(s, steps[0]).value;
      StepKeepsInv(s, steps[0], mid);
      StepValidIff(s, steps[0], mid);
      BrokenStaysBroken(mid, steps[1..], s');
    }
  }

  /** Over every interleaving of recordings, with inserts failing or losing their reply, handlers abandoned
      and the process restarted, the log verifies exactly when every row was stored by a handler that had
      read the hash of the last row, with no row stored in between. */
  lemma {:induction false} LogVerifiesIff(s: State, steps: seq<Step>, s': State)
    requires Inv(s) && ValidChain(s.rows) && Run(s, steps) == Some(s')
    ensures ValidChain(s'.rows) <==> AllUndisturbed(s, steps)
    decreases |steps|
  {
    if |steps| != 0 {
      var mid := Next(s, steps[0]).value;
      StepKeepsInv(s, steps[0], mid);
      StepValidIff(s, steps[0], mid);
      if Undisturbed(s, steps[0]) {
        LogVerifiesIff(mid, steps[1..], s');
      } else {
        BrokenStaysBroken(mid, steps[1..], s');
      }
    }
  }
}
