/** Requesting and deciding grants one request at a time: the grant table and the service above it. */
module Grants {
  import opened Wrappers
  import opened Records
  import opened Capabilities

  function PendingOf(rows: map<Uuid, GrantRow>, agent: Uuid): set<Uuid> {
    set g | g in rows && rows[g].agent == agent && rows[g].status == Pending
  }

  predicate PendingAt(rows: map<Uuid, GrantRow>, agent: Uuid, provider: Uuid, g: Uuid) {
    g in rows && rows[g].agent == agent && rows[g].provider == provider && rows[g].status == Pending
  }

  /** `found` is a most recent pending grant for the pair, or none when there is none. */
  ghost predicate FindsPending(rows: map<Uuid, GrantRow>, agent: Uuid, provider: Uuid, found: Option<Uuid>) {
    match found
    case None => forall g :: !PendingAt(rows, agent, provider, g)
    case Some(h) =>
      && PendingAt(rows, agent, provider, h)
      && forall g :: PendingAt(rows, agent, provider, g) ==> rows[g].requestedAt <= rows[h].requestedAt
  }

  /** Each agent has at most `max` pending grants, and at most one per service provider. */
  ghost predicate Limited(rows: map<Uuid, GrantRow>, max: nat) {
    && (forall a :: |PendingOf(rows, a)| <= max)
    && (forall a, p, g, h :: PendingAt(rows, a, p, g) && PendingAt(rows, a, p, h) ==> g == h)
  }

  class GrantTable {
    var rows: map<Uuid, GrantRow>

    constructor ()
      ensures rows == map[]
    {
      rows := map[];
    }

    method FindPending(agent: Uuid, provider: Uuid) returns (found: Option<Uuid>)
      ensures FindsPending(rows, agent, provider, found)
      ensures found.None? <==>
        forall g :: g in rows ==> rows[g].agent != agent || rows[g].provider != provider || rows[g].status != Pending
      ensures found.Some? ==>
        && found.value in rows && rows[found.value].agent == agent && rows[found.value].provider == provider
        && rows[found.value].status == Pending
        && forall g ::
          g in rows && rows[g].agent == agent && rows[g].provider == provider && rows[g].status == Pending ==>
            rows[g].requestedAt <= rows[found.value].requestedAt
    {
      found := None;
      var rest := rows.Keys;
      while rest != {}
        invariant rest <= rows.Keys
        invariant found.None? ==> forall g :: g in rows.Keys - rest ==> !PendingAt(rows, agent, provider, g)
        invariant found.Some? ==> PendingAt(rows, agent, provider, found.value)
        invariant found.Some? ==> forall g :: g in rows.Keys - rest && PendingAt(rows, agent, provider, g) ==>
          rows[g].requestedAt <= rows[found.value].requestedAt
        decreases |rest|
      {
        var g :| g in rest;
        rest := rest - {g};
        if PendingAt(rows, agent, provider, g) && (found.None? || rows[found.value].requestedAt < rows[g].requestedAt) {
          found := Some(g);
        }
      }
      assert forall g :: PendingAt(rows, agent, provider, g) ==> g in rows.Keys - rest;
      NonePendingIff(rows, agent, provider);
    }

    method Insert(g: Uuid, row: GrantRow)
      requires g !in rows
      modifies this
      ensures rows == old(rows)[g := row]
    {
      rows := rows[g := row];
    }

    /** The UPDATE guarded by the status it starts from; true when it changed the row. */
    method Decide(g: Uuid, from: GrantStatus, to: GrantStatus, caps: Option<seq<Capability>>) returns (changed: bool)
      modifies this
      ensures changed == (g in old(rows) && old(rows)[g].status == from)
      ensures !changed ==> rows == old(rows)
      ensures changed ==>
        var kept := if caps.Some? then caps.value else old(rows)[g].caps;
        rows == old(rows)[g := old(rows)[g].(status := to, caps := kept)]
    {
      changed := g in rows && rows[g].status == from;
      if changed {
        rows := rows[g := rows[g].(status := to, caps := if caps.Some? then caps.value else rows[g].caps)];
      }
    }
  }

  lemma NonePendingIff(rows: map<Uuid, GrantRow>, agent: Uuid, provider: Uuid)
    ensures FindsPending(rows, agent, provider, None) <==>
      forall g :: g in rows ==> rows[g].agent != agent || rows[g].provider != provider || rows[g].status != Pending
  {
    assert forall g :: g in rows && !PendingAt(rows, agent, provider, g) ==>
      rows[g].agent != agent || rows[g].provider != provider || rows[g].status != Pending;
  }

  datatype GrantError =
    | DatabaseError
    | TooManyPendingGrants
    | AgentNotFound
    | GrantNotFound
    | GrantNotPending
    | GrantExpired
    | InvalidCapability

  /** What one request meets: the clock, the fresh id, how each query fares, the agent's owner if the
      agent exists, and how the insert fares. */
  datatype RequestRun = RequestRun(
    clock: int, id: Uuid, countOk: bool, agentOk: bool, human: Option<Uuid>, findOk: bool, insert: Fate)

  class GrantService {
    const db: GrantTable
    const maxPendingPerAgent: nat
    const expirySecs: nat

    constructor (db: GrantTable, maxPendingPerAgent: nat, expirySecs: nat)
      ensures this.db == db && this.maxPendingPerAgent == maxPendingPerAgent && this.expirySecs == expirySecs
    {
      this.db, this.maxPendingPerAgent, this.expirySecs := db, maxPendingPerAgent, expirySecs;
    }

    ghost predicate Valid()
      reads this, db
    {
      Limited(db.rows, maxPendingPerAgent)
    }

    /** The checks before the insert all go through. */
    ghost predicate Passes(rows: map<Uuid, GrantRow>, agent: Uuid, run: RequestRun) {
      run.countOk && |PendingOf(rows, agent)| < maxPendingPerAgent && run.agentOk && run.human.Some? && run.findOk
    }

    /** An insert that happened is not undone when its reply is lost. */
    method RequestGrant(agent: Uuid, provider: Uuid, caps: seq<Capability>, envelope: Envelope, run: RequestRun)
      returns (r: Result<(Uuid, GrantRow), GrantError>)
      requires Valid() && run.id !in db.rows
      modifies db
      ensures Valid()
      ensures
        var pending := set g | g in old(db.rows) && old(db.rows)[g].agent == agent && old(db.rows)[g].status == Pending;
        && (r == Err(TooManyPendingGrants) <==> run.countOk && |pending| >= maxPendingPerAgent)
        && (r == Err(AgentNotFound) <==>
              run.countOk && |pending| < maxPendingPerAgent && run.agentOk && run.human.None?)
        && (Passes(old(db.rows), agent, run) <==>
              run.countOk && |pending| < maxPendingPerAgent && run.agentOk && run.human.Some? && run.findOk)
      ensures !Passes(old(db.rows), agent, run) ==>
        r.Err? && r.error in {TooManyPendingGrants, AgentNotFound, DatabaseError} && db.rows == old(db.rows)
      ensures Passes(old(db.rows), agent, run) && !FindsPending(old(db.rows), agent, provider, None) ==>
        && r.Ok? && FindsPending(db.rows, agent, provider, Some(r.value.0))
        && r.value.1 == db.rows[r.value.0] && db.rows == old(db.rows)
      ensures Passes(old(db.rows), agent, run) && FindsPending(old(db.rows), agent, provider, None) ==>
        && (r.Ok? <==> run.insert.Done?) && (r.Err? ==> r == Err(DatabaseError))
        && (r.Ok? ==> r.value.0 == run.id && run.id in db.rows && r.value.1 == db.rows[run.id])
        && (run.insert.Failed? ==> db.rows == old(db.rows))
      ensures
        Passes(old(db.rows), agent, run) && FindsPending(old(db.rows), agent, provider, None) && !run.insert.Failed? ==>
          && run.id in db.rows && db.rows == old(db.rows)[run.id := db.rows[run.id]]
          && (var row := db.rows[run.id];
              && row.agent == agent && row.provider == provider && row.human == run.human.value
              && row.caps == caps && row.envelope == envelope && row.status == Pending
              && row.requestedAt == run.clock && row.expiresAt == run.clock + expirySecs * SECOND)
      ensures
        FindsPending(old(db.rows), agent, provider, None) <==>
          forall g :: g in old(db.rows) ==>
            var row := old(db.rows)[g];
            row.agent != agent || row.provider != provider || row.status != Pending
      ensures Passes(old(db.rows), agent, run) && !run.insert.Failed? ==>
        var row := GrantRow(agent, provider, run.human.value, caps, envelope, Pending, run.clock,
                            run.clock + expirySecs * SECOND);
        db.rows == Request(old(db.rows), maxPendingPerAgent, run.id, row)
    {
      NonePendingIff(db.rows, agent, provider);
      assert PendingOf(db.rows, agent) ==
        set g | g in db.rows && db.rows[g].agent == agent && db.rows[g].status == Pending;
      if !run.countOk {
        return Err(DatabaseError);
      }
      var pending := |PendingOf(db.rows, agent)|;
      if pending >= maxPendingPerAgent {
        return Err(TooManyPendingGrants);
      }
      if !run.agentOk {
        return Err(DatabaseError);
      }
      if run.human.None? {
        return Err(AgentNotFound);
      }
      if !run.findOk {
        return Err(DatabaseError);
      }
      var existing := db.FindPending(agent, provider);
      if existing.Some? {
        return Ok((existing.value, db.rows[existing.value]));
      }
      if run.insert.Failed? {
        return Err(DatabaseError);
      }
      var row := GrantRow(agent, provider, run.human.value, caps, envelope, Pending, run.clock,
                          run.clock + expirySecs * SECOND);
      InsertKeepsLimited(db.rows, maxPendingPerAgent, run.id, row);
      db.Insert(run.id, row);
      if run.insert.Lost? {
        return Err(DatabaseError);
      }
      return Ok((run.id, row));
    }

    method AnyHasKey(key: string, caps: seq<Capability>) returns (found: bool)
      ensures found <==> HasKey(key, caps)
    {
      for i := 0 to |caps|
        invariant forall r :: r in caps[..i] ==> TypeKey(r) != key
      {
        if TypeKey(caps[i]) == key {
          return true;
        }
      }
      return false;
    }

    /** The first capability outside the original request, if there is one. */
    method FirstOutside(caps: seq<Capability>, original: seq<Capability>) returns (outside: Option<Capability>)
      ensures outside.None? <==> Within(caps, original)
      ensures outside.Some? ==>
        exists i :: 0 <= i < |caps| && caps[i] == outside.value && !HasKey(TypeKey(caps[i]), original) &&
          Within(caps[..i], original)
    {
      for i := 0 to |caps|
        invariant forall k :: 0 <= k < i ==> HasKey(TypeKey(caps[k]), original)
      {
        var inOriginal := AnyHasKey(TypeKey(caps[i]), original);
        if !inOriginal {
          return Some(caps[i]);
        }
      }
      return None;
    }

    /** The subset that is granted has to be non-empty and to have keys of the original request only. */
    method ApproveGrant(g: Uuid, subset: Option<seq<Capability>>, now: int, readOk: bool, update: Fate)
      returns (r: Result<GrantRow, GrantError>)
      requires Valid()
      modifies db
      ensures Valid()
      ensures r == Err(GrantNotFound) <==> readOk && g !in old(db.rows)
      ensures r == Err(GrantNotPending) <==> readOk && g in old(db.rows) && old(db.rows)[g].status != Pending
      ensures r == Err(GrantExpired) <==>
        readOk && g in old(db.rows) && old(db.rows)[g].status == Pending && now > old(db.rows)[g].expiresAt
      ensures r == Err(InvalidCapability) <==>
        && readOk && g in old(db.rows) && old(db.rows)[g].status == Pending && now <= old(db.rows)[g].expiresAt
        && subset.Some? && (subset.value == [] || !Within(subset.value, old(db.rows)[g].caps))
      ensures r == Err(DatabaseError) <==>
        || !readOk
        || (&& g in old(db.rows) && old(db.rows)[g].status == Pending && now <= old(db.rows)[g].expiresAt
            && (subset.Some? ==> subset.value != [] && Within(subset.value, old(db.rows)[g].caps))
            && !update.Done?)
      ensures r.Err? ==> r.error in {DatabaseError, GrantNotFound, GrantNotPending, GrantExpired, InvalidCapability}
      ensures r.Ok? && subset.Some? ==>
        && subset.value != []
        && forall c :: c in subset.value ==> exists q :: q in old(db.rows)[g].caps && TypeKey(q) == TypeKey(c)
      ensures r.Ok? ==>
        && g in db.rows && r.value == db.rows[g] && r.value.status == Approved
        && r.value.caps == if subset.Some? then subset.value else old(db.rows)[g].caps
      ensures r.Ok? || (r == Err(DatabaseError) && readOk && update.Lost?) ==>
        && g in old(db.rows)
        && (var resolved := if subset.Some? then subset.value else old(db.rows)[g].caps;
            db.rows == old(db.rows)[g := old(db.rows)[g].(status := Approved, caps := resolved)])
      ensures r.Err? && (r.error != DatabaseError || !readOk || update.Failed?) ==> db.rows == old(db.rows)
    {
      if !readOk {
        return Err(DatabaseError);
      }
      if g !in db.rows {
        return Err(GrantNotFound);
      }
      var grant := db.rows[g];
      if grant.status != Pending {
        return Err(GrantNotPending);
      }
      if now > grant.expiresAt {
        return Err(GrantExpired);
      }
      var resolved := grant.caps;
      if subset.Some? {
        if subset.value == [] {
          return Err(InvalidCapability);
        }
        var outside := FirstOutside(subset.value, grant.caps);
        if outside.Some? {
          return Err(InvalidCapability);
        }
        resolved := subset.value;
      }
      if update.Failed? {
        return Err(DatabaseError);
      }
      LeavePendingKeepsLimited(db.rows, maxPendingPerAgent, g, grant.(status := Approved, caps := resolved));
      var approved := db.Decide(g, Pending, Approved, Some(resolved));
      if update.Lost? {
        return Err(DatabaseError);
      }
      return Ok(grant.(status := Approved, caps := resolved));
    }

    method DenyGrant(g: Uuid, readOk: bool, update: Fate) returns (r: Result<GrantRow, GrantError>)
      requires Valid()
      modifies db
      ensures Valid()
      ensures r.Ok? <==> readOk && g in old(db.rows) && old(db.rows)[g].status == Pending && update.Done?
      ensures db.rows ==
        if readOk && g in old(db.rows) && old(db.rows)[g].status == Pending && !update.Failed?
        then old(db.rows)[g := old(db.rows)[g].(status := Denied)] else old(db.rows)
      ensures r.Ok? ==> r.value == db.rows[g]
      ensures r == Err(GrantNotFound) <==> readOk && g !in old(db.rows)
      ensures r == Err(GrantNotPending) <==> readOk && g in old(db.rows) && old(db.rows)[g].status != Pending
      ensures r.Ok? || r.error in {GrantNotFound, GrantNotPending, DatabaseError}
    {
      if !readOk {
        return Err(DatabaseError);
      }
      if g !in db.rows {
        return Err(GrantNotFound);
      }
      var grant := db.rows[g];
      if grant.status != Pending {
        return Err(GrantNotPending);
      }
      if update.Failed? {
        return Err(DatabaseError);
      }
      LeavePendingKeepsLimited(db.rows, maxPendingPerAgent, g, grant.(status := Denied));
      var denied := db.Decide(g, Pending, Denied, None);
      if update.Lost? {
        return Err(DatabaseError);
      }
      return Ok(grant.(status := Denied));
    }

    method RevokeGrant(g: Uuid, update: Fate, readOk: bool) returns (r: Result<(), GrantError>)
      requires Valid()
      modifies db
      ensures Valid()
      ensures r.Ok? <==> g in old(db.rows) && old(db.rows)[g].status == Approved && update.Done?
      ensures db.rows ==
        if g in old(db.rows) && old(db.rows)[g].status == Approved && !update.Failed?
        then old(db.rows)[g := old(db.rows)[g].(status := Revoked)] else old(db.rows)
      ensures r == Err(GrantNotFound) <==> update.Done? && readOk && g !in old(db.rows)
      ensures r == Err(GrantNotPending) <==>
        update.Done? && readOk && g in old(db.rows) && old(db.rows)[g].status != Approved
      ensures r.Ok? || r.error in {GrantNotFound, GrantNotPending, DatabaseError}
    {
      if update.Failed? {
        return Err(DatabaseError);
      }
      ghost var rows := db.rows;
      var revoked := db.Decide(g, Approved, Revoked, None);
      if revoked {
        LeavePendingKeepsLimited(rows, maxPendingPerAgent, g, rows[g].(status := Revoked));
      }
      if update.Lost? {
        return Err(DatabaseError);
      }
      if !revoked {
        if !readOk {
          return Err(DatabaseError);
        }
        return Err(if g in db.rows then GrantNotPending else GrantNotFound);
      }
      return Ok(());
    }
  }

  lemma InsertKeepsLimited(rows: map<Uuid, GrantRow>, max: nat, id: Uuid, row: GrantRow)
    requires Limited(rows, max) && id !in rows && row.status == Pending
    requires |PendingOf(rows, row.agent)| < max && FindsPending(rows, row.agent, row.provider, None)
    ensures Limited(rows[id := row], max)
    ensures |PendingOf(rows[id := row], row.agent)| == |PendingOf(rows, row.agent)| + 1
  {
    var rows' := rows[id := row];
    assert PendingOf(rows', row.agent) == PendingOf(rows, row.agent) + {id};
    forall a
      ensures |PendingOf(rows', a)| <= max
    {
      assert a != row.agent ==> PendingOf(rows', a) == PendingOf(rows, a);
    }
    forall a, p, g, h | PendingAt(rows', a, p, g) && PendingAt(rows', a, p, h)
      ensures g == h
    {
      assert !PendingAt(rows, row.agent, row.provider, g) && !PendingAt(rows, row.agent, row.provider, h);
      assert g != id ==> PendingAt(rows, a, p, g);
      assert h != id ==> PendingAt(rows, a, p, h);
    }
  }

  lemma LeavePendingKeepsLimited(rows: map<Uuid, GrantRow>, max: nat, g: Uuid, row: GrantRow)
    requires Limited(rows, max) && g in rows && row.status != Pending
    ensures Limited(rows[g := row], max)
  {
    var rows' := rows[g := row];
    forall a
      ensures |PendingOf(rows', a)| <= max
    {
      assert PendingOf(rows', a) == PendingOf(rows, a) - {g};
    }
    assert forall a, p, h :: PendingAt(rows', a, p, h) ==> PendingAt(rows, a, p, h);
  }

  /** The table after a request for `row` under the fresh id `id`, when every call succeeds. */
  ghost function Request(rows: map<Uuid, GrantRow>, max: nat, id: Uuid, row: GrantRow): map<Uuid, GrantRow> {
    if |PendingOf(rows, row.agent)| >= max || !FindsPending(rows, row.agent, row.provider, None) then rows
      else rows[id := row]
  }

  ghost function RequestAll(rows: map<Uuid, GrantRow>, max: nat, ids: seq<Uuid>, reqs: seq<GrantRow>)
    : map<Uuid, GrantRow>
    requires |ids| == |reqs|
    decreases |reqs|
  {
    if |reqs| == 0 then rows else RequestAll(Request(rows, max, ids[0], reqs[0]), max, ids[1..], reqs[1..])
  }

  /** Requests of one agent for distinct providers, none of them pending yet, under distinct fresh ids. */
  predicate Flood(rows: map<Uuid, GrantRow>, agent: Uuid, ids: seq<Uuid>, reqs: seq<GrantRow>) {
    && |ids| == |reqs|
    && (forall i :: 0 <= i < |reqs| ==> reqs[i].agent == agent && reqs[i].status == Pending && ids[i] !in rows)
    && (forall i, j :: 0 <= i < j < |reqs| ==> ids[i] != ids[j] && reqs[i].provider != reqs[j].provider)
    && (forall i, g :: 0 <= i < |reqs| && g in rows ==> !PendingAt(rows, agent, reqs[i].provider, g))
  }

  /** Requests one after the other fill the agent's quota and then stop: exactly as many grants become
      pending as there were places left. */
  lemma {:induction false} FloodFillsTheQuota(rows: map<Uuid, GrantRow>, max: nat, agent: Uuid, ids: seq<Uuid>,
                                              reqs: seq<GrantRow>)
    requires Limited(rows, max) && Flood(rows, agent, ids, reqs)
    ensures
      var room := max - |PendingOf(rows, agent)|;
      |PendingOf(RequestAll(rows, max, ids, reqs), agent)| ==
        |PendingOf(rows, agent)| + if |reqs| < room then |reqs| else room
    ensures Limited(RequestAll(rows, max, ids, reqs), max)
    decreases |reqs|
  {
    if |reqs| != 0 {
      assert |PendingOf(rows, agent)| <= max;
      if |PendingOf(rows, agent)| < max {
        assert forall g :: !PendingAt(rows, agent, reqs[0].provider, g);
        InsertKeepsLimited(rows, max, ids[0], reqs[0]);
      }
      FloodFillsTheQuota(Request(rows, max, ids[0], reqs[0]), max, agent, ids[1..], reqs[1..]);
    }
  }
}
