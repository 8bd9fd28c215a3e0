/** The hash chain of audit events: the service that extends it, the endpoint that checks it, and what
    passing the check says about the log. Hashes are symbolic terms, so two of them are equal only when
    they were computed from equal inputs, and no computed hash is the all-zero genesis. */
module AuditChain {
  import opened Wrappers

  type Bytes = seq<bv8>

  datatype Digest = Sha256(input: Bytes)

  datatype Hash = Genesis | Chained(prev: Hash, digest: Digest)

  /** The recorded fields of an event; identifiers and texts are the bytes that get hashed. */
  datatype Fields = Fields(
    agent: Option<Bytes>,
    provider: Option<Bytes>,
    human: Option<Bytes>,
    grant: Option<Bytes>,
    token: Option<Bytes>,
    data: Bytes,
    outcome: Bytes)

  datatype AuditEvent = AuditEvent(eventType: Option<Bytes>, fields: Fields)

  datatype Row = Row(id: Bytes, eventType: Bytes, fields: Fields, prev: Hash, rowHash: Hash)

  function BytesOf(o: Option<Bytes>): Bytes {
    if o.Some? then o.value else []
  }

  /** Feeding a field to the hasher, if it is present. */
  function Feed(hasher: Bytes, o: Option<Bytes>): (r: Bytes)
    ensures r == hasher + BytesOf(o)
  {
    if o.Some? then hasher + o.value else hasher
  }

  /** The digest of a row's content: its fields in order, without separators. */
  function Content(id: Bytes, eventType: Bytes, f: Fields): Digest {
    Sha256(id + eventType + BytesOf(f.agent) + BytesOf(f.provider) + BytesOf(f.human) + BytesOf(f.grant) +
      BytesOf(f.token) + f.data + f.outcome)
  }

  function RowDigest(r: Row): Digest {
    Content(r.id, r.eventType, r.fields)
  }

  function Head(rows: seq<Row>): Hash {
    if rows == [] then Genesis else rows[|rows| - 1].rowHash
  }

  /** Row `i` continues the row before it and carries the hash of its own content. */
  predicate Links(rows: seq<Row>, i: nat)
    requires i < |rows|
  {
    rows[i].prev == Head(rows[..i]) && rows[i].rowHash == Chained(rows[i].prev, RowDigest(rows[i]))
  }

  ghost predicate ValidChain(rows: seq<Row>) {
    forall i :: 0 <= i < |rows| ==> Links(rows, i)
  }

  function ForAgent(rows: seq<Row>, agent: Bytes): seq<Row> {
    if rows == [] then []
    else
      var n := |rows| - 1;
      ForAgent(rows[..n], agent) + if rows[n].fields.agent == Some(agent) then [rows[n]] else []
  }

  datatype ChainError = PreviousHashMismatch | RowHashMismatch

  datatype Report = Report(valid: bool, eventsVerified: nat, first: Option<Bytes>, last: Option<Bytes>,
    error: Option<ChainError>)

  datatype RecordError = EventTypeRequired | SigningFailed | InsertFailed

  datatype QueryError = DatabaseError | AgentNotFound

  /** The agents that are known, and the audit events in the order in which they were stored. */
  class AuditLog {
    var agents: set<Bytes>
    var rows: seq<Row>

    constructor ()
      ensures agents == {} && rows == []
    {
      agents, rows := {}, [];
    }
  }

  class AuditService {
    const db: AuditLog
    var previousHash: Hash

    constructor (db: AuditLog)
      ensures this.db == db && previousHash == Genesis
    {
      this.db, previousHash := db, Genesis;
    }

    /** Within one process lifetime: the stored chain is valid and its head is the hash held in memory. */
    ghost predicate Valid()
      reads this, db
    {
      ValidChain(db.rows) && previousHash == Head(db.rows)
    }

    method BuildHashContent(id: Bytes, event: AuditEvent) returns (content: Digest)
      ensures content == Content(id, BytesOf(event.eventType), event.fields)
      ensures
        var f := event.fields;
        content.input ==
          id + BytesOf(event.eventType) + BytesOf(f.agent) + BytesOf(f.provider) + BytesOf(f.human) +
            BytesOf(f.grant) + BytesOf(f.token) + f.data + f.outcome
      ensures event.eventType.Some? ==>
        forall prev, rowHash :: content == RowDigest(Row(id, event.eventType.value, event.fields, prev, rowHash))
    {
      var f := event.fields;
      var hasher := id;
      hasher := Feed(hasher, event.eventType);
      hasher := Feed(hasher, f.agent);
      hasher := Feed(hasher, f.provider);
      hasher := Feed(hasher, f.human);
      hasher := Feed(hasher, f.grant);
      hasher := Feed(hasher, f.token);
      hasher := hasher + f.data;
      hasher := hasher + f.outcome;
      content := Sha256(hasher);
    }

    /** A stored event continues the head held in memory; the head moves only when the insert was also
        acknowledged, and a recording that stores nothing changes nothing. */
    method Record(a: Attempt) returns (r: Result<Bytes, RecordError>)
      modifies this`previousHash, db`rows
      ensures Service(db.rows, previousHash) == RecordOne(old(Service(db.rows, previousHash)), a)
      ensures r.Ok? <==> Stores(a) && a.insert.Done?
      ensures r.Ok? ==> r.value == a.id
      ensures r == Err(InsertFailed) <==> a.event.eventType.Some? && a.signOk && !a.insert.Done?
      ensures r == Err(SigningFailed) <==> a.event.eventType.Some? && !a.signOk
      ensures Stores(a) ==>
        && |db.rows| == |old(db.rows)| + 1 && db.rows[..|old(db.rows)|] == old(db.rows)
        && (var row := db.rows[|old(db.rows)|];
            && row.id == a.id && Some(row.eventType) == a.event.eventType && row.fields == a.event.fields
            && row.prev == old(previousHash) && row.rowHash == Chained(row.prev, RowDigest(row))
            && previousHash == if r.Ok? then row.rowHash else old(previousHash))
      ensures !Stores(a) ==> db.rows == old(db.rows) && previousHash == old(previousHash)
      ensures old(Valid()) ==> (Valid() <==> !LosesReply(a))
    {
      if a.event.eventType.None? {
        return Err(EventTypeRequired);
      }
      var content := BuildHashContent(a.id, a.event);
      var previous := previousHash;
      var rowHash := Chained(previous, content);
      if !a.signOk {
        return Err(SigningFailed);
      }
      ghost var rows := db.rows;
      if !a.insert.Failed? {
        var row := Row(a.id, a.event.eventType.value, a.event.fields, previous, rowHash);
        AppendValidIff(rows, row);
        NoHashOfItself(previous, content);
        db.rows := db.rows + [row];
      }
      if !a.insert.Done? {
        return Err(InsertFailed);
      }
      previousHash := rowHash;
      return Ok(a.id);
    }
  }

  /** How the recording of an event fares: the fresh id, the signature, and the insert. */
  datatype Attempt = Attempt(event: AuditEvent, id: Bytes, signOk: bool, insert: Fate)

  /** A row is stored. */
  predicate Stores(a: Attempt) {
    a.event.eventType.Some? && a.signOk && !a.insert.Failed?
  }

  /** A row is stored, but the recorder hears of an error. */
  predicate LosesReply(a: Attempt) {
    Stores(a) && a.insert.Lost?
  }

  lemma NoHashOfItself(h: Hash, d: Digest)
    ensures Chained(h, d) != h
  {
    assert Depth(Chained(h, d)) == Depth(h) + 1;
  }

  method BuildVerificationContent(row: Row) returns (content: Digest)
    ensures content == RowDigest(row)
  {
    var f := row.fields;
    var hasher := row.id;
    hasher := hasher + row.eventType;
    hasher := Feed(hasher, f.agent);
    hasher := Feed(hasher, f.provider);
    hasher := Feed(hasher, f.human);
    hasher := Feed(hasher, f.grant);
    hasher := Feed(hasher, f.token);
    hasher := hasher + f.data;
    hasher := hasher + f.outcome;
    content := Sha256(hasher);
  }

  /** The verification loop. It counts the rows that link up to the first that does not. */
  method VerifyChain(events: seq<Row>) returns (report: Report)
    ensures report.valid <==> ValidChain(events)
    ensures report.eventsVerified <= |events| && (report.eventsVerified == |events| <==> report.valid)
    ensures forall i :: 0 <= i < report.eventsVerified ==> Links(events, i)
    ensures !report.valid ==>
      !Links(events, report.eventsVerified) && report.last == Some(events[report.eventsVerified].id)
    ensures forall i: nat :: i < |events| && !Links(events, i) && (forall k :: 0 <= k < i ==> Links(events, k)) ==>
      !report.valid && report.eventsVerified == i
    ensures report.error.None? <==> report.valid
    ensures report.error == Some(PreviousHashMismatch) <==>
      !report.valid && events[report.eventsVerified].prev != Head(events[..report.eventsVerified])
    ensures report.first == if events == [] then None else Some(events[0].id)
    ensures report.valid ==> report.last == if events == [] then None else Some(events[|events| - 1].id)
  {
    if events == [] {
      return Report(true, 0, None, None, None);
    }
    var expected := Genesis;
    var verified := 0;
    var first, last := Some(events[0].id), Some(events[|events| - 1].id);
    for i := 0 to |events|
      invariant verified == i && expected == Head(events[..i])
      invariant forall k :: 0 <= k < i ==> Links(events, k)
    {
      var event := events[i];
      if event.prev != expected {
        assert !Links(events, i);
        return Report(false, verified, first, Some(event.id), Some(PreviousHashMismatch));
      }
      var content := BuildVerificationContent(event);
      if event.rowHash != Chained(expected, content) {
        assert !Links(events, i);
        return Report(false, verified, first, Some(event.id), Some(RowHashMismatch));
      }
      expected := event.rowHash;
      verified := verified + 1;
      assert events[..i + 1][i] == event;
    }
    return Report(true, verified, first, last, None);
  }

  // What valid chains are.

  /** A row extends a log to a valid chain exactly when the log is one and the row continues its head. */
  lemma AppendValidIff(rows: seq<Row>, row: Row)
    ensures ValidChain(rows + [row]) <==>
      ValidChain(rows) && row.prev == Head(rows) && row.rowHash == Chained(row.prev, RowDigest(row))
  {
    var all := rows + [row];
    assert forall i :: 0 <= i < |rows| ==> all[..i] == rows[..i];
    assert forall i :: 0 <= i < |rows| ==> (Links(all, i) <==> Links(rows, i));
    assert all[..|rows|] == rows;
    if ValidChain(all) {
      assert Links(all, |rows|);
    }
  }

  function Depth(h: Hash): nat {
    match h
    case Genesis => 0
    case Chained(prev, _) => Depth(prev) + 1
  }

  lemma {:induction false} DepthIsPosition(rows: seq<Row>, i: nat)
    requires ValidChain(rows) && i < |rows|
    ensures Depth(rows[i].rowHash) == i + 1
  {
    assert Links(rows, i);
    if i > 0 {
      DepthIsPosition(rows, i - 1);
    }
  }

  lemma PrefixValid(rows: seq<Row>, n: nat)
    requires ValidChain(rows) && n <= |rows|
    ensures ValidChain(rows[..n])
  {
    forall i | 0 <= i < n
      ensures Links(rows[..n], i)
    {
      assert Links(rows, i);
      assert rows[..n][..i] == rows[..i];
    }
  }

  /** Tamper evidence for rows taken from a valid chain, in any order, any of them left out or repeated:
      such a list passes exactly when it is a prefix of the chain. */
  lemma TakenRowsPassIffPrefix(chain: seq<Row>, rows: seq<Row>)
    requires ValidChain(chain) && forall r :: r in rows ==> r in chain
    ensures ValidChain(rows) <==> rows <= chain
  {
    if ValidChain(rows) {
      forall i | 0 <= i < |rows|
        ensures i < |chain| && rows[i] == chain[i]
      {
        assert rows[i] in rows;
        var k :| 0 <= k < |chain| && chain[k] == rows[i];
        DepthIsPosition(rows, i);
        DepthIsPosition(chain, k);
      }
      if rows != [] {
        assert rows[|rows| - 1] in rows;
      }
    }
    if rows <= chain {
      PrefixValid(chain, |rows|);
      assert rows == chain[..|rows|];
    }
  }

  lemma LastRowIsHead(rows: seq<Row>)
    requires ValidChain(rows)
    ensures rows == [] <==> Head(rows) == Genesis
    ensures rows != [] ==>
      ValidChain(rows[..|rows| - 1]) && Head(rows) == Chained(Head(rows[..|rows| - 1]), RowDigest(rows[|rows| - 1]))
  {
    if rows != [] {
      assert Links(rows, |rows| - 1);
      PrefixValid(rows, |rows| - 1);
    }
  }

  /** Two valid chains with the same last hash have the same content digests, row by row. */
  lemma {:induction false} SameHeadSameDigests(a: seq<Row>, b: seq<Row>)
    requires ValidChain(a) && ValidChain(b) && Head(a) == Head(b)
    ensures |a| == |b| && forall i :: 0 <= i < |a| ==> RowDigest(a[i]) == RowDigest(b[i])
    decreases |a|
  {
    LastRowIsHead(a);
    LastRowIsHead(b);
    if a != [] && b != [] {
      SameHeadSameDigests(a[..|a| - 1], b[..|b| - 1]);
    }
  }

  /** Changing the hashed content of one row, its hashes kept, breaks the chain at that row and not before. */
  lemma EditBreaksAtRow(chain: seq<Row>, log: seq<Row>, i: nat)
    requires ValidChain(chain) && i < |chain| == |log|
    requires forall k :: 0 <= k < |chain| && k != i ==> log[k] == chain[k]
    requires log[i].prev == chain[i].prev && log[i].rowHash == chain[i].rowHash &&
      RowDigest(log[i]) != RowDigest(chain[i])
    ensures !Links(log, i) && forall k :: 0 <= k < i ==> Links(log, k)
  {
    assert Links(chain, i);
    forall k | 0 <= k < i
      ensures Links(log, k)
    {
      assert Links(chain, k);
      assert log[..k] == chain[..k];
    }
  }

  // Which fields a digest covers: each of them.

  function Flat(parts: seq<Bytes>): Bytes {
    if parts == [] then [] else Flat(parts[..|parts| - 1]) + parts[|parts| - 1]
  }

  lemma {:induction false} PartIsPinned(parts: seq<Bytes>, k: nat, x: Bytes)
    requires k < |parts|
    ensures Flat(parts[k := x]) == Flat(parts) <==> x == parts[k]
  {
    var n, changed := |parts| - 1, parts[k := x];
    if k == n {
      assert changed[..n] == parts[..n];
      if Flat(changed) == Flat(parts) {
        assert x == Flat(changed)[|Flat(parts[..n])|..] && parts[n] == Flat(parts)[|Flat(parts[..n])|..];
      }
    } else {
      PartIsPinned(parts[..n], k, x);
      assert changed[n] == parts[n] && changed[..n] == parts[..n][k := x];
      if Flat(changed) == Flat(parts) {
        CancelSuffix(Flat(changed[..n]), Flat(parts[..n]), parts[n]);
      }
    }
  }

  lemma CancelSuffix(x: Bytes, y: Bytes, s: Bytes)
    requires x + s == y + s
    ensures x == y
  {
    assert |x + s| == |x| + |s| && |y + s| == |y| + |s|;
    assert x == (x + s)[..|x|] && y == (y + s)[..|y|];
  }

  function Parts(r: Row): seq<Bytes> {
    var f := r.fields;
    [r.id, r.eventType, BytesOf(f.agent), BytesOf(f.provider), BytesOf(f.human), BytesOf(f.grant), BytesOf(f.token),
     f.data, f.outcome]
  }

  lemma FlatStep(parts: seq<Bytes>, n: nat)
    requires n < |parts|
    ensures Flat(parts[..n + 1]) == Flat(parts[..n]) + parts[n]
  {
    assert parts[..n + 1][..n] == parts[..n];
  }

  lemma FlatOfThree(p: seq<Bytes>, n: nat)
    requires n + 3 <= |p|
    ensures Flat(p[..n + 3]) == Flat(p[..n]) + p[n] + p[n + 1] + p[n + 2]
  {
    FlatStep(p, n);
    FlatStep(p, n + 1);
    FlatStep(p, n + 2);
  }

  lemma FlatOfNine(p: seq<Bytes>)
    requires |p| == 9
    ensures Flat(p) == p[0] + p[1] + p[2] + p[3] + p[4] + p[5] + p[6] + p[7] + p[8]
  {
    FlatOfThree(p, 0);
    FlatOfThree(p, 3);
    FlatOfThree(p, 6);
    assert [] + p[0] == p[0] && p[..9] == p;
  }

  lemma DigestOfParts(r: Row)
    ensures RowDigest(r) == Sha256(Flat(Parts(r)))
  {
    FlatOfNine(Parts(r));
  }

  lemma PartChanges(r: Row, changed: Row, k: nat)
    requires k < 9 && Parts(changed) == Parts(r)[k := Parts(changed)[k]]
    ensures RowDigest(changed) == RowDigest(r) <==> Parts(changed)[k] == Parts(r)[k]
  {
    DigestOfParts(r);
    DigestOfParts(changed);
    PartIsPinned(Parts(r), k, Parts(changed)[k]);
  }

  /** Replacing one field keeps the digest exactly when the bytes that are hashed for it stay the same. */
  lemma MandatoryFieldsAreHashed(r: Row, x: Bytes)
    ensures RowDigest(r.(id := x)) == RowDigest(r) <==> x == r.id
    ensures RowDigest(r.(eventType := x)) == RowDigest(r) <==> x == r.eventType
    ensures RowDigest(r.(fields := r.fields.(data := x))) == RowDigest(r) <==> x == r.fields.data
    ensures RowDigest(r.(fields := r.fields.(outcome := x))) == RowDigest(r) <==> x == r.fields.outcome
  {
    PartChanges(r, r.(id := x), 0);
    PartChanges(r, r.(eventType := x), 1);
    PartChanges(r, r.(fields := r.fields.(data := x)), 7);
    PartChanges(r, r.(fields := r.fields.(outcome := x)), 8);
  }

  lemma PartiesAreHashed(r: Row, o: Option<Bytes>)
    ensures RowDigest(r.(fields := r.fields.(agent := o))) == RowDigest(r) <==> BytesOf(o) == BytesOf(r.fields.agent)
    ensures RowDigest(r.(fields := r.fields.(provider := o))) == RowDigest(r) <==>
      BytesOf(o) == BytesOf(r.fields.provider)
    ensures RowDigest(r.(fields := r.fields.(human := o))) == RowDigest(r) <==> BytesOf(o) == BytesOf(r.fields.human)
  {
    PartChanges(r, r.(fields := r.fields.(agent := o)), 2);
    PartChanges(r, r.(fields := r.fields.(provider := o)), 3);
    PartChanges(r, r.(fields := r.fields.(human := o)), 4);
  }

  lemma ReferencesAreHashed(r: Row, o: Option<Bytes>)
    ensures RowDigest(r.(fields := r.fields.(grant := o))) == RowDigest(r) <==> BytesOf(o) == BytesOf(r.fields.grant)
    ensures RowDigest(r.(fields := r.fields.(token := o))) == RowDigest(r) <==> BytesOf(o) == BytesOf(r.fields.token)
  {
    PartChanges(r, r.(fields := r.fields.(grant := o)), 5);
    PartChanges(r, r.(fields := r.fields.(token := o)), 6);
  }

  /** An absent field is hashed as no bytes. */
  lemma OptionalFieldsAreHashed(r: Row, o: Option<Bytes>)
    ensures
      var x := if o.Some? then o.value else [];
      && (RowDigest(r.(fields := r.fields.(agent := o))) == RowDigest(r) <==>
            x == if r.fields.agent.Some? then r.fields.agent.value else [])
      && (RowDigest(r.(fields := r.fields.(provider := o))) == RowDigest(r) <==>
            x == if r.fields.provider.Some? then r.fields.provider.value else [])
      && (RowDigest(r.(fields := r.fields.(human := o))) == RowDigest(r) <==>
            x == if r.fields.human.Some? then r.fields.human.value else [])
      && (RowDigest(r.(fields := r.fields.(grant := o))) == RowDigest(r) <==>
            x == if r.fields.grant.Some? then r.fields.grant.value else [])
      && (RowDigest(r.(fields := r.fields.(token := o))) == RowDigest(r) <==>
            x == if r.fields.token.Some? then r.fields.token.value else [])
  {
    PartiesAreHashed(r, o);
    ReferencesAreHashed(r, o);
  }

  /** The row with another value in one of its fields. */
  predicate OneFieldEdited(r: Row, e: Row, x: Bytes) {
    || (x != r.id && e == r.(id := x))
    || (x != r.eventType && e == r.(eventType := x))
    || (x != r.fields.data && e == r.(fields := r.fields.(data := x)))
    || (x != r.fields.outcome && e == r.(fields := r.fields.(outcome := x)))
    || (r.fields.agent.Some? && x != r.fields.agent.value && e == r.(fields := r.fields.(agent := Some(x))))
    || (r.fields.provider.Some? && x != r.fields.provider.value && e == r.(fields := r.fields.(provider := Some(x))))
    || (r.fields.human.Some? && x != r.fields.human.value && e == r.(fields := r.fields.(human := Some(x))))
    || (r.fields.grant.Some? && x != r.fields.grant.value && e == r.(fields := r.fields.(grant := Some(x))))
    || (r.fields.token.Some? && x != r.fields.token.value && e == r.(fields := r.fields.(token := Some(x))))
  }

  /** Editing any one hashed field of a stored row, its hashes kept, breaks the chain at that row. */
  lemma FieldEditBreaksAtRow(chain: seq<Row>, i: nat, edited: Row, x: Bytes)
    requires ValidChain(chain) && i < |chain| && OneFieldEdited(chain[i], edited, x)
    ensures var log := chain[i := edited]; !Links(log, i) && forall k :: 0 <= k < i ==> Links(log, k)
  {
    MandatoryFieldsAreHashed(chain[i], x);
    OptionalFieldsAreHashed(chain[i], Some(x));
    EditBreaksAtRow(chain, chain[i := edited], i);
  }

  /** The service starts again from genesis: what it records then verifies only if the log was empty. */
  lemma RestartBreaksNonEmptyLog(log: seq<Row>, row: Row)
    requires ValidChain(log) && row.prev == Genesis && row.rowHash == Chained(Genesis, RowDigest(row))
    ensures ValidChain(log + [row]) <==> log == []
  {
    AppendValidIff(log, row);
    if log != [] {
      DepthIsPosition(log, |log| - 1);
    }
  }

  /** Two overlapping recordings read the same head, and then the log no longer verifies. */
  lemma OverlapBreaksLog(log: seq<Row>, r: Row, q: Row)
    requires ValidChain(log + [r]) && q.prev == r.prev
    ensures !ValidChain(log + [r] + [q])
  {
    AppendValidIff(log, r);
    AppendValidIff(log + [r], q);
    DepthIsPosition(log + [r], |log|);
    if log != [] {
      DepthIsPosition(log, |log| - 1);
    }
  }

  // The endpoint checks the rows of one agent only.

  lemma {:induction false} ForAgentSelects(rows: seq<Row>, agent: Bytes)
    ensures forall r :: r in ForAgent(rows, agent) <==> r in rows && r.fields.agent == Some(agent)
  {
    if rows != [] {
      ForAgentSelects(rows[..|rows| - 1], agent);
      assert rows == rows[..|rows| - 1] + [rows[|rows| - 1]];
    }
  }

  /** No row of the agent comes after a row that is not the agent's. */
  ghost predicate AgentFirst(rows: seq<Row>, agent: Bytes) {
    forall i, j :: 0 <= i < j < |rows| && rows[j].fields.agent == Some(agent) ==> rows[i].fields.agent == Some(agent)
  }

  lemma {:induction false} LeadingRowsCount(rows: seq<Row>, agent: Bytes, k: nat)
    requires k <= |rows| && forall i :: 0 <= i < k ==> rows[i].fields.agent == Some(agent)
    ensures |ForAgent(rows, agent)| >= k
    ensures k == |rows| ==> ForAgent(rows, agent) == rows
  {
    if rows != [] {
      var n := |rows| - 1;
      LeadingRowsCount(rows[..n], agent, if k <= n then k else n);
      assert rows == rows[..n] + [rows[n]];
    }
  }

  lemma {:induction false} LaterRowCounts(rows: seq<Row>, agent: Bytes, k: nat, j: nat)
    requires k <= j < |rows| && rows[j].fields.agent == Some(agent)
    requires forall i :: 0 <= i < k ==> rows[i].fields.agent == Some(agent)
    ensures |ForAgent(rows, agent)| > k
  {
    var n := |rows| - 1;
    if j == n {
      LeadingRowsCount(rows[..n], agent, k);
    } else {
      LaterRowCounts(rows[..n], agent, k, j);
    }
  }

  lemma {:induction false} AgentFirstGivesPrefix(rows: seq<Row>, agent: Bytes)
    requires AgentFirst(rows, agent)
    ensures ForAgent(rows, agent) <= rows
  {
    if rows != [] {
      var n := |rows| - 1;
      if rows[n].fields.agent == Some(agent) {
        LeadingRowsCount(rows, agent, |rows|);
      } else {
        AgentFirstGivesPrefix(rows[..n], agent);
      }
    }
  }

  lemma PrefixGivesAgentFirst(rows: seq<Row>, agent: Bytes)
    requires ForAgent(rows, agent) <= rows
    ensures AgentFirst(rows, agent)
  {
    var own := ForAgent(rows, agent);
    ForAgentSelects(rows, agent);
    assert forall i :: 0 <= i < |own| ==> rows[i] == own[i] && own[i] in own;
    forall j | |own| <= j < |rows|
      ensures rows[j].fields.agent != Some(agent)
    {
      if rows[j].fields.agent == Some(agent) {
        LaterRowCounts(rows, agent, |own|, j);
      }
    }
  }

  /** The endpoint reports an agent's rows of a valid log as valid exactly when no event of anyone else
      was recorded before one of that agent's. */
  lemma AgentVerifiesIff(log: seq<Row>, agent: Bytes)
    requires ValidChain(log)
    ensures ValidChain(ForAgent(log, agent)) <==> AgentFirst(log, agent)
  {
    ForAgentSelects(log, agent);
    TakenRowsPassIffPrefix(log, ForAgent(log, agent));
    if AgentFirst(log, agent) {
      AgentFirstGivesPrefix(log, agent);
    } else if ForAgent(log, agent) <= log {
      PrefixGivesAgentFirst(log, agent);
    }
  }

  method VerifyAgentAuditChain(db: AuditLog, agent: Bytes, existsOk: bool, rowsOk: bool)
    returns (r: Result<Report, QueryError>)
    ensures r == Err(DatabaseError) <==> !existsOk || (agent in db.agents && !rowsOk)
    ensures r == Err(AgentNotFound) <==> existsOk && agent !in db.agents
    ensures r.Ok? ==>
      && (r.value.valid <==> ValidChain(ForAgent(db.rows, agent)))
      && (ValidChain(db.rows) ==> (r.value.valid <==> AgentFirst(db.rows, agent)))
      && r.value.eventsVerified <= |ForAgent(db.rows, agent)|
      && (r.value.eventsVerified == |ForAgent(db.rows, agent)| <==> r.value.valid)
  {
    if !existsOk {
      return Err(DatabaseError);
    }
    if agent !in db.agents {
      return Err(AgentNotFound);
    }
    if !rowsOk {
      return Err(DatabaseError);
    }
    if ValidChain(db.rows) {
      AgentVerifiesIff(db.rows, agent);
    }
    var report := VerifyChain(ForAgent(db.rows, agent));
    return Ok(report);
  }

  // Whole runs of recordings that do not overlap.

  datatype Service = Service(rows: seq<Row>, head: Hash)

  function RowFor(head: Hash, a: Attempt): Row
    requires a.event.eventType.Some?
  {
    var digest := Content(a.id, a.event.eventType.value, a.event.fields);
    Row(a.id, a.event.eventType.value, a.event.fields, head, Chained(head, digest))
  }

  function RecordOne(s: Service, a: Attempt): Service {
    if !Stores(a) then s
    else Service(s.rows + [RowFor(s.head, a)], if a.insert.Done? then RowFor(s.head, a).rowHash else s.head)
  }

  function RecordAll(s: Service, attempts: seq<Attempt>): Service
    decreases |attempts|
  {
    if |attempts| == 0 then s else RecordAll(RecordOne(s, attempts[0]), attempts[1..])
  }

  ghost predicate NoneStores(attempts: seq<Attempt>) {
    forall j :: 0 <= j < |attempts| ==> !Stores(attempts[j])
  }

  /** No row is stored after one whose insert was not acknowledged. */
  ghost predicate NothingAfterLost(attempts: seq<Attempt>) {
    forall i, j :: 0 <= i < j < |attempts| && LosesReply(attempts[i]) ==> !Stores(attempts[j])
  }

  lemma {:induction false} BrokenStaysBroken(s: Service, attempts: seq<Attempt>)
    requires !ValidChain(s.rows)
    ensures !ValidChain(RecordAll(s, attempts).rows)
    decreases |attempts|
  {
    if |attempts| != 0 {
      if Stores(attempts[0]) {
        AppendValidIff(s.rows, RowFor(s.head, attempts[0]));
      }
      BrokenStaysBroken(RecordOne(s, attempts[0]), attempts[1..]);
    }
  }

  /** With the head behind the log, the log stays valid exactly as long as nothing is stored. */
  lemma {:induction false} HeadBehindBreaks(s: Service, attempts: seq<Attempt>)
    requires ValidChain(s.rows) && s.head != Head(s.rows)
    ensures ValidChain(RecordAll(s, attempts).rows) <==> NoneStores(attempts)
    ensures NoneStores(attempts) ==> RecordAll(s, attempts) == s
    decreases |attempts|
  {
    if |attempts| != 0 {
      assert attempts == [attempts[0]] + attempts[1..];
      if Stores(attempts[0]) {
        AppendValidIff(s.rows, RowFor(s.head, attempts[0]));
        BrokenStaysBroken(RecordOne(s, attempts[0]), attempts[1..]);
      } else {
        HeadBehindBreaks(s, attempts[1..]);
      }
    }
  }

  /** For recordings that do not overlap: whatever events are recorded and however signing and inserts fare,
      the log verifies exactly when no row was stored after one whose reply was lost; and while it verifies,
      the hash in memory is that of its last row exactly when no reply was lost at all. */
  lemma {:induction false} RecordedChainsVerifyIff(s: Service, attempts: seq<Attempt>)
    requires ValidChain(s.rows) && s.head == Head(s.rows)
    ensures ValidChain(RecordAll(s, attempts).rows) <==> NothingAfterLost(attempts)
    ensures ValidChain(RecordAll(s, attempts).rows) ==>
      (RecordAll(s, attempts).head == Head(RecordAll(s, attempts).rows) <==>
         forall i :: 0 <= i < |attempts| ==> !LosesReply(attempts[i]))
    decreases |attempts|
  {
    if |attempts| != 0 {
      var a, rest := attempts[0], attempts[1..];
      assert attempts == [a] + rest;
      assert NothingAfterLost(attempts) <==> (LosesReply(a) ==> NoneStores(rest)) && NothingAfterLost(rest);
      if Stores(a) {
        AppendValidIff(s.rows, RowFor(s.head, a));
        NoHashOfItself(s.head, RowDigest(RowFor(s.head, a)));
      }
      if LosesReply(a) {
        HeadBehindBreaks(RecordOne(s, a), rest);
      } else {
        RecordedChainsVerifyIff(RecordOne(s, a), rest);
      }
    }
  }
}
