/** Revoking a grant: the guarded UPDATE, and the read that follows when it changed no row. */
module Withdrawal {
  import opened Wrappers
  import opened Records
  import opened Protocol
  import opened Provenance
  import opened Unmarked

  /** The grant was approved at or after this place in the history. */
  ghost predicate ApprovedSince(log: seq<Event>, g: Uuid, missed: nat) {
    exists k :: missed <= k < |log| && log[k] == Decided(g, true)
  }

  /** A handler whose UPDATE changed no row can find the grant approved only if it was approved since. */
  ghost predicate MissTraced(s: State, g: Uuid, missed: nat) {
    missed <= |s.log| && (g in s.grants && s.grants[g].status == Approved ==> ApprovedSince(s.log, g, missed))
  }

  ghost predicate MissesTraced(s: State) {
    forall t :: t in s.tasks && s.tasks[t].RevokeMissed? ==> MissTraced(s, s.tasks[t].grant, s.tasks[t].missed)
  }

  /** Where the UPDATE changed the row, the grant is revoked for good; otherwise it was approved in between. */
  ghost predicate ReportTraced(s: State, past: seq<Event>, e: Event) {
    e.GrantRevokeReported? ==>
      if e.changed then e.grant in s.grants && s.grants[e.grant].status == Revoked
      else ApprovedSince(past, e.grant, e.missed)
  }

  ghost predicate ReportsTraced(s: State) {
    forall i :: 0 <= i < |s.log| ==> ReportTraced(s, s.log[..i], s.log[i])
  }

  lemma MissStaysTraced(s: State, w: Writes, g: Uuid, missed: nat)
    requires MissTraced(s, g, missed) && GrantWriteSound(s, w.grant, w.event)
    ensures MissTraced(Apply(s, w), g, missed)
  {
    var s' := Apply(s, w);
    if g in s'.grants && s'.grants[g].status == Approved {
      if w.grant.Approve? && w.grant.grant == g {
        assert s'.log[|s.log|] == Decided(g, true);
      } else {
        var k :| missed <= k < |s.log| && s.log[k] == Decided(g, true);
        assert s'.log[k] == Decided(g, true);
      }
    }
  }

  /** A report of success leaves the grant revoked exactly when the UPDATE changed the row. Otherwise the
      grant is approved, by a decision that came between the UPDATE and the read. */
  lemma ReportedRevokedIff(cfg: Config, s: State, step: Step, w: Writes, e: Event)
    requires MissesTraced(s) && Effect(cfg, s, step) == Some(w) && w.event == Some(e) && e.GrantRevokeReported?
    ensures e.grant in Apply(s, w).grants && (Apply(s, w).grants[e.grant].status == Revoked <==> e.changed)
    ensures !e.changed ==>
      Apply(s, w).grants[e.grant].status == Approved && e.missed <= |s.log| && ApprovedSince(s.log, e.grant, e.missed)
  {
    if step.RevokeGrantRead? {
      assert MissTraced(s, s.tasks[step.task].grant, s.tasks[step.task].missed);
    }
  }

  /** Only the miss itself creates a handler that waits to read, and nothing was approved then. */
  lemma MissIsTraced(cfg: Config, s: State, step: Step, w: Writes)
    requires Effect(cfg, s, step) == Some(w) && w.task.Await? && w.task.task.RevokeMissed?
    ensures w.grant.KeepGrants? && MissTraced(Apply(s, w), w.task.task.grant, w.task.task.missed)
  {
  }

  lemma StepKeepsMisses(cfg: Config, s: State, step: Step, w: Writes)
    requires Inv(s) && MissesTraced(s) && Effect(cfg, s, step) == Some(w)
    ensures MissesTraced(Apply(s, w))
  {
    EffectSound(cfg, s, step, w);
    var s' := Apply(s, w);
    forall t | t in s'.tasks && s'.tasks[t].RevokeMissed?
      ensures MissTraced(s', s'.tasks[t].grant, s'.tasks[t].missed)
    {
      if w.task.Await? && w.task.id == t {
        MissIsTraced(cfg, s, step, w);
      } else {
        MissStaysTraced(s, w, s.tasks[t].grant, s.tasks[t].missed);
      }
    }
  }

  lemma ReportStaysTraced(s: State, s': State, past: seq<Event>, e: Event)
    requires ReportTraced(s, past, e) && Later(s, s')
    ensures ReportTraced(s', past, e)
  {
  }

  lemma NewReportTraced(cfg: Config, s: State, step: Step, w: Writes, e: Event)
    requires MissesTraced(s) && Effect(cfg, s, step) == Some(w) && w.event == Some(e)
    ensures ReportTraced(Apply(s, w), s.log, e)
  {
    if e.GrantRevokeReported? {
      ReportedRevokedIff(cfg, s, step, w, e);
    }
  }

  lemma StepKeepsReports(cfg: Config, s: State, step: Step, w: Writes)
    requires Inv(s) && MissesTraced(s) && ReportsTraced(s) && Effect(cfg, s, step) == Some(w)
    requires Later(s, Apply(s, w))
    ensures ReportsTraced(Apply(s, w))
  {
    var s' := Apply(s, w);
    forall i | 0 <= i < |s'.log|
      ensures ReportTraced(s', s'.log[..i], s'.log[i])
    {
      if i < |s.log| {
        assert s'.log[..i] == s.log[..i];
        ReportStaysTraced(s, s', s.log[..i], s.log[i]);
      } else {
        assert s'.log[..i] == s.log;
        NewReportTraced(cfg, s, step, w, w.event.value);
      }
    }
  }

  lemma {:induction false} RunKeepsReports(cfg: Config, s: State, steps: seq<Step>, s': State)
    requires Inv(s) && MissesTraced(s) && ReportsTraced(s) && Run(cfg, s, steps) == Some(s')
    ensures Inv(s') && MissesTraced(s') && ReportsTraced(s')
    decreases |steps|
  {
    if |steps| != 0 {
      var w := Effect(cfg, s, steps[0]).value;
      StepKeepsInv(cfg, s, steps[0]);
      StepKeepsMisses(cfg, s, steps[0], w);
      StepKeepsReports(cfg, s, steps[0], w);
      RunKeepsReports(cfg, Apply(s, w), steps[1..], s');
    }
  }

  /** Whatever interleaves: a reported success of an UPDATE that changed the row means that the grant is
      revoked for good; any other reported success means that an approval committed between the UPDATE
      and the read. */
  lemma ReportsMeanWhatTheUpdateDid(cfg: Config, s0: State, steps: seq<Step>, s: State, i: nat)
    requires Init(s0) && Run(cfg, s0, steps) == Some(s) && i < |s.log| && s.log[i].GrantRevokeReported?
    ensures s.log[i].changed ==> s.log[i].grant in s.grants && s.grants[s.log[i].grant].status == Revoked
    ensures !s.log[i].changed ==> exists k :: s.log[i].missed <= k < i && s.log[k] == Decided(s.log[i].grant, true)
  {
    InitInv(s0);
    RunKeepsReports(cfg, s0, steps, s);
    var e := s.log[i];
    assert ReportTraced(s, s.log[..i], e);
    if !e.changed {
      var k :| e.missed <= k < i && s.log[..i][k] == Decided(e.grant, true);
      assert s.log[k] == Decided(e.grant, true);
    }
  }

  lemma ApprovalChecked(cfg: Config, s0: State) returns (steps: seq<Step>, s: State)
    requires Init(s0)
    ensures Run(cfg, s0, steps) == Some(s) && 0 in s.grants && s.grants[0].status == Pending && s.log == []
    ensures s.tasks == map[0 := ApproveChecked(0, [])]
  {
    var insert := InsertGrant(0, FirstGrant(s0.now));
    var w1 := Effect(cfg, s0, insert).value;
    RunSnoc(cfg, s0, [], s0, insert, w1);
    var s1 := Apply(s0, w1);
    var w2 := Effect(cfg, s1, ApproveRead(0, 0, None)).value;
    RunSnoc(cfg, s0, [] + [insert], s1, ApproveRead(0, 0, None), w2);
    steps, s := [] + [insert] + [ApproveRead(0, 0, None)], Apply(s1, w2);
  }

  lemma RevokeMisses(cfg: Config, s0: State) returns (steps: seq<Step>, s: State)
    requires Init(s0)
    ensures Run(cfg, s0, steps) == Some(s) && 0 in s.grants && s.grants[0].status == Pending
    ensures s.tasks == map[0 := ApproveChecked(0, []), 1 := RevokeMissed(0, 0)]
  {
    var before, s1 := ApprovalChecked(cfg, s0);
    var w := Effect(cfg, s1, RevokeGrantUpdate(1, 0, true)).value;
    RunSnoc(cfg, s0, before, s1, RevokeGrantUpdate(1, 0, true), w);
    steps, s := before + [RevokeGrantUpdate(1, 0, true)], Apply(s1, w);
  }

  lemma ApprovedMeanwhile(cfg: Config, s0: State) returns (steps: seq<Step>, s: State)
    requires Init(s0)
    ensures Run(cfg, s0, steps) == Some(s) && 0 in s.grants && s.grants[0].status == Approved
    ensures s.tasks == map[1 := RevokeMissed(0, 0)]
  {
    var before, s1 := RevokeMisses(cfg, s0);
    assert s1.tasks[0] == ApproveChecked(0, []);
    var w := Effect(cfg, s1, ApproveUpdate(0)).value;
    RunSnoc(cfg, s0, before, s1, ApproveUpdate(0), w);
    steps, s := before + [ApproveUpdate(0)], Apply(s1, w);
  }

  /** A run from every start in which success is reported for a grant that is left approved. */
  lemma UnrevokedSuccessIsReachable(cfg: Config, s0: State) returns (steps: seq<Step>, s: State)
    requires Init(s0)
    ensures Run(cfg, s0, steps) == Some(s) && GrantRevokeReported(0, false, 0) in s.log
    ensures 0 in s.grants && s.grants[0].status == Approved
  {
    var before, s1 := ApprovedMeanwhile(cfg, s0);
    assert s1.tasks[1] == RevokeMissed(0, 0);
    var w := Effect(cfg, s1, RevokeGrantRead(1)).value;
    RunSnoc(cfg, s0, before, s1, RevokeGrantRead(1), w);
    steps, s := before + [RevokeGrantRead(1)], Apply(s1, w);
    assert s.log[|s1.log|] == GrantRevokeReported(0, false, 0);
  }
}
