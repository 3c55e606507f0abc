/**
 Append-time preconditions: which bodies a log admits, and with which error the others are refused.
 `Admission` states the rules; `CheckPrecondition` is the program's scan.
 */
module Preconditions {
  import opened Options
  import opened Events
  import opened Projections
  import opened Milestones
  import opened Attempts

  /** A unit whose current status is terminal takes nothing but `EventSuperseded`. */
  predicate Closed(w: Workflow, log: seq<Event>) {
    CurrentStatus(log).Some? && w.isTerminal(CurrentStatus(log).value)
  }

  ghost predicate CompletedIn(evs: seq<Event>, phase: Phase) {
    exists e :: e in evs && e.body.PhaseCompleted? && e.body.phase == phase
  }

  ghost predicate PendingShipIn(evs: seq<Event>, milestoneId: string, commit: string) {
    exists e :: e in evs && e.body.MilestoneShipped? && e.body.milestone.id == milestoneId
      && e.body.commit == commit && e.body.status.Pending?
  }

  predicate GateIn(evs: seq<Event>, gate: Gate) {
    exists e :: e in evs && e.body.GateRecorded? && e.body.gate == gate
  }

  ghost predicate AnchorFailedIn(evs: seq<Event>, anchor: RetryAnchor) {
    exists e :: e in evs && IsAnchorFailure(e, anchor)
  }

  ghost predicate SubagentIn(evs: seq<Event>, agent: string) {
    exists e :: e in evs && e.body.SubagentCompleted? && e.body.agent == agent
  }

  ghost predicate ApprovalIn(evs: seq<Event>, target: EventId, approver: string) {
    exists e :: e in evs && e.body.ApprovalRecorded? && e.body.target == target && e.body.approver == approver
  }

  /** The first prerequisite with no effective record. */
  function FirstMissingGate(required: seq<Gate>, evs: seq<Event>): Option<Gate> {
    if required == [] then None
    else if !GateIn(evs, required[0]) then Some(required[0])
    else FirstMissingGate(required[1..], evs)
  }

  /** The required phase that blocks an unforced move to a terminal status. The scope is read from the raw log. */
  function BlockingPhase(w: Workflow, log: seq<Event>): Option<Phase> {
    match FirstScope(log)
    case None => None
    case Some(scope) => FirstUnresolved(w.requiredPhases(scope), EffectiveEvents(log))
  }

  ghost function Admission(w: Workflow, log: seq<Event>, body: Body): Verdict {
    if !body.EventSuperseded? && Closed(w, log)
    then Refused(AppendAgainstTerminalUnit(CurrentStatus(log).value))
    else RuleFor(w, log, body)
  }

  ghost function RuleFor(w: Workflow, log: seq<Event>, body: Body): Verdict {
    var evs := EffectiveEvents(log);
    match body
    case UnitCreated(_) => if log != [] then Refused(AlreadyCreated) else Admitted
    case PhaseCompleted(phase, _) =>
      if CompletedIn(evs, phase) then Refused(PhaseAlreadyCompleted(phase.id)) else Admitted
    case PhaseSkipped(phase, skip) =>
      if !w.acceptsSkip(phase, skip) then Refused(SkipRejected(phase.id, skip))
      else if Resolved(evs, phase) then Refused(PhaseAlreadyCompleted(phase.id))
      else Admitted
    case MilestoneShipped(m, commit, kind, status) =>
      if !kind.IsImplementation() then Refused(CommitKindNotImplementation(kind))
      else if status.Missing? then Refused(CommitUnverifiable(commit))
      else if Lists(ShippedMilestones(log), m.id) then Refused(MilestoneAlreadyShipped(m.id))
      else Admitted
    case MilestoneReverted(m, _, _) =>
      if !Lists(ShippedMilestones(log), m.id) then Refused(MilestoneNotShipped(m.id)) else Admitted
    case MilestoneVerified(m, commit) =>
      if !PendingShipIn(evs, m.id, commit) then Refused(NoPendingShip(m.id, commit)) else Admitted
    case GateRecorded(gate, _, rationale) =>
      if |rationale| < w.minRationale then Refused(RationaleTooShort(w.minRationale, |rationale|))
      else
        (match FirstMissingGate(w.prerequisites(gate), evs)
         case Some(missing) => Refused(GateOutOfOrder(gate, missing))
         case None => Admitted)
    case StatusTransitioned(to, forced, why) =>
      if CurrentStatus(log) == Some(to) then Refused(NoOpStatusTransition(to))
      else if forced && why.None? then Refused(ForcedWithoutRationale)
      else if !forced && w.isTerminal(to) && BlockingPhase(w, log).Some?
      then Refused(RequiredPhaseNotResolved(BlockingPhase(w, log).value.id))
      else Admitted
    case ReconcileFailed(anchor, _, attempt) =>
      var prior := MaxAnchorAttempt(log, anchor);
      if attempt <= prior then Refused(NonMonotonicAttempt(attempt, prior)) else Admitted
    case ReconcileRecovered(anchor, _) =>
      if !AnchorFailedIn(evs, anchor) then Refused(NoPriorFailure) else Admitted
    case EventSuperseded(target, _) =>
      if target in Targets(log) then Refused(AlreadySuperseded(target))
      else if target !in Ids(log) then Refused(SupersedeTargetMissing(target))
      else Admitted
    case SubagentCompleted(agent, _, _, _) =>
      if SubagentIn(evs, agent) then Refused(SubagentAlreadyCompleted(agent)) else Admitted
    case ToolCallFailed(tool, call, attempt, _) =>
      var prior := MaxCallAttempt(evs, tool, call);
      if attempt <= prior then Refused(NonMonotonicAttempt(attempt, prior)) else Admitted
    case ModelSwitched(fromModel, toModel) =>
      if fromModel == toModel then Refused(NoOpModelSwitch(fromModel)) else Admitted
    case ApprovalRecorded(target, approver, _, _) =>
      if target !in Ids(evs) then Refused(ApprovalTargetMissing(target))
      else if ApprovalIn(evs, target, approver) then Refused(ApprovalAlreadyRecorded(target))
      else Admitted
  }

  // ----- what admission of one variant tells -----

  lemma AdmittedCallFailure(w: Workflow, log: seq<Event>, body: Body)
    requires body.ToolCallFailed? && Admission(w, log, body).Admitted?
    ensures body.attempt > MaxCallAttempt(EffectiveEvents(log), body.tool, body.call)
  {}

  lemma AdmittedAnchorFailure(w: Workflow, log: seq<Event>, body: Body)
    requires body.ReconcileFailed? && Admission(w, log, body).Admitted?
    ensures body.attempt > MaxAnchorAttempt(log, body.anchor)
  {}

  lemma AdmittedSupersede(w: Workflow, log: seq<Event>, body: Body)
    requires body.EventSuperseded? && Admission(w, log, body).Admitted?
    ensures body.target !in Targets(log) && body.target in Ids(log)
  {}

  lemma AdmittedApproval(w: Workflow, log: seq<Event>, body: Body)
    requires body.ApprovalRecorded? && Admission(w, log, body).Admitted?
    ensures body.target in Ids(EffectiveEvents(log)) && !ApprovalIn(EffectiveEvents(log), body.target, body.approver)
  {}

  lemma AdmittedResolution(w: Workflow, log: seq<Event>, body: Body)
    requires body.Resolves() && Admission(w, log, body).Admitted?
    ensures !CompletedIn(EffectiveEvents(log), body.phase)
    ensures body.PhaseSkipped? ==> !Resolved(EffectiveEvents(log), body.phase)
  {}

  lemma AdmittedSubagent(w: Workflow, log: seq<Event>, body: Body)
    requires body.SubagentCompleted? && Admission(w, log, body).Admitted?
    ensures !SubagentIn(EffectiveEvents(log), body.agent)
  {}

  lemma AdmittedMilestone(w: Workflow, log: seq<Event>, body: Body)
    requires (body.MilestoneShipped? || body.MilestoneReverted?) && Admission(w, log, body).Admitted?
    ensures Lists(ShippedMilestones(log), body.milestone.id) <==> body.MilestoneReverted?
  {}

  lemma AdmittedGate(w: Workflow, log: seq<Event>, body: Body)
    requires body.GateRecorded? && Admission(w, log, body).Admitted?
    ensures FirstMissingGate(w.prerequisites(body.gate), EffectiveEvents(log)).None?
  {}

  lemma AdmittedMeansOpen(w: Workflow, log: seq<Event>, body: Body)
    requires Admission(w, log, body).Admitted?
    ensures body.EventSuperseded? || !Closed(w, log)
  {}

  // ----- the scans, one method for each variant that loops -----

  method CheckPhaseCompleted(log: seq<Event>, phase: Phase) returns (verdict: Verdict)
    ensures verdict == if CompletedIn(EffectiveEvents(log), phase) then Refused(PhaseAlreadyCompleted(phase.id)) else Admitted
  {
    var evs := EffectiveEvents(log);
    for i := 0 to |evs|
      invariant forall k :: 0 <= k < i ==> !(evs[k].body.PhaseCompleted? && evs[k].body.phase == phase)
    {
      if evs[i].body.PhaseCompleted? && evs[i].body.phase == phase {
        assert evs[i] in evs;
        return Refused(PhaseAlreadyCompleted(phase.id));
      }
    }
    return Admitted;
  }

  method CheckPhaseSkipped(w: Workflow, log: seq<Event>, phase: Phase, skip: SkipKind) returns (verdict: Verdict)
    ensures verdict == RuleFor(w, log, PhaseSkipped(phase, skip))
  {
    if !w.acceptsSkip(phase, skip) { return Refused(SkipRejected(phase.id, skip)); }
    var evs := EffectiveEvents(log);
    for i := 0 to |evs|
      invariant forall k :: 0 <= k < i ==> !(evs[k].body.Resolves() && evs[k].body.phase == phase)
    {
      if (evs[i].body.PhaseCompleted? || evs[i].body.PhaseSkipped?) && evs[i].body.phase == phase {
        assert evs[i] in evs && Resolved(evs, phase);
        return Refused(PhaseAlreadyCompleted(phase.id));
      }
    }
    assert !Resolved(evs, phase);
    return Admitted;
  }

  method CheckGateRecorded(w: Workflow, log: seq<Event>, gate: Gate, decision: Decision, rationale: string)
    returns (verdict: Verdict)
    ensures verdict == RuleFor(w, log, GateRecorded(gate, decision, rationale))
  {
    if |rationale| < w.minRationale { return Refused(RationaleTooShort(w.minRationale, |rationale|)); }
    var required := w.prerequisites(gate);
    if required != [] {
      var evs := EffectiveEvents(log);
      var recorded: seq<Gate> := [];
      for i := 0 to |evs|
        invariant forall g :: g in recorded <==> GateIn(evs[..i], g)
      {
        GateInStep(evs, i);
        if evs[i].body.GateRecorded? { recorded := recorded + [evs[i].body.gate]; }
      }
      assert evs[..|evs|] == evs;
      assert required[0..] == required;
      for i := 0 to |required|
        invariant FirstMissingGate(required, evs) == FirstMissingGate(required[i..], evs)
      {
        assert required[i..][1..] == required[i + 1..];
        if required[i] !in recorded { return Refused(GateOutOfOrder(gate, required[i])); }
      }
    }
    return Admitted;
  }

  lemma GateInStep(evs: seq<Event>, i: nat)
    requires i < |evs|
    ensures forall g :: GateIn(evs[..i + 1], g) <==> GateIn(evs[..i], g) || (evs[i].body.GateRecorded? && evs[i].body.gate == g)
  {
    assert evs[..i + 1] == evs[..i] + [evs[i]];
    forall g ensures GateIn(evs[..i + 1], g) <==> GateIn(evs[..i], g) || (evs[i].body.GateRecorded? && evs[i].body.gate == g) {
      if e :| e in evs[..i] && e.body.GateRecorded? && e.body.gate == g { assert e in evs[..i + 1]; }
      assert evs[i] in evs[..i + 1];
    }
  }

  method CheckStatusTransitioned(w: Workflow, log: seq<Event>, to: StatusId, forced: bool, why: Option<string>)
    returns (verdict: Verdict)
    ensures verdict == RuleFor(w, log, StatusTransitioned(to, forced, why))
  {
    if CurrentStatus(log) == Some(to) { return Refused(NoOpStatusTransition(to)); }
    if forced && why.None? { return Refused(ForcedWithoutRationale); }
    if !forced && w.isTerminal(to) && FirstScope(log).Some? {
      var evs := EffectiveEvents(log);
      var required := w.requiredPhases(FirstScope(log).value);
      assert required[0..] == required;
      for i := 0 to |required|
        invariant FirstUnresolved(required, evs) == FirstUnresolved(required[i..], evs)
      {
        assert required[i..][1..] == required[i + 1..];
        if !Resolved(evs, required[i]) { return Refused(RequiredPhaseNotResolved(required[i].id)); }
      }
    }
    return Admitted;
  }

  method CheckEventSuperseded(log: seq<Event>, target: EventId) returns (verdict: Verdict)
    ensures verdict ==
      if target in Targets(log) then Refused(AlreadySuperseded(target))
      else if target !in Ids(log) then Refused(SupersedeTargetMissing(target))
      else Admitted
  {
    var targetExists := false;
    for i := 0 to |log|
      invariant targetExists <==> exists k :: 0 <= k < i && log[k].id == target
      invariant forall k :: 0 <= k < i ==> !(log[k].body.EventSuperseded? && log[k].body.target == target)
    {
      if log[i].id == target { targetExists := true; }
      if log[i].body.EventSuperseded? && log[i].body.target == target {
        assert log[i] in log;
        return Refused(AlreadySuperseded(target));
      }
    }
    if !targetExists { return Refused(SupersedeTargetMissing(target)); }
    return Admitted;
  }

  /** `EventBody::check_precondition`, evaluated with no version-control or file-system probe. */
  method CheckPrecondition(w: Workflow, log: seq<Event>, body: Body) returns (verdict: Verdict)
    ensures verdict == Admission(w, log, body)
  {
    if !body.EventSuperseded? && Closed(w, log) {
      return Refused(AppendAgainstTerminalUnit(CurrentStatus(log).value));
    }
    var evs := EffectiveEvents(log);
    match body {
      case UnitCreated(_) => verdict := if log != [] then Refused(AlreadyCreated) else Admitted;
      case PhaseCompleted(phase, _) => verdict := CheckPhaseCompleted(log, phase);
      case PhaseSkipped(phase, skip) => verdict := CheckPhaseSkipped(w, log, phase, skip);
      case MilestoneShipped(m, commit, kind, status) =>
        if !kind.IsImplementation() { return Refused(CommitKindNotImplementation(kind)); }
        if status.Missing? { return Refused(CommitUnverifiable(commit)); }
        var shipped := CollectShipped(log);
        verdict := if exists s :: s in shipped && s.id == m.id then Refused(MilestoneAlreadyShipped(m.id)) else Admitted;
      case MilestoneReverted(m, _, _) =>
        var shipped := CollectShipped(log);
        verdict := if !exists s :: s in shipped && s.id == m.id then Refused(MilestoneNotShipped(m.id)) else Admitted;
      case MilestoneVerified(m, commit) =>
        var found := exists e :: (
          e in evs && e.body.MilestoneShipped? && e.body.milestone.id == m.id && e.body.commit == commit && e.body.status.Pending?);
        verdict := if !found then Refused(NoPendingShip(m.id, commit)) else Admitted;
      case GateRecorded(gate, decision, rationale) => verdict := CheckGateRecorded(w, log, gate, decision, rationale);
      case StatusTransitioned(to, forced, why) => verdict := CheckStatusTransitioned(w, log, to, forced, why);
      case ReconcileFailed(anchor, _, attempt) =>
        var prior := ScanAnchorAttempts(log, anchor);
        verdict := if attempt <= prior then Refused(NonMonotonicAttempt(attempt, prior)) else Admitted;
      case ReconcileRecovered(anchor, _) =>
        var hasPrior := exists e :: e in evs && IsAnchorFailure(e, anchor);
        verdict := if !hasPrior then Refused(NoPriorFailure) else Admitted;
      case EventSuperseded(target, _) => verdict := CheckEventSuperseded(log, target);
      case SubagentCompleted(agent, _, _, _) =>
        var already := exists e :: e in evs && e.body.SubagentCompleted? && e.body.agent == agent;
        verdict := if already then Refused(SubagentAlreadyCompleted(agent)) else Admitted;
      case ToolCallFailed(tool, call, attempt, _) =>
        var prior := MaxCallAttempt(evs, tool, call);
        verdict := if attempt <= prior then Refused(NonMonotonicAttempt(attempt, prior)) else Admitted;
      case ModelSwitched(fromModel, toModel) =>
        verdict := if fromModel == toModel then Refused(NoOpModelSwitch(fromModel)) else Admitted;
      case ApprovalRecorded(target, approver, _, _) =>
        if !exists e :: e in evs && e.id == target { return Refused(ApprovalTargetMissing(target)); }
        var duplicate := exists e :: e in evs && e.body.ApprovalRecorded? && e.body.target == target && e.body.approver == approver;
        verdict := if duplicate then Refused(ApprovalAlreadyRecorded(target)) else Admitted;
    }
  }
}
