/**
 What a refusal tells. For each error and its fields, what is then true of the log, stated over its
 positions, and which earlier checks passed; a body is refused with an error exactly when that holds.
 */
module Refusals {
  import opened Options
  import opened Events
  import opened Projections
  import opened Milestones
  import opened Attempts
  import opened Preconditions
  import opened Ledger
  import opened Batch
  import opened Gates
  import opened Phases
  import opened Warrants

  /** The phase is completed by an event that counts. */
  ghost predicate CompletedAt(log: seq<Event>, i: int, phase: Phase) {
    ResolvedAt(log, i, phase) && log[i].body.PhaseCompleted?
  }

  /** `missing` is the first of the prerequisites with no record that counts. */
  ghost predicate MissingAt(log: seq<Event>, required: seq<Gate>, k: int, missing: Gate) {
    && 0 <= k < |required| && required[k] == missing
    && !RecordedIn(log, missing) && forall j :: 0 <= j < k ==> RecordedIn(log, required[j])
  }

  ghost predicate RecordedIn(log: seq<Event>, gate: Gate) { exists i :: EffectiveAt(log, i) && RecordsAt(log, i, gate) }

  ghost predicate ResolvedIn(log: seq<Event>, phase: Phase) { exists i :: ResolvedAt(log, i, phase) }

  /** `phase` is the first of the required phases that nothing resolves. */
  ghost predicate OpenAt(log: seq<Event>, required: seq<Phase>, k: int, phase: Phase) {
    && 0 <= k < |required| && required[k] == phase
    && !ResolvedIn(log, phase) && forall j :: 0 <= j < k ==> ResolvedIn(log, required[j])
  }

  /** `prior` is the highest attempt on record for the anchor, superseded failures included; none counts as zero. */
  ghost predicate HighestForAnchor(log: seq<Event>, anchor: RetryAnchor, prior: nat) {
    && (forall i :: 0 <= i < |log| && IsAnchorFailure(log[i], anchor) ==> log[i].body.attempt <= prior)
    && (prior > 0 ==> exists i :: 0 <= i < |log| && IsAnchorFailure(log[i], anchor) && log[i].body.attempt == prior)
  }

  /** The same for the failures of one call that count. */
  ghost predicate HighestForCall(log: seq<Event>, tool: string, call: string, prior: nat) {
    && (forall i :: EffectiveAt(log, i) && IsCallFailure(log[i], tool, call) ==> log[i].body.attempt <= prior)
    && (prior > 0 ==> exists i :: EffectiveAt(log, i) && IsCallFailure(log[i], tool, call) && log[i].body.attempt == prior)
  }

  ghost predicate SupersededIn(log: seq<Event>, target: EventId) {
    exists i :: 0 <= i < |log| && log[i].body.EventSuperseded? && log[i].body.target == target
  }

  ghost predicate SubagentAt(log: seq<Event>, i: int, agent: string) {
    EffectiveAt(log, i) && log[i].body.SubagentCompleted? && log[i].body.agent == agent
  }

  /** The current status is `to`: the last transition that counts leads there. */
  ghost predicate AlreadyIn(log: seq<Event>, to: StatusId) {
    exists i :: LastTransition(log, Targets(log), i) && log[i].body.to == to
  }

  /** On what grounds an open unit refuses the body with this error. */
  ghost predicate Grounds(w: Workflow, log: seq<Event>, body: Body, error: PreconditionError) {
    match body
    case UnitCreated(_) => error == AlreadyCreated && log != []
    case PhaseCompleted(phase, _) => error == PhaseAlreadyCompleted(phase.id) && exists i :: CompletedAt(log, i, phase)
    case PhaseSkipped(phase, skip) =>
      if !w.acceptsSkip(phase, skip) then error == SkipRejected(phase.id, skip)
      else error == PhaseAlreadyCompleted(phase.id) && ResolvedIn(log, phase)
    case MilestoneShipped(m, commit, kind, status) =>
      if kind !in {Feat, Fix, Refactor, Perf} then error == CommitKindNotImplementation(kind)
      else if status.Missing? then error == CommitUnverifiable(commit)
      else error == MilestoneAlreadyShipped(m.id) && exists i :: StillShipped(log, i, m.id)
    case MilestoneReverted(m, _, _) => error == MilestoneNotShipped(m.id) && !exists i :: StillShipped(log, i, m.id)
    case MilestoneVerified(m, commit) => error == NoPendingShip(m.id, commit) && !exists i :: PendingAt(log, i, m.id, commit)
    case GateRecorded(gate, _, rationale) =>
      if |rationale| < w.minRationale then error == RationaleTooShort(w.minRationale, |rationale|)
      else exists k: int, missing: Gate :: error == GateOutOfOrder(gate, missing) && MissingAt(log, w.prerequisites(gate), k, missing)
    case StatusTransitioned(to, forced, why) =>
      if AlreadyIn(log, to) then error == NoOpStatusTransition(to)
      else if forced then error == ForcedWithoutRationale && why.None?
      else
        && w.isTerminal(to) && log != [] && log[0].body.UnitCreated?
        && exists k: int, phase: Phase :: error == RequiredPhaseNotResolved(phase.id) && OpenAt(log, w.requiredPhases(log[0].body.scope), k, phase)
    case ReconcileFailed(anchor, _, attempt) =>
      exists prior: nat :: error == NonMonotonicAttempt(attempt, prior) && attempt <= prior && HighestForAnchor(log, anchor, prior)
    case ReconcileRecovered(anchor, _) =>
      error == NoPriorFailure && !exists i :: EffectiveAt(log, i) && IsAnchorFailure(log[i], anchor)
    case EventSuperseded(target, _) =>
      if SupersededIn(log, target) then error == AlreadySuperseded(target)
      else error == SupersedeTargetMissing(target) && !exists i :: 0 <= i < |log| && log[i].id == target
    case SubagentCompleted(agent, _, _, _) => error == SubagentAlreadyCompleted(agent) && exists i :: SubagentAt(log, i, agent)
    case ToolCallFailed(tool, call, attempt, _) =>
      exists prior: nat :: error == NonMonotonicAttempt(attempt, prior) && attempt <= prior && HighestForCall(log, tool, call, prior)
    case ModelSwitched(fromModel, toModel) => error == NoOpModelSwitch(fromModel) && fromModel == toModel
    case ApprovalRecorded(target, approver, _, _) =>
      if !exists i :: EffectiveAt(log, i) && log[i].id == target then error == ApprovalTargetMissing(target)
      else error == ApprovalAlreadyRecorded(target) && exists i :: ApprovedAt(log, i, target, approver)
  }

  /** A closed unit refuses everything but supersedes, and names its status; an open one, or a supersede, goes by the grounds. */
  ghost predicate Refusal(w: Workflow, log: seq<Event>, body: Body, error: PreconditionError) {
    if !body.EventSuperseded? && TerminalStands(w, log) then NamesTerminal(w, log, error) else Grounds(w, log, body, error)
  }

  ghost predicate TerminalStands(w: Workflow, log: seq<Event>) { exists i :: TerminalAt(w, log, i) }

  ghost predicate NamesTerminal(w: Workflow, log: seq<Event>, error: PreconditionError) {
    exists i :: TerminalAt(w, log, i) && error == AppendAgainstTerminalUnit(log[i].body.to)
  }

  // ----- variant by variant -----

  lemma CompletedPositions(log: seq<Event>, phase: Phase)
    ensures CompletedIn(EffectiveEvents(log), phase) <==> exists i :: CompletedAt(log, i, phase)
  {
    AtPositions(log);
    var evs := EffectiveEvents(log);
    hide EffectiveEvents;
    if CompletedIn(evs, phase) {
      var e :| e in evs && e.body.PhaseCompleted? && e.body.phase == phase;
      var i :| EffectiveAt(log, i) && log[i] == e;
      assert CompletedAt(log, i, phase);
    }
  }

  lemma PhaseGrounds(w: Workflow, log: seq<Event>, body: Body, error: PreconditionError)
    requires body.Resolves()
    ensures RuleFor(w, log, body) == Refused(error) <==> Grounds(w, log, body, error)
  {
    CompletedPositions(log, body.phase);
    ResolvedAtPositions(log, body.phase);
    hide EffectiveEvents, CompletedAt, ResolvedAt, CompletedIn, Resolved;
  }

  lemma MilestoneGrounds(w: Workflow, log: seq<Event>, body: Body, error: PreconditionError)
    requires body.MilestoneShipped? || body.MilestoneReverted?
    ensures RuleFor(w, log, body) == Refused(error) <==> Grounds(w, log, body, error)
  {
    hide ShippedMilestones, StillShipped, Lists;
    ShippedPositions(log, body.milestone.id);
  }

  lemma PendingPositions(log: seq<Event>, id: string, commit: string)
    ensures PendingShipIn(EffectiveEvents(log), id, commit) <==> exists i :: PendingAt(log, i, id, commit)
  {
    AtPositions(log);
    var evs := EffectiveEvents(log);
    hide EffectiveEvents;
    if PendingShipIn(evs, id, commit) {
      var e :| e in evs && e.body.MilestoneShipped? && e.body.milestone.id == id && e.body.commit == commit && e.body.status.Pending?;
      var i :| EffectiveAt(log, i) && log[i] == e;
      assert PendingAt(log, i, id, commit);
    }
  }

  lemma VerifyGrounds(w: Workflow, log: seq<Event>, body: Body, error: PreconditionError)
    requires body.MilestoneVerified?
    ensures RuleFor(w, log, body) == Refused(error) <==> Grounds(w, log, body, error)
  {
    PendingPositions(log, body.milestone.id, body.commit);
    hide EffectiveEvents, PendingShipIn, PendingAt;
  }

  lemma MissingUnique(log: seq<Event>, required: seq<Gate>, j: int, a: Gate, k: int, b: Gate)
    requires MissingAt(log, required, j, a) && MissingAt(log, required, k, b)
    ensures a == b
  {
    hide RecordedIn;
  }

  lemma GateGrounds(w: Workflow, log: seq<Event>, body: Body, error: PreconditionError)
    requires body.GateRecorded?
    ensures RuleFor(w, log, body) == Refused(error) <==> Grounds(w, log, body, error)
  {
    var evs, required := EffectiveEvents(log), w.prerequisites(body.gate);
    MissingGateMeaning(required, evs);
    forall g ensures GateIn(evs, g) <==> RecordedIn(log, g) { GateAtPositions(log, g); }
    hide EffectiveEvents, GateIn, RecordedIn;
    var first := FirstMissingGate(required, evs);
    if first.Some? {
      var k :| IsFirstMissing(required, evs, k, first.value);
      assert MissingAt(log, required, k, first.value);
      forall j, missing | MissingAt(log, required, j, missing) ensures missing == first.value {
        MissingUnique(log, required, j, missing, k, first.value);
      }
    }
  }

  lemma OpenUnique(log: seq<Event>, required: seq<Phase>, j: int, a: Phase, k: int, b: Phase)
    requires OpenAt(log, required, j, a) && OpenAt(log, required, k, b)
    ensures a == b
  {
    hide ResolvedIn;
  }

  /** The phase that blocks a terminal transition, by positions. */
  lemma BlockingPositions(w: Workflow, log: seq<Event>)
    requires Reachable(w, log)
    ensures BlockingPhase(w, log).Some? ==>
              log != [] && log[0].body.UnitCreated? && exists k :: OpenAt(log, w.requiredPhases(log[0].body.scope), k, BlockingPhase(w, log).value)
    ensures log != [] && log[0].body.UnitCreated? ==>
              forall k, phase :: OpenAt(log, w.requiredPhases(log[0].body.scope), k, phase) ==> BlockingPhase(w, log) == Some(phase)
  {
    FirstScopeOf(w, log, {});
    KeepAll(log, {});
    hide Reachable, FirstScope, Keep;
    if log != [] && log[0].body.UnitCreated? {
      var evs, required := EffectiveEvents(log), w.requiredPhases(log[0].body.scope);
      FirstUnresolvedMeaning(required, evs);
      forall p ensures Resolved(evs, p) <==> ResolvedIn(log, p) { ResolvedAtPositions(log, p); }
      hide EffectiveEvents, Resolved, ResolvedIn;
      var first := FirstUnresolved(required, evs);
      if first.Some? {
        var k :| IsFirstOpen(required, evs, k, first.value);
        assert OpenAt(log, required, k, first.value);
        forall j, phase | OpenAt(log, required, j, phase) ensures phase == first.value { OpenUnique(log, required, j, phase, k, first.value); }
      }
    }
  }

  lemma StatusPositions(log: seq<Event>, to: StatusId)
    ensures CurrentStatus(log) == Some(to) <==> AlreadyIn(log, to)
  {
    var last := LastStatusFrom(log, Targets(log));
    if i :| LastTransition(log, Targets(log), i) && log[i].body.to == to { LastStatusIs(log, Targets(log), i); }
  }

  lemma StatusGrounds(w: Workflow, log: seq<Event>, body: Body, error: PreconditionError)
    requires Reachable(w, log) && body.StatusTransitioned?
    ensures RuleFor(w, log, body) == Refused(error) <==> Grounds(w, log, body, error)
  {
    StatusPositions(log, body.to);
    BlockingPositions(w, log);
    hide Reachable, CurrentStatus, BlockingPhase, OpenAt, AlreadyIn;
  }

  lemma AttemptGrounds(w: Workflow, log: seq<Event>, body: Body, error: PreconditionError)
    requires body.ReconcileFailed? || body.ToolCallFailed?
    ensures RuleFor(w, log, body) == Refused(error) <==> Grounds(w, log, body, error)
  {
    if body.ReconcileFailed? {
      MaxAnchorAttemptBounds(log, body.anchor);
      hide MaxAnchorAttempt;
      assert HighestForAnchor(log, body.anchor, MaxAnchorAttempt(log, body.anchor));
    } else {
      HighestCall(log, body.tool, body.call);
      hide MaxCallAttempt, EffectiveEvents;
    }
  }

  lemma HighestCall(log: seq<Event>, tool: string, call: string)
    ensures HighestForCall(log, tool, call, MaxCallAttempt(EffectiveEvents(log), tool, call))
    ensures forall prior: nat :: HighestForCall(log, tool, call, prior) ==> prior == MaxCallAttempt(EffectiveEvents(log), tool, call)
  {
    AtPositions(log);
    MaxCallAttemptBounds(EffectiveEvents(log), tool, call);
    hide MaxCallAttempt, EffectiveEvents;
  }

  lemma RecoveredGrounds(w: Workflow, log: seq<Event>, body: Body, error: PreconditionError)
    requires body.ReconcileRecovered?
    ensures RuleFor(w, log, body) == Refused(error) <==> Grounds(w, log, body, error)
  {
    AtPositions(log);
    var evs := EffectiveEvents(log);
    hide EffectiveEvents;
    if AnchorFailedIn(evs, body.anchor) {
      var e :| e in evs && IsAnchorFailure(e, body.anchor);
      var i :| EffectiveAt(log, i) && log[i] == e;
    }
  }

  lemma SupersedeGrounds(w: Workflow, log: seq<Event>, body: Body, error: PreconditionError)
    requires body.EventSuperseded?
    ensures RuleFor(w, log, body) == Refused(error) <==> Grounds(w, log, body, error)
  {
    var target := body.target;
    assert target in Targets(log) <==> SupersededIn(log, target) by {
      if i :| 0 <= i < |log| && log[i].body.EventSuperseded? && log[i].body.target == target { assert log[i] in log; }
    }
    assert target in Ids(log) <==> exists i :: 0 <= i < |log| && log[i].id == target by {
      if i :| 0 <= i < |log| && log[i].id == target { assert log[i] in log; }
    }
    hide SupersededIn, Targets, Ids;
  }

  lemma SubagentGrounds(w: Workflow, log: seq<Event>, body: Body, error: PreconditionError)
    requires body.SubagentCompleted?
    ensures RuleFor(w, log, body) == Refused(error) <==> Grounds(w, log, body, error)
  {
    AtPositions(log);
    var evs := EffectiveEvents(log);
    hide EffectiveEvents;
    if SubagentIn(evs, body.agent) {
      var e :| e in evs && e.body.SubagentCompleted? && e.body.agent == body.agent;
      var i :| EffectiveAt(log, i) && log[i] == e;
      assert SubagentAt(log, i, body.agent);
    }
  }

  lemma ApprovalPositions(log: seq<Event>, target: EventId, approver: string)
    ensures target in Ids(EffectiveEvents(log)) <==> exists i :: EffectiveAt(log, i) && log[i].id == target
    ensures ApprovalIn(EffectiveEvents(log), target, approver) <==> exists i :: ApprovedAt(log, i, target, approver)
  {
    AtPositions(log);
    var evs := EffectiveEvents(log);
    hide EffectiveEvents;
    if ApprovalIn(evs, target, approver) {
      var e :| e in evs && e.body.ApprovalRecorded? && e.body.target == target && e.body.approver == approver;
      var i :| EffectiveAt(log, i) && log[i] == e;
      assert ApprovedAt(log, i, target, approver);
    }
  }

  lemma ApprovalGrounds(w: Workflow, log: seq<Event>, body: Body, error: PreconditionError)
    requires body.ApprovalRecorded?
    ensures RuleFor(w, log, body) == Refused(error) <==> Grounds(w, log, body, error)
  {
    hide EffectiveEvents, EffectiveAt, ApprovalIn, ApprovedAt, Ids;
    ApprovalPositions(log, body.target, body.approver);
  }

  lemma PlainGrounds(w: Workflow, log: seq<Event>, body: Body, error: PreconditionError)
    requires body.UnitCreated? || body.ModelSwitched?
    ensures RuleFor(w, log, body) == Refused(error) <==> Grounds(w, log, body, error)
  {}

  lemma RuleGrounds(w: Workflow, log: seq<Event>, body: Body, error: PreconditionError)
    requires Reachable(w, log)
    ensures RuleFor(w, log, body) == Refused(error) <==> Grounds(w, log, body, error)
  {
    hide RuleFor, Grounds, Reachable;
    match body
    case UnitCreated(_) => PlainGrounds(w, log, body, error);
    case PhaseCompleted(_, _) => PhaseGrounds(w, log, body, error);
    case PhaseSkipped(_, _) => PhaseGrounds(w, log, body, error);
    case MilestoneShipped(_, _, _, _) => MilestoneGrounds(w, log, body, error);
    case MilestoneReverted(_, _, _) => MilestoneGrounds(w, log, body, error);
    case MilestoneVerified(_, _) => VerifyGrounds(w, log, body, error);
    case GateRecorded(_, _, _) => GateGrounds(w, log, body, error);
    case StatusTransitioned(_, _, _) => StatusGrounds(w, log, body, error);
    case ReconcileFailed(_, _, _) => AttemptGrounds(w, log, body, error);
    case ReconcileRecovered(_, _) => RecoveredGrounds(w, log, body, error);
    case EventSuperseded(_, _) => SupersedeGrounds(w, log, body, error);
    case SubagentCompleted(_, _, _, _) => SubagentGrounds(w, log, body, error);
    case ToolCallFailed(_, _, _, _) => AttemptGrounds(w, log, body, error);
    case ModelSwitched(_, _) => PlainGrounds(w, log, body, error);
    case ApprovalRecorded(_, _, _, _) => ApprovalGrounds(w, log, body, error);
  }

  /** The terminal transition that counts names the status of the refusal. */
  lemma ClosedStatus(w: Workflow, log: seq<Event>, i: nat)
    requires Reachable(w, log) && TerminalAt(w, log, i)
    ensures CurrentStatus(log) == Some(log[i].body.to) && Closed(w, log)
  {
    hide Reachable, CurrentStatus;
    TerminalUnique(w, log, i, i);
  }

  lemma ClosedRefuses(w: Workflow, log: seq<Event>, body: Body, error: PreconditionError)
    requires Reachable(w, log) && !body.EventSuperseded? && TerminalStands(w, log)
    ensures Admission(w, log, body) == Refused(error) <==> NamesTerminal(w, log, error)
  {
    var i :| TerminalAt(w, log, i);
    ClosedStatus(w, log, i);
    hide RuleFor, Closed, CurrentStatus, Reachable;
    if j :| TerminalAt(w, log, j) && error == AppendAgainstTerminalUnit(log[j].body.to) { ClosedStatus(w, log, j); }
  }

  lemma OpenGoesByRule(w: Workflow, log: seq<Event>, body: Body)
    requires body.EventSuperseded? || !Closed(w, log)
    ensures Admission(w, log, body) == RuleFor(w, log, body)
  {
    hide RuleFor;
  }

  lemma ClosedStands(w: Workflow, log: seq<Event>)
    requires Reachable(w, log)
    ensures Closed(w, log) <==> TerminalStands(w, log)
  {
    hide Reachable, Closed, TerminalAt;
    ClosedExactly(w, log);
  }

  /** On every reachable log a body is refused with an error exactly when the refusal, read off the log's positions, is that one. */
  lemma RefusedExactly(w: Workflow, log: seq<Event>, body: Body, error: PreconditionError)
    requires Reachable(w, log)
    ensures Admission(w, log, body) == Refused(error) <==> Refusal(w, log, body, error)
  {
    hide RuleFor, Grounds, Reachable, Admission, Closed, TerminalStands, NamesTerminal;
    ClosedStands(w, log);
    if !body.EventSuperseded? && TerminalStands(w, log) {
      ClosedRefuses(w, log, body, error);
    } else {
      OpenGoesByRule(w, log, body);
      RuleGrounds(w, log, body, error);
    }
  }

  // ----- proposals -----

  /** An event of the log has the proposal's body and envelope supersede; nothing else is compared. */
  ghost predicate OnRecord(log: seq<Event>, p: Proposal) {
    exists i :: 0 <= i < |log| && log[i].body == p.body && log[i].supersedes == p.supersedes
  }

  /**
   Why a proposal is turned down, in order: it is on record, whatever its attribution and payload; or
   its body is refused, or its payload is by the workflow's own check.
   */
  lemma ObjectionExactly(w: Workflow, log: seq<Event>, p: Proposal, reason: Reason)
    requires Reachable(w, log)
    ensures Objection(w, log, p) == Some(reason) <==>
              (if OnRecord(log, p) then reason == Duplicate
               else reason.Violates? && (Refusal(w, log, p.body, reason.error)
                                         || (Admission(w, log, p.body).Admitted? && w.checkExtension(p.extension, log) == Some(reason.error))))
  {
    assert OnRecord(log, p) <==> FingerprintOfProposal(p) in Fingerprints(log) by { RecordMeans(log, p); }
    hide OnRecord, Fingerprints, Refusal, Admission, Reachable;
    if reason.Violates? { RefusedExactly(w, log, p.body, reason.error); }
  }

  lemma RecordMeans(log: seq<Event>, p: Proposal)
    ensures OnRecord(log, p) <==> FingerprintOfProposal(p) in Fingerprints(log)
  {
    if i :| 0 <= i < |log| && log[i].body == p.body && log[i].supersedes == p.supersedes { assert log[i] in log; }
    if FingerprintOfProposal(p) in Fingerprints(log) {
      var e :| e in log && FingerprintOf(e) == FingerprintOfProposal(p);
      var i :| 0 <= i < |log| && log[i] == e;
    }
  }
}
