/**
 What a recorded event vouches for. Each body variant has a warrant, stated over positions of the raw
 log; a body is admitted exactly when the unit is open and its warrant holds, so every event of every
 log any repository produced carries one.
 */
module Warrants {
  import opened Options
  import opened Events
  import opened Projections
  import opened Milestones
  import opened Attempts
  import opened Preconditions
  import opened Ledger
  import opened Gates
  import opened Phases

  /** The ship at `i` counts, and no revert of its id that counts comes after it. */
  ghost predicate StillShipped(log: seq<Event>, i: int, id: string) {
    EffectiveAt(log, i) && ShipAt(log, i, id) && forall k :: i < k && EffectiveAt(log, k) ==> !RevertAt(log, k, id)
  }

  ghost predicate ResolvedAt(log: seq<Event>, i: int, phase: Phase) {
    EffectiveAt(log, i) && log[i].body.Resolves() && log[i].body.phase == phase
  }

  ghost predicate PendingAt(log: seq<Event>, i: int, id: string, commit: string) {
    EffectiveAt(log, i) && ShipAt(log, i, id) && log[i].body.commit == commit && log[i].body.status.Pending?
  }

  ghost predicate ApprovedAt(log: seq<Event>, i: int, target: EventId, approver: string) {
    EffectiveAt(log, i) && log[i].body.ApprovalRecorded? && log[i].body.target == target && log[i].body.approver == approver
  }

  /** No phase that the recorded scope requires is open. */
  ghost predicate NothingOpen(w: Workflow, log: seq<Event>) {
    log != [] && log[0].body.UnitCreated? ==>
      forall p :: p in w.requiredPhases(log[0].body.scope) ==> exists i :: ResolvedAt(log, i, p)
  }

  ghost predicate Warrant(w: Workflow, log: seq<Event>, body: Body) {
    match body
    case UnitCreated(_) => log == []
    case PhaseCompleted(phase, _) => forall i :: ResolvedAt(log, i, phase) ==> log[i].body.PhaseSkipped?
    case PhaseSkipped(phase, skip) => w.acceptsSkip(phase, skip) && !exists i :: ResolvedAt(log, i, phase)
    case MilestoneShipped(m, _, kind, status) =>
      kind in {Feat, Fix, Refactor, Perf} && !status.Missing? && !exists i :: StillShipped(log, i, m.id)
    case MilestoneReverted(m, _, _) => exists i :: StillShipped(log, i, m.id)
    case MilestoneVerified(m, commit) => exists i :: PendingAt(log, i, m.id, commit)
    case GateRecorded(gate, _, rationale) =>
      |rationale| >= w.minRationale && forall p :: p in w.prerequisites(gate) ==> exists i :: EffectiveAt(log, i) && RecordsAt(log, i, p)
    case StatusTransitioned(to, forced, why) =>
      && (forall i :: LastTransition(log, Targets(log), i) ==> log[i].body.to != to)
      && (forced ==> why.Some?)
      && (!forced && w.isTerminal(to) ==> NothingOpen(w, log))
    case ReconcileFailed(anchor, _, attempt) =>
      forall i :: 0 <= i < |log| && IsAnchorFailure(log[i], anchor) ==> log[i].body.attempt < attempt
    case ReconcileRecovered(anchor, _) => exists i :: EffectiveAt(log, i) && IsAnchorFailure(log[i], anchor)
    case EventSuperseded(target, _) => exists i :: EffectiveAt(log, i) && log[i].id == target
    case SubagentCompleted(agent, _, _, _) =>
      forall i :: EffectiveAt(log, i) && log[i].body.SubagentCompleted? ==> log[i].body.agent != agent
    case ToolCallFailed(tool, call, attempt, _) =>
      forall i :: EffectiveAt(log, i) && IsCallFailure(log[i], tool, call) ==> log[i].body.attempt < attempt
    case ModelSwitched(fromModel, toModel) => fromModel != toModel
    case ApprovalRecorded(target, approver, _, _) =>
      (exists i :: EffectiveAt(log, i) && log[i].id == target) && !exists i :: ApprovedAt(log, i, target, approver)
  }

  // ----- from effective events to positions -----

  lemma AtPositions(log: seq<Event>)
    ensures forall i :: EffectiveAt(log, i) ==> log[i] in EffectiveEvents(log)
    ensures forall e :: e in EffectiveEvents(log) ==> exists i :: EffectiveAt(log, i) && log[i] == e
  {
    KeepMembers(log, Targets(log));
    forall e | e in EffectiveEvents(log) ensures exists i :: EffectiveAt(log, i) && log[i] == e {
      var i :| 0 <= i < |log| && log[i] == e;
      assert EffectiveAt(log, i);
    }
  }

  lemma PhaseWarrants(w: Workflow, log: seq<Event>, body: Body)
    requires body.Resolves()
    ensures RuleFor(w, log, body).Admitted? <==> Warrant(w, log, body)
  {
    AtPositions(log);
    var evs := EffectiveEvents(log);
    hide EffectiveEvents;
    assert Resolved(evs, body.phase) <==> exists i :: ResolvedAt(log, i, body.phase) by { ResolvedAtPositions(log, body.phase); }
    if CompletedIn(evs, body.phase) {
      var e :| e in evs && e.body.PhaseCompleted? && e.body.phase == body.phase;
      var i :| EffectiveAt(log, i) && log[i] == e;
      assert ResolvedAt(log, i, body.phase);
    }
  }

  lemma ResolvedAtPositions(log: seq<Event>, phase: Phase)
    ensures Resolved(EffectiveEvents(log), phase) <==> exists i :: ResolvedAt(log, i, phase)
  {
    AtPositions(log);
    var evs := EffectiveEvents(log);
    hide EffectiveEvents;
    if Resolved(evs, phase) {
      var e :| e in evs && e.body.Resolves() && e.body.phase == phase;
      var i :| EffectiveAt(log, i) && log[i] == e;
      assert ResolvedAt(log, i, phase);
    }
  }

  /** The running list holds an id exactly when some ship of it that counts was not reverted since. */
  lemma {:induction false} ListedPositions(log: seq<Event>, dead: set<EventId>, id: string)
    ensures Lists(ShippedIn(Keep(log, dead)), id) <==> exists i :: StandsIn(log, dead, i, id)
  {
    if log != [] {
      var n := |log| - 1;
      ListedPositions(log[..n], dead, id);
      KeepLast(log, dead);
      StandsInStep(log, dead, id);
      if log[n].id !in dead { ListsStep(ShippedIn(Keep(log[..n], dead)), log[n].body, id); }
    }
  }

  ghost predicate StandsIn(log: seq<Event>, dead: set<EventId>, i: int, id: string) {
    && ShipAt(log, i, id) && log[i].id !in dead
    && forall k :: i < k < |log| && log[k].id !in dead ==> !RevertAt(log, k, id)
  }

  lemma StandsInStep(log: seq<Event>, dead: set<EventId>, id: string)
    requires log != []
    ensures
      var n := |log| - 1;
      var b := log[n].body;
      (exists i :: StandsIn(log, dead, i, id)) <==>
        (if log[n].id !in dead && b.MilestoneReverted? && b.milestone.id == id then false
         else (log[n].id !in dead && b.MilestoneShipped? && b.milestone.id == id) || exists i :: StandsIn(log[..n], dead, i, id))
  {
    var n := |log| - 1;
    if i :| StandsIn(log, dead, i, id) && i < n { assert StandsIn(log[..n], dead, i, id); }
    if i :| StandsIn(log[..n], dead, i, id) {
      if !(log[n].id !in dead && RevertAt(log, n, id)) { assert StandsIn(log, dead, i, id); }
    }
    if log[n].id !in dead && ShipAt(log, n, id) { assert StandsIn(log, dead, n, id); }
  }

  lemma ListsStep(ms: seq<Milestone>, b: Body, id: string)
    ensures Lists(ShipStep(ms, b), id) <==>
              (if b.MilestoneReverted? && b.milestone.id == id then false
               else (b.MilestoneShipped? && b.milestone.id == id) || Lists(ms, id))
  {
    match b {
      case MilestoneShipped(m, _, _, _) =>
        assert m in ms + [m];
        if x :| x in ms && x.id == id { assert x in ms + [m]; }
      case MilestoneReverted(m, _, _) => WithoutMembers(ms, m.id);
      case _ =>
    }
  }

  lemma {:induction false} WithoutMembers(ms: seq<Milestone>, id: string)
    ensures forall m :: m in Without(ms, id) <==> m in ms && m.id != id
  {
    if ms != [] {
      var n := |ms| - 1;
      assert ms == ms[..n] + [ms[n]];
      WithoutMembers(ms[..n], id);
    }
  }

  lemma ShippedPositions(log: seq<Event>, id: string)
    ensures Lists(ShippedMilestones(log), id) <==> exists i :: StillShipped(log, i, id)
  {
    ListedPositions(log, Targets(log), id);
    hide ShippedIn, Lists;
    if i :| StandsIn(log, Targets(log), i, id) { assert StillShipped(log, i, id); }
    if i :| StillShipped(log, i, id) { assert StandsIn(log, Targets(log), i, id); }
  }

  lemma ShipWarrants(w: Workflow, log: seq<Event>, body: Body)
    requires body.MilestoneShipped? || body.MilestoneReverted?
    ensures RuleFor(w, log, body).Admitted? <==> Warrant(w, log, body)
  {
    hide ShippedMilestones, StillShipped, Lists;
    ShippedPositions(log, body.milestone.id);
  }

  lemma VerifyWarrants(w: Workflow, log: seq<Event>, body: Body)
    requires body.MilestoneVerified?
    ensures RuleFor(w, log, body).Admitted? <==> Warrant(w, log, body)
  {
    AtPositions(log);
    var evs, id, commit := EffectiveEvents(log), body.milestone.id, body.commit;
    hide EffectiveEvents;
    if PendingShipIn(evs, id, commit) {
      var e :| e in evs && e.body.MilestoneShipped? && e.body.milestone.id == id && e.body.commit == commit && e.body.status.Pending?;
      var i :| EffectiveAt(log, i) && log[i] == e;
      assert PendingAt(log, i, id, commit);
    }
  }

  lemma GateWarrants(w: Workflow, log: seq<Event>, body: Body)
    requires body.GateRecorded?
    ensures RuleFor(w, log, body).Admitted? <==> Warrant(w, log, body)
  {
    AtPositions(log);
    var evs := EffectiveEvents(log);
    MissingGateMeaning(w.prerequisites(body.gate), evs);
    forall p ensures GateIn(evs, p) <==> exists i :: EffectiveAt(log, i) && RecordsAt(log, i, p) { GateAtPositions(log, p); }
  }

  lemma GateAtPositions(log: seq<Event>, gate: Gate)
    ensures GateIn(EffectiveEvents(log), gate) <==> exists i :: EffectiveAt(log, i) && RecordsAt(log, i, gate)
  {
    AtPositions(log);
    var evs := EffectiveEvents(log);
    hide EffectiveEvents;
    if GateIn(evs, gate) {
      var e :| e in evs && e.body.GateRecorded? && e.body.gate == gate;
      var i :| EffectiveAt(log, i) && log[i] == e;
      assert RecordsAt(log, i, gate);
    }
  }

  lemma StatusWarrants(w: Workflow, log: seq<Event>, body: Body)
    requires Reachable(w, log) && body.StatusTransitioned?
    ensures RuleFor(w, log, body).Admitted? <==> Warrant(w, log, body)
  {
    hide Reachable;
    var to := body.to;
    var last := LastStatusFrom(log, Targets(log));
    assert CurrentStatus(log) == Some(to) <==> exists i :: LastTransition(log, Targets(log), i) && log[i].body.to == to by {
      if i :| LastTransition(log, Targets(log), i) && log[i].body.to == to { LastStatusIs(log, Targets(log), i); }
    }
    assert BlockingPhase(w, log).None? <==> NothingOpen(w, log) by { GuardAtPositions(w, log); }
    hide CurrentStatus, BlockingPhase, NothingOpen;
  }

  lemma GuardAtPositions(w: Workflow, log: seq<Event>)
    requires Reachable(w, log)
    ensures BlockingPhase(w, log).None? <==> NothingOpen(w, log)
  {
    FirstScopeOf(w, log, {});
    KeepAll(log, {});
    if FirstScope(log).Some? {
      hide Reachable, FirstScope;
      FirstUnresolvedMeaning(w.requiredPhases(FirstScope(log).value), EffectiveEvents(log));
      forall p ensures Resolved(EffectiveEvents(log), p) <==> exists i :: ResolvedAt(log, i, p) { ResolvedAtPositions(log, p); }
    }
  }

  lemma AttemptWarrants(w: Workflow, log: seq<Event>, body: Body)
    requires body.ReconcileFailed? || body.ToolCallFailed? || body.ReconcileRecovered?
    ensures RuleFor(w, log, body).Admitted? <==> Warrant(w, log, body)
  {
    AtPositions(log);
    var evs := EffectiveEvents(log);
    hide EffectiveEvents;
    match body {
      case ReconcileFailed(anchor, _, _) => MaxAnchorAttemptBounds(log, anchor);
      case ToolCallFailed(tool, call, _, _) => MaxCallAttemptBounds(evs, tool, call);
      case ReconcileRecovered(anchor, _) =>
        if AnchorFailedIn(evs, anchor) {
          var e :| e in evs && IsAnchorFailure(e, anchor);
          var i :| EffectiveAt(log, i) && log[i] == e;
        }
    }
  }

  lemma TargetWarrants(w: Workflow, log: seq<Event>, body: Body)
    requires body.EventSuperseded? || body.ApprovalRecorded? || body.SubagentCompleted?
    ensures RuleFor(w, log, body).Admitted? <==> Warrant(w, log, body)
  {
    AtPositions(log);
    var evs := EffectiveEvents(log);
    hide EffectiveEvents;
    match body {
      case EventSuperseded(target, _) =>
        if i :| EffectiveAt(log, i) && log[i].id == target { InIds(log, i); }
        if target in Ids(log) && target !in Targets(log) {
          var i :| 0 <= i < |log| && log[i].id == target;
          assert EffectiveAt(log, i);
        }
      case ApprovalRecorded(target, approver, _, _) =>
        assert target in Ids(evs) <==> exists i :: EffectiveAt(log, i) && log[i].id == target;
        if ApprovalIn(evs, target, approver) {
          var e :| e in evs && e.body.ApprovalRecorded? && e.body.target == target && e.body.approver == approver;
          var i :| EffectiveAt(log, i) && log[i] == e;
          assert ApprovedAt(log, i, target, approver);
        }
      case SubagentCompleted(agent, _, _, _) =>
    }
  }

  /** The scan admits a body exactly when the unit is open, or the body supersedes, and the body's warrant holds. */
  lemma AdmittedExactly(w: Workflow, log: seq<Event>, body: Body)
    requires Reachable(w, log)
    ensures Admission(w, log, body).Admitted? <==>
              (body.EventSuperseded? || !exists i :: TerminalAt(w, log, i)) && Warrant(w, log, body)
  {
    ClosedExactly(w, log);
    RuleExactly(w, log, body);
    hide RuleFor, Warrant, Reachable;
  }

  lemma RuleExactly(w: Workflow, log: seq<Event>, body: Body)
    requires Reachable(w, log)
    ensures RuleFor(w, log, body).Admitted? <==> Warrant(w, log, body)
  {
    if body.Resolves() { PhaseWarrants(w, log, body); }
    else if body.MilestoneShipped? || body.MilestoneReverted? { ShipWarrants(w, log, body); }
    else if body.MilestoneVerified? { VerifyWarrants(w, log, body); }
    else if body.GateRecorded? { GateWarrants(w, log, body); }
    else if body.StatusTransitioned? { StatusWarrants(w, log, body); }
    else if body.ReconcileFailed? || body.ToolCallFailed? || body.ReconcileRecovered? { AttemptWarrants(w, log, body); }
    else if body.EventSuperseded? || body.ApprovalRecorded? || body.SubagentCompleted? { TargetWarrants(w, log, body); }
    else { CreateOrSwitchWarrants(w, log, body); }
  }

  lemma CreateOrSwitchWarrants(w: Workflow, log: seq<Event>, body: Body)
    requires body.UnitCreated? || body.ModelSwitched?
    ensures RuleFor(w, log, body).Admitted? <==> Warrant(w, log, body)
  {}

  /** Every event on record was warranted by the events before it, and none but supersedes came after a terminal status. */
  lemma EveryEventWarranted(w: Workflow, log: seq<Event>, j: nat)
    requires Reachable(w, log) && j < |log|
    ensures Warrant(w, log[..j], log[j].body)
    ensures log[j].body.EventSuperseded? || !exists i :: TerminalAt(w, log[..j], i)
  {
    ReachablePrefix(w, log, j);
    AdmittedAt(w, log[..j], log[j]);
    hide Admission, Warrant, Reachable, Extends;
    AdmittedExactly(w, log[..j], log[j].body);
  }
}
