/**
 The vocabulary of the ledger: event bodies, envelopes, proposals, the workflow a unit is
 governed by, and the errors a precondition can raise.

 Ids are compared for equality only, so they are natural numbers; a timestamp is a count of
 nanoseconds between two fixed limits.
 */
module Events {
  import opened Options
  import opened ByteStrings

  type EventId = nat
  type StatusId = string

  const MIN_TIME: int := -377_705_023_201_000_000_000
  const MAX_TIME: int := 253_402_207_200_999_999_999

  type Timestamp = t: int | MIN_TIME <= t <= MAX_TIME witness 0

  /** `NonZeroU32`. */
  type Attempt = n: int | 1 <= n < 0x1_0000_0000 witness 1

  // A phase, milestone or gate is a value with an id; two different values may share an id.
  datatype Phase = Phase(id: string, detail: string)
  datatype Milestone = Milestone(id: string, detail: string)
  datatype Gate = Gate(id: string, detail: string)

  datatype Scope = Tiny | Standard | Epic | Custom(name: string) {
    function Tag(): string {
      match this
      case Tiny => "tiny"
      case Standard => "standard"
      case Epic => "epic"
      case Custom(name) => name
    }
  }

  datatype Decision = Approved | Rejected | NeedsRevision | Deferred
  datatype SkipKind = ScopeTooNarrow | Amnesty(amnestyCode: string) | CustomSkip(customCode: string)
  datatype CommitStatus = Verified | Pending | Missing
  datatype CommitKind = Feat | Fix | Refactor | Perf | Docs | Chore | Test | Ci | Build | Style | Revert {
    predicate IsImplementation() { Feat? || Fix? || Refactor? || Perf? }
  }
  datatype RetryAnchor = CommitAnchor(sha: string) | LockAnchor(pid: nat) | ObserverAnchor(name: string)
  datatype ReconcileFailureKind = CommitPending | ObserverFailed | StaleLockReclaimed
  datatype ToolCallFailureReason =
    | RateLimited(retryAfterSecs: Option<nat>)
    | Timeout(afterSecs: nat)
    | Backend(message: string)
    | UserCancelled

  datatype Body =
    | UnitCreated(scope: Scope)
    | PhaseCompleted(phase: Phase, artifacts: seq<string>)
    | PhaseSkipped(phase: Phase, skip: SkipKind)
    | MilestoneShipped(milestone: Milestone, commit: string, commitKind: CommitKind, status: CommitStatus)
    | MilestoneReverted(milestone: Milestone, original: string, revert: string)
    | MilestoneVerified(milestone: Milestone, commit: string)
    | GateRecorded(gate: Gate, decision: Decision, rationale: string)
    | StatusTransitioned(to: StatusId, forced: bool, why: Option<string>)
    | ReconcileFailed(anchor: RetryAnchor, failure: ReconcileFailureKind, attempt: Attempt)
    | ReconcileRecovered(anchor: RetryAnchor, attemptsTotal: Attempt)
    | EventSuperseded(target: EventId, reason: string)
    | SubagentCompleted(agent: string, agentType: Option<string>, transcript: Option<string>, lastMessage: Option<string>)
    | ToolCallFailed(tool: string, call: string, attempt: Attempt, cause: ToolCallFailureReason)
    | ModelSwitched(fromModel: string, toModel: string)
    | ApprovalRecorded(target: EventId, approver: string, decision: Decision, rationale: string)
  {
    /** Does this body resolve a phase, by completing or by skipping it? */
    predicate Resolves() { PhaseCompleted? || PhaseSkipped? }

    function KindTag(): string {
      match this
      case UnitCreated(_) => "unit_created"
      case PhaseCompleted(_, _) => "phase_completed"
      case PhaseSkipped(_, _) => "phase_skipped"
      case MilestoneShipped(_, _, _, _) => "milestone_shipped"
      case MilestoneReverted(_, _, _) => "milestone_reverted"
      case MilestoneVerified(_, _) => "milestone_verified"
      case GateRecorded(_, _, _) => "gate_recorded"
      case StatusTransitioned(_, _, _) => "status_transitioned"
      case ReconcileFailed(_, _, _) => "reconcile_failed"
      case ReconcileRecovered(_, _) => "reconcile_recovered"
      case EventSuperseded(_, _) => "event_superseded"
      case SubagentCompleted(_, _, _, _) => "subagent_completed"
      case ToolCallFailed(_, _, _, _) => "tool_call_failed"
      case ModelSwitched(_, _) => "model_switched"
      case ApprovalRecorded(_, _, _, _) => "approval_recorded"
    }

    function KindOrdinal(): nat {
      match this
      case UnitCreated(_) => 1
      case PhaseCompleted(_, _) => 2
      case PhaseSkipped(_, _) => 3
      case MilestoneShipped(_, _, _, _) => 4
      case MilestoneReverted(_, _, _) => 5
      case MilestoneVerified(_, _) => 6
      case GateRecorded(_, _, _) => 7
      case StatusTransitioned(_, _, _) => 8
      case ReconcileFailed(_, _, _) => 9
      case ReconcileRecovered(_, _) => 10
      case EventSuperseded(_, _) => 11
      case SubagentCompleted(_, _, _, _) => 12
      case ToolCallFailed(_, _, _, _) => 13
      case ModelSwitched(_, _) => 14
      case ApprovalRecorded(_, _, _, _) => 15
    }
  }

  /** Attribution of an event; never part of the dedup key. */
  datatype Causation = Causation(source: string, session: Option<string>, agent: Option<string>, trigger: string)

  type Extension = string

  datatype Event = Event(
    id: EventId, at: Timestamp, causation: Causation, extension: Extension, body: Body, supersedes: Option<EventId>)

  datatype Proposal = Proposal(
    causation: Causation, extension: Extension, body: Body, supersedes: Option<EventId>)

  /**
   The dedup key. The program hashes a canonical encoding of these parts under a salt fixed per
   workflow; the model keeps the parts themselves, so equal keys mean equal parts.
   */
  datatype Fingerprint = Fingerprint(body: Body, supersedes: Option<EventId>)

  function FingerprintOfProposal(p: Proposal): Fingerprint { Fingerprint(p.body, p.supersedes) }

  function FingerprintOf(e: Event): Fingerprint { Fingerprint(e.body, e.supersedes) }

  /** The fingerprints of every event of a log, superseded events included. */
  function Fingerprints(log: seq<Event>): set<Fingerprint> { set e | e in log :: FingerprintOf(e) }

  function Ids(log: seq<Event>): set<EventId> { set e | e in log :: e.id }

  datatype PreconditionError =
    | AlreadyCreated
    | PhaseAlreadyCompleted(phaseId: string)
    | SkipRejected(phaseId: string, skip: SkipKind)
    | CommitUnverifiable(commit: string)
    | CommitKindNotImplementation(kind: CommitKind)
    | MilestoneAlreadyShipped(milestoneId: string)
    | MilestoneNotShipped(milestoneId: string)
    | NoPendingShip(milestoneId: string, commit: string)
    | RationaleTooShort(min: nat, actual: nat)
    | NoOpStatusTransition(status: StatusId)
    | NonMonotonicAttempt(attempt: nat, prior: nat)
    | NoPriorFailure
    | AlreadySuperseded(target: EventId)
    | SupersedeTargetMissing(target: EventId)
    | SubagentAlreadyCompleted(agent: string)
    | NoOpModelSwitch(model: string)
    | ApprovalTargetMissing(target: EventId)
    | ApprovalAlreadyRecorded(target: EventId)
    | ForcedWithoutRationale
    | RequiredPhaseNotResolved(phaseId: string)
    | AppendAgainstTerminalUnit(status: StatusId)
    | ExtensionRefused(message: string)
    | GateOutOfOrder(gate: Gate, missing: Gate)

  datatype Verdict = Admitted | Refused(error: PreconditionError)

  /** The answers a `WorkflowKind` implementation gives to the kernel. */
  datatype Workflow = Workflow(
    name: string,
    schemaVersion: nat,
    salt: Bytes,
    requiredPhases: Scope -> seq<Phase>,
    isTerminal: StatusId -> bool,
    minRationale: nat,
    prerequisites: Gate -> seq<Gate>,
    acceptsSkip: (Phase, SkipKind) -> bool,
    checkExtension: (Extension, seq<Event>) -> Option<PreconditionError>)
}
