/**
 Every log a repository can produce, and what holds of all of them: supersede marks are final,
 a terminal status freezes the unit, and the accepting rules stay true under later superseding.
 */
module Ledger {
  import opened Options
  import opened Events
  import opened Projections
  import opened Milestones
  import opened Attempts
  import opened Sorting
  import opened Preconditions

  /** `stamp_monotonic`: the clock reading, or one nanosecond past the last stamp, saturating. */
  function Stamp(now: Timestamp, last: Option<Timestamp>): (at: Timestamp)
    ensures last.Some? ==> at >= last.value
    ensures last.Some? ==> (at > last.value <==> now > last.value || last.value < MAX_TIME)
    ensures at >= now
  {
    match last
    case None => now
    case Some(prev) => if now > prev then now else if prev < MAX_TIME then prev + 1 else prev
  }

  /** It is the least time that is not before the clock and, while there is one, later than the last stamp. */
  lemma StampIsLeast(now: Timestamp, last: Option<Timestamp>, t: Timestamp)
    requires t >= now && (last.Some? ==> t > last.value || last.value == MAX_TIME == t)
    ensures Stamp(now, last) <= t
  {}

  function LastAt(log: seq<Event>): Option<Timestamp> {
    if log == [] then None else Some(log[|log| - 1].at)
  }

  /** `e` is an event some repository may push onto `log`: fresh id, new fingerprint, admitted, stamped. */
  ghost predicate Extends(w: Workflow, log: seq<Event>, e: Event) {
    && e.id !in Ids(log)
    && FingerprintOf(e) !in Fingerprints(log)
    && Admission(w, log, e.body).Admitted?
    && w.checkExtension(e.extension, log).None?
    && exists now :: e.at == Stamp(now, LastAt(log))
  }

  ghost predicate Reachable(w: Workflow, log: seq<Event>) {
    log == [] || (Reachable(w, log[..|log| - 1]) && Extends(w, log[..|log| - 1], log[|log| - 1]))
  }

  lemma {:induction false} ReachablePrefix(w: Workflow, log: seq<Event>, k: nat)
    requires Reachable(w, log) && k <= |log|
    ensures Reachable(w, log[..k])
    ensures k < |log| ==> Extends(w, log[..k], log[k])
  {
    var n := |log| - 1;
    if k < n {
      ReachablePrefix(w, log[..n], k);
      assert log[..n][..k] == log[..k];
    } else if k == |log| {
      assert log[..k] == log;
    }
  }

  // ----- ids, fingerprints, supersede targets -----

  lemma InIds(log: seq<Event>, i: nat)
    requires i < |log|
    ensures log[i].id in Ids(log) && FingerprintOf(log[i]) in Fingerprints(log)
  {
    assert log[i] in log;
  }

  /** In a reachable log no two events share an id, and no two share a fingerprint. */
  lemma EventsDistinct(w: Workflow, log: seq<Event>, i: nat, j: nat)
    requires Reachable(w, log) && i < j < |log|
    ensures log[i].id != log[j].id && FingerprintOf(log[i]) != FingerprintOf(log[j])
  {
    ReachablePrefix(w, log, j);
    InIds(log[..j], i);
  }

  /** A supersede names an event strictly before it, and no two supersedes name the same event. */
  lemma SupersedeTargetsEarlier(w: Workflow, log: seq<Event>, j: nat)
    requires Reachable(w, log) && j < |log| && log[j].body.EventSuperseded?
    ensures exists i :: 0 <= i < j && log[i].id == log[j].body.target
    ensures forall k :: 0 <= k < |log| && k != j && log[k].body.EventSuperseded? ==> log[k].body.target != log[j].body.target
  {
    hide RuleFor;
    ReachablePrefix(w, log, j);
    AdmittedSupersede(w, log[..j], log[j].body);
    var e :| e in log[..j] && e.id == log[j].body.target;
    forall k | 0 <= k < |log| && k != j && log[k].body.EventSuperseded? ensures log[k].body.target != log[j].body.target {
      var first, second := if k < j then k else j, if k < j then j else k;
      ReachablePrefix(w, log, second);
      AdmittedSupersede(w, log[..second], log[second].body);
      assert log[..second][first] in log[..second];
    }
  }

  lemma TargetsAreIds(w: Workflow, log: seq<Event>)
    requires Reachable(w, log)
    ensures Targets(log) <= Ids(log)
  {
    forall t | t in Targets(log) ensures t in Ids(log) {
      var e :| e in log && e.body.EventSuperseded? && e.body.target == t;
      var j :| 0 <= j < |log| && log[j] == e;
      SupersedeTargetsEarlier(w, log, j);
      var i :| 0 <= i < j && log[i].id == t;
      InIds(log, i);
    }
  }

  lemma TargetsConcat(a: seq<Event>, b: seq<Event>)
    ensures Targets(a + b) == Targets(a) + Targets(b)
  {}

  lemma TargetsOne(e: Event)
    ensures Targets([e]) == if e.body.EventSuperseded? then {e.body.target} else {}
  {
    assert e in [e];
  }

  // ----- no resurrection -----

  /**
   A superseded event stays superseded in every extension of the log, whatever is superseded later,
   the superseding event included; and an event never superseded before position `k` was effective there.
   */
  lemma NoResurrection(log: seq<Event>, more: seq<Event>, i: nat)
    requires i < |log|
    ensures EffectiveAt(log + more, i) ==> EffectiveAt(log, i)
    ensures EffectiveAt(log + more, i) <==> EffectiveAt(log, i) && log[i].id !in Targets(more)
  {
    TargetsConcat(log, more);
  }

  lemma EffectiveEarlier(log: seq<Event>, i: nat, k: nat)
    requires EffectiveAt(log, i) && i < k <= |log|
    ensures EffectiveAt(log[..k], i) && log[i] in EffectiveEvents(log[..k])
  {
    assert log == log[..k] + log[k..];
    NoResurrection(log[..k], log[k..], i);
    KeepMembers(log[..k], Targets(log[..k]));
    assert log[..k][i] in log[..k];
  }

  /** The one event `e` may supersede. */
  function Marks(e: Event): set<EventId> { if e.body.EventSuperseded? then {e.body.target} else {} }

  lemma KeepAppend(log: seq<Event>, e: Event)
    requires Targets(log) <= Ids(log) && e.id !in Ids(log) && Marks(e) <= Ids(log)
    ensures EffectiveEvents(log + [e]) == Keep(EffectiveEvents(log), Marks(e)) + [e]
  {
    TargetsConcat(log, [e]);
    TargetsOne(e);
    KeepConcat(log, [e], Targets(log) + Marks(e));
    KeepTwice(log, Targets(log), Marks(e));
    assert Keep([e], Targets(log) + Marks(e)) == [e] by { assert [e][..0] == []; }
  }

  /** Appending one event to a reachable log keeps the effective events, less the one it supersedes. */
  lemma EffectiveStep(w: Workflow, log: seq<Event>, e: Event)
    requires Reachable(w, log) && Extends(w, log, e)
    ensures EffectiveEvents(log + [e]) == Keep(EffectiveEvents(log), Marks(e)) + [e]
    ensures !e.body.EventSuperseded? ==> EffectiveEvents(log + [e]) == EffectiveEvents(log) + [e]
  {
    hide RuleFor;
    TargetsAreIds(w, log);
    if e.body.EventSuperseded? { AdmittedSupersede(w, log, e.body); }
    KeepAppend(log, e);
    if !e.body.EventSuperseded? {
      KeepAll(EffectiveEvents(log), {});
    }
  }

  // ----- conservation -----

  function SupersedeCount(log: seq<Event>): nat {
    if log == [] then 0
    else SupersedeCount(log[..|log| - 1]) + if log[|log| - 1].body.EventSuperseded? then 1 else 0
  }

  ghost predicate DistinctEvents(evs: seq<Event>) {
    forall j, k :: 0 <= j < k < |evs| ==> evs[j].id != evs[k].id
  }

  lemma KeepOthers(evs: seq<Event>, e: Event)
    requires DistinctEvents(evs + [e])
    ensures Keep(evs, {e.id}) == evs
  {
    forall x | x in evs ensures x.id !in {e.id} {
      var j :| 0 <= j < |evs| && evs[j] == x;
      assert (evs + [e])[j] == x && (evs + [e])[|evs|] == e;
    }
    KeepAll(evs, {e.id});
  }

  lemma {:induction false} KeepDropsOne(evs: seq<Event>, i: nat)
    requires i < |evs| && DistinctEvents(evs)
    ensures |Keep(evs, {evs[i].id})| == |evs| - 1
  {
    var n := |evs| - 1;
    assert evs == evs[..n] + [evs[n]];
    KeepLast(evs, {evs[i].id});
    KeepSize(evs, {evs[i].id});
    if i == n {
      hide Keep, DistinctEvents;
      KeepOthers(evs[..n], evs[n]);
    } else {
      assert evs[n].id != evs[i].id;
      hide Keep;
      KeepDropsOne(evs[..n], i);
    }
  }

  lemma KeepSize(log: seq<Event>, dead: set<EventId>)
    requires log != []
    ensures |Keep(log, dead)| == |Keep(log[..|log| - 1], dead)| + if log[|log| - 1].id in dead then 0 else 1
  {}

  lemma {:induction false} KeepDistinct(log: seq<Event>, dead: set<EventId>)
    requires forall j, k :: 0 <= j < k < |log| ==> log[j].id != log[k].id
    ensures forall j, k :: 0 <= j < k < |Keep(log, dead)| ==> Keep(log, dead)[j].id != Keep(log, dead)[k].id
  {
    if log != [] {
      var n := |log| - 1;
      KeepDistinct(log[..n], dead);
      KeepMembers(log[..n], dead);
      var kept := Keep(log[..n], dead);
      forall j | 0 <= j < |kept| ensures kept[j].id != log[n].id {
        assert kept[j] in kept;
      }
    }
  }

  lemma SupersedeDropsOne(w: Workflow, log: seq<Event>, id: EventId)
    requires Reachable(w, log) && id in Ids(log) && id !in Targets(log)
    ensures |Keep(EffectiveEvents(log), {id})| == |EffectiveEvents(log)| - 1
  {
    hide RuleFor;
    var evs := EffectiveEvents(log);
    forall j, k | 0 <= j < k < |log| ensures log[j].id != log[k].id { EventsDistinct(w, log, j, k); }
    KeepDistinct(log, Targets(log));
    KeepMembers(log, Targets(log));
    var t :| t in log && t.id == id;
    var i :| 0 <= i < |evs| && evs[i] == t;
    KeepDropsOne(evs, i);
  }

  lemma ConservationStep(w: Workflow, log: seq<Event>, e: Event)
    requires Reachable(w, log) && Extends(w, log, e)
    ensures |EffectiveEvents(log + [e])| == |EffectiveEvents(log)| + 1 - |Marks(e)|
  {
    hide RuleFor, Targets, Ids, Fingerprints, EffectiveEvents, Keep;
    EffectiveStep(w, log, e);
    if e.body.EventSuperseded? {
      AdmittedSupersede(w, log, e.body);
      SupersedeDropsOne(w, log, e.body.target);
    }
  }

  /** Superseding removes exactly one event each: effective events = events - supersedes. */
  lemma {:induction false} Conservation(w: Workflow, log: seq<Event>)
    requires Reachable(w, log)
    ensures |EffectiveEvents(log)| == |log| - SupersedeCount(log)
  {
    if log != [] {
      var n := |log| - 1;
      ReachablePrefix(w, log, n);
      hide Extends, EffectiveEvents, Reachable, Marks;
      Conservation(w, log[..n]);
      ConservationStep(w, log[..n], log[n]);
      assert log == log[..n] + [log[n]];
    }
  }

  // ----- a terminal status freezes the unit -----

  ghost predicate TerminalAt(w: Workflow, log: seq<Event>, i: int) {
    EffectiveAt(log, i) && log[i].body.StatusTransitioned? && w.isTerminal(log[i].body.to)
  }

  /** After an effective transition to a terminal status come only supersedes. */
  lemma {:induction false} TerminalFreezes(w: Workflow, log: seq<Event>, i: nat, j: nat)
    requires Reachable(w, log) && TerminalAt(w, log, i) && i < j < |log|
    ensures log[j].body.EventSuperseded?
  {
    hide RuleFor;
    forall k | i < k < j ensures log[k].body.EventSuperseded? { TerminalFreezes(w, log, i, k); }
    ReachablePrefix(w, log, j);
    AdmittedMeansOpen(w, log[..j], log[j].body);
    EffectiveEarlier(log, i, j);
    LastStatusIs(log[..j], Targets(log[..j]), i);
  }

  /** So at most one terminal transition is effective, and the unit's current status is that one. */
  lemma TerminalUnique(w: Workflow, log: seq<Event>, i: nat, j: nat)
    requires Reachable(w, log) && TerminalAt(w, log, i) && TerminalAt(w, log, j)
    ensures i == j && CurrentStatus(log) == Some(log[i].body.to)
  {
    if i < j { TerminalFreezes(w, log, i, j); }
    if j < i { TerminalFreezes(w, log, j, i); }
    forall k | i < k < |log| ensures log[k].body.EventSuperseded? { TerminalFreezes(w, log, i, k); }
    LastStatusIs(log, Targets(log), i);
  }

  /** A unit is closed exactly when some terminal transition is effective. */
  lemma ClosedExactly(w: Workflow, log: seq<Event>)
    requires Reachable(w, log)
    ensures Closed(w, log) <==> exists i :: TerminalAt(w, log, i)
  {
    var i := LastStatusFrom(log, Targets(log));
    if Closed(w, log) { assert TerminalAt(w, log, i); }
    if k :| TerminalAt(w, log, k) { TerminalUnique(w, log, k, k); }
  }

  /** Superseding the terminal transition always reopens the unit. */
  lemma SupersedeReopens(w: Workflow, log: seq<Event>, i: nat, e: Event)
    requires Reachable(w, log) && TerminalAt(w, log, i) && Extends(w, log, e)
    ensures e.body.EventSuperseded?
    ensures Closed(w, log + [e]) <==> e.body.target != log[i].id
  {
    hide RuleFor;
    TerminalUnique(w, log, i, i);
    AdmittedMeansOpen(w, log, e.body);
    var after := log + [e];
    assert after[..|after| - 1] == log;
    ClosedExactly(w, after);
    NoResurrection(log, [e], i);
    TargetsOne(e);
    if Closed(w, after) {
      var k :| TerminalAt(w, after, k);
      assert k < |log|;
      NoResurrection(log, [e], k);
      assert TerminalAt(w, log, k);
      TerminalUnique(w, log, i, k);
    } else {
      assert !TerminalAt(w, after, i);
    }
  }

  // ----- uniqueness among effective events, whatever was superseded since -----

  /** At most one effective completion per phase, at most one skip, and a skip comes before a completion. */
  lemma PhaseEventsUnique(w: Workflow, log: seq<Event>, i: nat, j: nat)
    requires Reachable(w, log) && i < j && EffectiveAt(log, i) && EffectiveAt(log, j)
    requires log[i].body.Resolves() && log[j].body.Resolves() && log[i].body.phase == log[j].body.phase
    ensures log[i].body.PhaseSkipped? && log[j].body.PhaseCompleted?
  {
    hide RuleFor;
    ReachablePrefix(w, log, j);
    AdmittedResolution(w, log[..j], log[j].body);
    EffectiveEarlier(log, i, j);
  }

  lemma SubagentUnique(w: Workflow, log: seq<Event>, i: nat, j: nat)
    requires Reachable(w, log) && i < j && EffectiveAt(log, i) && EffectiveAt(log, j)
    requires log[i].body.SubagentCompleted? && log[j].body.SubagentCompleted?
    ensures log[i].body.agent != log[j].body.agent
  {
    hide RuleFor;
    ReachablePrefix(w, log, j);
    AdmittedSubagent(w, log[..j], log[j].body);
    EffectiveEarlier(log, i, j);
  }

  lemma ApprovalUnique(w: Workflow, log: seq<Event>, i: nat, j: nat)
    requires Reachable(w, log) && i < j && EffectiveAt(log, i) && EffectiveAt(log, j)
    requires log[i].body.ApprovalRecorded? && log[j].body.ApprovalRecorded?
    ensures log[i].body.target != log[j].body.target || log[i].body.approver != log[j].body.approver
  {
    hide RuleFor;
    ReachablePrefix(w, log, j);
    AdmittedApproval(w, log[..j], log[j].body);
    EffectiveEarlier(log, i, j);
  }

  /** Each approval names an earlier event that still counted when the approval was recorded. */
  lemma ApprovalTargetsEarlier(w: Workflow, log: seq<Event>, j: nat)
    requires Reachable(w, log) && j < |log| && log[j].body.ApprovalRecorded?
    ensures exists i :: 0 <= i < j && log[i].id == log[j].body.target && EffectiveAt(log[..j], i)
  {
    hide RuleFor;
    ReachablePrefix(w, log, j);
    AdmittedApproval(w, log[..j], log[j].body);
    var prev := log[..j];
    var e :| e in EffectiveEvents(prev) && e.id == log[j].body.target;
    KeepMembers(prev, Targets(prev));
    var i :| 0 <= i < |prev| && prev[i] == e;
    assert EffectiveAt(prev, i);
  }

  /** A unit is created at most once, and only as the first event of its log. */
  lemma CreatedFirst(w: Workflow, log: seq<Event>, j: nat)
    requires Reachable(w, log) && j < |log| && log[j].body.UnitCreated?
    ensures j == 0
  {
    ReachablePrefix(w, log, j);
  }

  // ----- ships and reverts on reachable logs -----

  /** An accepted ship lists exactly its milestone, at the end; other appends leave the list alone. */
  lemma ShipAppends(w: Workflow, log: seq<Event>, e: Event)
    requires Reachable(w, log) && Extends(w, log, e) && !e.body.EventSuperseded? && !e.body.MilestoneReverted?
    ensures ShippedMilestones(log + [e]) ==
              ShippedMilestones(log) + if e.body.MilestoneShipped? then [e.body.milestone] else []
  {
    hide RuleFor, Targets, Ids, Fingerprints, EffectiveEvents, Keep;
    EffectiveStep(w, log, e);
    assert (EffectiveEvents(log) + [e])[..|EffectiveEvents(log)|] == EffectiveEvents(log);
    if e.body.MilestoneShipped? { AdmittedMilestone(w, log, e.body); }
  }

  /** An accepted revert unlists exactly the one milestone with its id. */
  lemma RevertRemoves(w: Workflow, log: seq<Event>, e: Event) returns (q: nat)
    requires Reachable(w, log) && Extends(w, log, e) && e.body.MilestoneReverted?
    ensures q < |ShippedMilestones(log)| && ShippedMilestones(log)[q].id == e.body.milestone.id
    ensures ShippedMilestones(log + [e]) == ShippedMilestones(log)[..q] + ShippedMilestones(log)[q + 1..]
  {
    hide RuleFor, Targets, Ids, Fingerprints, EffectiveEvents, Keep;
    EffectiveStep(w, log, e);
    AdmittedMilestone(w, log, e.body);
    var evs, ms := EffectiveEvents(log), ShippedMilestones(log);
    assert (evs + [e])[..|evs|] == evs;
    ShippedExactly(evs, e.body.milestone.id);
    q :| 0 <= q < |ms| && ms[q].id == e.body.milestone.id;
    WithoutDistinct(ms, q);
  }

  // ----- retry counters -----

  /** Attempts of one anchor strictly increase over the raw log. */
  lemma AnchorAttemptsIncrease(w: Workflow, log: seq<Event>, anchor: RetryAnchor, i: nat, j: nat)
    requires Reachable(w, log) && i < j < |log|
    requires IsAnchorFailure(log[i], anchor) && IsAnchorFailure(log[j], anchor)
    ensures log[i].body.attempt < log[j].body.attempt
  {
    hide RuleFor;
    ReachablePrefix(w, log, j);
    AdmittedAnchorFailure(w, log[..j], log[j].body);
    MaxAnchorAttemptBounds(log[..j], anchor);
    assert IsAnchorFailure(log[..j][i], anchor);
  }

  lemma CallAttemptsIncrease(w: Workflow, log: seq<Event>, tool: string, call: string, i: nat, j: nat)
    requires Reachable(w, log) && i < j && EffectiveAt(log, i) && EffectiveAt(log, j)
    requires IsCallFailure(log[i], tool, call) && IsCallFailure(log[j], tool, call)
    ensures log[i].body.attempt < log[j].body.attempt
  {
    hide RuleFor;
    ReachablePrefix(w, log, j);
    AdmittedCallFailure(w, log[..j], log[j].body);
    EffectiveEarlier(log, i, j);
    MaxCallAttemptBounds(EffectiveEvents(log[..j]), tool, call);
  }

  ghost predicate Increasing(entries: seq<FailureEntry>) {
    forall p, q :: 0 <= p < q < |entries| ==> entries[p].attempt < entries[q].attempt
  }

  /** An effective failure of the call with the given attempt. */
  predicate FailsAt(log: seq<Event>, dead: set<EventId>, tool: string, call: string, i: int, attempt: nat) {
    0 <= i < |log| && log[i].id !in dead && IsCallFailure(log[i], tool, call) && log[i].body.attempt == attempt
  }

  /** Effective attempts of the call increase along the log. */
  ghost predicate Climbs(log: seq<Event>, dead: set<EventId>, tool: string, call: string) {
    forall i, j, m, n :: i < j && FailsAt(log, dead, tool, call, i, m) && FailsAt(log, dead, tool, call, j, n) ==> m < n
  }

  lemma ClimbsBefore(log: seq<Event>, dead: set<EventId>, tool: string, call: string)
    requires log != [] && Climbs(log, dead, tool, call)
    ensures Climbs(log[..|log| - 1], dead, tool, call)
  {
    var n := |log| - 1;
    forall i, m | FailsAt(log[..n], dead, tool, call, i, m) ensures FailsAt(log, dead, tool, call, i, m) {}
  }

  lemma {:induction false} CallFailuresFrom(log: seq<Event>, dead: set<EventId>, tool: string, call: string, f: FailureEntry) returns (i: nat)
    requires f in CallFailures(Keep(log, dead), tool, call)
    ensures FailsAt(log, dead, tool, call, i, f.attempt)
  {
    var n := |log| - 1;
    KeepLast(log, dead);
    if log[n].id !in dead && IsCallFailure(log[n], tool, call) && f == EntryOf(log[n]) {
      i := n;
    } else {
      i := CallFailuresFrom(log[..n], dead, tool, call, f);
    }
  }

  lemma {:induction false} CallFailuresIncrease(log: seq<Event>, dead: set<EventId>, tool: string, call: string)
    requires Climbs(log, dead, tool, call)
    ensures Increasing(CallFailures(Keep(log, dead), tool, call))
  {
    if log != [] {
      var n := |log| - 1;
      ClimbsBefore(log, dead, tool, call);
      CallFailuresIncrease(log[..n], dead, tool, call);
      KeepLast(log, dead);
      var before := CallFailures(Keep(log[..n], dead), tool, call);
      if log[n].id !in dead && IsCallFailure(log[n], tool, call) {
        forall p | 0 <= p < |before| ensures before[p].attempt < log[n].body.attempt {
          var i := CallFailuresFrom(log[..n], dead, tool, call, before[p]);
          assert FailsAt(log, dead, tool, call, i, before[p].attempt) && FailsAt(log, dead, tool, call, n, log[n].body.attempt);
        }
      }
    }
  }

  /** The event at `i` is a failure of this call, and not in `dead`. */
  predicate CallFailedAt(log: seq<Event>, dead: set<EventId>, tool: string, call: string, i: nat) {
    && i < |log| && log[i].id !in dead
    && log[i].body.ToolCallFailed? && log[i].body.tool == tool && log[i].body.call == call
  }

  /** The entries are those of the failures of this call that count, one for each, in log order. */
  ghost predicate EntriesAt(log: seq<Event>, dead: set<EventId>, tool: string, call: string, entries: seq<FailureEntry>, at: seq<nat>) {
    && |at| == |entries| && Ascending(at)
    && (forall i: nat :: i in at <==> CallFailedAt(log, dead, tool, call, i))
    && forall q :: 0 <= q < |at| && at[q] < |log| && log[at[q]].body.ToolCallFailed? ==>
         && entries[q].attempt == log[at[q]].body.attempt
         && entries[q].cause == log[at[q]].body.cause
         && entries[q].at == log[at[q]].at
  }

  lemma EntriesAppend(log: seq<Event>, dead: set<EventId>, tool: string, call: string, entries: seq<FailureEntry>, at: seq<nat>, e: Event)
    requires EntriesAt(log, dead, tool, call, entries, at)
    ensures CallFailedAt(log + [e], dead, tool, call, |log|) ==>
              EntriesAt(log + [e], dead, tool, call, entries + [FailureEntry(e.body.attempt, e.body.cause, e.at)], at + [|log|])
    ensures !CallFailedAt(log + [e], dead, tool, call, |log|) ==> EntriesAt(log + [e], dead, tool, call, entries, at)
  {
    forall i: nat | i < |log| ensures CallFailedAt(log + [e], dead, tool, call, i) <==> CallFailedAt(log, dead, tool, call, i) {}
    forall q | 0 <= q < |at| ensures at[q] < |log| {
      assert at[q] in at;
      assert CallFailedAt(log, dead, tool, call, at[q]);
    }
  }

  lemma CallFailuresNext(log: seq<Event>, dead: set<EventId>, tool: string, call: string)
    requires log != []
    ensures
      var n := |log| - 1;
      var before := CallFailures(Keep(log[..n], dead), tool, call);
      CallFailures(Keep(log, dead), tool, call) ==
        if CallFailedAt(log, dead, tool, call, n) then before + [FailureEntry(log[n].body.attempt, log[n].body.cause, log[n].at)] else before
  {
    KeepLast(log, dead);
  }

  lemma NoCallFailures(dead: set<EventId>, tool: string, call: string)
    ensures CallFailures(Keep([], dead), tool, call) == [] && EntriesAt([], dead, tool, call, [], [])
  {}

  lemma {:induction false} CallFailuresAre(log: seq<Event>, dead: set<EventId>, tool: string, call: string) returns (at: seq<nat>)
    ensures EntriesAt(log, dead, tool, call, CallFailures(Keep(log, dead), tool, call), at)
  {
    hide *;
    if log == [] {
      NoCallFailures(dead, tool, call);
      at := [];
    } else {
      var n := |log| - 1;
      at := CallFailuresAre(log[..n], dead, tool, call);
      CallFailuresNext(log, dead, tool, call);
      EntriesAppend(log[..n], dead, tool, call, CallFailures(Keep(log[..n], dead), tool, call), at, log[n]);
      assert log == log[..n] + [log[n]];
      if CallFailedAt(log, dead, tool, call, n) { at := at + [n]; }
    }
  }

  /** What the timeline holds: attempt, cause and time of every effective failure of the call, one entry each, in log order. */
  lemma TimelineHolds(w: Workflow, log: seq<Event>, tool: string, call: string) returns (at: seq<nat>)
    requires Reachable(w, log)
    ensures EntriesAt(log, Targets(log), tool, call, Timeline(log, tool, call), at)
  {
    hide EntriesAt;
    TimelineIsLogOrder(w, log, tool, call);
    at := CallFailuresAre(log, Targets(log), tool, call);
  }

  /** On a reachable log the timeline is strictly increasing and its sort changes nothing. */
  lemma TimelineIsLogOrder(w: Workflow, log: seq<Event>, tool: string, call: string)
    requires Reachable(w, log)
    ensures Timeline(log, tool, call) == CallFailures(EffectiveEvents(log), tool, call)
    ensures Increasing(Timeline(log, tool, call))
  {
    forall i, j, m, n | i < j && FailsAt(log, Targets(log), tool, call, i, m) && FailsAt(log, Targets(log), tool, call, j, n) ensures m < n {
      CallAttemptsIncrease(w, log, tool, call, i, j);
    }
    CallFailuresIncrease(log, Targets(log), tool, call);
    AttemptLeTotal();
    SortOfSorted(CallFailures(EffectiveEvents(log), tool, call), AttemptLe);
  }

  // ----- timestamps -----

  /** Stamps never decrease; two are equal only where the clock range is exhausted. */
  lemma {:induction false} StampsOrdered(w: Workflow, log: seq<Event>, i: nat, j: nat)
    requires Reachable(w, log) && i < j < |log|
    ensures log[i].at <= log[j].at
    ensures log[i].at == log[j].at ==> log[i].at == MAX_TIME
  {
    hide RuleFor;
    if i < j - 1 { StampsOrdered(w, log, i, j - 1); }
    ReachablePrefix(w, log, j);
  }

  ghost predicate InOrder(log: seq<Event>) {
    forall i, j :: 0 <= i < j < |log| ==> log[i].at <= log[j].at
  }

  /** `try_from_events` looks at neighbours only; it answers for all pairs, and names the first bad one. */
  method FindDisorder(log: seq<Event>) returns (earlier: Option<nat>)
    ensures earlier.None? <==> InOrder(log)
    ensures earlier.Some? ==> earlier.value + 1 < |log| && log[earlier.value].at > log[earlier.value + 1].at
    ensures earlier.Some? ==> InOrder(log[..earlier.value + 1])
  {
    if log == [] { return None; }
    for i := 0 to |log| - 1
      invariant InOrder(log[..i + 1])
    {
      if log[i].at > log[i + 1].at { return Some(i); }
      assert log[..i + 2] == log[..i + 1] + [log[i + 1]];
      forall k | 0 <= k <= i ensures log[k].at <= log[i].at { assert log[..i + 1][k] == log[k] && log[..i + 1][i] == log[i]; }
    }
    assert log[..|log|] == log;
    return None;
  }

  function TakeUntil(log: seq<Event>, cutoff: Timestamp): seq<Event> {
    if log == [] || log[0].at > cutoff then [] else [log[0]] + TakeUntil(log[1..], cutoff)
  }

  /** `load_until`: stopping at the first late event keeps exactly the events at or before the cutoff. */
  lemma {:induction false} TakeUntilIsFilter(log: seq<Event>, cutoff: Timestamp)
    requires InOrder(log)
    ensures exists k :: 0 <= k <= |log| && TakeUntil(log, cutoff) == log[..k]
              && forall i :: 0 <= i < |log| ==> (log[i].at <= cutoff <==> i < k)
  {
    if log != [] && log[0].at <= cutoff {
      TakeUntilIsFilter(log[1..], cutoff);
      var k :| 0 <= k <= |log[1..]| && TakeUntil(log[1..], cutoff) == log[1..][..k]
        && forall i :: 0 <= i < |log[1..]| ==> (log[1..][i].at <= cutoff <==> i < k);
      assert log[..k + 1] == [log[0]] + log[1..][..k];
      forall i | 0 <= i < |log| ensures log[i].at <= cutoff <==> i < k + 1 {
        if i > 0 { assert log[1..][i - 1] == log[i]; }
      }
    } else {
      assert TakeUntil(log, cutoff) == log[..0];
    }
  }

  /** A snapshot taken by time is itself a reachable log, holding every event up to the cutoff. */
  lemma LoadUntilReachable(w: Workflow, log: seq<Event>, cutoff: Timestamp)
    requires Reachable(w, log)
    ensures Reachable(w, TakeUntil(log, cutoff))
    ensures forall e :: e in TakeUntil(log, cutoff) <==> e in log && e.at <= cutoff
  {
    forall i, j | 0 <= i < j < |log| ensures log[i].at <= log[j].at { StampsOrdered(w, log, i, j); }
    TakeUntilIsFilter(log, cutoff);
    var k :| 0 <= k <= |log| && TakeUntil(log, cutoff) == log[..k]
      && forall i :: 0 <= i < |log| ==> (log[i].at <= cutoff <==> i < k);
    ReachablePrefix(w, log, k);
    forall e | e in log && e.at <= cutoff ensures e in log[..k] {
      var i :| 0 <= i < |log| && log[i] == e;
      assert log[..k][i] == e;
    }
  }
}
