/** Retry counters: the highest attempt seen so far, and the per-call failure timeline. */
module Attempts {
  import opened Events
  import opened Projections
  import opened Sorting

  predicate IsCallFailure(e: Event, tool: string, call: string) {
    e.body.ToolCallFailed? && e.body.tool == tool && e.body.call == call
  }

  predicate IsAnchorFailure(e: Event, anchor: RetryAnchor) {
    e.body.ReconcileFailed? && e.body.anchor == anchor
  }

  function Max(a: nat, b: nat): nat { if a < b then b else a }

  function MaxCallAttempt(evs: seq<Event>, tool: string, call: string): nat {
    if evs == [] then 0
    else
      var n := |evs| - 1;
      var prior := MaxCallAttempt(evs[..n], tool, call);
      if IsCallFailure(evs[n], tool, call) then Max(prior, evs[n].body.attempt) else prior
  }

  function MaxAnchorAttempt(log: seq<Event>, anchor: RetryAnchor): nat {
    if log == [] then 0
    else
      var n := |log| - 1;
      var prior := MaxAnchorAttempt(log[..n], anchor);
      if IsAnchorFailure(log[n], anchor) then Max(prior, log[n].body.attempt) else prior
  }

  /** `max_attempt_for_anchor`: the scan over the raw log, superseded failures included. */
  method ScanAnchorAttempts(log: seq<Event>, anchor: RetryAnchor) returns (max: nat)
    ensures max == MaxAnchorAttempt(log, anchor)
  {
    max := 0;
    for i := 0 to |log|
      invariant max == MaxAnchorAttempt(log[..i], anchor)
    {
      assert log[..i + 1][..i] == log[..i];
      if log[i].body.ReconcileFailed? && log[i].body.anchor == anchor && log[i].body.attempt > max {
        max := log[i].body.attempt;
      }
    }
    assert log[..|log|] == log;
  }

  /** An attempt above the scan's result is above every earlier attempt for the anchor. */
  lemma {:induction false} MaxAnchorAttemptBounds(log: seq<Event>, anchor: RetryAnchor)
    ensures forall k :: 0 <= k < |log| && IsAnchorFailure(log[k], anchor) ==> log[k].body.attempt <= MaxAnchorAttempt(log, anchor)
    ensures MaxAnchorAttempt(log, anchor) > 0 ==>
              exists k :: 0 <= k < |log| && IsAnchorFailure(log[k], anchor) && log[k].body.attempt == MaxAnchorAttempt(log, anchor)
  {
    if log != [] {
      var n := |log| - 1;
      MaxAnchorAttemptBounds(log[..n], anchor);
      if k :| 0 <= k < n && IsAnchorFailure(log[..n][k], anchor) && log[..n][k].body.attempt == MaxAnchorAttempt(log[..n], anchor) {
        assert IsAnchorFailure(log[k], anchor);
      }
    }
  }

  lemma {:induction false} MaxCallAttemptBounds(evs: seq<Event>, tool: string, call: string)
    ensures forall e :: e in evs && IsCallFailure(e, tool, call) ==> e.body.attempt <= MaxCallAttempt(evs, tool, call)
    ensures MaxCallAttempt(evs, tool, call) > 0 ==>
              exists e :: e in evs && IsCallFailure(e, tool, call) && e.body.attempt == MaxCallAttempt(evs, tool, call)
  {
    if evs != [] {
      var n := |evs| - 1;
      MaxCallAttemptBounds(evs[..n], tool, call);
      assert evs == evs[..n] + [evs[n]];
      if e :| e in evs[..n] && IsCallFailure(e, tool, call) && e.body.attempt == MaxCallAttempt(evs[..n], tool, call) {
        assert e in evs;
      }
    }
  }

  datatype FailureEntry = FailureEntry(attempt: nat, cause: ToolCallFailureReason, at: Timestamp)

  function EntryOf(e: Event): FailureEntry
    requires e.body.ToolCallFailed?
  {
    FailureEntry(e.body.attempt, e.body.cause, e.at)
  }

  /** The failures of one call, in the order of `evs`. */
  function CallFailures(evs: seq<Event>, tool: string, call: string): seq<FailureEntry> {
    if evs == [] then []
    else
      var n := |evs| - 1;
      CallFailures(evs[..n], tool, call) + if IsCallFailure(evs[n], tool, call) then [EntryOf(evs[n])] else []
  }

  predicate AttemptLe(a: FailureEntry, b: FailureEntry) { a.attempt <= b.attempt }

  /** `tool_call_timeline`: the effective failures of one call, sorted by attempt. */
  function Timeline(log: seq<Event>, tool: string, call: string): seq<FailureEntry> {
    StableSort(CallFailures(EffectiveEvents(log), tool, call), AttemptLe)
  }

  lemma AttemptLeTotal()
    ensures TotalPreorder(AttemptLe)
  {
    forall x, y ensures Comparable(AttemptLe, x, y) {}
    forall x, y, z ensures Chains(AttemptLe, x, y, z) {}
  }
}
