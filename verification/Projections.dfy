/** The built-in views of a log: which events still count, and what they say. */
module Projections {
  import opened Options
  import opened Events

  /** Every id some `EventSuperseded` points at, whether or not that event is itself superseded. */
  function Targets(log: seq<Event>): set<EventId> {
    set e | e in log && e.body.EventSuperseded? :: e.body.target
  }

  /** The events of `log` whose id is not in `dead`, in log order. */
  function Keep(log: seq<Event>, dead: set<EventId>): seq<Event> {
    if log == [] then []
    else
      var n := |log| - 1;
      Keep(log[..n], dead) + if log[n].id in dead then [] else [log[n]]
  }

  function EffectiveEvents(log: seq<Event>): seq<Event> { Keep(log, Targets(log)) }

  /** The event at position `i` has not been superseded by anything in `log`. */
  predicate EffectiveAt(log: seq<Event>, i: int) {
    0 <= i < |log| && log[i].id !in Targets(log)
  }

  function LastStatus(evs: seq<Event>): Option<StatusId> {
    if evs == [] then None
    else
      var n := |evs| - 1;
      if evs[n].body.StatusTransitioned? then Some(evs[n].body.to) else LastStatus(evs[..n])
  }

  function CurrentStatus(log: seq<Event>): Option<StatusId> { LastStatus(EffectiveEvents(log)) }

  function FirstScope(evs: seq<Event>): Option<Scope> {
    if evs == [] then None
    else
      var n := |evs| - 1;
      var earlier := FirstScope(evs[..n]);
      if earlier.Some? then earlier
      else if evs[n].body.UnitCreated? then Some(evs[n].body.scope) else None
  }

  /** The event at `k` is the first creation, with this scope. */
  predicate CreatesFirst(evs: seq<Event>, k: int, scope: Scope) {
    && 0 <= k < |evs| && evs[k].body.UnitCreated? && evs[k].body.scope == scope
    && forall i :: 0 <= i < k ==> !evs[i].body.UnitCreated?
  }

  lemma {:induction false} FirstScopeMeaning(evs: seq<Event>)
    ensures FirstScope(evs).None? <==> forall i :: 0 <= i < |evs| ==> !evs[i].body.UnitCreated?
    ensures FirstScope(evs).Some? ==> exists k :: CreatesFirst(evs, k, FirstScope(evs).value)
  {
    if evs != [] {
      var n := |evs| - 1;
      FirstScopeMeaning(evs[..n]);
      if FirstScope(evs[..n]).Some? {
        var k :| CreatesFirst(evs[..n], k, FirstScope(evs[..n]).value);
        assert CreatesFirst(evs, k, FirstScope(evs).value);
      } else if evs[n].body.UnitCreated? {
        assert CreatesFirst(evs, n, evs[n].body.scope);
      }
    }
  }

  /** Some event of `evs` completes or skips `phase`. */
  predicate Resolved(evs: seq<Event>, phase: Phase) {
    exists e :: e in evs && e.body.Resolves() && e.body.phase == phase
  }

  function FirstUnresolved(required: seq<Phase>, evs: seq<Event>): Option<Phase> {
    if required == [] then None
    else if !Resolved(evs, required[0]) then Some(required[0])
    else FirstUnresolved(required[1..], evs)
  }

  /** "What is next?": the first required phase not yet resolved, for the scope in force. */
  function CurrentPhase(w: Workflow, log: seq<Event>): Option<Phase> {
    var evs := EffectiveEvents(log);
    match FirstScope(evs)
    case None => None
    case Some(scope) => FirstUnresolved(w.requiredPhases(scope), evs)
  }

  // ----- the algebra of Keep -----

  lemma {:induction false} KeepMembers(log: seq<Event>, dead: set<EventId>)
    ensures forall e :: e in Keep(log, dead) <==> e in log && e.id !in dead
  {
    if log != [] {
      var n := |log| - 1;
      KeepMembers(log[..n], dead);
      assert log == log[..n] + [log[n]];
    }
  }

  lemma {:induction false} KeepConcat(a: seq<Event>, b: seq<Event>, dead: set<EventId>)
    ensures Keep(a + b, dead) == Keep(a, dead) + Keep(b, dead)
  {
    if b == [] {
      assert a + b == a;
    } else {
      var n := |b| - 1;
      assert (a + b)[..|a + b| - 1] == a + b[..n];
      KeepConcat(a, b[..n], dead);
    }
  }

  lemma {:induction false} KeepTwice(log: seq<Event>, first: set<EventId>, second: set<EventId>)
    ensures Keep(Keep(log, first), second) == Keep(log, first + second)
  {
    if log != [] {
      var n := |log| - 1;
      KeepTwice(log[..n], first, second);
      KeepConcat(Keep(log[..n], first), if log[n].id in first then [] else [log[n]], second);
    }
  }

  lemma {:induction false} KeepAll(log: seq<Event>, dead: set<EventId>)
    requires forall e :: e in log ==> e.id !in dead
    ensures Keep(log, dead) == log
  {
    if log != [] {
      var n := |log| - 1;
      assert log == log[..n] + [log[n]];
      assert forall e :: e in log[..n] ==> e in log;
      KeepAll(log[..n], dead);
    }
  }

  /** An effective status transition with no later effective one decides the current status. */
  lemma {:induction false} LastStatusIs(log: seq<Event>, dead: set<EventId>, i: nat)
    requires i < |log| && log[i].body.StatusTransitioned? && log[i].id !in dead
    requires forall k :: i < k < |log| && log[k].body.StatusTransitioned? ==> log[k].id in dead
    ensures LastStatus(Keep(log, dead)) == Some(log[i].body.to)
  {
    var n := |log| - 1;
    if i < n {
      LastStatusIs(log[..n], dead, i);
      assert LastStatus(Keep(log[..n], dead)) == Some(log[i].body.to);
    }
    if log[n].id in dead {
      assert Keep(log, dead) == Keep(log[..n], dead);
    } else {
      assert Keep(log, dead)[..|Keep(log, dead)| - 1] == Keep(log[..n], dead);
    }
  }

  /** `i` is the last effective status transition of `log`. */
  ghost predicate LastTransition(log: seq<Event>, dead: set<EventId>, i: int) {
    && 0 <= i < |log| && log[i].body.StatusTransitioned? && log[i].id !in dead
    && forall k :: i < k < |log| && log[k].body.StatusTransitioned? ==> log[k].id in dead
  }

  lemma KeepLast(log: seq<Event>, dead: set<EventId>)
    requires log != []
    ensures var n := |log| - 1;
            if log[n].id in dead then Keep(log, dead) == Keep(log[..n], dead)
            else Keep(log, dead)[..|Keep(log, dead)| - 1] == Keep(log[..n], dead)
  {}

  /** Conversely, a current status always comes from such a transition. */
  lemma {:induction false} LastStatusFrom(log: seq<Event>, dead: set<EventId>) returns (i: int)
    ensures LastStatus(Keep(log, dead)).Some? ==>
              LastTransition(log, dead, i) && LastStatus(Keep(log, dead)).value == log[i].body.to
  {
    if log == [] {
      i := 0;
    } else {
      var n := |log| - 1;
      KeepLast(log, dead);
      if log[n].body.StatusTransitioned? && log[n].id !in dead {
        i := n;
      } else {
        i := LastStatusFrom(log[..n], dead);
        if LastTransition(log[..n], dead, i) { assert LastTransition(log, dead, i); }
      }
    }
  }

  /** `phase` is open, and every phase listed before it is not. */
  predicate IsFirstOpen(required: seq<Phase>, evs: seq<Event>, k: int, phase: Phase) {
    0 <= k < |required| && required[k] == phase && !Resolved(evs, phase) && forall i :: 0 <= i < k ==> Resolved(evs, required[i])
  }

  lemma {:induction false} FirstUnresolvedMeaning(required: seq<Phase>, evs: seq<Event>)
    ensures FirstUnresolved(required, evs).None? <==> forall p :: p in required ==> Resolved(evs, p)
    ensures FirstUnresolved(required, evs).Some? ==> exists k :: IsFirstOpen(required, evs, k, FirstUnresolved(required, evs).value)
  {
    hide Resolved;
    if required != [] {
      FirstUnresolvedMeaning(required[1..], evs);
      assert required == [required[0]] + required[1..];
      if !Resolved(evs, required[0]) {
        assert IsFirstOpen(required, evs, 0, required[0]);
      } else if FirstUnresolved(required, evs).Some? {
        var phase := FirstUnresolved(required, evs).value;
        var k :| IsFirstOpen(required[1..], evs, k, phase);
        forall i | 0 <= i < k + 1 ensures Resolved(evs, required[i]) {
          if i > 0 { assert required[1..][i - 1] == required[i]; }
        }
        assert IsFirstOpen(required, evs, k + 1, phase);
      }
    }
  }
}
