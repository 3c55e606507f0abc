/**
 Phases and the terminal status. When the "what is next?" view and the rule that guards a terminal
 transition agree, and that working through the view's answers always opens the way to the end.
 */
module Phases {
  import opened Options
  import opened Events
  import opened Projections
  import opened Preconditions
  import opened Ledger
  import opened Batch
  import opened Runs

  // ----- the two readings of the scope -----

  /** The unit's creation event was itself superseded: the rule still reads its scope, the view does not. */
  predicate CreationSuperseded(log: seq<Event>) {
    log != [] && log[0].body.UnitCreated? && !EffectiveAt(log, 0)
  }

  lemma {:induction false} FirstScopeOf(w: Workflow, log: seq<Event>, dead: set<EventId>)
    requires Reachable(w, log)
    ensures FirstScope(Keep(log, dead)) ==
              if log != [] && log[0].body.UnitCreated? && log[0].id !in dead then Some(log[0].body.scope) else None
  {
    if log != [] {
      hide Extends, Reachable;
      var n := |log| - 1;
      ReachablePrefix(w, log, n);
      FirstScopeOf(w, log[..n], dead);
      if log[n].body.UnitCreated? { CreatedFirst(w, log, n); }
      KeepLast(log, dead);
      if n > 0 { assert log[..n][0] == log[0]; }
    }
  }

  lemma Scopes(w: Workflow, log: seq<Event>)
    requires Reachable(w, log)
    ensures FirstScope(EffectiveEvents(log)) == if CreationSuperseded(log) then None else FirstScope(log)
  {
    FirstScopeOf(w, log, Targets(log));
    FirstScopeOf(w, log, {});
    KeepAll(log, {});
  }

  /** Every phase the unit's recorded scope requires has been completed or skipped. */
  ghost predicate AllResolved(w: Workflow, log: seq<Event>) {
    FirstScope(log).Some? ==> forall p :: p in w.requiredPhases(FirstScope(log).value) ==> Resolved(EffectiveEvents(log), p)
  }

  /** The guard names the phase the view names, except when the creation was superseded and work remains. */
  lemma GuardMatchesViewExactly(w: Workflow, log: seq<Event>)
    requires Reachable(w, log)
    ensures BlockingPhase(w, log) == CurrentPhase(w, log) <==> !CreationSuperseded(log) || AllResolved(w, log)
  {
    Scopes(w, log);
    if FirstScope(log).Some? {
      FirstUnresolvedMeaning(w.requiredPhases(FirstScope(log).value), EffectiveEvents(log));
    }
  }

  lemma OpenNotThere(w: Workflow, log: seq<Event>, to: StatusId)
    requires !Closed(w, log) && w.isTerminal(to)
    ensures CurrentStatus(log) != Some(to)
  {}

  /** An unforced move of an open unit to a terminal status is refused exactly while a phase is next, and the error names it. */
  lemma TerminalBlockedExactly(w: Workflow, log: seq<Event>, to: StatusId, why: Option<string>)
    requires Reachable(w, log) && !Closed(w, log) && w.isTerminal(to)
    requires !CreationSuperseded(log) || AllResolved(w, log)
    ensures Admission(w, log, StatusTransitioned(to, false, why)) ==
              if CurrentPhase(w, log).Some? then Refused(RequiredPhaseNotResolved(CurrentPhase(w, log).value.id)) else Admitted
  {
    hide BlockingPhase, CurrentPhase, AllResolved;
    GuardMatchesViewExactly(w, log);
    OpenNotThere(w, log, to);
  }

  lemma CreateAdmitted(w: Workflow, scope: Scope)
    ensures Admission(w, [], UnitCreated(scope)).Admitted? && Fingerprints([]) == {} && Reachable(w, [])
  {}

  lemma SupersedeOnly(w: Workflow, created: Event)
    requires created.body.UnitCreated?
    ensures var body := EventSuperseded(created.id, "");
            Admission(w, [created], body).Admitted? && Fingerprint(body, None) !in Fingerprints([created])
  {
    assert created in [created];
  }

  lemma MarkedPair(created: Event, mark: Event)
    requires created.body.UnitCreated? && mark.body.EventSuperseded? && mark.body.target == created.id && mark.id != created.id
    ensures var log := [created, mark];
            EffectiveEvents(log) == [mark] && FirstScope(log) == Some(created.body.scope)
  {
    var log := [created, mark];
    assert mark in log && Targets(log) == {created.id};
    assert log[..1] == [created] && [created][..0] == [];
    assert Keep([created], {created.id}) == [];
    assert FirstScope([created]) == Some(created.body.scope);
  }

  lemma LoneMark(mark: Event)
    requires mark.body.EventSuperseded?
    ensures LastStatus([mark]) == None && FirstScope([mark]) == None && forall p :: !Resolved([mark], p)
  {
    assert [mark][..0] == [];
    assert LastStatus([]) == None && FirstScope([]) == None;
  }

  lemma OnlyMark(w: Workflow, log: seq<Event>, mark: Event)
    requires EffectiveEvents(log) == [mark] && mark.body.EventSuperseded?
    ensures !Closed(w, log) && CurrentPhase(w, log).None? && forall p :: !Resolved([mark], p)
  {
    hide EffectiveEvents, LastStatus, FirstScope, Resolved;
    LoneMark(mark);
  }

  lemma GuardRefuses(w: Workflow, log: seq<Event>, scope: Scope, to: StatusId)
    requires !Closed(w, log) && w.isTerminal(to) && FirstScope(log) == Some(scope) && w.requiredPhases(scope) != []
    requires forall p :: !Resolved(EffectiveEvents(log), p)
    ensures Admission(w, log, StatusTransitioned(to, false, None)) == Refused(RequiredPhaseNotResolved(w.requiredPhases(scope)[0].id))
  {
    OpenNotThere(w, log, to);
    assert BlockingPhase(w, log) == Some(w.requiredPhases(scope)[0]);
  }

  lemma CreateThenSupersede(w: Workflow, ext: Extension, scope: Scope) returns (created: Event, mark: Event)
    requires Welcomed(w, ext)
    ensures Reachable(w, [created, mark]) && created.body == UnitCreated(scope)
    ensures mark.body.EventSuperseded? && mark.body.target == created.id && mark.id != created.id
  {
    hide Reachable, Extends, Fingerprints, Admission;
    CreateAdmitted(w, scope);
    NextReachable(w, [], ext, UnitCreated(scope));
    created := Next([], ext, UnitCreated(scope));
    assert [] + [created] == [created];
    SupersedeOnly(w, created);
    var body := EventSuperseded(created.id, "");
    NextReachable(w, [created], ext, body);
    mark := Next([created], ext, body);
    assert [created] + [mark] == [created, mark];
    assert mark.id > [created][0].id;
  }

  /** The exception is real: supersede the creation of a unit, and the view says "nothing next" while the guard still refuses. */
  lemma SupersededCreationDisagrees(w: Workflow, ext: Extension, scope: Scope, to: StatusId) returns (log: seq<Event>)
    requires Welcomed(w, ext) && w.requiredPhases(scope) != [] && w.isTerminal(to)
    ensures Reachable(w, log) && !Closed(w, log) && CurrentPhase(w, log).None?
    ensures Admission(w, log, StatusTransitioned(to, false, None)) == Refused(RequiredPhaseNotResolved(w.requiredPhases(scope)[0].id))
  {
    hide Reachable, EffectiveEvents, CurrentPhase, Resolved, FirstScope, Admission, Closed;
    var created, mark := CreateThenSupersede(w, ext, scope);
    log := [created, mark];
    MarkedPair(created, mark);
    OnlyMark(w, log, mark);
    GuardRefuses(w, log, scope, to);
  }

  // ----- progress -----

  /** Positions of the required list whose phase is still open. */
  function Unresolved(required: seq<Phase>, evs: seq<Event>): nat {
    if required == [] then 0
    else (if Resolved(evs, required[0]) then 0 else 1) + Unresolved(required[1..], evs)
  }

  lemma {:induction false} UnresolvedDrops(required: seq<Phase>, evs: seq<Event>, e: Event)
    requires e.body.Resolves()
    ensures Unresolved(required, evs + [e]) <= Unresolved(required, evs)
    ensures e.body.phase in required && !Resolved(evs, e.body.phase) ==> Unresolved(required, evs + [e]) < Unresolved(required, evs)
  {
    hide Resolved;
    if required != [] {
      assert required == [required[0]] + required[1..];
      ResolvedAfter(evs, e, required[0]);
      UnresolvedDrops(required[1..], evs, e);
    }
  }

  lemma ResolvedAfter(evs: seq<Event>, e: Event, phase: Phase)
    requires e.body.Resolves()
    ensures Resolved(evs + [e], phase) <==> Resolved(evs, phase) || e.body.phase == phase
  {
    if x :| x in evs && x.body.Resolves() && x.body.phase == phase { assert x in evs + [e]; }
    assert e in evs + [e];
  }

  /** Phases left for the scope the view reads. */
  function Remaining(w: Workflow, log: seq<Event>): nat {
    var evs := EffectiveEvents(log);
    match FirstScope(evs)
    case None => 0
    case Some(scope) => Unresolved(w.requiredPhases(scope), evs)
  }

  /** Completing the phase the view names is never refused, if the payload passes and the very same event is not on record. */
  lemma CurrentPhaseCompletable(w: Workflow, log: seq<Event>, p: Proposal)
    requires Reachable(w, log) && !Closed(w, log)
    requires CurrentPhase(w, log).Some? && p.body.PhaseCompleted? && p.body.phase == CurrentPhase(w, log).value
    requires FingerprintOfProposal(p) !in Fingerprints(log) && w.checkExtension(p.extension, log).None?
    ensures Objection(w, log, p).None?
  {
    CurrentIsOpen(w, log);
    assert !CompletedIn(EffectiveEvents(log), p.body.phase);
  }

  lemma CurrentIsOpen(w: Workflow, log: seq<Event>)
    requires CurrentPhase(w, log).Some?
    ensures var evs := EffectiveEvents(log);
            && FirstScope(evs).Some? && CurrentPhase(w, log).value in w.requiredPhases(FirstScope(evs).value)
            && !Resolved(evs, CurrentPhase(w, log).value)
  {
    var evs := EffectiveEvents(log);
    FirstUnresolvedMeaning(w.requiredPhases(FirstScope(evs).value), evs);
  }

  /** And doing so strictly lowers what remains, leaving the unit open. */
  lemma CompletionProgresses(w: Workflow, log: seq<Event>, e: Event)
    requires Reachable(w, log) && Extends(w, log, e) && !Closed(w, log)
    requires CurrentPhase(w, log).Some? && e.body.PhaseCompleted? && e.body.phase == CurrentPhase(w, log).value
    ensures Remaining(w, log + [e]) < Remaining(w, log) && !Closed(w, log + [e])
    ensures FirstScope(EffectiveEvents(log + [e])) == FirstScope(EffectiveEvents(log))
  {
    hide Extends, Reachable, EffectiveEvents, CurrentPhase, Resolved, Unresolved;
    CurrentIsOpen(w, log);
    EffectiveStep(w, log, e);
    var evs := EffectiveEvents(log);
    assert (evs + [e])[..|evs|] == evs;
    UnresolvedDrops(w.requiredPhases(FirstScope(evs).value), evs, e);
  }

  /** More artifacts than any recorded completion lists, so the body is new. */
  function NewArtifacts(log: seq<Event>): (a: seq<string>)
    ensures forall i :: 0 <= i < |log| && log[i].body.PhaseCompleted? ==> |log[i].body.artifacts| < |a|
  {
    if log == [] then [""]
    else
      var n := |log| - 1;
      var before := NewArtifacts(log[..n]);
      if log[n].body.PhaseCompleted? && |log[n].body.artifacts| >= |before| then log[n].body.artifacts + [""] else before
  }

  lemma NewBodyIsNew(log: seq<Event>, phase: Phase)
    ensures Fingerprint(PhaseCompleted(phase, NewArtifacts(log)), None) !in Fingerprints(log)
  {
    var fp := Fingerprint(PhaseCompleted(phase, NewArtifacts(log)), None);
    forall e | e in log ensures FingerprintOf(e) != fp {
      var i :| 0 <= i < |log| && log[i] == e;
    }
  }

  lemma CompleteCurrent(w: Workflow, ext: Extension, log: seq<Event>) returns (e: Event)
    requires Reachable(w, log) && Welcomed(w, ext) && !Closed(w, log) && CurrentPhase(w, log).Some?
    ensures Reachable(w, log + [e]) && Extends(w, log, e) && e.body.PhaseCompleted? && e.body.phase == CurrentPhase(w, log).value
  {
    hide Reachable, Extends, CurrentPhase, EffectiveEvents, Fingerprints;
    var body := PhaseCompleted(CurrentPhase(w, log).value, NewArtifacts(log));
    NewBodyIsNew(log, CurrentPhase(w, log).value);
    CurrentPhaseCompletable(w, log, Proposal(Causation("cli", None, None, "manual"), ext, body, None));
    NextReachable(w, log, ext, body);
    e := Next(log, ext, body);
  }

  /**
   From any open unit whose creation stands, completing the current phase again and again reaches a
   log that admits every terminal status, in at most as many steps as phases remained.
   */
  lemma {:induction false} EndIsReachable(w: Workflow, ext: Extension, log: seq<Event>) returns (more: seq<Event>)
    requires Reachable(w, log) && Welcomed(w, ext) && !Closed(w, log) && FirstScope(EffectiveEvents(log)).Some?
    ensures Reachable(w, log + more) && |more| <= Remaining(w, log)
    ensures forall i :: 0 <= i < |more| ==> more[i].body.PhaseCompleted?
    ensures forall to, why :: w.isTerminal(to) ==> Admission(w, log + more, StatusTransitioned(to, false, why)).Admitted?
    decreases Remaining(w, log)
  {
    hide Reachable, Extends, EffectiveEvents, Remaining, Admission, Closed, CurrentPhase;
    if CurrentPhase(w, log).Some? {
      var e := CompleteCurrent(w, ext, log);
      CompletionProgresses(w, log, e);
      var rest := EndIsReachable(w, ext, log + [e]);
      more := [e] + rest;
      assert (log + [e]) + rest == log + more;
    } else {
      more := [];
      assert log + more == log;
      Scopes(w, log);
      forall to, why | w.isTerminal(to) ensures Admission(w, log, StatusTransitioned(to, false, why)).Admitted? {
        TerminalBlockedExactly(w, log, to, why);
      }
    }
  }
}
