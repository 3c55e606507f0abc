/**
 Gate ordering. A recorded gate has everything it depends on recorded before it, so the gates that
 can ever be recorded are exactly those whose prerequisites bottom out.
 */
module Gates {
  import opened Options
  import opened Events
  import opened Projections
  import opened Preconditions
  import opened Ledger
  import opened Runs

  predicate RecordsAt(log: seq<Event>, i: int, gate: Gate) {
    0 <= i < |log| && log[i].body.GateRecorded? && log[i].body.gate == gate
  }

  /** `gate` is not on record, and every gate listed before it is. */
  predicate IsFirstMissing(required: seq<Gate>, evs: seq<Event>, k: int, gate: Gate) {
    0 <= k < |required| && required[k] == gate && !GateIn(evs, gate) && forall i :: 0 <= i < k ==> GateIn(evs, required[i])
  }

  lemma {:induction false} MissingGateMeaning(required: seq<Gate>, evs: seq<Event>)
    ensures FirstMissingGate(required, evs).None? <==> forall g :: g in required ==> GateIn(evs, g)
    ensures FirstMissingGate(required, evs).Some? ==> exists k :: IsFirstMissing(required, evs, k, FirstMissingGate(required, evs).value)
  {
    hide GateIn;
    if required != [] {
      MissingGateMeaning(required[1..], evs);
      assert required == [required[0]] + required[1..];
      if !GateIn(evs, required[0]) {
        assert IsFirstMissing(required, evs, 0, required[0]);
      } else if FirstMissingGate(required, evs).Some? {
        var gate := FirstMissingGate(required, evs).value;
        var k :| IsFirstMissing(required[1..], evs, k, gate);
        forall i | 0 <= i < k + 1 ensures GateIn(evs, required[i]) {
          if i > 0 { assert required[1..][i - 1] == required[i]; }
        }
        assert IsFirstMissing(required, evs, k + 1, gate);
      }
    }
  }

  /** Each direct prerequisite was on record, and not superseded, when the gate was recorded. */
  lemma PrerequisiteBefore(w: Workflow, log: seq<Event>, j: nat, gate: Gate, needed: Gate) returns (i: nat)
    requires Reachable(w, log) && RecordsAt(log, j, gate) && needed in w.prerequisites(gate)
    ensures i < j && RecordsAt(log, i, needed) && EffectiveAt(log[..j], i)
  {
    hide RuleFor, Extends;
    ReachablePrefix(w, log, j);
    AdmittedAt(w, log[..j], log[j]);
    AdmittedGate(w, log[..j], log[j].body);
    var evs := EffectiveEvents(log[..j]);
    MissingGateMeaning(w.prerequisites(gate), evs);
    assert GateIn(evs, needed);
    KeepMembers(log[..j], Targets(log[..j]));
    var e :| e in evs && e.body.GateRecorded? && e.body.gate == needed;
    i :| 0 <= i < j && log[..j][i] == e;
  }

  lemma AdmittedAt(w: Workflow, log: seq<Event>, e: Event)
    requires Extends(w, log, e)
    ensures Admission(w, log, e.body).Admitted?
  {
    hide Admission;
  }

  // ----- the transitive closure -----

  /** Each gate of the path needs the next one. */
  predicate IsPath(w: Workflow, path: seq<Gate>) {
    path != [] && forall k :: 0 <= k < |path| - 1 ==> path[k + 1] in w.prerequisites(path[k])
  }

  ghost predicate Descends(log: seq<Event>, path: seq<Gate>, at: seq<nat>) {
    && |at| == |path|
    && (forall k :: 0 <= k < |at| ==> RecordsAt(log, at[k], path[k]))
    && (forall k :: 0 <= k < |at| - 1 ==> at[k + 1] < at[k])
  }

  /** Along any chain of prerequisites from a recorded gate, each gate was recorded strictly before the one needing it. */
  lemma {:induction false} ClosureRecordedEarlier(w: Workflow, log: seq<Event>, j: nat, path: seq<Gate>) returns (at: seq<nat>)
    requires Reachable(w, log) && IsPath(w, path) && RecordsAt(log, j, path[0])
    ensures Descends(log, path, at) && at[0] == j
    decreases |path|
  {
    hide Reachable;
    if |path| == 1 {
      at := [j];
    } else {
      assert path[0 + 1] in w.prerequisites(path[0]);
      var i := PrerequisiteBefore(w, log, j, path[0], path[1]);
      forall k | 0 <= k < |path[1..]| - 1 ensures path[1..][k + 1] in w.prerequisites(path[1..][k]) {
        assert path[(k + 1) + 1] in w.prerequisites(path[k + 1]);
      }
      var rest := ClosureRecordedEarlier(w, log, i, path[1..]);
      at := [j] + rest;
      forall k | 0 <= k < |at| - 1 ensures at[k + 1] < at[k] {
        if k > 0 { assert rest[k - 1 + 1] < rest[k - 1]; }
      }
    }
  }

  // ----- which gates can ever be recorded -----

  /** No chain of prerequisites from `gate` has more than `depth` gates. */
  predicate Grounded(w: Workflow, gate: Gate, depth: nat)
    decreases depth
  {
    if depth == 0 then false else forall p :: p in w.prerequisites(gate) ==> Grounded(w, p, depth - 1)
  }

  lemma {:induction false} GroundedDeeper(w: Workflow, gate: Gate, depth: nat, more: nat)
    requires Grounded(w, gate, depth) && depth <= more
    ensures Grounded(w, gate, more)
    decreases depth
  {
    forall p | p in w.prerequisites(gate) ensures Grounded(w, p, more - 1) { GroundedDeeper(w, p, depth - 1, more - 1); }
  }

  lemma {:induction false} RecordedIsGrounded(w: Workflow, log: seq<Event>, j: nat, gate: Gate)
    requires Reachable(w, log) && RecordsAt(log, j, gate)
    ensures Grounded(w, gate, j + 1)
    decreases j
  {
    hide Reachable;
    forall p | p in w.prerequisites(gate) ensures Grounded(w, p, j) {
      var i := PrerequisiteBefore(w, log, j, gate, p);
      RecordedIsGrounded(w, log, i, p);
      GroundedDeeper(w, p, i + 1, j);
    }
  }

  /** A run that has only recorded gates: nothing is superseded, and no status was ever set. */
  ghost predicate GatesOnly(w: Workflow, log: seq<Event>) {
    Reachable(w, log) && forall i :: 0 <= i < |log| ==> log[i].body.GateRecorded?
  }

  lemma {:induction false} NoStatus(evs: seq<Event>)
    requires forall i :: 0 <= i < |evs| ==> evs[i].body.GateRecorded?
    ensures LastStatus(evs) == None
  {
    if evs != [] { NoStatus(evs[..|evs| - 1]); }
  }

  lemma GatesOnlyEffective(w: Workflow, log: seq<Event>)
    requires GatesOnly(w, log)
    ensures EffectiveEvents(log) == log && !Closed(w, log)
  {
    assert Targets(log) == {};
    KeepAll(log, {});
    NoStatus(log);
  }

  function Rationale(w: Workflow): string { seq(w.minRationale, i => 'x') }

  lemma RecordOne(w: Workflow, ext: Extension, log: seq<Event>, gate: Gate) returns (e: Event)
    requires GatesOnly(w, log) && Welcomed(w, ext) && !GateIn(log, gate)
    requires forall p :: p in w.prerequisites(gate) ==> GateIn(log, p)
    ensures GatesOnly(w, log + [e]) && GateIn(log + [e], gate)
  {
    hide Reachable, Extends;
    GatesOnlyEffective(w, log);
    MissingGateMeaning(w.prerequisites(gate), log);
    var body := GateRecorded(gate, Approved, Rationale(w));
    assert Admission(w, log, body).Admitted?;
    assert Fingerprint(body, None) !in Fingerprints(log);
    NextReachable(w, log, ext, body);
    e := Next(log, ext, body);
    assert e in log + [e];
  }

  lemma GateStays(log: seq<Event>, more: seq<Event>, gate: Gate)
    requires GateIn(log, gate)
    ensures GateIn(log + more, gate)
  {
    var e :| e in log && e.body.GateRecorded? && e.body.gate == gate;
    assert e in log + more;
  }

  lemma {:induction false} RecordGrounded(w: Workflow, ext: Extension, log: seq<Event>, gate: Gate, depth: nat) returns (more: seq<Event>)
    requires GatesOnly(w, log) && Welcomed(w, ext) && Grounded(w, gate, depth)
    ensures GatesOnly(w, log + more) && GateIn(log + more, gate)
    decreases depth, 1, 0
  {
    hide Reachable, GateIn, GatesOnly;
    more := RecordEach(w, ext, log, w.prerequisites(gate), depth - 1);
    if !GateIn(log + more, gate) {
      var e := RecordOne(w, ext, log + more, gate);
      assert (log + more) + [e] == log + (more + [e]);
      more := more + [e];
    }
  }

  lemma {:induction false} RecordEach(w: Workflow, ext: Extension, log: seq<Event>, gates: seq<Gate>, depth: nat) returns (more: seq<Event>)
    requires GatesOnly(w, log) && Welcomed(w, ext) && forall g :: g in gates ==> Grounded(w, g, depth)
    ensures GatesOnly(w, log + more) && forall g :: g in gates ==> GateIn(log + more, g)
    decreases depth, 2, |gates|
  {
    hide Reachable, GateIn, GatesOnly, Grounded;
    if gates == [] {
      more := [];
      assert log + more == log;
    } else {
      var n := |gates| - 1;
      assert gates == gates[..n] + [gates[n]];
      var first := RecordEach(w, ext, log, gates[..n], depth);
      var second := RecordGrounded(w, ext, log + first, gates[n], depth);
      more := first + second;
      assert (log + first) + second == log + more;
      forall g | g in gates[..n] ensures GateIn(log + more, g) { GateStays(log + first, second, g); }
    }
  }

  ghost predicate Recordable(w: Workflow, gate: Gate) {
    exists log :: Reachable(w, log) && GateIn(log, gate)
  }

  /** A gate is recorded in some run exactly when its prerequisite chains are bounded. */
  lemma RecordableExactly(w: Workflow, ext: Extension, gate: Gate)
    requires Welcomed(w, ext)
    ensures Recordable(w, gate) <==> exists depth :: Grounded(w, gate, depth)
  {
    if Recordable(w, gate) {
      var log: seq<Event> :| Reachable(w, log) && GateIn(log, gate);
      var e :| e in log && e.body.GateRecorded? && e.body.gate == gate;
      var j :| 0 <= j < |log| && log[j] == e;
      RecordedIsGrounded(w, log, j, gate);
    }
    if depth :| Grounded(w, gate, depth) {
      var more := RecordGrounded(w, ext, [], gate, depth);
      assert Reachable(w, [] + more) && GateIn([] + more, gate);
    }
  }

  // ----- cycles -----

  /** The path comes back to a gate it has passed: its start is on, or depends on, a cycle. */
  predicate Repeats(path: seq<Gate>) {
    exists i, j :: 0 <= i < j < |path| && path[i] == path[j]
  }

  predicate NeedsOneOf(w: Workflow, gate: Gate, gates: set<Gate>) {
    exists p :: p in w.prerequisites(gate) && p in gates
  }

  predicate FeedsItself(w: Workflow, gates: set<Gate>) {
    forall g :: g in gates ==> NeedsOneOf(w, g, gates)
  }

  lemma {:induction false} SelfFeedingNotGrounded(w: Workflow, gates: set<Gate>, gate: Gate, depth: nat)
    requires FeedsItself(w, gates) && gate in gates
    ensures !Grounded(w, gate, depth)
    decreases depth
  {
    if depth > 0 {
      assert NeedsOneOf(w, gate, gates);
      hide FeedsItself;
      var p :| p in w.prerequisites(gate) && p in gates;
      SelfFeedingNotGrounded(w, gates, p, depth - 1);
    }
  }

  lemma CycleFeedsItself(w: Workflow, path: seq<Gate>, i: nat, j: nat)
    requires IsPath(w, path) && i < j < |path| && path[i] == path[j]
    ensures FeedsItself(w, set k | 0 <= k < j :: path[k])
  {
    var gates := set k | 0 <= k < j :: path[k];
    forall g | g in gates ensures NeedsOneOf(w, g, gates) {
      var k :| 0 <= k < j && path[k] == g;
      assert path[k + 1] in w.prerequisites(g);
      assert path[i] in gates;
      if k + 1 == j { assert path[k + 1] in gates; }
    }
  }

  /** No run records a gate that is on, or depends on, a prerequisite cycle. */
  lemma CyclicNeverRecorded(w: Workflow, log: seq<Event>, path: seq<Gate>)
    requires Reachable(w, log) && IsPath(w, path) && Repeats(path)
    ensures !GateIn(log, path[0])
  {
    hide Reachable, FeedsItself, Grounded;
    var i, j :| 0 <= i < j < |path| && path[i] == path[j];
    CycleFeedsItself(w, path, i, j);
    if GateIn(log, path[0]) {
      var e :| e in log && e.body.GateRecorded? && e.body.gate == path[0];
      var k :| 0 <= k < |log| && log[k] == e;
      RecordedIsGrounded(w, log, k, path[0]);
      SelfFeedingNotGrounded(w, set k | 0 <= k < j :: path[k], path[0], k + 1);
    }
  }

  /** A gate that is not grounded at a depth starts a path of that many steps. */
  lemma {:induction false} LongPath(w: Workflow, gate: Gate, depth: nat) returns (path: seq<Gate>)
    requires !Grounded(w, gate, depth)
    ensures IsPath(w, path) && path[0] == gate && |path| == depth + 1
    decreases depth
  {
    if depth == 0 {
      path := [gate];
    } else {
      var p :| p in w.prerequisites(gate) && !Grounded(w, p, depth - 1);
      var rest := LongPath(w, p, depth - 1);
      path := [gate] + rest;
      forall k | 0 <= k < |path| - 1 ensures path[k + 1] in w.prerequisites(path[k]) {
        if k > 0 { assert rest[k - 1 + 1] in w.prerequisites(rest[k - 1]); }
      }
    }
  }

  lemma {:induction false} Pigeonhole(s: seq<Gate>, holes: set<Gate>)
    requires (forall k :: 0 <= k < |s| ==> s[k] in holes) && |s| > |holes|
    ensures Repeats(s)
  {
    var n := |s| - 1;
    if k :| 0 <= k < n && s[k] == s[n] {
    } else {
      Pigeonhole(s[..n], holes - {s[n]});
      var i, j :| 0 <= i < j < |s[..n]| && s[..n][i] == s[..n][j];
      assert s[i] == s[j];
    }
  }

  /** Where prerequisites stay among finitely many gates, the gates never recorded are exactly those that reach a cycle. */
  lemma RecordableIffNoCycle(w: Workflow, ext: Extension, declared: set<Gate>, gate: Gate)
    requires Welcomed(w, ext)
    requires forall g, p :: p in w.prerequisites(g) ==> p in declared
    ensures Recordable(w, gate) <==> forall path :: IsPath(w, path) && path[0] == gate ==> !Repeats(path)
  {
    RecordableExactly(w, ext, gate);
    if Recordable(w, gate) {
      var log: seq<Event> :| Reachable(w, log) && GateIn(log, gate);
      forall path | IsPath(w, path) && path[0] == gate ensures !Repeats(path) {
        if Repeats(path) { CyclicNeverRecorded(w, log, path); }
      }
    } else {
      var path := LongPath(w, gate, |declared| + 1);
      forall k | 0 <= k < |path[1..]| ensures path[1..][k] in declared {
        assert path[k + 1] in w.prerequisites(path[k]);
      }
      Pigeonhole(path[1..], declared);
      var i, j :| 0 <= i < j < |path[1..]| && path[1..][i] == path[1..][j];
      assert path[i + 1] == path[j + 1];
    }
  }
}
