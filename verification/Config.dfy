/**
 Workflows read from a configuration file: which specs `from_spec` accepts, what the lookups of an
 accepted one answer, and which of its gates can ever be recorded.
 */
module Config {
  import opened Options
  import opened ByteStrings
  import opened Events
  import opened Preconditions
  import opened Ledger
  import opened Gates

  datatype PhaseSpec = PhaseSpec(id: string, acceptsSkips: seq<string>)

  datatype GateSpec = GateSpec(id: string, prerequisites: seq<string>)

  datatype Spec = Spec(
    name: string,
    schemaVersion: nat,
    phases: seq<PhaseSpec>,
    requiredPhases: map<string, seq<string>>,
    defaultScope: string,
    gates: seq<GateSpec>,
    terminalStatuses: seq<StatusId>,
    minRationaleChars: Option<nat>)

  datatype ConfigError =
    | DuplicatePhase(id: string)
    | DuplicateGate(id: string)
    | DanglingPrerequisite(gate: string, prerequisite: string)
    | NoScopes
    | MissingDefaultScope
    | UndeclaredDefaultScope(key: string)
    | UndeclaredPhase(key: string, id: string)

  datatype Result<T> = Ok(value: T) | Err(error: ConfigError)

  datatype Tables = Tables(
    spec: Spec,
    skips: map<string, seq<string>>,
    prerequisites: map<string, seq<Gate>>,
    required: map<string, seq<Phase>>)

  const DEFAULT_MIN_RATIONALE_CHARS: nat := 8

  function PhaseNamed(id: string): Phase { Phase(id, "") }

  function GateNamed(id: string): Gate { Gate(id, "") }

  function PhasesNamed(ids: seq<string>): seq<Phase> { seq(|ids|, i requires 0 <= i < |ids| => PhaseNamed(ids[i])) }

  function GatesNamed(ids: seq<string>): seq<Gate> { seq(|ids|, i requires 0 <= i < |ids| => GateNamed(ids[i])) }

  // ----- which specs are valid -----

  function PhaseIds(phases: seq<PhaseSpec>): seq<string> { seq(|phases|, i requires 0 <= i < |phases| => phases[i].id) }

  function GateIds(gates: seq<GateSpec>): seq<string> { seq(|gates|, i requires 0 <= i < |gates| => gates[i].id) }

  ghost predicate Distinct(ids: seq<string>) { forall i, j :: 0 <= i < j < |ids| ==> ids[i] != ids[j] }

  predicate AllIn(ids: seq<string>, declared: seq<string>) { forall id :: id in ids ==> id in declared }

  predicate PrerequisitesDeclared(gates: seq<GateSpec>, declared: seq<string>) {
    forall i :: 0 <= i < |gates| ==> AllIn(gates[i].prerequisites, declared)
  }

  ghost predicate Unambiguous(spec: Spec) { Distinct(PhaseIds(spec.phases)) && Distinct(GateIds(spec.gates)) }

  ghost predicate GatesResolve(spec: Spec) { Unambiguous(spec) && PrerequisitesDeclared(spec.gates, GateIds(spec.gates)) }

  ghost predicate ScopesNamed(spec: Spec) {
    GatesResolve(spec) && spec.defaultScope != "" && spec.defaultScope in spec.requiredPhases
  }

  ghost predicate Valid(spec: Spec) {
    ScopesNamed(spec) && forall key :: key in spec.requiredPhases ==> AllIn(spec.requiredPhases[key], PhaseIds(spec.phases))
  }

  /** `id` at position `j` is the first to repeat an earlier one. */
  ghost predicate FirstRepeat(ids: seq<string>, j: int, id: string) {
    0 <= j < |ids| && ids[j] == id && id in ids[..j] && Distinct(ids[..j])
  }

  /** `missing` is the first of `ids` not declared. */
  predicate FirstUndeclared(ids: seq<string>, declared: seq<string>, missing: string) {
    exists k :: 0 <= k < |ids| && ids[k] == missing && missing !in declared && AllIn(ids[..k], declared)
  }

  predicate DanglesAt(spec: Spec, i: int, prerequisite: string) {
    && 0 <= i < |spec.gates|
    && PrerequisitesDeclared(spec.gates[..i], GateIds(spec.gates))
    && FirstUndeclared(spec.gates[i].prerequisites, GateIds(spec.gates), prerequisite)
  }

  /** What each error says of the spec: the named fault is there, and every earlier check passed. */
  ghost predicate Explains(spec: Spec, error: ConfigError) {
    match error
    case DuplicatePhase(id) => exists j :: FirstRepeat(PhaseIds(spec.phases), j, id)
    case DuplicateGate(id) => Distinct(PhaseIds(spec.phases)) && exists j :: FirstRepeat(GateIds(spec.gates), j, id)
    case DanglingPrerequisite(gate, p) => Unambiguous(spec) && exists i :: DanglesAt(spec, i, p) && spec.gates[i].id == gate
    case NoScopes => GatesResolve(spec) && spec.requiredPhases == map[]
    case MissingDefaultScope => GatesResolve(spec) && spec.requiredPhases != map[] && spec.defaultScope == ""
    case UndeclaredDefaultScope(key) =>
      GatesResolve(spec) && spec.requiredPhases != map[] && key == spec.defaultScope != "" && key !in spec.requiredPhases
    case UndeclaredPhase(key, id) =>
      ScopesNamed(spec) && key in spec.requiredPhases && FirstUndeclared(spec.requiredPhases[key], PhaseIds(spec.phases), id)
  }

  /** The tables hold what the spec declares, and nothing else. */
  ghost predicate Represents(t: Tables, spec: Spec) {
    && t.spec == spec
    && SkipTable(t.skips, spec.phases)
    && PrerequisiteTable(t.prerequisites, spec.gates)
    && RequiredTable(t.required, spec.requiredPhases, spec.requiredPhases.Keys)
  }

  ghost predicate SkipTable(skips: map<string, seq<string>>, phases: seq<PhaseSpec>) {
    && (forall id :: id in skips <==> id in PhaseIds(phases))
    && forall i :: 0 <= i < |phases| ==> phases[i].id in skips && skips[phases[i].id] == phases[i].acceptsSkips
  }

  ghost predicate PrerequisiteTable(table: map<string, seq<Gate>>, gates: seq<GateSpec>) {
    && (forall id :: id in table <==> id in GateIds(gates))
    && forall i :: 0 <= i < |gates| ==> gates[i].id in table && table[gates[i].id] == GatesNamed(gates[i].prerequisites)
  }

  ghost predicate RequiredTable(table: map<string, seq<Phase>>, required: map<string, seq<string>>, keys: set<string>) {
    && (forall key :: key in table <==> key in keys)
    && forall key :: key in keys && key in required && key in table ==> table[key] == PhasesNamed(required[key])
  }

  // ----- from_spec -----

  method LookupPhases(phases: seq<PhaseSpec>) returns (r: Result<map<string, seq<string>>>)
    ensures r.Ok? ==> Distinct(PhaseIds(phases)) && SkipTable(r.value, phases)
    ensures r.Err? ==> r.error.DuplicatePhase? && exists j :: FirstRepeat(PhaseIds(phases), j, r.error.id)
  {
    var skips: map<string, seq<string>> := map[];
    for i := 0 to |phases|
      invariant Distinct(PhaseIds(phases[..i])) && SkipTable(skips, phases[..i])
    {
      assert PhaseIds(phases[..i]) == PhaseIds(phases)[..i];
      if phases[i].id in skips {
        assert FirstRepeat(PhaseIds(phases), i, phases[i].id);
        return Err(DuplicatePhase(phases[i].id));
      }
      skips := skips[phases[i].id := phases[i].acceptsSkips];
      assert PhaseIds(phases[..i + 1]) == PhaseIds(phases[..i]) + [phases[i].id];
    }
    assert phases[..|phases|] == phases;
    return Ok(skips);
  }

  method LookupGates(gates: seq<GateSpec>) returns (r: Result<map<string, Gate>>)
    ensures r.Ok? ==> Distinct(GateIds(gates)) && forall id :: id in r.value <==> id in GateIds(gates)
    ensures r.Err? ==> r.error.DuplicateGate? && exists j :: FirstRepeat(GateIds(gates), j, r.error.id)
  {
    var lookup: map<string, Gate> := map[];
    for i := 0 to |gates|
      invariant Distinct(GateIds(gates[..i])) && forall id :: id in lookup <==> id in GateIds(gates[..i])
    {
      assert GateIds(gates[..i]) == GateIds(gates)[..i];
      if gates[i].id in lookup {
        assert FirstRepeat(GateIds(gates), i, gates[i].id);
        return Err(DuplicateGate(gates[i].id));
      }
      lookup := lookup[gates[i].id := GateNamed(gates[i].id)];
      assert GateIds(gates[..i + 1]) == GateIds(gates[..i]) + [gates[i].id];
    }
    assert gates[..|gates|] == gates;
    return Ok(lookup);
  }

  method ResolveGate(ids: seq<string>, lookup: map<string, Gate>, ghost declared: seq<string>)
    returns (missing: Option<string>, gates: seq<Gate>)
    requires forall id :: id in lookup <==> id in declared
    ensures missing.None? ==> AllIn(ids, declared) && gates == GatesNamed(ids)
    ensures missing.Some? ==> FirstUndeclared(ids, declared, missing.value)
  {
    gates := [];
    for k := 0 to |ids|
      invariant AllIn(ids[..k], declared) && gates == GatesNamed(ids[..k])
    {
      if ids[k] !in lookup { return Some(ids[k]), gates; }
      gates := gates + [GateNamed(ids[k])];
      assert ids[..k + 1] == ids[..k] + [ids[k]];
    }
    assert ids[..|ids|] == ids;
    missing := None;
  }

  method ResolvePrerequisites(spec: Spec, lookup: map<string, Gate>) returns (r: Result<map<string, seq<Gate>>>)
    requires Distinct(GateIds(spec.gates)) && forall id :: id in lookup <==> id in GateIds(spec.gates)
    ensures r.Ok? ==> PrerequisitesDeclared(spec.gates, GateIds(spec.gates)) && PrerequisiteTable(r.value, spec.gates)
    ensures r.Err? ==> r.error.DanglingPrerequisite?
    ensures r.Err? ==> exists i :: DanglesAt(spec, i, r.error.prerequisite) && spec.gates[i].id == r.error.gate
  {
    var gates, table: map<string, seq<Gate>> := spec.gates, map[];
    for i := 0 to |gates|
      invariant PrerequisitesDeclared(gates[..i], GateIds(gates)) && PrerequisiteTable(table, gates[..i])
    {
      var missing, resolved := ResolveGate(gates[i].prerequisites, lookup, GateIds(gates));
      if missing.Some? {
        assert DanglesAt(spec, i, missing.value);
        return Err(DanglingPrerequisite(gates[i].id, missing.value));
      }
      assert gates[i].id !in GateIds(gates[..i]) by {
        assert GateIds(gates)[i] == gates[i].id && GateIds(gates[..i]) == GateIds(gates)[..i];
      }
      table := table[gates[i].id := resolved];
      assert GateIds(gates[..i + 1]) == GateIds(gates[..i]) + [gates[i].id];
      assert forall k :: 0 <= k < i ==> gates[..i + 1][k] == gates[..i][k];
    }
    assert gates[..|gates|] == gates;
    return Ok(table);
  }

  method ResolveRequired(ids: seq<string>, skips: map<string, seq<string>>, ghost declared: seq<string>)
    returns (missing: Option<string>, phases: seq<Phase>)
    requires forall id :: id in skips <==> id in declared
    ensures missing.None? ==> AllIn(ids, declared) && phases == PhasesNamed(ids)
    ensures missing.Some? ==> FirstUndeclared(ids, declared, missing.value)
  {
    phases := [];
    for k := 0 to |ids|
      invariant AllIn(ids[..k], declared) && phases == PhasesNamed(ids[..k])
    {
      if ids[k] !in skips { return Some(ids[k]), phases; }
      phases := phases + [PhaseNamed(ids[k])];
      assert ids[..k + 1] == ids[..k] + [ids[k]];
    }
    assert ids[..|ids|] == ids;
    missing := None;
  }

  /** Scopes are visited in no particular order, as a hash map is. */
  method ResolveScopes(spec: Spec, skips: map<string, seq<string>>) returns (r: Result<map<string, seq<Phase>>>)
    requires forall id :: id in skips <==> id in PhaseIds(spec.phases)
    ensures r.Ok? ==> forall key :: key in spec.requiredPhases ==> AllIn(spec.requiredPhases[key], PhaseIds(spec.phases))
    ensures r.Ok? ==> RequiredTable(r.value, spec.requiredPhases, spec.requiredPhases.Keys)
    ensures r.Err? ==> r.error.UndeclaredPhase? && r.error.key in spec.requiredPhases
    ensures r.Err? ==> FirstUndeclared(spec.requiredPhases[r.error.key], PhaseIds(spec.phases), r.error.id)
  {
    var table: map<string, seq<Phase>> := map[];
    var rest := spec.requiredPhases.Keys;
    while rest != {}
      invariant rest <= spec.requiredPhases.Keys
      invariant RequiredTable(table, spec.requiredPhases, spec.requiredPhases.Keys - rest)
      invariant forall key :: key in spec.requiredPhases && key !in rest ==> AllIn(spec.requiredPhases[key], PhaseIds(spec.phases))
      decreases |rest|
    {
      var key :| key in rest;
      var missing, phases := ResolveRequired(spec.requiredPhases[key], skips, PhaseIds(spec.phases));
      if missing.Some? { return Err(UndeclaredPhase(key, missing.value)); }
      table := table[key := phases];
      rest := rest - {key};
    }
    return Ok(table);
  }

  /** `ConfigWorkflow::from_spec`: every valid spec is accepted, every other one is refused with a true reason. */
  method FromSpec(spec: Spec) returns (r: Result<Tables>)
    ensures r.Ok? <==> Valid(spec)
    ensures r.Ok? ==> Represents(r.value, spec)
    ensures r.Err? ==> Explains(spec, r.error)
  {
    hide Distinct, PrerequisitesDeclared, SkipTable, PrerequisiteTable, RequiredTable, AllIn;
    var phases := LookupPhases(spec.phases);
    if phases.Err? {
      RepeatNotDistinct(PhaseIds(spec.phases), phases.error.id);
      return Err(phases.error);
    }
    var gates := LookupGates(spec.gates);
    if gates.Err? {
      RepeatNotDistinct(GateIds(spec.gates), gates.error.id);
      return Err(gates.error);
    }
    var prerequisites := ResolvePrerequisites(spec, gates.value);
    if prerequisites.Err? {
      DanglingNotDeclared(spec, prerequisites.error.prerequisite);
      return Err(prerequisites.error);
    }
    if spec.requiredPhases == map[] { return Err(NoScopes); }
    if spec.defaultScope == "" { return Err(MissingDefaultScope); }
    if spec.defaultScope !in spec.requiredPhases { return Err(UndeclaredDefaultScope(spec.defaultScope)); }
    SkipKeys(phases.value, spec.phases);
    var required := ResolveScopes(spec, phases.value);
    if required.Err? {
      UndeclaredNotAll(spec.requiredPhases[required.error.key], PhaseIds(spec.phases), required.error.id);
      return Err(required.error);
    }
    return Ok(Tables(spec, phases.value, prerequisites.value, required.value));
  }

  lemma SkipKeys(skips: map<string, seq<string>>, phases: seq<PhaseSpec>)
    requires SkipTable(skips, phases)
    ensures forall id :: id in skips <==> id in PhaseIds(phases)
  {}

  lemma RepeatNotDistinct(ids: seq<string>, id: string)
    requires exists j :: FirstRepeat(ids, j, id)
    ensures !Distinct(ids)
  {
    var j :| FirstRepeat(ids, j, id);
    var i :| 0 <= i < j && ids[..j][i] == id;
    assert ids[i] == ids[j];
  }

  lemma UndeclaredNotAll(ids: seq<string>, declared: seq<string>, missing: string)
    requires FirstUndeclared(ids, declared, missing)
    ensures !AllIn(ids, declared)
  {}

  lemma DanglingNotDeclared(spec: Spec, p: string)
    requires exists i :: DanglesAt(spec, i, p)
    ensures !PrerequisitesDeclared(spec.gates, GateIds(spec.gates))
  {
    var i :| DanglesAt(spec, i, p);
    UndeclaredNotAll(spec.gates[i].prerequisites, GateIds(spec.gates), p);
  }

  // ----- when the error is determined -----

  /** The scope requires a phase that is not declared. */
  predicate BadScope(spec: Spec, key: string) {
    key in spec.requiredPhases && !AllIn(spec.requiredPhases[key], PhaseIds(spec.phases))
  }

  ghost predicate OneErrorOnly(spec: Spec) {
    forall e, f :: Explains(spec, e) && Explains(spec, f) ==> e == f
  }

  lemma FirstUndeclaredUnique(ids: seq<string>, declared: seq<string>, a: string, b: string)
    requires FirstUndeclared(ids, declared, a) && FirstUndeclared(ids, declared, b)
    ensures a == b
  {
    var j :| 0 <= j < |ids| && ids[j] == a && a !in declared && AllIn(ids[..j], declared);
    var k :| 0 <= k < |ids| && ids[k] == b && b !in declared && AllIn(ids[..k], declared);
    forall i | 0 <= i < k ensures ids[i] in declared { assert ids[..k][i] in ids[..k]; }
    forall i | 0 <= i < j ensures ids[i] in declared { assert ids[..j][i] in ids[..j]; }
  }

  lemma {:induction false} FirstUndeclaredExists(ids: seq<string>, declared: seq<string>) returns (missing: string)
    requires !AllIn(ids, declared)
    ensures FirstUndeclared(ids, declared, missing)
  {
    var n := |ids| - 1;
    assert ids == ids[..n] + [ids[n]];
    if AllIn(ids[..n], declared) {
      missing := ids[n];
    } else {
      missing := FirstUndeclaredExists(ids[..n], declared);
      var k :| 0 <= k < n && ids[..n][k] == missing && missing !in declared && AllIn(ids[..n][..k], declared);
      assert ids[..n][..k] == ids[..k] && ids[k] == missing;
    }
  }

  lemma FirstRepeatUnique(ids: seq<string>, i: nat, a: string, j: nat, b: string)
    requires FirstRepeat(ids, i, a) && FirstRepeat(ids, j, b)
    ensures a == b
  {
    if i < j { RepeatInside(ids, i, a, j); }
    if j < i { RepeatInside(ids, j, b, i); }
  }

  lemma RepeatInside(ids: seq<string>, i: nat, a: string, j: nat)
    requires FirstRepeat(ids, i, a) && i < j <= |ids|
    ensures !Distinct(ids[..j])
  {
    var k :| 0 <= k < i && ids[..i][k] == a;
    assert ids[..j][k] == ids[..j][i];
  }

  lemma DanglesOnce(spec: Spec, i: nat, p: string, j: nat, q: string)
    requires DanglesAt(spec, i, p) && DanglesAt(spec, j, q)
    ensures i == j && p == q
  {
    if i < j { DangleInside(spec, i, p, j); }
    if j < i { DangleInside(spec, j, q, i); }
    FirstUndeclaredUnique(spec.gates[i].prerequisites, GateIds(spec.gates), p, q);
  }

  lemma DangleInside(spec: Spec, i: nat, p: string, j: nat)
    requires DanglesAt(spec, i, p) && i < j <= |spec.gates|
    ensures !PrerequisitesDeclared(spec.gates[..j], GateIds(spec.gates))
  {
    UndeclaredNotAll(spec.gates[i].prerequisites, GateIds(spec.gates), p);
    assert spec.gates[..j][i] == spec.gates[i];
  }

  /** Which check an error comes from. */
  function Stage(error: ConfigError): nat {
    match error
    case DuplicatePhase(_) => 0
    case DuplicateGate(_) => 1
    case DanglingPrerequisite(_, _) => 2
    case NoScopes => 3
    case MissingDefaultScope => 4
    case UndeclaredDefaultScope(_) => 5
    case UndeclaredPhase(_, _) => 6
  }

  /** An error says that its check was the first to fail, so two true errors come from one check. */
  lemma SameStage(spec: Spec, e: ConfigError, f: ConfigError)
    requires Explains(spec, e) && Explains(spec, f)
    ensures Stage(e) == Stage(f)
  {
    hide Distinct, PrerequisitesDeclared, FirstRepeat, DanglesAt, FirstUndeclared, PhaseIds, GateIds;
    FailedCheck(spec, e);
    FailedCheck(spec, f);
  }

  lemma FailedCheck(spec: Spec, error: ConfigError)
    requires Explains(spec, error)
    ensures error.DuplicatePhase? ==> !Distinct(PhaseIds(spec.phases))
    ensures error.DuplicateGate? ==> !Distinct(GateIds(spec.gates))
    ensures error.DanglingPrerequisite? ==> !PrerequisitesDeclared(spec.gates, GateIds(spec.gates))
  {
    match error
    case DuplicatePhase(id) => RepeatNotDistinct(PhaseIds(spec.phases), id);
    case DuplicateGate(id) => RepeatNotDistinct(GateIds(spec.gates), id);
    case DanglingPrerequisite(_, p) => DanglingNotDeclared(spec, p);
    case _ =>
  }

  /** Every check but the last has one true error; the last has one for each bad scope. */
  lemma SameError(spec: Spec, e: ConfigError, f: ConfigError)
    requires Explains(spec, e) && Explains(spec, f) && (e.UndeclaredPhase? && f.UndeclaredPhase? ==> e.key == f.key)
    ensures e == f
  {
    SameStage(spec, e, f);
    match e
    case DuplicatePhase(a) =>
      var i :| FirstRepeat(PhaseIds(spec.phases), i, a);
      var j :| FirstRepeat(PhaseIds(spec.phases), j, f.id);
      FirstRepeatUnique(PhaseIds(spec.phases), i, a, j, f.id);
    case DuplicateGate(a) =>
      var i :| FirstRepeat(GateIds(spec.gates), i, a);
      var j :| FirstRepeat(GateIds(spec.gates), j, f.id);
      FirstRepeatUnique(GateIds(spec.gates), i, a, j, f.id);
    case DanglingPrerequisite(gate, p) =>
      var i :| DanglesAt(spec, i, p) && spec.gates[i].id == gate;
      var j :| DanglesAt(spec, j, f.prerequisite) && spec.gates[j].id == f.gate;
      DanglesOnce(spec, i, p, j, f.prerequisite);
    case UndeclaredPhase(key, id) =>
      FirstUndeclaredUnique(spec.requiredPhases[key], PhaseIds(spec.phases), id, f.id);
    case _ =>
  }

  lemma BadScopeNamed(spec: Spec, key: string, id: string)
    requires Explains(spec, UndeclaredPhase(key, id))
    ensures ScopesNamed(spec) && BadScope(spec, key)
  {
    UndeclaredNotAll(spec.requiredPhases[key], PhaseIds(spec.phases), id);
  }

  /** The error is determined by the spec exactly when an earlier check fails or at most one scope is bad. */
  lemma ErrorDeterminedExactly(spec: Spec)
    ensures OneErrorOnly(spec) <==> !ScopesNamed(spec) || forall a, b :: BadScope(spec, a) && BadScope(spec, b) ==> a == b
  {
    hide Distinct, PrerequisitesDeclared, FirstRepeat, DanglesAt, FirstUndeclared, PhaseIds, GateIds, AllIn;
    if !ScopesNamed(spec) || forall a, b :: BadScope(spec, a) && BadScope(spec, b) ==> a == b {
      forall e, f | Explains(spec, e) && Explains(spec, f) ensures e == f {
        if e.UndeclaredPhase? { BadScopeNamed(spec, e.key, e.id); }
        if f.UndeclaredPhase? { BadScopeNamed(spec, f.key, f.id); }
        SameError(spec, e, f);
      }
    } else {
      var a, b :| BadScope(spec, a) && BadScope(spec, b) && a != b;
      var x := FirstUndeclaredExists(spec.requiredPhases[a], PhaseIds(spec.phases));
      var y := FirstUndeclaredExists(spec.requiredPhases[b], PhaseIds(spec.phases));
      assert Explains(spec, UndeclaredPhase(a, x)) && Explains(spec, UndeclaredPhase(b, y));
    }
  }

  /** Two scopes, each requiring a phase nobody declared. */
  function TwoBadScopes(): Spec {
    Spec("two", 1, [], map["a" := ["x"], "b" := ["y"]], "a", [], [], None)
  }

  lemma TwoTrueErrors()
    ensures Explains(TwoBadScopes(), UndeclaredPhase("a", "x")) && Explains(TwoBadScopes(), UndeclaredPhase("b", "y"))
  {
    var spec := TwoBadScopes();
    assert spec.requiredPhases["a"][0] == "x" && spec.requiredPhases["b"][0] == "y";
    assert PhaseIds(spec.phases) == [] && AllIn([], []);
    assert spec.requiredPhases["a"][..0] == [] && spec.requiredPhases["b"][..0] == [];
    assert FirstUndeclared(spec.requiredPhases["a"], [], "x") && FirstUndeclared(spec.requiredPhases["b"], [], "y");
  }

  // ----- the lookups of an accepted spec -----

  /** Exact tag, else the default scope's list. */
  function RequiredPhases(t: Tables, scope: Scope): seq<Phase> {
    if scope.Tag() in t.required then t.required[scope.Tag()]
    else if t.spec.defaultScope in t.required then t.required[t.spec.defaultScope]
    else []
  }

  function Prerequisites(t: Tables, gate: Gate): seq<Gate> {
    if gate.id in t.prerequisites then t.prerequisites[gate.id] else []
  }

  predicate AcceptsSkip(t: Tables, phase: Phase, skip: SkipKind) {
    && phase.id in t.skips
    && match skip
       case ScopeTooNarrow => "scope" in t.skips[phase.id]
       case Amnesty(code) => code in t.skips[phase.id] || "*" in t.skips[phase.id]
       case CustomSkip(code) => code in t.skips[phase.id] || "*" in t.skips[phase.id]
  }

  /** The workflow the kernel sees. Its payload type refuses nothing. */
  function WorkflowOf(t: Tables, salt: Bytes): Workflow {
    Workflow(
      t.spec.name,
      t.spec.schemaVersion,
      salt,
      scope => RequiredPhases(t, scope),
      status => status in t.spec.terminalStatuses,
      if t.spec.minRationaleChars.Some? then t.spec.minRationaleChars.value else DEFAULT_MIN_RATIONALE_CHARS,
      gate => Prerequisites(t, gate),
      (phase, skip) => AcceptsSkip(t, phase, skip),
      (_, _) => None)
  }

  /** Every scope gets a declared list of declared phases: its own, or the default scope's. */
  lemma RequiredFallsBack(t: Tables, spec: Spec, salt: Bytes, scope: Scope)
    requires Valid(spec) && Represents(t, spec)
    ensures
      var key := if scope.Tag() in spec.requiredPhases then scope.Tag() else spec.defaultScope;
      var required := WorkflowOf(t, salt).requiredPhases(scope);
      && required == PhasesNamed(spec.requiredPhases[key])
      && forall p :: p in required ==> p.id in PhaseIds(spec.phases)
  {}

  /** A skip is accepted exactly when the one declaration of the phase lists its code, or a wildcard for coded skips. */
  lemma SkipAcceptedExactly(t: Tables, spec: Spec, salt: Bytes, id: string, skip: SkipKind)
    requires Valid(spec) && Represents(t, spec)
    ensures WorkflowOf(t, salt).acceptsSkip(PhaseNamed(id), skip) <==> DeclaresSkip(spec, id, skip)
  {
    if AcceptsSkip(t, PhaseNamed(id), skip) {
      assert id in PhaseIds(spec.phases);
      var i :| 0 <= i < |spec.phases| && PhaseIds(spec.phases)[i] == id;
      assert SkipListed(spec.phases[i], skip);
    }
  }

  predicate DeclaresSkip(spec: Spec, id: string, skip: SkipKind) {
    exists i :: 0 <= i < |spec.phases| && spec.phases[i].id == id && SkipListed(spec.phases[i], skip)
  }

  predicate SkipListed(phase: PhaseSpec, skip: SkipKind) {
    match skip
    case ScopeTooNarrow => "scope" in phase.acceptsSkips
    case Amnesty(code) => code in phase.acceptsSkips || "*" in phase.acceptsSkips
    case CustomSkip(code) => code in phase.acceptsSkips || "*" in phase.acceptsSkips
  }

  /** Which list a scope gets: the named scopes by their names, a custom one by its own, and the default's where there is none. */
  lemma ListForScope(t: Tables, spec: Spec, salt: Bytes, scope: Scope, key: string)
    requires Valid(spec) && Represents(t, spec) && key in spec.requiredPhases
    requires match scope case Tiny => key == "tiny" case Standard => key == "standard" case Epic => key == "epic" case Custom(name) => key == name
    ensures
      var required, ids := WorkflowOf(t, salt).requiredPhases(scope), spec.requiredPhases[key];
      |required| == |ids| && forall i :: 0 <= i < |ids| ==> required[i] == PhaseNamed(ids[i])
  {}

  /** The rest of the kernel's view is the spec's own words; a rationale floor nobody set is eight characters. */
  lemma SettingsCarry(t: Tables, spec: Spec, salt: Bytes)
    requires Valid(spec) && Represents(t, spec)
    ensures
      var w := WorkflowOf(t, salt);
      && w.name == spec.name && w.schemaVersion == spec.schemaVersion && w.salt == salt
      && (forall status :: w.isTerminal(status) <==> exists i :: 0 <= i < |spec.terminalStatuses| && spec.terminalStatuses[i] == status)
      && (spec.minRationaleChars.Some? ==> w.minRationale == spec.minRationaleChars.value)
      && (spec.minRationaleChars.None? ==> w.minRationale == 8)
      && forall ext, log :: w.checkExtension(ext, log).None?
  {}

  /** A declared gate needs the gates its one declaration names, in that order; an undeclared one needs none. */
  lemma PrerequisitesExactly(t: Tables, spec: Spec, salt: Bytes, gate: Gate)
    requires Valid(spec) && Represents(t, spec)
    ensures
      var needs := WorkflowOf(t, salt).prerequisites(gate);
      && (forall i :: 0 <= i < |spec.gates| && spec.gates[i].id == gate.id ==>
            |needs| == |spec.gates[i].prerequisites|
            && forall k :: 0 <= k < |needs| ==> needs[k].id == spec.gates[i].prerequisites[k] && needs[k] == GateNamed(needs[k].id))
      && (needs != [] ==> exists i :: 0 <= i < |spec.gates| && spec.gates[i].id == gate.id)
  {
    if gate.id in GateIds(spec.gates) {
      var i :| 0 <= i < |spec.gates| && GateIds(spec.gates)[i] == gate.id;
      assert spec.gates[i].id == gate.id;
    }
  }

  // ----- gates of an accepted spec -----

  lemma PrerequisitesAreDeclared(t: Tables, spec: Spec, gate: Gate, p: Gate)
    requires Valid(spec) && Represents(t, spec) && p in Prerequisites(t, gate)
    ensures exists i :: 0 <= i < |spec.gates| && spec.gates[i].id == gate.id && p.id in spec.gates[i].prerequisites
    ensures p.id in GateIds(spec.gates) && p == GateNamed(p.id)
  {
    assert gate.id in GateIds(spec.gates);
    var i :| 0 <= i < |spec.gates| && GateIds(spec.gates)[i] == gate.id;
    var ids := spec.gates[i].prerequisites;
    assert p in GatesNamed(ids);
    var k :| 0 <= k < |ids| && GatesNamed(ids)[k] == p;
    assert ids[k] in ids && AllIn(ids, GateIds(spec.gates));
  }

  /** A gate of a configured workflow can be recorded in some run exactly when it reaches no prerequisite cycle. */
  lemma ConfiguredGateRecordable(t: Tables, spec: Spec, salt: Bytes, gate: Gate)
    requires Valid(spec) && Represents(t, spec)
    ensures
      var w := WorkflowOf(t, salt);
      Recordable(w, gate) <==> forall path :: IsPath(w, path) && path[0] == gate ==> !Repeats(path)
  {
    hide Valid, Represents, Recordable, IsPath;
    var w := WorkflowOf(t, salt);
    var declared := set id | id in GateIds(spec.gates) :: GateNamed(id);
    forall g, p | p in w.prerequisites(g) ensures p in declared { PrerequisitesAreDeclared(t, spec, g, p); }
    RecordableIffNoCycle(w, "", declared, gate);
  }

  /** What the field's description asks for: prerequisites name gates declared earlier. `from_spec` does not check it. */
  predicate Laddered(spec: Spec) {
    forall i, k :: 0 <= i < |spec.gates| && 0 <= k < |spec.gates[i].prerequisites| ==>
      spec.gates[i].prerequisites[k] in GateIds(spec.gates[..i])
  }

  lemma LadderStep(t: Tables, spec: Spec, i: nat, p: Gate) returns (j: nat)
    requires Valid(spec) && Represents(t, spec) && Laddered(spec) && i < |spec.gates|
    requires p in Prerequisites(t, GateNamed(spec.gates[i].id))
    ensures j < i && p == GateNamed(spec.gates[j].id)
  {
    var ids := spec.gates[i].prerequisites;
    assert p in GatesNamed(ids);
    var k :| 0 <= k < |ids| && GatesNamed(ids)[k] == p;
    j :| 0 <= j < i && GateIds(spec.gates[..i])[j] == ids[k];
  }

  lemma {:induction false} LadderGrounded(t: Tables, spec: Spec, salt: Bytes, i: nat)
    requires Valid(spec) && Represents(t, spec) && Laddered(spec) && i < |spec.gates|
    ensures Grounded(WorkflowOf(t, salt), GateNamed(spec.gates[i].id), i + 1)
    decreases i
  {
    hide Valid, Represents, Laddered, Prerequisites;
    var w := WorkflowOf(t, salt);
    forall p | p in w.prerequisites(GateNamed(spec.gates[i].id)) ensures Grounded(w, p, i) {
      var j := LadderStep(t, spec, i, p);
      LadderGrounded(t, spec, salt, j);
      GroundedDeeper(w, p, j + 1, i);
    }
  }

  /** In a laddered spec every declared gate can be recorded. */
  lemma LadderRecordable(t: Tables, spec: Spec, salt: Bytes, i: nat)
    requires Valid(spec) && Represents(t, spec) && Laddered(spec) && i < |spec.gates|
    ensures Recordable(WorkflowOf(t, salt), GateNamed(spec.gates[i].id))
  {
    hide Valid, Represents, Laddered, Recordable, Grounded;
    var w, g := WorkflowOf(t, salt), GateNamed(spec.gates[i].id);
    LadderGrounded(t, spec, salt, i);
    assert Grounded(w, g, i + 1);
    RecordableExactly(w, "", g);
  }

  /** A gate that needs itself: the spec is accepted, and the gate can never be recorded. */
  function Ouroboros(): Spec {
    Spec("loop", 1, [], map["s" := []], "s", [GateSpec("g", ["g"])], [], None)
  }

  lemma CyclicSpecAccepted(t: Tables, salt: Bytes)
    requires Represents(t, Ouroboros())
    ensures Valid(Ouroboros()) && !Recordable(WorkflowOf(t, salt), GateNamed("g"))
  {
    var w, g := WorkflowOf(t, salt), GateNamed("g");
    var spec := Ouroboros();
    assert GateIds(spec.gates) == ["g"];
    assert GatesNamed(["g"]) == [g];
    var path := [g, g];
    assert spec.gates[0].id in t.prerequisites && t.prerequisites["g"] == [g];
    assert IsPath(w, path);
    assert path[0] == path[1];
    forall log: seq<Event> | Reachable(w, log) ensures !GateIn(log, g) { CyclicNeverRecorded(w, log, path); }
  }
}
