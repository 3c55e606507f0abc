/**
 The file-backed repository: parse the loaded lines, judge the batch, and write it back under the
 length check; on a mismatch start over, a bounded number of times.
 */
module FileRepository {
  import opened Options
  import opened ByteStrings
  import opened Events
  import opened Ledger
  import opened Batch
  import opened FsStorage
  import opened Base64
  import opened InMemory

  datatype Line =
    | HeaderLine(schemaVersion: nat, workflow: string, salt: string)
    | EventLine(event: Event)

  /** What a line reads back as: nothing at all (or a broken header), well-formed JSON that is no event, or a line. */
  datatype Reading = Garbage | NotAnEvent | Meaning(line: Line)

  /** How lines are written as bytes and read back; the program uses JSON. */
  datatype Codec = Codec(render: Line -> Bytes, parse: Bytes -> Reading)

  /** Printing yields one non-empty line, and parsing recovers what was printed. */
  ghost predicate Faithful(c: Codec) {
    forall l :: IsLine(c.render(l)) && c.parse(c.render(l)) == Meaning(l)
  }

  datatype RepoError =
    | Corrupted(line: nat)
    | Undecodable
    | SaltMismatch(stored: string, current: string)
    | Precondition(error: PreconditionError)
    | Storage(result: StorageResult)

  datatype Parsed = Unreadable(error: RepoError) | Readable(header: Option<Line>, events: seq<Event>)

  function ParseLines(c: Codec, lines: seq<Bytes>): Parsed {
    if lines == [] then Readable(None, [])
    else
      var n := |lines| - 1;
      var before := ParseLines(c, lines[..n]);
      if before.Unreadable? then before
      else
        match c.parse(lines[n])
        case Garbage => Unreadable(Corrupted(n + 1))
        case NotAnEvent => Unreadable(Undecodable)
        case Meaning(EventLine(e)) => before.(events := before.events + [e])
        case Meaning(h) => before.(header := Some(h))
  }

  method ParseLoop(c: Codec, lines: seq<Bytes>) returns (parsed: Parsed)
    ensures parsed == ParseLines(c, lines)
  {
    var header: Option<Line> := None;
    var events: seq<Event> := [];
    for i := 0 to |lines|
      invariant ParseLines(c, lines[..i]) == Readable(header, events)
    {
      assert lines[..i + 1][..i] == lines[..i];
      match c.parse(lines[i]) {
        case Garbage =>
          UnreadableStays(c, lines, i + 1);
          return Unreadable(Corrupted(i + 1));
        case NotAnEvent =>
          UnreadableStays(c, lines, i + 1);
          return Unreadable(Undecodable);
        case Meaning(EventLine(e)) => events := events + [e];
        case Meaning(h) => header := Some(h);
      }
    }
    assert lines[..|lines|] == lines;
    return Readable(header, events);
  }

  lemma {:induction false} UnreadableStays(c: Codec, lines: seq<Bytes>, k: nat)
    requires k <= |lines| && ParseLines(c, lines[..k]).Unreadable?
    ensures ParseLines(c, lines) == ParseLines(c, lines[..k])
  {
    if k == |lines| {
      assert lines[..k] == lines;
    } else {
      var n := |lines| - 1;
      assert lines[..n][..k] == lines[..k];
      UnreadableStays(c, lines[..n], k);
    }
  }

  function HeaderFor(w: Workflow): Line { HeaderLine(w.schemaVersion, w.name, Encode(w.salt)) }

  /** `check_header_salt`: a missing header passes. */
  predicate SaltOk(w: Workflow, header: Option<Line>) {
    header.None? || !header.value.HeaderLine? || header.value.salt == Encode(w.salt)
  }

  function Printed(c: Codec, events: seq<Event>): seq<Bytes> {
    if events == [] then []
    else Printed(c, events[..|events| - 1]) + [c.render(EventLine(events[|events| - 1]))]
  }

  /** The lines a commit writes: the header first if the file is still empty. */
  function NewLines(w: Workflow, c: Codec, first: bool, accepted: seq<Event>): seq<Bytes> {
    (if first then [c.render(HeaderFor(w))] else []) + Printed(c, accepted)
  }

  /** What a caller of `append` is told. */
  datatype Reply = Reported(accepted: seq<Event>, rejected: seq<Rejection>) | Errored(error: RepoError)

  /** What one attempt decides from its snapshot alone: give up, or write these lines at this length. */
  datatype Plan =
    | Stop(reply: Reply)
    | Write(expected: nat, lines: seq<Bytes>, accepted: seq<Event>, rejected: seq<Rejection>)

  ghost function PlanFor(w: Workflow, c: Codec, snapshot: seq<Bytes>, offers: seq<Offer>, mode: AppendMode): Plan {
    match ParseLines(c, snapshot)
    case Unreadable(error) => Stop(Errored(error))
    case Readable(header, events) =>
      if !SaltOk(w, header) then Stop(Errored(SaltMismatch(header.value.salt, Encode(w.salt))))
      else
        match Outcome(w, events, offers, mode)
        case Failed(e) => Stop(Errored(Precondition(e)))
        case RolledBack(rejected) => Stop(Reported([], rejected))
        case Committed(accepted, rejected) =>
          Write(|snapshot|, NewLines(w, c, header.None? && snapshot == [], accepted), accepted, rejected)
  }

  datatype AttemptResult = Done(reply: Reply) | CasMismatch(expected: nat, onDisk: nat)

  datatype AttemptEffect = AttemptEffect(result: AttemptResult, file: Bytes)

  /** Carrying out a plan: the storage reads `file`, and others have made it `between` when the new content lands. */
  function CarryOut(plan: Plan, file: Bytes, between: Bytes, fault: Fault): AttemptEffect {
    match plan
    case Stop(reply) => AttemptEffect(Done(reply), between)
    case Write(expected, lines, accepted, rejected) =>
      var s := Store(file, between, expected, lines, fault);
      match s.result
      case Stored => AttemptEffect(Done(Reported(accepted, rejected)), s.file)
      case LogMutated(e, d) => AttemptEffect(CasMismatch(e, d), s.file)
      case IoError => AttemptEffect(Done(Errored(Storage(IoError))), s.file)
  }

  /** The judging loop of `commit_batch`: dedup keys, working log, last stamp and output lines grow together. */
  method JudgeAll(w: Workflow, c: Codec, events: seq<Event>, offers: seq<Offer>, mode: AppendMode)
    returns (outcome: BatchOutcome, outLines: seq<Bytes>)
    ensures outcome == Outcome(w, events, offers, mode)
    ensures outcome.Committed? ==> outLines == Printed(c, outcome.accepted)
  {
    RunAllEmpty(w, events, offers);
    hide Objection, RunAll, FirstViolation, Stamp;
    outLines := [];
    var accepted: seq<Event> := [];
    var rejected: seq<Rejection> := [];
    var used := FingerprintList(events);
    var working := events;
    var lastAt := LastAt(working);
    for i := 0 to |offers|
      invariant RunAll(w, events, offers[..i]) == Run(working, accepted, rejected)
      invariant forall fp :: fp in used <==> fp in Fingerprints(working)
      invariant lastAt == LastAt(working)
      invariant outLines == Printed(c, accepted)
      invariant mode.AllOrNothing? ==> FirstViolation(rejected).None?
    {
      RunAllNext(w, events, offers, i);
      var p := offers[i].proposal;
      var objection := Judge(w, working, used, p);
      if objection.Some? {
        FirstViolationNext(rejected, Rejection(p, objection.value));
        if mode.AllOrNothing? && objection.value.Violates? {
          FirstViolationStays(w, events, offers, i + 1);
          return Failed(objection.value.error), outLines;
        }
        rejected := rejected + [Rejection(p, objection.value)];
        continue;
      }
      var e := EventFor(offers[i], lastAt);
      FingerprintsNext(working, e);
      used := used + [FingerprintOfProposal(p)];
      lastAt := Some(e.at);
      working := working + [e];
      assert (accepted + [e])[..|accepted|] == accepted;
      outLines := outLines + [c.render(EventLine(e))];
      accepted := accepted + [e];
    }
    outcome := if mode.AllOrNothing? && rejected != [] then RolledBack(rejected) else Committed(accepted, rejected);
  }

  lemma FingerprintsNext(events: seq<Event>, e: Event)
    ensures Fingerprints(events + [e]) == Fingerprints(events) + {FingerprintOf(e)}
  {
    IdsConcat(events, [e]);
    assert e in [e];
  }

  /**
   The inputs of one attempt: whether the load works, the stamps of this try, what others have made of
   the file when the storage reads it and when it replaces it, and the fault.
   */
  datatype Weather = Weather(loads: bool, offers: seq<Offer>, meanwhile: Bytes, between: Bytes, fault: Fault)

  /** One attempt, started on `file`. */
  ghost function Attempt(w: Workflow, c: Codec, file: Bytes, mode: AppendMode, x: Weather): AttemptEffect {
    if !x.loads then AttemptEffect(Done(Errored(Storage(IoError))), x.between)
    else CarryOut(PlanFor(w, c, SplitLines(file), x.offers, mode), x.meanwhile, x.between, x.fault)
  }

  /** `commit_batch`: one load, judge, append attempt. */
  method CommitBatch(disk: LogFile, w: Workflow, c: Codec, mode: AppendMode, x: Weather) returns (result: AttemptResult)
    modifies disk
    ensures AttemptEffect(result, disk.bytes) == Attempt(w, c, old(disk.bytes), mode, x)
  {
    hide Outcome, Store, SplitLines, Printed, ParseLines;
    var loaded := disk.Load(x.loads);
    disk.bytes := x.between;
    if loaded.None? { return Done(Errored(Storage(IoError))); }
    var lines := loaded.value;
    var parsed := ParseLoop(c, lines);
    if parsed.Unreadable? { return Done(Errored(parsed.error)); }
    var header := parsed.header;
    if !SaltOk(w, header) { return Done(Errored(SaltMismatch(header.value.salt, Encode(w.salt)))); }
    var outcome, outLines := JudgeAll(w, c, parsed.events, x.offers, mode);
    if outcome.Failed? { return Done(Errored(Precondition(outcome.error))); }
    if outcome.RolledBack? { return Done(Reported([], outcome.rejected)); }
    if header.None? && lines == [] {
      outLines := [c.render(HeaderFor(w))] + outLines;
    } else {
      assert [] + outLines == outLines;
    }
    disk.bytes := x.meanwhile;
    var stored := disk.Append(|lines|, outLines, x.fault, x.between);
    match stored {
      case Stored => return Done(Reported(outcome.accepted, outcome.rejected));
      case LogMutated(e, d) => return CasMismatch(e, d);
      case IoError => return Done(Errored(Storage(IoError)));
    }
  }

  method FingerprintList(events: seq<Event>) returns (fps: seq<Fingerprint>)
    ensures forall fp :: fp in fps <==> fp in Fingerprints(events)
  {
    fps := [];
    for i := 0 to |events|
      invariant forall fp :: fp in fps <==> fp in Fingerprints(events[..i])
    {
      assert events[..i + 1] == events[..i] + [events[i]];
      FingerprintsNext(events[..i], events[i]);
      fps := fps + [FingerprintOf(events[i])];
    }
    assert events[..|events|] == events;
  }

  const CAS_MAX_RETRIES: nat := 5

  /** Attempts `k`, `k+1`, ... of the bounded retry, starting from `file`. */
  ghost function Retry(w: Workflow, c: Codec, file: Bytes, mode: AppendMode, weather: seq<Weather>, k: nat): AttemptEffect
    requires |weather| == CAS_MAX_RETRIES && k < CAS_MAX_RETRIES
    decreases CAS_MAX_RETRIES - k
  {
    var a := Attempt(w, c, file, mode, weather[k]);
    if a.result.Done? then a
    else if k + 1 < CAS_MAX_RETRIES then Retry(w, c, a.file, mode, weather, k + 1)
    else AttemptEffect(Done(Errored(Storage(LogMutated(a.result.expected, a.result.onDisk)))), a.file)
  }

  /** `commit_with_cas_retry`. */
  method CommitWithCasRetry(disk: LogFile, w: Workflow, c: Codec, mode: AppendMode, weather: seq<Weather>)
    returns (reply: Reply)
    requires |weather| == CAS_MAX_RETRIES
    modifies disk
    ensures AttemptEffect(Done(reply), disk.bytes) == Retry(w, c, old(disk.bytes), mode, weather, 0)
  {
    hide Attempt;
    ghost var first := disk.bytes;
    var attempt := 0;
    while true
      invariant attempt < CAS_MAX_RETRIES
      invariant Retry(w, c, first, mode, weather, 0) == Retry(w, c, disk.bytes, mode, weather, attempt)
      decreases CAS_MAX_RETRIES - attempt
    {
      var outcome := CommitBatch(disk, w, c, mode, weather[attempt]);
      match outcome {
        case Done(r) => return r;
        case CasMismatch(expected, onDisk) =>
          if attempt + 1 == CAS_MAX_RETRIES { return Errored(Storage(LogMutated(expected, onDisk))); }
      }
      attempt := attempt + 1;
    }
  }

  // ----- the pauses between attempts -----

  const CAS_BASE_DELAY_MS: nat := 25

  function PowerOfTwo(n: nat): nat { if n == 0 then 1 else 2 * PowerOfTwo(n - 1) }

  /** `cas_backoff`: doubling pauses; the shift saturates past 31. */
  function CasBackoff(attempt: nat): nat {
    CAS_BASE_DELAY_MS * if attempt < 32 then PowerOfTwo(attempt) else 0xFFFF_FFFF
  }

  /** Milliseconds spent waiting before attempt `k`, counting from zero. */
  function WaitedBefore(k: nat): nat { if k == 0 then 0 else WaitedBefore(k - 1) + CasBackoff(k - 1) }

  lemma {:induction false} WaitedBeforeIs(k: nat)
    requires k <= 32
    ensures WaitedBefore(k) == CAS_BASE_DELAY_MS * (PowerOfTwo(k) - 1)
  {
    if k > 0 { WaitedBeforeIs(k - 1); }
  }

  /** The last attempt follows four pauses, 375 ms in all; the fifth pause of the schedule is never taken. */
  lemma WaitBeforeLastAttempt()
    ensures WaitedBefore(CAS_MAX_RETRIES - 1) == 375
  {
    WaitedBeforeIs(CAS_MAX_RETRIES - 1);
    assert PowerOfTwo(2) == 4 && PowerOfTwo(4) == 4 * PowerOfTwo(2);
  }

  lemma {:induction false} PowerGrows(m: nat, n: nat)
    requires m <= n
    ensures 1 <= PowerOfTwo(m) <= PowerOfTwo(n)
  {
    if m < n { PowerGrows(m, n - 1); } else if n > 0 { PowerGrows(n - 1, n - 1); }
  }

  lemma {:induction false} PowerSum(m: nat, n: nat)
    ensures PowerOfTwo(m + n) == PowerOfTwo(m) * PowerOfTwo(n)
  {
    if n > 0 { PowerSum(m, n - 1); }
  }

  /** A longer wait never gives a shorter pause: the saturated factor is no less than any before it. */
  lemma BackoffNeverShrinks(a: nat, b: nat)
    requires a <= b
    ensures CAS_BASE_DELAY_MS <= CasBackoff(a) <= CasBackoff(b)
  {
    hide PowerOfTwo;
    if a < 32 {
      PowerGrows(a, if b < 32 then b else 31);
      PowersOfTwo();
    }
  }

  lemma PowersOfTwo()
    ensures PowerOfTwo(31) == 0x8000_0000
  {
    assert PowerOfTwo(7) == 128 by {
      assert PowerOfTwo(2) == 4 && PowerOfTwo(4) == 4 * PowerOfTwo(2) && PowerOfTwo(6) == 4 * PowerOfTwo(4);
    }
    hide PowerOfTwo;
    PowerSum(7, 7);
    PowerSum(14, 14);
    PowerSum(28, 3);
    Eight();
  }

  lemma Eight()
    ensures PowerOfTwo(3) == 8
  {
    assert PowerOfTwo(2) == 4;
  }

  // ----- the resume cache beside the log -----

  /** The cache file of a unit, missing until first written. */
  class CacheFile {
    var entries: Option<Cache>

    constructor ()
      ensures entries == None
    {
      entries := None;
    }
  }

  /** Did the retry end in a commit, rather than in an error or a rolled-back batch? */
  predicate IsCommit(reply: Reply, mode: AppendMode) {
    reply.Reported? && (mode.BestEffort? || reply.rejected == [])
  }

  /**
   `with_cache`: whatever happens to the cache, log and reply are those of a plain append; the cache
   moves only after a commit, and may stay behind if its own write fails.
   */
  method WithCache(disk: LogFile, cache: CacheFile, w: Workflow, c: Codec, mode: AppendMode, weather: seq<Weather>,
                   mutate: Cache -> Cache, readable: bool, writable: bool)
    returns (reply: Reply)
    requires |weather| == CAS_MAX_RETRIES
    modifies disk, cache
    ensures AttemptEffect(Done(reply), disk.bytes) == Retry(w, c, old(disk.bytes), mode, weather, 0)
    ensures !(IsCommit(reply, mode) && writable) ==> cache.entries == old(cache.entries)
    ensures IsCommit(reply, mode) && writable ==>
              cache.entries == Some(mutate(if readable && old(cache.entries).Some? then old(cache.entries).value else map[]))
  {
    hide Retry;
    var working := if readable && cache.entries.Some? then cache.entries.value else map[];
    working := mutate(working);
    reply := CommitWithCasRetry(disk, w, c, mode, weather);
    if reply.Reported? && (mode.BestEffort? || reply.rejected == []) {
      if writable { cache.entries := Some(working); }
    }
  }

  // ----- what is in a file the repository wrote -----

  /** Nothing at all, or this workflow's header and then exactly `events`. */
  ghost predicate LinesHold(w: Workflow, c: Codec, lines: seq<Bytes>, events: seq<Event>) {
    (lines == [] && events == []) || lines == [c.render(HeaderFor(w))] + Printed(c, events)
  }

  ghost predicate Holds(w: Workflow, c: Codec, file: Bytes, events: seq<Event>) {
    NoBlanks(file) && LinesHold(w, c, SplitLines(file), events)
  }

  lemma {:induction false} PrintedConcat(c: Codec, a: seq<Event>, b: seq<Event>)
    ensures Printed(c, a + b) == Printed(c, a) + Printed(c, b)
  {
    if b == [] {
      assert a + b == a;
    } else {
      assert (a + b)[..|a + b| - 1] == a + b[..|b| - 1];
      PrintedConcat(c, a, b[..|b| - 1]);
    }
  }

  lemma {:induction false} PrintedLines(c: Codec, events: seq<Event>)
    requires Faithful(c)
    ensures AreLines(Printed(c, events))
    ensures |Printed(c, events)| == |events|
  {
    if events != [] {
      var n := |events| - 1;
      PrintedLines(c, events[..n]);
      assert IsLine(c.render(EventLine(events[n])));
    }
  }

  lemma {:induction false} ParsePrinted(w: Workflow, c: Codec, events: seq<Event>)
    requires Faithful(c)
    ensures ParseLines(c, [c.render(HeaderFor(w))] + Printed(c, events)) == Readable(Some(HeaderFor(w)), events)
  {
    var h := [c.render(HeaderFor(w))];
    if events == [] {
      assert h + [] == h && h[..0] == [];
      assert ParseLines(c, h) == Readable(Some(HeaderFor(w)), []);
    } else {
      var n := |events| - 1;
      var last := c.render(EventLine(events[n]));
      ParsePrinted(w, c, events[..n]);
      var lines := h + Printed(c, events);
      assert lines == (h + Printed(c, events[..n])) + [last];
      assert lines[..|lines| - 1] == h + Printed(c, events[..n]);
      assert events == events[..n] + [events[n]];
    }
  }

  /** Such lines load without error, with the right salt, as exactly those events. */
  lemma HoldsParses(w: Workflow, c: Codec, lines: seq<Bytes>, events: seq<Event>)
    requires Faithful(c) && LinesHold(w, c, lines, events)
    ensures ParseLines(c, lines).Readable? && ParseLines(c, lines).events == events
    ensures SaltOk(w, ParseLines(c, lines).header)
    ensures ParseLines(c, lines).header.None? <==> lines == []
  {
    ParsePrinted(w, c, events);
  }

  lemma SameLinesSameEvents(w: Workflow, c: Codec, lines: seq<Bytes>, xs: seq<Event>, ys: seq<Event>)
    requires Faithful(c) && LinesHold(w, c, lines, xs) && LinesHold(w, c, lines, ys)
    ensures xs == ys
  {
    HoldsParses(w, c, lines, xs);
    HoldsParses(w, c, lines, ys);
  }

  lemma NewLinesAreLines(w: Workflow, c: Codec, first: bool, accepted: seq<Event>)
    requires Faithful(c)
    ensures AreLines(NewLines(w, c, first, accepted))
  {
    PrintedLines(c, accepted);
    assert IsLine(c.render(HeaderFor(w)));
  }

  /** Writing a commit's lines to a file holding `events` leaves it holding `events` and the accepted ones. */
  lemma WriteHolds(w: Workflow, c: Codec, file: Bytes, events: seq<Event>, accepted: seq<Event>)
    requires Faithful(c) && Holds(w, c, file, events)
    ensures
      var after := Combined(file, NewLines(w, c, SplitLines(file) == [], accepted));
      Holds(w, c, after, events + accepted) && SplitLines(file) <= SplitLines(after)
  {
    hide Segments, NonBlank, Printed, Combined;
    var lines := NewLines(w, c, SplitLines(file) == [], accepted);
    NewLinesAreLines(w, c, SplitLines(file) == [], accepted);
    AppendThenLoad(file, lines);
    PrintedConcat(c, events, accepted);
    if SplitLines(file) == [] {
      PrintedLines(c, events);
      assert [] + accepted == accepted;
    }
  }

  /** On lines the repository wrote, an attempt never finds corruption or a foreign salt. */
  lemma PlanOnHolds(w: Workflow, c: Codec, lines: seq<Bytes>, events: seq<Event>, offers: seq<Offer>, mode: AppendMode)
    requires Faithful(c) && LinesHold(w, c, lines, events)
    ensures PlanFor(w, c, lines, offers, mode) ==
              match Outcome(w, events, offers, mode)
              case Failed(e) => Stop(Errored(Precondition(e)))
              case RolledBack(rejected) => Stop(Reported([], rejected))
              case Committed(accepted, rejected) =>
                Write(|lines|, NewLines(w, c, lines == [], accepted), accepted, rejected)
  {
    hide Outcome;
    HoldsParses(w, c, lines, events);
  }

  /** The plan's write takes effect, whether or not the caller is told so. */
  predicate Lands(plan: Plan, file: Bytes, fault: Fault) {
    plan.Write? && CountLines(file) == plan.expected && (fault.NoFault? || fault.SyncFails?)
  }

  /** The length check at work: a snapshot as long as the file is the file. */
  lemma EqualCountEqualLog(w: Workflow, c: Codec, snapshot: seq<Bytes>, seen: seq<Event>, file: Bytes, events: seq<Event>)
    requires Faithful(c) && LinesHold(w, c, snapshot, seen) && Holds(w, c, file, events)
    requires snapshot <= SplitLines(file) && CountLines(file) == |snapshot|
    ensures seen == events && snapshot == SplitLines(file)
  {
    LoadedLengthPasses(file);
    SameLinesSameEvents(w, c, SplitLines(file), seen, events);
  }

  /** What a snapshot decides, and what passing the length check on the file as read is worth. */
  lemma CheckedContent(w: Workflow, c: Codec, snapshot: seq<Bytes>, seen: seq<Event>, file: Bytes, events: seq<Event>,
                       offers: seq<Offer>, mode: AppendMode)
    requires Faithful(c) && LinesHold(w, c, snapshot, seen) && Holds(w, c, file, events) && snapshot <= SplitLines(file)
    ensures
      match PlanFor(w, c, snapshot, offers, mode)
      case Stop(Reported(accepted, rejected)) => accepted == [] && Outcome(w, seen, offers, mode) == RolledBack(rejected)
      case Stop(Errored(error)) => error.Precondition? && Outcome(w, seen, offers, mode) == Failed(error.error)
      case Write(expected, lines, accepted, rejected) =>
        CountLines(file) == expected ==>
          && seen == events && Outcome(w, events, offers, mode) == Committed(accepted, rejected)
          && Holds(w, c, Combined(file, lines), events + accepted)
          && SplitLines(file) <= SplitLines(Combined(file, lines)) != []
  {
    hide Outcome, LinesHold, SplitLines, PlanFor, Combined;
    PlanOnHolds(w, c, snapshot, seen, offers, mode);
    var plan := PlanFor(w, c, snapshot, offers, mode);
    if plan.Write? && CountLines(file) == plan.expected {
      EqualCountEqualLog(w, c, snapshot, seen, file, events);
      WriteHolds(w, c, file, events, plan.accepted);
      NewLinesAreLines(w, c, snapshot == [], plan.accepted);
      AppendThenLoad(file, plan.lines);
    }
  }

  /** Lines that are a prefix of a written log hold a prefix of its events. */
  lemma PrefixHoldsPrefix(w: Workflow, c: Codec, snapshot: seq<Bytes>, seen: seq<Event>, lines: seq<Bytes>, log: seq<Event>)
    requires Faithful(c) && LinesHold(w, c, snapshot, seen) && LinesHold(w, c, lines, log) && snapshot <= lines
    ensures seen <= log
  {
    if snapshot != [] {
      var h, n := [c.render(HeaderFor(w))], |seen|;
      PrintedLines(c, seen);
      PrintedLines(c, log);
      assert |snapshot| == 1 + n && |lines| == 1 + |log|;
      assert log == log[..n] + log[n..];
      PrintedConcat(c, log[..n], log[n..]);
      PrintedLines(c, log[..n]);
      assert lines == (h + Printed(c, log[..n])) + Printed(c, log[n..]);
      assert snapshot == h + Printed(c, log[..n]);
      SameLinesSameEvents(w, c, snapshot, seen, log[..n]);
    }
  }

  /** And more events make more lines. */
  lemma LinesGrow(w: Workflow, c: Codec, lines: seq<Bytes>, log: seq<Event>, more: seq<Event>, lines': seq<Bytes>)
    requires LinesHold(w, c, lines, log) && LinesHold(w, c, lines', log + more) && lines' != []
    ensures lines <= lines'
  {
    PrintedConcat(c, log, more);
    assert [c.render(HeaderFor(w))] + (Printed(c, log) + Printed(c, more)) == ([c.render(HeaderFor(w))] + Printed(c, log)) + Printed(c, more);
  }

  /**
   One attempt on a snapshot of a file that has only grown by the time the storage reads it. If the
   write lands, the batch was judged against exactly the log in the file as read, and that log plus the
   accepted events is what the file then holds, whatever it was made in between.
   */
  lemma AttemptIsAtomic(w: Workflow, c: Codec, snapshot: seq<Bytes>, seen: seq<Event>, file: Bytes, events: seq<Event>,
                        between: Bytes, offers: seq<Offer>, mode: AppendMode, fault: Fault)
    requires Faithful(c) && LinesHold(w, c, snapshot, seen) && Holds(w, c, file, events)
    requires snapshot <= SplitLines(file)
    ensures
      var plan := PlanFor(w, c, snapshot, offers, mode);
      var a := CarryOut(plan, file, between, fault);
      && (Lands(plan, file, fault) ==>
            && seen == events
            && Outcome(w, events, offers, mode) == Committed(plan.accepted, plan.rejected)
            && Holds(w, c, a.file, events + plan.accepted)
            && SplitLines(file) <= SplitLines(a.file)
            && (a.result == Done(Reported(plan.accepted, plan.rejected)) || a.result == Done(Errored(Storage(IoError)))))
      && (!Lands(plan, file, fault) ==> a.file == between)
      && (a.result.Done? ==>
            match a.result.reply
            case Reported(accepted, rejected) =>
              if Lands(plan, file, fault) then accepted == plan.accepted && rejected == plan.rejected
              else accepted == [] && Outcome(w, seen, offers, mode) == RolledBack(rejected)
            case Errored(error) =>
              error == Storage(IoError) || (error.Precondition? && Outcome(w, seen, offers, mode) == Failed(error.error)))
  {
    hide Outcome, LinesHold, SplitLines, PlanFor, Combined, Holds;
    CheckedContent(w, c, snapshot, seen, file, events, offers, mode);
  }

  // ----- what other files are answered with -----

  /** Line `k` is the first that does not read as a line of a log. */
  predicate FirstBad(c: Codec, lines: seq<Bytes>, k: int) {
    0 <= k < |lines| && !c.parse(lines[k]).Meaning? && forall j :: 0 <= j < k ==> c.parse(lines[j]).Meaning?
  }

  lemma {:induction false} ParsesToBad(c: Codec, lines: seq<Bytes>)
    ensures ParseLines(c, lines).Readable? <==> forall j :: 0 <= j < |lines| ==> c.parse(lines[j]).Meaning?
    ensures forall k :: FirstBad(c, lines, k) ==>
              ParseLines(c, lines) == Unreadable(if c.parse(lines[k]).Garbage? then Corrupted(k + 1) else Undecodable)
  {
    if lines != [] {
      var n := |lines| - 1;
      ParsesToBad(c, lines[..n]);
      forall k | FirstBad(c, lines, k) ensures k < n ==> FirstBad(c, lines[..n], k) {}
    }
  }

  /**
   A file with a bad line answers every append with the first one: its number, counting loaded lines
   from one, if it is not even JSON, and a codec error if it is no event. Nothing is written.
   */
  lemma BadLineAnswered(w: Workflow, c: Codec, file: Bytes, mode: AppendMode, x: Weather, k: nat)
    requires x.loads && FirstBad(c, SplitLines(file), k)
    ensures Attempt(w, c, file, mode, x) ==
              AttemptEffect(Done(Errored(if c.parse(SplitLines(file)[k]).Garbage? then Corrupted(k + 1) else Undecodable)), x.between)
  {
    hide SplitLines;
    ParsesToBad(c, SplitLines(file));
  }

  lemma {:induction false} ParseAnyHeader(c: Codec, h: Line, events: seq<Event>)
    requires Faithful(c) && h.HeaderLine?
    ensures ParseLines(c, [c.render(h)] + Printed(c, events)) == Readable(Some(h), events)
  {
    var first := [c.render(h)];
    if events == [] {
      assert first + [] == first && first[..0] == [];
      assert ParseLines(c, first) == Readable(Some(h), []);
    } else {
      var n := |events| - 1;
      var last := c.render(EventLine(events[n]));
      ParseAnyHeader(c, h, events[..n]);
      var lines := first + Printed(c, events);
      assert lines == (first + Printed(c, events[..n])) + [last];
      assert lines[..|lines| - 1] == first + Printed(c, events[..n]);
      assert events == events[..n] + [events[n]];
    }
  }

  lemma {:induction false} ParseHeadless(c: Codec, events: seq<Event>)
    requires Faithful(c)
    ensures ParseLines(c, Printed(c, events)) == Readable(None, events)
  {
    if events != [] {
      var n := |events| - 1;
      ParseHeadless(c, events[..n]);
      assert Printed(c, events)[..|Printed(c, events)| - 1] == Printed(c, events[..n]);
      assert events == events[..n] + [events[n]];
    }
  }

  /** What an attempt does with a log of these events that it has no quarrel with. */
  ghost function JudgedAttempt(w: Workflow, c: Codec, lines: seq<Bytes>, events: seq<Event>, mode: AppendMode, x: Weather): AttemptEffect {
    match Outcome(w, events, x.offers, mode)
    case Failed(e) => AttemptEffect(Done(Errored(Precondition(e))), x.between)
    case RolledBack(rejected) => AttemptEffect(Done(Reported([], rejected)), x.between)
    case Committed(accepted, rejected) =>
      CarryOut(Write(|lines|, NewLines(w, c, lines == [], accepted), accepted, rejected), x.meanwhile, x.between, x.fault)
  }

  /**
   A log whose header was written under the salt `stored`, whatever else that header says: an attempt is
   answered with a salt mismatch, and writes nothing, exactly when `stored` is not the workflow's salt;
   under its own salt the batch is judged.
   */
  lemma ForeignSaltRefused(w: Workflow, c: Codec, file: Bytes, version: nat, name: string, stored: Bytes, events: seq<Event>,
                           mode: AppendMode, x: Weather)
    requires Faithful(c) && x.loads
    requires SplitLines(file) == [c.render(HeaderLine(version, name, Encode(stored)))] + Printed(c, events)
    ensures
      var a, refused := Attempt(w, c, file, mode, x), AttemptEffect(Done(Errored(SaltMismatch(Encode(stored), Encode(w.salt)))), x.between);
      && (a == refused <==> stored != w.salt)
      && (stored == w.salt ==> a == JudgedAttempt(w, c, SplitLines(file), events, mode, x))
  {
    hide Encode, SplitLines, Outcome, NewLines, Printed, Store;
    ParseAnyHeader(c, HeaderLine(version, name, Encode(stored)), events);
    SaltCheckExact(stored, w.salt);
  }

  /** A log without a header is judged under any salt; only an empty one gets a header now. */
  lemma HeadlessJudged(w: Workflow, c: Codec, file: Bytes, events: seq<Event>, mode: AppendMode, x: Weather)
    requires Faithful(c) && x.loads && SplitLines(file) == Printed(c, events)
    ensures Attempt(w, c, file, mode, x) == JudgedAttempt(w, c, SplitLines(file), events, mode, x)
  {
    hide Encode, SplitLines, Outcome, NewLines, Printed, Store;
    ParseHeadless(c, events);
  }

  /** The first batch written to an empty file starts it with this workflow's version, name and encoded salt. */
  lemma FirstCommitWritesHeader(w: Workflow, c: Codec, offers: seq<Offer>, mode: AppendMode)
    requires Faithful(c) && Outcome(w, [], offers, mode).Committed?
    ensures
      var a := Attempt(w, c, [], mode, Weather(true, offers, [], [], NoFault));
      && SplitLines(a.file) == [c.render(HeaderLine(w.schemaVersion, w.name, Encode(w.salt)))] + Printed(c, Outcome(w, [], offers, mode).accepted)
      && ParseLines(c, SplitLines(a.file)) ==
           Readable(Some(HeaderLine(w.schemaVersion, w.name, Encode(w.salt))), Outcome(w, [], offers, mode).accepted)
  {
    var o := Outcome(w, [], offers, mode);
    assert SplitLines([]) == [] && CountLines([]) == 0;
    HeadlessJudged(w, c, [], [], mode, Weather(true, offers, [], [], NoFault));
    NewLinesAreLines(w, c, true, o.accepted);
    AppendThenLoad([], NewLines(w, c, true, o.accepted));
    hide Outcome, Encode, SplitLines, Combined, Printed, Attempt;
    ParseAnyHeader(c, HeaderFor(w), o.accepted);
  }

  /** What the file has become when attempt `i` starts, if all before it ended in a mismatch. */
  ghost function FileAt(w: Workflow, c: Codec, file: Bytes, mode: AppendMode, weather: seq<Weather>, i: nat): Bytes
    requires i <= |weather|
  {
    if i == 0 then file else Attempt(w, c, FileAt(w, c, file, mode, weather, i - 1), mode, weather[i - 1]).file
  }

  ghost predicate MismatchAt(w: Workflow, c: Codec, file: Bytes, mode: AppendMode, weather: seq<Weather>, i: nat)
    requires i < |weather|
  {
    Attempt(w, c, FileAt(w, c, file, mode, weather, i), mode, weather[i]).result.CasMismatch?
  }

  lemma {:induction false} RetryFrom(w: Workflow, c: Codec, file: Bytes, mode: AppendMode, weather: seq<Weather>, i: nat)
    requires |weather| == CAS_MAX_RETRIES && i < CAS_MAX_RETRIES
    requires forall j :: 0 <= j < i ==> MismatchAt(w, c, file, mode, weather, j)
    ensures Retry(w, c, file, mode, weather, 0) == Retry(w, c, FileAt(w, c, file, mode, weather, i), mode, weather, i)
  {
    hide Attempt;
    if i > 0 {
      RetryFrom(w, c, file, mode, weather, i - 1);
      assert MismatchAt(w, c, file, mode, weather, i - 1);
    }
  }

  /**
   The retry gives what the first attempt that is no mismatch gives; after five mismatches, and not
   before, it gives up with the numbers of the last.
   */
  lemma RetryGivesFirstAnswer(w: Workflow, c: Codec, file: Bytes, mode: AppendMode, weather: seq<Weather>, i: nat)
    requires |weather| == 5 && i < 5 && forall j :: 0 <= j < i ==> MismatchAt(w, c, file, mode, weather, j)
    ensures
      var a, end := Attempt(w, c, FileAt(w, c, file, mode, weather, i), mode, weather[i]), Retry(w, c, file, mode, weather, 0);
      && (!MismatchAt(w, c, file, mode, weather, i) ==> end == a)
      && (i == 4 && MismatchAt(w, c, file, mode, weather, i) ==>
            end == AttemptEffect(Done(Errored(Storage(LogMutated(a.result.expected, a.result.onDisk)))), a.file))
  {
    hide Attempt;
    RetryFrom(w, c, file, mode, weather, i);
  }

  /** How the in-memory outcome of a batch reads as a reply. */
  function ReplyFor(o: BatchOutcome): Reply {
    match o
    case Committed(accepted, rejected) => Reported(accepted, rejected)
    case RolledBack(rejected) => Reported([], rejected)
    case Failed(error) => Errored(Precondition(error))
  }

  /**
   Undisturbed and without faults, the file repository does to the file what the in-memory one does
   to its vectors: same accepted and rejected lists, same error, same log afterwards, in both modes.
   */
  lemma FileMatchesMemory(w: Workflow, c: Codec, file: Bytes, events: seq<Event>, offers: seq<Offer>, mode: AppendMode)
    requires Faithful(c) && Holds(w, c, file, events)
    ensures
      var a := Attempt(w, c, file, mode, Weather(true, offers, file, file, NoFault));
      var o := Outcome(w, events, offers, mode);
      a.result == Done(ReplyFor(o)) && Holds(w, c, a.file, LogAfter(events, o))
  {
    hide Outcome, LinesHold, SplitLines, NewLines, PlanFor, Combined;
    LoadedLengthPasses(file);
    AttemptIsAtomic(w, c, SplitLines(file), events, file, events, file, offers, mode, NoFault);
    PlanOnHolds(w, c, SplitLines(file), events, offers, mode);
  }

  /** The file repository moves its cache for exactly the batches for which the in-memory one does. */
  lemma CacheMovesTogether(w: Workflow, events: seq<Event>, offers: seq<Offer>, mode: AppendMode)
    ensures IsCommit(ReplyFor(Outcome(w, events, offers, mode)), mode) <==> Outcome(w, events, offers, mode).Committed?
  {
    hide RunAll;
  }

  /**
   The others only append: at each attempt of the retry the file grows from what was loaded to what the
   storage reads (holding `atRead[i]`), and from there to what it replaces (holding `atWrite[i]`).
   */
  ghost predicate OthersOnlyAppend(w: Workflow, c: Codec, file: Bytes, weather: seq<Weather>, atRead: seq<seq<Event>>,
                                   atWrite: seq<seq<Event>>, k: nat) {
    && |weather| == |atRead| == |atWrite| == CAS_MAX_RETRIES && k < CAS_MAX_RETRIES
    && SplitLines(file) <= SplitLines(weather[k].meanwhile)
    && (forall i :: k <= i < CAS_MAX_RETRIES ==> Holds(w, c, weather[i].meanwhile, atRead[i]) && Holds(w, c, weather[i].between, atWrite[i]))
    && (forall i :: k < i < CAS_MAX_RETRIES ==> SplitLines(weather[i - 1].between) <= SplitLines(weather[i].meanwhile))
  }

  /** Bounded retry: at most one attempt lands, on the log it was judged against; a reply of `LogMutated` means none did. */
  lemma {:induction false} RetryIsAtomic(w: Workflow, c: Codec, file: Bytes, seen: seq<Event>, mode: AppendMode, weather: seq<Weather>,
                                        atRead: seq<seq<Event>>, atWrite: seq<seq<Event>>, k: nat) returns (j: nat)
    requires Faithful(c) && Holds(w, c, file, seen) && OthersOnlyAppend(w, c, file, weather, atRead, atWrite, k)
    ensures k <= j < CAS_MAX_RETRIES
    ensures
      var end := Retry(w, c, file, mode, weather, k);
      var o := Outcome(w, atRead[j], weather[j].offers, mode);
      && end.result.Done?
      && (end.file == weather[j].between || (o.Committed? && Holds(w, c, end.file, atRead[j] + o.accepted)))
      && (end.result.reply.Errored? && end.result.reply.error.Storage? && end.result.reply.error.result.LogMutated? ==>
            j == CAS_MAX_RETRIES - 1 && end.file == weather[j].between)
      && (end.result.reply.Reported? && end.result.reply.accepted != [] ==>
            o == Committed(end.result.reply.accepted, end.result.reply.rejected) && Holds(w, c, end.file, atRead[j] + o.accepted))
    decreases CAS_MAX_RETRIES - k
  {
    hide Outcome, Holds, SplitLines, PlanFor, CarryOut, Lands, Faithful;
    var x := weather[k];
    assert LinesHold(w, c, SplitLines(file), seen) by { HoldsLines(w, c, file, seen); }
    AttemptIsAtomic(w, c, SplitLines(file), seen, x.meanwhile, atRead[k], x.between, x.offers, mode, x.fault);
    var a := Attempt(w, c, file, mode, x);
    j := k;
    if a.result.CasMismatch? && k + 1 < CAS_MAX_RETRIES {
      j := RetryIsAtomic(w, c, x.between, atWrite[k], mode, weather, atRead, atWrite, k + 1);
    }
  }

  lemma HoldsLines(w: Workflow, c: Codec, file: Bytes, events: seq<Event>)
    requires Holds(w, c, file, events)
    ensures LinesHold(w, c, SplitLines(file), events)
  {}
}
