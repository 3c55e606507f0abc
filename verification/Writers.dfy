/**
 Any number of writers on one log file, in any interleaving: each loads a snapshot, judges its batch
 on it, and appends. An append is two steps: read the file and compare lengths, then rename the new
 content into place; a mismatch starts over, up to the retry limit, and a call may fail before or after
 the rename. `Undisturbed` says what the lock is for: nothing is recorded between the two steps.
 */
module Writers {
  import opened Options
  import opened ByteStrings
  import opened Events
  import opened Ledger
  import opened Batch
  import opened FsStorage
  import opened FileRepository

  type WriterId = nat

  /**
   `since` (how many commits there were when the job started) and `base` (the log at the length check)
   are kept for the theorems; no writer reads them.
   */
  datatype Writer =
    | Appending(proposals: seq<Proposal>, mode: AppendMode, since: nat, tries: nat, snapshot: Option<seq<Bytes>>)
    | Renaming(
        proposals: seq<Proposal>, mode: AppendMode, since: nat, offers: seq<Offer>, base: seq<Event>, content: Bytes,
        accepted: seq<Event>, rejected: seq<Rejection>)
    | Replied(proposals: seq<Proposal>, mode: AppendMode, since: nat, reply: Reply)

  /** One rename that took effect: whose, the log it was judged against, its stamped input and its report. */
  datatype Commit = Commit(
    author: WriterId, base: seq<Event>, offers: seq<Offer>, mode: AppendMode, accepted: seq<Event>, rejected: seq<Rejection>)

  /** The file, the writers, and the commits so far (kept for the theorems; no writer reads it). */
  datatype Sys = Sys(file: Bytes, writers: map<WriterId, Writer>, history: seq<Commit>)

  datatype Action =
    | Start(k: WriterId, proposals: seq<Proposal>, mode: AppendMode)
    | Load(k: WriterId)
    | LoadFails(k: WriterId)
    | Check(k: WriterId, offers: seq<Offer>, fault: Fault)
    | Rename(k: WriterId, fault: Fault)

  /** The events of the log, as the concatenation of the commits. */
  function LogOf(history: seq<Commit>): seq<Event> {
    if history == [] then [] else LogOf(history[..|history| - 1]) + history[|history| - 1].accepted
  }

  /** How many commits writer `k` has made since there were `since`. */
  function CommitsBy(history: seq<Commit>, k: WriterId, since: nat): nat {
    if |history| <= since then 0
    else
      var n := |history| - 1;
      CommitsBy(history[..n], k, since) + if history[n].author == k then 1 else 0
  }

  ghost predicate Init(s: Sys) { s == Sys([], map[], []) }

  predicate Waiting(s: Sys, k: WriterId) { k in s.writers && s.writers[k].Appending? && s.writers[k].snapshot.None? }

  predicate Judging(s: Sys, k: WriterId) { k in s.writers && s.writers[k].Appending? && s.writers[k].snapshot.Some? }

  predicate InRename(s: Sys, k: WriterId) { k in s.writers && s.writers[k].Renaming? }

  predicate StampsFor(offers: seq<Offer>, proposals: seq<Proposal>) {
    |offers| == |proposals| && forall i :: 0 <= i < |offers| ==> offers[i].proposal == proposals[i]
  }

  function Answered(x: Writer, reply: Reply): Writer { Replied(x.proposals, x.mode, x.since, reply) }

  function AfterMismatch(x: Writer, mismatch: StorageResult): Writer
    requires x.Appending?
  {
    if x.tries + 1 < CAS_MAX_RETRIES then x.(tries := x.tries + 1, snapshot := None)
    else Answered(x, Errored(Storage(mismatch)))
  }

  /** Judge the snapshot; if there is something to write, read the file and compare lengths. */
  ghost function Checked(w: Workflow, c: Codec, s: Sys, k: WriterId, offers: seq<Offer>, fault: Fault): Writer
    requires Judging(s, k)
  {
    var x := s.writers[k];
    match PlanFor(w, c, x.snapshot.value, offers, x.mode)
    case Stop(reply) => Answered(x, reply)
    case Write(expected, lines, accepted, rejected) =>
      match CheckLength(s.file, expected, fault)
      case Stored =>
        Renaming(x.proposals, x.mode, x.since, offers, LogOf(s.history), Combined(s.file, lines), accepted, rejected)
      case LogMutated(e, d) => AfterMismatch(x, LogMutated(e, d))
      case IoError => Answered(x, Errored(Storage(IoError)))
  }

  /** The new content replaces the file, whatever that has become. */
  function Renamed(s: Sys, k: WriterId, fault: Fault): Sys
    requires InRename(s, k)
  {
    var x := s.writers[k];
    var effect := Replace(s.file, x.content, fault);
    Sys(effect.file,
        s.writers[k := Answered(x, if effect.result.Stored? then Reported(x.accepted, x.rejected) else Errored(Storage(IoError)))],
        if fault.WriteFails? then s.history
        else s.history + [Commit(k, x.base, x.offers, x.mode, x.accepted, x.rejected)])
  }

  ghost predicate Next(w: Workflow, c: Codec, s: Sys, a: Action, s': Sys) {
    match a
    case Start(k, proposals, mode) =>
      && (k in s.writers ==> s.writers[k].Replied?)
      && s' == s.(writers := s.writers[k := Appending(proposals, mode, |s.history|, 0, None)])
    case Load(k) =>
      Waiting(s, k) && s' == s.(writers := s.writers[k := s.writers[k].(snapshot := Some(SplitLines(s.file)))])
    case LoadFails(k) =>
      Waiting(s, k) && s' == s.(writers := s.writers[k := Answered(s.writers[k], Errored(Storage(IoError)))])
    case Check(k, offers, fault) =>
      Judging(s, k) && StampsFor(offers, s.writers[k].proposals) && FreshOffers(LogOf(s.history), offers)
      && s' == s.(writers := s.writers[k := Checked(w, c, s, k, offers, fault)])
    case Rename(k, fault) => InRename(s, k) && s' == Renamed(s, k, fault)
  }

  ghost predicate IsRun(w: Workflow, c: Codec, run: seq<Sys>, actions: seq<Action>) {
    && |run| == |actions| + 1 && Init(run[0])
    && forall i :: 0 <= i < |actions| ==> Next(w, c, run[i], actions[i], run[i + 1])
  }

  /** A rename that takes effect finds the log as it was at its length check. */
  predicate Undisturbed(s: Sys, a: Action) {
    a.Rename? && InRename(s, a.k) && !a.fault.WriteFails? ==> s.writers[a.k].base == LogOf(s.history)
  }

  predicate NoOverlap(run: seq<Sys>, actions: seq<Action>)
    requires |actions| <= |run|
  {
    forall i :: 0 <= i < |actions| ==> Undisturbed(run[i], actions[i])
  }

  // ----- the invariant -----

  /** Every commit was judged against exactly the log made by the commits before it. */
  ghost predicate SerialAt(w: Workflow, history: seq<Commit>, i: int)
    requires 0 <= i < |history|
  {
    var x := history[i];
    x.base == LogOf(history[..i]) && Outcome(w, x.base, x.offers, x.mode) == Committed(x.accepted, x.rejected)
  }

  ghost predicate Serial(w: Workflow, history: seq<Commit>) {
    forall i :: 0 <= i < |history| ==> SerialAt(w, history, i)
  }

  predicate RefusedIn(rejected: seq<Rejection>, p: Proposal) {
    exists x :: x in rejected && x.proposal == p && x.reason.Violates?
  }

  /** `o` is what the batch comes to on `seen`, some earlier state of the log. */
  ghost predicate JudgedWith(w: Workflow, log: seq<Event>, x: Writer, o: BatchOutcome, seen: seq<Event>, offers: seq<Offer>) {
    seen <= log && StampsFor(offers, x.proposals) && Outcome(w, seen, offers, x.mode) == o
  }

  ghost predicate JudgedOnce(w: Workflow, log: seq<Event>, x: Writer, o: BatchOutcome) {
    exists seen, offers :: JudgedWith(w, log, x, o, seen, offers)
  }

  /** The report of a commit: what it calls accepted or duplicate is in the log, and every proposal is accounted for. */
  predicate CommitTrue(log: seq<Event>, proposals: seq<Proposal>, accepted: seq<Event>, rejected: seq<Rejection>) {
    && (forall e :: e in accepted ==> e in log)
    && (forall y :: y in rejected && y.reason.Duplicate? ==> FingerprintOfProposal(y.proposal) in Fingerprints(log))
    && (forall p :: p in proposals ==> FingerprintOfProposal(p) in Fingerprints(log) || RefusedIn(rejected, p))
  }

  /**
   What a reply is worth. A committed batch was written once, and its report is true; a rolled-back or
   refused one came out that way on some earlier state of the log, in all-or-nothing mode, and nothing of
   it was written; a mismatch wrote nothing; an input/output error wrote it at most once.
   */
  ghost predicate ReplyTrue(w: Workflow, history: seq<Commit>, k: WriterId, x: Writer)
    requires x.Replied?
  {
    var log, commits := LogOf(history), CommitsBy(history, k, x.since);
    match x.reply
    case Reported(accepted, rejected) =>
      if IsCommit(x.reply, x.mode) then commits == 1 && CommitTrue(log, x.proposals, accepted, rejected)
      else commits == 0 && accepted == [] && JudgedOnce(w, log, x, RolledBack(rejected))
    case Errored(error) =>
      if error == Storage(IoError) then commits <= 1
      else commits == 0 && if error.Precondition? then x.mode.AllOrNothing? && JudgedOnce(w, log, x, Failed(error.error))
                           else error.Storage? && error.result.LogMutated?
  }

  /** A snapshot in hand is the lines of some earlier state of the file. */
  ghost predicate SnapshotOk(w: Workflow, c: Codec, file: Bytes, snapshot: seq<Bytes>) {
    snapshot <= SplitLines(file) && exists seen :: LinesHold(w, c, snapshot, seen)
  }

  /** New content in hand is the log of the length check with the accepted events. */
  ghost predicate ContentOk(w: Workflow, c: Codec, x: Writer)
    requires x.Renaming?
  {
    && StampsFor(x.offers, x.proposals) && FreshOffers(x.base, x.offers)
    && Outcome(w, x.base, x.offers, x.mode) == Committed(x.accepted, x.rejected)
    && Holds(w, c, x.content, x.base + x.accepted) && SplitLines(x.content) != []
  }

  ghost predicate WriterOk(w: Workflow, c: Codec, s: Sys, k: WriterId)
    requires k in s.writers
  {
    var x := s.writers[k];
    && x.since <= |s.history|
    && match x
       case Appending(_, _, since, tries, snapshot) =>
         tries < CAS_MAX_RETRIES && CommitsBy(s.history, k, since) == 0 && (snapshot.Some? ==> SnapshotOk(w, c, s.file, snapshot.value))
       case Renaming(_, _, since, _, _, _, _, _) => CommitsBy(s.history, k, since) == 0 && ContentOk(w, c, x)
       case Replied(_, _, _, _) => ReplyTrue(w, s.history, k, x)
  }

  ghost predicate Inv(w: Workflow, c: Codec, s: Sys) {
    && Holds(w, c, s.file, LogOf(s.history))
    && Reachable(w, LogOf(s.history))
    && Serial(w, s.history)
    && forall k :: k in s.writers ==> WriterOk(w, c, s, k)
  }

  /** The file and the log only grow, and by commits of writer `k` alone. */
  ghost predicate GrowsBy(s: Sys, s': Sys, k: WriterId) {
    && SplitLines(s.file) <= SplitLines(s'.file)
    && (s'.history == s.history || exists x: Commit :: s'.history == s.history + [x] && x.author == k)
  }

  lemma {:induction false} LogOfPrefix(a: seq<Commit>, b: seq<Commit>)
    requires a <= b
    ensures LogOf(a) <= LogOf(b)
  {
    if a == b {
    } else {
      LogOfPrefix(a, b[..|b| - 1]);
    }
  }

  lemma CommitsExtend(history: seq<Commit>, x: Commit, k: WriterId, since: nat)
    requires since <= |history|
    ensures CommitsBy(history + [x], k, since) == CommitsBy(history, k, since) + if x.author == k then 1 else 0
    ensures LogOf(history + [x]) == LogOf(history) + x.accepted
  {
    assert (history + [x])[..|history|] == history;
  }

  lemma NoneSinceNow(history: seq<Commit>, k: WriterId)
    ensures CommitsBy(history, k, |history|) == 0
  {}

  lemma CommitStaysTrue(log: seq<Event>, log': seq<Event>, proposals: seq<Proposal>, accepted: seq<Event>, rejected: seq<Rejection>)
    requires log <= log' && CommitTrue(log, proposals, accepted, rejected)
    ensures CommitTrue(log', proposals, accepted, rejected)
  {
    assert log' == log + log'[|log|..];
    IdsConcat(log, log'[|log|..]);
  }

  lemma JudgementStays(w: Workflow, log: seq<Event>, log': seq<Event>, x: Writer, o: BatchOutcome)
    requires log <= log' && JudgedOnce(w, log, x, o)
    ensures JudgedOnce(w, log', x, o)
  {
    hide Outcome;
    var seen, offers :| JudgedWith(w, log, x, o, seen, offers);
    assert JudgedWith(w, log', x, o, seen, offers);
  }

  lemma ReplyStaysTrue(w: Workflow, history: seq<Commit>, x: Commit, k: WriterId, y: Writer)
    requires y.Replied? && y.since <= |history| && ReplyTrue(w, history, k, y) && x.author != k
    ensures ReplyTrue(w, history + [x], k, y)
  {
    hide JudgedOnce, CommitTrue, LogOf, CommitsBy;
    CommitsExtend(history, x, k, y.since);
    var log, log' := LogOf(history), LogOf(history + [x]);
    match y.reply {
      case Reported(accepted, rejected) =>
        if IsCommit(y.reply, y.mode) { CommitStaysTrue(log, log', y.proposals, accepted, rejected); }
        else { JudgementStays(w, log, log', y, RolledBack(rejected)); }
      case Errored(error) =>
        if error.Precondition? { JudgementStays(w, log, log', y, Failed(error.error)); }
    }
  }

  lemma WriterStaysOk(w: Workflow, c: Codec, s: Sys, s': Sys, k: WriterId, j: WriterId)
    requires j in s.writers && j in s'.writers && s'.writers[j] == s.writers[j] && j != k
    requires WriterOk(w, c, s, j) && GrowsBy(s, s', k)
    ensures WriterOk(w, c, s', j)
  {
    hide LinesHold, SplitLines, ReplyTrue, CommitsBy, ContentOk;
    if s'.history != s.history {
      var x: Commit :| s'.history == s.history + [x] && x.author == k;
      CommitsExtend(s.history, x, j, s.writers[j].since);
      if s.writers[j].Replied? { ReplyStaysTrue(w, s.history, x, j, s.writers[j]); }
    }
  }

  lemma SerialExtends(w: Workflow, history: seq<Commit>, x: Commit)
    requires Serial(w, history) && x.base == LogOf(history)
    requires Outcome(w, x.base, x.offers, x.mode) == Committed(x.accepted, x.rejected)
    ensures Serial(w, history + [x])
  {
    hide Outcome;
    var after := history + [x];
    assert after[..|history|] == history;
    forall i | 0 <= i < |after| ensures SerialAt(w, after, i) {
      if i < |history| {
        assert SerialAt(w, history, i);
        assert after[..i] == history[..i];
      }
    }
  }

  /** The report of a batch just committed, read against the log it produced. */
  lemma FreshCommitTrue(w: Workflow, log: seq<Event>, proposals: seq<Proposal>, offers: seq<Offer>, mode: AppendMode,
                        accepted: seq<Event>, rejected: seq<Rejection>)
    requires StampsFor(offers, proposals) && Outcome(w, log, offers, mode) == Committed(accepted, rejected)
    ensures CommitTrue(log + accepted, proposals, accepted, rejected) && IsCommit(Reported(accepted, rejected), mode)
  {
    hide Objection;
    RunAllGrows(w, log, offers);
    DuplicateIsRecorded(w, log, offers);
    forall p | p in proposals ensures FingerprintOfProposal(p) in Fingerprints(log + accepted) || RefusedIn(rejected, p) {
      var i :| 0 <= i < |offers| && offers[i].proposal == p;
      BestEffortAccounts(w, log, offers, i);
    }
  }

  lemma OnlyAllOrNothingFails(w: Workflow, log: seq<Event>, offers: seq<Offer>, mode: AppendMode)
    ensures mode.BestEffort? ==> Outcome(w, log, offers, mode).Committed?
    ensures Outcome(w, log, offers, mode).RolledBack? ==> Outcome(w, log, offers, mode).rejected != []
  {
    hide RunAll;
  }

  // ----- the steps -----

  lemma CheckKeepsInv(w: Workflow, c: Codec, s: Sys, k: WriterId, offers: seq<Offer>, fault: Fault)
    requires Faithful(c) && Inv(w, c, s) && Judging(s, k)
    requires StampsFor(offers, s.writers[k].proposals) && FreshOffers(LogOf(s.history), offers)
    ensures WriterOk(w, c, s.(writers := s.writers[k := Checked(w, c, s, k, offers, fault)]), k)
  {
    hide Outcome, LinesHold, SplitLines, PlanFor, Holds, Faithful, Reachable, FreshOffers, StampsFor, Serial, LogOf, CommitsBy, Combined;
    assert WriterOk(w, c, s, k);
    var x := s.writers[k];
    var snapshot, log := x.snapshot.value, LogOf(s.history);
    var seen :| LinesHold(w, c, snapshot, seen);
    CheckedContent(w, c, snapshot, seen, s.file, log, offers, x.mode);
    var plan := PlanFor(w, c, snapshot, offers, x.mode);
    if plan.Stop? {
      HoldsLines(w, c, s.file, log);
      PrefixHoldsPrefix(w, c, snapshot, seen, SplitLines(s.file), log);
      OnlyAllOrNothingFails(w, seen, offers, x.mode);
      assert JudgedWith(w, log, Answered(x, plan.reply), Outcome(w, seen, offers, x.mode), seen, offers);
    }
  }

  lemma RenameKeepsInv(w: Workflow, c: Codec, s: Sys, k: WriterId, fault: Fault)
    requires Faithful(c) && Inv(w, c, s) && InRename(s, k) && Undisturbed(s, Rename(k, fault))
    ensures Inv(w, c, Renamed(s, k, fault)) && GrowsBy(s, Renamed(s, k, fault), k)
  {
    hide Outcome, LinesHold, SplitLines, Reachable, FreshOffers, Faithful, LogOf, Serial, ReplyTrue, CommitsBy;
    assert WriterOk(w, c, s, k);
    var x := s.writers[k];
    var s' := Renamed(s, k, fault);
    if !fault.WriteFails? {
      var commit := Commit(k, x.base, x.offers, x.mode, x.accepted, x.rejected);
      CommitsExtend(s.history, commit, k, x.since);
      SerialExtends(w, s.history, commit);
      OutcomeReachable(w, x.base, x.offers, x.mode);
      HoldsLines(w, c, s.file, x.base);
      HoldsLines(w, c, x.content, x.base + x.accepted);
      LinesGrow(w, c, SplitLines(s.file), x.base, x.accepted, SplitLines(x.content));
    }
    RenameReplyTrue(w, c, s, k, fault);
    forall j | j in s'.writers ensures WriterOk(w, c, s', j) {
      if j != k { WriterStaysOk(w, c, s, s', k, j); }
    }
  }

  lemma RenameReplyTrue(w: Workflow, c: Codec, s: Sys, k: WriterId, fault: Fault)
    requires InRename(s, k) && WriterOk(w, c, s, k) && Undisturbed(s, Rename(k, fault))
    ensures ReplyTrue(w, Renamed(s, k, fault).history, k, Renamed(s, k, fault).writers[k])
  {
    hide Outcome, Holds, SplitLines, FreshOffers, LogOf, CommitsBy, CommitTrue;
    var x := s.writers[k];
    CommitsExtend(s.history, Commit(k, x.base, x.offers, x.mode, x.accepted, x.rejected), k, x.since);
    FreshCommitTrue(w, x.base, x.proposals, x.offers, x.mode, x.accepted, x.rejected);
  }

  lemma NextKeepsInv(w: Workflow, c: Codec, s: Sys, a: Action, s': Sys)
    requires Faithful(c) && Inv(w, c, s) && Next(w, c, s, a, s') && Undisturbed(s, a)
    ensures Inv(w, c, s') && GrowsBy(s, s', a.k) && s.history <= s'.history
  {
    hide Outcome, Reachable, Holds, NoBlanks, Serial, FreshOffers, ReplyTrue, LogOf, Checked, ContentOk;
    if a.Rename? {
      RenameKeepsInv(w, c, s, a.k, a.fault);
    } else {
      NoneSinceNow(s.history, a.k);
      match a {
        case Check(k, offers, fault) => CheckKeepsInv(w, c, s, k, offers, fault);
        case Load(k) => LoadedOk(w, c, s.file, LogOf(s.history));
        case LoadFails(k) => FailedReplyTrue(w, s.history, k, s.writers[k], s'.writers[k]);
        case Start(k, _, _) =>
      }
      forall j | j in s'.writers ensures WriterOk(w, c, s', j) {
        if j != a.k { WriterStaysOk(w, c, s, s', a.k, j); }
      }
    }
  }

  lemma LoadedOk(w: Workflow, c: Codec, file: Bytes, log: seq<Event>)
    requires Holds(w, c, file, log)
    ensures SnapshotOk(w, c, file, SplitLines(file))
  {
    HoldsLines(w, c, file, log);
  }

  lemma FailedReplyTrue(w: Workflow, history: seq<Commit>, k: WriterId, x: Writer, y: Writer)
    requires CommitsBy(history, k, x.since) == 0 && y == Answered(x, Errored(Storage(IoError)))
    ensures ReplyTrue(w, history, k, y)
  {}

  lemma InitInv(w: Workflow, c: Codec, s: Sys)
    requires Init(s)
    ensures Inv(w, c, s)
  {}

  // ----- over whole runs -----

  /** Every state of every run without overlapping appends satisfies the invariant. */
  lemma {:induction false} RunKeepsInv(w: Workflow, c: Codec, run: seq<Sys>, actions: seq<Action>, i: nat)
    requires Faithful(c) && IsRun(w, c, run, actions) && NoOverlap(run, actions) && i < |run|
    ensures Inv(w, c, run[i])
  {
    hide Inv, Undisturbed;
    if i == 0 {
      InitInv(w, c, run[0]);
    } else {
      RunKeepsInv(w, c, run, actions, i - 1);
      assert Next(w, c, run[i - 1], actions[i - 1], run[i]);
      NextKeepsInv(w, c, run[i - 1], actions[i - 1], run[i]);
    }
  }

  lemma NextGrows(w: Workflow, c: Codec, s: Sys, a: Action, s': Sys)
    requires Faithful(c) && Inv(w, c, s) && Next(w, c, s, a, s') && Undisturbed(s, a)
    ensures s.history <= s'.history
  {
    hide Inv, Next, Undisturbed;
    NextKeepsInv(w, c, s, a, s');
  }

  /** No committed event is ever lost or reordered: each state's log is a prefix of every later one's. */
  lemma {:induction false} NothingLost(w: Workflow, c: Codec, run: seq<Sys>, actions: seq<Action>, i: nat, j: nat)
    requires Faithful(c) && IsRun(w, c, run, actions) && NoOverlap(run, actions) && i <= j < |run|
    ensures run[i].history <= run[j].history
    ensures LogOf(run[i].history) <= LogOf(run[j].history)
  {
    hide Inv, LogOf, Undisturbed;
    if i < j {
      NothingLost(w, c, run, actions, i, j - 1);
      RunKeepsInv(w, c, run, actions, j - 1);
      assert Next(w, c, run[j - 1], actions[j - 1], run[j]);
      NextGrows(w, c, run[j - 1], actions[j - 1], run[j]);
    }
    LogOfPrefix(run[i].history, run[j].history);
  }

  /** Running the committed batches one after the other, with nobody else around. */
  ghost function SerialRun(w: Workflow, history: seq<Commit>): seq<Event> {
    if history == [] then []
    else
      var n := |history| - 1;
      var before := SerialRun(w, history[..n]);
      LogAfter(before, Outcome(w, before, history[n].offers, history[n].mode))
  }

  lemma {:induction false} SerialRunIsLog(w: Workflow, history: seq<Commit>)
    requires Serial(w, history)
    ensures SerialRun(w, history) == LogOf(history)
  {
    hide Outcome;
    if history != [] {
      var n := |history| - 1;
      forall i | 0 <= i < n ensures SerialAt(w, history[..n], i) {
        assert SerialAt(w, history, i);
        assert history[..n][..i] == history[..i];
      }
      SerialRunIsLog(w, history[..n]);
      assert SerialAt(w, history, n);
    }
  }

  /**
   In every state of every interleaving without overlapping appends the file loads cleanly, as a
   reachable ledger, equal to a serial run of the committed batches, with no fingerprint in it twice.
   */
  lemma EveryRunIsSerial(w: Workflow, c: Codec, run: seq<Sys>, actions: seq<Action>, i: nat)
    requires Faithful(c) && IsRun(w, c, run, actions) && NoOverlap(run, actions) && i < |run|
    ensures
      var parsed := ParseLines(c, SplitLines(run[i].file));
      && parsed.Readable? && SaltOk(w, parsed.header)
      && parsed.events == SerialRun(w, run[i].history)
      && Reachable(w, parsed.events)
      && forall p, q :: 0 <= p < q < |parsed.events| ==> FingerprintOf(parsed.events[p]) != FingerprintOf(parsed.events[q])
  {
    hide Reachable, SplitLines, ParseLines, WriterOk;
    RunKeepsInv(w, c, run, actions, i);
    var s := run[i];
    HoldsParses(w, c, SplitLines(s.file), LogOf(s.history));
    SerialRunIsLog(w, s.history);
    forall p, q | 0 <= p < q < |LogOf(s.history)|
      ensures FingerprintOf(LogOf(s.history)[p]) != FingerprintOf(LogOf(s.history)[q])
    {
      EventsDistinct(w, LogOf(s.history), p, q);
    }
  }

  /** No writer is ever told the log is corrupt or salted for another workflow, and every reply is true. */
  lemma RepliesTrue(w: Workflow, c: Codec, run: seq<Sys>, actions: seq<Action>, i: nat, k: WriterId)
    requires Faithful(c) && IsRun(w, c, run, actions) && NoOverlap(run, actions) && i < |run|
    requires k in run[i].writers && run[i].writers[k].Replied?
    ensures ReplyTrue(w, run[i].history, k, run[i].writers[k])
  {
    hide Reachable, Holds, Serial, ReplyTrue;
    RunKeepsInv(w, c, run, actions, i);
    assert WriterOk(w, c, run[i], k);
  }

  // ----- how often a writer tries -----

  /** How many length checks writer `k` has made in its current job. */
  function Checks(actions: seq<Action>, k: WriterId): nat {
    if actions == [] then 0
    else
      var last := actions[|actions| - 1];
      if last.Start? && last.k == k then 0
      else Checks(actions[..|actions| - 1], k) + if last.Check? && last.k == k then 1 else 0
  }

  /** Where a writer can be after `n` length checks. */
  predicate AfterChecks(s: Sys, k: WriterId, n: nat) {
    k in s.writers ==>
      match s.writers[k]
      case Appending(_, _, _, tries, _) => n == tries < 5
      case Renaming(_, _, _, _, _, _, _, _) => 1 <= n <= 5
      case Replied(_, _, _, Errored(Storage(LogMutated(_, _)))) => n == 5
      case Replied(_, _, _, _) => n <= 5
  }

  lemma {:induction false} ParseNamesNoMismatch(c: Codec, lines: seq<Bytes>)
    ensures ParseLines(c, lines).Unreadable? ==> !ParseLines(c, lines).error.Storage?
  {
    if lines != [] { ParseNamesNoMismatch(c, lines[..|lines| - 1]); }
  }

  lemma PlanNamesNoMismatch(w: Workflow, c: Codec, snapshot: seq<Bytes>, offers: seq<Offer>, mode: AppendMode)
    ensures
      var plan := PlanFor(w, c, snapshot, offers, mode);
      plan.Stop? && plan.reply.Errored? ==> !plan.reply.error.Storage?
  {
    hide Outcome, ParseLines, SaltOk;
    ParseNamesNoMismatch(c, snapshot);
  }

  lemma ChecksStep(w: Workflow, c: Codec, s: Sys, a: Action, s': Sys, k: WriterId, n: nat)
    requires Next(w, c, s, a, s') && AfterChecks(s, k, n)
    ensures AfterChecks(s', k, if a.Start? && a.k == k then 0 else n + if a.Check? && a.k == k then 1 else 0)
  {
    hide PlanFor, SplitLines, FreshOffers;
    if a.Check? { PlanNamesNoMismatch(w, c, s.writers[a.k].snapshot.value, a.offers, s.writers[a.k].mode); }
  }

  /** A writer is told of a length mismatch only after five checks, and no job makes more; this needs no lock. */
  lemma {:induction false} FiveChecks(w: Workflow, c: Codec, run: seq<Sys>, actions: seq<Action>, i: nat, k: WriterId)
    requires IsRun(w, c, run, actions) && i < |run|
    ensures AfterChecks(run[i], k, Checks(actions[..i], k))
  {
    hide Next, AfterChecks;
    if i == 0 {
      NoWritersAtFirst(run[0], k);
    } else {
      FiveChecks(w, c, run, actions, i - 1, k);
      assert Next(w, c, run[i - 1], actions[i - 1], run[i]);
      ChecksStep(w, c, run[i - 1], actions[i - 1], run[i], k, Checks(actions[..i - 1], k));
      assert actions[..i][..i - 1] == actions[..i - 1];
    }
  }

  lemma NoWritersAtFirst(s: Sys, k: WriterId)
    requires Init(s)
    ensures AfterChecks(s, k, 0)
  {}

  /**
   With nobody in between, the steps of one try are one attempt of the file repository, faults
   included: same reply and same file, or another try, or after the fifth mismatch its numbers.
   */
  lemma QuietAppend(w: Workflow, c: Codec, s: Sys, k: WriterId, offers: seq<Offer>, fault: Fault, loaded: Sys, checked: Sys, end: Sys)
    requires Waiting(s, k) && Next(w, c, s, Load(k), loaded) && Next(w, c, loaded, Check(k, offers, fault), checked)
    requires if InRename(checked, k) then Next(w, c, checked, Rename(k, fault), end) else end == checked
    ensures
      var x, a := s.writers[k], FileRepository.Attempt(w, c, s.file, s.writers[k].mode, Weather(true, offers, s.file, s.file, fault));
      && end.file == a.file && k in end.writers
      && end.writers[k] ==
           match a.result
           case Done(reply) => Replied(x.proposals, x.mode, x.since, reply)
           case CasMismatch(e, d) =>
             if x.tries + 1 < 5 then Appending(x.proposals, x.mode, x.since, x.tries + 1, None)
             else Replied(x.proposals, x.mode, x.since, Errored(Storage(LogMutated(e, d))))
  {
    hide PlanFor, SplitLines, FreshOffers, Combined, CountLines;
  }

  // ----- what the lock is for -----

  /** At most one writer is between its length check and its rename: what a held lock guarantees. */
  ghost predicate Exclusive(s: Sys) {
    forall j, k :: InRename(s, j) && InRename(s, k) ==> j == k
  }

  /** Every writer about to rename still has the current log in hand. */
  ghost predicate Current(s: Sys) {
    forall k :: InRename(s, k) ==> s.writers[k].base == LogOf(s.history)
  }

  lemma NextKeepsCurrent(w: Workflow, c: Codec, s: Sys, a: Action, s': Sys)
    requires Next(w, c, s, a, s') && Exclusive(s) && Current(s)
    ensures Current(s')
  {
    hide PlanFor, SplitLines, LogOf, Combined;
    forall k | InRename(s', k) ensures s'.writers[k].base == LogOf(s'.history) {
      if k != a.k { assert InRename(s, k); }
    }
  }

  /** A lock that is held from the length check to the rename is enough for every theorem above. */
  lemma {:induction false} LockedRunsDoNotOverlap(w: Workflow, c: Codec, run: seq<Sys>, actions: seq<Action>, n: nat)
    requires IsRun(w, c, run, actions) && n < |run| && forall i :: 0 <= i < |run| ==> Exclusive(run[i])
    ensures Current(run[n])
    ensures n == |actions| ==> NoOverlap(run, actions)
    decreases n
  {
    hide Next, LogOf, Current, Exclusive;
    if n == 0 {
      InitCurrent(run[0]);
    } else {
      LockedRunsDoNotOverlap(w, c, run, actions, n - 1);
      assert Next(w, c, run[n - 1], actions[n - 1], run[n]);
      assert Exclusive(run[n - 1]);
      NextKeepsCurrent(w, c, run[n - 1], actions[n - 1], run[n]);
    }
    if n == |actions| {
      forall i | 0 <= i < |actions| ensures Undisturbed(run[i], actions[i]) {
        if i < n { LockedRunsDoNotOverlap(w, c, run, actions, i); }
        CurrentUndisturbed(run[i], actions[i]);
      }
    }
  }

  lemma InitCurrent(s: Sys)
    requires Init(s)
    ensures Current(s)
  {}

  lemma CurrentUndisturbed(s: Sys, a: Action)
    requires Current(s)
    ensures Undisturbed(s, a)
  {}

  /**
   And nothing less is: a rename that takes effect keeps every recorded event exactly when nothing was
   recorded since its length check. (Event ids are never handed out twice.)
   */
  lemma RenameKeepsExactly(w: Workflow, c: Codec, s: Sys, k: WriterId, fault: Fault)
    requires Faithful(c) && Inv(w, c, s) && InRename(s, k) && !fault.WriteFails?
    requires FreshOffers(LogOf(s.history), s.writers[k].offers) && s.writers[k].base <= LogOf(s.history)
    ensures
      var x, after := s.writers[k], Renamed(s, k, fault).file;
      && Holds(w, c, after, x.base + x.accepted)
      && ((exists log :: Holds(w, c, after, log) && LogOf(s.history) <= log) <==> x.base == LogOf(s.history))
  {
    hide Outcome, Reachable, Serial, LogOf, CommitsBy, NoBlanks, LinesHold, SplitLines;
    assert WriterOk(w, c, s, k);
    var x, after, now := s.writers[k], Renamed(s, k, fault).file, LogOf(s.history);
    forall log | Holds(w, c, after, log) ensures log == x.base + x.accepted { HoldsOne(w, c, after, log, x.base + x.accepted); }
    AcceptedAreNew(w, x.base, x.offers, x.mode, x.accepted, x.rejected, now);
    NewEventsExtend(x.base, now, x.accepted);
  }

  lemma NewEventsExtend(base: seq<Event>, now: seq<Event>, accepted: seq<Event>)
    requires base <= now && forall e :: e in accepted ==> e !in now
    ensures now <= base + accepted <==> base == now
  {
    if |base| < |now| && accepted != [] {
      assert accepted[0] in accepted && now[|base|] in now;
      assert (base + accepted)[|base|] == accepted[0];
    }
  }

  lemma HoldsOne(w: Workflow, c: Codec, file: Bytes, a: seq<Event>, b: seq<Event>)
    requires Faithful(c) && Holds(w, c, file, a) && Holds(w, c, file, b)
    ensures a == b
  {
    hide SplitLines, LinesHold, NoBlanks;
    HoldsLines(w, c, file, a);
    HoldsLines(w, c, file, b);
    SameLinesSameEvents(w, c, SplitLines(file), a, b);
  }

  lemma AcceptedAreNew(w: Workflow, base: seq<Event>, offers: seq<Offer>, mode: AppendMode, accepted: seq<Event>,
                       rejected: seq<Rejection>, log: seq<Event>)
    requires Outcome(w, base, offers, mode) == Committed(accepted, rejected) && FreshOffers(log, offers)
    ensures forall e :: e in accepted ==> e !in log
  {
    hide RunAll;
    AcceptedIds(w, base, offers);
    forall e | e in accepted ensures e !in log {
      var i :| 0 <= i < |offers| && offers[i].id == e.id;
      assert offers[i].id !in Ids(log);
    }
  }

  // ----- two overlapping appends -----

  function JudgingOnEmpty(p: Proposal): Writer { Appending([p], BestEffort, 0, 0, Some([])) }

  function Ready(w: Workflow, c: Codec, p: Proposal, o: Offer): Writer {
    var e := EventFor(o, None);
    Renaming([p], BestEffort, 0, [o], [], Combined([], NewLines(w, c, true, [e])), [e], [])
  }

  function Told(p: Proposal, o: Offer): Writer { Replied([p], BestEffort, 0, Reported([EventFor(o, None)], [])) }

  function CommitOf(k: WriterId, o: Offer): Commit { Commit(k, [], [o], BestEffort, [EventFor(o, None)], []) }

  function OverlapActions(p: Proposal, q: Proposal, a: Offer, b: Offer): seq<Action> {
    [Start(0, [p], BestEffort), Start(1, [q], BestEffort), Load(0), Load(1),
     Check(0, [a], NoFault), Check(1, [b], NoFault), Rename(0, NoFault), Rename(1, NoFault)]
  }

  function OverlapRun(w: Workflow, c: Codec, p: Proposal, q: Proposal, a: Offer, b: Offer): seq<Sys> {
    var empty0, empty1 := Appending([p], BestEffort, 0, 0, None), Appending([q], BestEffort, 0, 0, None);
    var first, second := Ready(w, c, p, a).content, Ready(w, c, q, b).content;
    [Sys([], map[], []),
     Sys([], map[0 := empty0], []),
     Sys([], map[0 := empty0, 1 := empty1], []),
     Sys([], map[0 := JudgingOnEmpty(p), 1 := empty1], []),
     Sys([], map[0 := JudgingOnEmpty(p), 1 := JudgingOnEmpty(q)], []),
     Sys([], map[0 := Ready(w, c, p, a), 1 := JudgingOnEmpty(q)], []),
     Sys([], map[0 := Ready(w, c, p, a), 1 := Ready(w, c, q, b)], []),
     Sys(first, map[0 := Told(p, a), 1 := Ready(w, c, q, b)], [CommitOf(0, a)]),
     Sys(second, map[0 := Told(p, a), 1 := Told(q, b)], [CommitOf(0, a), CommitOf(1, b)])]
  }

  lemma OneOfferPlan(w: Workflow, c: Codec, o: Offer)
    requires Objection(w, [], o.proposal).None?
    ensures
      var e := EventFor(o, None);
      && Outcome(w, [], [o], BestEffort) == Committed([e], [])
      && PlanFor(w, c, [], [o], BestEffort) == Write(0, NewLines(w, c, true, [e]), [e], [])
  {
    hide Objection;
    RunAllEmpty(w, [], [o]);
    RunAllNext(w, [], [o], 0);
    assert [] + [EventFor(o, None)] == [EventFor(o, None)];
    assert ParseLines(c, []) == Readable(None, []);
  }

  /** One check step of that run: writer `k` passes the length check on the empty file. */
  lemma CheckOnEmpty(w: Workflow, c: Codec, s: Sys, k: WriterId, p: Proposal, o: Offer)
    requires k in s.writers && s.writers[k] == JudgingOnEmpty(p) && s.file == [] && s.history == []
    requires o.proposal == p && Objection(w, [], p).None?
    ensures Next(w, c, s, Check(k, [o], NoFault), s.(writers := s.writers[k := Ready(w, c, p, o)]))
  {
    hide Objection, PlanFor, Outcome, NewLines, Combined;
    OneOfferPlan(w, c, o);
  }

  lemma EmptyFile(w: Workflow, c: Codec)
    ensures SplitLines([]) == [] && Holds(w, c, [], [])
  {}

  lemma OverlapStarts(w: Workflow, c: Codec, p: Proposal, q: Proposal, a: Offer, b: Offer)
    ensures
      var run, actions := OverlapRun(w, c, p, q, a, b), OverlapActions(p, q, a, b);
      forall i :: 0 <= i < 4 ==> Next(w, c, run[i], actions[i], run[i + 1])
  {
    var run, actions := OverlapRun(w, c, p, q, a, b), OverlapActions(p, q, a, b);
    EmptyFile(w, c);
    hide Ready, Told, CommitOf, SplitLines, Checked, Renamed;
    forall i | 0 <= i < 4 ensures Next(w, c, run[i], actions[i], run[i + 1]) {
      if i == 0 { assert run[1].writers == run[0].writers[0 := run[1].writers[0]]; }
      else if i == 1 { assert run[2].writers == run[1].writers[1 := run[2].writers[1]]; }
      else if i == 2 { assert run[3].writers == run[2].writers[0 := run[3].writers[0]]; }
      else { assert run[4].writers == run[3].writers[1 := run[4].writers[1]]; }
    }
  }

  lemma OverlapLands(w: Workflow, c: Codec, p: Proposal, q: Proposal, a: Offer, b: Offer)
    requires Objection(w, [], p).None? && Objection(w, [], q).None? && a.proposal == p && b.proposal == q
    ensures
      var run, actions := OverlapRun(w, c, p, q, a, b), OverlapActions(p, q, a, b);
      forall i :: 4 <= i < 8 ==> Next(w, c, run[i], actions[i], run[i + 1])
  {
    hide Objection, Outcome, PlanFor, NewLines, Combined, Checked, EventFor, SplitLines;
    var run, actions := OverlapRun(w, c, p, q, a, b), OverlapActions(p, q, a, b);
    CheckOnEmpty(w, c, run[4], 0, p, a);
    CheckOnEmpty(w, c, run[5], 1, q, b);
    forall i | 4 <= i < 8 ensures Next(w, c, run[i], actions[i], run[i + 1]) {
      if i == 4 { assert run[5].writers == run[4].writers[0 := run[5].writers[0]]; }
      else if i == 5 { assert run[6].writers == run[5].writers[1 := run[6].writers[1]]; }
      else if i == 6 { assert run[7].writers == run[6].writers[0 := run[7].writers[0]]; }
      else { assert run[8].writers == run[7].writers[1 := run[8].writers[1]]; }
    }
  }

  /**
   Without the lock a reported commit can vanish: for any two different proposals a new unit admits,
   some run tells the writer of the first that it is recorded, and ends with a file that holds only the second.
   */
  lemma OverlapLosesCommit(w: Workflow, c: Codec, p: Proposal, q: Proposal, a: Offer, b: Offer)
    requires Faithful(c) && Objection(w, [], p).None? && Objection(w, [], q).None?
    requires a.proposal == p && b.proposal == q && FingerprintOfProposal(p) != FingerprintOfProposal(q)
    ensures
      var run, actions := OverlapRun(w, c, p, q, a, b), OverlapActions(p, q, a, b);
      && IsRun(w, c, run, actions) && !NoOverlap(run, actions)
      && run[8].writers[0].reply == Reported([EventFor(a, None)], [])
      && Holds(w, c, run[8].file, [EventFor(b, None)])
      && FingerprintOfProposal(p) !in Fingerprints([EventFor(b, None)])
  {
    hide Objection, Outcome, PlanFor, NewLines, Combined, Holds;
    var run, actions := OverlapRun(w, c, p, q, a, b), OverlapActions(p, q, a, b);
    OverlapStarts(w, c, p, q, a, b);
    OverlapLands(w, c, p, q, a, b);
    assert IsRun(w, c, run, actions) by { hide Next; }
    EmptyFile(w, c);
    WriteHolds(w, c, [], [], [EventFor(b, None)]);
    assert [] + [EventFor(b, None)] == [EventFor(b, None)];
    assert LogOf([CommitOf(0, a)]) == [EventFor(a, None)] by { assert [CommitOf(0, a)][..0] == []; }
    assert !Undisturbed(run[7], actions[7]);
  }
}
