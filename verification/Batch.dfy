/**
 What one `append` call does to a log: dedup against the raw log, preconditions against the log
 grown so far, and the two batching policies. Both repositories are proved against `Outcome`.
 */
module Batch {
  import opened Options
  import opened Events
  import opened Preconditions
  import opened Ledger

  datatype AppendMode = AllOrNothing | BestEffort

  /** A proposal with the id and the clock reading it will be stamped with if accepted. */
  datatype Offer = Offer(proposal: Proposal, id: EventId, now: Timestamp)

  datatype Reason = Duplicate | Violates(error: PreconditionError)

  datatype Rejection = Rejection(proposal: Proposal, reason: Reason)

  /** The accumulators of an append: the working log and the two halves of the report. */
  datatype Run = Run(events: seq<Event>, accepted: seq<Event>, rejected: seq<Rejection>)

  datatype BatchOutcome =
    | Committed(accepted: seq<Event>, rejected: seq<Rejection>)
    | RolledBack(rejected: seq<Rejection>)
    | Failed(error: PreconditionError)

  function EventFor(o: Offer, last: Option<Timestamp>): Event {
    Event(o.id, Stamp(o.now, last), o.proposal.causation, o.proposal.extension, o.proposal.body, o.proposal.supersedes)
  }

  function ProposalOf(e: Event): Proposal { Proposal(e.causation, e.extension, e.body, e.supersedes) }

  /** Why `p` cannot join `log`, or `None` if it can. */
  ghost function Objection(w: Workflow, log: seq<Event>, p: Proposal): Option<Reason> {
    if FingerprintOfProposal(p) in Fingerprints(log) then Some(Duplicate)
    else if Admission(w, log, p.body).Refused? then Some(Violates(Admission(w, log, p.body).error))
    else if w.checkExtension(p.extension, log).Some? then Some(Violates(w.checkExtension(p.extension, log).value))
    else None
  }

  /** The checks one proposal goes through, in order: dedup, body precondition, extension precondition. */
  method Judge(w: Workflow, log: seq<Event>, used: seq<Fingerprint>, p: Proposal) returns (objection: Option<Reason>)
    requires forall fp :: fp in used <==> fp in Fingerprints(log)
    ensures objection == Objection(w, log, p)
  {
    hide RuleFor;
    if FingerprintOfProposal(p) in used { return Some(Duplicate); }
    var verdict := CheckPrecondition(w, log, p.body);
    if verdict.Refused? { return Some(Violates(verdict.error)); }
    var refusal := w.checkExtension(p.extension, log);
    if refusal.Some? { return Some(Violates(refusal.value)); }
    return None;
  }

  ghost function Step(w: Workflow, r: Run, o: Offer): Run {
    match Objection(w, r.events, o.proposal)
    case Some(reason) => r.(rejected := r.rejected + [Rejection(o.proposal, reason)])
    case None =>
      var e := EventFor(o, LastAt(r.events));
      Run(r.events + [e], r.accepted + [e], r.rejected)
  }

  /** Every offer in turn, each judged against the log its predecessors left. */
  ghost function RunAll(w: Workflow, log: seq<Event>, offers: seq<Offer>): Run {
    if offers == [] then Run(log, [], [])
    else Step(w, RunAll(w, log, offers[..|offers| - 1]), offers[|offers| - 1])
  }

  /** The time an event is stamped with: its clock reading, unless that is not later than the last stamp. */
  predicate IsStamp(at: Timestamp, now: Timestamp, log: seq<Event>) {
    if log == [] then at == now
    else
      var last := log[|log| - 1].at;
      if now > last then at == now else if last < MAX_TIME then at == last + 1 else at == MAX_TIME
  }

  /** The event is the proposal, under the id of its offer, stamped from the offer's clock reading. */
  predicate Carries(e: Event, o: Offer, log: seq<Event>) {
    && e.id == o.id && IsStamp(e.at, o.now, log)
    && e.causation == o.proposal.causation && e.extension == o.proposal.extension
    && e.body == o.proposal.body && e.supersedes == o.proposal.supersedes
  }

  /**
   What becomes of offer `i`: with `before` the run up to it, either nothing speaks against it and the
   next event of the final log, and the next accepted one, carries it; or the next rejection names it
   with the reason.
   */
  lemma OfferFate(w: Workflow, log: seq<Event>, offers: seq<Offer>, i: nat)
    requires i < |offers|
    ensures
      var before, end := RunAll(w, log, offers[..i]), RunAll(w, log, offers);
      match Objection(w, before.events, offers[i].proposal)
      case None =>
        && |before.events| < |end.events| && before.events <= end.events && Carries(end.events[|before.events|], offers[i], before.events)
        && |before.accepted| < |end.accepted| && end.accepted[|before.accepted|] == end.events[|before.events|]
      case Some(reason) =>
        |before.rejected| < |end.rejected| && end.rejected[|before.rejected|] == Rejection(offers[i].proposal, reason)
  {
    hide Objection, RunAll;
    var before, next, end := RunAll(w, log, offers[..i]), RunAll(w, log, offers[..i + 1]), RunAll(w, log, offers);
    RunAllNext(w, log, offers, i);
    assert offers == offers[..i + 1] + offers[i + 1..];
    RunSplits(w, log, offers[..i + 1], offers[i + 1..]);
    RunAllGrows(w, next.events, offers[i + 1..]);
    if Objection(w, before.events, offers[i].proposal).None? {
      assert next.events[|before.events|] == EventFor(offers[i], LastAt(before.events));
    } else {
      assert next.rejected[|before.rejected|].proposal == offers[i].proposal;
    }
  }

  /** The first precondition error among the rejections, if any. */
  function FirstViolation(rejected: seq<Rejection>): Option<PreconditionError> {
    if rejected == [] then None
    else
      var n := |rejected| - 1;
      var earlier := FirstViolation(rejected[..n]);
      if earlier.Some? then earlier
      else if rejected[n].reason.Violates? then Some(rejected[n].reason.error) else None
  }

  lemma RunAllEmpty(w: Workflow, log: seq<Event>, offers: seq<Offer>)
    ensures RunAll(w, log, offers[..0]) == Run(log, [], [])
    ensures FirstViolation([]).None?
    ensures offers[..|offers|] == offers
  {}

  /** The loop invariant of every implementation: one more offer is one more step. */
  lemma RunAllNext(w: Workflow, log: seq<Event>, offers: seq<Offer>, i: nat)
    requires i < |offers|
    ensures RunAll(w, log, offers[..i + 1]) == Step(w, RunAll(w, log, offers[..i]), offers[i])
  {
    hide Objection;
    assert offers[..i + 1][..i] == offers[..i];
  }

  lemma FirstViolationNext(rejected: seq<Rejection>, x: Rejection)
    ensures FirstViolation(rejected + [x]) ==
              if FirstViolation(rejected).Some? || x.reason.Duplicate? then FirstViolation(rejected) else Some(x.reason.error)
  {
    assert (rejected + [x])[..|rejected|] == rejected;
  }

  lemma {:induction false} FirstViolationConcat(a: seq<Rejection>, b: seq<Rejection>)
    requires FirstViolation(a).Some?
    ensures FirstViolation(a + b) == FirstViolation(a)
  {
    if b == [] {
      assert a + b == a;
    } else {
      assert (a + b)[..|a + b| - 1] == a + b[..|b| - 1];
      FirstViolationConcat(a, b[..|b| - 1]);
    }
  }

  /** Once a batch has a violation, the rest of it cannot change which one came first. */
  lemma FirstViolationStays(w: Workflow, log: seq<Event>, offers: seq<Offer>, k: nat)
    requires k <= |offers| && FirstViolation(RunAll(w, log, offers[..k]).rejected).Some?
    ensures FirstViolation(RunAll(w, log, offers).rejected) == FirstViolation(RunAll(w, log, offers[..k]).rejected)
  {
    hide RunAll, FirstViolation;
    assert offers == offers[..k] + offers[k..];
    RunSplits(w, log, offers[..k], offers[k..]);
    var first := RunAll(w, log, offers[..k]);
    FirstViolationConcat(first.rejected, RunAll(w, first.events, offers[k..]).rejected);
  }

  ghost function Outcome(w: Workflow, log: seq<Event>, offers: seq<Offer>, mode: AppendMode): BatchOutcome {
    var r := RunAll(w, log, offers);
    if mode.BestEffort? then Committed(r.accepted, r.rejected)
    else if FirstViolation(r.rejected).Some? then Failed(FirstViolation(r.rejected).value)
    else if r.rejected != [] then RolledBack(r.rejected)
    else Committed(r.accepted, r.rejected)
  }

  /** The log after the call: grown by the accepted events of a committed batch, else untouched. */
  function LogAfter(log: seq<Event>, o: BatchOutcome): seq<Event> {
    if o.Committed? then log + o.accepted else log
  }

  // ----- laws -----

  lemma {:induction false} RunAllGrows(w: Workflow, log: seq<Event>, offers: seq<Offer>)
    ensures RunAll(w, log, offers).events == log + RunAll(w, log, offers).accepted
    ensures |RunAll(w, log, offers).accepted| + |RunAll(w, log, offers).rejected| == |offers|
  {
    hide Objection;
    if offers != [] {
      RunAllGrows(w, log, offers[..|offers| - 1]);
    }
  }

  ghost function Then(first: Run, second: Run): Run {
    Run(second.events, first.accepted + second.accepted, first.rejected + second.rejected)
  }

  /** Appending a concatenation is appending its parts in turn. */
  lemma {:induction false} RunSplits(w: Workflow, log: seq<Event>, ps: seq<Offer>, qs: seq<Offer>)
    ensures RunAll(w, log, ps + qs) == Then(RunAll(w, log, ps), RunAll(w, RunAll(w, log, ps).events, qs))
  {
    hide Objection;
    if qs == [] {
      assert ps + qs == ps;
    } else {
      var n := |qs| - 1;
      assert (ps + qs)[..|ps + qs| - 1] == ps + qs[..n];
      RunSplits(w, log, ps, qs[..n]);
    }
  }

  /** A best-effort batch can be cut anywhere: same log, same reports end to end. */
  lemma BestEffortSplits(w: Workflow, log: seq<Event>, ps: seq<Offer>, qs: seq<Offer>)
    ensures
      var first := Outcome(w, log, ps, BestEffort);
      var middle := LogAfter(log, first);
      var second := Outcome(w, middle, qs, BestEffort);
      var whole := Outcome(w, log, ps + qs, BestEffort);
      && whole == Committed(first.accepted + second.accepted, first.rejected + second.rejected)
      && LogAfter(log, whole) == LogAfter(middle, second)
  {
    hide Objection;
    RunSplits(w, log, ps, qs);
    RunAllGrows(w, log, ps);
    var first := RunAll(w, log, ps);
    var second := RunAll(w, first.events, qs);
    assert log + (first.accepted + second.accepted) == (log + first.accepted) + second.accepted;
  }

  /** The proposals of `offers` whose mark equals `mark`, in order. */
  function Marked(offers: seq<Offer>, marks: seq<bool>, mark: bool): seq<Proposal>
    requires |marks| == |offers|
  {
    if offers == [] then []
    else
      var n := |offers| - 1;
      Marked(offers[..n], marks[..n], mark) + if marks[n] == mark then [offers[n].proposal] else []
  }

  function ProposalsOf(events: seq<Event>): seq<Proposal> {
    if events == [] then [] else ProposalsOf(events[..|events| - 1]) + [ProposalOf(events[|events| - 1])]
  }

  function ProposalsIn(rejected: seq<Rejection>): seq<Proposal> {
    if rejected == [] then [] else ProposalsIn(rejected[..|rejected| - 1]) + [rejected[|rejected| - 1].proposal]
  }

  /** Accepted and rejected split the input in two, each half in input order. */
  lemma {:induction false} ReportPartitions(w: Workflow, log: seq<Event>, offers: seq<Offer>) returns (marks: seq<bool>)
    ensures |marks| == |offers|
    ensures ProposalsOf(RunAll(w, log, offers).accepted) == Marked(offers, marks, true)
    ensures ProposalsIn(RunAll(w, log, offers).rejected) == Marked(offers, marks, false)
  {
    hide Objection;
    if offers == [] {
      marks := [];
    } else {
      var n := |offers| - 1;
      marks := ReportPartitions(w, log, offers[..n]);
      var r := RunAll(w, log, offers[..n]);
      var passes := Objection(w, r.events, offers[n].proposal).None?;
      marks := marks + [passes];
      assert marks[..n] == marks[..|marks| - 1];
      if passes {
        assert RunAll(w, log, offers).accepted[..|r.accepted|] == r.accepted;
      } else {
        assert RunAll(w, log, offers).rejected[..|r.rejected|] == r.rejected;
      }
    }
  }

  lemma {:induction false} NoViolationMeaning(rejected: seq<Rejection>)
    ensures FirstViolation(rejected).None? <==> forall i :: 0 <= i < |rejected| ==> rejected[i].reason.Duplicate?
  {
    if rejected != [] { NoViolationMeaning(rejected[..|rejected| - 1]); }
  }

  /** All-or-nothing commits exactly when every proposal passes in its turn; otherwise the log is untouched. */
  lemma AllOrNothingIsAllOrNothing(w: Workflow, log: seq<Event>, offers: seq<Offer>)
    ensures
      var o := Outcome(w, log, offers, AllOrNothing);
      && (o.Committed? ==> |o.accepted| == |offers| && o.rejected == [])
      && (o.Committed? <==>
            forall i :: 0 <= i < |offers| ==> Objection(w, RunAll(w, log, offers[..i]).events, offers[i].proposal).None?)
      && (!o.Committed? ==> LogAfter(log, o) == log)
      && (o.RolledBack? ==> forall i :: 0 <= i < |o.rejected| ==> o.rejected[i].reason.Duplicate?)
  {
    hide Objection;
    RunAllGrows(w, log, offers);
    NoViolationMeaning(RunAll(w, log, offers).rejected);
    RejectsNone(w, log, offers);
  }

  /** Offer `i` violates a rule with this error when its turn comes, and no offer before it violated any. */
  ghost predicate FirstToViolate(w: Workflow, log: seq<Event>, offers: seq<Offer>, i: int, error: PreconditionError) {
    && 0 <= i < |offers|
    && Objection(w, RunAll(w, log, offers[..i]).events, offers[i].proposal) == Some(Violates(error))
    && forall j :: 0 <= j < i ==> !ViolatesAt(w, log, offers, j)
  }

  ghost predicate ViolatesAt(w: Workflow, log: seq<Event>, offers: seq<Offer>, j: nat)
    requires j < |offers|
  {
    var o := Objection(w, RunAll(w, log, offers[..j]).events, offers[j].proposal);
    o.Some? && o.value.Violates?
  }

  lemma ViolatesBefore(w: Workflow, log: seq<Event>, offers: seq<Offer>, n: nat, j: nat)
    requires j < n <= |offers|
    ensures ViolatesAt(w, log, offers[..n], j) <==> ViolatesAt(w, log, offers, j)
  {
    assert offers[..n][..j] == offers[..j];
  }

  lemma FirstStaysFirst(w: Workflow, log: seq<Event>, offers: seq<Offer>, n: nat, i: int, error: PreconditionError)
    requires n <= |offers| && FirstToViolate(w, log, offers[..n], i, error)
    ensures FirstToViolate(w, log, offers, i, error)
  {
    hide ViolatesAt, Objection, RunAll;
    assert offers[..n][..i] == offers[..i];
    forall j | 0 <= j < i ensures !ViolatesAt(w, log, offers, j) { ViolatesBefore(w, log, offers, n, j); }
  }

  /** The first violation of a batch is that of all offers but the last, or else the last one's. */
  lemma NextViolation(w: Workflow, log: seq<Event>, offers: seq<Offer>)
    requires offers != []
    ensures
      var n := |offers| - 1;
      var before := FirstViolation(RunAll(w, log, offers[..n]).rejected);
      var o := Objection(w, RunAll(w, log, offers[..n]).events, offers[n].proposal);
      && (ViolatesAt(w, log, offers, n) <==> o.Some? && o.value.Violates?)
      && FirstViolation(RunAll(w, log, offers).rejected) ==
           if before.Some? then before else if ViolatesAt(w, log, offers, n) then Some(o.value.error) else None
  {
    hide Objection, FirstViolation, RunAll;
    var n := |offers| - 1;
    var r := RunAll(w, log, offers[..n]);
    var o := Objection(w, r.events, offers[n].proposal);
    RunAllNext(w, log, offers, n);
    assert offers[..n + 1] == offers;
    if o.Some? { FirstViolationNext(r.rejected, Rejection(offers[n].proposal, o.value)); }
  }

  lemma {:induction false} FirstViolationIs(w: Workflow, log: seq<Event>, offers: seq<Offer>)
    ensures
      var first := FirstViolation(RunAll(w, log, offers).rejected);
      if first.None? then forall j :: 0 <= j < |offers| ==> !ViolatesAt(w, log, offers, j)
      else exists i :: FirstToViolate(w, log, offers, i, first.value)
  {
    if offers == [] {
      RunAllEmpty(w, log, offers);
    } else {
      hide RunAll, FirstViolation, ViolatesAt, Objection;
      var n := |offers| - 1;
      FirstViolationIs(w, log, offers[..n]);
      NextViolation(w, log, offers);
      var before := FirstViolation(RunAll(w, log, offers[..n]).rejected);
      if before.Some? {
        hide FirstToViolate;
        var i :| FirstToViolate(w, log, offers[..n], i, before.value);
        FirstStaysFirst(w, log, offers, n, i, before.value);
      } else {
        forall j | 0 <= j < n ensures !ViolatesAt(w, log, offers, j) { ViolatesBefore(w, log, offers, n, j); }
        if ViolatesAt(w, log, offers, n) {
          var error := Objection(w, RunAll(w, log, offers[..n]).events, offers[n].proposal).value.error;
          assert FirstToViolate(w, log, offers, n, error);
        }
      }
    }
  }

  /** An all-or-nothing batch fails with exactly the error of the first offer that violates a rule. */
  lemma FailsWithTheFirst(w: Workflow, log: seq<Event>, offers: seq<Offer>, error: PreconditionError)
    ensures Outcome(w, log, offers, AllOrNothing) == Failed(error) <==> exists i :: FirstToViolate(w, log, offers, i, error)
  {
    hide Objection, RunAll, FirstViolation;
    FirstViolationIs(w, log, offers);
    var first := FirstViolation(RunAll(w, log, offers).rejected);
    if i :| FirstToViolate(w, log, offers, i, error) {
      assert ViolatesAt(w, log, offers, i);
      var j :| FirstToViolate(w, log, offers, j, first.value);
      assert ViolatesAt(w, log, offers, j);
    }
  }

  lemma {:induction false} RejectsNone(w: Workflow, log: seq<Event>, offers: seq<Offer>)
    ensures RunAll(w, log, offers).rejected == [] <==>
              forall i :: 0 <= i < |offers| ==> Objection(w, RunAll(w, log, offers[..i]).events, offers[i].proposal).None?
  {
    hide Objection;
    if offers != [] {
      var n := |offers| - 1;
      RejectsNone(w, log, offers[..n]);
      forall i | 0 <= i < n ensures offers[..n][..i] == offers[..i] && offers[..n][i] == offers[i] {}
      assert RunAll(w, log, offers).rejected == [] <==>
        RunAll(w, log, offers[..n]).rejected == [] && Objection(w, RunAll(w, log, offers[..n]).events, offers[n].proposal).None?;
      if RunAll(w, log, offers).rejected == [] {
        forall i | 0 <= i < |offers| ensures Objection(w, RunAll(w, log, offers[..i]).events, offers[i].proposal).None? {
          if i < n { assert Objection(w, RunAll(w, log, offers[..n][..i]).events, offers[..n][i].proposal).None?; }
        }
      }
    }
  }

  /** Once an event is in a log, its proposal is a duplicate in that log and in every extension of it. */
  lemma DuplicateForever(w: Workflow, log: seq<Event>, more: seq<Event>, e: Event, p: Proposal)
    requires e in log && FingerprintOfProposal(p) == FingerprintOf(e)
    ensures Objection(w, log + more, p) == Some(Duplicate)
  {
    assert e in log + more;
  }

  /** Every proposal of a best-effort batch ends up in the log or is reported as violating a precondition. */
  lemma {:induction false} BestEffortAccounts(w: Workflow, log: seq<Event>, offers: seq<Offer>, i: nat)
    requires i < |offers|
    ensures
      var r := RunAll(w, log, offers);
      var p := offers[i].proposal;
      || FingerprintOfProposal(p) in Fingerprints(r.events)
      || exists x :: x in r.rejected && x.proposal == p && x.reason.Violates?
  {
    var n := |offers| - 1;
    var before := RunAll(w, log, offers[..n]);
    var r := RunAll(w, log, offers);
    var p := offers[i].proposal;
    forall e | e in before.events ensures e in r.events {}
    if i < n {
      BestEffortAccounts(w, log, offers[..n], i);
      if x :| x in before.rejected && x.proposal == p && x.reason.Violates? { assert x in r.rejected; }
    } else if Objection(w, before.events, p).None? {
      var e := EventFor(offers[n], LastAt(before.events));
      assert e in r.events && FingerprintOf(e) == FingerprintOfProposal(p);
    } else {
      assert Rejection(p, Objection(w, before.events, p).value) in r.rejected;
    }
  }

  /** The fingerprint is that of two offers of the batch. */
  predicate RepeatedIn(offers: seq<Offer>, fp: Fingerprint) {
    exists i, j :: 0 <= i < j < |offers| && FingerprintOfProposal(offers[i].proposal) == fp && FingerprintOfProposal(offers[j].proposal) == fp
  }

  lemma RepeatedGrows(offers: seq<Offer>, n: nat, fp: Fingerprint)
    requires n <= |offers| && RepeatedIn(offers[..n], fp)
    ensures RepeatedIn(offers, fp)
  {
    var i, j :| 0 <= i < j < n && FingerprintOfProposal(offers[..n][i].proposal) == fp && FingerprintOfProposal(offers[..n][j].proposal) == fp;
    assert FingerprintOfProposal(offers[i].proposal) == fp && FingerprintOfProposal(offers[j].proposal) == fp;
  }

  /** What the working log holds beyond the log: events of offers of this batch. */
  lemma {:induction false} WorkingFingerprints(w: Workflow, log: seq<Event>, offers: seq<Offer>)
    ensures forall fp :: fp in Fingerprints(RunAll(w, log, offers).events) ==>
              fp in Fingerprints(log) || exists i :: 0 <= i < |offers| && FingerprintOfProposal(offers[i].proposal) == fp
  {
    hide Objection;
    if offers != [] {
      var n := |offers| - 1;
      WorkingFingerprints(w, log, offers[..n]);
      var r := RunAll(w, log, offers[..n]);
      var e := EventFor(offers[n], LastAt(r.events));
      IdsConcat(r.events, [e]);
      forall fp | fp in Fingerprints(RunAll(w, log, offers).events)
        ensures fp in Fingerprints(log) || exists i :: 0 <= i < |offers| && FingerprintOfProposal(offers[i].proposal) == fp
      {
        if fp in Fingerprints(r.events) {
          if i :| 0 <= i < n && FingerprintOfProposal(offers[..n][i].proposal) == fp { assert FingerprintOfProposal(offers[i].proposal) == fp; }
        } else {
          assert FingerprintOfProposal(offers[n].proposal) == fp;
        }
      }
    }
  }

  /** What a proposal reported as a duplicate tells: it was in the log before, or the batch names it twice. */
  lemma {:induction false} DuplicateReports(w: Workflow, log: seq<Event>, offers: seq<Offer>)
    ensures
      var r := RunAll(w, log, offers);
      forall y :: y in r.rejected && y.reason.Duplicate? ==>
        FingerprintOfProposal(y.proposal) in Fingerprints(log) || RepeatedIn(offers, FingerprintOfProposal(y.proposal))
  {
    if offers != [] {
      hide Admission, Fingerprints;
      var n := |offers| - 1;
      DuplicateReports(w, log, offers[..n]);
      WorkingFingerprints(w, log, offers[..n]);
      forall y | y in RunAll(w, log, offers).rejected && y.reason.Duplicate?
        ensures FingerprintOfProposal(y.proposal) in Fingerprints(log) || RepeatedIn(offers, FingerprintOfProposal(y.proposal))
      {
        var fp := FingerprintOfProposal(y.proposal);
        if y in RunAll(w, log, offers[..n]).rejected {
          if RepeatedIn(offers[..n], fp) { RepeatedGrows(offers, n, fp); }
        } else if fp !in Fingerprints(log) {
          var i :| 0 <= i < n && FingerprintOfProposal(offers[..n][i].proposal) == fp;
          assert FingerprintOfProposal(offers[i].proposal) == fp && FingerprintOfProposal(offers[n].proposal) == fp;
        }
      }
    }
  }

  /**
   So "duplicate" is not always the sign that a proposal is on record: an all-or-nothing batch naming an
   admissible proposal twice rolls back, reports it as a duplicate, and records nothing.
   */
  lemma RepeatRollsBack(w: Workflow, log: seq<Event>, a: Offer, b: Offer)
    requires Objection(w, log, a.proposal).None? && b.proposal == a.proposal
    ensures Outcome(w, log, [a, b], AllOrNothing) == RolledBack([Rejection(a.proposal, Duplicate)])
    ensures FingerprintOfProposal(a.proposal) !in Fingerprints(log)
  {
    hide Admission;
    var offers := [a, b];
    RunAllEmpty(w, log, offers);
    RunAllNext(w, log, offers, 0);
    RunAllNext(w, log, offers, 1);
    var e := EventFor(a, LastAt(log));
    assert e in log + [e];
    assert Objection(w, log + [e], b.proposal) == Some(Duplicate);
    assert [] + [Rejection(a.proposal, Duplicate)] == [Rejection(a.proposal, Duplicate)];
    FirstViolationNext([], Rejection(a.proposal, Duplicate));
  }

  /** The later of two equal proposals is turned down as a duplicate, unless something in the batch violates a rule. */
  lemma RepeatIsRejected(w: Workflow, log: seq<Event>, offers: seq<Offer>, i: nat, j: nat)
    requires i < j < |offers| && FingerprintOfProposal(offers[i].proposal) == FingerprintOfProposal(offers[j].proposal)
    requires FirstViolation(RunAll(w, log, offers).rejected).None?
    ensures Rejection(offers[j].proposal, Duplicate) in RunAll(w, log, offers).rejected
  {
    hide Admission, RunAll, Fingerprints;
    var before, after := RunAll(w, log, offers[..j]), RunAll(w, log, offers[..j + 1]);
    assert offers == offers[..j + 1] + offers[j + 1..];
    RunSplits(w, log, offers[..j + 1], offers[j + 1..]);
    RunAllNext(w, log, offers, j);
    NoViolationMeaning(RunAll(w, log, offers).rejected);
    assert forall k :: 0 <= k < |before.rejected| ==> before.rejected[k] == RunAll(w, log, offers).rejected[k];
    BestEffortAccounts(w, log, offers[..j], i);
    assert FingerprintOfProposal(offers[j].proposal) in Fingerprints(before.events);
    assert after.rejected[|before.rejected|] == Rejection(offers[j].proposal, Duplicate);
    assert RunAll(w, log, offers).rejected[|before.rejected|] == after.rejected[|before.rejected|];
  }

  /** A rolled-back batch reports as a duplicate what is not on record exactly when it names an unrecorded proposal twice. */
  lemma RollbackDuplicatesExactly(w: Workflow, log: seq<Event>, offers: seq<Offer>)
    requires Outcome(w, log, offers, AllOrNothing).RolledBack?
    ensures
      (exists y :: y in Outcome(w, log, offers, AllOrNothing).rejected && FingerprintOfProposal(y.proposal) !in Fingerprints(log)) <==>
      (exists fp :: RepeatedIn(offers, fp) && fp !in Fingerprints(log))
  {
    hide RunAll, Fingerprints;
    var rejected := RunAll(w, log, offers).rejected;
    NoViolationMeaning(rejected);
    DuplicateReports(w, log, offers);
    if fp :| RepeatedIn(offers, fp) && fp !in Fingerprints(log) {
      var i, j :| 0 <= i < j < |offers| && FingerprintOfProposal(offers[i].proposal) == fp && FingerprintOfProposal(offers[j].proposal) == fp;
      RepeatIsRejected(w, log, offers, i, j);
      var y := Rejection(offers[j].proposal, Duplicate);
      assert y in rejected && FingerprintOfProposal(y.proposal) !in Fingerprints(log);
    }
    if y :| y in rejected && FingerprintOfProposal(y.proposal) !in Fingerprints(log) {
      assert RepeatedIn(offers, FingerprintOfProposal(y.proposal));
    }
  }

  /** After a best-effort batch every proposal reported as a duplicate is on record. */
  lemma {:induction false} DuplicateIsRecorded(w: Workflow, log: seq<Event>, offers: seq<Offer>)
    ensures
      var r := RunAll(w, log, offers);
      forall y :: y in r.rejected && y.reason.Duplicate? ==> FingerprintOfProposal(y.proposal) in Fingerprints(r.events)
  {
    if offers != [] {
      hide Admission;
      var n := |offers| - 1;
      DuplicateIsRecorded(w, log, offers[..n]);
      var before := RunAll(w, log, offers[..n]);
      forall e | e in before.events ensures e in RunAll(w, log, offers).events {}
    }
  }

  /** Sending a batch again, when every proposal of it is already recorded, changes nothing. */
  lemma {:induction false} ReplayIsNoOp(w: Workflow, log: seq<Event>, offers: seq<Offer>)
    requires forall i :: 0 <= i < |offers| ==> FingerprintOfProposal(offers[i].proposal) in Fingerprints(log)
    ensures RunAll(w, log, offers).events == log && RunAll(w, log, offers).accepted == []
    ensures forall i :: 0 <= i < |RunAll(w, log, offers).rejected| ==> RunAll(w, log, offers).rejected[i].reason.Duplicate?
  {
    hide Admission, Fingerprints;
    if offers != [] {
      ReplayIsNoOp(w, log, offers[..|offers| - 1]);
    }
  }

  // ----- batches keep logs reachable -----

  /** Ids the generator has never handed out before, and hands out once. */
  ghost predicate FreshOffers(log: seq<Event>, offers: seq<Offer>) {
    && (forall i :: 0 <= i < |offers| ==> offers[i].id !in Ids(log))
    && (forall i, j :: 0 <= i < j < |offers| ==> offers[i].id != offers[j].id)
  }

  lemma IdsConcat(a: seq<Event>, b: seq<Event>)
    ensures Ids(a + b) == Ids(a) + Ids(b)
    ensures Fingerprints(a + b) == Fingerprints(a) + Fingerprints(b)
  {
    forall e | e in a || e in b ensures e in a + b {}
  }

  lemma {:induction false} AcceptedIds(w: Workflow, log: seq<Event>, offers: seq<Offer>)
    ensures forall e :: e in RunAll(w, log, offers).accepted ==> exists i :: 0 <= i < |offers| && offers[i].id == e.id
  {
    hide Objection;
    if offers != [] {
      var n := |offers| - 1;
      AcceptedIds(w, log, offers[..n]);
      forall e | e in RunAll(w, log, offers).accepted ensures exists i :: 0 <= i < |offers| && offers[i].id == e.id {
        if e in RunAll(w, log, offers[..n]).accepted {
          var i :| 0 <= i < n && offers[..n][i].id == e.id;
          assert offers[i].id == e.id;
        } else {
          assert offers[n].id == e.id;
        }
      }
    }
  }

  /** What passes without objection extends the log as the ledger demands. */
  lemma PassingExtends(w: Workflow, log: seq<Event>, o: Offer)
    requires Objection(w, log, o.proposal).None? && o.id !in Ids(log)
    ensures Extends(w, log, EventFor(o, LastAt(log)))
  {
    hide Admission;
    assert EventFor(o, LastAt(log)).at == Stamp(o.now, LastAt(log));
  }

  /** Any batch run from a reachable log with fresh ids ends in a reachable log. */
  lemma {:induction false} RunReachable(w: Workflow, log: seq<Event>, offers: seq<Offer>)
    requires Reachable(w, log) && FreshOffers(log, offers)
    ensures Reachable(w, RunAll(w, log, offers).events)
  {
    hide Objection, Extends;
    if offers != [] {
      var n := |offers| - 1;
      var r := RunAll(w, log, offers[..n]);
      RunReachable(w, log, offers[..n]);
      if Objection(w, r.events, offers[n].proposal).None? {
        RunAllGrows(w, log, offers[..n]);
        AcceptedIds(w, log, offers[..n]);
        IdsConcat(log, r.accepted);
        assert offers[n].id !in Ids(r.accepted);
        PassingExtends(w, r.events, offers[n]);
        var after := r.events + [EventFor(offers[n], LastAt(r.events))];
        assert after[..|after| - 1] == r.events;
      }
    }
  }

  lemma OutcomeReachable(w: Workflow, log: seq<Event>, offers: seq<Offer>, mode: AppendMode)
    requires Reachable(w, log) && FreshOffers(log, offers)
    ensures Reachable(w, LogAfter(log, Outcome(w, log, offers, mode)))
  {
    hide Objection;
    RunReachable(w, log, offers);
    RunAllGrows(w, log, offers);
  }
}
