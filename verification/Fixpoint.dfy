/**
 The promise of a reconcile loop: with unchanged scans and an unchanged version-control answer, a
 second pass accepts nothing, whatever the first accepted, rejected or gave up on.
 */
module Fixpoint {
  import opened Options
  import opened Events
  import opened Projections
  import opened Preconditions
  import opened Sorting
  import opened Ledger
  import opened Batch
  import opened Reconciler
  import opened Observers

  /** What does not change between passes. (A reconcile pass never cancels its observers.) */
  datatype Surroundings = Surroundings(scans: seq<Scan>, vcs: string -> VcsAnswer, ext: Extension, max: nat)

  function Artifacts(s: Surroundings, log: seq<Event>): ObserverResult {
    ArtifactRun(s.scans, EffectiveEvents(log), s.ext, s.max, |s.scans|)
  }

  function Promotions(s: Surroundings, log: seq<Event>): ObserverResult {
    PendingRun(PendingPairs(EffectiveEvents(log)), EffectiveEvents(log), s.vcs, s.ext, s.max, |PendingPairs(EffectiveEvents(log))|)
  }

  function Observed(s: Surroundings, log: seq<Event>): seq<Completion> {
    [Completion("artifact", Artifacts(s, log)), Completion("pending-commit", Promotions(s, log))]
  }

  /** Bodies these observers propose: they neither supersede nor change the status. */
  predicate Harmless(b: Body) { b.PhaseCompleted? || b.MilestoneVerified? }

  lemma {:induction false} HarmlessStatus(evs: seq<Event>, more: seq<Event>)
    requires forall e :: e in more ==> Harmless(e.body)
    ensures LastStatus(evs + more) == LastStatus(evs)
  {
    if more == [] {
      assert evs + more == evs;
    } else {
      var n := |more| - 1;
      assert more[n] in more && forall e :: e in more[..n] ==> e in more;
      HarmlessStatus(evs, more[..n]);
      assert (evs + more)[..|evs + more| - 1] == evs + more[..n];
    }
  }

  lemma HarmlessStep(w: Workflow, log: seq<Event>, e: Event)
    requires Reachable(w, log + [e]) && Harmless(e.body)
    ensures Reachable(w, log) && EffectiveEvents(log + [e]) == EffectiveEvents(log) + [e]
  {
    hide Reachable, Extends, EffectiveEvents;
    ReachablePrefix(w, log + [e], |log|);
    assert (log + [e])[..|log|] == log && (log + [e])[|log|] == e;
    EffectiveStep(w, log, e);
  }

  lemma {:induction false} HarmlessEffective(w: Workflow, log: seq<Event>, more: seq<Event>)
    requires Reachable(w, log + more) && forall e :: e in more ==> Harmless(e.body)
    ensures EffectiveEvents(log + more) == EffectiveEvents(log) + more
  {
    hide *;
    if more == [] {
      assert log + more == log;
    } else {
      var n := |more| - 1;
      assert log + more == (log + more[..n]) + [more[n]];
      assert more[n] in more && forall e :: e in more[..n] ==> e in more;
      HarmlessStep(w, log + more[..n], more[n]);
      HarmlessEffective(w, log, more[..n]);
      assert EffectiveEvents(log) + more == (EffectiveEvents(log) + more[..n]) + [more[n]];
    }
  }

  /** The rule for these bodies reads nothing but the effective events. */
  ghost predicate Welcome(w: Workflow, evs: seq<Event>, b: Body)
    requires Harmless(b)
  {
    && !(LastStatus(evs).Some? && w.isTerminal(LastStatus(evs).value))
    && if b.PhaseCompleted? then !CompletedIn(evs, b.phase) else PendingShipIn(evs, b.milestone.id, b.commit)
  }

  lemma HarmlessAdmission(w: Workflow, log: seq<Event>, b: Body)
    requires Harmless(b)
    ensures Admission(w, log, b).Admitted? <==> Welcome(w, EffectiveEvents(log), b)
  {}

  lemma WelcomeBefore(w: Workflow, evs: seq<Event>, more: seq<Event>, b: Body)
    requires Harmless(b) && Welcome(w, evs + more, b) && forall e :: e in more ==> Harmless(e.body)
    ensures Welcome(w, evs, b)
  {
    HarmlessStatus(evs, more);
    if b.PhaseCompleted? {
      forall e | e in evs ensures e in evs + more {}
    }
  }

  /** If the rules let such a proposal in later, they would have before; only its payload check may have changed its mind. */
  lemma AdmissibleBefore(w: Workflow, log: seq<Event>, more: seq<Event>, p: Proposal)
    requires Reachable(w, log + more) && forall e :: e in more ==> Harmless(e.body)
    requires Harmless(p.body) && Objection(w, log + more, p).None?
    ensures Objection(w, log, p).None? || w.checkExtension(p.extension, log).Some?
  {
    hide Reachable, Admission, EffectiveEvents, Welcome;
    HarmlessEffective(w, log, more);
    IdsConcat(log, more);
    HarmlessAdmission(w, log, p.body);
    HarmlessAdmission(w, log + more, p.body);
    WelcomeBefore(w, EffectiveEvents(log), more, p.body);
  }

  // ----- what a second pass can still propose -----

  lemma {:induction false} ArtifactMembers(scans: seq<Scan>, evs: seq<Event>, ext: Extension, max: nat, cancelAt: nat)
    ensures var r := ArtifactRun(scans, evs, ext, max, cancelAt);
            r.Proposed? ==> forall p :: p in r.ps <==> exists c :: c in scans && !Resolved(evs, c.phase) && p == CompletionFor(c, ext)
  {
    hide Resolved;
    if scans != [] {
      var n := |scans| - 1;
      assert scans == scans[..n] + [scans[n]];
      ArtifactMembers(scans[..n], evs, ext, max, cancelAt);
    }
  }

  lemma {:induction false} ArtifactSame(scans: seq<Scan>, evs: seq<Event>, later: seq<Event>, ext: Extension, max: nat, cancelAt: nat)
    requires forall p :: Resolved(evs, p) <==> Resolved(later, p)
    ensures ArtifactRun(scans, evs, ext, max, cancelAt) == ArtifactRun(scans, later, ext, max, cancelAt)
  {
    hide Resolved;
    if scans != [] { ArtifactSame(scans[..|scans| - 1], evs, later, ext, max, cancelAt); }
  }

  lemma {:induction false} PendingMembers(pairs: seq<Pair>, evs: seq<Event>, vcs: string -> VcsAnswer, ext: Extension, max: nat, cancelAt: nat)
    ensures var r := PendingRun(pairs, evs, vcs, ext, max, cancelAt);
            r.Proposed? ==> forall p :: p in r.ps <==> exists x :: x in pairs && Ripe(x, evs, vcs) && p == PromotionFor(x, ext)
  {
    hide VerifiedIn;
    if pairs != [] {
      var n := |pairs| - 1;
      assert pairs == pairs[..n] + [pairs[n]];
      PendingMembers(pairs[..n], evs, vcs, ext, max, cancelAt);
    }
  }

  lemma {:induction false} PendingSame(pairs: seq<Pair>, evs: seq<Event>, later: seq<Event>, vcs: string -> VcsAnswer, ext: Extension, max: nat, cancelAt: nat)
    requires forall m, c :: VerifiedIn(evs, m, c) <==> VerifiedIn(later, m, c)
    ensures PendingRun(pairs, evs, vcs, ext, max, cancelAt) == PendingRun(pairs, later, vcs, ext, max, cancelAt)
  {
    hide VerifiedIn;
    if pairs != [] { PendingSame(pairs[..|pairs| - 1], evs, later, vcs, ext, max, cancelAt); }
  }

  lemma PairsNext(evs: seq<Event>, e: Event)
    requires !e.body.MilestoneShipped?
    ensures PendingPairs(evs + [e]) == PendingPairs(evs)
  {
    assert (evs + [e])[..|evs|] == evs;
  }

  lemma {:induction false} PairsStay(evs: seq<Event>, more: seq<Event>)
    requires forall e :: e in more ==> Harmless(e.body)
    ensures PendingPairs(evs + more) == PendingPairs(evs)
  {
    hide PendingPairs;
    if more == [] {
      assert evs + more == evs;
    } else {
      var n := |more| - 1;
      assert more[n] in more && forall e :: e in more[..n] ==> e in more;
      PairsStay(evs, more[..n]);
      PairsNext(evs + more[..n], more[n]);
      assert evs + more == (evs + more[..n]) + [more[n]];
    }
  }

  /** `p` is among the proposals of `result`. */
  predicate Offers(result: ObserverResult, p: Proposal) { result.Proposed? && p in result.ps }

  /** Whatever the first pass recorded came from its own proposals. */
  ghost predicate RecordedFrom(more: seq<Event>, a: ObserverResult, b: ObserverResult) {
    forall e :: e in more ==> exists p :: (Offers(a, p) || Offers(b, p)) && p.body == e.body
  }

  lemma ArtifactKinds(s: Surroundings, log: seq<Event>, p: Proposal)
    requires Offers(Artifacts(s, log), p)
    ensures p.body.PhaseCompleted? && p.extension == s.ext
  {
    ArtifactMembers(s.scans, EffectiveEvents(log), s.ext, s.max, |s.scans|);
  }

  lemma PromotionKinds(s: Surroundings, log: seq<Event>, p: Proposal)
    requires Offers(Promotions(s, log), p)
    ensures p.body.MilestoneVerified? && p.extension == s.ext
  {
    PendingMembers(PendingPairs(EffectiveEvents(log)), EffectiveEvents(log), s.vcs, s.ext, s.max, |PendingPairs(EffectiveEvents(log))|);
  }

  /** The artifact observer's second proposals are among its first. */
  lemma ArtifactsShrink(s: Surroundings, log: seq<Event>, later: seq<Event>, more: seq<Event>, p: Proposal)
    requires EffectiveEvents(later) == EffectiveEvents(log) + more
    requires RecordedFrom(more, Artifacts(s, log), Promotions(s, log))
    requires Offers(Artifacts(s, later), p)
    ensures Offers(Artifacts(s, log), p)
  {
    hide EffectiveEvents;
    var evs := EffectiveEvents(log);
    ArtifactMembers(s.scans, evs, s.ext, s.max, |s.scans|);
    ArtifactMembers(s.scans, evs + more, s.ext, s.max, |s.scans|);
    forall x | Resolved(evs, x) ensures Resolved(evs + more, x) {
      var e :| e in evs && e.body.Resolves() && e.body.phase == x;
      assert e in evs + more;
    }
    assert Artifacts(s, later) == ArtifactRun(s.scans, evs + more, s.ext, s.max, |s.scans|);
    if Artifacts(s, log).Proposed? {
      var c :| c in s.scans && !Resolved(evs + more, c.phase) && p == CompletionFor(c, s.ext);
      assert !Resolved(evs, c.phase);
    } else {
      forall e | e in more ensures e.body.MilestoneVerified? {
        var q :| Offers(Promotions(s, log), q) && q.body == e.body;
        PromotionKinds(s, log, q);
      }
      ArtifactSame(s.scans, evs, evs + more, s.ext, s.max, |s.scans|);
    }
  }

  /** The pending-commit observer's second proposals are among its first. */
  lemma PromotionsShrink(s: Surroundings, log: seq<Event>, later: seq<Event>, more: seq<Event>, p: Proposal)
    requires EffectiveEvents(later) == EffectiveEvents(log) + more && forall e :: e in more ==> Harmless(e.body)
    requires RecordedFrom(more, Artifacts(s, log), Promotions(s, log))
    requires Offers(Promotions(s, later), p)
    ensures Offers(Promotions(s, log), p)
  {
    hide EffectiveEvents, PendingPairs;
    var evs := EffectiveEvents(log);
    var pairs := PendingPairs(evs);
    PairsStay(evs, more);
    PendingMembers(pairs, evs, s.vcs, s.ext, s.max, |pairs|);
    PendingMembers(pairs, evs + more, s.vcs, s.ext, s.max, |pairs|);
    forall m, c | VerifiedIn(evs, m, c) ensures VerifiedIn(evs + more, m, c) {
      var e :| e in evs && Promotes(e, m, c);
      assert e in evs + more;
    }
    if !Promotions(s, log).Proposed? {
      forall e | e in more ensures e.body.PhaseCompleted? {
        var q :| Offers(Artifacts(s, log), q) && q.body == e.body;
        ArtifactKinds(s, log, q);
      }
      PendingSame(pairs, evs, evs + more, s.vcs, s.ext, s.max, |pairs|);
    }
  }

  // ----- what the first pass already judged -----

  /** Every accepted event carries the body of one of the offers. */
  lemma {:induction false} AcceptedBodies(w: Workflow, log: seq<Event>, offers: seq<Offer>)
    ensures forall e :: e in RunAll(w, log, offers).accepted ==>
              exists i :: 0 <= i < |offers| && offers[i].proposal.body == e.body
  {
    hide Objection;
    if offers != [] {
      var n := |offers| - 1;
      AcceptedBodies(w, log, offers[..n]);
      forall e | e in RunAll(w, log, offers).accepted ensures exists i :: 0 <= i < |offers| && offers[i].proposal.body == e.body {
        if e in RunAll(w, log, offers[..n]).accepted {
          var i :| 0 <= i < n && offers[..n][i].proposal.body == e.body;
          assert offers[i].proposal.body == e.body;
        } else {
          assert offers[n].proposal.body == e.body;
        }
      }
    }
  }

  ghost predicate HarmlessOffers(offers: seq<Offer>, ext: Extension) {
    forall i :: 0 <= i < |offers| ==> Harmless(offers[i].proposal.body) && offers[i].proposal.extension == ext
  }

  /** A log on which the shared payload is refused refuses the whole batch. */
  lemma PayloadBlocks(w: Workflow, log: seq<Event>, offers: seq<Offer>, ext: Extension)
    requires HarmlessOffers(offers, ext) && w.checkExtension(ext, log).Some?
    ensures RunAll(w, log, offers).events == log
  {
    hide Admission, RunAll;
    AllRefused(w, log, offers);
  }

  /**
   After a batch of harmless offers with one payload, each of them would be refused: recorded, as
   inadmissible as it was, or stopped by a payload check that, once it refuses, lets the log grow no more.
   */
  lemma JudgedOnce(w: Workflow, log: seq<Event>, offers: seq<Offer>, ext: Extension, i: nat)
    requires Reachable(w, log) && FreshOffers(log, offers) && HarmlessOffers(offers, ext) && i < |offers|
    ensures Objection(w, RunAll(w, log, offers).events, offers[i].proposal).Some?
  {
    hide Reachable, Admission, RunAll;
    var p := offers[i].proposal;
    var before := RunAll(w, log, offers[..i]);
    var rest := RunAll(w, before.events, offers[i..]);
    assert offers == offers[..i] + offers[i..];
    RunSplits(w, log, offers[..i], offers[i..]);
    if w.checkExtension(ext, before.events).Some? {
      PayloadBlocks(w, before.events, offers[i..], ext);
    } else if Objection(w, before.events, p).None? {
      FirstStands(w, before.events, offers[i..]);
    } else {
      RunAllGrows(w, before.events, offers[i..]);
      RunReachable(w, log, offers);
      AcceptedBodies(w, before.events, offers[i..]);
      forall e | e in rest.accepted ensures Harmless(e.body) {
        var k :| 0 <= k < |offers[i..]| && offers[i..][k].proposal.body == e.body;
        assert offers[i + k].proposal.body == e.body;
      }
      if Objection(w, before.events + rest.accepted, p).None? { AdmissibleBefore(w, before.events, rest.accepted, p); }
    }
  }

  lemma FirstStands(w: Workflow, log: seq<Event>, offers: seq<Offer>)
    requires offers != [] && Objection(w, log, offers[0].proposal).None?
    ensures Objection(w, RunAll(w, log, offers).events, offers[0].proposal) == Some(Duplicate)
  {
    hide Admission;
    assert offers == offers[..1] + offers[1..];
    RunSplits(w, log, offers[..1], offers[1..]);
    RunAllEmpty(w, log, offers);
    RunAllNext(w, log, offers, 0);
    var first := RunAll(w, log, offers[..1]);
    RunAllGrows(w, first.events, offers[1..]);
    var e := EventFor(offers[0], LastAt(log));
    assert e in first.events;
    DuplicateForever(w, first.events, RunAll(w, first.events, offers[1..]).accepted, e, offers[0].proposal);
  }

  /** A batch every member of which is refused by the log itself leaves the log alone. */
  lemma {:induction false} AllRefused(w: Workflow, log: seq<Event>, offers: seq<Offer>)
    requires forall i :: 0 <= i < |offers| ==> Objection(w, log, offers[i].proposal).Some?
    ensures RunAll(w, log, offers).events == log && RunAll(w, log, offers).accepted == []
  {
    hide Objection;
    if offers != [] { AllRefused(w, log, offers[..|offers| - 1]); }
  }

  // ----- the theorem -----

  /** What a pass submits, whatever order its two observers finish in. */
  lemma BatchMembers(s: Surroundings, log: seq<Event>, cs: seq<Completion>)
    requires multiset(cs) == multiset(Observed(s, log))
    ensures forall t :: t in SortedBatch(cs) ==> Offers(Artifacts(s, log), t.p) || Offers(Promotions(s, log), t.p)
  {
    SortMembers(Collect(cs), TaggedLe);
    CollectMembers(cs);
    forall c | c in cs ensures c in Observed(s, log) { assert c in multiset(cs); }
  }

  lemma BatchKinds(s: Surroundings, log: seq<Event>, cs: seq<Completion>, tickets: seq<Ticket>)
    requires multiset(cs) == multiset(Observed(s, log)) && |tickets| == |SortedBatch(cs)|
    ensures var offers := OffersFor(SortedBatch(cs), tickets);
            forall i :: 0 <= i < |offers| ==> Harmless(offers[i].proposal.body) && offers[i].proposal.extension == s.ext
  {
    hide Artifacts, Promotions, SortedBatch, Observed;
    BatchMembers(s, log, cs);
    var offers := OffersFor(SortedBatch(cs), tickets);
    forall i | 0 <= i < |offers| ensures Harmless(offers[i].proposal.body) && offers[i].proposal.extension == s.ext {
      var t := SortedBatch(cs)[i];
      assert t in SortedBatch(cs);
      if Offers(Artifacts(s, log), t.p) { ArtifactKinds(s, log, t.p); } else { PromotionKinds(s, log, t.p); }
    }
  }

  lemma SecondSubset(w: Workflow, s: Surroundings, log: seq<Event>, later: seq<Event>, more: seq<Event>, p: Proposal)
    requires EffectiveEvents(later) == EffectiveEvents(log) + more && forall e :: e in more ==> Harmless(e.body)
    requires RecordedFrom(more, Artifacts(s, log), Promotions(s, log))
    requires Offers(Artifacts(s, later), p) || Offers(Promotions(s, later), p)
    ensures Offers(Artifacts(s, log), p) || Offers(Promotions(s, log), p)
  {
    hide *;
    if Offers(Artifacts(s, later), p) { ArtifactsShrink(s, log, later, more, p); } else { PromotionsShrink(s, log, later, more, p); }
  }

  /** Conversely, every proposal of the observers is in the batch. */
  lemma BatchCovers(s: Surroundings, log: seq<Event>, cs: seq<Completion>, p: Proposal) returns (i: nat)
    requires multiset(cs) == multiset(Observed(s, log))
    requires Offers(Artifacts(s, log), p) || Offers(Promotions(s, log), p)
    ensures i < |SortedBatch(cs)| && SortedBatch(cs)[i].p == p
  {
    SortMembers(Collect(cs), TaggedLe);
    CollectMembers(cs);
    var c := Observed(s, log)[if Offers(Artifacts(s, log), p) then 0 else 1];
    assert c in multiset(Observed(s, log));
    assert c in cs;
    assert Tagged(c.name, p) in SortedBatch(cs);
    i :| 0 <= i < |SortedBatch(cs)| && SortedBatch(cs)[i] == Tagged(c.name, p);
  }

  lemma BatchRecords(w: Workflow, s: Surroundings, log: seq<Event>, cs: seq<Completion>, tickets: seq<Ticket>)
    requires multiset(cs) == multiset(Observed(s, log)) && |tickets| == |SortedBatch(cs)|
    ensures RecordedFrom(RunAll(w, log, OffersFor(SortedBatch(cs), tickets)).accepted, Artifacts(s, log), Promotions(s, log))
  {
    hide Artifacts, Promotions, SortedBatch, Observed, RunAll;
    var offers := OffersFor(SortedBatch(cs), tickets);
    AcceptedBodies(w, log, offers);
    BatchMembers(s, log, cs);
    forall e | e in RunAll(w, log, offers).accepted
      ensures exists p :: (Offers(Artifacts(s, log), p) || Offers(Promotions(s, log), p)) && p.body == e.body
    {
      var i :| 0 <= i < |offers| && offers[i].proposal.body == e.body;
      assert SortedBatch(cs)[i] in SortedBatch(cs);
    }
  }

  /** After a first pass that ran to its end, whatever a second pass submits is refused. */
  lemma SecondBatchRefused(
      w: Workflow, s: Surroundings, log: seq<Event>, cs1: seq<Completion>, t1: seq<Ticket>, cs2: seq<Completion>, t2: seq<Ticket>)
    requires Reachable(w, log)
    requires multiset(cs1) == multiset(Observed(s, log)) && |t1| == |SortedBatch(cs1)|
    requires FreshOffers(log, OffersFor(SortedBatch(cs1), t1))
    requires var later := RunAll(w, log, OffersFor(SortedBatch(cs1), t1)).events;
             multiset(cs2) == multiset(Observed(s, later)) && |t2| == |SortedBatch(cs2)|
    ensures var later := RunAll(w, log, OffersFor(SortedBatch(cs1), t1)).events;
            RunAll(w, later, OffersFor(SortedBatch(cs2), t2)).accepted == []
  {
    hide Artifacts, Promotions, SortedBatch, Observed, RunAll, Reachable, Objection, FreshOffers;
    var offers1, offers2 := OffersFor(SortedBatch(cs1), t1), OffersFor(SortedBatch(cs2), t2);
    var r := RunAll(w, log, offers1);
    BatchKinds(s, log, cs1, t1);
    BatchRecords(w, s, log, cs1, t1);
    RunAllGrows(w, log, offers1);
    RunReachable(w, log, offers1);
    AcceptedBodies(w, log, offers1);
    HarmlessEffective(w, log, r.accepted);
    BatchMembers(s, r.events, cs2);
    forall i | 0 <= i < |offers2| ensures Objection(w, r.events, offers2[i].proposal).Some? {
      var t := SortedBatch(cs2)[i];
      assert t in SortedBatch(cs2);
      SecondSubset(w, s, log, r.events, r.accepted, t.p);
      var k := BatchCovers(s, log, cs1, t.p);
      JudgedOnce(w, log, offers1, s.ext, k);
    }
    AllRefused(w, r.events, offers2);
  }

  // ----- a batch that failed fails again -----

  /** Equal up to ids, stamps and attribution. */
  predicate SameContent(a: seq<Event>, b: seq<Event>) {
    |a| == |b| && forall i :: 0 <= i < |a| ==> FingerprintOf(a[i]) == FingerprintOf(b[i])
  }

  /** A payload check that does not look at ids, stamps and attribution of recent events. */
  ghost predicate SteadyCheck(w: Workflow, ext: Extension) {
    forall log, a, b :: SameContent(a, b) ==> w.checkExtension(ext, log + a).Some? == w.checkExtension(ext, log + b).Some?
  }

  lemma SameContentMembers(a: seq<Event>, b: seq<Event>, e: Event)
    requires SameContent(a, b) && e in a
    ensures exists f :: f in b && f.body == e.body && FingerprintOf(f) == FingerprintOf(e)
  {
    var i :| 0 <= i < |a| && a[i] == e;
    assert b[i] in b && FingerprintOf(a[i]) == FingerprintOf(b[i]);
  }

  lemma FingerprintsAlike(a: seq<Event>, b: seq<Event>)
    requires SameContent(a, b)
    ensures Fingerprints(a) <= Fingerprints(b)
  {
    forall e | e in a ensures FingerprintOf(e) in Fingerprints(b) { SameContentMembers(a, b, e); }
  }

  lemma Mirrored(a: seq<Event>, b: seq<Event>)
    requires SameContent(a, b)
    ensures SameContent(b, a)
  {}

  lemma WelcomeAlike(w: Workflow, evs: seq<Event>, a: seq<Event>, b: seq<Event>, body: Body)
    requires Harmless(body) && Welcome(w, evs + a, body) && SameContent(a, b)
    requires forall e :: e in a || e in b ==> Harmless(e.body)
    ensures Welcome(w, evs + b, body)
  {
    HarmlessStatus(evs, a);
    HarmlessStatus(evs, b);
    if body.PhaseCompleted? {
      forall x | x in evs + b ensures !(x.body.PhaseCompleted? && x.body.phase == body.phase) {
        if x in b { SameContentMembers(b, a, x); }
      }
    } else {
      var x :| x in evs + a && x.body.MilestoneShipped? && x.body.milestone.id == body.milestone.id
        && x.body.commit == body.commit && x.body.status.Pending?;
      assert x in evs + b;
    }
  }

  lemma StampsDoNotAdmit(w: Workflow, log: seq<Event>, a: seq<Event>, b: seq<Event>, p: Proposal)
    requires Reachable(w, log + a) && Reachable(w, log + b) && SameContent(a, b)
    requires forall e :: e in a || e in b ==> Harmless(e.body)
    requires Harmless(p.body) && SteadyCheck(w, p.extension) && Objection(w, log + a, p).None?
    ensures Objection(w, log + b, p).None?
  {
    hide Reachable, Admission, EffectiveEvents, Welcome, Fingerprints, Ids, SameContent;
    HarmlessEffective(w, log, a);
    HarmlessEffective(w, log, b);
    HarmlessAdmission(w, log + a, p.body);
    HarmlessAdmission(w, log + b, p.body);
    WelcomeAlike(w, EffectiveEvents(log), a, b, p.body);
    IdsConcat(log, a);
    IdsConcat(log, b);
    Mirrored(a, b);
    FingerprintsAlike(b, a);
  }

  ghost predicate Steady(w: Workflow, offers: seq<Offer>) {
    forall i :: 0 <= i < |offers| ==> Harmless(offers[i].proposal.body) && SteadyCheck(w, offers[i].proposal.extension)
  }

  ghost predicate SameProposals(a: seq<Offer>, b: seq<Offer>) {
    |a| == |b| && forall i :: 0 <= i < |a| ==> a[i].proposal == b[i].proposal
  }

  lemma SteadyAccepted(w: Workflow, log: seq<Event>, offers: seq<Offer>)
    requires Reachable(w, log) && FreshOffers(log, offers) && Steady(w, offers)
    ensures var r := RunAll(w, log, offers);
            r.events == log + r.accepted && Reachable(w, log + r.accepted) && forall e :: e in r.accepted ==> Harmless(e.body)
  {
    hide Reachable, RunAll, SteadyCheck;
    RunReachable(w, log, offers);
    RunAllGrows(w, log, offers);
    AcceptedBodies(w, log, offers);
  }

  /** The same harmless proposals under other ids and clock readings get the same verdicts. */
  lemma {:induction false} SameVerdicts(w: Workflow, log: seq<Event>, a: seq<Offer>, b: seq<Offer>)
    requires Reachable(w, log) && FreshOffers(log, a) && FreshOffers(log, b) && SameProposals(a, b) && Steady(w, a)
    ensures var r, s := RunAll(w, log, a), RunAll(w, log, b);
            SameContent(r.accepted, s.accepted) && |r.rejected| == |s.rejected|
  {
    hide Reachable, Objection, SteadyCheck, Harmless;
    if a != [] {
      var n := |a| - 1;
      var r, s, p := RunAll(w, log, a[..n]), RunAll(w, log, b[..n]), a[n].proposal;
      SameVerdicts(w, log, a[..n], b[..n]);
      assert Steady(w, b[..n]) by {
        forall i | 0 <= i < n ensures b[i].proposal == a[i].proposal {}
      }
      SteadyAccepted(w, log, a[..n]);
      SteadyAccepted(w, log, b[..n]);
      assert Harmless(p.body) && SteadyCheck(w, p.extension);
      if Objection(w, r.events, p).None? { StampsDoNotAdmit(w, log, r.accepted, s.accepted, p); }
      if Objection(w, s.events, p).None? { StampsDoNotAdmit(w, log, s.accepted, r.accepted, p); }
    }
  }

  lemma FailsAgain(w: Workflow, log: seq<Event>, a: seq<Offer>, b: seq<Offer>)
    requires Reachable(w, log) && FreshOffers(log, a) && FreshOffers(log, b) && SameProposals(a, b) && Steady(w, a)
    ensures Outcome(w, log, a, AllOrNothing).Committed? <==> Outcome(w, log, b, AllOrNothing).Committed?
  {
    hide Reachable, RunAll, SteadyCheck, Harmless;
    SameVerdicts(w, log, a, b);
  }

  /** `cs` is some completion order of the observers looking at `log`, and `tickets` stamp the batch with fresh ids. */
  ghost predicate IsPass(s: Surroundings, log: seq<Event>, cs: seq<Completion>, tickets: seq<Ticket>) {
    && multiset(cs) == multiset(Observed(s, log))
    && |tickets| == |SortedBatch(cs)|
    && FreshOffers(log, OffersFor(SortedBatch(cs), tickets))
  }

  ghost function PassOutcome(w: Workflow, mode: AppendMode, log: seq<Event>, cs: seq<Completion>, tickets: seq<Ticket>): BatchOutcome
    requires |tickets| == |SortedBatch(cs)|
  {
    Outcome(w, log, OffersFor(SortedBatch(cs), tickets), mode)
  }

  /**
   A second pass over an unchanged world records nothing, in either append mode and whatever order
   the observers finish in. The payload check may refuse as it likes; only under all-or-nothing must it
   not depend on ids, stamps or attribution, or a failed batch could pass under new ones.
   */
  lemma SecondPassAcceptsNothing(
      w: Workflow, s: Surroundings, mode: AppendMode, log: seq<Event>, cs1: seq<Completion>, t1: seq<Ticket>,
      later: seq<Event>, cs2: seq<Completion>, t2: seq<Ticket>)
    requires Reachable(w, log) && (mode.AllOrNothing? ==> SteadyCheck(w, s.ext))
    requires IsPass(s, log, cs1, t1) && later == LogAfter(log, PassOutcome(w, mode, log, cs1, t1))
    requires IsPass(s, later, cs2, t2)
    ensures var second := PassOutcome(w, mode, later, cs2, t2);
            LogAfter(later, second) == later && (second.Committed? ==> second.accepted == [])
  {
    hide Reachable, RunAll, SteadyCheck, Harmless, SortedBatch, Observed, FirstViolation, FreshOffers;
    var offers1, offers2 := OffersFor(SortedBatch(cs1), t1), OffersFor(SortedBatch(cs2), t2);
    if PassOutcome(w, mode, log, cs1, t1).Committed? {
      RunAllGrows(w, log, offers1);
      SecondBatchRefused(w, s, log, cs1, t1, cs2, t2);
    } else {
      ObservedDistinct(s, log);
      DistinctPermutes(Observed(s, log), cs1);
      DistinctPermutes(Observed(s, log), cs2);
      OrderIrrelevant(cs1, cs2);
      BatchKinds(s, log, cs1, t1);
      FailsAgain(w, log, offers1, offers2);
    }
  }

  lemma ObservedDistinct(s: Surroundings, log: seq<Event>)
    ensures DistinctNames(Observed(s, log))
  {
    assert "artifact"[0] != "pending-commit"[0];
  }
}
