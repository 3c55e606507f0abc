/** The two log-driven observers: what they propose for a log, and the scans that compute it. */
module Observers {
  import opened Options
  import opened Events
  import opened Projections
  import opened Sorting
  import opened Reconciler

  /** A phase whose artifacts are present, with the paths found. */
  datatype Scan = Scan(phase: Phase, artifacts: seq<string>)

  datatype VcsAnswer = Status(status: CommitStatus) | VcsError

  function By(name: string): Causation { Causation("observer", None, None, name) }

  /** After each push: at the budget, the observer gives up and proposes nothing. */
  function Pushed(out: seq<Proposal>, p: Proposal, max: nat): ObserverResult {
    if |out| + 1 >= max then ObserverError("budget exceeded") else Proposed(out + [p])
  }

  // Both observers look at the cancellation token before each item; `cancelAt` is the first item at which it is set.

  // ----- artifact observer -----

  function CompletionFor(scan: Scan, ext: Extension): Proposal {
    Proposal(By("artifact"), ext, PhaseCompleted(scan.phase, scan.artifacts), None)
  }

  function ArtifactRun(scans: seq<Scan>, evs: seq<Event>, ext: Extension, max: nat, cancelAt: nat): ObserverResult {
    if scans == [] then Proposed([])
    else
      var n := |scans| - 1;
      match ArtifactRun(scans[..n], evs, ext, max, cancelAt)
      case Proposed(out) =>
        if n >= cancelAt then ObserverError("cancelled")
        else if Resolved(evs, scans[n].phase) then Proposed(out) else Pushed(out, CompletionFor(scans[n], ext), max)
      case failed => failed
  }

  method ObserveArtifacts(scans: seq<Scan>, log: seq<Event>, ext: Extension, max: nat, cancelAt: nat) returns (result: ObserverResult)
    ensures result == ArtifactRun(scans, EffectiveEvents(log), ext, max, cancelAt)
  {
    var evs := EffectiveEvents(log);
    var already: seq<Phase> := [];
    for i := 0 to |evs|
      invariant forall p :: p in already <==> Resolved(evs[..i], p)
    {
      ResolvedNext(evs, i);
      if evs[i].body.Resolves() { already := already + [evs[i].body.phase]; }
    }
    assert evs[..|evs|] == evs;
    var out: seq<Proposal> := [];
    for i := 0 to |scans|
      invariant ArtifactRun(scans[..i], evs, ext, max, cancelAt) == Proposed(out)
    {
      assert scans[..i + 1][..i] == scans[..i];
      if i >= cancelAt {
        ArtifactFails(scans, evs, ext, max, cancelAt, i + 1);
        return ObserverError("cancelled");
      }
      if scans[i].phase in already { continue; }
      out := out + [CompletionFor(scans[i], ext)];
      if |out| >= max {
        ArtifactFails(scans, evs, ext, max, cancelAt, i + 1);
        return ObserverError("budget exceeded");
      }
    }
    assert scans[..|scans|] == scans;
    return Proposed(out);
  }

  lemma ResolvedNext(evs: seq<Event>, i: nat)
    requires i < |evs|
    ensures forall p :: Resolved(evs[..i + 1], p) <==> Resolved(evs[..i], p) || (evs[i].body.Resolves() && evs[i].body.phase == p)
  {
    assert evs[..i + 1] == evs[..i] + [evs[i]];
    forall p ensures Resolved(evs[..i + 1], p) <==> Resolved(evs[..i], p) || (evs[i].body.Resolves() && evs[i].body.phase == p) {
      if e :| e in evs[..i] && e.body.Resolves() && e.body.phase == p { assert e in evs[..i + 1]; }
      assert evs[i] in evs[..i + 1];
    }
  }

  lemma {:induction false} ArtifactFails(scans: seq<Scan>, evs: seq<Event>, ext: Extension, max: nat, cancelAt: nat, k: nat)
    requires k <= |scans| && !ArtifactRun(scans[..k], evs, ext, max, cancelAt).Proposed?
    ensures ArtifactRun(scans, evs, ext, max, cancelAt) == ArtifactRun(scans[..k], evs, ext, max, cancelAt)
  {
    if k == |scans| {
      assert scans[..k] == scans;
    } else {
      assert scans[..|scans| - 1][..k] == scans[..k];
      ArtifactFails(scans[..|scans| - 1], evs, ext, max, cancelAt, k);
    }
  }

  function OpenScans(scans: seq<Scan>, evs: seq<Event>): nat {
    if scans == [] then 0
    else OpenScans(scans[..|scans| - 1], evs) + if Resolved(evs, scans[|scans| - 1].phase) then 0 else 1
  }

  /** A budget of `max` is not reached. */
  predicate Fits(scans: seq<Scan>, evs: seq<Event>, max: nat) { OpenScans(scans, evs) == 0 || OpenScans(scans, evs) < max }

  /**
   Reaching the budget is already too many: the observer answers exactly while fewer phases than that
   are open and it is not cancelled. It reports whichever it meets first, the token or the budget.
   */
  lemma {:induction false} ArtifactBudget(scans: seq<Scan>, evs: seq<Event>, ext: Extension, max: nat, cancelAt: nat)
    ensures
      var result := ArtifactRun(scans, evs, ext, max, cancelAt);
      && (result.Proposed? <==> |scans| <= cancelAt && Fits(scans, evs, max))
      && (result.Proposed? ==> |result.ps| == OpenScans(scans, evs))
      && (result == ObserverError("cancelled") <==> cancelAt < |scans| && Fits(scans[..cancelAt], evs, max))
      && (result.Proposed? || result == ObserverError("cancelled") || result == ObserverError("budget exceeded"))
  {
    hide Resolved;
    if scans != [] {
      var n := |scans| - 1;
      ArtifactBudget(scans[..n], evs, ext, max, cancelAt);
      if cancelAt <= n { assert scans[..n][..cancelAt] == scans[..cancelAt]; }
    }
  }

  predicate OpenAt(scans: seq<Scan>, evs: seq<Event>, i: nat) { i < |scans| && !Resolved(evs, scans[i].phase) }

  /** The proposals complete the open phases among the scans, one each, in the order of the scans. */
  ghost predicate CompletesOpen(scans: seq<Scan>, evs: seq<Event>, ext: Extension, ps: seq<Proposal>, at: seq<nat>) {
    && |at| == |ps| && Ascending(at)
    && (forall i: nat :: i in at <==> OpenAt(scans, evs, i))
    && forall q :: 0 <= q < |at| && at[q] < |scans| ==>
         && ps[q].body == PhaseCompleted(scans[at[q]].phase, scans[at[q]].artifacts)
         && ps[q].causation == Causation("observer", None, None, "artifact")
         && ps[q].extension == ext && ps[q].supersedes.None?
  }

  lemma CompletesNext(scans: seq<Scan>, evs: seq<Event>, ext: Extension, ps: seq<Proposal>, at: seq<nat>, scan: Scan)
    requires CompletesOpen(scans, evs, ext, ps, at)
    ensures Resolved(evs, scan.phase) ==> CompletesOpen(scans + [scan], evs, ext, ps, at)
    ensures !Resolved(evs, scan.phase) ==> CompletesOpen(scans + [scan], evs, ext, ps + [CompletionFor(scan, ext)], at + [|scans|])
  {
    hide Resolved;
    forall i: nat | i < |scans| ensures OpenAt(scans + [scan], evs, i) <==> OpenAt(scans, evs, i) {}
    forall q | 0 <= q < |at| ensures at[q] < |scans| {
      assert at[q] in at;
      assert OpenAt(scans, evs, at[q]);
    }
  }

  lemma NoScans(evs: seq<Event>, ext: Extension)
    ensures CompletesOpen([], evs, ext, [], [])
  {}

  lemma CompletionsNext(scans: seq<Scan>, evs: seq<Event>, ext: Extension, max: nat, cancelAt: nat)
    requires scans != [] && ArtifactRun(scans, evs, ext, max, cancelAt).Proposed?
    ensures
      var n := |scans| - 1;
      var before, after := ArtifactRun(scans[..n], evs, ext, max, cancelAt), ArtifactRun(scans, evs, ext, max, cancelAt);
      && before.Proposed?
      && after.ps == if Resolved(evs, scans[n].phase) then before.ps else before.ps + [CompletionFor(scans[n], ext)]
  {
    hide Resolved, CompletionFor;
  }

  /** What an answering artifact observer proposes. */
  lemma {:induction false} ArtifactsAre(scans: seq<Scan>, evs: seq<Event>, ext: Extension, max: nat, cancelAt: nat) returns (at: seq<nat>)
    requires ArtifactRun(scans, evs, ext, max, cancelAt).Proposed?
    ensures CompletesOpen(scans, evs, ext, ArtifactRun(scans, evs, ext, max, cancelAt).ps, at)
  {
    hide Resolved, CompletesOpen, CompletionFor;
    if scans == [] {
      at := [];
      NoScans(evs, ext);
    } else {
      hide ArtifactRun;
      var n := |scans| - 1;
      CompletionsNext(scans, evs, ext, max, cancelAt);
      at := ArtifactsAre(scans[..n], evs, ext, max, cancelAt);
      CompletesNext(scans[..n], evs, ext, ArtifactRun(scans[..n], evs, ext, max, cancelAt).ps, at, scans[n]);
      assert scans == scans[..n] + [scans[n]];
      if !Resolved(evs, scans[n].phase) { at := at + [n]; }
    }
  }

  // ----- pending-commit observer -----

  datatype Pair = Pair(milestone: Milestone, commit: string)

  /** Pending ships among the effective events, in log order. */
  function PendingPairs(evs: seq<Event>): seq<Pair> {
    if evs == [] then []
    else
      var n := |evs| - 1;
      var b := evs[n].body;
      PendingPairs(evs[..n]) + if b.MilestoneShipped? && b.status.Pending? then [Pair(b.milestone, b.commit)] else []
  }

  predicate VerifiedIn(evs: seq<Event>, milestoneId: string, commit: string) {
    exists e :: e in evs && Promotes(e, milestoneId, commit)
  }

  function PromotionFor(x: Pair, ext: Extension): Proposal {
    Proposal(By("pending-commit"), ext, MilestoneVerified(x.milestone, x.commit), None)
  }

  function PendingRun(pairs: seq<Pair>, evs: seq<Event>, vcs: string -> VcsAnswer, ext: Extension, max: nat, cancelAt: nat): ObserverResult {
    if pairs == [] then Proposed([])
    else
      var n := |pairs| - 1;
      var x := pairs[n];
      match PendingRun(pairs[..n], evs, vcs, ext, max, cancelAt)
      case Proposed(out) =>
        if n >= cancelAt then ObserverError("cancelled")
        else if VerifiedIn(evs, x.milestone.id, x.commit) then Proposed(out)
        else if vcs(x.commit).VcsError? then ObserverError("version control")
        else if vcs(x.commit) != Status(Verified) then Proposed(out)
        else Pushed(out, PromotionFor(x, ext), max)
      case failed => failed
  }

  method CollectPending(evs: seq<Event>) returns (pending: seq<Pair>, verified: seq<(string, string)>)
    ensures pending == PendingPairs(evs)
    ensures forall m, c :: (m, c) in verified <==> VerifiedIn(evs, m, c)
  {
    pending := [];
    verified := [];
    for i := 0 to |evs|
      invariant pending == PendingPairs(evs[..i])
      invariant forall m, c :: (m, c) in verified <==> VerifiedIn(evs[..i], m, c)
    {
      VerifiedNext(evs, i);
      assert evs[..i + 1][..i] == evs[..i];
      var b := evs[i].body;
      if b.MilestoneShipped? && b.status.Pending? {
        pending := pending + [Pair(b.milestone, b.commit)];
      } else if b.MilestoneVerified? {
        verified := verified + [(b.milestone.id, b.commit)];
      }
    }
    assert evs[..|evs|] == evs;
  }

  method ObservePending(log: seq<Event>, vcs: string -> VcsAnswer, ext: Extension, max: nat, cancelAt: nat) returns (result: ObserverResult)
    ensures result == PendingRun(PendingPairs(EffectiveEvents(log)), EffectiveEvents(log), vcs, ext, max, cancelAt)
  {
    hide VerifiedIn, PendingPairs;
    var evs := EffectiveEvents(log);
    var pending, verified := CollectPending(evs);
    var out: seq<Proposal> := [];
    for i := 0 to |pending|
      invariant PendingRun(pending[..i], evs, vcs, ext, max, cancelAt) == Proposed(out)
    {
      assert pending[..i + 1][..i] == pending[..i];
      if i >= cancelAt {
        PendingFails(pending, evs, vcs, ext, max, cancelAt, i + 1);
        return ObserverError("cancelled");
      }
      var x := pending[i];
      if (x.milestone.id, x.commit) in verified { continue; }
      var answer := vcs(x.commit);
      if answer.VcsError? {
        PendingFails(pending, evs, vcs, ext, max, cancelAt, i + 1);
        return ObserverError("version control");
      }
      if answer != Status(Verified) { continue; }
      out := out + [PromotionFor(x, ext)];
      if |out| >= max {
        PendingFails(pending, evs, vcs, ext, max, cancelAt, i + 1);
        return ObserverError("budget exceeded");
      }
    }
    assert pending[..|pending|] == pending;
    return Proposed(out);
  }

  predicate Promotes(e: Event, milestoneId: string, commit: string) {
    e.body.MilestoneVerified? && e.body.milestone.id == milestoneId && e.body.commit == commit
  }

  lemma VerifiedNext(evs: seq<Event>, i: nat)
    requires i < |evs|
    ensures forall m, c :: VerifiedIn(evs[..i + 1], m, c) <==> VerifiedIn(evs[..i], m, c) || Promotes(evs[i], m, c)
  {
    assert evs[..i + 1] == evs[..i] + [evs[i]];
    forall m, c ensures VerifiedIn(evs[..i + 1], m, c) <==> VerifiedIn(evs[..i], m, c) || Promotes(evs[i], m, c) {
      if e :| e in evs[..i] && Promotes(e, m, c) { assert e in evs[..i + 1]; }
      assert evs[i] in evs[..i + 1];
    }
  }

  lemma {:induction false} PendingFails(pairs: seq<Pair>, evs: seq<Event>, vcs: string -> VcsAnswer, ext: Extension, max: nat, cancelAt: nat, k: nat)
    requires k <= |pairs| && !PendingRun(pairs[..k], evs, vcs, ext, max, cancelAt).Proposed?
    ensures PendingRun(pairs, evs, vcs, ext, max, cancelAt) == PendingRun(pairs[..k], evs, vcs, ext, max, cancelAt)
  {
    if k == |pairs| {
      assert pairs[..k] == pairs;
    } else {
      assert pairs[..|pairs| - 1][..k] == pairs[..k];
      PendingFails(pairs[..|pairs| - 1], evs, vcs, ext, max, cancelAt, k);
    }
  }

  predicate PendingShipAt(evs: seq<Event>, i: nat) {
    i < |evs| && evs[i].body.MilestoneShipped? && evs[i].body.status.Pending?
  }

  /** The pairs are the milestones and commits of the pending ships, one each, in log order. */
  ghost predicate ShipsPending(evs: seq<Event>, pairs: seq<Pair>, at: seq<nat>) {
    && |at| == |pairs| && Ascending(at)
    && (forall i: nat :: i in at <==> PendingShipAt(evs, i))
    && forall q :: 0 <= q < |at| && PendingShipAt(evs, at[q]) ==>
         pairs[q].milestone == evs[at[q]].body.milestone && pairs[q].commit == evs[at[q]].body.commit
  }

  lemma ShipsPendingNext(evs: seq<Event>, pairs: seq<Pair>, at: seq<nat>, e: Event)
    requires ShipsPending(evs, pairs, at)
    ensures !PendingShipAt([e], 0) ==> ShipsPending(evs + [e], pairs, at)
    ensures PendingShipAt([e], 0) ==> ShipsPending(evs + [e], pairs + [Pair(e.body.milestone, e.body.commit)], at + [|evs|])
  {
    forall i: nat | i < |evs| ensures PendingShipAt(evs + [e], i) <==> PendingShipAt(evs, i) {}
    forall q | 0 <= q < |at| ensures at[q] < |evs| {
      assert at[q] in at;
      assert PendingShipAt(evs, at[q]);
    }
  }

  lemma {:induction false} PairsAre(evs: seq<Event>) returns (at: seq<nat>)
    ensures ShipsPending(evs, PendingPairs(evs), at)
  {
    if evs == [] {
      at := [];
    } else {
      var n := |evs| - 1;
      at := PairsAre(evs[..n]);
      ShipsPendingNext(evs[..n], PendingPairs(evs[..n]), at, evs[n]);
      assert evs == evs[..n] + [evs[n]];
      if PendingShipAt(evs, n) { at := at + [n]; }
    }
  }

  // ----- what the pending-commit observer proposes, and where it stops -----

  /** The pair is pending, not yet promoted, and version control now confirms it. */
  predicate Ripe(x: Pair, evs: seq<Event>, vcs: string -> VcsAnswer) {
    !VerifiedIn(evs, x.milestone.id, x.commit) && vcs(x.commit) == Status(Verified)
  }

  /** Some event promotes this very ship: same milestone id, same commit. */
  predicate PromotedAt(evs: seq<Event>, i: nat, milestoneId: string, commit: string) {
    i < |evs| && evs[i].body.MilestoneVerified? && evs[i].body.milestone.id == milestoneId && evs[i].body.commit == commit
  }

  lemma RipeExactly(x: Pair, evs: seq<Event>, vcs: string -> VcsAnswer)
    ensures Ripe(x, evs, vcs) <==>
              (forall i: nat :: !PromotedAt(evs, i, x.milestone.id, x.commit)) && vcs(x.commit).Status? && vcs(x.commit).status.Verified?
  {
    if e :| e in evs && Promotes(e, x.milestone.id, x.commit) {
      var i: nat :| i < |evs| && evs[i] == e;
      assert PromotedAt(evs, i, x.milestone.id, x.commit);
    }
    forall i: nat | PromotedAt(evs, i, x.milestone.id, x.commit) ensures VerifiedIn(evs, x.milestone.id, x.commit) {
      assert evs[i] in evs;
    }
  }

  predicate RipeAt(pairs: seq<Pair>, evs: seq<Event>, vcs: string -> VcsAnswer, i: nat) {
    i < |pairs| && Ripe(pairs[i], evs, vcs)
  }

  /** The proposals promote the ripe pairs, one each, in the order of the pairs. */
  ghost predicate PromotesRipe(pairs: seq<Pair>, evs: seq<Event>, vcs: string -> VcsAnswer, ext: Extension, ps: seq<Proposal>, at: seq<nat>) {
    && |at| == |ps| && Ascending(at)
    && (forall i: nat :: i in at <==> RipeAt(pairs, evs, vcs, i))
    && forall q :: 0 <= q < |at| && at[q] < |pairs| ==>
         && ps[q].body == MilestoneVerified(pairs[at[q]].milestone, pairs[at[q]].commit)
         && ps[q].causation == Causation("observer", None, None, "pending-commit")
         && ps[q].extension == ext && ps[q].supersedes.None?
  }

  lemma PromotesNext(pairs: seq<Pair>, evs: seq<Event>, vcs: string -> VcsAnswer, ext: Extension, ps: seq<Proposal>, at: seq<nat>, x: Pair)
    requires PromotesRipe(pairs, evs, vcs, ext, ps, at)
    ensures !Ripe(x, evs, vcs) ==> PromotesRipe(pairs + [x], evs, vcs, ext, ps, at)
    ensures Ripe(x, evs, vcs) ==> PromotesRipe(pairs + [x], evs, vcs, ext, ps + [PromotionFor(x, ext)], at + [|pairs|])
  {
    hide Ripe;
    forall i: nat | i < |pairs| ensures RipeAt(pairs + [x], evs, vcs, i) <==> RipeAt(pairs, evs, vcs, i) {}
    forall q | 0 <= q < |at| ensures at[q] < |pairs| {
      assert at[q] in at;
      assert RipeAt(pairs, evs, vcs, at[q]);
    }
  }

  lemma NoPairs(evs: seq<Event>, vcs: string -> VcsAnswer, ext: Extension)
    ensures PromotesRipe([], evs, vcs, ext, [], [])
  {}

  lemma PromotionsNext(pairs: seq<Pair>, evs: seq<Event>, vcs: string -> VcsAnswer, ext: Extension, max: nat, cancelAt: nat)
    requires pairs != [] && PendingRun(pairs, evs, vcs, ext, max, cancelAt).Proposed?
    ensures
      var n := |pairs| - 1;
      var before, after := PendingRun(pairs[..n], evs, vcs, ext, max, cancelAt), PendingRun(pairs, evs, vcs, ext, max, cancelAt);
      && before.Proposed?
      && after.ps == if Ripe(pairs[n], evs, vcs) then before.ps + [PromotionFor(pairs[n], ext)] else before.ps
  {
    hide VerifiedIn, PromotionFor;
  }

  /** What an answering pending-commit observer proposes. */
  lemma {:induction false} PromotionsAre(pairs: seq<Pair>, evs: seq<Event>, vcs: string -> VcsAnswer, ext: Extension, max: nat, cancelAt: nat)
    returns (at: seq<nat>)
    requires PendingRun(pairs, evs, vcs, ext, max, cancelAt).Proposed?
    ensures PromotesRipe(pairs, evs, vcs, ext, PendingRun(pairs, evs, vcs, ext, max, cancelAt).ps, at)
  {
    hide PromotesRipe, PromotionFor, Ripe;
    if pairs == [] {
      at := [];
      NoPairs(evs, vcs, ext);
    } else {
      hide PendingRun;
      var n := |pairs| - 1;
      PromotionsNext(pairs, evs, vcs, ext, max, cancelAt);
      at := PromotionsAre(pairs[..n], evs, vcs, ext, max, cancelAt);
      PromotesNext(pairs[..n], evs, vcs, ext, PendingRun(pairs[..n], evs, vcs, ext, max, cancelAt).ps, at, pairs[n]);
      assert pairs == pairs[..n] + [pairs[n]];
      if Ripe(pairs[n], evs, vcs) { at := at + [n]; }
    }
  }

  function RipePairs(pairs: seq<Pair>, evs: seq<Event>, vcs: string -> VcsAnswer): nat {
    if pairs == [] then 0
    else RipePairs(pairs[..|pairs| - 1], evs, vcs) + if Ripe(pairs[|pairs| - 1], evs, vcs) then 1 else 0
  }

  /** The pair ends the run: the token is set, version control fails on a pair it is asked about, or the budget is reached. */
  predicate StopsAt(pairs: seq<Pair>, evs: seq<Event>, vcs: string -> VcsAnswer, max: nat, cancelAt: nat, i: nat, message: string) {
    && i < |pairs|
    && var x := pairs[i];
       if cancelAt <= i then message == "cancelled"
       else if Ripe(x, evs, vcs) then RipePairs(pairs[..i + 1], evs, vcs) >= max && message == "budget exceeded"
       else !VerifiedIn(evs, x.milestone.id, x.commit) && vcs(x.commit).VcsError? && message == "version control"
  }

  ghost predicate StopsFirst(pairs: seq<Pair>, evs: seq<Event>, vcs: string -> VcsAnswer, max: nat, cancelAt: nat, i: nat, message: string) {
    && StopsAt(pairs, evs, vcs, max, cancelAt, i, message)
    && forall k: nat, m: string :: k < i ==> !StopsAt(pairs, evs, vcs, max, cancelAt, k, m)
  }

  /** The observer answers exactly when no pair stops it; otherwise the first that does names the error. */
  lemma {:induction false} PendingStops(pairs: seq<Pair>, evs: seq<Event>, vcs: string -> VcsAnswer, ext: Extension, max: nat, cancelAt: nat)
    ensures
      var result := PendingRun(pairs, evs, vcs, ext, max, cancelAt);
      && (result.Proposed? || result.ObserverError?)
      && (result.Proposed? ==> |result.ps| == RipePairs(pairs, evs, vcs))
      && (result.Proposed? ==> forall i: nat, m: string :: !StopsAt(pairs, evs, vcs, max, cancelAt, i, m))
      && (result.ObserverError? ==> exists i: nat :: StopsFirst(pairs, evs, vcs, max, cancelAt, i, result.message))
  {
    hide VerifiedIn, PromotionFor;
    if pairs != [] {
      var n := |pairs| - 1;
      PendingStops(pairs[..n], evs, vcs, ext, max, cancelAt);
      forall i: nat, m: string | i < n
        ensures StopsAt(pairs, evs, vcs, max, cancelAt, i, m) <==> StopsAt(pairs[..n], evs, vcs, max, cancelAt, i, m)
      {
        assert pairs[..n][..i + 1] == pairs[..i + 1];
      }
      assert pairs[..n + 1] == pairs;
      var before := PendingRun(pairs[..n], evs, vcs, ext, max, cancelAt);
      if before.ObserverError? {
        var i: nat :| StopsFirst(pairs[..n], evs, vcs, max, cancelAt, i, before.message);
        assert StopsFirst(pairs, evs, vcs, max, cancelAt, i, before.message);
      } else if PendingRun(pairs, evs, vcs, ext, max, cancelAt).ObserverError? {
        assert StopsFirst(pairs, evs, vcs, max, cancelAt, n, PendingRun(pairs, evs, vcs, ext, max, cancelAt).message);
      }
    }
  }
}
