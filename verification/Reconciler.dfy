/**
 One reconcile pass: observers finish in any order, their proposals are collected as they come, a
 stable sort by (observer name, kind key) fixes the batch, and the batch goes to the repository.
 */
module Reconciler {
  import opened Options
  import opened Events
  import opened Sorting
  import opened ByteStrings
  import opened Batch
  import opened InMemory
  import opened FileRepository
  import opened Repository

  /** `Panicked`: the observer's task did not come to a result at all. */
  datatype ObserverResult = Proposed(ps: seq<Proposal>) | ObserverError(message: string) | TimedOut | Panicked

  /** One observer's result, in the order observers finish. */
  datatype Completion = Completion(name: string, result: ObserverResult)

  datatype Tagged = Tagged(name: string, p: Proposal)

  // ----- the sort key -----

  /** Lexicographic order of strings by code point. */
  predicate LexLe(a: string, b: string) {
    if a == "" then true
    else if b == "" then false
    else if a[0] != b[0] then a[0] < b[0]
    else LexLe(a[1..], b[1..])
  }

  function TwoDigits(n: nat): string
    requires n < 100
  {
    [DIGITS[n / 10], DIGITS[n % 10]]
  }

  /** The reconciler's `kind_tag`: the zero-padded ordinal, a dot and the tag. */
  function KindKey(body: Body): string { TwoDigits(body.KindOrdinal()) + "." + body.KindTag() }

  predicate TaggedLe(a: Tagged, b: Tagged) {
    if a.name == b.name then LexLe(KindKey(a.p.body), KindKey(b.p.body)) else LexLe(a.name, b.name)
  }

  lemma {:induction false} LexTotal(a: string, b: string)
    ensures LexLe(a, b) || LexLe(b, a)
    ensures LexLe(a, b) && LexLe(b, a) ==> a == b
  {
    if a != "" && b != "" && a[0] == b[0] {
      LexTotal(a[1..], b[1..]);
      assert a == [a[0]] + a[1..] && b == [b[0]] + b[1..];
    }
  }

  lemma {:induction false} LexTransitive(a: string, b: string, c: string)
    requires LexLe(a, b) && LexLe(b, c)
    ensures LexLe(a, c)
  {
    if a != "" && b != "" && c != "" && a[0] == b[0] == c[0] {
      LexTransitive(a[1..], b[1..], c[1..]);
    }
  }

  lemma DigitOrder(m: nat, n: nat)
    requires m < 10 && n < 10
    ensures DIGITS[m] < DIGITS[n] <==> m < n
    ensures DIGITS[m] == DIGITS[n] <==> m == n
  {
    assert DIGITS[m] as int == '0' as int + m;
    assert DIGITS[n] as int == '0' as int + n;
  }

  lemma SameOrdinalSameKey(a: Body, b: Body)
    requires a.KindOrdinal() == b.KindOrdinal()
    ensures KindKey(a) == KindKey(b)
  {}

  lemma LexByTwo(x: string, y: string)
    requires |x| >= 2 && |y| >= 2 && (x[0] != y[0] || x[1] != y[1])
    ensures LexLe(x, y) <==> x[0] < y[0] || (x[0] == y[0] && x[1] < y[1])
  {
    assert x[1..][0] == x[1] && y[1..][0] == y[1];
  }

  /** The string starts with the two digits of `n`. */
  predicate Numbered(x: string, n: nat) {
    n < 100 && |x| >= 2 && x[0] == DIGITS[n / 10] && x[1] == DIGITS[n % 10]
  }

  lemma NumberedOrder(x: string, m: nat, y: string, n: nat)
    requires Numbered(x, m) && Numbered(y, n) && m != n
    ensures LexLe(x, y) <==> m <= n
  {
    DigitOrder(m / 10, n / 10);
    DigitOrder(m % 10, n % 10);
    LexByTwo(x, y);
  }

  lemma KeyNumbered(body: Body)
    ensures Numbered(KindKey(body), body.KindOrdinal())
  {
    var tag, n := body.KindTag(), body.KindOrdinal();
    assert 1 <= n <= 15;
    Prefixed(n, tag);
  }

  lemma Prefixed(n: nat, tag: string)
    requires n < 100
    ensures Numbered(TwoDigits(n) + "." + tag, n)
  {}

  /** Comparing key strings is comparing ordinals. */
  lemma KindKeyOrder(a: Body, b: Body)
    ensures LexLe(KindKey(a), KindKey(b)) <==> a.KindOrdinal() <= b.KindOrdinal()
  {
    hide *;
    KeyNumbered(a);
    KeyNumbered(b);
    if a.KindOrdinal() == b.KindOrdinal() {
      SameOrdinalSameKey(a, b);
      LexTotal(KindKey(a), KindKey(b));
    } else {
      NumberedOrder(KindKey(a), a.KindOrdinal(), KindKey(b), b.KindOrdinal());
    }
  }

  /** `a` comes first in code-point order: it is a prefix of `b`, or smaller where they first differ. */
  predicate SmallerAt(a: string, b: string, k: nat) {
    k < |a| && k < |b| && a[..k] == b[..k] && a[k] < b[k]
  }

  lemma SameUpTo(a: string, b: string, k: nat)
    requires SmallerAt(a, b, k)
    ensures k > 0 ==> a[0] == b[0]
  {
    if k > 0 { assert a[..k][0] == b[..k][0]; }
  }

  lemma {:induction false} LexLeExactly(a: string, b: string)
    ensures LexLe(a, b) <==> a <= b || exists k: nat :: SmallerAt(a, b, k)
  {
    if a != "" && b != "" {
      if a[0] == b[0] {
        LexLeExactly(a[1..], b[1..]);
        assert a == [a[0]] + a[1..] && b == [b[0]] + b[1..];
        if k: nat :| SmallerAt(a, b, k) {
          assert k > 0 && a[1..][..k - 1] == a[..k][1..] && b[1..][..k - 1] == b[..k][1..];
          assert SmallerAt(a[1..], b[1..], k - 1);
        }
        if k: nat :| SmallerAt(a[1..], b[1..], k) {
          assert a[..k + 1] == [a[0]] + a[1..][..k] && b[..k + 1] == [b[0]] + b[1..][..k];
          assert SmallerAt(a, b, k + 1);
        }
      } else {
        assert a[0] < b[0] ==> SmallerAt(a, b, 0);
        forall k: nat | SmallerAt(a, b, k) ensures k == 0 { SameUpTo(a, b, k); }
      }
    }
  }

  /** The kinds in the order a pass submits them. */
  const KINDS: seq<string> := [
    "unit_created", "phase_completed", "phase_skipped",
    "milestone_shipped", "milestone_reverted", "milestone_verified",
    "gate_recorded", "status_transitioned", "reconcile_failed", "reconcile_recovered",
    "event_superseded", "subagent_completed", "tool_call_failed", "model_switched", "approval_recorded"]

  lemma TagsNameKinds(b: Body)
    ensures b.UnitCreated? <==> b.KindTag() == "unit_created"
    ensures b.PhaseCompleted? <==> b.KindTag() == "phase_completed"
    ensures b.PhaseSkipped? <==> b.KindTag() == "phase_skipped"
    ensures b.MilestoneShipped? <==> b.KindTag() == "milestone_shipped"
    ensures b.MilestoneReverted? <==> b.KindTag() == "milestone_reverted"
    ensures b.MilestoneVerified? <==> b.KindTag() == "milestone_verified"
    ensures b.GateRecorded? <==> b.KindTag() == "gate_recorded"
    ensures b.StatusTransitioned? <==> b.KindTag() == "status_transitioned"
    ensures b.ReconcileFailed? <==> b.KindTag() == "reconcile_failed"
    ensures b.ReconcileRecovered? <==> b.KindTag() == "reconcile_recovered"
    ensures b.EventSuperseded? <==> b.KindTag() == "event_superseded"
    ensures b.SubagentCompleted? <==> b.KindTag() == "subagent_completed"
    ensures b.ToolCallFailed? <==> b.KindTag() == "tool_call_failed"
    ensures b.ModelSwitched? <==> b.KindTag() == "model_switched"
    ensures b.ApprovalRecorded? <==> b.KindTag() == "approval_recorded"
  {
    OrdinalIsPlace(b, b.KindOrdinal() - 1);
  }

  /** The kind's place in the list, counted from one, is its ordinal. */
  lemma OrdinalIsPlace(b: Body, k: int)
    requires 0 <= k < |KINDS|
    ensures KINDS[k] == b.KindTag() <==> k + 1 == b.KindOrdinal()
  {
    var n := b.KindOrdinal() - 1;
    if k != n { KindsDiffer(k, n); }
    assert KINDS[n] == b.KindTag();
  }

  lemma KindsDiffer(m: int, n: int)
    requires 0 <= m < |KINDS| && 0 <= n < |KINDS| && m != n
    ensures KINDS[m] != KINDS[n]
  {}

  lemma TaggedLeTotal()
    ensures TotalPreorder(TaggedLe)
  {
    forall x, y ensures Comparable(TaggedLe, x, y) {
      LexTotal(x.name, y.name);
      LexTotal(KindKey(x.p.body), KindKey(y.p.body));
    }
    forall x: Tagged, y: Tagged, z: Tagged ensures Chains(TaggedLe, x, y, z) { TaggedChains(x, y, z); }
  }

  lemma TaggedChains(x: Tagged, y: Tagged, z: Tagged)
    ensures Chains(TaggedLe, x, y, z)
  {
    if TaggedLe(x, y) && TaggedLe(y, z) {
      if x.name == y.name == z.name {
        LexTransitive(KindKey(x.p.body), KindKey(y.p.body), KindKey(z.p.body));
      } else {
        LexTotal(x.name, y.name);
        LexTotal(y.name, z.name);
        if LexLe(x.name, y.name) && LexLe(y.name, z.name) { LexTransitive(x.name, y.name, z.name); }
        LexTotal(x.name, z.name);
        NamesChain(x.name, y.name, z.name);
      }
    }
  }

  lemma NamesChain(x: string, y: string, z: string)
    ensures LexLe(x, y) && LexLe(y, z) && x == z ==> x == y
  {
    LexTotal(x, y);
  }

  // ----- collecting -----

  function TagAll(name: string, ps: seq<Proposal>): seq<Tagged> {
    seq(|ps|, i requires 0 <= i < |ps| => Tagged(name, ps[i]))
  }

  function BlockOf(c: Completion): seq<Tagged> { if c.result.Proposed? then TagAll(c.name, c.result.ps) else [] }

  function Collect(cs: seq<Completion>): seq<Tagged> {
    if cs == [] then [] else Collect(cs[..|cs| - 1]) + BlockOf(cs[|cs| - 1])
  }

  function Failures(cs: seq<Completion>): seq<Completion> {
    if cs == [] then []
    else Failures(cs[..|cs| - 1]) + if cs[|cs| - 1].result.Proposed? then [] else [cs[|cs| - 1]]
  }

  /** The batch a pass submits. */
  function SortedBatch(cs: seq<Completion>): seq<Tagged> { StableSort(Collect(cs), TaggedLe) }

  lemma {:induction false} CollectMembers(cs: seq<Completion>)
    ensures forall t :: t in Collect(cs) <==> exists c :: c in cs && c.result.Proposed? && t.name == c.name && t.p in c.result.ps
  {
    if cs != [] {
      var n := |cs| - 1;
      assert cs == cs[..n] + [cs[n]];
      CollectMembers(cs[..n]);
      BlockMembers(cs[n]);
    }
  }

  lemma BlockMembers(c: Completion)
    ensures forall t :: t in BlockOf(c) <==> c.result.Proposed? && t.name == c.name && t.p in c.result.ps
  {
    if c.result.Proposed? {
      var ps := c.result.ps;
      forall t: Tagged | t.name == c.name && t.p in ps ensures t in BlockOf(c) {
        var i :| 0 <= i < |ps| && ps[i] == t.p;
        assert BlockOf(c)[i] == t;
      }
    }
  }

  /** Where a proposal comes from: which completion, and which of its proposals. */
  datatype Origin = Origin(completion: nat, place: nat) {
    predicate Before(other: Origin) {
      completion < other.completion || (completion == other.completion && place < other.place)
    }
  }

  predicate Proposes(cs: seq<Completion>, o: Origin) {
    && o.completion < |cs| && cs[o.completion].result.Proposed?
    && o.place < |cs[o.completion].result.ps|
  }

  function ProposedAt(cs: seq<Completion>, o: Origin): Tagged
    requires Proposes(cs, o)
  {
    Tagged(cs[o.completion].name, cs[o.completion].result.ps[o.place])
  }

  /** Every proposal of every observer that answered, once, each under its observer's name. */
  ghost predicate TakesAll(cs: seq<Completion>, all: seq<Tagged>, origins: seq<Origin>) {
    && |origins| == |all|
    && (forall o :: o in origins <==> Proposes(cs, o))
    && (forall q :: 0 <= q < |all| ==> Proposes(cs, origins[q]) && all[q] == ProposedAt(cs, origins[q]))
    && (forall i, j :: 0 <= i < j < |all| ==> origins[i] != origins[j])
  }

  ghost predicate InOrigin(origins: seq<Origin>) { forall i, j :: 0 <= i < j < |origins| ==> origins[i].Before(origins[j]) }

  function OriginsOf(n: nat, c: Completion): seq<Origin> {
    if c.result.Proposed? then seq(|c.result.ps|, i requires 0 <= i < |c.result.ps| => Origin(n, i)) else []
  }

  lemma {:induction false} CollectTakesAll(cs: seq<Completion>) returns (origins: seq<Origin>)
    ensures TakesAll(cs, Collect(cs), origins) && InOrigin(origins)
  {
    if cs == [] {
      origins := [];
    } else {
      var n := |cs| - 1;
      var before := CollectTakesAll(cs[..n]);
      TakesAllNext(cs, Collect(cs[..n]), before);
      origins := before + OriginsOf(n, cs[n]);
    }
  }

  lemma TakesAllNext(cs: seq<Completion>, all: seq<Tagged>, origins: seq<Origin>)
    requires cs != [] && TakesAll(cs[..|cs| - 1], all, origins) && InOrigin(origins)
    ensures
      var n := |cs| - 1;
      var next := origins + OriginsOf(n, cs[n]);
      TakesAll(cs, all + BlockOf(cs[n]), next) && InOrigin(next)
  {
    hide Proposes, OriginsOf;
    var n := |cs| - 1;
    var next := origins + OriginsOf(n, cs[n]);
    forall o ensures o in next <==> Proposes(cs, o) { OriginNext(cs, o); }
    InOriginNext(cs, all, origins);
    forall q | 0 <= q < |next| ensures q < |all + BlockOf(cs[n])| && Proposes(cs, next[q]) && (all + BlockOf(cs[n]))[q] == ProposedAt(cs, next[q]) {
      PlacedNext(cs, all, origins, q);
    }
    BlockSize(n, cs[n]);
  }

  lemma BlockSize(n: nat, c: Completion)
    ensures |BlockOf(c)| == |OriginsOf(n, c)|
  {}

  lemma PlacedNext(cs: seq<Completion>, all: seq<Tagged>, origins: seq<Origin>, q: nat)
    requires cs != [] && TakesAll(cs[..|cs| - 1], all, origins) && q < |origins + OriginsOf(|cs| - 1, cs[|cs| - 1])|
    ensures
      var n := |cs| - 1;
      var o, next := (origins + OriginsOf(n, cs[n]))[q], all + BlockOf(cs[n]);
      q < |next| && Proposes(cs, o) && next[q] == ProposedAt(cs, o)
  {
    if q < |all| { assert Proposes(cs[..|cs| - 1], origins[q]); }
  }

  lemma InOriginNext(cs: seq<Completion>, all: seq<Tagged>, origins: seq<Origin>)
    requires cs != [] && TakesAll(cs[..|cs| - 1], all, origins) && InOrigin(origins)
    ensures InOrigin(origins + OriginsOf(|cs| - 1, cs[|cs| - 1]))
  {
    forall q | 0 <= q < |origins| ensures origins[q].completion < |cs| - 1 { assert origins[q] in origins; }
  }

  lemma OriginNext(cs: seq<Completion>, o: Origin)
    requires cs != []
    ensures Proposes(cs, o) <==> Proposes(cs[..|cs| - 1], o) || o in OriginsOf(|cs| - 1, cs[|cs| - 1])
  {
    var n := |cs| - 1;
    if o.completion == n && Proposes(cs, o) { assert OriginsOf(n, cs[n])[o.place] == o; }
  }

  /** How two proposals of one batch stand: by observer name, then by kind; a tie goes to the one that came first. */
  ghost predicate InBatchOrder(x: Tagged, a: Origin, y: Tagged, b: Origin) {
    && (x.name != y.name ==> LexLe(x.name, y.name))
    && (x.name == y.name ==>
          forall m, n :: 0 <= m < |KINDS| && 0 <= n < |KINDS| && KINDS[m] == x.p.body.KindTag() && KINDS[n] == y.p.body.KindTag() ==>
            m < n || (m == n && a.Before(b)))
  }

  ghost predicate BatchOrdered(batch: seq<Tagged>, origins: seq<Origin>)
    requires |origins| == |batch|
  {
    forall i, j :: 0 <= i < j < |batch| ==> InBatchOrder(batch[i], origins[i], batch[j], origins[j])
  }

  lemma PairOrdered(x: Tagged, a: Origin, y: Tagged, b: Origin)
    requires TaggedLe(x, y) && (Tie(TaggedLe, x, y) ==> a.Before(b))
    ensures InBatchOrder(x, a, y, b)
  {
    hide LexLe, KindKey;
    if x.name == y.name {
      KindKeyOrder(x.p.body, y.p.body);
      KindKeyOrder(y.p.body, x.p.body);
      forall m: nat, n: nat | m < |KINDS| && n < |KINDS| && KINDS[m] == x.p.body.KindTag() && KINDS[n] == y.p.body.KindTag()
        ensures m < n || (m == n && a.Before(b))
      {
        OrdinalIsPlace(x.p.body, m);
        OrdinalIsPlace(y.p.body, n);
      }
    }
  }

  lemma TakenRearranged(cs: seq<Completion>, all: seq<Tagged>, origins: seq<Origin>, batch: seq<Tagged>, from: seq<nat>)
    requires TakesAll(cs, all, origins) && InOrigin(origins) && Rearranges(all, batch, TaggedLe, from)
    ensures
      var moved := seq(|from|, i requires 0 <= i < |from| => origins[from[i]]);
      && TakesAll(cs, batch, moved)
      && forall i, j :: 0 <= i < j < |batch| && Tie(TaggedLe, batch[i], batch[j]) ==> moved[i].Before(moved[j])
  {
    hide Proposes, Tie;
    var moved := seq(|from|, i requires 0 <= i < |from| => origins[from[i]]);
    forall o ensures o in moved <==> o in origins {
      if o in origins {
        var k: nat :| k < |origins| && origins[k] == o;
        assert k in from;
        var i :| 0 <= i < |from| && from[i] == k;
        assert moved[i] == o;
      }
    }
    forall i, j | 0 <= i < j < |batch| ensures moved[i] != moved[j] {
      assert from[i] < from[j] || from[j] < from[i];
    }
  }

  /** The batch holds every proposal once, ordered by observer name and then kind; within one kind an observer's proposals keep their order. */
  lemma BatchIs(cs: seq<Completion>) returns (origins: seq<Origin>)
    ensures TakesAll(cs, SortedBatch(cs), origins) && BatchOrdered(SortedBatch(cs), origins)
  {
    hide KindKey, TaggedLe, StableSort, Collect, InBatchOrder, Proposes, Tie;
    var all, batch := Collect(cs), SortedBatch(cs);
    var collected := CollectTakesAll(cs);
    TaggedLeTotal();
    StableSortIsStable(all, TaggedLe);
    var from := SortRearranges(all, TaggedLe);
    TakenRearranged(cs, all, collected, batch, from);
    origins := seq(|from|, i requires 0 <= i < |from| => collected[from[i]]);
    forall i, j | 0 <= i < j < |batch| ensures InBatchOrder(batch[i], origins[i], batch[j], origins[j]) {
      PairOrdered(batch[i], origins[i], batch[j], origins[j]);
    }
  }

  predicate FailedAt(cs: seq<Completion>, i: nat) { i < |cs| && !cs[i].result.Proposed? }

  /** The observers that did not answer, each once, in the order they ended. */
  ghost predicate FailuresAt(cs: seq<Completion>, failures: seq<Completion>, at: seq<nat>) {
    && |at| == |failures| && Ascending(at)
    && (forall i: nat :: i in at <==> FailedAt(cs, i))
    && forall q :: 0 <= q < |at| && at[q] < |cs| ==> failures[q] == cs[at[q]]
  }

  lemma FailuresNext(cs: seq<Completion>, failures: seq<Completion>, at: seq<nat>, c: Completion)
    requires FailuresAt(cs, failures, at)
    ensures c.result.Proposed? ==> FailuresAt(cs + [c], failures, at)
    ensures !c.result.Proposed? ==> FailuresAt(cs + [c], failures + [c], at + [|cs|])
  {
    forall i: nat | i < |cs| ensures FailedAt(cs + [c], i) <==> FailedAt(cs, i) {}
    forall q | 0 <= q < |at| ensures at[q] < |cs| {
      assert at[q] in at;
      assert FailedAt(cs, at[q]);
    }
  }

  lemma {:induction false} FailuresAre(cs: seq<Completion>) returns (at: seq<nat>)
    ensures FailuresAt(cs, Failures(cs), at)
  {
    hide FailuresAt;
    if cs == [] {
      at := [];
      NoFailures();
    } else {
      var n := |cs| - 1;
      at := FailuresAre(cs[..n]);
      FailuresNext(cs[..n], Failures(cs[..n]), at, cs[n]);
      assert cs == cs[..n] + [cs[n]];
      if cs[n].result.Proposed? {
        assert Failures(cs) == Failures(cs[..n]);
      } else {
        at := at + [n];
      }
    }
  }

  lemma NoFailures()
    ensures FailuresAt([], [], [])
  {}

  datatype Ticket = Ticket(id: EventId, now: Timestamp)

  function OffersFor(batch: seq<Tagged>, stamps: seq<Ticket>): seq<Offer>
    requires |stamps| == |batch|
  {
    seq(|batch|, i requires 0 <= i < |batch| => Offer(batch[i].p, stamps[i].id, stamps[i].now))
  }

  datatype PassResult =
    | Reconciled(accepted: seq<Event>, rejected: seq<Rejection>, failures: seq<Completion>)
    | RepositoryFailed(error: RepoError)
    | JoinFailed

  predicate AnyPanicked(cs: seq<Completion>) { exists i :: 0 <= i < |cs| && cs[i].result.Panicked? }

  /** Joining the observers' tasks in the order they finish; a panic ends it. */
  method JoinAll(cs: seq<Completion>) returns (panicked: bool, all: seq<Tagged>, failures: seq<Completion>)
    ensures panicked <==> AnyPanicked(cs)
    ensures !panicked ==> all == Collect(cs) && failures == Failures(cs)
  {
    all := [];
    failures := [];
    for i := 0 to |cs|
      invariant all == Collect(cs[..i]) && failures == Failures(cs[..i])
      invariant forall k :: 0 <= k < i ==> !cs[k].result.Panicked?
    {
      assert cs[..i + 1][..i] == cs[..i];
      var name := cs[i].name;
      match cs[i].result {
        case Panicked => return true, all, failures;
        case Proposed(ps) =>
          ghost var before := all;
          for j := 0 to |ps|
            invariant all == before + TagAll(name, ps[..j])
          {
            assert TagAll(name, ps[..j + 1]) == TagAll(name, ps[..j]) + [Tagged(name, ps[j])];
            all := all + [Tagged(name, ps[j])];
          }
          assert ps[..|ps|] == ps;
        case _ => failures := failures + [cs[i]];
      }
    }
    assert cs[..|cs|] == cs;
    panicked := false;
  }

  /**
   `Reconciler::reconcile`: load (or give up with `loadError`), collect in order of completion, sort,
   append. A panicking observer ends the pass before anything is appended.
   */
  method Reconcile(state: UnitState, w: Workflow, loadError: Option<RepoError>, cs: seq<Completion>, stamps: seq<Ticket>, mode: AppendMode,
                   fault: AppendFault)
    returns (result: PassResult)
    requires state.Valid() && |stamps| == |SortedBatch(cs)|
    modifies state`events, state`fingerprints
    ensures state.Valid()
    ensures loadError.Some? ==> result == RepositoryFailed(loadError.value) && state.events == old(state.events)
    ensures loadError.None? && AnyPanicked(cs) ==> result == JoinFailed && state.events == old(state.events)
    ensures loadError.None? && !AnyPanicked(cs) ==>
              var answer := AppendCall(w, old(state.events), OffersFor(SortedBatch(cs), stamps), mode, fault);
              && state.events == answer.log
              && result == match answer.reply
                           case Reported(accepted, rejected) => Reconciled(accepted, rejected, Failures(cs))
                           case Errored(error) => RepositoryFailed(error)
  {
    hide AppendCall, Collect, Failures, AnyPanicked, StableSort, OffersFor;
    if loadError.Some? { return RepositoryFailed(loadError.value); }
    var panicked, all, failures := JoinAll(cs);
    if panicked { return JoinFailed; }
    var batch := StableSort(all, TaggedLe);
    var reply := CallAppend(state, w, OffersFor(batch, stamps), mode, fault);
    match reply {
      case Reported(accepted, rejected) => result := Reconciled(accepted, rejected, failures);
      case Errored(error) => result := RepositoryFailed(error);
    }
  }

  /** Proposal `i` of a pass's batch, if nothing speaks against it, becomes the next event, under ticket `i`; else it is the next rejection. */
  lemma PassFate(w: Workflow, log: seq<Event>, cs: seq<Completion>, stamps: seq<Ticket>, i: nat)
    requires |stamps| == |SortedBatch(cs)| && i < |stamps|
    ensures
      var offers, p := OffersFor(SortedBatch(cs), stamps), SortedBatch(cs)[i].p;
      var before, end := RunAll(w, log, offers[..i]), RunAll(w, log, offers);
      match Objection(w, before.events, p)
      case None =>
        |before.events| < |end.events| && Carries(end.events[|before.events|], Offer(p, stamps[i].id, stamps[i].now), before.events)
      case Some(reason) =>
        |before.rejected| < |end.rejected| && end.rejected[|before.rejected|] == Rejection(p, reason)
  {
    hide Objection, RunAll, Carries, SortedBatch;
    OfferFate(w, log, OffersFor(SortedBatch(cs), stamps), i);
  }

  // ----- completion order does not matter -----

  ghost predicate DistinctNames(cs: seq<Completion>) {
    forall i, j :: 0 <= i < j < |cs| ==> cs[i].name != cs[j].name
  }

  lemma TieMeans(a: Tagged, b: Tagged)
    ensures Tie(TaggedLe, a, b) ==> a.name == b.name
  {
    LexTotal(a.name, b.name);
  }

  lemma BlockTies(c: Completion, x: Tagged)
    requires c.name != x.name
    ensures Ties(BlockOf(c), x, TaggedLe) == []
  {
    forall y | y in BlockOf(c) ensures !Tie(TaggedLe, y, x) { TieMeans(y, x); }
    TiesNone(BlockOf(c), x, TaggedLe);
  }

  lemma {:induction false} OtherBlocksTies(cs: seq<Completion>, x: Tagged)
    requires forall i :: 0 <= i < |cs| ==> cs[i].name != x.name
    ensures Ties(Collect(cs), x, TaggedLe) == []
  {
    if cs != [] {
      var n := |cs| - 1;
      OtherBlocksTies(cs[..n], x);
      BlockTies(cs[n], x);
      TiesConcat(Collect(cs[..n]), BlockOf(cs[n]), x, TaggedLe);
    }
  }

  /** Everything that ties with `x` comes from the one observer of that name. */
  lemma {:induction false} OneBlockTies(cs: seq<Completion>, k: nat, x: Tagged)
    requires DistinctNames(cs) && k < |cs| && cs[k].name == x.name
    ensures Ties(Collect(cs), x, TaggedLe) == Ties(BlockOf(cs[k]), x, TaggedLe)
  {
    var n := |cs| - 1;
    TiesConcat(Collect(cs[..n]), BlockOf(cs[n]), x, TaggedLe);
    if k == n {
      OtherBlocksTies(cs[..n], x);
    } else {
      OneBlockTies(cs[..n], k, x);
      BlockTies(cs[n], x);
    }
  }

  /** With pairwise distinct observer names every completion order yields the same batch. */
  lemma OrderIrrelevant(cs: seq<Completion>, ds: seq<Completion>)
    requires multiset(cs) == multiset(ds) && DistinctNames(cs) && DistinctNames(ds)
    ensures SortedBatch(cs) == SortedBatch(ds)
  {
    TaggedLeTotal();
    StableSortIsStable(Collect(cs), TaggedLe);
    StableSortIsStable(Collect(ds), TaggedLe);
    forall x ensures Ties(Collect(cs), x, TaggedLe) == Ties(Collect(ds), x, TaggedLe) {
      if k :| 0 <= k < |cs| && cs[k].name == x.name {
        assert cs[k] in multiset(ds);
        var j :| 0 <= j < |ds| && ds[j] == cs[k];
        OneBlockTies(cs, k, x);
        OneBlockTies(ds, j, x);
      } else {
        forall j | 0 <= j < |ds| ensures ds[j].name != x.name { assert ds[j] in multiset(cs); }
        OtherBlocksTies(cs, x);
        OtherBlocksTies(ds, x);
      }
    }
    SortedWithTiesUnique(SortedBatch(cs), SortedBatch(ds), TaggedLe);
  }

  // ----- and only then -----

  function Zip(names: seq<string>, results: seq<ObserverResult>): seq<Completion>
    requires |names| == |results|
  {
    seq(|names|, i requires 0 <= i < |names| => Completion(names[i], results[i]))
  }

  /** Whatever the observers return, the batch is the same in every completion order. */
  ghost predicate OrderFree(names: seq<string>) {
    forall results, order :: |results| == |names| && multiset(order) == multiset(Zip(names, results)) ==>
      SortedBatch(order) == SortedBatch(Zip(names, results))
  }

  /** Two observers of one name, each proposing one model switch; every other observer is silent. */
  function Rivals(n: nat, i: nat, j: nat, a: Proposal, b: Proposal): seq<ObserverResult>
    requires i < j < n
  {
    seq(n, k requires 0 <= k < n => if k == i then Proposed([a]) else if k == j then Proposed([b]) else Proposed([]))
  }

  lemma {:induction false} CollectRivals(cs: seq<Completion>, i: nat, j: nat, a: Proposal, b: Proposal)
    requires i < j < |cs|
    requires cs[i].result == Proposed([a]) && cs[j].result == Proposed([b])
    requires forall k :: 0 <= k < |cs| && k != i && k != j ==> cs[k].result == Proposed([])
    ensures Collect(cs) == [Tagged(cs[i].name, a), Tagged(cs[j].name, b)]
  {
    var n := |cs| - 1;
    if n == j {
      CollectOne(cs[..n], i, a);
    } else {
      CollectRivals(cs[..n], i, j, a, b);
    }
  }

  lemma {:induction false} CollectOne(cs: seq<Completion>, i: nat, a: Proposal)
    requires i < |cs| && cs[i].result == Proposed([a])
    requires forall k :: 0 <= k < |cs| && k != i ==> cs[k].result == Proposed([])
    ensures Collect(cs) == [Tagged(cs[i].name, a)]
  {
    var n := |cs| - 1;
    if n == i { CollectNone(cs[..n]); } else { CollectOne(cs[..n], i, a); }
  }

  lemma {:induction false} CollectNone(cs: seq<Completion>)
    requires forall k :: 0 <= k < |cs| ==> cs[k].result == Proposed([])
    ensures Collect(cs) == []
  {
    if cs != [] { CollectNone(cs[..|cs| - 1]); }
  }

  lemma SortOfTied(a: Tagged, b: Tagged)
    requires a.name == b.name && KindKey(a.p.body) == KindKey(b.p.body)
    ensures StableSort([a, b], TaggedLe) == [a, b]
  {
    TaggedLeTotal();
    LexTotal(KindKey(a.p.body), KindKey(b.p.body));
    assert Sorted([a, b], TaggedLe);
    SortOfSorted([a, b], TaggedLe);
  }

  function Switch(to: string): Proposal {
    Proposal(Causation("observer", None, None, "observer"), "null", ModelSwitched("", to), None)
  }

  /** Distinct names are exactly what makes the merge deterministic: any shared name can show the completion order. */
  lemma DeterministicExactly(names: seq<string>)
    ensures OrderFree(names) <==> forall i, j :: 0 <= i < j < |names| ==> names[i] != names[j]
  {
    if forall i, j :: 0 <= i < j < |names| ==> names[i] != names[j] {
      forall results, order | |results| == |names| && multiset(order) == multiset(Zip(names, results))
        ensures SortedBatch(order) == SortedBatch(Zip(names, results))
      {
        DistinctPermutes(Zip(names, results), order);
        OrderIrrelevant(order, Zip(names, results));
      }
    } else {
      var i, j :| 0 <= i < j < |names| && names[i] == names[j];
      SharedNameShows(names, i, j);
    }
  }

  lemma SwapPermutes<T>(s: seq<T>, i: nat, j: nat)
    requires i < j < |s|
    ensures multiset(s[i := s[j]][j := s[i]]) == multiset(s)
  {}

  lemma RivalsDiffer(name: string, a: Proposal, b: Proposal, cs: seq<Completion>, ds: seq<Completion>)
    requires a.body.ModelSwitched? && b.body.ModelSwitched? && a != b
    requires Collect(cs) == [Tagged(name, a), Tagged(name, b)] && Collect(ds) == [Tagged(name, b), Tagged(name, a)]
    ensures SortedBatch(cs) != SortedBatch(ds)
  {
    hide KindKey, TaggedLe, StableSort, Collect;
    SameOrdinalSameKey(a.body, b.body);
    SortOfTied(Tagged(name, a), Tagged(name, b));
    SortOfTied(Tagged(name, b), Tagged(name, a));
    assert SortedBatch(cs)[0] != SortedBatch(ds)[0];
  }

  lemma SharedNameShows(names: seq<string>, i: nat, j: nat)
    requires i < j < |names| && names[i] == names[j]
    ensures !OrderFree(names)
  {
    hide SortedBatch, Collect;
    var a, b := Switch("a"), Switch("b");
    assert a.body.toModel[0] != b.body.toModel[0];
    var results := Rivals(|names|, i, j, a, b);
    var cs := Zip(names, results);
    var order := cs[i := cs[j]][j := cs[i]];
    CollectRivals(cs, i, j, a, b);
    CollectRivals(order, i, j, b, a);
    SwapPermutes(cs, i, j);
    RivalsDiffer(names[i], a, b, cs, order);
  }

  /** A reordering of completions with distinct names has distinct names. */
  lemma DistinctPermutes(cs: seq<Completion>, ds: seq<Completion>)
    requires DistinctNames(cs) && multiset(ds) == multiset(cs)
    ensures DistinctNames(ds)
  {
    forall i, j | 0 <= i < j < |ds| ensures ds[i].name != ds[j].name {
      if ds[i].name == ds[j].name {
        assert ds[i] in multiset(cs) && ds[j] in multiset(cs);
        var p :| 0 <= p < |cs| && cs[p] == ds[i];
        var q :| 0 <= q < |cs| && cs[q] == ds[j];
        assert p == q;
        TwiceInOne(ds, i, j);
        OnceInDistinct(cs, p);
      }
    }
  }

  lemma TwiceInOne(ds: seq<Completion>, i: nat, j: nat)
    requires i < j < |ds| && ds[i] == ds[j]
    ensures multiset(ds)[ds[i]] >= 2
  {
    assert ds == ds[..j] + ds[j..];
    assert ds[..j][i] in multiset(ds[..j]) && ds[j..][0] in multiset(ds[j..]);
  }

  lemma OnceInDistinct(cs: seq<Completion>, p: nat)
    requires DistinctNames(cs) && p < |cs|
    ensures multiset(cs)[cs[p]] == 1
  {
    assert cs == cs[..p] + [cs[p]] + cs[p + 1..];
    assert cs[p] !in cs[..p] && cs[p] !in cs[p + 1..];
  }
}
