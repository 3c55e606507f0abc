/** The shipped set: the running list the program keeps, and what it means. */
module Milestones {
  import opened Events
  import opened Projections
  import opened Sorting

  predicate Lists(ms: seq<Milestone>, id: string) { exists m :: m in ms && m.id == id }

  predicate DistinctIds(ms: seq<Milestone>) { forall p, q :: 0 <= p < q < |ms| ==> ms[p].id != ms[q].id }

  /** `Vec::retain` of everything whose id differs from `id`. */
  function Without(ms: seq<Milestone>, id: string): seq<Milestone> {
    if ms == [] then []
    else
      var n := |ms| - 1;
      Without(ms[..n], id) + if ms[n].id == id then [] else [ms[n]]
  }

  /** One step of the running list. */
  function ShipStep(shipped: seq<Milestone>, body: Body): seq<Milestone> {
    match body
    case MilestoneShipped(m, _, _, _) => if Lists(shipped, m.id) then shipped else shipped + [m]
    case MilestoneReverted(m, _, _) => Without(shipped, m.id)
    case _ => shipped
  }

  function ShippedIn(evs: seq<Event>): seq<Milestone> {
    if evs == [] then [] else ShipStep(ShippedIn(evs[..|evs| - 1]), evs[|evs| - 1].body)
  }

  function ShippedMilestones(log: seq<Event>): seq<Milestone> { ShippedIn(EffectiveEvents(log)) }

  method RetainOthers(ms: seq<Milestone>, id: string) returns (kept: seq<Milestone>)
    ensures kept == Without(ms, id)
  {
    kept := [];
    for i := 0 to |ms|
      invariant kept == Without(ms[..i], id)
    {
      assert ms[..i + 1][..i] == ms[..i];
      if ms[i].id != id { kept := kept + [ms[i]]; }
    }
    assert ms[..|ms|] == ms;
  }

  lemma ShippedNext(evs: seq<Event>, i: nat)
    requires i < |evs|
    ensures ShippedIn(evs[..i + 1]) == ShipStep(ShippedIn(evs[..i]), evs[i].body)
  {
    hide ShipStep;
    assert evs[..i + 1][..i] == evs[..i];
  }

  /** `shipped_milestones`: one pass over the effective events, updating a vector. */
  method CollectShipped(log: seq<Event>) returns (shipped: seq<Milestone>)
    ensures shipped == ShippedMilestones(log)
  {
    shipped := [];
    var evs := EffectiveEvents(log);
    assert ShippedIn(evs[..0]) == [];
    hide EffectiveEvents, ShippedIn, Without;
    for i := 0 to |evs|
      invariant shipped == ShippedIn(evs[..i])
    {
      ShippedNext(evs, i);
      match evs[i].body {
        case MilestoneShipped(m, _, _, _) =>
          if !(exists s :: s in shipped && s.id == m.id) { shipped := shipped + [m]; }
        case MilestoneReverted(m, _, _) => shipped := RetainOthers(shipped, m.id);
        case _ =>
      }
    }
    assert evs[..|evs|] == evs;
  }

  // ----- what the list means -----

  predicate ShipAt(evs: seq<Event>, i: int, id: string) {
    0 <= i < |evs| && evs[i].body.MilestoneShipped? && evs[i].body.milestone.id == id
  }

  predicate RevertAt(evs: seq<Event>, i: int, id: string) {
    0 <= i < |evs| && evs[i].body.MilestoneReverted? && evs[i].body.milestone.id == id
  }

  /** No revert of `id` strictly between positions `i` and `j`. */
  ghost predicate Quiet(evs: seq<Event>, i: int, j: int, id: string) {
    forall r :: i < r < j ==> !RevertAt(evs, r, id)
  }

  /** No revert of `id` after position `i`. */
  ghost predicate Stands(evs: seq<Event>, i: int, id: string) { Quiet(evs, i, |evs|, id) }

  /** `i` is the first ship of `id` since its last revert (or ever, if it was never reverted). */
  ghost predicate LiveShip(evs: seq<Event>, i: int, id: string) {
    && ShipAt(evs, i, id) && Stands(evs, i, id)
    && forall k :: 0 <= k < i && ShipAt(evs, k, id) ==> !Quiet(evs, k, i, id)
  }

  /** The `q`-th listed milestone is the value shipped at the live ship `at[q]`. */
  ghost predicate NamesLiveShips(evs: seq<Event>, ms: seq<Milestone>, at: seq<nat>) {
    && |at| == |ms|
    && forall q :: 0 <= q < |at| ==> LiveShip(evs, at[q], ms[q].id) && evs[at[q]].body.milestone == ms[q]
  }

  ghost predicate CoversLiveShips(evs: seq<Event>, at: seq<nat>) {
    forall i, id :: LiveShip(evs, i, id) ==> i in at
  }

  /** `ms` lists exactly the live ships of `evs`, at positions `at`, oldest first. */
  ghost predicate IsLiveListing(evs: seq<Event>, ms: seq<Milestone>, at: seq<nat>) {
    Ascending(at) && NamesLiveShips(evs, ms, at) && CoversLiveShips(evs, at)
  }

  lemma LiveShipsDiffer(evs: seq<Event>, i: int, j: int, id: string)
    requires i < j && LiveShip(evs, i, id)
    ensures !LiveShip(evs, j, id)
  {
    assert Quiet(evs, i, j, id) || !Stands(evs, i, id);
  }

  lemma ListingDistinct(evs: seq<Event>, ms: seq<Milestone>, at: seq<nat>)
    requires IsLiveListing(evs, ms, at)
    ensures DistinctIds(ms)
  {
    forall p, q | 0 <= p < q < |ms| ensures ms[p].id != ms[q].id {
      LiveShipsDiffer(evs, at[p], at[q], ms[p].id);
    }
  }

  /** A ship that still stands implies a live ship of the same id. */
  lemma {:induction false} StandingShipIsLive(evs: seq<Event>, k: nat, id: string) returns (i: nat)
    requires ShipAt(evs, k, id) && Stands(evs, k, id)
    ensures i <= k && LiveShip(evs, i, id)
  {
    if LiveShip(evs, k, id) {
      i := k;
    } else {
      var j: nat :| j < k && ShipAt(evs, j, id) && Quiet(evs, j, k, id);
      i := StandingShipIsLive(evs, j, id);
    }
  }

  lemma {:induction false} WithoutAbsent(ms: seq<Milestone>, id: string)
    requires forall m :: m in ms ==> m.id != id
    ensures Without(ms, id) == ms
  {
    if ms != [] {
      var n := |ms| - 1;
      assert ms == ms[..n] + [ms[n]];
      assert forall m :: m in ms[..n] ==> m in ms;
      WithoutAbsent(ms[..n], id);
    }
  }

  lemma {:induction false} WithoutDistinct(ms: seq<Milestone>, q: nat)
    requires q < |ms| && DistinctIds(ms)
    ensures Without(ms, ms[q].id) == ms[..q] + ms[q + 1..]
  {
    var n := |ms| - 1;
    if q == n {
      WithoutAbsent(ms[..n], ms[q].id);
    } else {
      WithoutDistinct(ms[..n], q);
      assert ms[..n][..q] + ms[..n][q + 1..] + [ms[n]] == ms[..q] + ms[q + 1..];
    }
  }

  /** Appending an event ends the liveness of earlier ships only by reverting their id. */
  lemma LiveShipStep(prev: seq<Event>, e: Event, i: int, id: string)
    requires i < |prev|
    ensures LiveShip(prev + [e], i, id) <==> LiveShip(prev, i, id) && !RevertAt(prev + [e], |prev|, id)
  {
    var evs := prev + [e];
    assert forall k :: k < |prev| ==> ShipAt(evs, k, id) == ShipAt(prev, k, id) && RevertAt(evs, k, id) == RevertAt(prev, k, id);
    assert forall k :: Quiet(evs, k, i, id) == Quiet(prev, k, i, id);
    assert Stands(evs, i, id) == (Stands(prev, i, id) && !RevertAt(evs, |prev|, id));
  }

  /** What an event that is not a revert of `id` leaves of a listing. */
  lemma ListingKept(prev: seq<Event>, e: Event, ms: seq<Milestone>, at: seq<nat>)
    requires NamesLiveShips(prev, ms, at)
    requires forall q :: 0 <= q < |ms| ==> !RevertAt(prev + [e], |prev|, ms[q].id)
    ensures NamesLiveShips(prev + [e], ms, at)
  {
    forall q | 0 <= q < |at| ensures LiveShip(prev + [e], at[q], ms[q].id) { LiveShipStep(prev, e, at[q], ms[q].id); }
  }

  /** Appending an event makes no earlier ship live. */
  lemma NoneRevived(prev: seq<Event>, e: Event, at: seq<nat>)
    requires CoversLiveShips(prev, at)
    ensures forall i, id :: i < |prev| && LiveShip(prev + [e], i, id) ==> i in at
  {
    hide LiveShip;
    forall i, id | i < |prev| && LiveShip(prev + [e], i, id) ensures i in at {
      LiveAtPosition(prev + [e], i, id);
      LiveShipStep(prev, e, i, id);
    }
  }

  lemma LiveAtPosition(evs: seq<Event>, i: int, id: string)
    requires LiveShip(evs, i, id)
    ensures 0 <= i < |evs| && evs[i].body.MilestoneShipped?
  {}

  /** After an event that ships nothing the same positions cover the live ships. */
  lemma CoverKept(prev: seq<Event>, e: Event, at: seq<nat>)
    requires CoversLiveShips(prev, at) && !e.body.MilestoneShipped?
    ensures CoversLiveShips(prev + [e], at)
  {
    NoneRevived(prev, e, at);
    hide LiveShip;
    forall i, id | LiveShip(prev + [e], i, id) ensures i in at { LiveAtPosition(prev + [e], i, id); }
  }

  lemma LiveIsListed(evs: seq<Event>, ms: seq<Milestone>, at: seq<nat>, i: nat, id: string)
    requires IsLiveListing(evs, ms, at) && LiveShip(evs, i, id)
    ensures Lists(ms, id)
  {
    var q :| 0 <= q < |at| && at[q] == i;
    assert ms[q] in ms && ms[q].id == id;
  }

  lemma NewShipIsLive(prev: seq<Event>, e: Event, ms: seq<Milestone>, at: seq<nat>)
    requires e.body.MilestoneShipped? && IsLiveListing(prev, ms, at) && !Lists(ms, e.body.milestone.id)
    ensures LiveShip(prev + [e], |prev|, e.body.milestone.id)
  {
    var evs, n, id := prev + [e], |prev|, e.body.milestone.id;
    forall k | 0 <= k < n && ShipAt(evs, k, id) ensures !Quiet(evs, k, n, id) {
      if Quiet(evs, k, n, id) {
        assert Quiet(prev, k, n, id) by {
          assert forall r :: k < r < n ==> RevertAt(prev, r, id) == RevertAt(evs, r, id);
        }
        assert ShipAt(prev, k, id);
        var i := StandingShipIsLive(prev, k, id);
        LiveIsListed(prev, ms, at, i, id);
      }
    }
  }

  lemma ListingAfterShip(prev: seq<Event>, e: Event, ms: seq<Milestone>, at: seq<nat>) returns (at': seq<nat>)
    requires e.body.MilestoneShipped? && IsLiveListing(prev, ms, at)
    ensures IsLiveListing(prev + [e], ShipStep(ms, e.body), at')
  {
    var evs, n, m := prev + [e], |prev|, e.body.milestone;
    ListingKept(prev, e, ms, at);
    if Lists(ms, m.id) {
      at' := at;
      var q :| 0 <= q < |ms| && ms[q].id == m.id;
      LiveShipsDiffer(evs, at[q], n, m.id);
    } else {
      at' := at + [n];
      NewShipIsLive(prev, e, ms, at);
      assert NamesLiveShips(evs, ms + [m], at');
    }
    NoneRevived(prev, e, at);
    forall i, id | LiveShip(evs, i, id) ensures i in at' { LiveAtPosition(evs, i, id); }
  }

  lemma DropOne(evs: seq<Event>, ms: seq<Milestone>, at: seq<nat>, q: nat)
    requires Ascending(at) && NamesLiveShips(evs, ms, at) && q < |at|
    ensures Ascending(at[..q] + at[q + 1..])
    ensures NamesLiveShips(evs, ms[..q] + ms[q + 1..], at[..q] + at[q + 1..])
    ensures forall i :: i in at && i != at[q] ==> i in at[..q] + at[q + 1..]
  {
    forall i | i in at && i != at[q] ensures i in at[..q] + at[q + 1..] {
      var p :| 0 <= p < |at| && at[p] == i;
      assert i == if p < q then at[..q][p] else at[q + 1..][p - q - 1];
    }
  }

  lemma RevertCovers(prev: seq<Event>, e: Event, at: seq<nat>, at': seq<nat>, gone: nat)
    requires e.body.MilestoneReverted? && CoversLiveShips(prev, at)
    requires ShipAt(prev, gone, e.body.milestone.id)
    requires forall i :: i in at && i != gone ==> i in at'
    ensures CoversLiveShips(prev + [e], at')
  {
    assert RevertAt(prev + [e], |prev|, e.body.milestone.id);
    forall i, x | LiveShip(prev + [e], i, x) ensures i in at' { LiveShipStep(prev, e, i, x); }
  }

  lemma DropOneLeavesNone(ms: seq<Milestone>, rest: seq<Milestone>, q: nat)
    requires DistinctIds(ms) && q < |ms| && rest == ms[..q] + ms[q + 1..]
    ensures forall p :: 0 <= p < |rest| ==> rest[p].id != ms[q].id
  {
    forall p | 0 <= p < |rest| ensures rest[p].id != ms[q].id {
      assert rest[p] == if p < q then ms[p] else ms[p + 1];
    }
  }

  lemma RevertDropsListed(prev: seq<Event>, e: Event, ms: seq<Milestone>, at: seq<nat>, q: nat)
    requires e.body.MilestoneReverted? && IsLiveListing(prev, ms, at) && DistinctIds(ms)
    requires q < |ms| && ms[q].id == e.body.milestone.id
    ensures IsLiveListing(prev + [e], ms[..q] + ms[q + 1..], at[..q] + at[q + 1..])
  {
    DropOne(prev, ms, at, q);
    DropOneLeavesNone(ms, ms[..q] + ms[q + 1..], q);
    ListingKept(prev, e, ms[..q] + ms[q + 1..], at[..q] + at[q + 1..]);
    RevertCovers(prev, e, at, at[..q] + at[q + 1..], at[q]);
  }

  lemma ListingAfterRevert(prev: seq<Event>, e: Event, ms: seq<Milestone>, at: seq<nat>) returns (at': seq<nat>)
    requires e.body.MilestoneReverted? && IsLiveListing(prev, ms, at)
    ensures IsLiveListing(prev + [e], ShipStep(ms, e.body), at')
  {
    if q :| 0 <= q < |ms| && ms[q].id == e.body.milestone.id {
      ListingDistinct(prev, ms, at);
      hide LiveShip, NamesLiveShips, CoversLiveShips;
      RevertDropsListed(prev, e, ms, at, q);
      WithoutDistinct(ms, q);
      at' := at[..q] + at[q + 1..];
    } else {
      at' := at;
      WithoutAbsent(ms, e.body.milestone.id);
      ListingKept(prev, e, ms, at);
      CoverKept(prev, e, at);
    }
  }

  /**
   The running list is the declarative one: each id once, exactly when some ship of it stands,
   carrying the value of the first ship since the last revert, in the order of those ships.
   */
  lemma {:induction false} ShippedMeaning(evs: seq<Event>) returns (at: seq<nat>)
    ensures IsLiveListing(evs, ShippedIn(evs), at)
  {
    if evs == [] {
      at := [];
    } else {
      var n := |evs| - 1;
      at := ShippedMeaning(evs[..n]);
      assert evs == evs[..n] + [evs[n]];
      if evs[n].body.MilestoneShipped? {
        at := ListingAfterShip(evs[..n], evs[n], ShippedIn(evs[..n]), at);
      } else if evs[n].body.MilestoneReverted? {
        at := ListingAfterRevert(evs[..n], evs[n], ShippedIn(evs[..n]), at);
      } else {
        ListingKept(evs[..n], evs[n], ShippedIn(evs), at);
        CoverKept(evs[..n], evs[n], at);
      }
    }
  }

  /** An id is in the shipped list exactly when some ship of it has no later revert. */
  lemma ShippedExactly(evs: seq<Event>, id: string)
    ensures Lists(ShippedIn(evs), id) <==> exists i :: ShipAt(evs, i, id) && Stands(evs, i, id)
    ensures DistinctIds(ShippedIn(evs))
  {
    var at := ShippedMeaning(evs);
    var ms := ShippedIn(evs);
    ListingDistinct(evs, ms, at);
    if Lists(ms, id) {
      var q :| 0 <= q < |ms| && ms[q].id == id;
      assert LiveShip(evs, at[q], id);
    }
    if k :| ShipAt(evs, k, id) && Stands(evs, k, id) {
      var i := StandingShipIsLive(evs, k, id);
      var q :| 0 <= q < |at| && at[q] == i;
      assert ms[q] in ms;
    }
  }
}
