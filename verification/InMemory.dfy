/**
 The in-memory repository for one unit: events and fingerprints pushed in place as proposals pass,
 truncated back when an all-or-nothing batch fails, the resume cache swapped in only on success.
 */
module InMemory {
  import opened Events
  import opened Ledger
  import opened Batch

  type Cache = map<string, string>

  class UnitState {
    var events: seq<Event>
    var fingerprints: seq<Fingerprint>
    var cache: Cache

    /** `fingerprints[i]` is the fingerprint of `events[i]`. */
    ghost predicate Valid()
      reads this
    {
      |fingerprints| == |events| && forall i :: 0 <= i < |events| ==> fingerprints[i] == FingerprintOf(events[i])
    }

    constructor ()
      ensures Valid() && events == [] && cache == map[]
    {
      events := [];
      fingerprints := [];
      cache := map[];
    }

    method Truncate(n: nat)
      requires Valid() && n <= |events|
      modifies this`events, this`fingerprints
      ensures Valid() && events == old(events)[..n]
    {
      events := events[..n];
      fingerprints := fingerprints[..n];
    }

    /** The proposal loop shared by `append` and `with_cache`; on a failed or rolled-back batch it truncates. */
    method PushAll(w: Workflow, offers: seq<Offer>, mode: AppendMode) returns (outcome: BatchOutcome)
      requires Valid()
      modifies this`events, this`fingerprints
      ensures Valid()
      ensures outcome == Outcome(w, old(events), offers, mode)
      ensures events == LogAfter(old(events), outcome)
    {
      RunAllEmpty(w, events, offers);
      hide Objection, RunAll, FirstViolation, Fingerprints, Stamp;
      ghost var log := events;
      var acceptedBefore := |events|;
      var accepted: seq<Event> := [];
      var rejected: seq<Rejection> := [];
      for i := 0 to |offers|
        invariant Valid()
        invariant RunAll(w, log, offers[..i]) == Run(events, accepted, rejected)
        invariant events == log + accepted
        invariant mode.AllOrNothing? ==> FirstViolation(rejected).None?
      {
        RunAllNext(w, log, offers, i);
        KnownFingerprints();
        var p := offers[i].proposal;
        var objection := Judge(w, events, fingerprints, p);
        if objection.Some? {
          FirstViolationNext(rejected, Rejection(p, objection.value));
          if mode.AllOrNothing? && objection.value.Violates? {
            FirstViolationStays(w, log, offers, i + 1);
            Truncate(acceptedBefore);
            return Failed(objection.value.error);
          }
          rejected := rejected + [Rejection(p, objection.value)];
          continue;
        }
        var e := EventFor(offers[i], LastAt(events));
        events := events + [e];
        fingerprints := fingerprints + [FingerprintOfProposal(p)];
        accepted := accepted + [e];
      }
      if mode.AllOrNothing? && rejected != [] {
        Truncate(acceptedBefore);
        return RolledBack(rejected);
      }
      return Committed(accepted, rejected);
    }

    lemma KnownFingerprints()
      requires Valid()
      ensures forall fp :: fp in fingerprints <==> fp in Fingerprints(events)
    {
      forall fp | fp in fingerprints ensures fp in Fingerprints(events) {
        var i :| 0 <= i < |fingerprints| && fingerprints[i] == fp;
        assert events[i] in events;
      }
      forall fp | fp in Fingerprints(events) ensures fp in fingerprints {
        var e :| e in events && FingerprintOf(e) == fp;
        var i :| 0 <= i < |events| && events[i] == e;
        assert fingerprints[i] == fp;
      }
    }

    method Append(w: Workflow, offers: seq<Offer>, mode: AppendMode) returns (outcome: BatchOutcome)
      requires Valid()
      modifies this`events, this`fingerprints
      ensures Valid()
      ensures outcome == Outcome(w, old(events), offers, mode)
      ensures events == LogAfter(old(events), outcome)
    {
      outcome := PushAll(w, offers, mode);
    }

    /** Snapshot-then-commit: the mutated cache becomes visible exactly when the batch commits. */
    method WithCache(w: Workflow, offers: seq<Offer>, mode: AppendMode, mutate: Cache -> Cache)
      returns (outcome: BatchOutcome)
      requires Valid()
      modifies this
      ensures Valid()
      ensures outcome == Outcome(w, old(events), offers, mode)
      ensures events == LogAfter(old(events), outcome)
      ensures cache == if outcome.Committed? then mutate(old(cache)) else old(cache)
    {
      var workingCache := mutate(cache);
      outcome := PushAll(w, offers, mode);
      if outcome.Committed? { cache := workingCache; }
    }
  }
}
