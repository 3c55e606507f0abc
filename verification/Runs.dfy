/** Building runs: one more event with a fresh id, stamped at any clock reading. */
module Runs {
  import opened Options
  import opened Events
  import opened Preconditions
  import opened Ledger

  function FreshId(log: seq<Event>): (id: EventId)
    ensures forall i :: 0 <= i < |log| ==> log[i].id < id
  {
    if log == [] then 0
    else
      var n := |log| - 1;
      var before := FreshId(log[..n]);
      if log[n].id < before then before else log[n].id + 1
  }

  function Next(log: seq<Event>, ext: Extension, body: Body): Event {
    Event(FreshId(log), Stamp(0, LastAt(log)), Causation("cli", None, None, "manual"), ext, body, None)
  }

  /** A payload the workflow's check lets through on every log. */
  ghost predicate Welcomed(w: Workflow, ext: Extension) {
    forall log :: w.checkExtension(ext, log).None?
  }

  lemma NextReachable(w: Workflow, log: seq<Event>, ext: Extension, body: Body)
    requires Reachable(w, log) && Welcomed(w, ext)
    requires Admission(w, log, body).Admitted? && Fingerprint(body, None) !in Fingerprints(log)
    ensures Extends(w, log, Next(log, ext, body)) && Reachable(w, log + [Next(log, ext, body)])
  {
    hide Admission;
    var e := Next(log, ext, body);
    assert e.at == Stamp(0, LastAt(log));
    assert (log + [e])[..|log + [e]| - 1] == log;
  }
}
