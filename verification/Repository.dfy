/** One call of `append` as its caller sees it: what it does to the log, what it answers, and how it may fail. */
module Repository {
  import opened Events
  import opened Batch
  import opened InMemory
  import opened ByteStrings
  import opened FsStorage
  import opened FileRepository

  /** Everything but a precondition: those are verdicts, not accidents. */
  type TransientError = e: RepoError | !e.Precondition? witness Undecodable

  datatype AppendFault = Healthy | FailsBefore(error: TransientError) | FailsAfter(error: TransientError)

  datatype Answer = Answer(log: seq<Event>, reply: Reply)

  /** An append may fail before anything is judged, or after the batch was committed. */
  ghost function AppendCall(w: Workflow, log: seq<Event>, offers: seq<Offer>, mode: AppendMode, fault: AppendFault): Answer {
    var o := Outcome(w, log, offers, mode);
    match fault
    case Healthy => Answer(LogAfter(log, o), ReplyFor(o))
    case FailsBefore(error) => Answer(log, Errored(error))
    case FailsAfter(error) => Answer(LogAfter(log, o), if o.Committed? then Errored(error) else ReplyFor(o))
  }

  method CallAppend(state: UnitState, w: Workflow, offers: seq<Offer>, mode: AppendMode, fault: AppendFault) returns (reply: Reply)
    requires state.Valid()
    modifies state`events, state`fingerprints
    ensures state.Valid()
    ensures Answer(state.events, reply) == AppendCall(w, old(state.events), offers, mode, fault)
  {
    hide Outcome;
    if fault.FailsBefore? { return Errored(fault.error); }
    var o := state.Append(w, offers, mode);
    return if fault.FailsAfter? && o.Committed? then Errored(fault.error) else ReplyFor(o);
  }

  /** The fault its caller meets when a file append's load fails, or the storage has this one on the way to a commit or not. */
  function Met(loads: bool, fault: Fault, commits: bool): AppendFault {
    if !loads || (commits && (fault.ReadFails? || fault.WriteFails?)) then FailsBefore(Storage(IoError))
    else if fault.SyncFails? then FailsAfter(Storage(IoError))
    else Healthy
  }

  /**
   The faults above are those of the file repository: undisturbed by others, whatever fails in it, what
   its caller is told and what the file then holds are those of the abstract call.
   */
  lemma FileCallIsAppendCall(
      w: Workflow, c: Codec, file: Bytes, events: seq<Event>, offers: seq<Offer>, mode: AppendMode, loads: bool, fault: Fault)
    requires Faithful(c) && Holds(w, c, file, events)
    ensures
      var a := FileRepository.Attempt(w, c, file, mode, Weather(loads, offers, file, file, fault));
      var r := AppendCall(w, events, offers, mode, Met(loads, fault, Outcome(w, events, offers, mode).Committed?));
      a.result == Done(r.reply) && Holds(w, c, a.file, r.log)
  {
    hide Outcome, LinesHold, SplitLines, NewLines, PlanFor, Combined;
    LoadedLengthPasses(file);
    if loads {
      AttemptIsAtomic(w, c, SplitLines(file), events, file, events, file, offers, mode, fault);
      PlanOnHolds(w, c, SplitLines(file), events, offers, mode);
    }
  }
}
