/**
 The hook path around the concurrent writers: each hook retries its append a bounded number of times,
 then queues the proposal, then falls back to the orphan log; drains replay queued proposals. An append
 may fail after it has taken effect, and an enqueue counts, lists, removes and writes in separate steps,
 with other hooks and drains in between.
 */
module Hooks {
  import opened Events
  import opened Ledger
  import opened Batch
  import opened FsStorage
  import opened FileRepository
  import opened Writers
  import Queue

  type Files = Queue.Files

  type QueueConfig = Queue.QueueConfig

  datatype Fate =
    | AppendedOk                          // an append returned a report
    | Queued                              // written to the queue
    | Orphaned                            // queue full: the drop is noted in the orphan log, the proposal itself is not
    | OrphanLost                          // queue full, and the orphan log hid that its own write failed
    | Surfaced(asPrecondition: bool)      // an error was returned to the caller

  datatype Hook =
    | Trying(p: Proposal, attempt: nat)
    | Enqueueing(p: Proposal)
    | Listing(p: Proposal, surplus: nat)
    | Removing(p: Proposal, chosen: set<Queue.EntryId>)
    | Storing(p: Proposal)
    | Settled(p: Proposal, fate: Fate)

  datatype Drain = Drain(entry: Queue.EntryId, p: Proposal)

  /** `refused`: what some returned report rejected for a precondition; `spilled`: what some spill removed from the queue. */
  datatype World = World(
    sys: Sys, hooks: map<WriterId, Hook>, drains: map<WriterId, Drain>, queue: Files, refused: set<Proposal>,
    spilled: set<Proposal>, config: QueueConfig)

  datatype Counting = Uncountable | Counted(orphanWritten: bool)

  datatype Step =
    | Arrive(k: WriterId, p: Proposal)
    | Inner(a: Action)
    | Return(k: WriterId)
    | CountQueue(k: WriterId, how: Counting)
    | ListQueue(k: WriterId, listed: bool, chosen: set<Queue.EntryId>)
    | RemoveQueue(k: WriterId, stuck: set<Queue.EntryId>)
    | WriteQueue(k: WriterId, id: Queue.EntryId, fault: Queue.EnqueueFault)
    | DrainTake(k: WriterId, id: Queue.EntryId)
    | DrainReturn(k: WriterId, removed: bool)

  ghost predicate InitWorld(x: World) { Init(x.sys) && x == World(x.sys, map[], map[], map[], {}, {}, x.config) }

  function RefusedBy(reply: Reply, p: Proposal): set<Proposal> {
    if reply.Reported? && RefusedIn(reply.rejected, p) then {p} else {}
  }

  /** The proposals in some of the files. */
  function ProposalsAt(files: Files, ids: set<Queue.EntryId>): set<Proposal> {
    set id | id in ids && id in files && files[id].Entry? :: files[id].p
  }

  predicate ReplyReady(x: World, k: WriterId) { k in x.sys.writers && x.sys.writers[k].Replied? }

  /** The hook's step after an append came back: done, or once more, or on to the queue. */
  ghost predicate Returns(w: Workflow, c: Codec, x: World, k: WriterId, x': World)
    requires k in x.hooks && x.hooks[k].Trying? && ReplyReady(x, k)
  {
    var p, n, reply := x.hooks[k].p, x.hooks[k].attempt, x.sys.writers[k].reply;
    match reply
    case Reported(_, _) => x' == x.(hooks := x.hooks[k := Settled(p, AppendedOk)], refused := x.refused + RefusedBy(reply, p))
    case Errored(error) =>
      if error.Precondition? then x' == x.(hooks := x.hooks[k := Settled(p, Surfaced(true))])
      else if n + 1 < Queue.POST_TOOL_MAX_ATTEMPTS then
        && Next(w, c, x.sys, Start(k, [p], BestEffort), x'.sys)
        && x' == x.(sys := x'.sys, hooks := x.hooks[k := Trying(p, n + 1)])
      else x' == x.(hooks := x.hooks[k := Enqueueing(p)])
  }

  /** The hook has counted the queue files: below the cap it may write; at the cap the policy decides. */
  function AfterCount(x: World, p: Proposal, how: Counting): Hook {
    if how.Uncountable? then Settled(p, Surfaced(false))
    else if |x.queue| < x.config.maxEntries then Storing(p)
    else if x.config.overflow.RejectNew? then Settled(p, if how.orphanWritten then Orphaned else OrphanLost)
    else Listing(p, Queue.Surplus(x.queue, x.config))
  }

  ghost predicate NextWorld(w: Workflow, c: Codec, x: World, step: Step, x': World) {
    match step
    case Arrive(k, p) =>
      && k !in x.sys.writers && k !in x.hooks && k !in x.drains
      && Next(w, c, x.sys, Start(k, [p], BestEffort), x'.sys)
      && x' == x.(sys := x'.sys, hooks := x.hooks[k := Trying(p, 0)])
    case Inner(a) =>
      && (a.Start? ==> a.k !in x.hooks && a.k !in x.drains)
      && Next(w, c, x.sys, a, x'.sys)
      && x' == x.(sys := x'.sys)
    case Return(k) => k in x.hooks && x.hooks[k].Trying? && ReplyReady(x, k) && Returns(w, c, x, k, x')
    case CountQueue(k, how) =>
      k in x.hooks && x.hooks[k].Enqueueing? && x' == x.(hooks := x.hooks[k := AfterCount(x, x.hooks[k].p, how)])
    case ListQueue(k, listed, chosen) =>
      && k in x.hooks && x.hooks[k].Listing?
      && var p := x.hooks[k].p;
         if !listed then x' == x.(hooks := x.hooks[k := Settled(p, Surfaced(false))])
         else Queue.AreOldest(chosen, x.queue.Keys, x.hooks[k].surplus) && x' == x.(hooks := x.hooks[k := Removing(p, chosen)])
    case RemoveQueue(k, stuck) =>
      && k in x.hooks && x.hooks[k].Removing?
      && var gone := x.hooks[k].chosen - stuck;
         x' == x.(hooks := x.hooks[k := Storing(x.hooks[k].p)], queue := x.queue - gone, spilled := x.spilled + ProposalsAt(x.queue, gone))
    case WriteQueue(k, id, fault) =>
      && k in x.hooks && x.hooks[k].Storing? && id !in x.queue && (forall j :: j in x.drains ==> x.drains[j].entry != id)
      && var p := x.hooks[k].p;
         var written := Queue.WriteEntry(x.queue, id, Queue.Entry(p), fault);
         x' == x.(hooks := x.hooks[k := Settled(p, if written.1.Written? then Queued else Surfaced(false))], queue := written.0)
    case DrainTake(k, id) =>
      && id in x.queue && x.queue[id].Entry? && k !in x.hooks && k !in x.drains
      && Next(w, c, x.sys, Start(k, [x.queue[id].p], BestEffort), x'.sys)
      && x' == x.(sys := x'.sys, drains := x.drains[k := Drain(id, x.queue[id].p)])
    case DrainReturn(k, removed) =>
      && k in x.drains && ReplyReady(x, k)
      && var d, reply := x.drains[k], x.sys.writers[k].reply;
         x' == x.(drains := x.drains - {k},
                  queue := if reply.Reported? && removed then x.queue - {d.entry} else x.queue,
                  refused := x.refused + RefusedBy(reply, d.p))
  }

  predicate Calm(x: World, step: Step) { step.Inner? ==> Undisturbed(x.sys, step.a) }

  /** A run of the whole under one queue configuration, in which no two storage appends overlap. */
  ghost predicate IsWorldRun(w: Workflow, c: Codec, config: QueueConfig, run: seq<World>, steps: seq<Step>) {
    && |run| == |steps| + 1 && InitWorld(run[0]) && run[0].config == config
    && forall i :: 0 <= i < |steps| ==> NextWorld(w, c, run[i], steps[i], run[i + 1]) && Calm(run[i], steps[i])
  }

  // ----- the invariant -----

  function WorldLog(x: World): seq<Event> { LogOf(x.sys.history) }

  predicate InQueue(x: World, p: Proposal) { exists id :: id in x.queue && x.queue[id] == Queue.Entry(p) }

  /** `p` is recorded, or still queued, or was turned down by a precondition in a report. */
  predicate Kept(x: World, p: Proposal) {
    FingerprintOfProposal(p) in Fingerprints(WorldLog(x)) || InQueue(x, p) || p in x.refused
  }

  /** Kept, or dropped from the queue by a spill. */
  predicate Accounted(x: World, p: Proposal) { Kept(x, p) || p in x.spilled }

  /** Writer `k` is working for, or has answered, exactly the one-proposal best-effort batch `[p]`. */
  predicate WorksFor(s: Sys, k: WriterId, p: Proposal) {
    k in s.writers && s.writers[k].proposals == [p] && s.writers[k].mode.BestEffort?
  }

  predicate HookOk(x: World, k: WriterId)
    requires k in x.hooks
  {
    match x.hooks[k]
    case Trying(p, attempt) => attempt < Queue.POST_TOOL_MAX_ATTEMPTS && WorksFor(x.sys, k, p)
    case Listing(_, _) => x.config.overflow.SpillOldest?
    case Removing(_, _) => x.config.overflow.SpillOldest?
    case Settled(p, fate) => (fate.AppendedOk? || fate.Queued? ==> Accounted(x, p)) && fate != Surfaced(true)
    case _ => true
  }

  predicate DrainOk(x: World, k: WriterId)
    requires k in x.drains
  {
    var d := x.drains[k];
    WorksFor(x.sys, k, d.p) && (d.entry in x.queue ==> x.queue[d.entry] == Queue.Entry(d.p))
  }

  ghost predicate WorldInv(w: Workflow, c: Codec, x: World) {
    && Inv(w, c, x.sys)
    && x.hooks.Keys !! x.drains.Keys
    && (forall k :: k in x.hooks ==> HookOk(x, k))
    && (forall k :: k in x.drains ==> DrainOk(x, k))
    && (x.config.overflow.RejectNew? ==> x.spilled == {})
  }

  /** What a returned report settles about its one proposal. */
  lemma ReportSettles(w: Workflow, c: Codec, x: World, k: WriterId, p: Proposal)
    requires Inv(w, c, x.sys) && WorksFor(x.sys, k, p) && ReplyReady(x, k) && x.sys.writers[k].reply.Reported?
    ensures FingerprintOfProposal(p) in Fingerprints(WorldLog(x)) || p in RefusedBy(x.sys.writers[k].reply, p)
  {
    hide Reachable, Holds, Serial, Fingerprints, CommitsBy;
    assert WriterOk(w, c, x.sys, k);
    assert p in [p];
  }

  /** A best-effort append is never answered with a precondition error. */
  lemma NoPreconditionReply(w: Workflow, c: Codec, x: World, k: WriterId, p: Proposal)
    requires Inv(w, c, x.sys) && WorksFor(x.sys, k, p) && ReplyReady(x, k)
    ensures x.sys.writers[k].reply.Errored? ==> !x.sys.writers[k].reply.error.Precondition?
  {
    hide Reachable, Holds, Serial, CommitsBy;
    assert WriterOk(w, c, x.sys, k);
  }

  /** Nothing accounted for is lost when log, refusals and spills grow, and each queue entry of `p` stays or is accounted for. */
  lemma AccountedStays(x: World, x': World, p: Proposal)
    requires Accounted(x, p) && x.sys.history <= x'.sys.history && x.refused <= x'.refused && x.spilled <= x'.spilled
    requires forall id :: id in x.queue && x.queue[id] == Queue.Entry(p) ==> (id in x'.queue && x'.queue[id] == x.queue[id]) || Accounted(x', p)
    ensures Accounted(x', p)
  {
    var a, b := WorldLog(x), WorldLog(x');
    LogOfPrefix(x.sys.history, x'.sys.history);
    assert b == a + b[|a|..];
    IdsConcat(a, b[|a|..]);
    if id :| id in x.queue && x.queue[id] == Queue.Entry(p) {
      if id in x'.queue && x'.queue[id] == x.queue[id] { assert InQueue(x', p); }
    }
  }

  /** Writer `j` goes on with the job it had. */
  predicate SameJob(s: Sys, s': Sys, j: WriterId) {
    j in s.writers ==> j in s'.writers && s'.writers[j].proposals == s.writers[j].proposals && s'.writers[j].mode == s.writers[j].mode
  }

  /** What every step does to the parts it shares: `k` is the hook that moves, if any. */
  ghost predicate Moves(x: World, x': World, k: WriterId) {
    && x'.config == x.config
    && x.sys.history <= x'.sys.history && x.refused <= x'.refused && x.spilled <= x'.spilled
    && (forall j :: j in x'.hooks && j != k ==> j in x.hooks && x'.hooks[j] == x.hooks[j])
    && (forall j :: j != k ==> SameJob(x.sys, x'.sys, j))
    && (forall id :: id in x.queue && x.queue[id].Entry? ==>
          (id in x'.queue && x'.queue[id] == x.queue[id]) || Accounted(x', x.queue[id].p))
  }

  lemma AccountedMoves(x: World, x': World, k: WriterId, p: Proposal)
    requires Moves(x, x', k) && Accounted(x, p)
    ensures Accounted(x', p)
  {
    hide Accounted;
    AccountedStays(x, x', p);
  }

  lemma HookStaysOk(x: World, x': World, k: WriterId, j: WriterId)
    requires j in x.hooks && HookOk(x, j) && Moves(x, x', k)
    requires j in x'.hooks && x'.hooks[j] == x.hooks[j] && SameJob(x.sys, x'.sys, j)
    ensures HookOk(x', j)
  {
    hide Accounted;
    if x.hooks[j].Settled? && (x.hooks[j].fate.AppendedOk? || x.hooks[j].fate.Queued?) { AccountedMoves(x, x', k, x.hooks[j].p); }
  }

  lemma HooksStayOk(x: World, x': World, k: WriterId)
    requires (forall j :: j in x.hooks ==> HookOk(x, j)) && Moves(x, x', k)
    ensures forall j :: j in x'.hooks && j != k ==> HookOk(x', j)
  {
    hide Accounted, HookOk;
    forall j | j in x'.hooks && j != k ensures HookOk(x', j) { HookStaysOk(x, x', k, j); }
  }

  /** A step of the storage protocol leaves every writer's job as it was, unless it starts one. */
  lemma InnerKeepsJobs(w: Workflow, c: Codec, s: Sys, a: Action, s': Sys)
    requires Next(w, c, s, a, s')
    ensures forall j :: (a.Start? ==> j != a.k) ==> SameJob(s, s', j)
  {
    hide PlanFor, SplitLines;
  }

  lemma InnerIs(w: Workflow, c: Codec, x: World, a: Action, x': World)
    requires NextWorld(w, c, x, Inner(a), x')
    ensures (a.Start? ==> a.k !in x.hooks && a.k !in x.drains) && Next(w, c, x.sys, a, x'.sys) && x' == x.(sys := x'.sys)
  {
    hide Next;
  }

  lemma InnerKeeps(w: Workflow, c: Codec, x: World, a: Action, x': World)
    requires Faithful(c) && WorldInv(w, c, x) && NextWorld(w, c, x, Inner(a), x') && Undisturbed(x.sys, a)
    ensures WorldInv(w, c, x') && Moves(x, x', a.k)
  {
    hide Inv, Accounted, Undisturbed, NextWorld, Next, Returns, HookOk;
    InnerIs(w, c, x, a, x');
    NextKeepsInv(w, c, x.sys, a, x'.sys);
    InnerKeepsJobs(w, c, x.sys, a, x'.sys);
    assert Moves(x, x', a.k);
    forall k | k in x'.hooks ensures HookOk(x', k) { assert SameJob(x.sys, x'.sys, k); HookStaysOk(x, x', a.k, k); }
    forall k | k in x'.drains ensures DrainOk(x', k) { assert DrainOk(x, k) && SameJob(x.sys, x'.sys, k); }
  }

  /** Starting an append for `p` on a writer id no drain uses: what it does to the rest. */
  lemma StartMoves(w: Workflow, c: Codec, x: World, k: WriterId, p: Proposal, x': World)
    requires Faithful(c) && WorldInv(w, c, x) && Next(w, c, x.sys, Start(k, [p], BestEffort), x'.sys) && k !in x.drains
    requires x'.queue == x.queue && x'.refused == x.refused && x'.spilled == x.spilled && x'.config == x.config
    requires forall j :: j in x'.hooks && j != k ==> j in x.hooks && x'.hooks[j] == x.hooks[j]
    ensures Inv(w, c, x'.sys) && WorksFor(x'.sys, k, p) && Moves(x, x', k)
    ensures forall j :: j in x'.hooks && j != k ==> HookOk(x', j)
    ensures forall j :: j in x.drains && j in x'.drains && x'.drains[j] == x.drains[j] ==> DrainOk(x', j)
  {
    hide Inv, Accounted;
    NextKeepsInv(w, c, x.sys, Start(k, [p], BestEffort), x'.sys);
    InnerKeepsJobs(w, c, x.sys, Start(k, [p], BestEffort), x'.sys);
    StartWorksFor(w, c, x.sys, k, p, x'.sys);
    hide Next;
    assert Moves(x, x', k);
    HooksStayOk(x, x', k);
    forall j | j in x.drains && j in x'.drains && x'.drains[j] == x.drains[j] ensures DrainOk(x', j) { assert DrainOk(x, j) && SameJob(x.sys, x'.sys, j); }
  }

  lemma StartWorksFor(w: Workflow, c: Codec, s: Sys, k: WriterId, p: Proposal, s': Sys)
    requires Next(w, c, s, Start(k, [p], BestEffort), s')
    ensures WorksFor(s', k, p)
  {}

  lemma ArriveKeeps(w: Workflow, c: Codec, x: World, k: WriterId, p: Proposal, x': World)
    requires Faithful(c) && WorldInv(w, c, x) && NextWorld(w, c, x, Arrive(k, p), x')
    ensures WorldInv(w, c, x') && Moves(x, x', k)
  {
    hide Inv, Accounted, Next, Moves;
    StartMoves(w, c, x, k, p, x');
  }

  lemma TakeKeeps(w: Workflow, c: Codec, x: World, k: WriterId, id: Queue.EntryId, x': World)
    requires Faithful(c) && WorldInv(w, c, x) && NextWorld(w, c, x, DrainTake(k, id), x')
    ensures WorldInv(w, c, x') && Moves(x, x', k)
  {
    hide Inv, Accounted, Next, Moves;
    StartMoves(w, c, x, k, x.queue[id].p, x');
  }

  lemma ReturnKeeps(w: Workflow, c: Codec, x: World, k: WriterId, x': World)
    requires Faithful(c) && WorldInv(w, c, x) && NextWorld(w, c, x, Return(k), x')
    ensures WorldInv(w, c, x') && Moves(x, x', k)
  {
    hide Inv, Accounted, Next;
    assert HookOk(x, k);
    var p, reply := x.hooks[k].p, x.sys.writers[k].reply;
    NoPreconditionReply(w, c, x, k, p);
    if reply.Errored? && x.hooks[k].attempt + 1 < Queue.POST_TOOL_MAX_ATTEMPTS {
      StartMoves(w, c, x, k, p, x');
    } else {
      SameSysMoves(w, c, x, k, x');
      if reply.Reported? {
        ReportSettles(w, c, x, k, p);
        AccountedBySettling(x', p);
      }
    }
  }

  lemma AccountedBySettling(x: World, p: Proposal)
    requires FingerprintOfProposal(p) in Fingerprints(WorldLog(x)) || p in x.refused
    ensures Accounted(x, p)
  {}

  /** A step of one hook that touches neither log nor queue. */
  lemma SameSysMoves(w: Workflow, c: Codec, x: World, k: WriterId, x': World)
    requires WorldInv(w, c, x) && x'.sys == x.sys && x'.queue == x.queue && x'.drains == x.drains
    requires x.refused <= x'.refused && x'.spilled == x.spilled && x'.config == x.config
    requires forall j :: j in x'.hooks && j != k ==> j in x.hooks && x'.hooks[j] == x.hooks[j]
    ensures Moves(x, x', k)
    ensures forall j :: j in x'.hooks && j != k ==> HookOk(x', j)
    ensures forall j :: j in x'.drains ==> DrainOk(x', j)
  {
    hide Inv, Accounted;
    assert Moves(x, x', k);
    HooksStayOk(x, x', k);
    forall j | j in x'.drains ensures DrainOk(x', j) { assert DrainOk(x, j) && SameJob(x.sys, x'.sys, j); }
  }

  lemma CountKeeps(w: Workflow, c: Codec, x: World, k: WriterId, how: Counting, x': World)
    requires WorldInv(w, c, x) && NextWorld(w, c, x, CountQueue(k, how), x')
    ensures WorldInv(w, c, x') && Moves(x, x', k)
  {
    hide Inv, Accounted, Moves;
    SameSysMoves(w, c, x, k, x');
  }

  lemma ListKeeps(w: Workflow, c: Codec, x: World, k: WriterId, listed: bool, chosen: set<Queue.EntryId>, x': World)
    requires WorldInv(w, c, x) && NextWorld(w, c, x, ListQueue(k, listed, chosen), x')
    ensures WorldInv(w, c, x') && Moves(x, x', k)
  {
    hide Inv, Accounted, Moves, Queue.AreOldest;
    assert HookOk(x, k);
    SameSysMoves(w, c, x, k, x');
  }

  lemma RemoveKeeps(w: Workflow, c: Codec, x: World, k: WriterId, stuck: set<Queue.EntryId>, x': World)
    requires WorldInv(w, c, x) && NextWorld(w, c, x, RemoveQueue(k, stuck), x')
    ensures WorldInv(w, c, x') && Moves(x, x', k)
  {
    hide Inv, Kept;
    assert HookOk(x, k);
    forall id | id in x.queue && x.queue[id].Entry?
      ensures (id in x'.queue && x'.queue[id] == x.queue[id]) || Accounted(x', x.queue[id].p) {}
    assert Moves(x, x', k);
    HooksStayOk(x, x', k);
    forall j | j in x'.drains ensures DrainOk(x', j) { assert DrainOk(x, j) && SameJob(x.sys, x'.sys, j); }
  }

  lemma WriteKeeps(w: Workflow, c: Codec, x: World, k: WriterId, id: Queue.EntryId, fault: Queue.EnqueueFault, x': World)
    requires WorldInv(w, c, x) && NextWorld(w, c, x, WriteQueue(k, id, fault), x')
    ensures WorldInv(w, c, x') && Moves(x, x', k)
  {
    hide Inv;
    assert Moves(x, x', k);
    HooksStayOk(x, x', k);
    forall j | j in x'.drains ensures DrainOk(x', j) { assert DrainOk(x, j) && SameJob(x.sys, x'.sys, j); }
    if x'.hooks[k].fate.Queued? { assert x'.queue[id] == Queue.Entry(x.hooks[k].p); }
  }

  lemma DrainReturnKeeps(w: Workflow, c: Codec, x: World, k: WriterId, removed: bool, x': World)
    requires WorldInv(w, c, x) && NextWorld(w, c, x, DrainReturn(k, removed), x')
    ensures WorldInv(w, c, x') && Moves(x, x', k)
  {
    hide Inv, Accounted, HookOk, Returns, Next;
    assert DrainOk(x, k);
    var d, reply := x.drains[k], x.sys.writers[k].reply;
    if reply.Reported? {
      ReportSettles(w, c, x, k, d.p);
      AccountedBySettling(x', d.p);
    }
    assert Moves(x, x', k);
    HooksStayOk(x, x', k);
    forall j | j in x'.drains ensures DrainOk(x', j) { assert DrainOk(x, j) && SameJob(x.sys, x'.sys, j); }
  }

  lemma StepKeepsInv(w: Workflow, c: Codec, x: World, step: Step, x': World) returns (k: WriterId)
    requires Faithful(c) && WorldInv(w, c, x) && NextWorld(w, c, x, step, x') && Calm(x, step)
    ensures WorldInv(w, c, x') && Moves(x, x', k)
  {
    hide WorldInv, NextWorld, Moves, Undisturbed;
    match step
    case Inner(a) => k := a.k; InnerKeeps(w, c, x, a, x');
    case Arrive(j, p) => k := j; ArriveKeeps(w, c, x, j, p, x');
    case Return(j) => k := j; ReturnKeeps(w, c, x, j, x');
    case CountQueue(j, how) => k := j; CountKeeps(w, c, x, j, how, x');
    case ListQueue(j, listed, chosen) => k := j; ListKeeps(w, c, x, j, listed, chosen, x');
    case RemoveQueue(j, stuck) => k := j; RemoveKeeps(w, c, x, j, stuck, x');
    case WriteQueue(j, id, fault) => k := j; WriteKeeps(w, c, x, j, id, fault, x');
    case DrainTake(j, id) => k := j; TakeKeeps(w, c, x, j, id, x');
    case DrainReturn(j, removed) => k := j; DrainReturnKeeps(w, c, x, j, removed, x');
  }

  /** Every step keeps the invariant and the configuration, and no step unaccounts for a proposal. */
  lemma NextWorldKeepsInv(w: Workflow, c: Codec, x: World, step: Step, x': World, p: Proposal)
    requires Faithful(c) && WorldInv(w, c, x) && NextWorld(w, c, x, step, x') && Calm(x, step)
    ensures WorldInv(w, c, x') && x'.config == x.config
    ensures Accounted(x, p) ==> Accounted(x', p)
  {
    hide WorldInv, NextWorld, Accounted;
    var k := StepKeepsInv(w, c, x, step, x');
    if Accounted(x, p) { AccountedMoves(x, x', k, p); }
  }

  // ----- over whole runs -----

  lemma {:induction false} WorldRunInv(w: Workflow, c: Codec, config: QueueConfig, run: seq<World>, steps: seq<Step>, i: nat)
    requires Faithful(c) && IsWorldRun(w, c, config, run, steps) && i < |run|
    ensures WorldInv(w, c, run[i]) && run[i].config == config
  {
    hide WorldInv, Calm;
    if i == 0 {
      StartOk(w, c, run[0]);
    } else {
      WorldRunInv(w, c, config, run, steps, i - 1);
      assert NextWorld(w, c, run[i - 1], steps[i - 1], run[i]);
      hide NextWorld;
      var k := StepKeepsInv(w, c, run[i - 1], steps[i - 1], run[i]);
    }
  }

  lemma StartOk(w: Workflow, c: Codec, x: World)
    requires InitWorld(x)
    ensures WorldInv(w, c, x)
  {
    InitInv(w, c, x.sys);
  }

  /** In every state of every run the log is a reachable ledger in which no fingerprint occurs twice. */
  lemma ExactlyOnce(w: Workflow, c: Codec, config: QueueConfig, run: seq<World>, steps: seq<Step>, i: nat, p: nat, q: nat)
    requires Faithful(c) && IsWorldRun(w, c, config, run, steps) && i < |run| && p < q < |WorldLog(run[i])|
    ensures FingerprintOf(WorldLog(run[i])[p]) != FingerprintOf(WorldLog(run[i])[q])
  {
    hide Extends, Holds, Serial, NextWorld;
    WorldRunInv(w, c, config, run, steps, i);
    EventsDistinct(w, WorldLog(run[i]), p, q);
  }

  /**
   Where a hook's proposal can be, under every queue configuration: still on its way; recorded, queued,
   refused in a report, or spilled; or given up in sight of someone - an error to the caller (never a
   precondition), a note in the orphan log - or with an orphan note that failed. Under `RejectNew`
   nothing is ever spilled.
   */
  lemma NeverSilentlyGone(w: Workflow, c: Codec, config: QueueConfig, run: seq<World>, steps: seq<Step>, i: nat, k: WriterId)
    requires Faithful(c) && IsWorldRun(w, c, config, run, steps) && i < |run| && k in run[i].hooks
    ensures run[i].hooks[k].Trying? ==> WorksFor(run[i].sys, k, run[i].hooks[k].p)
    ensures run[i].hooks[k].Settled? ==>
              var fate := run[i].hooks[k].fate;
              Accounted(run[i], run[i].hooks[k].p) || fate == Surfaced(false) || fate.Orphaned? || fate.OrphanLost?
    ensures config.overflow.RejectNew? ==> run[i].spilled == {}
  {
    hide Inv, Accounted, NextWorld;
    WorldRunInv(w, c, config, run, steps, i);
    assert HookOk(run[i], k);
  }

  /** In no run is an error surfaced because of a precondition. */
  lemma PreconditionsNeverSurface(w: Workflow, c: Codec, config: QueueConfig, run: seq<World>, steps: seq<Step>, i: nat, k: WriterId)
    requires Faithful(c) && IsWorldRun(w, c, config, run, steps) && i < |run| && k in run[i].hooks
    ensures !(run[i].hooks[k].Settled? && run[i].hooks[k].fate == Surfaced(true))
  {
    hide Inv, Accounted, NextWorld;
    WorldRunInv(w, c, config, run, steps, i);
    assert HookOk(run[i], k);
  }

  lemma {:induction false} AccountedForever(
      w: Workflow, c: Codec, config: QueueConfig, run: seq<World>, steps: seq<Step>, i: nat, j: nat, p: Proposal)
    requires Faithful(c) && IsWorldRun(w, c, config, run, steps) && i <= j < |run| && Accounted(run[i], p)
    ensures Accounted(run[j], p)
  {
    hide Accounted, WorldInv, Calm;
    if i < j {
      AccountedForever(w, c, config, run, steps, i, j - 1, p);
      WorldRunInv(w, c, config, run, steps, j - 1);
      assert NextWorld(w, c, run[j - 1], steps[j - 1], run[j]);
      hide NextWorld;
      NextWorldKeepsInv(w, c, run[j - 1], steps[j - 1], run[j], p);
    }
  }

  /** What was kept once is kept, or spilled, in every later state; under `RejectNew` it is kept. */
  lemma KeptForever(w: Workflow, c: Codec, config: QueueConfig, run: seq<World>, steps: seq<Step>, i: nat, j: nat, p: Proposal)
    requires Faithful(c) && IsWorldRun(w, c, config, run, steps) && i <= j < |run| && Kept(run[i], p)
    ensures Kept(run[j], p) || p in run[j].spilled
    ensures config.overflow.RejectNew? ==> Kept(run[j], p)
  {
    hide Kept, Inv, HookOk, DrainOk, NextWorld;
    AccountedForever(w, c, config, run, steps, i, j, p);
    WorldRunInv(w, c, config, run, steps, j);
  }

  // ----- how often a hook tries -----

  /** How many appends of hook `k` have come back. */
  function Returned(steps: seq<Step>, k: WriterId): nat {
    if steps == [] then 0
    else Returned(steps[..|steps| - 1], k) + if steps[|steps| - 1] == Return(k) then 1 else 0
  }

  /** Where a hook can be after `n` of its appends have come back. */
  predicate AfterReturns(x: World, k: WriterId, n: nat) {
    if k !in x.hooks then n == 0
    else
      match x.hooks[k]
      case Trying(_, attempt) => n == attempt < 3
      case Settled(_, AppendedOk) => 1 <= n <= 3
      case Settled(_, Surfaced(true)) => 1 <= n <= 3
      case _ => n == 3
  }

  lemma ReturnCounts(w: Workflow, c: Codec, x: World, step: Step, x': World, k: WriterId, n: nat)
    requires step.Return? && NextWorld(w, c, x, step, x') && AfterReturns(x, k, n)
    ensures AfterReturns(x', k, n + if step == Return(k) then 1 else 0)
  {
    hide Next, RefusedBy;
  }

  lemma QueueStepCounts(w: Workflow, c: Codec, x: World, step: Step, x': World, k: WriterId, n: nat)
    requires step.CountQueue? || step.ListQueue? || step.RemoveQueue? || step.WriteQueue?
    requires NextWorld(w, c, x, step, x') && AfterReturns(x, k, n)
    ensures AfterReturns(x', k, n)
  {
    hide Next, Returns, Queue.AreOldest, Queue.WriteEntry, Queue.Surplus, ProposalsAt;
  }

  lemma OtherStepCounts(w: Workflow, c: Codec, x: World, step: Step, x': World, k: WriterId, n: nat)
    requires step.Arrive? || step.Inner? || step.DrainTake? || step.DrainReturn?
    requires NextWorld(w, c, x, step, x') && AfterReturns(x, k, n)
    ensures AfterReturns(x', k, n)
  {
    hide Next, Returns, RefusedBy;
  }

  lemma ReturnsStep(w: Workflow, c: Codec, x: World, step: Step, x': World, k: WriterId, n: nat)
    requires NextWorld(w, c, x, step, x') && AfterReturns(x, k, n)
    ensures AfterReturns(x', k, n + if step == Return(k) then 1 else 0)
  {
    hide *;
    match step
    case Return(_) => ReturnCounts(w, c, x, step, x', k, n);
    case Arrive(_, _) => OtherStepCounts(w, c, x, step, x', k, n);
    case Inner(_) => OtherStepCounts(w, c, x, step, x', k, n);
    case DrainTake(_, _) => OtherStepCounts(w, c, x, step, x', k, n);
    case DrainReturn(_, _) => OtherStepCounts(w, c, x, step, x', k, n);
    case _ => QueueStepCounts(w, c, x, step, x', k, n);
  }

  /** A hook is queueing, queued, noted or given up on only after its append has failed three times; a report ends it sooner. */
  lemma {:induction false} ThreeAttempts(w: Workflow, c: Codec, config: QueueConfig, run: seq<World>, steps: seq<Step>, i: nat, k: WriterId)
    requires IsWorldRun(w, c, config, run, steps) && i < |run|
    ensures AfterReturns(run[i], k, Returned(steps[..i], k))
  {
    hide NextWorld, Calm;
    if i == 0 {
      NoneAtFirst(run[0], k);
    } else {
      hide AfterReturns;
      ThreeAttempts(w, c, config, run, steps, i - 1, k);
      assert NextWorld(w, c, run[i - 1], steps[i - 1], run[i]);
      ReturnsStep(w, c, run[i - 1], steps[i - 1], run[i], k, Returned(steps[..i - 1], k));
      assert steps[..i][..i - 1] == steps[..i - 1];
    }
  }

  lemma NoneAtFirst(x: World, k: WriterId)
    requires InitWorld(x)
    ensures AfterReturns(x, k, 0)
  {}

  // ----- an enqueue nobody interrupts -----

  /** What a hook makes of the answer to its enqueue. */
  predicate Heard(hook: Hook, p: Proposal, result: Queue.EnqueueResult, orphanWritten: bool) {
    match result
    case Written => hook == Settled(p, Queued)
    case Full(_, _) => hook == Settled(p, if orphanWritten then Orphaned else OrphanLost)
    case EnqueueError => hook == Settled(p, Surfaced(false))
  }

  /** A hook is done at the count exactly when the enqueue is: the count failed, or the queue is full under the rejecting policy. */
  lemma QuietRefusal(w: Workflow, c: Codec, x: World, k: WriterId, how: Counting, y: World, id: Queue.EntryId, result: Queue.EnqueueResult)
    requires NextWorld(w, c, x, CountQueue(k, how), y)
    ensures
      var e, fault := Queue.Entry(x.hooks[k].p), if how.Uncountable? then Queue.CountFails else Queue.Sound;
      && y.queue == x.queue && y.sys == x.sys
      && (Queue.EnqueueAttempt(x.queue, id, e, x.config, {}, fault, x.queue, result) && !result.Written? ==>
            Heard(y.hooks[k], x.hooks[k].p, result, how.Counted? && how.orphanWritten))
      && (y.hooks[k].Settled? ==>
            Queue.EnqueueAttempt(x.queue, id, e, x.config, {}, fault, x.queue,
                                 if how.Uncountable? then Queue.EnqueueError else Queue.Full(|x.queue|, x.config.maxEntries)))
  {
    hide Queue.AreOldest, Next, Returns, RefusedBy, ProposalsAt;
  }

  /** With nobody in between, count and write are the whole of an enqueue below the cap. */
  lemma QuietEnqueue(w: Workflow, c: Codec, x: World, k: WriterId, how: Counting, y: World, id: Queue.EntryId, fault: Queue.EnqueueFault, z: World)
    requires NextWorld(w, c, x, CountQueue(k, how), y) && NextWorld(w, c, y, WriteQueue(k, id, fault), z) && !fault.CountFails?
    ensures
      var p := x.hooks[k].p;
      var result := Queue.WriteEntry(x.queue, id, Queue.Entry(p), fault).1;
      && Queue.EnqueueAttempt(x.queue, id, Queue.Entry(p), x.config, {}, fault, z.queue, result)
      && Heard(z.hooks[k], p, result, false)
  {
    hide Queue.AreOldest, Next, Returns, RefusedBy, ProposalsAt;
  }

  /** And at the cap, under the spilling policy, count, list, remove and write are. */
  lemma QuietSpill(w: Workflow, c: Codec, x: World, k: WriterId, how: Counting, x1: World, chosen: set<Queue.EntryId>, x2: World,
                   stuck: set<Queue.EntryId>, x3: World, id: Queue.EntryId, fault: Queue.EnqueueFault, x4: World)
    requires NextWorld(w, c, x, CountQueue(k, how), x1) && NextWorld(w, c, x1, ListQueue(k, true, chosen), x2)
    requires NextWorld(w, c, x2, RemoveQueue(k, stuck), x3) && NextWorld(w, c, x3, WriteQueue(k, id, fault), x4)
    requires !fault.CountFails? && !fault.ListFails?
    ensures
      var p := x.hooks[k].p;
      var result := Queue.WriteEntry(x3.queue, id, Queue.Entry(p), fault).1;
      && Queue.EnqueueAttempt(x.queue, id, Queue.Entry(p), x.config, stuck, fault, x4.queue, result)
      && Heard(x4.hooks[k], p, result, false)
  {
    hide Queue.AreOldest, Queue.Surplus, Queue.WriteEntry, Next, Returns, RefusedBy, ProposalsAt;
    var result := Queue.WriteEntry(x3.queue, id, Queue.Entry(x.hooks[k].p), fault).1;
    Queue.WriteTold(x3.queue, id, Queue.Entry(x.hooks[k].p), fault, x4.queue, result);
    assert Queue.SpillsInTrouble(
      x.queue, chosen, Queue.Surplus(x.queue, x.config), stuck, id, Queue.Entry(x.hooks[k].p), fault, x4.queue, result);
  }

  /** Given the answer its append came to, a drain treats the entry it took as a drain that runs alone does. */
  lemma QuietDrain(w: Workflow, c: Codec, x: World, k: WriterId, removed: bool, x': World, log: seq<Event>, input: Queue.AppendInput, n: nat)
    requires NextWorld(w, c, x, DrainReturn(k, removed), x')
    requires Queue.AppendOne(w, log, x.drains[k].p, input).reply == x.sys.writers[k].reply
    ensures
      var d := x.drains[k];
      x'.queue == Queue.DrainStep(w, Queue.Progress(log, x.queue, n), d.entry, Queue.Entry(d.p), Queue.DrainInput(input, removed)).files
    ensures k !in x'.drains && x'.hooks == x.hooks && x'.sys == x.sys
  {
    hide Next, Returns, RefusedBy, ProposalsAt, Queue.AreOldest, Queue.AppendOne;
  }
}
