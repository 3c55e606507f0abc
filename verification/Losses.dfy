/**
 How a hook's proposal can be lost after all. A queued proposal can vanish exactly under the spilling
 policy, whatever the cap; and under the other policy a full queue and an orphan log that cannot be
 written lose the proposal of the moment. Both by runs built here, in which every append fails to load.
 */
module Losses {
  import opened Options
  import opened Events
  import opened Batch
  import opened FsStorage
  import opened FileRepository
  import opened Writers
  import opened Hooks
  import Queue

  // ----- building a run -----

  lemma Extend(w: Workflow, c: Codec, config: QueueConfig, run: seq<World>, steps: seq<Step>, step: Step, x: World)
    requires IsWorldRun(w, c, config, run, steps)
    requires NextWorld(w, c, run[|steps|], step, x) && Calm(run[|steps|], step)
    ensures IsWorldRun(w, c, config, run + [x], steps + [step])
  {
    hide NextWorld, Calm;
    var run', steps' := run + [x], steps + [step];
    forall i | 0 <= i < |steps'| ensures NextWorld(w, c, run'[i], steps'[i], run'[i + 1]) && Calm(run'[i], steps'[i]) {
      if i < |steps| { assert NextWorld(w, c, run[i], steps[i], run[i + 1]) && Calm(run[i], steps[i]); }
    }
  }

  function Busy(p: Proposal, since: nat): Writer { Appending([p], BestEffort, since, 0, None) }

  function Broken(p: Proposal, since: nat): Writer { Replied([p], BestEffort, since, Errored(Storage(IoError))) }

  /** `x` with one writer and one hook set. */
  function With(x: World, k: WriterId, writer: Writer, hook: Hook): World {
    x.(sys := x.sys.(writers := x.sys.writers[k := writer]), hooks := x.hooks[k := hook])
  }

  predicate Free(x: World, k: WriterId) { k !in x.sys.writers && k !in x.hooks && k !in x.drains }

  lemma Overwrites(x: World, k: WriterId, writer: Writer, hook: Hook, writer': Writer, hook': Hook)
    ensures
      var y := With(x, k, writer, hook);
      && y.sys.writers[k := writer'] == x.sys.writers[k := writer']
      && y.hooks[k := hook'] == x.hooks[k := hook']
  {}

  lemma ArriveStep(w: Workflow, c: Codec, x: World, k: WriterId, p: Proposal)
    requires Free(x, k)
    ensures NextWorld(w, c, x, Arrive(k, p), With(x, k, Busy(p, |x.sys.history|), Trying(p, 0)))
  {}

  lemma FailStep(w: Workflow, c: Codec, x: World, k: WriterId, p: Proposal, n: nat)
    ensures
      var since := |x.sys.history|;
      NextWorld(w, c, With(x, k, Busy(p, since), Trying(p, n)), Inner(LoadFails(k)), With(x, k, Broken(p, since), Trying(p, n)))
  {
    Overwrites(x, k, Busy(p, |x.sys.history|), Trying(p, n), Broken(p, |x.sys.history|), Trying(p, n));
  }

  lemma RetryStep(w: Workflow, c: Codec, x: World, k: WriterId, p: Proposal, n: nat)
    requires n + 1 < Queue.POST_TOOL_MAX_ATTEMPTS
    ensures
      var since := |x.sys.history|;
      NextWorld(w, c, With(x, k, Broken(p, since), Trying(p, n)), Return(k), With(x, k, Busy(p, since), Trying(p, n + 1)))
  {
    Overwrites(x, k, Broken(p, |x.sys.history|), Trying(p, n), Busy(p, |x.sys.history|), Trying(p, n + 1));
  }

  lemma GiveUpStep(w: Workflow, c: Codec, x: World, k: WriterId, p: Proposal, n: nat)
    requires n + 1 == Queue.POST_TOOL_MAX_ATTEMPTS
    ensures
      var since := |x.sys.history|;
      NextWorld(w, c, With(x, k, Broken(p, since), Trying(p, n)), Return(k), With(x, k, Broken(p, since), Enqueueing(p)))
  {
    Overwrites(x, k, Broken(p, |x.sys.history|), Trying(p, n), Broken(p, |x.sys.history|), Enqueueing(p));
  }

  /** A new hook whose first `n` attempts have failed and which is at its next one, or has given up. */
  lemma {:induction false} FailedAttempts(
      w: Workflow, c: Codec, config: QueueConfig, run: seq<World>, steps: seq<Step>, k: WriterId, p: Proposal, n: nat)
    returns (run': seq<World>, steps': seq<Step>)
    requires IsWorldRun(w, c, config, run, steps) && Free(run[|steps|], k) && n < Queue.POST_TOOL_MAX_ATTEMPTS
    ensures IsWorldRun(w, c, config, run', steps') && run <= run'
    ensures run'[|steps'|] == With(run[|steps|], k, Broken(p, |run[|steps|].sys.history|), Trying(p, n))
    decreases n
  {
    hide NextWorld, InitWorld;
    var x, since := run[|steps|], |run[|steps|].sys.history|;
    var busy := With(x, k, Busy(p, since), Trying(p, n));
    if n == 0 {
      ArriveStep(w, c, x, k, p);
      Extend(w, c, config, run, steps, Arrive(k, p), busy);
      run', steps' := run + [busy], steps + [Arrive(k, p)];
    } else {
      run', steps' := FailedAttempts(w, c, config, run, steps, k, p, n - 1);
      RetryStep(w, c, x, k, p, n - 1);
      Extend(w, c, config, run', steps', Return(k), busy);
      run', steps' := run' + [busy], steps' + [Return(k)];
    }
    FailStep(w, c, x, k, p, n);
    var broken := With(x, k, Broken(p, since), Trying(p, n));
    Extend(w, c, config, run', steps', Inner(LoadFails(k)), broken);
    run', steps' := run' + [broken], steps' + [Inner(LoadFails(k))];
  }

  /** A new hook that has failed to append and turns to the queue; nothing else has changed. */
  lemma ToTheQueue(w: Workflow, c: Codec, config: QueueConfig, run: seq<World>, steps: seq<Step>, k: WriterId, p: Proposal)
    returns (run': seq<World>, steps': seq<Step>)
    requires IsWorldRun(w, c, config, run, steps) && Free(run[|steps|], k)
    ensures IsWorldRun(w, c, config, run', steps') && run <= run'
    ensures run'[|steps'|] == With(run[|steps|], k, Broken(p, |run[|steps|].sys.history|), Enqueueing(p))
  {
    hide NextWorld, InitWorld;
    var x, last: nat := run[|steps|], Queue.POST_TOOL_MAX_ATTEMPTS - 1;
    run', steps' := FailedAttempts(w, c, config, run, steps, k, p, last);
    GiveUpStep(w, c, x, k, p, last);
    var y := With(x, k, Broken(p, |x.sys.history|), Enqueueing(p));
    Extend(w, c, config, run', steps', Return(k), y);
    run', steps' := run' + [y], steps' + [Return(k)];
  }

  /** One more step of hook `k` alone, which leaves it as `hook` and the queue as `queue`. */
  lemma HookStep(w: Workflow, c: Codec, config: QueueConfig, run: seq<World>, steps: seq<Step>, step: Step, x: World)
    returns (run': seq<World>, steps': seq<Step>)
    requires IsWorldRun(w, c, config, run, steps) && NextWorld(w, c, run[|steps|], step, x) && !step.Inner?
    ensures IsWorldRun(w, c, config, run', steps') && run <= run' && run'[|steps'|] == x
  {
    hide NextWorld;
    Extend(w, c, config, run, steps, step, x);
    run', steps' := run + [x], steps + [step];
  }

  // ----- a queue holding n entries, the first of them `p` -----

  /** Hooks `0..n` have each queued a proposal under their own number: first `p`, then `q`s. Nothing else has happened. */
  ghost predicate Filled(x: World, config: QueueConfig, n: nat, p: Proposal, q: Proposal) {
    && x.config == config && x.sys.history == [] && x.drains == map[] && x.refused == {}
    && (forall k :: k in x.hooks || k in x.sys.writers ==> k < n)
    && (forall id: Queue.EntryId :: id in x.queue <==> id < n) && |x.queue| == n
    && (forall id :: id in x.queue ==> x.queue[id] == Queue.Entry(if id == 0 then p else q))
    && (n > 0 ==> 0 in x.hooks && x.hooks[0] == Settled(p, Queued))
  }

  lemma EmptyFilled(config: QueueConfig, p: Proposal, q: Proposal)
    ensures
      var x := World(Sys([], map[], []), map[], map[], map[], {}, {}, config);
      InitWorld(x) && Filled(x, config, 0, p, q)
  {}

  /** The entry of hook `n` is written. */
  lemma FilledNext(x: World, config: QueueConfig, n: nat, p: Proposal, q: Proposal, writer: Writer, y: World)
    requires Filled(x, config, n, p, q)
    requires
      var r := if n == 0 then p else q;
      y == With(x, n, writer, Settled(r, Queued)).(queue := x.queue[n := Queue.Entry(r)], spilled := y.spilled)
    ensures Filled(y, config, n + 1, p, q)
  {
    Queue.SizeAfterAdd(x.queue, n, Queue.Entry(if n == 0 then p else q));
  }

  lemma StoreSteps(w: Workflow, c: Codec, x: World, k: WriterId, p: Proposal, id: Queue.EntryId, writer: Writer)
    requires x.queue.Keys !! {id} && x.drains == map[]
    ensures
      var y := With(x, k, writer, Storing(p));
      NextWorld(w, c, y, WriteQueue(k, id, Queue.Sound),
                With(x, k, writer, Settled(p, Queued)).(queue := x.queue[id := Queue.Entry(p)]))
  {
    Overwrites(x, k, writer, Storing(p), writer, Settled(p, Queued));
  }

  lemma CountStep(w: Workflow, c: Codec, x: World, k: WriterId, p: Proposal, writer: Writer, orphanWritten: bool)
    ensures
      var y := With(x, k, writer, Enqueueing(p));
      NextWorld(w, c, y, CountQueue(k, Counted(orphanWritten)), With(x, k, writer, AfterCount(x, p, Counted(orphanWritten))))
  {
    Overwrites(x, k, writer, Enqueueing(p), writer, AfterCount(x, p, Counted(orphanWritten)));
  }

  /** Below the cap, hook `n` queues its proposal. */
  lemma FillOne(w: Workflow, c: Codec, config: QueueConfig, run: seq<World>, steps: seq<Step>, n: nat, p: Proposal, q: Proposal)
    returns (run': seq<World>, steps': seq<Step>)
    requires IsWorldRun(w, c, config, run, steps) && Filled(run[|steps|], config, n, p, q) && n < config.maxEntries
    ensures IsWorldRun(w, c, config, run', steps') && run <= run' && Filled(run'[|steps'|], config, n + 1, p, q)
  {
    var x, r := run[|steps|], if n == 0 then p else q;
    var broken := Broken(r, |x.sys.history|);
    assert Free(x, n) && n !in x.queue && |x.queue| < x.config.maxEntries && x.drains == map[];
    FilledNext(x, config, n, p, q, broken, With(x, n, broken, Settled(r, Queued)).(queue := x.queue[n := Queue.Entry(r)]));
    hide NextWorld, InitWorld, Filled;
    run', steps' := ToTheQueue(w, c, config, run, steps, n, r);
    CountStep(w, c, x, n, r, broken, true);
    run', steps' := HookStep(w, c, config, run', steps', CountQueue(n, Counted(true)), With(x, n, broken, Storing(r)));
    StoreSteps(w, c, x, n, r, n, broken);
    run', steps' := HookStep(w, c, config, run', steps', WriteQueue(n, n, Queue.Sound),
                             With(x, n, broken, Settled(r, Queued)).(queue := x.queue[n := Queue.Entry(r)]));
  }

  lemma {:induction false} Fill(w: Workflow, c: Codec, config: QueueConfig, n: nat, p: Proposal, q: Proposal)
    returns (run: seq<World>, steps: seq<Step>)
    requires n <= config.maxEntries
    ensures IsWorldRun(w, c, config, run, steps) && Filled(run[|steps|], config, n, p, q)
    decreases n
  {
    hide NextWorld, Filled;
    if n == 0 {
      EmptyFilled(config, p, q);
      run, steps := [World(Sys([], map[], []), map[], map[], map[], {}, {}, config)], [];
    } else {
      run, steps := Fill(w, c, config, n - 1, p, q);
      run, steps := FillOne(w, c, config, run, steps, n - 1, p, q);
    }
  }

  // ----- spilling -----

  /** At the cap, under the spilling policy, hook `k` removes the chosen entries. */
  lemma SpillSteps(w: Workflow, c: Codec, config: QueueConfig, run: seq<World>, steps: seq<Step>, k: WriterId, p: Proposal,
                   chosen: set<Queue.EntryId>)
    returns (run': seq<World>, steps': seq<Step>)
    requires IsWorldRun(w, c, config, run, steps) && Free(run[|steps|], k) && config == run[|steps|].config
    requires config.overflow.SpillOldest? && |run[|steps|].queue| >= config.maxEntries
    requires Queue.AreOldest(chosen, run[|steps|].queue.Keys, Queue.Surplus(run[|steps|].queue, config))
    ensures IsWorldRun(w, c, config, run', steps') && run <= run'
    ensures
      var x := run[|steps|];
      run'[|steps'|] ==
        With(x, k, Broken(p, |x.sys.history|), Storing(p)).(queue := x.queue - chosen, spilled := x.spilled + ProposalsAt(x.queue, chosen))
  {
    hide Queue.AreOldest, InitWorld, NextWorld, ProposalsAt;
    var x := run[|steps|];
    var broken := Broken(p, |x.sys.history|);
    var surplus := Queue.Surplus(x.queue, config);
    run', steps' := ToTheQueue(w, c, config, run, steps, k, p);
    CountStep(w, c, x, k, p, broken, true);
    run', steps' := HookStep(w, c, config, run', steps', CountQueue(k, Counted(true)), With(x, k, broken, Listing(p, surplus)));
    ListStep(w, c, x, k, p, broken, chosen, surplus);
    run', steps' := HookStep(w, c, config, run', steps', ListQueue(k, true, chosen), With(x, k, broken, Removing(p, chosen)));
    RemoveStep(w, c, x, k, p, broken, chosen);
    run', steps' := HookStep(w, c, config, run', steps', RemoveQueue(k, {}),
      With(x, k, broken, Storing(p)).(queue := x.queue - chosen, spilled := x.spilled + ProposalsAt(x.queue, chosen)));
  }

  lemma ListStep(w: Workflow, c: Codec, x: World, k: WriterId, p: Proposal, writer: Writer, chosen: set<Queue.EntryId>, surplus: nat)
    requires Queue.AreOldest(chosen, x.queue.Keys, surplus)
    ensures NextWorld(w, c, With(x, k, writer, Listing(p, surplus)), ListQueue(k, true, chosen), With(x, k, writer, Removing(p, chosen)))
  {
    hide Queue.AreOldest;
    Overwrites(x, k, writer, Listing(p, surplus), writer, Removing(p, chosen));
  }

  lemma RemoveStep(w: Workflow, c: Codec, x: World, k: WriterId, p: Proposal, writer: Writer, chosen: set<Queue.EntryId>)
    ensures NextWorld(w, c, With(x, k, writer, Removing(p, chosen)), RemoveQueue(k, {}),
                      With(x, k, writer, Storing(p)).(queue := x.queue - chosen, spilled := x.spilled + ProposalsAt(x.queue, chosen)))
  {
    Overwrites(x, k, writer, Removing(p, chosen), writer, Storing(p));
    assert chosen - {} == chosen;
  }

  /** The oldest of `0..n` is 0, as long as at least one of them goes. */
  lemma ZeroIsOldest(keys: set<Queue.EntryId>, n: nat, count: nat)
    requires n > 0 && |keys| == n && (forall id: Queue.EntryId :: id in keys <==> id < n) && count >= 1 && (count == 1 || n == 1)
    ensures Queue.AreOldest({0}, keys, count)
  {
    assert |{0}| == 1;
  }

  /** With a cap of zero the first hook finds the queue full, spills nothing, and is queued all the same. */
  lemma FillZeroCap(w: Workflow, c: Codec, config: QueueConfig, p: Proposal, q: Proposal) returns (run: seq<World>, steps: seq<Step>)
    requires config == Queue.QueueConfig(0, Queue.SpillOldest)
    ensures IsWorldRun(w, c, config, run, steps) && Filled(run[|steps|], config, 1, p, q)
  {
    run, steps := Fill(w, c, config, 0, p, q);
    var x := run[|steps|];
    assert x.queue == map[] && Free(x, 0) && x.config == config && x.drains == map[];
    assert Queue.AreOldest({}, x.queue.Keys, Queue.Surplus(x.queue, config));
    var broken := Broken(p, |x.sys.history|);
    var y := With(x, 0, broken, Settled(p, Queued)).(queue := x.queue[0 := Queue.Entry(p)], spilled := x.spilled + ProposalsAt(x.queue, {}));
    FilledNext(x, config, 0, p, q, broken, y);
    hide NextWorld, InitWorld, Filled, Queue.AreOldest;
    run, steps := SpillSteps(w, c, config, run, steps, 0, p, {});
    assert x.queue - {} == x.queue;
    var spilled := x.(spilled := x.spilled + ProposalsAt(x.queue, {}));
    StoreSteps(w, c, spilled, 0, p, 0, broken);
    run, steps := HookStep(w, c, config, run, steps, WriteQueue(0, 0, Queue.Sound), y);
  }

  /** In the last world of the run hook 0 was told its proposal is queued; it is neither queued any more nor recorded nor refused. */
  ghost predicate LosesQueued(
      w: Workflow, c: Codec, config: QueueConfig, run: seq<World>, steps: seq<Step>, i: int, j: int, k: WriterId, p: Proposal)
  {
    && IsWorldRun(w, c, config, run, steps) && 0 <= i <= j < |run|
    && k in run[i].hooks && run[i].hooks[k] == Settled(p, Queued) && !Kept(run[j], p)
  }

  lemma SpillLoses(w: Workflow, c: Codec, config: QueueConfig, n: nat, run: seq<World>, steps: seq<Step>, p: Proposal, q: Proposal)
    returns (run': seq<World>, steps': seq<Step>)
    requires config.overflow.SpillOldest? && n == (if config.maxEntries == 0 then 1 else config.maxEntries) && p != q
    requires IsWorldRun(w, c, config, run, steps) && Filled(run[|steps|], config, n, p, q)
    ensures LosesQueued(w, c, config, run', steps', |steps|, |steps'|, 0, p)
  {
    var x := run[|steps|];
    assert Free(x, n) && x.config == config && x.sys.history == [] && x.refused == {};
    ZeroIsOldest(x.queue.Keys, n, Queue.Surplus(x.queue, config));
    forall id | id in x.queue - {0} ensures (x.queue - {0})[id] == Queue.Entry(q) {}
    hide NextWorld, InitWorld, Queue.AreOldest, ProposalsAt;
    run', steps' := SpillSteps(w, c, config, run, steps, n, q, {0});
    assert run'[|steps|] == x;
    assert LogOf([]) == [];
  }

  /** A queued proposal can be lost to an enqueue in some run exactly when the policy is to spill, whatever the cap. */
  lemma QueuedLostExactly(w: Workflow, c: Codec, config: QueueConfig)
    requires Faithful(c)
    ensures (exists run, steps, i, j, k, p :: LosesQueued(w, c, config, run, steps, i, j, k, p)) <==> config.overflow.SpillOldest?
  {
    hide IsWorldRun, Filled, Kept;
    if config.overflow.SpillOldest? {
      var p, q := Switch("a"), Switch("b");
      assert p.body.toModel[0] != q.body.toModel[0];
      var run, steps;
      if config.maxEntries == 0 {
        run, steps := FillZeroCap(w, c, config, p, q);
        run, steps := SpillLoses(w, c, config, 1, run, steps, p, q);
      } else {
        run, steps := Fill(w, c, config, config.maxEntries, p, q);
        run, steps := SpillLoses(w, c, config, config.maxEntries, run, steps, p, q);
      }
    } else {
      forall run, steps, i, j, k, p ensures !LosesQueued(w, c, config, run, steps, i, j, k, p) {
        if LosesQueued(w, c, config, run, steps, i, j, k, p) { QueuedStays(w, c, config, run, steps, i, j, k, p); }
      }
    }
  }

  function Switch(to: string): Proposal { Proposal(Causation("hook", None, None, "PostToolUse"), "null", ModelSwitched("", to), None) }

  lemma QueuedStays(w: Workflow, c: Codec, config: QueueConfig, run: seq<World>, steps: seq<Step>, i: nat, j: nat, k: WriterId, p: Proposal)
    requires Faithful(c) && IsWorldRun(w, c, config, run, steps) && i <= j < |run| && config.overflow.RejectNew?
    requires k in run[i].hooks && run[i].hooks[k] == Settled(p, Queued)
    ensures Kept(run[j], p)
  {
    hide IsWorldRun, Kept;
    NeverSilentlyGone(w, c, config, run, steps, i, k);
    KeptForever(w, c, config, run, steps, i, j, p);
  }

  /**
   The orphan log hides its own write failures, so the promise that a proposal is never silently dropped
   fails there: under `RejectNew`, for every cap and every proposal, some run loses it and reports nothing.
   */
  lemma OrphanWriteCanLose(w: Workflow, c: Codec, config: QueueConfig, p: Proposal) returns (run: seq<World>, steps: seq<Step>)
    requires config.overflow.RejectNew?
    ensures IsWorldRun(w, c, config, run, steps)
    ensures exists k :: k in run[|steps|].hooks && run[|steps|].hooks[k] == Settled(p, OrphanLost)
    ensures !Kept(run[|steps|], p)
  {
    var q := if p == Switch("a") then Switch("b") else Switch("a");
    assert p != q by { assert Switch("a").body.toModel[0] != Switch("b").body.toModel[0]; }
    var n := config.maxEntries;
    run, steps := Fill(w, c, config, n, q, q);
    var x := run[|steps|];
    assert Free(x, n) && x.config == config && |x.queue| == n && x.refused == {} && LogOf(x.sys.history) == [];
    var broken := Broken(p, |x.sys.history|);
    var y := With(x, n, broken, Settled(p, OrphanLost));
    assert y.hooks[n] == Settled(p, OrphanLost) && !Kept(y, p);
    hide NextWorld, InitWorld, Filled, Kept;
    run, steps := ToTheQueue(w, c, config, run, steps, n, p);
    CountStep(w, c, x, n, p, broken, false);
    run, steps := HookStep(w, c, config, run, steps, CountQueue(n, Counted(false)), y);
  }
}
