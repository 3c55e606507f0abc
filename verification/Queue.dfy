/**
 The on-disk retry queue: one file per entry, named by an increasing id. Enqueueing under a hard cap,
 dropping the oldest when asked to, draining in id order, and the bounded retry in front of it.
 */
module Queue {
  import opened Options
  import opened Events
  import opened Projections
  import opened Preconditions
  import opened Ledger
  import opened Batch
  import opened Sorting
  import opened InMemory
  import opened FileRepository
  import opened Repository

  type EntryId = nat

  /** A queue file: a proposal, or something that does not read back as one and is left for inspection. */
  datatype Entry = Entry(p: Proposal) | Garbled

  type Files = map<EntryId, Entry>

  datatype OverflowPolicy = RejectNew | SpillOldest

  datatype QueueConfig = QueueConfig(maxEntries: nat, overflow: OverflowPolicy)

  /** How an enqueue may go wrong; the last writes the entry and reports a failure all the same. */
  datatype EnqueueFault = Sound | CountFails | ListFails | WriteFails | SyncFails

  datatype EnqueueResult = Written | Full(size: nat, max: nat) | EnqueueError

  // ----- the directory listing -----

  /** `ids` is the sorted directory listing of `keys`. */
  ghost predicate IsListing(ids: seq<EntryId>, keys: set<EntryId>) {
    && Ascending(ids)
    && (forall k :: k in ids <==> k in keys)
  }

  lemma {:induction false} ListingSize(ids: seq<EntryId>, keys: set<EntryId>)
    requires IsListing(ids, keys)
    ensures |ids| == |keys|
  {
    if ids == [] {
      assert keys == {};
    } else {
      var n := |ids| - 1;
      assert ids == ids[..n] + [ids[n]];
      forall k ensures k in ids[..n] <==> k in keys - {ids[n]} {
        if k in ids[..n] { var i :| 0 <= i < n && ids[i] == k; }
      }
      ListingSize(ids[..n], keys - {ids[n]});
    }
  }

  lemma {:induction false} ListingUnique(a: seq<EntryId>, b: seq<EntryId>, keys: set<EntryId>)
    requires IsListing(a, keys) && IsListing(b, keys)
    ensures a == b
  {
    ListingSize(a, keys);
    ListingSize(b, keys);
    if a != [] {
      var n := |a| - 1;
      assert a[n] in b && b[n] in a;
      assert a == a[..n] + [a[n]] && b == b[..n] + [b[n]];
      ListingButLast(a, keys);
      ListingButLast(b, keys);
      ListingUnique(a[..n], b[..n], keys - {a[n]});
    }
  }

  lemma ListingButLast(ids: seq<EntryId>, keys: set<EntryId>)
    requires IsListing(ids, keys) && ids != []
    ensures IsListing(ids[..|ids| - 1], keys - {ids[|ids| - 1]})
  {
    var n := |ids| - 1;
    assert ids == ids[..n] + [ids[n]];
    forall k ensures k in ids[..n] <==> k in keys - {ids[n]} {
      if k in ids[..n] { var i :| 0 <= i < n && ids[i] == k; }
    }
  }

  lemma {:induction false} SmallestExists(keys: set<EntryId>) returns (m: EntryId)
    requires keys != {}
    ensures m in keys && forall k :: k in keys ==> m <= k
  {
    var any :| any in keys;
    m := any;
    if k :| k in keys && k < any {
      assert k in keys - {any};
      m := SmallestExists(keys - {any});
      forall j | j in keys ensures m <= j {
        if j != any { assert j in keys - {any}; }
      }
    }
  }

  /** Read the directory and sort the names. */
  method ListSorted(keys: set<EntryId>) returns (ids: seq<EntryId>)
    ensures IsListing(ids, keys)
  {
    ids := [];
    var rest := keys;
    while rest != {}
      invariant rest <= keys
      invariant IsListing(ids, keys - rest)
      invariant forall i, k :: 0 <= i < |ids| && k in rest ==> ids[i] < k
      decreases |rest|
    {
      ghost var least := SmallestExists(rest);
      var m :| m in rest && forall k :: k in rest ==> m <= k;
      ids := ids + [m];
      rest := rest - {m};
    }
    assert keys - {} == keys;
  }

  /** The `count` entries with the smallest ids. */
  ghost predicate AreOldest(dropped: set<EntryId>, keys: set<EntryId>, count: nat) {
    && dropped <= keys
    && |dropped| == (if count < |keys| then count else |keys|)
    && forall d, k :: d in dropped && k in keys - dropped ==> d < k
  }

  lemma OldestSize(dropped: set<EntryId>, keys: set<EntryId>, count: nat)
    requires AreOldest(dropped, keys, count)
    ensures dropped <= keys && |dropped| == (if count < |keys| then count else |keys|)
  {}

  lemma OldestOrder(dropped: set<EntryId>, keys: set<EntryId>, count: nat, d: EntryId, k: EntryId)
    requires AreOldest(dropped, keys, count) && d in dropped && k in keys && k !in dropped
    ensures d < k
  {
    assert k in keys - dropped;
  }

  lemma OldestUnique(a: set<EntryId>, b: set<EntryId>, keys: set<EntryId>, count: nat)
    requires AreOldest(a, keys, count) && AreOldest(b, keys, count)
    ensures a == b
  {
    if x :| x in a && x !in b {
      if y :| y in b && y !in a {
        OldestOrder(a, keys, count, x, y);
        OldestOrder(b, keys, count, y, x);
      } else {
        SubsetSize(b, a, x);
      }
    } else if y :| y in b && y !in a {
      SubsetSize(a, b, y);
    }
  }

  lemma SubsetSize(a: set<EntryId>, b: set<EntryId>, x: EntryId)
    requires a <= b && x in b && x !in a
    ensures |a| < |b|
  {
    assert |b| == |b - a| + |a|;
    assert x in b - a;
  }

  /** The ids of the first `n` names of a listing. */
  function FirstIds(ids: seq<EntryId>, n: nat): set<EntryId>
    requires n <= |ids|
  {
    set i | 0 <= i < n :: ids[i]
  }

  lemma FirstIdsNext(ids: seq<EntryId>, n: nat)
    requires n < |ids|
    ensures FirstIds(ids, n + 1) == FirstIds(ids, n) + {ids[n]}
  {}

  lemma NoFirstIds(ids: seq<EntryId>)
    ensures FirstIds(ids, 0) == {}
  {}

  /** `take(count)` of the sorted listing is the oldest `count`. */
  lemma TakeIsOldest(ids: seq<EntryId>, keys: set<EntryId>, count: nat)
    requires IsListing(ids, keys)
    ensures AreOldest(FirstIds(ids, if count < |ids| then count else |ids|), keys, count)
  {
    ListingSize(ids, keys);
    var n := if count < |ids| then count else |ids|;
    var dropped := FirstIds(ids, n);
    assert IsListing(ids[..n], dropped) by {
      forall k | k in ids[..n] ensures k in dropped { var i :| 0 <= i < n && ids[i] == k; }
      forall k | k in dropped ensures k in ids[..n] { var i :| 0 <= i < n && ids[i] == k; assert ids[..n][i] == k; }
    }
    ListingSize(ids[..n], dropped);
    forall d, k | d in dropped && k in keys - dropped ensures d < k {
      var i :| 0 <= i < n && ids[i] == d;
      var j :| 0 <= j < |ids| && ids[j] == k;
    }
  }

  /** How many of the oldest a spill drops from a full queue. */
  function Surplus(files: Files, config: QueueConfig): nat {
    if |files| < config.maxEntries then 0 else |files| - config.maxEntries + 1
  }

  /** One enqueue that meets no trouble, as a relation between the directory before and after. */
  ghost predicate Enqueues(files: Files, id: EntryId, e: Entry, config: QueueConfig, files': Files) {
    if |files| < config.maxEntries then files' == files[id := e]
    else if config.overflow.RejectNew? then files' == files
    else exists dropped :: Spills(files, dropped, Surplus(files, config), files', id, e)
  }

  /** The oldest `count` are gone and the new entry is there. */
  ghost predicate Spills(files: Files, dropped: set<EntryId>, count: nat, files': Files, id: EntryId, e: Entry) {
    AreOldest(dropped, files.Keys, count) && files' == (files - dropped)[id := e]
  }

  /** The write at the end: the entry is there unless the write failed, and the caller hears of either failure. */
  function WriteEntry(files: Files, id: EntryId, e: Entry, fault: EnqueueFault): (Files, EnqueueResult) {
    match fault
    case WriteFails => (files, EnqueueError)
    case SyncFails => (files[id := e], EnqueueError)
    case _ => (files[id := e], Written)
  }

  /** A spill in trouble: the oldest `count` were chosen, those not stuck are gone, and then comes the write. */
  ghost predicate SpillsInTrouble(
      files: Files, dropped: set<EntryId>, count: nat, stuck: set<EntryId>, id: EntryId, e: Entry, fault: EnqueueFault,
      files': Files, result: EnqueueResult)
  {
    AreOldest(dropped, files.Keys, count) && WriteEntry(files - (dropped - stuck), id, e, fault) == (files', result)
  }

  /** An enqueue with whatever may go wrong: `stuck` are the entries whose file cannot be removed. */
  ghost predicate EnqueueAttempt(
      files: Files, id: EntryId, e: Entry, config: QueueConfig, stuck: set<EntryId>, fault: EnqueueFault, files': Files, result: EnqueueResult)
  {
    if fault.CountFails? then files' == files && result == EnqueueError
    else if |files| < config.maxEntries then WriteEntry(files, id, e, fault) == (files', result)
    else if config.overflow.RejectNew? then files' == files && result == Full(|files|, config.maxEntries)
    else if fault.ListFails? then files' == files && result == EnqueueError
    else exists dropped :: SpillsInTrouble(files, dropped, Surplus(files, config), stuck, id, e, fault, files', result)
  }

  lemma NothingStuck(
      files: Files, dropped: set<EntryId>, count: nat, id: EntryId, e: Entry, files': Files, result: EnqueueResult)
    requires SpillsInTrouble(files, dropped, count, {}, id, e, Sound, files', result)
    ensures Spills(files, dropped, count, files', id, e) && result == Written
  {
    hide AreOldest;
    assert dropped - {} == dropped;
  }

  /** Without trouble an attempt is the plain relation, and only a full queue under `RejectNew` is refused. */
  lemma SoundAttempt(files: Files, id: EntryId, e: Entry, config: QueueConfig, files': Files, result: EnqueueResult)
    requires EnqueueAttempt(files, id, e, config, {}, Sound, files', result)
    ensures Enqueues(files, id, e, config, files')
    ensures result == if |files| >= config.maxEntries && config.overflow.RejectNew? then Full(|files|, config.maxEntries) else Written
  {
    hide Spills, SpillsInTrouble;
    if |files| >= config.maxEntries && config.overflow.SpillOldest? {
      var dropped :| SpillsInTrouble(files, dropped, Surplus(files, config), {}, id, e, Sound, files', result);
      NothingStuck(files, dropped, Surplus(files, config), id, e, files', result);
    }
  }

  lemma WriteTold(files: Files, id: EntryId, e: Entry, fault: EnqueueFault, files': Files, result: EnqueueResult)
    requires WriteEntry(files, id, e, fault) == (files', result)
    ensures result == if fault.WriteFails? || fault.SyncFails? then EnqueueError else Written
    ensures files' == if fault.WriteFails? then files else files[id := e]
  {}

  /** The entry `k` was among the oldest that a spill chose, and its file could be removed. */
  ghost predicate SpilledBy(files: Files, config: QueueConfig, stuck: set<EntryId>, k: EntryId) {
    exists dropped :: AreOldest(dropped, files.Keys, Surplus(files, config)) && k in dropped - stuck
  }

  /** What may have become of the directory: the new entry may be there, others only gone by a spill. */
  ghost predicate OnlySpilled(files: Files, id: EntryId, config: QueueConfig, stuck: set<EntryId>, files': Files) {
    && (forall k :: k in files' && k != id ==> k in files && files'[k] == files[k])
    && (forall k :: k in files && k !in files' ==> config.overflow.SpillOldest? && SpilledBy(files, config, stuck, k))
  }

  lemma SpillTold(files: Files, id: EntryId, e: Entry, config: QueueConfig, stuck: set<EntryId>, dropped: set<EntryId>, fault: EnqueueFault,
                  files': Files, result: EnqueueResult)
    requires SpillsInTrouble(files, dropped, Surplus(files, config), stuck, id, e, fault, files', result) && config.overflow.SpillOldest?
    ensures OnlySpilled(files, id, config, stuck, files')
    ensures result.Written? ==> id in files' && files'[id] == e
    ensures result == if fault.WriteFails? || fault.SyncFails? then EnqueueError else Written
  {
    hide AreOldest, WriteEntry;
    var kept := files - (dropped - stuck);
    WriteTold(kept, id, e, fault, files', result);
    forall k | k in files && k !in files' ensures SpilledBy(files, config, stuck, k) { assert k !in kept && k in dropped - stuck; }
  }

  /**
   What an enqueue's answer is worth, whatever went wrong. Written: the entry is there. Full: nothing
   changed, and the numbers are the size and the cap. An error: a step that was taken went wrong. And an
   entry that is gone was among the oldest `Surplus`, under the spilling policy.
   */
  lemma EnqueueTold(
      files: Files, id: EntryId, e: Entry, config: QueueConfig, stuck: set<EntryId>, fault: EnqueueFault, files': Files, result: EnqueueResult)
    requires EnqueueAttempt(files, id, e, config, stuck, fault, files', result)
    ensures result.Written? ==> id in files' && files'[id] == e
    ensures result.Full? <==> !fault.CountFails? && |files| >= config.maxEntries && config.overflow.RejectNew?
    ensures result.Full? ==> result == Full(|files|, config.maxEntries) && files' == files
    ensures result.EnqueueError? <==>
              fault.CountFails? || (!result.Full? && (fault.WriteFails? || fault.SyncFails? || (fault.ListFails? && |files| >= config.maxEntries)))
    ensures OnlySpilled(files, id, config, stuck, files')
  {
    hide SpillsInTrouble, SpilledBy, WriteEntry;
    if fault.CountFails? {
    } else if |files| < config.maxEntries {
      WriteTold(files, id, e, fault, files', result);
    } else if config.overflow.SpillOldest? && !fault.ListFails? {
      var dropped :| SpillsInTrouble(files, dropped, Surplus(files, config), stuck, id, e, fault, files', result);
      SpillTold(files, id, e, config, stuck, dropped, fault, files', result);
    }
  }

  lemma RemoveOneMore(files: Files, gone: set<EntryId>, stuck: set<EntryId>, x: EntryId)
    ensures x in stuck ==> files - ((gone + {x}) - stuck) == files - (gone - stuck)
    ensures x !in stuck ==> files - ((gone + {x}) - stuck) == (files - (gone - stuck)) - {x}
  {
    if x in stuck { assert (gone + {x}) - stuck == gone - stuck; } else { assert (gone + {x}) - stuck == (gone - stuck) + {x}; }
  }

  /** The queue directory. */
  class QueueDir {
    var files: Files

    constructor ()
      ensures files == map[]
    {
      files := map[];
    }

    /** Remove the files of the first `n` names; one that is stuck stays, and nobody is told. */
    method RemoveEach(ids: seq<EntryId>, n: nat, stuck: set<EntryId>)
      requires n <= |ids|
      modifies this
      ensures files == old(files) - (FirstIds(ids, n) - stuck)
    {
      ghost var before := files;
      NoFirstIds(ids);
      hide FirstIds;
      for done := 0 to n
        invariant files == before - (FirstIds(ids, done) - stuck)
      {
        FirstIdsNext(ids, done);
        RemoveOneMore(before, FirstIds(ids, done), stuck, ids[done]);
        if ids[done] !in stuck { files := files - {ids[done]}; }
      }
    }

    /** `spill_oldest`. */
    method Spill(count: nat, stuck: set<EntryId>) returns (ghost dropped: set<EntryId>)
      modifies this
      ensures AreOldest(dropped, old(files).Keys, count)
      ensures files == old(files) - (dropped - stuck)
    {
      var ids := ListSorted(files.Keys);
      TakeIsOldest(ids, files.Keys, count);
      hide AreOldest, IsListing, FirstIds;
      var n := if count < |ids| then count else |ids|;
      dropped := FirstIds(ids, n);
      RemoveEach(ids, n, stuck);
    }

    /** `enqueue_raw`: the cap first, then the write. */
    method EnqueueRaw(id: EntryId, e: Entry, config: QueueConfig, stuck: set<EntryId>, fault: EnqueueFault) returns (result: EnqueueResult)
      modifies this
      ensures EnqueueAttempt(old(files), id, e, config, stuck, fault, files, result)
    {
      hide AreOldest;
      ghost var before := files;
      if fault.CountFails? { return EnqueueError; }
      var current := |files|;
      if current >= config.maxEntries {
        if config.overflow.RejectNew? { return Full(current, config.maxEntries); }
        if fault.ListFails? { return EnqueueError; }
        var surplus := current - config.maxEntries + 1;
        ghost var dropped := Spill(surplus, stuck);
        result := PutEntry(id, e, fault);
        assert SpillsInTrouble(before, dropped, Surplus(before, config), stuck, id, e, fault, files, result);
        return;
      }
      result := PutEntry(id, e, fault);
    }

    method PutEntry(id: EntryId, e: Entry, fault: EnqueueFault) returns (result: EnqueueResult)
      modifies this
      ensures WriteEntry(old(files), id, e, fault) == (files, result)
    {
      if fault.WriteFails? { return EnqueueError; }
      files := files[id := e];
      return if fault.SyncFails? then EnqueueError else Written;
    }
  }

  // ----- bounds and the window -----

  lemma SizeAfterSpill(files: Files, dropped: set<EntryId>, id: EntryId, e: Entry)
    requires dropped <= files.Keys && id !in files
    ensures |(files - dropped)[id := e]| == |files| - |dropped| + 1
  {
    var kept := files.Keys - dropped;
    assert files.Keys == kept + dropped && kept !! dropped;
    assert |files.Keys| == |kept| + |dropped|;
    assert ((files - dropped)[id := e]).Keys == kept + {id};
  }

  lemma SizeAfterAdd(files: Files, id: EntryId, e: Entry)
    requires id !in files
    ensures |files[id := e]| == |files| + 1
  {
    assert files[id := e].Keys == files.Keys + {id};
    assert |files.Keys + {id}| == |files.Keys| + 1;
  }

  lemma SpillSize(files: Files, id: EntryId, e: Entry, count: nat, dropped: set<EntryId>, files': Files)
    requires Spills(files, dropped, count, files', id, e) && id !in files && count >= 1
    ensures |files'| == if count < |files| then |files| - count + 1 else 1
  {
    hide AreOldest;
    OldestSize(dropped, files.Keys, count);
    assert |files.Keys| == |files|;
    SizeAfterSpill(files, dropped, id, e);
  }

  /**
   Size after one enqueue of a new id. Under `RejectNew` a full queue is untouched and never passes the
   cap; under `SpillOldest` one enqueue brings any queue, however far over, down to the cap - unless
   the cap is zero, when it holds one entry all the same.
   */
  lemma EnqueueSize(files: Files, id: EntryId, e: Entry, config: QueueConfig, files': Files)
    requires Enqueues(files, id, e, config, files') && id !in files
    ensures |files| < config.maxEntries ==> |files'| == |files| + 1
    ensures |files| >= config.maxEntries && config.overflow.RejectNew? ==> files' == files
    ensures |files| >= config.maxEntries && config.overflow.SpillOldest? ==>
              |files'| == if config.maxEntries == 0 then 1 else config.maxEntries
    ensures |files| <= config.maxEntries ==> (|files'| <= config.maxEntries <==> config.maxEntries > 0 || config.overflow.RejectNew?)
  {
    hide Spills;
    if |files| < config.maxEntries {
      SizeAfterAdd(files, id, e);
    } else if config.overflow.SpillOldest? {
      var dropped :| Spills(files, dropped, Surplus(files, config), files', id, e);
      SpillSize(files, id, e, Surplus(files, config), dropped, files');
    }
  }

  /** Where the last `cap` of `n` entries begin. */
  function WindowStart(n: nat, cap: nat): (lo: nat)
    ensures lo <= n
  {
    if n < cap then 0 else n - cap
  }

  lemma Before(ids: seq<EntryId>, i: nat, j: nat)
    requires Ascending(ids) && i < j < |ids|
    ensures ids[i] < ids[j]
  {}

  predicate Among(ids: seq<EntryId>, lo: nat, n: nat, k: EntryId)
    requires n <= |ids|
  {
    exists i :: lo <= i < n && ids[i] == k
  }

  /** The directory holds exactly the last `cap` of the first `n` entries. */
  ghost predicate IsWindow(files: Files, ids: seq<EntryId>, es: seq<Entry>, n: nat, cap: nat)
    requires n <= |ids| == |es|
  {
    && |files| == n - WindowStart(n, cap)
    && (forall k :: k in files <==> Among(ids, WindowStart(n, cap), n, k))
    && (forall i :: WindowStart(n, cap) <= i < n ==> ids[i] in files && files[ids[i]] == es[i])
  }

  /** `states` is what the directory holds after each of the enqueues, ids increasing. */
  ghost predicate EnqueueRun(ids: seq<EntryId>, es: seq<Entry>, config: QueueConfig, states: seq<Files>) {
    && |ids| == |es| && |states| == |ids| + 1 && states[0] == map[]
    && Ascending(ids)
    && forall i :: 0 <= i < |ids| ==> Enqueues(states[i], ids[i], es[i], config, states[i + 1])
  }

  /** Spilling keeps a sliding window: after any run of enqueues the queue holds exactly the newest `cap` entries. */
  lemma {:induction false} SpillKeepsNewest(ids: seq<EntryId>, es: seq<Entry>, config: QueueConfig, states: seq<Files>, n: nat)
    requires EnqueueRun(ids, es, config, states) && config.overflow.SpillOldest? && config.maxEntries >= 1
    requires n <= |ids|
    ensures IsWindow(states[n], ids, es, n, config.maxEntries)
  {
    if n > 0 {
      var m, cap := n - 1, config.maxEntries;
      SpillKeepsNewest(ids, es, config, states, m);
      NewId(ids, m, WindowStart(m, cap));
      EnqueueSize(states[m], ids[m], es[m], config, states[n]);
      WindowStep(states[m], ids, es, m, config, states[n]);
    }
  }

  lemma WindowStep(files: Files, ids: seq<EntryId>, es: seq<Entry>, m: nat, config: QueueConfig, files': Files)
    requires m < |ids| == |es| && config.maxEntries >= 1 && config.overflow.SpillOldest?
    requires IsWindow(files, ids, es, m, config.maxEntries)
    requires Ascending(ids)
    requires Enqueues(files, ids[m], es[m], config, files')
    requires |files'| == m + 1 - WindowStart(m + 1, config.maxEntries)
    ensures IsWindow(files', ids, es, m + 1, config.maxEntries)
  {
    hide AreOldest, IsWindow;
    var cap := config.maxEntries;
    if |files| < cap {
      WindowGrows(files, ids, es, m, cap, files');
    } else {
      var dropped :| Spills(files, dropped, Surplus(files, config), files', ids[m], es[m]);
      WindowFull(files, ids, es, m, cap);
      WindowDrops(files, ids, es, m, cap, dropped);
      SpillSlides(files, ids[m - cap], ids[m], es[m]);
      WindowSlides(files, ids, es, m, cap, files');
    }
  }

  lemma WindowFull(files: Files, ids: seq<EntryId>, es: seq<Entry>, m: nat, cap: nat)
    requires m <= |ids| == |es| && IsWindow(files, ids, es, m, cap) && |files| >= cap
    ensures m >= cap && |files| == cap
  {}

  lemma NewId(ids: seq<EntryId>, m: nat, lo: nat)
    requires lo <= m < |ids| && Ascending(ids)
    ensures !Among(ids, lo, m, ids[m])
  {}

  lemma AmongGrows(ids: seq<EntryId>, m: nat, k: EntryId)
    requires m < |ids|
    ensures Among(ids, 0, m + 1, k) <==> Among(ids, 0, m, k) || k == ids[m]
  {
    if Among(ids, 0, m, k) { var i :| 0 <= i < m && ids[i] == k; }
  }

  lemma WindowGrows(files: Files, ids: seq<EntryId>, es: seq<Entry>, m: nat, cap: nat, files': Files)
    requires m < |ids| == |es| && IsWindow(files, ids, es, m, cap) && |files| < cap
    requires Ascending(ids)
    requires files' == files[ids[m] := es[m]] && |files'| == m + 1 - WindowStart(m + 1, cap)
    ensures IsWindow(files', ids, es, m + 1, cap)
  {
    hide Ascending, Among;
    forall k ensures k in files' <==> Among(ids, 0, m + 1, k) { AmongGrows(ids, m, k); }
    forall i | 0 <= i < m + 1 ensures ids[i] in files' && files'[ids[i]] == es[i] {
      if i < m { Before(ids, i, m); }
    }
  }

  lemma AmongSlides(ids: seq<EntryId>, lo: nat, m: nat, k: EntryId)
    requires lo < m < |ids| && Ascending(ids)
    ensures Among(ids, lo + 1, m + 1, k) <==> (Among(ids, lo, m, k) && k != ids[lo]) || k == ids[m]
  {
    hide Ascending;
    if i :| lo + 1 <= i < m + 1 && ids[i] == k { Before(ids, lo, i); }
    if k != ids[lo] && Among(ids, lo, m, k) { var i :| lo <= i < m && ids[i] == k; }
  }

  /** `files'` is `files` without `gone` and with `e` at `id`. */
  ghost predicate Slid(files: Files, gone: EntryId, id: EntryId, e: Entry, files': Files) {
    && (forall k :: k in files' <==> (k in files && k != gone) || k == id)
    && (forall k :: k in files && k != gone && k != id ==> files'[k] == files[k])
    && files'[id] == e
  }

  lemma SpillSlides(files: Files, gone: EntryId, id: EntryId, e: Entry)
    ensures Slid(files, gone, id, e, (files - {gone})[id := e])
  {}

  lemma WindowSlides(files: Files, ids: seq<EntryId>, es: seq<Entry>, m: nat, cap: nat, files': Files)
    requires cap >= 1 && cap <= m < |ids| == |es| && IsWindow(files, ids, es, m, cap)
    requires Ascending(ids)
    requires Slid(files, ids[m - cap], ids[m], es[m], files') && |files'| == cap
    ensures IsWindow(files', ids, es, m + 1, cap)
  {
    hide Ascending, Among;
    forall k ensures k in files' <==> Among(ids, m - cap + 1, m + 1, k) { AmongSlides(ids, m - cap, m, k); }
    forall i | m - cap + 1 <= i < m + 1 ensures ids[i] in files' && files'[ids[i]] == es[i] {
      Before(ids, m - cap, i);
      if i < m { Before(ids, i, m); }
    }
  }

  /** From a full window, the one oldest entry is the one at its left end. */
  lemma WindowDrops(files: Files, ids: seq<EntryId>, es: seq<Entry>, m: nat, cap: nat, dropped: set<EntryId>)
    requires cap >= 1 && cap <= m <= |ids| == |es| && IsWindow(files, ids, es, m, cap)
    requires Ascending(ids)
    requires AreOldest(dropped, files.Keys, 1)
    ensures dropped == {ids[m - cap]}
  {
    var keys, first := files.Keys, ids[m - cap];
    assert Among(ids, m - cap, m, first);
    OldestUnique(dropped, {first}, keys, 1);
  }

  // ----- replaying proposals -----

  datatype AppendInput = AppendInput(id: EventId, now: Timestamp, fault: AppendFault)

  /** A best-effort append of one proposal, with its fault. */
  ghost function AppendOne(w: Workflow, log: seq<Event>, p: Proposal, x: AppendInput): Answer {
    AppendCall(w, log, [Offer(p, x.id, x.now)], BestEffort, x.fault)
  }

  /** A proposal is recorded, or the report refused it. */
  ghost predicate Answered(r: Answer, p: Proposal) {
    || FingerprintOfProposal(p) in Fingerprints(r.log)
    || (r.reply.Reported? && exists y :: y in r.reply.rejected && y.proposal == p && y.reason.Violates?)
  }

  lemma AppendOneAnswers(w: Workflow, log: seq<Event>, p: Proposal, x: AppendInput)
    ensures AppendOne(w, log, p, x).reply.Reported? ==> Answered(AppendOne(w, log, p, x), p)
    ensures log <= AppendOne(w, log, p, x).log
    ensures FingerprintOfProposal(p) in Fingerprints(log) ==> AppendOne(w, log, p, x).log == log
  {
    hide Objection, RunAll;
    var offers := [Offer(p, x.id, x.now)];
    RunAllGrows(w, log, offers);
    BestEffortAccounts(w, log, offers, 0);
    if FingerprintOfProposal(p) in Fingerprints(log) {
      assert offers[0].proposal == p;
      ReplayIsNoOp(w, log, offers);
      assert log + [] == log;
    }
  }

  lemma AppendOneReachable(w: Workflow, log: seq<Event>, p: Proposal, x: AppendInput)
    requires Reachable(w, log) && x.id !in Ids(log)
    ensures Reachable(w, AppendOne(w, log, p, x).log)
  {
    hide RunAll;
    OutcomeReachable(w, log, [Offer(p, x.id, x.now)], BestEffort);
  }

  // ----- draining -----

  /** What one drain brings to each entry: the append's stamps and fault, and whether removing the file works. */
  datatype DrainInput = DrainInput(append: AppendInput, removable: bool)

  datatype Progress = Progress(log: seq<Event>, files: Files, drained: nat)

  /** One entry of a drain: replay it; on any report, accepted or not, remove the file. */
  ghost function DrainStep(w: Workflow, at: Progress, id: EntryId, e: Entry, x: DrainInput): Progress {
    if e.Garbled? then at
    else
      var r := AppendOne(w, at.log, e.p, x.append);
      if r.reply.Reported?
      then Progress(r.log, if x.removable then at.files - {id} else at.files, at.drained + 1)
      else at.(log := r.log)
  }

  /** The first `n` entries of the listing, in order. */
  ghost function DrainSpec(w: Workflow, log: seq<Event>, files: Files, ids: seq<EntryId>, xs: seq<DrainInput>, n: nat): Progress
    requires n <= |ids| == |xs| && forall i :: 0 <= i < |ids| ==> ids[i] in files
  {
    if n == 0 then Progress(log, files, 0)
    else DrainStep(w, DrainSpec(w, log, files, ids, xs, n - 1), ids[n - 1], files[ids[n - 1]], xs[n - 1])
  }

  /** `drain`: every entry of the sorted listing goes through the repository. */
  method DrainAll(queue: QueueDir, state: UnitState, w: Workflow, xs: seq<DrainInput>) returns (drained: nat, ghost ids: seq<EntryId>)
    requires state.Valid() && |xs| == |queue.files|
    modifies queue, state`events, state`fingerprints
    ensures state.Valid() && IsListing(ids, old(queue.files).Keys) && |ids| == |xs|
    ensures Progress(state.events, queue.files, drained) == DrainSpec(w, old(state.events), old(queue.files), ids, xs, |ids|)
  {
    hide AppendOne;
    var files := queue.files;
    ghost var log := state.events;
    var paths := ListSorted(files.Keys);
    ids := paths;
    ListingSize(paths, files.Keys);
    assert |files| == |files.Keys|;
    drained := 0;
    for i := 0 to |paths|
      invariant state.Valid()
      invariant Progress(state.events, queue.files, drained) == DrainSpec(w, log, files, ids, xs, i)
    {
      var e := files[paths[i]];
      if e.Garbled? { continue; }
      OneAppend(w, state.events, e.p, xs[i].append);
      var reply := CallAppend(state, w, [Offer(e.p, xs[i].append.id, xs[i].append.now)], BestEffort, xs[i].append.fault);
      if reply.Reported? {
        if xs[i].removable { queue.files := queue.files - {paths[i]}; }
        drained := drained + 1;
      }
    }
  }

  /**
   After a drain every readable entry is still queued, or recorded, or was refused by a precondition in
   some report; nothing is added to the queue, and garbled entries stay.
   */
  lemma {:induction false} DrainAccounts(w: Workflow, log: seq<Event>, files: Files, ids: seq<EntryId>, xs: seq<DrainInput>, n: nat, i: nat)
    requires i < n <= |ids| == |xs| && IsListing(ids, files.Keys)
    ensures
      var end := DrainSpec(w, log, files, ids, xs, n);
      var e := files[ids[i]];
      && (e.Garbled? ==> ids[i] in end.files)
      && (e.Entry? ==>
            || ids[i] in end.files
            || FingerprintOfProposal(e.p) in Fingerprints(end.log)
            || Answered(AppendOne(w, DrainSpec(w, log, files, ids, xs, i).log, e.p, xs[i].append), e.p))
  {
    hide AppendOne, Answered, Fingerprints;
    var at := DrainSpec(w, log, files, ids, xs, n - 1);
    DrainKeepsFiles(w, log, files, ids, xs, n - 1);
    if i == n - 1 {
      if files[ids[i]].Entry? { AppendOneAnswers(w, at.log, files[ids[i]].p, xs[i].append); }
    } else {
      DrainAccounts(w, log, files, ids, xs, n - 1, i);
      DrainGrows(w, at, ids[n - 1], files[ids[n - 1]], xs[n - 1], files[ids[i]]);
    }
  }

  /** The append of entry `i`, when the drain comes to it, was answered with a report. */
  ghost predicate ReportedAt(w: Workflow, log: seq<Event>, files: Files, ids: seq<EntryId>, xs: seq<DrainInput>, i: nat)
    requires i < |ids| == |xs| && forall j :: 0 <= j < |ids| ==> ids[j] in files
  {
    var e, at := files[ids[i]], DrainSpec(w, log, files, ids, xs, i);
    e.Entry? && AppendCall(w, at.log, [Offer(e.p, xs[i].append.id, xs[i].append.now)], BestEffort, xs[i].append.fault).reply.Reported?
  }

  ghost function ReportedBefore(w: Workflow, log: seq<Event>, files: Files, ids: seq<EntryId>, xs: seq<DrainInput>, n: nat): set<nat>
    requires n <= |ids| == |xs| && forall j :: 0 <= j < |ids| ==> ids[j] in files
  {
    set i: nat | i < n && ReportedAt(w, log, files, ids, xs, i)
  }

  lemma OneMoreReported(w: Workflow, log: seq<Event>, files: Files, ids: seq<EntryId>, xs: seq<DrainInput>, n: nat)
    requires n < |ids| == |xs| && forall j :: 0 <= j < |ids| ==> ids[j] in files
    ensures |ReportedBefore(w, log, files, ids, xs, n + 1)| ==
              |ReportedBefore(w, log, files, ids, xs, n)| + if ReportedAt(w, log, files, ids, xs, n) then 1 else 0
  {
    hide ReportedAt;
    var before, after := ReportedBefore(w, log, files, ids, xs, n), ReportedBefore(w, log, files, ids, xs, n + 1);
    if ReportedAt(w, log, files, ids, xs, n) {
      assert after == before + {n};
    } else {
      assert after == before;
    }
  }

  /** One step of a drain: a readable entry is one append on the log so far, reported on or not; what was reported on is counted and removed. */
  lemma DrainStepCounts(w: Workflow, log: seq<Event>, files: Files, ids: seq<EntryId>, xs: seq<DrainInput>, n: nat)
    requires n < |ids| == |xs| && forall j :: 0 <= j < |ids| ==> ids[j] in files
    ensures
      var at, next := DrainSpec(w, log, files, ids, xs, n), DrainSpec(w, log, files, ids, xs, n + 1);
      var reported := ReportedAt(w, log, files, ids, xs, n);
      && next.drained == at.drained + (if reported then 1 else 0)
      && (next.files == if reported && xs[n].removable then at.files - {ids[n]} else at.files)
      && next.log == match files[ids[n]]
                     case Entry(p) => AppendCall(w, at.log, [Offer(p, xs[n].append.id, xs[n].append.now)], BestEffort, xs[n].append.fault).log
                     case Garbled => at.log
  {
    hide AppendCall;
    var e := files[ids[n]];
    if e.Entry? { OneAppend(w, DrainSpec(w, log, files, ids, xs, n).log, e.p, xs[n].append); }
    hide AppendOne;
  }

  /**
   What a drain returns is the number of entries answered with a report; and an entry leaves the queue
   exactly when its append was answered with one and its file can be removed.
   */
  lemma {:induction false} DrainCounts(w: Workflow, log: seq<Event>, files: Files, ids: seq<EntryId>, xs: seq<DrainInput>, n: nat)
    requires n <= |ids| == |xs| && IsListing(ids, files.Keys)
    ensures DrainSpec(w, log, files, ids, xs, n).drained == |ReportedBefore(w, log, files, ids, xs, n)|
    ensures forall i :: 0 <= i < n ==>
              (ids[i] !in DrainSpec(w, log, files, ids, xs, n).files <==> ReportedAt(w, log, files, ids, xs, i) && xs[i].removable)
  {
    hide ReportedAt, ReportedBefore, DrainSpec, DrainStep;
    if n == 0 {
      NothingDrained(w, log, files, ids, xs);
    } else {
      DrainCounts(w, log, files, ids, xs, n - 1);
      DrainKeepsFiles(w, log, files, ids, xs, n - 1);
      OneMoreReported(w, log, files, ids, xs, n - 1);
      DrainStepCounts(w, log, files, ids, xs, n - 1);
      forall i | 0 <= i < n - 1 ensures ids[i] != ids[n - 1] { Before(ids, i, n - 1); }
    }
  }

  lemma NothingDrained(w: Workflow, log: seq<Event>, files: Files, ids: seq<EntryId>, xs: seq<DrainInput>)
    requires |ids| == |xs| && forall j :: 0 <= j < |ids| ==> ids[j] in files
    ensures DrainSpec(w, log, files, ids, xs, 0).drained == 0 && |ReportedBefore(w, log, files, ids, xs, 0)| == 0
  {
    hide ReportedAt;
    assert ReportedBefore(w, log, files, ids, xs, 0) == {};
  }

  lemma DrainGrows(w: Workflow, at: Progress, id: EntryId, e: Entry, x: DrainInput, other: Entry)
    ensures at.log <= DrainStep(w, at, id, e, x).log
    ensures other.Entry? && FingerprintOfProposal(other.p) in Fingerprints(at.log) ==>
              FingerprintOfProposal(other.p) in Fingerprints(DrainStep(w, at, id, e, x).log)
  {
    hide AppendOne;
    if e.Entry? {
      AppendOneAnswers(w, at.log, e.p, x.append);
      var after := DrainStep(w, at, id, e, x).log;
      assert after == at.log + after[|at.log|..];
      IdsConcat(at.log, after[|at.log|..]);
    }
  }

  /** Entries not yet reached are untouched, and nothing new appears. */
  lemma {:induction false} DrainKeepsFiles(w: Workflow, log: seq<Event>, files: Files, ids: seq<EntryId>, xs: seq<DrainInput>, n: nat)
    requires n <= |ids| == |xs| && IsListing(ids, files.Keys)
    ensures
      var end := DrainSpec(w, log, files, ids, xs, n);
      && end.files.Keys <= files.Keys
      && (forall j :: n <= j < |ids| ==> ids[j] in end.files)
      && (forall k :: k in end.files ==> end.files[k] == files[k])
  {
    hide AppendOne;
    if n > 0 { DrainKeepsFiles(w, log, files, ids, xs, n - 1); }
  }

  /** A drain without faults empties the queue of everything readable. */
  lemma {:induction false} HealthyDrainEmpties(w: Workflow, log: seq<Event>, files: Files, ids: seq<EntryId>, xs: seq<DrainInput>, n: nat)
    requires n <= |ids| == |xs| && IsListing(ids, files.Keys)
    requires forall i :: 0 <= i < |xs| ==> xs[i].append.fault.Healthy? && xs[i].removable
    ensures forall i :: 0 <= i < n ==> (ids[i] in DrainSpec(w, log, files, ids, xs, n).files <==> files[ids[i]].Garbled?)
  {
    hide AppendOne, Objection;
    DrainKeepsFiles(w, log, files, ids, xs, n);
    if n > 0 {
      HealthyDrainEmpties(w, log, files, ids, xs, n - 1);
      if files[ids[n - 1]].Entry? {
        OneOfferReply(w, DrainSpec(w, log, files, ids, xs, n - 1).log, files[ids[n - 1]].p, xs[n - 1].append);
      }
      DrainKeepsFiles(w, log, files, ids, xs, n - 1);
    }
  }

  /** Draining with fresh event ids keeps the ledger reachable, so nothing is recorded twice. */
  lemma {:induction false} DrainReachable(w: Workflow, log: seq<Event>, files: Files, ids: seq<EntryId>, xs: seq<DrainInput>, n: nat)
    requires n <= |ids| == |xs| && IsListing(ids, files.Keys) && Reachable(w, log)
    requires forall i :: 0 <= i < |xs| ==> xs[i].append.id !in Ids(log)
    requires forall i, j :: 0 <= i < j < |xs| ==> xs[i].append.id != xs[j].append.id
    ensures Reachable(w, DrainSpec(w, log, files, ids, xs, n).log)
    ensures forall e :: e in DrainSpec(w, log, files, ids, xs, n).log ==>
              e in log || exists i :: 0 <= i < n && xs[i].append.id == e.id
  {
    hide Reachable, AppendOne;
    if n > 0 {
      var at := DrainSpec(w, log, files, ids, xs, n - 1);
      var e, x := files[ids[n - 1]], xs[n - 1].append;
      DrainReachable(w, log, files, ids, xs, n - 1);
      assert x.id !in Ids(at.log) by {
        assert forall f :: f in at.log && f in log ==> f.id != x.id;
      }
      if e.Entry? {
        AppendOneReachable(w, at.log, e.p, x);
        AppendOneIds(w, at.log, e.p, x);
      }
    }
  }

  lemma AppendOneIds(w: Workflow, log: seq<Event>, p: Proposal, x: AppendInput)
    ensures forall e :: e in AppendOne(w, log, p, x).log ==> e in log || e.id == x.id
  {
    hide Objection, RunAll;
    AcceptedIds(w, log, [Offer(p, x.id, x.now)]);
  }

  // ----- the hook's bounded retry -----

  const POST_TOOL_MAX_ATTEMPTS: nat := 3

  datatype HookResult = Continue | RepositoryFailed(error: RepoError) | QueueFailed

  /** The attempts in turn, up to the first report or precondition error. */
  ghost function TryAll(w: Workflow, log: seq<Event>, p: Proposal, xs: seq<AppendInput>): Answer
    requires xs != []
    decreases |xs|
  {
    var r := AppendOne(w, log, p, xs[0]);
    if |xs| == 1 || r.reply.Reported? || r.reply.error.Precondition? then r else TryAll(w, r.log, p, xs[1..])
  }

  /** What append `i` answers, when appends `0..i` are made one after the other. */
  ghost function AnswerAt(w: Workflow, log: seq<Event>, p: Proposal, xs: seq<AppendInput>, i: nat): Answer
    requires i < |xs|
  {
    var before := if i == 0 then log else AnswerAt(w, log, p, xs, i - 1).log;
    AppendCall(w, before, [Offer(p, xs[i].id, xs[i].now)], BestEffort, xs[i].fault)
  }

  /** An error that is worth another try. */
  ghost predicate TransientAt(w: Workflow, log: seq<Event>, p: Proposal, xs: seq<AppendInput>, i: nat)
    requires i < |xs|
  {
    var reply := AnswerAt(w, log, p, xs, i).reply;
    reply.Errored? && !reply.error.Precondition?
  }

  ghost predicate TransientUpTo(w: Workflow, log: seq<Event>, p: Proposal, xs: seq<AppendInput>, i: nat)
    requires i <= |xs|
  {
    forall j :: 0 <= j < i ==> TransientAt(w, log, p, xs, j)
  }

  lemma {:induction false} AnswerLater(w: Workflow, log: seq<Event>, p: Proposal, xs: seq<AppendInput>, i: nat)
    requires i + 1 < |xs|
    ensures AnswerAt(w, log, p, xs, i + 1) == AnswerAt(w, AnswerAt(w, log, p, xs, 0).log, p, xs[1..], i)
  {
    hide AppendCall;
    if i > 0 { AnswerLater(w, log, p, xs, i - 1); }
  }

  /** The retry gives what the first append gives that is not answered with a transient error, or else the last one. */
  lemma {:induction false} TryAllIs(w: Workflow, log: seq<Event>, p: Proposal, xs: seq<AppendInput>, i: nat)
    requires i < |xs| && TransientUpTo(w, log, p, xs, i) && (i == |xs| - 1 || !TransientAt(w, log, p, xs, i))
    ensures TryAll(w, log, p, xs) == AnswerAt(w, log, p, xs, i)
    decreases i
  {
    hide AppendCall;
    OneAppend(w, log, p, xs[0]);
    if i > 0 {
      assert TransientAt(w, log, p, xs, 0);
      var next := AnswerAt(w, log, p, xs, 0).log;
      forall j | 0 <= j < i ensures AnswerAt(w, log, p, xs, j + 1) == AnswerAt(w, next, p, xs[1..], j) { AnswerLater(w, log, p, xs, j); }
      forall j | 0 <= j < i - 1 ensures TransientAt(w, next, p, xs[1..], j) { assert TransientAt(w, log, p, xs, j + 1); }
      TryAllIs(w, next, p, xs[1..], i - 1);
    }
  }

  /**
   A hook makes up to three appends. With a report at append `i` after transient errors it has what that
   append gives; it turns to the queue exactly when all three were answered with a transient error.
   */
  lemma HookRetries(w: Workflow, log: seq<Event>, p: Proposal, xs: seq<AppendInput>)
    requires |xs| == 3
    ensures forall i :: 0 <= i < 3 && TransientUpTo(w, log, p, xs, i) && AnswerAt(w, log, p, xs, i).reply.Reported? ==>
              TryAll(w, log, p, xs) == AnswerAt(w, log, p, xs, i)
    ensures TransientUpTo(w, log, p, xs, 3) ==> TryAll(w, log, p, xs) == AnswerAt(w, log, p, xs, 2)
    ensures TryAll(w, log, p, xs).reply.Reported? <==> !TransientUpTo(w, log, p, xs, 3)
  {
    hide TryAll, AppendCall, AnswerAt;
    forall i: nat | i < 3 ensures !AnswerAt(w, log, p, xs, i).reply.Errored? || !AnswerAt(w, log, p, xs, i).reply.error.Precondition? {
      NoPreconditionAnswer(w, log, p, xs, i);
    }
    forall i: nat | i < 3 && TransientUpTo(w, log, p, xs, i) && (i == 2 || !TransientAt(w, log, p, xs, i))
      ensures TryAll(w, log, p, xs) == AnswerAt(w, log, p, xs, i)
    {
      TryAllIs(w, log, p, xs, i);
    }
    if !TransientAt(w, log, p, xs, 0) {
      assert TransientUpTo(w, log, p, xs, 0);
    } else if !TransientAt(w, log, p, xs, 1) {
      assert TransientUpTo(w, log, p, xs, 1);
    } else {
      assert TransientUpTo(w, log, p, xs, 2);
      if TransientAt(w, log, p, xs, 2) { assert TransientUpTo(w, log, p, xs, 3); }
    }
  }

  lemma NoPreconditionAnswer(w: Workflow, log: seq<Event>, p: Proposal, xs: seq<AppendInput>, i: nat)
    requires i < |xs|
    ensures AnswerAt(w, log, p, xs, i).reply.Errored? ==> !AnswerAt(w, log, p, xs, i).reply.error.Precondition?
  {
    var before := if i == 0 then log else AnswerAt(w, log, p, xs, i - 1).log;
    OneAppend(w, before, p, xs[i]);
    OneOfferReply(w, before, p, xs[i]);
    hide AppendCall, AppendOne;
  }

  /** From log and queue before a hook to those after it, with what it returns. */
  ghost predicate HookDid(
      w: Workflow, log: seq<Event>, files: Files, p: Proposal, xs: seq<AppendInput>, id: EntryId, config: QueueConfig, stuck: set<EntryId>,
      fault: EnqueueFault, log': seq<Event>, files': Files, result: HookResult, orphaned: bool, enqueued: EnqueueResult)
    requires xs != []
  {
    var end := TryAll(w, log, p, xs);
    && log' == end.log
    && if end.reply.Reported? then result == Continue && !orphaned && files' == files
       else if end.reply.error.Precondition? then result == RepositoryFailed(end.reply.error) && !orphaned && files' == files
       else
         && EnqueueAttempt(files, id, Entry(p), config, stuck, fault, files', enqueued)
         && result == (if enqueued.EnqueueError? then QueueFailed else Continue)
         && (orphaned <==> enqueued.Full?)
  }

  /** `post_tool_append`: retry, then queue, then fall back to the orphan log. */
  method PostToolAppend(queue: QueueDir, state: UnitState, w: Workflow, p: Proposal, xs: seq<AppendInput>, id: EntryId,
                        config: QueueConfig, stuck: set<EntryId>, fault: EnqueueFault)
    returns (result: HookResult, orphaned: bool, ghost enqueued: EnqueueResult)
    requires state.Valid() && |xs| == POST_TOOL_MAX_ATTEMPTS
    modifies queue, state`events, state`fingerprints
    ensures state.Valid()
    ensures HookDid(w, old(state.events), old(queue.files), p, xs, id, config, stuck, fault, state.events, queue.files, result, orphaned, enqueued)
  {
    hide AppendOne, EnqueueAttempt;
    ghost var log := state.events;
    enqueued := Written;
    var attempt := 0;
    while attempt < POST_TOOL_MAX_ATTEMPTS
      invariant attempt <= POST_TOOL_MAX_ATTEMPTS
      invariant state.Valid() && queue.files == old(queue.files)
      invariant attempt < POST_TOOL_MAX_ATTEMPTS ==> TryAll(w, log, p, xs) == TryAll(w, state.events, p, xs[attempt..])
      invariant attempt == POST_TOOL_MAX_ATTEMPTS ==>
                  && TryAll(w, log, p, xs).log == state.events
                  && TryAll(w, log, p, xs).reply.Errored? && !TryAll(w, log, p, xs).reply.error.Precondition?
    {
      assert xs[attempt..][1..] == xs[attempt + 1..];
      var x := xs[attempt];
      OneAppend(w, state.events, p, x);
      var reply := CallAppend(state, w, [Offer(p, x.id, x.now)], BestEffort, x.fault);
      if reply.Reported? { return Continue, false, enqueued; }
      if reply.error.Precondition? { return RepositoryFailed(reply.error), false, enqueued; }
      attempt := attempt + 1;
    }
    var r := queue.EnqueueRaw(id, Entry(p), config, stuck, fault);
    return if r.EnqueueError? then QueueFailed else Continue, r.Full?, r;
  }

  /**
   What a hook comes to, in terms of single appends: the first of up to three that reports decides log
   and result, and the queue is untouched; the hook turns to the queue exactly when all three were
   answered with a transient error, and then by what the enqueue says it continues, notes the drop or fails.
   */
  lemma HookOutcome(
      w: Workflow, log: seq<Event>, files: Files, p: Proposal, xs: seq<AppendInput>, id: EntryId, config: QueueConfig, stuck: set<EntryId>,
      fault: EnqueueFault, log': seq<Event>, files': Files, result: HookResult, orphaned: bool, enqueued: EnqueueResult)
    requires |xs| == 3 && HookDid(w, log, files, p, xs, id, config, stuck, fault, log', files', result, orphaned, enqueued)
    ensures forall i :: 0 <= i < 3 && TransientUpTo(w, log, p, xs, i) && AnswerAt(w, log, p, xs, i).reply.Reported? ==>
              log' == AnswerAt(w, log, p, xs, i).log && result == Continue && !orphaned && files' == files
    ensures TransientUpTo(w, log, p, xs, 3) ==>
              && log' == AnswerAt(w, log, p, xs, 2).log
              && EnqueueAttempt(files, id, Entry(p), config, stuck, fault, files', enqueued)
              && result == (if enqueued.EnqueueError? then QueueFailed else Continue)
              && (orphaned <==> enqueued.Full?)
    ensures !TransientUpTo(w, log, p, xs, 3) ==> result == Continue && !orphaned && files' == files
  {
    hide TryAll, AnswerAt, EnqueueAttempt, TransientAt;
    HookRetries(w, log, p, xs);
    HookNeverSurfacesPrecondition(w, log, p, xs);
    if TransientUpTo(w, log, p, xs, 3) { assert AnswerAt(w, log, p, xs, 2) == TryAll(w, log, p, xs); }
  }

  lemma OneAppend(w: Workflow, log: seq<Event>, p: Proposal, x: AppendInput)
    ensures AppendOne(w, log, p, x) == AppendCall(w, log, [Offer(p, x.id, x.now)], BestEffort, x.fault)
  {}

  /** However the attempts fail, the log grows by at most the one proposal, and only once. */
  lemma {:induction false} TryAllRecordsOnce(w: Workflow, log: seq<Event>, p: Proposal, xs: seq<AppendInput>)
    requires xs != [] && Reachable(w, log) && forall i :: 0 <= i < |xs| ==> xs[i].id !in Ids(log)
    ensures
      var end := TryAll(w, log, p, xs);
      && Reachable(w, end.log)
      && log <= end.log && |end.log| <= |log| + 1
      && (end.reply.Reported? ==> FingerprintOfProposal(p) in Fingerprints(end.log) || Answered(end, p))
      && (|end.log| == |log| + 1 ==> FingerprintOf(end.log[|log|]) == FingerprintOfProposal(p))
    decreases |xs|
  {
    hide Reachable, AppendOne, Answered;
    var r := AppendOne(w, log, p, xs[0]);
    AppendOneAnswers(w, log, p, xs[0]);
    AppendOneReachable(w, log, p, xs[0]);
    AppendOneGrowsByOne(w, log, p, xs[0]);
    if !(|xs| == 1 || r.reply.Reported? || r.reply.error.Precondition?) {
      if r.log == log {
        TryAllRecordsOnce(w, log, p, xs[1..]);
      } else {
        OnceRecordedStays(w, r.log, p, xs[1..]);
      }
    }
  }

  lemma AppendOneGrowsByOne(w: Workflow, log: seq<Event>, p: Proposal, x: AppendInput)
    ensures
      var after := AppendOne(w, log, p, x).log;
      after == log || (|after| == |log| + 1 && log <= after && FingerprintOf(after[|log|]) == FingerprintOfProposal(p)
                       && FingerprintOfProposal(p) in Fingerprints(after))
  {
    hide Objection;
    var offers := [Offer(p, x.id, x.now)];
    assert offers[..0] == [];
    assert RunAll(w, log, offers) == Step(w, Run(log, [], []), offers[0]);
    var e := EventFor(offers[0], LastAt(log));
    assert e in log + [e];
    assert log + [] == log && [] + [e] == [e];
  }

  lemma {:induction false} OnceRecordedStays(w: Workflow, log: seq<Event>, p: Proposal, xs: seq<AppendInput>)
    requires xs != [] && FingerprintOfProposal(p) in Fingerprints(log)
    ensures TryAll(w, log, p, xs).log == log
    decreases |xs|
  {
    hide AppendOne;
    AppendOneAnswers(w, log, p, xs[0]);
    if |xs| > 1 { OnceRecordedStays(w, log, p, xs[1..]); }
  }

  // ----- precondition rejections -----

  lemma OneOfferReply(w: Workflow, log: seq<Event>, p: Proposal, x: AppendInput)
    ensures
      var r := AppendOne(w, log, p, x);
      && (r.reply.Errored? ==> !r.reply.error.Precondition?)
      && (x.fault.Healthy? ==>
            match Objection(w, log, p)
            case None => r.reply.Reported? && FingerprintOfProposal(p) in Fingerprints(r.log)
            case Some(reason) => r == Answer(log, Reported([], [Rejection(p, reason)])))
  {
    hide Objection;
    var offers := [Offer(p, x.id, x.now)];
    RunAllEmpty(w, log, offers);
    RunAllNext(w, log, offers, 0);
    AppendOneGrowsByOne(w, log, p, x);
    assert log + [] == log && [] + [EventFor(offers[0], LastAt(log))] == [EventFor(offers[0], LastAt(log))];
  }

  /** A hook's append never ends in a precondition error: in best-effort mode there is no such answer. */
  lemma {:induction false} HookNeverSurfacesPrecondition(w: Workflow, log: seq<Event>, p: Proposal, xs: seq<AppendInput>)
    requires xs != []
    ensures TryAll(w, log, p, xs).reply.Errored? ==> !TryAll(w, log, p, xs).reply.error.Precondition?
    decreases |xs|
  {
    hide AppendOne;
    var r := AppendOne(w, log, p, xs[0]);
    OneOfferReply(w, log, p, xs[0]);
    if !(|xs| == 1 || r.reply.Reported?) { HookNeverSurfacesPrecondition(w, r.log, p, xs[1..]); }
  }

  /**
   Instead it is told "go on": with a healthy first append the hook continues having recorded, queued and
   noted nothing exactly when a rule or the payload check turns the proposal down.
   */
  lemma RejectionVanishesExactly(w: Workflow, log: seq<Event>, p: Proposal, xs: seq<AppendInput>)
    requires xs != [] && xs[0].fault.Healthy?
    ensures
      var end := TryAll(w, log, p, xs);
      && end.reply.Reported?
      && (Objection(w, log, p).Some? ==> end.log == log)
      && (FingerprintOfProposal(p) !in Fingerprints(end.log) <==> Objection(w, log, p).Some? && Objection(w, log, p).value.Violates?)
  {
    hide AppendOne, RuleFor;
    OneOfferReply(w, log, p, xs[0]);
  }

  function SameModelSwitch(ext: Extension): Proposal {
    Proposal(Causation("hook", None, None, "PostToolUse"), ext, ModelSwitched("m", "m"), None)
  }

  /** A model switch to the model in use, on a new unit: refused by its precondition, and the hook reports success. */
  lemma NoOpSwitchVanishes(w: Workflow, ext: Extension, xs: seq<AppendInput>)
    requires xs != [] && xs[0].fault.Healthy?
    ensures TryAll(w, [], SameModelSwitch(ext), xs) ==
              Answer([], Reported([], [Rejection(SameModelSwitch(ext), Violates(NoOpModelSwitch("m")))]))
  {
    hide AppendOne;
    OneOfferReply(w, [], SameModelSwitch(ext), xs[0]);
    assert LastStatus(EffectiveEvents([])) == None;
    assert Objection(w, [], SameModelSwitch(ext)) == Some(Violates(NoOpModelSwitch("m")));
  }
}
