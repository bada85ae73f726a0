/** Any number of tasks sharing the cache: every interleaving of the locked regions of
    `get_chunks_batched`, of `fulfill`, and of batches dropped on an error exit
    (`src/chunk_cache.rs`, `src/proxy/client_proxy.rs`). */
module CacheProtocol {
  import opened Bytes
  import opened Keys
  import opened ChunkStore
  import opened ChunkCache

  datatype System = System(
    cache: State,
    batches: map<nat, seq<ChunkKey>>,  // handed out and not fulfilled, by event
    owner: map<nat, nat>,              // the task that a batch was handed to
    abandoned: set<nat>,               // unfulfilled batches that were dropped
    waiters: map<nat, seq<Wait>>,      // tasks between the two locked regions
    log: seq<Entry>)                   // everything ever inserted, oldest first

  datatype Step =
    | Claim(task: nat, requested: seq<ChunkKey>, batch_size: nat)
    | Fulfill(task: nat, event: nat, chunks: seq<bytes>)
    | Abandon(task: nat, event: nat)
    | Collect(task: nat)

  /** A started program: the log is what was loaded from disk. */
  predicate Initial(s: System) {
    && s.cache.entries == InsertAll([], s.cache.max_size, s.log)
    && s.cache.pending == map[] && s.cache.closed == {} && !s.cache.poisoned
    && s.batches == map[] && s.owner == map[] && s.abandoned == {} && s.waiters == map[]
  }

  /** Every chunk ever inserted has its key as hash: the file reader and the tasks check it. */
  ghost predicate Authentic(log: seq<Entry>, hash: Hash) {
    forall e :: e in log ==> hash(e.chunk) == e.key
  }

  /** No two different chunks among those inserted have the same hash. */
  ghost predicate CollisionFree(log: seq<Entry>, hash: Hash) {
    forall e, f :: e in log && f in log && hash(e.chunk) == hash(f.chunk) ==> e.chunk == f.chunk
  }

  predicate AllClosed(s: System, waits: seq<Wait>) {
    forall w :: w in waits ==> w.event in s.cache.closed
  }

  /** Is this an unfulfilled batch that was handed to this task? */
  predicate IsBatchOf(s: System, task: nat, event: nat) {
    event in s.batches && event in s.owner && s.owner[event] == task
  }

  /** The task still holds the batch. */
  predicate Owns(s: System, task: nat, event: nat) {
    IsBatchOf(s, task, event) && event !in s.abandoned
  }

  /** A task claims when it is not waiting; a task fulfils its batch at most once, and with chunks whose
      hashes it has compared with the keys; a waiter goes on once all its events are closed. */
  ghost predicate Enabled(s: System, hash: Hash, step: Step) {
    match step
    case Claim(task, _, _) => task !in s.waiters
    case Fulfill(task, event, chunks) =>
      && Owns(s, task, event)
      && |chunks| == |s.batches[event]|
      && forall i :: 0 <= i < |chunks| ==> hash(chunks[i]) == s.batches[event][i]
    case Abandon(task, event) => Owns(s, task, event)
    case Collect(task) => task in s.waiters && AllClosed(s, s.waiters[task])
  }

  function Apply(s: System, step: Step): System {
    match step
    case Claim(task, requested, batch_size) =>
      var cache := AfterClaim(s.cache, requested, batch_size);
      (match ClaimResult(s.cache, requested, batch_size)
       case Batch(event, keys) =>
         s.(cache := cache, batches := s.batches[event := keys], owner := s.owner[event := task])
       case Waiting(waits) => s.(cache := cache, waiters := s.waiters[task := waits])
       case Nothing => s.(cache := cache)
       case LockPoisoned => s)
    case Fulfill(task, event, chunks) =>
      if event in s.batches && |chunks| == |s.batches[event]| then
        // A panicking `fulfill` drops its batch.
        if s.cache.poisoned then s.(abandoned := s.abandoned + {event})
        else s.(cache := Fulfilled(s.cache, event, s.batches[event], chunks),
                batches := s.batches - {event},
                log := s.log + Zip(s.batches[event], chunks))
      else s
    case Abandon(task, event) => s.(abandoned := s.abandoned + {event})
    case Collect(task) =>
      if task in s.waiters then
        s.(cache := AfterCollect(s.cache, s.waiters[task]), waiters := s.waiters - {task})
      else s
  }

  // ----- The invariant -----

  /** A pending key belongs to exactly one unfulfilled batch, and the other way round. */
  ghost predicate PendingIsBatches(s: System) {
    && (forall k :: k in s.cache.pending ==>
          s.cache.pending[k] in s.batches && k in s.batches[s.cache.pending[k]])
    && (forall e, k :: e in s.batches && k in s.batches[e] ==>
          k in s.cache.pending && s.cache.pending[k] == e)
  }

  predicate NoDuplicates(keys: seq<ChunkKey>) {
    forall i, j :: 0 <= i < j < |keys| ==> keys[i] != keys[j]
  }

  ghost predicate EventsOk(s: System) {
    && (forall e :: e in s.batches ==> e < s.cache.next_event && e !in s.cache.closed && NoDuplicates(s.batches[e]))
    && (forall e :: e in s.cache.closed ==> e < s.cache.next_event)
    && s.abandoned <= s.batches.Keys <= s.owner.Keys
  }

  /** A waited-on key is being fetched, or has been inserted since. */
  ghost predicate WaitOk(s: System, w: Wait) {
    if w.event in s.cache.closed then HasKey(s.log, w.key)
    else w.event in s.batches && w.key in s.batches[w.event]
  }

  ghost predicate WaitersOk(s: System) {
    forall t, w :: t in s.waiters && w in s.waiters[t] ==> WaitOk(s, w)
  }

  ghost predicate PendingNotCached(s: System) {
    forall k :: k in s.cache.pending ==> !HasKey(s.cache.entries, k)
  }

  /** The lock is poisoned only after more has been inserted than the store can hold. */
  ghost predicate PoisonOk(s: System) {
    s.cache.poisoned ==> TotalSize(s.log) > s.cache.max_size
  }

  ghost predicate Inv(s: System) {
    && PoisonOk(s)
    && PendingIsBatches(s)
    && EventsOk(s)
    && WaitersOk(s)
    && PendingNotCached(s)
    && s.cache.entries == InsertAll([], s.cache.max_size, s.log)
  }

  lemma InitialInv(s: System)
    requires Initial(s)
    ensures Inv(s)
  {
  }

  /** The system after a batch was handed out. */
  function HandOut(s: System, task: nat, keys: seq<ChunkKey>): System {
    s.(cache := ClaimedState(s.cache, keys), batches := s.batches[s.cache.next_event := keys],
       owner := s.owner[s.cache.next_event := task])
  }

  lemma ClaimBatchPending(s: System, task: nat, keys: seq<ChunkKey>)
    requires Inv(s) && keys != []
    requires forall k :: k in keys ==> k !in s.cache.pending
    ensures PendingIsBatches(HandOut(s, task, keys))
  {
    hide Lookup, InsertAll, HasKey, WaitOk, NoDuplicates, TotalSize;
    var s' := HandOut(s, task, keys);
    assert forall k :: k in s'.cache.pending <==> k in s.cache.pending || k in keys;
    assert forall k :: k in s.cache.pending ==> s.cache.pending[k] != s.cache.next_event;
  }

  lemma ClaimBatchInv(s: System, task: nat, keys: seq<ChunkKey>)
    requires Inv(s) && keys != [] && NoDuplicates(keys)
    requires forall k :: k in keys ==> !HasKey(s.cache.entries, k) && k !in s.cache.pending
    ensures Inv(HandOut(s, task, keys))
  {
    hide Lookup, InsertAll, HasKey, PendingIsBatches, TotalSize;
    var s' := HandOut(s, task, keys);
    ClaimBatchPending(s, task, keys);
    forall t, w | t in s'.waiters && w in s'.waiters[t] ensures WaitOk(s', w) {
      assert WaitOk(s, w);
    }
  }

  lemma ClaimInv(s: System, task: nat, requested: seq<ChunkKey>, batch_size: nat)
    requires Inv(s) && task !in s.waiters
    ensures Inv(Apply(s, Claim(task, requested, batch_size)))
  {
    hide Sort, Waits, NotPending, Lookup, InsertAll, TotalSize;
    SortIsOk(s.cache, requested, batch_size);
    var r := Sort(s.cache, requested, batch_size);
    var s' := Apply(s, Claim(task, requested, batch_size));
    if s.cache.poisoned {
    } else if r.batch != [] {
      ClaimBatchInv(s, task, r.batch);
      assert s' == HandOut(s, task, r.batch);
    } else {
      WaitsSplit(s.cache, r.kept);
      forall t, w | t in s'.waiters && w in s'.waiters[t] ensures WaitOk(s', w) {
        if t != task {
          assert WaitOk(s, w);
        }
      }
    }
  }

  lemma {:induction false} InsertAllConcat(es: seq<Entry>, max: nat, a: seq<Entry>, b: seq<Entry>)
    ensures InsertAll(es, max, a + b) == InsertAll(InsertAll(es, max, a), max, b)
    decreases |b|
  {
    hide Insert;
    if b == [] {
      assert a + b == a;
    } else {
      assert (a + b)[..|a + b| - 1] == a + b[..|b| - 1];
      InsertAllConcat(es, max, a, b[..|b| - 1]);
    }
  }

  lemma {:induction false} HasKeyConcat(a: seq<Entry>, b: seq<Entry>, key: ChunkKey)
    ensures HasKey(a + b, key) <==> HasKey(a, key) || HasKey(b, key)
  {
    if a == [] {
      assert a + b == b;
    } else {
      assert (a + b)[1..] == a[1..] + b;
      HasKeyConcat(a[1..], b, key);
    }
  }

  lemma ZipKeys(keys: seq<ChunkKey>, chunks: seq<bytes>, key: ChunkKey)
    requires |keys| == |chunks|
    ensures HasKey(Zip(keys, chunks), key) <==> key in keys
  {
    var es := Zip(keys, chunks);
    HasKeyIff(es, key);
    if key in keys {
      var i :| 0 <= i < |keys| && keys[i] == key;
      assert es[i] in es;
    }
  }

  lemma {:induction false} EvictNothingNew(es: seq<Entry>, max: nat, key: ChunkKey)
    requires HasKey(Evict(es, max), key)
    ensures HasKey(es, key)
  {
    if TotalSize(es) > max {
      EvictNothingNew(es[1..], max, key);
    }
  }

  lemma {:induction false} InsertAllNothingElse(es: seq<Entry>, max: nat, log: seq<Entry>, key: ChunkKey)
    requires HasKey(InsertAll(es, max, log), key)
    ensures HasKey(es, key) || HasKey(log, key)
    decreases |log|
  {
    hide Lookup;
    if log != [] {
      var prior, e := log[..|log| - 1], log[|log| - 1];
      var before := InsertAll(es, max, prior);
      EvictNothingNew(Without(before, e.key) + [e], max, key);
      LookupAppend(Without(before, e.key), e, key);
      LookupWithout(before, e.key, key);
      assert log == prior + [e];
      LookupAppend(prior, e, key);
      if HasKey(before, key) {
        InsertAllNothingElse(es, max, prior, key);
      }
    }
  }

  lemma FulfillPending(s: System, event: nat)
    requires Inv(s) && event in s.batches
    ensures var pending := Unmark(s.cache.pending, s.batches[event]);
            && (forall k :: k in pending <==> k in s.cache.pending && s.cache.pending[k] != event)
            && (forall k :: k in pending ==> pending[k] == s.cache.pending[k])
  {
  }

  lemma FulfillWait(s: System, task: nat, event: nat, chunks: seq<bytes>, w: Wait)
    requires Inv(s) && !s.cache.poisoned && event in s.batches && |chunks| == |s.batches[event]|
    requires WaitOk(s, w)
    ensures WaitOk(Apply(s, Fulfill(task, event, chunks)), w)
  {
    hide Lookup, HasKey, InsertAll, TotalSize;
    HasKeyConcat(s.log, Zip(s.batches[event], chunks), w.key);
    ZipKeys(s.batches[event], chunks, w.key);
  }

  lemma FulfillInv(s: System, hash: Hash, task: nat, event: nat, chunks: seq<bytes>)
    requires Inv(s) && !s.cache.poisoned && Enabled(s, hash, Fulfill(task, event, chunks))
    ensures Inv(Apply(s, Fulfill(task, event, chunks)))
  {
    hide Lookup, HasKey, InsertAll, Unmark, TotalSize;
    var keys := s.batches[event];
    var es := Zip(keys, chunks);
    var s' := Apply(s, Fulfill(task, event, chunks));
    InsertAllConcat([], s.cache.max_size, s.log, es);
    FulfillPending(s, event);
    forall k | k in s'.cache.pending ensures !HasKey(s'.cache.entries, k) {
      if HasKey(s'.cache.entries, k) {
        InsertAllNothingElse(s.cache.entries, s.cache.max_size, es, k);
        ZipKeys(keys, chunks, k);
      }
    }
    forall t, w | t in s'.waiters && w in s'.waiters[t] ensures WaitOk(s', w) {
      FulfillWait(s, task, event, chunks, w);
    }
  }

  lemma WaitsUntouched(s: System, s': System)
    requires WaitersOk(s)
    requires s'.cache.closed == s.cache.closed && s'.batches == s.batches && s'.log == s.log
    requires forall t :: t in s'.waiters ==> t in s.waiters && s'.waiters[t] == s.waiters[t]
    ensures WaitersOk(s')
  {
    forall t, w | t in s'.waiters && w in s'.waiters[t] ensures WaitOk(s', w) {
      assert WaitOk(s, w);
    }
  }

  lemma {:induction false} SuffixSize(log: seq<Entry>, p: nat)
    requires p <= |log|
    ensures TotalSize(log[p..]) <= TotalSize(log)
  {
    if p > 0 {
      assert log[p..] == log[1..][p - 1..];
      SuffixSize(log[1..], p - 1);
    } else {
      assert log[p..] == log;
    }
  }

  /** A key that was inserted and is not in the store has been pushed out. */
  lemma MissingMeansOverflow(s: System, key: ChunkKey)
    requires Inv(s) && HasKey(s.log, key) && !HasKey(s.cache.entries, key)
    ensures TotalSize(s.log) > s.cache.max_size
  {
    hide InsertAll, TotalSize, HasKey, Lookup;
    HasKeyIff(s.log, key);
    var e :| e in s.log && e.key == key;
    var p :| 0 <= p < |s.log| && s.log[p] == e;
    SuffixSize(s.log, p);
    if TotalSize(s.log[p..]) <= s.cache.max_size {
      Retained([], s.log, s.cache.max_size, p);
    }
  }

  lemma CollectInv(s: System, hash: Hash, task: nat)
    requires Inv(s) && Enabled(s, hash, Collect(task))
    ensures Inv(Apply(s, Collect(task)))
  {
    hide InsertAll, TotalSize, HasKey, Lookup, Collected;
    var s' := Apply(s, Collect(task));
    WaitsUntouched(s, s');
    CollectedIff(s.cache.entries, s.waiters[task]);
    if s'.cache.poisoned && !s.cache.poisoned {
      var w :| w in s.waiters[task] && !HasKey(s.cache.entries, w.key);
      assert WaitOk(s, w);
      MissingMeansOverflow(s, w.key);
    }
  }

  /** Every enabled step keeps the invariant. */
  lemma StepInv(s: System, hash: Hash, step: Step)
    requires Inv(s) && Enabled(s, hash, step)
    ensures Inv(Apply(s, step))
  {
    hide InsertAll, TotalSize, Sort, Waits, NotPending, Collected;
    match step
    case Claim(task, requested, batch_size) => ClaimInv(s, task, requested, batch_size);
    case Fulfill(task, event, chunks) =>
      if s.cache.poisoned {
        WaitsUntouched(s, Apply(s, step));
      } else {
        FulfillInv(s, hash, task, event, chunks);
      }
    case Abandon(task, event) => WaitsUntouched(s, Apply(s, step));
    case Collect(task) => CollectInv(s, hash, task);
  }

  // ----- Runs -----

  function Run(s: System, steps: seq<Step>): System
    decreases |steps|
  {
    if steps == [] then s else Run(Apply(s, steps[0]), steps[1..])
  }

  ghost predicate Legal(s: System, hash: Hash, steps: seq<Step>)
    decreases |steps|
  {
    steps == [] || (Enabled(s, hash, steps[0]) && Legal(Apply(s, steps[0]), hash, steps[1..]))
  }

  lemma {:induction false} RunInv(s: System, hash: Hash, steps: seq<Step>)
    requires Inv(s) && Legal(s, hash, steps)
    ensures Inv(Run(s, steps))
    decreases |steps|
  {
    hide Inv, Enabled, Apply;
    if steps != [] {
      StepInv(s, hash, steps[0]);
      RunInv(Apply(s, steps[0]), hash, steps[1..]);
    }
  }

  lemma {:induction false} RunAuthentic(s: System, hash: Hash, steps: seq<Step>)
    requires Authentic(s.log, hash) && Legal(s, hash, steps)
    ensures Authentic(Run(s, steps).log, hash)
    decreases |steps|
  {
    hide Sort, Waits, NotPending, InsertAll;
    if steps != [] {
      RunAuthentic(Apply(s, steps[0]), hash, steps[1..]);
    }
  }

  ghost predicate Reachable(s: System, hash: Hash) {
    exists s0, steps :: Initial(s0) && Authentic(s0.log, hash) && Legal(s0, hash, steps) && s == Run(s0, steps)
  }

  lemma ReachableInv(s: System, hash: Hash)
    requires Reachable(s, hash)
    ensures Inv(s) && Authentic(s.log, hash)
  {
    hide Inv, Initial, Run, Legal, Authentic;
    var s0, steps :| Initial(s0) && Authentic(s0.log, hash) && Legal(s0, hash, steps) && s == Run(s0, steps);
    InitialInv(s0);
    RunInv(s0, hash, steps);
    RunAuthentic(s0, hash, steps);
  }

  /** Every cached chunk has its key as hash, at any time. */
  lemma CachedIsAuthentic(s: System, hash: Hash)
    requires Reachable(s, hash)
    ensures Authentic(s.cache.entries, hash)
  {
    hide InsertAll;
    ReachableInv(s, hash);
    forall e | e in s.cache.entries ensures hash(e.chunk) == e.key {
      StoredIsFromLog([], s.cache.max_size, s.log, e);
    }
  }

  lemma {:induction false} RunsJoin(s: System, hash: Hash, a: seq<Step>, b: seq<Step>)
    requires Legal(s, hash, a) && Legal(Run(s, a), hash, b)
    ensures Legal(s, hash, a + b) && Run(s, a + b) == Run(Run(s, a), b)
    decreases |a|
  {
    hide Apply, Enabled;
    if a == [] {
      assert a + b == b;
    } else {
      assert (a + b)[1..] == a[1..] + b;
      RunsJoin(Apply(s, a[0]), hash, a[1..], b);
    }
  }

  lemma ReachableOn(s: System, hash: Hash, steps: seq<Step>)
    requires Reachable(s, hash) && Legal(s, hash, steps)
    ensures Reachable(Run(s, steps), hash)
  {
    hide Initial, Run, Legal, Authentic;
    var s0, past :| Initial(s0) && Authentic(s0.log, hash) && Legal(s0, hash, past) && s == Run(s0, past);
    RunsJoin(s0, hash, past, steps);
  }

  lemma ReachableStep(s: System, hash: Hash, step: Step)
    requires Reachable(s, hash) && Enabled(s, hash, step)
    ensures Reachable(Apply(s, step), hash)
  {
    hide Reachable, Apply, Enabled, Run, Legal;
    LeadsByStep(s, hash, step);
    var steps :| Legal(s, hash, steps) && Apply(s, step) == Run(s, steps);
    ReachableOn(s, hash, steps);
  }

  /** Some legal steps of the tasks lead from one state to the other. */
  ghost predicate LeadsTo(s: System, hash: Hash, s': System) {
    exists steps :: Legal(s, hash, steps) && s' == Run(s, steps)
  }

  lemma LeadsByStep(s: System, hash: Hash, step: Step)
    requires Enabled(s, hash, step)
    ensures LeadsTo(s, hash, Apply(s, step))
  {
    hide Apply, Enabled;
    assert [step][1..] == [];
    assert Run(s, [step]) == Run(Apply(s, step), []) == Apply(s, step);
    assert Legal(s, hash, [step]) by { assert Legal(Apply(s, step), hash, []); }
  }

  lemma LeadsOn(s: System, hash: Hash, s': System, s'': System)
    requires LeadsTo(s, hash, s') && LeadsTo(s', hash, s'')
    ensures LeadsTo(s, hash, s'')
  {
    hide Run, Legal;
    var a :| Legal(s, hash, a) && s' == Run(s, a);
    var b :| Legal(s', hash, b) && s'' == Run(s', b);
    RunsJoin(s, hash, a, b);
  }

  lemma LeadsNowhere(s: System, hash: Hash)
    ensures LeadsTo(s, hash, s)
  {
    assert Legal(s, hash, []) && Run(s, []) == s;
  }

  lemma {:induction false} LegalSplits(s: System, hash: Hash, steps: seq<Step>, i: nat)
    requires Legal(s, hash, steps) && i <= |steps|
    ensures Legal(s, hash, steps[..i]) && Legal(Run(s, steps[..i]), hash, steps[i..])
    ensures Run(Run(s, steps[..i]), steps[i..]) == Run(s, steps)
    decreases i
  {
    hide Apply, Enabled;
    if i == 0 {
      assert steps[..0] == [] && steps[0..] == steps;
    } else {
      LegalSplits(Apply(s, steps[0]), hash, steps[1..], i - 1);
      assert steps[1..][..i - 1] == steps[..i][1..] && steps[1..][i - 1..] == steps[i..];
    }
  }

  // ----- What only grows, and what other tasks cannot touch -----

  lemma StepGrows(s: System, step: Step)
    ensures s.log <= Apply(s, step).log
    ensures s.cache.closed <= Apply(s, step).cache.closed
    ensures s.cache.max_size == Apply(s, step).cache.max_size
  {
    hide Sort, Waits, NotPending, InsertAll, Collected;
  }

  lemma {:induction false} RunGrows(s: System, steps: seq<Step>)
    ensures s.log <= Run(s, steps).log
    ensures s.cache.closed <= Run(s, steps).cache.closed
    ensures s.cache.max_size == Run(s, steps).cache.max_size
    decreases |steps|
  {
    hide Apply;
    if steps != [] {
      StepGrows(s, steps[0]);
      RunGrows(Apply(s, steps[0]), steps[1..]);
    }
  }

  ghost predicate ByOthers(steps: seq<Step>, task: nat) {
    forall step :: step in steps ==> step.task != task
  }

  ghost predicate HasNoBatch(s: System, task: nat) {
    forall e :: !IsBatchOf(s, task, e)
  }

  /** What a task counts on while others run: its waits and its own batches. */
  ghost predicate SameFor(task: nat, s: System, s': System) {
    && (task in s.waiters <==> task in s'.waiters)
    && (task in s.waiters ==> s'.waiters[task] == s.waiters[task])
    && (forall e :: Owns(s, task, e) ==> Owns(s', task, e) && s'.batches[e] == s.batches[e])
    && (forall e :: IsBatchOf(s', task, e) ==> IsBatchOf(s, task, e))
  }

  lemma OtherStep(s: System, hash: Hash, step: Step, task: nat)
    requires Inv(s) && Enabled(s, hash, step) && step.task != task
    ensures SameFor(task, s, Apply(s, step))
  {
    hide Sort, Waits, NotPending, InsertAll, Collected, TotalSize, HasKey, PendingIsBatches, WaitersOk,
      PendingNotCached, PoisonOk, AfterClaim, AfterCollect, Fulfilled, NoDuplicates, AllClosed;
  }

  lemma {:induction false} OthersRun(s: System, hash: Hash, steps: seq<Step>, task: nat)
    requires Inv(s) && Legal(s, hash, steps) && ByOthers(steps, task)
    ensures SameFor(task, s, Run(s, steps))
    decreases |steps|
  {
    hide Inv, Apply, Enabled, Owns, IsBatchOf;
    if steps != [] {
      assert steps[0] in steps;
      OtherStep(s, hash, steps[0], task);
      StepInv(s, hash, steps[0]);
      OthersRun(Apply(s, steps[0]), hash, steps[1..], task);
    }
  }

  /** A reachable store is within its limits. */
  lemma ReachableBounded(s: System, hash: Hash)
    requires Reachable(s, hash)
    ensures DistinctKeys(s.cache.entries) && TotalSize(s.cache.entries) <= s.cache.max_size
  {
    hide Reachable;
    ReachableInv(s, hash);
    StoreIsBounded(s.log, s.cache.max_size);
  }

  // ----- No chunk is fetched twice at once -----

  /** The keys being fetched are the disjoint union of the unfulfilled batches, none is cached, and
      no batch repeats a key. */
  lemma NoDoubleFetch(s: System, hash: Hash, k: ChunkKey)
    requires Reachable(s, hash)
    ensures k in s.cache.pending <==> exists e :: e in s.batches && k in s.batches[e]
    ensures forall e, f :: e in s.batches && f in s.batches && k in s.batches[e] && k in s.batches[f] ==> e == f
    ensures forall e :: e in s.batches ==> NoDuplicates(s.batches[e])
    ensures k in s.cache.pending ==> !HasKey(s.cache.entries, k)
  {
    hide Lookup;
    ReachableInv(s, hash);
  }

  ghost predicate BatchesWithin(s: System, limit: nat) {
    forall e :: e in s.batches ==> |s.batches[e]| <= limit
  }

  /** If every claim asks for at most `limit` chunks, no unfulfilled batch ever has more, in any interleaving. */
  lemma {:induction false} BatchesStayWithin(s: System, steps: seq<Step>, limit: nat)
    requires BatchesWithin(s, limit)
    requires forall step :: step in steps && step.Claim? ==> step.batch_size <= limit
    ensures BatchesWithin(Run(s, steps), limit)
    decreases |steps|
  {
    hide Sort, Waits, NotPending, InsertAll, Collected;
    if steps != [] {
      assert steps[0] in steps;
      if steps[0].Claim? {
        SortIsOk(s.cache, steps[0].requested, steps[0].batch_size);
      }
      BatchesStayWithin(Apply(s, steps[0]), steps[1..], limit);
    }
  }

  /** `fulfill` never replaces an entry: when it inserts the i-th chunk of its batch, the key is not
      in the store. */
  lemma FulfillNeverReplaces(s: System, hash: Hash, task: nat, event: nat, chunks: seq<bytes>, i: nat)
    requires Reachable(s, hash) && Enabled(s, hash, Fulfill(task, event, chunks))
    requires i < |chunks|
    ensures !HasKey(InsertAll(s.cache.entries, s.cache.max_size, Zip(s.batches[event], chunks)[..i]),
                    s.batches[event][i])
  {
    hide Lookup, HasKey, InsertAll;
    ReachableInv(s, hash);
    var keys := s.batches[event];
    var es := Zip(keys, chunks);
    assert es[..i] == Zip(keys[..i], chunks[..i]);
    assert keys[i] in keys;
    if HasKey(InsertAll(s.cache.entries, s.cache.max_size, es[..i]), keys[i]) {
      InsertAllNothingElse(s.cache.entries, s.cache.max_size, es[..i], keys[i]);
      ZipKeys(keys[..i], chunks[..i], keys[i]);
    }
  }

  // ----- Waiters -----

  /** What decides whether a waiter that may go on gets its chunks: nobody has poisoned the lock, and
      the bytes from each chunk's latest insertion onward still fit. In any case each of its keys has
      been inserted. */
  lemma WaiterOutcome(s: System, hash: Hash, task: nat)
    requires Reachable(s, hash) && Enabled(s, hash, Collect(task))
    requires CollisionFree(s.log, hash)
    ensures forall w :: w in s.waiters[task] ==> HasKey(s.log, w.key)
    ensures CollectResult(s.cache, s.waiters[task]).Some? <==>
            && !s.cache.poisoned
            && forall w :: w in s.waiters[task] ==> SizeFrom(Latest(s.log), w.key) <= s.cache.max_size
  {
    hide Lookup, HasKey, InsertAll, Latest, SizeFrom, Collected;
    ReachableInv(s, hash);
    CollectedIff(s.cache.entries, s.waiters[task]);
    forall w | w in s.waiters[task]
      ensures HasKey(s.log, w.key)
      ensures HasKey(s.cache.entries, w.key) <==> SizeFrom(Latest(s.log), w.key) <= s.cache.max_size
    {
      assert WaitOk(s, w);
      CachedIff(s.log, s.cache.max_size, w.key);
    }
  }

  /** A sufficient condition that needs no premise on chunk sizes: the lock is not poisoned, and each
      waited-on key was inserted at some point from which on no more than `max_size` bytes were. */
  lemma WaiterSucceeds(s: System, hash: Hash, task: nat)
    requires Reachable(s, hash) && Enabled(s, hash, Collect(task)) && !s.cache.poisoned
    requires forall w :: w in s.waiters[task] ==>
      exists p :: 0 <= p < |s.log| && s.log[p].key == w.key && TotalSize(s.log[p..]) <= s.cache.max_size
    ensures CollectResult(s.cache, s.waiters[task]).Some?
  {
    hide Lookup, HasKey, InsertAll, Collected;
    ReachableInv(s, hash);
    CollectedIff(s.cache.entries, s.waiters[task]);
    forall w | w in s.waiters[task] ensures HasKey(s.cache.entries, w.key) {
      var p :| 0 <= p < |s.log| && s.log[p].key == w.key && TotalSize(s.log[p..]) <= s.cache.max_size;
      Retained([], s.log, s.cache.max_size, p);
    }
  }

  /** Without any premise on a single waiter: as long as no more has been inserted in all than the store
      can hold, the lock is not poisoned and every waiter that may go on gets its chunks. */
  lemma RoomMeansNoPanic(s: System, hash: Hash, task: nat)
    requires Reachable(s, hash) && TotalSize(s.log) <= s.cache.max_size
    ensures !s.cache.poisoned
    ensures Enabled(s, hash, Collect(task)) ==> CollectResult(s.cache, s.waiters[task]).Some?
  {
    hide Lookup, HasKey, InsertAll, Collected, TotalSize;
    ReachableInv(s, hash);
    if Enabled(s, hash, Collect(task)) {
      CollectedIff(s.cache.entries, s.waiters[task]);
      forall w | w in s.waiters[task] ensures HasKey(s.cache.entries, w.key) {
        assert WaitOk(s, w);
        if !HasKey(s.cache.entries, w.key) {
          MissingMeansOverflow(s, w.key);
        }
      }
    }
  }

  // ----- Poisoning -----

  /** Does this step panic in the `expect` of a waiter, under a lock that was sound? */
  predicate Loses(s: System, step: Step) {
    step.Collect? && step.task in s.waiters && !s.cache.poisoned
      && Collected(s.cache.entries, s.waiters[step.task]).None?
  }

  lemma PoisonStep(s: System, step: Step)
    ensures Apply(s, step).cache.poisoned <==> s.cache.poisoned || Loses(s, step)
  {
    hide Sort, Waits, NotPending, InsertAll, Collected;
  }

  lemma {:induction false} RunLast(s: System, steps: seq<Step>)
    requires steps != []
    ensures Run(s, steps) == Apply(Run(s, steps[..|steps| - 1]), steps[|steps| - 1])
    decreases |steps|
  {
    hide Apply;
    if |steps| == 1 {
      assert steps[1..] == [] && steps[..0] == [];
    } else {
      RunLast(Apply(s, steps[0]), steps[1..]);
      assert steps[1..][..|steps[1..]| - 1] == steps[..|steps| - 1][1..];
    }
  }

  /** Over a whole run: the lock is poisoned at the end if and only if some waiter lost a chunk. */
  lemma {:induction false} PoisonedIff(s: System, steps: seq<Step>)
    requires !s.cache.poisoned
    ensures Run(s, steps).cache.poisoned <==>
      exists i :: 0 <= i < |steps| && Loses(Run(s, steps[..i]), steps[i])
    decreases |steps|
  {
    hide Apply, Loses, Run;
    if steps == [] {
      RunNothing(s);
    } else {
      var prior, last := steps[..|steps| - 1], steps[|steps| - 1];
      RunLast(s, steps);
      PoisonedIff(s, prior);
      PoisonStep(Run(s, prior), last);
      if i :| 0 <= i < |prior| && Loses(Run(s, prior[..i]), prior[i]) {
        assert prior[..i] == steps[..i];
        assert Loses(Run(s, steps[..i]), steps[i]);
      }
      if i :| 0 <= i < |steps| && Loses(Run(s, steps[..i]), steps[i]) {
        if i < |prior| {
          assert prior[..i] == steps[..i];
          assert Loses(Run(s, prior[..i]), prior[i]);
        }
      }
    }
  }

  lemma RunNothing(s: System)
    ensures Run(s, []) == s
  {
  }

  /** Once poisoned, always poisoned: from then on no call gets past the lock. */
  lemma {:induction false} PoisonedForever(s: System, steps: seq<Step>)
    requires s.cache.poisoned
    ensures Run(s, steps).cache == s.cache && Run(s, steps).log == s.log
    decreases |steps|
  {
    hide Sort, Waits, NotPending, InsertAll, Collected;
    if steps != [] {
      PoisonedForever(Apply(s, steps[0]), steps[1..]);
    }
  }

  /** Do the bytes of each chunk that the task waits for, from its latest insertion onward, still fit? */
  ghost predicate WaitsFit(s: System, task: nat) {
    task in s.waiters ==> forall w :: w in s.waiters[task] ==> SizeFrom(Latest(s.log), w.key) <= s.cache.max_size
  }

  /** Whenever a waiter goes on in the run, is that so? */
  ghost predicate CollectsFit(s: System, steps: seq<Step>) {
    forall i :: 0 <= i < |steps| && steps[i].Collect? ==> WaitsFit(Run(s, steps[..i]), steps[i].task)
  }

  lemma CollectAt(s: System, hash: Hash, steps: seq<Step>, i: nat)
    requires Reachable(s, hash) && Legal(s, hash, steps) && CollisionFree(Run(s, steps).log, hash)
    requires i < |steps| && steps[i].Collect?
    ensures var before := Run(s, steps[..i]);
            Loses(before, steps[i]) <==> !before.cache.poisoned && !WaitsFit(before, steps[i].task)
  {
    hide Apply, Run, SizeFrom, Latest, Collected, InsertAll, Reachable;
    var before := Run(s, steps[..i]);
    LegalSplits(s, hash, steps, i);
    assert steps[i..][0] == steps[i];
    assert Enabled(before, hash, steps[i]);
    RunGrows(before, steps[i..]);
    ReachableOn(s, hash, steps[..i]);
    WaiterOutcome(before, hash, steps[i].task);
  }

  /** Over a whole run: the lock stays sound if and only if for every waiter that went on the bytes from each
      chunk's latest insertion onward still fitted at that moment. */
  lemma SoundIff(s: System, hash: Hash, steps: seq<Step>)
    requires Reachable(s, hash) && Legal(s, hash, steps) && CollisionFree(Run(s, steps).log, hash)
    requires !s.cache.poisoned
    ensures !Run(s, steps).cache.poisoned <==> CollectsFit(s, steps)
  {
    hide Apply, Run, Loses, WaitsFit, Reachable, Legal, CollisionFree;
    PoisonedIff(s, steps);
    forall i | 0 <= i < |steps| && steps[i].Collect?
      ensures Loses(Run(s, steps[..i]), steps[i])
         <==> !Run(s, steps[..i]).cache.poisoned && !WaitsFit(Run(s, steps[..i]), steps[i].task)
      ensures Run(s, steps[..i]).cache.poisoned ==> Run(s, steps).cache.poisoned
    {
      CollectAt(s, hash, steps, i);
      LegalSplits(s, hash, steps, i);
      if Run(s, steps[..i]).cache.poisoned {
        PoisonedForever(Run(s, steps[..i]), steps[i..]);
      }
    }
    assert forall i :: 0 <= i < |steps| && Loses(Run(s, steps[..i]), steps[i]) ==> steps[i].Collect? by {
      OnlyCollectLoses();
    }
  }

  lemma OnlyCollectLoses()
    ensures forall s, step :: Loses(s, step) ==> step.Collect?
  {
  }

  // ----- Who may go on -----

  /** A waiter may go on if and only if none of the batches that it waits for is outstanding. */
  lemma WaitersProceed(s: System, hash: Hash, task: nat)
    requires Reachable(s, hash) && task in s.waiters
    ensures Enabled(s, hash, Collect(task)) <==> forall w :: w in s.waiters[task] ==> w.event !in s.batches
  {
    hide Lookup, HasKey, InsertAll;
    ReachableInv(s, hash);
    forall w | w in s.waiters[task] ensures w.event in s.cache.closed <==> w.event !in s.batches {
      assert WaitOk(s, w);
    }
  }

  /** A batch that can never be fulfilled: it was dropped, or the lock is poisoned. */
  predicate Dead(s: System, event: nat) {
    event in s.batches && (event in s.abandoned || s.cache.poisoned)
  }

  ghost predicate WaitsForDead(s: System, task: nat) {
    task in s.waiters && exists w :: w in s.waiters[task] && Dead(s, w.event)
  }

  lemma DeadStep(s: System, hash: Hash, step: Step, task: nat)
    requires Inv(s) && Enabled(s, hash, step) && WaitsForDead(s, task)
    ensures WaitsForDead(Apply(s, step), task)
  {
    hide Sort, Waits, NotPending, InsertAll, Collected, TotalSize, HasKey, PendingIsBatches, WaitersOk,
      PendingNotCached, PoisonOk, NoDuplicates;
    var w :| w in s.waiters[task] && Dead(s, w.event);
    var s' := Apply(s, step);
    assert task in s'.waiters && w in s'.waiters[task];
    assert Dead(s', w.event);
  }

  /** Whoever waits for such a batch never goes on, whatever happens. */
  lemma {:induction false} DeadForever(s: System, hash: Hash, steps: seq<Step>, task: nat)
    requires Inv(s) && Legal(s, hash, steps) && WaitsForDead(s, task)
    ensures WaitsForDead(Run(s, steps), task) && !Enabled(Run(s, steps), hash, Collect(task))
    decreases |steps|
  {
    hide Apply, Enabled, WaitsForDead, Inv;
    if steps == [] {
      DeadBlocks(s, hash, task);
    } else {
      DeadStep(s, hash, steps[0], task);
      StepInv(s, hash, steps[0]);
      DeadForever(Apply(s, steps[0]), hash, steps[1..], task);
    }
  }

  lemma DeadBlocks(s: System, hash: Hash, task: nat)
    requires Inv(s) && WaitsForDead(s, task)
    ensures !Enabled(s, hash, Collect(task))
  {
    hide PendingIsBatches, WaitersOk, PendingNotCached, PoisonOk, InsertAll;
  }

  /** The chunks of this batch exist. */
  ghost predicate Fetchable(hash: Hash, keys: seq<ChunkKey>) {
    forall k :: k in keys ==> exists c :: hash(c) == k
  }

  lemma {:induction false} ChunksFor(hash: Hash, keys: seq<ChunkKey>) returns (chunks: seq<bytes>)
    requires Fetchable(hash, keys)
    ensures |chunks| == |keys| && forall i :: 0 <= i < |keys| ==> hash(chunks[i]) == keys[i]
  {
    chunks := [];
    for i := 0 to |keys|
      invariant |chunks| == i && forall j :: 0 <= j < i ==> hash(chunks[j]) == keys[j]
    {
      assert keys[i] in keys;
      var c :| hash(c) == keys[i];
      chunks := chunks + [c];
    }
  }

  function Outstanding(s: System, task: nat): set<nat>
    requires task in s.waiters
  {
    set w | w in s.waiters[task] && w.event in s.batches :: w.event
  }

  lemma FulfillOne(s: System, hash: Hash, task: nat, event: nat, chunks: seq<bytes>)
    requires Inv(s) && task in s.waiters && !WaitsForDead(s, task) && event in Outstanding(s, task)
    requires !s.cache.poisoned && event in s.owner && Enabled(s, hash, Fulfill(s.owner[event], event, chunks))
    ensures var s' := Apply(s, Fulfill(s.owner[event], event, chunks));
            && task in s'.waiters && !WaitsForDead(s', task) && !s'.cache.poisoned && s'.waiters == s.waiters
            && s'.batches == s.batches - {event} && Outstanding(s', task) == Outstanding(s, task) - {event}
  {
    hide InsertAll, Unmark, Inv, TotalSize;
  }

  /** Otherwise the other tasks can make it go on, by fulfilling what it waits for. */
  lemma {:induction false} CanGoOn(s: System, hash: Hash, task: nat) returns (steps: seq<Step>)
    requires Reachable(s, hash) && task in s.waiters && !WaitsForDead(s, task)
    requires forall e :: e in s.batches ==> Fetchable(hash, s.batches[e])
    ensures Legal(s, hash, steps) && Enabled(Run(s, steps), hash, Collect(task))
    decreases |Outstanding(s, task)|
  {
    hide Reachable, Apply, Inv, Fetchable, WaitersOk, Dead;
    ReachableInv(s, hash);
    WaitersProceed(s, hash, task);
    if Outstanding(s, task) == {} {
      assert forall w :: w in s.waiters[task] && w.event in s.batches ==> w.event in Outstanding(s, task);
      steps := [];
    } else {
      var event :| event in Outstanding(s, task);
      OutstandingIsOwned(s, task, event);
      var chunks := ChunksFor(hash, s.batches[event]);
      var step := Fulfill(s.owner[event], event, chunks);
      FulfillOne(s, hash, task, event, chunks);
      ReachableStep(s, hash, step);
      var rest := CanGoOn(Apply(s, step), hash, task);
      steps := [step] + rest;
      assert steps[1..] == rest;
    }
  }

  lemma OutstandingIsOwned(s: System, task: nat, event: nat)
    requires Inv(s) && task in s.waiters && !WaitsForDead(s, task) && event in Outstanding(s, task)
    ensures event in s.owner && Owns(s, s.owner[event], event) && !s.cache.poisoned
  {
    hide PendingIsBatches, WaitersOk, PendingNotCached, PoisonOk, InsertAll;
    var w :| w in s.waiters[task] && w.event == event;
    assert !Dead(s, w.event);
  }

  /** A waiter is blocked for ever if and only if it waits for an outstanding batch that was dropped, or for
      any outstanding batch under a poisoned lock (provided that the chunks asked for exist). */
  lemma BlockedForeverIff(s: System, hash: Hash, task: nat)
    requires Reachable(s, hash) && task in s.waiters
    requires forall e :: e in s.batches ==> Fetchable(hash, s.batches[e])
    ensures (forall steps :: Legal(s, hash, steps) ==> !Enabled(Run(s, steps), hash, Collect(task)))
       <==> exists w :: w in s.waiters[task] && Dead(s, w.event)
  {
    hide Reachable, Fetchable, Inv, Run, Legal, Enabled, Dead;
    ReachableInv(s, hash);
    if WaitsForDead(s, task) {
      forall steps | Legal(s, hash, steps) ensures !Enabled(Run(s, steps), hash, Collect(task)) {
        DeadForever(s, hash, steps, task);
      }
    } else {
      var steps := CanGoOn(s, hash, task);
    }
  }

  // ----- Abandoned batches -----

  lemma {:induction false} AbandonedForever(s: System, hash: Hash, steps: seq<Step>, event: nat)
    requires Inv(s) && Legal(s, hash, steps) && event in s.abandoned
    ensures event in Run(s, steps).abandoned
    ensures event in Run(s, steps).batches && Run(s, steps).batches[event] == s.batches[event]
    ensures Inv(Run(s, steps))
    decreases |steps|
  {
    hide Sort, Waits, NotPending, InsertAll, Lookup;
    if steps != [] {
      var s' := Apply(s, steps[0]);
      StepInv(s, hash, steps[0]);
      AbandonedForever(s', hash, steps[1..], event);
    }
  }

  /** The keys of an abandoned batch stay pending and uncached, and whoever waits for one of them is
      never able to go on, whatever happens afterwards. */
  lemma AbandonedBlocks(s: System, hash: Hash, steps: seq<Step>, event: nat)
    requires Reachable(s, hash) && Legal(s, hash, steps) && event in s.abandoned
    ensures event in s.batches
    ensures var s' := Run(s, steps);
            && (forall k :: k in s.batches[event] ==> k in s'.cache.pending && !HasKey(s'.cache.entries, k))
            && (forall t, w :: t in s'.waiters && w in s'.waiters[t] && w.event == event ==>
                  !Enabled(s', hash, Collect(t)))
  {
    hide Run, Legal, InsertAll, HasKey;
    ReachableInv(s, hash);
    AbandonedForever(s, hash, steps, event);
  }

  // ----- A waiter can be blocked, and can lose -----

  /** A waiter can be blocked for ever: a batch is handed out, another task waits for it, and it is dropped. */
  lemma WaiterCanBlock(hash: Hash, k: ChunkKey) returns (s: System)
    ensures Reachable(s, hash) && 1 in s.waiters
    ensures forall steps :: Legal(s, hash, steps) ==>
      1 in Run(s, steps).waiters && !Enabled(Run(s, steps), hash, Collect(1))
  {
    hide Sort, Waits, NotPending, InsertAll, Legal, Run, Collected, Inv;
    var s0 := System(State([], 1, map[], 0, {}, false), map[], map[], {}, map[], []);
    var s1 := s0.(cache := State([], 1, map[k := 0], 1, {}, false), batches := map[0 := [k]], owner := map[0 := 0]);
    var s2 := s1.(waiters := map[1 := [Wait(k, 0)]]);
    var claim, wait, abandon := Claim(0, [k], 512), Claim(1, [k], 512), Abandon(0, 0);
    SortOneFresh(s0.cache, k);
    SortPending(s1.cache, k);
    assert Apply(s0, claim) == s1 && Apply(s1, wait) == s2;
    s := Apply(s2, abandon);
    RunThree(s0, hash, claim, wait, abandon);
    assert s0.cache.entries == InsertAll([], 1, []) by { EmptyStore(1); }
    assert Initial(s0);
    ReachableInv(s, hash);
    assert Wait(k, 0) in s.waiters[1] && Dead(s, 0);
    forall steps | Legal(s, hash, steps)
      ensures 1 in Run(s, steps).waiters && !Enabled(Run(s, steps), hash, Collect(1))
    {
      DeadForever(s, hash, steps, 1);
    }
  }

  lemma SortOneFresh(c: State, k: ChunkKey)
    requires c.entries == [] && c.pending == map[]
    ensures Sort(c, [k], 512) == Sorted([], map[], [k])
  {
    assert [k][..0] == [];
    assert Sort(c, [], 512) == Sorted([], map[], []);
  }

  /** The lookup can fail although every batch is fulfilled: with a store of one byte, the second of
      two one-byte chunks evicts the first before the waiter reads it. */
  lemma WaiterCanPanic(hash: Hash, c1: bytes, c2: bytes) returns (s: System)
    requires |c1| == 1 && |c2| == 1 && hash(c1) != hash(c2)
    ensures Reachable(s, hash) && s.batches == map[]
    ensures Enabled(s, hash, Collect(1))
    ensures CollectResult(s.cache, s.waiters[1]) == None && !s.cache.poisoned
  {
    hide Sort, Waits, NotPending, InsertAll, Legal, Run, Collected;
    var k1, k2 := hash(c1), hash(c2);
    var s0 := System(State([], 1, map[], 0, {}, false), map[], map[], {}, map[], []);
    var s1 := s0.(cache := State([], 1, map[k1 := 0, k2 := 0], 1, {}, false), batches := map[0 := [k1, k2]],
      owner := map[0 := 0]);
    var s2 := s1.(waiters := map[1 := [Wait(k1, 0)]]);
    var claim, wait, fulfill := Claim(0, [k1, k2], 512), Claim(1, [k1], 512), Fulfill(0, 0, [c1, c2]);
    TwoClaims(s0, s1, k1, k2);
    s := Apply(s2, fulfill);
    AfterFulfill(s2, Entry(k1, c1), Entry(k2, c2));
    RunThree(s0, hash, claim, wait, fulfill);
    assert s0.cache.entries == InsertAll([], 1, []) by { EmptyStore(1); }
    assert Initial(s0);
    assert Enabled(s1, hash, wait) && Enabled(s0, hash, claim);
    assert Enabled(s2, hash, fulfill);
  }

  lemma TwoClaims(s0: System, s1: System, k1: ChunkKey, k2: ChunkKey)
    requires k1 != k2
    requires s0 == System(State([], 1, map[], 0, {}, false), map[], map[], {}, map[], [])
    requires s1 == s0.(cache := State([], 1, map[k1 := 0, k2 := 0], 1, {}, false), batches := map[0 := [k1, k2]],
                       owner := map[0 := 0])
    ensures Apply(s0, Claim(0, [k1, k2], 512)) == s1
    ensures Apply(s1, Claim(1, [k1], 512)) == s1.(waiters := map[1 := [Wait(k1, 0)]])
  {
    hide Sort, Waits, NotPending;
    SortTwo(s0.cache, k1, k2);
    SortPending(s1.cache, k1);
  }

  lemma EmptyStore(max: nat)
    ensures InsertAll([], max, []) == []
  {
  }

  lemma RunThree(s: System, hash: Hash, a: Step, b: Step, c: Step)
    ensures Run(s, [a, b, c]) == Apply(Apply(Apply(s, a), b), c)
    ensures Legal(s, hash, [a, b, c]) <==>
      Enabled(s, hash, a) && Enabled(Apply(s, a), hash, b) && Enabled(Apply(Apply(s, a), b), hash, c)
  {
    hide Apply, Enabled;
    assert [a, b, c][1..] == [b, c] && [b, c][1..] == [c] && [c][1..] == [];
    var s2 := Apply(Apply(s, a), b);
    assert Run(s2, [c]) == Apply(s2, c);
    assert Legal(s2, hash, [c]) <==> Enabled(s2, hash, c);
    assert Legal(Apply(s, a), hash, [b, c]) <==> Enabled(Apply(s, a), hash, b) && Legal(s2, hash, [c]);
  }

  lemma AfterFulfill(s: System, e1: Entry, e2: Entry)
    requires s.cache.entries == [] && s.cache.max_size == 1 && s.batches == map[0 := [e1.key, e2.key]]
    requires s.waiters == map[1 := [Wait(e1.key, 0)]] && !s.cache.poisoned
    requires |e1.chunk| == 1 && |e2.chunk| == 1 && e1.key != e2.key
    ensures var s' := Apply(s, Fulfill(0, 0, [e1.chunk, e2.chunk]));
            && s'.batches == map[] && s'.waiters == s.waiters && 0 in s'.cache.closed && !s'.cache.poisoned
            && CollectResult(s'.cache, s'.waiters[1]) == None
  {
    hide InsertAll;
    assert Zip([e1.key, e2.key], [e1.chunk, e2.chunk]) == [e1, e2];
    StoreTwo(e1, e2);
    assert [Wait(e1.key, 0)][..0] == [];
    assert [e2][1..] == [];
  }

  lemma SortTwo(c: State, k1: ChunkKey, k2: ChunkKey)
    requires c.entries == [] && c.pending == map[] && k1 != k2
    ensures Sort(c, [k1, k2], 512) == Sorted([], map[], [k1, k2])
  {
    assert [k1, k2][..1] == [k1] && [k1][..0] == [];
    assert Sort(c, [k1], 512) == Sorted([], map[], [k1]);
  }

  lemma SortPending(c: State, k: ChunkKey)
    requires c.entries == [] && k in c.pending
    ensures Sort(c, [k], 512) == Sorted([k], map[], [])
    ensures Waits(c, [k]) == [Wait(k, c.pending[k])]
  {
    assert [k][..0] == [];
    assert Sort(c, [], 512) == Sorted([], map[], []);
  }

  lemma StoreTwo(e1: Entry, e2: Entry)
    requires |e1.chunk| == 1 && |e2.chunk| == 1 && e1.key != e2.key
    ensures InsertAll([], 1, [e1, e2]) == [e2]
  {
    assert [e1, e2][1..] == [e2] && [e2][1..] == [];
    assert TotalSize([e2]) == 1;
    assert DistinctKeys([e2]);
    StoreOfDistinctKeys([e1, e2], 1);
  }
}
