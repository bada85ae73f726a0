/** The shared cache (`ChunkCache` of `src/chunk_cache.rs`): each region executed under the lock is
    one operation on the state. The semaphore that waiters of a batch share is an event number;
    closing it is putting its number into `closed`. A panic under the lock poisons the mutex, and
    every later attempt to take it panics. */
module ChunkCache {
  import opened Bytes
  import opened Keys
  import opened ChunkStore

  /** The mutex-protected state, together with the semaphores handed out. */
  datatype State = State(
    entries: seq<Entry>,
    max_size: nat,
    pending: map<ChunkKey, nat>,
    next_event: nat,
    closed: set<nat>,
    poisoned: bool)

  datatype Wait = Wait(key: ChunkKey, event: nat)

  /** How the first locked region of `get_chunks_batched` ends. */
  datatype Claimed = Batch(event: nat, keys: seq<ChunkKey>) | Waiting(waits: seq<Wait>) | Nothing | LockPoisoned

  // ----- First region: sort the requested keys -----

  datatype Sorted = Sorted(kept: seq<ChunkKey>, found: map<ChunkKey, bytes>, batch: seq<ChunkKey>)

  /** The first `retain`: what stays requested, what is output, and what goes into the batch. */
  function Sort(s: State, requested: seq<ChunkKey>, batch_size: nat): Sorted {
    if requested == [] then Sorted([], map[], [])
    else SortOne(s, Sort(s, requested[..|requested| - 1], batch_size), requested[|requested| - 1], batch_size)
  }

  function SortOne(s: State, r: Sorted, key: ChunkKey, batch_size: nat): Sorted {
    match Lookup(s.entries, key)
    case Some(chunk) => r.(found := r.found[key := chunk])
    case None =>
      if key !in s.pending && |r.batch| < batch_size && key !in r.batch then r.(batch := r.batch + [key])
      else r.(kept := r.kept + [key])
  }

  /** The second `retain`: the keys some other task is fetching become waits. */
  function Waits(s: State, kept: seq<ChunkKey>): seq<Wait> {
    if kept == [] then []
    else
      var key := kept[|kept| - 1];
      Waits(s, kept[..|kept| - 1]) + if key in s.pending then [Wait(key, s.pending[key])] else []
  }

  function NotPending(s: State, kept: seq<ChunkKey>): seq<ChunkKey> {
    if kept == [] then []
    else
      var key := kept[|kept| - 1];
      NotPending(s, kept[..|kept| - 1]) + if key in s.pending then [] else [key]
  }

  function MarkPending(pending: map<ChunkKey, nat>, keys: seq<ChunkKey>, event: nat): map<ChunkKey, nat> {
    map k | k in pending.Keys + (set key | key in keys) :: if k in keys then event else pending[k]
  }

  function ClaimedState(s: State, batch: seq<ChunkKey>): State {
    if batch == [] then s
    else s.(pending := MarkPending(s.pending, batch, s.next_event), next_event := s.next_event + 1)
  }

  function ClaimedResult(s: State, r: Sorted): Claimed {
    if r.batch != [] then Batch(s.next_event, r.batch)
    else if Waits(s, r.kept) == [] then Nothing
    else Waiting(Waits(s, r.kept))
  }

  function StillRequested(s: State, r: Sorted): seq<ChunkKey> {
    if r.batch != [] then r.kept else NotPending(s, r.kept)
  }

  /** The first region as a whole: taking a poisoned lock panics. */
  function AfterClaim(s: State, requested: seq<ChunkKey>, batch_size: nat): State {
    if s.poisoned then s else ClaimedState(s, Sort(s, requested, batch_size).batch)
  }

  function ClaimResult(s: State, requested: seq<ChunkKey>, batch_size: nat): Claimed {
    if s.poisoned then LockPoisoned else ClaimedResult(s, Sort(s, requested, batch_size))
  }

  // ----- Second region, and fulfilling a batch -----

  /** All waited-on chunks, or None if some chunk is missing. */
  function Collected(entries: seq<Entry>, waits: seq<Wait>): Option<map<ChunkKey, bytes>> {
    if waits == [] then Some(map[])
    else
      var w := waits[|waits| - 1];
      match Collected(entries, waits[..|waits| - 1])
      case None => None
      case Some(m) =>
        match Lookup(entries, w.key)
        case None => None
        case Some(chunk) => Some(m[w.key := chunk])
  }

  /** The second region: None is a panic, of `expect` on a missing chunk or on the poisoned lock. */
  function CollectResult(s: State, waits: seq<Wait>): Option<map<ChunkKey, bytes>> {
    if s.poisoned then None else Collected(s.entries, waits)
  }

  /** The `expect` panics under the lock. */
  function AfterCollect(s: State, waits: seq<Wait>): State {
    s.(poisoned := CollectResult(s, waits).None?)
  }

  function Zip(keys: seq<ChunkKey>, chunks: seq<bytes>): (es: seq<Entry>)
    requires |keys| == |chunks|
    ensures |es| == |keys|
  {
    seq(|keys|, i requires 0 <= i < |keys| => Entry(keys[i], chunks[i]))
  }

  function Unmark(pending: map<ChunkKey, nat>, keys: seq<ChunkKey>): map<ChunkKey, nat> {
    map k | k in pending && k !in keys :: pending[k]
  }

  lemma UnmarkNone(pending: map<ChunkKey, nat>)
    ensures Unmark(pending, []) == pending
  {
  }

  lemma UnmarkOne(pending: map<ChunkKey, nat>, keys: seq<ChunkKey>, key: ChunkKey)
    ensures Unmark(pending, keys + [key]) == Unmark(pending, keys) - {key}
  {
  }

  /** `fulfill` panics on a poisoned lock, before it changes or closes anything. */
  function Fulfilled(s: State, event: nat, keys: seq<ChunkKey>, chunks: seq<bytes>): State
    requires |keys| == |chunks|
  {
    if s.poisoned then s
    else s.(entries := InsertAll(s.entries, s.max_size, Zip(keys, chunks)),
       pending := Unmark(s.pending, keys),
       closed := s.closed + {event})
  }

  // ----- What sorting guarantees, whatever the other tasks did before -----

  /** Nothing requested is lost; the batch is fresh, duplicate-free and bounded; and what stays
      requested is being fetched, is in the batch already, or found the batch full. */
  ghost predicate SortedOk(s: State, requested: seq<ChunkKey>, batch_size: nat, r: Sorted) {
    && (forall k :: k in requested <==> k in r.kept || k in r.found || k in r.batch)
    && (forall k :: k in r.found ==> Lookup(s.entries, k) == Some(r.found[k]))
    && (forall k :: k in r.batch ==> !HasKey(s.entries, k) && k !in s.pending)
    && (forall i, j :: 0 <= i < j < |r.batch| ==> r.batch[i] != r.batch[j])
    && |r.batch| <= batch_size
    && (forall k :: k in r.kept ==>
          !HasKey(s.entries, k) && (k in s.pending || k in r.batch || |r.batch| == batch_size))
    && |r.kept| <= |requested|
    && (r.found != map[] || r.batch != [] ==> |r.kept| < |requested|)
  }

  lemma {:induction false} SortIsOk(s: State, requested: seq<ChunkKey>, batch_size: nat)
    ensures SortedOk(s, requested, batch_size, Sort(s, requested, batch_size))
  {
    if requested != [] {
      var prior, key := requested[..|requested| - 1], requested[|requested| - 1];
      SortIsOk(s, prior, batch_size);
      assert requested == prior + [key];
      SortOneIsOk(s, prior, batch_size, Sort(s, prior, batch_size), key);
    }
  }

  lemma SortOneIsOk(s: State, prior: seq<ChunkKey>, batch_size: nat, r: Sorted, key: ChunkKey)
    requires SortedOk(s, prior, batch_size, r)
    ensures SortedOk(s, prior + [key], batch_size, SortOne(s, r, key, batch_size))
  {
    hide Lookup;
  }

  /** The requested keys that are neither cached nor being fetched, in order, each once. */
  function Fresh(s: State, requested: seq<ChunkKey>): seq<ChunkKey> {
    if requested == [] then []
    else
      var prior, key := Fresh(s, requested[..|requested| - 1]), requested[|requested| - 1];
      if HasKey(s.entries, key) || key in s.pending || key in prior then prior else prior + [key]
  }

  lemma {:induction false} FreshAre(s: State, requested: seq<ChunkKey>, k: ChunkKey)
    ensures k in Fresh(s, requested) <==> k in requested && !HasKey(s.entries, k) && k !in s.pending
  {
    hide Lookup;
    if requested != [] {
      FreshAre(s, requested[..|requested| - 1], k);
    }
  }

  /** The batch is exactly the first `batch_size` of those. */
  lemma {:induction false} BatchIsFirstFresh(s: State, requested: seq<ChunkKey>, batch_size: nat)
    ensures var all := Fresh(s, requested);
            Sort(s, requested, batch_size).batch == all[..if batch_size < |all| then batch_size else |all|]
  {
    hide Lookup;
    if requested != [] {
      BatchIsFirstFresh(s, requested[..|requested| - 1], batch_size);
    }
  }

  /** Is `part` what is left of `whole` when some keys are struck out? */
  predicate InOrder(part: seq<ChunkKey>, whole: seq<ChunkKey>)
    decreases |whole|
  {
    part == [] ||
      (whole != [] &&
        (|| (part[|part| - 1] == whole[|whole| - 1] && InOrder(part[..|part| - 1], whole[..|whole| - 1]))
         || InOrder(part, whole[..|whole| - 1])))
  }

  function CachedOf(s: State, requested: seq<ChunkKey>): seq<ChunkKey> {
    if requested == [] then []
    else
      var key := requested[|requested| - 1];
      CachedOf(s, requested[..|requested| - 1]) + if HasKey(s.entries, key) then [key] else []
  }

  lemma InOrderMore(part: seq<ChunkKey>, whole: seq<ChunkKey>, key: ChunkKey)
    requires InOrder(part, whole)
    ensures InOrder(part, whole + [key]) && InOrder(part + [key], whole + [key])
  {
    assert (whole + [key])[..|whole|] == whole && (part + [key])[..|part|] == part;
  }

  lemma CountMore(part: seq<ChunkKey>, key: ChunkKey)
    ensures multiset(part + [key]) == multiset(part) + multiset{key}
  {
  }

  /** What stays requested is, in order, everything but the cached keys and one occurrence of each batch key. */
  lemma {:induction false} KeptIs(s: State, requested: seq<ChunkKey>, batch_size: nat)
    ensures var r := Sort(s, requested, batch_size);
            && InOrder(r.kept, requested)
            && multiset(requested) == multiset(r.kept) + multiset(r.batch) + multiset(CachedOf(s, requested))
  {
    hide Lookup, InOrder;
    if requested == [] {
      assert InOrder([], requested) by { NothingInOrder(requested); }
    } else {
      var prior, key := requested[..|requested| - 1], requested[|requested| - 1];
      KeptIs(s, prior, batch_size);
      assert requested == prior + [key];
      KeptOne(s, prior, batch_size, Sort(s, prior, batch_size), CachedOf(s, prior), key);
    }
  }

  lemma NothingInOrder(whole: seq<ChunkKey>)
    ensures InOrder([], whole)
  {
  }

  lemma KeptOne(s: State, prior: seq<ChunkKey>, batch_size: nat, r: Sorted, cached: seq<ChunkKey>, key: ChunkKey)
    requires InOrder(r.kept, prior)
    requires multiset(prior) == multiset(r.kept) + multiset(r.batch) + multiset(cached)
    ensures var r' := SortOne(s, r, key, batch_size);
            var cached' := cached + if HasKey(s.entries, key) then [key] else [];
            && InOrder(r'.kept, prior + [key])
            && multiset(prior + [key]) == multiset(r'.kept) + multiset(r'.batch) + multiset(cached')
  {
    hide Lookup, InOrder;
    InOrderMore(r.kept, prior, key);
    CountMore(prior, key);
    CountMore(r.kept, key);
    CountMore(r.batch, key);
    CountMore(cached, key);
    assert cached + [] == cached;
  }

  function KeysOfWaits(waits: seq<Wait>): seq<ChunkKey> {
    seq(|waits|, i requires 0 <= i < |waits| => waits[i].key)
  }

  lemma SplitStep(s: State, prior: seq<ChunkKey>, key: ChunkKey)
    ensures var pending := key in s.pending;
            && NotPending(s, prior + [key]) == (if pending then NotPending(s, prior) else NotPending(s, prior) + [key])
            && KeysOfWaits(Waits(s, prior + [key]))
               == (if pending then KeysOfWaits(Waits(s, prior)) + [key] else KeysOfWaits(Waits(s, prior)))
  {
    hide KeysOfWaits;
    assert (prior + [key])[..|prior|] == prior;
    if key in s.pending {
      KeysOfMoreWaits(Waits(s, prior), Wait(key, s.pending[key]));
      assert NotPending(s, prior) + [] == NotPending(s, prior);
    } else {
      assert Waits(s, prior) + [] == Waits(s, prior);
    }
  }

  /** The waits, and what stays requested beside them, are in order too. */
  lemma {:induction false} SplitInOrder(s: State, kept: seq<ChunkKey>)
    ensures InOrder(NotPending(s, kept), kept) && InOrder(KeysOfWaits(Waits(s, kept)), kept)
  {
    hide InOrder, KeysOfWaits, Waits, NotPending;
    if kept == [] {
      NothingInOrder(kept);
      NothingSplit(s);
    } else {
      var prior, key := kept[..|kept| - 1], kept[|kept| - 1];
      SplitInOrder(s, prior);
      assert kept == prior + [key];
      SplitStep(s, prior, key);
      InOrderMore(NotPending(s, prior), prior, key);
      InOrderMore(KeysOfWaits(Waits(s, prior)), prior, key);
    }
  }

  /** And no key is left out. */
  lemma {:induction false} SplitCounts(s: State, kept: seq<ChunkKey>)
    ensures multiset(kept) == multiset(NotPending(s, kept)) + multiset(KeysOfWaits(Waits(s, kept)))
  {
    hide KeysOfWaits, Waits, NotPending;
    if kept == [] {
      NothingSplit(s);
    } else {
      var prior, key := kept[..|kept| - 1], kept[|kept| - 1];
      var left, waited := NotPending(s, prior), KeysOfWaits(Waits(s, prior));
      SplitCounts(s, prior);
      assert kept == prior + [key];
      SplitStep(s, prior, key);
      CountSplit(prior, left, waited, key);
    }
  }

  lemma CountSplit(whole: seq<ChunkKey>, a: seq<ChunkKey>, b: seq<ChunkKey>, key: ChunkKey)
    requires multiset(whole) == multiset(a) + multiset(b)
    ensures multiset(whole + [key]) == multiset(a + [key]) + multiset(b)
    ensures multiset(whole + [key]) == multiset(a) + multiset(b + [key])
  {
    CountMore(whole, key);
    CountMore(a, key);
    CountMore(b, key);
  }

  lemma NothingSplit(s: State)
    ensures NotPending(s, []) == [] && KeysOfWaits(Waits(s, [])) == []
  {
  }

  lemma KeysOfMoreWaits(waits: seq<Wait>, w: Wait)
    ensures KeysOfWaits(waits + [w]) == KeysOfWaits(waits) + [w.key]
  {
  }

  lemma {:induction false} WaitIn(s: State, kept: seq<ChunkKey>, w: Wait)
    ensures w in Waits(s, kept) <==> w.key in kept && w.key in s.pending && w.event == s.pending[w.key]
  {
    if kept != [] {
      WaitIn(s, kept[..|kept| - 1], w);
    }
  }

  lemma {:induction false} NotPendingIn(s: State, kept: seq<ChunkKey>, k: ChunkKey)
    ensures k in NotPending(s, kept) <==> k in kept && k !in s.pending
  {
    if kept != [] {
      NotPendingIn(s, kept[..|kept| - 1], k);
    }
  }

  lemma {:induction false} SplitLengths(s: State, kept: seq<ChunkKey>)
    ensures |Waits(s, kept)| + |NotPending(s, kept)| == |kept|
  {
    if kept != [] {
      SplitLengths(s, kept[..|kept| - 1]);
    }
  }

  /** The second `retain` splits the keys: the pending ones become waits for their events, the others
      stay requested, and none is dropped. */
  lemma WaitsSplit(s: State, kept: seq<ChunkKey>)
    ensures forall k :: k in kept <==> k in NotPending(s, kept) || exists w :: w in Waits(s, kept) && w.key == k
    ensures forall w :: w in Waits(s, kept) ==> w.key in kept && w.key in s.pending && w.event == s.pending[w.key]
    ensures forall k :: k in NotPending(s, kept) ==> k !in s.pending
    ensures |Waits(s, kept)| + |NotPending(s, kept)| == |kept|
    ensures (forall k :: k in kept ==> k in s.pending) ==> NotPending(s, kept) == []
  {
    hide Waits, NotPending;
    SplitLengths(s, kept);
    forall w ensures w in Waits(s, kept) <==> w.key in kept && w.key in s.pending && w.event == s.pending[w.key] {
      WaitIn(s, kept, w);
    }
    forall k ensures k in NotPending(s, kept) <==> k in kept && k !in s.pending {
      NotPendingIn(s, kept, k);
    }
    forall k | k in kept && k in s.pending ensures exists w :: w in Waits(s, kept) && w.key == k {
      assert Wait(k, s.pending[k]) in Waits(s, kept);
    }
    if NotPending(s, kept) != [] {
      assert NotPending(s, kept)[0] in NotPending(s, kept);
    }
  }

  lemma {:induction false} CollectedIff(entries: seq<Entry>, waits: seq<Wait>)
    ensures Collected(entries, waits).Some? <==> forall w :: w in waits ==> HasKey(entries, w.key)
    ensures Collected(entries, waits).Some? ==>
      var m := Collected(entries, waits).value;
      && (forall k :: k in m <==> exists w :: w in waits && w.key == k)
      && (forall k :: k in m ==> Lookup(entries, k) == Some(m[k]))
  {
    hide Lookup;
    if waits != [] {
      var prior, w := waits[..|waits| - 1], waits[|waits| - 1];
      assert waits == prior + [w];
      CollectedIff(entries, prior);
    }
  }

  /** Progress: with a positive batch size, one call strictly shrinks a non-empty request list. */
  lemma ClaimShrinks(s: State, requested: seq<ChunkKey>, batch_size: nat)
    requires requested != [] && batch_size > 0
    ensures |StillRequested(s, Sort(s, requested, batch_size))| < |requested|
  {
    hide Sort, Waits, NotPending, Lookup;
    SortIsOk(s, requested, batch_size);
    var r := Sort(s, requested, batch_size);
    WaitsSplit(s, r.kept);
    if r.batch == [] && r.found == map[] {
      assert requested[0] in r.kept;
      assert requested[0] !in NotPending(s, r.kept);
    }
  }

  /** Where every requested key is after the first region. */
  lemma ClaimLosesNothing(s: State, requested: seq<ChunkKey>, batch_size: nat, k: ChunkKey)
    requires k in requested
    ensures var r := Sort(s, requested, batch_size);
            || k in StillRequested(s, r)
            || k in r.found
            || (r.batch != [] && k in r.batch)
            || (r.batch == [] && exists w :: w in Waits(s, r.kept) && w.key == k)
  {
    hide Sort, Waits, NotPending, Lookup;
    SortIsOk(s, requested, batch_size);
    WaitsSplit(s, Sort(s, requested, batch_size).kept);
  }

  /** Without a batch no key stays requested, and each key was output at once or is waited for. */
  lemma NoBatchMeansAllFound(s: State, requested: seq<ChunkKey>, batch_size: nat)
    requires batch_size > 0 && Sort(s, requested, batch_size).batch == []
    ensures var r := Sort(s, requested, batch_size);
            && StillRequested(s, r) == []
            && forall k :: k in requested ==> k in r.found || exists w :: w in Waits(s, r.kept) && w.key == k
  {
    hide Sort, Waits, NotPending, Lookup;
    SortIsOk(s, requested, batch_size);
    var r := Sort(s, requested, batch_size);
    WaitsSplit(s, r.kept);
    assert forall k :: k in r.kept ==> k in s.pending;
  }

  /** `get_chunks_batched` returning None, from the first region in `s` to the second one in `s'`: the
      request list is empty, and the call returns, with every key requested at entry in `chunk_out`, if
      and only if it has nothing to wait for, or nobody has poisoned the lock and each waited-on key is
      cached when it is looked up.
      (A zero batch size would leave the keys that nobody fetches.) */
  lemma NoneMeansAllFetched(s: State, s': State, requested: seq<ChunkKey>, batch_size: nat, out: map<ChunkKey, bytes>)
    requires batch_size > 0 && Sort(s, requested, batch_size).batch == []
    ensures var r := Sort(s, requested, batch_size);
            var waits := Waits(s, r.kept);
            var waited := if waits == [] then Some(map[]) else CollectResult(s', waits);
            && StillRequested(s, r) == []
            && (waited.Some? <==>
                  waits == [] || (!s'.poisoned && forall w :: w in waits ==> HasKey(s'.entries, w.key)))
            && (waited.Some? ==> forall k :: k in requested ==> k in out + r.found + waited.value)
  {
    hide Sort, Waits, NotPending, Lookup, Collected;
    NoBatchMeansAllFound(s, requested, batch_size);
    CollectedIff(s'.entries, Waits(s, Sort(s, requested, batch_size).kept));
  }

  /** A call without a batch empties the request list exactly if the batch size is positive, or each key was
      cached or being fetched. */
  lemma NoBatchEmptiesIff(s: State, requested: seq<ChunkKey>, batch_size: nat)
    requires Sort(s, requested, batch_size).batch == []
    ensures StillRequested(s, Sort(s, requested, batch_size)) == []
       <==> batch_size > 0 || forall k :: k in requested ==> HasKey(s.entries, k) || k in s.pending
  {
    hide Sort, Waits, NotPending, Lookup;
    SortIsOk(s, requested, batch_size);
    var r := Sort(s, requested, batch_size);
    WaitsSplit(s, r.kept);
    assert |NotPending(s, r.kept)| > 0 ==> NotPending(s, r.kept)[0] in NotPending(s, r.kept);
    forall k | k in requested && !HasKey(s.entries, k) && k !in s.pending ensures k in NotPending(s, r.kept) {
      assert k in r.kept;
    }
  }

  /** The premise on the batch size is needed: with 0 a request for an absent chunk is given up. */
  lemma ZeroBatchSizeGivesUp(s: State, k: ChunkKey)
    requires !HasKey(s.entries, k) && k !in s.pending
    ensures ClaimedResult(s, Sort(s, [k], 0)) == Nothing
    ensures StillRequested(s, Sort(s, [k], 0)) == [k]
  {
    assert [k][..0] == [];
    assert Sort(s, [], 0) == Sorted([], map[], []);
    assert Sort(s, [k], 0) == Sorted([k], map[], []);
    assert Waits(s, [k]) == Waits(s, []) + [];
    assert NotPending(s, [k]) == NotPending(s, []) + [k];
  }

  // ----- The class of the source -----

  class ChunkCache {
    const raw_cache: RawChunkCache
    var pending_chunks: map<ChunkKey, nat>
    var next_event: nat
    var closed_events: set<nat>
    var poisoned: bool
    var needs_saving: bool

    ghost predicate Valid()
      reads this, raw_cache
    {
      raw_cache.Valid()
    }

    function Get(): State
      reads this, raw_cache
    {
      State(raw_cache.chunks, raw_cache.max_size, pending_chunks, next_event, closed_events, poisoned)
    }

    constructor (max_size: nat)
      ensures Valid() && fresh(raw_cache)
      ensures Get() == State([], max_size, map[], 0, {}, false)
    {
      raw_cache := new RawChunkCache(max_size);
      pending_chunks := map[];
      next_event := 0;
      closed_events := {};
      poisoned := false;
      needs_saving := false;
    }

    /** Other tasks run while this one awaits: the shared state becomes whatever they leave. */
    method OtherTasksRan(s: State)
      requires DistinctKeys(s.entries) && TotalSize(s.entries) <= s.max_size == raw_cache.max_size
      modifies this, raw_cache
      ensures Valid() && Get() == s
    {
      raw_cache.chunks := s.entries;
      raw_cache.total_size := TotalSize(s.entries);
      pending_chunks := s.pending;
      next_event := s.next_event;
      closed_events := s.closed;
      poisoned := s.poisoned;
    }

    /** Takes the lock, so it too panics if that is poisoned. */
    method MarkDirty() returns (ok: bool)
      requires Valid()
      modifies this`needs_saving
      ensures Valid() && Get() == old(Get())
      ensures ok <==> !poisoned
      ensures needs_saving == (old(needs_saving) || ok)
    {
      ok := !poisoned;
      if ok {
        needs_saving := true;
      }
    }

    /** The first `retain` and its closure. */
    method SortRequested(requested: seq<ChunkKey>, out: map<ChunkKey, bytes>, batch_size: nat)
      returns (kept: seq<ChunkKey>, out': map<ChunkKey, bytes>, batch: seq<ChunkKey>)
      ensures var r := Sort(Get(), requested, batch_size);
              kept == r.kept && batch == r.batch && out' == out + r.found
    {
      hide Lookup;
      ghost var found: map<ChunkKey, bytes> := map[];
      kept, out', batch := [], out, [];
      for i := 0 to |requested|
        invariant Sort(Get(), requested[..i], batch_size) == Sorted(kept, found, batch)
        invariant out' == out + found
      {
        assert requested[..i + 1][..i] == requested[..i];
        var key := requested[i];
        var chunk := raw_cache.Get(key);
        if chunk.Some? {
          out' := out'[key := chunk.value];
          found := found[key := chunk.value];
        } else if key !in pending_chunks && |batch| < batch_size && key !in batch {
          batch := batch + [key];
        } else {
          kept := kept + [key];
        }
      }
      assert requested[..|requested|] == requested;
    }

    /** The second `retain` and its closure. */
    method SplitPending(sorted: seq<ChunkKey>) returns (kept: seq<ChunkKey>, waits: seq<Wait>)
      ensures waits == Waits(Get(), sorted) && kept == NotPending(Get(), sorted)
    {
      kept, waits := [], [];
      for i := 0 to |sorted|
        invariant waits == Waits(Get(), sorted[..i]) && kept == NotPending(Get(), sorted[..i])
      {
        assert sorted[..i + 1][..i] == sorted[..i];
        if sorted[i] in pending_chunks {
          waits := waits + [Wait(sorted[i], pending_chunks[sorted[i]])];
        } else {
          kept := kept + [sorted[i]];
        }
      }
      assert sorted[..|sorted|] == sorted;
    }

    /** First locked region of `get_chunks_batched`. `out` is the caller's `chunk_out`. */
    method Claim(requested: seq<ChunkKey>, out: map<ChunkKey, bytes>, batch_size: nat)
      returns (kept: seq<ChunkKey>, out': map<ChunkKey, bytes>, result: Claimed)
      requires Valid()
      modifies this
      ensures Valid()
      ensures Get() == AfterClaim(old(Get()), requested, batch_size)
      ensures result == ClaimResult(old(Get()), requested, batch_size)
      ensures !old(poisoned) ==>
        var r := Sort(old(Get()), requested, batch_size);
        kept == StillRequested(old(Get()), r) && out' == out + r.found
    {
      hide Sort, Waits, NotPending;
      if poisoned {
        return requested, out, LockPoisoned;
      }
      var batch;
      kept, out', batch := SortRequested(requested, out, batch_size);
      if batch != [] {
        pending_chunks := MarkPending(pending_chunks, batch, next_event);
        result := Batch(next_event, batch);
        next_event := next_event + 1;
      } else {
        var waits;
        kept, waits := SplitPending(kept);
        result := if waits == [] then Nothing else Waiting(waits);
      }
    }

    /** Second locked region: None stands for a panic. */
    method Collect(waits: seq<Wait>, out: map<ChunkKey, bytes>) returns (out': Option<map<ChunkKey, bytes>>)
      requires Valid()
      modifies this`poisoned
      ensures Valid() && Get() == AfterCollect(old(Get()), waits)
      ensures out' == match CollectResult(old(Get()), waits)
                      case None => None
                      case Some(m) => Some(out + m)
    {
      if poisoned {
        return None;
      }
      var all := out;
      ghost var m: map<ChunkKey, bytes> := map[];
      for i := 0 to |waits|
        invariant Collected(raw_cache.chunks, waits[..i]) == Some(m)
        invariant all == out + m && !poisoned
      {
        assert waits[..i + 1][..i] == waits[..i];
        var chunk := raw_cache.Get(waits[i].key);
        if chunk == None {
          PanicStays(raw_cache.chunks, waits, i + 1);
          poisoned := true;
          return None;
        }
        all := all[waits[i].key := chunk.value];
        m := m[waits[i].key := chunk.value];
      }
      assert waits[..|waits|] == waits;
      out' := Some(all);
    }

    /** `BatchChunkRequest::fulfill`, after its length assertion; it panics on a poisoned lock. */
    method Fulfill(event: nat, keys: seq<ChunkKey>, chunks: seq<bytes>) returns (ok: bool)
      requires Valid()
      requires |keys| == |chunks|
      modifies this, raw_cache
      ensures Valid()
      ensures ok <==> !old(poisoned)
      ensures Get() == Fulfilled(old(Get()), event, keys, chunks)
    {
      if poisoned {
        return false;
      }
      hide Insert, Unmark, TotalSize, DistinctKeys;
      UnmarkNone(pending_chunks);
      ghost var s := Get();
      ghost var es := Zip(keys, chunks);
      for i := 0 to |keys|
        invariant Valid()
        invariant raw_cache.chunks == InsertAll(s.entries, s.max_size, es[..i])
        invariant pending_chunks == Unmark(s.pending, keys[..i])
        invariant next_event == s.next_event && closed_events == s.closed && !poisoned
      {
        assert es[..i + 1][..i] == es[..i];
        UnmarkOne(s.pending, keys[..i], keys[i]);
        assert keys[..i + 1] == keys[..i] + [keys[i]];
        raw_cache.InsertChunk(keys[i], chunks[i]);
        pending_chunks := pending_chunks - {keys[i]};
      }
      assert es[..|keys|] == es && keys[..|keys|] == keys;
      closed_events := closed_events + {event};
      ok := true;
    }
  }

  lemma {:induction false} PanicStays(entries: seq<Entry>, waits: seq<Wait>, i: nat)
    requires i <= |waits| && Collected(entries, waits[..i]) == None
    ensures Collected(entries, waits) == None
    decreases |waits| - i
  {
    if i == |waits| {
      assert waits[..i] == waits;
    } else {
      assert waits[..i + 1][..i] == waits[..i];
      PanicStays(entries, waits, i + 1);
    }
  }
}
