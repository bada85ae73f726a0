/** Content keys: the 32-byte blake3 digest of a chunk (`ChunkKey` of `src/dedup.rs`). */
module Keys {
  import opened Bytes

  type HashBytes = s: bytes | |s| == 32 witness seq(32, _ => 0)

  datatype ChunkKey = ChunkKey(hash: HashBytes)

  /** blake3 is foreign code: any function from byte strings to keys. */
  type Hash = bytes -> ChunkKey
}

/** The size-bounded, insertion-ordered store (`RawChunkCache` of `src/chunk_cache.rs`). */
module ChunkStore {
  import opened Bytes
  import opened Keys

  datatype Entry = Entry(key: ChunkKey, chunk: bytes)

  // ----- Specification: the store as the list of its entries, oldest first -----

  function Lookup(es: seq<Entry>, key: ChunkKey): (r: Option<bytes>)
    ensures r.Some? ==> Entry(key, r.value) in es
  {
    if es == [] then None
    else if es[0].key == key then Some(es[0].chunk)
    else Lookup(es[1..], key)
  }

  predicate HasKey(es: seq<Entry>, key: ChunkKey) {
    Lookup(es, key).Some?
  }

  predicate DistinctKeys(es: seq<Entry>) {
    es == [] || (!HasKey(es[1..], es[0].key) && DistinctKeys(es[1..]))
  }

  function TotalSize(es: seq<Entry>): nat {
    if es == [] then 0 else |es[0].chunk| + TotalSize(es[1..])
  }

  function Without(es: seq<Entry>, key: ChunkKey): seq<Entry> {
    if es == [] then []
    else if es[0].key == key then Without(es[1..], key)
    else [es[0]] + Without(es[1..], key)
  }

  /** Oldest entries leave until the rest fits. */
  function Evict(es: seq<Entry>, max: nat): seq<Entry> {
    if TotalSize(es) <= max then es else Evict(es[1..], max)
  }

  /** `LinkedHashMap::insert` moves a key that is already there to the back. */
  function Insert(es: seq<Entry>, max: nat, e: Entry): seq<Entry> {
    Evict(Without(es, e.key) + [e], max)
  }

  function InsertAll(es: seq<Entry>, max: nat, log: seq<Entry>): seq<Entry> {
    if log == [] then es
    else Insert(InsertAll(es, max, log[..|log| - 1]), max, log[|log| - 1])
  }

  /** The insertions that no later insertion of the same key supersedes, in order. */
  function Latest(log: seq<Entry>): seq<Entry> {
    if log == [] then []
    else Without(Latest(log[..|log| - 1]), log[|log| - 1].key) + [log[|log| - 1]]
  }

  /** Bytes from the first entry with this key to the end. */
  function SizeFrom(es: seq<Entry>, key: ChunkKey): nat {
    if es == [] then 0
    else if es[0].key == key then TotalSize(es)
    else SizeFrom(es[1..], key)
  }

  ghost predicate KeyDeterminesSize(log: seq<Entry>) {
    forall e, f :: e in log && f in log && e.key == f.key ==> |e.chunk| == |f.chunk|
  }

  // ----- Basic laws -----

  lemma {:induction false} TotalSizeAppend(es: seq<Entry>, e: Entry)
    ensures TotalSize(es + [e]) == TotalSize(es) + |e.chunk|
  {
    if es == [] {
      assert (es + [e])[1..] == [];
    } else {
      assert (es + [e])[1..] == es[1..] + [e];
      TotalSizeAppend(es[1..], e);
    }
  }

  lemma {:induction false} LookupAppend(es: seq<Entry>, e: Entry, key: ChunkKey)
    ensures Lookup(es + [e], key) ==
            if HasKey(es, key) then Lookup(es, key) else if e.key == key then Some(e.chunk) else None
  {
    if es == [] {
      assert (es + [e])[1..] == [];
    } else {
      assert (es + [e])[1..] == es[1..] + [e];
      LookupAppend(es[1..], e, key);
    }
  }

  lemma {:induction false} DistinctAppend(es: seq<Entry>, e: Entry)
    ensures DistinctKeys(es + [e]) <==> DistinctKeys(es) && !HasKey(es, e.key)
  {
    if es == [] {
      assert (es + [e])[1..] == [];
    } else {
      assert (es + [e])[1..] == es[1..] + [e];
      DistinctAppend(es[1..], e);
      LookupAppend(es[1..], e, es[0].key);
    }
  }

  lemma {:induction false} HasKeyIff(es: seq<Entry>, key: ChunkKey)
    ensures HasKey(es, key) <==> exists e :: e in es && e.key == key
  {
    if es != [] {
      HasKeyIff(es[1..], key);
      assert forall e :: e in es <==> e == es[0] || e in es[1..];
    }
  }

  lemma {:induction false} LookupWithout(es: seq<Entry>, gone: ChunkKey, key: ChunkKey)
    ensures Lookup(Without(es, gone), key) == if key == gone then None else Lookup(es, key)
  {
    if es != [] {
      LookupWithout(es[1..], gone, key);
    }
  }

  lemma {:induction false} WithoutAbsent(es: seq<Entry>, key: ChunkKey)
    requires !HasKey(es, key)
    ensures Without(es, key) == es
  {
    if es != [] {
      WithoutAbsent(es[1..], key);
    }
  }

  lemma {:induction false} DistinctWithout(es: seq<Entry>, key: ChunkKey)
    requires DistinctKeys(es)
    ensures DistinctKeys(Without(es, key))
  {
    if es != [] {
      DistinctWithout(es[1..], key);
      LookupWithout(es[1..], key, es[0].key);
    }
  }

  lemma {:induction false} SizeWithout(es: seq<Entry>, key: ChunkKey)
    requires DistinctKeys(es)
    ensures TotalSize(es) ==
            TotalSize(Without(es, key)) + match Lookup(es, key) case None => 0 case Some(c) => |c|
  {
    if es != [] {
      if es[0].key == key {
        WithoutAbsent(es[1..], key);
      } else {
        SizeWithout(es[1..], key);
      }
    }
  }

  lemma {:induction false} SizeOfWithoutAtMost(es: seq<Entry>, key: ChunkKey)
    ensures TotalSize(Without(es, key)) <= TotalSize(es)
  {
    if es != [] {
      SizeOfWithoutAtMost(es[1..], key);
    }
  }

  /** Replacing an entry, or adding one, at the back. */
  lemma Replaced(es: seq<Entry>, e: Entry)
    requires DistinctKeys(es)
    ensures var r := Without(es, e.key) + [e];
            && DistinctKeys(r)
            && TotalSize(r) + (match Lookup(es, e.key) case None => 0 case Some(c) => |c|)
               == TotalSize(es) + |e.chunk|
  {
    DistinctWithout(es, e.key);
    LookupWithout(es, e.key, e.key);
    DistinctAppend(Without(es, e.key), e);
    SizeWithout(es, e.key);
    TotalSizeAppend(Without(es, e.key), e);
  }

  // ----- Eviction -----

  /** What is left is the longest suffix that fits. */
  lemma {:induction false} EvictIsLongestSuffix(es: seq<Entry>, max: nat) returns (k: nat)
    ensures k <= |es| && Evict(es, max) == es[k..]
    ensures TotalSize(es[k..]) <= max
    ensures forall i :: 0 <= i < k ==> TotalSize(es[i..]) > max
  {
    if TotalSize(es) <= max {
      k := 0;
      assert es[0..] == es;
    } else {
      var j := EvictIsLongestSuffix(es[1..], max);
      k := j + 1;
      assert es[1..][j..] == es[k..];
      forall i | 0 <= i < k ensures TotalSize(es[i..]) > max {
        if i > 0 {
          assert es[1..][i - 1..] == es[i..];
        } else {
          assert es[0..] == es;
        }
      }
    }
  }

  lemma {:induction false} EvictKeepsDistinct(es: seq<Entry>, max: nat)
    requires DistinctKeys(es)
    ensures DistinctKeys(Evict(es, max))
  {
    if TotalSize(es) > max {
      EvictKeepsDistinct(es[1..], max);
    }
  }

  lemma {:induction false} SizeFromAtMost(es: seq<Entry>, key: ChunkKey)
    ensures SizeFrom(es, key) <= TotalSize(es)
  {
    if es != [] {
      SizeFromAtMost(es[1..], key);
    }
  }

  /** An entry survives eviction exactly if the bytes from it onward fit. */
  lemma {:induction false} SurvivesIff(es: seq<Entry>, max: nat, key: ChunkKey)
    requires DistinctKeys(es)
    ensures HasKey(Evict(es, max), key) <==> HasKey(es, key) && SizeFrom(es, key) <= max
  {
    if TotalSize(es) <= max {
      SizeFromAtMost(es, key);
    } else {
      SurvivesIff(es[1..], max, key);
    }
  }

  lemma {:induction false} EvictKeeps(es: seq<Entry>, max: nat, key: ChunkKey)
    requires HasKey(es, key) && SizeFrom(es, key) <= max
    ensures Lookup(Evict(es, max), key) == Lookup(es, key)
    ensures SizeFrom(Evict(es, max), key) == SizeFrom(es, key)
  {
    if TotalSize(es) > max {
      EvictKeeps(es[1..], max, key);
    }
  }

  // ----- What the store contains after any run of insertions -----

  lemma {:induction false} LatestIsDistinct(log: seq<Entry>)
    ensures DistinctKeys(Latest(log))
  {
    if log != [] {
      LatestIsDistinct(log[..|log| - 1]);
      Replaced(Latest(log[..|log| - 1]), log[|log| - 1]);
    }
  }

  lemma {:induction false} LatestHasSameKeys(log: seq<Entry>, key: ChunkKey)
    ensures HasKey(Latest(log), key) <==> HasKey(log, key)
  {
    if log != [] {
      var prior, e := log[..|log| - 1], log[|log| - 1];
      assert log == prior + [e];
      LatestHasSameKeys(prior, key);
      LookupAppend(prior, e, key);
      LookupWithout(Latest(prior), e.key, key);
      LookupAppend(Without(Latest(prior), e.key), e, key);
    }
  }

  lemma {:induction false} LatestIsFromLog(log: seq<Entry>, e: Entry)
    requires e in Latest(log)
    ensures e in log
  {
    var prior, last := log[..|log| - 1], log[|log| - 1];
    if e != last {
      WithoutIsFrom(Latest(prior), last.key, e);
      LatestIsFromLog(prior, e);
    }
  }

  lemma {:induction false} WithoutIsFrom(es: seq<Entry>, key: ChunkKey, e: Entry)
    requires e in Without(es, key)
    ensures e in es
  {
    if es[0].key == key || e != es[0] {
      WithoutIsFrom(es[1..], key, e);
    }
  }

  lemma {:induction false} EvictFits(es: seq<Entry>, max: nat)
    ensures TotalSize(Evict(es, max)) <= max
  {
    if TotalSize(es) > max {
      EvictFits(es[1..], max);
    }
  }

  /** After any insertions the store has distinct keys and is within its limit. */
  lemma {:induction false} StoreIsBounded(log: seq<Entry>, max: nat)
    ensures DistinctKeys(InsertAll([], max, log)) && TotalSize(InsertAll([], max, log)) <= max
  {
    if log != [] {
      var before, e := InsertAll([], max, log[..|log| - 1]), log[|log| - 1];
      StoreIsBounded(log[..|log| - 1], max);
      Replaced(before, e);
      EvictKeepsDistinct(Without(before, e.key) + [e], max);
      EvictFits(Without(before, e.key) + [e], max);
    }
  }

  /** Evicting early never changes what a later insertion leaves. */
  lemma {:induction false} EvictThenInsert(es: seq<Entry>, max: nat, e: Entry)
    requires DistinctKeys(es)
    requires forall f :: f in es && f.key == e.key ==> |f.chunk| == |e.chunk|
    ensures Insert(Evict(es, max), max, e) == Insert(es, max, e)
  {
    if TotalSize(es) > max {
      EvictThenInsert(es[1..], max, e);
      if es[0].key != e.key {
        var rest := Without(es[1..], e.key) + [e];
        Replaced(es, e);
        assert Without(es, e.key) + [e] == [es[0]] + rest;
        assert ([es[0]] + rest)[1..] == rest;
      }
    }
  }

  /** After any sequence of insertions in which a key always comes with the same length, the store
      holds the longest suffix that fits of the insertions not superseded by a later one. */
  lemma {:induction false} StoreIsLongestFittingSuffix(log: seq<Entry>, max: nat)
    requires KeyDeterminesSize(log)
    ensures InsertAll([], max, log) == Evict(Latest(log), max)
  {
    if log != [] {
      var prior, e := log[..|log| - 1], log[|log| - 1];
      StoreIsLongestFittingSuffix(prior, max);
      LatestIsDistinct(prior);
      forall f | f in Latest(prior) && f.key == e.key ensures |f.chunk| == |e.chunk| {
        LatestIsFromLog(prior, f);
      }
      EvictThenInsert(Latest(prior), max, e);
    }
  }

  /** The premise on lengths is needed: an early eviction shows if a key comes again, shorter. */
  lemma SameSizeIsNeeded(a: Entry, b: Entry, b': Entry)
    requires a.key != b.key == b'.key && |a.chunk| == 1 && |b.chunk| == 2 && |b'.chunk| == 1
    ensures InsertAll([], 2, [a, b, b']) == [b'] && Evict(Latest([a, b, b']), 2) == [a, b']
  {
    var log := [a, b, b'];
    assert log[..2] == [a, b] && [a, b][..1] == [a] && [a][..0] == [];
    assert [a][1..] == [] && [b][1..] == [] && [b'][1..] == [];
    assert [a, b][1..] == [b] && [a, b'][1..] == [b'];
    assert TotalSize([a]) == 1 && TotalSize([b]) == 2 && TotalSize([b']) == 1;
    assert TotalSize([a, b']) == 2 && TotalSize([a, b]) == 3;
    assert DistinctKeys([b]);
    StoreOfDistinctKeys([a, b], 2);
    LatestOfDistinct([a, b]);
    assert Evict([a, b], 2) == [b];
    assert Without([b], b'.key) == [] && [] + [b'] == [b'];
    assert Without([a, b], b'.key) == [a] && [a] + [b'] == [a, b'];
  }

  /** With distinct keys nothing is superseded. */
  lemma {:induction false} LatestOfDistinct(log: seq<Entry>)
    requires DistinctKeys(log)
    ensures Latest(log) == log
  {
    if log != [] {
      var prior, e := log[..|log| - 1], log[|log| - 1];
      assert log == prior + [e];
      DistinctAppend(prior, e);
      LatestOfDistinct(prior);
      WithoutAbsent(prior, e.key);
    }
  }

  lemma {:induction false} DistinctKeysDetermineChunk(log: seq<Entry>, e: Entry)
    requires DistinctKeys(log) && e in log
    ensures Lookup(log, e.key) == Some(e.chunk)
  {
    if e != log[0] {
      DistinctKeysDetermineChunk(log[1..], e);
    }
  }

  lemma StoreOfDistinctKeys(log: seq<Entry>, max: nat)
    requires DistinctKeys(log)
    ensures InsertAll([], max, log) == Evict(log, max)
  {
    forall e, f | e in log && f in log && e.key == f.key ensures |e.chunk| == |f.chunk| {
      DistinctKeysDetermineChunk(log, e);
      DistinctKeysDetermineChunk(log, f);
    }
    StoreIsLongestFittingSuffix(log, max);
    LatestOfDistinct(log);
  }

  /** Which of the keys ever inserted are in the store: those from whose latest insertion onward
      the latest insertions fit. */
  lemma CachedIff(log: seq<Entry>, max: nat, key: ChunkKey)
    requires KeyDeterminesSize(log) && HasKey(log, key)
    ensures HasKey(InsertAll([], max, log), key) <==> SizeFrom(Latest(log), key) <= max
  {
    StoreIsLongestFittingSuffix(log, max);
    LatestIsDistinct(log);
    SurvivesIff(Latest(log), max, key);
    LatestHasSameKeys(log, key);
  }

  lemma {:induction false} StoredIsFromLog(es: seq<Entry>, max: nat, log: seq<Entry>, e: Entry)
    requires e in InsertAll(es, max, log)
    ensures e in es || e in log
    decreases |log|
  {
    if log != [] {
      var prior, last := log[..|log| - 1], log[|log| - 1];
      var before := InsertAll(es, max, prior);
      var k := EvictIsLongestSuffix(Without(before, last.key) + [last], max);
      if e != last {
        WithoutIsFrom(before, last.key, e);
        StoredIsFromLog(es, max, prior, e);
      }
    }
  }

  // ----- Retention, without any premise on the log -----

  lemma {:induction false} SizeFromAfterInsert(es: seq<Entry>, e: Entry, key: ChunkKey)
    requires HasKey(es, key) && e.key != key
    ensures Lookup(Without(es, e.key) + [e], key) == Lookup(es, key)
    ensures SizeFrom(Without(es, e.key) + [e], key) <= SizeFrom(es, key) + |e.chunk|
  {
    var r := Without(es, e.key);
    LookupWithout(es, e.key, key);
    LookupAppend(r, e, key);
    if es[0].key == key {
      SizeOfWithoutAtMost(es, e.key);
      TotalSizeAppend(r, e);
    } else {
      SizeFromAfterInsert(es[1..], e, key);
      if es[0].key != e.key {
        assert (r + [e])[1..] == Without(es[1..], e.key) + [e];
      }
    }
  }

  lemma {:induction false} SizeFromLast(r: seq<Entry>, e: Entry)
    requires !HasKey(r, e.key)
    ensures SizeFrom(r + [e], e.key) == |e.chunk|
  {
    TotalSizeAppend(r, e);
    if r != [] {
      assert (r + [e])[1..] == r[1..] + [e];
      SizeFromLast(r[1..], e);
    }
  }

  /** One insertion: the inserted key enters with its own length, any other key moves back by at
      most the bytes inserted, and a key within the limit is not evicted. */
  lemma RetainedStep(es: seq<Entry>, max: nat, e: Entry, key: ChunkKey, bound: nat)
    requires e.key != key ==> HasKey(es, key) && SizeFrom(es, key) <= bound
    requires bound + |e.chunk| <= max
    ensures Lookup(Insert(es, max, e), key) == if e.key == key then Some(e.chunk) else Lookup(es, key)
    ensures SizeFrom(Insert(es, max, e), key) <= bound + |e.chunk|
  {
    var r := Without(es, e.key);
    if e.key == key {
      LookupWithout(es, key, key);
      LookupAppend(r, e, key);
      SizeFromLast(r, e);
    } else {
      SizeFromAfterInsert(es, e, key);
    }
    EvictKeeps(r + [e], max, key);
  }

  /** A chunk stays cached as long as the bytes inserted from it onward, itself included, fit;
      whatever was in the store before. */
  lemma {:induction false} Retained(es: seq<Entry>, log: seq<Entry>, max: nat, p: nat)
    requires p < |log| && TotalSize(log[p..]) <= max
    ensures HasKey(InsertAll(es, max, log), log[p].key)
    ensures SizeFrom(InsertAll(es, max, log), log[p].key) <= TotalSize(log[p..])
    decreases |log|
  {
    hide Insert, SizeFrom, TotalSize;
    var n := |log| - 1;
    assert log[p..] == log[..n][p..] + [log[n]];
    TotalSizeAppend(log[..n][p..], log[n]);
    if p < n {
      Retained(es, log[..n], max, p);
    }
    RetainedStep(InsertAll(es, max, log[..n]), max, log[n], log[p].key, TotalSize(log[..n][p..]));
  }

  // ----- The class of the source -----

  class RawChunkCache {
    var chunks: seq<Entry>
    var total_size: nat
    const max_size: nat

    ghost predicate Valid()
      reads this
    {
      DistinctKeys(chunks) && total_size == TotalSize(chunks) <= max_size
    }

    constructor (max_size: nat)
      ensures Valid() && chunks == [] && this.max_size == max_size
    {
      chunks := [];
      total_size := 0;
      this.max_size := max_size;
    }

    method InsertChunk(key: ChunkKey, chunk: bytes)
      requires Valid()
      modifies this
      ensures Valid()
      ensures chunks == Insert(old(chunks), max_size, Entry(key, chunk))
    {
      var e := Entry(key, chunk);
      Replaced(chunks, e);
      total_size := total_size + |chunk|;
      var old_chunk := Lookup(chunks, key);
      chunks := Without(chunks, key) + [e];
      if old_chunk.Some? {
        total_size := total_size - |old_chunk.value|;
      }
      while total_size > max_size
        invariant DistinctKeys(chunks) && total_size == TotalSize(chunks)
        invariant Evict(chunks, max_size) == Insert(old(chunks), max_size, e)
        decreases |chunks|
      {
        // `pop_front().unwrap()` cannot fail: an empty store has size 0.
        assert chunks != [];
        var evicted := chunks[0];
        chunks := chunks[1..];
        total_size := total_size - |evicted.chunk|;
      }
    }

    function Get(key: ChunkKey): Option<bytes>
      reads this
    {
      Lookup(chunks, key)
    }
  }
}
