/** The cache file (`read_chunk_cache` and `write_chunk_cache` of `src/chunk_cache.rs`), inside the
    zstd layer, which is taken to be the identity. */
module CacheFile {
  import opened Bytes
  import opened Keys
  import opened ChunkStore

  const CHUNK_LIMIT: nat := 20_000_000

  datatype ReadError = UnexpectedEof | ChunkTooLarge

  function EncodeEntry(e: Entry): bytes {
    e.key.hash + LeBytes(|e.chunk|, 4) + e.chunk
  }

  function EncodeEntries(es: seq<Entry>): bytes {
    if es == [] then [] else EncodeEntry(es[0]) + EncodeEntries(es[1..])
  }

  function EncodeFile(es: seq<Entry>): bytes {
    LeBytes(|es|, 4) + EncodeEntries(es)
  }

  /** One entry and what follows it; the length is checked before the chunk is read. */
  function DecodeEntry(data: bytes): Result<(Entry, bytes), ReadError> {
    if |data| < 36 then Err(UnexpectedEof)
    else
      var length := FromLe(data[32..36]);
      if length > CHUNK_LIMIT then Err(ChunkTooLarge)
      else if |data| < 36 + length then Err(UnexpectedEof)
      else Ok((Entry(ChunkKey(data[..32]), data[36..36 + length]), data[36 + length..]))
  }

  /** `n` entries, appended to those already read. */
  function DecodeEntries(data: bytes, n: nat, read: seq<Entry>): Result<seq<Entry>, ReadError>
    decreases n
  {
    if n == 0 then Ok(read)
    else
      match DecodeEntry(data)
      case Err(error) => Err(error)
      case Ok((e, rest)) => DecodeEntries(rest, n - 1, read + [e])
  }

  function DecodeFile(data: bytes): Result<seq<Entry>, ReadError> {
    if |data| < 4 then Err(UnexpectedEof) else DecodeEntries(data[4..], FromLe(data[..4]), [])
  }

  /** The entries that are kept: those whose chunk has the key as its hash. */
  function Genuine(es: seq<Entry>, hash: Hash): seq<Entry> {
    if es == [] then []
    else
      var e := es[|es| - 1];
      Genuine(es[..|es| - 1], hash) + if hash(e.chunk) == e.key then [e] else []
  }

  // ----- The methods of the source -----

  /** The two `expect`s on sizes are the preconditions. */
  method WriteChunkCache(entries: seq<Entry>) returns (file: bytes)
    requires |entries| < U32
    requires forall e :: e in entries ==> |e.chunk| < U32
    ensures file == EncodeFile(entries)
  {
    hide LeBytes;
    file := LeBytes(|entries|, 4);
    for i := 0 to |entries|
      invariant file + EncodeEntries(entries[i..]) == EncodeFile(entries)
    {
      assert entries[i..][1..] == entries[i + 1..];
      var key, length, chunk := entries[i].key.hash, LeBytes(|entries[i].chunk|, 4), entries[i].chunk;
      Assoc(file, key, length);
      Assoc(file, key + length, chunk);
      Assoc(file, EncodeEntry(entries[i]), EncodeEntries(entries[i + 1..]));
      file := file + key;
      file := file + length;
      file := file + chunk;
    }
    assert entries[|entries|..] == [];
  }

  method ReadChunkCache(cache: RawChunkCache, file: bytes, hash: Hash) returns (error: Option<ReadError>)
    requires cache.Valid()
    modifies cache
    ensures cache.Valid()
    ensures match DecodeFile(file)
            case Err(e) => error == Some(e)
            case Ok(es) =>
              && error == None
              && cache.chunks == InsertAll(old(cache.chunks), cache.max_size, Genuine(es, hash))
  {
    hide LeBytes, FromLe, Insert, InsertAll, Genuine;
    ReadNone(cache.chunks, cache.max_size, hash);
    if |file| < 4 {
      return Some(UnexpectedEof);
    }
    var chunks_in_file := FromLe(file[..4]);
    var rest := file[4..];
    ghost var read: seq<Entry> := [];
    for i := 0 to chunks_in_file
      invariant cache.Valid()
      invariant DecodeEntries(rest, chunks_in_file - i, read) == DecodeFile(file)
      invariant cache.chunks == InsertAll(old(cache.chunks), cache.max_size, Genuine(read, hash))
    {
      if |rest| < 36 {
        return Some(UnexpectedEof);
      }
      var chunk_key := ChunkKey(rest[..32]);
      var chunk_length := FromLe(rest[32..36]);
      if chunk_length > CHUNK_LIMIT {
        return Some(ChunkTooLarge);
      }
      if |rest| < 36 + chunk_length {
        return Some(UnexpectedEof);
      }
      var chunk_data := rest[36..36 + chunk_length];
      ReadOne(old(cache.chunks), cache.max_size, read, Entry(chunk_key, chunk_data), hash);
      read := read + [Entry(chunk_key, chunk_data)];
      rest := rest[36 + chunk_length..];
      if hash(chunk_data) == chunk_key {
        cache.InsertChunk(chunk_key, chunk_data);
      }
    }
    error := None;
  }

  lemma ReadNone(es: seq<Entry>, max: nat, hash: Hash)
    ensures InsertAll(es, max, Genuine([], hash)) == es
  {
  }

  lemma ReadOne(es: seq<Entry>, max: nat, read: seq<Entry>, e: Entry, hash: Hash)
    ensures var before := InsertAll(es, max, Genuine(read, hash));
            InsertAll(es, max, Genuine(read + [e], hash))
              == if hash(e.chunk) == e.key then Insert(before, max, e) else before
  {
    hide Insert;
    assert (read + [e])[..|read + [e]| - 1] == read;
    var log := Genuine(read, hash);
    assert (log + [e])[..|log + [e]| - 1] == log;
    assert Genuine(read + [e], hash) == if hash(e.chunk) == e.key then log + [e] else log;
  }

  // ----- Round trip -----

  lemma DecodeEncodedEntry(e: Entry, rest: bytes)
    requires |e.chunk| < U32
    ensures DecodeEntry(EncodeEntry(e) + rest)
         == if |e.chunk| <= CHUNK_LIMIT then Ok((e, rest)) else Err(ChunkTooLarge)
  {
    hide LeBytes, FromLe;
    var data := EncodeEntry(e) + rest;
    Power256Values();
    LeRoundTrip(|e.chunk|, 4);
    assert data[..32] == e.key.hash;
    assert data[32..36] == LeBytes(|e.chunk|, 4);
    assert data[36..] == e.chunk + rest;
    assert |e.chunk| <= CHUNK_LIMIT ==> data[36..36 + |e.chunk|] == e.chunk && data[36 + |e.chunk|..] == rest;
  }

  lemma {:induction false} DecodeEncodedEntries(es: seq<Entry>, read: seq<Entry>, more: bytes)
    requires forall e :: e in es ==> |e.chunk| < U32
    ensures DecodeEntries(EncodeEntries(es) + more, |es|, read)
         == if forall e :: e in es ==> |e.chunk| <= CHUNK_LIMIT then Ok(read + es) else Err(ChunkTooLarge)
  {
    hide DecodeEntry, EncodeEntry;
    if es == [] {
      assert read + es == read;
    } else {
      Assoc(EncodeEntry(es[0]), EncodeEntries(es[1..]), more);
      DecodeEncodedEntry(es[0], EncodeEntries(es[1..]) + more);
      DecodeEncodedEntries(es[1..], read + [es[0]], more);
      assert read + [es[0]] + es[1..] == read + es;
      assert forall e :: e in es <==> e == es[0] || e in es[1..];
    }
  }

  /** What was written is read back, whatever follows it, exactly if no chunk is over the reader's limit. */
  lemma FileRoundTrip(es: seq<Entry>, more: bytes)
    requires |es| < U32
    requires forall e :: e in es ==> |e.chunk| < U32
    ensures DecodeFile(EncodeFile(es) + more)
         == if forall e :: e in es ==> |e.chunk| <= 20_000_000 then Ok(es) else Err(ChunkTooLarge)
  {
    hide LeBytes, FromLe, DecodeEntries, EncodeEntries;
    var file := EncodeFile(es) + more;
    Power256Values();
    LeRoundTrip(|es|, 4);
    assert file[..4] == LeBytes(|es|, 4) && file[4..] == EncodeEntries(es) + more;
    DecodeEncodedEntries(es, [], more);
    assert [] + es == es;
  }

  lemma CutEntry(e: Entry, rest: bytes, n: nat)
    requires |e.chunk| <= CHUNK_LIMIT && n <= |EncodeEntry(e) + rest|
    ensures DecodeEntry((EncodeEntry(e) + rest)[..n]) ==
            if n < |EncodeEntry(e)| then Err(UnexpectedEof) else Ok((e, rest[..n - |EncodeEntry(e)|]))
  {
    hide LeBytes, FromLe;
    var data := EncodeEntry(e) + rest;
    Power256Values();
    LeRoundTrip(|e.chunk|, 4);
    assert data[32..36] == LeBytes(|e.chunk|, 4);
    if n >= |EncodeEntry(e)| {
      DecodeEncodedEntry(e, rest[..n - |EncodeEntry(e)|]);
      assert data[..n] == EncodeEntry(e) + rest[..n - |EncodeEntry(e)|];
    } else if n >= 36 {
      assert data[..n][32..36] == data[32..36];
    }
  }

  lemma {:induction false} CutEntries(es: seq<Entry>, read: seq<Entry>, n: nat)
    requires n < |EncodeEntries(es)| && forall e :: e in es ==> |e.chunk| <= CHUNK_LIMIT
    ensures DecodeEntries(EncodeEntries(es)[..n], |es|, read) == Err(UnexpectedEof)
  {
    hide DecodeEntry, EncodeEntry;
    if es != [] {
      CutEntry(es[0], EncodeEntries(es[1..]), n);
      if n >= |EncodeEntry(es[0])| {
        CutEntries(es[1..], read + [es[0]], n - |EncodeEntry(es[0])|);
      }
    }
  }

  /** A file that was cut short is never accepted. */
  lemma CutFileIsRejected(es: seq<Entry>, n: nat)
    requires |es| < U32 && n < |EncodeFile(es)| && forall e :: e in es ==> |e.chunk| <= CHUNK_LIMIT
    ensures DecodeFile(EncodeFile(es)[..n]) == Err(UnexpectedEof)
  {
    hide LeBytes, FromLe, DecodeEntries, EncodeEntries;
    if n >= 4 {
      var file := EncodeFile(es)[..n];
      Power256Values();
      LeRoundTrip(|es|, 4);
      assert file[..4] == LeBytes(|es|, 4) && file[4..] == EncodeEntries(es)[..n - 4];
      CutEntries(es, [], n - 4);
    }
  }

  // ----- The file byte by byte -----

  /** What an entry takes: 32 bytes of key, four of length, and the chunk. */
  function EntrySize(e: Entry): nat { 36 + |e.chunk| }

  function EntriesSize(es: seq<Entry>): nat {
    if es == [] then 0 else EntriesSize(es[..|es| - 1]) + EntrySize(es[|es| - 1])
  }

  /** Is this entry stored at `pos`: key, length in four bytes, chunk? */
  predicate IsStored(file: bytes, pos: nat, e: Entry) {
    && pos + 36 + |e.chunk| <= |file|
    && file[pos..pos + 32] == e.key.hash
    && Number32(file, pos + 32) == |e.chunk|
    && file[pos + 36..pos + 36 + |e.chunk|] == e.chunk
  }

  lemma EntryIsStored(before: bytes, e: Entry, after: bytes)
    requires |e.chunk| < U32
    ensures IsStored(before + EncodeEntry(e) + after, |before|, e)
  {
    hide LeBytes, Number32;
    var file, pos := before + EncodeEntry(e) + after, |before|;
    assert file[pos..pos + 32] == e.key.hash;
    assert file[pos + 32..pos + 36] == LeBytes(|e.chunk|, 4);
    assert file[pos + 36..pos + 36 + |e.chunk|] == e.chunk;
    LeBytesIsNumber(|e.chunk|, file, pos + 32);
  }

  lemma {:induction false} EncodeEntriesConcat(a: seq<Entry>, b: seq<Entry>)
    ensures EncodeEntries(a + b) == EncodeEntries(a) + EncodeEntries(b)
  {
    hide EncodeEntry;
    if a == [] {
      assert a + b == b;
    } else {
      assert (a + b)[1..] == a[1..] + b;
      EncodeEntriesConcat(a[1..], b);
      Assoc(EncodeEntry(a[0]), EncodeEntries(a[1..]), EncodeEntries(b));
    }
  }

  lemma {:induction false} EncodedSize(es: seq<Entry>)
    ensures |EncodeEntries(es)| == EntriesSize(es)
  {
    hide LeBytes;
    if es != [] {
      var prior, last := es[..|es| - 1], es[|es| - 1];
      EncodedSize(prior);
      EncodeEntriesConcat(prior, [last]);
      assert es == prior + [last] && [last][1..] == [];
      assert EncodeEntries([last]) == EncodeEntry(last);
    }
  }

  /** The file: the number of entries in four bytes, then the entries one after the other, each with its key, its
      length and its chunk, and nothing else. */
  lemma FileIs(es: seq<Entry>, i: nat)
    requires |es| < U32 && i < |es|
    requires forall e :: e in es ==> |e.chunk| < U32
    ensures var file := EncodeFile(es);
            && |file| == 4 + EntriesSize(es) && Number32(file, 0) == |es|
            && IsStored(file, 4 + EntriesSize(es[..i]), es[i])
  {
    hide LeBytes, EncodeEntries, EncodeEntry, Number32, IsStored;
    var file, count := EncodeFile(es), LeBytes(|es|, 4);
    EncodedSize(es);
    assert file[0..4] == count;
    LeBytesIsNumber(|es|, file, 0);
    var prior, last, rest := es[..i], [es[i]], es[i + 1..];
    EncodedSize(prior);
    assert es == prior + (last + rest);
    EncodeEntriesConcat(prior, last + rest);
    EncodeEntriesConcat(last, rest);
    EncodeOne(es[i]);
    var before := count + EncodeEntries(prior);
    Assoc(count, EncodeEntries(prior), EncodeEntry(es[i]) + EncodeEntries(rest));
    Assoc(before, EncodeEntry(es[i]), EncodeEntries(rest));
    EntryIsStored(before, es[i], EncodeEntries(rest));
  }

  lemma EncodeOne(e: Entry)
    ensures EncodeEntries([e]) == EncodeEntry(e)
  {
    assert [e][1..] == [];
  }

  /** What the reader makes of any bytes at all: the end of the file in the middle of an entry and a length over
      20,000,000 are errors, the length being looked at first. */
  lemma EntryIsRead(data: bytes)
    ensures DecodeEntry(data) ==
            if |data| < 36 then Err(UnexpectedEof)
            else if Number32(data, 32) > 20_000_000 then Err(ChunkTooLarge)
            else if |data| < 36 + Number32(data, 32) then Err(UnexpectedEof)
            else Ok((Entry(ChunkKey(data[..32]), data[36..36 + Number32(data, 32)]), data[36 + Number32(data, 32)..]))
  {
    hide FromLe, Number32;
    if |data| >= 36 {
      FromLeIsNumber(data, 32);
    }
  }

  /** The reader keeps an entry or skips it by its own hash alone. */
  lemma {:induction false} GenuineConcat(a: seq<Entry>, b: seq<Entry>, hash: Hash)
    ensures Genuine(a + b, hash) == Genuine(a, hash) + Genuine(b, hash)
  {
    if b == [] {
      assert a + b == a;
    } else {
      assert (a + b)[..|a + b| - 1] == a + b[..|b| - 1];
      GenuineConcat(a, b[..|b| - 1], hash);
      var last := if hash(b[|b| - 1].chunk) == b[|b| - 1].key then [b[|b| - 1]] else [];
      Assoc(Genuine(a, hash), Genuine(b[..|b| - 1], hash), last);
    }
  }

  lemma {:induction false} GenuineAll(es: seq<Entry>, hash: Hash)
    requires forall e :: e in es ==> hash(e.chunk) == e.key
    ensures Genuine(es, hash) == es
  {
    if es != [] {
      assert es[|es| - 1] in es;
      assert es == es[..|es| - 1] + [es[|es| - 1]];
      GenuineAll(es[..|es| - 1], hash);
    }
  }

  /** Saving a store and loading it into an empty one: the same entries in the same order, or the
      longest suffix that fits if the limit has become smaller. */
  lemma SavedStoreIsRestored(es: seq<Entry>, hash: Hash, max: nat)
    requires |es| < U32 && DistinctKeys(es)
    requires forall e :: e in es ==> |e.chunk| <= CHUNK_LIMIT && hash(e.chunk) == e.key
    ensures DecodeFile(EncodeFile(es)) == Ok(es)
    ensures InsertAll([], max, Genuine(es, hash)) == Evict(es, max)
    ensures TotalSize(es) <= max ==> InsertAll([], max, Genuine(es, hash)) == es
  {
    hide DecodeFile, EncodeFile, InsertAll;
    FileRoundTrip(es, []);
    assert EncodeFile(es) + [] == EncodeFile(es);
    GenuineAll(es, hash);
    StoreOfDistinctKeys(es, max);
  }

  /** Loaded are exactly the entries that have their keys as hashes. */
  lemma {:induction false} GenuineIff(es: seq<Entry>, hash: Hash, e: Entry)
    ensures e in Genuine(es, hash) <==> e in es && hash(e.chunk) == e.key
  {
    if es != [] {
      var prior, last := es[..|es| - 1], es[|es| - 1];
      assert es == prior + [last];
      GenuineIff(prior, hash, e);
    }
  }

  /** Whatever file the reader accepts: everything loaded from it has its key as hash. */
  lemma LoadedIsGenuine(file: bytes, hash: Hash, max: nat, e: Entry)
    requires DecodeFile(file).Ok?
    requires e in InsertAll([], max, Genuine(DecodeFile(file).value, hash))
    ensures hash(e.chunk) == e.key
    ensures e in DecodeFile(file).value
  {
    hide DecodeFile, InsertAll, Genuine;
    StoredIsFromLog([], max, Genuine(DecodeFile(file).value, hash), e);
    GenuineIff(DecodeFile(file).value, hash, e);
  }
}
