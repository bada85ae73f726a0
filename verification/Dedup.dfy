/** Taking a world apart into chunks and putting it together again (`src/dedup.rs`). */
module Dedup {
  import opened Bytes
  import opened Keys
  import opened Chunker

  const TRANSFER_BLOCK_SIZE: nat := 503
  const INFLATE_LIMIT: nat := 20_000_000

  datatype FactorioFileType = Normal | Zlib

  datatype FactorioFile = FactorioFile(file_type: FactorioFileType, data: bytes)

  datatype FactorioFileDescription = FactorioFileDescription(
    file_type: FactorioFileType, file_name: bytes, content_size: nat, content_chunks: seq<ChunkKey>)

  datatype FactorioWorldDescription = FactorioWorldDescription(
    files: seq<FactorioFileDescription>, aux_data: bytes)

  /** Foreign code: zlib in both directions (inflating fails on bad data and over the limit), blake3. */
  datatype Foreign = Foreign(inflate: bytes -> Option<bytes>, deflate: bytes -> bytes, hash: Hash) {
    ghost predicate ZlibOk() {
      && (forall x :: |x| <= INFLATE_LIMIT ==> inflate(deflate(x)) == Some(x))
      && (forall y :: inflate(y).Some? ==> |inflate(y).value| <= INFLATE_LIMIT)
    }
  }

  // ----- Decoding and encoding one file -----

  /** What follows the last separator, or everything. */
  function AfterLast<T(==)>(s: seq<T>, separator: T): seq<T> {
    if separator !in s then s else AfterLast(s[1..], separator)
  }

  /** A part without separator, at the end, and right after a separator if it is not everything. */
  ghost predicate IsLastPart<T(!new)>(s: seq<T>, separator: T, before: seq<T>, part: seq<T>) {
    s == before + part && separator !in part && (before == [] || before[|before| - 1] == separator)
  }

  lemma {:induction false} AfterLastIsLastPart<T(!new)>(s: seq<T>, separator: T) returns (before: seq<T>)
    ensures IsLastPart(s, separator, before, AfterLast(s, separator))
  {
    hide IsLastPart;
    before := [];
    WholeIsPart(s, separator);
    if separator in s {
      var prior := AfterLastIsLastPart(s[1..], separator);
      before := [s[0]] + prior;
      PrependToPart(s, separator, prior, AfterLast(s[1..], separator));
    }
  }

  lemma WholeIsPart<T(!new)>(s: seq<T>, separator: T)
    ensures separator !in s ==> IsLastPart(s, separator, [], s)
  {
    assert s == [] + s;
  }

  lemma PrependToPart<T(!new)>(s: seq<T>, separator: T, before: seq<T>, part: seq<T>)
    requires separator in s && IsLastPart(s[1..], separator, before, part)
    ensures IsLastPart(s, separator, [s[0]] + before, part)
  {
    assert s == [s[0]] + (before + part);
    assert [s[0]] + (before + part) == ([s[0]] + before) + part;
  }

  lemma LongerHasSeparator<T>(a: seq<T>, x: seq<T>, b: seq<T>, y: seq<T>, separator: T)
    requires a + x == b + y && |a| < |b| && b[|b| - 1] == separator
    ensures separator in x
  {
    assert x[|b| - 1 - |a|] == (a + x)[|b| - 1] == (b + y)[|b| - 1];
  }

  /** The part after the last separator is the only last part. */
  lemma AfterLastIff<T(!new)>(s: seq<T>, separator: T, part: seq<T>)
    ensures part == AfterLast(s, separator) <==> exists before :: IsLastPart(s, separator, before, part)
  {
    hide AfterLast;
    var x := AfterLast(s, separator);
    var a := AfterLastIsLastPart(s, separator);
    if b :| IsLastPart(s, separator, b, part) {
      if |a| < |b| {
        LongerHasSeparator(a, x, b, part, separator);
      } else if |b| < |a| {
        LongerHasSeparator(b, part, a, x, separator);
      }
      assert part == s[|b|..] && x == s[|a|..];
    }
  }

  /** The part of a path after the last '/', or all of it. */
  function BaseName(path: bytes): bytes { AfterLast(path, 0x2F) }

  const LEVEL_DAT: bytes := [0x6C, 0x65, 0x76, 0x65, 0x6C, 0x2E, 0x64, 0x61, 0x74]

  /** "level.dat" followed by nothing but digits. */
  predicate IsLevelFile(path: bytes) {
    var name := BaseName(path);
    && LEVEL_DAT <= name
    && forall i :: |LEVEL_DAT| <= i < |name| ==> 0x30 <= name[i] <= 0x39
  }

  function DecodeFactorioFile(foreign: Foreign, path: bytes, raw: bytes): Option<FactorioFile> {
    if IsLevelFile(path) then
      match foreign.inflate(raw)
      case None => None
      case Some(data) => Some(FactorioFile(Zlib, data))
    else Some(FactorioFile(Normal, raw))
  }

  function EncodeFactorioFile(foreign: Foreign, file: FactorioFile): bytes {
    match file.file_type
    case Normal => file.data
    case Zlib => foreign.deflate(file.data)
  }

  /** Is the path "level.dat" followed by digits, on its own or right after a '/'? */
  ghost predicate IsLevelPath(path: bytes) {
    exists before: bytes, digits: bytes ::
      && path == before + [0x6C, 0x65, 0x76, 0x65, 0x6C, 0x2E, 0x64, 0x61, 0x74] + digits
      && (before == [] || before[|before| - 1] == 0x2F)
      && forall d :: d in digits ==> 0x30 <= d <= 0x39
  }

  lemma LevelPathIff(path: bytes)
    ensures IsLevelFile(path) <==> IsLevelPath(path)
  {
    var name := BaseName(path);
    var before := AfterLastIsLastPart(path, 0x2F);
    if IsLevelFile(path) {
      var digits := name[|LEVEL_DAT|..];
      assert name == LEVEL_DAT + digits;
      Assoc(before, LEVEL_DAT, digits);
    }
    if IsLevelPath(path) {
      var dir: bytes, digits: bytes :|
        && path == dir + [0x6C, 0x65, 0x76, 0x65, 0x6C, 0x2E, 0x64, 0x61, 0x74] + digits
        && (dir == [] || dir[|dir| - 1] == 0x2F)
        && forall d :: d in digits ==> 0x30 <= d <= 0x39;
      LevelName(path, dir, digits);
    }
  }

  lemma LevelName(path: bytes, before: bytes, digits: bytes)
    requires path == before + LEVEL_DAT + digits && (before == [] || before[|before| - 1] == 0x2F)
    requires forall d :: d in digits ==> 0x30 <= d <= 0x39
    ensures BaseName(path) == LEVEL_DAT + digits && IsLevelFile(path)
  {
    hide AfterLast;
    var name := LEVEL_DAT + digits;
    Assoc(before, LEVEL_DAT, digits);
    assert 0x2F !in LEVEL_DAT;
    assert IsLastPart(path, 0x2F, before, name);
    AfterLastIff(path, 0x2F, name);
    assert LEVEL_DAT <= name;
    forall i | |LEVEL_DAT| <= i < |name| ensures 0x30 <= name[i] <= 0x39 {
      assert name[i] == digits[i - |LEVEL_DAT|] && digits[i - |LEVEL_DAT|] in digits;
    }
  }

  /** Only "level.dat" files with a number, in whatever directory, are inflated, and they have to be; every other
      file is taken as it is. */
  lemma DecodedIs(foreign: Foreign, path: bytes, raw: bytes)
    ensures DecodeFactorioFile(foreign, path, raw) ==
            if !IsLevelPath(path) then Some(FactorioFile(Normal, raw))
            else if foreign.inflate(raw).None? then None
            else Some(FactorioFile(Zlib, foreign.inflate(raw).value))
  {
    hide IsLevelFile, IsLevelPath;
    LevelPathIff(path);
  }

  /** Encoding again what was decoded gives, under the same name, a file that decodes the same. */
  lemma DecodeAgain(foreign: Foreign, path: bytes, raw: bytes)
    requires foreign.ZlibOk() && DecodeFactorioFile(foreign, path, raw).Some?
    ensures var file := DecodeFactorioFile(foreign, path, raw).value;
            DecodeFactorioFile(foreign, path, EncodeFactorioFile(foreign, file)) == Some(file)
  {
    hide BaseName, IsLevelFile;
  }

  // ----- Chunking one file -----

  function KeysOf(hash: Hash, chunks: seq<bytes>): seq<ChunkKey> {
    seq(|chunks|, i requires 0 <= i < |chunks| => hash(chunks[i]))
  }

  function DescribeFile(foreign: Foreign, path: bytes, file: FactorioFile): FactorioFileDescription {
    FactorioFileDescription(file.file_type, path, |file.data|, KeysOf(foreign.hash, Chunks(file.data)))
  }

  /** What the description says of a file: type, name and length, and the hash of each chunk, in order. */
  lemma DescribedIs(foreign: Foreign, path: bytes, file: FactorioFile)
    ensures var desc := DescribeFile(foreign, path, file);
            && desc.file_type == file.file_type && desc.file_name == path && desc.content_size == |file.data|
            && |desc.content_chunks| == |Chunks(file.data)|
            && forall i :: 0 <= i < |Chunks(file.data)| ==>
                 desc.content_chunks[i] == foreign.hash(Chunks(file.data)[i])
  {
    hide Chunks;
  }

  /** A chunk map after inserting these chunks. */
  function AddChunks(m: map<ChunkKey, bytes>, hash: Hash, chunks: seq<bytes>): map<ChunkKey, bytes>
    decreases |chunks|
  {
    if chunks == [] then m
    else AddChunks(m[hash(chunks[0]) := chunks[0]], hash, chunks[1..])
  }

  method ChunkFile(foreign: Foreign, path: bytes, file: FactorioFile, chunks: map<ChunkKey, bytes>)
    returns (desc: FactorioFileDescription, chunks': map<ChunkKey, bytes>)
    ensures desc == DescribeFile(foreign, path, file)
    ensures chunks' == AddChunks(chunks, foreign.hash, Chunks(file.data))
  {
    hide FirstCut;
    chunks' := chunks;
    var chunker := new Chunker(file.data);
    var content_chunks := [];
    var next := chunker.Next();
    ghost var rest := file.data;
    while next.Some?
      invariant chunker.Valid() && fresh(chunker) && fresh(chunker.rolling_hash) && fresh(chunker.rolling_hash.window)
      invariant next.Some? ==>
        rest != [] && next.value == rest[..FirstCut(rest)] && chunker.data == rest[FirstCut(rest)..]
      invariant next.None? ==> rest == []
      invariant content_chunks + KeysOf(foreign.hash, Chunks(rest)) == KeysOf(foreign.hash, Chunks(file.data))
      invariant AddChunks(chunks', foreign.hash, Chunks(rest)) == AddChunks(chunks, foreign.hash, Chunks(file.data))
      decreases |rest|
    {
      var chunk := next.value;
      var key := foreign.hash(chunk);
      KeysOfCons(foreign.hash, chunk, Chunks(rest[FirstCut(rest)..]));
      AddChunksCons(chunks', foreign.hash, chunk, Chunks(rest[FirstCut(rest)..]));
      content_chunks := content_chunks + [key];
      chunks' := chunks'[key := chunk];
      rest := rest[FirstCut(rest)..];
      next := chunker.Next();
    }
    desc := FactorioFileDescription(file.file_type, path, |file.data|, content_chunks);
  }

  lemma KeysOfCons(hash: Hash, chunk: bytes, rest: seq<bytes>)
    ensures KeysOf(hash, [chunk] + rest) == [hash(chunk)] + KeysOf(hash, rest)
  {
  }

  lemma AddChunksCons(m: map<ChunkKey, bytes>, hash: Hash, chunk: bytes, rest: seq<bytes>)
    ensures AddChunks(m, hash, [chunk] + rest) == AddChunks(m[hash(chunk) := chunk], hash, rest)
  {
    assert ([chunk] + rest)[1..] == rest;
  }

  // ----- Taking a world apart -----

  /** The files of the downloaded archive, as the `zip` crate reads them. */
  datatype RawFile = RawFile(name: bytes, content: bytes)

  function DecodeAll(foreign: Foreign, raw: seq<RawFile>): Option<seq<FactorioFile>> {
    if raw == [] then Some([])
    else
      match DecodeAll(foreign, raw[..|raw| - 1])
      case None => None
      case Some(files) =>
        match DecodeFactorioFile(foreign, raw[|raw| - 1].name, raw[|raw| - 1].content)
        case None => None
        case Some(file) => Some(files + [file])
  }

  /** Every described chunk is in the map, under its own hash; and the map has only chunks of the files. */
  ghost predicate MapHolds(chunks: map<ChunkKey, bytes>, foreign: Foreign, descs: seq<FactorioFileDescription>,
                           files: seq<FactorioFile>) {
    && (forall d, k :: d in descs && k in d.content_chunks ==> k in chunks)
    && (forall k :: k in chunks ==> foreign.hash(chunks[k]) == k)
    && (forall k :: k in chunks ==> IsChunk(files, chunks[k]))
  }

  ghost predicate IsChunk(files: seq<FactorioFile>, chunk: bytes) {
    exists f :: f in files && chunk in Chunks(f.data)
  }

  lemma {:induction false} AddChunksHolds(m: map<ChunkKey, bytes>, hash: Hash, chunks: seq<bytes>)
    ensures var r := AddChunks(m, hash, chunks);
            && (forall k :: k in r <==> k in m || k in KeysOf(hash, chunks))
            && ((forall k :: k in m ==> hash(m[k]) == k) ==> forall k :: k in r ==> hash(r[k]) == k)
            && (forall k :: k in r ==> (k in m && r[k] == m[k]) || r[k] in chunks)
    decreases |chunks|
  {
    if chunks != [] {
      var c, rest := chunks[0], chunks[1..];
      var m' := m[hash(c) := c];
      AddChunksHolds(m', hash, rest);
      assert AddChunks(m, hash, chunks) == AddChunks(m', hash, rest);
      assert (forall k :: k in m ==> hash(m[k]) == k) ==> forall k :: k in m' ==> hash(m'[k]) == k;
      assert chunks == [c] + rest;
      KeysOfCons(hash, c, rest);
      assert forall k :: k in KeysOf(hash, chunks) <==> k == hash(c) || k in KeysOf(hash, rest);
    }
  }

  /** The chunks of all files, by hash. */
  function WorldChunks(foreign: Foreign, files: seq<FactorioFile>): map<ChunkKey, bytes> {
    if files == [] then map[]
    else AddChunks(WorldChunks(foreign, files[..|files| - 1]), foreign.hash, Chunks(files[|files| - 1].data))
  }

  function DescribeAll(foreign: Foreign, raw: seq<RawFile>, files: seq<FactorioFile>)
    : (descs: seq<FactorioFileDescription>)
    requires |files| == |raw|
    ensures |descs| == |raw|
  {
    seq(|raw|, i requires 0 <= i < |raw| => DescribeFile(foreign, raw[i].name, files[i]))
  }

  /** The server can answer every request for described chunks, and with chunks of the world. */
  lemma {:induction false} WorldChunksHold(foreign: Foreign, raw: seq<RawFile>, files: seq<FactorioFile>)
    requires |files| == |raw|
    ensures MapHolds(WorldChunks(foreign, files), foreign, DescribeAll(foreign, raw, files), files)
  {
    hide DescribeFile, AddChunks, Chunks;
    if files != [] {
      var n := |files| - 1;
      WorldChunksHold(foreign, raw[..n], files[..n]);
      MapHoldsMore(WorldChunks(foreign, files[..n]), foreign, DescribeAll(foreign, raw[..n], files[..n]), files[..n],
                   raw[n].name, files[n]);
      assert files == files[..n] + [files[n]];
      assert DescribeAll(foreign, raw, files)
        == DescribeAll(foreign, raw[..n], files[..n]) + [DescribeFile(foreign, raw[n].name, files[n])];
    }
  }

  /** None if some file does not decode. */
  method DeconstructWorld(foreign: Foreign, raw: seq<RawFile>, aux_data: bytes)
    returns (result: Option<(FactorioWorldDescription, map<ChunkKey, bytes>)>)
    ensures result.None? <==> DecodeAll(foreign, raw).None?
    ensures result.Some? ==>
      var files := DecodeAll(foreign, raw).value;
      && |files| == |raw|
      && result.value == (FactorioWorldDescription(DescribeAll(foreign, raw, files), aux_data),
                          WorldChunks(foreign, files))
  {
    hide DecodeFactorioFile, DescribeFile, AddChunks;
    var descs: seq<FactorioFileDescription> := [];
    var chunks: map<ChunkKey, bytes> := map[];
    ghost var files: seq<FactorioFile> := [];
    for i := 0 to |raw|
      invariant DecodeAll(foreign, raw[..i]) == Some(files)
      invariant |files| == i
      invariant descs == DescribeAll(foreign, raw[..i], files)
      invariant chunks == WorldChunks(foreign, files)
    {
      assert raw[..i + 1][..i] == raw[..i];
      var decoded := DecodeFactorioFile(foreign, raw[i].name, raw[i].content);
      if decoded.None? {
        DecodeFails(foreign, raw, i + 1);
        return None;
      }
      var desc;
      desc, chunks := ChunkFile(foreign, raw[i].name, decoded.value, chunks);
      assert (files + [decoded.value])[..i] == files;
      descs := descs + [desc];
      files := files + [decoded.value];
    }
    assert raw[..|raw|] == raw;
    result := Some((FactorioWorldDescription(descs, aux_data), chunks));
  }

  lemma MapHoldsMore(chunks: map<ChunkKey, bytes>, foreign: Foreign, descs: seq<FactorioFileDescription>,
                     files: seq<FactorioFile>, path: bytes, file: FactorioFile)
    requires MapHolds(chunks, foreign, descs, files)
    ensures MapHolds(AddChunks(chunks, foreign.hash, Chunks(file.data)), foreign,
                     descs + [DescribeFile(foreign, path, file)], files + [file])
  {
    hide AddChunks, Chunks, KeysOf;
    AddChunksHolds(chunks, foreign.hash, Chunks(file.data));
    var r := AddChunks(chunks, foreign.hash, Chunks(file.data));
    forall k | k in r ensures IsChunk(files + [file], r[k]) {
      if k in chunks && r[k] == chunks[k] {
        assert IsChunk(files, r[k]);
        var f :| f in files && r[k] in Chunks(f.data);
        assert f in files + [file];
      } else {
        assert file in files + [file];
      }
    }
  }

  lemma {:induction false} DecodeFails(foreign: Foreign, raw: seq<RawFile>, i: nat)
    requires i <= |raw| && DecodeAll(foreign, raw[..i]) == None
    ensures DecodeAll(foreign, raw) == None
    decreases |raw| - i
  {
    if i == |raw| {
      assert raw[..i] == raw;
    } else {
      assert raw[..i + 1][..i] == raw[..i];
      DecodeFails(foreign, raw, i + 1);
    }
  }

  lemma {:induction false} DecodedAt(foreign: Foreign, raw: seq<RawFile>, i: nat)
    requires DecodeAll(foreign, raw).Some? && i < |raw|
    ensures |DecodeAll(foreign, raw).value| == |raw|
    ensures DecodeFactorioFile(foreign, raw[i].name, raw[i].content) == Some(DecodeAll(foreign, raw).value[i])
  {
    hide DecodeFactorioFile;
    var n := |raw| - 1;
    if i < n {
      DecodedAt(foreign, raw[..n], i);
    } else if n > 0 {
      DecodedAt(foreign, raw[..n], 0);
    }
  }

  // ----- Putting a file together -----

  /** The concatenated chunks, or None if one is missing. */
  function Content(keys: seq<ChunkKey>, chunks: map<ChunkKey, bytes>): Option<bytes> {
    if keys == [] then Some([])
    else
      match Content(keys[..|keys| - 1], chunks)
      case None => None
      case Some(data) =>
        if keys[|keys| - 1] in chunks then Some(data + chunks[keys[|keys| - 1]]) else None
  }

  lemma ContentOfNone(chunks: map<ChunkKey, bytes>)
    ensures Content([], chunks) == Some([])
  {
  }

  lemma ContentStep(keys: seq<ChunkKey>, chunks: map<ChunkKey, bytes>)
    requires keys != []
    ensures Content(keys, chunks).Some? <==>
      Content(keys[..|keys| - 1], chunks).Some? && keys[|keys| - 1] in chunks
  {
  }

  lemma {:induction false} ContentIff(keys: seq<ChunkKey>, chunks: map<ChunkKey, bytes>)
    ensures Content(keys, chunks).Some? <==> forall k :: k in keys ==> k in chunks
  {
    hide Content;
    if keys == [] {
      assert Content([], chunks) == Some([]) by { ContentOfNone(chunks); }
    } else {
      var prior, last := keys[..|keys| - 1], keys[|keys| - 1];
      ContentIff(prior, chunks);
      assert forall k :: k in keys <==> k in prior || k == last;
      ContentStep(keys, chunks);
    }
  }

  lemma {:induction false} ContentOfChunks(hash: Hash, parts: seq<bytes>, chunks: map<ChunkKey, bytes>)
    requires forall c :: c in parts ==> hash(c) in chunks && chunks[hash(c)] == c
    ensures Content(KeysOf(hash, parts), chunks) == Some(Concat(parts))
  {
    if parts != [] {
      var n := |parts| - 1;
      assert KeysOf(hash, parts)[..n] == KeysOf(hash, parts[..n]);
      assert parts == parts[..n] + [parts[n]];
      assert parts[n] in parts;
      ContentOfChunks(hash, parts[..n], chunks);
      ConcatAppend(parts[..n], [parts[n]]);
      assert Concat([parts[n]]) == parts[n] by { assert [parts[n]][1..] == []; }
    }
  }

  /** Among the chunks that come up, none has the hash of a different chunk of this file. */
  ghost predicate NoCollisions(foreign: Foreign, data: bytes, others: set<bytes>) {
    forall c, x :: c in Chunks(data) && x in others && foreign.hash(x) == foreign.hash(c) ==> x == c
  }

  /** Any mix of cached and fetched chunks that have their keys as hashes rebuilds the decoded file. */
  lemma ContentIsLossless(foreign: Foreign, path: bytes, file: FactorioFile, chunks: map<ChunkKey, bytes>)
    requires forall k :: k in chunks ==> foreign.hash(chunks[k]) == k
    requires NoCollisions(foreign, file.data, chunks.Values)
    ensures var content := Content(DescribeFile(foreign, path, file).content_chunks, chunks);
            if forall c :: c in Chunks(file.data) ==> foreign.hash(c) in chunks
            then content == Some(file.data) else content == None
  {
    hide Content, Chunks;
    var parts := Chunks(file.data);
    var keys := KeysOf(foreign.hash, parts);
    ContentIff(keys, chunks);
    ChunksConcat(file.data);
    if forall c :: c in parts ==> foreign.hash(c) in chunks {
      ContentOfChunks(foreign.hash, parts, chunks);
    } else {
      var c :| c in parts && foreign.hash(c) !in chunks;
      var i :| 0 <= i < |parts| && parts[i] == c;
      assert keys[i] in keys;
    }
  }
}
