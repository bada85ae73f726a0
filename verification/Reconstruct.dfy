/** The reconstructed world: the ZIP file with an announced size and an announced CRC
    (`WorldReconstructor` of `src/dedup.rs`). */
module Reconstruct {
  import opened Bytes
  import opened Keys
  import opened Crc32
  import opened RevCrc
  import opened ZipFormat
  import opened ZipWriter
  import opened Dedup

  // ----- Specification: the whole output stream -----

  function BlockCount(n: nat): nat { (n + TRANSFER_BLOCK_SIZE - 1) / TRANSFER_BLOCK_SIZE }

  function Aligned(n: nat): nat { BlockCount(n) * TRANSFER_BLOCK_SIZE }

  lemma AlignedBounds(n: nat)
    ensures n <= Aligned(n) < n + TRANSFER_BLOCK_SIZE && Aligned(n) % TRANSFER_BLOCK_SIZE == 0
  {
    var m := n + TRANSFER_BLOCK_SIZE - 1;
    assert m == BlockCount(n) * TRANSFER_BLOCK_SIZE + m % TRANSFER_BLOCK_SIZE;
    MultipleMod(BlockCount(n));
  }

  lemma {:induction false} MultipleMod(k: nat)
    ensures k * TRANSFER_BLOCK_SIZE % TRANSFER_BLOCK_SIZE == 0
  {
    if k > 0 {
      MultipleMod(k - 1);
      assert k * TRANSFER_BLOCK_SIZE == (k - 1) * TRANSFER_BLOCK_SIZE + TRANSFER_BLOCK_SIZE;
    }
  }

  /** Size without padding: records, footer and the four forged bytes. */
  function MinimalSize(files: seq<ZipFile>): nat { |Body(files)| + |Footer(Place(files), 0)| + 4 }

  lemma FooterLength(files: seq<ZipFile>, offset: nat)
    ensures |Footer(Place(files), offset)| == |Directory(Place(files), 0)| + END_OF_CENTRAL_DIRECTORY_SIZE
  {
    RecordLengths(ZipFile([], []), offset, |files|, |Directory(Place(files), 0)|);
  }

  /** Bytes that the files from number `i` on take: header, data and directory entry. */
  function Cost(files: seq<ZipFile>, i: nat): nat
    requires i <= |files|
    decreases |files| - i
  {
    if i == |files| then 0 else 76 + 2 * |files[i].name| + |files[i].data| + Cost(files, i + 1)
  }

  lemma {:induction false} CostSplits(files: seq<ZipFile>, i: nat)
    requires i <= |files|
    ensures Cost(files, i) == |Body(files)| - OffsetOf(files, i) + |Directory(Place(files), i)|
    decreases |files| - i
  {
    hide Body, LocalHeader, Directory;
    DirectoryLength(Place(files), i);
    if i == |files| {
      assert files[..i] == files;
    } else {
      CostSplits(files, i + 1);
      assert files[..i + 1] == files[..i] + [files[i]];
      BodyAppend(files[..i], files[i]);
      RecordLengths(files[i], 0, 0, 0);
    }
  }

  /** Whether a world fits its announced size can be told from the names and lengths of its files. */
  lemma MinimalSizeIs(files: seq<ZipFile>)
    ensures MinimalSize(files) == Cost(files, 0) + 26
  {
    hide Body, Directory, Footer, Cost;
    CostSplits(files, 0);
    FooterLength(files, 0);
    assert |Body(files[..0])| == 0 by { EmptyBody(); }
  }

  lemma EmptyBody()
    ensures Body([]) == []
  {
  }

  function Padding(files: seq<ZipFile>, size: nat): bytes
    requires MinimalSize(files) <= size
  {
    Zeros(size - MinimalSize(files))
  }

  function WorldFooter(files: seq<ZipFile>, size: nat): bytes
    requires MinimalSize(files) <= size
  {
    Footer(Place(files), |Body(files)| + |Padding(files, size)| + 4)
  }

  function ForgeBytes(files: seq<ZipFile>, aux: bytes, size: nat, crc: word): bytes
    requires MinimalSize(files) <= size
  {
    Forge(Checksum(Body(files) + Padding(files, size)),
          UnRun(Xor(crc, XOROUT), WorldFooter(files, size) + aux))
  }

  /** The world: records, padding, forged bytes, footer. */
  function World(files: seq<ZipFile>, aux: bytes, size: nat, crc: word): bytes
    requires MinimalSize(files) <= size
  {
    Body(files) + Padding(files, size) + ForgeBytes(files, aux, size, crc) + WorldFooter(files, size)
  }

  /** World and auxiliary data, each padded to whole blocks. */
  function Padded(world: bytes, aux: bytes): bytes {
    AlignedBounds(|world|);
    AlignedBounds(|aux|);
    world + Zeros(Aligned(|world|) - |world|) + (aux + Zeros(Aligned(|aux|) - |aux|))
  }

  // ----- What the client of the stream gets -----

  lemma PartSizes(files: seq<ZipFile>, aux: bytes, size: nat, crc: word)
    requires MinimalSize(files) <= size
    ensures |Padding(files, size)| == size - MinimalSize(files)
    ensures |ForgeBytes(files, aux, size, crc)| == 4
    ensures |WorldFooter(files, size)| == |Footer(Place(files), 0)|
         == |Directory(Place(files), 0)| + END_OF_CENTRAL_DIRECTORY_SIZE
  {
    hide Body, Footer, Forge, Checksum, UnRun, Xor, Directory, Zeros;
    FooterLength(files, 0);
    FooterLength(files, |Body(files)| + |Padding(files, size)| + 4);
    ForgeLength(Checksum(Body(files) + Padding(files, size)), UnRun(Xor(crc, XOROUT), WorldFooter(files, size) + aux));
  }

  lemma ForgeLength(before: word, after: word)
    ensures |Forge(before, after)| == 4
  {
  }

  lemma WorldSize(files: seq<ZipFile>, aux: bytes, size: nat, crc: word)
    requires MinimalSize(files) <= size
    ensures |World(files, aux, size, crc)| == size
  {
    hide Body, Footer, Padding, ForgeBytes, WorldFooter;
    PartSizes(files, aux, size, crc);
  }

  /** The joint CRC of world and auxiliary data is the announced one. */
  lemma WorldCrc(files: seq<ZipFile>, aux: bytes, size: nat, crc: word)
    requires MinimalSize(files) <= size
    ensures Checksum(World(files, aux, size, crc) + aux) == crc
  {
    hide Body, Footer, Forge, Checksum, UnRun;
    var prefix := Body(files) + Padding(files, size);
    var footer := WorldFooter(files, size);
    ForgedChecksum(prefix, footer + aux, crc);
    var forged := ForgeBytes(files, aux, size, crc);
    Assoc(prefix + forged, footer, aux);
  }

  /** Between records and footer there is only padding and forged bytes. */
  lemma WorldGap(files: seq<ZipFile>, aux: bytes, size: nat, crc: word) returns (gap: bytes)
    requires MinimalSize(files) <= size
    ensures |Body(files)| + |gap| + |Footer(Place(files), 0)| == size
    ensures World(files, aux, size, crc) == Body(files) + gap + Footer(Place(files), |Body(files)| + |gap|)
  {
    hide Body, Footer, Padding, ForgeBytes, Directory, Zeros;
    PartSizes(files, aux, size, crc);
    var padding, forged := Padding(files, size), ForgeBytes(files, aux, size, crc);
    gap := padding + forged;
    assert |gap| == |padding| + 4;
    Assoc(Body(files), padding, forged);
  }

  /** The world is a ZIP file with exactly the files given to the reconstructor, in order. */
  lemma WorldIsZip(files: seq<ZipFile>, aux: bytes, size: nat, crc: word)
    requires MinimalSize(files) <= size < Bytes.U32
    requires |files| < Bytes.U16 && forall f :: f in files ==> FileFits(f)
    ensures ReadZip(World(files, aux, size, crc)) == Some(Members(files, 0))
  {
    hide Body, Footer, Directory, ReadZip, World, FileFits, Members;
    PartSizes(files, aux, size, crc);
    var gap := WorldGap(files, aux, size, crc);
    ZipIsRead(files, gap);
  }

  /** The world in detail: the files' records, zero bytes, the four forged bytes, and the footer at the end. */
  lemma WorldLayout(files: seq<ZipFile>, aux: bytes, size: nat, crc: word)
    requires MinimalSize(files) <= size
    ensures var world, body := World(files, aux, size, crc), Body(files);
            var footer := Footer(Place(files), size - |Footer(Place(files), 0)|);
            && |world| == size && |footer| == |Footer(Place(files), 0)|
            && |body| + 4 + |footer| <= size
            && world[..|body|] == body
            && (forall k :: |body| <= k < size - |footer| - 4 ==> world[k] == 0)
            && world[size - |footer|..] == footer
  {
    hide Body, Footer, ForgeBytes, Directory, MinimalSize;
    MinimalParts(files);
    PartSizes(files, aux, size, crc);
    FooterLength(files, size - |Footer(Place(files), 0)|);
    FooterLength(files, 0);
    var body, padding, forged, footer :=
      Body(files), Padding(files, size), ForgeBytes(files, aux, size, crc), WorldFooter(files, size);
    var world := World(files, aux, size, crc);
    assert world == body + padding + forged + footer;
    assert forall k :: |body| <= k < |body| + |padding| ==> world[k] == padding[k - |body|] == 0;
  }

  lemma MinimalParts(files: seq<ZipFile>)
    ensures MinimalSize(files) == |Body(files)| + |Footer(Place(files), 0)| + 4
  {
  }

  /** The stream in detail: the world, zero bytes up to a multiple of 503, the auxiliary data, zero bytes up to the
      next multiple. */
  lemma StreamLayout(world: bytes, aux: bytes)
    ensures var stream := Padded(world, aux);
            var start := (|world| + 502) / 503 * 503;
            && |stream| == start + (|aux| + 502) / 503 * 503
            && |world| <= start && start + |aux| <= |stream|
            && stream[..|world|] == world
            && stream[start..start + |aux|] == aux
            && (forall k :: |world| <= k < start ==> stream[k] == 0)
            && (forall k :: start + |aux| <= k < |stream| ==> stream[k] == 0)
  {
    AlignedBounds(|world|);
    AlignedBounds(|aux|);
    var left := world + Zeros(Aligned(|world|) - |world|);
    var right := aux + Zeros(Aligned(|aux|) - |aux|);
    assert Padded(world, aux) == left + right;
    assert forall k :: |world| <= k < |left| ==> left[k] == 0;
    assert forall k :: |aux| <= k < |right| ==> right[k] == 0;
    assert forall k :: |left| <= k < |left| + |right| ==> Padded(world, aux)[k] == right[k - |left|];
  }

  // ----- The class of the source -----

  function Encoded(foreign: Foreign, desc: FactorioFileDescription, data: bytes): ZipFile {
    ZipFile(desc.file_name, EncodeFactorioFile(foreign, FactorioFile(desc.file_type, data)))
  }

  /** How `reconstruct_world_file` ends; the last case is a size `expect` of the ZIP writer. */
  datatype Reconstructed = Blocks(header: bytes, data: bytes) | NeedsMoreData | TooLargeForZip

  class WorldReconstructor {
    const zip_writer: ZipWriter
    const crc_hasher: Digest

    /** Everything emitted so far is the records of `Files()`, one after the other. */
    ghost predicate Valid()
      reads this, zip_writer, crc_hasher
    {
      && zip_writer.Valid()
      && zip_writer.placed == Place(Files())
      && zip_writer.current_offset == |Body(Files())|
      && crc_hasher.value == Run(INIT, Body(Files()))
    }

    ghost function Files(): seq<ZipFile>
      reads this, zip_writer
    {
      FilesOf(zip_writer.placed)
    }

    constructor ()
      ensures Valid() && Files() == []
      ensures fresh(zip_writer) && fresh(crc_hasher)
    {
      zip_writer := new ZipWriter();
      crc_hasher := new Digest();
    }

    /** `NeedsMoreData` happens exactly if a chunk is missing; only `Blocks` changes anything. */
    method ReconstructWorldFile(foreign: Foreign, desc: FactorioFileDescription, chunks: map<ChunkKey, bytes>)
      returns (result: Reconstructed)
      requires Valid()
      modifies zip_writer, crc_hasher
      ensures Valid()
      ensures result.NeedsMoreData? <==> Content(desc.content_chunks, chunks).None?
      ensures !result.Blocks? ==> unchanged(zip_writer) && unchanged(crc_hasher)
      ensures Content(desc.content_chunks, chunks).Some? ==>
        var f := Encoded(foreign, desc, Content(desc.content_chunks, chunks).value);
        && (result.Blocks? <==> FileFits(f))
        && (result.Blocks? ==>
              && result == Blocks(LocalHeader(f), f.data)
              && Files() == old(Files()) + [f]
              && Body(Files()) == old(Body(Files())) + result.header + result.data)
    {
      hide Body, LocalHeader, Run, EncodeFactorioFile, Place, FilesOf, Describe;
      var buf: bytes := [];
      for i := 0 to |desc.content_chunks|
        invariant Content(desc.content_chunks[..i], chunks) == Some(buf)
      {
        var keys := desc.content_chunks[..i + 1];
        assert keys[..i] == desc.content_chunks[..i] && keys[i] == desc.content_chunks[i];
        if desc.content_chunks[i] !in chunks {
          MissingChunk(desc.content_chunks, chunks, i);
          return NeedsMoreData;
        }
        buf := buf + chunks[desc.content_chunks[i]];
      }
      assert desc.content_chunks[..|desc.content_chunks|] == desc.content_chunks;
      var file_data := EncodeFactorioFile(foreign, FactorioFile(desc.file_type, buf));
      ghost var f := ZipFile(desc.file_name, file_data);
      if |file_data| >= Bytes.U32 || |desc.file_name| >= Bytes.U16 {
        return TooLargeForZip;
      }
      BodyAppend(Files(), f);
      FilesAppend(zip_writer.placed, Placed(f, zip_writer.current_offset));
      RunConcat(INIT, Body(Files()), LocalHeader(f));
      RunConcat(INIT, Body(Files()) + LocalHeader(f), file_data);
      var header := zip_writer.EncodeFileHeader(desc.file_name, file_data);
      crc_hasher.Update(header);
      crc_hasher.Update(file_data);
      result := Blocks(header, file_data);
    }

    /** The rest of the archive: padding, forged bytes and footer. None is the size error. */
    method CompleteZip(aux_data: bytes, target_world_size: nat, target_crc: word, rev_crc: RevCRC)
      returns (output: Option<bytes>)
      requires Valid() && rev_crc.Valid()
      requires target_world_size < Bytes.U32 && |Files()| < Bytes.U16
      modifies zip_writer, crc_hasher
      ensures output.None? <==> old(MinimalSize(Files())) > target_world_size
      ensures output.Some? ==>
        old(Body(Files())) + output.value == old(World(Files(), aux_data, target_world_size, target_crc))
    {
      hide Body, Run, UnRun, Forge, Checksum, Directory, Footer, Xor, World, ForgeBytes, WorldFooter;
      ghost var files := Files();
      var current_size := zip_writer.current_offset;
      var zip_footer_size := zip_writer.CentralDirectorySize();
      var total_size := current_size + zip_footer_size + 4;
      assert total_size == MinimalSize(files);
      if total_size > target_world_size {
        return None;
      }
      PartSizes(files, aux_data, target_world_size, target_crc);
      var out := Zeros(target_world_size - total_size);
      crc_hasher.Update(out);
      zip_writer.AdvanceOffset(|out| + 4);
      var zip_footer := zip_writer.EncodeCentralDirectory();
      var forward_crc := crc_hasher.Finalize();
      FinalParts(files, aux_data, target_world_size, target_crc);
      var forge_bytes := ForgeBack(rev_crc, forward_crc, target_crc, zip_footer, aux_data);

      out := out + forge_bytes;
      out := out + zip_footer;
      // "final world size is not equal to target world size" does not happen.
      assert current_size + |out| == target_world_size;

      crc_hasher.Update(forge_bytes);
      crc_hasher.Update(zip_footer);
      crc_hasher.Update(aux_data);
      var final_crc := crc_hasher.Finalize();
      // "Forging CRC failed" does not happen.
      assert final_crc == target_crc;
      output := Some(out);
    }

    /** None is the size error. Sizes are bounded as the source's 32-bit block arithmetic and the
        directory's 16-bit count demand. */
    method FinalizeWorldFile(aux_data: bytes, target_world_size: nat, target_crc: word, rev_crc: RevCRC)
      returns (output: Option<bytes>)
      requires Valid() && rev_crc.Valid()
      requires target_world_size + TRANSFER_BLOCK_SIZE <= Bytes.U32 && |aux_data| + TRANSFER_BLOCK_SIZE <= Bytes.U32
      requires |Files()| < Bytes.U16
      modifies zip_writer, crc_hasher
      ensures output.None? <==> old(MinimalSize(Files())) > target_world_size
      ensures output.Some? ==>
        old(Body(Files())) + output.value
        == Padded(old(World(Files(), aux_data, target_world_size, target_crc)), aux_data)
    {
      hide Body, Run, MinimalSize, World, Padded, Aligned, Place, FilesOf, Describe;
      ghost var files := Files();
      output := CompleteZip(aux_data, target_world_size, target_crc, rev_crc);
      if output.None? {
        return;
      }
      var world_aligned_length := Aligned(target_world_size);
      var aux_aligned_length := Aligned(|aux_data|);
      AlignedBounds(target_world_size);
      AlignedBounds(|aux_data|);
      WorldSize(files, aux_data, target_world_size, target_crc);
      var out := output.value + Zeros(world_aligned_length - target_world_size);
      out := out + aux_data;
      out := out + Zeros(aux_aligned_length - |aux_data|);
      // The assertion that whole blocks were emitted does not fail.
      assert (|Body(files)| + |out|) % TRANSFER_BLOCK_SIZE == 0 by {
        AlignedSum(target_world_size, |aux_data|);
      }
      PaddedJoined(Body(files), output.value, aux_data);
      output := Some(out);
    }

    /** The reverse digest over auxiliary data and footer, and the forged bytes from it. */
    method ForgeBack(rev_crc: RevCRC, forward_crc: word, target_crc: word, zip_footer: bytes, aux_data: bytes)
      returns (forge_bytes: bytes)
      requires rev_crc.Valid()
      ensures forge_bytes == Forge(forward_crc, UnRun(Xor(target_crc, XOROUT), zip_footer + aux_data))
    {
      hide UnRun, Forge, Xor;
      var rev_crc_hasher := new RevDigest(rev_crc, target_crc);
      rev_crc_hasher.Update(aux_data);
      rev_crc_hasher.Update(zip_footer);
      UnRunConcat(Xor(target_crc, XOROUT), zip_footer, aux_data);
      forge_bytes := ForgeCrc(forward_crc, rev_crc_hasher);
    }
  }

  /** The parts as the code computes them, and what the digest sees. */
  lemma FinalParts(files: seq<ZipFile>, aux: bytes, size: nat, crc: word)
    requires MinimalSize(files) <= size
    ensures var before := Run(Run(INIT, Body(files)), Padding(files, size));
            var footer := Footer(Place(files), |Body(files)| + |Padding(files, size)| + 4);
            var forged := Forge(Xor(before, XOROUT), UnRun(Xor(crc, XOROUT), footer + aux));
            && forged == ForgeBytes(files, aux, size, crc)
            && footer == WorldFooter(files, size)
            && Xor(Run(Run(Run(before, forged), footer), aux), XOROUT) == crc
            && Body(files) + (Padding(files, size) + forged + footer) == World(files, aux, size, crc)
  {
    hide Body, Footer, Forge, UnRun, Xor, Run;
    var padding, footer, forged := Padding(files, size), WorldFooter(files, size), ForgeBytes(files, aux, size, crc);
    RunConcat(INIT, Body(files), padding);
    WorldCrc(files, aux, size, crc);
    FinalCrc(Body(files) + padding, forged, footer, aux);
    Joined(Body(files), padding, forged, footer);
  }

  lemma AlignedSum(m: nat, n: nat)
    ensures (Aligned(m) + Aligned(n)) % TRANSFER_BLOCK_SIZE == 0
  {
    MultipleMod(BlockCount(m) + BlockCount(n));
    assert Aligned(m) + Aligned(n) == (BlockCount(m) + BlockCount(n)) * TRANSFER_BLOCK_SIZE;
  }

  lemma FinalCrc(prefix: bytes, forged: bytes, footer: bytes, aux: bytes)
    ensures Checksum(prefix + forged + footer + aux)
         == Xor(Run(Run(Run(Run(INIT, prefix), forged), footer), aux), XOROUT)
  {
    hide Run, Xor;
    RunConcat(INIT, prefix, forged);
    RunConcat(INIT, prefix + forged, footer);
    RunConcat(INIT, prefix + forged + footer, aux);
  }

  lemma Joined(a: bytes, b: bytes, c: bytes, d: bytes)
    ensures a + ((b + c) + d) == a + b + c + d
  {
  }

  lemma PaddedJoined(body: bytes, tail: bytes, aux: bytes)
    ensures var world := body + tail;
            Aligned(|world|) >= |world| && Aligned(|aux|) >= |aux| &&
            body + (tail + Zeros(Aligned(|world|) - |world|) + aux + Zeros(Aligned(|aux|) - |aux|))
            == Padded(world, aux)
  {
    hide Aligned;
    AlignedBounds(|body + tail|);
    AlignedBounds(|aux|);
    Joined4(body, tail, Zeros(Aligned(|body + tail|) - |body + tail|), aux, Zeros(Aligned(|aux|) - |aux|));
  }

  lemma Joined4(a: bytes, b: bytes, c: bytes, d: bytes, e: bytes)
    ensures a + (((b + c) + d) + e) == (a + b) + c + (d + e)
  {
  }

  lemma MissingChunk(keys: seq<ChunkKey>, chunks: map<ChunkKey, bytes>, i: nat)
    requires i < |keys| && keys[i] !in chunks
    ensures Content(keys, chunks) == None
  {
    ContentIff(keys, chunks);
    assert keys[i] in keys;
  }
}
