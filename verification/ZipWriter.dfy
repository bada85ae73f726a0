/** The ZIP writer (`src/zip_writer.rs`). */
module ZipWriter {
  import opened Bytes
  import opened ZipFormat

  datatype ZipEntryMetadata = ZipEntryMetadata(
    start_offset: nat, file_name: bytes, file_name_size: nat, data_size: nat, data_crc: nat)

  function EntryOf(f: ZipFile, offset: nat): ZipEntryMetadata {
    ZipEntryMetadata(offset, f.name, |f.name|, |f.data|, CrcOf(f.data))
  }

  /** The central header the writer builds from an entry. */
  function EncodeEntry(e: ZipEntryMetadata): bytes {
    EncodeFields([U32(0x0201_4b50), U16(45), U16(45), U16(0), U16(0), U16(0), U16(0), U32(e.data_crc),
                  U32(e.data_size), U32(e.data_size), U16(e.file_name_size), U16(0), U16(0), U16(0), U16(0),
                  U32(0), U32(e.start_offset)])
    + e.file_name
  }

  /** `central_directory_size` in terms of the files: what the footer will take. */
  lemma {:induction false} DirectoryLength(placed: seq<Placed>, i: nat)
    requires i <= |placed|
    ensures i < |placed| ==>
      |Directory(placed, i)| == CENTRAL_DIRECTORY_ENTRY_SIZE + |placed[i].file.name| + |Directory(placed, i + 1)|
    ensures i == |placed| ==> Directory(placed, i) == []
  {
    hide CentralHeader;
    if i < |placed| {
      RecordLengths(placed[i].file, placed[i].offset, 0, 0);
    }
  }

  ghost predicate Describe(entries: seq<ZipEntryMetadata>, placed: seq<Placed>) {
    && |entries| == |placed|
    && forall i :: 0 <= i < |placed| ==>
         FileFits(placed[i].file) && entries[i] == EntryOf(placed[i].file, placed[i].offset)
  }

  class ZipWriter {
    var current_offset: nat
    var entries: seq<ZipEntryMetadata>
    ghost var placed: seq<Placed>

    /** The entries describe the files written so far, at the offsets they were written to. */
    ghost predicate Valid()
      reads this
    {
      && Describe(entries, placed)
      && forall i :: 0 <= i < |placed| ==> placed[i].offset <= current_offset
    }

    constructor ()
      ensures Valid() && placed == [] && current_offset == 0
    {
      current_offset := 0;
      entries := [];
      placed := [];
    }

    /** The preconditions are the two `expect`s. */
    method EncodeFileHeader(file_name: bytes, file_data: bytes) returns (header: bytes)
      requires Valid()
      requires |file_data| < Bytes.U32 && |file_name| < Bytes.U16
      modifies this
      ensures Valid()
      ensures header == LocalHeader(ZipFile(file_name, file_data))
      ensures placed == old(placed) + [Placed(ZipFile(file_name, file_data), old(current_offset))]
      ensures current_offset == old(current_offset) + |header| + |file_data|
    {
      hide EncodeFields, CrcOf;
      var data_crc := CrcOf(file_data);
      header := EncodeFields([
        U32(0x0403_4b50), U16(45), U16(0), U16(0), U16(0), U16(0), U32(data_crc), U32(|file_data|),
        U32(|file_data|), U16(|file_name|), U16(0)]) + file_name;
      placed := placed + [Placed(ZipFile(file_name, file_data), current_offset)];
      entries := entries + [ZipEntryMetadata(current_offset, file_name, |file_name|, |file_data|, data_crc)];
      current_offset := current_offset + |header|;
      current_offset := current_offset + |file_data|;
    }

    method AdvanceOffset(offset: nat)
      requires Valid()
      modifies this`current_offset
      ensures Valid()
      ensures current_offset == old(current_offset) + offset
    {
      current_offset := current_offset + offset;
    }

    /** The preconditions are the `expect`s; entry offsets fit because the current one does. */
    method EncodeCentralDirectory() returns (footer: bytes)
      requires Valid()
      requires current_offset < Bytes.U32 && |entries| < Bytes.U16 && |Directory(placed, 0)| < Bytes.U32
      ensures footer == Footer(placed, current_offset)
    {
      hide EncodeFields, CrcOf;
      footer := [];
      for i := 0 to |entries|
        invariant footer + Directory(placed, i) == Directory(placed, 0)
      {
        Assoc(footer, CentralHeader(placed[i].file, placed[i].offset), Directory(placed, i + 1));
        footer := footer + EncodeEntry(entries[i]);
      }
      assert footer == Directory(placed, 0);
      var entry_count, central_directory_size := |entries|, |footer|;
      footer := footer + EncodeFields([
        U32(0x0605_4b50), U16(0), U16(0), U16(entry_count), U16(entry_count), U32(central_directory_size),
        U32(current_offset), U16(0)]);
    }

    /** The announced size is the size of what `EncodeCentralDirectory` will produce, wherever it starts. */
    method CentralDirectorySize() returns (size: nat)
      requires Valid()
      ensures forall offset :: size == |Footer(placed, offset)|
    {
      hide EncodeFields, Directory;
      DirectoryLength(placed, |placed|);
      size := 0;
      for i := 0 to |entries|
        invariant size + |Directory(placed, i)| == |Directory(placed, 0)|
      {
        DirectoryLength(placed, i);
        size := size + CENTRAL_DIRECTORY_ENTRY_SIZE + |entries[i].file_name|;
      }
      size := size + END_OF_CENTRAL_DIRECTORY_SIZE;
      forall offset ensures size == |Footer(placed, offset)| {
        RecordLengths(ZipFile([], []), offset, |placed|, |Directory(placed, 0)|);
      }
    }
  }

  lemma FilesAppend(placed: seq<Placed>, p: Placed)
    ensures FilesOf(placed + [p]) == FilesOf(placed) + [p.file]
  {
  }

  lemma BodyAppend(files: seq<ZipFile>, f: ZipFile)
    ensures Body(files + [f]) == Body(files) + LocalHeader(f) + f.data
    ensures Place(files + [f]) == Place(files) + [Placed(f, |Body(files)|)]
  {
    hide LocalHeader;
    assert (files + [f])[..|files + [f]| - 1] == files;
    assert (files + [f])[..|files|] == files;
    forall i | 0 <= i < |files| ensures (files + [f])[..i] == files[..i] {
    }
  }
}
