/** The ZIP records that are written, as lists of little-endian fields, and a reader for them after
    sections 4.3.7, 4.3.12 and 4.3.16 of PKWARE's APPNOTE. */
module ZipFormat {
  import opened Bytes
  import opened Crc32

  // ----- Records as lists of fields -----

  datatype Field = U16(n: nat) | U32(n: nat) {
    predicate Fits() { n < if U16? then Bytes.U16 else Bytes.U32 }
    function Width(): nat { if U16? then 2 else 4 }
  }

  function EncodeFields(fs: seq<Field>): bytes {
    if fs == [] then [] else LeBytes(fs[0].n, fs[0].Width()) + EncodeFields(fs[1..])
  }

  /** Reads fields of the given widths; also returns what follows them. */
  function DecodeFields(widths: seq<nat>, s: bytes): Option<(seq<nat>, bytes)> {
    if widths == [] then Some(([], s))
    else if |s| < widths[0] then None
    else
      match DecodeFields(widths[1..], s[widths[0]..])
      case None => None
      case Some((values, rest)) => Some(([FromLe(s[..widths[0]])] + values, rest))
  }

  function Widths(fs: seq<Field>): seq<nat> { seq(|fs|, i requires 0 <= i < |fs| => fs[i].Width()) }

  function Values(fs: seq<Field>): seq<nat> { seq(|fs|, i requires 0 <= i < |fs| => fs[i].n) }

  lemma WidthsOf(fs: seq<Field>)
    ensures fs == [] ==> Widths(fs) == [] && Values(fs) == []
    ensures fs != [] ==> Widths(fs) != [] && Widths(fs)[0] == fs[0].Width() && Widths(fs)[1..] == Widths(fs[1..])
    ensures fs != [] ==> Values(fs) == [fs[0].n] + Values(fs[1..])
  {
  }

  lemma {:induction false} DecodeEncodedFields(fs: seq<Field>, rest: bytes)
    requires forall f :: f in fs ==> f.Fits()
    ensures DecodeFields(Widths(fs), EncodeFields(fs) + rest) == Some((Values(fs), rest))
  {
    hide LeBytes, FromLe;
    hide Widths, Values;
    if fs == [] {
      assert Widths(fs) == [] && Values(fs) == [] by { WidthsOf(fs); }
      assert EncodeFields(fs) + rest == rest;
    } else {
      var f := fs[0];
      assert f in fs;
      Power256Values();
      LeRoundTrip(f.n, f.Width());
      var s := EncodeFields(fs) + rest;
      assert s[..f.Width()] == LeBytes(f.n, f.Width());
      assert s[f.Width()..] == EncodeFields(fs[1..]) + rest;
      WidthsOf(fs);
      DecodeEncodedFields(fs[1..], rest);
    }
  }

  lemma OneField(fs: seq<Field>, k: nat)
    requires k < |fs|
    ensures |EncodeFields(fs[k..])| == fs[k].Width() + |EncodeFields(fs[k + 1..])|
  {
    assert fs[k..][1..] == fs[k + 1..];
  }

  lemma FourFields(fs: seq<Field>, k: nat)
    requires k + 4 <= |fs|
    ensures |EncodeFields(fs[k..])| == fs[k].Width() + fs[k + 1].Width() + fs[k + 2].Width()
            + fs[k + 3].Width() + |EncodeFields(fs[k + 4..])|
  {
    hide EncodeFields;
    OneField(fs, k);
    OneField(fs, k + 1);
    OneField(fs, k + 2);
    OneField(fs, k + 3);
  }

  lemma EightFields(fs: seq<Field>, k: nat)
    requires k + 8 <= |fs|
    ensures |EncodeFields(fs[k..])| == fs[k].Width() + fs[k + 1].Width() + fs[k + 2].Width()
            + fs[k + 3].Width() + fs[k + 4].Width() + fs[k + 5].Width() + fs[k + 6].Width()
            + fs[k + 7].Width() + |EncodeFields(fs[k + 8..])|
  {
    hide EncodeFields;
    FourFields(fs, k);
    FourFields(fs, k + 4);
  }

  // ----- The three records -----

  const LOCAL_SIGNATURE: nat := 0x0403_4b50
  const CENTRAL_SIGNATURE: nat := 0x0201_4b50
  const END_SIGNATURE: nat := 0x0605_4b50

  const LOCAL_WIDTHS: seq<nat> := [4, 2, 2, 2, 2, 2, 4, 4, 4, 2, 2]
  const CENTRAL_WIDTHS: seq<nat> := [4, 2, 2, 2, 2, 2, 2, 4, 4, 4, 2, 2, 2, 2, 2, 4, 4]
  const END_WIDTHS: seq<nat> := [4, 2, 2, 2, 2, 4, 4, 2]

  const CENTRAL_DIRECTORY_ENTRY_SIZE: nat := 46
  const END_OF_CENTRAL_DIRECTORY_SIZE: nat := 22

  datatype ZipFile = ZipFile(name: bytes, data: bytes)

  function CrcOf(data: bytes): (n: nat)
    ensures n < Bytes.U32
  {
    Checksum(data) as nat
  }

  /** Local file header, without the name. */
  function LocalFields(f: ZipFile): seq<Field> {
    [U32(LOCAL_SIGNATURE), U16(45), U16(0), U16(0), U16(0), U16(0), U32(CrcOf(f.data)), U32(|f.data|),
     U32(|f.data|), U16(|f.name|), U16(0)]
  }

  function LocalHeader(f: ZipFile): bytes { EncodeFields(LocalFields(f)) + f.name }

  /** Central directory header, without the name. */
  function CentralFields(f: ZipFile, offset: nat): seq<Field> {
    [U32(CENTRAL_SIGNATURE), U16(45), U16(45), U16(0), U16(0), U16(0), U16(0), U32(CrcOf(f.data)),
     U32(|f.data|), U32(|f.data|), U16(|f.name|), U16(0), U16(0), U16(0), U16(0), U32(0), U32(offset)]
  }

  function CentralHeader(f: ZipFile, offset: nat): bytes { EncodeFields(CentralFields(f, offset)) + f.name }

  function EndFields(count: nat, size: nat, offset: nat): seq<Field> {
    [U32(END_SIGNATURE), U16(0), U16(0), U16(count), U16(count), U32(size), U32(offset), U16(0)]
  }

  function EndRecord(count: nat, size: nat, offset: nat): bytes { EncodeFields(EndFields(count, size, offset)) }

  lemma RecordLengths(f: ZipFile, offset: nat, count: nat, size: nat)
    ensures |LocalHeader(f)| == 30 + |f.name|
    ensures |CentralHeader(f, offset)| == CENTRAL_DIRECTORY_ENTRY_SIZE + |f.name|
    ensures |EndRecord(count, size, offset)| == END_OF_CENTRAL_DIRECTORY_SIZE
  {
    hide EncodeFields, CrcOf;
    LocalLength(f);
    CentralLength(f, offset);
    var e := EndFields(count, size, offset);
    EightFields(e, 0);
    assert e[0..] == e && e[8..] == [];
    EmptyLength();
  }

  lemma EmptyLength()
    ensures |EncodeFields([])| == 0
  {
  }

  lemma LocalLength(f: ZipFile)
    ensures |EncodeFields(LocalFields(f))| == 30
  {
    hide EncodeFields, CrcOf;
    var fs := LocalFields(f);
    EightFields(fs, 0);
    OneField(fs, 8);
    OneField(fs, 9);
    OneField(fs, 10);
    EmptyLength();
    assert fs[0..] == fs && fs[11..] == [];
  }

  lemma CentralWidths(f: ZipFile, offset: nat)
    ensures var fs := CentralFields(f, offset);
            && |fs| == 17
            && fs[0].Width() + fs[1].Width() + fs[2].Width() + fs[3].Width() == 10
            && fs[4].Width() + fs[5].Width() + fs[6].Width() + fs[7].Width() == 10
            && fs[8].Width() + fs[9].Width() + fs[10].Width() + fs[11].Width() == 12
            && fs[12].Width() + fs[13].Width() + fs[14].Width() + fs[15].Width() == 10
            && fs[16].Width() == 4
  {
    hide CrcOf;
  }

  lemma CentralLength(f: ZipFile, offset: nat)
    ensures |EncodeFields(CentralFields(f, offset))| == CENTRAL_DIRECTORY_ENTRY_SIZE
  {
    hide EncodeFields, CrcOf, CentralFields;
    var fs := CentralFields(f, offset);
    CentralWidths(f, offset);
    EightFields(fs, 0);
    EightFields(fs, 8);
    OneField(fs, 16);
    EmptyLength();
    assert fs[0..] == fs && fs[17..] == [];
  }

  // ----- The records byte by byte -----

  /** Does `h` have these numbers one after the other from `pos` on, each least significant byte first? */
  predicate NumbersAt(h: bytes, pos: nat, fs: seq<Field>)
    decreases |fs|
  {
    fs == [] ||
      (&& pos + fs[0].Width() <= |h|
       && (if fs[0].U16? then Number16(h, pos) == fs[0].n else Number32(h, pos) == fs[0].n)
       && NumbersAt(h, pos + fs[0].Width(), fs[1..]))
  }

  lemma {:induction false} FieldsAreNumbers(h: bytes, fs: seq<Field>, rest: bytes, pos: nat)
    requires forall f :: f in fs ==> f.Fits()
    requires pos <= |h| && h[pos..] == EncodeFields(fs) + rest
    ensures NumbersAt(h, pos, fs)
    decreases |fs|
  {
    hide LeBytes, Number32, Number16;
    if fs != [] {
      var w := fs[0].Width();
      var field := LeBytes(fs[0].n, w);
      assert fs[0] in fs;
      Assoc(field, EncodeFields(fs[1..]), rest);
      assert h[pos..][..w] == field && h[pos..][w..] == h[pos + w..];
      assert h[pos..pos + w] == field;
      if fs[0].U32? {
        LeBytesIsNumber(fs[0].n, h, pos);
      } else {
        LeBytesIsNumber16(fs[0].n, h, pos);
      }
      FieldsAreNumbers(h, fs[1..], rest, pos + w);
    }
  }

  lemma CrcOfIs(data: bytes)
    ensures CrcOf(data) == Checksum(data) as nat
  {
  }

  /** Local file header: signature, version 4.5, no flags, stored, no time and date, CRC, size twice, length of
      the name, no extra field; then the name. */
  lemma LocalHeaderIs(f: ZipFile)
    requires FileFits(f)
    ensures var h := LocalHeader(f);
            && |h| == 30 + |f.name| && h[30..] == f.name
            && NumbersAt(h, 0, [
                 U32(0x0403_4B50), U16(45), U16(0), U16(0), U16(0), U16(0), U32(Checksum(f.data) as nat),
                 U32(|f.data|), U32(|f.data|), U16(|f.name|), U16(0)])
  {
    hide EncodeFields, CrcOf, Checksum, NumbersAt;
    RecordLengths(f, 0, 0, 0);
    var h := LocalHeader(f);
    assert h[0..] == h;
    CrcOfIs(f.data);
    FieldsAreNumbers(h, LocalFields(f), f.name, 0);
  }

  /** Central directory header: signature, versions 4.5, then as above, without comment and attributes, and with
      the offset of the local header; then the name. */
  lemma CentralHeaderIs(f: ZipFile, offset: nat)
    requires FileFits(f) && offset < Bytes.U32
    ensures var h := CentralHeader(f, offset);
            && |h| == 46 + |f.name| && h[46..] == f.name
            && NumbersAt(h, 0, [
                 U32(0x0201_4B50), U16(45), U16(45), U16(0), U16(0), U16(0), U16(0), U32(Checksum(f.data) as nat),
                 U32(|f.data|), U32(|f.data|), U16(|f.name|), U16(0), U16(0), U16(0), U16(0), U32(0), U32(offset)])
  {
    hide EncodeFields, CrcOf, Checksum, NumbersAt;
    RecordLengths(f, offset, 0, 0);
    var h := CentralHeader(f, offset);
    assert h[0..] == h;
    CrcOfIs(f.data);
    FieldsAreNumbers(h, CentralFields(f, offset), f.name, 0);
  }

  /** End record: signature, the only disk, the count twice, size and offset of the directory, no comment. */
  lemma EndRecordIs(count: nat, size: nat, offset: nat)
    requires count < Bytes.U16 && size < Bytes.U32 && offset < Bytes.U32
    ensures var h := EndRecord(count, size, offset);
            && |h| == 22
            && NumbersAt(h, 0, [
                 U32(0x0605_4B50), U16(0), U16(0), U16(count), U16(count), U32(size), U32(offset), U16(0)])
  {
    hide EncodeFields, NumbersAt;
    RecordLengths(ZipFile([], []), offset, count, size);
    var h := EndRecord(count, size, offset);
    assert h[0..] == h && h + [] == h;
    FieldsAreNumbers(h, EndFields(count, size, offset), [], 0);
  }

  /** So every record starts with the letters "PK" and its two numbers. */
  lemma Signatures(f: ZipFile, offset: nat, count: nat, size: nat)
    requires FileFits(f) && offset < Bytes.U32 && count < Bytes.U16 && size < Bytes.U32
    ensures LocalHeader(f)[..4] == [0x50, 0x4B, 3, 4]
    ensures CentralHeader(f, offset)[..4] == [0x50, 0x4B, 1, 2]
    ensures EndRecord(count, size, offset)[..4] == [0x50, 0x4B, 5, 6]
  {
    hide LocalHeader, CentralHeader, EndRecord;
    LocalHeaderIs(f);
    CentralHeaderIs(f, offset);
    EndRecordIs(count, size, offset);
    FirstFour(LocalHeader(f), [0x50, 0x4B, 3, 4], 0x0403_4B50);
    FirstFour(CentralHeader(f, offset), [0x50, 0x4B, 1, 2], 0x0201_4B50);
    FirstFour(EndRecord(count, size, offset), [0x50, 0x4B, 5, 6], 0x0605_4B50);
  }

  lemma FirstFour(h: bytes, four: bytes, n: nat)
    requires |h| >= 4 && |four| == 4 && n < Bytes.U32
    requires Number32(h, 0) == n && Number32(four, 0) == n
    ensures h[..4] == four
  {
    hide LeBytes, Number32;
    LeBytesIsNumber(n, h, 0);
    LeBytesIsNumber(n, four, 0);
    assert h[0..4] == h[..4] && four[0..4] == four;
  }

  // ----- A world made of records -----

  /** All local headers, each followed by its data. */
  function Body(files: seq<ZipFile>): bytes {
    if files == [] then []
    else
      var f := files[|files| - 1];
      Body(files[..|files| - 1]) + LocalHeader(f) + f.data
  }

  function OffsetOf(files: seq<ZipFile>, i: nat): nat
    requires i <= |files|
  {
    |Body(files[..i])|
  }

  /** A file and where its local header is. */
  datatype Placed = Placed(file: ZipFile, offset: nat)

  /** The files of a body, at their offsets. */
  function Place(files: seq<ZipFile>): (placed: seq<Placed>)
    ensures |placed| == |files|
  {
    seq(|files|, i requires 0 <= i < |files| => Placed(files[i], OffsetOf(files, i)))
  }

  function FilesOf(placed: seq<Placed>): (files: seq<ZipFile>)
    ensures |files| == |placed|
  {
    seq(|placed|, i requires 0 <= i < |placed| => placed[i].file)
  }

  /** The central headers of the files from number `i` on. */
  function Directory(placed: seq<Placed>, i: nat): bytes
    requires i <= |placed|
    decreases |placed| - i
  {
    if i == |placed| then []
    else CentralHeader(placed[i].file, placed[i].offset) + Directory(placed, i + 1)
  }

  /** Central directory and end record, for a directory starting at `offset`. */
  function Footer(placed: seq<Placed>, offset: nat): bytes {
    var directory := Directory(placed, 0);
    directory + EndRecord(|placed|, |directory|, offset)
  }

  // ----- The reader -----

  datatype Member = Member(name: bytes, data: bytes, crc: nat)

  /** The file whose local header is at `offset`; header, central entry and data have to agree. */
  function ReadLocal(world: bytes, offset: nat, name: bytes, crc: nat, size: nat): Option<Member> {
    if offset > |world| then None
    else
      match DecodeFields(LOCAL_WIDTHS, world[offset..])
      case None => None
      case Some((v, rest)) =>
        if |v| != 11 || v[0] != LOCAL_SIGNATURE || v[2] != 0 || v[3] != 0 || v[6] != crc
          || v[7] != size || v[8] != size || v[9] != |name| || |rest| < v[9] + v[10] + size
          || rest[..v[9]] != name
        then None
        else
          var data := rest[v[9] + v[10]..v[9] + v[10] + size];
          if CrcOf(data) != crc then None else Some(Member(name, data, crc))
  }

  /** `n` central headers, which have to fill the directory. */
  function ReadDirectory(world: bytes, directory: bytes, n: nat): Option<seq<Member>>
    decreases n
  {
    if n == 0 then (if directory == [] then Some([]) else None)
    else
      match DecodeFields(CENTRAL_WIDTHS, directory)
      case None => None
      case Some((v, rest)) =>
        if |v| != 17 || v[0] != CENTRAL_SIGNATURE || v[3] != 0 || v[4] != 0 || v[8] != v[9]
          || v[13] != 0 || |rest| < v[10] + v[11] + v[12]
        then None
        else
          match ReadLocal(world, v[16], rest[..v[10]], v[7], v[8])
          case None => None
          case Some(member) =>
            match ReadDirectory(world, rest[v[10] + v[11] + v[12]..], n - 1)
            case None => None
            case Some(members) => Some([member] + members)
  }

  /** Starts from the last 22 bytes. */
  function ReadZip(world: bytes): Option<seq<Member>> {
    if |world| < END_OF_CENTRAL_DIRECTORY_SIZE then None
    else
      var end := |world| - END_OF_CENTRAL_DIRECTORY_SIZE;
      match DecodeFields(END_WIDTHS, world[end..])
      case None => None
      case Some((v, rest)) =>
        if |v| != 8 || v[0] != END_SIGNATURE || v[1] != 0 || v[2] != 0 || v[3] != v[4] || v[7] != 0
          || v[6] + v[5] != end
        then None
        else ReadDirectory(world, world[v[6]..end], v[4])
  }

  // ----- The reader recovers what was written -----

  function MemberOf(f: ZipFile): Member { Member(f.name, f.data, CrcOf(f.data)) }

  function Members(files: seq<ZipFile>, i: nat): seq<Member>
    requires i <= |files|
    decreases |files| - i
  {
    if i == |files| then [] else [MemberOf(files[i])] + Members(files, i + 1)
  }

  predicate FileFits(f: ZipFile) { |f.name| < Bytes.U16 && |f.data| < Bytes.U32 }

  lemma LocalIsRead(world: bytes, offset: nat, f: ZipFile)
    requires FileFits(f) && offset + |LocalHeader(f)| + |f.data| <= |world|
    requires world[offset..offset + |LocalHeader(f)| + |f.data|] == LocalHeader(f) + f.data
    ensures ReadLocal(world, offset, f.name, CrcOf(f.data), |f.data|) == Some(MemberOf(f))
  {
    hide EncodeFields, DecodeFields, CrcOf;
    RecordLengths(f, 0, 0, 0);
    var fs := LocalFields(f);
    var tail := world[offset + |LocalHeader(f)| + |f.data|..];
    var rest := f.name + f.data + tail;
    assert world[offset..] == (LocalHeader(f) + f.data) + tail;
    assert world[offset..] == EncodeFields(fs) + rest;
    DecodeEncodedFields(fs, rest);
    assert Widths(fs) == LOCAL_WIDTHS;
  }

  lemma CentralIsDecoded(f: ZipFile, offset: nat, rest: bytes)
    requires FileFits(f) && offset < Bytes.U32
    ensures DecodeFields(CENTRAL_WIDTHS, CentralHeader(f, offset) + rest)
         == Some((Values(CentralFields(f, offset)), f.name + rest))
  {
    hide EncodeFields, DecodeFields, CrcOf;
    var fs := CentralFields(f, offset);
    DecodeEncodedFields(fs, f.name + rest);
    assert CentralHeader(f, offset) + rest == EncodeFields(fs) + (f.name + rest);
    assert Widths(fs) == CENTRAL_WIDTHS;
  }

  /** Every file's records are where its directory entry says. */
  lemma {:induction false} BodyAt(files: seq<ZipFile>, i: nat)
    requires i < |files|
    ensures var n := |LocalHeader(files[i])| + |files[i].data|;
            && OffsetOf(files, i) + n <= |Body(files)|
            && Body(files)[OffsetOf(files, i)..OffsetOf(files, i) + n] == LocalHeader(files[i]) + files[i].data
  {
    hide LocalHeader;
    var n := |files| - 1;
    if i < n {
      BodyAt(files[..n], i);
      assert files[..n][..i] == files[..i];
    }
  }

  /** The file's records are where the entry says, and its fields fit. */
  ghost predicate IsAt(world: bytes, p: Placed) {
    && FileFits(p.file) && p.offset < Bytes.U32
    && p.offset + |LocalHeader(p.file)| + |p.file.data| <= |world|
    && world[p.offset..p.offset + |LocalHeader(p.file)| + |p.file.data|] == LocalHeader(p.file) + p.file.data
  }

  lemma {:induction false} DirectoryIsRead(world: bytes, placed: seq<Placed>, i: nat)
    requires i <= |placed|
    requires forall j :: 0 <= j < |placed| ==> IsAt(world, placed[j])
    ensures ReadDirectory(world, Directory(placed, i), |placed| - i) == Some(Members(FilesOf(placed), i))
    decreases |placed| - i
  {
    hide EncodeFields, DecodeFields, CrcOf, LocalHeader, CentralHeader, ReadLocal;
    if i < |placed| {
      var f, offset := placed[i].file, placed[i].offset;
      assert IsAt(world, placed[i]);
      LocalIsRead(world, offset, f);
      var rest := Directory(placed, i + 1);
      CentralIsDecoded(f, offset, rest);
      assert (f.name + rest)[..|f.name|] == f.name && (f.name + rest)[|f.name|..] == rest;
      DirectoryIsRead(world, placed, i + 1);
    }
  }

  lemma EndIsDecoded(count: nat, size: nat, offset: nat)
    requires count < Bytes.U16 && size < Bytes.U32 && offset < Bytes.U32
    ensures DecodeFields(END_WIDTHS, EndRecord(count, size, offset))
         == Some((Values(EndFields(count, size, offset)), []))
  {
    hide EncodeFields, DecodeFields;
    var fs := EndFields(count, size, offset);
    DecodeEncodedFields(fs, []);
    assert EndRecord(count, size, offset) + [] == EndRecord(count, size, offset);
    assert Widths(fs) == END_WIDTHS;
  }

  /** Files anywhere in the bytes before the footer: the reader finds exactly them, in order. */
  lemma PlacedIsRead(front: bytes, placed: seq<Placed>)
    requires forall j :: 0 <= j < |placed| ==> IsAt(front, placed[j])
    requires |placed| < Bytes.U16 && |front| + |Directory(placed, 0)| < Bytes.U32
    ensures ReadZip(front + Footer(placed, |front|)) == Some(Members(FilesOf(placed), 0))
  {
    hide EncodeFields, DecodeFields, Directory, ReadDirectory, EndRecord, IsAt, Members, FilesOf;
    var directory := Directory(placed, 0);
    var record := EndRecord(|placed|, |directory|, |front|);
    var world := front + Footer(placed, |front|);
    RecordLengths(ZipFile([], []), |front|, |placed|, |directory|);
    assert world == front + directory + record;
    assert world[|world| - END_OF_CENTRAL_DIRECTORY_SIZE..] == record;
    assert world[|front|..|world| - END_OF_CENTRAL_DIRECTORY_SIZE] == directory;
    EndIsDecoded(|placed|, |directory|, |front|);
    forall j | 0 <= j < |placed| ensures IsAt(world, placed[j]) {
      StillAt(front, Footer(placed, |front|), placed[j]);
    }
    DirectoryIsRead(world, placed, 0);
  }

  lemma StillAt(front: bytes, more: bytes, p: Placed)
    requires IsAt(front, p)
    ensures IsAt(front + more, p)
  {
    hide LocalHeader, FileFits;
    var n := p.offset + |LocalHeader(p.file)| + |p.file.data|;
    SliceOfPrefix(front + more, |front|, p.offset, n);
    assert (front + more)[..|front|] == front;
  }

  /** Local records one after the other, any bytes at all, then the footer: the reader finds exactly
      the files, in order. */
  lemma ZipIsRead(files: seq<ZipFile>, gap: bytes)
    requires forall f :: f in files ==> FileFits(f)
    requires |files| < Bytes.U16
    requires |Body(files)| + |gap| + |Directory(Place(files), 0)| < Bytes.U32
    ensures ReadZip(Body(files) + gap + Footer(Place(files), |Body(files)| + |gap|)) == Some(Members(files, 0))
  {
    hide Body, LocalHeader, Directory, Footer, FileFits, ReadZip, Members;
    var placed := Place(files);
    forall j | 0 <= j < |placed| ensures IsAt(Body(files) + gap, placed[j]) {
      assert files[j] in files;
      BodyAt(files, j);
      StillAt(Body(files), gap, placed[j]);
    }
    PlacedIsRead(Body(files) + gap, placed);
    assert FilesOf(placed) == files;
  }
}
