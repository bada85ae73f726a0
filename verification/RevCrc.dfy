/** The CRC-32 run backwards, and the four bytes that make a string have a chosen CRC
    (`src/rev_crc.rs`). */
module RevCrc {
  import opened Bytes
  import opened Crc32

  // ----- Inverse bit steps: the specification of the reverse direction -----

  function UnBitStep(c: word): word {
    if c & 0x8000_0000 != 0 then ((c ^ 0xEDB8_8320) << 1) | 1 else c << 1
  }

  function UnBits(c: word, n: nat): word
    decreases n
  {
    if n == 0 then c else UnBits(UnBitStep(c), n - 1)
  }

  /** The state before byte `b`, given the state after it. */
  function UnStep(v: word, b: byte): word { Xor(UnBits(v, 8), Word(b)) }

  function UnRun(v: word, data: bytes): word
    decreases |data|
  {
    if data == [] then v else UnRun(UnStep(v, data[|data| - 1]), data[..|data| - 1])
  }

  lemma UnBitStepBitStep(c: word)
    ensures UnBitStep(BitStep(c)) == c
  {
  }

  lemma UndoWhenSet(c: word)
    requires c & 0x8000_0000 != 0
    ensures ((((c ^ 0xEDB8_8320) << 1) | 1) >> 1) ^ 0xEDB8_8320 == c
    ensures (((c ^ 0xEDB8_8320) << 1) | 1) & 1 == 1
  {
  }

  lemma UndoWhenClear(c: word)
    requires c & 0x8000_0000 == 0
    ensures (c << 1) >> 1 == c && (c << 1) & 1 == 0
  {
  }

  lemma BitStepUnBitStep(c: word)
    ensures BitStep(UnBitStep(c)) == c
  {
    hide BitStep;
    if c & 0x8000_0000 != 0 {
      UndoWhenSet(c);
      BitStepOf(((c ^ 0xEDB8_8320) << 1) | 1);
    } else {
      UndoWhenClear(c);
      BitStepOf(c << 1);
    }
  }

  lemma {:induction false} UnBitsBits(c: word, n: nat)
    ensures UnBits(Bits(c, n), n) == c
  {
    hide BitStep, UnBitStep;
    if n > 0 {
      UnBitStepBitStep(Bits(c, n - 1));
      UnBitsBits(c, n - 1);
    }
  }

  lemma {:induction false} BitsUnBits(c: word, n: nat)
    ensures Bits(UnBits(c, n), n) == c
    decreases n
  {
    hide BitStep, UnBitStep;
    if n > 0 {
      BitsUnBits(UnBitStep(c), n - 1);
      BitStepUnBitStep(c);
    }
  }

  lemma UnBitsXor(a: word, b: word, n: nat)
    ensures UnBits(Xor(a, b), n) == Xor(UnBits(a, n), UnBits(b, n))
  {
    hide Bits, UnBits, Xor;
    BitsUnBits(a, n);
    BitsUnBits(b, n);
    BitsXor(UnBits(a, n), UnBits(b, n), n);
    UnBitsBits(Xor(UnBits(a, n), UnBits(b, n)), n);
  }

  lemma UpThenDown(b: word)
    requires b & 0xFF00_0000 == 0
    ensures (b << 8) & 0xFF == 0 && (b << 8) >> 8 == b
  {
  }

  lemma UnBitsOfSmall(b: word)
    requires b & 0xFF00_0000 == 0
    ensures UnBits(b, 8) == b << 8
  {
    hide Bits, UnBits;
    UpThenDown(b);
    BitsOfShifted(b << 8);
    UnBitsBits(b << 8, 8);
  }

  // ----- Word facts used below -----

  /** The byte `h` as the most significant byte of a word. */
  function AtTop(h: byte): word { (h as word) << 24 }

  lemma SplitTop(v: word)
    ensures v == Xor(AtTop(TopByte(v)), v & 0x00FF_FFFF)
    ensures (v & 0x00FF_FFFF) & 0xFF00_0000 == 0
    ensures (v & 0x00FF_FFFF) << 8 == ShiftUp(v)
  {
  }

  // ----- The reverse table -----

  /** What the table-filling loop stores for forward entry `n`. */
  function SlotValue(n: byte): word { Xor(ShiftUp(TableEntry(n)), Word(n)) }

  /** What slot `h` has to contain. */
  function ReverseEntry(h: byte): word { UnBits(AtTop(h), 8) }

  /** Forward entry `n` puts the right value into the slot named by its own top byte. */
  lemma SlotIsReverseEntry(n: byte)
    ensures SlotValue(n) == ReverseEntry(TopByte(TableEntry(n)))
  {
    hide Bits, UnBits, Xor, Word, AtTop, TopByte, ShiftUp;
    var t := TableEntry(n);
    SplitTop(t);
    UnBitsXor(AtTop(TopByte(t)), t & 0x00FF_FFFF, 8);
    UnBitsOfSmall(t & 0x00FF_FFFF);
    UnBitsBits(Word(n), 8);
    assert Word(n) == Xor(ReverseEntry(TopByte(t)), ShiftUp(t));
    XorSwap(ReverseEntry(TopByte(t)), ShiftUp(t));
    XorCancel(ReverseEntry(TopByte(t)), ShiftUp(t));
  }

  /** The forward entry that fills slot `h`. */
  function Filler(h: byte): byte { LowByte(ReverseEntry(h)) }

  lemma TopStays(h: byte, b: word)
    ensures ((((h as word) << 24) ^ (b >> 8)) >> 24) as byte == h
  {
  }

  lemma TopOfXor(a: word, b: word, h: byte)
    requires AtTop(h) == Xor(a, ShiftDown(b))
    ensures TopByte(a) == h
  {
    TopStays(h, b);
    XorCancel(a, ShiftDown(b));
  }

  lemma FillerFills(h: byte)
    ensures TopByte(TableEntry(Filler(h))) == h
  {
    hide Bits, UnBits, Xor, Word, AtTop, LowByte, ShiftDown, TopByte;
    var u := ReverseEntry(h);
    SplitLow(u);
    BitsUnBits(AtTop(h), 8);
    BitsXor(Word(LowByte(u)), u & 0xFFFF_FF00, 8);
    BitsOfShifted(u & 0xFFFF_FF00);
    TopOfXor(TableEntry(LowByte(u)), u, h);
  }

  lemma LowByteOfEntry(t: word, n: byte)
    ensures LowByte(Xor(ShiftUp(t), Word(n))) == n
  {
  }

  /** The top bytes of the 256 forward entries are a permutation: `Filler` inverts them on both
      sides, so every slot is written, and by exactly one `n`. */
  lemma TopBytesArePermutation(n: byte, h: byte)
    ensures TopByte(TableEntry(n)) == h <==> n == Filler(h)
  {
    hide Bits, UnBits, Xor, Word, AtTop, LowByte, TopByte, ShiftUp, TableEntry;
    FillerFills(h);
    SlotIsReverseEntry(n);
    LowByteOfEntry(TableEntry(n), n);
  }

  // ----- The table-driven reverse step -----

  /** Reverse step as the code computes it from a table whose slots are `ReverseEntry`. */
  lemma TableStepIsUnStep(v: word, b: byte)
    ensures Xor(Xor(ShiftUp(v), ReverseEntry(TopByte(v))), Word(b)) == UnStep(v, b)
  {
    hide UnBits, Xor, Word, AtTop, TopByte, ShiftUp;
    SplitTop(v);
    UnBitsXor(AtTop(TopByte(v)), v & 0x00FF_FFFF, 8);
    UnBitsOfSmall(v & 0x00FF_FFFF);
    XorSwap(ReverseEntry(TopByte(v)), ShiftUp(v));
  }

  lemma UnStepStep(v: word, b: byte)
    ensures UnStep(Step(v, b), b) == v
  {
    hide Bits, UnBits, Xor, Word, Step;
    StepIsBits(v, b);
    UnBitsBits(Xor(v, Word(b)), 8);
    XorCancel(v, Word(b));
  }

  lemma StepUnStep(v: word, b: byte)
    ensures Step(UnStep(v, b), b) == v
  {
    hide Bits, UnBits, Xor, Word, Step;
    StepIsBits(UnStep(v, b), b);
    XorCancel(UnBits(v, 8), Word(b));
    BitsUnBits(v, 8);
  }

  /** Running backwards over any byte string undoes running forwards over it, from any state. */
  lemma {:induction false} UnRunRun(v: word, data: bytes)
    ensures UnRun(Run(v, data), data) == v
  {
    hide Step, UnStep;
    if data != [] {
      var n := |data| - 1;
      UnStepStep(Run(v, data[..n]), data[n]);
      UnRunRun(v, data[..n]);
    }
  }

  /** ... and the other way round. */
  lemma {:induction false} RunUnRun(v: word, data: bytes)
    ensures Run(UnRun(v, data), data) == v
    decreases |data|
  {
    hide Step, UnStep;
    if data != [] {
      var n := |data| - 1;
      RunUnRun(UnStep(v, data[n]), data[..n]);
      StepUnStep(v, data[n]);
    }
  }

  lemma {:induction false} UnRunConcat(v: word, a: bytes, b: bytes)
    ensures UnRun(v, a + b) == UnRun(UnRun(v, b), a)
    decreases |b|
  {
    hide UnStep;
    if b == [] {
      assert a + b == a;
    } else {
      var n := |b| - 1;
      assert (a + b)[..|a + b| - 1] == a + b[..n];
      UnRunConcat(UnStep(v, b[n]), a, b[..n]);
    }
  }

  // ----- Four bytes commute with the state -----

  function Byte1(x: word): byte { ((x >> 8) & 0xFF) as byte }
  function Byte2(x: word): byte { ((x >> 16) & 0xFF) as byte }

  /** `u32::to_le_bytes` */
  function WordBytes(x: word): (s: bytes)
    ensures |s| == 4
  {
    [LowByte(x), Byte1(x), Byte2(x), TopByte(x)]
  }

  lemma BytesAreWord(x: word)
    ensures x == Xor(Xor(Xor(Word(LowByte(x)), Word(Byte1(x)) << 8), Word(Byte2(x)) << 16), Word(TopByte(x)) << 24)
  {
  }

  lemma LiftByte(b: byte)
    ensures Bits(Word(b) << 8, 8) == Word(b)
    ensures Bits(Word(b) << 16, 16) == Word(b)
    ensures Bits(Word(b) << 24, 24) == Word(b)
  {
    hide Bits;
    var w := Word(b);
    ShiftedByte(w);
    BitsOfShifted(w << 8);
    BitsOfShifted(w << 16);
    BitsOfShifted(w << 24);
    BitsAdd(w << 16, 8, 8);
    BitsAdd(w << 24, 8, 8);
    BitsAdd(w << 24, 16, 8);
  }

  lemma ShiftedByte(w: word)
    requires w & 0xFFFF_FF00 == 0
    ensures (w << 8) & 0xFF == 0 && (w << 16) & 0xFF == 0 && (w << 24) & 0xFF == 0
    ensures (w << 8) >> 8 == w && (w << 16) >> 8 == w << 8 && (w << 24) >> 8 == w << 16
  {
  }

  /** A byte entering after `m` bit steps could have been mixed in, shifted up, at the start. */
  lemma StepLifted(p: word, b: byte, shifted: word, m: nat)
    requires Bits(shifted, m) == Word(b)
    ensures Step(Bits(p, m), b) == Bits(Xor(p, shifted), m + 8)
  {
    hide Bits, Xor, Word, Step;
    StepIsBits(Bits(p, m), b);
    BitsXor(p, shifted, m);
    BitsAdd(Xor(p, shifted), m, 8);
  }

  lemma {:induction false} RunFour(v: word, b0: byte, b1: byte, b2: byte, b3: byte)
    ensures Run(v, [b0, b1, b2, b3]) == Step(Step(Step(Step(v, b0), b1), b2), b3)
  {
    hide Step;
    var s := [b0, b1, b2, b3];
    assert s[..3][..2][..1] == [b0] && s[..3][..2] == [b0, b1] && s[..3] == [b0, b1, b2];
    assert Run(v, [b0]) == Step(v, b0) by { assert [b0][..0] == []; }
    assert Run(v, [b0, b1]) == Step(Run(v, [b0]), b1);
  }

  lemma RunWord(v: word, x: word)
    ensures Run(v, WordBytes(x)) == Bits(Xor(v, x), 32)
  {
    hide Bits, Xor, Word, Step, Run, LowByte, Byte1, Byte2, TopByte;
    var b0, b1, b2, b3 := LowByte(x), Byte1(x), Byte2(x), TopByte(x);
    RunFour(v, b0, b1, b2, b3);
    LiftByte(b1);
    LiftByte(b2);
    LiftByte(b3);
    var y1, y2, y3 := Word(b1) << 8, Word(b2) << 16, Word(b3) << 24;
    StepIsBits(v, b0);
    var p := Xor(v, Word(b0));
    StepLifted(p, b1, y1, 8);
    StepLifted(Xor(p, y1), b2, y2, 16);
    StepLifted(Xor(Xor(p, y1), y2), b3, y3, 24);
    BytesAreWord(x);
    XorAssoc(v, Word(b0), y1);
    XorAssoc(v, Xor(Word(b0), y1), y2);
    XorAssoc(v, Xor(Xor(Word(b0), y1), y2), y3);
  }

  /** Running from state `r` over the bytes of `s` equals running from `s` over the bytes of `r`. */
  lemma StateAndBytesCommute(r: word, s: word)
    ensures Run(r, WordBytes(s)) == Run(s, WordBytes(r))
  {
    hide Bits, Xor, Run, WordBytes;
    RunWord(r, s);
    RunWord(s, r);
    XorSwap(r, s);
  }

  // ----- Forging -----

  /** The four bytes for a gap after which the state must be `after`, given the CRC `before` it. */
  function Forge(before: word, after: word): bytes {
    WordBytes(UnRun(after, WordBytes(Xor(before, XOROUT))))
  }

  lemma ForgeReaches(r: word, after: word)
    ensures Run(r, WordBytes(UnRun(after, WordBytes(r)))) == after
  {
    hide Run, UnRun, WordBytes;
    RunUnRun(after, WordBytes(r));
    StateAndBytesCommute(r, UnRun(after, WordBytes(r)));
  }

  /** For every prefix, suffix and target: putting the forged bytes in between gives a string
      whose CRC-32 is the target. */
  lemma ForgedChecksum(prefix: bytes, suffix: bytes, target: word)
    ensures var forged := Forge(Checksum(prefix), UnRun(Xor(target, XOROUT), suffix));
            |forged| == 4 && Checksum(prefix + forged + suffix) == target
  {
    hide Run, UnRun, Xor, WordBytes;
    var r := Run(INIT, prefix);
    XorCancel(r, XOROUT);
    XorCancel(target, XOROUT);
    var after := UnRun(Xor(target, XOROUT), suffix);
    ForgeReaches(r, after);
    RunConcat(INIT, prefix, Forge(Checksum(prefix), after));
    RunConcat(INIT, prefix + Forge(Checksum(prefix), after), suffix);
    RunUnRun(Xor(target, XOROUT), suffix);
  }

  // ----- The classes of the source -----

  class RevCRC {
    const reverse_table: array<word>

    ghost predicate Valid()
      reads this, reverse_table
    {
      && reverse_table.Length == 256
      && forall h: byte :: reverse_table[NatOf(h)] == ReverseEntry(h)
    }

    /** Fills the table by scattering the forward entries; the permutation lemma is what makes the
        scattered writes neither collide nor leave a gap. */
    constructor ()
      ensures Valid() && fresh(reverse_table)
    {
      reverse_table := new word[256](_ => 0);
      new;
      hide TableEntry, ReverseEntry, SlotValue, TopByte, Filler, NatOf, ByteOf;
      var n := 0;
      while n < 256
        invariant 0 <= n <= 256
        invariant forall h: byte ::
          NatOf(Filler(h)) < n ==> reverse_table[NatOf(h)] == ReverseEntry(h)
      {
        var entry := TableEntry(ByteOf(n));
        reverse_table[NatOf(TopByte(entry))] := SlotValue(ByteOf(n));
        ByteRoundTrip(n);
        forall h: byte | NatOf(Filler(h)) < n + 1
          ensures reverse_table[NatOf(h)] == ReverseEntry(h)
        {
          SlotFilledBy(ByteOf(n), h);
        }
        n := n + 1;
      }
    }

    method Update(initial: word, data: bytes) returns (value: word)
      requires Valid()
      ensures value == UnRun(initial, data)
    {
      hide UnStep, ReverseEntry, TopByte, ShiftUp, Xor, Word;
      value := initial;
      assert data[..|data|] == data;
      for i := |data| downto 0
        invariant UnRun(value, data[..i]) == UnRun(initial, data)
      {
        assert data[..i + 1][..i] == data[..i];
        TableStepIsUnStep(value, data[i]);
        value := Xor(Xor(ShiftUp(value), reverse_table[NatOf(TopByte(value))]), Word(data[i]));
      }
    }
  }

  /** Writing entry `n` settles the slot it names and, by the permutation, no other. */
  lemma SlotFilledBy(n: byte, h: byte)
    ensures NatOf(h) == NatOf(TopByte(TableEntry(n))) <==> NatOf(Filler(h)) == NatOf(n)
    ensures NatOf(h) == NatOf(TopByte(TableEntry(n))) ==> SlotValue(n) == ReverseEntry(h)
  {
    hide TableEntry, ReverseEntry, SlotValue, TopByte, Filler, NatOf, ByteOf;
    TopBytesArePermutation(n, h);
    SlotIsReverseEntry(n);
    ByteRoundTripBack(h);
    ByteRoundTripBack(n);
    ByteRoundTripBack(Filler(h));
    ByteRoundTripBack(TopByte(TableEntry(n)));
  }

  class RevDigest {
    const crc: RevCRC
    var value: word

    /** Starts from the CRC that the whole string is to have. */
    constructor (crc: RevCRC, initial: word)
      ensures this.crc == crc && value == Xor(initial, XOROUT)
    {
      this.crc := crc;
      value := Xor(initial, XOROUT);
    }

    /** Data is appended back to front. */
    method Update(data: bytes)
      requires crc.Valid()
      modifies this
      ensures value == UnRun(old(value), data)
    {
      value := crc.Update(value, data);
    }
  }

  /** `forge_crc`: the finished CRC before the gap and the reverse digest after it. */
  method ForgeCrc(before: word, after: RevDigest) returns (forged: bytes)
    requires after.crc.Valid()
    modifies after
    ensures forged == Forge(before, old(after.value))
  {
    after.Update(WordBytes(Xor(before, XOROUT)));
    forged := WordBytes(after.value);
  }
}
