/** CRC-32/ISO-HDLC, forward direction: the table-driven update of the `crc` crate. The 256-entry
    table is the one of the sample code in section 8 of RFC 1952: entry `n` is `n` after eight
    single-bit steps of the reflected polynomial. */
module Crc32 {
  import opened Bytes

  type word = bv32

  const INIT: word := 0xFFFF_FFFF
  const XOROUT: word := 0xFFFF_FFFF

  function Xor(a: word, b: word): word { a ^ b }

  function Word(b: byte): word { b as word }

  function LowByte(v: word): byte { (v & 0xFF) as byte }

  function TopByte(v: word): byte { (v >> 24) as byte }

  function ShiftUp(v: word): word { v << 8 }

  function ShiftDown(v: word): word { v >> 8 }

  function BitStep(c: word): word {
    if c & 1 == 1 then (c >> 1) ^ 0xEDB8_8320 else c >> 1
  }

  /** `n` single-bit steps. */
  function Bits(c: word, n: nat): word {
    if n == 0 then c else BitStep(Bits(c, n - 1))
  }

  function TableEntry(n: byte): word { Bits(Word(n), 8) }

  /** One byte of input, by table lookup. */
  function Step(v: word, b: byte): word {
    Xor(TableEntry(LowByte(Xor(v, Word(b)))), ShiftDown(v))
  }

  function Run(v: word, data: bytes): word {
    if data == [] then v else Step(Run(v, data[..|data| - 1]), data[|data| - 1])
  }

  function Checksum(data: bytes): word {
    Xor(Run(INIT, data), XOROUT)
  }

  lemma {:induction false} RunConcat(v: word, a: bytes, b: bytes)
    ensures Run(v, a + b) == Run(Run(v, a), b)
  {
    hide Step;
    if b == [] {
      assert a + b == a;
    } else {
      var n := |b| - 1;
      assert (a + b)[..|a + b| - 1] == a + b[..n];
      RunConcat(v, a, b[..n]);
    }
  }

  // ----- Linearity of the bit steps -----

  lemma BitStepOf(d: word)
    ensures d & 1 == 1 ==> BitStep(d) == Xor(d >> 1, 0xEDB8_8320)
    ensures d & 1 != 1 ==> BitStep(d) == d >> 1
  {
  }

  lemma XorIs(a: word, b: word)
    ensures Xor(a, b) == a ^ b
  {
  }

  lemma XorCancel(a: word, b: word)
    ensures Xor(Xor(a, b), b) == a
    ensures Xor(b, Xor(a, b)) == a
  {
  }

  lemma XorSwap(a: word, b: word)
    ensures Xor(a, b) == Xor(b, a)
  {
  }

  lemma XorAssoc(a: word, b: word, c: word)
    ensures Xor(Xor(a, b), c) == Xor(a, Xor(b, c))
  {
  }

  lemma HalfOfXor(a: word, b: word)
    ensures (a ^ b) >> 1 == (a >> 1) ^ (b >> 1)
  {
  }

  lemma LowBitOfXor(a: word, b: word)
    ensures (a ^ b) & 1 == 1 <==> (a & 1 == 1) != (b & 1 == 1)
  {
  }

  lemma XorMixes(x: word, y: word, p: word)
    ensures Xor(Xor(x, p), Xor(y, p)) == Xor(x, y)
    ensures Xor(Xor(x, p), y) == Xor(Xor(x, y), p)
    ensures Xor(x, Xor(y, p)) == Xor(Xor(x, y), p)
  {
    hide Xor;
    XorAssoc(x, p, y);
    XorSwap(p, y);
    XorAssoc(x, y, p);
    XorAssoc(Xor(x, p), y, p);
    XorCancel(Xor(x, y), p);
  }

  lemma BitStepXor(a: word, b: word)
    ensures BitStep(Xor(a, b)) == Xor(BitStep(a), BitStep(b))
  {
    hide BitStep, Xor;
    BitStepOf(a);
    BitStepOf(b);
    BitStepOf(a ^ b);
    HalfOfXor(a, b);
    LowBitOfXor(a, b);
    XorIs(a, b);
    XorIs(a >> 1, b >> 1);
    XorMixes(a >> 1, b >> 1, 0xEDB8_8320);
  }

  lemma {:induction false} BitsXor(a: word, b: word, n: nat)
    ensures Bits(Xor(a, b), n) == Xor(Bits(a, n), Bits(b, n))
  {
    hide BitStep, Xor;
    if n > 0 {
      BitsXor(a, b, n - 1);
      BitStepXor(Bits(a, n - 1), Bits(b, n - 1));
    }
  }

  lemma {:induction false} BitsAdd(c: word, m: nat, n: nat)
    ensures Bits(Bits(c, m), n) == Bits(c, m + n)
  {
    hide BitStep;
    if n > 0 {
      BitsAdd(c, m, n - 1);
    }
  }

  lemma BitsOfShifted(b: word)
    requires b & 0xFF == 0
    ensures Bits(b, 8) == b >> 8
  {
    assert Bits(b, 1) == b >> 1;
    assert Bits(b, 2) == b >> 2;
    assert Bits(b, 3) == b >> 3;
    assert Bits(b, 4) == b >> 4;
    assert Bits(b, 5) == b >> 5;
    assert Bits(b, 6) == b >> 6;
    assert Bits(b, 7) == b >> 7;
  }

  // ----- The table step is eight bit steps -----

  lemma SplitLow(x: word)
    ensures x == Xor(Word(LowByte(x)), x & 0xFFFF_FF00)
    ensures (x & 0xFFFF_FF00) & 0xFF == 0
    ensures (x & 0xFFFF_FF00) >> 8 == ShiftDown(x)
  {
  }

  lemma ShiftDownByte(v: word, b: byte)
    ensures ShiftDown(Xor(v, Word(b))) == ShiftDown(v)
  {
  }

  /** The table-driven byte step is the bit-at-a-time CRC. */
  lemma StepIsBits(v: word, b: byte)
    ensures Step(v, b) == Bits(Xor(v, Word(b)), 8)
  {
    hide Bits, Xor, Word, LowByte, ShiftDown;
    var x := Xor(v, Word(b));
    SplitLow(x);
    BitsXor(Word(LowByte(x)), x & 0xFFFF_FF00, 8);
    BitsOfShifted(x & 0xFFFF_FF00);
    ShiftDownByte(v, b);
  }

  // ----- The published check value -----

  /** One table step, given the nine states the table entry goes through. */
  lemma OneByte(v: word, b: byte, c: seq<word>, r: word)
    requires |c| == 9 && c[0] == Word(LowByte(Xor(v, Word(b)))) && r == Xor(c[8], ShiftDown(v))
    requires forall i :: 0 <= i < 8 ==> c[i + 1] == BitStep(c[i])
    ensures Step(v, b) == r
  {
    hide BitStep, Xor, Word, LowByte, ShiftDown;
    BitsAre(c, 8);
  }

  lemma {:induction false} BitsAre(c: seq<word>, n: nat)
    requires n < |c| && forall i :: 0 <= i < |c| - 1 ==> c[i + 1] == BitStep(c[i])
    ensures Bits(c[0], n) == c[n]
  {
    hide BitStep;
    if n > 0 {
      BitsAre(c, n - 1);
    }
  }

  lemma Digits1()
    ensures Step(0xFFFF_FFFF, 0x31) == 0x7C23_1048
    ensures Step(0x7C23_1048, 0x32) == 0xB0AC_BB32
    ensures Step(0xB0AC_BB32, 0x33) == 0x77B7_9C2D
  {
    OneByte(0xFFFF_FFFF, 0x31, [0x0000_00CE, 0x0000_0067, 0xEDB8_8313, 0x9B64_C2A9, 0xA00A_E274,
      0x5005_713A, 0x2802_B89D, 0xF9B9_DF6E, 0x7CDC_EFB7], 0x7C23_1048);
    OneByte(0x7C23_1048, 0x32, [0x0000_007A, 0x0000_003D, 0xEDB8_833E, 0x76DC_419F, 0xD6D6_A3EF,
      0x86D3_D2D7, 0xAED1_6A4B, 0xBAD0_3605, 0xB0D0_9822], 0xB0AC_BB32);
    OneByte(0xB0AC_BB32, 0x33, [0x0000_0001, 0xEDB8_8320, 0x76DC_4190, 0x3B6E_20C8, 0x1DB7_1064,
      0x0EDB_8832, 0x076D_C419, 0xEE0E_612C, 0x7707_3096], 0x77B7_9C2D);
  }

  lemma Digits2()
    ensures Step(0x77B7_9C2D, 0x34) == 0x641C_1F5C
    ensures Step(0x641C_1F5C, 0x35) == 0x340A_C5E3
    ensures Step(0x340A_C5E3, 0x36) == 0xF68D_2C9E
  {
    OneByte(0x77B7_9C2D, 0x34, [0x0000_0019, 0xEDB8_832C, 0x76DC_4196, 0x3B6E_20CB, 0xF00F_9345,
      0x95BF_4A82, 0x4ADF_A541, 0xC8D7_5180, 0x646B_A8C0], 0x641C_1F5C);
    OneByte(0x641C_1F5C, 0x35, [0x0000_0069, 0xEDB8_8314, 0x76DC_418A, 0x3B6E_20C5, 0xF00F_9342,
      0x7807_C9A1, 0xD1BB_67F0, 0x68DD_B3F8, 0x346E_D9FC], 0x340A_C5E3);
    OneByte(0x340A_C5E3, 0x36, [0x0000_00D5, 0xEDB8_834A, 0x76DC_41A5, 0xD6D6_A3F2, 0x6B6B_51F9,
      0xD80D_2BDC, 0x6C06_95EE, 0x3603_4AF7, 0xF6B9_265B], 0xF68D_2C9E);
  }

  lemma Digits3()
    ensures Step(0xF68D_2C9E, 0x37) == 0xAFFC_9660
    ensures Step(0xAFFC_9660, 0x38) == 0x651F_2550
    ensures Step(0x651F_2550, 0x39) == 0x340B_C6D9
  {
    OneByte(0xF68D_2C9E, 0x37, [0x0000_00A9, 0xEDB8_8374, 0x76DC_41BA, 0x3B6E_20DD, 0xF00F_934E,
      0x7807_C9A7, 0xD1BB_67F3, 0x8565_30D9, 0xAF0A_1B4C], 0xAFFC_9660);
    OneByte(0xAFFC_9660, 0x38, [0x0000_0058, 0x0000_002C, 0x0000_0016, 0x0000_000B, 0xEDB8_8325,
      0x9B64_C2B2, 0x4DB2_6159, 0xCB61_B38C, 0x65B0_D9C6], 0x651F_2550);
    OneByte(0x651F_2550, 0x39, [0x0000_0069, 0xEDB8_8314, 0x76DC_418A, 0x3B6E_20C5, 0xF00F_9342,
      0x7807_C9A1, 0xD1BB_67F0, 0x68DD_B3F8, 0x346E_D9FC], 0x340B_C6D9);
  }

  lemma RunOne(v: word, data: bytes, b: byte)
    ensures Run(v, data + [b]) == Step(Run(v, data), b)
  {
    hide Step;
    assert (data + [b])[..|data + [b]| - 1] == data;
  }

  /** The CRC of the ASCII digits "123456789" is the check value of CRC-32/ISO-HDLC. */
  lemma CheckValue()
    ensures Checksum([0x31, 0x32, 0x33, 0x34, 0x35, 0x36, 0x37, 0x38, 0x39]) == 0xCBF4_3926
  {
    hide Step, Run;
    Digits1();
    Digits2();
    Digits3();
    var digits: bytes := [0x31, 0x32, 0x33, 0x34, 0x35, 0x36, 0x37, 0x38, 0x39];
    var states: seq<word> := [
      0xFFFF_FFFF, 0x7C23_1048, 0xB0AC_BB32, 0x77B7_9C2D, 0x641C_1F5C, 0x340A_C5E3, 0xF68D_2C9E, 0xAFFC_9660,
      0x651F_2550, 0x340B_C6D9];
    assert Run(INIT, digits[..0]) == INIT by { RunNone(INIT); }
    for i := 0 to 9
      invariant Run(INIT, digits[..i]) == states[i]
    {
      assert digits[..i + 1] == digits[..i] + [digits[i]];
      RunOne(INIT, digits[..i], digits[i]);
    }
    assert digits[..9] == digits;
  }

  lemma RunNone(v: word)
    ensures Run(v, []) == v
  {
  }

  // ----- The running digest -----

  /** A digest over everything appended so far: `value` is the state before the final xor. */
  class Digest {
    var value: word

    constructor ()
      ensures value == INIT
    {
      value := INIT;
    }

    method Update(data: bytes)
      modifies this
      ensures value == Run(old(value), data)
    {
      hide Step;
      for i := 0 to |data|
        invariant value == Run(old(value), data[..i])
      {
        assert data[..i + 1][..i] == data[..i];
        value := Step(value, data[i]);
      }
      assert data[..|data|] == data;
    }

    function Finalize(): word
      reads this
    {
      Xor(value, XOROUT)
    }
  }
}
