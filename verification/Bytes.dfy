/** Byte strings and the little-endian integers that the program writes into them. */
module Bytes {

  type byte = bv8
  type bytes = seq<byte>

  const U16: nat := 0x1_0000
  const U32: nat := 0x1_0000_0000

  datatype Option<+T> = None | Some(value: T)

  datatype Result<+T, +E> = Ok(value: T) | Err(error: E)

  // The value of a byte, half by half: casts of four-bit words are cheap to reason about.

  function Join(high: bv4, low: bv4): byte { ((high as byte) << 4) | (low as byte) }

  function High(b: byte): bv4 { (b >> 4) as bv4 }

  function Low(b: byte): bv4 { (b & 15) as bv4 }

  function ByteOf(n: nat): byte
    requires n < 256
  {
    Join((n / 16) as bv4, (n % 16) as bv4)
  }

  function NatOf(b: byte): (n: nat)
    ensures n < 256
  {
    16 * (High(b) as nat) + (Low(b) as nat)
  }

  lemma NibbleCast(n: nat)
    requires n < 16
    ensures (n as bv4) as nat == n
  {
  }

  lemma NibbleCastBack(b: bv4)
    ensures (b as nat) < 16 && (b as nat) as bv4 == b
  {
  }

  lemma Halves(high: bv4, low: bv4)
    ensures ((((high as byte) << 4) | (low as byte)) >> 4) as bv4 == high
    ensures ((((high as byte) << 4) | (low as byte)) & 15) as bv4 == low
  {
  }

  lemma JoinHalvesWords(b: byte)
    ensures ((b >> 4) << 4) | (b & 15) == b
  {
  }

  lemma JoinHalves(b: byte)
    ensures Join(High(b), Low(b)) == b
  {
    JoinHalvesWords(b);
  }

  lemma ByteRoundTrip(n: nat)
    requires n < 256
    ensures NatOf(ByteOf(n)) == n
  {
    NibbleCast(n / 16);
    NibbleCast(n % 16);
    Halves((n / 16) as bv4, (n % 16) as bv4);
  }

  lemma ByteRoundTripBack(b: byte)
    ensures ByteOf(NatOf(b)) == b
  {
    hide Join, High, Low;
    NibbleCastBack(High(b));
    NibbleCastBack(Low(b));
    var h, l: nat := High(b) as nat, Low(b) as nat;
    assert (16 * h + l) / 16 == h && (16 * h + l) % 16 == l;
    JoinHalves(b);
  }

  /** `width` bytes of `n`, least significant first (`to_le_bytes`, `put_u16_le`, `put_u32_le`). */
  function LeBytes(n: nat, width: nat): (s: bytes)
    ensures |s| == width
  {
    if width == 0 then [] else [ByteOf(n % 256)] + LeBytes(n / 256, width - 1)
  }

  /** The number that a little-endian byte string denotes (`from_le_bytes`). */
  function FromLe(s: bytes): nat {
    if s == [] then 0 else NatOf(s[0]) + 256 * FromLe(s[1..])
  }

  function Power256(width: nat): nat {
    if width == 0 then 1 else 256 * Power256(width - 1)
  }

  lemma {:induction false} LeRoundTrip(n: nat, width: nat)
    requires n < Power256(width)
    ensures FromLe(LeBytes(n, width)) == n
  {
    hide ByteOf, NatOf;
    if width > 0 {
      ByteRoundTrip(n % 256);
      LeRoundTrip(n / 256, width - 1);
      assert LeBytes(n, width)[1..] == LeBytes(n / 256, width - 1);
    }
  }

  lemma NatOfIsValue(b: byte)
    ensures NatOf(b) == b as nat
  {
  }

  /** The 32-bit number stored at `i`, least significant byte first, written out. */
  function Number32(s: bytes, i: nat): nat
    requires i + 4 <= |s|
  {
    s[i] as nat + 0x100 * (s[i + 1] as nat) + 0x1_0000 * (s[i + 2] as nat) + 0x100_0000 * (s[i + 3] as nat)
  }

  lemma FromLeStep(s: bytes)
    requires s != []
    ensures FromLe(s) == NatOf(s[0]) + 256 * FromLe(s[1..])
  {
  }

  lemma FromLeOfTwo(s: bytes)
    requires |s| == 2
    ensures FromLe(s) == NatOf(s[0]) + 0x100 * NatOf(s[1])
  {
    hide FromLe, NatOf;
    FromLeStep(s);
    FromLeStep(s[1..]);
    assert s[1..][1..] == [];
    FromLeNone();
  }

  lemma FromLeOfFour(s: bytes)
    requires |s| == 4
    ensures FromLe(s) == NatOf(s[0]) + 0x100 * NatOf(s[1]) + 0x1_0000 * NatOf(s[2]) + 0x100_0000 * NatOf(s[3])
  {
    hide FromLe, NatOf;
    FromLeStep(s);
    FromLeStep(s[1..]);
    assert s[1..][1..] == s[2..];
    FromLeOfTwo(s[2..]);
  }

  lemma FromLeIsNumber(s: bytes, i: nat)
    requires i + 4 <= |s|
    ensures FromLe(s[i..i + 4]) == Number32(s, i) < U32
  {
    hide FromLe, NatOf;
    FromLeOfFour(s[i..i + 4]);
    NatOfIsValue(s[i]);
    NatOfIsValue(s[i + 1]);
    NatOfIsValue(s[i + 2]);
    NatOfIsValue(s[i + 3]);
  }

  lemma FromLeNone()
    ensures FromLe([]) == 0
  {
  }

  /** Writing a number puts it where it can be read. */
  lemma LeBytesIsNumber(n: nat, s: bytes, i: nat)
    requires n < U32 && i + 4 <= |s|
    ensures s[i..i + 4] == LeBytes(n, 4) <==> Number32(s, i) == n
  {
    hide FromLe, LeBytes, Number32;
    Power256Values();
    LeRoundTrip(n, 4);
    FromLeIsNumber(s, i);
    LeRoundTripBack(s[i..i + 4]);
  }

  /** The 16-bit number stored at `i`. */
  function Number16(s: bytes, i: nat): nat
    requires i + 2 <= |s|
  {
    s[i] as nat + 0x100 * (s[i + 1] as nat)
  }

  lemma LeBytesIsNumber16(n: nat, s: bytes, i: nat)
    requires n < U16 && i + 2 <= |s|
    ensures s[i..i + 2] == LeBytes(n, 2) <==> Number16(s, i) == n
  {
    hide FromLe, LeBytes, NatOf;
    var w := s[i..i + 2];
    Power256Values();
    LeRoundTrip(n, 2);
    FromLeOfTwo(w);
    NatOfIsValue(s[i]);
    NatOfIsValue(s[i + 1]);
    LeRoundTripBack(w);
  }

  lemma {:induction false} LeRoundTripBack(s: bytes)
    ensures FromLe(s) < Power256(|s|)
    ensures LeBytes(FromLe(s), |s|) == s
  {
    hide ByteOf, NatOf;
    if s != [] {
      LeRoundTripBack(s[1..]);
      ByteRoundTripBack(s[0]);
      assert s == [s[0]] + s[1..];
    }
  }

  lemma Power256Values()
    ensures Power256(2) == U16 && Power256(4) == U32
  {
    assert Power256(1) == 256;
    assert Power256(3) == 0x100_0000;
  }

  /** `n` zero bytes, as used for padding. */
  function Zeros(n: nat): (s: bytes)
    ensures |s| == n
  {
    seq(n, _ => 0)
  }

  lemma SliceGrows(s: bytes, lo: nat, hi: nat)
    requires lo <= hi < |s|
    ensures s[lo..hi] + [s[hi]] == s[lo..hi + 1]
  {
  }

  lemma SliceOfSlice(s: bytes, lo: nat, hi: nat, m: nat, n: nat)
    requires lo <= hi <= |s| && m <= n <= hi - lo
    ensures s[lo..hi][m..n] == s[lo + m..lo + n]
  {
    forall k | 0 <= k < n - m ensures s[lo..hi][m..n][k] == s[lo + m..lo + n][k] {
      assert s[lo..hi][m..n][k] == s[lo..hi][m + k] == s[lo + (m + k)];
    }
  }

  lemma SliceOfPrefix(s: bytes, n: nat, lo: nat, hi: nat)
    requires lo <= hi <= n <= |s|
    ensures s[..n][lo..hi] == s[lo..hi]
  {
  }

  lemma Assoc<T>(a: seq<T>, b: seq<T>, c: seq<T>)
    ensures (a + b) + c == a + (b + c)
  {
  }

  lemma Regroup(a: bytes, s: bytes, j: nat)
    requires j <= |s|
    ensures a + s == (a + s[..j]) + s[j..]
  {
  }

  /** Concatenation of a list of byte strings. */
  function Concat(parts: seq<bytes>): bytes {
    if parts == [] then [] else parts[0] + Concat(parts[1..])
  }

  lemma {:induction false} ConcatAppend(a: seq<bytes>, b: seq<bytes>)
    ensures Concat(a + b) == Concat(a) + Concat(b)
  {
    if a == [] {
      assert a + b == b;
    } else {
      assert (a + b)[1..] == a[1..] + b;
      ConcatAppend(a[1..], b);
    }
  }
}
