/** The rolling hash and the content-defined chunker (`src/chunker.rs`). */
module Chunker {
  import opened Bytes

  const OFFSET: nat := 31
  const MULT: nat := 0x0810_4225
  const WINDOW_SIZE: nat := 32

  function Pow(n: nat): nat {
    if n == 0 then 1 else MULT * Pow(n - 1)
  }

  const WINDOW_MULT: nat := Pow(WINDOW_SIZE + 1) % U32

  const MIN_CHUNK_SIZE: nat := 512
  const MAX_CHUNK_SIZE: nat := 4096
  const CHUNK_MASK: nat := 0x7FF
  /** Testing `hash & CHUNK_MASK == 0` is testing divisibility by this number. */
  const CHUNK_MODULUS: nat := 2048

  /** The bitwise `&`. */
  function BitAnd(m: nat, n: nat): nat {
    if m == 0 || n == 0 then 0 else 2 * BitAnd(m / 2, n / 2) + (m % 2) * (n % 2)
  }

  function Power2(k: nat): (p: nat)
    ensures p > 0
  {
    if k == 0 then 1 else 2 * Power2(k - 1)
  }

  function Remainder(n: nat, p: nat): nat
    requires p > 0
  {
    n % p
  }

  lemma HalfRemainder(n: nat, p: nat)
    requires p > 0
    ensures Remainder(n, 2 * p) == 2 * Remainder(n / 2, p) + n % 2
  {
    var q, r := n / 2 / p, n / 2 % p;
    assert n / 2 == q * p + r;
    assert n == q * (2 * p) + (2 * r + n % 2) by {
      assert n == 2 * (q * p + r) + n % 2;
    }
    RemainderIs(n, 2 * p, q, 2 * r + n % 2);
  }

  lemma RemainderIs(n: int, d: int, q: int, r: int)
    requires n == q * d + r && 0 <= r < d
    ensures n % d == r
  {
    var m := q - n / d;
    assert m * d == n % d - r by {
      assert n == n / d * d + n % d;
      MulMinus(q, n / d, d);
    }
    if m > 0 {
      AtLeastOnce(m, d);
    } else if m < 0 {
      AtLeastOnce(-m, d);
      MulMinus(0, m, d);
    }
  }

  lemma MulMinus(a: int, b: int, d: int)
    ensures (a - b) * d == a * d - b * d
  {
  }

  lemma AtLeastOnce(m: int, d: int)
    requires m > 0 && d > 0
    ensures m * d >= d
  {
  }

  lemma {:induction false} LowBits(n: nat, k: nat)
    ensures BitAnd(n, Power2(k) - 1) == Remainder(n, Power2(k))
  {
    if k > 0 {
      hide BitAnd, Remainder;
      var p := Power2(k - 1);
      LowBits(n / 2, k - 1);
      HalfRemainder(n, p);
      AndStep(n, p);
    }
  }

  lemma AndStep(n: nat, p: nat)
    requires p > 0
    ensures BitAnd(n, 2 * p - 1) == 2 * BitAnd(n / 2, p - 1) + n % 2
  {
    assert (2 * p - 1) / 2 == p - 1 && (2 * p - 1) % 2 == 1;
  }

  /** Masking with `2^11 - 1` gives the remainder. */
  lemma MaskIsModulus(hash: nat)
    ensures BitAnd(hash, CHUNK_MASK) == hash % CHUNK_MODULUS
  {
    assert Power2(4) == 16 && Power2(8) == 256;
    assert Power2(11) == CHUNK_MODULUS;
    LowBits(hash, 11);
  }

  // ----- The direct polynomial -----

  function Added(b: byte): nat { NatOf(b) + OFFSET }

  /** Newest byte weighted `MULT^1`, the oldest of `n` weighted `MULT^n`. */
  function Poly(window: bytes): nat {
    if window == [] then 0 else Added(window[0]) * Pow(|window|) + Poly(window[1..])
  }

  function LastWindow(s: bytes): bytes {
    if |s| <= WINDOW_SIZE then s else s[|s| - WINDOW_SIZE..]
  }

  /** The hash after the bytes `s`, computed from scratch. */
  function DirectHash(s: bytes): nat { Poly(LastWindow(s)) % U32 }

  lemma Distribute(a: nat, p: nat, q: nat, b: nat)
    ensures a * (MULT * p) + (q + b) * MULT == (a * p + q + b) * MULT
  {
  }

  lemma EmptyHash()
    ensures DirectHash([]) == 0
  {
    assert LastWindow([]) == [];
  }

  lemma {:induction false} PolyAppend(w: bytes, b: byte)
    ensures Poly(w + [b]) == (Poly(w) + Added(b)) * MULT
  {
    hide Added;
    if w == [] {
      assert (w + [b])[1..] == [];
      assert Pow(1) == MULT * Pow(0);
    } else {
      assert (w + [b])[1..] == w[1..] + [b];
      PolyAppend(w[1..], b);
      Distribute(Added(w[0]), Pow(|w|), Poly(w[1..]), Added(b));
    }
  }

  lemma PolySlide(w: bytes, b: byte)
    requires w != []
    ensures Poly(w[1..] + [b]) == (Poly(w) + Added(b)) * MULT - Added(w[0]) * Pow(|w| + 1)
  {
    PolyAppend(w, b);
    assert (w + [b])[1..] == w[1..] + [b];
  }

  // ----- The same in numbers -----

  function PowerOf(base: nat, n: nat): nat {
    if n == 0 then 1 else base * PowerOf(base, n - 1)
  }

  /** The last `n` bytes, each plus 31, weighted with rising powers of 0x08104225 from the newest on. */
  function HashSum(s: bytes, n: nat): nat
    requires n <= |s|
  {
    if n == 0 then 0
    else HashSum(s, n - 1) + (s[|s| - n] as nat + 31) * PowerOf(0x0810_4225, n)
  }

  /** The hash of a string: over its last 32 bytes, modulo 2^32. */
  function HashOf(s: bytes): nat { HashSum(s, if |s| < 32 then |s| else 32) % 0x1_0000_0000 }

  lemma {:induction false} PowIs(n: nat)
    ensures Pow(n) == PowerOf(0x0810_4225, n)
  {
    if n > 0 {
      PowIs(n - 1);
    }
  }

  lemma AddedIs(b: byte)
    ensures Added(b) == b as nat + 31
  {
    hide NatOf;
    NatOfIsValue(b);
  }

  lemma {:induction false} PolyIsSum(s: bytes, n: nat)
    requires n <= |s|
    ensures Poly(s[|s| - n..]) == HashSum(s, n)
  {
    hide Added, Pow, PowerOf;
    var w := s[|s| - n..];
    if n > 0 {
      PolyIsSum(s, n - 1);
      assert w[1..] == s[|s| - (n - 1)..] && w[0] == s[|s| - n];
      AddedIs(w[0]);
      PowIs(n);
    }
  }

  lemma DirectHashIs(s: bytes)
    ensures DirectHash(s) == HashOf(s)
  {
    hide Poly, HashSum;
    PolyIsSum(s, if |s| < 32 then |s| else 32);
    assert s[0..] == s;
  }

  // ----- The update, in wrapping 32-bit arithmetic -----

  function NextHash(hash: nat, added: nat, leaving: nat): nat {
    (((hash + added) % U32 * MULT) % U32 - (leaving * WINDOW_MULT) % U32) % U32
  }

  lemma ModStep(x: int, y: int, k: int)
    requires x == y + k * U32
    ensures x % U32 == y % U32
  {
  }

  lemma AddWraps(x: int, y: int)
    ensures (x % U32 + y) % U32 == (x + y) % U32
  {
    ModStep(x + y, x % U32 + y, x / U32);
  }

  lemma MulWraps(x: int, y: int)
    ensures (x % U32) * y % U32 == x * y % U32
  {
    assert x * y == (x % U32) * y + (x / U32) * y * U32 by {
      assert x == x % U32 + x / U32 * U32;
    }
    ModStep(x * y, (x % U32) * y, (x / U32) * y);
  }

  lemma SubWraps(x: int, y: int)
    ensures (x % U32 - y % U32) % U32 == (x - y) % U32
  {
    ModStep(x - y, x % U32 - y % U32, x / U32 - y / U32);
  }

  /** The wrapping update computes the exact update modulo 2^32. */
  lemma NextHashIsModular(exact: nat, added: nat, leaving: nat)
    ensures NextHash(exact % U32, added, leaving)
         == ((exact + added) * MULT - leaving * Pow(WINDOW_SIZE + 1)) % U32
  {
    hide Pow;
    var gone := Pow(WINDOW_SIZE + 1);
    AddWraps(exact, added);
    MulWraps(exact + added, MULT);
    MulWraps(gone, leaving);
    assert leaving * WINDOW_MULT == (gone % U32) * leaving;
    assert leaving * gone == gone * leaving;
    SubWraps((exact + added) * MULT, leaving * gone);
  }

  /** Slot `j % WINDOW_SIZE` holds byte `j` of the last `WINDOW_SIZE`; unused slots hold 0. */
  ghost predicate Ring(window: seq<nat>, history: bytes) {
    && |window| == WINDOW_SIZE
    && (forall j :: 0 <= j < |history| && |history| - WINDOW_SIZE <= j
          ==> window[j % WINDOW_SIZE] == Added(history[j]))
    && (forall j :: |history| <= j < WINDOW_SIZE ==> window[j] == 0)
  }

  lemma RingUpdate(window: seq<nat>, history: bytes, b: byte)
    requires Ring(window, history)
    ensures var pos := |history| % WINDOW_SIZE;
            && Ring(window[pos := Added(b)], history + [b])
            && window[pos] == if |history| < WINDOW_SIZE then 0 else Added(history[|history| - WINDOW_SIZE])
  {
    hide Added;
    var n, pos := |history|, |history| % WINDOW_SIZE;
    var w, h := window[pos := Added(b)], history + [b];
    forall j | 0 <= j < n + 1 && n + 1 - WINDOW_SIZE <= j
      ensures w[j % WINDOW_SIZE] == Added(h[j])
    {
      if j < n {
        assert j % WINDOW_SIZE != n % WINDOW_SIZE;
      }
    }
    if n >= WINDOW_SIZE {
      assert (n - WINDOW_SIZE) % WINDOW_SIZE == pos;
    }
  }

  /** The ring-buffer class of the source. The ghost `history` is every byte since the reset. */
  class RabinKarpHash {
    var hash: nat
    const window: array<nat>
    var window_pos: nat
    ghost var history: bytes

    ghost predicate Valid()
      reads this, window
    {
      && window.Length == WINDOW_SIZE
      && window_pos == |history| % WINDOW_SIZE
      && hash == DirectHash(history)
      && Ring(window[..], history)
    }

    constructor ()
      ensures Valid() && fresh(window) && history == []
    {
      hash := 0;
      window := new nat[WINDOW_SIZE](_ => 0);
      window_pos := 0;
      history := [];
    }

    method Update(b: byte) returns (result: nat)
      requires Valid()
      modifies this, window
      ensures Valid() && history == old(history) + [b]
      ensures result == DirectHash(history) == HashOf(history)
    {
      hide DirectHash, HashOf, Added, Ring, NextHash;
      RingUpdate(window[..], history, b);
      HashStep(history, b, window[window_pos]);
      hash := NextHash(hash, Added(b), window[window_pos]);
      window[window_pos] := Added(b);
      window_pos := (window_pos + 1) % WINDOW_SIZE;
      history := history + [b];
      result := hash;
      DirectHashIs(history);
    }

    method Reset()
      requires Valid()
      modifies this, window
      ensures Valid() && history == []
    {
      hide DirectHash;
      hash := 0;
      forall i | 0 <= i < WINDOW_SIZE {
        window[i] := 0;
      }
      window_pos := 0;
      history := [];
      EmptyHash();
    }
  }

  /** One update keeps the hash equal to the direct polynomial, whether or not the window is full. */
  lemma HashStep(s: bytes, b: byte, leaving: nat)
    requires leaving == if |s| < WINDOW_SIZE then 0 else Added(s[|s| - WINDOW_SIZE])
    ensures NextHash(DirectHash(s), Added(b), leaving) == DirectHash(s + [b])
  {
    hide Poly, Pow;
    var w := LastWindow(s);
    NextHashIsModular(Poly(w), Added(b), leaving);
    if |s| < WINDOW_SIZE {
      PolyAppend(s, b);
      assert leaving * Pow(WINDOW_SIZE + 1) == 0;
    } else {
      PolySlide(w, b);
      assert LastWindow(s + [b]) == w[1..] + [b];
    }
  }

  // ----- Where chunks end -----

  /** May the first chunk of `data` end after `n` bytes, because of what it contains or its size? */
  predicate IsCut(data: bytes, n: nat)
    requires MIN_CHUNK_SIZE < n <= |data|
  {
    DirectHash(data[MIN_CHUNK_SIZE..n]) % CHUNK_MODULUS == 0 || n >= MAX_CHUNK_SIZE
  }

  function ScanCut(data: bytes, n: nat): (r: nat)
    requires MIN_CHUNK_SIZE < n <= |data|
    ensures n <= r <= |data|
    ensures r == |data| || IsCut(data, r)
    ensures forall k :: n <= k < r ==> !IsCut(data, k)
    decreases |data| - n
  {
    hide DirectHash;
    if n == |data| || IsCut(data, n) then n else ScanCut(data, n + 1)
  }

  lemma ScanCutStep(data: bytes, n: nat)
    requires MIN_CHUNK_SIZE < n <= |data|
    ensures IsCut(data, n) <==> DirectHash(data[MIN_CHUNK_SIZE..n]) % CHUNK_MODULUS == 0 || n >= MAX_CHUNK_SIZE
    ensures ScanCut(data, n) == if n == |data| || IsCut(data, n) then n else ScanCut(data, n + 1)
  {
  }

  /** The length of the first chunk. */
  function FirstCut(data: bytes): (n: nat)
    requires data != []
    ensures 1 <= n <= |data| && n <= MAX_CHUNK_SIZE
    ensures n < |data| ==> n > MIN_CHUNK_SIZE
  {
    if |data| <= MIN_CHUNK_SIZE then |data|
    else
      var r := ScanCut(data, MIN_CHUNK_SIZE + 1);
      assert r > MAX_CHUNK_SIZE ==> IsCut(data, MAX_CHUNK_SIZE);
      r
  }

  lemma FirstCutIs(data: bytes)
    requires data != []
    ensures FirstCut(data) == if |data| <= MIN_CHUNK_SIZE then |data| else ScanCut(data, MIN_CHUNK_SIZE + 1)
  {
  }

  /** Where the first chunk ends, in numbers: with up to 512 bytes, at the end; else at the first length over
      512 at which the hash of the bytes after the first 512 is divisible by 2048, but at 4096 at the latest, and
      at the end if there are no more bytes. */
  lemma FirstCutIff(data: bytes, n: nat)
    requires data != []
    ensures n == FirstCut(data) <==>
      if |data| <= 512 then n == |data|
      else
        && 512 < n <= |data| && n <= 4096
        && (n == |data| || n == 4096 || HashOf(data[512..n]) % 2048 == 0)
        && forall k :: 512 < k < n ==> HashOf(data[512..k]) % 2048 != 0
  {
    hide HashOf, DirectHash, ScanCut, IsCut, FirstCut;
    FirstCutIs(data);
    if |data| > 512 {
      var r := FirstCut(data);
      assert 512 < r <= |data| && r <= 4096;
      forall k | 512 < k <= |data| ensures IsCut(data, k) <==> HashOf(data[512..k]) % 2048 == 0 || k >= 4096 {
        ScanCutStep(data, k);
        DirectHashIs(data[512..k]);
      }
      if n > r {
        assert r == 4096 || HashOf(data[512..r]) % 2048 == 0 || r == |data|;
      }
    }
  }

  function Chunks(data: bytes): seq<bytes> {
    if data == [] then [] else
      var n := FirstCut(data);
      [data[..n]] + Chunks(data[n..])
  }

  class Chunker {
    const rolling_hash: RabinKarpHash
    var data: bytes

    ghost predicate Valid()
      reads this, rolling_hash, rolling_hash.window
    {
      rolling_hash.Valid() && rolling_hash.history == []
    }

    constructor (data: bytes)
      ensures Valid() && fresh(rolling_hash) && fresh(rolling_hash.window)
      ensures this.data == data
    {
      rolling_hash := new RabinKarpHash();
      this.data := data;
    }

    /** The loop of `Iterator::next`: how long is the next chunk? */
    method FindCut() returns (chunk_size: nat)
      requires Valid() && data != []
      modifies rolling_hash, rolling_hash.window
      ensures rolling_hash.Valid()
      ensures chunk_size == FirstCut(data)
    {
      hide DirectHash, Ring, ScanCut, IsCut, FirstCut, BitAnd;
      FirstCutIs(data);
      chunk_size := if MIN_CHUNK_SIZE < |data| then MIN_CHUNK_SIZE else |data|;
      while chunk_size < |data|
        invariant rolling_hash.Valid()
        invariant chunk_size <= |data|
        invariant chunk_size < |data| ==> FirstCut(data) == ScanCut(data, chunk_size + 1)
        invariant chunk_size == |data| ==> FirstCut(data) == chunk_size
        invariant chunk_size < |data| ==>
          MIN_CHUNK_SIZE <= chunk_size && rolling_hash.history == data[MIN_CHUNK_SIZE..chunk_size]
      {
        SliceGrows(data, MIN_CHUNK_SIZE, chunk_size);
        ScanCutStep(data, chunk_size + 1);
        var hash := rolling_hash.Update(data[chunk_size]);
        chunk_size := chunk_size + 1;
        MaskIsModulus(hash);
        if BitAnd(hash, CHUNK_MASK) == 0 || chunk_size >= MAX_CHUNK_SIZE {
          break;
        }
      }
    }

    /** `Iterator::next` */
    method Next() returns (chunk: Option<bytes>)
      requires Valid()
      modifies this, rolling_hash, rolling_hash.window
      ensures Valid()
      ensures old(data) == [] ==> chunk == None && data == []
      ensures old(data) != [] ==>
        var n := FirstCut(old(data));
        chunk == Some(old(data)[..n]) && data == old(data)[n..]
    {
      hide DirectHash, Ring, FirstCut;
      if |data| == 0 {
        return None;
      }
      var chunk_size := FindCut();
      chunk := Some(data[..chunk_size]);
      data := data[chunk_size..];
      rolling_hash.Reset();
    }
  }

  // ----- What chunking preserves -----

  lemma {:induction false} ChunksConcat(data: bytes)
    ensures Concat(Chunks(data)) == data
  {
    if data != [] {
      ChunksConcat(data[FirstCut(data)..]);
    }
  }

  lemma {:induction false} ChunkSizes(data: bytes, i: nat)
    requires i < |Chunks(data)|
    ensures 1 <= |Chunks(data)[i]| <= MAX_CHUNK_SIZE
    ensures i < |Chunks(data)| - 1 ==> MIN_CHUNK_SIZE < |Chunks(data)[i]|
  {
    hide ScanCut, FirstCut, DirectHash;
    var n := FirstCut(data);
    if i == 0 {
      assert |Chunks(data)| > 1 ==> data[n..] != [];
    } else {
      ChunkSizes(data[n..], i - 1);
    }
  }

  // ----- Resynchronisation -----

  /** Does a chunk of `data` end after exactly `n` bytes? */
  predicate IsBoundary(data: bytes, n: nat) {
    n == 0 || (data != [] && FirstCut(data) <= n && IsBoundary(data[FirstCut(data)..], n - FirstCut(data)))
  }

  lemma {:induction false} ScanCutOfPrefix(a: bytes, s: bytes, n: nat)
    requires MIN_CHUNK_SIZE < n <= |a|
    requires ScanCut(a + s, n) <= |a|
    ensures ScanCut(a, n) == ScanCut(a + s, n)
    decreases |a| - n
  {
    hide DirectHash;
    assert (a + s)[MIN_CHUNK_SIZE..n] == a[MIN_CHUNK_SIZE..n];
    if n < |a| && !IsCut(a, n) {
      ScanCutOfPrefix(a, s, n + 1);
    }
  }

  lemma FirstCutOfPrefix(a: bytes, s: bytes)
    requires a != [] && FirstCut(a + s) <= |a|
    ensures FirstCut(a) == FirstCut(a + s)
  {
    hide ScanCut;
    if |a + s| > MIN_CHUNK_SIZE && |a| > MIN_CHUNK_SIZE {
      ScanCutOfPrefix(a, s, MIN_CHUNK_SIZE + 1);
    }
  }

  /** If a boundary falls between `a` and `s`, the chunks are those of `a` and those of `s`. */
  lemma {:induction false} ChunksSplitAtBoundary(a: bytes, s: bytes)
    requires IsBoundary(a + s, |a|)
    ensures Chunks(a + s) == Chunks(a) + Chunks(s)
    decreases |a|
  {
    hide ScanCut, FirstCut;
    if a == [] {
      assert a + s == s;
    } else {
      FirstCutOfPrefix(a, s);
      var n := FirstCut(a);
      assert (a + s)[n..] == a[n..] + s && (a + s)[..n] == a[..n];
      ChunksSplitAtBoundary(a[n..], s);
    }
  }

  /** Two files that share a suffix and have one common boundary at its start or inside it have the
      same chunks from that boundary on. */
  lemma ChunksResynchronise(a: bytes, b: bytes, suffix: bytes, j: nat)
    requires j <= |suffix|
    requires IsBoundary(a + suffix, |a| + j) && IsBoundary(b + suffix, |b| + j)
    ensures Chunks(a + suffix) == Chunks(a + suffix[..j]) + Chunks(suffix[j..])
    ensures Chunks(b + suffix) == Chunks(b + suffix[..j]) + Chunks(suffix[j..])
  {
    hide Chunks, IsBoundary;
    Regroup(a, suffix, j);
    Regroup(b, suffix, j);
    ChunksSplitAtBoundary(a + suffix[..j], suffix[j..]);
    ChunksSplitAtBoundary(b + suffix[..j], suffix[j..]);
  }

  /** Boundaries are exactly the lengths of the leading groups of chunks. */
  lemma {:induction false} BoundaryIsChunkPrefix(data: bytes, n: nat)
    ensures IsBoundary(data, n) <==>
      exists k :: 0 <= k <= |Chunks(data)| && |Concat(Chunks(data)[..k])| == n
  {
    hide FirstCut;
    if data == [] {
      assert Concat(Chunks(data)[..0]) == [];
      assert forall k :: 0 <= k <= |Chunks(data)| ==> Chunks(data)[..k] == [];
    } else {
      var c, rest := FirstCut(data), data[FirstCut(data)..];
      assert Concat(Chunks(data)[..0]) == [];
      forall k | 0 <= k <= |Chunks(rest)|
        ensures |Concat(Chunks(data)[..k + 1])| == c + |Concat(Chunks(rest)[..k])|
      {
        assert Chunks(data)[..k + 1] == [data[..c]] + Chunks(rest)[..k];
      }
      if n >= c {
        BoundaryIsChunkPrefix(rest, n - c);
        if IsBoundary(data, n) && n != 0 {
          var k :| 0 <= k <= |Chunks(rest)| && |Concat(Chunks(rest)[..k])| == n - c;
          assert |Concat(Chunks(data)[..k + 1])| == n;
        }
      }
      if k :| 0 <= k <= |Chunks(data)| && |Concat(Chunks(data)[..k])| == n {
        if k > 0 {
          assert |Concat(Chunks(data)[..(k - 1) + 1])| == c + |Concat(Chunks(rest)[..k - 1])|;
        }
      }
    }
  }
}
