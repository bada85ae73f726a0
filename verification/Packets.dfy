/** The packets of the game that the proxies look into (`src/factorio_protocol.rs`), and the rewriting of
    the announced world size in forwarded packets (`filter_packet` of `src/proxy/server_proxy.rs`). */
module Packets {
  import opened Bytes

  datatype WorldInfo = WorldInfo(world_size: nat, no_idea1: nat, aux_size: nat, no_idea2: nat, world_crc: nat) {
    predicate Fits() {
      world_size < U32 && no_idea1 < U32 && aux_size < U32 && no_idea2 < U32 && world_crc < U32
    }
  }

  const INFO_SIZE: nat := 20

  function EncodeInfo(info: WorldInfo): (s: bytes)
    ensures |s| == INFO_SIZE
  {
    LeBytes(info.world_size, 4) + LeBytes(info.no_idea1, 4) + LeBytes(info.aux_size, 4) + LeBytes(info.no_idea2, 4)
    + LeBytes(info.world_crc, 4)
  }

  function DecodeInfo(s: bytes): WorldInfo
    requires |s| == INFO_SIZE
  {
    WorldInfo(FromLe(s[..4]), FromLe(s[4..8]), FromLe(s[8..12]), FromLe(s[12..16]), FromLe(s[16..]))
  }

  /** The announcement that the client gets to see: twice the size. */
  function Announced(info: WorldInfo): WorldInfo { info.(world_size := 2 * info.world_size) }

  datatype Block = Block(id: nat, data: bytes)

  /** A packet from the game server, as far as the proxy decodes it. */
  datatype Packet = MapReady(info: WorldInfo) | TransferBlock(block: Block) | MalformedBlock | Other

  const HEARTBEAT: byte := 7
  const TRANSFER_BLOCK_REQUEST: byte := 12
  const TRANSFER_BLOCK: byte := 13
  const HAS_SYNCHRONIZER_ACTIONS: byte := 0x10
  const MAP_READY_FOR_DOWNLOAD: byte := 5

  function PacketType(flags: byte): byte { flags & 0x1F }

  /** Number of actions and where they start: one byte, or 0xFF and four bytes. */
  function ActionCount(raw: bytes): Option<(nat, nat)> {
    if |raw| < 7 then None
    else if raw[6] != 0xFF then Some((NatOf(raw[6]), 7))
    else if |raw| < 11 then None
    else Some((FromLe(raw[7..11]), 11))
  }

  /** Where the announcement starts in a heartbeat whose first action is one: after packet type,
      heartbeat flags, sequence number, action count and action type. */
  function InfoOffset(raw: bytes): (i: Option<nat>)
    ensures i.Some? ==> i.value + INFO_SIZE <= |raw|
  {
    if |raw| < 6 || PacketType(raw[0]) != HEARTBEAT || raw[1] != HAS_SYNCHRONIZER_ACTIONS then None
    else
      match ActionCount(raw)
      case None => None
      case Some((count, next)) =>
        if count > 0 && next < |raw| && raw[next] == MAP_READY_FOR_DOWNLOAD && next + 1 + INFO_SIZE <= |raw|
        then Some(next + 1) else None
  }

  function Decode(raw: bytes): Packet {
    if raw != [] && PacketType(raw[0]) == TRANSFER_BLOCK then
      if |raw| < 5 then MalformedBlock else TransferBlock(Block(FromLe(raw[1..5]), raw[5..]))
    else
      match InfoOffset(raw)
      case None => Other
      case Some(i) => MapReady(DecodeInfo(raw[i..i + INFO_SIZE]))
  }

  /** A block request from the game client. */
  function DecodeRequest(raw: bytes): Option<nat> {
    if raw != [] && PacketType(raw[0]) == TRANSFER_BLOCK_REQUEST && |raw| >= 5 then Some(FromLe(raw[1..5])) else None
  }

  /** The two packets that the proxies send themselves. */
  function EncodeRequest(id: nat): bytes { [TRANSFER_BLOCK_REQUEST] + LeBytes(id, 4) }

  function EncodeBlock(id: nat, data: bytes): bytes { [TRANSFER_BLOCK] + LeBytes(id, 4) + data }

  // ----- Encoding is inverse to decoding -----

  /** The bytes of an announcement are what its decoded form is encoded to. */
  lemma InfoRoundTripBack(s: bytes)
    requires |s| == INFO_SIZE
    ensures DecodeInfo(s).Fits() && EncodeInfo(DecodeInfo(s)) == s
  {
    hide LeBytes, FromLe;
    Power256Values();
    LeRoundTripBack(s[..4]);
    LeRoundTripBack(s[4..8]);
    LeRoundTripBack(s[8..12]);
    LeRoundTripBack(s[12..16]);
    LeRoundTripBack(s[16..]);
  }

  lemma InfoRoundTrip(info: WorldInfo)
    requires info.Fits()
    ensures DecodeInfo(EncodeInfo(info)) == info
  {
    hide LeBytes, FromLe;
    Power256Values();
    var s := EncodeInfo(info);
    assert s[..4] == LeBytes(info.world_size, 4) && s[4..8] == LeBytes(info.no_idea1, 4)
      && s[8..12] == LeBytes(info.aux_size, 4) && s[12..16] == LeBytes(info.no_idea2, 4)
      && s[16..] == LeBytes(info.world_crc, 4);
    LeRoundTrip(info.world_size, 4);
    LeRoundTrip(info.no_idea1, 4);
    LeRoundTrip(info.aux_size, 4);
    LeRoundTrip(info.no_idea2, 4);
    LeRoundTrip(info.world_crc, 4);
  }

  // ----- What is decoded, in terms of the raw bytes -----

  /** The low five bits of the first byte are the packet type. */
  predicate HasType(raw: bytes, kind: byte) { raw != [] && raw[0] & 0x1F == kind }

  /** A block packet has type 13, four bytes of block number, and the block. */
  lemma BlockPacketIff(raw: bytes, id: nat, data: bytes)
    ensures Decode(raw) == TransferBlock(Block(id, data)) <==>
      HasType(raw, 13) && |raw| >= 5 && id == Number32(raw, 1) && data == raw[5..]
    ensures Decode(raw) == MalformedBlock <==> HasType(raw, 13) && |raw| < 5
    ensures Decode(raw).TransferBlock? <==> HasType(raw, 13) && |raw| >= 5
  {
    hide FromLe, InfoOffset;
    if |raw| >= 5 {
      FromLeIsNumber(raw, 1);
    }
  }

  /** What the game server encodes as block `id` is decoded as that. */
  lemma BlockPacketIsDecoded(flags: byte, id: nat, data: bytes)
    requires flags & 0x1F == 13 && id < U32
    ensures Decode([flags] + LeBytes(id, 4) + data) == TransferBlock(Block(id, data))
  {
    hide LeBytes, Decode;
    var raw := [flags] + LeBytes(id, 4) + data;
    assert raw[1..5] == LeBytes(id, 4) && raw[5..] == data;
    LeBytesIsNumber(id, raw, 1);
    BlockPacketIff(raw, id, data);
  }

  lemma RequestIff(raw: bytes, id: nat)
    ensures DecodeRequest(raw) == Some(id) <==> HasType(raw, 12) && |raw| >= 5 && id == Number32(raw, 1)
  {
    hide FromLe;
    if |raw| >= 5 {
      FromLeIsNumber(raw, 1);
    }
  }

  /** What one proxy sends has type, number and data in their places, and the other side decodes it. */
  lemma SentPackets(id: nat, data: bytes)
    requires id < U32
    ensures var request, block := EncodeRequest(id), EncodeBlock(id, data);
            && |request| == 5 && request[0] == 12 && Number32(request, 1) == id && DecodeRequest(request) == Some(id)
            && block[0] == 13 && Number32(block, 1) == id && block[5..] == data
            && Decode(block) == TransferBlock(Block(id, data))
  {
    hide LeBytes, Decode, DecodeRequest, Number32;
    var request, block := EncodeRequest(id), EncodeBlock(id, data);
    assert request[1..5] == LeBytes(id, 4) && block[1..5] == LeBytes(id, 4);
    LeBytesIsNumber(id, request, 1);
    LeBytesIsNumber(id, block, 1);
    OwnTypes();
    RequestIff(request, id);
    BlockPacketIff(block, id, data);
  }

  lemma OwnTypes()
    ensures TRANSFER_BLOCK_REQUEST & 0x1F == 12 && TRANSFER_BLOCK & 0x1F == 13
  {
  }

  /** Where an announcement starts: the action count before it takes one byte, or 0xFF and four more. */
  function AnnouncementStart(raw: bytes): nat
    requires |raw| > 6
  {
    if raw[6] == 0xFF then 12 else 8
  }

  /** A heartbeat (type 7) with the flag 0x10 alone, a sequence number, at least one action, and the action
      type 5 right before the five numbers of the announcement. */
  predicate Announces(raw: bytes, info: WorldInfo) {
    && HasType(raw, 7) && |raw| > 6 && raw[1] == 0x10
    && var i := AnnouncementStart(raw);
       && |raw| >= i + 20 && raw[i - 1] == 5
       && (if i == 8 then raw[6] != 0 else Number32(raw, 7) != 0)
       && info == WorldInfo(Number32(raw, i), Number32(raw, i + 4), Number32(raw, i + 8), Number32(raw, i + 12),
                            Number32(raw, i + 16))
  }

  lemma DecodeInfoIs(raw: bytes, i: nat)
    requires i + 20 <= |raw|
    ensures DecodeInfo(raw[i..i + 20]) ==
            WorldInfo(Number32(raw, i), Number32(raw, i + 4), Number32(raw, i + 8), Number32(raw, i + 12),
                      Number32(raw, i + 16))
  {
    hide FromLe, Number32;
    var s := raw[i..i + 20];
    SliceOfSlice(raw, i, i + 20, 0, 4);
    SliceOfSlice(raw, i, i + 20, 4, 8);
    SliceOfSlice(raw, i, i + 20, 8, 12);
    SliceOfSlice(raw, i, i + 20, 12, 16);
    SliceOfSlice(raw, i, i + 20, 16, 20);
    assert s[..4] == s[0..4] && s[16..] == s[16..20];
    FromLeIsNumber(raw, i);
    FromLeIsNumber(raw, i + 4);
    FromLeIsNumber(raw, i + 8);
    FromLeIsNumber(raw, i + 12);
    FromLeIsNumber(raw, i + 16);
  }

  lemma OffsetIff(raw: bytes)
    ensures InfoOffset(raw).Some? <==>
      && HasType(raw, 7) && |raw| > 6 && raw[1] == 0x10
      && var i := AnnouncementStart(raw);
         && |raw| >= i + 20 && raw[i - 1] == 5 && (if i == 8 then raw[6] != 0 else Number32(raw, 7) != 0)
    ensures InfoOffset(raw).Some? ==> InfoOffset(raw).value == AnnouncementStart(raw)
  {
    hide FromLe, NatOf, Number32;
    if |raw| > 6 {
      NatOfIsValue(raw[6]);
      ByteIsZero(raw[6]);
    }
    if |raw| >= 11 {
      FromLeIsNumber(raw, 7);
    }
  }

  lemma ByteIsZero(b: byte)
    ensures b as nat == 0 <==> b == 0
  {
  }

  lemma AnnouncementIff(raw: bytes, info: WorldInfo)
    ensures Decode(raw) == MapReady(info) <==> Announces(raw, info)
  {
    hide InfoOffset, DecodeInfo, Number32;
    OffsetIff(raw);
    if InfoOffset(raw).Some? {
      DecodeInfoIs(raw, InfoOffset(raw).value);
    }
    TypesDiffer(raw);
  }

  lemma TypesDiffer(raw: bytes)
    ensures !(HasType(raw, 7) && HasType(raw, 13))
  {
  }

  // ----- Finding and replacing -----

  predicate OccursAt<T(==)>(data: seq<T>, needle: seq<T>, i: nat) {
    i + |needle| <= |data| && data[i..i + |needle|] == needle
  }

  predicate Occurs<T(==)>(data: seq<T>, needle: seq<T>) {
    exists i :: 0 <= i < |data| && OccursAt(data, needle, i)
  }

  /** The first occurrence from `i` on, as the substring searcher finds it. */
  function Find<T(==)>(data: seq<T>, needle: seq<T>, i: nat): Option<nat>
    decreases |data| - i
  {
    if i + |needle| > |data| then None
    else if OccursAt(data, needle, i) then Some(i)
    else if i == |data| then None
    else Find(data, needle, i + 1)
  }

  lemma {:induction false} FindIsFirst<T>(data: seq<T>, needle: seq<T>, i: nat, k: nat)
    requires needle != [] && i <= k && OccursAt(data, needle, k)
    ensures Find(data, needle, i).Some? && Find(data, needle, i).value <= k
    decreases k - i
  {
    if i < k && !OccursAt(data, needle, i) {
      FindIsFirst(data, needle, i + 1, k);
    }
  }

  lemma {:induction false} FindIsOccurrence<T>(data: seq<T>, needle: seq<T>, i: nat)
    requires Find(data, needle, i).Some?
    ensures i <= Find(data, needle, i).value && OccursAt(data, needle, Find(data, needle, i).value)
    decreases |data| - i
  {
    hide OccursAt;
    if !OccursAt(data, needle, i) {
      FindIsOccurrence(data, needle, i + 1);
    }
  }

  /** The positions that the search goes through: it continues after each occurrence. */
  function Matches<T(==)>(data: seq<T>, needle: seq<T>, i: nat): seq<nat>
    requires needle != []
    decreases |data| - i
  {
    match Find(data, needle, i)
    case None => []
    case Some(k) =>
      FindIsOccurrence(data, needle, i);
      [k] + Matches(data, needle, k + |needle|)
  }

  lemma MatchesStep<T>(data: seq<T>, needle: seq<T>, i: nat)
    requires needle != []
    ensures Find(data, needle, i).None? ==> Matches(data, needle, i) == []
    ensures Find(data, needle, i).Some? ==>
      var k := Find(data, needle, i).value;
      && i <= k && k + |needle| <= |data| && OccursAt(data, needle, k)
      && Matches(data, needle, i) == [k] + Matches(data, needle, k + |needle|)
  {
    if Find(data, needle, i).Some? {
      FindIsOccurrence(data, needle, i);
    }
  }

  /** Matches are occurrences in ascending order, and do not overlap. */
  lemma {:induction false} MatchesAre<T>(data: seq<T>, needle: seq<T>, i: nat)
    requires needle != []
    ensures var all := Matches(data, needle, i);
            && (forall a :: 0 <= a < |all| ==> i <= all[a] && OccursAt(data, needle, all[a]))
            && AllInside(all, |needle|, |data|) && Disjoint(all, |needle|)
    decreases |data| - i
  {
    hide OccursAt, Matches;
    MatchesStep(data, needle, i);
    if Find(data, needle, i).Some? {
      MatchesAre(data, needle, Find(data, needle, i).value + |needle|);
    }
  }

  ghost predicate Disjoint(positions: seq<nat>, size: nat) {
    forall a, b :: 0 <= a < b < |positions| ==> positions[a] + size <= positions[b]
  }

  /** Index `k` lies in the part that a match at `m` covers. */
  predicate Within(m: nat, size: nat, k: nat) { m <= k < m + size }

  /** Every occurrence starts within a match, so what is not replaced overlaps with what is. */
  lemma {:induction false} OccurrenceIsCovered<T>(data: seq<T>, needle: seq<T>, i: nat, k: nat)
    requires needle != [] && i <= k && OccursAt(data, needle, k)
    ensures exists m :: m in Matches(data, needle, i) && Within(m, |needle|, k)
    decreases |data| - i
  {
    hide OccursAt, Matches;
    FindIsFirst(data, needle, i, k);
    MatchesStep(data, needle, i);
    var j := Find(data, needle, i).value;
    var rest := Matches(data, needle, j + |needle|);
    assert j in Matches(data, needle, i);
    if j + |needle| <= k {
      OccurrenceIsCovered(data, needle, j + |needle|, k);
      var m :| m in rest && Within(m, |needle|, k);
      assert m in Matches(data, needle, i);
    } else {
      assert Within(j, |needle|, k);
    }
  }

  lemma OccursIff<T>(data: seq<T>, needle: seq<T>)
    requires needle != []
    ensures Occurs(data, needle) <==> Matches(data, needle, 0) != []
  {
    hide Matches;
    MatchesStep(data, needle, 0);
    if i :| 0 <= i < |data| && OccursAt(data, needle, i) {
      FindIsFirst(data, needle, 0, i);
    }
  }

  ghost predicate AllInside(positions: seq<nat>, size: nat, total: nat) {
    forall a :: 0 <= a < |positions| ==> positions[a] + size <= total
  }

  function Overwrite<T>(data: seq<T>, i: nat, patch: seq<T>): seq<T>
    requires i + |patch| <= |data|
  {
    data[..i] + patch + data[i + |patch|..]
  }

  /** Overwrites the elements at each position. */
  ghost function OverwriteAll<T>(data: seq<T>, positions: seq<nat>, patch: seq<T>): (r: seq<T>)
    requires AllInside(positions, |patch|, |data|)
    ensures |r| == |data|
  {
    if positions == [] then data
    else
      var n := |positions| - 1;
      Overwrite(OverwriteAll(data, positions[..n], patch), positions[n], patch)
  }

  /** `filter_packet` */
  ghost function Filtered<T>(data: seq<T>, needle: seq<T>, patch: seq<T>): (r: seq<T>)
    requires needle != [] && |needle| == |patch|
    ensures |r| == |data|
  {
    MatchesAre(data, needle, 0);
    OverwriteAll(data, Matches(data, needle, 0), patch)
  }

  lemma OverwriteByte<T>(data: seq<T>, i: nat, patch: seq<T>, k: nat)
    requires i + |patch| <= |data| && k < |data|
    ensures Overwrite(data, i, patch)[k] == if Within(i, |patch|, k) then patch[k - i] else data[k]
  {
  }

  /** What becomes of the element at `k`. */
  lemma {:induction false} OverwrittenByte<T>(data: seq<T>, positions: seq<nat>, patch: seq<T>, k: nat)
    requires AllInside(positions, |patch|, |data|) && Disjoint(positions, |patch|) && k < |data|
    ensures forall a :: 0 <= a < |positions| && Within(positions[a], |patch|, k) ==>
      OverwriteAll(data, positions, patch)[k] == patch[k - positions[a]]
    ensures (forall a :: 0 <= a < |positions| ==> !Within(positions[a], |patch|, k)) ==>
      OverwriteAll(data, positions, patch)[k] == data[k]
  {
    hide Overwrite;
    if positions != [] {
      var n := |positions| - 1;
      OverwrittenByte(data, positions[..n], patch, k);
      OverwriteByte(OverwriteAll(data, positions[..n], patch), positions[n], patch, k);
    }
  }

  /** Bytes within a match are those of the replacement; all other bytes are unchanged. */
  lemma FilteredByte<T>(data: seq<T>, needle: seq<T>, patch: seq<T>, k: nat)
    requires needle != [] && |needle| == |patch| && k < |data|
    ensures forall m :: m in Matches(data, needle, 0) && Within(m, |patch|, k) ==>
      Filtered(data, needle, patch)[k] == patch[k - m]
    ensures (forall m :: m in Matches(data, needle, 0) ==> !Within(m, |patch|, k)) ==>
      Filtered(data, needle, patch)[k] == data[k]
  {
    hide Matches, OverwriteAll, OccursAt, Disjoint, AllInside;
    var all := Matches(data, needle, 0);
    MatchesAre(data, needle, 0);
    OverwrittenByte(data, all, patch, k);
    forall m | m in all && Within(m, |patch|, k) ensures Filtered(data, needle, patch)[k] == patch[k - m] {
      var a :| 0 <= a < |all| && all[a] == m;
    }
  }

  /** A packet without the needle is passed on as it is. */
  lemma FilteredNothing<T>(data: seq<T>, needle: seq<T>, patch: seq<T>)
    requires needle != [] && |needle| == |patch| && !Occurs(data, needle)
    ensures Filtered(data, needle, patch) == data
  {
    OccursIff(data, needle);
  }

  /** The loop of `filter_packet`; `replaced` tells whether the time of the last replacement is set. */
  method FilterPacket(data: bytes, needle: bytes, patch: bytes) returns (new_data: bytes, replaced: bool)
    requires needle != [] && |needle| == |patch|
    ensures new_data == Filtered(data, needle, patch)
    ensures replaced <==> Occurs(data, needle)
  {
    hide OccursAt, Matches, Overwrite, Occurs;
    new_data, replaced := data, false;
    ghost var done: seq<nat> := [];
    ghost var all := Matches(data, needle, 0);
    MatchesAre(data, needle, 0);
    MatchesStep(data, needle, 0);
    var pos: Option<nat> := Find(data, needle, 0);
    while pos.Some?
      invariant pos.None? ==> done == all
      invariant pos.Some? ==> done + [pos.value] + Matches(data, needle, pos.value + |needle|) == all
      invariant AllInside(all, |patch|, |data|)
      invariant AllInside(done, |patch|, |data|) && new_data == OverwriteAll(data, done, patch)
      invariant replaced <==> done != []
      decreases |all| - |done|, pos.Some?
    {
      MatchesStep(data, needle, pos.value + |needle|);
      assert all[|done|] == pos.value;
      assert (done + [pos.value])[..|done|] == done;
      new_data := Overwrite(new_data, pos.value, patch);
      replaced := true;
      done := done + [pos.value];
      pos := Find(data, needle, pos.value + |needle|);
    }
    OccursIff(data, needle);
  }

  // ----- The client sees the new announcement -----

  lemma InfoOffsetPrefix(raw: bytes, raw': bytes, i: nat)
    requires InfoOffset(raw) == Some(i) && |raw'| == |raw| && raw'[..i] == raw[..i]
    ensures InfoOffset(raw') == Some(i) && (i == 8 || i == 12)
    ensures PacketType(raw'[0]) == HEARTBEAT
  {
    hide FromLe, NatOf, PacketType;
    assert forall k :: 0 <= k < i ==> raw'[k] == raw'[..i][k] == raw[k];
    assert i == 12 ==> raw'[7..11] == raw[7..11];
  }

  ghost predicate NotBefore<T>(data: seq<T>, needle: seq<T>, i: nat) {
    forall k :: 0 <= k < i ==> !OccursAt(data, needle, k)
  }

  /** In the announcing packet, the announcement is the first occurrence and so the first match. */
  lemma FirstMatch<T>(data: seq<T>, needle: seq<T>, i: nat)
    requires needle != [] && OccursAt(data, needle, i) && NotBefore(data, needle, i)
    ensures i in Matches(data, needle, 0) && forall m :: m in Matches(data, needle, 0) ==> i <= m
  {
    hide OccursAt, Matches;
    FindIsFirst(data, needle, 0, i);
    MatchesStep(data, needle, 0);
    MatchesAre(data, needle, 0);
  }

  lemma FilteredFromFirst<T>(data: seq<T>, needle: seq<T>, patch: seq<T>, i: nat)
    requires needle != [] && |needle| == |patch| && OccursAt(data, needle, i) && NotBefore(data, needle, i)
    ensures var r := Filtered(data, needle, patch);
            r[..i] == data[..i] && r[i..i + |patch|] == patch
  {
    hide Matches, Filtered;
    var r := Filtered(data, needle, patch);
    FirstMatch(data, needle, i);
    forall k | 0 <= k < |data|
      ensures k < i ==> r[k] == data[k]
      ensures Within(i, |patch|, k) ==> r[k] == patch[k - i]
    {
      FilteredByte(data, needle, patch, k);
    }
  }

  lemma SeenIfFirst(raw: bytes, info: WorldInfo)
    requires Decode(raw) == MapReady(info) && Announced(info).Fits()
    requires NotBefore(raw, EncodeInfo(info), InfoOffset(raw).value)
    ensures Decode(Filtered(raw, EncodeInfo(info), EncodeInfo(Announced(info)))) == MapReady(Announced(info))
  {
    hide EncodeInfo, DecodeInfo, InfoOffset, Filtered, PacketType;
    var i := InfoOffset(raw).value;
    InfoRoundTripBack(raw[i..i + INFO_SIZE]);
    FilteredFromFirst(raw, EncodeInfo(info), EncodeInfo(Announced(info)), i);
    InfoOffsetPrefix(raw, Filtered(raw, EncodeInfo(info), EncodeInfo(Announced(info))), i);
    InfoRoundTrip(Announced(info));
  }

  /** Replacing the needle by itself changes nothing. */
  lemma FilteredBySame<T>(data: seq<T>, needle: seq<T>)
    requires needle != []
    ensures Filtered(data, needle, needle) == data
  {
    hide Matches, Filtered;
    MatchesAre(data, needle, 0);
    var all := Matches(data, needle, 0);
    forall k | 0 <= k < |data| ensures Filtered(data, needle, needle)[k] == data[k] {
      FilteredByte(data, needle, needle, k);
      forall m | m in all && Within(m, |needle|, k) ensures needle[k - m] == data[k] {
        var a :| 0 <= a < |all| && all[a] == m;
        assert data[m..m + |needle|][k - m] == data[k];
      }
    }
  }

  // ----- Overlapping occurrences are periodic -----

  ghost predicate HasPeriod<T>(s: seq<T>, p: nat) {
    forall j :: 0 <= j && j + p < |s| ==> s[j] == s[j + p]
  }

  lemma OverlapIsPeriodic<T>(data: seq<T>, word: seq<T>, k: nat, i: nat)
    requires k <= i && OccursAt(data, word, k) && OccursAt(data, word, i)
    ensures HasPeriod(word, i - k)
  {
    forall j | 0 <= j && j + (i - k) < |word| ensures word[j] == word[j + (i - k)] {
      assert data[i..i + |word|][j] == data[k..k + |word|][j + (i - k)];
    }
  }

  /** Two words that differ in their first four letters at most. */
  ghost predicate SameTail<T>(a: seq<T>, b: seq<T>) {
    |a| == |b| == INFO_SIZE && forall j :: 4 <= j < INFO_SIZE ==> a[j] == b[j]
  }

  lemma {:induction false} SamePeriodAt<T>(a: seq<T>, b: seq<T>, p: nat, j: nat)
    requires SameTail(a, b) && 0 < p <= 12 && HasPeriod(a, p) && HasPeriod(b, p) && j < 16
    ensures a[j] == b[j]
    decreases 16 - j
  {
    if j < 4 {
      SamePeriodAt(a, b, p, j + p);
    }
  }

  lemma {:induction false} ShiftByFour<T>(a: seq<T>, b: seq<T>, p: nat, j: nat)
    requires SameTail(a, b) && 0 < p <= 5 && HasPeriod(a, p) && HasPeriod(b, p + 4) && j + p <= 15
    ensures a[j] == a[j + 4]
    decreases 16 - j
  {
    assert a[j + 4] == a[j + 4 + p];
    if j < 4 {
      ShiftByFour(a, b, p, j + p);
      assert a[j] == a[j + p] && a[j + p] == a[j + p + 4];
    } else {
      assert b[j] == b[j + (p + 4)];
    }
  }

  /** With the same period, or with periods that differ by four, such words are equal. */
  lemma PeriodsDecide<T>(a: seq<T>, b: seq<T>, p: nat, q: nat)
    requires SameTail(a, b) && HasPeriod(a, p) && HasPeriod(b, q)
    requires (q == p && 0 < p <= 12) || (q == p + 4 && 0 < p <= 5)
    ensures a == b
  {
    forall j | 0 <= j < INFO_SIZE ensures a[j] == b[j] {
      if j < 4 && p == q {
        SamePeriodAt(a, b, p, j);
      } else if j < 4 {
        ShiftByFour(a, b, p, j);
        assert a[j + 4] == a[j + 4 + p];
        assert b[j] == b[j + (p + 4)];
      }
    }
  }

  lemma AnnouncedTail(info: WorldInfo)
    ensures SameTail(EncodeInfo(info), EncodeInfo(Announced(info)))
  {
    hide LeBytes;
  }

  /** An announcement of twice the size is the same only for an empty world. */
  lemma AnnouncedIsSame(info: WorldInfo)
    requires info.Fits() && Announced(info).Fits()
    ensures EncodeInfo(info) == EncodeInfo(Announced(info)) <==> info.world_size == 0
  {
    hide EncodeInfo, DecodeInfo;
    InfoRoundTrip(info);
    InfoRoundTrip(Announced(info));
  }

  lemma OffsetIs(raw: bytes)
    requires InfoOffset(raw).Some?
    ensures |raw| > 6 && InfoOffset(raw).value == if raw[6] == 0xFF then 12 else 8
  {
    hide FromLe, NatOf, PacketType;
  }

  lemma AnnouncementAt(raw: bytes, info: WorldInfo)
    requires Decode(raw) == MapReady(info)
    ensures InfoOffset(raw).Some? && info.Fits() && OccursAt(raw, EncodeInfo(info), InfoOffset(raw).value)
  {
    hide EncodeInfo, DecodeInfo, InfoOffset, PacketType;
    var i := InfoOffset(raw).value;
    InfoRoundTripBack(raw[i..i + INFO_SIZE]);
  }

  /** An announcement that has been overwritten from an earlier position on is decoded to the new one only
      if that is the old one: by their overlaps with what was written at `k`, both are periodic. */
  lemma OverwrittenEarlier(raw: bytes, r: bytes, info: WorldInfo, k: nat)
    requires Decode(raw) == MapReady(info) && Announced(info).Fits()
    requires k < InfoOffset(raw).value && OccursAt(raw, EncodeInfo(info), k)
    requires |r| == |raw| && r[..k] == raw[..k] && OccursAt(r, EncodeInfo(Announced(info)), k)
    requires Decode(r) == MapReady(Announced(info))
    ensures info.world_size == 0
  {
    hide EncodeInfo, OccursAt, InfoOffset, HasPeriod, SameTail, Decode;
    AnnouncementAt(raw, info);
    AnnouncementAt(r, Announced(info));
    OffsetIs(raw);
    OffsetIs(r);
    var i, i' := InfoOffset(raw).value, InfoOffset(r).value;
    var needle, patch := EncodeInfo(info), EncodeInfo(Announced(info));
    AnnouncedTail(info);
    AnnouncedIsSame(info);
    if i != i' {
      ChangedByte(raw, r, needle, patch, k);
    }
    OverlapIsPeriodic(raw, needle, k, i);
    OverlapIsPeriodic(r, patch, k, i');
    if i <= i' {
      PeriodsDecide(needle, patch, i - k, i' - k);
    } else {
      SameTailSymmetric(needle, patch);
      PeriodsDecide(patch, needle, i' - k, i - k);
    }
  }

  lemma SameTailSymmetric<T>(a: seq<T>, b: seq<T>)
    requires SameTail(a, b)
    ensures SameTail(b, a)
  {
  }

  /** The byte at 6 can only change if it is among the first four of the match. */
  lemma ChangedByte(raw: bytes, r: bytes, needle: bytes, patch: bytes, k: nat)
    requires |r| == |raw| >= 12 && k < 12 && r[6] != raw[6] && r[..k] == raw[..k]
    requires SameTail(needle, patch) && OccursAt(raw, needle, k) && OccursAt(r, patch, k)
    ensures 3 <= k <= 6
  {
    assert forall j :: 0 <= j < k ==> r[j] == r[..k][j] == raw[j];
    if k <= 6 {
      assert raw[6] == raw[k..k + INFO_SIZE][6 - k] == needle[6 - k];
      assert r[6] == r[k..k + INFO_SIZE][6 - k] == patch[6 - k];
    }
  }

  lemma FirstOccurrence<T>(data: seq<T>, needle: seq<T>, i: nat) returns (k: nat)
    requires !NotBefore(data, needle, i)
    ensures k < i && OccursAt(data, needle, k) && NotBefore(data, needle, k)
  {
    hide OccursAt;
    k := 0;
    while !OccursAt(data, needle, k)
      invariant k < i && NotBefore(data, needle, k)
      decreases i - k
    {
      var m :| 0 <= m < i && OccursAt(data, needle, m);
      assert k < m;
      k := k + 1;
    }
  }

  lemma FirstIfSeen(raw: bytes, info: WorldInfo)
    requires Decode(raw) == MapReady(info) && Announced(info).Fits()
    requires Decode(Filtered(raw, EncodeInfo(info), EncodeInfo(Announced(info)))) == MapReady(Announced(info))
    ensures NotBefore(raw, EncodeInfo(info), InfoOffset(raw).value) || info.world_size == 0
  {
    hide EncodeInfo, InfoOffset, Filtered, Decode, NotBefore;
    AnnouncementAt(raw, info);
    var needle, patch := EncodeInfo(info), EncodeInfo(Announced(info));
    if !NotBefore(raw, needle, InfoOffset(raw).value) {
      var k := FirstOccurrence(raw, needle, InfoOffset(raw).value);
      FilteredFromFirst(raw, needle, patch, k);
      OverwrittenEarlier(raw, Filtered(raw, needle, patch), info, k);
    }
  }

  /** The game client decodes the forwarded announcement to the new one if and only if the bytes of the old
      one do not occur earlier in the packet, or the world is empty (and both are the same). */
  lemma AnnouncementIsRewritten(raw: bytes, info: WorldInfo)
    requires Decode(raw) == MapReady(info) && Announced(info).Fits()
    ensures InfoOffset(raw).Some?
    ensures Decode(Filtered(raw, EncodeInfo(info), EncodeInfo(Announced(info)))) == MapReady(Announced(info))
       <==> NotBefore(raw, EncodeInfo(info), InfoOffset(raw).value) || info.world_size == 0
  {
    hide EncodeInfo, InfoOffset, Filtered, Decode, NotBefore;
    AnnouncementAt(raw, info);
    if Decode(Filtered(raw, EncodeInfo(info), EncodeInfo(Announced(info)))) == MapReady(Announced(info)) {
      FirstIfSeen(raw, info);
    } else if info.world_size == 0 {
      FilteredBySame(raw, EncodeInfo(info));
    } else if NotBefore(raw, EncodeInfo(info), InfoOffset(raw).value) {
      SeenIfFirst(raw, info);
    }
  }

  /** An announcement all of whose bytes are 5. */
  function Fives(): WorldInfo { WorldInfo(0x0505_0505, 0x0505_0505, 0x0505_0505, 0x0505_0505, 0x0505_0505) }

  lemma SmallBytes()
    ensures ByteOf(5) == 5 && ByteOf(10) == 10
  {
    NibbleCast(0);
    NibbleCast(5);
    NibbleCast(10);
  }

  lemma LeStep(n: nat, width: nat)
    requires width > 0
    ensures LeBytes(n, width) == [ByteOf(n % 256)] + LeBytes(n / 256, width - 1)
  {
  }

  lemma FiveBytes()
    ensures LeBytes(0x0505_0505, 4) == [5, 5, 5, 5] && LeBytes(0x0A0A_0A0A, 4)[0] == 10
  {
    hide ByteOf, LeBytes;
    SmallBytes();
    LeStep(0x0505_0505, 4);
    LeStep(0x05_0505, 3);
    LeStep(0x0505, 2);
    LeStep(5, 1);
    LeStep(0x0A0A_0A0A, 4);
  }

  lemma FivesEncode()
    ensures EncodeInfo(Fives()) == seq(20, _ => 5) && EncodeInfo(Announced(Fives()))[0] == 10
  {
    hide LeBytes;
    FiveBytes();
  }

  lemma SeparatorBlocks<T>(data: seq<T>, needle: seq<T>, i: nat)
    requires 0 < i <= |needle| && i <= |data| && data[i - 1] !in needle
    ensures NotBefore(data, needle, i)
  {
    forall k | 0 <= k < i ensures !OccursAt(data, needle, k) {
      if OccursAt(data, needle, k) {
        CoveredIsInNeedle(data, needle, k, i - 1);
      }
    }
  }

  lemma CoveredIsInNeedle<T>(data: seq<T>, needle: seq<T>, m: nat, k: nat)
    requires OccursAt(data, needle, m) && Within(m, |needle|, k)
    ensures data[k] in needle
  {
    assert data[k] == data[m..m + |needle|][k - m] == needle[k - m];
  }

  lemma HeaderDecodes(raw: bytes, action: byte)
    requires |raw| == 28 && raw[..8] == [7, 0x10, 0, 0, 0, 0, 1, action]
    ensures Decode(raw) == if action == 5 then MapReady(DecodeInfo(raw[8..28])) else Other
  {
    hide FromLe, DecodeInfo;
    assert forall k :: 0 <= k < 8 ==> raw[k] == raw[..8][k];
    assert NatOf(1) == 1;
  }

  /** It does happen: here the action type in front of the announcement is taken for the start of a match,
      and the client gets a packet that is no announcement at all. */
  lemma AnnouncementCanBeLost() returns (raw: bytes)
    ensures Decode(raw) == MapReady(Fives())
    ensures Decode(Filtered(raw, EncodeInfo(Fives()), EncodeInfo(Announced(Fives())))) == Other
  {
    hide Filtered, EncodeInfo, DecodeInfo, Decode;
    var fives: bytes := seq(20, _ => 5);
    var needle, patch := EncodeInfo(Fives()), EncodeInfo(Announced(Fives()));
    FivesEncode();
    raw := [7, 0x10, 0, 0, 0, 0, 1, 5] + fives;
    HeaderDecodes(raw, 5);
    assert raw[8..28] == fives;
    InfoRoundTrip(Fives());
    assert raw[7..27] == fives;
    SeparatorBlocks(raw, needle, 7);
    FilteredFromFirst(raw, needle, patch, 7);
    var r := Filtered(raw, needle, patch);
    assert r[7] == r[7..27][0] == patch[0];
    assert r[..8] == r[..7] + [r[7]];
    HeaderDecodes(r, r[7]);
  }
}
