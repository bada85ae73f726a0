/** Downloading the world from the game server, block by block (`ServerProxyState` and the sorting
    and slicing of `transfer_world_data` in `src/proxy/server_proxy.rs`). */
module ServerProxy {
  import opened Bytes
  import opened Dedup
  import opened Packets
  import opened Reconstruct

  const INFLIGHT_BLOCK_REQUEST_LIMIT: nat := 16

  datatype Download = Download(
    info: WorldInfo,
    world_block_count: nat,
    received: seq<Block>,
    queue: set<nat>,
    inflight: set<nat>)

  datatype Phase = WaitingForWorld | DownloadingWorld(state: Download) | Done

  datatype Out = RequestBlock(id: nat) | ToClient(data: bytes)

  /** The proxy and, as history, every download it has handed over. The packet filter looks for the
      announcement it holds. */
  datatype Proxy = Proxy(phase: Phase, comp_stream: bool, filter: Option<WorldInfo>, transfers: seq<Download>)

  /** What the source's 32-bit arithmetic on an announcement needs. */
  predicate InfoFits(info: WorldInfo) {
    && 2 * info.world_size < U32
    && Aligned(info.world_size) + info.aux_size + TRANSFER_BLOCK_SIZE <= U32
  }

  function TotalBlocks(info: WorldInfo): nat { BlockCount(info.world_size) + BlockCount(info.aux_size) }

  // ----- Ordered sets -----

  lemma {:induction false} FindMin(s: set<nat>) returns (m: nat)
    requires s != {}
    ensures m in s && forall x :: x in s ==> m <= x
    decreases |s|
  {
    m :| m in s;
    var rest := s - {m};
    if rest != {} {
      var k := FindMin(rest);
      var low := if m <= k then m else k;
      forall x | x in s ensures low <= x {
        if x != m {
          assert x in rest;
        }
      }
      m := low;
    }
  }

  lemma MinExists(s: set<nat>)
    requires s != {}
    ensures exists m :: m in s && forall x :: x in s ==> m <= x
  {
    var m := FindMin(s);
  }

  /** `BTreeSet::first` */
  function Min(s: set<nat>): (m: nat)
    requires s != {}
    ensures m in s && forall x :: x in s ==> m <= x
  {
    MinExists(s);
    var m :| m in s && forall x :: x in s ==> m <= x;
    m
  }

  /** Requests for the blocks of a set, in its iteration order. */
  function Requests(s: set<nat>): seq<Out> {
    if s == {} then [] else [RequestBlock(Min(s))] + Requests(s - {Min(s)})
  }

  lemma {:induction false} RequestsAll(s: set<nat>, id: nat)
    ensures RequestBlock(id) in Requests(s) <==> id in s
    ensures |Requests(s)| == |s|
  {
    if s != {} {
      RequestsAll(s - {Min(s)}, id);
    }
  }

  // ----- Specification of the steps -----

  /** `request_next_blocks`: fill the window from the front of the queue. */
  function Fill(d: Download): Download
    decreases |d.queue|
  {
    if |d.inflight| < INFLIGHT_BLOCK_REQUEST_LIMIT && d.queue != {} then
      Fill(d.(queue := d.queue - {Min(d.queue)}, inflight := d.inflight + {Min(d.queue)}))
    else d
  }

  function FillRequests(d: Download): seq<Out>
    decreases |d.queue|
  {
    if |d.inflight| < INFLIGHT_BLOCK_REQUEST_LIMIT && d.queue != {} then
      [RequestBlock(Min(d.queue))]
      + FillRequests(d.(queue := d.queue - {Min(d.queue)}, inflight := d.inflight + {Min(d.queue)}))
    else []
  }

  /** The block ids 0, ..., n - 1. */
  function Ids(n: nat): set<nat> {
    if n == 0 then {} else Ids(n - 1) + {n - 1}
  }

  lemma {:induction false} IdsAre(n: nat, i: nat)
    ensures i in Ids(n) <==> i < n
  {
    if n > 0 {
      IdsAre(n - 1, i);
    }
  }

  function StartDownload(info: WorldInfo): Download {
    Download(info, BlockCount(info.world_size), [], Ids(TotalBlocks(info)), {})
  }

  /** A block that was asked for, or is still queued, is kept; any other one is ignored. */
  function Receive(d: Download, block: Block): Download {
    if block.id in d.inflight then
      d.(inflight := d.inflight - {block.id}, received := d.received + [block])
    else if block.id in d.queue then
      d.(queue := d.queue - {block.id}, received := d.received + [block])
    else d
  }

  predicate Complete(d: Download) { d.queue == {} && d.inflight == {} }

  /** A packet with the size rewritten wherever the announcement is found in it. */
  ghost function Rewritten(raw: bytes, info: WorldInfo): bytes {
    Filtered(raw, EncodeInfo(info), EncodeInfo(Announced(info)))
  }

  /** Passing a packet on; `stale` is the answer of the 30 s test, which a replacement just made fails. */
  ghost function Forward(p: Proxy, raw: bytes, stale: bool): (Proxy, Out) {
    match p.filter
    case None => (p, ToClient(raw))
    case Some(info) =>
      (if stale && !Occurs(raw, EncodeInfo(info)) then p.(filter := None) else p, ToClient(Rewritten(raw, info)))
  }

  /** A packet from the game server. The two booleans are the answers of the time tests, if they are made:
      has no block arrived for 100 ms, was nothing replaced for 30 s? */
  datatype Event = Event(raw: bytes, late: bool, stale: bool)

  ghost function OnPacket(p: Proxy, e: Event): (Proxy, seq<Out>) {
    var packet := Decode(e.raw);
    var (passed, out) := Forward(p, e.raw, e.stale);
    match p.phase
    case WaitingForWorld =>
      if packet.MapReady? then
        var d := StartDownload(packet.info);
        (p.(phase := DownloadingWorld(Fill(d)), filter := Some(packet.info)),
         [ToClient(Rewritten(e.raw, packet.info))] + FillRequests(d))
      else (passed, [out])
    case DownloadingWorld(state) =>
      if packet.TransferBlock? then
        var d := Receive(state, packet.block);
        if Complete(d) then (Proxy(Done, false, p.filter, p.transfers + [d]), [])
        else (p.(phase := DownloadingWorld(Fill(d))), FillRequests(d))
      else if packet.MalformedBlock? then (p, [])
      else if e.late then
        (passed.(phase := DownloadingWorld(Fill(state))), Requests(state.inflight) + FillRequests(state) + [out])
      else (passed, [out])
    case Done => (passed, [out])
  }

  // ----- The invariant -----

  function ReceivedIds(received: seq<Block>): set<nat> { set b | b in received :: b.id }

  predicate DistinctIds(received: seq<Block>) {
    forall i, j :: 0 <= i < j < |received| ==> received[i].id != received[j].id
  }

  /** Queued, in-flight and received blocks partition all blocks; none was received twice. */
  ghost predicate Partition(d: Download) {
    && d.queue !! d.inflight
    && (d.queue + d.inflight) !! ReceivedIds(d.received)
    && d.queue + d.inflight + ReceivedIds(d.received) == Ids(TotalBlocks(d.info))
    && DistinctIds(d.received)
    && d.world_block_count == BlockCount(d.info.world_size)
    && InfoFits(d.info)
  }

  /** The window is never over-full, and full as long as something is queued. */
  ghost predicate Windowed(d: Download) {
    && |d.inflight| <= INFLIGHT_BLOCK_REQUEST_LIMIT
    && (d.queue != {} ==> |d.inflight| == INFLIGHT_BLOCK_REQUEST_LIMIT)
  }

  /** The filter, if there is one, looks for the announcement of the download. */
  ghost predicate Inv(p: Proxy) {
    match p.phase
    case WaitingForWorld => p.comp_stream && p.transfers == [] && p.filter == None
    case DownloadingWorld(d) =>
      && p.comp_stream && p.transfers == [] && Partition(d) && Windowed(d)
      && (p.filter == None || p.filter == Some(d.info))
    case Done =>
      && !p.comp_stream && |p.transfers| == 1 && Partition(p.transfers[0]) && Complete(p.transfers[0])
      && (p.filter == None || p.filter == Some(p.transfers[0].info))
  }

  lemma {:induction false} FillKeeps(d: Download)
    requires Partition(d) && |d.inflight| <= INFLIGHT_BLOCK_REQUEST_LIMIT
    ensures Partition(Fill(d)) && Windowed(Fill(d))
    ensures Fill(d).received == d.received && Fill(d).info == d.info
    decreases |d.queue|
  {
    hide InfoFits, Ids, ReceivedIds, BlockCount;
    if |d.inflight| < INFLIGHT_BLOCK_REQUEST_LIMIT && d.queue != {} {
      var m := Min(d.queue);
      var d' := d.(queue := d.queue - {m}, inflight := d.inflight + {m});
      assert d'.queue + d'.inflight == d.queue + d.inflight;
      FillKeeps(d');
    }
  }

  lemma ReceivedAppend(received: seq<Block>, block: Block)
    requires DistinctIds(received) && block.id !in ReceivedIds(received)
    ensures ReceivedIds(received + [block]) == ReceivedIds(received) + {block.id}
    ensures DistinctIds(received + [block])
  {
    var r := received + [block];
    forall i | 0 <= i < |received| ensures received[i].id != block.id {
      assert received[i] in received;
    }
    forall id | id in ReceivedIds(received) + {block.id} ensures id in ReceivedIds(r) {
      if id == block.id {
        assert block in r;
      } else {
        var b :| b in received && b.id == id;
        assert b in r;
      }
    }
  }

  lemma MoveToReceived(queue: set<nat>, inflight: set<nat>, received: set<nat>, id: nat)
    requires queue !! inflight && (queue + inflight) !! received && id in queue + inflight
    ensures (queue - {id}) !! (inflight - {id})
    ensures ((queue - {id}) + (inflight - {id})) !! (received + {id})
    ensures (queue - {id}) + (inflight - {id}) + (received + {id}) == queue + inflight + received
    ensures id in inflight ==> queue - {id} == queue
    ensures id in queue ==> inflight - {id} == inflight
  {
  }

  lemma ReceiveKeeps(d: Download, block: Block)
    requires Partition(d) && |d.inflight| <= INFLIGHT_BLOCK_REQUEST_LIMIT
    ensures Partition(Receive(d, block)) && |Receive(d, block).inflight| <= INFLIGHT_BLOCK_REQUEST_LIMIT
    ensures Receive(d, block).info == d.info
  {
    hide InfoFits, Ids, BlockCount, DistinctIds, ReceivedIds;
    if block.id in d.inflight || block.id in d.queue {
      ReceivedAppend(d.received, block);
      MoveToReceived(d.queue, d.inflight, ReceivedIds(d.received), block.id);
    }
  }

  lemma StartKeeps(info: WorldInfo)
    requires InfoFits(info)
    ensures Partition(StartDownload(info))
  {
    assert ReceivedIds([]) == {};
  }

  /** The proxy computes with an announcement only while it waits for one; later ones are just forwarded. */
  ghost predicate EventFits(p: Proxy, e: Event) {
    p.phase.WaitingForWorld? && Decode(e.raw).MapReady? ==> InfoFits(Decode(e.raw).info)
  }

  lemma ForwardKeeps(p: Proxy, raw: bytes, stale: bool)
    ensures var p' := Forward(p, raw, stale).0;
            && p'.phase == p.phase && p'.comp_stream == p.comp_stream && p'.transfers == p.transfers
            && (p'.filter == p.filter || p'.filter == None)
  {
  }

  /** Every packet, in any order, duplicated or late, keeps the invariant. */
  lemma PacketKeepsInv(p: Proxy, e: Event)
    requires Inv(p) && EventFits(p, e)
    ensures Inv(OnPacket(p, e).0)
  {
    hide Partition, Fill, FillRequests, Receive, StartDownload, Requests, Decode, Forward, InfoFits;
    ForwardKeeps(p, e.raw, e.stale);
    var packet := Decode(e.raw);
    match p.phase
    case WaitingForWorld =>
      if packet.MapReady? {
        StartKeeps(packet.info);
        StartIsIdle(packet.info);
        FillKeeps(StartDownload(packet.info));
      }
    case DownloadingWorld(d) =>
      if packet.TransferBlock? {
        ReceiveKeeps(d, packet.block);
        FillKeeps(Receive(d, packet.block));
      } else {
        FillKeeps(d);
      }
    case Done =>
  }

  lemma StartIsIdle(info: WorldInfo)
    ensures StartDownload(info).inflight == {} && StartDownload(info).info == info
  {
  }

  // ----- Runs -----

  function Initial(): Proxy { Proxy(WaitingForWorld, true, None, []) }

  ghost function Run(p: Proxy, events: seq<Event>): Proxy
    decreases |events|
  {
    if events == [] then p else Run(OnPacket(p, events[0]).0, events[1..])
  }

  /** Does the first announcement that arrives, if any, fit the source's 32-bit arithmetic? */
  predicate FirstFits(events: seq<Event>) {
    events != [] ==>
      match Decode(events[0].raw)
      case MapReady(info) => InfoFits(info)
      case _ => FirstFits(events[1..])
  }

  predicate RunFits(p: Proxy, events: seq<Event>) { p.phase.WaitingForWorld? ==> FirstFits(events) }

  lemma RunFitsStep(p: Proxy, events: seq<Event>)
    requires events != [] && RunFits(p, events)
    ensures EventFits(p, events[0]) && RunFits(OnPacket(p, events[0]).0, events[1..])
  {
    hide Decode, Forward, Fill, InfoFits;
    ForwardKeeps(p, events[0].raw, events[0].stale);
  }

  lemma {:induction false} RunKeepsInv(p: Proxy, events: seq<Event>)
    requires Inv(p) && RunFits(p, events)
    ensures Inv(Run(p, events))
    decreases |events|
  {
    hide Inv, OnPacket, EventFits, RunFits;
    if events != [] {
      RunFitsStep(p, events);
      PacketKeepsInv(p, events[0]);
      RunKeepsInv(OnPacket(p, events[0]).0, events[1..]);
    }
  }

  /** In every reachable downloading state the three sets partition the block ids, and the window
      holds at most 16 requests, exactly 16 while blocks are queued. */
  lemma DownloadIsSafe(events: seq<Event>)
    requires FirstFits(events)
    ensures var p := Run(Initial(), events);
            p.phase.DownloadingWorld? ==>
              var d := p.phase.state;
              && Partition(d)
              && |d.inflight| <= 16 && (d.queue != {} ==> |d.inflight| == 16)
  {
    hide Partition;
    RunKeepsInv(Initial(), events);
  }

  /** A download is handed over at most once, and then with every block, each exactly once. */
  lemma FinalisesOnce(events: seq<Event>)
    requires FirstFits(events)
    ensures var p := Run(Initial(), events);
            && |p.transfers| <= 1
            && (p.transfers != [] <==> p.phase == Done)
            && (p.comp_stream <==> p.phase != Done)
            && forall d :: d in p.transfers ==>
                 DistinctIds(d.received) && ReceivedIds(d.received) == Ids(TotalBlocks(d.info))
  {
    hide Run, Ids, ReceivedIds, DistinctIds, Windowed;
    RunKeepsInv(Initial(), events);
    var p := Run(Initial(), events);
    if p.phase == Done {
      var d := p.transfers[0];
      assert d.queue + d.inflight + ReceivedIds(d.received) == ReceivedIds(d.received);
    }
  }

  /** When nothing has arrived for a while, every block in flight is asked for again, nothing else
      is, and the download does not change. */
  lemma LatePacketRetransmits(events: seq<Event>, e: Event)
    requires FirstFits(events) && e.late && (Decode(e.raw).MapReady? || Decode(e.raw).Other?)
    requires Run(Initial(), events).phase.DownloadingWorld?
    ensures var p := Run(Initial(), events);
            var (passed, out) := Forward(p, e.raw, e.stale);
            OnPacket(p, e) == (passed, Requests(p.phase.state.inflight) + [out])
  {
    hide Partition, Run, Requests, Decode, Forward;
    RunKeepsInv(Initial(), events);
    var p := Run(Initial(), events);
    ForwardKeeps(p, e.raw, e.stale);
    assert Requests(p.phase.state.inflight) + [] == Requests(p.phase.state.inflight);
  }

  // ----- What is asked for -----

  /** Filling the window asks for exactly the blocks that it moves into flight. */
  lemma {:induction false} FillRequestsAre(d: Download, id: nat)
    requires d.queue !! d.inflight
    ensures RequestBlock(id) in FillRequests(d) <==> id in Fill(d).inflight && id !in d.inflight
    ensures d.inflight <= Fill(d).inflight <= d.inflight + d.queue
    decreases |d.queue|
  {
    if |d.inflight| < INFLIGHT_BLOCK_REQUEST_LIMIT && d.queue != {} {
      var m := Min(d.queue);
      FillRequestsAre(d.(queue := d.queue - {m}, inflight := d.inflight + {m}), id);
    }
  }

  function Inflight(p: Proxy): set<nat> {
    if p.phase.DownloadingWorld? then p.phase.state.inflight else {}
  }

  /** Everything sent in a run. */
  ghost function Sent(p: Proxy, events: seq<Event>): seq<Out>
    decreases |events|
  {
    if events == [] then []
    else
      var (p', out) := OnPacket(p, events[0]);
      out + Sent(p', events[1..])
  }

  lemma PacketInflight(p: Proxy, e: Event, id: nat)
    requires Inv(p) && EventFits(p, e)
    requires id in Inflight(OnPacket(p, e).0)
    ensures id in Inflight(p) || RequestBlock(id) in OnPacket(p, e).1
  {
    hide Fill, FillRequests, Requests, Ids, BlockCount, Decode, Forward, InfoFits;
    ForwardKeeps(p, e.raw, e.stale);
    var packet := Decode(e.raw);
    match p.phase
    case WaitingForWorld =>
      if packet.MapReady? {
        FillRequestsAre(StartDownload(packet.info), id);
      }
    case DownloadingWorld(d) =>
      FillRequestsAre(d, id);
      if packet.TransferBlock? {
        FillRequestsAre(Receive(d, packet.block), id);
      }
    case Done =>
  }

  /** A block counts as in flight only if it has been asked for. */
  lemma {:induction false} InflightWasRequested(p: Proxy, events: seq<Event>, id: nat)
    requires Inv(p) && RunFits(p, events) && id in Inflight(Run(p, events))
    ensures id in Inflight(p) || RequestBlock(id) in Sent(p, events)
    decreases |events|
  {
    hide Inv, OnPacket, EventFits, RunFits, Inflight;
    if events != [] {
      RunFitsStep(p, events);
      var (p', out) := OnPacket(p, events[0]);
      PacketKeepsInv(p, events[0]);
      InflightWasRequested(p', events[1..], id);
      if id in Inflight(p') {
        PacketInflight(p, events[0], id);
      }
    }
  }

  // ----- The class of the source -----

  class ServerProxyState {
    var phase: Phase
    var packet_filter: Option<WorldInfo>
    var comp_stream: bool
    ghost var transfers: seq<Download>

    ghost function Get(): Proxy
      reads this
    {
      Proxy(phase, comp_stream, packet_filter, transfers)
    }

    constructor ()
      ensures Get() == Initial()
    {
      phase := WaitingForWorld;
      packet_filter := None;
      comp_stream := true;
      transfers := [];
    }

    method RequestNextBlocks(state: Download, out: seq<Out>) returns (state': Download, out': seq<Out>)
      ensures state' == Fill(state) && out' == out + FillRequests(state)
    {
      state', out' := state, out;
      while |state'.inflight| < INFLIGHT_BLOCK_REQUEST_LIMIT
        invariant Fill(state') == Fill(state)
        invariant out' + FillRequests(state') == out + FillRequests(state)
        decreases |state'.queue|
      {
        if state'.queue == {} {
          return;
        }
        var block_id := Min(state'.queue);
        Assoc(out', [RequestBlock(block_id)],
          FillRequests(state'.(queue := state'.queue - {block_id}, inflight := state'.inflight + {block_id})));
        state' := state'.(queue := state'.queue - {block_id}, inflight := state'.inflight + {block_id});
        out' := out' + [RequestBlock(block_id)];
      }
    }

    /** `finalize_world`; taking the stream cannot fail. */
    method FinalizeWorld(state: Download)
      requires comp_stream
      modifies this
      ensures Get() == Proxy(Done, false, old(packet_filter), old(transfers) + [state])
    {
      phase := Done;
      comp_stream := false;
      transfers := transfers + [state];
    }

    /** The end of `on_packet_from_server`: filter the packet, and stop filtering after a while. */
    method PassOn(raw: bytes, stale: bool) returns (out: Out)
      modifies this`packet_filter
      ensures (Get(), out) == Forward(old(Get()), raw, stale)
    {
      hide Filtered, Occurs, EncodeInfo;
      var data := raw;
      if packet_filter.Some? {
        var info := packet_filter.value;
        var replaced;
        data, replaced := FilterPacket(raw, EncodeInfo(info), EncodeInfo(Announced(info)));
        if stale && !replaced {
          packet_filter := None;
        }
      }
      out := ToClient(data);
    }

    method TransitionToDownloadingWorld(raw: bytes, info: WorldInfo) returns (out: seq<Out>)
      modifies this
      ensures Get() == old(Get()).(phase := DownloadingWorld(Fill(StartDownload(info))), filter := Some(info))
      ensures out == [ToClient(Rewritten(raw, info))] + FillRequests(StartDownload(info))
    {
      hide Filtered, Occurs, EncodeInfo, Fill, FillRequests, StartDownload;
      var data, _ := FilterPacket(raw, EncodeInfo(info), EncodeInfo(Announced(info)));
      packet_filter := Some(info);
      var state;
      state, out := RequestNextBlocks(StartDownload(info), [ToClient(data)]);
      phase := DownloadingWorld(state);
    }

    method OnTransferBlock(s: Download, block: Block) returns (out: seq<Out>)
      requires phase == DownloadingWorld(s) && comp_stream
      modifies this
      ensures var d := Receive(s, block);
        if Complete(d) then Get() == Proxy(Done, false, old(packet_filter), old(transfers) + [d]) && out == []
        else Get() == old(Get()).(phase := DownloadingWorld(Fill(d))) && out == FillRequests(d)
    {
      hide Fill, FillRequests;
      var state := s;
      out := [];
      if block.id in state.inflight {
        state := state.(inflight := state.inflight - {block.id}, received := state.received + [block]);
      } else if block.id in state.queue {
        state := state.(queue := state.queue - {block.id}, received := state.received + [block]);
      }
      if state.queue == {} && state.inflight == {} {
        FinalizeWorld(state);
      } else {
        assert [] + FillRequests(state) == FillRequests(state);
        state, out := RequestNextBlocks(state, out);
        phase := DownloadingWorld(state);
      }
    }

    method OnPacketFromServer(e: Event) returns (out: seq<Out>)
      requires Inv(Get()) && EventFits(Get(), e)
      modifies this
      ensures Inv(Get())
      ensures (Get(), out) == OnPacket(old(Get()), e)
    {
      hide Fill, FillRequests, Requests, Partition, Windowed, Decode, Filtered, Occurs, EncodeInfo, Receive,
        StartDownload;
      PacketKeepsInv(Get(), e);
      var packet := Decode(e.raw);
      out := [];
      match phase {
        case WaitingForWorld =>
          if packet.MapReady? {
            out := TransitionToDownloadingWorld(e.raw, packet.info);
            return;
          }
        case DownloadingWorld(s) =>
          if packet.TransferBlock? {
            out := OnTransferBlock(s, packet.block);
            return;
          }
          if packet.MalformedBlock? {
            return;
          }
          if e.late {
            out := Retransmit(s.inflight);
            var state;
            state, out := RequestNextBlocks(s, out);
            phase := DownloadingWorld(state);
          }
        case Done =>
      }
      var passed := PassOn(e.raw, e.stale);
      assert [] + [passed] == [passed];
      out := out + [passed];
    }

    method Retransmit(inflight: set<nat>) returns (out: seq<Out>)
      ensures out == Requests(inflight)
    {
      var rest := inflight;
      out := [];
      while rest != {}
        invariant out + Requests(rest) == Requests(inflight)
        decreases |rest|
      {
        Assoc(out, [RequestBlock(Min(rest))], Requests(rest - {Min(rest)}));
        out := out + [RequestBlock(Min(rest))];
        rest := rest - {Min(rest)};
      }
      assert Requests({}) == [] && out + [] == out;
    }
  }

  // ----- Reassembly -----

  function InsertById(sorted: seq<Block>, b: Block): seq<Block> {
    if sorted == [] || b.id < sorted[0].id then [b] + sorted else [sorted[0]] + InsertById(sorted[1..], b)
  }

  /** `sort_by_key` on the block id: stable. */
  function SortById(blocks: seq<Block>): seq<Block> {
    if blocks == [] then [] else InsertById(SortById(blocks[..|blocks| - 1]), blocks[|blocks| - 1])
  }

  predicate Ascending(blocks: seq<Block>) {
    forall i, j :: 0 <= i < j < |blocks| ==> blocks[i].id < blocks[j].id
  }

  function Payload(blocks: seq<Block>): bytes {
    if blocks == [] then [] else Payload(blocks[..|blocks| - 1]) + blocks[|blocks| - 1].data
  }

  /** World and auxiliary data, cut out of the received stream; None is the length error. */
  function Slice(info: WorldInfo, stream: bytes): Option<(bytes, bytes)> {
    var aux_data_offset := Aligned(info.world_size);
    AlignedBounds(info.world_size);
    if |stream| < aux_data_offset + info.aux_size then None
    else Some((stream[..info.world_size], stream[aux_data_offset..aux_data_offset + info.aux_size]))
  }

  function Reassemble(d: Download): Option<(bytes, bytes)> {
    Slice(d.info, Payload(SortById(d.received)))
  }

  method TransferWorldData(state: Download) returns (result: Option<(bytes, bytes)>)
    requires Partition(state) && Complete(state)
    ensures result == Reassemble(state)
  {
    hide SortById;
    var blocks := SortById(state.received);
    var received_data: bytes := [];
    for i := 0 to |blocks|
      invariant received_data == Payload(blocks[..i])
    {
      assert blocks[..i + 1][..i] == blocks[..i];
      received_data := received_data + blocks[i].data;
    }
    assert blocks[..|blocks|] == blocks;
    AlignedBounds(state.info.world_size);
    var aux_data_offset := state.world_block_count * TRANSFER_BLOCK_SIZE;
    if |received_data| < aux_data_offset + state.info.aux_size {
      return None;
    }
    result := Some((received_data[..state.info.world_size],
                    received_data[aux_data_offset..aux_data_offset + state.info.aux_size]));
  }

  lemma {:induction false} InsertByIdSorts(sorted: seq<Block>, b: Block)
    requires Ascending(sorted) && forall x :: x in sorted ==> x.id != b.id
    ensures Ascending(InsertById(sorted, b))
    ensures forall x :: x in InsertById(sorted, b) <==> x == b || x in sorted
    ensures |InsertById(sorted, b)| == |sorted| + 1
  {
    if sorted != [] {
      assert sorted[0] in sorted;
      if b.id > sorted[0].id {
        InsertByIdSorts(sorted[1..], b);
        var r := InsertById(sorted[1..], b);
        forall i | 0 <= i < |r| ensures sorted[0].id < r[i].id {
          assert r[i] in r;
        }
        assert forall x :: x in sorted <==> x == sorted[0] || x in sorted[1..];
      }
    }
  }

  lemma {:induction false} SortByIdSorts(blocks: seq<Block>)
    requires DistinctIds(blocks)
    ensures Ascending(SortById(blocks))
    ensures forall x :: x in SortById(blocks) <==> x in blocks
    ensures |SortById(blocks)| == |blocks|
  {
    hide Ascending;
    if blocks == [] {
      assert Ascending([]) by { NoneAscending(); }
    } else {
      var prior, b := blocks[..|blocks| - 1], blocks[|blocks| - 1];
      SortByIdSorts(prior);
      InsertByIdSorts(SortById(prior), b);
      assert forall x :: x in blocks <==> x in prior || x == b;
    }
  }

  lemma NoneAscending()
    ensures Ascending([])
  {
  }

  /** Distinct ids below `n`, `n` of them, ascending: block `i` is at position `i`. */
  lemma {:induction false} AscendingIsIdentity(blocks: seq<Block>, i: nat)
    requires Ascending(blocks) && i < |blocks|
    requires forall b :: b in blocks ==> b.id < |blocks|
    ensures blocks[i].id == i
  {
    AtLeastIndex(blocks, i);
    AtMostIndex(blocks, i);
  }

  lemma {:induction false} AtLeastIndex(blocks: seq<Block>, i: nat)
    requires Ascending(blocks) && i < |blocks|
    ensures blocks[i].id >= i
  {
    if i > 0 {
      AtLeastIndex(blocks, i - 1);
    }
  }

  lemma {:induction false} AtMostIndex(blocks: seq<Block>, i: nat)
    requires Ascending(blocks) && i < |blocks|
    requires forall b :: b in blocks ==> b.id < |blocks|
    ensures blocks[i].id <= i
    decreases |blocks| - i
  {
    assert blocks[i] in blocks;
    if i + 1 < |blocks| {
      AtMostIndex(blocks, i + 1);
    }
  }

  lemma {:induction false} IdsSize(n: nat)
    ensures |Ids(n)| == n
  {
    if n > 0 {
      IdsSize(n - 1);
      IdsAre(n - 1, n - 1);
    }
  }

  lemma {:induction false} ReceivedSize(received: seq<Block>)
    requires DistinctIds(received)
    ensures |ReceivedIds(received)| == |received|
  {
    hide ReceivedIds;
    if received == [] {
      assert ReceivedIds([]) == {} by { NoneReceived(); }
    } else {
      var prior, b := received[..|received| - 1], received[|received| - 1];
      ReceivedSize(prior);
      assert b.id !in ReceivedIds(prior) by { NotReceived(prior, b); }
      ReceivedAppend(prior, b);
      assert received == prior + [b];
    }
  }

  lemma NoneReceived()
    ensures ReceivedIds([]) == {}
  {
  }

  lemma NotReceived(prior: seq<Block>, b: Block)
    requires forall i :: 0 <= i < |prior| ==> prior[i].id != b.id
    ensures b.id !in ReceivedIds(prior)
  {
  }

  /** A complete download, sorted, has block `i` at position `i`. */
  lemma SortedBlocks(d: Download)
    requires Partition(d) && Complete(d)
    ensures var s := SortById(d.received);
            && |s| == TotalBlocks(d.info)
            && (forall b :: b in s <==> b in d.received)
            && forall i :: 0 <= i < |s| ==> s[i].id == i
  {
    hide SortById, Ascending, Ids, InfoFits, BlockCount;
    var n := TotalBlocks(d.info);
    assert ReceivedIds(d.received) == Ids(n) by {
      assert d.queue + d.inflight + ReceivedIds(d.received) == ReceivedIds(d.received);
    }
    SortByIdSorts(d.received);
    ReceivedSize(d.received);
    IdsSize(n);
    var s := SortById(d.received);
    forall b | b in s ensures b.id < |s| {
      assert b.id in ReceivedIds(d.received);
      IdsAre(n, b.id);
    }
    forall i | 0 <= i < |s| ensures s[i].id == i {
      AscendingIsIdentity(s, i);
    }
  }

  /** Where block `i` of a stream starts; the last blocks may be short or empty. */
  function BlockStart(stream: bytes, i: nat): nat {
    if i * TRANSFER_BLOCK_SIZE <= |stream| then i * TRANSFER_BLOCK_SIZE else |stream|
  }

  /** Block `i` of a stream. */
  function BlockOf(stream: bytes, i: nat): bytes {
    stream[BlockStart(stream, i)..BlockStart(stream, i + 1)]
  }

  lemma {:induction false} PayloadOfBlocks(blocks: seq<Block>, stream: bytes)
    requires forall i :: 0 <= i < |blocks| ==> blocks[i].data == BlockOf(stream, i)
    ensures Payload(blocks) == stream[..BlockStart(stream, |blocks|)]
  {
    if blocks != [] {
      var n := |blocks| - 1;
      PayloadOfBlocks(blocks[..n], stream);
      assert blocks[n].data == BlockOf(stream, n);
      JoinSlices(stream, BlockStart(stream, n), BlockStart(stream, n + 1));
    }
  }

  lemma JoinSlices(s: bytes, m: nat, n: nat)
    requires m <= n <= |s|
    ensures s[..m] + s[m..n] == s[..n]
  {
  }

  /** Cutting the block-aligned stream gives back world and auxiliary data. */
  lemma SliceOfPadded(info: WorldInfo, world: bytes, aux: bytes)
    requires |world| == info.world_size && |aux| == info.aux_size
    ensures Slice(info, Padded(world, aux)) == Some((world, aux))
    ensures |Padded(world, aux)| == TotalBlocks(info) * TRANSFER_BLOCK_SIZE
  {
    hide Aligned, BlockCount;
    AlignedBounds(|world|);
    AlignedBounds(|aux|);
    var left := world + Zeros(Aligned(|world|) - |world|);
    var right := aux + Zeros(Aligned(|aux|) - |aux|);
    var stream := Padded(world, aux);
    assert stream == left + right;
    assert stream[..|world|] == world;
    assert stream[Aligned(|world|)..Aligned(|world|) + |aux|] == right[..|aux|] == aux;
    AlignedTotal(info);
  }

  lemma AlignedTotal(info: WorldInfo)
    ensures Aligned(info.world_size) + Aligned(info.aux_size) == TotalBlocks(info) * TRANSFER_BLOCK_SIZE
  {
  }

  /** Has the proxy kept this block? */
  ghost predicate Holds(p: Proxy, b: Block) {
    || (p.phase.DownloadingWorld? && b in p.phase.state.received)
    || exists d :: d in p.transfers && b in d.received
  }

  lemma {:induction false} FillReceivesNothing(d: Download)
    ensures Fill(d).received == d.received
    decreases |d.queue|
  {
    if |d.inflight| < INFLIGHT_BLOCK_REQUEST_LIMIT && d.queue != {} {
      FillReceivesNothing(d.(queue := d.queue - {Min(d.queue)}, inflight := d.inflight + {Min(d.queue)}));
    }
  }

  lemma PacketHolds(p: Proxy, e: Event, b: Block)
    requires Holds(OnPacket(p, e).0, b)
    ensures Holds(p, b) || Decode(e.raw) == TransferBlock(b)
  {
    hide Fill, FillRequests, Requests, StartDownload, Decode, Forward;
    ForwardKeeps(p, e.raw, e.stale);
    var packet := Decode(e.raw);
    match p.phase
    case WaitingForWorld =>
      if packet.MapReady? {
        FillReceivesNothing(StartDownload(packet.info));
        assert StartDownload(packet.info).received == [] by { StartIsEmpty(packet.info); }
      }
    case DownloadingWorld(d) =>
      FillReceivesNothing(d);
      if packet.TransferBlock? {
        FillReceivesNothing(Receive(d, packet.block));
        assert b in Receive(d, packet.block).received ==> b in d.received || b == packet.block;
      }
    case Done =>
  }

  lemma StartIsEmpty(info: WorldInfo)
    ensures StartDownload(info).received == []
  {
  }

  lemma {:induction false} RunHolds(p: Proxy, events: seq<Event>, b: Block)
    requires Holds(Run(p, events), b)
    ensures Holds(p, b) || exists e :: e in events && Decode(e.raw) == TransferBlock(b)
    decreases |events|
  {
    hide Holds, OnPacket, Decode;
    if events != [] {
      assert events[0] in events;
      var p' := OnPacket(p, events[0]).0;
      RunHolds(p', events[1..], b);
      if Holds(p', b) {
        PacketHolds(p, events[0], b);
      }
    }
  }

  /** As much of `s[lo..hi]` as there is. */
  function Piece(s: bytes, lo: nat, hi: nat): bytes
    requires lo <= hi
  {
    s[if lo <= |s| then lo else |s|..if hi <= |s| then hi else |s|]
  }

  lemma BlockOfIsPiece(stream: bytes, i: nat)
    ensures BlockOf(stream, i) == Piece(stream, 503 * i, 503 * i + 503)
  {
  }

  /** Does the packet, if it has type 13 and one of the first `n` block numbers, carry the bytes of that block? */
  predicate Faithful(stream: bytes, n: nat, raw: bytes) {
    HasType(raw, 13) && |raw| >= 5 && Number32(raw, 1) < n ==>
      raw[5..] == Piece(stream, 503 * Number32(raw, 1), 503 * Number32(raw, 1) + 503)
  }

  /** Whatever the order, the duplicates and the losses: if the packets that arrive carry their blocks
      of a source, the download handed over is cut out of that source, and the length error occurs
      exactly if the source is too short. */
  lemma DownloadRecovers(events: seq<Event>, d: Download, source: bytes)
    requires FirstFits(events) && d in Run(Initial(), events).transfers
    requires |source| <= TotalBlocks(d.info) * TRANSFER_BLOCK_SIZE
    requires forall e :: e in events ==> Faithful(source, TotalBlocks(d.info), e.raw)
    ensures Reassemble(d) == Slice(d.info, source)
  {
    hide Run, SortById, Payload, Slice, Partition, Windowed, BlockOf, FirstFits, BlockCount, Decode, Piece, Number32;
    RunKeepsInv(Initial(), events);
    SortedBlocks(d);
    var s := SortById(d.received);
    forall i | 0 <= i < |s| ensures s[i].data == BlockOf(source, i) {
      assert s[i] in s;
      RunHolds(Initial(), events, s[i]);
      var e :| e in events && Decode(e.raw) == TransferBlock(s[i]);
      BlockPacketIff(e.raw, s[i].id, s[i].data);
      BlockOfIsPiece(source, i);
    }
    PayloadOfBlocks(s, source);
    assert source[..|source|] == source;
  }

  /** So world and auxiliary data come back, whether or not the last block is filled up to 503 bytes. */
  lemma DownloadRecoversWorld(events: seq<Event>, d: Download, world: bytes, aux: bytes, tail: bytes)
    requires FirstFits(events) && d in Run(Initial(), events).transfers
    requires |world| == d.info.world_size && |aux| == d.info.aux_size
    requires |aux| + |tail| <= Aligned(|aux|) && |world| <= Aligned(|world|)
    requires forall e :: e in events ==>
      Faithful(world + Zeros(Aligned(|world|) - |world|) + aux + tail, TotalBlocks(d.info), e.raw)
    ensures Reassemble(d) == Some((world, aux))
  {
    hide Run, Reassemble, TotalBlocks, Aligned, BlockCount, FirstFits, Faithful, Decode;
    var left := world + Zeros(Aligned(|world|) - |world|);
    var source := left + aux + tail;
    AlignedTotal(d.info);
    DownloadRecovers(events, d, source);
    assert source[..|world|] == world;
    assert source[|left|..|left| + |aux|] == aux;
  }

  // ----- Progress -----

  /** The blocks that have not been received. */
  function Missing(d: Download): set<nat> { d.queue + d.inflight }

  lemma {:induction false} FillKeepsMissing(d: Download)
    ensures Missing(Fill(d)) == Missing(d)
    decreases |d.queue|
  {
    if |d.inflight| < INFLIGHT_BLOCK_REQUEST_LIMIT && d.queue != {} {
      var m := Min(d.queue);
      var d' := d.(queue := d.queue - {m}, inflight := d.inflight + {m});
      assert Missing(d') == Missing(d);
      FillKeepsMissing(d');
    }
  }

  /** A block that is accepted is missing no more, and nothing else changes that: queue and window
      together shrink by exactly one. */
  lemma AcceptedShrinks(d: Download, block: Block)
    requires Partition(d)
    ensures Missing(Fill(Receive(d, block))) == Missing(d) - {block.id}
    ensures block.id in Missing(d) ==> |Missing(Fill(Receive(d, block)))| == |Missing(d)| - 1
    ensures |Missing(d)| == |d.queue| + |d.inflight|
  {
    hide Fill, Partition;
    assert d.queue !! d.inflight by { PartitionIsDisjoint(d); }
    FillKeepsMissing(Receive(d, block));
  }

  lemma PartitionIsDisjoint(d: Download)
    requires Partition(d)
    ensures d.queue !! d.inflight
  {
  }

  /** The blocks that arrive in a run, whether asked for or not. */
  function Arriving(events: seq<Event>): set<nat> {
    set e | e in events && Decode(e.raw).TransferBlock? :: Decode(e.raw).block.id
  }

  predicate HasBlock(events: seq<Event>) {
    exists e :: e in events && Decode(e.raw).TransferBlock?
  }

  lemma ArrivingSplits(events: seq<Event>)
    requires events != []
    ensures var packet := Decode(events[0].raw);
            && Arriving(events) == Arriving(events[1..]) + (if packet.TransferBlock? then {packet.block.id} else {})
            && (HasBlock(events) <==> packet.TransferBlock? || HasBlock(events[1..]))
  {
    hide Decode;
    assert events == [events[0]] + events[1..];
    assert forall e :: e in events <==> e == events[0] || e in events[1..];
  }

  lemma {:induction false} DoneForever(p: Proxy, events: seq<Event>)
    requires p.phase == Done
    ensures Run(p, events).phase == Done && Run(p, events).transfers == p.transfers
    decreases |events|
  {
    hide Decode, Forward;
    if events != [] {
      ForwardKeeps(p, events[0].raw, events[0].stale);
      DoneForever(OnPacket(p, events[0]).0, events[1..]);
    }
  }

  lemma OtherKeepsMissing(p: Proxy, e: Event)
    requires p.phase.DownloadingWorld? && !Decode(e.raw).TransferBlock?
    ensures var p' := OnPacket(p, e).0;
            p'.phase.DownloadingWorld? && Missing(p'.phase.state) == Missing(p.phase.state)
  {
    hide Fill, Decode, Forward;
    ForwardKeeps(p, e.raw, e.stale);
    FillKeepsMissing(p.phase.state);
  }

  /** A download is handed over if and only if every block still missing arrives at some time, in any
      order and however often; until then exactly the others are missing. (Should nothing be missing,
      as for an empty world, the next block packet of any kind ends the download.) */
  lemma {:induction false} DownloadCompletesIff(p: Proxy, events: seq<Event>)
    requires Inv(p) && p.phase.DownloadingWorld?
    ensures var p' := Run(p, events);
            if Missing(p.phase.state) <= Arriving(events) && HasBlock(events)
            then p'.phase == Done && |p'.transfers| == 1
            else p'.phase.DownloadingWorld? && Missing(p'.phase.state) == Missing(p.phase.state) - Arriving(events)
    decreases |events|
  {
    hide OnPacket, Decode, Inv, Arriving, HasBlock, Missing;
    if events == [] {
      NoneArrives(Missing(p.phase.state));
    } else {
      var p' := OnPacket(p, events[0]).0;
      assert events[0] in events;
      PacketKeepsInv(p, events[0]);
      ArrivingSplits(events);
      if Decode(events[0].raw).TransferBlock? {
        BlockArrives(p, events[0]);
        if p'.phase == Done {
          DoneForever(p', events[1..]);
        } else {
          DownloadCompletesIff(p', events[1..]);
          NotYet(Missing(p'.phase.state), events[1..]);
        }
      } else {
        OtherKeepsMissing(p, events[0]);
        DownloadCompletesIff(p', events[1..]);
      }
    }
  }

  lemma NoneArrives(missing: set<nat>)
    ensures !HasBlock([]) && missing - Arriving([]) == missing
  {
  }

  /** Blocks that are missing need block packets to arrive. */
  lemma NotYet(missing: set<nat>, events: seq<Event>)
    requires missing != {}
    ensures missing <= Arriving(events) ==> HasBlock(events)
  {
    hide Decode;
    if missing <= Arriving(events) {
      var id :| id in missing;
      assert id in Arriving(events);
    }
  }

  lemma BlockArrives(p: Proxy, e: Event)
    requires Inv(p) && p.phase.DownloadingWorld? && Decode(e.raw).TransferBlock?
    ensures var p' := OnPacket(p, e).0;
            var rest := Missing(p.phase.state) - {Decode(e.raw).block.id};
            if rest == {} then p'.phase == Done && |p'.transfers| == 1
            else p'.phase.DownloadingWorld? && Missing(p'.phase.state) == rest
  {
    hide Fill, Decode, Forward, Partition;
    var d, block := p.phase.state, Decode(e.raw).block;
    AcceptedShrinks(d, block);
    FillKeepsMissing(Receive(d, block));
  }

  // ----- What the game client sees -----

  lemma {:induction false} OnlyRequests(s: set<nat>, out: Out)
    requires out in Requests(s)
    ensures out.RequestBlock?
  {
    if s != {} {
      if out != RequestBlock(Min(s)) {
        OnlyRequests(s - {Min(s)}, out);
      }
    }
  }

  lemma {:induction false} OnlyFillRequests(d: Download, out: Out)
    requires out in FillRequests(d)
    ensures out.RequestBlock?
    decreases |d.queue|
  {
    if |d.inflight| < INFLIGHT_BLOCK_REQUEST_LIMIT && d.queue != {} {
      var m := Min(d.queue);
      if out != RequestBlock(m) {
        OnlyFillRequests(d.(queue := d.queue - {m}, inflight := d.inflight + {m}), out);
      }
    }
  }

  /** A packet that does not contain the announcement is not changed by the filter. */
  lemma RewrittenNothing(raw: bytes, info: WorldInfo)
    requires !Occurs(raw, EncodeInfo(info))
    ensures Rewritten(raw, info) == raw
  {
    FilteredNothing(raw, EncodeInfo(info), EncodeInfo(Announced(info)));
  }

  /** A forwarded packet is the packet that came in, with the announced size rewritten while the filter
      is on; the announcement itself turns it on. Packets without the announcement pass unchanged. */
  lemma ForwardedIs(p: Proxy, e: Event, data: bytes)
    requires Inv(p) && ToClient(data) in OnPacket(p, e).1
    ensures p.filter.Some? ==> data == Rewritten(e.raw, p.filter.value)
    ensures p.filter.None? && p.phase.WaitingForWorld? && Decode(e.raw).MapReady? ==>
      data == Rewritten(e.raw, Decode(e.raw).info)
    ensures p.filter.None? && !(p.phase.WaitingForWorld? && Decode(e.raw).MapReady?) ==> data == e.raw
    ensures p.filter.Some? && !Occurs(e.raw, EncodeInfo(p.filter.value)) ==> data == e.raw
  {
    hide Fill, FillRequests, Requests, Decode, Rewritten, Partition, Windowed, Occurs, EncodeInfo;
    if p.filter.Some? && !Occurs(e.raw, EncodeInfo(p.filter.value)) {
      RewrittenNothing(e.raw, p.filter.value);
    }
    var packet := Decode(e.raw);
    if p.phase.WaitingForWorld? && packet.MapReady? && ToClient(data) in FillRequests(StartDownload(packet.info)) {
      OnlyFillRequests(StartDownload(packet.info), ToClient(data));
    }
    if p.phase.DownloadingWorld? {
      var d := p.phase.state;
      if packet.TransferBlock? && ToClient(data) in FillRequests(Receive(d, packet.block)) {
        OnlyFillRequests(Receive(d, packet.block), ToClient(data));
      } else if ToClient(data) in FillRequests(d) {
        OnlyFillRequests(d, ToClient(data));
      } else if ToClient(data) in Requests(d.inflight) {
        OnlyRequests(d.inflight, ToClient(data));
      }
    }
  }

  /** The filter stays on as long as the time test does not find it idle for too long. */
  lemma {:induction false} FilterStaysOn(p: Proxy, events: seq<Event>)
    requires Inv(p) && !p.phase.WaitingForWorld?
    requires forall e :: e in events ==> !e.stale
    ensures Run(p, events).filter == p.filter
    decreases |events|
  {
    hide Fill, FillRequests, Requests, Decode, Rewritten, Partition, Windowed, Receive;
    if events != [] {
      assert events[0] in events;
      PacketKeepsInv(p, events[0]);
      FilterStaysOn(OnPacket(p, events[0]).0, events[1..]);
    }
  }

  /** On the announcement, the download starts, and the game client is sent exactly one packet. That announces
      a world of twice the size, and is otherwise the same announcement, if and only if the bytes of the
      original announcement do not occur earlier in the packet, or the world is empty. */
  lemma ClientSeesTwiceTheSize(p: Proxy, e: Event, info: WorldInfo)
    requires Inv(p) && p.phase == WaitingForWorld && Announces(e.raw, info) && 2 * info.world_size < 0x1_0000_0000
    ensures OnPacket(p, e).0.phase.DownloadingWorld?
    ensures forall data :: ToClient(data) in OnPacket(p, e).1 <==> data == Rewritten(e.raw, info)
    ensures (exists data :: ToClient(data) in OnPacket(p, e).1 && Announces(data,
               WorldInfo(2 * info.world_size, info.no_idea1, info.aux_size, info.no_idea2, info.world_crc)))
       <==> NotBefore(e.raw, EncodeInfo(info), AnnouncementStart(e.raw)) || info.world_size == 0
  {
    hide Fill, FillRequests, Decode, EncodeInfo, NotBefore, InfoOffset, Announces, Rewritten;
    AnnouncementIff(e.raw, info);
    AnnouncementAt(e.raw, info);
    AnnouncementIff(Rewritten(e.raw, info), Announced(info));
    AnnouncementStarts(e.raw, info);
    IsRewritten(e.raw, info);
    forall data ensures ToClient(data) in OnPacket(p, e).1 <==> data == Rewritten(e.raw, info) {
      if ToClient(data) in FillRequests(StartDownload(info)) {
        OnlyFillRequests(StartDownload(info), ToClient(data));
      }
    }
  }

  lemma IsRewritten(raw: bytes, info: WorldInfo)
    requires Decode(raw) == MapReady(info) && Announced(info).Fits()
    ensures InfoOffset(raw).Some?
    ensures Decode(Rewritten(raw, info)) == MapReady(Announced(info))
       <==> NotBefore(raw, EncodeInfo(info), InfoOffset(raw).value) || info.world_size == 0
  {
    hide Decode, EncodeInfo, Filtered, NotBefore, InfoOffset;
    AnnouncementIsRewritten(raw, info);
  }

  lemma AnnouncementStarts(raw: bytes, info: WorldInfo)
    requires Announces(raw, info)
    ensures InfoOffset(raw) == Some(AnnouncementStart(raw))
  {
    hide InfoOffset, Number32;
    OffsetIff(raw);
  }

  // ----- Everything that one packet causes -----

  /** The packets sent to the game client, in order. */
  function Forwarded(out: seq<Out>): seq<bytes> {
    if out == [] then []
    else (if out[0].ToClient? then [out[0].data] else []) + Forwarded(out[1..])
  }

  lemma {:induction false} ForwardedConcat(a: seq<Out>, b: seq<Out>)
    ensures Forwarded(a + b) == Forwarded(a) + Forwarded(b)
  {
    if a == [] {
      assert a + b == b;
    } else {
      assert (a + b)[1..] == a[1..] + b;
      ForwardedConcat(a[1..], b);
      Assoc(if a[0].ToClient? then [a[0].data] else [], Forwarded(a[1..]), Forwarded(b));
    }
  }

  lemma {:induction false} NothingForwarded(out: seq<Out>)
    requires forall o :: o in out ==> o.RequestBlock?
    ensures Forwarded(out) == []
  {
    if out != [] {
      assert out[0] in out;
      NothingForwarded(out[1..]);
    }
  }

  lemma ForwardedOne(data: bytes)
    ensures Forwarded([ToClient(data)]) == [data]
  {
    assert [ToClient(data)][1..] == [];
  }

  lemma OnlyRequestsSent(s: set<nat>, d: Download)
    ensures Forwarded(Requests(s)) == [] && Forwarded(FillRequests(d)) == []
  {
    hide Requests, FillRequests;
    forall o | o in Requests(s) ensures o.RequestBlock? {
      OnlyRequests(s, o);
    }
    forall o | o in FillRequests(d) ensures o.RequestBlock? {
      OnlyFillRequests(d, o);
    }
    NothingForwarded(Requests(s));
    NothingForwarded(FillRequests(d));
  }

  /** The packet as the game client gets it. */
  ghost function Seen(p: Proxy, raw: bytes): bytes {
    match p.filter
    case Some(info) => Rewritten(raw, info)
    case None =>
      match Decode(raw)
      case MapReady(info) => if p.phase.WaitingForWorld? then Rewritten(raw, info) else raw
      case _ => raw
  }

  /** Every packet is passed on to the game client, once and whatever the phase, except block packets during
      the download, which are not. */
  lemma ForwardsOne(p: Proxy, e: Event)
    requires Inv(p)
    ensures Forwarded(OnPacket(p, e).1) ==
            if p.phase.DownloadingWorld? && HasType(e.raw, 13) then [] else [Seen(p, e.raw)]
  {
    hide Fill, FillRequests, Requests, Decode, Rewritten, Partition, Windowed, Forwarded, Receive, StartDownload;
    BlockPacketIff(e.raw, 0, []);
    var packet := Decode(e.raw);
    ForwardedOne(Seen(p, e.raw));
    match p.phase
    case WaitingForWorld =>
      if packet.MapReady? {
        OnlyRequestsSent({}, StartDownload(packet.info));
        ForwardedConcat([ToClient(Rewritten(e.raw, packet.info))], FillRequests(StartDownload(packet.info)));
      }
    case DownloadingWorld(d) =>
      if packet.TransferBlock? {
        OnlyRequestsSent({}, Receive(d, packet.block));
        NothingForwarded([]);
      } else if packet.MalformedBlock? {
        NothingForwarded([]);
      } else {
        OnlyRequestsSent(d.inflight, d);
        ForwardedConcat(Requests(d.inflight), FillRequests(d));
        ForwardedConcat(Requests(d.inflight) + FillRequests(d), [ToClient(Seen(p, e.raw))]);
      }
    case Done =>
  }

  /** Does this packet cause the blocks in flight to be asked for again? */
  predicate Retransmits(p: Proxy, e: Event) { p.phase.DownloadingWorld? && e.late && !HasType(e.raw, 13) }

  lemma {:induction false} FillCounts(d: Download)
    requires d.queue !! d.inflight
    ensures |FillRequests(d)| == |Fill(d).inflight| - |d.inflight|
    decreases |d.queue|
  {
    if |d.inflight| < INFLIGHT_BLOCK_REQUEST_LIMIT && d.queue != {} {
      var m := Min(d.queue);
      FillCounts(d.(queue := d.queue - {m}, inflight := d.inflight + {m}));
    }
  }

  lemma WithoutSubset(a: set<nat>, b: set<nat>)
    requires b <= a
    ensures |a - b| == |a| - |b|
  {
    assert a == (a - b) + b;
  }

  lemma FillAsks(d: Download)
    requires d.queue !! d.inflight
    ensures |FillRequests(d)| == |Fill(d).inflight - d.inflight|
  {
    hide Fill, FillRequests;
    FillCounts(d);
    FillRequestsAre(d, 0);
    WithoutSubset(Fill(d).inflight, d.inflight);
  }

  /** What is asked for: exactly the blocks that become in flight, once each, and after a late packet once more
      the blocks that are in flight. */
  lemma AsksFor(p: Proxy, e: Event, id: nat)
    requires Inv(p)
    ensures var (p', out) := OnPacket(p, e);
            && (RequestBlock(id) in out <==>
                  || (id in Inflight(p') && id !in Inflight(p))
                  || (Retransmits(p, e) && id in Inflight(p)))
            && |out| == |Inflight(p') - Inflight(p)| + (if Retransmits(p, e) then |Inflight(p)| else 0)
                        + |Forwarded(out)|
  {
    hide OnPacket, Decode, Forwarded, HasType, Partition, Windowed;
    ForwardsOne(p, e);
    BlockPacketIff(e.raw, 0, []);
    match p.phase
    case WaitingForWorld => WaitingAsks(p, e, id);
    case DownloadingWorld(d) =>
      if Decode(e.raw).TransferBlock? {
        BlockAsks(p, e, id);
      } else {
        OtherAsks(p, e, id);
      }
    case Done => OtherAsks(p, e, id);
  }

  lemma WaitingAsks(p: Proxy, e: Event, id: nat)
    requires Inv(p) && p.phase == WaitingForWorld
    ensures var (p', out) := OnPacket(p, e);
            && (RequestBlock(id) in out <==> id in Inflight(p') && id !in Inflight(p))
            && |out| == |Inflight(p') - Inflight(p)| + 1
  {
    hide Fill, FillRequests, Decode, Rewritten, Ids, BlockCount;
    var packet := Decode(e.raw);
    if packet.MapReady? {
      var d := StartDownload(packet.info);
      FillRequestsAre(d, id);
      FillAsks(d);
      assert Fill(d).inflight - {} == Fill(d).inflight;
    }
  }

  lemma OtherAsks(p: Proxy, e: Event, id: nat)
    requires Inv(p) && !p.phase.WaitingForWorld? && (p.phase == Done || !Decode(e.raw).TransferBlock?)
    ensures var (p', out) := OnPacket(p, e);
            && (RequestBlock(id) in out <==> Retransmits(p, e) && id in Inflight(p))
            && Inflight(p') == Inflight(p)
            && |out| == (if Retransmits(p, e) then |Inflight(p)| else 0)
                        + (if p.phase.DownloadingWorld? && HasType(e.raw, 13) then 0 else 1)
            && |Inflight(p') - Inflight(p)| == 0
  {
    hide Fill, Requests, FillRequests, Decode, Rewritten, Partition, HasType;
    BlockPacketIff(e.raw, 0, []);
    ForwardKeeps(p, e.raw, e.stale);
    assert Inflight(p) - Inflight(p) == {};
    if p.phase.DownloadingWorld? {
      FillFull(p.phase.state);
      RequestsAll(p.phase.state.inflight, id);
    }
  }

  lemma BlockAsks(p: Proxy, e: Event, id: nat)
    requires Inv(p) && p.phase.DownloadingWorld? && Decode(e.raw).TransferBlock?
    ensures var (p', out) := OnPacket(p, e);
            && (RequestBlock(id) in out <==> id in Inflight(p') && id !in Inflight(p))
            && |out| == |Inflight(p') - Inflight(p)|
  {
    hide Fill, FillRequests, Decode, Forward, Windowed, Partition;
    var d, block := p.phase.state, Decode(e.raw).block;
    PartitionIsDisjoint(d);
    RefillAsks(d, block, id);
    if Complete(Receive(d, block)) {
      assert {} - d.inflight == {};
    }
  }

  lemma RefillAsks(d: Download, block: Block, id: nat)
    requires d.queue !! d.inflight
    ensures var d' := Receive(d, block);
            && (RequestBlock(id) in FillRequests(d') <==> id in Fill(d').inflight && id !in d.inflight)
            && |FillRequests(d')| == |Fill(d').inflight - d.inflight|
  {
    hide Fill, FillRequests;
    var d' := Receive(d, block);
    FillRequestsAre(d', id);
    FillRequestsAre(d', block.id);
    FillAsks(d');
    assert Fill(d').inflight - d'.inflight == Fill(d').inflight - d.inflight;
  }

  /** The window is filled with the smallest block numbers. */
  lemma {:induction false} SmallestFirst(d: Download, id: nat, later: nat)
    requires d.queue !! d.inflight
    requires id in Fill(d).inflight && id !in d.inflight && later in Fill(d).queue
    ensures id < later
    decreases |d.queue|
  {
    if |d.inflight| < INFLIGHT_BLOCK_REQUEST_LIMIT && d.queue != {} {
      var m := Min(d.queue);
      var d' := d.(queue := d.queue - {m}, inflight := d.inflight + {m});
      FillTakesFromQueue(d');
      if id != m {
        SmallestFirst(d', id, later);
      }
    }
  }

  /** Blocks are asked for in ascending order. */
  predicate Ascends(out: seq<Out>) {
    forall i, j :: 0 <= i < j < |out| ==> out[i].RequestBlock? && out[j].RequestBlock? && out[i].id < out[j].id
  }

  lemma AscendsFrom(id: nat, rest: seq<Out>)
    requires Ascends(rest) && forall o :: o in rest ==> o.RequestBlock? && id < o.id
    ensures Ascends([RequestBlock(id)] + rest)
  {
    assert forall j :: 0 <= j < |rest| ==> rest[j] in rest;
  }

  lemma {:induction false} RequestsAscend(s: set<nat>)
    ensures Ascends(Requests(s))
  {
    if s != {} {
      var m := Min(s);
      RequestsAscend(s - {m});
      forall o | o in Requests(s - {m}) ensures o.RequestBlock? && m < o.id {
        OnlyRequests(s - {m}, o);
        RequestsAll(s - {m}, o.id);
      }
      AscendsFrom(m, Requests(s - {m}));
    }
  }

  lemma {:induction false} FillRequestsAscend(d: Download)
    requires d.queue !! d.inflight
    ensures Ascends(FillRequests(d))
    decreases |d.queue|
  {
    hide Ascends;
    if |d.inflight| < INFLIGHT_BLOCK_REQUEST_LIMIT && d.queue != {} {
      var m := Min(d.queue);
      var d' := d.(queue := d.queue - {m}, inflight := d.inflight + {m});
      FillRequestsAscend(d');
      forall o | o in FillRequests(d') ensures o.RequestBlock? && m < o.id {
        OnlyFillRequests(d', o);
        FillRequestsAre(d', o.id);
      }
      AscendsFrom(m, FillRequests(d'));
    } else {
      NothingAscends();
    }
  }

  lemma NothingAscends()
    ensures Ascends([])
  {
  }

  lemma {:induction false} FillTakesFromQueue(d: Download)
    ensures Fill(d).queue <= d.queue
    decreases |d.queue|
  {
    if |d.inflight| < INFLIGHT_BLOCK_REQUEST_LIMIT && d.queue != {} {
      var m := Min(d.queue);
      FillTakesFromQueue(d.(queue := d.queue - {m}, inflight := d.inflight + {m}));
    }
  }

  /** Each block of world and auxiliary data counts, the last ones even if they are not full. */
  lemma TotalBlocksIs(info: WorldInfo)
    ensures TotalBlocks(info) == (info.world_size + 502) / 503 + (info.aux_size + 502) / 503
  {
  }

  /** The announcement starts the download of all its blocks; every other packet before it changes nothing. */
  lemma WaitingEffect(p: Proxy, e: Event)
    requires Inv(p) && p.phase == WaitingForWorld && EventFits(p, e)
    ensures var p' := OnPacket(p, e).0;
            match Decode(e.raw)
            case MapReady(info) =>
              && p'.phase.DownloadingWorld? && p'.phase.state.info == info && p'.phase.state.received == []
              && p'.filter == Some(info)
              && forall id :: id in Missing(p'.phase.state) <==>
                   0 <= id < (info.world_size + 502) / 503 + (info.aux_size + 502) / 503
            case _ => p' == p
  {
    hide Fill, FillRequests, Decode, Rewritten, Ids, BlockCount, InfoFits;
    var packet := Decode(e.raw);
    if packet.MapReady? {
      var info := packet.info;
      StartKeeps(info);
      StartIsIdle(info);
      StartIsEmpty(info);
      FillKeeps(StartDownload(info));
      FillKeepsMissing(StartDownload(info));
      TotalBlocksIs(info);
      forall id: nat ensures id in Ids(TotalBlocks(info)) <==> id < TotalBlocks(info) {
        IdsAre(TotalBlocks(info), id);
      }
      assert Missing(StartDownload(info)) == Ids(TotalBlocks(info)) by {
        assert StartDownload(info).queue + {} == StartDownload(info).queue;
      }
    }
  }

  /** During the download a block that is missing is kept and any other is ignored; the last missing one ends
      the download. */
  lemma BlockEffect(p: Proxy, e: Event, d: Download, block: Block)
    requires Inv(p) && p.phase == DownloadingWorld(d) && Decode(e.raw) == TransferBlock(block)
    ensures var p' := OnPacket(p, e).0;
            var received := if block.id in Missing(d) then d.received + [block] else d.received;
            && p'.filter == p.filter
            && if Missing(d) - {block.id} == {} then
                 && p'.phase == Done && !p'.comp_stream && |p'.transfers| == 1
                 && p'.transfers[0].received == received && p'.transfers[0].info == d.info
               else
                 && p'.phase.DownloadingWorld? && p'.comp_stream && p'.transfers == []
                 && p'.phase.state.received == received && p'.phase.state.info == d.info
                 && Missing(p'.phase.state) == Missing(d) - {block.id}
  {
    hide Fill, FillRequests, Decode, Forward, Partition, Windowed;
    BlockArrives(p, e);
    FillReceivesNothing(Receive(d, block));
    FillKeepsInfo(Receive(d, block));
  }

  lemma {:induction false} FillKeepsInfo(d: Download)
    ensures Fill(d).info == d.info
    decreases |d.queue|
  {
    if |d.inflight| < INFLIGHT_BLOCK_REQUEST_LIMIT && d.queue != {} {
      var m := Min(d.queue);
      FillKeepsInfo(d.(queue := d.queue - {m}, inflight := d.inflight + {m}));
    }
  }

  /** Any other packet, during the download or after it, can only end the filtering, which takes a positive time
      test and no replacement. */
  lemma OtherEffect(p: Proxy, e: Event)
    requires Inv(p) && !p.phase.WaitingForWorld? && (p.phase == Done || !Decode(e.raw).TransferBlock?)
    ensures var p' := OnPacket(p, e).0;
            && p'.comp_stream == p.comp_stream && p'.transfers == p.transfers && p'.phase == p.phase
            && p'.filter ==
               if p.filter.Some? && e.stale && !Occurs(e.raw, EncodeInfo(p.filter.value))
                  && !(p.phase.DownloadingWorld? && HasType(e.raw, 13))
               then None else p.filter
  {
    hide Fill, Decode, Rewritten, Partition, Occurs, EncodeInfo;
    BlockPacketIff(e.raw, 0, []);
    if p.phase.DownloadingWorld? {
      FillFull(p.phase.state);
    }
  }

  lemma FillFull(d: Download)
    requires Windowed(d)
    ensures Fill(d) == d && FillRequests(d) == []
  {
  }

  // ----- A whole download, from the raw packets -----

  lemma {:induction false} RunJoins(p: Proxy, a: seq<Event>, b: seq<Event>)
    ensures Run(p, a + b) == Run(Run(p, a), b)
    decreases |a|
  {
    hide OnPacket;
    if a == [] {
      assert a + b == b;
    } else {
      assert (a + b)[1..] == a[1..] + b;
      RunJoins(OnPacket(p, a[0]).0, a[1..], b);
    }
  }

  lemma {:induction false} StaysWaiting(p: Proxy, events: seq<Event>)
    requires Inv(p) && p.phase == WaitingForWorld && forall e :: e in events ==> !Decode(e.raw).MapReady?
    ensures Run(p, events) == p
    decreases |events|
  {
    hide OnPacket, Decode;
    if events != [] {
      assert events[0] in events;
      WaitingEffect(p, events[0]);
      StaysWaiting(p, events[1..]);
    }
  }

  /** All downloads of the state are of this world. */
  ghost predicate Downloads(p: Proxy, info: WorldInfo) {
    && !p.phase.WaitingForWorld?
    && (p.phase.DownloadingWorld? ==> p.phase.state.info == info)
    && forall d :: d in p.transfers ==> d.info == info
  }

  lemma {:induction false} DownloadsStay(p: Proxy, events: seq<Event>, info: WorldInfo)
    requires Inv(p) && Downloads(p, info)
    ensures Downloads(Run(p, events), info)
    decreases |events|
  {
    hide OnPacket, Decode, Inv;
    if events != [] {
      var p' := OnPacket(p, events[0]).0;
      PacketKeepsInv(p, events[0]);
      if p.phase.DownloadingWorld? && Decode(events[0].raw).TransferBlock? {
        BlockEffect(p, events[0], p.phase.state, Decode(events[0].raw).block);
      } else {
        OtherEffect(p, events[0]);
      }
      DownloadsStay(p', events[1..], info);
    }
  }

  /** Is there a packet of type 13 with this block number? */
  predicate Arrives(events: seq<Event>, id: nat) {
    exists e :: e in events && HasType(e.raw, 13) && |e.raw| >= 5 && Number32(e.raw, 1) == id
  }

  lemma ArrivesIff(events: seq<Event>, id: nat)
    ensures Arrives(events, id) <==> id in Arriving(events)
    ensures Arrives(events, id) ==> HasBlock(events)
  {
    hide Decode, Number32, HasType;
    forall e | e in events
      ensures HasType(e.raw, 13) && |e.raw| >= 5 <==> Decode(e.raw).TransferBlock?
      ensures Decode(e.raw).TransferBlock? ==> Decode(e.raw).block.id == Number32(e.raw, 1)
    {
      BlockPacketIff(e.raw, 0, []);
      if Decode(e.raw).TransferBlock? {
        BlockPacketIff(e.raw, Decode(e.raw).block.id, Decode(e.raw).block.data);
      }
    }
  }

  /** The world and its auxiliary data, each filled up to whole blocks, the last one not necessarily. */
  ghost predicate IsSource(source: bytes, world: bytes, aux: bytes) {
    exists tail: bytes ::
      && source == world + Zeros(Aligned(|world|) - |world|) + aux + tail
      && |aux| + |tail| <= Aligned(|aux|)
  }

  /** From the packets alone: after the first announcement, if every block of the announced world arrives, in any
      order and among any other packets, and what arrives as a block of it has the bytes of that block, then
      the download is handed over once, and is cut into exactly the world and its auxiliary data. */
  lemma WholeDownload(before: seq<Event>, announcement: Event, after: seq<Event>, info: WorldInfo, world: bytes,
                      aux: bytes, source: bytes)
    requires forall e, i :: e in before ==> !Announces(e.raw, i)
    requires Announces(announcement.raw, info) && InfoFits(info)
    requires |world| == info.world_size && |aux| == info.aux_size && |world| + |aux| > 0
    requires |world| <= Aligned(|world|) && IsSource(source, world, aux)
    requires forall id :: 0 <= id < (|world| + 502) / 503 + (|aux| + 502) / 503 ==> Arrives(after, id)
    requires forall e :: e in before + [announcement] + after ==>
      Faithful(source, (|world| + 502) / 503 + (|aux| + 502) / 503, e.raw)
    ensures var p := Run(Initial(), before + [announcement] + after);
            p.phase == Done && |p.transfers| == 1 && Reassemble(p.transfers[0]) == Some((world, aux))
  {
    hide Decode, Announces, OnPacket, Inv, InfoFits, Reassemble, Faithful, Arrives, Arriving, HasBlock, FirstFits,
      Aligned, TotalBlocks;
    var all := before + [announcement] + after;
    AfterAnnouncement(before, announcement, after, info);
    var p1 := OnPacket(Initial(), announcement).0;
    TotalBlocksIs(info);
    forall id | id in Missing(p1.phase.state) ensures id in Arriving(after) {
      ArrivesIff(after, id);
    }
    ArrivesIff(after, 0);
    assert HasBlock(after);
    DownloadCompletesIff(p1, after);
    var p := Run(Initial(), all);
    assert p.transfers[0].info == info;
    var tail: bytes :| source == world + Zeros(Aligned(|world|) - |world|) + aux + tail
      && |aux| + |tail| <= Aligned(|aux|);
    DownloadRecoversWorld(all, p.transfers[0], world, aux, tail);
  }

  lemma AfterAnnouncement(before: seq<Event>, announcement: Event, after: seq<Event>, info: WorldInfo)
    requires forall e, i :: e in before ==> !Announces(e.raw, i)
    requires Announces(announcement.raw, info) && InfoFits(info)
    ensures var p1 := OnPacket(Initial(), announcement).0;
            && Inv(p1) && p1.phase.DownloadingWorld?
            && (forall id :: id in Missing(p1.phase.state) <==>
                  0 <= id < (info.world_size + 502) / 503 + (info.aux_size + 502) / 503)
            && Run(Initial(), before + [announcement] + after) == Run(p1, after)
            && Downloads(Run(p1, after), info)
            && FirstFits(before + [announcement] + after)
  {
    hide Decode, Announces, OnPacket, InfoFits, FirstFits;
    var p1 := OnPacket(Initial(), announcement).0;
    forall e | e in before ensures !Decode(e.raw).MapReady? {
      if Decode(e.raw).MapReady? {
        AnnouncementIff(e.raw, Decode(e.raw).info);
      }
    }
    AnnouncementIff(announcement.raw, info);
    StaysWaiting(Initial(), before);
    RunJoins(Initial(), before, [announcement] + after);
    assert before + [announcement] + after == before + ([announcement] + after);
    assert ([announcement] + after)[1..] == after;
    WaitingEffect(Initial(), announcement);
    PacketKeepsInv(Initial(), announcement);
    DownloadsStay(p1, after, info);
    FirstAnnouncementFits(before, announcement, after);
  }

  lemma {:induction false} FirstAnnouncementFits(before: seq<Event>, announcement: Event, after: seq<Event>)
    requires forall e :: e in before ==> !Decode(e.raw).MapReady?
    requires Decode(announcement.raw).MapReady? && InfoFits(Decode(announcement.raw).info)
    ensures FirstFits(before + [announcement] + after)
  {
    hide Decode, InfoFits;
    var all := before + [announcement] + after;
    if before == [] {
      assert all[0] == announcement;
    } else {
      assert before[0] in before && all[0] == before[0];
      FirstAnnouncementFits(before[1..], announcement, after);
      assert all[1..] == before[1..] + [announcement] + after;
    }
  }
}
