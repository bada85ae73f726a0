/** Serving the reconstructed stream to the game client, block by block, while it is still growing
    (`ClientProxyState` of `src/proxy/client_proxy.rs`). */
module ClientProxy {
  import opened Bytes
  import opened Dedup
  import opened Packets
  import opened ServerProxy

  datatype Client = Client(world_data: bytes, pending: set<nat>, swap: set<nat>, done: bool)

  /** What reaches the state: a block request, any other packet (with the answer of the 60 s test,
      should it be made), new world data, the end of the data. */
  datatype Event = Request(id: nat) | OtherPacket(late: bool) | Data(bytes: bytes) | End

  datatype Out = Answer(id: nat, data: bytes) | ToServer

  // ----- Specification of the steps -----

  predicate Covers(data: bytes, id: nat) { (id + 1) * TRANSFER_BLOCK_SIZE <= |data| }

  function TryFulfill(data: bytes, id: nat): Option<bytes> {
    if Covers(data, id) then Some(BlockOf(data, id)) else None
  }

  /** Answers to those of the parked requests that the data covers, in ascending order. */
  function Answers(parked: set<nat>, data: bytes): seq<Out> {
    if parked == {} then []
    else
      var id := Min(parked);
      (if Covers(data, id) then [Answer(id, BlockOf(data, id))] else []) + Answers(parked - {id}, data)
  }

  function Unanswered(parked: set<nat>, data: bytes): set<nat> {
    set id | id in parked && !Covers(data, id)
  }

  /** A packet from the game client. */
  function ClientEvent(raw: bytes, late: bool): Event {
    match DecodeRequest(raw)
    case Some(id) => Request(id)
    case None => OtherPacket(late)
  }

  function OnEvent(c: Client, e: Event): (Client, seq<Out>) {
    match e
    case Request(id) =>
      if Covers(c.world_data, id) then (c, [Answer(id, BlockOf(c.world_data, id))])
      else (c.(pending := c.pending + {id}), [])
    case OtherPacket(late) =>
      (if c.world_data != [] && c.done && late then c.(world_data := []) else c, [ToServer])
    case Data(new_data) =>
      var data := c.world_data + new_data;
      (Client(data, c.swap + Unanswered(c.pending, data), {}, c.done), Answers(c.pending, data))
    case End => (c.(done := true), [])
  }

  // ----- The class of the source -----

  class ClientProxyState {
    var world_data: bytes
    var pending_requests: set<nat>
    var pending_requests_swap: set<nat>
    var world_data_done: bool

    function Get(): Client
      reads this
    {
      Client(world_data, pending_requests, pending_requests_swap, world_data_done)
    }

    constructor ()
      ensures Get() == Client([], {}, {}, false)
    {
      world_data := [];
      pending_requests := {};
      pending_requests_swap := {};
      world_data_done := false;
    }

    method TryFulfillBlockRequest(id: nat) returns (data: Option<bytes>)
      ensures data == TryFulfill(world_data, id)
      ensures data == if 503 * id + 503 <= |world_data| then Some(world_data[503 * id..503 * id + 503]) else None
    {
      var offset := id * TRANSFER_BLOCK_SIZE;
      if offset + TRANSFER_BLOCK_SIZE <= |world_data| {
        data := Some(world_data[offset..offset + TRANSFER_BLOCK_SIZE]);
      } else {
        data := None;
      }
    }

    method OnPacketFromClient(raw: bytes, late: bool) returns (out: seq<Out>)
      modifies this
      ensures (Get(), out) == OnEvent(old(Get()), ClientEvent(raw, late))
    {
      hide DecodeRequest;
      var request := DecodeRequest(raw);
      if request.Some? {
        out := OnBlockRequest(request.value);
      } else {
        out := OnOtherPacket(late);
      }
    }

    method OnBlockRequest(id: nat) returns (out: seq<Out>)
      modifies this
      ensures (Get(), out) == OnEvent(old(Get()), Request(id))
    {
      out := [];
      var response := TryFulfillBlockRequest(id);
      if response.Some? {
        out := [Answer(id, response.value)];
      } else {
        pending_requests := pending_requests + {id};
      }
    }

    method OnOtherPacket(late: bool) returns (out: seq<Out>)
      modifies this
      ensures (Get(), out) == OnEvent(old(Get()), OtherPacket(late))
    {
      if world_data != [] && world_data_done && late {
        world_data := [];
      }
      out := [ToServer];
    }

    method OnNewWorldData(new_data: Option<bytes>) returns (out: seq<Out>)
      modifies this
      ensures (Get(), out) == OnEvent(old(Get()), if new_data.None? then End else Data(new_data.value))
    {
      out := [];
      if new_data.None? {
        world_data_done := true;
        return;
      }
      world_data := world_data + new_data.value;
      out := AnswerPending();
      pending_requests := {};
      pending_requests, pending_requests_swap := pending_requests_swap, pending_requests;
    }

    /** The loop over the parked requests, in ascending order. */
    method AnswerPending() returns (out: seq<Out>)
      modifies this`pending_requests_swap
      ensures out == Answers(pending_requests, world_data)
      ensures pending_requests_swap == old(pending_requests_swap) + Unanswered(pending_requests, world_data)
    {
      hide Unanswered, BlockOf;
      out := [];
      var rest := pending_requests;
      UnansweredNone(world_data);
      assert pending_requests - rest == {};
      assert old(pending_requests_swap) + {} == old(pending_requests_swap);
      while rest != {}
        invariant rest <= pending_requests
        invariant out + Answers(rest, world_data) == Answers(pending_requests, world_data)
        invariant pending_requests_swap == old(pending_requests_swap) + Unanswered(pending_requests - rest, world_data)
        decreases |rest|
      {
        var id := Min(rest);
        UnansweredMore(pending_requests - rest, id, world_data, old(pending_requests_swap));
        assert pending_requests - (rest - {id}) == (pending_requests - rest) + {id};
        var response := TryFulfillBlockRequest(id);
        if response.Some? {
          Assoc(out, [Answer(id, response.value)], Answers(rest - {id}, world_data));
          out := out + [Answer(id, response.value)];
        } else {
          Assoc(out, [], Answers(rest - {id}, world_data));
          assert out + [] == out;
          pending_requests_swap := pending_requests_swap + {id};
        }
        rest := rest - {id};
      }
      assert out + [] == out && pending_requests - {} == pending_requests;
    }
  }

  lemma UnansweredNone(data: bytes)
    ensures Unanswered({}, data) == {}
  {
  }

  lemma UnansweredMore(parked: set<nat>, id: nat, data: bytes, kept: set<nat>)
    ensures kept + Unanswered(parked + {id}, data)
         == kept + Unanswered(parked, data) + if Covers(data, id) then {} else {id}
  {
  }

  // ----- Runs -----

  function Last<T>(s: seq<T>): T
    requires s != []
  {
    s[|s| - 1]
  }

  function Init<T>(s: seq<T>): seq<T>
    requires s != []
  {
    s[..|s| - 1]
  }

  function After(events: seq<Event>): Client {
    if events == [] then Client([], {}, {}, false) else OnEvent(After(Init(events)), Last(events)).0
  }

  /** Everything sent in the run. */
  function Outs(events: seq<Event>): seq<Out> {
    if events == [] then [] else Outs(Init(events)) + OnEvent(After(Init(events)), Last(events)).1
  }

  /** All world data delivered in the run. */
  function Stream(events: seq<Event>): bytes {
    if events == [] then []
    else Stream(Init(events)) + if Last(events).Data? then Last(events).bytes else []
  }

  /** The driver stops reading world data once it has seen the end. */
  predicate Legal(events: seq<Event>) {
    forall i, j :: 0 <= i < j < |events| && events[i].End? ==> !events[j].Data? && !events[j].End?
  }

  predicate Ended(events: seq<Event>) {
    exists i :: 0 <= i < |events| && events[i].End?
  }

  lemma {:induction false} DoneIffEnd(events: seq<Event>)
    ensures After(events).done <==> Ended(events)
  {
    if events != [] {
      DoneIffEnd(Init(events));
      if i :| 0 <= i < |events| && events[i].End? {
        if i < |events| - 1 {
          assert Init(events)[i].End?;
        }
      }
      if i :| 0 <= i < |Init(events)| && Init(events)[i].End? {
        assert events[i].End?;
      }
    }
  }

  lemma LegalPrefix(events: seq<Event>)
    requires Legal(events) && events != []
    ensures Legal(Init(events))
    ensures Last(events).Data? ==> !After(Init(events)).done
  {
    DoneIffEnd(Init(events));
    assert forall i :: 0 <= i < |Init(events)| ==> Init(events)[i] == events[i];
  }

  /** Between events: the data held is the stream so far (or gone, after the end), no parked request
      could be answered from it, and the swap set is empty. */
  ghost predicate Inv(c: Client, stream: bytes) {
    && (c.world_data == stream || (c.world_data == [] && c.done))
    && (forall id :: id in c.pending ==> !Covers(c.world_data, id))
    && c.swap == {}
  }

  lemma {:induction false} RunInv(events: seq<Event>)
    requires Legal(events)
    ensures Inv(After(events), Stream(events))
  {
    if events != [] {
      LegalPrefix(events);
      RunInv(Init(events));
    }
  }

  lemma {:induction false} AnswersAre(parked: set<nat>, data: bytes, out: Out)
    ensures out in Answers(parked, data) <==>
      out.Answer? && out.id in parked && Covers(data, out.id) && out.data == BlockOf(data, out.id)
  {
    if parked != {} {
      AnswersAre(parked - {Min(parked)}, data, out);
    }
  }

  lemma BlockOfPrefix(data: bytes, more: bytes, id: nat)
    requires Covers(data, id)
    ensures Covers(data + more, id) && BlockOf(data + more, id) == BlockOf(data, id)
  {
  }

  /** Every answer in a run, for whatever block, is that block of the whole stream. */
  lemma {:induction false} AnswersAreFromStream(events: seq<Event>, out: Out)
    requires Legal(events) && out in Outs(events) && out.Answer?
    ensures Covers(Stream(events), out.id) && out.data == BlockOf(Stream(events), out.id)
  {
    hide BlockOf, Covers, Answers;
    LegalPrefix(events);
    RunInv(Init(events));
    var c, e := After(Init(events)), Last(events);
    if out in Outs(Init(events)) {
      AnswersAreFromStream(Init(events), out);
      BlockOfPrefix(Stream(Init(events)), if e.Data? then e.bytes else [], out.id);
    } else if e.Data? {
      AnswersAre(c.pending, c.world_data + e.bytes, out);
    } else {
      assert Stream(events) == Stream(Init(events));
      NothingCovered(out.id);
    }
  }

  lemma NothingCovered(id: nat)
    ensures !Covers([], id)
  {
  }

  // ----- The cleanup, and exactly one answer per parked request -----

  /** Has a late packet arrived after the end of a non-empty stream? */
  predicate Cleaned(events: seq<Event>) {
    events != []
    && (|| Cleaned(Init(events))
        || (Last(events) == OtherPacket(true) && Ended(Init(events)) && Stream(Init(events)) != []))
  }

  function Count(outs: seq<Out>, id: nat): nat {
    if outs == [] then 0
    else Count(Init(outs), id) + if Last(outs).Answer? && Last(outs).id == id then 1 else 0
  }

  /** Requests that found the block available. */
  function Prompt(events: seq<Event>, id: nat): nat {
    if events == [] then 0
    else
      Prompt(Init(events), id)
      + if Last(events) == Request(id) && !Cleaned(Init(events)) && Covers(Stream(Init(events)), id) then 1 else 0
  }

  /** Was the block requested while it was not yet available? */
  predicate Early(events: seq<Event>, id: nat) {
    events != [] && (Early(Init(events), id) ||
      (Last(events) == Request(id) && !Cleaned(Init(events)) && !Covers(Stream(Init(events)), id)))
  }

  /** Was the block requested after the cleanup? */
  predicate Stranded(events: seq<Event>, id: nat) {
    events != [] && (Stranded(Init(events), id) || (Last(events) == Request(id) && Cleaned(Init(events))))
  }

  lemma {:induction false} CleanedIsEnded(events: seq<Event>)
    requires Cleaned(events)
    ensures Ended(events)
  {
    if Cleaned(Init(events)) {
      CleanedIsEnded(Init(events));
    }
    EndedGrows(events);
  }

  lemma EndedGrows(events: seq<Event>)
    requires events != [] && Ended(Init(events))
    ensures Ended(events)
  {
    var i :| 0 <= i < |Init(events)| && Init(events)[i].End?;
    assert events[i].End?;
  }

  /** The data held is the stream, until the cleanup. */
  lemma {:induction false} HoldsStream(events: seq<Event>)
    requires Legal(events)
    ensures After(events).world_data == if Cleaned(events) then [] else Stream(events)
    ensures After(events).swap == {}
  {
    hide Covers, Answers, Ended, Legal;
    if events != [] {
      LegalPrefix(events);
      HoldsStream(Init(events));
      DoneIffEnd(Init(events));
      if Cleaned(Init(events)) {
        CleanedIsEnded(Init(events));
      }
      assert Stream(Init(events)) + [] == Stream(Init(events));
    }
  }

  /** A block is parked exactly if it was asked for early and is still not covered, or was asked for
      after the cleanup. */
  lemma {:induction false} ParkedIff(events: seq<Event>, id: nat)
    requires Legal(events)
    ensures id in After(events).pending <==> (Early(events, id) && !Covers(Stream(events), id)) || Stranded(events, id)
  {
    hide BlockOf, Answers, Ended, Legal, Covers;
    if events != [] {
      var prior, e := Init(events), Last(events);
      LegalPrefix(events);
      HoldsStream(prior);
      ParkedIff(prior, id);
      DoneIffEnd(prior);
      NothingCovered(id);
      assert Stream(prior) + [] == Stream(prior);
      if e.Data? {
        NoneStranded(prior, id);
        if Covers(Stream(prior), id) {
          BlockOfPrefix(Stream(prior), e.bytes, id);
        }
      }
    }
  }

  lemma {:induction false} NoneStranded(events: seq<Event>, id: nat)
    requires !Ended(events)
    ensures !Stranded(events, id) && !Cleaned(events)
  {
    if events != [] {
      if Ended(Init(events)) {
        EndedGrows(events);
      }
      NoneStranded(Init(events), id);
    }
  }

  lemma {:induction false} CountConcat(a: seq<Out>, b: seq<Out>, id: nat)
    ensures Count(a + b, id) == Count(a, id) + Count(b, id)
  {
    if b == [] {
      assert a + b == a;
    } else {
      assert Init(a + b) == a + Init(b);
      CountConcat(a, Init(b), id);
    }
  }

  lemma {:induction false} CountAnswers(parked: set<nat>, data: bytes, id: nat)
    ensures Count(Answers(parked, data), id) == if id in parked && Covers(data, id) then 1 else 0
  {
    hide BlockOf;
    if parked != {} {
      var m := Min(parked);
      CountAnswers(parked - {m}, data, id);
      if Covers(data, m) {
        CountConcat([Answer(m, BlockOf(data, m))], Answers(parked - {m}, data), id);
        CountOne(Answer(m, BlockOf(data, m)), id);
      } else {
        assert [] + Answers(parked - {m}, data) == Answers(parked - {m}, data);
      }
    }
  }

  lemma CountOne(o: Out, id: nat)
    ensures Count([o], id) == if o.Answer? && o.id == id then 1 else 0
    ensures Count([], id) == 0
  {
    assert Init([o]) == [];
  }

  /** Answers to one block that one event causes. */
  lemma CountStep(c: Client, e: Event, id: nat)
    ensures Count(OnEvent(c, e).1, id) ==
            if (e == Request(id) && Covers(c.world_data, id))
              || (e.Data? && id in c.pending && Covers(c.world_data + e.bytes, id)) then 1 else 0
  {
    hide BlockOf, Covers, Answers, Count;
    CountOne(ToServer, id);
    match e
    case Request(r) => CountOne(Answer(r, BlockOf(c.world_data, r)), id);
    case Data(new_data) => CountAnswers(c.pending, c.world_data + new_data, id);
    case OtherPacket(_) =>
    case End =>
  }

  /** A block is answered once for every request that finds it available, and once for all earlier
      requests together, as soon as the data covers it; and never otherwise. */
  lemma {:induction false} AnsweredExactly(events: seq<Event>, id: nat)
    requires Legal(events)
    ensures Count(Outs(events), id)
         == Prompt(events, id) + if Early(events, id) && Covers(Stream(events), id) then 1 else 0
  {
    hide BlockOf, Covers, OnEvent, Legal, Ended;
    if events == [] {
      CountOne(ToServer, id);
    } else {
      var prior, e := Init(events), Last(events);
      LegalPrefix(events);
      AnsweredExactly(prior, id);
      HoldsStream(prior);
      ParkedIff(prior, id);
      DoneIffEnd(prior);
      NothingCovered(id);
      CountConcat(Outs(prior), OnEvent(After(prior), e).1, id);
      CountStep(After(prior), e, id);
      assert Stream(prior) + [] == Stream(prior);
      if e.Data? {
        NoneStranded(prior, id);
        if Covers(Stream(prior), id) {
          BlockOfPrefix(Stream(prior), e.bytes, id);
        }
      }
    }
  }

  /** After the cleanup no answer is ever sent again, every parked request stays parked, and so does
      every new one. */
  lemma {:induction false} NothingAfterCleanup(events: seq<Event>, more: seq<Event>, id: nat)
    requires Cleaned(events) && Legal(events + more)
    ensures Cleaned(events + more)
    ensures Count(Outs(events + more), id) == Count(Outs(events), id)
    ensures id in After(events + more).pending <==> id in After(events).pending || Request(id) in more
    decreases |more|
  {
    hide BlockOf, Covers, Legal, Ended, Count, Answers;
    if more == [] {
      assert events + more == events;
    } else {
      var run := events + more;
      var prior, e := Init(run), Last(run);
      assert prior == events + Init(more) && e == Last(more) && more == Init(more) + [e];
      LegalPrefix(run);
      NothingAfterCleanup(events, Init(more), id);
      HoldsStream(prior);
      CleanedIsEnded(prior);
      DoneIffEnd(prior);
      CountConcat(Outs(prior), OnEvent(After(prior), e).1, id);
      CountStep(After(prior), e, id);
      NothingCovered(id);
      if e.Request? {
        NothingCovered(e.id);
      }
    }
  }

  // ----- What is sent, in numbers -----

  lemma TryFulfillIs(data: bytes, id: nat)
    ensures Covers(data, id) <==> 503 * id + 503 <= |data|
    ensures TryFulfill(data, id) == if 503 * id + 503 <= |data| then Some(data[503 * id..503 * id + 503]) else None
  {
  }

  /** A block request has type 12 and four bytes of block number; any other packet is not looked into. */
  lemma ClientEventIs(raw: bytes, late: bool)
    ensures ClientEvent(raw, late) ==
            if HasType(raw, 12) && |raw| >= 5 then Request(Number32(raw, 1)) else OtherPacket(late)
  {
    hide DecodeRequest, Number32, HasType;
    if HasType(raw, 12) && |raw| >= 5 {
      RequestIff(raw, Number32(raw, 1));
    } else if DecodeRequest(raw).Some? {
      RequestIff(raw, DecodeRequest(raw).value);
    }
  }

  lemma AnswerOf(c: Client, e: Event, id: nat, data: bytes)
    ensures Answer(id, data) in OnEvent(c, e).1 ==>
      503 * id + 503 <= |c.world_data| + (if e.Data? then |e.bytes| else 0)
    ensures Answer(id, data) in OnEvent(c, e).1 <==>
      var held := c.world_data + if e.Data? then e.bytes else [];
      && 503 * id + 503 <= |held| && data == held[503 * id..503 * id + 503]
      && (e == Request(id) || (e.Data? && id in c.pending))
  {
    hide BlockOf, Covers, Answers;
    assert c.world_data + [] == c.world_data;
    var held := c.world_data + if e.Data? then e.bytes else [];
    TryFulfillIs(held, id);
    if e.Data? {
      AnswersAre(c.pending, held, Answer(id, data));
    }
  }

  /** Over a whole run, as long as nothing is cleaned up: a block is sent if and only if it was asked for and all
      its 503 bytes have come, and then it is those bytes. */
  lemma {:induction false} BlockIsSentIff(events: seq<Event>, id: nat, data: bytes)
    requires Legal(events) && !Cleaned(events)
    ensures Answer(id, data) in Outs(events) <==>
      var stream := Stream(events);
      Request(id) in events && 503 * id + 503 <= |stream| && data == stream[503 * id..503 * id + 503]
  {
    hide OnEvent, Legal, Ended;
    if events != [] {
      var prior, e := Init(events), Last(events);
      assert events == prior + [e];
      LegalPrefix(events);
      BlockIsSentIff(prior, id, data);
      AnswerOf(After(prior), e, id, data);
      HoldsStream(prior);
      ParkedIff(prior, id);
      RequestedIff(prior, id);
      TryFulfillIs(Stream(prior), id);
      var stream := Stream(events);
      assert Stream(prior) + [] == Stream(prior);
      assert 503 * id + 503 <= |Stream(prior)| ==>
        stream[503 * id..503 * id + 503] == Stream(prior)[503 * id..503 * id + 503];
    }
  }

  /** A block that was asked for was available then, or was not. */
  lemma {:induction false} RequestedIff(events: seq<Event>, id: nat)
    requires !Cleaned(events)
    ensures !Stranded(events, id)
    ensures Early(events, id) ==> Request(id) in events
    ensures Request(id) in events && !Covers(Stream(events), id) ==> Early(events, id)
  {
    hide Covers;
    if events != [] {
      var prior, e := Init(events), Last(events);
      assert events == prior + [e];
      RequestedIff(prior, id);
      if Covers(Stream(prior), id) {
        BlockOfPrefix(Stream(prior), if e.Data? then e.bytes else [], id);
      }
    }
  }

  function CountToServer(outs: seq<Out>): nat {
    if outs == [] then 0 else CountToServer(Init(outs)) + if Last(outs) == ToServer then 1 else 0
  }

  function CountOther(events: seq<Event>): nat {
    if events == [] then 0 else CountOther(Init(events)) + if Last(events).OtherPacket? then 1 else 0
  }

  lemma {:induction false} CountToServerConcat(a: seq<Out>, b: seq<Out>)
    ensures CountToServer(a + b) == CountToServer(a) + CountToServer(b)
  {
    if b == [] {
      assert a + b == a;
    } else {
      assert Init(a + b) == a + Init(b);
      CountToServerConcat(a, Init(b));
    }
  }

  lemma {:induction false} NoneToServer(outs: seq<Out>)
    requires forall o :: o in outs ==> o.Answer?
    ensures CountToServer(outs) == 0
  {
    if outs != [] {
      assert Last(outs) in outs && forall o :: o in Init(outs) ==> o in outs;
      NoneToServer(Init(outs));
    }
  }

  lemma ToServerStep(c: Client, e: Event)
    ensures CountToServer(OnEvent(c, e).1) == if e.OtherPacket? then 1 else 0
  {
    hide BlockOf, Covers, Answers, CountToServer;
    match e
    case OtherPacket(_) => OneToServer();
    case Data(new_data) => {
      forall o | o in Answers(c.pending, c.world_data + new_data) ensures o.Answer? {
        AnswersAre(c.pending, c.world_data + new_data, o);
      }
      NoneToServer(Answers(c.pending, c.world_data + new_data));
    }
    case Request(_) => NoneToServer(OnEvent(c, e).1);
    case End => NoneToServer([]);
  }

  lemma OneToServer()
    ensures CountToServer([ToServer]) == 1
  {
    assert Init([ToServer]) == [];
  }

  /** Every packet of the game client that is no block request is forwarded, once; nothing else is. */
  lemma {:induction false} ForwardsExactly(events: seq<Event>)
    ensures CountToServer(Outs(events)) == CountOther(events)
  {
    hide OnEvent;
    if events != [] {
      var prior := Init(events);
      ForwardsExactly(prior);
      CountToServerConcat(Outs(prior), OnEvent(After(prior), Last(events)).1);
      ToServerStep(After(prior), Last(events));
    }
  }

  /** The answers to parked requests are sent in ascending order. */
  lemma {:induction false} AnswersAscend(parked: set<nat>, data: bytes)
    ensures var out := Answers(parked, data);
            forall i, j :: 0 <= i < j < |out| ==> out[i].Answer? && out[j].Answer? && out[i].id < out[j].id
  {
    hide BlockOf, Covers;
    if parked != {} {
      var m := Min(parked);
      var rest := Answers(parked - {m}, data);
      AnswersAscend(parked - {m}, data);
      forall j | 0 <= j < |rest| ensures rest[j].Answer? && m < rest[j].id {
        assert rest[j] in rest;
        AnswersAre(parked - {m}, data, rest[j]);
      }
    }
  }

  // ----- The game client gets the world -----

  /** Every block of the finished stream is answered, the last one too. */
  lemma EveryBlockIsServed(info: WorldInfo, world: bytes, aux: bytes, i: nat)
    requires |world| == info.world_size && |aux| == info.aux_size && i < TotalBlocks(info)
    ensures var stream := Reconstruct.Padded(world, aux);
            && TryFulfill(stream, i) == Some(BlockOf(stream, i))
            && 503 * i + 503 <= |stream| && BlockOf(stream, i) == stream[503 * i..503 * i + 503]
  {
    hide TotalBlocks, Reconstruct.Padded;
    SliceOfPadded(info, world, aux);
    TryFulfillIs(Reconstruct.Padded(world, aux), i);
  }

  /** The blocks that are served, one for each number. */
  function ServedBlocks(stream: bytes, n: nat): seq<Block>
    requires forall i: nat :: i < n ==> TryFulfill(stream, i).Some?
  {
    seq(n, i requires 0 <= i < n => Block(i, TryFulfill(stream, i).value))
  }

  /** All blocks of the finished stream are served; put one after the other and cut with the server's own rule,
      they are world and auxiliary data. */
  lemma ServedBlocksAreWorld(info: WorldInfo, world: bytes, aux: bytes)
    requires |world| == info.world_size && |aux| == info.aux_size
    ensures var stream := Reconstruct.Padded(world, aux);
            && (forall i: nat :: i < TotalBlocks(info) ==> TryFulfill(stream, i).Some?)
            && Slice(info, Payload(ServedBlocks(stream, TotalBlocks(info)))) == Some((world, aux))
  {
    hide Slice, Payload, BlockOf, TotalBlocks, Reconstruct.Padded, TryFulfill;
    var stream := Reconstruct.Padded(world, aux);
    forall i: nat | i < TotalBlocks(info) ensures TryFulfill(stream, i) == Some(BlockOf(stream, i)) {
      EveryBlockIsServed(info, world, aux, i);
    }
    SliceOfPadded(info, world, aux);
    PayloadOfBlocks(ServedBlocks(stream, TotalBlocks(info)), stream);
    assert stream[..|stream|] == stream;
  }

  /** A game client that has the whole stream behind it gets every block that it asks for, whenever it asks. */
  lemma EveryRequestIsAnswered(events: seq<Event>, info: WorldInfo, world: bytes, aux: bytes, i: nat)
    requires Legal(events) && !Cleaned(events) && Stream(events) == Reconstruct.Padded(world, aux)
    requires |world| == info.world_size && |aux| == info.aux_size && i < TotalBlocks(info)
    requires Request(i) in events
    ensures Answer(i, BlockOf(Reconstruct.Padded(world, aux), i)) in Outs(events)
  {
    hide BlockOf, TotalBlocks, Reconstruct.Padded, Legal, Cleaned, Outs, Stream, TryFulfill;
    EveryBlockIsServed(info, world, aux, i);
    BlockIsSentIff(events, i, BlockOf(Reconstruct.Padded(world, aux), i));
  }
}
