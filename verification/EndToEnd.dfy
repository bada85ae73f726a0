/** Server and client together: a world is taken apart, transferred and rebuilt, and the rebuilt
    world reads back as the original one. */
module EndToEnd {
  import opened Bytes
  import opened Keys
  import opened Crc32
  import opened RevCrc
  import opened Chunker
  import opened ChunkCache
  import opened ZipFormat
  import opened Dedup
  import opened Reconstruct
  import opened Transfer
  import opened ChunkStore
  import Packets
  import ServerProxy

  function ChunksIn(log: seq<Entry>): set<bytes> { set e | e in log :: e.chunk }

  /** What is made of authentic chunks under the keys of a file is the file. */
  lemma MadeOfIsData(foreign: Foreign, data: bytes, made: bytes, log: seq<Entry>)
    requires MadeOf(KeysOf(foreign.hash, Chunks(data)), made, log) && Protocol.Authentic(log, foreign.hash)
    requires NoCollisions(foreign, data, ChunksIn(log))
    ensures made == data
  {
    hide Chunks;
    var chunks := Chunks(data);
    var keys := KeysOf(foreign.hash, chunks);
    var parts: seq<bytes> :| |parts| == |keys| && Concat(parts) == made
      && forall i :: 0 <= i < |keys| ==> Entry(keys[i], parts[i]) in log;
    forall i | 0 <= i < |chunks| ensures parts[i] == chunks[i] {
      assert Entry(keys[i], parts[i]) in log;
      assert parts[i] in ChunksIn(log) && chunks[i] in chunks;
    }
    assert parts == chunks;
    ChunksConcat(data);
  }

  lemma RebuiltIsEncoded(foreign: Foreign, path: bytes, file: FactorioFile, f: ZipFile, log: seq<Entry>)
    requires Rebuilt(foreign, DescribeFile(foreign, path, file), f, log) && Protocol.Authentic(log, foreign.hash)
    requires NoCollisions(foreign, file.data, ChunksIn(log))
    ensures f == ZipFile(path, EncodeFactorioFile(foreign, file))
  {
    hide MadeOf, NoCollisions, Chunks, EncodeFactorioFile, ChunksIn, Protocol.Authentic;
    var data :| MadeOf(DescribeFile(foreign, path, file).content_chunks, data, log)
      && f == Encoded(foreign, DescribeFile(foreign, path, file), data);
    MadeOfIsData(foreign, file.data, data, log);
  }

  lemma {:induction false} MemberAt(files: seq<ZipFile>, i: nat, j: nat)
    requires j <= i < |files|
    ensures |Members(files, j)| == |files| - j
    ensures Members(files, j)[i - j] == MemberOf(files[i])
    decreases i - j
  {
    if j < i {
      MemberAt(files, i, j + 1);
    } else {
      MembersLength(files, j + 1);
    }
  }

  lemma {:induction false} MembersLength(files: seq<ZipFile>, j: nat)
    requires j <= |files|
    ensures |Members(files, j)| == |files| - j
    decreases |files| - j
  {
    if j < |files| {
      MembersLength(files, j + 1);
    }
  }

  /** The archive `world` has the files of the original, by name and in order, and each decodes to the
      same content as the original one. */
  ghost predicate SameWorld(foreign: Foreign, raw: seq<RawFile>, world: bytes) {
    match ReadZip(world)
    case None => false
    case Some(members) =>
      && |members| == |raw|
      && forall i :: 0 <= i < |raw| ==>
           && members[i].name == raw[i].name
           && DecodeFactorioFile(foreign, raw[i].name, raw[i].content).Some?
           && DecodeFactorioFile(foreign, members[i].name, members[i].data)
              == DecodeFactorioFile(foreign, raw[i].name, raw[i].content)
  }

  /** What the game client can count on, given the announced sizes and CRC. */
  ghost predicate Delivered(foreign: Foreign, raw: seq<RawFile>, aux: bytes, size: nat, crc: word, stream: bytes) {
    && |stream| % TRANSFER_BLOCK_SIZE == 0
    && match ServerProxy.Slice(Packets.WorldInfo(size, 0, |aux|, 0, 0), stream)
       case None => false
       case Some((world, aux')) =>
         && |world| == size && aux' == aux
         && Checksum(world + aux) == crc
         && SameWorld(foreign, raw, world)
  }

  /** The archive entries of a decoded world. */
  function ZippedFiles(foreign: Foreign, raw: seq<RawFile>, files: seq<FactorioFile>): (zipped: seq<ZipFile>)
    requires |files| == |raw|
    ensures |zipped| == |raw|
  {
    seq(|raw|, i requires 0 <= i < |raw| => ZipFile(raw[i].name, EncodeFactorioFile(foreign, files[i])))
  }

  lemma MemberDecodes(foreign: Foreign, raw: seq<RawFile>, i: nat)
    requires foreign.ZlibOk() && DecodeAll(foreign, raw).Some? && i < |raw|
    requires |DecodeAll(foreign, raw).value| == |raw|
    ensures var zipped := ZippedFiles(foreign, raw, DecodeAll(foreign, raw).value);
            && zipped[i].name == raw[i].name
            && DecodeFactorioFile(foreign, raw[i].name, raw[i].content).Some?
            && DecodeFactorioFile(foreign, raw[i].name, zipped[i].data)
               == DecodeFactorioFile(foreign, raw[i].name, raw[i].content)
  {
    hide DecodeFactorioFile, EncodeFactorioFile, DecodeAll;
    DecodedAt(foreign, raw, i);
    DecodeAgain(foreign, raw[i].name, raw[i].content);
  }

  predicate AllFit(files: seq<ZipFile>) {
    forall f :: f in files ==> FileFits(f)
  }

  lemma WorldIsSame(foreign: Foreign, raw: seq<RawFile>, aux: bytes, size: nat, crc: word)
    requires foreign.ZlibOk() && DecodeAll(foreign, raw).Some?
    requires |DecodeAll(foreign, raw).value| == |raw| < Bytes.U16
    requires AllFit(ZippedFiles(foreign, raw, DecodeAll(foreign, raw).value))
    requires MinimalSize(ZippedFiles(foreign, raw, DecodeAll(foreign, raw).value)) <= size < Bytes.U32
    ensures SameWorld(foreign, raw, World(ZippedFiles(foreign, raw, DecodeAll(foreign, raw).value), aux, size, crc))
  {
    hide World, ReadZip, MinimalSize, DecodeFactorioFile, ZippedFiles, DecodeAll, FileFits, Members;
    var zipped := ZippedFiles(foreign, raw, DecodeAll(foreign, raw).value);
    WorldIsZip(zipped, aux, size, crc);
    MembersLength(zipped, 0);
    forall i | 0 <= i < |raw|
      ensures Members(zipped, 0)[i] == MemberOf(zipped[i]) && zipped[i].name == raw[i].name
      ensures DecodeFactorioFile(foreign, raw[i].name, raw[i].content).Some?
      ensures DecodeFactorioFile(foreign, raw[i].name, zipped[i].data)
           == DecodeFactorioFile(foreign, raw[i].name, raw[i].content)
    {
      MemberAt(zipped, i, 0);
      MemberDecodes(foreign, raw, i);
    }
  }

  lemma PaddedIsDelivered(foreign: Foreign, raw: seq<RawFile>, world: bytes, aux: bytes, crc: word)
    requires SameWorld(foreign, raw, world) && Checksum(world + aux) == crc
    ensures Delivered(foreign, raw, aux, |world|, crc, Padded(world, aux))
  {
    hide SameWorld, Checksum, Padded, ServerProxy.Slice, ServerProxy.TotalBlocks;
    var info := Packets.WorldInfo(|world|, 0, |aux|, 0, 0);
    ServerProxy.SliceOfPadded(info, world, aux);
    MultipleMod(ServerProxy.TotalBlocks(info));
  }

  /** The server's side of a request: every chunk it is asked for has to be in its map. */
  function ServerAnswer(chunks: map<ChunkKey, bytes>, keys: seq<ChunkKey>): Option<seq<bytes>> {
    if forall i :: 0 <= i < |keys| ==> keys[i] in chunks
    then Some(seq(|keys|, i requires 0 <= i < |keys| => chunks[keys[i]]))
    else None
  }

  /** The environment in which the server answers from its chunk map. The given environment's own
      answers only tell whether the connection holds. */
  function Served(env: Environment, chunks: map<ChunkKey, bytes>): Environment {
    env.(answer := (n: nat, keys: seq<ChunkKey>) =>
      if env.answer(n, keys).None? then None else ServerAnswer(chunks, keys))
  }

  ghost predicate NeverDrops(env: Environment) {
    forall n, keys :: env.answer(n, keys).Some?
  }

  /** The server has what it described, under the right hashes. */
  lemma ServerIsHonest(env: Environment, foreign: Foreign, raw: seq<RawFile>, files: seq<FactorioFile>, n: nat,
                       keys: seq<ChunkKey>)
    requires |files| == |raw| && AllDescribed(DescribeAll(foreign, raw, files), keys)
    ensures var a := Served(env, WorldChunks(foreign, files)).answer(n, keys);
            && (a.None? <==> env.answer(n, keys).None?)
            && (a.Some? ==> |a.value| == |keys| && !WrongHash(foreign, keys, a.value))
  {
    hide WorldChunks, DescribeAll;
    WorldChunksHold(foreign, raw, files);
    forall i | 0 <= i < |keys| ensures keys[i] in WorldChunks(foreign, files) {
      assert Described(DescribeAll(foreign, raw, files), keys[i]);
    }
  }

  // ----- The run of a delivery -----

  /** What the client's loop does when the server has taken this world apart. */
  function Delivery(foreign: Foreign, env: Environment, me: nat, raw: seq<RawFile>, files: seq<FactorioFile>,
                    sys: Protocol.System): (Option<Failure>, Moment)
    requires |files| == |raw|
  {
    var descs := DescribeAll(foreign, raw, files);
    Play(foreign, Served(env, WorldChunks(foreign, files)), me, descs, 0, Start(sys, descs))
  }

  /** Among all chunks that went through the shared cache, none collides with a chunk of the world. */
  ghost predicate NoneCollides(foreign: Foreign, files: seq<FactorioFile>, log: seq<Entry>) {
    forall f :: f in files ==> NoCollisions(foreign, f.data, ChunksIn(log))
  }

  /** How a delivery can fail with the server of this model: the connection broke on a request, a file is too
      large, more was inserted into the shared cache than it can hold, or another task never fulfils a batch
      that this task waits for. */
  ghost predicate DeliveryFailure(env: Environment, me: nat, failure: Failure, last: Protocol.System) {
    match failure
    case TransportError => BrokenOff(env, me, last)
    case EntryTooLarge => true
    case WaitedChunkEvicted => Overflowed(last) && exists s ::
      Protocol.Loses(s, Protocol.Collect(me)) && last == Protocol.Apply(s, Protocol.Collect(me))
    case LockWasPoisoned => Overflowed(last)
    case Blocked => BlockedByOther(env, me, last)
    case HashMismatch => false
    case WrongAnswerCount => false
    case EmptiedChunkList => false
  }

  /** The connection broke when this task asked for a batch, which it then dropped. */
  ghost predicate BrokenOff(env: Environment, me: nat, sys: Protocol.System) {
    exists n, event ::
      Protocol.IsBatchOf(sys, me, event) && event in sys.abandoned && env.answer(n, sys.batches[event]) == None
  }

  /** This task waits for a batch of another one, which is never fulfilled. */
  ghost predicate BlockedByOther(env: Environment, me: nat, sys: Protocol.System) {
    me in sys.waiters && exists n, task, w ::
      w in sys.waiters[me] && Protocol.IsBatchOf(sys, task, w.event) && task != me && NeverCloses(env, n, sys, w.event)
  }

  lemma {:induction false} ServedWaits(env: Environment, chunks: map<ChunkKey, bytes>, n: nat, s: Protocol.System,
                                       k: nat)
    ensures Waited(Served(env, chunks), n, s, k) == Waited(env, n, s, k)
  {
    hide Protocol.Run;
    if k > 0 {
      ServedWaits(env, chunks, n, s, k - 1);
    }
  }

  lemma ServedNeverCloses(env: Environment, chunks: map<ChunkKey, bytes>, n: nat, s: Protocol.System, event: nat)
    requires NeverCloses(Served(env, chunks), n, s, event)
    ensures NeverCloses(env, n, s, event)
  {
    hide Waited;
    forall k ensures event !in Waited(env, n, s, k).cache.closed {
      ServedWaits(env, chunks, n, s, k);
      assert event !in Waited(Served(env, chunks), n, s, k).cache.closed;
    }
  }

  /** The server has no influence on the other tasks. */
  lemma ServedSchedules(env: Environment, chunks: map<ChunkKey, bytes>, hash: Hash, me: nat)
    requires Schedules(env, hash, me)
    ensures Schedules(Served(env, chunks), hash, me)
  {
    hide Protocol.Reachable, Protocol.AllClosed, Waited, Protocol.Legal, Protocol.ByOthers;
    forall n, s, k ensures Waited(Served(env, chunks), n, s, k) == Waited(env, n, s, k) {
      ServedWaits(env, chunks, n, s, k);
    }
    forall n, s | Protocol.Reachable(s, hash) && me in s.waiters
      ensures WakeOk(Served(env, chunks), n, s, s.waiters[me])
    {
      assert WakeOk(env, n, s, s.waiters[me]);
    }
  }

  lemma FailuresAre(foreign: Foreign, env: Environment, me: nat, raw: seq<RawFile>, files: seq<FactorioFile>,
                    failure: Failure, last: Moment)
    requires |files| == |raw|
    requires Reason(foreign, Served(env, WorldChunks(foreign, files)), me, DescribeAll(foreign, raw, files), failure,
                    last)
    ensures DeliveryFailure(env, me, failure, last.sys)
  {
    hide WorldChunks, DescribeAll, Served, AllDescribed, TooLarge, Overflowed, WrongHash, NeverCloses,
      Protocol.Apply, Protocol.Loses, HasKey;
    if !failure.EntryTooLarge? {
      var chunks, descs := WorldChunks(foreign, files), DescribeAll(foreign, raw, files);
      var full := Served(env, chunks);
      var n :| Cause(foreign, full, me, descs, n, failure, last.sys);
      forall event | Dropped(descs, me, last.sys, event)
        ensures var keys := last.sys.batches[event];
                && (full.answer(n, keys).None? <==> env.answer(n, keys).None?)
                && (full.answer(n, keys).Some? ==>
                      |full.answer(n, keys).value| == |keys| && !WrongHash(foreign, keys, full.answer(n, keys).value))
      {
        ServerIsHonest(env, foreign, raw, files, n, last.sys.batches[event]);
      }
      if failure.Blocked? {
        var w, task :| w in last.sys.waiters[me] && Protocol.IsBatchOf(last.sys, task, w.event) && task != me
          && NeverCloses(full, n, last.sys, w.event);
        ServedNeverCloses(env, chunks, n, last.sys, w.event);
      }
    }
  }

  /** What was built are the first entries of the world's archive; the next one is too large if that is
      why the loop stopped. */
  ghost predicate BuiltFrom(zipped: seq<ZipFile>, failure: Option<Failure>, built: seq<ZipFile>) {
    && built <= zipped
    && AllFit(built)
    && (failure == None ==> built == zipped)
    && (failure == Some(EntryTooLarge) ==> |built| < |zipped| && !FileFits(zipped[|built|]))
  }

  lemma BuiltIs(foreign: Foreign, env: Environment, me: nat, raw: seq<RawFile>, files: seq<FactorioFile>,
                m: Moment, failure: Option<Failure>, last: Moment)
    requires |files| == |raw|
    requires PlayOk(foreign, env, me, DescribeAll(foreign, raw, files), m, failure, last)
    requires NoneCollides(foreign, files, last.sys.log)
    ensures BuiltFrom(ZippedFiles(foreign, raw, files), failure, last.files)
  {
    hide Protocol.Reachable, Protocol.LeadsTo, DescribeFile, NoCollisions, FileFits, EncodeFactorioFile, Cause, MadeOf,
      Encoded, Protocol.Authentic, Protocol.Inv;
    Protocol.ReachableInv(last.sys, foreign.hash);
    var descs := DescribeAll(foreign, raw, files);
    forall i | 0 <= i < |last.files| ensures last.files[i] == ZippedFiles(foreign, raw, files)[i] {
      assert files[i] in files;
      RebuiltIsEncoded(foreign, raw[i].name, files[i], last.files[i], last.sys.log);
    }
    if failure == Some(EntryTooLarge) {
      var i := |last.files|;
      assert files[i] in files;
      var data :| MadeOf(descs[i].content_chunks, data, last.sys.log) && !FileFits(Encoded(foreign, descs[i], data));
      assert Rebuilt(foreign, descs[i], Encoded(foreign, descs[i], data), last.sys.log);
      RebuiltIsEncoded(foreign, raw[i].name, files[i], Encoded(foreign, descs[i], data), last.sys.log);
    }
  }

  /** For every scheduler, server connection and prior state of the shared cache: legal steps of the tasks
      lead to the end, and after a success nothing of this task is left in the cache. */
  lemma DeliveryLaw(foreign: Foreign, env: Environment, me: nat, raw: seq<RawFile>, files: seq<FactorioFile>,
                    sys: Protocol.System)
    requires |files| == |raw| && Schedules(env, foreign.hash, me) && Idle(sys, foreign.hash, me)
    ensures var (failure, last) := Delivery(foreign, env, me, raw, files, sys);
            && Protocol.LeadsTo(sys, foreign.hash, last.sys)
            && (failure.Some? ==> DeliveryFailure(env, me, failure.value, last.sys))
            && (failure.None? ==> !last.sys.cache.poisoned && Idle(last.sys, foreign.hash, me))
            && (NoneCollides(foreign, files, last.sys.log) ==>
                  BuiltFrom(ZippedFiles(foreign, raw, files), failure, last.files))
  {
    hide Schedules, Idle, Good, Play, WorldChunks, DescribeAll, Served, NoneCollides, BuiltFrom, ZippedFiles, Reason,
      DeliveryFailure, Protocol.Reachable, Protocol.LeadsTo, AllRebuilt;
    var full, descs := Served(env, WorldChunks(foreign, files)), DescribeAll(foreign, raw, files);
    var (failure, last) := Delivery(foreign, env, me, raw, files, sys);
    ServedSchedules(env, WorldChunks(foreign, files), foreign.hash, me);
    StartIsGood(foreign, me, sys, descs);
    PlayKeeps(foreign, full, me, descs, 0, Start(sys, descs));
    if failure.Some? {
      FailuresAre(foreign, env, me, raw, files, failure.value, last);
    }
    if NoneCollides(foreign, files, last.sys.log) {
      BuiltIs(foreign, full, me, raw, files, Start(sys, descs), failure, last);
    }
  }

  /** The premises can be met, and then nothing is in the way: without other tasks and with a connection
      that holds, every file of a world whose files fit is built. */
  lemma AloneDelivers(foreign: Foreign, answer: (nat, seq<ChunkKey>) -> Option<seq<bytes>>, me: nat,
                      raw: seq<RawFile>, files: seq<FactorioFile>, sys: Protocol.System)
    requires |files| == |raw| && Idle(sys, foreign.hash, me) && Undisturbed(sys) && NeverDrops(Alone(me, answer))
    requires NoneCollides(foreign, files, Delivery(foreign, Alone(me, answer), me, raw, files, sys).1.sys.log)
    requires AllFit(ZippedFiles(foreign, raw, files))
    ensures Schedules(Alone(me, answer), foreign.hash, me)
    ensures Delivery(foreign, Alone(me, answer), me, raw, files, sys).0 == None
    ensures Delivery(foreign, Alone(me, answer), me, raw, files, sys).1.files == ZippedFiles(foreign, raw, files)
  {
    hide Schedules, Idle, Play, WorldChunks, DescribeAll, NoneCollides, ZippedFiles, FileFits, Undisturbed,
      ServerAnswer;
    var env, descs := Alone(me, answer), DescribeAll(foreign, raw, files);
    var full := Served(env, WorldChunks(foreign, files));
    AloneSchedules(me, answer, foreign.hash);
    DeliveryLaw(foreign, env, me, raw, files, sys);
    AlonePlays(foreign, me, full.answer, descs, 0, Start(sys, descs));
    assert full == Alone(me, full.answer);
  }

  /** Among any other tasks, every file is built if and only if the files fit, the lock stays sound, the
      connection does not break on a request of this task, and no batch that it waits for is held for ever. */
  lemma NothingInTheWay(foreign: Foreign, env: Environment, me: nat, raw: seq<RawFile>, files: seq<FactorioFile>,
                        sys: Protocol.System)
    requires |files| == |raw| && Schedules(env, foreign.hash, me) && Idle(sys, foreign.hash, me)
    requires NoneCollides(foreign, files, Delivery(foreign, env, me, raw, files, sys).1.sys.log)
    ensures var (failure, last) := Delivery(foreign, env, me, raw, files, sys);
            var zipped := ZippedFiles(foreign, raw, files);
            && (failure == None <==>
                  && AllFit(zipped) && !last.sys.cache.poisoned
                  && !BrokenOff(env, me, last.sys) && !BlockedByOther(env, me, last.sys))
            && (failure == None ==> last.files == zipped)
  {
    hide Schedules, Delivery, NoneCollides, ZippedFiles, FileFits, Protocol.Reachable, Protocol.LeadsTo, NeverCloses;
    DeliveryLaw(foreign, env, me, raw, files, sys);
    var last := Delivery(foreign, env, me, raw, files, sys).1.sys;
    assert Idle(last, foreign.hash, me) ==> forall event :: !Protocol.IsBatchOf(last, me, event);
  }

  /** When the lock stays sound during a delivery, whatever steps it took: exactly if each waiter that went on
      in the course of it, this task or another, went on while the bytes from each of its chunks' latest
      insertion onward still fit. */
  lemma SoundDelivery(foreign: Foreign, env: Environment, me: nat, raw: seq<RawFile>, files: seq<FactorioFile>,
                      sys: Protocol.System)
    requires |files| == |raw| && Schedules(env, foreign.hash, me) && Idle(sys, foreign.hash, me)
    requires !sys.cache.poisoned
    requires Protocol.CollisionFree(Delivery(foreign, env, me, raw, files, sys).1.sys.log, foreign.hash)
    ensures var last := Delivery(foreign, env, me, raw, files, sys).1.sys;
            && Protocol.LeadsTo(sys, foreign.hash, last)
            && forall steps :: Protocol.Legal(sys, foreign.hash, steps) && last == Protocol.Run(sys, steps) ==>
                 (!last.cache.poisoned <==> Protocol.CollectsFit(sys, steps))
  {
    hide Schedules, Delivery, Protocol.Reachable, Protocol.LeadsTo, Protocol.Legal, Protocol.Run, Protocol.CollectsFit,
      Protocol.CollisionFree;
    DeliveryLaw(foreign, env, me, raw, files, sys);
    var last := Delivery(foreign, env, me, raw, files, sys).1.sys;
    forall steps | Protocol.Legal(sys, foreign.hash, steps) && last == Protocol.Run(sys, steps)
      ensures !last.cache.poisoned <==> Protocol.CollectsFit(sys, steps)
    {
      Protocol.SoundIff(sys, foreign.hash, steps);
    }
  }

  // ----- The whole way -----

  /** What the outcome means for the original world, whose archive has the entries `zipped`. */
  ghost predicate OutcomeOk(foreign: Foreign, raw: seq<RawFile>, zipped: seq<ZipFile>, aux: bytes, size: nat,
                            crc: word, outcome: Outcome) {
    match outcome
    case Finished(stream) => Cost(zipped, 0) + 26 <= size && Delivered(foreign, raw, aux, size, crc, stream)
    case DoesNotFit => Cost(zipped, 0) + 26 > size
    case Failed(failure) => failure.EntryTooLarge? ==> exists f :: f in zipped && !FileFits(f)
  }

  lemma FinishIsOk(foreign: Foreign, raw: seq<RawFile>, aux: bytes, size: nat, crc: word)
    requires foreign.ZlibOk() && DecodeAll(foreign, raw).Some?
    requires |DecodeAll(foreign, raw).value| == |raw| < Bytes.U16 && size < Bytes.U32
    requires AllFit(ZippedFiles(foreign, raw, DecodeAll(foreign, raw).value))
    ensures var zipped := ZippedFiles(foreign, raw, DecodeAll(foreign, raw).value);
            OutcomeOk(foreign, raw, zipped, aux, size, crc, Finish(zipped, aux, size, crc))
  {
    hide DecodeAll, ZippedFiles, FileFits, World, Padded, MinimalSize, Delivered, SameWorld, Checksum, Cost;
    var zipped := ZippedFiles(foreign, raw, DecodeAll(foreign, raw).value);
    MinimalSizeIs(zipped);
    if MinimalSize(zipped) <= size {
      WorldIsSame(foreign, raw, aux, size, crc);
      WorldCrc(zipped, aux, size, crc);
      WorldSize(zipped, aux, size, crc);
      PaddedIsDelivered(foreign, raw, World(zipped, aux, size, crc), aux, crc);
    }
  }

  lemma OutcomeIsOk(foreign: Foreign, raw: seq<RawFile>, aux: bytes, size: nat, crc: word, failure: Option<Failure>,
                    built: seq<ZipFile>)
    requires foreign.ZlibOk() && DecodeAll(foreign, raw).Some?
    requires |DecodeAll(foreign, raw).value| == |raw| < Bytes.U16 && size < Bytes.U32
    requires BuiltFrom(ZippedFiles(foreign, raw, DecodeAll(foreign, raw).value), failure, built)
    ensures OutcomeOk(foreign, raw, ZippedFiles(foreign, raw, DecodeAll(foreign, raw).value), aux, size, crc,
                      OutcomeOf(failure, built, aux, size, crc))
  {
    hide DecodeAll, ZippedFiles, FileFits, Finish, Delivered, Cost;
    if failure.None? {
      FinishIsOk(foreign, raw, aux, size, crc);
    }
  }

  /** The server takes the downloaded world apart and answers from its chunk map; the client, among any
      other tasks on the shared cache, rebuilds it. None: the world does not decode. */
  method DeliverWorld(foreign: Foreign, raw: seq<RawFile>, aux_data: bytes, cache: ChunkCache, env: Environment,
                      me: nat, sys: Protocol.System, world_size: nat, world_crc: word)
    returns (result: Option<(Outcome, Moment)>)
    requires foreign.ZlibOk() && |raw| < Bytes.U16
    requires Simulates(cache, sys) && Schedules(env, foreign.hash, me) && Idle(sys, foreign.hash, me)
    requires world_size + TRANSFER_BLOCK_SIZE <= Bytes.U32 && |aux_data| + TRANSFER_BLOCK_SIZE <= Bytes.U32
    modifies cache, cache.raw_cache
    ensures result.None? <==> DecodeAll(foreign, raw).None?
    ensures result.Some? ==>
      var files := DecodeAll(foreign, raw).value;
      var (outcome, last) := result.value;
      && |files| == |raw|
      && var (failure, end) := Delivery(foreign, env, me, raw, files, sys);
      && outcome == OutcomeOf(failure, end.files, aux_data, world_size, world_crc) && last == end
      && (failure.Some? ==> DeliveryFailure(env, me, failure.value, last.sys))
      && (NoneCollides(foreign, files, last.sys.log) ==>
            OutcomeOk(foreign, raw, ZippedFiles(foreign, raw, files), aux_data, world_size, world_crc, outcome))
      && Simulates(cache, last.sys)
  {
    hide DecodeAll, Schedules, Idle, Play, WorldChunks, DescribeAll, NoneCollides, ZippedFiles, OutcomeOk, PlayOk,
      DeliveryFailure, Served, World, Padded, MinimalSize, Finish, BuiltFrom;
    var deconstructed := DeconstructWorld(foreign, raw, aux_data);
    if deconstructed.None? {
      return None;
    }
    ghost var files := DecodeAll(foreign, raw).value;
    var (world, chunks) := deconstructed.value;
    var rev_crc := new RevCRC();
    ServedSchedules(env, chunks, foreign.hash, me);
    var outcome, last := TransferWorldData(
      foreign, cache, Served(env, chunks), me, sys, world, world_size, world_crc, rev_crc);
    DeliveryLaw(foreign, env, me, raw, files, sys);
    if NoneCollides(foreign, files, last.sys.log) {
      OutcomeIsOk(foreign, raw, aux_data, world_size, world_crc, Delivery(foreign, env, me, raw, files, sys).0,
                  last.files);
    }
    result := Some((outcome, last));
  }
}
