/** The client's transfer loop: fetch chunks through the shared cache until every file of the world
    is rebuilt, then finish the world (`transfer_world_data` of `src/proxy/client_proxy.rs`). The task
    that runs it is one of the tasks of the cache protocol; the others run whenever it awaits. */
module Transfer {
  import opened Bytes
  import opened Keys
  import opened Crc32
  import opened RevCrc
  import opened ChunkStore
  import opened ChunkCache
  import opened ZipFormat
  import opened Dedup
  import opened Reconstruct
  import Protocol = CacheProtocol

  const BATCH_SIZE: nat := 512

  /** Everything the loop does not control. In round `n` the others take turns: number 0 before the
      lock is taken, number 1 while a batch is being answered, and numbers 2, 3, ... while the task
      waits; each turn is a list of protocol steps, chosen from the state. `wake` tells after how many
      waiting turns all events that the task waits for are closed, if ever. `answer` is the server
      (None: the connection broke). */
  datatype Environment = Environment(
    others: (nat, nat, Protocol.System) -> seq<Protocol.Step>,
    wake: (nat, Protocol.System) -> Option<nat>,
    answer: (nat, seq<ChunkKey>) -> Option<seq<bytes>>)

  function Turn(env: Environment, n: nat, turn: nat, s: Protocol.System): Protocol.System {
    Protocol.Run(s, env.others(n, turn, s))
  }

  /** The system after `k` waiting turns. */
  function Waited(env: Environment, n: nat, s: Protocol.System, k: nat): Protocol.System {
    if k == 0 then s else Turn(env, n, k + 1, Waited(env, n, s, k - 1))
  }

  ghost predicate WakeOk(env: Environment, n: nat, s: Protocol.System, waits: seq<Wait>) {
    match env.wake(n, s)
    case Some(k) => Protocol.AllClosed(Waited(env, n, s, k), waits)
    case None => forall k :: !Protocol.AllClosed(Waited(env, n, s, k), waits)
  }

  /** In every reachable state the others take legal steps of their own, and waits end when they can. */
  ghost predicate Schedules(env: Environment, hash: Hash, me: nat) {
    && (forall n, turn, s :: Protocol.Reachable(s, hash) ==>
          && Protocol.Legal(s, hash, env.others(n, turn, s))
          && Protocol.ByOthers(env.others(n, turn, s), me))
    && (forall n, s :: Protocol.Reachable(s, hash) && me in s.waiters ==> WakeOk(env, n, s, s.waiters[me]))
  }

  /** How a transfer can fail. The last five are panics, or a wait without end. */
  datatype Failure =
    | TransportError        // the connection to the server broke
    | HashMismatch          // the server sent a chunk with the wrong hash
    | WrongAnswerCount      // the length assertion of `fulfill`
    | EntryTooLarge         // a size `expect` of the ZIP writer
    | EmptiedChunkList      // "Emptied chunk list but reconstructor wants more data"
    | WaitedChunkEvicted    // the `expect` of a waiter, which poisons the lock
    | LockWasPoisoned       // `lock().unwrap()` after another waiter's panic
    | Blocked               // a waited-on event is never closed

  /** The state of the loop: the shared system, `all_chunks`, `local_cache`, and the files built. */
  datatype Moment = Moment(
    sys: Protocol.System, todo: seq<ChunkKey>, local: map<ChunkKey, bytes>, files: seq<ZipFile>)

  datatype Round = Continue(moment: Moment) | Stop(failure: Failure, sys: Protocol.System)

  // ----- Specification of one round -----

  predicate WrongHash(foreign: Foreign, keys: seq<ChunkKey>, chunks: seq<bytes>) {
    exists i :: 0 <= i < |keys| && i < |chunks| && foreign.hash(chunks[i]) != keys[i]
  }

  /** The local cache after a verified answer. */
  function AddAnswer(local: map<ChunkKey, bytes>, keys: seq<ChunkKey>, chunks: seq<bytes>): map<ChunkKey, bytes>
    requires |keys| == |chunks|
  {
    if keys == [] then local
    else
      AddAnswer(local, keys[..|keys| - 1], chunks[..|keys| - 1])[keys[|keys| - 1] := chunks[|keys| - 1]]
  }

  /** A batch was handed out: the server answers while the others run; a failure drops the batch. */
  function AnswerRound(foreign: Foreign, env: Environment, me: nat, n: nat, m: Moment, event: nat,
                       keys: seq<ChunkKey>): Round {
    var s := Turn(env, n, 1, m.sys);
    var dropped := Protocol.Apply(s, Protocol.Abandon(me, event));
    match env.answer(n, keys)
    case None => Stop(TransportError, dropped)
    case Some(chunks) =>
      if WrongHash(foreign, keys, chunks) then Stop(HashMismatch, dropped)
      else if |keys| != |chunks| then Stop(WrongAnswerCount, dropped)
      else
        var s' := Protocol.Apply(s, Protocol.Fulfill(me, event, chunks));
        if s.cache.poisoned then Stop(LockWasPoisoned, s')
        else Continue(m.(sys := s', local := AddAnswer(m.local, keys, chunks)))
  }

  /** Other tasks are fetching the rest: the task waits for them, and looks its chunks up. */
  function WaitRound(env: Environment, me: nat, n: nat, m: Moment, waits: seq<Wait>): Round {
    match env.wake(n, m.sys)
    case None => Stop(Blocked, m.sys)
    case Some(k) =>
      var s := Waited(env, n, m.sys, k);
      var s' := Protocol.Apply(s, Protocol.Collect(me));
      if s.cache.poisoned then Stop(LockWasPoisoned, s')
      else
        match Collected(s.cache.entries, waits)
        case None => Stop(WaitedChunkEvicted, s')
        case Some(chunks) => Continue(m.(sys := s', local := m.local + chunks))
  }

  /** The first locked region of `get_chunks_batched`, under a sound lock. */
  function Asked(me: nat, m: Moment): Moment {
    var r := Sort(m.sys.cache, m.todo, BATCH_SIZE);
    Moment(Protocol.Apply(m.sys, Protocol.Claim(me, m.todo, BATCH_SIZE)),
           StillRequested(m.sys.cache, r), m.local + r.found, m.files)
  }

  /** One call of `get_chunks_batched` and what follows it. */
  function FetchRound(foreign: Foreign, env: Environment, me: nat, n: nat, m: Moment): Round {
    var s := Turn(env, n, 0, m.sys);
    if s.cache.poisoned then Stop(LockWasPoisoned, s)
    else
      var m' := Asked(me, m.(sys := s));
      match ClaimResult(s.cache, m.todo, BATCH_SIZE)
      case Batch(event, keys) => AnswerRound(foreign, env, me, n, m', event, keys)
      case Waiting(waits) => WaitRound(env, me, n, m', waits)
      case Nothing => Continue(m')
      case LockPoisoned => Continue(m')
  }

  lemma RoundShrinks(foreign: Foreign, env: Environment, me: nat, n: nat, m: Moment)
    requires m.todo != []
    ensures var r := FetchRound(foreign, env, me, n, m);
            r.Continue? ==> |r.moment.todo| < |m.todo| && r.moment.files == m.files
  {
    hide Sort, StillRequested, Collected, AddAnswer, Protocol.Apply, Protocol.Run;
    ClaimShrinks(Turn(env, n, 0, m.sys).cache, m.todo, BATCH_SIZE);
  }

  // ----- Specification of the loop -----

  /** The loop from round `n` on: build the next file if its chunks are here, else fetch. None: every
      file is built. It ends because each turn builds a file or shrinks the request list. */
  function Play(foreign: Foreign, env: Environment, me: nat, descs: seq<FactorioFileDescription>, n: nat, m: Moment)
    : (Option<Failure>, Moment)
    requires |m.files| <= |descs|
    decreases |m.todo| + |descs| - |m.files|
  {
    if |m.files| == |descs| then
      var s := Turn(env, n, 0, m.sys);
      (if s.cache.poisoned then Some(LockWasPoisoned) else None, m.(sys := s))
    else
      var desc := descs[|m.files|];
      match Content(desc.content_chunks, m.local)
      case Some(data) =>
        var f := Encoded(foreign, desc, data);
        if FileFits(f) then Play(foreign, env, me, descs, n, m.(files := m.files + [f]))
        else (Some(EntryTooLarge), m)
      case None =>
        if m.todo == [] then (Some(EmptiedChunkList), m)
        else
          RoundShrinks(foreign, env, me, n, m);
          match FetchRound(foreign, env, me, n, m)
          case Stop(failure, sys) => (Some(failure), m.(sys := sys))
          case Continue(m') => Play(foreign, env, me, descs, n + 1, m')
  }

  function AllKeys(descs: seq<FactorioFileDescription>): seq<ChunkKey> {
    if descs == [] then [] else AllKeys(descs[..|descs| - 1]) + descs[|descs| - 1].content_chunks
  }

  function Start(sys: Protocol.System, descs: seq<FactorioFileDescription>): Moment {
    Moment(sys, AllKeys(descs), map[], [])
  }

  // ----- The invariant -----

  predicate Described(descs: seq<FactorioFileDescription>, k: ChunkKey) {
    exists d :: d in descs && k in d.content_chunks
  }

  /** Every described key is still to be fetched or already here; nothing else is asked for. */
  ghost predicate Accounted(descs: seq<FactorioFileDescription>, todo: seq<ChunkKey>, local: map<ChunkKey, bytes>) {
    && (forall k :: Described(descs, k) ==> k in todo || k in local)
    && (forall k :: k in todo ==> Described(descs, k))
  }

  /** Every local chunk has gone through the shared cache, under its key. */
  ghost predicate InLog(local: map<ChunkKey, bytes>, log: seq<Entry>) {
    forall k :: k in local ==> Entry(k, local[k]) in log
  }

  /** Bytes put together from chunks inserted under the given keys. */
  ghost predicate MadeOf(keys: seq<ChunkKey>, data: bytes, log: seq<Entry>) {
    exists parts: seq<bytes> :: |parts| == |keys| && Concat(parts) == data
      && forall i :: 0 <= i < |keys| ==> Entry(keys[i], parts[i]) in log
  }

  ghost predicate Rebuilt(foreign: Foreign, desc: FactorioFileDescription, f: ZipFile, log: seq<Entry>) {
    exists data :: MadeOf(desc.content_chunks, data, log) && f == Encoded(foreign, desc, data)
  }

  ghost predicate AllRebuilt(foreign: Foreign, descs: seq<FactorioFileDescription>,
                             files: seq<ZipFile>, log: seq<Entry>)
    requires |files| <= |descs|
  {
    forall i :: 0 <= i < |files| ==> FileFits(files[i]) && Rebuilt(foreign, descs[i], files[i], log)
  }

  /** The task is between calls. */
  ghost predicate Idle(sys: Protocol.System, hash: Hash, me: nat) {
    Protocol.Reachable(sys, hash) && me !in sys.waiters && Protocol.HasNoBatch(sys, me)
  }

  ghost predicate Good(foreign: Foreign, me: nat, descs: seq<FactorioFileDescription>, m: Moment) {
    && Idle(m.sys, foreign.hash, me)
    && Accounted(descs, m.todo, m.local)
    && InLog(m.local, m.sys.log)
    && |m.files| <= |descs| && AllRebuilt(foreign, descs, m.files, m.sys.log)
  }

  // ----- The others' turns -----

  lemma TurnKeeps(env: Environment, hash: Hash, me: nat, n: nat, turn: nat, s: Protocol.System)
    requires Schedules(env, hash, me) && Protocol.Reachable(s, hash)
    ensures var s' := Turn(env, n, turn, s);
            && Protocol.Reachable(s', hash) && Protocol.LeadsTo(s, hash, s') && Protocol.SameFor(me, s, s')
            && s.log <= s'.log && s.cache.closed <= s'.cache.closed && s.cache.max_size == s'.cache.max_size
  {
    hide Protocol.Reachable, Protocol.Run, Protocol.Legal, Protocol.SameFor, WakeOk;
    var steps := env.others(n, turn, s);
    Protocol.ReachableOn(s, hash, steps);
    Protocol.ReachableInv(s, hash);
    Protocol.OthersRun(s, hash, steps, me);
    Protocol.RunGrows(s, steps);
  }

  lemma {:induction false} WaitedKeeps(env: Environment, hash: Hash, me: nat, n: nat, s: Protocol.System, k: nat)
    requires Schedules(env, hash, me) && Protocol.Reachable(s, hash)
    ensures var s' := Waited(env, n, s, k);
            && Protocol.Reachable(s', hash) && Protocol.LeadsTo(s, hash, s') && Protocol.SameFor(me, s, s')
            && s.log <= s'.log && s.cache.closed <= s'.cache.closed && s.cache.max_size == s'.cache.max_size
  {
    hide Protocol.Reachable, Protocol.LeadsTo, Schedules, Turn, Protocol.Owns, Protocol.IsBatchOf;
    if k == 0 {
      Protocol.LeadsNowhere(s, hash);
    } else {
      var before := Waited(env, n, s, k - 1);
      WaitedKeeps(env, hash, me, n, s, k - 1);
      TurnKeeps(env, hash, me, n, k + 1, before);
      Protocol.LeadsOn(s, hash, before, Turn(env, n, k + 1, before));
    }
  }

  lemma {:induction false} ClosedGrows(env: Environment, n: nat, s: Protocol.System, j: nat, k: nat)
    requires j <= k
    ensures Waited(env, n, s, j).cache.closed <= Waited(env, n, s, k).cache.closed
    decreases k - j
  {
    hide Protocol.Run;
    if j < k {
      ClosedGrows(env, n, s, j, k - 1);
      Protocol.RunGrows(Waited(env, n, s, k - 1), env.others(n, k + 1, Waited(env, n, s, k - 1)));
    }
  }

  /** An event that is closed after no number of waiting turns. */
  ghost predicate NeverCloses(env: Environment, n: nat, s: Protocol.System, event: nat) {
    forall k :: event !in Waited(env, n, s, k).cache.closed
  }

  /** A wait without end is due to a single event. */
  lemma {:induction false} Culprit(env: Environment, n: nat, s: Protocol.System, waits: seq<Wait>) returns (w: Wait)
    requires forall k :: !Protocol.AllClosed(Waited(env, n, s, k), waits)
    ensures w in waits && NeverCloses(env, n, s, w.event)
  {
    hide Waited;
    assert waits != [] by {
      assert !Protocol.AllClosed(Waited(env, n, s, 0), waits);
    }
    var prior, last := waits[..|waits| - 1], waits[|waits| - 1];
    if NeverCloses(env, n, s, last.event) {
      w := last;
    } else {
      var j :| last.event in Waited(env, n, s, j).cache.closed;
      forall k ensures !Protocol.AllClosed(Waited(env, n, s, k), prior) {
        var top := if j <= k then k else j;
        ClosedGrows(env, n, s, j, top);
        ClosedGrows(env, n, s, k, top);
        assert !Protocol.AllClosed(Waited(env, n, s, top), waits);
        assert forall x :: x in waits <==> x in prior || x == last;
      }
      w := Culprit(env, n, s, prior);
    }
  }

  // ----- What a round keeps -----

  /** Why a round stopped. */
  ghost predicate Cause(foreign: Foreign, env: Environment, me: nat, descs: seq<FactorioFileDescription>, n: nat,
                        failure: Failure, sys: Protocol.System) {
    match failure
    case TransportError => exists event ::
      Dropped(descs, me, sys, event) && env.answer(n, sys.batches[event]) == None
    case HashMismatch => exists event, chunks ::
      && Dropped(descs, me, sys, event) && env.answer(n, sys.batches[event]) == Some(chunks)
      && WrongHash(foreign, sys.batches[event], chunks)
    case WrongAnswerCount => exists event, chunks ::
      && Dropped(descs, me, sys, event) && env.answer(n, sys.batches[event]) == Some(chunks)
      && |sys.batches[event]| != |chunks| && !WrongHash(foreign, sys.batches[event], chunks)
    case WaitedChunkEvicted => Overflowed(sys) && exists s, w ::
      && Protocol.Loses(s, Protocol.Collect(me)) && sys == Protocol.Apply(s, Protocol.Collect(me))
      && w in s.waiters[me] && Described(descs, w.key) && HasKey(s.log, w.key) && !HasKey(s.cache.entries, w.key)
    case LockWasPoisoned => Overflowed(sys)
    case Blocked => me in sys.waiters && exists w, task ::
      && w in sys.waiters[me] && Described(descs, w.key)
      && Protocol.IsBatchOf(sys, task, w.event) && task != me && NeverCloses(env, n, sys, w.event)
    case EntryTooLarge => false
    case EmptiedChunkList => false
  }

  /** A batch that this task asked the server for and then dropped. */
  ghost predicate Dropped(descs: seq<FactorioFileDescription>, me: nat, sys: Protocol.System, event: nat) {
    Protocol.IsBatchOf(sys, me, event) && event in sys.abandoned && AllDescribed(descs, sys.batches[event])
  }

  /** Some waiter lost its chunk, which takes more inserted bytes than the store can hold. */
  ghost predicate Overflowed(sys: Protocol.System) {
    sys.cache.poisoned && TotalSize(sys.log) > sys.cache.max_size
  }

  ghost predicate AllDescribed(descs: seq<FactorioFileDescription>, keys: seq<ChunkKey>) {
    forall k :: k in keys ==> Described(descs, k)
  }

  function KeySet(keys: seq<ChunkKey>): set<ChunkKey> { set k | k in keys }

  lemma KeySetIs(keys: seq<ChunkKey>)
    ensures forall k :: k in keys ==> k in KeySet(keys)
  {
  }

  function WaitKeys(waits: seq<Wait>): set<ChunkKey> { set w | w in waits :: w.key }

  lemma InLogGrows(local: map<ChunkKey, bytes>, log: seq<Entry>, log': seq<Entry>)
    requires InLog(local, log) && log <= log'
    ensures InLog(local, log')
  {
    assert forall e :: e in log ==> e in log';
  }

  lemma RebuiltGrows(foreign: Foreign, descs: seq<FactorioFileDescription>, files: seq<ZipFile>, log: seq<Entry>,
                     log': seq<Entry>)
    requires |files| <= |descs| && AllRebuilt(foreign, descs, files, log) && log <= log'
    ensures AllRebuilt(foreign, descs, files, log')
  {
    hide FileFits, Encoded;
    assert forall e :: e in log ==> e in log';
    forall i | 0 <= i < |files| ensures Rebuilt(foreign, descs[i], files[i], log') {
      assert Rebuilt(foreign, descs[i], files[i], log);
      var data :| MadeOf(descs[i].content_chunks, data, log) && files[i] == Encoded(foreign, descs[i], data);
      assert MadeOf(descs[i].content_chunks, data, log');
    }
  }

  /** Chunks found in the shared store have been inserted into it. */
  lemma FoundInLog(s: Protocol.System, local: map<ChunkKey, bytes>, found: map<ChunkKey, bytes>)
    requires Protocol.Inv(s) && InLog(local, s.log)
    requires forall k :: k in found ==> Lookup(s.cache.entries, k) == Some(found[k])
    ensures InLog(local + found, s.log)
  {
    hide Lookup, InsertAll, TotalSize;
    forall k | k in local + found ensures Entry(k, (local + found)[k]) in s.log {
      if k in found {
        assert Entry(k, found[k]) in s.cache.entries;
        StoredIsFromLog([], s.cache.max_size, s.log, Entry(k, found[k]));
      }
    }
  }

  lemma {:induction false} AnswerInLog(local: map<ChunkKey, bytes>, keys: seq<ChunkKey>, chunks: seq<bytes>,
                                       log: seq<Entry>)
    requires |keys| == |chunks| && InLog(local, log)
    ensures InLog(AddAnswer(local, keys, chunks), log + Zip(keys, chunks))
    ensures AddAnswer(local, keys, chunks).Keys == local.Keys + KeySet(keys)
  {
    if keys == [] {
      InLogGrows(local, log, log + Zip(keys, chunks));
    } else {
      var n := |keys| - 1;
      AnswerInLog(local, keys[..n], chunks[..n], log);
      assert Zip(keys, chunks) == Zip(keys[..n], chunks[..n]) + [Entry(keys[n], chunks[n])];
      assert keys == keys[..n] + [keys[n]];
      assert forall e :: e in log + Zip(keys[..n], chunks[..n]) ==> e in log + Zip(keys, chunks);
      assert Entry(keys[n], chunks[n]) in log + Zip(keys, chunks);
    }
  }

  lemma LeadsLater(s: Protocol.System, hash: Hash, s': Protocol.System)
    requires Protocol.LeadsTo(s, hash, s')
    ensures s.log <= s'.log && s.cache.max_size == s'.cache.max_size
  {
    hide Protocol.Run, Protocol.Legal;
    var steps :| Protocol.Legal(s, hash, steps) && s' == Protocol.Run(s, steps);
    Protocol.RunGrows(s, steps);
  }

  /** What a round guarantees. */
  ghost predicate RoundOk(foreign: Foreign, env: Environment, me: nat, descs: seq<FactorioFileDescription>, n: nat,
                          m: Moment, r: Round) {
    match r
    case Continue(m') =>
      Good(foreign, me, descs, m') && Protocol.LeadsTo(m.sys, foreign.hash, m'.sys) && m'.files == m.files
    case Stop(failure, sys) =>
      && Protocol.Reachable(sys, foreign.hash) && Protocol.LeadsTo(m.sys, foreign.hash, sys)
      && Cause(foreign, env, me, descs, n, failure, sys)
  }

  /** After the first region: `keys` are in the task's batch or waited for. */
  ghost predicate Underway(foreign: Foreign, me: nat, descs: seq<FactorioFileDescription>, m: Moment,
                           keys: set<ChunkKey>) {
    && Protocol.Reachable(m.sys, foreign.hash)
    && InLog(m.local, m.sys.log)
    && |m.files| <= |descs| && AllRebuilt(foreign, descs, m.files, m.sys.log)
    && (forall k :: Described(descs, k) ==> k in m.todo || k in m.local || k in keys)
    && (forall k :: k in m.todo || k in keys ==> Described(descs, k))
  }

  /** Chunks under the awaited keys complete the round. */
  lemma Completed(foreign: Foreign, me: nat, descs: seq<FactorioFileDescription>, m: Moment, keys: set<ChunkKey>,
                  sys: Protocol.System, local: map<ChunkKey, bytes>)
    requires Underway(foreign, me, descs, m, keys)
    requires Idle(sys, foreign.hash, me) && m.sys.log <= sys.log
    requires local.Keys == m.local.Keys + keys && InLog(local, sys.log)
    ensures Good(foreign, me, descs, m.(sys := sys, local := local))
  {
    hide Protocol.Reachable, Described, AllRebuilt, Protocol.HasNoBatch, InLog;
    RebuiltGrows(foreign, descs, m.files, m.sys.log, sys.log);
  }

  lemma PoisonedOverflow(s: Protocol.System, hash: Hash)
    requires Protocol.Reachable(s, hash) && s.cache.poisoned
    ensures Overflowed(s)
  {
    hide Protocol.Reachable;
    Protocol.ReachableInv(s, hash);
  }

  /** The keys that the first region leaves to be fetched or waited for. */
  function Awaited(c: State, todo: seq<ChunkKey>): set<ChunkKey> {
    var r := Sort(c, todo, BATCH_SIZE);
    if r.batch != [] then KeySet(r.batch) else WaitKeys(Waits(c, r.kept))
  }

  /** The first region puts every requested key somewhere, and nothing else anywhere. */
  lemma AwaitedIs(c: State, todo: seq<ChunkKey>, k: ChunkKey)
    ensures var r := Sort(c, todo, BATCH_SIZE);
            k in todo <==> k in StillRequested(c, r) || k in r.found || k in Awaited(c, todo)
  {
    hide Sort, Waits, NotPending, Lookup, HasKey;
    SortIsOk(c, todo, BATCH_SIZE);
    WaitsSplit(c, Sort(c, todo, BATCH_SIZE).kept);
  }

  /** What the task's own claim does to the system. */
  lemma ClaimSystem(s: Protocol.System, hash: Hash, me: nat, todo: seq<ChunkKey>)
    requires Idle(s, hash, me) && !s.cache.poisoned
    ensures var s' := Protocol.Apply(s, Protocol.Claim(me, todo, BATCH_SIZE));
            && Protocol.Reachable(s', hash) && Protocol.LeadsTo(s, hash, s')
            && s'.log == s.log && !s'.cache.poisoned
            && match ClaimResult(s.cache, todo, BATCH_SIZE)
               case Batch(event, keys) =>
                 && me !in s'.waiters && Protocol.Owns(s', me, event) && s'.batches[event] == keys
                 && Protocol.IsBatchOf(s', me, event)
                 && forall e :: Protocol.IsBatchOf(s', me, e) ==> e == event
               case Waiting(waits) => Protocol.HasNoBatch(s', me) && me in s'.waiters && s'.waiters[me] == waits
               case Nothing => Protocol.HasNoBatch(s', me) && me !in s'.waiters
               case LockPoisoned => true
  {
    hide Sort, Waits, NotPending, Protocol.Reachable, Protocol.LeadsTo, Protocol.PendingIsBatches, Protocol.WaitersOk,
      Protocol.PendingNotCached, InsertAll, TotalSize;
    Protocol.ReachableInv(s, hash);
    Protocol.ReachableStep(s, hash, Protocol.Claim(me, todo, BATCH_SIZE));
    Protocol.LeadsByStep(s, hash, Protocol.Claim(me, todo, BATCH_SIZE));
    var s' := Protocol.Apply(s, Protocol.Claim(me, todo, BATCH_SIZE));
    assert s.cache.next_event !in s.batches;
    forall e ensures Protocol.IsBatchOf(s', me, e) ==>
      ClaimResult(s.cache, todo, BATCH_SIZE).Batch? && e == s.cache.next_event {
      assert !Protocol.IsBatchOf(s, me, e);
    }
  }

  /** What the task's own claim does to its request list and its chunks. */
  lemma ClaimKeeps(foreign: Foreign, me: nat, descs: seq<FactorioFileDescription>, m: Moment)
    requires Good(foreign, me, descs, m) && !m.sys.cache.poisoned
    ensures Underway(foreign, me, descs, Asked(me, m), Awaited(m.sys.cache, m.todo))
  {
    hide Sort, StillRequested, Awaited, Described, Lookup, AllRebuilt, Protocol.Reachable, Protocol.Apply, InLog,
      HasKey, Protocol.Inv, Protocol.HasNoBatch;
    var c := m.sys.cache;
    var r := Sort(c, m.todo, BATCH_SIZE);
    ClaimSystem(m.sys, foreign.hash, me, m.todo);
    Protocol.ReachableInv(m.sys, foreign.hash);
    SortIsOk(c, m.todo, BATCH_SIZE);
    FoundInLog(m.sys, m.local, r.found);
    forall k ensures k in m.todo <==> k in StillRequested(c, r) || k in r.found || k in Awaited(c, m.todo) {
      AwaitedIs(c, m.todo, k);
    }
  }

  lemma TurnKeepsGood(foreign: Foreign, env: Environment, me: nat, descs: seq<FactorioFileDescription>, n: nat,
                      turn: nat, m: Moment)
    requires Schedules(env, foreign.hash, me) && Good(foreign, me, descs, m)
    ensures Good(foreign, me, descs, m.(sys := Turn(env, n, turn, m.sys)))
    ensures Protocol.LeadsTo(m.sys, foreign.hash, Turn(env, n, turn, m.sys))
  {
    hide Schedules, Protocol.Reachable, Protocol.LeadsTo, Turn, InLog, AllRebuilt, Protocol.Owns, Protocol.IsBatchOf;
    TurnKeeps(env, foreign.hash, me, n, turn, m.sys);
    var s := Turn(env, n, turn, m.sys);
    InLogGrows(m.local, m.sys.log, s.log);
    RebuiltGrows(foreign, descs, m.files, m.sys.log, s.log);
  }

  /** With its batch fulfilled, the task is between calls again. */
  lemma FulfillSystem(s: Protocol.System, hash: Hash, me: nat, event: nat, chunks: seq<bytes>)
    requires Protocol.Reachable(s, hash) && Protocol.Enabled(s, hash, Protocol.Fulfill(me, event, chunks))
    requires me !in s.waiters && !s.cache.poisoned
    requires forall e :: Protocol.IsBatchOf(s, me, e) ==> e == event
    ensures var s' := Protocol.Apply(s, Protocol.Fulfill(me, event, chunks));
            Idle(s', hash, me) && Protocol.LeadsTo(s, hash, s') && s'.log == s.log + Zip(s.batches[event], chunks)
  {
    hide Protocol.Reachable, Protocol.LeadsTo, InsertAll, Unmark;
    var s' := Protocol.Apply(s, Protocol.Fulfill(me, event, chunks));
    Protocol.ReachableStep(s, hash, Protocol.Fulfill(me, event, chunks));
    Protocol.LeadsByStep(s, hash, Protocol.Fulfill(me, event, chunks));
    forall e ensures !Protocol.IsBatchOf(s', me, e) {
      assert Protocol.IsBatchOf(s', me, e) ==> Protocol.IsBatchOf(s, me, e);
    }
  }

  lemma CollectSystem(s: Protocol.System, hash: Hash, me: nat)
    requires Protocol.Reachable(s, hash) && Protocol.Enabled(s, hash, Protocol.Collect(me))
    requires Protocol.HasNoBatch(s, me)
    ensures var s' := Protocol.Apply(s, Protocol.Collect(me));
            && Idle(s', hash, me) && Protocol.LeadsTo(s, hash, s')
            && s'.log == s.log && s'.cache.entries == s.cache.entries
            && s'.cache.poisoned == CollectResult(s.cache, s.waiters[me]).None?
  {
    hide Protocol.Reachable, Protocol.LeadsTo, Collected;
    Protocol.ReachableStep(s, hash, Protocol.Collect(me));
    Protocol.LeadsByStep(s, hash, Protocol.Collect(me));
    var s' := Protocol.Apply(s, Protocol.Collect(me));
    assert forall e :: Protocol.IsBatchOf(s', me, e) ==> Protocol.IsBatchOf(s, me, e);
  }

  /** The task's batch is answered or dropped. */
  lemma AnswerKeeps(foreign: Foreign, env: Environment, me: nat, descs: seq<FactorioFileDescription>, n: nat,
                    m: Moment, event: nat, keys: seq<ChunkKey>)
    requires Schedules(env, foreign.hash, me)
    requires Underway(foreign, me, descs, m, KeySet(keys))
    requires me !in m.sys.waiters && Protocol.Owns(m.sys, me, event) && m.sys.batches[event] == keys
    requires forall e :: Protocol.IsBatchOf(m.sys, me, e) ==> e == event
    ensures RoundOk(foreign, env, me, descs, n, m, AnswerRound(foreign, env, me, n, m, event, keys))
  {
    hide Schedules, Protocol.Reachable, Protocol.LeadsTo, Turn, InLog, AllRebuilt, Described, InsertAll, TotalSize,
      AddAnswer, Good, KeySet;
    TurnKeeps(env, foreign.hash, me, n, 1, m.sys);
    var s := Turn(env, n, 1, m.sys);
    assert Protocol.Owns(s, me, event) && s.batches[event] == keys;
    assert AllDescribed(descs, keys) by { KeySetIs(keys); }
    if env.answer(n, keys).Some? && !WrongHash(foreign, keys, env.answer(n, keys).value)
        && |keys| == |env.answer(n, keys).value| {
      var chunks := env.answer(n, keys).value;
      var fulfill := Protocol.Fulfill(me, event, chunks);
      assert Protocol.Enabled(s, foreign.hash, fulfill);
      Protocol.LeadsByStep(s, foreign.hash, fulfill);
      Protocol.LeadsOn(m.sys, foreign.hash, s, Protocol.Apply(s, fulfill));
      if s.cache.poisoned {
        Protocol.ReachableStep(s, foreign.hash, fulfill);
        PoisonedOverflow(Protocol.Apply(s, fulfill), foreign.hash);
      } else {
        FulfillSystem(s, foreign.hash, me, event, chunks);
        InLogGrows(m.local, m.sys.log, s.log);
        AnswerInLog(m.local, keys, chunks, s.log);
        Completed(foreign, me, descs, m, KeySet(keys), Protocol.Apply(s, fulfill), AddAnswer(m.local, keys, chunks));
      }
    } else {
      var sys := Protocol.Apply(s, Protocol.Abandon(me, event));
      Protocol.ReachableStep(s, foreign.hash, Protocol.Abandon(me, event));
      Protocol.LeadsByStep(s, foreign.hash, Protocol.Abandon(me, event));
      Protocol.LeadsOn(m.sys, foreign.hash, s, sys);
      assert Dropped(descs, me, sys, event) && sys.batches[event] == keys;
    }
  }

  /** The task waits and collects, or waits for ever. */
  lemma WaitKeeps(foreign: Foreign, env: Environment, me: nat, descs: seq<FactorioFileDescription>, n: nat,
                  m: Moment, waits: seq<Wait>)
    requires Schedules(env, foreign.hash, me)
    requires Underway(foreign, me, descs, m, WaitKeys(waits))
    requires Protocol.HasNoBatch(m.sys, me) && me in m.sys.waiters && m.sys.waiters[me] == waits
    ensures RoundOk(foreign, env, me, descs, n, m, WaitRound(env, me, n, m, waits))
  {
    hide Protocol.Reachable, Protocol.LeadsTo, Waited, InLog, AllRebuilt, Described, InsertAll, TotalSize, Good,
      Collected, Idle, Protocol.Legal, HasKey, Protocol.IsBatchOf, Protocol.Apply, Protocol.PendingIsBatches;
    assert WakeOk(env, n, m.sys, waits);
    match env.wake(n, m.sys)
    case None =>
      Protocol.LeadsNowhere(m.sys, foreign.hash);
      assert forall w :: w in waits ==> w.key in WaitKeys(waits);
      BlockedBy(foreign, env, me, descs, n, m, waits);
    case Some(k) =>
      WaitedKeeps(env, foreign.hash, me, n, m.sys, k);
      var s := Waited(env, n, m.sys, k);
      var s' := Protocol.Apply(s, Protocol.Collect(me));
      CollectSystem(s, foreign.hash, me);
      Protocol.LeadsOn(m.sys, foreign.hash, s, s');
      assert Protocol.Reachable(s', foreign.hash) by { IdleIsReachable(s', foreign.hash, me); }
      CollectedIff(s.cache.entries, waits);
      Protocol.ReachableInv(s, foreign.hash);
      if CollectResult(s.cache, waits).None? {
        PoisonedOverflow(s', foreign.hash);
        if !s.cache.poisoned {
          var w :| w in waits && !HasKey(s.cache.entries, w.key);
          assert Protocol.WaitOk(s, w) && w.key in WaitKeys(waits);
          assert Protocol.Loses(s, Protocol.Collect(me)) && w in s.waiters[me];
        }
      } else {
        var found := Collected(s.cache.entries, waits).value;
        InLogGrows(m.local, m.sys.log, s.log);
        FoundInLog(s, m.local, found);
        assert found.Keys == WaitKeys(waits);
        Completed(foreign, me, descs, m, WaitKeys(waits), s', m.local + found);
      }
  }

  lemma IdleIsReachable(s: Protocol.System, hash: Hash, me: nat)
    requires Idle(s, hash, me)
    ensures Protocol.Reachable(s, hash)
  {
  }

  lemma BlockedBy(foreign: Foreign, env: Environment, me: nat, descs: seq<FactorioFileDescription>, n: nat,
                  m: Moment, waits: seq<Wait>)
    requires Protocol.Reachable(m.sys, foreign.hash)
    requires Protocol.HasNoBatch(m.sys, me) && me in m.sys.waiters && m.sys.waiters[me] == waits
    requires forall w :: w in waits ==> Described(descs, w.key)
    requires forall k :: !Protocol.AllClosed(Waited(env, n, m.sys, k), waits)
    ensures Cause(foreign, env, me, descs, n, Blocked, m.sys)
  {
    hide Protocol.Reachable, Protocol.PendingIsBatches, Protocol.PendingNotCached, InsertAll, TotalSize, Described;
    Protocol.ReachableInv(m.sys, foreign.hash);
    var w := Culprit(env, n, m.sys, waits);
    assert w.event !in Waited(env, n, m.sys, 0).cache.closed;
    assert Protocol.WaitOk(m.sys, w);
    var task := m.sys.owner[w.event];
    assert Protocol.IsBatchOf(m.sys, task, w.event) && !Protocol.IsBatchOf(m.sys, me, w.event);
  }

  lemma RoundContinues(foreign: Foreign, env: Environment, me: nat, descs: seq<FactorioFileDescription>, n: nat,
                       m: Moment, m': Moment, r: Round)
    requires Protocol.LeadsTo(m.sys, foreign.hash, m'.sys) && m'.files == m.files
    requires RoundOk(foreign, env, me, descs, n, m', r) || (r == Continue(m') && Good(foreign, me, descs, m'))
    ensures RoundOk(foreign, env, me, descs, n, m, r)
  {
    hide Protocol.LeadsTo, Cause, Good, Protocol.Reachable;
    match r
    case Continue(m'') =>
      if m'' != m' {
        Protocol.LeadsOn(m.sys, foreign.hash, m'.sys, m''.sys);
      }
    case Stop(_, sys) => Protocol.LeadsOn(m.sys, foreign.hash, m'.sys, sys);
  }

  /** One round keeps the invariant, and stops only for a reason. */
  lemma RoundKeeps(foreign: Foreign, env: Environment, me: nat, descs: seq<FactorioFileDescription>, n: nat, m: Moment)
    requires Schedules(env, foreign.hash, me) && Good(foreign, me, descs, m)
    ensures RoundOk(foreign, env, me, descs, n, m, FetchRound(foreign, env, me, n, m))
  {
    hide Schedules, Protocol.Reachable, Protocol.LeadsTo, Protocol.Apply, Turn, Described, AnswerRound, WaitRound,
      Sort, InLog, AllRebuilt, StillRequested, Waits, Protocol.Owns, Protocol.IsBatchOf, TotalSize;
    var m0 := m.(sys := Turn(env, n, 0, m.sys));
    TurnKeepsGood(foreign, env, me, descs, n, 0, m);
    if m0.sys.cache.poisoned {
      PoisonedOverflow(m0.sys, foreign.hash);
    } else {
      var c := m0.sys.cache;
      var m' := Asked(me, m0);
      ClaimSystem(m0.sys, foreign.hash, me, m.todo);
      ClaimKeeps(foreign, me, descs, m0);
      Protocol.LeadsOn(m.sys, foreign.hash, m0.sys, m'.sys);
      match ClaimResult(c, m.todo, BATCH_SIZE) {
        case Batch(event, keys) => AnswerKeeps(foreign, env, me, descs, n, m', event, keys);
        case Waiting(waits) => WaitKeeps(foreign, env, me, descs, n, m', waits);
        case Nothing =>
        case LockPoisoned =>
      }
      RoundContinues(foreign, env, me, descs, n, m, m', FetchRound(foreign, env, me, n, m));
    }
  }

  // ----- Laws of the whole loop -----

  function PartsOf(keys: seq<ChunkKey>, local: map<ChunkKey, bytes>): seq<bytes>
    requires forall k :: k in keys ==> k in local
  {
    seq(|keys|, i requires 0 <= i < |keys| => local[keys[i]])
  }

  lemma {:induction false} ContentIsConcat(keys: seq<ChunkKey>, local: map<ChunkKey, bytes>)
    requires forall k :: k in keys ==> k in local
    ensures Content(keys, local) == Some(Concat(PartsOf(keys, local)))
  {
    if keys != [] {
      var n := |keys| - 1;
      var last := local[keys[n]];
      ContentIsConcat(keys[..n], local);
      assert PartsOf(keys, local) == PartsOf(keys[..n], local) + [last];
      ConcatAppend(PartsOf(keys[..n], local), [last]);
      assert Concat([last]) == last by { assert [last][1..] == []; }
    }
  }

  lemma ContentIsMade(keys: seq<ChunkKey>, local: map<ChunkKey, bytes>, log: seq<Entry>)
    requires Content(keys, local).Some? && InLog(local, log)
    ensures MadeOf(keys, Content(keys, local).value, log)
  {
    hide Content, Concat;
    ContentIff(keys, local);
    ContentIsConcat(keys, local);
    assert |PartsOf(keys, local)| == |keys|;
  }

  /** "Emptied chunk list but reconstructor wants more data" does not happen. */
  lemma MissingIsRequested(descs: seq<FactorioFileDescription>, m: Moment, desc: FactorioFileDescription)
    requires Accounted(descs, m.todo, m.local) && desc in descs && Content(desc.content_chunks, m.local) == None
    ensures m.todo != []
  {
    hide Content;
    ContentIff(desc.content_chunks, m.local);
    var k :| k in desc.content_chunks && k !in m.local;
    assert Described(descs, k);
  }

  lemma {:induction false} AllKeysAre(descs: seq<FactorioFileDescription>, k: ChunkKey)
    ensures k in AllKeys(descs) <==> Described(descs, k)
  {
    if descs != [] {
      var prior, d := descs[..|descs| - 1], descs[|descs| - 1];
      assert descs == prior + [d];
      AllKeysAre(prior, k);
    }
  }

  /** The request list lists the chunks of each file after those of the files before it. */
  lemma {:induction false} AllKeysConcat(a: seq<FactorioFileDescription>, b: seq<FactorioFileDescription>)
    ensures AllKeys(a + b) == AllKeys(a) + AllKeys(b)
    decreases |b|
  {
    if b == [] {
      assert a + b == a;
    } else {
      assert (a + b)[..|a + b| - 1] == a + b[..|b| - 1];
      AllKeysConcat(a, b[..|b| - 1]);
      Assoc(AllKeys(a), AllKeys(b[..|b| - 1]), b[|b| - 1].content_chunks);
    }
  }

  lemma AllKeysOfOne(desc: FactorioFileDescription)
    ensures AllKeys([desc]) == desc.content_chunks
  {
    assert [desc][..0] == [];
  }

  /** A batch asked for has the first 512 keys that nobody has or fetches, or all of them if there are fewer. */
  lemma AskedKeys(c: State, todo: seq<ChunkKey>)
    ensures match ClaimResult(c, todo, BATCH_SIZE)
            case Batch(_, keys) =>
              var all := Fresh(c, todo);
              keys == all[..if 512 < |all| then 512 else |all|]
            case _ => c.poisoned || Fresh(c, todo) == []
  {
    hide Sort, Fresh;
    BatchIsFirstFresh(c, todo, BATCH_SIZE);
  }

  lemma StartIsGood(foreign: Foreign, me: nat, sys: Protocol.System, descs: seq<FactorioFileDescription>)
    requires Idle(sys, foreign.hash, me)
    ensures Good(foreign, me, descs, Start(sys, descs))
  {
    hide AllKeys, Described, Idle;
    forall k ensures k in AllKeys(descs) <==> Described(descs, k) {
      AllKeysAre(descs, k);
    }
  }

  /** Why the loop failed. */
  ghost predicate Reason(foreign: Foreign, env: Environment, me: nat, descs: seq<FactorioFileDescription>,
                         failure: Failure, last: Moment) {
    if failure == EntryTooLarge then
      |last.files| < |descs| && TooLarge(foreign, descs[|last.files|], last.sys.log)
    else exists n :: Cause(foreign, env, me, descs, n, failure, last.sys)
  }

  /** Authentic chunks make up a file that a ZIP entry cannot hold. */
  ghost predicate TooLarge(foreign: Foreign, desc: FactorioFileDescription, log: seq<Entry>) {
    exists data :: MadeOf(desc.content_chunks, data, log) && !FileFits(Encoded(foreign, desc, data))
  }

  ghost predicate PlayOk(foreign: Foreign, env: Environment, me: nat, descs: seq<FactorioFileDescription>,
                         m: Moment, failure: Option<Failure>, last: Moment) {
    && Protocol.Reachable(last.sys, foreign.hash) && Protocol.LeadsTo(m.sys, foreign.hash, last.sys)
    && |last.files| <= |descs| && AllRebuilt(foreign, descs, last.files, last.sys.log)
    && match failure
       case None => |last.files| == |descs| && !last.sys.cache.poisoned && Idle(last.sys, foreign.hash, me)
       case Some(f) => Reason(foreign, env, me, descs, f, last)
  }

  lemma BuildKeeps(foreign: Foreign, me: nat, descs: seq<FactorioFileDescription>, m: Moment)
    requires Good(foreign, me, descs, m) && |m.files| < |descs|
    requires Content(descs[|m.files|].content_chunks, m.local).Some?
    ensures var desc := descs[|m.files|];
            var f := Encoded(foreign, desc, Content(desc.content_chunks, m.local).value);
            if FileFits(f) then Good(foreign, me, descs, m.(files := m.files + [f]))
            else TooLarge(foreign, desc, m.sys.log)
  {
    hide Content, MadeOf, Idle, Accounted, InLog, FileFits, Encoded;
    ContentIsMade(descs[|m.files|].content_chunks, m.local, m.sys.log);
  }

  lemma CauseIsReason(foreign: Foreign, env: Environment, me: nat, descs: seq<FactorioFileDescription>, n: nat,
                      failure: Failure, last: Moment)
    requires Cause(foreign, env, me, descs, n, failure, last.sys)
    ensures Reason(foreign, env, me, descs, failure, last)
  {
  }

  lemma PoisonIsReason(foreign: Foreign, env: Environment, me: nat, descs: seq<FactorioFileDescription>, n: nat,
                       last: Moment)
    requires Overflowed(last.sys)
    ensures Reason(foreign, env, me, descs, LockWasPoisoned, last)
  {
    assert Cause(foreign, env, me, descs, n, LockWasPoisoned, last.sys);
  }

  lemma SizeIsReason(foreign: Foreign, env: Environment, me: nat, descs: seq<FactorioFileDescription>, last: Moment)
    requires |last.files| < |descs| && TooLarge(foreign, descs[|last.files|], last.sys.log)
    ensures Reason(foreign, env, me, descs, EntryTooLarge, last)
  {
  }

  /** Whatever the scheduler and the server do: legal steps of the tasks lead to the end of the loop, with
      every file built so far put together from authentic chunks; it is complete, with nothing left of this
      task in the cache, or there is a reason why not. */
  lemma {:induction false} PlayKeeps(foreign: Foreign, env: Environment, me: nat, descs: seq<FactorioFileDescription>,
                                     n: nat, m: Moment)
    requires Schedules(env, foreign.hash, me) && Good(foreign, me, descs, m)
    ensures var (failure, last) := Play(foreign, env, me, descs, n, m);
            PlayOk(foreign, env, me, descs, m, failure, last)
    decreases |m.todo| + |descs| - |m.files|
  {
    hide Schedules, Protocol.Reachable, Protocol.LeadsTo, Accounted, InLog, AllRebuilt, FetchRound, Content, Encoded,
      FileFits, Turn, MadeOf, TotalSize, Protocol.HasNoBatch, TooLarge, Cause, Reason;
    if |m.files| == |descs| {
      TurnKeepsGood(foreign, env, me, descs, n, 0, m);
      var s := Turn(env, n, 0, m.sys);
      if s.cache.poisoned {
        PoisonedOverflow(s, foreign.hash);
        PoisonIsReason(foreign, env, me, descs, n, m.(sys := s));
      }
    } else {
      var desc := descs[|m.files|];
      match Content(desc.content_chunks, m.local)
      case Some(data) => {
        BuildKeeps(foreign, me, descs, m);
        var f := Encoded(foreign, desc, data);
        if FileFits(f) {
          PlayKeeps(foreign, env, me, descs, n, m.(files := m.files + [f]));
        } else {
          Protocol.LeadsNowhere(m.sys, foreign.hash);
          SizeIsReason(foreign, env, me, descs, m);
        }
      }
      case None => {
        MissingIsRequested(descs, m, desc);
        RoundKeeps(foreign, env, me, descs, n, m);
        RoundShrinks(foreign, env, me, n, m);
        match FetchRound(foreign, env, me, n, m)
        case Stop(failure, sys) =>
          LeadsLater(m.sys, foreign.hash, sys);
          RebuiltGrows(foreign, descs, m.files, m.sys.log, sys.log);
          CauseIsReason(foreign, env, me, descs, n, failure, m.(sys := sys));
        case Continue(m') =>
          PlayKeeps(foreign, env, me, descs, n + 1, m');
          Protocol.LeadsOn(m.sys, foreign.hash, m'.sys, Play(foreign, env, me, descs, n + 1, m').1.sys);
      }
    }
  }

  // ----- Which failures are excluded -----

  /** A server that answers every request for described chunks with chunks that have those hashes. */
  ghost predicate Honest(env: Environment, foreign: Foreign, descs: seq<FactorioFileDescription>) {
    forall n, keys :: AllDescribed(descs, keys) ==>
      var a := env.answer(n, keys);
      a.Some? && |a.value| == |keys| && forall i :: 0 <= i < |keys| ==> foreign.hash(a.value[i]) == keys[i]
  }

  /** The failures that remain with an honest server are due to the other tasks or to an oversized file;
      and with a sound lock, as with room for everything inserted, no chunk was lost. */
  lemma HonestFailures(foreign: Foreign, env: Environment, me: nat, descs: seq<FactorioFileDescription>,
                       failure: Failure, last: Moment)
    requires Reason(foreign, env, me, descs, failure, last)
    ensures Honest(env, foreign, descs) ==>
      failure.EntryTooLarge? || failure.WaitedChunkEvicted? || failure.LockWasPoisoned? || failure.Blocked?
    ensures !last.sys.cache.poisoned || TotalSize(last.sys.log) <= last.sys.cache.max_size ==>
      !failure.WaitedChunkEvicted? && !failure.LockWasPoisoned?
  {
    hide TotalSize, HasKey, AllDescribed, TooLarge, Protocol.Apply, Protocol.Loses;
    if Honest(env, foreign, descs) && !failure.EntryTooLarge? {
      var n :| Cause(foreign, env, me, descs, n, failure, last.sys);
      forall event | Dropped(descs, me, last.sys, event)
        ensures var keys := last.sys.batches[event];
                var a := env.answer(n, keys);
                a.Some? && |a.value| == |keys| && !WrongHash(foreign, keys, a.value)
      {
        assert AllDescribed(descs, last.sys.batches[event]);
      }
    }
  }

  /** The environment without other tasks. */
  function Alone(me: nat, answer: (nat, seq<ChunkKey>) -> Option<seq<bytes>>): Environment {
    Environment(
      (n: nat, turn: nat, s: Protocol.System) => [],
      (n: nat, s: Protocol.System) =>
        if me in s.waiters && Protocol.AllClosed(s, s.waiters[me]) then Some(0) else None,
      answer)
  }

  lemma {:induction false} AloneWaits(me: nat, answer: (nat, seq<ChunkKey>) -> Option<seq<bytes>>, n: nat,
                                      s: Protocol.System, k: nat)
    ensures Waited(Alone(me, answer), n, s, k) == s
  {
    if k > 0 {
      AloneWaits(me, answer, n, s, k - 1);
    }
  }

  /** The premise on the scheduler can be met. */
  lemma AloneSchedules(me: nat, answer: (nat, seq<ChunkKey>) -> Option<seq<bytes>>, hash: Hash)
    ensures Schedules(Alone(me, answer), hash, me)
  {
    hide Protocol.Reachable, Protocol.AllClosed;
    var env := Alone(me, answer);
    forall n, s | Protocol.Reachable(s, hash) && me in s.waiters ensures WakeOk(env, n, s, s.waiters[me]) {
      forall k ensures Waited(env, n, s, k) == s {
        AloneWaits(me, answer, n, s, k);
      }
    }
  }

  /** No other task is fetching anything, and the lock is sound. */
  ghost predicate Undisturbed(s: Protocol.System) {
    s.batches == map[] && s.cache.pending == map[] && !s.cache.poisoned
  }

  lemma AloneAnswers(foreign: Foreign, me: nat, answer: (nat, seq<ChunkKey>) -> Option<seq<bytes>>, n: nat,
                     m: Moment, s: Protocol.System, keys: seq<ChunkKey>)
    requires Undisturbed(s) && keys != [] && m.sys == Protocol.HandOut(s, me, keys)
    ensures match AnswerRound(foreign, Alone(me, answer), me, n, m, s.cache.next_event, keys)
      case Continue(m') => Undisturbed(m'.sys)
      case Stop(f, _) => f.TransportError? || f.HashMismatch? || f.WrongAnswerCount?
  {
    hide InsertAll, WrongHash, AddAnswer;
    assert Turn(Alone(me, answer), n, 1, m.sys) == m.sys;
    assert Unmark(m.sys.cache.pending, keys) == map[];
  }

  lemma {:induction false} NothingToWaitFor(c: State, kept: seq<ChunkKey>)
    requires c.pending == map[]
    ensures Waits(c, kept) == []
  {
    if kept != [] {
      NothingToWaitFor(c, kept[..|kept| - 1]);
    }
  }

  lemma AloneRound(foreign: Foreign, me: nat, answer: (nat, seq<ChunkKey>) -> Option<seq<bytes>>, n: nat, m: Moment)
    requires Undisturbed(m.sys)
    ensures match FetchRound(foreign, Alone(me, answer), me, n, m)
      case Continue(m') => Undisturbed(m'.sys)
      case Stop(f, _) => f.TransportError? || f.HashMismatch? || f.WrongAnswerCount?
  {
    hide Sort, Waits, NotPending, AnswerRound, WaitRound, MarkPending;
    var c := m.sys.cache;
    assert Turn(Alone(me, answer), n, 0, m.sys) == m.sys;
    var r := Sort(c, m.todo, BATCH_SIZE);
    NothingToWaitFor(c, r.kept);
    if r.batch != [] {
      AloneAnswers(foreign, me, answer, n, Asked(me, m), m.sys, r.batch);
    }
  }

  /** A task alone with a sound cache can only fail because of the server or of an oversized file. */
  lemma {:induction false} AlonePlays(foreign: Foreign, me: nat, answer: (nat, seq<ChunkKey>) -> Option<seq<bytes>>,
                                      descs: seq<FactorioFileDescription>, n: nat, m: Moment)
    requires Undisturbed(m.sys) && |m.files| <= |descs|
    ensures var failure := Play(foreign, Alone(me, answer), me, descs, n, m).0;
            failure.Some? ==>
              && !failure.value.Blocked? && !failure.value.WaitedChunkEvicted? && !failure.value.LockWasPoisoned?
    decreases |m.todo| + |descs| - |m.files|
  {
    hide FetchRound, Content, Encoded, FileFits;
    var env := Alone(me, answer);
    if |m.files| == |descs| {
      assert Turn(env, n, 0, m.sys) == m.sys;
    } else {
      var desc := descs[|m.files|];
      match Content(desc.content_chunks, m.local)
      case Some(data) => {
        var f := Encoded(foreign, desc, data);
        if FileFits(f) {
          AlonePlays(foreign, me, answer, descs, n, m.(files := m.files + [f]));
        }
      }
      case None => {
        if m.todo != [] {
          RoundShrinks(foreign, env, me, n, m);
          AloneRound(foreign, me, answer, n, m);
          match FetchRound(foreign, env, me, n, m)
          case Stop(failure, sys) =>
          case Continue(m') => AlonePlays(foreign, me, answer, descs, n + 1, m');
        }
      }
    }
  }

  // ----- The code of the loop -----

  /** The hash check of an answer; None: a chunk has the wrong hash. */
  method AcceptAnswer(foreign: Foreign, keys: seq<ChunkKey>, chunks: seq<bytes>, local: map<ChunkKey, bytes>)
    returns (local': Option<map<ChunkKey, bytes>>)
    ensures local'.None? <==> WrongHash(foreign, keys, chunks)
    ensures local'.Some? && |keys| == |chunks| ==> local'.value == AddAnswer(local, keys, chunks)
  {
    var all := local;
    var count := if |keys| <= |chunks| then |keys| else |chunks|;
    for i := 0 to count
      invariant forall j :: 0 <= j < i ==> foreign.hash(chunks[j]) == keys[j]
      invariant all == AddAnswer(local, keys[..i], chunks[..i])
    {
      assert keys[..i + 1][..i] == keys[..i] && chunks[..i + 1][..i] == chunks[..i];
      if foreign.hash(chunks[i]) != keys[i] {
        return None;
      }
      all := all[keys[i] := chunks[i]];
    }
    assert keys[..|keys|] == keys && chunks[..|chunks|] == chunks;
    local' := Some(all);
  }

  ghost predicate Simulates(cache: ChunkCache, sys: Protocol.System)
    reads cache, cache.raw_cache
  {
    cache.Valid() && cache.Get() == sys.cache
  }

  /** The other tasks run until the lock is free for this one. */
  method OthersRan(cache: ChunkCache, hash: Hash, ghost before: Protocol.System, sys: Protocol.System)
    requires Simulates(cache, before)
    requires Protocol.Reachable(sys, hash) && sys.cache.max_size == before.cache.max_size
    modifies cache, cache.raw_cache
    ensures Simulates(cache, sys)
  {
    hide Protocol.Reachable, TotalSize;
    Protocol.ReachableBounded(sys, hash);
    cache.OtherTasksRan(sys.cache);
  }

  /** The server's answer to this task's batch is checked and put into the cache. */
  method Answered(foreign: Foreign, cache: ChunkCache, env: Environment, me: nat, n: nat, m: Moment, event: nat,
                  keys: seq<ChunkKey>)
    returns (round: Round)
    requires Simulates(cache, m.sys)
    requires Schedules(env, foreign.hash, me) && Protocol.Reachable(m.sys, foreign.hash)
    requires Protocol.Owns(m.sys, me, event) && m.sys.batches[event] == keys
    modifies cache, cache.raw_cache
    ensures round == AnswerRound(foreign, env, me, n, m, event, keys)
    ensures Simulates(cache, if round.Continue? then round.moment.sys else round.sys)
  {
    hide Protocol.Reachable, Schedules, Turn, WrongHash, AddAnswer, InsertAll, Unmark;
    TurnKeeps(env, foreign.hash, me, n, 1, m.sys);
    var sys := Turn(env, n, 1, m.sys);
    OthersRan(cache, foreign.hash, m.sys, sys);
    assert Protocol.Owns(sys, me, event) && sys.batches[event] == keys;
    var dropped := Protocol.Apply(sys, Protocol.Abandon(me, event));
    var answer := env.answer(n, keys);
    if answer.None? {
      return Stop(TransportError, dropped);
    }
    var local := AcceptAnswer(foreign, keys, answer.value, m.local);
    if local.None? {
      return Stop(HashMismatch, dropped);
    }
    if |keys| != |answer.value| {
      return Stop(WrongAnswerCount, dropped);
    }
    var ok := cache.Fulfill(event, keys, answer.value);
    var sys' := Protocol.Apply(sys, Protocol.Fulfill(me, event, answer.value));
    if ok {
      round := Continue(m.(sys := sys', local := local.value));
    } else {
      round := Stop(LockWasPoisoned, sys');
    }
  }

  method WaitedFor(cache: ChunkCache, hash: Hash, env: Environment, me: nat, n: nat, m: Moment, waits: seq<Wait>)
    returns (round: Round)
    requires Simulates(cache, m.sys)
    requires Schedules(env, hash, me) && Protocol.Reachable(m.sys, hash)
    requires me in m.sys.waiters && m.sys.waiters[me] == waits
    modifies cache, cache.raw_cache
    ensures round == WaitRound(env, me, n, m, waits)
    ensures Simulates(cache, if round.Continue? then round.moment.sys else round.sys)
  {
    hide Protocol.Reachable, Schedules, Waited, Collected;
    var turns := env.wake(n, m.sys);
    if turns.None? {
      return Stop(Blocked, m.sys);
    }
    WaitedKeeps(env, hash, me, n, m.sys, turns.value);
    var sys := Waited(env, n, m.sys, turns.value);
    OthersRan(cache, hash, m.sys, sys);
    var local := cache.Collect(waits, m.local);
    var sys' := Protocol.Apply(sys, Protocol.Collect(me));
    if local.Some? {
      round := Continue(m.(sys := sys', local := local.value));
    } else {
      round := Stop(if sys.cache.poisoned then LockWasPoisoned else WaitedChunkEvicted, sys');
    }
  }

  /** One round, on the shared cache. */
  method FetchChunks(foreign: Foreign, cache: ChunkCache, env: Environment, me: nat, n: nat, m: Moment)
    returns (round: Round)
    requires Simulates(cache, m.sys)
    requires Schedules(env, foreign.hash, me) && Idle(m.sys, foreign.hash, me)
    modifies cache, cache.raw_cache
    ensures round == FetchRound(foreign, env, me, n, m)
    ensures Simulates(cache, if round.Continue? then round.moment.sys else round.sys)
  {
    hide Protocol.Reachable, Schedules, Turn, Sort, AnswerRound, WaitRound, Waits, StillRequested, Protocol.Owns,
      Protocol.IsBatchOf, ClaimedState;
    TurnKeeps(env, foreign.hash, me, n, 0, m.sys);
    var sys := Turn(env, n, 0, m.sys);
    OthersRan(cache, foreign.hash, m.sys, sys);
    var todo, local, claimed := cache.Claim(m.todo, m.local, BATCH_SIZE);
    if claimed.LockPoisoned? {
      return Stop(LockWasPoisoned, sys);
    }
    ClaimSystem(sys, foreign.hash, me, m.todo);
    var sys' := Protocol.Apply(sys, Protocol.Claim(me, m.todo, BATCH_SIZE));
    var m' := Moment(sys', todo, local, m.files);
    match claimed
    case Batch(event, keys) => round := Answered(foreign, cache, env, me, n, m', event, keys);
    case Waiting(waits) => round := WaitedFor(cache, foreign.hash, env, me, n, m', waits);
    case Nothing => round := Continue(m');
  }

  datatype Outcome = Finished(stream: bytes) | DoesNotFit | Failed(failure: Failure)

  /** Finishing the world, once every file is built. */
  function Finish(files: seq<ZipFile>, aux: bytes, size: nat, crc: word): Outcome {
    if MinimalSize(files) <= size then Finished(Padded(World(files, aux, size, crc), aux)) else DoesNotFit
  }

  /** The outcome of a transfer whose loop ended like this. */
  function OutcomeOf(failure: Option<Failure>, files: seq<ZipFile>, aux: bytes, size: nat, crc: word): Outcome {
    match failure
    case Some(f) => Failed(f)
    case None => Finish(files, aux, size, crc)
  }

  ghost predicate Emitted(reconstructor: WorldReconstructor, files: seq<ZipFile>, stream: bytes)
    reads reconstructor, reconstructor.zip_writer, reconstructor.crc_hasher
  {
    reconstructor.Valid() && reconstructor.Files() == files && stream == Body(files)
  }

  /** The inner loop: fetch until the next file can be built, and emit it. */
  method BuildFile(foreign: Foreign, cache: ChunkCache, env: Environment, me: nat, descs: seq<FactorioFileDescription>,
                   n: nat, m: Moment, reconstructor: WorldReconstructor, stream: bytes)
    returns (failure: Option<Failure>, n': nat, m': Moment, stream': bytes)
    requires Schedules(env, foreign.hash, me) && |m.files| < |descs|
    requires Good(foreign, me, descs, m) && Simulates(cache, m.sys) && Emitted(reconstructor, m.files, stream)
    modifies cache, cache.raw_cache, reconstructor.zip_writer, reconstructor.crc_hasher
    ensures failure.None? ==>
      && |m'.files| == |m.files| + 1 && Good(foreign, me, descs, m') && Emitted(reconstructor, m'.files, stream')
      && Play(foreign, env, me, descs, n', m') == Play(foreign, env, me, descs, n, m)
    ensures failure.Some? ==> Play(foreign, env, me, descs, n, m) == (failure, m')
    ensures Simulates(cache, m'.sys)
  {
    hide Play, Content, Protocol.Reachable, Schedules, FetchRound, AllRebuilt, Accounted, InLog, FileFits, Body,
      Protocol.HasNoBatch, Simulates, Encoded;
    var desc := descs[|m.files|];
    n', m' := n, m;
    while true
      invariant m'.files == m.files
      invariant Good(foreign, me, descs, m') && Simulates(cache, m'.sys) && Emitted(reconstructor, m.files, stream)
      invariant Play(foreign, env, me, descs, n', m') == Play(foreign, env, me, descs, n, m)
      decreases |m'.todo|
    {
      PlayStep(foreign, env, me, descs, n', m');
      var result := reconstructor.ReconstructWorldFile(foreign, desc, m'.local);
      match result
      case Blocks(header, data) => {
        BuildKeeps(foreign, me, descs, m');
        m' := m'.(files := m.files + [Encoded(foreign, desc, Content(desc.content_chunks, m'.local).value)]);
        return None, n', m', stream + header + data;
      }
      case TooLargeForZip => {
        return Some(EntryTooLarge), n', m', stream;
      }
      case NeedsMoreData => {
        // "Emptied chunk list but reconstructor wants more data" does not happen.
        MissingIsRequested(descs, m', desc);
        RoundKeeps(foreign, env, me, descs, n', m');
        RoundShrinks(foreign, env, me, n', m');
        var round := FetchChunks(foreign, cache, env, me, n', m');
        if round.Stop? {
          return Some(round.failure), n', m'.(sys := round.sys), stream;
        }
        n', m' := n' + 1, round.moment;
      }
    }
  }

  /** What follows the loop. */
  method Conclude(foreign: Foreign, cache: ChunkCache, env: Environment, me: nat, world: FactorioWorldDescription,
                  n: nat, m: Moment, reconstructor: WorldReconstructor, stream: bytes, world_size: nat,
                  world_crc: word, rev_crc: RevCRC)
    returns (outcome: Outcome, last: Moment)
    requires Schedules(env, foreign.hash, me) && Protocol.Reachable(m.sys, foreign.hash) && rev_crc.Valid()
    requires Simulates(cache, m.sys) && Emitted(reconstructor, m.files, stream)
    requires |m.files| == |world.files| < Bytes.U16
    requires world_size + TRANSFER_BLOCK_SIZE <= Bytes.U32 && |world.aux_data| + TRANSFER_BLOCK_SIZE <= Bytes.U32
    modifies cache, cache.raw_cache, reconstructor.zip_writer, reconstructor.crc_hasher
    ensures var (failure, end) := Play(foreign, env, me, world.files, n, m);
            last == end && outcome == OutcomeOf(failure, last.files, world.aux_data, world_size, world_crc)
    ensures Simulates(cache, last.sys)
  {
    hide Play, Protocol.Reachable, Schedules, Turn, MinimalSize, World, Padded, Body, Protocol.Owns, Protocol.IsBatchOf;
    PlayEnds(foreign, env, me, world.files, n, m);
    TurnKeeps(env, foreign.hash, me, n, 0, m.sys);
    last := m.(sys := Turn(env, n, 0, m.sys));
    OthersRan(cache, foreign.hash, m.sys, last.sys);
    var ok := cache.MarkDirty();
    if !ok {
      return Failed(LockWasPoisoned), last;
    }
    var last_data := reconstructor.FinalizeWorldFile(world.aux_data, world_size, world_crc, rev_crc);
    outcome := if last_data.None? then DoesNotFit else Finished(stream + last_data.value);
  }

  /** The outcome is decided by the run of the loop alone, and that run keeps the laws above. */
  method TransferWorldData(foreign: Foreign, cache: ChunkCache, env: Environment, me: nat, sys: Protocol.System,
                           world: FactorioWorldDescription, world_size: nat, world_crc: word, rev_crc: RevCRC)
    returns (outcome: Outcome, last: Moment)
    requires Simulates(cache, sys) && rev_crc.Valid()
    requires Schedules(env, foreign.hash, me) && Idle(sys, foreign.hash, me)
    requires |world.files| < Bytes.U16
    requires world_size + TRANSFER_BLOCK_SIZE <= Bytes.U32 && |world.aux_data| + TRANSFER_BLOCK_SIZE <= Bytes.U32
    modifies cache, cache.raw_cache
    ensures var (failure, end) := Play(foreign, env, me, world.files, 0, Start(sys, world.files));
            && last == end && outcome == OutcomeOf(failure, last.files, world.aux_data, world_size, world_crc)
            && PlayOk(foreign, env, me, world.files, Start(sys, world.files), failure, last)
    ensures Simulates(cache, last.sys)
  {
    hide Play, Protocol.Reachable, Schedules, Accounted, InLog, Turn, AllRebuilt,
      Body, PlayOk, AllKeys, Protocol.HasNoBatch, Simulates, Finish;
    var descs := world.files;
    var reconstructor := new WorldReconstructor();
    var m, n, stream: bytes := Start(sys, descs), 0, [];
    StartIsGood(foreign, me, sys, descs);
    PlayKeeps(foreign, env, me, descs, 0, m);
    EmptyBody();
    for i := 0 to |descs|
      invariant |m.files| == i && Good(foreign, me, descs, m)
      invariant Simulates(cache, m.sys) && Emitted(reconstructor, m.files, stream)
      invariant Play(foreign, env, me, descs, n, m) == Play(foreign, env, me, descs, 0, Start(sys, descs))
      invariant fresh(reconstructor.zip_writer) && fresh(reconstructor.crc_hasher)
    {
      var failure;
      failure, n, m, stream := BuildFile(foreign, cache, env, me, descs, n, m, reconstructor, stream);
      if failure.Some? {
        return Failed(failure.value), m;
      }
    }
    outcome, last := Conclude(
      foreign, cache, env, me, world, n, m, reconstructor, stream, world_size, world_crc, rev_crc);
  }

  lemma PlayEnds(foreign: Foreign, env: Environment, me: nat, descs: seq<FactorioFileDescription>, n: nat, m: Moment)
    requires |m.files| == |descs|
    ensures var s := Turn(env, n, 0, m.sys);
            Play(foreign, env, me, descs, n, m)
            == (if s.cache.poisoned then Some(LockWasPoisoned) else None, m.(sys := s))
  {
  }

  lemma PlayStep(foreign: Foreign, env: Environment, me: nat, descs: seq<FactorioFileDescription>, n: nat, m: Moment)
    requires |m.files| < |descs|
    ensures var desc := descs[|m.files|];
            var content := Content(desc.content_chunks, m.local);
            var play := Play(foreign, env, me, descs, n, m);
            if content.Some? then
              var f := Encoded(foreign, desc, content.value);
              play == if FileFits(f) then Play(foreign, env, me, descs, n, m.(files := m.files + [f]))
                      else (Some(EntryTooLarge), m)
            else
              m.todo != [] ==>
                var r := FetchRound(foreign, env, me, n, m);
                if r.Stop? then play == (Some(r.failure), m.(sys := r.sys))
                else |r.moment.files| <= |descs| && play == Play(foreign, env, me, descs, n + 1, r.moment)
  {
    hide Content, FetchRound, FileFits;
    if m.todo != [] {
      RoundShrinks(foreign, env, me, n, m);
    }
  }
}
