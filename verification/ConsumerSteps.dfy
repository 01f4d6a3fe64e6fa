/**
One consumer: what it holds, its steps, and that each keeps what ConsumerSlots asks of every shard.

Each action is one region of the source under one mutex, or one server call: the answer to opening
a session and putting it into effect are two actions, and so are picking a reader, looking for room
in its cache, sending its fetch, taking a record from it, and queueing that record; whatever the
heartbeat, the fetch tasks and the commit thread do may come in between. One thread at a time reads
from a consumer. Server calls may fail, with or without having taken effect.
*/
module ConsumerSteps {
  import opened Collections
  import opened ConsumerSlots
  import opened OffsetManagement
  import R = ShardReading

  // What the thread inside Read is about: nothing, a reader it has picked -- which may have left the
  // map since -- or a record it has taken and not queued yet.
  datatype Grip = Free | Reading(shard: string, beside: Option<Fetcher>) | Holding(shard: string, offset: Offset)

  // `asked` is what the server said was committed when a session was opened that has not taken
  // effect yet; `limit` is the size from which the reader's cache keeps it from fetching, and `room`
  // is whether the thread inside Read found the cache smaller when it last looked.
  datatype Client = Client(
    limit: nat,
    manager: Manager,
    readers: map<string, Fetcher>,
    grip: Grip,
    asked: map<string, Option<Offset>>,
    room: bool)

  function LateOf(cl: Client, s: string): Late {
    if cl.grip.Free? || cl.grip.shard != s then Nobody
    else if cl.grip.Holding? then Taken(cl.grip.offset)
    else if cl.grip.beside.Some? then Beside(cl.grip.beside.value)
    else Nobody
  }

  function SlotOf(cl: Client, s: string): Slot
    requires s in cl.manager.requests
  {
    Slot(cl.manager.requests[s],
         if s in cl.manager.last then Some(cl.manager.last[s].offset) else None,
         LateOf(cl, s),
         if s in cl.readers then Some(cl.readers[s]) else None)
  }

  // ---------------------------------------------------------------- readers

  // The reader a thread is reading from, or the shard's reader in the map.
  predicate HasReader(cl: Client, s: string, beside: bool) {
    if beside then cl.grip.Reading? && cl.grip.shard == s && cl.grip.beside.Some? else s in cl.readers
  }

  function ReaderAt(cl: Client, s: string, beside: bool): Fetcher
    requires HasReader(cl, s, beside)
  {
    if beside then cl.grip.beside.value else cl.readers[s]
  }

  function WithReaderAt(cl: Client, s: string, beside: bool, f: Fetcher): Client
    requires HasReader(cl, s, beside)
  {
    if beside then cl.(grip := Reading(s, Some(f))) else cl.(readers := cl.readers[s := f])
  }

  predicate IsReading(cl: Client) {
    cl.grip.Reading? && HasReader(cl, cl.grip.shard, cl.grip.beside.Some?)
  }

  function BeingRead(cl: Client): Fetcher
    requires IsReading(cl)
  {
    ReaderAt(cl, cl.grip.shard, cl.grip.beside.Some?)
  }

  // ---------------------------------------------------------------- the steps

  datatype Action =
    | Append(shard: string, systemTime: int)
    | Expire(shard: string, oldest: nat)
    | AckLate(shard: string, n: nat)
    | Connect(c: nat, limit: nat)
    | Ask(c: nat, shard: string)
    | Open(c: nat, shard: string, version: int, session: int)
    | Close(c: nat, shard: string)
    | Pick(c: nat, shard: string)
    | Look(c: nat)
    | Send(c: nat, accepted: bool)
    | Seek(c: nat, shard: string, beside: bool, outOfRange: bool)
    | Finish(c: nat, shard: string, beside: bool, end: FetchEnd)
    | Take(c: nat)
    | GiveUp(c: nat)
    | Enqueue(c: nat)
    | InvalidCursor(c: nat, shard: string)
    | AckMessage(c: nat, shard: string, i: nat)
    | SyncOffsets(c: nat)
    | Commit(c: nat, applied: set<string>, accepted: bool)
    | ReleaseShards(c: nat, shards: set<string>)
    | ResetOffsets(c: nat)
    | Forget(c: nat)

  // The actions of one consumer, but for connecting.
  predicate OfClient(a: Action) {
    !(a.Append? || a.Expire? || a.AckLate? || a.Connect?)
  }

  // When a consumer's action can happen.
  predicate Allowed(servers: map<string, Server>, cl: Client, a: Action)
    requires OfClient(a)
  {
    match a
    case Ask(_, s) => s in servers
    case Open(_, s, _, _) => s in servers && s in cl.asked
    case Close(_, _) => true
    case Pick(_, s) => cl.grip.Free? && s in cl.readers
    case Look(_) => IsReading(cl)
    case Send(_, _) => IsReading(cl) && cl.room && !BeingRead(cl).reader.running
    case Seek(_, s, beside, _) => s in servers && HasReader(cl, s, beside) && ReaderAt(cl, s, beside).flight.Sent?
    case Finish(_, s, beside, end) =>
      s in servers && HasReader(cl, s, beside) && MayEnd(servers[s], ReaderAt(cl, s, beside), end)
    case Take(_) => IsReading(cl) && BeingRead(cl).reader.cache != []
    case GiveUp(_) => IsReading(cl) && BeingRead(cl).reader.cache == []
    case Enqueue(_) => cl.grip.Holding?
    case InvalidCursor(_, s) => s in cl.readers
    case AckMessage(_, s, i) =>
      s in servers && s in cl.manager.requests && i < |cl.manager.requests[s]|
        && 0 <= cl.manager.requests[s][i].offset.sequence
    case SyncOffsets(_) => true
    case Commit(_, applied, accepted) =>
      applied <= cl.manager.last.Keys && applied <= servers.Keys && (accepted ==> applied == cl.manager.last.Keys)
    case ReleaseShards(_, _) => true
    case ResetOffsets(_) => true
    case Forget(_) => true
  }

  // The session takes effect; a reader is created unless the shard already has one.
  function OpenClient(cl: Client, s: string, version: int, session: int): Client
    requires s in cl.asked
  {
    cl.(manager := UpdateOffsetMeta(cl.manager, s, version, session),
        readers := if s in cl.readers then cl.readers else cl.readers[s := Fresh(cl.asked[s])],
        asked := cl.asked - {s})
  }

  // A thread that is reading from the reader goes on doing so.
  function CloseClient(cl: Client, s: string): Client {
    cl.(readers := cl.readers - {s},
        grip := if cl.grip == Reading(s, None) && s in cl.readers then Reading(s, Some(cl.readers[s])) else cl.grip)
  }

  function SendClient(cl: Client, accepted: bool): Client
    requires IsReading(cl)
  {
    WithReaderAt(cl, cl.grip.shard, cl.grip.beside.Some?, SendFetch(BeingRead(cl), accepted)).(room := false)
  }

  function TakeClient(cl: Client): Client
    requires IsReading(cl)
  {
    var f := BeingRead(cl);
    var popped := if cl.grip.beside.Some? then cl else cl.(readers := cl.readers[cl.grip.shard := Popped(f)]);
    popped.(grip := if TakenFrom(f).Taken? then Holding(cl.grip.shard, TakenFrom(f).offset) else Free)
  }

  function EnqueueClient(cl: Client): Client
    requires cl.grip.Holding?
  {
    cl.(manager := SendOffsetRequest(cl.manager, cl.grip.shard, Entry(cl.grip.offset, false)), grip := Free)
  }

  // What the action leaves of the consumer that performs it.
  function ClientAfter(servers: map<string, Server>, cl: Client, a: Action): Client
    requires OfClient(a) && Provisioned(cl.manager) && Allowed(servers, cl, a)
  {
    match a
    case Ask(_, s) => cl.(asked := cl.asked[s := servers[s].committed])
    case Open(_, s, v, ss) => OpenClient(cl, s, v, ss)
    case Close(_, s) => CloseClient(cl, s)
    case Pick(_, s) => cl.(grip := Reading(s, None), room := false)
    case Look(_) => cl.(room := R.HasRoom(BeingRead(cl).reader, cl.limit))
    case Send(_, accepted) => SendClient(cl, accepted)
    case Seek(_, s, b, o) => WithReaderAt(cl, s, b, SeekFetch(servers[s], ReaderAt(cl, s, b), o))
    case Finish(_, s, b, end) => WithReaderAt(cl, s, b, EndFetch(servers[s], ReaderAt(cl, s, b), end))
    case Take(_) => TakeClient(cl)
    case GiveUp(_) => cl.(grip := Free)
    case Enqueue(_) => EnqueueClient(cl)
    case InvalidCursor(_, s) => WithReaderAt(cl, s, false, ResetFetcher(cl.readers[s]))
    case AckMessage(_, s, i) => cl.(manager := Ack(cl.manager, s, i))
    case SyncOffsets(_) => cl.(manager := Sync(cl.manager))
    case Commit(_, _, accepted) =>
      cl.(manager := Apply(cl.manager, CommitOp(accepted)))
    case ReleaseShards(_, shards) => cl.(manager := Release(cl.manager, shards))
    case ResetOffsets(_) => cl.(manager := EMPTY)
    case Forget(_) => cl.(manager := cl.manager.(last := map[]))
  }

  // ---------------------------------------------------------------- the invariant

  ghost predicate ServerInv(sv: Server) {
    sv.oldest <= |sv.log| && (sv.committed.Some? ==> Safe(sv, sv.committed.value))
  }

  // Everything but the slots: shards exist, readers are sane, answers were safe when given.
  ghost predicate Based(servers: map<string, Server>, cl: Client) {
    && Provisioned(cl.manager)
    && cl.manager.requests.Keys <= servers.Keys && cl.readers.Keys <= servers.Keys && cl.asked.Keys <= servers.Keys
    && (!cl.grip.Free? ==> cl.grip.shard in servers && SaneLate(servers[cl.grip.shard], LateOf(cl, cl.grip.shard)))
    && (cl.grip.Reading? && cl.grip.beside.None? ==> cl.grip.shard in cl.readers)
    && (forall s :: s in cl.readers ==> Sane(servers[s], cl.readers[s]))
    && (forall s :: s in cl.asked && cl.asked[s].Some? ==> Safe(servers[s], cl.asked[s].value))
  }

  ghost predicate ClientInv(servers: map<string, Server>, cl: Client) {
    Based(servers, cl) && forall s :: s in cl.manager.requests ==> SlotInv(servers[s], SlotOf(cl, s))
  }

  // ---------------------------------------------------------------- each step keeps it

  ghost predicate AllExtend(before: map<string, Server>, after: map<string, Server>) {
    after.Keys == before.Keys && forall s :: s in before ==> Extends(before[s], after[s])
  }

  ghost predicate ServersInv(servers: map<string, Server>) {
    forall s :: s in servers ==> ServerInv(servers[s])
  }

  lemma GrowBased(before: map<string, Server>, after: map<string, Server>, cl: Client)
    requires Based(before, cl) && AllExtend(before, after)
    ensures Based(after, cl)
  {
    hide Sane; hide Extends; hide Safe;
    forall s | s in cl.readers
      ensures Sane(after[s], cl.readers[s])
    {
      GrowSane(before[s], after[s], cl.readers[s]);
    }
    forall s | s in cl.asked && cl.asked[s].Some?
      ensures Safe(after[s], cl.asked[s].value)
    {
      GrowSafe(before[s], after[s], cl.asked[s].value);
    }
    if !cl.grip.Free? {
      GrowLate(before[cl.grip.shard], after[cl.grip.shard], LateOf(cl, cl.grip.shard));
    }
  }

  lemma GrowLate(a: Server, b: Server, late: Late)
    requires Extends(a, b) && SaneLate(a, late)
    ensures SaneLate(b, late)
  {
    if late.Beside? {
      GrowSane(a, b, late.fetcher);
    }
  }

  lemma GrowClient(before: map<string, Server>, after: map<string, Server>, cl: Client)
    requires ClientInv(before, cl) && AllExtend(before, after)
    ensures ClientInv(after, cl)
  {
    hide SlotInv; hide Extends; hide Based;
    GrowBased(before, after, cl);
    assert cl.manager.requests.Keys <= before.Keys by { BasedShards(before, cl); }
    forall s | s in cl.manager.requests
      ensures SlotInv(after[s], SlotOf(cl, s))
    {
      GrowSlot(before[s], after[s], SlotOf(cl, s));
    }
  }

  lemma BasedShards(servers: map<string, Server>, cl: Client)
    requires Based(servers, cl)
    ensures cl.manager.requests.Keys <= servers.Keys && cl.readers.Keys <= servers.Keys
    ensures !cl.grip.Free? ==> cl.grip.shard in servers
  {
  }

  // Changing one shard's slot leaves the others alone.
  lemma OneSlot(servers: map<string, Server>, cl: Client, cl': Client, s: string)
    requires ClientInv(servers, cl) && Based(servers, cl')
    requires s in cl'.manager.requests ==> SlotInv(servers[s], SlotOf(cl', s))
    requires forall t :: t in cl'.manager.requests && t != s ==>
               t in cl.manager.requests && SlotOf(cl', t) == SlotOf(cl, t)
    ensures ClientInv(servers, cl')
  {
    hide SlotInv; hide Based;
  }

  // Replacing a reader, in the map or beside it.
  lemma ReaderBased(servers: map<string, Server>, cl: Client, s: string, beside: bool, f: Fetcher)
    requires Based(servers, cl) && HasReader(cl, s, beside) && s in servers && Sane(servers[s], f)
    ensures Based(servers, WithReaderAt(cl, s, beside, f))
  {
    hide Sane; hide Safe;
  }

  lemma ReaderSlot(cl: Client, s: string, beside: bool, f: Fetcher)
    requires HasReader(cl, s, beside) && s in cl.manager.requests
    ensures SlotOf(WithReaderAt(cl, s, beside, f), s) ==
            if beside then SlotOf(cl, s).(late := Beside(f)) else SlotOf(cl, s).(fetcher := Some(f))
  {
  }

  // A step of a reader that keeps its slot in order.
  lemma WithReaderKeeps(servers: map<string, Server>, cl: Client, s: string, beside: bool, f: Fetcher)
    requires ClientInv(servers, cl) && HasReader(cl, s, beside) && s in servers && Sane(servers[s], f)
    requires s in cl.manager.requests ==>
               SlotInv(servers[s],
                       if beside then SlotOf(cl, s).(late := Beside(f)) else SlotOf(cl, s).(fetcher := Some(f)))
    ensures ClientInv(servers, WithReaderAt(cl, s, beside, f))
  {
    hide Sane; hide Based; hide SlotInv;
    var cl' := WithReaderAt(cl, s, beside, f);
    ReaderBased(servers, cl, s, beside, f);
    if s in cl.manager.requests {
      ReaderSlot(cl, s, beside, f);
    }
    OneSlot(servers, cl, cl', s);
  }

  lemma SanePart(servers: map<string, Server>, cl: Client, s: string, beside: bool)
    requires Based(servers, cl) && HasReader(cl, s, beside)
    ensures s in servers && Sane(servers[s], ReaderAt(cl, s, beside))
  {
    hide Sane;
  }

  lemma SlotPart(servers: map<string, Server>, cl: Client, s: string, beside: bool)
    requires ClientInv(servers, cl) && HasReader(cl, s, beside) && s in cl.manager.requests
    ensures s in servers && SlotInv(servers[s], SlotOf(cl, s))
    ensures beside ==> SlotOf(cl, s).late == Beside(ReaderAt(cl, s, beside))
                       && BesideOk(servers[s], QueueSequences(cl.manager.requests[s]), ReaderAt(cl, s, beside))
    ensures !beside ==> SlotOf(cl, s).fetcher == Some(cl.readers[s])
                        && FetchesOk(servers[s], Held(SlotOf(cl, s)), cl.readers[s])
  {
    hide Closed; hide FetchesOk; hide BesideOk; hide Held;
  }

  lemma SendKeepsClient(servers: map<string, Server>, cl: Client, accepted: bool)
    requires ServersInv(servers) && ClientInv(servers, cl) && IsReading(cl) && !BeingRead(cl).reader.running
    ensures ClientInv(servers, SendClient(cl, accepted))
  {
    var s, b, f := cl.grip.shard, cl.grip.beside.Some?, BeingRead(cl);
    SanePart(servers, cl, s, b);
    hide Sane; hide BesideOk; hide FetchesOk; hide SlotInv; hide Based; hide SendFetch; hide Safe;
    StepsSane(servers[s], f, accepted, false);
    if s in cl.manager.requests {
      SlotPart(servers, cl, s, b);
      if b {
        MoveBesideOk(servers[s], QueueSequences(cl.manager.requests[s]), f, accepted, false);
        SendCache(f, accepted);
        MoveBesideKeeps(servers[s], SlotOf(cl, s), SendFetch(f, accepted));
      } else {
        SendFetches(servers[s], Held(SlotOf(cl, s)), f, accepted);
        SendCache(f, accepted);
        MoveKeeps(servers[s], SlotOf(cl, s), SendFetch(f, accepted));
      }
    }
    WithReaderKeeps(servers, cl, s, b, SendFetch(f, accepted));
    RoomKeeps(servers, WithReaderAt(cl, s, b, SendFetch(f, accepted)), false);
  }

  // What the thread remembers of the cache's size matters to nothing else.
  lemma RoomKeeps(servers: map<string, Server>, cl: Client, room: bool)
    requires ClientInv(servers, cl)
    ensures ClientInv(servers, cl.(room := room))
  {
    hide SlotInv; hide Sane; hide Safe;
    var cl' := cl.(room := room);
    forall s | s in cl'.manager.requests
      ensures SlotInv(servers[s], SlotOf(cl', s))
    {
      assert SlotOf(cl', s) == SlotOf(cl, s);
    }
  }

  lemma SendCache(f: Fetcher, accepted: bool)
    ensures SameCache(f, SendFetch(f, accepted))
  {
  }

  lemma SeekKeepsClient(servers: map<string, Server>, cl: Client, s: string, b: bool, outOfRange: bool)
    requires ServersInv(servers) && ClientInv(servers, cl) && HasReader(cl, s, b) && s in servers
             && ReaderAt(cl, s, b).flight.Sent?
    ensures ClientInv(servers, WithReaderAt(cl, s, b, SeekFetch(servers[s], ReaderAt(cl, s, b), outOfRange)))
  {
    var f := ReaderAt(cl, s, b);
    SanePart(servers, cl, s, b);
    hide Sane; hide BesideOk; hide FetchesOk; hide SlotInv; hide Based; hide Safe; hide CursorFor;
    StepsSane(servers[s], f, false, outOfRange);
    if s in cl.manager.requests {
      SlotPart(servers, cl, s, b);
      if b {
        MoveBesideOk(servers[s], QueueSequences(cl.manager.requests[s]), f, false, outOfRange);
        MoveBesideKeeps(servers[s], SlotOf(cl, s), SeekFetch(servers[s], f, outOfRange));
      } else {
        SeekFetches(servers[s], Held(SlotOf(cl, s)), f, outOfRange);
        MoveKeeps(servers[s], SlotOf(cl, s), SeekFetch(servers[s], f, outOfRange));
      }
    }
    WithReaderKeeps(servers, cl, s, b, SeekFetch(servers[s], f, outOfRange));
  }

  lemma FinishKeepsClient(servers: map<string, Server>, cl: Client, s: string, b: bool, end: FetchEnd)
    requires ClientInv(servers, cl) && HasReader(cl, s, b) && s in servers
             && MayEnd(servers[s], ReaderAt(cl, s, b), end)
    ensures ClientInv(servers, WithReaderAt(cl, s, b, EndFetch(servers[s], ReaderAt(cl, s, b), end)))
  {
    var f := ReaderAt(cl, s, b);
    SanePart(servers, cl, s, b);
    hide Sane; hide BesideOk; hide FetchesOk; hide SlotInv; hide Based; hide EndFetch; hide MayEnd;
    EndSane(servers[s], f, end);
    if s in cl.manager.requests {
      SlotPart(servers, cl, s, b);
      if b {
        EndBesideKeeps(servers[s], SlotOf(cl, s), end);
      } else {
        EndKeeps(servers[s], SlotOf(cl, s), end);
      }
    }
    WithReaderKeeps(servers, cl, s, b, EndFetch(servers[s], f, end));
  }

  lemma ResetKeepsClient(servers: map<string, Server>, cl: Client, s: string)
    requires ServersInv(servers) && ClientInv(servers, cl) && s in cl.readers
    ensures ClientInv(servers, WithReaderAt(cl, s, false, ResetFetcher(cl.readers[s])))
  {
    var f := cl.readers[s];
    SanePart(servers, cl, s, false);
    hide Sane; hide BesideOk; hide FetchesOk; hide SlotInv; hide Based; hide Safe;
    StepsSane(servers[s], f, false, false);
    if s in cl.manager.requests {
      SlotPart(servers, cl, s, false);
      ResetFetches(servers[s], Held(SlotOf(cl, s)), f);
      MoveKeeps(servers[s], SlotOf(cl, s), ResetFetcher(f));
    }
    WithReaderKeeps(servers, cl, s, false, ResetFetcher(f));
  }

  lemma OpenKeeps(servers: map<string, Server>, cl: Client, s: string, version: int, session: int)
    requires ClientInv(servers, cl) && s in cl.asked && s in servers
    requires Orderly(servers[s], SlotOf(OpenClient(cl, s, version, session), s))
    ensures ClientInv(servers, OpenClient(cl, s, version, session))
  {
    var cl' := OpenClient(cl, s, version, session);
    OpenBased(servers, cl, s, version, session) by { InvBased(servers, cl); }
    OpenedSlotInv(servers, cl, s, version, session);
    OpenedOthers(cl, s, version, session);
    hide ClientInv; hide SlotInv; hide Orderly; hide OpenClient; hide SlotOf;
    assert Based(servers, cl') && s in servers;
    hide Based;
    OneSlot(servers, cl, cl', s);
  }

  lemma OpenedOthers(cl: Client, s: string, version: int, session: int)
    requires s in cl.asked
    ensures var cl' := OpenClient(cl, s, version, session);
            forall t :: t in cl'.manager.requests && t != s ==>
                t in cl.manager.requests && SlotOf(cl', t) == SlotOf(cl, t)
  {
  }

  lemma OpenBased(servers: map<string, Server>, cl: Client, s: string, version: int, session: int)
    requires Based(servers, cl) && s in cl.asked && s in servers
    ensures Based(servers, OpenClient(cl, s, version, session))
  {
    hide Sane; hide Safe; hide Fresh;
    if s !in cl.readers {
      FreshFetches(servers[s], [], cl.asked[s]);
    }
  }

  lemma OpenedSlotInv(servers: map<string, Server>, cl: Client, s: string, version: int, session: int)
    requires ClientInv(servers, cl) && s in cl.asked && s in servers
    requires Orderly(servers[s], SlotOf(OpenClient(cl, s, version, session), s))
    ensures SlotInv(servers[s], SlotOf(OpenClient(cl, s, version, session), s))
  {
    hide Orderly; hide Safe; hide Sane;
  }

  // The other shards' slots are what they were.
  ghost predicate OthersKept(cl: Client, cl': Client, s: string) {
    cl'.manager.requests.Keys == cl.manager.requests.Keys
    && forall t :: t in cl'.manager.requests && t != s ==> SlotOf(cl', t) == SlotOf(cl, t)
  }

  lemma CloseSlots(cl: Client, s: string)
    ensures OthersKept(cl, CloseClient(cl, s), s)
    ensures var late := LateOf(CloseClient(cl, s), s);
            && (late == LateOf(cl, s) || (LateOf(cl, s).Nobody? && s in cl.readers && late == Beside(cl.readers[s])))
            && (s in cl.manager.requests ==>
                  SlotOf(CloseClient(cl, s), s) == SlotOf(cl, s).(fetcher := None, late := late))
  {
  }

  lemma CloseKeepsClient(servers: map<string, Server>, cl: Client, s: string)
    requires ClientInv(servers, cl)
    ensures ClientInv(servers, CloseClient(cl, s))
  {
    CloseBased(servers, cl, s);
    CloseSlots(cl, s);
    BasedShards(servers, cl);
    hide SlotInv; hide Based; hide CloseClient;
    if s in cl.manager.requests {
      CloseKeeps(servers[s], SlotOf(cl, s), LateOf(CloseClient(cl, s), s));
    }
    hide SlotOf; hide LateOf;
    OneSlot(servers, cl, CloseClient(cl, s), s);
  }

  lemma CloseBased(servers: map<string, Server>, cl: Client, s: string)
    requires Based(servers, cl)
    ensures Based(servers, CloseClient(cl, s))
  {
    hide Sane; hide Safe;
  }

  lemma TakeBased(servers: map<string, Server>, cl: Client)
    requires ServersInv(servers) && Based(servers, cl) && IsReading(cl)
    ensures Based(servers, TakeClient(cl))
  {
    var s, f := cl.grip.shard, BeingRead(cl);
    SanePart(servers, cl, s, cl.grip.beside.Some?);
    StepsSane(servers[s], f, false, false);
    hide Sane; hide Safe; hide TakenFrom; hide Popped;
    TakenKind(f);
  }

  lemma TakeSlots(cl: Client)
    requires IsReading(cl)
    ensures var s, f := cl.grip.shard, BeingRead(cl);
            && OthersKept(cl, TakeClient(cl), s)
            && (s in cl.manager.requests ==>
                  SlotOf(TakeClient(cl), s) ==
                  if cl.grip.beside.Some? then SlotOf(cl, s).(late := TakenFrom(f))
                  else SlotOf(cl, s).(late := TakenFrom(f), fetcher := Some(Popped(f))))
  {
    hide TakenFrom; hide Popped;
    TakenKind(BeingRead(cl));
  }

  lemma TakeKeepsClient(servers: map<string, Server>, cl: Client)
    requires ServersInv(servers) && ClientInv(servers, cl) && IsReading(cl)
    ensures ClientInv(servers, TakeClient(cl))
  {
    var s := cl.grip.shard;
    TakeBased(servers, cl);
    TakeSlots(cl);
    BasedShards(servers, cl);
    hide SlotInv; hide Based; hide TakeClient; hide TakenFrom; hide Popped;
    if s in cl.manager.requests {
      if cl.grip.beside.Some? {
        TakeBesideKeeps(servers[s], SlotOf(cl, s));
      } else {
        TakeOwnKeeps(servers[s], SlotOf(cl, s));
      }
    }
    hide SlotOf; hide LateOf;
    OneSlot(servers, cl, TakeClient(cl), s);
  }

  lemma TakenKind(f: Fetcher)
    ensures !TakenFrom(f).Beside?
  {
  }

  lemma EnqueueSlots(cl: Client)
    requires cl.grip.Holding?
    ensures OthersKept(cl, EnqueueClient(cl), cl.grip.shard)
    ensures cl.grip.shard in cl.manager.requests ==>
              SlotOf(EnqueueClient(cl), cl.grip.shard) == Enqueued(SlotOf(cl, cl.grip.shard))
  {
  }

  lemma EnqueueKeepsClient(servers: map<string, Server>, cl: Client)
    requires ClientInv(servers, cl) && cl.grip.Holding?
    ensures ClientInv(servers, EnqueueClient(cl))
  {
    var s := cl.grip.shard;
    EnqueueBased(servers, cl);
    EnqueueSlots(cl);
    BasedShards(servers, cl);
    hide SlotInv; hide Based; hide EnqueueClient; hide Enqueued;
    if s in cl.manager.requests {
      EnqueueKeeps(servers[s], SlotOf(cl, s));
    }
    hide SlotOf; hide LateOf;
    OneSlot(servers, cl, EnqueueClient(cl), s);
  }

  lemma EnqueueBased(servers: map<string, Server>, cl: Client)
    requires Based(servers, cl) && cl.grip.Holding?
    ensures Based(servers, EnqueueClient(cl))
  {
    hide Sane; hide Safe;
  }

  // Asking, picking and giving up touch no slot.
  lemma NoSlot(servers: map<string, Server>, cl: Client, cl': Client)
    requires ClientInv(servers, cl) && Based(servers, cl') && cl'.manager == cl.manager && cl'.readers == cl.readers
    requires forall s :: LateOf(cl', s) == LateOf(cl, s) || (LateOf(cl', s).Nobody? && InHand(LateOf(cl, s)) == [])
    ensures ClientInv(servers, cl')
  {
    BasedShards(servers, cl);
    hide Based; hide SlotInv; hide LateOf;
    forall s | s in cl'.manager.requests
      ensures SlotInv(servers[s], SlotOf(cl', s))
    {
      LetGo(servers[s], SlotOf(cl, s));
      assert SlotOf(cl', s) == SlotOf(cl, s).(late := LateOf(cl', s));
    }
  }

  lemma LetGo(sv: Server, slot: Slot)
    requires SlotInv(sv, slot)
    ensures InHand(slot.late) == [] ==> SlotInv(sv, slot.(late := Nobody))
  {
    assert InHand(slot.late) == [] ==> Held(slot.(late := Nobody)) == Held(slot);
  }

  lemma ManagerBased(servers: map<string, Server>, cl: Client, m: Manager)
    requires Based(servers, cl) && Provisioned(m) && m.requests.Keys <= cl.manager.requests.Keys
    ensures Based(servers, cl.(manager := m))
  {
    hide Sane; hide Safe;
  }

  lemma SyncClientKeeps(servers: map<string, Server>, cl: Client)
    requires ClientInv(servers, cl)
    ensures ClientInv(servers, cl.(manager := Sync(cl.manager)))
  {
    var cl' := cl.(manager := Sync(cl.manager));
    SyncKeepsProvisioned(cl.manager);
    ManagerBased(servers, cl, Sync(cl.manager));
    BasedShards(servers, cl);
    hide Based; hide SlotInv; hide SyncSlot;
    forall s | s in cl'.manager.requests
      ensures SlotInv(servers[s], SlotOf(cl', s))
    {
      SyncSlotOf(cl, s);
      SyncKeeps(servers[s], SlotOf(cl, s), s);
    }
  }

  lemma SyncSlotOf(cl: Client, s: string)
    requires s in cl.manager.requests
    ensures s in Sync(cl.manager).requests && SlotOf(cl.(manager := Sync(cl.manager)), s) == SyncSlot(SlotOf(cl, s), s)
  {
  }

  // Dropping pending offsets, or only stamping them.
  lemma PendingClientKeeps(servers: map<string, Server>, cl: Client, m: Manager)
    requires ClientInv(servers, cl)
    requires m.requests == cl.manager.requests && m.meta == cl.manager.meta
    requires m.last == map[] || (m.last.Keys == cl.manager.last.Keys
                                 && forall s :: s in m.last ==> m.last[s].offset == cl.manager.last[s].offset)
    ensures ClientInv(servers, cl.(manager := m))
  {
    hide Orderly; hide Sane; hide Safe;
    var cl' := cl.(manager := m);
    ManagerBased(servers, cl, m);
    BasedShards(servers, cl);
    hide Based;
    forall s | s in m.requests
      ensures SlotInv(servers[s], SlotOf(cl', s))
    {
      assert SlotInv(servers[s], SlotOf(cl, s));
      SamePlace(servers[s], SlotOf(cl, s), SlotOf(cl', s));
    }
  }

  lemma SamePlace(sv: Server, a: Slot, b: Slot)
    requires Orderly(sv, a) && b == a.(pending := b.pending)
    ensures Orderly(sv, b)
  {
    assert Held(a) == Held(b);
  }

  lemma ReleaseClientKeeps(servers: map<string, Server>, cl: Client, shards: set<string>)
    requires ClientInv(servers, cl)
    ensures ClientInv(servers, cl.(manager := Release(cl.manager, shards)))
  {
    hide SlotInv; hide Sane; hide Safe;
    var cl' := cl.(manager := Release(cl.manager, shards));
    ManagerBased(servers, cl, Release(cl.manager, shards));
    hide Based;
    forall s | s in cl'.manager.requests
      ensures SlotInv(servers[s], SlotOf(cl', s))
    {
      assert SlotOf(cl', s) == SlotOf(cl, s);
    }
  }

  lemma EmptyClient(servers: map<string, Server>, cl: Client)
    requires Based(servers, cl)
    ensures ClientInv(servers, cl.(manager := EMPTY))
    ensures ClientInv(servers, Client(cl.limit, EMPTY, map[], Free, map[], false))
  {
    hide Sane; hide Safe;
  }

  // The session, answer, pick and give-up steps.
  lemma QuietKeeps(servers: map<string, Server>, cl: Client, a: Action)
    requires ServersInv(servers) && ClientInv(servers, cl) && (a.Ask? || a.Pick? || a.GiveUp?)
             && Allowed(servers, cl, a)
    ensures ClientInv(servers, ClientAfter(servers, cl, a))
  {
    hide Sane; hide Safe; hide SlotInv;
    NoSlot(servers, cl, ClientAfter(servers, cl, a));
  }

  // Every action but acknowledging leaves the acting consumer sound on the old server state.
  lemma ClientKeeps(servers: map<string, Server>, cl: Client, a: Action)
    requires ServersInv(servers) && ClientInv(servers, cl) && OfClient(a) && !a.AckMessage?
    requires Provisioned(cl.manager) && Allowed(servers, cl, a)
    requires a.Open? ==> Orderly(servers[a.shard], SlotOf(OpenClient(cl, a.shard, a.version, a.session), a.shard))
    ensures ClientInv(servers, ClientAfter(servers, cl, a))
  {
    hide ClientInv; hide ServersInv; hide Sync; hide Release; hide Orderly; hide MayEnd; hide IsReading; hide HasReader;
    hide WithReaderAt; hide OpenClient; hide SendClient; hide CloseClient; hide TakeClient; hide EnqueueClient;
    hide SendFetch; hide SeekFetch;
    hide EndFetch;
    match a
    case Open(_, s, v, ss) => OpenKeeps(servers, cl, s, v, ss);
    case Close(_, s) => CloseKeepsClient(servers, cl, s);
    case Look(_) => RoomKeeps(servers, cl, R.HasRoom(BeingRead(cl).reader, cl.limit));
    case Send(_, accepted) => SendKeepsClient(servers, cl, accepted);
    case Seek(_, s, b, o) => SeekKeepsClient(servers, cl, s, b, o);
    case Finish(_, s, b, end) => FinishKeepsClient(servers, cl, s, b, end);
    case Take(_) => TakeKeepsClient(servers, cl);
    case Enqueue(_) => EnqueueKeepsClient(servers, cl);
    case InvalidCursor(_, s) => ResetKeepsClient(servers, cl, s);
    case SyncOffsets(_) => SyncClientKeeps(servers, cl);
    case Commit(_, _, accepted) =>
      PendingClientKeeps(servers, cl, if accepted then Stamp(cl.manager).(last := map[]) else Stamp(cl.manager));
    case ReleaseShards(_, shards) => ReleaseClientKeeps(servers, cl, shards);
    case ResetOffsets(_) => EmptyClient(servers, cl) by { InvBased(servers, cl); }
    case Forget(_) => PendingClientKeeps(servers, cl, cl.manager.(last := map[]));
    case _ => QuietKeeps(servers, cl, a);
  }

  lemma InvBased(servers: map<string, Server>, cl: Client)
    requires ClientInv(servers, cl)
    ensures Based(servers, cl)
  {
  }

  lemma AckedSlot(cl: Client, s: string, i: nat)
    requires s in cl.manager.requests && i < |cl.manager.requests[s]|
    ensures var q, cl' := cl.manager.requests[s], cl.(manager := Ack(cl.manager, s, i));
            SlotOf(cl', s) == SlotOf(cl, s).(queue := q[i := q[i].(ready := true)])
  {
  }

  lemma ServerRange(sv: Server)
    requires ServerInv(sv)
    ensures sv.oldest <= |sv.log|
  {
  }

  lemma AckBased(servers: map<string, Server>, cl: Client, s: string, i: nat)
    requires Based(servers, cl) && s in cl.manager.requests && i < |cl.manager.requests[s]|
    ensures Based(servers, cl.(manager := Ack(cl.manager, s, i)))
  {
    hide Sane; hide Safe;
  }

  lemma PendingSafe(servers: map<string, Server>, cl: Client, s: string)
    requires ClientInv(servers, cl) && s in cl.manager.last
    ensures s in servers && Safe(servers[s], cl.manager.last[s].offset)
  {
    hide Orderly; hide Sane;
    assert SlotInv(servers[s], SlotOf(cl, s));
  }

  lemma NewClient(servers: map<string, Server>, limit: nat)
    ensures ClientInv(servers, Client(limit, EMPTY, map[], Free, map[], false))
  {
  }
}
