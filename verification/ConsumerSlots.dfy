/**
What one consumer holds for one shard, and what must hold of it so that committing never abandons a
record: the messages queued for commit, the record between its reader and that queue, the shard's
reader, and a reader that is still being read although it was removed from the map.
*/
module ConsumerSlots {
  import opened Collections
  import opened OffsetManagement
  import R = ShardReading

  // One shard on the server. A record's sequence is its position in the log; `acked` is history,
  // the records some user acknowledged.
  datatype Server = Server(log: seq<int>, oldest: nat, committed: Option<Offset>, acked: set<nat>)

  // The fetch task of a reader: none, waiting in the thread pool, or fetching behind a cursor.
  datatype Flight = Landed | Sent | At(cursor: nat)

  datatype Fetcher = Fetcher(reader: R.Reader, flight: Flight)

  // The record taken from a reader and not queued yet, or the reader it will be taken from when
  // that one is no longer the shard's reader.
  datatype Late = Nobody | Taken(offset: Offset) | Beside(fetcher: Fetcher)

  datatype Slot = Slot(queue: seq<Entry>, pending: Option<Offset>, late: Late, fetcher: Option<Fetcher>)

  // A task that was refused by the pool or died leaves the running flag set: no fetch ever follows.
  predicate Stuck(f: Fetcher) {
    f.reader.running && f.flight.Landed?
  }

  // Nothing is lost with a record that was acknowledged or has expired.
  predicate Done(sv: Server, n: int) {
    n < sv.oldest || n in sv.acked
  }

  // Committing o abandons no record: everything up to it is done.
  ghost predicate Safe(sv: Server, o: Offset) {
    0 <= o.sequence < |sv.log| && forall n :: 0 <= n <= o.sequence ==> Done(sv, n)
  }

  function QueueSequences(q: seq<Entry>): (s: seq<int>)
    ensures |s| == |q| && forall i :: 0 <= i < |s| ==> s[i] == q[i].offset.sequence
  {
    seq(|q|, i requires 0 <= i < |q| => q[i].offset.sequence)
  }

  // The record in hand, or the one in front of a reader beside the map: its reading goes on.
  function InHand(late: Late): seq<int> {
    match late
    case Nobody => []
    case Taken(o) => [o.sequence]
    case Beside(f) => if f.reader.cache != [] && f.reader.cache[0].Record? then [f.reader.cache[0].sequence] else []
  }

  function Cached(fetcher: Option<Fetcher>): seq<int> {
    if fetcher.Some? then R.Sequences(fetcher.value.reader.cache) else []
  }

  // Records that will be committed over, in order, without fetching again.
  function Held(slot: Slot): seq<int> {
    QueueSequences(slot.queue) + InHand(slot.late) + Cached(slot.fetcher)
  }

  // ---------------------------------------------------------------- the invariant of a slot

  // Whatever precedes x is done or among the records before it.
  ghost predicate Admits(sv: Server, before: seq<int>, x: int) {
    0 <= x < |sv.log| && forall n :: 0 <= n < x ==> Done(sv, n) || n in before
  }

  // Each held record is admitted by those before it.
  ghost predicate Closed(sv: Server, held: seq<int>) {
    forall i :: 0 <= i < |held| ==> Admits(sv, held[..i], held[i])
  }

  // Whatever precedes position p is done or held.
  ghost predicate Covers(sv: Server, held: seq<int>, p: int) {
    0 <= p <= |sv.log| && forall n :: 0 <= n < p ==> Done(sv, n) || n in held
  }

  // Where the reader seeks next.
  ghost predicate SeeksOk(sv: Server, held: seq<int>, p: R.Position) {
    if p.cursor.Some? then Covers(sv, held, p.cursor.value)
    else if p.sequence == -1 then p.timestamp == -1
    else Covers(sv, held, p.sequence)
  }

  // Wherever the reader may fetch next, nothing before that position is forgotten.
  ghost predicate FetchesOk(sv: Server, held: seq<int>, f: Fetcher) {
    !Stuck(f) ==> SeeksOk(sv, held, f.reader.position) && (f.flight.At? ==> Covers(sv, held, f.flight.cursor))
  }

  // With an empty cache, a reader beside the map hands out the record its next fetch finds.
  ghost predicate BesideOk(sv: Server, before: seq<int>, f: Fetcher) {
    if f.reader.cache != [] then true
    else if f.flight.At? then Covers(sv, before, f.flight.cursor)
    else !Stuck(f) ==> SeeksOk(sv, before, f.reader.position)
  }

  // No record is handed out before one that it would be committed over.
  ghost predicate Orderly(sv: Server, slot: Slot) {
    && Closed(sv, Held(slot))
    && (slot.fetcher.Some? ==> FetchesOk(sv, Held(slot), slot.fetcher.value))
    && (slot.late.Beside? ==> BesideOk(sv, QueueSequences(slot.queue), slot.late.fetcher))
  }

  ghost predicate SlotInv(sv: Server, slot: Slot) {
    && Orderly(sv, slot)
    && (forall i :: 0 <= i < |slot.queue| && slot.queue[i].ready ==> slot.queue[i].offset.sequence in sv.acked)
    && (slot.pending.Some? ==> Safe(sv, slot.pending.value))
  }

  // Positions and cached records are the log's, and only a running reader has a task.
  ghost predicate Sane(sv: Server, f: Fetcher) {
    && (f.flight.Landed? || f.reader.running)
    && (f.flight.At? ==> f.flight.cursor <= |sv.log|)
    && (f.reader.position.cursor.Some? ==> f.reader.position.cursor.value <= |sv.log|)
    && (f.reader.position.cursor.None? ==>
          if f.reader.position.sequence == -1 then f.reader.position.timestamp == -1
          else 0 <= f.reader.position.sequence <= |sv.log|)
    && (forall i :: 0 <= i < |f.reader.cache| && f.reader.cache[i].Record? ==> f.reader.cache[i].sequence < |sv.log|)
  }

  ghost predicate SaneLate(sv: Server, late: Late) {
    match late
    case Nobody => true
    case Taken(o) => 0 <= o.sequence < |sv.log|
    case Beside(f) => Sane(sv, f)
  }

  // ---------------------------------------------------------------- steps of a reader

  // The session start InitAndGetOffsets derives from the committed offset.
  function SessionStart(committed: Option<Offset>): R.Position {
    match committed
    case None => R.Position(-1, -1, None)
    case Some(o) => R.Position(if o.sequence < 0 then o.sequence else o.sequence + 1, o.timestamp, None)
  }

  function Fresh(committed: Option<Offset>): Fetcher {
    Fetcher(R.Start(SessionStart(committed)), Landed)
  }

  // GetNextCursor: the cursor held, or the server's answer for the session start; a start beyond
  // the log makes it fall back to the oldest record.
  function CursorFor(sv: Server, p: R.Position, outOfRange: bool): nat {
    if p.cursor.Some? then p.cursor.value
    else
      match R.CursorRequestOf(p)
      case BySequence(n) => if outOfRange || n < 0 then sv.oldest else n
      case ByTimestamp(_) => sv.oldest
      case Oldest => sv.oldest
  }

  // Behind a committed record the server looks for the next one; where it does not find that, and
  // where nothing was committed, the oldest record is next, and a cursor held is always kept.
  lemma SeeksFrom(sv: Server, o: Offset, p: R.Position)
    requires o.sequence >= 0
    ensures CursorFor(sv, SessionStart(Some(o)), false) == o.sequence + 1
    ensures CursorFor(sv, SessionStart(Some(o)), true) == sv.oldest
    ensures forall outOfRange :: CursorFor(sv, SessionStart(None), outOfRange) == sv.oldest
    ensures forall outOfRange :: p.cursor.Some? ==> CursorFor(sv, p, outOfRange) == p.cursor.value
  {
  }

  // The read loop sets the running flag and submits the task, which the pool may refuse.
  function SendFetch(f: Fetcher, accepted: bool): Fetcher {
    Fetcher(f.reader.(running := true), if accepted then Sent else Landed)
  }

  // The task works out its cursor ...
  function SeekFetch(sv: Server, f: Fetcher, outOfRange: bool): Fetcher {
    f.(flight := At(CursorFor(sv, f.reader.position, outOfRange)))
  }

  // ... and ends with the k records behind it, or with an exception, at any time.
  datatype FetchEnd = Delivered(k: nat) | FetchFailed | FetchBroken

  predicate MayEnd(sv: Server, f: Fetcher, end: FetchEnd) {
    !f.flight.Landed? && (end.Delivered? ==> f.flight.At? && f.flight.cursor + end.k <= |sv.log|)
  }

  function LogSlice(sv: Server, c: nat, k: nat): (s: seq<(nat, int)>)
    requires c + k <= |sv.log|
    ensures |s| == k && forall i :: 0 <= i < k ==> s[i] == (c + i, sv.log[c + i])
  {
    seq(k, i requires 0 <= i < k => (c + i, sv.log[c + i]))
  }

  function EndFetch(sv: Server, f: Fetcher, end: FetchEnd): Fetcher
    requires MayEnd(sv, f, end)
  {
    match end
    case Delivered(k) =>
      Fetcher(R.Fetch(f.reader, R.Records(LogSlice(sv, f.flight.cursor, k), Some(f.flight.cursor + k))), Landed)
    case FetchFailed => Fetcher(R.Fetch(f.reader, R.Failed), Landed)
    case FetchBroken => Fetcher(R.Fetch(f.reader, R.Broken), Landed)
  }

  // The reader after the read loop has taken the front of its cache.
  function Popped(f: Fetcher): Fetcher {
    f.(reader := R.TakeFront(f.reader).0)
  }

  function ResetFetcher(f: Fetcher): Fetcher {
    f.(reader := R.ResetOffset(f.reader))
  }

  // What is in hand once the front of the cache was taken: the record, or nothing.
  function TakenFrom(f: Fetcher): Late {
    var result := R.TakeFront(f.reader).1;
    if result.Got? then Taken(Offset(result.systemTime, result.sequence, 0)) else Nobody
  }

  function SyncSlot(slot: Slot, shard: string): Slot {
    slot.(queue := Unacked(slot.queue),
          pending := if AckedLength(slot.queue) > 0 && shard != "" then Some(LastPopped(slot.queue)) else slot.pending)
  }

  function Enqueued(slot: Slot): Slot
    requires slot.late.Taken?
  {
    slot.(queue := slot.queue + [Entry(slot.late.offset, false)], late := Nobody)
  }

  // ---------------------------------------------------------------- the server only gains

  ghost predicate Extends(a: Server, b: Server) {
    a.log <= b.log && a.oldest <= b.oldest <= |b.log| && a.acked <= b.acked
  }

  lemma GrowSafe(a: Server, b: Server, o: Offset)
    requires Extends(a, b) && Safe(a, o)
    ensures Safe(b, o)
  {
    forall n | 0 <= n <= o.sequence
      ensures Done(b, n)
    {
      assert Done(a, n);
    }
  }

  // More done and more before: what was admitted or covered still is.
  ghost predicate Keeps(a: Server, before: seq<int>, b: Server, after: seq<int>) {
    |a.log| <= |b.log| && forall n :: Done(a, n) || n in before ==> Done(b, n) || n in after
  }

  lemma AdmitsMore(a: Server, before: seq<int>, b: Server, after: seq<int>, x: int)
    requires Admits(a, before, x) && Keeps(a, before, b, after)
    ensures Admits(b, after, x)
  {
    forall n | 0 <= n < x
      ensures Done(b, n) || n in after
    {
      assert Done(a, n) || n in before;
    }
  }

  lemma CoversMore(a: Server, before: seq<int>, b: Server, after: seq<int>, p: int)
    requires Covers(a, before, p) && Keeps(a, before, b, after)
    ensures Covers(b, after, p)
  {
    forall n | 0 <= n < p
      ensures Done(b, n) || n in after
    {
      assert Done(a, n) || n in before;
    }
  }

  lemma SeeksMore(a: Server, before: seq<int>, b: Server, after: seq<int>, p: R.Position)
    requires SeeksOk(a, before, p) && Keeps(a, before, b, after)
    ensures SeeksOk(b, after, p)
  {
    hide Covers; hide Keeps;
    if p.cursor.Some? {
      CoversMore(a, before, b, after, p.cursor.value);
    } else if p.sequence != -1 {
      CoversMore(a, before, b, after, p.sequence);
    }
  }

  lemma FetchesMore(a: Server, before: seq<int>, b: Server, after: seq<int>, f: Fetcher)
    requires FetchesOk(a, before, f) && Keeps(a, before, b, after)
    ensures FetchesOk(b, after, f)
  {
    hide Covers; hide Keeps; hide SeeksOk;
    if !Stuck(f) {
      SeeksMore(a, before, b, after, f.reader.position);
      if f.flight.At? {
        CoversMore(a, before, b, after, f.flight.cursor);
      }
    }
  }

  lemma BesideMore(a: Server, before: seq<int>, b: Server, after: seq<int>, f: Fetcher)
    requires BesideOk(a, before, f) && Keeps(a, before, b, after)
    ensures BesideOk(b, after, f)
  {
    hide Covers; hide Keeps; hide SeeksOk; hide Admits;
    if f.reader.cache == [] && f.flight.At? {
      CoversMore(a, before, b, after, f.flight.cursor);
    } else if f.reader.cache == [] && !Stuck(f) {
      SeeksMore(a, before, b, after, f.reader.position);
    }
  }

  lemma GrowKeeps(a: Server, b: Server, held: seq<int>)
    requires Extends(a, b)
    ensures Keeps(a, held, b, held)
  {
  }

  lemma GrowClosed(a: Server, b: Server, held: seq<int>)
    requires Extends(a, b) && Closed(a, held)
    ensures Closed(b, held)
  {
    hide Admits; hide Extends;
    forall i | 0 <= i < |held|
      ensures Admits(b, held[..i], held[i])
    {
      GrowKeeps(a, b, held[..i]);
      AdmitsMore(a, held[..i], b, held[..i], held[i]);
    }
  }

  lemma GrowOrderly(a: Server, b: Server, slot: Slot)
    requires Extends(a, b) && Orderly(a, slot)
    ensures Orderly(b, slot)
  {
    hide Closed; hide FetchesOk; hide BesideOk; hide Extends; hide Keeps; hide Held;
    GrowClosed(a, b, Held(slot));
    GrowKeeps(a, b, Held(slot));
    GrowKeeps(a, b, QueueSequences(slot.queue));
    if slot.fetcher.Some? {
      FetchesMore(a, Held(slot), b, Held(slot), slot.fetcher.value);
    }
    if slot.late.Beside? {
      BesideMore(a, QueueSequences(slot.queue), b, QueueSequences(slot.queue), slot.late.fetcher);
    }
  }

  lemma GrowSlot(a: Server, b: Server, slot: Slot)
    requires Extends(a, b) && SlotInv(a, slot)
    ensures SlotInv(b, slot)
  {
    hide Orderly; hide Safe;
    GrowOrderly(a, b, slot);
    if slot.pending.Some? {
      GrowSafe(a, b, slot.pending.value);
    }
  }

  lemma GrowSane(a: Server, b: Server, f: Fetcher)
    requires Extends(a, b) && Sane(a, f)
    ensures Sane(b, f)
  {
  }

  // ---------------------------------------------------------------- syncing and acknowledging

  lemma AckedDone(sv: Server, slot: Slot)
    requires SlotInv(sv, slot)
    ensures forall i :: 0 <= i < AckedLength(slot.queue) ==> Done(sv, QueueSequences(slot.queue)[i])
  {
    hide Orderly;
    AckedPrefix(slot.queue);
  }

  // Dropping a done prefix forgets only done records.
  lemma DropKeeps(sv: Server, held: seq<int>, k: nat, j: nat)
    requires k <= j <= |held| && forall i :: 0 <= i < k ==> Done(sv, held[i])
    ensures Keeps(sv, held[..j], sv, held[k..][..j - k])
  {
    forall n | n in held[..j]
      ensures Done(sv, n) || n in held[k..][..j - k]
    {
      var i :| 0 <= i < j && held[i] == n;
      if i >= k {
        assert held[k..][..j - k][i - k] == n;
      }
    }
  }

  lemma DropClosed(sv: Server, held: seq<int>, k: nat)
    requires Closed(sv, held) && k <= |held| && forall i :: 0 <= i < k ==> Done(sv, held[i])
    ensures Closed(sv, held[k..])
  {
    hide Admits; hide Keeps; hide Done;
    forall i | 0 <= i < |held[k..]|
      ensures Admits(sv, held[k..][..i], held[k..][i])
    {
      DropKeeps(sv, held, k, k + i);
      assert held[k..][i] == held[k + i];
      AdmitsMore(sv, held[..k + i], sv, held[k..][..i], held[k + i]);
    }
  }

  lemma DropSafe(sv: Server, held: seq<int>, k: nat, o: Offset)
    requires Closed(sv, held) && 0 < k <= |held| && o.sequence == held[k - 1]
    requires forall i :: 0 <= i < k ==> Done(sv, held[i])
    ensures Safe(sv, o)
  {
    assert Admits(sv, held[..k - 1], held[k - 1]);
    forall n | 0 <= n <= o.sequence
      ensures Done(sv, n)
    {
      if n in held[..k - 1] {
        var i :| 0 <= i < k - 1 && held[i] == n;
      }
    }
  }

  lemma SyncHeld(slot: Slot, shard: string)
    ensures Held(SyncSlot(slot, shard)) == Held(slot)[AckedLength(slot.queue)..]
    ensures QueueSequences(SyncSlot(slot, shard).queue) == QueueSequences(slot.queue)[AckedLength(slot.queue)..]
  {
    AckedPrefix(slot.queue);
  }

  // All but the first k of what is held, k of them done.
  lemma DropsKept(sv: Server, held: seq<int>, k: nat)
    requires k <= |held| && forall i :: 0 <= i < k ==> Done(sv, held[i])
    ensures Keeps(sv, held, sv, held[k..])
  {
    hide Keeps; hide Done;
    DropKeeps(sv, held, k, |held|);
    assert held[..|held|] == held && held[k..][..|held| - k] == held[k..];
  }

  lemma SyncOrderly(sv: Server, slot: Slot, shard: string)
    requires SlotInv(sv, slot)
    ensures Orderly(sv, SyncSlot(slot, shard))
    ensures AckedLength(slot.queue) > 0 ==> Safe(sv, LastPopped(slot.queue))
  {
    var k, held, queue := AckedLength(slot.queue), Held(slot), QueueSequences(slot.queue);
    AckedPrefix(slot.queue);
    SyncHeld(slot, shard);
    AckedDone(sv, slot);
    hide Closed; hide FetchesOk; hide BesideOk; hide Keeps; hide Done; hide Safe; hide Held;
    QueueFirst(slot);
    DropClosed(sv, held, k);
    DropsKept(sv, held, k);
    DropsKept(sv, queue, k);
    if slot.fetcher.Some? {
      FetchesMore(sv, held, sv, held[k..], slot.fetcher.value);
    }
    if slot.late.Beside? {
      BesideMore(sv, queue, sv, queue[k..], slot.late.fetcher);
    }
    if k > 0 {
      DropSafe(sv, held, k, LastPopped(slot.queue));
    }
  }

  lemma SyncKeeps(sv: Server, slot: Slot, shard: string)
    requires SlotInv(sv, slot)
    ensures SlotInv(sv, SyncSlot(slot, shard))
  {
    SyncOrderly(sv, slot, shard);
    hide Orderly; hide Safe;
    AckedPrefix(slot.queue);
  }

  lemma QueueFirst(slot: Slot)
    ensures |QueueSequences(slot.queue)| <= |Held(slot)|
    ensures forall i :: 0 <= i < |slot.queue| ==> Held(slot)[i] == QueueSequences(slot.queue)[i]
  {
  }

  // Acknowledging the i-th queued message.
  lemma AckKeeps(sv: Server, slot: Slot, i: nat)
    requires SlotInv(sv, slot) && i < |slot.queue| && sv.oldest <= |sv.log|
    ensures var q := slot.queue;
            0 <= q[i].offset.sequence
            && SlotInv(sv.(acked := sv.acked + {q[i].offset.sequence}), slot.(queue := q[i := q[i].(ready := true)]))
  {
    var q := slot.queue;
    QueueFirst(slot);
    assert Admits(sv, Held(slot)[..i], Held(slot)[i]);
    var grown := sv.(acked := sv.acked + {q[i].offset.sequence});
    hide Orderly;
    GrowSlot(sv, grown, slot);
    SameOrderly(grown, slot, slot.(queue := q[i := q[i].(ready := true)]));
  }

  lemma SameOrderly(sv: Server, a: Slot, b: Slot)
    requires Orderly(sv, a) && |a.queue| == |b.queue| && a.late == b.late && a.fetcher == b.fetcher
    requires forall i :: 0 <= i < |a.queue| ==> a.queue[i].offset == b.queue[i].offset
    ensures Orderly(sv, b)
  {
    hide Closed; hide FetchesOk; hide BesideOk;
    assert QueueSequences(a.queue) == QueueSequences(b.queue);
  }

  // ---------------------------------------------------------------- reading

  lemma PrefixClosed(sv: Server, a: seq<int>, b: seq<int>)
    requires Closed(sv, a + b)
    ensures Closed(sv, a)
  {
    hide Admits;
    forall i | 0 <= i < |a|
      ensures Admits(sv, a[..i], a[i])
    {
      assert Admits(sv, (a + b)[..i], (a + b)[i]);
      assert (a + b)[..i] == a[..i];
    }
  }

  lemma InsertKeeps(sv: Server, a: seq<int>, x: int, b: seq<int>)
    ensures Keeps(sv, a + b, sv, a + [x] + b)
  {
  }

  // A record admitted by what comes before it may be put in between.
  lemma InsertClosed(sv: Server, a: seq<int>, x: int, b: seq<int>)
    requires Closed(sv, a + b) && Admits(sv, a, x)
    ensures Closed(sv, a + [x] + b)
  {
    hide Admits;
    var all := a + [x] + b;
    forall i | 0 <= i < |all|
      ensures Admits(sv, all[..i], all[i])
    {
      if i < |a| {
        assert Admits(sv, (a + b)[..i], (a + b)[i]);
        assert (a + b)[..i] == all[..i];
      } else if i == |a| {
        assert all[..i] == a;
      } else {
        assert Admits(sv, (a + b)[..i - 1], (a + b)[i - 1]);
        InsertKeeps(sv, a, x, b[..i - 1 - |a|]);
        assert (a + b)[..i - 1] == a + b[..i - 1 - |a|] && all[..i] == a + [x] + b[..i - 1 - |a|];
        AdmitsMore(sv, (a + b)[..i - 1], sv, all[..i], all[i]);
      }
    }
  }

  lemma SequencesFront(cache: seq<R.Fetched>)
    requires cache != []
    ensures R.Sequences(cache) == (if cache[0].Record? then [cache[0].sequence] else []) + R.Sequences(cache[1..])
  {
  }

  // Taking the front of the shard's own reader, or queueing what is in hand, changes nothing held.
  lemma TakeOwnHeld(slot: Slot)
    requires slot.late.Nobody? && slot.fetcher.Some?
    ensures var f := slot.fetcher.value;
            Held(slot.(late := TakenFrom(f), fetcher := Some(Popped(f)))) == Held(slot)
  {
    var cache := slot.fetcher.value.reader.cache;
    if cache != [] {
      SequencesFront(cache);
      hide R.Sequences;
    }
  }

  lemma TakeOwnKeeps(sv: Server, slot: Slot)
    requires SlotInv(sv, slot) && slot.late.Nobody? && slot.fetcher.Some?
    ensures var f := slot.fetcher.value;
            SlotInv(sv, slot.(late := TakenFrom(f), fetcher := Some(Popped(f))))
  {
    hide Closed; hide SeeksOk; hide Covers; hide Held;
    TakeOwnHeld(slot);
  }

  lemma EnqueueHeld(slot: Slot)
    requires slot.late.Taken?
    ensures Held(Enqueued(slot)) == Held(slot)
  {
    assert QueueSequences(Enqueued(slot).queue) == QueueSequences(slot.queue) + InHand(slot.late);
  }

  lemma EnqueueKeeps(sv: Server, slot: Slot)
    requires SlotInv(sv, slot) && slot.late.Taken?
    ensures SlotInv(sv, Enqueued(slot))
  {
    hide Closed; hide FetchesOk; hide Held;
    EnqueueHeld(slot);
  }

  // Taking the front of a reader beside the map changes nothing held either.
  lemma TakeBesideKeeps(sv: Server, slot: Slot)
    requires SlotInv(sv, slot) && slot.late.Beside?
    ensures SlotInv(sv, slot.(late := TakenFrom(slot.late.fetcher)))
  {
    hide Closed; hide FetchesOk; hide R.Sequences; hide QueueSequences;
    assert Held(slot.(late := TakenFrom(slot.late.fetcher))) == Held(slot);
  }

  // Removing a reader from the map forgets its cache, but for the record being read from it.
  lemma CloseKeeps(sv: Server, slot: Slot, late: Late)
    requires SlotInv(sv, slot)
    requires late == slot.late || (slot.late.Nobody? && slot.fetcher.Some? && late == Beside(slot.fetcher.value))
    ensures SlotInv(sv, slot.(fetcher := None, late := late))
  {
    var after := slot.(fetcher := None, late := late);
    var queue, cached := QueueSequences(slot.queue), Cached(slot.fetcher);
    hide Closed; hide SeeksOk; hide Covers; hide QueueSequences;
    if late == slot.late {
      hide R.Sequences;
      assert Held(slot) == queue + InHand(late) + cached;
      PrefixClosed(sv, queue + InHand(late), cached);
      assert Held(after) == queue + InHand(late);
    } else {
      var f := slot.fetcher.value;
      assert Held(slot) == queue + cached;
      FrontSplit(f);
      assert queue + cached == queue + InHand(late) + cached[|InHand(late)|..];
      PrefixClosed(sv, queue + InHand(late), cached[|InHand(late)|..]);
      assert Held(after) == queue + InHand(late);
      if f.reader.cache == [] {
        assert queue + cached == queue;
      }
    }
  }

  lemma FrontSplit(f: Fetcher)
    ensures var cached := R.Sequences(f.reader.cache);
            |InHand(Beside(f))| <= |cached| && cached == InHand(Beside(f)) + cached[|InHand(Beside(f))|..]
  {
  }

  // ---------------------------------------------------------------- fetching

  // What a fetch adds to the held records: the k records behind its cursor.
  function Added(f: Fetcher, end: FetchEnd): (s: seq<int>)
    requires end.Delivered? ==> f.flight.At?
    ensures |s| == if end.Delivered? then end.k else 0
    ensures forall i :: 0 <= i < |s| ==> s[i] == f.flight.cursor + i
  {
    if end.Delivered? then seq(end.k, i => f.flight.cursor + i) else []
  }

  // ... and to the cache.
  function Pushed(sv: Server, f: Fetcher, end: FetchEnd): seq<R.Fetched>
    requires MayEnd(sv, f, end)
  {
    match end
    case FetchFailed =>
      if f.reader.cache == [] || !f.reader.cache[|f.reader.cache| - 1].Exception? then [R.Exception] else []
    case FetchBroken => []
    case Delivered(k) => if k > 0 then R.Wrapped(LogSlice(sv, f.flight.cursor, k)) else [R.Delay]
  }

  lemma EndedCache(sv: Server, f: Fetcher, end: FetchEnd)
    requires MayEnd(sv, f, end)
    ensures EndFetch(sv, f, end).reader.cache == f.reader.cache + Pushed(sv, f, end)
    ensures R.Sequences(Pushed(sv, f, end)) == Added(f, end)
  {
    if end.Delivered? && end.k > 0 {
      R.SequencesOfRecords(LogSlice(sv, f.flight.cursor, end.k));
      hide R.Wrapped; hide LogSlice; hide R.Sequences;
      assert R.Sequences(Pushed(sv, f, end)) == Added(f, end);
    }
  }

  lemma AppendClosed(sv: Server, held: seq<int>, added: seq<int>, c: nat)
    requires Closed(sv, held) && Covers(sv, held, c) && c + |added| <= |sv.log|
    requires forall i :: 0 <= i < |added| ==> added[i] == c + i
    ensures Closed(sv, held + added) && Covers(sv, held + added, c + |added|)
  {
    var all := held + added;
    forall i | 0 <= i < |all|
      ensures Admits(sv, all[..i], all[i])
    {
      if i < |held| {
        assert Admits(sv, held[..i], held[i]);
        assert all[..i] == held[..i];
      } else {
        AppendAdmits(sv, held, added, c, i - |held|);
      }
    }
    forall n | 0 <= n < c + |added|
      ensures Done(sv, n) || n in all
    {
      if n >= c {
        assert all[|held| + n - c] == n;
      }
    }
  }

  lemma AppendAdmits(sv: Server, held: seq<int>, added: seq<int>, c: nat, i: nat)
    requires Covers(sv, held, c) && c + |added| <= |sv.log| && i < |added|
    requires forall j :: 0 <= j < |added| ==> added[j] == c + j
    ensures Admits(sv, (held + added)[..|held| + i], added[i])
  {
    var before := (held + added)[..|held| + i];
    forall n | 0 <= n < added[i]
      ensures Done(sv, n) || n in before
    {
      if n >= c {
        assert before[|held| + n - c] == n;
      } else if !Done(sv, n) {
        var j :| 0 <= j < |held| && held[j] == n;
        assert before[j] == n;
      }
    }
  }

  lemma EndHeld(sv: Server, slot: Slot, end: FetchEnd)
    requires slot.fetcher.Some? && MayEnd(sv, slot.fetcher.value, end)
    ensures Held(slot.(fetcher := Some(EndFetch(sv, slot.fetcher.value, end))))
            == Held(slot) + Added(slot.fetcher.value, end)
  {
    var f := slot.fetcher.value;
    EndedCache(sv, f, end);
    R.SequencesConcat(f.reader.cache, Pushed(sv, f, end));
    hide R.Sequences; hide Added; hide Pushed; hide EndFetch; hide QueueSequences;
  }

  lemma EndKeeps(sv: Server, slot: Slot, end: FetchEnd)
    requires SlotInv(sv, slot) && slot.fetcher.Some? && MayEnd(sv, slot.fetcher.value, end)
    ensures SlotInv(sv, slot.(fetcher := Some(EndFetch(sv, slot.fetcher.value, end))))
  {
    hide Closed; hide Covers; hide Held; hide BesideOk;
    var f, held := slot.fetcher.value, Held(slot);
    EndHeld(sv, slot, end);
    if end.Delivered? {
      AppendClosed(sv, held, Added(f, end), f.flight.cursor);
    } else {
      assert held + Added(f, end) == held;
    }
  }

  // The same for a reader beside the map: a record it finds is put in front of the cached ones.
  lemma EndBesideKeeps(sv: Server, slot: Slot, end: FetchEnd)
    requires SlotInv(sv, slot) && slot.late.Beside? && Sane(sv, slot.late.fetcher) && MayEnd(sv, slot.late.fetcher, end)
    ensures SlotInv(sv, slot.(late := Beside(EndFetch(sv, slot.late.fetcher, end))))
  {
    var f := slot.late.fetcher;
    var after := slot.(late := Beside(EndFetch(sv, f, end)));
    EndedFront(sv, f, end);
    hide Closed; hide R.Sequences; hide QueueSequences; hide SeeksOk; hide EndFetch;
    if f.reader.cache == [] && end.Delivered? && end.k > 0 {
      var queue, cached := QueueSequences(slot.queue), Cached(slot.fetcher);
      assert Held(slot) == queue + cached && Held(after) == queue + [f.flight.cursor] + cached;
      InsertClosed(sv, queue, f.flight.cursor, cached);
      InsertKeeps(sv, queue, f.flight.cursor, cached);
      if slot.fetcher.Some? {
        FetchesMore(sv, Held(slot), sv, Held(after), slot.fetcher.value);
      }
    } else {
      assert Held(after) == Held(slot);
    }
  }

  lemma EndedFront(sv: Server, f: Fetcher, end: FetchEnd)
    requires Sane(sv, f) && MayEnd(sv, f, end)
    ensures var g := EndFetch(sv, f, end);
            && (f.reader.cache != [] ==> g.reader.cache != [] && g.reader.cache[0] == f.reader.cache[0])
            && (f.reader.cache == [] && end.Delivered? && end.k > 0 ==>
                  g.reader.cache != [] && g.reader.cache[0].Record? && g.reader.cache[0].sequence == f.flight.cursor)
            && (f.reader.cache == [] && !(end.Delivered? && end.k > 0) ==>
                  (g.reader.cache == [] && Stuck(g)) || (g.reader.cache != [] && !g.reader.cache[0].Record?))
  {
    if end.Delivered? && end.k > 0 {
      var slice := LogSlice(sv, f.flight.cursor, end.k);
      assert R.Wrapped(slice)[0] == R.Record(slice[0].0, slice[0].1);
    }
  }

  lemma SeekCovers(sv: Server, held: seq<int>, p: R.Position, outOfRange: bool)
    requires SeeksOk(sv, held, p) && sv.oldest <= |sv.log|
    ensures Covers(sv, held, CursorFor(sv, p, outOfRange))
  {
  }

  // Starting a fetch, seeking, resetting: the cache stays.
  ghost predicate SameCache(f: Fetcher, g: Fetcher) {
    g.reader.cache == f.reader.cache
  }

  lemma MoveKeeps(sv: Server, slot: Slot, g: Fetcher)
    requires SlotInv(sv, slot) && slot.fetcher.Some? && SameCache(slot.fetcher.value, g)
    requires FetchesOk(sv, Held(slot), g)
    ensures SlotInv(sv, slot.(fetcher := Some(g)))
  {
    hide Closed; hide FetchesOk; hide BesideOk;
    assert Held(slot.(fetcher := Some(g))) == Held(slot);
  }

  lemma SendFetches(sv: Server, held: seq<int>, f: Fetcher, accepted: bool)
    requires FetchesOk(sv, held, f) && !f.reader.running
    ensures FetchesOk(sv, held, SendFetch(f, accepted))
  {
  }

  lemma SeekFetches(sv: Server, held: seq<int>, f: Fetcher, outOfRange: bool)
    requires FetchesOk(sv, held, f) && f.flight.Sent? && sv.oldest <= |sv.log|
    ensures FetchesOk(sv, held, SeekFetch(sv, f, outOfRange))
  {
    hide Covers; hide CursorFor;
    SeekCovers(sv, held, f.reader.position, outOfRange);
  }

  lemma ResetFetches(sv: Server, held: seq<int>, f: Fetcher)
    requires FetchesOk(sv, held, f)
    ensures FetchesOk(sv, held, ResetFetcher(f))
  {
  }

  lemma MoveBesideKeeps(sv: Server, slot: Slot, g: Fetcher)
    requires SlotInv(sv, slot) && slot.late.Beside? && SameCache(slot.late.fetcher, g)
    requires BesideOk(sv, QueueSequences(slot.queue), g)
    ensures SlotInv(sv, slot.(late := Beside(g)))
  {
    hide Closed; hide FetchesOk; hide BesideOk;
    assert Held(slot.(late := Beside(g))) == Held(slot);
  }

  lemma MoveBesideOk(sv: Server, before: seq<int>, f: Fetcher, accepted: bool, outOfRange: bool)
    requires BesideOk(sv, before, f) && Sane(sv, f) && sv.oldest <= |sv.log|
    ensures !f.reader.running ==> BesideOk(sv, before, SendFetch(f, accepted))
    ensures f.flight.Sent? ==> BesideOk(sv, before, SeekFetch(sv, f, outOfRange))
  {
    hide Covers; hide CursorFor;
    if f.reader.cache == [] && f.flight.Sent? {
      SeekCovers(sv, before, f.reader.position, outOfRange);
    }
  }

  lemma StepsSane(sv: Server, f: Fetcher, accepted: bool, outOfRange: bool)
    requires Sane(sv, f) && sv.oldest <= |sv.log|
    ensures Sane(sv, SendFetch(f, accepted)) && Sane(sv, ResetFetcher(f)) && Sane(sv, Popped(f))
    ensures f.flight.Sent? ==> Sane(sv, SeekFetch(sv, f, outOfRange))
    ensures SaneLate(sv, TakenFrom(f))
  {
  }

  lemma EndSane(sv: Server, f: Fetcher, end: FetchEnd)
    requires Sane(sv, f) && MayEnd(sv, f, end)
    ensures Sane(sv, EndFetch(sv, f, end))
  {
    if end.Delivered? {
      var slice := LogSlice(sv, f.flight.cursor, end.k);
      assert forall i :: 0 <= i < |slice| ==> slice[i].0 < |sv.log|;
    }
  }

  // ---------------------------------------------------------------- opening

  // A session start behind a committed offset forgets nothing.
  lemma FreshFetches(sv: Server, held: seq<int>, committed: Option<Offset>)
    requires committed.Some? ==> Safe(sv, committed.value)
    ensures FetchesOk(sv, held, Fresh(committed)) && Sane(sv, Fresh(committed))
    ensures R.Sequences(Fresh(committed).reader.cache) == []
  {
  }
}
