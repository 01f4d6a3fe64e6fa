/**
ShardGroupReader (client/src/shard_group_reader.cpp): the reader map next to its selector, and the
automatic acknowledgement of the last record handed out. The last message key is thread-local, so
all the auto-acknowledging readers a thread uses share it.
*/
module GroupReading {
  import opened AutoAck
  import opened Collections
  import opened OffsetHeap
  import opened OffsetManagement
  import opened OffsetCoordination
  import C = ConsumerSlots
  import S = ReaderSelector
  import R = ShardReading

  // ---------------------------------------------------------------- automatic acknowledgement

  // One thread's sLastMessagekeyPtr, with the keys handed out on that thread as history.
  class ThreadKey {
    var last: MessageKey?
    ghost var handed: seq<MessageKey>

    // Everything handed out is acknowledged but the last key, while that is still held.
    ghost predicate Valid()
      reads this, handed
    {
      && (forall i, j :: 0 <= i < j < |handed| ==> handed[i] != handed[j])
      && (forall k :: k in handed ==> (k.ready <==> k != last))
      && (last != null ==> handed != [] && last == handed[|handed| - 1])
    }

    constructor ()
      ensures Valid() && handed == [] && last == null
    {
      last, handed := null, [];
    }

    // The last key is acknowledged and let go of.
    method AckLast()
      requires Valid()
      modifies this`last, handed
      ensures Valid() && last == null && handed == old(handed)
    {
      if last != null {
        last.SetReady();
        last := null;
      }
    }

    // The key of the message handed out becomes the last one.
    method Hold(key: MessageKey)
      requires Valid() && last == null && key !in handed && !key.ready
      modifies this
      ensures Valid() && last == key && handed == old(handed) + [key]
    {
      last := key;
      handed := handed + [key];
    }
  }

  // The thread's last message is the one `held` tells of: while its queue has not been dropped, it is
  // the last of its shard's queue.
  ghost predicate Linked(thread: ThreadKey, manager: OffsetManager, held: Option<string>)
    reads thread`last, manager`requests
  {
    && (thread.last == null ==> held.None?)
    && (thread.last != null ==>
          var s := thread.last.shardId;
          held == Some(s) && (s in manager.requests && manager.requests[s] != [] ==>
                                manager.requests[s][|manager.requests[s]| - 1] == thread.last))
  }

  // AckLastMessageKey, seen from the manager.
  method AckLastMessageKey(thread: ThreadKey, manager: OffsetManager, ghost m: Manager, ghost held: Option<string>)
    requires thread.Valid() && manager.Valid() && manager.Represents(m) && Linked(thread, manager, held)
    modifies thread`last, thread.handed
    ensures thread.Valid() && thread.last == null && thread.handed == old(thread.handed)
    ensures manager.Valid() && manager.Represents(AckHeld(m, held))
  {
    ghost var last := thread.last;
    assert forall s, i :: s in manager.requests && 0 <= i < |manager.requests[s]| ==>
        m.requests[s][i] == Entry(manager.requests[s][i].offset, manager.requests[s][i].ready);
    thread.AckLast();
    AckedEntries(manager, last, m, held);
  }

  // What acknowledging the last message does to the queues, m being what they were.
  lemma AckedEntries(manager: OffsetManager, last: MessageKey?, m: Manager, held: Option<string>)
    requires manager.Valid() && m.meta == manager.meta && m.last == manager.last
             && m.requests.Keys == manager.requests.Keys
    requires forall s :: s in m.requests ==> |m.requests[s]| == |manager.requests[s]|
    requires forall s, i :: s in m.requests && 0 <= i < |m.requests[s]| ==>
               var k, e := manager.requests[s][i], m.requests[s][i];
               e.offset == k.offset && (k.ready <==> e.ready || k == last)
    requires last == null ==> held.None?
    requires last != null ==> held == Some(last.shardId)
    requires last != null && last.shardId in manager.requests && manager.requests[last.shardId] != [] ==>
               manager.requests[last.shardId][|manager.requests[last.shardId]| - 1] == last
    ensures manager.Represents(AckHeld(m, held))
  {
    forall s | s in manager.requests
      ensures AckHeld(m, held).requests[s] == Entries(manager.requests[s])
    {
      var q := manager.requests[s];
      forall i | 0 <= i < |q|
        ensures AckHeld(m, held).requests[s][i] == Entry(q[i].offset, q[i].ready)
      {
        assert q[i] in q;
        if q[i] == last {
          assert i == |q| - 1;
        }
      }
    }
  }

  // The error code of a DatahubException: the cursor is invalid, the shard is sealed, or another.
  datatype ErrorCode = InvalidCursor | InvalidShardOperation | OtherCode

  // What one ReadOnceByReader yields: a record under a fresh key, nothing, an exception that is
  // dealt with inside, or one that is thrown on.
  datatype Attempt = Handed(key: MessageKey) | Empty | Handled | Thrown
  datatype ReadOutcome = Record(key: MessageKey) | Nothing | Raised

  // The i-th attempt is the first that ends the loop: with a message, or with an exception.
  ghost predicate EndsAt(attempts: seq<Attempt>, i: nat) {
    && i < |attempts| && (attempts[i].Handed? || attempts[i].Thrown?)
    && forall j :: 0 <= j < i ==> attempts[j].Empty? || attempts[j].Handled?
  }

  // ShardGroupReader::Read. `attempts` are the passes of its loop, the last one when the timer
  // expires or earlier; a message it hands out is sent to the offset manager first.
  method ReadRecord(autoAck: bool, thread: ThreadKey, manager: OffsetManager, attempts: seq<Attempt>,
                    ghost m: Manager, ghost held: Option<string>)
    returns (outcome: ReadOutcome, ghost after: Manager)
    requires thread.Valid() && manager.Valid() && manager.Represents(m) && (autoAck ==> Linked(thread, manager, held))
    requires forall a :: a in attempts && a.Handed? ==>
               a.key !in thread.handed && a.key !in manager.keys && !a.key.ready
    modifies thread, thread.handed, manager
    ensures thread.Valid() && manager.Valid() && manager.Represents(after)
    // the first message or exception is what the caller gets, and nothing only if there is neither
    ensures forall i: nat :: EndsAt(attempts, i) ==>
              outcome == if attempts[i].Handed? then Record(attempts[i].key) else Raised
    ensures outcome == ReadOutcome.Nothing <==>
            forall i :: 0 <= i < |attempts| ==> attempts[i].Empty? || attempts[i].Handled?
    // without automatic acknowledgement, a message returned is queued and nothing else happens
    ensures !autoAck ==> thread.last == old(thread.last) && thread.handed == old(thread.handed)
    ensures !autoAck ==>
              after == if !outcome.Record? then m
                       else SendOffsetRequest(m, outcome.key.shardId, Entry(outcome.key.offset, false))
    // with it, exactly the messages handed out before are acknowledged, and the one returned is held
    ensures autoAck && outcome.Record? ==>
              && thread.handed == old(thread.handed) + [outcome.key]
              && (forall k :: k in thread.handed ==> (k.ready <==> k != outcome.key))
              && after == ReadStep(m, held, outcome.key.shardId, outcome.key.offset)
              && Linked(thread, manager, Some(outcome.key.shardId))
    // after an empty or failed read all of them are
    ensures autoAck && !outcome.Record? ==>
              && thread.handed == old(thread.handed) && (forall k :: k in thread.handed ==> k.ready)
              && after == AckHeld(m, held) && Linked(thread, manager, None)
  {
    hide OffsetManager.Represents; hide OffsetManager.Valid; hide AckHeld; hide SendOffsetRequest;
    after := m;
    if autoAck {
      AckLastMessageKey(thread, manager, m, held);
      after := AckHeld(m, held);
    }
    for i := 0 to |attempts|
      invariant thread.Valid() && manager.Valid() && manager.Represents(after) && manager.keys == old(manager.keys)
      invariant thread.handed == old(thread.handed) && after == if autoAck then AckHeld(m, held) else m
      invariant if autoAck then thread.last == null else thread.last == old(thread.last)
      invariant forall a :: a in attempts && a.Handed? ==>
                  a.key !in thread.handed && a.key !in manager.keys && !a.key.ready
      invariant forall j :: 0 <= j < i ==> attempts[j].Empty? || attempts[j].Handled?
    {
      match attempts[i] {
        case Handed(key) =>
          assert attempts[i] in attempts;
          SendMessage(thread, manager, key, after, autoAck);
          after := SendOffsetRequest(after, key.shardId, Entry(key.offset, false));
          return Record(key), after;
        case Empty =>
        case Handled =>
        case Thrown => return Raised, after;
      }
    }
    return ReadOutcome.Nothing, after;
  }

  // The message joins its shard's queue, and with automatic acknowledgement is held.
  method SendMessage(thread: ThreadKey, manager: OffsetManager, key: MessageKey, ghost m: Manager, autoAck: bool)
    requires thread.Valid() && manager.Valid() && manager.Represents(m) && (autoAck ==> thread.last == null)
    requires key !in thread.handed && key !in manager.keys && !key.ready
    modifies thread, manager
    ensures thread.Valid() && manager.Valid()
    ensures manager.Represents(SendOffsetRequest(m, key.shardId, Entry(key.offset, false)))
    ensures if autoAck then thread.last == key && thread.handed == old(thread.handed) + [key]
            else thread.last == old(thread.last) && thread.handed == old(thread.handed)
    ensures autoAck ==> Linked(thread, manager, Some(key.shardId))
  {
    hide OffsetManager.Represents; hide OffsetManager.Valid; hide SendOffsetRequest;
    manager.SendRequest(key, m);
    ghost var sent := SendOffsetRequest(m, key.shardId, Entry(key.offset, false));
    assert manager.Represents(sent);
    if autoAck {
      thread.Hold(key);
    }
  }

  // While a message is held, a sync leaves it where it is.
  method SyncWhileHeld(thread: ThreadKey, manager: OffsetManager, ghost m: Manager, ghost held: Option<string>)
    requires thread.Valid() && manager.Valid() && manager.Represents(m) && Linked(thread, manager, held)
    modifies manager`requests, manager`last
    ensures thread.Valid() && manager.Valid() && manager.Represents(Sync(m)) && Linked(thread, manager, held)
  {
    hide OffsetManager.Represents; hide OffsetManager.Valid; hide Sync;
    manager.SyncOffset(m);
  }

  // A message the user still holds stops its shard's committed offset in front of it.
  lemma {:induction false} HeldStopsSync(q: seq<Entry>, i: nat)
    requires i < |q| && !q[i].ready
    ensures AckedLength(q) <= i
    ensures Unacked(q) == q[AckedLength(q)..] && q[i] in Unacked(q)
  {
    AckedPrefix(q);
    assert Unacked(q)[i - AckedLength(q)] == q[i];
  }

  // ---------------------------------------------------------------- readers and selector

  datatype NextReader = Reader(shard: string) | NoActiveShard | NotFound(shard: string)

  function Named(shardIds: seq<string>): set<string> {
    set s | s in shardIds
  }

  lemma NamedNone()
    ensures Named([]) == {}
  {
  }

  lemma NamedMore(shardIds: seq<string>, i: nat)
    requires i < |shardIds|
    ensures Named(shardIds[..i + 1]) == Named(shardIds[..i]) + {shardIds[i]}
  {
    assert shardIds[..i + 1] == shardIds[..i] + [shardIds[i]];
  }

  // The readers once the given shards have theirs: those there were, and for each other shard one at
  // its position.
  function Given(before: map<string, R.Reader>, shards: set<string>, positions: map<string, R.Position>)
    : map<string, R.Reader>
  {
    map s | s in before.Keys + (shards * positions.Keys) :: if s in before then before[s] else R.Start(positions[s])
  }

  lemma GivenMore(before: map<string, R.Reader>, shards: set<string>, positions: map<string, R.Position>, s: string)
    ensures var views := Given(before, shards, positions);
            Given(before, shards + {s}, positions) ==
            if s in views || s !in positions then views else views[s := R.Start(positions[s])]
  {
  }

  lemma GivenNone(before: map<string, R.Reader>, positions: map<string, R.Position>)
    ensures Given(before, {}, positions) == before
  {
  }

  // Where the readers of an answer's shards start: at the given time, or behind the committed offset.
  function StartPositions(answer: map<string, Stamped>, timestamp: int): map<string, R.Position> {
    map s | s in answer ::
      if timestamp != -1 then R.Position(-1, timestamp, None) else C.SessionStart(Some(answer[s].offset))
  }

  // A new reader asks for its start time if there is one, and otherwise goes on behind the committed
  // record, or from the oldest one when nothing was committed.
  lemma StartsAsTold(answer: map<string, Stamped>, timestamp: int, s: string)
    requires s in answer
    ensures var r, o := R.Start(StartPositions(answer, timestamp)[s]), answer[s].offset;
            && r.position.cursor.None? && r.cache == [] && !r.running
            && (timestamp != -1 ==> R.CursorRequestOf(r.position) == R.ByTimestamp(timestamp))
            && (timestamp == -1 && o.sequence >= 0 ==> R.CursorRequestOf(r.position) == R.BySequence(o.sequence + 1))
            && (timestamp == -1 && o.sequence == -1 && o.timestamp == -1 ==> R.CursorRequestOf(r.position) == R.Oldest)
  {
    StartBehindCommitted(answer[s].offset);
  }

  // The sessions are opened; a start time, if there is one, takes the place of every position.
  method GenShardOffset(answer: map<string, Stamped>, timestamp: int, manager: OffsetManager, ghost m: Manager)
    returns (positions: map<string, R.Position>, ghost after: Manager)
    requires manager.Valid() && manager.Represents(m)
    modifies manager
    ensures manager.Valid() && manager.Represents(after) && Opened(m, after, answer, answer.Keys)
    ensures positions == StartPositions(answer, timestamp)
  {
    hide OffsetManager.Valid; hide OffsetManager.Represents; hide Opened;
    positions, after := InitAndGetOffsets(answer, manager, m);
    if timestamp != -1 {
      var todo := positions.Keys;
      while todo != {}
        invariant todo <= positions.Keys == answer.Keys
        invariant forall s :: s in positions && s !in todo ==> positions[s] == R.Position(-1, timestamp, None)
        decreases |todo|
      {
        var s :| s in todo;
        positions := positions[s := R.Position(-1, timestamp, None)];
        todo := todo - {s};
      }
    }
  }

  datatype Creation = Created | SessionsNotOpened | Unanswered(shard: string)

  // The shards' ages once new ones have joined.
  function Aged(before: map<string, int>, shards: set<string>): map<string, int> {
    map s | s in shards :: if s in before then before[s] else -1
  }

  lemma AgedNone(before: map<string, int>)
    ensures Aged(before, before.Keys) == before
  {
  }

  lemma AgedMore(before: map<string, int>, shards: set<string>, s: string)
    requires s !in before
    ensures Aged(before, shards + {s}) == Aged(before, shards)[s := -1]
  {
  }

  // The shard is the oldest of the given ones.
  ghost predicate Oldest(ages: map<string, int>, shard: string, ready: set<string>) {
    shard in ages && forall s :: s in ready && s in ages ==> ages[shard] <= ages[s]
  }

  class ShardGroupReader {
    const selector: S.ShardReaderSelectStrategy
    var readers: map<string, R.ShardReader>

    // Exactly the shards with a reader are registered with the selector.
    ghost predicate Valid()
      reads this, selector, selector.heap, selector.heap.known
    {
      selector.Valid() && readers.Keys == selector.registered.Keys
    }

    constructor ()
      ensures Valid() && readers == map[] && fresh(selector) && fresh(selector.heap) && selector.heap.known == {}
    {
      selector := new S.ShardReaderSelectStrategy();
      readers := map[];
    }

    // The selector is told of the shard; the readers there are do not notice.
    method Register(s: string)
      requires selector.Valid() && s !in selector.registered
      modifies selector, selector.heap, selector.heap.known
      ensures selector.Valid() && selector.registered.Keys == old(selector.registered.Keys) + {s}
      ensures Ages() == old(Ages())[s := -1]
      ensures selector.heap.known >= old(selector.heap.known)
      ensures fresh(selector.heap.known - old(selector.heap.known))
      ensures Views() == old(Views())
    {
      hide S.ShardReaderSelectStrategy.Wired; hide S.ShardReaderSelectStrategy.NeverLost;
      hide S.ShardReaderSelectStrategy.NoGhost; hide S.ShardReaderSelectStrategy.Sorted; hide Heap.View;
      hide Push; hide S.Learned;
      ghost var before, views := readers, Views();
      selector.AddShard(s, -1);
      forall t | t in before
        ensures before[t].View() == views[t]
      {
        var reader := before[t];
        assert reader.cache == old(reader.cache);
      }
      assert readers == before;
    }

    method CreateReader(s: string, offset: R.Position, limit: nat)
      requires Valid() && s !in readers
      modifies this, selector, selector.heap, selector.heap.known
      ensures Valid() && selector.heap.known >= old(selector.heap.known)
      ensures fresh(selector.heap.known - old(selector.heap.known))
      ensures s in readers && fresh(readers[s]) && readers == old(readers)[s := readers[s]]
      ensures readers[s].limit == limit && Ages() == old(Ages())[s := -1]
      ensures Views() == old(Views())[s := R.Start(offset)]
    {
      hide S.ShardReaderSelectStrategy.Valid;
      Register(s);
      var reader := new R.ShardReader(limit, offset);
      AddReader(s, reader);
    }

    method CreateMissing(s: string, offset: R.Position, limit: nat, ghost before: map<string, int>)
      requires Valid() && s !in readers && before.Keys <= readers.Keys && Ages() == Aged(before, readers.Keys)
      modifies this, selector, selector.heap, selector.heap.known
      ensures Valid() && selector.heap.known >= old(selector.heap.known)
      ensures fresh(selector.heap.known - old(selector.heap.known))
      ensures s in readers && fresh(readers[s]) && readers == old(readers)[s := readers[s]]
      ensures readers[s].limit == limit && Ages() == Aged(before, readers.Keys)
      ensures Views() == old(Views())[s := R.Start(offset)]
    {
      hide Valid; hide Views; hide Ages; hide Aged;
      ghost var shards := readers.Keys;
      AgedMore(before, shards, s);
      CreateReader(s, offset, limit);
      assert readers.Keys == shards + {s};
    }

    method AddReader(s: string, reader: R.ShardReader)
      requires s !in readers
      modifies this`readers
      ensures readers == old(readers)[s := reader] && Views() == old(Views())[s := reader.View()]
    {
      readers := readers[s := reader];
    }

    // How far each shard has been read, as far as the selector knows; new ones come first.
    function Ages(): (a: map<string, int>)
      reads selector, selector.registered.Values
    {
      map s | s in selector.registered :: selector.registered[s].timestamp
    }

    function Views(): (v: map<string, R.Reader>)
      reads this, readers.Values
    {
      map s | s in readers :: readers[s].View()
    }

    // Readers are created, and the selector told, only for shards that have none. The loop stops at
    // such a shard without a position; `done` is how far it came.
    method CreateReaders(shardIds: seq<string>, positions: map<string, R.Position>, limit: nat) returns (done: nat)
      requires Valid()
      modifies this, selector, selector.heap, selector.heap.known
      ensures Valid() && done <= |shardIds| && Views() == Given(old(Views()), Named(shardIds[..done]), positions)
      ensures forall s :: s in old(readers) ==> s in readers && readers[s] == old(readers)[s]
      ensures forall s :: s in shardIds[..done] ==> s in readers
      // new readers have the given limit, and their shards are read before any other
      ensures forall s :: s in readers && s !in old(readers) ==> readers[s].limit == limit
      ensures Ages() == Aged(old(Ages()), readers.Keys)
      ensures done < |shardIds| ==> shardIds[done] !in positions && shardIds[done] !in readers
    {
      hide Valid; hide Named; hide Given; hide Views; hide Ages; hide Aged;
      AgesKeys();
      AgedNone(Ages());
      ghost var known := selector.heap.known;
      GivenNone(Views(), positions);
      NamedNone();
      for i := 0 to |shardIds|
        invariant Valid() && known <= selector.heap.known && fresh(selector.heap.known - known)
        invariant Views() == Given(old(Views()), Named(shardIds[..i]), positions)
        invariant forall s :: s in old(readers) ==> s in readers && readers[s] == old(readers)[s]
        invariant old(Ages()).Keys <= readers.Keys
        invariant forall j :: 0 <= j < i ==> shardIds[j] in readers
        invariant forall s :: s in readers && s !in old(readers) ==> readers[s].limit == limit
        invariant Ages() == Aged(old(Ages()), readers.Keys)
      {
        NamedMore(shardIds, i);
        GivenMore(old(Views()), Named(shardIds[..i]), positions, shardIds[i]);
        ViewsKeys();
        if shardIds[i] !in readers {
          if shardIds[i] !in positions {
            return i;
          }
          CreateMissing(shardIds[i], positions[shardIds[i]], limit, old(Ages()));
        }
      }
      assert shardIds[..|shardIds|] == shardIds;
      return |shardIds|;
    }

    // With the answer to opening the sessions, if there is one: first every shard of the answer is
    // opened in the manager, then the readers are created.
    method CreateShardReader(shardIds: seq<string>, timestamp: int, answer: Option<map<string, Stamped>>, limit: nat,
                             manager: OffsetManager, ghost m: Manager)
      returns (creation: Creation, done: nat, ghost after: Manager)
      requires Valid() && manager.Valid() && manager.Represents(m)
      modifies this, selector, selector.heap, selector.heap.known, manager
      ensures Valid() && manager.Valid() && manager.Represents(after) && done <= |shardIds|
      ensures shardIds == [] || answer.None? ==>
                && creation == (if shardIds == [] then Created else SessionsNotOpened)
                && after == m && readers == old(readers) && Views() == old(Views()) && Ages() == old(Ages())
      ensures shardIds != [] && answer.Some? ==>
                && Opened(m, after, answer.value, answer.value.Keys)
                && creation == (if done == |shardIds| then Created else Unanswered(shardIds[done]))
                && Views() == Given(old(Views()), Named(shardIds[..done]), StartPositions(answer.value, timestamp))
                && (done < |shardIds| ==> shardIds[done] !in answer.value && shardIds[done] !in readers)
                && (forall s :: s in readers && s !in old(readers) ==> readers[s].limit == limit)
                && Ages() == Aged(old(Ages()), readers.Keys)
    {
      hide Ages; hide Aged;
      hide Valid; hide OffsetManager.Valid; hide OffsetManager.Represents; hide Opened; hide Named; hide Given;
      hide Views;
      done, after := 0, m;
      if shardIds == [] {
        return Created, 0, m;
      }
      if answer.None? {
        return SessionsNotOpened, 0, m;
      }
      var positions;
      positions, after := GenShardOffset(answer.value, timestamp, manager, m);
      done := CreateReaders(shardIds, positions, limit);
      creation := if done == |shardIds| then Created else Unanswered(shardIds[done]);
    }

    lemma AgesKeys()
      requires Valid()
      ensures Ages().Keys == readers.Keys
    {
    }

    lemma ViewsKeys()
      ensures Views().Keys == readers.Keys
    {
    }

    method RemoveReader(s: string)
      requires Valid()
      modifies this, selector, selector.heap.known`valid
      ensures Valid() && readers == old(readers) - {s} && Ages() == old(Ages()) - {s}
    {
      hide S.ShardReaderSelectStrategy.Wired; hide S.ShardReaderSelectStrategy.NeverLost;
      hide S.ShardReaderSelectStrategy.NoGhost; hide S.ShardReaderSelectStrategy.Sorted; hide Heap.View;
      if s in readers {
        selector.RemoveShard(s);
        readers := readers - {s};
      }
    }

    method RemoveReaders(shardIds: seq<string>)
      requires Valid()
      modifies this, selector, selector.heap.known`valid
      ensures Valid() && readers == old(readers) - Named(shardIds) && Ages() == old(Ages()) - Named(shardIds)
    {
      hide Valid; hide Named; hide Ages;
      assert Named([]) == {} by { NamedNone(); }
      for i := 0 to |shardIds|
        invariant Valid() && readers == old(readers) - Named(shardIds[..i])
        invariant Ages() == old(Ages()) - Named(shardIds[..i])
      {
        NamedMore(shardIds, i);
        RemoveReader(shardIds[i]);
      }
      assert shardIds[..|shardIds|] == shardIds;
    }

    // The named shard, else the selector's choice: the oldest ready shard, and none while every shard
    // waits. After such an answer, or with the timer expired, nobody waits.
    method ChooseShard(shardId: string, timerExpired: bool) returns (shard: string)
      requires Valid()
      modifies selector`empty, selector.heap, selector.heap.known
      ensures Valid() && readers == old(readers) && Ages() == old(Ages())
      ensures shardId != "" ==> shard == shardId && selector.empty == old(selector.empty)
      ensures shardId == "" && shard != "" ==> shard in readers && shard in old(selector.Ready())
      ensures shardId == "" && shard != "" && old(selector.InOrder()) ==> Oldest(Ages(), shard, old(selector.Ready()))
      ensures shardId == "" && shard == "" ==> old(selector.Ready()) == {} || "" in old(selector.Ready())
      ensures shardId == "" ==> selector.empty == if shard == "" || timerExpired then {} else old(selector.empty)
    {
      hide S.ShardReaderSelectStrategy.Valid; hide S.ShardReaderSelectStrategy.InOrder;
      assert selector.registered.Keys == readers.Keys;
      shard := shardId;
      if shardId == "" {
        shard := selector.GetNextShard(timerExpired);
      }
    }

    // The lookup, under the reader map's own mutex, in whatever state it finds the map.
    method GetShardReader(shard: string) returns (next: NextReader)
      ensures next == if shard in readers then Reader(shard) else NotFound(shard)
    {
      return if shard in readers then Reader(shard) else NotFound(shard);
    }

    // Both, when no reader is removed in between: then the selector's choice is always found, and only
    // while every shard waits is it any reader instead.
    method GetNextReader(shardId: string, timerExpired: bool) returns (next: NextReader)
      requires Valid()
      modifies selector`empty, selector.heap, selector.heap.known
      ensures Valid() && readers == old(readers) && Ages() == old(Ages())
      ensures shardId != "" ==>
                && next == (if shardId in readers then Reader(shardId) else NotFound(shardId))
                && selector.empty == old(selector.empty)
      ensures shardId == "" ==>
                if readers == map[] then next == NoActiveShard else next.Reader? && next.shard in readers
      ensures shardId == "" && old(selector.Ready()) != {} && "" !in old(selector.Ready()) ==>
                && next.Reader? && next.shard in old(selector.Ready())
                && (old(selector.InOrder()) ==> Oldest(Ages(), next.shard, old(selector.Ready())))
                && selector.empty == if timerExpired then {} else old(selector.empty)
      ensures shardId == "" && old(selector.Ready()) == {} ==> selector.empty == {}
    {
      hide S.ShardReaderSelectStrategy.Valid; hide S.ShardReaderSelectStrategy.InOrder;
      assert selector.registered.Keys == readers.Keys;
      var nextShard := ChooseShard(shardId, timerExpired);
      if nextShard == "" {
        if readers.Keys == {} {
          return NoActiveShard;
        }
        var s :| s in readers;
        return Reader(s);
      }
      next := GetShardReader(nextShard);
    }

    // ReadOnceByReader, up to sending the message: one read, and what the selector is told of it. An
    // invalid cursor makes the reader start over; what a sealed shard leads to comes later.
    method ReadOnce(shard: string, nextCursor: string, ticks: seq<R.Tick>, error: ErrorCode) returns (attempt: Attempt)
      requires Valid() && shard in readers && ticks != [] && ticks[|ticks| - 1].expired
      modifies readers[shard], selector`empty, selector.heap`nodes, selector.heap.known
      ensures Valid() && readers == old(readers)
      ensures var (after, result) := R.ReadNext(old(readers[shard].View()), readers[shard].limit, ticks);
              match result
              case Got(sequence, systemTime) =>
                && attempt.Handed? && fresh(attempt.key) && !attempt.key.ready && attempt.key.shardId == shard
                && attempt.key.offset == Offset(systemTime, sequence, 0) && readers[shard].View() == after
                && Ages() == old(Ages())[shard := systemTime] && selector.empty == old(selector.empty)
              case Raised =>
                && attempt == (if error.OtherCode? then Thrown else Handled)
                && readers[shard].View() == (if error.InvalidCursor? then R.ResetOffset(after) else after)
                && Ages() == old(Ages()) && selector.empty == old(selector.empty)
              case _ =>
                && attempt == Empty && readers[shard].View() == after
                && Ages() == old(Ages()) && selector.empty == old(selector.empty) + {shard}
    {
      hide S.ShardReaderSelectStrategy.Wired; hide S.ShardReaderSelectStrategy.NeverLost;
      hide S.ShardReaderSelectStrategy.NoGhost; hide S.ShardReaderSelectStrategy.Sorted; hide Heap.View; hide Update;
      hide R.ReadNext;
      var result := readers[shard].Read(ticks);
      match result
      case Got(sequence, systemTime) =>
        selector.AfterRead(shard, Some(systemTime));
        var key := new MessageKey(shard, nextCursor, Offset(systemTime, sequence, 0));
        return Handed(key);
      case Raised =>
        match error {
          case InvalidCursor =>
            readers[shard].Reset();
            return Handled;
          case InvalidShardOperation => return Handled;
          case OtherCode => return Thrown;
        }
      case _ =>
        selector.AfterRead(shard, None);
        return Empty;
    }
  }
}
