/**
OffsetManager (client/src/offset_manager.cpp) and MessageKey (src/model/message_key.cpp): per shard
a queue of the messages handed to the user, the offset waiting to be committed, and the version and
session that a commit must carry. Offsets are committed up to the longest acknowledged prefix of
the queue.

The mutex-protected methods are modelled one by one; the commit thread and ForceCommitOffset only
decide when SyncOffset and CommitOffset run. The class is proved to be the functions on `Manager`.
*/
module OffsetManagement {

  datatype Offset = Offset(timestamp: int, sequence: int, batchIndex: nat)

  // SubscriptionOffset: an offset with the version and session it is committed under.
  datatype Stamped = Stamped(offset: Offset, version: int, session: int)

  datatype Meta = Meta(version: int, session: int)

  // A queued message: its offset and whether the user has acknowledged it.
  datatype Entry = Entry(offset: Offset, ready: bool)

  datatype Manager = Manager(meta: map<string, Meta>, requests: map<string, seq<Entry>>, last: map<string, Stamped>)

  const EMPTY := Manager(map[], map[], map[])

  // ---------------------------------------------------------------- operations

  // What is left of a queue once the acknowledged messages at its front are popped.
  function Unacked(q: seq<Entry>): seq<Entry> {
    if q != [] && q[0].ready then Unacked(q[1..]) else q
  }

  function AckedLength(q: seq<Entry>): (n: nat)
    ensures n <= |q|
  {
    if q != [] && q[0].ready then 1 + AckedLength(q[1..]) else 0
  }

  function UpdateOffsetMeta(m: Manager, shard: string, version: int, session: int): Manager {
    Manager(m.meta[shard := Meta(version, session)], m.requests[shard := []], m.last)
  }

  // A shard without a queue is being released; its messages are dropped.
  function SendOffsetRequest(m: Manager, shard: string, e: Entry): Manager {
    if shard in m.requests then m.(requests := m.requests[shard := m.requests[shard] + [e]]) else m
  }

  // The i-th message in the shard's queue is acknowledged.
  function Ack(m: Manager, shard: string, i: nat): Manager
    requires shard in m.requests && i < |m.requests[shard]|
  {
    var q := m.requests[shard];
    m.(requests := m.requests[shard := q[i := q[i].(ready := true)]])
  }

  // The offset SyncOffset records for a shard: that of the last message popped, if any. The
  // shard id of a message is the key of its queue; an empty id is never recorded.
  predicate Advances(m: Manager, shard: string) {
    shard in m.requests && shard != "" && AckedLength(m.requests[shard]) > 0
  }

  function LastPopped(q: seq<Entry>): Offset
    requires AckedLength(q) > 0
  {
    q[AckedLength(q) - 1].offset
  }

  function PendingAfterSync(m: Manager, s: string): Stamped
    requires s in m.last || Advances(m, s)
  {
    if Advances(m, s) then Stamped(LastPopped(m.requests[s]), 0, 0) else m.last[s]
  }

  function Sync(m: Manager): Manager {
    Manager(m.meta,
            map s | s in m.requests :: Unacked(m.requests[s]),
            map s | s in m.last.Keys + m.requests.Keys && (s in m.last || Advances(m, s)) :: PendingAfterSync(m, s))
  }

  // CommitOffset gives every pending offset its shard's version and session before sending.
  function Stamp(m: Manager): Manager
    requires m.last.Keys <= m.meta.Keys
  {
    m.(last := map s | s in m.last :: Stamped(m.last[s].offset, m.meta[s].version, m.meta[s].session))
  }

  // How the server answers one commit: it takes it, it fails with a DatahubException, or the call
  // fails with any other exception.
  datatype Reply = Accepted | Refused | Broken
  datatype CommitOutcome = Nothing | Committed | Failed

  const MAX_COMMIT_OFFSET_RETRY_TIMES: nat := 5

  function Release(m: Manager, shards: set<string>): Manager {
    Manager(m.meta - shards, m.requests - shards, m.last - shards)
  }

  // ---------------------------------------------------------------- what they keep

  // Metadata is present for everything queued or pending. Without it CommitOffset would read
  // through the end iterator of the metadata map.
  ghost predicate Provisioned(m: Manager) {
    m.requests.Keys == m.meta.Keys && m.last.Keys <= m.requests.Keys
  }

  lemma SyncKeepsProvisioned(m: Manager)
    requires Provisioned(m)
    ensures Provisioned(Sync(m))
  {
    hide AckedLength; hide PendingAfterSync; hide Unacked;
    assert Sync(m).requests.Keys == m.requests.Keys;
  }

  lemma StampKeepsProvisioned(m: Manager)
    requires Provisioned(m)
    ensures Provisioned(Stamp(m)) && Provisioned(Stamp(m).(last := map[]))
  {
    assert Stamp(m).last.Keys == m.last.Keys;
  }

  datatype Op =
    | MetaOp(shard: string, version: int, session: int)
    | SendOp(shard: string, entry: Entry)
    | AckOp(shard: string, i: nat)
    | SyncOp
    | CommitOp(accepted: bool)
    | ReleaseOp(shards: set<string>)
    | ResetOp

  function Apply(m: Manager, op: Op): Manager
    requires Provisioned(m)
  {
    match op
    case MetaOp(s, v, ss) => UpdateOffsetMeta(m, s, v, ss)
    case SendOp(s, e) => SendOffsetRequest(m, s, e)
    case AckOp(s, i) => if s in m.requests && i < |m.requests[s]| then Ack(m, s, i) else m
    case SyncOp => Sync(m)
    case CommitOp(accepted) => if accepted then Stamp(m).(last := map[]) else Stamp(m)
    case ReleaseOp(shards) => Release(m, shards)
    case ResetOp => EMPTY
  }

  lemma ApplyKeepsProvisioned(m: Manager, op: Op)
    requires Provisioned(m)
    ensures Provisioned(Apply(m, op))
  {
    hide Sync; hide Stamp;
    match op
    case SyncOp => SyncKeepsProvisioned(m);
    case CommitOp(_) => StampKeepsProvisioned(m);
    case _ =>
  }

  // The manager after a run of operations, the latest one last.
  ghost function Run(ops: seq<Op>): (m: Manager)
    ensures Provisioned(m)
  {
    if ops == [] then EMPTY
    else
      ApplyKeepsProvisioned(Run(ops[..|ops| - 1]), ops[|ops| - 1]);
      Apply(Run(ops[..|ops| - 1]), ops[|ops| - 1])
  }

  // No run leaves an offset pending for the empty shard id.
  lemma {:induction false} NeverPendingUnnamed(ops: seq<Op>)
    ensures "" !in Run(ops).last
  {
    if ops != [] {
      NeverPendingUnnamed(ops[..|ops| - 1]);
      hide AckedLength; hide Unacked; hide LastPopped;
    }
  }

  // The metadata a shard was last opened with, unless it was released or reset since.
  ghost function Latest(ops: seq<Op>, shard: string): set<Meta> {
    if ops == [] then {}
    else
      var init, op := ops[..|ops| - 1], ops[|ops| - 1];
      if op.MetaOp? && op.shard == shard then {Meta(op.version, op.session)}
      else if op.ResetOp? || (op.ReleaseOp? && shard in op.shards) then {}
      else Latest(init, shard)
  }

  // In every run, whatever is pending has metadata, and a commit sends each offset under the
  // version and session its shard was last opened with.
  lemma {:induction false} CommitsCarryLatestMeta(ops: seq<Op>, shard: string)
    ensures var m := Run(ops);
            && (shard in m.meta <==> Latest(ops, shard) != {})
            && (shard in m.meta ==> Latest(ops, shard) == {m.meta[shard]})
            && (shard in m.last ==>
                  shard in m.meta
                    && Latest(ops, shard) == {Meta(Stamp(m).last[shard].version, Stamp(m).last[shard].session)})
  {
    if ops != [] {
      var init, op := ops[..|ops| - 1], ops[|ops| - 1];
      CommitsCarryLatestMeta(init, shard);
      MetaAfter(Run(init), op, shard);
    }
  }

  lemma MetaAfter(m: Manager, op: Op, shard: string)
    requires Provisioned(m)
    ensures var n := Apply(m, op);
            if op.MetaOp? && op.shard == shard then shard in n.meta && n.meta[shard] == Meta(op.version, op.session)
            else if op.ResetOp? || (op.ReleaseOp? && shard in op.shards) then shard !in n.meta
            else (shard in n.meta <==> shard in m.meta) && (shard in m.meta ==> n.meta[shard] == m.meta[shard])
  {
  }

  // Popped and remaining messages are the queue, everything popped was acknowledged, and what
  // remains starts with an unacknowledged message.
  lemma {:induction false} AckedPrefix(q: seq<Entry>)
    ensures q == q[..AckedLength(q)] + Unacked(q) && Unacked(q) == q[AckedLength(q)..]
    ensures forall i :: 0 <= i < AckedLength(q) ==> q[i].ready
    ensures Unacked(q) != [] ==> !Unacked(q)[0].ready
  {
    if q != [] && q[0].ready {
      AckedPrefix(q[1..]);
      assert q == [q[0]] + q[1..];
    }
  }

  // ---------------------------------------------------------------- the classes

  class MessageKey {
    const shardId: string
    const nextCursor: string
    const offset: Offset
    var ready: bool

    constructor (shardId: string, nextCursor: string, offset: Offset)
      ensures this.shardId == shardId && this.nextCursor == nextCursor && this.offset == offset && !ready
    {
      this.shardId := shardId;
      this.nextCursor := nextCursor;
      this.offset := offset;
      ready := false;
    }

    // One way: nothing resets the flag.
    method SetReady()
      modifies this
      ensures ready
    {
      ready := true;
    }

    predicate IsReady()
      reads this
    {
      ready
    }
  }

  function Entries(q: seq<MessageKey>): (r: seq<Entry>)
    reads q
    ensures |r| == |q| && forall i :: 0 <= i < |q| ==> r[i] == Entry(q[i].offset, q[i].ready)
  {
    if q == [] then [] else [Entry(q[0].offset, q[0].ready)] + Entries(q[1..])
  }

  // A shard's queue: its own messages, each known and queued once.
  ghost predicate QueueOf(shard: string, q: seq<MessageKey>, keys: set<MessageKey>) {
    && (forall k :: k in q ==> k in keys && k.shardId == shard)
    && (forall i, j :: 0 <= i < j < |q| ==> q[i] != q[j])
  }

  // The queues with a message sent to them.
  function Sent(requests: map<string, seq<MessageKey>>, key: MessageKey): map<string, seq<MessageKey>> {
    if key.shardId in requests then requests[key.shardId := requests[key.shardId] + [key]] else requests
  }

  class OffsetManager {
    var meta: map<string, Meta>
    var requests: map<string, seq<MessageKey>>
    var last: map<string, Stamped>
    // every message key ever queued
    ghost var keys: set<MessageKey>

    ghost predicate Valid()
      reads this`requests, this`keys
    {
      forall s :: s in requests ==> QueueOf(s, requests[s], keys)
    }

    // The object's fields, with the acknowledgements the queued keys have seen, are those of m.
    ghost predicate Represents(m: Manager)
      reads this, keys
      requires Valid()
    {
      && m.meta == meta && m.last == last && m.requests.Keys == requests.Keys
      && forall s :: s in requests ==> m.requests[s] == Entries(requests[s])
    }

    constructor ()
      ensures Valid() && keys == {} && Represents(EMPTY)
    {
      meta, requests, last := map[], map[], map[];
      keys := {};
    }

    method UpdateMeta(shardId: string, version: int, sessionId: int, ghost m: Manager)
      requires Valid() && Represents(m)
      modifies this
      ensures Valid() && keys == old(keys) && Represents(UpdateOffsetMeta(m, shardId, version, sessionId))
    {
      meta := meta[shardId := Meta(version, sessionId)];
      requests := requests[shardId := []];
    }

    // Callers send each message once.
    method SendRequest(key: MessageKey, ghost m: Manager)
      requires Valid() && Represents(m) && key !in keys
      modifies this
      ensures Valid() && keys == old(keys) + {key}
      ensures Represents(SendOffsetRequest(m, key.shardId, Entry(key.offset, key.ready)))
      ensures requests == Sent(old(requests), key)
    {
      SendMeans(m, key.shardId, Entry(key.offset, key.ready));
      hide SendOffsetRequest; hide QueueOf; hide Entries;
      ghost var sent := Sent(requests, key);
      QueuesGrow(requests, sent, keys, key, m);
      hide Sent;
      assert sent == if key.shardId in requests then requests[key.shardId := requests[key.shardId] + [key]]
                     else requests by {
        SentIs(requests, key);
      }
      if key.shardId in requests {
        requests := requests[key.shardId := requests[key.shardId] + [key]];
      }
      keys := keys + {key};
    }

    method SyncOffset(ghost m: Manager)
      requires Valid() && Represents(m)
      modifies this`requests, this`last
      ensures Valid() && Represents(Sync(m))
      ensures requests.Keys == old(requests.Keys) && forall s :: s in requests ==> Suffix(requests[s], old(requests[s]))
    {
      SyncMeans(m);
      hide Sync; hide Unacked; hide Suffix; hide QueueOf; hide Entries;
      requests, last := SyncLoop(requests, last, keys, m);
    }

    // The stamping loop and the retry loop around the server call. Each attempt sends the same
    // request; a failure leaves every offset pending.
    method CommitOffset(replies: seq<Reply>, ghost m: Manager)
      returns (outcome: CommitOutcome, attempts: nat, sent: map<string, Stamped>)
      requires Valid() && Represents(m) && Provisioned(m)
      requires |replies| >= MAX_COMMIT_OFFSET_RETRY_TIMES
      modifies this`last
      ensures Valid()
      ensures outcome == Nothing <==> m.last == map[]
      ensures outcome == Nothing ==> attempts == 0 && Represents(m)
      ensures outcome != Nothing ==> sent == Stamp(m).last
      ensures outcome == Committed ==> Represents(Stamp(m).(last := map[]))
      ensures outcome == Failed ==> Represents(Stamp(m))
      ensures attempts <= 5
      ensures forall i :: 0 <= i < attempts - 1 ==> replies[i] == Refused
      ensures outcome == Committed ==> attempts > 0 && replies[attempts - 1] == Accepted
      ensures outcome == Failed ==> attempts > 0 && replies[attempts - 1] != Accepted
      ensures outcome == Failed && replies[attempts - 1] == Refused ==> attempts == 5
    {
      hide Valid; hide Represents; hide Stamp; hide Pending;
      attempts, sent := 0, map[];
      if Pending() == {} {
        NothingPending(m);
        return Nothing, 0, map[];
      }
      NothingPending(m);
      StampAgain(m);
      ghost var current := m;
      while true
        invariant attempts < MAX_COMMIT_OFFSET_RETRY_TIMES
        invariant Valid() && Represents(current) && (current == m || current == Stamp(m))
        invariant forall i :: 0 <= i < attempts ==> replies[i] == Refused
        decreases MAX_COMMIT_OFFSET_RETRY_TIMES - attempts
      {
        sent := StampOffsets(current);
        current := Stamp(m);
        attempts := attempts + 1;
        match replies[attempts - 1] {
          case Accepted =>
            ClearPending(Stamp(m));
            return Committed, attempts, sent;
          case Refused =>
            if attempts >= MAX_COMMIT_OFFSET_RETRY_TIMES {
              return Failed, attempts, sent;
            }
          case Broken =>
            return Failed, attempts, sent;
        }
      }
    }

    function Pending(): set<string>
      reads this
    {
      last.Keys
    }

    lemma NothingPending(m: Manager)
      requires Valid() && Represents(m)
      ensures m.last == map[] <==> Pending() == {}
    {
    }

    // Every pending offset is dropped.
    method ClearPending(ghost m: Manager)
      requires Valid() && Represents(m)
      modifies this`last
      ensures Valid() && Represents(m.(last := map[]))
    {
      last := map[];
    }

    // for each pending offset: look its shard up in the metadata and set version and session.
    method StampOffsets(ghost m: Manager) returns (sent: map<string, Stamped>)
      requires Valid() && Represents(m) && Provisioned(m)
      modifies this`last
      ensures Valid() && Represents(Stamp(m)) && sent == Stamp(m).last
    {
      sent := Stamping(last, meta);
      last := sent;
      StampedIsStamp(m, sent);
    }

    // The part of OnShardRealese under the mutex, after the forced commits.
    method ReleaseShards(shardIds: seq<string>, ghost m: Manager)
      requires Valid() && Represents(m)
      modifies this
      ensures Valid() && keys == old(keys) && Represents(Release(m, set s | s in shardIds))
    {
      hide QueueOf; hide Entries;
      last := Erase(last, shardIds);
      requests := Erase(requests, shardIds);
      meta := Erase(meta, shardIds);
    }

    method OnOffsetReset()
      requires Valid()
      modifies this
      ensures Valid() && keys == old(keys) && Represents(EMPTY)
    {
      last, requests, meta := map[], map[], map[];
    }
  }

  lemma SentIs(requests: map<string, seq<MessageKey>>, key: MessageKey)
    ensures Sent(requests, key) ==
            if key.shardId in requests then requests[key.shardId := requests[key.shardId] + [key]] else requests
  {
  }

  lemma SendMeans(m: Manager, shard: string, e: Entry)
    ensures SendOffsetRequest(m, shard, e).meta == m.meta && SendOffsetRequest(m, shard, e).last == m.last
  {
  }

  lemma SyncMeans(m: Manager)
    ensures Sync(m).meta == m.meta && Sync(m).requests.Keys == m.requests.Keys
    ensures forall s :: s in m.requests ==> Sync(m).requests[s] == Unacked(m.requests[s])
  {
  }

  lemma QueueTail(shard: string, q: seq<MessageKey>, keys: set<MessageKey>, n: nat)
    requires QueueOf(shard, q, keys) && n <= |q|
    ensures QueueOf(shard, q[n..], keys)
    ensures forall k :: k in q ==> k.shardId == shard
  {
  }

  // Acknowledged keys leave the front of the queue; `oldest` is the last of them.
  method PopAcked(q0: seq<MessageKey>) returns (queue: seq<MessageKey>, oldest: MessageKey?)
    ensures var n := AckedLength(Entries(q0));
            queue == q0[n..] && Entries(queue) == Unacked(Entries(q0))
            && (if n == 0 then oldest == null else oldest == q0[n - 1])
  {
    ghost var e0 := Entries(q0);
    AckedPrefix(e0);
    queue, oldest := q0, null;
    ghost var n := 0;
    while queue != [] && queue[0].IsReady()
      invariant n <= |q0| && queue == q0[n..]
      invariant AckedLength(e0[n..]) == AckedLength(e0) - n
      invariant if n == 0 then oldest == null else oldest == q0[n - 1]
      decreases |queue|
    {
      assert e0[n..][1..] == e0[n + 1..];
      assert e0[n] == Entry(q0[n].offset, q0[n].ready);
      oldest := queue[0];
      queue := queue[1..];
      n := n + 1;
    }
    assert n < |q0| ==> e0[n] == Entry(q0[n].offset, q0[n].ready) && e0[n..][0] == e0[n];
    assert n == AckedLength(e0);
    assert Entries(q0[n..]) == e0[n..];
  }

  // The loop of CommitOffset over the pending offsets.
  method Stamping(last: map<string, Stamped>, meta: map<string, Meta>) returns (sent: map<string, Stamped>)
    requires last.Keys <= meta.Keys
    ensures sent.Keys == last.Keys
    ensures forall s :: s in sent ==> sent[s] == Stamped(last[s].offset, meta[s].version, meta[s].session)
  {
    sent := last;
    var todo := last.Keys;
    while todo != {}
      invariant todo <= sent.Keys == last.Keys
      invariant forall s :: s in sent ==>
                  sent[s] == if s in todo then last[s] else Stamped(last[s].offset, meta[s].version, meta[s].session)
      decreases |todo|
    {
      var s :| s in todo;
      sent := sent[s := Stamped(sent[s].offset, meta[s].version, meta[s].session)];
      todo := todo - {s};
    }
  }

  lemma StampedIsStamp(m: Manager, sent: map<string, Stamped>)
    requires Provisioned(m) && sent.Keys == m.last.Keys
    requires forall s :: s in sent ==> sent[s] == Stamped(m.last[s].offset, m.meta[s].version, m.meta[s].session)
    ensures sent == Stamp(m).last
  {
  }

  lemma QueuesGrow(before: map<string, seq<MessageKey>>, after: map<string, seq<MessageKey>>, keys: set<MessageKey>,
                   key: MessageKey, m: Manager)
    requires key !in keys && before.Keys == m.requests.Keys
    requires forall s :: s in before ==> QueueOf(s, before[s], keys) && m.requests[s] == Entries(before[s])
    requires after == Sent(before, key)
    ensures forall s :: s in after ==> QueueOf(s, after[s], keys + {key})
    ensures var n := SendOffsetRequest(m, key.shardId, Entry(key.offset, key.ready));
            n.requests.Keys == after.Keys && forall s :: s in after ==> n.requests[s] == Entries(after[s])
  {
    if key.shardId in before {
      var q := before[key.shardId];
      assert QueueOf(key.shardId, q + [key], keys + {key});
      assert Entries(q + [key]) == Entries(q) + [Entry(key.offset, key.ready)];
    }
  }

  // The loop of SyncOffset over the shards: each queue is popped and the offset of the last
  // message popped replaces the shard's pending one.
  method SyncLoop(requests: map<string, seq<MessageKey>>, last: map<string, Stamped>, ghost keys: set<MessageKey>,
                  ghost m: Manager)
    returns (requests': map<string, seq<MessageKey>>, last': map<string, Stamped>)
    requires last == m.last && requests.Keys == m.requests.Keys
    requires forall s :: s in requests ==> QueueOf(s, requests[s], keys) && m.requests[s] == Entries(requests[s])
    ensures requests'.Keys == requests.Keys && last' == Sync(m).last
    ensures forall s :: s in requests ==>
              QueueOf(s, requests'[s], keys) && Entries(requests'[s]) == Unacked(m.requests[s])
    ensures forall s :: s in requests ==> Suffix(requests'[s], requests[s])
  {
    hide *;
    SuffixesSame(requests);
    requests', last' := requests, last;
    var todo := requests.Keys;
    PendingNone(m);
    QueuesNone(requests, m, keys);
    while todo != {}
      invariant todo <= requests.Keys == requests'.Keys
      invariant forall s :: s in requests' ==> QueueUpTo(s, requests'[s], m, todo, keys)
      invariant PendingUpTo(m, last', todo)
      invariant forall s :: s in requests' ==> Suffix(requests'[s], requests[s])
      decreases |todo|
    {
      var shard :| shard in todo;
      ghost var before, pending := requests', last';
      QueueStart(shard, requests'[shard], m, todo, keys);
      var queue, oldest := PopAcked(requests'[shard]);
      OldestIsLast(m, shard, requests'[shard], oldest);
      SuffixDrop(requests[shard], requests'[shard], AckedLength(Entries(requests'[shard])));
      requests' := requests'[shard := queue];
      if oldest != null && oldest.shardId != "" {
        last' := last'[shard := Stamped(oldest.offset, 0, 0)];
      }
      PendingOneMore(m, pending, last', todo, shard);
      QueuesOneMore(before, requests', shard, m, todo, keys);
      todo := todo - {shard};
    }
    QueuesAll(requests', m, keys);
    PendingAll(m, last');
  }

  ghost predicate Suffix<T>(a: seq<T>, b: seq<T>) {
    |a| <= |b| && a == b[|b| - |a|..]
  }

  lemma SuffixesSame<T>(q: map<string, seq<T>>)
    ensures forall s :: s in q ==> Suffix(q[s], q[s])
  {
  }

  lemma SuffixDrop<T>(b: seq<T>, a: seq<T>, n: nat)
    requires Suffix(a, b) && n <= |a|
    ensures Suffix(a[n..], b)
  {
  }

  // A shard's queue with the given shards still to be synced.
  ghost predicate QueueUpTo(s: string, q: seq<MessageKey>, m: Manager, todo: set<string>, keys: set<MessageKey>)
    reads q
  {
    && s in m.requests && QueueOf(s, q, keys)
    && Entries(q) == if s in todo then m.requests[s] else Unacked(m.requests[s])
  }

  lemma QueuesNone(requests: map<string, seq<MessageKey>>, m: Manager, keys: set<MessageKey>)
    requires requests.Keys == m.requests.Keys
    requires forall s :: s in requests ==> QueueOf(s, requests[s], keys) && m.requests[s] == Entries(requests[s])
    ensures forall s :: s in requests ==> QueueUpTo(s, requests[s], m, requests.Keys, keys)
  {
  }

  lemma QueueStart(s: string, q: seq<MessageKey>, m: Manager, todo: set<string>, keys: set<MessageKey>)
    requires QueueUpTo(s, q, m, todo, keys) && s in todo
    ensures s in m.requests && m.requests[s] == Entries(q)
    ensures forall k :: k in q ==> k.shardId == s
  {
  }

  lemma QueuesOneMore(before: map<string, seq<MessageKey>>, after: map<string, seq<MessageKey>>, shard: string,
                      m: Manager, todo: set<string>, keys: set<MessageKey>)
    requires shard in before && shard in todo && shard in after && after == before[shard := after[shard]]
    requires forall s :: s in before ==> QueueUpTo(s, before[s], m, todo, keys)
    requires var n := AckedLength(Entries(before[shard])); after[shard] == before[shard][n..]
    requires Entries(after[shard]) == Unacked(Entries(before[shard]))
    ensures forall s :: s in after ==> QueueUpTo(s, after[s], m, todo - {shard}, keys)
  {
    hide Unacked; hide QueueOf; hide AckedLength;
    assert QueueUpTo(shard, before[shard], m, todo, keys);
    QueueTail(shard, before[shard], keys, AckedLength(Entries(before[shard])));
    forall s | s in after
      ensures QueueUpTo(s, after[s], m, todo - {shard}, keys)
    {
      if s != shard {
        assert QueueUpTo(s, before[s], m, todo, keys);
      }
    }
  }

  lemma QueuesAll(requests: map<string, seq<MessageKey>>, m: Manager, keys: set<MessageKey>)
    requires forall s :: s in requests ==> QueueUpTo(s, requests[s], m, {}, keys)
    ensures forall s :: s in requests ==>
              s in m.requests && QueueOf(s, requests[s], keys) && Entries(requests[s]) == Unacked(m.requests[s])
  {
  }

  lemma PendingNone(m: Manager)
    ensures PendingUpTo(m, m.last, m.requests.Keys)
  {
  }

  lemma OldestIsLast(m: Manager, shard: string, q: seq<MessageKey>, oldest: MessageKey?)
    requires shard in m.requests && m.requests[shard] == Entries(q)
    requires forall k :: k in q ==> k.shardId == shard
    requires var n := AckedLength(Entries(q)); if n == 0 then oldest == null else oldest == q[n - 1]
    ensures Advances(m, shard) <==> oldest != null && oldest.shardId != ""
    ensures Advances(m, shard) ==> PendingAfterSync(m, shard) == Stamped(oldest.offset, 0, 0)
  {
    if oldest != null {
      assert oldest in q;
    }
  }

  // The given shards leave the map, one by one.
  method Erase<V>(m: map<string, V>, shards: seq<string>) returns (r: map<string, V>)
    ensures r == m - set s | s in shards
  {
    r := m;
    for i := 0 to |shards|
      invariant r == m - set s | s in shards[..i]
    {
      assert shards[..i + 1] == shards[..i] + [shards[i]];
      r := r - {shards[i]};
    }
    assert shards[..|shards|] == shards;
  }

  // Stamping twice is stamping once.
  lemma StampAgain(m: Manager)
    requires Provisioned(m)
    ensures Provisioned(Stamp(m)) && Stamp(Stamp(m)) == Stamp(m)
  {
    assert Stamp(m).last.Keys == m.last.Keys;
    assert Stamp(Stamp(m)).last == Stamp(m).last;
  }

  // SyncOffset part way: the pending offsets when the given shards are still to be synced.
  ghost predicate PendingUpTo(m: Manager, last: map<string, Stamped>, todo: set<string>) {
    forall s ::
      && (s in last <==> s in m.last || (Advances(m, s) && s !in todo))
      && (s in last ==> last[s] == if Advances(m, s) && s !in todo then PendingAfterSync(m, s)
                                   else if s in m.last then m.last[s] else last[s])
  }

  lemma PendingOneMore(m: Manager, last: map<string, Stamped>, last': map<string, Stamped>, todo: set<string>,
                       shard: string)
    requires PendingUpTo(m, last, todo) && shard in todo
    requires last' == if Advances(m, shard) then last[shard := PendingAfterSync(m, shard)] else last
    ensures PendingUpTo(m, last', todo - {shard})
  {
    hide Advances; hide PendingAfterSync;
  }

  lemma PendingAll(m: Manager, last: map<string, Stamped>)
    requires PendingUpTo(m, last, {})
    ensures last == Sync(m).last
  {
    hide AckedLength; hide LastPopped;
  }

  // The user acknowledges a queued message: through the shared key object the queue sees it.
  method AckQueued(manager: OffsetManager, key: MessageKey, ghost i: nat, ghost m: Manager)
    requires manager.Valid() && manager.Represents(m) && key.shardId in manager.requests
    requires i < |manager.requests[key.shardId]| && manager.requests[key.shardId][i] == key
    modifies key
    ensures manager.Valid() && manager.Represents(Ack(m, key.shardId, i))
  {
    key.SetReady();
  }
}
