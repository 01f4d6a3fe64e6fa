/**
OffsetCoordinator::InitAndGetOffsets (client/src/offset_coordinator.cpp:93-126): from the committed
offsets the server returns with a new session, the position each shard is read from, and the new
version and session for the offset manager.
*/
module OffsetCoordination {
  import opened Collections
  import opened OffsetManagement
  import C = ConsumerSlots
  import R = ShardReading

  // The given shards opened under their new version and session, with empty queues; the others,
  // and all pending offsets, as they were.
  ghost predicate Opened(m: Manager, after: Manager, offsets: map<string, Stamped>, shards: set<string>)
    requires shards <= offsets.Keys
  {
    && after.last == m.last
    && after.meta.Keys == m.meta.Keys + shards && after.requests.Keys == m.requests.Keys + shards
    && (forall s :: s in after.meta ==>
          after.meta[s] == if s in shards then Meta(offsets[s].version, offsets[s].session) else m.meta[s])
    && (forall s :: s in after.requests ==> after.requests[s] == if s in shards then [] else m.requests[s])
  }

  lemma OpenedOneMore(m: Manager, after: Manager, offsets: map<string, Stamped>, shards: set<string>, s: string)
    requires shards <= offsets.Keys && s in offsets && Opened(m, after, offsets, shards)
    ensures Opened(m, UpdateOffsetMeta(after, s, offsets[s].version, offsets[s].session), offsets, shards + {s})
  {
  }

  lemma OpenedNone(m: Manager, offsets: map<string, Stamped>)
    ensures Opened(m, m, offsets, {})
  {
  }

  // Behind the committed record, or wherever a negative sequence stands for.
  method PositionFor(o: Stamped) returns (p: R.Position)
    ensures p == C.SessionStart(Some(o.offset))
  {
    var sequence := o.offset.sequence;
    p := R.Position(if sequence < 0 then sequence else sequence + 1, o.offset.timestamp, None);
  }

  method InitAndGetOffsets(offsets: map<string, Stamped>, manager: OffsetManager, ghost m: Manager)
    returns (positions: map<string, R.Position>, ghost after: Manager)
    requires manager.Valid() && manager.Represents(m)
    modifies manager
    ensures manager.Valid() && manager.Represents(after) && Opened(m, after, offsets, offsets.Keys)
    ensures positions.Keys == offsets.Keys
    ensures forall s :: s in positions ==> positions[s] == C.SessionStart(Some(offsets[s].offset))
  {
    hide *;
    positions, after := map[], m;
    var todo := offsets.Keys;
    ghost var done: set<string> := {};
    OpenedNone(m, offsets);
    NonePlaced(offsets);
    while todo != {}
      invariant done !! todo && done + todo == offsets.Keys
      invariant manager.Valid() && manager.Represents(after)
      invariant Opened(m, after, offsets, done)
      invariant Placed(positions, offsets, done)
      decreases |todo|
    {
      var s :| s in todo;
      var position := PositionFor(offsets[s]);
      PlacedOneMore(positions, offsets, done, s, position);
      positions := positions[s := position];
      manager.UpdateMeta(s, offsets[s].version, offsets[s].session, after);
      OpenedOneMore(m, after, offsets, done, s);
      after := UpdateOffsetMeta(after, s, offsets[s].version, offsets[s].session);
      todo, done := todo - {s}, done + {s};
    }
    assert done == offsets.Keys;
    AllPlaced(positions, offsets);
  }

  // The positions worked out so far.
  ghost predicate Placed(positions: map<string, R.Position>, offsets: map<string, Stamped>, done: set<string>) {
    positions.Keys == done && done <= offsets.Keys
    && forall s :: s in positions ==> positions[s] == C.SessionStart(Some(offsets[s].offset))
  }

  lemma PlacedOneMore(positions: map<string, R.Position>, offsets: map<string, Stamped>, done: set<string>, s: string,
                      p: R.Position)
    requires Placed(positions, offsets, done) && s in offsets && p == C.SessionStart(Some(offsets[s].offset))
    ensures Placed(positions[s := p], offsets, done + {s})
  {
  }

  lemma NonePlaced(offsets: map<string, Stamped>)
    ensures Placed(map[], offsets, {})
  {
  }

  lemma AllPlaced(positions: map<string, R.Position>, offsets: map<string, Stamped>)
    requires Placed(positions, offsets, offsets.Keys)
    ensures positions.Keys == offsets.Keys
    ensures forall s :: s in positions ==> positions[s] == C.SessionStart(Some(offsets[s].offset))
  {
  }

  // A shard nothing was ever committed for is reported as (-1, -1) and starts from the oldest
  // record; any other starts right behind its committed record.
  lemma StartBehindCommitted(o: Offset)
    ensures var p := C.SessionStart(Some(o));
            && (o.sequence >= 0 ==> R.CursorRequestOf(p) == R.BySequence(o.sequence + 1))
            && (o.sequence == -1 && o.timestamp == -1 ==> p == C.SessionStart(None) && R.CursorRequestOf(p) == R.Oldest)
            && (o.sequence == -1 && o.timestamp != -1 ==> R.CursorRequestOf(p) == R.ByTimestamp(o.timestamp))
            && (o.sequence < -1 ==> R.CursorRequestOf(p) == R.BySequence(o.sequence))
  {
  }
}
