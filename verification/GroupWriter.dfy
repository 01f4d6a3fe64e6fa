/**
ShardGroupWriter (client/src/shard_group_writer.cpp): the writers of a topic and the strategy that
picks one. A write goes to one shard after the other until one takes it.
*/
module GroupWriting {
  import opened Collections
  import opened ShardWriting
  import opened WriterSelector

  datatype Entry = Entry(shardId: string, partitionKey: string, hashKey: string)

  predicate Undirected(e: Entry) {
    e.shardId == "" && e.partitionKey == "" && e.hashKey == ""
  }

  // Closed, Directed and NoValidShard are DatahubExceptions; Escaped is another exception.
  datatype Result = Written(shardId: string) | WriterClosed | Directed | NoValidShard | Escaped

  // NotFound and NoActiveShard are exceptions.
  datatype NextWriter = Writer(shardId: string) | NoActiveShard | NotFound(shardId: string)

  // What the i-th attempt of a write comes to, when the service answers its calls with puts(i).
  function Attempt(puts: nat -> nat -> Put, i: nat, retryTimes: int): Put {
    Settled(puts(i), 0, Attempts(retryTimes))
  }

  // What n attempts leave of the selector: every shard that refused is set aside, but the one that
  // ended the write in another way is not.
  function Left(sel: Selector, r: Result, n: nat, order: set<string> -> seq<string>): Selector {
    if r == NoValidShard
      || n == 0 then TriesLeave(sel, n, order) else Next(TriesLeave(sel, n - 1, order), false, order).0
  }

  // The shards but for those gone, in order.
  function Omitting(s: seq<string>, gone: set<string>): (r: seq<string>)
    ensures forall x :: x in r <==> x in s && x !in gone
    ensures Elements(s) !! gone ==> r == s
  {
    if s == [] then []
    else
      assert s[0] in Elements(s) && Elements(s[1..]) <= Elements(s);
      (if s[0] in gone then [] else [s[0]]) + Omitting(s[1..], gone)
  }

  lemma {:induction false} OmittingMore(s: seq<string>, gone: set<string>, x: string)
    ensures Without(Omitting(s, gone), x) == Omitting(s, gone + {x})
  {
    if s != [] {
      OmittingMore(s[1..], gone, x);
      var rest := Omitting(s[1..], gone);
      assert ([s[0]] + rest)[1..] == rest && [] + rest == rest;
    }
  }

  class ShardGroupWriter {
    const retryTimes: int
    const selector: ShardWriterSelectStrategy
    var closed: bool
    // mShardWriterMap, a writer being identified with its shard
    var writers: set<string>

    // The selector knows exactly the shards that have a writer.
    ghost predicate Valid()
      reads this, selector
    {
      Known(selector.View(), writers) && Enumerates(selector.order) && "" !in writers
    }

    constructor (retryTimes: int, order: set<string> -> seq<string>)
      requires Enumerates(order)
      ensures Valid() && !closed && writers == {} && fresh(selector) && selector.order == order
    {
      this.retryTimes := retryTimes;
      this.selector := new ShardWriterSelectStrategy(order);
      closed, writers := false, {};
    }

    method CheckRecords(records: seq<Entry>) returns (ok: bool)
      ensures ok <==> forall e :: e in records ==> Undirected(e)
    {
      for i := 0 to |records|
        invariant forall j :: 0 <= j < i ==> Undirected(records[j])
      {
        var e := records[i];
        if !(e.shardId == "" && e.partitionKey == "" && e.hashKey == "") {
          assert e in records;
          return false;
        }
      }
      return true;
    }

    // The lookup, under the writer map's own mutex.
    method GetShardWriter(shardId: string) returns (next: NextWriter)
      ensures next == if shardId in writers then Writer(shardId) else NotFound(shardId)
    {
      return if shardId in writers then Writer(shardId) else NotFound(shardId);
    }

    // The selector's choice, else any writer. When the selector knows exactly the shards with a
    // writer, its choice is found and there is one unless there are no writers; StrayWriters has
    // what other threads can make of it.
    method GetNextWriter(expired: bool) returns (next: NextWriter)
      requires Enumerates(selector.order) && selector.shardIndex >= -1
      modifies selector
      ensures var (after, x) := Next(old(selector.View()), expired, selector.order);
              && selector.View() == after
              && (x != "" ==> next == if x in writers then Writer(x) else NotFound(x))
              && (x == "" ==> if writers == {} then next == NoActiveShard else next.Writer? && next.shardId in writers)
      ensures old(Valid()) ==>
                && Valid() && (next.Writer? <==> writers != {})
                && next == if writers == {} then NoActiveShard
                           else Writer(Next(old(selector.View()), expired, selector.order).1)
    {
      NextKnown(selector.View(), writers, expired, selector.order);
      var nextShardId := selector.GetNextShard(expired);
      if nextShardId == "" {
        if writers == {} {
          return NoActiveShard;
        }
        var first :| first in writers;
        return Writer(first);
      }
      next := GetShardWriter(nextShardId);
    }

    // How the retry loop ends: after refusals only, with an attempt that was not refused, or with
    // as many refusals as there are writers.
    ghost predicate Ends(r: Result, tried: seq<string>, puts: nat -> nat -> Put)
      reads this
    {
      && |tried| <= |writers|
      && (forall i :: 0 <= i < |tried| - 1 ==> Attempt(puts, i, retryTimes).Refused?)
      && (if r == NoValidShard
          then |tried| == |writers| && forall i :: 0 <= i < |tried| ==> Attempt(puts, i, retryTimes).Refused?
          else |tried| > 0 && !Attempt(puts, |tried| - 1, retryTimes).Refused?
               && r == (if Attempt(puts, |tried| - 1, retryTimes).Accepted? then Written(tried[|tried| - 1])
                        else Escaped))
    }

    // `tried` lists the shards the write went to.
    method Write(records: seq<Entry>, puts: nat -> nat -> Put) returns (r: Result, ghost tried: seq<string>)
      requires Valid()
      modifies selector
      ensures Valid()
      ensures closed ==> r == WriterClosed && tried == [] && selector.View() == old(selector.View())
      ensures !closed && (exists e :: e in records && !Undirected(e)) ==>
                r == Directed && tried == [] && selector.View() == old(selector.View())
      ensures !closed && (forall e :: e in records ==> Undirected(e)) ==>
                && tried == Tries(old(selector.View()), |tried|, selector.order) && Ends(r, tried, puts)
                && selector.View() == Left(old(selector.View()), r, |tried|, selector.order)
    {
      hide Tries; hide Attempt; hide Ends; hide Left;
      if closed {
        return WriterClosed, [];
      }
      var ok := CheckRecords(records);
      if !ok {
        return Directed, [];
      }
      r, tried := WriteToNext(puts);
    }

    // One writer after the other, at most as many as there are.
    method WriteToNext(puts: nat -> nat -> Put) returns (r: Result, ghost tried: seq<string>)
      requires Valid()
      modifies selector
      ensures Valid()
      ensures tried == Tries(old(selector.View()), |tried|, selector.order) && Ends(r, tried, puts)
      ensures selector.View() == Left(old(selector.View()), r, |tried|, selector.order)
    {
      hide Tries; hide TriesLeave; hide Next; hide Known; hide Enumerates; hide Settled; hide AddInvalid;
      tried := [];
      ghost var start := selector.View();
      assert tried == Tries(start, 0, selector.order)
             && start == TriesLeave(start, 0, selector.order) by { NoTry(start, selector.order); }
      var maxRetry := |writers|;
      for i := 0 to maxRetry
        invariant Valid() && |tried| == i
        invariant tried == Tries(start, i, selector.order) && selector.View() == TriesLeave(start, i, selector.order)
        invariant forall j :: 0 <= j < i ==> Attempt(puts, j, retryTimes).Refused?
      {
        TriesSplit(start, i, 1, selector.order);
        OneTry(selector.View(), selector.order);
        assert selector.shardIndex >= -1 by { KnownIndex(selector.View(), writers); }
        var writer := GetNextWriter(false);
        tried := tried + [writer.shardId];
        var result, _ := WriteOnce(puts(i), retryTimes);
        match result
        case Accepted => return Written(writer.shardId), tried;
        case Broken => return Escaped, tried;
        case Refused =>
          ReportKeepsKnownIff(selector.View(), writers, writer.shardId);
          selector.AddInvalidShard(writer.shardId);
      }
      return NoValidShard, tried;
    }

    // Shards that already have a writer are passed over; the others join the active ones, once each.
    method CreateShardWriter(shardIds: seq<string>)
      requires Valid() && "" !in shardIds
      modifies this`writers, selector
      ensures Valid() && writers == old(writers) + Elements(shardIds)
      ensures selector.inactiveShards == old(selector.inactiveShards) && selector.shardIndex == old(selector.shardIndex)
      ensures old(selector.activeShards) <= selector.activeShards
      ensures var added := selector.activeShards[|old(selector.activeShards)|..];
              Distinct(added) && Elements(added) == Elements(shardIds) - old(writers)
    {
      ghost var active := selector.activeShards;
      for i := 0 to |shardIds|
        invariant Valid() && writers == old(writers) + Elements(shardIds[..i])
        invariant selector.inactiveShards == old(selector.inactiveShards)
        invariant selector.shardIndex == old(selector.shardIndex) && active <= selector.activeShards
        invariant var added := selector.activeShards[|active|..];
                  Distinct(added) && Elements(added) == Elements(shardIds[..i]) - old(writers)
      {
        assert Elements(shardIds[..i + 1]) == Elements(shardIds[..i]) + {shardIds[i]};
        if shardIds[i] !in writers {
          AddActive(shardIds[i], active);
        }
      }
      assert shardIds[..|shardIds|] == shardIds;
    }

    method AddActive(shardId: string, ghost active: seq<string>)
      requires Valid() && shardId != "" && shardId !in writers
      requires active <= selector.activeShards && Distinct(selector.activeShards[|active|..])
      modifies this`writers, selector
      ensures Valid() && writers == old(writers) + {shardId}
      ensures selector.inactiveShards == old(selector.inactiveShards) && selector.shardIndex == old(selector.shardIndex)
      ensures active <= selector.activeShards
      ensures var added, before := selector.activeShards[|active|..], old(selector.activeShards[|active|..]);
              Distinct(added) && Elements(added) == Elements(before) + {shardId}
    {
      ApplyKeepsKnown(selector.View(), writers, AddOp(shardId), selector.order);
      ghost var before := selector.activeShards;
      assert shardId !in Elements(before) + selector.inactiveShards;
      writers := writers + {shardId};
      selector.AddShard(shardId);
      assert selector.activeShards[|active|..] == before[|active|..] + [shardId];
      assert forall x :: x in before[|active|..] ==> x in Elements(before);
    }

    // Those shards leave the active ones and those set aside, and the others keep their order.
    method RemoveShardWriter(shardIds: seq<string>)
      requires Valid()
      modifies this`writers, selector
      ensures Valid() && writers == old(writers) - Elements(shardIds)
      ensures selector.activeShards == Omitting(old(selector.activeShards), Elements(shardIds))
      ensures selector.inactiveShards == old(selector.inactiveShards) - Elements(shardIds)
      ensures selector.shardIndex == old(selector.shardIndex)
    {
      ghost var active := selector.activeShards;
      for i := 0 to |shardIds|
        invariant Valid() && writers == old(writers) - Elements(shardIds[..i])
        invariant selector.activeShards == Omitting(active, Elements(shardIds[..i]))
        invariant selector.inactiveShards == old(selector.inactiveShards) - Elements(shardIds[..i])
        invariant selector.shardIndex == old(selector.shardIndex)
      {
        assert Elements(shardIds[..i + 1]) == Elements(shardIds[..i]) + {shardIds[i]};
        OmittingMore(active, Elements(shardIds[..i]), shardIds[i]);
        RemoveOne(shardIds[i]);
      }
      assert shardIds[..|shardIds|] == shardIds;
    }

    method RemoveOne(shardId: string)
      requires Valid()
      modifies this`writers, selector
      ensures Valid() && writers == old(writers) - {shardId} && selector.shardIndex == old(selector.shardIndex)
      ensures selector.activeShards == Without(old(selector.activeShards), shardId)
      ensures selector.inactiveShards == old(selector.inactiveShards) - {shardId}
    {
      if shardId in writers {
        ApplyKeepsKnown(selector.View(), writers, RemoveOp(shardId), selector.order);
        writers := writers - {shardId};
        selector.RemoveShard(shardId);
      } else {
        assert shardId !in Elements(selector.activeShards) + selector.inactiveShards;
        NotElement(shardId, selector.activeShards);
      }
    }

    method RemoveAllShardWriter()
      requires Valid()
      modifies this`writers, selector
      ensures Valid() && writers == {}
    {
      ApplyKeepsKnown(selector.View(), writers, ClearOp, selector.order);
      writers := {};
      selector.ClearAllShard();
    }
  }

  lemma KnownIndex(sel: Selector, writers: set<string>)
    requires Known(sel, writers)
    ensures sel.index >= -1
  {
  }

  lemma NextKnown(sel: Selector, writers: set<string>, expired: bool, order: set<string> -> seq<string>)
    ensures Known(sel, writers) && Enumerates(order) && "" !in writers ==>
              var (after, x) := Next(sel, expired, order);
              Known(after, writers) && (if writers == {} then x == "" else x in writers && x != "")
  {
    if Known(sel, writers) && Enumerates(order) {
      NextKeepsKnown(sel, writers, expired, order);
    }
  }

  lemma NoTry(sel: Selector, order: set<string> -> seq<string>)
    ensures Tries(sel, 0, order) == [] && TriesLeave(sel, 0, order) == sel
  {
  }

  lemma OneTry(sel: Selector, order: set<string> -> seq<string>)
    ensures var (next, x) := Next(sel, false, order);
            Tries(sel, 1, order) == [x] && TriesLeave(sel, 1, order) == AddInvalid(next, x)
  {
    hide Next; hide AddInvalid;
    var (next, x) := Next(sel, false, order);
    assert Tries(sel, 1, order) == [x] + Tries(AddInvalid(next, x), 0, order);
    assert TriesLeave(AddInvalid(next, x), 0, order) == AddInvalid(next, x);
  }

  // A write that finds no valid shard has gone to as many shards as there are; when it started with
  // every shard active, or with none, each of them refused it.
  lemma NoValidShardMeans(sel: Selector, writers: set<string>, order: set<string> -> seq<string>, tried: seq<string>)
    requires Known(sel, writers) && Enumerates(order) && tried == Tries(sel, |writers|, order)
    ensures Elements(sel.active) <= Elements(tried) <= writers
    ensures sel.active == [] || Elements(sel.active) == writers ==> Elements(tried) == writers && Distinct(tried)
  {
    hide Tries;
    FailingTries(sel, writers, order);
    assert forall x :: x in tried[..|Elements(sel.active)|] ==> x in tried;
    if sel.active == [] || Elements(sel.active) == writers {
      FailingTriesCoverAll(sel, writers, order);
    }
  }
}
