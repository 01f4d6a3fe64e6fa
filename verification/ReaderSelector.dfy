/**
ShardReaderSelectStrategy (client/src/shard_select_strategy.cpp:16-106): which shard to read next.
A heap orders the shards by the system time of their last record; shards that had nothing to read
are marked invalid instead of being removed, and are pushed again later. The timer is a parameter
of GetNextShard, the read record is its system time or nothing.
*/
module ReaderSelector {
  import opened Collections
  import opened OffsetHeap

  // The while loop of GetNextShard: drop invalid nodes from the top.
  ghost function Skim<N>(h: State<N>, valid: set<N>): (r: State<N>)
    requires Known(h)
    ensures Known(r) && r.ts == h.ts
    decreases |h.nodes|
  {
    if h.nodes == [] || h.nodes[0] in valid then h else Skim(Pop(h), valid)
  }

  // Skimming loses no valid node and keeps the heap a heap.
  lemma {:induction false} SkimKeepsValid<N>(h: State<N>, valid: set<N>)
    requires Known(h)
    ensures forall n :: n in valid ==> (n in Skim(h, valid).nodes <==> n in h.nodes)
    ensures forall n :: n in Skim(h, valid).nodes ==> n in h.nodes
    ensures Ordered(h) ==> Ordered(Skim(h, valid))
    ensures Exact(h) ==> Exact(Skim(h, valid))
    ensures Skim(h, valid).nodes != [] ==> Skim(h, valid).nodes[0] in valid
    decreases |h.nodes|
  {
    hide Ordered; hide Exact; hide Pop;
    if h.nodes != [] && h.nodes[0] !in valid {
      PopCorrect(h);
      forall n | n in valid
        ensures n in Pop(h).nodes <==> n in h.nodes
      {
        assert n in h.nodes <==> n in multiset(h.nodes);
        assert n in Pop(h).nodes <==> n in multiset(Pop(h).nodes);
      }
      forall n | n in Pop(h).nodes
        ensures n in h.nodes
      {
        assert n in multiset(Pop(h).nodes);
        assert n in multiset(h.nodes);
      }
      SkimKeepsValid(Pop(h), valid);
    }
  }

  // The loop clears the top node's position itself before Pop clears it again.
  lemma UnqueuedEarly<N>(h: State<N>)
    requires Known(h) && h.nodes != []
    ensures Pop(h.(index := h.index[h.nodes[0] := NO_INDEX])) == Pop(h)
  {
    var g := h.(index := h.index[h.nodes[0] := NO_INDEX]);
    assert Unseated(g) == Unseated(h);
  }

  // A heap that has come to know one more node.
  ghost function Learned<N>(h: State<N>, n: N, t: int): (r: State<N>)
    requires Known(h)
    ensures Known(r)
  {
    State(h.nodes, h.ts[n := t], h.index[n := NO_INDEX])
  }

  class ShardReaderSelectStrategy {
    const heap: Heap
    var registered: map<string, OffsetInfo>
    var empty: set<string>

    // The data structure is well formed.
    ghost predicate Wired()
      reads this, heap, heap.known
    {
      && heap.Valid()
      && (forall s :: s in registered ==> registered[s] in heap.known && registered[s].shardId == s)
      && (forall s :: s in empty ==> s in registered)
      && (forall s :: s in registered ==> (registered[s].valid <==> s !in empty))
    }

    // No shard is lost: a registered shard is queued, or waits in the empty set to be queued again.
    ghost predicate NeverLost()
      reads this, heap, heap.known
      requires Wired()
    {
      forall s :: s in registered && s !in empty ==> registered[s] in heap.nodes
    }

    // No shard is resurrected: a valid queued node is the registered node of its shard.
    ghost predicate NoGhost()
      reads this, heap, heap.known
      requires Wired()
    {
      forall n :: n in heap.nodes && n.valid ==> n.shardId in registered && registered[n.shardId] == n
    }

    ghost predicate Valid()
      reads this, heap, heap.known
    {
      Wired() && NeverLost() && NoGhost()
    }

    // No node is queued twice and the heap is in order.
    ghost predicate Sorted()
      reads this, heap, heap.known
      requires Wired()
    {
      InOrder() && Once()
    }

    ghost function Ready(): set<string>
      reads this
    {
      registered.Keys - empty
    }

    ghost function ValidNodes(): set<OffsetInfo>
      reads this, heap, heap.known
    {
      set n | n in heap.known && n.valid
    }

    constructor ()
      ensures Valid() && Sorted() && fresh(heap) && heap.known == {} && heap.nodes == []
      ensures registered == map[] && empty == {}
    {
      heap := new Heap();
      registered := map[];
      empty := {};
    }

    lemma Starts()
      requires heap.Valid() && heap.known == {} && heap.nodes == []
      ensures heap.View() == NoNodes()
    {
    }

    // The heap h with the shard's node pushed.
    ghost predicate HasPushed(h: State<OffsetInfo>, s: string)
      reads this, heap, heap.known
    {
      heap.Valid() && Known(h) && s in registered && registered[s] in h.ts && heap.View() == Push(h, registered[s])
    }

    // The heap in order, and no node in it twice.
    ghost predicate InOrder()
      reads heap, heap.known
      requires heap.Valid()
    {
      Ordered(heap.View())
    }

    ghost predicate Once()
      reads heap, heap.known
      requires heap.Valid()
    {
      Exact(heap.View())
    }

    // A node joins the heap.
    method Queue(node: OffsetInfo)
      requires heap.Valid()
      modifies heap, heap.known`index, node`index
      ensures heap.Valid() && heap.known == old(heap.known) + {node}
      ensures heap.View() == Push(old(heap.ViewWith(node)), node)
      ensures multiset(heap.nodes) == multiset(old(heap.nodes)) + multiset{node}
      ensures forall n :: n in heap.nodes <==> n in old(heap.nodes) || n == node
      ensures old(InOrder()) ==> InOrder()
      ensures old(Once()) ==> (Once() <==> node !in old(heap.nodes))
    {
      hide Ordered; hide Exact; hide Push;
      heap.KnowingKeepsOrder(node);
      ghost var before := heap.ViewWith(node);
      PushCorrect(before, node);
      heap.PushNode(node);
      SameMembers(heap.nodes, before.nodes + [node]);
    }

    // Registering a shard queues a new node for it. Registering it again leaves the old node
    // queued; that resurrects it exactly when it was not waiting in the empty set.
    method AddShard(shardId: string, systemTime: int)
      requires Valid()
      modifies this, heap, heap.known
      ensures heap.known >= old(heap.known) && fresh(heap.known - old(heap.known))
      ensures Wired() && NeverLost()
      ensures registered.Keys == old(registered.Keys) + {shardId} && empty == old(empty) - {shardId}
      ensures registered[shardId].timestamp == systemTime && fresh(registered[shardId])
      ensures heap.known == old(heap.known) + {registered[shardId]}
      ensures heap.View() == Push(Learned(old(heap.View()), registered[shardId], systemTime), registered[shardId])
      ensures forall s :: s in registered && s != shardId ==>
                registered[s] == old(registered)[s] && registered[s].timestamp == old(registered[s].timestamp)
      ensures NoGhost() <==> shardId !in old(registered) || shardId in old(empty)
      ensures old(Sorted()) ==> Sorted()
    {
      hide InOrder; hide Once; hide Heap.View; hide Heap.ViewWith; hide Push; hide Learned;
      empty := empty - {shardId};
      var node := new OffsetInfo(shardId, systemTime);
      registered := registered[shardId := node];
      NewNode(node);
      Queue(node);
    }

    // What the heap learns about a new node.
    twostate lemma NewNode(new node: OffsetInfo)
      requires old(heap.Valid()) && heap.Valid() && unchanged(heap) && node !in heap.known && node.index == NO_INDEX
      requires forall n :: n in old(heap.known) ==> n.index == old(n.index) && n.timestamp == old(n.timestamp)
      ensures heap.ViewWith(node) == Learned(old(heap.View()), node, node.timestamp)
    {
    }

    method RemoveShard(shardId: string)
      requires Valid()
      modifies this, heap.known`valid
      ensures Valid() && heap.View() == old(heap.View())
      ensures registered == old(registered) - {shardId} && empty == old(empty) - {shardId}
      ensures old(Sorted()) ==> Sorted()
    {
      hide InOrder; hide Once;
      assert heap.View() == old(heap.View());
      empty := empty - {shardId};
      if shardId in registered {
        registered[shardId].valid := false;
        registered := registered - {shardId};
      }
      assert heap.View() == old(heap.View());
      SameView();
    }

    twostate lemma SameView()
      requires old(heap.Valid()) && heap.Valid() && heap.View() == old(heap.View())
      ensures old(InOrder()) == InOrder() && old(Once()) == Once()
    {
    }

    // The heap after GetNextShard has dropped invalid nodes from the top.
    ghost function Skimmed(): State<OffsetInfo>
      reads this, heap, heap.known
      requires heap.Valid()
    {
      Skim(heap.View(), ValidNodes())
    }

    // The top node is marked as not queued, then popped.
    method DropTop()
      requires heap.Valid() && heap.nodes != []
      modifies heap`nodes, heap.known`index
      ensures heap.Valid() && heap.View() == Pop(old(heap.View()))
    {
      hide Pop;
      ghost var before := heap.View();
      heap.nodes[0].index := NO_INDEX;
      assert heap.View() == before.(index := before.index[before.nodes[0] := NO_INDEX]);
      UnqueuedEarly(before);
      heap.PopNode();
    }

    // As long as the top node is invalid, it goes.
    method DropInvalid()
      requires heap.Valid()
      modifies heap`nodes, heap.known`index
      ensures heap.Valid() && ValidNodes() == old(ValidNodes())
      ensures heap.View() == old(Skimmed())
    {
      hide Pop;
      ghost var valid := ValidNodes();
      while heap.nodes != [] && !heap.nodes[0].valid
        invariant heap.Valid() && ValidNodes() == valid
        invariant Skim(heap.View(), valid) == Skim(old(heap.View()), valid)
        decreases |heap.nodes|
      {
        DropTop();
      }
    }

    // A waiting shard's node becomes valid and joins the heap, where it may be already.
    method ReactivateOne(shard: string)
      requires Valid() && shard in empty
      modifies this`empty, heap, heap.known
      ensures Valid() && empty == old(empty) - {shard}
      ensures heap.known == old(heap.known) && forall n :: n in heap.known ==> n.timestamp == old(n.timestamp)
      ensures HasPushed(old(heap.View()), shard)
      ensures multiset(heap.nodes) == multiset(old(heap.nodes)) + multiset{registered[shard]}
      ensures old(InOrder()) ==> InOrder()
      ensures old(Once()) ==> (Once() <==> registered[shard] !in old(heap.nodes))
    {
      hide InOrder; hide Once; hide Push; hide Heap.View; hide Heap.ViewWith;
      empty := empty - {shard};
      registered[shard].valid := true;
      heap.Unchanged();
      SameView();
      heap.KnowingKeepsOrder(registered[shard]);
      heap.ViewKnows(registered[shard]);
      Queue(registered[shard]);
    }

    lemma NotOnce(n: OffsetInfo)
      requires heap.Valid() && multiset(heap.nodes)[n] >= 2
      ensures !Once()
    {
      QueuedTwice(heap.View(), n);
    }

    // Every waiting shard is queued again, in some order, and none waits any more.
    method Reactivate()
      requires Valid()
      modifies this`empty, heap, heap.known
      ensures Valid() && empty == {}
      ensures heap.known == old(heap.known) && forall n :: n in heap.known ==> n.timestamp == old(n.timestamp)
      ensures old(InOrder()) ==> InOrder()
      ensures old(Once()) ==> (Once() <==> forall s :: s in old(empty) ==> registered[s] !in old(heap.nodes))
      ensures old(empty) == {} ==> heap.View() == old(heap.View())
      ensures forall s :: old(empty) == {s} ==> HasPushed(old(heap.View()), s)
    {
      hide InOrder; hide Once; hide Heap.View; hide HasPushed;
      ghost var waiting, queued := empty, heap.nodes;
      while empty != {}
        invariant Valid() && empty <= waiting
        invariant heap.known == old(heap.known) && forall n :: n in heap.known ==> n.timestamp == old(n.timestamp)
        invariant forall s :: s in waiting ==>
                    multiset(heap.nodes)[registered[s]] == multiset(queued)[registered[s]] + if s in empty then 0 else 1
        invariant old(InOrder()) ==> InOrder()
        invariant old(Once()) && (forall s :: s in waiting - empty ==> registered[s] !in queued) ==> Once()
        invariant empty == waiting ==> heap.View() == old(heap.View())
        invariant forall s :: waiting == {s} && empty == {} ==> HasPushed(old(heap.View()), s)
        decreases |empty|
      {
        var shard :| shard in empty;
        assert registered[shard] in heap.nodes <==> registered[shard] in multiset(heap.nodes);
        ReactivateOne(shard);
      }
      if s :| s in waiting && registered[s] in queued {
        assert registered[s] in multiset(queued);
        NotOnce(registered[s]);
      }
    }

    // What dropping invalid nodes means for the selector.
    method DropInvalidNodes()
      requires Valid()
      modifies heap`nodes, heap.known`index
      ensures Valid() && heap.View() == old(Skimmed())
      ensures heap.nodes != [] ==> heap.nodes[0].valid
      ensures old(InOrder()) ==> InOrder()
      ensures old(Once()) ==> Once()
    {
      hide Skim; hide Ordered; hide Exact;
      SkimKeepsValid(heap.View(), ValidNodes());
      ghost var skimmed := Skimmed();
      DropInvalid();
      assert heap.nodes == skimmed.nodes;
      assert forall n :: n in heap.known ==> (n in ValidNodes() <==> n.valid);
    }

    // In an ordered heap the top is no newer than any ready shard.
    lemma TopIsOldest(s: string)
      requires Valid() && InOrder() && heap.nodes != [] && s in Ready()
      ensures heap.nodes[0].timestamp <= registered[s].timestamp
    {
      var k: nat :| k < |heap.nodes| && heap.nodes[k] == registered[s];
      TopIsMinimum(heap.View(), k);
    }

    // The oldest ready shard, or "" when none is ready. When none is ready, or the timer has
    // expired, every waiting shard is queued again.
    method GetNextShard(timerExpired: bool) returns (shard: string)
      requires Valid()
      modifies this`empty, heap, heap.known
      ensures Valid() && registered == old(registered)
      ensures heap.known == old(heap.known) && forall n :: n in heap.known ==> n.timestamp == old(n.timestamp)
      // what becomes of the heap
      ensures var skimmed := old(Skimmed());
              && (!(shard == "" || timerExpired) || old(empty) == {} ==> heap.View() == skimmed)
              && (shard == "" || timerExpired ==> forall s :: old(empty) == {s} ==> HasPushed(skimmed, s))
              && shard == (if skimmed.nodes == [] then "" else skimmed.nodes[0].shardId)
      // what is returned
      ensures shard != "" ==> shard in old(Ready())
      ensures shard == "" ==> old(Ready()) == {} || "" in old(Ready())
      ensures shard != "" && old(InOrder()) ==>
                forall s :: s in old(Ready()) ==> registered[shard].timestamp <= registered[s].timestamp
      // who waits afterwards: nobody after an empty answer, so the next call finds every shard ready
      ensures empty == if shard == "" || timerExpired then {} else old(empty)
      ensures old(InOrder()) ==> InOrder()
      ensures old(Once()) ==>
                (Once() <==> (shard == "" || timerExpired ==>
                                forall s :: s in old(empty) ==> registered[s] !in old(Skimmed()).nodes))
    {
      hide InOrder; hide Once; hide Skim;
      DropInvalidNodes();
      shard := "";
      if heap.nodes != [] {
        shard := heap.nodes[0].shardId;
        if InOrder() {
          forall s | s in Ready() {
            TopIsOldest(s);
          }
        }
      }
      if shard == "" || timerExpired {
        Reactivate();
      }
    }

    // The read produced a record of the given system time, or nothing.
    method AfterRead(shardId: string, record: Option<int>)
      requires Valid()
      modifies this`empty, heap`nodes, heap.known
      ensures Valid()
      ensures empty == if shardId in registered && record.None? then old(empty) + {shardId} else old(empty)
      ensures forall s :: s in registered ==>
                registered[s].timestamp ==
                if s == shardId && record.Some? then record.value else old(registered[s].timestamp)
      ensures old(Sorted()) ==> Sorted()
      ensures heap.View() == if shardId in registered && record.Some?
                             then Update(old(heap.View()), registered[shardId], record.value)
                             else old(heap.View())
    {
      hide InOrder; hide Once;
      if shardId !in registered {
        return;
      }
      var info := registered[shardId];
      match record
      case Some(systemTime) =>
        Retime(info, systemTime);
      case None =>
        empty := empty + {shardId};
        info.valid := false;
        assert heap.View() == old(heap.View());
        SameView();
    }

    // A node gets a new timestamp and its place in the heap.
    method Retime(node: OffsetInfo, systemTime: int)
      requires heap.Valid() && node in heap.known
      modifies heap`nodes, heap.known`index, node`timestamp
      ensures heap.Valid() && node.timestamp == systemTime && heap.View() == Update(old(heap.View()), node, systemTime)
      ensures forall n :: n in heap.nodes <==> n in old(heap.nodes)
      ensures old(InOrder() && Once()) ==> InOrder() && Once()
    {
      hide Ordered; hide Exact; hide Update;
      ghost var before := heap.View();
      UpdateCorrect(before, node, systemTime);
      if Ordered(before) && node !in before.nodes {
        UpdateUnqueued(before, node, systemTime);
      }
      heap.UpdateNode(node, systemTime);
      SameMembers(heap.nodes, before.nodes);
      assert heap.View().ts[node] == systemTime;
    }
  }

  ghost function NoNodes<N>(): (h: State<N>)
    ensures Known(h)
  {
    State([], map[], map[])
  }

  lemma FirstPushes<N>(a: N, b: N)
    requires a != b
    ensures var h0 := Push(Learned(NoNodes(), a, -1), a);
            Push(Learned(h0, b, -1), b) == State([a, b], map[a := -1, b := -1], map[a := 0, b := 1])
  {
    var g := Learned(NoNodes(), a, -1);
    assert g == State([], map[a := -1], map[a := NO_INDEX]);
    var h0 := Push(g, a);
    assert Appended(g, a) == State([a], map[a := -1], map[a := 0]);
    assert h0 == State([a], map[a := -1], map[a := 0]);
    var g1 := Learned(h0, b, -1);
    assert g1 == State([a], map[a := -1, b := -1], map[a := 0, b := NO_INDEX]);
    assert Appended(g1, b) == State([a, b], map[a := -1, b := -1], map[a := 0, b := 1]);
  }

  // Two shards, known by these nodes, nothing waiting, the heap in the given state.
  ghost predicate TwoShards(sel: ShardReaderSelectStrategy, a: OffsetInfo, b: OffsetInfo, h: State<OffsetInfo>)
    reads sel, sel.heap, sel.heap.known
  {
    && sel.Valid() && a != b && sel.registered == map["a" := a, "b" := b] && sel.empty == {} && sel.heap.View() == h
    && h.nodes != [] && sel.heap.known == {a, b}
  }

  method TwoShardsAdded() returns (sel: ShardReaderSelectStrategy, ghost a: OffsetInfo, ghost b: OffsetInfo)
    ensures fresh(sel) && fresh(sel.heap) && fresh(sel.heap.known)
    ensures TwoShards(sel, a, b, State([a, b], map[a := -1, b := -1], map[a := 0, b := 1]))
  {
    hide Push;
    sel := new ShardReaderSelectStrategy();
    sel.Starts();
    sel.AddShard("a", -1);
    a := sel.registered["a"];
    sel.AddShard("b", -1);
    b := sel.registered["b"];
    FirstPushes(a, b);
  }

  // Shard b has nothing to read, and the timer expires: its node is pushed although it is queued.
  method StarveOnce(sel: ShardReaderSelectStrategy, ghost a: OffsetInfo, ghost b: OffsetInfo,
                    ghost h: State<OffsetInfo>)
    requires TwoShards(sel, a, b, h) && h.nodes[0] == a
    modifies sel`empty, sel.heap, sel.heap.known
    ensures TwoShards(sel, a, b, Push(h, b)) && sel.heap.known == old(sel.heap.known)
  {
    hide Push; hide Skim;
    sel.AfterRead("b", None);
    assert sel.registered["a"].valid;
    SkimNothing(sel.heap.View(), sel.ValidNodes());
    var shard := sel.GetNextShard(true);
  }

  lemma SkimNothing<N>(h: State<N>, valid: set<N>)
    requires Known(h) && h.nodes != [] && h.nodes[0] in valid
    ensures Skim(h, valid) == h
  {
  }

  // Calls a consumer can make: twice, a shard with nothing to read is queued again while its old
  // node is still in the heap. After one more record from each shard the selector prefers the newer.
  method ReactivatedTwice() returns (sel: ShardReaderSelectStrategy, shard: string)
    ensures sel.Valid() && shard == "b" && "a" in sel.Ready() && "b" in sel.Ready()
    ensures sel.registered["a"].timestamp == 1 && sel.registered["b"].timestamp == 2
  {
    hide Push; hide Update; hide Skim;
    ghost var a, b;
    sel, a, b := TwoShardsAdded();
    PushTwiceMore(a, b);
    RaiseA(a, b);
    RaiseB(a, b);
    PushOnceMore(a, b);
    StarveOnce(sel, a, b, State([a, b], map[a := -1, b := -1], map[a := 0, b := 1]));
    StarveOnce(sel, a, b, State([a, b, b], map[a := -1, b := -1], map[a := 0, b := 2]));
    shard := ReadBoth(sel, a, b);
  }

  lemma PushOnceMore<N>(a: N, b: N)
    requires a != b
    ensures var h0 := State([a, b], map[a := -1, b := -1], map[a := 0, b := 1]);
            Known(h0) && Push(h0, b) == State([a, b, b], map[a := -1, b := -1], map[a := 0, b := 2])
  {
    var h0 := State([a, b], map[a := -1, b := -1], map[a := 0, b := 1]);
    assert Appended(h0, b) == State([a, b, b], h0.ts, map[a := 0, b := 2]);
  }

  method ReadBoth(sel: ShardReaderSelectStrategy, ghost a: OffsetInfo, ghost b: OffsetInfo) returns (shard: string)
    requires TwoShards(sel, a, b, State([a, b, b, b], map[a := -1, b := -1], map[a := 0, b := 3]))
    modifies sel`empty, sel.heap, sel.heap.known
    ensures sel.Valid() && shard == "b" && "a" in sel.Ready() && "b" in sel.Ready()
    ensures sel.registered["a"].timestamp == 1 && sel.registered["b"].timestamp == 2
  {
    hide Update; hide Skim;
    RaiseA(a, b);
    RaiseB(a, b);
    sel.AfterRead("a", Some(1));
    sel.AfterRead("b", Some(2));
    SkimNothing(sel.heap.View(), sel.ValidNodes());
    shard := sel.GetNextShard(false);
  }
}
