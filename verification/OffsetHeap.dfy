/**
The indexed min-heap of client/src/shard_offset_heap.cpp: a vector of shared nodes ordered by
timestamp, each node recording its own position so that its timestamp can be changed in place.

The first half states what each operation does to the vector and the positions and proves the heap
properties; the second half is the class, whose methods are proved to be those operations.
*/
module OffsetHeap {
  import opened Collections

  // -1u: the position of a node that is not queued.
  const NO_INDEX: nat := 0xFFFF_FFFF

  // The vector, and every known node's timestamp and recorded position.
  datatype State<N(==)> = State(nodes: seq<N>, ts: map<N, int>, index: map<N, nat>)

  ghost predicate Known<N>(h: State<N>) {
    && h.ts.Keys == h.index.Keys
    && forall n :: n in h.nodes ==> n in h.ts
  }

  // Key of the node at position i.
  function Key<N>(h: State<N>, i: nat): int
    requires i < |h.nodes| && h.nodes[i] in h.ts
  {
    h.ts[h.nodes[i]]
  }

  function Parent(i: nat): nat
    requires i > 0
  {
    (i - 1) / 2
  }

  // Two nodes change places, and both are told their new position.
  function Swap<N>(h: State<N>, i: nat, j: nat): (r: State<N>)
    requires Known(h) && i < |h.nodes| && j < |h.nodes|
    ensures Known(r) && r.ts == h.ts && |r.nodes| == |h.nodes| && r.index.Keys == h.index.Keys
  {
    State(h.nodes[i := h.nodes[j]][j := h.nodes[i]], h.ts, h.index[h.nodes[j] := i][h.nodes[i] := j])
  }

  function HeapUp<N>(h: State<N>, i: nat): (r: State<N>)
    requires Known(h)
    ensures Known(r) && r.ts == h.ts && |r.nodes| == |h.nodes| && r.index.Keys == h.index.Keys
    decreases i
  {
    if i == 0 || i >= |h.nodes| then h
    else
      if Key(h, i) < Key(h, Parent(i)) then HeapUp(Swap(h, i, Parent(i)), Parent(i)) else h
  }

  // The smallest of position i and its children.
  function Smallest<N>(h: State<N>, i: nat): (s: nat)
    requires Known(h) && i < |h.nodes|
    ensures s == i || ((s == 2 * i + 1 || s == 2 * i + 2) && s < |h.nodes|)
  {
    var l, r := 2 * i + 1, 2 * i + 2;
    var s := if l < |h.nodes| && Key(h, l) < Key(h, i) then l else i;
    if r < |h.nodes| && Key(h, r) < Key(h, s) then r else s
  }

  // The guard compares with (size - 1) / 2 in unsigned arithmetic: on an empty vector it never
  // holds and there are no children to move either.
  function HeapDown<N>(h: State<N>, i: nat): (r: State<N>)
    requires Known(h)
    ensures Known(r) && r.ts == h.ts && |r.nodes| == |h.nodes| && r.index.Keys == h.index.Keys
    decreases |h.nodes| - i
  {
    if |h.nodes| == 0 || i > (|h.nodes| - 1) / 2 then h
    else
      var s := Smallest(h, i);
      if s == i then h else HeapDown(Swap(h, i, s), s)
  }

  // The vector with the node appended, before sifting.
  function Appended<N>(h: State<N>, n: N): (r: State<N>)
    requires Known(h) && n in h.ts
    ensures Known(r) && r.ts == h.ts && r.index.Keys == h.index.Keys && r.nodes == h.nodes + [n]
  {
    State(h.nodes + [n], h.ts, h.index[n := |h.nodes|])
  }

  function Push<N>(h: State<N>, n: N): (r: State<N>)
    requires Known(h) && n in h.ts
    ensures Known(r) && r.ts == h.ts && r.index.Keys == h.index.Keys
  {
    HeapUp(Appended(h, n), |h.nodes|)
  }

  // The vector after the last element has replaced the first, before sifting.
  function Unseated<N>(h: State<N>): (r: State<N>)
    requires Known(h) && h.nodes != []
    ensures Known(r) && r.ts == h.ts && |r.nodes| == |h.nodes| - 1 && r.index.Keys == h.index.Keys
  {
    var m := |h.nodes| - 1;
    State(h.nodes[0 := h.nodes[m]][..m], h.ts, h.index[h.nodes[m] := 0][h.nodes[0] := NO_INDEX])
  }

  function Pop<N>(h: State<N>): (r: State<N>)
    requires Known(h)
    ensures Known(r) && r.ts == h.ts && r.index.Keys == h.index.Keys
    ensures |r.nodes| == if h.nodes == [] then 0 else |h.nodes| - 1
  {
    if h.nodes == [] then h else HeapDown(Unseated(h), 0)
  }

  function Update<N>(h: State<N>, n: N, t: int): (r: State<N>)
    requires Known(h) && n in h.ts
    ensures Known(r) && r.ts == h.ts[n := t] && |r.nodes| == |h.nodes| && r.index.Keys == h.index.Keys
  {
    var g := h.(ts := h.ts[n := t]);
    if t > h.ts[n] then HeapDown(g, h.index[n]) else HeapUp(g, h.index[n])
  }

  // ---------------------------------------------------------------- heap order

  ghost predicate Ordered<N>(h: State<N>)
    requires Known(h)
  {
    forall i: nat :: 0 < i < |h.nodes| ==> Key(h, Parent(i)) <= Key(h, i)
  }

  // Every recorded position is right; in particular no node is queued twice.
  ghost predicate Exact<N>(h: State<N>)
    requires Known(h)
  {
    forall i: nat :: i < |h.nodes| ==> h.index[h.nodes[i]] == i
  }

  lemma ExactIsDistinct<N>(h: State<N>)
    requires Known(h) && Exact(h)
    ensures Distinct(h.nodes)
  {
  }

  // Ordered but for position i, which may be too small for its place.
  ghost predicate OrderedAbove<N>(h: State<N>, i: nat)
    requires Known(h)
  {
    && (forall j: nat :: 0 < j < |h.nodes| && j != i ==> Key(h, Parent(j)) <= Key(h, j))
    && (forall j: nat :: 0 < j < |h.nodes| && Parent(j) == i && i > 0 ==> Key(h, Parent(i)) <= Key(h, j))
  }

  // Ordered but for position i, which may be too large for its place.
  ghost predicate OrderedBelow<N>(h: State<N>, i: nat)
    requires Known(h)
  {
    && (forall j: nat :: 0 < j < |h.nodes| && Parent(j) != i ==> Key(h, Parent(j)) <= Key(h, j))
    && (forall j: nat :: 0 < j < |h.nodes| && Parent(j) == i && i > 0 ==> Key(h, Parent(i)) <= Key(h, j))
  }

  lemma SwapKeys<N>(h: State<N>, i: nat, j: nat, k: nat)
    requires Known(h) && i < |h.nodes| && j < |h.nodes| && k < |h.nodes|
    ensures Key(Swap(h, i, j), k) == if k == i then Key(h, j) else if k == j then Key(h, i) else Key(h, k)
  {
  }

  // Swapping a small node with its parent moves the one misplaced position up.
  lemma UpStep<N>(h: State<N>, i: nat, j: nat)
    requires Known(h) && OrderedAbove(h, i) && 0 < i < |h.nodes| && Key(h, i) < Key(h, Parent(i))
    requires 0 < j < |h.nodes|
    ensures var p, g := Parent(i), Swap(h, i, Parent(i));
            && (j != p ==> Key(g, Parent(j)) <= Key(g, j))
            && (Parent(j) == p && p > 0 ==> Key(g, Parent(p)) <= Key(g, j))
  {
    hide Swap;
    var p := Parent(i);
    SwapKeys(h, i, p, j);
    SwapKeys(h, i, p, Parent(j));
    if p > 0 {
      SwapKeys(h, i, p, Parent(p));
      assert Key(h, Parent(p)) <= Key(h, p);
    }
    if j != i {
      assert Key(h, Parent(j)) <= Key(h, j);
    }
  }

  lemma {:induction false} UpRestores<N>(h: State<N>, i: nat)
    requires Known(h) && OrderedAbove(h, i)
    ensures Ordered(HeapUp(h, i))
    decreases i
  {
    hide Swap; hide Key;
    if 0 < i < |h.nodes| && Key(h, i) < Key(h, Parent(i)) {
      forall j: nat | 0 < j < |h.nodes| {
        UpStep(h, i, j);
      }
      UpRestores(Swap(h, i, Parent(i)), Parent(i));
    }
  }

  // Swapping a large node with its smallest child moves the one misplaced position down.
  lemma DownStep<N>(h: State<N>, i: nat, j: nat)
    requires Known(h) && OrderedBelow(h, i) && i < |h.nodes| && Smallest(h, i) != i
    requires 0 < j < |h.nodes|
    ensures var s, g := Smallest(h, i), Swap(h, i, Smallest(h, i));
            && (Parent(j) != s ==> Key(g, Parent(j)) <= Key(g, j))
            && (Parent(j) == s ==> Key(g, Parent(s)) <= Key(g, j))
  {
    hide Swap;
    var s := Smallest(h, i);
    SwapKeys(h, i, s, j);
    SwapKeys(h, i, s, Parent(j));
    SwapKeys(h, i, s, i);
    if Parent(j) == i {
      assert j == 2 * i + 1 || j == 2 * i + 2;
      if i > 0 { assert Key(h, Parent(i)) <= Key(h, j); }
    } else {
      assert Key(h, Parent(j)) <= Key(h, j);
      if i > 0 { assert Key(h, Parent(i)) <= Key(h, s); }
    }
  }

  lemma {:induction false} DownRestores<N>(h: State<N>, i: nat)
    requires Known(h) && OrderedBelow(h, i)
    ensures Ordered(HeapDown(h, i))
    decreases |h.nodes| - i
  {
    hide Swap; hide Key;
    if |h.nodes| != 0 && i <= (|h.nodes| - 1) / 2 {
      if Smallest(h, i) != i {
        forall j: nat | 0 < j < |h.nodes| {
          DownStep(h, i, j);
        }
        DownRestores(Swap(h, i, Smallest(h, i)), Smallest(h, i));
      } else {
        SmallestMeans(h, i);
      }
    }
  }

  lemma SmallestMeans<N>(h: State<N>, i: nat)
    requires Known(h) && i < |h.nodes| && Smallest(h, i) == i
    ensures forall j: nat :: 0 < j < |h.nodes| && Parent(j) == i ==> Key(h, i) <= Key(h, j)
  {
    forall j: nat | 0 < j < |h.nodes| && Parent(j) == i
      ensures Key(h, i) <= Key(h, j)
    {
      assert j == 2 * i + 1 || j == 2 * i + 2;
    }
  }

  lemma SwapKeepsExact<N>(h: State<N>, i: nat, j: nat)
    requires Known(h) && Exact(h) && i < |h.nodes| && j < |h.nodes| && i != j
    ensures Exact(Swap(h, i, j))
  {
    assert h.nodes[i] != h.nodes[j];
  }

  lemma SwapKeepsNodes<N>(h: State<N>, i: nat, j: nat)
    requires Known(h) && i < |h.nodes| && j < |h.nodes|
    ensures multiset(Swap(h, i, j).nodes) == multiset(h.nodes)
    ensures forall n :: n in h.index && n !in h.nodes ==> Swap(h, i, j).index[n] == h.index[n]
  {
  }

  // Sifting moves nodes about but adds and drops none, and touches no other node's position.
  lemma {:induction false} UpKeepsNodes<N>(h: State<N>, i: nat)
    requires Known(h)
    ensures multiset(HeapUp(h, i).nodes) == multiset(h.nodes)
    ensures forall n :: n in h.index && n !in h.nodes ==> HeapUp(h, i).index[n] == h.index[n]
    ensures Exact(h) ==> Exact(HeapUp(h, i))
    decreases i
  {
    if 0 < i < |h.nodes| && Key(h, i) < Key(h, Parent(i)) {
      var g := Swap(h, i, Parent(i));
      SwapKeepsNodes(h, i, Parent(i));
      SameMembers(g.nodes, h.nodes);
      if Exact(h) {
        SwapKeepsExact(h, i, Parent(i));
      }
      UpKeepsNodes(g, Parent(i));
    }
  }

  lemma {:induction false} DownKeepsNodes<N>(h: State<N>, i: nat)
    requires Known(h)
    ensures multiset(HeapDown(h, i).nodes) == multiset(h.nodes)
    ensures forall n :: n in h.index && n !in h.nodes ==> HeapDown(h, i).index[n] == h.index[n]
    ensures Exact(h) ==> Exact(HeapDown(h, i))
    decreases |h.nodes| - i
  {
    if |h.nodes| != 0 && i <= (|h.nodes| - 1) / 2 {
      var s := Smallest(h, i);
      if s != i {
        var g := Swap(h, i, s);
        SwapKeepsNodes(h, i, s);
        SameMembers(g.nodes, h.nodes);
        if Exact(h) {
          SwapKeepsExact(h, i, s);
        }
        DownKeepsNodes(g, s);
      }
    }
  }

  lemma SameMembers<N>(a: seq<N>, b: seq<N>)
    requires multiset(a) == multiset(b)
    ensures forall n :: n in a <==> n in b
  {
    forall n
      ensures n in a <==> n in b
    {
      assert n in a <==> n in multiset(a);
      assert n in b <==> n in multiset(b);
    }
  }

  // ---------------------------------------------------------------- the operations

  // The first node is a minimum of an ordered heap.
  lemma {:induction false} TopIsMinimum<N>(h: State<N>, i: nat)
    requires Known(h) && Ordered(h) && i < |h.nodes|
    ensures Key(h, 0) <= Key(h, i)
    decreases i
  {
    if i > 0 {
      TopIsMinimum(h, Parent(i));
    }
  }

  lemma AppendedOrdered<N>(h: State<N>, n: N)
    requires Known(h) && n in h.ts && Ordered(h)
    ensures OrderedAbove(Appended(h, n), |h.nodes|)
  {
    var g := Appended(h, n);
    forall j: nat | 0 < j < |g.nodes| && j != |h.nodes|
      ensures Key(g, Parent(j)) <= Key(g, j)
    {
      assert Key(h, Parent(j)) <= Key(h, j);
    }
  }

  lemma AppendedExact<N>(h: State<N>, n: N)
    requires Known(h) && n in h.ts && Exact(h) && n !in h.nodes
    ensures Exact(Appended(h, n))
  {
  }

  // Push adds the node and keeps the order, whether or not the node is queued already; recorded
  // positions stay right exactly when it was not.
  lemma PushCorrect<N>(h: State<N>, n: N)
    requires Known(h) && n in h.ts
    ensures multiset(Push(h, n).nodes) == multiset(h.nodes) + multiset{n}
    ensures Ordered(h) ==> Ordered(Push(h, n))
    ensures Exact(h) ==> (Exact(Push(h, n)) <==> n !in h.nodes)
  {
    hide Ordered; hide Exact; hide HeapUp; hide OrderedAbove;
    UpKeepsNodes(Appended(h, n), |h.nodes|);
    if Ordered(h) {
      AppendedOrdered(h, n);
      UpRestores(Appended(h, n), |h.nodes|);
    }
    if Exact(h) {
      if n !in h.nodes {
        AppendedExact(h, n);
      } else {
        assert n in multiset(h.nodes);
        QueuedTwice(Push(h, n), n);
      }
    }
  }

  lemma QueuedTwice<N>(h: State<N>, n: N)
    requires Known(h) && multiset(h.nodes)[n] >= 2
    ensures !Exact(h) && !Distinct(h.nodes)
  {
    TwoPlaces(h.nodes, n);
  }

  lemma {:induction false} TwoPlaces<N>(s: seq<N>, n: N)
    requires multiset(s)[n] >= 2
    ensures exists i: nat, j: nat :: i < j < |s| && s[i] == n == s[j]
  {
    var last := |s| - 1;
    assert s == s[..last] + [s[last]];
    if s[last] == n {
      assert n in multiset(s[..last]);
      var i :| 0 <= i < last && s[i] == n;
      assert i < last < |s| && s[i] == n == s[last];
    } else {
      TwoPlaces(s[..last], n);
      var i: nat, j: nat :| i < j < last && s[..last][i] == n == s[..last][j];
      assert i < j < |s| && s[i] == n == s[j];
    }
  }

  lemma UnseatedNodes<N>(h: State<N>)
    requires Known(h) && h.nodes != []
    ensures multiset(Unseated(h).nodes) == multiset(h.nodes) - multiset{h.nodes[0]}
  {
    var m := |h.nodes| - 1;
    var moved := h.nodes[0 := h.nodes[m]][m := h.nodes[0]];
    assert multiset(moved) == multiset(h.nodes);
    assert moved == Unseated(h).nodes + [h.nodes[0]];
  }

  lemma UnseatedOrdered<N>(h: State<N>)
    requires Known(h) && h.nodes != [] && Ordered(h)
    ensures OrderedBelow(Unseated(h), 0)
  {
    var g := Unseated(h);
    forall j: nat | 0 < j < |g.nodes| && Parent(j) != 0
      ensures Key(g, Parent(j)) <= Key(g, j)
    {
      assert Key(h, Parent(j)) <= Key(h, j);
    }
  }

  lemma UnseatedExact<N>(h: State<N>)
    requires Known(h) && h.nodes != [] && Exact(h)
    ensures Exact(Unseated(h)) && h.nodes[0] !in Unseated(h).nodes && Unseated(h).index[h.nodes[0]] == NO_INDEX
  {
    var g := Unseated(h);
    ExactIsDistinct(h);
    assert forall j: nat :: j < |g.nodes| ==> g.nodes[j] == if j == 0 then h.nodes[|g.nodes|] else h.nodes[j];
  }

  // Pop removes the first node and no other, keeps order and positions, and unqueues the node.
  lemma PopCorrect<N>(h: State<N>)
    requires Known(h) && h.nodes != []
    ensures multiset(Pop(h).nodes) == multiset(h.nodes) - multiset{h.nodes[0]}
    ensures Ordered(h) ==> Ordered(Pop(h))
    ensures Exact(h) ==> Exact(Pop(h)) && h.nodes[0] !in Pop(h).nodes && Pop(h).index[h.nodes[0]] == 0xFFFF_FFFF
  {
    hide Unseated; hide HeapDown; hide Exact; hide Ordered; hide OrderedBelow;
    var g := Unseated(h);
    UnseatedNodes(h);
    DownKeepsNodes(g, 0);
    SameMembers(g.nodes, Pop(h).nodes);
    if Ordered(h) {
      UnseatedOrdered(h);
      DownRestores(g, 0);
    }
    if Exact(h) {
      UnseatedExact(h);
    }
  }

  // Update on a queued node re-sorts it; the node's position is where the heap looks for it.
  lemma UpdateCorrect<N>(h: State<N>, n: N, t: int)
    requires Known(h) && n in h.ts
    ensures multiset(Update(h, n, t).nodes) == multiset(h.nodes)
    ensures Exact(h) ==> Exact(Update(h, n, t))
    ensures Exact(h) && Ordered(h) && n in h.nodes ==> Ordered(Update(h, n, t))
  {
    hide Ordered; hide OrderedAbove; hide OrderedBelow; hide HeapUp; hide HeapDown;
    var g := h.(ts := h.ts[n := t]);
    UpKeepsNodes(g, h.index[n]);
    DownKeepsNodes(g, h.index[n]);
    if Exact(h) && Ordered(h) && n in h.nodes {
      UpdatedKeys(h, n, t);
      if t > h.ts[n] {
        DownRestores(g, h.index[n]);
      } else {
        UpRestores(g, h.index[n]);
      }
    }
  }

  lemma UpdatedKeys<N>(h: State<N>, n: N, t: int)
    requires Known(h) && Exact(h) && Ordered(h) && n in h.nodes
    ensures var g, i := h.(ts := h.ts[n := t]), h.index[n];
            && (t > h.ts[n] ==> OrderedBelow(g, i)) && (t <= h.ts[n] ==> OrderedAbove(g, i))
  {
    var g, i := h.(ts := h.ts[n := t]), h.index[n];
    var k: nat :| k < |h.nodes| && h.nodes[k] == n;
    assert k == i;
    forall j: nat | j < |h.nodes|
      ensures Key(g, j) == if j == i then t else Key(h, j)
    {
      assert j != i ==> h.nodes[j] != n;
    }
    forall j: nat | 0 < j < |h.nodes|
      ensures Key(h, Parent(j)) <= Key(h, j)
      ensures Parent(j) == i && i > 0 ==> Key(h, Parent(i)) <= Key(h, i)
    {
    }
  }

  // Update on a node that is not queued leaves an ordered vector alone, wherever its stale
  // position points.
  lemma UpdateUnqueued<N>(h: State<N>, n: N, t: int)
    requires Known(h) && Ordered(h) && n in h.ts && n !in h.nodes
    ensures Update(h, n, t).nodes == h.nodes && Ordered(Update(h, n, t))
  {
    var g := h.(ts := h.ts[n := t]);
    assert forall j: nat :: j < |h.nodes| ==> Key(g, j) == Key(h, j);
    assert Ordered(g);
    var i := h.index[n];
    if t > h.ts[n] {
      if |h.nodes| != 0 && i <= (|h.nodes| - 1) / 2 {
        OrderedSmallest(g, i);
      }
    } else if 0 < i < |h.nodes| {
      assert Key(h, Parent(i)) <= Key(h, i);
    }
  }

  lemma OrderedSmallest<N>(h: State<N>, i: nat)
    requires Known(h) && Ordered(h) && i < |h.nodes|
    ensures Smallest(h, i) == i
  {
    assert 2 * i + 1 < |h.nodes| ==> Key(h, Parent(2 * i + 1)) <= Key(h, 2 * i + 1);
    assert 2 * i + 2 < |h.nodes| ==> Key(h, Parent(2 * i + 2)) <= Key(h, 2 * i + 2);
  }

  // ---------------------------------------------------------------- whole runs

  datatype Op<N> = PushOp(node: N) | PopOp | UpdateOp(node: N, timestamp: int)

  function Apply<N>(h: State<N>, op: Op<N>): (r: State<N>)
    requires Known(h) && (op.PopOp? || op.node in h.ts)
    ensures Known(r) && r.ts.Keys == h.ts.Keys
  {
    match op
    case PushOp(n) => Push(h, n)
    case PopOp => Pop(h)
    case UpdateOp(n, t) => Update(h, n, t)
  }

  // What the heap's own callers keep to: push a node that is not queued, update one that is.
  ghost predicate Legal<N>(h: State<N>, op: Op<N>)
    requires Known(h)
  {
    match op
    case PushOp(n) => n in h.ts && n !in h.nodes
    case PopOp => true
    case UpdateOp(n, _) => n in h.nodes
  }

  ghost predicate LegalRun<N>(h: State<N>, ops: seq<Op<N>>)
    requires Known(h)
    decreases |ops|
  {
    ops != [] ==> Legal(h, ops[0]) && LegalRun(Apply(h, ops[0]), ops[1..])
  }

  ghost function Run<N>(h: State<N>, ops: seq<Op<N>>): (r: State<N>)
    requires Known(h) && LegalRun(h, ops)
    ensures Known(r)
    decreases |ops|
  {
    if ops == [] then h else Run(Apply(h, ops[0]), ops[1..])
  }

  ghost function Pushed<N>(ops: seq<Op<N>>): multiset<N>
    decreases |ops|
  {
    if ops == [] then multiset{}
    else (if ops[0].PushOp? then multiset{ops[0].node} else multiset{}) + Pushed(ops[1..])
  }

  ghost function Popped<N>(h: State<N>, ops: seq<Op<N>>): multiset<N>
    requires Known(h) && LegalRun(h, ops)
    decreases |ops|
  {
    if ops == [] then multiset{}
    else (if ops[0].PopOp? && h.nodes != [] then multiset{h.nodes[0]} else multiset{})
         + Popped(Apply(h, ops[0]), ops[1..])
  }

  lemma ApplyCorrect<N>(h: State<N>, op: Op<N>)
    requires Known(h) && Ordered(h) && Exact(h) && Legal(h, op)
    ensures Ordered(Apply(h, op)) && Exact(Apply(h, op))
    ensures multiset(h.nodes) + (if op.PushOp? then multiset{op.node} else multiset{})
            == multiset(Apply(h, op).nodes) + (if op.PopOp? && h.nodes != [] then multiset{h.nodes[0]} else multiset{})
  {
    hide Ordered; hide Exact; hide Push; hide Update; hide HeapDown;
    match op {
      case PushOp(n) => PushCorrect(h, n);
      case PopOp => if h.nodes != [] { PopCorrect(h); }
      case UpdateOp(n, t) => UpdateCorrect(h, n, t);
    }
  }

  // Any legal run from an ordered heap with right positions ends in one, and no node is lost or
  // duplicated on the way.
  lemma {:induction false} RunCorrect<N>(h: State<N>, ops: seq<Op<N>>)
    requires Known(h) && Ordered(h) && Exact(h) && LegalRun(h, ops)
    ensures Ordered(Run(h, ops)) && Exact(Run(h, ops))
    ensures multiset(h.nodes) + Pushed(ops) == multiset(Run(h, ops).nodes) + Popped(h, ops)
    decreases |ops|
  {
    hide Ordered; hide Exact; hide Apply;
    if ops != [] {
      var op, g := ops[0], Apply(h, ops[0]);
      ApplyCorrect(h, op);
      RunCorrect(g, ops[1..]);
      Balance(multiset(h.nodes), if op.PushOp? then multiset{op.node} else multiset{}, Pushed(ops[1..]),
              multiset(g.nodes),
              if op.PopOp? && h.nodes != [] then multiset{h.nodes[0]} else multiset{}, Popped(g, ops[1..]),
              multiset(Run(g, ops[1..]).nodes));
    }
  }

  lemma Balance<N>(a: multiset<N>, p: multiset<N>, ps: multiset<N>, b: multiset<N>, q: multiset<N>, qs: multiset<N>,
                   c: multiset<N>)
    requires a + p == b + q && b + ps == c + qs
    ensures a + (p + ps) == c + (q + qs)
  {
    assert a + (p + ps) == (a + p) + ps;
    assert (b + q) + ps == (b + ps) + q;
    assert (c + qs) + q == c + (q + qs);
  }

  // The nodes in the order that popping until empty yields them.
  function Drain<N>(h: State<N>): seq<N>
    requires Known(h)
    decreases |h.nodes|
  {
    if h.nodes == [] then [] else [h.nodes[0]] + Drain(Pop(h))
  }

  lemma {:induction false} DrainNodes<N>(h: State<N>)
    requires Known(h)
    ensures multiset(Drain(h)) == multiset(h.nodes)
    decreases |h.nodes|
  {
    hide Pop; hide Exact; hide Ordered;
    if h.nodes != [] {
      PopCorrect(h);
      DrainNodes(Pop(h));
    }
  }

  lemma QueuedAbove<N>(h: State<N>, n: N)
    requires Known(h) && Ordered(h) && n in multiset(h.nodes)
    ensures n in h.ts && h.nodes != [] && h.ts[h.nodes[0]] <= h.ts[n]
  {
    assert n in h.nodes;
    var k: nat :| k < |h.nodes| && h.nodes[k] == n;
    TopIsMinimum(h, k);
  }

  // All nodes are known and their timestamps never decrease.
  ghost predicate SortedBy<N>(ts: map<N, int>, s: seq<N>) {
    && (forall n :: n in s ==> n in ts)
    && (forall i: nat, j: nat :: i < j < |s| ==> ts[s[i]] <= ts[s[j]])
  }

  lemma SortedCons<N>(ts: map<N, int>, n: N, rest: seq<N>)
    requires SortedBy(ts, rest) && n in ts && forall m :: m in rest ==> ts[n] <= ts[m]
    ensures SortedBy(ts, [n] + rest)
  {
  }

  // Popping until empty sorts: every queued node once, timestamps never decreasing.
  lemma {:induction false} DrainSorts<N>(h: State<N>)
    requires Known(h) && Ordered(h)
    ensures multiset(Drain(h)) == multiset(h.nodes)
    ensures SortedBy(h.ts, Drain(h))
    decreases |h.nodes|
  {
    hide Pop; hide Exact; hide Ordered; hide Known; hide SortedBy;
    DrainNodes(h);
    if h.nodes == [] {
      NothingSorted(h.ts);
    } else {
      PopCorrect(h);
      DrainSorts(Pop(h));
      AllQueuedAbove(h, Drain(Pop(h)));
      SortedCons(h.ts, h.nodes[0], Drain(Pop(h)));
    }
  }

  lemma NothingSorted<N>(ts: map<N, int>)
    ensures SortedBy(ts, [])
  {
  }

  lemma AllQueuedAbove<N>(h: State<N>, rest: seq<N>)
    requires Known(h) && Ordered(h) && h.nodes != []
    requires multiset(rest) == multiset(h.nodes) - multiset{h.nodes[0]}
    ensures h.nodes[0] in h.ts
    ensures forall n :: n in rest ==> n in h.ts && h.ts[h.nodes[0]] <= h.ts[n]
  {
    forall n | n in rest
      ensures n in h.ts && h.ts[h.nodes[0]] <= h.ts[n]
    {
      assert n in multiset(rest);
      QueuedAbove(h, n);
    }
  }

  // ---------------------------------------------------------------- a node queued twice

  // Sifting up what is no smaller than the first node leaves that one first.
  lemma {:induction false} UpKeepsTop<N>(h: State<N>, i: nat)
    requires Known(h) && 0 < i < |h.nodes| && h.index[h.nodes[i]] > 0 && Key(h, 0) <= Key(h, i)
    ensures HeapUp(h, i).nodes[0] == h.nodes[0] && HeapUp(h, i).index[h.nodes[i]] > 0
    decreases i
  {
    if Key(h, i) < Key(h, Parent(i)) {
      UpKeepsTop(Swap(h, i, Parent(i)), Parent(i));
    }
  }

  lemma {:induction false} DownKeepsTop<N>(h: State<N>, i: nat)
    requires Known(h) && i > 0 && h.nodes != []
    ensures HeapDown(h, i).nodes[0] == h.nodes[0]
    decreases |h.nodes| - i
  {
    if i <= (|h.nodes| - 1) / 2 && i < |h.nodes| && Smallest(h, i) != i {
      DownKeepsTop(Swap(h, i, Smallest(h, i)), Smallest(h, i));
    }
  }

  // Some queued node is older than the one in front.
  ghost predicate Hides<N>(h: State<N>)
    requires Known(h)
  {
    h.nodes != [] && exists m :: m in h.nodes && h.ts[m] < h.ts[h.nodes[0]]
  }

  ghost predicate SameNodes<N>(a: seq<N>, b: seq<N>) {
    (forall m :: m in a ==> m in b) && forall m :: m in b ==> m in a
  }

  lemma FirstIsOldest<N>(h: State<N>)
    requires Known(h) && Ordered(h)
    ensures forall m :: m in h.nodes ==> h.ts[h.nodes[0]] <= h.ts[m]
  {
    forall m | m in h.nodes
      ensures h.ts[h.nodes[0]] <= h.ts[m]
    {
      var i :| 0 <= i < |h.nodes| && h.nodes[i] == m;
      TopIsMinimum(h, i);
    }
  }

  lemma PushedAgain<N>(h: State<N>, n: N)
    requires Known(h) && Ordered(h) && n in h.nodes
    ensures var p := Push(h, n);
            p.nodes != [] && p.nodes[0] == h.nodes[0] && p.index[n] > 0 && SameNodes(p.nodes, h.nodes)
  {
    FirstIsOldest(h);
    var a := Appended(h, n);
    assert a.nodes[|h.nodes|] == n && a.nodes[0] == h.nodes[0];
    hide Ordered;
    UpKeepsTop(a, |h.nodes|);
    UpKeepsNodes(a, |h.nodes|);
    SameMembers(Push(h, n).nodes, h.nodes + [n]);
    hide HeapUp;
  }

  lemma RaisedBelow<N>(p: State<N>, n: N, t: int)
    requires Known(p) && p.nodes != [] && n in p.ts && p.index[n] > 0 && t > p.ts[n]
    ensures Update(p, n, t).nodes[0] == p.nodes[0] && SameNodes(Update(p, n, t).nodes, p.nodes)
  {
    var q := p.(ts := p.ts[n := t]);
    DownKeepsTop(q, p.index[n]);
    DownKeepsNodes(q, p.index[n]);
    hide HeapDown;
    SameMembers(Update(p, n, t).nodes, p.nodes);
  }

  // A node that is queued once more and then gets a newer timestamp hides an older one if and only if
  // it was in front: the other copy is re-sorted, and this one stays where it was.
  lemma QueuedTwiceHidesIff<N>(h: State<N>, n: N, t: int)
    requires Known(h) && Ordered(h) && n in h.nodes && t > h.ts[n]
    ensures var g := Update(Push(h, n), n, t);
            && g.nodes != [] && g.nodes[0] == h.nodes[0]
            && (Hides(g) <==> h.nodes[0] == n && exists m :: m in h.nodes && m != n && h.ts[m] < t)
  {
    FirstIsOldest(h);
    PushedAgain(h, n);
    RaisedBelow(Push(h, n), n, t);
    hide Push; hide Update; hide Ordered;
    var g := Update(Push(h, n), n, t);
    assert SameNodes(g.nodes, h.nodes);
    hide SameNodes;
    if h.nodes[0] == n && exists m :: m in h.nodes && m != n && h.ts[m] < t {
      var m :| m in h.nodes && m != n && h.ts[m] < t;
      assert m in g.nodes by { SameNode(g.nodes, h.nodes, m); }
      assert g.ts[m] < g.ts[g.nodes[0]];
    }
    if Hides(g) {
      var m :| m in g.nodes && g.ts[m] < g.ts[g.nodes[0]];
      SameNode(g.nodes, h.nodes, m);
    }
  }

  lemma SameNode<N>(a: seq<N>, b: seq<N>, m: N)
    requires SameNodes(a, b)
    ensures m in a <==> m in b
  {
  }

  lemma PushTwiceMore<N>(a: N, b: N)
    requires a != b
    ensures var h0 := State([a, b], map[a := -1, b := -1], map[a := 0, b := 1]);
            && Known(h0) && Ordered(h0) && Exact(h0)
            && Push(Push(h0, b), b) == State([a, b, b, b], map[a := -1, b := -1], map[a := 0, b := 3])
  {
    var h0 := State([a, b], map[a := -1, b := -1], map[a := 0, b := 1]);
    var h1 := Appended(h0, b);
    assert h1 == State([a, b, b], h0.ts, map[a := 0, b := 2]);
    assert HeapUp(h1, 2) == h1;
    var h2 := Appended(h1, b);
    assert h2 == State([a, b, b, b], h0.ts, map[a := 0, b := 3]);
    assert HeapUp(h2, 3) == h2;
  }

  lemma RaiseA<N>(a: N, b: N)
    requires a != b
    ensures var h := State([a, b, b, b], map[a := -1, b := -1], map[a := 0, b := 3]);
            Known(h) && Update(h, a, 1) == State([b, b, b, a], map[a := 1, b := -1], map[a := 3, b := 1])
  {
    var g := State([a, b, b, b], map[a := 1, b := -1], map[a := 0, b := 3]);
    assert Smallest(g, 0) == 1;
    var g1 := Swap(g, 0, 1);
    assert g1 == State([b, a, b, b], g.ts, map[a := 1, b := 0]);
    assert Smallest(g1, 1) == 3;
    var g2 := Swap(g1, 1, 3);
    assert g2 == State([b, b, b, a], g.ts, map[a := 3, b := 1]);
    assert HeapDown(g2, 3) == g2;
    assert HeapDown(g1, 1) == g2;
    assert map[a := -1, b := -1][a := 1] == map[a := 1, b := -1];
  }

  lemma RaiseB<N>(a: N, b: N)
    requires a != b
    ensures var h := State([b, b, b, a], map[a := 1, b := -1], map[a := 3, b := 1]);
            Known(h) && Update(h, b, 2).nodes == [b, a, b, b] && Update(h, b, 2).ts == map[a := 1, b := 2]
  {
    var k := State([b, b, b, a], map[a := 1, b := 2], map[a := 3, b := 1]);
    assert map[a := 1, b := -1][b := 2] == k.ts;
    assert Smallest(k, 1) == 3;
    var k1 := Swap(k, 1, 3);
    assert k1.nodes == [b, a, b, b];
    assert HeapDown(k1, 3) == k1;
  }

  // With b queued three times, and not in front, it takes two ordinary updates -- timestamps only ever
  // growing -- to leave b in front of the older a.
  lemma QueuedTwiceHidesOldest<N>(a: N, b: N)
    requires a != b
    ensures var h0 := State([a, b], map[a := -1, b := -1], map[a := 0, b := 1]);
            && Known(h0) && Ordered(h0) && Exact(h0)
            && var h := Update(Update(Push(Push(h0, b), b), a, 1), b, 2);
               h.nodes[0] == b && h.ts[b] == 2 && a in h.nodes && h.ts[a] == 1
  {
    hide Push; hide Update;
    PushTwiceMore(a, b);
    RaiseA(a, b);
    RaiseB(a, b);
  }

  // ---------------------------------------------------------------- the class

  class OffsetInfo {
    const shardId: string
    var valid: bool
    var index: nat
    var timestamp: int

    constructor (shardId: string, timestamp: int)
      ensures this.shardId == shardId && this.timestamp == timestamp
      ensures valid && index == 0xFFFF_FFFF
    {
      this.shardId := shardId;
      this.timestamp := timestamp;
      valid := true;
      index := NO_INDEX;
    }
  }

  class Heap {
    var nodes: seq<OffsetInfo>
    // every node ever handed to this heap
    ghost var known: set<OffsetInfo>

    ghost predicate Valid()
      reads this
    {
      forall n :: n in nodes ==> n in known
    }

    ghost function View(): (h: State<OffsetInfo>)
      requires Valid()
      reads this, known
      ensures Known(h)
    {
      State(nodes, map n | n in known :: n.timestamp, map n | n in known :: n.index)
    }

    constructor ()
      ensures Valid() && nodes == [] && known == {}
    {
      nodes := [];
      known := {};
    }

    predicate Empty()
      reads this
    {
      nodes == []
    }

    // mNodes[i] and mNodes[j] change places, mNodes[i] being told first.
    method SwapNodes(i: nat, j: nat)
      requires Valid() && i < |nodes| && j < |nodes|
      modifies this`nodes, known`index
      ensures Valid() && View() == Swap(old(View()), i, j)
    {
      nodes := nodes[i := nodes[j]][j := nodes[i]];
      nodes[i].index := i;
      nodes[j].index := j;
    }

    method SiftUp(i: nat)
      requires Valid()
      modifies this`nodes, known`index
      ensures Valid() && View() == HeapUp(old(View()), i)
      decreases i
    {
      if i == 0 || i >= |nodes| {
        return;
      }
      var parent := Parent(i);
      if nodes[i].timestamp < nodes[parent].timestamp {
        SwapNodes(i, parent);
        SiftUp(parent);
      }
    }

    method SiftDown(i: nat)
      requires Valid()
      modifies this`nodes, known`index
      ensures Valid() && View() == HeapDown(old(View()), i)
      decreases |nodes| - i
    {
      if |nodes| == 0 || i > (|nodes| - 1) / 2 {
        return;
      }
      var smallest := i;
      var left, right := 2 * i + 1, 2 * i + 2;
      if left < |nodes| && nodes[left].timestamp < nodes[smallest].timestamp {
        smallest := left;
      }
      if right < |nodes| && nodes[right].timestamp < nodes[smallest].timestamp {
        smallest := right;
      }
      assert smallest == Smallest(View(), i);
      if smallest != i {
        SwapNodes(i, smallest);
        SiftDown(smallest);
      }
    }

    // The view once node is known.
    ghost function ViewWith(node: OffsetInfo): (h: State<OffsetInfo>)
      requires Valid()
      reads this, known, node
      ensures Known(h)
    {
      var all: set<OffsetInfo> := known + {node};
      State(nodes, map n | n in all :: n.timestamp, map n | n in all :: n.index)
    }

    lemma KnowingKeepsOrder(node: OffsetInfo)
      requires Valid()
      ensures Ordered(View()) ==> Ordered(ViewWith(node))
      ensures Exact(View()) ==> Exact(ViewWith(node))
      ensures node in known ==> ViewWith(node) == View()
    {
      assert forall i: nat :: i < |nodes| ==> Key(ViewWith(node), i) == Key(View(), i);
    }

    lemma ViewKnows(node: OffsetInfo)
      requires Valid() && node in known
      ensures node in View().ts && View().nodes == nodes
    {
    }

    // Only positions and timestamps are in view.
    twostate lemma Unchanged()
      requires old(Valid()) && Valid() && nodes == old(nodes) && known == old(known)
      requires forall n :: n in known ==> n.index == old(n.index) && n.timestamp == old(n.timestamp)
      ensures View() == old(View())
    {
    }

    method PushNode(node: OffsetInfo)
      requires Valid()
      modifies this, known`index, node`index
      ensures Valid() && known == old(known) + {node}
      ensures View() == Push(old(ViewWith(node)), node)
    {
      ghost var before := ViewWith(node);
      nodes := nodes + [node];
      known := known + {node};
      node.index := |nodes| - 1;
      assert View() == Appended(before, node);
      SiftUp(|nodes| - 1);
    }

    method PopNode()
      requires Valid()
      modifies this`nodes, known`index
      ensures Valid() && View() == Pop(old(View()))
    {
      if Empty() {
        return;
      }
      var m := |nodes| - 1;
      nodes := nodes[0 := nodes[m]][m := nodes[0]];
      nodes[0].index := 0;
      nodes[m].index := NO_INDEX;
      nodes := nodes[..m];
      assert View() == Unseated(old(View()));
      SiftDown(0);
    }

    method TopNode() returns (node: OffsetInfo?)
      ensures if nodes == [] then node == null else node == nodes[0]
    {
      if Empty() {
        return null;
      }
      return nodes[0];
    }

    method UpdateNode(node: OffsetInfo, timestamp: int)
      requires Valid() && node in known
      modifies this`nodes, known`index, node`timestamp
      ensures Valid() && View() == Update(old(View()), node, timestamp)
    {
      var isDown := timestamp > node.timestamp;
      node.timestamp := timestamp;
      assert View() == old(View()).(ts := old(View()).ts[node := timestamp]);
      if isDown {
        SiftDown(node.index);
      } else {
        SiftUp(node.index);
      }
    }
  }
}
