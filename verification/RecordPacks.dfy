/**
RecordPack and RecordPackQueue (client/src/record_pack.cpp, client/src/record_pack_queue.cpp):
batches of records are collected in a current pack; full or overdue packs queue up to be sent. Each
accepted batch gets one promise, resolved when its pack has been sent.

Whether a pack or the queue is overdue is a parameter. Sizes and counts are unbounded.
*/
module RecordPacks {
  import opened Collections

  datatype Record = Record(data: string, size: nat)

  // What one append accepts: the records and the promise they resolve.
  datatype Batch<P> = Batch(records: seq<Record>, promise: P)

  datatype Pack<P> = Pack(batches: seq<Batch<P>>, size: nat, count: nat, ready: bool)

  datatype Limits = Limits(size: nat, count: nat)

  datatype Queue<P> = Queue(ready: seq<Pack<P>>, current: Option<Pack<P>>)

  function TotalSize(records: seq<Record>): nat {
    if records == [] then 0 else TotalSize(records[..|records| - 1]) + records[|records| - 1].size
  }

  function Flatten<P>(batches: seq<Batch<P>>): seq<Record> {
    if batches == [] then [] else Flatten(batches[..|batches| - 1]) + batches[|batches| - 1].records
  }

  function Promises<P>(batches: seq<Batch<P>>): (s: seq<P>)
    ensures |s| == |batches| && forall i :: 0 <= i < |s| ==> s[i] == batches[i].promise
  {
    seq(|batches|, i requires 0 <= i < |batches| => batches[i].promise)
  }

  // ---------------------------------------------------------------- one pack

  function NewPack<P>(): Pack<P> {
    Pack([], 0, 0, false)
  }

  // A batch goes into a pack if both limits hold with it, or if the pack has no size yet.
  predicate Takes<P>(p: Pack<P>, records: seq<Record>, limits: Limits) {
    (p.size + TotalSize(records) <= limits.size && p.count + |records| <= limits.count) || p.size == 0
  }

  function TryAppend<P>(p: Pack<P>, b: Batch<P>, limits: Limits): Pack<P> {
    if Takes(p, b.records, limits)
    then Pack(p.batches + [b], p.size + TotalSize(b.records), p.count + |b.records|, p.ready)
    else p.(ready := true)
  }

  // The counters are the pack's contents; a pack over a limit has all its size in its last batch.
  ghost predicate PackOk<P>(p: Pack<P>, limits: Limits) {
    && p.size == TotalSize(Flatten(p.batches)) && p.count == |Flatten(p.batches)|
    && (p.size > limits.size || p.count > limits.count ==>
          p.batches != [] && TotalSize(Flatten(p.batches[..|p.batches| - 1])) == 0)
  }

  lemma {:induction false} TotalSizeConcat(a: seq<Record>, b: seq<Record>)
    ensures TotalSize(a + b) == TotalSize(a) + TotalSize(b)
    decreases |b|
  {
    if b == [] {
      assert a + b == a;
    } else {
      assert (a + b)[..|a + b| - 1] == a + b[..|b| - 1];
      TotalSizeConcat(a, b[..|b| - 1]);
    }
  }

  lemma {:induction false} FlattenConcat<P>(a: seq<Batch<P>>, b: seq<Batch<P>>)
    ensures Flatten(a + b) == Flatten(a) + Flatten(b)
    decreases |b|
  {
    if b == [] {
      assert a + b == a;
    } else {
      assert (a + b)[..|a + b| - 1] == a + b[..|b| - 1];
      FlattenConcat(a, b[..|b| - 1]);
    }
  }

  lemma TryAppendOk<P>(p: Pack<P>, b: Batch<P>, limits: Limits)
    requires PackOk(p, limits)
    ensures PackOk(TryAppend(p, b, limits), limits)
  {
    if Takes(p, b.records, limits) {
      var after := TryAppend(p, b, limits).batches;
      assert after[..|after| - 1] == p.batches;
      assert Flatten(after) == Flatten(p.batches) + b.records;
      TotalSizeConcat(Flatten(p.batches), b.records);
    }
  }

  lemma {:induction false} SizeAtLeast<P>(batches: seq<Batch<P>>, i: nat)
    requires i < |batches|
    ensures TotalSize(batches[i].records) <= TotalSize(Flatten(batches))
  {
    var last := |batches| - 1;
    TotalSizeConcat(Flatten(batches[..last]), batches[last].records);
    if i < last {
      SizeAtLeast(batches[..last], i);
    }
  }

  // With batches of positive size, a pack over a limit is a single batch.
  lemma OversizedIsSingle<P>(p: Pack<P>, limits: Limits)
    requires PackOk(p, limits) && (p.size > limits.size || p.count > limits.count)
    requires forall b :: b in p.batches ==> TotalSize(b.records) > 0
    ensures |p.batches| == 1
  {
    if |p.batches| > 1 {
      assert p.batches[..|p.batches| - 1][0] in p.batches;
      SizeAtLeast(p.batches[..|p.batches| - 1], 0);
    }
  }

  // ---------------------------------------------------------------- the queue

  // AppendRecord once it has found room: the current pack takes the batch or makes way for a new
  // one. `overdue` is whether the current pack's time is up.
  function Append<P>(q: Queue<P>, b: Batch<P>, overdue: bool, limits: Limits): Queue<P> {
    match q.current
    case None => Queue(q.ready, Some(TryAppend(NewPack(), b, limits)))
    case Some(p) =>
      var tried := TryAppend(p, b, limits);
      var q1 := if tried.ready || overdue then Queue(q.ready + [tried], None) else Queue(q.ready, Some(tried));
      if Takes(p, b.records, limits) then q1 else Queue(q1.ready, Some(TryAppend(NewPack(), b, limits)))
  }

  // ObtainReadyRecordPack moves the current pack to the ready ones when forced or overdue ...
  function Obtain<P>(q: Queue<P>, now: bool): Queue<P> {
    if now && q.current.Some? then Queue(q.ready + [q.current.value], None) else q
  }

  // ... and PopBackRecordPack drops the front one.
  function Pop<P>(q: Queue<P>): Queue<P> {
    if q.ready != [] then q.(ready := q.ready[1..]) else q
  }

  // The batches waiting, oldest first.
  function BatchesOf<P>(packs: seq<Pack<P>>): seq<Batch<P>> {
    if packs == [] then [] else BatchesOf(packs[..|packs| - 1]) + packs[|packs| - 1].batches
  }

  function Waiting<P>(q: Queue<P>): seq<Batch<P>> {
    BatchesOf(q.ready) + if q.current.Some? then q.current.value.batches else []
  }

  lemma {:induction false} BatchesOfConcat<P>(a: seq<Pack<P>>, b: seq<Pack<P>>)
    ensures BatchesOf(a + b) == BatchesOf(a) + BatchesOf(b)
    decreases |b|
  {
    if b == [] {
      assert a + b == a;
    } else {
      assert (a + b)[..|a + b| - 1] == a + b[..|b| - 1];
      BatchesOfConcat(a, b[..|b| - 1]);
    }
  }

  lemma BatchesOfOne<P>(p: Pack<P>)
    ensures BatchesOf([p]) == p.batches
  {
    assert [p][..0] == [];
    assert BatchesOf([p]) == BatchesOf([]) + p.batches;
  }

  // A current pack is flagged only on its way to the ready ones.
  ghost predicate QueueOk<P>(q: Queue<P>, limits: Limits) {
    && (forall i :: 0 <= i < |q.ready| ==> PackOk(q.ready[i], limits))
    && (q.current.Some? ==> PackOk(q.current.value, limits) && !q.current.value.ready)
  }

  lemma TakesFirst<P>(b: Batch<P>, limits: Limits)
    ensures Takes(NewPack<P>(), b.records, limits)
    ensures TryAppend(NewPack(), b, limits).batches == [b]
    ensures PackOk(TryAppend(NewPack(), b, limits), limits)
  {
    assert PackOk(NewPack<P>(), limits);
    TryAppendOk(NewPack(), b, limits);
  }

  // An accepted batch is added behind everything waiting, nothing is lost or reordered, and the
  // limits keep holding.
  lemma AppendConserves<P>(q: Queue<P>, b: Batch<P>, overdue: bool, limits: Limits)
    requires QueueOk(q, limits)
    ensures QueueOk(Append(q, b, overdue, limits), limits)
    ensures Waiting(Append(q, b, overdue, limits)) == Waiting(q) + [b]
  {
    hide PackOk; hide Takes;
    TakesFirst(b, limits);
    if q.current.Some? {
      var p := q.current.value;
      var tried := TryAppend(p, b, limits);
      TryAppendOk(p, b, limits);
      BatchesOfOne(tried);
      BatchesOfConcat(q.ready, [tried]);
      assert BatchesOf(q.ready) + (p.batches + [b]) == BatchesOf(q.ready) + p.batches + [b];
    } else {
      assert Waiting(q) == BatchesOf(q.ready);
    }
  }

  lemma ObtainConserves<P>(q: Queue<P>, now: bool, limits: Limits)
    requires QueueOk(q, limits)
    ensures QueueOk(Obtain(q, now), limits)
    ensures Waiting(Obtain(q, now)) == Waiting(q)
  {
    if now && q.current.Some? {
      BatchesOfOne(q.current.value);
      BatchesOfConcat(q.ready, [q.current.value]);
    }
  }

  lemma PopConserves<P>(q: Queue<P>, limits: Limits)
    requires QueueOk(q, limits) && q.ready != []
    ensures QueueOk(Pop(q), limits)
    ensures Waiting(q) == q.ready[0].batches + Waiting(Pop(q))
  {
    hide PackOk; hide BatchesOf;
    var current := if q.current.Some? then q.current.value.batches else [];
    BatchesOfOne(q.ready[0]);
    BatchesOfConcat([q.ready[0]], q.ready[1..]);
    assert [q.ready[0]] + q.ready[1..] == q.ready;
    assert (q.ready[0].batches + BatchesOf(q.ready[1..])) + current
           == q.ready[0].batches + (BatchesOf(q.ready[1..]) + current);
  }

  // ---------------------------------------------------------------- how long the queue gets

  function Length<P>(q: Queue<P>): nat {
    |q.ready| + if q.current.Some? then 1 else 0
  }

  // An append that finds room below the limit may be delayed; meanwhile others may find room too.
  // With at most k appends under way, the packs never outnumber limit + k, forced or not.
  datatype Room<P> = Room(queue: Queue<P>, granted: nat)
  datatype RoomStep<P> = Grant | Enter(b: Batch<P>, overdue: bool) | Take(now: bool) | Remove

  predicate RoomEnabled<P>(r: Room<P>, step: RoomStep<P>, limit: nat, k: nat) {
    match step
    case Grant => |r.queue.ready| < limit && r.granted < k
    case Enter(_, _) => r.granted > 0
    case Take(_) => true
    case Remove => true
  }

  function RoomNext<P>(r: Room<P>, step: RoomStep<P>, limits: Limits): Room<P> {
    match step
    case Grant => r.(granted := r.granted + 1)
    case Enter(b, overdue) => Room(Append(r.queue, b, overdue, limits), if r.granted == 0 then 0 else r.granted - 1)
    case Take(now) => r.(queue := Obtain(r.queue, now))
    case Remove => r.(queue := Pop(r.queue))
  }

  ghost predicate LegalSteps<P>(r: Room<P>, steps: seq<RoomStep<P>>, limits: Limits, limit: nat, k: nat)
    decreases |steps|
  {
    steps != [] ==>
      RoomEnabled(r, steps[0], limit, k)
      && LegalSteps(RoomNext(r, steps[0], limits), steps[1..], limits, limit, k)
  }

  ghost function RoomAfter<P>(r: Room<P>, steps: seq<RoomStep<P>>, limits: Limits): Room<P>
    decreases |steps|
  {
    if steps == [] then r else RoomAfter(RoomNext(r, steps[0], limits), steps[1..], limits)
  }

  // With one appending thread (k = 1): never more than limit + 1 packs.
  lemma {:induction false} QueueBounded<P>(r: Room<P>, steps: seq<RoomStep<P>>, limits: Limits, limit: nat, k: nat)
    requires r.granted <= k && Length(r.queue) + r.granted <= limit + k
    requires LegalSteps(r, steps, limits, limit, k)
    ensures Length(RoomAfter(r, steps, limits).queue) <= limit + k
    decreases |steps|
  {
    if steps != [] {
      hide TryAppend; hide Takes;
      QueueBounded(RoomNext(r, steps[0], limits), steps[1..], limits, limit, k);
    }
  }

  // ---------------------------------------------------------------- how full the packs get

  // With the batch the pack would be over a limit.
  predicate Overfull<P>(p: Pack<P>, b: Batch<P>, limits: Limits) {
    p.size + TotalSize(b.records) > limits.size || p.count + |b.records| > limits.count
  }

  // The pack behind the i-th ready one.
  function Behind<P>(q: Queue<P>, i: nat): Option<Pack<P>>
    requires i < |q.ready|
  {
    if i + 1 < |q.ready| then Some(q.ready[i + 1]) else q.current
  }

  // Of each ready pack, whether it was overdue or forced out when it became ready.
  function Early<P>(r: Room<P>, early: seq<bool>, step: RoomStep<P>, limits: Limits): seq<bool> {
    match step
    case Grant => early
    case Enter(b, overdue) =>
      if |Append(r.queue, b, overdue, limits).ready| > |r.queue.ready| then early + [overdue] else early
    case Take(now) => if now && r.queue.current.Some? then early + [true] else early
    case Remove => if early == [] then [] else early[1..]
  }

  ghost function EarlyAfter<P>(r: Room<P>, early: seq<bool>, steps: seq<RoomStep<P>>, limits: Limits): seq<bool>
    decreases |steps|
  {
    if steps == [] then early
    else EarlyAfter(RoomNext(r, steps[0], limits), Early(r, early, steps[0], limits), steps[1..], limits)
  }

  // A pack that became ready of itself is followed by one whose first batch it had no room for.
  ghost predicate Packed<P>(q: Queue<P>, early: seq<bool>, limits: Limits) {
    && |early| == |q.ready|
    && (q.current.Some? ==> q.current.value.batches != [] && !q.current.value.ready)
    && (forall i :: 0 <= i < |q.ready| ==> q.ready[i].batches != [])
    && forall i :: 0 <= i < |q.ready| && !early[i] ==>
         Behind(q, i).Some? && Overfull(q.ready[i], Behind(q, i).value.batches[0], limits)
  }

  lemma EnterPacked<P>(q: Queue<P>, early: seq<bool>, b: Batch<P>, overdue: bool, limits: Limits)
    requires Packed(q, early, limits)
    ensures var a := Append(q, b, overdue, limits);
            Packed(a, if |a.ready| > |q.ready| then early + [overdue] else early, limits)
  {
    TakesFirst(b, limits);
    hide TotalSize; hide PackOk;
    var a := Append(q, b, overdue, limits);
    if q.current.Some? {
      var p := q.current.value;
      var tried := TryAppend(p, b, limits);
      assert tried.batches[0] == p.batches[0];
      assert a.ready == q.ready || a.ready == q.ready + [tried];
    }
  }

  lemma OthersPacked<P>(r: Room<P>, early: seq<bool>, step: RoomStep<P>, limits: Limits)
    requires Packed(r.queue, early, limits) && !step.Enter?
    ensures Packed(RoomNext(r, step, limits).queue, Early(r, early, step, limits), limits)
  {
    hide Overfull;
    match step
    case Remove =>
      if early != [] {
        var q := Pop(r.queue);
        forall i | 0 <= i < |q.ready| && !early[1..][i]
          ensures Behind(q, i).Some? && Overfull(q.ready[i], Behind(q, i).value.batches[0], limits)
        {
          assert !early[i + 1] && Behind(r.queue, i + 1) == Behind(q, i);
        }
      }
    case _ =>
  }

  // In every run: a pack that became ready neither overdue nor forced could not have held the first
  // batch of the pack behind it within both limits.
  lemma {:induction false} PacksFull<P>(r: Room<P>, early: seq<bool>, steps: seq<RoomStep<P>>, limits: Limits)
    requires Packed(r.queue, early, limits)
    ensures Packed(RoomAfter(r, steps, limits).queue, EarlyAfter(r, early, steps, limits), limits)
    decreases |steps|
  {
    hide Packed; hide Append; hide Overfull;
    if steps != [] {
      match steps[0] {
        case Enter(b, overdue) => EnterPacked(r.queue, early, b, overdue, limits);
        case _ => OthersPacked(r, early, steps[0], limits);
      }
      PacksFull(RoomNext(r, steps[0], limits), Early(r, early, steps[0], limits), steps[1..], limits);
    }
  }

  // A current pack whose time is up is ready after an append, with the batch if it took it; one that
  // takes a batch in time goes on collecting.
  lemma OverdueIsReady<P>(q: Queue<P>, b: Batch<P>, overdue: bool, limits: Limits)
    requires QueueOk(q, limits) && q.current.Some?
    ensures var p, a := q.current.value, Append(q, b, overdue, limits);
            if overdue || (Overfull(p, b, limits) && p.size > 0)
            then |a.ready| == |q.ready| + 1 && a.ready[..|q.ready|] == q.ready
                 && (if Overfull(p, b, limits) && p.size > 0
                     then a.ready[|q.ready|].batches == p.batches && a.current.Some? && a.current.value.batches == [b]
                     else a.ready[|q.ready|].batches == p.batches + [b] && a.current.None?)
            else a.ready == q.ready && a.current.Some? && a.current.value.batches == p.batches + [b]
  {
    TakesFirst(b, limits);
    hide TotalSize; hide PackOk;
  }

  // ---------------------------------------------------------------- the classes

  datatype Outcome = Pending | Written | Failed

  // A promise can be resolved once.
  class Promise {
    var outcome: Outcome

    constructor ()
      ensures outcome == Pending
    {
      outcome := Pending;
    }

    method Resolve(result: Outcome)
      requires outcome == Pending && result != Pending
      modifies this
      ensures outcome == result
    {
      outcome := result;
    }
  }

  class RecordPack {
    const limits: Limits
    var isReady: bool
    var currSize: nat
    var currCount: nat
    var records: seq<Record>
    var writeResults: seq<Promise>
    // which records came with which promise
    ghost var batches: seq<Batch<Promise>>

    ghost predicate Valid()
      reads this`records, this`writeResults, this`batches
    {
      records == Flatten(batches) && writeResults == Promises(batches) && Distinct(writeResults)
    }

    ghost function View(): Pack<Promise>
      reads this
    {
      Pack(batches, currSize, currCount, isReady)
    }

    constructor (limits: Limits)
      ensures Valid() && this.limits == limits && View() == NewPack()
    {
      this.limits := limits;
      isReady, currSize, currCount := false, 0, 0;
      records, writeResults, batches := [], [], [];
    }

    // TryAppend: a promise for the batch, or null when it is refused and the pack marked ready.
    method TryAppendRecords(batch: seq<Record>) returns (p: Promise?)
      requires Valid()
      modifies this
      ensures Valid()
      ensures p != null <==> old(Takes(View(), batch, limits))
      ensures p != null ==>
                fresh(p) && p.outcome == Pending && View() == TryAppend(old(View()), Batch(batch, p), limits)
      ensures p == null ==> View() == old(View()).(ready := true)
      ensures !old(isReady) ==> (p == null <==> isReady)
      // refused only by a pack that is not empty and would go over a limit
      ensures p == null ==>
                && old(currSize) > 0
                && (old(currSize) + TotalSize(batch) > limits.size || old(currCount) + |batch| > limits.count)
    {
      hide Valid; hide TotalSize;
      var size := GetTotalRecordSize(batch);
      if (currSize + size <= limits.size && currCount + |batch| <= limits.count) || currSize == 0 {
        p := AppendRecords(batch, size);
      } else {
        isReady := true;
        p := null;
      }
    }

    method AppendRecords(batch: seq<Record>, size: nat) returns (p: Promise)
      requires Valid()
      modifies this
      ensures Valid() && fresh(p) && p.outcome == Pending
      ensures View() == Pack(old(batches) + [Batch(batch, p)], old(currSize) + size, old(currCount) + |batch|,
                             old(isReady))
    {
      p := new Promise();
      FlattenConcat(batches, [Batch(batch, p)]);
      assert Flatten([Batch(batch, p)]) == batch by { FlattenOne(Batch(batch, p)); }
      records := records + batch;
      currCount := currCount + |batch|;
      currSize := currSize + size;
      writeResults := writeResults + [p];
      batches := batches + [Batch(batch, p)];
    }
  }

  lemma FlattenOne<P>(b: Batch<P>)
    ensures Flatten([b]) == b.records
  {
    assert [b][..0] == [];
    assert Flatten([b]) == Flatten<P>([]) + b.records;
  }

  method GetTotalRecordSize(batch: seq<Record>) returns (size: nat)
    ensures size == TotalSize(batch)
  {
    size := 0;
    for i := 0 to |batch|
      invariant size == TotalSize(batch[..i])
    {
      assert batch[..i + 1][..|batch[..i + 1]| - 1] == batch[..i];
      size := size + batch[i].size;
    }
    assert batch[..|batch|] == batch;
  }

  // The i-th promise of a pack belongs to its i-th batch, and the batches are its records in order.
  lemma PromisesPair(pack: RecordPack, i: nat)
    requires pack.Valid() && i < |pack.writeResults|
    ensures |pack.batches| == |pack.writeResults| && pack.batches[i].promise == pack.writeResults[i]
    ensures pack.records == Flatten(pack.batches[..i]) + pack.batches[i].records + Flatten(pack.batches[i + 1..])
  {
    var a, b, c := pack.batches[..i], [pack.batches[i]], pack.batches[i + 1..];
    assert pack.batches == (a + b) + c;
    FlattenConcat(a + b, c);
    FlattenConcat(a, b);
    FlattenOne(pack.batches[i]);
  }

  ghost function Views(packs: seq<RecordPack>): (s: seq<Pack<Promise>>)
    reads packs
    ensures |s| == |packs| && forall i :: 0 <= i < |s| ==> s[i] == packs[i].View()
  {
    if packs == [] then [] else [packs[0].View()] + Views(packs[1..])
  }

  class RecordPackQueue {
    const limits: Limits
    const queueLimit: nat
    var ready: seq<RecordPack>
    var current: RecordPack?

    ghost predicate Wired()
      reads this, ready, current
    {
      && (forall p :: p in ready ==> p.Valid())
      && (current != null ==> current !in ready && current.Valid() && current.limits == limits)
    }

    // Between operations the current pack is never flagged ready.
    ghost predicate Valid()
      reads this, ready, current
    {
      Wired() && (current != null ==> !current.isReady)
    }

    ghost function View(): Queue<Promise>
      reads this, ready, current
    {
      Queue(Views(ready), if current == null then None else Some(current.View()))
    }

    constructor (limits: Limits, queueLimit: nat)
      ensures Valid() && View() == Queue([], None)
    {
      this.limits := limits;
      this.queueLimit := queueLimit;
      ready, current := [], null;
    }

    // The current pack joins the ready ones at the end.
    method MoveCurrent()
      requires Wired() && current != null
      modifies this
      ensures Valid() && current == null && ready == old(ready) + [old(current)]
      ensures View() == Queue(old(View()).ready + [old(View()).current.value], None)
    {
      ghost var packs := ready;
      ready := ready + [current];
      assert Views(ready) == Views(packs) + [current.View()];
      current := null;
    }

    // The current pack is tried; flagged or overdue, it joins the ready ones.
    method TryCurrent(batch: seq<Record>, overdue: bool) returns (result: Promise?)
      requires Valid() && current != null
      modifies this, current
      ensures Valid()
      ensures result != null <==> old(Takes(current.View(), batch, limits))
      ensures current == null || current == old(current)
      ensures result == null ==> View() == Queue(old(View()).ready + [old(View()).current.value.(ready := true)], None)
      ensures result != null ==>
                fresh(result) && result.outcome == Pending
                  && View() == Append(old(View()), Batch(batch, result), overdue, limits)
    {
      hide Takes; hide RecordPack.Valid; hide TotalSize;
      ghost var others := Views(ready);
      result := current.TryAppendRecords(batch);
      assert Views(ready) == others;
      hide Views;
      if current.isReady || overdue {
        MoveCurrent();
      }
    }

    // A new current pack is begun with its first batch.
    method StartPack(batch: seq<Record>) returns (result: Promise)
      requires Valid() && current == null
      modifies this
      ensures Valid() && fresh(result) && result.outcome == Pending
      ensures current != null && fresh(current)
      ensures View() == Queue(old(View()).ready, Some(TryAppend(NewPack(), Batch(batch, result), limits)))
    {
      ghost var others := Views(ready);
      var pack := new RecordPack(limits);
      var p := pack.TryAppendRecords(batch);
      assert Views(ready) == others;
      current := pack;
      result := p;
    }

    // Null when no room was found in time; otherwise the whole batch is accepted.
    method AppendRecord(batch: seq<Record>, overdue: bool) returns (result: Promise?)
      requires Valid()
      modifies this, current
      ensures Valid()
      ensures result == null <==> old(|ready|) >= queueLimit
      ensures result == null ==> View() == old(View())
      ensures current == null || current == old(current) || fresh(current)
      ensures result != null ==>
                fresh(result) && result.outcome == Pending
                  && View() == Append(old(View()), Batch(batch, result), overdue, limits)
    {
      hide Takes; hide Valid; hide Wired; hide Views;
      if |ready| >= queueLimit {
        return null;
      }
      result := null;
      if current != null {
        result := TryCurrent(batch, overdue);
      }
      if result == null {
        result := StartPack(batch);
      }
    }

    // The front of the ready packs, the current one having joined them if forced or overdue.
    method ObtainReadyRecordPack(now: bool) returns (front: RecordPack?)
      requires Valid()
      modifies this
      ensures Valid() && View() == Obtain(old(View()), now)
      ensures current == null || current == old(current)
      ensures if ready == [] then front == null else front == ready[0]
    {
      if now && current != null {
        MoveCurrent();
      }
      return if ready == [] then null else ready[0];
    }

    method PopBackRecordPack()
      requires Valid()
      modifies this
      ensures Valid() && View() == Pop(old(View())) && current == old(current)
    {
      if ready != [] {
        ready := ready[1..];
      }
    }
  }
}
