/**
One ShardWriter (client/src/shard_writer.cpp) together with what its worker holds for it
(client/src/thread_pool.cpp): batches wait in the writer's queue, packs are submitted, executed and
counted off, and flushes wait for the count to reach zero.

Every step is as small as the locks make it: submitting a pack and counting it are two steps with
the send lock held between them, and finishing a task and sending the next pack are two steps with
the task lock held between them. Promises may be numbers or objects.
*/
module WriterLanes {
  import opened Collections
  import opened RecordPacks

  // Who runs SendNextTask: WriteAsync, a Flush, or the worker in TaskDone.
  datatype Actor = ByWrite | ByFlush(id: nat) | ByDone

  // mSendMutex; Submitted: the front pack is in the pool, but not yet counted and popped.
  datatype SendLock = Free | Submitted(actor: Actor)

  // A Flush call: how many batches had been accepted and how many submissions rejected when it
  // entered SendNextTask, and whether it has come to wait on the task count.
  datatype Flush = Flush(batches: nat, rejects: nat, waiting: bool)

  datatype Writer<P> = Writer(
    key: nat,
    queue: Queue<P>,
    lock: SendLock,
    count: int,
    flushes: map<nat, Flush>,
    accepted: seq<Batch<P>>,
    submitted: seq<Pack<P>>,
    rejects: nat)

  // What a worker does with a writer's pack: write it, resolve its promises, and -- holding the
  // writer's task lock -- send the writer's next pack.
  datatype Phase = Executing | Resolved | Finishing

  // ---------------------------------------------------------------- one writer and its worker

  // A writer and what its worker holds for it: tasks queued, the one in hand, those executed.
  datatype Lane<P> = Lane(w: Writer<P>, tasks: seq<Pack<P>>, inHand: Option<(Pack<P>, Phase)>, executed: seq<Pack<P>>)

  function Wakes<P>(w: Writer<P>, actor: Actor): Writer<P> {
    if actor.ByFlush? && actor.id in w.flushes
    then w.(flushes := w.flushes[actor.id := w.flushes[actor.id].(waiting := true)])
    else w
  }

  // The actor leaves SendNextTask: a flush goes on to wait, a worker is done with its task.
  function Leaves<P>(l: Lane<P>, actor: Actor): Lane<P> {
    Lane(Wakes(l.w, actor), l.tasks, if actor.ByDone? then None else l.inHand, l.executed)
  }

  function AppendLane<P>(l: Lane<P>, b: Batch<P>, overdue: bool, limits: Limits): Lane<P> {
    l.(w := l.w.(queue := Append(l.w.queue, b, overdue, limits), accepted := l.w.accepted + [b]))
  }

  // SendNextTask up to the submission: obtain the front pack and submit it, if the pool accepts.
  function SendLane<P>(l: Lane<P>, actor: Actor, due: bool, poolAccepts: bool): Lane<P> {
    var flushes := if actor.ByFlush?
      then l.w.flushes[actor.id := Flush(|l.w.accepted|, l.w.rejects, false)] else l.w.flushes;
    var q := Obtain(l.w.queue, actor.ByFlush? || due);
    var w := l.w.(queue := q, flushes := flushes);
    if q.ready == [] then Leaves(l.(w := w), actor)
    else if poolAccepts then
      Lane(w.(lock := Submitted(actor), submitted := w.submitted + [q.ready[0]]), l.tasks + [q.ready[0]], l.inHand,
           l.executed)
    else Leaves(l.(w := w.(rejects := w.rejects + 1)), actor)
  }

  // ... and from there on: count the task and pop its pack.
  function CountLane<P>(l: Lane<P>): Lane<P>
    requires l.w.lock.Submitted?
  {
    Leaves(l.(w := l.w.(queue := Pop(l.w.queue), count := l.w.count + 1, lock := Free)), l.w.lock.actor)
  }

  // Both, when nobody comes in between.
  function SendWhole<P>(l: Lane<P>, actor: Actor, due: bool, poolAccepts: bool): Lane<P> {
    var s := SendLane(l, actor, due, poolAccepts);
    if s.w.lock.Submitted? then CountLane(s) else s
  }

  function StartLane<P>(l: Lane<P>): Lane<P>
    requires l.tasks != []
  {
    l.(tasks := l.tasks[1..], inHand := Some((l.tasks[0], Executing)))
  }

  // Every promise of the pack is resolved, with a result or with the exception.
  function ResolveLane<P>(l: Lane<P>): Lane<P>
    requires l.inHand.Some?
  {
    l.(inHand := Some((l.inHand.value.0, Resolved)), executed := l.executed + [l.inHand.value.0])
  }

  // TaskDone takes the task lock and counts the task off.
  function DoneLane<P>(l: Lane<P>): Lane<P>
    requires l.inHand.Some?
  {
    l.(inHand := Some((l.inHand.value.0, Finishing)), w := l.w.(count := l.w.count - 1))
  }

  function ReturnLane<P>(l: Lane<P>, id: nat): Lane<P> {
    l.(w := l.w.(flushes := l.w.flushes - {id}))
  }

  // ---------------------------------------------------------------- the invariant

  // What has not been submitted yet.
  function Unsent<P>(w: Writer<P>): Queue<P> {
    if w.lock.Submitted? then Pop(w.queue) else w.queue
  }

  // Tasks the writer still counts, or will count when the sender in between gets to it.
  function Outstanding<P>(l: Lane<P>): nat {
    |l.tasks| + if l.inHand.Some? && !l.inHand.value.1.Finishing? then 1 else 0
  }

  function InExecution<P>(l: Lane<P>): seq<Pack<P>> {
    if l.inHand.Some? && l.inHand.value.1.Executing? then [l.inHand.value.0] else []
  }

  predicate IsFinishing<P>(l: Lane<P>) {
    l.inHand.Some? && l.inHand.value.1.Finishing?
  }

  // How many batches have had their promises resolved.
  function ResolvedCount<P>(l: Lane<P>): nat {
    |BatchesOf(l.executed)|
  }

  // Packs are executed in the order they were submitted, and nothing accepted is missing,
  // repeated or out of order between the executed packs and the current one.
  ghost predicate Orderly<P>(l: Lane<P>, limits: Limits) {
    && QueueOk(l.w.queue, limits)
    && (l.w.lock.Submitted? ==> l.w.queue.ready != [])
    && l.w.submitted == l.executed + InExecution(l) + l.tasks
    && l.w.accepted == BatchesOf(l.w.submitted) + Waiting(Unsent(l.w))
  }

  ghost predicate Counted<P>(l: Lane<P>) {
    && l.w.count + (if l.w.lock.Submitted? then 1 else 0) == Outstanding(l)
    && (l.w.lock.Submitted? ==> Outstanding(l) >= 1 || IsFinishing(l))
    && (l.w.lock.Submitted? && l.w.lock.actor.ByDone? ==> IsFinishing(l) && l.tasks != [])
  }

  function SentOrReady<P>(w: Writer<P>): nat {
    |BatchesOf(w.submitted)| + |BatchesOf(Unsent(w).ready)|
  }

  // What a flush waits for is no longer in the current pack ...
  ghost predicate FlushSent<P>(l: Lane<P>, f: Flush) {
    f.batches <= |l.w.accepted| && f.rejects <= l.w.rejects
    && f.batches <= SentOrReady(l.w)
  }

  // ... and while some of it is unresolved, a task is counted or a worker is about to send.
  ghost predicate FlushDriven<P>(l: Lane<P>, f: Flush) {
    f.waiting && l.w.rejects == f.rejects && ResolvedCount(l) < f.batches ==> l.w.count >= 1 || IsFinishing(l)
  }

  ghost predicate Flushing<P>(l: Lane<P>) {
    forall id :: id in l.w.flushes ==> FlushSent(l, l.w.flushes[id]) && FlushDriven(l, l.w.flushes[id])
  }

  // A flush that is not waiting yet is the one holding the send lock.
  ghost predicate FlushEntering<P>(l: Lane<P>) {
    forall id :: id in l.w.flushes && !l.w.flushes[id].waiting ==> l.w.lock == Submitted(ByFlush(id))
  }

  ghost predicate LaneInv<P>(l: Lane<P>, limits: Limits) {
    Orderly(l, limits) && Counted(l) && Flushing(l) && FlushEntering(l)
  }

  // ---------------------------------------------------------------- what the invariant says

  // The executed packs, concatenated, are a prefix of what the writer accepted, in that order.
  lemma ExecutedIsPrefix<P>(l: Lane<P>, limits: Limits)
    requires LaneInv(l, limits)
    ensures BatchesOf(l.executed) <= l.w.accepted
  {
    BatchesOfConcat(l.executed, InExecution(l) + l.tasks);
    assert l.executed + (InExecution(l) + l.tasks) == l.w.submitted;
  }

  ghost predicate Flushed<P>(l: Lane<P>, f: Flush) {
    f.batches <= |l.w.accepted| && l.w.accepted[..f.batches] <= BatchesOf(l.executed)
  }

  // A flush returns when the count is zero and no worker holds the task lock. Unless a submission
  // was rejected meanwhile, everything accepted before it was called has been resolved by then.
  lemma FlushComplete<P>(l: Lane<P>, limits: Limits, id: nat)
    requires LaneInv(l, limits) && id in l.w.flushes && l.w.flushes[id].waiting
    requires l.w.count == 0 && !IsFinishing(l)
    requires l.w.rejects == l.w.flushes[id].rejects
    ensures Flushed(l, l.w.flushes[id])
  {
    ExecutedIsPrefix(l, limits);
    assert FlushDriven(l, l.w.flushes[id]);
    assert FlushSent(l, l.w.flushes[id]);
  }

  // ---------------------------------------------------------------- each step keeps it

  lemma ReadyGrows<P>(q: Queue<P>, b: Batch<P>, overdue: bool, limits: Limits)
    ensures Append(q, b, overdue, limits).ready == q.ready
            || exists p :: Append(q, b, overdue, limits).ready == q.ready + [p]
  {
    if q.current.Some? {
      assert Append(q, b, overdue, limits).ready == q.ready
             || Append(q, b, overdue, limits).ready == q.ready + [TryAppend(q.current.value, b, limits)];
    }
  }

  // Appending behind a pack that is being submitted commutes with popping it.
  lemma AppendUnsent<P>(w: Writer<P>, b: Batch<P>, overdue: bool, limits: Limits)
    requires w.lock.Submitted? ==> w.queue.ready != []
    ensures Unsent(w.(queue := Append(w.queue, b, overdue, limits))) == Append(Unsent(w), b, overdue, limits)
  {
    if w.lock.Submitted? && w.queue.current.Some? {
      var tried := TryAppend(w.queue.current.value, b, limits);
      assert (w.queue.ready + [tried])[1..] == w.queue.ready[1..] + [tried];
    }
  }

  lemma UnsentOk<P>(w: Writer<P>, limits: Limits)
    requires QueueOk(w.queue, limits) && (w.lock.Submitted? ==> w.queue.ready != [])
    ensures QueueOk(Unsent(w), limits)
  {
    if w.lock.Submitted? {
      PopConserves(w.queue, limits);
    }
  }

  lemma AppendOrderly<P>(l: Lane<P>, b: Batch<P>, overdue: bool, limits: Limits)
    requires Orderly(l, limits)
    ensures Orderly(AppendLane(l, b, overdue, limits), limits)
    ensures SentOrReady(AppendLane(l, b, overdue, limits).w) >= SentOrReady(l.w)
  {
    hide BatchesOf; hide Waiting; hide Append; hide QueueOk; hide Pop;
    var after := AppendLane(l, b, overdue, limits);
    AppendConserves(l.w.queue, b, overdue, limits);
    AppendUnsent(l.w, b, overdue, limits);
    UnsentOk(l.w, limits);
    AppendConserves(Unsent(l.w), b, overdue, limits);
    assert Unsent(after.w) == Append(Unsent(l.w), b, overdue, limits);
    ReadyGrows(Unsent(l.w), b, overdue, limits);
    if Append(Unsent(l.w), b, overdue, limits).ready != Unsent(l.w).ready {
      var p :| Append(Unsent(l.w), b, overdue, limits).ready == Unsent(l.w).ready + [p];
      BatchesOfConcat(Unsent(l.w).ready, [p]);
    }
    ReadyGrows(l.w.queue, b, overdue, limits);
    assert BatchesOf(l.w.submitted) + (Waiting(Unsent(l.w)) + [b]) == l.w.accepted + [b];
  }

  lemma AppendKeeps<P>(l: Lane<P>, b: Batch<P>, overdue: bool, limits: Limits)
    requires LaneInv(l, limits)
    ensures LaneInv(AppendLane(l, b, overdue, limits), limits)
  {
    hide Orderly; hide SentOrReady; hide Append;
    AppendOrderly(l, b, overdue, limits);
    var after := AppendLane(l, b, overdue, limits);
    forall id | id in after.w.flushes
      ensures FlushSent(after, after.w.flushes[id]) && FlushDriven(after, after.w.flushes[id])
    {
      assert FlushSent(l, l.w.flushes[id]) && FlushDriven(l, l.w.flushes[id]);
    }
  }

  lemma StartKeeps<P>(l: Lane<P>, limits: Limits)
    requires LaneInv(l, limits) && l.tasks != [] && l.inHand.None?
    ensures LaneInv(StartLane(l), limits)
  {
    hide BatchesOf; hide Waiting; hide QueueOk; hide SentOrReady;
    var after := StartLane(l);
    assert [l.tasks[0]] + l.tasks[1..] == l.tasks;
    assert l.executed + [l.tasks[0]] + l.tasks[1..] == l.executed + l.tasks;
    assert Orderly(after, limits);
    forall id | id in after.w.flushes
      ensures FlushSent(after, after.w.flushes[id]) && FlushDriven(after, after.w.flushes[id])
    {
      assert FlushSent(l, l.w.flushes[id]) && FlushDriven(l, l.w.flushes[id]);
    }
  }

  lemma ResolveKeeps<P>(l: Lane<P>, limits: Limits)
    requires LaneInv(l, limits) && l.inHand.Some? && l.inHand.value.1.Executing?
    ensures LaneInv(ResolveLane(l), limits)
    ensures ResolvedCount(ResolveLane(l)) == ResolvedCount(l) + |l.inHand.value.0.batches|
  {
    hide BatchesOf; hide Waiting; hide QueueOk; hide SentOrReady;
    var after, p := ResolveLane(l), l.inHand.value.0;
    BatchesOfConcat(l.executed, [p]);
    BatchesOfOne(p);
    assert l.executed + [p] + [] + l.tasks == l.executed + [p] + l.tasks;
    assert Orderly(after, limits);
    forall id | id in after.w.flushes
      ensures FlushSent(after, after.w.flushes[id]) && FlushDriven(after, after.w.flushes[id])
    {
      assert FlushSent(l, l.w.flushes[id]) && FlushDriven(l, l.w.flushes[id]);
    }
  }

  lemma DoneKeeps<P>(l: Lane<P>, limits: Limits)
    requires LaneInv(l, limits) && l.inHand.Some? && l.inHand.value.1.Resolved?
    ensures LaneInv(DoneLane(l), limits)
  {
    hide BatchesOf; hide Waiting; hide QueueOk;
    var after := DoneLane(l);
    assert Orderly(after, limits);
    forall id | id in after.w.flushes
      ensures FlushSent(after, after.w.flushes[id]) && FlushDriven(after, after.w.flushes[id])
    {
      assert FlushSent(l, l.w.flushes[id]) && FlushDriven(l, l.w.flushes[id]);
    }
  }

  lemma ReturnKeeps<P>(l: Lane<P>, limits: Limits, id: nat)
    requires LaneInv(l, limits)
    ensures LaneInv(ReturnLane(l, id), limits)
  {
    hide BatchesOf; hide Waiting; hide QueueOk;
    var after := ReturnLane(l, id);
    assert Orderly(after, limits);
    forall id | id in after.w.flushes
      ensures FlushSent(after, after.w.flushes[id]) && FlushDriven(after, after.w.flushes[id])
    {
      assert FlushSent(l, l.w.flushes[id]) && FlushDriven(l, l.w.flushes[id]);
    }
  }

  // Obtaining and submitting move packs along without changing what is accepted.
  lemma ObtainOrderly<P>(l: Lane<P>, now: bool, limits: Limits)
    requires Orderly(l, limits) && l.w.lock.Free?
    ensures Orderly(l.(w := l.w.(queue := Obtain(l.w.queue, now))), limits)
    ensures SentOrReady(l.w.(queue := Obtain(l.w.queue, now))) >= SentOrReady(l.w)
    ensures now ==> SentOrReady(l.w.(queue := Obtain(l.w.queue, now))) == |l.w.accepted|
  {
    ObtainConserves(l.w.queue, now, limits);
    var q := Obtain(l.w.queue, now);
    if now && l.w.queue.current.Some? {
      BatchesOfConcat(l.w.queue.ready, [l.w.queue.current.value]);
    }
    hide BatchesOf; hide QueueOk;
    assert now ==> Waiting(q) == BatchesOf(q.ready) + [];
  }

  lemma SubmitOrderly<P>(l: Lane<P>, actor: Actor, limits: Limits)
    requires Orderly(l, limits) && l.w.lock.Free? && l.w.queue.ready != []
    ensures var front := l.w.queue.ready[0];
            var after := Lane(l.w.(lock := Submitted(actor), submitted := l.w.submitted + [front]), l.tasks + [front],
                              l.inHand, l.executed);
            Orderly(after, limits) && SentOrReady(after.w) == SentOrReady(l.w)
  {
    hide BatchesOf; hide QueueOk; hide Waiting;
    var front := l.w.queue.ready[0];
    PopConserves(l.w.queue, limits);
    BatchesOfConcat(l.w.submitted, [front]);
    BatchesOfOne(front);
    assert BatchesOf(l.w.submitted) + (front.batches + Waiting(Pop(l.w.queue)))
           == (BatchesOf(l.w.submitted) + front.batches) + Waiting(Pop(l.w.queue));
    assert l.executed + InExecution(l) + (l.tasks + [front]) == l.executed + InExecution(l) + l.tasks + [front];
    BatchesOfConcat([front], Pop(l.w.queue).ready);
    assert [front] + Pop(l.w.queue).ready == l.w.queue.ready;
  }

  lemma CountOrderly<P>(l: Lane<P>, limits: Limits)
    requires Orderly(l, limits) && l.w.lock.Submitted?
    ensures var after := l.(w := l.w.(queue := Pop(l.w.queue), count := l.w.count + 1, lock := Free));
            Orderly(after, limits) && SentOrReady(after.w) == SentOrReady(l.w)
  {
    hide BatchesOf; hide Waiting;
    PopConserves(l.w.queue, limits);
  }

  // Leaving SendNextTask touches only the flush that goes on to wait and the worker's hand.
  lemma LeaveOrderly<P>(l: Lane<P>, actor: Actor, limits: Limits)
    requires Orderly(l, limits) && (actor.ByDone? ==> IsFinishing(l))
    ensures Orderly(Leaves(l, actor), limits) && SentOrReady(Leaves(l, actor).w) == SentOrReady(l.w)
    ensures Outstanding(Leaves(l, actor)) == Outstanding(l)
  {
    hide BatchesOf; hide Waiting; hide QueueOk;
    assert InExecution(Leaves(l, actor)) == InExecution(l);
  }

  // With nothing left to submit, whatever a flush still waits for is in the pool.
  lemma AllSubmitted<P>(l: Lane<P>, limits: Limits, f: Flush)
    requires Orderly(l, limits) && FlushSent(l, f) && Unsent(l.w).ready == [] && ResolvedCount(l) < f.batches
    ensures InExecution(l) + l.tasks != []
  {
    var pool := InExecution(l) + l.tasks;
    assert l.w.submitted == l.executed + pool;
    assert pool == [] ==> l.executed + pool == l.executed;
  }

  lemma PoolDrives<P>(l: Lane<P>, limits: Limits, f: Flush)
    requires Orderly(l, limits) && FlushSent(l, f) && Unsent(l.w).ready == [] && ResolvedCount(l) < f.batches
    ensures Outstanding(l) >= 1
  {
    AllSubmitted(l, limits, f);
  }

  // The lane when SendNextTask has obtained the front pack.
  function Obtained<P>(l: Lane<P>, actor: Actor, due: bool): Lane<P> {
    var flushes := if actor.ByFlush?
      then l.w.flushes[actor.id := Flush(|l.w.accepted|, l.w.rejects, false)] else l.w.flushes;
    l.(w := l.w.(queue := Obtain(l.w.queue, actor.ByFlush? || due), flushes := flushes))
  }

  predicate MaySend<P>(l: Lane<P>, actor: Actor) {
    l.w.lock.Free? && (actor.ByDone? ==> IsFinishing(l)) && (actor.ByFlush? ==> actor.id !in l.w.flushes)
  }

  lemma ObtainedSound<P>(l: Lane<P>, actor: Actor, due: bool, limits: Limits)
    requires LaneInv(l, limits) && MaySend(l, actor)
    ensures var o := Obtained(l, actor, due);
            && Orderly(o, limits) && Counted(o)
            && forall id :: id in o.w.flushes ==>
                 FlushSent(o, o.w.flushes[id]) && (FlushDriven(o, o.w.flushes[id]))
                 && (o.w.flushes[id].waiting || actor == ByFlush(id))
  {
    hide BatchesOf; hide QueueOk; hide Waiting; hide Obtain; hide SentOrReady;
    var now := actor.ByFlush? || due;
    ObtainOrderly(l, now, limits);
    var o := Obtained(l, actor, due);
    assert SentOrReady(o.w) == SentOrReady(l.w.(queue := Obtain(l.w.queue, now)))
           by { SameSent(o.w, l.w.(queue := Obtain(l.w.queue, now))); }
    forall id | id in o.w.flushes
      ensures FlushSent(o, o.w.flushes[id]) && FlushDriven(o, o.w.flushes[id])
      ensures o.w.flushes[id].waiting || actor == ByFlush(id)
    {
      if actor != ByFlush(id) {
        assert FlushSent(l, l.w.flushes[id]) && FlushDriven(l, l.w.flushes[id]);
      }
    }
  }

  lemma SameSent<P>(a: Writer<P>, b: Writer<P>)
    requires a.queue == b.queue && a.lock == b.lock && a.submitted == b.submitted
    ensures SentOrReady(a) == SentOrReady(b)
  {
  }

  // Nothing to send.
  lemma SendNothing<P>(l: Lane<P>, actor: Actor, due: bool, limits: Limits)
    requires LaneInv(l, limits) && MaySend(l, actor) && Obtained(l, actor, due).w.queue.ready == []
    ensures LaneInv(Leaves(Obtained(l, actor, due), actor), limits)
  {
    hide BatchesOf; hide QueueOk; hide Waiting; hide Obtain;
    ObtainedSound(l, actor, due, limits);
    var o := Obtained(l, actor, due);
    LeaveOrderly(o, actor, limits);
    var after := Leaves(o, actor);
    forall id | id in after.w.flushes
      ensures FlushSent(after, after.w.flushes[id]) && FlushDriven(after, after.w.flushes[id])
    {
      assert FlushSent(o, o.w.flushes[id]);
      if ResolvedCount(o) < o.w.flushes[id].batches {
        PoolDrives(o, limits, o.w.flushes[id]);
      }
    }
  }

  // The pool refuses the front pack: it stays there.
  lemma SendRejected<P>(l: Lane<P>, actor: Actor, due: bool, limits: Limits)
    requires LaneInv(l, limits) && MaySend(l, actor)
    ensures var o := Obtained(l, actor, due);
            LaneInv(Leaves(o.(w := o.w.(rejects := o.w.rejects + 1)), actor), limits)
  {
    hide BatchesOf; hide QueueOk; hide Waiting; hide Obtain;
    ObtainedSound(l, actor, due, limits);
    var o := Obtained(l, actor, due);
    var r := o.(w := o.w.(rejects := o.w.rejects + 1));
    assert Orderly(r, limits);
    LeaveOrderly(r, actor, limits);
    var after := Leaves(r, actor);
    forall id | id in after.w.flushes
      ensures FlushSent(after, after.w.flushes[id]) && FlushDriven(after, after.w.flushes[id])
    {
      assert FlushSent(o, o.w.flushes[id]);
    }
  }

  // The pool takes it.
  lemma SendAccepted<P>(l: Lane<P>, actor: Actor, due: bool, limits: Limits)
    requires LaneInv(l, limits) && MaySend(l, actor) && Obtained(l, actor, due).w.queue.ready != []
    ensures var o := Obtained(l, actor, due);
            var front := o.w.queue.ready[0];
            LaneInv(Lane(o.w.(lock := Submitted(actor), submitted := o.w.submitted + [front]), o.tasks + [front],
                         o.inHand, o.executed), limits)
  {
    hide BatchesOf; hide QueueOk; hide Waiting; hide Obtain; hide SentOrReady;
    ObtainedSound(l, actor, due, limits);
    var o := Obtained(l, actor, due);
    SubmitOrderly(o, actor, limits);
    var front := o.w.queue.ready[0];
    var after := Lane(o.w.(lock := Submitted(actor), submitted := o.w.submitted + [front]), o.tasks + [front],
                      o.inHand, o.executed);
    forall id | id in after.w.flushes
      ensures FlushSent(after, after.w.flushes[id]) && FlushDriven(after, after.w.flushes[id])
    {
      assert FlushSent(o, o.w.flushes[id]) && FlushDriven(o, o.w.flushes[id]);
    }
  }

  lemma SendKeeps<P>(l: Lane<P>, actor: Actor, due: bool, poolAccepts: bool, limits: Limits)
    requires LaneInv(l, limits) && MaySend(l, actor)
    ensures LaneInv(SendLane(l, actor, due, poolAccepts), limits)
  {
    hide LaneInv; hide Leaves; hide Obtain;
    if Obtained(l, actor, due).w.queue.ready == [] {
      SendNothing(l, actor, due, limits);
    } else if poolAccepts {
      SendAccepted(l, actor, due, limits);
    } else {
      SendRejected(l, actor, due, limits);
    }
  }

  lemma CountKeeps<P>(l: Lane<P>, limits: Limits)
    requires LaneInv(l, limits) && l.w.lock.Submitted?
    ensures LaneInv(CountLane(l), limits)
  {
    hide BatchesOf; hide QueueOk; hide Waiting; hide Pop; hide SentOrReady;
    CountOrderly(l, limits);
    var actor := l.w.lock.actor;
    var c := l.(w := l.w.(queue := Pop(l.w.queue), count := l.w.count + 1, lock := Free));
    LeaveOrderly(c, actor, limits);
    var after := CountLane(l);
    forall id | id in after.w.flushes
      ensures FlushSent(after, after.w.flushes[id]) && FlushDriven(after, after.w.flushes[id])
      ensures after.w.flushes[id].waiting
    {
      assert FlushSent(l, l.w.flushes[id]) && FlushDriven(l, l.w.flushes[id]);
    }
  }

  lemma SendWholeKeeps<P>(l: Lane<P>, actor: Actor, due: bool, poolAccepts: bool, limits: Limits)
    requires LaneInv(l, limits) && MaySend(l, actor)
    ensures LaneInv(SendWhole(l, actor, due, poolAccepts), limits)
  {
    hide LaneInv; hide SendLane; hide CountLane; hide MaySend;
    SendKeeps(l, actor, due, poolAccepts, limits);
    if SendLane(l, actor, due, poolAccepts).w.lock.Submitted? {
      CountKeeps(SendLane(l, actor, due, poolAccepts), limits);
    }
  }

  // The wait on the task count is over, and the task lock is free.
  predicate MayReturn<P>(l: Lane<P>, id: nat) {
    id in l.w.flushes && l.w.flushes[id].waiting && l.w.count == 0 && !IsFinishing(l)
  }

  lemma QuietLane<P>(l: Lane<P>, id: nat, due: bool, poolAccepts: bool, limits: Limits)
    requires LaneInv(l, limits) && MaySend(l, ByFlush(id)) && l.w.count == 0 && !IsFinishing(l)
    ensures var s := SendLane(l, ByFlush(id), due, poolAccepts);
            && (MayReturn(s, id) <==> Obtain(l.w.queue, true).ready == [] || !poolAccepts)
            && id in s.w.flushes
            && (MayReturn(s, id) && Waiting(l.w.queue) != [] ==>
                  ResolvedCount(s) < s.w.flushes[id].batches && s.tasks == [])
  {
    hide BatchesOf;
    assert l.w.submitted == l.executed + [] + [];
    assert l.executed + [] + [] == l.executed;
  }

  // A rejected pack stays in front: the next submission that succeeds is of that pack.
  lemma RejectedIsResent<P>(l: Lane<P>, first: Actor, due: bool, second: Actor, dueLater: bool)
    requires l.w.lock.Free? && Obtained(l, first, due).w.queue.ready != []
    ensures var r := SendLane(l, first, due, false);
            && r.w.submitted == l.w.submitted && r.tasks == l.tasks && r.w.lock.Free?
            && Obtained(r, second, dueLater).w.queue.ready != []
            && SendLane(r, second, dueLater, true).w.submitted
               == l.w.submitted + [Obtained(l, first, due).w.queue.ready[0]]
  {
  }
}
