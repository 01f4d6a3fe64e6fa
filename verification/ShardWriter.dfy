/**
The thread pools (client/src/thread_pool.cpp) and ShardWriter (client/src/shard_writer.cpp), one
mutex-protected region after the other. The writer's methods are proved to be the steps of
WriterLanes, whose interleavings are the runs of Pipeline.

The answers of the service are a parameter: `put(i)` is what the i-th call of a write meets.
*/
module ShardWriting {
  import opened Collections
  import opened RecordPacks
  import opened WriterLanes
  import opened WriterSelector

  // ---------------------------------------------------------------- writing with retries

  // Refused is a DatahubException, Broken any other exception.
  datatype Put = Accepted | Refused | Broken

  function Attempts(retryTimes: int): nat {
    if retryTimes < 1 then 1 else retryTimes
  }

  // The answer that ends the calls from i on, of n calls at most.
  function Settled(put: nat -> Put, i: nat, n: nat): Put
    requires i < n
    decreases n - i
  {
    if put(i).Refused? && i + 1 < n then Settled(put, i + 1, n) else put(i)
  }

  // A write goes wrong only when every call is refused, or one is broken before any is accepted.
  lemma {:induction false} SettledMeans(put: nat -> Put, i: nat, n: nat)
    requires i < n
    ensures Settled(put, i, n).Refused? <==> forall j :: i <= j < n ==> put(j).Refused?
    ensures Settled(put, i, n).Accepted? <==>
            exists j :: i <= j < n && put(j).Accepted? && forall k :: i <= k < j ==> put(k).Refused?
    decreases n - i
  {
    if put(i).Refused? && i + 1 < n {
      SettledMeans(put, i + 1, n);
    }
  }

  method WriteOnce(put: nat -> Put, retryTimes: int) returns (result: Put, calls: nat)
    ensures result == Settled(put, 0, Attempts(retryTimes))
    ensures 1 <= calls <= Attempts(retryTimes) && result == put(calls - 1)
    ensures forall j :: 0 <= j < calls - 1 ==> put(j).Refused?
    // it gives up after one refused call, or as many as there are to be retries
    ensures calls == 1 || calls <= retryTimes
    ensures result.Refused? ==> calls >= retryTimes
  {
    calls := 0;
    var retryNum := 0;
    while true
      invariant calls == retryNum < Attempts(retryTimes)
      invariant Settled(put, 0, Attempts(retryTimes)) == Settled(put, calls, Attempts(retryTimes))
      invariant forall j :: 0 <= j < calls ==> put(j).Refused?
      decreases Attempts(retryTimes) - retryNum
    {
      result := put(retryNum);
      calls := calls + 1;
      match result
      case Accepted => return;
      case Broken => return;
      case Refused =>
        retryNum := retryNum + 1;
        if retryNum >= retryTimes {
          return;
        }
    }
  }

  // ---------------------------------------------------------------- the pools

  // Work for a worker: a writer's SendTaskOnce bound to a pack.
  datatype Task = Task(writer: ShardWriter, pack: RecordPack)

  datatype Submission = Taken | Full | Closed

  class ThreadPool {
    const queueLimit: nat
    var closed: bool
    var tasks: seq<Task>

    constructor (queueLimit: nat)
      ensures closed && tasks == [] && this.queueLimit == queueLimit
    {
      this.queueLimit := queueLimit;
      closed, tasks := true, [];
    }

    method Start() returns (ok: bool)
      modifies this`closed
      ensures ok == old(closed) && !closed
    {
      ok := closed;
      closed := false;
    }

    method Shutdown() returns (ok: bool)
      modifies this`closed
      ensures ok == !old(closed) && closed
    {
      ok := !closed;
      closed := true;
    }

    method Submit(task: Task) returns (r: Submission)
      modifies this`tasks
      ensures r == if closed then Closed else if old(|tasks|) < queueLimit then Taken else Full
      ensures tasks == if r.Taken? then old(tasks) + [task] else old(tasks)
    {
      if closed {
        return Closed;
      }
      if |tasks| < queueLimit {
        tasks := tasks + [task];
        return Taken;
      }
      return Full;
    }

    // A worker woken up: it leaves only when the pool is closed and nothing is left to do.
    method NextTask() returns (task: Option<Task>)
      requires closed || tasks != []
      modifies this`tasks
      ensures task.None? <==> old(tasks) == []
      ensures task.Some? ==> old(tasks) == [task.value] + tasks
      ensures task.None? ==> closed && tasks == []
    {
      if closed && tasks == [] {
        return None;
      }
      task := Some(tasks[0]);
      tasks := tasks[1..];
    }
  }

  class HashThreadPool {
    const threadNum: nat
    const queueLimit: nat
    var closed: bool
    var workers: seq<ThreadPool>

    ghost predicate Valid()
      reads this
    {
      threadNum >= 1 && (!closed ==> |workers| >= threadNum) && Distinct(workers)
    }

    constructor (threadNum: int, queueLimit: nat)
      ensures Valid() && closed && workers == []
      ensures this.threadNum == (if threadNum < 1 then 1 else threadNum) && this.queueLimit == queueLimit
    {
      this.threadNum := if threadNum < 1 then 1 else threadNum;
      this.queueLimit := queueLimit;
      closed, workers := true, [];
    }

    method Start() returns (ok: bool)
      requires Valid()
      modifies this
      ensures Valid() && ok == old(closed) && !closed
      ensures !ok ==> workers == old(workers)
      ensures ok ==> |workers| == old(|workers|) + threadNum && workers[..old(|workers|)] == old(workers)
      ensures forall i :: old(|workers|) <= i < |workers| ==>
                && fresh(workers[i]) && !workers[i].closed && workers[i].tasks == []
                && workers[i].queueLimit == queueLimit
    {
      if !closed {
        return false;
      }
      closed := false;
      ghost var before := workers;
      for i := 0 to threadNum
        invariant |workers| == |before| + i && workers[..|before|] == before && Distinct(workers) && !closed
        invariant forall j :: |before| <= j < |workers| ==>
                    && fresh(workers[j]) && !workers[j].closed && workers[j].tasks == []
                    && workers[j].queueLimit == queueLimit
      {
        var worker := new ThreadPool(queueLimit);
        var _ := worker.Start();
        workers := workers + [worker];
      }
      return true;
    }

    // Every worker is closed and stays in the list.
    method Shutdown() returns (ok: bool)
      requires Valid()
      modifies this`closed, workers
      ensures Valid() && ok == !old(closed) && closed
      ensures forall w :: w in workers ==> w.closed == (ok || old(w.closed)) && w.tasks == old(w.tasks)
    {
      if closed {
        return false;
      }
      closed := true;
      for i := 0 to |workers|
        invariant closed && forall j :: 0 <= j < i ==> workers[j].closed
        invariant forall w :: w in workers ==> w.tasks == old(w.tasks)
      {
        var _ := workers[i].Shutdown();
      }
      return true;
    }

    // The old workers keep their places in front.
    method Restart()
      requires Valid() && !closed
      modifies this, workers
      ensures Valid() && !closed && |workers| >= |old(workers)|
      ensures forall i :: 0 <= i < |old(workers)| ==> workers[i] == old(workers[i]) && workers[i].closed
      ensures forall i :: |old(workers)| <= i < |workers| ==> fresh(workers[i])
      ensures forall w :: w in old(workers) ==> w.tasks == old(w.tasks)
    {
      var _ := Shutdown();
      ghost var before := workers;
      var _ := Start();
      assert forall i :: 0 <= i < |before| ==> workers[i] == workers[..|before|][i];
    }

    // The key is the number of a shard. It always meets the same worker.
    method Submit(key: nat, task: Task) returns (r: Submission)
      requires Valid()
      modifies workers
      ensures closed ==> r == Closed && forall w :: w in workers ==> w.tasks == old(w.tasks)
      ensures !closed ==>
                var worker := workers[key % threadNum];
                && r == (if worker.closed then Closed
                         else if old(|worker.tasks|) < worker.queueLimit then Taken
                         else Full)
                && worker.tasks == (if r.Taken? then old(worker.tasks) + [task] else old(worker.tasks))
                && forall w :: w in workers && w != worker ==> w.tasks == old(w.tasks)
      ensures forall w :: w in workers ==> w.closed == old(w.closed)
    {
      if closed {
        return Closed;
      }
      var index := key % threadNum;
      r := workers[index].Submit(task);
    }
  }

  // A pool that is shut down and started again looks open, but its keys still lead to the old
  // workers, which stay closed: whatever is submitted, nothing is taken.
  method SubmitAfterRestart(pool: HashThreadPool, work: seq<(nat, Task)>) returns (answers: seq<Submission>)
    requires pool.Valid() && !pool.closed
    modifies pool, pool.workers
    ensures !pool.closed && pool.Valid()
    ensures |answers| == |work| && forall i :: 0 <= i < |work| ==> answers[i] == Closed
    ensures forall w :: w in old(pool.workers) ==> w.tasks == old(w.tasks)
  {
    pool.Restart();
    ghost var workers := pool.workers;
    answers := [];
    for i := 0 to |work|
      invariant pool.Valid() && !pool.closed && pool.workers == workers && |answers| == i
      invariant forall j :: 0 <= j < pool.threadNum ==> workers[j].closed
      invariant forall i :: 0 <= i < |old(pool.workers)| ==> workers[i] == old(pool.workers[i])
      invariant forall i :: |old(pool.workers)| <= i < |workers| ==> fresh(workers[i])
      invariant forall w :: w in old(pool.workers) ==> w.tasks == old(w.tasks)
      invariant forall j :: 0 <= j < i ==> answers[j] == Closed
    {
      var (key, task) := work[i];
      var answer := pool.Submit(key, task);
      answers := answers + [answer];
    }
  }

  // ---------------------------------------------------------------- the writer

  datatype Sent = Nothing | Tried(answer: Submission)

  // A writer's packs among the tasks of a worker, in order.
  function PacksFor(tasks: seq<Task>, w: ShardWriter): seq<RecordPack> {
    if tasks == [] then []
    else PacksFor(tasks[..|tasks| - 1], w) + if tasks[|tasks| - 1].writer == w then [tasks[|tasks| - 1].pack] else []
  }

  lemma PacksForMore(tasks: seq<Task>, t: Task, w: ShardWriter)
    ensures PacksFor(tasks + [t], w) == PacksFor(tasks, w) + if t.writer == w then [t.pack] else []
  {
    assert (tasks + [t])[..|tasks|] == tasks;
  }

  lemma {:induction false} ViewsMore(packs: seq<RecordPack>, p: RecordPack)
    ensures Views(packs + [p]) == Views(packs) + [p.View()]
  {
    assert forall i :: 0 <= i < |packs| ==> Views(packs + [p])[i] == packs[i].View();
  }

  // SendNextTask when nobody comes in between. A flush remembers what it found and goes on to wait.
  lemma SentAs<P>(l: Lane<P>, actor: Actor, due: bool, taken: bool)
    requires l.w.lock.Free? && (actor.ByFlush? ==> due)
    ensures var q := Obtain(l.w.queue, due);
            var w := l.w.(queue := q, flushes := Entered(l.w, actor));
            var inHand := if actor.ByDone? then None else l.inHand;
            SendWhole(l, actor, due, taken) ==
            (if q.ready == [] then Lane(w, l.tasks, inHand, l.executed)
             else if taken then
               Lane(w.(queue := Pop(q), count := l.w.count + 1, submitted := l.w.submitted + [q.ready[0]]),
                    l.tasks + [q.ready[0]], inHand, l.executed)
             else Lane(w.(rejects := l.w.rejects + 1), l.tasks, inHand, l.executed))
  {
    if actor.ByFlush? {
      var before, entered := l.w.flushes, l.w.flushes[actor.id := Flush(|l.w.accepted|, l.w.rejects, false)];
      assert entered[actor.id := entered[actor.id].(waiting := true)] == Entered(l.w, actor);
    }
  }

  // The flushes once the actor has left SendNextTask.
  function Entered<P>(w: Writer<P>, actor: Actor): map<nat, Flush> {
    if actor.ByFlush? then w.flushes[actor.id := Flush(|w.accepted|, w.rejects, true)] else w.flushes
  }

  // SendWholeKeeps as an implication.
  lemma SendWholeKept<P>(l: Lane<P>, actor: Actor, due: bool, limits: Limits)
    ensures LaneInv(l, limits) && MaySend(l, actor) ==> forall taken :: LaneInv(SendWhole(l, actor, due, taken), limits)
  {
    hide LaneInv; hide MaySend; hide SendWhole;
    if LaneInv(l, limits) && MaySend(l, actor) {
      SendWholeKeeps(l, actor, due, true, limits);
      SendWholeKeeps(l, actor, due, false, limits);
    }
  }

  lemma ResolveKept<P>(l: Lane<P>, limits: Limits)
    requires l.inHand.Some? && l.inHand.value.1.Executing?
    ensures LaneInv(l, limits) ==> LaneInv(ResolveLane(l), limits)
  {
    hide LaneInv;
    if LaneInv(l, limits) {
      ResolveKeeps(l, limits);
    }
  }

  class ShardWriter {
    const shardId: string
    const key: nat
    const retryTimes: int
    const queue: RecordPackQueue
    const pool: HashThreadPool
    const selector: ShardWriterSelectStrategy
    var closed: bool
    var taskNum: int
    // the writer's history and the flushes that have not returned, as in WriterLanes
    ghost var flushes: map<nat, Flush>
    ghost var accepted: seq<Batch<Promise>>
    ghost var submitted: seq<Pack<Promise>>
    ghost var rejects: nat

    constructor (shardId: string, key: nat, retryTimes: int, queue: RecordPackQueue, pool: HashThreadPool,
                 selector: ShardWriterSelectStrategy)
      ensures this.shardId == shardId && this.key == key && this.retryTimes == retryTimes
      ensures this.queue == queue && this.pool == pool && this.selector == selector
      ensures !closed && taskNum == 0 && accepted == [] && submitted == [] && rejects == 0
      ensures flushes == map[]
    {
      this.shardId, this.key, this.retryTimes := shardId, key, retryTimes;
      this.queue, this.pool, this.selector := queue, pool, selector;
      closed, taskNum := false, 0;
      accepted, submitted, rejects, flushes := [], [], 0, map[];
    }

    // The worker this writer's tasks go to.
    ghost function Worker(): ThreadPool
      requires pool.Valid() && !pool.closed
      reads pool
    {
      pool.workers[key % pool.threadNum]
    }

    ghost function InPool(): seq<RecordPack>
      requires pool.Valid() && !pool.closed
      reads pool, Worker()
    {
      PacksFor(Worker().tasks, this)
    }

    // The current pack has not been submitted.
    ghost predicate Valid()
      reads pool, pool.workers, queue, queue.ready, queue.current
    {
      queue.Valid() && pool.Valid() && !pool.closed && (queue.current != null ==> queue.current !in InPool())
    }

    // The writer and what its worker holds for it, given the pack in hand and those executed.
    ghost function AsLane(inHand: Option<(Pack<Promise>, Phase)>, executed: seq<Pack<Promise>>): Lane<Promise>
      requires Valid()
      reads this, pool, pool.workers, queue, queue.ready, queue.current, InPool()
    {
      Lane(Writer(key, queue.View(), Free, taskNum, flushes, accepted, submitted, rejects), Views(InPool()), inHand,
           executed)
    }

    // What WriterLanes shows every step to keep.
    ghost predicate Sound(inHand: Option<(Pack<Promise>, Phase)>, executed: seq<Pack<Promise>>)
      requires Valid()
      reads this, pool, pool.workers, queue, queue.ready, queue.current, InPool()
    {
      LaneInv(AsLane(inHand, executed), queue.limits)
    }

    // The writer's pack as a task for the worker of its shard.
    method SubmitTask(pack: RecordPack) returns (answer: Submission)
      requires pool.Valid() && !pool.closed
      modifies pool.workers
      ensures pool.Valid() && !pool.closed
      ensures answer == if Worker().closed then Closed
                        else if old(|Worker().tasks|) < Worker().queueLimit then Taken
                        else Full
      ensures InPool() == if answer.Taken? then old(InPool()) + [pack] else old(InPool())
      ensures forall w :: w in pool.workers && w != Worker() ==> w.tasks == old(w.tasks)
    {
      PacksForMore(Worker().tasks, Task(this, pack), this);
      hide PacksFor;
      answer := pool.Submit(key, Task(this, pack));
    }

    // The pack in front goes to the pool; it is counted and popped only when the pool takes it.
    method SubmitFront(readyPack: RecordPack) returns (answer: Submission)
      requires Valid() && queue.ready != [] && readyPack == queue.ready[0]
      modifies this`taskNum, this`submitted, this`rejects, queue, pool.workers
      ensures Valid() && queue.current == old(queue.current)
      ensures answer == if Worker().closed then Closed
                        else if old(|Worker().tasks|) < Worker().queueLimit then Taken
                        else Full
      ensures forall w :: w in pool.workers && w != Worker() ==> w.tasks == old(w.tasks)
      ensures answer.Taken? ==>
                && queue.View() == Pop(old(queue.View())) && InPool() == old(InPool()) + [readyPack]
                && taskNum == old(taskNum) + 1 && submitted == old(submitted) + [readyPack.View()]
                && rejects == old(rejects)
      ensures !answer.Taken? ==>
                && queue.View() == old(queue.View()) && InPool() == old(InPool())
                && taskNum == old(taskNum) && submitted == old(submitted) && rejects == old(rejects) + 1
    {
      hide RecordPackQueue.View; hide PacksFor; hide Pop;
      assert readyPack != queue.current;
      hide RecordPackQueue.Valid;
      answer := SubmitTask(readyPack);
      if answer.Taken? {
        taskNum := taskNum + 1;
        submitted := submitted + [readyPack.View()];
        queue.PopBackRecordPack();
      } else {
        rejects := rejects + 1;
      }
    }

    // `inHand` and `executed` are what the worker is doing meanwhile; a worker that has finished a
    // task sends as its last act, and a flush notes what it found when it came in.
    method SendNextTask(now: bool, ghost actor: Actor,
                        ghost inHand: Option<(Pack<Promise>, Phase)>, ghost executed: seq<Pack<Promise>>)
      returns (r: Sent)
      requires Valid() && (actor.ByFlush? ==> now)
      modifies this`taskNum, this`submitted, this`rejects, this`flushes, queue, pool.workers
      ensures Valid() && (queue.current == null || queue.current == old(queue.current))
      ensures AsLane(if actor.ByDone? then None else inHand, executed)
              == SendWhole(old(AsLane(inHand, executed)), actor, now, r == Tried(Taken))
      ensures old(Sound(inHand, executed)) && MaySend(old(AsLane(inHand, executed)), actor)
              ==> Sound(if actor.ByDone? then None else inHand, executed)
      ensures r.Nothing? <==> Obtain(old(queue.View()), now).ready == []
      ensures r.Tried? ==>
                r.answer == if Worker().closed then Closed
                            else if old(|Worker().tasks|) < Worker().queueLimit then Taken
                            else Full
      ensures forall w :: w in pool.workers && w != Worker() ==> w.tasks == old(w.tasks)
    {
      hide RecordPackQueue.Valid; hide RecordPackQueue.View; hide SendWhole; hide PacksFor; hide Views;
      hide Obtain; hide Pop; hide LaneInv; hide MaySend; hide Entered;
      ghost var l := AsLane(inHand, executed);
      SentAs(l, actor, now, true);
      SentAs(l, actor, now, false);
      SendWholeKept(l, actor, now, queue.limits);
      ghost var packs := InPool();
      flushes := Entered(l.w, actor);
      var readyPack := queue.ObtainReadyRecordPack(now);
      FrontView(queue);
      if readyPack == null {
        SameViews(packs);
        return Nothing;
      }
      var answer := SubmitFront(readyPack);
      SameViews(packs);
      ViewsMore(packs, readyPack);
      return Tried(answer);
    }

    // RecordPackQueue.AppendRecord, seen from the writer.
    method Accept(records: seq<Record>, overdue: bool,
                  ghost inHand: Option<(Pack<Promise>, Phase)>, ghost executed: seq<Pack<Promise>>)
      returns (result: Promise?)
      requires Valid()
      modifies this`accepted, queue, queue.current
      ensures Valid()
      ensures result == null <==> old(|queue.ready|) >= queue.queueLimit
      ensures result == null ==> AsLane(inHand, executed) == old(AsLane(inHand, executed))
      ensures result != null ==> fresh(result) && result.outcome == Pending
      ensures result != null ==>
                AsLane(inHand, executed)
                == AppendLane(old(AsLane(inHand, executed)), Batch(records, result), overdue, queue.limits)
      ensures old(Sound(inHand, executed)) ==> Sound(inHand, executed)
    {
      hide RecordPackQueue.Valid; hide RecordPackQueue.View; hide PacksFor; hide Append; hide LaneInv;
      ghost var packs, l := InPool(), AsLane(inHand, executed);
      result := queue.AppendRecord(records, overdue);
      SameViews(packs);
      if result != null {
        accepted := accepted + [Batch(records, result)];
        if LaneInv(l, queue.limits) {
          AppendKeeps(l, Batch(records, result), overdue, queue.limits);
        }
      }
    }

    // Null when the writer is closed or its queue full; else the promise of the accepted batch.
    method WriteAsync(records: seq<Record>, overdue: bool, due: bool,
                      ghost inHand: Option<(Pack<Promise>, Phase)>, ghost executed: seq<Pack<Promise>>)
      returns (result: Promise?, sent: Sent)
      requires Valid()
      modifies this`taskNum, this`submitted, this`rejects, this`accepted, this`flushes
      modifies queue, queue.current, pool.workers
      ensures Valid()
      ensures result == null <==> closed || old(|queue.ready|) >= queue.queueLimit
      ensures result != null ==> fresh(result) && result.outcome == Pending
      ensures closed ==> AsLane(inHand, executed) == old(AsLane(inHand, executed))
      ensures !closed && result == null ==>
                AsLane(inHand, executed)
                == SendWhole(old(AsLane(inHand, executed)), ByWrite, due, sent == Tried(Taken))
      ensures result != null ==>
                var l := AppendLane(old(AsLane(inHand, executed)), Batch(records, result), overdue, queue.limits);
                AsLane(inHand, executed) == SendWhole(l, ByWrite, due, sent == Tried(Taken))
      ensures old(Sound(inHand, executed)) ==> Sound(inHand, executed)
    {
      hide Valid; hide AsLane; hide SendWhole; hide AppendLane; hide LaneInv;
      if closed {
        return null, Nothing;
      }
      result := Accept(records, overdue, inHand, executed);
      ghost var l := AsLane(inHand, executed);
      assert MaySend(l, ByWrite) by { IsUnlocked(inHand, executed); }
      sent := SendNextTask(due, ByWrite, inHand, executed);
    }

    // Between two calls nobody holds the send lock.
    lemma IsUnlocked(inHand: Option<(Pack<Promise>, Phase)>, executed: seq<Pack<Promise>>)
      requires Valid()
      ensures var l := AsLane(inHand, executed);
              l.w.lock.Free? && l.inHand == inHand && l.executed == executed && l.w.flushes == flushes
      ensures var l := AsLane(inHand, executed);
              l.w.count == taskNum && l.w.accepted == accepted && l.w.rejects == rejects
    {
    }

    // Flush up to the wait: everything accepted is sent, as far as the pool takes it.
    method Flush(ghost id: nat, ghost inHand: Option<(Pack<Promise>, Phase)>, ghost executed: seq<Pack<Promise>>)
      returns (sent: Sent)
      requires Valid() && id !in flushes
      modifies this`taskNum, this`submitted, this`rejects, this`flushes, queue, pool.workers
      ensures Valid() && id in flushes && flushes[id] == WriterLanes.Flush.Flush(|old(accepted)|, old(rejects), true)
      ensures AsLane(inHand, executed)
              == SendWhole(old(AsLane(inHand, executed)), ByFlush(id), true, sent == Tried(Taken))
      ensures old(Sound(inHand, executed)) ==> Sound(inHand, executed)
    {
      hide Valid; hide AsLane; hide SendWhole; hide LaneInv;
      ghost var l := AsLane(inHand, executed);
      IsUnlocked(inHand, executed);
      SentAs(l, ByFlush(id), true, true);
      SentAs(l, ByFlush(id), true, false);
      sent := SendNextTask(true, ByFlush(id), inHand, executed);
      IsUnlocked(inHand, executed);
    }

    // ... and its return, once no task is counted and no worker holds the task lock. Unless the pool
    // refused a pack since it was called, all that had been accepted before it is executed.
    method FlushReturns(ghost id: nat, ghost inHand: Option<(Pack<Promise>, Phase)>, ghost executed: seq<Pack<Promise>>)
      requires Valid() && id in flushes && flushes[id].waiting
      requires taskNum == 0 && (inHand.Some? ==> !inHand.value.1.Finishing?)
      modifies this`flushes
      ensures Valid() && AsLane(inHand, executed) == ReturnLane(old(AsLane(inHand, executed)), id)
      ensures old(Sound(inHand, executed)) ==> Sound(inHand, executed)
      ensures old(Sound(inHand, executed)) && rejects == old(flushes)[id].rejects ==>
                accepted[..old(flushes)[id].batches] <= BatchesOf(executed)
    {
      hide RecordPackQueue.Valid; hide RecordPackQueue.View; hide PacksFor; hide Views; hide LaneInv; hide BatchesOf;
      ghost var l := AsLane(inHand, executed);
      if LaneInv(l, queue.limits) {
        ReturnKeeps(l, queue.limits, id);
        if rejects == flushes[id].rejects {
          FlushComplete(l, queue.limits, id);
        }
      }
      flushes := flushes - {id};
    }

    method TaskDone(due: bool, ghost p: Pack<Promise>, ghost executed: seq<Pack<Promise>>) returns (sent: Sent)
      requires Valid()
      modifies this`taskNum, this`submitted, this`rejects, this`flushes, queue, pool.workers
      ensures Valid()
      ensures AsLane(None, executed)
              == SendWhole(DoneLane(old(AsLane(Some((p, Resolved)), executed))), ByDone, due, sent == Tried(Taken))
      ensures old(Sound(Some((p, Resolved)), executed)) ==> Sound(None, executed)
    {
      hide RecordPackQueue.Valid; hide RecordPackQueue.View; hide SendWhole; hide PacksFor; hide Views; hide LaneInv;
      ghost var l := AsLane(Some((p, Resolved)), executed);
      if LaneInv(l, queue.limits) {
        DoneKeeps(l, queue.limits);
      }
      taskNum := taskNum - 1;
      assert AsLane(Some((p, Finishing)), executed) == DoneLane(l);
      sent := SendNextTask(due, ByDone, Some((p, Finishing)), executed);
    }

    // Every promise of the pack is resolved, the same way.
    static method ResolveAll(promises: seq<Promise>, result: Outcome)
      requires Distinct(promises) && result != Pending
      requires forall p :: p in promises ==> p.outcome == Pending
      modifies promises
      ensures forall p :: p in promises ==> p.outcome == result
    {
      for i := 0 to |promises|
        invariant forall j :: 0 <= j < i ==> promises[j].outcome == result
        invariant forall j :: i <= j < |promises| ==> promises[j].outcome == Pending
      {
        promises[i].Resolve(result);
      }
    }

    // One write with retries; every promise of the pack is resolved by its outcome, and on failure
    // the shard is reported.
    method Conclude(pack: RecordPack, put: nat -> Put, ghost executed: seq<Pack<Promise>>)
      requires Valid() && pack.Valid() && forall p :: p in pack.writeResults ==> p.outcome == Pending
      modifies pack.writeResults, selector
      ensures Valid()
      ensures var ok := Settled(put, 0, Attempts(retryTimes)).Accepted?;
              && (forall p :: p in pack.writeResults ==> p.outcome == if ok then Written else Failed)
              && selector.View() == if ok then old(selector.View()) else AddInvalid(old(selector.View()), shardId)
      ensures pack.View() == old(pack.View())
      ensures AsLane(Some((pack.View(), Resolved)), executed + [pack.View()])
              == ResolveLane(old(AsLane(Some((pack.View(), Executing)), executed)))
    {
      hide RecordPackQueue.Valid; hide RecordPackQueue.View; hide PacksFor; hide Views; hide Settled; hide AddInvalid;
      ghost var views := Views(InPool());
      var result, _ := WriteOnce(put, retryTimes);
      if result.Accepted? {
        ResolveAll(pack.writeResults, Written);
      } else {
        selector.AddInvalidShard(shardId);
        ResolveAll(pack.writeResults, Failed);
      }
      assert Views(InPool()) == views;
    }

    // A worker runs a task; then TaskDone counts it off and sends the next pack.
    method SendTaskOnce(pack: RecordPack, put: nat -> Put, due: bool, ghost executed: seq<Pack<Promise>>)
      returns (sent: Sent)
      requires Valid() && pack.Valid() && forall p :: p in pack.writeResults ==> p.outcome == Pending
      modifies this`taskNum, this`submitted, this`rejects, this`flushes, queue, pool.workers
      modifies pack.writeResults, selector
      ensures Valid()
      ensures var ok := Settled(put, 0, Attempts(retryTimes)).Accepted?;
              && (forall p :: p in pack.writeResults ==> p.outcome == if ok then Written else Failed)
              && selector.View() == if ok then old(selector.View()) else AddInvalid(old(selector.View()), shardId)
      ensures var l := old(AsLane(Some((pack.View(), Executing)), executed));
              AsLane(None, executed + [old(pack.View())])
              == SendWhole(DoneLane(ResolveLane(l)), ByDone, due, sent == Tried(Taken))
      ensures old(Sound(Some((pack.View(), Executing)), executed)) ==> Sound(None, executed + [old(pack.View())])
    {
      hide Valid; hide AsLane; hide SendWhole; hide Settled; hide AddInvalid; hide ResolveLane; hide DoneLane;
      hide LaneInv;
      ghost var l := AsLane(Some((pack.View(), Executing)), executed);
      IsUnlocked(Some((pack.View(), Executing)), executed);
      ResolveKept(l, queue.limits);
      Conclude(pack, put, executed);
      sent := TaskDone(due, pack.View(), executed + [pack.View()]);
    }
  }

  twostate lemma SameViews(packs: seq<RecordPack>)
    requires forall p :: p in packs ==> p.View() == old(p.View())
    ensures Views(packs) == old(Views(packs))
  {
  }

  lemma FrontView(queue: RecordPackQueue)
    ensures |queue.View().ready| == |queue.ready|
    ensures queue.ready != [] ==> queue.View().ready[0] == queue.ready[0].View()
  {
  }
}
