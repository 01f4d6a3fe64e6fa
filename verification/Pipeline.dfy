/**
The producer pipeline over whole runs: any number of writers append, send and flush concurrently
while the hashed single-thread workers (client/src/thread_pool.cpp) execute what was submitted.
Each step moves one writer's lane and leaves the others alone. Promises are numbered in the order
their batches were accepted.
*/
module Pipeline {
  import opened Collections
  import opened RecordPacks
  import opened WriterLanes

  ghost predicate Numbered(s: seq<Batch<nat>>) {
    forall i :: 0 <= i < |s| ==> s[i].promise == i
  }

  // ---------------------------------------------------------------- all writers, all workers

  datatype Task = Task(writer: nat, pack: Pack<nat>)

  // One single-thread pool: its queue, the task in hand, the tasks whose promises are resolved.
  datatype Worker = Worker(tasks: seq<Task>, busy: Option<(Task, Phase)>, executed: seq<Task>)

  datatype System = System(writers: map<nat, Writer<nat>>, workers: seq<Worker>, poolLimit: nat)

  // HashThreadPool: a shard id is a non-negative number, so the remainder is a worker.
  function WorkerOf(sys: System, w: nat): nat
    requires w in sys.writers && |sys.workers| > 0
  {
    sys.writers[w].key % |sys.workers|
  }

  function PacksOf(tasks: seq<Task>, w: nat): seq<Pack<nat>> {
    if tasks == [] then []
    else PacksOf(tasks[..|tasks| - 1], w) + if tasks[|tasks| - 1].writer == w then [tasks[|tasks| - 1].pack] else []
  }

  // The writer's pack in the worker's hand.
  function InHand(worker: Worker, v: nat): Option<(Pack<nat>, Phase)> {
    if worker.busy.Some? && worker.busy.value.0.writer == v
    then Some((worker.busy.value.0.pack, worker.busy.value.1)) else None
  }

  function LaneOf(sys: System, w: nat): Lane<nat>
    requires w in sys.writers && |sys.workers| > 0
  {
    var worker := sys.workers[WorkerOf(sys, w)];
    Lane(sys.writers[w], PacksOf(worker.tasks, w), InHand(worker, w), PacksOf(worker.executed, w))
  }

  datatype Action =
    | Write(w: nat, records: seq<Record>, overdue: bool)
    | Send(w: nat, actor: Actor, due: bool)
    | Count(w: nat)
    | Begin(k: nat)
    | Resolve(k: nat)
    | Finish(k: nat)
    | Return(w: nat, id: nat)

  predicate PoolAccepts(sys: System, w: nat)
    requires w in sys.writers && |sys.workers| > 0
  {
    |sys.workers[WorkerOf(sys, w)].tasks| < sys.poolLimit
  }

  ghost predicate Enabled(sys: System, a: Action) {
    && |sys.workers| > 0
    && match a
       case Write(w, _, _) => w in sys.writers
       case Send(w, actor, _) => w in sys.writers && MaySend(LaneOf(sys, w), actor)
       case Count(w) => w in sys.writers && sys.writers[w].lock.Submitted?
       case Begin(k) => k < |sys.workers| && sys.workers[k].busy.None? && sys.workers[k].tasks != []
       case Resolve(k) => k < |sys.workers| && sys.workers[k].busy.Some? && sys.workers[k].busy.value.1.Executing?
       case Finish(k) => k < |sys.workers| && sys.workers[k].busy.Some? && sys.workers[k].busy.value.1.Resolved?
                         && sys.workers[k].busy.value.0.writer in sys.writers
       case Return(w, id) => w in sys.writers && MayReturn(LaneOf(sys, w), id)
  }

  // The writer's part of a lane step, put back.
  function WithWriter(sys: System, w: nat, writer: Writer<nat>): System {
    sys.(writers := sys.writers[w := writer])
  }

  function WithWorker(sys: System, k: nat, worker: Worker): System
    requires k < |sys.workers|
  {
    sys.(workers := sys.workers[k := worker])
  }

  // The worker of a writer that has left SendNextTask.
  function Freed(worker: Worker, actor: Actor): Worker {
    if actor.ByDone? then worker.(busy := None) else worker
  }

  // The worker of a writer that has obtained a pack: it has the pack, if it was submitted.
  function Handed(worker: Worker, w: nat, after: Lane<nat>, actor: Actor): Worker {
    if after.w.lock.Submitted? && after.w.submitted != []
    then worker.(tasks := worker.tasks + [Task(w, after.w.submitted[|after.w.submitted| - 1])])
    else Freed(worker, actor)
  }

  // The batch a writer accepts next carries the next promise.
  function NextBatch(w: Writer<nat>, records: seq<Record>): Batch<nat> {
    Batch(records, |w.accepted|)
  }

  function Next(sys: System, a: Action, limits: Limits): (t: System)
    requires Enabled(sys, a)
    ensures t.writers.Keys == sys.writers.Keys && |t.workers| == |sys.workers|
  {
    match a
    case Write(w, records, overdue) =>
      WithWriter(sys, w, AppendLane(LaneOf(sys, w), NextBatch(sys.writers[w], records), overdue, limits).w)
    case Send(w, actor, due) =>
      var k := WorkerOf(sys, w);
      var after := SendLane(LaneOf(sys, w), actor, due, PoolAccepts(sys, w));
      WithWorker(WithWriter(sys, w, after.w), k, Handed(sys.workers[k], w, after, actor))
    case Count(w) =>
      var k := WorkerOf(sys, w);
      WithWorker(WithWriter(sys, w, CountLane(LaneOf(sys, w)).w), k, Freed(sys.workers[k], sys.writers[w].lock.actor))
    case Begin(k) =>
      var worker := sys.workers[k];
      WithWorker(sys, k, Worker(worker.tasks[1..], Some((worker.tasks[0], Executing)), worker.executed))
    case Resolve(k) =>
      var worker := sys.workers[k];
      WithWorker(sys, k,
                 Worker(worker.tasks, Some((worker.busy.value.0, Resolved)), worker.executed + [worker.busy.value.0]))
    case Finish(k) =>
      var worker := sys.workers[k];
      var w := worker.busy.value.0.writer;
      WithWorker(WithWriter(sys, w, sys.writers[w].(count := sys.writers[w].count - 1)), k,
                 Worker(worker.tasks, Some((worker.busy.value.0, Finishing)), worker.executed))
    case Return(w, id) => WithWriter(sys, w, ReturnLane(LaneOf(sys, w), id).w)
  }

  // Every task sits with the worker its writer hashes to.
  ghost predicate Routed(sys: System) {
    |sys.workers| > 0 && forall k :: 0 <= k < |sys.workers| ==> WorkerRouted(sys, k)
  }

  ghost predicate WorkerRouted(sys: System, k: nat)
    requires k < |sys.workers|
  {
    && (forall i :: 0 <= i < |sys.workers[k].tasks| ==>
          sys.workers[k].tasks[i].writer in sys.writers && WorkerOf(sys, sys.workers[k].tasks[i].writer) == k)
    && (sys.workers[k].busy.Some? ==>
          sys.workers[k].busy.value.0.writer in sys.writers && WorkerOf(sys, sys.workers[k].busy.value.0.writer) == k)
  }

  ghost predicate Inv(sys: System, limits: Limits) {
    Routed(sys) && forall w :: w in sys.writers ==> LaneInv(LaneOf(sys, w), limits) && Numbered(sys.writers[w].accepted)
  }

  lemma {:induction false} PacksOfConcat(a: seq<Task>, b: seq<Task>, w: nat)
    ensures PacksOf(a + b, w) == PacksOf(a, w) + PacksOf(b, w)
    decreases |b|
  {
    if b == [] {
      assert a + b == a;
    } else {
      assert (a + b)[..|a + b| - 1] == a + b[..|b| - 1];
      PacksOfConcat(a, b[..|b| - 1], w);
    }
  }

  lemma PacksOfOne(t: Task, w: nat)
    ensures PacksOf([t], w) == if t.writer == w then [t.pack] else []
  {
    assert [t][..0] == [];
    assert PacksOf([t], w) == PacksOf([], w) + if t.writer == w then [t.pack] else [];
  }

  lemma PacksOfHead(tasks: seq<Task>, w: nat)
    requires tasks != []
    ensures PacksOf(tasks, w) == (if tasks[0].writer == w then [tasks[0].pack] else []) + PacksOf(tasks[1..], w)
  {
    PacksOfConcat([tasks[0]], tasks[1..], w);
    PacksOfOne(tasks[0], w);
    assert [tasks[0]] + tasks[1..] == tasks;
  }

  // ---------------------------------------------------------------- a step is a step of one lane

  lemma WriteLanes(sys: System, a: Action, limits: Limits, v: nat)
    requires Routed(sys) && Enabled(sys, a) && (a.Write? || a.Return?) && v in sys.writers
    ensures LaneOf(Next(sys, a, limits), v) ==
            if v != a.w then LaneOf(sys, v)
            else if a.Write? then AppendLane(LaneOf(sys, v), NextBatch(sys.writers[v], a.records), a.overdue, limits)
            else ReturnLane(LaneOf(sys, v), a.id)
  {
    hide PacksOf; hide Append;
  }

  lemma HandedLane(worker: Worker, l: Lane<nat>, w: nat, actor: Actor, due: bool, poolAccepts: bool, v: nat)
    requires MaySend(l, actor) && l.tasks == PacksOf(worker.tasks, w) && l.inHand == InHand(worker, w)
    ensures var after := SendLane(l, actor, due, poolAccepts);
            var h := Handed(worker, w, after, actor);
            && h.executed == worker.executed && after.executed == l.executed
            && (v == w ==> PacksOf(h.tasks, v) == after.tasks && InHand(h, v) == after.inHand)
            && (v != w ==> PacksOf(h.tasks, v) == PacksOf(worker.tasks, v) && InHand(h, v) == InHand(worker, v))
  {
    hide PacksOf; hide Obtain;
    var after := SendLane(l, actor, due, poolAccepts);
    if after.w.lock.Submitted? {
      var task := Task(w, after.w.submitted[|after.w.submitted| - 1]);
      PacksOfConcat(worker.tasks, [task], v);
      PacksOfOne(task, v);
    }
  }

  lemma SendLanes(sys: System, w: nat, actor: Actor, due: bool, limits: Limits, v: nat)
    requires Routed(sys) && Enabled(sys, Send(w, actor, due)) && v in sys.writers
    ensures var t := Next(sys, Send(w, actor, due), limits);
            LaneOf(t, v) == if v != w then LaneOf(sys, v) else SendLane(LaneOf(sys, w), actor, due, PoolAccepts(sys, w))
  {
    hide PacksOf; hide Obtain; hide Handed; hide MaySend; hide InHand;
    HandedLane(sys.workers[WorkerOf(sys, w)], LaneOf(sys, w), w, actor, due, PoolAccepts(sys, w), v);
    SendKeepsKey(LaneOf(sys, w), actor, due, PoolAccepts(sys, w));
    hide SendLane; hide PoolAccepts;
  }

  lemma SendKeepsKey(l: Lane<nat>, actor: Actor, due: bool, poolAccepts: bool)
    ensures SendLane(l, actor, due, poolAccepts).w.key == l.w.key
  {
    hide Obtain;
  }

  lemma CountLanes(sys: System, w: nat, limits: Limits, v: nat)
    requires Routed(sys) && Enabled(sys, Count(w)) && v in sys.writers && Counted(LaneOf(sys, w))
    ensures var t := Next(sys, Count(w), limits);
            LaneOf(t, v) == if v != w then LaneOf(sys, v) else CountLane(LaneOf(sys, w))
  {
    hide PacksOf; hide Pop;
  }

  lemma BeginLanes(sys: System, k: nat, limits: Limits, v: nat)
    requires Routed(sys) && Enabled(sys, Begin(k)) && v in sys.writers
    ensures var t := Next(sys, Begin(k), limits);
            var w := sys.workers[k].tasks[0].writer;
            && (v == w ==>
                  LaneOf(sys, v).tasks != [] && LaneOf(sys, v).inHand.None?
                  && LaneOf(t, v) == StartLane(LaneOf(sys, v)))
            && (v != w ==> LaneOf(t, v) == LaneOf(sys, v))
  {
    PacksOfHead(sys.workers[k].tasks, v);
    assert WorkerRouted(sys, k);
    hide PacksOf;
    var packs := PacksOf(sys.workers[k].tasks[1..], v);
    assert ([sys.workers[k].tasks[0].pack] + packs)[1..] == packs;
    assert [] + packs == packs;
  }

  lemma ResolveLanes(sys: System, k: nat, limits: Limits, v: nat)
    requires Routed(sys) && Enabled(sys, Resolve(k)) && v in sys.writers
    ensures var t := Next(sys, Resolve(k), limits);
            var w := sys.workers[k].busy.value.0.writer;
            && (v == w ==>
                  LaneOf(sys, v).inHand.Some? && LaneOf(sys, v).inHand.value.1.Executing?
                  && LaneOf(t, v) == ResolveLane(LaneOf(sys, v)))
            && (v != w ==> LaneOf(t, v) == LaneOf(sys, v))
  {
    assert WorkerRouted(sys, k);
    hide PacksOf;
    var task := sys.workers[k].busy.value.0;
    PacksOfConcat(sys.workers[k].executed, [task], v);
    PacksOfOne(task, v);
  }

  lemma FinishLanes(sys: System, k: nat, limits: Limits, v: nat)
    requires Routed(sys) && Enabled(sys, Finish(k)) && v in sys.writers
    ensures var t := Next(sys, Finish(k), limits);
            var w := sys.workers[k].busy.value.0.writer;
            && (v == w ==>
                  LaneOf(sys, v).inHand.Some? && LaneOf(sys, v).inHand.value.1.Resolved?
                  && LaneOf(t, v) == DoneLane(LaneOf(sys, v)))
            && (v != w ==> LaneOf(t, v) == LaneOf(sys, v))
  {
    assert WorkerRouted(sys, k);
    hide PacksOf;
  }

  // A step gives one worker new contents and leaves every writer's key alone.
  ghost predicate OneWorker(sys: System, t: System, k: nat)
    requires k < |sys.workers|
  {
    && |t.workers| == |sys.workers|
    && t.writers.Keys == sys.writers.Keys
    && (forall w :: w in t.writers ==> t.writers[w].key == sys.writers[w].key)
    && (forall j :: 0 <= j < |t.workers| && j != k ==> t.workers[j] == sys.workers[j])
    && (forall i :: 0 <= i < |t.workers[k].tasks| ==> Belongs(sys, t.workers[k].tasks[i], k))
    && (t.workers[k].busy.Some? ==> Belongs(sys, t.workers[k].busy.value.0, k))
  }

  ghost predicate Belongs(sys: System, task: Task, k: nat) {
    task.writer in sys.writers && |sys.workers| > 0 && WorkerOf(sys, task.writer) == k
  }

  lemma OneWorkerRouted(sys: System, t: System, k: nat)
    requires Routed(sys) && k < |sys.workers| && OneWorker(sys, t, k)
    ensures Routed(t)
  {
    forall j | 0 <= j < |t.workers|
      ensures WorkerRouted(t, j)
    {
      assert WorkerRouted(sys, j);
    }
  }

  lemma WriteRouted(sys: System, a: Action, limits: Limits)
    requires Routed(sys) && Enabled(sys, a) && (a.Write? || a.Return?)
    ensures OneWorker(sys, Next(sys, a, limits), WorkerOf(sys, a.w))
  {
    hide PacksOf; hide Append;
    assert WorkerRouted(sys, WorkerOf(sys, a.w));
  }

  lemma SendRouted(sys: System, a: Action, limits: Limits)
    requires Routed(sys) && Enabled(sys, a) && a.Send?
    ensures OneWorker(sys, Next(sys, a, limits), WorkerOf(sys, a.w))
  {
    hide PacksOf; hide Obtain;
    assert WorkerRouted(sys, WorkerOf(sys, a.w));
  }

  lemma CountRouted(sys: System, a: Action, limits: Limits)
    requires Routed(sys) && Enabled(sys, a) && a.Count?
    ensures OneWorker(sys, Next(sys, a, limits), WorkerOf(sys, a.w))
  {
    hide PacksOf; hide Pop;
    assert WorkerRouted(sys, WorkerOf(sys, a.w));
  }

  lemma WorkerStepRouted(sys: System, a: Action, limits: Limits)
    requires Routed(sys) && Enabled(sys, a) && (a.Begin? || a.Resolve? || a.Finish?)
    ensures OneWorker(sys, Next(sys, a, limits), a.k)
  {
    hide PacksOf; hide MaySend;
    assert WorkerRouted(sys, a.k);
  }

  lemma NextRouted(sys: System, a: Action, limits: Limits)
    requires Routed(sys) && Enabled(sys, a)
    ensures Routed(Next(sys, a, limits))
  {
    hide Next; hide MaySend;
    if a.Begin? || a.Resolve? || a.Finish? {
      WorkerStepRouted(sys, a, limits);
      OneWorkerRouted(sys, Next(sys, a, limits), a.k);
    } else {
      if a.Send? {
        SendRouted(sys, a, limits);
      } else if a.Count? {
        CountRouted(sys, a, limits);
      } else {
        WriteRouted(sys, a, limits);
      }
      OneWorkerRouted(sys, Next(sys, a, limits), WorkerOf(sys, a.w));
    }
  }

  lemma LaneKeeps(sys: System, a: Action, limits: Limits, v: nat)
    requires Inv(sys, limits) && Enabled(sys, a) && v in sys.writers
    ensures LaneInv(LaneOf(Next(sys, a, limits), v), limits)
  {
    hide PacksOf; hide AppendLane; hide SendLane; hide CountLane; hide StartLane; hide ResolveLane; hide DoneLane;
    hide ReturnLane;
    var l := LaneOf(sys, v);
    assert LaneInv(l, limits);
    match a
    case Write(w, records, overdue) =>
      WriteLanes(sys, a, limits, v);
      if v == w { AppendKeeps(l, NextBatch(sys.writers[w], records), overdue, limits); }
    case Return(w, id) =>
      WriteLanes(sys, a, limits, v);
      if v == w { ReturnKeeps(l, limits, id); }
    case Send(w, actor, due) =>
      SendLanes(sys, w, actor, due, limits, v);
      if v == w { SendKeeps(l, actor, due, PoolAccepts(sys, w), limits); }
    case Count(w) =>
      assert LaneInv(LaneOf(sys, w), limits);
      CountLanes(sys, w, limits, v);
      if v == w { CountKeeps(l, limits); }
    case Begin(k) =>
      BeginLanes(sys, k, limits, v);
      if v == sys.workers[k].tasks[0].writer { StartKeeps(l, limits); }
    case Resolve(k) =>
      ResolveLanes(sys, k, limits, v);
      if v == sys.workers[k].busy.value.0.writer { ResolveKeeps(l, limits); }
    case Finish(k) =>
      FinishLanes(sys, k, limits, v);
      if v == sys.workers[k].busy.value.0.writer { DoneKeeps(l, limits); }
  }

  lemma NumberedKeeps(sys: System, a: Action, limits: Limits, v: nat)
    requires Enabled(sys, a) && v in sys.writers && Numbered(sys.writers[v].accepted)
    ensures Numbered(Next(sys, a, limits).writers[v].accepted)
  {
    hide PacksOf; hide Append; hide Obtain; hide Pop;
  }

  lemma StepKeepsInv(sys: System, a: Action, limits: Limits)
    requires Inv(sys, limits) && Enabled(sys, a)
    ensures Inv(Next(sys, a, limits), limits)
  {
    hide LaneInv; hide LaneOf; hide Next; hide Enabled; hide WorkerRouted; hide Numbered;
    NextRouted(sys, a, limits);
    forall v | v in Next(sys, a, limits).writers
      ensures LaneInv(LaneOf(Next(sys, a, limits), v), limits) && Numbered(Next(sys, a, limits).writers[v].accepted)
    {
      NumberedKeeps(sys, a, limits, v);
      LaneKeeps(sys, a, limits, v);
    }
  }

  // ---------------------------------------------------------------- whole runs

  ghost predicate Started(sys: System) {
    && |sys.workers| > 0
    && (forall k :: 0 <= k < |sys.workers| ==> sys.workers[k] == Worker([], None, []))
    && (forall w :: w in sys.writers ==>
          sys.writers[w] == Writer(sys.writers[w].key, Queue([], None), Free, 0, map[], [], [], 0))
  }

  ghost predicate LegalRun(sys: System, run: seq<Action>, limits: Limits)
    decreases |run|
  {
    run != [] ==> Enabled(sys, run[0]) && LegalRun(Next(sys, run[0], limits), run[1..], limits)
  }

  ghost function After(sys: System, run: seq<Action>, limits: Limits): System
    requires LegalRun(sys, run, limits)
    decreases |run|
  {
    if run == [] then sys else After(Next(sys, run[0], limits), run[1..], limits)
  }

  lemma StartedInv(sys: System, limits: Limits)
    requires Started(sys)
    ensures Inv(sys, limits)
  {
    forall k | 0 <= k < |sys.workers|
      ensures WorkerRouted(sys, k)
    {
      assert sys.workers[k] == Worker([], None, []);
    }
  }

  lemma {:induction false} RunKeepsInv(sys: System, run: seq<Action>, limits: Limits)
    requires Inv(sys, limits) && LegalRun(sys, run, limits)
    ensures Inv(After(sys, run, limits), limits)
    ensures After(sys, run, limits).writers.Keys == sys.writers.Keys
    decreases |run|
  {
    hide Inv; hide Enabled; hide Next;
    if run != [] {
      StepKeepsInv(sys, run[0], limits);
      RunKeepsInv(Next(sys, run[0], limits), run[1..], limits);
    }
  }

  // For every interleaving of any number of writers over any number of workers: what was executed
  // of a writer's packs is, batch by batch, a prefix of what that writer accepted.
  lemma WriteOrder(sys: System, run: seq<Action>, limits: Limits, w: nat)
    requires Started(sys) && LegalRun(sys, run, limits) && w in sys.writers
    ensures var t := After(sys, run, limits);
            && w in t.writers && |t.workers| > 0
            && BatchesOf(LaneOf(t, w).executed) <= t.writers[w].accepted
            && Numbered(t.writers[w].accepted)
  {
    StartedInv(sys, limits);
    RunKeepsInv(sys, run, limits);
    var t := After(sys, run, limits);
    assert LaneInv(LaneOf(t, w), limits);
    ExecutedIsPrefix(LaneOf(t, w), limits);
  }

  // ---------------------------------------------------------------- flushes

  // A flush keeps what it recorded on entry until it returns; batches are only ever added.
  ghost predicate Since(sys: System, t: System, w: nat, id: nat)
    requires w in sys.writers
  {
    && w in t.writers
    && sys.writers[w].accepted <= t.writers[w].accepted
    && (id in sys.writers[w].flushes ==>
          && id in t.writers[w].flushes
          && t.writers[w].flushes[id].batches == sys.writers[w].flushes[id].batches
          && t.writers[w].flushes[id].rejects == sys.writers[w].flushes[id].rejects)
  }

  lemma StepSince(sys: System, a: Action, limits: Limits, w: nat, id: nat)
    requires Enabled(sys, a) && w in sys.writers && a != Return(w, id)
    ensures Since(sys, Next(sys, a, limits), w, id)
  {
    hide PacksOf; hide Append; hide Obtain; hide Pop;
  }

  lemma {:induction false} RunSince(sys: System, run: seq<Action>, limits: Limits, w: nat, id: nat)
    requires LegalRun(sys, run, limits) && w in sys.writers && Return(w, id) !in run
    ensures Since(sys, After(sys, run, limits), w, id)
    decreases |run|
  {
    hide Enabled; hide Next;
    if run != [] {
      StepSince(sys, run[0], limits, w, id);
      RunSince(Next(sys, run[0], limits), run[1..], limits, w, id);
    }
  }

  // During a flush of writer w -- from its call to its return -- no submission was rejected.
  ghost predicate FlushRun(start: System, called: System, during: seq<Action>, end: System, due: bool, limits: Limits,
                           w: nat, id: nat) {
    && Enabled(start, Send(w, ByFlush(id), due)) && called == Next(start, Send(w, ByFlush(id), due), limits)
    && LegalRun(called, during, limits) && end == After(called, during, limits)
    && Return(w, id) !in during && Enabled(end, Return(w, id))
    && end.writers[w].rejects == start.writers[w].rejects
  }

  // Every batch the writer had accepted at start has been executed and resolved by end.
  ghost predicate ResolvedBy(start: System, end: System, w: nat) {
    && w in start.writers && w in end.writers && |end.workers| > 0
    && start.writers[w].accepted <= BatchesOf(LaneOf(end, w).executed)
  }

  lemma FlushWaits(start: System, called: System, during: seq<Action>, end: System, due: bool, limits: Limits, w: nat,
                   id: nat)
    requires Inv(start, limits) && FlushRun(start, called, during, end, due, limits, w, id)
    ensures ResolvedBy(start, end, w)
  {
    hide Next; hide After; hide LaneInv; hide LegalRun; hide MaySend; hide MayReturn; hide PacksOf; hide Numbered;
    hide BatchesOf;
    FlushCalled(start, w, id, due, limits);
    RunSince(called, during, limits, w, id);
    StepKeepsInv(start, Send(w, ByFlush(id), due), limits);
    RunKeepsInv(called, during, limits);
    LaneFlushed(end, w, id, limits);
  }

  // A Flush called after any run, and any run after that until it returns: if none of the writer's
  // submissions was rejected since the call, every batch accepted before the call is resolved.
  lemma FlushBarrier(sys: System, before: seq<Action>, called: System, during: seq<Action>, end: System, due: bool,
                     limits: Limits, w: nat, id: nat)
    requires Started(sys) && LegalRun(sys, before, limits)
    requires FlushRun(After(sys, before, limits), called, during, end, due, limits, w, id)
    ensures ResolvedBy(After(sys, before, limits), end, w)
  {
    StartedInv(sys, limits);
    RunKeepsInv(sys, before, limits);
    FlushWaits(After(sys, before, limits), called, during, end, due, limits, w, id);
  }

  lemma FlushCalled(sys: System, w: nat, id: nat, due: bool, limits: Limits)
    requires Enabled(sys, Send(w, ByFlush(id), due))
    ensures var t := Next(sys, Send(w, ByFlush(id), due), limits);
            && w in t.writers && t.writers[w].accepted == sys.writers[w].accepted && id in t.writers[w].flushes
            && t.writers[w].flushes[id].batches == |sys.writers[w].accepted|
            && t.writers[w].flushes[id].rejects == sys.writers[w].rejects
  {
    hide PacksOf; hide Obtain;
  }

  lemma LaneFlushed(sys: System, w: nat, id: nat, limits: Limits)
    requires Enabled(sys, Return(w, id)) && LaneInv(LaneOf(sys, w), limits)
    requires sys.writers[w].rejects == sys.writers[w].flushes[id].rejects
    ensures Flushed(LaneOf(sys, w), sys.writers[w].flushes[id])
  {
    hide PacksOf; hide LaneInv;
    FlushComplete(LaneOf(sys, w), limits, id);
  }

  // Batches the flush waits for are unresolved, and none of them is in the pool.
  ghost predicate Stranded(sys: System, w: nat, id: nat) {
    && w in sys.writers && id in sys.writers[w].flushes && |sys.workers| > 0
    && ResolvedCount(LaneOf(sys, w)) < sys.writers[w].flushes[id].batches && LaneOf(sys, w).tasks == []
  }

  // The condition on rejections matters. For a writer with nothing in the pool, a flush may return
  // at once exactly when nothing was waiting or the pool is full; in the second case it returns
  // with batches unresolved, and nothing is left that would send them.
  lemma FlushAtOnceIff(sys: System, t: System, w: nat, id: nat, due: bool, limits: Limits)
    requires Inv(sys, limits) && w in sys.writers && Enabled(sys, Send(w, ByFlush(id), due))
    requires sys.writers[w].count == 0 && !IsFinishing(LaneOf(sys, w))
    requires t == Next(sys, Send(w, ByFlush(id), due), limits)
    ensures Enabled(t, Return(w, id)) <==> Obtain(sys.writers[w].queue, true).ready == [] || !PoolAccepts(sys, w)
    ensures Enabled(t, Return(w, id)) && Waiting(sys.writers[w].queue) != [] ==> Stranded(t, w, id)
  {
    hide PacksOf; hide Obtain; hide Waiting; hide BatchesOf; hide LaneInv; hide SendLane; hide MayReturn;
    hide PoolAccepts;
    hide MaySend; hide ResolvedCount; hide Routed; hide Numbered;
    assert LaneInv(LaneOf(sys, w), limits);
    SendLanes(sys, w, ByFlush(id), due, limits, w);
    hide Next; hide Inv;
    QuietLane(LaneOf(sys, w), id, due, PoolAccepts(sys, w), limits);
  }
}
