/**
The runs in which a Flush (client/src/shard_writer.cpp:70-77) that was not assured returns too early:
a writer that shares the worker refills its queue whenever one of the flushed writer's tasks is
taken out, so that the flushed writer's next pack is refused until nothing of it is in the pool. The
pool is shared by all producers of a topic (client/src/meta_cache.cpp), so that writer may be another
producer's for the same shard.
*/
module FlushStranding {
  import opened Collections
  import opened FlushBarriers
  import opened Pipeline
  import opened RecordPacks
  import opened WriterLanes

  // Something the flush waits for is not resolved.
  ghost predicate Unresolved(sys: System, w: nat, id: nat) {
    && w in sys.writers && |sys.workers| > 0 && id in sys.writers[w].flushes
    && ResolvedCount(LaneOf(sys, w)) < sys.writers[w].flushes[id].batches
  }

  // Some run leads to where the flush may return all the same.
  ghost predicate Strands(sys: System, limits: Limits, w: nat, id: nat) {
    exists run :: StrandsAfter(sys, run, limits, w, id)
  }

  ghost predicate StrandsAfter(sys: System, run: seq<Action>, limits: Limits, w: nat, id: nat) {
    Returns(sys, run, limits, w, id) && Unresolved(After(sys, run, limits), w, id)
  }

  lemma StrandsBack(sys: System, a: Action, limits: Limits, w: nat, id: nat)
    requires Enabled(sys, a) && a != Return(w, id) && Strands(Next(sys, a, limits), limits, w, id)
    ensures Strands(sys, limits, w, id)
  {
    hide Enabled; hide Next; hide Unresolved;
    var run :| StrandsAfter(Next(sys, a, limits), run, limits, w, id);
    assert ([a] + run)[1..] == run;
    assert StrandsAfter(sys, [a] + run, limits, w, id);
  }

  // ---------------------------------------------------------------- under pressure

  // The flush of w waits for packs that are ready and not submitted, and v shares the worker.
  ghost predicate Pressed(sys: System, limits: Limits, w: nat, v: nat, id: nat) {
    && |sys.workers| > 0 && Inv(sys, limits) && w in sys.writers && v in sys.writers && v != w
    && WorkerOf(sys, v) == WorkerOf(sys, w)
    && Behind(sys.writers[w], id)
  }

  ghost predicate Behind(x: Writer<nat>, id: nat) {
    && x.lock.Free? && id in x.flushes && x.flushes[id].waiting && x.queue.ready != []
    && |BatchesOf(x.submitted)| < x.flushes[id].batches
  }

  // Only the counts of w have changed, and nobody's key.
  ghost predicate KeptFor(sys: System, t: System, w: nat)
    requires w in sys.writers
  {
    && t.writers.Keys == sys.writers.Keys && |t.workers| == |sys.workers| && t.poolLimit == sys.poolLimit
    && (forall v :: v in sys.writers ==> t.writers[v].key == sys.writers[v].key)
    && t.writers[w] == sys.writers[w].(count := t.writers[w].count, rejects := t.writers[w].rejects)
  }

  lemma StillPressed(sys: System, a: Action, limits: Limits, w: nat, v: nat, id: nat)
    requires Pressed(sys, limits, w, v, id) && Enabled(sys, a) && KeptFor(sys, Next(sys, a, limits), w)
    ensures Pressed(Next(sys, a, limits), limits, w, v, id)
  {
    hide Inv; hide Enabled; hide Next; hide BatchesOf;
    StepKeepsInv(sys, a, limits);
  }

  // The worker of w.
  function Its(sys: System, w: nat): Worker
    requires w in sys.writers && |sys.workers| > 0
  {
    sys.workers[WorkerOf(sys, w)]
  }

  // Behind the first n tasks there is none of w.
  ghost predicate Tail(worker: Worker, w: nat, n: nat) {
    forall i :: n <= i < |worker.tasks| ==> worker.tasks[i].writer != w
  }

  function Stage(worker: Worker): nat {
    if worker.busy.None? then 0
    else match worker.busy.value.1
         case Finishing => 1
         case Resolved => 2
         case Executing => 3
  }

  function Gap(sys: System, worker: Worker): nat {
    if |worker.tasks| < sys.poolLimit then sys.poolLimit - |worker.tasks| else 0
  }

  predicate Idle(q: Queue<nat>) {
    q.ready == [] && q.current.None?
  }

  // What is left to do before the worker, or v, can submit.
  function Chores(sys: System, w: nat, v: nat): nat
    requires w in sys.writers && v in sys.writers && |sys.workers| > 0
  {
    var worker := Its(sys, w);
    if Stage(worker) != 1 then 0
    else if worker.busy.value.0.writer == w then
      (if sys.writers[v].lock.Submitted? then 2 else 0) + if Idle(sys.writers[v].queue) then 1 else 0
    else if worker.busy.value.0.writer in sys.writers then
      match sys.writers[worker.busy.value.0.writer].lock
      case Free => 1
      case Submitted(ByDone) => 0
      case _ => 2
    else 0
  }

  // The step leads on: it keeps w, and leaves less to do.
  ghost predicate LeadsOn(sys: System, t: System, w: nat, v: nat, n: nat) {
    && w in sys.writers && v in sys.writers && |sys.workers| > 0
    && KeptFor(sys, t, w) && Tail(Its(t, w), w, n)
    && var before, after := Its(sys, w), Its(t, w);
       || Stage(after) < Stage(before)
       || (Stage(after) == Stage(before)
           && (Gap(t, after) < Gap(sys, before)
               || (Gap(t, after) == Gap(sys, before) && Chores(t, w, v) < Chores(sys, w, v))))
  }

  // ---------------------------------------------------------------- nothing of w is left in the pool

  lemma {:induction false} NoPacks(tasks: seq<Task>, w: nat)
    requires forall i :: 0 <= i < |tasks| ==> tasks[i].writer != w
    ensures PacksOf(tasks, w) == []
  {
    if tasks != [] {
      NoPacks(tasks[..|tasks| - 1], w);
    }
  }

  lemma ExecutedFewer(l: Lane<nat>, limits: Limits)
    requires LaneInv(l, limits)
    ensures ResolvedCount(l) <= |BatchesOf(l.w.submitted)|
  {
    BatchesOfConcat(l.executed, InExecution(l) + l.tasks);
    assert l.w.submitted == l.executed + (InExecution(l) + l.tasks);
  }

  lemma LeftAlone(sys: System, limits: Limits, w: nat, id: nat)
    requires |sys.workers| > 0 && Inv(sys, limits) && w in sys.writers && Behind(sys.writers[w], id)
    requires Its(sys, w).busy.None? && Tail(Its(sys, w), w, 0)
    ensures Strands(sys, limits, w, id)
  {
    NoPacks(Its(sys, w).tasks, w);
    assert LaneInv(LaneOf(sys, w), limits);
    hide PacksOf; hide BatchesOf;
    ExecutedFewer(LaneOf(sys, w), limits);
    assert MayReturn(LaneOf(sys, w), id);
    assert LegalRun(sys, [], limits) && After(sys, [], limits) == sys;
    assert StrandsAfter(sys, [], limits, w, id);
  }

  // ---------------------------------------------------------------- what the steps change

  // The step keeps w and changes its worker to this.
  ghost predicate Moves(sys: System, t: System, w: nat, worker: Worker)
    requires w in sys.writers && |sys.workers| > 0
  {
    KeptFor(sys, t, w) && Its(t, w) == worker
  }

  lemma WorkerMoves(sys: System, limits: Limits, w: nat)
    requires w in sys.writers && |sys.workers| > 0
    ensures var k, worker := WorkerOf(sys, w), Its(sys, w);
            && (Enabled(sys, Begin(k)) ==>
                  Moves(sys, Next(sys, Begin(k), limits), w,
                        Worker(worker.tasks[1..], Some((worker.tasks[0], Executing)), worker.executed)))
            && (Enabled(sys, Resolve(k)) ==>
                  Moves(sys, Next(sys, Resolve(k), limits), w,
                        Worker(worker.tasks, Some((worker.busy.value.0, Resolved)),
                               worker.executed + [worker.busy.value.0])))
            && (Enabled(sys, Finish(k)) ==>
                  Moves(sys, Next(sys, Finish(k), limits), w,
                        Worker(worker.tasks, Some((worker.busy.value.0, Finishing)), worker.executed)))
  {
    hide PacksOf; hide MaySend; hide MayReturn;
  }

  lemma WriteMoves(sys: System, limits: Limits, w: nat, v: nat, records: seq<Record>)
    requires w in sys.writers && v in sys.writers && v != w && |sys.workers| > 0
    ensures var a := Write(v, records, false); var t := Next(sys, a, limits);
            && Enabled(sys, a) && Moves(sys, t, w, Its(sys, w)) && t.writers[v].lock == sys.writers[v].lock
            && (sys.writers[v].queue.current.None? ==> !Idle(t.writers[v].queue))
  {
    hide PacksOf; hide MaySend; hide MayReturn; hide TryAppend; hide Takes;
  }

  lemma CountMoves(sys: System, limits: Limits, w: nat, x: nat)
    requires w in sys.writers && x in sys.writers && x != w && |sys.workers| > 0 && WorkerOf(sys, x) == WorkerOf(sys, w)
    requires sys.writers[x].lock.Submitted?
    ensures var t := Next(sys, Count(x), limits);
            && Enabled(sys, Count(x)) && Moves(sys, t, w, Freed(Its(sys, w), sys.writers[x].lock.actor))
            && t.writers[x].lock.Free?
  {
    hide PacksOf; hide MaySend; hide MayReturn; hide Pop;
  }

  lemma SendMoves(sys: System, limits: Limits, w: nat, x: nat, actor: Actor, due: bool)
    requires w in sys.writers && x in sys.writers && x != w && |sys.workers| > 0 && WorkerOf(sys, x) == WorkerOf(sys, w)
    requires MaySend(LaneOf(sys, x), actor)
    ensures var a := Send(x, actor, due); var t := Next(sys, a, limits);
            var ready := Obtain(sys.writers[x].queue, actor.ByFlush? || due).ready;
            && Enabled(sys, a)
            && (ready != [] && PoolAccepts(sys, w) ==>
                  && t.writers[x].lock == Submitted(actor)
                  && Moves(sys, t, w, Its(sys, w).(tasks := Its(sys, w).tasks + [Task(x, ready[0])])))
            && (!(ready != [] && PoolAccepts(sys, w)) ==> Moves(sys, t, w, Freed(Its(sys, w), actor)))
  {
    hide PacksOf; hide MayReturn; hide Obtain;
  }

  // ---------------------------------------------------------------- the worker goes on

  lemma CanBegin(sys: System, w: nat)
    requires w in sys.writers && |sys.workers| > 0 && Its(sys, w).busy.None? && Its(sys, w).tasks != []
    ensures Enabled(sys, Begin(WorkerOf(sys, w)))
  {
    hide PacksOf; hide MaySend; hide MayReturn;
  }

  lemma BeginsNext(sys: System, limits: Limits, w: nat, n: nat)
    requires w in sys.writers && |sys.workers| > 0 && Enabled(sys, Begin(WorkerOf(sys, w)))
    requires n > 0 && Tail(Its(sys, w), w, n) && Its(sys, w).tasks != []
    ensures var t := Next(sys, Begin(WorkerOf(sys, w)), limits); KeptFor(sys, t, w) && Tail(Its(t, w), w, n - 1)
  {
    WorkerMoves(sys, limits, w);
    hide Next; hide Enabled;
  }

  lemma StageLeads(sys: System, t: System, w: nat, v: nat, n: nat, worker: Worker)
    requires w in sys.writers && v in sys.writers && |sys.workers| > 0 && Moves(sys, t, w, worker)
    requires Tail(worker, w, n) && Stage(worker) < Stage(Its(sys, w))
    ensures LeadsOn(sys, t, w, v, n)
  {
  }

  lemma GapLeads(sys: System, t: System, w: nat, v: nat, n: nat, worker: Worker)
    requires w in sys.writers && v in sys.writers && |sys.workers| > 0 && Moves(sys, t, w, worker)
    requires Tail(worker, w, n) && Stage(worker) == Stage(Its(sys, w)) && Gap(sys, worker) < Gap(sys, Its(sys, w))
    ensures LeadsOn(sys, t, w, v, n)
  {
  }

  lemma ChoreLeads(sys: System, t: System, w: nat, v: nat, n: nat)
    requires w in sys.writers && v in sys.writers && |sys.workers| > 0 && Moves(sys, t, w, Its(sys, w))
    requires Tail(Its(sys, w), w, n) && Chores(t, w, v) < Chores(sys, w, v)
    ensures LeadsOn(sys, t, w, v, n)
  {
  }

  // The worker's next step with a task it has not finished.
  function Work(sys: System, w: nat): Action
    requires w in sys.writers && |sys.workers| > 0
  {
    if Stage(Its(sys, w)) == 3 then Resolve(WorkerOf(sys, w)) else Finish(WorkerOf(sys, w))
  }

  lemma CanWork(sys: System, w: nat)
    requires w in sys.writers && Routed(sys) && Stage(Its(sys, w)) >= 2
    ensures Enabled(sys, Work(sys, w))
  {
    assert WorkerRouted(sys, WorkerOf(sys, w));
    hide PacksOf; hide MaySend; hide MayReturn;
  }

  lemma WorksOn(sys: System, limits: Limits, w: nat, v: nat, n: nat)
    requires w in sys.writers && v in sys.writers && |sys.workers| > 0 && Enabled(sys, Work(sys, w))
    requires Stage(Its(sys, w)) >= 2 && Tail(Its(sys, w), w, n)
    ensures LeadsOn(sys, Next(sys, Work(sys, w), limits), w, v, n)
  {
    WorkerMoves(sys, limits, w);
    hide Next; hide Enabled; hide LeadsOn; hide Moves; hide Tail;
    var worker, t := Its(sys, w), Next(sys, Work(sys, w), limits);
    var task := worker.busy.value.0;
    if Stage(worker) == 3 {
      var after := Worker(worker.tasks, Some((task, Resolved)), worker.executed + [task]);
      SameTail(worker, after, w, n);
      StageLeads(sys, t, w, v, n, after);
    } else {
      var after := Worker(worker.tasks, Some((task, Finishing)), worker.executed);
      SameTail(worker, after, w, n);
      StageLeads(sys, t, w, v, n, after);
    }
  }

  lemma SameTail(a: Worker, b: Worker, w: nat, n: nat)
    requires a.tasks == b.tasks && Tail(a, w, n)
    ensures Tail(b, w, n)
  {
  }

  // ---------------------------------------------------------------- another writer's task is done

  lemma OtherDone(sys: System, limits: Limits, w: nat, v: nat, x: nat, n: nat)
    requires w in sys.writers && v in sys.writers && |sys.workers| > 0 && Stage(Its(sys, w)) == 1
    requires x in sys.writers && x != w && WorkerOf(sys, x) == WorkerOf(sys, w)
    requires Its(sys, w).busy.value.0.writer == x && Tail(Its(sys, w), w, n)
    ensures var a := if sys.writers[x].lock.Submitted? then Count(x) else Send(x, ByDone, false);
            Enabled(sys, a) && LeadsOn(sys, Next(sys, a, limits), w, v, n)
  {
    hide PacksOf; hide Obtain; hide Next; hide LeadsOn;
    if sys.writers[x].lock.Submitted? {
      CountsOff(sys, limits, w, v, x, n);
    } else {
      assert MaySend(LaneOf(sys, x), ByDone);
      hide MaySend;
      Passes(sys, limits, w, v, x, n);
    }
  }

  lemma CountsOff(sys: System, limits: Limits, w: nat, v: nat, x: nat, n: nat)
    requires w in sys.writers && v in sys.writers && |sys.workers| > 0 && Stage(Its(sys, w)) == 1
    requires x in sys.writers && x != w && WorkerOf(sys, x) == WorkerOf(sys, w)
    requires Its(sys, w).busy.value.0.writer == x && Tail(Its(sys, w), w, n) && sys.writers[x].lock.Submitted?
    ensures Enabled(sys, Count(x)) && LeadsOn(sys, Next(sys, Count(x), limits), w, v, n)
  {
    CountMoves(sys, limits, w, x);
    hide Next; hide Enabled; hide LeadsOn;
    var t := Next(sys, Count(x), limits);
    if sys.writers[x].lock.actor.ByDone? {
      StageLeads(sys, t, w, v, n, Its(sys, w).(busy := None));
    } else {
      ChoreLeads(sys, t, w, v, n);
    }
  }

  // A worker with another writer's task done sends for that writer.
  lemma Passes(sys: System, limits: Limits, w: nat, v: nat, x: nat, n: nat)
    requires w in sys.writers && v in sys.writers && |sys.workers| > 0 && Stage(Its(sys, w)) == 1
    requires x in sys.writers && x != w && WorkerOf(sys, x) == WorkerOf(sys, w) && MaySend(LaneOf(sys, x), ByDone)
    requires Tail(Its(sys, w), w, n)
    ensures var a := Send(x, ByDone, false); Enabled(sys, a) && LeadsOn(sys, Next(sys, a, limits), w, v, n)
  {
    SendMoves(sys, limits, w, x, ByDone, false);
    hide Next; hide Enabled; hide LaneOf; hide LeadsOn; hide Moves; hide Obtain; hide MaySend;
    var t, worker := Next(sys, Send(x, ByDone, false), limits), Its(sys, w);
    var ready := Obtain(sys.writers[x].queue, false).ready;
    if ready != [] && PoolAccepts(sys, w) {
      GapLeads(sys, t, w, v, n, worker.(tasks := worker.tasks + [Task(x, ready[0])]));
    } else {
      StageLeads(sys, t, w, v, n, worker.(busy := None));
    }
  }

  // ---------------------------------------------------------------- a task of w is done

  // With the worker's queue full, the next pack of w is refused.
  lemma RefusedAgain(sys: System, limits: Limits, w: nat, v: nat, id: nat, n: nat)
    requires Pressed(sys, limits, w, v, id) && Stage(Its(sys, w)) == 1 && Tail(Its(sys, w), w, n)
    requires Its(sys, w).busy.value.0.writer == w && !PoolAccepts(sys, w)
    ensures var a := Send(w, ByDone, false); Enabled(sys, a) && LeadsOn(sys, Next(sys, a, limits), w, v, n)
  {
    hide Inv; hide BatchesOf; hide PacksOf; hide LeadsOn;
    assert MaySend(LaneOf(sys, w), ByDone);
    assert Obtain(sys.writers[w].queue, false) == sys.writers[w].queue;
    var t := Next(sys, Send(w, ByDone, false), limits);
    assert Moves(sys, t, w, Its(sys, w).(busy := None));
    hide Next; hide Moves;
    StageLeads(sys, t, w, v, n, Its(sys, w).(busy := None));
  }

  // Until it is, v submits.
  function Refill(sys: System, v: nat): Action
    requires v in sys.writers
  {
    if sys.writers[v].lock.Submitted? then Count(v)
    else if Idle(sys.writers[v].queue) then Write(v, [Record("r", 1)], false)
    else Send(v, ByWrite, true)
  }

  lemma NotByDone(sys: System, limits: Limits, w: nat, v: nat, id: nat)
    requires Pressed(sys, limits, w, v, id) && Stage(Its(sys, w)) == 1 && Its(sys, w).busy.value.0.writer == w
    ensures sys.writers[v].lock.Submitted? ==> !sys.writers[v].lock.actor.ByDone?
  {
    assert LaneInv(LaneOf(sys, v), limits);
    hide PacksOf; hide Orderly; hide Flushing; hide FlushEntering;
  }

  lemma Refills(sys: System, limits: Limits, w: nat, v: nat, id: nat, n: nat)
    requires Pressed(sys, limits, w, v, id) && Stage(Its(sys, w)) == 1 && Tail(Its(sys, w), w, n)
    requires Its(sys, w).busy.value.0.writer == w && PoolAccepts(sys, w)
    ensures Enabled(sys, Refill(sys, v)) && LeadsOn(sys, Next(sys, Refill(sys, v), limits), w, v, n)
  {
    NotByDone(sys, limits, w, v, id);
    var worker, x, a := Its(sys, w), sys.writers[v], Refill(sys, v);
    hide Inv; hide Behind; hide PacksOf; hide Next; hide Obtain;
    if x.lock.Submitted? {
      CountMoves(sys, limits, w, v);
      hide LeadsOn;
      ChoreLeads(sys, Next(sys, a, limits), w, v, n);
    } else if Idle(x.queue) {
      WriteMoves(sys, limits, w, v, [Record("r", 1)]);
      hide LeadsOn;
      ChoreLeads(sys, Next(sys, a, limits), w, v, n);
    } else {
      assert MaySend(LaneOf(sys, v), ByWrite);
      hide LeadsOn; hide MaySend;
      Submits(sys, limits, w, v, n);
    }
  }

  lemma Submits(sys: System, limits: Limits, w: nat, v: nat, n: nat)
    requires w in sys.writers && v in sys.writers && |sys.workers| > 0 && Tail(Its(sys, w), w, n)
    requires v != w && WorkerOf(sys, v) == WorkerOf(sys, w) && MaySend(LaneOf(sys, v), ByWrite)
    requires PoolAccepts(sys, w) && !Idle(sys.writers[v].queue)
    ensures var a := Send(v, ByWrite, true); Enabled(sys, a) && LeadsOn(sys, Next(sys, a, limits), w, v, n)
  {
    var worker, queue := Its(sys, w), sys.writers[v].queue;
    FoundSome(queue);
    SendMoves(sys, limits, w, v, ByWrite, true);
    hide Next; hide Enabled; hide LaneOf; hide LeadsOn; hide Moves; hide Obtain; hide MaySend; hide Idle;
    var ready := Obtain(queue, true).ready;
    GapLeads(sys, Next(sys, Send(v, ByWrite, true), limits), w, v, n,
             worker.(tasks := worker.tasks + [Task(v, ready[0])]));
  }

  lemma FoundSome(q: Queue<nat>)
    ensures Obtain(q, true).ready == [] <==> Idle(q)
  {
  }

  // ---------------------------------------------------------------- the whole run

  // The step that leads on, while the worker has a task in hand.
  function Onward(sys: System, w: nat, v: nat): Action
    requires w in sys.writers && v in sys.writers && |sys.workers| > 0 && Its(sys, w).busy.Some?
    requires Its(sys, w).busy.value.0.writer in sys.writers
  {
    var x := Its(sys, w).busy.value.0.writer;
    if Stage(Its(sys, w)) >= 2 then Work(sys, w)
    else if x != w then if sys.writers[x].lock.Submitted? then Count(x) else Send(x, ByDone, false)
    else if PoolAccepts(sys, w) then Refill(sys, v)
    else Send(w, ByDone, false)
  }

  lemma BusyRouted(sys: System, w: nat)
    requires w in sys.writers && Routed(sys) && Its(sys, w).busy.Some?
    ensures var x := Its(sys, w).busy.value.0.writer; x in sys.writers && WorkerOf(sys, x) == WorkerOf(sys, w)
  {
    assert WorkerRouted(sys, WorkerOf(sys, w));
  }

  lemma OnwardLeads(sys: System, limits: Limits, w: nat, v: nat, id: nat, n: nat)
    requires Pressed(sys, limits, w, v, id) && Its(sys, w).busy.Some? && Tail(Its(sys, w), w, n)
    ensures Its(sys, w).busy.value.0.writer in sys.writers
    ensures var a := Onward(sys, w, v); Enabled(sys, a) && !a.Return? && LeadsOn(sys, Next(sys, a, limits), w, v, n)
  {
    BusyRouted(sys, w);
    hide LeadsOn; hide Next; hide Enabled; hide LaneInv; hide Numbered; hide Behind; hide Tail; hide WorkerRouted;
    if Stage(Its(sys, w)) >= 2 {
      CanWork(sys, w);
      WorksOn(sys, limits, w, v, n);
    } else if Its(sys, w).busy.value.0.writer != w {
      OtherDone(sys, limits, w, v, Its(sys, w).busy.value.0.writer, n);
    } else if PoolAccepts(sys, w) {
      Refills(sys, limits, w, v, id, n);
    } else {
      RefusedAgain(sys, limits, w, v, id, n);
    }
  }

  // Under pressure the flush can come to return with something unresolved.
  lemma {:induction false} PressureStrands(sys: System, limits: Limits, w: nat, v: nat, id: nat, n: nat)
    requires Pressed(sys, limits, w, v, id) && Tail(Its(sys, w), w, n)
    ensures Strands(sys, limits, w, id)
    decreases n, Stage(Its(sys, w)), Gap(sys, Its(sys, w)), Chores(sys, w, v)
  {
    hide Strands; hide Next; hide Enabled; hide Inv; hide Behind; hide Chores; hide Gap;
    if Its(sys, w).busy.Some? {
      OnwardLeads(sys, limits, w, v, id, n);
      var a := Onward(sys, w, v);
      StillPressed(sys, a, limits, w, v, id);
      PressureStrands(Next(sys, a, limits), limits, w, v, id, n);
      StrandsBack(sys, a, limits, w, id);
    } else if n == 0 || Its(sys, w).tasks == [] {
      LeftAlone(sys, limits, w, id);
    } else {
      var a := Begin(WorkerOf(sys, w));
      CanBegin(sys, w);
      BeginsNext(sys, limits, w, n);
      StillPressed(sys, a, limits, w, v, id);
      PressureStrands(Next(sys, a, limits), limits, w, v, id, n - 1);
      StrandsBack(sys, a, limits, w, id);
    }
  }

  // ---------------------------------------------------------------- what every run keeps

  // No pack is queued without a batch.
  ghost predicate Filled(q: Queue<nat>) {
    && (forall i :: 0 <= i < |q.ready| ==> q.ready[i].batches != [])
    && (q.current.Some? ==> q.current.value.batches != [])
  }

  // A pool without room for a task never has one.
  ghost predicate Roomless(sys: System) {
    sys.poolLimit == 0 ==> forall k :: 0 <= k < |sys.workers| ==>
        sys.workers[k].tasks == [] && sys.workers[k].busy.None?
  }

  ghost predicate AllFilled(sys: System) {
    forall w :: w in sys.writers ==> Filled(sys.writers[w].queue)
  }

  lemma AppendFills(q: Queue<nat>, b: Batch<nat>, overdue: bool, limits: Limits)
    requires Filled(q)
    ensures Filled(Append(q, b, overdue, limits))
  {
    TakesFirst(b, limits);
    hide Takes;
  }

  lemma StepFills(sys: System, a: Action, limits: Limits)
    requires Enabled(sys, a) && AllFilled(sys)
    ensures AllFilled(Next(sys, a, limits))
  {
    hide PacksOf; hide Append; hide MaySend; hide MayReturn;
    if a.Write? {
      AppendFills(sys.writers[a.w].queue, NextBatch(sys.writers[a.w], a.records), a.overdue, limits);
    }
    hide Filled;
    if !a.Write? {
      forall w | w in sys.writers
        ensures Filled(Next(sys, a, limits).writers[w].queue)
      {
        ShrinksFilled(sys.writers[w].queue);
      }
    }
  }

  lemma ShrinksFilled(q: Queue<nat>)
    requires Filled(q)
    ensures Filled(Obtain(q, true)) && Filled(Obtain(q, false)) && Filled(Pop(q))
  {
  }

  lemma StepRoomless(sys: System, a: Action, limits: Limits)
    requires Enabled(sys, a) && Roomless(sys)
    ensures Roomless(Next(sys, a, limits))
  {
    hide PacksOf; hide Append; hide MayReturn; hide Obtain; hide Pop;
  }

  lemma {:induction false} RunKeepsFilled(sys: System, run: seq<Action>, limits: Limits)
    requires LegalRun(sys, run, limits) && AllFilled(sys) && Roomless(sys)
    ensures AllFilled(After(sys, run, limits)) && Roomless(After(sys, run, limits))
    decreases |run|
  {
    hide Enabled; hide Next; hide AllFilled; hide Roomless;
    if run != [] {
      StepFills(sys, run[0], limits);
      StepRoomless(sys, run[0], limits);
      RunKeepsFilled(Next(sys, run[0], limits), run[1..], limits);
    }
  }

  // ---------------------------------------------------------------- calling a flush that is not assured

  lemma FoundBatches(l: Lane<nat>, limits: Limits)
    requires LaneInv(l, limits) && l.w.lock.Free? && Filled(l.w.queue)
    ensures var ready := Obtain(l.w.queue, true).ready;
            && |l.w.accepted| == |BatchesOf(l.w.submitted)| + |BatchesOf(ready)|
            && forall i :: 0 <= i < |ready| ==> ready[i].batches != []
  {
    ObtainConserves(l.w.queue, true, limits);
    ShrinksFilled(l.w.queue);
    hide BatchesOf;
    var q := Obtain(l.w.queue, true);
    assert Waiting(q) == BatchesOf(q.ready) + [];
  }

  lemma FrontBatches(packs: seq<Pack<nat>>)
    requires packs != []
    ensures |BatchesOf(packs)| == |packs[0].batches| + |BatchesOf(packs[1..])|
  {
    BatchesOfConcat([packs[0]], packs[1..]);
    BatchesOfOne(packs[0]);
    assert [packs[0]] + packs[1..] == packs;
  }

  lemma RefusedBehind(l: Lane<nat>, id: nat, due: bool, limits: Limits)
    requires LaneInv(l, limits) && MaySend(l, ByFlush(id)) && Filled(l.w.queue) && Obtain(l.w.queue, true).ready != []
    ensures Behind(SendLane(l, ByFlush(id), due, false).w, id)
  {
    FoundBatches(l, limits);
    FrontBatches(Obtain(l.w.queue, true).ready);
    hide BatchesOf; hide LaneInv; hide Obtain; hide Filled;
  }

  lemma AcceptedBehind(l: Lane<nat>, id: nat, due: bool, limits: Limits)
    requires LaneInv(l, limits) && MaySend(l, ByFlush(id)) && Filled(l.w.queue) && |Obtain(l.w.queue, true).ready| > 1
    ensures var s := SendLane(l, ByFlush(id), due, true);
            s.w.lock == Submitted(ByFlush(id)) && Behind(CountLane(s).w, id)
  {
    FoundBatches(l, limits);
    var ready := Obtain(l.w.queue, true).ready;
    FrontBatches(ready);
    FrontBatches(ready[1..]);
    MoreBatches(l.w.submitted, ready[0]);
    hide BatchesOf; hide LaneInv; hide Obtain; hide Filled;
  }

  // A writer that shares the worker.
  lemma NotAlone(sys: System, w: nat) returns (v: nat)
    requires w in sys.writers && |sys.workers| > 0 && !Alone(sys, w)
    ensures v in sys.writers && v != w && WorkerOf(sys, v) == WorkerOf(sys, w)
  {
    v :| v in sys.writers && v != w && WorkerOf(sys, v) == WorkerOf(sys, w);
  }

  lemma SameWorker(sys: System, a: Action, limits: Limits, w: nat, v: nat)
    requires Enabled(sys, a) && w in sys.writers && v in sys.writers && |sys.workers| > 0
    requires WorkerOf(sys, v) == WorkerOf(sys, w)
    ensures var t := Next(sys, a, limits);
            |t.workers| > 0 && w in t.writers && v in t.writers && WorkerOf(t, v) == WorkerOf(t, w)
  {
    StepAlone(sys, a, limits, w);
  }

  lemma NoTail(worker: Worker, w: nat)
    ensures Tail(worker, w, |worker.tasks|)
  {
  }

  lemma RefusedStrands(sys: System, called: System, due: bool, limits: Limits, w: nat, v: nat, id: nat)
    requires Inv(sys, limits) && Calls(sys, called, due, limits, w, id) && w in sys.writers && |sys.workers| > 0
    requires v in sys.writers && v != w && WorkerOf(sys, v) == WorkerOf(sys, w)
    requires Filled(sys.writers[w].queue) && Found(sys, w) != [] && !PoolAccepts(sys, w)
    ensures Strands(called, limits, w, id)
  {
    var call := Send(w, ByFlush(id), due);
    assert LaneInv(LaneOf(sys, w), limits);
    RefusedBehind(LaneOf(sys, w), id, due, limits);
    SendLanes(sys, w, ByFlush(id), due, limits, w);
    SameWorker(sys, call, limits, w, v);
    StepKeepsInv(sys, call, limits);
    hide Next; hide Enabled; hide Inv; hide Behind; hide SendLane; hide LaneInv;
    NoTail(Its(called, w), w);
    PressureStrands(called, limits, w, v, id, |Its(called, w).tasks|);
  }

  lemma CountsThen(called: System, limits: Limits, w: nat, v: nat, id: nat)
    requires Inv(called, limits) && |called.workers| > 0 && w in called.writers && v in called.writers && v != w
    requires WorkerOf(called, v) == WorkerOf(called, w) && called.writers[w].lock.Submitted?
    requires Behind(CountLane(LaneOf(called, w)).w, id)
    ensures Strands(called, limits, w, id)
  {
    assert LaneInv(LaneOf(called, w), limits);
    CountLanes(called, w, limits, w);
    SameWorker(called, Count(w), limits, w, v);
    StepKeepsInv(called, Count(w), limits);
    var counted := Next(called, Count(w), limits);
    hide Next; hide Inv; hide Behind; hide CountLane; hide LaneInv;
    NoTail(Its(counted, w), w);
    PressureStrands(counted, limits, w, v, id, |Its(counted, w).tasks|);
    StrandsBack(called, Count(w), limits, w, id);
  }

  lemma AcceptedStrands(sys: System, called: System, due: bool, limits: Limits, w: nat, v: nat, id: nat)
    requires Inv(sys, limits) && Calls(sys, called, due, limits, w, id) && w in sys.writers && |sys.workers| > 0
    requires v in sys.writers && v != w && WorkerOf(sys, v) == WorkerOf(sys, w)
    requires Filled(sys.writers[w].queue) && |Found(sys, w)| > 1 && PoolAccepts(sys, w)
    ensures Strands(called, limits, w, id)
  {
    var call := Send(w, ByFlush(id), due);
    assert LaneInv(LaneOf(sys, w), limits);
    AcceptedBehind(LaneOf(sys, w), id, due, limits);
    SendLanes(sys, w, ByFlush(id), due, limits, w);
    SameWorker(sys, call, limits, w, v);
    StepKeepsInv(sys, call, limits);
    hide Next; hide Enabled; hide Inv; hide Behind; hide SendLane; hide CountLane; hide LaneInv;
    CountsThen(called, limits, w, v, id);
  }

  lemma RoomlessStrands(sys: System, called: System, due: bool, limits: Limits, w: nat, id: nat)
    requires Inv(sys, limits) && Calls(sys, called, due, limits, w, id) && w in sys.writers && |sys.workers| > 0
    requires Roomless(sys) && sys.poolLimit == 0 && Filled(sys.writers[w].queue) && Found(sys, w) != []
    ensures Strands(called, limits, w, id)
  {
    var call := Send(w, ByFlush(id), due);
    assert LaneInv(LaneOf(sys, w), limits);
    RefusedBehind(LaneOf(sys, w), id, due, limits);
    SendLanes(sys, w, ByFlush(id), due, limits, w);
    StepRoomless(sys, call, limits);
    SameWorker(sys, call, limits, w, w);
    StepAlone(sys, call, limits, w);
    StepKeepsInv(sys, call, limits);
    hide Next; hide Enabled; hide Inv; hide Behind; hide SendLane; hide LaneInv;
    LeftAlone(called, limits, w, id);
  }

  lemma NotAssuredStrands(sys: System, called: System, due: bool, limits: Limits, w: nat, id: nat)
    requires Inv(sys, limits) && Calls(sys, called, due, limits, w, id) && w in sys.writers && |sys.workers| > 0
    requires Roomless(sys) && Filled(sys.writers[w].queue) && !Assured(sys, w)
    ensures Strands(called, limits, w, id)
  {
    hide Inv; hide Calls; hide Filled; hide Roomless; hide Alone; hide Found; hide PoolAccepts; hide Strands;
    if sys.poolLimit == 0 {
      RoomlessStrands(sys, called, due, limits, w, id);
    } else {
      var v := NotAlone(sys, w);
      if PoolAccepts(sys, w) {
        AcceptedStrands(sys, called, due, limits, w, v, id);
      } else {
        RefusedStrands(sys, called, due, limits, w, v, id);
      }
    }
  }

  lemma StrandedIsUnresolved(sys: System, called: System, during: seq<Action>, end: System, due: bool, limits: Limits,
                             w: nat, id: nat)
    requires w in sys.writers && Calls(sys, called, due, limits, w, id) && EndsWith(called, during, end, limits, w, id)
    requires Unresolved(end, w, id)
    ensures !ResolvedBy(sys, end, w)
  {
    FlushCalled(sys, w, id, due, limits);
    hide Next; hide Enabled; hide LegalRun; hide After; hide LaneOf; hide BatchesOf;
    RunSince(called, during, limits, w, id);
  }

  // ---------------------------------------------------------------- the condition is exact

  lemma BarrierIff(sys: System, called: System, due: bool, limits: Limits, w: nat, id: nat)
    requires Inv(sys, limits) && Calls(sys, called, due, limits, w, id) && w in sys.writers && |sys.workers| > 0
    requires Roomless(sys) && Filled(sys.writers[w].queue)
    ensures AlwaysBarrier(sys, due, limits, w, id) <==> Assured(sys, w)
  {
    hide Inv; hide Enabled; hide Next; hide LegalRun; hide After; hide Assured; hide ResolvedBy; hide Unresolved;
    if Assured(sys, w) {
      forall during | Returns(called, during, limits, w, id)
        ensures ResolvedBy(sys, After(called, during, limits), w)
      {
        AssuredReturns(sys, called, due, during, After(called, during, limits), limits, w, id);
      }
    } else {
      NotAssuredStrands(sys, called, due, limits, w, id);
      var during :| StrandsAfter(called, during, limits, w, id);
      StrandedIsUnresolved(sys, called, during, After(called, during, limits), due, limits, w, id);
    }
  }

  lemma StartedFilled(start: System)
    requires Started(start)
    ensures AllFilled(start) && Roomless(start)
  {
  }

  // A flush called after any run is a barrier -- in every run that follows it returns only with all
  // that was accepted before it resolved -- if and only if it finds nothing to send, or one pack and
  // room for it, or no other writer uses its worker and the pool has room for tasks at all.
  lemma FlushBarrierIff(start: System, before: seq<Action>, sys: System, due: bool, limits: Limits, w: nat, id: nat)
    requires Started(start) && LegalRun(start, before, limits) && sys == After(start, before, limits)
    requires Enabled(sys, Send(w, ByFlush(id), due)) && w in sys.writers && |sys.workers| > 0
    ensures AlwaysBarrier(sys, due, limits, w, id) <==>
            || Found(sys, w) == []
            || (|Found(sys, w)| == 1 && PoolAccepts(sys, w))
            || (Alone(sys, w) && sys.poolLimit > 0)
  {
    StartedInv(start, limits);
    StartedFilled(start);
    hide Inv; hide LegalRun; hide After; hide AlwaysBarrier; hide Next; hide LaneOf; hide Enabled; hide Filled;
    hide Roomless; hide Started; hide Alone; hide Found; hide PoolAccepts;
    RunKeepsInv(start, before, limits);
    RunKeepsFilled(start, before, limits);
    BarrierIff(sys, Next(sys, Send(w, ByFlush(id), due), limits), due, limits, w, id);
  }
}
