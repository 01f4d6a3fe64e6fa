/**
When a Flush (client/src/shard_writer.cpp:70-77) is a barrier: what its caller could see beforehand
that makes it return, in every run, only with everything resolved that had been accepted before.
*/
module FlushBarriers {
  import opened Collections
  import opened Pipeline
  import opened RecordPacks
  import opened WriterLanes

  // ---------------------------------------------------------------- the two sides

  // A run from the flush's call on, at whose end it may return.
  ghost predicate Returns(called: System, during: seq<Action>, limits: Limits, w: nat, id: nat) {
    LegalRun(called, during, limits) && Return(w, id) !in during
      && Enabled(After(called, during, limits), Return(w, id))
  }

  // Whatever happens, when the flush may return, all that was accepted before it is resolved.
  ghost predicate AlwaysBarrier(sys: System, due: bool, limits: Limits, w: nat, id: nat)
    requires Enabled(sys, Send(w, ByFlush(id), due))
  {
    var called := Next(sys, Send(w, ByFlush(id), due), limits);
    forall during :: Returns(called, during, limits, w, id) ==> ResolvedBy(sys, After(called, during, limits), w)
  }

  // No other writer's tasks go to this writer's worker.
  ghost predicate Alone(sys: System, w: nat)
    requires w in sys.writers && |sys.workers| > 0
  {
    forall v :: v in sys.writers && v != w ==> WorkerOf(sys, v) != WorkerOf(sys, w)
  }

  // The packs a flush finds ready, having moved the current one to them.
  function Found(sys: System, w: nat): seq<Pack<nat>>
    requires w in sys.writers
  {
    Obtain(sys.writers[w].queue, true).ready
  }

  ghost predicate Assured(sys: System, w: nat)
    requires w in sys.writers && |sys.workers| > 0
  {
    || Found(sys, w) == []
    || (|Found(sys, w)| == 1 && PoolAccepts(sys, w))
    || (Alone(sys, w) && sys.poolLimit > 0)
  }

  // ---------------------------------------------------------------- everything sent at once

  // The packs whose submission has been counted.
  function CountedPacks<P>(w: Writer<P>): seq<Pack<P>> {
    if w.lock.Submitted? && w.submitted != [] then w.submitted[..|w.submitted| - 1] else w.submitted
  }

  // All the flush waits for is submitted, and counted once it has come to wait.
  ghost predicate Covered<P>(w: Writer<P>, id: nat) {
    && id in w.flushes && w.flushes[id].batches <= |BatchesOf(w.submitted)|
    && (w.flushes[id].waiting ==> w.flushes[id].batches <= |BatchesOf(CountedPacks(w))|)
  }

  lemma MoreBatches<P>(packs: seq<Pack<P>>, p: Pack<P>)
    ensures |BatchesOf(packs + [p])| == |BatchesOf(packs)| + |p.batches|
    ensures (packs + [p])[..|packs|] == packs
  {
    BatchesOfConcat(packs, [p]);
    BatchesOfOne(p);
  }

  lemma SendCovers<P>(l: Lane<P>, actor: Actor, due: bool, poolAccepts: bool, id: nat)
    requires l.w.lock.Free? && Covered(l.w, id) && (actor.ByFlush? ==> actor.id !in l.w.flushes)
    ensures Covered(SendLane(l, actor, due, poolAccepts).w, id)
  {
    hide BatchesOf;
    var ready := Obtain(l.w.queue, actor.ByFlush? || due).ready;
    if ready != [] {
      MoreBatches(l.w.submitted, ready[0]);
    }
  }

  lemma CountCovers<P>(l: Lane<P>, id: nat)
    requires l.w.lock.Submitted? && Covered(l.w, id)
    ensures Covered(CountLane(l).w, id)
  {
    hide BatchesOf; hide Pop;
  }

  lemma StepCovers(sys: System, a: Action, limits: Limits, w: nat, id: nat)
    requires Enabled(sys, a) && a != Return(w, id) && w in sys.writers && Covered(sys.writers[w], id)
    ensures Covered(Next(sys, a, limits).writers[w], id)
  {
    hide BatchesOf; hide PacksOf; hide Append; hide SendLane; hide CountLane; hide Covered;
    match a
    case Send(v, actor, due) =>
      if v == w { SendCovers(LaneOf(sys, w), actor, due, PoolAccepts(sys, w), id); }
    case Count(v) =>
      if v == w { CountCovers(LaneOf(sys, w), id); }
    case _ => OtherCovers(sys, a, limits, w, id);
  }

  lemma OtherCovers(sys: System, a: Action, limits: Limits, w: nat, id: nat)
    requires Enabled(sys, a) && a != Return(w, id) && !a.Send? && !a.Count?
    requires w in sys.writers && Covered(sys.writers[w], id)
    ensures Covered(Next(sys, a, limits).writers[w], id)
  {
    hide BatchesOf; hide PacksOf; hide Append; hide CountedPacks;
    SameCounted(sys.writers[w], Next(sys, a, limits).writers[w]);
  }

  lemma SameCounted<P>(a: Writer<P>, b: Writer<P>)
    ensures a.lock == b.lock && a.submitted == b.submitted ==> CountedPacks(a) == CountedPacks(b)
  {
  }

  lemma {:induction false} RunCovers(sys: System, run: seq<Action>, limits: Limits, w: nat, id: nat)
    requires LegalRun(sys, run, limits) && Return(w, id) !in run && w in sys.writers && Covered(sys.writers[w], id)
    ensures w in After(sys, run, limits).writers && Covered(After(sys, run, limits).writers[w], id)
    decreases |run|
  {
    hide Enabled; hide Next; hide Covered;
    if run != [] {
      StepCovers(sys, run[0], limits, w, id);
      RunCovers(Next(sys, run[0], limits), run[1..], limits, w, id);
    }
  }

  // A flush whose batches are all counted off returns with all of them resolved.
  lemma CoveredResolved<P>(l: Lane<P>, limits: Limits, id: nat)
    requires LaneInv(l, limits) && Covered(l.w, id) && MayReturn(l, id)
    ensures Flushed(l, l.w.flushes[id])
  {
    ExecutedIsPrefix(l, limits);
    assert FlushSent(l, l.w.flushes[id]);
    CountedExecuted(l, limits);
    hide BatchesOf; hide LaneInv; hide CountedPacks;
  }

  lemma CountedExecuted<P>(l: Lane<P>, limits: Limits)
    requires LaneInv(l, limits) && l.w.count == 0 && !IsFinishing(l)
    ensures |BatchesOf(CountedPacks(l.w))| <= |BatchesOf(l.executed)|
  {
    var rest := InExecution(l) + l.tasks;
    assert l.w.submitted == l.executed + rest;
    assert |rest| <= 1 && (l.w.lock.Free? ==> rest == []);
    hide BatchesOf; hide LaneInv;
    if rest == [] {
      assert l.w.submitted == l.executed;
      CountedAtMost(l.w);
    } else {
      assert CountedPacks(l.w) == l.executed;
    }
  }

  lemma CountedAtMost<P>(w: Writer<P>)
    ensures |BatchesOf(CountedPacks(w))| <= |BatchesOf(w.submitted)|
  {
  }

  // What the flush's own submission leaves, when that is all there is.
  lemma CallCovers(l: Lane<nat>, id: nat, due: bool, poolAccepts: bool, limits: Limits)
    requires LaneInv(l, limits) && MaySend(l, ByFlush(id))
    requires var ready := Obtain(l.w.queue, true).ready; ready == [] || (|ready| == 1 && poolAccepts)
    ensures Covered(SendLane(l, ByFlush(id), due, poolAccepts).w, id)
  {
    var q := Obtain(l.w.queue, true);
    ObtainConserves(l.w.queue, true, limits);
    hide BatchesOf; hide QueueOk;
    assert Waiting(q) == BatchesOf(q.ready) + [];
    assert l.w.accepted == BatchesOf(l.w.submitted) + BatchesOf(q.ready);
    NoBatches<nat>();
    if q.ready != [] {
      assert q.ready == [q.ready[0]];
      BatchesOfOne(q.ready[0]);
      MoreBatches(l.w.submitted, q.ready[0]);
    }
  }

  lemma NoBatches<P>()
    ensures BatchesOf<P>([]) == []
  {
  }

  // ---------------------------------------------------------------- alone on the worker

  // While something the flush waits for is unresolved, a task is counted or a worker about to send.
  ghost predicate Driven<P>(l: Lane<P>, id: nat) {
    && id in l.w.flushes
    && (l.w.flushes[id].waiting && ResolvedCount(l) < l.w.flushes[id].batches ==> l.w.count >= 1 || IsFinishing(l))
  }

  // A refusal by a pool that is full of the writer's own tasks does no harm.
  lemma SendDrives<P>(l: Lane<P>, actor: Actor, due: bool, poolAccepts: bool, limits: Limits, id: nat)
    requires LaneInv(l, limits) && MaySend(l, actor) && (poolAccepts || l.tasks != [])
    requires if actor == ByFlush(id) then true else Driven(l, id)
    ensures Driven(SendLane(l, actor, due, poolAccepts), id)
  {
    ObtainedSound(l, actor, due, limits);
    var o := Obtained(l, actor, due);
    hide BatchesOf; hide Obtain; hide Orderly;
    if o.w.queue.ready == [] && ResolvedCount(o) < o.w.flushes[id].batches {
      PoolDrives(o, limits, o.w.flushes[id]);
    }
  }

  lemma CountDrives<P>(l: Lane<P>, limits: Limits, id: nat)
    requires LaneInv(l, limits) && l.w.lock.Submitted? && Driven(l, id)
    ensures Driven(CountLane(l), id)
  {
    hide BatchesOf; hide Pop; hide Orderly;
  }

  lemma OtherDrives<P>(l: Lane<P>, id: nat)
    requires Driven(l, id)
    ensures l.tasks != [] && l.inHand.None? ==> Driven(StartLane(l), id)
    ensures l.inHand.Some? && l.inHand.value.1.Executing? ==> Driven(ResolveLane(l), id)
    ensures l.inHand.Some? && l.inHand.value.1.Resolved? ==> Driven(DoneLane(l), id)
    ensures forall other :: other != id ==> Driven(ReturnLane(l, other), id)
  {
    if l.inHand.Some? {
      BatchesOfConcat(l.executed, [l.inHand.value.0]);
    }
    hide BatchesOf;
  }

  lemma AppendDrives<P>(l: Lane<P>, b: Batch<P>, overdue: bool, limits: Limits, id: nat)
    requires Driven(l, id)
    ensures Driven(AppendLane(l, b, overdue, limits), id)
  {
    hide BatchesOf; hide Append;
  }

  lemma {:induction false} OnlyPacks(tasks: seq<Task>, w: nat)
    requires forall i :: 0 <= i < |tasks| ==> tasks[i].writer == w
    ensures |PacksOf(tasks, w)| == |tasks|
  {
    if tasks != [] {
      OnlyPacks(tasks[..|tasks| - 1], w);
    }
  }

  // A worker with only one writer's tasks refuses that writer only while it holds some of them.
  lemma AloneHolds(sys: System, w: nat)
    requires Routed(sys) && w in sys.writers && Alone(sys, w) && sys.poolLimit > 0
    ensures PoolAccepts(sys, w) || LaneOf(sys, w).tasks != []
  {
    var tasks := sys.workers[WorkerOf(sys, w)].tasks;
    assert WorkerRouted(sys, WorkerOf(sys, w));
    OnlyPacks(tasks, w);
  }

  lemma StepDrives(sys: System, a: Action, limits: Limits, w: nat, id: nat)
    requires Inv(sys, limits) && Enabled(sys, a) && a != Return(w, id) && w in sys.writers
    requires Alone(sys, w) && sys.poolLimit > 0
    requires if a.Send? && a.w == w && a.actor == ByFlush(id) then true else Driven(LaneOf(sys, w), id)
    ensures Driven(LaneOf(Next(sys, a, limits), w), id)
  {
    var l := LaneOf(sys, w);
    assert LaneInv(l, limits);
    AloneHolds(sys, w);
    hide PacksOf; hide AppendLane; hide SendLane; hide CountLane; hide StartLane; hide ResolveLane; hide DoneLane;
    hide ReturnLane; hide Driven; hide LaneInv; hide Numbered; hide PoolAccepts; hide Alone;
    match a
    case Write(v, records, overdue) =>
      WriteLanes(sys, a, limits, w);
      if v == w { AppendDrives(l, NextBatch(sys.writers[w], records), overdue, limits, id); }
    case Return(v, other) =>
      WriteLanes(sys, a, limits, w);
      if v == w { OtherDrives(l, id); }
    case Send(v, actor, due) =>
      SendLanes(sys, v, actor, due, limits, w);
      if v == w { SendDrives(l, actor, due, PoolAccepts(sys, w), limits, id); }
    case Count(v) =>
      LaneCounted(sys, v, limits);
      CountLanes(sys, v, limits, w);
      if v == w { CountDrives(l, limits, id); }
    case Begin(k) =>
      BeginLanes(sys, k, limits, w);
      OtherDrives(l, id);
    case Resolve(k) =>
      ResolveLanes(sys, k, limits, w);
      OtherDrives(l, id);
    case Finish(k) =>
      FinishLanes(sys, k, limits, w);
      OtherDrives(l, id);
  }

  lemma LaneCounted(sys: System, v: nat, limits: Limits)
    requires Inv(sys, limits) && v in sys.writers
    ensures Counted(LaneOf(sys, v))
  {
    assert LaneInv(LaneOf(sys, v), limits);
  }

  // Steps change neither keys nor the workers' limit.
  lemma StepKeys(sys: System, a: Action, limits: Limits)
    requires Enabled(sys, a)
    ensures var t := Next(sys, a, limits);
            t.poolLimit == sys.poolLimit && forall v :: v in sys.writers ==> t.writers[v].key == sys.writers[v].key
  {
    hide PacksOf; hide Append; hide Obtain; hide Pop; hide MaySend; hide MayReturn;
  }

  lemma StepAlone(sys: System, a: Action, limits: Limits, w: nat)
    requires Enabled(sys, a) && w in sys.writers
    ensures var t := Next(sys, a, limits);
            && t.poolLimit == sys.poolLimit && (Alone(t, w) <==> Alone(sys, w))
            && forall v :: v in sys.writers ==> t.writers[v].key == sys.writers[v].key
  {
    StepKeys(sys, a, limits);
    assert |sys.workers| > 0;
    var t := Next(sys, a, limits);
    hide Next; hide Enabled;
    assert forall v :: v in sys.writers ==> WorkerOf(t, v) == WorkerOf(sys, v);
  }

  lemma {:induction false} RunDrives(sys: System, run: seq<Action>, limits: Limits, w: nat, id: nat)
    requires Inv(sys, limits) && LegalRun(sys, run, limits) && Return(w, id) !in run && w in sys.writers
    requires Alone(sys, w) && sys.poolLimit > 0 && Driven(LaneOf(sys, w), id)
    ensures var t := After(sys, run, limits);
            |t.workers| > 0 && w in t.writers && Driven(LaneOf(t, w), id)
    decreases |run|
  {
    hide Enabled; hide Next; hide Driven; hide LaneOf; hide LaneInv; hide Alone; hide Numbered;
    if run != [] {
      StepDrives(sys, run[0], limits, w, id);
      StepAlone(sys, run[0], limits, w);
      StepKeepsInv(sys, run[0], limits);
      RunDrives(Next(sys, run[0], limits), run[1..], limits, w, id);
    }
  }

  lemma DrivenResolved<P>(l: Lane<P>, limits: Limits, id: nat)
    requires LaneInv(l, limits) && Driven(l, id) && MayReturn(l, id)
    ensures Flushed(l, l.w.flushes[id])
  {
    ExecutedIsPrefix(l, limits);
    assert FlushSent(l, l.w.flushes[id]);
  }

  // ---------------------------------------------------------------- assured flushes are barriers

  ghost predicate Calls(sys: System, called: System, due: bool, limits: Limits, w: nat, id: nat) {
    Enabled(sys, Send(w, ByFlush(id), due)) && called == Next(sys, Send(w, ByFlush(id), due), limits)
  }

  ghost predicate EndsWith(called: System, during: seq<Action>, end: System, limits: Limits, w: nat, id: nat) {
    Returns(called, during, limits, w, id) && end == After(called, during, limits)
  }

  ghost predicate FlushedAt(sys: System, w: nat, id: nat) {
    && w in sys.writers && |sys.workers| > 0 && id in sys.writers[w].flushes
    && Flushed(LaneOf(sys, w), sys.writers[w].flushes[id])
  }

  lemma AloneCalls(sys: System, called: System, due: bool, limits: Limits, w: nat, id: nat)
    requires Inv(sys, limits) && Calls(sys, called, due, limits, w, id) && w in sys.writers
    requires Alone(sys, w) && sys.poolLimit > 0
    ensures Inv(called, limits) && w in called.writers && Alone(called, w) && called.poolLimit > 0
    ensures Driven(LaneOf(called, w), id)
  {
    var call := Send(w, ByFlush(id), due);
    StepDrives(sys, call, limits, w, id);
    StepAlone(sys, call, limits, w);
    hide Next; hide Inv; hide Enabled; hide Alone; hide Driven; hide LaneOf;
    StepKeepsInv(sys, call, limits);
  }

  lemma SentCalls(sys: System, called: System, due: bool, limits: Limits, w: nat, id: nat)
    requires Inv(sys, limits) && Calls(sys, called, due, limits, w, id) && w in sys.writers
    requires Found(sys, w) == [] || (|Found(sys, w)| == 1 && PoolAccepts(sys, w))
    ensures Inv(called, limits) && w in called.writers && Covered(called.writers[w], id)
  {
    assert LaneInv(LaneOf(sys, w), limits);
    CallCovers(LaneOf(sys, w), id, due, PoolAccepts(sys, w), limits);
    SendLanes(sys, w, ByFlush(id), due, limits, w);
    StepKeepsInv(sys, Send(w, ByFlush(id), due), limits);
    hide SendLane; hide Covered; hide PacksOf; hide Inv; hide LaneInv; hide Obtain;
  }

  lemma MayReturnAt(sys: System, w: nat, id: nat, limits: Limits)
    requires Inv(sys, limits) && Enabled(sys, Return(w, id))
    ensures w in sys.writers && |sys.workers| > 0 && LaneInv(LaneOf(sys, w), limits) && MayReturn(LaneOf(sys, w), id)
    ensures id in sys.writers[w].flushes && LaneOf(sys, w).w == sys.writers[w]
  {
    hide LaneInv; hide PacksOf;
  }

  lemma AloneFlushed(called: System, during: seq<Action>, end: System, limits: Limits, w: nat, id: nat)
    requires Inv(called, limits) && w in called.writers && EndsWith(called, during, end, limits, w, id)
    requires Alone(called, w) && called.poolLimit > 0 && Driven(LaneOf(called, w), id)
    ensures FlushedAt(end, w, id)
  {
    hide Inv; hide Enabled; hide LegalRun; hide After; hide Alone; hide LaneInv; hide Driven; hide Flushed; hide LaneOf;
    hide MayReturn;
    RunKeepsInv(called, during, limits);
    RunDrives(called, during, limits, w, id);
    MayReturnAt(end, w, id, limits);
    DrivenResolved(LaneOf(end, w), limits, id);
  }

  lemma SentFlushed(called: System, during: seq<Action>, end: System, limits: Limits, w: nat, id: nat)
    requires Inv(called, limits) && w in called.writers && EndsWith(called, during, end, limits, w, id)
    requires Covered(called.writers[w], id)
    ensures FlushedAt(end, w, id)
  {
    hide Inv; hide Enabled; hide LegalRun; hide After; hide LaneInv; hide Covered; hide Flushed; hide LaneOf;
    hide MayReturn;
    RunKeepsInv(called, during, limits);
    RunCovers(called, during, limits, w, id);
    MayReturnAt(end, w, id, limits);
    CoveredResolved(LaneOf(end, w), limits, id);
  }

  lemma FlushedIsResolved(sys: System, called: System, due: bool, during: seq<Action>, end: System, limits: Limits,
                          w: nat, id: nat)
    requires w in sys.writers && Calls(sys, called, due, limits, w, id) && EndsWith(called, during, end, limits, w, id)
    requires FlushedAt(end, w, id)
    ensures ResolvedBy(sys, end, w)
  {
    FlushCalled(sys, w, id, due, limits);
    hide Enabled; hide Next; hide LegalRun; hide After; hide LaneOf; hide BatchesOf;
    RunSince(called, during, limits, w, id);
  }

  lemma AssuredReturns(sys: System, called: System, due: bool, during: seq<Action>, end: System, limits: Limits, w: nat,
                       id: nat)
    requires Inv(sys, limits) && w in sys.writers && |sys.workers| > 0 && Assured(sys, w)
    requires Calls(sys, called, due, limits, w, id) && EndsWith(called, during, end, limits, w, id)
    ensures ResolvedBy(sys, end, w)
  {
    hide Inv; hide Alone; hide Driven; hide Covered; hide LaneOf; hide Found; hide PoolAccepts; hide Calls;
    hide EndsWith;
    hide FlushedAt; hide ResolvedBy;
    if Alone(sys, w) && sys.poolLimit > 0 {
      AloneCalls(sys, called, due, limits, w, id);
      AloneFlushed(called, during, end, limits, w, id);
    } else {
      SentCalls(sys, called, due, limits, w, id);
      SentFlushed(called, during, end, limits, w, id);
    }
    FlushedIsResolved(sys, called, due, during, end, limits, w, id);
  }
}
