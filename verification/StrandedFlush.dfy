/**
A run of the pipeline in which a Flush returns with a batch unresolved: two writers share a worker
whose queue holds one task, and the other writer's task is in it.
*/
module StrandedFlush {
  import opened Collections
  import opened Pipeline
  import opened RecordPacks
  import opened WriterLanes

  const LIMITS := Limits(100, 10)
  const RECORDS := [Record("r", 1)]

  function Batch0(): Batch<nat> {
    Batch(RECORDS, 0)
  }

  // The pack of one batch with one record.
  function Pack0(): Pack<nat> {
    Pack([Batch0()], 1, 1, false)
  }

  function Idle(): Writer<nat> {
    Writer(0, Queue([], None), Free, 0, map[], [], [], 0)
  }

  // A batch was accepted and waits in the current pack.
  function Filled(): Writer<nat> {
    Writer(0, Queue([], Some(Pack0())), Free, 0, map[], [Batch0()], [], 0)
  }

  // A flush has submitted it, and then counted it.
  function Submitting(): Writer<nat> {
    Writer(0, Queue([Pack0()], None), Submitted(ByFlush(0)), 0, map[0 := Flush(1, 0, false)], [Batch0()], [Pack0()], 0)
  }

  function Counted1(): Writer<nat> {
    Writer(0, Queue([], None), Free, 1, map[0 := Flush(1, 0, true)], [Batch0()], [Pack0()], 0)
  }

  function Sys(w0: Writer<nat>, w1: Writer<nat>, tasks: seq<Task>): System {
    System(map[0 := w0, 1 := w1], [Worker(tasks, None, [])], 1)
  }

  lemma AppendsFirst()
    ensures Append(Queue([], None), Batch0(), false, LIMITS) == Queue([], Some(Pack0()))
  {
    assert TotalSize(RECORDS) == 1 by {
      assert RECORDS[..0] == [];
      assert TotalSize(RECORDS) == TotalSize([]) + 1;
    }
    assert [] + [Batch0()] == [Batch0()];
  }

  lemma LanesOf(w0: Writer<nat>, w1: Writer<nat>, tasks: seq<Task>)
    requires w0.key == 0 && w1.key == 0 && (tasks == [] || tasks == [Task(1, Pack0())])
    ensures LaneOf(Sys(w0, w1, tasks), 0) == Lane(w0, [], None, [])
    ensures LaneOf(Sys(w0, w1, tasks), 1) == Lane(w1, if tasks == [] then [] else [Pack0()], None, [])
  {
    if tasks != [] {
      PacksOfOne(Task(1, Pack0()), 0);
      PacksOfOne(Task(1, Pack0()), 1);
    }
  }

  lemma WritesFirst(w0: Writer<nat>, w1: Writer<nat>, tasks: seq<Task>, w: nat)
    requires w < 2 && (if w == 0 then w0 else w1) == Idle() && w0.key == 0 && w1.key == 0
    requires tasks == [] || tasks == [Task(1, Pack0())]
    ensures var sys, a := Sys(w0, w1, tasks), Write(w, RECORDS, false);
            && Enabled(sys, a)
            && Next(sys, a, LIMITS) == if w == 0 then Sys(Filled(), w1, tasks) else Sys(w0, Filled(), tasks)
  {
    LanesOf(w0, w1, tasks);
    AppendsFirst();
    hide Append; hide LaneOf;
    assert [] + [Batch0()] == [Batch0()];
  }

  lemma SubmitsFirst()
    ensures var sys, a := Sys(Idle(), Filled(), []), Send(1, ByFlush(0), false);
            Enabled(sys, a) && Next(sys, a, LIMITS) == Sys(Idle(), Submitting(), [Task(1, Pack0())])
  {
    LanesOf(Idle(), Filled(), []);
    hide LaneOf;
    assert [] + [Pack0()] == [Pack0()];
    assert [] + [Task(1, Pack0())] == [Task(1, Pack0())];
  }

  lemma CountsFirst()
    ensures var sys, a := Sys(Idle(), Submitting(), [Task(1, Pack0())]), Pipeline.Count(1);
            Enabled(sys, a) && Next(sys, a, LIMITS) == Sys(Idle(), Counted1(), [Task(1, Pack0())])
  {
    LanesOf(Idle(), Submitting(), [Task(1, Pack0())]);
    hide LaneOf;
    assert [Pack0()][1..] == [];
    var l := Lane(Submitting(), [Pack0()], None, []);
    assert CountLane(l).w == Counted1() by {
      assert map[0 := Flush(1, 0, false)][0 := Flush(1, 0, true)] == map[0 := Flush(1, 0, true)];
    }
  }

  // Writer 0 has accepted a batch, has nothing in the pool, and meets a full worker.
  lemma ReachesFullWorker() returns (run: seq<Action>)
    ensures Started(Sys(Idle(), Idle(), [])) && LegalRun(Sys(Idle(), Idle(), []), run, LIMITS)
    ensures After(Sys(Idle(), Idle(), []), run, LIMITS) == Sys(Filled(), Counted1(), [Task(1, Pack0())])
  {
    var full := [Task(1, Pack0())];
    var a0, a1, a2, a3 := Write(1, RECORDS, false), Send(1, ByFlush(0), false), Pipeline.Count(1),
      Write(0, RECORDS, false);
    run := [a0, a1, a2, a3];
    WritesFirst(Idle(), Idle(), [], 1);
    SubmitsFirst();
    CountsFirst();
    WritesFirst(Idle(), Counted1(), full, 0);
    hide Next; hide Enabled;
    var s0, s1, s2 := Sys(Idle(), Idle(), []), Sys(Idle(), Filled(), []), Sys(Idle(), Submitting(), full);
    var s3, s4 := Sys(Idle(), Counted1(), full), Sys(Filled(), Counted1(), full);
    assert LegalRun(s4, [], LIMITS) && After(s4, [], LIMITS) == s4;
    assert [a3][1..] == [] && [a2, a3][1..] == [a3] && [a1, a2, a3][1..] == [a2, a3] && run[1..] == [a1, a2, a3];
    assert LegalRun(s3, [a3], LIMITS) && After(s3, [a3], LIMITS) == s4;
    assert LegalRun(s2, [a2, a3], LIMITS) && After(s2, [a2, a3], LIMITS) == s4;
    assert LegalRun(s1, [a1, a2, a3], LIMITS) && After(s1, [a1, a2, a3], LIMITS) == s4;
  }

  // Its flush may return at once, with that batch unresolved and nothing of it in the pool.
  lemma FlushStrands() returns (run: seq<Action>)
    ensures var sys := Sys(Idle(), Idle(), []);
            && Started(sys) && sys.poolLimit > 0 && LegalRun(sys, run, LIMITS)
            && Enabled(After(sys, run, LIMITS), Send(0, ByFlush(0), false))
            && var t := Next(After(sys, run, LIMITS), Send(0, ByFlush(0), false), LIMITS);
               Enabled(t, Return(0, 0)) && Stranded(t, 0, 0)
  {
    run := ReachesFullWorker();
    var full := [Task(1, Pack0())];
    var sys, u, a := Sys(Idle(), Idle(), []), Sys(Filled(), Counted1(), full), Send(0, ByFlush(0), false);
    LanesOf(Filled(), Counted1(), full);
    assert Enabled(u, a) && !PoolAccepts(u, 0);
    assert Waiting(u.writers[0].queue) == [Batch0()] by { assert [] + [Batch0()] == [Batch0()]; }
    StartedInv(sys, LIMITS);
    RunKeepsInv(sys, run, LIMITS);
    hide After; hide LegalRun; hide Started; hide Inv; hide LaneOf; hide Waiting; hide Enabled; hide Next;
    hide Stranded;
    FlushAtOnceIff(u, Next(u, a, LIMITS), 0, 0, false, LIMITS);
  }
}
