/**
The two ways a session that takes effect can lose a record, reached from a server nobody has read
from yet: a reader that is kept with a message queued, and a record in hand whose shard was released
and opened again.
*/
module LostRecords {
  import opened Collections
  import opened Consumer
  import opened ConsumerSlots
  import opened ConsumerSteps
  import opened OffsetManagement
  import opened Reopening
  import R = ShardReading

  // Two records in one shard.
  const SERVERS := map["0" := Server([7, 7], 0, None, {})]
  const START := System(SERVERS, map[])
  const EVERYTHING := R.Position(-1, -1, None)

  function With(cl: Client): System {
    System(SERVERS, map[0 := cl])
  }

  function Session(q: seq<Entry>): Manager {
    Manager(map["0" := Meta(1, 1)], map["0" := q], map[])
  }

  function Reader(p: R.Position, cache: seq<R.Fetched>, running: bool, flight: Flight): map<string, Fetcher> {
    map["0" := Fetcher(R.Reader(p, cache, running), flight)]
  }

  function Record(n: nat): R.Fetched {
    R.Record(n, 7)
  }

  function Second(): map<string, Fetcher> {
    Reader(R.Position(-1, -1, Some(2)), [Record(1)], false, Landed)
  }

  // Record 0 was handed out and waits to be acknowledged; record 1 is cached.
  const READ_ONE := Client(1, Session([Entry(Offset(7, 0, 0), false)]), Second(), Free, map[], false)

  lemma LeadsOn(sys: System, t: System, a: Action)
    requires Leads(sys, t) && Enabled(t, a) && OpensSafe(t, a)
    ensures Leads(sys, Next(t, a))
  {
    hide Enabled; hide OpensSafe; hide Next;
    var run :| LegalRun(sys, run) && After(sys, run) == t;
    RunOn(sys, run, a);
  }

  lemma {:induction false} RunOn(sys: System, run: seq<Action>, a: Action)
    requires LegalRun(sys, run) && Enabled(After(sys, run), a) && OpensSafe(After(sys, run), a)
    ensures LegalRun(sys, run + [a]) && After(sys, run + [a]) == Next(After(sys, run), a)
    decreases |run|
  {
    hide Enabled; hide OpensSafe; hide Next;
    if run == [] {
      assert [] + [a] == [a];
      assert LegalRun(Next(sys, a), [a][1..]);
    } else {
      RunOn(Next(sys, run[0]), run[1..], a);
      assert (run + [a])[1..] == run[1..] + [a];
    }
  }

  // One step of the consumer that changes no server.
  lemma Goes(cl: Client, a: Action, cl': Client)
    requires Leads(START, With(cl)) && OfClient(a) && !a.Open? && !a.AckMessage? && !a.Commit? && a.c == 0
    requires Provisioned(cl.manager) && Allowed(SERVERS, cl, a) && ClientAfter(SERVERS, cl, a) == cl'
    ensures Leads(START, With(cl'))
  {
    hide Allowed; hide ClientAfter; hide Leads;
    LeadsOn(START, With(cl), a);
    assert Next(With(cl), a) == With(cl');
  }

  lemma Connects()
    ensures Leads(START, With(Client(1, EMPTY, map[], Free, map[], false)))
  {
    LeadsHere(START);
    hide Leads;
    LeadsOn(START, START, Connect(0, 1));
    assert Next(START, Connect(0, 1)) == With(Client(1, EMPTY, map[], Free, map[], false));
  }

  lemma OpensFirst()
    ensures Leads(START, With(Client(1, Session([]), Reader(EVERYTHING, [], false, Landed), Free, map[], false)))
  {
    Connects();
    hide Leads;
    var cl := Client(1, EMPTY, map[], Free, map["0" := None], false);
    Goes(Client(1, EMPTY, map[], Free, map[], false), Ask(0, "0"), cl);
    var a := Open(0, "0", 1, 1);
    var cl' := OpenClient(cl, "0", 1, 1);
    assert cl' == Client(1, Session([]), Reader(EVERYTHING, [], false, Landed), Free, map[], false);
    assert Held(SlotOf(cl', "0")) == [];
    LeadsOn(START, With(cl), a);
    assert Next(With(cl), a) == With(cl');
  }

  function Both(): map<string, Fetcher> {
    Reader(R.Position(-1, -1, Some(2)), [Record(0), Record(1)], false, Landed)
  }

  lemma Seeks()
    ensures Leads(START,
                  With(Client(1, Session([]), Reader(EVERYTHING, [], true, At(0)), Reading("0", None), map[], false)))
  {
    OpensFirst();
    hide Leads;
    var first, sent, m := Reader(EVERYTHING, [], false, Landed), Reader(EVERYTHING, [], true, Sent), Session([]);
    Goes(Client(1, m, first, Free, map[], false), Pick(0, "0"), Client(1, m, first, Reading("0", None), map[], false));
    Goes(Client(1, m, first, Reading("0", None), map[], false), Look(0),
         Client(1, m, first, Reading("0", None), map[], true));
    Goes(Client(1, m, first, Reading("0", None), map[], true), Send(0, true),
         Client(1, m, sent, Reading("0", None), map[], false));
    Goes(Client(1, m, sent, Reading("0", None), map[], false), Seek(0, "0", false, false),
         Client(1, m, Reader(EVERYTHING, [], true, At(0)), Reading("0", None), map[], false));
  }

  lemma Fetches()
    ensures Leads(START, With(Client(1, Session([]), Both(), Reading("0", None), map[], false)))
  {
    Seeks();
    hide Leads;
    var f := Fetcher(R.Reader(EVERYTHING, [], true), At(0));
    assert R.Wrapped(LogSlice(SERVERS["0"], 0, 2)) == [Record(0), Record(1)];
    assert EndFetch(SERVERS["0"], f, Delivered(2)) == Both()["0"];
    Goes(Client(1, Session([]), map["0" := f], Reading("0", None), map[], false), Finish(0, "0", false, Delivered(2)),
         Client(1, Session([]), Both(), Reading("0", None), map[], false));
  }

  lemma ReadsOne()
    ensures Leads(START, With(READ_ONE))
  {
    Fetches();
    hide Leads;
    var m, both := Session([]), Both();
    assert [Record(0), Record(1)][1..] == [Record(1)];
    Goes(Client(1, m, both, Reading("0", None), map[], false), Take(0),
         Client(1, m, Second(), Holding("0", Offset(7, 0, 0)), map[], false));
    assert [] + [Entry(Offset(7, 0, 0), false)] == [Entry(Offset(7, 0, 0), false)];
    Goes(Client(1, m, Second(), Holding("0", Offset(7, 0, 0)), map[], false), Enqueue(0), READ_ONE);
  }

  // The shard is opened again while its reader is kept and record 0 is not acknowledged.
  lemma KeptReaderLoses()
    ensures var cl := READ_ONE.(asked := map["0" := None]); var a := Open(0, "0", 1, 2);
            && Initial(START) && Leads(START, With(cl)) && Inv(With(cl)) && Opens(With(cl), a)
            && InOrder(cl, "0") && !OpensSafe(With(cl), a) && GoesWrong(Next(With(cl), a))
  {
    ReadsOne();
    var cl, a := READ_ONE.(asked := map["0" := None]), Open(0, "0", 1, 2);
    hide Leads; hide GoesWrong; hide Inv;
    Goes(READ_ONE, Ask(0, "0"), cl);
    LeadsKeepInv(With(cl));
    KeptIsInOrder(cl);
    hide OpensSafe; hide InOrder; hide Next; hide Opens;
    InOrderOpenSafeIff(With(cl), a);
    UnsafeOpenGoesWrong(With(cl), a);
  }

  lemma KeptIsInOrder(cl: Client)
    requires cl == READ_ONE.(asked := map["0" := None])
    ensures InOrder(cl, "0") && Opens(With(cl), Open(0, "0", 1, 2)) && !Stuck(cl.readers["0"])
    ensures |cl.manager.requests["0"]| == 1 && !Done(SERVERS["0"], cl.manager.requests["0"][0].offset.sequence)
  {
    assert Held(SlotOf(cl, "0")) == [0, 1];
  }

  // Record 1 is in hand while its shard is released and opened again.
  lemma RecordInHandLoses()
    ensures var cl := Client(1, EMPTY, map[], Holding("0", Offset(7, 1, 0)), map["0" := None], false);
            var a := Open(0, "0", 1, 2);
            && Initial(START) && Leads(START, With(cl)) && Inv(With(cl)) && Opens(With(cl), a)
            && !OpensSafe(With(cl), a) && GoesWrong(Next(With(cl), a))
  {
    ReadsOne();
    hide Leads; hide GoesWrong; hide Inv;
    var m, a := READ_ONE.manager, Open(0, "0", 1, 2);
    var taken := Reader(R.Position(-1, -1, Some(2)), [], false, Landed);
    var hold := Holding("0", Offset(7, 1, 0));
    assert [Record(1)][1..] == [];
    Goes(READ_ONE, Pick(0, "0"), Client(1, m, Second(), Reading("0", None), map[], false));
    Goes(Client(1, m, Second(), Reading("0", None), map[], false), Take(0), Client(1, m, taken, hold, map[], false));
    Goes(Client(1, m, taken, hold, map[], false), Close(0, "0"), Client(1, m, map[], hold, map[], false));
    assert Release(m, {"0"}) == EMPTY;
    Goes(Client(1, m, map[], hold, map[], false), ReleaseShards(0, {"0"}), Client(1, EMPTY, map[], hold, map[], false));
    var cl := Client(1, EMPTY, map[], hold, map["0" := None], false);
    Goes(Client(1, EMPTY, map[], hold, map[], false), Ask(0, "0"), cl);
    LeadsKeepInv(With(cl));
    HandOpenSafeIff(With(cl), a);
    assert !Done(SERVERS["0"], 0);
    UnsafeOpenGoesWrong(With(cl), a);
  }

  lemma LeadsKeepInv(t: System)
    requires Leads(START, t)
    ensures Inv(t) && Initial(START)
  {
    var run :| LegalRun(START, run) && After(START, run) == t;
    RunKeepsInv(START, run);
  }
}
