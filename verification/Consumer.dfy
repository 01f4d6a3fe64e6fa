/**
The consumer protocol over whole runs: any number of consumers, shards and sessions, taking the steps
of ConsumerSteps in any order.
*/
module Consumer {
  import opened Collections
  import opened ConsumerSlots
  import opened ConsumerSteps
  import opened OffsetManagement
  import R = ShardReading

  datatype System = System(servers: map<string, Server>, clients: map<nat, Client>)

  ghost predicate Enabled(sys: System, a: Action) {
    match a
    case Append(s, _) => s in sys.servers
    case Expire(s, oldest) => s in sys.servers && sys.servers[s].oldest <= oldest <= |sys.servers[s].log|
    case AckLate(s, n) => s in sys.servers && n < |sys.servers[s].log|
    case Connect(c, _) => c !in sys.clients
    case _ => a.c in sys.clients && Provisioned(sys.clients[a.c].manager) && Allowed(sys.servers, sys.clients[a.c], a)
  }

  // What an action leaves of a shard on the server.
  function ServerAfter(sys: System, a: Action, s: string): Server
    requires s in sys.servers && Enabled(sys, a)
  {
    var sv := sys.servers[s];
    match a
    case Append(t, systemTime) => if t == s then sv.(log := sv.log + [systemTime]) else sv
    case Expire(t, oldest) => if t == s then sv.(oldest := oldest) else sv
    case AckLate(t, n) => if t == s then sv.(acked := sv.acked + {n}) else sv
    case AckMessage(c, t, i) =>
      if t == s then sv.(acked := sv.acked + {sys.clients[c].manager.requests[s][i].offset.sequence}) else sv
    case Commit(c, applied, _) =>
      if s in applied then sv.(committed := Some(sys.clients[c].manager.last[s].offset)) else sv
    case _ => sv
  }

  function Next(sys: System, a: Action): System
    requires Enabled(sys, a)
  {
    System(map s | s in sys.servers :: ServerAfter(sys, a, s),
           if a.Connect? then sys.clients[a.c := Client(a.limit, EMPTY, map[], Free, map[], false)]
           else if OfClient(a) then sys.clients[a.c := ClientAfter(sys.servers, sys.clients[a.c], a)]
           else sys.clients)
  }

  ghost predicate Inv(sys: System) {
    && (forall s :: s in sys.servers ==> ServerInv(sys.servers[s]))
    && (forall c :: c in sys.clients ==> ClientInv(sys.servers, sys.clients[c]))
  }

  // The one step that can go wrong: a session that takes effect empties the shard's queue. It is
  // safe when whatever may still come -- from the record in hand, from the reader being read, from
  // a reader that was kept -- comes in order without what the queue held.
  ghost predicate OpensSafe(sys: System, a: Action)
    requires Enabled(sys, a)
  {
    a.Open? ==> Orderly(sys.servers[a.shard],
                        SlotOf(OpenClient(sys.clients[a.c], a.shard, a.version, a.session), a.shard))
  }

  // ---------------------------------------------------------------- each step keeps it

  lemma ServerExtends(sys: System, a: Action, s: string)
    requires Enabled(sys, a) && s in sys.servers && ServerInv(sys.servers[s])
    ensures Extends(sys.servers[s], ServerAfter(sys, a, s))
  {
    hide Allowed;
  }

  lemma AckClientKeeps(sys: System, a: Action)
    requires Inv(sys) && Enabled(sys, a) && a.AckMessage?
    ensures ClientInv(Next(sys, a).servers, Next(sys, a).clients[a.c])
  {
    hide SlotInv; hide Extends; hide ServerInv; hide Based;
    var cl, s, grown := sys.clients[a.c], a.shard, Next(sys, a).servers;
    assert AllExtend(sys.servers, grown) by { NextExtends(sys, a); }
    GrowClient(sys.servers, grown, cl);
    assert SlotInv(sys.servers[s], SlotOf(cl, s));
    assert sys.servers[s].oldest <= |sys.servers[s].log|
           by { assert ServerInv(sys.servers[s]); ServerRange(sys.servers[s]); }
    AckKeeps(sys.servers[s], SlotOf(cl, s), a.i);
    AckedSlot(cl, s, a.i);
    AckBased(grown, cl, s, a.i);
    OneSlot(grown, cl, cl.(manager := Ack(cl.manager, s, a.i)), s);
  }

  lemma NextExtends(sys: System, a: Action)
    requires Enabled(sys, a) && forall s :: s in sys.servers ==> ServerInv(sys.servers[s])
    ensures AllExtend(sys.servers, Next(sys, a).servers)
  {
    hide Extends; hide ServerInv; hide ServerAfter; hide Enabled; hide ClientAfter;
    forall s | s in sys.servers
      ensures Extends(sys.servers[s], Next(sys, a).servers[s])
    {
      ServerExtends(sys, a, s);
    }
  }

  lemma ServerKeeps(sys: System, a: Action, s: string)
    requires Inv(sys) && Enabled(sys, a) && s in sys.servers
    ensures ServerInv(ServerAfter(sys, a, s))
  {
    hide ClientInv; hide Safe; hide Allowed;
    var sv := sys.servers[s];
    ServerExtends(sys, a, s);
    if sv.committed.Some? {
      GrowSafe(sv, ServerAfter(sys, a, s), sv.committed.value);
    }
    if a.Commit? {
      CommitIsPending(sys, a);
      if s in a.applied {
        PendingSafe(sys.servers, sys.clients[a.c], s);
        GrowSafe(sv, ServerAfter(sys, a, s), sys.clients[a.c].manager.last[s].offset);
      }
    }
  }

  lemma CommitIsPending(sys: System, a: Action)
    requires Enabled(sys, a) && a.Commit?
    ensures a.c in sys.clients && a.applied <= sys.clients[a.c].manager.last.Keys
  {
  }

  // Every step keeps the invariant, opening a session if it is safe.
  lemma StepKeepsInv(sys: System, a: Action)
    requires Inv(sys) && Enabled(sys, a) && OpensSafe(sys, a)
    ensures Inv(Next(sys, a))
  {
    hide ClientInv; hide ServerInv; hide ServerAfter; hide ClientAfter; hide Orderly; hide Allowed; hide AllExtend;
    hide OpenClient;
    var after := Next(sys, a);
    NextExtends(sys, a);
    forall s | s in after.servers
      ensures ServerInv(after.servers[s])
    {
      ServerKeeps(sys, a, s);
    }
    forall c | c in after.clients
      ensures ClientInv(after.servers, after.clients[c])
    {
      if OfClient(a) && c == a.c {
        if a.AckMessage? {
          AckClientKeeps(sys, a);
        } else {
          ClientKeeps(sys.servers, sys.clients[a.c], a);
          GrowClient(sys.servers, after.servers, after.clients[c]);
        }
      } else if a.Connect? && c == a.c {
        NewClient(after.servers, a.limit);
      } else {
        GrowClient(sys.servers, after.servers, sys.clients[c]);
      }
    }
  }

  // ---------------------------------------------------------------- whole runs

  ghost predicate LegalRun(sys: System, run: seq<Action>)
    decreases |run|
  {
    run != [] ==> Enabled(sys, run[0]) && OpensSafe(sys, run[0]) && LegalRun(Next(sys, run[0]), run[1..])
  }

  ghost function After(sys: System, run: seq<Action>): System
    requires LegalRun(sys, run)
    decreases |run|
  {
    if run == [] then sys else After(Next(sys, run[0]), run[1..])
  }

  // Servers nobody has committed to, and no consumer yet.
  ghost predicate Initial(sys: System) {
    && sys.clients == map[]
    && forall s :: s in sys.servers ==> sys.servers[s].oldest <= |sys.servers[s].log| && sys.servers[s].committed.None?
  }

  lemma {:induction false} RunKeepsInv(sys: System, run: seq<Action>)
    requires Inv(sys) && LegalRun(sys, run)
    ensures Inv(After(sys, run))
    decreases |run|
  {
    hide Inv; hide Next; hide Enabled; hide OpensSafe;
    if run != [] {
      StepKeepsInv(sys, run[0]);
      RunKeepsInv(Next(sys, run[0]), run[1..]);
    }
  }

  // Every record up to the committed one, or up to one that some session in the making starts from,
  // has been acknowledged or has expired.
  ghost predicate NothingSkipped(sys: System, s: string) {
    && s in sys.servers
    && (sys.servers[s].committed.Some? ==>
          forall n :: 0 <= n <= sys.servers[s].committed.value.sequence ==> Done(sys.servers[s], n))
    && forall c, n :: c in sys.clients && s in sys.clients[c].asked
                      && 0 <= n < CursorFor(sys.servers[s], SessionStart(sys.clients[c].asked[s]), false) ==>
         Done(sys.servers[s], n)
  }

  // A reader's cursor has passed only records that are done or on their way to being committed over.
  ghost predicate NothingForgotten(sys: System, s: string) {
    forall c, n :: c in sys.clients && s in sys.clients[c].readers && s in sys.clients[c].manager.requests
                   && s in sys.servers && !Stuck(sys.clients[c].readers[s])
                   && sys.clients[c].readers[s].reader.position.cursor.Some?
                   && 0 <= n < sys.clients[c].readers[s].reader.position.cursor.value ==>
      Done(sys.servers[s], n) || n in Held(SlotOf(sys.clients[c], s))
  }

  // At least once: in every run whose sessions are opened safely, on every shard.
  lemma AtLeastOnce(sys: System, run: seq<Action>, s: string)
    requires Initial(sys) && LegalRun(sys, run) && s in sys.servers
    ensures NothingSkipped(After(sys, run), s) && NothingForgotten(After(sys, run), s)
  {
    RunKeepsInv(sys, run);
    RunServers(sys, run);
    var t := After(sys, run);
    hide LegalRun; hide After; hide Initial;
    assert ServerInv(t.servers[s]);
    forall c, n | c in t.clients && s in t.clients[c].asked
                  && 0 <= n < CursorFor(t.servers[s], SessionStart(t.clients[c].asked[s]), false)
      ensures Done(t.servers[s], n)
    {
      assert ClientInv(t.servers, t.clients[c]);
      AskedDone(t.servers[s], t.clients[c].asked[s], n);
    }
    hide Held;
    forall c, n | c in t.clients && s in t.clients[c].readers && s in t.clients[c].manager.requests
                  && !Stuck(t.clients[c].readers[s])
                  && t.clients[c].readers[s].reader.position.cursor.Some?
                  && 0 <= n < t.clients[c].readers[s].reader.position.cursor.value
      ensures Done(t.servers[s], n) || n in Held(SlotOf(t.clients[c], s))
    {
      assert SlotInv(t.servers[s], SlotOf(t.clients[c], s));
    }
  }

  lemma AskedDone(sv: Server, committed: Option<Offset>, n: nat)
    requires committed.Some? ==> Safe(sv, committed.value)
    requires n < CursorFor(sv, SessionStart(committed), false)
    ensures Done(sv, n)
  {
  }

  lemma {:induction false} RunServers(sys: System, run: seq<Action>)
    requires LegalRun(sys, run)
    ensures After(sys, run).servers.Keys == sys.servers.Keys
    decreases |run|
  {
    hide Enabled; hide OpensSafe; hide ServerAfter; hide ClientAfter;
    if run != [] {
      RunServers(Next(sys, run[0]), run[1..]);
    }
  }
}
