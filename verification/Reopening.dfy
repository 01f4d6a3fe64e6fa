/**
Opening a session empties the shard's queue while a thread may still be reading a record of the
shard (client/src/shard_group_reader.cpp:69-76, 218-233), and CreateShardReader
(client/src/shard_group_reader.cpp:96-117) keeps a reader the shard already has. This is exactly
when that loses nothing.
*/
module Reopening {
  import opened Collections
  import opened Consumer
  import opened ConsumerSlots
  import opened ConsumerSteps
  import opened OffsetManagement
  import R = ShardReading

  // ---------------------------------------------------------------- safe for ever

  // No server has let a record go undone.
  ghost predicate Sound(sys: System) {
    forall s :: s in sys.servers ==> ServerInv(sys.servers[s])
  }

  // A run whose sessions all take effect safely leads from one to the other.
  ghost predicate Leads(sys: System, t: System) {
    exists run :: LegalRun(sys, run) && After(sys, run) == t
  }

  ghost predicate AlwaysSound(sys: System) {
    forall t :: Leads(sys, t) ==> Sound(t)
  }

  ghost predicate NoOpen(run: seq<Action>) {
    forall i :: 0 <= i < |run| ==> !run[i].Open?
  }

  // A run in which no session takes effect does.
  ghost predicate LeadsQuietly(sys: System, t: System) {
    exists run :: NoOpen(run) && LegalRun(sys, run) && After(sys, run) == t
  }

  // Without any further session, some run from here makes a server believe an undone record is done.
  ghost predicate GoesWrong(sys: System) {
    exists t :: LeadsQuietly(sys, t) && !Sound(t)
  }

  lemma LeadsHere(sys: System)
    ensures LeadsQuietly(sys, sys) && Leads(sys, sys)
  {
    assert NoOpen([]) && LegalRun(sys, []) && After(sys, []) == sys;
  }

  lemma LeadsBack(sys: System, a: Action, t: System)
    requires Enabled(sys, a) && !a.Open? && LeadsQuietly(Next(sys, a), t)
    ensures LeadsQuietly(sys, t)
  {
    hide Enabled; hide Next;
    var run :| NoOpen(run) && LegalRun(Next(sys, a), run) && After(Next(sys, a), run) == t;
    assert ([a] + run)[1..] == run;
    assert NoOpen([a] + run) && LegalRun(sys, [a] + run) && After(sys, [a] + run) == t;
  }

  lemma QuietIsSafe(sys: System, t: System)
    requires LeadsQuietly(sys, t)
    ensures Leads(sys, t)
  {
    hide LegalRun; hide After;
  }

  // A step that opens no session.
  lemma WrongBack(sys: System, a: Action)
    requires Enabled(sys, a) && !a.Open? && GoesWrong(Next(sys, a))
    ensures GoesWrong(sys)
  {
    hide Enabled; hide Next; hide LeadsQuietly; hide Sound;
    var t :| LeadsQuietly(Next(sys, a), t) && !Sound(t);
    LeadsBack(sys, a, t);
  }

  // No run whose further sessions take effect safely lets a record go undone ...
  lemma SoundForever(sys: System)
    requires Inv(sys)
    ensures AlwaysSound(sys)
  {
    hide Enabled; hide OpensSafe; hide Next; hide ClientInv; hide ServerInv;
    forall t | Leads(sys, t)
      ensures Sound(t)
    {
      var run :| LegalRun(sys, run) && After(sys, run) == t;
      RunKeepsInv(sys, run);
    }
  }

  // ---------------------------------------------------------------- committing past an undone record

  // The shard has a queue, and record n of it is undone.
  ghost predicate Owed(sys: System, c: nat, s: string, n: nat) {
    && s != "" && s in sys.servers && !Done(sys.servers[s], n) && c in sys.clients
    && Provisioned(sys.clients[c].manager) && sys.clients[c].manager.requests.Keys <= sys.servers.Keys
    && s in sys.clients[c].manager.requests
  }

  // A later record is pending ...
  ghost predicate Ahead(sys: System, c: nat, s: string, n: nat) {
    Owed(sys, c, s, n) && s in sys.clients[c].manager.last && sys.clients[c].manager.last[s].offset.sequence > n
  }

  // ... or the one message queued ...
  ghost predicate QueuedPast(sys: System, c: nat, s: string, n: nat, ready: bool) {
    Owed(sys, c, s, n)
    && var q := sys.clients[c].manager.requests[s];
       |q| == 1 && q[0].offset.sequence > n && q[0].ready == ready
  }

  // ... or in hand.
  ghost predicate HoldsPast(sys: System, c: nat, s: string, n: nat) {
    && Owed(sys, c, s, n) && sys.clients[c].manager.requests[s] == []
    && sys.clients[c].grip.Holding? && sys.clients[c].grip.shard == s && sys.clients[c].grip.offset.sequence > n
  }

  lemma CommitsPast(sys: System, c: nat, s: string, n: nat)
    requires Ahead(sys, c, s, n)
    ensures GoesWrong(sys)
  {
    var a := Commit(c, sys.clients[c].manager.last.Keys, true);
    var t := Next(sys, a);
    assert !ServerInv(t.servers[s]) by {
      assert t.servers[s].committed == Some(sys.clients[c].manager.last[s].offset);
      assert !Done(t.servers[s], n);
    }
    hide Enabled; hide Next; hide ServerInv; hide Ahead;
    LeadsHere(t);
    WrongBack(sys, a);
  }

  lemma SyncsPast(sys: System, c: nat, s: string, n: nat)
    requires QueuedPast(sys, c, s, n, true)
    ensures GoesWrong(sys)
  {
    var a := SyncOffsets(c);
    var q := sys.clients[c].manager.requests[s];
    assert q[1..] == [];
    assert AckedLength(q) == 1;
    SyncKeepsProvisioned(sys.clients[c].manager);
    assert Ahead(Next(sys, a), c, s, n);
    CommitsPast(Next(sys, a), c, s, n);
    WrongBack(sys, a);
  }

  lemma AcksPast(sys: System, c: nat, s: string, n: nat)
    requires QueuedPast(sys, c, s, n, false)
    ensures GoesWrong(sys)
  {
    var a := AckMessage(c, s, 0);
    assert QueuedPast(Next(sys, a), c, s, n, true);
    SyncsPast(Next(sys, a), c, s, n);
    WrongBack(sys, a);
  }

  lemma EnqueuesPast(sys: System, c: nat, s: string, n: nat)
    requires HoldsPast(sys, c, s, n)
    ensures GoesWrong(sys)
  {
    var a := Enqueue(c);
    assert QueuedPast(Next(sys, a), c, s, n, false);
    AcksPast(Next(sys, a), c, s, n);
    WrongBack(sys, a);
  }

  // ---------------------------------------------------------------- letting the reader go on

  // The queue is empty, nothing is in hand, and the shard's reader is f.
  ghost predicate Waits(sys: System, c: nat, s: string, n: nat, f: Fetcher) {
    && Owed(sys, c, s, n) && sys.servers[s].oldest <= |sys.servers[s].log|
    && sys.clients[c].manager.requests[s] == [] && sys.clients[c].limit > 0
    && (sys.clients[c].grip.Free? || sys.clients[c].grip == Reading(s, None))
    && s in sys.clients[c].readers && sys.clients[c].readers[s] == f && Sane(sys.servers[s], f)
  }

  // t comes after sys.
  ghost predicate Follows(sys: System, t: System) {
    GoesWrong(t) ==> GoesWrong(sys)
  }

  lemma StepFollows(sys: System, a: Action)
    requires Enabled(sys, a) && !a.Open?
    ensures Follows(sys, Next(sys, a))
  {
    hide Enabled; hide Next; hide LeadsQuietly; hide Sound; hide GoesWrong;
    if GoesWrong(Next(sys, a)) {
      WrongBack(sys, a);
    }
  }

  lemma Picks(sys: System, c: nat, s: string, n: nat, f: Fetcher) returns (t: System)
    requires Waits(sys, c, s, n, f)
    ensures Waits(t, c, s, n, f) && t.servers == sys.servers && Follows(sys, t)
    ensures t.clients[c] == sys.clients[c].(grip := Reading(s, None), room := t.clients[c].room)
  {
    hide Sane; hide GoesWrong;
    if sys.clients[c].grip.Free? {
      StepFollows(sys, Pick(c, s));
      t := Next(sys, Pick(c, s));
      assert t.servers == sys.servers;
    } else {
      t := sys;
    }
  }

  // The front of the cache is taken.
  lemma Takes(sys: System, c: nat, s: string, n: nat, f: Fetcher) returns (t: System)
    requires Waits(sys, c, s, n, f) && f.reader.cache != []
    ensures Follows(sys, t) && t.servers == sys.servers && Owed(t, c, s, n)
    ensures t.clients[c] == sys.clients[c].(
              readers := sys.clients[c].readers[s := Popped(f)],
              grip := if TakenFrom(f).Taken? then Holding(s, TakenFrom(f).offset) else Free,
              room := t.clients[c].room)
  {
    hide Sane; hide GoesWrong; hide Popped; hide TakenFrom;
    var u := Picks(sys, c, s, n, f);
    StepFollows(u, Take(c));
    t := Next(u, Take(c));
    assert t.servers == u.servers;
  }

  // A record in hand that is not past n is queued, acknowledged and synced.
  lemma Delivers(sys: System, c: nat, s: string, n: nat) returns (t: System)
    requires Owed(sys, c, s, n) && sys.clients[c].manager.requests[s] == []
    requires sys.clients[c].grip.Holding? && sys.clients[c].grip.shard == s
             && 0 <= sys.clients[c].grip.offset.sequence < n
    ensures Follows(sys, t) && Owed(t, c, s, n) && t.clients[c].manager.requests[s] == []
    ensures t.clients[c].grip.Free? && t.clients[c].readers == sys.clients[c].readers
            && t.clients[c].limit == sys.clients[c].limit
    ensures t.servers.Keys == sys.servers.Keys && t.servers[s].log == sys.servers[s].log
            && t.servers[s].oldest == sys.servers[s].oldest
  {
    hide GoesWrong;
    var u := Enqueues(sys, c, s, n);
    StepFollows(u, AckMessage(c, s, 0));
    var v := Next(u, AckMessage(c, s, 0));
    var q := v.clients[c].manager.requests[s];
    assert |q| == 1 && q[0].ready;
    t := Syncs(v, c, s, n);
  }

  lemma Enqueues(sys: System, c: nat, s: string, n: nat) returns (t: System)
    requires Owed(sys, c, s, n) && sys.clients[c].manager.requests[s] == []
    requires sys.clients[c].grip.Holding? && sys.clients[c].grip.shard == s
    ensures Follows(sys, t) && Owed(t, c, s, n)
            && t.clients[c].manager.requests[s] == [Entry(sys.clients[c].grip.offset, false)]
    ensures t.clients[c].grip.Free? && t.clients[c].readers == sys.clients[c].readers
            && t.clients[c].limit == sys.clients[c].limit
    ensures t.servers == sys.servers
  {
    hide GoesWrong;
    StepFollows(sys, Enqueue(c));
    t := Next(sys, Enqueue(c));
    assert t.servers == sys.servers;
  }

  lemma Syncs(sys: System, c: nat, s: string, n: nat) returns (t: System)
    requires Owed(sys, c, s, n) && |sys.clients[c].manager.requests[s]| == 1
             && sys.clients[c].manager.requests[s][0].ready
    ensures Follows(sys, t) && Owed(t, c, s, n) && t.clients[c].manager.requests[s] == []
    ensures t.clients[c].grip == sys.clients[c].grip && t.clients[c].readers == sys.clients[c].readers
    ensures t.clients[c].limit == sys.clients[c].limit && t.servers == sys.servers
  {
    hide GoesWrong;
    var q := sys.clients[c].manager.requests[s];
    assert q[1..] == [] && Unacked(q) == [];
    SyncKeepsProvisioned(sys.clients[c].manager);
    StepFollows(sys, SyncOffsets(c));
    t := Next(sys, SyncOffsets(c));
    assert t.servers == sys.servers;
  }

  // ---------------------------------------------------------------- a cached record that comes too early

  lemma PoppedSequences(f: Fetcher)
    requires f.reader.cache != []
    ensures var seqs := R.Sequences(f.reader.cache);
            && Popped(f).reader.cache == f.reader.cache[1..]
            && (if TakenFrom(f).Taken? then seqs == [TakenFrom(f).offset.sequence] + R.Sequences(Popped(f).reader.cache)
                else seqs == R.Sequences(Popped(f).reader.cache))
    ensures TakenFrom(f).Taken? ==> TakenFrom(f).offset.sequence >= 0
    ensures !TakenFrom(f).Beside?
  {
  }

  // After a record that is not past n, or a marker, the reader waits again.
  lemma TakesEarlier(sys: System, c: nat, s: string, n: nat, f: Fetcher) returns (t: System)
    requires Waits(sys, c, s, n, f) && f.reader.cache != []
    requires TakenFrom(f).Taken? ==> TakenFrom(f).offset.sequence < n
    ensures Waits(t, c, s, n, Popped(f)) && Follows(sys, t) && t.servers.Keys == sys.servers.Keys
    ensures t.servers[s].log == sys.servers[s].log && t.servers[s].oldest == sys.servers[s].oldest
  {
    StepsSane(sys.servers[s], f, false, false);
    PoppedSequences(f);
    hide Sane; hide GoesWrong; hide Popped; hide TakenFrom;
    t := Takes(sys, c, s, n, f);
    if TakenFrom(f).Taken? {
      var u := t;
      t := Delivers(u, c, s, n);
      SaneElsewhere(sys.servers[s], t.servers[s], Popped(f));
    }
  }

  lemma SaneElsewhere(a: Server, b: Server, f: Fetcher)
    requires Sane(a, f) && a.log == b.log
    ensures Sane(b, f)
  {
  }

  // Record n is not among the first ones, up to one that is past it.
  ghost predicate ComesEarly(seqs: seq<int>, i: nat, n: nat) {
    i < |seqs| && n < seqs[i] && n !in seqs[..i]
  }

  lemma {:induction false} CachedPast(sys: System, c: nat, s: string, n: nat, f: Fetcher, i: nat)
    requires Waits(sys, c, s, n, f) && ComesEarly(R.Sequences(f.reader.cache), i, n)
    ensures GoesWrong(sys)
    decreases |f.reader.cache|
  {
    PoppedSequences(f);
    var rest := R.Sequences(Popped(f).reader.cache);
    hide Sane; hide GoesWrong; hide R.Sequences;
    if TakenFrom(f).Taken? && TakenFrom(f).offset.sequence > n {
      var t := Takes(sys, c, s, n, f);
      EnqueuesPast(t, c, s, n);
    } else {
      if TakenFrom(f).Taken? {
        NotFirst([TakenFrom(f).offset.sequence], rest, i, n);
      }
      var t := TakesEarlier(sys, c, s, n, f);
      CachedPast(t, c, s, n, Popped(f), if TakenFrom(f).Taken? then i - 1 else i);
    }
  }

  lemma NotFirst(first: seq<int>, rest: seq<int>, i: nat, n: nat)
    requires |first| == 1 && first[0] <= n && ComesEarly(first + rest, i, n)
    ensures i > 0 && ComesEarly(rest, i - 1, n) && first[0] < n
  {
    assert (first + rest)[..i] == first + rest[..i - 1];
    assert first[0] in first;
  }

  // ---------------------------------------------------------------- a fetch that starts too late

  // Where the reader's next fetch starts.
  function NextSeek(sv: Server, f: Fetcher): nat {
    CursorFor(sv, f.reader.position, false)
  }

  // With an empty cache: the fetch under way, or the next one, starts past n.
  ghost predicate FetchesPast(sv: Server, f: Fetcher, n: nat) {
    !Stuck(f) && ((f.flight.At? && f.flight.cursor > n) || NextSeek(sv, f) > n)
  }

  // The fetch finds a record, which is written first if the log ends there.
  lemma FindsPast(sys: System, c: nat, s: string, n: nat, f: Fetcher)
    requires Waits(sys, c, s, n, f) && f.reader.cache == [] && f.flight.At? && f.flight.cursor > n
    ensures GoesWrong(sys)
  {
    var t := Grows(sys, c, s, n, f);
    var a := Finish(c, s, false, Delivered(1));
    var g := EndFetch(t.servers[s], f, Delivered(1));
    EndSane(t.servers[s], f, Delivered(1));
    EndedCache(t.servers[s], f, Delivered(1));
    hide Sane; hide EndFetch; hide R.Sequences;
    StepFollows(t, a);
    var u := Next(t, a);
    assert u.servers == t.servers;
    assert [] + Pushed(t.servers[s], f, Delivered(1)) == Pushed(t.servers[s], f, Delivered(1));
    assert R.Sequences(g.reader.cache) == [f.flight.cursor];
    hide GoesWrong; hide Next;
    CachedPast(u, c, s, n, g, 0);
  }

  lemma Grows(sys: System, c: nat, s: string, n: nat, f: Fetcher) returns (t: System)
    requires Waits(sys, c, s, n, f) && f.flight.At?
    ensures Waits(t, c, s, n, f) && t.clients == sys.clients && Follows(sys, t) && f.flight.cursor < |t.servers[s].log|
  {
    hide GoesWrong;
    StepFollows(sys, Append(s, 0));
    t := Next(sys, Append(s, 0));
    assert t.servers[s] == sys.servers[s].(log := sys.servers[s].log + [0]);
  }

  lemma SeeksPast(sys: System, c: nat, s: string, n: nat, f: Fetcher)
    requires Waits(sys, c, s, n, f) && f.reader.cache == [] && f.flight.Sent? && NextSeek(sys.servers[s], f) > n
    ensures GoesWrong(sys)
  {
    var a := Seek(c, s, false, false);
    StepsSane(sys.servers[s], f, false, false);
    hide Sane; hide CursorFor;
    StepFollows(sys, a);
    var t := Next(sys, a);
    assert t.servers == sys.servers;
    hide GoesWrong; hide Next;
    FindsPast(t, c, s, n, SeekFetch(sys.servers[s], f, false));
  }

  // The thread finds the cache empty.
  lemma Looks(sys: System, c: nat) returns (t: System)
    requires c in sys.clients && Provisioned(sys.clients[c].manager) && sys.clients[c].limit > 0
    requires IsReading(sys.clients[c]) && BeingRead(sys.clients[c]).reader.cache == []
    ensures Follows(sys, t) && t.servers == sys.servers && t.clients == sys.clients[c := sys.clients[c].(room := true)]
  {
    hide GoesWrong;
    StepFollows(sys, Look(c));
    t := Next(sys, Look(c));
    assert t.servers == sys.servers;
  }

  lemma SendsPast(sys: System, c: nat, s: string, n: nat, f: Fetcher)
    requires Waits(sys, c, s, n, f) && f.reader.cache == [] && !f.reader.running && NextSeek(sys.servers[s], f) > n
    ensures GoesWrong(sys)
  {
    var p := Picks(sys, c, s, n, f);
    var t := Looks(p, c);
    var a := Send(c, true);
    StepsSane(sys.servers[s], f, true, false);
    hide Sane; hide CursorFor; hide GoesWrong;
    StepFollows(t, a);
    var u := Next(t, a);
    assert u.servers == t.servers;
    hide Next;
    SeeksPast(u, c, s, n, SendFetch(f, true));
  }

  // A fetch behind an old cursor fails; its marker is taken, and the next one is sent.
  lemma FailsPast(sys: System, c: nat, s: string, n: nat, f: Fetcher)
    requires Waits(sys, c, s, n, f) && f.reader.cache == [] && f.flight.At? && NextSeek(sys.servers[s], f) > n
    ensures GoesWrong(sys)
  {
    var a := Finish(c, s, false, FetchFailed);
    var g := EndFetch(sys.servers[s], f, FetchFailed);
    EndSane(sys.servers[s], f, FetchFailed);
    hide Sane; hide CursorFor;
    StepFollows(sys, a);
    var t := Next(sys, a);
    assert t.servers == sys.servers;
    hide GoesWrong; hide Next;
    var u := TakesEarlier(t, c, s, n, g);
    SameSeek(t.servers[s], u.servers[s], Popped(g));
    SendsPast(u, c, s, n, Popped(g));
  }

  lemma SameSeek(a: Server, b: Server, f: Fetcher)
    requires a.oldest == b.oldest
    ensures NextSeek(a, f) == NextSeek(b, f)
  {
  }

  lemma EmptyPast(sys: System, c: nat, s: string, n: nat, f: Fetcher)
    requires Waits(sys, c, s, n, f) && f.reader.cache == [] && FetchesPast(sys.servers[s], f, n)
    ensures GoesWrong(sys)
  {
    hide GoesWrong; hide NextSeek;
    match f.flight
    case At(cursor) =>
      if cursor > n {
        FindsPast(sys, c, s, n, f);
      } else {
        FailsPast(sys, c, s, n, f);
      }
    case Sent => SeeksPast(sys, c, s, n, f);
    case Landed => SendsPast(sys, c, s, n, f);
  }

  // The cache, which does not hold n, is read first.
  lemma {:induction false} DrainsPast(sys: System, c: nat, s: string, n: nat, f: Fetcher)
    requires Waits(sys, c, s, n, f) && n !in R.Sequences(f.reader.cache) && FetchesPast(sys.servers[s], f, n)
    ensures GoesWrong(sys)
    decreases |f.reader.cache|
  {
    if f.reader.cache == [] {
      EmptyPast(sys, c, s, n, f);
    } else {
      PoppedSequences(f);
      PoppedElse(f);
      hide Sane; hide GoesWrong; hide R.Sequences; hide Popped; hide TakenFrom;
      if TakenFrom(f).Taken? && TakenFrom(f).offset.sequence > n {
        var t := Takes(sys, c, s, n, f);
        EnqueuesPast(t, c, s, n);
      } else {
        if TakenFrom(f).Taken? {
          assert TakenFrom(f).offset.sequence in R.Sequences(f.reader.cache);
        }
        var t := TakesEarlier(sys, c, s, n, f);
        SameSeek(sys.servers[s], t.servers[s], f);
        SameSeekPopped(t.servers[s], f);
        DrainsPast(t, c, s, n, Popped(f));
      }
    }
  }

  lemma PoppedElse(f: Fetcher)
    ensures Popped(f).flight == f.flight && Popped(f).reader.running == f.reader.running
  {
  }

  lemma SameSeekPopped(sv: Server, f: Fetcher)
    ensures NextSeek(sv, Popped(f)) == NextSeek(sv, f)
  {
  }

  // ---------------------------------------------------------------- a reader beside the map

  // A removed reader is being read, its cache is empty, and the shard's queue is.
  ghost predicate ReadsBeside(sys: System, c: nat, s: string, n: nat, d: Fetcher) {
    && Owed(sys, c, s, n) && sys.servers[s].oldest <= |sys.servers[s].log|
    && sys.clients[c].manager.requests[s] == [] && sys.clients[c].limit > 0
    && sys.clients[c].grip == Reading(s, Some(d)) && d.reader.cache == [] && Sane(sys.servers[s], d)
  }

  lemma FindsBeside(sys: System, c: nat, s: string, n: nat, d: Fetcher)
    requires ReadsBeside(sys, c, s, n, d) && d.flight.At? && d.flight.cursor > n
    ensures GoesWrong(sys)
  {
    hide GoesWrong;
    StepFollows(sys, Append(s, 0));
    var t := Next(sys, Append(s, 0));
    assert t.servers[s] == sys.servers[s].(log := sys.servers[s].log + [0]);
    assert t.clients == sys.clients;
    FinishesBeside(t, c, s, n, d);
  }

  lemma FinishesBeside(sys: System, c: nat, s: string, n: nat, d: Fetcher)
    requires Owed(sys, c, s, n) && sys.clients[c].manager.requests[s] == []
             && sys.clients[c].grip == Reading(s, Some(d))
    requires Sane(sys.servers[s], d) && d.reader.cache == [] && d.flight.At?
             && n < d.flight.cursor < |sys.servers[s].log|
    ensures GoesWrong(sys)
  {
    var a := Finish(c, s, true, Delivered(1));
    var g := EndFetch(sys.servers[s], d, Delivered(1));
    EndedFront(sys.servers[s], d, Delivered(1));
    hide Sane; hide EndFetch; hide GoesWrong;
    StepFollows(sys, a);
    var t := Next(sys, a);
    assert t.servers == sys.servers && t.clients[c] == sys.clients[c].(grip := Reading(s, Some(g)));
    StepFollows(t, Take(c));
    var u := Next(t, Take(c));
    assert u.servers == t.servers;
    assert HoldsPast(u, c, s, n);
    EnqueuesPast(u, c, s, n);
  }

  lemma SeeksBeside(sys: System, c: nat, s: string, n: nat, d: Fetcher)
    requires ReadsBeside(sys, c, s, n, d) && d.flight.Sent? && NextSeek(sys.servers[s], d) > n
    ensures GoesWrong(sys)
  {
    var a := Seek(c, s, true, false);
    StepsSane(sys.servers[s], d, false, false);
    hide Sane; hide CursorFor; hide GoesWrong;
    StepFollows(sys, a);
    var t := Next(sys, a);
    assert t.servers == sys.servers;
    FindsBeside(t, c, s, n, SeekFetch(sys.servers[s], d, false));
  }

  lemma BesidePast(sys: System, c: nat, s: string, n: nat, d: Fetcher)
    requires ReadsBeside(sys, c, s, n, d)
    requires if d.flight.At? then d.flight.cursor > n else !Stuck(d) && NextSeek(sys.servers[s], d) > n
    ensures GoesWrong(sys)
  {
    if d.flight.At? {
      FindsBeside(sys, c, s, n, d);
    } else if d.flight.Sent? {
      SeeksBeside(sys, c, s, n, d);
    } else {
      var p := Looks(sys, c);
      var a := Send(c, true);
      StepsSane(sys.servers[s], d, true, false);
      hide Sane; hide CursorFor; hide GoesWrong;
      StepFollows(p, a);
      var t := Next(p, a);
      assert t.servers == sys.servers;
      SeeksBeside(t, c, s, n, SendFetch(d, true));
    }
  }

  // ---------------------------------------------------------------- finishing what is being read

  // The shard's queue is empty; the thread may be reading anything, but not n.
  ghost predicate Busy(sys: System, c: nat, s: string, n: nat, f: Fetcher) {
    && Owed(sys, c, s, n) && sys.servers[s].oldest <= |sys.servers[s].log|
    && sys.clients[c].manager.requests[s] == [] && sys.clients[c].limit > 0
    && s in sys.clients[c].readers && sys.clients[c].readers[s] == f && Sane(sys.servers[s], f)
    && (sys.clients[c].grip.Reading? ==> IsReading(sys.clients[c]))
    && n !in InHand(LateOf(sys.clients[c], s))
    && forall x :: x in InHand(LateOf(sys.clients[c], s)) ==> x >= 0
  }

  // A record of the shard is in hand.
  lemma HandDone(sys: System, c: nat, s: string, n: nat, f: Fetcher) returns (t: System)
    requires Busy(sys, c, s, n, f) && sys.clients[c].grip.Holding? && sys.clients[c].grip.shard == s
    ensures GoesWrong(sys) || (Waits(t, c, s, n, f) && Follows(sys, t) && t.servers[s].oldest == sys.servers[s].oldest)
  {
    t := sys;
    assert sys.clients[c].grip.offset.sequence in InHand(LateOf(sys.clients[c], s));
    hide GoesWrong; hide Sane;
    if sys.clients[c].grip.offset.sequence > n {
      EnqueuesPast(sys, c, s, n);
    } else {
      t := Delivers(sys, c, s, n);
      SaneElsewhere(sys.servers[s], t.servers[s], f);
    }
  }

  // A record of another shard is.
  lemma OtherHandDone(sys: System, c: nat, s: string, n: nat, f: Fetcher) returns (t: System)
    requires Busy(sys, c, s, n, f) && sys.clients[c].grip.Holding? && sys.clients[c].grip.shard != s
    ensures Waits(t, c, s, n, f) && Follows(sys, t) && t.servers == sys.servers
  {
    hide GoesWrong; hide Sane;
    StepFollows(sys, Enqueue(c));
    t := Next(sys, Enqueue(c));
    assert t.servers == sys.servers;
  }

  lemma ReadDone(sys: System, c: nat, s: string, n: nat, f: Fetcher) returns (t: System)
    requires Busy(sys, c, s, n, f) && sys.clients[c].grip.Reading? && sys.clients[c].grip != Reading(s, None)
    ensures Busy(t, c, s, n, f) && !t.clients[c].grip.Reading? && Follows(sys, t) && t.servers == sys.servers
  {
    hide GoesWrong; hide Sane;
    if BeingRead(sys.clients[c]).reader.cache == [] {
      StepFollows(sys, GiveUp(c));
      t := Next(sys, GiveUp(c));
    } else {
      PoppedSequences(BeingRead(sys.clients[c]));
      StepFollows(sys, Take(c));
      t := Next(sys, Take(c));
    }
    assert t.servers == sys.servers;
  }

  lemma Settles(sys: System, c: nat, s: string, n: nat, f: Fetcher) returns (t: System)
    requires Busy(sys, c, s, n, f)
    ensures GoesWrong(sys) || (Waits(t, c, s, n, f) && Follows(sys, t) && t.servers[s].oldest == sys.servers[s].oldest)
  {
    hide Sane; hide LateOf; hide InHand; hide Done; hide GoesWrong;
    var u := sys;
    if sys.clients[c].grip.Reading? && sys.clients[c].grip != Reading(s, None) {
      u := ReadDone(sys, c, s, n, f);
    }
    t := u;
    if u.clients[c].grip.Holding? {
      if u.clients[c].grip.shard == s {
        t := HandDone(u, c, s, n, f);
      } else {
        t := OtherHandDone(u, c, s, n, f);
      }
    }
  }

  // ---------------------------------------------------------------- opening a session

  // A session taking effect: its shard is named, and the consumer may fetch.
  ghost predicate Opens(sys: System, a: Action) {
    Enabled(sys, a) && a.Open? && a.shard != "" && sys.clients[a.c].limit > 0
  }

  function Opened(sys: System, a: Action): Client
    requires Enabled(sys, a) && a.Open?
  {
    OpenClient(sys.clients[a.c], a.shard, a.version, a.session)
  }

  // The shard's reader once the session has taken effect.
  lemma OpenedFacts(sys: System, a: Action)
    requires Inv(sys) && Opens(sys, a)
    ensures var t, cl := Next(sys, a), Opened(sys, a);
            && t.servers == sys.servers && t.clients[a.c] == cl
            && a.shard in cl.readers && Sane(t.servers[a.shard], cl.readers[a.shard])
            && t.servers[a.shard].oldest <= |t.servers[a.shard].log|
            && (cl.grip.Reading? ==> IsReading(cl)) && cl.manager.requests[a.shard] == []
            && SaneLate(t.servers[a.shard], LateOf(cl, a.shard))
            && a.c in t.clients && Provisioned(cl.manager) && cl.manager.requests.Keys <= t.servers.Keys
            && a.shard in t.servers && a.shard in cl.manager.requests && cl.limit > 0
  {
    var cl := sys.clients[a.c];
    assert ClientInv(sys.servers, cl);
    assert ServerInv(sys.servers[a.shard]);
    OpenBased(sys.servers, cl, a.shard, a.version, a.session);
    assert Next(sys, a).servers == sys.servers;
    OpenedBased(sys.servers, Opened(sys, a), a.shard);
    hide Based; hide Sane; hide ClientInv; hide Inv;
  }

  lemma OpenedBased(servers: map<string, Server>, cl: Client, s: string)
    requires Based(servers, cl) && s in servers
    ensures s in cl.readers ==> Sane(servers[s], cl.readers[s])
    ensures SaneLate(servers[s], LateOf(cl, s)) && (cl.grip.Reading? ==> IsReading(cl))
    ensures Provisioned(cl.manager) && cl.manager.requests.Keys <= servers.Keys
  {
    hide Sane; hide Safe;
  }

  lemma HeldInLog(sv: Server, late: Late, f: Fetcher, i: nat)
    requires Sane(sv, f) && SaneLate(sv, late) && i < |InHand(late) + R.Sequences(f.reader.cache)|
    ensures 0 <= (InHand(late) + R.Sequences(f.reader.cache))[i] < |sv.log|
  {
    if i >= |InHand(late)| {
      SequencesInLog(sv, f.reader.cache, i - |InHand(late)|);
    }
  }

  lemma {:induction false} SequencesInLog(sv: Server, cache: seq<R.Fetched>, i: nat)
    requires i < |R.Sequences(cache)|
    requires forall j :: 0 <= j < |cache| && cache[j].Record? ==> cache[j].sequence < |sv.log|
    ensures 0 <= R.Sequences(cache)[i] < |sv.log|
  {
    var first := if cache[0].Record? then 1 else 0;
    if i >= first {
      SequencesInLog(sv, cache[1..], i - first);
    }
  }

  lemma OpenedHeld(sys: System, a: Action)
    requires Enabled(sys, a) && a.Open?
    ensures var cl := Opened(sys, a);
            && a.shard in cl.manager.requests && a.shard in cl.readers
            && Held(SlotOf(cl, a.shard)) == InHand(LateOf(cl, a.shard)) + R.Sequences(cl.readers[a.shard].reader.cache)
  {
    hide R.Sequences; hide InHand; hide LateOf;
  }

  // Some held record comes before one it would be committed over.
  lemma EarlyGoesWrong(sys: System, c: nat, s: string, f: Fetcher, i: nat, n: nat)
    requires Owed(sys, c, s, n) && sys.servers[s].oldest <= |sys.servers[s].log|
    requires sys.clients[c].manager.requests[s] == [] && sys.clients[c].limit > 0
    requires s in sys.clients[c].readers && sys.clients[c].readers[s] == f && Sane(sys.servers[s], f)
    requires (sys.clients[c].grip.Reading? ==> IsReading(sys.clients[c]))
             && SaneLate(sys.servers[s], LateOf(sys.clients[c], s))
    requires ComesEarly(InHand(LateOf(sys.clients[c], s)) + R.Sequences(f.reader.cache), i, n)
    ensures GoesWrong(sys)
  {
    var hand, seqs := InHand(LateOf(sys.clients[c], s)), R.Sequences(f.reader.cache);
    hide R.Sequences; hide GoesWrong; hide Sane;
    if i < |hand| {
      HandPast(sys, c, s, n);
    } else {
      assert (hand + seqs)[..i] == hand + seqs[..i - |hand|];
      assert n !in hand && ComesEarly(seqs, i - |hand|, n);
      assert Busy(sys, c, s, n, f);
      var t := Settles(sys, c, s, n, f);
      if !GoesWrong(sys) {
        CachedPast(t, c, s, n, f, i - |hand|);
      }
    }
  }

  // The record in hand, or in front of the removed reader being read, is past n.
  lemma HandPast(sys: System, c: nat, s: string, n: nat)
    requires Owed(sys, c, s, n) && sys.clients[c].manager.requests[s] == []
    requires (sys.clients[c].grip.Reading? ==> IsReading(sys.clients[c]))
    requires var hand := InHand(LateOf(sys.clients[c], s)); hand != [] && hand[0] > n
    ensures GoesWrong(sys)
  {
    hide GoesWrong;
    if sys.clients[c].grip.Holding? {
      EnqueuesPast(sys, c, s, n);
    } else {
      StepFollows(sys, Take(c));
      var t := Next(sys, Take(c));
      assert t.servers == sys.servers;
      EnqueuesPast(t, c, s, n);
    }
  }

  // The kept reader would fetch past an undone record that nobody holds.
  lemma LateFetchGoesWrong(sys: System, c: nat, s: string, f: Fetcher, n: nat)
    requires Busy(sys, c, s, n, f) && n !in R.Sequences(f.reader.cache) && FetchesPast(sys.servers[s], f, n)
    ensures GoesWrong(sys)
  {
    hide GoesWrong; hide Busy;
    var t := Settles(sys, c, s, n, f);
    if !GoesWrong(sys) {
      BusyRange(sys, c, s, n, f);
      SameSeek(sys.servers[s], t.servers[s], f);
      hide NextSeek;
      DrainsPast(t, c, s, n, f);
    }
  }

  lemma BusyRange(sys: System, c: nat, s: string, n: nat, f: Fetcher)
    requires Busy(sys, c, s, n, f)
    ensures s in sys.servers
  {
  }

  // What is wrong with a slot that is not in order.
  lemma NotClosed(sv: Server, held: seq<int>) returns (i: nat, n: nat)
    requires !Closed(sv, held) && forall j :: 0 <= j < |held| ==> 0 <= held[j] < |sv.log|
    ensures ComesEarly(held, i, n) && !Done(sv, n)
  {
    i :| i < |held| && !Admits(sv, held[..i], held[i]);
    n :| n < held[i] && !Done(sv, n) && n !in held[..i];
  }

  lemma NotCovered(sv: Server, held: seq<int>, p: int) returns (n: nat)
    requires !Covers(sv, held, p) && 0 <= p <= |sv.log|
    ensures n < p && !Done(sv, n) && n !in held
  {
    n :| n < p && !Done(sv, n) && n !in held;
  }

  lemma NotSeeking(sv: Server, held: seq<int>, f: Fetcher) returns (n: nat)
    requires !SeeksOk(sv, held, f.reader.position) && Sane(sv, f)
    ensures n < NextSeek(sv, f) && !Done(sv, n) && n !in held
  {
    hide Covers;
    var p := f.reader.position;
    n := NotCovered(sv, held, if p.cursor.Some? then p.cursor.value else p.sequence);
  }

  lemma NotFetching(sv: Server, held: seq<int>, f: Fetcher) returns (n: nat)
    requires !FetchesOk(sv, held, f) && Sane(sv, f)
    ensures FetchesPast(sv, f, n) && !Done(sv, n) && n !in held
  {
    hide SeeksOk; hide NextSeek; hide Covers;
    if !SeeksOk(sv, held, f.reader.position) {
      n := NotSeeking(sv, held, f);
    } else {
      n := NotCovered(sv, held, f.flight.cursor);
    }
  }

  lemma NotBeside(sv: Server, before: seq<int>, d: Fetcher) returns (n: nat)
    requires !BesideOk(sv, before, d) && Sane(sv, d)
    ensures d.reader.cache == [] && !Done(sv, n)
    ensures if d.flight.At? then d.flight.cursor > n else !Stuck(d) && NextSeek(sv, d) > n
  {
    hide SeeksOk; hide NextSeek; hide Covers;
    if d.flight.At? {
      n := NotCovered(sv, before, d.flight.cursor);
    } else {
      n := NotSeeking(sv, before, d);
    }
  }

  lemma AllInLog(sv: Server, late: Late, f: Fetcher)
    requires Sane(sv, f) && SaneLate(sv, late)
    ensures forall i :: 0 <= i < |InHand(late) + R.Sequences(f.reader.cache)| ==>
              0 <= (InHand(late) + R.Sequences(f.reader.cache))[i] < |sv.log|
  {
    hide Sane; hide SaneLate; hide InHand; hide R.Sequences;
    forall i | 0 <= i < |InHand(late) + R.Sequences(f.reader.cache)|
      ensures 0 <= (InHand(late) + R.Sequences(f.reader.cache))[i] < |sv.log|
    {
      HeldInLog(sv, late, f, i);
    }
  }

  lemma UnsafeOpenGoesWrong(sys: System, a: Action)
    requires Inv(sys) && Opens(sys, a) && !OpensSafe(sys, a)
    ensures GoesWrong(Next(sys, a))
  {
    OpenedFacts(sys, a);
    OpenedHeld(sys, a);
    var t, s, c, cl := Next(sys, a), a.shard, a.c, Opened(sys, a);
    var sv, f, late := t.servers[s], cl.readers[s], LateOf(cl, s);
    var held := InHand(late) + R.Sequences(f.reader.cache);
    AllInLog(sv, late, f);
    OpenedSlot(sys, a);
    hide Inv; hide Next; hide Sane; hide SaneLate; hide InHand; hide R.Sequences; hide LateOf; hide Closed;
    hide FetchesOk;
    hide BesideOk; hide GoesWrong; hide Done; hide Held; hide OpenClient; hide NextSeek;
    if !Closed(sv, held) {
      var i, n := NotClosed(sv, held);
      EarlyGoesWrong(t, c, s, f, i, n);
    } else if !FetchesOk(sv, held, f) {
      var n := NotFetching(sv, held, f);
      BusyAfterOpen(t, c, s, n, f);
      LateFetchGoesWrong(t, c, s, f, n);
    } else {
      var n := NotBeside(sv, [], late.fetcher) by { SaneBeside(sv, late); }
      BesideAfterOpen(t, c, s, n);
      BesidePast(t, c, s, n, late.fetcher);
    }
  }

  lemma SaneBeside(sv: Server, late: Late)
    requires SaneLate(sv, late)
    ensures late.Beside? ==> Sane(sv, late.fetcher)
  {
  }

  // The slot of a shard whose session has just taken effect.
  lemma OpenedSlot(sys: System, a: Action)
    requires Enabled(sys, a) && a.Open?
    ensures var cl := Opened(sys, a); var slot := SlotOf(cl, a.shard);
            slot.late == LateOf(cl, a.shard) && slot.fetcher == Some(cl.readers[a.shard])
              && QueueSequences(slot.queue) == []
  {
    hide LateOf;
  }

  lemma BusyAfterOpen(sys: System, c: nat, s: string, n: nat, f: Fetcher)
    requires Owed(sys, c, s, n) && sys.servers[s].oldest <= |sys.servers[s].log|
    requires sys.clients[c].manager.requests[s] == [] && sys.clients[c].limit > 0
    requires s in sys.clients[c].readers && sys.clients[c].readers[s] == f && Sane(sys.servers[s], f)
    requires (sys.clients[c].grip.Reading? ==> IsReading(sys.clients[c]))
             && SaneLate(sys.servers[s], LateOf(sys.clients[c], s))
    requires n !in InHand(LateOf(sys.clients[c], s)) + R.Sequences(f.reader.cache)
    ensures Busy(sys, c, s, n, f) && n !in R.Sequences(f.reader.cache)
  {
    var hand, seqs := InHand(LateOf(sys.clients[c], s)), R.Sequences(f.reader.cache);
    assert forall x :: x in seqs ==> x in hand + seqs;
    hide R.Sequences; hide LateOf;
  }

  lemma BesideAfterOpen(sys: System, c: nat, s: string, n: nat)
    requires Owed(sys, c, s, n) && sys.servers[s].oldest <= |sys.servers[s].log|
    requires sys.clients[c].manager.requests[s] == [] && sys.clients[c].limit > 0
    requires LateOf(sys.clients[c], s).Beside? && LateOf(sys.clients[c], s).fetcher.reader.cache == []
    requires SaneLate(sys.servers[s], LateOf(sys.clients[c], s))
    ensures ReadsBeside(sys, c, s, n, LateOf(sys.clients[c], s).fetcher)
  {
    hide Sane;
  }

  // A session may take effect exactly when that is safe: then no later run ever makes a server
  // believe an undone record done, as long as further sessions take effect safely as well; and
  // otherwise some run does even if no further session takes effect.
  lemma OpenSafeIff(sys: System, a: Action)
    requires Inv(sys) && Opens(sys, a)
    ensures OpensSafe(sys, a) <==> AlwaysSound(Next(sys, a))
    ensures OpensSafe(sys, a) <==> !GoesWrong(Next(sys, a))
  {
    hide Inv; hide Next; hide OpensSafe; hide Leads; hide LeadsQuietly; hide Sound; hide Enabled;
    if OpensSafe(sys, a) {
      StepKeepsInv(sys, a);
      SoundForever(Next(sys, a));
      if GoesWrong(Next(sys, a)) {
        var t :| LeadsQuietly(Next(sys, a), t) && !Sound(t);
        QuietIsSafe(Next(sys, a), t);
      }
    } else {
      UnsafeOpenGoesWrong(sys, a);
      var t :| LeadsQuietly(Next(sys, a), t) && !Sound(t);
      QuietIsSafe(Next(sys, a), t);
    }
  }

  // ---------------------------------------------------------------- whole runs

  // Any run, however sessions are opened.
  ghost predicate AnyRun(sys: System, run: seq<Action>)
    decreases |run|
  {
    run != [] ==>
      Enabled(sys, run[0]) && (run[0].Open? ==> Opens(sys, run[0])) && AnyRun(Next(sys, run[0]), run[1..])
  }

  ghost predicate SoundThroughout(sys: System, run: seq<Action>)
    requires AnyRun(sys, run)
    decreases |run|
  {
    AlwaysSound(sys) && (run != [] ==> SoundThroughout(Next(sys, run[0]), run[1..]))
  }

  // A run opens its sessions safely if and only if at no point of it a record can get lost any more.
  lemma {:induction false} RunSafeIff(sys: System, run: seq<Action>)
    requires Inv(sys) && AnyRun(sys, run)
    ensures LegalRun(sys, run) <==> SoundThroughout(sys, run)
    decreases |run|
  {
    hide Inv; hide Next; hide OpensSafe; hide AlwaysSound; hide Enabled;
    SoundForever(sys);
    if run != [] {
      if OpensSafe(sys, run[0]) {
        StepKeepsInv(sys, run[0]);
        RunSafeIff(Next(sys, run[0]), run[1..]);
      } else {
        assert run[0].Open? by { OnlyOpens(sys, run[0]); }
        OpenSafeIff(sys, run[0]);
      }
    }
  }

  lemma OnlyOpens(sys: System, a: Action)
    requires Enabled(sys, a) && !OpensSafe(sys, a)
    ensures a.Open?
  {
  }

  // ---------------------------------------------------------------- what the condition comes to

  // A shard without a reader, and nothing of it being read: a session may always take effect.
  lemma FreshOpenSafe(sys: System, a: Action)
    requires Inv(sys) && Opens(sys, a) && a.shard !in sys.clients[a.c].readers
             && LateOf(sys.clients[a.c], a.shard).Nobody?
    ensures OpensSafe(sys, a)
  {
    FreshOpened(sys, a);
    OpenedHeld(sys, a);
    OpenedSlot(sys, a);
    hide FetchesOk; hide Inv; hide Held;
  }

  lemma FreshOpened(sys: System, a: Action)
    requires Inv(sys) && Opens(sys, a) && a.shard !in sys.clients[a.c].readers
    ensures var cl := Opened(sys, a); var sv, f := sys.servers[a.shard], cl.readers[a.shard];
            R.Sequences(f.reader.cache) == [] && forall held :: FetchesOk(sys.servers[a.shard], held, f)
    ensures LateOf(Opened(sys, a), a.shard) == LateOf(sys.clients[a.c], a.shard)
  {
    var cl := sys.clients[a.c];
    assert ClientInv(sys.servers, cl);
    forall held
      ensures FetchesOk(sys.servers[a.shard], held, Opened(sys, a).readers[a.shard])
    {
      FreshFetches(sys.servers[a.shard], held, cl.asked[a.shard]);
    }
    FreshFetches(sys.servers[a.shard], [], cl.asked[a.shard]);
  }

  // A shard without a reader, but a record of it in hand: exactly when all before that record is done.
  lemma HandOpenSafeIff(sys: System, a: Action)
    requires Inv(sys) && Opens(sys, a) && a.shard !in sys.clients[a.c].readers
             && LateOf(sys.clients[a.c], a.shard).Taken?
    ensures OpensSafe(sys, a) <==>
            forall n :: 0 <= n < LateOf(sys.clients[a.c], a.shard).offset.sequence ==> Done(sys.servers[a.shard], n)
  {
    var x := LateOf(sys.clients[a.c], a.shard).offset.sequence;
    OpenedFacts(sys, a);
    FreshOpened(sys, a);
    OpenedHeld(sys, a);
    OpenedSlot(sys, a);
    hide FetchesOk; hide Inv; hide Held; hide Next; hide LateOf; hide Done;
    assert [x] + [] == [x] && [x][..0] == [];
    assert Closed(sys.servers[a.shard], [x]) <==> Admits(sys.servers[a.shard], [], x);
  }

  // A reader that was kept, its queue drained: always.
  lemma DrainedOpenSafe(sys: System, a: Action)
    requires Inv(sys) && Opens(sys, a) && a.shard in sys.clients[a.c].readers
             && a.shard in sys.clients[a.c].manager.requests
    requires var q := sys.clients[a.c].manager.requests[a.shard];
             forall i :: 0 <= i < |q| ==> Done(sys.servers[a.shard], q[i].offset.sequence)
    ensures OpensSafe(sys, a)
  {
    var cl, sv, s := sys.clients[a.c], sys.servers[a.shard], a.shard;
    var slot, after := SlotOf(cl, s), SlotOf(Opened(sys, a), s);
    assert ClientInv(sys.servers, cl);
    assert SlotInv(sv, slot);
    assert after == slot.(queue := []);
    DropsQueue(sv, slot);
  }

  lemma DropsQueue(sv: Server, slot: Slot)
    requires Orderly(sv, slot) && forall i :: 0 <= i < |slot.queue| ==> Done(sv, slot.queue[i].offset.sequence)
    ensures Orderly(sv, slot.(queue := []))
  {
    var held, k, queue, after := Held(slot), |slot.queue|, QueueSequences(slot.queue), slot.(queue := []);
    assert Held(after) == held[k..];
    QueueFirst(slot);
    hide Closed; hide FetchesOk; hide BesideOk; hide Held; hide Done; hide Keeps;
    DropClosed(sv, held, k);
    DropKeeps(sv, held, k, |held|);
    assert held[..|held|] == held && held[k..][..|held| - k] == held[k..];
    DropKeeps(sv, queue, k, k);
    assert queue[..k] == queue && queue[k..][..k - k] == [] && QueueSequences(after.queue) == [];
    if slot.fetcher.Some? {
      FetchesMore(sv, held, sv, held[k..], slot.fetcher.value);
    }
    if slot.late.Beside? {
      BesideMore(sv, queue, sv, [], slot.late.fetcher);
    }
  }

  // ---------------------------------------------------------------- a reader that was kept

  // Where the reader seeks next is past n.
  predicate StartsPast(p: R.Position, n: int) {
    if p.cursor.Some? then n < p.cursor.value else p.sequence != -1 && n < p.sequence
  }

  // The reader will go on past n without fetching it.
  predicate SkipsOver(f: Fetcher, n: int) {
    !Stuck(f) && (StartsPast(f.reader.position, n) || (f.flight.At? && n < f.flight.cursor))
  }

  // The next record a removed reader hands out is past n.
  predicate HandsPast(f: Fetcher, n: int) {
    f.reader.cache == [] && if f.flight.At? then n < f.flight.cursor else !Stuck(f) && StartsPast(f.reader.position, n)
  }

  // With the queue emptied, record n still comes before anything past it: what is in hand and cached
  // has it in front of every later record, and no fetch goes on without it.
  ghost predicate ComesAgain(rest: seq<int>, f: Fetcher, late: Late, n: int) {
    && (forall j :: 0 <= j < |rest| && n < rest[j] ==> n in rest[..j])
    && (SkipsOver(f, n) ==> n in rest)
    && (late.Beside? ==> !HandsPast(late.fetcher, n))
  }

  // A reader that was kept: exactly when every queued record that is not done comes again.
  lemma KeptOpenSafeIff(sys: System, a: Action)
    requires Inv(sys) && Opens(sys, a) && a.shard in sys.clients[a.c].readers
    requires a.shard in sys.clients[a.c].manager.requests
    ensures var cl, s := sys.clients[a.c], a.shard;
            OpensSafe(sys, a) <==>
              forall i :: 0 <= i < |cl.manager.requests[s]| ==>
                var n := cl.manager.requests[s][i].offset.sequence;
                Done(sys.servers[s], n) || ComesAgain(Rest(cl, s), cl.readers[s], LateOf(cl, s), n)
  {
    var cl, sv, s := sys.clients[a.c], sys.servers[a.shard], a.shard;
    var q := QueueSequences(cl.manager.requests[s]);
    assert ClientInv(sys.servers, cl);
    assert SlotInv(sv, SlotOf(cl, s));
    KeptOpens(sys, a);
    WholeHeld(cl, s);
    hide Inv; hide Enabled; hide Next; hide ClientInv; hide OpensSafe; hide LateOf; hide Rest; hide Held; hide SlotOf;
    hide Closed; hide FetchesOk; hide BesideOk; hide Done; hide ComesAgain;
    AgainIff(sv, q, Rest(cl, s), cl.readers[s], LateOf(cl, s));
    assert forall i :: 0 <= i < |q| ==> q[i] == cl.manager.requests[s][i].offset.sequence;
  }

  lemma AgainIff(sv: Server, q: seq<int>, rest: seq<int>, f: Fetcher, late: Late)
    requires Closed(sv, q + rest) && FetchesOk(sv, q + rest, f) && (late.Beside? ==> BesideOk(sv, q, late.fetcher))
    ensures Closed(sv, rest) && FetchesOk(sv, rest, f) && (late.Beside? ==> BesideOk(sv, [], late.fetcher)) <==>
            forall i :: 0 <= i < |q| ==> Done(sv, q[i]) || ComesAgain(rest, f, late, q[i])
  {
    RestClosedIff(sv, q, rest);
    RestFetchesIff(sv, q, rest, f);
    if late.Beside? {
      PrefixClosed(sv, q, rest);
      assert q + [] == q;
      BesideIff(sv, q, late.fetcher);
    }
    hide Closed; hide FetchesOk; hide BesideOk; hide SkipsOver; hide HandsPast; hide Done;
  }

  lemma WholeHeld(cl: Client, s: string)
    requires s in cl.manager.requests && s in cl.readers
    ensures Held(SlotOf(cl, s)) == QueueSequences(cl.manager.requests[s]) + Rest(cl, s)
    ensures SlotOf(cl, s).fetcher == Some(cl.readers[s]) && SlotOf(cl, s).late == LateOf(cl, s)
    ensures SlotOf(cl, s).queue == cl.manager.requests[s]
  {
    hide R.Sequences; hide LateOf;
  }

  lemma RestClosedIff(sv: Server, q: seq<int>, rest: seq<int>)
    requires Closed(sv, q + rest)
    ensures Closed(sv, rest) <==>
            forall i, j :: 0 <= i < |q| && !Done(sv, q[i]) && 0 <= j < |rest| && q[i] < rest[j] ==> q[i] in rest[..j]
  {
    forall j | 0 <= j < |rest|
      ensures Admits(sv, q + rest[..j], rest[j])
      ensures Admits(sv, rest[..j], rest[j]) <==>
              forall i :: 0 <= i < |q| && !Done(sv, q[i]) && q[i] < rest[j] ==> q[i] in rest[..j]
    {
      assert Admits(sv, (q + rest)[..|q| + j], (q + rest)[|q| + j]);
      assert (q + rest)[..|q| + j] == q + rest[..j];
      QueuedAtLeast(sv, q, rest);
    }
  }

  lemma QueuedAtLeast(sv: Server, q: seq<int>, rest: seq<int>)
    requires Closed(sv, q + rest)
    ensures forall i :: 0 <= i < |q| ==> 0 <= q[i]
  {
    forall i | 0 <= i < |q|
      ensures 0 <= q[i]
    {
      assert Admits(sv, (q + rest)[..i], (q + rest)[i]);
    }
  }

  lemma CoversIff(sv: Server, q: seq<int>, rest: seq<int>, p: int)
    requires Closed(sv, q + rest) && Covers(sv, q + rest, p)
    ensures Covers(sv, rest, p) <==> forall i :: 0 <= i < |q| && !Done(sv, q[i]) && q[i] < p ==> q[i] in rest
  {
    QueuedAtLeast(sv, q, rest);
  }

  lemma SeeksIff(sv: Server, q: seq<int>, rest: seq<int>, p: R.Position)
    requires Closed(sv, q + rest) && SeeksOk(sv, q + rest, p)
    ensures SeeksOk(sv, rest, p) <==>
            forall i :: 0 <= i < |q| && !Done(sv, q[i]) && StartsPast(p, q[i]) ==> q[i] in rest
  {
    hide Covers; hide Closed;
    if p.cursor.Some? {
      CoversIff(sv, q, rest, p.cursor.value);
    } else if p.sequence != -1 {
      CoversIff(sv, q, rest, p.sequence);
    }
  }

  lemma RestFetchesIff(sv: Server, q: seq<int>, rest: seq<int>, f: Fetcher)
    requires Closed(sv, q + rest) && FetchesOk(sv, q + rest, f)
    ensures FetchesOk(sv, rest, f) <==>
            forall i :: 0 <= i < |q| && !Done(sv, q[i]) && SkipsOver(f, q[i]) ==> q[i] in rest
  {
    hide SeeksOk; hide Covers; hide Closed; hide StartsPast;
    if !Stuck(f) {
      SeeksIff(sv, q, rest, f.reader.position);
      if f.flight.At? {
        CoversIff(sv, q, rest, f.flight.cursor);
      }
    }
  }

  lemma BesideIff(sv: Server, q: seq<int>, f: Fetcher)
    requires BesideOk(sv, q, f) && Closed(sv, q + [])
    ensures BesideOk(sv, [], f) <==> forall i :: 0 <= i < |q| && !Done(sv, q[i]) ==> !HandsPast(f, q[i])
  {
    hide SeeksOk; hide Covers; hide Closed; hide StartsPast;
    assert q + [] == q;
    if f.flight.At? {
      if f.reader.cache == [] {
        CoversIff(sv, q, [], f.flight.cursor);
      }
    } else if f.reader.cache == [] && !Stuck(f) {
      SeeksIff(sv, q, [], f.reader.position);
    }
  }

  // The records held of the shard are in strictly increasing order, and the reader's cursor is past
  // all of them.
  ghost predicate InOrder(cl: Client, s: string) {
    && s in cl.manager.requests && s in cl.readers && !LateOf(cl, s).Beside?
    && var f, held := cl.readers[s], Held(SlotOf(cl, s));
       && f.reader.position.cursor.Some?
       && (forall i, j :: 0 <= i < j < |held| ==> held[i] < held[j])
       && (forall i :: 0 <= i < |held| ==> held[i] < f.reader.position.cursor.value)
  }

  // Then: exactly when every queued message is done -- or nothing more will ever come from the reader,
  // which has lost its fetch task.
  lemma InOrderOpenSafeIff(sys: System, a: Action)
    requires Inv(sys) && Opens(sys, a) && InOrder(sys.clients[a.c], a.shard)
    ensures var cl, s := sys.clients[a.c], a.shard;
            OpensSafe(sys, a) <==>
              || (forall i :: 0 <= i < |cl.manager.requests[s]| ==>
                    Done(sys.servers[s], cl.manager.requests[s][i].offset.sequence))
              || (Stuck(cl.readers[s]) && Rest(cl, s) == [])
  {
    var cl, s := sys.clients[a.c], a.shard;
    var q := cl.manager.requests[s];
    if forall i :: 0 <= i < |q| ==> Done(sys.servers[s], q[i].offset.sequence) {
      DrainedOpenSafe(sys, a);
    } else {
      var i :| 0 <= i < |q| && !Done(sys.servers[s], q[i].offset.sequence);
      KeptUndone(sys, a, i);
    }
  }

  // What is left of the shard when its queue has been emptied.
  function Rest(cl: Client, s: string): seq<int>
    requires s in cl.readers
  {
    InHand(LateOf(cl, s)) + R.Sequences(cl.readers[s].reader.cache)
  }

  lemma KeptSlot(sys: System, a: Action)
    requires Enabled(sys, a) && a.Open? && a.shard in sys.clients[a.c].readers
    ensures var cl, s := sys.clients[a.c], a.shard; var cl' := Opened(sys, a);
            && s in cl'.manager.requests && Held(SlotOf(cl', s)) == Rest(cl, s)
            && SlotOf(cl', s).fetcher == Some(cl.readers[s]) && SlotOf(cl', s).late == LateOf(cl, s)
            && QueueSequences(SlotOf(cl', s).queue) == []
  {
    OpenedHeld(sys, a);
    OpenedSlot(sys, a);
    hide R.Sequences; hide InHand; hide Held; hide Enabled;
  }

  lemma KeptOpens(sys: System, a: Action)
    requires Opens(sys, a) && a.shard in sys.clients[a.c].readers
    ensures var cl, sv := sys.clients[a.c], sys.servers[a.shard];
            OpensSafe(sys, a) <==>
              && Closed(sv, Rest(cl, a.shard)) && FetchesOk(sv, Rest(cl, a.shard), cl.readers[a.shard])
              && (LateOf(cl, a.shard).Beside? ==> BesideOk(sv, [], LateOf(cl, a.shard).fetcher))
  {
    KeptSlot(sys, a);
    hide Rest; hide Held; hide LateOf; hide SlotOf; hide Closed; hide FetchesOk; hide OpenClient; hide BesideOk;
  }

  // Whatever is left is past every queued message, and so is the cursor.
  lemma KeptAbove(sys: System, a: Action, i: nat)
    requires Inv(sys) && Opens(sys, a) && InOrder(sys.clients[a.c], a.shard)
    requires i < |sys.clients[a.c].manager.requests[a.shard]|
    ensures var cl := sys.clients[a.c];
            var n, f := cl.manager.requests[a.shard][i].offset.sequence, cl.readers[a.shard];
            && 0 <= n && f.reader.position.cursor.Some? && n < f.reader.position.cursor.value
            && forall j :: 0 <= j < |Rest(cl, a.shard)| ==> n < Rest(cl, a.shard)[j]
  {
    var cl := sys.clients[a.c];
    assert ClientInv(sys.servers, cl);
    assert SlotInv(sys.servers[a.shard], SlotOf(cl, a.shard));
    RestAbove(cl, a.shard, i);
    hide Inv; hide R.Sequences; hide InHand; hide LateOf; hide Held; hide ClientInv; hide SlotInv; hide Enabled;
    QueuedInLog(sys.servers[a.shard], SlotOf(cl, a.shard), i);
  }

  lemma InOrderKept(cl: Client, s: string)
    requires InOrder(cl, s)
    ensures s in cl.readers && !LateOf(cl, s).Beside?
  {
  }

  lemma KeptUndone(sys: System, a: Action, i: nat)
    requires Inv(sys) && Opens(sys, a) && InOrder(sys.clients[a.c], a.shard)
    requires i < |sys.clients[a.c].manager.requests[a.shard]|
    requires !Done(sys.servers[a.shard], sys.clients[a.c].manager.requests[a.shard][i].offset.sequence)
    ensures OpensSafe(sys, a) <==>
            Stuck(sys.clients[a.c].readers[a.shard]) && Rest(sys.clients[a.c], a.shard) == []
  {
    InOrderKept(sys.clients[a.c], a.shard);
    KeptOpens(sys, a);
    KeptAbove(sys, a, i);
    hide Inv; hide Rest; hide OpensSafe; hide Closed; hide FetchesOk; hide Done; hide Stuck; hide InOrder;
    var cl := sys.clients[a.c];
    RestInOrder(sys.servers[a.shard], Rest(cl, a.shard), cl.readers[a.shard],
                cl.manager.requests[a.shard][i].offset.sequence);
  }

  lemma QueuedInLog(sv: Server, slot: Slot, i: nat)
    requires SlotInv(sv, slot) && i < |slot.queue|
    ensures slot.queue[i].offset.sequence >= 0
  {
    QueueFirst(slot);
    assert Admits(sv, Held(slot)[..i], Held(slot)[i]);
  }

  // Everything held, and every later fetch, is past the undone record n.
  lemma RestInOrder(sv: Server, rest: seq<int>, f: Fetcher, n: nat)
    requires !Done(sv, n) && f.reader.position.cursor.Some? && n < f.reader.position.cursor.value
    requires forall j :: 0 <= j < |rest| ==> n < rest[j]
    ensures Closed(sv, rest) && FetchesOk(sv, rest, f) <==> Stuck(f) && rest == []
  {
    if rest != [] {
      assert rest[..0] == [];
      assert !Admits(sv, rest[..0], rest[0]);
    } else if !Stuck(f) {
      assert !Covers(sv, rest, f.reader.position.cursor.value);
    }
  }

  // With records in order, what follows the queue is past every queued message.
  lemma RestAbove(cl: Client, s: string, i: nat)
    requires InOrder(cl, s) && i < |cl.manager.requests[s]|
    ensures var n, rest := cl.manager.requests[s][i].offset.sequence, Rest(cl, s);
            n < cl.readers[s].reader.position.cursor.value && forall j :: 0 <= j < |rest| ==> n < rest[j]
  {
    var held, q, rest := Held(SlotOf(cl, s)), cl.manager.requests[s], Rest(cl, s);
    hide R.Sequences; hide InHand; hide LateOf;
    assert held == QueueSequences(q) + rest;
    assert held[i] == q[i].offset.sequence;
    forall j | 0 <= j < |rest|
      ensures held[i] < rest[j]
    {
      assert held[|q| + j] == rest[j];
    }
  }
}
