/**
Automatic acknowledgement (client/src/shard_group_reader.cpp:49-52, 196-203, 226-231) on top of the
offset manager, for one reading thread: each read first acknowledges the message the previous one
handed out, wherever it is queued; syncs, commits and shard changes happen in between.
*/
module AutoAck {
  import opened Collections
  import opened OffsetManagement
  import opened OffsetSessions

  // ---------------------------------------------------------------- one read

  // `held` is the shard of the last message handed out on the thread, while it is not acknowledged.
  // If its queue has been dropped since, acknowledging it reaches nothing.
  predicate IsQueued(m: Manager, held: Option<string>) {
    held.Some? && held.value in m.requests && m.requests[held.value] != []
  }

  function AckHeld(m: Manager, held: Option<string>): Manager {
    if IsQueued(m, held) then Ack(m, held.value, |m.requests[held.value]| - 1) else m
  }

  // A read that returns a message of shard t.
  function ReadStep(m: Manager, held: Option<string>, t: string, o: Offset): Manager {
    SendOffsetRequest(AckHeld(m, held), t, Entry(o, false))
  }

  // Every queued message is acknowledged but the one held, which is the last of its queue.
  ghost predicate OnlyHeld(m: Manager, held: Option<string>) {
    forall t, i :: t in m.requests && 0 <= i < |m.requests[t]| ==>
      (m.requests[t][i].ready <==> !(held == Some(t) && i == |m.requests[t]| - 1))
  }

  lemma AckHeldAll(m: Manager, held: Option<string>)
    requires OnlyHeld(m, held)
    ensures OnlyHeld(AckHeld(m, held), None)
  {
  }

  lemma ReadStepHolds(m: Manager, held: Option<string>, t: string, o: Offset)
    requires OnlyHeld(m, held)
    ensures OnlyHeld(ReadStep(m, held, t, o), Some(t))
  {
    AckHeldAll(m, held);
    hide AckHeld;
  }

  // ---------------------------------------------------------------- runs of one session

  // The session of one shard, and the shard of the message held.
  datatype Auto = Auto(x: Session, held: Option<string>)

  datatype AutoOp = Returned(shard: string, offset: Offset) | NothingRead | Background(op: Op)

  // In the background the session goes on, but messages are only handed out by reads and
  // acknowledged by the next read.
  predicate Allowed(s: string, a: AutoOp) {
    a.Background? ==> Within(s, a.op) && !a.op.SendOp? && !a.op.AckOp?
  }

  function AckStep(x: Session, s: string, held: Option<string>): Session
    requires Provisioned(x.m) && s in x.m.requests
  {
    if IsQueued(x.m, held) then Step(x, s, AckOp(held.value, |x.m.requests[held.value]| - 1)) else x
  }

  ghost predicate AutoInv(a: Auto, s: string, carried: set<Offset>) {
    Whole(a.x, s, carried) && OnlyHeld(a.x.m, a.held)
  }

  lemma AckStepWhole(x: Session, s: string, carried: set<Offset>, held: Option<string>)
    requires Whole(x, s, carried) && s != "" && OnlyHeld(x.m, held)
    ensures Whole(AckStep(x, s, held), s, carried) && OnlyHeld(AckStep(x, s, held).m, None)
    ensures AckStep(x, s, held).sent == x.sent && AckStep(x, s, held).log == x.log
    ensures AckStep(x, s, held).m == AckHeld(x.m, held)
  {
    AckHeldAll(x.m, held);
    hide Exact; hide Logged; hide OnlyHeld;
    if IsQueued(x.m, held) {
      StepWhole(x, s, carried, AckOp(held.value, |x.m.requests[held.value]| - 1));
    }
  }

  ghost function AutoStep(a: Auto, s: string, op: AutoOp, carried: set<Offset>): (b: Auto)
    requires AutoInv(a, s, carried) && s != "" && Allowed(s, op)
    ensures AutoInv(b, s, carried)
  {
    AckStepWhole(a.x, s, carried, a.held);
    match op
    case Returned(t, o) =>
      ReadWhole(a, s, t, o, carried);
      Auto(Step(AckStep(a.x, s, a.held), s, SendOp(t, Entry(o, false))), Some(t))
    case NothingRead => Auto(AckStep(a.x, s, a.held), None)
    case Background(bg) =>
      StepWhole(a.x, s, carried, bg);
      BackgroundOnlyHeld(a.x.m, a.held, bg);
      Auto(Step(a.x, s, bg), a.held)
  }

  lemma ReadWhole(a: Auto, s: string, t: string, o: Offset, carried: set<Offset>)
    requires AutoInv(a, s, carried) && s != ""
    ensures var x := AckStep(a.x, s, a.held);
            && Whole(x, s, carried)
            && var y := Step(x, s, SendOp(t, Entry(o, false)));
               Whole(y, s, carried) && OnlyHeld(y.m, Some(t)) && y.m == ReadStep(a.x.m, a.held, t, o)
  {
    AckStepWhole(a.x, s, carried, a.held);
    ReadStepHolds(a.x.m, a.held, t, o);
    hide Exact; hide Logged; hide OnlyHeld; hide AckStep; hide AckHeld;
    StepWhole(AckStep(a.x, s, a.held), s, carried, SendOp(t, Entry(o, false)));
  }

  // Syncing keeps the last message of a queue in place while it is not acknowledged.
  lemma BackgroundOnlyHeld(m: Manager, held: Option<string>, op: Op)
    requires Provisioned(m) && OnlyHeld(m, held) && !op.SendOp? && !op.AckOp?
    ensures OnlyHeld(Apply(m, op), held)
  {
    if op.SyncOp? {
      forall t, i | t in Sync(m).requests && 0 <= i < |Sync(m).requests[t]|
        ensures Sync(m).requests[t][i].ready <==> !(held == Some(t) && i == |Sync(m).requests[t]| - 1)
      {
        AckedPrefix(m.requests[t]);
        assert Sync(m).requests[t][i] == m.requests[t][AckedLength(m.requests[t]) + i];
      }
    }
  }

  // ---------------------------------------------------------------- nothing passes the held message

  // The message held is the last one handed out in this session.
  ghost predicate Holds(a: Auto, s: string, carried: set<Offset>, o: Offset) {
    && AutoInv(a, s, carried) && a.held == Some(s) && a.x.m.requests[s] != []
    && a.x.sent != [] && a.x.sent[|a.x.sent| - 1] == o
  }

  lemma ReturnHolds(a: Auto, s: string, o: Offset, carried: set<Offset>)
    requires AutoInv(a, s, carried) && s != ""
    ensures Holds(AutoStep(a, s, Returned(s, o), carried), s, carried, o)
    ensures AutoStep(a, s, Returned(s, o), carried).x.sent == a.x.sent + [o]
  {
    ReadWhole(a, s, s, o, carried);
    AckStepWhole(a.x, s, carried, a.held);
    hide Logged; hide OnlyHeld; hide AckStep; hide AckHeld;
  }

  lemma BackgroundHolds(a: Auto, s: string, o: Offset, op: Op, carried: set<Offset>)
    requires Holds(a, s, carried, o) && s != "" && Allowed(s, Background(op))
    ensures Holds(AutoStep(a, s, Background(op), carried), s, carried, o)
    ensures AutoStep(a, s, Background(op), carried).x.sent == a.x.sent
  {
    var q := a.x.m.requests[s];
    assert !q[|q| - 1].ready;
    HeldStays(a.x.m, s, op);
    hide Exact; hide Logged; hide OnlyHeld; hide Apply;
  }

  lemma HeldStays(m: Manager, s: string, op: Op)
    requires Provisioned(m) && s in m.requests && m.requests[s] != [] && !m.requests[s][|m.requests[s]| - 1].ready
    requires Within(s, op) && !op.SendOp? && !op.AckOp?
    ensures s in Apply(m, op).requests && Apply(m, op).requests[s] != []
  {
    AckedPrefix(m.requests[s]);
  }

  // The session after some reads, with whatever happens in the background.
  ghost function AutoPlay(a: Auto, s: string, ops: seq<AutoOp>, carried: set<Offset>): (b: Auto)
    requires AutoInv(a, s, carried) && s != "" && forall op :: op in ops ==> Allowed(s, op)
    ensures AutoInv(b, s, carried)
    decreases |ops|
  {
    if ops == [] then a else AutoPlay(AutoStep(a, s, ops[0], carried), s, ops[1..], carried)
  }

  // A message of this session is held.
  predicate Holding(a: Auto, s: string) {
    a.held == Some(s) && a.x.sent != []
  }

  function LastSent(a: Auto): Offset
    requires a.x.sent != []
  {
    a.x.sent[|a.x.sent| - 1]
  }

  lemma StepHolds(a: Auto, s: string, op: AutoOp, carried: set<Offset>)
    requires AutoInv(a, s, carried) && s != "" && Allowed(s, op)
    requires Holding(a, s) ==> Holds(a, s, carried, LastSent(a))
    ensures var b := AutoStep(a, s, op, carried); Holding(b, s) ==> Holds(b, s, carried, LastSent(b))
  {
    match op
    case Returned(t, o) =>
      if t == s {
        ReturnHolds(a, s, o, carried);
      }
    case NothingRead =>
    case Background(bg) =>
      hide AutoInv; hide Apply;
      if Holding(a, s) {
        BackgroundHolds(a, s, LastSent(a), bg, carried);
      } else {
        BackgroundSends(a, s, bg, carried);
      }
  }

  lemma BackgroundSends(a: Auto, s: string, op: Op, carried: set<Offset>)
    requires AutoInv(a, s, carried) && s != "" && Allowed(s, Background(op))
    ensures var b := AutoStep(a, s, Background(op), carried); b.x.sent == a.x.sent && b.held == a.held
  {
    hide Exact; hide Logged; hide OnlyHeld; hide Apply;
  }

  lemma {:induction false} PlayHolds(a: Auto, s: string, ops: seq<AutoOp>, carried: set<Offset>)
    requires AutoInv(a, s, carried) && s != "" && forall op :: op in ops ==> Allowed(s, op)
    requires Holding(a, s) ==> Holds(a, s, carried, LastSent(a))
    ensures var b := AutoPlay(a, s, ops, carried); Holding(b, s) ==> Holds(b, s, carried, LastSent(b))
    decreases |ops|
  {
    hide AutoInv; hide Allowed; hide AutoStep; hide Holds; hide Holding;
    if ops != [] {
      StepHolds(a, s, ops[0], carried);
      PlayHolds(AutoStep(a, s, ops[0], carried), s, ops[1..], carried);
    }
  }

  // While a message is held, the pending offset and every offset committed stay below it, and all
  // messages handed out before it are acknowledged.
  lemma BelowHeld(a: Auto, s: string, o: Offset, carried: set<Offset>, start: int)
    requires Holds(a, s, carried, o) && SentFrom(a.x.sent, start) && forall p :: p in carried ==> p.sequence < start
    ensures s in a.x.m.last ==> a.x.m.last[s].offset.sequence < o.sequence
    ensures forall i :: 0 <= i < |a.x.log| ==> a.x.log[i].sequence < o.sequence
    ensures forall i :: 0 <= i < |a.x.m.requests[s]| ==> (a.x.m.requests[s][i].ready <==> i < |a.x.m.requests[s]| - 1)
  {
    var x := a.x;
    assert x.popped < |x.sent|;
    var k := |x.log| - |x.marks|;
    forall i | 0 <= i < |x.log|
      ensures x.log[i].sequence < o.sequence
    {
      if i < k {
        assert x.log[0] in carried;
      } else {
        assert x.log[i] == x.sent[x.marks[i - k] - 1] && x.marks[i - k] <= x.popped;
      }
    }
  }

  // A session opens that way, whatever the other shards have queued meanwhile.
  lemma OpensAuto(m: Manager, held: Option<string>, s: string, version: int, session: int)
    requires Provisioned(m) && OnlyHeld(m, held)
    ensures AutoInv(Auto(Opening(m, s, version, session), held), s, Carried(m, s))
  {
    OpensExact(m, s, version, session);
    hide Whole;
  }

  // The session opened in the middle of such a run, after some more of it.
  ghost function AutoPlayed(m: Manager, held: Option<string>, s: string, version: int, session: int, ops: seq<AutoOp>)
    : (b: Auto)
    requires Provisioned(m) && OnlyHeld(m, held) && s != "" && forall op :: op in ops ==> Allowed(s, op)
    ensures AutoInv(b, s, Carried(m, s))
  {
    OpensAuto(m, held, s, version, session);
    AutoPlay(Auto(Opening(m, s, version, session), held), s, ops, Carried(m, s))
  }

  // Nothing pending or committed for the shard has reached the message held, if there is one.
  ghost predicate Behind(a: Auto, s: string) {
    Holding(a, s) ==>
      && (s in a.x.m.last ==> a.x.m.last[s].offset.sequence < LastSent(a).sequence)
      && forall i :: 0 <= i < |a.x.log| ==> a.x.log[i].sequence < LastSent(a).sequence
  }

  ghost predicate AlwaysBehind(m: Manager, held: Option<string>, s: string, version: int, session: int, start: int)
    requires Provisioned(m) && OnlyHeld(m, held) && s != ""
  {
    forall ops | forall op :: op in ops ==> Allowed(s, op) ::
      SentFrom(AutoPlayed(m, held, s, version, session, ops).x.sent, start) ==>
        Behind(AutoPlayed(m, held, s, version, session, ops), s)
  }

  lemma PlayedBehind(m: Manager, held: Option<string>, s: string, version: int, session: int, start: int,
                     ops: seq<AutoOp>)
    requires Provisioned(m) && OnlyHeld(m, held) && s != "" && forall op :: op in ops ==> Allowed(s, op)
    requires SentFrom(AutoPlayed(m, held, s, version, session, ops).x.sent, start)
    requires s in m.last ==> m.last[s].offset.sequence < start
    ensures Behind(AutoPlayed(m, held, s, version, session, ops), s)
  {
    var carried, b := Carried(m, s), AutoPlayed(m, held, s, version, session, ops);
    OpensAuto(m, held, s, version, session);
    PlayHolds(Auto(Opening(m, s, version, session), held), s, ops, carried);
    hide AutoInv; hide AutoPlay; hide Holds;
    if Holding(b, s) {
      BelowHeld(b, s, LastSent(b), carried, start);
    }
  }

  // The first message the session hands out, at its very start.
  lemma FirstHeld(m: Manager, held: Option<string>, s: string, version: int, session: int, start: int)
    requires Provisioned(m) && OnlyHeld(m, held) && s != "" && s in m.last && m.last[s].offset.sequence >= start
    ensures var b := AutoPlayed(m, held, s, version, session, [Returned(s, Offset(0, start, 0))]);
            SentFrom(b.x.sent, start) && !Behind(b, s)
  {
    var a, o, carried := Auto(Opening(m, s, version, session), held), Offset(0, start, 0), Carried(m, s);
    OpensAuto(m, held, s, version, session);
    ReturnHolds(a, s, o, carried);
    ReadWhole(a, s, s, o, carried);
    var b := AutoStep(a, s, Returned(s, o), carried);
    assert [] + [o] == [o];
    assert [Returned(s, o)][1..] == [];
    assert b == AutoPlay(b, s, [], carried);
    assert b.x.sent == [o];
    AckKeepsLast(a.x.m, held);
  }

  lemma AckKeepsLast(m: Manager, held: Option<string>)
    ensures AckHeld(m, held).last == m.last
  {
  }

  // With automatic acknowledgement nothing pending or committed ever reaches the message the user
  // still holds -- in any run of a session, through any reads, syncs, commits and changes of other
  // shards -- if and only if nothing was left pending when it was opened, or something from before
  // its start.
  lemma NothingPassesHeld(m: Manager, held: Option<string>, s: string, version: int, session: int, start: int)
    requires Provisioned(m) && OnlyHeld(m, held) && s != ""
    ensures AlwaysBehind(m, held, s, version, session, start) <==>
              (s in m.last ==> m.last[s].offset.sequence < start)
  {
    hide Provisioned; hide OnlyHeld; hide AutoPlayed; hide Behind; hide Allowed;
    if s in m.last ==> m.last[s].offset.sequence < start {
      forall ops | (forall op :: op in ops ==> Allowed(s, op))
                   && SentFrom(AutoPlayed(m, held, s, version, session, ops).x.sent, start)
        ensures Behind(AutoPlayed(m, held, s, version, session, ops), s)
      {
        PlayedBehind(m, held, s, version, session, start, ops);
      }
    } else {
      var ops := [Returned(s, Offset(0, start, 0))];
      assert forall op :: op in ops ==> Allowed(s, op) by { ReadsAllowed(s, Offset(0, start, 0)); }
      FirstHeld(m, held, s, version, session, start);
    }
  }

  lemma ReadsAllowed(s: string, o: Offset)
    ensures Allowed(s, Returned(s, o))
  {
  }
}
