/**
One session of one shard: everything that happens to its queue between two UpdateOffsetMeta calls.
*/
module OffsetSessions {
  import opened OffsetManagement

  // The manager together with what the session has seen: the offsets enqueued, how many of them
  // were popped, after how many pops each successful commit of one of them took place, and all
  // offsets the shard's successful commits sent.
  datatype Session = Session(m: Manager, sent: seq<Offset>, popped: nat, marks: seq<nat>, log: seq<Offset>)

  // Operations that do not end the shard's session.
  predicate Within(shard: string, op: Op) {
    && !op.ResetOp?
    && !(op.MetaOp? && op.shard == shard)
    && !(op.ReleaseOp? && shard in op.shards)
  }

  function Step(x: Session, shard: string, op: Op): Session
    requires Provisioned(x.m) && shard in x.m.requests
  {
    Session(Apply(x.m, op),
            if op.SendOp? && op.shard == shard then x.sent + [op.entry.offset] else x.sent,
            if op.SyncOp? then x.popped + AckedLength(x.m.requests[shard]) else x.popped,
            if op.CommitOp? && op.accepted && shard in x.m.last && x.popped > 0 then x.marks + [x.popped] else x.marks,
            if op.CommitOp? && op.accepted && shard in x.m.last then x.log + [x.m.last[shard].offset] else x.log)
  }

  ghost predicate Increasing(s: seq<nat>) {
    forall i, j :: 0 <= i < j < |s| ==> s[i] < s[j]
  }

  // Popped and queued messages are the messages enqueued, in order; the pending offset is that of
  // the last message popped; every popped message is pending or covered by a commit; and each
  // commit covers more messages than the one before. `carried` is what was pending at the start.
  ghost predicate Exact(x: Session, shard: string, carried: set<Offset>) {
    && Provisioned(x.m) && shard in x.m.requests && x.popped <= |x.sent|
    && |x.m.requests[shard]| == |x.sent| - x.popped
    && (forall i :: 0 <= i < |x.m.requests[shard]| ==> x.m.requests[shard][i].offset == x.sent[x.popped + i])
    && Increasing(x.marks) && (forall i :: 0 <= i < |x.marks| ==> 1 <= x.marks[i] <= x.popped)
    && (shard in x.m.last ==>
          if x.popped == 0 then carried == {x.m.last[shard].offset}
          else x.m.last[shard].offset == x.sent[x.popped - 1] && x.popped !in x.marks)
    && (shard !in x.m.last && x.popped > 0 ==> x.popped in x.marks)
  }

  // The commits are the session's own, after one of the carried offset if there was any.
  ghost predicate Logged(x: Session, shard: string, carried: set<Offset>) {
    var k := |x.log| - |x.marks|;
    && 0 <= k <= 1 && (k == 1 ==> carried == {x.log[0]} && (x.popped == 0 ==> shard !in x.m.last))
    && forall i :: 0 <= i < |x.marks| ==> 1 <= x.marks[i] <= |x.sent| && x.log[k + i] == x.sent[x.marks[i] - 1]
  }

  ghost predicate Whole(x: Session, shard: string, carried: set<Offset>) {
    Exact(x, shard, carried) && Logged(x, shard, carried)
  }

  lemma SyncAt(m: Manager, shard: string)
    requires Provisioned(m) && shard in m.requests && shard != ""
    ensures var q, n := m.requests[shard], Sync(m);
            && shard in n.requests && n.requests[shard] == q[AckedLength(q)..]
            && (if AckedLength(q) > 0 then shard in n.last && n.last[shard].offset == q[AckedLength(q) - 1].offset
                else (shard in n.last <==> shard in m.last) && (shard in m.last ==> n.last[shard] == m.last[shard]))
  {
    AckedPrefix(m.requests[shard]);
  }

  lemma SyncExact(x: Session, shard: string, carried: set<Offset>)
    requires Exact(x, shard, carried) && shard != ""
    ensures Exact(Step(x, shard, SyncOp), shard, carried)
  {
    SyncAt(x.m, shard);
    SyncKeepsProvisioned(x.m);
    hide Sync; hide AckedLength;
  }

  lemma CommitExact(x: Session, shard: string, carried: set<Offset>, accepted: bool)
    requires Exact(x, shard, carried)
    ensures Exact(Step(x, shard, CommitOp(accepted)), shard, carried)
  {
    StampKeepsProvisioned(x.m);
    var y := Step(x, shard, CommitOp(accepted));
    if accepted && shard in x.m.last && x.popped > 0 {
      forall i, j | 0 <= i < j < |y.marks|
        ensures y.marks[i] < y.marks[j]
      {
        assert y.marks[i] in x.marks;
      }
      assert y.marks[|y.marks| - 1] == x.popped;
    }
  }

  lemma OtherExact(x: Session, shard: string, carried: set<Offset>, op: Op)
    requires Exact(x, shard, carried) && Within(shard, op) && !op.SyncOp? && !op.CommitOp?
    ensures Exact(Step(x, shard, op), shard, carried)
  {
    ApplyKeepsProvisioned(x.m, op);
  }

  lemma CommitLogged(x: Session, shard: string, carried: set<Offset>, accepted: bool)
    requires Whole(x, shard, carried)
    ensures Logged(Step(x, shard, CommitOp(accepted)), shard, carried)
  {
    var y := Step(x, shard, CommitOp(accepted));
    if accepted && shard in x.m.last {
      assert |x.marks| > 0 ==> 1 <= x.marks[0] <= x.popped;
      if x.popped > 0 {
        hide Provisioned; hide Stamp;
        var k := |x.log| - |x.marks|;
        assert y.log == x.log + [x.m.last[shard].offset] && y.marks == x.marks + [x.popped];
      }
    }
  }

  lemma SyncLogged(x: Session, shard: string, carried: set<Offset>)
    requires Whole(x, shard, carried) && shard != ""
    ensures Logged(Step(x, shard, SyncOp), shard, carried)
  {
    SyncAt(x.m, shard);
    hide Sync; hide AckedLength;
  }

  lemma OtherLogged(x: Session, shard: string, carried: set<Offset>, op: Op)
    requires Whole(x, shard, carried) && Within(shard, op) && !op.SyncOp? && !op.CommitOp?
    ensures Logged(Step(x, shard, op), shard, carried)
  {
  }

  lemma StepWhole(x: Session, shard: string, carried: set<Offset>, op: Op)
    requires Whole(x, shard, carried) && shard != "" && Within(shard, op)
    ensures Whole(Step(x, shard, op), shard, carried)
  {
    StepExact(x, shard, carried, op);
    hide Exact; hide Step; hide Logged;
    match op
    case SyncOp => SyncLogged(x, shard, carried);
    case CommitOp(accepted) => CommitLogged(x, shard, carried, accepted);
    case _ => OtherLogged(x, shard, carried, op);
  }

  ghost function Play(x: Session, shard: string, ops: seq<Op>, carried: set<Offset>): (y: Session)
    requires Whole(x, shard, carried) && shard != "" && forall op :: op in ops ==> Within(shard, op)
    ensures Whole(y, shard, carried)
    decreases |ops|
  {
    if ops == [] then x
    else
      StepWhole(x, shard, carried, ops[0]);
      Play(Step(x, shard, ops[0]), shard, ops[1..], carried)
  }

  lemma StepExact(x: Session, shard: string, carried: set<Offset>, op: Op)
    requires Exact(x, shard, carried) && shard != "" && Within(shard, op)
    ensures Exact(Step(x, shard, op), shard, carried)
  {
    hide Exact; hide Step;
    match op
    case SyncOp => SyncExact(x, shard, carried);
    case CommitOp(accepted) => CommitExact(x, shard, carried, accepted);
    case _ => OtherExact(x, shard, carried, op);
  }

  // A session starts exact: nothing sent, nothing popped, what was pending still pending.
  lemma OpensExact(m: Manager, shard: string, version: int, session: int)
    requires Provisioned(m)
    ensures Whole(Opening(m, shard, version, session), shard, Carried(m, shard))
  {
  }

  function Opening(m: Manager, shard: string, version: int, session: int): Session {
    Session(UpdateOffsetMeta(m, shard, version, session), [], 0, [], [])
  }

  // What is pending when the session is opened.
  function Carried(m: Manager, shard: string): set<Offset> {
    if shard in m.last then {m.last[shard].offset} else {}
  }

  // The offsets a session's own successful commits sent, in order.
  ghost function Commits(x: Session): seq<Offset>
    requires forall i :: 0 <= i < |x.marks| ==> 1 <= x.marks[i] <= |x.sent|
  {
    seq(|x.marks|, i requires 0 <= i < |x.marks| => x.sent[x.marks[i] - 1])
  }

  // With increasing sequences enqueued, a session's own commits strictly increase.
  lemma OwnCommitsIncrease(x: Session, shard: string, carried: set<Offset>)
    requires Exact(x, shard, carried)
    requires forall i, j :: 0 <= i < j < |x.sent| ==> x.sent[i].sequence < x.sent[j].sequence
    ensures forall i, j :: 0 <= i < j < |x.marks| ==> Commits(x)[i].sequence < Commits(x)[j].sequence
  {
  }

  // ---------------------------------------------------------------- the carried offset as well

  ghost predicate Rising(offsets: seq<Offset>) {
    forall i, j :: 0 <= i < j < |offsets| ==> offsets[i].sequence < offsets[j].sequence
  }

  // A reader that starts at `start` hands out records from there on, in order.
  ghost predicate SentFrom(sent: seq<Offset>, start: int) {
    Rising(sent) && forall i :: 0 <= i < |sent| ==> start <= sent[i].sequence
  }

  // The session after some operations.
  ghost function Played(m: Manager, shard: string, version: int, session: int, ops: seq<Op>): (x: Session)
    requires Provisioned(m) && shard != "" && forall op :: op in ops ==> Within(shard, op)
    ensures Whole(x, shard, Carried(m, shard))
  {
    OpensExact(m, shard, version, session);
    Play(Opening(m, shard, version, session), shard, ops, Carried(m, shard))
  }

  // In every run of the session, each commit of the shard is past the one before.
  ghost predicate AlwaysRises(m: Manager, shard: string, version: int, session: int, start: int)
    requires Provisioned(m) && shard != ""
  {
    forall ops | forall op :: op in ops ==> Within(shard, op) ::
      SentFrom(Played(m, shard, version, session, ops).sent, start) ==>
          Rising(Played(m, shard, version, session, ops).log)
  }

  lemma LogRises(x: Session, shard: string, carried: set<Offset>, start: int)
    requires Whole(x, shard, carried) && SentFrom(x.sent, start) && forall o :: o in carried ==> o.sequence < start
    ensures Rising(x.log)
  {
    var k := |x.log| - |x.marks|;
    forall i, j | 0 <= i < j < |x.log|
      ensures x.log[i].sequence < x.log[j].sequence
    {
      assert x.log[j] == x.sent[x.marks[j - k] - 1];
      if i < k {
        assert x.log[0] in carried;
      } else {
        assert x.log[i] == x.sent[x.marks[i - k] - 1];
      }
    }
  }

  // The carried offset is committed, then the first message is handed out, acknowledged, committed.
  function Regression(shard: string, o: Offset): seq<Op> {
    [CommitOp(true), SendOp(shard, Entry(o, true)), SyncOp, CommitOp(true)]
  }

  // A session of which nothing is queued or popped yet.
  ghost predicate Untouched(x: Session, shard: string, carried: set<Offset>) {
    Whole(x, shard, carried) && x.popped == 0 && x.sent == [] && x.m.requests[shard] == []
  }

  lemma CommitsCarried(x: Session, shard: string, carried: set<Offset>)
    requires Untouched(x, shard, carried) && shard in x.m.last && x.log == [] && shard != ""
    ensures var y := Step(x, shard, CommitOp(true));
            Untouched(y, shard, carried) && y.log == [x.m.last[shard].offset]
  {
    StepWhole(x, shard, carried, CommitOp(true));
  }

  lemma SendsFirst(x: Session, shard: string, carried: set<Offset>, o: Offset)
    requires Untouched(x, shard, carried) && shard != ""
    ensures var y := Step(x, shard, SendOp(shard, Entry(o, true)));
            Whole(y, shard, carried) && y.sent == [o] && y.m.requests[shard] == [Entry(o, true)] && y.log == x.log
              && y.popped == 0
  {
    StepWhole(x, shard, carried, SendOp(shard, Entry(o, true)));
    assert [] + [Entry(o, true)] == [Entry(o, true)];
  }

  lemma SyncsAndCommits(x: Session, shard: string, carried: set<Offset>, o: Offset)
    requires Whole(x, shard, carried) && shard != "" && x.popped == 0
    requires x.sent == [o] && x.m.requests[shard] == [Entry(o, true)]
    ensures var y := Step(x, shard, SyncOp);
            Whole(y, shard, carried) && var z := Step(y, shard, CommitOp(true));
            Whole(z, shard, carried) && z.sent == [o] && z.log == x.log + [o]
  {
    var q := x.m.requests[shard];
    assert q[1..] == [] && AckedLength(q) == 1;
    SyncAt(x.m, shard);
    StepWhole(x, shard, carried, SyncOp);
    hide Sync;
    var y := Step(x, shard, SyncOp);
    hide Exact; hide Logged; hide AckedLength;
    StepWhole(y, shard, carried, CommitOp(true));
  }

  lemma RegressionWithin(shard: string, o: Offset)
    ensures forall op :: op in Regression(shard, o) ==> Within(shard, op)
  {
  }

  lemma RegressionPlays(x: Session, shard: string, carried: set<Offset>, o: Offset)
    requires Untouched(x, shard, carried) && shard in x.m.last && x.log == [] && shard != ""
    requires forall op :: op in Regression(shard, o) ==> Within(shard, op)
    ensures var y := Play(x, shard, Regression(shard, o), carried);
            y.sent == [o] && y.log == [x.m.last[shard].offset, o]
  {
    var commit, send := CommitOp(true), SendOp(shard, Entry(o, true));
    hide Logged; hide Step; hide Play; hide Within;
    CommitsCarried(x, shard, carried);
    SendsFirst(Step(x, shard, commit), shard, carried, o);
    SyncsAndCommits(Step(Step(x, shard, commit), shard, send), shard, carried, o);
    FourSteps(x, shard, commit, send, SyncOp, commit, carried);
  }

  lemma RegressionLog(m: Manager, shard: string, version: int, session: int, o: Offset)
    requires Provisioned(m) && shard != "" && shard in m.last
    ensures forall op :: op in Regression(shard, o) ==> Within(shard, op)
    ensures var x := Played(m, shard, version, session, Regression(shard, o));
            x.sent == [o] && x.log == [m.last[shard].offset, o]
  {
    RegressionWithin(shard, o);
    OpensExact(m, shard, version, session);
    var x := Opening(m, shard, version, session);
    assert Untouched(x, shard, Carried(m, shard)) && x.m.last == m.last && x.log == [];
    hide Opening; hide Whole; hide Regression; hide Play; hide Untouched;
    RegressionPlays(x, shard, Carried(m, shard), o);
  }

  lemma FourSteps(x: Session, shard: string, a: Op, b: Op, c: Op, d: Op, carried: set<Offset>)
    requires Whole(x, shard, carried) && shard != "" && forall op :: op in [a, b, c, d] ==> Within(shard, op)
    ensures Whole(Step(x, shard, a), shard, carried)
    ensures Whole(Step(Step(x, shard, a), shard, b), shard, carried)
    ensures Whole(Step(Step(Step(x, shard, a), shard, b), shard, c), shard, carried)
    ensures Play(x, shard, [a, b, c, d], carried) == Step(Step(Step(Step(x, shard, a), shard, b), shard, c), shard, d)
  {
    hide Exact; hide Logged; hide Step; hide Within;
    PlaysOn(x, shard, [a, b, c, d], carried);
    var x1 := Step(x, shard, a);
    assert [a, b, c, d][1..] == [b, c, d];
    PlaysOn(x1, shard, [b, c, d], carried);
    var x2 := Step(x1, shard, b);
    assert [b, c, d][1..] == [c, d];
    PlaysOn(x2, shard, [c, d], carried);
    var x3 := Step(x2, shard, c);
    assert [c, d][1..] == [d];
    PlaysOn(x3, shard, [d], carried);
    assert [d][1..] == [];
  }

  lemma PlaysOn(x: Session, shard: string, ops: seq<Op>, carried: set<Offset>)
    requires Whole(x, shard, carried) && shard != "" && ops != [] && forall op :: op in ops ==> Within(shard, op)
    ensures Provisioned(x.m) && shard in x.m.requests && Whole(Step(x, shard, ops[0]), shard, carried)
    ensures Play(x, shard, ops, carried) == Play(Step(x, shard, ops[0]), shard, ops[1..], carried)
  {
    StepWhole(x, shard, carried, ops[0]);
  }

  // The commits of a session, the carried one included, strictly increase in every run if and only
  // if nothing was pending when it was opened, or something from before its start.
  lemma CommitsRiseIff(m: Manager, shard: string, version: int, session: int, start: int)
    requires Provisioned(m) && shard != ""
    ensures AlwaysRises(m, shard, version, session, start) <==>
              (shard in m.last ==> m.last[shard].offset.sequence < start)
  {
    hide Whole; hide Play; hide Provisioned; hide Within;
    if shard in m.last ==> m.last[shard].offset.sequence < start {
      forall ops | (forall op :: op in ops ==> Within(shard, op))
                   && SentFrom(Played(m, shard, version, session, ops).sent, start)
        ensures Rising(Played(m, shard, version, session, ops).log)
      {
        LogRises(Played(m, shard, version, session, ops), shard, Carried(m, shard), start);
      }
    } else {
      var o := Offset(0, start, 0);
      RegressionLog(m, shard, version, session, o);
      var x := Played(m, shard, version, session, Regression(shard, o));
      assert SentFrom(x.sent, start) && x.log[0].sequence >= x.log[1].sequence;
    }
  }
}
