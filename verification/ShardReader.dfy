/**
ShardReader (client/src/shard_reader.cpp): a cache of fetched records in front of one shard's log.
At most one fetch is in flight; fetched records, failures and "nothing there yet" markers are
queued in the cache and handed out one by one.

A cursor is the log position it stands for, "" being none. Waiting is not modelled: each pass of
the read loop is told when fetches completed and whether the timer has expired.
*/
module ShardReading {
  import opened Collections

  // CompletedFetch: a record with its sequence and system time, a DatahubException, or a delay.
  datatype Fetched = Record(sequence: nat, systemTime: int) | Exception | Delay

  // ConsumeOffsetMeta: where to fetch next.
  datatype Position = Position(sequence: int, timestamp: int, cursor: Option<nat>)

  datatype Reader = Reader(position: Position, cache: seq<Fetched>, running: bool)

  // What GetNextCursor asks the server for when it holds no cursor.
  datatype CursorRequest = BySequence(sequence: int) | ByTimestamp(timestamp: int) | Oldest

  function CursorRequestOf(p: Position): CursorRequest {
    if p.sequence != -1 then BySequence(p.sequence)
    else if p.timestamp != -1 then ByTimestamp(p.timestamp)
    else Oldest
  }

  // How a fetch ends: with records and the cursor after them, with a DatahubException, or with
  // any other exception, which kills the task before it clears the running flag.
  datatype Reply = Records(records: seq<(nat, int)>, next: Option<nat>) | Failed | Broken

  function Start(p: Position): Reader {
    Reader(p, [], false)
  }

  // ResetOffset, after an invalid cursor.
  function ResetOffset(r: Reader): Reader {
    r.(position := Position(-1, -1, None))
  }

  function Wrapped(records: seq<(nat, int)>): (s: seq<Fetched>)
    ensures |s| == |records| && forall i :: 0 <= i < |s| ==> s[i] == Record(records[i].0, records[i].1)
  {
    seq(|records|, i requires 0 <= i < |records| => Record(records[i].0, records[i].1))
  }

  // FetchOnce
  function Fetch(r: Reader, reply: Reply): Reader {
    match reply
    case Failed =>
      var marked := r.cache != [] && r.cache[|r.cache| - 1].Exception?;
      Reader(r.position, if marked then r.cache else r.cache + [Exception], false)
    case Broken => r
    case Records(records, next) =>
      Reader(r.position.(cursor := next), r.cache + (if records != [] then Wrapped(records) else [Delay]), false)
  }

  datatype ReadResult = NothingYet | Got(sequence: nat, systemTime: int) | Raised | NoData

  // One look at the front of the cache.
  function TakeFront(r: Reader): (Reader, ReadResult) {
    if r.cache == [] then (r, NothingYet)
    else
      var rest := r.(cache := r.cache[1..]);
      match r.cache[0]
      case Record(s, t) => (rest, Got(s, t))
      case Exception => (rest, Raised)
      case Delay => (rest, NoData)
  }

  // A fetch in flight may end here.
  function Ends(r: Reader, reply: Option<Reply>): Reader {
    if reply.Some? && r.running then Fetch(r, reply.value) else r
  }

  // A fetch is worth sending while the cache is below its limit.
  predicate HasRoom(r: Reader, limit: nat) {
    |r.cache| < limit
  }

  // What happens during one pass of the loop. Looking for room in the cache and raising the running
  // flag are two moments: a fetch may complete before the first, between them, or afterwards.
  datatype Tick = Tick(before: Option<Reply>, between: Option<Reply>, after: Option<Reply>, expired: bool)

  // The pass when it has looked for room, when it tries to raise the flag, and after that.
  function Looked(r: Reader, tick: Tick): Reader {
    Ends(r, tick.before)
  }

  function Tried(r: Reader, tick: Tick): Reader {
    Ends(Looked(r, tick), tick.between)
  }

  function Asked(r: Reader, limit: nat, tick: Tick): Reader {
    var t := Tried(r, tick);
    if HasRoom(Looked(r, tick), limit) && !t.running then t.(running := true) else t
  }

  function Pass(r: Reader, limit: nat, tick: Tick): (Reader, ReadResult) {
    TakeFront(Ends(Asked(r, limit, tick), tick.after))
  }

  function ReadNext(r: Reader, limit: nat, ticks: seq<Tick>): (Reader, ReadResult)
    requires ticks != [] && ticks[|ticks| - 1].expired
    decreases |ticks|
  {
    var (r1, result) := Pass(r, limit, ticks[0]);
    if result.NothingYet? && !ticks[0].expired then ReadNext(r1, limit, ticks[1..])
    else (r1, if result.NothingYet? then NoData else result)
  }

  // ---------------------------------------------------------------- no gap, no repeat

  // The sequences of the cached records.
  function Sequences(cache: seq<Fetched>): seq<nat> {
    if cache == [] then []
    else (if cache[0].Record? then [cache[0].sequence] else []) + Sequences(cache[1..])
  }

  lemma {:induction false} SequencesConcat(a: seq<Fetched>, b: seq<Fetched>)
    ensures Sequences(a + b) == Sequences(a) + Sequences(b)
  {
    if a == [] {
      assert a + b == b;
    } else {
      assert (a + b)[0] == a[0] && (a + b)[1..] == a[1..] + b;
      SequencesConcat(a[1..], b);
      var first := if a[0].Record? then [a[0].sequence] else [];
      assert Sequences(a) == first + Sequences(a[1..]) && Sequences(a + b) == first + Sequences(a[1..] + b);
    }
  }

  // The positions lo, lo + 1, ..., hi - 1.
  function Range(lo: nat, hi: nat): (s: seq<nat>)
    ensures |s| == if lo <= hi then hi - lo else 0
    ensures forall i :: 0 <= i < |s| ==> s[i] == lo + i
  {
    if lo >= hi then [] else Range(lo, hi - 1) + [hi - 1]
  }

  lemma RangeConcat(a: nat, b: nat, c: nat)
    requires a <= b <= c
    ensures Range(a, b) + Range(b, c) == Range(a, c)
  {
  }

  lemma {:induction false} SequencesOfRecords(records: seq<(nat, int)>)
    ensures |Sequences(Wrapped(records))| == |records|
    ensures forall i :: 0 <= i < |records| ==> Sequences(Wrapped(records))[i] == records[i].0
    decreases |records|
  {
    if records != [] {
      assert Wrapped(records)[1..] == Wrapped(records[1..]);
      SequencesOfRecords(records[1..]);
    }
  }

  // Where the reader fetches next: at its cursor, or at its start while it has none.
  function NextPosition(r: Reader, start: nat): nat {
    if r.position.cursor.Some? then r.position.cursor.value else start
  }

  // The server's answer at position c: at most fetchNum consecutive records of the log from c on,
  // and the (non-empty) cursor behind them.
  ghost predicate FromLog(reply: Reply, c: nat, logLength: nat, fetchNum: nat) {
    reply.Records? ==>
      && |reply.records| <= fetchNum && c + |reply.records| <= logLength
      && reply.next == Some(c + |reply.records|)
      && forall i :: 0 <= i < |reply.records| ==> reply.records[i].0 == c + i
  }

  // What was delivered followed by what is cached is the log from the start to the cursor.
  ghost predicate Seamless(r: Reader, delivered: seq<nat>, start: nat) {
    start <= NextPosition(r, start) && delivered + Sequences(r.cache) == Range(start, NextPosition(r, start))
  }

  // Two failure markers are never adjacent.
  ghost predicate NoDoubleException(cache: seq<Fetched>) {
    forall i :: 0 < i < |cache| ==> !(cache[i - 1].Exception? && cache[i].Exception?)
  }

  // The most records, or the one marker, that a fetch adds.
  function FetchSize(fetchNum: nat): nat {
    if fetchNum > 1 then fetchNum else 1
  }

  // The most that is cached while a fetch is in flight. It is sent when the cache was below its limit a
  // moment ago; another fetch may have completed since, and one record is read before the pass ends.
  function SentSize(limit: nat, fetchNum: nat): nat
    requires limit > 0
  {
    if fetchNum <= 1 then 0 else limit - 2 + fetchNum
  }

  // So it is two fetches that can overshoot the limit.
  function Overshoot(limit: nat, fetchNum: nat): nat {
    if limit == 0 then 0 else SentSize(limit, fetchNum) + FetchSize(fetchNum)
  }

  ghost predicate Bounded(r: Reader, limit: nat, fetchNum: nat) {
    && NoDoubleException(r.cache)
    && |r.cache| <= Overshoot(limit, fetchNum)
    && (r.running ==> limit > 0 && |r.cache| <= SentSize(limit, fetchNum))
  }

  lemma AppendSeamless(cache: seq<Fetched>, added: seq<Fetched>, delivered: seq<nat>, start: nat, c: nat, d: nat)
    requires start <= c <= d && delivered + Sequences(cache) == Range(start, c) && Sequences(added) == Range(c, d)
    ensures delivered + Sequences(cache + added) == Range(start, d)
  {
    SequencesConcat(cache, added);
    RangeConcat(start, c, d);
    assert delivered + (Sequences(cache) + Sequences(added)) == (delivered + Sequences(cache)) + Sequences(added);
  }

  lemma FetchSeamless(r: Reader, reply: Reply, delivered: seq<nat>, start: nat, logLength: nat, fetchNum: nat)
    requires Seamless(r, delivered, start) && FromLog(reply, NextPosition(r, start), logLength, fetchNum)
    ensures Seamless(Fetch(r, reply), delivered, start)
  {
    hide Range; hide Wrapped;
    var c := NextPosition(r, start);
    match reply
    case Broken =>
    case Failed =>
      RangeEmpty(c);
      AppendSeamless(r.cache, [Exception], delivered, start, c, c);
    case Records(records, next) =>
      var added := if records != [] then Wrapped(records) else [Delay];
      FetchedRange(records, added, c);
      AppendSeamless(r.cache, added, delivered, start, c, c + |records|);
  }

  lemma RangeEmpty(c: nat)
    ensures Range(c, c) == []
  {
  }

  lemma FetchedRange(records: seq<(nat, int)>, added: seq<Fetched>, c: nat)
    requires added == if records != [] then Wrapped(records) else [Delay]
    requires forall i :: 0 <= i < |records| ==> records[i].0 == c + i
    ensures Sequences(added) == Range(c, c + |records|)
  {
    SequencesOfRecords(records);
  }

  lemma FetchBounded(r: Reader, reply: Reply, limit: nat, c: nat, logLength: nat, fetchNum: nat)
    requires Bounded(r, limit, fetchNum) && r.running && FromLog(reply, c, logLength, fetchNum)
    ensures Bounded(Fetch(r, reply), limit, fetchNum)
  {
  }

  // A fetch adds at most its size.
  lemma EndsGrow(r: Reader, reply: Option<Reply>, c: nat, logLength: nat, fetchNum: nat)
    requires NoDoubleException(r.cache) && (reply.Some? ==> FromLog(reply.value, c, logLength, fetchNum))
    ensures var e := Ends(r, reply);
            && NoDoubleException(e.cache) && |r.cache| <= |e.cache| <= |r.cache| + FetchSize(fetchNum)
            && (!r.running ==> e == r) && (e.running ==> e == r)
  {
  }

  // Taking the front delivers the next record of the log, or a marker and nothing.
  lemma TakeSeamless(r: Reader, delivered: seq<nat>, start: nat)
    requires Seamless(r, delivered, start)
    ensures var (r1, result) := TakeFront(r);
            if result.Got?
            then result.sequence == start + |delivered| && Seamless(r1, delivered + [result.sequence], start)
            else Seamless(r1, delivered, start)
  {
    if r.cache != [] {
      var s, rest := Sequences(r.cache), Sequences(r.cache[1..]);
      assert s == (if r.cache[0].Record? then [r.cache[0].sequence] else []) + rest;
      hide Sequences;
      if r.cache[0].Record? {
        assert delivered + s == delivered + [r.cache[0].sequence] + rest;
        assert (delivered + s)[|delivered|] == r.cache[0].sequence;
      }
    }
  }

  // An answer, if there is one, is from the log at the reader's position.
  ghost predicate Answers(r: Reader, reply: Option<Reply>, start: nat, logLength: nat, fetchNum: nat) {
    reply.Some? ==> FromLog(reply.value, NextPosition(r, start), logLength, fetchNum)
  }

  ghost predicate TickFromLog(r: Reader, limit: nat, tick: Tick, start: nat, logLength: nat, fetchNum: nat) {
    && Answers(r, tick.before, start, logLength, fetchNum)
    && Answers(Looked(r, tick), tick.between, start, logLength, fetchNum)
    && Answers(Asked(r, limit, tick), tick.after, start, logLength, fetchNum)
  }

  // Every fetch a run of ticks completes is such an answer.
  ghost predicate TicksFromLog(r: Reader, limit: nat, ticks: seq<Tick>, start: nat, logLength: nat, fetchNum: nat)
    decreases |ticks|
  {
    ticks != [] ==>
      && TickFromLog(r, limit, ticks[0], start, logLength, fetchNum)
      && TicksFromLog(Pass(r, limit, ticks[0]).0, limit, ticks[1..], start, logLength, fetchNum)
  }

  lemma EndsSeamless(r: Reader, reply: Option<Reply>, delivered: seq<nat>, start: nat, logLength: nat, fetchNum: nat)
    requires Seamless(r, delivered, start) && Answers(r, reply, start, logLength, fetchNum)
    ensures Seamless(Ends(r, reply), delivered, start)
  {
    if reply.Some? {
      FetchSeamless(r, reply.value, delivered, start, logLength, fetchNum);
    }
  }

  // A reader within a pass: one more record than between passes.
  ghost predicate Loose(r: Reader, limit: nat, fetchNum: nat) {
    && NoDoubleException(r.cache)
    && |r.cache| <= Overshoot(limit, fetchNum)
    && (r.running ==> limit > 0 && |r.cache| <= SentSize(limit, fetchNum) + 1)
  }

  lemma AskedLoose(r: Reader, limit: nat, tick: Tick, start: nat, logLength: nat, fetchNum: nat)
    requires Bounded(r, limit, fetchNum) && TickFromLog(r, limit, tick, start, logLength, fetchNum)
    ensures Loose(Asked(r, limit, tick), limit, fetchNum)
  {
    EndsGrow(r, tick.before, NextPosition(r, start), logLength, fetchNum);
    var looked := Looked(r, tick);
    EndsGrow(looked, tick.between, NextPosition(looked, start), logLength, fetchNum);
    hide FromLog; hide Ends; hide NoDoubleException; hide NextPosition; hide Answers;
  }

  lemma TakenBounded(r: Reader, limit: nat, fetchNum: nat)
    requires NoDoubleException(r.cache) && |r.cache| <= Overshoot(limit, fetchNum) + 1
    requires r.running ==> limit > 0 && |r.cache| <= SentSize(limit, fetchNum) + 1
    requires r.cache == [] && r.running ==> limit > 0
    ensures Bounded(TakeFront(r).0, limit, fetchNum)
  {
  }

  lemma PassBounded(r: Reader, limit: nat, tick: Tick, start: nat, logLength: nat, fetchNum: nat)
    requires Bounded(r, limit, fetchNum) && TickFromLog(r, limit, tick, start, logLength, fetchNum)
    ensures Bounded(Pass(r, limit, tick).0, limit, fetchNum)
  {
    var asked := Asked(r, limit, tick);
    AskedLoose(r, limit, tick, start, logLength, fetchNum);
    EndsGrow(asked, tick.after, NextPosition(asked, start), logLength, fetchNum);
    hide FromLog; hide Ends; hide NoDoubleException; hide NextPosition; hide Bounded; hide Asked;
    TakenBounded(Ends(asked, tick.after), limit, fetchNum);
  }

  // ---------------------------------------------------------------- how far the limit is overshot

  // Several passes, each of a read of its own.
  function Passes(r: Reader, limit: nat, ticks: seq<Tick>): Reader
    decreases |ticks|
  {
    if ticks == [] then r else Passes(Pass(r, limit, ticks[0]).0, limit, ticks[1..])
  }

  // The answer of m records at position c.
  function Answer(c: nat, m: nat): (reply: Reply)
    ensures FromLog(reply, c, c + m, m)
  {
    Records(seq(m, i requires 0 <= i < m => (c + i, 0)), Some(c + m))
  }

  // A fetch of m records completes between the two looks, and the next one is sent at once.
  lemma FillPass(r: Reader, limit: nat, m: nat, start: nat, logLength: nat, fetchNum: nat) returns (tick: Tick)
    requires r.running && |r.cache| < limit && 1 <= m <= fetchNum && NextPosition(r, start) + m <= logLength
    ensures TickFromLog(r, limit, tick, start, logLength, fetchNum)
    ensures var t := Pass(r, limit, tick).0;
            t.running && |t.cache| == |r.cache| + m - 1 && NextPosition(t, start) == NextPosition(r, start) + m
  {
    tick := Tick(None, Some(Answer(NextPosition(r, start), m)), None, true);
  }

  lemma {:induction false} FillMore(r: Reader, limit: nat, k: nat, start: nat, logLength: nat, fetchNum: nat)
    returns (ticks: seq<Tick>)
    requires r.running && |r.cache| + k < limit && fetchNum >= 2
    requires NextPosition(r, start) + 2 * k + fetchNum <= logLength
    ensures TicksFromLog(r, limit, ticks, start, logLength, fetchNum)
    ensures var t := Passes(r, limit, ticks);
            && t.running && |t.cache| == |r.cache| + k + fetchNum - 1
            && NextPosition(t, start) == NextPosition(r, start) + 2 * k + fetchNum
    decreases k
  {
    hide Pass; hide TickFromLog; hide NextPosition;
    var tick := FillPass(r, limit, if k == 0 then fetchNum else 2, start, logLength, fetchNum);
    var rest := [];
    if k > 0 {
      rest := FillMore(Pass(r, limit, tick).0, limit, k - 1, start, logLength, fetchNum);
    } else {
      assert Passes(Pass(r, limit, tick).0, limit, []) == Pass(r, limit, tick).0;
    }
    ticks := [tick] + rest;
    assert ticks[1..] == rest && ticks[0] == tick;
  }

  // The bound is met for every limit and size of a fetch: some passes of a new reader bring it there.
  lemma OvershootReached(p: Position, limit: nat, start: nat, fetchNum: nat)
    returns (ticks: seq<Tick>, last: Reply, logLength: nat)
    requires limit > 0 && fetchNum > 0 && p.cursor.None?
    ensures TicksFromLog(Start(p), limit, ticks, start, logLength, fetchNum)
    ensures var t := Passes(Start(p), limit, ticks);
            && t.running && FromLog(last, NextPosition(t, start), logLength, fetchNum)
            && |Fetch(t, last).cache| == Overshoot(limit, fetchNum)
  {
    var first := Tick(None, None, None, true);
    var sent := Pass(Start(p), limit, first).0;
    assert sent.running && sent.cache == [] && NextPosition(sent, start) == start;
    logLength := start + 2 * limit + 2 * fetchNum;
    var rest := [];
    if fetchNum >= 2 {
      hide Pass;
      rest := FillMore(sent, limit, limit - 1, start, logLength, fetchNum);
    }
    ticks := [first] + rest;
    assert ticks[1..] == rest && ticks[0] == first;
    hide Pass;
    var t := Passes(sent, limit, rest);
    last := Answer(NextPosition(t, start), fetchNum);
  }

  // Were looking and raising the flag one moment, one fetch would be all that overshoots.
  ghost predicate OnceBounded(r: Reader, limit: nat, fetchNum: nat) {
    var most := if limit < 2 then 0 else limit - 2;
    && NoDoubleException(r.cache)
    && |r.cache| <= most + FetchSize(fetchNum)
    && (r.running ==> limit > 0 && |r.cache| <= most)
  }

  lemma OncePass(r: Reader, limit: nat, tick: Tick, start: nat, logLength: nat, fetchNum: nat)
    requires OnceBounded(r, limit, fetchNum) && TickFromLog(r, limit, tick, start, logLength, fetchNum)
    requires tick.between.None?
    ensures OnceBounded(Pass(r, limit, tick).0, limit, fetchNum)
  {
    var looked, asked := Looked(r, tick), Asked(r, limit, tick);
    EndsGrow(r, tick.before, NextPosition(r, start), logLength, fetchNum);
    EndsGrow(asked, tick.after, NextPosition(asked, start), logLength, fetchNum);
    assert Tried(r, tick) == looked;
    hide FromLog; hide NextPosition; hide Fetch; hide Answers;
    TakeKeepsMarkers(Ends(asked, tick.after));
    hide NoDoubleException; hide Ends;
  }

  lemma TakeKeepsMarkers(r: Reader)
    requires NoDoubleException(r.cache)
    ensures NoDoubleException(TakeFront(r).0.cache)
  {
  }

  // In passes during which no fetch completes between the two, and with one completing afterwards.
  lemma {:induction false} OncePasses(r: Reader, limit: nat, ticks: seq<Tick>, start: nat, logLength: nat,
                                      fetchNum: nat)
    requires OnceBounded(r, limit, fetchNum) && TicksFromLog(r, limit, ticks, start, logLength, fetchNum)
    requires forall i :: 0 <= i < |ticks| ==> ticks[i].between.None?
    ensures OnceBounded(Passes(r, limit, ticks), limit, fetchNum)
    decreases |ticks|
  {
    hide OnceBounded; hide Pass; hide TickFromLog;
    if ticks != [] {
      OncePass(r, limit, ticks[0], start, logLength, fetchNum);
      OncePasses(Pass(r, limit, ticks[0]).0, limit, ticks[1..], start, logLength, fetchNum);
    }
  }

  // ---------------------------------------------------------------- whole reads

  lemma PassKeeps(r: Reader, limit: nat, tick: Tick, delivered: seq<nat>, start: nat, logLength: nat, fetchNum: nat)
    requires Seamless(r, delivered, start) && Bounded(r, limit, fetchNum)
    requires TickFromLog(r, limit, tick, start, logLength, fetchNum)
    ensures var (r1, result) := Pass(r, limit, tick);
            && Bounded(r1, limit, fetchNum)
            && if result.Got?
               then result.sequence == start + |delivered| && Seamless(r1, delivered + [result.sequence], start)
               else Seamless(r1, delivered, start)
  {
    PassBounded(r, limit, tick, start, logLength, fetchNum);
    hide Seamless; hide Bounded; hide Answers; hide Fetch; hide TakeFront;
    var asked := Asked(r, limit, tick);
    EndsSeamless(r, tick.before, delivered, start, logLength, fetchNum);
    EndsSeamless(Looked(r, tick), tick.between, delivered, start, logLength, fetchNum);
    SameSeamless(Tried(r, tick), asked, delivered, start);
    EndsSeamless(asked, tick.after, delivered, start, logLength, fetchNum);
    TakeSeamless(Ends(asked, tick.after), delivered, start);
  }

  lemma SameSeamless(r: Reader, s: Reader, delivered: seq<nat>, start: nat)
    requires Seamless(r, delivered, start) && s.position == r.position && s.cache == r.cache
    ensures Seamless(s, delivered, start)
  {
  }

  // Every read hands out exactly the next record of the log or none, whatever mix of failed,
  // empty and successful fetches it waits for; the cache stays bounded.
  lemma {:induction false} ReadDeliversLog(r: Reader, limit: nat, ticks: seq<Tick>, delivered: seq<nat>, start: nat,
                                           logLength: nat, fetchNum: nat)
    requires Seamless(r, delivered, start) && Bounded(r, limit, fetchNum)
    requires ticks != [] && ticks[|ticks| - 1].expired && TicksFromLog(r, limit, ticks, start, logLength, fetchNum)
    ensures var (r1, result) := ReadNext(r, limit, ticks);
            && Bounded(r1, limit, fetchNum)
            && if result.Got?
               then result.sequence == start + |delivered| && Seamless(r1, delivered + [result.sequence], start)
               else Seamless(r1, delivered, start)
    decreases |ticks|
  {
    hide Seamless; hide Bounded; hide FromLog; hide Pass;
    PassKeeps(r, limit, ticks[0], delivered, start, logLength, fetchNum);
    var (r1, result) := Pass(r, limit, ticks[0]);
    if result.NothingYet? && !ticks[0].expired {
      ReadDeliversLog(r1, limit, ticks[1..], delivered, start, logLength, fetchNum);
    }
  }

  // ---------------------------------------------------------------- what reads tell of fetches

  // What one fetch has to tell: its records, that it failed, or that there was nothing.
  function Told(reply: Reply): seq<ReadResult> {
    match reply
    case Failed => [Raised]
    case Broken => []
    case Records(records, _) =>
      if records == [] then [NoData]
      else seq(|records|, i requires 0 <= i < |records| => Got(records[i].0, records[i].1))
  }

  // A failure right behind one that nobody has read yet is not told again.
  function Joined(unread: seq<ReadResult>, reply: Reply): seq<ReadResult> {
    if reply.Failed? && unread != [] && unread[|unread| - 1].Raised? then unread else unread + Told(reply)
  }

  function Telling(unread: seq<ReadResult>, answers: seq<Reply>): seq<ReadResult>
    decreases |answers|
  {
    if answers == [] then unread else Telling(Joined(unread, answers[0]), answers[1..])
  }

  function Meaning(f: Fetched): ReadResult {
    match f
    case Record(s, t) => Got(s, t)
    case Exception => Raised
    case Delay => NoData
  }

  function Unread(cache: seq<Fetched>): (u: seq<ReadResult>)
    ensures |u| == |cache| && forall i :: 0 <= i < |u| ==> u[i] == Meaning(cache[i])
  {
    seq(|cache|, i requires 0 <= i < |cache| => Meaning(cache[i]))
  }

  lemma FetchTells(r: Reader, reply: Reply)
    ensures Unread(Fetch(r, reply).cache) == Joined(Unread(r.cache), reply)
  {
    match reply
    case Broken => assert Unread(r.cache) + [] == Unread(r.cache);
    case Failed =>
    case Records(records, next) =>
  }

  lemma TakeTells(r: Reader)
    ensures var (after, result) := TakeFront(r);
            if r.cache == [] then after == r && result.NothingYet?
            else Unread(r.cache) == [result] + Unread(after.cache) && !result.NothingYet?
  {
  }

  // The answers of the fetches that end during a pass, and during a read.
  function EndedIn(r: Reader, limit: nat, tick: Tick): seq<Reply> {
    (if tick.before.Some? && r.running then [tick.before.value] else [])
    + (if tick.between.Some? && Looked(r, tick).running then [tick.between.value] else [])
    + (if tick.after.Some? && Asked(r, limit, tick).running then [tick.after.value] else [])
  }

  function Ended(r: Reader, limit: nat, ticks: seq<Tick>): seq<Reply>
    requires ticks != [] && ticks[|ticks| - 1].expired
    decreases |ticks|
  {
    var (after, result) := Pass(r, limit, ticks[0]);
    EndedIn(r, limit, ticks[0])
    + if result.NothingYet? && !ticks[0].expired then Ended(after, limit, ticks[1..]) else []
  }

  // How many passes a read takes.
  function PassesOf(r: Reader, limit: nat, ticks: seq<Tick>): (n: nat)
    requires ticks != [] && ticks[|ticks| - 1].expired
    ensures 0 < n <= |ticks|
    decreases |ticks|
  {
    var (after, result) := Pass(r, limit, ticks[0]);
    1 + if result.NothingYet? && !ticks[0].expired then PassesOf(after, limit, ticks[1..]) else 0
  }

  lemma {:induction false} TellingConcat(unread: seq<ReadResult>, a: seq<Reply>, b: seq<Reply>)
    ensures Telling(unread, a + b) == Telling(Telling(unread, a), b)
    decreases |a|
  {
    if a == [] {
      assert a + b == b;
    } else {
      assert (a + b)[1..] == a[1..] + b;
      TellingConcat(Joined(unread, a[0]), a[1..], b);
    }
  }

  lemma TellingOne(unread: seq<ReadResult>, reply: Reply)
    ensures Telling(unread, [reply]) == Joined(unread, reply)
  {
    assert [reply][1..] == [];
  }

  lemma EndsTells(r: Reader, reply: Option<Reply>)
    ensures Unread(Ends(r, reply).cache) ==
            Telling(Unread(r.cache), if reply.Some? && r.running then [reply.value] else [])
  {
    if reply.Some? && r.running {
      TellingOne(Unread(r.cache), reply.value);
      FetchTells(r, reply.value);
    }
  }

  lemma PassTells(r: Reader, limit: nat, tick: Tick)
    ensures Unread(Ends(Asked(r, limit, tick), tick.after).cache) == Telling(Unread(r.cache), EndedIn(r, limit, tick))
  {
    var u, looked, asked := Unread(r.cache), Looked(r, tick), Asked(r, limit, tick);
    var a := if tick.before.Some? && r.running then [tick.before.value] else [];
    var b := if tick.between.Some? && looked.running then [tick.between.value] else [];
    var c := if tick.after.Some? && asked.running then [tick.after.value] else [];
    EndsTells(r, tick.before);
    EndsTells(looked, tick.between);
    EndsTells(asked, tick.after);
    TellingConcat(u, a, b);
    TellingConcat(u, a + b, c);
    hide Telling; hide Ends; hide Unread;
    assert asked.cache == Tried(r, tick).cache;
  }

  // After n passes, having been told all this, a read has this result and leaves this reader.
  ghost predicate Yields(ticks: seq<Tick>, n: nat, all: seq<ReadResult>, after: Reader, result: ReadResult) {
    && 0 < n <= |ticks| && (forall i :: 0 <= i < n - 1 ==> !ticks[i].expired)
    && if all == [] then result.NoData? && after.cache == [] && ticks[n - 1].expired
       else result == all[0] && Unread(after.cache) == all[1..]
  }

  lemma YieldsLater(ticks: seq<Tick>, n: nat, all: seq<ReadResult>, after: Reader, result: ReadResult)
    requires ticks != [] && !ticks[0].expired && Yields(ticks[1..], n, all, after, result)
    ensures Yields(ticks, 1 + n, all, after, result)
  {
    hide Unread;
    assert forall i :: 0 < i < |ticks| ==> ticks[i] == ticks[1..][i - 1];
  }

  // A read yields the first thing the cache and the fetches ending meanwhile have to tell, and leaves
  // the rest; it yields nothing otherwise only when its time is up.
  lemma {:induction false} ReadYields(r: Reader, limit: nat, ticks: seq<Tick>)
    requires ticks != [] && ticks[|ticks| - 1].expired
    ensures Yields(ticks, PassesOf(r, limit, ticks), Telling(Unread(r.cache), Ended(r, limit, ticks)),
                   ReadNext(r, limit, ticks).0, ReadNext(r, limit, ticks).1)
    decreases |ticks|
  {
    var here, next := EndedIn(r, limit, ticks[0]), Pass(r, limit, ticks[0]).0;
    OnePassTells(r, limit, ticks[0]);
    if Pass(r, limit, ticks[0]).1.NothingYet? && !ticks[0].expired {
      GoesOn(r, limit, ticks);
      hide Pass; hide Telling; hide EndedIn; hide Unread; hide ReadNext; hide Ended; hide PassesOf; hide Yields;
      ReadYields(next, limit, ticks[1..]);
      TellingConcat(Unread(r.cache), here, Ended(next, limit, ticks[1..]));
      YieldsLater(ticks, PassesOf(next, limit, ticks[1..]),
                  Telling(Unread(next.cache), Ended(next, limit, ticks[1..])),
                  ReadNext(next, limit, ticks[1..]).0, ReadNext(next, limit, ticks[1..]).1);
    } else {
      Stops(r, limit, ticks);
      hide Pass; hide Telling; hide EndedIn; hide Unread; hide ReadNext; hide Ended; hide PassesOf;
    }
  }

  // The same, spelled out.
  lemma ReadTells(r: Reader, limit: nat, ticks: seq<Tick>)
    requires ticks != [] && ticks[|ticks| - 1].expired
    ensures var (after, result) := ReadNext(r, limit, ticks);
            var all, n := Telling(Unread(r.cache), Ended(r, limit, ticks)), PassesOf(r, limit, ticks);
            && (forall i :: 0 <= i < n - 1 ==> !ticks[i].expired)
            && if all == [] then result.NoData? && after.cache == [] && ticks[n - 1].expired
               else result == all[0] && Unread(after.cache) == all[1..]
  {
    ReadYields(r, limit, ticks);
    hide Telling; hide Unread; hide ReadNext; hide Ended; hide PassesOf;
  }

  // A read goes on after a pass that yields nothing, while its time is not up.
  lemma GoesOn(r: Reader, limit: nat, ticks: seq<Tick>)
    requires ticks != [] && ticks[|ticks| - 1].expired
    requires Pass(r, limit, ticks[0]).1.NothingYet? && !ticks[0].expired
    ensures var next, rest := Pass(r, limit, ticks[0]).0, ticks[1..];
            && rest != [] && rest[|rest| - 1].expired
            && ReadNext(r, limit, ticks) == ReadNext(next, limit, rest)
            && Ended(r, limit, ticks) == EndedIn(r, limit, ticks[0]) + Ended(next, limit, rest)
            && PassesOf(r, limit, ticks) == 1 + PassesOf(next, limit, rest)
  {
    hide Pass; hide EndedIn;
  }

  lemma Stops(r: Reader, limit: nat, ticks: seq<Tick>)
    requires ticks != [] && ticks[|ticks| - 1].expired
    requires !(Pass(r, limit, ticks[0]).1.NothingYet? && !ticks[0].expired)
    ensures var (next, result) := Pass(r, limit, ticks[0]);
            && ReadNext(r, limit, ticks) == (next, if result.NothingYet? then NoData else result)
            && Ended(r, limit, ticks) == EndedIn(r, limit, ticks[0]) && PassesOf(r, limit, ticks) == 1
  {
    hide Pass; hide EndedIn;
    assert EndedIn(r, limit, ticks[0]) + [] == EndedIn(r, limit, ticks[0]);
  }

  lemma OnePassTells(r: Reader, limit: nat, tick: Tick)
    ensures var (after, result) := Pass(r, limit, tick);
            var all := Telling(Unread(r.cache), EndedIn(r, limit, tick));
            if all == [] then after.cache == [] && result.NothingYet? && Unread(after.cache) == []
            else result == all[0] && Unread(after.cache) == all[1..] && !result.NothingYet?
  {
    PassTells(r, limit, tick);
    TakeTells(Ends(Asked(r, limit, tick), tick.after));
    hide Telling; hide EndedIn; hide Ends; hide Asked; hide TakeFront;
  }

  // The first answer that tells anything.
  function FirstTelling(answers: seq<Reply>): Option<Reply>
    decreases |answers|
  {
    if answers == [] then None else if answers[0].Broken? then FirstTelling(answers[1..]) else Some(answers[0])
  }

  lemma {:induction false} FirstTold(answers: seq<Reply>)
    ensures match FirstTelling(answers)
            case None => Telling([], answers) == []
            case Some(reply) =>
              !reply.Broken? && Telling([], answers) != [] && Telling([], answers)[0] == Told(reply)[0]
    decreases |answers|
  {
    if answers != [] {
      if answers[0].Broken? {
        assert [] + Told(answers[0]) == [];
        FirstTold(answers[1..]);
      } else {
        assert [] + Told(answers[0]) == Told(answers[0]);
        FirstKept(Told(answers[0]), answers[1..]);
      }
    }
  }

  lemma {:induction false} FirstKept(unread: seq<ReadResult>, answers: seq<Reply>)
    requires unread != []
    ensures Telling(unread, answers) != [] && Telling(unread, answers)[0] == unread[0]
    decreases |answers|
  {
    if answers != [] {
      FirstKept(Joined(unread, answers[0]), answers[1..]);
    }
  }

  lemma ToldFirst(reply: Reply)
    requires !reply.Broken?
    ensures Told(reply) != []
    ensures reply.Failed? ==> Told(reply)[0].Raised?
    ensures reply.Records? ==>
              Told(reply)[0] == if reply.records == [] then NoData else Got(reply.records[0].0, reply.records[0].1)
  {
  }

  // A read that finds nothing cached: a failed fetch makes it raise that failure, an empty one makes
  // it return without a record, and one with records yields the first of them.
  lemma ReadAnswers(r: Reader, limit: nat, ticks: seq<Tick>)
    requires r.cache == [] && ticks != [] && ticks[|ticks| - 1].expired
    ensures var result, first := ReadNext(r, limit, ticks).1, FirstTelling(Ended(r, limit, ticks));
            && (first.None? ==> result.NoData? && ticks[PassesOf(r, limit, ticks) - 1].expired)
            && (first.Some? ==> if first.value.Failed? then result.Raised?
                                else if first.value.Records? && first.value.records != []
                                then result == Got(first.value.records[0].0, first.value.records[0].1)
                                else result.NoData?)
  {
    ReadTells(r, limit, ticks);
    var answers := Ended(r, limit, ticks);
    assert Unread(r.cache) == [];
    hide Ended; hide ReadNext; hide Unread; hide PassesOf; hide Told;
    FirstTold(answers);
    hide Telling; hide FirstTelling;
    if FirstTelling(answers).Some? {
      ToldFirst(FirstTelling(answers).value);
    }
  }

  function Failures(answers: seq<Reply>): nat {
    if answers == [] then 0 else (if answers[0].Failed? then 1 else 0) + Failures(answers[1..])
  }

  function Raises(results: seq<ReadResult>): nat {
    if results == [] then 0
    else Raises(results[..|results| - 1]) + if results[|results| - 1].Raised? then 1 else 0
  }

  lemma {:induction false} RaisesConcat(a: seq<ReadResult>, b: seq<ReadResult>)
    ensures Raises(a + b) == Raises(a) + Raises(b)
    decreases |b|
  {
    if b == [] {
      assert a + b == a;
    } else {
      assert (a + b)[..|a + b| - 1] == a + b[..|b| - 1];
      RaisesConcat(a, b[..|b| - 1]);
    }
  }

  lemma {:induction false} NoRaises(results: seq<ReadResult>)
    requires forall i :: 0 <= i < |results| ==> !results[i].Raised?
    ensures Raises(results) == 0
  {
    if results != [] {
      NoRaises(results[..|results| - 1]);
    }
  }

  lemma {:induction false} TellingRaises(unread: seq<ReadResult>, answers: seq<Reply>)
    ensures Raises(Telling(unread, answers)) <= Raises(unread) + Failures(answers)
    decreases |answers|
  {
    if answers != [] {
      TellingRaises(Joined(unread, answers[0]), answers[1..]);
      RaisesConcat(unread, Told(answers[0]));
      if answers[0].Failed? {
        RaisesConcat([], [Raised]);
        assert [Raised][..0] == [];
        assert Raises([Raised]) == 1;
      } else {
        NoRaises(Told(answers[0]));
      }
    }
  }

  // The results of several reads, one after the other, the reader they leave, and the answers that
  // came meanwhile.
  function Reads(r: Reader, limit: nat, calls: seq<seq<Tick>>): (Reader, seq<ReadResult>, seq<Reply>)
    requires forall i :: 0 <= i < |calls| ==> calls[i] != [] && calls[i][|calls[i]| - 1].expired
    decreases |calls|
  {
    if calls == [] then (r, [], [])
    else
      var (next, result) := ReadNext(r, limit, calls[0]);
      var (after, results, answers) := Reads(next, limit, calls[1..]);
      (after, [result] + results, Ended(r, limit, calls[0]) + answers)
  }

  lemma {:induction false} FailuresConcat(a: seq<Reply>, b: seq<Reply>)
    ensures Failures(a + b) == Failures(a) + Failures(b)
    decreases |a|
  {
    if a == [] {
      assert a + b == b;
    } else {
      assert (a + b)[1..] == a[1..] + b;
      FailuresConcat(a[1..], b);
    }
  }

  lemma RaisesCons(result: ReadResult, rest: seq<ReadResult>)
    ensures Raises([result] + rest) == (if result.Raised? then 1 else 0) + Raises(rest)
  {
    RaisesConcat([result], rest);
    assert [result][..0] == [];
    assert Raises([result]) == Raises([]) + if result.Raised? then 1 else 0;
  }

  lemma OneReadRaises(r: Reader, limit: nat, ticks: seq<Tick>)
    requires ticks != [] && ticks[|ticks| - 1].expired
    ensures var (after, result) := ReadNext(r, limit, ticks);
            (if result.Raised? then 1 else 0) + Raises(Unread(after.cache))
            <= Raises(Unread(r.cache)) + Failures(Ended(r, limit, ticks))
  {
    ReadTells(r, limit, ticks);
    TellingRaises(Unread(r.cache), Ended(r, limit, ticks));
    var all := Telling(Unread(r.cache), Ended(r, limit, ticks));
    hide ReadNext; hide Ended; hide Telling; hide Failures;
    if all != [] {
      RaisesCons(all[0], all[1..]);
      assert [all[0]] + all[1..] == all;
    }
  }

  // Over any reads of a new reader: no more of them raise an exception than fetches have failed.
  lemma {:induction false} RaisesOnlyFailures(r: Reader, limit: nat, calls: seq<seq<Tick>>)
    requires forall i :: 0 <= i < |calls| ==> calls[i] != [] && calls[i][|calls[i]| - 1].expired
    ensures var (after, results, answers) := Reads(r, limit, calls);
            |results| == |calls|
            && Raises(results) + Raises(Unread(after.cache)) <= Raises(Unread(r.cache)) + Failures(answers)
    decreases |calls|
  {
    hide ReadNext; hide Ended; hide Raises; hide Failures;
    if calls != [] {
      var (next, result) := ReadNext(r, limit, calls[0]);
      OneReadRaises(r, limit, calls[0]);
      RaisesOnlyFailures(next, limit, calls[1..]);
      var (after, results, answers) := Reads(next, limit, calls[1..]);
      RaisesCons(result, results);
      FailuresConcat(Ended(r, limit, calls[0]), answers);
    } else {
      RaisesNone();
    }
  }

  lemma RaisesNone()
    ensures Raises([]) == 0 && Failures([]) == 0
  {
  }

  // Records carry the system times of the log.
  ghost predicate Timed(results: seq<ReadResult>, times: seq<int>) {
    forall i :: 0 <= i < |results| && results[i].Got? ==>
      results[i].sequence < |times| && results[i].systemTime == times[results[i].sequence]
  }

  ghost predicate TimedAnswer(reply: Reply, times: seq<int>) {
    reply.Records? ==> forall i :: 0 <= i < |reply.records| ==>
      reply.records[i].0 < |times| && reply.records[i].1 == times[reply.records[i].0]
  }

  lemma {:induction false} TellingTimed(unread: seq<ReadResult>, answers: seq<Reply>, times: seq<int>)
    requires Timed(unread, times) && forall reply :: reply in answers ==> TimedAnswer(reply, times)
    ensures Timed(Telling(unread, answers), times)
    decreases |answers|
  {
    if answers != [] {
      assert TimedAnswer(answers[0], times);
      TellingTimed(Joined(unread, answers[0]), answers[1..], times);
    }
  }

  // While the answers do, so do the records handed out and those still cached.
  lemma ReadTimed(r: Reader, limit: nat, ticks: seq<Tick>, times: seq<int>)
    requires ticks != [] && ticks[|ticks| - 1].expired && Timed(Unread(r.cache), times)
    requires forall reply :: reply in Ended(r, limit, ticks) ==> TimedAnswer(reply, times)
    ensures var (after, result) := ReadNext(r, limit, ticks);
            Timed([result], times) && Timed(Unread(after.cache), times)
  {
    hide ReadNext; hide Ended; hide Telling; hide Unread; hide PassesOf; hide TimedAnswer;
    ReadTells(r, limit, ticks);
    TellingTimed(Unread(r.cache), Ended(r, limit, ticks), times);
  }

  // A reader whose cursor was invalid asks for the oldest record next, whatever it asked for before.
  lemma ResetAsksOldest(r: Reader)
    ensures var p := ResetOffset(r).position; p.cursor.None? && CursorRequestOf(p) == Oldest
    ensures ResetOffset(r).cache == r.cache && ResetOffset(r).running == r.running
  {
  }

  // ---------------------------------------------------------------- the class

  class ShardReader {
    const limit: nat
    var position: Position
    var cache: seq<Fetched>
    var taskRunning: bool

    function View(): Reader
      reads this
    {
      Reader(position, cache, taskRunning)
    }

    constructor (limit: nat, position: Position)
      ensures this.limit == limit && View() == Start(position)
    {
      this.limit := limit;
      this.position := position;
      cache, taskRunning := [], false;
    }

    method Reset()
      modifies this`position
      ensures View() == ResetOffset(old(View()))
    {
      position := Position(-1, -1, None);
    }

    // The task a fetch thread runs, given how the server calls end.
    method FetchOnce(reply: Reply)
      modifies this`position, this`cache, this`taskRunning
      ensures View() == Fetch(old(View()), reply)
    {
      match reply {
        case Failed =>
          if cache == [] || !cache[|cache| - 1].Exception? {
            cache := cache + [Exception];
          }
        case Broken =>
          return;
        case Records(records, next) =>
          if |records| > 0 {
            ghost var before := cache;
            for i := 0 to |records|
              invariant cache == before + Wrapped(records[..i])
              invariant position == old(position) && taskRunning == old(taskRunning)
            {
              assert Wrapped(records[..i + 1]) == Wrapped(records[..i]) + [Record(records[i].0, records[i].1)];
              cache := cache + [Record(records[i].0, records[i].1)];
            }
            assert records[..|records|] == records;
          } else {
            cache := cache + [Delay];
          }
          position := position.(cursor := next);
      }
      taskRunning := false;
    }

    // A fetch thread, if one is at work, comes to its end.
    method FetchEnds(reply: Option<Reply>)
      modifies this`position, this`cache, this`taskRunning
      ensures View() == Ends(old(View()), reply)
    {
      if reply.Some? && taskRunning {
        FetchOnce(reply.value);
      }
    }

    // The do-while loop. `ticks` tells what happens during each pass.
    method Read(ticks: seq<Tick>) returns (result: ReadResult)
      requires ticks != [] && ticks[|ticks| - 1].expired
      modifies this`position, this`cache, this`taskRunning
      ensures (View(), result) == ReadNext(old(View()), limit, ticks)
    {
      var i := 0;
      while true
        invariant i < |ticks|
        invariant ReadNext(View(), limit, ticks[i..]) == ReadNext(old(View()), limit, ticks)
        decreases |ticks| - i
      {
        ghost var before := View();
        assert ticks[i..][0] == ticks[i] && ticks[i..][1..] == ticks[i + 1..];
        FetchEnds(ticks[i].before);
        var room := |cache| < limit;
        FetchEnds(ticks[i].between);
        if room && !taskRunning {
          taskRunning := true;
        }
        FetchEnds(ticks[i].after);
        assert TakeFront(View()) == Pass(before, limit, ticks[i]);
        if cache != [] {
          var front := cache[0];
          cache := cache[1..];
          match front {
            case Record(s, t) => return Got(s, t);
            case Exception => return Raised;
            case Delay => return NoData;
          }
        }
        if ticks[i].expired {
          return NoData;
        }
        i := i + 1;
      }
    }
  }
}
