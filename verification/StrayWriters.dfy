/**
Shards the writer's strategy (client/src/shard_select_strategy.cpp:108-179) knows although the group
writer (client/src/shard_group_writer.cpp) has no writer for them. Picking a shard and looking its
writer up are two regions under different mutexes, and so are a failing write and the report of it;
shards may be added and removed in between.
*/
module StrayWriters {
  import opened Collections
  import opened WriterSelector

  function Shards(sel: Selector): set<string> {
    Elements(sel.active) + sel.inactive
  }

  // Known to the strategy, but not registered.
  ghost predicate Strays(sel: Selector, registered: set<string>, x: string) {
    x in Shards(sel) && x !in registered
  }

  // Nothing of this registers or forgets x.
  ghost predicate Untouched(ops: seq<Op>, x: string) {
    forall i :: 0 <= i < |ops| ==> ops[i] != AddOp(x) && ops[i] != RemoveOp(x) && !ops[i].ClearOp?
  }

  // A failure of x was reported while x was not registered, and nothing registered or forgot it since.
  ghost predicate ReportedLate(registered: set<string>, ops: seq<Op>, x: string) {
    exists i: nat :: LateReport(registered, ops, x, i)
  }

  ghost predicate LateReport(registered: set<string>, ops: seq<Op>, x: string, i: nat) {
    i < |ops| && ops[i] == InvalidOp(x) && x !in RegisteredAfter(registered, ops[..i]) && Untouched(ops[i + 1..], x)
  }

  lemma StepShards(sel: Selector, registered: set<string>, op: Op, order: set<string> -> seq<string>, x: string)
    requires Enumerates(order) && sel.index >= -1 && registered <= Shards(sel)
    ensures Registered(registered, op) <= Shards(Apply(sel, op, order)) && Apply(sel, op, order).index >= -1
    ensures Strays(Apply(sel, op, order), Registered(registered, op), x) <==>
            (Strays(sel, registered, x) && Untouched([op], x)) || (op == InvalidOp(x) && x !in registered)
  {
    var known := Shards(sel);
    assert Known(sel, known);
    if op.InvalidOp? {
      ReportKeepsKnownIff(sel, known, op.x);
    } else {
      ApplyKeepsKnown(sel, known, op, order);
    }
    hide Apply; hide Enumerates; hide Elements; hide Without;
    assert [op][0] == op;
  }

  lemma UntouchedCons(op: Op, rest: seq<Op>, x: string)
    ensures Untouched([op] + rest, x) <==> Untouched([op], x) && Untouched(rest, x)
  {
    var ops := [op] + rest;
    if Untouched(ops, x) {
      assert ops[0] == op;
      assert forall i :: 0 <= i < |rest| ==> rest[i] == ops[i + 1];
    }
    if Untouched([op], x) {
      assert [op][0] == op;
    }
  }

  lemma LateReportCons(registered: set<string>, ops: seq<Op>, x: string)
    requires ops != []
    ensures ReportedLate(registered, ops, x) <==>
            || (ops[0] == InvalidOp(x) && x !in registered && Untouched(ops[1..], x))
            || ReportedLate(Registered(registered, ops[0]), ops[1..], x)
  {
    var rest := ops[1..];
    assert forall i :: 0 <= i < |rest| ==>
             ops[..i + 1][0] == ops[0] && ops[..i + 1][1..] == rest[..i] && rest[i + 1..] == ops[i + 2..];
    if ReportedLate(registered, ops, x) {
      var i: nat :| LateReport(registered, ops, x, i);
      if i > 0 {
        assert LateReport(Registered(registered, ops[0]), rest, x, i - 1);
      }
    }
    if ReportedLate(Registered(registered, ops[0]), rest, x) {
      var i: nat :| LateReport(Registered(registered, ops[0]), rest, x, i);
      assert LateReport(registered, ops, x, i + 1);
    }
    if ops[0] == InvalidOp(x) && x !in registered && Untouched(rest, x) {
      assert ops[..0] == [];
      assert LateReport(registered, ops, x, 0);
    }
  }

  // After any run from a strategy that knows the registered shards, it still knows all of them, and
  // exactly the shards reported late besides.
  lemma {:induction false} RunStraysIff(sel: Selector, registered: set<string>, ops: seq<Op>,
                                        order: set<string> -> seq<string>, x: string)
    requires Enumerates(order) && sel.index >= -1 && registered <= Shards(sel)
    ensures RegisteredAfter(registered, ops) <= Shards(Run(sel, ops, order)) && Run(sel, ops, order).index >= -1
    ensures Strays(Run(sel, ops, order), RegisteredAfter(registered, ops), x) <==>
            (Strays(sel, registered, x) && Untouched(ops, x)) || ReportedLate(registered, ops, x)
    decreases |ops|
  {
    if ops != [] {
      hide Strays; hide Untouched; hide LateReport; hide Apply; hide Registered; hide Enumerates; hide Shards;
      StepShards(sel, registered, ops[0], order, x);
      RunStraysIff(Apply(sel, ops[0], order), Registered(registered, ops[0]), ops[1..], order, x);
      LateReportCons(registered, ops, x);
      assert [ops[0]] + ops[1..] == ops;
      UntouchedCons(ops[0], ops[1..], x);
    }
  }

  lemma KnownShards(sel: Selector, registered: set<string>)
    requires Known(sel, registered)
    ensures Shards(sel) == registered && sel.index >= -1
  {
  }

  lemma {:induction false} RegisteredJoin(registered: set<string>, a: seq<Op>, b: seq<Op>)
    ensures RegisteredAfter(registered, a + b) == RegisteredAfter(RegisteredAfter(registered, a), b)
    decreases |a|
  {
    if a == [] {
      assert a + b == b;
    } else {
      assert (a + b)[1..] == a[1..] + b;
      RegisteredJoin(Registered(registered, a[0]), a[1..], b);
    }
  }

  // The last of the operations that register or forget x registers it.
  ghost predicate AddedLast(ops: seq<Op>, x: string) {
    exists i :: 0 <= i < |ops| && ops[i] == AddOp(x) && Kept(ops[i + 1..], x)
  }

  ghost predicate Kept(ops: seq<Op>, x: string) {
    forall i :: 0 <= i < |ops| ==> ops[i] != RemoveOp(x) && !ops[i].ClearOp?
  }

  lemma {:induction false} RegisteredIff(registered: set<string>, ops: seq<Op>, x: string)
    ensures x in RegisteredAfter(registered, ops) <==> (x in registered && Kept(ops, x)) || AddedLast(ops, x)
    decreases |ops|
  {
    if ops != [] {
      var rest := ops[1..];
      RegisteredIff(Registered(registered, ops[0]), rest, x);
      KeptCons(ops, x);
      AddedCons(ops, x);
    }
  }

  lemma KeptCons(ops: seq<Op>, x: string)
    requires ops != []
    ensures Kept(ops, x) <==> ops[0] != RemoveOp(x) && !ops[0].ClearOp? && Kept(ops[1..], x)
  {
    assert forall i :: 0 <= i < |ops[1..]| ==> ops[1..][i] == ops[i + 1];
    if Kept(ops[1..], x) {
      assert forall i :: 0 < i < |ops| ==> ops[i] == ops[1..][i - 1];
    }
  }

  lemma AddedCons(ops: seq<Op>, x: string)
    requires ops != []
    ensures AddedLast(ops, x) <==> (ops[0] == AddOp(x) && Kept(ops[1..], x)) || AddedLast(ops[1..], x)
  {
    var rest := ops[1..];
    assert forall i :: 0 <= i < |rest| ==> rest[i] == ops[i + 1] && rest[i + 1..] == ops[i + 2..];
    if AddedLast(ops, x) {
      var i :| 0 <= i < |ops| && ops[i] == AddOp(x) && Kept(ops[i + 1..], x);
      if i > 0 {
        assert rest[i - 1] == AddOp(x) && Kept(rest[i - 1 + 1..], x);
      }
    }
    if AddedLast(rest, x) {
      var i :| 0 <= i < |rest| && rest[i] == AddOp(x) && Kept(rest[i + 1..], x);
      assert ops[i + 1] == AddOp(x) && Kept(ops[i + 1 + 1..], x);
    }
  }

  // A shard picked after any run `before`, and looked up after others have done `between`, has no
  // writer exactly when it was removed or cleared in between, or was a late report already, and has
  // not been added again.
  lemma LookupFailsIff(sel: Selector, registered: set<string>, before: seq<Op>, expired: bool, between: seq<Op>,
                       order: set<string> -> seq<string>)
    requires Known(sel, registered) && Enumerates(order)
    ensures var x := Next(Run(sel, before, order), expired, order).1;
            x != "" ==> (x !in RegisteredAfter(registered, before + between) <==>
                         !AddedLast(between, x) && (!Kept(between, x) || ReportedLate(registered, before, x)))
  {
    KnownShards(sel, registered);
    var picked := Run(sel, before, order);
    var x := Next(picked, expired, order).1;
    RunStraysIff(sel, registered, before, order, x);
    RegisteredJoin(registered, before, between);
    RegisteredIff(RegisteredAfter(registered, before), between, x);
    PickIsKnown(picked, expired, order);
    hide RegisteredAfter; hide Run; hide Next; hide Enumerates; hide ReportedLate; hide AddedLast; hide Kept;
    hide Untouched;
    hide Shards;
  }

  lemma PickIsKnown(sel: Selector, expired: bool, order: set<string> -> seq<string>)
    requires Enumerates(order) && sel.index >= -1
    ensures Next(sel, expired, order).1 != "" ==> Next(sel, expired, order).1 in Shards(sel)
  {
    NextKeepsKnown(sel, Shards(sel), expired, order);
  }
}
