/**
ShardWriterSelectStrategy (client/src/shard_select_strategy.cpp:108-179): round robin over the active
shards; a shard that failed is kept aside until the active ones run out or the timer expires.

`Inactive` shards are put back in the order of a std::set, which is a parameter here; whether the
timer has expired is another.
*/
module WriterSelector {
  import opened Collections

  datatype Selector = Selector(active: seq<string>, inactive: set<string>, index: int)

  function Elements(s: seq<string>): set<string> {
    set x | x in s
  }

  // An order for the contents of every set of shards.
  ghost predicate Enumerates(order: set<string> -> seq<string>) {
    forall s :: Distinct(order(s)) && Elements(order(s)) == s
  }

  // ---------------------------------------------------------------- the operations

  function Without(s: seq<string>, x: string): (r: seq<string>)
    ensures forall y :: y in r <==> y in s && y != x
    ensures x !in s ==> r == s
  {
    if s == [] then [] else (if s[0] == x then [] else [s[0]]) + Without(s[1..], x)
  }

  function Add(sel: Selector, x: string): Selector {
    sel.(active := sel.active + [x], inactive := sel.inactive - {x})
  }

  function Remove(sel: Selector, x: string): Selector {
    sel.(active := Without(sel.active, x), inactive := sel.inactive - {x})
  }

  function Clear(sel: Selector): Selector {
    sel.(active := [], inactive := {})
  }

  function AddInvalid(sel: Selector, x: string): Selector {
    sel.(active := Without(sel.active, x), inactive := sel.inactive + {x})
  }

  // The inactive shards are appended, and stay inactive as well.
  function Refill(sel: Selector, expired: bool, order: set<string> -> seq<string>): Selector {
    if sel.active == [] || expired then sel.(active := sel.active + order(sel.inactive)) else sel
  }

  function Next(sel: Selector, expired: bool, order: set<string> -> seq<string>): (Selector, string) {
    var full := Refill(sel, expired, order);
    if full.active == [] then (full, "")
    else
      var i := (full.index + 1) % |full.active|;
      (full.(index := i), full.active[i])
  }

  // ---------------------------------------------------------------- which shards are known

  // Every registered shard is active or set aside, possibly both, and no other shard is.
  ghost predicate Known(sel: Selector, registered: set<string>) {
    Elements(sel.active) + sel.inactive == registered && sel.index >= -1
  }

  lemma NextKeepsKnown(sel: Selector, registered: set<string>, expired: bool, order: set<string> -> seq<string>)
    requires Known(sel, registered) && Enumerates(order)
    ensures Known(Next(sel, expired, order).0, registered)
    ensures registered == {} ==> Next(sel, expired, order).1 == ""
    ensures registered != {} ==> Next(sel, expired, order).1 in registered
  {
    assert Elements(order(sel.inactive)) == sel.inactive;
    var full := Refill(sel, expired, order);
    assert Elements(full.active) + full.inactive == registered;
    if full.active != [] {
      assert full.active[0] in Elements(full.active);
    } else {
      assert sel.active == [] && order(sel.inactive) == [];
      assert sel.inactive == Elements([]);
    }
  }

  // With the timer expired, or no active shard left, every shard set aside is active again; otherwise
  // the active ones stay as they are. Shards stay set aside until they are added again.
  lemma RefillsAll(sel: Selector, expired: bool, order: set<string> -> seq<string>)
    requires Enumerates(order)
    ensures var next := Next(sel, expired, order).0;
            && sel.active <= next.active && next.inactive == sel.inactive
            && (expired || sel.active == [] ==> sel.inactive <= Elements(next.active))
            && (!expired && sel.active != [] ==> next.active == sel.active)
  {
    assert Elements(order(sel.inactive)) == sel.inactive;
  }

  // The picks of n calls while nothing is added, removed or reported and no timer expires.
  function Picks(sel: Selector, n: nat, order: set<string> -> seq<string>): (p: seq<string>)
    ensures |p| == n
    decreases n
  {
    if n == 0 then [] else [Next(sel, false, order).1] + Picks(Next(sel, false, order).0, n - 1, order)
  }

  // The position after k among n, the first one coming after the last.
  lemma Turn(k: nat, n: nat)
    requires k < n
    ensures (k + 1) % n == if k + 1 == n then 0 else k + 1
  {
  }

  lemma {:induction false} PicksInTurn(sel: Selector, k: nat, m: nat, order: set<string> -> seq<string>)
    requires sel.active != [] && sel.index >= -1 && k == (sel.index + 1) % |sel.active| && m <= |sel.active|
    ensures var n := |sel.active|;
            forall i :: 0 <= i < m ==> Picks(sel, m, order)[i] == sel.active[if k + i < n then k + i else k + i - n]
    decreases m
  {
    if m > 0 {
      var n, next := |sel.active|, Next(sel, false, order).0;
      assert next == sel.(index := k) && Next(sel, false, order).1 == sel.active[k];
      Turn(k, n);
      hide Next;
      PicksInTurn(next, if k + 1 == n then 0 else k + 1, m - 1, order);
    }
  }

  lemma Rotated(p: seq<string>, s: seq<string>, k: nat)
    requires |p| == |s| && k < |s|
    requires forall i :: 0 <= i < |s| ==> p[i] == s[if k + i < |s| then k + i else k + i - |s|]
    ensures multiset(p) == multiset(s)
  {
    var front, back := s[..k], s[k..];
    assert p == back + front;
    assert s == front + back;
  }

  // Round robin: as many picks as there are active shards, counting duplicates, are those shards.
  lemma RoundRobin(sel: Selector, order: set<string> -> seq<string>)
    requires sel.active != [] && sel.index >= -1
    ensures multiset(Picks(sel, |sel.active|, order)) == multiset(sel.active)
  {
    var k := (sel.index + 1) % |sel.active|;
    PicksInTurn(sel, k, |sel.active|, order);
    hide Picks;
    Rotated(Picks(sel, |sel.active|, order), sel.active, k);
  }

  // A failure report keeps the known shards the registered ones exactly when it names one of them:
  // a report that comes in after the shard was removed brings the shard back.
  lemma ReportKeepsKnownIff(sel: Selector, registered: set<string>, x: string)
    requires Known(sel, registered)
    ensures Known(AddInvalid(sel, x), registered) <==> x in registered
    ensures Known(AddInvalid(sel, x), registered + {x})
  {
    assert Elements(AddInvalid(sel, x).active) == Elements(sel.active) - {x};
  }

  datatype Op = AddOp(x: string) | RemoveOp(x: string) | ClearOp | InvalidOp(x: string) | NextOp(expired: bool)

  function Apply(sel: Selector, op: Op, order: set<string> -> seq<string>): Selector {
    match op
    case AddOp(x) => Add(sel, x)
    case RemoveOp(x) => Remove(sel, x)
    case ClearOp => Clear(sel)
    case InvalidOp(x) => AddInvalid(sel, x)
    case NextOp(expired) => Next(sel, expired, order).0
  }

  function Registered(registered: set<string>, op: Op): set<string> {
    match op
    case AddOp(x) => registered + {x}
    case RemoveOp(x) => registered - {x}
    case ClearOp => {}
    case _ => registered
  }

  ghost predicate ReportsRegistered(registered: set<string>, ops: seq<Op>)
    decreases |ops|
  {
    ops != [] ==>
      (ops[0].InvalidOp? ==> ops[0].x in registered)
      && ReportsRegistered(Registered(registered, ops[0]), ops[1..])
  }

  ghost function Run(sel: Selector, ops: seq<Op>, order: set<string> -> seq<string>): Selector
    decreases |ops|
  {
    if ops == [] then sel else Run(Apply(sel, ops[0], order), ops[1..], order)
  }

  ghost function RegisteredAfter(registered: set<string>, ops: seq<Op>): set<string>
    decreases |ops|
  {
    if ops == [] then registered else RegisteredAfter(Registered(registered, ops[0]), ops[1..])
  }

  lemma ApplyKeepsKnown(sel: Selector, registered: set<string>, op: Op, order: set<string> -> seq<string>)
    requires Known(sel, registered) && Enumerates(order) && (op.InvalidOp? ==> op.x in registered)
    ensures Known(Apply(sel, op, order), Registered(registered, op))
  {
    match op
    case AddOp(x) => assert Elements(sel.active + [x]) == Elements(sel.active) + {x};
    case RemoveOp(x) => assert Elements(Without(sel.active, x)) == Elements(sel.active) - {x};
    case ClearOp =>
    case InvalidOp(x) => ReportKeepsKnownIff(sel, registered, x);
    case NextOp(expired) => NextKeepsKnown(sel, registered, expired, order);
  }

  // Over any run in which only registered shards are reported: no shard is lost or made up, despite
  // the duplicates that putting shards back leaves behind.
  lemma {:induction false} RunKeepsKnown(sel: Selector, registered: set<string>, ops: seq<Op>,
                                         order: set<string> -> seq<string>)
    requires Known(sel, registered) && Enumerates(order) && ReportsRegistered(registered, ops)
    ensures Known(Run(sel, ops, order), RegisteredAfter(registered, ops))
    decreases |ops|
  {
    if ops != [] {
      ApplyKeepsKnown(sel, registered, ops[0], order);
      RunKeepsKnown(Apply(sel, ops[0], order), Registered(registered, ops[0]), ops[1..], order);
    }
  }

  // ---------------------------------------------------------------- a write that keeps failing

  // The shards tried by n attempts that all fail before the timer expires, and what is left.
  function Tries(sel: Selector, n: nat, order: set<string> -> seq<string>): (t: seq<string>)
    ensures |t| == n
    decreases n
  {
    if n == 0 then []
    else
      var (next, x) := Next(sel, false, order);
      [x] + Tries(AddInvalid(next, x), n - 1, order)
  }

  function TriesLeave(sel: Selector, n: nat, order: set<string> -> seq<string>): Selector
    decreases n
  {
    if n == 0 then sel
    else
      var (next, x) := Next(sel, false, order);
      TriesLeave(AddInvalid(next, x), n - 1, order)
  }

  lemma {:induction false} TriesSplit(sel: Selector, m: nat, n: nat, order: set<string> -> seq<string>)
    ensures Tries(sel, m + n, order) == Tries(sel, m, order) + Tries(TriesLeave(sel, m, order), n, order)
    ensures TriesLeave(sel, m + n, order) == TriesLeave(TriesLeave(sel, m, order), n, order)
    decreases m
  {
    hide Next; hide AddInvalid;
    if m > 0 {
      var (next, x) := Next(sel, false, order);
      var after := AddInvalid(next, x);
      TriesSplit(after, m - 1, n, order);
      assert Tries(sel, m + n, order) == [x] + Tries(after, m - 1 + n, order);
      assert Tries(sel, m, order) == [x] + Tries(after, m - 1, order);
    } else {
      assert Tries(sel, 0, order) == [];
    }
  }

  lemma {:induction false} TriesKeepKnown(sel: Selector, registered: set<string>, n: nat,
                                          order: set<string> -> seq<string>)
    requires Known(sel, registered) && Enumerates(order) && registered != {}
    ensures Known(TriesLeave(sel, n, order), registered)
    ensures Elements(Tries(sel, n, order)) <= registered
    decreases n
  {
    hide Next; hide AddInvalid; hide Known; hide Enumerates;
    if n > 0 {
      NextKeepsKnown(sel, registered, false, order);
      var (next, x) := Next(sel, false, order);
      ReportKeepsKnownIff(next, registered, x);
      TriesKeepKnown(AddInvalid(next, x), registered, n - 1, order);
      ElementsCons(x, Tries(AddInvalid(next, x), n - 1, order));
    }
  }

  lemma ElementsCons(x: string, s: seq<string>)
    ensures Elements([x] + s) == {x} + Elements(s)
  {
  }

  lemma AllUsed(s: seq<string>)
    ensures Elements(s) == {} <==> s == []
  {
    if s != [] {
      assert s[0] in Elements(s);
    }
  }

  // An attempt takes an active shard, if there is one, and leaves the others.
  lemma TryUsesActive(sel: Selector, order: set<string> -> seq<string>)
    requires |Elements(sel.active)| > 0 && sel.index >= -1
    ensures var (next, x) := Next(sel, false, order);
            && x in Elements(sel.active) && AddInvalid(next, x).index >= -1
            && Elements(AddInvalid(next, x).active) == Elements(sel.active) - {x}
  {
    AllUsed(sel.active);
    hide Without;
  }

  // While active shards are left, each attempt uses up one of them.
  lemma {:induction false} TriesUseActive(sel: Selector, n: nat, order: set<string> -> seq<string>)
    requires n <= |Elements(sel.active)| && sel.index >= -1
    ensures Distinct(Tries(sel, n, order))
    ensures Elements(Tries(sel, n, order)) <= Elements(sel.active)
    ensures Elements(TriesLeave(sel, n, order).active) == Elements(sel.active) - Elements(Tries(sel, n, order))
    ensures |Elements(Tries(sel, n, order))| == n
    decreases n
  {
    hide Next; hide AddInvalid;
    if n > 0 {
      TryUsesActive(sel, order);
      var (next, x) := Next(sel, false, order);
      var after := AddInvalid(next, x);
      TriesUseActive(after, n - 1, order);
      var rest := Tries(after, n - 1, order);
      assert x !in Elements(rest);
      ElementsCons(x, rest);
      hide Elements;
      assert x !in rest by { NotElement(x, rest); }
    }
  }

  lemma NotElement(x: string, s: seq<string>)
    ensures x in s <==> x in Elements(s)
  {
  }

  lemma TriesRefill(sel: Selector, n: nat, order: set<string> -> seq<string>)
    requires sel.active == [] && n > 0 && order(sel.inactive) != []
    ensures Tries(sel, n, order) == Tries(sel.(active := order(sel.inactive)), n, order)
  {
    assert sel.active + order(sel.inactive) == order(sel.inactive);
    assert Next(sel, false, order) == Next(sel.(active := order(sel.inactive)), false, order);
  }

  // Once they are used up, everything registered is put back and the next attempts differ again.
  lemma TriesAfterRefill(sel: Selector, registered: set<string>, n: nat, order: set<string> -> seq<string>)
    requires Known(sel, registered) && Enumerates(order) && sel.active == [] && n <= |registered|
    ensures Distinct(Tries(sel, n, order)) && Elements(Tries(sel, n, order)) <= registered
    ensures |Elements(Tries(sel, n, order))| == n
  {
    hide Tries; hide TriesLeave; hide Distinct;
    assert sel.inactive == registered by { AllUsed(sel.active); }
    var full := sel.(active := order(registered));
    assert Elements(full.active) == registered;
    hide Elements; hide Known; hide Enumerates;
    if n > 0 {
      AllUsed(full.active);
      TriesRefill(sel, n, order);
      TriesUseActive(full, n, order);
    } else {
      EmptyTries(Tries(sel, 0, order));
    }
  }

  lemma SubsetSize(a: set<string>, b: set<string>)
    requires a <= b
    ensures |a| <= |b|
    ensures |a| == |b| ==> a == b
  {
    assert b == a + (b - a);
    assert |b| == |a| + |b - a|;
  }

  // |active| attempts go to every active shard once and leave none.
  lemma ActiveUsedUp(sel: Selector, order: set<string> -> seq<string>)
    requires sel.index >= -1
    ensures var t := Tries(sel, |Elements(sel.active)|, order);
            Distinct(t) && Elements(t) == Elements(sel.active)
    ensures TriesLeave(sel, |Elements(sel.active)|, order).active == []
  {
    hide Tries; hide TriesLeave; hide Distinct;
    var m := |Elements(sel.active)|;
    TriesUseActive(sel, m, order);
    AllUsed(TriesLeave(sel, m, order).active);
    hide Elements;
    SubsetSize(Elements(Tries(sel, m, order)), Elements(sel.active));
  }

  // The attempts after that, up to as many as there are shards.
  lemma AfterActive(sel: Selector, registered: set<string>, m: nat, order: set<string> -> seq<string>)
    requires Known(sel, registered) && Enumerates(order) && m <= |registered| && TriesLeave(sel, m, order).active == []
    ensures Distinct(Tries(TriesLeave(sel, m, order), |registered| - m, order))
    ensures Elements(Tries(sel, |registered|, order)) <= registered
  {
    hide Tries; hide TriesLeave; hide Next; hide Enumerates; hide Elements; hide Known;
    if registered != {} {
      TriesKeepKnown(sel, registered, m, order);
      TriesKeepKnown(sel, registered, |registered|, order);
      TriesAfterRefill(TriesLeave(sel, m, order), registered, |registered| - m, order);
    } else {
      EmptyTries(Tries(TriesLeave(sel, m, order), 0, order));
      EmptyTries(Tries(sel, 0, order));
    }
  }

  // As many attempts as there are shards, all failing: the active shards are tried first, each of
  // them once; then come different shards again.
  lemma FailingTries(sel: Selector, registered: set<string>, order: set<string> -> seq<string>)
    requires Known(sel, registered) && Enumerates(order)
    ensures var t := Tries(sel, |registered|, order);
            var m := |Elements(sel.active)|;
            && m <= |registered|
            && Distinct(t[..m]) && Elements(t[..m]) == Elements(sel.active)
            && Distinct(t[m..]) && Elements(t) <= registered
  {
    hide Tries; hide TriesLeave; hide Enumerates; hide Elements; hide Distinct;
    var m, n := |Elements(sel.active)|, |registered|;
    SubsetSize(Elements(sel.active), registered);
    TriesSplit(sel, m, n - m, order);
    ActiveUsedUp(sel, order);
    AfterActive(sel, registered, m, order);
    Halves(Tries(sel, m, order), Tries(TriesLeave(sel, m, order), n - m, order));
  }

  lemma Halves(a: seq<string>, b: seq<string>)
    ensures (a + b)[..|a|] == a && (a + b)[|a|..] == b
  {
  }

  lemma EmptyTries(s: seq<string>)
    requires s == []
    ensures Distinct(s) && Elements(s) == {}
  {
  }

  // So a write that starts with all shards active, or with none, gives up only after it has tried
  // every registered shard, each exactly once ...
  lemma FailingTriesCoverAll(sel: Selector, registered: set<string>, order: set<string> -> seq<string>)
    requires Known(sel, registered) && Enumerates(order)
    requires sel.active == [] || Elements(sel.active) == registered
    ensures Distinct(Tries(sel, |registered|, order)) && Elements(Tries(sel, |registered|, order)) == registered
  {
    var t := Tries(sel, |registered|, order);
    FailingTries(sel, registered, order);
    if sel.active == [] {
      TriesAfterRefill(sel, registered, |registered|, order);
      SubsetSize(Elements(t), registered);
    } else {
      assert t[..|registered|] == t;
    }
  }

  // ---------------------------------------------------------------- when a failing write tries all

  function Dropped(s: seq<string>, p: nat): seq<string>
    requires p < |s|
  {
    s[..p] + s[p + 1..]
  }

  // k picks from a list, each dropping what it picked: the index moves on over a shorter list.
  function Walk(list: seq<string>, index: int, k: nat): (w: seq<string>)
    requires k <= |list|
    ensures |w| == k
    decreases k
  {
    if k == 0 then []
    else
      var p := (index + 1) % |list|;
      [list[p]] + Walk(Dropped(list, p), p, k - 1)
  }

  lemma DroppedDistinct(s: seq<string>, p: nat)
    requires Distinct(s) && p < |s|
    ensures Distinct(Dropped(s, p)) && s[p] !in Dropped(s, p)
  {
    var d := Dropped(s, p);
    assert forall i: nat :: i < |d| ==> d[i] == s[if i < p then i else i + 1];
  }

  lemma DroppedIsWithout(s: seq<string>, p: nat)
    requires Distinct(s) && p < |s|
    ensures Dropped(s, p) == Without(s, s[p]) && Distinct(Dropped(s, p))
    ensures Elements(Dropped(s, p)) == Elements(s) - {s[p]}
  {
    hide Elements; hide Without;
    DroppedDistinct(s, p);
    WithoutErase(s, p);
    assert Without(Dropped(s, p), s[p]) == Dropped(s, p);
    ElementsWithout(s, p);
  }

  lemma ElementsWithout(s: seq<string>, p: nat)
    requires Distinct(s) && p < |s|
    ensures Elements(Without(s, s[p])) == Elements(s) - {s[p]}
  {
  }

  // Attempts that fail walk over an active list without duplicates.
  lemma TryPicks(sel: Selector, order: set<string> -> seq<string>)
    requires sel.active != [] && sel.index >= -1
    ensures var p := (sel.index + 1) % |sel.active|;
            Next(sel, false, order) == (sel.(index := p), sel.active[p])
  {
  }

  lemma {:induction false} TriesWalk(sel: Selector, n: nat, order: set<string> -> seq<string>)
    requires Distinct(sel.active) && n <= |sel.active| && sel.index >= -1
    ensures Tries(sel, n, order) == Walk(sel.active, sel.index, n)
    decreases n
  {
    hide Elements; hide Without; hide Distinct; hide Next;
    if n > 0 {
      var p := (sel.index + 1) % |sel.active|;
      TryPicks(sel, order);
      DroppedIsWithout(sel.active, p);
      var left := AddInvalid(sel.(index := p), sel.active[p]);
      assert left.active == Dropped(sel.active, p) && left.index == p;
      TriesWalk(left, n - 1, order);
    } else {
      assert Tries(sel, 0, order) == [];
    }
  }

  lemma {:induction false} WalkDistinct(list: seq<string>, index: int, k: nat)
    requires Distinct(list) && k <= |list|
    ensures Distinct(Walk(list, index, k)) && Elements(Walk(list, index, k)) <= Elements(list)
    decreases k
  {
    if k > 0 {
      var p := (index + 1) % |list|;
      DroppedIsWithout(list, p);
      var x, rest := list[p], Walk(Dropped(list, p), p, k - 1);
      NotElement(x, list);
      NotElement(x, rest);
      ElementsCons(x, rest);
      hide Elements; hide Without;
      WalkDistinct(Dropped(list, p), p, k - 1);
      hide Dropped;
    }
  }

  lemma {:induction false} DistinctSize(s: seq<string>)
    requires Distinct(s)
    ensures |Elements(s)| == |s|
  {
    if s != [] {
      DistinctSize(s[1..]);
      assert Elements(s) == {s[0]} + Elements(s[1..]) by { assert s == [s[0]] + s[1..]; ElementsCons(s[0], s[1..]); }
      assert s[0] !in s[1..];
    }
  }

  // The attempts a failing write has left once the active shards are used up.
  function SecondRound(sel: Selector, registered: set<string>, order: set<string> -> seq<string>): seq<string>
    requires |Elements(sel.active)| <= |registered| == |order(registered)|
  {
    var m := |Elements(sel.active)|;
    Walk(order(registered), TriesLeave(sel, m, order).index, |registered| - m)
  }

  lemma OrderSize(order: set<string> -> seq<string>, s: set<string>)
    requires Enumerates(order)
    ensures |order(s)| == |s|
  {
    DistinctSize(order(s));
  }

  // With nothing active, attempts walk over everything put back.
  lemma RefillWalk(left: Selector, registered: set<string>, n: nat, order: set<string> -> seq<string>)
    requires left.active == [] && left.inactive == registered && left.index >= -1 && Enumerates(order)
    requires n <= |registered| == |order(registered)|
    ensures Tries(left, n, order) == Walk(order(registered), left.index, n)
  {
    OrderDistinct(order, registered);
    hide Enumerates; hide Elements; hide Distinct;
    if n > 0 {
      TriesRefill(left, n, order);
      TriesWalk(left.(active := order(registered)), n, order);
    } else {
      assert Tries(left, 0, order) == [];
    }
  }

  lemma ActiveWithin(sel: Selector, registered: set<string>)
    requires Known(sel, registered)
    ensures Elements(sel.active) <= registered && |Elements(sel.active)| <= |registered| && sel.index >= -1
    ensures |Elements(sel.active)| == |registered| ==> Elements(sel.active) == registered
  {
    SubsetSize(Elements(sel.active), registered);
  }

  lemma SecondRoundTries(sel: Selector, registered: set<string>, order: set<string> -> seq<string>)
    requires Known(sel, registered) && Enumerates(order)
    ensures |Elements(sel.active)| <= |registered| == |order(registered)|
    ensures Tries(sel, |registered|, order)
            == Tries(sel, |Elements(sel.active)|, order) + SecondRound(sel, registered, order)
  {
    hide Tries; hide TriesLeave; hide Enumerates; hide Walk; hide Elements; hide Distinct; hide Known;
    var m, n := |Elements(sel.active)|, |registered|;
    ActiveWithin(sel, registered);
    OrderSize(order, registered);
    TriesSplit(sel, m, n - m, order);
    ActiveUsedUp(sel, order);
    LeftKnown(sel, registered, m, order);
    RefillWalk(TriesLeave(sel, m, order), registered, n - m, order);
  }

  lemma OrderDistinct(order: set<string> -> seq<string>, s: set<string>)
    requires Enumerates(order)
    ensures Distinct(order(s)) && Elements(order(s)) == s
  {
  }

  lemma LeftKnown(sel: Selector, registered: set<string>, m: nat, order: set<string> -> seq<string>)
    requires Known(sel, registered) && Enumerates(order) && m <= |registered| && TriesLeave(sel, m, order).active == []
    ensures TriesLeave(sel, m, order).inactive == registered && TriesLeave(sel, m, order).index >= -1
  {
    hide Enumerates; hide TriesLeave;
    if registered == {} {
      assert TriesLeave(sel, 0, order) == sel by { NoneLeave(sel, order); }
    } else {
      TriesKeepKnown(sel, registered, m, order);
    }
    AllUsed(TriesLeave(sel, m, order).active);
  }

  lemma NoneLeave(sel: Selector, order: set<string> -> seq<string>)
    ensures TriesLeave(sel, 0, order) == sel
  {
  }

  // A write that fails as often as there are shards has tried every registered shard if and only if
  // the walk over the shards put back picks none that was active before.
  lemma FailingTriesCoverIff(sel: Selector, registered: set<string>, order: set<string> -> seq<string>)
    requires Known(sel, registered) && Enumerates(order)
    ensures |Elements(sel.active)| <= |registered| == |order(registered)|
    ensures Elements(Tries(sel, |registered|, order)) == registered <==>
            Elements(SecondRound(sel, registered, order)) * Elements(sel.active) == {}
  {
    hide Tries; hide Walk; hide TriesLeave; hide Enumerates; hide Distinct;
    SecondRoundTries(sel, registered, order);
    ActiveUsedUp(sel, order);
    OrderDistinct(order, registered);
    var m := |Elements(sel.active)|;
    var first, second := Tries(sel, m, order), SecondRound(sel, registered, order);
    WalkDistinct(order(registered), TriesLeave(sel, m, order).index, |registered| - m);
    DistinctSize(second);
    ElementsConcat(first, second);
    hide Elements;
    UnionSize(Elements(sel.active), Elements(second), registered);
  }

  lemma ElementsConcat(a: seq<string>, b: seq<string>)
    ensures Elements(a + b) == Elements(a) + Elements(b)
  {
  }

  lemma UnionSize(a: set<string>, b: set<string>, all: set<string>)
    requires a <= all && b <= all && |a| + |b| == |all|
    ensures a + b == all <==> a * b == {}
  {
    assert |a + b| == |a| + |b| - |a * b|;
    SubsetSize(a + b, all);
    if a * b == {} {
      assert |a * b| == 0;
    }
  }

  // While active shards are left, the order in which others would be put back does not matter.
  lemma {:induction false} TriesAnyOrder(sel: Selector, n: nat, order: set<string> -> seq<string>,
                                         other: set<string> -> seq<string>)
    requires n <= |Elements(sel.active)| && sel.index >= -1
    ensures TriesLeave(sel, n, order) == TriesLeave(sel, n, other)
    decreases n
  {
    if n > 0 {
      TryUsesActive(sel, order);
      assert Next(sel, false, order) == Next(sel, false, other) by { AllUsed(sel.active); }
      hide Next; hide AddInvalid; hide Elements;
      var (next, x) := Next(sel, false, order);
      TriesAnyOrder(AddInvalid(next, x), n - 1, order, other);
    }
  }

  // Some order of a set.
  ghost function SomeOrder(s: set<string>): (r: seq<string>)
    ensures Distinct(r) && Elements(r) == s && |r| == |s|
  {
    if s == {} then []
    else
      var x :| x in s;
      var r := SomeOrder(s - {x});
      ElementsCons(x, r);
      assert x !in Elements(r);
      [x] + r
  }

  // The order that puts x at position p of the given set.
  ghost function OrderWith(s: set<string>, x: string, p: nat): (r: seq<string>)
    requires x in s && p < |s|
    ensures Distinct(r) && Elements(r) == s && |r| == |s| && r[p] == x
  {
    var r := SomeOrder(s - {x});
    PutIn(r, x, p);
    r[..p] + [x] + r[p..]
  }

  lemma PutIn(r: seq<string>, x: string, p: nat)
    requires Distinct(r) && x !in Elements(r) && p <= |r|
    ensures var t := r[..p] + [x] + r[p..];
            Distinct(t) && Elements(t) == Elements(r) + {x} && t[p] == x
  {
    var t := r[..p] + [x] + r[p..];
    forall i: nat, j: nat | i < j < |t|
      ensures t[i] != t[j]
    {
      assert forall k: nat :: k < |r| ==> r[k] in Elements(r);
    }
    assert Elements(r) == Elements(r[..p]) + Elements(r[p..])
           by { assert r == r[..p] + r[p..]; ElementsConcat(r[..p], r[p..]); }
    ElementsConcat(r[..p] + [x], r[p..]);
    ElementsConcat(r[..p], [x]);
    ElementsCons(x, []);
    assert [x] + [] == [x] && Elements([]) == {};
  }

  // Whatever the order: a failing write is sure to try every registered shard if and only if all of
  // them were active, or none.
  lemma FailingTriesCoverAnyOrderIff(sel: Selector, registered: set<string>)
    requires Known(sel, registered)
    ensures (forall order :: Enumerates(order) ==> Elements(Tries(sel, |registered|, order)) == registered) <==>
            sel.active == [] || Elements(sel.active) == registered
  {
    if sel.active == [] || Elements(sel.active) == registered {
      forall order | Enumerates(order)
        ensures Elements(Tries(sel, |registered|, order)) == registered
      {
        FailingTriesCoverAll(sel, registered, order);
      }
    } else {
      var order := MissingOrder(sel, registered);
      assert Enumerates(order) && Elements(Tries(sel, |registered|, order)) != registered;
    }
  }

  // With only some shards active, put one of them back where the second round begins.
  lemma MissingOrder(sel: Selector, registered: set<string>) returns (order: set<string> -> seq<string>)
    requires Known(sel, registered) && sel.active != [] && Elements(sel.active) != registered
    ensures Enumerates(order) && Elements(Tries(sel, |registered|, order)) != registered
  {
    hide Tries; hide TriesLeave; hide Enumerates; hide SomeOrder; hide OrderWith; hide Walk;
    hide Elements; hide Known; hide Distinct;
    var m, n, x := |Elements(sel.active)|, |registered|, sel.active[0];
    NotElement(x, sel.active);
    ActiveWithin(sel, registered);
    ActiveUsedUp(sel, SomeOrder);
    var p: nat := (TriesLeave(sel, m, SomeOrder).index + 1) % n;
    order := PlacedOrder(registered, x, p);
    PlacedEnumerates(registered, x, p);
    TriesAnyOrder(sel, m, SomeOrder, order);
    hide PlacedOrder;
    BeginsActive(sel, registered, order, x);
  }

  // A second round that begins with an active shard misses another one.
  lemma BeginsActive(sel: Selector, registered: set<string>, order: set<string> -> seq<string>, x: string)
    requires Known(sel, registered) && Enumerates(order) && x in Elements(sel.active)
    requires var m, n := |Elements(sel.active)|, |registered|;
             m < n == |order(registered)| && order(registered)[(TriesLeave(sel, m, order).index + 1) % n] == x
    ensures Elements(Tries(sel, |registered|, order)) != registered
  {
    hide Tries; hide TriesLeave; hide Enumerates; hide Elements; hide Known;
    var m, n := |Elements(sel.active)|, |registered|;
    FailingTriesCoverIff(sel, registered, order);
    FirstOfWalk(order(registered), TriesLeave(sel, m, order).index, n - m);
    hide Walk;
    var second := SecondRound(sel, registered, order);
    assert |second| == n - m && second[0] == x;
    hide SecondRound;
    NotElement(x, second);
    assert x in Elements(second) * Elements(sel.active);
  }

  ghost function PlacedOrder(s: set<string>, x: string, p: nat): set<string> -> seq<string>
    requires x in s && p < |s|
  {
    t => if t == s then OrderWith(s, x, p) else SomeOrder(t)
  }

  lemma PlacedEnumerates(s: set<string>, x: string, p: nat)
    requires x in s && p < |s|
    ensures Enumerates(PlacedOrder(s, x, p)) && PlacedOrder(s, x, p)(s) == OrderWith(s, x, p)
  {
    hide Elements; hide Distinct;
  }

  lemma FirstOfWalk(list: seq<string>, index: int, k: nat)
    requires 0 < k <= |list|
    ensures Walk(list, index, k)[0] == list[(index + 1) % |list|]
  {
  }

  // ... but not in general: here the only active shard is tried twice and the other one never.
  lemma FailingTriesSkip(order: set<string> -> seq<string>, index: int)
    requires Enumerates(order) && order({"0", "1"}) == ["0", "1"] && index >= -1
    ensures Known(Selector(["1"], {"0"}, index), {"0", "1"})
    ensures Tries(Selector(["1"], {"0"}, index), 2, order) == ["1", "1"]
  {
    var sel := Selector(["1"], {"0"}, index);
    assert Elements(sel.active) == {"1"};
    var (next, x) := Next(sel, false, order);
    assert next.index == 0 && x == "1";
    var after := AddInvalid(next, x);
    assert after == Selector([], {"0", "1"}, 0);
    assert Next(after, false, order).1 == "1";
    assert Tries(sel, 2, order) == ["1"] + Tries(after, 1, order);
    assert Tries(after, 1, order) == ["1"] + Tries(AddInvalid(Next(after, false, order).0, "1"), 0, order);
  }

  // ---------------------------------------------------------------- the class

  class ShardWriterSelectStrategy {
    const order: set<string> -> seq<string>
    var activeShards: seq<string>
    var inactiveShards: set<string>
    var shardIndex: int

    ghost function View(): Selector
      reads this
    {
      Selector(activeShards, inactiveShards, shardIndex)
    }

    constructor (order: set<string> -> seq<string>)
      ensures View() == Selector([], {}, -1) && this.order == order
    {
      this.order := order;
      activeShards, inactiveShards, shardIndex := [], {}, -1;
    }

    method AddShard(shardId: string)
      modifies this
      ensures View() == Add(old(View()), shardId)
    {
      activeShards := activeShards + [shardId];
      inactiveShards := inactiveShards - {shardId};
    }

    method RemoveShard(shardId: string)
      modifies this
      ensures View() == Remove(old(View()), shardId)
    {
      RemoveShardFromActive(shardId);
      inactiveShards := inactiveShards - {shardId};
    }

    method ClearAllShard()
      modifies this
      ensures View() == Clear(old(View()))
    {
      activeShards, inactiveShards := [], {};
    }

    method AddInvalidShard(shardId: string)
      modifies this
      ensures View() == AddInvalid(old(View()), shardId)
    {
      RemoveShardFromActive(shardId);
      inactiveShards := inactiveShards + {shardId};
    }

    method GetNextShard(expired: bool) returns (shardId: string)
      requires shardIndex >= -1
      modifies this
      ensures (View(), shardId) == Next(old(View()), expired, order)
    {
      if activeShards == [] || expired {
        activeShards := activeShards + order(inactiveShards);
      }
      if activeShards == [] {
        return "";
      }
      shardIndex := (shardIndex + 1) % |activeShards|;
      return activeShards[shardIndex];
    }

    // Erases one occurrence after the other until none is found.
    method RemoveShardFromActive(shardId: string)
      modifies this`activeShards
      ensures activeShards == Without(old(activeShards), shardId)
    {
      while true
        invariant Without(activeShards, shardId) == Without(old(activeShards), shardId)
        decreases |activeShards|
      {
        var i := Find(activeShards, shardId);
        if i == |activeShards| {
          break;
        }
        WithoutErase(activeShards, i);
        activeShards := activeShards[..i] + activeShards[i + 1..];
      }
    }
  }

  // The first position of the shard, or the end.
  method Find(s: seq<string>, x: string) returns (i: nat)
    ensures i <= |s| && x !in s[..i] && (i < |s| ==> s[i] == x)
    ensures i == |s| ==> x !in s
  {
    i := 0;
    while i < |s| && s[i] != x
      invariant i <= |s| && x !in s[..i]
    {
      i := i + 1;
    }
  }

  lemma {:induction false} WithoutErase(s: seq<string>, i: nat)
    requires i < |s|
    ensures Without(s[..i] + s[i + 1..], s[i]) == Without(s, s[i])
  {
    var t := s[..i] + s[i + 1..];
    if i == 0 {
      assert t == s[1..];
    } else {
      WithoutErase(s[1..], i - 1);
      assert t[0] == s[0] && t[1..] == s[1..][..i - 1] + s[1..][i..];
    }
  }
}
