/** The LRU crawler among other threads: memcached/memcached/items.c. The lock of a list is taken for one step at a
    time, so between two steps of the crawler items are linked and unlinked. */
module CrawlRuns {
  import opened Crawler

  datatype Op = Link(it: Item) | Unlink(it: Item) | Step

  /** A list with the crawler on it, what it has handed out, and whether it has come off the list at the head. */
  datatype State = State(list: seq<Item>, visited: seq<Item>, complete: bool)

  ghost predicate Enabled(s: State, c: Item, op: Op) {
    match op
    case Link(it) => it.isReal && it !in s.list
    case Unlink(it) => it.isReal && it in s.list
    case Step => !s.complete && c in s.list
  }

  ghost function Apply(s: State, c: Item, op: Op): State
    requires Enabled(s, c, op)
  {
    match op
    case Link(it) => s.(list := [it] + s.list)
    case Unlink(it) => var k := IndexOf(s.list, it); s.(list := s.list[..k] + s.list[k + 1..])
    case Step =>
      var k := IndexOf(s.list, c);
      if k == 0 then s.(list := s.list[1..], complete := true)
      else State(s.list[..k - 1] + [c, s.list[k - 1]] + s.list[k + 1..], s.visited + [s.list[k - 1]], false)
  }

  ghost function Run(s: State, c: Item, ops: seq<Op>): State
    requires Possible(s, c, ops)
    decreases |ops|
  {
    if ops == [] then s else Run(Apply(s, c, ops[0]), c, ops[1..])
  }

  ghost predicate Possible(s: State, c: Item, ops: seq<Op>)
    decreases |ops|
  {
    ops != [] ==> Enabled(s, c, ops[0]) && Possible(Apply(s, c, ops[0]), c, ops[1..])
  }

  ghost function Start(orig: seq<Item>, c: Item): State {
    State(orig + [c], [], false)
  }

  // ----- the items that stay -----

  ghost function Filter(items: seq<Item>, kept: set<Item>): seq<Item> {
    if items == [] then [] else Filter(items[..|items| - 1], kept)
                                + if items[|items| - 1] in kept then [items[|items| - 1]] else []
  }

  lemma {:induction false} FilterConcat(a: seq<Item>, b: seq<Item>, kept: set<Item>)
    ensures Filter(a + b, kept) == Filter(a, kept) + Filter(b, kept)
  {
    if b == [] {
      assert a + b == a;
    } else {
      var init := b[..|b| - 1];
      FilterConcat(a, init, kept);
      assert (a + b)[..|a + b| - 1] == a + init;
    }
  }

  lemma FilterOne(it: Item, kept: set<Item>)
    ensures Filter([it], kept) == if it in kept then [it] else []
  {
    assert [it][..0] == [];
  }

  /** The crawler stands at k: the first n of the items that stay are still in front of it, and the others have been
      handed out, from the last to the first. */
  ghost predicate Midway(s: State, c: Item, orig: seq<Item>, kept: set<Item>, k: nat, n: nat) {
    && k < |s.list| && s.list[k] == c && n <= |Filter(orig, kept)|
    && Filter(s.list[..k], kept) == Filter(orig, kept)[..n]
    && Filter(s.visited, kept) == Reversed(Filter(orig, kept)[n..])
  }

  /** What holds between any two steps of any threads. */
  ghost predicate Inv(s: State, c: Item, orig: seq<Item>, kept: set<Item>) {
    && Distinct(s.list) && !c.isReal && c !in kept && (forall x :: x in kept ==> x in s.list)
    && if s.complete then Filter(s.visited, kept) == Reversed(Filter(orig, kept))
       else exists k: nat, n: nat :: Midway(s, c, orig, kept, k, n)
  }

  lemma TakeOut(list: seq<Item>, j: nat, kept: set<Item>)
    requires j < |list| && list[j] !in kept
    ensures Filter(list[..j] + list[j + 1..], kept) == Filter(list, kept)
  {
    hide Filter;
    assert list == list[..j] + ([list[j]] + list[j + 1..]);
    FilterConcat(list[..j], [list[j]] + list[j + 1..], kept);
    FilterConcat([list[j]], list[j + 1..], kept);
    FilterConcat(list[..j], list[j + 1..], kept);
    FilterOne(list[j], kept);
  }

  lemma LinkKeeps(s: State, c: Item, it: Item, orig: seq<Item>, kept: set<Item>)
    requires Inv(s, c, orig, kept) && Enabled(s, c, Link(it))
    ensures Inv(Apply(s, c, Link(it)), c, orig, kept)
  {
    hide Filter, Reversed;
    var s' := Apply(s, c, Link(it));
    if !s.complete {
      var k: nat, n: nat :| Midway(s, c, orig, kept, k, n);
      FilterConcat([it], s.list[..k], kept);
      FilterOne(it, kept);
      assert s'.list[..k + 1] == [it] + s.list[..k];
      assert Midway(s', c, orig, kept, k + 1, n);
    }
  }

  lemma UnlinkKeeps(s: State, c: Item, it: Item, orig: seq<Item>, kept: set<Item>)
    requires Inv(s, c, orig, kept) && Enabled(s, c, Unlink(it)) && it !in kept
    ensures Inv(Apply(s, c, Unlink(it)), c, orig, kept)
  {
    hide Filter, Reversed;
    var s', j := Apply(s, c, Unlink(it)), IndexOf(s.list, it);
    forall x | x in kept ensures x in s'.list {
      var i := IndexOf(s.list, x);
      assert s'.list[if i < j then i else i - 1] == x;
    }
    if !s.complete {
      var k: nat, n: nat :| Midway(s, c, orig, kept, k, n);
      if j < k {
        TakeOut(s.list[..k], j, kept);
        assert s'.list[..k - 1] == s.list[..k][..j] + s.list[..k][j + 1..];
        assert Midway(s', c, orig, kept, k - 1, n);
      } else {
        assert s'.list[..k] == s.list[..k];
        assert Midway(s', c, orig, kept, k, n);
      }
    }
  }

  lemma OneBack(f: seq<Item>, n: nat)
    requires 0 < n <= |f|
    ensures Reversed(f[n - 1..]) == Reversed(f[n..]) + [f[n - 1]]
  {
  }

  lemma StepKeeps(s: State, c: Item, orig: seq<Item>, kept: set<Item>)
    requires Inv(s, c, orig, kept) && Enabled(s, c, Step)
    ensures Inv(Apply(s, c, Step), c, orig, kept)
  {
    hide Filter, Reversed;
    var s', f := Apply(s, c, Step), Filter(orig, kept);
    var k: nat, n: nat :| Midway(s, c, orig, kept, k, n);
    assert k == IndexOf(s.list, c);
    if k == 0 {
      AtTheHead(s, c, orig, kept, n);
    } else {
      var r := s.list[k - 1];
      assert s.list[..k] == s.list[..k - 1] + [r] && s'.list[..k - 1] == s.list[..k - 1];
      FilterConcat(s.list[..k - 1], [r], kept);
      FilterConcat(s.visited, [r], kept);
      FilterOne(r, kept);
      if r in kept {
        assert n > 0 && f[n - 1] == r && f[..n - 1] == Filter(s.list[..k - 1], kept);
        OneBack(f, n);
        assert Midway(s', c, orig, kept, k - 1, n - 1);
      } else {
        assert Midway(s', c, orig, kept, k - 1, n);
      }
      SwapKeeps(s.list, k, kept);
    }
  }

  lemma SwapKeeps(list: seq<Item>, k: nat, kept: set<Item>)
    requires Distinct(list) && 0 < k < |list| && forall x :: x in kept ==> x in list
    ensures var swapped := list[..k - 1] + [list[k], list[k - 1]] + list[k + 1..];
            Distinct(swapped) && forall x :: x in kept ==> x in swapped
  {
    var swapped := list[..k - 1] + [list[k], list[k - 1]] + list[k + 1..];
    forall x | x in kept ensures x in swapped {
      var i := IndexOf(list, x);
      assert swapped[if i == k then k - 1 else if i == k - 1 then k else i] == x;
    }
  }

  lemma AtTheHead(s: State, c: Item, orig: seq<Item>, kept: set<Item>, n: nat)
    requires Midway(s, c, orig, kept, 0, n) && c !in kept && Distinct(s.list) && forall x :: x in kept ==> x in s.list
    ensures Filter(s.visited, kept) == Reversed(Filter(orig, kept))
    ensures Distinct(s.list[1..]) && forall x :: x in kept ==> x in s.list[1..]
  {
    hide Reversed;
    assert s.list[..0] == [] && Filter(orig, kept)[0..] == Filter(orig, kept);
    forall x | x in kept ensures x in s.list[1..] {
      var i := IndexOf(s.list, x);
      assert s.list[1..][i - 1] == x;
    }
  }

  /** Nobody unlinks an item that is to stay. */
  ghost predicate Spares(ops: seq<Op>, kept: set<Item>) {
    forall i :: 0 <= i < |ops| && ops[i].Unlink? ==> ops[i].it !in kept
  }

  lemma {:induction false} RunKeeps(s: State, c: Item, ops: seq<Op>, orig: seq<Item>, kept: set<Item>)
    requires Inv(s, c, orig, kept) && Possible(s, c, ops) && Spares(ops, kept)
    ensures Inv(Run(s, c, ops), c, orig, kept)
    decreases |ops|
  {
    hide Inv, Enabled, Apply;
    if ops != [] {
      match ops[0] {
        case Link(it) => LinkKeeps(s, c, it, orig, kept);
        case Unlink(it) => UnlinkKeeps(s, c, it, orig, kept);
        case Step => StepKeeps(s, c, orig, kept);
      }
      RunKeeps(Apply(s, c, ops[0]), c, ops[1..], orig, kept);
    }
  }

  lemma StartInv(orig: seq<Item>, c: Item, kept: set<Item>)
    requires Distinct(orig) && c !in orig && !c.isReal && forall x :: x in kept ==> x in orig
    ensures Inv(Start(orig, c), c, orig, kept)
  {
    var s, f := Start(orig, c), Filter(orig, kept);
    assert s.list[..|orig|] == orig && f[..|f|] == f && f[|f|..] == [];
    assert Midway(s, c, orig, kept, |orig|, |f|);
  }

  lemma {:induction false} FilterCount(items: seq<Item>, kept: set<Item>, x: Item)
    requires x in kept
    ensures multiset(Filter(items, kept))[x] == multiset(items)[x]
  {
    if items != [] {
      FilterCount(items[..|items| - 1], kept, x);
      assert items == items[..|items| - 1] + [items[|items| - 1]];
    }
  }

  lemma {:induction false} DistinctCount(items: seq<Item>, x: Item)
    requires Distinct(items)
    ensures multiset(items)[x] == if x in items then 1 else 0
  {
    if items != [] {
      DistinctCount(items[..|items| - 1], x);
      assert items == items[..|items| - 1] + [items[|items| - 1]];
    }
  }

  lemma {:induction false} ReversedCount(items: seq<Item>, x: Item)
    ensures multiset(Reversed(items))[x] == multiset(items)[x]
  {
    if items != [] {
      var init, last := items[..|items| - 1], items[|items| - 1];
      ReversedCount(init, x);
      assert items == init + [last] && Reversed(items) == [last] + Reversed(init);
    }
  }

  lemma PartCount(f: seq<Item>, n: nat, x: Item)
    requires n <= |f|
    ensures multiset(Reversed(f[n..]))[x] <= multiset(f)[x]
  {
    hide Reversed;
    ReversedCount(f[n..], x);
    assert f == f[..n] + f[n..];
  }

  /** The crawler among any threads that link items and unlink others: of the items that stay on the list throughout,
      none is handed out twice at any time, and when the crawler comes off at the head each has been handed out exactly
      once, from the tail of the list to its head. */
  lemma EachStayingItemOnce(orig: seq<Item>, c: Item, ops: seq<Op>, kept: set<Item>)
    requires Distinct(orig) && c !in orig && !c.isReal && (forall x :: x in kept ==> x in orig)
    requires Possible(Start(orig, c), c, ops) && Spares(ops, kept)
    ensures var s := Run(Start(orig, c), c, ops);
            && (forall x :: x in kept ==> multiset(s.visited)[x] <= 1 && x in s.list)
            && (s.complete ==> Filter(s.visited, kept) == Reversed(Filter(orig, kept))
                               && forall x :: x in kept ==> multiset(s.visited)[x] == 1)
  {
    hide Run, Possible, Filter, Reversed;
    StartInv(orig, c, kept);
    RunKeeps(Start(orig, c), c, ops, orig, kept);
    var s, f := Run(Start(orig, c), c, ops), Filter(orig, kept);
    forall x | x in kept
      ensures multiset(s.visited)[x] <= 1 && (s.complete ==> multiset(s.visited)[x] == 1)
    {
      FilterCount(s.visited, kept, x);
      FilterCount(orig, kept, x);
      DistinctCount(orig, x);
      if s.complete {
        ReversedCount(f, x);
      } else {
        var k: nat, n: nat :| Midway(s, c, orig, kept, k, n);
        PartCount(f, n, x);
      }
    }
  }

  // ----- every crawl ends -----

  /** The steps that the crawler still has to take. */
  ghost function ToGo(s: State, c: Item): nat {
    if s.complete || c !in s.list then 0 else IndexOf(s.list, c) + 1
  }

  /** The crawler is on the list until it is done, and items are on it once. */
  ghost predicate Crawling(s: State, c: Item) {
    Distinct(s.list) && !c.isReal && (c in s.list <==> !s.complete)
  }

  lemma PlaceIs(items: seq<Item>, k: nat)
    requires Distinct(items) && k < |items|
    ensures items[k] in items && IndexOf(items, items[k]) == k
  {
  }

  lemma LinkAddsOne(s: State, c: Item, it: Item)
    requires Crawling(s, c) && Enabled(s, c, Link(it))
    ensures var s' := Apply(s, c, Link(it)); Crawling(s', c) && ToGo(s', c) <= ToGo(s, c) + 1
  {
    var s' := Apply(s, c, Link(it));
    if !s.complete {
      PlaceIs(s'.list, IndexOf(s.list, c) + 1);
    }
  }

  lemma UnlinkAddsNone(s: State, c: Item, it: Item)
    requires Crawling(s, c) && Enabled(s, c, Unlink(it))
    ensures var s' := Apply(s, c, Unlink(it)); Crawling(s', c) && ToGo(s', c) <= ToGo(s, c)
  {
    var s', j := Apply(s, c, Unlink(it)), IndexOf(s.list, it);
    if !s.complete {
      var k := IndexOf(s.list, c);
      PlaceIs(s'.list, if k < j then k else k - 1);
    } else {
      assert forall x :: x in s'.list ==> x in s.list;
    }
  }

  lemma StepTakesOne(s: State, c: Item)
    requires Crawling(s, c) && Enabled(s, c, Step)
    ensures var s' := Apply(s, c, Step);
            Crawling(s', c) && ToGo(s', c) == ToGo(s, c) - 1 && (s'.complete <==> ToGo(s', c) == 0)
  {
    var s', k := Apply(s, c, Step), IndexOf(s.list, c);
    if k > 0 {
      PlaceIs(s'.list, k - 1);
    } else {
      assert forall i :: 1 <= i < |s.list| ==> s.list[i] != s.list[0];
    }
  }

  ghost function Steps(ops: seq<Op>): nat {
    if ops == [] then 0 else (if ops[0].Step? then 1 else 0) + Steps(ops[1..])
  }

  ghost function Links(ops: seq<Op>): nat {
    if ops == [] then 0 else (if ops[0].Link? then 1 else 0) + Links(ops[1..])
  }

  /** Whatever other threads do, the crawler takes no more steps than there are items in front of it when it starts, one
      more, and one for every item linked meanwhile. */
  lemma {:induction false} CrawlIsBounded(s: State, c: Item, ops: seq<Op>)
    requires Crawling(s, c) && Possible(s, c, ops)
    ensures Crawling(Run(s, c, ops), c) && Steps(ops) + ToGo(Run(s, c, ops), c) <= ToGo(s, c) + Links(ops)
    decreases |ops|
  {
    hide Enabled, Apply, Crawling, ToGo;
    if ops != [] {
      match ops[0] {
        case Link(it) => LinkAddsOne(s, c, it);
        case Unlink(it) => UnlinkAddsNone(s, c, it);
        case Step => StepTakesOne(s, c);
      }
      CrawlIsBounded(Apply(s, c, ops[0]), c, ops[1..]);
    }
  }

  /** Left alone, the crawler comes off the list after exactly that many steps. */
  lemma {:induction false} CrawlEnds(s: State, c: Item, n: nat)
    requires Crawling(s, c) && n == ToGo(s, c)
    ensures var ops := seq(n, _ => Step); Possible(s, c, ops) && Run(s, c, ops).complete
    decreases n
  {
    if n > 0 {
      var ops := seq(n, _ => Step);
      assert ops[1..] == seq(n - 1, _ => Step) && ops[0] == Step;
      StepTakesOne(s, c);
      hide Apply, Crawling;
      CrawlEnds(Apply(s, c, Step), c, n - 1);
    }
  }

  /** Any item can be linked while it is not on the list, and unlinking it again undoes that. */
  lemma UnlinkUndoesLink(s: State, c: Item, it: Item)
    requires it.isReal && it !in s.list
    ensures Enabled(s, c, Link(it)) && Enabled(Apply(s, c, Link(it)), c, Unlink(it))
    ensures Apply(Apply(s, c, Link(it)), c, Unlink(it)) == s
  {
    var list := [it] + s.list;
    assert IndexOf(list, it) == 0 by {
      assert forall i :: 1 <= i < |list| ==> list[i] == s.list[i - 1] && list[i] in s.list;
    }
    assert list[..0] + list[1..] == s.list;
  }

  // ----- the same runs on linked items -----

  ghost function Touched(ops: seq<Op>): set<Item> {
    set i | 0 <= i < |ops| && !ops[i].Step? :: ops[i].it
  }

  /** Any interleaving of the crawler with threads that link and unlink items, each step under the lock of the list. */
  method RunOn(q: Queue, c: Item, ops: seq<Op>) returns (visited: seq<Item>, complete: bool)
    requires q.Valid() && c !in q.items && !c.isReal && Possible(Start(q.items, c), c, ops)
    modifies q, c, q.items, Touched(ops)
    ensures q.Valid()
    ensures var s := Run(Start(old(q.items), c), c, ops);
            q.items == s.list && visited == s.visited && complete == s.complete
  {
    hide Run, Possible, Queue.Valid, Apply;
    ghost var orig := q.items;
    q.CrawlerLinkQ(c);
    visited, complete := [], false;
    for i := 0 to |ops|
      invariant q.Valid() && (forall x :: x in q.items ==> x in orig || x == c || x in Touched(ops))
      invariant Possible(State(q.items, visited, complete), c, ops[i..])
      invariant Run(State(q.items, visited, complete), c, ops[i..]) == Run(Start(orig, c), c, ops)
    {
      OneOp(State(q.items, visited, complete), c, ops, i);
      TouchedOne(ops, i);
      visited, complete := Do(q, c, ops[i], visited, complete);
    }
    NoOps(State(q.items, visited, complete), c, ops);
  }

  lemma OneOp(s: State, c: Item, ops: seq<Op>, i: nat)
    requires i < |ops| && Possible(s, c, ops[i..])
    ensures Enabled(s, c, ops[i]) && Possible(Apply(s, c, ops[i]), c, ops[i + 1..])
    ensures Run(s, c, ops[i..]) == Run(Apply(s, c, ops[i]), c, ops[i + 1..])
  {
    assert ops[i..][1..] == ops[i + 1..] && ops[i..][0] == ops[i];
  }

  lemma TouchedOne(ops: seq<Op>, i: nat)
    requires i < |ops|
    ensures Touched([ops[i]]) <= Touched(ops)
  {
  }

  lemma NoOps(s: State, c: Item, ops: seq<Op>)
    requires Possible(s, c, ops[|ops|..])
    ensures Run(s, c, ops[|ops|..]) == s
  {
  }

  method Do(q: Queue, c: Item, op: Op, visited: seq<Item>, complete: bool)
      returns (visited': seq<Item>, complete': bool)
    requires q.Valid() && !c.isReal && Enabled(State(q.items, visited, complete), c, op)
    modifies q, c, q.items, Touched([op])
    ensures q.Valid()
    ensures State(q.items, visited', complete') == Apply(State(old(q.items), visited, complete), c, op)
    ensures forall x :: x in q.items ==> x in old(q.items) || x in Touched([op])
  {
    hide Queue.Valid;
    visited', complete' := visited, complete;
    assert !op.Step? ==> [op][0].it in Touched([op]);
    match op
    case Link(it) => q.LinkQ(it);
    case Unlink(it) => q.UnlinkQ(it, IndexOf(q.items, it));
    case Step =>
      ghost var k, was := IndexOf(q.items, c), q.items;
      var r := q.CrawlQ(c, k);
      if r == null {
        q.CrawlerUnlinkQ(c);
        complete' := true;
        assert |was| == 1 ==> was[1..] == [];
      } else {
        visited' := visited + [r];
      }
  }
}
