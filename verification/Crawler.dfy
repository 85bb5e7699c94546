/** memcached's LRU lists and the crawler that swaps itself through them: memcached/memcached/items.c.  The crawler is a
    fake item on the same doubly linked list as the real ones. */
module Crawler {

  class Item {
    var prev: Item?
    var next: Item?
    const isReal: bool

    constructor (isReal: bool)
      ensures this.isReal == isReal && prev == null && next == null
    {
      this.isReal := isReal;
      prev, next := null, null;
    }
  }

  ghost function Reals(items: seq<Item>): nat {
    if items == [] then 0 else Reals(items[..|items| - 1]) + if items[|items| - 1].isReal then 1 else 0
  }

  lemma {:induction false} RealsConcat(a: seq<Item>, b: seq<Item>)
    ensures Reals(a + b) == Reals(a) + Reals(b)
  {
    if b == [] {
      assert a + b == a;
    } else {
      RealsConcat(a, b[..|b| - 1]);
      assert (a + b)[..|a + b| - 1] == a + b[..|b| - 1];
    }
  }

  ghost predicate Distinct(items: seq<Item>) {
    forall i, j :: 0 <= i < j < |items| ==> items[i] != items[j]
  }

  /** The links of item i. */
  ghost predicate LinkedAt(items: seq<Item>, i: nat)
    requires i < |items|
    reads items[i]
  {
    && items[i].prev == (if i == 0 then null else items[i - 1])
    && items[i].next == (if i + 1 < |items| then items[i + 1] else null)
  }

  /** heads[id], tails[id] and sizes[id], and the list between them. */
  class Queue {
    var head: Item?
    var tail: Item?
    var size: nat
    ghost var items: seq<Item>

    ghost predicate Valid()
      reads this, items
    {
      && Distinct(items) && (forall i :: 0 <= i < |items| ==> LinkedAt(items, i))
      && head == (if items == [] then null else items[0])
      && tail == (if items == [] then null else items[|items| - 1])
      && size == Reals(items)
    }

    constructor ()
      ensures Valid() && items == []
    {
      head, tail, size, items := null, null, 0, [];
    }

    /** A new item becomes the head. */
    method LinkQ(it: Item)
      requires Valid() && it !in items && it.isReal
      modifies this, it, items
      ensures Valid() && items == [it] + old(items)
    {
      it.prev := null;
      it.next := head;
      if it.next != null {
        it.next.prev := it;
      }
      head := it;
      if tail == null {
        tail := it;
      }
      size := size + 1;
      RealsConcat([it], items);
      RealsOne(it);
      ghost var was := items;
      items := [it] + items;
      forall i | 0 <= i < |items| ensures LinkedAt(items, i) {
        if i > 0 {
          assert old(LinkedAt(was, i - 1));
        }
      }
    }

    /** The crawler becomes the tail. */
    method CrawlerLinkQ(it: Item)
      requires Valid() && it !in items && !it.isReal
      modifies this, it, items
      ensures Valid() && items == old(items) + [it]
    {
      it.prev := tail;
      it.next := null;
      if it.prev != null {
        it.prev.next := it;
      }
      tail := it;
      if head == null {
        head := it;
      }
      ghost var was := items;
      items := items + [it];
      forall i | 0 <= i < |items| ensures LinkedAt(items, i) {
        if i < |was| {
          assert old(LinkedAt(was, i));
        }
      }
      RealsConcat(was, [it]);
    }

    /** do_item_unlink_q and crawler_unlink_q up to the size: take out item k. */
    method Unlink(it: Item, ghost k: nat)
      requires Valid() && k < |items| && items[k] == it
      modifies `head, `tail, `items, items
      ensures items == old(items)[..k] + old(items)[k + 1..]
      ensures Distinct(items) && (forall i :: 0 <= i < |items| ==> LinkedAt(items, i))
      ensures head == (if items == [] then null else items[0])
              && tail == (if items == [] then null else items[|items| - 1])
    {
      assert LinkedAt(items, k);
      ghost var was := items;
      if head == it {
        head := it.next;
      }
      if tail == it {
        tail := it.prev;
      }
      if it.next != null {
        it.next.prev := it.prev;
      }
      if it.prev != null {
        it.prev.next := it.next;
      }
      items := items[..k] + items[k + 1..];
      forall i | 0 <= i < |items| ensures LinkedAt(items, i) {
        assert old(LinkedAt(was, if i < k then i else i + 1));
      }
    }
  
    method UnlinkQ(it: Item, ghost k: nat)
      requires Valid() && k < |items| && items[k] == it && it.isReal
      modifies this, items
      ensures Valid() && items == old(items)[..k] + old(items)[k + 1..]
    {
      RealsWithout(items, k);
      Unlink(it, k);
      size := size - 1;
    }

    /** The crawler reached the head and stands before the list, no longer part of it. */
    ghost predicate Popped(it: Item)
      reads this, it
    {
      it !in items && it.prev == null && items != [] && it.next == items[0] && !it.isReal
    }

    /** Take the crawler off the list, unless it was popped already. */
    method CrawlerUnlinkQ(it: Item)
      requires Valid() && !it.isReal && (it in items || Popped(it))
      modifies this, items
      ensures Valid() && it !in items
      ensures if it !in old(items) then items == old(items)
              else exists k :: && 0 <= k < |old(items)| && old(items)[k] == it
                               && items == old(items)[..k] + old(items)[k + 1..]
    {
      hide Reals;
      ghost var was, linked := items, it in items;
      ghost var k := if linked then IndexOf(items, it) else 0;
      if linked {
        RealsWithout(items, k);
        assert LinkedAt(items, k);
      } else {
        assert LinkedAt(items, 0);
      }
      if head == it {
        head := it.next;
      }
      if tail == it {
        tail := it.prev;
      }
      if it.next != null {
        it.next.prev := it.prev;
      }
      if it.prev != null {
        it.prev.next := it.next;
      }
      if linked {
        items := items[..k] + items[k + 1..];
      }
      forall i | 0 <= i < |items| ensures LinkedAt(items, i) {
        assert old(LinkedAt(was, if linked && i >= k then i + 1 else i));
      }
    }

    /** One step of the crawler: swap with the item before it and hand that item out; at the head, pop off. (Alone on
        the list, it stays for CrawlerUnlinkQ to take off.) */
    method CrawlQ(it: Item, ghost k: nat) returns (r: Item?)
      requires Valid() && k < |items| && items[k] == it && !it.isReal
      modifies this, items
      ensures Valid()
      ensures k == 0 ==> r == null
      ensures k == 0 ==> if |old(items)| == 1 then items == old(items) else items == old(items)[1..] && Popped(it)
      ensures k > 0 ==> r == old(items)[k - 1] && items == old(items)[..k - 1] + [it, r] + old(items)[k + 1..]
    {
      hide Reals, Distinct;
      assert LinkedAt(items, k);
      if it.prev == null {
        if it.next != null {
          PopHead(it);
        }
        return null;
      }
      SwapBack(it, k);
      return it.next;
    }

    method PopHead(it: Item)
      requires Valid() && |items| > 1 && items[0] == it && !it.isReal
      modifies `head, `items, items
      ensures Valid() && items == old(items)[1..] && Popped(it)
    {
      hide Reals;
      ghost var was := items;
      RealsWithout(items, 0);
      assert was[..0] + was[1..] == was[1..];
      assert LinkedAt(items, 0) && LinkedAt(items, 1);
      head := it.next;
      it.next.prev := null;
      items := items[1..];
      forall i | 0 <= i < |items| ensures LinkedAt(items, i) {
        assert old(LinkedAt(was, i + 1));
      }
    }

    method SwapBack(it: Item, ghost k: nat)
      requires Valid() && 0 < k < |items| && items[k] == it
      modifies this, items
      ensures Valid() && it.next == old(items)[k - 1]
      ensures items == old(items)[..k - 1] + [it, old(items)[k - 1]] + old(items)[k + 1..]
    {
      hide Reals;
      ghost var was := items;
      Swapped(was, k);
      assert LinkedAt(items, k) && LinkedAt(items, k - 1);
      if k > 1 {
        assert LinkedAt(items, k - 2);
      }
      if k + 1 < |items| {
        assert LinkedAt(items, k + 1);
      }
      if head == it.prev {
        head := it;
      }
      if tail == it {
        tail := it.prev;
      }
      if it.next != null {
        it.prev.next := it.next;
        it.next.prev := it.prev;
      } else {
        it.prev.next := null;
      }
      it.next := it.prev;
      it.prev := it.next.prev;
      it.next.prev := it;
      if it.prev != null {
        it.prev.next := it;
      }
      items := was[..k - 1] + [it, was[k - 1]] + was[k + 1..];
      forall i | 0 <= i < |items| ensures LinkedAt(items, i) {
        assert i < k - 1 || i > k ==> old(LinkedAt(was, i));
      }
    }
  }

  lemma Swapped(was: seq<Item>, k: nat)
    requires 0 < k < |was|
    ensures var items := was[..k - 1] + [was[k], was[k - 1]] + was[k + 1..];
            && |items| == |was| && items[k - 1] == was[k] && items[k] == was[k - 1]
            && (forall i :: 0 <= i < |was| && i != k - 1 && i != k ==> items[i] == was[i])
            && Reals(items) == Reals(was)
  {
    hide Reals;
    var items := was[..k - 1] + [was[k], was[k - 1]] + was[k + 1..];
    RealsWithout(was, k);
    RealsWithout(items, k - 1);
    assert was[..k] + was[k + 1..] == items[..k - 1] + items[k..];
  }

  ghost function IndexOf(items: seq<Item>, it: Item): (k: nat)
    requires it in items
    ensures k < |items| && items[k] == it
  {
    var k :| 0 <= k < |items| && items[k] == it; k
  }

  lemma RealsWithout(items: seq<Item>, k: nat)
    requires k < |items|
    ensures Reals(items) == Reals(items[..k] + items[k + 1..]) + if items[k].isReal then 1 else 0
  {
    hide Reals;
    var it := items[k];
    assert items == items[..k] + ([it] + items[k + 1..]);
    RealsConcat(items[..k], [it] + items[k + 1..]);
    RealsConcat([it], items[k + 1..]);
    RealsConcat(items[..k], items[k + 1..]);
    RealsOne(it);
  }

  lemma RealsOne(it: Item)
    ensures Reals([it]) == if it.isReal then 1 else 0
  {
    assert [it][..0] == [];
  }

  // ----- a full crawl -----

  ghost function Reversed(items: seq<Item>): seq<Item> {
    seq(|items|, i requires 0 <= i < |items| => items[|items| - 1 - i])
  }

  ghost function Survivors(items: seq<Item>, expired: set<Item>): seq<Item> {
    if items == [] then [] else (if items[0] in expired then [] else [items[0]]) + Survivors(items[1..], expired)
  }

  lemma {:induction false} SurvivorsFrom(items: seq<Item>, expired: set<Item>)
    ensures forall x :: x in Survivors(items, expired) ==> x in items
  {
    if items != [] {
      SurvivorsFrom(items[1..], expired);
    }
  }

  /** Everyone on the list while the crawler has k items ahead of it. */
  ghost predicate Midway(items: seq<Item>, orig: seq<Item>, c: Item, expired: set<Item>, k: nat) {
    k <= |orig| && items == orig[..k] + [c] + Survivors(orig[k..], expired)
  }

  lemma MidwayMembers(items: seq<Item>, orig: seq<Item>, c: Item, expired: set<Item>, k: nat)
    requires Midway(items, orig, c, expired, k)
    ensures k < |items| && items[k] == c && forall i :: 0 <= i < |items| ==> items[i] == c || items[i] in orig
  {
    SurvivorsFrom(orig[k..], expired);
    forall i | 0 <= i < |items| ensures items[i] == c || items[i] in orig {
      assert i > k ==> items[i] in Survivors(orig[k..], expired);
    }
  }

  /** The list after a swap is the next midway list, with the item just handed out still on it if it is to be
      unlinked. */
  lemma MidwayStep(items: seq<Item>, orig: seq<Item>, c: Item, expired: set<Item>, k: nat)
    requires Midway(items, orig, c, expired, k) && k > 0
    ensures var r := orig[k - 1];
            var swapped := items[..k - 1] + [c, r] + items[k + 1..];
            && items[k - 1] == r && |swapped| > k && swapped[k] == r
            && (r !in expired ==> Midway(swapped, orig, c, expired, k - 1))
            && (r in expired ==> Midway(swapped[..k] + swapped[k + 1..], orig, c, expired, k - 1))
            && Reversed(orig[k - 1..]) == Reversed(orig[k..]) + [r]
  {
    var r, s := orig[k - 1], Survivors(orig[k..], expired);
    assert orig[k - 1..] == [r] + orig[k..] && orig[k - 1..][1..] == orig[k..];
    assert orig[..k] == orig[..k - 1] + [r];
    assert items[k + 1..] == s && items[..k - 1] == orig[..k - 1];
  }

  lemma MidwayStart(orig: seq<Item>, c: Item, expired: set<Item>)
    ensures Midway(orig + [c], orig, c, expired, |orig|) && Reversed(orig[|orig|..]) == []
  {
    assert orig[|orig|..] == [] && orig[..|orig|] == orig;
  }

  lemma MidwayEnd(items: seq<Item>, orig: seq<Item>, c: Item, expired: set<Item>)
    requires Midway(items, orig, c, expired, 0)
    ensures items == [c] + Survivors(orig, expired)
  {
    assert orig[0..] == orig && orig[..0] == [];
  }

  /** The crawler thread on one list, without a limit: `expired` are the items that are unlinked when handed out.  Every
      item is handed out once, from tail to head. */
  method Crawl(q: Queue, c: Item, expired: set<Item>) returns (visited: seq<Item>)
    requires q.Valid() && c !in q.items && !c.isReal && forall x :: x in q.items ==> x.isReal
    modifies q, c, q.items
    ensures q.Valid() && visited == Reversed(old(q.items)) && q.items == Survivors(old(q.items), expired)
  {
    hide Midway, Reversed, Survivors, Queue.Valid;
    ghost var orig := q.items;
    ghost var k: nat := |orig|;
    MidwayStart(orig, c, expired);
    visited := [];
    q.CrawlerLinkQ(c);
    while true
      modifies q, c, orig
      invariant q.Valid() && k <= |orig| && Midway(q.items, orig, c, expired, k) && visited == Reversed(orig[k..])
      decreases k
    {
      MidwayMembers(q.items, orig, c, expired, k);
      ghost var items := q.items;
      if k > 0 {
        MidwayStep(items, orig, c, expired, k);
      }
      var search := q.CrawlQ(c, k);
      if search == null {
        MidwayEnd(items, orig, c, expired);
        assert orig[0..] == orig;
        q.CrawlerUnlinkQ(c);
        return;
      }
      visited := visited + [search];
      if search in expired {
        assert search == orig[k - 1] && orig[k - 1] in orig;
        q.UnlinkQ(search, k);
      }
      k := k - 1;
    }
  }
}
