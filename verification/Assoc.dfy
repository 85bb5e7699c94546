/** memcached's hash table with incremental expansion: memcached/memcached/assoc.c. A chain is the list of its items. */
module Assoc {
  import opened Format

  type Key = seq<char>

  datatype Item = Item(key: Key, data: nat)

  /** A bucket of the old or of the primary table. */
  datatype Place = Old(b: nat) | Primary(b: nat)

  function HashSize(power: nat): (n: nat)
    ensures n >= 1
  {
    if power == 0 then 1 else 2 * HashSize(power - 1)
  }

  /** hv & hashmask(power) */
  function LowBits(hv: nat, power: nat): (r: nat)
    ensures r < HashSize(power)
  {
    if power == 0 then 0 else hv % 2 + 2 * LowBits(hv / 2, power - 1)
  }

  lemma RemainderIs(x: nat, m: nat, q: nat, r: nat)
    requires m > 0 && r < m && x == q * m + r
    ensures x % m == r
  {
    var t := x / m - q;
    assert x == x / m * m + x % m;
    assert t * m == x / m * m - q * m;
    MultipleBounds(t, m);
  }

  lemma MultipleBounds(t: int, m: int)
    requires m > 0
    ensures (t >= 1 ==> t * m >= m) && (t <= -1 ==> t * m <= -m) && (t == 0 ==> t * m == 0)
  {
    if t >= 1 {
      assert (t - 1) * m >= 0;
    } else if t <= -1 {
      assert (-1 - t) * m >= 0;
    }
  }

  /** The mask keeps the remainder by the number of buckets. */
  lemma {:induction false} LowBitsIs(hv: nat, power: nat)
    ensures LowBits(hv, power) == hv % HashSize(power)
  {
    if power > 0 {
      LowBitsIs(hv / 2, power - 1);
      DoubleRemainder(hv, HashSize(power - 1));
    }
  }

  lemma DoubleRemainder(x: nat, m: nat)
    requires m > 0
    ensures x % (2 * m) == x % 2 + 2 * (x / 2 % m)
  {
    var q, r := x / 2 / m, x / 2 % m;
    assert x / 2 == q * m + r && x == 2 * (x / 2) + x % 2;
    assert 2 * (q * m) == q * (2 * m);
    RemainderIs(x, 2 * m, q, x % 2 + 2 * r);
  }

  /** The chain that assoc_find searches for hash value hv. */
  function Home(hv: nat, power: nat, expanding: bool, expandBucket: nat): Place
    requires power >= 1
  {
    if expanding && LowBits(hv, power - 1) >= expandBucket then Old(LowBits(hv, power - 1))
    else Primary(LowBits(hv, power))
  }

  ghost predicate DistinctKeys(chain: seq<Item>) {
    forall i, j :: 0 <= i < j < |chain| ==> chain[i].key != chain[j].key
  }

  /** The chain at p holds exactly the items that belong there. */
  ghost predicate ChainIs(chain: seq<Item>, contents: map<Key, Item>, p: Place, hash: Key -> nat, power: nat,
                          expanding: bool, expandBucket: nat)
    requires power >= 1
  {
    && DistinctKeys(chain)
    && forall it :: it in chain <==>
       it.key in contents && contents[it.key] == it && Home(hash(it.key), power, expanding, expandBucket) == p
  }

  /** An old bucket b splits into buckets b and b + size of the doubled table, and into no others. */
  lemma {:induction false} SplitsInTwo(hv: nat, power: nat)
    ensures LowBits(hv, power + 1) == LowBits(hv, power)
            || LowBits(hv, power + 1) == LowBits(hv, power) + HashSize(power)
  {
    if power > 0 {
      SplitsInTwo(hv / 2, power - 1);
    }
  }

  lemma ChainLookup(chain: seq<Item>, contents: map<Key, Item>, hash: Key -> nat, power: nat, expanding: bool,
                    expandBucket: nat, key: Key)
    requires power >= 1 && (forall k :: k in contents ==> contents[k].key == k)
    requires ChainIs(chain, contents, Home(hash(key), power, expanding, expandBucket), hash, power, expanding,
             expandBucket)
    ensures forall i :: 0 <= i < |chain| && chain[i].key == key ==> key in contents && contents[key] == chain[i]
    ensures key in contents ==> contents[key] in chain
  {
    hide Home;
    assert forall i :: 0 <= i < |chain| ==> chain[i] in chain;
  }

  class AssocTable {
    const hash: Key -> nat
    var power: nat
    var primary: seq<seq<Item>>
    var old_: seq<seq<Item>>
    var expanding: bool
    var expandBucket: nat
    var hashItems: nat
    ghost var contents: map<Key, Item>

    ghost predicate Valid()
      reads this
    {
      && power >= 1 && |primary| == HashSize(power)
      && (expanding ==> |old_| == HashSize(power - 1) && expandBucket < |old_|)
      && (forall b :: 0 <= b < |primary| ==>
         ChainIs(primary[b], contents, Primary(b), hash, power, expanding, expandBucket))
      && (forall b :: 0 <= b < |old_| && expanding ==>
         ChainIs(old_[b], contents, Old(b), hash, power, expanding, expandBucket))
      && hashItems == |contents| && (forall k :: k in contents ==> contents[k].key == k)
    }

    constructor (hash: Key -> nat, power: nat)
      requires power >= 1
      ensures Valid() && contents == map[] && !expanding && this.hash == hash
    {
      this.hash, this.power := hash, power;
      primary := seq(HashSize(power), _ => []);
      old_, expanding, expandBucket, hashItems, contents := [], false, 0, 0, map[];
    }

    /** The table and bucket to search, as find, insert and delete choose it. */
    function Choose(hv: nat): (p: Place)
      requires power >= 1
      reads this
      ensures p == Home(hv, power, expanding, expandBucket)
    {
      if expanding && LowBits(hv, power - 1) >= expandBucket then Old(LowBits(hv, power - 1))
      else Primary(LowBits(hv, power))
    }

    function Chain(p: Place): seq<Item>
      requires if p.Old? then p.b < |old_| else p.b < |primary|
      reads this
    {
      if p.Old? then old_[p.b] else primary[p.b]
    }

    lemma ChosenChain(hv: nat)
      requires Valid()
      ensures var p := Choose(hv);
              && (if p.Old? then expanding && p.b < |old_| else p.b < |primary|)
              && ChainIs(Chain(p), contents, p, hash, power, expanding, expandBucket)
    {
      hide ChainIs, LowBits;
    }

    method Find(key: Key, hv: nat) returns (r: Option<Item>)
      requires Valid() && hv == hash(key)
      ensures r == if key in contents then Some(contents[key]) else None
    {
      hide ChainIs, Home;
      ChosenChain(hv);
      var chain := Chain(Choose(hv));
      ChainLookup(chain, contents, hash, power, expanding, expandBucket, key);
      var i := 0;
      while i < |chain|
        invariant i <= |chain| && forall j :: 0 <= j < i ==> chain[j].key != key
      {
        if chain[i].key == key {
          return Some(chain[i]);
        }
        i := i + 1;
      }
      return None;
    }

    /** The key must not be present. */
    method Insert(it: Item, hv: nat)
      requires Valid() && hv == hash(it.key) && it.key !in contents
      modifies this
      ensures Valid() && contents == old(contents)[it.key := it] && expanding == old(expanding) && power == old(power)
    {
      hide ChainIs, Home, LowBits, HashSize;
      ChosenChain(hv);
      var p := Choose(hv);
      ghost var contents' := contents[it.key := it];
      InsertElsewhere(primary, true, contents, it, hash, power, expanding, expandBucket);
      if expanding {
        InsertElsewhere(old_, false, contents, it, hash, power, expanding, expandBucket);
      }
      InsertHere(Chain(p), contents, it, hash, power, expanding, expandBucket);
      if p.Old? {
        old_ := old_[p.b := [it] + old_[p.b]];
      } else {
        primary := primary[p.b := [it] + primary[p.b]];
      }
      hashItems := hashItems + 1;
      contents := contents';
    }

    /** The key must be present. */
    method Delete(key: Key, hv: nat)
      requires Valid() && hv == hash(key) && key in contents
      modifies this
      ensures Valid() && contents == old(contents) - {key} && expanding == old(expanding) && power == old(power)
    {
      hide ChainIs, Home, LowBits, HashSize;
      ChosenChain(hv);
      var p := Choose(hv);
      var chain := Chain(p);
      ChainLookup(chain, contents, hash, power, expanding, expandBucket, key);
      var i := 0;
      while chain[i].key != key
        invariant i < |chain| && forall j :: 0 <= j < i ==> chain[j].key != key
        decreases |chain| - i
        modifies {}
      {
        StillAhead(chain, contents[key], i);
        i := i + 1;
      }
      DeleteElsewhere(primary, true, contents, key, hash, power, expanding, expandBucket);
      if expanding {
        DeleteElsewhere(old_, false, contents, key, hash, power, expanding, expandBucket);
      }
      DeleteHere(chain, contents, i, hash, power, expanding, expandBucket);
      chain := chain[..i] + chain[i + 1..];
      if p.Old? {
        old_ := old_[p.b := chain];
      } else {
        primary := primary[p.b := chain];
      }
      hashItems := hashItems - 1;
      contents := contents - {key};
    }

    /** assoc_expand; `ok` says whether the new table could be allocated. */
    method Expand(ok: bool)
      requires Valid() && !expanding
      modifies this
      ensures Valid() && contents == old(contents) && expanding == ok
              && power == if ok then old(power) + 1 else old(power)
    {
      hide ChainIs, Home;
      if ok {
        forall b | 0 <= b < |primary| ensures ChainIs(primary[b], contents, Old(b), hash, power + 1, true, 0) {
          BecomesOld(primary[b], contents, b, hash, power, expandBucket);
        }
        forall b: nat ensures ChainIs([], contents, Primary(b), hash, power + 1, true, 0) {
          NothingMovedYet(contents, b, hash, power + 1);
        }
        old_ := primary;
        primary := seq(HashSize(power + 1), _ => []);
        power := power + 1;
        expanding := true;
        expandBucket := 0;
      }
    }

    /** One turn of the maintenance thread: move the items of one old bucket. */
    method MigrateBucket()
      requires Valid() && expanding
      modifies this
      ensures Valid() && contents == old(contents) && power == old(power)
      ensures if old(expandBucket) + 1 < HashSize(power - 1) then expanding
              && expandBucket == old(expandBucket) + 1 && old_[old(expandBucket)] == [] else !expanding && old_ == []
    {
      hide ChainIs, Home, LowBits, HashSize, MovedIs;
      var e, chain := expandBucket, old_[expandBucket];
      forall b | 0 <= b < |primary| ensures MovedIs(primary[b], contents, b, hash, power, e, chain[..0]) {
        StartMove(primary[b], contents, b, hash, power, e, chain);
      }
      for j := 0 to |chain|
        invariant power == old(power) && contents == old(contents) && |primary| == HashSize(power)
        invariant unchanged(`old_) && unchanged(`expanding) && unchanged(`expandBucket) && unchanged(`hashItems)
        invariant forall b :: 0 <= b < |primary| ==> MovedIs(primary[b], contents, b, hash, power, e, chain[..j])
      {
        var it := chain[j];
        var bucket := LowBits(hash(it.key), power);
        assert chain[..j + 1] == chain[..j] + [it];
        assert ChainIs(chain, contents, Old(e), hash, power, true, e);
        forall b | 0 <= b < |primary|
          ensures MovedIs(if b == bucket then [it] + primary[b] else primary[b], contents, b, hash, power, e,
            chain[..j + 1]) {
          MoveOne(primary[b], contents, b, hash, power, e, chain, j);
        }
        primary := primary[bucket := [it] + primary[bucket]];
      }
      assert chain[..|chain|] == chain;
      var last := e + 1 == HashSize(power - 1);
      forall b | 0 <= b < |primary| ensures ChainIs(primary[b], contents, Primary(b), hash, power, !last, e + 1) {
        FinishMove(primary[b], contents, b, hash, power, e, chain, last);
      }
      forall b | 0 <= b < |old_| && !last
        ensures ChainIs(if b == e then [] else old_[b], contents, Old(b), hash, power, true, e + 1) {
        OldAfterMove(old_[b], contents, b, hash, power, e);
      }
      old_ := old_[e := []];
      expandBucket := expandBucket + 1;
      if expandBucket == HashSize(power - 1) {
        expanding := false;
        old_ := [];
      }
    }

    /** Left alone, the maintenance thread finishes, with the same map. */
    method FinishExpansion()
      requires Valid()
      modifies this
      ensures Valid() && !expanding && contents == old(contents) && power == old(power)
    {
      hide ChainIs;
      while expanding
        invariant Valid() && contents == old(contents) && power == old(power)
        decreases expanding, HashSize(power - 1) - expandBucket
      {
        MigrateBucket();
      }
    }
  }

  // ----- what expansion does to a chain -----

  lemma BecomesOld(chain: seq<Item>, contents: map<Key, Item>, b: nat, hash: Key -> nat, power: nat, expandBucket: nat)
    requires power >= 1 && ChainIs(chain, contents, Primary(b), hash, power, false, expandBucket)
    ensures ChainIs(chain, contents, Old(b), hash, power + 1, true, 0)
  {
    hide LowBits;
  }

  lemma NothingMovedYet(contents: map<Key, Item>, b: nat, hash: Key -> nat, power: nat)
    requires power >= 1
    ensures ChainIs([], contents, Primary(b), hash, power, true, 0)
  {
    hide LowBits;
  }

  /** A primary chain while old bucket e is moved: items of earlier old buckets, and those of `part`. */
  ghost predicate MovedIs(chain: seq<Item>, contents: map<Key, Item>, b: nat, hash: Key -> nat, power: nat, e: nat,
                          part: seq<Item>)
    requires power >= 1
  {
    && DistinctKeys(chain)
    && forall it :: it in chain <==>
         && it.key in contents && contents[it.key] == it && LowBits(hash(it.key), power) == b
         && (LowBits(hash(it.key), power - 1) < e || (LowBits(hash(it.key), power - 1) == e && it in part))
  }

  lemma StartMove(chain: seq<Item>, contents: map<Key, Item>, b: nat, hash: Key -> nat, power: nat, e: nat,
                  from: seq<Item>)
    requires power >= 1 && ChainIs(chain, contents, Primary(b), hash, power, true, e)
    ensures MovedIs(chain, contents, b, hash, power, e, from[..0])
  {
    hide LowBits;
  }

  lemma MoveOne(chain: seq<Item>, contents: map<Key, Item>, b: nat, hash: Key -> nat, power: nat, e: nat,
                from: seq<Item>, j: nat)
    requires power >= 1 && j < |from| && ChainIs(from, contents, Old(e), hash, power, true, e)
    requires MovedIs(chain, contents, b, hash, power, e, from[..j])
    ensures MovedIs(if b == LowBits(hash(from[j].key), power) then [from[j]] + chain else chain, contents, b, hash,
            power, e, from[..j] + [from[j]])
  {
    hide LowBits;
    assert from[j] in from;
    assert from[j] !in from[..j];
    forall i | 0 <= i < |chain| ensures chain[i].key != from[j].key {
      assert chain[i] in chain;
    }
  }

  lemma FinishMove(chain: seq<Item>, contents: map<Key, Item>, b: nat, hash: Key -> nat, power: nat, e: nat,
                   from: seq<Item>, last: bool)
    requires power >= 1 && ChainIs(from, contents, Old(e), hash, power, true, e)
             && (last <==> e + 1 == HashSize(power - 1))
    requires MovedIs(chain, contents, b, hash, power, e, from)
    ensures ChainIs(chain, contents, Primary(b), hash, power, !last, e + 1)
  {
    hide LowBits, HashSize;
  }

  lemma OldAfterMove(chain: seq<Item>, contents: map<Key, Item>, b: nat, hash: Key -> nat, power: nat, e: nat)
    requires power >= 1 && ChainIs(chain, contents, Old(b), hash, power, true, e)
    ensures ChainIs(if b == e then [] else chain, contents, Old(b), hash, power, true, e + 1)
  {
    hide LowBits;
  }

  lemma StillAhead(chain: seq<Item>, it: Item, i: nat)
    requires it in chain && i < |chain| && forall j :: 0 <= j <= i ==> chain[j].key != it.key
    ensures i + 1 < |chain|
  {
    var k :| 0 <= k < |chain| && chain[k] == it;
  }

  lemma InsertHere(chain: seq<Item>, contents: map<Key, Item>, it: Item, hash: Key -> nat, power: nat, expanding: bool,
                   expandBucket: nat)
    requires power >= 1 && it.key !in contents
    requires ChainIs(chain, contents, Home(hash(it.key), power, expanding, expandBucket), hash, power, expanding,
             expandBucket)
    ensures ChainIs([it] + chain, contents[it.key := it], Home(hash(it.key), power, expanding, expandBucket), hash,
            power, expanding, expandBucket)
  {
    hide Home;
    forall i | 0 <= i < |chain| ensures chain[i].key != it.key {
      assert chain[i] in chain;
    }
  }

  /** The chains that are not the item's home stay right. */
  lemma InsertElsewhere(table: seq<seq<Item>>, primary: bool, contents: map<Key, Item>, it: Item, hash: Key -> nat,
                        power: nat, expanding: bool, expandBucket: nat)
    requires power >= 1 && it.key !in contents
    requires forall b :: 0 <= b < |table| ==>
             ChainIs(table[b], contents, if primary then Primary(b) else Old(b), hash, power, expanding, expandBucket)
    ensures var home := Home(hash(it.key), power, expanding, expandBucket);
            forall b :: 0 <= b < |table| && home != (if primary then Primary(b) else Old(b)) ==>
              ChainIs(table[b], contents[it.key := it], if primary then Primary(b) else Old(b), hash, power, expanding,
                  expandBucket)
  {
    hide Home;
  }

  lemma DeleteHere(chain: seq<Item>, contents: map<Key, Item>, i: nat, hash: Key -> nat, power: nat, expanding: bool,
                   expandBucket: nat)
    requires power >= 1 && i < |chain|
    requires ChainIs(chain, contents, Home(hash(chain[i].key), power, expanding, expandBucket), hash, power, expanding,
             expandBucket)
    ensures ChainIs(chain[..i] + chain[i + 1..], contents - {chain[i].key},
            Home(hash(chain[i].key), power, expanding, expandBucket), hash, power, expanding, expandBucket)
  {
    hide Home;
    DropItem(chain, i);
    hide DistinctKeys;
  }

  lemma DropItem(chain: seq<Item>, i: nat)
    requires DistinctKeys(chain) && i < |chain|
    ensures var rest := chain[..i] + chain[i + 1..];
            DistinctKeys(rest) && forall it :: it in rest <==> it in chain && it.key != chain[i].key
  {
    var rest := chain[..i] + chain[i + 1..];
    assert forall j :: 0 <= j < |rest| ==> rest[j] == chain[if j < i then j else j + 1];
    forall it | it in chain && it.key != chain[i].key ensures it in rest {
      var j :| 0 <= j < |chain| && chain[j] == it;
      assert rest[if j < i then j else j - 1] == it;
    }
  }

  lemma DeleteElsewhere(table: seq<seq<Item>>, primary: bool, contents: map<Key, Item>, key: Key, hash: Key -> nat,
                        power: nat, expanding: bool, expandBucket: nat)
    requires power >= 1
    requires forall b :: 0 <= b < |table| ==>
             ChainIs(table[b], contents, if primary then Primary(b) else Old(b), hash, power, expanding, expandBucket)
    ensures var home := Home(hash(key), power, expanding, expandBucket);
            forall b :: 0 <= b < |table| && home != (if primary then Primary(b) else Old(b)) ==>
              ChainIs(table[b], contents - {key}, if primary then Primary(b) else Old(b), hash, power, expanding,
                  expandBucket)
  {
    hide Home;
  }
}
