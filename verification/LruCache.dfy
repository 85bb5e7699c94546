/** One shard of the LRU cache of util/cache.cc. Handles are named by allocation numbers; the circular list is kept from
    oldest to newest. */
module LruCaches {
  import opened Format
  import opened HandleTables

  datatype Handle = Handle(name: Name, value: string, charge: nat, refs: nat)

  ghost predicate NoRepeats(ids: seq<nat>) {
    forall i, j :: 0 <= i < j < |ids| ==> ids[i] != ids[j]
  }

  /** LRU_Remove. */
  function Without(ids: seq<nat>, id: nat): seq<nat> {
    if ids == [] then [] else if ids[0] == id then ids[1..] else [ids[0]] + Without(ids[1..], id)
  }

  lemma {:induction false} WithoutIs(ids: seq<nat>, id: nat)
    requires NoRepeats(ids)
    ensures NoRepeats(Without(ids, id)) && forall x :: x in Without(ids, id) <==> x in ids && x != id
    ensures |Without(ids, id)| == if id in ids then |ids| - 1 else |ids|
  {
    if ids != [] {
      var rest := ids[1..];
      assert ids == [ids[0]] + rest && NoRepeats(rest);
      assert forall x :: x in rest ==> x != ids[0] by {
        forall i | 0 <= i < |rest| ensures rest[i] != ids[0] {
          assert rest[i] == ids[i + 1];
        }
      }
      WithoutIs(rest, id);
      if ids[0] != id {
        var w := Without(rest, id);
        assert Without(ids, id) == [ids[0]] + w;
        forall i | 0 <= i < |w| ensures w[i] != ids[0] {
          assert w[i] in w;
          assert w[i] in rest;
        }
      }
    }
  }

  /** The charges of all handles that exist. */
  ghost function Total(heap: map<nat, Handle>, n: nat): nat {
    if n == 0 then 0 else Total(heap, n - 1) + if n - 1 in heap then heap[n - 1].charge else 0
  }

  /** Only the charges count, and only those below n. */
  lemma {:induction false} TotalSame(a: map<nat, Handle>, b: map<nat, Handle>, n: nat)
    requires forall id :: 0 <= id < n ==> (id in a <==> id in b) && (id in a ==> a[id].charge == b[id].charge)
    ensures Total(a, n) == Total(b, n)
  {
    if n > 0 {
      TotalSame(a, b, n - 1);
    }
  }

  lemma {:induction false} TotalWithout(heap: map<nat, Handle>, id: nat, n: nat)
    requires id in heap && id < n
    ensures Total(heap, n) == Total(heap - {id}, n) + heap[id].charge
  {
    if n - 1 == id {
      TotalSame(heap, heap - {id}, n - 1);
    } else {
      TotalWithout(heap, id, n - 1);
    }
  }

  /** Everything a shard holds; `outstanding` are the handles clients hold, `deleted` the order of deleter calls. */
  datatype Shard = Shard(heap: map<nat, Handle>, lru: seq<nat>, contents: map<Name, nat>, usage: nat, nextId: nat,
                         outstanding: multiset<nat>, deleted: seq<nat>)

  /** The table holds exactly the entries on the list. */
  ghost predicate Cached(s: Shard) {
    && NoRepeats(s.lru)
    && (forall id :: id in s.lru ==> id in s.heap && s.heap[id].name in s.contents && s.contents[s.heap[id].name] == id)
    && (forall n :: n in s.contents ==>
       s.contents[n] in s.lru && s.contents[n] in s.heap && s.heap[s.contents[n]].name == n)
  }

  /** References: one if cached, one per client handle, and one for a reference about to be dropped. */
  ghost predicate Counted(s: Shard, extra: Option<nat>) {
    && (forall id :: id in s.outstanding ==> id in s.heap)
    && (extra.Some? ==> extra.value in s.heap)
    && (forall id :: id in s.heap ==> s.heap[id].refs >= 1 && s.heap[id].refs == References(s, extra, id))
  }

  ghost function References(s: Shard, extra: Option<nat>, id: nat): nat {
    (if id in s.lru then 1 else 0) + s.outstanding[id] + if extra == Some(id) then 1 else 0
  }

  /** Every handle ever made exists or was deleted, never both, and none was deleted twice. */
  ghost predicate Accounted(s: Shard) {
    && s.usage == Total(s.heap, s.nextId)
    && NoRepeats(s.deleted)
    && (forall id :: id in s.heap || id in s.deleted <==> 0 <= id < s.nextId)
    && (forall id :: id in s.deleted ==> id !in s.heap)
  }

  ghost predicate Ok(s: Shard, extra: Option<nat>) {
    Cached(s) && Counted(s, extra) && Accounted(s)
  }

  // ----- the effect of each step on the books -----

  ghost function Unreffed(s: Shard, id: nat): Shard
    requires id in s.heap && s.heap[id].refs >= 1
  {
    var h := s.heap[id];
    if h.refs > 1 then s.(heap := s.heap[id := h.(refs := h.refs - 1)])
    else s.(heap := s.heap - {id}, usage := if s.usage >= h.charge then s.usage - h.charge else 0,
        deleted := s.deleted + [id])
  }

  lemma UnrefOk(s: Shard, id: nat)
    requires Ok(s, Some(id))
    ensures Ok(Unreffed(s, id), None) && s.usage >= s.heap[id].charge
  {
    hide Cached, Accounted;
    UnrefCached(s, id);
    UnrefAccounted(s, id);
    OkFrom(Unreffed(s, id), None);
  }

  lemma OkFrom(s: Shard, extra: Option<nat>)
    requires Cached(s) && Counted(s, extra) && Accounted(s)
    ensures Ok(s, extra)
  {
  }

  lemma UnrefCached(s: Shard, id: nat)
    requires Ok(s, Some(id))
    ensures Cached(Unreffed(s, id))
  {
    hide Accounted, NoRepeats;
    if s.heap[id].refs == 1 {
      assert References(s, Some(id), id) == 1;
    }
  }

  lemma UnrefAccounted(s: Shard, id: nat)
    requires Ok(s, Some(id))
    ensures Accounted(Unreffed(s, id)) && s.usage >= s.heap[id].charge
  {
    hide Cached, Total;
    var t := Unreffed(s, id);
    TotalWithout(s.heap, id, s.nextId);
    if s.heap[id].refs > 1 {
      TotalSame(s.heap, t.heap, s.nextId);
    }
  }

  ghost function Uncached(s: Shard, id: nat): Shard
    requires id in s.heap
  {
    s.(lru := Without(s.lru, id), contents := s.contents - {s.heap[id].name})
  }

  lemma UncacheOk(s: Shard, id: nat)
    requires Ok(s, None) && id in s.lru
    ensures id in s.heap && Ok(Uncached(s, id), Some(id))
  {
    hide Total, Without, NoRepeats;
    WithoutIs(s.lru, id);
    var t := Uncached(s, id);
    assert Cached(t) by { hide Counted, Accounted; }
    assert Counted(t, Some(id)) by {
      hide Cached, Accounted;
      forall x | x in t.heap ensures References(t, Some(id), x) == References(s, None, x) {
      }
    }
    hide Cached, Counted;
  }

  /** An entry leaves the cache, and goes if no client holds it. */
  ghost function Removed(s: Shard, id: nat): Shard {
    if id in s.heap && s.heap[id].refs >= 1 then Unreffed(Uncached(s, id), id) else s.(lru := Without(s.lru, id))
  }

  lemma RemoveOk(s: Shard, id: nat)
    requires Ok(s, None) && id in s.lru
    ensures Ok(Removed(s, id), None)
    ensures Removed(s, id).lru == Without(s.lru, id) && Removed(s, id).outstanding == s.outstanding
  {
    UncacheOk(s, id);
    UnrefOk(Uncached(s, id), id);
    assert s.heap[id].refs >= 1;
    hide Ok, Without;
  }

  /** The oldest entries leave, one by one, and no more of them than it takes for the charges to fit. */
  ghost function Evicted(s: Shard, capacity: nat): Shard
    decreases |s.lru|
  {
    if s.usage <= capacity || s.lru == [] then s else Evicted(Removed(s, s.lru[0]), capacity)
  }

  /** Eviction takes a run of the oldest entries, none at all while the charges fit, and touches no client's handle. */
  lemma {:induction false} EvictsOldest(s: Shard, capacity: nat) returns (k: nat)
    ensures k <= |s.lru| && Evicted(s, capacity).lru == s.lru[k..] && (k > 0 <==> s.usage > capacity && s.lru != [])
    ensures Evicted(s, capacity).outstanding == s.outstanding
    decreases |s.lru|
  {
    k := 0;
    if s.usage > capacity && s.lru != [] {
      var t := Removed(s, s.lru[0]);
      assert t.lru == s.lru[1..];
      var j := EvictsOldest(t, capacity);
      assert s.lru[1..][j..] == s.lru[j + 1..];
      k := j + 1;
    }
  }

  ghost function Touched(s: Shard, id: nat): Shard
    requires id in s.heap
  {
    s.(heap := s.heap[id := s.heap[id].(refs := s.heap[id].refs + 1)], lru := Without(s.lru, id) + [id],
       outstanding := s.outstanding + multiset{id})
  }

  lemma TouchCounted(s: Shard, id: nat)
    requires Ok(s, None) && id in s.lru
    ensures id in s.heap && Counted(Touched(s, id), None)
  {
    hide Accounted, Without;
    WithoutIs(s.lru, id);
    hide NoRepeats;
    var t := Touched(s, id);
    forall x | x in t.heap ensures References(t, None, x) == References(s, None, x) + if x == id then 1 else 0 {
    }
  }

  lemma TouchCached(s: Shard, id: nat)
    requires Ok(s, None) && id in s.lru
    ensures id in s.heap && Cached(Touched(s, id))
  {
    hide Accounted, Counted, Without;
    WithoutIs(s.lru, id);
  }

  lemma TouchAccounted(s: Shard, id: nat)
    requires Ok(s, None) && id in s.lru
    ensures id in s.heap && Accounted(Touched(s, id))
  {
    hide Total, Without, Counted, NoRepeats;
    TotalSame(s.heap, Touched(s, id).heap, s.nextId);
  }

  /** `moved` is `ids` with one element moved to the end. */
  ghost predicate MovedLast(ids: seq<nat>, id: nat, moved: seq<nat>) {
    exists i :: 0 <= i < |ids| && ids[i] == id && moved == ids[..i] + ids[i + 1..] + [id]
  }

  lemma MovesLast(ids: seq<nat>, id: nat)
    requires NoRepeats(ids) && id in ids
    ensures MovedLast(ids, id, Without(ids, id) + [id])
  {
    var i :| 0 <= i < |ids| && ids[i] == id;
    WithoutAt(ids, i);
  }

  /** A hit keeps the books, hands out a reference and makes the entry the newest; the others keep their order. */
  lemma TouchOk(s: Shard, id: nat)
    requires Ok(s, None) && id in s.lru
    ensures id in s.heap && Ok(Touched(s, id), None)
    ensures MovedLast(s.lru, id, Touched(s, id).lru) && Touched(s, id).outstanding == s.outstanding + multiset{id}
  {
    TouchCached(s, id);
    TouchCounted(s, id);
    TouchAccounted(s, id);
    OkNoRepeats(s);
    hide Ok, Cached, Counted, Accounted, Without, NoRepeats, MovedLast;
    MovesLast(s.lru, id);
    OkFrom(Touched(s, id), None);
  }

  lemma ReleaseOk(s: Shard, id: nat)
    requires Ok(s, None) && id in s.outstanding
    ensures Ok(s.(outstanding := s.outstanding - multiset{id}), Some(id))
  {
    hide Total, Cached, Accounted;
    var t := s.(outstanding := s.outstanding - multiset{id});
    forall x | x in t.heap ensures References(t, Some(id), x) == References(s, None, x) {
    }
    assert Cached(t) by { UncountedCached(s, t); }
    assert Accounted(t) by { UncountedAccounted(s, t); }
  }

  /** The list and the table do not depend on references. */
  lemma UncountedCached(s: Shard, t: Shard)
    requires Cached(s) && t.lru == s.lru && t.contents == s.contents && t.heap == s.heap
    ensures Cached(t)
  {
  }

  lemma UncountedAccounted(s: Shard, t: Shard)
    requires Accounted(s) && t.heap == s.heap && t.usage == s.usage && t.nextId == s.nextId && t.deleted == s.deleted
    ensures Accounted(t)
  {
  }

  /** A new entry, which takes the place of an older one with its name. */
  ghost function Added(s: Shard, name: Name, value: string, charge: nat): Shard {
    var id := s.nextId;
    s.(heap := s.heap[id := Handle(name, value, charge, 2)],
       lru := (if name in s.contents then Without(s.lru, s.contents[name]) else s.lru) + [id],
       contents := s.contents[name := id], usage := s.usage + charge, nextId := id + 1,
           outstanding := s.outstanding + multiset{id})
  }

  ghost function Replaced(s: Shard, name: Name): Option<nat> {
    if name in s.contents then Some(s.contents[name]) else None
  }

  /** What Insert holds before anything is evicted: the entry replaced, if any, has lost the cache's reference. */
  ghost function Placed(s: Shard, name: Name, value: string, charge: nat): Shard {
    var t, r := Added(s, name, value, charge), Replaced(s, name);
    if r.Some? && r.value in t.heap && t.heap[r.value].refs >= 1 then Unreffed(t, r.value) else t
  }

  lemma AddOk(s: Shard, name: Name, value: string, charge: nat)
    requires Ok(s, None)
    ensures Ok(Added(s, name, value, charge), Replaced(s, name))
  {
    hide *;
    AddCached(s, name, value, charge);
    AddCounted(s, name, value, charge);
    AddAccounted(s, name, value, charge);
    OkFrom(Added(s, name, value, charge), Replaced(s, name));
  }

  lemma AddCached(s: Shard, name: Name, value: string, charge: nat)
    requires Ok(s, None)
    ensures Cached(Added(s, name, value, charge))
  {
    hide Counted, Total, Without;
    if name in s.contents {
      WithoutIs(s.lru, s.contents[name]);
    }
    assert s.nextId !in s.heap;
    hide Accounted;
    var t := Added(s, name, value, charge);
    forall n | n in t.contents ensures t.contents[n] in t.lru && t.contents[n] in t.heap
        && t.heap[t.contents[n]].name == n {
      if n != name && name in s.contents {
        assert s.contents[n] != s.contents[name];
      }
    }
  }

  lemma AddCounted(s: Shard, name: Name, value: string, charge: nat)
    requires Ok(s, None)
    ensures Counted(Added(s, name, value, charge), Replaced(s, name))
  {
    hide Accounted, Without, NoRepeats;
    NextIsNew(s);
    var t, gone := Added(s, name, value, charge), Replaced(s, name);
    forall x | x in t.heap ensures References(t, gone, x) == if x == s.nextId then 2 else References(s, None, x) {
      AddReferences(s, name, value, charge, x);
    }
    hide References;
  }

  lemma NextIsNew(s: Shard)
    requires Ok(s, None)
    ensures s.nextId !in s.heap && s.nextId !in s.lru && s.nextId !in s.outstanding
  {
    hide Total, NoRepeats;
  }

  lemma AddReferences(s: Shard, name: Name, value: string, charge: nat, x: nat)
    requires Cached(s) && s.nextId !in s.lru && s.nextId !in s.outstanding && s.nextId !in s.heap
    ensures References(Added(s, name, value, charge), Replaced(s, name), x) ==
            if x == s.nextId then 2 else References(s, None, x)
  {
    hide Without;
    if name in s.contents {
      WithoutIs(s.lru, s.contents[name]);
    }
    hide NoRepeats;
  }

  lemma AddAccounted(s: Shard, name: Name, value: string, charge: nat)
    requires Ok(s, None)
    ensures Accounted(Added(s, name, value, charge))
  {
    hide Cached, Counted, Without;
    var t := Added(s, name, value, charge);
    TotalSame(s.heap, t.heap, s.nextId);
    assert Total(t.heap, t.nextId) == Total(t.heap, s.nextId) + charge;
  }

  lemma LookupFinds(s: Shard, name: Name)
    requires Ok(s, None) && name in s.contents
    ensures s.contents[name] in s.lru && s.contents[name] in s.heap
  {
  }

  /** A client gives back a handle that it holds. */
  ghost function Released(s: Shard, id: nat): Shard {
    if id in s.outstanding && id in s.heap && s.heap[id].refs >= 1
    then Unreffed(s.(outstanding := s.outstanding - multiset{id}), id) else s
  }

  /** The entry goes when neither the cache nor any client refers to it any more. */
  lemma ReleasedIs(s: Shard, id: nat)
    requires Ok(s, None) && id in s.outstanding
    ensures id in s.heap && s.heap[id].refs >= 1
    ensures var t := Released(s, id);
            && t == Unreffed(s.(outstanding := s.outstanding - multiset{id}), id)
            && t.deleted == s.deleted + if id in s.lru || id in t.outstanding then [] else [id]
  {
    hide Cached, Accounted;
    assert s.heap[id].refs == References(s, None, id);
  }

  /** The entries among `ids` that only the cache refers to leave, one by one. */
  ghost function Pruned(s: Shard, ids: seq<nat>): Shard
    decreases |ids|
  {
    if ids == [] then s
    else Pruned(if ids[0] in s.heap && s.heap[ids[0]].refs == 1 then Removed(s, ids[0]) else s, ids[1..])
  }

  lemma RemovedAt(s: Shard, kept: seq<nat>, x: nat, tail: seq<nat>)
    requires Ok(s, None) && s.lru == kept + [x] + tail
    ensures x in s.lru && Ok(Removed(s, x), None) && Removed(s, x).lru == kept + tail
    ensures Removed(s, x).outstanding == s.outstanding
  {
    hide Ok, Removed, Without;
    assert s.lru[|kept|] == x;
    RemoveOk(s, x);
    OkNoRepeats(s);
    WithoutAt(s.lru, |kept|);
    assert s.lru[..|kept|] == kept && s.lru[|kept| + 1..] == tail;
  }

  lemma {:induction false} PrunedFrom(s: Shard, kept: seq<nat>, rest: seq<nat>)
    requires Ok(s, None) && s.lru == kept + rest
    ensures var t := Pruned(s, rest);
            Ok(t, None) && t.outstanding == s.outstanding && t.lru == kept + Held(rest, s.outstanding)
    decreases |rest|
  {
    hide Ok, Removed, Held;
    if rest == [] {
      assert Held([], s.outstanding) == [] by { HeldNone(s.outstanding); }
      assert kept + [] == kept;
    } else {
      var x, tail := rest[0], rest[1..];
      assert rest == [x] + tail && kept + rest == kept + [x] + tail;
      assert s.lru[|kept|] == x;
      HeldIffReferenced(s, x);
      HeldFirst(x, tail, s.outstanding);
      if x in s.outstanding {
        PrunedFrom(s, kept + [x], tail);
        assert (kept + [x]) + Held(tail, s.outstanding) == kept + ([x] + Held(tail, s.outstanding));
      } else {
        RemovedAt(s, kept, x, tail);
        PrunedFrom(Removed(s, x), kept, tail);
        assert [] + Held(tail, s.outstanding) == Held(tail, s.outstanding);
      }
    }
  }

  lemma HeldNone(outstanding: multiset<nat>)
    ensures Held([], outstanding) == []
  {
  }

  lemma OkNoRepeats(s: Shard)
    requires Ok(s, None)
    ensures NoRepeats(s.lru)
  {
  }

  lemma PrunedIs(s: Shard)
    requires Ok(s, None)
    ensures var t := Pruned(s, s.lru);
            Ok(t, None) && t.outstanding == s.outstanding && t.lru == Held(s.lru, s.outstanding)
  {
    hide Ok, Pruned, Held;
    assert [] + s.lru == s.lru && [] + Held(s.lru, s.outstanding) == Held(s.lru, s.outstanding);
    PrunedFrom(s, [], s.lru);
  }

  // ----- whole runs -----

  datatype Call =
    | Insert(name: Name, value: string, charge: nat)
    | Lookup(name: Name)
    | Release(id: nat)
    | Erase(name: Name)
    | Prune

  ghost function Step(s: Shard, capacity: nat, c: Call): Shard {
    match c
    case Insert(name, value, charge) => Evicted(Placed(s, name, value, charge), capacity)
    case Lookup(name) => if name in s.contents && s.contents[name] in s.heap then Touched(s, s.contents[name]) else s
    case Release(id) => Released(s, id)
    case Erase(name) => if name in s.contents then Removed(s, s.contents[name]) else s
    case Prune => Pruned(s, s.lru)
  }

  ghost function Empty(): Shard {
    Shard(map[], [], map[], 0, 0, multiset{}, [])
  }

  /** What a shard holds after these calls. */
  ghost function After(capacity: nat, calls: seq<Call>): Shard {
    if calls == [] then Empty() else Step(After(capacity, calls[..|calls| - 1]), capacity, calls[|calls| - 1])
  }

  lemma AfterOne(capacity: nat, calls: seq<Call>, c: Call)
    ensures After(capacity, calls + [c]) == Step(After(capacity, calls), capacity, c)
  {
    assert (calls + [c])[..|calls|] == calls;
  }

  class LRUCache {
    const capacity: nat
    const table: HandleTable
    var usage: nat
    var lru: seq<nat>
    var heap: map<nat, Handle>
    var nextId: nat
    ghost var outstanding: multiset<nat>
    ghost var deleted: seq<nat>
    ghost var calls: seq<Call>

    ghost function Books(): Shard
      reads this, table
    {
      Shard(heap, lru, table.contents, usage, nextId, outstanding, deleted)
    }

    ghost predicate Sound()
      reads this, table
    {
      table.Valid() && Ok(Books(), None)
    }

    /** The shard holds what its calls so far have left in it. */
    ghost predicate Valid()
      reads this, table
    {
      Sound() && Books() == After(capacity, calls)
    }

    constructor (capacity: nat)
      ensures Valid() && fresh(table) && heap == map[] && outstanding == multiset{} && deleted == []
              && this.capacity == capacity && calls == []
    {
      this.capacity := capacity;
      table := new HandleTable();
      usage, lru, heap, nextId := 0, [], map[], 0;
      outstanding, deleted, calls := multiset{}, [], [];
    }

    /** Drop a reference; the last one deletes the entry. */
    method Unref(id: nat)
      requires table.Valid() && Ok(Books(), Some(id))
      modifies this
      ensures Sound() && id in old(heap) && old(heap)[id].refs >= 1 && Books() == Unreffed(old(Books()), id)
      ensures calls == old(calls)
    {
      hide Cached, Accounted, HandleTable.Valid;
      UnrefOk(Books(), id);
      var h := heap[id];
      if h.refs - 1 == 0 {
        usage := usage - h.charge;
        heap := heap - {id};
        deleted := deleted + [id];
      } else {
        heap := heap[id := h.(refs := h.refs - 1)];
      }
    }

    /** A hit hands out a handle and makes the entry the newest; the others keep their order. */
    method Lookup(name: Name) returns (r: Option<nat>)
      requires Valid()
      modifies this
      ensures Valid() && calls == old(calls) + [Call.Lookup(name)]
      ensures r == if name in table.contents then Some(table.contents[name]) else None
      ensures r.None? ==> lru == old(lru) && heap == old(heap) && outstanding == old(outstanding)
      ensures r.Some? ==> MovedLast(old(lru), r.value, lru) && outstanding == old(outstanding) + multiset{r.value}
      ensures Books() == if r.Some? && r.value in old(heap) then Touched(old(Books()), r.value) else old(Books())
    {
      hide Ok, HandleTable.Valid, Without, After, MovedLast;
      AfterOne(capacity, calls, Call.Lookup(name));
      r := table.Lookup(name);
      if r.Some? {
        LookupFinds(Books(), name);
        TouchOk(Books(), r.value);
        heap := heap[r.value := heap[r.value].(refs := heap[r.value].refs + 1)];
        lru := Without(lru, r.value) + [r.value];
        outstanding := outstanding + multiset{r.value};
      }
      calls := calls + [Call.Lookup(name)];
    }

    method Release(id: nat)
      requires Valid() && id in outstanding
      modifies this
      ensures Valid() && calls == old(calls) + [Call.Release(id)]
      ensures lru == old(lru) && table.contents == old(table.contents)
              && outstanding == old(outstanding) - multiset{id}
      ensures deleted == old(deleted) + if id in lru || id in outstanding then [] else [id]
    {
      hide Ok, HandleTable.Valid, After, Released;
      AfterOne(capacity, calls, Call.Release(id));
      ReleasedIs(Books(), id);
      ReleaseOk(Books(), id);
      outstanding := outstanding - multiset{id};
      Unref(id);
      calls := calls + [Call.Release(id)];
    }

    method Erase(name: Name)
      requires Valid()
      modifies this, table
      ensures Valid() && calls == old(calls) + [Call.Erase(name)]
      ensures table.contents == old(table.contents) - {name} && outstanding == old(outstanding)
      ensures lru == if name in old(table.contents) then Without(old(lru), old(table.contents)[name]) else old(lru)
      ensures var s, r := old(Books()), Replaced(old(Books()), name);
              Books() == if r.Some? then Removed(s, r.value) else s
    {
      hide Counted, Accounted, HandleTable.Valid, Without, After;
      AfterOne(capacity, calls, Call.Erase(name));
      ghost var s := Books();
      var r := table.Remove(name);
      if r.Some? {
        UncacheOk(s, r.value);
        lru := Without(lru, r.value);
        assert Books() == Uncached(s, r.value);
        Unref(r.value);
      } else {
        assert s.contents - {name} == s.contents;
        assert Books() == s;
      }
      calls := calls + [Call.Erase(name)];
    }

    /** Take an entry off the list and out of the table, and drop the cache's reference. */
    method Drop(i: nat)
      requires Sound() && i < |lru|
      modifies this, table
      ensures Sound() && calls == old(calls) && lru == old(lru)[..i] + old(lru)[i + 1..]
              && outstanding == old(outstanding)
      ensures Books() == Removed(old(Books()), old(lru)[i])
    {
      hide Counted, Accounted, HandleTable.Valid, Without;
      ghost var s := Books();
      var id := lru[i];
      assert id in lru;
      UncacheOk(s, id);
      WithoutAt(s.lru, i);
      lru := lru[..i] + lru[i + 1..];
      var _ := table.Remove(heap[id].name);
      assert Books() == Uncached(s, id);
      Unref(id);
    }

    /** The new entry takes the place of one with its name. */
    method Place(name: Name, value: string, charge: nat) returns (id: nat)
      requires Sound()
      modifies this, table
      ensures Sound() && calls == old(calls) && id == old(nextId) && outstanding == old(outstanding) + multiset{id}
      ensures Books() == Placed(old(Books()), name, value, charge)
    {
      hide Counted, Cached, Accounted, HandleTable.Valid, Without, Added;
      ghost var s := Books();
      ghost var t := Added(s, name, value, charge);
      AddOk(s, name, value, charge);
      id := nextId;
      AddedIs(s, name, value, charge);
      heap := heap[id := Handle(name, value, charge, 2)];
      nextId := nextId + 1;
      usage := usage + charge;
      outstanding := outstanding + multiset{id};
      var gone := table.Insert(Slot(name, id));
      lru := (if gone.Some? then Without(lru, gone.value) else lru) + [id];
      assert Books() == t;
      if gone.Some? {
        Unref(gone.value);
      }
    }

    /** The new entry replaces one with its name; then the oldest entries go until the charges fit or none is left. */
    method Insert(name: Name, value: string, charge: nat) returns (id: nat)
      requires Valid()
      modifies this, table
      ensures Valid() && calls == old(calls) + [Call.Insert(name, value, charge)]
      ensures id == old(nextId) && id in outstanding && outstanding == old(outstanding) + multiset{id}
      ensures usage <= capacity || lru == []
      ensures Books() == Evicted(Placed(old(Books()), name, value, charge), capacity)
    {
      hide Ok, HandleTable.Valid, Removed, Placed, After;
      AfterOne(capacity, calls, Call.Insert(name, value, charge));
      id := Place(name, value, charge);
      ghost var u := Books();
      while usage > capacity && lru != []
        invariant Sound() && outstanding == u.outstanding && calls == old(calls)
        invariant Evicted(Books(), capacity) == Evicted(u, capacity)
        decreases |lru|
      {
        Drop(0);
      }
      calls := calls + [Call.Insert(name, value, charge)];
    }

    /** Entries that no client holds go; the others keep their order. */
    method Prune()
      requires Valid()
      modifies this, table
      ensures Valid() && calls == old(calls) + [Call.Prune]
      ensures outstanding == old(outstanding) && lru == Held(old(lru), outstanding)
    {
      hide Ok, HandleTable.Valid, Without, Held, After, Removed;
      AfterOne(capacity, calls, Call.Prune);
      PrunedIs(Books());
      var i := 0;
      ghost var rest := lru;
      while i < |lru|
        invariant Sound() && calls == old(calls) && i <= |lru| && rest == lru[i..]
        invariant Pruned(Books(), rest) == Pruned(old(Books()), old(lru))
        decreases |rest|
      {
        assert lru[i] == rest[0] && lru[i] in lru;
        HeldIffReferenced(Books(), lru[i]);
        rest := rest[1..];
        if heap[lru[i]].refs == 1 {
          Drop(i);
        } else {
          i := i + 1;
        }
      }
      calls := calls + [Call.Prune];
    }
  }

  lemma HeldFirst(x: nat, tail: seq<nat>, outstanding: multiset<nat>)
    ensures Held([x] + tail, outstanding) == (if x in outstanding then [x] else []) + Held(tail, outstanding)
  {
    assert ([x] + tail)[1..] == tail;
  }

  lemma HeldIffReferenced(s: Shard, id: nat)
    requires Ok(s, None) && id in s.lru
    ensures id in s.heap && (s.heap[id].refs == 1 <==> id !in s.outstanding)
  {
    hide Accounted;
    assert s.heap[id].refs == References(s, None, id);
  }

  /** The handles that a client holds. */
  ghost function Held(ids: seq<nat>, outstanding: multiset<nat>): seq<nat> {
    if ids == [] then [] else (if ids[0] in outstanding then [ids[0]] else []) + Held(ids[1..], outstanding)
  }

  lemma {:induction false} WithoutAt(ids: seq<nat>, i: nat)
    requires NoRepeats(ids) && i < |ids|
    ensures Without(ids, ids[i]) == ids[..i] + ids[i + 1..]
  {
    if i > 0 {
      var rest := ids[1..];
      assert rest[i - 1] == ids[i] && NoRepeats(rest);
      WithoutAt(rest, i - 1);
      hide Without, NoRepeats;
      assert [ids[0]] + (rest[..i - 1] + rest[i..]) == ids[..i] + ids[i + 1..];
    }
  }

  lemma AddedIs(s: Shard, name: Name, value: string, charge: nat)
    ensures var id := s.nextId;
            Added(s, name, value, charge) ==
            Shard(s.heap[id := Handle(name, value, charge, 2)],
                (if name in s.contents then Without(s.lru, s.contents[name]) else s.lru) + [id],
                  s.contents[name := id], s.usage + charge, id + 1, s.outstanding + multiset{id}, s.deleted)
  {
  }
}
