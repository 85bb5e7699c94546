/** Whole runs of one shard of the LRU cache: the list is ordered by last use, so what leaves was used longest ago. */
module LruRuns {
  import opened Format
  import opened HandleTables
  import opened LruCaches

  // ----- every run keeps the books -----

  lemma PlaceOk(s: Shard, name: Name, value: string, charge: nat)
    requires Ok(s, None)
    ensures Ok(Placed(s, name, value, charge), None)
    ensures Placed(s, name, value, charge).lru == Added(s, name, value, charge).lru
  {
    AddOk(s, name, value, charge);
    var t, r := Added(s, name, value, charge), Replaced(s, name);
    if r.Some? {
      UnrefOk(t, r.value);
      assert r.value in t.heap && t.heap[r.value].refs >= 1;
    }
  }

  lemma {:induction false} EvictOk(s: Shard, capacity: nat)
    requires Ok(s, None)
    ensures Ok(Evicted(s, capacity), None)
    decreases |s.lru|
  {
    hide Ok, Removed, Without;
    if s.usage > capacity && s.lru != [] {
      RemoveOk(s, s.lru[0]);
      OkNoRepeats(s);
      WithoutIs(s.lru, s.lru[0]);
      EvictOk(Removed(s, s.lru[0]), capacity);
    }
  }

  lemma StepOk(s: Shard, capacity: nat, c: Call)
    requires Ok(s, None)
    ensures Ok(Step(s, capacity, c), None)
  {
    hide Ok, Evicted, Placed, Touched, Released, Removed, Pruned;
    match c
    case Insert(name, value, charge) =>
      PlaceOk(s, name, value, charge);
      EvictOk(Placed(s, name, value, charge), capacity);
    case Lookup(name) =>
      if name in s.contents {
        LookupFinds(s, name);
        TouchOk(s, s.contents[name]);
      }
    case Release(id) =>
      if id in s.outstanding {
        ReleaseOk(s, id);
        ReleasedIs(s, id);
        UnrefOk(s.(outstanding := s.outstanding - multiset{id}), id);
      } else {
        UnheldReleased(s, id);
      }
    case Erase(name) =>
      if name in s.contents {
        LookupFinds(s, name);
        RemoveOk(s, s.contents[name]);
      }
    case Prune => PrunedIs(s);
  }

  lemma UnheldReleased(s: Shard, id: nat)
    requires id !in s.outstanding
    ensures Released(s, id) == s
  {
  }

  /** No run deletes an entry twice, loses one, miscounts a reference or the total charge. */
  lemma {:induction false} RunOk(capacity: nat, calls: seq<Call>)
    ensures Ok(After(capacity, calls), None)
  {
    if calls != [] {
      hide Ok, Step;
      var init := calls[..|calls| - 1];
      RunOk(capacity, init);
      StepOk(After(capacity, init), capacity, calls[|calls| - 1]);
    }
  }

  // ----- order of use -----

  /** The entry that a call uses: the one it inserts, or the one it finds. */
  ghost function UsedBy(s: Shard, c: Call): Option<nat> {
    if c.Insert? then Some(s.nextId)
    else if c.Lookup? && c.name in s.contents then Some(s.contents[c.name])
    else None
  }

  /** When an entry was last inserted or found: the number of calls up to then. */
  ghost function LastUse(capacity: nat, calls: seq<Call>, id: nat): nat {
    if calls == [] then 0
    else
      var init := calls[..|calls| - 1];
      if UsedBy(After(capacity, init), calls[|calls| - 1]) == Some(id) then |calls| else LastUse(capacity, init, id)
  }

  lemma {:induction false} LastUseBound(capacity: nat, calls: seq<Call>, id: nat)
    ensures LastUse(capacity, calls, id) <= |calls|
  {
    if calls != [] {
      LastUseBound(capacity, calls[..|calls| - 1], id);
    }
  }

  ghost predicate Ascending(ids: seq<nat>, use: nat -> nat) {
    forall i, j :: 0 <= i < j < |ids| ==> use(ids[i]) < use(ids[j])
  }

  lemma CutAscending(ids: seq<nat>, i: nat, use: nat -> nat)
    requires Ascending(ids, use) && i < |ids|
    ensures var cut := ids[..i] + ids[i + 1..];
            Ascending(cut, use) && forall x :: x in cut ==> x in ids && x != ids[i]
  {
  }

  lemma WithoutAscending(ids: seq<nat>, id: nat, use: nat -> nat)
    requires Ascending(ids, use)
    ensures Ascending(Without(ids, id), use) && forall x :: x in Without(ids, id) ==> x in ids && x != id
  {
    AscendingNoRepeats(ids, use);
    hide Ascending, Without, NoRepeats;
    if id in ids {
      var i :| 0 <= i < |ids| && ids[i] == id;
      WithoutAt(ids, i);
      CutAscending(ids, i, use);
    } else {
      WithoutNone(ids, id);
    }
  }

  lemma AscendingNoRepeats(ids: seq<nat>, use: nat -> nat)
    requires Ascending(ids, use)
    ensures NoRepeats(ids)
  {
  }

  lemma {:induction false} WithoutNone(ids: seq<nat>, id: nat)
    requires id !in ids
    ensures Without(ids, id) == ids
  {
    if ids != [] {
      WithoutNone(ids[1..], id);
    }
  }

  lemma FirstIsLeast(ids: seq<nat>, use: nat -> nat)
    requires Ascending(ids, use) && ids != []
    ensures Ascending(ids[1..], use) && forall x :: x in ids[1..] ==> use(ids[0]) < use(x)
  {
  }

  lemma PrependAscending(first: nat, ids: seq<nat>, use: nat -> nat)
    requires Ascending(ids, use) && forall x :: x in ids ==> use(first) < use(x)
    ensures Ascending([first] + ids, use)
  {
    assert forall k :: 0 <= k < |ids| ==> ids[k] in ids;
  }

  lemma {:induction false} HeldAscending(ids: seq<nat>, outstanding: multiset<nat>, use: nat -> nat)
    requires Ascending(ids, use)
    ensures Ascending(Held(ids, outstanding), use) && forall x :: x in Held(ids, outstanding) ==> x in ids
  {
    if ids != [] {
      hide Ascending;
      FirstIsLeast(ids, use);
      HeldAscending(ids[1..], outstanding, use);
      PrependAscending(ids[0], Held(ids[1..], outstanding), use);
      assert [] + Held(ids[1..], outstanding) == Held(ids[1..], outstanding);
    }
  }

  /** The uses after a call at time t. */
  function Bumped(use: nat -> nat, used: Option<nat>, t: nat): nat -> nat {
    x => if used == Some(x) then t else use(x)
  }

  lemma AppendAscending(ids: seq<nat>, id: nat, use: nat -> nat, t: nat)
    requires Ascending(ids, use) && id !in ids && forall x :: use(x) < t
    ensures Ascending(ids + [id], Bumped(use, Some(id), t))
  {
    var all, bumped := ids + [id], Bumped(use, Some(id), t);
    forall i, j | 0 <= i < j < |all| ensures bumped(all[i]) < bumped(all[j]) {
      assert ids[i] in ids;
      assert j < |ids| ==> ids[j] in ids;
    }
  }

  lemma UnusedAscending(ids: seq<nat>, use: nat -> nat, t: nat)
    requires Ascending(ids, use)
    ensures Ascending(ids, Bumped(use, None, t))
  {
  }

  lemma SuffixAscending(ids: seq<nat>, k: nat, use: nat -> nat)
    requires Ascending(ids, use) && k <= |ids|
    ensures Ascending(ids[k..], use)
  {
  }

  lemma InsertAscending(s: Shard, capacity: nat, c: Call, use: nat -> nat, t: nat)
    requires Ok(s, None) && Ascending(s.lru, use) && c.Insert? && forall x :: use(x) < t
    ensures Ascending(Placed(s, c.name, c.value, c.charge).lru, Bumped(use, Some(s.nextId), t))
    ensures Ascending(Step(s, capacity, c).lru, Bumped(use, Some(s.nextId), t))
  {
    hide Ok, Without, Ascending, Placed, Evicted;
    PlaceOk(s, c.name, c.value, c.charge);
    NextIsNew(s);
    var p := Placed(s, c.name, c.value, c.charge);
    if c.name in s.contents {
      WithoutAscending(s.lru, s.contents[c.name], use);
      AppendAscending(Without(s.lru, s.contents[c.name]), s.nextId, use, t);
    } else {
      AppendAscending(s.lru, s.nextId, use, t);
    }
    var k := EvictsOldest(p, capacity);
    SuffixAscending(p.lru, k, Bumped(use, Some(s.nextId), t));
  }

  lemma LookupAscending(s: Shard, capacity: nat, c: Call, use: nat -> nat, t: nat)
    requires Ok(s, None) && Ascending(s.lru, use) && c.Lookup? && forall x :: use(x) < t
    ensures Ascending(Step(s, capacity, c).lru, Bumped(use, UsedBy(s, c), t))
  {
    hide Ok, Without, Ascending;
    if c.name in s.contents {
      LookupFinds(s, c.name);
      WithoutAscending(s.lru, s.contents[c.name], use);
      AppendAscending(Without(s.lru, s.contents[c.name]), s.contents[c.name], use, t);
    } else {
      UnusedAscending(s.lru, use, t);
    }
  }

  lemma ReleasedList(s: Shard, id: nat)
    ensures Released(s, id).lru == s.lru
  {
  }

  /** Every call keeps the list in order of use. */
  lemma StepAscending(s: Shard, capacity: nat, c: Call, use: nat -> nat, t: nat)
    requires Ok(s, None) && Ascending(s.lru, use) && forall x :: use(x) < t
    ensures Ascending(Step(s, capacity, c).lru, Bumped(use, UsedBy(s, c), t))
  {
    hide Ok, Ascending, Without, Placed, Evicted, Touched, Released, Removed, Pruned, Held;
    match c
    case Insert(name, value, charge) => InsertAscending(s, capacity, c, use, t);
    case Lookup(name) => LookupAscending(s, capacity, c, use, t);
    case Release(id) =>
      ReleasedList(s, id);
      UnusedAscending(s.lru, use, t);
    case Erase(name) =>
      if name in s.contents {
        LookupFinds(s, name);
        RemoveOk(s, s.contents[name]);
        WithoutAscending(s.lru, s.contents[name], use);
      }
      UnusedAscending(Step(s, capacity, c).lru, use, t);
    case Prune =>
      PrunedIs(s);
      HeldAscending(s.lru, s.outstanding, use);
      UnusedAscending(Held(s.lru, s.outstanding), use, t);
  }

  ghost function Uses(capacity: nat, calls: seq<Call>): nat -> nat {
    id => LastUse(capacity, calls, id)
  }

  lemma SameAscending(ids: seq<nat>, f: nat -> nat, g: nat -> nat)
    requires Ascending(ids, f) && forall x :: f(x) == g(x)
    ensures Ascending(ids, g)
  {
  }

  lemma UsesNext(capacity: nat, calls: seq<Call>)
    requires calls != []
    ensures var init := calls[..|calls| - 1];
            forall x :: Bumped(Uses(capacity, init), UsedBy(After(capacity, init), calls[|calls| - 1]), |calls|)(x)
                        == Uses(capacity, calls)(x)
  {
    hide UsedBy, After;
  }

  lemma UsesBefore(capacity: nat, calls: seq<Call>, t: nat)
    requires |calls| < t
    ensures forall x :: Uses(capacity, calls)(x) < t
  {
    forall x ensures Uses(capacity, calls)(x) < t {
      LastUseBound(capacity, calls, x);
    }
  }

  lemma {:induction false} RunAscending(capacity: nat, calls: seq<Call>)
    ensures Ascending(After(capacity, calls).lru, Uses(capacity, calls))
  {
    if calls != [] {
      hide Ok, Step, UsedBy, Ascending, Uses, Bumped;
      var init, c := calls[..|calls| - 1], calls[|calls| - 1];
      var s, use := After(capacity, init), Uses(capacity, init);
      RunAscending(capacity, init);
      RunOk(capacity, init);
      UsesBefore(capacity, init, |calls|);
      StepAscending(s, capacity, c, use, |calls|);
      UsesNext(capacity, calls);
      SameAscending(After(capacity, calls).lru, Bumped(use, UsedBy(s, c), |calls|), Uses(capacity, calls));
    }
  }

  /** After any calls the list runs from the entry used longest ago to the one used last. */
  lemma ListIsInOrderOfUse(capacity: nat, calls: seq<Call>, i: nat, j: nat)
    requires i < j < |After(capacity, calls).lru|
    ensures LastUse(capacity, calls, After(capacity, calls).lru[i]) < LastUse(capacity, calls,
            After(capacity, calls).lru[j])
  {
    RunAscending(capacity, calls);
    assert Uses(capacity, calls)(After(capacity, calls).lru[i]) < Uses(capacity, calls)(After(capacity, calls).lru[j]);
  }

  /** What an insertion evicts was used longer ago than everything that stays. */
  lemma EvictsLeastRecentlyUsed(capacity: nat, calls: seq<Call>, x: nat, y: nat)
    requires calls != [] && calls[|calls| - 1].Insert?
    requires var before := After(capacity, calls[..|calls| - 1]);
             x in before.lru && Replaced(before, calls[|calls| - 1].name) != Some(x)
    requires x !in After(capacity, calls).lru && y in After(capacity, calls).lru
    ensures LastUse(capacity, calls, x) < LastUse(capacity, calls, y)
  {
    hide Ok, Without, Placed, Evicted, LastUse, Ascending, Bumped;
    var init, c := calls[..|calls| - 1], calls[|calls| - 1];
    var s, use := After(capacity, init), Uses(capacity, init);
    RunAscending(capacity, init);
    RunOk(capacity, init);
    UsesBefore(capacity, init, |calls|);
    InsertAscending(s, capacity, c, use, |calls|);
    UsesNext(capacity, calls);
    var p := Placed(s, c.name, c.value, c.charge);
    SameAscending(p.lru, Bumped(use, Some(s.nextId), |calls|), Uses(capacity, calls));
    var k := EvictsOldest(p, capacity);
    StaysPlaced(s, c, x);
    PrefixBeforeSuffix(p.lru, k, x, y, Uses(capacity, calls));
  }

  lemma StaysPlaced(s: Shard, c: Call, x: nat)
    requires Ok(s, None) && c.Insert? && x in s.lru && Replaced(s, c.name) != Some(x)
    ensures x in Placed(s, c.name, c.value, c.charge).lru
  {
    hide Ok, Without, Placed;
    PlaceOk(s, c.name, c.value, c.charge);
    OkNoRepeats(s);
    if c.name in s.contents {
      WithoutIs(s.lru, s.contents[c.name]);
    }
  }

  lemma PrefixBeforeSuffix(ids: seq<nat>, k: nat, x: nat, y: nat, use: nat -> nat)
    requires Ascending(ids, use) && k <= |ids| && x in ids && x !in ids[k..] && y in ids[k..]
    ensures use(x) < use(y)
  {
    var i :| 0 <= i < |ids| && ids[i] == x;
    assert forall m :: k <= m < |ids| ==> ids[k..][m - k] == ids[m];
  }

  /** The k oldest entries left. */
  ghost function WithoutOldest(s: Shard, k: nat): Shard
    decreases k
  {
    if k == 0 || s.lru == [] then s else WithoutOldest(Removed(s, s.lru[0]), k - 1)
  }

  /** An insertion evicts one entry at a time, oldest first, and stops as soon as the charges fit. */
  lemma {:induction false} EvictsNoMore(s: Shard, capacity: nat) returns (k: nat)
    ensures k <= |s.lru| && Evicted(s, capacity) == WithoutOldest(s, k)
    ensures WithoutOldest(s, k).usage <= capacity || WithoutOldest(s, k).lru == []
    ensures forall j: nat :: j < k ==> WithoutOldest(s, j).usage > capacity
    decreases |s.lru|
  {
    k := 0;
    if s.usage > capacity && s.lru != [] {
      var t := Removed(s, s.lru[0]);
      assert t.lru == s.lru[1..];
      var n := EvictsNoMore(t, capacity);
      k := n + 1;
      forall j: nat | j < k ensures WithoutOldest(s, j).usage > capacity {
        assert j > 0 ==> WithoutOldest(s, j) == WithoutOldest(t, j - 1);
      }
    }
  }

  // ----- what a hit returns -----

  /** The last value inserted under a name and not erased since. */
  ghost function LastInserted(calls: seq<Call>, name: Name): Option<string> {
    if calls == [] then None
    else
      var c := calls[|calls| - 1];
      if c.Insert? && c.name == name then Some(c.value)
      else if c.Erase? && c.name == name then None
      else LastInserted(calls[..|calls| - 1], name)
  }

  /** Nothing new is cached, and what is left is as it was, but for its references. */
  ghost predicate Keeps(a: Shard, b: Shard) {
    && (forall n :: n in b.contents ==> n in a.contents && b.contents[n] == a.contents[n])
    && (forall id :: id in b.heap ==> id in a.heap && SameEntry(a.heap[id], b.heap[id]))
  }

  ghost predicate SameEntry(a: Handle, b: Handle) {
    a.name == b.name && a.value == b.value && a.charge == b.charge
  }

  lemma RemovedKeeps(s: Shard, id: nat)
    ensures Keeps(s, Removed(s, id))
  {
  }

  lemma {:induction false} EvictedKeeps(s: Shard, capacity: nat)
    ensures Keeps(s, Evicted(s, capacity))
    decreases |s.lru|
  {
    if s.usage > capacity && s.lru != [] {
      RemovedKeeps(s, s.lru[0]);
      assert Removed(s, s.lru[0]).lru == s.lru[1..];
      hide Removed;
      EvictedKeeps(Removed(s, s.lru[0]), capacity);
    }
  }

  lemma {:induction false} PrunedKeeps(s: Shard, ids: seq<nat>)
    ensures Keeps(s, Pruned(s, ids))
    decreases |ids|
  {
    hide Removed;
    if ids != [] {
      RemovedKeeps(s, ids[0]);
      PrunedKeeps(if ids[0] in s.heap && s.heap[ids[0]].refs == 1 then Removed(s, ids[0]) else s, ids[1..]);
    }
  }

  lemma TouchedKeeps(s: Shard, id: nat)
    requires id in s.heap
    ensures Keeps(s, Touched(s, id))
  {
    hide Without;
  }

  lemma ReleasedKeeps(s: Shard, id: nat)
    ensures Keeps(s, Released(s, id))
  {
  }

  lemma SameKeeps(s: Shard)
    ensures Keeps(s, s)
  {
  }

  lemma StepKeeps(s: Shard, capacity: nat, c: Call)
    requires !c.Insert?
    ensures Keeps(s, Step(s, capacity, c))
  {
    hide Removed, Pruned, Touched, Released, Keeps;
    SameKeeps(s);
    match c
    case Lookup(name) =>
      if name in s.contents && s.contents[name] in s.heap {
        TouchedKeeps(s, s.contents[name]);
      }
    case Release(id) => ReleasedKeeps(s, id);
    case Erase(name) =>
      if name in s.contents {
        RemovedKeeps(s, s.contents[name]);
      }
    case Prune => PrunedKeeps(s, s.lru);
  }

  lemma EraseErases(s: Shard, capacity: nat, name: Name, value: string)
    requires Ok(s, None)
    ensures !Caches(Step(s, capacity, Erase(name)), name, value)
  {
    if name in s.contents {
      LookupFinds(s, name);
      assert s.heap[s.contents[name]].refs >= 1;
    }
  }

  ghost predicate Caches(s: Shard, name: Name, value: string) {
    name in s.contents && s.contents[name] in s.heap && s.heap[s.contents[name]].value == value
  }

  lemma AddedCaches(s: Shard, c: Call, name: Name, value: string)
    requires Ok(s, None) && c.Insert? && Caches(Added(s, c.name, c.value, c.charge), name, value)
    ensures if name == c.name then value == c.value else Caches(s, name, value)
  {
    NextIsNew(s);
    if name != c.name && name in s.contents {
      LookupFinds(s, name);
    }
    hide Ok, Without;
  }

  lemma PlacedKeeps(s: Shard, c: Call)
    requires c.Insert?
    ensures Keeps(Added(s, c.name, c.value, c.charge), Placed(s, c.name, c.value, c.charge))
  {
    hide Added;
  }

  lemma KeepsCaches(a: Shard, b: Shard, name: Name, value: string)
    requires Keeps(a, b) && Caches(b, name, value)
    ensures Caches(a, name, value)
  {
  }

  lemma StepCaches(s: Shard, capacity: nat, c: Call, name: Name, value: string)
    requires Ok(s, None) && Caches(Step(s, capacity, c), name, value)
    ensures if c.Insert? && name == c.name then value == c.value else Caches(s, name, value)
    ensures !(c.Erase? && name == c.name)
  {
    hide Ok, Evicted, Placed, Added, Keeps, Caches;
    if c.Insert? {
      var p := Placed(s, c.name, c.value, c.charge);
      EvictedKeeps(p, capacity);
      KeepsCaches(p, Evicted(p, capacity), name, value);
      PlacedKeeps(s, c);
      KeepsCaches(Added(s, c.name, c.value, c.charge), p, name, value);
      AddedCaches(s, c, name, value);
    } else {
      hide Step;
      StepKeeps(s, capacity, c);
      KeepsCaches(s, Step(s, capacity, c), name, value);
      if c.Erase? && c.name == name {
        EraseErases(s, capacity, name, value);
      }
    }
  }

  lemma {:induction false} RunCaches(capacity: nat, calls: seq<Call>, name: Name, value: string)
    requires Caches(After(capacity, calls), name, value)
    ensures LastInserted(calls, name) == Some(value)
  {
    if calls != [] {
      hide Ok, Step, Caches;
      var init, c := calls[..|calls| - 1], calls[|calls| - 1];
      RunOk(capacity, init);
      StepCaches(After(capacity, init), capacity, c, name, value);
      if !(c.Insert? && name == c.name) {
        RunCaches(capacity, init, name, value);
      }
    }
  }

  /** Whatever was evicted, a hit finds the value inserted last under its name, and never one that was erased. */
  lemma HitIsLastInserted(capacity: nat, calls: seq<Call>, name: Name)
    requires name in After(capacity, calls).contents
    ensures var s := After(capacity, calls);
            s.contents[name] in s.heap && LastInserted(calls, name) == Some(s.heap[s.contents[name]].value)
  {
    hide Ok, After, LastInserted;
    var s := After(capacity, calls);
    RunOk(capacity, calls);
    LookupFinds(s, name);
    RunCaches(capacity, calls, name, s.heap[s.contents[name]].value);
  }
}
