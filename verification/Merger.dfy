/** table/merger.cc: a merging iterator is a cursor over the sorted union of its children. */
module Merging {
  import opened Format
  import opened Cursors

  /** `merged` is the sorted union of children that share no key. */
  ghost predicate IsMerge(children: seq<Cursor>, merged: seq<Entry>) {
    && Sorted(merged)
    && (forall i :: 0 <= i < |children| ==> Sorted(children[i].xs))
    && (forall i, e :: 0 <= i < |children| && e in children[i].xs ==> e in merged)
    && (forall e :: e in merged ==> exists i :: 0 <= i < |children| && e in children[i].xs)
    && (forall i, j, e :: 0 <= i < j < |children| && e in children[i].xs ==> e !in children[j].xs)
  }

  /** How many entries of a child come before position c of the merge. */
  ghost function Below(xs: seq<Entry>, merged: seq<Entry>, c: nat): nat {
    if c < |merged| then LowerBound(xs, merged[c]) else |xs|
  }

  /** Moving forward at c: every child stands at its first entry at or after merged[c]. */
  ghost predicate ForwardAt(children: seq<Cursor>, merged: seq<Entry>, c: nat) {
    c <= |merged| && forall i :: 0 <= i < |children| ==> children[i].pos == Below(children[i].xs, merged, c)
  }

  /** Moving backward, with c entries at or before the position: every child stands at its last one. */
  ghost predicate BackwardAt(children: seq<Cursor>, merged: seq<Entry>, c: nat) {
    c <= |merged| && forall i :: 0 <= i < |children| ==>
      children[i].pos == if Below(children[i].xs, merged, c) == 0 then |children[i].xs|
          else Below(children[i].xs, merged, c) - 1
  }

  lemma BelowIs(children: seq<Cursor>, merged: seq<Entry>, i: nat, c: nat)
    requires IsMerge(children, merged) && i < |children| && c <= |merged|
    ensures var xs, b := children[i].xs, Below(children[i].xs, merged, c);
            b <= |xs| && forall j :: 0 <= j < |xs| ==> (j < b <==> xs[j] in merged[..c])
  {
    var xs := children[i].xs;
    if c < |merged| {
      LowerBoundIs(xs, merged[c]);
    }
    forall j | 0 <= j < |xs| ensures j < Below(xs, merged, c) <==> xs[j] in merged[..c] {
      InPrefix(merged, xs[j], c);
    }
  }

  lemma InPrefix(merged: seq<Entry>, e: Entry, c: nat)
    requires Sorted(merged) && e in merged && c <= |merged|
    ensures c < |merged| ==> (e in merged[..c] <==> Before(e, merged[c]))
    ensures c == |merged| ==> e in merged[..c]
  {
    var k :| 0 <= k < |merged| && merged[k] == e;
    assert k < c ==> merged[..c][k] == e;
    assert forall m :: 0 <= m < c ==> merged[..c][m] == merged[m];
  }

  lemma NoTies(merged: seq<Entry>, e: Entry, c: nat)
    requires Sorted(merged) && e in merged && c < |merged| && !Before(e, merged[c]) && !Before(merged[c], e)
    ensures e == merged[c]
  {
    var k :| 0 <= k < |merged| && merged[k] == e;
  }

  lemma BelowUnique(children: seq<Cursor>, merged: seq<Entry>, i: nat, c: nat, b: nat)
    requires IsMerge(children, merged) && i < |children| && c <= |merged| && b <= |children[i].xs|
    requires forall j :: 0 <= j < |children[i].xs| ==> (j < b <==> children[i].xs[j] in merged[..c])
    ensures Below(children[i].xs, merged, c) == b
  {
    var xs := children[i].xs;
    forall j | 0 <= j < |xs|
      ensures c < |merged| ==> (Before(xs[j], merged[c]) <==> j < b)
      ensures c == |merged| ==> j < b
    {
      InPrefix(merged, xs[j], c);
    }
    if c < |merged| {
      LowerBoundUnique(xs, merged[c], b);
    } else {
      assert |xs| > 0 ==> xs[|xs| - 1] in merged[..c];
    }
  }

  /** The child that owns merged[c] is the only one whose count changes between c and c + 1. */
  lemma OwnerAdvances(children: seq<Cursor>, merged: seq<Entry>, c: nat, o: nat, i: nat)
    requires IsMerge(children, merged) && c < |merged| && i < |children| && o < |children|
             && merged[c] in children[o].xs
    ensures Below(children[i].xs, merged, c + 1) == Below(children[i].xs, merged, c) + if i == o then 1 else 0
    ensures var b := Below(children[o].xs, merged, c); b < |children[o].xs| && children[o].xs[b] == merged[c]
  {
    var xs, b := children[i].xs, Below(children[i].xs, merged, c);
    BelowIs(children, merged, i, c);
    var own := children[o].xs;
    var k :| 0 <= k < |own| && own[k] == merged[c];
    LowerBoundOfMember(own, k);
    var b' := if i == o then b + 1 else b;
    forall j | 0 <= j < |xs| ensures j < b' <==> xs[j] in merged[..c + 1] {
      assert merged[..c + 1] == merged[..c] + [merged[c]];
      if i == o {
        LowerBoundOfMember(xs, j);
      } else {
        assert xs[j] != merged[c];
      }
    }
    BelowUnique(children, merged, i, c + 1, b');
  }

  lemma Owner(children: seq<Cursor>, merged: seq<Entry>, c: nat) returns (o: nat)
    requires IsMerge(children, merged) && c < |merged|
    ensures o < |children| && merged[c] in children[o].xs
    ensures var b := Below(children[o].xs, merged, c); b < |children[o].xs| && children[o].xs[b] == merged[c]
  {
    assert merged[c] in merged;
    o :| 0 <= o < |children| && merged[c] in children[o].xs;
    OwnerAdvances(children, merged, c, o, o);
  }

  /** A seek of every child positions them all at the seek of the merge. */
  lemma SeekAligns(children: seq<Cursor>, merged: seq<Entry>, t: Entry, i: nat)
    requires IsMerge(children, merged) && i < |children|
    ensures LowerBound(merged, t) <= |merged|
    ensures LowerBound(children[i].xs, t) == Below(children[i].xs, merged, LowerBound(merged, t))
  {
    var xs, c := children[i].xs, LowerBound(merged, t);
    LowerBoundIs(merged, t);
    LowerBoundIs(xs, t);
    var b := LowerBound(xs, t);
    forall j | 0 <= j < |xs| ensures j < b <==> xs[j] in merged[..c] {
      assert xs[j] in merged;
      var k :| 0 <= k < |merged| && merged[k] == xs[j];
      assert k < c ==> merged[..c][k] == xs[j];
      assert forall m :: 0 <= m < c ==> merged[..c][m] == merged[m];
    }
    BelowUnique(children, merged, i, c, b);
  }

  class MergingIterator {
    var children: seq<Cursor>
    /** The child that yields the current entry, if any. */
    var current: Option<nat>
    var forward: bool
    ghost const merged: seq<Entry>

    /** The children stand where the direction wants them, around position c of the merge. */
    ghost predicate At(c: nat)
      reads this
    {
      && c < |merged| && current.Some? && current.value < |children| && children[current.value].Valid()
      && children[current.value].Current() == merged[c]
      && (if forward then ForwardAt(children, merged, c) else BackwardAt(children, merged, c + 1))
    }

    ghost predicate Valid()
      reads this
    {
      IsMerge(children, merged) && (current.Some? ==> exists c :: At(c))
    }

    /** The abstract value: a cursor over the merge. */
    ghost function View(): Cursor
      reads this
    {
      Cursor(merged, if current.Some? && current.value < |children| && children[current.value].Valid()
                     then LowerBound(merged, children[current.value].Current()) else |merged|)
    }

    lemma ViewIs(c: nat)
      requires Valid() && At(c)
      ensures View() == Cursor(merged, c)
    {
      LowerBoundOfMember(merged, c);
    }

    lemma Position() returns (c: nat)
      requires Valid() && current.Some?
      ensures At(c) && View() == Cursor(merged, c)
    {
      c :| At(c);
      ViewIs(c);
    }

    constructor (children: seq<Cursor>, ghost merged: seq<Entry>)
      requires IsMerge(children, merged)
      ensures Valid() && View() == Cursor(merged, |merged|) && this.merged == merged
    {
      this.children, this.merged, current, forward := children, merged, None, true;
    }

    method IsValid() returns (valid: bool)
      requires Valid()
      ensures valid <==> View().Valid()
    {
      valid := current.Some?;
      if valid {
        ghost var c := Position();
      }
    }

    method Key() returns (e: Entry)
      requires Valid() && View().Valid()
      ensures e == View().Current()
    {
      ghost var c := Position();
      e := children[current.value].Current();
    }

    /** Picks the first child with the smallest key. */
    method FindSmallest(ghost c: nat)
      requires IsMerge(children, merged) && ForwardAt(children, merged, c) && forward
      modifies this`current
      ensures Valid() && View() == Cursor(merged, c)
    {
      current := None;
      for i := 0 to |children|
        invariant forward && IsMerge(children, merged) && ForwardAt(children, merged, c)
        invariant current.Some? ==> current.value < i && children[current.value].Valid()
        invariant current.None? ==> forall j :: 0 <= j < i ==> !children[j].Valid()
        invariant current.Some? ==> forall j :: 0 <= j < i && children[j].Valid() ==>
                    !Before(children[j].Current(), children[current.value].Current())
      {
        if children[i].Valid() {
          if current.None? || Before(children[i].Current(), children[current.value].Current()) {
            current := Some(i);
          }
        }
      }
      SmallestIs(c);
    }

    lemma SmallestIs(c: nat)
      requires IsMerge(children, merged) && ForwardAt(children, merged, c) && forward
      requires current.Some? ==> current.value < |children| && children[current.value].Valid()
      requires current.None? ==> forall j :: 0 <= j < |children| ==> !children[j].Valid()
      requires current.Some? ==> forall j :: 0 <= j < |children| && children[j].Valid() ==>
                 !Before(children[j].Current(), children[current.value].Current())
      ensures Valid() && View() == Cursor(merged, c)
    {
      if c < |merged| {
        var o := Owner(children, merged, c);
        BelowIs(children, merged, current.value, c);
        var e := children[current.value].Current();
        InPrefix(merged, e, c);
        assert At(c) by { NoTies(merged, e, c); }
        ViewIs(c);
      }
    }

    method FindLargest(ghost c: nat)
      requires IsMerge(children, merged) && BackwardAt(children, merged, c) && !forward
      modifies this`current
      ensures Valid() && View() == Cursor(merged, if c == 0 then |merged| else c - 1)
    {
      current := None;
      for i := |children| downto 0
        invariant !forward && IsMerge(children, merged) && BackwardAt(children, merged, c)
        invariant current.Some? ==> i <= current.value < |children| && children[current.value].Valid()
        invariant current.None? ==> forall j :: i <= j < |children| ==> !children[j].Valid()
        invariant current.Some? ==> forall j :: i <= j < |children| && children[j].Valid() ==>
                    !Before(children[current.value].Current(), children[j].Current())
      {
        if children[i].Valid() {
          if current.None? || Before(children[current.value].Current(), children[i].Current()) {
            current := Some(i);
          }
        }
      }
      LargestIs(c);
    }

    lemma LargestIs(c: nat)
      requires IsMerge(children, merged) && BackwardAt(children, merged, c) && !forward
      requires current.Some? ==> current.value < |children| && children[current.value].Valid()
      requires current.None? ==> forall j :: 0 <= j < |children| ==> !children[j].Valid()
      requires current.Some? ==> forall j :: 0 <= j < |children| && children[j].Valid() ==>
                 !Before(children[current.value].Current(), children[j].Current())
      ensures Valid() && View() == Cursor(merged, if c == 0 then |merged| else c - 1)
    {
      if c > 0 {
        var o := Owner(children, merged, c - 1);
        OwnerAdvances(children, merged, c - 1, o, o);
        BelowIs(children, merged, current.value, c);
        var e := children[current.value].Current();
        InPrefix(merged, e, c - 1);
        assert merged[..c] == merged[..c - 1] + [merged[c - 1]];
        assert At(c - 1) by { NoTies(merged, e, c - 1); }
        ViewIs(c - 1);
      } else {
        if current.Some? {
          BelowIs(children, merged, current.value, 0);
        }
      }
    }

    method SeekToFirst()
      requires Valid()
      modifies this`children, this`current, this`forward
      ensures Valid() && View() == old(View()).SeekToFirst()
    {
      for i := 0 to |children|
        invariant SameLists(old(children), children) && forall j :: 0 <= j < i ==> children[j].pos == 0
      {
        children := children[i := children[i].SeekToFirst()];
      }
      SameMerge(old(children), children, merged);
      forall i | 0 <= i < |children| ensures Below(children[i].xs, merged, 0) == 0 {
        BelowUnique(children, merged, i, 0, 0);
      }
      forward := true;
      FindSmallest(0);
    }

    method SeekToLast()
      requires Valid()
      modifies this`children, this`current, this`forward
      ensures Valid() && View() == old(View()).SeekToLast()
    {
      for i := 0 to |children|
        invariant SameLists(old(children), children)
        invariant forall j :: 0 <= j < i ==> children[j] == Cursor(children[j].xs, |children[j].xs|).SeekToLast()
      {
        children := children[i := children[i].SeekToLast()];
      }
      SameMerge(old(children), children, merged);
      assert BackwardAt(children, merged, |merged|);
      forward := false;
      FindLargest(|merged|);
    }

    method Seek(t: Entry)
      requires Valid()
      modifies this`children, this`current, this`forward
      ensures Valid() && View() == old(View()).Seek(t)
    {
      for i := 0 to |children|
        invariant SameLists(old(children), children)
        invariant forall j :: 0 <= j < i ==> children[j].pos == LowerBound(children[j].xs, t)
      {
        children := children[i := children[i].Seek(t)];
      }
      SameMerge(old(children), children, merged);
      forall i | 0 <= i < |children| ensures children[i].pos == Below(children[i].xs, merged, LowerBound(merged, t)) {
        SeekAligns(children, merged, t, i);
      }
      LowerBoundIs(merged, t);
      forward := true;
      FindSmallest(LowerBound(merged, t));
    }

    method Next()
      requires Valid() && View().Valid()
      modifies this`children, this`current, this`forward
      ensures Valid() && View() == old(View()).Next()
    {
      ghost var c := Position();
      if !forward {
        SwitchToForward(c);
      }
      ghost var before := children;
      var o := current.value;
      children := children[o := children[o].Next()];
      SameMerge(before, children, merged);
      forall i | 0 <= i < |children| ensures children[i].pos == Below(children[i].xs, merged, c + 1) {
        OwnerAdvances(before, merged, c, o, i);
      }
      FindSmallest(c + 1);
    }

    method Prev()
      requires Valid() && View().Valid()
      modifies this`children, this`current, this`forward
      ensures Valid() && View() == old(View()).Prev()
    {
      ghost var c := Position();
      if forward {
        SwitchToReverse(c);
      }
      ghost var before := children;
      var o := current.value;
      children := children[o := children[o].Prev()];
      SameMerge(before, children, merged);
      forall i | 0 <= i < |children|
        ensures children[i].pos == if Below(children[i].xs, merged, c) == 0 then |children[i].xs|
                else Below(children[i].xs, merged, c) - 1
      {
        OwnerAdvances(before, merged, c, o, i);
      }
      FindLargest(c);
    }

    /** After moving backward, the other children have to be put just after the current key again. */
    method SwitchToForward(ghost c: nat)
      requires Valid() && At(c) && !forward
      modifies this`children, this`forward
      ensures IsMerge(children, merged) && forward && At(c)
    {
      var o := current.value;
      var key := children[o].Current();
      for i := 0 to |children|
        invariant SameLists(old(children), children) && children[o] == old(children[o])
        invariant forall j :: 0 <= j < i && j != o ==> children[j].pos == LowerBound(children[j].xs, key)
      {
        if i != o {
          var child := children[i].Seek(key);
          if child.Valid() && !Before(key, child.Current()) && !Before(child.Current(), key) {
            child := child.Next();
          }
          NotInOther(old(children), merged, o, i, key);
          children := children[i := child];
        }
      }
      SameMerge(old(children), children, merged);
      OwnerAdvances(old(children), merged, c, o, o);
      forward := true;
    }

    /** After moving forward, the other children have to be put just before the current key again. */
    method SwitchToReverse(ghost c: nat)
      requires Valid() && At(c) && forward
      modifies this`children, this`forward
      ensures IsMerge(children, merged) && !forward && At(c)
    {
      var o := current.value;
      var key := children[o].Current();
      for i := 0 to |children|
        invariant SameLists(old(children), children) && children[o] == old(children[o])
        invariant forall j :: 0 <= j < i && j != o ==>
          children[j].pos == if LowerBound(children[j].xs, key) == 0 then |children[j].xs|
              else LowerBound(children[j].xs, key) - 1
      {
        if i != o {
          LowerBoundIs(children[i].xs, key);
          var child := children[i].Seek(key);
          if child.Valid() {
            child := child.Prev();
          } else {
            child := child.SeekToLast();
          }
          children := children[i := child];
        }
      }
      SameMerge(old(children), children, merged);
      forall i | 0 <= i < |children|
        ensures children[i].pos == if Below(children[i].xs, merged, c + 1) == 0 then |children[i].xs|
                else Below(children[i].xs, merged, c + 1) - 1
      {
        OwnerAdvances(old(children), merged, c, o, i);
      }
      forward := false;
    }
  }

  ghost predicate SameLists(a: seq<Cursor>, b: seq<Cursor>) {
    |a| == |b| && forall i :: 0 <= i < |a| ==> a[i].xs == b[i].xs
  }

  lemma SameMerge(a: seq<Cursor>, b: seq<Cursor>, merged: seq<Entry>)
    requires SameLists(a, b) && IsMerge(a, merged)
    ensures IsMerge(b, merged)
  {
    forall e | e in merged ensures exists i :: 0 <= i < |b| && e in b[i].xs {
      var i :| 0 <= i < |a| && e in a[i].xs;
      assert e in b[i].xs;
    }
  }

  /** No other child has an entry that compares equal to the current key. */
  lemma NotInOther(children: seq<Cursor>, merged: seq<Entry>, o: nat, i: nat, key: Entry)
    requires IsMerge(children, merged) && o < |children| && i < |children| && i != o && key in children[o].xs
    ensures forall j :: 0 <= j < |children[i].xs| ==> Before(key, children[i].xs[j]) || Before(children[i].xs[j], key)
  {
    forall j | 0 <= j < |children[i].xs| ensures Before(key, children[i].xs[j]) || Before(children[i].xs[j], key) {
      var e := children[i].xs[j];
      assert e in children[i].xs && e in merged && key in merged && e != key;
      var k :| 0 <= k < |merged| && merged[k] == key;
      var m :| 0 <= m < |merged| && merged[m] == e;
      assert k < m || m < k;
    }
  }
}
