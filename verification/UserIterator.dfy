/** db/db_iter.cc: the iterator users see is a cursor over the sorted list of visible user keys. */
module UserIterator {
  import opened Format
  import opened Cursors
  import opened Visibility

  /** Entry i is what a reader at sequence number s sees of its user key: the newest one at or below s, and a value. */
  ghost predicate IsShown(xs: seq<Entry>, s: nat, i: nat)
    requires i < |xs|
  {
    xs[i].sn <= s && xs[i].kind.Put? && forall j :: 0 <= j < i && xs[j].user == xs[i].user ==> xs[j].sn > s
  }

  /** The shown entries among the first n. */
  ghost function Shown(xs: seq<Entry>, s: nat, n: nat): seq<Entry>
    requires n <= |xs|
  {
    if n == 0 then [] else Shown(xs, s, n - 1) + if IsShown(xs, s, n - 1) then [xs[n - 1]] else []
  }

  ghost function AllShown(xs: seq<Entry>, s: nat): seq<Entry> {
    Shown(xs, s, |xs|)
  }

  /** The first position of a list with a user key at or after u. */
  ghost function UserBound(es: seq<Entry>, u: UserKey): nat {
    if es == [] || es[0].user >= u then 0 else 1 + UserBound(es[1..], u)
  }

  lemma {:induction false} ShownPrefix(xs: seq<Entry>, s: nat, m: nat, n: nat)
    requires m <= n <= |xs|
    ensures |Shown(xs, s, m)| <= |Shown(xs, s, n)| && Shown(xs, s, n)[..|Shown(xs, s, m)|] == Shown(xs, s, m)
    decreases n - m
  {
    if m < n {
      ShownPrefix(xs, s, m, n - 1);
    }
  }

  /** Nothing shown in [m, n): the counts agree. */
  lemma {:induction false} ShownGap(xs: seq<Entry>, s: nat, m: nat, n: nat)
    requires m <= n <= |xs| && forall i :: m <= i < n ==> !IsShown(xs, s, i)
    ensures Shown(xs, s, n) == Shown(xs, s, m)
    decreases n - m
  {
    if m < n {
      ShownGap(xs, s, m, n - 1);
    }
  }

  /** The shown entry at i sits at its count in the list of all shown entries. */
  lemma ShownAt(xs: seq<Entry>, s: nat, i: nat)
    requires i < |xs| && IsShown(xs, s, i)
    ensures |Shown(xs, s, i)| < |AllShown(xs, s)| && AllShown(xs, s)[|Shown(xs, s, i)|] == xs[i]
  {
    ShownPrefix(xs, s, i + 1, |xs|);
    assert AllShown(xs, s)[..|Shown(xs, s, i + 1)|][|Shown(xs, s, i)|] == xs[i];
  }

  lemma {:induction false} UserBoundIs(es: seq<Entry>, u: UserKey, b: nat)
    requires b <= |es| && (forall i :: 0 <= i < b ==> es[i].user < u) && (b < |es| ==> es[b].user >= u)
    ensures UserBound(es, u) == b
  {
    if b > 0 {
      UserBoundIs(es[1..], u, b - 1);
    }
  }

  /** Shown entries come from the list, in order. */
  lemma {:induction false} ShownMember(xs: seq<Entry>, s: nat, n: nat, k: nat) returns (i: nat)
    requires n <= |xs| && k < |Shown(xs, s, n)|
    ensures i < n && IsShown(xs, s, i) && Shown(xs, s, n)[k] == xs[i] && |Shown(xs, s, i)| == k
    decreases n
  {
    if k < |Shown(xs, s, n - 1)| {
      i := ShownMember(xs, s, n - 1, k);
    } else {
      i := n - 1;
    }
  }

  /** An internal seek to (u, s) lands where the user list is sought to u. */
  lemma SeekCounts(xs: seq<Entry>, s: nat, u: UserKey, p: nat)
    requires Sorted(xs) && p <= |xs|
    requires forall i :: 0 <= i < p ==> BeforeLookup(xs[i], u, s)
    requires forall i :: p <= i < |xs| ==> !BeforeLookup(xs[i], u, s)
    ensures UserBound(AllShown(xs, s), u) == |Shown(xs, s, p)|
  {
    var all, b := AllShown(xs, s), |Shown(xs, s, p)|;
    ShownPrefix(xs, s, p, |xs|);
    forall k | 0 <= k < b ensures all[k].user < u {
      var i := ShownMember(xs, s, p, k);
      assert all[..b][k] == all[k];
    }
    if b < |all| {
      var i := ShownMember(xs, s, |xs|, b);
      if i < p {
        ShownPrefix(xs, s, i + 1, p);
      }
    }
    UserBoundIs(all, u, b);
  }

  class DBIter {
    const sequence: nat
    var iter: Cursor
    var forward: bool
    var valid: bool
    var savedKey: UserKey
    var savedValue: Value
    /** The inner position of the entry shown now, when valid. */
    ghost var at: nat

    ghost predicate Valid()
      reads this
    {
      && Sorted(iter.xs) && iter.pos <= |iter.xs|
      && (valid ==> at < |iter.xs| && IsShown(iter.xs, sequence, at))
      && (valid && forward ==> iter.pos == at)
      && (valid && !forward ==> savedKey == iter.xs[at].user && savedValue == iter.xs[at].value && JustBefore(iter, at))
    }

    /** Moving backward: the inner iterator stands at the last readable entry of a smaller user key, if any. */
    ghost predicate JustBefore(it: Cursor, a: nat)
      reads this
    {
      && it.pos <= |it.xs| && a < |it.xs|
      && (it.Valid() ==> it.pos < a && it.xs[it.pos].user < it.xs[a].user)
      && (forall i :: (if it.Valid() then it.pos + 1 else 0) <= i < a ==> it.xs[i].sn > sequence)
    }

    /** The abstract value: a cursor over the visible user keys. */
    ghost function View(): Cursor
      reads this
    {
      Cursor(AllShown(iter.xs, sequence), if valid
          && at <= |iter.xs| then |Shown(iter.xs, sequence, at)| else |AllShown(iter.xs, sequence)|)
    }

    constructor (iter: Cursor, s: nat)
      requires Sorted(iter.xs) && iter.pos <= |iter.xs|
      ensures Valid() && this.iter == iter && sequence == s
              && View() == Cursor(AllShown(iter.xs, s), |AllShown(iter.xs, s)|)
    {
      this.iter, sequence, forward, valid, savedKey, savedValue, at := iter, s, true, false, 0, "", 0;
    }

    method IsValid() returns (b: bool)
      requires Valid()
      ensures b <==> View().Valid()
    {
      b := valid;
      if valid {
        ShownAt(iter.xs, sequence, at);
      }
    }

    method KeyValue() returns (key: UserKey, value: Value)
      requires Valid() && View().Valid()
      ensures key == View().Current().user && value == View().Current().value
    {
      ShownAt(iter.xs, sequence, at);
      key := if forward then iter.Current().user else savedKey;
      value := if forward then iter.Current().value else savedValue;
    }

    /** Scans forward from the inner position for the first shown entry at index `lo` or later. */
    method FindNextUserEntry(skipping: bool, skip: UserKey, ghost lo: nat)
      requires Sorted(iter.xs) && iter.Valid() && forward && lo <= |iter.xs|
      requires Scanning(iter.xs, sequence, iter.pos, lo, skipping, skip)
      modifies this`iter, this`valid, this`savedKey, this`at
      ensures Valid() && iter.xs == old(iter.xs)
      ensures View() == Cursor(AllShown(iter.xs, sequence), |Shown(iter.xs, sequence, lo)|)
    {
      hide Scanning, IsShown, Shown, Sorted;
      var hiding, hidden := skipping, skip;
      ghost var xs := iter.xs;
      while iter.Valid()
        invariant iter.xs == xs && iter.pos <= |xs| && forward
        invariant Scanning(xs, sequence, iter.pos, lo, hiding, hidden)
        decreases |xs| - iter.pos
      {
        var e := iter.Current();
        ghost var p := iter.pos;
        if e.sn <= sequence && e.kind.Deletion? {
          ScanMarker(xs, sequence, p, lo, hiding, hidden);
          hiding, hidden := true, e.user;
        } else if e.sn <= sequence && !(hiding && e.user <= hidden) {
          ScanFinds(xs, sequence, p, lo, hiding, hidden);
          valid := true;
          savedKey := 0;
          at := p;
          return;
        } else {
          ScanPasses(xs, sequence, p, lo, hiding, hidden);
        }
        iter := iter.Next();
      }
      savedKey := 0;
      valid := false;
      ScanMisses(xs, sequence, lo, hiding, hidden);
    }

    method Next()
      requires Valid() && View().Valid()
      modifies this
      ensures Valid() && iter.xs == old(iter.xs) && View() == old(View()).Next()
    {
      hide IsShown, Shown, AllShown, Scanning, Sorted;
      ghost var xs, a := iter.xs, at;
      if !forward {
        forward := true;
        if !iter.Valid() {
          iter := iter.SeekToFirst();
        } else {
          iter := iter.Next();
        }
        // The code returns invalid if nothing lies ahead, but the current entry always does.
        assert iter.Valid();
      } else {
        savedKey := iter.Current().user;
      }
      NextScans(xs, sequence, iter.pos, a);
      FindNextUserEntry(true, savedKey, a + 1);
    }

    method SeekToFirst()
      requires Valid()
      modifies this
      ensures Valid() && iter.xs == old(iter.xs) && View() == old(View()).SeekToFirst()
    {
      forward := true;
      savedValue := "";
      iter := iter.SeekToFirst();
      if iter.Valid() {
        FindNextUserEntry(false, 0, 0);
      } else {
        valid := false;
      }
    }

    method Seek(target: UserKey)
      requires Valid()
      modifies this
      ensures Valid() && iter.xs == old(iter.xs)
      ensures View() == Cursor(old(View()).xs, UserBound(old(View()).xs, target))
    {
      forward := true;
      savedValue := "";
      var lookup := Entry(target, sequence, Put, "");
      LowerBoundIs(iter.xs, lookup);
      iter := iter.Seek(lookup);
      SeekCounts(iter.xs, sequence, target, iter.pos);
      if iter.Valid() {
        FindNextUserEntry(false, 0, iter.pos);
      } else {
        valid := false;
      }
    }

    method Prev()
      requires Valid() && View().Valid()
      modifies this
      ensures Valid() && iter.xs == old(iter.xs) && View() == old(View()).Prev()
    {
      ghost var xs, a := iter.xs, at;
      ShownAt(xs, sequence, a);
      if forward {
        savedKey := iter.Current().user;
        while true
          invariant iter.xs == xs && iter.pos < |xs| && iter.pos <= a && savedKey == xs[a].user
          invariant forall i :: iter.pos <= i <= a ==> xs[i].user == savedKey
          decreases iter.pos
        {
          iter := iter.Prev();
          if !iter.Valid() {
            valid := false;
            savedKey := 0;
            savedValue := "";
            NothingBefore(xs, sequence, 0, a);
            return;
          }
          if iter.Current().user < savedKey {
            break;
          }
        }
        forward := false;
      }
      FindPrevUserEntry(a);
    }

    method SeekToLast()
      requires Valid()
      modifies this
      ensures Valid() && iter.xs == old(iter.xs) && View() == old(View()).SeekToLast()
    {
      forward := false;
      savedValue := "";
      iter := iter.SeekToLast();
      FindPrevUserEntry(|iter.xs|);
    }

    /** Scans backward for the last shown entry before index `hi`. */
    method FindPrevUserEntry(ghost hi: nat)
      requires Sorted(iter.xs) && iter.pos <= |iter.xs| && !forward
      requires hi <= |iter.xs| && ScanningBack(iter.xs, sequence, if iter.Valid() then iter.pos + 1 else 0, hi, None)
      modifies this
      ensures Valid() && iter.xs == old(iter.xs)
      ensures View() == Cursor(AllShown(iter.xs, sequence),
                               if |Shown(iter.xs, sequence, hi)| == 0 then |AllShown(iter.xs, sequence)|
                               else |Shown(iter.xs, sequence, hi)| - 1)
    {
      hide IsShown, Shown, ScanningBack, Sorted;
      ghost var xs := iter.xs;
      var kind := Deletion;
      ghost var saved: Option<nat> := None;
      while iter.Valid()
        invariant iter.xs == xs && iter.pos <= |xs| && !forward
        invariant saved.Some? <==> kind.Put?
        invariant saved.Some? ==> && saved.value < |xs| && savedKey == xs[saved.value].user
                                  && savedValue == xs[saved.value].value
        invariant ScanningBack(xs, sequence, if iter.Valid() then iter.pos + 1 else 0, hi, saved)
        decreases if iter.Valid() then iter.pos + 1 else 0
      {
        var e := iter.Current();
        ghost var p := iter.pos;
        if e.sn <= sequence {
          if kind.Put? && e.user < savedKey {
            break;
          }
          ScanBackReads(xs, sequence, p, hi, saved);
          kind := e.kind;
          if kind.Deletion? {
            savedKey, savedValue, saved := 0, "", None;
          } else {
            savedKey, savedValue, saved := e.user, e.value, Some(p);
          }
        } else {
          ScanBackPasses(xs, sequence, p, hi, saved);
        }
        iter := iter.Prev();
      }
      if kind.Deletion? {
        valid, savedKey, savedValue, forward := false, 0, "", true;
        ScanBackMisses(xs, sequence, hi);
      } else {
        valid := true;
        at := saved.value;
        ScanBackFinds(xs, sequence, if iter.Valid() then iter.pos + 1 else 0, hi, at);
      }
    }
  }

  lemma NextScans(xs: seq<Entry>, s: nat, p: nat, a: nat)
    requires Sorted(xs) && a < |xs| && IsShown(xs, s, a) && p <= a
    requires forall i :: p <= i < a ==> xs[i].sn > s
    ensures Scanning(xs, s, p, a + 1, true, xs[a].user) && |Shown(xs, s, a + 1)| == |Shown(xs, s, a)| + 1
  {
    forall j | a + 1 <= j < |xs| ensures Before(xs[a], xs[j]) { }
    forall j | a + 1 <= j < |xs| && xs[j].user > xs[a].user ensures NoneReadable(xs, s, p, xs[j].user) {
      assert forall i :: 0 <= i < a ==> Before(xs[i], xs[a]);
    }
  }

  /** Entries of the current user key before the shown one are unreadable, so nothing is shown there. */
  lemma NothingBefore(xs: seq<Entry>, s: nat, p: nat, a: nat)
    requires Sorted(xs) && p <= a < |xs| && IsShown(xs, s, a) && forall i :: p <= i <= a ==> xs[i].user == xs[a].user
    ensures Shown(xs, s, a) == Shown(xs, s, p)
  {
    ShownGap(xs, s, p, a);
  }

  /** The state of the backward scan that has read everything from p up to `hi`; `saved` is the newest readable
      value of the key read last, if no marker hides it. */
  ghost predicate ScanningBack(xs: seq<Entry>, s: nat, p: nat, hi: nat, saved: Option<nat>) {
    && p <= hi <= |xs|
    && (saved.None? ==> forall j :: p <= j < hi ==> !IsShown(xs, s, j))
    && (saved.Some? ==>
          && p <= saved.value < hi && xs[saved.value].sn <= s && xs[saved.value].kind.Put?
          && (forall j :: p <= j < saved.value ==> xs[j].sn > s)
          && (forall j :: saved.value < j < hi ==> !IsShown(xs, s, j)))
  }

  lemma ScanBackReads(xs: seq<Entry>, s: nat, p: nat, hi: nat, saved: Option<nat>)
    requires Sorted(xs) && p < |xs| && ScanningBack(xs, s, p + 1, hi, saved) && xs[p].sn <= s
    requires saved.Some? ==> xs[p].user >= xs[saved.value].user
    ensures ScanningBack(xs, s, p, hi, if xs[p].kind.Put? then Some(p) else None)
  {
    if saved.Some? {
      assert Before(xs[p], xs[saved.value]);
      assert !IsShown(xs, s, saved.value);
    }
  }

  lemma ScanBackPasses(xs: seq<Entry>, s: nat, p: nat, hi: nat, saved: Option<nat>)
    requires p < |xs| && ScanningBack(xs, s, p + 1, hi, saved) && xs[p].sn > s
    ensures ScanningBack(xs, s, p, hi, saved)
  {
  }

  lemma ScanBackMisses(xs: seq<Entry>, s: nat, hi: nat)
    requires ScanningBack(xs, s, 0, hi, None)
    ensures hi <= |xs| && Shown(xs, s, hi) == []
  {
    ShownGap(xs, s, 0, hi);
  }

  lemma ScanBackFinds(xs: seq<Entry>, s: nat, p: nat, hi: nat, a: nat)
    requires Sorted(xs) && ScanningBack(xs, s, p, hi, Some(a)) && a < |xs| && p <= |xs|
             && (p > 0 ==> xs[p - 1].user < xs[a].user)
    ensures IsShown(xs, s, a) && |Shown(xs, s, hi)| == |Shown(xs, s, a)| + 1
    ensures p <= a && forall j :: p <= j < a ==> xs[j].sn > s
  {
    assert forall i :: 0 <= i < p ==> xs[i].user <= xs[p - 1].user;
    ShownGap(xs, s, a + 1, hi);
  }

  /** The state of the forward scan at p, looking for the first shown entry at `lo` or later: what it will pass
      over is not wanted, and what it will not hide has nothing readable of its key behind it. */
  ghost predicate Scanning(xs: seq<Entry>, s: nat, p: nat, lo: nat, hiding: bool, hidden: UserKey) {
    && p <= |xs| && lo <= |xs|
    && (forall j :: p <= j < lo ==> Passed(xs, s, j, hiding, hidden) && (xs[j].kind.Put? || xs[j].sn > s))
    && (forall j :: p <= j < |xs| && lo <= j && hiding && xs[j].user <= hidden ==> !IsShown(xs, s, j))
    && (forall j :: p <= j < |xs| && lo <= j && !(hiding && xs[j].user <= hidden) ==>
       NoneReadable(xs, s, p, xs[j].user))
    && (forall j :: lo <= j < p ==> !IsShown(xs, s, j))
  }

  ghost predicate Passed(xs: seq<Entry>, s: nat, j: nat, hiding: bool, hidden: UserKey)
    requires j < |xs|
  {
    xs[j].sn > s || (hiding && xs[j].user <= hidden)
  }

  ghost predicate NoneReadable(xs: seq<Entry>, s: nat, p: nat, u: UserKey)
    requires p <= |xs|
  {
    forall i :: 0 <= i < p && xs[i].user == u ==> xs[i].sn > s
  }

  lemma ScanMarker(xs: seq<Entry>, s: nat, p: nat, lo: nat, hiding: bool, hidden: UserKey)
    requires Sorted(xs) && p < |xs| && Scanning(xs, s, p, lo, hiding, hidden) && xs[p].sn <= s && xs[p].kind.Deletion?
    ensures Scanning(xs, s, p + 1, lo, true, xs[p].user)
  {
    forall j | p + 1 <= j < |xs| ensures Before(xs[p], xs[j]) { }
    assert lo <= p;
    forall j | p + 1 <= j < |xs| && lo <= j && xs[j].user > xs[p].user ensures NoneReadable(xs, s, p + 1, xs[j].user) {
      assert forall i :: 0 <= i <= p ==> xs[i].user <= xs[p].user;
    }
  }

  lemma ScanPasses(xs: seq<Entry>, s: nat, p: nat, lo: nat, hiding: bool, hidden: UserKey)
    requires Sorted(xs) && p < |xs| && Scanning(xs, s, p, lo, hiding, hidden) && Passed(xs, s, p, hiding, hidden)
    ensures Scanning(xs, s, p + 1, lo, hiding, hidden)
  {
  }

  lemma ScanMisses(xs: seq<Entry>, s: nat, lo: nat, hiding: bool, hidden: UserKey)
    requires Scanning(xs, s, |xs|, lo, hiding, hidden)
    ensures lo <= |xs| && AllShown(xs, s) == Shown(xs, s, lo)
  {
    ShownGap(xs, s, lo, |xs|);
  }

  lemma ScanFinds(xs: seq<Entry>, s: nat, p: nat, lo: nat, hiding: bool, hidden: UserKey)
    requires Sorted(xs) && p < |xs| && Scanning(xs, s, p, lo, hiding, hidden)
    requires xs[p].sn <= s && xs[p].kind.Put? && !(hiding && xs[p].user <= hidden)
    ensures lo <= |xs| && IsShown(xs, s, p) && Shown(xs, s, p) == Shown(xs, s, lo)
  {
    assert lo <= p;
    ShownGap(xs, s, lo, p);
  }

  // ----- the list of shown entries is the visible database -----

  /** Shown user keys are strictly ascending. */
  lemma ShownAscends(xs: seq<Entry>, s: nat, k: nat, m: nat)
    requires Sorted(xs) && k < m < |AllShown(xs, s)|
    ensures AllShown(xs, s)[k].user < AllShown(xs, s)[m].user
  {
    var i := ShownMember(xs, s, |xs|, k);
    var j := ShownMember(xs, s, |xs|, m);
    if j <= i {
      ShownPrefix(xs, s, j, i);
    }
    assert Before(xs[i], xs[j]);
  }

  /** A user key is in the list, with its value, if and only if it is visible at s. */
  lemma ShownIsVisible(xs: seq<Entry>, s: nat, u: UserKey, v: Value)
    requires Sorted(xs) && UniqueSeqs(Elements(xs))
    ensures (exists e :: e in AllShown(xs, s) && e.user == u && e.value == v) <==>
            Visible(Elements(xs), u, s) == Some(v)
  {
    if e :| e in AllShown(xs, s) && e.user == u && e.value == v {
      var k :| 0 <= k < |AllShown(xs, s)| && AllShown(xs, s)[k] == e;
      var i := ShownMember(xs, s, |xs|, k);
      ShownIsNewest(xs, s, i);
      VisibleIs(Elements(xs), e, u, s);
    }
    if Visible(Elements(xs), u, s) == Some(v) {
      var n :| IsNewest(Elements(xs), n, u, s);
      VisibleIs(Elements(xs), n, u, s);
      var i :| 0 <= i < |xs| && xs[i] == n;
      forall j | 0 <= j < i && xs[j].user == u ensures xs[j].sn > s {
        assert xs[j] in Elements(xs) && Before(xs[j], xs[i]);
      }
      ShownAt(xs, s, i);
      assert n in AllShown(xs, s);
    }
  }

  lemma ShownIsNewest(xs: seq<Entry>, s: nat, i: nat)
    requires Sorted(xs) && i < |xs| && IsShown(xs, s, i)
    ensures IsNewest(Elements(xs), xs[i], xs[i].user, s)
  {
    forall x | x in Elements(xs) && x.user == xs[i].user && x.sn <= s ensures x.sn <= xs[i].sn {
      var j :| 0 <= j < |xs| && xs[j] == x;
      assert j > i ==> Before(xs[i], xs[j]);
    }
  }
}
