/** The meaning of a database: a set of entries read at a sequence number. */
module Visibility {
  import opened Format

  ghost predicate IsNewest(es: set<Entry>, e: Entry, u: UserKey, s: nat) {
    && e in es && e.user == u && e.sn <= s
    && forall x :: x in es && x.user == u && x.sn <= s ==> x.sn <= e.sn
  }

  function Reading(e: Entry): Option<Value> {
    if e.kind.Put? then Some(e.value) else None
  }

  /** What a reader at sequence number s must see for u. */
  ghost function Visible(es: set<Entry>, u: UserKey, s: nat): Option<Value> {
    if exists e :: IsNewest(es, e, u, s)
    then var e :| IsNewest(es, e, u, s); Reading(e)
    else None
  }

  lemma VisibleIs(es: set<Entry>, e: Entry, u: UserKey, s: nat)
    requires UniqueSeqs(es) && IsNewest(es, e, u, s)
    ensures Visible(es, u, s) == Reading(e)
  {
  }

  /** What was written up to x is the same. */
  ghost predicate SameUpTo(a: set<Entry>, b: set<Entry>, x: nat) {
    forall e: Entry :: e.sn <= x ==> (e in a <==> e in b)
  }

  lemma SameReading(a: set<Entry>, b: set<Entry>, u: UserKey, x: nat)
    requires SameUpTo(a, b, x) && UniqueSeqs(a)
    ensures Visible(b, u, x) == Visible(a, u, x)
  {
    assert forall e :: IsNewest(a, e, u, x) <==> IsNewest(b, e, u, x);
  }

  ghost predicate Through(es: set<Entry>, last: nat) {
    UniqueSeqs(es) && forall e :: e in es ==> e.sn <= last
  }

  /** A new entry is what a reader of its key sees next, and no reader of another key sees a difference. */
  lemma VisibleAfterWrite(es: set<Entry>, last: nat, e: Entry, u: UserKey)
    requires Through(es, last) && last < e.sn
    ensures Through(es + {e}, e.sn)
    ensures Visible(es + {e}, u, e.sn)
            == if e.user != u then Visible(es, u, last) else if e.kind.Put? then Some(e.value) else None
  {
    if e.user == u {
      VisibleIs(es + {e}, e, u, e.sn);
    } else {
      assert forall y :: IsNewest(es, y, u, last) <==> IsNewest(es + {e}, y, u, e.sn);
    }
  }

  lemma VisibleBeyond(es: set<Entry>, last: nat, x: nat, u: UserKey)
    requires Through(es, last) && last <= x
    ensures Through(es, x) && Visible(es, u, x) == Visible(es, u, last)
  {
    assert forall y :: IsNewest(es, y, u, last) <==> IsNewest(es, y, u, x);
  }

  lemma {:induction false} NewestExists(es: set<Entry>, x: Entry, s: nat) returns (e: Entry)
    requires x in es && x.sn <= s
    ensures IsNewest(es, e, x.user, s)
    decreases s - x.sn
  {
    if y :| y in es && y.user == x.user && x.sn < y.sn <= s {
      e := NewestExists(es, y, s);
    } else {
      e := x;
    }
  }

  /** An entry that some newer entry of its key hides from every reader at or above `snap`. */
  ghost predicate Hidden(inputs: set<Entry>, e: Entry, snap: nat) {
    exists h :: h in inputs && h.user == e.user && e.sn < h.sn <= snap
  }

  /** A deletion marker that no reader needs, if nothing older of its key is left below. */
  ghost predicate Obsolete(e: Entry, snap: nat, base: iset<UserKey>) {
    e.kind.Deletion? && e.sn <= snap && e.user in base
  }

  ghost predicate Survives(inputs: set<Entry>, e: Entry, snap: nat, base: iset<UserKey>) {
    !Hidden(inputs, e, snap) && !Obsolete(e, snap, base)
  }

  ghost function Dropped(inputs: set<Entry>, snap: nat, base: iset<UserKey>): set<Entry> {
    set e | e in inputs && !Survives(inputs, e, snap, base)
  }

  /** `r` is the newest entry left outside the inputs that the obsolete marker `n`, which
      some reader at or above `snap` can reach, has been masking. */
  ghost predicate Unmasks(all: set<Entry>, inputs: set<Entry>, snap: nat, n: Entry, r: Entry) {
    && n in inputs && !Hidden(all, n, snap)
    && r in all && r !in inputs && r.user == n.user && r.sn < n.sn
    && forall x :: x in all && x !in inputs && x.user == n.user && x.sn < n.sn ==> x.sn <= r.sn
  }

  /** No dropped marker unmasks a value. */
  ghost predicate UnmasksNoValue(all: set<Entry>, inputs: set<Entry>, snap: nat, base: iset<UserKey>) {
    forall n, r :: Unmasks(all, inputs, snap, n, r) && Obsolete(n, snap, base) ==> r.kind.Deletion?
  }

  lemma DropMarkerKeepsReading(all: set<Entry>, inputs: set<Entry>, snap: nat, base: iset<UserKey>, n: Entry, s: nat)
    requires UniqueSeqs(all) && inputs <= all && s >= snap
    requires UnmasksNoValue(all, inputs, snap, base)
    requires IsNewest(all, n, n.user, s) && n in inputs && Obsolete(n, snap, base)
    ensures Visible(all - Dropped(inputs, snap, base), n.user, s) == None
  {
    var rest := all - Dropped(inputs, snap, base);
    forall x | x in rest && x.user == n.user && x.sn <= s ensures x !in inputs && x.sn < n.sn {
      assert x in inputs && x != n ==> Hidden(inputs, x, snap);
    }
    if r :| IsNewest(rest, r, n.user, s) {
      assert Unmasks(all, inputs, snap, n, r) by {
        forall x | x in all && x !in inputs && x.user == n.user && x.sn < n.sn ensures x.sn <= r.sn {
          assert x in rest;
        }
      }
      VisibleIs(rest, r, n.user, s);
    }
  }

  /** One reader: dropping entries changes nothing it sees, if no value is unmasked. */
  lemma DropKeepsReading(all: set<Entry>, inputs: set<Entry>, snap: nat, base: iset<UserKey>, u: UserKey, s: nat)
    requires UniqueSeqs(all) && inputs <= all && s >= snap
    requires UnmasksNoValue(all, inputs, snap, base)
    ensures Visible(all - Dropped(inputs, snap, base), u, s) == Visible(all, u, s)
  {
    var rest := all - Dropped(inputs, snap, base);
    if n :| IsNewest(all, n, u, s) {
      VisibleIs(all, n, u, s);
      if n in rest {
        assert IsNewest(rest, n, u, s);
        VisibleIs(rest, n, u, s);
      } else {
        DropMarkerKeepsReading(all, inputs, snap, base, n, s);
      }
    } else if r :| IsNewest(rest, r, u, s) {
      var e := NewestExists(all, r, s);
    }
  }

  /** Compaction keeps every reading at or above `snap` if and only if it unmasks no value. */
  lemma DropPreservesVisible(all: set<Entry>, inputs: set<Entry>, snap: nat, base: iset<UserKey>)
    requires UniqueSeqs(all) && inputs <= all
    ensures (forall u, s: nat :: s >= snap ==>
               Visible(all - Dropped(inputs, snap, base), u, s) == Visible(all, u, s))
            <==> UnmasksNoValue(all, inputs, snap, base)
  {
    var rest := all - Dropped(inputs, snap, base);
    if UnmasksNoValue(all, inputs, snap, base) {
      forall u, s: nat | s >= snap ensures Visible(rest, u, s) == Visible(all, u, s) {
        DropKeepsReading(all, inputs, snap, base, u, s);
      }
    } else {
      var n, r :| Unmasks(all, inputs, snap, n, r) && Obsolete(n, snap, base) && r.kind.Put?;
      assert IsNewest(all, n, n.user, snap);
      VisibleIs(all, n, n.user, snap);
      assert IsNewest(rest, r, n.user, snap) by {
        forall x | x in rest && x.user == n.user && x.sn <= snap ensures x.sn <= r.sn {
          assert x in inputs && x.sn < n.sn ==> Hidden(inputs, x, snap);
        }
      }
      VisibleIs(rest, r, n.user, snap);
    }
  }
}
