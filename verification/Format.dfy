/** Internal keys and table entries: the model of db/dbformat.{h,cc}.

    The storage engine only ever compares user keys with the user comparator.  A
    run touches finitely many user keys, so this model names each one by its rank
    in the comparator's order, an `int`; ByteOrder.RankEmbeds shows that every
    finite set of byte-string keys can be numbered that way. */
module Format {

  datatype Option<+T> = None | Some(value: T)

  type UserKey = int
  type Value = string

  const NUM_LEVELS := 7
  const MAX_MEM_COMPACT_LEVEL := 2
  /** The largest sequence number that fits beside an eight-bit type. */
  const MAX_SEQUENCE: nat := 0xFF_FFFF_FFFF_FFFF

  datatype Kind = Deletion | Put

  /** One version of a user key; `sn` is its sequence number. */
  datatype Entry = Entry(user: UserKey, sn: nat, kind: Kind, value: Value)

  /** The packed (sequence, type) trailer of an internal key. */
  function Tag(e: Entry): nat {
    e.sn * 256 + if e.kind.Put? then 1 else 0
  }

  /** The internal key order: user key ascending, then tag descending. */
  predicate Before(a: Entry, b: Entry) {
    a.user < b.user || (a.user == b.user && Tag(a) > Tag(b))
  }

  predicate AtOrBefore(a: Entry, b: Entry) {
    !Before(b, a)
  }

  /** `e` precedes the lookup key (u, s, kValueTypeForSeek). */
  predicate BeforeLookup(e: Entry, u: UserKey, s: nat) {
    e.user < u || (e.user == u && Tag(e) > s * 256 + 1)
  }

  ghost predicate Sorted(xs: seq<Entry>) {
    forall i, j :: 0 <= i < j < |xs| ==> Before(xs[i], xs[j])
  }

  /** Every entry of `a` is newer than every entry of `b` with the same user key. */
  ghost predicate Newer(a: seq<Entry>, b: seq<Entry>) {
    forall x, y :: x in a && y in b && x.user == y.user ==> x.sn > y.sn
  }

  function Elements(xs: seq<Entry>): set<Entry> {
    set e | e in xs
  }

  ghost predicate UniqueSeqs(es: set<Entry>) {
    forall a, b :: a in es && b in es && a.sn == b.sn ==> a == b
  }

  /** Where the memtable's skip list would place `e` (db/memtable.cc). */
  function InsertEntry(xs: seq<Entry>, e: Entry): seq<Entry> {
    if xs == [] then [e]
    else if Before(xs[0], e) then [xs[0]] + InsertEntry(xs[1..], e)
    else [e] + xs
  }

  lemma {:induction false} InsertEntryMembers(xs: seq<Entry>, e: Entry)
    ensures forall x :: x in InsertEntry(xs, e) <==> x in xs || x == e
  {
    if xs != [] {
      InsertEntryMembers(xs[1..], e);
      assert xs == [xs[0]] + xs[1..];
    }
  }

  lemma PrependSorted(x: Entry, xs: seq<Entry>)
    requires Sorted(xs) && forall y :: y in xs ==> Before(x, y)
    ensures Sorted([x] + xs)
  {
  }

  lemma {:induction false} InsertEntrySorted(xs: seq<Entry>, e: Entry)
    requires Sorted(xs)
    requires forall x :: x in xs ==> Tag(x) != Tag(e)
    ensures Sorted(InsertEntry(xs, e))
  {
    InsertEntryMembers(xs, e);
    if xs == [] {
    } else if Before(xs[0], e) {
      InsertEntryMembers(xs[1..], e);
      InsertEntrySorted(xs[1..], e);
      PrependSorted(xs[0], InsertEntry(xs[1..], e));
    } else {
      PrependSorted(e, xs);
    }
  }

  /** What a seek to (u, s) in a sorted run of entries yields, if it belongs to u:
      the common core of MemTable::Get and of SaveValue over Table::InternalGet. */
  function SeekEntry(xs: seq<Entry>, u: UserKey, s: nat): Option<Entry> {
    if xs == [] then None
    else if BeforeLookup(xs[0], u, s) then SeekEntry(xs[1..], u, s)
    else if xs[0].user == u then Some(xs[0])
    else None
  }

  /** A seek finds the newest entry of u at or below s exactly when there is one. */
  lemma {:induction false} SeekFindsNewest(xs: seq<Entry>, u: UserKey, s: nat)
    requires Sorted(xs)
    ensures SeekEntry(xs, u, s).Some? ==>
              var e := SeekEntry(xs, u, s).value;
              && e in xs && e.user == u && e.sn <= s
              && (forall x :: x in xs && x.user == u && x.sn <= s ==> x.sn <= e.sn)
    ensures SeekEntry(xs, u, s).None? ==> forall x :: x in xs && x.user == u ==> x.sn > s
  {
    if xs != [] && BeforeLookup(xs[0], u, s) {
      SeekFindsNewest(xs[1..], u, s);
      assert xs == [xs[0]] + xs[1..];
    }
  }
}
