/** A compaction may end in the middle of a user key: its first input level keeps, in a file that is no input, older
    entries of the key with which an input ends.  This module says exactly when that makes a read go wrong. */
module SplitKeys {
  import opened Format
  import opened Visibility
  import opened Version
  import opened ReadPath
  import opened Compactions
  import opened LevelEdits
  import opened Install

  /** At or above `snap`, the search that stops at the first hit finds the newest entry. */
  ghost predicate ReadsNewest(v: Levels, snap: nat) {
    forall e, s: nat :: s >= snap && FirstHit(v, e, s) ==> IsNewest(LevelEntries(v), e, e.user, s)
  }

  /** The newest input entry of its user key. */
  ghost predicate IsHead(p: Pending, n: Entry) {
    n in InputEntries(p) && forall x :: x in InputEntries(p) && x.user == n.user ==> x.sn <= n.sn
  }

  /** Outputs that keep the newest input entry of every user key of which they keep anything. */
  ghost predicate KeepsHeads(p: Pending, outputs: seq<Table>) {
    && OutputsFromInputs(p, outputs)
    && forall n, y :: IsHead(p, n) && y in Flatten(outputs) && y.user == n.user ==> n in Flatten(outputs)
  }

  /** Of every user key that is cut in two, the outputs hold nothing that a reader at or above `snap` can reach. */
  ghost predicate SplitsAreHidden(v: Levels, p: Pending, outputs: seq<Table>) {
    forall f, g, n ::
      SplitBoundary(v, p, p.level, f, g) && IsHead(p, n) && n.user == Largest(f).user && n in Flatten(outputs) ==>
        Hidden(LevelEntries(v), n, p.snap)
  }

  // ----- hidden splits do no harm -----

  /** An entry of v that is newer than the head of its key is in no input, so it stays where it is. */
  lemma NewerStays(v: Levels, p: Pending, outputs: seq<Table>, n: Entry, h: Entry) returns (k: nat, q: Table)
    requires Placed(v, p) && IsHead(p, n) && h in LevelEntries(v) && h.user == n.user && h.sn > n.sn
    ensures k < NUM_LEVELS && q in v[k] && h in q.entries && !IsInput(p, k, q) && q in Installed(v, p, outputs)[k]
  {
    var l, f :| 0 <= l < NUM_LEVELS && f in v[l] && h in f.entries;
    k, q := l, f;
    assert h !in InputEntries(p);
    InstalledMembers(v, p, outputs, k, q);
  }

  /** What a read finds at the first input level, beside a split whose head is hidden. */
  lemma HiddenHead(v: Levels, p: Pending, outputs: seq<Table>, f: Table, e: Entry, s: nat, n: Entry)
    requires LevelsOk(v) && Placed(v, p) && s >= p.snap && HitAt(Installed(v, p, outputs), p.level, e, s)
    requires f in v[p.level] && IsInput(p, p.level, f) && Largest(f).user == e.user
    requires IsHead(p, n) && n.user == e.user && Hidden(LevelEntries(v), n, p.snap)
    ensures n.sn < e.sn
  {
    hide LevelZeroOrdered, SortedLevels, NoGap, MeetsHull, FlushedSince, LevelZeroClosed, LevelEntries, Newer;
    var h :| h in LevelEntries(v) && h.user == n.user && n.sn < h.sn <= p.snap;
    var k, q := NewerStays(v, p, outputs, n, h);
    assert f in p.in0 + p.in1 && Largest(f) in f.entries;
    assert Largest(f) in InputEntries(p);
    if k > p.level {
      NewerApplies(f.entries, q.entries, Largest(f), h);
    }
  }

  /** The first hit is at least as new as an entry one level of the installed version further down. */
  lemma DeeperIsOlder(v: Levels, p: Pending, outputs: seq<Table>, l: nat, f: Table, e: Entry, s: nat, m: nat, g: Table,
                      x: Entry)
    requires LevelsOk(v) && UniqueSeqs(LevelEntries(v)) && Placed(v, p) && KeepsHeads(p, outputs)
    requires SplitsAreHidden(v, p, outputs) && s >= p.snap && HitAt(Installed(v, p, outputs), l, e, s)
    requires l < m < NUM_LEVELS && InInstalled(v, p, outputs, l, f) && InInstalled(v, p, outputs, m, g)
    requires e in f.entries && x in g.entries && x.user == e.user
    ensures x.sn <= e.sn
  {
    hide LevelEntries, UniqueSeqs, HitAt, FlushedSince, MeetsHull, NoGap, LevelZeroClosed, Installed;
    if f in v[l] && g in v[m] {
      NewerApplies(f.entries, g.entries, e, x);
    } else if f !in v[l] || IsInput(p, l, f) {
      OutputNewerThan(v, p, outputs, m, f, g);
    } else {
      FlattenMembers(outputs);
      var h := OutputEntry(p, outputs, g, x);
      RemainderIsNewer(v, p, l, f, e, h, x);
      if x.sn > e.sn {
        var n := NewestOfKey(InputEntries(p), x);
        assert n in Flatten(outputs);
        HiddenHead(v, p, outputs, h, e, s, n);
      }
    }
  }

  lemma HiddenSplitsReadRight(v: Levels, p: Pending, outputs: seq<Table>, e: Entry, s: nat)
    requires LevelsOk(v) && UniqueSeqs(LevelEntries(v)) && Placed(v, p) && KeepsHeads(p, outputs)
    requires SplitsAreHidden(v, p, outputs) && s >= p.snap && FirstHit(Installed(v, p, outputs), e, s)
    ensures IsNewest(LevelEntries(Installed(v, p, outputs)), e, e.user, s)
  {
    var v' := Installed(v, p, outputs);
    hide LevelsOk, UniqueSeqs, Placed, KeepsHeads, SplitsAreHidden, Installed, InInstalled;
    var l: nat :| HitAt(v', l, e, s);
    var f :| f in v'[l] && Hits(f.entries, e, e.user, s);
    InstalledMembers(v, p, outputs, l, f);
    forall m, g, x | 0 <= m < NUM_LEVELS && g in v'[m] && x in g.entries && x.user == e.user && x.sn <= s
      ensures x.sn <= e.sn
    {
      if m > l {
        InstalledMembers(v, p, outputs, m, g);
        DeeperIsOlder(v, p, outputs, l, f, e, s, m, g, x);
      }
    }
  }

  // ----- the others do -----

  ghost function EntriesAt(v: Levels, l: nat): set<Entry>
    requires l < NUM_LEVELS
  {
    set f, e | f in v[l] && e in f.entries :: e
  }

  /** Above the first input level nothing of the key can be read, at the sequence number at which the head can. */
  lemma NothingAbove(v: Levels, p: Pending, n: Entry, s: nat, m: nat, f: Table)
    requires OlderDownward(v) && Placed(v, p) && IsHead(p, n) && !Hidden(LevelEntries(v), n, p.snap)
    requires s == (if n.sn < p.snap then p.snap else n.sn) && m < p.level && f in v[m]
    ensures Misses(f.entries, n.user, s)
  {
    hide NoGap, MeetsHull, FlushedSince, LevelZeroClosed, SortedLevels, Newer, LevelEntries;
    var h :| h in p.in0 + p.in1 && n in h.entries;
    var k := if h in p.in0 then p.level else p.level + 1;
    assert h in v[k];
    forall z | z in f.entries && z.user == n.user ensures z.sn > s {
      NewerApplies(f.entries, h.entries, z, n);
      EntriesOf(v, m, f, z);
    }
  }

  /** A read at that sequence number stops at the first input level, at an entry older than the head. */
  lemma SplitReadsStale(v: Levels, p: Pending, outputs: seq<Table>, f: Table, g: Table, n: Entry)
      returns (e: Entry, s: nat)
    requires LevelsOk(v) && UniqueSeqs(LevelEntries(v)) && Placed(v, p)
    requires SplitBoundary(v, p, p.level, f, g) && IsHead(p, n) && n.user == Largest(f).user && n in Flatten(outputs)
    requires !Hidden(LevelEntries(v), n, p.snap)
    ensures s >= p.snap && e.user == n.user && FirstHit(Installed(v, p, outputs), e, s)
    ensures n in LevelEntries(Installed(v, p, outputs)) && e.sn < n.sn <= s
  {
    var v', y := Installed(v, p, outputs), Smallest(g);
    s := if n.sn < p.snap then p.snap else n.sn;
    hide LevelZeroOrdered, SortedLevels, NoGap, MeetsHull, FlushedSince, LevelZeroClosed, LevelEntries, Newer, Sorted;
    InstalledMembers(v, p, outputs, p.level, g);
    assert Largest(f) in f.entries && y in g.entries;
    assert f in p.in0 + p.in1;
    assert Largest(f) in LevelEntries(v) && y in LevelEntries(v)
        by { EntriesOf(v, p.level, f, Largest(f)); EntriesOf(v, p.level, g, y); }
    LaterInLevel(LevelEntries(v), f, g, Largest(f), y);
    assert y in EntriesAt(v', p.level);
    e := NewestExists(EntriesAt(v', p.level), y, s);
    StaleHit(v, p, outputs, n, e, s);
    InstalledHas(v, p, outputs, n);
  }

  lemma StaleHit(v: Levels, p: Pending, outputs: seq<Table>, n: Entry, e: Entry, s: nat)
    requires LevelsOk(v) && UniqueSeqs(LevelEntries(v)) && Placed(v, p) && IsHead(p, n)
    requires !Hidden(LevelEntries(v), n, p.snap) && s == (if n.sn < p.snap then p.snap else n.sn)
    requires IsNewest(EntriesAt(Installed(v, p, outputs), p.level), e, n.user, s)
    ensures FirstHit(Installed(v, p, outputs), e, s) && e.sn < n.sn
  {
    var v' := Installed(v, p, outputs);
    LeftBehind(v, p, outputs, e);
    InputsAreEntries(v, p);
    OlderThanHead(LevelEntries(v), p, n, e, s);
    hide *;
    forall m, f | 0 <= m < p.level && f in v'[m] ensures Misses(f.entries, n.user, s) {
      AboveIsUntouched(v, p, outputs, m, f);
      NothingAbove(v, p, n, s, m, f);
    }
    NewestAtIsHit(v', p.level, n.user, e, s);
  }

  lemma OlderThanHead(es: set<Entry>, p: Pending, n: Entry, e: Entry, s: nat)
    requires UniqueSeqs(es) && InputEntries(p) <= es && IsHead(p, n) && e in es && e !in InputEntries(p)
             && e.user == n.user
    requires !Hidden(es, n, p.snap) && s == (if n.sn < p.snap then p.snap else n.sn) && e.sn <= s
    ensures e.sn < n.sn
  {
    hide InputEntries;
  }

  lemma AboveIsUntouched(v: Levels, p: Pending, outputs: seq<Table>, m: nat, f: Table)
    requires p.level + 1 < NUM_LEVELS && m < p.level && f in Installed(v, p, outputs)[m]
    ensures f in v[m]
  {
    InstalledMembers(v, p, outputs, m, f);
  }

  lemma NewestAtIsHit(v: Levels, l: nat, u: UserKey, e: Entry, s: nat)
    requires l < NUM_LEVELS && IsNewest(EntriesAt(v, l), e, u, s)
    requires forall m, f :: 0 <= m < l && f in v[m] ==> Misses(f.entries, u, s)
    ensures FirstHit(v, e, s)
  {
    hide Misses;
    var q :| q in v[l] && e in q.entries;
    assert Hits(q.entries, e, u, s);
    assert HitAt(v, l, e, s);
  }

  /** What is at the first input level afterwards was there before, and is no input. */
  lemma LeftBehind(v: Levels, p: Pending, outputs: seq<Table>, e: Entry)
    requires LevelsOk(v) && UniqueSeqs(LevelEntries(v)) && Placed(v, p)
             && e in EntriesAt(Installed(v, p, outputs), p.level)
    ensures e in LevelEntries(v) && e !in InputEntries(p)
  {
    var q :| q in Installed(v, p, outputs)[p.level] && e in q.entries;
    hide LevelsOk, UniqueSeqs, LevelEntries, Installed, InputEntries;
    InstalledMembers(v, p, outputs, p.level, q);
    InputsOccurOnce(v, p, p.level, q, e);
    EntriesOf(v, p.level, q, e);
  }

  /** The inputs that a compaction chooses, and outputs that keep the newest of each key: first hits at or above `snap`
      are right if and only if the head of every user key cut in two is hidden, by an entry outside the inputs. */
  lemma ReadsNewestIff(v: Levels, p: Pending, outputs: seq<Table>)
    requires LevelsOk(v) && UniqueSeqs(LevelEntries(v)) && Placed(v, p) && KeepsHeads(p, outputs)
    ensures ReadsNewest(Installed(v, p, outputs), p.snap) <==> SplitsAreHidden(v, p, outputs)
  {
    var v' := Installed(v, p, outputs);
    hide LevelsOk, UniqueSeqs, Placed, KeepsHeads, FirstHit, Hidden, IsHead, SplitBoundary, Installed, LevelEntries;
    if SplitsAreHidden(v, p, outputs) {
      forall e, s: nat | s >= p.snap && FirstHit(v', e, s) ensures IsNewest(LevelEntries(v'), e, e.user, s) {
        HiddenSplitsReadRight(v, p, outputs, e, s);
      }
    } else {
      var f, g, n :| SplitBoundary(v, p, p.level, f, g) && IsHead(p, n) && n.user == Largest(f).user
          && n in Flatten(outputs)
                     && !Hidden(LevelEntries(v), n, p.snap);
      var e, s := SplitReadsStale(v, p, outputs, f, g, n);
      assert !IsNewest(LevelEntries(v'), e, e.user, s);
    }
  }

  // ----- the merge and the trivial move -----

  /** A reader at or above `snap` can reach the newest input entry of u. */
  ghost predicate HeadIsReadable(v: Levels, p: Pending, u: UserKey) {
    exists n :: IsHead(p, n) && n.user == u && !Hidden(LevelEntries(v), n, p.snap)
  }

  /** No input of the first level ends in the middle of a key whose head survives the merge and can be read. */
  ghost predicate MergeSplitsNothing(v: Levels, p: Pending) {
    forall f, g :: SplitBoundary(v, p, p.level, f, g) ==>
      KeyVanishes(p, Largest(f).user) || !HeadIsReadable(v, p, Largest(f).user)
  }

  /** The file that moves does not end in the middle of a key whose head can be read. */
  ghost predicate MoveSplitsNothing(v: Levels, p: Pending, f: Table) {
    forall g :: SplitBoundary(v, p, p.level, f, g) ==> !HeadIsReadable(v, p, Largest(f).user)
  }

  /** Readers at or above `snap` are to see the same in both. */
  ghost predicate SameMeaning(a: set<Entry>, b: set<Entry>, snap: nat) {
    forall u, s: nat :: s >= snap ==> Visible(a, u, s) == Visible(b, u, s)
  }

  lemma InputLevel(v: Levels, p: Pending)
    requires Placed(v, p)
    ensures p.level + 1 < NUM_LEVELS
  {
  }

  lemma MergeKeepsHeads(p: Pending, outputs: seq<Table>)
    requires OutputsOk(p, outputs) && UniqueSeqs(InputEntries(p))
    ensures KeepsHeads(p, outputs)
    ensures forall n :: IsHead(p, n) ==> (n in Flatten(outputs) <==> !KeyVanishes(p, n.user))
  {
    forall n | IsHead(p, n) ensures n in Flatten(outputs) <==> !KeyVanishes(p, n.user) {
      assert !Hidden(InputEntries(p), n, p.snap);
    }
    forall n, y | IsHead(p, n) && y in Flatten(outputs) && y.user == n.user ensures n in Flatten(outputs) {
      if KeyVanishes(p, n.user) {
        VanishedKeyLeavesNothing(p, outputs, n.user, y);
      }
    }
  }

  /** The two ways a merge can go wrong for a reader at or above its smallest snapshot, and the only two: it cuts a key
      whose head survives and can be read, or it drops a marker that masks a value outside the inputs. */
  lemma MergeReadsIff(v: Levels, p: Pending, outputs: seq<Table>)
    requires LevelsOk(v) && UniqueSeqs(LevelEntries(v)) && Placed(v, p) && OutputsOk(p, outputs)
    ensures ReadsNewest(Installed(v, p, outputs), p.snap) <==> MergeSplitsNothing(v, p)
    ensures SameMeaning(LevelEntries(Installed(v, p, outputs)), LevelEntries(v), p.snap) <==>
              UnmasksNoValue(LevelEntries(v), InputEntries(p), p.snap, BaseKeys(p.base, p.level))
  {
    hide *;
    InputLevel(v, p);
    InstalledDrops(v, p, outputs);
    DropsSameMeaning(LevelEntries(v), InputEntries(p), p.snap, BaseKeys(p.base, p.level));
    InputSeqsUnique(LevelEntries(v), p);
    MergeKeepsHeads(p, outputs);
    ReadsNewestIff(v, p, outputs);
    OnlySurvivingHeads(v, p, outputs);
  }

  lemma DropsSameMeaning(all: set<Entry>, inputs: set<Entry>, snap: nat, base: iset<UserKey>)
    requires UniqueSeqs(all) && inputs <= all
    ensures SameMeaning(all - Dropped(inputs, snap, base), all, snap) <==> UnmasksNoValue(all, inputs, snap, base)
  {
    hide Visible, UnmasksNoValue, Dropped, UniqueSeqs;
    DropPreservesVisible(all, inputs, snap, base);
  }

  lemma InputSeqsUnique(es: set<Entry>, p: Pending)
    requires UniqueSeqs(es) && InputEntries(p) <= es
    ensures UniqueSeqs(InputEntries(p))
  {
    hide InputEntries;
  }

  lemma OnlySurvivingHeads(v: Levels, p: Pending, outputs: seq<Table>)
    requires forall n :: IsHead(p, n) ==> (n in Flatten(outputs) <==> !KeyVanishes(p, n.user))
    ensures SplitsAreHidden(v, p, outputs) <==> MergeSplitsNothing(v, p)
  {
    hide SplitBoundary, IsHead, Hidden, LevelEntries, Flatten, KeyVanishes;
  }

  /** A trivial move drops nothing; it goes wrong exactly when it leaves older entries of a key behind whose head, in
      the file that moves, can be read. */
  lemma MoveReadsIff(v: Levels, p: Pending, f: Table)
    requires LevelsOk(v) && UniqueSeqs(LevelEntries(v)) && Placed(v, p) && p.in0 == [f] && p.in1 == []
    ensures ReadsNewest(Installed(v, p, [f]), p.snap) <==> MoveSplitsNothing(v, p, f)
    ensures LevelEntries(Installed(v, p, [f])) == LevelEntries(v)
  {
    hide *;
    InputLevel(v, p);
    MoveKeepsHeads(p, f);
    InstalledEntries(v, p, [f]);
    ReadsNewestIff(v, p, [f]);
    OnlyTheMoved(v, p, f);
  }

  lemma OnlyTheMoved(v: Levels, p: Pending, f: Table)
    requires p.in0 == [f] && p.in1 == [] && forall n :: IsHead(p, n) ==> n in Flatten([f])
    ensures SplitsAreHidden(v, p, [f]) <==> MoveSplitsNothing(v, p, f)
  {
    assert forall h, g :: SplitBoundary(v, p, p.level, h, g) ==> h == f;
    hide SplitBoundary, IsHead, Hidden, LevelEntries, Flatten;
  }

  lemma MoveKeepsHeads(p: Pending, f: Table)
    requires p.in0 == [f] && p.in1 == []
    ensures KeepsHeads(p, [f]) && InputEntries(p) == Elements(Flatten([f]))
    ensures forall n :: IsHead(p, n) ==> n in Flatten([f])
  {
    assert Flatten([f]) == f.entries by { assert [f][..0] == []; }
    assert f in p.in0 + p.in1;
  }
}
