/** Replacing files in the levels of a version, and what that does to their order. */
module LevelEdits {
  import opened Format
  import opened Visibility
  import opened Version
  import opened ReadPath
  import opened Compactions

  /** VersionSet::Builder keeps every level ordered by smallest key, then by file number. */
  predicate BySmallestKey(f: Table, g: Table) {
    Before(Smallest(f), Smallest(g)) || (!Before(Smallest(g), Smallest(f)) && f.number < g.number)
  }

  function InsertFile(files: seq<Table>, f: Table): seq<Table> {
    if files != [] && BySmallestKey(files[0], f) then [files[0]] + InsertFile(files[1..], f)
    else [f] + files
  }

  function AddFiles(files: seq<Table>, added: seq<Table>): seq<Table> {
    if added == [] then files else InsertFile(AddFiles(files, added[..|added| - 1]), added[|added| - 1])
  }

  function Without(files: seq<Table>, removed: seq<Table>): seq<Table> {
    if files == [] then []
    else (if files[0] in removed then [] else [files[0]]) + Without(files[1..], removed)
  }

  /** The ranges of f and g do not overlap. */
  predicate Apart(f: Table, g: Table) {
    Before(Largest(f), Smallest(g)) || Before(Largest(g), Smallest(f))
  }

  lemma {:induction false} InsertFileMembers(files: seq<Table>, f: Table)
    ensures forall g :: g in InsertFile(files, f) <==> g in files || g == f
  {
    if files != [] && BySmallestKey(files[0], f) {
      InsertFileMembers(files[1..], f);
      assert files == [files[0]] + files[1..];
    }
  }

  lemma PrependDisjoint(f: Table, rest: seq<Table>)
    requires DisjointSorted(rest) && forall g :: g in rest ==> Before(Largest(f), Smallest(g))
    ensures DisjointSorted([f] + rest)
  {
  }

  lemma {:induction false} InsertFileDisjoint(files: seq<Table>, f: Table)
    requires DisjointSorted(files) && forall g :: g in files ==> Apart(f, g)
    ensures DisjointSorted(InsertFile(files, f))
  {
    InsertFileMembers(files, f);
    if files != [] {
      assert AtOrBefore(Smallest(f), Largest(f)) && AtOrBefore(Smallest(files[0]), Largest(files[0]));
      assert Apart(f, files[0]);
      if BySmallestKey(files[0], f) {
        InsertFileDisjoint(files[1..], f);
        InsertFileMembers(files[1..], f);
        PrependDisjoint(files[0], InsertFile(files[1..], f));
      } else {
        assert forall i :: 0 < i < |files| ==> Before(Smallest(files[0]), Smallest(files[i]));
        PrependDisjoint(f, files);
      }
    }
  }

  lemma {:induction false} AddFilesMembers(files: seq<Table>, added: seq<Table>)
    ensures forall g :: g in AddFiles(files, added) <==> g in files || g in added
  {
    if added != [] {
      var rest, f := added[..|added| - 1], added[|added| - 1];
      AddFilesMembers(files, rest);
      InsertFileMembers(AddFiles(files, rest), f);
      assert added == rest + [f];
    }
  }

  lemma {:induction false} AddFilesDisjoint(files: seq<Table>, added: seq<Table>)
    requires DisjointSorted(files) && DisjointSorted(added)
    requires forall f, g :: f in added && g in files ==> Apart(f, g)
    ensures DisjointSorted(AddFiles(files, added))
  {
    if added != [] {
      var rest, f := added[..|added| - 1], added[|added| - 1];
      AddFilesDisjoint(files, rest);
      AddFilesMembers(files, rest);
      InsertFileDisjoint(AddFiles(files, rest), f);
    }
  }

  lemma {:induction false} WithoutMembers(files: seq<Table>, removed: seq<Table>)
    ensures forall g :: g in Without(files, removed) <==> g in files && g !in removed
  {
    if files != [] {
      WithoutMembers(files[1..], removed);
      assert files == [files[0]] + files[1..];
    }
  }

  lemma {:induction false} WithoutDisjoint(files: seq<Table>, removed: seq<Table>)
    requires DisjointSorted(files)
    ensures DisjointSorted(Without(files, removed))
  {
    if files != [] {
      WithoutDisjoint(files[1..], removed);
      WithoutMembers(files[1..], removed);
      PrependDisjoint(files[0], Without(files[1..], removed));
      assert [] + Without(files[1..], removed) == Without(files[1..], removed);
    }
  }

  lemma ApartInLevel(files: seq<Table>, f: Table, g: Table)
    requires DisjointSorted(files) && f in files && g in files && f != g
    ensures Apart(f, g)
  {
    var i :| 0 <= i < |files| && files[i] == f;
    var j :| 0 <= j < |files| && files[j] == g;
    assert i < j || j < i;
  }

  // ----- a flush -----

  /** What PickLevelForMemTableOutput guarantees about the level it picks. */
  ghost predicate FlushLevelOk(v: Levels, f: Table, level: nat) {
    && level <= MAX_MEM_COMPACT_LEVEL
    && (level > 0 ==> forall l, g :: 0 <= l <= level && g in v[l] ==>
          !Meets(g, Some(Smallest(f).user), Some(Largest(f).user)))
  }

  lemma FlushKeepsSorted(v: Levels, f: Table, level: nat)
    requires SortedLevels(v) && FlushLevelOk(v, f, level)
    ensures SortedLevels(v[level := InsertFile(v[level], f)])
  {
    if level > 0 {
      forall g | g in v[level] ensures Apart(f, g) {
        assert !Meets(g, Some(Smallest(f).user), Some(Largest(f).user));
      }
      InsertFileDisjoint(v[level], f);
    }
  }

  lemma FlushKeepsLevelZero(files: seq<Table>, f: Table)
    requires LevelZeroOrdered(files)
    requires forall g :: g in files ==> Newer(f.entries, g.entries) && g.number < f.number
    ensures LevelZeroOrdered(InsertFile(files, f))
  {
    InsertFileMembers(files, f);
    forall g, h | g in InsertFile(files, f) && h in InsertFile(files, f) && g.number > h.number
      ensures Newer(g.entries, h.entries)
    {
    }
  }

  lemma FlushKeepsOrder(v: Levels, f: Table, level: nat)
    requires OlderDownward(v) && FlushLevelOk(v, f, level)
    requires forall l, g :: 0 <= l < NUM_LEVELS && g in v[l] ==> Newer(f.entries, g.entries)
    ensures OlderDownward(v[level := InsertFile(v[level], f)])
  {
    hide Newer;
    var v': Levels := v[level := InsertFile(v[level], f)];
    InsertFileMembers(v[level], f);
    forall l, m, g, h | 0 <= l < m < NUM_LEVELS && g in v'[l] && h in v'[m] ensures Newer(g.entries, h.entries) {
      if g in v[l] && h !in v[m] {
        NoSharedKeys(g, f);
      } else if g in v[l] {
        assert h in v[m];
      }
    }
  }

  lemma FlushKeepsLevels(v: Levels, f: Table, level: nat)
    requires LevelsOk(v) && FlushLevelOk(v, f, level)
    requires forall l, g :: 0 <= l < NUM_LEVELS && g in v[l] ==> Newer(f.entries, g.entries) && g.number < f.number
    ensures LevelsOk(v[level := InsertFile(v[level], f)])
  {
    FlushKeepsSorted(v, f, level);
    FlushKeepsLevelZero(v[0], f);
    FlushKeepsOrder(v, f, level);
  }

  lemma NoSharedKeys(f: Table, g: Table)
    requires !Meets(f, Some(Smallest(g).user), Some(Largest(g).user))
    ensures forall x, y :: x in f.entries && y in g.entries ==> x.user != y.user
    ensures Newer(f.entries, g.entries)
  {
    forall x, y | x in f.entries && y in g.entries ensures x.user != y.user {
      BoundsHold(f, x);
      BoundsHold(g, y);
    }
  }

  // ----- a compaction -----

  /** No file that stays in its level begins with the user key at which an input before it ends. */
  ghost predicate BoundaryClosed(files: seq<Table>, inputs: seq<Table>) {
    forall f, g :: f in inputs && g in files && g !in inputs && Before(Largest(f), Smallest(g)) ==>
      Largest(f).user != Smallest(g).user
  }

  /** A compaction in progress: its inputs, chosen in `base`, and its smallest snapshot. */
  datatype Pending = Pending(level: nat, in0: seq<Table>, in1: seq<Table>, base: Levels, snap: nat)

  ghost predicate ClosedInputs(p: Pending)
    requires p.level + 1 < NUM_LEVELS
  {
    (p.level > 0 ==> BoundaryClosed(p.base[p.level], p.in0)) && BoundaryClosed(p.base[p.level + 1], p.in1)
  }

  ghost predicate UserApart(f: Table, g: Table) {
    Largest(f).user < Smallest(g).user || Largest(g).user < Smallest(f).user
  }

  /** Where a memtable flushed after the compaction began may have landed. */
  ghost predicate FlushedSince(p: Pending, l: nat, f: Table)
    requires l < NUM_LEVELS
  {
    && (l == 0 ==> forall g :: g in p.base[0] ==> g.number < f.number)
    && (l == p.level && l > 0 ==> forall g :: g in p.base[l] ==> UserApart(f, g))
    && (l > p.level ==> !MeetsHull(f, p.in0 + p.in1))
  }

  ghost predicate PendingOk(v: Levels, p: Pending) {
    Placed(v, p) && ClosedInputs(p)
  }

  /** The inputs are still in place, and everything newer arrived by a harmless flush. */
  ghost predicate Placed(v: Levels, p: Pending) {
    && SortedLevels(p.base) && InputsOk(p.base, p.level, p.in0, p.in1)
    && (forall l, f :: 0 <= l < NUM_LEVELS && f in p.base[l] ==> f in v[l])
    && (forall l, f :: 0 <= l < NUM_LEVELS && f in v[l] && f !in p.base[l] ==> FlushedSince(p, l, f))
  }

  ghost predicate IsInput(p: Pending, l: nat, f: Table) {
    (l == p.level && f in p.in0) || (l == p.level + 1 && f in p.in1)
  }

  ghost function InputEntries(p: Pending): set<Entry> {
    set f, e | f in p.in0 + p.in1 && e in f.entries :: e
  }

  /** An entry of an input file lies in the hull of the inputs. */
  lemma InputInHull(p: Pending, h: Table, y: Entry, f: Table)
    requires h in p.in0 + p.in1 && y in h.entries && Contains(f, y.user)
    ensures MeetsHull(f, p.in0 + p.in1)
    ensures h in p.in0 ==> MeetsHull(f, p.in0)
  {
    BoundsHold(h, y);
  }

  /** Two files of one sorted level: the later one may share only the boundary key, with older entries. */
  lemma LaterInLevel(es: set<Entry>, f: Table, g: Table, x: Entry, y: Entry)
    requires UniqueSeqs(es) && x in es && y in es
    requires x in f.entries && y in g.entries && x.user == y.user && Before(Largest(f), Smallest(g))
    ensures x.sn > y.sn && Largest(f).user == Smallest(g).user
  {
    BoundsHold(f, x);
    BoundsHold(g, y);
    assert Before(x, y);
  }

  lemma OlderAt(v: Levels, l: nat, m: nat, f: Table, g: Table, x: Entry, y: Entry)
    requires OlderDownward(v) && l < m < NUM_LEVELS && f in v[l] && g in v[m]
    requires x in f.entries && y in g.entries && x.user == y.user
    ensures x.sn > y.sn
  {
    assert Newer(f.entries, g.entries);
  }

  /** f, an input of `level`, is followed there by g, which stays and begins with the same user key. */
  ghost predicate SplitBoundary(v: Levels, p: Pending, l: nat, f: Table, g: Table) {
    && 0 < l < NUM_LEVELS && f in v[l] && IsInput(p, l, f) && g in v[l] && !IsInput(p, l, g)
    && Before(Largest(f), Smallest(g)) && Largest(f).user == Smallest(g).user
  }

  lemma ClosedSplitsNothing(v: Levels, p: Pending, l: nat, f: Table, g: Table)
    requires PendingOk(v, p)
    ensures !SplitBoundary(v, p, l, f, g)
  {
    hide NoGap, LevelZeroClosed, MeetsHull, SortedLevels;
    if SplitBoundary(v, p, l, f, g) {
      BoundsHold(g, Smallest(g));
      InputInHull(p, f, Largest(f), g);
    }
  }

  /** At a sorted input level, what stays behind of an input's user key is newer, or follows the input
      across a split boundary. */
  lemma RemainderAtLevel(v: Levels, p: Pending, l: nat, f: Table, x: Entry, h: Table, y: Entry)
    requires 0 < l < NUM_LEVELS && DisjointSorted(v[l])
    requires UniqueSeqs(LevelEntries(v))
    requires f in v[l] && !IsInput(p, l, f) && x in f.entries
    requires h in v[l] && IsInput(p, l, h) && y in h.entries && x.user == y.user
    ensures x.sn > y.sn || (SplitBoundary(v, p, l, h, f) && Largest(h).user == x.user && y.sn > x.sn)
  {
    BoundsHold(f, x);
    BoundsHold(h, y);
    ApartInLevel(v[l], f, h);
    if Before(Largest(f), Smallest(h)) {
      LaterInLevel(LevelEntries(v), f, h, x, y);
    } else {
      LaterInLevel(LevelEntries(v), h, f, y, x);
    }
  }

  /** At level 0, what stays behind of an input's user key was flushed later, so it is newer. */
  lemma RemainderAtLevelZero(v: Levels, p: Pending, f: Table, x: Entry, h: Table, y: Entry)
    requires LevelZeroOrdered(v[0]) && Placed(v, p) && p.level == 0
    requires f in v[0] && f !in p.in0 && x in f.entries
    requires h in p.in0 && y in h.entries && x.user == y.user
    ensures x.sn > y.sn
  {
    BoundsHold(f, x);
    InputInHull(p, h, y, f);
    assert h in v[0] && f !in p.base[0];
    assert f.number > h.number;
    assert Newer(f.entries, h.entries);
  }

  /** At the second input level, nothing but inputs shares a user key with a first-level input. */
  lemma NothingBeside(v: Levels, p: Pending, f: Table, x: Entry, h: Table, y: Entry)
    requires Placed(v, p)
    requires f in v[p.level + 1] && f !in p.in1 && x in f.entries
    requires h in p.in0 && y in h.entries
    ensures x.user != y.user
  {
    BoundsHold(f, x);
    if x.user == y.user {
      InputInHull(p, h, y, f);
    }
  }

  /** Everything of an input's user key that stays behind at the input levels or above is newer, unless
      the inputs of its level end in the middle of that key. */
  lemma RemainderIsNewer(v: Levels, p: Pending, l: nat, f: Table, x: Entry, h: Table, y: Entry)
    requires LevelsOk(v) && UniqueSeqs(LevelEntries(v)) && Placed(v, p)
    requires l <= p.level + 1 && f in v[l] && !IsInput(p, l, f) && x in f.entries
    requires h in p.in0 + p.in1 && y in h.entries && x.user == y.user
    ensures x.sn > y.sn || (SplitBoundary(v, p, l, h, f) && Largest(h).user == x.user && y.sn > x.sn)
  {
    var k := if h in p.in0 then p.level else p.level + 1;
    assert h in p.base[k];
    if l < k {
      OlderAt(v, l, k, f, h, x, y);
    } else if l == k == 0 {
      RemainderAtLevelZero(v, p, f, x, h, y);
    } else if l == k {
      RemainderAtLevel(v, p, l, f, x, h, y);
    } else {
      NothingBeside(v, p, f, x, h, y);
    }
  }

  /** Nothing older than a dropped marker is left outside the inputs, at any level. */
  lemma NothingOlderRemains(v: Levels, p: Pending, l: nat, f: Table, x: Entry, h: Table, y: Entry)
    requires LevelsOk(v) && UniqueSeqs(LevelEntries(v)) && PendingOk(v, p)
    requires l < NUM_LEVELS && f in v[l] && !IsInput(p, l, f) && x in f.entries
    requires h in p.in0 + p.in1 && y in h.entries && x.user == y.user
    requires Obsolete(y, p.snap, BaseKeys(p.base, p.level))
    ensures x.sn > y.sn
  {
    if l <= p.level + 1 {
      ClosedSplitsNothing(v, p, l, h, f);
      RemainderIsNewer(v, p, l, f, x, h, y);
    } else {
      BoundsHold(f, x);
      InputInHull(p, h, y, f);
    }
  }
}
