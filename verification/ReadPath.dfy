/** Looking a key up level by level with an early exit: Version::Get and DBImpl::Get. */
module ReadPath {
  import opened Format
  import opened Visibility
  import opened Version

  ghost predicate SortedLevels(v: Levels) {
    forall l :: 1 <= l < NUM_LEVELS ==> DisjointSorted(v[l])
  }

  ghost predicate LevelZeroOrdered(files: seq<Table>) {
    && (forall f, g :: f in files && g in files && f.number > g.number ==> Newer(f.entries, g.entries))
    && (forall f, g :: f in files && g in files && f.number == g.number ==> f == g)
  }

  ghost predicate OlderDownward(v: Levels) {
    forall l, m, f, g :: 0 <= l < m < NUM_LEVELS && f in v[l] && g in v[m] ==> Newer(f.entries, g.entries)
  }

  /** Entries of one user key get strictly older from level to level, and at level 0 from a
      larger file number to a smaller one; levels above 0 are sorted runs. */
  ghost predicate LevelsOk(v: Levels) {
    SortedLevels(v) && LevelZeroOrdered(v[0]) && OlderDownward(v)
  }

  ghost function LevelEntries(v: Levels): set<Entry> {
    set l, f, e | 0 <= l < NUM_LEVELS && f in v[l] && e in f.entries :: e
  }

  /** Nothing of u at or below s. */
  ghost predicate Misses(xs: seq<Entry>, u: UserKey, s: nat) {
    forall e :: e in xs && e.user == u ==> e.sn > s
  }

  /** The newest entry of u at or below s in one run of entries. */
  ghost predicate Hits(xs: seq<Entry>, e: Entry, u: UserKey, s: nat) {
    && e in xs && e.user == u && e.sn <= s
    && forall x :: x in xs && x.user == u && x.sn <= s ==> x.sn <= e.sn
  }

  ghost predicate NewestFirst(files: seq<Table>) {
    forall i, j :: 0 <= i < j < |files| ==> files[i].number >= files[j].number
  }

  method InsertNewestFirst(files: seq<Table>, f: Table) returns (files': seq<Table>)
    requires NewestFirst(files)
    ensures NewestFirst(files') && forall g :: g in files' <==> g in files || g == f
  {
    var k := 0;
    while k < |files| && files[k].number > f.number
      invariant 0 <= k <= |files|
      invariant forall i :: 0 <= i < k ==> files[i].number > f.number
    {
      k := k + 1;
    }
    files' := files[..k] + [f] + files[k..];
    assert files == files[..k] + files[k..];
  }

  /** std::sort with NewestFirst. */
  method SortNewestFirst(files: seq<Table>) returns (sorted: seq<Table>)
    ensures forall f :: f in sorted <==> f in files
    ensures NewestFirst(sorted)
  {
    sorted := [];
    for n := 0 to |files|
      invariant forall f :: f in sorted <==> f in files[..n]
      invariant NewestFirst(sorted)
    {
      sorted := InsertNewestFirst(sorted, files[n]);
      assert files[..n + 1] == files[..n] + [files[n]];
    }
    assert files[..|files|] == files;
  }

  /** The files of level 0 that can hold u, searched from newest to oldest. */
  method SearchLevelZero(v: Levels, u: UserKey, s: nat) returns (found: Option<Entry>)
    requires LevelZeroOrdered(v[0])
    ensures found.Some? ==> exists f :: f in v[0] && Hits(f.entries, found.value, u, s)
    ensures found.Some? ==> forall f, x :: f in v[0] && x in f.entries && x.user == u && x.sn <= s ==>
            x.sn <= found.value.sn
    ensures found.None? ==> forall f :: f in v[0] ==> Misses(f.entries, u, s)
  {
    var tmp: seq<Table> := [];
    for i := 0 to |v[0]|
      invariant forall f :: f in tmp <==> f in v[0][..i] && Contains(f, u)
    {
      if Contains(v[0][i], u) {
        tmp := tmp + [v[0][i]];
      }
      assert v[0][..i + 1] == v[0][..i] + [v[0][i]];
    }
    assert v[0][..|v[0]|] == v[0];
    tmp := SortNewestFirst(tmp);
    for i := 0 to |tmp|
      invariant forall j :: 0 <= j < i ==> Misses(tmp[j].entries, u, s)
    {
      SeekFindsNewest(tmp[i].entries, u, s);
      found := SeekEntry(tmp[i].entries, u, s);
      if found.Some? {
        HitAtLevelZero(v, tmp, i, found.value, s);
        return;
      }
    }
    forall f | f in v[0] ensures Misses(f.entries, u, s) {
      assert !Contains(f, u) || f in tmp;
      forall e | e in f.entries && e.user == u ensures e.sn > s { BoundsHold(f, e); }
    }
    found := None;
  }

  lemma NewerApplies(a: seq<Entry>, b: seq<Entry>, x: Entry, y: Entry)
    requires Newer(a, b) && x in a && y in b && x.user == y.user
    ensures x.sn > y.sn
  {
  }

  lemma HitAtLevelZero(v: Levels, tmp: seq<Table>, i: nat, e: Entry, s: nat)
    requires LevelZeroOrdered(v[0]) && i < |tmp|
    requires forall f :: f in tmp <==> f in v[0] && Contains(f, e.user)
    requires NewestFirst(tmp)
    requires forall j :: 0 <= j < i ==> Misses(tmp[j].entries, e.user, s)
    requires Hits(tmp[i].entries, e, e.user, s)
    ensures forall f, x :: f in v[0] && x in f.entries && x.user == e.user && x.sn <= s ==> x.sn <= e.sn
  {
    hide Newer;
    forall f, x | f in v[0] && x in f.entries && x.user == e.user && x.sn <= s ensures x.sn <= e.sn {
      BoundsHold(f, x);
      var j :| 0 <= j < |tmp| && tmp[j] == f;
      if j > i && f.number != tmp[i].number {
        NewerApplies(tmp[i].entries, f.entries, e, x);
      }
    }
  }

  /** A sorted level: binary search for the one file that can hold the newest entry. */
  method SearchSortedLevel(files: seq<Table>, u: UserKey, s: nat) returns (found: Option<Entry>)
    requires DisjointSorted(files)
    ensures found.Some? ==> exists f :: f in files && Hits(f.entries, found.value, u, s)
    ensures found.Some? ==> forall f, x :: f in files && x in f.entries && x.user == u && x.sn <= s ==>
            x.sn <= found.value.sn
    ensures found.None? ==> forall f :: f in files ==> Misses(f.entries, u, s)
  {
    var index := FindFile(files, u, s);
    found := None;
    if index < |files| && u >= Smallest(files[index]).user {
      SeekFindsNewest(files[index].entries, u, s);
      found := SeekEntry(files[index].entries, u, s);
    }
    forall f, x | f in files && x in f.entries && x.user == u && x.sn <= s
      ensures found.Some? && x.sn <= found.value.sn
    {
      FirstFileHoldsNewest(files, index, f, x, s);
    }
  }

  lemma FirstFileHoldsNewest(files: seq<Table>, index: nat, f: Table, x: Entry, s: nat)
    requires DisjointSorted(files) && index <= |files|
    requires forall i :: 0 <= i < index ==> BeforeLookup(Largest(files[i]), x.user, s)
    requires forall i :: index <= i < |files| ==> !BeforeLookup(Largest(files[i]), x.user, s)
    requires f in files && x in f.entries && x.sn <= s
    ensures index < |files| && x.user >= Smallest(files[index]).user
    ensures exists y :: y in files[index].entries && y.user == x.user && x.sn <= y.sn <= s
  {
    var j :| 0 <= j < |files| && files[j] == f;
    BoundsHold(f, x);
    assert index <= j;
    if index < j {
      assert Before(Largest(files[index]), Smallest(f));
      assert Largest(files[index]) in files[index].entries;
      BoundsHold(files[index], Largest(files[index]));
    }
  }

  /** e is the newest entry of its key at or below s in level l, and no level above has any. */
  ghost predicate HitAt(v: Levels, l: nat, e: Entry, s: nat) {
    && l < NUM_LEVELS && (forall m, f :: 0 <= m < l && f in v[m] ==> Misses(f.entries, e.user, s))
    && (exists f :: f in v[l] && Hits(f.entries, e, e.user, s))
    && (forall f, x :: f in v[l] && x in f.entries && x.user == e.user && x.sn <= s ==> x.sn <= e.sn)
  }

  /** The answer of a search that stops at the first level with a readable entry. */
  ghost predicate FirstHit(v: Levels, e: Entry, s: nat) {
    exists l: nat :: HitAt(v, l, e, s)
  }

  lemma FirstHitIsNewest(v: Levels, e: Entry, s: nat)
    requires OlderDownward(v) && FirstHit(v, e, s)
    ensures IsNewest(LevelEntries(v), e, e.user, s)
  {
    hide Newer;
    var level: nat :| HitAt(v, level, e, s);
    var g :| g in v[level] && Hits(g.entries, e, e.user, s);
    forall l, f, x | 0 <= l < NUM_LEVELS && f in v[l] && x in f.entries && x.user == e.user && x.sn <= s
      ensures x.sn <= e.sn
    {
      if l > level {
        NewerApplies(g.entries, f.entries, e, x);
      }
    }
  }

  /** Version::Get: stop at the first level that holds the key.  Where entries get older from level to level, the
      answer is the newest entry of the whole version, although deeper levels are never opened. */
  method GetFromLevels(v: Levels, u: UserKey, s: nat) returns (found: Option<Entry>)
    requires SortedLevels(v) && LevelZeroOrdered(v[0])
    ensures found.Some? ==> found.value.user == u && FirstHit(v, found.value, s)
    ensures found.Some? && OlderDownward(v) ==> IsNewest(LevelEntries(v), found.value, u, s)
    ensures found.None? ==> forall e :: e in LevelEntries(v) && e.user == u ==> e.sn > s
  {
    found := None;
    for level := 0 to NUM_LEVELS
      invariant found.None?
      invariant forall l, f :: 0 <= l < level && f in v[l] ==> Misses(f.entries, u, s)
    {
      if |v[level]| == 0 {
        continue;
      }
      if level == 0 {
        found := SearchLevelZero(v, u, s);
      } else {
        found := SearchSortedLevel(v[level], u, s);
      }
      if found.Some? {
        assert HitAt(v, level, found.value, s);
        if OlderDownward(v) {
          FirstHitIsNewest(v, found.value, s);
        }
        return;
      }
    }
  }
}
