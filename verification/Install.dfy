/** Installing the results of a compaction: InstallCompactionResults and the trivial move. */
module Install {
  import opened Format
  import opened Visibility
  import opened Version
  import opened ReadPath
  import opened Compactions
  import opened LevelEdits

  /** The levels after the inputs are replaced by the outputs. */
  ghost function Installed(v: Levels, p: Pending, outputs: seq<Table>): Levels
    requires p.level + 1 < NUM_LEVELS
  {
    v[p.level := Without(v[p.level], p.in0)][p.level + 1 := AddFiles(Without(v[p.level + 1], p.in1), outputs)]
  }

  /** The outputs form one sorted run of input entries. */
  ghost predicate OutputsFromInputs(p: Pending, outputs: seq<Table>) {
    Sorted(Flatten(outputs)) && forall e :: e in Flatten(outputs) ==> e in InputEntries(p)
  }

  /** The outputs hold exactly the survivors of the drop rules. */
  ghost predicate OutputsOk(p: Pending, outputs: seq<Table>) {
    && Sorted(Flatten(outputs))
    && forall e :: e in Flatten(outputs) <==>
         e in InputEntries(p) && Survives(InputEntries(p), e, p.snap, BaseKeys(p.base, p.level))
  }

  ghost predicate InInstalled(v: Levels, p: Pending, outputs: seq<Table>, l: nat, f: Table)
    requires l < NUM_LEVELS
  {
    (f in v[l] && !IsInput(p, l, f)) || (l == p.level + 1 && f in outputs)
  }

  lemma InstalledMembers(v: Levels, p: Pending, outputs: seq<Table>, l: nat, f: Table)
    requires p.level + 1 < NUM_LEVELS && l < NUM_LEVELS
    ensures f in Installed(v, p, outputs)[l] <==> InInstalled(v, p, outputs, l, f)
  {
    WithoutMembers(v[p.level], p.in0);
    WithoutMembers(v[p.level + 1], p.in1);
    AddFilesMembers(Without(v[p.level + 1], p.in1), outputs);
  }

  lemma OutputEntry(p: Pending, outputs: seq<Table>, o: Table, e: Entry) returns (h: Table)
    requires OutputsFromInputs(p, outputs) && o in outputs && e in o.entries
    ensures h in p.in0 + p.in1 && e in h.entries
  {
    FlattenMembers(outputs);
    assert e in Flatten(outputs);
    h :| h in p.in0 + p.in1 && e in h.entries;
  }

  // ----- the output level stays sorted and disjoint -----

  ghost predicate BeforeAll(g: Table, fs: seq<Table>) {
    forall h :: h in fs ==> Before(Largest(g), Smallest(h))
  }

  ghost predicate AfterAll(g: Table, fs: seq<Table>) {
    forall h :: h in fs ==> Before(Largest(h), Smallest(g))
  }

  /** A file off the hull lies on one side of it. */
  lemma OneSide(g: Table, fs: seq<Table>)
    requires !MeetsHull(g, fs)
    ensures (forall h :: h in fs ==> Largest(g).user < Smallest(h).user)
            || (forall h :: h in fs ==> Largest(h).user < Smallest(g).user)
  {
    assert Smallest(g).user <= Largest(g).user by { BoundsHold(g, Largest(g)); }
    if fs != [] {
      var c := fs[0];
      assert c in fs;
      forall h | h in fs ensures Smallest(h).user <= Largest(h).user { BoundsHold(h, Largest(h)); }
    }
  }

  /** A file that stays at the output level lies wholly before or wholly after all inputs. */
  lemma BesideInputs(v: Levels, p: Pending, g: Table)
    requires SortedLevels(v) && Placed(v, p) && g in v[p.level + 1] && g !in p.in1
    ensures BeforeAll(g, p.in0 + p.in1) || AfterAll(g, p.in0 + p.in1)
  {
    if g !in p.base[p.level + 1] {
      OneSide(g, p.in0 + p.in1);
    } else {
      OneSide(g, p.in0);
      forall h | h in p.in1
        ensures (forall a :: a in p.in0 ==> Largest(g).user < Smallest(a).user) ==> Before(Largest(g), Smallest(h))
        ensures (forall a :: a in p.in0 ==> Largest(a).user < Smallest(g).user) ==> Before(Largest(h), Smallest(g))
      {
        ApartInLevel(v[p.level + 1], g, h);
        BoundsHold(g, Largest(g));
        BoundsHold(h, Largest(h));
      }
    }
  }

  lemma OutputApart(v: Levels, p: Pending, outputs: seq<Table>, o: Table, g: Table)
    requires SortedLevels(v) && Placed(v, p) && OutputsFromInputs(p, outputs)
    requires o in outputs && g in v[p.level + 1] && g !in p.in1
    ensures Apart(o, g)
  {
    BesideInputs(v, p, g);
    var a := OutputEntry(p, outputs, o, Smallest(o));
    var b := OutputEntry(p, outputs, o, Largest(o));
    BoundsHold(a, Smallest(o));
    BoundsHold(b, Largest(o));
  }

  lemma InstallKeepsSorted(v: Levels, p: Pending, outputs: seq<Table>)
    requires SortedLevels(v) && Placed(v, p) && OutputsFromInputs(p, outputs)
    ensures SortedLevels(Installed(v, p, outputs))
  {
    var next := Without(v[p.level + 1], p.in1);
    WithoutDisjoint(v[p.level + 1], p.in1);
    WithoutMembers(v[p.level + 1], p.in1);
    FlattenDisjoint(outputs);
    forall o, g | o in outputs && g in next ensures Apart(o, g) {
      OutputApart(v, p, outputs, o, g);
    }
    AddFilesDisjoint(next, outputs);
    if p.level > 0 {
      WithoutDisjoint(v[p.level], p.in0);
    }
  }

  // ----- entries still get older from level to level -----

  /** No output holds a user key that a split boundary of the first input level cuts in two. */
  ghost predicate NothingAcrossSplit(v: Levels, p: Pending, outputs: seq<Table>) {
    forall f, g, y :: SplitBoundary(v, p, p.level, f, g) && y in Flatten(outputs) ==> y.user != Largest(f).user
  }

  lemma NewerThanOutput(v: Levels, p: Pending, outputs: seq<Table>, l: nat, f: Table, o: Table)
    requires LevelsOk(v) && UniqueSeqs(LevelEntries(v)) && Placed(v, p) && OutputsFromInputs(p, outputs)
    requires NothingAcrossSplit(v, p, outputs)
    requires l <= p.level && f in v[l] && !IsInput(p, l, f) && o in outputs
    ensures Newer(f.entries, o.entries)
  {
    hide LevelsOk, Placed;
    forall x, y | x in f.entries && y in o.entries && x.user == y.user ensures x.sn > y.sn {
      FlattenMembers(outputs);
      assert y in Flatten(outputs);
      var h := OutputEntry(p, outputs, o, y);
      RemainderIsNewer(v, p, l, f, x, h, y);
    }
  }

  lemma OutputNewerThan(v: Levels, p: Pending, outputs: seq<Table>, m: nat, o: Table, g: Table)
    requires OlderDownward(v) && Placed(v, p) && OutputsFromInputs(p, outputs)
    requires p.level + 1 < m < NUM_LEVELS && g in v[m] && o in outputs
    ensures Newer(o.entries, g.entries)
  {
    forall x, y | x in o.entries && y in g.entries && x.user == y.user ensures x.sn > y.sn {
      var h := OutputEntry(p, outputs, o, x);
      OlderAt(v, if h in p.in0 then p.level else p.level + 1, m, h, g, x, y);
    }
  }

  lemma InstallKeepsOrder(v: Levels, p: Pending, outputs: seq<Table>)
    requires LevelsOk(v) && UniqueSeqs(LevelEntries(v)) && Placed(v, p) && OutputsFromInputs(p, outputs)
    requires NothingAcrossSplit(v, p, outputs)
    ensures OlderDownward(Installed(v, p, outputs))
  {
    var v' := Installed(v, p, outputs);
    forall l, m, f, g | 0 <= l < m < NUM_LEVELS && f in v'[l] && g in v'[m] ensures Newer(f.entries, g.entries) {
      InstalledMembers(v, p, outputs, l, f);
      InstalledMembers(v, p, outputs, m, g);
      hide NothingAcrossSplit, Placed, OutputsFromInputs;
      if f in v[l] && g in v[m] {
      } else if g !in v[m] {
        NewerThanOutput(v, p, outputs, l, f, g);
      } else {
        OutputNewerThan(v, p, outputs, m, f, g);
      }
    }
  }

  /** The newest input entry of u is an obsolete marker, so the merge drops all of u. */
  ghost predicate KeyVanishes(p: Pending, u: UserKey) {
    exists n :: && n in InputEntries(p) && n.user == u && Obsolete(n, p.snap, BaseKeys(p.base, p.level))
                && forall x :: x in InputEntries(p) && x.user == u ==> x.sn <= n.sn
  }

  lemma VanishedKeyLeavesNothing(p: Pending, outputs: seq<Table>, u: UserKey, y: Entry)
    requires OutputsOk(p, outputs) && UniqueSeqs(InputEntries(p)) && KeyVanishes(p, u) && y in Flatten(outputs)
    ensures y.user != u
  {
    var n :| && n in InputEntries(p) && n.user == u && Obsolete(n, p.snap, BaseKeys(p.base, p.level))
             && forall x :: x in InputEntries(p) && x.user == u ==> x.sn <= n.sn;
    assert y.user == u && y != n ==> Hidden(InputEntries(p), y, p.snap);
  }

  lemma EntriesOf(v: Levels, l: nat, f: Table, e: Entry)
    requires l < NUM_LEVELS && f in v[l] && e in f.entries
    ensures e in LevelEntries(v)
  {
  }

  /** A boundary cut through a surviving key leaves an older entry above a newer one. */
  lemma SplitBreaksOrder(v: Levels, p: Pending, outputs: seq<Table>, f: Table, g: Table)
    requires Placed(v, p) && OutputsOk(p, outputs) && UniqueSeqs(LevelEntries(v))
    requires SplitBoundary(v, p, p.level, f, g) && !KeyVanishes(p, Largest(f).user)
    ensures !OlderDownward(Installed(v, p, outputs))
  {
    hide LevelEntries, UniqueSeqs, NoGap, MeetsHull, LevelZeroClosed, SortedLevels, FlushedSince, Sorted;
    var x, y := Largest(f), Smallest(g);
    assert f in p.in0 + p.in1 && x in f.entries;
    var n := NewestOfKey(InputEntries(p), x);
    assert !Hidden(InputEntries(p), n, p.snap);
    FlattenMembers(outputs);
    assert n in Flatten(outputs);
    var o :| o in outputs && n in o.entries;
    InstalledMembers(v, p, outputs, p.level, g);
    InstalledMembers(v, p, outputs, p.level + 1, o);
    assert x in LevelEntries(v) && y in LevelEntries(v) by { EntriesOf(v, p.level, f, x); EntriesOf(v, p.level, g, y); }
    LaterInLevel(LevelEntries(v), f, g, x, y);
    assert !Newer(g.entries, o.entries);
  }

  lemma NewestOfKey(es: set<Entry>, x: Entry) returns (n: Entry)
    requires x in es
    ensures n in es && n.user == x.user && x.sn <= n.sn
    ensures forall y :: y in es && y.user == x.user ==> y.sn <= n.sn
  {
    if y :| y in es && y.user == x.user && y.sn > x.sn {
      n := NewestOfKey(es - {x}, y);
    } else {
      n := x;
    }
  }

  /** For inputs chosen by the code, the merge keeps the age order of the levels if and only if every user
      key that its first input level ends in the middle of is headed by an obsolete deletion marker. */
  lemma OrderKeptIff(v: Levels, p: Pending, outputs: seq<Table>)
    requires LevelsOk(v) && UniqueSeqs(LevelEntries(v)) && Placed(v, p) && OutputsOk(p, outputs)
    ensures OlderDownward(Installed(v, p, outputs)) <==>
              forall f, g :: SplitBoundary(v, p, p.level, f, g) ==> KeyVanishes(p, Largest(f).user)
  {
    hide LevelsOk, SplitBoundary, OlderDownward;
    InputsAreEntries(v, p);
    if forall f, g :: SplitBoundary(v, p, p.level, f, g) ==> KeyVanishes(p, Largest(f).user) {
      forall f, g, y | SplitBoundary(v, p, p.level, f, g) && y in Flatten(outputs) ensures y.user != Largest(f).user {
        VanishedKeyLeavesNothing(p, outputs, Largest(f).user, y);
      }
      InstallKeepsOrder(v, p, outputs);
    } else {
      var f, g :| SplitBoundary(v, p, p.level, f, g) && !KeyVanishes(p, Largest(f).user);
      SplitBreaksOrder(v, p, outputs, f, g);
    }
  }

  /** Closed inputs: installing keeps every level invariant. */
  lemma InstallKeepsLevels(v: Levels, p: Pending, outputs: seq<Table>)
    requires LevelsOk(v) && UniqueSeqs(LevelEntries(v)) && PendingOk(v, p) && OutputsFromInputs(p, outputs)
    ensures LevelsOk(Installed(v, p, outputs))
  {
    assert NothingAcrossSplit(v, p, outputs) by {
      forall f, g ensures !SplitBoundary(v, p, p.level, f, g) {
        ClosedSplitsNothing(v, p, p.level, f, g);
      }
    }
    InstallKeepsSorted(v, p, outputs);
    InstallKeepsOrder(v, p, outputs);
    WithoutMembers(v[p.level], p.in0);
  }

  // ----- the entries afterwards -----

  /** No entry of an input occurs in a file that stays. */
  lemma InputsOccurOnce(v: Levels, p: Pending, l: nat, f: Table, e: Entry)
    requires LevelsOk(v) && UniqueSeqs(LevelEntries(v)) && Placed(v, p)
    requires l < NUM_LEVELS && f in v[l] && !IsInput(p, l, f) && e in f.entries
    ensures e !in InputEntries(p)
  {
    if e in InputEntries(p) {
      var h :| h in p.in0 + p.in1 && e in h.entries;
      var k := if h in p.in0 then p.level else p.level + 1;
      assert h in v[k];
      if l <= p.level + 1 {
        RemainderIsNewer(v, p, l, f, e, h, e);
      }
    }
  }

  lemma InputsAreEntries(v: Levels, p: Pending)
    requires Placed(v, p)
    ensures InputEntries(p) <= LevelEntries(v)
  {
    forall e | e in InputEntries(p) ensures e in LevelEntries(v) {
      var h :| h in p.in0 + p.in1 && e in h.entries;
      var k := if h in p.in0 then p.level else p.level + 1;
      assert h in v[k];
    }
  }

  lemma InstalledHas(v: Levels, p: Pending, outputs: seq<Table>, e: Entry)
    requires Placed(v, p)
    requires e in Flatten(outputs) || (e in LevelEntries(v) && e !in InputEntries(p))
    ensures e in LevelEntries(Installed(v, p, outputs))
  {
    if e in Flatten(outputs) {
      FlattenMembers(outputs);
      var o :| o in outputs && e in o.entries;
      InstalledMembers(v, p, outputs, p.level + 1, o);
    } else {
      var l, f :| 0 <= l < NUM_LEVELS && f in v[l] && e in f.entries;
      InstalledMembers(v, p, outputs, l, f);
    }
  }

  lemma InstalledFrom(v: Levels, p: Pending, outputs: seq<Table>, e: Entry)
    requires LevelsOk(v) && UniqueSeqs(LevelEntries(v)) && Placed(v, p)
    requires e in LevelEntries(Installed(v, p, outputs))
    ensures e in Flatten(outputs) || (e in LevelEntries(v) && e !in InputEntries(p))
  {
    var v' := Installed(v, p, outputs);
    var l, f :| 0 <= l < NUM_LEVELS && f in v'[l] && e in f.entries;
    InstalledMembers(v, p, outputs, l, f);
    if f in v[l] && !IsInput(p, l, f) {
      InputsOccurOnce(v, p, l, f, e);
    } else {
      FlattenMembers(outputs);
    }
  }

  lemma InstalledEntries(v: Levels, p: Pending, outputs: seq<Table>)
    requires LevelsOk(v) && UniqueSeqs(LevelEntries(v)) && Placed(v, p)
    ensures LevelEntries(Installed(v, p, outputs)) == (LevelEntries(v) - InputEntries(p)) + Elements(Flatten(outputs))
    ensures InputEntries(p) <= LevelEntries(v)
  {
    InputsAreEntries(v, p);
    var v' := Installed(v, p, outputs);
    forall e | e in LevelEntries(v') ensures e in (LevelEntries(v) - InputEntries(p)) + Elements(Flatten(outputs)) {
      InstalledFrom(v, p, outputs, e);
    }
    forall e | e in (LevelEntries(v) - InputEntries(p)) + Elements(Flatten(outputs)) ensures e in LevelEntries(v') {
      InstalledHas(v, p, outputs, e);
    }
  }

  /** The compaction drops exactly what the drop rules name. */
  lemma InstalledDrops(v: Levels, p: Pending, outputs: seq<Table>)
    requires LevelsOk(v) && UniqueSeqs(LevelEntries(v)) && Placed(v, p) && OutputsOk(p, outputs)
    ensures LevelEntries(Installed(v, p, outputs)) ==
              LevelEntries(v) - Dropped(InputEntries(p), p.snap, BaseKeys(p.base, p.level))
    ensures InputEntries(p) <= LevelEntries(v)
  {
    InstalledEntries(v, p, outputs);
  }
}
