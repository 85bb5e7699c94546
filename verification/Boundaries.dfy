/** What goes wrong when a compaction ends in the middle of a user key.  Outputs are cut between any two entries, and
    inputs are not widened to a neighbour that continues the last user key, so both runs below end in databases, and
    inputs chosen as the code chooses them, that only ClosedInputs rules out. */
module Boundaries {
  import opened Format
  import opened Visibility
  import opened Version
  import opened ReadPath
  import opened Compactions
  import opened LevelEdits
  import opened Install
  import opened Database

  // ----- the steps of the two runs -----

  lemma Writes(db: Db, u: UserKey, kind: Kind, value: Value)
    requires Reachable(db) && db.lastSequence + 1 < MAX_SEQUENCE
    ensures var e := Entry(u, db.lastSequence + 1, kind, value);
            Reachable(db.(mem := InsertEntry(db.mem, e), lastSequence := e.sn, history := db.history + {e}))
  {
    hide Reachable;
    ReachableStep(db, Write(u, kind, value));
  }

  /** The memtable becomes a table of `level`. */
  lemma Flushes(db: Db, level: nat, f: Table)
    requires Reachable(db) && db.imm.None? && f == TableFile(db.nextFile + 1, f.size, db.mem)
             && FlushLevelOk(db.levels, f, level)
    ensures Reachable(db.(mem := [], nextFile := db.nextFile + 2,
            levels := db.levels[level := InsertFile(db.levels[level], f)]))
  {
    hide Reachable, FlushLevelOk, InsertFile;
    ReachableStep(db, SwitchMemTable);
    var mid := Apply(db, SwitchMemTable);
    assert Flushed(mid, f.size) == f;
    ReachableStep(mid, FlushMemTable(level, f.size));
  }

  lemma Picks(db: Db, p: Pending)
    requires Reachable(db) && db.pending.None? && p == Started(db, p.level, p.in0, p.in1)
    requires InputsOk(db.levels, p.level, p.in0, p.in1) && ClosedInputs(p) && |p.in0| == 1 >= |p.in1|
    ensures Reachable(db.(pending := Some(p)))
  {
    hide Reachable, ClosedInputs;
    ReachableStep(db, PickInputs(p.level, p.in0, p.in1));
  }

  lemma Opens(db: Db)
    requires Reachable(db) && db.pending.Some?
    ensures Reachable(db.(nextFile := db.nextFile + 1))
  {
    hide Reachable;
    ReachableStep(db, OpenOutput);
  }

  lemma Installs(db: Db, p: Pending, outputs: seq<Table>)
    requires Reachable(db) && db.pending == Some(p) && p.level + 1 < NUM_LEVELS && OutputsOk(p, outputs)
    requires forall f :: f in outputs ==> f.number < db.nextFile
    ensures Reachable(db.(levels := Installed(db.levels, p, outputs), pending := None, horizon := p.snap))
  {
    hide Reachable, OutputsOk, Installed;
    ReachableStep(db, InstallOutputs(outputs));
  }

  /** A compaction of closed inputs, with two output files opened, and nothing in between. */
  lemma Merges(db: Db, p: Pending, outputs: seq<Table>)
    requires Reachable(db) && db.pending.None? && p == Started(db, p.level, p.in0, p.in1)
    requires InputsOk(db.levels, p.level, p.in0, p.in1) && ClosedInputs(p) && OutputsOk(p, outputs)
    requires |p.in0| == 1 >= |p.in1|
    requires forall f :: f in outputs ==> f.number < db.nextFile + 2
    ensures Reachable(db.(levels := Installed(db.levels, p, outputs), nextFile := db.nextFile + 2, horizon := p.snap))
  {
    hide Reachable, ClosedInputs, OutputsOk, Installed, NoGap, MeetsHull, LevelZeroClosed;
    Picks(db, p);
    var d := db.(pending := Some(p));
    Opens(d);
    Opens(d.(nextFile := db.nextFile + 1));
    Installs(d.(nextFile := db.nextFile + 2), p, outputs);
  }

  lemma Starts()
    ensures Reachable(Init())
  {
    assert Run(Init(), []) == Some(Init());
  }

  /** Levels 1 and 2; the others are empty. */
  function Two(one: seq<Table>, two: seq<Table>): Levels {
    [[], one, two, [], [], [], []]
  }

  lemma TwoPut(one: seq<Table>, two: seq<Table>, files: seq<Table>)
    ensures Two(one, two)[1 := files] == Two(files, two) && Two(one, two)[2 := files] == Two(one, files)
  {
  }

  /** A table goes to an empty level 1 or 2. */
  lemma FlushesAlone(db: Db, level: nat, f: Table, one: seq<Table>, two: seq<Table>)
    requires Reachable(db) && db.imm.None? && f == TableFile(db.nextFile + 1, f.size, db.mem)
             && FlushLevelOk(db.levels, f, level)
    requires db.levels == Two(one, two) && 1 <= level <= 2 && db.levels[level] == []
    ensures Reachable(db.(mem := [], nextFile := db.nextFile + 2, levels := if level == 1 then Two([f], two)
            else Two(one, [f])))
  {
    hide Reachable, FlushLevelOk;
    Flushes(db, level, f);
    assert InsertFile([], f) == [f];
    TwoPut(one, two, [f]);
  }

  lemma OneFile(a: Table)
    ensures Flatten([a]) == a.entries && Without([a], [a]) == [] && AddFiles([], [a]) == [a]
  {
    assert [a][..0] == [] && [a][1..] == [];
  }

  lemma TwoFiles(a: Table, b: Table)
    requires a != b
    ensures Flatten([a, b]) == a.entries + b.entries && Without([a, b], [a]) == [b]
    ensures BySmallestKey(a, b) ==> AddFiles([], [a, b]) == [a, b]
  {
    OneFile(a);
    OneFile(b);
    assert [a, b][..1] == [a] && [a, b][1..] == [b] && [a][1..] == [];
    assert Without([b], [a]) == [b] by { assert [b][1..] == []; }
  }

  lemma EntriesOfTwo(p: Pending, a: Table, b: Table)
    requires p.in0 + p.in1 == [a, b]
    ensures InputEntries(p) == Elements(a.entries + b.entries)
  {
    assert forall f :: f in [a, b] <==> f == a || f == b;
  }

  // ----- a stale read -----

  /** Any values, and any file size up to the overlap that stops a flush: a value of two megabytes makes the
      merge cut its output behind it. */
  datatype Sample = Sample(earlier: Value, later: Value, size: nat)

  ghost predicate Flushable(w: Sample) { w.size <= MAX_GRANDPARENT_OVERLAP_BYTES }

  function Old(w: Sample): Entry { Entry(1, 1, Put, w.earlier) }
  function New(w: Sample): Entry { Entry(1, 2, Put, w.later) }
  function First(w: Sample): Table { TableFile(3, w.size, [Old(w)]) }
  function Second(w: Sample): Table { TableFile(5, w.size, [New(w)]) }
  function A(w: Sample): Table { TableFile(6, w.size, [New(w)]) }
  function B(w: Sample): Table { TableFile(7, w.size, [Old(w)]) }

  /** User key 1 is in both files of level 2; the snapshot at 1 kept the older value alive through the merge. */
  function SplitDb(w: Sample): Db {
    Db([], None, Two([], [A(w), B(w)]), 2, [1], None, 8, {Old(w), New(w)}, 1)
  }

  ghost function FirstMerge(w: Sample): Pending {
    Pending(1, [Second(w)], [First(w)], Two([Second(w)], [First(w)]), 1)
  }

  lemma FirstMergeInputs(w: Sample)
    ensures var p := FirstMerge(w); InputsOk(p.base, 1, p.in0, p.in1) && ClosedInputs(p)
  {
    var p := FirstMerge(w);
    assert MeetsHull(First(w), p.in0) by { assert Second(w) in p.in0; }
    forall a, b, k | a in p.in0 + p.in1 && b in p.in0 + p.in1 && Smallest(a).user <= k <= Largest(b).user
      ensures Covered(p.in0 + p.in1, k)
    {
      assert Second(w) in p.in0 + p.in1 && Contains(Second(w), k);
    }
  }

  lemma FirstMergeOutputs(w: Sample)
    ensures OutputsOk(FirstMerge(w), [A(w), B(w)])
  {
    var p := FirstMerge(w);
    TwoFiles(A(w), B(w));
    EntriesOfTwo(p, Second(w), First(w));
    assert Flatten([A(w), B(w)]) == [New(w), Old(w)] && InputEntries(p) == Elements([New(w), Old(w)]);
    hide Flatten, InputEntries, BaseKeys;
    assert Sorted([New(w), Old(w)]);
    assert forall e :: e in [New(w), Old(w)] ==> Survives(Elements([New(w), Old(w)]), e, 1, BaseKeys(p.base, 1));
  }

  lemma FirstMergeInstalled(w: Sample)
    ensures Installed(FirstMerge(w).base, FirstMerge(w), [A(w), B(w)]) == Two([], [A(w), B(w)])
  {
    TwoFiles(A(w), B(w));
    OneFile(First(w));
    OneFile(Second(w));
    hide Without, AddFiles;
    TwoPut([Second(w)], [First(w)], []);
    TwoPut([], [First(w)], [A(w), B(w)]);
  }

  lemma SplitReached(w: Sample)
    requires Flushable(w)
    ensures Reachable(SplitDb(w))
  {
    FirstMergeInputs(w);
    FirstMergeOutputs(w);
    FirstMergeInstalled(w);
    hide Reachable, InputsOk, ClosedInputs, OutputsOk, Installed;
    Starts();
    Writes(Init(), 1, Put, w.earlier);
    var d1 := Db([Old(w)], None, Two([], []), 1, [], None, 2, {Old(w)}, 0);
    assert d1.levels == Init().levels && d1.history == Init().history + {Old(w)} && d1.mem == InsertEntry([], Old(w));
    FlushesAlone(d1, 2, First(w), [], []);
    var d2 := Db([], None, Two([], [First(w)]), 1, [], None, 4, {Old(w)}, 0);
    ReachableStep(d2, TakeSnapshot);
    var d3 := d2.(snapshots := [1]);
    assert d3.snapshots == d2.snapshots + [1];
    Writes(d3, 1, Put, w.later);
    var d4 := d3.(mem := [New(w)], lastSequence := 2, history := {Old(w), New(w)});
    assert d4.history == d3.history + {New(w)} && d4.mem == InsertEntry([], New(w));
    FlushesAlone(d4, 1, Second(w), [], [First(w)]);
    var d5 := Db([], None, Two([Second(w)], [First(w)]), 2, [1], None, 6, {Old(w), New(w)}, 0);
    Merges(d5, FirstMerge(w), [A(w), B(w)]);
  }

  ghost function SplitMove(w: Sample): Pending {
    Pending(2, [A(w)], [], Two([], [A(w), B(w)]), 1)
  }

  lemma SplitMoveInputs(w: Sample)
    ensures var p := SplitMove(w); InputsOk(p.base, 2, p.in0, p.in1) && !ClosedInputs(p) && OutputsOk(p, [A(w)])
    ensures var p := SplitMove(w); Installed(p.base, p, [A(w)]) == [[], [], [B(w)], [A(w)], [], [], []]
  {
    var p := SplitMove(w);
    assert A(w) in p.in0 && B(w) in p.base[2] && B(w) !in p.in0 && Before(Largest(A(w)), Smallest(B(w)));
    forall k | 1 <= k <= 1 ensures Covered([A(w)] + [], k) { assert A(w) in [A(w)] + [] && Contains(A(w), k); }
    OneFile(A(w));
    TwoFiles(A(w), B(w));
    assert p.in0 + p.in1 == [A(w)];
    assert InputEntries(p) == Elements([New(w)]) by { assert A(w) in [A(w)] && New(w) in A(w).entries; }
  }

  lemma OldIsHit(w: Sample, v: Levels)
    requires v == [[], [], [B(w)], [A(w)], [], [], []]
    ensures FirstHit(v, Old(w), 2)
  {
    assert B(w) in v[2] && Old(w) in B(w).entries && Hits(B(w).entries, Old(w), 1, 2);
    assert HitAt(v, 2, Old(w), 2);
  }

  /** A run after which the code moves the newer half of a key down, alone, and so uncovers the older half: the latest
      read is stale. */
  lemma StaleRead(w: Sample) returns (db: Db, p: Pending)
    requires Flushable(w)
    ensures Reachable(db) && db.mem == [] && db.imm.None? && db.pending.None?
    ensures LiveSequence(db, db.lastSequence)
    ensures p == Started(db, p.level, p.in0, p.in1) && |p.in0| == 1 && p.in1 == []
    ensures InputsOk(db.levels, p.level, p.in0, p.in1) && !ClosedInputs(p) && OutputsOk(p, p.in0)
    ensures FirstHit(Installed(db.levels, p, p.in0), Old(w), db.lastSequence)
    ensures Visible(db.history, Old(w).user, db.lastSequence) == Some(w.later)
  {
    db, p := SplitDb(w), SplitMove(w);
    hide Reachable, InputsOk, ClosedInputs, OutputsOk, Installed, FirstHit;
    SplitReached(w);
    SplitMoveInputs(w);
    OldIsHit(w, Installed(db.levels, p, p.in0));
    assert IsNewest(db.history, New(w), 1, 2);
    VisibleIs(db.history, New(w), 1, 2);
  }

  // ----- a value that comes back -----

  const MARKER := Entry(1, 3, Deletion, "")

  function X(w: Sample): Entry { Entry(0, 4, Put, w.later) }
  function Y(w: Sample): Entry { Entry(0, 2, Put, w.later) }
  function Deleted(w: Sample): Entry { Entry(1, 1, Put, w.earlier) }
  function Stored(w: Sample): Table { TableFile(3, w.size, [Deleted(w)]) }
  function Deleting(w: Sample): Table { TableFile(5, w.size, [Y(w), MARKER]) }
  function C(w: Sample): Table { TableFile(6, w.size, [Y(w), MARKER]) }
  function D(w: Sample): Table { TableFile(7, w.size, [Deleted(w)]) }
  function Top(w: Sample): Table { TableFile(9, w.size, [X(w)]) }

  /** Level 2 holds the marker and the value it deletes in two files; the snapshot that kept them apart is released. */
  function MarkerDb(w: Sample): Db {
    Db([], None, Two([Top(w)], [C(w), D(w)]), 4, [], None, 10, {Deleted(w), Y(w), MARKER, X(w)}, 1)
  }

  ghost function SecondMerge(w: Sample): Pending {
    Pending(1, [Deleting(w)], [Stored(w)], Two([Deleting(w)], [Stored(w)]), 1)
  }

  lemma SecondMergeInputs(w: Sample)
    ensures var p := SecondMerge(w); InputsOk(p.base, 1, p.in0, p.in1) && ClosedInputs(p)
  {
    var p := SecondMerge(w);
    assert MeetsHull(Stored(w), p.in0) by { assert Deleting(w) in p.in0; }
    forall a, b, k | a in p.in0 + p.in1 && b in p.in0 + p.in1 && Smallest(a).user <= k <= Largest(b).user
      ensures Covered(p.in0 + p.in1, k)
    {
      assert Deleting(w) in p.in0 + p.in1 && Contains(Deleting(w), k);
    }
  }

  lemma SecondMergeOutputs(w: Sample)
    ensures OutputsOk(SecondMerge(w), [C(w), D(w)])
  {
    var p, xs := SecondMerge(w), [Y(w), MARKER, Deleted(w)];
    TwoFiles(C(w), D(w));
    EntriesOfTwo(p, Deleting(w), Stored(w));
    assert Flatten([C(w), D(w)]) == xs && InputEntries(p) == Elements(xs);
    hide Flatten, InputEntries, BaseKeys;
    assert Sorted(xs);
    assert forall e :: e in xs ==> Survives(Elements(xs), e, 1, BaseKeys(p.base, 1));
  }

  lemma SecondMergeInstalled(w: Sample)
    ensures Installed(SecondMerge(w).base, SecondMerge(w), [C(w), D(w)]) == Two([], [C(w), D(w)])
  {
    TwoFiles(C(w), D(w));
    OneFile(Stored(w));
    OneFile(Deleting(w));
    hide Without, AddFiles;
    TwoPut([Deleting(w)], [Stored(w)], []);
    TwoPut([], [Stored(w)], [C(w), D(w)]);
  }

  lemma MarkerReached(w: Sample)
    requires Flushable(w)
    ensures Reachable(MarkerDb(w))
  {
    SecondMergeInputs(w);
    SecondMergeOutputs(w);
    SecondMergeInstalled(w);
    hide Reachable, InputsOk, ClosedInputs, OutputsOk, Installed;
    Starts();
    Writes(Init(), 1, Put, w.earlier);
    var d1 := Db([Deleted(w)], None, Two([], []), 1, [], None, 2, {Deleted(w)}, 0);
    assert d1.levels == Init().levels && d1.history == Init().history + {Deleted(w)}
        && d1.mem == InsertEntry([], Deleted(w));
    FlushesAlone(d1, 2, Stored(w), [], []);
    var d2 := Db([], None, Two([], [Stored(w)]), 1, [], None, 4, {Deleted(w)}, 0);
    ReachableStep(d2, TakeSnapshot);
    var d3 := d2.(snapshots := [1]);
    assert d3.snapshots == d2.snapshots + [1];
    Writes(d3, 0, Put, w.later);
    var d4 := d3.(mem := [Y(w)], lastSequence := 2, history := {Deleted(w), Y(w)});
    assert d4.history == d3.history + {Y(w)} && d4.mem == InsertEntry([], Y(w));
    Writes(d4, 1, Deletion, "");
    var d5 := d4.(mem := [Y(w), MARKER], lastSequence := 3, history := {Deleted(w), Y(w), MARKER});
    assert d5.history == d4.history + {MARKER} && d5.mem == InsertEntry([Y(w)], MARKER) by { assert [Y(w)][1..] == []; }
    FlushesAlone(d5, 1, Deleting(w), [], [Stored(w)]);
    var d6 := Db([], None, Two([Deleting(w)], [Stored(w)]), 3, [1], None, 6, {Deleted(w), Y(w), MARKER}, 0);
    Merges(d6, SecondMerge(w), [C(w), D(w)]);
    var d7 := Db([], None, Two([], [C(w), D(w)]), 3, [1], None, 8, {Deleted(w), Y(w), MARKER}, 1);
    MarkerFilled(w, d7);
  }

  /** The snapshot goes, and a table that shares a key with the first file only arrives above. */
  lemma MarkerFilled(w: Sample, d: Db)
    requires Flushable(w) && Reachable(d)
             && d == Db([], None, Two([], [C(w), D(w)]), 3, [1], None, 8, {Deleted(w), Y(w), MARKER}, 1)
    ensures Reachable(MarkerDb(w))
  {
    hide Reachable;
    ReachableStep(d, ReleaseSnapshot(0));
    var d1 := d.(snapshots := []);
    assert d1.snapshots == d.snapshots[..0] + d.snapshots[1..];
    Writes(d1, 0, Put, w.later);
    var d2 := d1.(mem := [X(w)], lastSequence := 4, history := {Deleted(w), Y(w), MARKER, X(w)});
    assert d2.history == d1.history + {X(w)} && d2.mem == InsertEntry([], X(w));
    FlushesAlone(d2, 1, Top(w), [], [C(w), D(w)]);
  }

  ghost function MarkerMerge(w: Sample): Pending {
    Pending(1, [Top(w)], [C(w)], Two([Top(w)], [C(w), D(w)]), 4)
  }

  lemma MarkerInputs(w: Sample)
    ensures var p := MarkerMerge(w); InputsOk(p.base, 1, p.in0, p.in1) && !ClosedInputs(p)
  {
    var p := MarkerMerge(w);
    assert MeetsHull(C(w), p.in0) by { assert Top(w) in p.in0; }
    assert !MeetsHull(D(w), p.in0);
    forall a, b, k | a in p.in0 + p.in1 && b in p.in0 + p.in1 && Smallest(a).user <= k <= Largest(b).user
      ensures Covered(p.in0 + p.in1, k)
    {
      assert C(w) in p.in0 + p.in1 && Contains(C(w), k);
    }
    assert C(w) in p.in1 && D(w) in p.base[2] && D(w) !in p.in1 && Before(Largest(C(w)), Smallest(D(w)));
  }

  lemma MarkerEntries(w: Sample)
    ensures InputEntries(MarkerMerge(w)) == {X(w), Y(w), MARKER}
    ensures LevelEntries(MarkerMerge(w).base) == {X(w), Y(w), MARKER, Deleted(w)}
    ensures Obsolete(MARKER, 4, BaseKeys(MarkerMerge(w).base, 1))
  {
    var p := MarkerMerge(w);
    EntriesOfTwo(p, Top(w), C(w));
    assert Top(w) in p.base[1] && C(w) in p.base[2] && D(w) in p.base[2];
    assert X(w) in Top(w).entries && Y(w) in C(w).entries && MARKER in C(w).entries && Deleted(w) in D(w).entries;
    assert IsBaseLevel(p.base, 1, 1);
  }

  /** A run after which the code drops a marker, at the end of an input, as obsolete, although the value it deletes
      begins the next file of the output level: every merge the code can make brings the deleted value back. */
  lemma ResurrectedValue(w: Sample) returns (db: Db, p: Pending)
    requires Flushable(w)
    ensures Reachable(db) && db.mem == [] && db.imm.None? && db.pending.None?
    ensures LiveSequence(db, db.lastSequence)
    ensures p == Started(db, p.level, p.in0, p.in1) && |p.in0| == 1
    ensures InputsOk(db.levels, p.level, p.in0, p.in1) && !ClosedInputs(p)
    ensures Visible(db.history, Deleted(w).user, db.lastSequence) == None
    ensures forall outputs :: OutputsOk(p, outputs) ==>
              FirstHit(Installed(db.levels, p, outputs), Deleted(w), db.lastSequence)
    ensures Deleted(w).kind.Put?
  {
    db, p := MarkerDb(w), MarkerMerge(w);
    hide Reachable, InputsOk, ClosedInputs, OutputsOk, Installed, LevelEntries, Visible, FirstHit;
    MarkerReached(w);
    MarkerInputs(w);
    MarkerIsMasked(w);
    forall outputs | OutputsOk(p, outputs)
      ensures FirstHit(Installed(db.levels, p, outputs), Deleted(w), 4)
    {
      MarkerDropped(w, outputs);
    }
  }

  lemma MarkerIsMasked(w: Sample)
    ensures Visible(MarkerDb(w).history, 1, 4) == None
  {
    assert IsNewest(MarkerDb(w).history, MARKER, 1, 4);
    VisibleIs(MarkerDb(w).history, MARKER, 1, 4);
  }

  lemma MarkerDropped(w: Sample, outputs: seq<Table>)
    requires Flushable(w) && OutputsOk(MarkerMerge(w), outputs)
    ensures var p := MarkerMerge(w); FirstHit(Installed(p.base, p, outputs), Deleted(w), 4)
  {
    var p := MarkerMerge(w);
    hide LevelEntries, InputEntries, Installed, LevelsOk, Placed, OutputsOk, Obsolete, UniqueSeqs, Dropped, FirstHit;
    MarkerState(w);
    MarkerEntries(w);
    InstalledDrops(p.base, p, outputs);
    var rest := LevelEntries(Installed(p.base, p, outputs));
    MarkerLeaves(w, rest, InputEntries(p), BaseKeys(p.base, 1));
    OnlyEntryIsHit(Installed(p.base, p, outputs), Deleted(w), 4);
  }

  /** The last entry of a key is what a search finds, at whatever level it is. */
  lemma OnlyEntryIsHit(v: Levels, e: Entry, s: nat)
    requires e in LevelEntries(v) && e.sn <= s && forall x :: x in LevelEntries(v) && x.user == e.user ==> x == e
    ensures FirstHit(v, e, s)
  {
    var l: nat := 0;
    while !exists f :: f in v[l] && e in f.entries
      invariant l < NUM_LEVELS && forall m, f :: 0 <= m < l && f in v[m] ==> e !in f.entries
      decreases NUM_LEVELS - l
    {
      l := l + 1;
    }
    assert HitAt(v, l, e, s);
  }

  lemma MarkerState(w: Sample)
    requires Flushable(w)
    ensures var p := MarkerMerge(w); p.level == 1 && p.snap == 4
    ensures var p := MarkerMerge(w); LevelsOk(p.base) && UniqueSeqs(LevelEntries(p.base)) && Placed(p.base, p)
  {
    hide Reachable, InputsOk, AllEntries, LevelEntries, Faithful, PendingOk, Newer, DisjointSorted, LevelZeroOrdered,
      OlderDownward;
    MarkerReached(w);
    MarkerInputs(w);
    ReachableInv(MarkerDb(w));
    LevelSeqsUnique(MarkerDb(w));
  }

  lemma MarkerLeaves(w: Sample, rest: set<Entry>, inputs: set<Entry>, base: iset<UserKey>)
    requires inputs == {X(w), Y(w), MARKER} && Obsolete(MARKER, 4, base)
    requires rest == {X(w), Y(w), MARKER, Deleted(w)} - Dropped(inputs, 4, base)
    ensures Deleted(w) in rest && forall x :: x in rest && x.user == 1 ==> x == Deleted(w)
  {
    hide Obsolete;
  }
}
