/** The iterators of a database put together: what a compaction reads (VersionSet::MakeInputIterator), and what a scan
    of the database shows (DBImpl::NewInternalIterator and NewIterator). */
module Scans {
  import opened Format
  import opened Visibility
  import opened Version
  import opened ReadPath
  import opened Compactions
  import opened LevelEdits
  import opened Install
  import opened Database
  import opened Cursors
  import opened Merging
  import opened TwoLevel
  import opened UserIterator

  // ----- no file is listed twice -----

  ghost predicate Distinct(files: seq<Table>) {
    forall i, j :: 0 <= i < j < |files| ==> files[i] != files[j]
  }

  lemma PrependDistinct(f: Table, files: seq<Table>)
    requires Distinct(files) && f !in files
    ensures Distinct([f] + files)
  {
  }

  lemma {:induction false} InsertDistinct(files: seq<Table>, f: Table)
    requires Distinct(files) && f !in files
    ensures Distinct(InsertFile(files, f))
  {
    if files != [] && BySmallestKey(files[0], f) {
      InsertDistinct(files[1..], f);
      InsertFileMembers(files[1..], f);
      PrependDistinct(files[0], InsertFile(files[1..], f));
    } else {
      PrependDistinct(f, files);
    }
  }

  lemma {:induction false} AddDistinct(files: seq<Table>, added: seq<Table>)
    requires Distinct(files) && Distinct(added) && forall f :: f in added ==> f !in files
    ensures Distinct(AddFiles(files, added))
  {
    if added != [] {
      var rest := added[..|added| - 1];
      AddDistinct(files, rest);
      AddFilesMembers(files, rest);
      InsertDistinct(AddFiles(files, rest), added[|added| - 1]);
    }
  }

  lemma {:induction false} WithoutDistinct(files: seq<Table>, removed: seq<Table>)
    requires Distinct(files)
    ensures Distinct(Without(files, removed))
  {
    if files != [] {
      WithoutDistinct(files[1..], removed);
      WithoutMembers(files[1..], removed);
      var rest := Without(files[1..], removed);
      if files[0] in removed {
        assert [] + rest == rest;
      } else {
        PrependDistinct(files[0], rest);
      }
    }
  }

  /** The inputs of a compaction in the order of their levels. */
  ghost predicate InOrder(p: Pending) {
    && p.level + 1 < NUM_LEVELS && Distinct(p.base[0])
    && InListOrder(p.in0, p.base[p.level]) && InListOrder(p.in1, p.base[p.level + 1])
  }

  ghost predicate Listed(db: Db) {
    Distinct(db.levels[0]) && (db.pending.Some? ==> InOrder(db.pending.value))
  }

  lemma StepKeepsListed(db: Db, a: Action)
    requires Inv(db) && Listed(db) && Enabled(db, a)
    ensures Listed(Apply(db, a))
  {
    hide Ordered, Recorded, SnapshotsOk, Faithful, PendingOk, OutputsOk, ClosedInputs, InListOrder, NoGap, MeetsHull,
      LevelZeroClosed, Distinct, FromLogs;
    match a
    case FlushMemTable(level, size) =>
      if ImmEntries(db) != [] {
        InsertNew(db, Flushed(db, size), level);
      }
    case InstallOutputs(_) => WithoutDistinct(db.levels[0], db.pending.value.in0);
    case MoveFile(level, file) => WithoutDistinct(db.levels[0], [file]);
    case Recover(tables, reuse, _) => AddNew(db, tables, reuse);
    case _ =>
  }

  lemma InsertNew(db: Db, f: Table, level: nat)
    requires FilesNumbered(db) && Distinct(db.levels[0]) && f.number == db.nextFile && level < NUM_LEVELS
    ensures Distinct(db.levels[level := InsertFile(db.levels[level], f)][0])
  {
    assert f !in db.levels[0];
    InsertDistinct(db.levels[0], f);
  }

  lemma AddNew(db: Db, tables: seq<Table>, reuse: bool)
    requires Distinct(db.levels[0]) && FromLogs(db, tables, reuse)
    ensures Distinct(AddFiles(db.levels[0], tables))
  {
    AddDistinct(db.levels[0], tables);
  }

  lemma {:induction false} RunKeepsListed(db: Db, actions: seq<Action>)
    requires Inv(db) && Listed(db) && Run(db, actions).Some?
    ensures Listed(Run(db, actions).value)
    decreases |actions|
  {
    hide Inv, Enabled, Apply, Listed;
    if actions != [] {
      StepKeepsInv(db, actions[0]);
      StepKeepsListed(db, actions[0]);
      RunKeepsListed(Apply(db, actions[0]), actions[1..]);
    }
  }

  lemma ReachableListed(db: Db)
    requires Reachable(db)
    ensures Listed(db)
  {
    InitInv();
    hide Inv, Enabled, Apply;
    var actions :| Run(Init(), actions) == Some(db);
    RunKeepsListed(Init(), actions);
  }

  // ----- sorted lists that share no entry, and their merge -----

  ghost function Union(lists: seq<seq<Entry>>): set<Entry> {
    set i, e | 0 <= i < |lists| && e in lists[i] :: e
  }

  ghost predicate NoneShared(lists: seq<seq<Entry>>) {
    && (forall i :: 0 <= i < |lists| ==> Sorted(lists[i]))
    && (forall i, j, e :: 0 <= i < j < |lists| && e in lists[i] ==> e !in lists[j])
  }

  lemma AppendLists(a: seq<seq<Entry>>, b: seq<seq<Entry>>)
    requires NoneShared(a) && NoneShared(b) && Union(a) !! Union(b)
    ensures NoneShared(a + b) && Union(a + b) == Union(a) + Union(b)
  {
    hide Sorted;
    forall i, j, e | 0 <= i < j < |a + b| && e in (a + b)[i] ensures e !in (a + b)[j] {
      if i < |a| <= j {
        assert e in a[i] && e in Union(a);
        assert e in b[j - |a|] ==> e in Union(b);
      }
    }
    UnionAppend(a, b);
  }

  lemma UnionAppend(a: seq<seq<Entry>>, b: seq<seq<Entry>>)
    ensures Union(a + b) == Union(a) + Union(b)
  {
    forall e | e in Union(b) ensures e in Union(a + b) {
      var i :| 0 <= i < |b| && e in b[i];
      assert e in (a + b)[|a| + i];
    }
    forall e | e in Union(a) ensures e in Union(a + b) {
      var i :| 0 <= i < |a| && e in a[i];
      assert e in (a + b)[i];
    }
  }

  lemma OneList(xs: seq<Entry>)
    ensures Union([xs]) == Elements(xs) && Union([]) == {} && NoneShared([]) && (Sorted(xs) ==> NoneShared([xs]))
  {
    assert forall e :: e in xs ==> e in [xs][0];
  }

  /** Every entry once, in order. */
  ghost function Ranked(es: seq<Entry>): seq<Entry> {
    if es == [] then [] else
      var rest := Ranked(es[1..]);
      if es[0] in rest then rest else InsertEntry(rest, es[0])
  }

  lemma {:induction false} RankedIs(es: seq<Entry>)
    requires UniqueSeqs(Elements(es))
    ensures Sorted(Ranked(es)) && Elements(Ranked(es)) == Elements(es)
  {
    if es != [] {
      var rest := Ranked(es[1..]);
      assert Elements(es) == {es[0]} + Elements(es[1..]);
      RankedIs(es[1..]);
      if es[0] !in rest {
        InsertEntryMembers(rest, es[0]);
        forall x | x in rest ensures Tag(x) != Tag(es[0]) {
          assert x in Elements(rest) && x != es[0];
        }
        InsertEntrySorted(rest, es[0]);
      }
    }
  }

  function Unpositioned(lists: seq<seq<Entry>>): seq<Cursor> {
    seq(|lists|, i requires 0 <= i < |lists| => Cursor(lists[i], |lists[i]|))
  }

  lemma MergeExists(lists: seq<seq<Entry>>) returns (merged: seq<Entry>)
    requires NoneShared(lists) && UniqueSeqs(Union(lists))
    ensures IsMerge(Unpositioned(lists), merged) && Elements(merged) == Union(lists)
  {
    hide Sorted, UniqueSeqs;
    ConcatElements(lists);
    merged := Ranked(Concat(lists));
    RankedIs(Concat(lists));
    var children := Unpositioned(lists);
    forall e | e in merged ensures exists i :: 0 <= i < |children| && e in children[i].xs {
      assert e in Elements(merged);
      var i :| 0 <= i < |lists| && e in lists[i];
      assert e in children[i].xs;
    }
    forall i, e | 0 <= i < |children| && e in children[i].xs ensures e in merged {
      assert e in lists[i] && e in Union(lists) && e in Elements(merged);
    }
  }

  lemma ConcatElements(lists: seq<seq<Entry>>)
    ensures Elements(Concat(lists)) == Union(lists)
  {
    forall e | e in Concat(lists) ensures e in Union(lists) {
      var k :| 0 <= k < |Concat(lists)| && Concat(lists)[k] == e;
      var i, j := BlockOf(lists, k);
      assert e in lists[i];
    }
    forall e | e in Union(lists) ensures e in Concat(lists) {
      var i :| 0 <= i < |lists| && e in lists[i];
      var j :| 0 <= j < |lists[i]| && lists[i][j] == e;
      ConcatAt(lists, i, j);
    }
  }

  /** The merging iterator, walked from its first entry to its last. */
  method Drain(lists: seq<seq<Entry>>) returns (merged: seq<Entry>)
    requires NoneShared(lists) && UniqueSeqs(Union(lists))
    ensures Sorted(merged) && Elements(merged) == Union(lists)
    ensures IsMerge(Unpositioned(lists), merged)
  {
    hide Sorted, UniqueSeqs, NoneShared, IsMerge, MergingIterator.Valid, MergingIterator.View;
    ghost var all := MergeExists(lists);
    var it := new MergingIterator(Unpositioned(lists), all);
    it.SeekToFirst();
    merged := [];
    var more := it.IsValid();
    while more
      invariant it.Valid() && it.merged == all && |merged| <= |all| && merged == all[..|merged|]
      invariant it.View() == Cursor(all, |merged|) && (more <==> it.View().Valid())
      decreases |all| - |merged|
    {
      var e := it.Key();
      merged := merged + [e];
      it.Next();
      more := it.IsValid();
    }
    assert merged == all;
    MergeSorted(Unpositioned(lists), all);
  }

  lemma MergeSorted(children: seq<Cursor>, merged: seq<Entry>)
    requires IsMerge(children, merged)
    ensures Sorted(merged)
  {
  }

  // ----- files as lists -----

  ghost function FilesEntries(files: seq<Table>): set<Entry> {
    set f, e | f in files && e in f.entries :: e
  }

  lemma FilesUnion(files: seq<Table>)
    ensures Union(FileEntries(files)) == FilesEntries(files)
  {
    var lists := FileEntries(files);
    forall e | e in FilesEntries(files) ensures e in Union(lists) {
      var f :| f in files && e in f.entries;
      var i :| 0 <= i < |files| && files[i] == f;
      assert e in lists[i];
    }
    forall e | e in Union(lists) ensures e in FilesEntries(files) {
      var i :| 0 <= i < |lists| && e in lists[i];
      assert files[i] in files && e in files[i].entries;
    }
  }

  /** Files of level 0, each a list. */
  lemma LevelZeroLists(files: seq<Table>, all: seq<Table>)
    requires Distinct(files) && LevelZeroOrdered(all) && forall f :: f in files ==> f in all
    ensures NoneShared(FileEntries(files)) && Union(FileEntries(files)) == FilesEntries(files)
  {
    FilesUnion(files);
    var lists := FileEntries(files);
    forall i, j, e | 0 <= i < j < |lists| && e in lists[i] ensures e !in lists[j] {
      var f, g := files[i], files[j];
      assert f in all && g in all && f.number != g.number;
      assert Newer(f.entries, g.entries) || Newer(g.entries, f.entries);
    }
  }

  /** Files of a sorted level, one list. */
  lemma SortedFilesList(files: seq<Table>)
    requires DisjointSorted(files)
    ensures NoneShared([Concat(FileEntries(files))]) && Union([Concat(FileEntries(files))]) == FilesEntries(files)
  {
    hide DisjointSorted, NoneShared, FilesEntries, Sorted;
    LevelSeparates(files);
    OneList(Concat(FileEntries(files)));
    ConcatElements(FileEntries(files));
    FilesUnion(files);
  }

  lemma NewerShareNothing(a: seq<Table>, b: seq<Table>)
    requires forall f, g :: f in a && g in b ==> Newer(f.entries, g.entries)
    ensures FilesEntries(a) !! FilesEntries(b)
  {
    forall f, g, e | f in a && g in b && e in f.entries ensures e !in g.entries {
      assert Newer(f.entries, g.entries);
    }
  }

  // ----- what a compaction reads -----

  /** MakeInputIterator: one iterator per file of level 0, and one that concatenates the files of any other level. */
  function InputLists(p: Pending): seq<seq<Entry>> {
    (if p.level == 0 then FileEntries(p.in0) else [Concat(FileEntries(p.in0))])
    + if p.in1 == [] then [] else [Concat(FileEntries(p.in1))]
  }

  lemma OrderedSubset(inputs: seq<Table>, files: seq<Table>)
    requires InListOrder(inputs, files)
    ensures Distinct(files) ==> Distinct(inputs)
    ensures DisjointSorted(files) ==> DisjointSorted(inputs)
  {
    forall i, j | 0 <= i < j < |inputs|
      ensures Distinct(files) ==> inputs[i] != inputs[j]
      ensures DisjointSorted(files) ==> Before(Largest(inputs[i]), Smallest(inputs[j]))
    {
      assert Precedes(inputs[i], inputs[j], files);
    }
  }

  lemma InputListsAre(v: Levels, p: Pending)
    requires LevelsOk(v) && Placed(v, p) && InOrder(p)
    ensures NoneShared(InputLists(p)) && Union(InputLists(p)) == InputEntries(p)
  {
    hide NoneShared, Union, Concat, FileEntries, Distinct, DisjointSorted, LevelZeroOrdered, InListOrder, FilesEntries,
      Newer,
      NoGap, MeetsHull, LevelZeroClosed;
    OrderedSubset(p.in0, p.base[p.level]);
    OrderedSubset(p.in1, p.base[p.level + 1]);
    var a := if p.level == 0 then FileEntries(p.in0) else [Concat(FileEntries(p.in0))];
    var b := if p.in1 == [] then [] else [Concat(FileEntries(p.in1))];
    if p.level == 0 {
      LevelZeroLists(p.in0, v[0]);
    } else {
      SortedFilesList(p.in0);
    }
    OneList([]);
    if p.in1 != [] {
      SortedFilesList(p.in1);
    } else {
      NoFiles();
    }
    NewerShareNothing(p.in0, p.in1);
    AppendLists(a, b);
    InputsAreFiles(p);
  }

  lemma NoFiles()
    ensures FilesEntries([]) == {}
  {
  }

  lemma InputsAreFiles(p: Pending)
    ensures InputEntries(p) == FilesEntries(p.in0) + FilesEntries(p.in1)
  {
  }

  /** A compaction from its input files to its outputs: the merged list is walked by the iterators, and the outputs are
      what the install step asks for.  Where the list is cut, and the numbers of the outputs, are left open. */
  method CompactInputs(db: Db, stopBefore: nat -> bool, full: nat -> bool, number: nat -> nat,
                       sizeOf: seq<Entry> -> nat)
      returns (outputs: seq<Table>)
    requires Reachable(db) && db.pending.Some? && forall i: nat :: number(i) < db.nextFile
    ensures Enabled(db, InstallOutputs(outputs))
  {
    hide Reachable, Enabled, Inv, Listed, InputLists, NoneShared, Union, IsMerge;
    var p := db.pending.value;
    ReachableInv(db);
    ReachableListed(db);
    PendingLists(db);
    var input := Drain(InputLists(p));
    outputs := MergeInputs(db, input, seq(|input|, i requires 0 <= i < |input| => stopBefore(i)),
                           seq(|input|, i requires 0 <= i < |input| => full(i)),
                           seq(|input|, i requires 0 <= i < |input| => number(i)), sizeOf);
  }

  lemma PendingLists(db: Db)
    requires Inv(db) && Listed(db) && db.pending.Some?
    ensures var p := db.pending.value;
            NoneShared(InputLists(p)) && Union(InputLists(p)) == InputEntries(p) && UniqueSeqs(InputEntries(p))
  {
    hide NoneShared, Union, InputLists, LevelsOk, Placed, InOrder, UniqueSeqs;
    var p := db.pending.value;
    InputListsAre(db.levels, p);
    InputsUnique(db, p);
  }

  lemma InputsUnique(db: Db, p: Pending)
    requires Recorded(db) && Placed(db.levels, p) && LevelsOk(db.levels)
    ensures UniqueSeqs(InputEntries(p))
  {
    LevelSeqsUnique(db);
    InputsAreEntries(db.levels, p);
  }

  // ----- what a scan of the database shows -----

  /** The files of levels l and deeper, one list per level that has any. */
  function LevelLists(v: Levels, l: nat): seq<seq<Entry>>
    requires l <= NUM_LEVELS
    decreases NUM_LEVELS - l
  {
    if l == NUM_LEVELS then []
    else (if v[l] == [] then [] else [Concat(FileEntries(v[l]))]) + LevelLists(v, l + 1)
  }

  /** NewInternalIterator: the memtables, the files of level 0, and the other levels. */
  function DbLists(db: Db): seq<seq<Entry>> {
    [db.mem] + (if db.imm.Some? then [db.imm.value] else []) + FileEntries(db.levels[0]) + LevelLists(db.levels, 1)
  }

  ghost function EntriesFrom(v: Levels, l: nat): set<Entry> {
    set m, f, e | l <= m < NUM_LEVELS && f in v[m] && e in f.entries :: e
  }

  lemma FirstLevel(v: Levels, l: nat)
    requires l < NUM_LEVELS
    ensures EntriesFrom(v, l) == FilesEntries(v[l]) + EntriesFrom(v, l + 1)
    ensures OlderDownward(v) ==> FilesEntries(v[l]) !! EntriesFrom(v, l + 1)
  {
    if OlderDownward(v) {
      forall f, m, g, e | f in v[l] && l + 1 <= m < NUM_LEVELS && g in v[m] && e in f.entries ensures e !in g.entries {
        assert Newer(f.entries, g.entries);
      }
    }
  }

  lemma {:induction false} LevelListsAre(v: Levels, l: nat)
    requires LevelsOk(v) && 1 <= l <= NUM_LEVELS
    ensures NoneShared(LevelLists(v, l)) && Union(LevelLists(v, l)) == EntriesFrom(v, l)
    decreases NUM_LEVELS - l
  {
    hide NoneShared, Union, Concat, FileEntries, DisjointSorted, LevelZeroOrdered, OlderDownward, FilesEntries;
    OneList([]);
    if l < NUM_LEVELS {
      LevelListsAre(v, l + 1);
      FirstLevel(v, l);
      if v[l] == [] {
        NoFiles();
        assert [] + LevelLists(v, l + 1) == LevelLists(v, l + 1);
      } else {
        SortedFilesList(v[l]);
        AppendLists([Concat(FileEntries(v[l]))], LevelLists(v, l + 1));
      }
    }
  }

  lemma LevelsInAll(v: Levels)
    requires LevelsOk(v) && Distinct(v[0])
    ensures var lists := FileEntries(v[0]) + LevelLists(v, 1);
            NoneShared(lists) && Union(lists) == LevelEntries(v)
  {
    hide NoneShared, Union, LevelLists, FileEntries, DisjointSorted, LevelZeroOrdered, OlderDownward, FilesEntries;
    LevelZeroLists(v[0], v[0]);
    LevelListsAre(v, 1);
    FirstLevel(v, 0);
    AppendLists(FileEntries(v[0]), LevelLists(v, 1));
    assert EntriesFrom(v, 0) == LevelEntries(v);
  }

  lemma MemTableFirst(xs: seq<Entry>, lists: seq<seq<Entry>>, below: set<Entry>)
    requires Sorted(xs) && NoneShared(lists) && Union(lists) == below && Elements(xs) !! below
    ensures NoneShared([xs] + lists) && Union([xs] + lists) == Elements(xs) + below
  {
    hide NoneShared, Union, Sorted;
    OneList(xs);
    AppendLists([xs], lists);
  }

  lemma NewerThanLevelsShares(xs: seq<Entry>, v: Levels)
    requires NewerThanLevels(xs, v)
    ensures Elements(xs) !! LevelEntries(v)
  {
    forall l, f, e | 0 <= l < NUM_LEVELS && f in v[l] && e in xs ensures e !in f.entries {
      assert Newer(xs, f.entries);
    }
  }

  lemma DbListsAre(db: Db)
    requires Ordered(db) && Distinct(db.levels[0])
    ensures NoneShared(DbLists(db)) && Union(DbLists(db)) == AllEntries(db)
  {
    hide NoneShared, Union, LevelLists, FileEntries, LevelsOk, Sorted, NewerThanLevels, LevelEntries, Distinct;
    var v, lists := db.levels, FileEntries(db.levels[0]) + LevelLists(db.levels, 1);
    LevelsInAll(v);
    NewerThanLevelsShares(db.mem, v);
    NewerThanLevelsShares(ImmEntries(db), v);
    NewerListsShare(db.mem, ImmEntries(db));
    if db.imm.Some? {
      MemTableFirst(db.imm.value, lists, LevelEntries(v));
      MemTableFirst(db.mem, [db.imm.value] + lists, Elements(db.imm.value) + LevelEntries(v));
      assert DbLists(db) == [db.mem] + ([db.imm.value] + lists);
    } else {
      MemTableFirst(db.mem, lists, LevelEntries(v));
      assert DbLists(db) == [db.mem] + lists;
    }
  }

  lemma NewerListsShare(a: seq<Entry>, b: seq<Entry>)
    requires Newer(a, b)
    ensures Elements(a) !! Elements(b)
  {
  }

  /** A new iterator of a reachable database, at the latest sequence number or a live snapshot, walks exactly the user
      keys, and values, that the full write history shows there, in order. */
  method NewIterator(db: Db, s: nat) returns (it: DBIter)
    requires Reachable(db) && LiveSequence(db, s)
    ensures fresh(it) && it.Valid() && Shows(it.View().xs, db.history, s)
  {
    hide Reachable, LiveSequence, NoneShared, Union, DbLists, IsMerge, Sorted, UniqueSeqs, AllShown, Shows;
    ReadableLists(db, s);
    var merged := Drain(DbLists(db));
    it := new DBIter(Cursor(merged, |merged|), s);
    ShowsAll(db, merged, s);
  }

  /** The list has exactly the visible user keys with their values, in ascending order. */
  ghost predicate Shows(shown: seq<Entry>, history: set<Entry>, s: nat) {
    && (forall i, j :: 0 <= i < j < |shown| ==> shown[i].user < shown[j].user)
    && (forall u, v :: (exists e :: e in shown && e.user == u && e.value == v) <==> Visible(history, u, s) == Some(v))
  }

  lemma ReadableLists(db: Db, s: nat)
    requires Reachable(db) && LiveSequence(db, s)
    ensures NoneShared(DbLists(db)) && Union(DbLists(db)) == AllEntries(db) && UniqueSeqs(AllEntries(db))
  {
    hide Reachable, LiveSequence, NoneShared, Union, DbLists, Ordered, UniqueSeqs, InOrder;
    ReadableState(db, 0, s);
    ReachableListed(db);
    DbListsAre(db);
  }

  lemma ShowsAll(db: Db, merged: seq<Entry>, s: nat)
    requires Reachable(db) && LiveSequence(db, s) && Sorted(merged) && Elements(merged) == AllEntries(db)
    ensures Shows(AllShown(merged, s), db.history, s)
  {
    hide Reachable, LiveSequence, Sorted, UniqueSeqs, AllShown, AllEntries, Visible, Ordered, SortedLevels,
      LevelZeroOrdered,
      OlderDownward;
    var shown := AllShown(merged, s);
    forall i, j | 0 <= i < j < |shown| ensures shown[i].user < shown[j].user {
      ShownAscends(merged, s, i, j);
    }
    forall u, v
      ensures (exists e :: e in shown && e.user == u && e.value == v) <==> Visible(db.history, u, s) == Some(v)
    {
      ReadableState(db, u, s);
      ShownIsVisible(merged, s, u, v);
    }
  }

  ghost predicate PairsOf(pairs: seq<(UserKey, Value)>, shown: seq<Entry>) {
    |pairs| <= |shown| && forall i :: 0 <= i < |pairs| ==> pairs[i] == (shown[i].user, shown[i].value)
  }

  /** A scan from the first key to the last. */
  method Scan(db: Db, s: nat) returns (pairs: seq<(UserKey, Value)>)
    requires Reachable(db) && LiveSequence(db, s)
    ensures forall i, j :: 0 <= i < j < |pairs| ==> pairs[i].0 < pairs[j].0
    ensures forall u, v :: (u, v) in pairs <==> Visible(db.history, u, s) == Some(v)
  {
    hide Reachable, LiveSequence, Shows, PairsOf;
    var it := NewIterator(db, s);
    ghost var shown := it.View().xs;
    it.SeekToFirst();
    pairs := [];
    NoPairs(shown);
    var more := it.IsValid();
    while more
      invariant it.Valid() && it.View() == Cursor(shown, |pairs|) && (more <==> it.View().Valid())
      invariant PairsOf(pairs, shown) && |pairs| <= |shown|
      decreases |shown| - |pairs|
    {
      var key, value := it.KeyValue();
      OnePair(pairs, shown);
      pairs := pairs + [(key, value)];
      it.Next();
      more := it.IsValid();
    }
    PairsShow(pairs, shown, db.history, s);
  }

  lemma NoPairs(shown: seq<Entry>)
    ensures PairsOf([], shown)
  {
  }

  lemma OnePair(pairs: seq<(UserKey, Value)>, shown: seq<Entry>)
    requires PairsOf(pairs, shown) && |pairs| < |shown|
    ensures PairsOf(pairs + [(shown[|pairs|].user, shown[|pairs|].value)], shown)
  {
  }

  lemma PairsShow(pairs: seq<(UserKey, Value)>, shown: seq<Entry>, history: set<Entry>, s: nat)
    requires PairsOf(pairs, shown) && |pairs| == |shown| && Shows(shown, history, s)
    ensures forall i, j :: 0 <= i < j < |pairs| ==> pairs[i].0 < pairs[j].0
    ensures forall u, v :: (u, v) in pairs <==> Visible(history, u, s) == Some(v)
  {
    hide Visible;
    forall u, v ensures (u, v) in pairs <==> exists e :: e in shown && e.user == u && e.value == v {
      if (u, v) in pairs {
        var i :| 0 <= i < |pairs| && pairs[i] == (u, v);
        assert shown[i] in shown;
      }
      if e :| e in shown && e.user == u && e.value == v {
        var i :| 0 <= i < |shown| && shown[i] == e;
        assert pairs[i] == (u, v);
      }
    }
  }
}
