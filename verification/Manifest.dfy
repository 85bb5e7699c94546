/** Replaying the manifest: VersionSet::Builder, WriteSnapshot and Recover of db/version_set.cc.  A version is a list of
    files per level; a builder collects any number of edits and applies them at once. */
module Manifest {
  import opened Format
  import opened Coding
  import opened ByteOrder
  import opened InternalKeys
  import opened VersionEdits

  // ----- the order of files -----

  /** BySmallestKey: ties are broken by file number. */
  predicate FileLess(f: FileMeta, g: FileMeta) {
    && |f.smallest| >= 8 && |g.smallest| >= 8
    && (KeyLess(f.smallest, g.smallest)
        || (User(f.smallest) == User(g.smallest) && InternalKeys.TagOf(f.smallest) == InternalKeys.TagOf(g.smallest)
            && f.number < g.number))
  }

  ghost predicate Keyed(fs: set<FileMeta>) {
    forall f :: f in fs ==> |f.smallest| >= 8
  }

  lemma FileLessStrict(f: FileMeta, g: FileMeta)
    ensures !(FileLess(f, g) && FileLess(g, f))
  {
    if |f.smallest| >= 8 && |g.smallest| >= 8 {
      LexTotal(User(f.smallest), User(g.smallest));
    }
  }

  lemma FileLessTransitive(f: FileMeta, g: FileMeta, h: FileMeta)
    requires FileLess(f, g) && FileLess(g, h)
    ensures FileLess(f, h)
  {
    if KeyLess(f.smallest, g.smallest) && KeyLess(g.smallest, h.smallest) {
      KeyLessTransitive(f.smallest, g.smallest, h.smallest);
    }
  }

  lemma Comparable(f: FileMeta, g: FileMeta)
    requires |f.smallest| >= 8 && |g.smallest| >= 8 && f.number != g.number
    ensures FileLess(f, g) || FileLess(g, f)
  {
    LexTotal(User(f.smallest), User(g.smallest));
  }

  ghost predicate Sorted(fs: seq<FileMeta>) {
    forall i, j :: 0 <= i < j < |fs| ==> FileLess(fs[i], fs[j])
  }

  ghost function Members(fs: seq<FileMeta>): set<FileMeta> {
    set f | f in fs
  }

  /** Files are told apart by their numbers. */
  ghost predicate Numbered(fs: set<FileMeta>) {
    forall f, g :: f in fs && g in fs && f.number == g.number ==> f == g
  }

  /** A sorted list is determined by its members. */
  lemma {:induction false} SortedUnique(a: seq<FileMeta>, b: seq<FileMeta>)
    requires Sorted(a) && Sorted(b) && Members(a) == Members(b)
    ensures a == b
    decreases |a|
  {
    hide FileLess;
    NoMembers(a);
    NoMembers(b);
    if a != [] {
      assert a[0] in Members(a);
      var k :| 0 <= k < |b| && b[k] == a[0];
      assert b[0] in Members(b);
      var m :| 0 <= m < |a| && a[m] == b[0];
      FileLessStrict(a[0], b[0]);
      assert a[0] == b[0];
      TailMembers(a);
      TailMembers(b);
      SortedUnique(a[1..], b[1..]);
      assert a == [a[0]] + a[1..] && b == [b[0]] + b[1..];
    }
  }

  lemma NoMembers(a: seq<FileMeta>)
    ensures Members(a) == {} <==> a == []
  {
    if a != [] {
      assert a[0] in Members(a);
    }
  }

  lemma TailMembers(a: seq<FileMeta>)
    requires a != [] && Sorted(a)
    ensures Members(a[1..]) == Members(a) - {a[0]} && Sorted(a[1..])
  {
    hide FileLess;
    forall f | f in a[1..] ensures f != a[0] {
      var i :| 0 <= i < |a[1..]| && a[1..][i] == f;
      assert FileLess(a[0], a[i + 1]);
      FileLessStrict(a[0], a[0]);
    }
    forall f | f in a && f != a[0] ensures f in a[1..] {
      var i :| 0 <= i < |a| && a[i] == f;
      assert a[1..][i - 1] == f;
    }
  }

  // ----- saving a level -----

  function Keep(f: FileMeta, deleted: set<nat>): seq<FileMeta> {
    if f.number in deleted then [] else [f]
  }

  /** The merge of the base files with the added ones, without the deleted ones. */
  function Save(base: seq<FileMeta>, added: seq<FileMeta>, deleted: set<nat>): seq<FileMeta>
    decreases |base| + |added|
  {
    if base != [] && (added == [] || !FileLess(added[0], base[0])) then
      Keep(base[0], deleted) + Save(base[1..], added, deleted)
    else if added != [] then Keep(added[0], deleted) + Save(base, added[1..], deleted)
    else []
  }

  lemma {:induction false} SaveMembers(base: seq<FileMeta>, added: seq<FileMeta>, deleted: set<nat>, f: FileMeta)
    ensures f in Save(base, added, deleted) <==> (f in base || f in added) && f.number !in deleted
    decreases |base| + |added|
  {
    hide FileLess;
    if base != [] && (added == [] || !FileLess(added[0], base[0])) {
      SaveMembers(base[1..], added, deleted, f);
      assert base == [base[0]] + base[1..];
    } else if added != [] {
      SaveMembers(base, added[1..], deleted, f);
      assert added == [added[0]] + added[1..];
    }
  }

  /** How often a file is saved. */
  lemma {:induction false} SaveCount(base: seq<FileMeta>, added: seq<FileMeta>, deleted: set<nat>, f: FileMeta)
    ensures multiset(Save(base, added, deleted))[f] ==
              if f.number in deleted then 0 else multiset(base)[f] + multiset(added)[f]
    decreases |base| + |added|
  {
    hide FileLess;
    if base != [] && (added == [] || !FileLess(added[0], base[0])) {
      SaveCount(base[1..], added, deleted, f);
      HeadCount(base, f);
      KeepCount(base[0], Save(base[1..], added, deleted), deleted, f);
    } else if added != [] {
      SaveCount(base, added[1..], deleted, f);
      HeadCount(added, f);
      KeepCount(added[0], Save(base, added[1..], deleted), deleted, f);
    }
  }

  ghost function One(b: bool): nat { if b then 1 else 0 }

  lemma HeadCount(fs: seq<FileMeta>, f: FileMeta)
    requires fs != []
    ensures multiset(fs)[f] == One(fs[0] == f) + multiset(fs[1..])[f]
  {
    assert fs == [fs[0]] + fs[1..];
  }

  lemma KeepCount(g: FileMeta, rest: seq<FileMeta>, deleted: set<nat>, f: FileMeta)
    ensures multiset(Keep(g, deleted) + rest)[f] == One(g == f && g.number !in deleted) + multiset(rest)[f]
  {
    if g.number in deleted {
      assert [] + rest == rest;
    }
  }

  /** In order, possibly with repetitions. */
  ghost predicate Ordered(fs: seq<FileMeta>) {
    forall i, j :: 0 <= i < j < |fs| ==> !FileLess(fs[j], fs[i])
  }

  /** The order tells different files apart. */
  ghost predicate Distinguishable(fs: set<FileMeta>) {
    forall f, g :: f in fs && g in fs && f != g ==> FileLess(f, g) || FileLess(g, f)
  }

  lemma NotBefore(fs: set<FileMeta>, f: FileMeta, g: FileMeta, h: FileMeta)
    requires Distinguishable(fs) && f in fs && g in fs && h in fs && !FileLess(g, f) && !FileLess(h, g)
    ensures !FileLess(h, f)
  {
    hide FileLess;
    if f != g && g != h {
      FileLessTransitive(f, g, h);
      FileLessStrict(f, h);
    }
  }

  lemma HeadIsLeast(fs: set<FileMeta>, base: seq<FileMeta>, added: seq<FileMeta>, f: FileMeta)
    requires Distinguishable(fs) && Members(base) + Members(added) <= fs && Ordered(base) && Ordered(added)
             && base != []
    requires (added != [] ==> !FileLess(added[0], base[0])) && (f in base[1..] || f in added)
    ensures !FileLess(f, base[0])
  {
    hide FileLess, Distinguishable;
    assert base[0] in Members(base);
    if f in base[1..] {
      var i :| 0 <= i < |base[1..]| && base[1..][i] == f;
      assert f == base[i + 1];
    } else {
      var i :| 0 <= i < |added| && added[i] == f;
      assert added[0] in Members(added) && f in Members(added);
      if i > 0 {
        NotBefore(fs, base[0], added[0], f);
      }
    }
  }

  lemma PrependOrdered(f: FileMeta, rest: seq<FileMeta>)
    requires Ordered(rest) && forall i :: 0 <= i < |rest| ==> !FileLess(rest[i], f)
    ensures Ordered([f] + rest)
  {
    hide FileLess;
  }

  lemma KeepOrdered(fs: set<FileMeta>, base: seq<FileMeta>, added: seq<FileMeta>, deleted: set<nat>,
                    rest: seq<FileMeta>)
    requires Distinguishable(fs) && Members(base) + Members(added) <= fs && Ordered(base) && Ordered(added)
             && base != []
    requires added != [] ==> !FileLess(added[0], base[0])
    requires Ordered(rest) && forall f :: f in rest ==> f in base[1..] || f in added
    ensures Ordered(Keep(base[0], deleted) + rest)
  {
    hide FileLess, Distinguishable, Ordered, Members;
    forall i | 0 <= i < |rest| ensures !FileLess(rest[i], base[0]) {
      HeadIsLeast(fs, base, added, rest[i]);
    }
    PrependOrdered(base[0], rest);
    assert [] + rest == rest;
  }

  lemma TailOrdered(base: seq<FileMeta>)
    requires base != [] && Ordered(base)
    ensures Ordered(base[1..]) && Members(base[1..]) <= Members(base)
  {
    hide FileLess;
  }

  lemma SaveWithin(fs: set<FileMeta>, base: seq<FileMeta>, added: seq<FileMeta>, deleted: set<nat>)
    requires Members(base) + Members(added) <= fs
    ensures Members(Save(base, added, deleted)) <= fs
  {
    hide Save;
    forall f | f in Save(base, added, deleted) ensures f in fs {
      SaveMembers(base, added, deleted, f);
      assert f in Members(base) + Members(added);
    }
  }

  lemma SavedFrom(base: seq<FileMeta>, added: seq<FileMeta>, deleted: set<nat>)
    ensures forall f :: f in Save(base, added, deleted) ==> f in base || f in added
  {
    hide Save;
    forall f | f in Save(base, added, deleted) ensures f in base || f in added {
      SaveMembers(base, added, deleted, f);
    }
  }

  lemma {:induction false} SaveOrdered(fs: set<FileMeta>, base: seq<FileMeta>, added: seq<FileMeta>, deleted: set<nat>)
    requires Distinguishable(fs) && Members(base) + Members(added) <= fs && Ordered(base) && Ordered(added)
    ensures Ordered(Save(base, added, deleted)) && Members(Save(base, added, deleted)) <= fs
    decreases |base| + |added|
  {
    hide FileLess, Distinguishable, Ordered, Members, Keep;
    SaveWithin(fs, base, added, deleted);
    if base != [] && (added == [] || !FileLess(added[0], base[0])) {
      TailOrdered(base);
      SaveOrdered(fs, base[1..], added, deleted);
      SavedFrom(base[1..], added, deleted);
      KeepOrdered(fs, base, added, deleted, Save(base[1..], added, deleted));
    } else if added != [] {
      TailOrdered(added);
      SaveOrdered(fs, base, added[1..], deleted);
      SavedFrom(base, added[1..], deleted);
      if base != [] {
        FileLessStrict(added[0], base[0]);
      }
      KeepOrdered(fs, added, base, deleted, Save(base, added[1..], deleted));
    } else {
      NoneOrdered();
    }
  }

  lemma NoneOrdered()
    ensures Ordered([])
  {
  }

  /** An ordered list is determined by how often each file is in it. */
  lemma {:induction false} OrderedUnique(fs: set<FileMeta>, a: seq<FileMeta>, b: seq<FileMeta>)
    requires Distinguishable(fs) && Members(a) <= fs && Ordered(a) && Ordered(b) && multiset(a) == multiset(b)
    ensures a == b
    decreases |a|
  {
    hide FileLess, Distinguishable, Ordered, Members;
    assert |multiset(a)| == |a| && |multiset(b)| == |b|;
    if a != [] {
      SameHead(fs, a, b);
      TailOrdered(a);
      TailOrdered(b);
      SameTails(a, b);
      OrderedUnique(fs, a[1..], b[1..]);
      assert a == [a[0]] + a[1..] && b == [b[0]] + b[1..];
    }
  }

  lemma SameTails(a: seq<FileMeta>, b: seq<FileMeta>)
    requires a != [] && b != [] && a[0] == b[0] && multiset(a) == multiset(b)
    ensures multiset(a[1..]) == multiset(b[1..])
  {
    assert a == [a[0]] + a[1..] && b == [b[0]] + b[1..];
    assert multiset(a[1..]) == multiset(a) - multiset{a[0]} && multiset(b[1..]) == multiset(b) - multiset{b[0]};
  }

  lemma SameHead(fs: set<FileMeta>, a: seq<FileMeta>, b: seq<FileMeta>)
    requires Distinguishable(fs) && Members(a) <= fs && Ordered(a) && Ordered(b) && a != [] && b != []
    requires multiset(a) == multiset(b)
    ensures a[0] == b[0]
  {
    hide FileLess;
    assert a[0] in multiset(a) && b[0] in multiset(b);
    var k :| 0 <= k < |b| && b[k] == a[0];
    var m :| 0 <= m < |a| && a[m] == b[0];
    assert a[0] in Members(a) && b[0] in Members(a);
    FileLessStrict(a[0], a[0]);
  }

  /** The first position whose file is after f. */
  method UpperBound(base: seq<FileMeta>, start: nat, f: FileMeta) returns (pos: nat)
    requires start <= |base|
    ensures start <= pos <= |base| && (pos < |base| ==> FileLess(f, base[pos]))
    ensures forall i :: start <= i < pos ==> !FileLess(f, base[i])
  {
    pos := start;
    while pos < |base| && !FileLess(f, base[pos])
      invariant start <= pos <= |base| && forall i :: start <= i < pos ==> !FileLess(f, base[i])
    {
      pos := pos + 1;
    }
  }

  lemma SaveUnfolds(files: seq<FileMeta>, base: seq<FileMeta>, added: seq<FileMeta>, deleted: set<nat>)
    ensures base != [] && (added == [] || !FileLess(added[0], base[0]))
            ==> files + Save(base, added, deleted) == files + Keep(base[0], deleted) + Save(base[1..], added, deleted)
    ensures added != [] && (base == [] || FileLess(added[0], base[0]))
            ==> files + Save(base, added, deleted) == files + Keep(added[0], deleted) + Save(base, added[1..], deleted)
  {
    hide FileLess;
  }

  method SaveLevel(base: seq<FileMeta>, added: seq<FileMeta>, deleted: set<nat>) returns (files: seq<FileMeta>)
    ensures files == Save(base, added, deleted)
  {
    hide FileLess, Save, Keep;
    files := [];
    var b := 0;
    assert base[0..] == base && added[0..] == added;
    for i := 0 to |added|
      invariant b <= |base| && files + Save(base[b..], added[i..], deleted) == Save(base, added, deleted)
    {
      var pos := UpperBound(base, b, added[i]);
      while b < pos
        invariant b <= pos && files + Save(base[b..], added[i..], deleted) == Save(base, added, deleted)
      {
        SaveUnfolds(files, base[b..], added[i..], deleted);
        assert base[b..][1..] == base[b + 1..];
        files := files + Keep(base[b], deleted);
        b := b + 1;
      }
      SaveUnfolds(files, base[b..], added[i..], deleted);
      assert added[i..][1..] == added[i + 1..];
      files := files + Keep(added[i], deleted);
    }
    assert added[|added|..] == [];
    while b < |base|
      invariant b <= |base| && files + Save(base[b..], [], deleted) == Save(base, added, deleted)
    {
      SaveUnfolds(files, base[b..], [], deleted);
      assert base[b..][1..] == base[b + 1..];
      files := files + Keep(base[b], deleted);
      b := b + 1;
    }
    assert base[|base|..] == [];
    SaveNothing(deleted);
  }

  lemma SaveNothing(deleted: set<nat>)
    ensures Save([], [], deleted) == []
  {
  }

  // ----- collecting edits -----

  /** What a builder knows of one level: numbers of deleted files, and added files in order. */
  datatype LevelState = LevelState(deleted: set<nat>, added: seq<FileMeta>)

  const NOTHING: LevelState := LevelState({}, [])

  /** Insertion into the ordered set of added files; an equivalent file already there stays. */
  function InsertFile(added: seq<FileMeta>, f: FileMeta): seq<FileMeta> {
    if added == [] then [f]
    else
      var last := added[|added| - 1];
      if FileLess(last, f) then added + [f]
      else if FileLess(f, last) then InsertFile(added[..|added| - 1], f) + [last]
      else added
  }

  function AddFiles(s: LevelState, level: nat, added: seq<(nat, FileMeta)>): LevelState {
    if added == [] then s
    else
      var t, (l, f) := AddFiles(s, level, added[..|added| - 1]), added[|added| - 1];
      if l == level then LevelState(t.deleted - {f.number}, InsertFile(t.added, f)) else t
  }

  function Deletes(deleted: seq<(nat, nat)>, level: nat): set<nat> {
    set d | d in deleted && d.0 == level :: d.1
  }

  function ApplyLevel(s: LevelState, level: nat, e: Edit): LevelState {
    AddFiles(s.(deleted := s.deleted + Deletes(e.deleted, level)), level, e.added)
  }

  /** Files of an edit at a level. */
  function FilesAt(added: seq<(nat, FileMeta)>, level: nat): set<FileMeta> {
    set a | a in added && a.0 == level :: a.1
  }

  /** Keys that can be compared, and files told apart by their numbers. */
  ghost predicate Sortable(fs: set<FileMeta>) {
    Keyed(fs) && Numbered(fs)
  }

  lemma SortableIsDistinguishable(fs: set<FileMeta>)
    requires Sortable(fs)
    ensures Distinguishable(fs)
  {
    forall f, g | f in fs && g in fs && f != g ensures FileLess(f, g) || FileLess(g, f) {
      Comparable(f, g);
    }
  }

  lemma OneOfThree(fs: set<FileMeta>, f: FileMeta, g: FileMeta)
    requires Distinguishable(fs) && f in fs && g in fs && !FileLess(f, g) && !FileLess(g, f)
    ensures f == g
  {
  }

  lemma InitDistinguishable(added: seq<FileMeta>, f: FileMeta)
    requires added != [] && Distinguishable(Members(added) + {f})
    ensures Distinguishable(Members(added[..|added| - 1]) + {f})
  {
    hide FileLess;
    assert Members(added[..|added| - 1]) <= Members(added);
  }

  /** The files before the last one, with f among them, and then the last one. */
  lemma PutBefore(added: seq<FileMeta>, f: FileMeta, rest: seq<FileMeta>)
    requires added != [] && Sorted(added) && FileLess(f, added[|added| - 1])
    requires Sorted(rest) && Members(rest) == Members(added[..|added| - 1]) + {f}
    ensures var last := added[|added| - 1]; Sorted(rest + [last]) && Members(rest + [last]) == Members(added) + {f}
  {
    hide FileLess, Sorted;
    var n, last := |added| - 1, added[|added| - 1];
    forall i | 0 <= i < |rest| ensures FileLess(rest[i], last) {
      assert rest[i] in Members(rest);
      InitBelowLast(added, rest[i]);
    }
    AppendLast(rest, last);
    assert added == added[..n] + [last];
    assert Members(added) == Members(added[..n]) + {last};
    assert Members(rest + [last]) == Members(rest) + {last};
  }

  /** A file that is there already stays as it is. */
  lemma {:induction false} InsertMembers(added: seq<FileMeta>, f: FileMeta)
    requires Sorted(added) && Distinguishable(Members(added) + {f})
    ensures Sorted(InsertFile(added, f)) && Members(InsertFile(added, f)) == Members(added) + {f}
  {
    hide FileLess, Sorted, Distinguishable;
    if added == [] {
      NoneSorted();
      AppendLast([], f);
      assert [] + [f] == [f];
    } else {
      var n := |added| - 1;
      var last := added[n];
      assert last in Members(added);
      if FileLess(last, f) {
        AppendSorted(added, f);
      } else if FileLess(f, last) {
        InitSorted(added);
        InitDistinguishable(added, f);
        InsertMembers(added[..n], f);
        PutBefore(added, f, InsertFile(added[..n], f));
      } else {
        assert f == last by { OneOfThree(Members(added) + {f}, f, last); }
        assert Members(added) + {f} == Members(added);
      }
    }
  }

  lemma AppendLast(fs: seq<FileMeta>, f: FileMeta)
    requires Sorted(fs) && forall i :: 0 <= i < |fs| ==> FileLess(fs[i], f)
    ensures Sorted(fs + [f])
  {
    hide FileLess;
  }

  lemma AppendSorted(fs: seq<FileMeta>, f: FileMeta)
    requires Sorted(fs) && fs != [] && FileLess(fs[|fs| - 1], f)
    ensures Sorted(fs + [f])
  {
    hide FileLess;
    forall i | 0 <= i < |fs| ensures FileLess(fs[i], f) {
      if i < |fs| - 1 {
        FileLessTransitive(fs[i], fs[|fs| - 1], f);
      }
    }
  }

  lemma InitSorted(fs: seq<FileMeta>)
    requires Sorted(fs) && fs != []
    ensures Sorted(fs[..|fs| - 1])
  {
  }

  lemma InitBelowLast(fs: seq<FileMeta>, f: FileMeta)
    requires Sorted(fs) && fs != []
    ensures f in fs[..|fs| - 1] ==> FileLess(f, fs[|fs| - 1])
  {
    hide FileLess;
    if f in fs[..|fs| - 1] {
      var j :| 0 <= j < |fs| - 1 && fs[j] == f;
    }
  }

  /** The files added at a level have numbers of their own. */
  ghost predicate OwnNumbers(added: seq<(nat, FileMeta)>, level: nat) {
    forall i, j :: 0 <= i < j < |added| && added[i].0 == added[j].0 == level ==> added[i].1.number != added[j].1.number
  }

  lemma {:induction false} AddFilesIs(s: LevelState, level: nat, added: seq<(nat, FileMeta)>)
    requires Sorted(s.added) && Distinguishable(Members(s.added) + FilesAt(added, level))
    ensures var t := AddFiles(s, level, added);
            && Sorted(t.added) && Members(t.added) == Members(s.added) + FilesAt(added, level)
            && t.deleted == s.deleted - Numbers(FilesAt(added, level))
  {
    hide FileLess;
    if added != [] {
      var n := |added| - 1;
      var init, last := added[..n], added[n];
      FilesAtGrows(added, level);
      AddFilesIs(s, level, init);
      if last.0 == level {
        InsertMembers(AddFiles(s, level, init).added, last.1);
      }
    }
  }

  lemma FilesAtGrows(added: seq<(nat, FileMeta)>, level: nat)
    requires added != []
    ensures var init, last := added[..|added| - 1], added[|added| - 1];
            FilesAt(added, level) == FilesAt(init, level) + if last.0 == level then {last.1} else {}
  {
    var n := |added| - 1;
    assert added == added[..n] + [added[n]];
  }

  ghost function Numbers(fs: set<FileMeta>): set<nat> {
    set f | f in fs :: f.number
  }

  // ----- batched and one by one -----

  /** One builder fed all edits, on top of `base`. */
  function Collect(level: nat, es: seq<Edit>): LevelState {
    if es == [] then NOTHING else ApplyLevel(Collect(level, es[..|es| - 1]), level, es[|es| - 1])
  }

  function Batched(base: seq<FileMeta>, level: nat, es: seq<Edit>): seq<FileMeta> {
    var s := Collect(level, es);
    Save(base, s.added, s.deleted)
  }

  /** A new version per edit. */
  function OneByOne(base: seq<FileMeta>, level: nat, es: seq<Edit>): seq<FileMeta> {
    if es == [] then base else Batched(OneByOne(base, level, es[..|es| - 1]), level, [es[|es| - 1]])
  }

  /** Every file the level has had. */
  ghost function Known(base: seq<FileMeta>, level: nat, es: seq<Edit>): set<FileMeta> {
    if es == [] then Members(base) else Known(base, level, es[..|es| - 1]) + FilesAt(es[|es| - 1].added, level)
  }

  /** No edit adds a file under a number that the level has had before. */
  ghost predicate NeverReadded(base: seq<FileMeta>, level: nat, es: seq<Edit>) {
    es != [] ==>
      var init, e := es[..|es| - 1], es[|es| - 1];
      && NeverReadded(base, level, init) && OwnNumbers(e.added, level) && Keyed(FilesAt(e.added, level))
      && Numbers(FilesAt(e.added, level)) !! Numbers(Known(base, level, init))
  }

  lemma KnownSortable(base: seq<FileMeta>, level: nat, es: seq<Edit>)
    requires Sortable(Members(base)) && NeverReadded(base, level, es)
    ensures Sortable(Known(base, level, es))
  {
    if es != [] {
      var init, e := es[..|es| - 1], es[|es| - 1];
      KnownSortable(base, level, init);
      UnionNumbered(Known(base, level, init), FilesAt(e.added, level));
    }
  }

  lemma UnionNumbered(a: set<FileMeta>, b: set<FileMeta>)
    requires Numbered(a) && Numbered(b) && Numbers(a) !! Numbers(b)
    ensures Numbered(a + b)
  {
    forall f, g | f in a && g in b ensures f.number != g.number {
      assert f.number in Numbers(a) && g.number in Numbers(b);
    }
  }

  lemma NoneSorted()
    ensures Sorted([])
  {
  }

  // ----- when the two agree -----

  ghost function AddedEver(level: nat, es: seq<Edit>): set<FileMeta> {
    if es == [] then {} else AddedEver(level, es[..|es| - 1]) + FilesAt(es[|es| - 1].added, level)
  }

  /** The edit deletes the number and adds no file under it. */
  ghost predicate Kills(e: Edit, level: nat, number: nat) {
    number in Deletes(e.deleted, level) && number !in Numbers(FilesAt(e.added, level))
  }

  ghost predicate EverKilled(level: nat, es: seq<Edit>, number: nat) {
    es != [] && (EverKilled(level, es[..|es| - 1], number) || Kills(es[|es| - 1], level, number))
  }

  /** How many edits have added f since its number was last deleted. */
  ghost function Since(level: nat, es: seq<Edit>, f: FileMeta): nat {
    if es == [] then 0
    else
      var init, e := es[..|es| - 1], es[|es| - 1];
      (if Kills(e, level, f.number) then 0 else Since(level, init, f)) + if f in FilesAt(e.added, level) then 1 else 0
  }

  lemma {:induction false} CollectIs(level: nat, es: seq<Edit>)
    requires Distinguishable(AddedEver(level, es))
    ensures var s := Collect(level, es); Sorted(s.added) && Members(s.added) == AddedEver(level, es)
    ensures es != [] ==>
              var init, e := es[..|es| - 1], es[|es| - 1];
              Collect(level, es).deleted ==
                Collect(level, init).deleted + Deletes(e.deleted, level) - Numbers(FilesAt(e.added, level))
  {
    hide FileLess, Sorted, AddFiles;
    if es == [] {
      NoneSorted();
    } else {
      var init, e := es[..|es| - 1], es[|es| - 1];
      CollectIs(level, init);
      var s := Collect(level, init);
      AddFilesIs(s.(deleted := s.deleted + Deletes(e.deleted, level)), level, e.added);
    }
  }

  /** The number was deleted, and no file was added under it since. */
  ghost predicate Dead(level: nat, es: seq<Edit>, number: nat) {
    es != [] &&
    var init, e := es[..|es| - 1], es[|es| - 1];
    number !in Numbers(FilesAt(e.added, level)) && (number in Deletes(e.deleted, level) || Dead(level, init, number))
  }

  /** The numbers that a builder holds as deleted are the dead ones. */
  lemma {:induction false} DeletedIsDead(level: nat, es: seq<Edit>, number: nat)
    requires Distinguishable(AddedEver(level, es))
    ensures number in Collect(level, es).deleted <==> Dead(level, es, number)
  {
    hide FileLess, Collect, Distinguishable;
    CollectIs(level, es);
    NothingCollected(level);
    if es != [] {
      FewerDistinguishable(level, es);
      DeletedIsDead(level, es[..|es| - 1], number);
    }
  }

  lemma FewerDistinguishable(level: nat, es: seq<Edit>)
    requires es != [] && Distinguishable(AddedEver(level, es))
    ensures Distinguishable(AddedEver(level, es[..|es| - 1]))
  {
    hide FileLess;
  }

  lemma {:induction false} DeadIsGone(level: nat, es: seq<Edit>, f: FileMeta)
    requires Dead(level, es, f.number)
    ensures EverKilled(level, es, f.number) && Since(level, es, f) == 0
  {
    var init, e := es[..|es| - 1], es[|es| - 1];
    assert f in FilesAt(e.added, level) ==> f.number in Numbers(FilesAt(e.added, level));
    if !Kills(e, level, f.number) {
      DeadIsGone(level, init, f);
    }
  }

  lemma NothingCollected(level: nat)
    ensures Collect(level, []) == NOTHING
  {
  }

  /** A strictly sorted list holds every file once. */
  lemma {:induction false} SortedCount(fs: seq<FileMeta>, f: FileMeta)
    requires Sorted(fs)
    ensures multiset(fs)[f] == One(f in fs) && Ordered(fs)
  {
    hide FileLess;
    forall i, j | 0 <= i < j < |fs| ensures !FileLess(fs[j], fs[i]) {
      FileLessStrict(fs[i], fs[j]);
    }
    if fs != [] {
      TailMembers(fs);
      SortedCount(fs[1..], f);
      assert fs == [fs[0]] + fs[1..];
      assert f in fs[1..] <==> f in Members(fs[1..]);
    }
  }

  /** A builder that starts empty, fed a single edit. */
  lemma OneEdit(level: nat, e: Edit)
    requires Distinguishable(FilesAt(e.added, level))
    ensures var t := Collect(level, [e]);
            && Sorted(t.added) && Members(t.added) == FilesAt(e.added, level)
            && t.deleted == Deletes(e.deleted, level) - Numbers(FilesAt(e.added, level))
  {
    hide FileLess, Sorted, Collect;
    assert [e][..0] == [];
    assert AddedEver(level, [e]) == FilesAt(e.added, level);
    CollectIs(level, [e]);
    NothingCollected(level);
  }

  /** What installing a version per edit leaves: a file as often as it was added since its number was last deleted. */
  lemma {:induction false} OneByOneCount(base: seq<FileMeta>, level: nat, es: seq<Edit>, f: FileMeta)
    requires Sorted(base) && Distinguishable(Known(base, level, es))
    ensures var v := OneByOne(base, level, es);
            && Ordered(v) && Members(v) <= Known(base, level, es)
            && multiset(v)[f] == Since(level, es, f) + One(f in base && !EverKilled(level, es, f.number))
  {
    hide FileLess, Sorted, Save, Collect, Ordered;
    if es == [] {
      SortedCount(base, f);
    } else {
      var init, e := es[..|es| - 1], es[|es| - 1];
      var v, known := OneByOne(base, level, init), Known(base, level, es);
      OneByOneCount(base, level, init, f);
      OneEdit(level, e);
      var t := Collect(level, [e]);
      SortedCount(t.added, f);
      SaveOrdered(known, v, t.added, t.deleted);
      SaveCount(v, t.added, t.deleted, f);
      assert f in t.added <==> f in Members(t.added);
      assert f in FilesAt(e.added, level) ==> f.number in Numbers(FilesAt(e.added, level));
    }
  }

  lemma {:induction false} KnownIs(base: seq<FileMeta>, level: nat, es: seq<Edit>)
    ensures Known(base, level, es) == Members(base) + AddedEver(level, es)
  {
    if es != [] {
      KnownIs(base, level, es[..|es| - 1]);
    }
  }

  lemma BatchedCount(base: seq<FileMeta>, level: nat, es: seq<Edit>, f: FileMeta)
    requires Sorted(base) && Distinguishable(Known(base, level, es))
    ensures var v := Batched(base, level, es);
            && Ordered(v) && Members(v) <= Known(base, level, es)
            && multiset(v)[f] == if Dead(level, es, f.number) then 0
                                 else One(f in base) + One(f in AddedEver(level, es))
  {
    hide FileLess, Sorted, Save, Collect, Ordered, Dead, Distinguishable;
    KnownIs(base, level, es);
    AddedDistinguishable(base, level, es);
    CollectIs(level, es);
    DeletedIsDead(level, es, f.number);
    var s := Collect(level, es);
    SortedCount(base, f);
    SortedCount(s.added, f);
    SaveOrdered(Known(base, level, es), base, s.added, s.deleted);
    SaveCount(base, s.added, s.deleted, f);
    assert f in s.added <==> f in Members(s.added);
  }

  /** A file whose number was never deleted is added at most once.  One whose number was, and is not deleted now, was
      added once since then and is no base file (or, as a base file, was added twice). */
  ghost predicate AddedOnce(base: seq<FileMeta>, level: nat, es: seq<Edit>, f: FileMeta) {
    !Dead(level, es, f.number) ==>
      if EverKilled(level, es, f.number) then Since(level, es, f) == One(f in base) + One(f in AddedEver(level, es))
      else Since(level, es, f) <= 1
  }

  lemma {:induction false} SinceIsAdded(level: nat, es: seq<Edit>, f: FileMeta)
    ensures Since(level, es, f) > 0 ==> f in AddedEver(level, es)
    ensures f in AddedEver(level, es) && !EverKilled(level, es, f.number) ==> Since(level, es, f) > 0
  {
    if es != [] {
      SinceIsAdded(level, es[..|es| - 1], f);
    }
  }

  lemma CountsAgree(base: seq<FileMeta>, level: nat, es: seq<Edit>, f: FileMeta)
    requires Sorted(base) && Distinguishable(Known(base, level, es))
    ensures multiset(Batched(base, level, es))[f] == multiset(OneByOne(base, level, es))[f] <==>
            AddedOnce(base, level, es, f)
  {
    hide FileLess, Sorted, Ordered, Batched, OneByOne, Distinguishable, Dead;
    BatchedCount(base, level, es, f);
    OneByOneCount(base, level, es, f);
    SinceIsAdded(level, es, f);
    if Dead(level, es, f.number) {
      DeadIsGone(level, es, f);
    }
  }

  lemma AddedDistinguishable(base: seq<FileMeta>, level: nat, es: seq<Edit>)
    requires Distinguishable(Known(base, level, es))
    ensures Distinguishable(AddedEver(level, es))
  {
    KnownIs(base, level, es);
  }

  /** Feeding all edits to one builder saves the same list as installing a version per edit, if and only if no file
      comes back in a way that the builder's set of deleted numbers cannot follow. */
  lemma BatchedIff(base: seq<FileMeta>, level: nat, es: seq<Edit>)
    requires Sorted(base) && Distinguishable(Known(base, level, es))
    ensures Batched(base, level, es) == OneByOne(base, level, es) <==>
              forall f :: f in Known(base, level, es) ==> AddedOnce(base, level, es, f)
  {
    hide FileLess, Sorted, Ordered, Batched, OneByOne, Distinguishable, AddedOnce, Known;
    var a, b, known := Batched(base, level, es), OneByOne(base, level, es), Known(base, level, es);
    forall f ensures a == b ==> AddedOnce(base, level, es, f) {
      CountsAgree(base, level, es, f);
    }
    if forall f :: f in known ==> AddedOnce(base, level, es, f) {
      forall f ensures multiset(a)[f] == multiset(b)[f] {
        CountsAgree(base, level, es, f);
        BatchedCount(base, level, es, f);
        OneByOneCount(base, level, es, f);
        if f !in known {
          assert f !in Members(a) && f !in Members(b);
          assert f !in a && f !in b;
        }
      }
      assert multiset(a) == multiset(b);
      BatchedCount(base, level, es, EMPTY_FILE);
      OneByOneCount(base, level, es, EMPTY_FILE);
      OrderedUnique(known, a, b);
    }
  }

  const EMPTY_FILE: FileMeta := FileMeta(0, 0, [], [])

  /** Fresh file numbers, which are the only ones the code gives out, meet the condition. */
  lemma {:induction false} FreshIsAddedOnce(base: seq<FileMeta>, level: nat, es: seq<Edit>, f: FileMeta)
    requires NeverReadded(base, level, es) && f in Known(base, level, es)
    ensures AddedOnce(base, level, es, f)
  {
    hide FileLess;
    SinceIsAdded(level, es, f);
    KnownIs(base, level, es);
    if es != [] {
      var init, e := es[..|es| - 1], es[|es| - 1];
      KnownIs(base, level, init);
      SinceIsAdded(level, init, f);
      if f in Known(base, level, init) {
        FreshIsAddedOnce(base, level, init, f);
        assert f.number in Numbers(Known(base, level, init));
        assert f in FilesAt(e.added, level) ==> f.number in Numbers(FilesAt(e.added, level));
      }
    }
  }

  lemma BatchedIsOneByOne(base: seq<FileMeta>, level: nat, es: seq<Edit>)
    requires Sorted(base) && Sortable(Members(base)) && NeverReadded(base, level, es)
    ensures Batched(base, level, es) == OneByOne(base, level, es)
  {
    hide *;
    KnownSortable(base, level, es);
    SortableIsDistinguishable(Known(base, level, es));
    BatchedIff(base, level, es);
    forall f | f in Known(base, level, es) ensures AddedOnce(base, level, es, f) {
      FreshIsAddedOnce(base, level, es, f);
    }
  }

  /** A file number that comes back with other bounds brings the deleted file back with it. */
  lemma ReaddedFileResurrects(f: FileMeta, g: FileMeta, level: nat)
    requires f != g && f.number == g.number
    ensures var es := [EMPTY.(deleted := [(level, f.number)]), EMPTY.(added := [(level, g)])];
            f in Batched([f], level, es) && f !in OneByOne([f], level, es)
  {
    var del, add := EMPTY.(deleted := [(level, f.number)]), EMPTY.(added := [(level, g)]);
    var es := [del, add];
    var gone := Deletes(del.deleted, level);
    assert (level, f.number) in del.deleted && f.number in gone;
    assert es[..1] == [del] && [del][..0] == [] && [add][..0] == [];
    assert Deletes([], level) == {} && gone + {} == gone && NOTHING.deleted + {} == {};
    AddOne(LevelState(gone, []), level, g);
    AddOne(NOTHING, level, g);
    hide AddFiles, FileLess, Save;
    assert Collect(level, [del]) == LevelState(gone, []) by { assert NOTHING.deleted + gone == gone; }
    assert Collect(level, [add]) == LevelState({} - {g.number}, [g]);
    assert Collect(level, es) == LevelState(gone - {g.number}, [g]);
    hide Collect;
    SaveMembers([f], [g], gone - {g.number}, f);
    SaveMembers([f], [], gone, f);
    var v := Batched([f], level, [del]);
    SaveMembers(v, [g], {} - {g.number}, f);
    assert OneByOne([f], level, []) == [f] && OneByOne([f], level, [del]) == v;
  }

  lemma AddOne(s: LevelState, level: nat, g: FileMeta)
    requires s.added == []
    ensures AddFiles(s, level, [(level, g)]) == LevelState(s.deleted - {g.number}, [g])
  {
    assert [(level, g)][..0] == [];
  }

  // ----- the builder -----

  ghost predicate InLevels(e: Edit) {
    && (forall d :: d in e.deleted ==> d.0 < NUM_LEVELS)
    && (forall a :: a in e.added ==> a.0 < NUM_LEVELS)
  }

  class Builder {
    const base: seq<seq<FileMeta>>
    var levels: seq<LevelState>

    ghost predicate Valid()
      reads this
    {
      |levels| == NUM_LEVELS == |base|
    }

    constructor (base: seq<seq<FileMeta>>)
      requires |base| == NUM_LEVELS
      ensures Valid() && this.base == base && forall l :: 0 <= l < NUM_LEVELS ==> levels[l] == NOTHING
    {
      this.base := base;
      levels := seq(NUM_LEVELS, _ => NOTHING);
    }

    method Apply(e: Edit)
      requires Valid() && InLevels(e)
      modifies this
      ensures Valid() && forall l :: 0 <= l < NUM_LEVELS ==> levels[l] == ApplyLevel(old(levels)[l], l, e)
    {
      hide InsertFile, Deletes;
      ghost var start := levels;
      NoDeletes();
      for i := 0 to |e.deleted|
        invariant Valid() && forall l :: 0 <= l < NUM_LEVELS ==>
                  levels[l] == start[l].(deleted := start[l].deleted + Deletes(e.deleted[..i], l))
      {
        var (level, number) := e.deleted[i];
        assert e.deleted[i] in e.deleted;
        DeletesGrow(e.deleted, i);
        levels := levels[level := levels[level].(deleted := levels[level].deleted + {number})];
      }
      assert e.deleted[..|e.deleted|] == e.deleted;
      ghost var middle := levels;
      for i := 0 to |e.added|
        invariant Valid() && forall l :: 0 <= l < NUM_LEVELS ==> levels[l] == AddFiles(middle[l], l, e.added[..i])
      {
        var (level, f) := e.added[i];
        assert e.added[i] in e.added && e.added[..i + 1][..i] == e.added[..i];
        var s := levels[level];
        levels := levels[level := LevelState(s.deleted - {f.number}, InsertFile(s.added, f))];
      }
      assert e.added[..|e.added|] == e.added;
    }

    method SaveTo() returns (v: seq<seq<FileMeta>>)
      requires Valid()
      ensures |v| == NUM_LEVELS && forall l :: 0 <= l < NUM_LEVELS ==>
              v[l] == Save(base[l], levels[l].added, levels[l].deleted)
    {
      hide Save;
      v := [];
      for level := 0 to NUM_LEVELS
        invariant |v| == level && forall l :: 0 <= l < level ==>
                  v[l] == Save(base[l], levels[l].added, levels[l].deleted)
      {
        var files := SaveLevel(base[level], levels[level].added, levels[level].deleted);
        v := v + [files];
      }
    }
  }

  lemma NoDeletes()
    ensures forall l :: Deletes([], l) == {}
  {
  }

  lemma DeletesGrow(deleted: seq<(nat, nat)>, i: nat)
    requires i < |deleted|
    ensures forall l: nat ::
              Deletes(deleted[..i + 1], l) ==
              Deletes(deleted[..i], l) + if deleted[i].0 == l then {deleted[i].1} else {}
  {
    assert deleted[..i + 1] == deleted[..i] + [deleted[i]];
  }

  // ----- recovery -----

  /** v is the value of a counter in the last edit that carries it, or nothing if none does. */
  ghost predicate Latest(es: seq<Edit>, counter: Edit -> Option<nat>, v: Option<nat>) {
    if v.None? then forall i :: 0 <= i < |es| ==> counter(es[i]).None?
    else exists i :: 0 <= i < |es| && counter(es[i]) == v && forall j :: i < j < |es| ==> counter(es[j]).None?
  }

  lemma LatestStep(es: seq<Edit>, e: Edit, counter: Edit -> Option<nat>, v: Option<nat>)
    requires Latest(es, counter, v)
    ensures Latest(es + [e], counter, if counter(e).Some? then counter(e) else v)
  {
    var es' := es + [e];
    if counter(e).Some? {
      assert counter(es'[|es|]) == counter(e);
    } else if v.Some? {
      var i :| 0 <= i < |es| && counter(es[i]) == v && forall j :: i < j < |es| ==> counter(es[j]).None?;
      assert counter(es'[i]) == v;
    }
  }

  /** Some edit carries the counter. */
  ghost predicate Carried(es: seq<Edit>, counter: Edit -> Option<nat>) {
    exists e :: e in es && counter(e).Some?
  }

  lemma LatestIsCarried(es: seq<Edit>, counter: Edit -> Option<nat>, v: Option<nat>)
    requires Latest(es, counter, v)
    ensures v.Some? <==> Carried(es, counter)
  {
    if v.Some? {
      var i :| 0 <= i < |es| && counter(es[i]) == v && forall j :: i < j < |es| ==> counter(es[j]).None?;
      assert es[i] in es;
    }
  }

  datatype Recovered = Recovered(version: seq<seq<FileMeta>>, logNumber: nat, prevLogNumber: nat, nextFile: nat,
                                 lastSequence: nat)

  /** The edits in a list of records, unless one is corrupt or was written under another comparator. */
  function DecodeAll(name: seq<byte>, records: seq<seq<byte>>): Option<seq<Edit>> {
    if records == [] then Some([])
    else
      var before, e := DecodeAll(name, records[..|records| - 1]), Decode(records[|records| - 1], Clear(EMPTY));
      if before.None? || e.None? || (e.value.comparator.Some? && e.value.comparator.value != name) then None
      else Some(before.value + [e.value])
  }

  lemma {:induction false} BadPrefix(name: seq<byte>, records: seq<seq<byte>>, i: nat)
    requires i <= |records| && DecodeAll(name, records[..i]).None?
    ensures DecodeAll(name, records).None?
    decreases |records|
  {
    hide Decode;
    if i == |records| {
      assert records[..i] == records;
    } else {
      var init := records[..|records| - 1];
      assert init[..i] == records[..i];
      BadPrefix(name, init, i);
    }
  }

  lemma {:induction false} InsertDeletedMembers(ds: seq<(nat, nat)>, d: (nat, nat), x: (nat, nat))
    ensures x in InsertDeleted(ds, d) <==> x == d || x in ds
  {
    if ds != [] {
      var n := |ds| - 1;
      InsertDeletedMembers(ds[..n], d, x);
      assert ds == ds[..n] + [ds[n]];
    }
  }

  lemma AbsorbInLevels(tag: nat, s: seq<byte>, e: Edit)
    requires InLevels(e)
    ensures var b := GetBody(tag, s); b.Some? ==> InLevels(Absorb(e, b.value.0))
  {
    hide GetSlice, Get64, Get32, GetNewFile, InsertDeleted;
    var b := GetBody(tag, s);
    if b.Some? && b.value.0.DeletedFile? {
      var d := (b.value.0.level, b.value.0.number);
      forall x | x in InsertDeleted(e.deleted, d) ensures x.0 < NUM_LEVELS {
        InsertDeletedMembers(e.deleted, d, x);
      }
    }
  }

  /** Decoding checks levels. */
  lemma {:induction false} DecodeInLevels(s: seq<byte>, e: Edit)
    requires InLevels(e)
    ensures Decode(s, e).Some? ==> InLevels(Decode(s, e).value)
    decreases |s|
  {
    hide Get32, GetBody, Absorb, InLevels;
    var t := Get32(s);
    if t.Some? {
      var b := GetBody(t.value.0, t.value.1);
      AbsorbInLevels(t.value.0, t.value.1, e);
      if b.Some? {
        DecodeInLevels(b.value.1, Absorb(e, b.value.0));
      }
    }
  }

  /** The records of a manifest, replayed through one builder onto the empty version. */
  method Recover(name: seq<byte>, records: seq<seq<byte>>) returns (r: Option<Recovered>)
    ensures var d := DecodeAll(name, records);
            r.Some? <==> && d.Some? && Carried(d.value, (e: Edit) => e.nextFile)
                         && Carried(d.value, (e: Edit) => e.logNumber) && Carried(d.value, (e: Edit) => e.lastSequence)
    ensures r.Some? ==>
              var es, x := DecodeAll(name, records).value, r.value;
              && |x.version| == NUM_LEVELS && (forall l :: 0 <= l < NUM_LEVELS ==> x.version[l] == Batched([], l, es))
              && Latest(es, (e: Edit) => e.logNumber, Some(x.logNumber))
              && Latest(es, (e: Edit) => e.nextFile, Some(x.nextFile))
              && Latest(es, (e: Edit) => e.lastSequence, Some(x.lastSequence))
              && (Latest(es, (e: Edit) => e.prevLogNumber, Some(x.prevLogNumber))
                  || (!Carried(es, (e: Edit) => e.prevLogNumber) && x.prevLogNumber == 0))
  {
    hide Decode, Save, ApplyLevel, InLevels, Latest, Carried;
    var builder := new Builder(seq(NUM_LEVELS, _ => []));
    var log, prevLog, nextFile, lastSequence := None, None, None, None;
    ghost var es: seq<Edit> := [];
    ghost var logs, prevLogs := (e: Edit) => e.logNumber, (e: Edit) => e.prevLogNumber;
    ghost var nextFiles, lastSequences := (e: Edit) => e.nextFile, (e: Edit) => e.lastSequence;
    assert Latest(es, logs, log) && Latest(es, prevLogs, prevLog) by { NoCounters(logs); NoCounters(prevLogs); }
    assert Latest(es, nextFiles, nextFile) by { NoCounters(nextFiles); }
    assert Latest(es, lastSequences, lastSequence) by { NoCounters(lastSequences); }
    for i := 0 to |records|
      invariant fresh(builder) && builder.Valid() && forall l :: 0 <= l < NUM_LEVELS ==> builder.base[l] == []
      invariant DecodeAll(name, records[..i]) == Some(es)
      invariant Latest(es, logs, log) && Latest(es, prevLogs, prevLog)
      invariant Latest(es, nextFiles, nextFile) && Latest(es, lastSequences, lastSequence)
      invariant forall l :: 0 <= l < NUM_LEVELS ==> builder.levels[l] == Collect(l, es)
    {
      assert records[..i + 1][..i] == records[..i];
      var e := DecodeFrom(EMPTY, records[i]);
      if e.None? || (e.value.comparator.Some? && e.value.comparator.value != name) {
        BadPrefix(name, records, i + 1);
        return None;
      }
      ClearInLevels();
      DecodeInLevels(records[i], Clear(EMPTY));
      builder.Apply(e.value);
      assert (es + [e.value])[..|es|] == es;
      LatestStep(es, e.value, logs, log);
      LatestStep(es, e.value, prevLogs, prevLog);
      LatestStep(es, e.value, nextFiles, nextFile);
      LatestStep(es, e.value, lastSequences, lastSequence);
      es := es + [e.value];
      if e.value.logNumber.Some? {
        log := e.value.logNumber;
      }
      if e.value.prevLogNumber.Some? {
        prevLog := e.value.prevLogNumber;
      }
      if e.value.nextFile.Some? {
        nextFile := e.value.nextFile;
      }
      if e.value.lastSequence.Some? {
        lastSequence := e.value.lastSequence;
      }
    }
    assert records[..|records|] == records;
    LatestIsCarried(es, logs, log);
    LatestIsCarried(es, prevLogs, prevLog);
    LatestIsCarried(es, nextFiles, nextFile);
    LatestIsCarried(es, lastSequences, lastSequence);
    if nextFile.None? || log.None? || lastSequence.None? {
      return None;
    }
    var v := builder.SaveTo();
    r := Some(Recovered(v, log.value, if prevLog.Some? then prevLog.value else 0, nextFile.value, lastSequence.value));
  }

  lemma NoCounters(counter: Edit -> Option<nat>)
    ensures Latest([], counter, None)
  {
  }

  lemma ClearInLevels()
    ensures InLevels(Clear(EMPTY))
  {
  }

  // ----- a manifest that starts with a snapshot -----

  /** The files of the first n levels, as WriteSnapshot lists them. */
  function ListFiles(v: seq<seq<FileMeta>>, n: nat): seq<(nat, FileMeta)>
    requires n <= |v|
  {
    if n == 0 then []
    else ListFiles(v, n - 1) + seq(|v[n - 1]|, i requires 0 <= i < |v[n - 1]| => (n - 1, v[n - 1][i]))
  }

  lemma {:induction false} ListedAt(v: seq<seq<FileMeta>>, n: nat, i: nat)
    requires n <= |v| && i < |ListFiles(v, n)|
    ensures var (l, f) := ListFiles(v, n)[i]; l < n && f in v[l]
  {
    if i < |ListFiles(v, n - 1)| {
      ListedAt(v, n - 1, i);
    }
  }

  lemma {:induction false} ListFilesAt(v: seq<seq<FileMeta>>, n: nat, l: nat)
    requires n <= |v| && l < |v|
    ensures FilesAt(ListFiles(v, n), l) == if l < n then Members(v[l]) else {}
  {
    if n > 0 {
      ListFilesAt(v, n - 1, l);
      var here := seq(|v[n - 1]|, i requires 0 <= i < |v[n - 1]| => (n - 1, v[n - 1][i]));
      FilesAtConcat(ListFiles(v, n - 1), here, l);
      if l == n - 1 {
        forall f | f in Members(v[l]) ensures f in FilesAt(here, l) {
          var i :| 0 <= i < |v[l]| && v[l][i] == f;
          assert here[i] == (l, f);
        }
      }
    }
  }

  lemma FilesAtConcat(a: seq<(nat, FileMeta)>, b: seq<(nat, FileMeta)>, l: nat)
    ensures FilesAt(a + b, l) == FilesAt(a, l) + FilesAt(b, l)
  {
  }

  lemma {:induction false} ListOwnNumbers(v: seq<seq<FileMeta>>, n: nat, l: nat)
    requires n <= |v| && l < |v| && Sorted(v[l]) && Sortable(Members(v[l]))
    ensures OwnNumbers(ListFiles(v, n), l)
  {
    hide FileLess;
    if n > 0 {
      ListOwnNumbers(v, n - 1, l);
      var all, m := ListFiles(v, n), |ListFiles(v, n - 1)|;
      forall i, j | 0 <= i < j < |all| && all[i].0 == all[j].0 == l ensures all[i].1.number != all[j].1.number {
        if j >= m {
          assert l == n - 1;
          if i < m {
            ListedAt(v, n - 1, i);
          } else {
            assert all[i].1 == v[l][i - m] && all[j].1 == v[l][j - m];
            FileLessStrict(all[i].1, all[j].1);
            assert all[i].1 in Members(v[l]) && all[j].1 in Members(v[l]);
          }
        }
      }
    }
  }

  ghost predicate IsVersion(v: seq<seq<FileMeta>>) {
    |v| == NUM_LEVELS && forall l :: 0 <= l < NUM_LEVELS ==> Sorted(v[l]) && Sortable(Members(v[l]))
  }

  function Snapshot(name: seq<byte>, pointers: seq<(nat, seq<byte>)>, v: seq<seq<FileMeta>>): Edit {
    EMPTY.(comparator := Some(name), compactPointers := pointers, added := ListFiles(v, |v|))
  }

  lemma SnapshotEdit(name: seq<byte>, pointers: seq<(nat, seq<byte>)>, v: seq<seq<FileMeta>>, l: nat)
    requires IsVersion(v) && l < NUM_LEVELS
    ensures var e := Snapshot(name, pointers, v);
            && e.deleted == [] && FilesAt(e.added, l) == Members(v[l]) && OwnNumbers(e.added, l)
            && Keyed(FilesAt(e.added, l)) && e.comparator == Some(name) && e.compactPointers == pointers
  {
    hide FileLess, Sorted;
    ListFilesAt(v, NUM_LEVELS, l);
    ListOwnNumbers(v, NUM_LEVELS, l);
  }

  lemma {:induction false} SaveAll(added: seq<FileMeta>)
    ensures Save([], added, {}) == added
  {
    if added != [] {
      SaveAll(added[1..]);
    }
  }

  /** Applied to the empty version, a snapshot gives the version back. */
  lemma SnapshotRestores(name: seq<byte>, pointers: seq<(nat, seq<byte>)>, v: seq<seq<FileMeta>>, l: nat)
    requires IsVersion(v) && l < NUM_LEVELS
    ensures OneByOne([], l, [Snapshot(name, pointers, v)]) == v[l]
  {
    hide FileLess, Sorted, Collect, Save, Snapshot;
    var e := Snapshot(name, pointers, v);
    SnapshotEdit(name, pointers, v, l);
    SortableIsDistinguishable(Members(v[l]));
    OneEdit(l, e);
    var t := Collect(l, [e]);
    NoDeletes();
    assert t.deleted == {};
    SaveAll(t.added);
    assert [e][..0] == [];
    SortedUnique(t.added, v[l]);
  }

  lemma {:induction false} OneByOneConcat(base: seq<FileMeta>, l: nat, a: seq<Edit>, b: seq<Edit>)
    ensures OneByOne(base, l, a + b) == OneByOne(OneByOne(base, l, a), l, b)
    decreases |b|
  {
    hide Batched;
    if b == [] {
      assert a + b == a;
    } else {
      OneByOneConcat(base, l, a, b[..|b| - 1]);
      assert (a + b)[..|a + b| - 1] == a + b[..|b| - 1];
    }
  }

  lemma {:induction false} SnapshotKnows(name: seq<byte>, pointers: seq<(nat, seq<byte>)>, v: seq<seq<FileMeta>>,
                                         l: nat, es: seq<Edit>)
    requires IsVersion(v) && l < NUM_LEVELS && NeverReadded(v[l], l, es)
    ensures var all := [Snapshot(name, pointers, v)] + es;
            Known([], l, all) == Known(v[l], l, es) && NeverReadded([], l, all)
    decreases |es|
  {
    hide Snapshot, IsVersion, Keyed, OwnNumbers;
    var snap := Snapshot(name, pointers, v);
    if es == [] {
      SnapshotEdit(name, pointers, v, l);
      assert [snap] + [] == [snap] && [snap][..0] == [];
      assert Members([]) == {} && Numbers({}) == {};
    } else {
      var init := es[..|es| - 1];
      SnapshotKnows(name, pointers, v, l, init);
      assert ([snap] + es)[..|es|] == [snap] + init;
    }
  }

  /** A manifest that starts with a snapshot of v and goes on with edits recovers the version that installing those
      edits on v, one after the other, gives. */
  lemma ReplayIsInstalling(name: seq<byte>, pointers: seq<(nat, seq<byte>)>, v: seq<seq<FileMeta>>, l: nat,
                           es: seq<Edit>)
    requires IsVersion(v) && l < NUM_LEVELS && NeverReadded(v[l], l, es)
    ensures Batched([], l, [Snapshot(name, pointers, v)] + es) == OneByOne(v[l], l, es)
  {
    hide Snapshot, IsVersion, Keyed, Batched, OneByOne, NeverReadded, Sorted;
    var snap := Snapshot(name, pointers, v);
    SnapshotKnows(name, pointers, v, l, es);
    NoneSorted();
    NothingSortable();
    BatchedIsOneByOne([], l, [snap] + es);
    OneByOneConcat([], l, [snap], es);
    SnapshotRestores(name, pointers, v, l);
  }

  lemma NothingSortable()
    ensures Sortable(Members([]))
  {
  }

  function Encodings(es: seq<Edit>): seq<seq<byte>> {
    if es == [] then [] else Encodings(es[..|es| - 1]) + [EncodeFields(Fields(es[|es| - 1]))]
  }

  /** Encoded edits are decoded in order. */
  lemma {:induction false} DecodeAllBack(name: seq<byte>, es: seq<Edit>)
    requires forall e :: e in es ==> VersionEdits.Valid(e) && (e.comparator.None? || e.comparator.value == name)
    ensures DecodeAll(name, Encodings(es)) == Some(es)
  {
    hide Decode, EncodeFields, Fields, VersionEdits.Valid, Clear;
    if es != [] {
      var n := |es| - 1;
      DecodeAllBack(name, es[..n]);
      assert es[n] in es && es == es[..n] + [es[n]];
      assert Encodings(es)[..|Encodings(es)| - 1] == Encodings(es[..n]);
      DecodeEncode(es[n], EMPTY);
    }
  }

  lemma {:induction false} EncodingsFirst(e: Edit, es: seq<Edit>)
    ensures |Encodings([e] + es)| == 1 + |es| && Encodings([e] + es)[0] == EncodeFields(Fields(e))
    decreases |es|
  {
    hide EncodeFields, Fields;
    var all := [e] + es;
    if es == [] {
      assert all == [e] && [e][..0] == [];
      assert Encodings([e]) == Encodings([]) + [EncodeFields(Fields(e))];
    } else {
      assert all[..|all| - 1] == [e] + es[..|es| - 1];
      EncodingsFirst(e, es[..|es| - 1]);
    }
  }

  /** A manifest names its comparator, and cannot be recovered under another one. */
  lemma OtherComparatorRefused(name: seq<byte>, pointers: seq<(nat, seq<byte>)>, v: seq<seq<FileMeta>>, es: seq<Edit>,
                               other: seq<byte>)
    requires VersionEdits.Valid(Snapshot(name, pointers, v)) && other != name
    ensures DecodeAll(other, Encodings([Snapshot(name, pointers, v)] + es)).None?
  {
    hide Decode, EncodeFields, Fields, VersionEdits.Valid, Clear, Encodings, ListFiles;
    var snap := Snapshot(name, pointers, v);
    var records := Encodings([snap] + es);
    EncodingsFirst(snap, es);
    DecodeEncode(snap, EMPTY);
    var first := records[..1];
    assert first[..0] == [] && first[0] == EncodeFields(Fields(snap));
    assert DecodeAll(other, first).None?;
    BadPrefix(other, records, 1);
  }

  /** What LogAndApply wrote to a manifest, a snapshot of v and then an edit per version, is recovered: the version that
      installing the edits gave, and each counter as the last edit that carries it has it. */
  method RecoverWritten(name: seq<byte>, pointers: seq<(nat, seq<byte>)>, v: seq<seq<FileMeta>>, es: seq<Edit>)
      returns (r: Option<Recovered>)
    requires IsVersion(v) && forall l :: 0 <= l < NUM_LEVELS ==> NeverReadded(v[l], l, es)
    requires VersionEdits.Valid(Snapshot(name, pointers, v))
    requires forall e :: e in es ==> VersionEdits.Valid(e) && (e.comparator.None? || e.comparator.value == name)
    ensures r.Some? <==> && Carried(es, (e: Edit) => e.nextFile) && Carried(es, (e: Edit) => e.logNumber)
                         && Carried(es, (e: Edit) => e.lastSequence)
    ensures r.Some? ==>
              && |r.value.version| == NUM_LEVELS
              && (forall l :: 0 <= l < NUM_LEVELS ==> r.value.version[l] == OneByOne(v[l], l, es))
              && Latest(es, (e: Edit) => e.logNumber, Some(r.value.logNumber))
              && Latest(es, (e: Edit) => e.nextFile, Some(r.value.nextFile))
              && Latest(es, (e: Edit) => e.lastSequence, Some(r.value.lastSequence))
  {
    hide VersionEdits.Valid, Sorted, Sortable, NeverReadded, Latest, Carried, Batched, OneByOne, Encodings, DecodeAll;
    var snap := Snapshot(name, pointers, v);
    var all := [snap] + es;
    DecodeAllBack(name, all);
    r := Recover(name, Encodings(all));
    assert snap.nextFile.None? && snap.logNumber.None? && snap.lastSequence.None?;
    SnapshotCarriesNothing(snap, es, (e: Edit) => e.nextFile);
    SnapshotCarriesNothing(snap, es, (e: Edit) => e.logNumber);
    SnapshotCarriesNothing(snap, es, (e: Edit) => e.lastSequence);
    if r.Some? {
      forall l | 0 <= l < NUM_LEVELS ensures r.value.version[l] == OneByOne(v[l], l, es) {
        ReplayIsInstalling(name, pointers, v, l, es);
      }
    }
  }

  lemma SnapshotCarriesNothing(snap: Edit, es: seq<Edit>, counter: Edit -> Option<nat>)
    requires counter(snap).None?
    ensures Carried([snap] + es, counter) <==> Carried(es, counter)
    ensures forall v: nat :: Latest([snap] + es, counter, Some(v)) ==> Latest(es, counter, Some(v))
  {
    hide Latest;
    assert forall e :: e in [snap] + es <==> e == snap || e in es;
    forall v: nat | Latest([snap] + es, counter, Some(v)) ensures Latest(es, counter, Some(v)) {
      LatestBehind(snap, es, counter, v);
    }
  }

  lemma LatestBehind(snap: Edit, es: seq<Edit>, counter: Edit -> Option<nat>, v: nat)
    requires counter(snap).None? && Latest([snap] + es, counter, Some(v))
    ensures Latest(es, counter, Some(v))
  {
    var all := [snap] + es;
    var i :| 0 <= i < |all| && counter(all[i]) == Some(v) && forall j :: i < j < |all| ==> counter(all[j]).None?;
    assert counter(es[i - 1]) == Some(v);
    forall j | i - 1 < j < |es| ensures counter(es[j]).None? {
      assert es[j] == all[j + 1];
    }
  }
}
