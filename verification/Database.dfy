/** The database as a state machine: every run of writes, memtable switches, flushes, snapshots,
    compactions, trivial moves and crashes with recovery (db/db_impl.cc).  A lock region is one step; a compaction
    takes several (pick, open outputs, install) with any other steps in between. */
module Database {
  import opened Format
  import opened Visibility
  import opened Version
  import opened ReadPath
  import opened Compactions
  import opened LevelEdits
  import opened Install

  /** `history` records every entry ever written; `horizon` is the largest smallest-snapshot of an
      installed compaction.  Neither influences the other fields. */
  datatype Db = Db(mem: seq<Entry>, imm: Option<seq<Entry>>, levels: Levels, lastSequence: nat,
                   snapshots: seq<nat>, pending: Option<Pending>, nextFile: nat,
                   history: set<Entry>, horizon: nat)

  datatype Action =
    | Write(user: UserKey, kind: Kind, value: Value)
    | SwitchMemTable
    | FlushMemTable(level: nat, size: nat)
    | TakeSnapshot
    | ReleaseSnapshot(index: nat)
    | PickInputs(level: nat, in0: seq<Table>, in1: seq<Table>)
    | InstallOutputs(outputs: seq<Table>)
    | AbandonCompaction
    | OpenOutput
    | MoveFile(level: nat, file: Table)
    | Recover(tables: seq<Table>, reuse: bool, next: nat)

  ghost function Init(): Db {
    Db([], None, [[], [], [], [], [], [], []], 0, [], None, 2, {}, 0)
  }

  ghost function ImmEntries(db: Db): seq<Entry> {
    if db.imm.Some? then db.imm.value else []
  }

  ghost function AllEntries(db: Db): set<Entry> {
    Elements(db.mem) + Elements(ImmEntries(db)) + LevelEntries(db.levels)
  }

  ghost function Oldest(db: Db): nat {
    if db.snapshots == [] then db.lastSequence else db.snapshots[0]
  }

  ghost function NewEntry(db: Db, a: Action): Entry
    requires a.Write?
  {
    Entry(a.user, db.lastSequence + 1, a.kind, a.value)
  }

  ghost function Started(db: Db, level: nat, in0: seq<Table>, in1: seq<Table>): Pending {
    Pending(level, in0, in1, db.levels, Oldest(db))
  }

  /** What the code checks, or guarantees, before it takes a step. */
  ghost predicate Enabled(db: Db, a: Action) {
    match a
    case Write(_, _, _) => db.lastSequence + 1 < MAX_SEQUENCE
    case SwitchMemTable => db.imm.None?
    case FlushMemTable(level, size) =>
      db.imm.Some? && (ImmEntries(db) != [] ==> ImmOk(db) && FlushLevelOk(db.levels, Flushed(db, size), level))
    case TakeSnapshot => true
    case ReleaseSnapshot(index) => index < |db.snapshots|
    case PickInputs(level, in0, in1) =>
      && db.pending.None? && InputsOk(db.levels, level, in0, in1) && ClosedInputs(Started(db, level, in0, in1))
      && InListOrder(in0, db.levels[level]) && InListOrder(in1, db.levels[level + 1])
    case InstallOutputs(outputs) =>
      db.pending.Some? && db.pending.value.level + 1 < NUM_LEVELS && OutputsOk(db.pending.value, outputs)
      && forall f :: f in outputs ==> f.number < db.nextFile
    case AbandonCompaction => db.pending.Some?
    case OpenOutput => db.pending.Some?
    case MoveFile(level, file) =>
      db.pending.None? && InputsOk(db.levels, level, [file], []) && ClosedInputs(Started(db, level, [file], []))
    case Recover(tables, reuse, next) =>
      FromLogs(db, tables, reuse) && NumberedBelow(db.levels[0 := AddFiles(db.levels[0], tables)], next)
  }

  /** The tables that a recovery writes from the logs: both memtables, or only the older one if the last log is reused,
      in the order of their sequence numbers, cut anywhere between two entries, with file numbers above those in use. */
  ghost predicate FromLogs(db: Db, tables: seq<Table>, reuse: bool) {
    && (forall e :: e in Flatten(tables) <==> (!reuse && e in db.mem) || e in ImmEntries(db))
    && (forall i, j, x, y :: 0 <= i < j < |tables| && x in tables[i].entries && y in tables[j].entries ==> x.sn < y.sn)
    && (forall i, j :: 0 <= i < j < |tables| ==> tables[i].number < tables[j].number)
    && (forall t, l, f :: t in tables && 0 <= l < NUM_LEVELS && f in db.levels[l] ==> f.number < t.number)
  }

  ghost predicate NumberedBelow(v: Levels, next: nat) {
    forall l, f :: 0 <= l < NUM_LEVELS && f in v[l] ==> f.number < next
  }

  ghost predicate ImmOk(db: Db) {
    ImmEntries(db) != [] && Sorted(ImmEntries(db)) && forall e :: e in ImmEntries(db) ==> e.sn < MAX_SEQUENCE
  }

  ghost function Flushed(db: Db, size: nat): Table
    requires ImmOk(db)
  {
    TableFile(db.nextFile, size, ImmEntries(db))
  }

  ghost function Apply(db: Db, a: Action): Db
    requires Enabled(db, a)
  {
    match a
    case Write(_, _, _) =>
      var e := NewEntry(db, a);
      db.(mem := InsertEntry(db.mem, e), lastSequence := e.sn, history := db.history + {e})
    case SwitchMemTable => db.(mem := [], imm := Some(db.mem), nextFile := db.nextFile + 1)
    case FlushMemTable(level, size) =>
      if ImmEntries(db) == [] then db.(imm := None)    // an empty table is deleted again
      else db.(imm := None, nextFile := db.nextFile + 1,
               levels := db.levels[level := InsertFile(db.levels[level], Flushed(db, size))])
    case TakeSnapshot => db.(snapshots := db.snapshots + [db.lastSequence])
    case ReleaseSnapshot(index) => db.(snapshots := db.snapshots[..index] + db.snapshots[index + 1..])
    case PickInputs(level, in0, in1) => db.(pending := Some(Started(db, level, in0, in1)))
    case InstallOutputs(outputs) =>
      db.(levels := Installed(db.levels, db.pending.value, outputs), pending := None, horizon := db.pending.value.snap)
    case AbandonCompaction => db.(pending := None)
    case OpenOutput => db.(nextFile := db.nextFile + 1)
    case MoveFile(level, file) => db.(levels := Installed(db.levels, Started(db, level, [file], []), [file]))
    case Recover(tables, reuse, next) =>
      db.(mem := if reuse then db.mem else [], imm := None, snapshots := [], pending := None, nextFile := next,
          levels := db.levels[0 := AddFiles(db.levels[0], tables)])
  }

  // ----- the invariant -----

  ghost predicate NewerThanLevels(xs: seq<Entry>, v: Levels) {
    forall l, f :: 0 <= l < NUM_LEVELS && f in v[l] ==> Newer(xs, f.entries)
  }

  /** Entries get strictly older going mem, imm, level 0, level 1, and so on. */
  ghost predicate Ordered(db: Db) {
    && Sorted(db.mem) && Sorted(ImmEntries(db)) && Newer(db.mem, ImmEntries(db))
    && NewerThanLevels(db.mem, db.levels) && NewerThanLevels(ImmEntries(db), db.levels)
    && LevelsOk(db.levels)
  }

  ghost predicate Recorded(db: Db) {
    && AllEntries(db) <= db.history && UniqueSeqs(db.history)
    && (forall e :: e in db.history ==> e.sn <= db.lastSequence)
    && db.lastSequence < MAX_SEQUENCE
  }

  /** Every live snapshot, and a read without one, lies at or above what compactions assumed. */
  ghost predicate SnapshotsOk(db: Db) {
    && (forall i, j :: 0 <= i < j < |db.snapshots| ==> db.snapshots[i] <= db.snapshots[j])
    && (forall i :: 0 <= i < |db.snapshots| ==> db.snapshots[i] <= db.lastSequence)
    && db.horizon <= Oldest(db)
    && (db.pending.Some? ==> db.horizon <= db.pending.value.snap <= Oldest(db))
  }

  ghost predicate FilesNumbered(db: Db) {
    NumberedBelow(db.levels, db.nextFile)
  }

  /** Nothing a live reader can see has been lost. */
  ghost predicate Faithful(db: Db) {
    forall u, s: nat :: s >= db.horizon ==> Visible(AllEntries(db), u, s) == Visible(db.history, u, s)
  }

  ghost predicate Inv(db: Db) {
    && Ordered(db) && Recorded(db) && SnapshotsOk(db) && FilesNumbered(db) && Faithful(db)
    && (db.pending.Some? ==> PendingOk(db.levels, db.pending.value))
  }

  // ----- each step keeps it -----

  /** Entries newer than everything read the same over two sets that read the same. */
  lemma WriteKeepsReading(all: set<Entry>, history: set<Entry>, e: Entry, u: UserKey, s: nat)
    requires all <= history && UniqueSeqs(history) && forall x :: x in history ==> x.sn < e.sn
    requires Visible(all, u, s) == Visible(history, u, s)
    ensures Visible(all + {e}, u, s) == Visible(history + {e}, u, s)
  {
    if e.user == u && e.sn <= s {
      assert IsNewest(all + {e}, e, u, s) && IsNewest(history + {e}, e, u, s);
      VisibleIs(all + {e}, e, u, s);
      VisibleIs(history + {e}, e, u, s);
    } else {
      UnrelatedKeepsReading(all, e, u, s);
      UnrelatedKeepsReading(history, e, u, s);
    }
  }

  lemma UnrelatedKeepsReading(es: set<Entry>, e: Entry, u: UserKey, s: nat)
    requires UniqueSeqs(es) && (forall x :: x in es ==> x.sn < e.sn) && (e.user != u || e.sn > s)
    ensures Visible(es + {e}, u, s) == Visible(es, u, s)
  {
    if n :| IsNewest(es, n, u, s) {
      assert IsNewest(es + {e}, n, u, s);
      VisibleIs(es, n, u, s);
      VisibleIs(es + {e}, n, u, s);
    } else if n :| IsNewest(es + {e}, n, u, s) {
      assert IsNewest(es, n, u, s);
    }
  }

  lemma WriteKeepsOrdered(db: Db, e: Entry)
    requires Ordered(db) && forall x :: x in AllEntries(db) ==> x.sn < e.sn
    ensures Ordered(db.(mem := InsertEntry(db.mem, e)))
    ensures AllEntries(db.(mem := InsertEntry(db.mem, e))) == AllEntries(db) + {e}
  {
    hide LevelsOk;
    var mem' := InsertEntry(db.mem, e);
    InsertEntryMembers(db.mem, e);
    forall x | x in db.mem ensures x.sn < e.sn { assert x in AllEntries(db); }
    forall x | x in ImmEntries(db) ensures x.sn < e.sn { assert x in AllEntries(db); }
    InsertEntrySorted(db.mem, e);
    forall l, f | 0 <= l < NUM_LEVELS && f in db.levels[l] ensures Newer(mem', f.entries) {
      assert Newer(db.mem, f.entries);
      forall y | y in f.entries ensures y.sn < e.sn { assert y in AllEntries(db); }
    }
  }

  lemma WriteKeepsInv(db: Db, a: Action)
    requires Inv(db) && a.Write? && Enabled(db, a)
    ensures Inv(Apply(db, a))
  {
    hide Ordered, AllEntries, PendingOk;
    var e, db' := NewEntry(db, a), Apply(db, a);
    WriteKeepsOrdered(db, e);
    var mid := db.(mem := InsertEntry(db.mem, e));
    SameEntries(mid, db');
    forall u, s: nat | s >= db.horizon ensures Visible(AllEntries(db'), u, s) == Visible(db'.history, u, s) {
      WriteKeepsReading(AllEntries(db), db.history, e, u, s);
    }
  }

  /** Order and contents depend only on the memtables and the levels. */
  lemma SameEntries(db: Db, db': Db)
    requires db.mem == db'.mem && db.imm == db'.imm && db.levels == db'.levels
    ensures AllEntries(db) == AllEntries(db')
    ensures Ordered(db) == Ordered(db')
  {
    hide NewerThanLevels, LevelsOk, Newer, Sorted;
  }

  lemma SwitchKeepsInv(db: Db)
    requires Inv(db) && Enabled(db, SwitchMemTable)
    ensures Inv(Apply(db, SwitchMemTable))
  {
    hide LevelsOk, PendingOk, UniqueSeqs, LevelEntries, Visible;
    assert AllEntries(Apply(db, SwitchMemTable)) == AllEntries(db);
  }

  lemma SnapshotKeepsInv(db: Db, a: Action)
    requires Inv(db) && (a.TakeSnapshot? || a.ReleaseSnapshot? || a.AbandonCompaction? || a.OpenOutput?)
             && Enabled(db, a)
    ensures Inv(Apply(db, a))
    ensures a.TakeSnapshot? ==> Apply(db, a) == db.(snapshots := db.snapshots + [db.lastSequence])
    ensures a.ReleaseSnapshot? ==>
              Apply(db, a) == db.(snapshots := db.snapshots[..a.index] + db.snapshots[a.index + 1..])
  {
    hide Ordered, AllEntries, PendingOk, UniqueSeqs, SnapshotsOk, Visible;
    SameEntries(db, Apply(db, a));
    SnapshotsKept(db, a);
  }

  lemma SnapshotsKept(db: Db, a: Action)
    requires SnapshotsOk(db) && (a.TakeSnapshot? || a.ReleaseSnapshot? || a.AbandonCompaction? || a.OpenOutput?)
             && Enabled(db, a)
    ensures SnapshotsOk(Apply(db, a))
  {
  }

  lemma PickKeepsInv(db: Db, a: Action)
    requires Inv(db) && a.PickInputs? && Enabled(db, a)
    ensures Inv(Apply(db, a))
  {
    SameEntries(db, Apply(db, a));
    hide AllEntries, UniqueSeqs, Newer, NewerThanLevels, LevelZeroOrdered, OlderDownward, DisjointSorted, InputsOk,
      ClosedInputs;
  }

  /** Without gaps, a range that meets the hull of some files meets one of the files. */
  lemma HullMeetsInput(f: Table, fs: seq<Table>)
    requires NoGap(fs) && MeetsHull(f, fs)
    ensures exists c :: c in fs && Meets(c, Some(Smallest(f).user), Some(Largest(f).user))
  {
    var a, b :| a in fs && b in fs && Smallest(a).user <= Largest(f).user && Smallest(f).user <= Largest(b).user;
    BoundsHold(f, Largest(f));
    BoundsHold(a, Largest(a));
    var k := if Smallest(f).user >= Smallest(a).user then Smallest(f).user else Smallest(a).user;
    assert Covered(fs, k);
  }

  /** A memtable flushed during a compaction never lands in its key range at the output level or below. */
  lemma FlushMissesHull(v: Levels, p: Pending, f: Table, level: nat)
    requires Placed(v, p) && FlushLevelOk(v, f, level) && level > p.level
    ensures !MeetsHull(f, p.in0 + p.in1)
  {
    hide FlushedSince, LevelZeroClosed;
    var ins := p.in0 + p.in1;
    forall c | c in ins ensures !Meets(c, Some(Smallest(f).user), Some(Largest(f).user)) {
      var l := if c in p.in0 then p.level else p.level + 1;
      assert c in v[l];
    }
    if MeetsHull(f, ins) {
      HullMeetsInput(f, ins);
    }
  }

  lemma FlushKeepsPending(v: Levels, p: Pending, f: Table, level: nat)
    requires PendingOk(v, p) && FlushLevelOk(v, f, level)
    requires forall l, g :: 0 <= l < NUM_LEVELS && g in v[l] ==> g.number < f.number
    ensures PendingOk(v[level := InsertFile(v[level], f)], p)
  {
    InsertFileMembers(v[level], f);
    assert FlushedSince(p, level, f) by {
      if level > p.level {
        FlushMissesHull(v, p, f, level);
      }
      if level == p.level && level > 0 {
        forall g | g in p.base[level] ensures UserApart(f, g) {
          assert !Meets(g, Some(Smallest(f).user), Some(Largest(f).user));
        }
      }
    }
  }

  lemma FlushedEntries(v: Levels, f: Table, level: nat)
    requires level < NUM_LEVELS
    ensures LevelEntries(v[level := InsertFile(v[level], f)]) == LevelEntries(v) + Elements(f.entries)
  {
    var v': Levels := v[level := InsertFile(v[level], f)];
    InsertFileMembers(v[level], f);
    forall e | e in LevelEntries(v) ensures e in LevelEntries(v') {
      var l, g :| 0 <= l < NUM_LEVELS && g in v[l] && e in g.entries;
      assert g in v'[l];
    }
    assert f in v'[level];
  }

  lemma EmptyIsNewer(xs: seq<Entry>)
    ensures Newer([], xs) && Newer(xs, []) && Sorted([])
  {
  }

  lemma FlushKeepsMemTable(v: Levels, f: Table, level: nat, xs: seq<Entry>)
    requires level < NUM_LEVELS && NewerThanLevels(xs, v) && Newer(xs, f.entries)
    ensures NewerThanLevels(xs, v[level := InsertFile(v[level], f)])
  {
    hide Newer;
    InsertFileMembers(v[level], f);
  }

  lemma FlushKeepsOrdered(db: Db, f: Table, level: nat)
    requires Ordered(db) && FilesNumbered(db) && f.number == db.nextFile && f.entries == ImmEntries(db)
    requires FlushLevelOk(db.levels, f, level)
    ensures level < NUM_LEVELS
    ensures var db' := db.(imm := None, levels := db.levels[level := InsertFile(db.levels[level], f)]);
            Ordered(db') && AllEntries(db') == AllEntries(db)
  {
    assert level < NUM_LEVELS;
    FlushedEntries(db.levels, f, level);
    hide LevelsOk, Newer, FlushLevelOk, LevelEntries, Sorted;
    FlushKeepsLevels(db.levels, f, level);
    FlushKeepsMemTable(db.levels, f, level, db.mem);
    EmptyIsNewer(db.mem);
    var v' := db.levels[level := InsertFile(db.levels[level], f)];
    forall l, g: Table | 0 <= l < NUM_LEVELS && g in v'[l] ensures Newer([], g.entries) { EmptyIsNewer(g.entries); }
  }

  lemma FlushKeepsInv(db: Db, a: Action)
    requires Inv(db) && a.FlushMemTable? && Enabled(db, a)
    ensures Inv(Apply(db, a))
  {
    hide Ordered, AllEntries, PendingOk, FlushLevelOk, UniqueSeqs, Sorted, Visible;
    var db' := Apply(db, a);
    if ImmEntries(db) == [] {
      SameWithoutImm(db);
    } else {
      var f := Flushed(db, a.size);
      FlushKeepsOrdered(db, f, a.level);
      var mid := db.(imm := None, levels := db.levels[a.level := InsertFile(db.levels[a.level], f)]);
      SameEntries(mid, db');
      InsertFileMembers(db.levels[a.level], f);
      if db.pending.Some? {
        FlushKeepsPending(db.levels, db.pending.value, f, a.level);
      }
    }
  }

  lemma SameWithoutImm(db: Db)
    requires Inv(db) && ImmEntries(db) == []
    ensures Inv(db.(imm := None))
  {
    hide LevelsOk, Newer, Sorted, PendingOk, UniqueSeqs, NewerThanLevels;
    assert AllEntries(db.(imm := None)) == AllEntries(db);
  }

  lemma InputsStay(v: Levels, p: Pending, h: Table) returns (k: nat)
    requires PendingOk(v, p) && h in p.in0 + p.in1
    ensures k < NUM_LEVELS && h in v[k]
  {
    k := if h in p.in0 then p.level else p.level + 1;
    assert h in p.base[k];
  }

  /** Memtable entries are strictly newer than input entries of the same user key. */
  lemma NewerThanInputs(v: Levels, p: Pending, xs: seq<Entry>, x: Entry, y: Entry)
    requires PendingOk(v, p) && NewerThanLevels(xs, v) && x in xs && y in InputEntries(p) && x.user == y.user
    ensures x.sn > y.sn
  {
    hide PendingOk;
    var h :| h in p.in0 + p.in1 && y in h.entries;
    var k := InputsStay(v, p, h);
    assert Newer(xs, h.entries);
  }

  /** After an install or a move every file still holds only entries older than the memtables'. */
  lemma InstallKeepsMemTables(v: Levels, p: Pending, outputs: seq<Table>, xs: seq<Entry>)
    requires PendingOk(v, p) && OutputsFromInputs(p, outputs) && NewerThanLevels(xs, v)
    ensures NewerThanLevels(xs, Installed(v, p, outputs))
  {
    var v' := Installed(v, p, outputs);
    forall l, f | 0 <= l < NUM_LEVELS && f in v'[l] ensures Newer(xs, f.entries) {
      InstalledMembers(v, p, outputs, l, f);
      if f in v[l] {
        assert Newer(xs, f.entries);
      } else {
        hide PendingOk, NewerThanLevels;
        forall x, y | x in xs && y in f.entries && x.user == y.user ensures x.sn > y.sn {
          var h := OutputEntry(p, outputs, f, y);
          NewerThanInputs(v, p, xs, x, y);
        }
      }
    }
  }

  lemma LevelSeqsUnique(db: Db)
    requires Recorded(db)
    ensures UniqueSeqs(LevelEntries(db.levels)) && UniqueSeqs(AllEntries(db))
  {
    assert forall e :: e in LevelEntries(db.levels) ==> e in AllEntries(db);
  }

  lemma InstallKeepsOrdered(db: Db, p: Pending, outputs: seq<Table>)
    requires Ordered(db) && Recorded(db) && PendingOk(db.levels, p) && OutputsFromInputs(p, outputs)
    ensures Ordered(db.(levels := Installed(db.levels, p, outputs)))
  {
    hide LevelsOk, Newer, PendingOk, OutputsFromInputs, UniqueSeqs;
    LevelSeqsUnique(db);
    InstallKeepsLevels(db.levels, p, outputs);
    InstallKeepsMemTables(db.levels, p, outputs, db.mem);
    InstallKeepsMemTables(db.levels, p, outputs, ImmEntries(db));
  }

  /** Closed inputs: a dropped marker never has anything older outside the inputs. */
  lemma NothingUnmasked(db: Db, p: Pending, n: Entry, r: Entry)
    requires Ordered(db) && Recorded(db) && PendingOk(db.levels, p)
    requires n in InputEntries(p) && Obsolete(n, p.snap, BaseKeys(p.base, p.level))
    requires r in AllEntries(db) && r !in InputEntries(p) && r.user == n.user
    ensures r.sn > n.sn
  {
    hide LevelsOk, Newer, PendingOk, Obsolete, NewerThanLevels, UniqueSeqs;
    if r in db.mem {
      NewerThanInputs(db.levels, p, db.mem, r, n);
    } else if r in ImmEntries(db) {
      NewerThanInputs(db.levels, p, ImmEntries(db), r, n);
    } else {
      var h :| h in p.in0 + p.in1 && n in h.entries;
      var l, f :| 0 <= l < NUM_LEVELS && f in db.levels[l] && r in f.entries;
      assert IsInput(p, l, f) ==> f in p.in0 + p.in1;
      LevelSeqsUnique(db);
      NothingOlderRemains(db.levels, p, l, f, r, h, n);
    }
  }

  /** The compaction theorem: installing the outputs changes no reading at or above the smallest snapshot. */
  lemma CompactionPreservesMeaning(db: Db, p: Pending, outputs: seq<Table>, u: UserKey, s: nat)
    requires Ordered(db) && Recorded(db) && PendingOk(db.levels, p) && OutputsOk(p, outputs) && s >= p.snap
    ensures Visible(AllEntries(db.(levels := Installed(db.levels, p, outputs))), u, s) == Visible(AllEntries(db), u, s)
    ensures AllEntries(db.(levels := Installed(db.levels, p, outputs))) <= AllEntries(db)
  {
    var base := BaseKeys(p.base, p.level);
    CompactionDrops(db, p, outputs);
    hide Ordered, PendingOk, AllEntries, Obsolete, OutputsOk;
    assert UnmasksNoValue(AllEntries(db), InputEntries(p), p.snap, base) by {
      forall n, r | Obsolete(n, p.snap, base) ensures !Unmasks(AllEntries(db), InputEntries(p), p.snap, n, r) {
        if n in InputEntries(p) && r in AllEntries(db) && r !in InputEntries(p) && r.user == n.user {
          NothingUnmasked(db, p, n, r);
        }
      }
    }
    LevelSeqsUnique(db);
    DropKeepsReading(AllEntries(db), InputEntries(p), p.snap, base, u, s);
  }

  lemma CompactionDrops(db: Db, p: Pending, outputs: seq<Table>)
    requires Ordered(db) && Recorded(db) && PendingOk(db.levels, p) && OutputsOk(p, outputs)
    ensures InputEntries(p) <= AllEntries(db)
    ensures AllEntries(db.(levels := Installed(db.levels, p, outputs))) ==
              AllEntries(db) - Dropped(InputEntries(p), p.snap, BaseKeys(p.base, p.level))
  {
    hide LevelsOk, Newer, Placed, ClosedInputs, OutputsOk, NewerThanLevels, UniqueSeqs, Survives;
    LevelSeqsUnique(db);
    InstalledDrops(db.levels, p, outputs);
    forall e | e in InputEntries(p) ensures e !in db.mem && e !in ImmEntries(db) {
      if e in db.mem {
        NewerThanInputs(db.levels, p, db.mem, e, e);
      } else if e in ImmEntries(db) {
        NewerThanInputs(db.levels, p, ImmEntries(db), e, e);
      }
    }
  }

  lemma InstallKeepsNumbers(db: Db, p: Pending, outputs: seq<Table>)
    requires FilesNumbered(db) && p.level + 1 < NUM_LEVELS && forall f :: f in outputs ==> f.number < db.nextFile
    ensures FilesNumbered(db.(levels := Installed(db.levels, p, outputs)))
  {
    var v' := Installed(db.levels, p, outputs);
    forall l, f | 0 <= l < NUM_LEVELS && f in v'[l] ensures f.number < db.nextFile {
      InstalledMembers(db.levels, p, outputs, l, f);
    }
  }

  lemma InstallKeepsInv(db: Db, a: Action)
    requires Inv(db) && a.InstallOutputs? && Enabled(db, a)
    ensures Inv(Apply(db, a))
  {
    hide Ordered, AllEntries, PendingOk, UniqueSeqs;
    var p, db' := db.pending.value, Apply(db, a);
    var mid := db.(levels := Installed(db.levels, p, a.outputs));
    InstallKeepsOrdered(db, p, a.outputs);
    InstallKeepsNumbers(db, p, a.outputs);
    SameEntries(mid, db');
    CompactionPreservesMeaning(db, p, a.outputs, 0, p.snap);
    forall u, s: nat | s >= db'.horizon ensures Visible(AllEntries(db'), u, s) == Visible(db'.history, u, s) {
      CompactionPreservesMeaning(db, p, a.outputs, u, s);
    }
  }

  lemma MoveIsInstall(v: Levels, p: Pending, f: Table)
    requires p.base == v && SortedLevels(v) && p.in0 == [f] && p.in1 == [] && InputsOk(v, p.level, [f], [])
             && ClosedInputs(p)
    ensures PendingOk(v, p) && OutputsFromInputs(p, [f])
    ensures InputEntries(p) == Elements(f.entries) == Elements(Flatten([f]))
  {
    assert [f][..0] == [] && Flatten([f]) == f.entries;
    assert f in p.in0 + p.in1;
  }

  lemma MoveKeepsEntries(db: Db, p: Pending, f: Table)
    requires Ordered(db) && Recorded(db) && PendingOk(db.levels, p)
    requires InputEntries(p) == Elements(Flatten([f]))
    ensures AllEntries(db.(levels := Installed(db.levels, p, [f]))) == AllEntries(db)
  {
    hide LevelsOk, Newer, Placed, ClosedInputs, NewerThanLevels, UniqueSeqs, Sorted, InputEntries;
    LevelSeqsUnique(db);
    InstalledEntries(db.levels, p, [f]);
  }

  lemma MoveKeepsInv(db: Db, a: Action)
    requires Inv(db) && a.MoveFile? && Enabled(db, a)
    ensures Inv(Apply(db, a))
  {
    hide AllEntries, PendingOk, UniqueSeqs, ClosedInputs, OutputsFromInputs, Newer, Sorted, NewerThanLevels,
      LevelZeroOrdered, OlderDownward, SortedLevels, InputEntries, NoGap, MeetsHull, LevelZeroClosed;
    var p := Started(db, a.level, [a.file], []);
    MoveIsInstall(db.levels, p, a.file);
    assert a.level + 1 < NUM_LEVELS && a.file in [a.file] && a.file in db.levels[a.level];
    hide Ordered, InputsOk;
    InstallKeepsOrdered(db, p, [a.file]);
    InstallKeepsNumbers(db, p, [a.file]);
    MoveKeepsEntries(db, p, a.file);
  }

  // ----- crash and recovery -----

  /** Every recovered table is newer than the levels, and newer than the tables recovered before it. */
  lemma RecoveredIsNewer(db: Db, tables: seq<Table>, reuse: bool, i: nat)
    requires Ordered(db) && FromLogs(db, tables, reuse) && i < |tables|
    ensures NewerThanLevels(tables[i].entries, db.levels)
    ensures forall j :: 0 <= j < i ==> Newer(tables[i].entries, tables[j].entries)
    ensures reuse ==> Newer(db.mem, tables[i].entries)
  {
    hide LevelsOk, Sorted;
    FlattenMembers(tables);
    assert tables[i] in tables;
    forall l, f | 0 <= l < NUM_LEVELS && f in db.levels[l] ensures Newer(tables[i].entries, f.entries) {
      forall x, y | x in tables[i].entries && y in f.entries && x.user == y.user ensures x.sn > y.sn {
        assert x in Flatten(tables);
        if x in db.mem {
          NewerApplies(db.mem, f.entries, x, y);
        } else {
          NewerApplies(ImmEntries(db), f.entries, x, y);
        }
      }
    }
    if reuse {
      forall x, y | x in db.mem && y in tables[i].entries && x.user == y.user ensures x.sn > y.sn {
        assert y in Flatten(tables);
        NewerApplies(db.mem, ImmEntries(db), x, y);
      }
    }
  }

  /** Tables that can go to level 0 one after the other. */
  ghost predicate Stacked(v: Levels, tables: seq<Table>) {
    && (forall t :: t in tables ==> NewerThanLevels(t.entries, v))
    && (forall i, j :: 0 <= i < j < |tables| ==> tables[i].number < tables[j].number)
    && (forall i, j :: 0 <= i < j < |tables| ==> Newer(tables[j].entries, tables[i].entries))
    && (forall t, l, f :: t in tables && 0 <= l < NUM_LEVELS && f in v[l] ==> f.number < t.number)
  }

  lemma LastOnTop(v: Levels, tables: seq<Table>, l: nat, g: Table)
    requires Stacked(v, tables) && tables != [] && l < NUM_LEVELS
    requires g in v[0 := AddFiles(v[0], tables[..|tables| - 1])][l]
    ensures Newer(tables[|tables| - 1].entries, g.entries) && g.number < tables[|tables| - 1].number
  {
    hide Newer;
    AddFilesMembers(v[0], tables[..|tables| - 1]);
    assert tables[|tables| - 1] in tables;
  }

  lemma {:induction false} RecoveredLevels(v: Levels, tables: seq<Table>)
    requires LevelsOk(v) && Stacked(v, tables)
    ensures LevelsOk(v[0 := AddFiles(v[0], tables)])
    ensures LevelEntries(v[0 := AddFiles(v[0], tables)]) == LevelEntries(v) + Elements(Flatten(tables))
  {
    hide LevelsOk, Newer, LevelEntries, NewerThanLevels;
    if tables == [] {
      assert v[0 := v[0]] == v;
    } else {
      var rest, t := tables[..|tables| - 1], tables[|tables| - 1];
      var mid: Levels := v[0 := AddFiles(v[0], rest)];
      assert Stacked(v, rest);
      RecoveredLevels(v, rest);
      forall l, g | 0 <= l < NUM_LEVELS && g in mid[l] ensures Newer(t.entries, g.entries) && g.number < t.number {
        LastOnTop(v, tables, l, g);
      }
      hide Stacked;
      FlushKeepsLevels(mid, t, 0);
      FlushedEntries(mid, t, 0);
      assert mid[0 := InsertFile(mid[0], t)] == v[0 := AddFiles(v[0], tables)];
    }
  }

  ghost function AfterLogs(db: Db, tables: seq<Table>, reuse: bool): Db {
    db.(mem := if reuse then db.mem else [], imm := None, levels := db.levels[0 := AddFiles(db.levels[0], tables)])
  }

  lemma RecoveredStack(db: Db, tables: seq<Table>, reuse: bool)
    requires Ordered(db) && FromLogs(db, tables, reuse)
    ensures Stacked(db.levels, tables) && (reuse ==> forall t :: t in tables ==> Newer(db.mem, t.entries))
  {
    hide NewerThanLevels, Newer, LevelsOk, Sorted, Flatten;
    forall i: nat | i < |tables|
      ensures NewerThanLevels(tables[i].entries, db.levels) && (reuse ==> Newer(db.mem, tables[i].entries))
      ensures forall j :: 0 <= j < i ==> Newer(tables[i].entries, tables[j].entries)
    {
      RecoveredIsNewer(db, tables, reuse, i);
    }
  }

  lemma RecoveredOrdered(db: Db, tables: seq<Table>, reuse: bool)
    requires Ordered(db) && FromLogs(db, tables, reuse)
    ensures Ordered(AfterLogs(db, tables, reuse)) && AllEntries(AfterLogs(db, tables, reuse)) == AllEntries(db)
  {
    RecoveredStack(db, tables, reuse);
    assert LevelsOk(db.levels) && Sorted(db.mem) && NewerThanLevels(db.mem, db.levels);
    hide Ordered, FromLogs, NewerThanLevels, Newer, LevelsOk, LevelEntries, Flatten, AddFiles, Stacked, AllEntries,
      Sorted;
    RecoveredLevels(db.levels, tables);
    if reuse {
      KeptIsNewer(db.levels, db.mem, tables);
    }
    OnlyTheMemTable(AfterLogs(db, tables, reuse));
    RecoveredEntries(db, tables, reuse);
  }

  lemma KeptIsNewer(v: Levels, mem: seq<Entry>, tables: seq<Table>)
    requires NewerThanLevels(mem, v) && forall t :: t in tables ==> Newer(mem, t.entries)
    ensures NewerThanLevels(mem, v[0 := AddFiles(v[0], tables)])
  {
    hide Newer, AddFiles;
    AddFilesMembers(v[0], tables);
  }

  lemma RecoveredEntries(db: Db, tables: seq<Table>, reuse: bool)
    requires FromLogs(db, tables, reuse)
    requires LevelEntries(AfterLogs(db, tables, reuse).levels) == LevelEntries(db.levels) + Elements(Flatten(tables))
    ensures AllEntries(AfterLogs(db, tables, reuse)) == AllEntries(db)
  {
    hide LevelEntries, Flatten, AddFiles;
  }

  lemma OnlyTheMemTable(db: Db)
    requires LevelsOk(db.levels) && db.imm.None?
             && (db.mem == [] || (Sorted(db.mem) && NewerThanLevels(db.mem, db.levels)))
    ensures Ordered(db)
  {
    hide LevelsOk;
  }

  /** A crash loses the snapshots and the compaction in progress, and no reading. */
  lemma RecoverKeepsInv(db: Db, a: Action)
    requires Inv(db) && a.Recover? && Enabled(db, a)
    ensures Inv(Apply(db, a))
  {
    hide Ordered, AllEntries, FromLogs, UniqueSeqs, AddFiles, Visible, PendingOk;
    RecoveredOrdered(db, a.tables, a.reuse);
    SameEntries(AfterLogs(db, a.tables, a.reuse), Apply(db, a));
  }

  lemma StepKeepsInv(db: Db, a: Action)
    requires Inv(db) && Enabled(db, a)
    ensures Inv(Apply(db, a))
  {
    hide Inv;
    match a
    case Write(_, _, _) => WriteKeepsInv(db, a);
    case SwitchMemTable => SwitchKeepsInv(db);
    case FlushMemTable(_, _) => FlushKeepsInv(db, a);
    case TakeSnapshot => SnapshotKeepsInv(db, a);
    case ReleaseSnapshot(_) => SnapshotKeepsInv(db, a);
    case PickInputs(_, _, _) => PickKeepsInv(db, a);
    case InstallOutputs(_) => InstallKeepsInv(db, a);
    case AbandonCompaction => SnapshotKeepsInv(db, a);
    case OpenOutput => SnapshotKeepsInv(db, a);
    case MoveFile(_, _) => MoveKeepsInv(db, a);
    case Recover(_, _, _) => RecoverKeepsInv(db, a);
  }

  // ----- whole runs -----

  /** The state after a run, if every step of it was enabled. */
  ghost function Run(db: Db, actions: seq<Action>): Option<Db>
    decreases |actions|
  {
    if actions == [] then Some(db)
    else if Enabled(db, actions[0]) then Run(Apply(db, actions[0]), actions[1..])
    else None
  }

  ghost predicate Reachable(db: Db) {
    exists actions :: Run(Init(), actions) == Some(db)
  }

  lemma {:induction false} RunOneMore(db: Db, actions: seq<Action>, a: Action)
    requires Run(db, actions).Some? && Enabled(Run(db, actions).value, a)
    ensures Run(db, actions + [a]) == Some(Apply(Run(db, actions).value, a))
    decreases |actions|
  {
    hide Enabled, Apply;
    if actions == [] {
      assert Run(Apply(db, a), []) == Some(Apply(db, a));
      assert ([] + [a])[1..] == [];
    } else {
      RunOneMore(Apply(db, actions[0]), actions[1..], a);
      assert (actions + [a])[1..] == actions[1..] + [a];
    }
  }

  lemma ReachableStep(db: Db, a: Action)
    requires Reachable(db) && Enabled(db, a)
    ensures Reachable(Apply(db, a))
  {
    hide Enabled, Apply, Run;
    var actions :| Run(Init(), actions) == Some(db);
    RunOneMore(Init(), actions, a);
  }

  lemma {:induction false} RunKeepsInv(db: Db, actions: seq<Action>)
    requires Inv(db) && Run(db, actions).Some?
    ensures Inv(Run(db, actions).value)
    decreases |actions|
  {
    hide Inv, Enabled, Apply;
    if actions != [] {
      StepKeepsInv(db, actions[0]);
      RunKeepsInv(Apply(db, actions[0]), actions[1..]);
    }
  }

  lemma InitInv()
    ensures Inv(Init())
  {
    EmptyInv(Init());
  }

  lemma EmptyInv(db: Db)
    requires db.mem == [] && db.imm.None? && db.pending.None? && db.history == {} && db.snapshots == []
    requires db.horizon == db.lastSequence == 0 && forall l :: 0 <= l < NUM_LEVELS ==> db.levels[l] == []
    ensures Inv(db)
  {
    assert LevelsOk(db.levels);
    assert AllEntries(db) == {};
    hide LevelsOk, Visible, AllEntries;
  }

  lemma ReachableInv(db: Db)
    requires Reachable(db)
    ensures Inv(db)
  {
    InitInv();
    hide Inv, Enabled, Apply;
    var actions :| Run(Init(), actions) == Some(db);
    RunKeepsInv(Init(), actions);
  }

  ghost predicate LiveSequence(db: Db, s: nat) {
    s == db.lastSequence || s in db.snapshots
  }

  lemma MemHitIsNewest(db: Db, e: Entry, s: nat)
    requires Ordered(db) && Hits(db.mem, e, e.user, s)
    ensures IsNewest(AllEntries(db), e, e.user, s)
  {
    forall x | x in LevelEntries(db.levels) && x.user == e.user ensures x.sn < e.sn {
      var l, f :| 0 <= l < NUM_LEVELS && f in db.levels[l] && x in f.entries;
      assert Newer(db.mem, f.entries);
    }
  }

  lemma ImmHitIsNewest(db: Db, e: Entry, s: nat)
    requires Ordered(db) && Misses(db.mem, e.user, s) && Hits(ImmEntries(db), e, e.user, s)
    ensures IsNewest(AllEntries(db), e, e.user, s)
  {
    forall x | x in LevelEntries(db.levels) && x.user == e.user ensures x.sn < e.sn {
      var l, f :| 0 <= l < NUM_LEVELS && f in db.levels[l] && x in f.entries;
      assert Newer(ImmEntries(db), f.entries);
    }
  }

  /** What a reader can rely on in a reachable state. */
  lemma ReadableState(db: Db, u: UserKey, s: nat)
    requires Reachable(db) && LiveSequence(db, s)
    ensures Ordered(db) && Sorted(db.mem) && Sorted(ImmEntries(db)) && UniqueSeqs(AllEntries(db))
    ensures SortedLevels(db.levels) && LevelZeroOrdered(db.levels[0]) && OlderDownward(db.levels)
    ensures Visible(AllEntries(db), u, s) == Visible(db.history, u, s)
  {
    ReachableInv(db);
    assert s >= db.horizon;
    LevelSeqsUnique(db);
  }

  lemma LevelHitIsNewest(db: Db, e: Entry, s: nat)
    requires Misses(db.mem, e.user, s) && Misses(ImmEntries(db), e.user, s)
             && IsNewest(LevelEntries(db.levels), e, e.user, s)
    ensures IsNewest(AllEntries(db), e, e.user, s)
  {
    hide LevelEntries;
  }

  lemma MissIsNone(db: Db, u: UserKey, s: nat)
    requires FindsNothing(db, u, s)
    ensures Visible(AllEntries(db), u, s) == None
  {
    hide LevelEntries;
  }

  /** The entry at which the search through memtables and levels stops. */
  ghost predicate Found(db: Db, e: Entry, s: nat) {
    || Hits(db.mem, e, e.user, s)
    || (Misses(db.mem, e.user, s) && Hits(ImmEntries(db), e, e.user, s))
    || (Misses(db.mem, e.user, s) && Misses(ImmEntries(db), e.user, s) && FirstHit(db.levels, e, s))
  }

  /** No entry of u at or below s. */
  ghost predicate FindsNothing(db: Db, u: UserKey, s: nat) {
    && Misses(db.mem, u, s) && Misses(ImmEntries(db), u, s)
    && forall e :: e in LevelEntries(db.levels) && e.user == u ==> e.sn > s
  }

  /** The search of DBImpl::Get, in any database with sorted runs. */
  method Search(db: Db, u: UserKey, s: nat) returns (found: Option<Entry>)
    requires Sorted(db.mem) && Sorted(ImmEntries(db)) && SortedLevels(db.levels) && LevelZeroOrdered(db.levels[0])
    ensures found.Some? ==> found.value.user == u && Found(db, found.value, s)
    ensures found.None? ==> FindsNothing(db, u, s)
  {
    hide SortedLevels, LevelZeroOrdered, FirstHit, LevelEntries, Sorted, SeekEntry;
    found := SeekEntry(db.mem, u, s);
    SeekFindsNewest(db.mem, u, s);
    if found.None? && db.imm.Some? {
      found := SeekEntry(db.imm.value, u, s);
      SeekFindsNewest(db.imm.value, u, s);
    }
    if found.None? {
      found := GetFromLevels(db.levels, u, s);
    }
  }

  lemma FoundIsNewest(db: Db, e: Entry, s: nat)
    requires Ordered(db) && Found(db, e, s)
    ensures IsNewest(AllEntries(db), e, e.user, s)
  {
    hide Ordered, AllEntries, IsNewest, Hits, Misses, FirstHit, LevelEntries, OlderDownward;
    if Hits(db.mem, e, e.user, s) {
      MemHitIsNewest(db, e, s);
    } else if Hits(ImmEntries(db), e, e.user, s) && Misses(db.mem, e.user, s) {
      ImmHitIsNewest(db, e, s);
    } else {
      assert OlderDownward(db.levels) by { LevelsInOrder(db); }
      FirstHitIsNewest(db.levels, e, s);
      LevelHitIsNewest(db, e, s);
    }
  }

  lemma LevelsInOrder(db: Db)
    requires Ordered(db)
    ensures OlderDownward(db.levels)
  {
  }

  /** DBImpl::Get in any reachable state, at the latest sequence number or at a live snapshot, returns exactly what the
      full write history says. */
  method Get(db: Db, u: UserKey, s: nat) returns (value: Option<Value>)
    requires Reachable(db) && LiveSequence(db, s)
    ensures value == Visible(db.history, u, s)
  {
    hide Reachable, LiveSequence, Ordered, SortedLevels, LevelZeroOrdered, OlderDownward, UniqueSeqs, AllEntries,
      IsNewest,
      Visible, Sorted, Found, FindsNothing;
    ReadableState(db, u, s);
    var found := Search(db, u, s);
    if found.Some? {
      FoundIsNewest(db, found.value, s);
      VisibleIs(AllEntries(db), found.value, u, s);
      value := if found.value.kind.Put? then Some(found.value.value) else None;
    } else {
      MissIsNone(db, u, s);
      value := None;
    }
  }

  /** CompactMemTable: the level picked for a flush makes the flush step possible. */
  method CompactMemTable(db: Db, size: nat) returns (level: nat)
    requires Inv(db) && db.imm.Some? && db.imm.value != []
    ensures Enabled(db, FlushMemTable(level, size))
  {
    hide NewerThanLevels, Newer, LevelZeroOrdered, OlderDownward, UniqueSeqs, PendingOk, Faithful, DisjointSorted;
    var imm := db.imm.value;
    forall e | e in imm ensures e.sn < MAX_SEQUENCE {
      assert e in AllEntries(db);
    }
    ghost var f := Flushed(db, size);
    BoundsHold(f, Largest(f));
    level := PickLevelForMemTableOutput(db.levels, imm[0].user, imm[|imm| - 1].user);
  }

  /** BackgroundCompaction: whatever file triggers it, the chosen inputs are what the pick step asks for,
      up to the closed boundaries that the code does not look at. */
  method ChooseInputs(db: Db, level: nat, index: nat) returns (in0: seq<Table>, in1: seq<Table>)
    requires Inv(db) && db.pending.None? && level + 1 < NUM_LEVELS && index < |db.levels[level]|
    ensures InputsOk(db.levels, level, in0, in1) && db.levels[level][index] in in0
    ensures Enabled(db, PickInputs(level, in0, in1)) <==> ClosedInputs(Started(db, level, in0, in1))
  {
    hide Inv, InputsOk, ClosedInputs, InListOrder;
    in0, in1 := PickCompaction(db.levels, level, index);
  }

  /** DoCompactionWork over the merged inputs produces outputs the install step accepts. */
  method MergeInputs(db: Db, input: seq<Entry>, stopBefore: seq<bool>, full: seq<bool>, numbers: seq<nat>,
                     sizeOf: seq<Entry> -> nat) returns (outputs: seq<Table>)
    requires Inv(db) && db.pending.Some?
    requires Sorted(input) && Elements(input) == InputEntries(db.pending.value)
    requires |stopBefore| == |full| == |input| <= |numbers|
    requires forall n :: n in numbers ==> n < db.nextFile
    ensures Enabled(db, InstallOutputs(outputs))
  {
    var p := db.pending.value;
    InputsAreEntries(db.levels, p);
    assert forall e :: e in LevelEntries(db.levels) ==> e in AllEntries(db);
    assert forall e :: e in input <==> e in Elements(input);
    assert SortedLevels(p.base);
    var c := new Compaction(p.level, p.base);
    outputs := DoCompactionWork(c, input, p.snap, stopBefore, full, numbers, sizeOf);
    forall f | f in outputs ensures f.number < db.nextFile {
      var i :| 0 <= i < |outputs| && outputs[i] == f;
      assert numbers[i] in numbers;
    }
  }
}
