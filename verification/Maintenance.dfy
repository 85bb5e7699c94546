/** What the background steps of a database achieve: flushes, merges, moves, giving up, and recovery. */
module Maintenance {
  import opened Format
  import opened Version
  import opened ReadPath
  import opened Compactions
  import opened LevelEdits
  import opened Install
  import opened Database

  // ----- flushes -----

  lemma FileAddsEntries(v: Levels, level: nat, f: Table)
    requires level < NUM_LEVELS
    ensures LevelEntries(v[level := InsertFile(v[level], f)]) == LevelEntries(v) + Elements(f.entries)
  {
    InsertFileMembers(v[level], f);
    hide InsertFile;
    var v' := v[level := InsertFile(v[level], f)];
    forall e | e in LevelEntries(v) + Elements(f.entries) ensures e in LevelEntries(v') {
      if e in f.entries {
        assert f in v'[level];
      } else {
        var l, g :| 0 <= l < NUM_LEVELS && g in v[l] && e in g.entries;
        assert g in v'[l];
      }
    }
  }

  /** A flush empties the immutable memtable into the levels. */
  lemma FlushMoves(db: Db, a: Action)
    requires a.FlushMemTable? && Enabled(db, a)
    ensures var db' := Apply(db, a);
            && db'.imm.None? && db'.mem == db.mem && db'.history == db.history && db'.lastSequence == db.lastSequence
            && LevelEntries(db'.levels) == LevelEntries(db.levels) + Elements(ImmEntries(db))
  {
    hide LevelEntries, InsertFile;
    if ImmEntries(db) != [] {
      FileAddsEntries(db.levels, a.level, Flushed(db, a.size));
    }
  }

  /** An immutable memtable can be flushed, to level 0 if nowhere else. */
  lemma FlushIsEnabled(db: Db, size: nat)
    requires Inv(db) && db.imm.Some?
    ensures Enabled(db, FlushMemTable(0, size))
  {
    hide Faithful, UniqueSeqs, NewerThanLevels, LevelsOk, PendingOk, SnapshotsOk;
    assert Elements(ImmEntries(db)) <= AllEntries(db);
    forall e | e in ImmEntries(db) ensures e.sn < MAX_SEQUENCE {
      assert e in Elements(ImmEntries(db));
    }
  }

  ghost predicate AllInTables(db: Db, db': Db) {
    && db'.mem == [] && db'.imm.None? && LevelEntries(db'.levels) == AllEntries(db)
    && db'.history == db.history && db'.lastSequence == db.lastSequence
  }

  /** Switching and flushing, with nothing in the way, moves the memtable into the levels. */
  lemma SwitchAndFlush(db: Db, size: nat)
    requires Inv(db) && db.imm.None?
    ensures var actions := [SwitchMemTable, FlushMemTable(0, size)];
            Run(db, actions).Some? && AllInTables(db, Run(db, actions).value)
  {
    hide Inv, Enabled, Apply, LevelEntries;
    SwitchMoves(db);
    var mid := Apply(db, SwitchMemTable);
    FlushIsEnabled(mid, size);
    FlushMoves(mid, FlushMemTable(0, size));
    RunTwo(db, SwitchMemTable, FlushMemTable(0, size));
  }

  lemma SwitchMoves(db: Db)
    requires Inv(db) && db.imm.None?
    ensures Enabled(db, SwitchMemTable) && Inv(Apply(db, SwitchMemTable))
    ensures var db' := Apply(db, SwitchMemTable);
            && db'.mem == [] && db'.imm == Some(db.mem) && db'.levels == db.levels
            && db'.history == db.history && db'.lastSequence == db.lastSequence
  {
    hide Inv;
    StepKeepsInv(db, SwitchMemTable);
  }

  lemma RunTwo(db: Db, a: Action, b: Action)
    requires Enabled(db, a) && Enabled(Apply(db, a), b)
    ensures Run(db, [a, b]) == Some(Apply(Apply(db, a), b))
  {
    hide Enabled, Apply;
    assert [a, b][1..] == [b] && [b][1..] == [];
    assert Run(Apply(db, a), [b]) == Run(Apply(Apply(db, a), b), []);
  }

  /** From every reachable state two flushes at most put everything written so far, and not yet merged away, into
      tables. */
  lemma MemTablesDrain(db: Db, size: nat) returns (actions: seq<Action>)
    requires Reachable(db)
    ensures Run(db, actions).Some? && AllInTables(db, Run(db, actions).value)
  {
    hide Reachable, Inv, Enabled, Apply, AllInTables, LevelEntries;
    ReachableInv(db);
    actions := [SwitchMemTable, FlushMemTable(0, size)];
    if db.imm.None? {
      SwitchAndFlush(db, size);
    } else {
      var flush := FlushMemTable(0, size);
      FlushIsEnabled(db, size);
      StepKeepsInv(db, flush);
      FlushMoves(db, flush);
      var mid := Apply(db, flush);
      SwitchAndFlush(mid, size);
      assert ([flush] + actions)[1..] == actions;
      SameContents(db, mid, Run(mid, actions).value);
      actions := [flush] + actions;
    }
  }

  lemma SameContents(db: Db, mid: Db, end: Db)
    requires AllInTables(mid, end) && mid.imm.None? && mid.mem == db.mem
    requires mid.history == db.history && mid.lastSequence == db.lastSequence
    requires LevelEntries(mid.levels) == LevelEntries(db.levels) + Elements(ImmEntries(db))
    ensures AllInTables(db, end)
  {
    hide LevelEntries;
    assert Elements(ImmEntries(mid)) == {};
    assert AllEntries(mid) == AllEntries(db);
  }

  // ----- compactions -----

  /** A compaction works with the oldest sequence number at which anybody reads. */
  lemma PickTakesOldest(db: Db, a: Action)
    requires Inv(db) && a.PickInputs? && Enabled(db, a)
    ensures var db' := Apply(db, a);
            && db'.pending.Some? && db' == db.(pending := db'.pending) && db'.pending.value.base == db.levels
            && db'.pending.value.level == a.level && db'.pending.value.in0 == a.in0 && db'.pending.value.in1 == a.in1
            && LiveSequence(db, db'.pending.value.snap)
            && forall x :: LiveSequence(db, x) ==> db'.pending.value.snap <= x
  {
    assert SnapshotsOk(db);
    hide Ordered, Recorded, Faithful, FilesNumbered, InputsOk, ClosedInputs, PendingOk;
  }

  /** Installing replaces exactly the inputs by the outputs, one level down, and ends the compaction. */
  lemma InstallReplaces(db: Db, a: Action, l: nat, f: Table)
    requires a.InstallOutputs? && Enabled(db, a) && l < NUM_LEVELS
    ensures var db', p := Apply(db, a), db.pending.value;
            && db'.pending.None? && db'.mem == db.mem && db'.imm == db.imm && db'.snapshots == db.snapshots
            && (f in db'.levels[l] <==>
                  || (f in db.levels[l] && !(l == p.level && f in p.in0) && !(l == p.level + 1 && f in p.in1))
                  || (l == p.level + 1 && f in a.outputs))
  {
    InstalledMembers(db.levels, db.pending.value, a.outputs, l, f);
  }

  /** A compaction of one file that meets nothing below may be a move instead. */
  lemma MoveIsEnabled(db: Db, level: nat, file: Table)
    requires Enabled(db, PickInputs(level, [file], []))
    ensures Enabled(db, MoveFile(level, file))
  {
  }

  /** A trivial move takes one file one level down, and nothing else. */
  lemma MoveMoves(db: Db, a: Action, l: nat, f: Table)
    requires a.MoveFile? && Enabled(db, a) && l < NUM_LEVELS
    ensures var db' := Apply(db, a);
            && db' == db.(levels := db'.levels)
            && (f in db'.levels[l] <==>
                  (f in db.levels[l] && !(l == a.level && f == a.file)) || (l == a.level + 1 && f == a.file))
  {
    InstalledMembers(db.levels, Started(db, a.level, [a.file], []), [a.file], l, f);
  }

  /** A compaction that fails leaves the database as it was, free to start another. */
  lemma GivingUpFrees(db: Db, level: nat, in0: seq<Table>, in1: seq<Table>)
    requires db.pending.None? && Enabled(db, PickInputs(level, in0, in1))
    ensures var picked := Apply(db, PickInputs(level, in0, in1));
            Enabled(picked, AbandonCompaction) && Apply(picked, AbandonCompaction) == db
  {
  }

  // ----- recovery -----

  lemma {:induction false} MergeInto(a: seq<Entry>, b: seq<Entry>, all: set<Entry>) returns (c: seq<Entry>)
    requires Sorted(a) && UniqueSeqs(all) && Elements(a) <= all && Elements(b) <= all
    ensures Sorted(c) && forall x :: x in c <==> x in a || x in b
  {
    if b == [] {
      c := a;
    } else {
      var rest, e := b[..|b| - 1], b[|b| - 1];
      assert b == rest + [e] && e in Elements(b);
      assert Elements(rest) <= all;
      c := MergeInto(a, rest, all);
      if e !in c {
        forall x | x in c ensures x in all && Tag(x) != Tag(e) {
          assert x in Elements(a) || x in Elements(rest);
        }
        InsertEntrySorted(c, e);
        InsertEntryMembers(c, e);
        c := InsertEntry(c, e);
      }
    }
  }

  /** Every state can be recovered from its logs. */
  lemma RecoveryIsEnabled(db: Db) returns (a: Action)
    requires Inv(db)
    ensures a.Recover? && !a.reuse && Enabled(db, a)
  {
    var entries := LoggedEntries(db);
    var next := db.nextFile + 1;
    if entries == [] {
      a := Recover([], false, next);
    } else {
      var t: Table := TableFile(db.nextFile, 0, entries);
      OneTableFromLogs(db, t);
      a := Recover([t], false, next);
    }
  }

  lemma LoggedEntries(db: Db) returns (entries: seq<Entry>)
    requires Inv(db)
    ensures Sorted(entries) && forall e :: e in entries <==> e in db.mem || e in ImmEntries(db)
    ensures forall e :: e in entries ==> e.sn < MAX_SEQUENCE
  {
    hide Faithful, LevelsOk, Newer, NewerThanLevels, PendingOk, SnapshotsOk, LevelEntries;
    assert Elements(db.mem) <= AllEntries(db) && Elements(ImmEntries(db)) <= AllEntries(db);
    entries := MergeInto(db.mem, ImmEntries(db), db.history);
    forall e | e in entries ensures e.sn < MAX_SEQUENCE {
      assert e in Elements(db.mem) || e in Elements(ImmEntries(db));
    }
  }

  lemma OneTableFromLogs(db: Db, t: Table)
    requires FilesNumbered(db) && t.number == db.nextFile
    requires forall e :: e in t.entries <==> e in db.mem || e in ImmEntries(db)
    ensures Enabled(db, Recover([t], false, db.nextFile + 1))
  {
    hide WellFormed;
    assert Flatten([t]) == t.entries by {
      assert [t][..0] == [] && Flatten([]) == [];
    }
    AddFilesMembers(db.levels[0], [t]);
    hide AddFiles, Flatten;
  }

  /** A recovery brings back every entry, in the levels unless the last log is reused, and forgets every snapshot and
      the compaction at work. */
  lemma RecoverRestores(db: Db, a: Action)
    requires Inv(db) && a.Recover? && Enabled(db, a)
    ensures var db' := Apply(db, a);
            && AllEntries(db') == AllEntries(db) && db'.history == db.history && db'.lastSequence == db.lastSequence
            && db'.imm.None? && db'.pending.None? && db'.snapshots == []
            && (if a.reuse then db'.mem == db.mem else LevelEntries(db'.levels) == AllEntries(db))
  {
    assert Ordered(db);
    hide Inv, Ordered, FromLogs, AddFiles, LevelEntries;
    RecoveredOrdered(db, a.tables, a.reuse);
    SameEntriesAs(Apply(db, a), AfterLogs(db, a.tables, a.reuse));
  }

  lemma SameEntriesAs(a: Db, b: Db)
    requires a.levels == b.levels && a.mem == b.mem && a.imm == b.imm && a.imm.None?
    ensures AllEntries(a) == AllEntries(b) && (a.mem == [] ==> AllEntries(a) == LevelEntries(a.levels))
  {
    hide LevelEntries;
  }
}
