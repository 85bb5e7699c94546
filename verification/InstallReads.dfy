/** What readers find after a compaction is installed, whatever its inputs: version_set.cc and db_impl.cc.  The exact
    condition under which every reader at or above the smallest snapshot still finds the same value. */
module InstallReads {
  import opened Format
  import opened Visibility
  import opened Version
  import opened ReadPath
  import opened Compactions
  import opened LevelEdits
  import opened Install
  import opened SplitKeys
  import opened Database

  /** A reader of u at s gets what the entries show. */
  ghost predicate ReadsAs(db: Db, es: set<Entry>, u: UserKey, s: nat) {
    && (forall e: Entry :: e.user == u && Found(db, e, s) ==> Reading(e) == Visible(es, u, s))
    && (FindsNothing(db, u, s) ==> Visible(es, u, s) == None)
  }

  ghost function Compacted(db: Db, p: Pending, outputs: seq<Table>): Db
    requires p.level + 1 < NUM_LEVELS
  {
    db.(levels := Installed(db.levels, p, outputs))
  }

  /** The entries of files that are no inputs. */
  ghost function LeftAt(v: Levels, p: Pending, l: nat): set<Entry>
    requires l < NUM_LEVELS
  {
    set f, e | f in v[l] && !IsInput(p, l, f) && e in f.entries :: e
  }

  ghost function LeftAll(v: Levels, p: Pending): set<Entry> {
    set l, f, e | 0 <= l < NUM_LEVELS && f in v[l] && !IsInput(p, l, f) && e in f.entries :: e
  }

  /** Where a reader who used to stop at x may stop now: in front of the outputs, if x is among them, or anywhere. */
  ghost function Beside(v: Levels, p: Pending, outputs: seq<Table>, x: Entry): set<Entry>
    requires p.level + 1 < NUM_LEVELS
  {
    if x in Flatten(outputs) then LeftAt(v, p, p.level) else LeftAll(v, p)
  }

  /** The entry that is found in place of x. */
  ghost predicate Instead(v: Levels, p: Pending, outputs: seq<Table>, x: Entry, e: Entry)
    requires p.level + 1 < NUM_LEVELS
  {
    IsNewest(Beside(v, p, outputs, x), e, x.user, x.sn)
  }

  /** Outputs made of input entries; of those that some reader can reach only markers are missing, and nothing that such
      a reader could take for them is there. */
  ghost predicate Kept(p: Pending, outputs: seq<Table>) {
    && (forall e :: e in Flatten(outputs) ==> e in InputEntries(p))
    && (forall x, y :: x in InputEntries(p) && !Hidden(InputEntries(p), x, p.snap) && x !in Flatten(outputs) ==>
          x.kind.Deletion? && (y in Flatten(outputs) && y.user == x.user ==> y.sn > p.snap && y.sn > x.sn))
  }

  /** The state before the install: inputs in place, not necessarily closed. */
  ghost predicate Ready(db: Db, p: Pending, outputs: seq<Table>) {
    Ordered(db) && Recorded(db) && Placed(db.levels, p) && Kept(p, outputs) && p.level + 1 < NUM_LEVELS
  }

  lemma MergeIsKept(p: Pending, outputs: seq<Table>)
    requires OutputsOk(p, outputs) && UniqueSeqs(InputEntries(p))
    ensures Kept(p, outputs)
  {
    hide InputEntries, Flatten, BaseKeys;
  }

  lemma MoveIsKept(p: Pending, f: Table)
    requires p.in0 == [f] && p.in1 == []
    ensures Kept(p, [f])
  {
    hide InputEntries, Flatten;
    MoveKeepsHeads(p, f);
  }

  // ----- one reader -----

  lemma InputFile(v: Levels, p: Pending, x: Entry) returns (k: nat, h: Table)
    requires Placed(v, p) && x in InputEntries(p)
    ensures p.level <= k <= p.level + 1 < NUM_LEVELS && h in v[k] && x in h.entries && IsInput(p, k, h)
  {
    h :| h in p.in0 + p.in1 && x in h.entries;
    k := if h in p.in0 then p.level else p.level + 1;
  }

  /** The memtables hold nothing that a reader at s can see, if the newest entry for it is in the levels. */
  lemma MemTablesMiss(db: Db, x: Entry, s: nat, k: nat, h: Table)
    requires Ordered(db) && IsNewest(AllEntries(db), x, x.user, s) && k < NUM_LEVELS && h in db.levels[k]
             && x in h.entries
    ensures Misses(db.mem, x.user, s) && Misses(ImmEntries(db), x.user, s)
  {
    hide LevelsOk;
    assert Newer(db.mem, h.entries) && Newer(ImmEntries(db), h.entries);
  }

  /** Files above the one with the newest entry hold nothing that the reader can see. */
  lemma AboveMisses(db: Db, x: Entry, s: nat, k: nat, h: Table, m: nat, f: Table)
    requires LevelsOk(db.levels) && IsNewest(AllEntries(db), x, x.user, s)
    requires m < k < NUM_LEVELS && h in db.levels[k] && x in h.entries && f in db.levels[m]
    ensures Misses(f.entries, x.user, s)
  {
    assert Newer(f.entries, h.entries);
    assert forall y :: y in f.entries ==> y in LevelEntries(db.levels);
  }

  lemma InstalledFrom(db: Db, p: Pending, outputs: seq<Table>, m: nat, f: Table, y: Entry)
    requires Ready(db, p, outputs) && m < NUM_LEVELS && f in Installed(db.levels, p, outputs)[m] && y in f.entries
    ensures y in AllEntries(db)
    ensures (f in db.levels[m] && !IsInput(p, m, f))
            || (m == p.level + 1 && y in Flatten(outputs) && y in InputEntries(p))
  {
    hide Ordered, Recorded, Placed;
    InstalledMembers(db.levels, p, outputs, m, f);
    InputsAreEntries(db.levels, p);
    FlattenMembers(outputs);
  }

  /** The newest entry is no input: it is still found. */
  lemma OutsideIsFound(db: Db, p: Pending, outputs: seq<Table>, x: Entry, s: nat)
    requires Ready(db, p, outputs) && IsNewest(AllEntries(db), x, x.user, s) && x !in InputEntries(p)
    ensures Found(Compacted(db, p, outputs), x, s)
  {
    hide Recorded, Placed, Kept, Installed, LevelsOk;
    if x in db.mem {
      assert Hits(db.mem, x, x.user, s);
    } else if x in ImmEntries(db) {
      assert Misses(db.mem, x.user, s) && Hits(ImmEntries(db), x, x.user, s);
    } else {
      var k, h :| 0 <= k < NUM_LEVELS && h in db.levels[k] && x in h.entries;
      MemTablesMiss(db, x, s, k, h);
      OutsideIsHit(db, p, outputs, x, s, k, h);
    }
  }

  lemma OutsideIsHit(db: Db, p: Pending, outputs: seq<Table>, x: Entry, s: nat, k: nat, h: Table)
    requires Ready(db, p, outputs) && IsNewest(AllEntries(db), x, x.user, s) && x !in InputEntries(p)
    requires k < NUM_LEVELS && h in db.levels[k] && x in h.entries
    ensures FirstHit(Installed(db.levels, p, outputs), x, s)
  {
    hide Recorded, Placed, Kept, Installed, LevelsOk, AllEntries;
    var v, v' := db.levels, Installed(db.levels, p, outputs);
    assert h in v'[k] by { StaysInstalled(v, p, outputs, k, h, x); }
    forall m, f | 0 <= m < k && f in v'[m] ensures Misses(f.entries, x.user, s) {
      forall y | y in f.entries && y.user == x.user ensures y.sn > s {
        InstalledFrom(db, p, outputs, m, f, y);
        if f in v[m] && !IsInput(p, m, f) {
          AboveMisses(db, x, s, k, h, m, f);
        } else {
          var l, g := InputFile(v, p, y);
          AboveMisses(db, x, s, k, h, l, g);
        }
      }
    }
    NewestThere(db, p, outputs, x, s, k);
    NewestAtIsHit(v', k, x.user, x, s);
  }

  lemma StaysInstalled(v: Levels, p: Pending, outputs: seq<Table>, k: nat, h: Table, x: Entry)
    requires p.level + 1 < NUM_LEVELS && k < NUM_LEVELS && h in v[k] && x in h.entries && x !in InputEntries(p)
    ensures h in Installed(v, p, outputs)[k]
  {
    InstalledMembers(v, p, outputs, k, h);
  }

  /** The newest entry of all, if it is at a level, is the newest there. */
  lemma NewestThere(db: Db, p: Pending, outputs: seq<Table>, x: Entry, s: nat, k: nat)
    requires Ready(db, p, outputs) && IsNewest(AllEntries(db), x, x.user, s) && k < NUM_LEVELS
    requires x in EntriesAt(Installed(db.levels, p, outputs), k)
    ensures IsNewest(EntriesAt(Installed(db.levels, p, outputs), k), x, x.user, s)
  {
    hide Ordered, Recorded, Placed, Kept, Installed, AllEntries;
    var v' := Installed(db.levels, p, outputs);
    forall y | y in EntriesAt(v', k) && y.user == x.user && y.sn <= s ensures y.sn <= x.sn {
      var f :| f in v'[k] && y in f.entries;
      InstalledFrom(db, p, outputs, k, f, y);
    }
  }

  /** The newest entry is an input: what is in front of the inputs cannot be seen. */
  lemma InFrontMisses(db: Db, p: Pending, outputs: seq<Table>, x: Entry, s: nat)
    requires Ready(db, p, outputs) && IsNewest(AllEntries(db), x, x.user, s) && x in InputEntries(p)
    ensures Misses(db.mem, x.user, s) && Misses(ImmEntries(db), x.user, s)
    ensures forall m, f :: 0 <= m < p.level && f in Installed(db.levels, p, outputs)[m] ==> Misses(f.entries, x.user, s)
  {
    hide Recorded, Placed, Kept, Installed, LevelsOk, AllEntries, Misses;
    var k, h := InputFile(db.levels, p, x);
    MemTablesMiss(db, x, s, k, h);
    forall m, f | 0 <= m < p.level && f in Installed(db.levels, p, outputs)[m] ensures Misses(f.entries, x.user, s) {
      AboveIsUntouched(db.levels, p, outputs, m, f);
      AboveMisses(db, x, s, k, h, m, f);
    }
  }

  lemma LeftIsThere(v: Levels, p: Pending, outputs: seq<Table>)
    requires p.level + 1 < NUM_LEVELS
    ensures EntriesAt(Installed(v, p, outputs), p.level) == LeftAt(v, p, p.level)
    ensures LeftAll(v, p) <= LevelEntries(v)
  {
    forall f ensures f in Installed(v, p, outputs)[p.level] <==> f in v[p.level] && !IsInput(p, p.level, f) {
      InstalledMembers(v, p, outputs, p.level, f);
    }
  }

  /** No output competes with a dropped entry for its readers. */
  lemma OutputsAreNewer(db: Db, p: Pending, outputs: seq<Table>, x: Entry, s: nat, y: Entry)
    requires Ready(db, p, outputs) && IsNewest(AllEntries(db), x, x.user, s) && x in InputEntries(p) && s >= p.snap
    requires x !in Flatten(outputs) && y in Flatten(outputs) && y.user == x.user
    ensures x.kind.Deletion? && y.sn > s
  {
    hide Ordered, Recorded, Placed, LevelEntries, Flatten;
    InputsAreEntries(db.levels, p);
    assert !Hidden(InputEntries(p), x, p.snap);
    assert y in AllEntries(db);
  }

  lemma DroppedIsMarker(db: Db, p: Pending, outputs: seq<Table>, x: Entry, s: nat)
    requires Ready(db, p, outputs) && IsNewest(AllEntries(db), x, x.user, s) && x in InputEntries(p) && s >= p.snap
    requires x !in Flatten(outputs)
    ensures Reading(x) == None
  {
    hide Ordered, Recorded, Placed, LevelEntries, Flatten;
    InputsAreEntries(db.levels, p);
    assert !Hidden(InputEntries(p), x, p.snap);
  }

  lemma FrontIsFound(db: Db, p: Pending, outputs: seq<Table>, x: Entry, s: nat, e: Entry)
    requires Ready(db, p, outputs) && IsNewest(AllEntries(db), x, x.user, s) && x in InputEntries(p)
    requires x in Flatten(outputs) && Instead(db.levels, p, outputs, x, e)
    ensures Found(Compacted(db, p, outputs), e, s)
  {
    hide Ordered, Recorded, Placed, Kept, Installed, Misses, FirstHit, Flatten, InputEntries;
    InFrontMisses(db, p, outputs, x, s);
    LeftIsThere(db.levels, p, outputs);
    assert LeftAt(db.levels, p, p.level) <= AllEntries(db) by { LeftIsOld(db, p); }
    NewestAtIsHit(Installed(db.levels, p, outputs), p.level, x.user, e, s);
  }

  lemma LeftIsOld(db: Db, p: Pending)
    requires p.level + 1 < NUM_LEVELS
    ensures LeftAt(db.levels, p, p.level) <= AllEntries(db) && LeftAll(db.levels, p) <= AllEntries(db)
  {
  }

  /** The entry dropped, a reader goes on to what is left anywhere. */
  lemma LeftIsFound(db: Db, p: Pending, outputs: seq<Table>, x: Entry, s: nat, e: Entry)
    requires Ready(db, p, outputs) && IsNewest(AllEntries(db), x, x.user, s) && x in InputEntries(p) && s >= p.snap
    requires x !in Flatten(outputs) && Instead(db.levels, p, outputs, x, e)
    ensures Found(Compacted(db, p, outputs), e, s)
  {
    hide Ordered, Recorded, Placed, Kept, Installed, Misses, FirstHit, Flatten, InputEntries, AllEntries;
    var v, v' := db.levels, Installed(db.levels, p, outputs);
    InFrontMisses(db, p, outputs, x, s);
    var k, h :| 0 <= k < NUM_LEVELS && h in v[k] && !IsInput(p, k, h) && e in h.entries;
    forall m, f, y | 0 <= m <= k && f in v'[m] && y in f.entries && y.user == x.user && y.sn <= s
      ensures m == k && y.sn <= e.sn
    {
      LeftStops(db, p, outputs, x, s, e, k, h, m, f, y);
    }
    assert forall m, f :: 0 <= m < k && f in v'[m] ==>
        Misses(f.entries, x.user, s) by { hide *; MissesIf(v', k, x.user, s); }
    InstalledMembers(v, p, outputs, k, h);
    assert e in EntriesAt(v', k);
    NewestAtIsHit(v', k, x.user, e, s);
  }

  lemma MissesIf(v: Levels, k: nat, u: UserKey, s: nat)
    requires k <= NUM_LEVELS && forall m, f, y :: 0 <= m < k && f in v[m] && y in f.entries && y.user == u ==> y.sn > s
    ensures forall m, f :: 0 <= m < k && f in v[m] ==> Misses(f.entries, u, s)
  {
  }

  lemma LeftStops(db: Db, p: Pending, outputs: seq<Table>, x: Entry, s: nat, e: Entry, k: nat, h: Table,
                  m: nat, f: Table, y: Entry)
    requires Ready(db, p, outputs) && IsNewest(AllEntries(db), x, x.user, s) && x in InputEntries(p) && s >= p.snap
    requires x !in Flatten(outputs) && Instead(db.levels, p, outputs, x, e)
    requires k < NUM_LEVELS && h in db.levels[k] && !IsInput(p, k, h) && e in h.entries
    requires m <= k && f in Installed(db.levels, p, outputs)[m] && y in f.entries && y.user == x.user && y.sn <= s
    ensures m == k && y.sn <= e.sn
  {
    hide Recorded, Placed, Kept, Installed, Flatten, InputEntries, AllEntries, LevelZeroOrdered, SortedLevels;
    InstalledFrom(db, p, outputs, m, f, y);
    if y in Flatten(outputs) {
      OutputsAreNewer(db, p, outputs, x, s, y);
    }
    assert f in db.levels[m] && !IsInput(p, m, f);
    assert y in LeftAll(db.levels, p);
    assert m < k ==> Newer(f.entries, h.entries);
  }

  /** Nothing in front of the outputs: the entry is found where it went. */
  lemma OutputIsFound(db: Db, p: Pending, outputs: seq<Table>, x: Entry, s: nat)
    requires Ready(db, p, outputs) && IsNewest(AllEntries(db), x, x.user, s) && x in InputEntries(p)
    requires x in Flatten(outputs) && forall e :: !Instead(db.levels, p, outputs, x, e)
    ensures Found(Compacted(db, p, outputs), x, s)
  {
    hide Ordered, Recorded, Placed, Kept, Installed, FirstHit, Flatten, InputEntries, AllEntries;
    var v, v' := db.levels, Installed(db.levels, p, outputs);
    InFrontMisses(db, p, outputs, x, s);
    forall f, y | f in v'[p.level] && y in f.entries && y.user == x.user ensures y.sn > s {
      NothingBeside(db, p, outputs, x, s, f, y);
    }
    OutputPlace(v, p, outputs, x);
    NewestThere(db, p, outputs, x, s, p.level + 1);
    NewestAtIsHit(v', p.level + 1, x.user, x, s);
  }

  lemma InsteadExists(v: Levels, p: Pending, outputs: seq<Table>, x: Entry, y: Entry)
    requires p.level + 1 < NUM_LEVELS && y in Beside(v, p, outputs, x) && y.user == x.user && y.sn <= x.sn
    ensures exists e :: Instead(v, p, outputs, x, e)
  {
    hide Beside;
    var e := NewestExists(Beside(v, p, outputs, x), y, x.sn);
    assert Instead(v, p, outputs, x, e);
  }

  lemma OutputPlace(v: Levels, p: Pending, outputs: seq<Table>, x: Entry)
    requires p.level + 1 < NUM_LEVELS && x in Flatten(outputs)
    ensures x in EntriesAt(Installed(v, p, outputs), p.level + 1)
  {
    FlattenMembers(outputs);
    var f :| f in outputs && x in f.entries;
    InstalledMembers(v, p, outputs, p.level + 1, f);
  }

  lemma NothingBeside(db: Db, p: Pending, outputs: seq<Table>, x: Entry, s: nat, f: Table, y: Entry)
    requires Ready(db, p, outputs) && IsNewest(AllEntries(db), x, x.user, s) && x in InputEntries(p)
    requires x in Flatten(outputs) && forall e :: !Instead(db.levels, p, outputs, x, e)
    requires f in Installed(db.levels, p, outputs)[p.level] && y in f.entries && y.user == x.user
    ensures y.sn > s
  {
    hide Ordered, Recorded, Placed, Kept, Installed, Flatten, InputEntries, AllEntries;
    LeftIsThere(db.levels, p, outputs);
    assert y in LeftAt(db.levels, p, p.level) && y in AllEntries(db) by { LeftIsOld(db, p); }
    if y.sn <= s {
      InsteadExists(db.levels, p, outputs, x, y);
    }
  }

  /** A marker dropped with nothing left: nothing is found. */
  lemma NothingIsFound(db: Db, p: Pending, outputs: seq<Table>, x: Entry, s: nat)
    requires Ready(db, p, outputs) && IsNewest(AllEntries(db), x, x.user, s) && x in InputEntries(p) && s >= p.snap
    requires x !in Flatten(outputs) && forall e :: !Instead(db.levels, p, outputs, x, e)
    ensures FindsNothing(Compacted(db, p, outputs), x.user, s)
  {
    hide Ordered, Recorded, Placed, Kept, Installed, Flatten, InputEntries, AllEntries;
    InFrontMisses(db, p, outputs, x, s);
    var v' := Installed(db.levels, p, outputs);
    forall m, f, y | 0 <= m < NUM_LEVELS && f in v'[m] && y in f.entries && y.user == x.user ensures y.sn > s {
      NothingLeft(db, p, outputs, x, s, m, f, y);
    }
  }

  lemma NothingLeft(db: Db, p: Pending, outputs: seq<Table>, x: Entry, s: nat, m: nat, f: Table, y: Entry)
    requires Ready(db, p, outputs) && IsNewest(AllEntries(db), x, x.user, s) && x in InputEntries(p) && s >= p.snap
    requires x !in Flatten(outputs) && forall e :: !Instead(db.levels, p, outputs, x, e)
    requires m < NUM_LEVELS && f in Installed(db.levels, p, outputs)[m] && y in f.entries && y.user == x.user
    ensures y.sn > s
  {
    hide Ordered, Recorded, Placed, Kept, Installed, Flatten, InputEntries, AllEntries;
    InstalledFrom(db, p, outputs, m, f, y);
    if y in Flatten(outputs) {
      OutputsAreNewer(db, p, outputs, x, s, y);
    } else if y.sn <= s {
      assert y in LeftAll(db.levels, p);
      InsteadExists(db.levels, p, outputs, x, y);
    }
  }

  lemma FoundOnce(db: Db, a: Entry, b: Entry, s: nat)
    requires UniqueSeqs(AllEntries(db)) && Found(db, a, s) && Found(db, b, s) && a.user == b.user
    ensures a == b
  {
    if FirstHit(db.levels, a, s) && FirstHit(db.levels, b, s) {
      var i: nat :| HitAt(db.levels, i, a, s);
      var j: nat :| HitAt(db.levels, j, b, s);
      assert i == j;
    }
  }

  lemma NotBoth(db: Db, e: Entry, s: nat)
    ensures !(Found(db, e, s) && FindsNothing(db, e.user, s))
  {
    hide Found, AllEntries, Misses;
    if Found(db, e, s) {
      FoundIsThere(db, e, s);
      assert FindsNothing(db, e.user, s) ==> e !in AllEntries(db) by { NoneThere(db, e, s); }
    }
  }

  lemma NoneThere(db: Db, e: Entry, s: nat)
    requires e.sn <= s
    ensures FindsNothing(db, e.user, s) ==> e !in AllEntries(db)
  {
  }

  lemma FoundIsThere(db: Db, e: Entry, s: nat)
    requires Found(db, e, s)
    ensures e in AllEntries(db) && e.sn <= s
  {
    if FirstHit(db.levels, e, s) {
      var i: nat :| HitAt(db.levels, i, e, s);
    }
  }

  // ----- all readers -----

  /** Whatever takes the place of an input entry that somebody can read shows the same. */
  ghost predicate SameInstead(db: Db, p: Pending, outputs: seq<Table>)
    requires p.level + 1 < NUM_LEVELS
  {
    forall x, e :: && x in InputEntries(p) && !Hidden(AllEntries(db), x, p.snap)
                   && Instead(db.levels, p, outputs, x, e) ==>
      Reading(e) == Reading(x)
  }

  lemma CompactedEntries(db: Db, p: Pending, outputs: seq<Table>)
    requires Ready(db, p, outputs)
    ensures AllEntries(Compacted(db, p, outputs)) <= AllEntries(db)
    ensures UniqueSeqs(AllEntries(db)) && UniqueSeqs(AllEntries(Compacted(db, p, outputs)))
  {
    hide Ordered, Placed, Kept, Installed;
    var v' := Installed(db.levels, p, outputs);
    forall e | e in LevelEntries(v') ensures e in AllEntries(db) {
      var l, f :| 0 <= l < NUM_LEVELS && f in v'[l] && e in f.entries;
      InstalledFrom(db, p, outputs, l, f, e);
    }
  }

  /** What a reader finds when there was something to be read. */
  lemma Finds(db: Db, p: Pending, outputs: seq<Table>, x: Entry, s: nat)
    requires p.level + 1 < NUM_LEVELS && Ready(db, p, outputs) && IsNewest(AllEntries(db), x, x.user, s) && s >= p.snap
    ensures x !in InputEntries(p) ==> Found(Compacted(db, p, outputs), x, s)
    ensures forall e :: x in InputEntries(p) && Instead(db.levels, p, outputs, x, e) ==>
              Found(Compacted(db, p, outputs), e, s)
    ensures x in InputEntries(p) && (forall e :: !Instead(db.levels, p, outputs, x, e)) ==>
              if x in Flatten(outputs) then Found(Compacted(db, p, outputs), x, s)
              else FindsNothing(Compacted(db, p, outputs), x.user, s) && Reading(x) == None
  {
    hide Ready, IsNewest, AllEntries, InputEntries, Flatten, Found, FindsNothing, Instead, Compacted;
    if x !in InputEntries(p) {
      OutsideIsFound(db, p, outputs, x, s);
    } else {
      forall e | Instead(db.levels, p, outputs, x, e) ensures Found(Compacted(db, p, outputs), e, s) {
        if x in Flatten(outputs) {
          FrontIsFound(db, p, outputs, x, s, e);
        } else {
          LeftIsFound(db, p, outputs, x, s, e);
        }
      }
      if forall e :: !Instead(db.levels, p, outputs, x, e) {
        if x in Flatten(outputs) {
          OutputIsFound(db, p, outputs, x, s);
        } else {
          NothingIsFound(db, p, outputs, x, s);
          DroppedIsMarker(db, p, outputs, x, s);
        }
      }
    }
  }

  lemma OnlyOneIsRead(db: Db, es: set<Entry>, x: Entry, e: Entry, s: nat)
    requires UniqueSeqs(AllEntries(db)) && Found(db, e, s) && e.user == x.user
    requires Visible(es, x.user, s) == Reading(x)
    ensures ReadsAs(db, es, x.user, s) <==> Reading(e) == Reading(x)
  {
    hide AllEntries, Found, Visible, UniqueSeqs, FindsNothing;
    NotBoth(db, e, s);
    forall a: Entry | a.user == x.user && Found(db, a, s) ensures a == e {
      FoundOnce(db, a, e, s);
    }
  }

  lemma NothingToRead(db: Db, es: set<Entry>, u: UserKey, s: nat)
    requires AllEntries(db) <= es && forall e :: !IsNewest(es, e, u, s)
    ensures ReadsAs(db, es, u, s)
  {
    hide AllEntries, Found;
    forall e: Entry | e.user == u ensures !Found(db, e, s) {
      if Found(db, e, s) {
        FoundIsThere(db, e, s);
        var x := NewestExists(es, e, s);
      }
    }
  }

  lemma ReadsRight(db: Db, p: Pending, outputs: seq<Table>, u: UserKey, s: nat)
    requires p.level + 1 < NUM_LEVELS && Ready(db, p, outputs) && SameInstead(db, p, outputs) && s >= p.snap
    ensures ReadsAs(Compacted(db, p, outputs), AllEntries(db), u, s)
  {
    hide Ready, AllEntries, InputEntries, Flatten, Found, Instead, Compacted, UniqueSeqs, Visible, ReadsAs;
    var db', all := Compacted(db, p, outputs), AllEntries(db);
    CompactedEntries(db, p, outputs);
    if x :| IsNewest(all, x, u, s) {
      Finds(db, p, outputs, x, s);
      VisibleIs(all, x, u, s);
      assert !Hidden(all, x, p.snap);
      if x !in InputEntries(p) {
        OnlyOneIsRead(db', all, x, x, s);
      } else if e :| Instead(db.levels, p, outputs, x, e) {
        InsteadIsOfKey(db.levels, p, outputs, x, e);
        OnlyOneIsRead(db', all, x, e, s);
      } else if x in Flatten(outputs) {
        OnlyOneIsRead(db', all, x, x, s);
      } else {
        NothingIsRead(db', all, x, s);
      }
    } else {
      NothingToRead(db', all, u, s);
    }
  }

  lemma InsteadIsOfKey(v: Levels, p: Pending, outputs: seq<Table>, x: Entry, e: Entry)
    requires p.level + 1 < NUM_LEVELS && Instead(v, p, outputs, x, e)
    ensures e.user == x.user
  {
  }

  lemma NothingIsRead(db: Db, es: set<Entry>, x: Entry, s: nat)
    requires FindsNothing(db, x.user, s) && Visible(es, x.user, s) == Reading(x) == None
    ensures ReadsAs(db, es, x.user, s)
  {
    hide Found, Visible, FindsNothing;
    forall e: Entry | e.user == x.user ensures !Found(db, e, s) {
      NotBoth(db, e, s);
    }
  }

  /** A reader who gets something else in place of an entry, where the entry is the newest. */
  lemma InsteadIsRead(db: Db, p: Pending, outputs: seq<Table>, x: Entry, e: Entry)
    requires p.level + 1 < NUM_LEVELS && Ready(db, p, outputs)
    requires x in InputEntries(p) && !Hidden(AllEntries(db), x, p.snap) && Instead(db.levels, p, outputs, x, e)
    requires forall u, s: nat :: s >= p.snap ==> ReadsAs(Compacted(db, p, outputs), AllEntries(db), u, s)
    ensures Reading(e) == Reading(x)
  {
    hide AllEntries, Flatten, Found, Instead, Compacted, UniqueSeqs, Visible, ReadsAs, Ordered, Recorded, Placed, Kept;
    var all, s := AllEntries(db), if x.sn < p.snap then p.snap else x.sn;
    assert x in all by { InputsInAll(db, p); }
    assert IsNewest(all, x, x.user, s);
    CompactedEntries(db, p, outputs);
    Finds(db, p, outputs, x, s);
    VisibleIs(all, x, x.user, s);
    InsteadIsOfKey(db.levels, p, outputs, x, e);
    OnlyOneIsRead(Compacted(db, p, outputs), all, x, e, s);
    assert ReadsAs(Compacted(db, p, outputs), all, x.user, s);
  }

  lemma InputsInAll(db: Db, p: Pending)
    requires Placed(db.levels, p)
    ensures InputEntries(p) <= AllEntries(db)
  {
    InputsAreEntries(db.levels, p);
  }

  /** Every reader at or above the smallest snapshot, with the memtables in front, gets the value that the entries
      showed before the install, if and only if whatever takes the place of a readable input entry shows the same. */
  lemma ValuesKeptIff(db: Db, p: Pending, outputs: seq<Table>)
    requires p.level + 1 < NUM_LEVELS && Ready(db, p, outputs)
    ensures (forall u, s: nat :: s >= p.snap ==> ReadsAs(Compacted(db, p, outputs), AllEntries(db), u, s)) <==>
            SameInstead(db, p, outputs)
  {
    hide Ready, AllEntries, InputEntries, Instead, Compacted, ReadsAs, Hidden;
    if SameInstead(db, p, outputs) {
      forall u, s: nat | s >= p.snap ensures ReadsAs(Compacted(db, p, outputs), AllEntries(db), u, s) {
        ReadsRight(db, p, outputs, u, s);
      }
    }
    if forall u, s: nat :: s >= p.snap ==> ReadsAs(Compacted(db, p, outputs), AllEntries(db), u, s) {
      forall x, e | x in InputEntries(p) && !Hidden(AllEntries(db), x, p.snap) && Instead(db.levels, p, outputs, x, e)
        ensures Reading(e) == Reading(x)
      {
        InsteadIsRead(db, p, outputs, x, e);
      }
    }
  }

  // ----- the inputs that the code chooses -----

  lemma ChosenIsReady(db: Db, p: Pending)
    requires Inv(db) && db.pending.None? && p == Started(db, p.level, p.in0, p.in1)
    requires InputsOk(db.levels, p.level, p.in0, p.in1)
    ensures Placed(db.levels, p) && UniqueSeqs(InputEntries(p)) && p.snap >= db.horizon
  {
    hide InputsOk, Faithful;
    LevelSeqsUnique(db);
    InputsAreEntries(db.levels, p);
  }

  lemma SameHistory(db: Db, db': Db, u: UserKey, s: nat)
    requires Faithful(db) && s >= db.horizon
    ensures ReadsAs(db', AllEntries(db), u, s) <==> ReadsAs(db', db.history, u, s)
  {
    hide AllEntries, Visible, Found, FindsNothing;
  }

  lemma ChosenReadsIff(db: Db, p: Pending, outputs: seq<Table>)
    requires Reachable(db) && db.pending.None? && p == Started(db, p.level, p.in0, p.in1)
    requires InputsOk(db.levels, p.level, p.in0, p.in1) && Kept(p, outputs)
    ensures (forall u, s: nat :: s >= Oldest(db) ==> ReadsAs(Compacted(db, p, outputs), db.history, u, s)) <==>
            SameInstead(db, p, outputs)
  {
    hide Reachable, Kept, Placed, AllEntries, ReadsAs, SameInstead, Faithful, Ordered, Recorded, NoGap, MeetsHull,
      LevelZeroClosed;
    ReachableInv(db);
    ChosenIsReady(db, p);
    ValuesKeptIff(db, p, outputs);
    forall u, s: nat | s >= p.snap
      ensures ReadsAs(Compacted(db, p, outputs), AllEntries(db), u, s) <==>
              ReadsAs(Compacted(db, p, outputs), db.history, u, s)
    {
      SameHistory(db, Compacted(db, p, outputs), u, s);
    }
  }

  /** A merge of any inputs that the code chooses in a reachable database: all readers still get what the write history
      says if and only if whatever takes the place of an entry that can be read shows the same. */
  lemma MergedReadsIff(db: Db, p: Pending, outputs: seq<Table>)
    requires Reachable(db) && db.pending.None? && p == Started(db, p.level, p.in0, p.in1)
    requires InputsOk(db.levels, p.level, p.in0, p.in1) && OutputsOk(p, outputs)
    ensures (forall u, s: nat :: s >= Oldest(db) ==> ReadsAs(Compacted(db, p, outputs), db.history, u, s)) <==>
            SameInstead(db, p, outputs)
  {
    hide Reachable, InputsOk, OutputsOk, ReadsAs, SameInstead, Inv, Kept;
    ReachableInv(db);
    ChosenIsReady(db, p);
    MergeIsKept(p, outputs);
    ChosenReadsIff(db, p, outputs);
  }

  /** The same for a trivial move of any file that the code moves. */
  lemma MovedReadsIff(db: Db, p: Pending, f: Table)
    requires Reachable(db) && db.pending.None? && p == Started(db, p.level, [f], [])
    requires InputsOk(db.levels, p.level, [f], [])
    ensures (forall u, s: nat :: s >= Oldest(db) ==> ReadsAs(Compacted(db, p, [f]), db.history, u, s)) <==>
            SameInstead(db, p, [f])
  {
    hide Reachable, InputsOk, ReadsAs, SameInstead, Kept;
    MoveIsKept(p, f);
    ChosenReadsIff(db, p, [f]);
  }
}
