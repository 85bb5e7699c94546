/** Snapshot isolation over whole runs of a database: db/snapshot.h and DBImpl::GetSnapshot, ReleaseSnapshot. */
module Snapshots {
  import opened Format
  import opened Visibility
  import opened Version
  import opened Database

  /** Nobody releases the snapshot at place k, and nothing crashes; `k` follows the releases of older ones. */
  ghost predicate Holds(actions: seq<Action>, k: nat) {
    actions != [] ==>
      && !actions[0].Recover? && (actions[0].ReleaseSnapshot? ==> actions[0].index != k)
      && Holds(actions[1..], PlaceAfter(actions[0], k))
  }

  ghost function PlaceAfter(a: Action, k: nat): nat {
    if a.ReleaseSnapshot? && a.index < k then k - 1 else k
  }

  /** Taking a snapshot adds one at the latest sequence number and touches no other. */
  lemma TakesLatest(db: Db)
    ensures var db' := Apply(db, TakeSnapshot);
            && |db'.snapshots| == |db.snapshots| + 1 && db'.snapshots[|db.snapshots|] == db.lastSequence
            && (forall j :: 0 <= j < |db.snapshots| ==> db'.snapshots[j] == db.snapshots[j])
            && db' == db.(snapshots := db'.snapshots)
  {
  }

  /** Releasing a snapshot removes that one and no other. */
  lemma ReleasesOne(db: Db, i: nat)
    requires i < |db.snapshots|
    ensures var db' := Apply(db, ReleaseSnapshot(i));
            && |db'.snapshots| == |db.snapshots| - 1
            && multiset(db'.snapshots) == multiset(db.snapshots) - multiset{db.snapshots[i]}
            && (forall j :: 0 <= j < |db.snapshots| && j != i ==>
                  db'.snapshots[PlaceAfter(ReleaseSnapshot(i), j)] == db.snapshots[j])
            && db' == db.(snapshots := db'.snapshots)
  {
    RemovedOne(db.snapshots, i);
  }

  lemma RemovedOne(xs: seq<nat>, i: nat)
    requires i < |xs|
    ensures multiset(xs[..i] + xs[i + 1..]) == multiset(xs) - multiset{xs[i]}
  {
    assert xs == xs[..i] + [xs[i]] + xs[i + 1..];
  }

  /** No step but its own release or a crash moves a snapshot. */
  lemma StepKeepsSnapshot(db: Db, a: Action, k: nat)
    requires Inv(db) && Enabled(db, a) && k < |db.snapshots|
    requires !a.Recover? && (a.ReleaseSnapshot? ==> a.index != k)
    ensures var db', k' := Apply(db, a), PlaceAfter(a, k);
            k' < |db'.snapshots| && db'.snapshots[k'] == db.snapshots[k]
  {
    hide Inv;
    if a.ReleaseSnapshot? {
      ReleasesOne(db, a.index);
    } else if a.TakeSnapshot? {
      TakesLatest(db);
    }
  }

  lemma StepKeepsHistory(db: Db, a: Action, x: nat)
    requires Enabled(db, a) && x <= db.lastSequence
    ensures var db' := Apply(db, a); SameUpTo(db.history, db'.history, x) && x <= db'.lastSequence
  {
  }

  lemma {:induction false} RunKeepsSnapshot(db: Db, actions: seq<Action>, k: nat, x: nat)
    requires Inv(db) && Run(db, actions).Some? && k < |db.snapshots| && db.snapshots[k] == x && Holds(actions, k)
    requires x <= db.lastSequence
    ensures var end := Run(db, actions).value;
            x in end.snapshots && SameUpTo(db.history, end.history, x)
    decreases |actions|
  {
    hide Inv, Enabled, Apply;
    if actions != [] {
      var a := actions[0];
      StepKeepsInv(db, a);
      StepKeepsSnapshot(db, a, k);
      StepKeepsHistory(db, a, x);
      RunKeepsSnapshot(Apply(db, a), actions[1..], PlaceAfter(a, k), x);
    }
  }

  /** A snapshot that is taken, and then neither released nor lost in a crash, shows the state at which it was taken,
      whatever was written, flushed, compacted and released since: its sequence number is live, and every key reads
      there as it read when the snapshot was taken. */
  lemma SnapshotIsolation(db: Db, actions: seq<Action>)
    requires Reachable(db) && Run(db, [TakeSnapshot] + actions).Some? && Holds(actions, |db.snapshots|)
    ensures var end := Run(db, [TakeSnapshot] + actions).value;
            && Reachable(end) && LiveSequence(end, db.lastSequence)
            && forall u :: Visible(end.history, u, db.lastSequence) == Visible(db.history, u, db.lastSequence)
  {
    hide Enabled, Apply, Inv, Visible, UniqueSeqs;
    ReachableInv(db);
    var db1, end := Apply(db, TakeSnapshot), Run(db, [TakeSnapshot] + actions).value;
    assert ([TakeSnapshot] + actions)[1..] == actions;
    StepKeepsInv(db, TakeSnapshot);
    TakesLatest(db);
    StepKeepsHistory(db, TakeSnapshot, db.lastSequence);
    RunKeepsSnapshot(db1, actions, |db.snapshots|, db.lastSequence);
    RunIsReachable(db, [TakeSnapshot] + actions);
    assert UniqueSeqs(db.history) by { HistoryUnique(db); }
    forall u ensures Visible(end.history, u, db.lastSequence) == Visible(db.history, u, db.lastSequence) {
      SameReading(db.history, end.history, u, db.lastSequence);
    }
  }

  lemma HistoryUnique(db: Db)
    requires Inv(db)
    ensures UniqueSeqs(db.history)
  {
  }

  lemma {:induction false} RunIsReachable(db: Db, actions: seq<Action>)
    requires Reachable(db) && Run(db, actions).Some?
    ensures Reachable(Run(db, actions).value)
    decreases |actions|
  {
    hide Reachable, Enabled, Apply;
    if actions != [] {
      ReachableStep(db, actions[0]);
      RunIsReachable(Apply(db, actions[0]), actions[1..]);
    }
  }

  // ----- what was written -----

  /** The last write of u in a run: its value, or nothing if it was a deletion or if there was none. */
  ghost function LastWritten(actions: seq<Action>, u: UserKey): Option<Value> {
    if actions == [] then None
    else
      var a := actions[|actions| - 1];
      if a.Write? && a.user == u then (if a.kind.Put? then Some(a.value) else None)
      else LastWritten(actions[..|actions| - 1], u)
  }

  lemma {:induction false} RunSplits(db: Db, actions: seq<Action>)
    requires actions != [] && Run(db, actions).Some?
    ensures var init, a := actions[..|actions| - 1], actions[|actions| - 1];
            && Run(db, init).Some? && Enabled(Run(db, init).value, a)
            && Run(db, actions).value == Apply(Run(db, init).value, a)
    decreases |actions|
  {
    hide Enabled, Apply;
    if |actions| > 1 {
      RunSplits(Apply(db, actions[0]), actions[1..]);
      assert actions[1..][..|actions| - 2] == actions[..|actions| - 1][1..];
    }
  }

  lemma WriteRecords(db: Db, a: Action)
    requires a.Write? && Enabled(db, a)
    ensures var db', e := Apply(db, a), Entry(a.user, db.lastSequence + 1, a.kind, a.value);
            db'.history == db.history + {e} && db'.lastSequence == e.sn
  {
  }

  lemma WriteShows(db: Db, a: Action, u: UserKey)
    requires Recorded(db) && a.Write? && Enabled(db, a)
    ensures var db' := Apply(db, a);
            Visible(db'.history, u, db'.lastSequence)
            == if a.user != u then Visible(db.history, u, db.lastSequence)
               else if a.kind.Put? then Some(a.value) else None
  {
    hide Apply, Enabled, Visible;
    WriteRecords(db, a);
    VisibleAfterWrite(db.history, db.lastSequence, Entry(a.user, db.lastSequence + 1, a.kind, a.value), u);
  }

  /** The write history of a state is what its run wrote. */
  lemma {:induction false} HistoryIsWritten(actions: seq<Action>, u: UserKey)
    requires Run(Init(), actions).Some?
    ensures var db := Run(Init(), actions).value;
            Visible(db.history, u, db.lastSequence) == LastWritten(actions, u)
  {
    if actions != [] {
      hide Init, Visible, Enabled, Apply, Inv;
      var init, a := actions[..|actions| - 1], actions[|actions| - 1];
      RunSplits(Init(), actions);
      HistoryIsWritten(init, u);
      var db := Run(Init(), init).value;
      assert Reachable(db);
      ReachableInv(db);
      if a.Write? {
        assert Recorded(db) by { InvRecorded(db); }
        WriteShows(db, a, u);
      } else {
        OnlyWritesWrite(db, a);
      }
    }
  }

  lemma InvRecorded(db: Db)
    requires Inv(db)
    ensures Recorded(db)
  {
  }

  lemma OnlyWritesWrite(db: Db, a: Action)
    requires Enabled(db, a) && !a.Write?
    ensures Apply(db, a).history == db.history && Apply(db, a).lastSequence == db.lastSequence
  {
  }

  /** In every run from an empty database, Get returns what the last write of the key wrote. */
  method GetLastWritten(actions: seq<Action>, db: Db, u: UserKey) returns (value: Option<Value>)
    requires Run(Init(), actions) == Some(db)
    ensures value == LastWritten(actions, u)
  {
    hide Run, LiveSequence, Visible;
    assert Reachable(db);
    HistoryIsWritten(actions, u);
    assert LiveSequence(db, db.lastSequence) by { LatestIsLive(db); }
    value := Get(db, u, db.lastSequence);
  }

  lemma LatestIsLive(db: Db)
    ensures LiveSequence(db, db.lastSequence)
  {
  }

  /** And at a snapshot, however much later, what the last write before the snapshot was taken wrote. */
  method GetAtSnapshot(before: seq<Action>, ghost db: Db, actions: seq<Action>, end: Db, x: nat, u: UserKey)
      returns (value: Option<Value>)
    requires Run(Init(), before) == Some(db) && x == db.lastSequence
    requires Run(db, [TakeSnapshot] + actions) == Some(end) && Holds(actions, |db.snapshots|)
    ensures value == LastWritten(before, u)
  {
    hide Run, Holds, LiveSequence, Visible;
    assert Reachable(db);
    HistoryIsWritten(before, u);
    SnapshotIsolation(db, actions);
    value := Get(end, u, x);
  }
}
