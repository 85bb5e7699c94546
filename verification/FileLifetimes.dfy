/** How long files live, over whole runs of Durability: tables under construction, tables of a version that a reader
    holds, and what happens after a background error. */
module FileLifetimes {
  import opened Format
  import opened Durability
  import opened Committed

  // ----- pending outputs -----

  /** The files protected from collection by number are exactly those of the flush and of the compaction at work. */
  ghost predicate PendingExact(p: Process) {
    p.Running? ==>
      p.pendingOutputs == (if p.flush.Building? then {p.flush.number} else {})
                          + (if p.merge.NoMerge? then {} else p.merge.outputs)
  }

  lemma StepKeepsPending(s: Store, a: Action)
    requires Inv(s) && Enabled(s, a) && PendingExact(s.process)
    ensures PendingExact(Apply(s, a).process)
  {
    hide Numbered, ReferencedKept, LogsOk, NamedOk, Recoverable, Replay, TableEntries, RecoveringOk, Live, InVersions;
  }

  lemma {:induction false} RunKeepsPending(s: Store, actions: seq<Action>)
    requires Inv(s) && Run(s, actions).Some? && PendingExact(s.process)
    ensures PendingExact(Run(s, actions).value.process)
    decreases |actions|
  {
    hide Inv, Enabled, Apply, PendingExact;
    if actions != [] {
      StepKeepsPending(s, actions[0]);
      StepKeepsInv(s, actions[0]);
      RunKeepsPending(Apply(s, actions[0]), actions[1..]);
    }
  }

  /** No file number stays protected after its flush or compaction is over, whether it succeeded or failed. */
  lemma PendingIsExact(s: Store)
    requires Reachable(s)
    ensures PendingExact(s.process)
  {
    assert PendingExact(NewStore().process);
    NewStoreOk();
    hide Inv, NewStore, PendingExact;
    var actions :| Run(NewStore(), actions) == Some(s);
    RunKeepsPending(NewStore(), actions);
  }

  // ----- versions that readers hold -----

  /** Nothing crashes, and nobody gives up the last reference to version v. */
  ghost predicate Holds(s: Store, actions: seq<Action>, v: set<nat>)
    decreases |actions|
  {
    actions != [] ==>
      && !actions[0].Crash? && Enabled(s, actions[0])
      && (s.process.Running? && actions[0] == UnpinVersion(v) ==> s.process.pins[v] > 1)
      && Holds(Apply(s, actions[0]), actions[1..], v)
  }

  ghost predicate Readable(s: Store, v: set<nat>, tables: Tables) {
    && s.process.Running? && v in s.process.pins
    && forall f :: f in v ==> f in tables && f in s.disk.tables && s.disk.tables[f] == tables[f]
  }

  lemma StepKeepsReadable(s: Store, a: Action, v: set<nat>, tables: Tables)
    requires Inv(s) && Enabled(s, a) && Readable(s, v, tables) && !a.Crash?
    requires a == UnpinVersion(v) ==> s.process.pins[v] > 1
    ensures Readable(Apply(s, a), v, tables)
  {
    hide ReferencedKept, LogsOk, NamedOk, MergeOk, Recoverable, Replay, TableEntries, RecoveringOk;
  }

  lemma {:induction false} RunKeepsReadable(s: Store, actions: seq<Action>, v: set<nat>, tables: Tables)
    requires Inv(s) && Run(s, actions).Some? && Readable(s, v, tables) && Holds(s, actions, v)
    ensures Readable(Run(s, actions).value, v, tables)
    decreases |actions|
  {
    if actions != [] {
      assert s.process.Running?;
      hide Inv, Enabled, Apply, Readable;
      StepKeepsReadable(s, actions[0], v, tables);
      StepKeepsInv(s, actions[0]);
      RunKeepsReadable(Apply(s, actions[0]), actions[1..], v, tables);
    }
  }

  lemma PinReads(s: Store)
    requires Inv(s) && s.process.Running?
    ensures Enabled(s, PinVersion) && Readable(Apply(s, PinVersion), s.process.version, s.disk.tables)
  {
  }

  /** A reader that holds the version it found keeps all tables of that version as they were, whatever is flushed,
      merged and collected meanwhile. */
  lemma PinnedStays(s: Store, actions: seq<Action>)
    requires Reachable(s) && s.process.Running? && Run(s, [PinVersion] + actions).Some?
    requires Enabled(s, PinVersion) && Holds(Apply(s, PinVersion), actions, s.process.version)
    ensures var end, v := Run(s, [PinVersion] + actions).value, s.process.version;
            forall f :: f in v ==> f in s.disk.tables && f in end.disk.tables && end.disk.tables[f] == s.disk.tables[f]
  {
    hide Inv, Apply, Enabled, Holds, Reachable;
    assert ([PinVersion] + actions)[1..] == actions;
    ReachableInv(s);
    PinReads(s);
    StepKeepsInv(s, PinVersion);
    RunKeepsReadable(Apply(s, PinVersion), actions, s.process.version, s.disk.tables);
  }

  /** Giving back a version leaves no trace of having held it. */
  lemma UnpinUndoesPin(s: Store)
    requires s.process.Running?
    ensures Enabled(s, PinVersion) && Enabled(Apply(s, PinVersion), UnpinVersion(s.process.version))
            && Apply(Apply(s, PinVersion), UnpinVersion(s.process.version)) == s
  {
    var pins, v := s.process.pins, s.process.version;
    assert (pins + multiset{v}) - multiset{v} == pins;
  }

  // ----- collecting files -----

  predicate OnlyDeletes(actions: seq<Action>) {
    forall i :: 0 <= i < |actions| ==> actions[i].DeleteTable? || actions[i].DeleteLog? || actions[i].DeleteManifest?
  }

  /** The deletions that clear a disk of these tables, logs and manifests. */
  ghost predicate Clears(s: Store, end: Store, tables: set<nat>, logs: set<nat>, manifests: set<nat>) {
    && end.process == s.process
    && end.disk == Disk(s.disk.tables - tables, s.disk.logs - logs, s.disk.manifests - manifests, s.disk.current)
  }

  ghost predicate Garbage(s: Store, tables: set<nat>, logs: set<nat>, manifests: set<nat>) {
    && CanCollect(s.process)
    && (forall n :: n in tables ==> !Live(s.process, n)) && (forall n :: n in logs ==> n < s.process.logNumber)
    && (forall n :: n in manifests ==> n < s.disk.current)
  }

  lemma {:induction false} CollectTables(s: Store, tables: set<nat>) returns (actions: seq<Action>)
    requires Garbage(s, tables, {}, {})
    ensures Run(s, actions).Some? && Clears(s, Run(s, actions).value, tables, {}, {}) && OnlyDeletes(actions)
    decreases tables
  {
    actions := [];
    if n :| n in tables {
      var s' := Apply(s, DeleteTable(n));
      var rest := CollectTables(s', tables - {n});
      assert ([DeleteTable(n)] + rest)[1..] == rest;
      assert (s.disk.tables - {n}) - (tables - {n}) == s.disk.tables - tables;
      actions := [DeleteTable(n)] + rest;
    } else {
      assert s.disk.tables - tables == s.disk.tables;
    }
  }

  lemma {:induction false} CollectLogs(s: Store, logs: set<nat>) returns (actions: seq<Action>)
    requires Garbage(s, {}, logs, {})
    ensures Run(s, actions).Some? && Clears(s, Run(s, actions).value, {}, logs, {}) && OnlyDeletes(actions)
    decreases logs
  {
    actions := [];
    if n :| n in logs {
      var rest := CollectLogs(Apply(s, DeleteLog(n)), logs - {n});
      assert ([DeleteLog(n)] + rest)[1..] == rest;
      assert (s.disk.logs - {n}) - (logs - {n}) == s.disk.logs - logs;
      actions := [DeleteLog(n)] + rest;
    } else {
      assert s.disk.logs - logs == s.disk.logs;
    }
  }

  lemma {:induction false} CollectManifests(s: Store, manifests: set<nat>) returns (actions: seq<Action>)
    requires Garbage(s, {}, {}, manifests)
    ensures Run(s, actions).Some? && Clears(s, Run(s, actions).value, {}, {}, manifests) && OnlyDeletes(actions)
    decreases manifests
  {
    actions := [];
    if n :| n in manifests {
      var rest := CollectManifests(Apply(s, DeleteManifest(n)), manifests - {n});
      assert ([DeleteManifest(n)] + rest)[1..] == rest;
      assert (s.disk.manifests - {n}) - (manifests - {n}) == s.disk.manifests - manifests;
      actions := [DeleteManifest(n)] + rest;
    } else {
      assert s.disk.manifests - manifests == s.disk.manifests;
    }
  }

  lemma CollectAll(s: Store, tables: set<nat>, logs: set<nat>, manifests: set<nat>) returns (actions: seq<Action>)
    requires Garbage(s, tables, logs, manifests)
    ensures Run(s, actions).Some? && OnlyDeletes(actions)
    ensures Clears(s, Run(s, actions).value, tables, logs, manifests)
  {
    hide Live, Run;
    var a := CollectTables(s, tables);
    var s1 := Run(s, a).value;
    var b := CollectLogs(s1, logs);
    var s2 := Run(s1, b).value;
    var c := CollectManifests(s2, manifests);
    RunConcat(s, a, b);
    RunConcat(s, a + b, c);
    actions := (a + b) + c;
  }

  /** Collection can remove every file that nothing needs: afterwards the disk holds the tables of the versions in use
      and under construction, the logs of the memtables and no manifest before the current one; what is recoverable is
      as before. */
  lemma CollectionCompletes(s: Store) returns (actions: seq<Action>)
    requires Reachable(s) && CanCollect(s.process)
    ensures Run(s, actions).Some?
    ensures var end := Run(s, actions).value;
            && end.process == s.process && s.disk.current in s.disk.manifests && end.disk.current in end.disk.manifests
            && Recoverable(end.disk) == Recoverable(s.disk)
            && (forall n :: n in end.disk.tables <==> n in s.disk.tables && Live(s.process, n))
            && (forall n :: n in end.disk.tables ==> end.disk.tables[n] == s.disk.tables[n])
            && (forall n :: n in end.disk.logs <==> n in s.disk.logs && n >= s.process.logNumber)
            && (forall n :: n in end.disk.manifests <==> n in s.disk.manifests && n >= s.disk.current)
  {
    hide Live, Run, Reachable, Recoverable, Inv, OnlyDeletes;
    ReachableInv(s);
    var tables := set n | n in s.disk.tables && !Live(s.process, n);
    var logs := set n | n in s.disk.logs && n < s.process.logNumber;
    var manifests := set n | n in s.disk.manifests && n < s.disk.current;
    actions := CollectAll(s, tables, logs, manifests);
    DeletesRecover(s, actions);
  }

  lemma {:induction false} DeletesRecover(s: Store, actions: seq<Action>)
    requires Inv(s) && Run(s, actions).Some? && OnlyDeletes(actions)
    ensures var end := Run(s, actions).value;
            && s.disk.current in s.disk.manifests && end.disk.current in end.disk.manifests
            && Recoverable(end.disk) == Recoverable(s.disk)
    decreases |actions|
  {
    hide Enabled, Apply, Recoverable;
    if actions == [] {
      InvHasManifest(s);
    } else {
      hide Inv;
      StepIsRecovered(s, actions[0]);
      StepKeepsInv(s, actions[0]);
      DeletesRecover(Apply(s, actions[0]), actions[1..]);
    }
  }

  // ----- background errors -----

  ghost predicate NoCrash(actions: seq<Action>) {
    forall i :: 0 <= i < |actions| ==> !actions[i].Crash?
  }

  /** Anything may go wrong at any time; a compaction may fail until its edit is logged.  A failure leaves version,
      tables and logs alone. */
  lemma FailureCanCome(s: Store, a: Action)
    requires s.process.Running?
    requires a == BackgroundError || (a == AbandonMerge && s.process.merge.Merging? && s.process.flush.NoFlush?)
    ensures Enabled(s, a) && Apply(s, a).disk == s.disk
    ensures var p' := Apply(s, a).process;
            && p'.Running? && p'.bgError && p'.version == s.process.version && p'.mem == s.process.mem
            && p'.imm == s.process.imm && (a == AbandonMerge ==> p'.merge.NoMerge?)
  {
  }

  lemma {:induction false} RunAfterError(s: Store, actions: seq<Action>)
    requires s.process.Running? && s.process.bgError && Run(s, actions).Some? && NoCrash(actions)
    ensures Written(actions) == {}
    decreases |actions|
  {
    if actions != [] {
      assert !actions[0].Crash?;
      RunAfterError(Apply(s, actions[0]), actions[1..]);
    }
  }

  /** After a failed compaction or another background error no write is accepted until the database is opened again. */
  lemma ErrorStopsWrites(s: Store, a: Action, actions: seq<Action>)
    requires (a.AbandonMerge? || a.BackgroundError?) && Run(s, [a] + actions).Some? && NoCrash(actions)
    ensures Written(actions) == {}
  {
    assert ([a] + actions)[1..] == actions;
    RunAfterError(Apply(s, a), actions);
  }
}
