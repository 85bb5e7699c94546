/** What the disk holds of what was written, over whole runs of Durability: the groups that DBImpl::Write appended to
    the log are recoverable at every moment, whatever was flushed, collected, crashed and recovered since. */
module Committed {
  import opened Format
  import opened Durability

  /** Every entry of every write group of the run. */
  ghost function Written(actions: seq<Action>): set<Entry> {
    if actions == [] then {}
    else (if actions[0].LogWrite? then actions[0].group else {}) + Written(actions[1..])
  }

  /** Every entry that the run put into an output of a merge. */
  ghost function Built(actions: seq<Action>): set<Entry> {
    if actions == [] then {}
    else (if actions[0].BuildOutput? then actions[0].contents else {}) + Built(actions[1..])
  }

  /** Every entry of a table that a merge of the run replaced. */
  ghost function MergedAway(s: Store, actions: seq<Action>): set<Entry>
    requires Run(s, actions).Some?
    decreases |actions|
  {
    if actions == [] then {}
    else
      (if actions[0].LogMerge? then TableEntries(s.disk.tables, s.process.merge.inputs) else {})
      + MergedAway(Apply(s, actions[0]), actions[1..])
  }

  /** What one step does to what is recoverable. */
  ghost predicate StepRecovers(s: Store, a: Action)
    requires Enabled(s, a)
  {
    var s' := Apply(s, a);
    && s.disk.current in s.disk.manifests && s'.disk.current in s'.disk.manifests
    && (a.LogWrite? ==> Recoverable(s'.disk) == Recoverable(s.disk) + a.group)
    && (a.LogMerge? ==>
          var kept := TableEntries(s.disk.tables, s.process.version - s.process.merge.inputs)
                      + LogEntries(s.disk.logs, s.process.logNumber);
          && Recoverable(s.disk) == kept + TableEntries(s.disk.tables, s.process.merge.inputs)
          && Recoverable(s'.disk) == kept + TableEntries(s.disk.tables, s.process.merge.outputs))
    && (!a.LogWrite? && !a.LogMerge? ==> Recoverable(s'.disk) == Recoverable(s.disk))
  }

  /** Of a running database: where its recoverable entries are. */
  lemma RunningRecoverable(d: Disk, p: Process)
    requires p.Running? && RunningOk(d, p)
    ensures d.current in d.manifests && CurrentNamed(d).files == TargetFiles(p)
            && CurrentNamed(d).logNumber == TargetLog(p)
    ensures Recoverable(d) == TableEntries(d.tables, TargetFiles(p)) + LogEntries(d.logs, TargetLog(p))
    ensures Recoverable(d) == p.mem + ImmSet(p) + TableEntries(d.tables, TargetFiles(p)) + p.inFlight
  {
    hide TableEntries, RecordEntries, LogEntries, Replay, Numbered, ReferencedKept, MergeOk;
    LogEntriesTail(d.logs, p.memLog);
    if p.flush.Logged? {
      TableEntriesUnion(d.tables, p.version, p.flush.files);
    }
  }

  lemma LogWriteRecovers(s: Store, a: Action)
    requires Inv(s) && a.LogWrite? && Enabled(s, a)
    ensures StepRecovers(s, a)
  {
    hide TableEntries, RecordEntries, LogEntries, Replay, RunningOk, RecoveringOk;
    LogWriteKeeps(s, a);
    RunningRecoverable(s.disk, s.process);
    var s' := Apply(s, a);
    RunningRecoverable(s'.disk, s'.process);
    assert TableEntries(s'.disk.tables, TargetFiles(s'.process)) == TableEntries(s.disk.tables, TargetFiles(s.process));
  }

  lemma LogMergeRecovers(s: Store, a: Action)
    requires Inv(s) && a.LogMerge? && Enabled(s, a)
    ensures StepRecovers(s, a)
  {
    hide TableEntries, RecordEntries, LogEntries, Replay, RunningOk, RecoveringOk;
    LogMergeKeeps(s, a);
    MergeInputsInVersion(s);
    var p, s' := s.process, Apply(s, a);
    RunningRecoverable(s.disk, p);
    RunningRecoverable(s'.disk, s'.process);
    TableEntriesUnion(s.disk.tables, p.version - p.merge.inputs, p.merge.inputs);
    assert (p.version - p.merge.inputs) + p.merge.inputs == p.version;
    TableEntriesUnion(s.disk.tables, p.version - p.merge.inputs, p.merge.outputs);
  }

  lemma MergeInputsInVersion(s: Store)
    requires Inv(s) && s.process.Running? && !s.process.merge.NoMerge?
    ensures s.process.merge.inputs <= s.process.version
  {
  }

  /** Steps that leave memtables, version and tables as they are, or move entries between them. */
  lemma MemoryStepRecovers(s: Store, a: Action)
    requires Inv(s) && Enabled(s, a)
    requires a.MemInsert? || a.SwitchMemTable? || a.StartFlush? || a.StartMerge? || a.AbandonMerge? || a.InstallMerge?
             || a.PinVersion? || a.UnpinVersion? || a.BackgroundError? || a.MoveFile?
    ensures StepRecovers(s, a)
  {
    hide TableEntries, RecordEntries, LogEntries, Replay, RunningOk, RecoveringOk;
    StepKeepsInv(s, a);
    RunningRecoverable(s.disk, s.process);
    RunningRecoverable(Apply(s, a).disk, Apply(s, a).process);
  }

  lemma FlushStepRecovers(s: Store, a: Action)
    requires Inv(s) && Enabled(s, a) && (a.BuildFlush? || a.LogFlush? || a.InstallFlush? || a.BuildOutput?)
    ensures StepRecovers(s, a)
  {
    hide TableEntries, RecordEntries, LogEntries, Replay, Recoverable;
    StepKeepsInv(s, a);
    var p, s' := s.process, Apply(s, a);
    RunningRecoverable(s.disk, p);
    RunningRecoverable(s'.disk, s'.process);
    TableEntriesFrame(s.disk.tables, s'.disk.tables, TargetFiles(p));
    if a.LogFlush? {
      TableEntriesUnion(s.disk.tables, p.version, p.flush.files);
    }
  }

  lemma DeleteRecovers(s: Store, a: Action)
    requires Inv(s) && Enabled(s, a) && (a.DeleteTable? || a.DeleteLog? || a.DeleteManifest?)
    ensures StepRecovers(s, a)
  {
    hide TableEntries, RecordEntries, LogEntries, Replay, Recoverable;
    DeleteKeeps(s, a);
    var p, s' := s.process, Apply(s, a);
    RunningRecoverable(s.disk, p);
    RunningRecoverable(s'.disk, s'.process);
    TableEntriesFrame(s.disk.tables, s'.disk.tables, TargetFiles(p));
  }

  lemma RecoveryStepRecovers(s: Store, a: Action)
    requires Inv(s) && Enabled(s, a)
    requires a.Crash? || a.RecoverChunk? || a.FinishLog? || a.CreateLog? || a.ReuseLog? || a.WriteManifest?
    ensures StepRecovers(s, a)
  {
    hide TableEntries, RecordEntries, LogEntries, Replay, Recoverable, RunningOk;
    InvNamed(s);
    StepKeepsInv(s, a);
    InvNamed(Apply(s, a));
  }

  lemma OpenRecovers(s: Store, a: Action)
    requires Inv(s) && Enabled(s, a) && (a.SwitchCurrent? || a.AppendManifest? || a.KeepManifest?)
    ensures StepRecovers(s, a)
  {
    hide TableEntries, RecordEntries, LogEntries, Replay, Recoverable, RunningOk;
    InvNamed(s);
    StepKeepsInv(s, a);
    InvNamed(Apply(s, a));
    var p, s' := s.process, Apply(s, a);
    RunningRecoverable(s'.disk, s'.process);
    NothingToDo(s.disk.logs);
  }

  lemma StepIsRecovered(s: Store, a: Action)
    requires Inv(s) && Enabled(s, a)
    ensures StepRecovers(s, a)
  {
    hide Inv, Enabled, StepRecovers;
    match a
    case LogWrite(_) => LogWriteRecovers(s, a);
    case LogMerge => LogMergeRecovers(s, a);
    case MemInsert => MemoryStepRecovers(s, a);
    case SwitchMemTable => MemoryStepRecovers(s, a);
    case StartFlush => MemoryStepRecovers(s, a);
    case BuildFlush => FlushStepRecovers(s, a);
    case LogFlush => FlushStepRecovers(s, a);
    case InstallFlush => FlushStepRecovers(s, a);
    case StartMerge(_) => MemoryStepRecovers(s, a);
    case BuildOutput(_) => FlushStepRecovers(s, a);
    case InstallMerge => MemoryStepRecovers(s, a);
    case AbandonMerge => MemoryStepRecovers(s, a);
    case MoveFile(_) => MemoryStepRecovers(s, a);
    case PinVersion => MemoryStepRecovers(s, a);
    case UnpinVersion(_) => MemoryStepRecovers(s, a);
    case DeleteTable(_) => DeleteRecovers(s, a);
    case DeleteLog(_) => DeleteRecovers(s, a);
    case DeleteManifest(_) => DeleteRecovers(s, a);
    case BackgroundError => MemoryStepRecovers(s, a);
    case Crash(_) => RecoveryStepRecovers(s, a);
    case RecoverChunk(_) => RecoveryStepRecovers(s, a);
    case FinishLog => RecoveryStepRecovers(s, a);
    case CreateLog => RecoveryStepRecovers(s, a);
    case WriteManifest => RecoveryStepRecovers(s, a);
    case ReuseLog => RecoveryStepRecovers(s, a);
    case SwitchCurrent => OpenRecovers(s, a);
    case AppendManifest => OpenRecovers(s, a);
    case KeepManifest => OpenRecovers(s, a);
  }

  // ----- whole runs -----

  /** The outputs of a merge at work hold entries of X only. */
  ghost predicate OutputsFrom(s: Store, X: set<Entry>) {
    s.process.Running? && !s.process.merge.NoMerge? ==> TableEntries(s.disk.tables, s.process.merge.outputs) <= X
  }

  lemma StepOutputs(s: Store, a: Action, X: set<Entry>)
    requires Inv(s) && Enabled(s, a) && OutputsFrom(s, X)
    ensures OutputsFrom(Apply(s, a), X + if a.BuildOutput? then a.contents else {})
  {
    hide RecordEntries, LogEntries, Replay, RecoveringOk, LogsOk, NamedOk;
  }

  /** From any state on: nothing written is lost unless a merge replaced the table it was in, and everything recoverable
      was so before, or was written, or is in an output of a merge. */
  lemma {:induction false} RunRecovers(s: Store, actions: seq<Action>, X: set<Entry>)
    requires Inv(s) && Run(s, actions).Some? && OutputsFrom(s, X)
    ensures s.disk.current in s.disk.manifests
    ensures var end := Run(s, actions).value;
            && end.disk.current in end.disk.manifests
            && Recoverable(s.disk) + Written(actions) <= Recoverable(end.disk) + MergedAway(s, actions)
            && Recoverable(end.disk) <= Recoverable(s.disk) + Written(actions) + X + Built(actions)
    decreases |actions|
  {
    hide Inv, Enabled, Apply, Recoverable, OutputsFrom, TableEntries, LogEntries;
    InvNamed(s);
    if actions != [] {
      var a := actions[0];
      StepKeepsInv(s, a);
      StepIsRecovered(s, a);
      StepOutputs(s, a, X);
      RunRecovers(Apply(s, a), actions[1..], X + if a.BuildOutput? then a.contents else {});
      if a.LogMerge? {
        MergeRuns(s, a, X);
      }
    }
  }

  lemma MergeRuns(s: Store, a: Action, X: set<Entry>)
    requires Enabled(s, a) && a.LogMerge? && OutputsFrom(s, X)
    ensures TableEntries(s.disk.tables, s.process.merge.outputs) <= X
  {
  }

  ghost predicate NoMerge(actions: seq<Action>) {
    forall i :: 0 <= i < |actions| ==> !actions[i].LogMerge?
  }

  lemma {:induction false} RunWithoutMerges(s: Store, actions: seq<Action>)
    requires Inv(s) && Run(s, actions).Some? && NoMerge(actions)
    ensures s.disk.current in s.disk.manifests
    ensures var end := Run(s, actions).value;
            end.disk.current in end.disk.manifests && Recoverable(end.disk) == Recoverable(s.disk) + Written(actions)
    decreases |actions|
  {
    hide Inv, Enabled, Apply, Recoverable, TableEntries, LogEntries;
    InvNamed(s);
    if actions != [] {
      StepKeepsInv(s, actions[0]);
      StepIsRecovered(s, actions[0]);
      RunWithoutMerges(Apply(s, actions[0]), actions[1..]);
    }
  }

  /** Every merge of the run has in its outputs what was in its inputs, but for `dropped`, and nothing else. */
  ghost predicate MergesKeep(s: Store, actions: seq<Action>, dropped: set<Entry>)
    requires Run(s, actions).Some?
    decreases |actions|
  {
    actions != [] ==>
      && MergesKeep(Apply(s, actions[0]), actions[1..], dropped)
      && (actions[0].LogMerge? ==>
            var inputs, outputs := TableEntries(s.disk.tables, s.process.merge.inputs),
                TableEntries(s.disk.tables, s.process.merge.outputs);
            inputs - dropped <= outputs <= inputs)
  }

  lemma {:induction false} RunWithKeepingMerges(s: Store, actions: seq<Action>, dropped: set<Entry>)
    requires Inv(s) && Run(s, actions).Some? && MergesKeep(s, actions, dropped)
    ensures s.disk.current in s.disk.manifests
    ensures var end := Run(s, actions).value;
            && end.disk.current in end.disk.manifests
            && Recoverable(s.disk) + Written(actions) - dropped <= Recoverable(end.disk)
            && Recoverable(end.disk) <= Recoverable(s.disk) + Written(actions)
    decreases |actions|
  {
    hide Inv, Enabled, Apply, Recoverable, TableEntries, LogEntries;
    InvNamed(s);
    if actions != [] {
      StepKeepsInv(s, actions[0]);
      StepIsRecovered(s, actions[0]);
      RunWithKeepingMerges(Apply(s, actions[0]), actions[1..], dropped);
    }
  }

  lemma NothingAtFirst()
    ensures Inv(NewStore()) && OutputsFrom(NewStore(), {})
    ensures NewStore().disk.current in NewStore().disk.manifests && Recoverable(NewStore().disk) == {}
  {
    NewStoreOk();
  }

  /** From a new database on, at every moment of every run, crashes and recoveries included: every entry of every group
      that was logged is recoverable, unless a merge replaced a table that held it; and everything recoverable was
      logged, or is in an output of a merge. Without merges, what is recoverable is exactly what was logged; with merges
      that drop nothing but entries of `dropped`, it is what was logged, but for entries of `dropped`. */
  lemma CommittedIsRecoverable(actions: seq<Action>, s: Store, dropped: set<Entry>)
    requires Run(NewStore(), actions) == Some(s)
    ensures s.disk.current in s.disk.manifests
    ensures Written(actions) <= Recoverable(s.disk) + MergedAway(NewStore(), actions)
    ensures Recoverable(s.disk) <= Written(actions) + Built(actions)
    ensures NoMerge(actions) ==> Recoverable(s.disk) == Written(actions)
    ensures MergesKeep(NewStore(), actions, dropped) ==>
              Written(actions) - dropped <= Recoverable(s.disk) <= Written(actions)
  {
    NothingAtFirst();
    hide Inv, NewStore, Recoverable, OutputsFrom, MergesKeep, NoMerge, MergedAway, Run;
    RunRecovers(NewStore(), actions, {});
    if NoMerge(actions) {
      RunWithoutMerges(NewStore(), actions);
    }
    if MergesKeep(NewStore(), actions, dropped) {
      RunWithKeepingMerges(NewStore(), actions, dropped);
    }
  }

  // ----- what a flush, a merge and a recovery achieve -----

  lemma Four(s: Store, a: Action, b: Action, c: Action, d: Action)
    requires Enabled(s, a) && Enabled(Apply(s, a), b) && Enabled(Apply(Apply(s, a), b), c)
    requires Enabled(Apply(Apply(Apply(s, a), b), c), d)
    ensures Run(s, [a, b, c, d]) == Some(Apply(Apply(Apply(Apply(s, a), b), c), d))
  {
    hide Enabled, Apply, Run;
    var s1, s2, s3 := Apply(s, a), Apply(Apply(s, a), b), Apply(Apply(Apply(s, a), b), c);
    RunNothing(Apply(s3, d));
    RunThen(s3, d, []);
    RunThen(s2, c, [d] + []);
    RunThen(s1, b, [c] + ([d] + []));
    RunThen(s, a, [b] + ([c] + ([d] + [])));
    assert [a, b, c, d] == [a] + ([b] + ([c] + ([d] + [])));
  }

  lemma RunNothing(s: Store)
    ensures Run(s, []) == Some(s)
  {
  }

  /** A write that nothing interrupts is in the memtable, and the next one may start. */
  lemma WriteCompletes(s: Store, group: set<Entry>) returns (end: Store)
    requires Inv(s) && s.process.Running? && s.process.inFlight == {} && !s.process.bgError
    ensures Run(s, [LogWrite(group), MemInsert]) == Some(end)
    ensures end.process == s.process.(mem := s.process.mem + group)
  {
    var s1 := Apply(s, LogWrite(group));
    end := Apply(s1, MemInsert);
    RunTwo(s, LogWrite(group), MemInsert);
  }

  /** A full memtable becomes the immutable one, and a new one starts with a new, empty log. */
  lemma SwitchCompletes(s: Store) returns (end: Store)
    requires Inv(s) && s.process.Running? && !s.process.bgError && s.process.inFlight == {} && s.process.imm.None?
    ensures Run(s, [SwitchMemTable]) == Some(end) && end.process.Running?
    ensures end.process.mem == {} && end.process.imm == Some(s.process.mem) && end.process.version == s.process.version
    ensures end.process.memLog !in s.disk.logs && end.disk == s.disk.(logs := s.disk.logs[end.process.memLog := []])
  {
    hide Numbered, ReferencedKept, FlushOk, MergeOk, NamedOk, RecordEntries, LogEntries, RecoveringOk;
    end := Apply(s, SwitchMemTable);
    assert end.process.memLog !in s.disk.logs;
    hide Inv, Enabled, Apply, Run;
    RunNothing(end);
    RunThen(s, SwitchMemTable, []);
    assert [SwitchMemTable] == [SwitchMemTable] + [];
  }

  lemma FlushIsBuilt(s: Store) returns (s1: Store, s2: Store)
    requires Inv(s) && s.process.Running? && Enabled(s, StartFlush)
    ensures s1 == Apply(s, StartFlush) && Enabled(s1, BuildFlush) && s2 == Apply(s1, BuildFlush) && Inv(s2)
    ensures var p, p' := s.process, s2.process;
            && p'.Running? && p'.flush.Built? && !p'.bgError && p'.merge == p.merge && p'.memLog == p.memLog
            && p'.mem == p.mem && p'.imm == p.imm && p'.version == p.version
            && TableEntries(s2.disk.tables, p.version) == TableEntries(s.disk.tables, p.version)
            && TableEntries(s2.disk.tables, p'.flush.files) == p.imm.value
  {
    hide TableEntries, RecordEntries, LogEntries, Replay, RunningOk, RecoveringOk;
    s1 := Apply(s, StartFlush);
    StepKeepsInv(s, StartFlush);
    s2 := Apply(s1, BuildFlush);
    StepKeepsInv(s1, BuildFlush);
    FlushedTable(s, s2);
  }

  lemma FlushIsInstalled(s: Store) returns (s1: Store, s2: Store)
    requires Inv(s) && s.process.Running? && s.process.flush.Built? && !s.process.bgError
    ensures Enabled(s, LogFlush) && s1 == Apply(s, LogFlush) && Enabled(s1, InstallFlush)
    ensures s2 == Apply(s1, InstallFlush) && s2.disk.tables == s.disk.tables
    ensures var p, p' := s.process, s2.process;
            && p'.Running? && p'.flush.NoFlush? && !p'.bgError && p'.merge == p.merge && p'.logNumber == p.memLog
            && p'.mem == p.mem && p'.imm.None? && p'.version == p.version + p.flush.files
  {
    hide RunningOk, RecoveringOk;
    InvNamed(s);
    s1 := Apply(s, LogFlush);
    s2 := Apply(s1, InstallFlush);
  }

  /** A flush that nothing interrupts: the immutable memtable is in a table, and older logs may go. */
  lemma FlushCompletes(s: Store) returns (end: Store)
    requires Inv(s) && s.process.Running? && !s.process.bgError && s.process.imm.Some?
    requires s.process.flush.NoFlush? && !s.process.merge.MergeLogged?
    ensures Run(s, [StartFlush, BuildFlush, LogFlush, InstallFlush]) == Some(end)
    ensures end.process.Running? && end.process.imm.None? && end.process.mem == s.process.mem
    ensures TableEntries(end.disk.tables, end.process.version) ==
            TableEntries(s.disk.tables, s.process.version) + s.process.imm.value
    ensures forall n: nat :: n < s.process.memLog ==> Enabled(end, DeleteLog(n))
  {
    hide TableEntries, Inv, Apply, Run;
    var s1, s2 := FlushIsBuilt(s);
    var s3;
    s3, end := FlushIsInstalled(s2);
    Four(s, StartFlush, BuildFlush, LogFlush, InstallFlush);
    TableEntriesUnion(s2.disk.tables, s.process.version, s2.process.flush.files);
  }

  lemma FlushedTable(s: Store, s2: Store)
    requires Inv(s) && s.process.Running? && Enabled(s, StartFlush) && Enabled(Apply(s, StartFlush), BuildFlush)
    requires s2 == Apply(Apply(s, StartFlush), BuildFlush) && Inv(s2)
    ensures TableEntries(s2.disk.tables, s.process.version) == TableEntries(s.disk.tables, s.process.version)
    ensures TableEntries(s2.disk.tables, s2.process.flush.files) == s.process.imm.value
  {
    hide TableEntries, RecordEntries, LogEntries, Replay, NamedOk, LogsOk;
    TableEntriesFrame(s.disk.tables, s2.disk.tables, s.process.version);
  }

  lemma MergeIsBuilt(s: Store, inputs: set<nat>, contents: set<Entry>) returns (s1: Store, s2: Store)
    requires Inv(s) && s.process.Running? && Enabled(s, StartMerge(inputs))
    ensures s1 == Apply(s, StartMerge(inputs)) && Enabled(s1, BuildOutput(contents))
    ensures s2 == Apply(s1, BuildOutput(contents)) && Inv(s2)
    ensures var p, p', n := s.process, s2.process, s.process.nextFile;
            && p'.Running? && p'.merge == Merging(p.version, inputs, {n}) && !p'.bgError && p'.flush.NoFlush?
            && p'.mem == p.mem && p'.imm == p.imm && p'.version == p.version && p'.pins == p.pins
            && p'.pendingOutputs == p.pendingOutputs + {n} && s2.disk.tables == s.disk.tables[n := contents]
  {
    hide TableEntries, RecordEntries, LogEntries, Replay, RunningOk, RecoveringOk;
    s1 := Apply(s, StartMerge(inputs));
    StepKeepsInv(s, StartMerge(inputs));
    s2 := Apply(s1, BuildOutput(contents));
    StepKeepsInv(s1, BuildOutput(contents));
  }

  lemma MergeIsInstalled(s: Store) returns (s1: Store, s2: Store)
    requires Inv(s) && s.process.Running? && s.process.merge.Merging? && !s.process.bgError && s.process.flush.NoFlush?
    ensures Enabled(s, LogMerge) && s1 == Apply(s, LogMerge) && Enabled(s1, InstallMerge)
    ensures s2 == Apply(s1, InstallMerge) && s2.disk.tables == s.disk.tables
    ensures var p, p' := s.process, s2.process;
            && p'.Running? && p'.merge.NoMerge? && !p'.bgError && p'.flush.NoFlush?
            && p'.mem == p.mem && p'.imm == p.imm && p'.pins == p.pins
            && p'.version == (p.version - p.merge.inputs) + p.merge.outputs
            && p'.pendingOutputs == p.pendingOutputs - p.merge.outputs
  {
    hide RunningOk, RecoveringOk;
    InvNamed(s);
    s1 := Apply(s, LogMerge);
    s2 := Apply(s1, InstallMerge);
  }

  ghost predicate Unheld(p: Process, n: nat)
    requires p.Running?
  {
    n !in p.pendingOutputs && forall v :: v in p.pins ==> n !in v
  }

  /** A merge with one output that nothing interrupts: the version has the output in place of the inputs, and the inputs
      may go unless a reader holds them. */
  lemma MergeCompletes(s: Store, inputs: set<nat>, contents: set<Entry>) returns (end: Store)
    requires Inv(s) && s.process.Running? && !s.process.bgError && s.process.flush.NoFlush? && s.process.merge.NoMerge?
    requires inputs <= s.process.version
    ensures Run(s, [StartMerge(inputs), BuildOutput(contents), LogMerge, InstallMerge]) == Some(end)
    ensures end.process.Running? && end.process.mem == s.process.mem && end.process.imm == s.process.imm
    ensures TableEntries(end.disk.tables, end.process.version) ==
            TableEntries(s.disk.tables, s.process.version - inputs) + contents
    ensures forall n :: n in inputs && Unheld(s.process, n) ==> Enabled(end, DeleteTable(n))
  {
    hide TableEntries, Inv, Apply, Run;
    var p, n := s.process, s.process.nextFile;
    VersionIsNumbered(s);
    var s1, s2 := MergeIsBuilt(s, inputs, contents);
    var s3;
    s3, end := MergeIsInstalled(s2);
    Four(s, StartMerge(inputs), BuildOutput(contents), LogMerge, InstallMerge);
    OneTable(s.disk.tables, n, contents);
    TableEntriesFrame(s.disk.tables, end.disk.tables, p.version - inputs);
    TableEntriesUnion(end.disk.tables, p.version - inputs, {n});
  }

  lemma VersionIsNumbered(s: Store)
    requires Inv(s) && s.process.Running?
    ensures s.process.nextFile !in s.process.version
  {
  }

  lemma {:induction false} RunConcat(s: Store, a: seq<Action>, b: seq<Action>)
    requires Run(s, a).Some? && Run(Run(s, a).value, b).Some?
    ensures Run(s, a + b) == Run(Run(s, a).value, b)
    decreases |a|
  {
    hide Enabled, Apply;
    if a == [] {
      assert a + b == b;
    } else {
      assert (a + b)[1..] == a[1..] + b;
      RunConcat(Apply(s, a[0]), a[1..], b);
    }
  }

  lemma RunThen(s: Store, a: Action, b: seq<Action>)
    requires Enabled(s, a) && Run(Apply(s, a), b).Some?
    ensures Run(s, [a] + b) == Run(Apply(s, a), b)
  {
    hide Enabled, Apply;
    assert ([a] + b)[1..] == b;
  }

  ghost predicate JustOpened(p: Process) {
    p.Running? && p.imm.None? && p.inFlight == {} && p.flush.NoFlush? && p.merge.NoMerge? && !p.bgError
  }

  /** A run without writes or merges, which changes nothing that is recoverable, and ends with an open database. */
  ghost predicate Opens(s: Store, actions: seq<Action>) {
    && Run(s, actions).Some? && JustOpened(Run(s, actions).value.process)
    && (forall i :: 0 <= i < |actions| ==> !actions[i].LogWrite? && !actions[i].LogMerge? && !actions[i].Crash?)
  }

  lemma OpensFirst(s: Store, a: Action, b: seq<Action>)
    requires Enabled(s, a) && Opens(Apply(s, a), b) && !a.LogWrite? && !a.LogMerge? && !a.Crash?
    ensures Opens(s, [a] + b)
  {
    hide Enabled, Apply, Run;
    RunThen(s, a, b);
  }

  lemma RunTwo(s: Store, a: Action, b: Action)
    requires Enabled(s, a) && Enabled(Apply(s, a), b)
    ensures Run(s, [a, b]) == Some(Apply(Apply(s, a), b))
  {
    hide Enabled, Apply, Run;
    var end := Apply(Apply(s, a), b);
    RunNothing(end);
    RunThen(Apply(s, a), b, []);
    RunThen(s, a, [b] + []);
    assert [a, b] == [a] + ([b] + []);
  }

  /** A recovery that reuses the last log opens with the entries of that log in memory; it writes no table, and no
      manifest unless it has written tables before. */
  lemma ReuseCompletes(s: Store) returns (end: Store)
    requires Inv(s) && s.process.Recovering? && s.process.newLog.None? && !s.process.written
    requires |s.process.todo| == 1 && s.process.rest == FirstRecords(s.disk, s.process.todo)
    ensures Run(s, [ReuseLog, if s.process.made == {} then KeepManifest else AppendManifest]) == Some(end)
    ensures JustOpened(end.process) && end.process.memLog == s.process.todo[0]
    ensures end.process.mem == RecordEntries(FirstRecords(s.disk, s.process.todo))
    ensures end.process.version == s.process.version + s.process.made
    ensures end.disk.tables == s.disk.tables && end.disk.logs == s.disk.logs && end.disk.current == s.disk.current
    ensures s.process.made == {} ==> end.disk == s.disk
  {
    hide Inv, RecordEntries, FirstRecords, Recoverable, Replay, TableEntries, LogEntries, Run;
    InvHasManifest(s);
    var last := if s.process.made == {} then KeepManifest else AppendManifest;
    end := Apply(Apply(s, ReuseLog), last);
    RunTwo(s, ReuseLog, last);
  }

  lemma InvHasManifest(s: Store)
    requires Inv(s)
    ensures s.disk.current in s.disk.manifests
  {
    hide Numbered, ReferencedKept, LogsOk, FlushOk, MergeOk, Recoverable;
  }

  /** With all logs replayed, and the new log there, the manifest is written and CURRENT switched to it. */
  lemma CanSwitch(s: Store) returns (actions: seq<Action>)
    requires s.process.Recovering? && s.process.newLog.Some? && !s.process.written
    ensures Opens(s, actions)
  {
    var s1 := Apply(s, WriteManifest);
    assert Run(Apply(s1, SwitchCurrent), []).Some?;
    assert Opens(Apply(s1, SwitchCurrent), []);
    OpensFirst(s1, SwitchCurrent, []);
    OpensFirst(s, WriteManifest, [SwitchCurrent] + []);
    actions := [WriteManifest] + ([SwitchCurrent] + []);
  }

  lemma {:induction false} CanFinish(s: Store) returns (actions: seq<Action>)
    requires s.process.Recovering? && (s.process.newLog.None? ==> !s.process.written)
    ensures Opens(s, actions)
    decreases s.process.newLog.None?, |s.process.todo|, |s.process.rest|
  {
    hide Opens, Run, RecordEntries, FirstRecords;
    var p := s.process;
    if p.newLog.Some? {
      if p.written {
        assert Opens(Apply(s, SwitchCurrent), []) by { IsOpen(Apply(s, SwitchCurrent)); }
        OpensFirst(s, SwitchCurrent, []);
        actions := [SwitchCurrent] + [];
      } else {
        actions := CanSwitch(s);
      }
    } else {
      var a := if p.rest != [] then RecoverChunk(|p.rest|) else if p.todo != [] then FinishLog else CreateLog;
      var rest := CanFinish(Apply(s, a));
      OpensFirst(s, a, rest);
      actions := [a] + rest;
    }
  }

  lemma IsOpen(s: Store)
    requires JustOpened(s.process)
    ensures Opens(s, [])
  {
  }

  /** Wherever a run has got to, a crash can be followed by a recovery that comes to an end, and then memtable and
      tables hold exactly what was recoverable when the crash came. */
  lemma RecoveryCompletes(s: Store, order: seq<nat>) returns (actions: seq<Action>)
    requires Inv(s) && Enabled(s, Crash(order))
    ensures Opens(Apply(s, Crash(order)), actions)
    ensures var end := Run(Apply(s, Crash(order)), actions).value;
            && end.process.imm.None? && end.process.inFlight == {}
            && end.process.mem + TableEntries(end.disk.tables, end.process.version) == Recoverable(s.disk)
  {
    hide RunningOk, RecoveringOk, TableEntries, LogEntries, Replay, Recoverable;
    var s1 := Apply(s, Crash(order));
    StepKeepsInv(s, Crash(order));
    actions := CanFinish(s1);
    RunKeepsInv(s1, actions);
    RunWithoutMerges(s1, actions);
    NothingWritten(actions);
    var end := Run(s1, actions).value;
    RunningRecoverable(end.disk, end.process);
  }

  ghost function Upto(ns: set<nat>, n: nat): seq<nat> {
    if n == 0 then [] else Upto(ns, n - 1) + if n - 1 in ns then [n - 1] else []
  }

  lemma {:induction false} UptoIs(ns: set<nat>, n: nat)
    ensures Ascending(Upto(ns, n)) && forall k: nat :: k in Upto(ns, n) <==> k in ns && k < n
  {
    if n > 0 {
      UptoIs(ns, n - 1);
      var before := Upto(ns, n - 1);
      assert forall i :: 0 <= i < |before| ==> before[i] in before;
    }
  }

  lemma {:induction false} BoundOf(ns: set<nat>) returns (n: nat)
    ensures forall k :: k in ns ==> k < n
    decreases ns
  {
    n := 0;
    if k :| k in ns {
      var m := BoundOf(ns - {k});
      n := if m > k then m else k + 1;
      forall j | j in ns ensures j < n {
        assert j != k ==> j in ns - {k};
      }
    }
  }

  /** The process may die in every state; the logs that a recovery finds then are in some order of their numbers. */
  lemma CrashCanCome(s: Store) returns (order: seq<nat>)
    requires Inv(s)
    ensures Enabled(s, Crash(order))
  {
    InvHasManifest(s);
    hide Inv, Ascending, Upto;
    var logs := set k | k in s.disk.logs && k >= CurrentNamed(s.disk).logNumber;
    var n := BoundOf(logs);
    UptoIs(logs, n);
    order := Upto(logs, n);
  }

  /** Every state of every run can crash and recover, and nothing recoverable is lost or made up by that. */
  lemma EveryCrashRecovers(s: Store) returns (order: seq<nat>, actions: seq<Action>)
    requires Reachable(s)
    ensures Enabled(s, Crash(order)) && Opens(Apply(s, Crash(order)), actions) && s.disk.current in s.disk.manifests
    ensures var end := Run(Apply(s, Crash(order)), actions).value;
            end.process.mem + TableEntries(end.disk.tables, end.process.version) == Recoverable(s.disk)
  {
    hide Reachable, Inv, Enabled, Apply, Opens, Recoverable, Run;
    ReachableInv(s);
    InvHasManifest(s);
    order := CrashCanCome(s);
    actions := RecoveryCompletes(s, order);
  }

  lemma {:induction false} NothingWritten(actions: seq<Action>)
    requires forall i :: 0 <= i < |actions| ==> !actions[i].LogWrite?
    ensures Written(actions) == {}
  {
    if actions != [] {
      NothingWritten(actions[1..]);
    }
  }
}
