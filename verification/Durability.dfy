/** Crash safety: what is on disk at every step of every run, including crashes and recoveries
    (DBImpl::Write, MakeRoomForWrite, CompactMemTable, DoCompactionWork, DeleteObsoleteFiles, Recover, Open
    and VersionSet::LogAndApply, Recover).  Files keep the bytes written to them; a table, a log and a
    manifest are identified by number.  A step is what happens between two points where the mutex is
    released or a file operation completes; a crash may come between any two steps. */
module Durability {
  import opened Format

  /** A VersionEdit, without levels. */
  datatype Edit = Edit(deleted: set<nat>, added: set<nat>, logNumber: nat, nextFile: nat)

  /** What replaying a manifest yields. */
  datatype Named = Named(files: set<nat>, logNumber: nat, nextFile: nat)

  type Tables = map<nat, set<Entry>>
  type Logs = map<nat, seq<set<Entry>>>

  datatype Disk = Disk(tables: Tables, logs: Logs, manifests: map<nat, seq<Edit>>, current: nat)

  /** A memtable flush: allocated, table built, edit logged. */
  datatype Flush = NoFlush | Building(number: nat) | Built(files: set<nat>) | Logged(files: set<nat>)

  /** A compaction: at work (with its pinned input version), or its edit logged. */
  datatype Merge = NoMerge | Merging(base: set<nat>, inputs: set<nat>, outputs: set<nat>)
                 | MergeLogged(base: set<nat>, inputs: set<nat>, outputs: set<nat>)

  /** A running database, or one that replays the logs in `todo`, of whose first `rest` is still unread; `made` are the
      tables written so far, `kept` the memtable of a log that is reused; `goal` records what was recoverable when the
      crash came. */
  datatype Process =
    | Running(mem: set<Entry>, imm: Option<set<Entry>>, inFlight: set<Entry>, memLog: nat, logNumber: nat,
              version: set<nat>, pins: multiset<set<nat>>, pendingOutputs: set<nat>, nextFile: nat,
              flush: Flush, merge: Merge, bgError: bool)
    | Recovering(version: set<nat>, todo: seq<nat>, rest: seq<set<Entry>>, made: set<nat>, nextFile: nat,
                 newManifest: nat, newLog: Option<nat>, kept: set<Entry>, written: bool, goal: set<Entry>)

  datatype Store = Store(disk: Disk, process: Process)

  // ----- reading a disk back -----

  ghost function ApplyEdit(n: Named, e: Edit): Named {
    Named((n.files - e.deleted) + e.added, e.logNumber, e.nextFile)
  }

  ghost function Replay(manifest: seq<Edit>): Named {
    if manifest == [] then Named({}, 0, 2) else ApplyEdit(Replay(manifest[..|manifest| - 1]), manifest[|manifest| - 1])
  }

  lemma ReplayAppend(manifest: seq<Edit>, e: Edit)
    ensures Replay(manifest + [e]) == ApplyEdit(Replay(manifest), e)
  {
    assert (manifest + [e])[..|manifest|] == manifest;
  }

  ghost function TableEntries(tables: Tables, files: set<nat>): set<Entry> {
    set f, e | f in files && f in tables && e in tables[f] :: e
  }

  ghost function RecordEntries(records: seq<set<Entry>>): set<Entry> {
    set r, e | r in records && e in r :: e
  }

  ghost function LogEntries(logs: Logs, from: nat): set<Entry> {
    set k, e | k in logs && k >= from && e in RecordEntries(logs[k]) :: e
  }

  ghost function CurrentNamed(d: Disk): Named
    requires d.current in d.manifests
  {
    Replay(d.manifests[d.current])
  }

  /** Everything a recovery of this disk would find. */
  ghost function Recoverable(d: Disk): set<Entry>
    requires d.current in d.manifests
  {
    var n := CurrentNamed(d);
    TableEntries(d.tables, n.files) + LogEntries(d.logs, n.logNumber)
  }

  // ----- the steps -----

  datatype Action =
    | LogWrite(group: set<Entry>)
    | MemInsert
    | SwitchMemTable
    | StartFlush | BuildFlush | LogFlush | InstallFlush
    | StartMerge(inputs: set<nat>) | BuildOutput(contents: set<Entry>) | LogMerge | InstallMerge | AbandonMerge
    | MoveFile(file: nat)
    | PinVersion | UnpinVersion(pinned: set<nat>)
    | DeleteTable(number: nat) | DeleteLog(number: nat) | DeleteManifest(number: nat)
    | BackgroundError
    | Crash(logOrder: seq<nat>)
    | RecoverChunk(records: nat) | FinishLog | CreateLog | ReuseLog
    | WriteManifest | SwitchCurrent | AppendManifest | KeepManifest

  /** Some version still on the version list names file n. */
  ghost predicate InVersions(p: Process, n: nat)
    requires p.Running?
  {
    n in p.version || (!p.merge.NoMerge? && n in p.merge.base) || exists v :: v in p.pins && n in v
  }

  /** n is in pending_outputs_ or in a referenced version: DeleteObsoleteFiles keeps it. */
  ghost predicate Live(p: Process, n: nat)
    requires p.Running?
  {
    n in p.pendingOutputs || InVersions(p, n)
  }

  ghost predicate CanCollect(p: Process) {
    p.Running? && !p.bgError && p.flush.NoFlush? && !p.merge.MergeLogged?
  }

  ghost predicate Ascending(xs: seq<nat>) {
    forall i, j :: 0 <= i < j < |xs| ==> xs[i] < xs[j]
  }

  ghost predicate Enabled(s: Store, a: Action) {
    var p := s.process;
    match a
    case LogWrite(_) => p.Running? && !p.bgError && p.inFlight == {}
    case MemInsert => p.Running?
    case SwitchMemTable => p.Running? && !p.bgError && p.inFlight == {} && p.imm.None?
    case StartFlush => p.Running? && !p.bgError && p.flush.NoFlush? && !p.merge.MergeLogged? && p.imm.Some?
    case BuildFlush => p.Running? && !p.bgError && p.flush.Building? && p.imm.Some?
    case LogFlush => p.Running? && !p.bgError && p.flush.Built? && s.disk.current in s.disk.manifests
    case InstallFlush => p.Running? && !p.bgError && p.flush.Logged?
    case StartMerge(inputs) => p.Running? && !p.bgError && p.flush.NoFlush? && p.merge.NoMerge? && inputs <= p.version
    case BuildOutput(contents) => p.Running? && !p.bgError && p.flush.NoFlush? && p.merge.Merging?
    case LogMerge => p.Running? && !p.bgError && p.flush.NoFlush? && p.merge.Merging?
        && s.disk.current in s.disk.manifests
    case InstallMerge => p.Running? && !p.bgError && p.merge.MergeLogged?
    case AbandonMerge => p.Running? && p.flush.NoFlush? && p.merge.Merging?
    case MoveFile(f) =>
      p.Running? && !p.bgError && p.flush.NoFlush? && p.merge.NoMerge? && f in p.version
          && s.disk.current in s.disk.manifests
    case PinVersion => p.Running?
    case UnpinVersion(v) => p.Running? && v in p.pins
    case DeleteTable(n) => CanCollect(p) && !Live(p, n)
    case DeleteLog(n) => CanCollect(p) && n < p.logNumber
    case DeleteManifest(n) => CanCollect(p) && n < s.disk.current
    case BackgroundError => p.Running?
    case Crash(order) =>
      s.disk.current in s.disk.manifests && Ascending(order)
      && forall k :: k in order <==> k in s.disk.logs && k >= CurrentNamed(s.disk).logNumber
    case RecoverChunk(k) => p.Recovering? && p.newLog.None? && 0 < k <= |p.rest|
    case FinishLog => p.Recovering? && p.newLog.None? && p.rest == [] && p.todo != []
    case CreateLog => p.Recovering? && p.newLog.None? && p.todo == []
    case ReuseLog => p.Recovering? && p.newLog.None? && |p.todo| == 1 && p.rest == FirstRecords(s.disk, p.todo)
    case WriteManifest => p.Recovering? && p.newLog.Some? && !p.written
    case SwitchCurrent => p.Recovering? && p.newLog.Some? && p.written
    case AppendManifest => p.Recovering? && p.newLog.Some? && !p.written && s.disk.current in s.disk.manifests
    case KeepManifest =>
      p.Recovering? && p.newLog.Some? && !p.written && p.made == {} && s.disk.current in s.disk.manifests
  }

  ghost function Append(d: Disk, e: Edit): Disk
    requires d.current in d.manifests
  {
    d.(manifests := d.manifests[d.current := d.manifests[d.current] + [e]])
  }

  ghost function FirstRecords(d: Disk, todo: seq<nat>): seq<set<Entry>> {
    if todo != [] && todo[0] in d.logs then d.logs[todo[0]] else []
  }

  ghost function Max(a: nat, b: nat): nat { if a < b then b else a }

  ghost function Apply(s: Store, a: Action): Store
    requires Enabled(s, a)
  {
    var p, d := s.process, s.disk;
    match a
    case LogWrite(g) =>
      var records := if p.memLog in d.logs then d.logs[p.memLog] else [];
      Store(d.(logs := d.logs[p.memLog := records + [g]]), p.(inFlight := g))
    case MemInsert => Store(d, p.(mem := p.mem + p.inFlight, inFlight := {}))
    case SwitchMemTable =>
      Store(d.(logs := d.logs[p.nextFile := []]),
            p.(mem := {}, imm := Some(p.mem), memLog := p.nextFile, nextFile := p.nextFile + 1))
    case StartFlush =>
      Store(d, p.(flush := Building(p.nextFile), pendingOutputs := p.pendingOutputs + {p.nextFile},
          nextFile := p.nextFile + 1))
    case BuildFlush =>
      var n := p.flush.number;    // an empty table is removed again
      if p.imm.value == {} then Store(d, p.(flush := Built({}), pendingOutputs := p.pendingOutputs - {n}))
      else Store(d.(tables := d.tables[n := p.imm.value]),
          p.(flush := Built({n}), pendingOutputs := p.pendingOutputs - {n}))
    case LogFlush =>
      Store(Append(d, Edit({}, p.flush.files, p.memLog, p.nextFile)), p.(flush := Logged(p.flush.files)))
    case InstallFlush =>
      Store(d, p.(version := p.version + p.flush.files, logNumber := p.memLog, imm := None, flush := NoFlush))
    case StartMerge(inputs) => Store(d, p.(merge := Merging(p.version, inputs, {})))
    case BuildOutput(contents) =>
      var n := p.nextFile;
      Store(d.(tables := d.tables[n := contents]),
            p.(merge := Merging(p.merge.base, p.merge.inputs, p.merge.outputs + {n}),
                pendingOutputs := p.pendingOutputs + {n}, nextFile := n + 1))
    case LogMerge =>
      Store(Append(d, Edit(p.merge.inputs, p.merge.outputs, p.logNumber, p.nextFile)),
            p.(merge := MergeLogged(p.merge.base, p.merge.inputs, p.merge.outputs)))
    case InstallMerge =>
      Store(d, p.(version := (p.version - p.merge.inputs) + p.merge.outputs,
                  pendingOutputs := p.pendingOutputs - p.merge.outputs, merge := NoMerge))
    case AbandonMerge =>
        Store(d, p.(pendingOutputs := p.pendingOutputs - p.merge.outputs, merge := NoMerge, bgError := true))
    case MoveFile(f) => Store(Append(d, Edit({f}, {f}, p.logNumber, p.nextFile)), p)    // levels are not named here
    case PinVersion => Store(d, p.(pins := p.pins + multiset{p.version}))
    case UnpinVersion(v) => Store(d, p.(pins := p.pins - multiset{v}))
    case DeleteTable(n) => Store(d.(tables := d.tables - {n}), p)
    case DeleteLog(n) => Store(d.(logs := d.logs - {n}), p)
    case DeleteManifest(n) => Store(d.(manifests := d.manifests - {n}), p)
    case BackgroundError => Store(d, p.(bgError := true))
    case Crash(order) =>
      var n := CurrentNamed(d);
      Store(d, Recovering(n.files, order, FirstRecords(d, order), {}, n.nextFile + 1, n.nextFile, None, {}, false,
          Recoverable(d)))
    case RecoverChunk(k) =>
      Store(d.(tables := d.tables[p.nextFile := RecordEntries(p.rest[..k])]),
            p.(rest := p.rest[k..], made := p.made + {p.nextFile}, nextFile := p.nextFile + 1))
    case FinishLog =>
      Store(d, p.(todo := p.todo[1..], rest := FirstRecords(d, p.todo[1..]),
          nextFile := Max(p.nextFile, p.todo[0] + 1)))
    case CreateLog =>
        Store(d.(logs := d.logs[p.nextFile := []]), p.(newLog := Some(p.nextFile), nextFile := p.nextFile + 1))
    case WriteManifest =>
      var snapshot := Edit({}, p.version, 0, 0);
      var edit := Edit({}, p.made, p.newLog.value, p.nextFile);
      Store(d.(manifests := d.manifests[p.newManifest := [snapshot, edit]]), p.(written := true))
    case ReuseLog =>
      Store(d, p.(todo := [], rest := [], newLog := Some(p.todo[0]), kept := RecordEntries(p.rest),
          nextFile := Max(p.nextFile, p.todo[0] + 1)))
    case SwitchCurrent => Store(d.(current := p.newManifest), Opened(p, p.newLog.value))
    case AppendManifest => Store(Append(d, Edit({}, p.made, p.newLog.value, p.nextFile)), Opened(p, p.newLog.value))
    case KeepManifest => Store(d, Opened(p, CurrentNamed(d).logNumber))
  }

  /** The database as DB::Open hands it out. */
  ghost function Opened(p: Process, logNumber: nat): Process
    requires p.Recovering? && p.newLog.Some?
  {
    Running(p.kept, None, {}, p.newLog.value, logNumber, p.version + p.made, multiset{}, {}, p.nextFile, NoFlush,
        NoMerge, false)
  }

  // ----- the invariant -----

  /** The version and log number that the manifest names: those of the edit being installed, if any. */
  ghost function TargetFiles(p: Process): set<nat>
    requires p.Running?
  {
    if p.flush.Logged? then p.version + p.flush.files
    else if p.merge.MergeLogged? then (p.version - p.merge.inputs) + p.merge.outputs
    else p.version
  }

  ghost function TargetLog(p: Process): nat
    requires p.Running?
  {
    if p.flush.Logged? then p.memLog else p.logNumber
  }

  ghost function ImmSet(p: Process): set<Entry>
    requires p.Running?
  {
    if p.imm.Some? then p.imm.value else {}
  }

  ghost predicate Below(files: set<nat>, n: nat) {
    forall f :: f in files ==> f < n
  }

  /** A manifest is replayable: what it names was numbered before it, and it is not its own successor. */
  ghost predicate NamedOk(d: Disk, n: Named) {
    && d.current in d.manifests && CurrentNamed(d) == n
    && d.current < n.nextFile && n.logNumber < n.nextFile && Below(n.files, n.nextFile)
    && n.files <= d.tables.Keys
  }

  /** Every file number in use was handed out before. */
  ghost predicate Numbered(p: Process)
    requires p.Running?
  {
    && Below(p.pendingOutputs, p.nextFile) && Below(p.version, p.nextFile)
    && (!p.merge.NoMerge? ==> Below(p.merge.base, p.nextFile)) && (forall v :: v in p.pins ==> Below(v, p.nextFile))
    && (p.flush.Building? ==> p.flush.number < p.nextFile)
    && (p.flush.Built? || p.flush.Logged? ==> Below(p.flush.files, p.nextFile))
  }

  ghost predicate MergeOk(p: Process, tables: Tables)
    requires p.Running?
  {
    !p.merge.NoMerge? ==> && p.merge.inputs <= p.version && p.merge.outputs <= p.pendingOutputs
                          && p.merge.outputs <= tables.Keys
  }

  ghost predicate FlushOk(p: Process, tables: Tables)
    requires p.Running?
  {
    && (!p.flush.NoFlush? ==> p.imm.Some? && !p.merge.MergeLogged?)
    && (p.flush.Building? ==> !InVersions(p, p.flush.number) && (!p.merge.NoMerge? ==>
       p.flush.number !in p.merge.outputs))
    && (p.flush.Built? || p.flush.Logged? ==>
          p.flush.files <= tables.Keys && TableEntries(tables, p.flush.files) == ImmSet(p))
  }

  ghost predicate LogsOk(p: Process, logs: Logs)
    requires p.Running?
  {
    && p.logNumber <= p.memLog < p.nextFile
    && p.memLog in logs && (forall k :: k in logs ==> k <= p.memLog)
    && RecordEntries(logs[p.memLog]) == p.mem + p.inFlight
    && LogEntries(logs, p.logNumber) == ImmSet(p) + p.mem + p.inFlight
  }

  ghost predicate ReferencedKept(p: Process, tables: Tables)
    requires p.Running?
  {
    && p.version <= tables.Keys && (!p.merge.NoMerge? ==> p.merge.base <= tables.Keys)
    && (forall v :: v in p.pins ==> v <= tables.Keys)
  }

  ghost predicate RunningOk(d: Disk, p: Process)
    requires p.Running?
  {
    && Numbered(p) && ReferencedKept(p, d.tables)
    && LogsOk(p, d.logs) && FlushOk(p, d.tables) && MergeOk(p, d.tables)
    && d.current in d.manifests && CurrentNamed(d).nextFile <= p.nextFile
    && NamedOk(d, Named(TargetFiles(p), TargetLog(p), CurrentNamed(d).nextFile))
  }

  ghost function TodoEntries(logs: Logs, todo: seq<nat>): set<Entry> {
    set k, e | k in todo && k in logs && e in RecordEntries(logs[k]) :: e
  }

  ghost function Tail(todo: seq<nat>): seq<nat> {
    if todo == [] then [] else todo[1..]
  }

  ghost predicate RecoveringOk(d: Disk, p: Process)
    requires p.Recovering?
  {
    && d.current in d.manifests && NamedOk(d, CurrentNamed(d)) && p.goal == Recoverable(d)
    && p.version == CurrentNamed(d).files && p.newManifest == CurrentNamed(d).nextFile < p.nextFile
    && p.made <= d.tables.Keys && (forall f :: f in p.made ==> p.newManifest < f < p.nextFile)
    && (forall k :: k in p.todo ==> k in d.logs)
    && (forall k :: k in d.logs ==> k in p.todo || k < p.nextFile)
    && Ascending(p.todo) && (forall j, k :: j in p.todo && k in d.logs ==> k in p.todo || k < j)
    && (forall k :: k in p.todo ==> k >= CurrentNamed(d).logNumber)
    && (p.todo == [] ==> p.rest == [])
    && TableEntries(d.tables, p.version + p.made) + RecordEntries(p.rest)
         + TodoEntries(d.logs, Tail(p.todo)) + p.kept == p.goal
    && (p.made == {} ==>
          LogEntries(d.logs, CurrentNamed(d).logNumber) == RecordEntries(p.rest) + TodoEntries(d.logs, Tail(p.todo))
              + p.kept)
    && (p.newLog.None? ==> p.kept == {})
    && (p.newLog.Some? ==>
          && p.todo == [] && CurrentNamed(d).logNumber <= p.newLog.value < p.nextFile && p.newLog.value in d.logs
          && RecordEntries(d.logs[p.newLog.value]) == p.kept && (forall k :: k in d.logs ==> k <= p.newLog.value))
    && (p.written ==>
          && p.newLog.Some? && p.newManifest in d.manifests
          && d.manifests[p.newManifest] == [Edit({}, p.version, 0, 0), Edit({}, p.made, p.newLog.value, p.nextFile)])
  }

  ghost predicate Inv(s: Store) {
    if s.process.Running? then RunningOk(s.disk, s.process) else RecoveringOk(s.disk, s.process)
  }

  // ----- set algebra -----

  lemma TableEntriesUnion(tables: Tables, a: set<nat>, b: set<nat>)
    ensures TableEntries(tables, a + b) == TableEntries(tables, a) + TableEntries(tables, b)
  {
  }

  lemma TableEntriesFrame(tables: Tables, tables': Tables, files: set<nat>)
    requires forall f :: f in files ==> (f in tables <==> f in tables') && (f in tables ==> tables[f] == tables'[f])
    ensures TableEntries(tables', files) == TableEntries(tables, files)
  {
  }

  lemma LogEntriesTail(logs: Logs, from: nat)
    requires from in logs && forall k :: k in logs ==> k <= from
    ensures LogEntries(logs, from) == RecordEntries(logs[from])
  {
  }

  lemma OneTable(tables: Tables, n: nat, contents: set<Entry>)
    ensures TableEntries(tables[n := contents], {n}) == contents
    ensures TableEntries(tables, {}) == {}
  {
    var tables' := tables[n := contents];
    forall e | e in contents ensures e in TableEntries(tables', {n}) {
      assert n in tables' && e in tables'[n];
    }
  }

  lemma OldLogsAreSpent(logs: Logs, n: nat, from: nat)
    requires n < from
    ensures LogEntries(logs - {n}, from) == LogEntries(logs, from)
  {
    forall e | e in LogEntries(logs, from) ensures e in LogEntries(logs - {n}, from) {
      var k :| k in logs && k >= from && e in RecordEntries(logs[k]);
      assert k in logs - {n} && (logs - {n})[k] == logs[k];
    }
    forall e | e in LogEntries(logs - {n}, from) ensures e in LogEntries(logs, from) {
      var k :| k in logs - {n} && k >= from && e in RecordEntries((logs - {n})[k]);
      assert k in logs && (logs - {n})[k] == logs[k];
    }
  }

  lemma LogEntriesUpdate(logs: Logs, k: nat, records: seq<set<Entry>>, from: nat)
    requires k >= from && (k in logs ==> RecordEntries(logs[k]) <= RecordEntries(records))
    ensures LogEntries(logs[k := records], from) == LogEntries(logs, from) + RecordEntries(records)
  {
    var logs' := logs[k := records];
    forall e | e in LogEntries(logs, from) + RecordEntries(records) ensures e in LogEntries(logs', from) {
      if e in RecordEntries(records) {
        assert k in logs' && e in RecordEntries(logs'[k]);
      } else {
        var j :| j in logs && j >= from && e in RecordEntries(logs[j]);
        assert j in logs' && e in RecordEntries(logs'[j]);
      }
    }
  }

  lemma RecordEntriesSplit(records: seq<set<Entry>>, k: nat)
    requires k <= |records|
    ensures RecordEntries(records) == RecordEntries(records[..k]) + RecordEntries(records[k..])
  {
    assert records == records[..k] + records[k..];
    assert forall r :: r in records <==> r in records[..k] || r in records[k..];
  }

  // ----- steps of a running database -----

  lemma AppendRecord(logs: Logs, k: nat, g: set<Entry>, from: nat)
    requires k in logs && k >= from
    ensures RecordEntries(logs[k] + [g]) == RecordEntries(logs[k]) + g
    ensures LogEntries(logs[k := logs[k] + [g]], from) == LogEntries(logs, from) + g
  {
    var records := logs[k];
    RecordEntriesSplit(records + [g], |records|);
    assert (records + [g])[..|records|] == records && (records + [g])[|records|..] == [g];
    assert RecordEntries([g]) == g;
    LogEntriesUpdate(logs, k, records + [g], from);
    assert RecordEntries(records) <= LogEntries(logs, from);
  }

  lemma LogWriteKeeps(s: Store, a: Action)
    requires Inv(s) && a.LogWrite? && Enabled(s, a)
    ensures Inv(Apply(s, a))
    ensures var p, logs := s.process, s.disk.logs;
            && Apply(s, a).process == p.(inFlight := a.group) && p.memLog in logs && p.memLog in Apply(s, a).disk.logs
            && RecordEntries(Apply(s, a).disk.logs[p.memLog]) == RecordEntries(logs[p.memLog]) + a.group
  {
    hide LogEntries, RecordEntries, TableEntries, TodoEntries, Replay, Tail, FirstRecords;
    AppendRecord(s.disk.logs, s.process.memLog, a.group, s.process.logNumber);
  }

  lemma NewLogAddsNothing(logs: Logs, n: nat, from: nat)
    requires n !in logs && n >= from
    ensures LogEntries(logs[n := []], from) == LogEntries(logs, from) && RecordEntries([]) == {}
  {
    LogEntriesUpdate(logs, n, [], from);
  }

  lemma SwitchKeeps(s: Store, a: Action)
    requires Inv(s) && a.SwitchMemTable? && Enabled(s, a)
    ensures Inv(Apply(s, a))
  {
    hide LogEntries, RecordEntries, TableEntries, TodoEntries, Replay, Tail, FirstRecords;
    NewLogAddsNothing(s.disk.logs, s.process.nextFile, s.process.logNumber);
  }

  lemma MemInsertKeeps(s: Store, a: Action)
    requires Inv(s) && (a.MemInsert? || a.BackgroundError?) && Enabled(s, a)
    ensures Inv(Apply(s, a))
  {
    hide LogEntries, RecordEntries, TableEntries, Replay;
  }

  lemma StartFlushKeeps(s: Store, a: Action)
    requires Inv(s) && a.StartFlush? && Enabled(s, a)
    ensures Inv(Apply(s, a))
  {
    hide LogEntries, RecordEntries, TableEntries, Replay;
  }

  lemma MergeStepKeeps(s: Store, a: Action)
    requires Inv(s) && (a.StartMerge? || a.AbandonMerge?) && Enabled(s, a)
    ensures Inv(Apply(s, a))
  {
    hide LogEntries, RecordEntries, TableEntries, Replay;
  }

  lemma PinKeeps(s: Store, a: Action)
    requires Inv(s) && (a.PinVersion? || a.UnpinVersion?) && Enabled(s, a)
    ensures Inv(Apply(s, a))
  {
    hide LogEntries, RecordEntries, TableEntries, Replay;
  }

  lemma BuildFlushKeeps(s: Store, a: Action)
    requires Inv(s) && a.BuildFlush? && Enabled(s, a)
    ensures Inv(Apply(s, a))
  {
    hide LogEntries, RecordEntries, TableEntries, TodoEntries, Replay, Tail, FirstRecords;
    OneTable(s.disk.tables, s.process.flush.number, s.process.imm.value);
  }

  lemma LogFlushKeeps(s: Store, a: Action)
    requires Inv(s) && a.LogFlush? && Enabled(s, a)
    ensures Inv(Apply(s, a))
  {
    var p, d := s.process, s.disk;
    ReplayAppend(d.manifests[d.current], Edit({}, p.flush.files, p.memLog, p.nextFile));
  }

  lemma InstallFlushKeeps(s: Store, a: Action)
    requires Inv(s) && a.InstallFlush? && Enabled(s, a)
    ensures Inv(Apply(s, a))
  {
    LogEntriesTail(s.disk.logs, s.process.memLog);
  }

  lemma BuildOutputKeeps(s: Store, a: Action)
    requires Inv(s) && a.BuildOutput? && Enabled(s, a)
    ensures Inv(Apply(s, a))
  {
    hide LogEntries, RecordEntries, TableEntries, TodoEntries, Replay, Tail, FirstRecords;
  }

  lemma LogMergeKeeps(s: Store, a: Action)
    requires Inv(s) && a.LogMerge? && Enabled(s, a)
    ensures Inv(Apply(s, a))
  {
    var p, d := s.process, s.disk;
    ReplayAppend(d.manifests[d.current], Edit(p.merge.inputs, p.merge.outputs, p.logNumber, p.nextFile));
  }

  lemma InstallMergeKeeps(s: Store, a: Action)
    requires Inv(s) && a.InstallMerge? && Enabled(s, a)
    ensures Inv(Apply(s, a))
  {
  }

  /** A trivial move deletes and adds the same file, at different levels. */
  lemma MoveKeeps(s: Store, a: Action)
    requires Inv(s) && a.MoveFile? && s.process.Running? && !s.process.bgError
    requires s.process.flush.NoFlush? && s.process.merge.NoMerge? && a.file in s.process.version
    ensures Enabled(s, a) && Inv(Apply(s, a))
    ensures var d, d' := s.disk, Apply(s, a).disk;
            && d'.current == d.current && |d'.manifests[d.current]| == |d.manifests[d.current]| + 1
            && CurrentNamed(d') == Named(CurrentNamed(d).files, s.process.logNumber, s.process.nextFile)
  {
    hide LogEntries, RecordEntries, TableEntries, Replay;
    var p, d := s.process, s.disk;
    ReplayAppend(d.manifests[d.current], Edit({a.file}, {a.file}, p.logNumber, p.nextFile));
    assert (p.version - {a.file}) + {a.file} == p.version;
  }

  lemma DeleteKeeps(s: Store, a: Action)
    requires Inv(s) && (a.DeleteTable? || a.DeleteLog? || a.DeleteManifest?) && Enabled(s, a)
    ensures Inv(Apply(s, a))
  {
    if a.DeleteLog? {
      OldLogsAreSpent(s.disk.logs, a.number, s.process.logNumber);
    }
    hide LogEntries, RecordEntries, TableEntries, Replay;
  }

  // ----- a crash and the steps of a recovery -----

  lemma TodoIsRecoverable(logs: Logs, todo: seq<nat>, from: nat)
    requires forall k :: k in todo <==> k in logs && k >= from
    ensures TodoEntries(logs, todo) == LogEntries(logs, from)
  {
  }

  lemma TodoSplit(d: Disk, todo: seq<nat>)
    requires forall k :: k in todo ==> k in d.logs
    ensures todo == [] ==> Tail(todo) == []
    ensures RecordEntries(FirstRecords(d, todo)) + TodoEntries(d.logs, Tail(todo)) == TodoEntries(d.logs, todo)
    ensures todo == [] ==> FirstRecords(d, todo) == []
  {
    if todo == [] {
      NothingToDo(d.logs);
    } else {
      assert forall k :: k in todo <==> k == todo[0] || k in todo[1..];
    }
  }

  lemma NothingToDo(logs: Logs)
    ensures TodoEntries(logs, []) == {} && RecordEntries([]) == {}
  {
  }

  lemma CrashFacts(d: Disk, order: seq<nat>)
    requires d.current in d.manifests
    requires forall k :: k in order <==> k in d.logs && k >= CurrentNamed(d).logNumber
    ensures TableEntries(d.tables, CurrentNamed(d).files + {}) + RecordEntries(FirstRecords(d, order))
            + TodoEntries(d.logs, Tail(order))
              == Recoverable(d)
    ensures LogEntries(d.logs, CurrentNamed(d).logNumber) == RecordEntries(FirstRecords(d, order))
            + TodoEntries(d.logs, Tail(order))
    ensures order == [] ==> FirstRecords(d, order) == []
  {
    TodoIsRecoverable(d.logs, order, CurrentNamed(d).logNumber);
    TodoSplit(d, order);
    assert CurrentNamed(d).files + {} == CurrentNamed(d).files;
  }

  lemma InvNamed(s: Store)
    requires Inv(s)
    ensures s.disk.current in s.disk.manifests && NamedOk(s.disk, CurrentNamed(s.disk))
  {
  }

  lemma CrashKeeps(s: Store, a: Action)
    requires Inv(s) && a.Crash? && Enabled(s, a)
    ensures Inv(Apply(s, a))
  {
    hide LogEntries, RecordEntries, TableEntries, TodoEntries, Replay, Tail, FirstRecords;
    InvNamed(s);
    hide RunningOk, Recoverable;
    CrashFacts(s.disk, a.logOrder);
  }

  lemma ChunkFacts(tables: Tables, files: set<nat>, n: nat, rest: seq<set<Entry>>, k: nat)
    requires k <= |rest| && n !in files
    ensures var tables' := tables[n := RecordEntries(rest[..k])];
            && TableEntries(tables', files) == TableEntries(tables, files)
            && TableEntries(tables', files + {n}) + RecordEntries(rest[k..]) == TableEntries(tables, files)
               + RecordEntries(rest)
  {
    var chunk := RecordEntries(rest[..k]);
    RecordEntriesSplit(rest, k);
    OneTable(tables, n, chunk);
    TableEntriesFrame(tables, tables[n := chunk], files);
    TableEntriesUnion(tables[n := chunk], files, {n});
  }

  lemma RecoverChunkKeeps(s: Store, a: Action)
    requires Inv(s) && a.RecoverChunk? && Enabled(s, a)
    ensures Inv(Apply(s, a))
  {
    hide LogEntries, RecordEntries, TableEntries, TodoEntries, Replay, Tail, FirstRecords;
    hide RunningOk;
    var p := s.process;
    ChunkFacts(s.disk.tables, p.version + p.made, p.nextFile, p.rest, a.records);
    ChunkFacts(s.disk.tables, p.version, p.nextFile, p.rest, a.records);
    assert p.version + (p.made + {p.nextFile}) == (p.version + p.made) + {p.nextFile};
  }

  lemma PopTodo(d: Disk, todo: seq<nat>)
    requires todo != [] && forall k :: k in todo ==> k in d.logs
    ensures Tail(todo) == todo[1..] && forall k :: k in todo <==> k == todo[0] || k in todo[1..]
    ensures RecordEntries([]) + TodoEntries(d.logs, Tail(todo)) ==
              RecordEntries(FirstRecords(d, todo[1..])) + TodoEntries(d.logs, Tail(todo[1..]))
    ensures todo[1..] == [] ==> FirstRecords(d, todo[1..]) == []
  {
    NothingToDo(d.logs);
    assert forall k :: k in todo <==> k == todo[0] || k in todo[1..];
    TodoSplit(d, todo[1..]);
  }

  lemma FinishLogKeeps(s: Store, a: Action)
    requires Inv(s) && a.FinishLog? && Enabled(s, a)
    ensures Inv(Apply(s, a))
  {
    hide LogEntries, RecordEntries, TableEntries, TodoEntries, Replay, Tail, FirstRecords, CurrentNamed, Recoverable,
      NamedOk, RunningOk;
    PopTodo(s.disk, s.process.todo);
  }

  lemma CreateLogKeeps(s: Store, a: Action)
    requires Inv(s) && a.CreateLog? && Enabled(s, a)
    ensures Inv(Apply(s, a))
  {
    var p, d := s.process, s.disk;
    NothingToDo(d.logs);
    NothingToDo(d.logs[p.nextFile := []]);
    NewLogAddsNothing(d.logs, p.nextFile, CurrentNamed(d).logNumber);
    hide LogEntries, RecordEntries, TableEntries, TodoEntries, Replay;
  }

  lemma ReuseLogKeeps(s: Store, a: Action)
    requires Inv(s) && a.ReuseLog? && Enabled(s, a)
    ensures Inv(Apply(s, a))
  {
    hide LogEntries, RecordEntries, TableEntries, Replay, CurrentNamed, Recoverable, NamedOk, RunningOk;
    NothingToDo(s.disk.logs);
    assert Tail(s.process.todo) == [] && s.process.todo[0] in s.process.todo;
  }

  lemma WriteManifestKeeps(s: Store, a: Action)
    requires Inv(s) && a.WriteManifest? && Enabled(s, a)
    ensures Inv(Apply(s, a))
  {
    hide LogEntries, RecordEntries, TableEntries, TodoEntries, Replay;
  }

  lemma NewManifestNames(snapshot: Edit, edit: Edit)
    requires snapshot.deleted == edit.deleted == {}
    ensures Replay([snapshot, edit]) == Named(snapshot.added + edit.added, edit.logNumber, edit.nextFile)
  {
    ReplayAppend([], snapshot);
    ReplayAppend([snapshot], edit);
    assert [] + [snapshot] == [snapshot] && [snapshot] + [edit] == [snapshot, edit];
  }

  lemma SwitchCurrentKeeps(s: Store, a: Action)
    requires Inv(s) && a.SwitchCurrent? && Enabled(s, a)
    ensures Inv(Apply(s, a))
  {
    hide LogEntries, RecordEntries, TableEntries, TodoEntries, Replay, Tail, FirstRecords;
    var p := s.process;
    NewManifestNames(Edit({}, p.version, 0, 0), Edit({}, p.made, p.newLog.value, p.nextFile));
    NothingToDo(s.disk.logs);
    LogEntriesTail(s.disk.logs, p.newLog.value);
  }

  lemma AppendManifestKeeps(s: Store, a: Action)
    requires Inv(s) && a.AppendManifest? && Enabled(s, a)
    ensures Inv(Apply(s, a))
  {
    hide LogEntries, RecordEntries, TableEntries, TodoEntries, Replay, Tail, FirstRecords;
    var p, d := s.process, s.disk;
    ReplayAppend(d.manifests[d.current], Edit({}, p.made, p.newLog.value, p.nextFile));
    LogEntriesTail(d.logs, p.newLog.value);
  }

  lemma KeepManifestKeeps(s: Store, a: Action)
    requires Inv(s) && a.KeepManifest? && Enabled(s, a)
    ensures Inv(Apply(s, a))
  {
    hide LogEntries, RecordEntries, TableEntries, Replay, FirstRecords;
    NothingToDo(s.disk.logs);
  }

  lemma StepKeepsInv(s: Store, a: Action)
    requires Inv(s) && Enabled(s, a)
    ensures Inv(Apply(s, a))
  {
    hide Inv;
    match a
    case LogWrite(_) => LogWriteKeeps(s, a);
    case MemInsert => MemInsertKeeps(s, a);
    case SwitchMemTable => SwitchKeeps(s, a);
    case StartFlush => StartFlushKeeps(s, a);
    case BuildFlush => BuildFlushKeeps(s, a);
    case LogFlush => LogFlushKeeps(s, a);
    case InstallFlush => InstallFlushKeeps(s, a);
    case StartMerge(_) => MergeStepKeeps(s, a);
    case BuildOutput(_) => BuildOutputKeeps(s, a);
    case LogMerge => LogMergeKeeps(s, a);
    case InstallMerge => InstallMergeKeeps(s, a);
    case AbandonMerge => MergeStepKeeps(s, a);
    case MoveFile(_) => MoveKeeps(s, a);
    case PinVersion => PinKeeps(s, a);
    case UnpinVersion(_) => PinKeeps(s, a);
    case DeleteTable(_) => DeleteKeeps(s, a);
    case DeleteLog(_) => DeleteKeeps(s, a);
    case DeleteManifest(_) => DeleteKeeps(s, a);
    case BackgroundError => MemInsertKeeps(s, a);
    case Crash(_) => CrashKeeps(s, a);
    case RecoverChunk(_) => RecoverChunkKeeps(s, a);
    case FinishLog => FinishLogKeeps(s, a);
    case CreateLog => CreateLogKeeps(s, a);
    case WriteManifest => WriteManifestKeeps(s, a);
    case ReuseLog => ReuseLogKeeps(s, a);
    case SwitchCurrent => SwitchCurrentKeeps(s, a);
    case AppendManifest => AppendManifestKeeps(s, a);
    case KeepManifest => KeepManifestKeeps(s, a);
  }

  // ----- whole runs -----

  /** The disk that NewDB leaves, about to be opened. */
  ghost function NewStore(): Store {
    Store(Disk(map[], map[], map[1 := [Edit({}, {}, 0, 2)]], 1), Recovering({}, [], [], {}, 3, 2, None, {}, false, {}))
  }

  ghost function Run(s: Store, actions: seq<Action>): Option<Store>
    decreases |actions|
  {
    if actions == [] then Some(s)
    else if Enabled(s, actions[0]) then Run(Apply(s, actions[0]), actions[1..])
    else None
  }

  ghost predicate Reachable(s: Store) {
    exists actions :: Run(NewStore(), actions) == Some(s)
  }

  lemma {:induction false} RunKeepsInv(s: Store, actions: seq<Action>)
    requires Inv(s) && Run(s, actions).Some?
    ensures Inv(Run(s, actions).value)
    decreases |actions|
  {
    hide Inv, Enabled, Apply;
    if actions != [] {
      StepKeepsInv(s, actions[0]);
      RunKeepsInv(Apply(s, actions[0]), actions[1..]);
    }
  }

  lemma NewStoreOk()
    ensures Inv(NewStore())
  {
    var d := NewStore().disk;
    ReplayAppend([], Edit({}, {}, 0, 2));
    assert [] + [Edit({}, {}, 0, 2)] == [Edit({}, {}, 0, 2)];
    NothingToDo(d.logs);
    assert CurrentNamed(d) == Named({}, 0, 2);
    assert TableEntries(d.tables, {}) == {} && LogEntries(d.logs, 0) == {};
  }

  lemma ReachableInv(s: Store)
    requires Reachable(s)
    ensures Inv(s)
  {
    NewStoreOk();
    hide Inv, Enabled, Apply;
    var actions :| Run(NewStore(), actions) == Some(s);
    RunKeepsInv(NewStore(), actions);
  }

  /** Whenever the process dies, replaying the manifest and the logs it does not cover finds exactly the entries of the
      memtables, of the version being installed or current, and of the write group in flight; unless an edit is just
      being installed, that version is the current one. */
  lemma CrashLosesNothing(s: Store)
    requires Reachable(s) && s.process.Running?
    ensures s.disk.current in s.disk.manifests
    ensures Recoverable(s.disk) ==
              s.process.mem + ImmSet(s.process) + TableEntries(s.disk.tables, TargetFiles(s.process))
                  + s.process.inFlight
    ensures !s.process.flush.Logged? && !s.process.merge.MergeLogged? ==>
              Recoverable(s.disk) ==
                s.process.mem + ImmSet(s.process) + TableEntries(s.disk.tables, s.process.version) + s.process.inFlight
  {
    ReachableInv(s);
    var p, d := s.process, s.disk;
    LogEntriesTail(d.logs, p.memLog);
    if p.flush.Logged? {
      TableEntriesUnion(d.tables, p.version, p.flush.files);
    }
  }

  /** A recovery, however often it crashes itself and whether or not it reuses the last log or the manifest, brings back
      exactly what was recoverable at the crash, in tables that the manifest names and in the memtable. */
  lemma RecoveryRestores(s: Store, a: Action)
    requires Reachable(s) && Enabled(s, a) && (a.SwitchCurrent? || a.AppendManifest? || a.KeepManifest?)
    ensures s.disk.current in s.disk.manifests && Apply(s, a).process.Running?
    ensures var s' := Apply(s, a);
            && TableEntries(s'.disk.tables, s'.process.version) + s'.process.mem == s.process.goal
            && s.process.goal == Recoverable(s.disk)
            && s'.process.version <= s'.disk.tables.Keys
            && s'.disk.current in s'.disk.manifests && Recoverable(s'.disk) == s.process.goal
  {
    hide LogEntries, RecordEntries, TableEntries, TodoEntries, Replay, FirstRecords, RunningOk, Run;
    ReachableInv(s);
    var p, d := s.process, s.disk;
    NewManifestNames(Edit({}, p.version, 0, 0), Edit({}, p.made, p.newLog.value, p.nextFile));
    ReplayAppend(d.manifests[d.current], Edit({}, p.made, p.newLog.value, p.nextFile));
    NothingToDo(d.logs);
    LogEntriesTail(d.logs, p.newLog.value);
    if a.AppendManifest? {
      assert CurrentNamed(Apply(s, a).disk) == Named(p.version + p.made, p.newLog.value, p.nextFile);
    }
  }

  /** The tables that somebody still needs: those of the current version and of the one being installed, of the input
      version of a merge, of every version that a reader holds, and the outputs of a merge in progress. */
  ghost predicate Needed(p: Process, n: nat)
    requires p.Running?
  {
    || n in p.version || n in TargetFiles(p) || (exists v :: v in p.pins && n in v)
    || (!p.merge.NoMerge? && (n in p.merge.base || n in p.merge.outputs))
  }

  /** DeleteObsoleteFiles removes nothing that a recovery, a reader or a merge needs. */
  lemma CollectionIsSafe(s: Store, a: Action)
    requires Reachable(s) && Enabled(s, a) && (a.DeleteTable? || a.DeleteLog? || a.DeleteManifest?)
    ensures s.disk.current in s.disk.manifests && s.disk.current in Apply(s, a).disk.manifests
    ensures var tables, tables' := s.disk.tables, Apply(s, a).disk.tables;
            forall n :: Needed(s.process, n) || n in CurrentNamed(s.disk).files
                        || (n in s.process.pendingOutputs && n in tables) ==>
              n in tables && n in tables' && tables'[n] == tables[n]
    ensures var logs, logs' := s.disk.logs, Apply(s, a).disk.logs;
            forall n :: n in logs && n >= CurrentNamed(s.disk).logNumber ==> n in logs' && logs'[n] == logs[n]
    ensures Recoverable(Apply(s, a).disk) == Recoverable(s.disk)
  {
    hide LogEntries, RecordEntries, TableEntries, TodoEntries, Replay, RecoveringOk, FlushOk, Run;
    ReachableInv(s);
    var d, d', p := s.disk, Apply(s, a).disk, s.process;
    TableEntriesFrame(d.tables, d'.tables, CurrentNamed(d).files);
    if a.DeleteLog? {
      OldLogsAreSpent(d.logs, a.number, p.logNumber);
    }
  }
}
