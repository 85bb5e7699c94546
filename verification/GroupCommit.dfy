/** The write queue: group commit in DBImpl::Write and DBImpl::BuildBatchGroup.  Readers and new writers may
    act between any two steps of the leader, which runs its logging and its memtable insertions unlocked. */
module GroupCommit {
  import opened Format
  import opened Visibility

  datatype Op = Op(user: UserKey, kind: Kind, value: Value)

  /** A queued Writer; a missing batch only waits for room.  `bytes` is the size of the batch. */
  datatype Writer = Writer(id: nat, batch: Option<seq<Op>>, sync: bool, bytes: nat)

  function Ops(w: Writer): seq<Op> {
    if w.batch.Some? then w.batch.value else []
  }

  function AllOps(ws: seq<Writer>): seq<Op> {
    if ws == [] then [] else AllOps(ws[..|ws| - 1]) + Ops(ws[|ws| - 1])
  }

  /** The bytes of the batches of queue[..n]. */
  function GroupBytes(queue: seq<Writer>, n: nat): nat
    requires n <= |queue|
  {
    if n == 0 then 0 else GroupBytes(queue, n - 1) + if queue[n - 1].batch.Some? then queue[n - 1].bytes else 0
  }

  function MaxBytes(first: Writer): nat {
    if first.bytes <= 0x20000 then first.bytes + 0x20000 else 0x100000
  }

  /** Writer i may ride with the leader. */
  predicate Joins(queue: seq<Writer>, i: nat)
    requires i < |queue|
  {
    && !(queue[i].sync && !queue[0].sync)
    && (queue[i].batch.Some? ==> GroupBytes(queue, i + 1) <= MaxBytes(queue[0]))
  }

  /** The group is the longest run behind the leader whose writers all may join. */
  ghost predicate IsGroup(queue: seq<Writer>, n: nat) {
    MayGroup(queue, n) && (n < |queue| ==> !Joins(queue, n))
  }

  ghost predicate MayGroup(queue: seq<Writer>, n: nat) {
    && 1 <= n <= |queue| && queue[0].batch.Some?
    && forall i :: 1 <= i < n ==> Joins(queue, i)
  }

  method BuildBatchGroup(queue: seq<Writer>) returns (n: nat, ops: seq<Op>)
    requires queue != [] && queue[0].batch.Some?
    ensures IsGroup(queue, n) && ops == AllOps(queue[..n])
    ensures !queue[0].sync ==> forall i :: 0 <= i < n ==> !queue[i].sync
  {
    hide AllOps, GroupBytes;
    var first := queue[0];
    ops := first.batch.value;
    var size := first.bytes;
    var maxSize := 1048576;
    if size <= 131072 {
      maxSize := size + 131072;
    }
    n := 1;
    OnlyLeader(queue);
    while n < |queue|
      invariant 1 <= n <= |queue| && size == GroupBytes(queue, n) && maxSize == MaxBytes(first)
      invariant ops == AllOps(queue[..n])
      invariant forall i :: 1 <= i < n ==> Joins(queue, i)
      invariant !first.sync ==> forall i :: 0 <= i < n ==> !queue[i].sync
    {
      var w := queue[n];
      if w.sync && !first.sync {
        break;
      }
      OneMoreWriter(queue, n);
      if w.batch.Some? {
        size := size + w.bytes;
        if size > maxSize {
          break;
        }
        ops := ops + w.batch.value;
      }
      n := n + 1;
    }
  }

  lemma OneMoreWriter(queue: seq<Writer>, n: nat)
    requires n < |queue|
    ensures AllOps(queue[..n + 1]) == AllOps(queue[..n]) + Ops(queue[n])
    ensures GroupBytes(queue, n + 1) == GroupBytes(queue, n) + if queue[n].batch.Some? then queue[n].bytes else 0
  {
    assert queue[..n + 1][..n] == queue[..n];
  }

  lemma OnlyLeader(queue: seq<Writer>)
    requires queue != [] && queue[0].batch.Some?
    ensures AllOps(queue[..1]) == queue[0].batch.value && GroupBytes(queue, 1) == queue[0].bytes
  {
    OneMoreWriter(queue, 0);
    assert queue[..0] == [];
  }

  // ----- the queue as a state machine -----

  /** How a write ended: in the memtable, with an error after its group got sequence numbers, or alone, without any. */
  datatype Outcome = Applied | Failed(logged: bool) | Returned

  /** A writer that returned: its operations got sequence numbers first, first + 1, ... unless it returned alone;
      `leaderSync` says whether its group was synced. */
  datatype Done = Done(writer: Writer, first: nat, outcome: Outcome, leaderSync: bool)

  function DoneOps(d: Done): seq<Op> {
    if d.outcome.Returned? then [] else Ops(d.writer)
  }

  datatype Phase = Waiting | Logging(n: nat) | Inserting(n: nat, inserted: nat)

  datatype State = State(queue: seq<Writer>, phase: Phase, lastSequence: nat, mem: set<Entry>,
                         log: seq<(nat, seq<Op>)>, arrived: seq<Writer>, done: seq<Done>, seen: set<nat>)

  datatype Action =
    | Enqueue(w: Writer)
    | StartGroup(n: nat)
    | PopLeader                    // no batch, or no room: the leader returns alone
    | LogGroup
    | FailGroup(logged: bool)      // the log write or its sync failed
    | InsertOne
    | CommitGroup
    | TakeReading                  // a reader or snapshot picks up LastSequence

  function EntryOf(first: nat, ops: seq<Op>, i: nat): Entry
    requires i < |ops|
  {
    Entry(ops[i].user, first + i, ops[i].kind, ops[i].value)
  }

  function Entries(first: nat, ops: seq<Op>): set<Entry> {
    set i | 0 <= i < |ops| :: EntryOf(first, ops, i)
  }

  function GroupOps(s: State): seq<Op> {
    if s.phase.Waiting? || s.phase.n > |s.queue| then [] else AllOps(s.queue[..s.phase.n])
  }

  ghost predicate Enabled(s: State, a: Action) {
    match a
    case Enqueue(w) => forall x :: x in s.arrived ==> x.id != w.id
    case StartGroup(n) => s.phase.Waiting? && IsGroup(s.queue, n)
    case PopLeader => s.phase.Waiting? && s.queue != []
    case LogGroup => s.phase.Logging?
    case FailGroup(_) => s.phase.Logging? && s.phase.n <= |s.queue|
    case InsertOne => s.phase.Inserting? && s.phase.inserted < |GroupOps(s)|
    case CommitGroup => s.phase.Inserting? && s.phase.inserted == |GroupOps(s)| && s.phase.n <= |s.queue|
    case TakeReading => true
  }

  /** The writers of a finished group, in queue order. */
  function Finish(ws: seq<Writer>, first: nat, outcome: Outcome, sync: bool): seq<Done> {
    if ws == [] then []
    else
      var rest := ws[..|ws| - 1];
      Finish(rest, first, outcome, sync) + [Done(ws[|ws| - 1], first + |AllOps(rest)|, outcome, sync)]
  }

  ghost function Apply(s: State, a: Action): State
    requires Enabled(s, a)
  {
    match a
    case Enqueue(w) => s.(queue := s.queue + [w], arrived := s.arrived + [w])
    case StartGroup(n) => s.(phase := Logging(n))
    case PopLeader =>
      s.(queue := s.queue[1..], done := s.done + [Done(s.queue[0], s.lastSequence + 1, Returned, s.queue[0].sync)])
    case LogGroup => s.(log := s.log + [(s.lastSequence + 1, GroupOps(s))], phase := Inserting(s.phase.n, 0))
    case FailGroup(logged) =>
      var n, ops := s.phase.n, GroupOps(s);
      s.(log := if logged then s.log + [(s.lastSequence + 1, ops)] else s.log,
         lastSequence := s.lastSequence + |ops|, queue := s.queue[n..], phase := Waiting,
         done := s.done + Finish(s.queue[..n], s.lastSequence + 1, Failed(logged), n > 0 && s.queue[0].sync))
    case InsertOne =>
      s.(mem := s.mem + {EntryOf(s.lastSequence + 1, GroupOps(s), s.phase.inserted)},
         phase := Inserting(s.phase.n, s.phase.inserted + 1))
    case CommitGroup =>
      var n, ops := s.phase.n, GroupOps(s);
      s.(lastSequence := s.lastSequence + |ops|, queue := s.queue[n..], phase := Waiting,
         done := s.done + Finish(s.queue[..n], s.lastSequence + 1, Applied, n > 0 && s.queue[0].sync))
    case TakeReading => s.(seen := s.seen + {s.lastSequence})
  }

  // ----- the invariant -----

  function Writers(ds: seq<Done>): seq<Writer> { seq(|ds|, i requires 0 <= i < |ds| => ds[i].writer) }

  /** Finished batches occupy consecutive sequence numbers, in order, up to `last`. */
  ghost predicate Consecutive(ds: seq<Done>, last: nat) {
    if ds == [] then last == 0
    else
      var d := ds[|ds| - 1];
      d.first == last + 1 - |DoneOps(d)| && |DoneOps(d)| <= last
          && Consecutive(ds[..|ds| - 1], last - |DoneOps(d)|)
  }

  /** The entries of the batches that ended in one of these ways. */
  ghost function EntriesOf(ds: seq<Done>, how: set<Outcome>): set<Entry> {
    set k, e | 0 <= k < |ds| && ds[k].outcome in how && e in Entries(ds[k].first, DoneOps(ds[k])) :: e
  }

  ghost function InFlight(s: State): set<Entry> {
    if s.phase.Inserting? && s.phase.inserted <= |GroupOps(s)|
        then Entries(s.lastSequence + 1, GroupOps(s)[..s.phase.inserted]) else {}
  }

  /** What a recovery replays. */
  ghost function Replayed(log: seq<(nat, seq<Op>)>): set<Entry> {
    set k, e | 0 <= k < |log| && e in Entries(log[k].0, log[k].1) :: e
  }

  ghost function LoggedNow(s: State): set<Entry> {
    if s.phase.Inserting? then Entries(s.lastSequence + 1, GroupOps(s)) else {}
  }

  /** No batch straddles a sequence number that a reader may have picked up. */
  ghost predicate Whole(d: Done, s: nat) {
    d.first + |DoneOps(d)| <= s + 1 || s < d.first
  }

  ghost predicate Inv(s: State) {
    && (!s.phase.Waiting? ==> MayGroup(s.queue, s.phase.n))
    && (s.phase.Inserting? ==> s.phase.inserted <= |GroupOps(s)|)
    && Writers(s.done) + s.queue == s.arrived
    && (forall i, j :: 0 <= i < j < |s.arrived| ==> s.arrived[i].id != s.arrived[j].id)
    && Consecutive(s.done, s.lastSequence)
    && s.mem == EntriesOf(s.done, {Applied}) + InFlight(s)
    && Replayed(s.log) == EntriesOf(s.done, {Applied, Failed(true)}) + LoggedNow(s)
    && (forall k :: 0 <= k < |s.done| ==> s.done[k].writer.sync ==> s.done[k].leaderSync)
    && (forall x :: x in s.seen ==> x <= s.lastSequence && forall k :: 0 <= k < |s.done| ==> Whole(s.done[k], x))
  }

  // ----- finishing a group -----

  lemma EntriesConcat(first: nat, a: seq<Op>, b: seq<Op>)
    ensures Entries(first, a + b) == Entries(first, a) + Entries(first + |a|, b)
  {
    forall e | e in Entries(first, a) + Entries(first + |a|, b) ensures e in Entries(first, a + b) {
      if e in Entries(first, a) {
        var i :| 0 <= i < |a| && e == EntryOf(first, a, i);
        assert e == EntryOf(first, a + b, i);
      } else {
        var i :| 0 <= i < |b| && e == EntryOf(first + |a|, b, i);
        assert e == EntryOf(first, a + b, |a| + i);
      }
    }
    forall e | e in Entries(first, a + b) ensures e in Entries(first, a) + Entries(first + |a|, b) {
      var i :| 0 <= i < |a + b| && e == EntryOf(first, a + b, i);
      if i < |a| {
        assert e == EntryOf(first, a, i);
      } else {
        assert e == EntryOf(first + |a|, b, i - |a|);
      }
    }
  }

  lemma EntriesOfAppend(ds: seq<Done>, d: Done, how: set<Outcome>)
    ensures EntriesOf(ds + [d], how) == EntriesOf(ds, how) + if d.outcome in how then Entries(d.first, DoneOps(d))
            else {}
  {
    var all := ds + [d];
    forall e | e in EntriesOf(ds, how) ensures e in EntriesOf(all, how) {
      var k :| 0 <= k < |ds| && ds[k].outcome in how && e in Entries(ds[k].first, DoneOps(ds[k]));
      assert all[k] == ds[k];
    }
    if d.outcome in how {
      assert all[|ds|] == d;
    }
    forall e | e in EntriesOf(all, how) && e !in EntriesOf(ds, how)
      ensures d.outcome in how && e in Entries(d.first, DoneOps(d)) {
      var k :| 0 <= k < |all| && all[k].outcome in how && e in Entries(all[k].first, DoneOps(all[k]));
      assert k < |ds| ==> all[k] == ds[k];
    }
  }

  lemma ReplayedAppend(log: seq<(nat, seq<Op>)>, first: nat, ops: seq<Op>)
    ensures Replayed(log + [(first, ops)]) == Replayed(log) + Entries(first, ops)
  {
    var all := log + [(first, ops)];
    forall e | e in Replayed(log) ensures e in Replayed(all) {
      var k :| 0 <= k < |log| && e in Entries(log[k].0, log[k].1);
      assert all[k] == log[k];
    }
    assert all[|log|] == (first, ops);
    forall e | e in Replayed(all) && e !in Replayed(log) ensures e in Entries(first, ops) {
      var k :| 0 <= k < |all| && e in Entries(all[k].0, all[k].1);
      assert k < |log| ==> all[k] == log[k];
    }
  }

  lemma ConsecutiveAppend(ds: seq<Done>, d: Done, last: nat)
    requires Consecutive(ds, last) && d.first == last + 1
    ensures Consecutive(ds + [d], last + |DoneOps(d)|)
  {
    assert (ds + [d])[..|ds|] == ds;
  }

  /** Who finishes with the group, and how. */
  lemma {:induction false} FinishShape(ws: seq<Writer>, first: nat, outcome: Outcome, sync: bool)
    ensures var fs := Finish(ws, first, outcome, sync);
            && |fs| == |ws|
            && (forall k :: 0 <= k < |fs| ==> fs[k].writer == ws[k])
            && (forall k :: 0 <= k < |fs| ==>
               fs[k].first >= first && fs[k].leaderSync == sync && fs[k].outcome == outcome)
  {
    if ws != [] {
      FinishShape(ws[..|ws| - 1], first, outcome, sync);
    }
  }

  lemma NoEntries(first: nat)
    ensures Entries(first, []) == {}
  {
  }

  /** Finishing one more writer of the group. */
  lemma FinishLast(ds: seq<Done>, ws: seq<Writer>, first: nat, outcome: Outcome, sync: bool)
    requires ws != []
    ensures var rest, w := ws[..|ws| - 1], ws[|ws| - 1];
            && ds + Finish(ws, first, outcome, sync)
               == (ds + Finish(rest, first, outcome, sync)) + [Done(w, first + |AllOps(rest)|, outcome, sync)]
            && AllOps(ws) == AllOps(rest) + Ops(w)
  {
  }

  lemma {:induction false} FinishConsecutive(ds: seq<Done>, ws: seq<Writer>, last: nat, outcome: Outcome, sync: bool)
    requires Consecutive(ds, last) && !outcome.Returned?
    ensures Consecutive(ds + Finish(ws, last + 1, outcome, sync), last + |AllOps(ws)|)
  {
    hide Consecutive;
    if ws == [] {
      assert ds + [] == ds;
    } else {
      hide Finish, AllOps;
      var rest, w := ws[..|ws| - 1], ws[|ws| - 1];
      FinishConsecutive(ds, rest, last, outcome, sync);
      FinishLast(ds, ws, last + 1, outcome, sync);
      ConsecutiveAppend(ds + Finish(rest, last + 1, outcome, sync), Done(w, last + 1 + |AllOps(rest)|, outcome, sync),
          last + |AllOps(rest)|);
    }
  }

  lemma {:induction false} FinishEntries(ds: seq<Done>, ws: seq<Writer>, first: nat, outcome: Outcome, sync: bool,
                                         how: set<Outcome>)
    requires !outcome.Returned?
    ensures EntriesOf(ds + Finish(ws, first, outcome, sync), how) ==
            EntriesOf(ds, how) + (if outcome in how then Entries(first, AllOps(ws)) else {})
  {
    hide EntriesOf, Entries;
    if ws == [] {
      assert ds + [] == ds;
      NoEntries(first);
    } else {
      hide Finish, AllOps;
      var rest, w := ws[..|ws| - 1], ws[|ws| - 1];
      FinishEntries(ds, rest, first, outcome, sync, how);
      FinishLast(ds, ws, first, outcome, sync);
      EntriesOfAppend(ds + Finish(rest, first, outcome, sync), Done(w, first + |AllOps(rest)|, outcome, sync), how);
      EntriesConcat(first, AllOps(rest), Ops(w));
    }
  }

  // ----- each step keeps the invariant -----

  lemma EnqueueKeepsInv(s: State, a: Action)
    requires Inv(s) && a.Enqueue? && Enabled(s, a)
    ensures Inv(Apply(s, a))
  {
    hide EntriesOf, Replayed, Consecutive, Entries, Writers, Whole;
    var q := s.queue + [a.w];
    assert Writers(s.done) + q == (Writers(s.done) + s.queue) + [a.w];
    assert forall x :: 0 <= x < |s.arrived| ==> s.arrived[x] in s.arrived;
    if !s.phase.Waiting? {
      assert q[..s.phase.n] == s.queue[..s.phase.n];
      forall i: nat | 1 <= i < s.phase.n ensures Joins(q, i) {
        GroupBytesPrefix(s.queue, a.w, i + 1);
        assert Joins(s.queue, i) && q[i] == s.queue[i] && q[0] == s.queue[0];
      }
    }
  }

  lemma {:induction false} GroupBytesPrefix(queue: seq<Writer>, w: Writer, n: nat)
    requires n <= |queue|
    ensures GroupBytes(queue + [w], n) == GroupBytes(queue, n)
  {
    if n > 0 {
      GroupBytesPrefix(queue, w, n - 1);
    }
  }

  lemma PopLeaderKeepsInv(s: State)
    requires Inv(s) && Enabled(s, PopLeader)
    ensures Inv(Apply(s, PopLeader))
  {
    hide EntriesOf, Replayed, Consecutive, Writers, Entries;
    var d := Done(s.queue[0], s.lastSequence + 1, Returned, s.queue[0].sync);
    EntriesOfAppend(s.done, d, {Applied});
    EntriesOfAppend(s.done, d, {Applied, Failed(true)});
    ConsecutiveAppend(s.done, d, s.lastSequence);
    FinishKeepsWriters(s, [d]);
    FinishStaysWhole(s, [d]);
  }

  /** Finishing keeps every reading whole: the new batches lie beyond all sequence numbers picked up so far. */
  lemma FinishStaysWhole(s: State, fs: seq<Done>)
    requires Inv(s) && forall k :: 0 <= k < |fs| ==> fs[k].first > s.lastSequence
    ensures forall x :: x in s.seen ==> forall k :: 0 <= k < |s.done + fs| ==> Whole((s.done + fs)[k], x)
  {
    hide Consecutive, EntriesOf, Replayed, InFlight, LoggedNow, Writers, MayGroup;
  }

  lemma FinishKeepsSync(s: State, fs: seq<Done>)
    requires Inv(s) && !s.phase.Waiting? && |fs| == s.phase.n
    requires forall k :: 0 <= k < |fs| ==> fs[k].writer == s.queue[k] && fs[k].leaderSync == s.queue[0].sync
    ensures forall k :: 0 <= k < |s.done + fs| ==> (s.done + fs)[k].writer.sync ==> (s.done + fs)[k].leaderSync
  {
    hide Consecutive, EntriesOf, Replayed, InFlight, LoggedNow, Writers;
    forall k: nat | k < |fs| && fs[k].writer.sync ensures fs[k].leaderSync {
      assert k > 0 ==> Joins(s.queue, k);
    }
  }

  lemma FinishKeepsWriters(s: State, fs: seq<Done>)
    requires Inv(s) && |fs| <= |s.queue| && forall k :: 0 <= k < |fs| ==> fs[k].writer == s.queue[k]
    ensures Writers(s.done + fs) + s.queue[|fs|..] == s.arrived
  {
    hide Consecutive, EntriesOf, Replayed, InFlight, LoggedNow, MayGroup;
    assert Writers(s.done + fs) == Writers(s.done) + Writers(fs) && Writers(fs) == s.queue[..|fs|];
    assert s.queue == s.queue[..|fs|] + s.queue[|fs|..];
  }

  lemma FinishKeepsInv(s: State, a: Action)
    requires Inv(s) && (a.CommitGroup? || a.FailGroup?) && Enabled(s, a)
    ensures Inv(Apply(s, a))
  {
    hide Finish, EntriesOf, Replayed, Consecutive, Entries, AllOps, Writers, Whole;
    var n, ops, outcome := s.phase.n, GroupOps(s), if a.CommitGroup? then Applied else Failed(a.logged);
    var ws, sync := s.queue[..n], s.queue[0].sync;
    var fs := Finish(ws, s.lastSequence + 1, outcome, sync);
    FinishConsecutive(s.done, ws, s.lastSequence, outcome, sync);
    FinishEntries(s.done, ws, s.lastSequence + 1, outcome, sync, {Applied});
    FinishEntries(s.done, ws, s.lastSequence + 1, outcome, sync, {Applied, Failed(true)});
    FinishShape(ws, s.lastSequence + 1, outcome, sync);
    FinishKeepsWriters(s, fs);
    FinishStaysWhole(s, fs);
    FinishKeepsSync(s, fs);
    ReplayedAppend(s.log, s.lastSequence + 1, ops);
    if a.CommitGroup? {
      assert ops[..s.phase.inserted] == ops;
    }
  }

  lemma LogKeepsInv(s: State)
    requires Inv(s) && Enabled(s, LogGroup)
    ensures Inv(Apply(s, LogGroup))
  {
    hide EntriesOf, Replayed, Consecutive, Entries, AllOps, Writers, Whole;
    ReplayedAppend(s.log, s.lastSequence + 1, GroupOps(s));
    NoEntries(s.lastSequence + 1);
    assert GroupOps(s)[..0] == [];
  }

  lemma OneMoreEntry(first: nat, ops: seq<Op>, k: nat)
    requires k < |ops|
    ensures Entries(first, ops[..k + 1]) == Entries(first, ops[..k]) + {EntryOf(first, ops, k)}
  {
    assert ops[..k + 1] == ops[..k] + [ops[k]];
    EntriesConcat(first, ops[..k], [ops[k]]);
    assert EntryOf(first + k, [ops[k]], 0) == EntryOf(first, ops, k);
  }

  lemma InsertKeepsInv(s: State)
    requires Inv(s) && Enabled(s, InsertOne)
    ensures Inv(Apply(s, InsertOne))
    ensures var i := s.phase.inserted;
            var op := GroupOps(s)[i];
            Apply(s, InsertOne).mem == s.mem + {Entry(op.user, s.lastSequence + 1 + i, op.kind, op.value)}
  {
    hide EntriesOf, Replayed, Consecutive, Entries, AllOps, Writers, Whole, MayGroup;
    OneMoreEntry(s.lastSequence + 1, GroupOps(s), s.phase.inserted);
  }

  lemma StartKeepsInv(s: State, a: Action)
    requires Inv(s) && a.StartGroup? && Enabled(s, a)
    ensures Inv(Apply(s, a))
  {
    hide EntriesOf, Replayed, Consecutive, Entries, AllOps, Writers, Whole;
  }

  lemma StepKeepsInv(s: State, a: Action)
    requires Inv(s) && Enabled(s, a)
    ensures Inv(Apply(s, a))
  {
    hide Inv, Enabled;
    match a
    case Enqueue(_) => EnqueueKeepsInv(s, a);
    case StartGroup(_) => StartKeepsInv(s, a);
    case PopLeader => PopLeaderKeepsInv(s);
    case LogGroup => LogKeepsInv(s);
    case FailGroup(_) => FinishKeepsInv(s, a);
    case InsertOne => InsertKeepsInv(s);
    case CommitGroup => FinishKeepsInv(s, a);
    case TakeReading => ReadingKeepsInv(s);
  }

  lemma {:induction false} ConsecutiveBounds(ds: seq<Done>, last: nat, k: nat)
    requires Consecutive(ds, last) && k < |ds|
    ensures ds[k].first + |DoneOps(ds[k])| <= last + 1 && ds[k].first >= 1
    decreases |ds|
  {
    var d := ds[|ds| - 1];
    if k < |ds| - 1 {
      ConsecutiveBounds(ds[..|ds| - 1], last - |DoneOps(d)|, k);
    }
  }

  lemma ReadingKeepsInv(s: State)
    requires Inv(s)
    ensures Inv(Apply(s, TakeReading))
  {
    hide EntriesOf, Replayed, Consecutive, Entries, AllOps, Writers, MayGroup;
    forall k | 0 <= k < |s.done| ensures Whole(s.done[k], s.lastSequence) {
      ConsecutiveBounds(s.done, s.lastSequence, k);
    }
  }

  // ----- whole runs -----

  ghost function Init(): State {
    State([], Waiting, 0, {}, [], [], [], {})
  }

  ghost function Run(s: State, actions: seq<Action>): Option<State>
    decreases |actions|
  {
    if actions == [] then Some(s)
    else if Enabled(s, actions[0]) then Run(Apply(s, actions[0]), actions[1..])
    else None
  }

  lemma {:induction false} RunKeepsInv(s: State, actions: seq<Action>)
    requires Inv(s) && Run(s, actions).Some?
    ensures Inv(Run(s, actions).value)
    decreases |actions|
  {
    hide Inv, Enabled, Apply;
    if actions != [] {
      StepKeepsInv(s, actions[0]);
      RunKeepsInv(Apply(s, actions[0]), actions[1..]);
    }
  }

  ghost predicate Reachable(s: State) {
    exists actions :: Run(Init(), actions) == Some(s)
  }

  lemma ReachableInv(s: State)
    requires Reachable(s)
    ensures Inv(s)
  {
    assert Inv(Init());
    hide Inv, Enabled, Apply;
    var actions :| Run(Init(), actions) == Some(s);
    RunKeepsInv(Init(), actions);
  }

  lemma BatchIs(first: nat, ops: seq<Op>)
    ensures Entries(first, ops)
            == set i | 0 <= i < |ops| :: Entry(ops[i].user, first + i, ops[i].kind, ops[i].value)
  {
    var batch := set i | 0 <= i < |ops| :: Entry(ops[i].user, first + i, ops[i].kind, ops[i].value);
    forall e | e in batch ensures e in Entries(first, ops) {
      var i :| 0 <= i < |ops| && e == Entry(ops[i].user, first + i, ops[i].kind, ops[i].value);
      assert e == EntryOf(first, ops, i);
    }
    forall e | e in Entries(first, ops) ensures e in batch {
      var i :| 0 <= i < |ops| && e == EntryOf(first, ops, i);
      assert e == Entry(ops[i].user, first + i, ops[i].kind, ops[i].value);
    }
  }

  /** A reader at sequence number x that was picked up before sees, of each batch, all entries or none, no matter
      how far the leader has got with inserting a group. */
  lemma AllOrNone(s: State, k: nat, x: nat)
    requires Reachable(s) && k < |s.done| && x in s.seen
    ensures var d := s.done[k];
            var ops := DoneOps(d);
            var batch := set i | 0 <= i < |ops| :: Entry(ops[i].user, d.first + i, ops[i].kind, ops[i].value);
            var read := set e | e in s.mem && e.sn <= x;
            if d.outcome.Applied? && (d.first <= x || batch == {}) then batch <= read else batch !! read
  {
    ReachableInv(s);
    var d := s.done[k];
    var ops := DoneOps(d);
    var batch := set i | 0 <= i < |ops| :: Entry(ops[i].user, d.first + i, ops[i].kind, ops[i].value);
    BatchIs(d.first, ops);
    assert Whole(d, x);
    if d.outcome.Applied? {
      assert batch <= EntriesOf(s.done, {Applied});
    } else {
      forall e | e in batch ensures e !in s.mem {
        UnappliedIsAbsent(s, k, e);
      }
    }
  }

  /** A reader sees nothing of a group that is still being inserted. */
  lemma InFlightIsHidden(s: State, x: nat, e: Entry)
    requires Reachable(s) && x in s.seen && e in s.mem && e.sn <= x
    ensures exists k :: && 0 <= k < |s.done| && s.done[k].outcome.Applied?
                        && e in Entries(s.done[k].first, DoneOps(s.done[k]))
  {
    ReachableInv(s);
    assert e !in InFlight(s);
  }

  /** Entries of different batches have different sequence numbers. */
  lemma {:induction false} ConsecutiveDisjoint(ds: seq<Done>, last: nat, j: nat, k: nat)
    requires Consecutive(ds, last) && j < k < |ds|
    ensures ds[j].first + |DoneOps(ds[j])| <= ds[k].first
    decreases |ds|
  {
    var d := ds[|ds| - 1];
    var rest := ds[..|ds| - 1];
    if k == |ds| - 1 {
      ConsecutiveBounds(rest, last - |DoneOps(d)|, j);
    } else {
      ConsecutiveDisjoint(rest, last - |DoneOps(d)|, j, k);
    }
  }

  lemma UnappliedIsAbsent(s: State, k: nat, e: Entry)
    requires Inv(s) && k < |s.done| && !s.done[k].outcome.Applied? && e in Entries(s.done[k].first, DoneOps(s.done[k]))
    ensures e !in s.mem
  {
    ConsecutiveBounds(s.done, s.lastSequence, k);
    if e in EntriesOf(s.done, {Applied}) {
      var j :| 0 <= j < |s.done| && s.done[j].outcome in {Applied} && e in Entries(s.done[j].first, DoneOps(s.done[j]));
      if j < k {
        ConsecutiveDisjoint(s.done, s.lastSequence, j, k);
      } else {
        ConsecutiveDisjoint(s.done, s.lastSequence, k, j);
      }
    }
  }

  /** Batches finish in arrival order, each exactly once, with consecutive sequence numbers from 1 to LastSequence;
      a sync write never rode with a leader that did not sync. */
  lemma FinishedInOrder(s: State)
    requires Reachable(s)
    ensures Writers(s.done) + s.queue == s.arrived && Consecutive(s.done, s.lastSequence)
    ensures forall j, k :: 0 <= j < k < |s.done| ==>
              s.done[j].writer.id != s.done[k].writer.id && s.done[j].first + |DoneOps(s.done[j])| <= s.done[k].first
    ensures forall k :: 0 <= k < |s.done| && s.done[k].writer.sync ==> s.done[k].leaderSync
  {
    hide Reachable;
    ReachableInv(s);
    forall j, k | 0 <= j < k < |s.done|
      ensures s.done[j].writer.id != s.done[k].writer.id && s.done[j].first + |DoneOps(s.done[j])| <= s.done[k].first
    {
      ConsecutiveDisjoint(s.done, s.lastSequence, j, k);
      assert s.arrived[j] == s.done[j].writer && s.arrived[k] == s.done[k].writer;
    }
  }

  // ----- what the memtable and the log hold, from the operations -----

  /** `e` is operation i of the batch of `d`, at the sequence number it got. */
  ghost predicate Wrote(d: Done, i: nat, e: Entry) {
    && d.writer.batch.Some? && i < |d.writer.batch.value|
    && e == Entry(d.writer.batch.value[i].user, d.first + i, d.writer.batch.value[i].kind,
       d.writer.batch.value[i].value)
  }

  /** Some batch that ended in one of these ways wrote `e`. */
  ghost predicate WrittenBy(ds: seq<Done>, how: set<Outcome>, e: Entry) {
    exists k, i: nat :: 0 <= k < |ds| && ds[k].outcome in how && Wrote(ds[k], i, e)
  }

  /** `e` is among the first n operations of a group whose first sequence number is `first`. */
  ghost predicate Among(ops: seq<Op>, first: nat, n: nat, e: Entry) {
    exists i: nat :: i < |ops| && i < n && e == Entry(ops[i].user, first + i, ops[i].kind, ops[i].value)
  }

  lemma EntriesAre(first: nat, ops: seq<Op>, n: nat, e: Entry)
    requires n <= |ops|
    ensures e in Entries(first, ops[..n]) <==> Among(ops, first, n, e)
  {
    if e in Entries(first, ops[..n]) {
      var i :| 0 <= i < n && e == EntryOf(first, ops[..n], i);
      assert e == Entry(ops[i].user, first + i, ops[i].kind, ops[i].value);
    }
    if Among(ops, first, n, e) {
      var i: nat :| i < |ops| && i < n && e == Entry(ops[i].user, first + i, ops[i].kind, ops[i].value);
      assert e == EntryOf(first, ops[..n], i);
    }
  }

  lemma EntriesOfAre(ds: seq<Done>, how: set<Outcome>, e: Entry)
    requires Returned !in how
    ensures e in EntriesOf(ds, how) <==> WrittenBy(ds, how, e)
  {
    if e in EntriesOf(ds, how) {
      var k :| 0 <= k < |ds| && ds[k].outcome in how && e in Entries(ds[k].first, DoneOps(ds[k]));
      var i :| 0 <= i < |DoneOps(ds[k])| && e == EntryOf(ds[k].first, DoneOps(ds[k]), i);
      assert Wrote(ds[k], i, e);
    }
    if WrittenBy(ds, how, e) {
      var k, i: nat :| 0 <= k < |ds| && ds[k].outcome in how && Wrote(ds[k], i, e);
      assert e == EntryOf(ds[k].first, DoneOps(ds[k]), i);
      assert e in Entries(ds[k].first, DoneOps(ds[k]));
    }
  }

  lemma InvHolds(s: State)
    requires Inv(s)
    ensures s.mem == EntriesOf(s.done, {Applied}) + InFlight(s)
    ensures Replayed(s.log) == EntriesOf(s.done, {Applied, Failed(true)}) + LoggedNow(s)
    ensures s.phase.Inserting? ==> s.phase.n <= |s.queue| && s.phase.inserted <= |GroupOps(s)|
    ensures Consecutive(s.done, s.lastSequence)
  {
  }

  /** The memtable holds the operations of the applied batches, each at its batch's first sequence number plus its
      place, those of the group being inserted that the leader has got to, and nothing else. */
  lemma MemtableIs(s: State, e: Entry)
    requires Reachable(s)
    ensures e in s.mem <==>
            || WrittenBy(s.done, {Applied}, e)
            || (s.phase.Inserting? && Among(AllOps(s.queue), s.lastSequence + 1, s.phase.inserted, e))
  {
    hide Reachable, Inv, EntriesOf, Replayed, Entries, AllOps, Among, WrittenBy;
    ReachableInv(s);
    InvHolds(s);
    EntriesOfAre(s.done, {Applied}, e);
    if s.phase.Inserting? {
      AllOpsPrefix(s.queue, s.phase.n);
      EntriesAre(s.lastSequence + 1, GroupOps(s), s.phase.inserted, e);
      AmongPrefix(GroupOps(s), AllOps(s.queue), s.lastSequence + 1, s.phase.inserted, e);
    }
  }

  lemma AmongPrefix(a: seq<Op>, b: seq<Op>, first: nat, n: nat, e: Entry)
    requires a <= b && n <= |a|
    ensures Among(a, first, n, e) <==> Among(b, first, n, e)
  {
  }

  lemma {:induction false} AllOpsPrefix(ws: seq<Writer>, n: nat)
    requires n <= |ws|
    ensures AllOps(ws[..n]) <= AllOps(ws)
    decreases |ws|
  {
    if n < |ws| {
      AllOpsPrefix(ws[..|ws| - 1], n);
      assert ws[..|ws| - 1][..n] == ws[..n];
    } else {
      assert ws[..n] == ws;
    }
  }

  /** The log, replayed from the sequence numbers it records, gives what is in the memtable, the rest of the group being
      inserted, the batches whose group failed only after it was logged, and nothing else. */
  lemma LogReplays(s: State, e: Entry)
    requires Reachable(s)
    ensures (exists k :: 0 <= k < |s.log| && Among(s.log[k].1, s.log[k].0, |s.log[k].1|, e)) <==>
            || e in s.mem || WrittenBy(s.done, {Failed(true)}, e)
            || (s.phase.Inserting? && Among(GroupOps(s), s.lastSequence + 1, |GroupOps(s)|, e))
  {
    hide Reachable, Inv, EntriesOf, Replayed, Entries, AllOps, Among, WrittenBy;
    ReachableInv(s);
    InvHolds(s);
    ReplayedAre(s.log, e);
    EntriesOfAre(s.done, {Applied}, e);
    EntriesOfAre(s.done, {Applied, Failed(true)}, e);
    LoggedAre(s.done, e);
    if s.phase.Inserting? {
      var ops := GroupOps(s);
      assert ops[..|ops|] == ops;
      EntriesAre(s.lastSequence + 1, ops, |ops|, e);
      EntriesAre(s.lastSequence + 1, ops, s.phase.inserted, e);
      if Among(ops, s.lastSequence + 1, s.phase.inserted, e) {
        AmongMore(ops, s.lastSequence + 1, s.phase.inserted, e);
      }
    }
  }

  lemma LoggedAre(ds: seq<Done>, e: Entry)
    ensures WrittenBy(ds, {Applied, Failed(true)}, e)
            <==> WrittenBy(ds, {Applied}, e) || WrittenBy(ds, {Failed(true)}, e)
  {
    if WrittenBy(ds, {Applied, Failed(true)}, e) {
      var k, i: nat :| 0 <= k < |ds| && ds[k].outcome in {Applied, Failed(true)} && Wrote(ds[k], i, e);
      assert ds[k].outcome in {Applied} || ds[k].outcome in {Failed(true)};
    }
  }

  lemma ReplayedAre(log: seq<(nat, seq<Op>)>, e: Entry)
    ensures e in Replayed(log) <==> exists k :: 0 <= k < |log| && Among(log[k].1, log[k].0, |log[k].1|, e)
  {
    hide Among, Entries;
    forall k | 0 <= k < |log|
      ensures Among(log[k].1, log[k].0, |log[k].1|, e) <==> e in Entries(log[k].0, log[k].1) {
      assert log[k].1[..|log[k].1|] == log[k].1;
      EntriesAre(log[k].0, log[k].1, |log[k].1|, e);
    }
  }

  lemma AmongMore(ops: seq<Op>, first: nat, n: nat, e: Entry)
    requires n <= |ops| && Among(ops, first, n, e)
    ensures Among(ops, first, |ops|, e)
  {
  }

  // ----- what a reader sees -----

  /** The operations of the applied batches, in the order in which the batches arrived. */
  ghost function AppliedOps(ds: seq<Done>): seq<Op> {
    if ds == [] then []
    else
      var d := ds[|ds| - 1];
      AppliedOps(ds[..|ds| - 1])
      + if d.outcome.Applied? && d.writer.batch.Some? then d.writer.batch.value else []
  }

  /** What the last operation on u leaves. */
  ghost function LastOn(ops: seq<Op>, u: UserKey): Option<Value> {
    if ops == [] then None
    else
      var op := ops[|ops| - 1];
      if op.user != u then LastOn(ops[..|ops| - 1], u) else if op.kind.Put? then Some(op.value) else None
  }

  /** Inserting a batch into what is there. */
  lemma {:induction false} BatchShows(es: set<Entry>, before: seq<Op>, last: nat, ops: seq<Op>, n: nat, u: UserKey)
    requires Through(es, last) && Visible(es, u, last) == LastOn(before, u) && n <= |ops|
    ensures var all := es + Entries(last + 1, ops[..n]);
            Through(all, last + n) && Visible(all, u, last + n) == LastOn(before + ops[..n], u)
  {
    hide Visible, Through, Entries;
    if n == 0 {
      assert ops[..0] == [] && before + [] == before;
      NoEntries(last + 1);
      assert es + {} == es;
    } else {
      BatchShows(es, before, last, ops, n - 1, u);
      OneMoreEntry(last + 1, ops, n - 1);
      var upto, e := es + Entries(last + 1, ops[..n - 1]), EntryOf(last + 1, ops, n - 1);
      assert es + Entries(last + 1, ops[..n]) == upto + {e};
      assert (before + ops[..n])[..|before| + n - 1] == before + ops[..n - 1];
      VisibleAfterWrite(upto, last + n - 1, e, u);
    }
  }

  lemma ConsecutiveLast(ds: seq<Done>, last: nat)
    requires Consecutive(ds, last) && ds != []
    ensures var d := ds[|ds| - 1];
            d.first == last - |DoneOps(d)| + 1 && |DoneOps(d)| <= last
                && Consecutive(ds[..|ds| - 1], last - |DoneOps(d)|)
  {
  }

  lemma AppliedOpsLast(rest: seq<Done>, d: Done)
    ensures AppliedOps(rest + [d]) == AppliedOps(rest) + if d.outcome.Applied? then DoneOps(d) else []
  {
    assert (rest + [d])[..|rest|] == rest;
  }

  lemma OneMoreShows(rest: seq<Done>, d: Done, last: nat, u: UserKey)
    requires d.first == last + 1
    requires var es := EntriesOf(rest, {Applied});
             Through(es, last) && Visible(es, u, last) == LastOn(AppliedOps(rest), u)
    ensures var es := EntriesOf(rest + [d], {Applied});
            && Through(es, last + |DoneOps(d)|)
            && Visible(es, u, last + |DoneOps(d)|) == LastOn(AppliedOps(rest + [d]), u)
  {
    hide Visible, Through, EntriesOf, Entries, LastOn, AppliedOps, DoneOps;
    var ops, es := DoneOps(d), EntriesOf(rest, {Applied});
    EntriesOfAppend(rest, d, {Applied});
    AppliedOpsLast(rest, d);
    if d.outcome.Applied? {
      assert ops[..|ops|] == ops;
      BatchShows(es, AppliedOps(rest), last, ops, |ops|, u);
    } else {
      assert es + {} == es && AppliedOps(rest) + [] == AppliedOps(rest);
      VisibleBeyond(es, last, last + |ops|, u);
    }
  }

  lemma {:induction false} DoneShows(ds: seq<Done>, last: nat, u: UserKey)
    requires Consecutive(ds, last)
    ensures var es := EntriesOf(ds, {Applied});
            Through(es, last) && Visible(es, u, last) == LastOn(AppliedOps(ds), u)
    decreases |ds|
  {
    hide Visible, Consecutive, Through, EntriesOf, LastOn, AppliedOps, DoneOps;
    if ds == [] {
      NothingDoneShows(last, u);
    } else {
      var rest, d := ds[..|ds| - 1], ds[|ds| - 1];
      ConsecutiveLast(ds, last);
      DoneShows(rest, last - |DoneOps(d)|, u);
      assert ds == rest + [d];
      OneMoreShows(rest, d, last - |DoneOps(d)|, u);
    }
  }

  lemma NothingDoneShows(last: nat, u: UserKey)
    ensures var es := EntriesOf([], {Applied});
            Through(es, last) && Visible(es, u, last) == LastOn(AppliedOps([]), u)
  {
    assert EntriesOf([], {Applied}) == {};
  }

  /** In every state a reader at LastSequence sees, of each key, the last operation on it in the batches applied so far,
      in arrival order, even while the next group is half inserted. */
  lemma ShowsLastOp(s: State, u: UserKey)
    requires Reachable(s)
    ensures Visible(s.mem, u, s.lastSequence) == LastOn(AppliedOps(s.done), u)
  {
    hide Reachable, Inv, Visible, LastOn, AppliedOps, EntriesOf, Consecutive;
    ReachableInv(s);
    InvHolds(s);
    DoneShows(s.done, s.lastSequence, u);
    assert SameUpTo(EntriesOf(s.done, {Applied}), s.mem, s.lastSequence);
    SameReading(EntriesOf(s.done, {Applied}), s.mem, u, s.lastSequence);
  }
}
