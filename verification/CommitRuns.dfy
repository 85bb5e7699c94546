/** Whole runs of the write queue: who is queued, which readings are taken, and that every queued writer can finish. */
module CommitRuns {
  import opened Format
  import opened GroupCommit

  // ----- runs -----

  lemma {:induction false} RunThen(s: State, first: seq<Action>, then_: seq<Action>)
    requires Run(s, first).Some?
    ensures Run(s, first + then_) == Run(Run(s, first).value, then_)
    decreases |first|
  {
    hide Enabled, Apply;
    if first == [] {
      assert first + then_ == then_;
    } else {
      assert (first + then_)[1..] == first[1..] + then_;
      RunThen(Apply(s, first[0]), first[1..], then_);
    }
  }

  lemma RunOne(s: State, a: Action)
    requires Enabled(s, a)
    ensures Run(s, [a]) == Some(Apply(s, a))
  {
    assert [a][1..] == [];
    assert Run(Apply(s, a), []) == Some(Apply(s, a));
  }

  /** The writers that called Write, in the order of their calls. */
  ghost function Called(actions: seq<Action>): seq<Writer> {
    if actions == [] then []
    else (if actions[0].Enqueue? then [actions[0].w] else []) + Called(actions[1..])
  }

  lemma StepArrives(s: State, a: Action)
    requires Enabled(s, a)
    ensures Apply(s, a).arrived == s.arrived + if a.Enqueue? then [a.w] else []
  {
  }

  lemma {:induction false} RunArrives(s: State, actions: seq<Action>)
    requires Run(s, actions).Some?
    ensures Run(s, actions).value.arrived == s.arrived + Called(actions)
    decreases |actions|
  {
    hide Enabled, Apply;
    if actions != [] {
      var a, rest := actions[0], actions[1..];
      StepArrives(s, a);
      RunArrives(Apply(s, a), rest);
      Assoc(s.arrived, if a.Enqueue? then [a.w] else [], Called(rest));
    }
  }

  lemma Assoc(a: seq<Writer>, b: seq<Writer>, c: seq<Writer>)
    ensures (a + b) + c == a + (b + c)
  {
  }

  /** A caller joins the end of the queue, whatever the leader is doing. */
  lemma CallJoins(s: State, w: Writer)
    requires forall x :: x in s.arrived ==> x.id != w.id
    ensures Enabled(s, Enqueue(w)) && Apply(s, Enqueue(w)).queue == s.queue + [w]
  {
  }

  /** Every writer that called Write has returned, in the order of the calls, or waits in the queue, in that order. */
  lemma CallersAreServedInOrder(actions: seq<Action>)
    requires Run(Init(), actions).Some?
    ensures var s := Run(Init(), actions).value; Writers(s.done) + s.queue == Called(actions)
  {
    hide Run, Called;
    RunArrives(Init(), actions);
    assert Reachable(Run(Init(), actions).value);
    FinishedInOrder(Run(Init(), actions).value);
  }

  lemma {:induction false} RunKeepsReadings(s: State, actions: seq<Action>)
    requires Run(s, actions).Some?
    ensures s.seen <= Run(s, actions).value.seen
    decreases |actions|
  {
    hide Enabled;
    if actions != [] {
      RunKeepsReadings(Apply(s, actions[0]), actions[1..]);
    }
  }

  /** A sequence number that was once picked up stays readable for the rest of the run. */
  lemma ReadingStays(s: State, actions: seq<Action>)
    requires Run(s, [TakeReading] + actions).Some?
    ensures s.lastSequence in Run(s, [TakeReading] + actions).value.seen
  {
    assert ([TakeReading] + actions)[1..] == actions;
    RunKeepsReadings(Apply(s, TakeReading), actions);
  }

  // ----- every queued writer can finish -----

  ghost function Inserts(k: nat): seq<Action> {
    seq(k, _ => InsertOne)
  }

  lemma {:induction false} InsertsRun(s: State, k: nat)
    requires s.phase.Inserting? && s.phase.inserted + k == |GroupOps(s)|
    ensures Run(s, Inserts(k)).Some?
    ensures var t := Run(s, Inserts(k)).value;
            t == s.(mem := t.mem, phase := Inserting(s.phase.n, |GroupOps(s)|))
    decreases k
  {
    if k > 0 {
      assert Inserts(k)[0] == InsertOne && Inserts(k)[1..] == Inserts(k - 1);
      InsertsRun(Apply(s, InsertOne), k - 1);
    }
  }

  /** `t` is what is left of `s` when its first n writers have returned, all with this outcome. */
  ghost predicate Ended(s: State, n: nat, outcome: Outcome, t: State) {
    && n <= |s.queue| && t.queue == s.queue[n..] && t.phase.Waiting? && t.arrived == s.arrived
    && |t.done| == |s.done| + n && s.done <= t.done
    && forall i :: 0 <= i < n ==> t.done[|s.done| + i].writer == s.queue[i] && t.done[|s.done| + i].outcome == outcome
  }

  ghost predicate Served(s: State, n: nat, t: State) {
    Ended(s, n, Applied, t)
  }

  /** A group whose log write or sync fails returns with the error; it has used up its sequence numbers, and nothing of
      it is in the memtable. */
  lemma FailureReturns(s: State, logged: bool)
    requires s.phase.Logging? && s.phase.n <= |s.queue|
    ensures Enabled(s, FailGroup(logged))
    ensures var t := Apply(s, FailGroup(logged));
            && Ended(s, s.phase.n, Failed(logged), t)
            && t.mem == s.mem && t.lastSequence == s.lastSequence + |AllOps(s.queue[..s.phase.n])|
  {
    hide Finish, AllOps;
    var n := s.phase.n;
    var fs := Finish(s.queue[..n], s.lastSequence + 1, Failed(logged), n > 0 && s.queue[0].sync);
    FinishShape(s.queue[..n], s.lastSequence + 1, Failed(logged), n > 0 && s.queue[0].sync);
    assert Apply(s, FailGroup(logged)).done == s.done + fs;
  }

  lemma CommitServes(s: State)
    requires s.phase.Inserting? && s.phase.inserted == |GroupOps(s)| && s.phase.n <= |s.queue|
    ensures Served(s, s.phase.n, Apply(s, CommitGroup))
  {
    hide Finish, AllOps;
    var n := s.phase.n;
    var fs := Finish(s.queue[..n], s.lastSequence + 1, Applied, n > 0 && s.queue[0].sync);
    FinishShape(s.queue[..n], s.lastSequence + 1, Applied, n > 0 && s.queue[0].sync);
    assert Apply(s, CommitGroup).done == s.done + fs;
  }

  lemma InsertedGroupFinishes(s: State) returns (actions: seq<Action>)
    requires Inv(s) && s.phase.Inserting?
    ensures Run(s, actions).Some? && Served(s, s.phase.n, Run(s, actions).value)
  {
    InvHolds(s);
    hide Inv, Run, Apply, Served;
    var k := |GroupOps(s)| - s.phase.inserted;
    InsertsRun(s, k);
    var t := Run(s, Inserts(k)).value;
    assert GroupOps(t) == GroupOps(s);
    RunOne(t, CommitGroup);
    RunThen(s, Inserts(k), [CommitGroup]);
    CommitServes(t);
    SameServes(s, t, s.phase.n, Apply(t, CommitGroup));
    actions := Inserts(k) + [CommitGroup];
  }

  lemma SameServes(s: State, s': State, n: nat, t: State)
    requires Served(s', n, t) && s.queue == s'.queue && s.arrived == s'.arrived && s.done == s'.done
    ensures Served(s, n, t)
  {
  }

  /** One step of the leader that finishes nobody, and then the rest of its group. */
  lemma StepThenServed(s: State, a: Action, n: nat, rest: seq<Action>)
    requires Enabled(s, a) && (a.LogGroup? || a.StartGroup?)
    requires Run(Apply(s, a), rest).Some? && Served(Apply(s, a), n, Run(Apply(s, a), rest).value)
    ensures Run(s, [a] + rest).Some? && Served(s, n, Run(s, [a] + rest).value)
  {
    assert ([a] + rest)[1..] == rest;
    hide Served;
    SameServes(s, Apply(s, a), n, Run(s, [a] + rest).value);
  }

  /** The leader's group can finish, from wherever the leader is. */
  lemma GroupFinishes(s: State) returns (actions: seq<Action>)
    requires Inv(s) && !s.phase.Waiting?
    ensures Run(s, actions).Some? && Served(s, s.phase.n, Run(s, actions).value)
  {
    hide Inv, Run, Served;
    if s.phase.Inserting? {
      actions := InsertedGroupFinishes(s);
    } else {
      StepKeepsInv(s, LogGroup);
      var rest := InsertedGroupFinishes(Apply(s, LogGroup));
      StepThenServed(s, LogGroup, s.phase.n, rest);
      actions := [LogGroup] + rest;
    }
  }

  /** A leader with a batch has a group. */
  lemma {:induction false} GroupExists(queue: seq<Writer>, k: nat) returns (n: nat)
    requires MayGroup(queue, k)
    ensures IsGroup(queue, n)
    decreases |queue| - k
  {
    n := k;
    if k < |queue| && Joins(queue, k) {
      n := GroupExists(queue, k + 1);
    }
  }

  /** The next writers can finish: the group of the leader if it has a batch, and otherwise the leader alone. */
  lemma LeaderFinishes(s: State) returns (n: nat, actions: seq<Action>)
    requires Inv(s) && s.phase.Waiting? && s.queue != [] && s.queue[0].batch.Some?
    ensures n > 0 && Run(s, actions).Some? && Served(s, n, Run(s, actions).value)
  {
    n := GroupExists(s.queue, 1);
    hide Inv, Run, Served;
    StepKeepsInv(s, StartGroup(n));
    var rest := GroupFinishes(Apply(s, StartGroup(n)));
    StepThenServed(s, StartGroup(n), n, rest);
    actions := [StartGroup(n)] + rest;
  }

  /** `t` is `s` with every queued writer returned, each in its turn, and each that has a batch applied. */
  ghost predicate Drained(s: State, t: State) {
    && t.queue == [] && t.phase.Waiting? && |t.done| == |s.done| + |s.queue| && s.done <= t.done
    && forall i :: 0 <= i < |s.queue| ==>
         && t.done[|s.done| + i].writer == s.queue[i]
         && (s.queue[i].batch.Some? ==> t.done[|s.done| + i].outcome.Applied?)
  }

  lemma ServedThenDrained(s: State, n: nat, m: State, t: State)
    requires Served(s, n, m) && Drained(m, t)
    ensures Drained(s, t)
  {
    forall i | 0 <= i < |s.queue|
      ensures t.done[|s.done| + i].writer == s.queue[i]
      ensures s.queue[i].batch.Some? ==> t.done[|s.done| + i].outcome.Applied?
    {
      if i < n {
        assert t.done[|s.done| + i] == m.done[|s.done| + i];
      } else {
        assert m.queue[i - n] == s.queue[i];
        assert |m.done| + (i - n) == |s.done| + i;
      }
    }
  }

  lemma PopThenDrained(s: State, t: State)
    requires Enabled(s, PopLeader) && s.queue[0].batch.None? && Drained(Apply(s, PopLeader), t)
    ensures Drained(s, t)
  {
    var m := Apply(s, PopLeader);
    assert m.done[|s.done|].writer == s.queue[0];
    forall i | 0 <= i < |s.queue|
      ensures t.done[|s.done| + i].writer == s.queue[i]
      ensures s.queue[i].batch.Some? ==> t.done[|s.done| + i].outcome.Applied?
    {
      if i > 0 {
        assert m.queue[i - 1] == s.queue[i] && |m.done| + (i - 1) == |s.done| + i;
      }
    }
  }

  lemma ServedRunKeepsInv(s: State, n: nat, actions: seq<Action>)
    requires Inv(s) && Run(s, actions).Some? && Served(s, n, Run(s, actions).value)
    ensures var m := Run(s, actions).value; Inv(m) && m.phase.Waiting? && |m.queue| == |s.queue| - n
  {
    RunKeepsInv(s, actions);
  }

  lemma PopShortens(s: State)
    requires Inv(s) && Enabled(s, PopLeader)
    ensures var m := Apply(s, PopLeader); Inv(m) && m.phase.Waiting? && |m.queue| == |s.queue| - 1
  {
    PopLeaderKeepsInv(s);
  }

  /** From every state that keeps the invariant and has no leader at work, every queued writer can return. */
  lemma {:induction false} WaitingDrains(s: State) returns (actions: seq<Action>)
    requires Inv(s) && s.phase.Waiting?
    ensures Run(s, actions).Some? && Drained(s, Run(s, actions).value)
    decreases |s.queue|
  {
    if s.queue == [] {
      actions := [];
    } else if s.queue[0].batch.Some? {
      hide *;
      var n, first := LeaderFinishes(s);
      var m := Run(s, first).value;
      ServedRunKeepsInv(s, n, first);
      var rest := WaitingDrains(m);
      RunThen(s, first, rest);
      ServedThenDrained(s, n, m, Run(m, rest).value);
      actions := first + rest;
    } else {
      PopShortens(s);
      hide Inv, Apply, Drained;
      var m := Apply(s, PopLeader);
      var rest := WaitingDrains(m);
      RunOne(s, PopLeader);
      RunThen(s, [PopLeader], rest);
      PopThenDrained(s, Run(m, rest).value);
      actions := [PopLeader] + rest;
    }
  }

  /** From every reachable state the write queue can be emptied: every writer that called Write returns, in order, and
      the operations of every one that still waits are applied. */
  lemma QueueDrains(s: State) returns (actions: seq<Action>)
    requires Reachable(s)
    ensures Run(s, actions).Some? && Drained(s, Run(s, actions).value)
  {
    hide Reachable, Inv, Run, Drained, Served;
    ReachableInv(s);
    if s.phase.Waiting? {
      actions := WaitingDrains(s);
    } else {
      var first := GroupFinishes(s);
      var m := Run(s, first).value;
      ServedRunKeepsInv(s, s.phase.n, first);
      var rest := WaitingDrains(m);
      RunThen(s, first, rest);
      ServedThenDrained(s, s.phase.n, m, Run(m, rest).value);
      actions := first + rest;
    }
  }
}
