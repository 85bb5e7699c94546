/** Whole runs of the skip list: what it contains, and that every search ends. */
module SkipRuns {
  import opened Format
  import opened SkipList

  // ----- what a list contains -----

  /** The keys that the writer set out to insert. */
  ghost function Inserted(actions: seq<Action>): set<int> {
    if actions == [] then {}
    else Inserted(actions[..|actions| - 1])
         + if actions[|actions| - 1].StartInsert? then {actions[|actions| - 1].key} else {}
  }

  /** The key of an insertion that no reader can see yet. */
  ghost function Unlinked(s: State): set<int> {
    if s.writer.Linking? && s.writer.level == 0 && s.writer.node < |s.keys| then {s.keys[s.writer.node]} else {}
  }

  lemma {:induction false} RunSplits(s: State, actions: seq<Action>)
    requires actions != [] && Run(s, actions).Some?
    ensures var init, a := actions[..|actions| - 1], actions[|actions| - 1];
            && Run(s, init).Some? && Enabled(Run(s, init).value, a)
            && Run(s, actions).value == Apply(Run(s, init).value, a)
    decreases |actions|
  {
    hide Enabled, Apply;
    if |actions| > 1 {
      RunSplits(Apply(s, actions[0]), actions[1..]);
      assert actions[1..][..|actions| - 2] == actions[..|actions| - 1][1..];
    }
  }

  lemma InvParts(s: State)
    requires Inv(s)
    ensures ListsOk(s)
  {
  }

  lemma ReachedInv(actions: seq<Action>)
    requires Run(InitialState(), actions).Some?
    ensures Inv(Run(InitialState(), actions).value)
  {
    InitialInv();
    hide Inv, InitialState;
    RunKeepsInv(InitialState(), actions);
  }

  lemma StepContents(s: State, a: Action)
    requires Inv(s) && Enabled(s, a)
    ensures ListsOk(s) && ListsOk(Apply(s, a))
    ensures Contents(Apply(s, a)) + Unlinked(Apply(s, a))
            == Contents(s) + Unlinked(s) + if a.StartInsert? then {a.key} else {}
  {
    ContentsAfter(s, a);
    hide ListsOk, HeightOk, ReaderOk, IsPrev, Contents, InsertAfter, Advance;
  }

  lemma UnlinkedIsHidden(s: State)
    requires Inv(s)
    ensures ListsOk(s) && Unlinked(s) !! Contents(s)
  {
    if s.writer.Linking? && s.writer.level == 0 {
      var key := s.keys[s.writer.node];
      var i := PrevIndex(s, key, 0, s.writer.prev[0]);
      assert key !in Contents(s);
    }
  }

  lemma {:induction false} RunContents(actions: seq<Action>)
    requires Run(InitialState(), actions).Some?
    ensures var s := Run(InitialState(), actions).value;
            ListsOk(s) && Contents(s) + Unlinked(s) == Inserted(actions)
  {
    if actions == [] {
      assert |InitialState().lists[0]| == 1;
      InitialInv();
    } else {
      hide Inv, Contents, Unlinked, InitialState, Apply, Enabled, ListsOk;
      var init := actions[..|actions| - 1];
      RunSplits(InitialState(), actions);
      RunContents(init);
      ReachedInv(init);
      StepContents(Run(InitialState(), init).value, actions[|actions| - 1]);
    }
  }

  /** In every run the list contains the keys inserted so far, but for one whose node is not linked yet. */
  lemma ContainsInserted(actions: seq<Action>)
    requires Run(InitialState(), actions).Some?
    ensures var s := Run(InitialState(), actions).value;
            ListsOk(s) && Contents(s) == Inserted(actions) - Unlinked(s) && Unlinked(s) <= Inserted(actions)
  {
    hide Inv, Contents, Unlinked, InitialState, Run, ListsOk;
    RunContents(actions);
    ReachedInv(actions);
    UnlinkedIsHidden(Run(InitialState(), actions).value);
  }

  // ----- every search ends -----

  /** The nodes that a search may still step onto. */
  ghost function Ahead(s: State, rd: Reader): set<nat> {
    set n: nat | 1 <= n < |s.keys| && (rd.x == HEAD || (rd.x < |s.keys| && s.keys[rd.x] < s.keys[n]))
  }

  /** The steps that a search may still take. */
  ghost function Left(s: State, r: nat): nat {
    if r in s.readers && s.readers[r].Searching? then s.readers[r].level + 1 + |Ahead(s, s.readers[r])| else 0
  }

  lemma Smaller<T>(a: set<T>, b: set<T>, x: T)
    requires a <= b && x in b && x !in a
    ensures |a| < |b|
  {
    var c := b - {x};
    assert a <= c && b == c + {x};
    NoLarger(a, c);
  }

  lemma {:induction false} NoLarger<T>(a: set<T>, b: set<T>)
    requires a <= b
    ensures |a| <= |b|
    decreases a
  {
    if x :| x in a {
      NoLarger(a - {x}, b - {x});
    }
  }

  lemma NextIsAhead(s: State, rd: Reader)
    requires ListsOk(s) && ReaderOk(s, rd) && rd.Searching? && Stored(s.next, rd.x, rd.level)
    requires s.next[rd.level][rd.x].Some?
    ensures s.next[rd.level][rd.x].value in Ahead(s, rd)
  {
    var list := s.lists[rd.level];
    var i :| 0 <= i < |list| && list[i] == rd.x;
    assert Linked(s.next[rd.level], list) && LinkAt(s.next[rd.level], list, i) && SortedChain(s.keys, list);
  }

  /** Each step of a search brings it closer to its end. */
  lemma StepGetsCloser(s: State, r: nat)
    requires Inv(s) && Enabled(s, ReadStep(r))
    ensures Left(Apply(s, ReadStep(r)), r) < Left(s, r)
  {
    hide WriterOk, HeightOk, SortedChain, Linked, Contained;
    var rd, s' := s.readers[r], Apply(s, ReadStep(r));
    assert ReaderOk(s, rd);
    var n := s.next[rd.level][rd.x];
    if IsAfter(s.keys, rd.target, n) {
      NextIsAhead(s, rd);
      var rd' := s'.readers[r];
      assert rd'.x == n.value && n.value !in Ahead(s', rd') && Ahead(s', rd') <= Ahead(s, rd);
      Smaller(Ahead(s', rd'), Ahead(s, rd), n.value);
    } else if rd.level > 0 {
      assert Ahead(s', s'.readers[r]) == Ahead(s, rd);
    }
  }

  /** The search of reader r has ended in `end`, with the neighbours of its target in `s`, and changed nothing else. */
  ghost predicate Ends(s: State, r: nat, end: State)
    requires ListsOk(s)
  {
    && end == s.(readers := end.readers) && r in s.readers && r in end.readers && end.readers[r].Found?
    && end.readers[r].target == s.readers[r].target
    && IsBracket(s, end.readers[r].target, end.readers[r].x, end.readers[r].next)
  }

  ghost predicate OnlyReads(actions: seq<Action>, r: nat) {
    forall i :: 0 <= i < |actions| ==> actions[i] == ReadStep(r)
  }

  lemma StepKeepsRest(s: State, r: nat)
    requires ListsOk(s) && Enabled(s, ReadStep(r))
    ensures var s' := Apply(s, ReadStep(r));
            && s' == s.(readers := s'.readers) && r in s'.readers && s'.readers[r].target == s.readers[r].target
            && ListsOk(s')
  {
    hide SortedChain, Linked, Contained;
  }

  lemma SameBracket(s: State, s': State, t: Target, x: nat, n: Option<nat>)
    requires ListsOk(s) && ListsOk(s') && s' == s.(readers := s'.readers) && IsBracket(s', t, x, n)
    ensures IsBracket(s, t, x, n)
  {
    hide ListsOk;
    assert Contents(s) == Contents(s');
  }

  /** A search that is left alone ends, and finds the exact neighbours of its target. */
  lemma {:induction false} SearchEnds(s: State, r: nat) returns (actions: seq<Action>)
    requires Inv(s) && r in s.readers && s.readers[r].Searching?
    ensures OnlyReads(actions, r) && Run(s, actions).Some? && ListsOk(s) && Ends(s, r, Run(s, actions).value)
    decreases Left(s, r)
  {
    InvParts(s);
    hide Inv, ListsOk, Apply, Enabled, IsBracket, Left;
    ReaderCanStep(s, r);
    StepGetsCloser(s, r);
    StepKeepsInv(s, ReadStep(r));
    StepKeepsRest(s, r);
    var s' := Apply(s, ReadStep(r));
    actions := [];
    if s'.readers[r].Found? {
      ReadIsLinearizable(s, r);
      assert Run(s', []) == Some(s');
    } else {
      actions := SearchEnds(s', r);
      var f := Run(s', actions).value.readers[r];
      SameBracket(s, s', f.target, f.x, f.next);
    }
    assert ([ReadStep(r)] + actions)[1..] == actions;
    actions := [ReadStep(r)] + actions;
  }

  /** From every reachable state a search for any target, from whatever height it reads, ends with the neighbours of its
      target. */
  lemma SearchCompletes(before: seq<Action>, s: State, r: nat, t: Target, height: nat) returns (actions: seq<Action>)
    requires Run(InitialState(), before) == Some(s) && 1 <= height <= MAX_HEIGHT
    ensures ListsOk(s) && OnlyReads(actions, r) && Run(s, [StartRead(r, t, height)] + actions).Some?
    ensures var end := Run(s, [StartRead(r, t, height)] + actions).value;
            && r in end.readers && end.readers[r].Found? && end.readers[r].target == t
            && IsBracket(s, t, end.readers[r].x, end.readers[r].next)
  {
    ReachedInv(before);
    InvParts(s);
    hide Inv, InitialState, ListsOk, IsBracket;
    var start := StartRead(r, t, height);
    var s' := Apply(s, start);
    StepKeepsInv(s, start);
    actions := SearchEnds(s', r);
    var f := Run(s', actions).value.readers[r];
    SameBracket(s, s', t, f.x, f.next);
    assert ([start] + actions)[1..] == actions;
  }

  // ----- no writer can hold up a search -----

  ghost function Steps(actions: seq<Action>, r: nat): nat {
    if actions == [] then 0 else (if actions[0] == ReadStep(r) then 1 else 0) + Steps(actions[1..], r)
  }

  ghost function Inserts(actions: seq<Action>): nat {
    if actions == [] then 0 else (if actions[0].StartInsert? then 1 else 0) + Inserts(actions[1..])
  }

  ghost predicate Restarts(actions: seq<Action>, r: nat) {
    exists i :: 0 <= i < |actions| && actions[i].StartRead? && actions[i].reader == r
  }

  lemma OneMore<T>(a: set<T>, b: set<T>, x: T)
    requires a <= b + {x}
    ensures |a| <= |b| + 1
  {
    NoLarger(a, b + {x});
  }

  /** A step of anyone else leaves a search where it is; a new node gives it at most one step more. */
  lemma OtherStep(s: State, a: Action, r: nat)
    requires Inv(s) && Enabled(s, a) && a != ReadStep(r) && !(a.StartRead? && a.reader == r)
    ensures Left(Apply(s, a), r) <= Left(s, r) + if a.StartInsert? then 1 else 0
  {
    hide WriterOk, HeightOk, SortedChain, Linked, Contained;
    var s' := Apply(s, a);
    if r in s.readers && s.readers[r].Searching? {
      var rd := s.readers[r];
      assert ReaderOk(s, rd) && s'.readers[r] == rd;
      if a.StartInsert? {
        OneMore(Ahead(s', rd), Ahead(s, rd), |s.keys|);
      } else {
        assert Ahead(s', rd) == Ahead(s, rd);
      }
    }
  }

  /** Whatever the writer and the other readers do meanwhile, a search takes at most a number of steps that is fixed
      when it starts, plus one for every insertion that starts before it ends. */
  lemma {:induction false} SearchIsBounded(s: State, actions: seq<Action>, r: nat)
    requires Inv(s) && Run(s, actions).Some? && !Restarts(actions, r)
    ensures Steps(actions, r) + Left(Run(s, actions).value, r) <= Left(s, r) + Inserts(actions)
    decreases |actions|
  {
    if actions != [] {
      var a, rest := actions[0], actions[1..];
      assert !Restarts(rest, r) by {
        assert forall i :: 0 <= i < |rest| ==> rest[i] == actions[i + 1];
      }
      hide Inv, Apply, Enabled, Left, Restarts;
      assert !(a.StartRead? && a.reader == r) by { NotFirst(actions, r); }
      StepKeepsInv(s, a);
      if a == ReadStep(r) {
        StepGetsCloser(s, r);
      } else {
        OtherStep(s, a, r);
      }
      SearchIsBounded(Apply(s, a), rest, r);
    }
  }

  lemma NotFirst(actions: seq<Action>, r: nat)
    requires actions != [] && !Restarts(actions, r)
    ensures !(actions[0].StartRead? && actions[0].reader == r)
  {
  }
}
