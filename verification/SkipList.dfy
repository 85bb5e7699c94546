/** The memtable's skip list, read without locks while one writer inserts (db/skiplist.h).

    Every load and store of a next pointer is one atomic step.  Nodes are numbered in allocation order, node 0
    is the head.  `next[l]` holds exactly the level-l pointers that have been stored; a node missing from it
    has uninitialised memory there.  `lists` is a specification field: the chain of nodes linked at each level. */
module SkipList {
  import opened Format

  const MAX_HEIGHT := 12
  const HEAD: nat := 0

  /** Seeks look for a key; FindLast searches past every key. */
  datatype Target = Key(k: int) | PastEverything

  datatype Reader = Searching(target: Target, x: nat, level: nat)
                  | Found(target: Target, x: nat, next: Option<nat>)

  /** An insertion between two stores: `own` once the node's own pointer at `level` is set. */
  datatype Writer = Idle | Linking(node: nat, height: nat, prev: seq<nat>, level: nat, own: bool)

  datatype State = State(keys: seq<int>, next: seq<map<nat, Option<nat>>>, maxHeight: nat,
                         writer: Writer, readers: map<nat, Reader>, lists: seq<seq<nat>>)

  /** KeyIsAfterNode: the search for `t` moves past node n. */
  predicate IsAfter(keys: seq<int>, t: Target, n: Option<nat>) {
    n.Some? && n.value < |keys| && (t.PastEverything? || keys[n.value] < t.k)
  }

  function InitialState(): State {
    State([0], seq(MAX_HEIGHT, _ => map[HEAD := None]), 1, Idle, map[], seq(MAX_HEIGHT, _ => [HEAD]))
  }

  // ----- steps -----

  datatype Action =
    | StartRead(reader: nat, target: Target, height: nat)
    | ReadStep(reader: nat)
    | StartInsert(key: int, height: nat, prev: seq<nat>)
    | SetOwn
    | Publish

  /** prev[l] is the last node of level l before the key, for every level (FindGreaterOrEqual fills it in). */
  ghost predicate IsPrev(s: State, key: int, l: nat, n: nat)
    requires l < |s.lists|
  {
    exists i: nat :: LastBefore(s.keys, s.lists[l], key, n, i)
  }

  /** Node n is at place i of the chain, with smaller keys up to there and larger ones behind. */
  ghost predicate LastBefore(keys: seq<int>, list: seq<nat>, key: int, n: nat, i: nat) {
    && i < |list| && list[i] == n
    && (forall j :: 1 <= j <= i && list[j] < |keys| ==> keys[list[j]] < key)
    && (forall j :: i < j < |list| && list[j] < |keys| ==> keys[list[j]] > key)
  }

  predicate Stored(next: seq<map<nat, Option<nat>>>, n: nat, l: nat) {
    l < |next| && n in next[l]
  }

  ghost predicate Enabled(s: State, a: Action) {
    match a
    case StartRead(r, t, h) => 1 <= h <= MAX_HEIGHT      // any current or stale value of max_height_
    case ReadStep(r) => r in s.readers && s.readers[r].Searching? && Stored(s.next, s.readers[r].x, s.readers[r].level)
    case StartInsert(key, h, prev) =>
      && s.writer.Idle? && 1 <= h <= MAX_HEIGHT && |prev| == |s.lists| == MAX_HEIGHT
      && forall l :: 0 <= l < MAX_HEIGHT ==> IsPrev(s, key, l, prev[l])
    case SetOwn => s.writer.Linking? && !s.writer.own && s.writer.level < |s.writer.prev|
                   && Stored(s.next, s.writer.prev[s.writer.level], s.writer.level)
    case Publish => s.writer.Linking? && s.writer.own && s.writer.level < |s.writer.prev|
                    && s.writer.level < |s.lists| == |s.next|
  }

  /** One iteration of the loop of FindGreaterOrEqual, FindLessThan and FindLast. */
  function Advance(r: Reader, keys: seq<int>, n: Option<nat>): Reader
    requires r.Searching?
  {
    if IsAfter(keys, r.target, n) then Searching(r.target, n.value, r.level)
    else if r.level == 0 then Found(r.target, r.x, n)
    else Searching(r.target, r.x, r.level - 1)
  }

  function SetNext(next: seq<map<nat, Option<nat>>>, l: nat, n: nat, to: Option<nat>): seq<map<nat, Option<nat>>>
    requires l < |next|
  {
    var level: map<nat, Option<nat>> := next[l];
    next[l := level[n := to]]
  }

  function InsertAfter(list: seq<nat>, p: nat, n: nat): seq<nat> {
    if list == [] then []
    else if list[0] == p then [p, n] + list[1..]
    else [list[0]] + InsertAfter(list[1..], p, n)
  }

  function Apply(s: State, a: Action): State
    requires Enabled(s, a)
  {
    match a
    case StartRead(r, t, h) => s.(readers := s.readers[r := Searching(t, HEAD, h - 1)])
    case ReadStep(r) =>
      var rd := s.readers[r];
      s.(readers := s.readers[r := Advance(rd, s.keys, s.next[rd.level][rd.x])])
    case StartInsert(key, h, prev) =>
      s.(keys := s.keys + [key], maxHeight := if h > s.maxHeight then h else s.maxHeight,
         writer := Linking(|s.keys|, h, prev, 0, false))
    case SetOwn =>
      var w := s.writer;
      s.(next := SetNext(s.next, w.level, w.node, s.next[w.level][w.prev[w.level]]),
         writer := Linking(w.node, w.height, w.prev, w.level, true))
    case Publish =>
      var w := s.writer;
      s.(next := SetNext(s.next, w.level, w.prev[w.level], Some(w.node)),
         lists := s.lists[w.level := InsertAfter(s.lists[w.level], w.prev[w.level], w.node)],
         writer := if w.level + 1 == w.height then Idle else Linking(w.node, w.height, w.prev, w.level + 1, false))
  }

  // ----- invariant -----

  ghost predicate SortedChain(keys: seq<int>, list: seq<nat>) {
    && |list| > 0 && list[0] == HEAD
    && (forall i :: 0 <= i < |list| ==> list[i] < |keys|)
    && (forall i :: 1 <= i < |list| ==> list[i] != HEAD)
    && (forall i, j :: 1 <= i < j < |list| ==> keys[list[i]] < keys[list[j]])
  }

  /** The stored pointers of a level run through the chain and end in NULL. */
  ghost predicate Linked(next: map<nat, Option<nat>>, list: seq<nat>) {
    forall i :: 0 <= i < |list| ==> LinkAt(next, list, i)
  }

  ghost predicate LinkAt(next: map<nat, Option<nat>>, list: seq<nat>, i: nat)
    requires i < |list|
  {
    list[i] in next && next[list[i]] == if i + 1 < |list| then Some(list[i + 1]) else None
  }

  ghost predicate Contained(upper: seq<nat>, lower: seq<nat>) {
    forall n :: n in upper ==> n in lower
  }

  /** Every level is a sorted chain, and each level is contained in the levels below it. */
  ghost predicate ListsOk(s: State) {
    && |s.lists| == |s.next| == MAX_HEIGHT
    && (forall l :: 0 <= l < MAX_HEIGHT ==> SortedChain(s.keys, s.lists[l]) && Linked(s.next[l], s.lists[l]))
    && (forall l, m :: 0 <= m < l < MAX_HEIGHT ==> Contained(s.lists[l], s.lists[m]))
  }

  ghost predicate ReaderOk(s: State, r: Reader)
    requires |s.lists| == MAX_HEIGHT
  {
    r.Searching? ==>
      && r.level < MAX_HEIGHT && r.x in s.lists[r.level]
      && (r.x != HEAD ==> IsAfter(s.keys, r.target, Some(r.x)))
  }

  ghost predicate WriterOk(s: State)
    requires |s.lists| == |s.next| == MAX_HEIGHT
  {
    s.writer.Linking? ==>
      var w := s.writer;
      && w.level < w.height <= s.maxHeight <= MAX_HEIGHT == |w.prev| && w.node != HEAD && w.node < |s.keys|
      && (forall l :: 0 <= l < w.level ==> w.node in s.lists[l])
      && (forall l :: w.level <= l < MAX_HEIGHT ==> w.node !in s.lists[l] && IsPrev(s, s.keys[w.node], l, w.prev[l]))
      && (w.own ==> w.node in s.next[w.level] && w.prev[w.level] in s.next[w.level]
                    && s.next[w.level][w.node] == s.next[w.level][w.prev[w.level]])
  }

  ghost predicate HeightOk(s: State) {
    1 <= s.maxHeight <= MAX_HEIGHT && forall l :: s.maxHeight <= l < |s.lists| ==> s.lists[l] == [HEAD]
  }

  ghost predicate Inv(s: State) {
    && ListsOk(s) && HeightOk(s) && WriterOk(s)
    && (forall n :: 0 <= n < |s.keys| ==>
       n in s.lists[0] || (s.writer.Linking? && s.writer.level == 0 && n == s.writer.node))
    && (forall r :: r in s.readers ==> ReaderOk(s, s.readers[r]))
  }

  // ----- preservation -----

  lemma {:induction false} InsertAfterShape(list: seq<nat>, i: nat, n: nat)
    requires i < |list| && forall j :: 0 <= j < i ==> list[j] != list[i]
    ensures InsertAfter(list, list[i], n) == list[..i + 1] + [n] + list[i + 1..]
  {
    if i == 0 {
      assert list[..1] + [n] + list[1..] == [list[0], n] + list[1..];
    } else {
      var rest := list[1..];
      assert rest[i - 1] == list[i];
      InsertAfterShape(rest, i - 1, n);
      assert [list[0]] + (rest[..i] + [n] + rest[i..]) == list[..i + 1] + [n] + list[i + 1..];
    }
  }

  lemma ChainDistinct(keys: seq<int>, list: seq<nat>)
    requires SortedChain(keys, list)
    ensures forall i, j :: 0 <= i < j < |list| ==> list[i] != list[j]
  {
  }

  lemma InsertKeepsChain(keys: seq<int>, list: seq<nat>, i: nat, n: nat)
    requires SortedChain(keys, list) && i < |list| && n < |keys| && n != HEAD
    requires forall j :: 1 <= j <= i ==> keys[list[j]] < keys[n]
    requires forall j :: i < j < |list| ==> keys[list[j]] > keys[n]
    ensures SortedChain(keys, list[..i + 1] + [n] + list[i + 1..])
  {
  }

  lemma PublishLinks(next: map<nat, Option<nat>>, list: seq<nat>, i: nat, n: nat)
    requires i < |list| && n !in list && (forall j, k :: 0 <= j < k < |list| ==> list[j] != list[k])
    requires Linked(next, list) && n in next && list[i] in next && next[n] == next[list[i]]
    ensures Linked(next[list[i] := Some(n)], list[..i + 1] + [n] + list[i + 1..])
  {
    var list', next' := list[..i + 1] + [n] + list[i + 1..], next[list[i] := Some(n)];
    forall j | 0 <= j < |list'| ensures LinkAt(next', list', j) {
      var k := if j <= i then j else if j == i + 1 then i else j - 1;
      assert LinkAt(next, list, k);
    }
  }

  /** Splicing a node in behind its predecessor keeps a chain sorted and linked. */
  lemma Splice(keys: seq<int>, next: map<nat, Option<nat>>, list: seq<nat>, i: nat, n: nat)
    requires SortedChain(keys, list) && Linked(next, list) && i < |list| && n !in list && n < |keys| && n != HEAD
    requires n in next && list[i] in next && next[n] == next[list[i]]
    requires forall j :: 1 <= j <= i ==> keys[list[j]] < keys[n]
    requires forall j :: i < j < |list| ==> keys[list[j]] > keys[n]
    ensures var list' := InsertAfter(list, list[i], n);
            && SortedChain(keys, list') && Linked(next[list[i] := Some(n)], list')
            && forall m :: m in list' <==> m in list || m == n
  {
    hide SortedChain, Linked, InsertAfter;
    ChainDistinct(keys, list);
    InsertAfterShape(list, i, n);
    InsertKeepsChain(keys, list, i, n);
    PublishLinks(next, list, i, n);
    SpliceMembers(list, i, n);
  }

  lemma SpliceMembers(list: seq<nat>, i: nat, n: nat)
    requires i < |list|
    ensures forall m :: m in list[..i + 1] + [n] + list[i + 1..] <==> m in list || m == n
  {
    assert list == list[..i + 1] + list[i + 1..];
  }

  lemma PrevIndex(s: State, key: int, l: nat, n: nat) returns (i: nat)
    requires l < |s.lists| && IsPrev(s, key, l, n) && SortedChain(s.keys, s.lists[l])
    ensures i < |s.lists[l]| && s.lists[l][i] == n
    ensures forall j :: 1 <= j <= i ==> s.keys[s.lists[l][j]] < key
    ensures forall j :: i < j < |s.lists[l]| ==> s.keys[s.lists[l][j]] > key
  {
    i :| LastBefore(s.keys, s.lists[l], key, n, i);
  }

  /** The level that is linked next, before and after its publishing store. */
  lemma PublishLevel(s: State)
    requires ListsOk(s) && HeightOk(s) && WriterOk(s) && Enabled(s, Publish)
    ensures var l, s' := s.writer.level, Apply(s, Publish);
            && SortedChain(s'.keys, s'.lists[l]) && Linked(s'.next[l], s'.lists[l])
            && forall n :: n in s'.lists[l] <==> n in s.lists[l] || n == s.writer.node
  {
    var w := s.writer;
    assert IsPrev(s, s.keys[w.node], w.level, w.prev[w.level]);
    hide Linked, IsPrev, InsertAfter, Contained;
    var i := PrevIndex(s, s.keys[w.node], w.level, w.prev[w.level]);
    Splice(s.keys, s.next[w.level], s.lists[w.level], i, w.node);
  }

  lemma LinkedFrame(next: map<nat, Option<nat>>, k: nat, n: Option<nat>, list: seq<nat>)
    requires Linked(next, list) && k !in list
    ensures Linked(next[k := n], list)
  {
    var next' := next[k := n];
    forall i | 0 <= i < |list| ensures LinkAt(next', list, i) {
      assert LinkAt(next, list, i);
    }
  }

  lemma PublishKeepsLists(s: State)
    requires Inv(s) && Enabled(s, Publish)
    ensures ListsOk(Apply(s, Publish))
  {
    hide SortedChain, Linked, ReaderOk, InsertAfter, Contained, IsPrev;
    PublishLevel(s);
    var s' := Apply(s, Publish);
    forall l, m | 0 <= m < l < MAX_HEIGHT ensures Contained(s'.lists[l], s'.lists[m]) {
      PublishContained(s, l, m);
    }
  }

  lemma PublishContained(s: State, l: nat, m: nat)
    requires ListsOk(s) && HeightOk(s) && WriterOk(s) && Enabled(s, Publish) && m < l < MAX_HEIGHT
    ensures Contained(Apply(s, Publish).lists[l], Apply(s, Publish).lists[m])
  {
    hide SortedChain, Linked, InsertAfter, IsPrev;
    PublishLevel(s);
    assert Contained(s.lists[l], s.lists[m]);
  }

  /** prev stays correct at the levels not linked yet. */
  lemma PrevFrame(s: State, s': State, key: int, l: nat, n: nat)
    requires l < |s.lists| && l < |s'.lists| && s.lists[l] == s'.lists[l] && IsPrev(s, key, l, n)
    requires s.keys <= s'.keys && forall i :: 0 <= i < |s.lists[l]| ==> s.lists[l][i] < |s.keys|
    ensures IsPrev(s', key, l, n)
  {
    var i: nat :| LastBefore(s.keys, s.lists[l], key, n, i);
    assert LastBefore(s'.keys, s'.lists[l], key, n, i);
  }

  lemma PublishKeepsWriter(s: State)
    requires ListsOk(s) && HeightOk(s) && WriterOk(s) && Enabled(s, Publish)
    ensures |Apply(s, Publish).lists| == |Apply(s, Publish).next| == MAX_HEIGHT && WriterOk(Apply(s, Publish))
  {
    PublishLevel(s);
    var w, s' := s.writer, Apply(s, Publish);
    forall l | w.level < l < MAX_HEIGHT ensures IsPrev(s', s'.keys[w.node], l, w.prev[l]) {
      PrevFrame(s, s', s.keys[w.node], l, w.prev[l]);
    }
    hide SortedChain, Linked, InsertAfter, IsPrev, Contained;
  }

  lemma PublishKeepsInv(s: State)
    requires Inv(s) && Enabled(s, Publish)
    ensures Inv(Apply(s, Publish))
  {
    PublishKeepsLists(s);
    PublishLevel(s);
    PublishKeepsWriter(s);
    hide SortedChain, Linked, InsertAfter, IsPrev, IsAfter, Contained;
  }

  lemma SetOwnKeepsWriter(s: State)
    requires ListsOk(s) && HeightOk(s) && WriterOk(s) && Enabled(s, SetOwn)
    ensures |Apply(s, SetOwn).next| == MAX_HEIGHT && WriterOk(Apply(s, SetOwn))
  {
    hide Linked, Contained, SortedChain, IsPrev;
    var w, s' := s.writer, Apply(s, SetOwn);
    forall l | w.level <= l < MAX_HEIGHT ensures IsPrev(s', s'.keys[w.node], l, w.prev[l]) {
      ChainNodes(s.keys, s.lists[l]);
      PrevFrame(s, s', s.keys[w.node], l, w.prev[l]);
    }
    PrevOnList(s, s.keys[w.node], w.level, w.prev[w.level]);
  }

  lemma PrevOnList(s: State, key: int, l: nat, n: nat)
    requires l < |s.lists| && IsPrev(s, key, l, n)
    ensures n in s.lists[l]
  {
  }

  lemma SetOwnKeepsInv(s: State)
    requires Inv(s) && Enabled(s, SetOwn)
    ensures Inv(Apply(s, SetOwn))
  {
    var w := s.writer;
    SetOwnKeepsWriter(s);
    LinkedFrame(s.next[w.level], w.node, s.next[w.level][w.prev[w.level]], s.lists[w.level]);
    hide Linked, IsPrev, IsAfter, SortedChain, Contained, WriterOk;
  }

  lemma ChainFrame(keys: seq<int>, key: int, list: seq<nat>)
    requires SortedChain(keys, list)
    ensures SortedChain(keys + [key], list)
  {
  }

  lemma StartInsertKeepsInv(s: State, a: Action)
    requires Inv(s) && a.StartInsert? && Enabled(s, a)
    ensures Inv(Apply(s, a))
  {
    hide SortedChain, Linked, IsPrev, Contained, IsAfter;
    var s' := Apply(s, a);
    forall l | 0 <= l < MAX_HEIGHT
      ensures SortedChain(s'.keys, s'.lists[l]) && |s.keys| !in s.lists[l] && IsPrev(s', a.key, l, a.prev[l])
    {
      ChainFrame(s.keys, a.key, s.lists[l]);
      ChainNodes(s.keys, s.lists[l]);
      PrevFrame(s, s', a.key, l, a.prev[l]);
    }
    ChainHead(s.keys, s.lists[0]);
    ReadersFrame(s, s');
  }

  lemma ReadersFrame(s: State, s': State)
    requires |s.lists| == MAX_HEIGHT && s'.lists == s.lists && s.keys <= s'.keys && s.readers == s'.readers
    requires forall r :: r in s.readers ==> ReaderOk(s, s.readers[r])
    ensures forall r :: r in s'.readers ==> ReaderOk(s', s'.readers[r])
  {
  }

  /** A reader that steps stays on the chain of its level, strictly before its target. */
  lemma ReaderStepOk(s: State, r: Reader)
    requires ListsOk(s) && ReaderOk(s, r) && r.Searching? && Stored(s.next, r.x, r.level)
    ensures ReaderOk(s, Advance(r, s.keys, s.next[r.level][r.x]))
  {
    var list := s.lists[r.level];
    var i :| 0 <= i < |list| && list[i] == r.x;
    assert Linked(s.next[r.level], list) && LinkAt(s.next[r.level], list, i);
    assert r.level > 0 ==> Contained(list, s.lists[r.level - 1]);
    assert i + 1 < |list| ==> list[i + 1] in list;
  }

  /** The writer's bookkeeping does not depend on the readers. */
  lemma WriterFrame(s: State, readers: map<nat, Reader>)
    requires ListsOk(s) && WriterOk(s)
    ensures WriterOk(s.(readers := readers))
  {
    hide SortedChain, Linked, Contained;
    var s' := s.(readers := readers);
    forall l | 0 <= l < MAX_HEIGHT && s.writer.Linking? && s.writer.level <= l
      ensures IsPrev(s', s.keys[s.writer.node], l, s.writer.prev[l])
    {
      ChainNodes(s.keys, s.lists[l]);
      PrevFrame(s, s', s.keys[s.writer.node], l, s.writer.prev[l]);
    }
    hide IsPrev;
  }

  lemma ReadKeepsInv(s: State, a: Action)
    requires Inv(s) && (a.ReadStep? || a.StartRead?) && Enabled(s, a)
    ensures Inv(Apply(s, a))
  {
    hide SortedChain, Linked, IsAfter, Advance, Contained, WriterOk, IsPrev;
    if a.ReadStep? {
      ReaderStepOk(s, s.readers[a.reader]);
    } else {
      assert HEAD in s.lists[a.height - 1] by { HeadOnChain(s.keys, s.lists[a.height - 1]); }
    }
    WriterFrame(s, Apply(s, a).readers);
  }

  lemma HeadOnChain(keys: seq<int>, list: seq<nat>)
    requires SortedChain(keys, list)
    ensures HEAD in list
  {
    assert list[0] in list;
  }

  lemma ChainNodes(keys: seq<int>, list: seq<nat>)
    requires SortedChain(keys, list)
    ensures forall i :: 0 <= i < |list| ==> list[i] < |keys|
  {
  }

  lemma StepKeepsInv(s: State, a: Action)
    requires Inv(s) && Enabled(s, a)
    ensures Inv(Apply(s, a))
  {
    hide Inv;
    match a
    case StartRead(_, _, _) => ReadKeepsInv(s, a);
    case ReadStep(_) => ReadKeepsInv(s, a);
    case StartInsert(_, _, _) => StartInsertKeepsInv(s, a);
    case SetOwn => SetOwnKeepsInv(s);
    case Publish => PublishKeepsInv(s);
  }

  lemma InitialInv()
    ensures Inv(InitialState())
  {
    EmptyInv(InitialState());
  }

  lemma EmptyInv(s: State)
    requires |s.lists| == |s.next| == MAX_HEIGHT && |s.keys| == s.maxHeight == 1 && s.writer.Idle? && s.readers == map[]
    requires forall l :: 0 <= l < MAX_HEIGHT ==> s.lists[l] == [HEAD] && s.next[l] == map[HEAD := None]
    ensures Inv(s)
  {
    forall l | 0 <= l < MAX_HEIGHT ensures SortedChain(s.keys, s.lists[l]) && Linked(s.next[l], s.lists[l]) {
      assert s.lists[l] == [HEAD];
    }
    hide SortedChain, Linked;
  }

  // ----- what readers see -----

  /** The keys in the list: what its level-0 chain links. */
  ghost function Contents(s: State): set<int>
    requires ListsOk(s)
  {
    set i | 1 <= i < |s.lists[0]| :: s.keys[s.lists[0][i]]
  }

  ghost predicate Below(t: Target, k: int) {
    t.PastEverything? || k < t.k
  }

  /** n is the first key at or after the target, and x the last one before it. */
  ghost predicate IsBracket(s: State, t: Target, x: nat, n: Option<nat>)
    requires ListsOk(s)
  {
    && (n.Some? ==> n.value < |s.keys| && s.keys[n.value] in Contents(s) && !Below(t, s.keys[n.value])
                    && forall k :: k in Contents(s) && !Below(t, k) ==> s.keys[n.value] <= k)
    && (n.None? ==> forall k :: k in Contents(s) ==> Below(t, k))
    && (x != HEAD ==> x < |s.keys| && s.keys[x] in Contents(s) && Below(t, s.keys[x])
                      && forall k :: k in Contents(s) && Below(t, k) ==> k <= s.keys[x])
    && (x == HEAD ==> forall k :: k in Contents(s) ==> !Below(t, k))
  }

  lemma BracketAt(s: State, t: Target, i: nat)
    requires ListsOk(s) && i < |s.lists[0]|
    requires s.lists[0][i] != HEAD ==> Below(t, s.keys[s.lists[0][i]])
    requires i + 1 < |s.lists[0]| ==> !Below(t, s.keys[s.lists[0][i + 1]])
    ensures IsBracket(s, t, s.lists[0][i], if i + 1 < |s.lists[0]| then Some(s.lists[0][i + 1]) else None)
  {
    hide Linked, Contained, SortedChain;
    var list := s.lists[0];
    ChainNodes(s.keys, list);
    ChainHead(s.keys, list);
    forall k | k in Contents(s)
      ensures Below(t, k) ==> i > 0 && k <= s.keys[list[i]]
      ensures !Below(t, k) ==> i + 1 < |list| && s.keys[list[i + 1]] <= k
    {
      var j :| 1 <= j < |list| && s.keys[list[j]] == k;
      BelowIff(s.keys, list, t, i, j);
    }
    assert i > 0 ==> s.keys[list[i]] in Contents(s);
    assert i + 1 < |list| ==> s.keys[list[i + 1]] in Contents(s);
  }

  lemma ChainHead(keys: seq<int>, list: seq<nat>)
    requires SortedChain(keys, list)
    ensures |list| > 0 && list[0] == HEAD && forall i :: 1 <= i < |list| ==> list[i] != HEAD
  {
  }

  /** The keys of a chain that are below the target are those up to the place where the search stops. */
  lemma BelowIff(keys: seq<int>, list: seq<nat>, t: Target, i: nat, j: nat)
    requires SortedChain(keys, list) && i < |list| && 1 <= j < |list|
    requires i > 0 ==> Below(t, keys[list[i]])
    requires i + 1 < |list| ==> !Below(t, keys[list[i + 1]])
    ensures Below(t, keys[list[j]]) ==> j <= i && keys[list[j]] <= keys[list[i]]
    ensures !Below(t, keys[list[j]]) ==> i < j && keys[list[i + 1]] <= keys[list[j]]
  {
  }

  /** Reads are linearizable: the answer of a search is exact for the state in which it makes its last
      load, whatever the writer and other readers did in between and however stale its start level was. */
  lemma ReadIsLinearizable(s: State, r: nat)
    requires Inv(s) && Enabled(s, ReadStep(r))
    requires Apply(s, ReadStep(r)).readers[r].Found?
    ensures var f := Apply(s, ReadStep(r)).readers[r];
            f.target == s.readers[r].target && IsBracket(s, f.target, f.x, f.next)
  {
    var rd := s.readers[r];
    var list := s.lists[0];
    assert ReaderOk(s, rd);
    var i :| 0 <= i < |list| && list[i] == rd.x;
    assert LinkAt(s.next[0], list, i);
    assert SortedChain(s.keys, list);
    hide Linked, Contained, IsBracket;
    BracketAt(s, rd.target, i);
  }

  /** A reader never loads an uninitialised pointer. */
  lemma ReaderCanStep(s: State, r: nat)
    requires Inv(s) && r in s.readers && s.readers[r].Searching?
    ensures Enabled(s, ReadStep(r))
  {
    var rd := s.readers[r];
    assert ReaderOk(s, rd);
    var i :| 0 <= i < |s.lists[rd.level]| && s.lists[rd.level][i] == rd.x;
    assert LinkAt(s.next[rd.level], s.lists[rd.level], i);
  }

  /** Only the level-0 publishing store changes the contents, and it adds exactly the new key. */
  lemma ContentsAfter(s: State, a: Action)
    requires Inv(s) && Enabled(s, a)
    ensures ListsOk(Apply(s, a))
    ensures Contents(Apply(s, a)) ==
              if a.Publish? && s.writer.level == 0 then Contents(s) + {s.keys[s.writer.node]} else Contents(s)
  {
    hide Linked, Contained, IsPrev, ReaderOk, InsertAfter, SortedChain, Contents;
    StepKeepsInv(s, a);
    var s' := Apply(s, a);
    if a.Publish? && s.writer.level == 0 {
      PublishLevel(s);
      ContentsByMembers(s, s', s.writer.node);
    } else {
      SameContents(s, s');
    }
  }

  lemma SameContents(s: State, s': State)
    requires ListsOk(s) && ListsOk(s') && s.lists[0] == s'.lists[0] && s.keys <= s'.keys
    ensures Contents(s') == Contents(s)
  {
    hide Linked, Contained, SortedChain;
    ChainNodes(s.keys, s.lists[0]);
  }

  lemma ContentsByMembers(s: State, s': State, n: nat)
    requires ListsOk(s) && ListsOk(s') && s.keys == s'.keys && n != HEAD && n < |s.keys|
    requires forall m :: m in s'.lists[0] <==> m in s.lists[0] || m == n
    ensures Contents(s') == Contents(s) + {s.keys[n]}
  {
    hide Linked, Contained, SortedChain;
    var list, list' := s.lists[0], s'.lists[0];
    ChainNodes(s.keys, list);
    ChainNodes(s.keys, list');
    ChainHead(s.keys, list);
    ChainHead(s.keys, list');
    forall k | k in Contents(s') ensures k in Contents(s) + {s.keys[n]} {
      var i :| 1 <= i < |list'| && s.keys[list'[i]] == k;
      assert list'[i] in list';
    }
    forall k | k in Contents(s) + {s.keys[n]} ensures k in Contents(s') {
      if k == s.keys[n] {
        assert n in list';
        var j :| 0 <= j < |list'| && list'[j] == n;
      } else {
        var i :| 1 <= i < |list| && s.keys[list[i]] == k;
        assert list[i] in list';
        var j :| 0 <= j < |list'| && list'[j] == list[i];
      }
    }
  }

  // ----- whole runs -----

  ghost function Run(s: State, actions: seq<Action>): Option<State>
    decreases |actions|
  {
    if actions == [] then Some(s)
    else if Enabled(s, actions[0]) then Run(Apply(s, actions[0]), actions[1..])
    else None
  }

  lemma {:induction false} RunKeepsInv(s: State, actions: seq<Action>)
    requires Inv(s) && Run(s, actions).Some?
    ensures Inv(Run(s, actions).value)
    decreases |actions|
  {
    hide Inv, Enabled, Apply;
    if actions != [] {
      StepKeepsInv(s, actions[0]);
      RunKeepsInv(Apply(s, actions[0]), actions[1..]);
    }
  }

  /** In every interleaving, a search that ends returns the exact neighbours of its target. */
  lemma EveryReadIsExact(actions: seq<Action>, s: State, r: nat)
    requires Run(InitialState(), actions) == Some(s)
    requires Enabled(s, ReadStep(r)) && Apply(s, ReadStep(r)).readers[r].Found?
    ensures ListsOk(s)
    ensures var f := Apply(s, ReadStep(r)).readers[r];
            f.target == s.readers[r].target && IsBracket(s, f.target, f.x, f.next)
  {
    InitialInv();
    RunKeepsInv(InitialState(), actions);
    ReadIsLinearizable(s, r);
  }

  // ----- the writer's own code -----

  /** FindGreaterOrEqual with a prev array: at every level the last node before the key. */
  method FindGreaterOrEqual(s: State, key: int) returns (found: Option<nat>, prev: seq<nat>)
    requires ListsOk(s) && HeightOk(s) && key !in Contents(s)
    ensures |prev| == MAX_HEIGHT && forall l :: 0 <= l < MAX_HEIGHT ==> IsPrev(s, key, l, prev[l])
    ensures IsBracket(s, Key(key), prev[0], found)
  {
    prev := seq(MAX_HEIGHT, _ => HEAD);
    var x: nat, level: nat := HEAD, s.maxHeight - 1;
    ghost var i := 0;
    forall l | s.maxHeight <= l < MAX_HEIGHT ensures IsPrev(s, key, l, prev[l]) { HeadIsPrev(s, key, l); }
    while true
      invariant |prev| == MAX_HEIGHT && 0 <= level < MAX_HEIGHT
      invariant 0 <= i < |s.lists[level]| && s.lists[level][i] == x
      invariant x != HEAD ==> x < |s.keys| && s.keys[x] < key
      invariant forall l :: level < l < MAX_HEIGHT ==> IsPrev(s, key, l, prev[l])
      decreases level, |s.lists[level]| - i
    {
      assert SortedChain(s.keys, s.lists[level]) && LinkAt(s.next[level], s.lists[level], i) by { hide Contained; }
      var next := s.next[level][x];
      if IsAfter(s.keys, Key(key), next) {
        x, i := next.value, i + 1;
      } else {
        prev := prev[level := x];
        PrevHere(s, key, level, i);
        if level == 0 {
          BracketAt(s, Key(key), i);
          return next, prev;
        }
        assert x in s.lists[level - 1] by { assert Contained(s.lists[level], s.lists[level - 1]); }
        level := level - 1;
        i :| 0 <= i < |s.lists[level]| && s.lists[level][i] == x;
      }
    }
  }

  lemma HeadIsPrev(s: State, key: int, l: nat)
    requires l < |s.lists| && s.lists[l] == [HEAD]
    ensures IsPrev(s, key, l, HEAD)
  {
    assert LastBefore(s.keys, s.lists[l], key, HEAD, 0);
  }

  lemma PrevHere(s: State, key: int, l: nat, i: nat)
    requires ListsOk(s) && key !in Contents(s) && l < MAX_HEIGHT && i < |s.lists[l]|
    requires s.lists[l][i] != HEAD ==> s.keys[s.lists[l][i]] < key
    requires i + 1 < |s.lists[l]| ==> s.keys[s.lists[l][i + 1]] >= key
    ensures IsPrev(s, key, l, s.lists[l][i])
  {
    var list := s.lists[l];
    assert SortedChain(s.keys, list);
    forall j | i < j < |list| ensures s.keys[list[j]] > key {
      NodeInContents(s, l, list[j]);
    }
    hide ListsOk;
    assert LastBefore(s.keys, list, key, list[i], i);
  }

  lemma NodeInContents(s: State, l: nat, n: nat)
    requires ListsOk(s) && l < MAX_HEIGHT && n in s.lists[l] && n != HEAD
    ensures n < |s.keys| && s.keys[n] in Contents(s)
  {
    hide Linked;
    assert SortedChain(s.keys, s.lists[0]);
    assert n in s.lists[0] by { assert l > 0 ==> Contained(s.lists[l], s.lists[0]); }
    var i :| 0 <= i < |s.lists[0]| && s.lists[0][i] == n;
  }

  /** Insert, with nobody interfering: the key is added at the chosen height and nothing else changes. */
  method Insert(s: State, key: int, height: nat) returns (s': State)
    requires Inv(s) && s.writer.Idle? && key !in Contents(s) && 1 <= height <= MAX_HEIGHT
    ensures Inv(s') && s'.writer.Idle? && s'.readers == s.readers
    ensures Contents(s') == Contents(s) + {key}
    ensures s'.keys == s.keys + [key]
    ensures forall l :: 0 <= l < MAX_HEIGHT ==> (|s.keys| in s'.lists[l] <==> l < height)
  {
    hide SortedChain, Linked, IsPrev, Contained, IsAfter, InsertAfter, Contents, IsBracket, ReaderOk;
    var found, prev := FindGreaterOrEqual(s, key);
    ghost var a := StartInsert(key, height, prev);
    s' := Apply(s, StartInsert(key, height, prev));
    StepKeepsInv(s, a);
    ContentsAfter(s, a);
    for i := 0 to height
      invariant Inv(s') && s'.keys == s.keys + [key] && s'.readers == s.readers
      invariant s'.writer == if i < height then Linking(|s.keys|, height, prev, i, false) else Idle
      invariant Contents(s') == if i == 0 then Contents(s) else Contents(s) + {key}
      invariant forall l :: 0 <= l < MAX_HEIGHT ==> (|s.keys| in s'.lists[l] <==> l < i)
    {
      s' := LinkLevel(s');
    }
  }

  lemma WriterCanStep(s: State)
    requires ListsOk(s) && WriterOk(s) && s.writer.Linking? && !s.writer.own
    ensures Enabled(s, SetOwn)
  {
    var w := s.writer;
    var i := PrevIndex(s, s.keys[w.node], w.level, w.prev[w.level]);
    assert LinkAt(s.next[w.level], s.lists[w.level], i);
  }

  /** One iteration of the linking loop. */
  method LinkLevel(s: State) returns (s': State)
    requires Inv(s) && s.writer.Linking? && !s.writer.own
    ensures Inv(s') && s'.keys == s.keys && s'.readers == s.readers
    ensures var w := s.writer;
            s'.writer == if w.level + 1 == w.height then Idle else Linking(w.node, w.height, w.prev, w.level + 1, false)
    ensures Contents(s') == if s.writer.level == 0 then Contents(s) + {s.keys[s.writer.node]} else Contents(s)
    ensures forall l, n :: 0 <= l < MAX_HEIGHT ==>
              (n in s'.lists[l] <==> n in s.lists[l] || (l == s.writer.level && n == s.writer.node))
  {
    hide SortedChain, IsPrev, IsAfter, Contained, InsertAfter, Contents, ReaderOk;
    WriterCanStep(s);
    s' := Apply(s, SetOwn);
    StepKeepsInv(s, SetOwn);
    ContentsAfter(s, SetOwn);
    ghost var mid := s';
    StepKeepsInv(mid, Publish);
    ContentsAfter(mid, Publish);
    PublishLevel(mid);
    s' := Apply(s', Publish);
  }
}
