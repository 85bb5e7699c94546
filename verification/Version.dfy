/** Table files, levels and the searches over them: the model of db/version_set.cc. */
module Version {
  import opened Format

  const TARGET_FILE_SIZE := 2 * 1048576
  const MAX_GRANDPARENT_OVERLAP_BYTES := 10 * TARGET_FILE_SIZE
  const EXPANDED_COMPACTION_BYTE_SIZE_LIMIT := 25 * TARGET_FILE_SIZE

  /** A FileMetaData together with the entries of the table it names. */
  datatype TableFile = TableFile(number: nat, size: nat, entries: seq<Entry>)

  ghost predicate WellFormed(f: TableFile) {
    f.entries != [] && Sorted(f.entries) && forall e :: e in f.entries ==> e.sn < MAX_SEQUENCE
  }

  type Table = f: TableFile | WellFormed(f)
    witness TableFile(0, 0, [Entry(0, 0, Put, "")])

  function Smallest(f: Table): Entry { f.entries[0] }

  function Largest(f: Table): Entry { f.entries[|f.entries| - 1] }

  /** files_[0..6]; level 0 may hold overlapping files, the others hold disjoint sorted ones. */
  type Levels = v: seq<seq<Table>> | |v| == NUM_LEVELS
    witness [[], [], [], [], [], [], []]

  predicate AtOrAfterStart(k: UserKey, begin: Option<UserKey>) {
    begin.None? || begin.value <= k
  }

  predicate AtOrBeforeEnd(k: UserKey, end: Option<UserKey>) {
    end.None? || k <= end.value
  }

  /** k lies in [begin, end]; a missing bound is no bound. */
  predicate InRange(k: UserKey, begin: Option<UserKey>, end: Option<UserKey>) {
    AtOrAfterStart(k, begin) && AtOrBeforeEnd(k, end)
  }

  /** The user key range of f meets [begin, end]. */
  predicate Meets(f: Table, begin: Option<UserKey>, end: Option<UserKey>) {
    AtOrAfterStart(Largest(f).user, begin) && AtOrBeforeEnd(Smallest(f).user, end)
  }

  /** The user key range of f lies inside [begin, end]. */
  predicate Inside(f: Table, begin: Option<UserKey>, end: Option<UserKey>) {
    AtOrAfterStart(Smallest(f).user, begin) && AtOrBeforeEnd(Largest(f).user, end)
  }

  predicate Contains(f: Table, k: UserKey) {
    Smallest(f).user <= k <= Largest(f).user
  }

  lemma BoundsHold(f: Table, e: Entry)
    requires e in f.entries
    ensures AtOrBefore(Smallest(f), e) && AtOrBefore(e, Largest(f)) && Contains(f, e.user)
  {
  }

  ghost predicate DisjointSorted(files: seq<Table>) {
    forall i, j :: 0 <= i < j < |files| ==> Before(Largest(files[i]), Smallest(files[j]))
  }

  // ----- searches -----

  /** The binary search of a level for the first file whose largest key is at or after (u, s). */
  method FindFile(files: seq<Table>, u: UserKey, s: nat) returns (index: nat)
    requires DisjointSorted(files)
    ensures index <= |files|
    ensures forall i :: 0 <= i < index ==> BeforeLookup(Largest(files[i]), u, s)
    ensures forall i :: index <= i < |files| ==> !BeforeLookup(Largest(files[i]), u, s)
  {
    var left, right := 0, |files|;
    while left < right
      invariant 0 <= left <= right <= |files|
      invariant forall i :: 0 <= i < left ==> BeforeLookup(Largest(files[i]), u, s)
      invariant forall i :: right <= i < |files| ==> !BeforeLookup(Largest(files[i]), u, s)
    {
      var mid := (left + right) / 2;
      if BeforeLookup(Largest(files[mid]), u, s) {
        left := mid + 1;
      } else {
        right := mid;
      }
    }
    index := right;
  }

  /** Whether some file meets the range: a scan at level 0, one binary search elsewhere. */
  method SomeFileOverlapsRange(files: seq<Table>, disjointSorted: bool, lo: Option<UserKey>, hi: Option<UserKey>)
      returns (overlap: bool)
    requires disjointSorted ==> DisjointSorted(files)
    ensures overlap <==> exists f :: f in files && Meets(f, lo, hi)
  {
    if !disjointSorted {
      for i := 0 to |files|
        invariant forall j :: 0 <= j < i ==> !Meets(files[j], lo, hi)
      {
        if Meets(files[i], lo, hi) {
          return true;
        }
      }
      return false;
    }
    var index := 0;
    if lo.Some? {
      index := FindFile(files, lo.value, MAX_SEQUENCE);
    }
    if index >= |files| {
      return false;
    }
    overlap := AtOrBeforeEnd(Smallest(files[index]).user, hi);
    if overlap {
      assert Meets(files[index], lo, hi);
    }
  }

  /** The files among `files` that meet the range, in order. */
  ghost function Meeting(files: seq<Table>, begin: Option<UserKey>, end: Option<UserKey>): seq<Table> {
    if files == [] then []
    else
      var f := files[|files| - 1];
      Meeting(files[..|files| - 1], begin, end) + if Meets(f, begin, end) then [f] else []
  }

  lemma {:induction false} MeetingMembers(files: seq<Table>, begin: Option<UserKey>, end: Option<UserKey>)
    ensures forall f :: f in Meeting(files, begin, end) <==> f in files && Meets(f, begin, end)
  {
    if files != [] {
      MeetingMembers(files[..|files| - 1], begin, end);
      assert files == files[..|files| - 1] + [files[|files| - 1]];
    }
  }

  /** The inputs are listed in the order of their level, none twice. */
  ghost predicate InListOrder(inputs: seq<Table>, files: seq<Table>) {
    forall i, j :: 0 <= i < j < |inputs| ==> Precedes(inputs[i], inputs[j], files)
  }

  ghost predicate Precedes(f: Table, g: Table, files: seq<Table>) {
    exists a, b :: 0 <= a < b < |files| && files[a] == f && files[b] == g
  }

  lemma {:induction false} MeetingInOrder(files: seq<Table>, begin: Option<UserKey>, end: Option<UserKey>)
    ensures InListOrder(Meeting(files, begin, end), files)
  {
    hide Precedes;
    if files != [] {
      var init, n := files[..|files| - 1], |files| - 1;
      var before, met := Meeting(init, begin, end), Meeting(files, begin, end);
      MeetingInOrder(init, begin, end);
      MeetingMembers(init, begin, end);
      forall i, j | 0 <= i < j < |met| ensures Precedes(met[i], met[j], files) {
        assert met[i] == before[i];
        if j < |before| {
          PrecedesLonger(before[i], before[j], files);
        } else {
          LastFollows(before[i], files);
        }
      }
    }
  }

  lemma PrecedesLonger(f: Table, g: Table, files: seq<Table>)
    requires files != [] && Precedes(f, g, files[..|files| - 1])
    ensures Precedes(f, g, files)
  {
    var a, b :| 0 <= a < b < |files| - 1 && files[..|files| - 1][a] == f && files[..|files| - 1][b] == g;
    assert files[a] == f && files[b] == g;
  }

  lemma LastFollows(f: Table, files: seq<Table>)
    requires files != [] && f in files[..|files| - 1]
    ensures Precedes(f, files[|files| - 1], files)
  {
    var a :| 0 <= a < |files| - 1 && files[..|files| - 1][a] == f;
    assert files[a] == f;
  }

  /** Every file touching the range lies inside it. */
  ghost predicate ClosedRange(files: seq<Table>, begin: Option<UserKey>, end: Option<UserKey>) {
    forall f :: f in files && Meets(f, begin, end) ==> Inside(f, begin, end)
  }

  /** [b, e] contains [b', e'], with unbounded sides matching unbounded sides. */
  predicate Includes(b: Option<UserKey>, e: Option<UserKey>, b': Option<UserKey>, e': Option<UserKey>) {
    && (b.None? || (b'.Some? && b.value <= b'.value))
    && (e.None? || (e'.Some? && e'.value <= e.value))
  }

  ghost function StartingBelow(files: seq<Table>, begin: Option<UserKey>): set<nat> {
    set i | 0 <= i < |files| && begin.Some? && Smallest(files[i]).user < begin.value
  }

  ghost function EndingAbove(files: seq<Table>, end: Option<UserKey>): set<nat> {
    set i | 0 <= i < |files| && end.Some? && Largest(files[i]).user > end.value
  }

  lemma FewerBelow(files: seq<Table>, i: nat, begin: Option<UserKey>)
    requires i < |files| && begin.Some? && Smallest(files[i]).user < begin.value
    ensures StartingBelow(files, Some(Smallest(files[i]).user)) < StartingBelow(files, begin)
  {
    assert i in StartingBelow(files, begin) && i !in StartingBelow(files, Some(Smallest(files[i]).user));
  }

  lemma FewerAbove(files: seq<Table>, i: nat, end: Option<UserKey>)
    requires i < |files| && end.Some? && Largest(files[i]).user > end.value
    ensures EndingAbove(files, Some(Largest(files[i]).user)) < EndingAbove(files, end)
  {
    assert i in EndingAbove(files, end) && i !in EndingAbove(files, Some(Largest(files[i]).user));
  }

  lemma MeetingNone(begin: Option<UserKey>, end: Option<UserKey>)
    ensures Meeting([], begin, end) == []
  {
  }

  lemma MeetingOneMore(files: seq<Table>, i: nat, begin: Option<UserKey>, end: Option<UserKey>)
    requires i < |files|
    ensures Meeting(files[..i + 1], begin, end)
            == Meeting(files[..i], begin, end) + if Meets(files[i], begin, end) then [files[i]] else []
  {
    assert files[..i + 1][..i] == files[..i];
  }

  /** Every key of [b, e] is in [begin, end] or inside some file. */
  ghost predicate CoveredBeyond(files: seq<Table>, begin: Option<UserKey>, end: Option<UserKey>,
                                b: Option<UserKey>, e: Option<UserKey>) {
    forall k :: InRange(k, b, e) && !InRange(k, begin, end) ==> Covered(files, k)
  }

  ghost predicate Covered(fs: seq<Table>, k: UserKey) {
    exists c :: c in fs && Contains(c, k)
  }

  /** [b, e] lies inside every closed range around [begin, end]. */
  ghost predicate WithinClosed(files: seq<Table>, begin: Option<UserKey>, end: Option<UserKey>,
                               b: Option<UserKey>, e: Option<UserKey>) {
    forall lo, hi :: Includes(lo, hi, begin, end) && ClosedRange(files, lo, hi) ==> Includes(lo, hi, b, e)
  }

  /** Widening the range to a file that meets it stays within every closed range and adds no gap. */
  lemma Widen(files: seq<Table>, f: Table, begin: Option<UserKey>, end: Option<UserKey>,
              b: Option<UserKey>, e: Option<UserKey>, b': Option<UserKey>, e': Option<UserKey>)
    requires f in files && Meets(f, b, e)
    requires b.Some? && e.Some? ==> b.value <= e.value
    requires CoveredBeyond(files, begin, end, b, e) && WithinClosed(files, begin, end, b, e)
    requires (b' == b || (b.Some? && b' == Some(Smallest(f).user)))
             && (e' == e || (e.Some? && e' == Some(Largest(f).user)))
    ensures CoveredBeyond(files, begin, end, b', e') && WithinClosed(files, begin, end, b', e')
  {
    forall k | InRange(k, b', e') && !InRange(k, begin, end) ensures Covered(files, k) {
      if !InRange(k, b, e) {
        assert Contains(f, k);
      }
    }
    forall lo, hi | Includes(lo, hi, begin, end) && ClosedRange(files, lo, hi) ensures Includes(lo, hi, b', e') {
      assert Meets(f, lo, hi);
    }
  }

  lemma NothingBeyond(files: seq<Table>, begin: Option<UserKey>, end: Option<UserKey>)
    ensures CoveredBeyond(files, begin, end, begin, end) && WithinClosed(files, begin, end, begin, end)
  {
  }

  /** The overlap search.  At level 0 it restarts whenever a file widens the range; it returns the
      files meeting the smallest closed range [b, e] around [begin, end], and [b, e] has no key outside
      [begin, end] that no file covers.  Each restart removes a file bound from outside the range. */
  method GetOverlappingInputs(files: seq<Table>, level: nat, begin: Option<UserKey>, end: Option<UserKey>)
      returns (inputs: seq<Table>, b: Option<UserKey>, e: Option<UserKey>)
    requires begin.Some? && end.Some? ==> begin.value <= end.value
    ensures inputs == Meeting(files, b, e)
    ensures Includes(b, e, begin, end)
    ensures begin.None? <==> b.None?
    ensures end.None? <==> e.None?
    ensures level > 0 ==> b == begin && e == end
    ensures level == 0 ==> ClosedRange(files, b, e) && CoveredBeyond(files, begin, end, b, e)
    ensures WithinClosed(files, begin, end, b, e)
  {
    hide CoveredBeyond, WithinClosed, StartingBelow, EndingAbove, Meeting;
    var userBegin, userEnd := begin, end;
    NothingBeyond(files, begin, end);
    MeetingNone(userBegin, userEnd);
    inputs := [];
    var i := 0;
    while i < |files|
      invariant 0 <= i <= |files|
      invariant inputs == Meeting(files[..i], userBegin, userEnd)
      invariant Includes(userBegin, userEnd, begin, end)
      invariant userBegin.Some? && userEnd.Some? ==> userBegin.value <= userEnd.value
      invariant begin.None? <==> userBegin.None?
      invariant end.None? <==> userEnd.None?
      invariant level > 0 ==> userBegin == begin && userEnd == end
      invariant level == 0 ==> forall j :: 0 <= j < i && Meets(files[j], userBegin, userEnd) ==>
                Inside(files[j], userBegin, userEnd)
      invariant CoveredBeyond(files, begin, end, userBegin, userEnd)
      invariant WithinClosed(files, begin, end, userBegin, userEnd)
      decreases StartingBelow(files, userBegin), EndingAbove(files, userEnd), |files| - i
    {
      var f := files[i];
      MeetingOneMore(files, i, userBegin, userEnd);
      ghost var at := i;
      i := i + 1;
      if Meets(f, userBegin, userEnd) {
        inputs := inputs + [f];
        if level == 0 {
          if userBegin.Some? && Smallest(f).user < userBegin.value {
            Widen(files, f, begin, end, userBegin, userEnd, Some(Smallest(f).user), userEnd);
            FewerBelow(files, at, userBegin);
            userBegin := Some(Smallest(f).user);
            MeetingNone(userBegin, userEnd);
            inputs, i := [], 0;
          } else if userEnd.Some? && Largest(f).user > userEnd.value {
            Widen(files, f, begin, end, userBegin, userEnd, userBegin, Some(Largest(f).user));
            FewerAbove(files, at, userEnd);
            userEnd := Some(Largest(f).user);
            MeetingNone(userBegin, userEnd);
            inputs, i := [], 0;
          }
        }
      }
    }
    assert files[..i] == files;
    b, e := userBegin, userEnd;
  }

  ghost predicate Overlaps(files: seq<Table>, lo: UserKey, hi: UserKey) {
    exists f :: f in files && Meets(f, Some(lo), Some(hi))
  }

  /** The files of a level that meet the range are too large together to merge with later. */
  ghost predicate HeavyOverlap(v: Levels, level: nat, lo: UserKey, hi: UserKey) {
    level < NUM_LEVELS && TotalFileSize(Meeting(v[level], Some(lo), Some(hi))) > MAX_GRANDPARENT_OVERLAP_BYTES
  }

  /** The level that receives a flushed memtable: it skips levels only where it meets nothing, and stops early only
      at an overlap or above a level that it would overlap too much. */
  method PickLevelForMemTableOutput(v: Levels, lo: UserKey, hi: UserKey) returns (level: nat)
    requires lo <= hi
    requires forall l :: 1 <= l < NUM_LEVELS ==> DisjointSorted(v[l])
    ensures level <= MAX_MEM_COMPACT_LEVEL
    ensures level > 0 ==> forall l, f :: 0 <= l <= level && f in v[l] ==> !Meets(f, Some(lo), Some(hi))
    ensures forall l: nat :: 1 < l <= level + 1 ==> !HeavyOverlap(v, l, lo, hi)
    ensures level < MAX_MEM_COMPACT_LEVEL ==>
              (level == 0 && Overlaps(v[0], lo, hi)) || Overlaps(v[level + 1], lo, hi)
                  || HeavyOverlap(v, level + 2, lo, hi)
  {
    level := 0;
    var overlap := SomeFileOverlapsRange(v[0], false, Some(lo), Some(hi));
    if !overlap {
      while level < MAX_MEM_COMPACT_LEVEL
        invariant level <= MAX_MEM_COMPACT_LEVEL
        invariant forall l, f :: 0 <= l <= level && f in v[l] ==> !Meets(f, Some(lo), Some(hi))
        invariant forall l: nat :: 1 < l <= level + 1 ==> !HeavyOverlap(v, l, lo, hi)
      {
        overlap := SomeFileOverlapsRange(v[level + 1], true, Some(lo), Some(hi));
        if overlap {
          break;
        }
        if level + 2 < NUM_LEVELS {
          var overlaps, _, _ := GetOverlappingInputs(v[level + 2], level + 2, Some(lo), Some(hi));
          if TotalFileSize(overlaps) > MAX_GRANDPARENT_OVERLAP_BYTES {
            break;
          }
        }
        level := level + 1;
      }
    }
  }

  function TotalFileSize(files: seq<Table>): nat {
    if files == [] then 0 else files[0].size + TotalFileSize(files[1..])
  }

  /** Sizes add up: of one file it is its own size, and of two lists their sum. */
  lemma {:induction false} TotalFileSizeAddsUp(f: Table, a: seq<Table>, b: seq<Table>)
    ensures TotalFileSize([]) == 0 && TotalFileSize([f]) == f.size
    ensures TotalFileSize(a + b) == TotalFileSize(a) + TotalFileSize(b)
    decreases |a|
  {
    if a == [] {
      assert a + b == b;
    } else {
      assert (a + b)[1..] == a[1..] + b;
      TotalFileSizeAddsUp(f, a[1..], b);
    }
  }

  // ----- choosing the inputs of a compaction -----

  /** The smallest and largest internal keys over a non-empty list of files. */
  method GetRange(inputs: seq<Table>) returns (smallest: Entry, largest: Entry)
    requires inputs != []
    ensures forall f :: f in inputs ==> AtOrBefore(smallest, Smallest(f)) && AtOrBefore(Largest(f), largest)
    ensures exists f :: f in inputs && Smallest(f) == smallest
    ensures exists f :: f in inputs && Largest(f) == largest
    ensures smallest.user <= largest.user
  {
    smallest, largest := Smallest(inputs[0]), Largest(inputs[0]);
    ghost var first, last := 0, 0;
    for i := 1 to |inputs|
      invariant 0 <= first < i && Smallest(inputs[first]) == smallest
      invariant 0 <= last < i && Largest(inputs[last]) == largest
      invariant forall j :: 0 <= j < i ==>
                AtOrBefore(smallest, Smallest(inputs[j])) && AtOrBefore(Largest(inputs[j]), largest)
    {
      if Before(Smallest(inputs[i]), smallest) {
        smallest, first := Smallest(inputs[i]), i;
      }
      if Before(largest, Largest(inputs[i])) {
        largest, last := Largest(inputs[i]), i;
      }
    }
    BoundsHold(inputs[first], Largest(inputs[first]));
  }

  /** The range of f meets the hull of the files in fs. */
  ghost predicate MeetsHull(f: Table, fs: seq<Table>) {
    exists a, b :: a in fs && b in fs && Smallest(a).user <= Largest(f).user && Smallest(f).user <= Largest(b).user
  }

  /** Every key in the hull of fs lies inside one of the files. */
  ghost predicate NoGap(fs: seq<Table>) {
    forall a, b, k :: a in fs && b in fs && Smallest(a).user <= k <= Largest(b).user ==> Covered(fs, k)
  }

  /** Level 0: the chosen files are closed under overlap. */
  ghost predicate LevelZeroClosed(v: Levels, level: nat, in0: seq<Table>) {
    level == 0 ==> forall f :: f in v[0] && MeetsHull(f, in0) ==> f in in0
  }

  /** What PickCompaction and SetupOtherInputs establish about the files they choose. */
  ghost predicate InputsOk(v: Levels, level: nat, in0: seq<Table>, in1: seq<Table>) {
    && level + 1 < NUM_LEVELS
    && in0 != [] && (forall f :: f in in0 ==> f in v[level])
    && (forall f :: f in in1 <==> f in v[level + 1] && MeetsHull(f, in0))
    && LevelZeroClosed(v, level, in0)
    && NoGap(in0 + in1)
  }

  lemma HullIsRange(f: Table, fs: seq<Table>, smallest: Entry, largest: Entry)
    requires forall g :: g in fs ==> AtOrBefore(smallest, Smallest(g)) && AtOrBefore(Largest(g), largest)
    requires exists g :: g in fs && Smallest(g) == smallest
    requires exists g :: g in fs && Largest(g) == largest
    ensures MeetsHull(f, fs) <==> Meets(f, Some(smallest.user), Some(largest.user))
  {
  }

  lemma RangeIsHull(fs: seq<Table>, smallest: Entry, largest: Entry)
    requires forall g :: g in fs ==> AtOrBefore(smallest, Smallest(g)) && AtOrBefore(Largest(g), largest)
    requires exists g :: g in fs && Smallest(g) == smallest
    requires exists g :: g in fs && Largest(g) == largest
    ensures IsHull(fs, smallest.user, largest.user)
  {
  }

  lemma NextLevelLeavesNoGap(next: seq<Table>, in0: seq<Table>, in1: seq<Table>)
    requires NoGap(in0)
    requires forall f :: f in in1 <==> f in next && MeetsHull(f, in0)
    ensures NoGap(in0 + in1)
  {
    forall a, b, k | a in in0 + in1 && b in in0 + in1 && Smallest(a).user <= k <= Largest(b).user
      ensures Covered(in0 + in1, k)
    {
      if Contains(a, k) || Contains(b, k) {
      } else {
        // k lies strictly between a and b; both reach the hull of in0, so k is inside it.
        var lo := if a in in0 then a else var x, y :| x in in0 && y in in0 && Smallest(x).user <= Largest(a).user
            && Smallest(a).user <= Largest(y).user; x;
        var hi := if b in in0 then b else var x, y :| x in in0 && y in in0 && Smallest(x).user <= Largest(b).user
            && Smallest(b).user <= Largest(y).user; y;
        assert Smallest(lo).user <= k <= Largest(hi).user;
        assert Covered(in0, k);
      }
    }
  }

  /** Widening the inputs of `level` to everything meeting the whole compaction leaves no gap. */
  lemma ExpandedLeavesNoGap(v: Levels, level: nat, in0: seq<Table>, in1: seq<Table>, expanded0: seq<Table>,
                            lo: UserKey, hi: UserKey, b: Option<UserKey>, e: Option<UserKey>)
    requires InputsOk(v, level, in0, in1) && lo <= hi
    requires forall f :: f in in0 + in1 ==> lo <= Smallest(f).user && Largest(f).user <= hi
    requires forall k :: lo <= k <= hi ==> Covered(in0 + in1, k)
    requires expanded0 == Meeting(v[level], b, e) && Includes(b, e, Some(lo), Some(hi)) && b.Some? && e.Some?
    requires level > 0 ==> b == Some(lo) && e == Some(hi)
    requires level == 0 ==> ClosedRange(v[0], b, e) && CoveredBeyond(v[0], Some(lo), Some(hi), b, e)
    ensures forall f :: f in in0 ==> f in expanded0
    ensures forall f :: f in in1 ==> MeetsHull(f, expanded0)
    ensures LevelZeroClosed(v, level, expanded0)
    ensures forall k, a :: a in expanded0 && (Smallest(a).user <= k < lo || hi < k <= Largest(a).user) ==>
            Covered(expanded0, k)
  {
    MeetingMembers(v[level], b, e);
    assert forall f :: f in in0 ==> f in in0 + in1;
    forall k, a | a in expanded0 && (Smallest(a).user <= k < lo || hi < k <= Largest(a).user)
      ensures Covered(expanded0, k)
    {
      if level > 0 {
        assert Contains(a, k);
      } else {
        assert Inside(a, b, e);
        assert InRange(k, b, e) && !InRange(k, Some(lo), Some(hi));
        assert Covered(v[0], k);
      }
    }
  }

  lemma ExpandedInputsOk(v: Levels, level: nat, in0: seq<Table>, in1: seq<Table>, ex0: seq<Table>, ex1: seq<Table>,
                         lo: UserKey, hi: UserKey)
    requires InputsOk(v, level, in0, in1)
    requires forall f :: f in in0 ==> f in ex0
    requires forall f :: f in ex0 ==> f in v[level]
    requires forall f :: f in ex1 <==> f in v[level + 1] && MeetsHull(f, ex0)
    requires forall f :: f in in1 ==> MeetsHull(f, ex0)
    requires LevelZeroClosed(v, level, ex0)
    requires forall k :: lo <= k <= hi ==> Covered(in0 + in1, k)
    requires forall k, a :: a in ex0 && (Smallest(a).user <= k < lo || hi < k <= Largest(a).user) ==> Covered(ex0, k)
    ensures InputsOk(v, level, ex0, ex1)
  {
    assert in0[0] in ex0;
    forall a, b, k | a in ex0 + ex1 && b in ex0 + ex1 && Smallest(a).user <= k <= Largest(b).user
      ensures Covered(ex0 + ex1, k)
    {
      if lo <= k <= hi {
        assert Covered(in0 + in1, k);
      } else if Contains(a, k) || Contains(b, k) {
      } else {
        var x := if a in ex0 then a else var x, y :| x in ex0 && y in ex0 && Smallest(x).user <= Largest(a).user
            && Smallest(a).user <= Largest(y).user; x;
        var y := if b in ex0 then b else var x, y :| x in ex0 && y in ex0 && Smallest(x).user <= Largest(b).user
            && Smallest(b).user <= Largest(y).user; y;
        assert Smallest(x).user <= k <= Largest(y).user;
        assert Covered(ex0, k);
      }
    }
  }

  lemma HullCovered(fs: seq<Table>, smallest: Entry, largest: Entry)
    requires NoGap(fs)
    requires exists f :: f in fs && Smallest(f) == smallest
    requires exists f :: f in fs && Largest(f) == largest
    ensures forall k :: smallest.user <= k <= largest.user ==> Covered(fs, k)
  {
    var a :| a in fs && Smallest(a) == smallest;
    var b :| b in fs && Largest(b) == largest;
    forall k | smallest.user <= k <= largest.user ensures Covered(fs, k) {
      assert Smallest(a).user <= k <= Largest(b).user;
    }
  }

  /** The files of `files` that meet the hull [b, e] of the inputs. */
  method OverlappingHull(files: seq<Table>, inputs: seq<Table>, level: nat)
      returns (overlapping: seq<Table>, b: UserKey, e: UserKey)
    requires inputs != [] && level > 0
    ensures overlapping == Meeting(files, Some(b), Some(e)) && InListOrder(overlapping, files)
    ensures forall f :: MeetsHull(f, inputs) <==> Meets(f, Some(b), Some(e))
    ensures forall f :: f in overlapping <==> f in files && MeetsHull(f, inputs)
  {
    var smallest, largest := GetRange(inputs);
    b, e := smallest.user, largest.user;
    var b', e';
    overlapping, b', e' := GetOverlappingInputs(files, level, Some(b), Some(e));
    MeetingMembers(files, Some(b), Some(e));
    MeetingInOrder(files, Some(b), Some(e));
    forall f ensures MeetsHull(f, inputs) <==> Meets(f, Some(b), Some(e)) {
      HullIsRange(f, inputs, smallest, largest);
    }
  }

  /** A wider range that meets no more files meets the same files. */
  lemma {:induction false} SameMeeting(files: seq<Table>, b: UserKey, e: UserKey, b': UserKey, e': UserKey)
    requires forall f :: f in files && Meets(f, Some(b), Some(e)) ==> Meets(f, Some(b'), Some(e'))
    ensures |Meeting(files, Some(b), Some(e))| <= |Meeting(files, Some(b'), Some(e'))|
    ensures |Meeting(files, Some(b), Some(e))| == |Meeting(files, Some(b'), Some(e'))| ==>
            Meeting(files, Some(b), Some(e)) == Meeting(files, Some(b'), Some(e'))
  {
    if files != [] {
      SameMeeting(files[..|files| - 1], b, e, b', e');
    }
  }

  /** [begin, end] is the range of user keys of the files. */
  ghost predicate IsHull(fs: seq<Table>, begin: UserKey, end: UserKey) {
    && (forall f :: f in fs ==> begin <= Smallest(f).user && Largest(f).user <= end)
    && (exists f :: f in fs && Smallest(f).user == begin) && (exists f :: f in fs && Largest(f).user == end)
  }

  /** [b, e] is the range that the overlap search of a level ends with: at level 0 the least closed one. */
  ghost predicate SearchRange(files: seq<Table>, level: nat, begin: UserKey, end: UserKey, b: UserKey, e: UserKey) {
    && Includes(Some(b), Some(e), Some(begin), Some(end))
    && (level > 0 ==> b == begin && e == end)
    && (level == 0 ==> ClosedRange(files, Some(b), Some(e)))
    && WithinClosed(files, Some(begin), Some(end), Some(b), Some(e))
  }

  /** The files of a level that overlap the range of the inputs. */
  ghost predicate IsWide(files: seq<Table>, level: nat, inputs: seq<Table>, wide: seq<Table>) {
    exists begin, end, b, e :: IsHull(inputs, begin, end) && SearchRange(files, level, begin, end, b, e)
                               && wide == Meeting(files, Some(b), Some(e))
  }

  lemma HullUnique(fs: seq<Table>, begin: UserKey, end: UserKey, begin': UserKey, end': UserKey)
    requires IsHull(fs, begin, end) && IsHull(fs, begin', end')
    ensures begin == begin' && end == end'
  {
  }

  lemma RangeUnique(files: seq<Table>, level: nat, begin: UserKey, end: UserKey,
                    b: UserKey, e: UserKey, b': UserKey, e': UserKey)
    requires SearchRange(files, level, begin, end, b, e) && SearchRange(files, level, begin, end, b', e')
    ensures b == b' && e == e'
  {
    hide ClosedRange;
    if level == 0 {
      assert Includes(Some(b), Some(e), Some(b'), Some(e')) && Includes(Some(b'), Some(e'), Some(b), Some(e));
    }
  }

  lemma WideUnique(files: seq<Table>, level: nat, inputs: seq<Table>, wide: seq<Table>, wide': seq<Table>)
    requires IsWide(files, level, inputs, wide) && IsWide(files, level, inputs, wide')
    ensures wide == wide'
  {
    hide IsHull, SearchRange;
    var begin, end, b, e :| IsHull(inputs, begin, end) && SearchRange(files, level, begin, end, b, e)
                            && wide == Meeting(files, Some(b), Some(e));
    var begin', end', b', e' :| IsHull(inputs, begin', end') && SearchRange(files, level, begin', end', b', e')
                                && wide' == Meeting(files, Some(b'), Some(e'));
    HullUnique(inputs, begin, end, begin', end');
    RangeUnique(files, level, begin, end, b, e, b', e');
  }

  /** Widening is worth it: it adds files of the level, no file of the next one, and stays below the size limit. */
  ghost predicate MayWiden(next: seq<Table>, picked: seq<Table>, in1: seq<Table>, wide: seq<Table>) {
    && |wide| > |picked| && TotalFileSize(in1) + TotalFileSize(wide) < EXPANDED_COMPACTION_BYTE_SIZE_LIMIT
    && forall f :: f in next && MeetsHull(f, wide) ==> f in in1
  }

  /** Of two ranges, the second of which meets all files that the first meets, both meet as many files if and only if
      the second meets no others. */
  lemma SameCount(files: seq<Table>, b: UserKey, e: UserKey, b': UserKey, e': UserKey)
    requires forall f :: f in files && Meets(f, Some(b), Some(e)) ==> Meets(f, Some(b'), Some(e'))
    ensures var few, many := Meeting(files, Some(b), Some(e)), Meeting(files, Some(b'), Some(e'));
            |many| == |few| <==> forall f :: f in files && Meets(f, Some(b'), Some(e')) ==> f in few
  {
    SameMeeting(files, b, e, b', e');
    MeetingMembers(files, Some(b), Some(e));
    MeetingMembers(files, Some(b'), Some(e'));
    if forall f :: f in files && Meets(f, Some(b'), Some(e')) ==> f in Meeting(files, Some(b), Some(e)) {
      SameMeeting(files, b', e', b, e);
    }
  }

  /** The files of `level` that meet the whole compaction. */
  method ExpandLevel(v: Levels, level: nat, in0: seq<Table>, in1: seq<Table>)
      returns (expanded0: seq<Table>, ghost lo: UserKey, ghost hi: UserKey)
    requires InputsOk(v, level, in0, in1)
    ensures forall f :: f in in0 ==> f in expanded0
    ensures forall f :: f in expanded0 ==> f in v[level]
    ensures forall f :: f in in1 ==> MeetsHull(f, expanded0)
    ensures LevelZeroClosed(v, level, expanded0) && InListOrder(expanded0, v[level])
    ensures IsWide(v[level], level, in0 + in1, expanded0)
    ensures forall k :: lo <= k <= hi ==> Covered(in0 + in1, k)
    ensures forall k, a :: a in expanded0 && (Smallest(a).user <= k < lo || hi < k <= Largest(a).user) ==>
            Covered(expanded0, k)
  {
    var allStart, allLimit := GetRange(in0 + in1);
    HullCovered(in0 + in1, allStart, allLimit);
    ghost var b, e;
    expanded0, b, e := GetOverlappingInputs(v[level], level, Some(allStart.user), Some(allLimit.user));
    MeetingMembers(v[level], b, e);
    MeetingInOrder(v[level], b, e);
    ExpandedLeavesNoGap(v, level, in0, in1, expanded0, allStart.user, allLimit.user, b, e);
    RangeIsHull(in0 + in1, allStart, allLimit);
    assert SearchRange(v[level], level, allStart.user, allLimit.user, b.value, e.value);
    lo, hi := allStart.user, allLimit.user;
  }

  /** Adds the files of the next level, then widens the files of `level` if that adds none to the next level and stays
      below the size limit. */
  method SetupOtherInputs(v: Levels, level: nat, picked: seq<Table>) returns (in0: seq<Table>, in1: seq<Table>)
    requires level + 1 < NUM_LEVELS
    requires picked != [] && (forall f :: f in picked ==> f in v[level])
    requires NoGap(picked) && LevelZeroClosed(v, level, picked) && InListOrder(picked, v[level])
    ensures InputsOk(v, level, in0, in1) && InListOrder(in0, v[level]) && InListOrder(in1, v[level + 1])
    ensures forall f :: f in picked ==> f in in0
    ensures forall f :: f in in1 <==> f in v[level + 1] && MeetsHull(f, picked)
    ensures in0 == picked || (in1 != [] && |in0| > |picked|
            && TotalFileSize(in1) + TotalFileSize(in0) < EXPANDED_COMPACTION_BYTE_SIZE_LIMIT)
    ensures forall wide :: in1 != [] && IsWide(v[level], level, picked + in1, wide) ==>
              in0 == if MayWiden(v[level + 1], picked, in1, wide) then wide else picked
  {
    hide NoGap, MeetsHull, LevelZeroClosed, InListOrder, IsWide;
    in0 := picked;
    var b, e;
    in1, b, e := OverlappingHull(v[level + 1], in0, level + 1);
    NextLevelLeavesNoGap(v[level + 1], in0, in1);
    if in1 != [] {
      var expanded0, lo, hi := ExpandLevel(v, level, in0, in1);
      forall wide | IsWide(v[level], level, picked + in1, wide) ensures wide == expanded0 {
        WideUnique(v[level], level, picked + in1, wide, expanded0);
      }
      if |expanded0| > |in0| && TotalFileSize(in1) + TotalFileSize(expanded0) < EXPANDED_COMPACTION_BYTE_SIZE_LIMIT {
        var expanded1, b', e' := OverlappingHull(v[level + 1], expanded0, level + 1);
        SameCount(v[level + 1], b, e, b', e');
        if |expanded1| == |in1| {
          ExpandedInputsOk(v, level, in0, in1, expanded0, expanded1, lo, hi);
          SameMeeting(v[level + 1], b, e, b', e');
          in0, in1 := expanded0, expanded1;
        }
      }
    }
  }

  /** An automatic compaction of the file at `index`; the scores and seek counts that choose the level
      and the file are left open, so every choice they can make is covered. */
  method PickCompaction(v: Levels, level: nat, index: nat) returns (in0: seq<Table>, in1: seq<Table>)
    requires level + 1 < NUM_LEVELS && index < |v[level]|
    ensures InputsOk(v, level, in0, in1) && InListOrder(in0, v[level]) && InListOrder(in1, v[level + 1])
    ensures v[level][index] in in0
    ensures level > 0 ==> forall f :: f in in1 <==> f in v[level + 1] && MeetsHull(f, [v[level][index]])
    ensures level > 0 && in1 == [] ==> in0 == [v[level][index]]
  {
    var f := v[level][index];
    var picked := [f];
    if level == 0 {
      var smallest, largest := GetRange(picked);
      ghost var b, e;
      picked, b, e := GetOverlappingInputs(v[0], 0, Some(smallest.user), Some(largest.user));
      MeetingMembers(v[0], b, e);
      MeetingInOrder(v[0], b, e);
      assert Meets(f, b, e);
      LevelZeroPickOk(v, f, picked, b, e);
    }
    in0, in1 := SetupOtherInputs(v, level, picked);
  }

  lemma LevelZeroPickOk(v: Levels, f: Table, picked: seq<Table>, b: Option<UserKey>, e: Option<UserKey>)
    requires f in v[0] && b.Some? && e.Some?
    requires forall g :: g in picked <==> g in v[0] && Meets(g, b, e)
    requires Includes(b, e, Some(Smallest(f).user), Some(Largest(f).user))
    requires ClosedRange(v[0], b, e)
    requires CoveredBeyond(v[0], Some(Smallest(f).user), Some(Largest(f).user), b, e)
    ensures NoGap(picked) && LevelZeroClosed(v, 0, picked)
  {
    forall x, y, k | x in picked && y in picked && Smallest(x).user <= k <= Largest(y).user
      ensures Covered(picked, k)
    {
      assert Inside(x, b, e) && Inside(y, b, e);
      if InRange(k, Some(Smallest(f).user), Some(Largest(f).user)) {
        assert f in picked && Contains(f, k);
      } else {
        assert Covered(v[0], k);
      }
    }
  }
}
