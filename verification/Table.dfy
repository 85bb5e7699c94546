/** Sorted tables: table/table_builder.cc writes them and table/table.cc opens them and looks keys up.  Keys
    are internal keys under the bytewise user comparator; blocks are not compressed. */
module Tables {
  import opened Format
  import opened Coding
  import opened ByteOrder
  import opened InternalKeys
  import opened Blocks
  import opened Bloom
  import opened FilterBlocks
  import opened Footers
  import L = Log

  // ----- blocks in a file -----

  /** The block type (no compression) and a checksum over contents and type. */
  function Trailer(step: L.CrcStep, contents: seq<byte>): (r: seq<byte>)
    ensures |r| == 5
  {
    [0] + Fixed(L.Mask(L.Extend(step, L.Extend(step, 0, contents), [0])), 4)
  }

  function ReadBlock(step: L.CrcStep, verify: bool, file: seq<byte>, h: Handle): Option<seq<byte>> {
    if h.offset + h.size + 5 > |file| then None
    else
      var data, n := file[h.offset..h.offset + h.size + 5], h.size;
      if verify && L.Unmask(DecodeFixed(data[n + 1..n + 5]) % 0x1_0000_0000) != L.Extend(step, 0, data[..n + 1])
          then None
      else if data[n] != 0 then None
      else Some(data[..n])
  }

  lemma ReadBlockBack(step: L.CrcStep, verify: bool, file: seq<byte>, h: Handle, contents: seq<byte>)
    requires h.size == |contents| && h.offset + h.size + 5 <= |file|
    requires file[h.offset..h.offset + h.size + 5] == contents + Trailer(step, contents)
    ensures ReadBlock(step, verify, file, h) == Some(contents)
  {
    hide L.Extend, L.Mask, L.Unmask, Fixed, DecodeFixed;
    var data, n := contents + Trailer(step, contents), h.size;
    var crc := L.Extend(step, 0, contents + [0]);
    L.ExtendConcat(step, 0, contents, [0]);
    assert data[n + 1..n + 5] == Fixed(L.Mask(crc), 4);
    assert data[..n + 1] == contents + [0] && data[..n] == contents;
    Fixed32RoundTrip(L.Mask(crc));
    L.UnmaskMask(crc);
  }

  /** A finished block that was written to the file. */
  datatype Stored = Stored(h: Handle, xs: seq<Pair>, l: Layout, bytes: seq<byte>, restarts: seq<nat>, counter: nat,
                           interval: nat)

  ghost predicate StoredAt(step: L.CrcStep, file: seq<byte>, b: Stored) {
    var data := FinishedBytes(b.bytes, b.restarts);
    && b.h.size == |data| && b.h.offset + b.h.size + 5 <= |file|
    && file[b.h.offset..b.h.offset + b.h.size + 5] == data + Trailer(step, data)
    && Entries(b.bytes, b.xs, b.l.offs, b.l.shared) && Restarts(|b.xs|, b.l, b.restarts, b.counter, b.interval)
  }

  lemma StoredStays(step: L.CrcStep, file: seq<byte>, more: seq<byte>, b: Stored)
    requires StoredAt(step, file, b)
    ensures StoredAt(step, file + more, b)
  {
    hide FinishedBytes, Trailer, Entries, Restarts;
    assert (file + more)[b.h.offset..b.h.offset + b.h.size + 5] == file[b.h.offset..b.h.offset + b.h.size + 5];
  }

  lemma StoredOpens(step: L.CrcStep, verify: bool, file: seq<byte>, b: Stored)
    requires StoredAt(step, file, b) && b.h.size < U32
    ensures ReadBlock(step, verify, file, b.h) == Some(FinishedBytes(b.bytes, b.restarts))
    ensures IsBlock(FinishedBytes(b.bytes, b.restarts), |b.bytes|, b.xs, b.l)
  {
    hide FinishedBytes, Trailer, Entries, Restarts, ReadBlock, IsBlock;
    RestartsCount(|b.xs|, b.l, b.restarts, b.counter, b.interval);
    FinishedEnds(b.bytes, b.restarts);
    FinishedIsBlock(b.bytes, b.restarts, b.xs, b.l, b.counter, b.interval);
    ReadBlockBack(step, verify, file, b.h, FinishedBytes(b.bytes, b.restarts));
  }

  lemma KeyOrder()
    ensures Transitive(KeyLess)
  {
    var less: Less := KeyLess;
    forall a, b, c | less(a, b) && less(b, c) ensures less(a, c) {
      KeyLessTransitive(a, b, c);
    }
  }

  // ----- what a table is -----

  /** Block i holds all[starts[i]..starts[i + 1]]. */
  ghost predicate Split(all: seq<Pair>, starts: seq<nat>, blocks: seq<Stored>) {
    && |starts| == |blocks| + 1 && starts[0] == 0 && starts[|blocks|] <= |all| && Increasing(starts)
    && forall i :: 0 <= i < |blocks| ==> BlockIs(all, starts, blocks, i)
  }

  ghost predicate BlockIs(all: seq<Pair>, starts: seq<nat>, blocks: seq<Stored>, i: nat)
    requires i < |blocks| && |starts| == |blocks| + 1
  {
    starts[i] < starts[i + 1] <= |all| && blocks[i].xs == all[starts[i]..starts[i + 1]]
  }

  ghost predicate InternalPairs(all: seq<Pair>) {
    forall j :: 0 <= j < |all| ==> |all[j].key| >= 8
  }

  /** An index key: the last key of its block, or one whose user key is after that and before the next block's. */
  ghost predicate Separator(all: seq<Pair>, end: nat, sep: seq<byte>)
    requires InternalPairs(all) && 0 < end <= |all|
  {
    var last := all[end - 1].key;
    && |sep| >= 8
    && (sep == last
        || (LexLess(User(last), User(sep)) && (end < |all| ==> LexLess(User(sep), User(all[end].key)))))
  }

  ghost predicate IndexOk(index: seq<Pair>, all: seq<Pair>, starts: seq<nat>, blocks: seq<Stored>)
    requires Split(all, starts, blocks) && InternalPairs(all)
  {
    && |index| <= |blocks|
    && forall i :: 0 <= i < |index| ==>
       index[i].value == EncodeHandle(blocks[i].h) && Separator(all, starts[i + 1], index[i].key)
  }

  /** Every key is in the filter of its block's offset. */
  ghost predicate Filtered(groups: seq<seq<seq<byte>>>, pending: seq<seq<byte>>, all: seq<Pair>, starts: seq<nat>,
                           blocks: seq<Stored>)
    requires Split(all, starts, blocks)
  {
    forall i, j :: 0 <= i < |blocks| && starts[i] <= j < starts[i + 1] ==>
        all[j].key in KeysFor(groups, pending, blocks[i].h.offset / 2048)
  }

  /** j is where a scan of the whole table for k would stop. */
  ghost predicate FirstAtOrAfter(all: seq<Pair>, k: seq<byte>, j: nat) {
    && j <= |all|
    && (forall i :: 0 <= i < j ==> KeyLess(all[i].key, k))
    && (forall i :: j <= i < |all| ==> !KeyLess(all[i].key, k))
  }

  // ----- the lookup, on lists -----

  lemma BlocksBefore(index: seq<Pair>, all: seq<Pair>, starts: seq<nat>, blocks: seq<Stored>, k: seq<byte>, i: nat,
                     j: nat)
    requires Split(all, starts, blocks) && InternalPairs(all) && Ascending(KeyLess, all)
             && IndexOk(index, all, starts, blocks)
    requires 0 < i <= |index| && KeyLess(index[i - 1].key, k) && j < starts[i]
    ensures KeyLess(all[j].key, k)
  {
    var last, sep := all[starts[i] - 1].key, index[i - 1].key;
    assert Separator(all, starts[i], sep);
    assert KeyLess(last, k) by {
      if sep != last {
        KeyLessTransitive(last, sep, k);
      }
    }
    if j < starts[i] - 1 {
      assert KeyLess(all[j].key, last);
      KeyLessTransitive(all[j].key, last, k);
    }
  }

  /** If the block found holds nothing at or after k, then no later entry has k's user key. */
  lemma NothingFollows(index: seq<Pair>, all: seq<Pair>, starts: seq<nat>, blocks: seq<Stored>, k: seq<byte>, i: nat)
    requires Split(all, starts, blocks) && InternalPairs(all) && IndexOk(index, all, starts, blocks) && |k| >= 8
    requires i < |index| && !KeyLess(index[i].key, k) && KeyLess(all[starts[i + 1] - 1].key, k)
    ensures starts[i + 1] < |all| ==> User(all[starts[i + 1]].key) != User(k)
  {
    var sep := index[i].key;
    assert Separator(all, starts[i + 1], sep);
    LexTotal(User(sep), User(k));
    if starts[i + 1] < |all| {
      LexTotal(User(sep), User(all[starts[i + 1]].key));
    }
  }

  // ----- the lookup -----

  /** What a finished table holds: its entries, where they are, its index block, its filter block, if it has one, and
      the metaindex block, which says where the filter block is. */
  datatype View = View(all: seq<Pair>, starts: seq<nat>, blocks: seq<Stored>, index: Stored, filter: Option<seq<byte>>,
                       filterHandle: Handle, meta: Stored)

  /** The blocks and the index block are in the file, hold the entries in order, and the index separates them. */
  ghost predicate LaidOut(step: L.CrcStep, file: seq<byte>, t: View) {
    && Split(t.all, t.starts, t.blocks) && t.starts[|t.blocks|] == |t.all|
    && InternalPairs(t.all) && Ascending(KeyLess, t.all)
    && (forall i :: 0 <= i < |t.blocks| ==> StoredAt(step, file, t.blocks[i]))
    && StoredAt(step, file, t.index) && |t.index.xs| == |t.blocks| && IndexOk(t.index.xs, t.all, t.starts, t.blocks)
    && Ascending(KeyLess, t.index.xs)
  }

  /** Handles are 64 bits wide; a single block, and the filter block, are read with 32-bit fields. */
  ghost predicate Addressable(file: seq<byte>, t: View) {
    && |file| < U64 && (forall i :: 0 <= i < |t.blocks| ==> t.blocks[i].h.size < U32) && t.index.h.size < U32
    && t.meta.h.size < U32
    && (t.filter.Some? ==> |t.filter.value| < U32)
  }

  ghost predicate IsTable(step: L.CrcStep, file: seq<byte>, policy: Policy, t: View) {
    && LaidOut(step, file, t) && Addressable(file, t)
    && (t.filter.Some? ==> NeverTurnedAway(policy, t.filter.value, t.all, t.starts, t.blocks))
  }

  /** `contents` was written raw, with its trailer. */
  ghost predicate RawAt(step: L.CrcStep, file: seq<byte>, h: Handle, contents: seq<byte>) {
    && h.size == |contents| && h.offset + h.size + 5 <= |file|
    && file[h.offset..h.offset + h.size + 5] == contents + Trailer(step, contents)
  }

  lemma RawStays(step: L.CrcStep, file: seq<byte>, more: seq<byte>, h: Handle, contents: seq<byte>)
    requires RawAt(step, file, h, contents)
    ensures RawAt(step, file + more, h, contents)
  {
    hide Trailer;
    assert (file + more)[h.offset..h.offset + h.size + 5] == file[h.offset..h.offset + h.size + 5];
  }

  /** "filter." */
  const FILTER_PREFIX: seq<byte> := [102, 105, 108, 116, 101, 114, 46]

  function MetaEntries(name: seq<byte>, filter: Option<seq<byte>>, h: Handle): seq<Pair> {
    if filter.Some? then [Pair(FILTER_PREFIX + name, EncodeHandle(h))] else []
  }

  /** The metaindex block names the filter block, and the footer ends the file. */
  ghost predicate Footed(step: L.CrcStep, file: seq<byte>, name: seq<byte>, t: View) {
    && StoredAt(step, file, t.meta) && t.meta.xs == MetaEntries(name, t.filter, t.filterHandle)
    && (t.filter.Some? ==> RawAt(step, file, t.filterHandle, t.filter.value))
    && |file| >= 48 && file == file[..|file| - 48] + FooterBytes(t.meta.h, t.index.h)
  }

  /** A file below 2^32 bytes has no block that is too large. */
  lemma SmallFile(step: L.CrcStep, file: seq<byte>, name: seq<byte>, t: View)
    requires LaidOut(step, file, t) && Footed(step, file, name, t) && |file| < U32
    ensures Addressable(file, t)
  {
    hide Split, Ascending, IndexOk, InternalPairs, FinishedBytes, Entries, Restarts, FooterBytes, Trailer, MetaEntries;
    forall i | 0 <= i < |t.blocks| ensures t.blocks[i].h.size < U32 {
      assert StoredAt(step, file, t.blocks[i]);
    }
  }

  ghost predicate NeverTurnedAway(policy: Policy, filter: seq<byte>, all: seq<Pair>, starts: seq<nat>,
                                  blocks: seq<Stored>)
    requires Split(all, starts, blocks) && InternalPairs(all)
  {
    forall i, j :: 0 <= i < |blocks| && starts[i] <= j < starts[i + 1] ==>
      BlockMayMatch(policy, filter, blocks[i].h.offset, all[j].key)
  }

  method OpenBlock(step: L.CrcStep, verify: bool, file: seq<byte>, less: Less, h: Handle, ghost b: Stored)
      returns (it: BlockIter)
    requires StoredAt(step, file, b) && b.h == h && h.size < U32 && Transitive(less) && Ascending(less, b.xs)
    ensures fresh(it) && it.Valid() && it.xs == b.xs && it.less == less
  {
    hide StoredAt, IsBlock, ReadBlock, Ascending, FinishedBytes, Transitive;
    StoredOpens(step, verify, file, b);
    var data := ReadBlock(step, verify, file, h).value;
    var o := Blocks.Open(data);
    it := new BlockIter(less, data, o.restarts, o.numRestarts, b.xs, b.l);
  }

  /** The filter answers for a user key. */
  lemma SameUserSameAnswer(policy: Policy, c: seq<byte>, offset: nat, a: seq<byte>, b: seq<byte>)
    requires |a| >= 8 && |b| >= 8 && User(a) == User(b)
    ensures BlockMayMatch(policy, c, offset, a) == BlockMayMatch(policy, c, offset, b)
  {
    hide MayMatch, Word, Shift;
  }

  /** The answer of a lookup of k whose full scan would stop at j: nothing, or entry j; and entry j for sure if it has
      k's user key. */
  ghost predicate Answers(all: seq<Pair>, k: seq<byte>, j: nat, r: Option<Pair>) {
    && FirstAtOrAfter(all, k, j) && InternalPairs(all) && |k| >= 8
    && (r.Some? ==> j < |all| && r.value == all[j])
    && (j < |all| && User(all[j].key) == User(k) ==> r == Some(all[j]))
  }

  lemma {:induction false} FirstExists(all: seq<Pair>, k: seq<byte>, n: nat) returns (j: nat)
    requires Ascending(KeyLess, all) && n <= |all| && forall i :: n <= i < |all| ==> !KeyLess(all[i].key, k)
    ensures j <= |all| && FirstAtOrAfter(all, k, j)
    decreases n
  {
    hide KeyLess;
    if n == 0 || KeyLess(all[n - 1].key, k) {
      j := n;
      forall i | 0 <= i < n - 1 && KeyLess(all[n - 1].key, k) ensures KeyLess(all[i].key, k) {
        assert KeyLess(all[i].key, all[n - 1].key);
        KeyLessTransitive(all[i].key, all[n - 1].key, k);
      }
    } else {
      j := FirstExists(all, k, n - 1);
    }
  }

  /** i is where an index seek for k stops. */
  ghost predicate IndexStops(index: seq<Pair>, k: seq<byte>, i: nat) {
    i <= |index| && (i > 0 ==> KeyLess(index[i - 1].key, k)) && (i < |index| ==> !KeyLess(index[i].key, k))
  }

  ghost predicate Listed(t: View) {
    && Split(t.all, t.starts, t.blocks) && t.starts[|t.blocks|] == |t.all|
    && InternalPairs(t.all) && Ascending(KeyLess, t.all)
    && |t.index.xs| == |t.blocks| && IndexOk(t.index.xs, t.all, t.starts, t.blocks)
  }

  lemma NotBeforeBlock(t: View, k: seq<byte>, i: nat, j: nat)
    requires Listed(t) && IndexStops(t.index.xs, k, i) && FirstAtOrAfter(t.all, k, j)
    ensures t.starts[i] <= j
  {
    if i > 0 {
      assert t.starts[0] < t.starts[i] <= |t.all|;
      BlocksBefore(t.index.xs, t.all, t.starts, t.blocks, k, i, t.starts[i] - 1);
    }
  }

  lemma SeparatorFacts(t: View, i: nat)
    requires Listed(t) && i < |t.blocks|
    ensures 0 < t.starts[i + 1] <= |t.all|
    ensures t.starts[i + 1] < |t.all| ==> KeyLess(t.index.xs[i].key, t.all[t.starts[i + 1]].key)
  {
    var sep, end := t.index.xs[i].key, t.starts[i + 1];
    assert BlockIs(t.all, t.starts, t.blocks, i);
    assert Separator(t.all, end, sep);
    if end < |t.all| && sep == t.all[end - 1].key {
      assert KeyLess(t.all[end - 1].key, t.all[end].key);
    }
  }

  lemma NotAfterBlock(t: View, k: seq<byte>, i: nat, j: nat)
    requires Listed(t) && IndexStops(t.index.xs, k, i) && i < |t.blocks| && FirstAtOrAfter(t.all, k, j) && |k| >= 8
    ensures j <= t.starts[i + 1] && (j == t.starts[i + 1] < |t.all| ==> User(t.all[j].key) != User(k))
  {
    hide FirstAtOrAfter, KeyLess, BlockIs, Increasing, IndexOk, Ascending;
    var sep, end := t.index.xs[i].key, t.starts[i + 1];
    SeparatorFacts(t, i);
    StopsBy(t.all, k, j, end - 1);
    if end < |t.all| {
      StopsBy(t.all, k, j, end);
      if KeyLess(t.all[end].key, k) {
        KeyLessTransitive(sep, t.all[end].key, k);
      }
      if j == end {
        NothingFollows(t.index.xs, t.all, t.starts, t.blocks, k, i);
      }
    }
  }

  lemma StopsBy(all: seq<Pair>, k: seq<byte>, j: nat, i: nat)
    requires FirstAtOrAfter(all, k, j) && i < |all|
    ensures j <= |all| && (KeyLess(all[i].key, k) <==> i < j)
  {
  }

  /** A block seek that stops at p stops where a scan of the whole table would. */
  lemma BlockSeek(t: View, k: seq<byte>, i: nat, j: nat, p: nat)
    requires Listed(t) && i < |t.blocks| && FirstAtOrAfter(t.all, k, j) && t.starts[i] <= j <= t.starts[i + 1]
    requires p <= |t.blocks[i].xs|
    requires forall q :: 0 <= q < p ==> KeyLess(t.blocks[i].xs[q].key, k)
    requires forall q :: p <= q < |t.blocks[i].xs| ==> !KeyLess(t.blocks[i].xs[q].key, k)
    ensures if p < |t.blocks[i].xs| then j < t.starts[i + 1] && t.blocks[i].xs[p] == t.all[j] else j == t.starts[i + 1]
  {
    hide FirstAtOrAfter, KeyLess, IndexOk;
    assert BlockIs(t.all, t.starts, t.blocks, i);
    var xs, s := t.blocks[i].xs, t.starts[i];
    if p < |xs| {
      assert xs[p] == t.all[s + p];
      StopsBy(t.all, k, j, s + p);
    }
    if p > 0 {
      assert xs[p - 1] == t.all[s + p - 1];
      StopsBy(t.all, k, j, s + p - 1);
    }
  }

  lemma BlockAscends(t: View, i: nat)
    requires Listed(t) && i < |t.blocks|
    ensures Ascending(KeyLess, t.blocks[i].xs)
  {
    hide KeyLess;
    assert BlockIs(t.all, t.starts, t.blocks, i);
  }

  /** A key the filter turns away is not the one that is looked for. */
  lemma TurnedAway(policy: Policy, t: View, k: seq<byte>, i: nat, j: nat)
    requires Listed(t) && i < |t.blocks| && |k| >= 8 && t.filter.Some?
             && NeverTurnedAway(policy, t.filter.value, t.all, t.starts, t.blocks)
    requires t.starts[i] <= j < t.starts[i + 1] <= |t.all|
             && !BlockMayMatch(policy, t.filter.value, t.blocks[i].h.offset, k)
    ensures User(t.all[j].key) != User(k)
  {
    hide BlockMayMatch;
    assert BlockMayMatch(policy, t.filter.value, t.blocks[i].h.offset, t.all[j].key);
    if User(t.all[j].key) == User(k) {
      SameUserSameAnswer(policy, t.filter.value, t.blocks[i].h.offset, t.all[j].key, k);
    }
  }

  method InternalGet(step: L.CrcStep, verify: bool, file: seq<byte>, indexHandle: Handle, policy: Policy,
                     filter: Option<seq<byte>>,
                     k: seq<byte>, ghost t: View)
    returns (r: Option<Pair>)
    requires IsTable(step, file, policy, t) && t.index.h == indexHandle && (filter.Some? ==> t.filter == filter)
             && |k| >= 8
    ensures forall j: nat :: FirstAtOrAfter(t.all, k, j) ==> Answers(t.all, k, j, r)
    ensures exists j: nat :: FirstAtOrAfter(t.all, k, j)
  {
    hide IsTable, Listed, Split, StoredAt, KeyLess, Ascending, NeverTurnedAway, BlockMayMatch, FirstAtOrAfter,
      InternalPairs, DecodeHandle, BlockIter.Valid,
      Transitive;
    KeyOrder();
    TableParts(step, file, policy, t);
    ghost var j := FirstExists(t.all, k, |t.all|);
    r := None;
    var index := OpenBlock(step, verify, file, KeyLess, indexHandle, t.index);
    index.Seek(k);
    index.ValidIs();
    ghost var i := index.pos;
    NotBeforeBlock(t, k, i, j);
    if index.IsValid() {
      NotAfterBlock(t, k, i, j);
      IndexEntry(step, file, policy, t, i);
      var entry := index.KeyValue();
      var handle := DecodeHandle(entry.value).value;
      var may := true;
      if filter.Some? {
        may := FilterBlocks.KeyMayMatch(policy, filter.value, handle.offset, k);
      }
      if may {
        BlockAscends(t, i);
        var block := OpenBlock(step, verify, file, KeyLess, handle, t.blocks[i]);
        block.Seek(k);
        block.ValidIs();
        BlockSeek(t, k, i, j, block.pos);
        if block.IsValid() {
          var found := block.KeyValue();
          r := Some(found);
        }
      } else if j < t.starts[i + 1] {
        TurnedAway(policy, t, k, i, j);
      }
    }
    assert Answers(t.all, k, j, r);
    forall j' | FirstAtOrAfter(t.all, k, j') ensures j' == j {
      FirstUnique(t.all, k, j, j');
    }
  }

  lemma FirstUnique(all: seq<Pair>, k: seq<byte>, i: nat, j: nat)
    requires FirstAtOrAfter(all, k, i) && FirstAtOrAfter(all, k, j)
    ensures i == j
  {
    hide KeyLess;
    assert i < |all| ==> (KeyLess(all[i].key, k) <==> i < j);
    assert j < |all| ==> (KeyLess(all[j].key, k) <==> j < i);
  }

  lemma TableParts(step: L.CrcStep, file: seq<byte>, policy: Policy, t: View)
    requires IsTable(step, file, policy, t)
    ensures t.index.h.size < U32 && Listed(t) && StoredAt(step, file, t.index) && Ascending(KeyLess, t.index.xs)
    ensures InternalPairs(t.all) && Ascending(KeyLess, t.all)
    ensures |t.starts| == |t.blocks| + 1 == |t.index.xs| + 1 && t.starts[|t.blocks|] == |t.all|
    ensures Split(t.all, t.starts, t.blocks) && forall i :: 0 <= i <= |t.blocks| ==> t.starts[i] <= |t.all|
    ensures t.filter.Some? ==> NeverTurnedAway(policy, t.filter.value, t.all, t.starts, t.blocks)
  {
    hide StoredAt, KeyLess, NeverTurnedAway, IndexOk, Ascending;
  }

  lemma IndexEntry(step: L.CrcStep, file: seq<byte>, policy: Policy, t: View, i: nat)
    requires IsTable(step, file, policy, t) && i < |t.blocks|
    ensures DecodeHandle(t.index.xs[i].value) == Some(t.blocks[i].h) && t.blocks[i].h.size < U32
    ensures StoredAt(step, file, t.blocks[i])
  {
    hide DecodeHandle, EncodeHandle, KeyLess, FinishedBytes;
    assert StoredAt(step, file, t.blocks[i]);
    HandleBack(t.blocks[i].h, []);
  }

  // ----- the newest entry of a user key -----

  /** Entry i is the newest of user key u with a sequence number at most sn. */
  ghost predicate NewestOf(all: seq<Pair>, u: seq<byte>, sn: nat, i: nat)
    requires InternalPairs(all)
  {
    && i < |all| && User(all[i].key) == u && TagOf(all[i].key) / 256 <= sn
    && forall j :: 0 <= j < |all| && User(all[j].key) == u && TagOf(all[j].key) / 256 <= sn ==>
       TagOf(all[j].key) <= TagOf(all[i].key)
  }

  /** The types of internal keys are 0 and 1. */
  ghost predicate Typed(all: seq<Pair>)
    requires InternalPairs(all)
  {
    forall j :: 0 <= j < |all| ==> TagOf(all[j].key) % 256 <= 1
  }

  /** The lookup key of (u, sn) splits the entries of u by sequence number. */
  lemma LookupSplits(key: seq<byte>, u: seq<byte>, sn: nat)
    requires |key| >= 8 && TagOf(key) % 256 <= 1 && sn <= MAX_SEQUENCE
    ensures var k := MakeKey(u, sn * 256 + 1);
            && User(k) == u
            && (User(key) == u ==> (KeyLess(key, k) <==> TagOf(key) / 256 > sn))
            && (LexLess(User(key), u) ==> KeyLess(key, k))
  {
    hide MakeKey, TagOf, User, LexLess;
    MakeKeyParts(u, sn * 256 + 1);
    NotBelowItself(u);
  }

  lemma NotBelowItself(u: seq<byte>)
    ensures !LexLess(u, u)
  {
    LexTotal(u, u);
  }

  lemma NewestIsFirst(all: seq<Pair>, u: seq<byte>, sn: nat, j: nat, i: nat)
    requires InternalPairs(all) && Typed(all) && Ascending(KeyLess, all) && sn <= MAX_SEQUENCE
    requires FirstAtOrAfter(all, MakeKey(u, sn * 256 + 1), j) && NewestOf(all, u, sn, i)
    ensures i == j
  {
    hide *;
    NewestIs(all, u, sn, i);
    var k := MakeKey(u, sn * 256 + 1);
    LookupSplits(all[i].key, u, sn);
    StopsBy(all, k, j, i);
    if i > 0 {
      BeforeNewest(all, u, sn, i);
      StopsBy(all, k, j, i - 1);
    }
  }

  lemma NewestIs(all: seq<Pair>, u: seq<byte>, sn: nat, i: nat)
    requires InternalPairs(all) && Typed(all) && NewestOf(all, u, sn, i)
    ensures i < |all| && |all[i].key| >= 8 && User(all[i].key) == u && TagOf(all[i].key) / 256 <= sn
            && TagOf(all[i].key) % 256 <= 1
  {
  }

  lemma FirstIsNewest(all: seq<Pair>, u: seq<byte>, sn: nat, j: nat)
    requires InternalPairs(all) && Typed(all) && Ascending(KeyLess, all) && sn <= MAX_SEQUENCE
    requires FirstAtOrAfter(all, MakeKey(u, sn * 256 + 1), j) && j < |all| && User(all[j].key) == u
    ensures NewestOf(all, u, sn, j)
  {
    hide MakeKey, TagOf, User, LexLess, KeyLess, FirstAtOrAfter, Ascending;
    var k := MakeKey(u, sn * 256 + 1);
    LookupSplits(all[j].key, u, sn);
    StopsBy(all, k, j, j);
    forall i | 0 <= i < |all| && User(all[i].key) == u && TagOf(all[i].key) / 256 <= sn
      ensures TagOf(all[i].key) <= TagOf(all[j].key) {
      LookupSplits(all[i].key, u, sn);
      StopsBy(all, k, j, i);
      if j < i {
        LaterIsOlder(all, j, i);
      }
    }
  }

  /** A lookup hands over the newest entry whenever there is one, and never another entry of the same user key. */
  lemma LookupIsNewest(all: seq<Pair>, u: seq<byte>, sn: nat, j: nat, r: Option<Pair>)
    requires InternalPairs(all) && Typed(all) && Ascending(KeyLess, all) && sn <= MAX_SEQUENCE
    requires Answers(all, MakeKey(u, sn * 256 + 1), j, r)
    ensures forall i: nat :: NewestOf(all, u, sn, i) ==> r == Some(all[i])
    ensures r.Some? && |r.value.key| >= 8 && User(r.value.key) == u ==> NewestOf(all, u, sn, j) && r.value == all[j]
  {
    hide MakeKey, TagOf, User, KeyLess, FirstAtOrAfter, Ascending, Typed;
    MakeKeyParts(u, sn * 256 + 1);
    forall i: nat | NewestOf(all, u, sn, i) ensures r == Some(all[i]) {
      NewestIs(all, u, sn, i);
      NewestIsFirst(all, u, sn, j, i);
    }
    if j < |all| && User(all[j].key) == u {
      FirstIsNewest(all, u, sn, j);
    }
  }

  lemma LaterIsOlder(all: seq<Pair>, j: nat, i: nat)
    requires InternalPairs(all) && Ascending(KeyLess, all) && j < i < |all| && User(all[j].key) == User(all[i].key)
    ensures TagOf(all[i].key) < TagOf(all[j].key)
  {
    assert KeyLess(all[j].key, all[i].key);
    NotBelowItself(User(all[i].key));
  }

  lemma BeforeNewest(all: seq<Pair>, u: seq<byte>, sn: nat, i: nat)
    requires InternalPairs(all) && Typed(all) && Ascending(KeyLess, all) && sn <= MAX_SEQUENCE
             && NewestOf(all, u, sn, i) && i > 0
    ensures KeyLess(all[i - 1].key, MakeKey(u, sn * 256 + 1))
  {
    hide MakeKey, TagOf, User, LexLess;
    assert KeyLess(all[i - 1].key, all[i].key);
    LookupSplits(all[i - 1].key, u, sn);
  }

  // ----- building -----

  /** The state between two calls of Add: what is flushed, what waits in the data block, what the index holds. */
  ghost predicate Building(step: L.CrcStep, file: seq<byte>, all: seq<Pair>, starts: seq<nat>, blocks: seq<Stored>,
                           data: seq<Pair>, index: seq<Pair>, pending: bool, handle: Handle, lastKey: seq<byte>)
  {
    && Split(all, starts, blocks) && InternalPairs(all) && data == all[starts[|blocks|]..]
    && (forall i :: 0 <= i < |blocks| ==> StoredAt(step, file, blocks[i]))
    && IndexOk(index, all, starts, blocks) && |index| + (if pending then 1 else 0) == |blocks|
    && (pending ==> data == [] && handle == blocks[|blocks| - 1].h)
    && (!pending && data == [] ==> blocks == [])
    && (all != [] ==> lastKey == all[|all| - 1].key)
  }

  /** A usable index key between lastKey and the next key. */
  ghost predicate Between(lastKey: seq<byte>, sep: seq<byte>, next: seq<byte>) {
    && |lastKey| >= 8 && |sep| >= 8 && |next| >= 8
    && (sep == lastKey || (LexLess(User(lastKey), User(sep)) && LexLess(User(sep), User(next))))
  }

  lemma SplitGrows(all: seq<Pair>, starts: seq<nat>, blocks: seq<Stored>, x: Pair)
    requires Split(all, starts, blocks)
    ensures Split(all + [x], starts, blocks)
  {
    forall i | 0 <= i < |blocks| ensures BlockIs(all + [x], starts, blocks, i) {
      assert BlockIs(all, starts, blocks, i);
      assert (all + [x])[starts[i]..starts[i + 1]] == all[starts[i]..starts[i + 1]];
    }
  }

  lemma IndexStays(index: seq<Pair>, all: seq<Pair>, starts: seq<nat>, blocks: seq<Stored>, x: Pair)
    requires Split(all, starts, blocks) && InternalPairs(all) && IndexOk(index, all, starts, blocks) && |x.key| >= 8
    requires |index| < |blocks| || starts[|blocks|] < |all|
    ensures Split(all + [x], starts, blocks) && InternalPairs(all + [x]) && IndexOk(index, all + [x], starts, blocks)
  {
    SplitGrows(all, starts, blocks, x);
    forall i | 0 <= i < |index| ensures index[i].value == EncodeHandle(blocks[i].h)
        && Separator(all + [x], starts[i + 1], index[i].key) {
      assert Separator(all, starts[i + 1], index[i].key);
      assert starts[i + 1] < |all| by {
        if i + 1 < |blocks| {
          assert starts[i + 1] < starts[|blocks|];
        }
      }
    }
  }

  lemma IndexGrows(index: seq<Pair>, all: seq<Pair>, starts: seq<nat>, blocks: seq<Stored>, sep: seq<byte>)
    requires Split(all, starts, blocks) && InternalPairs(all) && IndexOk(index, all, starts, blocks)
             && |index| < |blocks|
    requires 0 < starts[|index| + 1] <= |all| && Separator(all, starts[|index| + 1], sep)
    ensures IndexOk(index + [Pair(sep, EncodeHandle(blocks[|index|].h))], all, starts, blocks)
  {
    hide EncodeHandle, Separator, Split;
  }

  /** The index as Add leaves it. */
  ghost function NextIndex(index: seq<Pair>, pending: bool, handle: Handle, sep: seq<byte>): seq<Pair> {
    if pending then index + [Pair(sep, EncodeHandle(handle))] else index
  }

  lemma AppendKeeps(step: L.CrcStep, file: seq<byte>, all: seq<Pair>, starts: seq<nat>, blocks: seq<Stored>,
                    data: seq<Pair>,
                    index: seq<Pair>, pending: bool, handle: Handle, lastKey: seq<byte>, x: Pair, sep: seq<byte>)
    requires Building(step, file, all, starts, blocks, data, index, pending, handle, lastKey) && |x.key| >= 8
    requires pending ==> Between(lastKey, sep, x.key)
    ensures Building(step, file, all + [x], starts, blocks, data + [x], NextIndex(index, pending, handle, sep), false,
            handle, x.key)
  {
    hide StoredAt, EncodeHandle, BlockIs, Increasing, IndexOk;
    var n := |blocks|;
    assert data + [x] == (all + [x])[starts[n]..];
    if blocks == [] {
      SplitGrows(all, starts, blocks, x);
      EmptyIndex(index, all + [x], starts, blocks);
    } else {
      IndexStays(index, all, starts, blocks, x);
      if pending {
        LastBlock(all, starts, blocks);
        assert Separator(all + [x], starts[n], sep);
        IndexGrows(index, all + [x], starts, blocks, sep);
      }
    }
  }

  lemma EmptyIndex(index: seq<Pair>, all: seq<Pair>, starts: seq<nat>, blocks: seq<Stored>)
    requires Split(all, starts, blocks) && InternalPairs(all) && index == []
    ensures IndexOk(index, all, starts, blocks)
  {
  }

  lemma LastBlock(all: seq<Pair>, starts: seq<nat>, blocks: seq<Stored>)
    requires Split(all, starts, blocks) && blocks != []
    ensures starts[|blocks| - 1] < starts[|blocks|] <= |all|
  {
    assert BlockIs(all, starts, blocks, |blocks| - 1);
  }

  /** A new index key is after the ones already there. */
  lemma IndexAscends(step: L.CrcStep, file: seq<byte>, all: seq<Pair>, starts: seq<nat>, blocks: seq<Stored>,
                     data: seq<Pair>,
                     index: seq<Pair>, handle: Handle, lastKey: seq<byte>, sep: seq<byte>)
    requires Building(step, file, all, starts, blocks, data, index, true, handle, lastKey) && Ascending(KeyLess, all)
    requires |sep| >= 8 && (sep == lastKey || LexLess(User(lastKey), User(sep)))
    ensures index != [] ==> KeyLess(index[|index| - 1].key, sep)
  {
    hide Building, Split, IndexOk, Separator, KeyLess, Ascending, LexLess, InternalPairs;
    PendingFacts(step, file, all, starts, blocks, data, index, handle, lastKey);
    if index != [] {
      var at, prev := starts[|index|], index[|index| - 1].key;
      SeparatorBefore(all, at, prev);
      AtOrAfterFirst(all, at, prev);
      if sep != lastKey {
        assert KeyLess(lastKey, sep) by { hide *; UserLess(lastKey, sep); }
        KeyLessTransitive(prev, lastKey, sep);
      }
    }
  }

  lemma UserLess(a: seq<byte>, b: seq<byte>)
    requires |a| >= 8 && |b| >= 8 && LexLess(User(a), User(b))
    ensures KeyLess(a, b)
  {
  }

  lemma SeparatorBefore(all: seq<Pair>, at: nat, sep: seq<byte>)
    requires InternalPairs(all) && Ascending(KeyLess, all) && 0 < at < |all| && Separator(all, at, sep)
    ensures KeyLess(sep, all[at].key)
  {
    if sep == all[at - 1].key {
      assert KeyLess(all[at - 1].key, all[at].key);
    }
  }

  lemma PendingFacts(step: L.CrcStep, file: seq<byte>, all: seq<Pair>, starts: seq<nat>, blocks: seq<Stored>,
                     data: seq<Pair>, index: seq<Pair>, handle: Handle, lastKey: seq<byte>)
    requires Building(step, file, all, starts, blocks, data, index, true, handle, lastKey)
    ensures InternalPairs(all) && all != [] && lastKey == all[|all| - 1].key && |lastKey| >= 8
    ensures |index| + 1 == |blocks| && |starts| == |blocks| + 1
    ensures index != [] ==> 0 < starts[|index|] < |all| && Separator(all, starts[|index|], index[|index| - 1].key)
  {
    hide StoredAt, EncodeHandle, Separator;
    LastBlock(all, starts, blocks);
  }

  lemma AtOrAfterFirst(all: seq<Pair>, i: nat, prev: seq<byte>)
    requires Ascending(KeyLess, all) && i < |all| && KeyLess(prev, all[i].key)
    ensures KeyLess(prev, all[|all| - 1].key)
  {
    if i < |all| - 1 {
      assert KeyLess(all[i].key, all[|all| - 1].key);
      KeyLessTransitive(prev, all[i].key, all[|all| - 1].key);
    }
  }

  lemma AllStay(step: L.CrcStep, file: seq<byte>, more: seq<byte>, blocks: seq<Stored>)
    requires forall i :: 0 <= i < |blocks| ==> StoredAt(step, file, blocks[i])
    ensures forall i :: 0 <= i < |blocks| ==> StoredAt(step, file + more, blocks[i])
  {
    hide StoredAt;
    forall i | 0 <= i < |blocks| ensures StoredAt(step, file + more, blocks[i]) {
      StoredStays(step, file, more, blocks[i]);
    }
  }

  lemma SplitFlush(all: seq<Pair>, starts: seq<nat>, blocks: seq<Stored>, b: Stored)
    requires Split(all, starts, blocks) && b.xs == all[starts[|blocks|]..] && b.xs != []
    ensures Split(all, starts + [|all|], blocks + [b])
  {
    var starts', blocks' := starts + [|all|], blocks + [b];
    forall i | 0 <= i < |blocks'| ensures BlockIs(all, starts', blocks', i) {
      if i < |blocks| {
        assert BlockIs(all, starts, blocks, i);
      }
    }
  }

  lemma FlushKeeps(step: L.CrcStep, file: seq<byte>, all: seq<Pair>, starts: seq<nat>, blocks: seq<Stored>,
                   data: seq<Pair>,
                   index: seq<Pair>, handle: Handle, lastKey: seq<byte>, file': seq<byte>, b: Stored)
    requires Building(step, file, all, starts, blocks, data, index, false, handle, lastKey) && data != []
    requires file <= file' && StoredAt(step, file', b) && b.xs == data
    ensures Building(step, file', all, starts + [|all|], blocks + [b], [], index, true, b.h, lastKey)
  {
    hide StoredAt, EncodeHandle, BlockIs, Increasing, Separator;
    SplitFlush(all, starts, blocks, b);
    AllStay(step, file, file'[|file|..], blocks);
    assert file + file'[|file|..] == file';
    assert all[|all|..] == [];
  }

  /** The filter builder's part: keys of flushed blocks are with their blocks' offsets, the others with the offset the
      next block will have. */
  ghost predicate Filtering(groups: seq<seq<seq<byte>>>, pending: seq<seq<byte>>, size: nat, all: seq<Pair>,
                            starts: seq<nat>, blocks: seq<Stored>)
    requires Split(all, starts, blocks)
  {
    && |groups| == size / 2048 && Filtered(groups, pending, all, starts, blocks)
    && forall j :: starts[|blocks|] <= j < |all| ==> all[j].key in pending
  }

  lemma FilterAppend(groups: seq<seq<seq<byte>>>, pending: seq<seq<byte>>, size: nat, all: seq<Pair>, starts: seq<nat>,
                     blocks: seq<Stored>, x: Pair)
    requires Split(all, starts, blocks) && Filtering(groups, pending, size, all, starts, blocks)
    ensures Split(all + [x], starts, blocks) && Filtering(groups, pending + [x.key], size, all + [x], starts, blocks)
  {
    SplitGrows(all, starts, blocks, x);
    forall i, j | 0 <= i < |blocks| && starts[i] <= j < starts[i + 1]
      ensures (all + [x])[j].key in KeysFor(groups, pending + [x.key], blocks[i].h.offset / 2048)
    {
      assert BlockIs(all, starts, blocks, i);
      assert all[j].key in KeysFor(groups, pending, blocks[i].h.offset / 2048);
    }
  }

  lemma FilterFlush(groups: seq<seq<seq<byte>>>, pending: seq<seq<byte>>, size: nat, all: seq<Pair>, starts: seq<nat>,
                    blocks: seq<Stored>,
                    b: Stored, groups': seq<seq<seq<byte>>>, pending': seq<seq<byte>>, size': nat)
    requires Split(all, starts, blocks) && Filtering(groups, pending, size, all, starts, blocks)
    requires b.xs == all[starts[|blocks|]..] && b.xs != [] && b.h.offset == size
    requires |groups'| == size' / 2048 && forall i: nat :: KeysFor(groups', pending', i) == KeysFor(groups, pending, i)
    ensures Split(all, starts + [|all|], blocks + [b])
            && Filtering(groups', pending', size', all, starts + [|all|], blocks + [b])
  {
    SplitFlush(all, starts, blocks, b);
    var starts', blocks' := starts + [|all|], blocks + [b];
    forall i, j | 0 <= i < |blocks'| && starts'[i] <= j < starts'[i + 1]
      ensures all[j].key in KeysFor(groups', pending', blocks'[i].h.offset / 2048)
    {
      if i < |blocks| {
        assert all[j].key in KeysFor(groups, pending, blocks[i].h.offset / 2048);
      } else {
        assert KeysFor(groups, pending, size / 2048) == pending;
      }
    }
  }

  lemma NothingBuilt(step: L.CrcStep)
    ensures Building(step, [], [], [0], [], [], [], false, Handle(0, 0), []) && Split([], [0], [])
            && Filtering([], [], 0, [], [0], [])
    ensures Ascending(KeyLess, [])
  {
  }

  class TableBuilder {
    const step: L.CrcStep
    const blockSize: nat
    const policy: Policy
    const name: seq<byte>
    const useFilter: bool
    const data: BlockBuilder
    const index: BlockBuilder
    const filter: FilterBlockBuilder
    var file: seq<byte>
    var lastKey: seq<byte>
    var pendingIndexEntry: bool
    var pendingHandle: Handle
    var closed: bool
    ghost var all: seq<Pair>
    ghost var starts: seq<nat>
    ghost var blocks: seq<Stored>

    ghost predicate Parts()
      reads this, data, index, filter
    {
      && data != index && data.Valid() && index.Valid() && filter.Valid() && data.interval >= 1
      && data.less == KeyLess && index.less == KeyLess && filter.policy == policy
    }

    ghost predicate Valid()
      reads this, data, index, filter
    {
      && Parts() && !closed && Ascending(KeyLess, all)
      && Building(step, file, all, starts, blocks, data.xs, index.xs, pendingIndexEntry, pendingHandle, lastKey)
      && Split(all, starts, blocks)
      && (useFilter ==> Filtering(filter.groups, filter.pending, |file|, all, starts, blocks))
    }

    constructor (step: L.CrcStep, interval: nat, blockSize: nat, policy: Policy, name: seq<byte>, useFilter: bool)
      requires interval >= 1 && policy.Valid()
      ensures Valid() && all == [] && fresh(data) && fresh(index) && fresh(filter)
      ensures this.step == step && this.policy == policy && this.name == name && this.useFilter == useFilter
    {
      hide KeyLess, Building, Split, Filtering, Ascending, BlockBuilder.Valid, FilterBlockBuilder.Valid, Transitive;
      KeyOrder();
      NothingBuilt(step);
      this.step, this.blockSize, this.policy, this.name, this.useFilter := step, blockSize, policy, name, useFilter;
      data := new BlockBuilder(KeyLess, interval);
      index := new BlockBuilder(KeyLess, 1);
      filter := new FilterBlockBuilder(policy);
      file, lastKey, pendingIndexEntry, pendingHandle, closed := [], [], false, Handle(0, 0), false;
      all, starts, blocks := [], [0], [];
    }

    /** Write the index entry of the last block flushed. */
    method EmitIndexEntry(sep: seq<byte>)
      requires Parts() && Ascending(KeyLess, all) && pendingIndexEntry
      requires Building(step, file, all, starts, blocks, data.xs, index.xs, pendingIndexEntry, pendingHandle, lastKey)
      requires |sep| >= 8 && |lastKey| >= 8 && (sep == lastKey || LexLess(User(lastKey), User(sep)))
      modifies `pendingIndexEntry, index
      ensures Parts() && !pendingIndexEntry && index.xs == old(index.xs) + [Pair(sep, EncodeHandle(pendingHandle))]
    {
      hide KeyLess, LexLess, User, Building, Split, Filtering, Ascending, BlockBuilder.Valid, FilterBlockBuilder.Valid;
      IndexAscends(step, file, all, starts, blocks, data.xs, index.xs, pendingHandle, lastKey, sep);
      index.NextKey(sep);
      index.Add(sep, EncodeHandle(pendingHandle));
      pendingIndexEntry := false;
    }

    /** Pass a key on to the filter and to the data block. */
    method AddEntry(key: seq<byte>, value: seq<byte>)
      requires Parts() && |key| >= 8 && (data.xs != [] ==> KeyLess(data.xs[|data.xs| - 1].key, key))
      modifies data, filter
      ensures Parts() && data.xs == old(data.xs) + [Pair(key, value)]
      ensures useFilter ==> filter.groups == old(filter.groups) && filter.pending == old(filter.pending) + [key]
    {
      hide KeyLess, BlockBuilder.Valid, FilterBlockBuilder.Valid;
      if useFilter {
        filter.AddKey(key);
      }
      data.NextKey(key);
      data.Add(key, value);
    }

    /** Write the index entry of the last block flushed, now that the first key of the next one is known. */
    method Separate(key: seq<byte>) returns (ghost sep: seq<byte>)
      requires Parts() && Ascending(KeyLess, all) && |key| >= 8 && (all != [] ==> KeyLess(lastKey, key))
      requires Building(step, file, all, starts, blocks, data.xs, index.xs, pendingIndexEntry, pendingHandle, lastKey)
      modifies `pendingIndexEntry, index
      ensures Parts() && !pendingIndexEntry && (old(pendingIndexEntry) ==> Between(lastKey, sep, key))
      ensures index.xs == NextIndex(old(index.xs), old(pendingIndexEntry), pendingHandle, sep)
    {
      hide KeyLess, LexLess, User, TagOf, FirstDifference, Building, Split, Ascending, BlockBuilder.Valid,
        FilterBlockBuilder.Valid;
      BuildingFacts(step, file, all, starts, blocks, data.xs, index.xs, pendingIndexEntry, pendingHandle, lastKey);
      sep := lastKey;
      if pendingIndexEntry {
        var separator := InternalKeys.FindShortestSeparator(lastKey, key);
        EmitIndexEntry(separator);
        sep := separator;
      }
    }

    method Add(key: seq<byte>, value: seq<byte>)
      requires Valid() && |key| >= 8 && (all != [] ==> KeyLess(lastKey, key))
      modifies this, data, index, filter
      ensures Valid() && all == old(all) + [Pair(key, value)]
      ensures data.xs == [] || data.CurrentSizeEstimate() < blockSize
    {
      hide KeyLess, Building, Split, Filtering, Ascending, Between, BlockBuilder.Valid, FilterBlockBuilder.Valid;
      ghost var x, pending, indexXs := Pair(key, value), pendingIndexEntry, index.xs;
      BuildingFacts(step, file, all, starts, blocks, data.xs, index.xs, pendingIndexEntry, pendingHandle, lastKey);
      ghost var sep := Separate(key);
      AppendKeeps(step, file, all, starts, blocks, data.xs, indexXs, pending, pendingHandle, lastKey, x, sep);
      if useFilter {
        FilterAppend(filter.groups, filter.pending, |file|, all, starts, blocks, x);
      }
      AddEntry(key, value);
      KeyOrder();
      AscendingGrows(KeyLess, all, x);
      SplitGrows(all, starts, blocks, x);
      lastKey := key;
      all := all + [x];
      if data.CurrentSizeEstimate() >= blockSize {
        Flush();
      }
    }

    method WriteRawBlock(contents: seq<byte>) returns (h: Handle)
      modifies `file
      ensures h == Handle(old(|file|), |contents|) && file == old(file) + (contents + Trailer(step, contents))
    {
      hide Trailer;
      h := Handle(|file|, |contents|);
      file := file + contents;
      file := file + Trailer(step, contents);
    }

    /** Finish a block, write it, and reset its builder. */
    method WriteBlock(block: BlockBuilder) returns (h: Handle, ghost b: Stored)
      requires block.Valid()
      modifies `file, block
      ensures block.Valid() && block.xs == [] && old(file) <= file && StoredAt(step, file, b)
      ensures b.h == h && h.offset == old(|file|) && b.xs == old(block.xs)
    {
      ghost var was := Stored(Handle(0, 0), block.xs, block.layout, block.buffer, block.restarts, block.counter,
          block.interval);
      var raw := block.Finish();
      h := WriteRawBlock(raw);
      b := was.(h := h);
      block.Reset();
    }

    method Flush()
      requires Valid()
      modifies this, data, filter
      ensures Valid() && all == old(all) && data.xs == [] && (pendingIndexEntry || all == [])
    {
      hide KeyLess, Building, Split, Filtering, Ascending, BlockBuilder.Valid, FilterBlockBuilder.Valid, StoredAt;
      BuildingFacts(step, file, all, starts, blocks, data.xs, index.xs, pendingIndexEntry, pendingHandle, lastKey);
      BuilderEmpty(data);
      if data.buffer == [] {
        return;
      }
      ghost var wasFile, wasData := file, data.xs;
      ghost var b;
      pendingHandle, b := WriteBlock(data);
      FlushKeeps(step, wasFile, all, starts, blocks, wasData, index.xs, old(pendingHandle), lastKey, file, b);
      pendingIndexEntry := true;
      SplitFlush(all, starts, blocks, b);
      if useFilter {
        ghost var groups, pending := filter.groups, filter.pending;
        FilteringSize(groups, pending, |wasFile|, all, starts, blocks);
        filter.StartBlock(|file|);
        FilterFlush(groups, pending, |wasFile|, all, starts, blocks, b, filter.groups, filter.pending, |file|);
      }
      starts, blocks := starts + [|all|], blocks + [b];
    }

    /** Finish the filter block and write it. */
    method WriteFilter() returns (contents: seq<byte>, h: Handle)
      requires Parts()
               && Building(step, file, all, starts, blocks, data.xs, index.xs, pendingIndexEntry, pendingHandle,
               lastKey)
      requires Split(all, starts, blocks) && InternalPairs(all)
               && Filtering(filter.groups, filter.pending, |file|, all, starts, blocks)
      modifies `file, filter
      ensures Parts() && old(file) <= file && RawAt(step, file, h, contents)
      ensures Building(step, file, all, starts, blocks, data.xs, index.xs, pendingIndexEntry, pendingHandle, lastKey)
      ensures |contents| < U32 ==> NeverTurnedAway(policy, contents, all, starts, blocks)
    {
      hide KeyLess, Building, Split, Filtering, BlockBuilder.Valid, Filters, Low32, FilterBytes, NeverTurnedAway,
        InternalPairs, Trailer;
      ghost var groups, pending := filter.groups, filter.pending;
      contents := filter.Finish();
      if |contents| < U32 {
        FilterCovers(policy, filter.result, filter.filterOffsets, filter.offs, groups, pending, filter.groups, |file|,
            all, starts, blocks);
      }
      BuildingStays(step, file, contents + Trailer(step, contents), all, starts, blocks, data.xs, index.xs,
          pendingIndexEntry, pendingHandle, lastKey);
      h := WriteRawBlock(contents);
    }

    /** Write the index entry of the last block, whose key is at or after every key of the table. */
    method FinishIndex()
      requires Parts() && Ascending(KeyLess, all) && data.xs == [] && (pendingIndexEntry || all == [])
      requires Building(step, file, all, starts, blocks, data.xs, index.xs, pendingIndexEntry, pendingHandle, lastKey)
      modifies `pendingIndexEntry, index
      ensures Parts() && Split(all, starts, blocks) && InternalPairs(all) && starts[|blocks|] == |all|
      ensures |index.xs| == |blocks| && IndexOk(index.xs, all, starts, blocks)
      ensures forall i :: 0 <= i < |blocks| ==> StoredAt(step, file, blocks[i])
    {
      hide KeyLess, LexLess, User, TagOf, FirstRoom, Building, Split, Ascending, BlockBuilder.Valid,
        FilterBlockBuilder.Valid, StoredAt,
        IndexOk, InternalPairs;
      ghost var was, pending := index.xs, pendingIndexEntry;
      BuildingFacts(step, file, all, starts, blocks, data.xs, index.xs, pendingIndexEntry, pendingHandle, lastKey);
      var sep := lastKey;
      if pendingIndexEntry {
        sep := InternalKeys.FindShortSuccessor(lastKey);
        EmitIndexEntry(sep);
      }
      FinalIndex(step, file, all, starts, blocks, data.xs, was, pending, pendingHandle, lastKey, sep);
    }

    /** Write the metaindex block: where the filter block is, if there is one. */
    method WriteMetaIndex(filterBlock: Option<seq<byte>>, filterHandle: Handle) returns (h: Handle, ghost b: Stored)
      requires Parts()
               && Building(step, file, all, starts, blocks, data.xs, index.xs, pendingIndexEntry, pendingHandle,
               lastKey)
      requires filterBlock.Some? ==> RawAt(step, file, filterHandle, filterBlock.value)
      modifies `file
      ensures Parts()
              && Building(step, file, all, starts, blocks, data.xs, index.xs, pendingIndexEntry, pendingHandle, lastKey)
      ensures old(file) <= file && StoredAt(step, file, b) && b.h == h
              && b.xs == MetaEntries(name, filterBlock, filterHandle)
      ensures filterBlock.Some? ==> RawAt(step, file, filterHandle, filterBlock.value)
    {
      hide Building, BlockBuilder.Valid, FilterBlockBuilder.Valid, StoredAt, RawAt, LexLess, KeyLess;
      ghost var was := file;
      ByteKeyOrder();
      var block := new BlockBuilder(LexLess, data.interval);
      BuilderEmpty(block);
      if filterBlock.Some? {
        block.Add(FILTER_PREFIX + name, EncodeHandle(filterHandle));
      }
      h, b := WriteBlock(block);
      assert was + file[|was|..] == file;
      BuildingStays(step, was, file[|was|..], all, starts, blocks, data.xs, index.xs, pendingIndexEntry, pendingHandle,
          lastKey);
      if filterBlock.Some? {
        RawStays(step, was, file[|was|..], filterHandle, filterBlock.value);
      }
    }

    /** Write the index block and the footer; the file is then a table. */
    method WriteIndex(filterBlock: Option<seq<byte>>, filterHandle: Handle, metaHandle: Handle, ghost meta: Stored)
        returns (indexHandle: Handle, ghost t: View)
      requires Parts() && Ascending(KeyLess, all)
      requires Split(all, starts, blocks) && InternalPairs(all) && starts[|blocks|] == |all|
      requires |index.xs| == |blocks| && IndexOk(index.xs, all, starts, blocks)
      requires forall i :: 0 <= i < |blocks| ==> StoredAt(step, file, blocks[i])
      requires filterBlock.Some? ==> RawAt(step, file, filterHandle, filterBlock.value)
      requires filterBlock.Some? && |filterBlock.value| < U32 ==>
               NeverTurnedAway(policy, filterBlock.value, all, starts, blocks)
      requires StoredAt(step, file, meta) && meta.h == metaHandle
               && meta.xs == MetaEntries(name, filterBlock, filterHandle)
      modifies `file, index
      ensures t.all == all && t.index.h == indexHandle && t.filter == filterBlock
      ensures LaidOut(step, file, t) && Footed(step, file, name, t)
              && (Addressable(file, t) ==> IsTable(step, file, policy, t))
    {
      hide KeyLess, Split, Ascending, BlockBuilder.Valid, FilterBlockBuilder.Valid, StoredAt, RawAt, IsTable, LaidOut,
        Footed,
        Addressable, NeverTurnedAway, IndexOk, InternalPairs, FooterBytes, MetaEntries;
      BuilderAscends(index);
      ghost var before, b := file, Stored(Handle(0, 0), [], Layout([], [], []), [], [], 0, 0);
      indexHandle, b := WriteBlock(index);
      t := View(all, starts, blocks, b, filterBlock, filterHandle, meta);
      ghost var more, footer := file[|before|..], FooterBytes(metaHandle, indexHandle);
      assert file == before + more;
      StoredStays(step, file, footer, b);
      AllStay(step, before, more + footer, blocks);
      StoredStays(step, before, more + footer, meta);
      if filterBlock.Some? {
        RawStays(step, before, more + footer, filterHandle, filterBlock.value);
      }
      assert before + (more + footer) == file + footer;
      file := file + FooterBytes(metaHandle, indexHandle);
      TableFrom(step, file, policy, t);
      FootedFrom(step, before + more, name, t);
    }

    method Finish() returns (ghost t: View)
      requires Valid()
      modifies this, data, index, filter
      ensures closed && t.all == old(all) && (t.filter.Some? <==> useFilter)
      ensures LaidOut(step, file, t) && Footed(step, file, name, t)
              && (Addressable(file, t) ==> IsTable(step, file, policy, t))
    {
      hide KeyLess, LexLess, User, Building, Split, Filtering, Ascending, BlockBuilder.Valid, FilterBlockBuilder.Valid,
        StoredAt,
        RawAt, IsTable, LaidOut, Footed, Addressable, NeverTurnedAway, IndexOk, InternalPairs, MetaEntries;
      Flush();
      closed := true;
      BuildingFacts(step, file, all, starts, blocks, data.xs, index.xs, pendingIndexEntry, pendingHandle, lastKey);
      var filterBlock, filterHandle := None, Handle(0, 0);
      if useFilter {
        var contents;
        contents, filterHandle := WriteFilter();
        filterBlock := Some(contents);
      }
      var metaHandle;
      ghost var meta, indexHandle;
      metaHandle, meta := WriteMetaIndex(filterBlock, filterHandle);
      FinishIndex();
      indexHandle, t := WriteIndex(filterBlock, filterHandle, metaHandle, meta);
    }
  }

  lemma ByteKeyOrder()
    ensures Transitive(LexLess)
  {
    var less: Less := LexLess;
    forall a, b, c | less(a, b) && less(b, c) ensures less(a, c) {
      LexTransitive(a, b, c);
    }
  }

  lemma FootedFrom(step: L.CrcStep, before: seq<byte>, name: seq<byte>, t: View)
    requires var file := before + FooterBytes(t.meta.h, t.index.h);
             && StoredAt(step, file, t.meta) && t.meta.xs == MetaEntries(name, t.filter, t.filterHandle)
             && (t.filter.Some? ==> RawAt(step, file, t.filterHandle, t.filter.value))
    ensures Footed(step, before + FooterBytes(t.meta.h, t.index.h), name, t)
  {
    hide StoredAt, RawAt, FooterBytes, MetaEntries;
  }

  lemma BuildingStays(step: L.CrcStep, file: seq<byte>, more: seq<byte>, all: seq<Pair>, starts: seq<nat>,
                      blocks: seq<Stored>, data: seq<Pair>,
                      index: seq<Pair>, pending: bool, handle: Handle, lastKey: seq<byte>)
    requires Building(step, file, all, starts, blocks, data, index, pending, handle, lastKey)
    ensures Building(step, file + more, all, starts, blocks, data, index, pending, handle, lastKey)
  {
    hide StoredAt, Split, IndexOk, InternalPairs;
    AllStay(step, file, more, blocks);
  }

  lemma BuilderAscends(b: BlockBuilder)
    requires b.Valid()
    ensures Ascending(b.less, b.xs)
  {
  }

  /** The finished filter block covers every flushed key. */
  lemma FilterCovers(policy: Policy, result: seq<byte>, filterOffsets: seq<nat>, offs: seq<nat>,
                     groups: seq<seq<seq<byte>>>, pending: seq<seq<byte>>,
                     groups': seq<seq<seq<byte>>>, size: nat, all: seq<Pair>, starts: seq<nat>, blocks: seq<Stored>)
    requires Split(all, starts, blocks) && InternalPairs(all) && Filtering(groups, pending, size, all, starts, blocks)
    requires forall i: nat :: KeysFor(groups', [], i) == KeysFor(groups, pending, i)
    requires Filters(policy, result, offs, groups') && |FilterBytes(result, filterOffsets)| < U32
    requires |filterOffsets| == |offs| && forall g :: 0 <= g < |offs| ==> filterOffsets[g] == Low32(offs[g])
    ensures NeverTurnedAway(policy, FilterBytes(result, filterOffsets), all, starts, blocks)
  {
    hide Filters, FilterBytes, Low32, BlockMayMatch;
    forall i, j | 0 <= i < |blocks| && starts[i] <= j < starts[i + 1]
      ensures BlockMayMatch(policy, FilterBytes(result, filterOffsets), blocks[i].h.offset, all[j].key)
    {
      assert BlockIs(all, starts, blocks, i);
      assert all[j].key in KeysFor(groups, pending, blocks[i].h.offset / 2048);
      assert all[j].key in KeysFor(groups', [], blocks[i].h.offset / 2048);
      NoFalseNegative(policy, result, filterOffsets, offs, groups', blocks[i].h.offset, all[j].key);
    }
  }

  lemma FinalIndex(step: L.CrcStep, file: seq<byte>, all: seq<Pair>, starts: seq<nat>, blocks: seq<Stored>,
                   data: seq<Pair>,
                   index: seq<Pair>, pending: bool, handle: Handle, lastKey: seq<byte>, sep: seq<byte>)
    requires Building(step, file, all, starts, blocks, data, index, pending, handle, lastKey) && data == []
             && (pending || all == [])
    requires pending ==> |sep| >= 8 && |lastKey| >= 8 && (sep == lastKey || LexLess(User(lastKey), User(sep)))
    ensures Split(all, starts, blocks) && InternalPairs(all) && starts[|blocks|] == |all|
    ensures var ix := NextIndex(index, pending, handle, sep); |ix| == |blocks| && IndexOk(ix, all, starts, blocks)
    ensures forall i :: 0 <= i < |blocks| ==> StoredAt(step, file, blocks[i])
  {
    hide StoredAt, EncodeHandle;
    if pending {
      LastBlock(all, starts, blocks);
      assert Separator(all, starts[|blocks|], sep);
      IndexGrows(index, all, starts, blocks, sep);
    }
  }

  lemma TableFrom(step: L.CrcStep, file: seq<byte>, policy: Policy, t: View)
    requires Split(t.all, t.starts, t.blocks) && t.starts[|t.blocks|] == |t.all|
    requires InternalPairs(t.all) && Ascending(KeyLess, t.all)
    requires forall i :: 0 <= i < |t.blocks| ==> StoredAt(step, file, t.blocks[i])
    requires StoredAt(step, file, t.index) && |t.index.xs| == |t.blocks|
             && IndexOk(t.index.xs, t.all, t.starts, t.blocks)
    requires Ascending(KeyLess, t.index.xs)
    requires t.filter.Some? && |t.filter.value| < U32 ==>
             NeverTurnedAway(policy, t.filter.value, t.all, t.starts, t.blocks)
    ensures LaidOut(step, file, t) && (Addressable(file, t) ==> IsTable(step, file, policy, t))
  {
    hide StoredAt, Split, InternalPairs, Ascending, IndexOk, NeverTurnedAway;
  }

  lemma BuilderEmpty(b: BlockBuilder)
    requires b.Valid()
    ensures b.buffer == [] <==> b.xs == []
  {
    EntriesEnd(b.buffer, b.xs, b.layout.offs, b.layout.shared);
  }

  lemma FilteringSize(groups: seq<seq<seq<byte>>>, pending: seq<seq<byte>>, size: nat, all: seq<Pair>, starts: seq<nat>,
                      blocks: seq<Stored>)
    requires Split(all, starts, blocks) && Filtering(groups, pending, size, all, starts, blocks)
    ensures |groups| == size / 2048
  {
  }

  lemma BuildingFacts(step: L.CrcStep, file: seq<byte>, all: seq<Pair>, starts: seq<nat>, blocks: seq<Stored>,
                      data: seq<Pair>,
                      index: seq<Pair>, pending: bool, handle: Handle, lastKey: seq<byte>)
    requires Building(step, file, all, starts, blocks, data, index, pending, handle, lastKey)
    ensures Split(all, starts, blocks) && |starts| == |blocks| + 1 && data == all[starts[|blocks|]..]
            && InternalPairs(all)
    ensures pending ==> data == [] && all != [] && blocks != []
    ensures all != [] ==> lastKey == all[|all| - 1].key && |lastKey| >= 8
    ensures data != [] ==> !pending && data[|data| - 1] == all[|all| - 1]
    ensures data == [] && !pending ==> all == []
  {
    if blocks != [] {
      LastBlock(all, starts, blocks);
    }
  }

  /** Build a table from ascending internal keys; only a single block, or a filter block, of 2^32 bytes or more can make
      it unreadable. */
  method BuildTable(step: L.CrcStep, interval: nat, blockSize: nat, policy: Policy, name: seq<byte>, useFilter: bool,
                    pairs: seq<Pair>)
      returns (file: seq<byte>)
    requires interval >= 1 && policy.Valid() && InternalPairs(pairs) && Ascending(KeyLess, pairs)
    ensures exists t :: && LaidOut(step, file, t) && Footed(step, file, name, t) && t.all == pairs
                        && (t.filter.Some? <==> useFilter)
                        && (Addressable(file, t) ==> IsTable(step, file, policy, t))
                        && (|file| < U32 ==> Addressable(file, t))
  {
    hide KeyLess, Ascending, Building, Split, Filtering, IsTable, LaidOut, Footed, Addressable, BlockBuilder.Valid,
      FilterBlockBuilder.Valid;
    var b := new TableBuilder(step, interval, blockSize, policy, name, useFilter);
    for i := 0 to |pairs|
      invariant b.Valid() && b.all == pairs[..i]
      invariant fresh(b) && fresh(b.data) && fresh(b.index) && fresh(b.filter)
    {
      BuildingFacts(b.step, b.file, b.all, b.starts, b.blocks, b.data.xs, b.index.xs, b.pendingIndexEntry,
          b.pendingHandle, b.lastKey);
      NextIsAfter(KeyLess, pairs, i);
      b.Add(pairs[i].key, pairs[i].value);
      assert pairs[..i] + [pairs[i]] == pairs[..i + 1];
    }
    assert pairs[..|pairs|] == pairs;
    ghost var t := b.Finish();
    file := b.file;
    if |file| < U32 {
      SmallFile(step, file, name, t);
    }
  }

  /** The filter that the metaindex block names for this policy, if any; without a policy it is not looked at. */
  method ReadMeta(step: L.CrcStep, verify: bool, file: seq<byte>, metaHandle: Handle, policyName: Option<seq<byte>>,
                  ghost name: seq<byte>, ghost t: View)
      returns (filter: Option<seq<byte>>)
    requires Footed(step, file, name, t) && Addressable(file, t) && metaHandle == t.meta.h
    ensures filter == if policyName == Some(name) then t.filter else None
  {
    hide Footed, Addressable, StoredAt, LexLess, ReadBlock, BlockIter.Valid, Transitive, Ascending, DecodeHandle,
      EncodeHandle, MetaEntries;
    filter := None;
    if policyName.Some? {
      var key := FILTER_PREFIX + policyName.value;
      MetaFacts(step, verify, file, name, t);
      ByteKeyOrder();
      var it := OpenBlock(step, verify, file, LexLess, metaHandle, t.meta);
      it.Seek(key);
      it.ValidIs();
      MetaSeek(name, t, policyName.value, it.pos);
      if it.IsValid() {
        var entry := it.KeyValue();
        if entry.key == key {
          var handle := DecodeHandle(entry.value).value;
          filter := ReadBlock(step, verify, file, handle);
        }
      }
    }
  }

  lemma MetaFacts(step: L.CrcStep, verify: bool, file: seq<byte>, name: seq<byte>, t: View)
    requires Footed(step, file, name, t) && Addressable(file, t)
    ensures t.meta.h.size < U32 && StoredAt(step, file, t.meta) && Ascending(LexLess, t.meta.xs)
    ensures t.meta.xs == MetaEntries(name, t.filter, t.filterHandle)
    ensures t.filter.Some? ==>
              && DecodeHandle(EncodeHandle(t.filterHandle)) == Some(t.filterHandle)
              && ReadBlock(step, verify, file, t.filterHandle) == t.filter
  {
    hide StoredAt, FooterBytes, EncodeHandle, DecodeHandle, ReadBlock, LexLess;
    if t.filter.Some? {
      HandleBack(t.filterHandle, []);
      ReadBlockBack(step, verify, file, t.filterHandle, t.filter.value);
    }
  }

  /** A seek in the metaindex block stops at the entry of this filter policy exactly if that is the one it holds. */
  lemma MetaSeek(name: seq<byte>, t: View, wanted: seq<byte>, pos: nat)
    requires t.meta.xs == MetaEntries(name, t.filter, t.filterHandle) && pos <= |t.meta.xs|
    requires forall i :: 0 <= i < pos ==> LexLess(t.meta.xs[i].key, FILTER_PREFIX + wanted)
    ensures pos < |t.meta.xs| && t.meta.xs[pos].key == FILTER_PREFIX + wanted <==> wanted == name && t.filter.Some?
    ensures pos < |t.meta.xs| ==> t.filter.Some? && t.meta.xs[pos].value == EncodeHandle(t.filterHandle)
  {
    hide LexLess, EncodeHandle;
    SameName(name, wanted);
    SameName(name, name);
    assert pos == 1 ==> LexLess(t.meta.xs[0].key, FILTER_PREFIX + wanted);
  }

  lemma SameName(a: seq<byte>, b: seq<byte>)
    ensures FILTER_PREFIX + a == FILTER_PREFIX + b <==> a == b
    ensures !LexLess(FILTER_PREFIX + a, FILTER_PREFIX + a)
  {
    assert (FILTER_PREFIX + a)[7..] == a && (FILTER_PREFIX + b)[7..] == b;
    LexTotal(FILTER_PREFIX + a, FILTER_PREFIX + a);
  }

  /** Table::Open, without touching the index block: its handle, and the filter block. */
  method OpenTable(step: L.CrcStep, verify: bool, file: seq<byte>, policyName: Option<seq<byte>>, ghost name: seq<byte>,
                   ghost t: View)
      returns (r: Option<(Handle, Option<seq<byte>>)>)
    requires Footed(step, file, name, t) && Addressable(file, t) && StoredAt(step, file, t.index)
    ensures r == Some((t.index.h, if policyName == Some(name) then t.filter else None))
  {
    assert Fits(t.meta.h) && Fits(t.index.h) by { hide FinishedBytes, Trailer, Entries, Restarts; }
    FooterBack(file[..|file| - 48], t.meta.h, t.index.h);
    hide Footed, Addressable, ReadFooter;
    var footer := ReadFooter(file);
    if footer.None? {
      return None;
    }
    var filter := ReadMeta(step, verify, file, footer.value.0, policyName, name, t);
    r := Some((footer.value.1, filter));
  }

  /** Open a table file, with or without a filter policy, and look (u, sn) up. */
  method Get(step: L.CrcStep, verify: bool, file: seq<byte>, policy: Policy, policyName: Option<seq<byte>>,
             u: seq<byte>, sn: nat,
             ghost name: seq<byte>, ghost t: View)
      returns (r: Option<Pair>)
    requires IsTable(step, file, policy, t) && Footed(step, file, name, t) && sn <= MAX_SEQUENCE && Typed(t.all)
    ensures forall i: nat :: NewestOf(t.all, u, sn, i) ==> r == Some(t.all[i])
    ensures r.Some? && |r.value.key| >= 8 && User(r.value.key) == u ==>
            exists i: nat :: NewestOf(t.all, u, sn, i) && r.value == t.all[i]
  {
    hide KeyLess, Ascending, StoredAt, Split, IndexOk, NeverTurnedAway, Answers, Typed, NewestOf, Footed, Addressable;
    var table := OpenTable(step, verify, file, policyName, name, t);
    var (indexHandle, filter) := table.value;
    var k := MakeKey(u, sn * 256 + 1);
    r := InternalGet(step, verify, file, indexHandle, policy, filter, k, t);
    ghost var j: nat :| FirstAtOrAfter(t.all, k, j);
    LookupIsNewest(t.all, u, sn, j, r);
  }
}
