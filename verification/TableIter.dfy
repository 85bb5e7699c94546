/** The iterator of a table, table/two_level_iterator.cc over the blocks of a file: it opens one block at a time and
    walks the entries of the whole table. */
module TableIterators {
  import opened Format
  import opened Coding
  import opened InternalKeys
  import opened Blocks
  import opened Bloom
  import opened Footers
  import opened Tables
  import L = Log

  // ----- bytes determine the entries of a block -----

  lemma KeyFrom(data: seq<byte>, limit: nat, xs: seq<Pair>, l: Layout, i: nat)
    requires IsBlock(data, limit, xs, l) && i < |xs|
    ensures |l.offs| == |xs| + 1 && l.offs[i] < limit && ReadHeader(data[..limit], l.offs[i]).Some?
    ensures var h := ReadHeader(data[..limit], l.offs[i]).value;
            && h.at + h.nonShared + h.valueLength == l.offs[i + 1] <= limit <= |data|
            && (i == 0 ==> h.shared == 0) && (i > 0 ==> h.shared <= |xs[i - 1].key|)
            && xs[i].key == (if i == 0 then [] else xs[i - 1].key[..h.shared]) + data[h.at..h.at + h.nonShared]
            && xs[i].value == data[h.at + h.nonShared..l.offs[i + 1]]
  {
    hide ReadHeader, EntryBytes, RestartPoint, Heads;
    EntryDecodes(data, limit, xs, l, i);
    assert EntryAt(data[..limit], xs, l.offs, l.shared, i);
    assert xs[i].key == xs[i].key[..l.shared[i]] + xs[i].key[l.shared[i]..];
  }

  /** One entry, read at the same place after the same key. */
  lemma SameEntry(data: seq<byte>, limit: nat, xs: seq<Pair>, l: Layout, ys: seq<Pair>, m: Layout, i: nat)
    requires IsBlock(data, limit, xs, l) && IsBlock(data, limit, ys, m) && i < |xs| && i < |ys|
    requires |l.offs| == |xs| + 1 && |m.offs| == |ys| + 1 && l.offs[i] == m.offs[i]
    requires i > 0 ==> xs[i - 1].key == ys[i - 1].key
    ensures xs[i] == ys[i] && l.offs[i + 1] == m.offs[i + 1]
  {
    hide IsBlock, ReadHeader;
    KeyFrom(data, limit, xs, l, i);
    KeyFrom(data, limit, ys, m, i);
  }

  lemma Places(data: seq<byte>, limit: nat, xs: seq<Pair>, l: Layout, i: nat)
    requires IsBlock(data, limit, xs, l) && i <= |xs|
    ensures |l.offs| == |xs| + 1 && l.offs[0] == 0 && (l.offs[i] == limit <==> i == |xs|)
  {
    hide IsBlock;
    BlockShape(data, limit, xs, l);
    OnlyTheEndIsTheLimit(|xs|, limit, l, i);
  }

  lemma {:induction false} PrefixSame(data: seq<byte>, limit: nat, xs: seq<Pair>, l: Layout, ys: seq<Pair>, m: Layout,
                                      i: nat)
    requires IsBlock(data, limit, xs, l) && IsBlock(data, limit, ys, m) && i <= |xs|
    ensures |l.offs| == |xs| + 1 && |m.offs| == |ys| + 1 && i <= |ys|
    ensures l.offs[i] == m.offs[i] && forall k :: 0 <= k < i ==> xs[k] == ys[k]
  {
    hide IsBlock;
    Places(data, limit, xs, l, 0);
    Places(data, limit, ys, m, 0);
    if i > 0 {
      PrefixSame(data, limit, xs, l, ys, m, i - 1);
      Places(data, limit, xs, l, i - 1);
      Places(data, limit, ys, m, i - 1);
      SameEntry(data, limit, xs, l, ys, m, i - 1);
    }
  }

  lemma BlockUnique(data: seq<byte>, limit: nat, xs: seq<Pair>, l: Layout, limit': nat, ys: seq<Pair>, m: Layout)
    requires IsBlock(data, limit, xs, l) && IsBlock(data, limit', ys, m)
    ensures xs == ys
  {
    assert |l.heads| == |m.heads| && limit == limit';
    hide IsBlock;
    PrefixSame(data, limit, xs, l, ys, m, |xs|);
    PrefixSame(data, limit, ys, m, xs, l, |ys|);
  }

  lemma SameBytes(step: L.CrcStep, file: seq<byte>, a: Stored, b: Stored)
    requires StoredAt(step, file, a) && StoredAt(step, file, b) && a.h == b.h && a.h.size < U32
    ensures a.xs == b.xs
  {
    hide StoredAt, IsBlock, ReadBlock, FinishedBytes;
    StoredOpens(step, false, file, a);
    StoredOpens(step, false, file, b);
    BlockUnique(FinishedBytes(a.bytes, a.restarts), |a.bytes|, a.xs, a.l, |b.bytes|, b.xs, b.l);
  }

  lemma BlockStart(t: View, i: nat)
    requires Listed(t) && i < |t.blocks|
    ensures t.starts[i] < t.starts[i + 1] <= |t.all| && t.blocks[i].xs == t.all[t.starts[i]..t.starts[i + 1]]
    ensures |t.blocks[i].xs| == t.starts[i + 1] - t.starts[i] > 0
  {
    hide KeyLess, IndexOk;
    assert BlockIs(t.all, t.starts, t.blocks, i);
  }

  lemma OneStart(t: View, i: nat, j: nat)
    requires Listed(t) && i < |t.blocks| && j < |t.blocks| && t.blocks[i].xs == t.blocks[j].xs
    ensures i == j
  {
    hide IndexOk;
    BlockStart(t, i);
    BlockStart(t, j);
    assert t.all[t.starts[i]] == t.blocks[i].xs[0] == t.all[t.starts[j]];
    NotBelowItself(User(t.all[t.starts[i]].key));
    assert Increasing(t.starts);
  }

  /** Different blocks have different handles. */
  lemma HandleNamesBlock(step: L.CrcStep, file: seq<byte>, policy: Policy, t: View, i: nat, j: nat)
    requires IsTable(step, file, policy, t) && i < |t.blocks| && j < |t.blocks|
    requires |t.index.xs| == |t.blocks| && t.index.xs[i].value == t.index.xs[j].value
    ensures i == j
  {
    hide IsTable, StoredAt, DecodeHandle, Listed;
    TableParts(step, file, policy, t);
    IndexEntry(step, file, policy, t, i);
    IndexEntry(step, file, policy, t, j);
    SameBytes(step, file, t.blocks[i], t.blocks[j]);
    OneStart(t, i, j);
  }

  class TableIterator {
    const step: L.CrcStep
    const verify: bool
    const file: seq<byte>
    const index: BlockIter
    var data: BlockIter?
    var dataHandle: seq<byte>
    ghost const policy: Policy
    ghost const t: View
    /** The block that `data` walks. */
    ghost var block: nat

    ghost predicate IndexOpen()
      reads index
    {
      && IsTable(step, file, policy, t) && index.Valid() && index.less == KeyLess
      && index.xs == t.index.xs && |t.index.xs| == |t.blocks|
    }

    ghost predicate DataOpen()
      reads this, data
    {
      data != null ==>
        && data != index && data.Valid() && data.less == KeyLess && block < |t.blocks| && data.xs == t.blocks[block].xs
        && block < |t.index.xs| && dataHandle == t.index.xs[block].value
    }

    /** The data iterator, if any, is in the block that the index stands on. */
    ghost predicate Aligned()
      reads this, index, data
    {
      && IndexOpen() && DataOpen() && (data != null <==> index.pos < |t.blocks|)
         && (data != null ==> block == index.pos)
    }

    ghost predicate Valid()
      reads this, index, data
    {
      IndexOpen() && DataOpen() && (data != null ==> data.pos < |data.xs| && block == index.pos)
    }

    /** The position among the entries of the table; behind the last one when the iterator is not valid. */
    ghost function Pos(): int
      reads this, data
    {
      if data != null && block < |t.starts| then t.starts[block] + data.pos else |t.all|
    }

    constructor (step: L.CrcStep, verify: bool, file: seq<byte>, indexHandle: Handle, ghost policy: Policy,
                 ghost t: View)
      requires IsTable(step, file, policy, t) && t.index.h == indexHandle
      ensures Valid() && Pos() == |t.all| && this.t == t && fresh(index) && data == null
    {
      hide IsTable, StoredAt, Listed, BlockIter.Valid;
      TableParts(step, file, policy, t);
      KeyOrder();
      var it := OpenBlock(step, verify, file, KeyLess, indexHandle, t.index);
      this.step, this.verify, this.file, this.index := step, verify, file, it;
      data, dataHandle := null, [];
      this.policy, this.t, block := policy, t, 0;
    }

    method InitDataBlock()
      requires IndexOpen() && DataOpen()
      modifies `data, `dataHandle, `block
      ensures Aligned() && (data == null || data == old(data) || fresh(data))
    {
      hide IsTable, StoredAt, Listed, BlockIter.Valid, DecodeHandle, Ascending, KeyLess, Transitive;
      index.ValidIs();
      if !index.IsValid() {
        data := null;
        return;
      }
      var i := index.KeyValue();
      TableParts(step, file, policy, t);
      if data != null && i.value == dataHandle {
        HandleNamesBlock(step, file, policy, t, block, index.pos);
        return;
      }
      IndexEntry(step, file, policy, t, index.pos);
      BlockAscends(t, index.pos);
      KeyOrder();
      var handle := DecodeHandle(i.value).value;
      data := OpenBlock(step, verify, file, KeyLess, handle, t.blocks[index.pos]);
      dataHandle, block := i.value, index.pos;
    }

    lemma Places()
      requires IndexOpen()
      ensures |t.starts| == |t.blocks| + 1 && t.starts[0] == 0 && t.starts[|t.blocks|] == |t.all|
      ensures forall i :: 0 <= i < |t.blocks| ==> |t.blocks[i].xs| == t.starts[i + 1] - t.starts[i] > 0
    {
      hide IsTable, KeyLess, IndexOk, Ascending;
      TableParts(step, file, policy, t);
      forall i | 0 <= i < |t.blocks| ensures |t.blocks[i].xs| == t.starts[i + 1] - t.starts[i] > 0 {
        BlockStart(t, i);
      }
    }

    method SkipEmptyDataBlocksForward(ghost p: int)
      requires Aligned() && Pos() == p
      modifies this, index, data
      ensures Valid() && Pos() == p && (data == null || data == old(data) || fresh(data))
    {
      hide IsTable, BlockIter.Valid;
      Places();
      var stop := AtEntry();
      while !stop
        invariant Aligned() && Pos() == p && (data == null || data == old(data) || fresh(data))
        invariant stop <==> data != null && data.pos < |data.xs|
        decreases !stop, if index.pos < |t.blocks| then |t.blocks| - index.pos else 0
      {
        index.ValidIs();
        if !index.IsValid() {
          data := null;
          return;
        }
        data.ValidIs();
        index.Next();
        index.ValidIs();
        InitDataBlock();
        if data != null {
          data.SeekToFirst();
        }
        stop := AtEntry();
      }
    }

    method AtEntry() returns (b: bool)
      requires DataOpen()
      ensures b <==> data != null && data.pos < |data.xs|
    {
      hide BlockIter.Valid;
      if data == null {
        return false;
      }
      data.ValidIs();
      return data.IsValid();
    }

    /** The last entry before block i; behind the last one of all when there is none. */
    ghost function LastBefore(i: nat): int {
      if i == 0 || i >= |t.starts| then |t.all| else t.starts[i] as int - 1
    }

    method SkipEmptyDataBlocksBackward()
      requires Aligned()
      modifies this, index, data
      ensures Valid() && (data == null || data == old(data) || fresh(data))
      ensures Pos() == if old(data != null && data.pos < |data.xs|) then old(Pos())
                       else if old(data == null) then |t.all| else LastBefore(old(index.pos))
    {
      hide IsTable, BlockIter.Valid;
      Places();
      ghost var p: int := if data != null && data.pos < |data.xs| then Pos() else if data == null then |t.all|
                     else LastBefore(index.pos);
      var stop := AtEntry();
      while !stop
        invariant Aligned() && (data == null || data == old(data) || fresh(data))
        invariant stop <==> data != null && data.pos < |data.xs|
        invariant p == if stop then Pos() else if data == null then |t.all| else LastBefore(index.pos)
        decreases !stop, if index.pos < |t.blocks| then index.pos + 1 else 0
      {
        index.ValidIs();
        if !index.IsValid() {
          data := null;
          return;
        }
        index.Prev();
        index.ValidIs();
        InitDataBlock();
        if data != null {
          data.SeekToLast();
        }
        stop := AtEntry();
      }
    }

    method IsValid() returns (b: bool)
      requires Valid()
      ensures b <==> 0 <= Pos() < |t.all|
    {
      hide IsTable, BlockIter.Valid;
      Places();
      b := AtEntry();
      PosInBlock();
    }

    lemma PosInBlock()
      requires Valid()
      ensures 0 <= Pos() <= |t.all| && (data != null ==> Pos() < |t.all| && t.all[Pos()] == data.xs[data.pos])
    {
      hide IsTable, BlockIter.Valid, KeyLess, Ascending;
      TableParts(step, file, policy, t);
      if data != null {
        BlockStart(t, block);
      }
    }

    method KeyValue() returns (p: Pair)
      requires Valid() && 0 <= Pos() < |t.all|
      ensures p == t.all[Pos()]
    {
      hide IsTable, BlockIter.Valid;
      PosInBlock();
      p := data.KeyValue();
    }

    /** Moves to the first entry at or after the target. */
    method Seek(target: seq<byte>)
      requires Valid() && |target| >= 8
      modifies this, index, data
      ensures Valid() && (data == null || data == old(data) || fresh(data))
      ensures 0 <= Pos() && FirstAtOrAfter(t.all, target, Pos())
    {
      hide IsTable, BlockIter.Valid, KeyLess, FirstAtOrAfter;
      Places();
      index.Seek(target);
      index.ValidIs();
      ghost var j := SeekIndex(target, index.pos);
      InitDataBlock();
      if data != null {
        data.Seek(target);
        data.ValidIs();
        SeekPlace(block, data.pos, j, target);
      }
      SkipEmptyDataBlocksForward(j);
    }

    /** Where the index stops, the whole list stops in the block named there, or at its end. */
    lemma SeekIndex(target: seq<byte>, i: nat) returns (j: nat)
      requires IndexOpen() && |target| >= 8 && i <= |t.index.xs|
      requires forall k :: 0 <= k < i ==> KeyLess(t.index.xs[k].key, target)
      requires forall k :: i <= k < |t.index.xs| ==> !KeyLess(t.index.xs[k].key, target)
      ensures FirstAtOrAfter(t.all, target, j) && |t.starts| == |t.blocks| + 1
      ensures if i < |t.blocks| then t.starts[i] <= j <= t.starts[i + 1] else j == |t.all|
    {
      hide IsTable, KeyLess, Listed, FirstAtOrAfter, Ascending, InternalPairs, Split, BlockIter.Valid;
      TableParts(step, file, policy, t);
      j := FirstExists(t.all, target, |t.all|);
      NotBeforeBlock(t, target, i, j);
      if i < |t.blocks| {
        NotAfterBlock(t, target, i, j);
      }
    }

    lemma SeekPlace(i: nat, p: nat, j: nat, target: seq<byte>)
      requires IndexOpen() && i < |t.blocks| && p <= |t.blocks[i].xs| && FirstAtOrAfter(t.all, target, j)
      requires |t.starts| == |t.blocks| + 1 && t.starts[i] <= j <= t.starts[i + 1]
      requires forall q :: 0 <= q < p ==> KeyLess(t.blocks[i].xs[q].key, target)
      requires forall q :: p <= q < |t.blocks[i].xs| ==> !KeyLess(t.blocks[i].xs[q].key, target)
      ensures j == t.starts[i] + p
    {
      hide IsTable, KeyLess, IndexOk, Ascending, BlockIter.Valid;
      TableParts(step, file, policy, t);
      BlockStart(t, i);
      var xs, s := t.blocks[i].xs, t.starts[i];
      if p < |xs| {
        assert xs[p] == t.all[s + p];
      }
      if p > 0 {
        assert xs[p - 1] == t.all[s + p - 1];
      }
    }

    method SeekToFirst()
      requires Valid()
      modifies this, index, data
      ensures Valid() && Pos() == 0 && (data == null || data == old(data) || fresh(data))
    {
      hide IsTable, BlockIter.Valid;
      Places();
      index.SeekToFirst();
      InitDataBlock();
      if data != null {
        data.SeekToFirst();
      }
      SkipEmptyDataBlocksForward(0);
    }

    method SeekToLast()
      requires Valid()
      modifies this, index, data
      ensures Valid() && Pos() == (if t.all == [] then 0 else |t.all| - 1)
      ensures data == null || data == old(data) || fresh(data)
    {
      hide IsTable, BlockIter.Valid;
      Places();
      index.SeekToLast();
      InitDataBlock();
      if data != null {
        data.SeekToLast();
      }
      SkipEmptyDataBlocksBackward();
    }

    method Next()
      requires Valid() && 0 <= Pos() < |t.all|
      modifies this, index, data
      ensures Valid() && Pos() == old(Pos()) + 1 && (data == null || data == old(data) || fresh(data))
    {
      hide IsTable, BlockIter.Valid;
      Places();
      index.ValidIs();
      data.Next();
      data.ValidIs();
      SkipEmptyDataBlocksForward(Pos());
    }

    method Prev()
      requires Valid() && 0 <= Pos() < |t.all|
      modifies this, index, data
      ensures Valid() && Pos() == (if old(Pos()) == 0 then |t.all| else old(Pos()) - 1)
      ensures data == null || data == old(data) || fresh(data)
    {
      hide IsTable, BlockIter.Valid;
      Places();
      index.ValidIs();
      data.Prev();
      data.ValidIs();
      SkipEmptyDataBlocksBackward();
    }
  }

  /** A finished file, opened from its last bytes and walked from the first entry to the last. */
  method ScanTable(step: L.CrcStep, verify: bool, file: seq<byte>, ghost policy: Policy, ghost name: seq<byte>,
                   ghost t: View)
      returns (pairs: seq<Pair>)
    requires IsTable(step, file, policy, t) && Footed(step, file, name, t)
    ensures pairs == t.all
  {
    hide IsTable, Footed, StoredAt, Addressable, TableIterator.Valid, TableIterator.Pos;
    IsReadable(step, file, policy, t);
    var r := OpenTable(step, verify, file, None, name, t);
    var it := new TableIterator(step, verify, file, r.value.0, policy, t);
    it.SeekToFirst();
    pairs := [];
    var more := it.IsValid();
    while more
      invariant it.Valid() && fresh(it) && fresh(it.index) && (it.data == null || fresh(it.data)) && it.t == t
      invariant it.Pos() == |pairs| <= |t.all| && pairs == t.all[..|pairs|] && (more <==> |pairs| < |t.all|)
      decreases |t.all| - |pairs|
    {
      var x := it.KeyValue();
      pairs := pairs + [x];
      it.Next();
      more := it.IsValid();
    }
  }

  lemma IsReadable(step: L.CrcStep, file: seq<byte>, policy: Policy, t: View)
    requires IsTable(step, file, policy, t)
    ensures Addressable(file, t) && StoredAt(step, file, t.index)
  {
  }

  /** Any ascending internal keys, written to a file below 2^32 bytes and scanned back. */
  method BuildAndScan(step: L.CrcStep, interval: nat, blockSize: nat, policy: Policy, name: seq<byte>, useFilter: bool,
                      verify: bool, pairs: seq<Pair>)
      returns (file: seq<byte>, back: seq<Pair>)
    requires interval >= 1 && policy.Valid() && InternalPairs(pairs) && Ascending(KeyLess, pairs)
    ensures |file| < U32 ==> back == pairs
  {
    hide IsTable, Footed, LaidOut, Addressable, Ascending, InternalPairs;
    file := BuildTable(step, interval, blockSize, policy, name, useFilter, pairs);
    ghost var t :| && LaidOut(step, file, t) && Footed(step, file, name, t) && t.all == pairs
                   && (Addressable(file, t) ==> IsTable(step, file, policy, t))
                      && (|file| < U32 ==> Addressable(file, t));
    back := [];
    if |file| < U32 {
      back := ScanTable(step, verify, file, policy, name, t);
    }
  }
}
