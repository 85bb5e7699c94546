/** table/two_level_iterator.cc: an index of blocks read as one list.  The index iterator is a position
    among the separators, and the block function maps an index value to the block it names. */
module TwoLevel {
  import opened Format
  import opened Cursors
  import V = Version

  function Concat(blocks: seq<seq<Entry>>): seq<Entry> {
    if blocks == [] then [] else Concat(blocks[..|blocks| - 1]) + blocks[|blocks| - 1]
  }

  /** The position in the concatenation at which block i begins. */
  ghost function Offset(blocks: seq<seq<Entry>>, i: nat): nat
    requires i <= |blocks|
  {
    |Concat(blocks[..i])|
  }

  lemma OffsetStep(blocks: seq<seq<Entry>>, i: nat)
    requires i < |blocks|
    ensures Offset(blocks, i + 1) == Offset(blocks, i) + |blocks[i]|
    ensures Concat(blocks[..i + 1]) == Concat(blocks[..i]) + blocks[i]
  {
    assert blocks[..i + 1][..i] == blocks[..i];
  }

  lemma OffsetEnds(blocks: seq<seq<Entry>>)
    ensures Offset(blocks, 0) == 0 && Offset(blocks, |blocks|) == |Concat(blocks)|
  {
    assert blocks[..0] == [] && blocks[..|blocks|] == blocks;
  }

  lemma {:induction false} ConcatPrefix(blocks: seq<seq<Entry>>, i: nat)
    requires i <= |blocks|
    ensures Offset(blocks, i) <= |Concat(blocks)| && Concat(blocks)[..Offset(blocks, i)] == Concat(blocks[..i])
    decreases |blocks| - i
  {
    if i == |blocks| {
      OffsetEnds(blocks);
      assert blocks[..i] == blocks;
    } else {
      OffsetStep(blocks, i);
      ConcatPrefix(blocks, i + 1);
      assert Concat(blocks)[..Offset(blocks, i)] == Concat(blocks)[..Offset(blocks, i + 1)][..Offset(blocks, i)];
    }
  }

  lemma ConcatAt(blocks: seq<seq<Entry>>, i: nat, j: nat)
    requires i < |blocks| && j < |blocks[i]|
    ensures Offset(blocks, i) + j < |Concat(blocks)| && Concat(blocks)[Offset(blocks, i) + j] == blocks[i][j]
  {
    OffsetStep(blocks, i);
    ConcatPrefix(blocks, i + 1);
    assert Concat(blocks)[..Offset(blocks, i + 1)][Offset(blocks, i) + j] == blocks[i][j];
  }

  /** Every separator is at or after its own block and before every later one. */
  ghost predicate Separates(separators: seq<Entry>, blocks: seq<seq<Entry>>) {
    && |separators| == |blocks| && Sorted(separators)
    && (forall i, e :: 0 <= i < |blocks| && e in blocks[i] ==> AtOrBefore(e, separators[i]))
    && (forall i, j, e :: 0 <= i < j < |blocks| && e in blocks[j] ==> Before(separators[i], e))
  }

  lemma {:induction false} BlockOf(blocks: seq<seq<Entry>>, k: nat) returns (i: nat, j: nat)
    requires k < |Concat(blocks)|
    ensures i < |blocks| && j < |blocks[i]| && k == Offset(blocks, i) + j && Concat(blocks)[k] == blocks[i][j]
    decreases |blocks|
  {
    var n := |blocks| - 1;
    var rest := blocks[..n];
    OffsetStep(blocks, n);
    OffsetEnds(blocks);
    if k < |Concat(rest)| {
      i, j := BlockOf(rest, k);
      assert rest[..i] == blocks[..i];
    } else {
      i, j := n, k - |Concat(rest)|;
    }
    ConcatAt(blocks, i, j);
  }

  /** Seeking in the block that the index seek finds is seeking in the whole list. */
  lemma SeekSplits(separators: seq<Entry>, blocks: seq<seq<Entry>>, t: Entry)
    requires Separates(separators, blocks) && Sorted(Concat(blocks))
    ensures var i := LowerBound(separators, t);
            i <= |blocks| && LowerBound(Concat(blocks), t) == Offset(blocks, i) + if i < |blocks|
                then LowerBound(blocks[i], t) else 0
  {
    var i, all := LowerBound(separators, t), Concat(blocks);
    LowerBoundIs(separators, t);
    OffsetEnds(blocks);
    if i < |blocks| {
      BlockSorted(blocks, i);
      LowerBoundIs(blocks[i], t);
      OffsetStep(blocks, i);
    }
    ConcatPrefix(blocks, i);
    var b := Offset(blocks, i) + if i < |blocks| then LowerBound(blocks[i], t) else 0;
    if i < |blocks| {
      ConcatPrefix(blocks, i + 1);
    }
    forall k | 0 <= k < |all| ensures k < b <==> Before(all[k], t) {
      var m, j := BlockOf(blocks, k);
      assert blocks[m][j] in blocks[m];
      if m < i {
        OffsetMonotone(blocks, m + 1, i);
        OffsetStep(blocks, m);
        assert Before(separators[m], t);
      } else if m > i {
        OffsetMonotone(blocks, i + 1, m);
        assert Before(separators[i], blocks[m][j]);
      }
    }
    LowerBoundUnique(all, t, b);
  }

  lemma {:induction false} OffsetMonotone(blocks: seq<seq<Entry>>, i: nat, j: nat)
    requires i <= j <= |blocks|
    ensures Offset(blocks, i) <= Offset(blocks, j)
    decreases j - i
  {
    if i < j {
      OffsetStep(blocks, i);
      OffsetMonotone(blocks, i + 1, j);
    }
  }

  lemma BlockSorted(blocks: seq<seq<Entry>>, i: nat)
    requires Sorted(Concat(blocks)) && i < |blocks|
    ensures Sorted(blocks[i])
  {
    forall j, k | 0 <= j < k < |blocks[i]| ensures Before(blocks[i][j], blocks[i][k]) {
      ConcatAt(blocks, i, j);
      ConcatAt(blocks, i, k);
    }
  }

  // ----- the files of a level as the blocks of an index -----

  function LargestKeys(files: seq<V.Table>): seq<Entry> {
    seq(|files|, i requires 0 <= i < |files| => V.Largest(files[i]))
  }

  function FileEntries(files: seq<V.Table>): seq<seq<Entry>> {
    seq(|files|, i requires 0 <= i < |files| => files[i].entries)
  }

  /** A sorted level can be read as one list: its files' largest keys separate their entries. */
  lemma LevelSeparates(files: seq<V.Table>)
    requires V.DisjointSorted(files)
    ensures Separates(LargestKeys(files), FileEntries(files)) && Sorted(Concat(FileEntries(files)))
  {
    var keys, blocks := LargestKeys(files), FileEntries(files);
    forall i, e | 0 <= i < |files| && e in files[i].entries
      ensures AtOrBefore(e, keys[i]) && AtOrBefore(V.Smallest(files[i]), e) {
      V.BoundsHold(files[i], e);
    }
    assert Separates(keys, blocks);
    forall a, b | 0 <= a < b < |Concat(blocks)| ensures Before(Concat(blocks)[a], Concat(blocks)[b]) {
      var i, j := BlockOf(blocks, a);
      var m, n := BlockOf(blocks, b);
      if m < i {
        OffsetStep(blocks, m);
        OffsetMonotone(blocks, m + 1, i);
      }
      assert i <= m;
      assert i < m ==> AtOrBefore(blocks[i][j], keys[i]) && Before(keys[i], blocks[m][n]);
    }
  }

  class TwoLevelIterator {
    const separators: seq<Entry>
    const blocks: seq<seq<Entry>>
    /** index_iter_; |blocks| when it is not valid. */
    var index: nat
    /** data_iter_, and the index value it was opened with. */
    var data: Option<Cursor>
    var dataBlock: nat

    ghost predicate Open()
      reads this
    {
      && Separates(separators, blocks) && Sorted(Concat(blocks)) && index <= |blocks|
      && (data.Some? ==> && dataBlock < |blocks| && data.value.xs == blocks[dataBlock]
                         && data.value.pos <= |blocks[dataBlock]|)
    }

    ghost predicate Valid()
      reads this
    {
      Open() && (data.Some? ==> data.value.Valid() && index == dataBlock)
    }

    ghost function View(): Cursor
      requires Open()
      reads this
    {
      Cursor(Concat(blocks), if data.Some? then Offset(blocks, dataBlock) + data.value.pos else |Concat(blocks)|)
    }

    constructor (separators: seq<Entry>, blocks: seq<seq<Entry>>)
      requires Separates(separators, blocks) && Sorted(Concat(blocks))
      ensures Valid() && View() == Cursor(Concat(blocks), |Concat(blocks)|)
    {
      this.separators, this.blocks, index, data, dataBlock := separators, blocks, |blocks|, None, 0;
    }

    method IsValid() returns (valid: bool)
      requires Valid()
      ensures valid <==> View().Valid()
    {
      valid := data.Some?;
      if valid {
        ConcatAt(blocks, dataBlock, data.value.pos);
      }
    }

    method Key() returns (e: Entry)
      requires Valid() && View().Valid()
      ensures e == View().Current()
    {
      ConcatAt(blocks, dataBlock, data.value.pos);
      e := data.value.Current();
    }

    method InitDataBlock()
      requires Open()
      modifies this`data, this`dataBlock
      ensures Open() && (data.Some? <==> index < |blocks|) && (data.Some? ==> dataBlock == index)
    {
      if index >= |blocks| {
        data := None;
      } else if data.Some? && dataBlock == index {
        // the open block is the right one already
      } else {
        data, dataBlock := Some(Cursor(blocks[index], |blocks[index]|)), index;
      }
    }

    /** Moves to the first entry at or after position p, which is where the current block ends if it is spent. */
    method SkipEmptyDataBlocksForward(ghost p: nat)
      requires Open() && (data.Some? <==> index < |blocks|) && (data.Some? ==> dataBlock == index)
      requires p == Offset(blocks, index) + if data.Some? then data.value.pos else 0
      modifies this`index, this`data, this`dataBlock
      ensures Valid() && View() == Cursor(Concat(blocks), p)
    {
      while data.None? || !data.value.Valid()
        invariant Open() && (data.Some? <==> index < |blocks|) && (data.Some? ==> dataBlock == index)
        invariant p == Offset(blocks, index) + if data.Some? then data.value.pos else 0
        decreases |blocks| - index
      {
        if index >= |blocks| {
          OffsetEnds(blocks);
          data := None;
          return;
        }
        OffsetStep(blocks, index);
        index := index + 1;
        InitDataBlock();
        if data.Some? {
          data := Some(data.value.SeekToFirst());
        }
      }
    }

    /** Moves to the last entry before block `index`, if the block is spent. */
    method SkipEmptyDataBlocksBackward()
      requires Open() && (data.Some? <==> index < |blocks|) && (data.Some? ==> dataBlock == index)
      modifies this`index, this`data, this`dataBlock
      ensures Valid()
      ensures View() == if old(data.Some? && data.value.Valid()) then old(View())
                        else if old(index >= |blocks|)
                            || old(Offset(blocks, index)) == 0 then Cursor(Concat(blocks), |Concat(blocks)|)
                        else Cursor(Concat(blocks), old(Offset(blocks, index)) - 1)
    {
      ghost var end := if index < |blocks| then Offset(blocks, index) else 0;
      ghost var spent := data.None? || !data.value.Valid();
      while data.None? || !data.value.Valid()
        invariant Open() && (data.Some? <==> index < |blocks|) && (data.Some? ==> dataBlock == index)
        invariant spent && (data.None? || !data.value.Valid()) ==>
                  if index < |blocks| then Offset(blocks, index) == end else end == 0
        invariant spent && data.Some? && data.value.Valid() ==> Offset(blocks, index) + data.value.pos + 1 == end
        invariant !spent ==> data == old(data) && index == old(index) && dataBlock == old(dataBlock)
        decreases if index < |blocks| then index + 1 else 0
      {
        if index >= |blocks| {
          data := None;
          return;
        }
        OffsetEnds(blocks);
        ghost var i := index;
        index := if index == 0 then |blocks| else index - 1;
        InitDataBlock();
        if data.Some? {
          OffsetStep(blocks, index);
          data := Some(data.value.SeekToLast());
        }
      }
    }

    method Seek(t: Entry)
      requires Valid()
      modifies this`index, this`data, this`dataBlock
      ensures Valid() && View() == old(View()).Seek(t)
    {
      LowerBoundIs(separators, t);
      SeekSplits(separators, blocks, t);
      index := LowerBound(separators, t);
      InitDataBlock();
      if data.Some? {
        BlockSorted(blocks, index);
        LowerBoundIs(blocks[index], t);
        data := Some(data.value.Seek(t));
      }
      SkipEmptyDataBlocksForward(LowerBound(Concat(blocks), t));
    }

    method SeekToFirst()
      requires Valid()
      modifies this`index, this`data, this`dataBlock
      ensures Valid() && View() == old(View()).SeekToFirst()
    {
      OffsetEnds(blocks);
      index := 0;
      InitDataBlock();
      if data.Some? {
        data := Some(data.value.SeekToFirst());
      }
      SkipEmptyDataBlocksForward(0);
    }

    method SeekToLast()
      requires Valid()
      modifies this`index, this`data, this`dataBlock
      ensures Valid() && View() == old(View()).SeekToLast()
    {
      OffsetEnds(blocks);
      index := if |blocks| == 0 then 0 else |blocks| - 1;
      InitDataBlock();
      if data.Some? {
        OffsetStep(blocks, index);
        data := Some(data.value.SeekToLast());
      }
      SkipEmptyDataBlocksBackward();
    }

    method Next()
      requires Valid() && View().Valid()
      modifies this`index, this`data, this`dataBlock
      ensures Valid() && View() == old(View()).Next()
    {
      ghost var p := View().pos;
      data := Some(data.value.Next());
      SkipEmptyDataBlocksForward(p + 1);
    }

    method Prev()
      requires Valid() && View().Valid()
      modifies this`index, this`data, this`dataBlock
      ensures Valid() && View() == old(View()).Prev()
    {
      data := Some(data.value.Prev());
      SkipEmptyDataBlocksBackward();
    }
  }
}
