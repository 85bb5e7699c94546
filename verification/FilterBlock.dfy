/** One filter for every 2 KB of table offsets: table/filter_block.cc, over internal keys (InternalFilterPolicy). */
module FilterBlocks {
  import opened Format
  import opened Coding
  import opened InternalKeys
  import opened Bloom

  /** The end of piece i, when piece i starts at start[i] and the last one ends at `end`. */
  function Limit(start: seq<nat>, end: nat, i: nat): nat
    requires i < |start|
  {
    if i + 1 < |start| then start[i + 1] else end
  }

  /** The keys, flattened into one string. */
  ghost predicate Flat(bytes: seq<byte>, start: seq<nat>, keys: seq<seq<byte>>) {
    |start| == |keys| && forall i :: 0 <= i < |keys| ==> PieceAt(bytes, start, keys, i)
  }

  ghost predicate PieceAt(bytes: seq<byte>, start: seq<nat>, keys: seq<seq<byte>>, i: nat)
    requires i < |keys| == |start|
  {
    start[i] <= Limit(start, |bytes|, i) <= |bytes| && bytes[start[i]..Limit(start, |bytes|, i)] == keys[i]
  }

  ghost predicate Internal(keys: seq<seq<byte>>) {
    forall k :: k in keys ==> |k| >= 8
  }

  /** Filter g is result[offs[g]..] up to the next one, and no key of group g is turned away by it. */
  ghost predicate Filters(policy: Policy, result: seq<byte>, offs: seq<nat>, groups: seq<seq<seq<byte>>>) {
    && |offs| == |groups|
    && forall g :: 0 <= g < |groups| ==> FilterAt(policy, result, offs, groups, g)
  }

  ghost predicate FilterAt(policy: Policy, result: seq<byte>, offs: seq<nat>, groups: seq<seq<seq<byte>>>, g: nat)
    requires g < |groups| == |offs|
  {
    && offs[g] <= Limit(offs, |result|, g) <= |result| && Internal(groups[g])
    && forall k :: k in groups[g] ==> MayMatch(policy, User(k), result[offs[g]..Limit(offs, |result|, g)])
  }

  lemma FiltersGrow(policy: Policy, result: seq<byte>, offs: seq<nat>, groups: seq<seq<seq<byte>>>, result': seq<byte>,
                    keys: seq<seq<byte>>)
    requires Filters(policy, result, offs, groups) && result <= result' && Internal(keys)
    requires forall k :: k in keys ==> MayMatch(policy, User(k), result'[|result|..])
    ensures Filters(policy, result', offs + [|result|], groups + [keys])
  {
    hide MayMatch;
    var offs', groups' := offs + [|result|], groups + [keys];
    forall g | 0 <= g < |groups'| ensures FilterAt(policy, result', offs', groups', g) {
      if g < |groups| {
        assert FilterAt(policy, result, offs, groups, g);
        assert Limit(offs', |result'|, g) == Limit(offs, |result|, g);
        assert result'[offs[g]..Limit(offs, |result|, g)] == result[offs[g]..Limit(offs, |result|, g)];
      } else {
        assert result'[|result|..|result'|] == result'[|result|..];
      }
    }
  }

  lemma FlatGrows(bytes: seq<byte>, start: seq<nat>, keys: seq<seq<byte>>, key: seq<byte>)
    requires Flat(bytes, start, keys)
    ensures Flat(bytes + key, start + [|bytes|], keys + [key])
  {
    var bytes', start', keys' := bytes + key, start + [|bytes|], keys + [key];
    forall i | 0 <= i < |keys'| ensures PieceAt(bytes', start', keys', i) {
      if i < |keys| {
        assert PieceAt(bytes, start, keys, i);
        assert Limit(start', |bytes'|, i) == Limit(start, |bytes|, i);
        assert bytes'[start[i]..Limit(start, |bytes|, i)] == bytes[start[i]..Limit(start, |bytes|, i)];
      }
    }
  }

  lemma FlatCount(bytes: seq<byte>, start: seq<nat>, keys: seq<seq<byte>>)
    requires Flat(bytes, start, keys)
    ensures |start| == |keys|
  {
  }

  lemma NothingFlat()
    ensures Flat([], [], [])
  {
  }

  lemma FlatPiece(bytes: seq<byte>, start: seq<nat>, keys: seq<seq<byte>>, i: nat)
    requires Flat(bytes, start, keys) && i < |start|
    ensures var ends := start + [|bytes|];
            ends[i] <= ends[i + 1] <= |bytes| && bytes[ends[i]..ends[i + 1]] == keys[i]
  {
    assert PieceAt(bytes, start, keys, i);
  }

  ghost predicate IsUserKeys(users: seq<seq<byte>>, keys: seq<seq<byte>>) {
    |users| == |keys| && forall i :: 0 <= i < |users| ==> |keys[i]| >= 8 && users[i] == User(keys[i])
  }

  /** The keys that filter i does or will cover. */
  ghost function KeysFor(groups: seq<seq<seq<byte>>>, pending: seq<seq<byte>>, i: nat): seq<seq<byte>> {
    if i < |groups| then groups[i] else if i == |groups| then pending else []
  }

  class FilterBlockBuilder {
    const policy: Policy
    var keys: seq<byte>
    var start: seq<nat>
    var result: seq<byte>
    var filterOffsets: seq<nat>
    ghost var offs: seq<nat>
    ghost var groups: seq<seq<seq<byte>>>
    ghost var pending: seq<seq<byte>>

    ghost predicate Valid()
      reads this
    {
      && policy.Valid() && Flat(keys, start, pending) && Internal(pending)
      && Filters(policy, result, offs, groups)
      && |filterOffsets| == |offs| && forall g :: 0 <= g < |offs| ==> filterOffsets[g] == Low32(offs[g])
    }

    constructor (policy: Policy)
      requires policy.Valid()
      ensures Valid() && groups == [] && pending == [] && this.policy == policy
    {
      this.policy := policy;
      keys, start, result, filterOffsets := [], [], [], [];
      offs, groups, pending := [], [], [];
    }

    method AddKey(key: seq<byte>)
      requires Valid() && |key| >= 8
      modifies this
      ensures Valid() && groups == old(groups) && pending == old(pending) + [key]
    {
      hide Filters, Flat, Low32;
      FlatGrows(keys, start, pending, key);
      start := start + [|keys|];
      keys := keys + key;
      pending := pending + [key];
    }

    method GenerateFilter()
      requires Valid()
      modifies this
      ensures Valid() && groups == old(groups) + [old(pending)] && pending == []
    {
      hide Filters, Flat, Low32, MayMatch;
      FlatCount(keys, start, pending);
      if start == [] {
        FiltersGrow(policy, result, offs, groups, result, []);
        filterOffsets := filterOffsets + [Low32(|result|)];
        offs, groups := offs + [|result|], groups + [[]];
        return;
      }
      var tmpKeys := UserKeys();
      filterOffsets := filterOffsets + [Low32(|result|)];
      var next := CreateFilter(policy, tmpKeys, result);
      FiltersGrow(policy, result, offs, groups, next, pending);
      offs, groups := offs + [|result|], groups + [pending];
      result, keys, start, pending := next, [], [], [];
      NothingFlat();
    }

    /** The key slices, each without its sequence number and type. */
    method UserKeys() returns (users: seq<seq<byte>>)
      requires Valid()
      ensures IsUserKeys(users, pending)
    {
      hide Filters, Flat, Low32, Limit, User;
      FlatCount(keys, start, pending);
      users := [];
      var ends := start + [|keys|];
      for i := 0 to |start|
        invariant i <= |pending| && IsUserKeys(users, pending[..i])
      {
        FlatPiece(keys, start, pending, i);
        assert pending[i] in pending && pending[..i + 1] == pending[..i] + [pending[i]];
        users := users + [User(keys[ends[i]..ends[i + 1]])];
      }
      assert pending[..|pending|] == pending;
    }

    /** Keys added next belong to the filter of this offset; the assignment of earlier keys does not change. */
    method StartBlock(blockOffset: nat)
      requires Valid() && blockOffset / 2048 >= |groups|
      modifies this
      ensures Valid() && |groups| == blockOffset / 2048
      ensures forall i: nat :: KeysFor(groups, pending, i) == KeysFor(old(groups), old(pending), i)
    {
      hide Filters, Flat, Low32;
      var index := blockOffset / 2048;
      while index > |filterOffsets|
        invariant Valid() && index >= |groups|
        invariant forall i: nat :: KeysFor(groups, pending, i) == KeysFor(old(groups), old(pending), i)
        decreases index - |groups|
      {
        FilterCount(policy, result, offs, groups);
        GenerateFilter();
      }
      FilterCount(policy, result, offs, groups);
    }

    method Finish() returns (contents: seq<byte>)
      requires Valid()
      modifies this
      ensures Valid() && (forall i: nat :: KeysFor(groups, pending, i) == KeysFor(old(groups), old(pending), i))
      ensures contents == FilterBytes(result, filterOffsets) && pending == []
    {
      hide Filters, Flat, Low32;
      FlatCount(keys, start, pending);
      if start != [] {
        FilterCount(policy, result, offs, groups);
        GenerateFilter();
      }
      contents := WriteOffsets(result, filterOffsets);
    }
  }

  method WriteOffsets(result: seq<byte>, filterOffsets: seq<nat>) returns (contents: seq<byte>)
    ensures contents == FilterBytes(result, filterOffsets)
  {
    hide Fixed, Low32;
    contents := result;
    for i := 0 to |filterOffsets|
      invariant contents == result + FixedList(filterOffsets[..i])
    {
      assert filterOffsets[..i + 1][..i] == filterOffsets[..i];
      contents := contents + Fixed(filterOffsets[i], 4);
    }
    assert filterOffsets[..|filterOffsets|] == filterOffsets;
    contents := contents + Fixed(Low32(|result|), 4) + [11];
  }

  lemma FilterCount(policy: Policy, result: seq<byte>, offs: seq<nat>, groups: seq<seq<seq<byte>>>)
    requires Filters(policy, result, offs, groups)
    ensures |offs| == |groups|
  {
  }

  function FilterBytes(result: seq<byte>, filterOffsets: seq<nat>): seq<byte> {
    result + FixedList(filterOffsets) + Fixed(Low32(|result|), 4) + [11]
  }

  function Shift(v: nat, lg: nat): nat {
    PowPositive(2, lg);
    v / Pow(2, lg)
  }

  function Word(c: seq<byte>, p: nat): nat
    requires p + 4 <= |c|
  {
    DecodeFixed(c[p..p + 4])
  }

  /** What FilterBlockReader::KeyMayMatch answers; anything it cannot make sense of is a potential match. */
  ghost predicate BlockMayMatch(policy: Policy, c: seq<byte>, blockOffset: nat, key: seq<byte>)
    requires |key| >= 8
  {
    |c| < 5 || (
      var base := Word(c, |c| - 5);
      base > |c| - 5 || (
        var index := Shift(blockOffset, c[|c| - 1]);
        index >= (|c| - 5 - base) / 4 || (
          var start, limit := Word(c, base + 4 * index), Word(c, base + 4 * index + 4);
          if start <= limit <= base then MayMatch(policy, User(key), c[start..limit]) else start != limit)))
  }

  method KeyMayMatch(policy: Policy, c: seq<byte>, blockOffset: nat, key: seq<byte>) returns (r: bool)
    requires |key| >= 8
    ensures r == BlockMayMatch(policy, c, blockOffset, key)
  {
    hide MayMatch, Shift, Word, User;
    var n := |c|;
    if n < 5 {
      return true;
    }
    var base := Word(c, n - 5);
    if base > n - 5 {
      return true;
    }
    var num := (n - 5 - base) / 4;
    var index := Shift(blockOffset, c[n - 1]);
    if index < num {
      var start, limit := Word(c, base + 4 * index), Word(c, base + 4 * index + 4);
      if start <= limit && limit <= base {
        r := Bloom.KeyMayMatch(policy, User(key), c[start..limit]);
        return;
      } else if start == limit {
        return false;
      }
    }
    return true;
  }

  /** The words of a finished filter block: the start of every filter, then the end of the last one. */
  lemma FilterWord(result: seq<byte>, filterOffsets: seq<nat>, i: nat)
    requires i <= |filterOffsets|
    ensures var c, p := FilterBytes(result, filterOffsets), |result| + 4 * i;
            && |c| == |result| + 4 * |filterOffsets| + 5 && c[|c| - 1] == 11 && c[..|result|] == result
            && c[p..p + 4] == Fixed(if i < |filterOffsets| then filterOffsets[i] else Low32(|result|), 4)
  {
    hide Low32, Fixed, FixedList;
    var words := FixedList(filterOffsets);
    if filterOffsets == [] {
      NoFixedList();
    } else {
      FixedListAt(filterOffsets, if i < |filterOffsets| then i else 0);
    }
    var c, p := FilterBytes(result, filterOffsets), |result| + 4 * i;
    if i < |filterOffsets| {
      assert c[p..p + 4] == words[4 * i..4 * i + 4];
    }
  }

  lemma NoFixedList()
    ensures FixedList([]) == []
  {
  }

  lemma FilterWordValue(result: seq<byte>, filterOffsets: seq<nat>, i: nat, v: nat)
    requires i <= |filterOffsets| && v < U32
             && (if i < |filterOffsets| then filterOffsets[i] else Low32(|result|)) == Low32(v)
    ensures |result| + 4 * i + 4 <= |FilterBytes(result, filterOffsets)|
    ensures Word(FilterBytes(result, filterOffsets), |result| + 4 * i) == v
  {
    hide FilterBytes, Fixed, DecodeFixed;
    FilterWord(result, filterOffsets, i);
    Fixed32RoundTrip(v);
  }

  lemma ShiftEleven(offset: nat)
    ensures Shift(offset, 11) == offset / 2048
  {
    PowOfTwo();
  }

  /** No key is turned away by the filter of an offset it was added under. */
  lemma NoFalseNegative(policy: Policy, result: seq<byte>, filterOffsets: seq<nat>, offs: seq<nat>,
                        groups: seq<seq<seq<byte>>>, offset: nat, key: seq<byte>)
    requires Filters(policy, result, offs, groups) && |FilterBytes(result, filterOffsets)| < U32
    requires |filterOffsets| == |offs| && forall g :: 0 <= g < |offs| ==> filterOffsets[g] == Low32(offs[g])
    requires offset / 2048 < |groups| && key in groups[offset / 2048]
    ensures |key| >= 8 && BlockMayMatch(policy, FilterBytes(result, filterOffsets), offset, key)
  {
    hide FilterBytes, MayMatch, Word, Low32, Shift;
    var c, g := FilterBytes(result, filterOffsets), offset / 2048;
    assert FilterAt(policy, result, offs, groups, g);
    var start, limit := offs[g], Limit(offs, |result|, g);
    FilterWord(result, filterOffsets, 0);
    FilterWordValue(result, filterOffsets, g, start);
    FilterWordValue(result, filterOffsets, g + 1, limit);
    FilterWordValue(result, filterOffsets, |filterOffsets|, |result|);
    ShiftEleven(offset);
    assert c[start..limit] == result[start..limit];
  }
}
