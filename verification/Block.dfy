/** Prefix-compressed blocks with restart points: table/block_builder.cc writes them and table/block.cc reads them. */
module Blocks {
  import opened Format
  import opened Coding

  datatype Pair = Pair(key: seq<byte>, value: seq<byte>)

  /** A comparator: less(a, b) stands for Compare(a, b) < 0. */
  type Less = (seq<byte>, seq<byte>) -> bool

  ghost predicate Transitive(less: Less) {
    forall a, b, c :: less(a, b) && less(b, c) ==> less(a, c)
  }

  ghost predicate Ascending(less: Less, xs: seq<Pair>) {
    forall i, j :: 0 <= i < j < |xs| ==> less(xs[i].key, xs[j].key)
  }

  // ----- what a block is -----

  /** One entry: three lengths, narrowed to 32 bits, the unshared part of the key, the value. */
  function EntryBytes(shared: nat, x: Pair): seq<byte>
    requires shared <= |x.key|
  {
    Varint(Low32(shared)) + Varint(Low32(|x.key| - shared)) + Varint(Low32(|x.value|)) + x.key[shared..] + x.value
  }

  /** Where the entries begin (and the last one ends), how many key bytes each shares with the one before, and which
      entries are restart points. */
  datatype Layout = Layout(offs: seq<nat>, shared: seq<nat>, heads: seq<nat>)

  ghost predicate EntryAt(bytes: seq<byte>, xs: seq<Pair>, offs: seq<nat>, shared: seq<nat>, i: nat)
    requires i < |xs| == |shared| && |offs| == |xs| + 1
  {
    var s := shared[i];
    && s <= |xs[i].key| <= offs[i + 1]
    && (if i == 0 then s == 0 else s <= |xs[i - 1].key| && xs[i - 1].key[..s] == xs[i].key[..s])
    && offs[i] < offs[i + 1] <= |bytes| && bytes[offs[i]..offs[i + 1]] == EntryBytes(s, xs[i])
  }

  ghost predicate Increasing(offs: seq<nat>) {
    forall i, j :: 0 <= i < j < |offs| ==> offs[i] < offs[j]
  }

  ghost predicate Entries(bytes: seq<byte>, xs: seq<Pair>, offs: seq<nat>, shared: seq<nat>) {
    && |offs| == |xs| + 1 && |shared| == |xs| && offs[0] == 0 && offs[|xs|] == |bytes|
    && Increasing(offs)
    && (forall i :: 0 <= i < |xs| ==> EntryAt(bytes, xs, offs, shared, i))
  }

  /** The restart points among n entries: the first entry, and others in order, none of which shares key bytes. */
  ghost predicate Heads(n: nat, shared: seq<nat>, heads: seq<nat>)
    requires |shared| == n
  {
    && |heads| >= 1 && heads[0] == 0
    && (forall k :: 0 <= k < |heads| ==> heads[k] <= n && (n > 0 ==> heads[k] < n && shared[heads[k]] == 0))
    && (forall j, k :: 0 <= j < k < |heads| ==> heads[j] < heads[k])
  }

  /** No key could share more with the one before it, except at a restart point. */
  ghost predicate Compressed(xs: seq<Pair>, shared: seq<nat>, heads: seq<nat>) {
    |shared| == |xs| && forall i :: 0 < i < |xs| && i !in heads ==> SharesMost(xs[i - 1].key, xs[i].key, shared[i])
  }

  ghost predicate SharesMost(a: seq<byte>, b: seq<byte>, n: nat) {
    n < |a| && n < |b| ==> a[n] != b[n]
  }

  // ----- building -----

  method CommonPrefix(a: seq<byte>, b: seq<byte>) returns (n: nat)
    ensures n <= |a| && n <= |b| && a[..n] == b[..n]
    ensures SharesMost(a, b, n)
  {
    n := 0;
    var min := if |a| < |b| then |a| else |b|;
    while n < min && a[n] == b[n]
      invariant n <= min && a[..n] == b[..n]
    {
      assert a[..n + 1] == a[..n] + [a[n]] && b[..n + 1] == b[..n] + [b[n]];
      n := n + 1;
    }
  }

  lemma EntriesGrow(bytes: seq<byte>, xs: seq<Pair>, offs: seq<nat>, shared: seq<nat>, s: nat, x: Pair)
    requires Entries(bytes, xs, offs, shared) && s <= |x.key|
    requires if xs == [] then s == 0 else var y := xs[|xs| - 1]; s <= |y.key| && y.key[..s] == x.key[..s]
    ensures var bytes' := bytes + EntryBytes(s, x);
            Entries(bytes', xs + [x], offs + [|bytes'|], shared + [s])
  {
    var e := EntryBytes(s, x);
    var bytes', xs' := bytes + e, xs + [x];
    var offs', shared' := offs + [|bytes'|], shared + [s];
    assert |e| >= 1 + |x.key| - s;
    hide EntryBytes;
    forall i | 0 <= i < |xs'| ensures EntryAt(bytes', xs', offs', shared', i) {
      if i < |xs| {
        assert EntryAt(bytes, xs, offs, shared, i);
        assert bytes'[offs[i]..offs[i + 1]] == bytes[offs[i]..offs[i + 1]];
      } else {
        if i > 0 {
          assert EntryAt(bytes, xs, offs, shared, i - 1);
        }
        assert bytes'[|bytes|..|bytes'|] == e;
      }
    }
  }

  /** A restart point every `interval` entries, counting from the first; their offsets are recorded in 32 bits. */
  ghost predicate Restarts(n: nat, l: Layout, restarts: seq<nat>, counter: nat, interval: nat) {
    && |l.offs| == n + 1 && |l.shared| == n && Heads(n, l.shared, l.heads)
    && counter <= interval && n == l.heads[|l.heads| - 1] + counter && (counter == 0 ==> n == 0)
    && (forall k :: 0 < k < |l.heads| ==> l.heads[k] == l.heads[k - 1] + interval)
    && |restarts| == |l.heads| && forall k :: 0 <= k < |restarts| ==> restarts[k] == Low32(l.offs[l.heads[k]])
  }

  lemma RestartsContinue(n: nat, l: Layout, restarts: seq<nat>, counter: nat, interval: nat, s: nat, off: nat)
    requires Restarts(n, l, restarts, counter, interval) && counter < interval && (n == 0 ==> s == 0)
    ensures Restarts(n + 1, Layout(l.offs + [off], l.shared + [s], l.heads), restarts, counter + 1, interval)
  {
  }

  lemma HeadsGrow(n: nat, shared: seq<nat>, heads: seq<nat>)
    requires |shared| == n > 0 && Heads(n, shared, heads)
    ensures Heads(n + 1, shared + [0], heads + [n])
  {
  }

  lemma RestartsRestart(n: nat, l: Layout, restarts: seq<nat>, interval: nat, off: nat)
    requires Restarts(n, l, restarts, interval, interval) && interval >= 1
    ensures Restarts(n + 1, Layout(l.offs + [off], l.shared + [0], l.heads + [n]), restarts + [Low32(l.offs[n])], 1,
            interval)
  {
    hide Low32;
    HeadsGrow(n, l.shared, l.heads);
    var heads', offs', restarts' := l.heads + [n], l.offs + [off], restarts + [Low32(l.offs[n])];
    forall k | 0 <= k < |restarts'| ensures restarts'[k] == Low32(offs'[heads'[k]]) {
      if k < |restarts| {
        assert heads'[k] == l.heads[k] && offs'[l.heads[k]] == l.offs[l.heads[k]];
      }
    }
  }

  lemma RestartsGrow(n: nat, l: Layout, restarts: seq<nat>, counter: nat, interval: nat, s: nat, off: nat)
    requires Restarts(n, l, restarts, counter, interval) && interval >= 1 && (n == 0 || counter >= interval ==> s == 0)
    ensures |l.offs| == n + 1
    ensures var more := counter < interval;
            Restarts(n + 1, Layout(l.offs + [off], l.shared + [s], if more then l.heads else l.heads + [n]),
                     if more then restarts else restarts + [Low32(l.offs[n])], if more then counter + 1 else 1,
                         interval)
  {
    if counter < interval {
      RestartsContinue(n, l, restarts, counter, interval, s, off);
    } else {
      RestartsRestart(n, l, restarts, interval, off);
    }
  }

  lemma CompressedGrows(xs: seq<Pair>, l: Layout, x: Pair, s: nat, restart: bool)
    requires Compressed(xs, l.shared, l.heads) && (xs != [] && !restart ==> SharesMost(xs[|xs| - 1].key, x.key, s))
    ensures Compressed(xs + [x], l.shared + [s], if restart then l.heads + [|xs|] else l.heads)
  {
    hide SharesMost;
    var xs', heads' := xs + [x], if restart then l.heads + [|xs|] else l.heads;
    forall i | 0 < i < |xs'| && i !in heads' ensures SharesMost(xs'[i - 1].key, xs'[i].key, (l.shared + [s])[i]) {
      assert restart ==> heads'[|l.heads|] == |xs|;
      assert i !in l.heads;
    }
  }

  class BlockBuilder {
    const less: Less
    const interval: nat
    var buffer: seq<byte>
    var restarts: seq<nat>
    var counter: nat
    var finished: bool
    var lastKey: seq<byte>
    ghost var xs: seq<Pair>
    ghost var layout: Layout

    ghost predicate Valid()
      reads this
    {
      && interval >= 1 && Transitive(less) && !finished
      && Ascending(less, xs) && Entries(buffer, xs, layout.offs, layout.shared)
      && Restarts(|xs|, layout, restarts, counter, interval) && Compressed(xs, layout.shared, layout.heads)
      && lastKey == if xs == [] then [] else xs[|xs| - 1].key
    }

    constructor (less: Less, interval: nat)
      requires interval >= 1 && Transitive(less)
      ensures Valid() && xs == [] && this.less == less && this.interval == interval
    {
      this.less, this.interval := less, interval;
      buffer, restarts, counter, finished, lastKey := [], [0], 0, false, [];
      xs, layout := [], Layout([0], [], [0]);
    }

    method Reset()
      requires interval >= 1 && Transitive(less)
      modifies this
      ensures Valid() && xs == []
    {
      buffer, restarts, counter, finished, lastKey := [], [0], 0, false, [];
      xs, layout := [], Layout([0], [], [0]);
    }

    function CurrentSizeEstimate(): nat
      reads this
    {
      |buffer| + 4 * |restarts| + 4
    }

    /** The order that Add asks for. */
    lemma NextKey(key: seq<byte>)
      requires Valid() && (xs != [] ==> less(xs[|xs| - 1].key, key))
      ensures buffer != [] ==> less(lastKey, key)
    {
      EntriesEnd(buffer, xs, layout.offs, layout.shared);
    }

    method Add(key: seq<byte>, value: seq<byte>)
      requires Valid() && (buffer != [] ==> less(lastKey, key))
      modifies this
      ensures Valid() && xs == old(xs) + [Pair(key, value)]
    {
      ghost var x := Pair(key, value);
      hide EntryBytes, Varint, Low32, Transitive, Entries, Restarts, Ascending, Compressed, SharesMost;
      EntriesEnd(buffer, xs, layout.offs, layout.shared);
      AscendingGrows(less, xs, x);
      var shared := 0;
      if counter < interval {
        shared := CommonPrefix(lastKey, key);
      }
      var nonShared := |key| - shared;
      var header := Varint(Low32(shared)) + Varint(Low32(nonShared)) + Varint(Low32(|value|));
      EntryBytesIs(shared, x);
      ghost var end := |buffer + EntryBytes(shared, x)|;
      EntriesGrow(buffer, xs, layout.offs, layout.shared, shared, x);
      RestartsGrow(|xs|, layout, restarts, counter, interval, shared, end);
      CompressedGrows(xs, layout, x, shared, counter >= interval);
      layout := Layout(layout.offs + [end], layout.shared + [shared], if counter < interval then layout.heads
          else layout.heads + [|xs|]);
      if counter >= interval {
        restarts := restarts + [Low32(|buffer|)];
        counter := 0;
      }
      buffer := buffer + (header + key[shared..] + value);
      lastKey := lastKey[..shared] + key[shared..];
      counter := counter + 1;
      xs := xs + [x];
      assert lastKey == key by { assert key == key[..shared] + key[shared..]; }
    }

    method Finish() returns (data: seq<byte>)
      requires Valid()
      modifies this
      ensures finished && data == FinishedBytes(old(buffer), restarts)
      ensures restarts == old(restarts) && xs == old(xs) && layout == old(layout) && buffer == data
      ensures |data| == old(CurrentSizeEstimate())
    {
      assert restarts != [];
      hide Entries, Restarts, Ascending, Transitive, Fixed;
      ghost var was := buffer;
      for i := 0 to |restarts|
        invariant restarts == old(restarts) && xs == old(xs) && layout == old(layout)
        invariant buffer == was + FixedList(restarts[..i])
      {
        assert restarts[..i + 1][..i] == restarts[..i];
        buffer := buffer + Fixed(restarts[i], 4);
      }
      assert restarts[..|restarts|] == restarts;
      buffer := buffer + Fixed(|restarts|, 4);
      finished := true;
      data := buffer;
      FinishedEnds(was, restarts);
    }
  }

  lemma EntriesEnd(bytes: seq<byte>, xs: seq<Pair>, offs: seq<nat>, shared: seq<nat>)
    requires Entries(bytes, xs, offs, shared)
    ensures |offs| == |xs| + 1 && |shared| == |xs| && offs[|xs|] == |bytes| && (xs == [] <==> bytes == [])
  {
  }

  lemma EntryBytesIs(shared: nat, x: Pair)
    requires shared <= |x.key|
    ensures EntryBytes(shared, x) == Varint(Low32(shared)) + Varint(Low32(|x.key| - shared)) + Varint(Low32(|x.value|))
            + x.key[shared..] + x.value
  {
  }

  lemma AscendingGrows(less: Less, xs: seq<Pair>, x: Pair)
    requires Transitive(less) && Ascending(less, xs)
    ensures (xs != [] ==> less(xs[|xs| - 1].key, x.key)) ==> Ascending(less, xs + [x])
  {
    forall i | 0 <= i < |xs| && less(xs[|xs| - 1].key, x.key) ensures less(xs[i].key, x.key) {
      if i < |xs| - 1 {
        assert less(xs[i].key, xs[|xs| - 1].key);
      }
    }
  }

  // ----- reading -----

  /** A decoded entry header: the three lengths and where the key delta starts. */
  datatype Header = Header(shared: nat, nonShared: nat, valueLength: nat, at: nat)

  /** Three varints, then room for the key delta and the value. */
  function ReadHeader(s: seq<byte>, p: nat): Option<Header>
    requires p <= |s|
  {
    var a := ReadVarint(s[p..], 5);
    if a.None? then None
    else
      var b := ReadVarint(s[p + a.value.1..], 5);
      if b.None? then None
      else
        var c := ReadVarint(s[p + a.value.1 + b.value.1..], 5);
        if c.None? then None
        else
          var h := Header(Low32(a.value.0), Low32(b.value.0), Low32(c.value.0), p + a.value.1 + b.value.1 + c.value.1);
          if Low32(|s| - h.at) < Low32(h.nonShared + h.valueLength) then None else Some(h)
  }

  /** The one-byte-each fast path gives what the general path gives. */
  method DecodeEntry(s: seq<byte>, p: nat) returns (r: Option<Header>)
    requires p <= |s|
    ensures r == ReadHeader(s, p)
  {
    hide Low32, ReadVarint;
    if |s| - p < 3 {
      TooShort(s, p);
      return None;
    }
    var h: Header;
    if s[p] < 128 && s[p + 1] < 128 && s[p + 2] < 128 {
      h := Header(s[p], s[p + 1], s[p + 2], p + 3);
      OneByteEach(s, p);
    } else {
      var a := GetVarint32Ptr(s, p);
      if a.None? {
        return None;
      }
      var b := GetVarint32Ptr(s, a.value.1);
      if b.None? {
        return None;
      }
      var c := GetVarint32Ptr(s, b.value.1);
      if c.None? {
        return None;
      }
      h := Header(a.value.0, b.value.0, c.value.0, c.value.1);
    }
    if Low32(|s| - h.at) < Low32(h.nonShared + h.valueLength) {
      return None;
    }
    return Some(h);
  }

  lemma TooShort(s: seq<byte>, p: nat)
    requires p <= |s| < p + 3
    ensures ReadHeader(s, p).None?
  {
  }

  lemma OneByte(s: seq<byte>, p: nat)
    requires p < |s| && s[p] < 128
    ensures ReadVarint(s[p..], 5) == Some((s[p] as nat, 1)) && Low32(s[p]) == s[p]
  {
  }

  lemma OneByteEach(s: seq<byte>, p: nat)
    requires p + 3 <= |s| && s[p] < 128 && s[p + 1] < 128 && s[p + 2] < 128
    ensures var h := Header(s[p], s[p + 1], s[p + 2], p + 3);
            ReadHeader(s, p) == if Low32(|s| - h.at) < Low32(h.nonShared + h.valueLength) then None else Some(h)
  {
    hide Low32, ReadVarint;
    OneByte(s, p);
    OneByte(s, p + 1);
    OneByte(s, p + 2);
  }

  /** A finished block of fewer than 2^32 bytes whose entries end at `limit`. */
  ghost predicate IsBlock(data: seq<byte>, limit: nat, xs: seq<Pair>, l: Layout) {
    && limit + 4 * |l.heads| + 4 == |data| < U32
    && Entries(data[..limit], xs, l.offs, l.shared) && Heads(|xs|, l.shared, l.heads)
    && (forall k :: 0 <= k < |l.heads| ==> RestartPoint(data, limit, k) == l.offs[l.heads[k]])
    && DecodeFixed(data[|data| - 4..]) == |l.heads|
  }

  function RestartPoint(data: seq<byte>, limit: nat, k: nat): nat
    requires limit + 4 * k + 4 <= |data|
  {
    DecodeFixed(data[limit + 4 * k..limit + 4 * k + 4])
  }

  function FinishedBytes(bytes: seq<byte>, restarts: seq<nat>): seq<byte> {
    bytes + FixedList(restarts) + Fixed(|restarts|, 4)
  }

  lemma FinishedEnds(bytes: seq<byte>, restarts: seq<nat>)
    requires restarts != []
    ensures var data := FinishedBytes(bytes, restarts);
            |data| == |bytes| + 4 * |restarts| + 4 && data[..|bytes|] == bytes
                && data[|data| - 4..] == Fixed(|restarts|, 4)
  {
    hide FixedList, Fixed;
    FixedListAt(restarts, 0);
  }

  lemma FinishedAt(bytes: seq<byte>, restarts: seq<nat>, k: nat)
    requires k < |restarts|
    ensures var data, p := FinishedBytes(bytes, restarts), |bytes| + 4 * k;
            p + 4 <= |data| && data[p..p + 4] == Fixed(restarts[k], 4)
  {
    hide FixedList, Fixed;
    FixedListAt(restarts, k);
    var rs := FixedList(restarts);
    assert (bytes + rs)[|bytes| + 4 * k..|bytes| + 4 * k + 4] == rs[4 * k..4 * k + 4];
  }

  lemma FinishedRestart(bytes: seq<byte>, restarts: seq<nat>, xs: seq<Pair>, l: Layout, counter: nat, interval: nat,
                        k: nat)
    requires Entries(bytes, xs, l.offs, l.shared) && Restarts(|xs|, l, restarts, counter, interval)
    requires |bytes| < U32 && k < |restarts|
    ensures |bytes| + 4 * k + 4 <= |FinishedBytes(bytes, restarts)|
    ensures RestartPoint(FinishedBytes(bytes, restarts), |bytes|, k) == l.offs[l.heads[k]]
  {
    hide FinishedBytes, DecodeFixed;
    FinishedAt(bytes, restarts, k);
    OffsetBounds(bytes, xs, l.offs, l.shared, l.heads[k]);
    assert restarts[k] == l.offs[l.heads[k]];
    Fixed32RoundTrip(restarts[k]);
  }

  /** Finishing a builder makes a block of what was added. */
  lemma FinishedIsBlock(bytes: seq<byte>, restarts: seq<nat>, xs: seq<Pair>, l: Layout, counter: nat, interval: nat)
    requires Entries(bytes, xs, l.offs, l.shared) && Restarts(|xs|, l, restarts, counter, interval)
    requires |bytes| + 4 * |restarts| + 4 < U32
    ensures IsBlock(FinishedBytes(bytes, restarts), |bytes|, xs, l)
  {
    hide FinishedBytes, Entries, DecodeFixed, RestartPoint, Fixed;
    FinishedEnds(bytes, restarts);
    Fixed32RoundTrip(|restarts|);
    forall k | 0 <= k < |restarts|
      ensures |bytes| + 4 * k + 4 <= |FinishedBytes(bytes, restarts)|
      ensures RestartPoint(FinishedBytes(bytes, restarts), |bytes|, k) == l.offs[l.heads[k]]
    {
      FinishedRestart(bytes, restarts, xs, l, counter, interval, k);
    }
  }

  lemma OffsetBounds(bytes: seq<byte>, xs: seq<Pair>, offs: seq<nat>, shared: seq<nat>, i: nat)
    requires Entries(bytes, xs, offs, shared) && i <= |xs|
    ensures offs[i] <= |bytes|
  {
  }

  lemma ReadVarintAt(s: seq<byte>, p: nat, v: nat, rest: seq<byte>)
    requires p <= |s| && v < U32 && s[p..] == Varint(Low32(v)) + rest
    ensures ReadVarint(s[p..], 5) == Some((v, |Varint(v)|)) && Low32(v) == v
    ensures p + |Varint(v)| <= |s| && s[p + |Varint(v)|..] == rest
  {
    hide *;
    SmallLow32(v, 0);
    Varint32Fits(v);
    VarintRoundTrip(v, rest, 5);
    assert s[p..][|Varint(v)|..] == s[p + |Varint(v)|..];
  }

  lemma ReadHeaderIs(s: seq<byte>, p: nat, a: (nat, nat), b: (nat, nat), c: (nat, nat))
    requires p + a.1 + b.1 + c.1 <= |s| < U32 && a.0 < U32 && b.0 < U32 && c.0 < U32
    requires ReadVarint(s[p..], 5) == Some(a) && ReadVarint(s[p + a.1..], 5) == Some(b)
             && ReadVarint(s[p + a.1 + b.1..], 5) == Some(c)
    requires p + a.1 + b.1 + c.1 + b.0 + c.0 <= |s|
    ensures ReadHeader(s, p) == Some(Header(a.0, b.0, c.0, p + a.1 + b.1 + c.1))
  {
    hide ReadVarint, Low32;
    SmallLow32(a.0, b.0);
    SmallLow32(c.0, b.0 + c.0);
    SmallLow32(|s| - (p + a.1 + b.1 + c.1), 0);
  }

  lemma HeaderDecodes(s: seq<byte>, p: nat, end: nat, shared: nat, x: Pair)
    requires p <= end <= |s| < U32 && shared <= |x.key| < U32 && s[p..end] == EntryBytes(shared, x)
    ensures ReadHeader(s, p).Some?
    ensures var h := ReadHeader(s, p).value;
            && h.shared == shared && h.nonShared == |x.key| - shared && h.valueLength == |x.value|
            && h.at + h.nonShared + h.valueLength == end
            && s[h.at..h.at + h.nonShared] == x.key[shared..] && s[h.at + h.nonShared..end] == x.value
  {
    hide *;
    var n, m := |x.key| - shared, |x.value|;
    var tail := x.key[shared..] + x.value + s[end..];
    var rest2 := Varint(Low32(m)) + tail;
    var rest1 := Varint(Low32(n)) + rest2;
    EntryBytesIs(shared, x);
    ValueFits(s, p, end, shared, x);
    assert s[p..] == Varint(Low32(shared)) + rest1 by {
      assert s[p..] == s[p..end] + s[end..];
    }
    ReadVarintAt(s, p, shared, rest1);
    var q := p + |Varint(shared)|;
    ReadVarintAt(s, q, n, rest2);
    var r := q + |Varint(n)|;
    ReadVarintAt(s, r, m, tail);
    var at := r + |Varint(m)|;
    assert |tail| == n + m + |s| - end && s[at..] == tail;
    ReadHeaderIs(s, p, (shared, |Varint(shared)|), (n, |Varint(n)|), (m, |Varint(m)|));
    assert s[at..at + n] == s[at..][..n] && s[at + n..end] == s[at..][n..n + m];
  }

  lemma ValueFits(s: seq<byte>, p: nat, end: nat, shared: nat, x: Pair)
    requires p <= end <= |s| < U32 && shared <= |x.key| && s[p..end] == EntryBytes(shared, x)
    ensures |x.value| < U32
  {
    assert |EntryBytes(shared, x)| >= |x.value|;
  }

  lemma SmallLow32(a: nat, b: nat)
    requires a < U32 && b < U32
    ensures Low32(a) == a && Low32(b) == b
  {
  }

  /** What the iterator finds at entry i of a block. */
  lemma EntryDecodes(data: seq<byte>, limit: nat, xs: seq<Pair>, l: Layout, i: nat)
    requires IsBlock(data, limit, xs, l) && i < |xs|
    ensures l.offs[i] < limit && ReadHeader(data[..limit], l.offs[i]).Some?
    ensures var h := ReadHeader(data[..limit], l.offs[i]).value;
            && h.shared == l.shared[i] <= |xs[i].key| && h.nonShared == |xs[i].key| - h.shared
               && h.valueLength == |xs[i].value|
            && h.at + h.nonShared + h.valueLength == l.offs[i + 1] <= limit
            && data[h.at..h.at + h.nonShared] == xs[i].key[h.shared..]
            && data[h.at + h.nonShared..l.offs[i + 1]] == xs[i].value
  {
    hide EntryBytes, ReadHeader, RestartPoint, Heads;
    assert EntryAt(data[..limit], xs, l.offs, l.shared, i);
    HeaderDecodes(data[..limit], l.offs[i], l.offs[i + 1], l.shared[i], xs[i]);
    var h := ReadHeader(data[..limit], l.offs[i]).value;
    assert data[..limit][h.at..h.at + h.nonShared] == data[h.at..h.at + h.nonShared];
    assert data[..limit][h.at + h.nonShared..l.offs[i + 1]] == data[h.at + h.nonShared..l.offs[i + 1]];
  }

  /** The order of offsets and restart points of a block of n entries. */
  ghost predicate Shape(n: nat, limit: nat, l: Layout) {
    && |l.offs| == n + 1 && |l.shared| == n && l.offs[0] == 0 && l.offs[n] == limit
    && Increasing(l.offs)
    && Heads(n, l.shared, l.heads)
  }

  lemma BlockShape(data: seq<byte>, limit: nat, xs: seq<Pair>, l: Layout)
    requires IsBlock(data, limit, xs, l)
    ensures Shape(|xs|, limit, l) && limit + 4 * |l.heads| + 4 == |data|
  {
  }

  lemma OnlyTheEndIsTheLimit(n: nat, limit: nat, l: Layout, k: nat)
    requires Shape(n, limit, l) && k <= n
    ensures l.offs[k] <= limit && (l.offs[k] == limit <==> k == n)
  {
  }

  lemma RestartPointIs(data: seq<byte>, limit: nat, xs: seq<Pair>, l: Layout, k: nat)
    requires IsBlock(data, limit, xs, l) && k < |l.heads|
    ensures limit + 4 * k + 4 <= |data| && l.heads[k] <= |xs| < |l.offs|
            && RestartPoint(data, limit, k) == l.offs[l.heads[k]]
  {
  }

  lemma Rejoin(key: seq<byte>, n: nat)
    requires n <= |key|
    ensures key[..n] + key[n..] == key
  {
  }

  /** The bytes an entry shares are those of the key before it. */
  lemma SharedPrefix(data: seq<byte>, limit: nat, xs: seq<Pair>, l: Layout, i: nat)
    requires IsBlock(data, limit, xs, l) && 0 < i < |xs|
    ensures var s := l.shared[i];
            s <= |xs[i].key| && s <= |xs[i - 1].key| && xs[i - 1].key[..s] == xs[i].key[..s]
  {
    assert EntryAt(data[..limit], xs, l.offs, l.shared, i);
  }

  /** The iterator of a block is a cursor over the entries that were added; `pos` is its position, and |xs| stands for
      "not valid". */
  class BlockIter {
    const less: Less
    const data: seq<byte>
    const restarts: nat
    const numRestarts: nat
    var current: nat
    var restartIndex: nat
    var key: seq<byte>
    var valueAt: nat
    var valueLength: nat
    var corrupt: bool
    ghost const xs: seq<Pair>
    ghost const l: Layout
    ghost var pos: nat

    ghost predicate Sound() {
      IsBlock(data, restarts, xs, l) && numRestarts == |l.heads| && Transitive(less) && Ascending(less, xs)
    }

    /** The restart index names a restart point at or before entry k, and none lies between. */
    ghost predicate Indexed(k: nat)
      requires Shape(|xs|, restarts, l)
      reads this
    {
      && restartIndex < |l.heads| && l.heads[restartIndex] <= k
      && (restartIndex + 1 < |l.heads| ==> k <= l.heads[restartIndex + 1])
    }

    ghost predicate Valid()
      reads this
    {
      && Sound() && Shape(|xs|, restarts, l) && !corrupt && pos <= |xs|
      && if pos == |xs| then current == restarts && restartIndex == numRestarts
         else
           && current == l.offs[pos] && key == xs[pos].key && Indexed(pos)
           && valueAt + valueLength == l.offs[pos + 1] <= |data|
              && data[valueAt..valueAt + valueLength] == xs[pos].value
    }

    /** What ParseNextKey needs to read entry k next. */
    ghost predicate Ready(k: nat)
      reads this
    {
      && Sound() && Shape(|xs|, restarts, l) && !corrupt && k <= |xs| && valueAt + valueLength == l.offs[k]
      && restartIndex < |l.heads| && l.heads[restartIndex] <= k
      && (k < |xs| ==> && l.shared[k] <= |key| && l.shared[k] <= |xs[k].key|
                       && key[..l.shared[k]] == xs[k].key[..l.shared[k]])
    }

    constructor (less: Less, data: seq<byte>, restarts: nat, numRestarts: nat, ghost xs: seq<Pair>, ghost l: Layout)
      requires IsBlock(data, restarts, xs, l) && numRestarts == |l.heads| && Transitive(less) && Ascending(less, xs)
      ensures Valid() && pos == |xs| && this.xs == xs && this.data == data && this.less == less
    {
      BlockShape(data, restarts, xs, l);
      this.less, this.data, this.restarts, this.numRestarts := less, data, restarts, numRestarts;
      this.xs, this.l := xs, l;
      current, restartIndex, key, valueAt, valueLength, corrupt := restarts, numRestarts, [], 0, 0, false;
      pos := |xs|;
    }

    /** CorruptionError, if the entry is bad. */
    method CorruptionErrorIf(bad: bool)
      modifies this
      ensures if bad then corrupt && current == restarts && restartIndex == numRestarts && key == []
              && valueLength == 0 else unchanged(this)
    {
      if bad {
        current, restartIndex, corrupt, key, valueLength := restarts, numRestarts, true, [], 0;
      }
    }

    method SeekToRestartPoint(index: nat)
      requires Sound() && Shape(|xs|, restarts, l) && !corrupt && index < numRestarts
      modifies this
      ensures Ready(l.heads[index]) && restartIndex == index && key == []
    {
      hide IsBlock, RestartPoint, Transitive, Ascending;
      RestartPointIs(data, restarts, xs, l, index);
      key := [];
      restartIndex := index;
      valueAt, valueLength := RestartPoint(data, restarts, index), 0;
    }

    method ParseNextKey(ghost k: nat) returns (ok: bool)
      requires Ready(k)
      modifies this
      ensures Valid() && pos == k && ok == (k < |xs|)
    {
      hide IsBlock, RestartPoint, ReadHeader, Transitive, Ascending, Heads, Increasing;
      BlockShape(data, restarts, xs, l);
      OnlyTheEndIsTheLimit(|xs|, restarts, l, k);
      current := valueAt + valueLength;
      pos := k;
      if current >= restarts {
        current, restartIndex := restarts, numRestarts;
        ok := false;
      } else {
        EntryDecodes(data, restarts, xs, l, k);
        var h := DecodeEntry(data[..restarts], current);
        var bad := h.None? || |key| < h.value.shared;
        if !bad {
          var e := h.value;
          key := key[..e.shared] + data[e.at..e.at + e.nonShared];
          Rejoin(xs[k].key, e.shared);
          valueAt, valueLength := e.at + e.nonShared, e.valueLength;
          AdvanceRestartIndex();
        }
        CorruptionErrorIf(bad);
        ok := !bad;
      }
    }

    method AdvanceRestartIndex()
      requires Sound() && Shape(|xs|, restarts, l) && pos < |xs| && current == l.offs[pos]
      requires restartIndex < |l.heads| && l.heads[restartIndex] <= pos
      modifies `restartIndex
      ensures Indexed(pos)
    {
      hide IsBlock, RestartPoint, Transitive, Ascending;
      while true
        invariant restartIndex < |l.heads| && l.heads[restartIndex] <= pos
        decreases |l.heads| - restartIndex
      {
        if restartIndex + 1 >= numRestarts {
          break;
        }
        RestartPointIs(data, restarts, xs, l, restartIndex + 1);
        if RestartPoint(data, restarts, restartIndex + 1) >= current {
          break;
        }
        restartIndex := restartIndex + 1;
      }
    }

    predicate IsValid()
      reads this
    {
      current < restarts
    }

    /** key() and value(). */
    method KeyValue() returns (p: Pair)
      requires Valid() && pos < |xs|
      ensures p == xs[pos]
    {
      hide Sound, Shape, Indexed;
      p := Pair(key, data[valueAt..valueAt + valueLength]);
    }

    lemma ValidIs()
      requires Valid()
      ensures pos <= |xs| && (IsValid() <==> pos < |xs|)
    {
      OnlyTheEndIsTheLimit(|xs|, restarts, l, pos);
    }

    method Next()
      requires Valid() && pos < |xs|
      modifies this
      ensures Valid() && pos == old(pos) + 1
    {
      hide IsBlock, RestartPoint, Transitive, Ascending, Increasing;
      ReadyAfter();
      var _ := ParseNextKey(pos + 1);
    }

    /** Standing on an entry, the iterator is ready to read the one after it. */
    lemma ReadyAfter()
      requires Valid() && pos < |xs|
      ensures Ready(pos + 1)
    {
      hide IsBlock, RestartPoint, Transitive, Ascending, Increasing;
      if pos + 1 < |xs| {
        SharedPrefix(data, restarts, xs, l, pos + 1);
      }
    }

    method Prev()
      requires Valid() && pos < |xs|
      modifies this
      ensures Valid() && pos == if old(pos) == 0 then |xs| else old(pos) - 1
    {
      hide IsBlock, RestartPoint, Transitive, Ascending, Increasing;
      BlockShape(data, restarts, xs, l);
      var original := current;
      ghost var k := pos;
      RestartPointIs(data, restarts, xs, l, restartIndex);
      while RestartPoint(data, restarts, restartIndex) >= original
        invariant !corrupt && restartIndex < |l.heads|
                  && RestartPoint(data, restarts, restartIndex) == l.offs[l.heads[restartIndex]]
        decreases restartIndex
      {
        if restartIndex == 0 {
          OffsetsOrder(l.offs, 0, k);
          current, restartIndex := restarts, numRestarts;
          pos := |xs|;
          return;
        }
        restartIndex := restartIndex - 1;
        RestartPointIs(data, restarts, xs, l, restartIndex);
      }
      OffsetsOrder(l.offs, l.heads[restartIndex], k);
      SeekToRestartPoint(restartIndex);
      var ok := ParseNextKey(l.heads[restartIndex]);
      OffsetsOrder(l.offs, pos + 1, k);
      while ok && valueAt + valueLength < original
        invariant Valid() && pos < k && ok
        invariant valueAt + valueLength < original <==> pos + 1 < k
        decreases k - pos
      {
        ReadyAfter();
        ok := ParseNextKey(pos + 1);
        OffsetsOrder(l.offs, pos + 1, k);
      }
    }

    method SeekToFirst()
      requires Valid()
      modifies this
      ensures Valid() && pos == 0
    {
      hide IsBlock, RestartPoint, Transitive, Ascending, Increasing;
      SeekToRestartPoint(0);
      var _ := ParseNextKey(0);
    }

    method SeekToLast()
      requires Valid()
      modifies this
      ensures Valid() && pos == if xs == [] then 0 else |xs| - 1
    {
      hide IsBlock, RestartPoint, Transitive, Ascending;
      SeekToRestartPoint(numRestarts - 1);
      var ok := ParseNextKey(l.heads[|l.heads| - 1]);
      while ok && valueAt + valueLength < restarts
        invariant Valid() && (if xs == [] then pos == 0 && !ok else pos < |xs| && ok)
        decreases |xs| - pos
      {
        OffsetsOrder(l.offs, pos + 1, |xs|);
        ReadyAfter();
        ok := ParseNextKey(pos + 1);
      }
      if xs != [] {
        OffsetsOrder(l.offs, pos + 1, |xs|);
      }
    }

    /** The binary search of Seek: the last restart point whose key is before the target, or the first one. */
    method SearchRestarts(target: seq<byte>) returns (left: nat, bad: bool)
      requires Valid()
      ensures !bad && left < numRestarts
      ensures forall i :: 0 <= i < l.heads[left] ==> less(xs[i].key, target)
    {
      hide IsBlock, RestartPoint, ReadHeader, Increasing, Transitive, Ascending;
      BlockShape(data, restarts, xs, l);
      left, bad := 0, false;
      var right := numRestarts - 1;
      while left < right && !bad
        invariant left <= right < numRestarts && !bad
        invariant forall i :: 0 <= i < l.heads[left] ==> less(xs[i].key, target)
        decreases right - left
      {
        var mid := (left + right + 1) / 2;
        RestartPointIs(data, restarts, xs, l, mid);
        OneHeadMoreThanNone(l.heads, mid);
        ghost var k := l.heads[mid];
        var regionOffset := RestartPoint(data, restarts, mid);
        EntryDecodes(data, restarts, xs, l, k);
        var h := DecodeEntry(data[..restarts], regionOffset);
        bad := h.None? || h.value.shared != 0;
        if !bad {
          var midKey := data[h.value.at..h.value.at + h.value.nonShared];
          assert midKey == xs[k].key by { assert xs[k].key[0..] == xs[k].key; }
          if less(midKey, target) {
            AllBefore(less, xs, k, target);
            left := mid;
          } else {
            right := mid - 1;
          }
        }
      }
    }

    method Seek(target: seq<byte>)
      requires Valid()
      modifies this
      ensures Valid()
      ensures forall i :: 0 <= i < pos ==> less(xs[i].key, target)
      ensures forall i :: pos <= i < |xs| ==> !less(xs[i].key, target)
    {
      hide IsBlock, RestartPoint, Increasing, Transitive, Ascending;
      var left, bad := SearchRestarts(target);
      CorruptionErrorIf(bad);
      SeekToRestartPoint(left);
      var ok := ParseNextKey(l.heads[left]);
      while ok && less(key, target)
        invariant Valid() && ok == (pos < |xs|)
        invariant forall i :: 0 <= i < pos ==> less(xs[i].key, target)
        decreases |xs| - pos
      {
        ReadyAfter();
        ok := ParseNextKey(pos + 1);
      }
      NoneBefore(less, xs, pos, target);
    }
  }

  lemma OneHeadMoreThanNone(heads: seq<nat>, k: nat)
    requires 0 < k < |heads| && heads[0] == 0 && forall i, j :: 0 <= i < j < |heads| ==> heads[i] < heads[j]
    ensures heads[k] > 0
  {
  }

  lemma AllBefore(less: Less, xs: seq<Pair>, k: nat, target: seq<byte>)
    requires Transitive(less) && Ascending(less, xs) && k < |xs| && less(xs[k].key, target)
    ensures forall i :: 0 <= i <= k ==> less(xs[i].key, target)
  {
    assert forall i :: 0 <= i < k ==> less(xs[i].key, xs[k].key);
  }

  lemma NoneBefore(less: Less, xs: seq<Pair>, k: nat, target: seq<byte>)
    requires Transitive(less) && Ascending(less, xs) && (k < |xs| ==> !less(xs[k].key, target))
    ensures forall i :: k <= i < |xs| ==> !less(xs[i].key, target)
  {
    forall i | k < i < |xs| ensures !less(xs[i].key, target) {
      assert less(xs[k].key, xs[i].key);
    }
  }

  lemma OffsetsOrder(offs: seq<nat>, i: nat, j: nat)
    requires Increasing(offs) && i < |offs| && j < |offs|
    ensures offs[i] < offs[j] <==> i < j
    ensures offs[i] == offs[j] <==> i == j
  {
  }

  datatype Opened = BadContents | NoRestarts | Opened(restarts: nat, numRestarts: nat)

  /** The constructor of Block and NewIterator: where the restart array starts and how long it is. */
  method Open(data: seq<byte>) returns (r: Opened)
    ensures forall limit, xs, l :: IsBlock(data, limit, xs, l) ==> r == Opened(limit, |l.heads|)
  {
    hide DecodeFixed, Entries, Heads, RestartPoint;
    if |data| < 4 {
      return BadContents;
    }
    var num := DecodeFixed(data[|data| - 4..]);
    if num > (|data| - 4) / 4 {
      return BadContents;
    }
    AtLeastOneRestart(data);
    if num == 0 {
      return NoRestarts;
    }
    return Opened(|data| - (1 + num) * 4, num);
  }

  lemma AtLeastOneRestart(data: seq<byte>)
    ensures forall limit, xs, l :: IsBlock(data, limit, xs, l) ==> |l.heads| >= 1
  {
    forall limit, xs, l | IsBlock(data, limit, xs, l) ensures |l.heads| >= 1 {
      BlockShape(data, limit, xs, l);
    }
  }

  /** Build a block from ascending pairs and open it; only a block of 2^32 bytes or more is turned away. */
  method BuildAndOpen(less: Less, interval: nat, pairs: seq<Pair>) returns (it: BlockIter?, data: seq<byte>)
    requires Transitive(less) && Ascending(less, pairs) && interval >= 1
    ensures it != null <==> |data| < U32
    ensures it != null ==> fresh(it) && it.Valid() && it.xs == pairs && it.data == data
  {
    hide IsBlock, Entries, Restarts, Transitive, Ascending;
    var b := new BlockBuilder(less, interval);
    for i := 0 to |pairs|
      invariant fresh(b) && b.Valid() && b.less == less && b.interval == interval && b.xs == pairs[..i]
    {
      EntriesEnd(b.buffer, b.xs, b.layout.offs, b.layout.shared);
      NextIsAfter(less, pairs, i);
      b.Add(pairs[i].key, pairs[i].value);
      assert pairs[..i] + [pairs[i]] == pairs[..i + 1];
    }
    assert pairs[..|pairs|] == pairs;
    ghost var bytes := b.buffer;
    RestartsCount(|b.xs|, b.layout, b.restarts, b.counter, interval);
    FinishedEnds(bytes, b.restarts);
    if |bytes| + 4 * |b.restarts| + 4 < U32 {
      FinishedIsBlock(bytes, b.restarts, b.xs, b.layout, b.counter, interval);
    }
    data := b.Finish();
    it := null;
    if |data| < U32 {
      var o := Open(data);
      assert IsBlock(data, |bytes|, b.xs, b.layout);
      it := new BlockIter(less, data, o.restarts, o.numRestarts, b.xs, b.layout);
    }
  }

  lemma RestartsCount(n: nat, l: Layout, restarts: seq<nat>, counter: nat, interval: nat)
    requires Restarts(n, l, restarts, counter, interval)
    ensures |restarts| == |l.heads| >= 1
  {
  }

  lemma NextIsAfter(less: Less, pairs: seq<Pair>, i: nat)
    requires Ascending(less, pairs) && i < |pairs|
    ensures i > 0 ==> less(pairs[i - 1].key, pairs[i].key)
  {
  }
}
