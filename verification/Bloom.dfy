/** The Bloom filter of util/bloom.cc: a filter never turns away a key it was made from. */
module Bloom {
  import opened Format
  import opened Coding

  type Hashed = h: int | 0 <= h < 0x1_0000_0000

  /** BloomHash is an arbitrary function; the constructor clamps the number of probes to 1..30. */
  datatype Policy = Policy(hash: seq<byte> -> Hashed, bitsPerKey: nat, probes: nat) {
    ghost predicate Valid() { 1 <= probes <= 30 }
  }

  /** Rotate right by 17 bits: the high 15 bits change places with the low 17. */
  function Delta(h: Hashed): (r: Hashed)
    ensures exists high: nat, low: nat :: Rotates(h, r, high, low)
  {
    assert Rotates(h, h / 0x2_0000 + h % 0x2_0000 * 0x8000, h / 0x2_0000, h % 0x2_0000);
    h / 0x2_0000 + h % 0x2_0000 * 0x8000
  }

  predicate Rotates(h: Hashed, r: Hashed, high: nat, low: nat) {
    high < 0x8000 && low < 0x2_0000 && h == high * 0x2_0000 + low && r == low * 0x8000 + high
  }

  /** The j-th probe of double hashing. */
  function Probe(h: Hashed, delta: Hashed, j: nat): Hashed {
    if j == 0 then h else Add32(Probe(h, delta, j - 1), delta)
  }

  function Add32(a: Hashed, b: Hashed): Hashed { (a as int + b as int) % 0x1_0000_0000 }

  /** Probes go in equal steps around 2^32. */
  lemma {:induction false} ProbeIs(h: Hashed, delta: Hashed, j: nat)
    ensures Probe(h, delta, j) == (h + j * delta) % 0x1_0000_0000
  {
    if j > 0 {
      ProbeIs(h, delta, j - 1);
      assert j * delta == (j - 1) * delta + delta;
      NextProbe(h, delta, j, h + (j - 1) * delta);
    }
  }

  lemma NextProbe(h: Hashed, delta: Hashed, j: nat, x: nat)
    requires j > 0 && Probe(h, delta, j - 1) == x % 0x1_0000_0000
    ensures Probe(h, delta, j) == (x + delta) % 0x1_0000_0000
  {
  }

  /** The bits of a filter that a key tests. */
  lemma BitPosIs(h: Hashed, j: nat, bits: nat)
    requires bits >= 1
    ensures BitPos(Probe(h, Delta(h), j), bits) == (h + j * Delta(h)) % 0x1_0000_0000 % bits
  {
    hide Delta;
    ProbeIs(h, Delta(h), j);
  }

  function BitPos(h: Hashed, bits: nat): (r: nat)
    requires bits >= 1
    ensures r < bits
  {
    h % bits
  }

  // ----- bits in bytes -----

  predicate Bit(b: nat, i: nat) {
    if i == 0 then b % 2 == 1 else Bit(b / 2, i - 1)
  }

  /** b | (1 << i) */
  function SetBit(b: nat, i: nat): nat {
    if i == 0 then b / 2 * 2 + 1 else SetBit(b / 2, i - 1) * 2 + b % 2
  }

  lemma PowStep(width: nat)
    requires width > 0
    ensures Pow(2, width) == 2 * Pow(2, width - 1)
  {
  }

  lemma {:induction false} SetBitBound(b: nat, i: nat, width: nat)
    requires i < width && b < Pow(2, width)
    ensures SetBit(b, i) < Pow(2, width)
  {
    hide Pow;
    PowStep(width);
    if i > 0 {
      SetBitBound(b / 2, i - 1, width - 1);
    }
  }

  lemma {:induction false} SetBitIs(b: nat, i: nat, j: nat)
    ensures Bit(SetBit(b, i), j) <==> i == j || Bit(b, j)
  {
    if i == 0 {
      assert j > 0 ==> SetBit(b, i) / 2 == b / 2;
    } else if j > 0 {
      SetBitIs(b / 2, i - 1, j - 1);
      assert SetBit(b, i) / 2 == SetBit(b / 2, i - 1);
    }
  }

  function SetByteBit(b: byte, i: nat): byte
    requires i < 8
  {
    assert Pow(2, 8) == 256 by { PowOfTwo(); }
    SetBitBound(b, i, 8);
    SetBit(b, i)
  }

  lemma PowOfTwo()
    ensures Pow(2, 8) == 256 && Pow(2, 11) == 2048
  {
    assert Pow(2, 4) == 2 * (2 * (2 * (2 * Pow(2, 0))));
    assert Pow(2, 8) == 2 * (2 * (2 * (2 * Pow(2, 4))));
    assert Pow(2, 11) == 2 * (2 * (2 * Pow(2, 8)));
  }

  // ----- filters -----

  predicate BitAt(cells: seq<byte>, pos: nat)
    requires pos < 8 * |cells|
  {
    Bit(cells[pos / 8], pos % 8)
  }

  function SetBitAt(cells: seq<byte>, pos: nat): (r: seq<byte>)
    requires pos < 8 * |cells|
    ensures |r| == |cells|
  {
    cells[pos / 8 := SetByteBit(cells[pos / 8], pos % 8)]
  }

  lemma SetBitAtIs(cells: seq<byte>, pos: nat, q: nat)
    requires pos < 8 * |cells| && q < 8 * |cells|
    ensures BitAt(SetBitAt(cells, pos), q) <==> pos == q || BitAt(cells, q)
  {
    if pos / 8 == q / 8 {
      SetBitIs(cells[pos / 8], pos % 8, q % 8);
    }
  }

  /** The first `count` probes of hash h all find their bit set. */
  ghost predicate Probed(cells: seq<byte>, h: Hashed, count: nat)
    requires cells != []
  {
    forall j: nat :: j < count ==> BitAt(cells, BitPos(Probe(h, Delta(h), j), 8 * |cells|))
  }

  /** What KeyMayMatch answers: the last byte of a filter is its number of probes. */
  ghost predicate MayMatch(policy: Policy, key: seq<byte>, filter: seq<byte>) {
    && |filter| >= 2
    && (filter[|filter| - 1] <= 30 ==> Probed(filter[..|filter| - 1], policy.hash(key), filter[|filter| - 1]))
  }

  method KeyMayMatch(policy: Policy, key: seq<byte>, filter: seq<byte>) returns (r: bool)
    ensures r == MayMatch(policy, key, filter)
  {
    hide BitAt, BitPos, Delta, Add32;
    var len := |filter|;
    if len < 2 {
      return false;
    }
    var cells, k := filter[..len - 1], filter[len - 1];
    if k > 30 {
      return true;
    }
    var h := policy.hash(key);
    var delta := Delta(h);
    ghost var h0 := h;
    for j := 0 to k as int
      invariant h == Probe(h0, delta, j) && Probed(cells, h0, j)
    {
      if !BitAt(cells, BitPos(h, 8 * |cells|)) {
        return false;
      }
      h := Add32(h, delta);
    }
    return true;
  }

  /** Bit q is one of the first `count` probes of hash h. */
  ghost predicate IsProbe(h: Hashed, count: nat, bits: nat, q: nat)
    requires bits >= 1
  {
    exists j: nat :: j < count && q == BitPos(Probe(h, Delta(h), j), bits)
  }

  /** Adding hash h to `base` sets exactly the bits it probes. */
  ghost predicate Added(cells: seq<byte>, base: seq<byte>, h: Hashed, count: nat) {
    && |cells| == |base| && cells != []
    && forall q: nat :: q < 8 * |cells| ==> (BitAt(cells, q) <==> BitAt(base, q) || IsProbe(h, count, 8 * |cells|, q))
  }

  lemma AddedGrows(cells: seq<byte>, base: seq<byte>, h: Hashed, j: nat)
    requires Added(cells, base, h, j)
    ensures Added(SetBitAt(cells, BitPos(Probe(h, Delta(h), j), 8 * |cells|)), base, h, j + 1)
  {
    hide BitAt, SetBitAt, Probe, BitPos, Delta;
    var pos := BitPos(Probe(h, Delta(h), j), 8 * |cells|);
    forall q: nat | q < 8 * |cells|
      ensures BitAt(SetBitAt(cells, pos), q) <==> BitAt(base, q) || IsProbe(h, j + 1, 8 * |cells|, q) {
      SetBitAtIs(cells, pos, q);
      assert IsProbe(h, j, 8 * |cells|, q) ==> IsProbe(h, j + 1, 8 * |cells|, q);
    }
  }

  /** Set the bits of one key. */
  method AddHash(cells: seq<byte>, h0: Hashed, probes: nat) returns (r: seq<byte>)
    requires cells != []
    ensures Added(r, cells, h0, probes)
  {
    hide BitAt, SetBitAt, BitPos, Delta, Add32;
    r := cells;
    var h, delta := h0, Delta(h0);
    for j := 0 to probes
      invariant Added(r, cells, h0, j) && h == Probe(h0, delta, j)
    {
      AddedGrows(r, cells, h0, j);
      r := SetBitAt(r, BitPos(h, 8 * |r|));
      h := Add32(h, delta);
    }
  }

  /** The bits of a filter are those that some key probes, and no others. */
  ghost predicate BitsOf(cells: seq<byte>, policy: Policy, keys: seq<seq<byte>>) {
    && cells != []
    && forall q: nat :: q < 8 * |cells| ==>
         (BitAt(cells, q) <==>
          exists k :: 0 <= k < |keys| && IsProbe(policy.hash(keys[k]), policy.probes, 8 * |cells|, q))
  }

  lemma {:induction false} NoBit(i: nat)
    ensures !Bit(0, i)
  {
    if i > 0 {
      NoBit(i - 1);
    }
  }

  lemma NoBits(cells: seq<byte>, policy: Policy)
    requires cells != [] && forall i :: 0 <= i < |cells| ==> cells[i] == 0
    ensures BitsOf(cells, policy, [])
  {
    forall q: nat | q < 8 * |cells| ensures !BitAt(cells, q) {
      NoBit(q % 8);
    }
  }

  lemma BitsGrow(next: seq<byte>, cells: seq<byte>, policy: Policy, keys: seq<seq<byte>>, key: seq<byte>)
    requires BitsOf(cells, policy, keys) && Added(next, cells, policy.hash(key), policy.probes)
    ensures BitsOf(next, policy, keys + [key])
  {
    hide BitAt, IsProbe;
    forall q: nat | q < 8 * |cells|
      ensures BitAt(next, q) <==>
              exists k :: && 0 <= k < |keys + [key]|
                          && IsProbe(policy.hash((keys + [key])[k]), policy.probes, 8 * |cells|, q)
    {
      if IsProbe(policy.hash(key), policy.probes, 8 * |cells|, q) {
        assert (keys + [key])[|keys|] == key;
      } else if k :| 0 <= k < |keys| && IsProbe(policy.hash(keys[k]), policy.probes, 8 * |cells|, q) {
        assert (keys + [key])[k] == keys[k];
      }
    }
  }

  lemma KeyProbed(cells: seq<byte>, policy: Policy, keys: seq<seq<byte>>, i: nat)
    requires BitsOf(cells, policy, keys) && i < |keys|
    ensures Probed(cells, policy.hash(keys[i]), policy.probes)
  {
    hide BitAt, BitPos, Probe, Delta;
  }

  /** At least eight bytes; otherwise bitsPerKey bits for every key, rounded up. */
  function CellCount(policy: Policy, n: nat): nat {
    if n * policy.bitsPerKey < 64 then 8 else (n * policy.bitsPerKey + 7) / 8
  }

  method CreateFilter(policy: Policy, keys: seq<seq<byte>>, dst: seq<byte>) returns (r: seq<byte>)
    requires policy.Valid()
    ensures |r| == |dst| + CellCount(policy, |keys|) + 1 && r[..|dst|] == dst
    ensures r[|r| - 1] == policy.probes && BitsOf(r[|dst|..|r| - 1], policy, keys)
    ensures forall i :: 0 <= i < |keys| ==> MayMatch(policy, keys[i], r[|dst|..])
  {
    hide BitsOf, Probed;
    var bits := |keys| * policy.bitsPerKey;
    if bits < 64 {
      bits := 64;
    }
    var bytes := (bits + 7) / 8;
    var cells: seq<byte> := seq(bytes, _ => 0);
    NoBits(cells, policy);
    for i := 0 to |keys|
      invariant |cells| == bytes && BitsOf(cells, policy, keys[..i])
    {
      var next := AddHash(cells, policy.hash(keys[i]), policy.probes);
      BitsGrow(next, cells, policy, keys[..i], keys[i]);
      assert keys[..i + 1] == keys[..i] + [keys[i]];
      cells := next;
    }
    assert keys[..|keys|] == keys;
    forall i: nat | i < |keys| ensures Probed(cells, policy.hash(keys[i]), policy.probes) {
      KeyProbed(cells, policy, keys, i);
    }
    r := dst + (cells + [policy.probes]);
    assert r[|dst|..] == cells + [policy.probes] && (cells + [policy.probes])[..bytes] == cells;
    assert r[|dst|..|r| - 1] == cells;
  }
}
