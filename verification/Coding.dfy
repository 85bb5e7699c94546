/** The byte-level encodings of util/coding.cc.  Shifts and bitwise operations on unsigned words are written as
    division, remainder and addition. */
module Coding {
  import opened Format

  type byte = b: int | 0 <= b < 256

  const U32: nat := 0x1_0000_0000
  const U64: nat := 0x1_0000_0000_0000_0000

  /** Narrowing to uint32_t. */
  function Low32(v: nat): nat { v % 0x1_0000_0000 }

  // ----- fixed-width integers -----

  /** The n low bytes of v, least significant first. */
  function Fixed(v: nat, n: nat): (r: seq<byte>)
    ensures |r| == n
  {
    if n == 0 then [] else [v % 256] + Fixed(v / 256, n - 1)
  }

  function DecodeFixed(s: seq<byte>): nat {
    if s == [] then 0 else s[0] + 256 * DecodeFixed(s[1..])
  }

  function Pow(base: nat, k: nat): nat {
    if k == 0 then 1 else base * Pow(base, k - 1)
  }

  lemma {:induction false} FixedRoundTrip(v: nat, n: nat)
    requires v < Pow(256, n)
    ensures DecodeFixed(Fixed(v, n)) == v
  {
    if n > 0 {
      FixedRoundTrip(v / 256, n - 1);
      assert Fixed(v, n)[1..] == Fixed(v / 256, n - 1);
    }
  }

  lemma Fixed32RoundTrip(v: nat)
    requires v < U32
    ensures DecodeFixed(Fixed(v, 4)) == v
  {
    assert Pow(256, 4) == 256 * (256 * (256 * (256 * Pow(256, 0))));
    FixedRoundTrip(v, 4);
  }

  lemma Fixed64RoundTrip(v: nat)
    requires v < U64
    ensures DecodeFixed(Fixed(v, 8)) == v
  {
    assert Pow(256, 4) == 256 * (256 * (256 * (256 * Pow(256, 0))));
    assert Pow(256, 8) == 256 * (256 * (256 * (256 * Pow(256, 4))));
    FixedRoundTrip(v, 8);
  }

  /** An array of 32-bit values. */
  function FixedList(xs: seq<nat>): seq<byte> {
    if xs == [] then [] else FixedList(xs[..|xs| - 1]) + Fixed(xs[|xs| - 1], 4)
  }

  lemma {:induction false} FixedListAt(xs: seq<nat>, k: nat)
    requires k < |xs|
    ensures |FixedList(xs)| == 4 * |xs| && FixedList(xs)[4 * k..4 * k + 4] == Fixed(xs[k], 4)
  {
    hide Fixed;
    var n := |xs| - 1;
    var init, last := FixedList(xs[..n]), Fixed(xs[n], 4);
    assert FixedList(xs) == init + last;
    if k < n {
      FixedListAt(xs[..n], k);
      assert (init + last)[4 * k..4 * k + 4] == init[4 * k..4 * k + 4];
    } else if n > 0 {
      FixedListAt(xs[..n], 0);
      assert (init + last)[4 * n..4 * n + 4] == last;
    } else {
      assert xs[..n] == [] && (init + last)[0..4] == last;
    }
  }

  // ----- variable-width integers -----

  /** Seven bits per byte, least significant first; every byte but the last has its top bit set. */
  function Varint(v: nat): (r: seq<byte>)
    ensures |r| >= 1
  {
    if v < 128 then [v] else [v % 128 + 128] + Varint(v / 128)
  }

  /** The value at the front of s and the number of bytes it takes, if it ends within maxBytes bytes. */
  function ReadVarint(s: seq<byte>, maxBytes: nat): (r: Option<(nat, nat)>)
    ensures r.Some? ==> 1 <= r.value.1 <= |s| && r.value.1 <= maxBytes
  {
    if s == [] || maxBytes == 0 then None
    else if s[0] < 128 then Some((s[0], 1))
    else
      var r := ReadVarint(s[1..], maxBytes - 1);
      if r.None? then None else Some((s[0] - 128 + 128 * r.value.0, r.value.1 + 1))
  }

  lemma {:induction false} VarintRoundTrip(v: nat, rest: seq<byte>, maxBytes: nat)
    requires |Varint(v)| <= maxBytes
    ensures ReadVarint(Varint(v) + rest, maxBytes) == Some((v, |Varint(v)|))
  {
    if v >= 128 {
      VarintRoundTrip(v / 128, rest, maxBytes - 1);
      assert (Varint(v) + rest)[1..] == Varint(v / 128) + rest;
    }
  }

  lemma {:induction false} VarintFits(v: nat, k: nat)
    requires k >= 1 && v < Pow(128, k)
    ensures |Varint(v)| <= k
  {
    if v >= 128 {
      VarintFits(v / 128, k - 1);
    }
  }

  lemma Varint32Fits(v: nat)
    requires v < U32
    ensures |Varint(v)| <= 5
  {
    assert Pow(128, 5) == 128 * (128 * (128 * (128 * (128 * Pow(128, 0)))));
    VarintFits(v, 5);
  }

  lemma Varint64Fits(v: nat)
    requires v < U64
    ensures |Varint(v)| <= 10
  {
    assert Pow(128, 5) == 128 * (128 * (128 * (128 * (128 * Pow(128, 0)))));
    assert Pow(128, 10) == 128 * (128 * (128 * (128 * (128 * Pow(128, 5)))));
    VarintFits(v, 10);
  }

  /** The unrolled 32-bit encoder agrees with the general one. */
  method EncodeVarint32(v: nat) returns (dst: seq<byte>)
    requires v < U32
    ensures dst == Varint(v)
  {
    ghost var v1 := v / 128;
    ghost var v2 := v1 / 128;
    ghost var v3 := v2 / 128;
    assert v / 0x4000 == v2 && v / 0x20_0000 == v3 && v / 0x1000_0000 == v3 / 128;
    if v < 0x80 {
      dst := [v];
    } else if v < 0x4000 {
      dst := [v % 128 + 128, v / 128];
      assert Varint(v1) == [v1];
    } else if v < 0x20_0000 {
      dst := [v % 128 + 128, v / 128 % 128 + 128, v / 0x4000];
      assert Varint(v1) == [v1 % 128 + 128, v2];
    } else if v < 0x1000_0000 {
      dst := [v % 128 + 128, v / 128 % 128 + 128, v / 0x4000 % 128 + 128, v / 0x20_0000];
      assert Varint(v2) == [v2 % 128 + 128, v3];
      assert Varint(v1) == [v1 % 128 + 128] + Varint(v2);
    } else {
      dst := [v % 128 + 128, v / 128 % 128 + 128, v / 0x4000 % 128 + 128, v / 0x20_0000 % 128 + 128, v / 0x1000_0000];
      assert Varint(v3) == [v3 % 128 + 128, v3 / 128];
      assert Varint(v2) == [v2 % 128 + 128] + Varint(v3);
      assert Varint(v1) == [v1 % 128 + 128] + Varint(v2);
    }
  }

  method EncodeVarint64(v: nat) returns (dst: seq<byte>)
    requires v < U64
    ensures dst == Varint(v)
  {
    dst := [];
    var x := v;
    while x >= 128
      invariant Varint(v) == dst + Varint(x)
    {
      dst := dst + [x % 128 + 128];
      x := x / 128;
    }
    dst := dst + [x];
  }

  /** What is decoded so far, continued with the rest. */
  function Continue(result: nat, pow: nat, used: nat, r: Option<(nat, nat)>): Option<(nat, nat)> {
    if r.None? then None else Some((result + pow * r.value.0, used + r.value.1))
  }

  /** Or-ing in seven more bits, shifted; bits beyond the word are lost. */
  function Accumulate(result: nat, bits: nat, pow: nat, modulus: nat): nat
    requires modulus >= 1
  {
    Wrap(result + bits * pow, modulus)
  }

  function Wrap(v: nat, modulus: nat): nat
    requires modulus >= 1
  {
    v % modulus
  }

  lemma ContinueByte(s: seq<byte>, maxBytes: nat, result: nat, pow: nat, used: nat, modulus: nat)
    requires s != [] && maxBytes > 0 && s[0] >= 128 && modulus >= 1
    requires result < pow && (maxBytes > 1 ==> 128 * pow <= modulus)
    ensures Continue(result, pow, used, ReadVarint(s, maxBytes))
         == Continue(Accumulate(result, s[0] - 128, pow, modulus), 128 * pow, used + 1,
             ReadVarint(s[1..], maxBytes - 1))
    ensures maxBytes > 1 ==> Accumulate(result, s[0] - 128, pow, modulus) < 128 * pow
  {
    hide Accumulate;
    var r, b := ReadVarint(s[1..], maxBytes - 1), s[0] - 128;
    if maxBytes > 1 {
      AccumulateExact(result, b, pow, modulus);
    }
    if r.Some? {
      Regroup(result, b, pow, r.value.0);
    }
  }

  lemma AccumulateExact(result: nat, b: nat, pow: nat, modulus: nat)
    requires result < pow && b < 128 && 128 * pow <= modulus
    ensures Accumulate(result, b, pow, modulus) == result + b * pow < 128 * pow
  {
    assert b * pow <= 127 * pow;
    SmallMod(result + b * pow, modulus);
  }

  lemma SmallMod(x: nat, modulus: nat)
    requires x < modulus
    ensures x % modulus == x
  {
  }

  lemma Regroup(result: nat, b: nat, pow: nat, x: nat)
    ensures result + pow * (b + 128 * x) == (result + b * pow) + 128 * pow * x
  {
  }

  lemma FinalByte(s: seq<byte>, maxBytes: nat, result: nat, pow: nat, used: nat, modulus: nat)
    requires s != [] && maxBytes > 0 && s[0] < 128 && modulus >= 1
    ensures var v := Continue(result, pow, used, ReadVarint(s, maxBytes));
            v.Some? && Wrap(v.value.0, modulus) == Accumulate(result, s[0], pow, modulus) && v.value.1 == used + 1
  {
    assert pow * s[0] == s[0] * pow;
  }

  /** The decoding loop shared by GetVarint32PtrFallback (modulus 2^32, five bytes) and GetVarint64Ptr (2^64, ten
      bytes). */
  method DecodeVarint(s: seq<byte>, start: nat, maxBytes: nat, modulus: nat) returns (r: Option<(nat, nat)>)
    requires start <= |s| && maxBytes >= 1 && modulus >= 1 && Pow(128, maxBytes - 1) <= modulus
    ensures var v := ReadVarint(s[start..], maxBytes);
            r == if v.None? then None else Some((Wrap(v.value.0, modulus), start + v.value.1))
  {
    hide Accumulate, Continue, Wrap, ReadVarint;
    var result: nat := 0;
    var pow, p, i := 1, start, 0;
    PowGrows(128, 0, maxBytes - 1);
    StartDecoding(ReadVarint(s[start..], maxBytes));
    while i < maxBytes && p < |s|
      invariant start <= p <= |s| && p == start + i && i <= maxBytes && pow == Pow(128, i)
      invariant i < maxBytes ==> result < pow
      invariant ReadVarint(s[start..], maxBytes) == Continue(result, pow, i, ReadVarint(s[p..], maxBytes - i))
    {
      var b := s[p];
      assert s[p..][0] == b && s[p..][1..] == s[p + 1..];
      if b < 128 {
        FinalByte(s[p..], maxBytes - i, result, pow, i, modulus);
        return Some((Accumulate(result, b, pow, modulus), p + 1));
      }
      assert i + 1 < maxBytes ==> 128 * pow <= modulus by {
        if i + 1 < maxBytes {
          PowGrows(128, i + 1, maxBytes - 1);
        }
      }
      ContinueByte(s[p..], maxBytes - i, result, pow, i, modulus);
      result := Accumulate(result, b - 128, pow, modulus);
      p, pow, i := p + 1, 128 * pow, i + 1;
    }
    ContinueNothing(result, pow, i);
    return None;
  }

  lemma StartDecoding(r: Option<(nat, nat)>)
    ensures r == Continue(0, 1, 0, r)
  {
  }

  lemma ContinueNothing(result: nat, pow: nat, used: nat)
    ensures Continue(result, pow, used, None) == None
  {
  }

  lemma {:induction false} PowPositive(base: nat, k: nat)
    requires base >= 1
    ensures Pow(base, k) >= 1
  {
    if k > 0 {
      PowPositive(base, k - 1);
    }
  }

  lemma {:induction false} PowGrows(base: nat, j: nat, k: nat)
    requires base >= 1 && j <= k
    ensures 1 <= Pow(base, j) <= Pow(base, k)
    decreases k - j
  {
    PowPositive(base, j);
    if j < k {
      PowGrows(base, j + 1, k);
    }
  }

  method GetVarint32Ptr(s: seq<byte>, p: nat) returns (r: Option<(nat, nat)>)
    requires p <= |s|
    ensures var v := ReadVarint(s[p..], 5);
            r == if v.None? then None else Some((Low32(v.value.0), p + v.value.1))
  {
    if p < |s| && s[p] < 128 {
      return Some((s[p], p + 1));
    }
    assert Pow(128, 4) == 128 * (128 * (128 * (128 * Pow(128, 0))));
    r := DecodeVarint(s, p, 5, U32);
  }

  method GetVarint64Ptr(s: seq<byte>, p: nat) returns (r: Option<(nat, nat)>)
    requires p <= |s|
    ensures var v := ReadVarint(s[p..], 10);
            r == if v.None? then None else Some((v.value.0 % 0x1_0000_0000_0000_0000, p + v.value.1))
  {
    assert Pow(128, 4) == 128 * (128 * (128 * (128 * Pow(128, 0))));
    assert Pow(128, 9) == 128 * (128 * (128 * (128 * (128 * Pow(128, 4)))));
    r := DecodeVarint(s, p, 10, U64);
  }

  // ----- length-prefixed slices -----

  /** The length is narrowed to 32 bits before it is written. */
  function PutSlice(s: seq<byte>): seq<byte> {
    Varint(Low32(|s|)) + s
  }

  /** The slice at the front of s and the number of bytes consumed. */
  function ReadSlice(s: seq<byte>): (r: Option<(seq<byte>, nat)>)
    ensures r.Some? ==> 1 <= r.value.1 <= |s|
  {
    var v := ReadVarint(s, 5);
    if v.None? then None
    else
      var len, at := Low32(v.value.0), v.value.1;
      if |s| - at < len then None else Some((s[at..at + len], at + len))
  }

  /** Exactly the slices shorter than 2^32 bytes survive the trip. */
  lemma SliceRoundTrip(s: seq<byte>, rest: seq<byte>)
    ensures ReadSlice(PutSlice(s) + rest) == Some((s, |PutSlice(s)|)) <==> |s| < U32
  {
    var len := Low32(|s|);
    Varint32Fits(len);
    VarintRoundTrip(len, s + rest, 5);
    assert PutSlice(s) + rest == Varint(len) + (s + rest);
    var at := |Varint(len)|;
    assert (Varint(len) + (s + rest))[at..at + len] == s[..len];
  }

  // ----- reading single values off the front -----

  /** A value and the rest of the input. */
  type Parsed<T> = Option<(T, seq<byte>)>

  function Get32(s: seq<byte>): (r: Parsed<nat>)
    ensures r.Some? ==> |r.value.1| < |s|
  {
    var v := ReadVarint(s, 5);
    if v.None? then None else Some((Low32(v.value.0), s[v.value.1..]))
  }

  function Get64(s: seq<byte>): (r: Parsed<nat>)
    ensures r.Some? ==> |r.value.1| < |s|
  {
    var v := ReadVarint(s, 10);
    if v.None? then None else Some((Wrap(v.value.0, 0x1_0000_0000_0000_0000), s[v.value.1..]))
  }

  function GetSlice(s: seq<byte>): (r: Parsed<seq<byte>>)
    ensures r.Some? ==> |r.value.1| < |s|
  {
    var v := ReadSlice(s);
    if v.None? then None else Some((v.value.0, s[v.value.1..]))
  }

  lemma Get32Back(v: nat, rest: seq<byte>)
    requires v < U32
    ensures Get32(Varint(v) + rest) == Some((v, rest))
  {
    hide ReadVarint, Varint;
    Varint32Fits(v);
    VarintRoundTrip(v, rest, 5);
    assert (Varint(v) + rest)[|Varint(v)|..] == rest;
  }

  lemma Get64Back(v: nat, rest: seq<byte>)
    requires v < U64
    ensures Get64(Varint(v) + rest) == Some((v, rest))
  {
    hide ReadVarint, Varint;
    Varint64Fits(v);
    VarintRoundTrip(v, rest, 10);
    assert (Varint(v) + rest)[|Varint(v)|..] == rest;
  }

  lemma GetSliceBack(v: seq<byte>, rest: seq<byte>)
    requires |v| < U32
    ensures GetSlice(PutSlice(v) + rest) == Some((v, rest))
  {
    hide ReadSlice, PutSlice;
    SliceRoundTrip(v, rest);
    assert (PutSlice(v) + rest)[|PutSlice(v)|..] == rest;
  }
}
