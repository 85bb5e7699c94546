/** The byte representation of a batch of updates: db/write_batch.cc. */
module WriteBatches {
  import opened Format
  import opened Coding

  datatype Update = Put(key: seq<byte>, value: seq<byte>) | Delete(key: seq<byte>)

  function UpdateBytes(u: Update): seq<byte> {
    match u
    case Put(key, value) => [1] + (PutSlice(key) + PutSlice(value))
    case Delete(key) => [0] + PutSlice(key)
  }

  function Records(us: seq<Update>): seq<byte> {
    if us == [] then [] else UpdateBytes(us[0]) + Records(us[1..])
  }

  /** Sequence number, count, records. */
  function Rep(sn: nat, us: seq<Update>): seq<byte> {
    Fixed(sn, 8) + Fixed(|us|, 4) + Records(us)
  }

  lemma {:induction false} RecordsConcat(a: seq<Update>, b: seq<Update>)
    ensures Records(a + b) == Records(a) + Records(b)
  {
    hide UpdateBytes, Records;
    if a == [] {
      assert a + b == b && [] + Records(b) == Records(b);
      NoRecords();
    } else {
      RecordsConcat(a[1..], b);
      assert (a + b)[1..] == a[1..] + b;
      FirstRecord(a);
      FirstRecord(a + b);
      assert UpdateBytes(a[0]) + (Records(a[1..]) + Records(b)) == UpdateBytes(a[0]) + Records(a[1..]) + Records(b);
    }
  }

  lemma NoRecords()
    ensures Records([]) == []
  {
  }

  lemma FirstRecord(us: seq<Update>)
    requires us != []
    ensures Records(us) == UpdateBytes(us[0]) + Records(us[1..])
  {
    hide UpdateBytes;
  }

  lemma RepParts(sn: nat, us: seq<Update>)
    ensures var r := Rep(sn, us);
            |r| >= 12 && r[..8] == Fixed(sn, 8) && r[8..12] == Fixed(|us|, 4) && r[12..] == Records(us)
  {
    hide Fixed, Records;
  }

  // ----- reading -----

  function GetUpdate(s: seq<byte>): (r: Parsed<Update>)
    ensures r.Some? ==> |r.value.1| < |s|
  {
    if s == [] then None
    else if s[0] == 1 then
      var k := GetSlice(s[1..]);
      if k.None? then None
      else
        var v := GetSlice(k.value.1);
        if v.None? then None else Some((Update.Put(k.value.0, v.value.0), v.value.1))
    else if s[0] == 0 then
      var k := GetSlice(s[1..]);
      if k.None? then None else Some((Delete(k.value.0), k.value.1))
    else None
  }

  /** The updates up to the end of the input or the first one that is malformed, and whether the end was reached. */
  function ReadUpdates(s: seq<byte>): (seq<Update>, bool)
    decreases |s|
  {
    if s == [] then ([], true)
    else
      var u := GetUpdate(s);
      if u.None? then ([], false)
      else
        var rest := ReadUpdates(u.value.1);
        ([u.value.0] + rest.0, rest.1)
  }

  ghost predicate Encodable(u: Update) {
    |u.key| < U32 && (u.Put? ==> |u.value| < U32)
  }

  lemma UpdateBack(u: Update, rest: seq<byte>)
    requires Encodable(u)
    ensures UpdateBytes(u) + rest != [] && GetUpdate(UpdateBytes(u) + rest) == Some((u, rest))
  {
    hide GetSlice, PutSlice;
    var s := UpdateBytes(u) + rest;
    if u.Put? {
      assert s[1..] == PutSlice(u.key) + (PutSlice(u.value) + rest);
      GetSliceBack(u.key, PutSlice(u.value) + rest);
      GetSliceBack(u.value, rest);
    } else {
      assert s[1..] == PutSlice(u.key) + rest;
      GetSliceBack(u.key, rest);
    }
  }

  lemma {:induction false} RecordsBack(us: seq<Update>)
    requires forall u :: u in us ==> Encodable(u)
    ensures ReadUpdates(Records(us)) == (us, true)
  {
    hide GetUpdate, UpdateBytes, Encodable;
    if us != [] {
      UpdateBack(us[0], Records(us[1..]));
      RecordsBack(us[1..]);
      assert us == [us[0]] + us[1..];
    }
  }

  /** Iterate hands out updates in order; `ok` is false for a malformed batch or a wrong count. */
  method Iterate(rep: seq<byte>) returns (ok: bool, us: seq<Update>)
    ensures if |rep| < 12 then !ok && us == [] else
              us == ReadUpdates(rep[12..]).0 && (ok <==> ReadUpdates(rep[12..]).1 && |us| == DecodeFixed(rep[8..12]))
  {
    hide GetUpdate, DecodeFixed;
    us := [];
    if |rep| < 12 {
      return false, us;
    }
    var input := rep[12..];
    ghost var all := ReadUpdates(input);
    assert [] + all.0 == all.0;
    while input != []
      invariant all == (us + ReadUpdates(input).0, ReadUpdates(input).1)
      decreases |input|
    {
      ghost var before := ReadUpdates(input);
      var u := GetUpdate(input);
      if u.None? {
        assert before == ([], false) && us + [] == us;
        return false, us;
      }
      assert us + before.0 == us + [u.value.0] + ReadUpdates(u.value.1).0;
      us, input := us + [u.value.0], u.value.1;
    }
    assert us + [] == us;
    ok := |us| == DecodeFixed(rep[8..12]);
  }

  // ----- writing -----

  class WriteBatch {
    var rep: seq<byte>
    ghost var sn: nat
    ghost var us: seq<Update>

    /** The count is an int. */
    ghost predicate Valid()
      reads this
    {
      rep == Rep(sn, us) && |us| < 0x8000_0000
    }

    constructor ()
      ensures Valid() && us == [] && sn == 0
    {
      rep := seq(12, _ => 0);
      sn, us := 0, [];
      new;
    }

    method Count() returns (n: nat)
      requires Valid()
      ensures n == |us|
    {
      hide Rep, DecodeFixed, Fixed;
      RepParts(sn, us);
      Fixed32RoundTrip(|us|);
      n := DecodeFixed(rep[8..12]);
    }

    /** Patch the count and append records. */
    method Extend(n: nat, bytes: seq<byte>, ghost more: seq<Update>)
      requires Valid() && n == |us| + |more| < 0x8000_0000 && bytes == Records(more)
      modifies this
      ensures Valid() && us == old(us) + more && sn == old(sn)
    {
      hide Fixed, Records;
      RepParts(sn, us);
      RecordsConcat(us, more);
      rep := rep[..8] + Fixed(n, 4) + rep[12..] + bytes;
      us := us + more;
    }

    method Put(key: seq<byte>, value: seq<byte>)
      requires Valid() && |us| + 1 < 0x8000_0000
      modifies this
      ensures Valid() && us == old(us) + [Update.Put(key, value)] && sn == old(sn)
    {
      hide Rep, PutSlice;
      var n := Count();
      OneRecord(Update.Put(key, value));
      Extend(n + 1, [1] + (PutSlice(key) + PutSlice(value)), [Update.Put(key, value)]);
    }

    method Delete(key: seq<byte>)
      requires Valid() && |us| + 1 < 0x8000_0000
      modifies this
      ensures Valid() && us == old(us) + [Update.Delete(key)] && sn == old(sn)
    {
      hide Rep, PutSlice;
      var n := Count();
      OneRecord(Update.Delete(key));
      Extend(n + 1, [0] + PutSlice(key), [Update.Delete(key)]);
    }

    /** The group leader appends the batches of its followers. */
    method Append(src: WriteBatch)
      requires Valid() && src.Valid() && src != this && |us| + |src.us| < 0x8000_0000
      modifies this
      ensures Valid() && us == old(us) + src.us && sn == old(sn)
    {
      hide Rep;
      var n := Count();
      var m := src.Count();
      RepParts(src.sn, src.us);
      Extend(n + m, src.rep[12..], src.us);
    }

    method SetSequence(seqno: nat)
      requires Valid()
      modifies this
      ensures Valid() && sn == seqno && us == old(us)
    {
      hide Fixed, Records;
      RepParts(sn, us);
      rep := Fixed(seqno, 8) + rep[8..];
      sn := seqno;
    }

    /** Update i enters the memtable under sequence number sn + i. */
    method InsertInto() returns (ok: bool, entries: seq<(nat, Update)>)
      requires Valid() && sn < U64 && forall u :: u in us ==> Encodable(u)
      ensures ok && |entries| == |us| && forall i :: 0 <= i < |us| ==> entries[i] == (sn + i, us[i])
    {
      hide Rep, DecodeFixed, Fixed, Records, ReadUpdates, Encodable;
      RepParts(sn, us);
      RecordsBack(us);
      Fixed64RoundTrip(sn);
      Fixed32RoundTrip(|us|);
      var sequence := DecodeFixed(rep[..8]);
      var found;
      ok, found := Iterate(rep);
      entries := [];
      for i := 0 to |found|
        invariant sequence == sn + i && |entries| == i && forall j :: 0 <= j < i ==> entries[j] == (sn + j, us[j])
      {
        entries := entries + [(sequence, found[i])];
        sequence := sequence + 1;
      }
    }
  }

  lemma OneRecord(u: Update)
    ensures Records([u]) == UpdateBytes(u)
  {
    hide UpdateBytes;
    assert UpdateBytes(u) + [] == UpdateBytes(u);
  }
}
