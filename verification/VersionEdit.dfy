/** Records of the manifest: db/version_edit.cc. */
module VersionEdits {
  import opened Format
  import opened Coding

  datatype FileMeta = FileMeta(number: nat, size: nat, smallest: seq<byte>, largest: seq<byte>)

  /** A version edit.  `deleted` is the ordered set of (level, file number). */
  datatype Edit = Edit(
    comparator: Option<seq<byte>>, logNumber: Option<nat>, prevLogNumber: Option<nat>, nextFile: Option<nat>,
        lastSequence: Option<nat>,
    compactPointers: seq<(nat, seq<byte>)>, deleted: seq<(nat, nat)>, added: seq<(nat, FileMeta)>)

  const EMPTY: Edit := Edit(None, None, None, None, None, [], [], [])

  /** One tagged field of the encoding. */
  datatype Field =
    | Comparator(name: seq<byte>)
    | Number(tag: nat, value: nat)          // log, previous log, next file, last sequence
    | CompactPointer(level: nat, key: seq<byte>)
    | DeletedFile(level: nat, number: nat)
    | NewFile(level: nat, file: FileMeta)

  function FieldBytes(f: Field): seq<byte> {
    match f
    case Comparator(name) => Varint(1) + PutSlice(name)
    case Number(tag, value) => Varint(tag) + Varint(value)
    case CompactPointer(level, key) => Varint(5) + (Varint(level) + PutSlice(key))
    case DeletedFile(level, number) => Varint(6) + (Varint(level) + Varint(number))
    case NewFile(level, m) =>
      Varint(7) + (Varint(level) + (Varint(m.number) + (Varint(m.size) + (PutSlice(m.smallest) + PutSlice(m.largest)))))
  }

  /** The fields the encoder writes: levels in range, 64-bit numbers, slices of fewer than 2^32 bytes. */
  ghost predicate Encodable(f: Field) {
    match f
    case Comparator(name) => |name| < U32
    case Number(tag, value) => tag in {2, 3, 4, 9} && value < U64
    case CompactPointer(level, key) => level < NUM_LEVELS && |key| < U32
    case DeletedFile(level, number) => level < NUM_LEVELS && number < U64
    case NewFile(level, m) => level < NUM_LEVELS && m.number < U64 && m.size < U64 && |m.smallest| < U32
                              && |m.largest| < U32
  }

  function GetLevel(s: seq<byte>): (r: Parsed<nat>)
    ensures r.Some? ==> |r.value.1| < |s|
  {
    var v := Get32(s);
    if v.Some? && v.value.0 < NUM_LEVELS then v else None
  }

  // ----- one field -----

  function GetNewFile(s: seq<byte>): (r: Parsed<FileMeta>)
    ensures r.Some? ==> |r.value.1| < |s|
  {
    var a := Get64(s);
    if a.None? then None else
      var b := Get64(a.value.1);
      if b.None? then None else
        var c := GetSlice(b.value.1);
        if c.None? then None else
          var d := GetSlice(c.value.1);
          if d.None? then None else Some((FileMeta(a.value.0, b.value.0, c.value.0, d.value.0), d.value.1))
  }

  /** The body of a field after its tag; an unknown tag is an error. */
  function GetBody(tag: nat, s: seq<byte>): (r: Parsed<Field>)
    ensures r.Some? ==> |r.value.1| < |s|
  {
    if tag == 1 then
      var v := GetSlice(s);
      if v.None? then None else Some((Comparator(v.value.0), v.value.1))
    else if tag in {2, 3, 4, 9} then
      var v := Get64(s);
      if v.None? then None else Some((Number(tag, v.value.0), v.value.1))
    else if tag in {5, 6, 7} then
      var l := GetLevel(s);
      if l.None? then None else GetLevelBody(tag, l.value.0, l.value.1)
    else None
  }

  function GetLevelBody(tag: nat, level: nat, s: seq<byte>): (r: Parsed<Field>)
    ensures r.Some? ==> |r.value.1| < |s|
  {
    if tag == 5 then
      var v := GetSlice(s);
      if v.None? then None else Some((CompactPointer(level, v.value.0), v.value.1))
    else if tag == 6 then
      var v := Get64(s);
      if v.None? then None else Some((DeletedFile(level, v.value.0), v.value.1))
    else
      var v := GetNewFile(s);
      if v.None? then None else Some((NewFile(level, v.value.0), v.value.1))
  }

  function TagOf(f: Field): nat {
    match f
    case Comparator(_) => 1
    case Number(tag, _) => tag
    case CompactPointer(_, _) => 5
    case DeletedFile(_, _) => 6
    case NewFile(_, _) => 7
  }

  lemma NewFileBack(m: FileMeta, rest: seq<byte>)
    requires m.number < U64 && m.size < U64 && |m.smallest| < U32 && |m.largest| < U32
    ensures GetNewFile(Varint(m.number) + (Varint(m.size) + (PutSlice(m.smallest) + PutSlice(m.largest)))
            + rest) == Some((m, rest))
  {
    hide Get64, GetSlice, Varint, PutSlice;
    var d := PutSlice(m.largest) + rest;
    var c := PutSlice(m.smallest) + d;
    var b := Varint(m.size) + c;
    assert Varint(m.number) + (Varint(m.size) + (PutSlice(m.smallest) + PutSlice(m.largest))) + rest == Varint(m.number)
        + b;
    Get64Back(m.number, b);
    Get64Back(m.size, c);
    GetSliceBack(m.smallest, d);
    GetSliceBack(m.largest, rest);
  }

  /** A field is read back, and the input after it is left. */
  lemma FieldBack(f: Field, rest: seq<byte>)
    requires Encodable(f)
    ensures var t := Get32(FieldBytes(f) + rest);
            t.Some? && t.value.0 == TagOf(f) && GetBody(TagOf(f), t.value.1) == Some((f, rest))
  {
    hide Get32, Get64, GetSlice, Varint, PutSlice, GetNewFile;
    var tag := TagOf(f);
    match f
    case Comparator(name) =>
      assert FieldBytes(f) + rest == Varint(1) + (PutSlice(name) + rest);
      Get32Back(1, PutSlice(name) + rest);
      GetSliceBack(name, rest);
    case Number(_, value) =>
      assert FieldBytes(f) + rest == Varint(tag) + (Varint(value) + rest);
      Get32Back(tag, Varint(value) + rest);
      Get64Back(value, rest);
    case CompactPointer(level, key) =>
      var body := PutSlice(key) + rest;
      assert FieldBytes(f) + rest == Varint(5) + (Varint(level) + body);
      Get32Back(5, Varint(level) + body);
      Get32Back(level, body);
      GetSliceBack(key, rest);
    case DeletedFile(level, number) =>
      var body := Varint(number) + rest;
      assert FieldBytes(f) + rest == Varint(6) + (Varint(level) + body);
      Get32Back(6, Varint(level) + body);
      Get32Back(level, body);
      Get64Back(number, rest);
    case NewFile(level, m) =>
      var meta := Varint(m.number) + (Varint(m.size) + (PutSlice(m.smallest) + PutSlice(m.largest)));
      var body := meta + rest;
      assert FieldBytes(f) + rest == Varint(7) + (Varint(level) + body);
      Get32Back(7, Varint(level) + body);
      Get32Back(level, body);
      NewFileBack(m, rest);
  }

  // ----- a whole edit -----

  function EncodeFields(fs: seq<Field>): seq<byte> {
    if fs == [] then [] else FieldBytes(fs[0]) + EncodeFields(fs[1..])
  }

  function OptionalFields(e: Edit): seq<Field> {
    (if e.comparator.Some? then [Comparator(e.comparator.value)] else [])
    + (if e.logNumber.Some? then [Number(2, e.logNumber.value)] else [])
    + (if e.prevLogNumber.Some? then [Number(9, e.prevLogNumber.value)] else [])
    + (if e.nextFile.Some? then [Number(3, e.nextFile.value)] else [])
    + (if e.lastSequence.Some? then [Number(4, e.lastSequence.value)] else [])
  }

  function Fields(e: Edit): seq<Field> {
    OptionalFields(e) + PointerFields(e.compactPointers) + DeletedFields(e.deleted) + AddedFields(e.added)
  }

  function PointerFields(ps: seq<(nat, seq<byte>)>): seq<Field> {
    if ps == [] then [] else PointerFields(ps[..|ps| - 1]) + [CompactPointer(ps[|ps| - 1].0, ps[|ps| - 1].1)]
  }

  function DeletedFields(ds: seq<(nat, nat)>): seq<Field> {
    if ds == [] then [] else DeletedFields(ds[..|ds| - 1]) + [DeletedFile(ds[|ds| - 1].0, ds[|ds| - 1].1)]
  }

  function AddedFields(fs: seq<(nat, FileMeta)>): seq<Field> {
    if fs == [] then [] else AddedFields(fs[..|fs| - 1]) + [NewFile(fs[|fs| - 1].0, fs[|fs| - 1].1)]
  }

  predicate DeletedLess(a: (nat, nat), b: (nat, nat)) {
    a.0 < b.0 || (a.0 == b.0 && a.1 < b.1)
  }

  /** Insertion into the ordered set of deleted files. */
  function InsertDeleted(ds: seq<(nat, nat)>, d: (nat, nat)): seq<(nat, nat)> {
    if ds == [] then [d]
    else
      var last := ds[|ds| - 1];
      if last == d then ds
      else if DeletedLess(last, d) then ds + [d]
      else InsertDeleted(ds[..|ds| - 1], d) + [last]
  }

  function Absorb(e: Edit, f: Field): Edit {
    match f
    case Comparator(name) => e.(comparator := Some(name))
    case Number(tag, value) =>
      if tag == 2 then e.(logNumber := Some(value))
      else if tag == 9 then e.(prevLogNumber := Some(value))
      else if tag == 3 then e.(nextFile := Some(value))
      else e.(lastSequence := Some(value))
    case CompactPointer(level, key) => e.(compactPointers := e.compactPointers + [(level, key)])
    case DeletedFile(level, number) => e.(deleted := InsertDeleted(e.deleted, (level, number)))
    case NewFile(level, m) => e.(added := e.added + [(level, m)])
  }

  function AbsorbAll(e: Edit, fs: seq<Field>): Edit {
    if fs == [] then e else Absorb(AbsorbAll(e, fs[..|fs| - 1]), fs[|fs| - 1])
  }

  /** None stands for a corruption status. */
  function Decode(s: seq<byte>, e: Edit): Option<Edit>
    decreases |s|
  {
    var t := Get32(s);
    if t.None? then if s == [] then Some(e) else None
    else
      var b := GetBody(t.value.0, t.value.1);
      if b.None? then None else Decode(b.value.1, Absorb(e, b.value.0))
  }

  /** Clear leaves the compaction pointers in place. */
  function Clear(e: Edit): Edit {
    EMPTY.(compactPointers := e.compactPointers)
  }

  lemma {:induction false} AbsorbFirst(e: Edit, fs: seq<Field>)
    requires fs != []
    ensures AbsorbAll(e, fs) == AbsorbAll(Absorb(e, fs[0]), fs[1..])
    decreases |fs|
  {
    hide Absorb;
    if |fs| > 1 {
      AbsorbFirst(e, fs[..|fs| - 1]);
      assert fs[..|fs| - 1][1..] == fs[1..][..|fs| - 2];
    } else {
      assert fs[..0] == [] && fs[1..] == [];
    }
  }

  lemma {:induction false} DecodeFields(fs: seq<Field>, e: Edit)
    requires forall f :: f in fs ==> Encodable(f)
    ensures Decode(EncodeFields(fs), e) == Some(AbsorbAll(e, fs))
    decreases |fs|
  {
    hide Absorb, Get32, GetBody, FieldBytes, Encodable;
    if fs == [] {
    } else {
      FieldBack(fs[0], EncodeFields(fs[1..]));
      DecodeFields(fs[1..], Absorb(e, fs[0]));
      AbsorbFirst(e, fs);
    }
  }

  lemma {:induction false} AbsorbConcat(e: Edit, a: seq<Field>, b: seq<Field>)
    ensures AbsorbAll(e, a + b) == AbsorbAll(AbsorbAll(e, a), b)
    decreases |b|
  {
    hide Absorb;
    if b == [] {
      assert a + b == a;
    } else {
      AbsorbConcat(e, a, b[..|b| - 1]);
      assert (a + b)[..|a + b| - 1] == a + b[..|b| - 1];
    }
  }

  lemma {:induction false} AbsorbPointers(e: Edit, ps: seq<(nat, seq<byte>)>)
    ensures AbsorbAll(e, PointerFields(ps)) == e.(compactPointers := e.compactPointers + ps)
  {
    if ps == [] {
      assert e.compactPointers + ps == e.compactPointers;
    } else {
      var n := |ps| - 1;
      AbsorbPointers(e, ps[..n]);
      assert PointerFields(ps)[..|PointerFields(ps)| - 1] == PointerFields(ps[..n]);
      assert e.compactPointers + ps == e.compactPointers + ps[..n] + [ps[n]];
    }
  }

  lemma {:induction false} AbsorbAdded(e: Edit, fs: seq<(nat, FileMeta)>)
    ensures AbsorbAll(e, AddedFields(fs)) == e.(added := e.added + fs)
  {
    if fs == [] {
      assert e.added + fs == e.added;
    } else {
      var n := |fs| - 1;
      AbsorbAdded(e, fs[..n]);
      assert AddedFields(fs)[..|AddedFields(fs)| - 1] == AddedFields(fs[..n]);
      assert e.added + fs == e.added + fs[..n] + [fs[n]];
    }
  }

  ghost predicate Ordered(ds: seq<(nat, nat)>) {
    forall i, j :: 0 <= i < j < |ds| ==> DeletedLess(ds[i], ds[j])
  }

  /** In whatever order deletions come, they are kept as a set in the order of level and number. */
  lemma {:induction false} InsertDeletedOrdered(ds: seq<(nat, nat)>, d: (nat, nat))
    requires Ordered(ds)
    ensures Ordered(InsertDeleted(ds, d)) && forall x :: x in InsertDeleted(ds, d) <==> x in ds || x == d
  {
    if ds != [] {
      var init, last := ds[..|ds| - 1], ds[|ds| - 1];
      assert ds == init + [last] && Ordered(init);
      InsertDeletedOrdered(init, d);
      var r := InsertDeleted(init, d);
      if last == d || DeletedLess(last, d) {
        assert forall i :: 0 <= i < |init| ==> DeletedLess(init[i], last);
      } else {
        forall i | 0 <= i < |r| ensures DeletedLess(r[i], last) {
          assert r[i] in r;
          if r[i] != d {
            var k :| 0 <= k < |init| && init[k] == r[i];
            assert DeletedLess(ds[k], ds[|ds| - 1]);
          }
        }
      }
    }
  }

  lemma {:induction false} AbsorbDeleted(e: Edit, ds: seq<(nat, nat)>)
    requires e.deleted == [] && Ordered(ds)
    ensures AbsorbAll(e, DeletedFields(ds)) == e.(deleted := ds)
  {
    if ds != [] {
      var n := |ds| - 1;
      AbsorbDeleted(e, ds[..n]);
      assert DeletedFields(ds)[..|DeletedFields(ds)| - 1] == DeletedFields(ds[..n]);
      assert ds == ds[..n] + [ds[n]] && InsertDeleted(ds[..n], ds[n]) == ds[..n] + [ds[n]];
    }
  }

  lemma AbsorbOptional(e: Edit, e0: Edit)
    ensures AbsorbAll(Clear(e0), OptionalFields(e)) == Clear(e0).(comparator := e.comparator, logNumber := e.logNumber,
            prevLogNumber := e.prevLogNumber,
                                                                  nextFile := e.nextFile,
                                                                      lastSequence := e.lastSequence)
  {
    var a := if e.comparator.Some? then [Comparator(e.comparator.value)] else [];
    var b := if e.logNumber.Some? then [Number(2, e.logNumber.value)] else [];
    var c := if e.prevLogNumber.Some? then [Number(9, e.prevLogNumber.value)] else [];
    var d := if e.nextFile.Some? then [Number(3, e.nextFile.value)] else [];
    var f := if e.lastSequence.Some? then [Number(4, e.lastSequence.value)] else [];
    hide AbsorbAll;
    AbsorbConcat(Clear(e0), a + b + c + d, f);
    AbsorbConcat(Clear(e0), a + b + c, d);
    AbsorbConcat(Clear(e0), a + b, c);
    AbsorbConcat(Clear(e0), a, b);
    AbsorbShort(Clear(e0), a);
    var e1 := AbsorbAll(Clear(e0), a);
    AbsorbShort(e1, b);
    var e2 := AbsorbAll(e1, b);
    AbsorbShort(e2, c);
    var e3 := AbsorbAll(e2, c);
    AbsorbShort(e3, d);
    AbsorbShort(AbsorbAll(e3, d), f);
  }

  lemma AbsorbShort(e: Edit, fs: seq<Field>)
    ensures fs == [] ==> AbsorbAll(e, fs) == e
    ensures |fs| == 1 ==> AbsorbAll(e, fs) == Absorb(e, fs[0])
  {
    hide Absorb;
    assert |fs| == 1 ==> fs[..0] == [];
  }

  ghost predicate Valid(e: Edit) {
    Ordered(e.deleted) && forall f :: f in Fields(e) ==> Encodable(f)
  }

  /** Decoding an encoded edit gives it back, if and only if it is decoded into an edit without compaction pointers. */
  lemma DecodeEncode(e: Edit, e0: Edit)
    requires Valid(e)
    ensures Decode(EncodeFields(Fields(e)),
            Clear(e0)) == Some(e.(compactPointers := e0.compactPointers + e.compactPointers))
    ensures Decode(EncodeFields(Fields(e)), Clear(e0)) == Some(e) <==> e0.compactPointers == []
  {
    hide Decode, AbsorbAll, Fields, EncodeFields, Clear, Encodable, Ordered;
    DecodeFields(Fields(e), Clear(e0));
    AbsorbFields(e, e0);
    if e0.compactPointers == [] {
      assert e0.compactPointers + e.compactPointers == e.compactPointers;
    } else {
      assert |e0.compactPointers + e.compactPointers| > |e.compactPointers|;
    }
  }

  lemma AbsorbFields(e: Edit, e0: Edit)
    requires Ordered(e.deleted)
    ensures AbsorbAll(Clear(e0), Fields(e)) == e.(compactPointers := e0.compactPointers + e.compactPointers)
  {
    hide AbsorbAll, OptionalFields, PointerFields, DeletedFields, AddedFields;
    var o, p, d, a := OptionalFields(e), PointerFields(e.compactPointers), DeletedFields(e.deleted),
        AddedFields(e.added);
    AbsorbConcat(Clear(e0), o + p + d, a);
    AbsorbConcat(Clear(e0), o + p, d);
    AbsorbConcat(Clear(e0), o, p);
    AbsorbOptional(e, e0);
    var e1 := AbsorbAll(Clear(e0), o);
    AbsorbPointers(e1, e.compactPointers);
    var e2 := AbsorbAll(e1, p);
    AbsorbDeleted(e2, e.deleted);
    AbsorbAdded(AbsorbAll(e2, d), e.added);
    assert [] + e.added == e.added;
  }

  lemma {:induction false} EncodeConcat(a: seq<Field>, b: seq<Field>)
    ensures EncodeFields(a + b) == EncodeFields(a) + EncodeFields(b)
    decreases |a|
  {
    hide FieldBytes;
    if a == [] {
      assert a + b == b;
    } else {
      EncodeConcat(a[1..], b);
      assert (a + b)[1..] == a[1..] + b;
    }
  }

  lemma EncodeOneMore(fs: seq<Field>, f: Field)
    ensures EncodeFields(fs + [f]) == EncodeFields(fs) + FieldBytes(f)
  {
    hide FieldBytes;
    EncodeConcat(fs, [f]);
    assert EncodeFields([f]) == FieldBytes(f) + EncodeFields([]);
  }

  method EncodeTo(e: Edit) returns (dst: seq<byte>)
    ensures dst == EncodeFields(Fields(e))
  {
    hide FieldBytes, EncodeFields;
    ghost var fs: seq<Field> := [];
    NothingEncoded();
    dst := [];
    if e.comparator.Some? {
      EncodeOneMore(fs, Comparator(e.comparator.value));
      dst, fs := dst + FieldBytes(Comparator(e.comparator.value)), fs + [Comparator(e.comparator.value)];
    }
    if e.logNumber.Some? {
      EncodeOneMore(fs, Number(2, e.logNumber.value));
      dst, fs := dst + FieldBytes(Number(2, e.logNumber.value)), fs + [Number(2, e.logNumber.value)];
    }
    if e.prevLogNumber.Some? {
      EncodeOneMore(fs, Number(9, e.prevLogNumber.value));
      dst, fs := dst + FieldBytes(Number(9, e.prevLogNumber.value)), fs + [Number(9, e.prevLogNumber.value)];
    }
    if e.nextFile.Some? {
      EncodeOneMore(fs, Number(3, e.nextFile.value));
      dst, fs := dst + FieldBytes(Number(3, e.nextFile.value)), fs + [Number(3, e.nextFile.value)];
    }
    if e.lastSequence.Some? {
      EncodeOneMore(fs, Number(4, e.lastSequence.value));
      dst, fs := dst + FieldBytes(Number(4, e.lastSequence.value)), fs + [Number(4, e.lastSequence.value)];
    }
    assert fs == OptionalFields(e);
    dst := EncodeLists(e, dst);
  }

  method EncodeLists(e: Edit, start: seq<byte>) returns (dst: seq<byte>)
    requires start == EncodeFields(OptionalFields(e))
    ensures dst == EncodeFields(Fields(e))
  {
    hide FieldBytes, EncodeFields, OptionalFields;
    dst := start;
    ghost var fs := OptionalFields(e);
    for i := 0 to |e.compactPointers|
      invariant fs == OptionalFields(e) + PointerFields(e.compactPointers[..i]) && dst == EncodeFields(fs)
    {
      var f := CompactPointer(e.compactPointers[i].0, e.compactPointers[i].1);
      assert e.compactPointers[..i + 1][..i] == e.compactPointers[..i];
      EncodeOneMore(fs, f);
      dst, fs := dst + FieldBytes(f), fs + [f];
    }
    assert e.compactPointers[..|e.compactPointers|] == e.compactPointers;
    ghost var before := fs;
    for i := 0 to |e.deleted|
      invariant fs == before + DeletedFields(e.deleted[..i]) && dst == EncodeFields(fs)
    {
      var f := DeletedFile(e.deleted[i].0, e.deleted[i].1);
      assert e.deleted[..i + 1][..i] == e.deleted[..i];
      EncodeOneMore(fs, f);
      dst, fs := dst + FieldBytes(f), fs + [f];
    }
    assert e.deleted[..|e.deleted|] == e.deleted;
    before := fs;
    for i := 0 to |e.added|
      invariant fs == before + AddedFields(e.added[..i]) && dst == EncodeFields(fs)
    {
      var f := NewFile(e.added[i].0, e.added[i].1);
      assert e.added[..i + 1][..i] == e.added[..i];
      EncodeOneMore(fs, f);
      dst, fs := dst + FieldBytes(f), fs + [f];
    }
    assert e.added[..|e.added|] == e.added;
  }

  lemma NothingEncoded()
    ensures EncodeFields([]) == []
  {
  }

  method DecodeFrom(e0: Edit, src: seq<byte>) returns (r: Option<Edit>)
    ensures r == Decode(src, Clear(e0))
  {
    hide Get32, GetBody, Absorb, Clear;
    var input, e := src, Clear(e0);
    while true
      invariant Decode(input, e) == Decode(src, Clear(e0))
      decreases |input|
    {
      var t := Get32(input);
      if t.None? {
        return if input == [] then Some(e) else None;
      }
      var b := GetBody(t.value.0, t.value.1);
      if b.None? {
        return None;
      }
      input, e := b.value.1, Absorb(e, b.value.0);
    }
  }
}
