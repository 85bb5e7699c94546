/** Block handles and the footer of a table file: table/format.cc. */
module Footers {
  import opened Format
  import opened Coding

  datatype Handle = Handle(offset: nat, size: nat)

  ghost predicate Fits(h: Handle) {
    h.offset < U64 && h.size < U64
  }

  function EncodeHandle(h: Handle): seq<byte> {
    Varint(h.offset) + Varint(h.size)
  }

  function GetHandle(s: seq<byte>): Parsed<Handle> {
    var a := Get64(s);
    if a.None? then None
    else
      var b := Get64(a.value.1);
      if b.None? then None else Some((Handle(a.value.0, b.value.0), b.value.1))
  }

  function DecodeHandle(s: seq<byte>): Option<Handle> {
    var h := GetHandle(s);
    if h.None? then None else Some(h.value.0)
  }

  lemma HandleBack(h: Handle, rest: seq<byte>)
    requires Fits(h)
    ensures GetHandle(EncodeHandle(h) + rest) == Some((h, rest)) && DecodeHandle(EncodeHandle(h)) == Some(h)
    ensures |EncodeHandle(h)| <= 20
  {
    hide Get64, Varint;
    Varint64Fits(h.offset);
    Varint64Fits(h.size);
    assert EncodeHandle(h) + rest == Varint(h.offset) + (Varint(h.size) + rest);
    Get64Back(h.offset, Varint(h.size) + rest);
    Get64Back(h.size, rest);
    assert EncodeHandle(h) == Varint(h.offset) + (Varint(h.size) + []);
    Get64Back(h.offset, Varint(h.size) + []);
    Get64Back(h.size, []);
  }

  const MAGIC_LOW: nat := 0x8b80_fb57
  const MAGIC_HIGH: nat := 0xdb47_7524

  /** std::string::resize. */
  function Resize(s: seq<byte>, n: nat): (r: seq<byte>)
    ensures |r| == n
  {
    if |s| < n then s + seq(n - |s|, _ => 0) else s[..n]
  }

  /** Two handles, padded to forty bytes, and the magic number. */
  function FooterBytes(meta: Handle, index: Handle): (r: seq<byte>)
    ensures |r| == 48
  {
    Resize(EncodeHandle(meta) + EncodeHandle(index), 40) + Fixed(MAGIC_LOW, 4) + Fixed(MAGIC_HIGH, 4)
  }

  /** The metaindex and index handles of a table file, unless it is too short or does not end in a footer. */
  function ReadFooter(file: seq<byte>): Option<(Handle, Handle)> {
    if |file| < 48 then None
    else
      var f := file[|file| - 48..];
      if DecodeFixed(f[40..44]) != MAGIC_LOW || DecodeFixed(f[44..48]) != MAGIC_HIGH then None
      else
        var meta := GetHandle(f);
        if meta.None? then None
        else
          var index := GetHandle(meta.value.1);
          if index.None? then None else Some((meta.value.0, index.value.0))
  }

  lemma {:induction false} BytesBack(s: seq<byte>)
    ensures Fixed(DecodeFixed(s), |s|) == s
  {
    if s != [] {
      BytesBack(s[1..]);
    }
  }

  /** A file that does not end in the eight magic bytes, or is too short, is not opened as a table. */
  lemma BadFooterRefused(file: seq<byte>)
    requires |file| < 48 || file[|file| - 8..] != Fixed(MAGIC_LOW, 4) + Fixed(MAGIC_HIGH, 4)
    ensures ReadFooter(file).None?
  {
    hide GetHandle, Fixed, DecodeFixed;
    if |file| >= 48 {
      var f := file[|file| - 48..];
      BytesBack(f[40..44]);
      BytesBack(f[44..48]);
      assert file[|file| - 8..] == f[40..44] + f[44..48];
    }
  }

  lemma FooterBack(file: seq<byte>, meta: Handle, index: Handle)
    requires Fits(meta) && Fits(index)
    ensures ReadFooter(file + FooterBytes(meta, index)) == Some((meta, index))
  {
    hide GetHandle, EncodeHandle, Fixed, DecodeFixed;
    var f, handles := FooterBytes(meta, index), EncodeHandle(meta) + EncodeHandle(index);
    HandleBack(meta, []);
    HandleBack(index, []);
    assert (file + f)[|file + f| - 48..] == f;
    assert f[40..44] == Fixed(MAGIC_LOW, 4) && f[44..48] == Fixed(MAGIC_HIGH, 4);
    Fixed32RoundTrip(MAGIC_LOW);
    Fixed32RoundTrip(MAGIC_HIGH);
    var rest := f[|handles|..];
    assert f == EncodeHandle(meta) + (EncodeHandle(index) + rest);
    HandleBack(meta, EncodeHandle(index) + rest);
    HandleBack(index, rest);
  }
}
