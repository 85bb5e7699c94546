/** The log format: db/log_writer.cc, db/log_reader.cc and the checksum masking of util/crc32c.h.  The reader always
    starts at offset 0. */
module Log {
  import opened Format
  import opened Coding

  // kBlockSize is 32768 and kHeaderSize is 7; both are written out where they are divided by or compared with.
  const FULL: byte := 1
  const FIRST: byte := 2
  const MIDDLE: byte := 3
  const LAST: byte := 4
  // The values ReadPhysicalRecord adds to the record types.
  const EOF: byte := 5
  const BAD: byte := 6

  // ----- checksums -----

  type Crc = x: int | 0 <= x < 0x1_0000_0000

  /** One byte of the CRC, as an arbitrary function. */
  type CrcStep = (Crc, byte) -> Crc

  function Fold(step: CrcStep, l: Crc, data: seq<byte>): Crc
    decreases |data|
  {
    if data == [] then l else Fold(step, step(l, data[0]), data[1..])
  }

  function Extend(step: CrcStep, crc: Crc, data: seq<byte>): Crc {
    0xffff_ffff - Fold(step, 0xffff_ffff - crc, data)
  }

  lemma {:induction false} FoldConcat(step: CrcStep, l: Crc, a: seq<byte>, b: seq<byte>)
    ensures Fold(step, l, a + b) == Fold(step, Fold(step, l, a), b)
    decreases |a|
  {
    if a == [] {
      assert a + b == b;
    } else {
      FoldConcat(step, step(l, a[0]), a[1..], b);
      assert (a + b)[1..] == a[1..] + b;
    }
  }

  lemma ExtendConcat(step: CrcStep, crc: Crc, a: seq<byte>, b: seq<byte>)
    ensures Extend(step, Extend(step, crc, a), b) == Extend(step, crc, a + b)
  {
    FoldConcat(step, 0xffff_ffff - crc, a, b);
  }

  /** Rotate right by 15 bits and add a constant. */
  function Mask(crc: Crc): Crc {
    (crc / 0x8000 + crc % 0x8000 * 0x2_0000 + 0xa282_ead8) % 0x1_0000_0000
  }

  function Unmask(masked: Crc): Crc {
    var rot := (masked + 0x1_0000_0000 - 0xa282_ead8) % 0x1_0000_0000;
    rot / 0x2_0000 + rot % 0x2_0000 * 0x8000
  }

  lemma UnmaskMask(crc: Crc)
    ensures Unmask(Mask(crc)) == crc
  {
    var rot := crc / 0x8000 + crc % 0x8000 * 0x2_0000;
    RotateBack(crc / 0x8000, crc % 0x8000);
    AddThenSubtract(rot, 0xa282_ead8);
  }

  lemma RotateBack(hi: nat, lo: nat)
    requires hi < 0x2_0000
    ensures var rot := hi + lo * 0x2_0000;
            rot / 0x2_0000 == lo && rot % 0x2_0000 == hi
  {
  }

  lemma AddThenSubtract(x: Crc, d: Crc)
    ensures ((x + d) % 0x1_0000_0000 + 0x1_0000_0000 - d) % 0x1_0000_0000 == x
  {
    if x + d < 0x1_0000_0000 {
      assert (x + d) % 0x1_0000_0000 == x + d;
    } else {
      assert (x + d) % 0x1_0000_0000 == x + d - 0x1_0000_0000;
    }
  }

  // ----- what the writer appends -----

  function Fragment(step: CrcStep, kind: byte, data: seq<byte>): seq<byte>
    requires |data| < 0x8000
  {
    Fixed(Mask(Extend(step, Extend(step, 0, [kind]), data)), 4) + [|data| % 256, |data| / 256, kind] + data
  }

  function Zeros(n: nat): seq<byte> { seq(n, _ => 0) }

  function FragmentKind(begin: bool, end: bool): byte {
    if begin && end then FULL else if begin then FIRST else if end then LAST else MIDDLE
  }

  /** The offset in the block at which a fragment starts, once a trailer of fewer than seven bytes is filled. */
  function Start(at: nat): nat { if at > 32761 then 0 else at }

  function Trailer(at: nat): nat
    requires at <= 32768
  {
    if at > 32761 then 32768 - at else 0
  }

  /** The length of the next fragment of `left` bytes. */
  function Take(at: nat, left: nat): (n: nat)
    ensures n <= left
  {
    var avail := 32761 - Start(at);
    if left < avail then left else avail
  }

  /** The bytes of one logical record, or of its remainder, written at offset `at` of a block. */
  function Encode(step: CrcStep, at: nat, data: seq<byte>, begin: bool): seq<byte>
    requires at <= 32768
    decreases |data|, if at == 32761 then 1 else 0
  {
    var n := Take(at, |data|);
    Zeros(Trailer(at)) + Fragment(step, FragmentKind(begin, n == |data|), data[..n]) + EncodeRest(step, at, data)
  }

  /** What follows the first fragment. */
  function EncodeRest(step: CrcStep, at: nat, data: seq<byte>): seq<byte>
    requires at <= 32768
    decreases |data|, if at == 32761 then 1 else 0, 0
  {
    var n := Take(at, |data|);
    if n == |data| then [] else Encode(step, Start(at) + 7 + n, data[n..], false)
  }

  function LogBytes(step: CrcStep, records: seq<seq<byte>>): seq<byte> {
    if records == [] then []
    else
      var before := LogBytes(step, records[..|records| - 1]);
      before + Encode(step, |before| % 32768, records[|records| - 1], true)
  }

  lemma FullBlockIsNewBlock(step: CrcStep, data: seq<byte>, begin: bool)
    ensures Encode(step, 32768, data, begin) == Encode(step, 0, data, begin)
  {
    assert Zeros(0) == [];
  }

  lemma EncodeIs(step: CrcStep, at: nat, data: seq<byte>, begin: bool)
    requires at <= 32768
    ensures var n := Take(at, |data|);
            Encode(step, at, data, begin)
            == Zeros(Trailer(at)) + Fragment(step, FragmentKind(begin, n == |data|), data[..n])
               + if n == |data| then [] else Encode(step, Start(at) + 7 + n, data[n..], false)
  {
    hide Fragment, FragmentKind, Zeros;
  }

  lemma Regroup(f: seq<byte>, z: seq<byte>, x: seq<byte>, r: seq<byte>)
    ensures f + (z + x + r) == f + z + x + r
  {
  }

  /** One fragment of n bytes, at `start` of a block after the trailer, and what is to follow it. */
  lemma EncodeUnfolds(step: CrcStep, f: seq<byte>, at: nat, data: seq<byte>, begin: bool, start: nat, n: nat)
    requires at <= 32768 && start == (if 32768 - at < 7 then 0 else at)
    requires n == (if |data| < 32768 - start - 7 then |data| else 32768 - start - 7)
    ensures f + Encode(step, at, data, begin)
            == (if 32768 - at < 7 then f + Zeros(32768 - at) else f)
               + Fragment(step, FragmentKind(begin, n == |data|), data[..n])
               + if n == |data| then [] else Encode(step, start + 7 + n, data[n..], false)
  {
    hide Encode, Fragment, FragmentKind;
    var z, x := Zeros(Trailer(at)), Fragment(step, FragmentKind(begin, n == |data|), data[..n]);
    EncodeIs(step, at, data, begin);
    Regroup(f, z, x, if n == |data| then [] else Encode(step, start + 7 + n, data[n..], false));
    assert Trailer(at) == 0 ==> f + z == f;
  }

  class Writer {
    const step: CrcStep
    var file: seq<byte>
    var blockOffset: nat

    ghost predicate Valid()
      reads this
    {
      blockOffset <= 32768 && blockOffset % 32768 == |file| % 32768
    }

    constructor (step: CrcStep)
      ensures Valid() && file == [] && this.step == step
    {
      this.step, file, blockOffset := step, [], 0;
    }

    /** A writer that continues a file written earlier. */
    constructor Reopen(step: CrcStep, dest: seq<byte>)
      ensures Valid() && file == dest && this.step == step
    {
      this.step, file, blockOffset := step, dest, |dest| % 32768;
    }

    /** What is appended depends on the length of the file alone, so a reopened writer goes on as if it had never
        been closed. */
    method AddRecord(slice: seq<byte>)
      requires Valid()
      modifies this
      ensures Valid() && file == old(file) + Encode(step, |old(file)| % 32768, slice, true)
    {
      hide Encode, Fragment, FragmentKind;
      FullBlockIsNewBlock(step, slice, true);
      var left, begin, more := slice, true, true;
      while more
        invariant Valid()
        invariant more ==> old(file) + Encode(step, |old(file)| % 32768, slice, true) ==
                           file + Encode(step, blockOffset, left, begin)
        invariant !more ==> old(file) + Encode(step, |old(file)| % 32768, slice, true) == file
        decreases if more then |left| + 1 else 0, if blockOffset == 32761 then 1 else 0
      {
        ghost var was, at, data, first := file, blockOffset, left, begin;
        var leftover := 32768 - blockOffset;
        if leftover < 7 {
          file := file + Zeros(leftover);
          blockOffset := 0;
        }
        var avail := 32768 - blockOffset - 7;
        var n := if |left| < avail then |left| else avail;
        var end := n == |left|;
        EmitPhysicalRecord(FragmentKind(begin, end), left[..n]);
        EncodeUnfolds(step, was, at, data, first, blockOffset - 7 - n, n);
        left := left[n..];
        begin := false;
        more := |left| > 0;
      }
    }

    method EmitPhysicalRecord(kind: byte, data: seq<byte>)
      requires Valid() && blockOffset + 7 + |data| <= 32768
      modifies this
      ensures Valid() && blockOffset == old(blockOffset) + 7 + |data|
      ensures file == old(file) + Fragment(step, kind, data)
    {
      hide Fixed, Mask, Extend;
      var crc := Mask(Extend(step, Extend(step, 0, [kind]), data));
      file := file + (Fixed(crc, 4) + [|data| % 256, |data| / 256, kind]);
      file := file + data;
      blockOffset := blockOffset + 7 + |data|;
      assert file == old(file) + Fragment(step, kind, data);
      SameShift(old(blockOffset), old(|file|), 7 + |data|);
    }
  }

  lemma SameShift(a: nat, b: nat, k: nat)
    requires a % 32768 == b % 32768
    ensures (a + k) % 32768 == (b + k) % 32768
  {
  }

  // ----- reading, described by file positions -----

  /** A physical record: its type (or EOF or BAD), its payload, where the next one starts, and the sizes of the drops
      reported on the way. */
  datatype Physical = Physical(kind: byte, data: seq<byte>, next: nat, reports: seq<nat>)

  function BlockEnd(p: nat): nat { p - p % 32768 + 32768 }

  /** The end of the part of p's block that the file holds. */
  function ReadEnd(f: seq<byte>, p: nat): nat {
    if |f| < BlockEnd(p) then |f| else BlockEnd(p)
  }

  function Length(lo: byte, hi: byte): nat { lo as int + 256 * (hi as int) }

  /** The record at the front of the buffer, which starts at file offset p; `eof` says that the block was short. */
  function ParseBuffer(step: CrcStep, checksum: bool, buffer: seq<byte>, eof: bool, p: nat): (r: Physical)
    requires |buffer| >= 7
    ensures p < r.next <= p + |buffer|
  {
    var length, kind, end := Length(buffer[4], buffer[5]), buffer[6], p + |buffer|;
    if 7 + length > |buffer| then
      if eof then Physical(EOF, [], end, []) else Physical(BAD, [], end, [|buffer|])
    else if kind == 0 && length == 0 then Physical(BAD, [], end, [])
    else if checksum && Extend(step, 0, buffer[6..7 + length]) != Unmask(DecodeFixed(buffer[..4]) % 0x1_0000_0000) then
      Physical(BAD, [], end, [|buffer|])
    else Physical(kind, buffer[7..7 + length], p + 7 + length, [])
  }

  /** The next physical record at or after p: fewer than seven bytes at the end of a full block are a trailer. */
  function ReadPhysical(step: CrcStep, checksum: bool, f: seq<byte>, p: nat): (r: Physical)
    requires p <= |f|
    ensures p <= r.next <= |f| && (r.kind != EOF ==> p < r.next)
    decreases |f| - p
  {
    var end := ReadEnd(f, p);
    if end - p >= 7 then ParseBuffer(step, checksum, f[p..end], end < BlockEnd(p), p)
    else if end < BlockEnd(p) then Physical(EOF, [], |f|, [])
    else ReadPhysical(step, checksum, f, end)
  }

  datatype Logical = Logical(record: Option<seq<byte>>, next: nat, reports: seq<nat>)

  function Reporting(reports: seq<nat>, l: Logical): Logical {
    l.(reports := reports + l.reports)
  }

  /** What the reader of logical records does with one physical record: return, or go on with the bytes gathered; and
      the drops it reports. */
  datatype Step =
    | Done(record: Option<seq<byte>>, drops: seq<nat>)
    | More(inside: bool, scratch: seq<byte>, drops: seq<nat>)

  /** A record that starts in the middle of another one: the bytes gathered so far are dropped. */
  function Unfinished(inside: bool, scratch: seq<byte>): seq<nat> {
    if inside && scratch != [] then [|scratch|] else []
  }

  function Absorb(kind: byte, data: seq<byte>, inside: bool, scratch: seq<byte>): Step {
    if kind == FULL then Done(Some(data), Unfinished(inside, scratch))
    else if kind == FIRST then More(true, data, Unfinished(inside, scratch))
    else if kind == MIDDLE then if inside then More(true, scratch + data, []) else More(false, scratch, [|data|])
    else if kind == LAST then if inside then Done(Some(scratch + data), []) else More(false, scratch, [|data|])
    else if kind == EOF then Done(None, [])
    else if kind == BAD then if inside then More(false, [], [|scratch|]) else More(false, scratch, [])
    else More(false, [], [|data| + if inside then |scratch| else 0])
  }

  /** The next logical record, when `scratch` has been gathered and `inside` says whether a record is open. */
  function ReadLogical(step: CrcStep, checksum: bool, f: seq<byte>, p: nat, inside: bool,
                       scratch: seq<byte>): (r: Logical)
    requires p <= |f|
    ensures p <= r.next <= |f| && (r.record.Some? ==> p < r.next)
    decreases |f| - p
  {
    var x := ReadPhysical(step, checksum, f, p);
    match Absorb(x.kind, x.data, inside, scratch)
    case Done(record, drops) => Logical(record, x.next, x.reports + drops)
    case More(inside', scratch', drops) =>
      Reporting(x.reports + drops, ReadLogical(step, checksum, f, x.next, inside', scratch'))
  }

  /** Every record from p on, and every drop reported. */
  function ReadAll(step: CrcStep, checksum: bool, f: seq<byte>, p: nat): (seq<seq<byte>>, seq<nat>)
    requires p <= |f|
    decreases |f| - p
  {
    var l := ReadLogical(step, checksum, f, p, false, []);
    if l.record.None? then ([], l.reports)
    else
      var rest := ReadAll(step, checksum, f, l.next);
      ([l.record.value] + rest.0, l.reports + rest.1)
  }

  // ----- reading, a block at a time -----

  /** The buffer holds the unread part of the last block read, which ends at `end`. */
  ghost predicate ValidBuffer(f: seq<byte>, end: nat, buffer: seq<byte>, eof: bool) {
    && |buffer| <= end <= |f| && buffer == f[end - |buffer|..end]
    && (if eof then end == |f| else end % 32768 == 0)
    && (buffer != [] ==> end == ReadEnd(f, end - |buffer|) && (eof <==> end < BlockEnd(end - |buffer|)))
  }

  lemma DropInBlock(f: seq<byte>, end: nat, buffer: seq<byte>, eof: bool, k: nat)
    requires ValidBuffer(f, end, buffer, eof) && k <= |buffer|
    ensures ValidBuffer(f, end, buffer[k..], eof)
  {
    var p := end - |buffer|;
    assert buffer[k..] == f[p + k..end];
  }

  lemma ReadPhysicalUnfolds(step: CrcStep, checksum: bool, f: seq<byte>, p: nat)
    requires p <= |f|
    ensures var end, x := ReadEnd(f, p), ReadPhysical(step, checksum, f, p);
            if end - p >= 7 then x == ParseBuffer(step, checksum, f[p..end], end < BlockEnd(p), p)
            else if end < BlockEnd(p) then x == Physical(EOF, [], |f|, [])
            else x == ReadPhysical(step, checksum, f, end)
  {
  }

  /** One physical record of a logical one, after `dropped` was reported. */
  lemma ReadLogicalUnfolds(step: CrcStep, checksum: bool, f: seq<byte>, p: nat, inside: bool, scratch: seq<byte>,
                           dropped: seq<nat>)
    requires p <= |f|
    ensures var x := ReadPhysical(step, checksum, f, p);
            var a, l := Absorb(x.kind, x.data, inside, scratch),
                Reporting(dropped, ReadLogical(step, checksum, f, p, inside, scratch));
            && (a.Done? ==> l == Logical(a.record, x.next, dropped + x.reports + a.drops))
            && (a.More? ==>
               l == Reporting(dropped + x.reports + a.drops,
               ReadLogical(step, checksum, f, x.next, a.inside, a.scratch)))
  {
    hide ReadPhysical, Absorb;
    var x := ReadPhysical(step, checksum, f, p);
    var a := Absorb(x.kind, x.data, inside, scratch);
    assert dropped + (x.reports + a.drops) == dropped + x.reports + a.drops;
    if a.More? {
      var l := ReadLogical(step, checksum, f, x.next, a.inside, a.scratch);
      assert dropped + (x.reports + a.drops + l.reports) == dropped + x.reports + a.drops + l.reports;
    }
  }

  lemma EofEnds(data: seq<byte>, inside: bool, scratch: seq<byte>)
    ensures Absorb(EOF, data, inside, scratch).Done?
  {
  }

  lemma ReportingNothing(l: Logical)
    ensures Reporting([], l) == l
  {
  }

  class Reader {
    const step: CrcStep
    const checksum: bool
    const file: seq<byte>
    var bufferEnd: nat        // end_of_buffer_offset_, where the next block is read
    var buffer: seq<byte>
    var eof: bool
    var reports: seq<nat>

    ghost function At(): int
      reads `bufferEnd, `buffer
    {
      bufferEnd - |buffer|
    }

    ghost predicate Valid()
      reads `bufferEnd, `buffer, `eof
      ensures Valid() ==> 0 <= At() <= bufferEnd <= |file|
    {
      ValidBuffer(file, bufferEnd, buffer, eof)
    }

    constructor (step: CrcStep, checksum: bool, file: seq<byte>)
      ensures Valid() && At() == 0 && reports == [] && this.file == file && this.step == step
              && this.checksum == checksum
    {
      this.step, this.checksum, this.file := step, checksum, file;
      bufferEnd, buffer, eof, reports := 0, [], false, [];
    }

    method ReadPhysicalRecord() returns (kind: byte, data: seq<byte>)
      requires Valid()
      modifies this
      ensures Valid()
      ensures var x := ReadPhysical(step, checksum, file, old(At()));
              kind == x.kind && data == x.data && At() == x.next && reports == old(reports) + x.reports
    {
      hide ReadPhysical, ParseBuffer;
      while true
        invariant Valid() && reports == old(reports)
        invariant ReadPhysical(step, checksum, file, At()) == ReadPhysical(step, checksum, file, old(At()))
        decreases !eof, |file| - bufferEnd
      {
        ReadPhysicalUnfolds(step, checksum, file, At());
        if |buffer| < 7 {
          if eof {
            buffer := [];
            return EOF, [];
          }
          ReadBlock();
          continue;
        }
        kind, data := Parse();
        return;
      }
    }

    /** Fewer than seven bytes are left of a full block: read the next one. */
    method ReadBlock()
      requires Valid() && !eof && |buffer| < 7
      modifies this
      ensures Valid() && At() == old(bufferEnd) && reports == old(reports)
      ensures eof || bufferEnd > old(bufferEnd)
    {
      var n := if |file| - bufferEnd < 32768 then |file| - bufferEnd else 32768;
      buffer := file[bufferEnd..bufferEnd + n];
      bufferEnd := bufferEnd + n;
      if n < 32768 {
        eof := true;
      }
    }

    /** The part of ReadPhysicalRecord after the header is known to be in the buffer. */
    method Parse() returns (kind: byte, data: seq<byte>)
      requires Valid() && |buffer| >= 7
      modifies this
      ensures Valid()
      ensures var x := ParseBuffer(step, checksum, old(buffer), old(eof), old(At()));
              kind == x.kind && data == x.data && At() == x.next && reports == old(reports) + x.reports
    {
      hide Extend, Unmask, DecodeFixed, Length, ValidBuffer;
      DropInBlock(file, bufferEnd, buffer, eof, |buffer|);
      var length := Length(buffer[4], buffer[5]);
      kind := buffer[6];
      if 7 + length > |buffer| {
        var drop := |buffer|;
        buffer := [];
        if !eof {
          reports := reports + [drop];
          return BAD, [];
        }
        return EOF, [];
      }
      if kind == 0 && length == 0 {
        buffer := [];
        return BAD, [];
      }
      if checksum && Extend(step, 0, buffer[6..7 + length]) != Unmask(DecodeFixed(buffer[..4]) % 0x1_0000_0000) {
        var drop := |buffer|;
        buffer := [];
        reports := reports + [drop];
        return BAD, [];
      }
      data := buffer[7..7 + length];
      DropInBlock(file, bufferEnd, buffer, eof, 7 + length);
      buffer := buffer[7 + length..];
    }

    /** The switch of ReadRecord on the type of a physical record. */
    method Handle(kind: byte, fragment: seq<byte>, inside: bool, scratch: seq<byte>) returns (s: Step)
      modifies `reports
      ensures s == Absorb(kind, fragment, inside, scratch) && reports == old(reports) + s.drops
    {
      if kind == FULL || kind == FIRST {
        var drops := if inside && scratch != [] then [|scratch|] else [];
        reports := reports + drops;
        s := if kind == FULL then Done(Some(fragment), drops) else More(true, fragment, drops);
      } else if kind == MIDDLE || kind == LAST {
        if !inside {
          reports := reports + [|fragment|];
          s := More(false, scratch, [|fragment|]);
        } else {
          s := if kind == MIDDLE then More(true, scratch + fragment, []) else Done(Some(scratch + fragment), []);
        }
      } else if kind == EOF {
        s := Done(None, []);
      } else if kind == BAD {
        if inside {
          reports := reports + [|scratch|];
          s := More(false, [], [|scratch|]);
        } else {
          s := More(false, scratch, []);
        }
      } else {
        var n := |fragment| + if inside then |scratch| else 0;
        reports := reports + [n];
        s := More(false, [], [n]);
      }
    }

    method ReadRecord() returns (record: Option<seq<byte>>)
      requires Valid()
      modifies this
      ensures Valid()
      ensures var l := ReadLogical(step, checksum, file, old(At()), false, []);
              record == l.record && At() == l.next && reports == old(reports) + l.reports
    {
      hide ReadPhysical, ReadLogical, ValidBuffer, Reporting, Absorb;
      var scratch, inside := [], false;
      ReportingNothing(ReadLogical(step, checksum, file, At(), false, []));
      ghost var dropped: seq<nat> := [];
      while true
        invariant Valid() && reports == old(reports) + dropped
        invariant ReadLogical(step, checksum, file, old(At()), false, [])
               == Reporting(dropped, ReadLogical(step, checksum, file, At(), inside, scratch))
        decreases |file| - At()
      {
        ReadLogicalUnfolds(step, checksum, file, At(), inside, scratch, dropped);
        ghost var seen := ReadPhysical(step, checksum, file, At()).reports;
        var kind, fragment := ReadPhysicalRecord();
        var s := Handle(kind, fragment, inside, scratch);
        assert reports == old(reports) + (dropped + seen + s.drops);
        if s.Done? {
          return s.record;
        }
        assert kind != EOF by { EofEnds(fragment, inside, scratch); }
        inside, scratch := s.inside, s.scratch;
        dropped := dropped + seen + s.drops;
      }
    }
  }

  // ----- reading back what was written -----

  lemma FragmentParts(step: CrcStep, kind: byte, data: seq<byte>)
    requires |data| <= 32761
    ensures var x := Fragment(step, kind, data);
            && |x| == 7 + |data|
            && x[..4] == Fixed(Mask(Extend(step, 0, [kind] + data)), 4)
            && Length(x[4], x[5]) == |data| && x[6] == kind
            && x[6..] == [kind] + data && x[7..] == data
  {
    ExtendConcat(step, 0, [kind], data);
  }

  lemma ParseFragment(step: CrcStep, checksum: bool, buffer: seq<byte>, eof: bool, p: nat, kind: byte, data: seq<byte>)
    requires kind != 0 && |data| <= 32761 && |buffer| >= 7 + |data|
    requires buffer[..7 + |data|] == Fragment(step, kind, data)
    ensures ParseBuffer(step, checksum, buffer, eof, p) == Physical(kind, data, p + 7 + |data|, [])
  {
    hide Fragment, Extend, Mask, Unmask, Fixed, DecodeFixed;
    var n, x := |data|, Fragment(step, kind, data);
    FragmentParts(step, kind, data);
    assert buffer[4] == x[4] && buffer[5] == x[5] && buffer[6] == x[6];
    assert buffer[..4] == x[..4] && buffer[6..7 + n] == x[6..] && buffer[7..7 + n] == x[7..];
    Fixed32RoundTrip(Mask(Extend(step, 0, [kind] + data)));
    UnmaskMask(Extend(step, 0, [kind] + data));
  }

  lemma ReadFragment(step: CrcStep, checksum: bool, f: seq<byte>, p: nat, kind: byte, data: seq<byte>)
    requires p + 7 + |data| <= |f| && p % 32768 + 7 + |data| <= 32768 && kind != 0
    requires f[p..p + 7 + |data|] == Fragment(step, kind, data)
    ensures ReadPhysical(step, checksum, f, p) == Physical(kind, data, p + 7 + |data|, [])
  {
    hide Fragment, ParseBuffer;
    var end := ReadEnd(f, p);
    assert f[p..end][..7 + |data|] == f[p..p + 7 + |data|];
    ParseFragment(step, checksum, f[p..end], end < BlockEnd(p), p, kind, data);
  }

  /** A fragment that the cut reaches into ends the reading quietly. */
  lemma CutFragment(step: CrcStep, checksum: bool, g: seq<byte>, c: nat, p: nat, kind: byte, data: seq<byte>)
    requires p <= c < p + 7 + |data| <= |g| && p % 32768 + 7 + |data| <= 32768
    requires g[p..p + 7 + |data|] == Fragment(step, kind, data)
    ensures ReadPhysical(step, checksum, g[..c], p) == Physical(EOF, [], c, [])
  {
    hide Fragment, Extend, Mask, Unmask, DecodeFixed;
    var n, x, f := |data|, Fragment(step, kind, data), g[..c];
    if c >= p + 7 {
      FragmentParts(step, kind, data);
      assert x[4] == g[p + 4] && x[5] == g[p + 5];
      assert f[p..c][4] == g[p + 4] && f[p..c][5] == g[p + 5];
    }
  }

  lemma SkipTrailer(step: CrcStep, checksum: bool, f: seq<byte>, p: nat)
    requires p <= |f|
    ensures var q := p + Trailer(p % 32768);
            if q <= |f| then ReadPhysical(step, checksum, f, p) == ReadPhysical(step, checksum, f, q)
            else ReadPhysical(step, checksum, f, p) == Physical(EOF, [], |f|, [])
  {
  }

  /** The parts of an encoded record: trailer, first fragment, rest. */
  lemma EncodeParts(step: CrcStep, at: nat, data: seq<byte>, begin: bool)
    requires at <= 32768
    ensures var n, t := Take(at, |data|), Trailer(at);
            var e, x, rest := Encode(step, at, data, begin),
                Fragment(step, FragmentKind(begin, n == |data|), data[..n]), EncodeRest(step, at, data);
            && |x| == 7 + n && |e| == t + 7 + n + |rest|
            && e[t..t + 7 + n] == x && e[t + 7 + n..t + 7 + n + |rest|] == rest
  {
  }

  /** Record data is encoded in g at offset p, which is offset `at` of its block. */
  ghost predicate EncodedAt(step: CrcStep, g: seq<byte>, p: nat, at: nat, data: seq<byte>, begin: bool) {
    && at == p % 32768
    && var e := Encode(step, at, data, begin); p + |e| <= |g| && g[p..p + |e|] == e
  }

  lemma FirstFragmentAt(step: CrcStep, g: seq<byte>, p: nat, at: nat, data: seq<byte>, begin: bool)
    requires EncodedAt(step, g, p, at, data, begin)
    ensures var n, s := Take(at, |data|), p + Trailer(at);
            && s + 7 + n <= |g| && g[s..s + 7 + n] == Fragment(step, FragmentKind(begin, n == |data|), data[..n])
            && s % 32768 + 7 + n <= 32768
  {
    hide Encode, EncodeRest, Fragment;
    EncodeParts(step, at, data, begin);
    SliceOf(g, p, Encode(step, at, data, begin), Trailer(at), 7 + Take(at, |data|));
  }

  /** The first fragment of a record, cut or not. */
  lemma ReadFirst(step: CrcStep, checksum: bool, g: seq<byte>, c: nat, p: nat, at: nat, data: seq<byte>, begin: bool)
    requires p <= c <= |g| && EncodedAt(step, g, p, at, data, begin)
    ensures var n := Take(at, |data|);
            var q := p + Trailer(at) + 7 + n;
            ReadPhysical(step, checksum, g[..c], p)
            == if q <= c then Physical(FragmentKind(begin, n == |data|), data[..n], q, []) else Physical(EOF, [], c, [])
  {
    hide ReadPhysical, Fragment, Take, Trailer, Encode;
    var n, s, kind := Take(at, |data|), p + Trailer(at), FragmentKind(begin, Take(at, |data|) == |data|);
    FirstFragmentAt(step, g, p, at, data, begin);
    SkipTrailer(step, checksum, g[..c], p);
    if s + 7 + n <= c {
      assert g[..c][s..s + 7 + n] == g[s..s + 7 + n];
      ReadFragment(step, checksum, g[..c], s, kind, data[..n]);
    } else if s <= c {
      CutFragment(step, checksum, g, c, s, kind, data[..n]);
    }
  }

  lemma SameBlockOffset(p: nat, k: nat)
    ensures (p + Trailer(p % 32768) + k) % 32768 == (Start(p % 32768) + k) % 32768
  {
  }

  /** The rest of the record follows its first fragment. */
  lemma RestFollows(step: CrcStep, g: seq<byte>, p: nat, at: nat, data: seq<byte>, begin: bool)
    requires EncodedAt(step, g, p, at, data, begin)
    ensures var n := Take(at, |data|);
            var q := p + Trailer(at) + 7 + n;
            var end := p + |Encode(step, at, data, begin)|;
            if n == |data| then end == q
            else
              var at' := (Start(at) + 7 + n) % 32768;
              EncodedAt(step, g, q, at', data[n..], false) && end == q + |Encode(step, at', data[n..], false)| > q
  {
    hide Encode, Fragment;
    var n := Take(at, |data|);
    EncodeParts(step, at, data, begin);
    if n < |data| {
      FullBlockIsNewBlock(step, data[n..], false);
      EncodeParts(step, Start(at) + 7 + n, data[n..], false);
      SameBlockOffset(p, 7 + n);
      SliceOf(g, p, Encode(step, at, data, begin), Trailer(at) + 7 + n, |EncodeRest(step, at, data)|);
    }
  }

  /** A physical record that reports nothing and leaves the logical record open. */
  lemma ReadMore(step: CrcStep, checksum: bool, f: seq<byte>, p: nat, inside: bool, scratch: seq<byte>,
                 scratch': seq<byte>)
    requires p <= |f|
    requires var x := ReadPhysical(step, checksum, f, p);
             x.reports == [] && Absorb(x.kind, x.data, inside, scratch) == More(true, scratch', [])
    ensures var x := ReadPhysical(step, checksum, f, p);
            ReadLogical(step, checksum, f, p, inside, scratch) == ReadLogical(step, checksum, f, x.next, true, scratch')
  {
  }

  lemma {:induction false} ReadEncoded(step: CrcStep, checksum: bool, g: seq<byte>, c: nat, p: nat, at: nat,
                                       data: seq<byte>, begin: bool, scratch: seq<byte>)
    requires p <= c <= |g| && (begin ==> scratch == []) && EncodedAt(step, g, p, at, data, begin)
    ensures var end := p + |Encode(step, at, data, begin)|;
            ReadLogical(step, checksum, g[..c], p, !begin, scratch)
            == if end <= c then Logical(Some(scratch + data), end, []) else Logical(None, c, [])
    decreases |data|, if at == 32761 then 1 else 0
  {
    hide Encode, EncodedAt, ReadPhysical, Reporting;
    assert at < 32768 by { OffsetInBlock(step, g, p, at, data, begin); }
    var n, f := Take(at, |data|), g[..c];
    var q := p + Trailer(at) + 7 + n;
    ReadFirst(step, checksum, g, c, p, at, data, begin);
    RestFollows(step, g, p, at, data, begin);
    if n == |data| {
      assert data[..n] == data;
      assert begin ==> scratch + data == data;
    } else if q <= c {
      ReadEncoded(step, checksum, g, c, q, (Start(at) + 7 + n) % 32768, data[n..], false, scratch + data[..n]);
      assert scratch + data[..n] + data[n..] == scratch + data;
      assert begin ==> scratch + data[..n] == data[..n];
      ReadMore(step, checksum, f, p, !begin, scratch, scratch + data[..n]);
    }
  }

  lemma OffsetInBlock(step: CrcStep, g: seq<byte>, p: nat, at: nat, data: seq<byte>, begin: bool)
    requires EncodedAt(step, g, p, at, data, begin)
    ensures at < 32768
  {
  }

  lemma SliceOf(g: seq<byte>, p: nat, e: seq<byte>, i: nat, n: nat)
    requires i + n <= |e| && p + |e| <= |g| && g[p..p + |e|] == e
    ensures g[p + i..p + i + n] == e[i..i + n]
  {
    var a, b := g[p + i..p + i + n], e[i..i + n];
    forall k | 0 <= k < n ensures a[k] == b[k] {
      assert g[p..p + |e|][i + k] == g[p + i + k];
    }
  }

  lemma {:induction false} LogPrefix(step: CrcStep, records: seq<seq<byte>>, k: nat)
    requires k <= |records|
    ensures LogBytes(step, records[..k]) <= LogBytes(step, records)
  {
    if k < |records| {
      var rest := records[..|records| - 1];
      LogPrefix(step, rest, k);
      assert rest[..k] == records[..k];
    } else {
      assert records[..k] == records;
    }
  }

  /** How many of the records end at or before the cut c. */
  ghost predicate EndBefore(step: CrcStep, records: seq<seq<byte>>, c: nat, m: nat) {
    && m <= |records| && |LogBytes(step, records[..m])| <= c
    && (m < |records| ==> c < |LogBytes(step, records[..m + 1])|)
  }

  lemma {:induction false} SomeEndBefore(step: CrcStep, records: seq<seq<byte>>, c: nat) returns (m: nat)
    ensures EndBefore(step, records, c, m)
  {
    if |LogBytes(step, records)| <= c {
      m := |records|;
      assert records[..m] == records;
    } else {
      var rest := records[..|records| - 1];
      m := SomeEndBefore(step, rest, c);
      assert rest[..m] == records[..m];
      if m == |rest| {
        assert records[..m + 1] == records;
      } else {
        assert rest[..m + 1] == records[..m + 1];
      }
    }
  }

  lemma ReadOneMore(step: CrcStep, checksum: bool, f: seq<byte>, p: nat, record: seq<byte>, q: nat,
                    rest: seq<seq<byte>>)
    requires p <= q <= |f| && ReadLogical(step, checksum, f, p, false, []) == Logical(Some(record), q, [])
    requires ReadAll(step, checksum, f, q) == (rest, [])
    ensures ReadAll(step, checksum, f, p) == ([record] + rest, [])
  {
    hide ReadLogical;
    var l, r := ReadLogical(step, checksum, f, p, false, []), ReadAll(step, checksum, f, q);
    assert l.reports + r.1 == [];
  }

  lemma NothingAtTheEnd(step: CrcStep, checksum: bool, f: seq<byte>)
    ensures ReadAll(step, checksum, f, |f|) == ([], [])
  {
    assert ReadPhysical(step, checksum, f, |f|) == Physical(EOF, [], |f|, []);
  }

  /** Where record k is in the log. */
  lemma RecordAt(step: CrcStep, records: seq<seq<byte>>, k: nat)
    requires k < |records|
    ensures var g, p, q := LogBytes(step, records), |LogBytes(step, records[..k])|, |LogBytes(step, records[..k + 1])|;
            var e := Encode(step, p % 32768, records[k], true);
            p <= q == p + |e| <= |g| && g[p..q] == e
  {
    hide Encode;
    LogPrefix(step, records, k + 1);
    assert records[..k + 1][..k] == records[..k];
  }

  lemma EarlierEnds(step: CrcStep, records: seq<seq<byte>>, k: nat, m: nat)
    requires k <= m <= |records|
    ensures |LogBytes(step, records[..k])| <= |LogBytes(step, records[..m])|
  {
    LogPrefix(step, records[..m], k);
    assert records[..m][..k] == records[..k];
  }

  lemma {:induction false} ReadFrom(step: CrcStep, checksum: bool, records: seq<seq<byte>>, c: nat, m: nat, k: nat)
    requires c <= |LogBytes(step, records)| && EndBefore(step, records, c, m) && k <= m
    ensures |LogBytes(step, records[..k])| <= c
    ensures ReadAll(step, checksum, LogBytes(step, records)[..c], |LogBytes(step, records[..k])|) == (records[k..m], [])
    decreases m - k
  {
    hide Encode, ReadLogical, LogBytes;
    EarlierEnds(step, records, k, m);
    var g, p := LogBytes(step, records), |LogBytes(step, records[..k])|;
    if k < |records| {
      RecordAt(step, records, k);
      ReadEncoded(step, checksum, g, c, p, p % 32768, records[k], true, []);
      if k < m {
        ReadFrom(step, checksum, records, c, m, k + 1);
        assert [] + records[k] == records[k];
        assert records[k..m] == [records[k]] + records[k + 1..m];
        ReadOneMore(step, checksum, g[..c], p, records[k], |LogBytes(step, records[..k + 1])|, records[k + 1..m]);
      } else {
        assert ReadLogical(step, checksum, g[..c], p, false, []) == Logical(None, c, []) && records[k..m] == [];
      }
    } else {
      assert records[..k] == records && c == p && records[k..m] == [];
      NothingAtTheEnd(step, checksum, g[..c]);
    }
  }

  /** Cut the log at any byte: reading it from the start returns, in order, exactly the records that end at or before
      the cut, and reports no corruption. */
  lemma TornTail(step: CrcStep, checksum: bool, records: seq<seq<byte>>, c: nat, m: nat)
    requires c <= |LogBytes(step, records)| && EndBefore(step, records, c, m)
    ensures ReadAll(step, checksum, LogBytes(step, records)[..c], 0) == (records[..m], [])
  {
    ReadFrom(step, checksum, records, c, m, 0);
    assert records[..0] == [];
  }

  lemma LogGrows(step: CrcStep, records: seq<seq<byte>>, record: seq<byte>)
    ensures var before := LogBytes(step, records);
            LogBytes(step, records + [record]) == before + Encode(step, |before| % 32768, record, true)
  {
    assert (records + [record])[..|records|] == records;
  }

  /** A writer, closed and reopened between any two records, appends what a writer that is never closed appends. */
  method WriteRecords(step: CrcStep, records: seq<seq<byte>>, reopen: seq<bool>) returns (file: seq<byte>)
    requires |reopen| == |records|
    ensures file == LogBytes(step, records)
  {
    hide Encode;
    var w := new Writer(step);
    for i := 0 to |records|
      invariant fresh(w) && w.Valid() && w.step == step && w.file == LogBytes(step, records[..i])
    {
      if reopen[i] {
        w := new Writer.Reopen(step, w.file);
      }
      LogGrows(step, records[..i], records[i]);
      assert records[..i] + [records[i]] == records[..i + 1];
      w.AddRecord(records[i]);
    }
    assert records[..|records|] == records;
    return w.file;
  }

  method ReadRecords(step: CrcStep, checksum: bool, f: seq<byte>) returns (records: seq<seq<byte>>, reports: seq<nat>)
    ensures (records, reports) == ReadAll(step, checksum, f, 0)
  {
    hide ReadLogical, ValidBuffer;
    var r := new Reader(step, checksum, f);
    records := [];
    ghost var all := ReadAll(step, checksum, f, 0);
    while true
      invariant fresh(r) && r.Valid() && r.file == f && r.step == step && r.checksum == checksum
      invariant var rest := ReadAll(step, checksum, f, r.At()); all.0 == records + rest.0 && all.1 == r.reports + rest.1
      decreases |f| - r.At()
    {
      ghost var rest := ReadAll(step, checksum, f, r.At());
      var record := r.ReadRecord();
      if record.None? {
        assert rest.0 == [] && records + [] == records;
        return records, r.reports;
      }
      records := records + [record.value];
    }
  }

  /** Write, crash, recover. */
  method WriteCutRead(step: CrcStep, checksum: bool, records: seq<seq<byte>>, reopen: seq<bool>, c: nat)
    returns (kept: seq<seq<byte>>, reports: seq<nat>)
    requires |reopen| == |records| && c <= |LogBytes(step, records)|
    ensures EndBefore(step, records, c, |kept|) && kept == records[..|kept|] && reports == []
  {
    hide LogBytes, ReadAll;
    var file := WriteRecords(step, records, reopen);
    ghost var m := SomeEndBefore(step, records, c);
    TornTail(step, checksum, records, c, m);
    kept, reports := ReadRecords(step, checksum, file[..c]);
  }
}
