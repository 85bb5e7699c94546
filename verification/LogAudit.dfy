/** What becomes of every byte of a log file, damaged or not: db/log_reader.cc.  A file is cut into frames; the reader
    returns or reports what the frames hold, or loses it without a word. */
module LogAudit {
  import opened Format
  import opened Coding
  import opened Log

  /** A frame of a file: a record with its payload, or what stands in its place.
      - Damaged: the rest of a full block behind an overlong length, or of any block behind a wrong checksum
      - Blank: a header with type and length zero, and the rest of its block
      - Cut: a header with a length that goes beyond the end of the file, and the rest of the file
      - Short: fewer than seven bytes, at the end of a block or of the file */
  datatype Frame =
    | Whole(kind: byte, data: seq<byte>) | Damaged(size: nat) | Blank(behind: nat) | Cut(behind: nat) | Short(size: nat)

  datatype Placed = Placed(at: nat, frame: Frame)

  function Size(x: Frame): nat {
    match x
    case Whole(_, data) => 7 + |data|
    case Blank(behind) => 7 + behind
    case Cut(behind) => 7 + behind
    case Damaged(n) => n
    case Short(n) => n
  }

  function FrameAt(step: CrcStep, checksum: bool, f: seq<byte>, p: nat): (x: Frame)
    requires p < |f|
    ensures 0 < Size(x) <= |f| - p && (x.Cut? ==> p + Size(x) == |f|)
  {
    var end := ReadEnd(f, p);
    var n := end - p;
    if n < 7 then Short(n)
    else
      var length, kind := Length(f[p + 4], f[p + 5]), f[p + 6];
      if 7 + length > n then if end < BlockEnd(p) then Cut(n - 7) else Damaged(n)
      else if kind == 0 && length == 0 then Blank(n - 7)
      else if checksum && Extend(step, 0, f[p + 6..p + 7 + length]) != Unmask(DecodeFixed(f[p..p + 4]) % 0x1_0000_0000)
      then Damaged(n)
      else Whole(kind, f[p + 7..p + 7 + length])
  }

  function Frames(step: CrcStep, checksum: bool, f: seq<byte>, p: nat): (fs: seq<Placed>)
    requires p <= |f|
    decreases |f| - p
  {
    if p == |f| then []
    else
      var x := FrameAt(step, checksum, f, p);
      [Placed(p, x)] + Frames(step, checksum, f, p + Size(x))
  }

  // ----- the reader, on frames -----

  function Reported(n: nat, s: Step): Step {
    s.(drops := [n] + s.drops)
  }

  function Handled(x: Frame, inside: bool, scratch: seq<byte>): Step {
    match x
    case Whole(kind, data) => Absorb(kind, data, inside, scratch)
    case Damaged(n) => Reported(n, Absorb(BAD, [], inside, scratch))
    case Blank(_) => Absorb(BAD, [], inside, scratch)
    case Cut(_) => Done(None, [])
    case Short(_) => More(inside, scratch, [])
  }

  /** The records assembled from frames, and the drops reported. */
  function Assembled(fs: seq<Placed>, inside: bool, scratch: seq<byte>): (seq<seq<byte>>, seq<nat>)
    decreases |fs|, 0
  {
    if fs == [] then ([], []) else Continued(Handled(fs[0].frame, inside, scratch), fs[1..])
  }

  function Continued(s: Step, rest: seq<Placed>): (seq<seq<byte>>, seq<nat>)
    decreases |rest|, 1
  {
    if s.More? then
      var r := Assembled(rest, s.inside, s.scratch); (r.0, s.drops + r.1)
    else if s.record.None? then ([], s.drops)
    else
      var r := Assembled(rest, false, []); ([s.record.value] + r.0, s.drops + r.1)
  }

  /** The physical record that the reader finds at p is the first frame there that is not short. */
  lemma PhysicalIsFrame(step: CrcStep, checksum: bool, f: seq<byte>, p: nat)
    requires p < |f|
    ensures var x, r := FrameAt(step, checksum, f, p), ReadPhysical(step, checksum, f, p);
            match x
            case Whole(kind, data) => r == Physical(kind, data, p + Size(x), [])
            case Damaged(n) => r == Physical(BAD, [], p + n, [n])
            case Blank(_) => r == Physical(BAD, [], p + Size(x), [])
            case Cut(_) => r == Physical(EOF, [], p + Size(x), [])
            case Short(n) => r == ReadPhysical(step, checksum, f, p + n)
  {
    hide Extend, Unmask, DecodeFixed, Length;
    var end := ReadEnd(f, p);
    var buffer := f[p..end];
    if end - p >= 7 {
      var length := Length(f[p + 4], f[p + 5]);
      assert buffer[..4] == f[p..p + 4];
      if 7 + length <= end - p {
        assert buffer[6..7 + length] == f[p + 6..p + 7 + length] && buffer[7..7 + length] == f[p + 7..p + 7 + length];
      }
    }
  }

  /** What assembling gives when the frames are those from p on. */
  ghost predicate Agrees(step: CrcStep, checksum: bool, f: seq<byte>, fs: seq<Placed>, inside: bool, scratch: seq<byte>,
                         l: Logical)
  {
    && l.next <= |f|
    && Assembled(fs, inside, scratch)
       == if l.record.None? then ([], l.reports)
          else
            var rest := Assembled(Frames(step, checksum, f, l.next), false, []);
            ([l.record.value] + rest.0, l.reports + rest.1)
  }

  lemma OneFrame(x: Placed, rest: seq<Placed>, inside: bool, scratch: seq<byte>)
    ensures Assembled([x] + rest, inside, scratch) == Continued(Handled(x.frame, inside, scratch), rest)
  {
    hide Handled;
    assert ([x] + rest)[1..] == rest;
  }

  lemma FrameGoesOn(step: CrcStep, checksum: bool, f: seq<byte>, x: Placed, rest: seq<Placed>, inside: bool,
                    scratch: seq<byte>, l: Logical)
    requires Handled(x.frame, inside, scratch).More?
    requires var s := Handled(x.frame, inside, scratch); Agrees(step, checksum, f, rest, s.inside, s.scratch, l)
    ensures Agrees(step, checksum, f, [x] + rest, inside, scratch,
                   Reporting(Handled(x.frame, inside, scratch).drops, l))
  {
    hide Handled, Assembled, Frames;
    OneFrame(x, rest, inside, scratch);
    if l.record.Some? {
      var drops := Handled(x.frame, inside, scratch).drops;
      var r := Assembled(Frames(step, checksum, f, l.next), false, []).1;
      assert drops + (l.reports + r) == drops + l.reports + r;
    }
  }

  lemma {:induction false} LogicalIsAssembled(step: CrcStep, checksum: bool, f: seq<byte>, p: nat, inside: bool,
                                              scratch: seq<byte>)
    requires p <= |f|
    ensures Agrees(step, checksum, f, Frames(step, checksum, f, p), inside, scratch,
                   ReadLogical(step, checksum, f, p, inside, scratch))
    decreases |f| - p
  {
    hide ReadPhysical, FrameAt, Absorb, Assembled, ReadLogical, Agrees;
    if p == |f| {
      NothingThere(step, checksum, f, inside, scratch);
    } else {
      var x := FrameAt(step, checksum, f, p);
      FrameIsStep(step, checksum, f, p, inside, scratch);
      if Handled(x, inside, scratch).More? {
        var s, q := Handled(x, inside, scratch), p + Size(x);
        LogicalIsAssembled(step, checksum, f, q, s.inside, s.scratch);
        FrameGoesOn(step, checksum, f, Placed(p, x), Frames(step, checksum, f, q), inside, scratch,
                    ReadLogical(step, checksum, f, q, s.inside, s.scratch));
      } else {
        FrameEnds(step, checksum, f, p, inside, scratch);
      }
    }
  }

  /** One frame of the reader of logical records. */
  lemma FrameIsStep(step: CrcStep, checksum: bool, f: seq<byte>, p: nat, inside: bool, scratch: seq<byte>)
    requires p < |f|
    ensures var x, l := FrameAt(step, checksum, f, p), ReadLogical(step, checksum, f, p, inside, scratch);
            match Handled(x, inside, scratch)
            case Done(record, drops) => l == Logical(record, p + Size(x), drops)
            case More(inside', scratch', drops) =>
              l == Reporting(drops, ReadLogical(step, checksum, f, p + Size(x), inside', scratch'))
  {
    hide ReadPhysical, FrameAt, Absorb, ReadLogical, Reporting;
    var x, r := FrameAt(step, checksum, f, p), ReadPhysical(step, checksum, f, p);
    PhysicalIsFrame(step, checksum, f, p);
    OwnCodes(r.data, inside, scratch);
    ReportingNothing(ReadLogical(step, checksum, f, p, inside, scratch));
    if x.Short? {
      SamePhysical(step, checksum, f, p, p + x.size, inside, scratch);
    } else {
      ReadLogicalUnfolds(step, checksum, f, p, inside, scratch, []);
      var drops := Absorb(r.kind, r.data, inside, scratch).drops;
      assert [] + r.reports + drops == r.reports + drops;
      assert [] + drops == drops;
    }
  }

  lemma FrameEnds(step: CrcStep, checksum: bool, f: seq<byte>, p: nat, inside: bool, scratch: seq<byte>)
    requires p < |f| && Handled(FrameAt(step, checksum, f, p), inside, scratch).Done?
    ensures Agrees(step, checksum, f, Frames(step, checksum, f, p), inside, scratch,
                   ReadLogical(step, checksum, f, p, inside, scratch))
  {
    hide FrameAt, Handled, Assembled, ReadLogical;
    var x := FrameAt(step, checksum, f, p);
    FrameIsStep(step, checksum, f, p, inside, scratch);
    OneFrame(Placed(p, x), Frames(step, checksum, f, p + Size(x)), inside, scratch);
  }

  lemma OwnCodes(data: seq<byte>, inside: bool, scratch: seq<byte>)
    ensures Absorb(EOF, data, inside, scratch) == Done(None, []) && Absorb(BAD, data, inside, scratch).More?
  {
  }

  lemma SamePhysical(step: CrcStep, checksum: bool, f: seq<byte>, p: nat, q: nat, inside: bool, scratch: seq<byte>)
    requires p <= |f| && q <= |f| && ReadPhysical(step, checksum, f, p) == ReadPhysical(step, checksum, f, q)
    ensures ReadLogical(step, checksum, f, p, inside, scratch) == ReadLogical(step, checksum, f, q, inside, scratch)
  {
  }

  lemma NothingThere(step: CrcStep, checksum: bool, f: seq<byte>, inside: bool, scratch: seq<byte>)
    ensures Agrees(step, checksum, f, [], inside, scratch, ReadLogical(step, checksum, f, |f|, inside, scratch))
  {
    assert ReadPhysical(step, checksum, f, |f|) == Physical(EOF, [], |f|, []);
    assert ReadLogical(step, checksum, f, |f|, inside, scratch) == Logical(None, |f|, []);
  }

  /** The reader returns and reports what the frames of the file say. */
  lemma {:induction false} ReadAllIsAssembled(step: CrcStep, checksum: bool, f: seq<byte>, p: nat)
    requires p <= |f|
    ensures ReadAll(step, checksum, f, p) == Assembled(Frames(step, checksum, f, p), false, [])
    decreases |f| - p
  {
    hide ReadLogical, Assembled, Frames;
    var l := ReadLogical(step, checksum, f, p, false, []);
    LogicalIsAssembled(step, checksum, f, p, false, []);
    if l.record.Some? {
      ReadAllIsAssembled(step, checksum, f, l.next);
    }
  }

  // ----- what the reader loses without a report -----

  function Sum(xs: seq<nat>): nat {
    if xs == [] then 0 else xs[0] + Sum(xs[1..])
  }

  lemma {:induction false} SumConcat(a: seq<nat>, b: seq<nat>)
    ensures Sum(a + b) == Sum(a) + Sum(b)
  {
    if a == [] {
      assert a + b == b;
    } else {
      SumConcat(a[1..], b);
      assert (a + b)[1..] == a[1..] + b;
    }
  }

  lemma SumOne(n: nat)
    ensures Sum([]) == 0 && Sum([n]) == n
  {
  }

  function TotalLength(records: seq<seq<byte>>): nat {
    if records == [] then 0 else |records[0]| + TotalLength(records[1..])
  }

  function TotalSize(fs: seq<Placed>): nat {
    if fs == [] then 0 else Size(fs[0].frame) + TotalSize(fs[1..])
  }

  /** A record of type EOF or a cut one: the reader looks no further. */
  predicate Ends(x: Frame) { x.Cut? || (x.Whole? && x.kind == EOF) }

  /** The bytes of a frame that are no payload; a damaged frame is reported with its header. */
  function Header(x: Frame): nat {
    match x
    case Damaged(_) => 0
    case Short(n) => n
    case _ => 7
  }

  /** The bytes of a frame that the reader skips without a report, although it reads on. */
  function Skipped(x: Frame): nat {
    match x
    case Whole(kind, data) => if kind == BAD then |data| else 0
    case Blank(behind) => behind
    case _ => 0
  }

  /** Headers, trailers of blocks, and a header that the file ends in the middle of. */
  function Overhead(fs: seq<Placed>): nat {
    if fs == [] then 0
    else Header(fs[0].frame) + if Ends(fs[0].frame) then 0 else Overhead(fs[1..])
  }

  /** A cut frame is torn, rather than damaged, if the writer began a frame there and none behind it. */
  ghost predicate Torn(x: Placed, starts: set<nat>) {
    x.frame.Cut? && x.at in starts && forall s :: s in starts ==> !(x.at < s < x.at + Size(x.frame))
  }

  /** Payload of the one record that the file ends in the middle of. */
  ghost function Open(fs: seq<Placed>, inside: bool, scratch: seq<byte>, starts: set<nat>): nat {
    if fs == [] then |scratch|
    else
      var x := fs[0];
      if Ends(x.frame) then
        (if fs[1..] == [] then |scratch| else 0) + if x.frame.Cut? && Torn(x, starts) then x.frame.behind else 0
      else
        var s := Handled(x.frame, inside, scratch);
        if s.More? then Open(fs[1..], s.inside, s.scratch, starts) else Open(fs[1..], false, [], starts)
  }

  /** Bytes that no record returned and no report accounts for: payload of records of type BAD, what follows a blank
      header in its block, what follows a cut header that is not torn, and, after a record of type EOF, its payload, the
      record that was open, and the rest of the file. */
  ghost function Lost(fs: seq<Placed>, inside: bool, scratch: seq<byte>, starts: set<nat>): nat {
    if fs == [] then 0
    else
      var x, rest := fs[0].frame, fs[1..];
      if Ends(x) then
        TotalSize(rest) + (if rest == [] then 0 else |scratch|)
        + if x.Whole? then |x.data| else if Torn(fs[0], starts) then 0 else x.behind
      else
        Skipped(x) + var s := Handled(x, inside, scratch);
                     if s.More? then Lost(rest, s.inside, s.scratch, starts) else Lost(rest, false, [], starts)
  }

  /** A frame that does not end the reading: its payload, and what was gathered before, are returned, stay gathered, are
      reported or skipped. */
  lemma FrameAccounts(x: Frame, inside: bool, scratch: seq<byte>)
    requires !Ends(x) && (!inside ==> scratch == [])
    ensures var s := Handled(x, inside, scratch);
            && (s.Done? ==> s.record.Some?) && (s.More? && !s.inside ==> s.scratch == [])
            && |scratch| + Size(x) == Header(x) + Skipped(x) + Sum(s.drops)
                                      + if s.More? then |s.scratch| else |s.record.value|
  {
    SumOne(|scratch|);
    if x.Whole? {
      SumOne(|x.data|);
      SumOne(|x.data| + if inside then |scratch| else 0);
    } else if x.Damaged? {
      SumConcat([x.size], Absorb(BAD, [], inside, scratch).drops);
      SumOne(x.size);
    }
  }

  lemma OneRecord(record: seq<byte>, records: seq<seq<byte>>)
    ensures TotalLength([record] + records) == |record| + TotalLength(records)
  {
    assert ([record] + records)[1..] == records;
  }

  lemma {:induction false} FramesAccount(fs: seq<Placed>, inside: bool, scratch: seq<byte>, starts: set<nat>)
    requires !inside ==> scratch == []
    ensures var (records, reports) := Assembled(fs, inside, scratch);
            |scratch| + TotalSize(fs) == Overhead(fs) + TotalLength(records) + Sum(reports)
                                         + Open(fs, inside, scratch, starts) + Lost(fs, inside, scratch, starts)
    decreases |fs|
  {
    hide Handled, Sum, Torn;
    SumOne(0);
    if fs != [] {
      var x, rest := fs[0].frame, fs[1..];
      if Ends(x) {
        EndsReading(x, inside, scratch);
      } else {
        FrameAccounts(x, inside, scratch);
        var s := Handled(x, inside, scratch);
        var (inside', scratch') := if s.More? then (s.inside, s.scratch) else (false, []);
        FramesAccount(rest, inside', scratch', starts);
        var r := Assembled(rest, inside', scratch');
        SumConcat(s.drops, r.1);
        if s.Done? {
          OneRecord(s.record.value, r.0);
        }
      }
    }
  }

  lemma EndsReading(x: Frame, inside: bool, scratch: seq<byte>)
    requires Ends(x)
    ensures Handled(x, inside, scratch) == Done(None, [])
  {
  }

  lemma {:induction false} FramesCover(step: CrcStep, checksum: bool, f: seq<byte>, p: nat)
    requires p <= |f|
    ensures TotalSize(Frames(step, checksum, f, p)) == |f| - p
    decreases |f| - p
  {
    hide FrameAt;
    if p < |f| {
      FramesCover(step, checksum, f, p + Size(FrameAt(step, checksum, f, p)));
    }
  }

  /** Nothing of this frame, or because of it, is lost without a report. */
  ghost predicate Keeps(f: seq<byte>, x: Placed, starts: set<nat>) {
    match x.frame
    case Whole(kind, data) => (kind == BAD || kind == EOF ==> data == []) && (kind == EOF ==> x.at + 7 == |f|)
    case Blank(behind) => behind == 0
    case Cut(behind) => behind == 0 || Torn(x, starts)
    case _ => true
  }

  lemma {:induction false} KeptIff(step: CrcStep, checksum: bool, f: seq<byte>, p: nat, inside: bool,
                                   scratch: seq<byte>, starts: set<nat>)
    requires p <= |f|
    ensures var fs := Frames(step, checksum, f, p);
            Lost(fs, inside, scratch, starts) == 0 <==> forall x :: x in fs ==> Keeps(f, x, starts)
    decreases |f| - p
  {
    hide FrameAt, Handled, Torn;
    if p < |f| {
      var x := FrameAt(step, checksum, f, p);
      var q, s := p + Size(x), Handled(x, inside, scratch);
      var fs, rest := Frames(step, checksum, f, p), Frames(step, checksum, f, q);
      assert fs == [Placed(p, x)] + rest && fs[1..] == rest;
      FramesCover(step, checksum, f, q);
      assert (forall y :: y in fs ==> Keeps(f, y, starts)) <==>
             Keeps(f, Placed(p, x), starts) && forall y :: y in rest ==> Keeps(f, y, starts);
      if !Ends(x) {
        KeptIff(step, checksum, f, q, if s.More? then s.inside else false, if s.More? then s.scratch else [], starts);
      }
    }
  }

  /** Every byte of any file, read as a log, is a header or a trailer, or in a record returned, or in a drop
      reported, or in the one record that the file ends in the middle of, or lost without a report. Nothing is lost
      if and only if no record of type 5 or 6 has a payload, none of type 5 has anything behind it, no blank header
      has anything behind it in its block, and a cut header has nothing behind it but its own cut payload. `starts`
      are the places at which the writer began its frames. */
  lemma EveryByteAccounted(step: CrcStep, checksum: bool, f: seq<byte>, starts: set<nat>)
    ensures var fs, (records, reports) := Frames(step, checksum, f, 0), ReadAll(step, checksum, f, 0);
            && |f| == Overhead(fs) + TotalLength(records) + Sum(reports)
                      + Open(fs, false, [], starts) + Lost(fs, false, [], starts)
            && (Lost(fs, false, [], starts) == 0 <==> forall x :: x in fs ==> Keeps(f, x, starts))
  {
    hide Frames, ReadAll, Assembled;
    ReadAllIsAssembled(step, checksum, f, 0);
    FramesCover(step, checksum, f, 0);
    FramesAccount(Frames(step, checksum, f, 0), false, [], starts);
    KeptIff(step, checksum, f, 0, false, [], starts);
  }

  // ----- a log that was written, and then cut -----

  /** From p on, the file holds only records of the four types a writer uses, and trailers. */
  ghost predicate Clean(step: CrcStep, checksum: bool, g: seq<byte>, p: nat)
    requires p <= |g|
    decreases |g| - p
  {
    p < |g| ==>
      var x := FrameAt(step, checksum, g, p);
      (x.Short? || (x.Whole? && 1 <= x.kind <= 4)) && Clean(step, checksum, g, p + Size(x))
  }

  lemma FragmentIsFrame(step: CrcStep, checksum: bool, f: seq<byte>, p: nat, kind: byte, data: seq<byte>)
    requires p + 7 + |data| <= |f| && p % 32768 + 7 + |data| <= 32768 && kind != 0
    requires f[p..p + 7 + |data|] == Fragment(step, kind, data)
    ensures FrameAt(step, checksum, f, p) == Whole(kind, data)
  {
    hide Fragment, Extend, Mask, Unmask, Fixed, DecodeFixed;
    var n, x, b := |data|, Fragment(step, kind, data), f[p..p + 7 + |data|];
    FragmentParts(step, kind, data);
    assert b[4] == f[p + 4] && b[5] == f[p + 5] && b[6] == f[p + 6];
    assert b[..4] == f[p..p + 4] && b[6..] == f[p + 6..p + 7 + n] && b[7..] == f[p + 7..p + 7 + n];
    Fixed32RoundTrip(Mask(Extend(step, 0, [kind] + data)));
    UnmaskMask(Extend(step, 0, [kind] + data));
  }

  lemma TrailerIsFrame(step: CrcStep, checksum: bool, f: seq<byte>, p: nat)
    requires p < |f| && Trailer(p % 32768) > 0
    ensures var x := FrameAt(step, checksum, f, p);
            x.Short? && p + x.size == if p + Trailer(p % 32768) <= |f| then p + Trailer(p % 32768) else |f|
  {
  }

  lemma {:induction false} EncodedIsClean(step: CrcStep, checksum: bool, g: seq<byte>, p: nat, at: nat, data: seq<byte>,
                                          begin: bool)
    requires EncodedAt(step, g, p, at, data, begin)
    requires p + |Encode(step, at, data, begin)| <= |g|
             && Clean(step, checksum, g, p + |Encode(step, at, data, begin)|)
    ensures p <= |g| && Clean(step, checksum, g, p)
    decreases |data|, if at == 32761 then 1 else 0
  {
    hide Encode, EncodedAt, FrameAt, Fragment;
    OffsetInBlock(step, g, p, at, data, begin);
    var n := Take(at, |data|);
    var s := p + Trailer(at);
    FirstFragmentAt(step, g, p, at, data, begin);
    RestFollows(step, g, p, at, data, begin);
    if n < |data| {
      EncodedIsClean(step, checksum, g, s + 7 + n, (Start(at) + 7 + n) % 32768, data[n..], false);
    }
    FragmentIsFrame(step, checksum, g, s, FragmentKind(begin, n == |data|), data[..n]);
    if s > p {
      InBlock(step, g, p, at, data, begin);
      TrailerIsFrame(step, checksum, g, p);
    }
  }

  lemma InBlock(step: CrcStep, g: seq<byte>, p: nat, at: nat, data: seq<byte>, begin: bool)
    requires EncodedAt(step, g, p, at, data, begin)
    ensures at == p % 32768
  {
  }

  lemma {:induction false} WrittenIsClean(step: CrcStep, checksum: bool, records: seq<seq<byte>>, k: nat)
    requires k <= |records|
    ensures var g, p := LogBytes(step, records), |LogBytes(step, records[..k])|;
            p <= |g| && Clean(step, checksum, g, p)
    decreases |records| - k
  {
    hide Encode, LogBytes, Clean;
    EarlierEnds(step, records, k, |records|);
    assert records[..|records|] == records;
    if k < |records| {
      WrittenIsClean(step, checksum, records, k + 1);
      RecordAt(step, records, k);
      var g, p := LogBytes(step, records), |LogBytes(step, records[..k])|;
      EncodedIsClean(step, checksum, g, p, p % 32768, records[k], true);
    } else {
      EndIsClean(step, checksum, LogBytes(step, records));
    }
  }

  lemma EndIsClean(step: CrcStep, checksum: bool, g: seq<byte>)
    ensures Clean(step, checksum, g, |g|)
  {
  }

  function Starts(fs: seq<Placed>): set<nat> {
    set x | x in fs :: x.at
  }

  /** The frames of a clean file that is cut: the same, but for the one that the cut goes through. */
  lemma CutFrame(step: CrcStep, checksum: bool, g: seq<byte>, c: nat, p: nat)
    requires p < c <= |g|
    requires var x := FrameAt(step, checksum, g, p); x.Short? || (x.Whole? && 1 <= x.kind <= 4)
    ensures var x, y := FrameAt(step, checksum, g, p), FrameAt(step, checksum, g[..c], p);
            if p + Size(x) <= c then y == x else (y.Short? || y.Cut?) && p + Size(y) == c
  {
    hide Extend, Unmask, DecodeFixed;
    var x, f := FrameAt(step, checksum, g, p), g[..c];
    if x.Whole? && p + Size(x) <= c {
      assert f[p + 6..p + Size(x)] == g[p + 6..p + Size(x)] && f[p..p + 4] == g[p..p + 4];
      assert f[p + 7..p + Size(x)] == g[p + 7..p + Size(x)];
    }
  }

  /** No frame starts before p, or between p and the end of the frame at p. */
  lemma {:induction false} StartsFollow(step: CrcStep, checksum: bool, g: seq<byte>, p: nat)
    requires p <= |g|
    ensures forall s :: s in Starts(Frames(step, checksum, g, p)) ==> p <= s < |g|
    decreases |g| - p
  {
    hide FrameAt;
    if p < |g| {
      FirstStart(step, checksum, g, p);
      StartsFollow(step, checksum, g, p + Size(FrameAt(step, checksum, g, p)));
    }
  }

  lemma FirstStart(step: CrcStep, checksum: bool, g: seq<byte>, p: nat)
    requires p < |g|
    ensures var q := p + Size(FrameAt(step, checksum, g, p));
            Starts(Frames(step, checksum, g, p)) == {p} + Starts(Frames(step, checksum, g, q))
  {
    hide FrameAt;
  }

  lemma {:induction false} CutKeeps(step: CrcStep, checksum: bool, g: seq<byte>, c: nat, p: nat, starts: set<nat>)
    requires p <= c <= |g| && Clean(step, checksum, g, p)
    requires forall s :: s >= p ==> (s in starts <==> s in Starts(Frames(step, checksum, g, p)))
    ensures forall x :: x in Frames(step, checksum, g[..c], p) ==> Keeps(g[..c], x, starts)
    decreases c - p
  {
    hide FrameAt, Starts;
    if p < c {
      var f, x := g[..c], FrameAt(step, checksum, g, p);
      var y, q := FrameAt(step, checksum, f, p), p + Size(x);
      CutFrame(step, checksum, g, c, p);
      FirstStart(step, checksum, g, p);
      StartsFollow(step, checksum, g, q);
      if q <= c {
        CutKeeps(step, checksum, g, c, q, starts);
      } else {
        assert Frames(step, checksum, f, c) == [];
        assert Keeps(f, Placed(p, y), starts);
      }
      forall z | z in Frames(step, checksum, f, p) ensures Keeps(f, z, starts) {
        if z != Placed(p, y) {
          assert z in Frames(step, checksum, f, p + Size(y));
        }
      }
    }
  }

  /** A log that was written and then cut anywhere: nothing is lost without a report, and nothing is reported. */
  lemma TornLogKeepsAll(step: CrcStep, checksum: bool, records: seq<seq<byte>>, c: nat)
    requires c <= |LogBytes(step, records)|
    ensures var g := LogBytes(step, records);
            var starts := Starts(Frames(step, checksum, g, 0));
            var fs, r := Frames(step, checksum, g[..c], 0), ReadAll(step, checksum, g[..c], 0);
            && Lost(fs, false, [], starts) == 0 && r.1 == []
            && c == Overhead(fs) + TotalLength(r.0) + Open(fs, false, [], starts)
  {
    hide LogBytes, Frames, Clean, Starts, ReadAll, Lost, Overhead, TotalLength, Open, Keeps, EndBefore;
    var g := LogBytes(step, records);
    WrittenIsClean(step, checksum, records, 0);
    NoRecords(step, records);
    var starts := Starts(Frames(step, checksum, g, 0));
    CutKeeps(step, checksum, g, c, 0, starts);
    EveryByteAccounted(step, checksum, g[..c], starts);
    var m := SomeEndBefore(step, records, c);
    TornTail(step, checksum, records, c, m);
    SumOne(0);
  }

  lemma NoRecords(step: CrcStep, records: seq<seq<byte>>)
    ensures LogBytes(step, records[..0]) == []
  {
  }

  // ----- inputs on which something is lost -----

  /** The frames of a file that is one frame. */
  lemma OneFrameFile(step: CrcStep, checksum: bool, f: seq<byte>, x: Frame)
    requires f != [] && FrameAt(step, checksum, f, 0) == x && Size(x) == |f|
    ensures Frames(step, checksum, f, 0) == [Placed(0, x)]
  {
  }

  /** A header of type and length zero hides the rest of its block. */
  lemma BlankHidesBlock(step: CrcStep, checksum: bool, c: seq<byte>, rest: seq<byte>, starts: set<nat>)
    requires |c| == 4 && |rest| <= 32761
    ensures var f := c + [0, 0, 0] + rest;
            ReadAll(step, checksum, f, 0) == ([], []) && Lost(Frames(step, checksum, f, 0), false, [], starts) == |rest|
  {
    var f := c + [0, 0, 0] + rest;
    assert f[4] == f[5] == f[6] == 0;
    OneFrameFile(step, checksum, f, Blank(|rest|));
    ReadAllIsAssembled(step, checksum, f, 0);
  }

  /** A length beyond the end of the file hides all that follows in the last block. */
  lemma OverlongHidesRest(step: CrcStep, checksum: bool, c: seq<byte>, lo: byte, hi: byte, kind: byte, rest: seq<byte>,
                          starts: set<nat>)
    requires |c| == 4 && |rest| < Length(lo, hi) && |rest| < 32761
    ensures var f := c + [lo, hi, kind] + rest;
            && ReadAll(step, checksum, f, 0) == ([], [])
            && Lost(Frames(step, checksum, f, 0), false, [], starts)
               == if Torn(Placed(0, Cut(|rest|)), starts) then 0 else |rest|
  {
    var f := c + [lo, hi, kind] + rest;
    assert f[4] == lo && f[5] == hi && f[6] == kind;
    OneFrameFile(step, checksum, f, Cut(|rest|));
    ReadAllIsAssembled(step, checksum, f, 0);
  }

  /** A record of type 6 is taken for a bad one that has been reported. */
  lemma TypeSixVanishes(step: CrcStep, checksum: bool, data: seq<byte>, starts: set<nat>)
    requires |data| <= 32761
    ensures var f := Fragment(step, BAD, data);
            ReadAll(step, checksum, f, 0) == ([], []) && Lost(Frames(step, checksum, f, 0), false, [], starts) == |data|
  {
    hide Fragment, FrameAt;
    var f := Fragment(step, BAD, data);
    FragmentParts(step, BAD, data);
    assert f[0..7 + |data|] == f;
    FragmentIsFrame(step, checksum, f, 0, BAD, data);
    OneFrameFile(step, checksum, f, Whole(BAD, data));
    ReadAllIsAssembled(step, checksum, f, 0);
  }

  /** A record of type 5 is taken for the end of the file. */
  lemma TypeFiveEndsReading(step: CrcStep, checksum: bool, data: seq<byte>, rest: seq<byte>, starts: set<nat>)
    requires |data| <= 32761
    ensures var f := Fragment(step, EOF, data) + rest;
            && ReadAll(step, checksum, f, 0) == ([], [])
            && Lost(Frames(step, checksum, f, 0), false, [], starts) == |data| + |rest|
  {
    hide Fragment, FrameAt;
    var x := Fragment(step, EOF, data);
    var f, q := x + rest, 7 + |data|;
    FragmentParts(step, EOF, data);
    assert f[0..q] == x;
    FragmentIsFrame(step, checksum, f, 0, EOF, data);
    FramesCover(step, checksum, f, q);
    ReadAllIsAssembled(step, checksum, f, 0);
    assert Frames(step, checksum, f, 0)[1..] == Frames(step, checksum, f, q);
  }
}
