/**
 * Classic pcap files by the octets of draft-ietf-opsawg-pcap, in all four forms of the magic: what the parser reports
 * of any header and records, and which it refuses.
 */
module PcapLayout {
  import opened Bytes
  import opened ChunkInvariance
  import opened PcapParser

  // ---- integers at their places ----

  function U16(e: Endian, s: seq<byte>, o: nat): nat
    requires o + 2 <= |s|
  {
    var a: int, b: int := s[o], s[o + 1];
    if e.BE? then 0x100 * a + b else a + 0x100 * b
  }

  function U32(e: Endian, s: seq<byte>, o: nat): nat
    requires o + 4 <= |s|
  {
    var a: int, b: int, c: int, d: int := s[o], s[o + 1], s[o + 2], s[o + 3];
    if e.BE? then 0x100_0000 * a + 0x1_0000 * b + 0x100 * c + d else a + 0x100 * b + 0x1_0000 * c + 0x100_0000 * d
  }

  lemma Reads16(e: Endian, s: seq<byte>, o: nat, k: nat)
    requires o + k + 2 <= |s|
    ensures GetU16(e, s[o..], k) == U16(e, s, o + k)
  {
  }

  lemma Reads32(e: Endian, s: seq<byte>, o: nat, k: nat)
    requires o + k + 4 <= |s|
    ensures GetU32(e, s[o..], k) == U32(e, s, o + k)
  {
    var b := s[o..];
    assert b[k] == s[o + k] && b[k + 1] == s[o + k + 1] && b[k + 2] == s[o + k + 2] && b[k + 3] == s[o + k + 3];
  }

  lemma Rest(s: seq<byte>, o: nat, n: nat)
    requires o + n <= |s|
    ensures s[o..][n..] == s[o + n..]
  {
  }

  // ---- the layout ----

  /** Byte order, and whether the second time field counts nanoseconds rather than microseconds. */
  datatype Form = Form(order: Endian, nanosecond: bool)

  function Magic(f: Form): seq<byte>
  {
    match f
    case Form(BE, false) => [0xa1, 0xb2, 0xc3, 0xd4]
    case Form(LE, false) => [0xd4, 0xc3, 0xb2, 0xa1]
    case Form(BE, true) => [0xa1, 0xb2, 0x3c, 0x4d]
    case Form(LE, true) => [0x4d, 0x3c, 0xb2, 0xa1]
  }

  datatype Header = Header(minor: nat, zone: int, accuracy: nat, snapshotLength: nat, linkLayerType: nat)

  datatype Record = Record(seconds: nat, fraction: nat, originalLength: nat, frame: seq<byte>)

  /** Magic, version 2, the zone in two's complement, accuracy, snapshot length and link type. */
  predicate HeaderLies(f: Form, s: seq<byte>, h: Header)
  {
    && |s| >= 24 && s[..4] == Magic(f)
    && U16(f.order, s, 4) == 2 && U16(f.order, s, 6) == h.minor
    && -0x8000_0000 <= h.zone < 0x8000_0000
    && U32(f.order, s, 8) == (if h.zone < 0 then h.zone + 0x1_0000_0000 else h.zone)
    && U32(f.order, s, 12) == h.accuracy && U32(f.order, s, 16) == h.snapshotLength
    && U32(f.order, s, 20) == h.linkLayerType
  }

  predicate RecordHeaderLies(f: Form, s: seq<byte>, o: nat, seconds: nat, fraction: nat, captured: nat, original: nat)
  {
    && o + 16 <= |s|
    && U32(f.order, s, o) == seconds && U32(f.order, s, o + 4) == fraction
    && U32(f.order, s, o + 8) == captured && U32(f.order, s, o + 12) == original
  }

  predicate RecordLies(f: Form, s: seq<byte>, o: nat, r: Record)
  {
    && RecordHeaderLies(f, s, o, r.seconds, r.fraction, |r.frame|, r.originalLength)
    && |r.frame| <= 262144 && o + 16 + |r.frame| <= |s| && r.frame == s[o + 16..o + 16 + |r.frame|]
  }

  /**
   * How the octets end: too few for a record header, too few for a record's frame, or with a record that is refused.
   */
  datatype Ending = Short | Cut(seconds: nat, fraction: nat, captured: nat, original: nat) | TooLong(captured: nat)

  predicate EndingLies(f: Form, s: seq<byte>, o: nat, ending: Ending)
  {
    match ending
    case Short => o <= |s| < o + 16
    case Cut(seconds, fraction, captured, original) =>
      RecordHeaderLies(f, s, o, seconds, fraction, captured, original) && |s| < o + 16 + captured && captured <= 262144
    case TooLong(captured) => o + 16 <= |s| && U32(f.order, s, o + 8) == captured > 262144
  }

  predicate RecordsLie(f: Form, s: seq<byte>, o: nat, rs: seq<Record>, ending: Ending)
    decreases |rs|
  {
    if rs == [] then EndingLies(f, s, o, ending)
    else RecordLies(f, s, o, rs[0]) && RecordsLie(f, s, o + 16 + |rs[0].frame|, rs[1..], ending)
  }

  // ---- what is reported ----

  function PacketReports(count: nat, offset: nat, total: nat, headerLength: nat, t: Timestamp, original: nat,
                         frame: seq<byte>): seq<Event>
  {
    [PacketHeader(RecordHeader(t.seconds, t.microseconds, t.nanoseconds, |frame|, original)), PacketData(frame),
     Packet(PacketInfo(count + 1, offset, total, offset, headerLength, offset + headerLength, |frame|,
                       t.seconds, t.microseconds, t.nanoseconds, frame))]
  }

  /** The second field in microseconds, rounded down, and in nanoseconds. */
  function TimeOf(f: Form, seconds: nat, fraction: nat): Timestamp
  {
    var nanoseconds := if f.nanosecond then fraction else 1000 * fraction;
    Timestamp(seconds, nanoseconds / 1000, nanoseconds)
  }

  function Reports(f: Form, offset: nat, count: nat, rs: seq<Record>, ending: Ending): seq<Event>
    decreases |rs|
  {
    if rs == [] then
      match ending
      case Short => []
      case Cut(seconds, fraction, captured, original) =>
        var t := TimeOf(f, seconds, fraction);
        [PacketHeader(RecordHeader(t.seconds, t.microseconds, t.nanoseconds, captured, original))]
      case TooLong(captured) => [Error(CapturedLengthTooLong(captured)), End]
    else
      var r := rs[0];
      var total := 16 + |r.frame|;
      PacketReports(count, offset, total, 16, TimeOf(f, r.seconds, r.fraction), r.originalLength, r.frame)
        + Reports(f, offset + total, count + 1, rs[1..], ending)
  }

  function HeaderReport(f: Form, h: Header): Event
  {
    GlobalHeader(if f.nanosecond then 0xa1b23c4d else 0xa1b2c3d4, 2, h.minor, h.zone, h.accuracy, h.snapshotLength,
                 h.linkLayerType)
  }

  // ---- the records ----

  /** The parser is about to read the record at `o`. */
  predicate Reaches(st: State, f: Form, s: seq<byte>, o: nat, count: nat)
  {
    && st.phase.ParsePacketHeader? && !st.errored && st.endianness == Some(f.order) && st.nanosecond == f.nanosecond
    && o <= |s| && st.buffer == s[o..] && st.offset == o && st.index == count
  }

  lemma RecordHeaderReads(st: State, f: Form, s: seq<byte>, o: nat, count: nat, seconds: nat, fraction: nat,
                          captured: nat, original: nat)
    requires Reaches(st, f, s, o, count) && RecordHeaderLies(f, s, o, seconds, fraction, captured, original)
    ensures var t := TimeOf(f, seconds, fraction);
      ReadRecordHeader(st) == RecordHeader(t.seconds, t.microseconds, t.nanoseconds, captured, original)
  {
    hide GetU32, U32;
    Reads32(f.order, s, o, 0);
    Reads32(f.order, s, o, 4);
    Reads32(f.order, s, o, 8);
    Reads32(f.order, s, o, 12);
    assert ReadOrder(st) == f.order && 1000 * fraction / 1000 == fraction;
  }

  /** The state behind the header of a record. */
  function Behind(st: State, h: RecordHeader, s: seq<byte>, o: nat): State
    requires o + 16 <= |s|
  {
    st.(current := h, buffer := s[o + 16..], phase := ParsePacketBody, index := st.index + 1)
  }

  lemma HeadStep(st: State, f: Form, s: seq<byte>, o: nat, count: nat, seconds: nat, fraction: nat, captured: nat,
                 original: nat)
    requires Reaches(st, f, s, o, count) && RecordHeaderLies(f, s, o, seconds, fraction, captured, original)
    ensures var t := TimeOf(f, seconds, fraction);
      var h := RecordHeader(t.seconds, t.microseconds, t.nanoseconds, captured, original);
      Step(st) == if captured > 262144 then Fail(st, CapturedLengthTooLong(captured))
                  else StepResult(Go, Behind(st, h, s, o), [PacketHeader(h)])
  {
    hide GetU32, U32, ReadRecordHeader;
    RecordHeaderReads(st, f, s, o, count, seconds, fraction, captured, original);
    Rest(s, o, 16);
  }

  lemma BodyStep(st: State, h: RecordHeader, s: seq<byte>, o: nat)
    requires o + 16 <= |s| && st.offset == o
    ensures var b, n := Behind(st, h, s, o), h.capturedLength;
      if o + 16 + n <= |s| then
        Step(b) == StepResult(Go, b.(buffer := s[o + 16 + n..], phase := ParsePacketHeader, offset := o + 16 + n),
          [PacketData(s[o + 16..o + 16 + n]),
           Packet(PacketInfo(st.index + 1, o, 16 + n, o, 16, o + 16, n, h.seconds, h.microseconds, h.nanoseconds,
                             s[o + 16..o + 16 + n]))])
      else Step(b) == StepResult(Stop, b, [])
  {
    var n := h.capturedLength;
    if o + 16 + n <= |s| {
      Rest(s, o + 16, n);
      assert s[o + 16..] == s[o + 16..|s|];
      SliceOfSlice(s, o + 16, |s|, 0, n);
      assert s[o + 16..][..n] == s[o + 16..][0..n];
    }
  }

  lemma StopDrains(st: State)
    requires Step(st).outcome.Stop? && !Undersized(st)
    ensures Drain(st).events == Step(st).events && Sized(st)
  {
    hide Step, Undersized;
  }

  lemma GoDrains(st: State)
    requires Step(st).outcome.Go? && !Undersized(st)
    ensures Drain(st).events == Step(st).events + Drain(Step(st).state).events
    ensures Sized(Step(st).state) ==> Sized(st)
  {
    hide Step, Undersized;
  }

  lemma {:induction false} RecordsRead(st: State, f: Form, s: seq<byte>, o: nat, count: nat, rs: seq<Record>,
                                       ending: Ending)
    requires Reaches(st, f, s, o, count) && RecordsLie(f, s, o, rs, ending)
    ensures Drain(st).events == Reports(f, o, count, rs, ending)
    decreases |rs|
  {
    hide Step, Drain, Sized, ReadRecordHeader, U32;
    if rs == [] {
      EndingReads(st, f, s, o, count, ending);
    } else {
      var r := rs[0];
      var t := TimeOf(f, r.seconds, r.fraction);
      var h := RecordHeader(t.seconds, t.microseconds, t.nanoseconds, |r.frame|, r.originalLength);
      HeadStep(st, f, s, o, count, r.seconds, r.fraction, |r.frame|, r.originalLength);
      GoDrains(st);
      BodyStep(st, h, s, o);
      GoDrains(Behind(st, h, s, o));
      RecordsRead(Step(Behind(st, h, s, o)).state, f, s, o + 16 + |r.frame|, count + 1, rs[1..], ending);
    }
  }

  lemma EndingReads(st: State, f: Form, s: seq<byte>, o: nat, count: nat, ending: Ending)
    requires Reaches(st, f, s, o, count) && EndingLies(f, s, o, ending)
    ensures Drain(st).events == Reports(f, o, count, [], ending)
  {
    hide Step, Drain, Sized, ReadRecordHeader, U32;
    match ending
    case Short => ShortStops(st);
    case Cut(seconds, fraction, captured, original) =>
      var t := TimeOf(f, seconds, fraction);
      var h := RecordHeader(t.seconds, t.microseconds, t.nanoseconds, captured, original);
      HeadStep(st, f, s, o, count, seconds, fraction, captured, original);
      GoDrains(st);
      BodyStep(st, h, s, o);
      StopDrains(Behind(st, h, s, o));
      AppendNil([PacketHeader(h)]);
    case TooLong(captured) =>
      HeadStep(st, f, s, o, count, U32(f.order, s, o), U32(f.order, s, o + 4), captured, U32(f.order, s, o + 12));
      StopDrains(st);
  }

  lemma ShortStops(st: State)
    requires st.phase.ParsePacketHeader? && |st.buffer| < 16
    ensures Drain(st).events == []
  {
  }

  // ---- whole files ----

  lemma DetectReads(f: Form, s: seq<byte>, listens: bool)
    requires |s| >= 4 && s[..4] == Magic(f)
    ensures var st := NewParser(listens).Extend(s);
      Step(st) == StepResult(Go, st.(phase := ParseGlobalHeader, endianness := Some(f.order),
                                     nanosecond := f.nanosecond), [])
  {
    AppendNil(s);
    DistinctMagics(s[..4]);
  }

  lemma DistinctMagics(m: seq<byte>)
    ensures |m| == 4 ==> m == [m[0], m[1], m[2], m[3]]
  {
  }

  lemma HeaderReads(st: State, f: Form, s: seq<byte>, h: Header)
    requires st.phase.ParseGlobalHeader? && st.endianness == Some(f.order) && st.buffer == s && HeaderLies(f, s, h)
    ensures Step(st) == StepResult(Go, st.(buffer := s[24..], phase := ParsePacketHeader, offset := 24),
                                   [HeaderReport(f, h)])
  {
    hide GetU16, GetU32, U16, U32;
    assert s[0..] == s;
    Reads16(f.order, s, 0, 4);
    Reads16(f.order, s, 0, 6);
    Reads32(f.order, s, 0, 0);
    Reads32(f.order, s, 0, 8);
    Reads32(f.order, s, 0, 12);
    Reads32(f.order, s, 0, 16);
    Reads32(f.order, s, 0, 20);
    MagicNumber(f, s);
  }

  lemma MagicNumber(f: Form, s: seq<byte>)
    requires |s| >= 4 && s[..4] == Magic(f)
    ensures U32(f.order, s, 0) == if f.nanosecond then 0xa1b23c4d else 0xa1b2c3d4
  {
    assert s[..4] == [s[0], s[1], s[2], s[3]];
  }

  /**
   * However a classic file is cut, the parser reports its header and its records in order, numbered and placed, with
   * the times of its form, then the record header it cannot complete or the record it refuses.
   */
  lemma PcapReads(listens: bool, f: Form, s: seq<byte>, h: Header, rs: seq<Record>, ending: Ending,
                  chunks: seq<seq<byte>>)
    requires HeaderLies(f, s, h) && RecordsLie(f, s, 24, rs, ending) && Concat(chunks) == s
    ensures Feed(NewParser(listens), chunks).events == [HeaderReport(f, h)] + Reports(f, 24, 0, rs, ending)
  {
    hide Step, Drain, Sized, Feed, U16, U32, Reports, RecordsLie;
    var start := NewParser(listens).Extend(s);
    AppendNil(s);
    DetectReads(f, s, listens);
    GoDrains(start);
    var known := Step(start).state;
    HeaderReads(known, f, s, h);
    GoDrains(known);
    RecordsRead(Step(known).state, f, s, 24, 0, rs, ending);
    AppendNil(Drain(known).events);
    ClassicCut(listens, s, f);
    ChunkInvarianceIff(listens, s);
  }

  lemma ClassicCut(listens: bool, s: seq<byte>, f: Form)
    requires |s| >= 4 && s[..4] == Magic(f)
    ensures Sized(NewParser(listens).Extend(s))
  {
    assert s[..4][0] != SECTION_MAGIC[0];
    if !Sized(NewParser(listens).Extend(s)) { UnsizedIsNg(listens, s); }
  }

  // ---- files that are refused at once ----

  ghost predicate KnownMagic(magic: seq<byte>)
  {
    magic == [0x0a, 0x0d, 0x0d, 0x0a] || exists f :: magic == Magic(f)
  }

  /** A file is refused at once when its magic is none of the five, or its version not 2; nothing else is reported. */
  lemma RefusedAtOnce(listens: bool, f: Form, s: seq<byte>, chunks: seq<seq<byte>>)
    requires Concat(chunks) == s && |s| >= 4
    ensures !KnownMagic(s[..4]) ==> Feed(NewParser(listens), chunks).events == [Error(UnknownMagic(s[..4])), End]
    ensures |s| >= 24 && s[..4] == Magic(f) && U16(f.order, s, 4) != 2 ==>
      Feed(NewParser(listens), chunks).events
        == [Error(UnsupportedVersion(U16(f.order, s, 4), U16(f.order, s, 6))), End]
  {
    hide Drain, Sized, Feed, U16, U32;
    var start := NewParser(listens).Extend(s);
    AppendNil(s);
    if !KnownMagic(s[..4]) {
      UnknownStops(listens, s);
      StopDrains(start);
      ChunkInvarianceIff(listens, s);
    } else if |s| >= 24 && s[..4] == Magic(f) && U16(f.order, s, 4) != 2 {
      DetectReads(f, s, listens);
      GoDrains(start);
      VersionStops(Step(start).state, f, s);
      StopDrains(Step(start).state);
      AppendNil(Drain(Step(start).state).events);
      ClassicCut(listens, s, f);
      ChunkInvarianceIff(listens, s);
    }
  }

  lemma UnknownStops(listens: bool, s: seq<byte>)
    requires |s| >= 4 && !KnownMagic(s[..4])
    ensures var st := NewParser(listens).Extend(s); Step(st) == Fail(st, UnknownMagic(s[..4]))
  {
    AppendNil(s);
    assert Magic(Form(BE, false)) == [0xa1, 0xb2, 0xc3, 0xd4] && Magic(Form(LE, false)) == [0xd4, 0xc3, 0xb2, 0xa1];
    assert Magic(Form(BE, true)) == [0xa1, 0xb2, 0x3c, 0x4d] && Magic(Form(LE, true)) == [0x4d, 0x3c, 0xb2, 0xa1];
  }

  lemma VersionStops(st: State, f: Form, s: seq<byte>)
    requires st.phase.ParseGlobalHeader? && st.endianness == Some(f.order) && st.buffer == s
    requires |s| >= 24 && U16(f.order, s, 4) != 2
    ensures Step(st) == Fail(st, UnsupportedVersion(U16(f.order, s, 4), U16(f.order, s, 6)))
  {
    hide GetU16, GetU32, U16;
    assert s[0..] == s && ReadOrder(st) == f.order;
    Reads16(f.order, s, 0, 4);
    Reads16(f.order, s, 0, 6);
  }
}
