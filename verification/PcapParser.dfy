/**
 * The capture-file parser as a push-driven state machine: what one state function does to the parser
 * state, what draining does, and what a caller sees when a stream arrives in pieces.
 */
module PcapParser {
  import opened Bytes

  const PCAP_GLOBAL_HEADER_LENGTH := 24
  const PCAP_PACKET_HEADER_LENGTH := 16
  const PCAPNG_EPB_HEADER_LENGTH := 28
  const PCAPNG_SPB_HEADER_LENGTH := 12
  const MAX_CAPTURED_LENGTH := 262144
  const MAX_BLOCK_LENGTH := MAX_CAPTURED_LENGTH + 4096

  const BLOCK_SECTION_HEADER := 0x0a0d0d0a
  const BLOCK_INTERFACE_DESCRIPTION := 1
  const BLOCK_OBSOLETE_PACKET := 2
  const BLOCK_SIMPLE_PACKET := 3
  const BLOCK_ENHANCED_PACKET := 6

  const SECTION_MAGIC: seq<byte> := [0x0a, 0x0d, 0x0d, 0x0a]

  datatype NgInterface = NgInterface(linkLayerType: nat, snapshotLength: nat, base: nat, exponent: nat)

  const DEFAULT_INTERFACE := NgInterface(1, MAX_CAPTURED_LENGTH, 10, 6)

  datatype RecordHeader = RecordHeader(
    seconds: nat, microseconds: nat, nanoseconds: nat, capturedLength: nat, originalLength: nat)

  /** What onPacket receives; `packet` is the frame itself rather than its base64 text. */
  datatype PacketInfo = PacketInfo(
    index: nat, offset: nat, length: nat, recordHeaderOffset: nat, recordHeaderLength: nat,
    packetOffset: nat, packetLength: nat, seconds: nat, microseconds: nat, nanoseconds: nat,
    packet: seq<byte>)

  datatype ParseError =
    | UnknownMagic(magic: seq<byte>)
    | UnsupportedVersion(major: nat, minor: nat)
    | CapturedLengthTooLong(capturedLength: nat)
    | UnknownByteOrderMagic(magic: seq<byte>)
    | BlockBeforeSection
    | InvalidBlockLength(blockLength: nat)
    | BlockTooLong(blockLength: nat)
    | CaptureDoesNotFitBlock(capturedLength: nat, blockLength: nat)
    | InvalidSimplePacket(length: int)

  /** Everything the caller of the parser observes: handler calls, and a RangeError leaving `write`. */
  datatype Event =
    | GlobalHeader(magicNumber: nat, majorVersion: nat, minorVersion: nat, gmtOffset: int,
                   timestampAccuracy: nat, snapshotLength: nat, linkLayerType: nat)
    | SectionHeader(sectionMajor: nat, sectionMinor: nat)
    | PacketHeader(header: RecordHeader)
    | PacketData(data: seq<byte>)
    | Packet(info: PacketInfo)
    | Error(error: ParseError)
    | End
    | Thrown

  datatype Phase = DetectFormat | ParseGlobalHeader | ParsePacketHeader | ParsePacketBody | ParseNgBlock

  datatype State = State(
    buffer: seq<byte>, phase: Phase, endianness: Option<Endian>, nanosecond: bool, offset: nat,
    index: nat, interfaces: seq<NgInterface>, current: RecordHeader, errored: bool, sectionHandler: bool)
  {
    function Extend(x: seq<byte>): State { this.(buffer := buffer + x) }
  }

  /** A new parser, whose caller installed an onSectionHeader or did not: the one handler that changes what is read. */
  function NewParser(sectionHandler: bool): State
  {
    State([], DetectFormat, None, false, 0, 0, [], RecordHeader(0, 0, 0, 0, 0), false, sectionHandler)
  }

  /** The parser of a caller with every handler. */
  const Init := NewParser(true)

  /** The parser of the index builder and the watch, whose handlers take frames only. */
  const FrameReader := NewParser(false)

  /** Go: the state function returned true. Stop: it returned false. Threw: a read was out of range. */
  datatype Outcome = Go | Stop | Threw

  datatype StepResult = StepResult(outcome: Outcome, state: State, events: seq<Event>)

  function Fail(st: State, e: ParseError): StepResult
  {
    StepResult(Stop, st.(errored := true), [Error(e), End])
  }

  // ---- classic pcap ----

  function DetectStep(st: State): StepResult
  {
    if |st.buffer| < 4 then StepResult(Stop, st, [])
    else
      var magic := st.buffer[..4];
      if magic == [0xa1, 0xb2, 0xc3, 0xd4] then Classic(st, BE, false)
      else if magic == [0xd4, 0xc3, 0xb2, 0xa1] then Classic(st, LE, false)
      else if magic == [0xa1, 0xb2, 0x3c, 0x4d] then Classic(st, BE, true)
      else if magic == [0x4d, 0x3c, 0xb2, 0xa1] then Classic(st, LE, true)
      else if magic == SECTION_MAGIC then StepResult(Go, st.(phase := ParseNgBlock), [])
      else Fail(st, UnknownMagic(magic))
  }

  function Classic(st: State, e: Endian, nanosecond: bool): StepResult
  {
    StepResult(Go, st.(phase := ParseGlobalHeader, endianness := Some(e), nanosecond := nanosecond), [])
  }

  /** readUInt16/32 use little-endian whenever `endianness` is not 'BE'. */
  function ReadOrder(st: State): Endian
  {
    if st.endianness == Some(BE) then BE else LE
  }

  function GlobalHeaderStep(st: State): StepResult
  {
    var b := st.buffer;
    if |b| < PCAP_GLOBAL_HEADER_LENGTH then StepResult(Stop, st, [])
    else
      var e := ReadOrder(st);
      var major, minor := GetU16(e, b, 4), GetU16(e, b, 6);
      if major != 2 then Fail(st, UnsupportedVersion(major, minor))
      else
        StepResult(Go,
          st.(buffer := b[PCAP_GLOBAL_HEADER_LENGTH..], phase := ParsePacketHeader,
              offset := PCAP_GLOBAL_HEADER_LENGTH),
          [GlobalHeader(GetU32(e, b, 0), major, minor, GetI32(e, b, 8), GetU32(e, b, 12), GetU32(e, b, 16),
                        GetU32(e, b, 20))])
  }

  function ReadRecordHeader(st: State): RecordHeader
    requires |st.buffer| >= PCAP_PACKET_HEADER_LENGTH
  {
    var e, b := ReadOrder(st), st.buffer;
    var fraction := GetU32(e, b, 4);
    RecordHeader(
      GetU32(e, b, 0),
      if st.nanosecond then fraction / 1000 else fraction,
      if st.nanosecond then fraction else fraction * 1000,
      GetU32(e, b, 8),
      GetU32(e, b, 12))
  }

  function PacketHeaderStep(st: State): StepResult
  {
    if |st.buffer| < PCAP_PACKET_HEADER_LENGTH then StepResult(Stop, st, [])
    else
      var header := ReadRecordHeader(st);
      if header.capturedLength > MAX_CAPTURED_LENGTH then Fail(st, CapturedLengthTooLong(header.capturedLength))
      else
        StepResult(Go,
          st.(current := header, buffer := st.buffer[PCAP_PACKET_HEADER_LENGTH..], phase := ParsePacketBody,
              index := st.index + 1),
          [PacketHeader(header)])
  }

  function RecordInfo(index: nat, offset: nat, length: nat, headerLength: nat, h: RecordHeader,
                      data: seq<byte>): PacketInfo
  {
    PacketInfo(index, offset, length, offset, headerLength, offset + headerLength, |data|,
               h.seconds, h.microseconds, h.nanoseconds, data)
  }

  function PacketBodyStep(st: State): StepResult
  {
    var n := st.current.capturedLength;
    if |st.buffer| < n then StepResult(Stop, st, [])
    else
      var data := st.buffer[..n];
      var length := PCAP_PACKET_HEADER_LENGTH + n;
      StepResult(Go,
        st.(buffer := st.buffer[n..], phase := ParsePacketHeader, offset := st.offset + length),
        [PacketData(data),
         Packet(RecordInfo(st.index, st.offset, length, PCAP_PACKET_HEADER_LENGTH, st.current, data))])
  }

  // ---- pcapng ----

  function Pow(b: nat, e: nat): (p: nat)
    ensures b > 0 ==> p > 0
  {
    if e == 0 then 1 else b * Pow(b, e - 1)
  }

  datatype Timestamp = Timestamp(seconds: nat, microseconds: nat, nanoseconds: nat)

  function NgTimestamp(ni: NgInterface, high: nat, low: nat): Timestamp
  {
    var ticks := high * 0x1_0000_0000 + low;
    var divisor := Pow(if ni.base == 2 then 2 else 10, ni.exponent);
    Timestamp(ticks / divisor, Rescale(ticks % divisor, 1_000_000, divisor),
              Rescale(ticks % divisor, 1_000_000_000, divisor))
  }

  function Rescale(fraction: nat, unit: nat, divisor: nat): nat
    requires divisor > 0
  {
    var product: nat := fraction * unit;
    product / divisor
  }

  function InterfaceOf(interfaces: seq<NgInterface>, id: nat): NgInterface
  {
    if id < |interfaces| then interfaces[id] else DEFAULT_INTERFACE
  }

  /** The interface's resolution after walking the option list in [position, end) of the block. */
  function InterfaceOptions(e: Endian, b: seq<byte>, position: nat, end: int, ni: NgInterface): NgInterface
    requires end <= |b|
    decreases end - position
  {
    if position + 4 > end then ni
    else
      var code, length := GetU16(e, b, position), GetU16(e, b, position + 2);
      if code == 0 then ni
      else InterfaceOptions(e, b, position + 4 + (length + 3) / 4 * 4, end,
                            ApplyOption(b, position, end, code, length, ni))
  }

  function ApplyOption(b: seq<byte>, position: nat, end: int, code: nat, length: nat, ni: NgInterface): NgInterface
    requires end <= |b|
  {
    if code == 9 && length >= 1 && position + 4 < end then
      var raw := b[position + 4];
      if raw >= 0x80 then ni.(base := 2, exponent := raw - 0x80) else ni.(base := 10, exponent := raw)
    else ni
  }

  /**
   * The number of leading block octets that parsing this block type always reads. The versions of a section header
   * are read in the arguments of an optional call, so only for a caller with an onSectionHeader.
   */
  function FixedLength(sectionHandler: bool, blockType: nat): nat
  {
    if blockType == BLOCK_INTERFACE_DESCRIPTION then 16
    else if blockType == BLOCK_SECTION_HEADER then if sectionHandler then 16 else 12
    else if blockType == BLOCK_ENHANCED_PACKET || blockType == BLOCK_OBSOLETE_PACKET then PCAPNG_EPB_HEADER_LENGTH
    else 12
  }

  function EmitPacket(st: State, length: nat, headerLength: nat, data: seq<byte>, t: Timestamp,
                      originalLength: nat): StepResult
    requires length <= |st.buffer|
  {
    var h := RecordHeader(t.seconds, t.microseconds, t.nanoseconds, |data|, originalLength);
    StepResult(Go,
      st.(index := st.index + 1, current := h, buffer := st.buffer[length..], offset := st.offset + length),
      [PacketHeader(h), PacketData(data), Packet(RecordInfo(st.index + 1, st.offset, length, headerLength, h, data))])
  }

  function BlockTimestamp(st: State, e: Endian, interfaceId: nat): Timestamp
    requires PCAPNG_EPB_HEADER_LENGTH <= |st.buffer|
  {
    NgTimestamp(InterfaceOf(st.interfaces, interfaceId), GetU32(e, st.buffer, 12), GetU32(e, st.buffer, 16))
  }

  function EnhancedPacket(st: State, e: Endian, total: nat, t: Timestamp): StepResult
    requires PCAPNG_EPB_HEADER_LENGTH <= |st.buffer| && 12 <= total <= |st.buffer|
  {
    var b := st.buffer;
    var capturedLength := GetU32(e, b, 20);
    if capturedLength > MAX_CAPTURED_LENGTH || PCAPNG_EPB_HEADER_LENGTH + capturedLength > total - 4 then
      Fail(st, CaptureDoesNotFitBlock(capturedLength, total))
    else
      EmitPacket(st, total, PCAPNG_EPB_HEADER_LENGTH,
        b[PCAPNG_EPB_HEADER_LENGTH..PCAPNG_EPB_HEADER_LENGTH + capturedLength], t, GetU32(e, b, 24))
  }

  function SimpleCapturedLength(originalLength: nat, total: nat, snapshotLength: nat): int
  {
    Min(Min(originalLength, total - PCAPNG_SPB_HEADER_LENGTH - 4),
        if snapshotLength > 0 then snapshotLength else MAX_CAPTURED_LENGTH)
  }

  function SimplePacket(st: State, e: Endian, total: nat): StepResult
    requires 12 <= total <= |st.buffer|
  {
    var originalLength := GetU32(e, st.buffer, 8);
    var capturedLength := SimpleCapturedLength(originalLength, total, InterfaceOf(st.interfaces, 0).snapshotLength);
    if capturedLength < 0 || capturedLength > MAX_CAPTURED_LENGTH then Fail(st, InvalidSimplePacket(capturedLength))
    else
      EmitPacket(st, total, PCAPNG_SPB_HEADER_LENGTH,
        st.buffer[PCAPNG_SPB_HEADER_LENGTH..PCAPNG_SPB_HEADER_LENGTH + capturedLength],
        Timestamp(0, 0, 0), originalLength)
  }

  function DescribedInterface(e: Endian, b: seq<byte>, total: nat): NgInterface
    requires 16 <= |b| && 12 <= total <= |b|
  {
    InterfaceOptions(e, b, 16, total - 4, NgInterface(GetU16(e, b, 8), GetU32(e, b, 12), 10, 6))
  }

  /** A block all of whose `total` octets are buffered. */
  function NgBody(st: State, e: Endian, total: nat): (r: StepResult)
    requires 12 <= total <= |st.buffer|
    ensures r.outcome.Go? ==> r.state.buffer == st.buffer[total..]
  {
    var b := st.buffer;
    var blockType := GetU32(e, b, 0);
    var reset := if blockType == BLOCK_SECTION_HEADER then st.(interfaces := []) else st;
    if |b| < FixedLength(st.sectionHandler, blockType) then StepResult(Threw, reset, [Thrown])
    else if blockType == BLOCK_SECTION_HEADER then
      Skip(reset, total, if st.sectionHandler then [SectionHeader(GetU16(e, b, 12), GetU16(e, b, 14))] else [])
    else if blockType == BLOCK_INTERFACE_DESCRIPTION then
      Skip(st.(interfaces := st.interfaces + [DescribedInterface(e, b, total)]), total, [])
    else if blockType == BLOCK_ENHANCED_PACKET then EnhancedPacket(st, e, total, BlockTimestamp(st, e, GetU32(e, b, 8)))
    else if blockType == BLOCK_OBSOLETE_PACKET then EnhancedPacket(st, e, total, BlockTimestamp(st, e, GetU16(e, b, 8)))
    else if blockType == BLOCK_SIMPLE_PACKET then SimplePacket(st, e, total)
    else Skip(st, total, [])
  }

  function Skip(st: State, total: nat, events: seq<Event>): StepResult
    requires total <= |st.buffer|
  {
    StepResult(Go, st.(buffer := st.buffer[total..], offset := st.offset + total), events)
  }

  datatype Frame =
    | Incomplete(state: State)
    | Corrupt(state: State, error: ParseError)
    | Complete(state: State, order: Endian, total: nat)

  /** The byte order of the block at the head of the buffer: a section header brings its own. */
  function BlockOrder(endianness: Option<Endian>, head: seq<byte>): (e: Option<Endian>)
    requires |head| == 12
  {
    if head[..4] != SECTION_MAGIC then endianness
    else if head[8..] == [0x1a, 0x2b, 0x3c, 0x4d] then Some(BE)
    else if head[8..] == [0x4d, 0x3c, 0x2b, 0x1a] then Some(LE)
    else None
  }

  function NgFrame(st: State): (f: Frame)
    ensures f.Complete? ==>
      12 <= f.total <= |st.buffer| && f.state == st.(endianness := Some(f.order))
      && f.total == GetU32(f.order, st.buffer, 4)
  {
    if |st.buffer| < 12 then Incomplete(st)
    else
      var head := st.buffer[..12];
      match BlockOrder(st.endianness, head)
      case None => Corrupt(st,
                           if head[..4] == SECTION_MAGIC then UnknownByteOrderMagic(head[8..]) else BlockBeforeSection)
      case Some(e) => CheckLength(st.(endianness := Some(e)), e)
  }

  function CheckLength(st: State, e: Endian): Frame
    requires |st.buffer| >= 12
  {
    var total := GetU32(e, st.buffer, 4);
    if total < 12 || total % 4 != 0 then Corrupt(st, InvalidBlockLength(total))
    else if total > MAX_BLOCK_LENGTH then Corrupt(st, BlockTooLong(total))
    else if |st.buffer| < total then Incomplete(st)
    else Complete(st, e, total)
  }

  function NgStep(st: State): StepResult
  {
    match NgFrame(st)
    case Incomplete(known) => StepResult(Stop, known, [])
    case Corrupt(known, e) => Fail(known, e)
    case Complete(known, e, total) => NgBody(known, e, total)
  }

  // ---- the machine ----

  function Step(st: State): StepResult
  {
    match st.phase
    case DetectFormat => DetectStep(st)
    case ParseGlobalHeader => GlobalHeaderStep(st)
    case ParsePacketHeader => PacketHeaderStep(st)
    case ParsePacketBody => PacketBodyStep(st)
    case ParseNgBlock => NgStep(st)
  }

  function Rank(p: Phase): nat
  {
    match p
    case DetectFormat => 2
    case ParsePacketBody => 1
    case _ => 0
  }

  /** Every step that continues either consumes octets or moves to a phase of lower rank. */
  lemma StepProgress(st: State)
    ensures var r := Step(st);
            r.outcome.Go? ==>
              |r.state.buffer| < |st.buffer| || (r.state.buffer == st.buffer && Rank(r.state.phase) < Rank(st.phase))
  {
    match st.phase
    case DetectFormat =>
    case ParseGlobalHeader =>
    case ParsePacketHeader =>
    case ParsePacketBody =>
    case ParseNgBlock => NgProgress(st);
  }

  lemma NgProgress(st: State)
    ensures NgStep(st).outcome.Go? ==> |NgStep(st).state.buffer| + 12 <= |st.buffer|
  {
    var f := NgFrame(st);
    if f.Complete? {
      var body := NgBody(f.state, f.order, f.total);
    }
  }

  datatype Run = Run(state: State, events: seq<Event>)

  /** `while (this.state()) {}` */
  function Drain(st: State): Run
    decreases |st.buffer|, Rank(st.phase)
  {
    var r := Step(st);
    StepProgress(st);
    if !r.outcome.Go? then Run(r.state, r.events)
    else
      var d := Drain(r.state);
      Run(d.state, r.events + d.events)
  }

  function Write(st: State, data: seq<byte>): Run
  {
    if st.errored then Run(st, []) else Drain(st.Extend(data))
  }

  function Feed(st: State, chunks: seq<seq<byte>>): Run
    decreases |chunks|
  {
    if chunks == [] then Run(st, [])
    else
      var first := Write(st, chunks[0]);
      var rest := Feed(first.state, chunks[1..]);
      Run(rest.state, first.events + rest.events)
  }

  /** One more chunk. */
  lemma {:induction false} FeedSnoc(st: State, chunks: seq<seq<byte>>, data: seq<byte>)
    ensures var before := Feed(st, chunks);
      var r := Write(before.state, data);
      Feed(st, chunks + [data]) == Run(r.state, before.events + r.events)
    ensures Concat(chunks + [data]) == Concat(chunks) + data
    decreases |chunks|
  {
    hide Drain;
    if chunks == [] {
      var r := Write(st, data);
      assert ([] + [data])[1..] == [];
      AppendNil(r.events);
      AppendNil(data);
    } else {
      var first := Write(st, chunks[0]);
      assert (chunks + [data])[1..] == chunks[1..] + [data];
      FeedSnoc(first.state, chunks[1..], data);
      var before := Feed(first.state, chunks[1..]);
      AppendAssociates(first.events, before.events, Write(before.state, data).events);
      AppendAssociates(chunks[0], Concat(chunks[1..]), data);
    }
  }
}
