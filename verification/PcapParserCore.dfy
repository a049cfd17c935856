/** The parser object: its state functions update the fields in place, and `write` drains them. */
module PcapParserCore {
  import opened Bytes
  import Spec = PcapParser
  import opened PcapParser

  /** The final state and log, when `log` has been reported so far and the last state function returned `outcome`. */
  ghost function Owed(log: seq<Event>, now: State, outcome: Outcome): Run
  {
    if outcome.Go? then Run(Drain(now).state, log + Drain(now).events) else Run(now, log)
  }

  /** One more step of a drain in progress. */
  lemma DrainedMore(log: seq<Event>, before: State, after: State, outcome: Outcome)
    requires Step(before).outcome == outcome && Step(before).state == after
    ensures Owed(log + Step(before).events, after, outcome) == Owed(log, before, Go)
    ensures outcome.Go? ==>
      |after.buffer| < |before.buffer| || (after.buffer == before.buffer && Rank(after.phase) < Rank(before.phase))
  {
    StepProgress(before);
    var r := Step(before);
    if outcome.Go? {
      AppendAssociates(log, r.events, Drain(after).events);
    }
  }

  class PcapParserCore {
    const sectionHandler: bool  // whether an onSectionHeader is installed
    var buffer: seq<byte>
    var errored: bool
    var endianness: Option<Endian>
    var index: nat
    var state: Phase
    var offset: nat
    var timestampNanosecond: bool
    var ngInterfaces: seq<NgInterface>
    var currentPacketHeader: RecordHeader
    var events: seq<Event>  // the handler calls made so far, and exceptions that left `Write`

    ghost function View(): State
      reads this
    {
      State(buffer, state, endianness, timestampNanosecond, offset, index, ngInterfaces, currentPacketHeader, errored,
            sectionHandler)
    }

    /** The object has just taken the step `r`, adding its events to `log`. */
    ghost predicate Took(r: StepResult, log: seq<Event>, outcome: Outcome)
      reads this
    {
      outcome == r.outcome && View() == r.state && events == log + r.events
    }

    constructor (sectionHandler: bool)
      ensures View() == NewParser(sectionHandler) && events == []
    {
      this.sectionHandler := sectionHandler;
      buffer, errored, endianness, index, state, offset := [], false, None, 0, Phase.DetectFormat, 0;
      timestampNanosecond, ngInterfaces, currentPacketHeader := false, [], RecordHeader(0, 0, 0, 0, 0);
      events := [];
    }

    method Write(data: seq<byte>)
      modifies this
      ensures var r := Spec.Write(old(View()), data); View() == r.state && events == old(events) + r.events
    {
      if errored { return; }
      buffer := buffer + data;
      assert View() == old(View()).Extend(data);
      DrainBuffer();
    }

    /** `while (this.state()) {}` */
    method DrainBuffer()
      modifies this
      ensures View() == Drain(old(View())).state
      ensures events == old(events) + Drain(old(View())).events
    {
      ghost var whole := Owed(events, View(), Go);
      var outcome := Go;
      while outcome.Go?
        invariant whole == Owed(events, View(), outcome)
        decreases if outcome.Go? then 1 else 0, |buffer|, Rank(state)
      {
        outcome := Advance(whole);
      }
    }

    /** One call of the state function, in the middle of a drain whose final state and log are `whole`. */
    method Advance(ghost whole: Run) returns (outcome: Outcome)
      requires whole == Owed(events, View(), Go)
      modifies this
      ensures whole == Owed(events, View(), outcome)
      ensures outcome.Go? ==>
        |buffer| < |old(buffer)| || (buffer == old(buffer) && Rank(state) < Rank(old(state)))
    {
      outcome := RunState();
      DrainedMore(old(events), old(View()), View(), outcome);
    }

    method RunState() returns (outcome: Outcome)
      modifies this
      ensures Took(Step(old(View())), old(events), outcome)
    {
      match state
      case DetectFormat => outcome := DetectFormat();
      case ParseGlobalHeader => outcome := ParseGlobalHeader();
      case ParsePacketHeader => outcome := ParsePacketHeader();
      case ParsePacketBody => outcome := ParsePacketBody();
      case ParseNgBlock => outcome := ParseNgBlock();
    }

    method FailWith(error: ParseError) returns (outcome: Outcome)
      modifies `errored, `events
      ensures Took(Fail(old(View()), error), old(events), outcome)
    {
      errored := true;
      events := events + [Error(error), End];
      outcome := Stop;
    }

    method DetectFormat() returns (outcome: Outcome)
      modifies this
      ensures Took(DetectStep(old(View())), old(events), outcome)
    {
      if |buffer| < 4 { return Stop; }
      var magicNumber := buffer[..4];
      if magicNumber == [0xa1, 0xb2, 0xc3, 0xd4] {
        endianness, timestampNanosecond := Some(BE), false;
      } else if magicNumber == [0xd4, 0xc3, 0xb2, 0xa1] {
        endianness, timestampNanosecond := Some(LE), false;
      } else if magicNumber == [0xa1, 0xb2, 0x3c, 0x4d] {
        endianness, timestampNanosecond := Some(BE), true;
      } else if magicNumber == [0x4d, 0x3c, 0xb2, 0xa1] {
        endianness, timestampNanosecond := Some(LE), true;
      } else if magicNumber == SECTION_MAGIC {
        state := Phase.ParseNgBlock;
        return Go;
      } else {
        outcome := FailWith(UnknownMagic(magicNumber));
        return;
      }
      state := Phase.ParseGlobalHeader;
      return Go;
    }

    function Order(): Endian
      reads this
    {
      if endianness == Some(BE) then BE else LE
    }

    method ParseGlobalHeader() returns (outcome: Outcome)
      modifies this
      ensures Took(GlobalHeaderStep(old(View())), old(events), outcome)
    {
      if |buffer| < PCAP_GLOBAL_HEADER_LENGTH { return Stop; }
      var e, b := Order(), buffer;
      var header := GlobalHeader(
        GetU32(e, b, 0), GetU16(e, b, 4), GetU16(e, b, 6), GetI32(e, b, 8),
        GetU32(e, b, 12), GetU32(e, b, 16), GetU32(e, b, 20));
      if header.majorVersion != 2 {
        outcome := FailWith(UnsupportedVersion(header.majorVersion, header.minorVersion));
        return;
      }
      events := events + [header];
      buffer := b[PCAP_GLOBAL_HEADER_LENGTH..];
      state := Phase.ParsePacketHeader;
      offset := PCAP_GLOBAL_HEADER_LENGTH;
      return Go;
    }

    method ParsePacketHeader() returns (outcome: Outcome)
      modifies this
      ensures Took(PacketHeaderStep(old(View())), old(events), outcome)
    {
      if |buffer| < PCAP_PACKET_HEADER_LENGTH { return Stop; }
      var e := Order();
      var fraction := GetU32(e, buffer, 4);
      var header := RecordHeader(
        GetU32(e, buffer, 0),
        if timestampNanosecond then fraction / 1000 else fraction,
        if timestampNanosecond then fraction else fraction * 1000,
        GetU32(e, buffer, 8),
        GetU32(e, buffer, 12));
      if header.capturedLength > MAX_CAPTURED_LENGTH {
        outcome := FailWith(CapturedLengthTooLong(header.capturedLength));
        return;
      }
      currentPacketHeader := header;
      events := events + [PacketHeader(header)];
      buffer := buffer[PCAP_PACKET_HEADER_LENGTH..];
      state := Phase.ParsePacketBody;
      index := index + 1;
      return Go;
    }

    method ParsePacketBody() returns (outcome: Outcome)
      modifies this
      ensures Took(PacketBodyStep(old(View())), old(events), outcome)
    {
      var h := currentPacketHeader;
      if |buffer| < h.capturedLength { return Stop; }
      var data := buffer[..h.capturedLength];
      var recordLength := PCAP_PACKET_HEADER_LENGTH + |data|;
      var info := PacketInfo(
        index, offset, recordLength, offset, PCAP_PACKET_HEADER_LENGTH, offset + PCAP_PACKET_HEADER_LENGTH, |data|,
        h.seconds, h.microseconds, h.nanoseconds, data);
      events := events + [PacketData(data), Packet(info)];
      buffer := buffer[h.capturedLength..];
      state := Phase.ParsePacketHeader;
      offset := offset + recordLength;
      return Go;
    }

    method ParseInterfaceOptions(optionsStart: nat, optionsEnd: int, described: NgInterface) returns (ni: NgInterface)
      requires optionsEnd <= |buffer|
      ensures ni == InterfaceOptions(Order(), buffer, optionsStart, optionsEnd, described)
    {
      var position := optionsStart;
      ni := described;
      while position + 4 <= optionsEnd
        invariant InterfaceOptions(Order(), buffer, position, optionsEnd, ni)
               == InterfaceOptions(Order(), buffer, optionsStart, optionsEnd, described)
        decreases optionsEnd - position
      {
        var optionCode, optionLength := GetU16(Order(), buffer, position), GetU16(Order(), buffer, position + 2);
        if optionCode == 0 { return; }
        if optionCode == 9 && optionLength >= 1 && position + 4 < optionsEnd {
          var rawResolution := buffer[position + 4];
          if rawResolution >= 0x80 {
            ni := ni.(base := 2, exponent := rawResolution - 0x80);
          } else {
            ni := ni.(base := 10, exponent := rawResolution);
          }
        }
        position := position + 4 + (optionLength + 3) / 4 * 4;
      }
    }

    method EmitNgPacket(blockLength: nat, headerLength: nat, data: seq<byte>, t: Timestamp, originalLength: nat)
      modifies `index, `currentPacketHeader, `events
      ensures index == old(index) + 1
      ensures currentPacketHeader == RecordHeader(t.seconds, t.microseconds, t.nanoseconds, |data|, originalLength)
      ensures events == old(events) + [
        PacketHeader(currentPacketHeader), PacketData(data),
        Packet(RecordInfo(index, offset, blockLength, headerLength, currentPacketHeader, data))]
    {
      index := index + 1;
      currentPacketHeader := RecordHeader(t.seconds, t.microseconds, t.nanoseconds, |data|, originalLength);
      var info := PacketInfo(
        index, offset, blockLength, offset, headerLength, offset + headerLength, |data|,
        t.seconds, t.microseconds, t.nanoseconds, data);
      events := events + [PacketHeader(currentPacketHeader), PacketData(data), Packet(info)];
    }

    method ParseNgBlock() returns (outcome: Outcome)
      modifies this
      ensures Took(NgStep(old(View())), old(events), outcome)
    {
      if |buffer| < 12 { return Stop; }
      var head := buffer[..12];
      if head[..4] == SECTION_MAGIC {
        var byteOrderMagic := head[8..];
        if byteOrderMagic == [0x1a, 0x2b, 0x3c, 0x4d] {
          endianness := Some(BE);
        } else if byteOrderMagic == [0x4d, 0x3c, 0x2b, 0x1a] {
          endianness := Some(LE);
        } else {
          outcome := FailWith(UnknownByteOrderMagic(byteOrderMagic));
          return;
        }
      }
      if endianness.None? {
        outcome := FailWith(BlockBeforeSection);
        return;
      }
      ghost var known := View();
      assert NgFrame(old(View())) == CheckLength(known, Order());
      outcome := ParseKnownBlock();
    }

    /** The rest of parseNgBlock, once the byte order is known. */
    method ParseKnownBlock() returns (outcome: Outcome)
      requires |buffer| >= 12 && endianness.Some?
      modifies this
      ensures match CheckLength(old(View()), old(Order()))
              case Incomplete(s) => Took(StepResult(Stop, s, []), old(events), outcome)
              case Corrupt(s, e) => Took(Fail(s, e), old(events), outcome)
              case Complete(s, e, total) => Took(NgBody(s, e, total), old(events), outcome)
    {
      var blockTotalLength := GetU32(Order(), buffer, 4);
      if blockTotalLength < 12 || blockTotalLength % 4 != 0 {
        outcome := FailWith(InvalidBlockLength(blockTotalLength));
        return;
      }
      if blockTotalLength > MAX_BLOCK_LENGTH {
        outcome := FailWith(BlockTooLong(blockTotalLength));
        return;
      }
      if |buffer| < blockTotalLength { return Stop; }
      outcome := ParseBlockBody(blockTotalLength);
    }

    /** The switch on the block type; a read past the buffered octets leaves `Write` as an exception. */
    method ParseBlockBody(total: nat) returns (outcome: Outcome)
      requires 12 <= total <= |buffer| && endianness.Some?
      modifies this
      ensures Took(NgBody(old(View()), old(Order()), total), old(events), outcome)
    {
      var e, b := Order(), buffer;
      var blockType := GetU32(e, b, 0);
      if blockType == BLOCK_SECTION_HEADER { ngInterfaces := []; }
      if |b| < FixedLength(sectionHandler, blockType) {
        events := events + [Thrown];
        return Threw;
      }
      if blockType == BLOCK_SECTION_HEADER {
        if sectionHandler { events := events + [SectionHeader(GetU16(e, b, 12), GetU16(e, b, 14))]; }
      } else if blockType == BLOCK_INTERFACE_DESCRIPTION {
        var ni := ParseInterfaceOptions(16, total - 4, NgInterface(GetU16(e, b, 8), GetU32(e, b, 12), 10, 6));
        ngInterfaces := ngInterfaces + [ni];
      } else if blockType == BLOCK_ENHANCED_PACKET || blockType == BLOCK_OBSOLETE_PACKET {
        var interfaceId := if blockType == BLOCK_ENHANCED_PACKET then GetU32(e, b, 8) else GetU16(e, b, 8);
        outcome := ParseEnhancedPacket(total, interfaceId);
        return;
      } else if blockType == BLOCK_SIMPLE_PACKET {
        outcome := ParseSimplePacket(total);
        return;
      }
      buffer := b[total..];
      offset := offset + total;
      return Go;
    }

    method ParseEnhancedPacket(total: nat, interfaceId: nat) returns (outcome: Outcome)
      requires 12 <= total <= |buffer| && PCAPNG_EPB_HEADER_LENGTH <= |buffer|
      modifies this
      ensures var st := old(View());
              Took(EnhancedPacket(st, old(Order()), total, BlockTimestamp(st, old(Order()), interfaceId)), old(events),
                   outcome)
    {
      var e, b := Order(), buffer;
      var capturedLength := GetU32(e, b, 20);
      if capturedLength > MAX_CAPTURED_LENGTH || PCAPNG_EPB_HEADER_LENGTH + capturedLength > total - 4 {
        outcome := FailWith(CaptureDoesNotFitBlock(capturedLength, total));
        return;
      }
      var data := b[PCAPNG_EPB_HEADER_LENGTH..PCAPNG_EPB_HEADER_LENGTH + capturedLength];
      var t := NgTimestamp(InterfaceOf(ngInterfaces, interfaceId), GetU32(e, b, 12), GetU32(e, b, 16));
      EmitNgPacket(total, PCAPNG_EPB_HEADER_LENGTH, data, t, GetU32(e, b, 24));
      buffer := b[total..];
      offset := offset + total;
      return Go;
    }

    method ParseSimplePacket(total: nat) returns (outcome: Outcome)
      requires 12 <= total <= |buffer|
      modifies this
      ensures Took(SimplePacket(old(View()), old(Order()), total), old(events), outcome)
    {
      var b := buffer;
      var originalLength := GetU32(Order(), b, 8);
      var dataAreaLength := total - PCAPNG_SPB_HEADER_LENGTH - 4;
      var snapshotLength := InterfaceOf(ngInterfaces, 0).snapshotLength;
      var capturedLength :=
        Min(Min(originalLength, dataAreaLength), if snapshotLength > 0 then snapshotLength else MAX_CAPTURED_LENGTH);
      if capturedLength < 0 || capturedLength > MAX_CAPTURED_LENGTH {
        outcome := FailWith(InvalidSimplePacket(capturedLength));
        return;
      }
      var data := b[PCAPNG_SPB_HEADER_LENGTH..PCAPNG_SPB_HEADER_LENGTH + capturedLength];
      EmitNgPacket(total, PCAPNG_SPB_HEADER_LENGTH, data, Timestamp(0, 0, 0), originalLength);
      buffer := b[total..];
      offset := offset + total;
      return Go;
    }
  }
}
