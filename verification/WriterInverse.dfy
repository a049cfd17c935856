/** Parsing what the generators wrote: the frames, timestamps and positions that come back. */
module WriterInverse {
  import opened Bytes
  import opened PcapParser
  import G = PcapGenerators

  // ---- classic pcap ----

  /** What the record of `p` reads back as. */
  function RecordHeaderOf(p: G.Entry): RecordHeader
  {
    var c := p.clock;
    RecordHeader(c.CarriedSeconds() % 0x1_0000_0000, c.CarriedMicros(), c.CarriedMicros() * 1000, |p.frame|, |p.frame|)
  }

  /** The three handler calls for one packet. */
  function PacketEvents(index: nat, offset: nat, length: nat, headerLength: nat, h: RecordHeader,
                        frame: seq<byte>): seq<Event>
  {
    [PacketHeader(h), PacketData(frame), Packet(RecordInfo(index, offset, length, headerLength, h, frame))]
  }

  /**
   * The trace of records ps, the first at `offset`, after `count` packets: each packet in turn, up to the
   * first frame longer than the parser's limit, which is reported as an error.
   */
  function RecordTrace(ps: seq<G.Entry>, count: nat, offset: nat): seq<Event>
  {
    if ps == [] then []
    else
      var h, n := RecordHeaderOf(ps[0]), |ps[0].frame|;
      if n > MAX_CAPTURED_LENGTH then [Error(CapturedLengthTooLong(n)), End]
      else
        PacketEvents(count + 1, offset, 16 + n, 16, h, ps[0].frame) + RecordTrace(ps[1..], count + 1, offset + 16 + n)
  }

  /** The parser between two records of a generated file. */
  predicate BetweenRecords(st: State)
  {
    st.phase.ParsePacketHeader? && st.endianness == Some(BE) && !st.nanosecond && !st.errored
  }

  lemma RecordReads(p: G.Entry, tail: seq<byte>, st: State)
    requires p.Writable() && BetweenRecords(st) && st.buffer == G.Record(p) + tail
    ensures |st.buffer| >= 16 && ReadRecordHeader(st) == RecordHeaderOf(p) && st.buffer[16..] == p.frame + tail
  {
    var ws := G.RecordWords(p);
    var rest := p.frame + tail;
    AppendAssociates(G.Words(BE, ws), p.frame, tail);
    assert st.buffer == G.Words(BE, ws) + rest;
    G.WordAt(BE, ws, rest, 0);
    G.WordAt(BE, ws, rest, 1);
    G.WordAt(BE, ws, rest, 2);
    G.WordAt(BE, ws, rest, 3);
    assert ReadOrder(st) == BE;
  }

  lemma DrainStep(st: State, next: State, events: seq<Event>)
    requires Step(st) == StepResult(Go, next, events)
    ensures Drain(st) == Run(Drain(next).state, events + Drain(next).events)
  {
  }

  lemma HeaderStep(st: State, h: RecordHeader)
    requires BetweenRecords(st) && |st.buffer| >= 16 && ReadRecordHeader(st) == h
      && h.capturedLength <= MAX_CAPTURED_LENGTH
    ensures Step(st) == StepResult(Go,
      st.(current := h, buffer := st.buffer[16..], phase := ParsePacketBody, index := st.index + 1), [PacketHeader(h)])
  {
  }

  lemma BodyStep(st: State, frame: seq<byte>, tail: seq<byte>)
    requires st.phase.ParsePacketBody? && st.buffer == frame + tail && |frame| == st.current.capturedLength
    ensures Step(st) == StepResult(Go,
      st.(buffer := tail, phase := ParsePacketHeader, offset := st.offset + 16 + |frame|),
      [PacketData(frame), Packet(RecordInfo(st.index, st.offset, 16 + |frame|, 16, st.current, frame))])
  {
    assert st.buffer[..|frame|] == frame && st.buffer[|frame|..] == tail;
  }

  function AfterRecord(st: State, h: RecordHeader, n: nat, tail: seq<byte>): State
  {
    st.(buffer := tail, index := st.index + 1, offset := st.offset + 16 + n, current := h)
  }

  lemma RecordDrains(st: State, h: RecordHeader, frame: seq<byte>, tail: seq<byte>)
    requires BetweenRecords(st) && |st.buffer| >= 16 && ReadRecordHeader(st) == h && st.buffer[16..] == frame + tail
    requires |frame| == h.capturedLength <= MAX_CAPTURED_LENGTH
    ensures Drain(st).events ==
      PacketEvents(st.index + 1, st.offset, 16 + |frame|, 16, h, frame)
        + Drain(AfterRecord(st, h, |frame|, tail)).events
  {
    HeaderStep(st, h);
    var body := st.(current := h, buffer := frame + tail, phase := ParsePacketBody, index := st.index + 1);
    BodyStep(body, frame, tail);
    var next := AfterRecord(st, h, |frame|, tail);
    var told := Step(body).events;
    DrainStep(st, body, [PacketHeader(h)]);
    DrainStep(body, next, told);
    AppendAssociates([PacketHeader(h)], told, Drain(next).events);
  }

  lemma OversizeRecord(st: State, h: RecordHeader)
    requires BetweenRecords(st) && |st.buffer| >= 16 && ReadRecordHeader(st) == h
      && h.capturedLength > MAX_CAPTURED_LENGTH
    ensures Drain(st).events == [Error(CapturedLengthTooLong(h.capturedLength)), End]
  {
    assert Step(st) == Fail(st, CapturedLengthTooLong(h.capturedLength));
  }

  lemma NothingLeft(st: State)
    requires BetweenRecords(st) && st.buffer == []
    ensures Drain(st) == Run(st, [])
  {
    assert Step(st) == StepResult(Stop, st, []);
  }

  /** The trace of a record followed by the trace `rest`. */
  function RecordTold(count: nat, offset: nat, h: RecordHeader, frame: seq<byte>, rest: seq<Event>): seq<Event>
  {
    if |frame| > MAX_CAPTURED_LENGTH then [Error(CapturedLengthTooLong(|frame|)), End]
    else PacketEvents(count + 1, offset, 16 + |frame|, 16, h, frame) + rest
  }

  /** One record, given what the rest of the file drains to. */
  lemma RecordThenRest(st: State, h: RecordHeader, frame: seq<byte>, tail: seq<byte>, rest: seq<Event>)
    requires BetweenRecords(st) && |st.buffer| >= 16 && st.buffer[16..] == frame + tail
    requires ReadRecordHeader(st) == h && h.capturedLength == |frame|
    requires rest == Drain(AfterRecord(st, h, |frame|, tail)).events
    ensures Drain(st).events == RecordTold(st.index, st.offset, h, frame, rest)
  {
    if |frame| <= MAX_CAPTURED_LENGTH {
      RecordDrains(st, h, frame, tail);
    } else {
      OversizeRecord(st, h);
    }
  }

  lemma RecordTraceStep(ps: seq<G.Entry>, count: nat, offset: nat, h: RecordHeader, next: State)
    requires ps != [] && h == RecordHeaderOf(ps[0])
    requires next.index == count + 1 && next.offset == offset + 16 + |ps[0].frame|
    ensures RecordTrace(ps, count, offset)
         == RecordTold(count, offset, h, ps[0].frame, RecordTrace(ps[1..], next.index, next.offset))
  {
  }

  lemma {:induction false} RecordsDrain(ps: seq<G.Entry>, st: State)
    requires G.AllWritable(ps) && BetweenRecords(st) && st.buffer == G.Records(ps)
    ensures Drain(st).events == RecordTrace(ps, st.index, st.offset)
    decreases |ps|
  {
    if ps == [] {
      NothingLeft(st);
    } else {
      var tail := G.Records(ps[1..]);
      var h := RecordHeaderOf(ps[0]);
      RecordReads(ps[0], tail, st);
      var next := AfterRecord(st, h, |ps[0].frame|, tail);
      RecordsDrain(ps[1..], next);
      RecordThenRest(st, h, ps[0].frame, tail, Drain(next).events);
      RecordTraceStep(ps, st.index, st.offset, h, next);
    }
  }

  const FILE_HEADER := GlobalHeader(0xa1b2c3d4, 2, 4, 0, 0, 65535, 1)

  lemma GlobalHeaderReads(tail: seq<byte>)
    ensures var b := G.GLOBAL_HEADER + tail;
            && GetU32(BE, b, 0) == 0xa1b2c3d4 && GetU16(BE, b, 4) == 2 && GetU16(BE, b, 6) == 4 && GetI32(BE, b, 8) == 0
            && GetU32(BE, b, 12) == 0 && GetU32(BE, b, 16) == 65535 && GetU32(BE, b, 20) == 1
            && b[..4] == [0xa1, 0xb2, 0xc3, 0xd4] && b[24..] == tail
  {
    assert GetU32(BE, G.GLOBAL_HEADER, 0) == 0xa1b2c3d4;
  }

  /** The two steps over a generated file header. */
  lemma HeaderSteps(start: State, records: seq<byte>)
    requires start == Init.(buffer := G.GLOBAL_HEADER + records)
    ensures var detected := start.(phase := ParseGlobalHeader, endianness := Some(BE), nanosecond := false);
      && DetectStep(start) == StepResult(Go, detected, [])
      && GlobalHeaderStep(detected)
         == StepResult(Go, detected.(buffer := records, phase := ParsePacketHeader, offset := 24), [FILE_HEADER])
  {
    hide GetU32, GetU16, GetI32;
    GlobalHeaderReads(records);
  }

  /** A written pcap file parses back to its header and then its packets. */
  lemma PcapInverse(ps: seq<G.Entry>)
    requires G.AllWritable(ps)
    ensures Write(Init, G.PcapFile(ps)).events == [FILE_HEADER] + RecordTrace(ps, 0, 24)
  {
    hide GetU32, GetU16, GetI32, G.Records, RecordTrace, DetectStep, GlobalHeaderStep;
    var records := G.Records(ps);
    var start := Init.Extend(G.PcapFile(ps));
    AppendNil(G.PcapFile(ps));
    var detected := start.(phase := ParseGlobalHeader, endianness := Some(BE), nanosecond := false);
    var ready := detected.(buffer := records, phase := ParsePacketHeader, offset := 24);
    HeaderSteps(start, records);
    RecordsDrain(ps, ready);
    AppendNil(Drain(detected).events);
  }

  // ---- pcapng ----

  /** The tick counter as the two 32-bit halves carry it. */
  function Wrapped(ticks: nat): (w: nat)
    ensures w == ticks % 0x1_0000_0000_0000_0000
  {
    HalvesWrap(ticks);
    G.HighWord(ticks) * 0x1_0000_0000 + G.LowWord(ticks)
  }

  lemma HalvesWrap(ticks: nat)
    ensures ticks / 0x1_0000_0000 % 0x1_0000_0000 * 0x1_0000_0000 + ticks % 0x1_0000_0000
      == ticks % 0x1_0000_0000_0000_0000
  {
  }

  function EnhancedHeaderOf(p: G.Entry): RecordHeader
  {
    var t := Wrapped(p.clock.Ticks());
    RecordHeader(t / 1_000_000, t % 1_000_000, t % 1_000_000 * 1000, |p.frame|, |p.frame|)
  }

  /** Microsecond ticks split into seconds and fractions. */
  lemma MicrosecondTicks(ni: NgInterface, high: nat, low: nat)
    requires ni.base == 10 && ni.exponent == 6
    ensures var t := high * 0x1_0000_0000 + low;
            NgTimestamp(ni, high, low) == Timestamp(t / 1_000_000, t % 1_000_000, t % 1_000_000 * 1000)
  {
    assert Pow(10, 1) == 10 && Pow(10, 2) == 100 && Pow(10, 3) == 1000;
    assert Pow(10, 4) == 10_000 && Pow(10, 5) == 100_000 && Pow(10, 6) == 1_000_000;
    var f := (high * 0x1_0000_0000 + low) % 1_000_000;
    assert f * 1_000_000_000 == (f * 1000) * 1_000_000;
    assert Rescale(f, 1_000_000, 1_000_000) == f && Rescale(f, 1_000_000_000, 1_000_000) == f * 1000;
  }

  function BlockLength(p: G.Entry): nat
  {
    32 + |p.frame| + G.Padding(|p.frame|)
  }

  /** The trace of enhanced packet blocks, up to the first one whose frame is over the parser's limit. */
  function BlockTrace(ps: seq<G.Entry>, count: nat, offset: nat): seq<Event>
  {
    if ps == [] then []
    else
      var n, total := |ps[0].frame|, BlockLength(ps[0]);
      if total > MAX_BLOCK_LENGTH then [Error(BlockTooLong(total)), End]
      else if n > MAX_CAPTURED_LENGTH then [Error(CaptureDoesNotFitBlock(n, total)), End]
      else
        PacketEvents(count + 1, offset, total, 28, EnhancedHeaderOf(ps[0]), ps[0].frame)
        + BlockTrace(ps[1..], count + 1, offset + total)
  }

  /** The parser between two packet blocks of a generated file. */
  predicate BetweenBlocks(st: State)
  {
    && st.phase.ParseNgBlock? && st.endianness == Some(LE) && !st.errored
    && |st.interfaces| == 1 && st.interfaces[0].base == 10 && st.interfaces[0].exponent == 6
  }

  /** The fields of a packet block as the parser reads them. */
  datatype Fields = Fields(total: nat, interfaceId: nat, high: nat, low: nat, frame: seq<byte>)

  function FieldsOf(p: G.Entry): Fields
  {
    Fields(BlockLength(p), p.interfaceId, G.HighWord(p.clock.Ticks()), G.LowWord(p.clock.Ticks()), p.frame)
  }

  /** A buffer that starts with a block of those fields, followed by `tail`. */
  predicate Holds(b: seq<byte>, f: Fields, tail: seq<byte>)
  {
    && 32 + |f.frame| <= f.total && |b| == f.total + |tail| && f.total % 4 == 0
    && b[0] == 6
    && GetU32(LE, b, 0) == 6 && GetU32(LE, b, 4) == f.total && GetU32(LE, b, 8) == f.interfaceId
    && GetU32(LE, b, 12) == f.high && GetU32(LE, b, 16) == f.low
    && GetU32(LE, b, 20) == |f.frame| && GetU32(LE, b, 24) == |f.frame|
    && b[28..28 + |f.frame|] == f.frame && b[f.total..] == tail
  }

  lemma BlockReads(p: G.Entry, tail: seq<byte>)
    requires p.Writable()
    ensures Holds(G.EnhancedBlock(p) + tail, FieldsOf(p), tail)
  {
    var ws, n := G.EnhancedWords(p), |p.frame|;
    var pad := G.Padding(n);
    BlockAligned(n, pad);
    assert ws[1] == 32 + n + pad;
    HoldsFrom(ws, p.frame, Zeros(pad), PutU32(LE, BlockLength(p)), tail);
  }

  lemma BlockAligned(n: nat, pad: nat)
    requires (n + pad) % 4 == 0
    ensures (32 + n + pad) % 4 == 0
  {
  }

  lemma HoldsFrom(ws: seq<G.u32>, frame: seq<byte>, pad: seq<byte>, end: seq<byte>, tail: seq<byte>)
    requires |ws| == 7 && ws[0] == 6 && ws[1] == 28 + |frame| + |pad| + |end| && ws[1] % 4 == 0 && |end| == 4
    requires ws[5] == ws[6] == |frame|
    ensures Holds(G.Words(LE, ws) + frame + pad + end + tail, Fields(ws[1], ws[2], ws[3], ws[4], frame), tail)
  {
    var b := G.Words(LE, ws) + frame + pad + end + tail;
    BlockSlices(G.Words(LE, ws), frame, pad, end, tail);
    WordsAt(ws, frame + pad + end + tail);
    SmallFirst(b);
  }

  lemma SmallFirst(b: seq<byte>)
    requires |b| >= 4 && GetU32(LE, b, 0) < 256
    ensures b[0] == GetU32(LE, b, 0)
  {
  }

  lemma BlockSlices(words: seq<byte>, frame: seq<byte>, pad: seq<byte>, end: seq<byte>, tail: seq<byte>)
    requires |words| == 28
    ensures var b, total := words + frame + pad + end + tail, 28 + |frame| + |pad| + |end|;
            b == words + (frame + pad + end + tail) && b[28..28 + |frame|] == frame && b[total..] == tail
  {
  }

  lemma WordsAt(ws: seq<G.u32>, rest: seq<byte>)
    requires |ws| == 7
    ensures forall i :: 0 <= i < 7 ==> GetU32(LE, G.Words(LE, ws) + rest, 4 * i) == ws[i]
    ensures var b := G.Words(LE, ws) + rest;
            GetU32(LE, b, 0) == ws[0] && GetU32(LE, b, 4) == ws[1] && GetU32(LE, b, 8) == ws[2]
              && GetU32(LE, b, 12) == ws[3]
            && GetU32(LE, b, 16) == ws[4] && GetU32(LE, b, 20) == ws[5] && GetU32(LE, b, 24) == ws[6]
  {
    forall i | 0 <= i < 7 ensures GetU32(LE, G.Words(LE, ws) + rest, 4 * i) == ws[i] {
      G.WordAt(LE, ws, rest, i);
    }
  }

  function AfterBlock(st: State, total: nat, h: RecordHeader, tail: seq<byte>): State
  {
    st.(buffer := tail, index := st.index + 1, offset := st.offset + total, current := h)
  }

  /** The head of a block that is not a section header. */
  lemma OrdinaryFrame(st: State)
    requires st.phase.ParseNgBlock? && st.endianness == Some(LE) && |st.buffer| >= 12 && st.buffer[0] != 0x0a
    ensures NgFrame(st) == CheckLength(st, LE)
  {
    var head := st.buffer[..12];
    assert head[..4][0] == st.buffer[0];
    assert st.(endianness := Some(LE)) == st;
  }

  lemma EnhancedStep(st: State, f: Fields, t: Timestamp, tail: seq<byte>)
    requires BetweenBlocks(st) && Holds(st.buffer, f, tail)
    requires f.total <= MAX_BLOCK_LENGTH && |f.frame| <= MAX_CAPTURED_LENGTH
    requires t == NgTimestamp(InterfaceOf(st.interfaces, f.interfaceId), f.high, f.low)
    ensures var h := RecordHeader(t.seconds, t.microseconds, t.nanoseconds, |f.frame|, |f.frame|);
            NgStep(st) == StepResult(Go, AfterBlock(st, f.total, h, tail),
              PacketEvents(st.index + 1, st.offset, f.total, 28, h, f.frame))
  {
    OrdinaryFrame(st);
    assert NgFrame(st) == Complete(st, LE, f.total);
    assert NgStep(st) == EnhancedPacket(st, LE, f.total, t);
  }

  lemma OverlongBlock(st: State, f: Fields, tail: seq<byte>)
    requires BetweenBlocks(st) && Holds(st.buffer, f, tail) && f.total > MAX_BLOCK_LENGTH
    ensures Drain(st).events == [Error(BlockTooLong(f.total)), End]
  {
    OrdinaryFrame(st);
    DrainFail(st, BlockTooLong(f.total));
  }

  lemma OverlongFrame(st: State, f: Fields, tail: seq<byte>)
    requires BetweenBlocks(st) && Holds(st.buffer, f, tail)
    requires f.total <= MAX_BLOCK_LENGTH && |f.frame| > MAX_CAPTURED_LENGTH
    ensures Drain(st).events == [Error(CaptureDoesNotFitBlock(|f.frame|, f.total)), End]
  {
    OrdinaryFrame(st);
    assert NgFrame(st) == Complete(st, LE, f.total);
    assert NgStep(st) == EnhancedPacket(st, LE, f.total, BlockTimestamp(st, LE, f.interfaceId));
    DrainFail(st, CaptureDoesNotFitBlock(|f.frame|, f.total));
  }

  lemma DrainFail(st: State, e: ParseError)
    requires st.phase.ParseNgBlock? && NgStep(st) == Fail(st, e)
    ensures Drain(st).events == [Error(e), End]
  {
    hide NgStep;
  }

  /** The timestamp fields of a written block, read through a microsecond interface. */
  lemma WrittenTimestamp(st: State, p: G.Entry)
    requires BetweenBlocks(st)
    ensures var f, h := FieldsOf(p), EnhancedHeaderOf(p);
            NgTimestamp(InterfaceOf(st.interfaces, f.interfaceId), f.high, f.low)
            == Timestamp(h.seconds, h.microseconds, h.nanoseconds)
  {
    var f := FieldsOf(p);
    MicrosecondTicks(InterfaceOf(st.interfaces, f.interfaceId), f.high, f.low);
  }

  lemma EnhancedThenRest(st: State, f: Fields, h: RecordHeader, tail: seq<byte>)
    requires BetweenBlocks(st) && Holds(st.buffer, f, tail)
    requires f.total <= MAX_BLOCK_LENGTH && |f.frame| <= MAX_CAPTURED_LENGTH
    requires h.capturedLength == h.originalLength == |f.frame|
    requires NgTimestamp(InterfaceOf(st.interfaces, f.interfaceId), f.high, f.low)
          == Timestamp(h.seconds, h.microseconds, h.nanoseconds)
    ensures Drain(st).events
         == PacketEvents(st.index + 1, st.offset, f.total, 28, h, f.frame)
           + Drain(AfterBlock(st, f.total, h, tail)).events
  {
    var t := Timestamp(h.seconds, h.microseconds, h.nanoseconds);
    EnhancedStep(st, f, t, tail);
    assert RecordHeader(t.seconds, t.microseconds, t.nanoseconds, |f.frame|, |f.frame|) == h;
    NgDrainStep(st, AfterBlock(st, f.total, h, tail), PacketEvents(st.index + 1, st.offset, f.total, 28, h, f.frame));
  }

  /** The trace of a block followed by the trace `rest`. */
  function ToldOf(count: nat, offset: nat, f: Fields, h: RecordHeader, rest: seq<Event>): seq<Event>
  {
    if f.total > MAX_BLOCK_LENGTH then [Error(BlockTooLong(f.total)), End]
    else if |f.frame| > MAX_CAPTURED_LENGTH then [Error(CaptureDoesNotFitBlock(|f.frame|, f.total)), End]
    else PacketEvents(count + 1, offset, f.total, 28, h, f.frame) + rest
  }

  /** One block, given what the rest of the file drains to. */
  lemma BlockThenRest(st: State, f: Fields, h: RecordHeader, tail: seq<byte>)
    requires BetweenBlocks(st) && Holds(st.buffer, f, tail)
    requires h.capturedLength == h.originalLength == |f.frame|
    requires NgTimestamp(InterfaceOf(st.interfaces, f.interfaceId), f.high, f.low)
          == Timestamp(h.seconds, h.microseconds, h.nanoseconds)
    ensures Drain(st).events == ToldOf(st.index, st.offset, f, h, Drain(AfterBlock(st, f.total, h, tail)).events)
  {
    hide Drain, Holds, NgTimestamp;
    if f.total > MAX_BLOCK_LENGTH {
      OverlongBlock(st, f, tail);
    } else if |f.frame| > MAX_CAPTURED_LENGTH {
      OverlongFrame(st, f, tail);
    } else {
      EnhancedThenRest(st, f, h, tail);
    }
  }

  lemma NgDrainStep(st: State, next: State, events: seq<Event>)
    requires st.phase.ParseNgBlock? && NgStep(st) == StepResult(Go, next, events)
    ensures Drain(st) == Run(Drain(next).state, events + Drain(next).events)
  {
  }

  /** A buffer that spells out the blocks of `ps` and nothing else. */
  predicate Spells(b: seq<byte>, ps: seq<G.Entry>)
  {
    if ps == [] then b == []
    else
      var total := BlockLength(ps[0]);
      total <= |b| && Holds(b, FieldsOf(ps[0]), b[total..]) && Spells(b[total..], ps[1..])
  }

  lemma {:induction false} BlocksSpell(ps: seq<G.Entry>)
    requires G.AllWritable(ps)
    ensures Spells(G.Blocks(ps), ps)
  {
    if ps != [] {
      BlockReads(ps[0], G.Blocks(ps[1..]));
      BlocksSpell(ps[1..]);
    }
  }

  lemma BlockTraceStep(ps: seq<G.Entry>, count: nat, offset: nat, f: Fields, h: RecordHeader, next: State)
    requires ps != [] && f == FieldsOf(ps[0]) && h == EnhancedHeaderOf(ps[0])
    requires next.index == count + 1 && next.offset == offset + f.total
    ensures BlockTrace(ps, count, offset) == ToldOf(count, offset, f, h, BlockTrace(ps[1..], next.index, next.offset))
  {
  }

  lemma {:induction false} BlocksDrain(ps: seq<G.Entry>, st: State)
    requires BetweenBlocks(st) && Spells(st.buffer, ps)
    ensures Drain(st).events == BlockTrace(ps, st.index, st.offset)
    decreases |ps|
  {
    if ps == [] {
      NoBlockLeft(st);
    } else {
      var f, h := FieldsOf(ps[0]), EnhancedHeaderOf(ps[0]);
      var tail := st.buffer[f.total..];
      WrittenTimestamp(st, ps[0]);
      var next := AfterBlock(st, f.total, h, tail);
      BlocksDrain(ps[1..], next);
      BlockThenRest(st, f, h, tail);
      BlockTraceStep(ps, st.index, st.offset, f, h, next);
    }
  }

  lemma NoBlockLeft(st: State)
    requires st.phase.ParseNgBlock? && st.buffer == []
    ensures Drain(st).events == []
  {
    assert Step(st) == StepResult(Stop, st, []);
  }

  /** Draining the two leading blocks of a generated file. */
  lemma SectionStep(tail: seq<byte>)
    ensures var st := Init.Extend(G.SECTION_HEADER + tail).(phase := ParseNgBlock);
            NgStep(st)
              == StepResult(Go, st.(buffer := tail, endianness := Some(LE), offset := 28), [SectionHeader(1, 0)])
  {
    var b := G.SECTION_HEADER + tail;
    AppendNil(b);
    var st := Init.Extend(b).(phase := ParseNgBlock);
    SectionReads(tail);
    var known := st.(endianness := Some(LE));
    assert CheckLength(known, LE) == Complete(known, LE, 28);
    assert NgStep(st) == NgBody(known, LE, 28);
  }

  lemma SectionReads(tail: seq<byte>)
    ensures var b := G.SECTION_HEADER + tail;
            && GetU32(LE, b, 0) == BLOCK_SECTION_HEADER && GetU32(LE, b, 4) == 28
            && GetU16(LE, b, 12) == 1 && GetU16(LE, b, 14) == 0 && b[28..] == tail
    ensures var b := G.SECTION_HEADER + tail;
            NgFrame(Init.Extend(b).(phase := ParseNgBlock))
              == CheckLength(Init.Extend(b).(phase := ParseNgBlock, endianness := Some(LE)), LE)
  {
    hide GetU32, GetU16, CheckLength;
    var b := G.SECTION_HEADER + tail;
    AppendNil(b);
    SectionWords(b, tail);
    assert b[..4] == SECTION_MAGIC && b[8..12] == [0x4d, 0x3c, 0x2b, 0x1a];
  }

  lemma SectionWords(b: seq<byte>, tail: seq<byte>)
    requires b == G.SECTION_HEADER + tail
    ensures GetU32(LE, b, 0) == BLOCK_SECTION_HEADER && GetU32(LE, b, 4) == 28
    ensures GetU16(LE, b, 12) == 1 && GetU16(LE, b, 14) == 0
  {
  }

  lemma InterfaceStep(o: G.Options, tail: seq<byte>, st: State)
    requires o.Writable() && st.phase.ParseNgBlock? && st.endianness == Some(LE) && st.interfaces == []
    requires st.buffer == G.Words(LE, G.InterfaceWords(o)) + tail
    ensures NgStep(st) == StepResult(Go,
      st.(buffer := tail, offset := st.offset + 20,
          interfaces := [NgInterface(o.linkLayerType, o.snapshotLength, 10, 6)]), [])
  {
    hide GetU32, GetU16, G.Words, CheckLength;
    InterfaceReads(o, tail, st.buffer);
    OrdinaryFrame(st);
    DescribedIs(o, st.buffer);
    assert CheckLength(st, LE) == Complete(st, LE, 20) by { LengthChecked(st, 20); }
  }

  lemma LengthChecked(st: State, total: nat)
    requires 12 <= total <= |st.buffer| && total % 4 == 0 && total <= MAX_BLOCK_LENGTH
      && GetU32(LE, st.buffer, 4) == total
    ensures CheckLength(st, LE) == Complete(st, LE, total)
  {
  }

  lemma InterfaceReads(o: G.Options, tail: seq<byte>, b: seq<byte>)
    requires o.Writable() && b == G.Words(LE, G.InterfaceWords(o)) + tail
    ensures |b| == 20 + |tail| && b[0] == 1 && b[20..] == tail
    ensures GetU32(LE, b, 0) == 1 && GetU32(LE, b, 4) == 20 && GetU32(LE, b, 12) == o.snapshotLength
    ensures GetU32(LE, b, 8) == o.linkLayerType
  {
    hide GetU32, G.Words;
    var ws := G.InterfaceWords(o);
    G.WordAt(LE, ws, tail, 0);
    G.WordAt(LE, ws, tail, 1);
    G.WordAt(LE, ws, tail, 2);
    G.WordAt(LE, ws, tail, 3);
    SmallFirst(b);
  }

  lemma DescribedIs(o: G.Options, b: seq<byte>)
    requires o.Writable() && |b| >= 20 && GetU32(LE, b, 8) == o.linkLayerType && GetU32(LE, b, 12) == o.snapshotLength
    ensures DescribedInterface(LE, b, 20) == NgInterface(o.linkLayerType, o.snapshotLength, 10, 6)
  {
  }

  lemma SectionDetected(start: State, rest: seq<byte>)
    requires start == Init.(buffer := G.SECTION_HEADER + rest)
    ensures DetectStep(start) == StepResult(Go, start.(phase := ParseNgBlock), [])
  {
    assert start.buffer[..4] == SECTION_MAGIC;
  }

  /** A written pcapng file parses back to its section header and then its packets. */
  lemma PcapngInverse(ps: seq<G.Entry>, o: G.Options)
    requires o.Writable() && G.AllWritable(ps)
    ensures Write(Init, G.PcapngFile(ps, o)).events == [SectionHeader(1, 0)] + BlockTrace(ps, 0, 48)
  {
    hide GetU32, G.Words, G.Blocks, BlockTrace, NgStep, DetectStep;
    var blocks := G.Blocks(ps);
    var rest := G.Words(LE, G.InterfaceWords(o)) + blocks;
    var b := G.SECTION_HEADER + rest;
    AppendNil(b);
    var start := Init.Extend(b);
    var ng := start.(phase := ParseNgBlock);
    SectionDetected(start, rest);
    DrainStep(start, ng, []);
    var inSection := ng.(buffer := rest, endianness := Some(LE), offset := 28);
    SectionStep(rest);
    NgDrainStep(ng, inSection, [SectionHeader(1, 0)]);
    var described :=
      inSection.(buffer := blocks, offset := 48, interfaces := [NgInterface(o.linkLayerType, o.snapshotLength, 10, 6)]);
    InterfaceStep(o, blocks, inSection);
    NgDrainStep(inSection, described, []);
    BlocksSpell(ps);
    BlocksDrain(ps, described);
    AppendNil(Drain(described).events);
    AppendNil(Drain(ng).events);
  }
}
