/** Generated files read back the same however they are cut. */
module GeneratedCuts {
  import opened Bytes
  import opened ChunkInvariance
  import opened PcapParser
  import opened WriterInverse
  import G = PcapGenerators

  /**
   * A packet block is longer than its fixed fields, and the parser goes past it unless block or frame is over its
   * limit.
   */
  lemma BlockIsSized(st: State, f: Fields, tail: seq<byte>)
    requires BetweenBlocks(st) && Holds(st.buffer, f, tail)
    ensures !Undersized(st)
    ensures NgStep(st).outcome.Go? ==> f.total <= MAX_BLOCK_LENGTH && |f.frame| <= MAX_CAPTURED_LENGTH
  {
    hide GetU32, NgTimestamp;
    OrdinaryFrame(st);
  }

  lemma {:induction false} BlocksSized(ps: seq<G.Entry>, st: State)
    requires BetweenBlocks(st) && Spells(st.buffer, ps)
    ensures Sized(st)
    decreases |ps|
  {
    hide NgStep, NgFrame, Holds, NgTimestamp, Undersized;
    if ps == [] {
      NothingSized(st);
    } else {
      var f, h := FieldsOf(ps[0]), EnhancedHeaderOf(ps[0]);
      var tail := st.buffer[f.total..];
      BlockIsSized(st, f, tail);
      if NgStep(st).outcome.Go? {
        var t := NgTimestamp(InterfaceOf(st.interfaces, f.interfaceId), f.high, f.low);
        EnhancedStep(st, f, t, tail);
        var after :=
          AfterBlock(st, f.total, RecordHeader(t.seconds, t.microseconds, t.nanoseconds, |f.frame|, |f.frame|), tail);
        BlocksSized(ps[1..], after);
      }
    }
  }

  lemma NothingSized(st: State)
    requires st.phase.ParseNgBlock? && st.buffer == []
    ensures Sized(st)
  {
  }

  /** One step of a block whose length covers its fixed fields. */
  lemma StepSized(st: State, next: State, events: seq<Event>)
    requires Step(st) == StepResult(Go, next, events) && !Undersized(st) && Sized(next)
    ensures Sized(st)
  {
    hide Step, Undersized;
  }

  lemma SectionIsSized(tail: seq<byte>)
    ensures !Undersized(Init.Extend(G.SECTION_HEADER + tail).(phase := ParseNgBlock))
  {
    hide GetU32, GetU16, NgBody;
    var b := G.SECTION_HEADER + tail;
    AppendNil(b);
    SectionReads(tail);
    var known := Init.Extend(b).(phase := ParseNgBlock, endianness := Some(LE));
    assert CheckLength(known, LE) == Complete(known, LE, 28) by { LengthChecked(known, 28); }
  }

  lemma InterfaceIsSized(o: G.Options, tail: seq<byte>, st: State)
    requires o.Writable() && st.phase.ParseNgBlock? && st.endianness == Some(LE)
    requires st.buffer == G.Words(LE, G.InterfaceWords(o)) + tail
    ensures !Undersized(st)
  {
    hide GetU32, G.Words;
    InterfaceReads(o, tail, st.buffer);
    OrdinaryFrame(st);
    LengthChecked(st, 20);
  }

  /** No block of a generated pcapng file is shorter than its fixed fields. */
  lemma PcapngSized(ps: seq<G.Entry>, o: G.Options)
    requires o.Writable() && G.AllWritable(ps)
    ensures Sized(Init.Extend(G.PcapngFile(ps, o)))
  {
    hide GetU32, G.Words, G.Blocks, NgStep, NgFrame, DetectStep, Sized, Undersized;
    var blocks := G.Blocks(ps);
    var rest := G.Words(LE, G.InterfaceWords(o)) + blocks;
    var b := G.SECTION_HEADER + rest;
    AppendNil(b);
    var start := Init.Extend(b);
    var ng := start.(phase := ParseNgBlock);
    SectionDetected(start, rest);
    var inSection := ng.(buffer := rest, endianness := Some(LE), offset := 28);
    SectionStep(rest);
    SectionIsSized(rest);
    var described := inSection.(
      buffer := blocks, offset := 48, interfaces := [NgInterface(o.linkLayerType, o.snapshotLength, 10, 6)]);
    InterfaceStep(o, blocks, inSection);
    InterfaceIsSized(o, blocks, inSection);
    BlocksSpell(ps);
    BlocksSized(ps, described);
    StepSized(inSection, described, []);
    StepSized(ng, inSection, [SectionHeader(1, 0)]);
    StartNotUndersized(start);
    StepSized(start, ng, []);
  }

  lemma StartNotUndersized(st: State)
    requires !st.phase.ParseNgBlock?
    ensures !Undersized(st)
  {
  }

  lemma PcapSized(ps: seq<G.Entry>)
    requires G.AllWritable(ps)
    ensures Sized(Init.Extend(G.PcapFile(ps)))
  {
    hide GetU32, GetU16, GetI32, G.Records, DetectStep, GlobalHeaderStep, Sized, Undersized;
    var start := Init.Extend(G.PcapFile(ps));
    AppendNil(G.PcapFile(ps));
    HeaderSteps(start, G.Records(ps));
    var detected := start.(phase := ParseGlobalHeader, endianness := Some(BE), nanosecond := false);
    ClassicSized(detected);
    StartNotUndersized(start);
    StepSized(start, detected, []);
  }

  /** Cut anywhere, a written pcap file parses back to its header and then its packets. */
  lemma PcapCutsInverse(ps: seq<G.Entry>, chunks: seq<seq<byte>>)
    requires G.AllWritable(ps) && Concat(chunks) == G.PcapFile(ps)
    ensures Feed(Init, chunks).events == [FILE_HEADER] + RecordTrace(ps, 0, 24)
  {
    hide Sized, Feed, Write, RecordTrace;
    PcapSized(ps);
    PcapInverse(ps);
    ChunkInvarianceIff(true, G.PcapFile(ps));
  }

  /** Cut anywhere, a written pcapng file parses back to its section header and then its packets. */
  lemma PcapngCutsInverse(ps: seq<G.Entry>, o: G.Options, chunks: seq<seq<byte>>)
    requires o.Writable() && G.AllWritable(ps) && Concat(chunks) == G.PcapngFile(ps, o)
    ensures Feed(Init, chunks).events == [SectionHeader(1, 0)] + BlockTrace(ps, 0, 48)
  {
    hide Sized, Feed, Write, BlockTrace;
    PcapngSized(ps, o);
    PcapngInverse(ps, o);
    ChunkInvarianceIff(true, G.PcapngFile(ps, o));
  }
}
