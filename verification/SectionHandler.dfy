/**
 * What installing an onSectionHeader changes. Its arguments are the only fields of a block that are read on request, so
 * a caller without it gets the other reports, and does not fail on a section header that ends before its versions.
 */
module SectionHandler {
  import opened Bytes
  import opened ChunkInvariance
  import opened ParserOffsets
  import opened PcapParser

  function Unheard(st: State): State { st.(sectionHandler := false) }

  /** The reports a caller without onSectionHeader gets. */
  function WithoutSections(events: seq<Event>): seq<Event>
  {
    if events == [] then []
    else (if events[0].SectionHeader? then [] else [events[0]]) + WithoutSections(events[1..])
  }

  lemma {:induction false} WithoutAppend(a: seq<Event>, b: seq<Event>)
    ensures WithoutSections(a + b) == WithoutSections(a) + WithoutSections(b)
    decreases |a|
  {
    if a == [] {
      assert a + b == b;
    } else {
      assert (a + b)[1..] == a[1..] + b;
      WithoutAppend(a[1..], b);
    }
  }

  lemma {:induction false} WithoutNone(events: seq<Event>)
    requires forall e :: e in events ==> !e.SectionHeader?
    ensures WithoutSections(events) == events
    decreases |events|
  {
    if events != [] { WithoutNone(events[1..]); }
  }

  /** The frames reported are none of the reports left out. */
  lemma {:induction false} WithoutKeepsPackets(events: seq<Event>)
    ensures PacketsOf(WithoutSections(events)) == PacketsOf(events)
    decreases |events|
  {
    if events != [] {
      WithoutKeepsPackets(events[1..]);
      PacketsOfAppend(if events[0].SectionHeader? then [] else [events[0]], WithoutSections(events[1..]));
      PacketsOfFew(events[0], End, End);
    }
  }

  /** A step with the handler is a step without it, up to its own report. */
  predicate Agrees(r: StepResult, q: StepResult)
  {
    q == StepResult(r.outcome, Unheard(r.state), WithoutSections(r.events))
  }

  lemma BodyAgrees(st: State, e: Endian, total: nat)
    requires st.sectionHandler && 12 <= total <= |st.buffer|
    requires FixedLength(true, GetU32(e, st.buffer, 0)) <= total
    ensures Agrees(NgBody(st, e, total), NgBody(Unheard(st), e, total))
  {
    hide GetU32, GetU16, DescribedInterface, EnhancedPacket, SimplePacket, BlockTimestamp, WithoutSections;
    var b, r := st.buffer, NgBody(st, e, total);
    var blockType := GetU32(e, b, 0);
    if blockType == BLOCK_SECTION_HEADER {
      WithoutOne(r.events);
    } else if blockType == BLOCK_ENHANCED_PACKET {
      EnhancedAgrees(st, e, total, GetU32(e, b, 8));
    } else if blockType == BLOCK_OBSOLETE_PACKET {
      EnhancedAgrees(st, e, total, GetU16(e, b, 8));
    } else if blockType == BLOCK_SIMPLE_PACKET {
      SimpleAgrees(st, e, total);
    } else {
      WithoutNone([]);
    }
  }

  lemma EnhancedAgrees(st: State, e: Endian, total: nat, id: nat)
    requires PCAPNG_EPB_HEADER_LENGTH <= |st.buffer| && 12 <= total <= |st.buffer|
    ensures var t := BlockTimestamp(st, e, id);
      t == BlockTimestamp(Unheard(st), e, id)
      && Agrees(EnhancedPacket(st, e, total, t), EnhancedPacket(Unheard(st), e, total, t))
  {
    hide GetU32, NgTimestamp, WithoutSections;
    WithoutNone(EnhancedPacket(st, e, total, BlockTimestamp(st, e, id)).events);
  }

  lemma SimpleAgrees(st: State, e: Endian, total: nat)
    requires 12 <= total <= |st.buffer|
    ensures Agrees(SimplePacket(st, e, total), SimplePacket(Unheard(st), e, total))
  {
    hide GetU32, WithoutSections;
    WithoutNone(SimplePacket(st, e, total).events);
  }

  lemma WithoutOne(events: seq<Event>)
    requires |events| == 1 && events[0].SectionHeader?
    ensures WithoutSections(events) == []
  {
    assert events[1..] == [];
  }

  lemma NgAgrees(st: State)
    requires st.phase.ParseNgBlock? && st.sectionHandler && !Undersized(st)
    ensures Agrees(NgStep(st), NgStep(Unheard(st))) && !Undersized(Unheard(st))
  {
    hide NgBody, GetU32;
    var f := NgFrame(st);
    match f
    case Incomplete(_) =>
    case Corrupt(_, e) => WithoutNone([Error(e), End]);
    case Complete(s, e, total) => BodyAgrees(s, e, total);
  }

  lemma StepAgrees(st: State)
    requires st.sectionHandler && !Undersized(st)
    ensures Agrees(Step(st), Step(Unheard(st))) && !Undersized(Unheard(st))
  {
    hide GetU32, GetU16, GetI32, WithoutSections, NgStep, NgFrame;
    if st.phase.ParseNgBlock? {
      NgAgrees(st);
    } else {
      WithoutNone(Step(st).events);
    }
  }

  lemma {:induction false} DrainAgrees(st: State)
    requires st.sectionHandler && Sized(st)
    ensures var d := Drain(st); Drain(Unheard(st)) == Run(Unheard(d.state), WithoutSections(d.events))
    ensures Sized(Unheard(st))
    decreases |st.buffer|, Rank(st.phase)
  {
    hide Step, Undersized;
    StepAgrees(st);
    StepProgress(st);
    var r := Step(st);
    if r.outcome.Go? {
      KeepsHandler(st);
      DrainAgrees(r.state);
      WithoutAppend(r.events, Drain(r.state).events);
    }
  }

  lemma KeepsHandler(st: State)
    ensures Step(st).state.sectionHandler == st.sectionHandler
  {
    hide GetU32, GetU16, GetI32, NgBody, BlockOrder, GlobalHeaderStep;
    GlobalKeepsHandler(st);
    var f := NgFrame(st);
    if f.Complete? { BodyKeepsHandler(f.state, f.order, f.total); }
  }

  lemma BodyKeepsHandler(st: State, e: Endian, total: nat)
    requires 12 <= total <= |st.buffer|
    ensures NgBody(st, e, total).state.sectionHandler == st.sectionHandler
  {
    hide GetU32, GetU16, NgTimestamp, DescribedInterface;
  }

  lemma GlobalKeepsHandler(st: State)
    ensures GlobalHeaderStep(st).state.sectionHandler == st.sectionHandler
  {
    hide GetU32, GetU16, GetI32;
  }

  /**
   * On a stream none of whose blocks is shorter than the fields read for a caller with every handler, the index
   * builder's and the watch's parser is safe too, and under any cut reports the same but for the section headers.
   */
  lemma HandlerOnlyListens(s: seq<byte>, chunks: seq<seq<byte>>)
    requires Sized(Init.Extend(s)) && Concat(chunks) == s
    ensures Sized(FrameReader.Extend(s))
    ensures Feed(FrameReader, chunks).events == WithoutSections(Feed(Init, chunks).events)
    ensures PacketsOf(Feed(FrameReader, chunks).events) == PacketsOf(Feed(Init, chunks).events)
  {
    hide Sized, Drain;
    DrainAgrees(Init.Extend(s));
    assert Unheard(Init.Extend(s)) == FrameReader.Extend(s);
    if chunks != [] {
      AnyCut(Init, chunks);
      AnyCut(FrameReader, chunks);
    }
    WithoutKeepsPackets(Feed(Init, chunks).events);
  }

  // ---- the shortest streams that depend on their cut ----

  /** A section header block of 12 octets, and one followed by an interface description block of 12 octets. */
  const SHORT_SECTION: seq<byte> := [0x0a, 0x0d, 0x0d, 0x0a, 0, 0, 0, 12, 0x1a, 0x2b, 0x3c, 0x4d]
  const SHORT_INTERFACE: seq<byte> := SHORT_SECTION + [0, 0, 0, 1, 0, 0, 0, 12, 0, 0, 0, 12]

  /** Without an onSectionHeader, a section header of any length is read past. */
  lemma SectionIsRead(st: State)
    requires st.phase.ParseNgBlock? && !st.sectionHandler && |st.buffer| >= 4 && st.buffer[..4] == SECTION_MAGIC
    ensures !Undersized(st)
  {
    assert |st.buffer| >= 12 ==> st.buffer[..12][..4] == st.buffer[..4];
    assert GetU32(BE, st.buffer, 0) == GetU32(LE, st.buffer, 0) == BLOCK_SECTION_HEADER;
  }

  /** A stream of fewer than 24 octets holds no undersized block behind a section header. */
  lemma TinyIsRead(t: seq<byte>)
    requires |t| < |SHORT_INTERFACE|
    ensures Sized(FrameReader.Extend(t))
  {
    hide GetU32, NgStep, NgFrame;
    if !Sized(FrameReader.Extend(t)) {
      UnsizedIsNg(false, t);
      var ng := FrameReader.Extend(t).(phase := ParseNgBlock);
      AppendNil(t);
      SectionIsRead(ng);
      KeepsHandler(ng);
      NgProgress(ng);
      NgKeepsPhase(ng);
      RestIsRead(Step(ng).state);
    }
  }

  lemma RestIsRead(st: State)
    requires st.phase.ParseNgBlock? && |st.buffer| < 12
    ensures Sized(st)
  {
  }

  /** The parser goes past the section header, and then reads past the end of the interface description. */
  lemma ShortInterfaceThrows()
    ensures !Sized(FrameReader.Extend(SHORT_INTERFACE))
    ensures Thrown in Drain(FrameReader.Extend(SHORT_INTERFACE)).events
  {
    hide Step, NgFrame, Drain, Sized, Undersized;
    var s := SHORT_INTERFACE;
    AppendNil(s);
    assert s[..4] == SECTION_MAGIC;
    var ng := FrameReader.Extend(s).(phase := ParseNgBlock);
    HeadIsRead(ng);
    var rest := Step(ng).state;
    InterfaceUndersized(rest);
    UndersizedThrows(rest);
    assert Trim(rest, 12) == rest;
    MagicGoes(false, s);
    NgDrain(false, s);
    DrainGoes(ng);
    UnsizedGoes(ng);
    UnsizedGoes(FrameReader.Extend(s));
  }

  lemma UnsizedGoes(st: State)
    requires Step(st).outcome.Go? && !Sized(Step(st).state)
    ensures !Sized(st)
  {
    hide Step, Undersized;
  }

  lemma DrainGoes(st: State)
    requires Step(st).outcome.Go?
    ensures Drain(st).events == Step(st).events + Drain(Step(st).state).events
  {
    hide Step;
  }

  lemma HeadIsRead(ng: State)
    requires ng.phase.ParseNgBlock? && ng.buffer == SHORT_INTERFACE && !ng.sectionHandler && !ng.errored
    ensures Step(ng).outcome.Go?
    ensures var rest := Step(ng).state;
      rest.phase.ParseNgBlock? && rest.endianness == Some(BE) && rest.buffer == SHORT_INTERFACE[12..] && !rest.errored
  {
    var head := ng.buffer[..12];
    assert head[..4] == SECTION_MAGIC && head[8..] == [0x1a, 0x2b, 0x3c, 0x4d];
    assert GetU32(BE, ng.buffer, 4) == 12 && GetU32(BE, ng.buffer, 0) == BLOCK_SECTION_HEADER;
    assert NgFrame(ng) == CheckLength(ng.(endianness := Some(BE)), BE);
  }

  lemma InterfaceUndersized(st: State)
    requires st.phase.ParseNgBlock? && st.endianness == Some(BE) && st.buffer == SHORT_INTERFACE[12..]
    ensures Undersized(st) && NgFrame(st).total == 12 == |st.buffer|
    ensures !Sized(st)
  {
    assert st.buffer[..12][..4] != SECTION_MAGIC by { assert st.buffer[..12][..4][3] == 1; }
    assert GetU32(BE, st.buffer, 4) == 12 && GetU32(BE, st.buffer, 0) == BLOCK_INTERFACE_DESCRIPTION;
    assert NgFrame(st) == CheckLength(st, BE);
  }

  lemma OneChunk(listens: bool, s: seq<byte>)
    ensures Feed(NewParser(listens), [s]).events == Drain(NewParser(listens).Extend(s)).events
  {
    assert [s][1..] == [];
    AppendNil(Drain(NewParser(listens).Extend(s)).events);
  }

  lemma ShortSectionThrows()
    ensures !Sized(Init.Extend(SHORT_SECTION))
    ensures var d := Drain(Init.Extend(SHORT_SECTION));
      d.events == [Thrown] && !d.state.errored && Drain(d.state.Extend([])).events == [Thrown]
  {
    hide Step, NgStep, NgFrame, Drain, Sized, Undersized;
    var s := SHORT_SECTION;
    assert s[..4] == SECTION_MAGIC;
    var ng := Init.Extend(s).(phase := ParseNgBlock);
    AppendNil(s);
    ShortFrame(ng);
    UndersizedThrows(ng);
    assert Trim(ng, 12) == ng && s[12..] == [];
    NgDrain(true, s);
    MagicGoes(true, s);
    UnsizedGoes(Init.Extend(s));
  }

  lemma MagicGoes(listens: bool, s: seq<byte>)
    requires |s| >= 4 && s[..4] == SECTION_MAGIC
    ensures var st := NewParser(listens).Extend(s);
      Step(st) == StepResult(Go, st.(phase := ParseNgBlock), [])
  {
    AppendNil(s);
  }

  lemma TinySized(t: seq<byte>)
    requires |t| < 12
    ensures Sized(Init.Extend(t))
  {
    hide Step;
    if !Sized(Init.Extend(t)) {
      UnsizedIsNg(true, t);
      AppendNil(t);
      RestIsRead(Init.Extend(t).(phase := ParseNgBlock));
    }
  }

  lemma ShortFrame(ng: State)
    requires ng.phase.ParseNgBlock? && ng.buffer == SHORT_SECTION && ng.sectionHandler
    ensures Undersized(ng) && NgFrame(ng).total == 12 && !Sized(ng)
  {
    var head := ng.buffer[..12];
    assert head[..4] == SECTION_MAGIC && head[8..] == [0x1a, 0x2b, 0x3c, 0x4d];
    assert GetU32(BE, ng.buffer, 4) == 12 && GetU32(BE, ng.buffer, 0) == BLOCK_SECTION_HEADER;
    assert NgFrame(ng) == CheckLength(ng.(endianness := Some(BE)), BE);
  }

  /**
   * A caller with every handler gets an exception from the 12-octet section header, on the write of it and again on the
   * next; one without an onSectionHeader gets nothing from it, and its exception from the interface description block
   * that follows. No shorter stream depends on its cut for either.
   */
  lemma ShortestUnsized()
    ensures Feed(Init, [SHORT_SECTION]).events == [Thrown] && Feed(Init, [SHORT_SECTION, []]).events == [Thrown, Thrown]
    ensures !Sized(Init.Extend(SHORT_SECTION)) && forall s: seq<byte> :: |s| < 12 ==> Sized(Init.Extend(s))
    ensures Thrown in Feed(FrameReader, [SHORT_INTERFACE]).events && !Sized(FrameReader.Extend(SHORT_INTERFACE))
    ensures forall s: seq<byte> :: |s| < 24 ==> Sized(FrameReader.Extend(s))
  {
    hide Drain, Sized, Feed;
    ShortSectionThrows();
    OneChunk(true, SHORT_SECTION);
    AppendNil(SHORT_SECTION);
    TwoChunks(true, SHORT_SECTION, []);
    ShortInterfaceThrows();
    OneChunk(false, SHORT_INTERFACE);
    forall s: seq<byte> | |s| < 12 ensures Sized(Init.Extend(s)) { TinySized(s); }
    forall s: seq<byte> | |s| < 24 ensures Sized(FrameReader.Extend(s)) { TinyIsRead(s); }
  }
}
