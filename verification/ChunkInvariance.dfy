/**
 * How the cut of a stream into chunks can and cannot be observed.
 *
 * The parser produces the same trace for every cut of a stream exactly when no pcapng block it reaches
 * is shorter than the fields its type always reads; classic pcap streams are never affected.
 */
module ChunkInvariance {
  import opened Bytes
  import opened PcapParser

  /** A complete block is at the head of the buffer, and is shorter than the fields its type always reads. */
  predicate Undersized(st: State)
  {
    st.phase.ParseNgBlock? &&
    var f := NgFrame(st);
    f.Complete? && f.total < FixedLength(st.sectionHandler, GetU32(f.order, st.buffer, 0))
  }

  /** No block that draining `st` reaches is undersized. */
  predicate Sized(st: State)
    decreases |st.buffer|, Rank(st.phase)
  {
    StepProgress(st);
    !Undersized(st) && (Step(st).outcome.Go? ==> Sized(Step(st).state))
  }

  // ---- one step on a longer buffer ----

  lemma SliceExtend(b: seq<byte>, x: seq<byte>, i: nat, j: nat)
    requires i <= j <= |b|
    ensures (b + x)[i..j] == b[i..j]
    ensures (b + x)[j..] == b[j..] + x
  {
  }

  lemma {:induction false} OptionsExtend(e: Endian, b: seq<byte>, x: seq<byte>, position: nat, end: int,
                                         ni: NgInterface)
    requires end <= |b|
    ensures InterfaceOptions(e, b + x, position, end, ni) == InterfaceOptions(e, b, position, end, ni)
    decreases end - position
  {
    hide GetU16, ApplyOption;
    if position + 4 <= end {
      GetBefore(e, b, x, position);
      GetBefore(e, b, x, position + 2);
      var code, length := GetU16(e, b, position), GetU16(e, b, position + 2);
      var applied := ApplyOption(b, position, end, code, length, ni);
      ApplyExtend(b, x, position, end, code, length, ni);
      if code != 0 {
        OptionsExtend(e, b, x, position + 4 + (length + 3) / 4 * 4, end, applied);
      }
    }
  }

  lemma ApplyExtend(b: seq<byte>, x: seq<byte>, position: nat, end: int, code: nat, length: nat, ni: NgInterface)
    requires end <= |b|
    ensures ApplyOption(b + x, position, end, code, length, ni) == ApplyOption(b, position, end, code, length, ni)
  {
  }

  lemma LengthExtend(st: State, e: Endian, x: seq<byte>)
    requires |st.buffer| >= 12
    ensures var f, fx := CheckLength(st, e), CheckLength(st.Extend(x), e);
            match f
            case Complete(s, e, total) => fx == Complete(s.Extend(x), e, total)
            case Corrupt(s, error) => fx == Corrupt(s.Extend(x), error)
            case Incomplete(s) => s == st
  {
    GetBefore(e, st.buffer, x, 4);
  }

  lemma FrameExtend(st: State, x: seq<byte>)
    ensures var f, fx := NgFrame(st), NgFrame(st.Extend(x));
            match f
            case Complete(s, e, total) => fx == Complete(s.Extend(x), e, total)
            case Corrupt(s, error) => fx == Corrupt(s.Extend(x), error)
            case Incomplete(s) => s.buffer == st.buffer && s.phase == st.phase && s.errored == st.errored
  {
    if |st.buffer| >= 12 {
      var head := st.buffer[..12];
      assert (st.buffer + x)[..12] == head;
      var order := BlockOrder(st.endianness, head);
      if order.Some? {
        LengthExtend(st.(endianness := order), order.value, x);
        assert NgFrame(st) == CheckLength(st.(endianness := order), order.value);
        assert NgFrame(st.Extend(x)) == CheckLength(st.(endianness := order).Extend(x), order.value);
      }
    }
  }

  /** A block that is still incomplete is read the same way when the parser comes back to it. */
  lemma FrameRetry(st: State, x: seq<byte>)
    requires NgFrame(st).Incomplete?
    ensures NgFrame(NgFrame(st).state.Extend(x)) == NgFrame(st.Extend(x))
  {
    if |st.buffer| >= 12 {
      var head := st.buffer[..12];
      assert (st.buffer + x)[..12] == head;
      var order := BlockOrder(st.endianness, head);
      assert NgFrame(st).state == st.(endianness := order);
      assert BlockOrder(order, head) == order;
    }
  }

  lemma BodyExtend(st: State, e: Endian, total: nat, x: seq<byte>)
    requires 12 <= total <= |st.buffer|
    requires FixedLength(st.sectionHandler, GetU32(e, st.buffer, 0)) <= total
    ensures var r := NgBody(st, e, total);
            NgBody(st.Extend(x), e, total) == r.(state := r.state.Extend(x)) && !r.outcome.Threw?
  {
    hide EnhancedPacket, SimplePacket, BlockTimestamp, InterfaceOptions, GetU32, GetU16;
    var b := st.buffer;
    GetBefore(e, b, x, 0);
    SliceExtend(b, x, 0, total);
    var blockType := GetU32(e, b, 0);
    if blockType == BLOCK_SECTION_HEADER {
      SectionExtend(st, e, total, x);
    } else if blockType == BLOCK_INTERFACE_DESCRIPTION {
      GetBefore(e, b, x, 8);
      GetBefore(e, b, x, 12);
      OptionsExtend(e, b, x, 16, total - 4, NgInterface(GetU16(e, b, 8), GetU32(e, b, 12), 10, 6));
    } else if blockType == BLOCK_ENHANCED_PACKET {
      GetBefore(e, b, x, 8);
      TimestampExtend(st, e, GetU32(e, b, 8), x);
      EnhancedExtend(st, e, total, BlockTimestamp(st, e, GetU32(e, b, 8)), x);
    } else if blockType == BLOCK_OBSOLETE_PACKET {
      GetBefore(e, b, x, 8);
      TimestampExtend(st, e, GetU16(e, b, 8), x);
      EnhancedExtend(st, e, total, BlockTimestamp(st, e, GetU16(e, b, 8)), x);
    } else if blockType == BLOCK_SIMPLE_PACKET {
      SimpleExtend(st, e, total, x);
    }
  }

  lemma SectionExtend(st: State, e: Endian, total: nat, x: seq<byte>)
    requires 12 <= total <= |st.buffer| && GetU32(e, st.buffer, 0) == BLOCK_SECTION_HEADER
    requires FixedLength(st.sectionHandler, BLOCK_SECTION_HEADER) <= total
    ensures var r := NgBody(st, e, total);
            NgBody(st.Extend(x), e, total) == r.(state := r.state.Extend(x)) && !r.outcome.Threw?
  {
    hide EnhancedPacket, SimplePacket, BlockTimestamp, DescribedInterface, GetU32, GetU16;
    var b := st.buffer;
    GetBefore(e, b, x, 0);
    SliceExtend(b, x, 0, total);
    if st.sectionHandler {
      GetBefore(e, b, x, 12);
      GetBefore(e, b, x, 14);
    }
  }

  lemma EmitExtend(st: State, length: nat, headerLength: nat, data: seq<byte>, t: Timestamp, original: nat,
                   x: seq<byte>)
    requires length <= |st.buffer|
    ensures var r := EmitPacket(st, length, headerLength, data, t, original);
            EmitPacket(st.Extend(x), length, headerLength, data, t, original) == r.(state := r.state.Extend(x))
  {
    SliceExtend(st.buffer, x, 0, length);
  }

  lemma EmitGoes(st: State, length: nat, headerLength: nat, data: seq<byte>, t: Timestamp, original: nat)
    requires length <= |st.buffer|
    ensures EmitPacket(st, length, headerLength, data, t, original).outcome.Go?
  {
  }

  lemma TimestampExtend(st: State, e: Endian, id: nat, x: seq<byte>)
    requires PCAPNG_EPB_HEADER_LENGTH <= |st.buffer|
    ensures BlockTimestamp(st.Extend(x), e, id) == BlockTimestamp(st, e, id)
  {
    GetBefore(e, st.buffer, x, 12);
    GetBefore(e, st.buffer, x, 16);
  }

  lemma EnhancedExtend(st: State, e: Endian, total: nat, t: Timestamp, x: seq<byte>)
    requires PCAPNG_EPB_HEADER_LENGTH <= |st.buffer| && 12 <= total <= |st.buffer|
    ensures var r := EnhancedPacket(st, e, total, t);
            EnhancedPacket(st.Extend(x), e, total, t) == r.(state := r.state.Extend(x)) && !r.outcome.Threw?
  {
    hide GetU32, EmitPacket;
    var b := st.buffer;
    GetBefore(e, b, x, 20);
    GetBefore(e, b, x, 24);
    var n := GetU32(e, b, 20);
    if n <= MAX_CAPTURED_LENGTH && PCAPNG_EPB_HEADER_LENGTH + n <= total - 4 {
      SliceExtend(b, x, PCAPNG_EPB_HEADER_LENGTH, PCAPNG_EPB_HEADER_LENGTH + n);
      var data := b[PCAPNG_EPB_HEADER_LENGTH..PCAPNG_EPB_HEADER_LENGTH + n];
      EmitExtend(st, total, PCAPNG_EPB_HEADER_LENGTH, data, t, GetU32(e, b, 24), x);
      EmitGoes(st, total, PCAPNG_EPB_HEADER_LENGTH, data, t, GetU32(e, b, 24));
    }
  }

  lemma SimpleExtend(st: State, e: Endian, total: nat, x: seq<byte>)
    requires 12 <= total <= |st.buffer|
    ensures var r := SimplePacket(st, e, total);
            SimplePacket(st.Extend(x), e, total) == r.(state := r.state.Extend(x)) && !r.outcome.Threw?
  {
    hide GetU32, EmitPacket;
    GetBefore(e, st.buffer, x, 8);
    var original := GetU32(e, st.buffer, 8);
    var n := SimpleCapturedLength(original, total, InterfaceOf(st.interfaces, 0).snapshotLength);
    if 0 <= n <= MAX_CAPTURED_LENGTH {
      var data := st.buffer[PCAPNG_SPB_HEADER_LENGTH..PCAPNG_SPB_HEADER_LENGTH + n];
      SliceExtend(st.buffer, x, PCAPNG_SPB_HEADER_LENGTH, PCAPNG_SPB_HEADER_LENGTH + n);
      EmitExtend(st, total, PCAPNG_SPB_HEADER_LENGTH, data, Timestamp(0, 0, 0), original, x);
      EmitGoes(st, total, PCAPNG_SPB_HEADER_LENGTH, data, Timestamp(0, 0, 0), original);
    }
  }

  lemma GlobalHeaderExtend(st: State, x: seq<byte>)
    requires |st.buffer| >= PCAP_GLOBAL_HEADER_LENGTH
    ensures var r := GlobalHeaderStep(st); GlobalHeaderStep(st.Extend(x)) == r.(state := r.state.Extend(x))
  {
    var e, b := ReadOrder(st), st.buffer;
    assert ReadOrder(st.Extend(x)) == e;
    GetBefore(e, b, x, 0);
    GetBefore(e, b, x, 4);
    GetBefore(e, b, x, 6);
    GetBefore(e, b, x, 8);
    GetBefore(e, b, x, 12);
    GetBefore(e, b, x, 16);
    GetBefore(e, b, x, 20);
    SliceExtend(b, x, 0, PCAP_GLOBAL_HEADER_LENGTH);
  }

  lemma PacketHeaderExtend(st: State, x: seq<byte>)
    requires |st.buffer| >= PCAP_PACKET_HEADER_LENGTH
    ensures var r := PacketHeaderStep(st); PacketHeaderStep(st.Extend(x)) == r.(state := r.state.Extend(x))
  {
    var e, b := ReadOrder(st), st.buffer;
    assert ReadOrder(st.Extend(x)) == e;
    GetBefore(e, b, x, 0);
    GetBefore(e, b, x, 4);
    GetBefore(e, b, x, 8);
    GetBefore(e, b, x, 12);
    SliceExtend(b, x, 0, PCAP_PACKET_HEADER_LENGTH);
  }

  lemma NgExtend(st: State, x: seq<byte>)
    requires st.phase.ParseNgBlock? && !Undersized(st)
    ensures var r, rx := NgStep(st), NgStep(st.Extend(x));
            && !r.outcome.Threw?
            && (r.outcome.Go? ==> r.state.errored == st.errored)
            && (r.outcome.Go? || (r.state.errored && !st.errored) ==> rx == r.(state := r.state.Extend(x)))
            && (!r.outcome.Go? && !r.state.errored ==>
                  r.events == [] && r.state.phase == st.phase && NgStep(r.state.Extend(x)) == rx
                  && r.state.buffer == st.buffer)
  {
    FrameExtend(st, x);
    var f := NgFrame(st);
    match f
    case Incomplete(_) => FrameRetry(st, x);
    case Corrupt(_, _) =>
    case Complete(s, e, total) => BodyExtend(s, e, total, x); BodyOutcome(s, e, total);
  }

  lemma BodyOutcome(st: State, e: Endian, total: nat)
    requires 12 <= total <= |st.buffer|
    ensures var r := NgBody(st, e, total);
            (r.outcome.Go? ==> r.state.errored == st.errored) && (r.outcome.Stop? ==> r.state.errored)
  {
  }

  /** A step that did not wait does the same on a longer buffer; one that waited can be retried later. */
  lemma StepExtend(st: State, x: seq<byte>)
    requires !st.errored && !Undersized(st)
    ensures var r, rx := Step(st), Step(st.Extend(x));
            && !r.outcome.Threw?
            && (r.outcome.Go? ==> !r.state.errored)
            && (r.outcome.Go? || r.state.errored ==> rx == r.(state := r.state.Extend(x)))
            && (!r.outcome.Go? && !r.state.errored ==>
                  r.events == [] && r.state.phase == st.phase && Step(r.state.Extend(x)) == rx
                  && r.state.buffer == st.buffer)
  {
    match st.phase
    case DetectFormat =>
      if |st.buffer| >= 4 { SliceExtend(st.buffer, x, 0, 4); }
    case ParseGlobalHeader =>
      if |st.buffer| >= PCAP_GLOBAL_HEADER_LENGTH { GlobalHeaderExtend(st, x); }
    case ParsePacketHeader =>
      if |st.buffer| >= PCAP_PACKET_HEADER_LENGTH { PacketHeaderExtend(st, x); }
    case ParsePacketBody =>
      var n := st.current.capturedLength;
      if n <= |st.buffer| {
        SliceExtend(st.buffer, x, 0, n);
        assert (st.buffer + x)[..n] == st.buffer[..n];
      }
    case ParseNgBlock => NgExtend(st, x);
  }

  lemma UndersizedExtend(st: State, x: seq<byte>)
    ensures Undersized(st) ==> Undersized(st.Extend(x))
  {
    FrameExtend(st, x);
    if |st.buffer| >= 4 {
      GetBefore(BE, st.buffer, x, 0);
      GetBefore(LE, st.buffer, x, 0);
    }
  }

  lemma {:induction false} SizedPrefix(st: State, x: seq<byte>)
    requires !st.errored && Sized(st.Extend(x))
    ensures Sized(st)
    decreases |st.buffer|, Rank(st.phase)
  {
    UndersizedExtend(st, x);
    StepExtend(st, x);
    StepProgress(st);
    if Step(st).outcome.Go? { SizedPrefix(Step(st).state, x); }
  }

  // ---- any cut gives the same trace ----

  /** What draining a state to `d` relates to when `x` arrives before or after; `sized` if that makes a sized buffer. */
  predicate DrainsTo(d: Run, dx: Run, x: seq<byte>, sized: bool)
  {
    if d.state.errored then dx == d.(state := d.state.Extend(x))
    else
      var rest := Drain(d.state.Extend(x));
      dx == Run(rest.state, d.events + rest.events) && (sized ==> Sized(d.state.Extend(x)))
  }

  /** Draining a longer buffer is draining the shorter one and then, unless that failed, the remainder. */
  lemma {:induction false} DrainExtend(st: State, x: seq<byte>)
    requires !st.errored && Sized(st)
    ensures DrainsTo(Drain(st), Drain(st.Extend(x)), x, Sized(st.Extend(x)))
    decreases |st.buffer|, Rank(st.phase)
  {
    StepProgress(st);
    if Step(st).outcome.Go? {
      DrainGo(st, x);
      DrainExtend(Step(st).state, x);
      PrependEvents(Step(st).events, Drain(Step(st).state), Drain(Step(st).state.Extend(x)), x, Sized(st.Extend(x)));
    } else {
      DrainStop(st, x);
    }
  }

  lemma DrainGo(st: State, x: seq<byte>)
    requires !st.errored && !Undersized(st) && Step(st).outcome.Go?
    ensures var r := Step(st);
            !r.state.errored && (Sized(st.Extend(x)) ==> Sized(r.state.Extend(x)))
            && Drain(st) == Prepended(r.events, Drain(r.state))
            && Drain(st.Extend(x)) == Prepended(r.events, Drain(r.state.Extend(x)))
  {
    StepExtend(st, x);
  }

  function Prepended(events: seq<Event>, d: Run): Run
  {
    Run(d.state, events + d.events)
  }

  lemma PrependEvents(events: seq<Event>, d: Run, dx: Run, x: seq<byte>, sized: bool)
    requires DrainsTo(d, dx, x, sized)
    ensures DrainsTo(Prepended(events, d), Prepended(events, dx), x, sized)
  {
    if !d.state.errored {
      var rest := Drain(d.state.Extend(x));
      AppendAssociates(events, d.events, rest.events);
    }
  }

  lemma DrainStop(st: State, x: seq<byte>)
    requires !st.errored && !Undersized(st) && !Step(st).outcome.Go?
    ensures DrainsTo(Drain(st), Drain(st.Extend(x)), x, Sized(st.Extend(x)))
  {
    StepExtend(st, x);
    var r := Step(st);
    assert Drain(st) == Run(r.state, r.events);
    if !r.state.errored {
      DrainRetry(st, x);
      AppendNil(Drain(r.state.Extend(x)).events);
    }
  }

  lemma DrainRetry(st: State, x: seq<byte>)
    requires !st.errored && !Undersized(st)
    requires Step(st).outcome.Stop? && !Step(st).state.errored
    ensures var waited := Step(st).state.Extend(x);
            Drain(st.Extend(x)) == Drain(waited) && Sized(waited) == Sized(st.Extend(x))
    ensures Step(st).events == []
  {
    var waited := Step(st).state.Extend(x);
    StepExtend(st, x);
    WaitedFrame(st, x);
    SameStepSameDrain(waited, st.Extend(x));
    SameStepSameSized(waited, st.Extend(x));
  }

  lemma SameStepSameDrain(a: State, b: State)
    requires Step(a) == Step(b)
    ensures Drain(a) == Drain(b)
  {
  }

  lemma SameStepSameSized(a: State, b: State)
    requires Step(a) == Step(b) && Undersized(a) == Undersized(b)
    ensures Sized(a) == Sized(b)
  {
  }

  lemma WaitedFrame(st: State, x: seq<byte>)
    requires !st.errored && !Undersized(st)
    requires Step(st).outcome.Stop? && !Step(st).state.errored
    ensures Undersized(Step(st).state.Extend(x)) == Undersized(st.Extend(x))
  {
    StepExtend(st, x);
    if st.phase.ParseNgBlock? {
      var f := NgFrame(st);
      if f.Complete? { BodyOutcome(f.state, f.order, f.total); }
      FrameExtend(st, x);
      FrameRetry(st, x);
    }
  }

  /** Feeding a sized stream in any pieces gives the trace, and unless it failed the state, of feeding it whole. */
  lemma {:induction false} AnyCut(st: State, chunks: seq<seq<byte>>)
    requires chunks != [] && !st.errored && Sized(st.Extend(Concat(chunks)))
    ensures var whole, fed := Drain(st.Extend(Concat(chunks))), Feed(st, chunks);
            fed.events == whole.events && fed.state.errored == whole.state.errored
            && (!fed.state.errored ==> fed.state == whole.state)
    decreases |chunks|
  {
    var first, rest := chunks[0], chunks[1..];
    var st1 := st.Extend(first);
    var tail := Concat(rest);
    assert st.Extend(Concat(chunks)) == st1.Extend(tail) by {
      assert st.buffer + (first + tail) == st.buffer + first + tail;
    }
    SizedPrefix(st1, tail);
    DrainExtend(st1, tail);
    var d := Drain(st1);
    if rest == [] {
      assert tail == [];
      assert st1.Extend(tail) == st1 by { assert st1.buffer + [] == st1.buffer; }
      AppendNil(d.events);
    } else if d.state.errored {
      ErroredStaysSilent(d.state, rest);
      AppendNil(d.events);
    } else {
      AnyCut(d.state, rest);
    }
  }

  lemma {:induction false} ErroredStaysSilent(st: State, chunks: seq<seq<byte>>)
    requires st.errored
    ensures Feed(st, chunks) == Run(st, [])
    decreases |chunks|
  {
    if chunks != [] { ErroredStaysSilent(st, chunks[1..]); }
  }

  lemma ThrownMeansThrew(st: State)
    ensures Thrown in Step(st).events ==> Step(st).outcome.Threw?
  {
    match st.phase
    case DetectFormat =>
    case ParseGlobalHeader =>
    case ParsePacketHeader =>
    case ParsePacketBody =>
    case ParseNgBlock =>
      var f := NgFrame(st);
      if f.Complete? { BodyThrown(f.state, f.order, f.total); }
  }

  lemma BodyThrown(st: State, e: Endian, total: nat)
    requires 12 <= total <= |st.buffer|
    ensures Thrown in NgBody(st, e, total).events ==> NgBody(st, e, total).outcome.Threw?
  {
  }

  /** Draining a sized buffer never raises an exception. */
  lemma {:induction false} SizedNeverThrows(st: State)
    requires Sized(st) && !st.errored
    ensures Thrown !in Drain(st).events
    decreases |st.buffer|, Rank(st.phase)
  {
    hide Step, Undersized;
    StepProgress(st);
    ThrownMeansThrew(st);
    StepExtend(st, []);
    if Step(st).outcome.Go? { SizedNeverThrows(Step(st).state); }
  }

  // ---- the exact condition ----

  /** Classic pcap never meets the condition's failure. */
  lemma {:induction false} ClassicSized(st: State)
    requires !st.phase.ParseNgBlock? && !st.phase.DetectFormat?
    ensures Sized(st)
    decreases |st.buffer|, Rank(st.phase)
  {
    StepProgress(st);
    if Step(st).outcome.Go? { ClassicSized(Step(st).state); }
  }

  function Trim(st: State, n: nat): State
    requires n <= |st.buffer|
  {
    st.(buffer := st.buffer[..n])
  }

  lemma TrimExtend(st: State, n: nat)
    requires n <= |st.buffer|
    ensures Trim(st, n).Extend(st.buffer[n..]) == st
  {
    assert st.buffer[..n] + st.buffer[n..] == st.buffer;
  }

  lemma FrameTrim(st: State, n: nat)
    requires NgFrame(st).Complete? && NgFrame(st).total <= n <= |st.buffer|
    ensures NgFrame(Trim(st, n)) == Complete(Trim(NgFrame(st).state, n), NgFrame(st).order, NgFrame(st).total)
  {
    var head := st.buffer[..12];
    assert st.buffer[..n][..12] == head;
    TrimExtend(st, n);
    GetBefore(NgFrame(st).order, st.buffer[..n], st.buffer[n..], 4);
  }

  /** Where to cut so that the first undersized block is complete but nothing after it has arrived. */
  function CutPoint(st: State): nat
    requires st.phase.ParseNgBlock? && !Sized(st)
    decreases |st.buffer|
  {
    if Undersized(st) then NgFrame(st).total
    else
      NgProgress(st);
      NgKeepsPhase(st);
      |st.buffer| - |Step(st).state.buffer| + CutPoint(Step(st).state)
  }

  lemma NgKeepsPhase(st: State)
    requires st.phase.ParseNgBlock?
    ensures NgStep(st).outcome.Go? ==>
      NgFrame(st).Complete? && NgStep(st).state.phase == st.phase
      && NgStep(st).state.buffer == st.buffer[NgFrame(st).total..]
  {
    var f := NgFrame(st);
    if f.Complete? { BodyKeepsPhase(f.state, f.order, f.total); }
  }

  lemma BodyKeepsPhase(st: State, e: Endian, total: nat)
    requires 12 <= total <= |st.buffer|
    ensures NgBody(st, e, total).outcome.Go? ==> NgBody(st, e, total).state.phase == st.phase
  {
  }

  /** At that cut the first write throws, and the second repeats the block: one event more than feeding whole. */
  lemma {:induction false} CutShows(st: State)
    requires st.phase.ParseNgBlock? && !st.errored && !Sized(st)
    ensures var c := CutPoint(st);
            && 12 <= c <= |st.buffer|
            && var d := Drain(Trim(st, c));
            && !d.state.errored
            && |d.events| + |Drain(d.state.Extend(st.buffer[c..])).events| == |Drain(st).events| + 1
    decreases |st.buffer|
  {
    if Undersized(st) {
      UndersizedThrows(st);
    } else {
      NgProgress(st);
      NgKeepsPhase(st);
      NgExtend(st, []);
      var next := Step(st).state;
      CutShows(next);
      var c, c' := CutPoint(st), CutPoint(next);
      var total := NgFrame(st).total;
      TrimStep(st, c);
      assert next.buffer[..c'] == st.buffer[..c][total..];
      assert next.buffer[c'..] == st.buffer[c..];
      assert Step(Trim(st, c)).state == Trim(next, c');
    }
  }

  /** A sized block goes the same way when the buffer is cut anywhere after it. */
  lemma TrimStep(st: State, c: nat)
    requires st.phase.ParseNgBlock? && !st.errored && !Undersized(st) && Step(st).outcome.Go?
    requires NgFrame(st).Complete? && NgFrame(st).total <= c <= |st.buffer|
    ensures var r, t := Step(st), Step(Trim(st, c));
            t.outcome.Go? && t.events == r.events && r.state == t.state.Extend(st.buffer[c..])
            && t.state.buffer == st.buffer[..c][NgFrame(st).total..]
  {
    var t := Trim(st, c);
    FrameTrim(st, c);
    TrimExtend(st, c);
    GetBefore(NgFrame(st).order, t.buffer, st.buffer[c..], 0);
    NgExtend(t, st.buffer[c..]);
    var f := NgFrame(t);
    BodyOutcome(f.state, f.order, f.total);
    NgKeepsPhase(t);
  }

  lemma UndersizedBody(st: State, e: Endian, total: nat)
    requires 12 <= total == |st.buffer| < FixedLength(st.sectionHandler, GetU32(e, st.buffer, 0))
    ensures var section := GetU32(e, st.buffer, 0) == BLOCK_SECTION_HEADER;
      NgBody(st, e, total) == StepResult(Threw, if section then st.(interfaces := []) else st, [Thrown])
  {
  }

  lemma ThrewDrains(st: State)
    requires Step(st).outcome.Threw?
    ensures Drain(st) == Run(Step(st).state, Step(st).events)
  {
    hide Step;
  }

  lemma UndersizedThrows(st: State)
    requires Undersized(st) && !st.errored
    ensures var c := NgFrame(st).total;
            var d := Drain(Trim(st, c));
            d.events == [Thrown] && !d.state.errored && Drain(d.state.Extend(st.buffer[c..])) == Drain(st)
  {
    hide GetU32, NgBody, Drain;
    var f := NgFrame(st);
    var c := f.total;
    FrameTrim(st, c);
    TrimExtend(st, c);
    var t := Trim(st, c);
    GetBefore(f.order, t.buffer, st.buffer[c..], 0);
    var r := Step(t);
    assert r == NgBody(Trim(f.state, c), f.order, c);
    UndersizedBody(Trim(f.state, c), f.order, c);
    ThrewDrains(t);
    var again := r.state.Extend(st.buffer[c..]);
    assert again
      == if GetU32(f.order, st.buffer, 0) == BLOCK_SECTION_HEADER then f.state.(interfaces := []) else f.state;
    RetryFrame(st, again);
    SameStepSameDrain(again, st);
  }

  lemma RetryFrame(st: State, again: State)
    requires Undersized(st)
    requires var f := NgFrame(st);
             var section := GetU32(f.order, st.buffer, 0) == BLOCK_SECTION_HEADER;
             again == if section then f.state.(interfaces := []) else f.state
    ensures Step(again) == Step(st)
  {
    var f := NgFrame(st);
    var head := st.buffer[..12];
    assert BlockOrder(again.endianness, head) == Some(f.order);
    assert NgFrame(again) == Complete(again, f.order, f.total);
  }

  /** Only a stream that starts with a section header block can be unsized. */
  lemma UnsizedIsNg(listens: bool, s: seq<byte>)
    requires !Sized(NewParser(listens).Extend(s))
    ensures |s| >= 4 && s[..4] == SECTION_MAGIC && !Sized(NewParser(listens).Extend(s).(phase := ParseNgBlock))
  {
    var whole := NewParser(listens).Extend(s);
    assert whole.buffer == s;
    StepProgress(whole);
    var next := Step(whole).state;
    if !next.phase.ParseNgBlock? { ClassicSized(next); }
  }

  lemma NgDrain(listens: bool, s: seq<byte>)
    requires |s| >= 4 && s[..4] == SECTION_MAGIC
    ensures Drain(NewParser(listens).Extend(s)) == Drain(NewParser(listens).Extend(s).(phase := ParseNgBlock))
  {
    var whole := NewParser(listens).Extend(s);
    var ng := whole.(phase := ParseNgBlock);
    assert whole.buffer == s;
    assert Step(whole) == StepResult(Go, ng, []);
    AppendNil(Drain(ng).events);
  }

  lemma UnsizedShows(listens: bool, s: seq<byte>) returns (chunks: seq<seq<byte>>)
    requires !Sized(NewParser(listens).Extend(s))
    ensures var p := NewParser(listens);
      Concat(chunks) == s && |Feed(p, chunks).events| == |Drain(p.Extend(s)).events| + 1
  {
    hide Drain, Sized, Feed, Concat, NgFrame;
    UnsizedIsNg(listens, s);
    var ng := NewParser(listens).Extend(s).(phase := ParseNgBlock);
    AppendNil(s);
    CutShows(ng);
    var c := CutPoint(ng);
    var a, b := s[..c], s[c..];
    assert a + b == s;
    NgDrain(listens, s);
    assert a[..4] == s[..4];
    NgDrain(listens, a);
    AppendNil(a);
    assert NewParser(listens).Extend(a).(phase := ParseNgBlock) == Trim(ng, c);
    TwoChunks(listens, a, b);
    chunks := [a, b];
  }

  lemma TwoChunks(listens: bool, a: seq<byte>, b: seq<byte>)
    ensures Concat([a, b]) == a + b
    ensures var d := Drain(NewParser(listens).Extend(a));
            !d.state.errored ==> Feed(NewParser(listens), [a, b]).events == d.events + Drain(d.state.Extend(b)).events
  {
    assert [a, b][1..] == [b] && [b][1..] == [];
    assert Concat([b]) == b + [] == b;
    var d := Drain(NewParser(listens).Extend(a));
    if !d.state.errored {
      var second := Write(d.state, b);
      assert Feed(d.state, [b]) == Run(second.state, second.events + []);
      AppendNil(second.events);
    }
  }

  /**
   * Every cut of the stream gives the trace of writing it whole if and only if no block the parser
   * reaches is shorter than the fields its type always reads. `listens` says whether the caller has an onSectionHeader.
   */
  lemma ChunkInvarianceIff(listens: bool, s: seq<byte>)
    ensures var p := NewParser(listens);
      (forall chunks :: Concat(chunks) == s ==> Feed(p, chunks).events == Write(p, s).events) <==> Sized(p.Extend(s))
  {
    if Sized(NewParser(listens).Extend(s)) {
      forall chunks | Concat(chunks) == s
        ensures Feed(NewParser(listens), chunks).events == Write(NewParser(listens), s).events
      {
        if chunks == [] {
          assert NewParser(listens).Extend(s).buffer == [];
        } else {
          AnyCut(NewParser(listens), chunks);
        }
      }
    } else {
      var chunks := UnsizedShows(listens, s);
    }
  }
}
