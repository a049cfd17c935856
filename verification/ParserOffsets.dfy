/**
 * Where the frames the parser reports lie in the stream it was fed, under any cut of that stream.
 */
module ParserOffsets {
  import opened Bytes
  import opened PcapParser

  function PacketIn(e: Event): seq<PacketInfo>
  {
    if e.Packet? then [e.info] else []
  }

  function PacketsOf(events: seq<Event>): seq<PacketInfo>
  {
    if events == [] then [] else PacketIn(events[0]) + PacketsOf(events[1..])
  }

  lemma PacketsOfFew(a: Event, b: Event, c: Event)
    ensures PacketsOf([a]) == PacketIn(a)
    ensures PacketsOf([a, b]) == PacketIn(a) + PacketIn(b)
    ensures PacketsOf([a, b, c]) == PacketIn(a) + PacketIn(b) + PacketIn(c)
  {
    hide PacketIn;
    FirstPacket(a, []);
    FirstPacket(a, [b]);
    FirstPacket(a, [b, c]);
    FirstPacket(b, []);
    FirstPacket(b, [c]);
    FirstPacket(c, []);
    AppendNil(PacketIn(a));
    AppendNil(PacketIn(b));
    AppendNil(PacketIn(c));
    AppendAssociates(PacketIn(a), PacketIn(b), PacketIn(c));
    assert PacketsOf([]) == [];
  }

  lemma FirstPacket(a: Event, rest: seq<Event>)
    ensures [a] + [] == [a] && PacketsOf([a] + rest) == PacketIn(a) + PacketsOf(rest)
  {
    assert ([a] + rest)[1..] == rest && [a] + [] == [a];
  }

  lemma {:induction false} PacketsOfAppend(a: seq<Event>, b: seq<Event>)
    ensures PacketsOf(a + b) == PacketsOf(a) + PacketsOf(b)
  {
    if a == [] {
      assert a + b == b;
    } else {
      PacketsOfAppend(a[1..], b);
      assert (a + b)[1..] == a[1..] + b;
      AppendAssociates(PacketIn(a[0]), PacketsOf(a[1..]), PacketsOf(b));
    }
  }

  /** The octets the reported position and length select are the reported frame, inside its own record. */
  predicate Located(info: PacketInfo, stream: seq<byte>)
  {
    && info.recordHeaderOffset == info.offset
    && info.packetOffset == info.offset + info.recordHeaderLength
    && info.packetOffset + info.packetLength <= info.offset + info.length <= |stream|
      && info.packetLength <= MAX_CAPTURED_LENGTH
    && stream[info.packetOffset..info.packetOffset + info.packetLength] == info.packet
  }

  /** Indices run on from `count`, records are disjoint, ascending and inside [from, to) of the stream. */
  predicate Chained(ps: seq<PacketInfo>, stream: seq<byte>, count: nat, from: nat, to: nat)
  {
    if ps == [] then from <= to
    else
      && ps[0].index == count + 1 && from <= ps[0].offset && Located(ps[0], stream)
      && Chained(ps[1..], stream, count + 1, ps[0].offset + ps[0].length, to)
  }

  lemma {:induction false} ChainedAppend(a: seq<PacketInfo>, b: seq<PacketInfo>, stream: seq<byte>, count: nat,
                                         from: nat, mid: nat, to: nat)
    requires Chained(a, stream, count, from, mid) && Chained(b, stream, count + |a|, mid, to)
    ensures Chained(a + b, stream, count, from, to)
    decreases |a|
  {
    if a == [] {
      assert a + b == b;
      ChainedFrom(b, stream, count, from, mid, to);
    } else {
      assert (a + b)[1..] == a[1..] + b;
      ChainedAppend(a[1..], b, stream, count + 1, a[0].offset + a[0].length, mid, to);
    }
  }

  lemma ChainedFrom(ps: seq<PacketInfo>, stream: seq<byte>, count: nat, from: nat, mid: nat, to: nat)
    requires from <= mid && Chained(ps, stream, count, mid, to)
    ensures Chained(ps, stream, count, from, to)
  {
    ChainedBounds(ps, stream, count, mid, to);
  }

  lemma {:induction false} ChainedBounds(ps: seq<PacketInfo>, stream: seq<byte>, count: nat, from: nat, to: nat)
    requires Chained(ps, stream, count, from, to)
    ensures from <= to
    decreases |ps|
  {
    if ps != [] { ChainedBounds(ps[1..], stream, count + 1, ps[0].offset + ps[0].length, to); }
  }

  lemma {:induction false} ChainedExtend(ps: seq<PacketInfo>, stream: seq<byte>, x: seq<byte>, count: nat, from: nat,
                                         to: nat)
    requires Chained(ps, stream, count, from, to)
    ensures Chained(ps, stream + x, count, from, to)
    decreases |ps|
  {
    if ps != [] {
      var o := ps[0].packetOffset;
      assert (stream + x)[o..o + ps[0].packetLength] == stream[o..o + ps[0].packetLength];
      ChainedExtend(ps[1..], stream, x, count + 1, ps[0].offset + ps[0].length, to);
    }
  }

  /** Each Packet event directly follows the PacketData event that carries the same octets. */
  predicate Paired(events: seq<Event>)
  {
    forall k :: 0 <= k < |events| && events[k].Packet? ==> k > 0 && events[k - 1] == PacketData(events[k].info.packet)
  }

  /** The stream position of the first buffered octet. */
  function Position(st: State): nat
  {
    if st.phase.ParsePacketBody? then st.offset + PCAP_PACKET_HEADER_LENGTH else st.offset
  }

  /** Packets emitted so far: a classic record header has already taken the index of its body. */
  function Emitted(st: State): int
  {
    if st.phase.ParsePacketBody? then st.index - 1 else st.index
  }

  /** The buffer is the unconsumed tail of everything fed. */
  predicate Aligned(st: State, fed: seq<byte>)
  {
    && Position(st) <= |fed| && st.buffer == fed[Position(st)..]
    && (st.phase.DetectFormat? || st.phase.ParseGlobalHeader? ==> st.offset == 0)
    && (st.phase.ParsePacketBody? ==> st.current.capturedLength <= MAX_CAPTURED_LENGTH)
    && Emitted(st) >= 0
  }

  predicate Advances(before: State, after: State, events: seq<Event>, stream: seq<byte>)
  {
    && Emitted(before) >= 0
    && Emitted(after) == Emitted(before) + |PacketsOf(events)|
    && Chained(PacketsOf(events), stream, Emitted(before), before.offset, after.offset)
    && Paired(events)
  }

  lemma Tail(fed: seq<byte>, p: nat, n: nat)
    requires p + n <= |fed|
    ensures fed[p..][n..] == fed[p + n..] && fed[p..][..n] == fed[p..p + n]
  {
  }

  /** A step that reports nothing. */
  lemma Quiet(before: State, after: State, events: seq<Event>, stream: seq<byte>)
    requires Emitted(after) == Emitted(before) >= 0 && before.offset <= after.offset
    requires |events| <= 2 && forall e :: e in events ==> !e.Packet?
    ensures Advances(before, after, events, stream)
  {
    if |events| == 1 {
      assert events == [events[0]];
      PacketsOfFew(events[0], End, End);
    } else if |events| == 2 {
      assert events == [events[0], events[1]];
      PacketsOfFew(events[0], events[1], End);
    }
  }

  /** A step that reports one packet. */
  lemma Report(before: State, after: State, events: seq<Event>, stream: seq<byte>, info: PacketInfo)
    requires events == [PacketData(info.packet), Packet(info)]
          || exists h :: events == [PacketHeader(h), PacketData(info.packet), Packet(info)]
    requires Emitted(before) >= 0 && Emitted(after) == info.index == Emitted(before) + 1
    requires info.offset == before.offset && after.offset == info.offset + info.length && Located(info, stream)
    ensures Advances(before, after, events, stream)
  {
    if |events| == 2 {
      PacketsOfFew(events[0], events[1], End);
    } else {
      PacketsOfFew(events[0], events[1], events[2]);
    }
    assert PacketsOf(events) == [info];
    assert Chained([info], stream, Emitted(before), before.offset, after.offset);
  }

  lemma EmitAdvances(st: State, fed: seq<byte>, length: nat, headerLength: nat, n: nat, t: Timestamp, original: nat)
    requires Aligned(st, fed) && st.phase.ParseNgBlock?
    requires headerLength + n <= length <= |st.buffer| && n <= MAX_CAPTURED_LENGTH
    ensures var r := EmitPacket(st, length, headerLength, st.buffer[headerLength..headerLength + n], t, original);
            Advances(st, r.state, r.events, fed) && Aligned(r.state, fed)
  {
    var data := st.buffer[headerLength..headerLength + n];
    var r := EmitPacket(st, length, headerLength, data, t, original);
    Tail(fed, st.offset, length);
    var info := r.events[2].info;
    assert Located(info, fed) by {
      assert fed[st.offset..][headerLength..headerLength + n]
        == fed[st.offset + headerLength..st.offset + headerLength + n];
    }
    Report(st, r.state, r.events, fed, info);
  }

  lemma BodyAdvances(st: State, fed: seq<byte>, e: Endian, total: nat)
    requires Aligned(st, fed) && st.phase.ParseNgBlock? && !st.errored && 12 <= total <= |st.buffer|
    ensures var r := NgBody(st, e, total);
            Advances(st, r.state, r.events, fed) && (r.state.errored || Aligned(r.state, fed))
  {
    hide EnhancedPacket, SimplePacket, BlockTimestamp, DescribedInterface, GetU32, GetU16, Advances;
    var b := st.buffer;
    var blockType := GetU32(e, b, 0);
    var r := NgBody(st, e, total);
    if |b| < FixedLength(st.sectionHandler, blockType) {
      Quiet(st, r.state, r.events, fed);
    } else if blockType == BLOCK_ENHANCED_PACKET {
      EnhancedAdvances(st, fed, e, total, BlockTimestamp(st, e, GetU32(e, b, 8)));
    } else if blockType == BLOCK_OBSOLETE_PACKET {
      EnhancedAdvances(st, fed, e, total, BlockTimestamp(st, e, GetU16(e, b, 8)));
    } else if blockType == BLOCK_SIMPLE_PACKET {
      SimpleAdvances(st, fed, e, total);
    } else {
      Tail(fed, st.offset, total);
      Quiet(st, r.state, r.events, fed);
    }
  }

  lemma SimpleAdvances(st: State, fed: seq<byte>, e: Endian, total: nat)
    requires Aligned(st, fed) && st.phase.ParseNgBlock? && 12 <= total <= |st.buffer|
    ensures var r := SimplePacket(st, e, total);
            Advances(st, r.state, r.events, fed) && (r.state.errored || Aligned(r.state, fed))
  {
    var original := GetU32(e, st.buffer, 8);
    var n := SimpleCapturedLength(original, total, InterfaceOf(st.interfaces, 0).snapshotLength);
    var r := SimplePacket(st, e, total);
    if 0 <= n <= MAX_CAPTURED_LENGTH {
      EmitAdvances(st, fed, total, PCAPNG_SPB_HEADER_LENGTH, n, Timestamp(0, 0, 0), original);
    } else {
      Quiet(st, r.state, r.events, fed);
    }
  }

  lemma EnhancedAdvances(st: State, fed: seq<byte>, e: Endian, total: nat, t: Timestamp)
    requires Aligned(st, fed) && st.phase.ParseNgBlock?
    requires PCAPNG_EPB_HEADER_LENGTH <= |st.buffer| && 12 <= total <= |st.buffer|
    ensures var r := EnhancedPacket(st, e, total, t);
            Advances(st, r.state, r.events, fed) && (r.state.errored || Aligned(r.state, fed))
  {
    var n := GetU32(e, st.buffer, 20);
    var r := EnhancedPacket(st, e, total, t);
    if n <= MAX_CAPTURED_LENGTH && PCAPNG_EPB_HEADER_LENGTH + n <= total - 4 {
      EmitAdvances(st, fed, total, PCAPNG_EPB_HEADER_LENGTH, n, t, GetU32(e, st.buffer, 24));
    } else {
      Quiet(st, r.state, r.events, fed);
    }
  }

  lemma GlobalHeaderAdvances(st: State, fed: seq<byte>)
    requires Aligned(st, fed) && !st.errored && st.phase.ParseGlobalHeader?
    ensures var r := GlobalHeaderStep(st);
            Advances(st, r.state, r.events, fed) && (r.state.errored || Aligned(r.state, fed))
  {
    var r := GlobalHeaderStep(st);
    if r.outcome.Go? { Tail(fed, 0, PCAP_GLOBAL_HEADER_LENGTH); }
    Quiet(st, r.state, r.events, fed);
  }

  lemma PacketHeaderAdvances(st: State, fed: seq<byte>)
    requires Aligned(st, fed) && !st.errored && st.phase.ParsePacketHeader?
    ensures var r := PacketHeaderStep(st);
            Advances(st, r.state, r.events, fed) && (r.state.errored || Aligned(r.state, fed))
  {
    var r := PacketHeaderStep(st);
    if r.outcome.Go? { Tail(fed, st.offset, PCAP_PACKET_HEADER_LENGTH); }
    Quiet(st, r.state, r.events, fed);
  }

  lemma PacketBodyAdvances(st: State, fed: seq<byte>)
    requires Aligned(st, fed) && !st.errored && st.phase.ParsePacketBody?
    ensures var r := PacketBodyStep(st);
            Advances(st, r.state, r.events, fed) && (r.state.errored || Aligned(r.state, fed))
  {
    var r := PacketBodyStep(st);
    if r.outcome.Go? {
      Tail(fed, st.offset + PCAP_PACKET_HEADER_LENGTH, st.current.capturedLength);
      Report(st, r.state, r.events, fed, r.events[1].info);
    } else {
      Quiet(st, r.state, r.events, fed);
    }
  }

  lemma NgAdvances(st: State, fed: seq<byte>)
    requires Aligned(st, fed) && !st.errored && st.phase.ParseNgBlock?
    ensures var r := NgStep(st);
            Advances(st, r.state, r.events, fed) && (r.state.errored || Aligned(r.state, fed))
  {
    var r := NgStep(st);
    match NgFrame(st)
    case Incomplete(known) => Quiet(st, r.state, r.events, fed);
    case Corrupt(known, e) => Quiet(st, r.state, r.events, fed);
    case Complete(known, e, total) => BodyAdvances(known, fed, e, total);
  }

  lemma StepAdvances(st: State, fed: seq<byte>)
    requires Aligned(st, fed) && !st.errored
    ensures var r := Step(st);
            Advances(st, r.state, r.events, fed) && (r.state.errored || Aligned(r.state, fed))
  {
    match st.phase
    case DetectFormat => Quiet(st, Step(st).state, Step(st).events, fed);
    case ParseGlobalHeader => GlobalHeaderAdvances(st, fed);
    case ParsePacketHeader => PacketHeaderAdvances(st, fed);
    case ParsePacketBody => PacketBodyAdvances(st, fed);
    case ParseNgBlock => NgAdvances(st, fed);
  }

  lemma PairedAppend(a: seq<Event>, b: seq<Event>)
    requires Paired(a) && Paired(b)
    ensures Paired(a + b)
  {
    forall k | 0 <= k < |a + b| && (a + b)[k].Packet?
      ensures k > 0 && (a + b)[k - 1] == PacketData((a + b)[k].info.packet)
    {
      if k >= |a| { assert b[k - |a|].Packet?; }
    }
  }

  lemma AdvancesTrans(a: State, ea: seq<Event>, b: State, eb: seq<Event>, c: State, stream: seq<byte>)
    requires Advances(a, b, ea, stream) && Advances(b, c, eb, stream)
    ensures Advances(a, c, ea + eb, stream)
  {
    PacketsOfAppend(ea, eb);
    ChainedAppend(PacketsOf(ea), PacketsOf(eb), stream, Emitted(a), a.offset, b.offset, c.offset);
    PairedAppend(ea, eb);
  }

  lemma {:induction false} DrainAdvances(st: State, fed: seq<byte>)
    requires Aligned(st, fed) && !st.errored
    ensures var d := Drain(st); Advances(st, d.state, d.events, fed) && (d.state.errored || Aligned(d.state, fed))
    decreases |st.buffer|, Rank(st.phase)
  {
    StepAdvances(st, fed);
    StepProgress(st);
    var r := Step(st);
    if r.outcome.Go? {
      GoNotErrored(st);
      DrainAdvances(r.state, fed);
      AdvancesTrans(st, r.events, r.state, Drain(r.state).events, Drain(r.state).state, fed);
    }
  }

  lemma GoNotErrored(st: State)
    requires !st.errored && Step(st).outcome.Go?
    ensures !Step(st).state.errored
  {
  }

  lemma ExtendAligned(st: State, fed: seq<byte>, data: seq<byte>)
    requires Aligned(st, fed)
    ensures Aligned(st.Extend(data), fed + data)
  {
  }

  lemma WriteAdvances(st: State, fed: seq<byte>, data: seq<byte>)
    requires Emitted(st) >= 0 && (st.errored || Aligned(st, fed))
    ensures var w := Write(st, data);
            Advances(st, w.state, w.events, fed + data) && (w.state.errored || Aligned(w.state, fed + data))
  {
    if st.errored {
      Quiet(st, st, [], fed + data);
    } else {
      ExtendAligned(st, fed, data);
      DrainAdvances(st.Extend(data), fed + data);
    }
  }

  lemma {:induction false} FeedAdvances(st: State, fed: seq<byte>, chunks: seq<seq<byte>>)
    requires Emitted(st) >= 0 && (st.errored || Aligned(st, fed))
    ensures Advances(st, Feed(st, chunks).state, Feed(st, chunks).events, fed + Concat(chunks))
    decreases |chunks|
  {
    if chunks == [] {
      Quiet(st, st, [], fed + Concat(chunks));
    } else {
      var data, rest := chunks[0], chunks[1..];
      var first := Write(st, data);
      WriteAdvances(st, fed, data);
      FeedAdvances(first.state, fed + data, rest);
      assert fed + Concat(chunks) == fed + data + Concat(rest);
      ChainedExtend(PacketsOf(first.events), fed + data, Concat(rest), Emitted(st), st.offset, first.state.offset);
      var last := Feed(first.state, rest);
      AdvancesTrans(st, first.events, first.state, last.events, last.state, fed + Concat(chunks));
    }
  }

  /**
   * However a stream is cut, the packets reported are numbered 1, 2, 3, ..., their records are disjoint
   * and ascending, and reading `packetLength` octets at `packetOffset` of the stream gives the frame that
   * onPacketData delivered just before.
   */
  lemma ReportedFramesAreSlices(listens: bool, chunks: seq<seq<byte>>)
    ensures var trace := Feed(NewParser(listens), chunks).events;
            var ps := PacketsOf(trace);
            && (forall k :: 0 <= k < |ps| ==> ps[k].index == k + 1 && Located(ps[k], Concat(chunks)))
            && (forall j, k :: 0 <= j < k < |ps| ==> ps[j].offset + ps[j].length <= ps[k].offset)
            && Paired(trace)
  {
    FeedAdvances(NewParser(listens), [], chunks);
    assert [] + Concat(chunks) == Concat(chunks);
    var end := Feed(NewParser(listens), chunks);
    ChainedMeans(PacketsOf(end.events), Concat(chunks), 0, 0, end.state.offset);
  }

  lemma {:induction false} ChainedMeans(ps: seq<PacketInfo>, stream: seq<byte>, count: nat, from: nat, to: nat)
    requires Chained(ps, stream, count, from, to)
    ensures forall k :: 0 <= k < |ps| ==>
      ps[k].index == count + k + 1 && Located(ps[k], stream) && from <= ps[k].offset
        && ps[k].offset + ps[k].length <= to
    ensures forall j, k :: 0 <= j < k < |ps| ==> ps[j].offset + ps[j].length <= ps[k].offset
    decreases |ps|
  {
    if ps != [] {
      var rest := ps[1..];
      ChainedMeans(rest, stream, count + 1, ps[0].offset + ps[0].length, to);
      ChainedBounds(rest, stream, count + 1, ps[0].offset + ps[0].length, to);
      assert forall k :: 0 < k < |ps| ==> ps[k] == rest[k - 1];
    }
  }
}
