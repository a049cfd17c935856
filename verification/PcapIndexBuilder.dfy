/** The batch index build: chunks through the parser, and every reported frame decoded and indexed. */
module PcapIndexBuilder {
  import opened Bytes
  import opened Conversation
  import opened FrameIndexer
  import opened ParserOffsets
  import Core = PcapParserCore
  import P = PcapParser

  type Decoder = seq<byte> -> seq<Layer>

  datatype PendingFrame = PendingFrame(info: P.PacketInfo, data: seq<byte>)

  datatype Handled = Handled(pending: seq<PendingFrame>, lastData: seq<byte>)

  /** What the handlers leave behind: onPacketData keeps the octets, onPacket pairs them with its record. */
  function Handle(events: seq<P.Event>, lastData: seq<byte>): Handled
  {
    if events == [] then Handled([], lastData)
    else if events[0].PacketData? then Handle(events[1..], events[0].data)
    else if events[0].Packet? then
      var rest := Handle(events[1..], lastData);
      Handled([PendingFrame(events[0].info, lastData)] + rest.pending, rest.lastData)
    else Handle(events[1..], lastData)
  }

  function Own(infos: seq<P.PacketInfo>): seq<PendingFrame>
  {
    seq(|infos|, k requires 0 <= k < |infos| => PendingFrame(infos[k], infos[k].packet))
  }

  /** The octets kept are those of the packet they are paired with. */
  lemma {:induction false} HandlersPair(events: seq<P.Event>, lastData: seq<byte>)
    requires Paired(events)
      || (events != [] && events[0].Packet? && events[0].info.packet == lastData && Paired(events[1..]))
    ensures Handle(events, lastData).pending == Own(PacketsOf(events))
    decreases |events|
  {
    if events != [] {
      var rest := events[1..];
      if events[0].Packet? {
        HandlersPair(rest, lastData);
        assert Own(PacketsOf(events)) == [PendingFrame(events[0].info, events[0].info.packet)] + Own(PacketsOf(rest));
      } else {
        PairedRest(events);
        AppendNil(PacketsOf(rest));
        HandlersPair(rest, if events[0].PacketData? then events[0].data else lastData);
      }
    }
  }

  lemma PairedRest(events: seq<P.Event>)
    requires events != [] && Paired(events) && !events[0].Packet?
    ensures Paired(events[1..])
      || (|events| > 1 && events[1].Packet? && events[0] == P.PacketData(events[1].info.packet) && Paired(events[2..]))
  {
    var rest := events[1..];
    forall k | 1 <= k < |rest| && rest[k].Packet? ensures rest[k - 1] == P.PacketData(rest[k].info.packet) {
      assert events[k + 1].Packet?;
    }
    if |rest| > 0 && rest[0].Packet? {
      assert events[1].Packet?;
      var later := events[2..];
      forall k | 0 <= k < |later| && later[k].Packet?
        ensures k > 0 && later[k - 1] == P.PacketData(later[k].info.packet) {
        assert events[k + 2].Packet?;
      }
    }
  }

  function Time(info: P.PacketInfo): real
  {
    info.seconds as real + info.microseconds as real / 1000000.0
  }

  function CapturedOf(decode: Decoder, info: P.PacketInfo): Captured
  {
    Captured(decode(info.packet), info.packetOffset, info.packetLength, info.packetLength, Time(info))
  }

  function Indexed(decode: Decoder, infos: seq<P.PacketInfo>): (r: seq<Captured>)
    ensures |r| == |infos|
  {
    seq(|infos|, k requires 0 <= k < |infos| => CapturedOf(decode, infos[k]))
  }

  /**
   * What is indexed of a reported packet: its layers, its place in the file, its captured length for both lengths, and
   * its time in seconds, exact to the microsecond.
   */
  lemma IndexedTells(decode: Decoder, infos: seq<P.PacketInfo>, k: nat)
    requires k < |infos|
    ensures var c, info := Indexed(decode, infos)[k], infos[k];
      && c.layers == decode(info.packet) && c.fileOffset == info.packetOffset
      && c.capturedLength == c.originalLength == info.packetLength
      && c.timestamp * 1000000.0 == (info.seconds * 1000000 + info.microseconds) as real
  {
  }

  lemma IndexedAppend(decode: Decoder, a: seq<P.PacketInfo>, b: seq<P.PacketInfo>)
    ensures Indexed(decode, a + b) == Indexed(decode, a) + Indexed(decode, b)
  {
  }

  /** Decodes and indexes the pending frames, in order. */
  method Drain(ix: FrameIndexer, decode: Decoder, pending: seq<PendingFrame>, ghost infos: seq<P.PacketInfo>)
    returns (count: nat)
    requires ix.Valid() && pending == Own(infos)
    modifies ix, ix.store, ix.store.columns.Repr
    ensures ix.Valid() && ix.frames == old(ix.frames) + Indexed(decode, infos) && count == |infos|
    ensures ix.store.base == old(ix.store.base)
    ensures ix.store.columns == old(ix.store.columns) || fresh(ix.store.columns.Repr)
  {
    hide TopProtocol, FrameIndexer.Valid, Time;
    count := 0;
    AppendNil(ix.frames);
    while count < |pending|
      invariant count <= |infos| && ix.Valid() && ix.store.base == old(ix.store.base)
      invariant ix.store.columns == old(ix.store.columns) || fresh(ix.store.columns.Repr)
      invariant ix.frames == old(ix.frames) + Indexed(decode, infos[..count])
    {
      var info := pending[count].info;
      var layers := decode(pending[count].data);
      var index := ix.Add(Captured(layers, info.packetOffset, info.packetLength, info.packetLength, Time(info)));
      assert Indexed(decode, infos[..count + 1])
        == Indexed(decode, infos[..count]) + [CapturedOf(decode, infos[count])];
      AppendAssociates(old(ix.frames), Indexed(decode, infos[..count]), [CapturedOf(decode, infos[count])]);
      count := count + 1;
    }
    assert infos[..count] == infos;
  }

  /** The parser has been fed `fed`, and is ready for more. */
  predicate Ready(st: P.State, fed: seq<byte>)
  {
    Emitted(st) >= 0 && (st.errored || Aligned(st, fed))
  }

  /** The new events of a write pair up, and leave the parser ready. */
  lemma WritePairs(st: P.State, fed: seq<byte>, data: seq<byte>, lastData: seq<byte>)
    requires Ready(st, fed)
    ensures Ready(P.Write(st, data).state, fed + data)
    ensures Handle(P.Write(st, data).events, lastData).pending == Own(PacketsOf(P.Write(st, data).events))
  {
    hide P.Write, Aligned, Emitted;
    WriteAdvances(st, fed, data);
    AdvanceReady(st, P.Write(st, data).state, P.Write(st, data).events, fed + data);
    HandlersPair(P.Write(st, data).events, lastData);
  }

  lemma AdvanceReady(before: P.State, after: P.State, events: seq<P.Event>, stream: seq<byte>)
    requires Advances(before, after, events, stream) && (after.errored || Aligned(after, stream))
    ensures Ready(after, stream) && Paired(events)
  {
  }

  /** One chunk: written to the parser, then its frames drained, unless the parser threw. */
  method IndexChunk(ix: FrameIndexer, decode: Decoder, parser: Core.PcapParserCore, data: seq<byte>,
                    lastData: seq<byte>, ghost fed: seq<byte>)
    returns (keptData: seq<byte>, count: nat, threw: bool)
    requires ix.Valid() && parser !in ix.store.columns.Repr && Ready(parser.View(), fed)
    modifies parser, ix, ix.store, ix.store.columns.Repr
    ensures var r := P.Write(old(parser.View()), data);
      && parser.View() == r.state && parser.events == old(parser.events) + r.events && threw == (P.Thrown in r.events)
      && ix.frames == old(ix.frames) + (if threw then [] else Indexed(decode, PacketsOf(r.events)))
      && (!threw ==> count == |PacketsOf(r.events)|)
    ensures ix.Valid() && parser !in ix.store.columns.Repr && ix.store.base == old(ix.store.base)
    ensures ix.store.columns == old(ix.store.columns) || fresh(ix.store.columns.Repr)
    ensures Ready(parser.View(), fed + data)
  {
    hide FrameIndexer.Valid, P.Write, Indexed, Own, PacketsOf, Ready, Handle, TopProtocol;
    WritePairs(parser.View(), fed, data, lastData);
    var n := |parser.events|;
    parser.Write(data);
    var reported := parser.events[n..];
    var handled := Handle(reported, lastData);
    keptData, count, threw := handled.lastData, 0, P.Thrown in reported;
    AppendNil(ix.frames);
    if !threw {
      count := Drain(ix, decode, handled.pending, PacketsOf(reported));
    }
  }

  /** What feeding the first `k` chunks reports. */
  function Fed(chunks: seq<seq<byte>>, k: nat): seq<P.Event>
    requires k <= |chunks|
  {
    P.Feed(P.FrameReader, chunks[..k]).events
  }

  lemma FedNext(chunks: seq<seq<byte>>, k: nat)
    requires k < |chunks|
    ensures Fed(chunks, k + 1) == Fed(chunks, k) + P.Write(P.Feed(P.FrameReader, chunks[..k]).state, chunks[k]).events
    ensures P.Feed(P.FrameReader, chunks[..k + 1]).state
      == P.Write(P.Feed(P.FrameReader, chunks[..k]).state, chunks[k]).state
    ensures Concat(chunks[..k + 1]) == Concat(chunks[..k]) + chunks[k]
  {
    hide P.Feed, P.Write, Concat;
    P.FeedSnoc(P.FrameReader, chunks[..k], chunks[k]);
    assert chunks[..k] + [chunks[k]] == chunks[..k + 1];
  }

  /** Once thrown, always thrown. */
  lemma {:induction false} ThrownStays(chunks: seq<seq<byte>>, k: nat)
    requires k <= |chunks| && P.Thrown in Fed(chunks, k)
    ensures P.Thrown in Fed(chunks, |chunks|)
    decreases |chunks| - k
  {
    hide Fed, P.Feed, P.Write, Concat;
    if k < |chunks| {
      FedNext(chunks, k);
      ThrownStays(chunks, k + 1);
    }
  }

  /** The frames of the first `k` chunks, no chunk among them throwing, follow those already there. */
  ghost predicate Built(frames: seq<Captured>, was: seq<Captured>, decode: Decoder, chunks: seq<seq<byte>>, k: nat,
                        count: nat)
    requires k <= |chunks|
  {
    && P.Thrown !in Fed(chunks, k) && count == |PacketsOf(Fed(chunks, k))|
    && frames == was + Indexed(decode, PacketsOf(Fed(chunks, k)))
  }

  /**
   * Reads the chunks in turn, draining the frames of each before the next. The build completes unless a write to the
   * parser throws; then the frames of the chunks before that one have been indexed.
   */
  method Build(ix: FrameIndexer, decode: Decoder, chunks: seq<seq<byte>>) returns (count: nat, completed: bool)
    requires ix.Valid()
    modifies ix, ix.store, ix.store.columns.Repr
    ensures ix.Valid() && ix.store.base == old(ix.store.base)
    ensures completed <==> P.Thrown !in P.Feed(P.FrameReader, chunks).events
    ensures completed ==> count == |PacketsOf(P.Feed(P.FrameReader, chunks).events)|
    ensures completed ==> ix.frames == old(ix.frames) + Indexed(decode, PacketsOf(P.Feed(P.FrameReader, chunks).events))
    ensures !completed ==> exists k ::
      0 <= k < |chunks| && P.Thrown in Fed(chunks, k + 1) && Built(ix.frames, old(ix.frames), decode, chunks, k, count)
  {
    hide FrameIndexer.Valid, P.Write, P.Feed, Indexed, PacketsOf, Ready, TopProtocol, Concat, Fed;
    count := 0;
    var lastData: seq<byte> := [];
    var parser := new Core.PcapParserCore(false);
    StartReady(chunks);
    NoneIndexed(decode);
    AppendNil(ix.frames);
    FedAll(chunks);
    var i := 0;
    while i < |chunks|
      invariant i <= |chunks| && ix.Valid() && ix.store.base == old(ix.store.base)
      invariant ix.store.columns == old(ix.store.columns) || fresh(ix.store.columns.Repr)
      invariant fresh(parser) && parser !in ix.store.columns.Repr && Ready(parser.View(), Concat(chunks[..i]))
      invariant parser.View() == P.Feed(P.FrameReader, chunks[..i]).state && parser.events == Fed(chunks, i)
      invariant Built(ix.frames, old(ix.frames), decode, chunks, i, count)
    {
      ghost var before, st := parser.events, parser.View();
      FedNext(chunks, i);
      var drained, threw;
      lastData, drained, threw := IndexChunk(ix, decode, parser, chunks[i], lastData, Concat(chunks[..i]));
      ghost var events := P.Write(st, chunks[i]).events;
      if threw {
        AppendNil(old(ix.frames) + Indexed(decode, PacketsOf(before)));
        ThrownStays(chunks, i + 1);
        return count, false;
      }
      PacketsOfAppend(before, events);
      IndexedAppend(decode, PacketsOf(before), PacketsOf(events));
      AppendAssociates(old(ix.frames), Indexed(decode, PacketsOf(before)), Indexed(decode, PacketsOf(events)));
      count := count + drained;
      i := i + 1;
    }
    completed := true;
  }

  lemma StartReady(chunks: seq<seq<byte>>)
    ensures Ready(P.FrameReader, []) && P.Feed(P.FrameReader, []) == P.Run(P.FrameReader, []) && PacketsOf([]) == []
      && Concat([]) == []
    ensures chunks[..0] == [] && Fed(chunks, 0) == []
  {
    assert chunks[..0] == [];
  }

  lemma FedAll(chunks: seq<seq<byte>>)
    ensures Fed(chunks, |chunks|) == P.Feed(P.FrameReader, chunks).events
  {
    assert chunks[..|chunks|] == chunks;
  }

  lemma NoneIndexed(decode: Decoder)
    ensures Indexed(decode, []) == []
  {
  }

  // ---- what is indexed can be fetched again ----

  /** The frame's columns select, in the source, exactly the octets whose decoding was indexed. */
  predicate OnFile(decode: Decoder, file: seq<byte>, c: Captured)
  {
    && 0 <= c.fileOffset && 0 <= c.capturedLength && c.fileOffset + c.capturedLength <= |file|
    && decode(file[c.fileOffset..c.fileOffset + c.capturedLength]) == c.layers
  }

  /** Reading an indexed record's octets back from the source, at any later time, gives the frame that was streamed. */
  lemma FetchIsStream(decode: Decoder, chunks: seq<seq<byte>>, later: seq<byte>, k: nat)
    requires k < |PacketsOf(P.Feed(P.FrameReader, chunks).events)|
    ensures OnFile(decode, Concat(chunks) + later, Indexed(decode, PacketsOf(P.Feed(P.FrameReader, chunks).events))[k])
  {
    hide P.Feed;
    ReportedFramesAreSlices(false, chunks);
    var file := Concat(chunks);
    var info := PacketsOf(P.Feed(P.FrameReader, chunks).events)[k];
    assert Located(info, file);
    var o, n := info.packetOffset, info.packetLength;
    assert (file + later)[o..o + n] == file[o..o + n];
  }
}
