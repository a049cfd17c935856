/** The streaming writer, and what its reports have to do with what the parser later reads. */
module PcapWriter {
  import opened Bytes
  import G = PcapGenerators

  datatype Format = Pcap | Pcapng

  /** One call of `Write`: a frame of a length the generators can write, and its timestamp. */
  datatype Call = Call(frame: seq<byte>, seconds: G.Num, microseconds: G.Num)
  {
    predicate Writable() { |frame| + 36 < TWO_32 }

    function Entry(): G.Entry
    {
      G.Entry(frame, G.Clock(G.Clamp(seconds), G.Clamp(microseconds)), 0)
    }
  }

  /** What a `packet` event of the writer carries: the timestamp is the one passed in, not the one written. */
  datatype WroteInfo = WroteInfo(
    index: nat, offset: nat, length: nat, recordHeaderOffset: nat, recordHeaderLength: nat, packetOffset: nat,
    packetLength: nat, seconds: G.Num, microseconds: G.Num, nanoseconds: G.Num, packet: seq<byte>)

  function Entries(calls: seq<Call>): seq<G.Entry>
  {
    if calls == [] then [] else [calls[0].Entry()] + Entries(calls[1..])
  }

  predicate AllWritable(calls: seq<Call>)
  {
    forall k :: 0 <= k < |calls| ==> calls[k].Writable()
  }

  lemma {:induction false} EntriesWritable(calls: seq<Call>)
    requires AllWritable(calls)
    ensures |Entries(calls)| == |calls| && G.AllWritable(Entries(calls))
    ensures forall k :: 0 <= k < |calls| ==> Entries(calls)[k] == calls[k].Entry()
  {
    if calls != [] { EntriesWritable(calls[1..]); }
  }

  function HeaderLength(f: Format): nat { if f.Pcap? then 16 else 28 }

  function RecordLength(f: Format, frame: seq<byte>): nat
  {
    if f.Pcap? then 16 + |frame| else 32 + |frame| + G.Padding(|frame|)
  }

  function FileHeader(f: Format): seq<byte>
  {
    if f.Pcap? then G.GLOBAL_HEADER else G.SECTION_HEADER + G.Words(LE, G.InterfaceWords(G.DEFAULT_OPTIONS))
  }

  function OneRecord(f: Format, e: G.Entry): seq<byte>
    requires e.Writable()
  {
    if f.Pcap? then G.Record(e) else G.EnhancedBlock(e)
  }

  function Body(f: Format, es: seq<G.Entry>): seq<byte>
    requires G.AllWritable(es)
  {
    if f.Pcap? then G.Records(es) else G.Blocks(es)
  }

  function Nanoseconds(us: G.Num): G.Num
  {
    if us.Finite? then G.Finite(us.value * 1000.0) else us
  }

  function InfoOf(f: Format, c: Call, index: nat, offset: nat, includePacketData: bool): WroteInfo
  {
    WroteInfo(index, offset, RecordLength(f, c.frame), offset, HeaderLength(f), offset + HeaderLength(f), |c.frame|,
              c.seconds, c.microseconds, Nanoseconds(c.microseconds), if includePacketData then c.frame else [])
  }

  /** The reports of `calls`, after `count` earlier ones, the first record at `offset`. */
  function InfosOf(f: Format, calls: seq<Call>, count: nat, offset: nat, includePacketData: bool): seq<WroteInfo>
  {
    if calls == [] then []
    else
      [InfoOf(f, calls[0], count + 1, offset, includePacketData)]
      + InfosOf(f, calls[1..], count + 1, offset + RecordLength(f, calls[0].frame), includePacketData)
  }

  lemma {:induction false} EntriesAppend(calls: seq<Call>, c: Call)
    ensures Entries(calls + [c]) == Entries(calls) + [c.Entry()]
  {
    if calls == [] {
      assert [c][1..] == [] && calls + [c] == [c];
    } else {
      assert (calls + [c])[1..] == calls[1..] + [c];
      EntriesAppend(calls[1..], c);
    }
  }

  lemma {:induction false} BodyAppend(f: Format, es: seq<G.Entry>, e: G.Entry)
    requires G.AllWritable(es) && e.Writable()
    ensures G.AllWritable(es + [e]) && Body(f, es + [e]) == Body(f, es) + OneRecord(f, e)
    decreases |es|
  {
    hide G.Record, G.EnhancedBlock;
    assert G.AllWritable(es + [e]);
    if es == [] {
      assert es + [e] == [e] && [e][1..] == [];
      AppendNil(OneRecord(f, e));
    } else {
      assert (es + [e])[1..] == es[1..] + [e];
      BodyAppend(f, es[1..], e);
      AppendAssociates(OneRecord(f, es[0]), Body(f, es[1..]), OneRecord(f, e));
    }
  }

  lemma {:induction false} BodyLength(f: Format, calls: seq<Call>)
    requires AllWritable(calls) && calls != []
    ensures G.AllWritable(Entries(calls)) && G.AllWritable(Entries(calls[1..]))
    ensures |Body(f, Entries(calls))| == RecordLength(f, calls[0].frame) + |Body(f, Entries(calls[1..]))|
  {
    EntriesWritable(calls);
    EntriesWritable(calls[1..]);
    assert Entries(calls)[1..] == Entries(calls[1..]);
  }

  lemma InfosFirst(f: Format, calls: seq<Call>, count: nat, offset: nat, data: bool)
    requires calls != []
    ensures InfosOf(f, calls, count, offset, data)
         == [InfoOf(f, calls[0], count + 1, offset, data)]
            + InfosOf(f, calls[1..], count + 1, offset + RecordLength(f, calls[0].frame), data)
  {
  }

  lemma {:induction false} InfosAppend(f: Format, calls: seq<Call>, c: Call, count: nat, offset: nat, data: bool,
                                       last: WroteInfo)
    requires AllWritable(calls) && G.AllWritable(Entries(calls))
    requires last == InfoOf(f, c, count + |calls| + 1, offset + |Body(f, Entries(calls))|, data)
    ensures InfosOf(f, calls + [c], count, offset, data) == InfosOf(f, calls, count, offset, data) + [last]
    decreases |calls|
  {
    hide InfoOf, Body, Entries, InfosOf;
    if calls == [] {
      InfosOfOne(f, c, count, offset, data);
    } else {
      var rest, next := calls[1..], offset + RecordLength(f, calls[0].frame);
      assert (calls + [c])[1..] == rest + [c];
      BodyLength(f, calls);
      InfosAppend(f, rest, c, count + 1, next, data, last);
      InfosFirst(f, calls, count, offset, data);
      InfosFirst(f, calls + [c], count, offset, data);
      AppendAssociates([InfoOf(f, calls[0], count + 1, offset, data)], InfosOf(f, rest, count + 1, next, data), [last]);
    }
  }

  lemma InfosOfOne(f: Format, c: Call, count: nat, offset: nat, data: bool)
    ensures Body(f, Entries([])) == [] && InfosOf(f, [], count, offset, data) == []
    ensures [] + [c] == [c] && InfosOf(f, [c], count, offset, data) == [InfoOf(f, c, count + 1, offset, data)]
  {
    assert [c][1..] == [];
  }

  lemma AllWritableAppend(calls: seq<Call>, c: Call)
    requires AllWritable(calls) && c.Writable()
    ensures AllWritable(calls + [c])
  {
  }

  class PcapWriter {
    const format: Format
    const includePacketData: bool
    var file: seq<byte>       // what the write stream has received, after what the file held before
    var index: nat
    var offset: nat
    var closed: bool
    var emitted: seq<WroteInfo>
    ghost const initial: seq<byte>
    ghost var calls: seq<Call>

    ghost predicate Valid()
      reads this
    {
      && AllWritable(calls) && G.AllWritable(Entries(calls))
      && file == initial + Body(format, Entries(calls))
      && offset == |file| && index == |calls|
      && emitted == InfosOf(format, calls, 0, |initial|, includePacketData)
    }

    /** `existing` is the content of a file that is already there; a new file starts with the format's header. */
    constructor (format: Format, includePacketData: bool, existing: Option<seq<byte>>)
      ensures Valid() && !closed && calls == []
      ensures this.format == format && this.includePacketData == includePacketData
      ensures initial == if existing.Some? then existing.value else FileHeader(format)
    {
      this.format, this.includePacketData := format, includePacketData;
      var start := if existing.Some? then existing.value else FileHeader(format);
      file, offset, index, closed, emitted := start, |start|, 0, false, [];
      initial, calls := start, [];
    }

    method Write(packet: seq<byte>, seconds: G.Num, microseconds: G.Num, now: real)
      requires Valid() && Call(packet, seconds, microseconds).Writable()
      modifies this
      ensures Valid() && closed == old(closed)
      ensures calls == if closed then old(calls) else old(calls) + [Call(packet, seconds, microseconds)]
    {
      hide G.Clamp, Body, Entries, InfosOf, OneRecord;
      if closed { return; }
      var c := Call(packet, seconds, microseconds);
      EntriesAppend(calls, c);
      BodyAppend(format, Entries(calls), c.Entry());
      InfosAppend(format, calls, c, 0, |initial|, includePacketData,
                  InfoOf(format, c, index + 1, offset, includePacketData));
      index := index + 1;
      var startOffset := offset;
      var recordHeaderLength := if format.Pcapng? then 28 else 16;
      var data := Generate(c, now);
      offset := offset + |data|;
      AppendAssociates(initial, Body(format, Entries(calls)), data);
      var nanoseconds := if microseconds.Finite? then G.Finite(microseconds.value * 1000.0) else microseconds;
      var info := WroteInfo(
        index, startOffset, |data|, startOffset, recordHeaderLength, startOffset + recordHeaderLength, |packet|,
        seconds, microseconds, nanoseconds, if includePacketData then packet else []);
      AllWritableAppend(calls, c);
      emitted := emitted + [info];
      file := file + data;
      calls := calls + [c];
      assert info == InfoOf(format, c, index, startOffset, includePacketData);
      EntriesWritable(calls);
    }

    method Generate(c: Call, now: real) returns (data: seq<byte>)
      requires c.Writable()
      ensures data == OneRecord(format, c.Entry()) && |data| == RecordLength(format, c.frame)
    {
      var micro := Some(G.Micro(c.seconds, c.microseconds));
      if format.Pcapng? {
        data := G.GeneratePcapngEnhancedPacket(G.Packet(c.frame, None, micro, 0));
      } else {
        data := G.GeneratePcapData(G.Packet(c.frame, Some(G.Finite(now)), micro, 0));
      }
    }

    method Close()
      requires Valid()
      modifies `closed
      ensures Valid() && closed
    {
      closed := true;
    }
  }
}
