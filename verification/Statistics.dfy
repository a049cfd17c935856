/** Conversation and endpoint tables: the rolling reducers, and what their entries mean. */
module Statistics {
  import opened Bytes
  import opened Conversation
  import opened JsStrings

  datatype Frame = Frame(index: int, timestamp: real, length: int, layers: seq<Layer>)

  /** What the statistics take from a frame. */
  datatype Sample = Sample(flow: Option<Flow>, length: int, timestamp: real, index: int)

  function SampleOf(f: Frame): Sample { Sample(FlowOf(f.layers), f.length, f.timestamp, f.index) }

  datatype ConversationSummary = ConversationSummary(
    protocol: string, endpointA: string, endpointB: string,
    packets: nat, bytes: int, packetsAToB: nat, packetsBToA: nat,
    firstTimestamp: real, lastTimestamp: real, firstIndex: int, lastIndex: int)

  datatype EndpointSummary = EndpointSummary(
    address: string, packets: nat, bytes: int, txPackets: nat, txBytes: int, rxPackets: nat, rxBytes: int)

  function Opened(protocol: string, a: string, b: string, timestamp: real, index: int): ConversationSummary
  {
    ConversationSummary(protocol, a, b, 0, 0, 0, 0, timestamp, timestamp, index, index)
  }

  function RealMin(a: real, b: real): real { if a < b then a else b }

  function RealMax(a: real, b: real): real { if a > b then a else b }

  function Counted(c: ConversationSummary, length: int, forward: bool, timestamp: real, index: int): ConversationSummary
  {
    c.(packets := c.packets + 1, bytes := c.bytes + length,
       packetsAToB := if forward then c.packetsAToB + 1 else c.packetsAToB,
       packetsBToA := if forward then c.packetsBToA else c.packetsBToA + 1,
       firstTimestamp := RealMin(timestamp, c.firstTimestamp), lastTimestamp := RealMax(timestamp, c.lastTimestamp),
       firstIndex := Min(c.firstIndex, index), lastIndex := Max(c.lastIndex, index))
  }

  function Tallied(table: map<string, ConversationSummary>, s: Sample): map<string, ConversationSummary>
  {
    if s.flow.None? then table
    else
      var f := s.flow.value;
      var key := CanonicalKey(f);
      var c :=
        if key in table then table[key] else Opened(f.protocol, EndpointA(f), EndpointB(f), s.timestamp, s.index);
      table[key := Counted(c, s.length, Forward(f), s.timestamp, s.index)]
  }

  function Conversations(samples: seq<Sample>): map<string, ConversationSummary>
  {
    if samples == [] then map[] else Tallied(Conversations(samples[..|samples| - 1]), samples[|samples| - 1])
  }

  function Zero(address: string): EndpointSummary { EndpointSummary(address, 0, 0, 0, 0, 0, 0) }

  function Credited(e: EndpointSummary, length: int, isSource: bool): EndpointSummary
  {
    if isSource then
      e.(packets := e.packets + 1, bytes := e.bytes + length, txPackets := e.txPackets + 1,
         txBytes := e.txBytes + length)
    else e.(packets := e.packets + 1, bytes := e.bytes + length, rxPackets := e.rxPackets + 1,
            rxBytes := e.rxBytes + length)
  }

  function Accounted(table: map<string, EndpointSummary>, address: string, length: int,
                     isSource: bool): map<string, EndpointSummary>
  {
    table[address := Credited(if address in table then table[address] else Zero(address), length, isSource)]
  }

  function Paired(table: map<string, EndpointSummary>, s: Sample): map<string, EndpointSummary>
  {
    if s.flow.None? then table
    else Accounted(Accounted(table, s.flow.value.source, s.length, true), s.flow.value.destination, s.length, false)
  }

  function Endpoints(samples: seq<Sample>): map<string, EndpointSummary>
  {
    if samples == [] then map[] else Paired(Endpoints(samples[..|samples| - 1]), samples[|samples| - 1])
  }

  // ---- the reducers ----

  class ConversationsReducer {
    var conversations: map<string, ConversationSummary>
    ghost var samples: seq<Sample>

    ghost predicate Valid()
      reads this
    {
      conversations == Conversations(samples)
    }

    constructor ()
      ensures Valid() && samples == []
    {
      conversations, samples := map[], [];
    }

    method Update(frame: Frame)
      requires Valid()
      modifies this
      ensures Valid() && samples == old(samples) + [SampleOf(frame)]
    {
      hide FlowOf, Leq;
      ghost var before := samples;
      samples := samples + [SampleOf(frame)];
      assert samples[..|before|] == before;
      var flow := FlowOf(frame.layers);
      if flow.None? { return; }
      var f := flow.value;
      var forward := Leq(f.source, f.destination);
      var endpointA, endpointB :=
        if forward then f.source else f.destination, if forward then f.destination else f.source;
      var key := f.protocol + "|" + endpointA + "|" + endpointB;
      var c := if key in conversations then conversations[key]
               else Opened(f.protocol, endpointA, endpointB, frame.timestamp, frame.index);
      LeqReflexive(f.source);
      conversations :=
        conversations[key := Counted(c, frame.length, f.source == endpointA, frame.timestamp, frame.index)];
    }
  }

  class EndpointsReducer {
    var endpoints: map<string, EndpointSummary>
    ghost var samples: seq<Sample>

    ghost predicate Valid()
      reads this
    {
      endpoints == Endpoints(samples)
    }

    constructor ()
      ensures Valid() && samples == []
    {
      endpoints, samples := map[], [];
    }

    method Account(address: string, length: int, isSource: bool)
      modifies this`endpoints
      ensures endpoints == Accounted(old(endpoints), address, length, isSource)
    {
      var e := if address in endpoints then endpoints[address] else Zero(address);
      e := e.(packets := e.packets + 1, bytes := e.bytes + length);
      if isSource {
        e := e.(txPackets := e.txPackets + 1, txBytes := e.txBytes + length);
      } else {
        e := e.(rxPackets := e.rxPackets + 1, rxBytes := e.rxBytes + length);
      }
      endpoints := endpoints[address := e];
    }

    method Update(frame: Frame)
      requires Valid()
      modifies this
      ensures Valid() && samples == old(samples) + [SampleOf(frame)]
    {
      hide FlowOf, Accounted;
      ghost var before := samples;
      samples := samples + [SampleOf(frame)];
      assert samples[..|before|] == before;
      var flow := FlowOf(frame.layers);
      if flow.None? { return; }
      Account(flow.value.source, frame.length, true);
      Account(flow.value.destination, frame.length, false);
    }
  }

  // ---- what the entries mean ----

  predicate InTalk(s: Sample, key: string) { s.flow.Some? && CanonicalKey(s.flow.value) == key }

  function CountTalk(samples: seq<Sample>, key: string): nat
  {
    if samples == [] then 0
    else CountTalk(samples[..|samples| - 1], key) + if InTalk(samples[|samples| - 1], key) then 1 else 0
  }

  function BytesTalk(samples: seq<Sample>, key: string): int
  {
    if samples == [] then 0
    else
      BytesTalk(samples[..|samples| - 1], key)
      + if InTalk(samples[|samples| - 1], key) then samples[|samples| - 1].length else 0
  }

  function CountForward(samples: seq<Sample>, key: string): nat
  {
    if samples == [] then 0
    else
      var s := samples[|samples| - 1];
      CountForward(samples[..|samples| - 1], key) + if InTalk(s, key) && Forward(s.flow.value) then 1 else 0
  }

  predicate TimeSeen(samples: seq<Sample>, key: string, t: real)
  {
    exists k :: 0 <= k < |samples| && InTalk(samples[k], key) && samples[k].timestamp == t
  }

  predicate IndexSeen(samples: seq<Sample>, key: string, i: int)
  {
    exists k :: 0 <= k < |samples| && InTalk(samples[k], key) && samples[k].index == i
  }

  predicate Bounds(s: Sample, c: ConversationSummary)
  {
    c.firstTimestamp <= s.timestamp <= c.lastTimestamp && c.firstIndex <= s.index <= c.lastIndex
  }

  /** First and last times and numbers bound all samples of the conversation and are reached by some. */
  predicate Spans(samples: seq<Sample>, key: string, c: ConversationSummary)
  {
    && (forall k :: 0 <= k < |samples| && InTalk(samples[k], key) ==> Bounds(samples[k], c))
    && TimeSeen(samples, key, c.firstTimestamp) && TimeSeen(samples, key, c.lastTimestamp)
    && IndexSeen(samples, key, c.firstIndex) && IndexSeen(samples, key, c.lastIndex)
  }

  /** A conversation's entry counts exactly its frames, by direction, and spans them. */
  lemma {:induction false} ConversationMeans(samples: seq<Sample>, key: string)
    ensures key in Conversations(samples) <==> CountTalk(samples, key) > 0
    ensures key in Conversations(samples) ==>
      var c := Conversations(samples)[key];
      && c.packets == CountTalk(samples, key) && c.bytes == BytesTalk(samples, key)
      && c.packetsAToB == CountForward(samples, key) && c.packetsAToB + c.packetsBToA == c.packets
      && Spans(samples, key, c)
    decreases |samples|
  {
    hide CanonicalKey, Forward, EndpointA, EndpointB, Spans;
    if samples != [] {
      var front, s := samples[..|samples| - 1], samples[|samples| - 1];
      ConversationMeans(front, key);
      assert samples == front + [s];
      if InTalk(s, key) {
        if key in Conversations(front) {
          SpansGrow(front, s, key, Conversations(front)[key]);
        } else {
          NobodyYet(front, key);
          SpansBegin(front, s, key);
          var f := s.flow.value;
          assert Conversations(samples)[key]
            == Counted(Opened(f.protocol, EndpointA(f), EndpointB(f), s.timestamp, s.index), s.length, Forward(f),
                       s.timestamp, s.index);
        }
      } else if key in Conversations(front) {
        SpansStay(front, s, key, Conversations(front)[key]);
      }
    }
  }

  lemma {:induction false} NobodyYet(samples: seq<Sample>, key: string)
    requires CountTalk(samples, key) == 0
    ensures BytesTalk(samples, key) == 0 && CountForward(samples, key) == 0
    ensures forall k :: 0 <= k < |samples| ==> !InTalk(samples[k], key)
    decreases |samples|
  {
    if samples != [] { NobodyYet(samples[..|samples| - 1], key); }
  }

  lemma SeenStays(front: seq<Sample>, s: Sample, key: string, t: real, i: int)
    ensures TimeSeen(front, key, t) ==> TimeSeen(front + [s], key, t)
    ensures IndexSeen(front, key, i) ==> IndexSeen(front + [s], key, i)
    ensures InTalk(s, key) ==> TimeSeen(front + [s], key, s.timestamp) && IndexSeen(front + [s], key, s.index)
  {
    hide InTalk;
    var all := front + [s];
    assert all[|front|] == s;
    if TimeSeen(front, key, t) {
      var k :| 0 <= k < |front| && InTalk(front[k], key) && front[k].timestamp == t;
      assert all[k] == front[k];
    }
    if IndexSeen(front, key, i) {
      var k :| 0 <= k < |front| && InTalk(front[k], key) && front[k].index == i;
      assert all[k] == front[k];
    }
  }

  lemma SpansStay(front: seq<Sample>, s: Sample, key: string, c: ConversationSummary)
    requires Spans(front, key, c) && !InTalk(s, key)
    ensures Spans(front + [s], key, c)
  {
    hide InTalk, TimeSeen, IndexSeen;
    SeenStays(front, s, key, c.firstTimestamp, c.firstIndex);
    SeenStays(front, s, key, c.lastTimestamp, c.lastIndex);
  }

  lemma SpansGrow(front: seq<Sample>, s: Sample, key: string, c: ConversationSummary)
    requires Spans(front, key, c) && InTalk(s, key)
    ensures forall forward :: Spans(front + [s], key, Counted(c, s.length, forward, s.timestamp, s.index))
  {
    hide InTalk, TimeSeen, IndexSeen;
    SeenStays(front, s, key, c.firstTimestamp, c.firstIndex);
    SeenStays(front, s, key, c.lastTimestamp, c.lastIndex);
  }

  lemma SpansBegin(front: seq<Sample>, s: Sample, key: string)
    requires InTalk(s, key) && forall k :: 0 <= k < |front| ==> !InTalk(front[k], key)
    ensures forall p, a, b, forward ::
      Spans(front + [s], key, Counted(Opened(p, a, b, s.timestamp, s.index), s.length, forward, s.timestamp, s.index))
  {
    hide InTalk, TimeSeen, IndexSeen;
    SeenStays(front, s, key, s.timestamp, s.index);
  }

  /** The flow of the first sample of a conversation. */
  function FirstFlow(samples: seq<Sample>, key: string): Option<Flow>
  {
    if samples == [] then None
    else
      var before, s := FirstFlow(samples[..|samples| - 1], key), samples[|samples| - 1];
      if before.Some? then before else if InTalk(s, key) then s.flow else None
  }

  /** A conversation's entry is named after its first flow, which has the entry's key. */
  lemma {:induction false} ConversationNamed(samples: seq<Sample>, key: string)
    ensures key in Conversations(samples) <==> FirstFlow(samples, key).Some?
    ensures key in Conversations(samples) ==>
      var c, f := Conversations(samples)[key], FirstFlow(samples, key).value;
      CanonicalKey(f) == key && c.protocol == f.protocol && c.endpointA == EndpointA(f) && c.endpointB == EndpointB(f)
    decreases |samples|
  {
    hide CanonicalKey, Forward, EndpointA, EndpointB;
    if samples != [] { ConversationNamed(samples[..|samples| - 1], key); }
  }

  // ---- endpoints ----

  function CountEnd(samples: seq<Sample>, address: string, isSource: bool): nat
  {
    if samples == [] then 0
    else
      CountEnd(samples[..|samples| - 1], address, isSource)
      + if AtEnd(samples[|samples| - 1], address, isSource) then 1 else 0
  }

  function BytesEnd(samples: seq<Sample>, address: string, isSource: bool): int
  {
    if samples == [] then 0
    else
      var s := samples[|samples| - 1];
      BytesEnd(samples[..|samples| - 1], address, isSource) + if AtEnd(s, address, isSource) then s.length else 0
  }

  predicate AtEnd(s: Sample, address: string, isSource: bool)
  {
    s.flow.Some? && (if isSource then s.flow.value.source else s.flow.value.destination) == address
  }

  /** An endpoint's entry counts exactly the frames it sent and received. */
  lemma {:induction false} EndpointMeans(samples: seq<Sample>, address: string)
    ensures address in Endpoints(samples) <==> CountEnd(samples, address, true) + CountEnd(samples, address, false) > 0
    ensures address in Endpoints(samples) ==>
      var e := Endpoints(samples)[address];
      && e.address == address && e.packets == e.txPackets + e.rxPackets && e.bytes == e.txBytes + e.rxBytes
      && e.txPackets == CountEnd(samples, address, true) && e.rxPackets == CountEnd(samples, address, false)
      && e.txBytes == BytesEnd(samples, address, true) && e.rxBytes == BytesEnd(samples, address, false)
    decreases |samples|
  {
    if samples != [] {
      EndpointMeans(samples[..|samples| - 1], address);
      if address !in Endpoints(samples[..|samples| - 1]) { NoEndYet(samples[..|samples| - 1], address); }
    }
  }

  lemma {:induction false} NoEndYet(samples: seq<Sample>, address: string)
    requires CountEnd(samples, address, true) + CountEnd(samples, address, false) == 0
    ensures BytesEnd(samples, address, true) == 0 && BytesEnd(samples, address, false) == 0
    decreases |samples|
  {
    if samples != [] { NoEndYet(samples[..|samples| - 1], address); }
  }
}
