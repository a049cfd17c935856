/**
 * TCP stream diagnostics. The reducer is specified once over an abstract order of sequence positions; the
 * program's order is the 32-bit serial comparison of section 3.2 of RFC 1982, the ideal one is `<=` on
 * unbounded stream positions.
 */
module TcpStream {
  import opened Bytes
  import opened JsStrings

  datatype RttSample = RttSample(segmentIndex: nat, ackIndex: nat, rtt: real)

  datatype Diagnostic = Diagnostic(
    key: string, endpointA: string, endpointB: string, packets: nat,
    retransmissions: seq<nat>, duplicateAcks: seq<nat>, rttSamples: seq<RttSample>)

  /** The fields of a TCP-over-IP frame that the reducer uses. */
  datatype View = View(
    source: string, destination: string, seqNo: int, ack: int, syn: bool, fin: bool, ackFlag: bool,
    segmentLength: nat, timestamp: real, index: nat)
  {
    /** The sequence numbers the frame uses up. */
    function Consumed(): nat
    {
      segmentLength + (if syn then 1 else 0) + (if fin then 1 else 0)
    }

    function EndSeq(): int { seqNo + Consumed() }
  }

  datatype Pending = Pending(endSeq: int, timestamp: real, index: nat)

  datatype Half = Half(maxEndSeq: int, hasMaxEndSeq: bool, seenSyn: bool, lastPureAck: Option<int>,
                       pending: seq<Pending>)

  const NEW_HALF := Half(0, false, false, None, [])

  datatype Order = Serial | Ideal

  /** `((b - a) >>> 0) < 0x80000000` */
  predicate SeqLte(a: int, b: int)
  {
    (b - a) % 0x1_0000_0000 < 0x8000_0000
  }

  predicate Lte(order: Order, a: int, b: int)
  {
    if order.Serial? then SeqLte(a, b) else a <= b
  }

  /** The two insertion-ordered maps. */
  datatype State = State(streamOrder: seq<string>, streams: map<string, Diagnostic>, halfOrder: seq<string>,
                         halves: map<string, Half>)
  {
    ghost predicate Valid()
    {
      && (forall k :: k in streamOrder <==> k in streams) && (forall k :: k in halfOrder <==> k in halves)
      && (forall i, j :: 0 <= i < j < |streamOrder| ==> streamOrder[i] != streamOrder[j])
      && (forall i, j :: 0 <= i < j < |halfOrder| ==> halfOrder[i] != halfOrder[j])
    }
  }

  const EMPTY := State([], map[], [], map[])

  function Forward(v: View): bool { Leq(v.source, v.destination) }

  function EndpointA(v: View): string { if Forward(v) then v.source else v.destination }

  function EndpointB(v: View): string { if Forward(v) then v.destination else v.source }

  function StreamKey(v: View): string { "tcp|" + EndpointA(v) + "|" + EndpointB(v) }

  function HalfKey(v: View, endpoint: string): string { StreamKey(v) + "|" + endpoint }

  function WithHalf(st: State, key: string): State
  {
    if key in st.halves then st
    else st.(halfOrder := st.halfOrder + [key], halves := st.halves[key := NEW_HALF])
  }

  function WithStream(st: State, v: View): State
  {
    var key := StreamKey(v);
    if key in st.streams then st
    else
      st.(streamOrder := st.streamOrder + [key],
          streams := st.streams[key := Diagnostic(key, EndpointA(v), EndpointB(v), 0, [], [], [])])
  }

  /** The stream and both directions exist, and the packet is counted. */
  function Opened(st: State, v: View): (o: State)
    ensures StreamKey(v) in o.streams && HalfKey(v, v.source) in o.halves && HalfKey(v, v.destination) in o.halves
  {
    var s := WithStream(st, v);
    var key := StreamKey(v);
    var counted := s.(streams := s.streams[key := s.streams[key].(packets := s.streams[key].packets + 1)]);
    WithHalf(WithHalf(counted, HalfKey(v, v.source)), HalfKey(v, v.destination))
  }

  /** The frame repeats sequence space its sender has already used. */
  predicate Repeats(order: Order, h: Half, v: View)
  {
    (h.hasMaxEndSeq && Lte(order, v.EndSeq(), h.maxEndSeq)) || (v.syn && h.seenSyn)
  }

  /** The sender's half after a frame that uses up sequence space. */
  function SentHalf(order: Order, h: Half, v: View): Half
  {
    var queued :=
      if Repeats(order, h, v) then h else h.(pending := h.pending + [Pending(v.EndSeq(), v.timestamp, v.index)]);
    var raised :=
      if !h.hasMaxEndSeq || Lte(order, h.maxEndSeq, v.EndSeq()) then
        queued.(maxEndSeq := v.EndSeq(), hasMaxEndSeq := true)
      else queued;
    if v.syn then raised.(seenSyn := true) else raised
  }

  function Sent(order: Order, st: State, v: View): (o: State)
    requires StreamKey(v) in st.streams && HalfKey(v, v.source) in st.halves
    ensures o.streams.Keys == st.streams.Keys && o.halves.Keys == st.halves.Keys
  {
    if v.Consumed() == 0 then st
    else
      var key, half := StreamKey(v), HalfKey(v, v.source);
      var d, h := st.streams[key], st.halves[half];
      st.(halves := st.halves[half := SentHalf(order, h, v)],
          streams :=
            if Repeats(order, h, v) then st.streams[key := d.(retransmissions := d.retransmissions + [v.index])]
            else st.streams)
  }

  function PureAck(st: State, v: View): (o: State)
    requires StreamKey(v) in st.streams && HalfKey(v, v.source) in st.halves
    ensures o.streams.Keys == st.streams.Keys && o.halves.Keys == st.halves.Keys
  {
    if !(v.ackFlag && v.Consumed() == 0) then st
    else
      var key, half := StreamKey(v), HalfKey(v, v.source);
      var d, h := st.streams[key], st.halves[half];
      st.(halves := st.halves[half := h.(lastPureAck := Some(v.ack))],
          streams :=
            if h.lastPureAck == Some(v.ack) then st.streams[key := d.(duplicateAcks := d.duplicateAcks + [v.index])]
            else st.streams)
  }

  /** Segments the acknowledgement does not cover, in order. */
  function Remaining(order: Order, pending: seq<Pending>, v: View): seq<Pending>
  {
    if pending == [] then []
    else (if Lte(order, pending[0].endSeq, v.ack) then [] else [pending[0]]) + Remaining(order, pending[1..], v)
  }

  /** One sample for each covered segment that was sent no later than the acknowledgement, in order. */
  function Samples(order: Order, pending: seq<Pending>, v: View): seq<RttSample>
  {
    if pending == [] then []
    else
      var s := pending[0];
      (if Lte(order, s.endSeq, v.ack) && v.timestamp >= s.timestamp then
         [RttSample(s.index, v.index, v.timestamp - s.timestamp)]
       else [])
      + Samples(order, pending[1..], v)
  }

  function Acked(order: Order, st: State, v: View): (o: State)
    requires StreamKey(v) in st.streams && HalfKey(v, v.destination) in st.halves
    ensures o.streams.Keys == st.streams.Keys && o.halves.Keys == st.halves.Keys
  {
    var key, half := StreamKey(v), HalfKey(v, v.destination);
    var d, h := st.streams[key], st.halves[half];
    if !v.ackFlag || h.pending == [] then st
    else
      st.(halves := st.halves[half := h.(pending := Remaining(order, h.pending, v))],
          streams := st.streams[key := d.(rttSamples := d.rttSamples + Samples(order, h.pending, v))])
  }

  function Update(order: Order, st: State, v: View): State
  {
    Acked(order, PureAck(Sent(order, Opened(st, v), v), v), v)
  }

  function Run(order: Order, views: seq<View>): State
  {
    if views == [] then EMPTY else Update(order, Run(order, views[..|views| - 1]), views[|views| - 1])
  }
}
