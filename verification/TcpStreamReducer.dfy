/** The reducer object: two insertion-ordered maps updated frame by frame, and the round-trip summary. */
module TcpStreamReducer {
  import opened Bytes
  import opened JsStrings
  import Spec = TcpStream
  import opened TcpStream

  datatype Tcp = Tcp(srcport: string, dstport: string, seqNo: nat, ackNo: nat, hdrLen: nat, syn: bool, fin: bool,
                     ack: bool)

  datatype Ipv4 = Ipv4(sip: string, dip: string, length: nat, hdrLen: nat)

  datatype Ipv6 = Ipv6(sip: string, dip: string, plen: nat)

  /** The layers of a decoded frame that the reducer looks up. */
  datatype Frame = Frame(index: nat, timestamp: real, tcp: Option<Tcp>, ipv4: Option<Ipv4>, ipv6: Option<Ipv6>)

  function OrTwenty(hdrLen: nat): nat { if hdrLen == 0 then 20 else hdrLen }

  /** The reducer's view of a frame, or None when it is not TCP over IP; IPv4 is looked up before IPv6. */
  function ViewOf(f: Frame): Option<View>
  {
    if f.tcp.None? || (f.ipv4.None? && f.ipv6.None?) then None
    else
      var t := f.tcp.value;
      var payload := if f.ipv4.Some? then f.ipv4.value.length - OrTwenty(f.ipv4.value.hdrLen) - OrTwenty(t.hdrLen)
                     else f.ipv6.value.plen - OrTwenty(t.hdrLen);
      var (sip, dip) :=
        if f.ipv4.Some? then (f.ipv4.value.sip, f.ipv4.value.dip) else (f.ipv6.value.sip, f.ipv6.value.dip);
      Some(View(sip + ":" + t.srcport, dip + ":" + t.dstport, t.seqNo, t.ackNo, t.syn, t.fin, t.ack,
                Max(0, payload), f.timestamp, f.index))
  }

  /**
   * A segment of `n` octets is seen as one, whether IPv4 counts both headers into its length, IPv6 its own not at all,
   * or a header length is missing and stands for 20; a frame without TCP or without IP is not seen.
   */
  lemma ViewTells(f: Frame, n: nat)
    ensures ViewOf(f).Some? <==> f.tcp.Some? && (f.ipv4.Some? || f.ipv6.Some?)
    ensures ViewOf(f).Some? ==>
      var v, t := ViewOf(f).value, f.tcp.value;
      && v.index == f.index && v.timestamp == f.timestamp
      && (v.seqNo, v.ack, v.syn, v.fin, v.ackFlag) == (t.seqNo, t.ackNo, t.syn, t.fin, t.ack)
      && (f.ipv4.Some? ==>
            var ip := f.ipv4.value;
            && (v.source, v.destination) == (ip.sip + ":" + t.srcport, ip.dip + ":" + t.dstport)
            && (ip.hdrLen > 0 && t.hdrLen > 0 && ip.length == ip.hdrLen + t.hdrLen + n ==> v.segmentLength == n)
            && (ip.hdrLen == 0 && t.hdrLen == 0 && ip.length == 40 + n ==> v.segmentLength == n)
            && (ip.length < 40 && ip.hdrLen >= 20 && t.hdrLen >= 20 ==> v.segmentLength == 0))
      && (f.ipv4.None? ==>
            var ip := f.ipv6.value;
            && (v.source, v.destination) == (ip.sip + ":" + t.srcport, ip.dip + ":" + t.dstport)
            && (t.hdrLen > 0 && ip.plen == t.hdrLen + n ==> v.segmentLength == n)
            && (ip.plen < t.hdrLen ==> v.segmentLength == 0))
  {
  }

  datatype RttSummary = RttSummary(min: Option<real>, max: Option<real>, mean: Option<real>)

  function Sum(samples: seq<RttSample>): real
  {
    if samples == [] then 0.0 else Sum(samples[..|samples| - 1]) + samples[|samples| - 1].rtt
  }

  /** The summary holds the least, greatest and mean time of the samples, or nothing when there are none. */
  method SummarizeRtt(samples: seq<RttSample>) returns (r: RttSummary)
    ensures samples == [] ==> r == RttSummary(None, None, None)
    ensures samples != [] ==>
      && r.min.Some? && r.max.Some? && r.mean == Some(Sum(samples) / |samples| as real)
      && (exists k :: 0 <= k < |samples| && samples[k].rtt == r.min.value)
      && (exists k :: 0 <= k < |samples| && samples[k].rtt == r.max.value)
      && (forall k :: 0 <= k < |samples| ==> r.min.value <= samples[k].rtt <= r.max.value)
  {
    if samples == [] { return RttSummary(None, None, None); }
    var min, max, sum := samples[0].rtt, samples[0].rtt, 0.0;
    for i := 0 to |samples|
      invariant sum == Sum(samples[..i])
      invariant exists k :: 0 <= k < |samples| && samples[k].rtt == min
      invariant exists k :: 0 <= k < |samples| && samples[k].rtt == max
      invariant forall k :: 0 <= k < i ==> min <= samples[k].rtt <= max
    {
      if samples[i].rtt < min { min := samples[i].rtt; }
      if samples[i].rtt > max { max := samples[i].rtt; }
      sum := sum + samples[i].rtt;
      assert samples[..i + 1][..i] == samples[..i];
    }
    assert samples[..|samples|] == samples;
    return RttSummary(Some(min), Some(max), Some(sum / |samples| as real));
  }

  class TcpStreamReducer {
    var streamOrder: seq<string>
    var streams: map<string, Diagnostic>
    var halfOrder: seq<string>
    var halves: map<string, Half>

    ghost function Abstract(): State
      reads this
    {
      State(streamOrder, streams, halfOrder, halves)
    }

    constructor ()
      ensures Abstract() == EMPTY
    {
      streamOrder, streams, halfOrder, halves := [], map[], [], map[];
    }

    method Reset()
      modifies this
      ensures Abstract() == EMPTY
    {
      streamOrder, streams, halfOrder, halves := [], map[], [], map[];
    }

    method Half(key: string) returns (half: Half)
      modifies `halfOrder, `halves
      ensures Abstract() == WithHalf(old(Abstract()), key)
      ensures key in halves && half == halves[key]
    {
      if key !in halves {
        halfOrder := halfOrder + [key];
        halves := halves[key := NEW_HALF];
      }
      half := halves[key];
    }

    method Update(frame: Frame)
      modifies this
      ensures Abstract()
        == match ViewOf(frame) case None => old(Abstract()) case Some(v) => Spec.Update(Serial, old(Abstract()), v)
    {
      var found := ViewOf(frame);
      if found.None? { return; }
      var v := found.value;
      Open(v);
      Send(v);
      NotePureAck(v);
      Acknowledge(v);
    }

    method Open(v: View)
      modifies this
      ensures Abstract() == Opened(old(Abstract()), v)
    {
      var forward := Leq(v.source, v.destination);
      var endpointA := if forward then v.source else v.destination;
      var endpointB := if forward then v.destination else v.source;
      var key := "tcp|" + endpointA + "|" + endpointB;
      if key !in streams {
        streamOrder := streamOrder + [key];
        streams := streams[key := Diagnostic(key, endpointA, endpointB, 0, [], [], [])];
      }
      streams := streams[key := streams[key].(packets := streams[key].packets + 1)];
      var forwardHalf := Half(key + "|" + v.source);
      var reverseHalf := Half(key + "|" + v.destination);
    }

    method Send(v: View)
      requires StreamKey(v) in streams && HalfKey(v, v.source) in halves
      modifies this
      ensures Abstract() == Sent(Serial, old(Abstract()), v)
    {
      var consumed := v.Consumed();
      if consumed == 0 { return; }
      var endSeq := v.seqNo + consumed;
      var key, half := StreamKey(v), HalfKey(v, v.source);
      var stream, h := streams[key], halves[half];
      var alreadySent := h.hasMaxEndSeq && SeqLte(endSeq, h.maxEndSeq);
      if alreadySent || (v.syn && h.seenSyn) {
        streams := streams[key := stream.(retransmissions := stream.retransmissions + [v.index])];
      } else {
        h := h.(pending := h.pending + [Pending(endSeq, v.timestamp, v.index)]);
      }
      if !h.hasMaxEndSeq || SeqLte(h.maxEndSeq, endSeq) {
        h := h.(maxEndSeq := endSeq, hasMaxEndSeq := true);
      }
      if v.syn { h := h.(seenSyn := true); }
      halves := halves[half := h];
    }

    method NotePureAck(v: View)
      requires StreamKey(v) in streams && HalfKey(v, v.source) in halves
      modifies this
      ensures Abstract() == PureAck(old(Abstract()), v)
    {
      if !(v.ackFlag && v.Consumed() == 0) { return; }
      var key, half := StreamKey(v), HalfKey(v, v.source);
      var stream, h := streams[key], halves[half];
      if h.lastPureAck == Some(v.ack) {
        streams := streams[key := stream.(duplicateAcks := stream.duplicateAcks + [v.index])];
      }
      halves := halves[half := h.(lastPureAck := Some(v.ack))];
    }

    method Acknowledge(v: View)
      requires StreamKey(v) in streams && HalfKey(v, v.destination) in halves
      modifies this
      ensures Abstract() == Acked(Serial, old(Abstract()), v)
    {
      var key, half := StreamKey(v), HalfKey(v, v.destination);
      var stream, h := streams[key], halves[half];
      if !v.ackFlag || |h.pending| == 0 { return; }
      var remaining, samples := Settle(h.pending, v);
      streams := streams[key := stream.(rttSamples := stream.rttSamples + samples)];
      halves := halves[half := h.(pending := remaining)];
    }

    /** One pass over a pending list: sample what the acknowledgement covers, keep the rest. */
    static method Settle(pending: seq<Pending>, v: View) returns (remaining: seq<Pending>, samples: seq<RttSample>)
      ensures remaining == Remaining(Serial, pending, v) && samples == Samples(Serial, pending, v)
    {
      remaining, samples := [], [];
      for i := 0 to |pending|
        invariant remaining + Remaining(Serial, pending[i..], v) == Remaining(Serial, pending, v)
        invariant samples + Samples(Serial, pending[i..], v) == Samples(Serial, pending, v)
      {
        var segment := pending[i];
        assert pending[i..][1..] == pending[i + 1..];
        if SeqLte(segment.endSeq, v.ack) {
          if v.timestamp >= segment.timestamp {
            samples := samples + [RttSample(segment.index, v.index, v.timestamp - segment.timestamp)];
          }
        } else {
          remaining := remaining + [segment];
        }
      }
    }
  }
}
