/**
 * The reducer on 32-bit sequence numbers against the ideal reducer on unbounded stream positions: they
 * report the same diagnostics, over any number of wraps, as long as compared positions stay within 2^31.
 */
module TcpRefinement {
  import opened Bytes
  import opened TcpStream

  /** The frame as it is on the wire. */
  function Wrap(v: View): View
  {
    v.(seqNo := v.seqNo % 0x1_0000_0000, ack := v.ack % 0x1_0000_0000)
  }

  function WrapAll(views: seq<View>): seq<View>
  {
    if views == [] then [] else WrapAll(views[..|views| - 1]) + [Wrap(views[|views| - 1])]
  }

  predicate Congruent(a: int, b: int) { (a - b) % 0x1_0000_0000 == 0 }

  /** A distance on which serial order and the order of unbounded positions agree. */
  predicate InWindow(d: int) { d % 0x1_0000_0000 < 0x8000_0000 <==> d >= 0 }

  /** Serial comparison of wrapped positions is the order of the positions exactly on those distances. */
  lemma SerialIsOrderIff(a: int, b: int, wa: int, wb: int)
    requires Congruent(wa, a) && Congruent(wb, b)
    ensures (SeqLte(wa, wb) <==> a <= b) <==> InWindow(b - a)
    ensures -0x8000_0000 <= b - a < 0x8000_0000 ==> InWindow(b - a)
  {
    CongruentDifference(a, b, wa, wb);
  }

  lemma CongruentDifference(a: int, b: int, wa: int, wb: int)
    requires Congruent(wa, a) && Congruent(wb, b)
    ensures (wb - wa) % 0x1_0000_0000 == (b - a) % 0x1_0000_0000
  {
  }

  /** Every position the frame is compared with, in either direction, is less than 2^31 away. */
  predicate Close(st: State, v: View)
  {
    var o := Opened(st, v);
    var h := o.halves[HalfKey(v, v.source)];
    && (v.Consumed() > 0 && h.hasMaxEndSeq ==> -0x8000_0000 < v.EndSeq() - h.maxEndSeq < 0x8000_0000)
    && (v.ackFlag && v.Consumed() == 0 && h.lastPureAck.Some? ==>
          -0x8000_0000 < v.ack - h.lastPureAck.value < 0x8000_0000)
    && (v.ackFlag ==>
          var r := Sent(Ideal, o, v).halves[HalfKey(v, v.destination)];
          forall k :: 0 <= k < |r.pending| ==> -0x8000_0000 < v.ack - r.pending[k].endSeq < 0x8000_0000)
  }

  predicate CloseRun(views: seq<View>)
  {
    views == [] ||
    var before := views[..|views| - 1];
    CloseRun(before) && Close(Run(Ideal, before), views[|views| - 1])
  }

  predicate PendingRel(p: seq<Pending>, q: seq<Pending>)
  {
    |p| == |q| && forall k :: 0 <= k < |p| ==>
      Congruent(p[k].endSeq, q[k].endSeq) && p[k].timestamp == q[k].timestamp && p[k].index == q[k].index
  }

  /** The serial half `h` is the wrapped image of the ideal half `g`. */
  predicate HalfRel(h: Half, g: Half)
  {
    && h.hasMaxEndSeq == g.hasMaxEndSeq && h.seenSyn == g.seenSyn
    && (g.hasMaxEndSeq ==> Congruent(h.maxEndSeq, g.maxEndSeq))
    && h.lastPureAck.Some? == g.lastPureAck.Some?
    && (g.lastPureAck.Some? ==> h.lastPureAck.value == g.lastPureAck.value % 0x1_0000_0000)
    && PendingRel(h.pending, g.pending)
  }

  predicate StateRel(s: State, i: State)
  {
    && s.streamOrder == i.streamOrder && s.streams == i.streams && s.halfOrder == i.halfOrder
    && s.halves.Keys == i.halves.Keys
    && forall k :: k in s.halves ==> HalfRel(s.halves[k], i.halves[k])
  }

  lemma WrapKeys(v: View)
    ensures StreamKey(Wrap(v)) == StreamKey(v)
    ensures forall e :: HalfKey(Wrap(v), e) == HalfKey(v, e)
    ensures Wrap(v).Consumed() == v.Consumed()
    ensures Congruent(Wrap(v).EndSeq(), v.EndSeq()) && Congruent(Wrap(v).ack, v.ack)
  {
  }

  lemma WithHalfRel(s: State, i: State, key: string)
    requires StateRel(s, i)
    ensures StateRel(WithHalf(s, key), WithHalf(i, key))
  {
  }

  lemma WithStreamRel(s: State, i: State, v: View)
    requires StateRel(s, i)
    ensures StateRel(WithStream(s, Wrap(v)), WithStream(i, v))
  {
    WrapKeys(v);
    hide StreamKey, HalfKey;
  }

  lemma OpenedRel(s: State, i: State, v: View)
    requires StateRel(s, i)
    ensures StateRel(Opened(s, Wrap(v)), Opened(i, v))
  {
    WithStreamRel(s, i, v);
    WrapKeys(v);
    hide StreamKey, HalfKey, WithStream, WithHalf, HalfRel;
    var key := StreamKey(v);
    var s1, i1 := WithStream(s, Wrap(v)), WithStream(i, v);
    var s2 := s1.(streams := s1.streams[key := s1.streams[key].(packets := s1.streams[key].packets + 1)]);
    var i2 := i1.(streams := i1.streams[key := i1.streams[key].(packets := i1.streams[key].packets + 1)]);
    assert StateRel(s2, i2);
    WithHalfRel(s2, i2, HalfKey(v, v.source));
    WithHalfRel(WithHalf(s2, HalfKey(v, v.source)), WithHalf(i2, HalfKey(v, v.source)), HalfKey(v, v.destination));
  }

  lemma SentHalfRel(h: Half, g: Half, v: View)
    requires HalfRel(h, g) && v.Consumed() > 0
    requires g.hasMaxEndSeq ==> -0x8000_0000 < v.EndSeq() - g.maxEndSeq < 0x8000_0000
    ensures Repeats(Serial, h, Wrap(v)) == Repeats(Ideal, g, v)
    ensures HalfRel(SentHalf(Serial, h, Wrap(v)), SentHalf(Ideal, g, v))
  {
    WrapKeys(v);
    if g.hasMaxEndSeq {
      SerialIsOrderIff(v.EndSeq(), g.maxEndSeq, Wrap(v).EndSeq(), h.maxEndSeq);
      SerialIsOrderIff(g.maxEndSeq, v.EndSeq(), h.maxEndSeq, Wrap(v).EndSeq());
    }
  }

  lemma SentRel(s: State, i: State, v: View)
    requires StateRel(s, i) && StreamKey(v) in i.streams && HalfKey(v, v.source) in i.halves
    requires v.Consumed() > 0 && i.halves[HalfKey(v, v.source)].hasMaxEndSeq ==>
      -0x8000_0000 < v.EndSeq() - i.halves[HalfKey(v, v.source)].maxEndSeq < 0x8000_0000
    ensures StreamKey(Wrap(v)) in s.streams && HalfKey(Wrap(v), Wrap(v).source) in s.halves
    ensures StateRel(Sent(Serial, s, Wrap(v)), Sent(Ideal, i, v))
  {
    WrapKeys(v);
    var k := HalfKey(v, v.source);
    hide StreamKey, HalfKey, SentHalf, Repeats;
    if v.Consumed() > 0 { SentHalfRel(s.halves[k], i.halves[k], v); }
  }

  lemma PureAckRel(s: State, i: State, v: View)
    requires StateRel(s, i) && StreamKey(v) in i.streams && HalfKey(v, v.source) in i.halves
    requires v.ackFlag && v.Consumed() == 0 && i.halves[HalfKey(v, v.source)].lastPureAck.Some? ==>
      -0x8000_0000 < v.ack - i.halves[HalfKey(v, v.source)].lastPureAck.value < 0x8000_0000
    ensures StreamKey(Wrap(v)) in s.streams && HalfKey(Wrap(v), Wrap(v).source) in s.halves
    ensures StateRel(PureAck(s, Wrap(v)), PureAck(i, v))
  {
    WrapKeys(v);
    var h, g := s.halves[HalfKey(v, v.source)], i.halves[HalfKey(v, v.source)];
    hide StreamKey, HalfKey;
    assert g.lastPureAck.Some? && v.ackFlag && v.Consumed() == 0 ==>
      (h.lastPureAck == Some(Wrap(v).ack) <==> g.lastPureAck == Some(v.ack));
  }

  lemma {:induction false} AckedPendingRel(p: seq<Pending>, q: seq<Pending>, v: View)
    requires PendingRel(p, q)
    requires forall k :: 0 <= k < |q| ==> -0x8000_0000 < v.ack - q[k].endSeq < 0x8000_0000
    ensures PendingRel(Remaining(Serial, p, Wrap(v)), Remaining(Ideal, q, v))
    ensures Samples(Serial, p, Wrap(v)) == Samples(Ideal, q, v)
    decreases |p|
  {
    if p != [] {
      WrapKeys(v);
      SerialIsOrderIff(q[0].endSeq, v.ack, p[0].endSeq, Wrap(v).ack);
      AckedPendingRel(p[1..], q[1..], v);
    }
  }

  lemma AckedRel(s: State, i: State, v: View)
    requires StateRel(s, i) && StreamKey(v) in i.streams && HalfKey(v, v.destination) in i.halves
    requires v.ackFlag ==> forall k :: 0 <= k < |i.halves[HalfKey(v, v.destination)].pending| ==>
      -0x8000_0000 < v.ack - i.halves[HalfKey(v, v.destination)].pending[k].endSeq < 0x8000_0000
    ensures StreamKey(Wrap(v)) in s.streams && HalfKey(Wrap(v), Wrap(v).destination) in s.halves
    ensures StateRel(Acked(Serial, s, Wrap(v)), Acked(Ideal, i, v))
  {
    WrapKeys(v);
    var k := HalfKey(v, v.destination);
    hide StreamKey, HalfKey, Remaining, Samples;
    if v.ackFlag { AckedPendingRel(s.halves[k].pending, i.halves[k].pending, v); }
  }

  /** Recording a pure acknowledgement changes no pending list. */
  lemma PureAckKeepsPending(st: State, v: View, k: string)
    requires StreamKey(v) in st.streams && HalfKey(v, v.source) in st.halves && k in st.halves
    ensures PureAck(st, v).halves[k].pending == st.halves[k].pending
  {
  }

  lemma SentKeepsPureAck(order: Order, st: State, v: View, k: string)
    requires StreamKey(v) in st.streams && HalfKey(v, v.source) in st.halves && k in st.halves
    ensures Sent(order, st, v).halves[k].lastPureAck == st.halves[k].lastPureAck
  {
  }

  lemma UpdateRel(s: State, i: State, v: View)
    requires StateRel(s, i) && Close(i, v)
    ensures StateRel(Update(Serial, s, Wrap(v)), Update(Ideal, i, v))
  {
    var o := Opened(i, v);
    var src, dst := HalfKey(v, v.source), HalfKey(v, v.destination);
    hide StreamKey, HalfKey, StateRel;
    OpenedRel(s, i, v);
    WrapKeys(v);
    var so := Opened(s, Wrap(v));
    SentRel(so, o, v);
    SentKeepsPureAck(Ideal, o, v, src);
    var sent := Sent(Ideal, o, v);
    PureAckRel(Sent(Serial, so, Wrap(v)), sent, v);
    PureAckKeepsPending(sent, v, dst);
    AckedRel(PureAck(Sent(Serial, so, Wrap(v)), Wrap(v)), PureAck(sent, v), v);
  }

  lemma {:induction false} RunRel(views: seq<View>)
    requires CloseRun(views)
    ensures StateRel(Run(Serial, WrapAll(views)), Run(Ideal, views))
    decreases |views|
  {
    if views != [] {
      var before, v := views[..|views| - 1], views[|views| - 1];
      RunRel(before);
      UpdateRel(Run(Serial, WrapAll(before)), Run(Ideal, before), v);
      assert WrapAll(views)[..|WrapAll(views)| - 1] == WrapAll(before);
    }
  }

  /** Over any run whose compared positions stay close, wrapping changes no diagnostic. */
  lemma WrappedReportsAreIdeal(views: seq<View>)
    requires CloseRun(views)
    ensures Run(Serial, WrapAll(views)).streamOrder == Run(Ideal, views).streamOrder
    ensures Run(Serial, WrapAll(views)).streams == Run(Ideal, views).streams
  {
    RunRel(views);
  }

  // ---- what the ideal reducer calls a retransmission ----

  predicate Sends(v: View, key: string)
  {
    v.Consumed() > 0 && HalfKey(v, v.source) == key
  }

  predicate SomeSent(views: seq<View>, key: string, end: int, syn: bool)
  {
    exists k :: 0 <= k < |views| && Sends(views[k], key) && (end <= views[k].EndSeq() || (syn && views[k].syn))
  }

  /** The half holds the highest end position sent so far, and whether a SYN was. */
  predicate HighWater(h: Half, views: seq<View>, key: string)
  {
    && (forall k :: 0 <= k < |views| && Sends(views[k], key) ==> h.hasMaxEndSeq && views[k].EndSeq() <= h.maxEndSeq)
    && (forall k :: 0 <= k < |views| && Sends(views[k], key) && views[k].syn ==> h.seenSyn)
    && (h.hasMaxEndSeq ==> exists k :: 0 <= k < |views| && Sends(views[k], key) && views[k].EndSeq() == h.maxEndSeq)
    && (h.seenSyn ==> exists k :: 0 <= k < |views| && Sends(views[k], key) && views[k].syn)
  }

  function HalfAt(st: State, key: string): Half
  {
    if key in st.halves then st.halves[key] else NEW_HALF
  }

  predicate SameWater(a: Half, b: Half)
  {
    a.maxEndSeq == b.maxEndSeq && a.hasMaxEndSeq == b.hasMaxEndSeq && a.seenSyn == b.seenSyn
  }

  lemma OpenedHalfAt(st: State, v: View, key: string)
    ensures HalfAt(Opened(st, v), key) == HalfAt(st, key)
  {
    hide StreamKey, HalfKey;
  }

  lemma AcksKeepWater(order: Order, st: State, v: View, key: string)
    requires StreamKey(v) in st.streams && HalfKey(v, v.source) in st.halves && HalfKey(v, v.destination) in st.halves
    ensures SameWater(HalfAt(Acked(order, PureAck(st, v), v), key), HalfAt(st, key))
  {
    hide StreamKey, HalfKey, Remaining;
    var pure := PureAck(st, v);
    assert SameWater(HalfAt(pure, key), HalfAt(st, key));
    hide PureAck;
  }

  lemma UpdateHighWater(order: Order, st: State, v: View, key: string)
    ensures var h := HalfAt(st, key);
            SameWater(HalfAt(Update(order, st, v), key), if Sends(v, key) then SentHalf(order, h, v) else h)
  {
    OpenedHalfAt(st, v, key);
    hide StreamKey, HalfKey, Opened, SentHalf, PureAck, Acked;
    AcksKeepWater(order, Sent(order, Opened(st, v), v), v, key);
  }

  lemma {:induction false} RunHighWater(views: seq<View>, key: string)
    ensures HighWater(HalfAt(Run(Ideal, views), key), views, key)
    decreases |views|
  {
    if views != [] {
      var n := |views| - 1;
      var before, v := views[..n], views[n];
      var h := HalfAt(Run(Ideal, before), key);
      RunHighWater(before, key);
      UpdateHighWater(Ideal, Run(Ideal, before), v, key);
      hide Run, Update, HalfKey;
      var h' := HalfAt(Update(Ideal, Run(Ideal, before), v), key);
      StepHighWater(h, h', before, v, key);
      assert views == before + [v];
    }
  }

  lemma StepHighWater(h: Half, h': Half, before: seq<View>, v: View, key: string)
    requires HighWater(h, before, key)
    requires SameWater(h', if Sends(v, key) then SentHalf(Ideal, h, v) else h)
    ensures HighWater(h', before + [v], key)
  {
    hide HalfKey;
    var views := before + [v];
    assert views[|before|] == v;
    assert forall k :: 0 <= k < |before| ==> views[k] == before[k];
    if h.hasMaxEndSeq {
      var k :| 0 <= k < |before| && Sends(before[k], key) && before[k].EndSeq() == h.maxEndSeq;
      assert Sends(views[k], key) && views[k].EndSeq() == h.maxEndSeq;
    }
    if h.seenSyn {
      var k :| 0 <= k < |before| && Sends(before[k], key) && before[k].syn;
      assert Sends(views[k], key) && views[k].syn;
    }
  }

  /**
   * A frame counts as a retransmission exactly when an earlier frame of the same direction already reached
   * its end position, or when it is a SYN and the direction has sent one before.
   */
  lemma RetransmissionIff(views: seq<View>, v: View)
    requires v.Consumed() > 0
    ensures Repeats(Ideal, HalfAt(Run(Ideal, views), HalfKey(v, v.source)), v)
            <==> SomeSent(views, HalfKey(v, v.source), v.EndSeq(), v.syn)
  {
    var key := HalfKey(v, v.source);
    RunHighWater(views, key);
    hide Run, HalfKey;
  }
}
