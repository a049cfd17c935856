/** Where every sequence-consuming frame ends up: retransmission, still pending, or one RTT sample. */
module TcpConservation {
  import opened Bytes
  import opened TcpStream

  function Count(indices: seq<nat>, x: nat): nat
  {
    if indices == [] then 0 else (if indices[0] == x then 1 else 0) + Count(indices[1..], x)
  }

  function SampleCount(samples: seq<RttSample>, x: nat): nat
  {
    if samples == [] then 0 else (if samples[0].segmentIndex == x then 1 else 0) + SampleCount(samples[1..], x)
  }

  function PendingCount(pending: seq<Pending>, x: nat): nat
  {
    if pending == [] then 0 else (if pending[0].index == x then 1 else 0) + PendingCount(pending[1..], x)
  }

  function StreamCount(d: Diagnostic, x: nat): nat
  {
    Count(d.retransmissions, x) + SampleCount(d.rttSamples, x)
  }

  function SumStreams(keys: seq<string>, m: map<string, Diagnostic>, x: nat): nat
    requires forall k :: k in keys ==> k in m
  {
    if keys == [] then 0
    else
      assert keys[0] in keys;
      StreamCount(m[keys[0]], x) + SumStreams(keys[1..], m, x)
  }

  function SumHalves(keys: seq<string>, m: map<string, Half>, x: nat): nat
    requires forall k :: k in keys ==> k in m
  {
    if keys == [] then 0
    else
      assert keys[0] in keys;
      PendingCount(m[keys[0]].pending, x) + SumHalves(keys[1..], m, x)
  }

  /** How often the reducer holds frame `x`: as a retransmission, a sample's segment or a pending segment. */
  ghost function Held(st: State, x: nat): nat
    requires st.Valid()
  {
    SumStreams(st.streamOrder, st.streams, x) + SumHalves(st.halfOrder, st.halves, x)
  }

  // ---- list lemmas ----

  lemma {:induction false} CountAppend(a: seq<nat>, b: seq<nat>, x: nat)
    ensures Count(a + b, x) == Count(a, x) + Count(b, x)
  {
    if a == [] {
      assert a + b == b;
    } else {
      assert (a + b)[1..] == a[1..] + b;
      CountAppend(a[1..], b, x);
    }
  }

  lemma {:induction false} SamplesAppend(a: seq<RttSample>, b: seq<RttSample>, x: nat)
    ensures SampleCount(a + b, x) == SampleCount(a, x) + SampleCount(b, x)
  {
    if a == [] {
      assert a + b == b;
    } else {
      assert (a + b)[1..] == a[1..] + b;
      SamplesAppend(a[1..], b, x);
    }
  }

  lemma {:induction false} PendingAppend(a: seq<Pending>, b: seq<Pending>, x: nat)
    ensures PendingCount(a + b, x) == PendingCount(a, x) + PendingCount(b, x)
  {
    if a == [] {
      assert a + b == b;
    } else {
      assert (a + b)[1..] == a[1..] + b;
      PendingAppend(a[1..], b, x);
    }
  }

  predicate Distinct(keys: seq<string>)
  {
    forall i, j :: 0 <= i < j < |keys| ==> keys[i] != keys[j]
  }

  lemma {:induction false} StreamsUpdate(keys: seq<string>, m: map<string, Diagnostic>, key: string, d: Diagnostic,
                                         x: nat)
    requires Distinct(keys) && key in m && forall k :: k in keys ==> k in m
    ensures SumStreams(keys, m[key := d], x)
         == SumStreams(keys, m, x) + if key in keys then StreamCount(d, x) - StreamCount(m[key], x) else 0
  {
    if keys != [] {
      hide StreamCount;
      assert keys[0] in keys;
      StreamsUpdate(keys[1..], m, key, d, x);
      assert keys == [keys[0]] + keys[1..];
    }
  }

  lemma {:induction false} HalvesUpdate(keys: seq<string>, m: map<string, Half>, key: string, h: Half, x: nat)
    requires Distinct(keys) && key in m && forall k :: k in keys ==> k in m
    ensures SumHalves(keys, m[key := h], x)
         == SumHalves(keys, m, x)
           + if key in keys then PendingCount(h.pending, x) - PendingCount(m[key].pending, x) else 0
  {
    if keys != [] {
      hide PendingCount;
      assert keys[0] in keys;
      HalvesUpdate(keys[1..], m, key, h, x);
      assert keys == [keys[0]] + keys[1..];
    }
  }

  lemma {:induction false} StreamsAppend(keys: seq<string>, m: map<string, Diagnostic>, key: string, d: Diagnostic,
                                         x: nat)
    requires key !in keys && forall k :: k in keys ==> k in m
    ensures SumStreams(keys + [key], m[key := d], x) == SumStreams(keys, m, x) + StreamCount(d, x)
  {
    hide StreamCount;
    if keys == [] {
      assert keys + [key] == [key] && [key][1..] == [];
    } else {
      assert keys[0] in keys;
      assert (keys + [key])[1..] == keys[1..] + [key];
      StreamsAppend(keys[1..], m, key, d, x);
    }
  }

  lemma {:induction false} HalvesAppend(keys: seq<string>, m: map<string, Half>, key: string, h: Half, x: nat)
    requires key !in keys && forall k :: k in keys ==> k in m
    ensures SumHalves(keys + [key], m[key := h], x) == SumHalves(keys, m, x) + PendingCount(h.pending, x)
  {
    hide PendingCount;
    if keys == [] {
      assert keys + [key] == [key] && [key][1..] == [];
    } else {
      assert keys[0] in keys;
      assert (keys + [key])[1..] == keys[1..] + [key];
      HalvesAppend(keys[1..], m, key, h, x);
    }
  }

  // ---- the steps ----

  lemma WithHalfHeld(st: State, key: string, x: nat)
    requires st.Valid()
    ensures WithHalf(st, key).Valid() && Held(WithHalf(st, key), x) == Held(st, x)
  {
    if key !in st.halves { HalvesAppend(st.halfOrder, st.halves, key, NEW_HALF, x); }
  }

  lemma WithStreamHeld(st: State, v: View, x: nat)
    requires st.Valid()
    ensures WithStream(st, v).Valid() && Held(WithStream(st, v), x) == Held(st, x)
      && StreamKey(v) in WithStream(st, v).streams
  {
    var key := StreamKey(v);
    hide StreamKey, EndpointA, EndpointB;
    if key !in st.streams {
      StreamsAppend(st.streamOrder, st.streams, key, Diagnostic(key, EndpointA(v), EndpointB(v), 0, [], [], []), x);
    }
  }

  lemma SetStream(st: State, key: string, d: Diagnostic, x: nat)
    requires st.Valid() && key in st.streams
    ensures var o := st.(streams := st.streams[key := d]);
            o.Valid() && Held(o, x) == Held(st, x) + StreamCount(d, x) - StreamCount(st.streams[key], x)
  {
    StreamsUpdate(st.streamOrder, st.streams, key, d, x);
  }

  lemma SetHalf(st: State, key: string, h: Half, x: nat)
    requires st.Valid() && key in st.halves
    ensures var o := st.(halves := st.halves[key := h]);
            o.Valid()
              && Held(o, x) == Held(st, x) + PendingCount(h.pending, x) - PendingCount(st.halves[key].pending, x)
  {
    HalvesUpdate(st.halfOrder, st.halves, key, h, x);
  }

  lemma OpenedHeld(st: State, v: View, x: nat)
    requires st.Valid()
    ensures Opened(st, v).Valid() && Held(Opened(st, v), x) == Held(st, x)
  {
    hide StreamKey, HalfKey, WithStream, WithHalf, Held, State.Valid;
    var s := WithStream(st, v);
    WithStreamHeld(st, v, x);
    CountedHeld(s, StreamKey(v), x);
    var counted := Counted(s, StreamKey(v));
    var once := WithHalf(counted, HalfKey(v, v.source));
    WithHalfHeld(counted, HalfKey(v, v.source), x);
    WithHalfHeld(once, HalfKey(v, v.destination), x);
    assert Opened(st, v) == WithHalf(once, HalfKey(v, v.destination));
  }

  function Counted(st: State, key: string): State
    requires key in st.streams
  {
    st.(streams := st.streams[key := st.streams[key].(packets := st.streams[key].packets + 1)])
  }

  lemma CountedHeld(st: State, key: string, x: nat)
    requires st.Valid() && key in st.streams
    ensures Counted(st, key).Valid() && Held(Counted(st, key), x) == Held(st, x)
  {
    SetStream(st, key, st.streams[key].(packets := st.streams[key].packets + 1), x);
  }

  /** Whether the frame is `x` and uses up sequence space. */
  function Uses(v: View, x: nat): nat
  {
    if v.Consumed() > 0 && v.index == x then 1 else 0
  }

  lemma SentHeld(order: Order, st: State, v: View, x: nat)
    requires st.Valid() && StreamKey(v) in st.streams && HalfKey(v, v.source) in st.halves
    ensures Sent(order, st, v).Valid() && Held(Sent(order, st, v), x) == Held(st, x) + Uses(v, x)
  {
    var key, half := StreamKey(v), HalfKey(v, v.source);
    hide StreamKey, HalfKey, Held, State.Valid, Repeats;
    if v.Consumed() > 0 {
      var d, h := st.streams[key], st.halves[half];
      var h' := SentHalf(order, h, v);
      SetHalf(st, half, h', x);
      var mid := st.(halves := st.halves[half := h']);
      if Repeats(order, h, v) {
        SetStream(mid, key, d.(retransmissions := d.retransmissions + [v.index]), x);
        CountAppend(d.retransmissions, [v.index], x);
        assert [v.index][1..] == [];
      } else {
        var p := Pending(v.EndSeq(), v.timestamp, v.index);
        PendingAppend(h.pending, [p], x);
        assert [p][1..] == [];
      }
    }
  }

  lemma PureAckHeld(st: State, v: View, x: nat)
    requires st.Valid() && StreamKey(v) in st.streams && HalfKey(v, v.source) in st.halves
    ensures PureAck(st, v).Valid() && Held(PureAck(st, v), x) == Held(st, x)
  {
    var key, half := StreamKey(v), HalfKey(v, v.source);
    hide StreamKey, HalfKey, Held, State.Valid;
    if v.ackFlag && v.Consumed() == 0 {
      var d, h := st.streams[key], st.halves[half];
      SetHalf(st, half, h.(lastPureAck := Some(v.ack)), x);
      var mid := st.(halves := st.halves[half := h.(lastPureAck := Some(v.ack))]);
      SetStream(mid, key, d.(duplicateAcks := d.duplicateAcks + [v.index]), x);
    }
  }

  /** Covered segments `x` dropped without a sample: the acknowledgement is stamped earlier than they are. */
  function Dropped(order: Order, pending: seq<Pending>, v: View, x: nat): nat
  {
    if pending == [] then 0
    else
      var s := pending[0];
      (if Lte(order, s.endSeq, v.ack) && v.timestamp < s.timestamp && s.index == x then 1 else 0)
      + Dropped(order, pending[1..], v, x)
  }

  lemma {:induction false} AckSplits(order: Order, pending: seq<Pending>, v: View, x: nat)
    ensures PendingCount(pending, x)
         == PendingCount(Remaining(order, pending, v), x) + SampleCount(Samples(order, pending, v), x)
           + Dropped(order, pending, v, x)
  {
    if pending != [] {
      hide Lte;
      AckSplits(order, pending[1..], v, x);
      var s := pending[0];
      PendingAppend(if Lte(order, s.endSeq, v.ack) then [] else [s], Remaining(order, pending[1..], v), x);
      var sample := RttSample(s.index, v.index, v.timestamp - s.timestamp);
      SamplesAppend(if Lte(order, s.endSeq, v.ack) && v.timestamp >= s.timestamp then [sample] else [],
                    Samples(order, pending[1..], v), x);
      assert [s][1..] == [] && [sample][1..] == [];
    }
  }

  /** How many pending copies of `x` acknowledgement `v`, arriving in state `st`, drops. */
  function DroppedBy(order: Order, st: State, v: View, x: nat): nat
  {
    var before := PureAck(Sent(order, Opened(st, v), v), v);
    if v.ackFlag then Dropped(order, before.halves[HalfKey(v, v.destination)].pending, v, x) else 0
  }

  lemma AckedHeld(order: Order, st: State, v: View, x: nat)
    requires st.Valid() && StreamKey(v) in st.streams && HalfKey(v, v.destination) in st.halves
    ensures var dropped := if v.ackFlag then Dropped(order, st.halves[HalfKey(v, v.destination)].pending, v, x) else 0;
            Acked(order, st, v).Valid() && Held(Acked(order, st, v), x) + dropped == Held(st, x)
  {
    var key, half := StreamKey(v), HalfKey(v, v.destination);
    hide StreamKey, HalfKey, Held, State.Valid;
    var d, h := st.streams[key], st.halves[half];
    if v.ackFlag && h.pending != [] {
      var rest, samples := Remaining(order, h.pending, v), Samples(order, h.pending, v);
      AckSplits(order, h.pending, v, x);
      SetHalf(st, half, h.(pending := rest), x);
      var mid := st.(halves := st.halves[half := h.(pending := rest)]);
      SamplesAppend(d.rttSamples, samples, x);
      SetStream(mid, key, d.(rttSamples := d.rttSamples + samples), x);
    }
  }

  lemma UpdateHeld(order: Order, st: State, v: View, x: nat)
    requires st.Valid()
    ensures Update(order, st, v).Valid()
    ensures Held(Update(order, st, v), x) + DroppedBy(order, st, v, x) == Held(st, x) + Uses(v, x)
  {
    hide StreamKey, HalfKey, Held, Sent, PureAck, Acked, Dropped, State.Valid;
    OpenedHeld(st, v, x);
    var o := Opened(st, v);
    hide Opened;
    SentHeld(order, o, v, x);
    PureAckHeld(Sent(order, o, v), v, x);
    AckedHeld(order, PureAck(Sent(order, o, v), v), v, x);
  }

  // ---- whole runs ----

  /** How many sequence-consuming frames of the run are `x`. */
  function Consuming(views: seq<View>, x: nat): nat
  {
    if views == [] then 0 else Consuming(views[..|views| - 1], x) + Uses(views[|views| - 1], x)
  }

  function DroppedIn(order: Order, views: seq<View>, x: nat): nat
  {
    if views == [] then 0
    else
      DroppedIn(order, views[..|views| - 1], x)
      + DroppedBy(order, Run(order, views[..|views| - 1]), views[|views| - 1], x)
  }

  /** Every consuming frame is held once for each time it occurred, except for what was dropped. */
  lemma {:induction false} RunHeld(order: Order, views: seq<View>, x: nat)
    ensures Run(order, views).Valid()
    ensures Held(Run(order, views), x) + DroppedIn(order, views, x) == Consuming(views, x)
    decreases |views|
  {
    if views != [] {
      hide Update, DroppedBy, Uses, Held, State.Valid;
      RunHeld(order, views[..|views| - 1], x);
      UpdateHeld(order, Run(order, views[..|views| - 1]), views[|views| - 1], x);
    }
  }

  predicate NonDecreasing(views: seq<View>)
  {
    forall i, j :: 0 <= i < j < |views| ==> views[i].timestamp <= views[j].timestamp
  }

  /** No pending segment is stamped later than `t`. */
  predicate PendingBefore(st: State, t: real)
  {
    forall k, i :: k in st.halves && 0 <= i < |st.halves[k].pending| ==> st.halves[k].pending[i].timestamp <= t
  }

  lemma {:induction false} RemainingSubset(order: Order, pending: seq<Pending>, v: View, t: real)
    requires forall i :: 0 <= i < |pending| ==> pending[i].timestamp <= t
    ensures forall i :: 0 <= i < |Remaining(order, pending, v)| ==> Remaining(order, pending, v)[i].timestamp <= t
  {
    if pending != [] { RemainingSubset(order, pending[1..], v, t); }
  }

  lemma {:induction false} NothingDropped(order: Order, pending: seq<Pending>, v: View, x: nat)
    requires forall i :: 0 <= i < |pending| ==> pending[i].timestamp <= v.timestamp
    ensures Dropped(order, pending, v, x) == 0
  {
    if pending != [] { NothingDropped(order, pending[1..], v, x); }
  }

  lemma UpdateInOrder(order: Order, st: State, v: View, x: nat)
    requires PendingBefore(st, v.timestamp)
    ensures PendingBefore(Update(order, st, v), v.timestamp) && DroppedBy(order, st, v, x) == 0
  {
    hide StreamKey, HalfKey, Lte, WithStream;
    var o := Opened(st, v);
    OpenedPending(st, v);
    hide Opened;
    var sent := Sent(order, o, v);
    SentPending(order, o, v);
    hide Sent;
    var pure := PureAck(sent, v);
    assert PendingBefore(pure, v.timestamp);
    hide PureAck;
    var h := pure.halves[HalfKey(v, v.destination)];
    RemainingSubset(order, h.pending, v, v.timestamp);
    NothingDropped(order, h.pending, v, x);
  }

  lemma OpenedPending(st: State, v: View)
    requires PendingBefore(st, v.timestamp)
    ensures PendingBefore(Opened(st, v), v.timestamp)
  {
    hide StreamKey, HalfKey;
  }

  lemma SentPending(order: Order, st: State, v: View)
    requires PendingBefore(st, v.timestamp) && StreamKey(v) in st.streams && HalfKey(v, v.source) in st.halves
    ensures PendingBefore(Sent(order, st, v), v.timestamp)
  {
    hide StreamKey, HalfKey, Lte;
  }

  lemma Later(st: State, t: real, u: real)
    requires PendingBefore(st, t) && t <= u
    ensures PendingBefore(st, u)
  {
  }

  lemma {:induction false} InOrderDropsNothing(order: Order, views: seq<View>, x: nat)
    requires NonDecreasing(views)
    ensures DroppedIn(order, views, x) == 0
    ensures views != [] ==> PendingBefore(Run(order, views), views[|views| - 1].timestamp)
    decreases |views|
  {
    if views != [] {
      var before, v := views[..|views| - 1], views[|views| - 1];
      InOrderDropsNothing(order, before, x);
      if before != [] { Later(Run(order, before), before[|before| - 1].timestamp, v.timestamp); }
      hide Update, DroppedBy;
      UpdateInOrder(order, Run(order, before), v, x);
    }
  }

  predicate DistinctIndices(views: seq<View>)
  {
    forall i, j :: 0 <= i < j < |views| ==> views[i].index != views[j].index
  }

  lemma {:induction false} ConsumingNone(views: seq<View>, x: nat)
    requires forall i :: 0 <= i < |views| ==> views[i].index != x
    ensures Consuming(views, x) == 0
    decreases |views|
  {
    if views != [] { ConsumingNone(views[..|views| - 1], x); }
  }

  lemma {:induction false} ConsumingOnce(views: seq<View>, i: nat)
    requires DistinctIndices(views) && i < |views|
    ensures Consuming(views, views[i].index) == if views[i].Consumed() > 0 then 1 else 0
    decreases |views|
  {
    var n := |views| - 1;
    if i == n { ConsumingNone(views[..n], views[n].index); } else { ConsumingOnce(views[..n], i); }
  }

  /**
   * With non-decreasing timestamps and distinct frame indices, every sequence-consuming frame is held
   * exactly once - as a retransmission, as a pending segment or as the segment of one RTT sample - and no
   * other frame is held at all.
   */
  lemma ExactlyOnce(order: Order, views: seq<View>)
    requires NonDecreasing(views) && DistinctIndices(views)
    ensures Run(order, views).Valid()
    ensures forall i :: 0 <= i < |views| ==>
      Held(Run(order, views), views[i].index) == if views[i].Consumed() > 0 then 1 else 0
    ensures forall x: nat :: (forall i :: 0 <= i < |views| ==> views[i].index != x) ==> Held(Run(order, views), x) == 0
  {
    RunHeld(order, views, 0);
    forall i | 0 <= i < |views|
      ensures Held(Run(order, views), views[i].index) == if views[i].Consumed() > 0 then 1 else 0
    {
      RunHeld(order, views, views[i].index);
      InOrderDropsNothing(order, views, views[i].index);
      ConsumingOnce(views, i);
    }
    forall x: nat | forall i :: 0 <= i < |views| ==> views[i].index != x ensures Held(Run(order, views), x) == 0 {
      RunHeld(order, views, x);
      InOrderDropsNothing(order, views, x);
      ConsumingNone(views, x);
    }
  }

  // ---- samples and acknowledgements, on any run ----

  predicate NonNegative(st: State)
  {
    forall k, i :: k in st.streams && 0 <= i < |st.streams[k].rttSamples| ==> st.streams[k].rttSamples[i].rtt >= 0.0
  }

  lemma {:induction false} SamplesNonNegative(order: Order, pending: seq<Pending>, v: View)
    ensures forall i :: 0 <= i < |Samples(order, pending, v)| ==> Samples(order, pending, v)[i].rtt >= 0.0
  {
    if pending != [] { SamplesNonNegative(order, pending[1..], v); }
  }

  lemma OpenedNonNegative(st: State, v: View)
    requires NonNegative(st)
    ensures NonNegative(Opened(st, v))
  {
    hide StreamKey, HalfKey;
  }

  lemma SentNonNegative(order: Order, st: State, v: View)
    requires NonNegative(st) && StreamKey(v) in st.streams && HalfKey(v, v.source) in st.halves
    ensures NonNegative(Sent(order, st, v))
  {
    hide StreamKey, HalfKey, SentHalf, Repeats;
    var key := StreamKey(v);
    assert forall k :: k in st.streams ==> Sent(order, st, v).streams[k].rttSamples == st.streams[k].rttSamples;
  }

  lemma PureAckNonNegative(st: State, v: View)
    requires NonNegative(st) && StreamKey(v) in st.streams && HalfKey(v, v.source) in st.halves
    ensures NonNegative(PureAck(st, v))
  {
    hide StreamKey, HalfKey;
    assert forall k :: k in st.streams ==> PureAck(st, v).streams[k].rttSamples == st.streams[k].rttSamples;
  }

  lemma UpdateNonNegative(order: Order, st: State, v: View)
    requires NonNegative(st)
    ensures NonNegative(Update(order, st, v))
  {
    var o := Opened(st, v);
    OpenedNonNegative(st, v);
    SentNonNegative(order, o, v);
    PureAckNonNegative(Sent(order, o, v), v);
    var pure := PureAck(Sent(order, o, v), v);
    hide StreamKey, HalfKey, Lte, Opened, Sent, PureAck;
    SamplesNonNegative(order, pure.halves[HalfKey(v, v.destination)].pending, v);
  }

  /** Every reported round-trip time is non-negative, whatever the order of the timestamps. */
  lemma {:induction false} RttNonNegative(order: Order, views: seq<View>)
    ensures NonNegative(Run(order, views))
    decreases |views|
  {
    if views != [] {
      hide Update;
      RttNonNegative(order, views[..|views| - 1]);
      UpdateNonNegative(order, Run(order, views[..|views| - 1]), views[|views| - 1]);
    }
  }

  lemma {:induction false} RemainingUncovered(order: Order, pending: seq<Pending>, v: View)
    ensures forall i :: 0 <= i < |Remaining(order, pending, v)| ==>
      !Lte(order, Remaining(order, pending, v)[i].endSeq, v.ack)
  {
    if pending != [] { RemainingUncovered(order, pending[1..], v); }
  }

  /** No segment of the opposite direction that an acknowledgement covers survives it. */
  lemma AckClears(order: Order, st: State, v: View)
    requires v.ackFlag
    ensures HalfKey(v, v.destination) in Update(order, st, v).halves
    ensures forall i :: 0 <= i < |Update(order, st, v).halves[HalfKey(v, v.destination)].pending| ==>
      !Lte(order, Update(order, st, v).halves[HalfKey(v, v.destination)].pending[i].endSeq, v.ack)
  {
    hide StreamKey, Lte;
    var pure := PureAck(Sent(order, Opened(st, v), v), v);
    hide Opened, Sent, PureAck, HalfKey;
    RemainingUncovered(order, pure.halves[HalfKey(v, v.destination)].pending, v);
  }
}
