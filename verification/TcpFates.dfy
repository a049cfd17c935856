/** What becomes of every frame, read off the frame list alone: on any timestamps, and in either order of positions. */
module TcpFates {
  import opened Bytes
  import opened JsStrings
  import opened TcpConservation
  import opened TcpRefinement
  import opened TcpStream

  /** What one direction has sent, acknowledgements left aside. */
  function Water(order: Order, views: seq<View>, key: string): Half
  {
    if views == [] then NEW_HALF
    else
      var h, v := Water(order, views[..|views| - 1], key), views[|views| - 1];
      if Sends(v, key) then SentHalf(order, h, v) else h
  }

  function OwnKey(v: View): string { HalfKey(v, v.source) }

  function Segment(v: View): Pending { Pending(v.EndSeq(), v.timestamp, v.index) }

  /** Frame `i` uses sequence space that its direction has not used before. */
  predicate Fresh(order: Order, views: seq<View>, i: nat)
    requires i < |views|
  {
    views[i].Consumed() > 0 && !Repeats(order, Water(order, views[..i], OwnKey(views[i])), views[i])
  }

  /** Frame `j` acknowledges all of frame `i`, in the opposite direction. */
  predicate Covers(order: Order, views: seq<View>, i: nat, j: nat)
    requires i < |views| && j < |views|
  {
    views[j].ackFlag && HalfKey(views[j], views[j].destination) == OwnKey(views[i])
      && Lte(order, views[i].EndSeq(), views[j].ack)
  }

  /** Frame `i` is fresh and none of the frames before `n` covers it. */
  predicate Standing(order: Order, views: seq<View>, i: nat, n: nat)
    requires i < |views| && n <= |views|
  {
    Fresh(order, views, i) && forall j :: i <= j < n ==> !Covers(order, views, i, j)
  }

  /** Frame `j` is the first acknowledgement to cover the fresh frame `i`. */
  predicate FirstAck(order: Order, views: seq<View>, i: nat, j: nat)
    requires i <= j < |views|
  {
    Standing(order, views, i, j) && Covers(order, views, i, j)
  }

  /** The first acknowledgement to cover the frame is stamped earlier than it. */
  predicate Lost(order: Order, views: seq<View>, i: nat)
    requires i < |views|
  {
    exists j :: i <= j < |views| && FirstAck(order, views, i, j) && views[j].timestamp < views[i].timestamp
  }

  // ---- one update, on one direction ----

  /** The pending list the acknowledgement of `v` meets. */
  function Queued(order: Order, st: State, v: View, key: string): seq<Pending>
  {
    var h := HalfAt(st, key);
    if Sends(v, key) && !Repeats(order, h, v) then h.pending + [Segment(v)] else h.pending
  }

  predicate Acks(v: View, key: string) { v.ackFlag && HalfKey(v, v.destination) == key }

  lemma SentQueues(order: Order, o: State, v: View, key: string)
    requires StreamKey(v) in o.streams && HalfKey(v, v.source) in o.halves
    ensures HalfAt(Sent(order, o, v), key).pending == Queued(order, o, v, key)
    ensures HalfAt(PureAck(Sent(order, o, v), v), key).pending == Queued(order, o, v, key)
  {
    hide StreamKey, HalfKey, Lte;
  }

  lemma UpdatePending(order: Order, st: State, v: View, key: string)
    ensures HalfAt(Update(order, st, v), key).pending
         == if Acks(v, key) then Remaining(order, Queued(order, st, v, key), v) else Queued(order, st, v, key)
  {
    hide StreamKey, HalfKey, Opened, Sent, PureAck, Repeats, Remaining, Samples;
    var o := Opened(st, v);
    OpenedHalfAt(st, v, key);
    SentQueues(order, o, v, key);
    SentQueues(order, o, v, HalfKey(v, v.destination));
    RemainingNone(order, v);
  }

  lemma RemainingNone(order: Order, v: View)
    ensures Remaining(order, [], v) == [] && Samples(order, [], v) == []
  {
  }

  lemma DroppedFromQueue(order: Order, st: State, v: View, x: nat)
    ensures DroppedBy(order, st, v, x)
         == if v.ackFlag then Dropped(order, Queued(order, st, v, HalfKey(v, v.destination)), v, x) else 0
  {
    hide StreamKey, HalfKey, Opened, Sent, PureAck, Repeats, Dropped;
    OpenedHalfAt(st, v, HalfKey(v, v.destination));
    SentQueues(order, Opened(st, v), v, HalfKey(v, v.destination));
  }

  // ---- lists ----

  lemma {:induction false} RemainingHas(order: Order, pending: seq<Pending>, v: View, p: Pending)
    ensures p in Remaining(order, pending, v) <==> p in pending && !Lte(order, p.endSeq, v.ack)
    decreases |pending|
  {
    if pending != [] {
      RemainingHas(order, pending[1..], v, p);
      assert pending == [pending[0]] + pending[1..];
    }
  }

  /** A covered segment stamped later than the acknowledgement. */
  predicate Drops(order: Order, p: Pending, v: View, x: nat)
  {
    p.index == x && Lte(order, p.endSeq, v.ack) && v.timestamp < p.timestamp
  }

  lemma DropsFirst(order: Order, pending: seq<Pending>, v: View, x: nat)
    requires pending != []
    ensures Dropped(order, pending, v, x)
      == (if Drops(order, pending[0], v, x) then 1 else 0) + Dropped(order, pending[1..], v, x)
  {
    hide Lte;
  }

  lemma {:induction false} DroppedHas(order: Order, pending: seq<Pending>, v: View, x: nat)
    ensures Dropped(order, pending, v, x) > 0 <==> exists p :: p in pending && Drops(order, p, v, x)
    decreases |pending|
  {
    hide Drops;
    if pending != [] {
      var rest := pending[1..];
      DroppedHas(order, rest, v, x);
      assert pending == [pending[0]] + rest;
      assert forall p :: p in pending <==> p == pending[0] || p in rest;
      assert Dropped(order, pending, v, x)
        == (if Drops(order, pending[0], v, x) then 1 else 0) + Dropped(order, rest, v, x) by {
        DropsFirst(order, pending, v, x);
      }
    }
  }

  function SampleOf(p: Pending, v: View): RttSample { RttSample(p.index, v.index, v.timestamp - p.timestamp) }

  predicate Sampled(order: Order, p: Pending, v: View, s: RttSample)
  {
    Lte(order, p.endSeq, v.ack) && v.timestamp >= p.timestamp && s == SampleOf(p, v)
  }

  lemma SampledFirst(order: Order, pending: seq<Pending>, v: View, s: RttSample)
    requires pending != []
    ensures s in Samples(order, pending, v)
      <==> Sampled(order, pending[0], v, s) || s in Samples(order, pending[1..], v)
  {
    hide Lte;
  }

  lemma {:induction false} SamplesHave(order: Order, pending: seq<Pending>, v: View, s: RttSample)
    ensures s in Samples(order, pending, v) <==> exists p :: p in pending && Sampled(order, p, v, s)
    decreases |pending|
  {
    hide Sampled;
    if pending != [] {
      var rest := pending[1..];
      SamplesHave(order, rest, v, s);
      assert pending == [pending[0]] + rest;
      assert forall p :: p in pending <==> p == pending[0] || p in rest;
      SampledFirst(order, pending, v, s);
    }
  }

  // ---- pending lists are the standing frames ----

  /** `p` is the segment of one of the first `m` frames, standing before `n`, in direction `key`. */
  predicate StandsAs(order: Order, views: seq<View>, m: nat, n: nat, key: string, p: Pending)
    requires m <= |views| && n <= |views|
  {
    exists i :: 0 <= i < m && OwnKey(views[i]) == key && Standing(order, views, i, n) && p == Segment(views[i])
  }

  ghost predicate PendingTold(order: Order, views: seq<View>, n: nat, key: string)
    requires n <= |views|
  {
    && SameWater(HalfAt(Run(order, views[..n]), key), Water(order, views[..n], key))
    && forall p :: p in HalfAt(Run(order, views[..n]), key).pending <==> StandsAs(order, views, n, n, key, p)
  }

  lemma PrefixStep(order: Order, views: seq<View>, n: nat)
    requires n < |views|
    ensures Run(order, views[..n + 1]) == Update(order, Run(order, views[..n]), views[n])
    ensures forall key ::
      var h := Water(order, views[..n], key);
      Water(order, views[..n + 1], key) == if Sends(views[n], key) then SentHalf(order, h, views[n]) else h
  {
    assert views[..n + 1][..n] == views[..n];
  }

  lemma WaterDecides(order: Order, a: Half, b: Half, v: View)
    requires SameWater(a, b)
    ensures Repeats(order, a, v) == Repeats(order, b, v)
    ensures SameWater(SentHalf(order, a, v), SentHalf(order, b, v))
  {
  }

  /** What the acknowledgement of frame `n` meets: the frames standing before it, itself included when fresh. */
  lemma QueueTold(order: Order, views: seq<View>, n: nat, key: string, p: Pending)
    requires n < |views| && PendingTold(order, views, n, key)
    ensures p in Queued(order, Run(order, views[..n]), views[n], key) <==> StandsAs(order, views, n + 1, n, key, p)
  {
    hide Run, Water, HalfKey, Repeats, Covers;
    var v, h := views[n], HalfAt(Run(order, views[..n]), key);
    WaterDecides(order, h, Water(order, views[..n], key), v);
    if p in Queued(order, Run(order, views[..n]), v, key) {
      if p in h.pending {
        assert StandsAs(order, views, n, n, key, p);
      } else {
        assert Standing(order, views, n, n);
      }
    }
    if StandsAs(order, views, n + 1, n, key, p) {
      var i :| 0 <= i < n + 1 && OwnKey(views[i]) == key && Standing(order, views, i, n) && p == Segment(views[i]);
      if i < n { assert StandsAs(order, views, n, n, key, p); }
    }
  }

  lemma StandingNext(order: Order, views: seq<View>, i: nat, n: nat)
    requires i <= n < |views|
    ensures Standing(order, views, i, n + 1) <==> Standing(order, views, i, n) && !Covers(order, views, i, n)
  {
    hide Fresh, Covers;
  }

  lemma {:induction false} RunPending(order: Order, views: seq<View>, n: nat, key: string)
    requires n <= |views|
    ensures PendingTold(order, views, n, key)
  {
    hide Run, Water, HalfKey, Repeats, Standing, Queued, Update, SentHalf, Remaining, Lte;
    if n == 0 {
      NothingPending(order, key);
    } else {
      var v, before := views[n - 1], Run(order, views[..n - 1]);
      RunPending(order, views, n - 1, key);
      PrefixStep(order, views, n - 1);
      UpdateHighWater(order, before, v, key);
      WaterDecides(order, HalfAt(before, key), Water(order, views[..n - 1], key), v);
      UpdatePending(order, before, v, key);
      forall p ensures p in HalfAt(Run(order, views[..n]), key).pending <==> StandsAs(order, views, n, n, key, p) {
        QueueTold(order, views, n - 1, key, p);
        RemainingHas(order, Queued(order, before, v, key), v, p);
        StandsNext(order, views, n - 1, key, p);
      }
    }
  }

  lemma NothingPending(order: Order, key: string)
    ensures HalfAt(Run(order, []), key) == NEW_HALF && Water(order, [], key) == NEW_HALF
  {
  }

  lemma StandsNext(order: Order, views: seq<View>, n: nat, key: string, p: Pending)
    requires n < |views|
    ensures StandsAs(order, views, n + 1, n + 1, key, p)
       <==> StandsAs(order, views, n + 1, n, key, p) && !(Acks(views[n], key) && Lte(order, p.endSeq, views[n].ack))
  {
    hide Standing, HalfKey, Lte;
    forall i | 0 <= i <= n ensures Standing(order, views, i, n + 1)
      <==> Standing(order, views, i, n) && !Covers(order, views, i, n) {
      StandingNext(order, views, i, n);
    }
  }

  // ---- what is lost ----

  /** Some frame numbered `x` is standing before `n`, and frame `n` covers it too early. */
  predicate LosesAt(order: Order, views: seq<View>, n: nat, x: nat)
    requires n < |views|
  {
    exists i ::
      0 <= i <= n && views[i].index == x && FirstAck(order, views, i, n) && views[n].timestamp < views[i].timestamp
  }

  lemma DropsIff(order: Order, views: seq<View>, n: nat, x: nat)
    requires n < |views|
    ensures DroppedBy(order, Run(order, views[..n]), views[n], x) > 0 <==> LosesAt(order, views, n, x)
  {
    hide Run, DroppedBy, Dropped, Queued, Standing, HalfKey, Lte, PendingTold;
    var v, key, st := views[n], HalfKey(views[n], views[n].destination), Run(order, views[..n]);
    DroppedFromQueue(order, st, v, x);
    RunPending(order, views, n, key);
    var queue := Queued(order, st, v, key);
    DroppedHas(order, queue, v, x);
    if p :| p in queue && Drops(order, p, v, x) && v.ackFlag {
      QueueTold(order, views, n, key, p);
      var i :| 0 <= i < n + 1 && OwnKey(views[i]) == key && Standing(order, views, i, n) && p == Segment(views[i]);
      assert FirstAck(order, views, i, n);
    }
    if i :| 0 <= i <= n && views[i].index == x && FirstAck(order, views, i, n) && v.timestamp < views[i].timestamp {
      QueueTold(order, views, n, key, Segment(views[i]));
      assert Drops(order, Segment(views[i]), v, x);
    }
  }

  lemma {:induction false} DroppedSomewhere(order: Order, views: seq<View>, n: nat, x: nat)
    requires n <= |views|
    ensures DroppedIn(order, views[..n], x) > 0 <==> exists j :: 0 <= j < n && LosesAt(order, views, j, x)
  {
    hide LosesAt, DroppedBy, Run;
    if n > 0 {
      DroppedSomewhere(order, views, n - 1, x);
      assert views[..n][..n - 1] == views[..n - 1];
      DropsIff(order, views, n - 1, x);
    }
  }

  /** With distinct indices, a frame is dropped exactly when the frame list says it is lost. */
  lemma LosesIffLost(order: Order, views: seq<View>, i: nat)
    requires DistinctIndices(views) && i < |views|
    ensures (exists j :: 0 <= j < |views| && LosesAt(order, views, j, views[i].index)) <==> Lost(order, views, i)
  {
    hide FirstAck;
    if j :| 0 <= j < |views| && LosesAt(order, views, j, views[i].index) {
      var k :| 0 <= k <= j && views[k].index == views[i].index && FirstAck(order, views, k, j)
        && views[j].timestamp < views[k].timestamp;
      assert k == i;
    }
    if Lost(order, views, i) {
      var j :| i <= j < |views| && FirstAck(order, views, i, j) && views[j].timestamp < views[i].timestamp;
      assert LosesAt(order, views, j, views[i].index);
    }
  }

  /**
   * On any timestamps, a sequence-consuming frame is held exactly once - as a retransmission, as a pending segment or
   * as the segment of one RTT sample - unless it is fresh and the first acknowledgement to cover it is stamped earlier
   * than it; then it is held nowhere.
   */
  lemma ConservedIff(order: Order, views: seq<View>, i: nat)
    requires DistinctIndices(views) && i < |views|
    ensures Run(order, views).Valid()
    ensures Held(Run(order, views), views[i].index)
      == if views[i].Consumed() > 0 && !Lost(order, views, i) then 1 else 0
  {
    hide Run, Held, Lost, LosesAt, Consuming, DroppedIn, State.Valid;
    RunHeld(order, views, views[i].index);
    ConsumingOnce(views, i);
    assert views[..|views|] == views;
    DroppedSomewhere(order, views, |views|, views[i].index);
    LosesIffLost(order, views, i);
    LostConsumes(order, views, i);
  }

  lemma LostConsumes(order: Order, views: seq<View>, i: nat)
    requires i < |views|
    ensures Lost(order, views, i) ==> views[i].Consumed() > 0
  {
  }

  // ---- what is sampled ----

  function SamplesAt(st: State, key: string): seq<RttSample>
  {
    if key in st.streams then st.streams[key].rttSamples else []
  }

  lemma UpdateSamples(order: Order, st: State, v: View, key: string)
    ensures SamplesAt(Update(order, st, v), key) == SamplesAt(st, key)
      + if v.ackFlag && StreamKey(v) == key then
          Samples(order, Queued(order, st, v, HalfKey(v, v.destination)), v)
        else []
  {
    hide StreamKey, HalfKey, Opened, Sent, PureAck, Repeats, Remaining, Samples;
    var o := Opened(st, v);
    OpenedSamples(st, v, key);
    SentSamples(order, o, v, key);
    OpenedHalfAt(st, v, HalfKey(v, v.destination));
    SentQueues(order, o, v, HalfKey(v, v.destination));
    RemainingNone(order, v);
  }

  lemma OpenedSamples(st: State, v: View, key: string)
    ensures SamplesAt(Opened(st, v), key) == SamplesAt(st, key)
  {
    hide StreamKey, HalfKey;
  }

  lemma SentSamples(order: Order, o: State, v: View, key: string)
    requires StreamKey(v) in o.streams && HalfKey(v, v.source) in o.halves
    ensures SamplesAt(PureAck(Sent(order, o, v), v), key) == SamplesAt(o, key)
  {
    hide StreamKey, HalfKey, SentHalf, Repeats;
  }

  /** `s` is the sample of a fresh frame and the first acknowledgement to cover it, not stamped earlier, before `n`. */
  predicate SampleTold(order: Order, views: seq<View>, n: nat, key: string, s: RttSample)
    requires n <= |views|
  {
    exists i, j :: 0 <= i <= j < n && SampleFor(order, views, i, j, key, s)
  }

  predicate SampleFor(order: Order, views: seq<View>, i: nat, j: nat, key: string, s: RttSample)
    requires i <= j < |views|
  {
    && StreamKey(views[j]) == key && FirstAck(order, views, i, j) && views[i].timestamp <= views[j].timestamp
    && s == RttSample(views[i].index, views[j].index, views[j].timestamp - views[i].timestamp)
  }

  lemma NewSamples(order: Order, views: seq<View>, n: nat, key: string, s: RttSample)
    requires n < |views|
    ensures (s in Samples(order, Queued(order, Run(order, views[..n]), views[n],
                                        HalfKey(views[n], views[n].destination)), views[n])
             && views[n].ackFlag && StreamKey(views[n]) == key)
       <==> exists i :: 0 <= i <= n && SampleFor(order, views, i, n, key, s)
  {
    hide Run, Samples, Queued, Standing, HalfKey, StreamKey, Lte, PendingTold;
    var v, half := views[n], HalfKey(views[n], views[n].destination);
    var queue := Queued(order, Run(order, views[..n]), v, half);
    RunPending(order, views, n, half);
    SamplesHave(order, queue, v, s);
    if p :| p in queue && Sampled(order, p, v, s) && v.ackFlag && StreamKey(v) == key {
      QueueTold(order, views, n, half, p);
      var i :| 0 <= i < n + 1 && OwnKey(views[i]) == half && Standing(order, views, i, n) && p == Segment(views[i]);
      assert SampleFor(order, views, i, n, key, s);
    }
    if i :| 0 <= i <= n && SampleFor(order, views, i, n, key, s) {
      QueueTold(order, views, n, half, Segment(views[i]));
      assert Sampled(order, Segment(views[i]), v, s);
    }
  }

  /**
   * The RTT samples of a stream are exactly those of fresh frames and their first covering acknowledgements, when not
   * earlier.
   */
  lemma {:induction false} SamplesAreFirstAcks(order: Order, views: seq<View>, n: nat, key: string, s: RttSample)
    requires n <= |views|
    ensures s in SamplesAt(Run(order, views[..n]), key) <==> SampleTold(order, views, n, key, s)
  {
    hide SampleFor, Samples, Queued, HalfKey, StreamKey, Update;
    if n > 0 {
      SamplesAreFirstAcks(order, views, n - 1, key, s);
      hide Run;
      PrefixStep(order, views, n - 1);
      UpdateSamples(order, Run(order, views[..n - 1]), views[n - 1], key);
      NewSamples(order, views, n - 1, key, s);
    }
  }

  // ---- fresh frames of the ideal reducer ----

  /** On unbounded positions, fresh frames are those that end beyond all their direction sent, or its first SYN. */
  lemma FreshIff(views: seq<View>, i: nat)
    requires i < |views|
    ensures Fresh(Ideal, views, i)
       <==> views[i].Consumed() > 0 && !SomeSent(views[..i], OwnKey(views[i]), views[i].EndSeq(), views[i].syn)
  {
    hide Run, Water, HalfKey, SomeSent, Repeats;
    if views[i].Consumed() > 0 {
      var key := OwnKey(views[i]);
      RunPending(Ideal, views, i, key);
      WaterDecides(Ideal, HalfAt(Run(Ideal, views[..i]), key), Water(Ideal, views[..i], key), views[i]);
      RetransmissionIff(views[..i], views[i]);
    }
  }

  // ---- a lost frame ----

  /** One octet sent at time 10 and acknowledged at time 5 is nowhere to be found. */
  lemma EarlyAckLoses(order: Order) returns (views: seq<View>)
    ensures |views| == 2 && DistinctIndices(views) && views[0].Consumed() == 1
    ensures Run(order, views).Valid() && Held(Run(order, views), views[0].index) == 0
  {
    var data := View("a", "b", 0, 0, false, false, false, 1, 10.0, 1);
    var ack := View("b", "a", 0, 1, false, false, true, 0, 5.0, 2);
    views := [data, ack];
    assert HalfKey(ack, "a") == HalfKey(data, "a") by { assert Leq("a", "b") && !Leq("b", "a"); }
    assert views[..0] == [];
    assert Fresh(order, views, 0);
    assert !Covers(order, views, 0, 0);
    assert FirstAck(order, views, 0, 1);
    assert Lost(order, views, 0);
    ConservedIff(order, views, 0);
  }
}
