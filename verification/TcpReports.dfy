/**
 * The whole report of a stream, read off the frame list and the endpoints alone: which frames are duplicate
 * acknowledgements, retransmissions and RTT samples, in which order.
 */
module TcpReports {
  import opened Bytes
  import opened JsStrings
  import opened TcpFates
  import opened TcpRefinement
  import opened TcpStream

  // ---- directions and streams ----

  /** The endpoints do not contain the separator of the keys. */
  predicate Plain(v: View) { '|' !in v.source && '|' !in v.destination }

  predicate AllPlain(views: seq<View>) { forall i :: 0 <= i < |views| ==> Plain(views[i]) }

  predicate SameWay(a: View, b: View) { a.source == b.source && a.destination == b.destination }

  predicate Opposite(a: View, b: View) { a.source == b.destination && a.destination == b.source }

  predicate SameStream(a: View, b: View) { SameWay(a, b) || Opposite(a, b) }

  /** Two parts without a separator are told from their joint form. */
  lemma PartsTell(a: string, rest: string, b: string, more: string)
    requires '|' !in a && '|' !in b && a + "|" + rest == b + "|" + more
    ensures a == b && rest == more
  {
    BarBehind(a, rest, b, more);
    BarBehind(b, more, a, rest);
    var s := a + "|" + rest;
    assert a == s[..|a|] && b == s[..|b|] && rest == s[|a| + 1..] && more == s[|b| + 1..];
  }

  lemma BarBehind(a: string, rest: string, b: string, more: string)
    requires '|' !in a && '|' !in b && a + "|" + rest == b + "|" + more
    ensures |b| <= |a|
  {
    var s := b + "|" + more;
    assert (a + "|" + rest)[|a|] == '|';
    assert forall k :: 0 <= k < |b| ==> s[k] == b[k] && b[k] in b;
  }

  lemma StreamKeySpells(a: View, b: View)
    requires Plain(a) && Plain(b) && StreamKey(a) == StreamKey(b)
    ensures EndpointA(a) == EndpointA(b) && EndpointB(a) == EndpointB(b)
  {
    hide Leq, StreamKey, EndpointA, EndpointB;
    StreamKeyIs(a);
    StreamKeyIs(b);
    EndpointsPlain(a);
    EndpointsPlain(b);
    PartsTell(EndpointA(a), EndpointB(a), EndpointA(b), EndpointB(b));
  }

  lemma StreamKeyIs(v: View)
    ensures |StreamKey(v)| >= 4 && StreamKey(v)[4..] == EndpointA(v) + "|" + EndpointB(v)
  {
    hide Leq, EndpointA, EndpointB;
    assert StreamKey(v) == "tcp|" + (EndpointA(v) + "|" + EndpointB(v));
  }

  lemma StreamKeyTells(a: View, b: View)
    requires Plain(a) && Plain(b)
    ensures StreamKey(a) == StreamKey(b) <==> SameStream(a, b)
  {
    hide Leq;
    LeqTotal(a.source, a.destination);
    LeqTotal(b.source, b.destination);
    if StreamKey(a) == StreamKey(b) { StreamKeySpells(a, b); }
  }

  lemma HalfKeyIs(v: View, from: string)
    ensures |HalfKey(v, from)| >= 4
    ensures HalfKey(v, from)[4..] == EndpointA(v) + "|" + (EndpointB(v) + "|" + from)
  {
    hide Leq, EndpointA, EndpointB;
    assert HalfKey(v, from) == "tcp|" + (EndpointA(v) + "|" + (EndpointB(v) + "|" + from));
  }

  lemma EndpointsPlain(v: View)
    requires Plain(v)
    ensures '|' !in EndpointA(v) && '|' !in EndpointB(v)
  {
    hide Leq;
  }

  /** A direction's key spells the stream's endpoints, then the sender of the direction. */
  lemma HalfKeySpells(a: View, b: View, from: string, to: string)
    requires Plain(a) && Plain(b) && HalfKey(a, from) == HalfKey(b, to)
    ensures StreamKey(a) == StreamKey(b) && from == to
  {
    hide Leq, HalfKey, EndpointA, EndpointB;
    HalfKeyIs(a, from);
    HalfKeyIs(b, to);
    EndpointsPlain(a);
    EndpointsPlain(b);
    PartsTell(EndpointA(a), EndpointB(a) + "|" + from, EndpointA(b), EndpointB(b) + "|" + to);
    PartsTell(EndpointB(a), from, EndpointB(b), to);
  }

  lemma HalfKeyTells(a: View, b: View, from: string, to: string)
    requires Plain(a) && Plain(b)
    ensures HalfKey(a, from) == HalfKey(b, to) <==> SameStream(a, b) && from == to
  {
    StreamKeyTells(a, b);
    if HalfKey(a, from) == HalfKey(b, to) { HalfKeySpells(a, b, from, to); }
    hide StreamKey;
  }

  lemma KeysTell(a: View, b: View)
    requires Plain(a) && Plain(b)
    ensures StreamKey(a) == StreamKey(b) <==> SameStream(a, b)
    ensures OwnKey(a) == OwnKey(b) <==> SameWay(a, b)
    ensures HalfKey(b, b.destination) == OwnKey(a) <==> Opposite(a, b)
  {
    hide HalfKey, StreamKey;
    StreamKeyTells(a, b);
    HalfKeyTells(a, b, a.source, b.source);
    HalfKeyTells(b, a, b.destination, a.source);
  }

  // ---- what a frame is, on the list alone ----

  predicate UsesSpace(v: View) { v.segmentLength > 0 || v.syn || v.fin }

  /** The position behind the frame: a SYN and a FIN take one each. */
  function Past(v: View): int
  {
    v.seqNo + v.segmentLength + (if v.syn then 1 else 0) + (if v.fin then 1 else 0)
  }

  predicate BareAck(v: View) { v.ackFlag && !UsesSpace(v) }

  /** Frame `j` is the latest bare acknowledgement before frame `i` in its direction. */
  predicate LatestAck(views: seq<View>, i: nat, j: nat)
    requires j < i < |views|
  {
    && BareAck(views[j]) && SameWay(views[j], views[i])
    && forall k :: j < k < i ==> !(BareAck(views[k]) && SameWay(views[k], views[i]))
  }

  /** Frame `i` is a bare acknowledgement of the same number as the one before it in its direction. */
  predicate RepeatsAck(views: seq<View>, i: nat)
    requires i < |views|
  {
    BareAck(views[i]) && exists j :: 0 <= j < i && LatestAck(views, i, j) && views[j].ack == views[i].ack
  }

  /** Frame `i` uses space, but an earlier frame of its direction reached as far, or both are SYNs. */
  predicate Resent(views: seq<View>, i: nat)
    requires i < |views|
  {
    && UsesSpace(views[i])
    && exists j :: 0 <= j < i && UsesSpace(views[j]) && SameWay(views[j], views[i])
         && (Past(views[i]) <= Past(views[j]) || (views[i].syn && views[j].syn))
  }

  /** Frame `j` acknowledges all of frame `i`, coming the other way. */
  predicate Answers(views: seq<View>, i: nat, j: nat)
    requires i < |views| && j < |views|
  {
    views[j].ackFlag && Opposite(views[i], views[j]) && Past(views[i]) <= views[j].ack
  }

  /** Frame `j` is the first to acknowledge frame `i`, which was not resent, and is not stamped earlier. */
  predicate Times(views: seq<View>, i: nat, j: nat)
    requires i <= j < |views|
  {
    && UsesSpace(views[i]) && !Resent(views, i) && Answers(views, i, j)
    && (forall k :: i <= k < j ==> !Answers(views, i, k))
    && views[i].timestamp <= views[j].timestamp
  }

  // ---- the lists, in the order of the frames ----

  function DuplicateList(views: seq<View>, n: nat, w: View): seq<nat>
    requires n <= |views|
  {
    if n == 0 then []
    else
      DuplicateList(views, n - 1, w)
        + if SameStream(views[n - 1], w) && RepeatsAck(views, n - 1) then [views[n - 1].index] else []
  }

  function ResentList(views: seq<View>, n: nat, w: View): seq<nat>
    requires n <= |views|
  {
    if n == 0 then []
    else
      ResentList(views, n - 1, w)
        + if SameStream(views[n - 1], w) && Resent(views, n - 1) then [views[n - 1].index] else []
  }

  /** The samples that frame `j` completes, of frames before `m`. */
  function SamplesOf(views: seq<View>, m: nat, j: nat): seq<RttSample>
    requires m <= j + 1 <= |views|
  {
    if m == 0 then []
    else
      SamplesOf(views, m - 1, j)
        + if Times(views, m - 1, j) then
            [RttSample(views[m - 1].index, views[j].index, views[j].timestamp - views[m - 1].timestamp)]
          else []
  }

  function SampleList(views: seq<View>, n: nat, w: View): seq<RttSample>
    requires n <= |views|
  {
    if n == 0 then []
    else SampleList(views, n - 1, w) + if SameStream(views[n - 1], w) then SamplesOf(views, n, n - 1) else []
  }

  function PacketCount(views: seq<View>, n: nat, w: View): nat
    requires n <= |views|
  {
    if n == 0 then 0 else PacketCount(views, n - 1, w) + if SameStream(views[n - 1], w) then 1 else 0
  }

  predicate Seen(views: seq<View>, n: nat, w: View)
    requires n <= |views|
  {
    exists i :: 0 <= i < n && SameStream(views[i], w)
  }

  // ---- one update ----

  /** A stream's report, a new one naming the endpoints of `v`. */
  function ReportAt(st: State, v: View): Diagnostic
  {
    if StreamKey(v) in st.streams then st.streams[StreamKey(v)]
    else Diagnostic(StreamKey(v), EndpointA(v), EndpointB(v), 0, [], [], [])
  }

  /** What a frame adds to the report of its stream. */
  function Added(order: Order, st: State, v: View): Diagnostic
  {
    var d, h := ReportAt(st, v), HalfAt(st, OwnKey(v));
    d.(packets := d.packets + 1,
       retransmissions := d.retransmissions + if v.Consumed() > 0 && Repeats(order, h, v) then [v.index] else [],
       duplicateAcks := d.duplicateAcks
         + if v.ackFlag && v.Consumed() == 0 && h.lastPureAck == Some(v.ack) then [v.index] else [],
       rttSamples := d.rttSamples
         + if v.ackFlag then Samples(order, Queued(order, st, v, HalfKey(v, v.destination)), v) else [])
  }

  /** The first two parts of an update. */
  lemma SentReports(order: Order, o: State, v: View)
    requires StreamKey(v) in o.streams && HalfKey(v, v.source) in o.halves
    ensures var d, h := o.streams[StreamKey(v)], o.halves[HalfKey(v, v.source)];
      var r := PureAck(Sent(order, o, v), v);
      r.streamOrder == o.streamOrder && r.streams == o.streams[StreamKey(v) := d.(
        retransmissions := d.retransmissions + if v.Consumed() > 0 && Repeats(order, h, v) then [v.index] else [],
        duplicateAcks := d.duplicateAcks
          + if v.ackFlag && v.Consumed() == 0 && h.lastPureAck == Some(v.ack) then [v.index] else [])]
  {
    hide StreamKey, HalfKey, Repeats, SentHalf;
    var d := o.streams[StreamKey(v)];
    AppendNil(d.retransmissions);
    AppendNil(d.duplicateAcks);
  }

  lemma AckedReports(order: Order, st: State, v: View)
    requires StreamKey(v) in st.streams && HalfKey(v, v.destination) in st.halves
    ensures var d, h := st.streams[StreamKey(v)], st.halves[HalfKey(v, v.destination)];
      var r := Acked(order, st, v);
      r.streamOrder == st.streamOrder && r.streams == st.streams[StreamKey(v) := d.(
        rttSamples := d.rttSamples + if v.ackFlag then Samples(order, h.pending, v) else [])]
  {
    hide StreamKey, HalfKey, Samples, Remaining;
    AppendNil(st.streams[StreamKey(v)].rttSamples);
    RemainingNone(order, v);
  }

  lemma UpdateReports(order: Order, st: State, v: View)
    ensures Update(order, st, v).streams == st.streams[StreamKey(v) := Added(order, st, v)]
    ensures Update(order, st, v).streamOrder
         == st.streamOrder + if StreamKey(v) in st.streams then [] else [StreamKey(v)]
  {
    hide StreamKey, HalfKey, Opened, Sent, PureAck, Acked, Repeats, Remaining, Samples;
    var o := Opened(st, v);
    OpenedReports(st, v);
    OpenedHalfAt(st, v, OwnKey(v));
    OpenedHalfAt(st, v, HalfKey(v, v.destination));
    SentQueues(order, o, v, HalfKey(v, v.destination));
    SentReports(order, o, v);
    AckedReports(order, PureAck(Sent(order, o, v), v), v);
  }

  lemma OpenedReports(st: State, v: View)
    ensures var o, d := Opened(st, v), ReportAt(st, v);
      o.streams == st.streams[StreamKey(v) := d.(packets := d.packets + 1)]
      && o.streamOrder == st.streamOrder + if StreamKey(v) in st.streams then [] else [StreamKey(v)]
  {
    hide StreamKey, HalfKey;
  }

  lemma UpdateLastAck(order: Order, st: State, v: View, key: string)
    ensures HalfAt(Update(order, st, v), key).lastPureAck
         == if BareAck(v) && OwnKey(v) == key then Some(v.ack) else HalfAt(st, key).lastPureAck
  {
    hide StreamKey, HalfKey, Opened, Sent, PureAck, Remaining, Samples, BareAck;
    OpenedHalfAt(st, v, key);
    PureAckLast(order, Opened(st, v), v, key);
  }

  lemma PureAckLast(order: Order, o: State, v: View, key: string)
    requires StreamKey(v) in o.streams && HalfKey(v, v.source) in o.halves
    ensures HalfAt(PureAck(Sent(order, o, v), v), key).lastPureAck
         == if BareAck(v) && OwnKey(v) == key then Some(v.ack) else HalfAt(o, key).lastPureAck
  {
    hide StreamKey, HalfKey, Repeats;
  }

  // ---- duplicate acknowledgements ----

  /** The latest bare acknowledgement in the direction of `v`, among the first `n` frames, carried the number `x`. */
  predicate LastCarried(views: seq<View>, n: nat, v: View, x: int)
    requires n <= |views|
  {
    exists j :: 0 <= j < n && BareAck(views[j]) && SameWay(views[j], v) && views[j].ack == x
      && forall k :: j < k < n ==> !(BareAck(views[k]) && SameWay(views[k], v))
  }

  lemma LastCarriedNext(views: seq<View>, n: nat, v: View, x: int)
    requires n < |views|
    ensures LastCarried(views, n + 1, v, x)
       <==> if BareAck(views[n]) && SameWay(views[n], v) then views[n].ack == x else LastCarried(views, n, v, x)
  {
    hide BareAck, SameWay;
    if !(BareAck(views[n]) && SameWay(views[n], v)) && LastCarried(views, n, v, x) {
      var j :| 0 <= j < n && BareAck(views[j]) && SameWay(views[j], v) && views[j].ack == x
        && forall k :: j < k < n ==> !(BareAck(views[k]) && SameWay(views[k], v));
      assert forall k :: j < k < n + 1 ==> !(BareAck(views[k]) && SameWay(views[k], v));
    }
  }

  lemma {:induction false} LastAckTold(order: Order, views: seq<View>, n: nat, v: View, x: int)
    requires AllPlain(views) && Plain(v) && n <= |views|
    ensures HalfAt(Run(order, views[..n]), OwnKey(v)).lastPureAck == Some(x) <==> LastCarried(views, n, v, x)
  {
    hide Run, Update, OwnKey, SameWay, BareAck, StreamKey, HalfKey, Plain;
    if n == 0 {
      NothingPending(order, OwnKey(v));
    } else {
      var before := Run(order, views[..n - 1]);
      LastAckTold(order, views, n - 1, v, x);
      PrefixStep(order, views, n - 1);
      UpdateLastAck(order, before, views[n - 1], OwnKey(v));
      KeysTell(views[n - 1], v);
      LastCarriedNext(views, n - 1, v, x);
      hide LastCarried, HalfAt;
    }
  }

  lemma RepeatsAckIs(order: Order, views: seq<View>, i: nat)
    requires AllPlain(views) && i < |views|
    ensures var v, h := views[i], HalfAt(Run(order, views[..i]), OwnKey(views[i]));
      v.ackFlag && v.Consumed() == 0 && h.lastPureAck == Some(v.ack) <==> RepeatsAck(views, i)
  {
    hide Run, OwnKey, SameWay;
    LastAckTold(order, views, i, views[i], views[i].ack);
    if LastCarried(views, i, views[i], views[i].ack) {
      var j :| 0 <= j < i && BareAck(views[j]) && SameWay(views[j], views[i]) && views[j].ack == views[i].ack
        && forall k :: j < k < i ==> !(BareAck(views[k]) && SameWay(views[k], views[i]));
      assert LatestAck(views, i, j);
    }
  }

  // ---- pending lists and samples, in order ----

  /** The segments of the first `m` frames of a direction that stand before `n`. */
  function StandingList(order: Order, views: seq<View>, m: nat, n: nat, key: string): seq<Pending>
    requires m <= |views| && n <= |views|
  {
    if m == 0 then []
    else
      StandingList(order, views, m - 1, n, key)
        + if OwnKey(views[m - 1]) == key && Standing(order, views, m - 1, n) then [Segment(views[m - 1])] else []
  }

  lemma StandingListSnoc(order: Order, views: seq<View>, m: nat, n: nat, key: string)
    requires m < |views| && n <= |views|
    ensures StandingList(order, views, m + 1, n, key)
         == if OwnKey(views[m]) == key && Standing(order, views, m, n) then
              StandingList(order, views, m, n, key) + [Segment(views[m])]
            else StandingList(order, views, m, n, key)
  {
    hide Standing, OwnKey;
    AppendNil(StandingList(order, views, m, n, key));
  }

  lemma {:induction false} RemainingSnoc(order: Order, pending: seq<Pending>, p: Pending, v: View)
    ensures Remaining(order, pending + [p], v)
         == Remaining(order, pending, v) + if Lte(order, p.endSeq, v.ack) then [] else [p]
    decreases |pending|
  {
    hide Lte;
    if pending != [] {
      assert (pending + [p])[1..] == pending[1..] + [p];
      RemainingSnoc(order, pending[1..], p, v);
    }
  }

  lemma {:induction false} SamplesSnoc(order: Order, pending: seq<Pending>, p: Pending, v: View)
    ensures Samples(order, pending + [p], v)
         == Samples(order, pending, v)
          + if Lte(order, p.endSeq, v.ack) && v.timestamp >= p.timestamp then [SampleOf(p, v)] else []
    decreases |pending|
  {
    hide Lte;
    if pending != [] {
      assert (pending + [p])[1..] == pending[1..] + [p];
      SamplesSnoc(order, pending[1..], p, v);
    }
  }

  lemma StandingListNone(order: Order, views: seq<View>, n: nat, key: string)
    requires n <= |views|
    ensures StandingList(order, views, 0, n, key) == []
  {
  }

  /** A segment goes on standing unless frame `n` acknowledges it. */
  lemma StandsOn(order: Order, views: seq<View>, i: nat, n: nat)
    requires i <= n < |views|
    ensures Standing(order, views, i, n + 1)
       <==> Standing(order, views, i, n)
            && !(Acks(views[n], OwnKey(views[i])) && Lte(order, Segment(views[i]).endSeq, views[n].ack))
  {
    hide Standing, HalfKey, Lte;
    StandingNext(order, views, i, n);
  }

  /** What frame `n` leaves standing. */
  lemma {:induction false} StandingListNext(order: Order, views: seq<View>, m: nat, n: nat, key: string)
    requires m <= n + 1 <= |views|
    ensures StandingList(order, views, m, n + 1, key)
         == if Acks(views[n], key) then Remaining(order, StandingList(order, views, m, n, key), views[n])
            else StandingList(order, views, m, n, key)
    decreases m
  {
    hide Standing, OwnKey, Acks, Segment, Lte, Remaining, StandingList;
    if m == 0 {
      RemainingNone(order, views[n]);
      StandingListNone(order, views, n, key);
      StandingListNone(order, views, n + 1, key);
    } else {
      StandingListNext(order, views, m - 1, n, key);
      StandsOn(order, views, m - 1, n);
      StandingListSnoc(order, views, m - 1, n, key);
      StandingListSnoc(order, views, m - 1, n + 1, key);
      var before := StandingList(order, views, m - 1, n, key);
      RemainingSnoc(order, before, Segment(views[m - 1]), views[n]);
      AppendNil(Remaining(order, before, views[n]));
    }
  }

  lemma QueuedListed(order: Order, views: seq<View>, n: nat, key: string)
    requires n < |views| && HalfAt(Run(order, views[..n]), key).pending == StandingList(order, views, n, n, key)
    ensures Queued(order, Run(order, views[..n]), views[n], key) == StandingList(order, views, n + 1, n, key)
  {
    hide Run, Water, HalfKey, Repeats;
    RunPending(order, views, n, key);
    WaterDecides(order, HalfAt(Run(order, views[..n]), key), Water(order, views[..n], key), views[n]);
    AppendNil(StandingList(order, views, n, n, key));
  }

  lemma {:induction false} PendingListed(order: Order, views: seq<View>, n: nat, key: string)
    requires n <= |views|
    ensures HalfAt(Run(order, views[..n]), key).pending == StandingList(order, views, n, n, key)
    decreases n
  {
    hide Run, HalfKey, Queued, Update, Remaining, Standing;
    if n == 0 {
      NothingPending(order, key);
    } else {
      PendingListed(order, views, n - 1, key);
      PrefixStep(order, views, n - 1);
      UpdatePending(order, Run(order, views[..n - 1]), views[n - 1], key);
      QueuedListed(order, views, n - 1, key);
      StandingListNext(order, views, n, n - 1, key);
    }
  }

  // ---- the ideal reducer's reports ----

  lemma ResentIs(views: seq<View>, i: nat)
    requires AllPlain(views) && i < |views|
    ensures var v, h := views[i], HalfAt(Run(Ideal, views[..i]), OwnKey(views[i]));
      v.Consumed() > 0 && Repeats(Ideal, h, v) <==> Resent(views, i)
  {
    hide Run, HalfKey, Repeats, SameWay, SomeSent;
    if views[i].Consumed() > 0 {
      RetransmissionIff(views[..i], views[i]);
      forall j | 0 <= j < i ensures OwnKey(views[j]) == OwnKey(views[i]) <==> SameWay(views[j], views[i]) {
        KeysTell(views[j], views[i]);
      }
      SomeSentIs(views, i);
    }
  }

  lemma SomeSentIs(views: seq<View>, i: nat)
    requires i < |views| && views[i].Consumed() > 0
    requires forall j :: 0 <= j < i ==> (OwnKey(views[j]) == OwnKey(views[i]) <==> SameWay(views[j], views[i]))
    ensures SomeSent(views[..i], OwnKey(views[i]), views[i].EndSeq(), views[i].syn) <==> Resent(views, i)
  {
    hide HalfKey, SameWay;
    var key := OwnKey(views[i]);
    assert forall j :: 0 <= j < i ==> views[..i][j] == views[j];
    assert forall j :: 0 <= j < i ==> (Sends(views[j], key) <==> UsesSpace(views[j]) && SameWay(views[j], views[i]));
    assert forall j :: 0 <= j <= i ==> views[j].EndSeq() == Past(views[j]);
  }

  lemma FreshIs(views: seq<View>, i: nat)
    requires AllPlain(views) && i < |views|
    ensures Fresh(Ideal, views, i) <==> UsesSpace(views[i]) && !Resent(views, i)
  {
    hide Run, OwnKey, Water, Repeats, Resent;
    var key := OwnKey(views[i]);
    ResentIs(views, i);
    RunPending(Ideal, views, i, key);
    WaterDecides(Ideal, HalfAt(Run(Ideal, views[..i]), key), Water(Ideal, views[..i], key), views[i]);
    assert Resent(views, i) ==> UsesSpace(views[i]);
  }

  lemma CoversIs(views: seq<View>, i: nat, j: nat)
    requires AllPlain(views) && i < |views| && j < |views|
    ensures Covers(Ideal, views, i, j) <==> Answers(views, i, j)
  {
    hide HalfKey, OwnKey, Opposite;
    KeysTell(views[i], views[j]);
  }

  lemma FirstAckIs(views: seq<View>, i: nat, j: nat)
    requires AllPlain(views) && i <= j < |views|
    ensures FirstAck(Ideal, views, i, j) && views[i].timestamp <= views[j].timestamp <==> Times(views, i, j)
  {
    hide Fresh, Resent, Covers, Answers, UsesSpace;
    FreshIs(views, i);
    forall k | i <= k <= j ensures Covers(Ideal, views, i, k) <==> Answers(views, i, k) { CoversIs(views, i, k); }
  }

  lemma SamplesOfSnoc(views: seq<View>, m: nat, j: nat)
    requires m <= j < |views|
    ensures SamplesOf(views, m + 1, j)
         == SamplesOf(views, m, j) + if Times(views, m, j) then [SampleOf(Segment(views[m]), views[j])] else []
  {
    hide Times;
  }

  lemma {:induction false} SamplesListed(views: seq<View>, m: nat, j: nat)
    requires AllPlain(views) && m <= j + 1 <= |views|
    ensures var key := HalfKey(views[j], views[j].destination);
      (if views[j].ackFlag then Samples(Ideal, StandingList(Ideal, views, m, j, key), views[j]) else [])
        == SamplesOf(views, m, j)
    decreases m
  {
    hide HalfKey, OwnKey, StandingList, Samples, SamplesOf, SampleOf, Segment, Times, Standing, Lte, AllPlain;
    var v, key := views[j], HalfKey(views[j], views[j].destination);
    if m == 0 {
      RemainingNone(Ideal, v);
      StandingListNone(Ideal, views, j, key);
      SamplesOfNone(views, j);
    } else {
      SamplesListed(views, m - 1, j);
      SamplesOfSnoc(views, m - 1, j);
      StandingListSnoc(Ideal, views, m - 1, j, key);
      SamplesSnoc(Ideal, StandingList(Ideal, views, m - 1, j, key), Segment(views[m - 1]), v);
      SampledIs(views, m - 1, j);
      AppendNil(SamplesOf(views, m - 1, j));
    }
  }

  lemma SamplesOfNone(views: seq<View>, j: nat)
    requires j < |views|
    ensures SamplesOf(views, 0, j) == []
  {
  }

  /** Frame `i` waits in the list the acknowledgement meets and is sampled by it exactly when it is timed by it. */
  lemma SampledIs(views: seq<View>, i: nat, j: nat)
    requires AllPlain(views) && i <= j < |views|
    ensures
      && views[j].ackFlag && OwnKey(views[i]) == HalfKey(views[j], views[j].destination)
      && Standing(Ideal, views, i, j) && Lte(Ideal, Segment(views[i]).endSeq, views[j].ack)
      && views[j].timestamp >= Segment(views[i]).timestamp
      <==> Times(views, i, j)
  {
    hide HalfKey, Standing, Times, Lte;
    FirstAckIs(views, i, j);
  }

  // ---- whole reports ----

  /** The report of a stream is the one the frame list gives. */
  predicate ReportTold(d: Diagnostic, views: seq<View>, n: nat, w: View)
    requires n <= |views|
  {
    && d.packets == PacketCount(views, n, w) && d.duplicateAcks == DuplicateList(views, n, w)
    && d.retransmissions == ResentList(views, n, w) && d.rttSamples == SampleList(views, n, w)
    && Leq(d.endpointA, d.endpointB)
    && ((d.endpointA == w.source && d.endpointB == w.destination)
        || (d.endpointA == w.destination && d.endpointB == w.source))
  }

  lemma SameStreamReport(st: State, v: View, w: View)
    requires Plain(v) && Plain(w) && SameStream(v, w)
    ensures ReportAt(st, v) == ReportAt(st, w)
  {
    LeqTotal(v.source, v.destination);
    hide Leq;
  }

  /** A frame changes the report of its own stream only. */
  lemma ReportNext(order: Order, st: State, v: View, w: View)
    requires Plain(v) && Plain(w)
    ensures ReportAt(Update(order, st, v), w)
         == if SameStream(v, w) then Added(order, st, v) else ReportAt(st, w)
    ensures StreamKey(w) in Update(order, st, v).streams <==> StreamKey(w) in st.streams || SameStream(v, w)
  {
    hide StreamKey, HalfKey, SameStream, Update, Added;
    UpdateReports(order, st, v);
    KeysTell(v, w);
  }

  lemma EmptyRun(order: Order, w: View)
    ensures Run(order, []) == EMPTY && StreamKey(w) !in EMPTY.streams
  {
  }

  /** The duplicate acknowledgements of a stream, in either order of positions. */
  lemma {:induction false} DuplicatesTold(order: Order, views: seq<View>, n: nat, w: View)
    requires AllPlain(views) && Plain(w) && n <= |views|
    ensures ReportAt(Run(order, views[..n]), w).duplicateAcks == DuplicateList(views, n, w)
    decreases n
  {
    hide Run, Update, StreamKey, HalfKey, SameStream, RepeatsAck, Repeats, Plain, Queued, Samples;
    if n == 0 {
      EmptyRun(order, w);
    } else {
      var before, v := Run(order, views[..n - 1]), views[n - 1];
      DuplicatesTold(order, views, n - 1, w);
      PrefixStep(order, views, n - 1);
      ReportNext(order, before, v, w);
      RepeatsAckIs(order, views, n - 1);
      if SameStream(v, w) { SameStreamReport(before, v, w); }
      AppendNil(DuplicateList(views, n - 1, w));
    }
  }

  lemma SamplesTold(views: seq<View>, n: nat)
    requires AllPlain(views) && n < |views|
    ensures (if views[n].ackFlag then
               Samples(Ideal, Queued(Ideal, Run(Ideal, views[..n]), views[n], HalfKey(views[n], views[n].destination)),
                       views[n])
             else []) == SamplesOf(views, n + 1, n)
  {
    hide Run, HalfKey, Queued, Samples, SamplesOf, StandingList;
    var key := HalfKey(views[n], views[n].destination);
    PendingListed(Ideal, views, n, key);
    QueuedListed(Ideal, views, n, key);
    SamplesListed(views, n + 1, n);
  }

  /** What frame `n` adds to a report, as the frame list tells it. */
  function Extended(d: Diagnostic, views: seq<View>, n: nat): Diagnostic
    requires n < |views|
  {
    d.(packets := d.packets + 1,
       retransmissions := d.retransmissions + if Resent(views, n) then [views[n].index] else [],
       duplicateAcks := d.duplicateAcks + if RepeatsAck(views, n) then [views[n].index] else [],
       rttSamples := d.rttSamples + SamplesOf(views, n + 1, n))
  }

  lemma AddedTold(views: seq<View>, n: nat)
    requires AllPlain(views) && n < |views|
    ensures Added(Ideal, Run(Ideal, views[..n]), views[n])
         == Extended(ReportAt(Run(Ideal, views[..n]), views[n]), views, n)
  {
    hide Run, StreamKey, HalfKey, RepeatsAck, Resent, Repeats, Queued, Samples, SamplesOf;
    RepeatsAckIs(Ideal, views, n);
    ResentIs(views, n);
    SamplesTold(views, n);
  }

  lemma ReportToldNext(d: Diagnostic, views: seq<View>, n: nat, w: View)
    requires n < |views| && ReportTold(d, views, n, w)
    ensures ReportTold(if SameStream(views[n], w) then Extended(d, views, n) else d, views, n + 1, w)
  {
    hide SameStream, Resent, RepeatsAck, SamplesOf, Leq;
    AppendNil(d.retransmissions);
    AppendNil(d.duplicateAcks);
    AppendNil(d.rttSamples);
  }

  /**
   * The ideal reducer's report of every stream, read off the frames and their endpoints: the packets counted, and the
   * lists of duplicate acknowledgements, retransmissions and samples in the order of the frames.
   */
  lemma {:induction false} IdealReports(views: seq<View>, n: nat, w: View)
    requires AllPlain(views) && Plain(w) && n <= |views|
    ensures StreamKey(w) in Run(Ideal, views[..n]).streams <==> Seen(views, n, w)
    ensures ReportTold(ReportAt(Run(Ideal, views[..n]), w), views, n, w)
    decreases n
  {
    hide Run, Update, StreamKey, HalfKey, SameStream, ReportTold, ReportAt, Extended, Added, Plain, Seen;
    if n == 0 {
      NothingTold(views, w);
    } else {
      var before, v := Run(Ideal, views[..n - 1]), views[n - 1];
      IdealReports(views, n - 1, w);
      PrefixStep(Ideal, views, n - 1);
      ReportNext(Ideal, before, v, w);
      AddedTold(views, n - 1);
      if SameStream(v, w) { SameStreamReport(before, v, w); }
      ReportToldNext(ReportAt(before, w), views, n - 1, w);
      SeenNext(views, n - 1, w);
    }
  }

  lemma SeenNext(views: seq<View>, n: nat, w: View)
    requires n < |views|
    ensures Seen(views, n + 1, w) <==> Seen(views, n, w) || SameStream(views[n], w)
  {
    hide SameStream;
  }

  lemma NothingTold(views: seq<View>, w: View)
    ensures StreamKey(w) !in Run(Ideal, views[..0]).streams && !Seen(views, 0, w)
    ensures ReportTold(ReportAt(Run(Ideal, views[..0]), w), views, 0, w)
  {
    EmptyRun(Ideal, w);
    EndpointsOrdered(w);
    assert views[..0] == [];
  }

  lemma EndpointsOrdered(w: View)
    ensures Leq(EndpointA(w), EndpointB(w))
  {
    LeqTotal(w.source, w.destination);
  }

  /** The streams in the order of their first frames. */
  function FirstSeen(views: seq<View>, n: nat): seq<string>
    requires n <= |views|
  {
    if n == 0 then []
    else FirstSeen(views, n - 1) + if Seen(views, n - 1, views[n - 1]) then [] else [StreamKey(views[n - 1])]
  }

  lemma {:induction false} OrderTold(views: seq<View>, n: nat)
    requires AllPlain(views) && n <= |views|
    ensures Run(Ideal, views[..n]).streamOrder == FirstSeen(views, n)
    decreases n
  {
    hide Run, Update, StreamKey, ReportTold, Plain, Seen, Added;
    if n == 0 {
      assert Run(Ideal, views[..0]) == EMPTY by { EmptyRun(Ideal, View("", "", 0, 0, false, false, false, 0, 0.0, 0)); }
    } else {
      OrderTold(views, n - 1);
      PrefixStep(Ideal, views, n - 1);
      UpdateReports(Ideal, Run(Ideal, views[..n - 1]), views[n - 1]);
      IdealReports(views, n - 1, views[n - 1]);
    }
  }

  /** Hence, on close positions, what the program's reducer reports of every stream seen, and in which order. */
  lemma WrappedReports(views: seq<View>, w: View)
    requires AllPlain(views) && Plain(w) && CloseRun(views)
    ensures var r := Run(Serial, WrapAll(views));
      && r.streamOrder == FirstSeen(views, |views|)
      && (StreamKey(w) in r.streams <==> Seen(views, |views|, w))
      && ReportTold(ReportAt(r, w), views, |views|, w)
  {
    hide Run, ReportTold, CloseRun, Seen, FirstSeen, StreamKey;
    WrappedReportsAreIdeal(views);
    IdealReports(views, |views|, w);
    OrderTold(views, |views|);
    assert views[..|views|] == views;
  }
}
