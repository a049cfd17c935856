/**
 * Frames handed out by the worker, decoded or rebuilt from the columns, the replay of a reducer, and the three
 * statistics.
 */
module FrameBatch {
  import opened AnalysisWorker
  import opened Bytes
  import opened BuiltinScans
  import opened ColumnarStore
  import opened Conversation
  import opened DisplayFilter
  import opened FrameIndexer
  import opened PcapIndexBuilder
  import opened Statistics

  /** A frame as sent to the session: its list row and its layers. */
  datatype Sent = Sent(topProtocol: string, conversationKey: Option<string>, frame: Frame)

  /** How a batch is asked for: which layers to keep, and whether to skip decoding. */
  datatype Mode = Mode(needs: Option<set<string>>, indexOnly: bool)

  const REPLAY_BATCH: nat := 512

  function Projected(layers: seq<Layer>, needs: Option<set<string>>): seq<Layer>
  {
    if needs.None? then layers
    else if layers == [] then []
    else (if layers[0].id in needs.value then [layers[0]] else []) + Projected(layers[1..], needs)
  }

  /** What is sent for a retained frame, in terms of its decoded layers. */
  function SentFor(frames: seq<Captured>, i: nat, mode: Mode): Sent
    requires i < |frames|
  {
    var layers := frames[i].layers;
    Sent(TopProtocol(layers), KeyOf(layers),
         if mode.indexOnly then SynthesizedFrame(frames, i)
         else DecodedFrame(frames, i).(layers := Projected(layers, mode.needs)))
  }

  /** What a batch over the numbers `[i, to)` sends: the frames retained among them. */
  function Batch(frames: seq<Captured>, base: nat, i: nat, to: nat, mode: Mode): seq<Sent>
    decreases to - i
  {
    if i >= to then []
    else (if base <= i < |frames| then [SentFor(frames, i, mode)] else []) + Batch(frames, base, i + 1, to, mode)
  }

  lemma {:induction false} BatchesJoin(frames: seq<Captured>, base: nat, i: nat, mid: nat, to: nat, mode: Mode)
    requires i <= mid <= to
    ensures Batch(frames, base, i, to, mode) == Batch(frames, base, i, mid, mode) + Batch(frames, base, mid, to, mode)
    decreases mid - i
  {
    hide SentFor;
    if i < mid {
      BatchesJoin(frames, base, i + 1, mid, to, mode);
      AppendAssociates(if base <= i < |frames| then [SentFor(frames, i, mode)] else [],
                       Batch(frames, base, i + 1, mid, mode), Batch(frames, base, mid, to, mode));
    }
  }

  // ---- the handlers ----

  method MaterializeFrame(ix: FrameIndexer, decode: Decoder, file: seq<byte>, index: nat, needs: Option<set<string>>)
    returns (r: Option<Sent>)
    requires ix.Valid()
    ensures r.Some? <==> ix.store.base <= index < |ix.frames|
    ensures r.Some? && Sound(ix, decode, file) ==> r == Some(SentFor(ix.frames, index, Mode(needs, false)))
  {
    hide Separated, AllOnFile, KeyOf, FlowOf, TopProtocol, KeysSeen, Direction, OnFile, Tells, Projected,
      SynthesizedFrame;
    var found := ix.store.Get(index);
    if found.None? { return None; }
    var record := found.value;
    if Sound(ix, decode, file) { ColumnsTell(ix, decode, file, index); }
    var layers := DecodeRecord(ix, decode, file, record);
    r := Some(Sent(ix.ProtocolName(record.row.protocolId), ix.ConversationKey(record.row.conversationHash),
                   Frame(record.index, record.row.timestamp, record.row.capturedLength, Projected(layers, needs))));
  }

  method SynthesizeFrame(ix: FrameIndexer, ghost decode: Decoder, ghost file: seq<byte>, index: nat)
    returns (r: Option<Sent>)
    requires ix.Valid()
    ensures r.Some? <==> ix.store.base <= index < |ix.frames|
    ensures r.Some? && Sound(ix, decode, file) ==> r == Some(SentFor(ix.frames, index, Mode(None, true)))
  {
    hide Separated, AllOnFile, KeyOf, FlowOf, TopProtocol, KeysSeen, Direction, OnFile, Tells, Projected,
      SynthesizeLayers;
    var found := ix.store.Get(index);
    if found.None? { return None; }
    var record := found.value;
    if Sound(ix, decode, file) { ColumnsTell(ix, decode, file, index); }
    var key := ix.ConversationKey(record.row.conversationHash);
    var layers := if key.Some? then SynthesizeLayers(key.value, record.row.directionForward) else [];
    r := Some(Sent(ix.ProtocolName(record.row.protocolId), key,
                   Frame(record.index, record.row.timestamp, record.row.capturedLength, layers)));
  }

  method GetFrameBatch(ix: FrameIndexer, decode: Decoder, file: seq<byte>, from: nat, to: nat, mode: Mode)
    returns (out: seq<Sent>)
    requires ix.Valid()
    ensures Sound(ix, decode, file) ==> out == Batch(ix.frames, ix.store.base, from, to, mode)
  {
    hide FrameIndexer.Valid, Sound, DecodedFrame, SynthesizedFrame, Projected;
    out := [];
    var index := from;
    ghost var all := Batch(ix.frames, ix.store.base, from, to, mode);
    while index < to
      invariant from <= index
      invariant Sound(ix, decode, file) ==> all == out + Batch(ix.frames, ix.store.base, index, to, mode)
    {
      var sent;
      if mode.indexOnly {
        sent := SynthesizeFrame(ix, decode, file, index);
      } else {
        sent := MaterializeFrame(ix, decode, file, index, mode.needs);
      }
      AppendAssociates(out, if sent.Some? then [sent.value] else [],
                       Batch(ix.frames, ix.store.base, index + 1, to, mode));
      if sent.Some? { out := out + [sent.value]; } else { AppendNil(out); }
      index := index + 1;
    }
    AppendNil(out);
  }

  // ---- replay into a reducer ----

  function SamplesOf(batch: seq<Sent>): (r: seq<Sample>)
    ensures |r| == |batch|
  {
    seq(|batch|, k requires 0 <= k < |batch| => SampleOf(batch[k].frame))
  }

  lemma SamplesAppend(a: seq<Sent>, b: seq<Sent>)
    ensures SamplesOf(a + b) == SamplesOf(a) + SamplesOf(b)
  {
    hide SampleOf;
  }

  method FeedConversations(reducer: ConversationsReducer, batch: seq<Sent>)
    requires reducer.Valid()
    modifies reducer
    ensures reducer.Valid() && reducer.samples == old(reducer.samples) + SamplesOf(batch)
  {
    hide ConversationsReducer.Valid, SampleOf;
    var k := 0;
    while k < |batch|
      invariant k <= |batch| && reducer.Valid()
      invariant reducer.samples == old(reducer.samples) + SamplesOf(batch)[..k]
    {
      reducer.Update(batch[k].frame);
      k := k + 1;
    }
  }

  method FeedEndpoints(reducer: EndpointsReducer, batch: seq<Sent>)
    requires reducer.Valid()
    modifies reducer
    ensures reducer.Valid() && reducer.samples == old(reducer.samples) + SamplesOf(batch)
  {
    hide EndpointsReducer.Valid, SampleOf;
    var k := 0;
    while k < |batch|
      invariant k <= |batch| && reducer.Valid()
      invariant reducer.samples == old(reducer.samples) + SamplesOf(batch)[..k]
    {
      reducer.Update(batch[k].frame);
      k := k + 1;
    }
  }

  /** Both reducers replay all frames so far, in batches. */
  method Replay(ix: FrameIndexer, decode: Decoder, file: seq<byte>, total: nat, mode: Mode,
                conversations: ConversationsReducer, endpoints: EndpointsReducer)
    requires ix.Valid()
    requires conversations.Valid() && endpoints.Valid()
      && {conversations as object, endpoints} !! {ix as object, ix.store} + ix.store.columns.Repr
    modifies conversations, endpoints
    ensures conversations.Valid() && endpoints.Valid() && ix.Valid()
    ensures Sound(ix, decode, file) ==>
      var samples := SamplesOf(Batch(ix.frames, ix.store.base, 0, total, mode));
      conversations.samples == old(conversations.samples) + samples
        && endpoints.samples == old(endpoints.samples) + samples
  {
    hide FrameIndexer.Valid, Sound, ConversationsReducer.Valid, EndpointsReducer.Valid, Batch, SamplesOf;
    NothingSent(ix.frames, ix.store.base, mode);
    AppendNil(conversations.samples);
    AppendNil(endpoints.samples);
    var from: nat := 0;
    ghost var sent: seq<Sent> := [];
    while from < total
      invariant from <= total && ix.Valid() && conversations.Valid() && endpoints.Valid()
      invariant Sound(ix, decode, file) ==> sent == Batch(ix.frames, ix.store.base, 0, from, mode)
      invariant conversations.samples == old(conversations.samples) + SamplesOf(sent)
      invariant endpoints.samples == old(endpoints.samples) + SamplesOf(sent)
    {
      var to := if from + REPLAY_BATCH < total then from + REPLAY_BATCH else total;
      var batch := GetFrameBatch(ix, decode, file, from, to, mode);
      FeedConversations(conversations, batch);
      FeedEndpoints(endpoints, batch);
      BatchesJoin(ix.frames, ix.store.base, 0, from, to, mode);
      SamplesAppend(sent, batch);
      AppendAssociates(old(conversations.samples), SamplesOf(sent), SamplesOf(batch));
      AppendAssociates(old(endpoints.samples), SamplesOf(sent), SamplesOf(batch));
      sent := sent + batch;
      from := to;
    }
  }

  lemma NothingSent(frames: seq<Captured>, base: nat, mode: Mode)
    ensures Batch(frames, base, 0, 0, mode) == [] && SamplesOf([]) == []
  {
  }

  // ---- projection and synthesis keep the flow ----

  /** A projection that keeps the five ids a flow is read from. */
  predicate KeepsFlows(needs: Option<set<string>>)
  {
    needs.Some? ==> {"eth", "ipv4", "ipv6", "tcp", "udp"} <= needs.value
  }

  lemma {:induction false} FindProjected(layers: seq<Layer>, needs: Option<set<string>>, test: string -> bool)
    requires needs.Some? ==> forall l :: l in layers && test(l.id) ==> l.id in needs.value
    ensures Find(Projected(layers, needs), test) == Find(layers, test)
    decreases |layers|
  {
    if layers != [] && needs.Some? {
      assert layers[0] in layers;
      FindProjected(layers[1..], needs, test);
      var rest := Projected(layers[1..], needs);
      assert ([layers[0]] + rest)[1..] == rest && [] + rest == rest;
    }
  }

  /** The layers a reducer needs give the flow all layers give. */
  lemma ProjectionKeepsFlow(layers: seq<Layer>, needs: Option<set<string>>)
    requires KeepsFlows(needs)
    ensures FlowOf(Projected(layers, needs)) == FlowOf(layers)
  {
    hide Projected, Find;
    FindProjected(layers, needs, IsIp);
    FindProjected(layers, needs, IsTransport);
    FindProjected(layers, needs, IsEth);
  }

  /** No address printed in the frame contains the separator of the keys. */
  predicate AllPlain(frames: seq<Captured>)
  {
    forall i :: 0 <= i < |frames| && FlowOf(frames[i].layers).Some? ==> Plain(FlowOf(frames[i].layers).value)
  }

  /** Decoded, projected or synthesized, a frame is the same sample. */
  lemma SameSample(frames: seq<Captured>, i: nat, mode: Mode)
    requires i < |frames| && AllPlain(frames) && KeepsFlows(mode.needs)
    ensures SampleOf(SentFor(frames, i, mode).frame) == SampleOf(DecodedFrame(frames, i))
  {
    hide FlowOf, CanonicalKey, SynthesizeLayers, Plain, Direction;
    var layers := frames[i].layers;
    ProjectionKeepsFlow(layers, mode.needs);
    if FlowOf(layers).Some? { FlowSurvives(layers); } else { NoLayers(); }
  }

  lemma NoLayers()
    ensures FlowOf([]) == None
  {
  }

  // ---- three-way agreement ----

  /** The samples of the retained frames, as decoded. */
  function RetainedSamples(frames: seq<Captured>, base: nat): seq<Sample>
  {
    seq(Max(0, |frames| - base), k requires 0 <= k < |frames| - base => SampleOf(DecodedFrame(frames, base + k)))
  }

  /**
   * A batch over everything from `i` on gives the reducers the decoded samples of the retained frames, in every mode.
   */
  lemma {:induction false} BatchSamples(frames: seq<Captured>, base: nat, i: nat, mode: Mode)
    requires AllPlain(frames) && KeepsFlows(mode.needs) && i <= |frames|
    ensures SamplesOf(Batch(frames, base, i, |frames|, mode)) == RetainedSamples(frames, Max(base, i))
    decreases |frames| - i
  {
    hide AllPlain, SampleOf, SentFor, DecodedFrame;
    if i < |frames| {
      BatchSamples(frames, base, i + 1, mode);
      if base <= i {
        SameSample(frames, i, mode);
        SamplesAppend([SentFor(frames, i, mode)], Batch(frames, base, i + 1, |frames|, mode));
      } else {
        AppendNil(Batch(frames, base, i + 1, |frames|, mode));
      }
    }
  }

  lemma RowAgrees(ix: FrameIndexer, decode: Decoder, file: seq<byte>, i: nat)
    requires ix.Valid() && Sound(ix, decode, file) && AllPlain(ix.frames)
    requires i < |ix.frames|
    ensures Agrees(ix.conversationKeys, FrameIndexRecord(i, ix.store.log[i]), SampleOf(DecodedFrame(ix.frames, i)))
  {
    hide FlowOf, TopProtocol, KeysSeen, Direction, OnFile, Tells, CanonicalKey, Plain;
    ColumnsTell(ix, decode, file, i);
  }

  lemma RowsAgree(ix: FrameIndexer, decode: Decoder, file: seq<byte>)
    requires ix.Valid() && Sound(ix, decode, file) && AllPlain(ix.frames)
    ensures AllAgree(ix.conversationKeys, Retained(ix.store.View()), RetainedSamples(ix.frames, ix.store.base))
  {
    hide Agrees, SampleOf, DecodedFrame, Tells, Sound, AllPlain, FrameIndexer.Dictionaries;
    forall k | 0 <= k < |ix.frames| - ix.store.base
      ensures Agrees(ix.conversationKeys, Retained(ix.store.View())[k], RetainedSamples(ix.frames, ix.store.base)[k])
    {
      RowAgrees(ix, decode, file, ix.store.base + k);
    }
  }

  lemma KeysUnderOwnHash(ix: FrameIndexer)
    requires ix.Valid()
    ensures OwnHash(ix.hash, ix.conversationKeys)
  {
    hide KeyOf, KeysSeen;
    KeysComeFrom(ix.hash, ix.frames);
    forall h | h in ix.conversationKeys ensures ix.hash(ix.conversationKeys[h]) == h {
      assert KeyedBy(ix.hash, ix.frames, h, ix.conversationKeys[h]);
    }
  }

  /**
   * Over the frames an index retains, the column scans and the reducers, fed decoded layers, projected layers or layers
   * rebuilt from the columns, give one conversation table and one endpoint table.
   */
  lemma StatisticsAgree(ix: FrameIndexer, decode: Decoder, file: seq<byte>, mode: Mode)
    requires ix.Valid() && Sound(ix, decode, file) && AllPlain(ix.frames)
    requires KeepsFlows(mode.needs)
    ensures var rows, samples :=
      Retained(ix.store.View()), SamplesOf(Batch(ix.frames, ix.store.base, 0, |ix.frames|, mode));
      && Summaries(Scanned(rows, ix.conversationKeys)) == Results(Conversations(samples))
      && Results(EndpointScanned(rows, ix.conversationKeys).endpoints) == Results(Endpoints(samples))
  {
    hide Retained, RetainedSamples, AllAgree, OwnHash, InStep, Batch, SamplesOf, FrameIndexer.Dictionaries, Tells,
      Sound, AllPlain,
      KeepsFlows, Scanned, Conversations, Summaries, Results, EndpointScanned, Endpoints, PairsInStep;
    var rows, keys := Retained(ix.store.View()), ix.conversationKeys;
    BatchSamples(ix.frames, ix.store.base, 0, mode);
    RowsAgree(ix, decode, file);
    KeysUnderOwnHash(ix);
    ScanInStep(ix.hash, keys, rows, RetainedSamples(ix.frames, ix.store.base));
    SameSummaries(ix.hash, keys, Scanned(rows, keys), Conversations(RetainedSamples(ix.frames, ix.store.base)));
    EndpointsAgree(keys, rows, RetainedSamples(ix.frames, ix.store.base));
  }

  // ---- what a batch holds ----

  /** A layer is kept exactly when its id is needed. */
  lemma {:induction false} ProjectedHas(layers: seq<Layer>, needs: set<string>, l: Layer)
    ensures l in Projected(layers, Some(needs)) <==> l in layers && l.id in needs
    decreases |layers|
  {
    if layers != [] {
      ProjectedHas(layers[1..], needs, l);
      assert layers == [layers[0]] + layers[1..];
    }
  }

  /** The layers kept stay in the order of the frame. */
  lemma {:induction false} ProjectedInOrder(layers: seq<Layer>, more: seq<Layer>, needs: set<string>)
    ensures Projected(layers + more, Some(needs)) == Projected(layers, Some(needs)) + Projected(more, Some(needs))
    decreases |layers|
  {
    if layers == [] {
      assert layers + more == more;
    } else {
      assert (layers + more)[1..] == layers[1..] + more;
      ProjectedInOrder(layers[1..], more, needs);
    }
  }

  /** The retained numbers of `[from, to)`, in order. */
  function Numbers(count: nat, base: nat, from: nat, to: nat): (r: seq<nat>)
    ensures forall k :: 0 <= k < |r| ==> r[k] < count
  {
    var first: nat, end := if from < base then base else from, if to < count then to else count;
    seq(if first < end then end - first else 0, k requires 0 <= k < end - first => first + k)
  }

  lemma NumbersStep(count: nat, base: nat, from: nat, end: nat)
    requires from < end
    ensures Numbers(count, base, from, end)
         == (if base <= from < count then [from] else []) + Numbers(count, base, from + 1, end)
  {
  }

  /** A batch holds the retained numbers of the range, each once and in order. */
  lemma {:induction false} BatchIs(frames: seq<Captured>, base: nat, from: nat, end: nat, mode: Mode)
    ensures var b, numbers := Batch(frames, base, from, end, mode), Numbers(|frames|, base, from, end);
      |b| == |numbers| && forall k :: 0 <= k < |b| ==> b[k] == SentFor(frames, numbers[k], mode)
    decreases end - from
  {
    hide SentFor, Numbers;
    if from < end {
      BatchIs(frames, base, from + 1, end, mode);
      NumbersStep(|frames|, base, from, end);
    } else {
      NoNumbers(|frames|, base, from, end);
    }
  }

  lemma NoNumbers(count: nat, base: nat, from: nat, end: nat)
    requires from >= end
    ensures Numbers(count, base, from, end) == []
  {
  }

  lemma NumberSent(frames: seq<Captured>, i: nat, mode: Mode)
    requires i < |frames|
    ensures SentFor(frames, i, mode).frame.index == i
  {
    hide Projected, TopProtocol, KeyOf, SynthesizeLayers, FlowOf, Direction;
  }
}
