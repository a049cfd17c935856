/** The worker over its index: what the columns of a frame give back, and column-first filtering. */
module AnalysisWorker {
  import opened Bytes
  import opened ColumnarStore
  import opened Conversation
  import opened DisplayFilter
  import opened FrameIndexer
  import opened ParserOffsets
  import opened PcapIndexBuilder
  import opened Statistics
  import P = PcapParser

  /** Every frame indexed can be fetched again from the file. */
  ghost predicate AllOnFile(decode: Decoder, file: seq<byte>, frames: seq<Captured>)
  {
    forall i :: 0 <= i < |frames| ==> OnFile(decode, file, frames[i]) && frames[i].capturedLength < 0x1_0000_0000
  }

  /** A batch build leaves every frame on file, and appending to the file keeps it so. */
  lemma BuiltIsOnFile(decode: Decoder, chunks: seq<seq<byte>>, later: seq<byte>)
    ensures AllOnFile(decode, Concat(chunks) + later, Indexed(decode, PacketsOf(P.Feed(P.FrameReader, chunks).events)))
  {
    hide P.Feed, OnFile, PacketsOf, Concat, Indexed, CapturedOf;
    var infos := PacketsOf(P.Feed(P.FrameReader, chunks).events);
    ReportedFramesAreSlices(false, chunks);
    forall i | 0 <= i < |infos|
      ensures OnFile(decode, Concat(chunks) + later, Indexed(decode, infos)[i])
        && Indexed(decode, infos)[i].capturedLength < 0x1_0000_0000
    {
      FetchIsStream(decode, chunks, later, i);
      IndexedAt(decode, infos, i);
    }
  }

  lemma IndexedAt(decode: Decoder, infos: seq<P.PacketInfo>, i: nat)
    requires i < |infos|
    ensures Indexed(decode, infos)[i].capturedLength == infos[i].packetLength
  {
  }

  /** The decoded frame of a retained number. */
  function DecodedFrame(frames: seq<Captured>, i: nat): Frame
    requires i < |frames|
  {
    Frame(i, frames[i].timestamp, frames[i].capturedLength, frames[i].layers)
  }

  /** The frame rebuilt from a frame's key and direction, without decoding. */
  function SynthesizedFrame(frames: seq<Captured>, i: nat): Frame
    requires i < |frames|
  {
    var key := KeyOf(frames[i].layers);
    var direction := Direction(FlowOf(frames[i].layers));
    DecodedFrame(frames, i).(layers := if key.Some? then SynthesizeLayers(key.value, direction) else [])
  }

  // ---- what the columns of one record give back ----

  lemma ColumnsTell(ix: FrameIndexer, decode: Decoder, file: seq<byte>, i: nat)
    requires ix.Valid() && Sound(ix, decode, file) && i < |ix.frames|
    ensures var row, c := ix.store.log[i], ix.frames[i];
      && Lookup(ix.conversationKeys, row.conversationHash) == KeyOf(c.layers)
      && ix.ProtocolName(row.protocolId) == TopProtocol(c.layers)
      && row.directionForward == Direction(FlowOf(c.layers)) && row.timestamp == c.timestamp
      && row.fileOffset == c.fileOffset && row.capturedLength == c.capturedLength
      && (0 <= c.originalLength < 0x1_0000_0000 ==> row.originalLength == c.originalLength)
  {
    hide KeyOf, FlowOf, TopProtocol, KeysSeen, Direction;
    DirectionFits(FlowOf(ix.frames[i].layers));
    KeysRecoveredIff(ix.hash, ix.frames);
    assert Recovered(ix.hash, ix.frames, i);
    assert Tells(ix.hash, ix.protocolNames, ix.store.log[i], ix.frames[i]);
    PlaceIs(ix.protocolNames, TopProtocol(ix.frames[i].layers));
  }

  lemma DirectionFits(f: Option<Flow>)
    ensures 0 <= Direction(f) < 0x100
  {
  }

  // ---- filter ----

  /** The retained numbers, from `i` on, of the frames whose decoded layers match: what decode-and-match returns. */
  function Matching(frames: seq<Captured>, expression: seq<Term>, i: nat): seq<nat>
    decreases |frames| - i
  {
    if i >= |frames| then []
    else (if MatchesFilter(frames[i].layers, expression) then [i] else []) + Matching(frames, expression, i + 1)
  }

  /** Every frame from `from` on is legible and regular. */
  predicate Exact(frames: seq<Captured>, from: nat)
  {
    forall i :: from <= i < |frames| ==> Legible(frames[i].layers) && Regular(frames[i].layers)
  }

  /**
   * The index can be trusted: the hash column tells the keys seen apart, the protocol column the names, and the file
   * still holds the frames.
   */
  ghost predicate Sound(ix: FrameIndexer, decode: Decoder, file: seq<byte>)
    reads ix
  {
    Separated(ix.hash, ix.frames) && |ix.protocolNames| <= 0x1_0000 && AllOnFile(decode, file, ix.frames)
  }

  /** `backend.read`: no more than the file holds. */
  function ReadAt(file: seq<byte>, offset: int, length: int): seq<byte>
  {
    var from := Max(0, Min(offset, |file|));
    file[from..Max(from, Min(offset + length, |file|))]
  }

  lemma ReadInside(file: seq<byte>, offset: int, length: int)
    requires 0 <= offset && 0 <= length && offset + length <= |file|
    ensures ReadAt(file, offset, length) == file[offset..offset + length]
  {
  }

  /** `backend.read` and `codec.decode` of a record. */
  method DecodeRecord(ix: FrameIndexer, decode: Decoder, file: seq<byte>, record: FrameIndexRecord)
    returns (layers: seq<Layer>)
    requires ix.Valid() && 0 <= record.index < |ix.frames| && record.row == ix.store.log[record.index]
    ensures Sound(ix, decode, file) ==> layers == ix.frames[record.index].layers
  {
    hide Tells, KeyOf, FlowOf, TopProtocol, KeysSeen, Direction, Separated, FrameIndexer.Dictionaries, ReadAt;
    layers := decode(ReadAt(file, record.row.fileOffset, record.row.capturedLength));
    if Sound(ix, decode, file) {
      ColumnsTell(ix, decode, file, record.index);
      assert OnFile(decode, file, ix.frames[record.index]);
      ReadInside(file, record.row.fileOffset, record.row.capturedLength);
    }
  }

  /** The index can be trusted, every frame retained is legible and regular, and the terms are in scope. */
  ghost predicate Trusted(ix: FrameIndexer, decode: Decoder, file: seq<byte>, expression: seq<Term>)
    reads ix, ix.store
  {
    Sound(ix, decode, file) && Exact(ix.frames, ix.store.base)
      && forall k :: 0 <= k < |expression| ==> InScope(expression[k])
  }

  /** What the columns of a record say of an expression. */
  ghost function ColumnVerdict(ix: FrameIndexer, expression: seq<Term>, row: Row): Option<bool>
    reads ix
  {
    IndexVerdict(expression, ix.ConversationKey(row.conversationHash), ix.ProtocolName(row.protocolId),
                 row.directionForward)
  }

  /** The verdict on one record, decoded only when the columns do not decide. */
  method RecordMatches(ix: FrameIndexer, decode: Decoder, file: seq<byte>, expression: seq<Term>, index: nat)
    returns (yes: bool, decoded: bool)
    requires ix.Valid() && ix.store.base <= index < |ix.frames|
    ensures decoded <==> ColumnVerdict(ix, expression, ix.store.log[index]).None?
    ensures !decoded ==> ColumnVerdict(ix, expression, ix.store.log[index]) == Some(yes)
    ensures Trusted(ix, decode, file, expression) ==> yes == MatchesFilter(ix.frames[index].layers, expression)
  {
    hide IndexVerdict, KeyOf, FlowOf, TopProtocol, Legible, Regular, MatchesFilter, Tells, KeysSeen, Direction, OnFile,
      Separated, AllOnFile;
    var found := ix.store.Get(index);
    var record := found.value;
    var decided := MatchesIndexed(expression, ix.ConversationKey(record.row.conversationHash),
                                  ix.ProtocolName(record.row.protocolId), record.row.directionForward);
    if Trusted(ix, decode, file, expression) {
      ColumnsTell(ix, decode, file, index);
      IndexedIsRight(ix.frames[index].layers, expression);
    }
    if decided.Some? { return decided.value, false; }
    var layers := DecodeRecord(ix, decode, file, record);
    yes, decoded := MatchesFilter(layers, expression), true;
  }

  /** The worker's filter request. */
  method Filter(ix: FrameIndexer, decode: Decoder, file: seq<byte>, expression: seq<Term>) returns (matches: seq<nat>)
    requires ix.Valid()
    ensures Trusted(ix, decode, file, expression) ==> matches == Matching(ix.frames, expression, ix.store.base)
  {
    hide MatchesFilter, Trusted, Tells, FrameIndexer.Dictionaries;
    matches := [];
    var index := ix.store.base;
    var count := ix.store.Count();
    var end := index + count;
    ghost var all := Matching(ix.frames, expression, index);
    while index < end
      invariant ix.store.base <= index <= end
      invariant Trusted(ix, decode, file, expression) ==> all == matches + Matching(ix.frames, expression, index)
    {
      var yes, decoded := RecordMatches(ix, decode, file, expression, index);
      AppendAssociates(matches, if yes then [index] else [], Matching(ix.frames, expression, index + 1));
      if yes { matches := matches + [index]; } else { AppendNil(matches); }
      index := index + 1;
    }
    AppendNil(matches);
  }
}
