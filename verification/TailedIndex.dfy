/** The rows a watch stores, frame by frame, are the rows of an index built in one go. */
module TailedIndex {
  import opened Bytes
  import opened ChunkInvariance
  import opened ColumnarStore
  import opened Conversation
  import opened FrameIndexer
  import opened ParserOffsets
  import opened PcapIndexBuilder
  import opened WatchPump
  import P = PcapParser

  /** Names seen early keep their place. */
  lemma {:induction false} NamesGrow(frames: seq<Captured>, k: nat)
    requires k <= |frames|
    ensures NamesSeen(frames[..k]) <= NamesSeen(frames)
    decreases |frames|
  {
    hide TopProtocol;
    var n := |frames| - 1;
    if k == |frames| {
      assert frames[..k] == frames;
    } else {
      NamesGrow(frames[..n], k);
      assert frames[..n][..k] == frames[..k];
    }
  }

  lemma NamesHave(frames: seq<Captured>)
    requires frames != []
    ensures TopProtocol(frames[|frames| - 1].layers) in NamesSeen(frames)
  {
    hide TopProtocol;
  }

  /** The row of a frame of the watch: its protocol id is the place of its name among those seen so far. */
  function WatchedRow(hash: string -> Hash32, decode: Decoder, before: seq<P.PacketInfo>, info: P.PacketInfo): Row
  {
    var c := CapturedOf(decode, info);
    RowOf(hash, c, Place(NamesSeen(Indexed(decode, before) + [c]), TopProtocol(c.layers)))
  }

  function WatchSetup(hash: string -> Hash32, decode: Decoder, maxFrames: Option<nat>): Setup
  {
    Setup((before, info) => WatchedRow(hash, decode, before, info), maxFrames)
  }

  /** A name's place among all names seen is its place among those seen up to its frame. */
  lemma PlaceSettled(frames: seq<Captured>, k: nat)
    requires k < |frames|
    ensures var name := TopProtocol(frames[k].layers);
      Place(NamesSeen(frames), name) == Place(NamesSeen(frames[..k + 1]), name)
  {
    hide TopProtocol, NamesSeen, Place;
    var early, names := NamesSeen(frames[..k + 1]), NamesSeen(frames);
    NamesHave(frames[..k + 1]);
    NamesGrow(frames, k + 1);
    assert names == early + names[|early|..];
    PlaceKept(early, names[|early|..], TopProtocol(frames[k].layers));
  }

  /** A row of a built index is the row the watch stores for the same frame. */
  lemma RowAsWatched(ix: FrameIndexer, decode: Decoder, infos: seq<P.PacketInfo>, k: nat)
    requires ix.Valid() && ix.frames == Indexed(decode, infos) && k < |infos|
    ensures ix.store.log[k] == Stored(WatchedRow(ix.hash, decode, infos[..k], infos[k]))
  {
    hide Stored, RowOf, TopProtocol, CapturedOf, NamesSeen, KeysSeen, Place;
    assert Indexed(decode, infos[..k]) + [CapturedOf(decode, infos[k])] == ix.frames[..k + 1];
    PlaceSettled(ix.frames, k);
    assert Tells(ix.hash, ix.protocolNames, ix.store.log[k], ix.frames[k]);
  }

  /**
   * When no block of the file is shorter than its fixed fields, the watch's store between drains is the store of an
   * index built over the octets consumed, however that build reads them, cut back to the last maxFrames rows.
   */
  lemma TailedStoreIsBatch(states: seq<Watch>, steps: seq<Step>, i: nat, chunks: seq<seq<byte>>,
                           ix: FrameIndexer, decode: Decoder, maxFrames: Option<nat>)
    requires Schedule(WatchSetup(ix.hash, decode, maxFrames), states, steps) && i < |states|
    requires Sized(P.FrameReader.Extend(states[i].file)) && Concat(chunks) == Consumed(states[i])
      && states[i].pending == []
    requires ix.Valid() && ix.frames == Indexed(decode, PacketsOf(P.Feed(P.FrameReader, chunks).events))
    ensures states[i].store
      == Window(ix.store.log, if maxFrames.Some? then Max(0, |ix.frames| - maxFrames.value) else 0)
  {
    hide Schedule, P.Feed, Stored, Sized, Indexed, WatchedRow, Tells, FrameIndexer.Dictionaries;
    var setup, w := WatchSetup(ix.hash, decode, maxFrames), states[i];
    TailingIsSafe(setup, states, steps, i);
    TailingEqualsBatch(setup, states, steps, i, chunks);
    forall k | 0 <= k < |w.pushed| ensures w.store.log[k] == ix.store.log[k] {
      RowAsWatched(ix, decode, w.pushed, k);
    }
  }

  /** Frames pushed so far are reports of the parser, in order. */
  lemma PushedReported(setup: Setup, states: seq<Watch>, steps: seq<Step>, i: nat, k: nat)
    requires Schedule(setup, states, steps) && i < |states| && k < |states[i].pushed|
    ensures var infos := PacketsOf(P.Feed(P.FrameReader, states[i].chunks).events);
      k < |infos| && states[i].pushed[k] == infos[k]
  {
    hide P.Feed, Kept, PacketsOf;
    AlwaysInv(setup, states, steps, i);
    var w := states[i];
    assert (w.pushed + w.pending[Drained(w)..])[k] == w.pushed[k];
  }

  /**
   * At every moment, the columns of each row a watch has stored select, in the file as it has grown, exactly the octets
   * that were decoded for that frame, and its time column is the frame's time, exact to the microsecond.
   */
  lemma TailedIsOnFile(states: seq<Watch>, steps: seq<Step>, i: nat, k: nat, hash: string -> Hash32, decode: Decoder,
                       maxFrames: Option<nat>)
    requires Schedule(WatchSetup(hash, decode, maxFrames), states, steps) && i < |states|
    requires k < |states[i].store.log|
    ensures var w, row := states[i], states[i].store.log[k];
      && |w.pushed| == |w.store.log|
      && 0 <= row.fileOffset && 0 <= row.capturedLength && row.fileOffset + row.capturedLength <= |w.file|
      && w.file[row.fileOffset..row.fileOffset + row.capturedLength] == w.pushed[k].packet
      && OnFile(decode, w.file, CapturedOf(decode, w.pushed[k]))
      && row.timestamp * 1000000.0 == (w.pushed[k].seconds * 1000000 + w.pushed[k].microseconds) as real
  {
    hide Schedule, P.Feed, Stored, WatchedRow, PacketsOf;
    var setup, w := WatchSetup(hash, decode, maxFrames), states[i];
    TailingIsSafe(setup, states, steps, i);
    PushedReported(setup, states, steps, i, k);
    ReportedFramesAreSlices(false, w.chunks);
    var info := w.pushed[k];
    assert Located(info, Consumed(w));
    RowPlaces(hash, decode, w.pushed[..k], info);
    SliceInPrefix(w.file, Min(w.position, |w.file|), info);
  }

  lemma RowPlaces(hash: string -> Hash32, decode: Decoder, before: seq<P.PacketInfo>, info: P.PacketInfo)
    requires 0 <= info.packetLength < 0x1_0000_0000
    ensures Stored(WatchedRow(hash, decode, before, info)).fileOffset == info.packetOffset
    ensures Stored(WatchedRow(hash, decode, before, info)).capturedLength == info.packetLength
    ensures Stored(WatchedRow(hash, decode, before, info)).timestamp * 1000000.0
         == (info.seconds * 1000000 + info.microseconds) as real
  {
    hide Place, NamesSeen, HashOf, TopProtocol, FlowOf, Direction;
  }

  lemma SliceInPrefix(file: seq<byte>, n: nat, info: P.PacketInfo)
    requires n <= |file| && Located(info, file[..n])
    ensures info.packetOffset + info.packetLength <= |file|
    ensures file[info.packetOffset..info.packetOffset + info.packetLength] == info.packet
  {
    var o, e := info.packetOffset, info.packetOffset + info.packetLength;
    assert file[..n][o..e] == file[o..e];
  }
}
