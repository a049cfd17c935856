/**
 * Tailing a growing file: the single-flight pump as activations interleaved with timer ticks and file growth at every
 * await, against a batch build of the octets consumed.
 */
module WatchPump {
  import opened Bytes
  import opened ChunkInvariance
  import opened ColumnarStore
  import opened ParserOffsets
  import P = PcapParser

  const CHUNK: nat := 65536

  /** One activation of pumpWatch, by the await it is suspended in. */
  datatype Body =
    | Sizing(atCall: nat)                    // backend.size(), the file having `atCall` octets when asked
    | Reading(size: nat, length: nat)        // backend.read(position, length)
    | Draining(size: nat, drained: nat)      // drainWatch, `drained` of the pending frames indexed

  datatype Watch = Watch(
    file: seq<byte>, position: nat, parser: P.State, pending: seq<P.PacketInfo>, store: Window,
    pumping: bool, pumpAgain: bool, bodies: seq<Body>,
    chunks: seq<seq<byte>>, events: seq<P.Event>, pushed: seq<P.PacketInfo>, lastTick: nat, starved: bool)

  /** The row a frame gets once decoded, given the frames before it, and how many rows may be kept. */
  datatype Setup = Setup(row: (seq<P.PacketInfo>, P.PacketInfo) -> Row, maxFrames: Option<nat>)

  function Start(file: seq<byte>): Watch
  {
    Watch(file, 0, P.FrameReader, [], Window([], 0), false, false, [], [], [], [], 0, false)
  }

  datatype Step =
    | Grow(more: seq<byte>)
    | Tick
    | SizeReturns(b: nat, size: nat)
    | ReadReturns(b: nat, length: nat)
    | Decoded(b: nat)

  // ---- what one activation does between awaits ----

  function Put(w: Watch, b: nat, body: Body): Watch
    requires b < |w.bodies|
  {
    w.(bodies := w.bodies[b := body])
  }

  function Without(bodies: seq<Body>, b: nat): seq<Body>
    requires b < |bodies|
  {
    bodies[..b] + bodies[b + 1..]
  }

  /** `while (pumpAgain)`: another pass, or the end of the activation. */
  function EndPass(w: Watch, b: nat): Watch
    requires b < |w.bodies|
  {
    if w.pumpAgain then Put(w.(pumpAgain := false, starved := false), b, Sizing(|w.file|))
    else w.(pumping := false, bodies := Without(w.bodies, b))
  }

  /** `while (watchPosition < size)`. */
  function LoopHead(w: Watch, b: nat, size: nat): Watch
    requires b < |w.bodies|
  {
    if w.position < size then Put(w, b, Reading(size, Min(CHUNK, size - w.position))) else EndPass(w, b)
  }

  /** A call of pumpWatch: it only leaves a note when an activation is running. */
  function TickStep(w: Watch): Watch
  {
    var now := w.(lastTick := |w.file|);
    if w.pumping then now.(pumpAgain := true)
    else now.(pumping := true, pumpAgain := false, starved := false, bodies := w.bodies + [Sizing(|w.file|)])
  }

  /** The octets read are written to the parser; an exception there ends the activation without clearing `pumping`. */
  function ReadStep(w: Watch, b: nat, k: nat): Watch
    requires b < |w.bodies| && w.bodies[b].Reading? && w.position + k <= |w.file|
  {
    if k == 0 then EndPass(w.(starved := true), b)
    else
      var data := w.file[w.position..w.position + k];
      var r := P.Write(w.parser, data);
      var read := w.(position := w.position + k, parser := r.state, pending := w.pending + PacketsOf(r.events),
                     chunks := w.chunks + [data], events := w.events + r.events);
      if P.Thrown in r.events then read.(bodies := Without(w.bodies, b))
      else Put(read, b, Draining(w.bodies[b].size, 0))
  }

  /** A frame is indexed and pushed, and the store cut back to its limit. */
  function Pushed(setup: Setup, w: Watch, info: P.PacketInfo): Watch
    requires w.store.Ok()
  {
    var grown := After(w.store, Append(setup.row(w.pushed, info)));
    var count := |grown.log| - grown.first;
    var kept := if setup.maxFrames.Some? && count > setup.maxFrames.value
                then After(grown, Evict(count - setup.maxFrames.value)) else grown;
    w.(store := kept, pushed := w.pushed + [info])
  }

  function DrainStep(setup: Setup, w: Watch, b: nat): Watch
    requires b < |w.bodies| && w.bodies[b].Draining? && w.store.Ok()
  {
    var n := w.bodies[b].drained;
    if n < |w.pending| then Put(Pushed(setup, w, w.pending[n]), b, Draining(w.bodies[b].size, n + 1))
    else LoopHead(w.(pending := []), b, w.bodies[b].size)
  }

  /** Which steps may happen: the backend answers within the file as it has grown, reading no more than asked. */
  predicate Enabled(w: Watch, s: Step)
  {
    match s
    case Grow(_) => true
    case Tick => true
    case SizeReturns(b, size) => b < |w.bodies| && w.bodies[b].Sizing? && w.bodies[b].atCall <= size <= |w.file|
    case ReadReturns(b, k) => b < |w.bodies| && w.bodies[b].Reading? && k <= w.bodies[b].length
      && w.position + k <= |w.file|
    case Decoded(b) => b < |w.bodies| && w.bodies[b].Draining?
  }

  function Next(setup: Setup, w: Watch, s: Step): Watch
    requires Enabled(w, s) && w.store.Ok()
  {
    match s
    case Grow(more) => w.(file := w.file + more)
    case Tick => TickStep(w)
    case SizeReturns(b, size) => LoopHead(w, b, size)
    case ReadReturns(b, k) => ReadStep(w, b, k)
    case Decoded(b) => DrainStep(setup, w, b)
  }

  // ---- the invariant ----

  /** The activation died of an exception: `pumping` was never cleared. */
  predicate Stuck(w: Watch) { w.pumping && w.bodies == [] }

  /** Pending frames already pushed. */
  function Drained(w: Watch): nat
  {
    if |w.bodies| == 1 && w.bodies[0].Draining? then w.bodies[0].drained else 0
  }

  predicate SingleFlight(w: Watch)
  {
    |w.bodies| <= 1 && (!w.pumping ==> w.bodies == [] && !w.pumpAgain) && (Stuck(w) <==> P.Thrown in w.events)
  }

  /** The parser has been fed exactly the octets before the position. */
  predicate Fed(w: Watch)
  {
    && w.position <= |w.file| && Concat(w.chunks) == w.file[..w.position]
    && P.Feed(P.FrameReader, w.chunks) == P.Run(w.parser, w.events)
  }

  /** Every frame reported so far has been pushed or is pending, in order. */
  predicate Delivered(w: Watch)
  {
    && Drained(w) <= |w.pending| && w.pushed + w.pending[Drained(w)..] == PacketsOf(w.events)
    && (w.pending != [] ==> Stuck(w) || (|w.bodies| == 1 && w.bodies[0].Draining?))
  }

  /** A running pass saw the file as of the last tick, or another pass is owed. */
  predicate TickKept(w: Watch)
  {
    && w.lastTick <= |w.file|
    && (|w.bodies| == 1 ==>
          match w.bodies[0]
          case Sizing(atCall) => atCall <= |w.file| && (w.pumpAgain || w.lastTick <= atCall)
          case Reading(size, length) => 0 < length && w.position + length <= size <= |w.file|
            && (w.pumpAgain || w.lastTick <= size)
          case Draining(size, _) => size <= |w.file| && (w.pumpAgain || w.lastTick <= size))
    && (w.bodies == [] && !Stuck(w) ==> w.lastTick <= w.position || w.starved)
  }

  /** The store holds the rows of all frames pushed, the last maxFrames of them retained. */
  predicate Kept(setup: Setup, w: Watch)
  {
    && |w.store.log| == |w.pushed|
      && (forall k :: 0 <= k < |w.pushed| ==> w.store.log[k] == Stored(setup.row(w.pushed[..k], w.pushed[k])))
    && w.store.first == if setup.maxFrames.Some? then Max(0, |w.pushed| - setup.maxFrames.value) else 0
  }

  predicate Inv(setup: Setup, w: Watch)
  {
    SingleFlight(w) && Fed(w) && Delivered(w) && TickKept(w) && Kept(setup, w)
  }

  // ---- every step keeps it ----

  lemma GrowKeeps(setup: Setup, w: Watch, more: seq<byte>)
    requires Inv(setup, w)
    ensures Inv(setup, Next(setup, w, Grow(more)))
  {
    hide P.Feed;
    assert (w.file + more)[..w.position] == w.file[..w.position];
  }

  lemma TickKeeps(setup: Setup, w: Watch)
    requires Inv(setup, w)
    ensures Inv(setup, TickStep(w))
  {
    hide Fed, Kept;
    AppendNil(w.pending);
    SameFed(w, TickStep(w));
    SameKept(setup, w, TickStep(w));
  }

  /** The only activation, between reads, with everything reported so far pushed. */
  predicate Between(setup: Setup, w: Watch, b: nat)
  {
    && b == 0 && |w.bodies| == 1 && w.pumping && P.Thrown !in w.events && Fed(w) && Kept(setup, w)
    && w.pending == [] && w.pushed == PacketsOf(w.events) && w.lastTick <= |w.file|
  }

  lemma EndPassKeeps(setup: Setup, w: Watch, b: nat)
    requires Between(setup, w, b) && (w.pumpAgain || w.lastTick <= w.position || w.starved)
    ensures Inv(setup, EndPass(w, b))
  {
    hide Fed, Kept;
    AppendNil(w.pushed);
    assert w.bodies[..0] + w.bodies[1..] == [];
    var r := EndPass(w, b);
    assert Fed(r) && Kept(setup, r) by { SameFed(w, r); SameKept(setup, w, r); }
  }

  lemma SameFed(w: Watch, r: Watch)
    requires Fed(w) && r.position == w.position && r.file == w.file && r.chunks == w.chunks && r.parser == w.parser
      && r.events == w.events
    ensures Fed(r)
  {
    hide P.Feed;
  }

  lemma SameKept(setup: Setup, w: Watch, r: Watch)
    requires Kept(setup, w) && r.store == w.store && r.pushed == w.pushed
    ensures Kept(setup, r)
  {
  }

  lemma LoopHeadKeeps(setup: Setup, w: Watch, b: nat, size: nat)
    requires Between(setup, w, b) && size <= |w.file| && (w.pumpAgain || w.lastTick <= size)
    ensures Inv(setup, LoopHead(w, b, size))
  {
    hide Fed, Kept;
    if w.position < size {
      var r := LoopHead(w, b, size);
      AppendNil(w.pushed);
      SameFed(w, r);
      SameKept(setup, w, r);
    } else {
      EndPassKeeps(setup, w, b);
    }
  }

  lemma SizeKeeps(setup: Setup, w: Watch, b: nat, size: nat)
    requires Inv(setup, w) && Enabled(w, SizeReturns(b, size))
    ensures Inv(setup, LoopHead(w, b, size))
  {
    hide Fed, Kept;
    AppendNil(w.pushed);
    LoopHeadKeeps(setup, w, b, size);
  }

  lemma ReadKeeps(setup: Setup, w: Watch, b: nat, k: nat)
    requires Inv(setup, w) && Enabled(w, ReadReturns(b, k))
    ensures Inv(setup, ReadStep(w, b, k))
  {
    hide Kept, P.Feed, P.Write, PacketsOf;
    AppendNil(w.pushed);
    if k == 0 {
      var starved := w.(starved := true);
      SameKept(setup, w, starved);
      EndPassKeeps(setup, starved, b);
    } else {
      var data, r := w.file[w.position..w.position + k], ReadStep(w, b, k);
      var reported := P.Write(w.parser, data).events;
      P.FeedSnoc(P.FrameReader, w.chunks, data);
      assert w.file[..w.position] + data == w.file[..w.position + k];
      PacketsOfAppend(w.events, reported);
      AppendNil(PacketsOf(reported));
      SameKept(setup, w, r);
      assert w.bodies[..0] + w.bodies[1..] == [];
    }
  }

  lemma PushKeeps(setup: Setup, w: Watch, info: P.PacketInfo)
    requires Kept(setup, w) && w.store.Ok()
    ensures Kept(setup, Pushed(setup, w, info))
  {
    hide Stored;
    var more := w.pushed + [info];
    assert more[..|w.pushed|] == w.pushed;
    assert forall k :: 0 <= k < |w.pushed| ==> more[..k] == w.pushed[..k];
  }

  lemma DecodedKeeps(setup: Setup, w: Watch, b: nat)
    requires Inv(setup, w) && w.store.Ok() && Enabled(w, Decoded(b))
    ensures Inv(setup, DrainStep(setup, w, b))
  {
    hide Fed, Kept, Pushed;
    var n := w.bodies[b].drained;
    if n < |w.pending| {
      var pushed, r := Pushed(setup, w, w.pending[n]), DrainStep(setup, w, b);
      PushKeeps(setup, w, w.pending[n]);
      PushFrame(setup, w, w.pending[n]);
      SameFed(w, r);
      SameKept(setup, pushed, r);
      HeadOfRest(w.pending, n);
      AppendAssociates(w.pushed, [w.pending[n]], w.pending[n + 1..]);
    } else {
      assert w.pending[n..] == [];
      AppendNil(w.pushed);
      var done := w.(pending := []);
      SameFed(w, done);
      SameKept(setup, w, done);
      LoopHeadKeeps(setup, done, b, w.bodies[b].size);
    }
  }

  lemma HeadOfRest<T>(s: seq<T>, n: nat)
    requires n < |s|
    ensures s[n..] == [s[n]] + s[n + 1..]
  {
  }

  lemma PushFrame(setup: Setup, w: Watch, info: P.PacketInfo)
    requires w.store.Ok()
    ensures Pushed(setup, w, info) == w.(store := Pushed(setup, w, info).store, pushed := w.pushed + [info])
  {
  }

  lemma NextKeeps(setup: Setup, w: Watch, s: Step)
    requires Inv(setup, w) && w.store.Ok() && Enabled(w, s)
    ensures Inv(setup, Next(setup, w, s))
  {
    hide Inv, Enabled, TickStep, LoopHead, ReadStep, DrainStep;
    match s
    case Grow(more) => GrowKeeps(setup, w, more);
    case Tick => TickKeeps(setup, w);
    case SizeReturns(b, size) => SizeBody(w, b, size); SizeKeeps(setup, w, b, size);
    case ReadReturns(b, k) => ReadBody(w, b, k); ReadKeeps(setup, w, b, k);
    case Decoded(b) => DecodedKeeps(setup, w, b);
  }

  lemma SizeBody(w: Watch, b: nat, size: nat)
    requires Enabled(w, SizeReturns(b, size))
    ensures b < |w.bodies|
  {
  }

  lemma ReadBody(w: Watch, b: nat, k: nat)
    requires Enabled(w, ReadReturns(b, k))
    ensures b < |w.bodies| && w.bodies[b].Reading? && w.position + k <= |w.file|
  {
  }

  // ---- whole runs ----

  /** The octets read so far. */
  function Consumed(w: Watch): seq<byte> { w.file[..Min(w.position, |w.file|)] }

  /** A run from a fresh watch of some file, under any schedule of answers, ticks and growth. */
  ghost predicate Schedule(setup: Setup, states: seq<Watch>, steps: seq<Step>)
  {
    && |states| == |steps| + 1 && states[0] == Start(states[0].file)
    && forall k :: 0 <= k < |steps| ==>
         Enabled(states[k], steps[k]) && states[k].store.Ok() && states[k + 1] == Next(setup, states[k], steps[k])
  }

  lemma {:induction false} AlwaysInv(setup: Setup, states: seq<Watch>, steps: seq<Step>, i: nat)
    requires Schedule(setup, states, steps) && i < |states|
    ensures Inv(setup, states[i])
    decreases i
  {
    if i == 0 {
      StartInv(setup, states[0].file);
    } else {
      hide Inv, Next, Enabled;
      AlwaysInv(setup, states, steps, i - 1);
      NextKeeps(setup, states[i - 1], steps[i - 1]);
    }
  }

  lemma StartInv(setup: Setup, file: seq<byte>)
    ensures Inv(setup, Start(file))
  {
  }

  /** Any cut of a sized stream reports the frames of the stream written whole, without an exception. */
  lemma CutsReportTheSame(s: seq<byte>, chunks: seq<seq<byte>>)
    requires Sized(P.FrameReader.Extend(s)) && Concat(chunks) == s
    ensures P.Thrown !in P.Feed(P.FrameReader, chunks).events
    ensures PacketsOf(P.Feed(P.FrameReader, chunks).events) == PacketsOf(P.Write(P.FrameReader, s).events)
  {
    hide P.Drain, Sized;
    SizedNeverThrows(P.FrameReader.Extend(s));
    if chunks == [] {
      EmptyDrain();
    } else {
      AnyCut(P.FrameReader, chunks);
    }
  }

  lemma EmptyDrain()
    ensures P.Write(P.FrameReader, []).events == []
  {
    assert P.FrameReader.Extend([]).buffer == [];
  }

  // ---- passes ----

  /** Step `k` begins a pass: a tick finds the pump idle, or the running activation answers a note. */
  predicate PassBegins(states: seq<Watch>, k: nat)
    requires k + 1 < |states|
  {
    (!states[k].pumping && states[k + 1].pumping) || (states[k].pumpAgain && !states[k + 1].pumpAgain)
  }

  predicate EmptyRead(s: Step) { s.ReadReturns? && s.length == 0 }

  /** Since the last pass began, a read has come back empty. */
  predicate CameBackEmpty(states: seq<Watch>, steps: seq<Step>, i: nat)
    requires |states| == |steps| + 1 && i < |states|
  {
    exists k :: 0 <= k < i && EmptyRead(steps[k]) && forall m :: k <= m < i ==> !PassBegins(states, m)
  }

  /** One step's effect on the flag that the invariant carries. */
  lemma StarvedStep(setup: Setup, w: Watch, s: Step)
    requires Inv(setup, w) && w.store.Ok() && Enabled(w, s)
    ensures var r := Next(setup, w, s);
      var begins := (!w.pumping && r.pumping) || (w.pumpAgain && !r.pumpAgain);
      r.starved <==> !begins && (w.starved || EmptyRead(s))
  {
    hide Fed, Delivered, Kept, P.Write, P.Feed, PacketsOf, Pushed;
    if s.Decoded? && w.bodies[s.b].drained < |w.pending| { PushFrame(setup, w, w.pending[w.bodies[s.b].drained]); }
  }

  /** A watch is starved exactly when a read of its last pass came back empty. */
  lemma {:induction false} StarvedIff(setup: Setup, states: seq<Watch>, steps: seq<Step>, i: nat)
    requires Schedule(setup, states, steps) && i < |states|
    ensures states[i].starved <==> CameBackEmpty(states, steps, i)
    decreases i
  {
    hide Inv, Next, Enabled, EmptyRead, PassBegins;
    if i > 0 {
      StarvedIff(setup, states, steps, i - 1);
      AlwaysInv(setup, states, steps, i - 1);
      StarvedStep(setup, states[i - 1], steps[i - 1]);
      PassMeans(states, i - 1);
      if CameBackEmpty(states, steps, i - 1) && !PassBegins(states, i - 1) {
        var k :| 0 <= k < i - 1 && EmptyRead(steps[k]) && forall m :: k <= m < i - 1 ==> !PassBegins(states, m);
        assert forall m :: k <= m < i ==> !PassBegins(states, m);
      }
    }
  }

  lemma PassMeans(states: seq<Watch>, k: nat)
    requires k + 1 < |states|
    ensures PassBegins(states, k)
       <==> (!states[k].pumping && states[k + 1].pumping) || (states[k].pumpAgain && !states[k + 1].pumpAgain)
  {
  }

  /**
   * At every moment of every schedule at most one pump body runs; no tick is lost, since an idle pump has read as
   * far as the file went at the last tick unless a read of the last pass came back empty; the store holds exactly
   * the frames pushed, the last maxFrames retained; and between drains the frames pushed are the ones the parser
   * reports on the octets consumed, cut as they were read.
   */
  lemma TailingIsSafe(setup: Setup, states: seq<Watch>, steps: seq<Step>, i: nat)
    requires Schedule(setup, states, steps) && i < |states|
    ensures var w := states[i];
      && |w.bodies| <= 1
      && (w.bodies == [] && !w.pumping ==> w.lastTick <= w.position || CameBackEmpty(states, steps, i))
      && Kept(setup, w)
      && w.position <= |w.file| && Concat(w.chunks) == Consumed(w)
      && (w.pending == [] ==> w.pushed == PacketsOf(P.Feed(P.FrameReader, w.chunks).events))
  {
    hide P.Feed, Kept, CameBackEmpty;
    AlwaysInv(setup, states, steps, i);
    StarvedIff(setup, states, steps, i);
    AppendNil(states[i].pushed);
  }

  /** The size the last pass to be told one was told; 0 before any was. */
  function Told(steps: seq<Step>, i: nat): nat
    requires i <= |steps|
  {
    if i == 0 then 0 else if steps[i - 1].SizeReturns? then steps[i - 1].size else Told(steps, i - 1)
  }

  /** What an activation knows of that size, and an idle pump has made of it. */
  predicate Heeds(w: Watch, told: nat)
  {
    && (|w.bodies| == 1 ==>
          && !w.starved
          && match w.bodies[0]
             case Sizing(_) => true
             case Reading(size, _) => size == told && w.position < size
             case Draining(size, _) => size == told)
    && (w.bodies == [] && !Stuck(w) ==> (w.starved <==> w.position < told))
  }

  lemma HeedsStep(setup: Setup, w: Watch, s: Step, told: nat)
    requires Inv(setup, w) && w.store.Ok() && Enabled(w, s) && Heeds(w, told)
    ensures Heeds(Next(setup, w, s), if s.SizeReturns? then s.size else told)
  {
    hide Fed, Delivered, Kept, P.Write, P.Feed, PacketsOf, Pushed;
    if s.Decoded? && w.bodies[s.b].drained < |w.pending| { PushFrame(setup, w, w.pending[w.bodies[s.b].drained]); }
  }

  lemma {:induction false} AlwaysHeeds(setup: Setup, states: seq<Watch>, steps: seq<Step>, i: nat)
    requires Schedule(setup, states, steps) && i < |states|
    ensures Heeds(states[i], Told(steps, i))
    decreases i
  {
    hide Inv, Next, Enabled, Heeds;
    if i == 0 {
      StartHeeds(states[0].file);
    } else {
      AlwaysHeeds(setup, states, steps, i - 1);
      AlwaysInv(setup, states, steps, i - 1);
      HeedsStep(setup, states[i - 1], steps[i - 1], Told(steps, i - 1));
    }
  }

  lemma StartHeeds(file: seq<byte>)
    ensures Heeds(Start(file), 0)
  {
  }

  /** An idle pump has read as far as its last pass was told to exactly when no read of that pass came back empty. */
  lemma PassReadsIff(setup: Setup, states: seq<Watch>, steps: seq<Step>, i: nat)
    requires Schedule(setup, states, steps) && i < |states| && states[i].bodies == [] && !states[i].pumping
    ensures Told(steps, i) <= states[i].position <==> !CameBackEmpty(states, steps, i)
  {
    hide Schedule, CameBackEmpty, Told;
    AlwaysHeeds(setup, states, steps, i);
    StarvedIff(setup, states, steps, i);
  }

  /** Since the last pass began, a read has come back empty while octets announced by a tick were still unread. */
  predicate TickCameBackEmpty(states: seq<Watch>, steps: seq<Step>, i: nat)
    requires |states| == |steps| + 1 && i < |states|
  {
    exists k :: 0 <= k < i && EmptyRead(steps[k]) && states[k].position < states[k].lastTick
      && forall m :: k <= m < i ==> !PassBegins(states, m)
  }

  /** After an empty read, up to the next pass, the pump is idle where it was. */
  predicate Rests(before: Watch, w: Watch)
  {
    w.bodies == [] && !w.pumping && w.position == before.position && w.lastTick == before.lastTick
  }

  lemma EmptyReadRests(setup: Setup, w: Watch, s: Step)
    requires Inv(setup, w) && w.store.Ok() && Enabled(w, s) && EmptyRead(s)
    requires w.pumpAgain ==> Next(setup, w, s).pumpAgain
    ensures Rests(w, Next(setup, w, s))
  {
    hide Fed, Delivered, Kept, P.Write;
    assert w.bodies[..0] + w.bodies[1..] == [];
  }

  lemma {:induction false} RestsOn(setup: Setup, states: seq<Watch>, steps: seq<Step>, k: nat, i: nat)
    requires Schedule(setup, states, steps) && k < i < |states| && EmptyRead(steps[k])
    requires forall m :: k <= m < i ==> !PassBegins(states, m)
    ensures Rests(states[k], states[i])
    decreases i
  {
    hide Inv, ReadStep, LoopHead, DrainStep;
    if i == k + 1 {
      AlwaysInv(setup, states, steps, k);
      assert !PassBegins(states, k);
      EmptyReadRests(setup, states[k], steps[k]);
    } else {
      RestsOn(setup, states, steps, k, i - 1);
      assert !PassBegins(states, i - 1);
    }
  }

  /**
   * An idle pump has read as far as the file went at the last tick exactly when no read of the last pass came back
   * empty short of that. An empty read of octets that arrived after the tick loses nothing.
   */
  lemma TickKeptIff(setup: Setup, states: seq<Watch>, steps: seq<Step>, i: nat)
    requires Schedule(setup, states, steps) && i < |states| && states[i].bodies == [] && !states[i].pumping
    ensures states[i].lastTick <= states[i].position <==> !TickCameBackEmpty(states, steps, i)
  {
    hide Next, Enabled, Kept, PassBegins, EmptyRead;
    TailingIsSafe(setup, states, steps, i);
    forall k | 0 <= k < i && EmptyRead(steps[k]) && forall m :: k <= m < i ==> !PassBegins(states, m)
      ensures Rests(states[k], states[i])
    {
      RestsOn(setup, states, steps, k, i);
    }
  }

  /**
   * A file that only grows always has octets below the size just told, so reads of it do not come back empty. Then an
   * idle pump has read all there was at the last tick.
   */
  lemma AnsweredTicksAreKept(setup: Setup, states: seq<Watch>, steps: seq<Step>, i: nat)
    requires Schedule(setup, states, steps) && i < |states| && forall k :: 0 <= k < i ==> !EmptyRead(steps[k])
    ensures states[i].bodies == [] && !states[i].pumping ==> states[i].lastTick <= states[i].position
  {
    hide Schedule, Kept, PassBegins;
    TailingIsSafe(setup, states, steps, i);
  }

  /**
   * When no block of the file is shorter than its fixed fields, the watch never dies, and between drains the frames
   * pushed are those a batch build would index on the octets consumed, however that build reads them.
   */
  lemma TailingEqualsBatch(setup: Setup, states: seq<Watch>, steps: seq<Step>, i: nat, chunks: seq<seq<byte>>)
    requires Schedule(setup, states, steps) && i < |states| && Sized(P.FrameReader.Extend(states[i].file))
    requires Concat(chunks) == Consumed(states[i])
    ensures !Stuck(states[i])
    ensures states[i].pending == [] ==> states[i].pushed == PacketsOf(P.Feed(P.FrameReader, chunks).events)
  {
    hide P.Feed, Kept, Sized, P.Write;
    var w := states[i];
    AlwaysInv(setup, states, steps, i);
    TailingIsSafe(setup, states, steps, i);
    var s := w.file[..w.position];
    PrefixSized(w.file, w.position);
    CutsReportTheSame(s, chunks);
    CutsReportTheSame(s, w.chunks);
  }

  lemma PrefixSized(file: seq<byte>, n: nat)
    requires n <= |file| && Sized(P.FrameReader.Extend(file))
    ensures Sized(P.FrameReader.Extend(file[..n]))
  {
    hide Sized;
    var whole := P.FrameReader.Extend(file[..n]).Extend(file[n..]);
    assert whole.buffer == file by { assert [] + file[..n] + file[n..] == file; }
    assert whole == P.FrameReader.Extend(file) by { assert [] + file == file; }
    SizedPrefix(P.FrameReader.Extend(file[..n]), file[n..]);
  }

  /** A watch whose parser has thrown stays as it is for good: ticks only leave notes nobody reads. */
  lemma {:induction false} StuckForever(setup: Setup, states: seq<Watch>, steps: seq<Step>, i: nat, j: nat)
    requires Schedule(setup, states, steps) && i <= j < |states| && Stuck(states[i])
    ensures Stuck(states[j]) && states[j].position == states[i].position && states[j].pushed == states[i].pushed
    decreases j
  {
    if i < j { StuckForever(setup, states, steps, i, j - 1); }
  }

  lemma StuckIsThrown(setup: Setup, states: seq<Watch>, steps: seq<Step>, i: nat)
    requires Schedule(setup, states, steps) && i < |states|
    ensures Stuck(states[i]) <==> P.Thrown in P.Feed(P.FrameReader, states[i].chunks).events
  {
    hide P.Feed;
    AlwaysInv(setup, states, steps, i);
  }
}
