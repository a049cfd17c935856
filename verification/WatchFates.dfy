/**
 * When a watch can die - exactly on files whose parse reaches a block shorter than its fixed fields - and lose a tick.
 */
module WatchFates {
  import opened Bytes
  import opened ChunkInvariance
  import opened SectionHandler
  import opened ThrowingCuts
  import opened WatchPump
  import P = PcapParser

  /** One more step of a schedule. */
  lemma Extended(setup: Setup, states: seq<Watch>, steps: seq<Step>, s: Step)
    requires Schedule(setup, states, steps) && Enabled(states[|steps|], s) && states[|steps|].store.Ok()
    ensures Schedule(setup, states + [Next(setup, states[|steps|], s)], steps + [s])
  {
    hide Next, Enabled;
    var more := states + [Next(setup, states[|steps|], s)];
    assert forall k :: 0 <= k < |states| ==> more[k] == states[k];
    assert forall k :: 0 <= k < |steps| ==> (steps + [s])[k] == steps[k];
  }

  function Rank(b: Body): nat
  {
    match b
    case Sizing(_) => 2
    case Draining(_, _) => 1
    case Reading(_, _) => 0
  }

  /** An activation under way in a pump nobody has left a note for and no read has starved. */
  predicate Running(w: Watch) { |w.bodies| == 1 && !w.pumpAgain && !w.starved }

  /** Where an activation that always gets all it asks for goes next. */
  function Answer(w: Watch): Step
    requires |w.bodies| == 1
  {
    match w.bodies[0]
    case Sizing(_) => SizeReturns(0, |w.file|)
    case Reading(_, length) => ReadReturns(0, length)
    case Draining(_, _) => Decoded(0)
  }

  function Left(w: Watch): nat { Max(0, |w.file| - w.position) }

  function Undrained(w: Watch): nat { Max(0, |w.pending| - Drained(w)) }

  /** Such an answer is possible, ends the activation or gets it on, and keeps file and tick. */
  lemma AnswerAdvances(setup: Setup, w: Watch)
    requires Inv(setup, w) && w.store.Ok() && Running(w)
    ensures Enabled(w, Answer(w))
    ensures var r := Next(setup, w, Answer(w));
      && r.file == w.file && r.lastTick == w.lastTick && !r.starved && !r.pumpAgain && |r.bodies| <= 1
      && (r.bodies != [] ==>
            || Left(r) < Left(w)
            || (Left(r) == Left(w) && Rank(r.bodies[0]) < Rank(w.bodies[0]))
            || (Left(r) == Left(w) && Rank(r.bodies[0]) == Rank(w.bodies[0]) && Undrained(r) < Undrained(w)))
  {
    hide P.Write, P.Feed, Kept, Pushed;
    if w.bodies[0].Draining?
      && w.bodies[0].drained < |w.pending| { PushFrame(setup, w, w.pending[w.bodies[0].drained]); }
  }

  /** With every request answered in full, an activation comes to its end. */
  lemma {:induction false} Finish(setup: Setup, states: seq<Watch>, steps: seq<Step>)
    returns (states': seq<Watch>, steps': seq<Step>)
    requires Schedule(setup, states, steps) && Running(states[|steps|])
    ensures Schedule(setup, states', steps')
    ensures var w, r := states[|steps|], states'[|steps'|];
      r.file == w.file && r.lastTick == w.lastTick && r.bodies == [] && !r.starved
    decreases Left(states[|steps|]), Rank(states[|steps|].bodies[0]), Undrained(states[|steps|])
  {
    hide Inv, Next, Enabled, Answer, Left, Undrained, Rank;
    var w := states[|steps|];
    AlwaysInv(setup, states, steps, |steps|);
    InvOk(setup, w);
    AnswerAdvances(setup, w);
    Extended(setup, states, steps, Answer(w));
    states', steps' := states + [Next(setup, w, Answer(w))], steps + [Answer(w)];
    if states'[|steps'|].bodies != [] {
      states', steps' := Finish(setup, states', steps');
    }
  }

  lemma InvOk(setup: Setup, w: Watch)
    requires Inv(setup, w)
    ensures w.store.Ok()
  {
  }

  /** A watch of the file, ticked once, with every request answered in full: it ends stuck or with all octets read. */
  lemma ReadAll(setup: Setup, file: seq<byte>) returns (states: seq<Watch>, steps: seq<Step>)
    ensures Schedule(setup, states, steps)
    ensures var w := states[|steps|];
      w.file == file && w.bodies == [] && (Stuck(w) || Concat(w.chunks) == file)
  {
    hide Inv, Fed, P.Feed;
    var w0 := Start(file);
    states, steps := [w0, TickStep(w0)], [Tick];
    states, steps := Finish(setup, states, steps);
    var w := states[|steps|];
    AlwaysInv(setup, states, steps, |steps|);
    AllRead(setup, w);
  }

  lemma AllRead(setup: Setup, w: Watch)
    requires Inv(setup, w) && w.bodies == [] && !w.starved && w.lastTick == |w.file|
    ensures Stuck(w) || Concat(w.chunks) == w.file
  {
    hide P.Feed, Kept;
    if !Stuck(w) { assert w.position == |w.file| && w.file[..w.position] == w.file; }
  }

  /** A file that becomes unsized can kill a watch: it is read as far as the block that throws, before it grows on. */
  lemma UnsizedKills(setup: Setup, file: seq<byte>) returns (states: seq<Watch>, steps: seq<Step>)
    requires !Sized(P.FrameReader.Extend(file))
    ensures Schedule(setup, states, steps) && states[|steps|].file == file && Stuck(states[|steps|])
  {
    hide Sized, P.Feed, Inv, Next, Enabled;
    var c := PartThrows(false, file);
    states, steps := ReadAll(setup, file[..c]);
    var w := states[|steps|];
    StuckIsThrown(setup, states, steps, |steps|);
    AlwaysInv(setup, states, steps, |steps|);
    InvOk(setup, w);
    GrowKeepsStuck(setup, w, file[c..]);
    Extended(setup, states, steps, Grow(file[c..]));
    assert file[..c] + file[c..] == file;
    states, steps := states + [Next(setup, w, Grow(file[c..]))], steps + [Grow(file[c..])];
  }

  lemma GrowKeepsStuck(setup: Setup, w: Watch, more: seq<byte>)
    requires w.store.Ok()
    ensures Enabled(w, Grow(more)) && Stuck(Next(setup, w, Grow(more))) == Stuck(w)
      && Next(setup, w, Grow(more)).file == w.file + more
  {
  }

  /** Some schedule kills a watch of this file. */
  ghost predicate CanDie(setup: Setup, file: seq<byte>)
  {
    exists states: seq<Watch>, steps: seq<Step>, i ::
      Schedule(setup, states, steps) && 0 <= i < |states| && states[i].file == file && Stuck(states[i])
  }

  /** A watch of a file can die exactly when the file's parse reaches a block shorter than its fixed fields. */
  lemma StuckIff(setup: Setup, file: seq<byte>)
    ensures CanDie(setup, file) <==> !Sized(P.FrameReader.Extend(file))
  {
    hide Sized, Stuck, Next, Enabled;
    if !Sized(P.FrameReader.Extend(file)) {
      var states, steps := UnsizedKills(setup, file);
      assert states[|steps|].file == file;
    }
    if CanDie(setup, file) {
      var states: seq<Watch>, steps: seq<Step>, i :|
        Schedule(setup, states, steps) && 0 <= i < |states| && states[i].file == file && Stuck(states[i]);
      SizedSurvives(setup, states, steps, i);
    }
  }

  lemma SizedSurvives(setup: Setup, states: seq<Watch>, steps: seq<Step>, i: nat)
    requires Schedule(setup, states, steps) && i < |states|
    ensures Sized(P.FrameReader.Extend(states[i].file)) ==> !Stuck(states[i])
  {
    hide P.Feed, Kept, Sized, P.Write, Stuck;
    var w := states[i];
    TailingIsSafe(setup, states, steps, i);
    if Sized(P.FrameReader.Extend(w.file)) { TailingEqualsBatch(setup, states, steps, i, w.chunks); }
  }

  /** Three answers kill a watch of a section header and an interface description block of 12 octets each. */
  lemma ShortInterfaceKills(setup: Setup) returns (states: seq<Watch>, steps: seq<Step>)
    ensures Schedule(setup, states, steps) && steps == [Tick, SizeReturns(0, 24), ReadReturns(0, 24)]
    ensures states[3].file == SHORT_INTERFACE && Stuck(states[3])
  {
    hide P.Write, P.Drain, TickStep, LoopHead, ReadStep;
    FirstAnswers(SHORT_INTERFACE);
    var w0 := Start(SHORT_INTERFACE);
    var w1 := TickStep(w0);
    var w2 := LoopHead(w1, 0, 24);
    states, steps := [w0, w1, w2, ReadStep(w2, 0, 24)], [Tick, SizeReturns(0, 24), ReadReturns(0, 24)];
    ThrowingRead(w2);
  }

  /** No schedule kills a watch of fewer octets; the section header block of 12 octets, say, which it reads past. */
  lemma ShorterNeverKills(setup: Setup, file: seq<byte>)
    requires |file| < |SHORT_INTERFACE|
    ensures !CanDie(setup, file)
  {
    hide Sized, CanDie;
    TinyIsRead(file);
    StuckIff(setup, file);
  }

  lemma FirstAnswers(file: seq<byte>)
    requires 0 < |file| <= CHUNK
    ensures TickStep(Start(file)) == Start(file).(pumping := true, lastTick := |file|, bodies := [Sizing(|file|)])
    ensures LoopHead(TickStep(Start(file)), 0, |file|)
         == Start(file).(pumping := true, lastTick := |file|, bodies := [Reading(|file|, |file|)])
  {
  }

  lemma ThrowingRead(w: Watch)
    requires w == Start(SHORT_INTERFACE).(pumping := true, lastTick := 24, bodies := [Reading(24, 24)])
    ensures ReadStep(w, 0, 24).file == SHORT_INTERFACE && Stuck(ReadStep(w, 0, 24))
  {
    hide P.Write, P.Drain;
    ShortInterfaceThrows();
    assert SHORT_INTERFACE[0..24] == SHORT_INTERFACE;
    WriteStarts(SHORT_INTERFACE);
  }

  /** One empty read is enough to lose a tick: the pump is idle and has read nothing of a file of one octet. */
  lemma EmptyReadLosesTick(setup: Setup) returns (states: seq<Watch>, steps: seq<Step>)
    ensures Schedule(setup, states, steps) && steps == [Tick, SizeReturns(0, 1), ReadReturns(0, 0)]
    ensures !states[3].pumping && states[3].position == 0 < states[3].lastTick
  {
    hide TickStep, LoopHead, ReadStep;
    FirstAnswers([7]);
    var w0 := Start([7]);
    var w1 := TickStep(w0);
    var w2 := LoopHead(w1, 0, 1);
    states, steps := [w0, w1, w2, ReadStep(w2, 0, 0)], [Tick, SizeReturns(0, 1), ReadReturns(0, 0)];
    StarvingRead(w2);
  }

  lemma StarvingRead(w: Watch)
    requires |w.bodies| == 1 && w.bodies[0].Reading? && !w.pumpAgain && w.position <= |w.file|
    ensures ReadStep(w, 0, 0) == w.(starved := true, pumping := false, bodies := [])
  {
    assert w.bodies[..0] + w.bodies[1..] == [];
  }

  lemma WriteStarts(data: seq<byte>)
    ensures P.Write(P.FrameReader, data) == P.Drain(P.FrameReader.Extend(data))
  {
    hide P.Drain;
  }
}
