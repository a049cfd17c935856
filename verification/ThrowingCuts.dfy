/** An unsized stream has a first part that makes the parser throw however it is cut. */
module ThrowingCuts {
  import opened Bytes
  import opened ChunkInvariance
  import opened PcapParser

  /** Anything short of an undersized block's end leaves the block incomplete. */
  lemma ShortTrim(st: State, n: nat)
    requires st.phase.ParseNgBlock? && NgFrame(st).Complete? && n < NgFrame(st).total
    ensures Sized(Trim(st, n))
  {
    var t := Trim(st, n);
    if n >= 12 {
      assert st.buffer[..n][..12] == st.buffer[..12];
      TrimExtend(st, n);
      GetBefore(NgFrame(st).order, t.buffer, st.buffer[n..], 4);
    }
    assert NgFrame(t).Incomplete?;
  }

  /** The octets up to the cut throw when written whole, and no shorter part of them reaches an undersized block. */
  predicate CutsShort(st: State, c: nat)
  {
    12 <= c <= |st.buffer| && Thrown in Drain(Trim(st, c)).events && forall n :: 0 <= n < c ==> Sized(Trim(st, n))
  }

  lemma {:induction false} CutThrows(st: State)
    requires st.phase.ParseNgBlock? && !st.errored && !Sized(st)
    ensures CutsShort(st, CutPoint(st))
    decreases |st.buffer|
  {
    hide NgStep, NgFrame, Undersized, CutsShort, Sized;
    if Undersized(st) {
      HeadCutsShort(st);
    } else {
      CutPointStep(st);
      CutThrows(Step(st).state);
      LaterCutsShort(st, CutPoint(Step(st).state));
    }
  }

  lemma HeadCutsShort(st: State)
    requires st.phase.ParseNgBlock? && !st.errored && Undersized(st)
    ensures CutsShort(st, CutPoint(st))
  {
    hide NgStep, NgFrame, Drain;
    UndersizedThrows(st);
    forall n | 0 <= n < NgFrame(st).total ensures Sized(Trim(st, n)) { ShortTrim(st, n); }
  }

  lemma CutPointStep(st: State)
    requires st.phase.ParseNgBlock? && !st.errored && !Sized(st) && !Undersized(st)
    ensures Step(st).outcome.Go? && NgFrame(st).Complete? && NgFrame(st).total <= |st.buffer|
    ensures var next := Step(st).state;
      && next.phase.ParseNgBlock? && !next.errored && !Sized(next) && next.buffer == st.buffer[NgFrame(st).total..]
      && |next.buffer| < |st.buffer| && CutPoint(st) == NgFrame(st).total + CutPoint(next)
  {
    hide NgStep, NgFrame, Undersized;
    NgProgress(st);
    NgKeepsPhase(st);
    NgExtend(st, []);
  }

  lemma LaterCutsShort(st: State, c: nat)
    requires st.phase.ParseNgBlock? && !st.errored && !Undersized(st) && Step(st).outcome.Go?
    requires NgFrame(st).Complete? && NgFrame(st).total <= |st.buffer|
      && Step(st).state.buffer == st.buffer[NgFrame(st).total..]
    requires CutsShort(Step(st).state, c)
    ensures CutsShort(st, NgFrame(st).total + c)
  {
    hide NgStep, NgFrame, Undersized;
    var total, next := NgFrame(st).total, Step(st).state;
    TrimGoes(st, total + c);
    forall n | 0 <= n < total + c ensures Sized(Trim(st, n)) {
      if n < total {
        ShortTrim(st, n);
      } else {
        TrimGoes(st, n);
        TrimExtend(st, n);
        UndersizedExtend(Trim(st, n), st.buffer[n..]);
        assert Sized(Trim(next, n - total));
      }
    }
  }

  /** A sized block goes the same way in a trimmed buffer. */
  lemma TrimGoes(st: State, n: nat)
    requires st.phase.ParseNgBlock? && !st.errored && !Undersized(st) && Step(st).outcome.Go?
    requires NgFrame(st).Complete? && NgFrame(st).total <= n <= |st.buffer|
    ensures Step(Trim(st, n)) == Step(st).(state := Trim(Step(st).state, n - NgFrame(st).total))
  {
    hide NgStep, NgFrame, Undersized;
    TrimStep(st, n);
    NgKeepsPhase(st);
    var total, next := NgFrame(st).total, Step(st).state;
    assert next.buffer[..n - total] == st.buffer[..n][total..];
  }

  /** Some part of an unsized stream throws under every cut. */
  lemma PartThrows(listens: bool, s: seq<byte>) returns (c: nat)
    requires !Sized(NewParser(listens).Extend(s))
    ensures c <= |s| && forall chunks :: Concat(chunks) == s[..c] ==> Thrown in Feed(NewParser(listens), chunks).events
  {
    hide Drain, Sized, Feed, Concat, NgFrame;
    UnsizedIsNg(listens, s);
    var ng := NewParser(listens).Extend(s).(phase := ParseNgBlock);
    AppendNil(s);
    CutThrows(ng);
    c := CutPoint(ng);
    var part := s[..c];
    assert part[..4] == s[..4];
    NgDrain(listens, part);
    AppendNil(part);
    assert NewParser(listens).Extend(part).(phase := ParseNgBlock) == Trim(ng, c);
    forall n | 0 <= n < c ensures Sized(NewParser(listens).Extend(part[..n])) {
      assert part[..n] == s[..n];
      StartSized(listens, s, n);
    }
    forall chunks | Concat(chunks) == part
      ensures Thrown in Feed(NewParser(listens), chunks).events { EveryCutThrows(listens, part, chunks); }
  }

  lemma StartSized(listens: bool, s: seq<byte>, n: nat)
    requires n <= |s| && Sized(Trim(NewParser(listens).Extend(s).(phase := ParseNgBlock), n))
    requires |s| >= 4 && s[..4] == SECTION_MAGIC
    ensures Sized(NewParser(listens).Extend(s[..n]))
  {
    var t := NewParser(listens).Extend(s[..n]);
    AppendNil(s);
    AppendNil(s[..n]);
    assert t.buffer == s[..n];
    if n >= 4 {
      assert s[..n][..4] == SECTION_MAGIC;
      assert Step(t).state == Trim(NewParser(listens).Extend(s).(phase := ParseNgBlock), n);
    }
  }

  lemma {:induction false} EveryCutThrows(listens: bool, part: seq<byte>, chunks: seq<seq<byte>>)
    requires Thrown in Drain(NewParser(listens).Extend(part)).events
      && forall n :: 0 <= n < |part| ==> Sized(NewParser(listens).Extend(part[..n]))
    requires Concat(chunks) == part
    ensures Thrown in Feed(NewParser(listens), chunks).events
    decreases |chunks|
  {
    hide Drain, Sized;
    if chunks == [] {
      NothingThrown(listens);
    } else {
      var front, last := chunks[..|chunks| - 1], chunks[|chunks| - 1];
      assert chunks == front + [last];
      FeedSnoc(NewParser(listens), front, last);
      var p := Concat(front);
      if last == [] {
        AppendNil(p);
        EveryCutThrows(listens, part, front);
      } else {
        var st := NewParser(listens).Extend(p);
        assert p == part[..|p|];
        AppendNil(p);
        assert st.Extend(last) == NewParser(listens).Extend(part);
        if front == [] { NothingThrown(listens); } else { AnyCut(NewParser(listens), front); }
        SizedNeverThrows(st);
        DrainExtend(st, last);
      }
    }
  }

  lemma NothingThrown(listens: bool)
    ensures Drain(NewParser(listens).Extend([])) == Run(NewParser(listens), [])
      && Feed(NewParser(listens), []) == Run(NewParser(listens), []) && Concat([]) == []
  {
    assert NewParser(listens).Extend([]).buffer == [];
  }
}
