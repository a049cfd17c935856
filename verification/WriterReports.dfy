/** What the writer reports against what the parser reads back from the file it wrote. */
module WriterReports {
  import opened Bytes
  import opened PcapParser
  import opened ParserOffsets
  import opened WriterInverse
  import G = PcapGenerators
  import opened PcapWriter

  function ReadHeader(f: Format, e: G.Entry): RecordHeader
  {
    if f.Pcap? then RecordHeaderOf(e) else EnhancedHeaderOf(e)
  }

  function ReadInfo(f: Format, e: G.Entry, count: nat, offset: nat): PacketInfo
  {
    RecordInfo(count + 1, offset, RecordLength(f, e.frame), HeaderLength(f), ReadHeader(f, e), e.frame)
  }

  /** The packets read back: those before the first frame that is over the parser's limit. */
  function ReadInfos(f: Format, es: seq<G.Entry>, count: nat, offset: nat): seq<PacketInfo>
  {
    if es == [] || |es[0].frame| > MAX_CAPTURED_LENGTH then []
    else [ReadInfo(f, es[0], count, offset)] + ReadInfos(f, es[1..], count + 1, offset + RecordLength(f, es[0].frame))
  }

  lemma PacketsOfOne(index: nat, offset: nat, length: nat, headerLength: nat, h: RecordHeader, frame: seq<byte>,
                     rest: seq<Event>)
    ensures PacketsOf(PacketEvents(index, offset, length, headerLength, h, frame) + rest)
         == [RecordInfo(index, offset, length, headerLength, h, frame)] + PacketsOf(rest)
  {
    var e := PacketEvents(index, offset, length, headerLength, h, frame);
    PacketsOfAppend(e, rest);
    PacketsOfFew(e[0], e[1], e[2]);
  }

  lemma PacketsOfError(e: ParseError)
    ensures PacketsOf([Error(e), End]) == []
  {
    PacketsOfFew(Error(e), End, End);
  }

  lemma {:induction false} RecordPackets(es: seq<G.Entry>, count: nat, offset: nat)
    ensures PacketsOf(RecordTrace(es, count, offset)) == ReadInfos(Pcap, es, count, offset)
    decreases |es|
  {
    hide PacketsOf, RecordInfo, RecordHeaderOf;
    if es == [] {
      NoPackets();
    } else if |es[0].frame| > MAX_CAPTURED_LENGTH {
      PacketsOfError(CapturedLengthTooLong(|es[0].frame|));
    } else {
      var n := |es[0].frame|;
      RecordPackets(es[1..], count + 1, offset + 16 + n);
      PacketsOfOne(count + 1, offset, 16 + n, 16, RecordHeaderOf(es[0]), es[0].frame,
                   RecordTrace(es[1..], count + 1, offset + 16 + n));
    }
  }

  lemma NoPackets()
    ensures PacketsOf([]) == []
  {
  }

  lemma {:induction false} BlockPackets(es: seq<G.Entry>, count: nat, offset: nat)
    ensures PacketsOf(BlockTrace(es, count, offset)) == ReadInfos(Pcapng, es, count, offset)
    decreases |es|
  {
    hide PacketsOf, RecordInfo, EnhancedHeaderOf;
    if es == [] {
      NoPackets();
    } else {
      var n, total := |es[0].frame|, BlockLength(es[0]);
      if total > MAX_BLOCK_LENGTH {
        PacketsOfError(BlockTooLong(total));
      } else if n > MAX_CAPTURED_LENGTH {
        PacketsOfError(CaptureDoesNotFitBlock(n, total));
      } else {
        BlockPackets(es[1..], count + 1, offset + total);
        PacketsOfOne(count + 1, offset, total, 28, EnhancedHeaderOf(es[0]), es[0].frame,
                     BlockTrace(es[1..], count + 1, offset + total));
      }
    }
  }

  /** What a parser fed the whole generated file reports. */
  function ReadBack(f: Format, es: seq<G.Entry>): seq<PacketInfo>
    requires G.AllWritable(es)
  {
    PacketsOf(Write(Init, FileHeader(f) + Body(f, es)).events)
  }

  lemma ReadBackInfos(f: Format, es: seq<G.Entry>)
    requires G.AllWritable(es)
    ensures ReadBack(f, es) == ReadInfos(f, es, 0, |FileHeader(f)|)
  {
    hide PacketsOf, Write;
    if f.Pcap? {
      PcapInverse(es);
      PacketsOfAppend([FILE_HEADER], RecordTrace(es, 0, 24));
      PacketsOfFew(FILE_HEADER, End, End);
      RecordPackets(es, 0, 24);
    } else {
      PcapngInverse(es, G.DEFAULT_OPTIONS);
      AppendAssociates(G.SECTION_HEADER, G.Words(LE, G.InterfaceWords(G.DEFAULT_OPTIONS)), G.Blocks(es));
      PacketsOfAppend([SectionHeader(1, 0)], BlockTrace(es, 0, 48));
      PacketsOfFew(SectionHeader(1, 0), End, End);
      BlockPackets(es, 0, 48);
    }
  }

  /** Both formats give back every frame exactly when none is over the parser's limit, and a prefix otherwise. */
  lemma FramesComeBackIff(f: Format, es: seq<G.Entry>)
    requires G.AllWritable(es)
    ensures |ReadBack(f, es)| <= |es|
    ensures forall k :: 0 <= k < |ReadBack(f, es)| ==> ReadBack(f, es)[k].packet == es[k].frame
    ensures |ReadBack(f, es)| == |es| <==> (forall k :: 0 <= k < |es| ==> |es[k].frame| <= MAX_CAPTURED_LENGTH)
  {
    ReadBackInfos(f, es);
    ReadInfosFrames(f, es, 0, |FileHeader(f)|);
  }

  lemma {:induction false} ReadInfosFrames(f: Format, es: seq<G.Entry>, count: nat, offset: nat)
    ensures var r := ReadInfos(f, es, count, offset);
            && |r| <= |es|
            && (forall k :: 0 <= k < |r| ==> r[k].packet == es[k].frame)
            && (|r| == |es| <==> forall k :: 0 <= k < |es| ==> |es[k].frame| <= MAX_CAPTURED_LENGTH)
    decreases |es|
  {
    hide ReadHeader;
    if es != [] {
      ReadInfosFrames(f, es[1..], count + 1, offset + RecordLength(f, es[0].frame));
      assert forall k :: 0 < k < |es| ==> es[k] == es[1..][k - 1];
      assert es[0] in es;
      if forall k :: 0 <= k < |es[1..]| ==> |es[1..][k].frame| <= MAX_CAPTURED_LENGTH {
      } else {
        var k :| 0 <= k < |es[1..]| && |es[1..][k].frame| > MAX_CAPTURED_LENGTH;
        assert es[k + 1] == es[1..][k];
      }
    }
  }

  /**
   * The two formats report the same time for a packet exactly when the 64-bit tick counter wrapped a multiple of 15625
   * times, and what is left of it is under 2^32 seconds.
   */
  lemma FormatsAgreeIff(e: G.Entry)
    ensures ReadHeader(Pcap, e) == ReadHeader(Pcapng, e)
       <==> e.clock.Ticks() / TICKS_WRAP % 15625 == 0 && e.clock.Ticks() % TICKS_WRAP / 1_000_000 < TWO_32
  {
    hide Wrapped;
    var t := e.clock.Ticks();
    var q, left := t / TICKS_WRAP, t % TICKS_WRAP;
    assert t == q * TICKS_WRAP + left;
    assert Wrapped(t) == left;
    WrapsKeepMicrosIff(q, left);
    if q % 15625 == 0 {
      WrapsKeepSeconds(q / 15625, left);
      FitsIff(left / 1_000_000);
    }
  }

  const TICKS_WRAP: nat := 0x1_0000_0000_0000_0000

  /** 2^64 ticks leave the microseconds alone only in multiples of 15625. */
  lemma WrapsKeepMicrosIff(q: nat, left: nat)
    ensures (q * TICKS_WRAP + left) % 1_000_000 == left % 1_000_000 <==> q % 15625 == 0
  {
    var t := q * TICKS_WRAP + left;
    if t % 1_000_000 == left % 1_000_000 {
      var m := t / 1_000_000 - left / 1_000_000;
      assert q * TICKS_WRAP == m * 1_000_000;
      assert q == 15625 * (527104 * m - 9723352588228599495 * q);
    }
    if q % 15625 == 0 {
      var r := q / 15625;
      assert t == r * 0x400_0000_0000_0000 * 1_000_000 + left;
    }
  }

  lemma WrapsKeepSeconds(r: nat, left: nat)
    ensures (15625 * r * TICKS_WRAP + left) / 1_000_000 % TWO_32 == left / 1_000_000 % TWO_32
  {
    var t := 15625 * r * TICKS_WRAP + left;
    assert t == r * 0x400_0000_0000_0000 * 1_000_000 + left;
    MillionsOut(r * 0x400_0000_0000_0000, left);
    assert r * 0x400_0000_0000_0000 == r * 0x400_0000 * TWO_32;
    WordsOut(r * 0x400_0000, left / 1_000_000);
  }

  lemma MillionsOut(n: nat, left: nat)
    ensures (n * 1_000_000 + left) / 1_000_000 == n + left / 1_000_000
  {
  }

  lemma WordsOut(n: nat, left: nat)
    ensures (n * TWO_32 + left) % TWO_32 == left % TWO_32
  {
  }

  /** Before the counter wraps, that is exactly while the carried seconds fit in 32 bits. */
  lemma UnwrappedAgreeIff(e: G.Entry)
    requires e.clock.Ticks() < TICKS_WRAP
    ensures ReadHeader(Pcap, e) == ReadHeader(Pcapng, e) <==> e.clock.CarriedSeconds() < TWO_32
  {
    hide ReadHeader;
    FormatsAgreeIff(e);
  }

  lemma FitsIff(s: nat)
    ensures s % 0x1_0000_0000 == s <==> s < TWO_32
  {
  }

  /** A timestamp the file format can hold as passed in: whole, unsigned, microseconds below a million. */
  predicate Normal(f: Format, c: Call)
  {
    && c.seconds.Finite? && c.seconds.value == c.seconds.value.Floor as real && c.seconds.value.Floor >= 0
    && c.microseconds.Finite? && c.microseconds.value == c.microseconds.value.Floor as real
    && 0 <= c.microseconds.value.Floor < 1_000_000
    && (if f.Pcap? then c.seconds.value.Floor < TWO_32
        else c.seconds.value.Floor * 1_000_000 + c.microseconds.value.Floor < 0x1_0000_0000_0000_0000)
  }

  predicate SamePlace(w: WroteInfo, p: PacketInfo)
  {
    && w.index == p.index && w.offset == p.offset && w.length == p.length
    && w.recordHeaderOffset == p.recordHeaderOffset && w.recordHeaderLength == p.recordHeaderLength
    && w.packetOffset == p.packetOffset && w.packetLength == p.packetLength
  }

  predicate SameTime(w: WroteInfo, p: PacketInfo)
  {
    && w.seconds == G.Finite(p.seconds as real) && w.microseconds == G.Finite(p.microseconds as real)
    && w.nanoseconds == G.Finite(p.nanoseconds as real)
  }

  lemma SameTimeIffNormal(f: Format, c: Call, count: nat, offset: nat, data: bool)
    ensures SameTime(InfoOf(f, c, count + 1, offset, data), ReadInfo(f, c.Entry(), count, offset)) <==> Normal(f, c)
  {
    var w, p := InfoOf(f, c, count + 1, offset, data), ReadInfo(f, c.Entry(), count, offset);
    var k := c.Entry().clock;
    if Normal(f, c) {
      NormalClock(f, k);
      assert (k.microseconds * 1000) as real == k.microseconds as real * 1000.0;
    }
    if SameTime(w, p) {
      assert p.microseconds < 1_000_000;
      if f.Pcap? {
        assert p.seconds < TWO_32;
      } else {
        var t := Wrapped(k.Ticks());
        assert p.seconds == t / 1_000_000 && p.microseconds == t % 1_000_000;
      }
    }
  }

  /** Nothing is carried or wrapped out of a normal clock. */
  lemma NormalClock(f: Format, k: G.Clock)
    requires k.microseconds < 1_000_000
    requires if f.Pcap? then k.seconds < TWO_32 else k.Ticks() < 0x1_0000_0000_0000_0000
    ensures var e := G.Entry([], k, 0);
            ReadHeader(f, e).seconds == k.seconds && ReadHeader(f, e).microseconds == k.microseconds
            && ReadHeader(f, e).nanoseconds == k.microseconds * 1000
  {
    var t := k.Ticks();
    assert t / 1_000_000 == k.seconds && t % 1_000_000 == k.microseconds;
  }

  /** Where the record of call `k` starts, the first one starting at `offset`. */
  function Start(f: Format, calls: seq<Call>, offset: nat, k: nat): nat
    requires k < |calls|
  {
    if k == 0 then offset else Start(f, calls[1..], offset + RecordLength(f, calls[0].frame), k - 1)
  }

  lemma NoEntries()
    ensures Entries([]) == []
  {
  }

  lemma EntriesFirst(calls: seq<Call>)
    requires calls != []
    ensures Entries(calls) != [] && Entries(calls)[0] == calls[0].Entry() && Entries(calls)[1..] == Entries(calls[1..])
  {
  }

  /** What the writer reports for call `k`. */
  lemma {:induction false} WroteAt(f: Format, calls: seq<Call>, count: nat, offset: nat, data: bool)
    ensures var ws := InfosOf(f, calls, count, offset, data);
      |ws| == |calls|
        && forall k :: 0 <= k < |ws| ==> ws[k] == InfoOf(f, calls[k], count + k + 1, Start(f, calls, offset, k), data)
    decreases |calls|
  {
    hide InfoOf, RecordLength;
    if calls != [] { WroteAt(f, calls[1..], count + 1, offset + RecordLength(f, calls[0].frame), data); }
  }

  /** What the parser reports for it, as far as it gets. */
  lemma {:induction false} ReadsAt(f: Format, calls: seq<Call>, count: nat, offset: nat)
    ensures var ps := ReadInfos(f, Entries(calls), count, offset);
      |ps| <= |calls|
        && forall k :: 0 <= k < |ps| ==> ps[k] == ReadInfo(f, calls[k].Entry(), count + k, Start(f, calls, offset, k))
    decreases |calls|
  {
    hide ReadInfo, RecordLength, Entries;
    if calls == [] {
      assert Entries(calls) == [] by { NoEntries(); }
    } else {
      EntriesFirst(calls);
      ReadsAt(f, calls[1..], count + 1, offset + RecordLength(f, calls[0].frame));
    }
  }

  /**
   * After any calls on a new file, each packet the parser reads back has the index, offsets and lengths that
   * the writer reported for it, the frame too where the writer reports frames, and the same time exactly when the
   * timestamp passed in was normal.
   */
  lemma ReportsMatch(f: Format, calls: seq<Call>, data: bool)
    requires AllWritable(calls)
    ensures G.AllWritable(Entries(calls))
    ensures var ws, ps := InfosOf(f, calls, 0, |FileHeader(f)|, data), ReadBack(f, Entries(calls));
            |ps| <= |ws| == |calls|
            && forall k :: 0 <= k < |ps| ==>
                 SamePlace(ws[k], ps[k]) && (SameTime(ws[k], ps[k]) <==> Normal(f, calls[k]))
                 && ws[k].packet == (if data then ps[k].packet else [])
  {
    hide InfosOf, ReadInfos, ReadBack, Entries, Normal, SameTime, Start, FileHeader, ReadHeader;
    EntriesWritable(calls);
    ReadBackInfos(f, Entries(calls));
    WroteAt(f, calls, 0, |FileHeader(f)|, data);
    ReadsAt(f, calls, 0, |FileHeader(f)|);
    forall k | 0 <= k < |calls|
      ensures var w, p := InfoOf(f, calls[k], k + 1, Start(f, calls, |FileHeader(f)|, k), data),
                          ReadInfo(f, calls[k].Entry(), k, Start(f, calls, |FileHeader(f)|, k));
        SamePlace(w, p) && (SameTime(w, p) <==> Normal(f, calls[k])) && w.packet == (if data then p.packet else [])
    {
      SameTimeIffNormal(f, calls[k], k, Start(f, calls, |FileHeader(f)|, k), data);
    }
  }

  /** Half a second passed in as a fraction is reported as a fraction and written as zero. */
  lemma FractionLost()
    ensures var c := Call([], G.Finite(0.5), G.Finite(0.0));
      !SameTime(InfoOf(Pcap, c, 1, 24, true), ReadInfo(Pcap, c.Entry(), 0, 24))
        && ReadHeader(Pcap, c.Entry()).seconds == 0
  {
    SameTimeIffNormal(Pcap, Call([], G.Finite(0.5), G.Finite(0.0)), 0, 24, true);
  }
}
