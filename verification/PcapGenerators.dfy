/** The bytes that the pcap and pcapng generators produce, as specifications and as buffer-filling methods. */
module PcapGenerators {
  import opened Bytes

  /** A JavaScript number: the generators tell finite values from NaN and the infinities. */
  datatype Num = Finite(value: real) | NotFinite

  datatype Micro = Micro(seconds: Num, microseconds: Num)

  /** A packet to write. Frames of 2^32 - 36 octets or more make the 32-bit length writes throw. */
  datatype Packet = Packet(frame: seq<byte>, timestamp: Option<Num>, microsecond: Option<Micro>, interfaceId: nat)
  {
    predicate Writable() { |frame| + 36 < TWO_32 && interfaceId < TWO_32 }
  }

  datatype Options = Options(linkLayerType: nat, snapshotLength: nat)
  {
    predicate Writable() { linkLayerType < TWO_16 && snapshotLength < TWO_32 }
  }

  const DEFAULT_OPTIONS := Options(1, 262144)

  /** Seconds and microseconds before carrying. */
  datatype Clock = Clock(seconds: nat, microseconds: nat)
  {
    function Ticks(): nat { seconds * 1_000_000 + microseconds }
    function CarriedSeconds(): nat { Ticks() / 1_000_000 }
    function CarriedMicros(): nat { Ticks() % 1_000_000 }
  }

  /** `Number.isFinite(n) ? Math.max(0, Math.floor(n)) : 0` */
  function Clamp(n: Num): nat
  {
    if n.NotFinite? || n.value.Floor < 0 then 0 else n.value.Floor
  }

  /** Milliseconds, as BigNumber renders ms/1000 to six places (half away from zero) and parseInt reads both sides. */
  function FromMillis(ms: real): (int, int)
  {
    var micros := ((if ms < 0.0 then -ms else ms) * 1000.0 + 0.5).Floor;
    (if ms < 0.0 then -(micros / 1_000_000) else micros / 1_000_000, micros % 1_000_000)
  }

  /** The clamped timestamp: explicit microseconds win, a zero or missing millisecond timestamp is the epoch. */
  function ClockOf(p: Packet): Clock
  {
    if p.microsecond.Some? then Clock(Clamp(p.microsecond.value.seconds), Clamp(p.microsecond.value.microseconds))
    else if p.timestamp.Some? && p.timestamp.value.Finite? && p.timestamp.value.value != 0.0 then
      var (s, us) := FromMillis(p.timestamp.value.value);
      Clock(Max(0, s), Max(0, us))
    else Clock(0, 0)
  }

  // ---- what a timestamp is settled to ----

  /** Carrying keeps the time and leaves less than a second of microseconds. */
  lemma CarryMeans(c: Clock)
    ensures c.CarriedMicros() < 1_000_000
    ensures c.CarriedSeconds() * 1_000_000 + c.CarriedMicros() == c.seconds * 1_000_000 + c.microseconds
  {
  }

  /** Explicit seconds and microseconds are rounded down, with zero for negative and non-finite ones. */
  lemma ExplicitMeans(p: Packet, n: Num, m: nat)
    requires p.microsecond.Some?
    requires (n == p.microsecond.value.seconds && m == ClockOf(p).seconds)
          || (n == p.microsecond.value.microseconds && m == ClockOf(p).microseconds)
    ensures if n.NotFinite? || n.value < 0.0 then m == 0 else m as real <= n.value < m as real + 1.0
  {
  }

  /**
   * A timestamp in milliseconds is rounded to the nearest microsecond, of two equally near the one further from the
   * epoch. Before the epoch only its fraction of a second is left, and counts forward.
   */
  lemma MillisMeans(p: Packet, ms: real) returns (micros: nat)
    requires p.microsecond.None? && p.timestamp == Some(Finite(ms))
    ensures var distance := if ms < 0.0 then -ms else ms;
      distance * 1000.0 - 0.5 < micros as real <= distance * 1000.0 + 0.5
    ensures ms >= 0.0 ==> ClockOf(p).seconds * 1_000_000 + ClockOf(p).microseconds == micros
    ensures ms < 0.0 ==> ClockOf(p) == Clock(0, micros % 1_000_000)
  {
    var distance := if ms < 0.0 then -ms else ms;
    micros := (distance * 1000.0 + 0.5).Floor;
  }

  /** A packet without a usable timestamp is stamped with the epoch. */
  lemma NoTimeMeans(p: Packet)
    requires p.microsecond.None? && (p.timestamp.None? || p.timestamp.value.NotFinite?)
    ensures ClockOf(p) == Clock(0, 0)
  {
  }

  /** One and a half milliseconds before the epoch are written as as much after it. */
  lemma NegativeTurned(frame: seq<byte>)
    ensures ClockOf(Packet(frame, Some(Finite(-1.5)), None, 0)) == Clock(0, 1500)
  {
    assert (1.5 * 1000.0 + 0.5).Floor == 1500;
  }

  /** A packet whose timestamp has been settled: what a record or block carries. */
  datatype Entry = Entry(frame: seq<byte>, clock: Clock, interfaceId: nat)
  {
    predicate Writable() { |frame| + 36 < TWO_32 && interfaceId < TWO_32 }
  }

  function EntryOf(p: Packet): Entry
  {
    Entry(p.frame, ClockOf(p), p.interfaceId)
  }

  function Entries(ps: seq<Packet>): (es: seq<Entry>)
    ensures |es| == |ps| && forall k :: 0 <= k < |ps| ==> es[k] == EntryOf(ps[k])
  {
    seq(|ps|, k requires 0 <= k < |ps| => EntryOf(ps[k]))
  }

  predicate AllWritable(es: seq<Entry>)
  {
    forall k :: 0 <= k < |es| ==> es[k].Writable()
  }

  // ---- what the files contain ----

  /** 0xa1b2c3d4, version 2.4, no offset or accuracy, snapshot length 65535, link type 1; big-endian. */
  const GLOBAL_HEADER: seq<byte> := [
    0xa1, 0xb2, 0xc3, 0xd4, 0, 2, 0, 4, 0, 0, 0, 0, 0, 0, 0, 0, 0, 0, 0xff, 0xff, 0, 0, 0, 1]

  /** 28 octets, byte-order magic, version 1.0, section length unknown; little-endian. */
  const SECTION_HEADER: seq<byte> := [
    0x0a, 0x0d, 0x0d, 0x0a, 28, 0, 0, 0, 0x4d, 0x3c, 0x2b, 0x1a, 1, 0, 0, 0,
    0xff, 0xff, 0xff, 0xff, 0xff, 0xff, 0xff, 0xff, 28, 0, 0, 0]

  type u32 = n: int | 0 <= n < 0x1_0000_0000

  /** 32-bit words in the given byte order. */
  function Words(e: Endian, ws: seq<u32>): (b: seq<byte>)
    ensures |b| == 4 * |ws|
  {
    if ws == [] then [] else PutU32(e, ws[0]) + Words(e, ws[1..])
  }

  lemma {:induction false} WordAt(e: Endian, ws: seq<u32>, tail: seq<byte>, i: nat)
    requires i < |ws|
    ensures GetU32(e, Words(e, ws) + tail, 4 * i) == ws[i]
    decreases i
  {
    var first, rest := PutU32(e, ws[0]), Words(e, ws[1..]);
    AppendAssociates(first, rest, tail);
    if i == 0 {
      GetBefore(e, first, rest + tail, 0);
    } else {
      GetAfter(e, first, rest + tail, 4 * (i - 1));
      WordAt(e, ws[1..], tail, i - 1);
    }
  }

  function RecordWords(p: Entry): (ws: seq<u32>)
    requires p.Writable()
    ensures |ws| == 4
  {
    var c := p.clock;
    [c.CarriedSeconds() % 0x1_0000_0000, c.CarriedMicros(), |p.frame|, |p.frame|]
  }

  function Record(p: Entry): seq<byte>
    requires p.Writable()
  {
    Words(BE, RecordWords(p)) + p.frame
  }

  /** The number of zero octets that align `n` to four. */
  function Padding(n: nat): (k: nat)
    ensures k < 4 && (n + k) % 4 == 0
  {
    if n % 4 == 0 then 0 else 4 - n % 4
  }

  function InterfaceWords(o: Options): (ws: seq<u32>)
    requires o.Writable()
    ensures |ws| == 5
  {
    [1, 20, o.linkLayerType, o.snapshotLength, 20]
  }

  /** The two halves of the 64-bit tick counter. */
  function HighWord(ticks: nat): u32 { ticks / 0x1_0000_0000 % 0x1_0000_0000 }

  function LowWord(ticks: nat): u32 { ticks % 0x1_0000_0000 }

  function EnhancedWords(p: Entry): (ws: seq<u32>)
    requires p.Writable()
    ensures |ws| == 7
  {
    var n, ticks := |p.frame|, p.clock.Ticks();
    [6, 32 + n + Padding(n), p.interfaceId, HighWord(ticks), LowWord(ticks), n, n]
  }

  function EnhancedBlock(p: Entry): (b: seq<byte>)
    requires p.Writable()
    ensures |b| == 32 + |p.frame| + Padding(|p.frame|)
  {
    Words(LE, EnhancedWords(p)) + p.frame + Zeros(Padding(|p.frame|)) + PutU32(LE, 32 + |p.frame| + Padding(|p.frame|))
  }

  function Records(ps: seq<Entry>): seq<byte>
    requires AllWritable(ps)
  {
    if ps == [] then [] else Record(ps[0]) + Records(ps[1..])
  }

  function Blocks(ps: seq<Entry>): seq<byte>
    requires AllWritable(ps)
  {
    if ps == [] then [] else EnhancedBlock(ps[0]) + Blocks(ps[1..])
  }

  function PcapFile(ps: seq<Entry>): seq<byte>
    requires AllWritable(ps)
  {
    GLOBAL_HEADER + Records(ps)
  }

  function PcapngFile(ps: seq<Entry>, o: Options): seq<byte>
    requires o.Writable() && AllWritable(ps)
  {
    SECTION_HEADER + (Words(LE, InterfaceWords(o)) + Blocks(ps))
  }

  // ---- the generators ----

  /** Buffer.writeUInt32BE/LE, used to fill a block front to back. */
  method WriteU32(block: array<byte>, e: Endian, v: u32, offset: nat)
    requires offset + 4 <= block.Length
    modifies block
    ensures block[..offset + 4] == old(block[..offset]) + PutU32(e, v)
    ensures block[offset + 4..] == old(block[offset + 4..])
  {
    var b := PutU32(e, v);
    block[offset], block[offset + 1], block[offset + 2], block[offset + 3] := b[0], b[1], b[2], b[3];
  }

  method WriteU16(block: array<byte>, e: Endian, v: nat, offset: nat)
    requires v < TWO_16 && offset + 2 <= block.Length
    modifies block
    ensures block[..offset + 2] == old(block[..offset]) + PutU16(e, v)
    ensures block[offset + 2..] == old(block[offset + 2..])
  {
    var b := PutU16(e, v);
    block[offset], block[offset + 1] := b[0], b[1];
  }

  method GeneratePcapHeader() returns (header: array<byte>)
    ensures fresh(header) && header[..] == GLOBAL_HEADER
  {
    hide PutU32, PutU16;
    header := new byte[24](_ => 0);
    WriteU32(header, BE, 0xa1b2c3d4, 0);
    WriteU16(header, BE, 2, 4);
    WriteU16(header, BE, 4, 6);
    WriteU32(header, BE, 0, 8);
    WriteU32(header, BE, 0, 12);
    WriteU32(header, BE, 65535, 16);
    WriteU32(header, BE, 1, 20);
    assert header[..0] == [] && header[..24] == header[..];
    GlobalHeaderFields();
  }

  lemma GlobalHeaderFields()
    ensures [] + PutU32(BE, 0xa1b2c3d4) + PutU16(BE, 2) + PutU16(BE, 4) + PutU32(BE, 0) + PutU32(BE, 0)
            + PutU32(BE, 65535) + PutU32(BE, 1) == GLOBAL_HEADER
  {
    hide PutU32, PutU16;
    GlobalWords();
    var head := [] + PutU32(BE, 0xa1b2c3d4) + PutU16(BE, 2) + PutU16(BE, 4);
    assert head == GLOBAL_HEADER[..8] by { assert head == [0xa1, 0xb2, 0xc3, 0xd4, 0, 2, 0, 4]; }
    var zeros, tail := PutU32(BE, 0) + PutU32(BE, 0), PutU32(BE, 65535) + PutU32(BE, 1);
    assert zeros == GLOBAL_HEADER[8..16] by { assert zeros == [0, 0, 0, 0, 0, 0, 0, 0]; }
    assert tail == GLOBAL_HEADER[16..] by { assert tail == [0, 0, 0xff, 0xff, 0, 0, 0, 1]; }
    AppendAssociates(head, PutU32(BE, 0), PutU32(BE, 0));
    AppendAssociates(head + zeros, PutU32(BE, 65535), PutU32(BE, 1));
    assert GLOBAL_HEADER[..8] + GLOBAL_HEADER[8..16] + GLOBAL_HEADER[16..] == GLOBAL_HEADER;
  }

  lemma GlobalWords()
    ensures PutU32(BE, 0xa1b2c3d4) == [0xa1, 0xb2, 0xc3, 0xd4] && PutU16(BE, 2) == [0, 2] && PutU16(BE, 4) == [0, 4]
    ensures PutU32(BE, 0) == [0, 0, 0, 0] && PutU32(BE, 65535) == [0, 0, 0xff, 0xff] && PutU32(BE, 1) == [0, 0, 0, 1]
  {
  }

  method GeneratePcapSectionHeader() returns (block: array<byte>)
    ensures fresh(block) && block[..] == SECTION_HEADER
  {
    hide PutU32, PutU16;
    block := new byte[28](_ => 0);
    WriteU32(block, LE, 0x0a0d0d0a, 0);
    WriteU32(block, LE, 28, 4);
    WriteU32(block, LE, 0x1a2b3c4d, 8);
    WriteU16(block, LE, 1, 12);
    WriteU16(block, LE, 0, 14);
    WriteU32(block, LE, 0xffff_ffff, 16);
    WriteU32(block, LE, 0xffff_ffff, 20);
    WriteU32(block, LE, 28, 24);
    assert block[..0] == [] && block[..28] == block[..];
    SectionHeaderFields();
  }

  lemma SectionHeaderFields()
    ensures [] + PutU32(LE, 0x0a0d0d0a) + PutU32(LE, 28) + PutU32(LE, 0x1a2b3c4d) + PutU16(LE, 1) + PutU16(LE, 0)
            + PutU32(LE, 0xffff_ffff) + PutU32(LE, 0xffff_ffff) + PutU32(LE, 28) == SECTION_HEADER
  {
    var f, t := PutU32(LE, 0xffff_ffff), PutU32(LE, 28);
    assert f == [0xff, 0xff, 0xff, 0xff] && t == [28, 0, 0, 0];
    var front := SectionHeaderFront();
    Regroup(front, f, f, t);
    assert f + f + t == SECTION_HEADER[16..];
    assert SECTION_HEADER == SECTION_HEADER[..16] + SECTION_HEADER[16..];
  }

  lemma Regroup<T>(a: seq<T>, b: seq<T>, c: seq<T>, d: seq<T>)
    ensures a + b + c + d == a + (b + c + d)
  {
  }

  lemma SectionHeaderFront() returns (front: seq<byte>)
    ensures front
      == [] + PutU32(LE, 0x0a0d0d0a) + PutU32(LE, 28) + PutU32(LE, 0x1a2b3c4d) + PutU16(LE, 1) + PutU16(LE, 0)
    ensures front == SECTION_HEADER[..16]
  {
    var blockType, total, magic, major, minor :=
      PutU32(LE, 0x0a0d0d0a), PutU32(LE, 28), PutU32(LE, 0x1a2b3c4d), PutU16(LE, 1), PutU16(LE, 0);
    hide PutU32, PutU16;
    SmallWords();
    front := [] + blockType + total + magic + major + minor;
    var head, tail := [] + blockType + total, magic + major + minor;
    assert head == SECTION_HEADER[..8] by { SectionStart(blockType, total); }
    assert tail == SECTION_HEADER[8..16] by { SectionVersion(magic, major, minor); }
    Regroup(head, magic, major, minor);
    assert SECTION_HEADER[..16] == SECTION_HEADER[..8] + SECTION_HEADER[8..16];
  }

  lemma SectionStart(a: seq<byte>, b: seq<byte>)
    requires a == [0x0a, 0x0d, 0x0d, 0x0a] && b == [28, 0, 0, 0]
    ensures [] + a + b == SECTION_HEADER[..8]
  {
    assert [] + a + b == [0x0a, 0x0d, 0x0d, 0x0a, 28, 0, 0, 0];
  }

  lemma SectionVersion(a: seq<byte>, b: seq<byte>, c: seq<byte>)
    requires a == [0x4d, 0x3c, 0x2b, 0x1a] && b == [1, 0] && c == [0, 0]
    ensures a + b + c == SECTION_HEADER[8..16]
  {
    assert a + b + c == [0x4d, 0x3c, 0x2b, 0x1a, 1, 0, 0, 0];
  }

  lemma SmallWords()
    ensures PutU32(LE, 0x0a0d0d0a) == [0x0a, 0x0d, 0x0d, 0x0a] && PutU32(LE, 28) == [28, 0, 0, 0]
    ensures PutU32(LE, 0x1a2b3c4d) == [0x4d, 0x3c, 0x2b, 0x1a]
    ensures PutU16(LE, 1) == [1, 0] && PutU16(LE, 0) == [0, 0]
  {
  }

  method GeneratePcapngInterfaceDescription(o: Options) returns (block: array<byte>)
    requires o.Writable()
    ensures fresh(block) && block[..] == Words(LE, InterfaceWords(o))
  {
    hide PutU32, PutU16;
    block := new byte[20](_ => 0);
    WriteU32(block, LE, 1, 0);
    WriteU32(block, LE, 20, 4);
    WriteU16(block, LE, o.linkLayerType, 8);
    WriteU16(block, LE, 0, 10);
    WriteU32(block, LE, o.snapshotLength, 12);
    WriteU32(block, LE, 20, 16);
    assert block[..0] == [] && block[..20] == block[..];
    TwoHalves(o.linkLayerType);
    FiveWords(LE, 1, 20, o.linkLayerType, o.snapshotLength, 20);
  }

  lemma TwoHalves(v: nat)
    requires v < TWO_16
    ensures forall s: seq<byte> :: s + PutU16(LE, v) + PutU16(LE, 0) == s + PutU32(LE, v)
  {
    assert PutU16(LE, v) + PutU16(LE, 0) == PutU32(LE, v);
    forall s: seq<byte> ensures s + PutU16(LE, v) + PutU16(LE, 0) == s + PutU32(LE, v) {
      AppendAssociates(s, PutU16(LE, v), PutU16(LE, 0));
    }
  }

  lemma FiveWords(e: Endian, a: u32, b: u32, c: u32, d: u32, f: u32)
    ensures Words(e, [a, b, c, d, f]) == PutU32(e, a) + PutU32(e, b) + PutU32(e, c) + PutU32(e, d) + PutU32(e, f)
  {
    hide PutU32;
    FourWords(e, b, c, d, f);
    assert [a, b, c, d, f][1..] == [b, c, d, f];
    FivePieces(PutU32(e, a), PutU32(e, b), PutU32(e, c), PutU32(e, d), PutU32(e, f));
  }

  lemma FivePieces<T>(a: seq<T>, b: seq<T>, c: seq<T>, d: seq<T>, f: seq<T>)
    ensures a + (b + c + d + f) == a + b + c + d + f
  {
    AppendAssociates(a, b + c + d, f);
    AppendAssociates(a, b + c, d);
    AppendAssociates(a, b, c);
  }

  lemma FourWords(e: Endian, a: u32, b: u32, c: u32, d: u32)
    ensures Words(e, [a, b, c, d]) == PutU32(e, a) + PutU32(e, b) + PutU32(e, c) + PutU32(e, d)
  {
    hide PutU32;
    assert [a, b, c, d][1..] == [b, c, d] && [b, c, d][1..] == [c, d] && [c, d][1..] == [d] && [d][1..] == [];
    assert Words(e, [d]) == PutU32(e, d);
    assert Words(e, [c, d]) == PutU32(e, c) + PutU32(e, d);
    assert Words(e, [b, c, d]) == PutU32(e, b) + PutU32(e, c) + PutU32(e, d);
  }

  method FillRecordHeader(seconds: u32, microseconds: u32, n: u32) returns (header: array<byte>)
    ensures fresh(header) && header[..] == Words(BE, [seconds, microseconds, n, n])
  {
    header := new byte[16](_ => 0);
    WriteU32(header, BE, seconds, 0);
    WriteU32(header, BE, microseconds, 4);
    WriteU32(header, BE, n, 8);
    WriteU32(header, BE, n, 12);
    assert header[..0] == [] && header[..16] == header[..];
    FourWords(BE, seconds, microseconds, n, n);
  }

  /** Clamp, then carry whole seconds out of the microsecond field. */
  method GeneratePcapData(p: Packet) returns (record: seq<byte>)
    requires p.Writable()
    ensures record == Record(EntryOf(p))
  {
    var c := ClockOf(p);
    var seconds, microseconds := c.seconds, c.microseconds;
    seconds := seconds + microseconds / 1_000_000;
    microseconds := microseconds % 1_000_000;
    CarryIsTicks(c);
    ghost var words := RecordWords(EntryOf(p));
    assert words == [seconds % 0x1_0000_0000, microseconds, |p.frame|, |p.frame|];
    var header := FillRecordHeader(seconds % 0x1_0000_0000, microseconds, |p.frame|);
    record := header[..] + p.frame;
  }

  lemma CarryIsTicks(c: Clock)
    ensures c.CarriedSeconds() == c.seconds + c.microseconds / 1_000_000
    ensures c.CarriedMicros() == c.microseconds % 1_000_000
  {
  }

  /** The seven leading words of an enhanced packet block, written field by field. */
  method FillEnhancedHeader(total: u32, interfaceId: u32, high: u32, low: u32, n: u32) returns (header: array<byte>)
    ensures fresh(header) && header[..] == Words(LE, [6, total, interfaceId, high, low, n, n])
  {
    hide PutU32, GetU32;
    header := new byte[28](_ => 0);
    WriteU32(header, LE, 6, 0);
    WriteU32(header, LE, total, 4);
    WriteU32(header, LE, interfaceId, 8);
    WriteU32(header, LE, high, 12);
    WriteU32(header, LE, low, 16);
    WriteU32(header, LE, n, 20);
    WriteU32(header, LE, n, 24);
    assert header[..0] == [] && header[..28] == header[..];
    SevenWords(LE, 6, total, interfaceId, high, low, n, n);
  }

  method FillTrailer(total: u32) returns (trailer: array<byte>)
    ensures fresh(trailer) && trailer[..] == PutU32(LE, total)
  {
    trailer := new byte[4](_ => 0);
    WriteU32(trailer, LE, total, 0);
    assert trailer[..0] == [] && trailer[..4] == trailer[..];
  }

  method PadTo4(frame: seq<byte>) returns (padded: seq<byte>)
    ensures padded == frame + Zeros(Padding(|frame|))
  {
    var remainder := |frame| % 4;
    padded := if remainder == 0 then frame else frame + Zeros(4 - remainder);
  }

  method GeneratePcapngEnhancedPacket(p: Packet) returns (block: seq<byte>)
    requires p.Writable()
    ensures block == EnhancedBlock(EntryOf(p))
  {
    var c := ClockOf(p);
    var ticks := c.seconds * 1_000_000 + c.microseconds;
    var padded := PadTo4(p.frame);
    var total := 28 + |padded| + 4;
    ghost var words := EnhancedWords(EntryOf(p));
    assert words == [6, total, p.interfaceId, HighWord(ticks), LowWord(ticks), |p.frame|, |p.frame|];
    var header := FillEnhancedHeader(total, p.interfaceId, HighWord(ticks), LowWord(ticks), |p.frame|);
    assert header[..] == Words(LE, words);
    var trailer := FillTrailer(total);
    AppendAssociates(header[..], p.frame, Zeros(Padding(|p.frame|)));
    block := header[..] + padded + trailer[..];
  }

  lemma SevenWords(e: Endian, a: u32, b: u32, c: u32, d: u32, f: u32, g: u32, h: u32)
    ensures Words(e, [a, b, c, d, f, g, h])
         == PutU32(e, a) + PutU32(e, b) + PutU32(e, c) + PutU32(e, d) + PutU32(e, f) + PutU32(e, g) + PutU32(e, h)
  {
    hide PutU32;
    FiveWords(e, c, d, f, g, h);
    assert [a, b, c, d, f, g, h][1..] == [b, c, d, f, g, h] && [b, c, d, f, g, h][1..] == [c, d, f, g, h];
    SevenPieces(PutU32(e, a), PutU32(e, b), PutU32(e, c), PutU32(e, d), PutU32(e, f), PutU32(e, g), PutU32(e, h));
  }

  lemma SevenPieces<T>(a: seq<T>, b: seq<T>, c: seq<T>, d: seq<T>, f: seq<T>, g: seq<T>, h: seq<T>)
    ensures a + (b + (c + d + f + g + h)) == a + b + c + d + f + g + h
  {
    AppendAssociates(a, b, c + d + f + g + h);
    AppendAssociates(a + b, c + d + f + g, h);
    AppendAssociates(a + b, c + d + f, g);
    AppendAssociates(a + b, c + d, f);
    AppendAssociates(a + b, c, d);
  }

  method GeneratePcap(ps: seq<Packet>) returns (file: seq<byte>)
    requires AllWritable(Entries(ps))
    ensures file == PcapFile(Entries(ps))
  {
    ghost var es := Entries(ps);
    var header := GeneratePcapHeader();
    file := header[..];
    for i := 0 to |ps|
      invariant file + Records(es[i..]) == PcapFile(es)
    {
      assert es[i] == EntryOf(ps[i]);
      var record := GeneratePcapData(ps[i]);
      assert es[i..][1..] == es[i + 1..];
      AppendAssociates(file, record, Records(es[i + 1..]));
      file := file + record;
    }
    AppendNil(file);
  }

  method GeneratePcapng(ps: seq<Packet>, o: Options) returns (file: seq<byte>)
    requires o.Writable() && AllWritable(Entries(ps))
    ensures file == PcapngFile(Entries(ps), o)
  {
    ghost var es := Entries(ps);
    var section := GeneratePcapSectionHeader();
    var description := GeneratePcapngInterfaceDescription(o);
    file := section[..] + description[..];
    AppendAssociates(section[..], description[..], Blocks(es));
    for i := 0 to |ps|
      invariant file + Blocks(es[i..]) == PcapngFile(es, o)
    {
      assert es[i] == EntryOf(ps[i]);
      var block := GeneratePcapngEnhancedPacket(ps[i]);
      assert es[i..][1..] == es[i + 1..];
      AppendAssociates(file, block, Blocks(es[i + 1..]));
      file := file + block;
    }
    AppendNil(file);
  }
}
