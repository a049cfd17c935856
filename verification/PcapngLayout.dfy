/**
 * pcapng files by the octets of draft-ietf-opsawg-pcapng, in either byte order: what the parser reports of any sequence
 * of sections, interfaces and packets, whatever options they carry, and which block it refuses.
 */
module PcapngLayout {
  import opened Bytes
  import opened ChunkInvariance
  import opened PcapLayout
  import opened PcapParser

  // ---- the layout ----

  /** An option of an interface description; its value is padded to four octets, and cut where the list ends. */
  datatype Opt = Opt(code: nat, value: seq<byte>)

  datatype Block =
    | Section(order: Endian, major: nat, minor: nat)
    | Interface(linkLayerType: nat, snapshotLength: nat, options: seq<Opt>)
    | Enhanced(interfaceId: nat, high: nat, low: nat, originalLength: nat, frame: seq<byte>)
    | Obsolete(interfaceId: nat, high: nat, low: nat, originalLength: nat, frame: seq<byte>)
    | Simple(originalLength: nat, frame: seq<byte>)
    | Other(kind: nat)

  /** A block and the octets it takes. */
  datatype Laid = Laid(total: nat, block: Block)

  const SECTION_TYPE: seq<byte> := [0x0a, 0x0d, 0x0d, 0x0a]

  function OrderMagic(e: Endian): seq<byte>
  {
    if e.BE? then [0x1a, 0x2b, 0x3c, 0x4d] else [0x4d, 0x3c, 0x2b, 0x1a]
  }

  /** The options from `p` on, up to an end-of-options or the end of the list. */
  predicate OptionsLie(e: Endian, s: seq<byte>, p: nat, end: nat, options: seq<Opt>)
    requires end <= |s|
    decreases |options|
  {
    if options == [] then p + 4 > end || U16(e, s, p) == 0
    else
      var o := options[0];
      && p + 4 <= end && o.code != 0 && U16(e, s, p) == o.code
      && var length := U16(e, s, p + 2);
      && |o.value| == Min(length, end - p - 4) && s[p + 4..p + 4 + |o.value|] == o.value
      && OptionsLie(e, s, p + 4 + (length + 3) / 4 * 4, end, options[1..])
  }

  /** The header every block starts with: a length that is whole words and no longer than the limit. */
  predicate Framed(e: Endian, s: seq<byte>, o: nat, total: nat)
  {
    12 <= total <= 266240 && total % 4 == 0 && o + total <= |s| && U32(e, s, o + 4) == total
  }

  predicate PacketLies(e: Endian, s: seq<byte>, o: nat, total: nat, b: Block)
    requires (b.Enhanced? || b.Obsolete?) && o + total <= |s|
  {
    && 32 + |b.frame| <= total && |b.frame| <= 262144
    && b.high == U32(e, s, o + 12) && b.low == U32(e, s, o + 16)
    && |b.frame| == U32(e, s, o + 20) && b.originalLength == U32(e, s, o + 24)
    && b.frame == s[o + 28..o + 28 + |b.frame|]
  }

  /** What a simple packet keeps of a frame: the first interface's snapshot length bounds it. */
  function SimpleLimit(described: seq<Block>): nat
  {
    if described != [] && described[0].Interface? && described[0].snapshotLength > 0 then described[0].snapshotLength
    else 262144
  }

  predicate BlockLies(listens: bool, e: Endian, s: seq<byte>, o: nat, described: seq<Block>, l: Laid)
  {
    && Framed(e, s, o, l.total)
    && var b := l.block;
    match b
    case Section(order, major, minor) =>
      && order == e && s[o..o + 4] == SECTION_TYPE && s[o + 8..o + 12] == OrderMagic(e)
      && (listens ==> l.total >= 16 && major == U16(e, s, o + 12) && minor == U16(e, s, o + 14))
    case Interface(link, snap, options) =>
      && l.total >= 16 && U32(e, s, o) == 1 && link == U16(e, s, o + 8) && snap == U32(e, s, o + 12)
      && OptionsLie(e, s, o + 16, o + l.total - 4, options)
    case Enhanced(id, _, _, _, _) =>
      PacketLies(e, s, o, l.total, b) && U32(e, s, o) == 6 && id == U32(e, s, o + 8)
    case Obsolete(id, _, _, _, _) =>
      PacketLies(e, s, o, l.total, b) && U32(e, s, o) == 2 && id == U16(e, s, o + 8)
    case Simple(original, frame) =>
      && l.total >= 16 && U32(e, s, o) == 3 && original == U32(e, s, o + 8)
      && |frame| == Min(Min(original, l.total - 16), SimpleLimit(described))
      && |frame| <= 262144 && frame == s[o + 12..o + 12 + |frame|]
    case Other(kind) => kind == U32(e, s, o) && kind !in {1, 2, 3, 6, 0x0a0d0d0a}
  }

  function OrderAfter(e: Option<Endian>, b: Block): Option<Endian>
  {
    if b.Section? then Some(b.order) else e
  }

  /** The interfaces of the section, in the order of their numbers. */
  function DescribedAfter(described: seq<Block>, b: Block): seq<Block>
  {
    if b.Section? then [] else if b.Interface? then described + [b] else described
  }

  /** The byte order of the block at `o`: a section header's own, else the one in force. */
  predicate OrderHere(e: Option<Endian>, s: seq<byte>, o: nat, order: Endian)
    requires o + 12 <= |s|
  {
    if s[o..o + 4] == SECTION_TYPE then s[o + 8..o + 12] == OrderMagic(order) else e == Some(order)
  }

  /** A whole block at `o`, of this type. */
  predicate Typed(e: Option<Endian>, s: seq<byte>, o: nat, order: Endian, total: nat, kinds: set<nat>)
    requires o + 12 <= |s|
  {
    OrderHere(e, s, o, order) && Framed(order, s, o, total) && U32(order, s, o) in kinds
  }

  /** The octets from `o` on make the parser refuse the file. */
  ghost predicate Refuses(e: Option<Endian>, s: seq<byte>, o: nat, described: seq<Block>, error: ParseError)
  {
    && o + 12 <= |s|
    && match error
       case BlockBeforeSection => e.None? && s[o..o + 4] != SECTION_TYPE
       case UnknownByteOrderMagic(magic) =>
         s[o..o + 4] == SECTION_TYPE && magic == s[o + 8..o + 12] && magic != OrderMagic(BE) && magic != OrderMagic(LE)
       case InvalidBlockLength(n) =>
         exists order :: OrderHere(e, s, o, order) && n == U32(order, s, o + 4) && (n < 12 || n % 4 != 0)
       case BlockTooLong(n) =>
         exists order :: OrderHere(e, s, o, order) && n == U32(order, s, o + 4) && n % 4 == 0 && n > 266240
       case CaptureDoesNotFitBlock(captured, n) =>
         exists order :: Typed(e, s, o, order, n, {2, 6}) && n >= 28 && captured == U32(order, s, o + 20)
           && (captured > 262144 || captured + 32 > n)
       case InvalidSimplePacket(kept) =>
         exists order, n: nat :: Typed(e, s, o, order, n, {3})
           && kept == Min(Min(U32(order, s, o + 8), n - 16), SimpleLimit(described)) && (kept < 0 || kept > 262144)
       case _ => false
  }

  /** Only the start of a block has arrived at `o`. */
  predicate Unfinished(e: Option<Endian>, s: seq<byte>, o: nat)
  {
    o <= |s| &&
    (o + 12 <= |s| ==>
       exists order ::
         OrderHere(e, s, o, order) && 12 <= U32(order, s, o + 4) <= 266240 && U32(order, s, o + 4) % 4 == 0
         && |s| < o + U32(order, s, o + 4))
  }

  /** The blocks lie one behind the other from `o` on; then the octets end, or one follows that is refused. */
  ghost predicate BlocksLie(listens: bool, e: Option<Endian>, s: seq<byte>, o: nat, described: seq<Block>,
                            ls: seq<Laid>, error: Option<ParseError>)
    decreases |ls|
  {
    if ls == [] then if error.Some? then Refuses(e, s, o, described, error.value) else Unfinished(e, s, o)
    else
      var e' := OrderAfter(e, ls[0].block);
      && e'.Some? && BlockLies(listens, e'.value, s, o, described, ls[0])
      && BlocksLie(listens, e', s, o + ls[0].total, DescribedAfter(described, ls[0].block), ls[1..], error)
  }

  /** A pcapng file: it starts with a section header, and its blocks lie from the start on. */
  ghost predicate FileLies(listens: bool, s: seq<byte>, ls: seq<Laid>, error: Option<ParseError>)
  {
    |s| >= 4 && s[..4] == SECTION_TYPE && BlocksLie(listens, None, s, 0, [], ls, error)
  }

  /** An option list, its values padded with zeros. */
  function PrintOptions(e: Endian, options: seq<Opt>): seq<byte>
    requires forall o :: o in options ==> o.code < 0x1_0000 && |o.value| < 0x1_0000
  {
    if options == [] then []
    else
      var o := options[0];
      assert o in options;
      PutU16(e, o.code) + PutU16(e, |o.value|) + o.value + Zeros((|o.value| + 3) / 4 * 4 - |o.value|)
        + PrintOptions(e, options[1..])
  }

  /** Any options are found in their printed list, wherever it stands. */
  lemma {:induction false} PrintedLie(e: Endian, before: seq<byte>, options: seq<Opt>)
    requires forall o :: o in options ==> 0 < o.code < 0x1_0000 && |o.value| < 0x1_0000
    ensures var s := before + PrintOptions(e, options); OptionsLie(e, s, |before|, |s|, options)
    decreases |options|
  {
    hide PutU16, U16, OptionsLie;
    if options == [] {
      NoneLie(e, before + [], |before|);
    } else {
      var o := options[0];
      assert o in options;
      var pad, rest := Zeros((|o.value| + 3) / 4 * 4 - |o.value|), PrintOptions(e, options[1..]);
      var a, b := PutU16(e, o.code), PutU16(e, |o.value|);
      PrintedLie(e, before + a + b + o.value + pad, options[1..]);
      FiveParts(before, a, b, o.value, pad, rest);
      PlacesOf(e, before, a, b, o.value, pad + rest);
      PutReads(e, o.code);
      PutReads(e, |o.value|);
      var s := before + PrintOptions(e, options);
      MoreLie(e, s, |before|, |s|, options);
    }
  }

  lemma NoneLie(e: Endian, s: seq<byte>, p: nat)
    requires p == |s|
    ensures OptionsLie(e, s, p, |s|, [])
  {
  }

  lemma MoreLie(e: Endian, s: seq<byte>, p: nat, end: nat, options: seq<Opt>)
    requires options != [] && end <= |s| && p + 4 + |options[0].value| <= end && options[0].code != 0
    requires U16(e, s, p) == options[0].code && U16(e, s, p + 2) == |options[0].value|
    requires s[p + 4..p + 4 + |options[0].value|] == options[0].value
    requires OptionsLie(e, s, p + 4 + (|options[0].value| + 3) / 4 * 4, end, options[1..])
    ensures OptionsLie(e, s, p, end, options)
  {
    hide U16;
  }

  lemma FiveParts(before: seq<byte>, a: seq<byte>, b: seq<byte>, c: seq<byte>, d: seq<byte>, rest: seq<byte>)
    ensures before + (a + b + c + d + rest) == before + a + b + c + d + rest == before + a + b + c + (d + rest)
  {
  }

  lemma PutReads(e: Endian, v: nat)
    requires v < 0x1_0000
    ensures U16(e, PutU16(e, v), 0) == v
  {
  }

  lemma PlacesOf(e: Endian, before: seq<byte>, a: seq<byte>, b: seq<byte>, value: seq<byte>, rest: seq<byte>)
    requires |a| == 2 && |b| == 2
    ensures var s, p := before + a + b + value + rest, |before|;
      && U16(e, s, p) == U16(e, a, 0) && U16(e, s, p + 2) == U16(e, b, 0)
      && s[p + 4..p + 4 + |value|] == value
  {
    var s, p := before + a + b + value + rest, |before|;
    assert s[p] == a[0] && s[p + 1] == a[1] && s[p + 2] == b[0] && s[p + 3] == b[1];
  }

  // ---- what is reported ----

  function Power(b: nat, n: nat): (p: nat)
    ensures b > 0 ==> p > 0
  {
    if n == 0 then 1 else Power(b, n - 1) * b
  }

  /** The value of the last if_tsresol, microseconds for want of one. */
  function ResolutionOf(options: seq<Opt>): nat
  {
    if options == [] then 6
    else
      var last := options[|options| - 1];
      if last.code == 9 && last.value != [] then last.value[0] else ResolutionOf(options[..|options| - 1])
  }

  /** Ticks a second: a power of ten, or of two when the high bit is set. */
  function Unit(resolution: nat): (d: nat)
    ensures d > 0
  {
    if resolution < 128 then Power(10, resolution) else Power(2, resolution - 128)
  }

  /** The tick counter in whole seconds, and the whole micro- and nanoseconds of it within the second. */
  function TimeOf(ticks: nat, d: nat): Timestamp
    requires d > 0
  {
    Timestamp(Floor(ticks, 1, d), Floor(ticks, 1_000_000, d) % 1_000_000,
              Floor(ticks, 1_000_000_000, d) % 1_000_000_000)
  }

  /** The whole part of ticks * scale / d. */
  function Floor(ticks: nat, scale: nat, d: nat): nat
    requires d > 0
  {
    FloorIsNat(ticks, scale, d);
    ticks * scale / d
  }

  lemma FloorIsNat(ticks: nat, scale: nat, d: nat)
    requires d > 0
    ensures ticks * scale / d >= 0
  {
    var product: nat := ticks * scale;
    DivMod(product, d);
  }

  /** A packet of an interface the section does not describe counts microseconds. */
  function UnitOf(described: seq<Block>, id: nat): (d: nat)
    ensures d > 0
  {
    if id < |described| && described[id].Interface? then Unit(ResolutionOf(described[id].options)) else Unit(6)
  }

  function BlockReports(listens: bool, described: seq<Block>, offset: nat, count: nat, l: Laid): seq<Event>
  {
    match l.block
    case Section(_, major, minor) => if listens then [SectionHeader(major, minor)] else []
    case Enhanced(id, high, low, original, frame) =>
      PacketReports(count, offset, l.total, 28, TimeOf(high * 0x1_0000_0000 + low, UnitOf(described, id)), original,
                    frame)
    case Obsolete(id, high, low, original, frame) =>
      PacketReports(count, offset, l.total, 28, TimeOf(high * 0x1_0000_0000 + low, UnitOf(described, id)), original,
                    frame)
    case Simple(original, frame) =>
      PacketReports(count, offset, l.total, 12, Timestamp(0, 0, 0), original, frame)
    case _ => []
  }

  predicate IsPacket(b: Block) { b.Enhanced? || b.Obsolete? || b.Simple? }

  function CountAfter(count: nat, b: Block): nat { if IsPacket(b) then count + 1 else count }

  function Reports(listens: bool, described: seq<Block>, offset: nat, count: nat, ls: seq<Laid>): seq<Event>
    decreases |ls|
  {
    if ls == [] then []
    else
      BlockReports(listens, described, offset, count, ls[0])
        + Reports(listens, DescribedAfter(described, ls[0].block), offset + ls[0].total, CountAfter(count, ls[0].block),
                  ls[1..])
  }

  function Closing(error: Option<ParseError>): seq<Event>
  {
    if error.Some? then [Error(error.value), End] else []
  }

  // ---- integers and options as the parser reads them ----

  /** An interface whose if_tsresol so far is this value. */
  function Resolved(ni: NgInterface, resolution: nat): NgInterface
  {
    if resolution < 128 then ni.(base := 10, exponent := resolution)
    else ni.(base := 2, exponent := resolution - 128)
  }

  /** The resolution after more options. */
  function ResolutionAfter(resolution: nat, options: seq<Opt>): nat
    decreases |options|
  {
    if options == [] then resolution
    else
      var o := options[0];
      ResolutionAfter(if o.code == 9 && o.value != [] then o.value[0] else resolution, options[1..])
  }

  lemma {:induction false} ResolutionSnoc(resolution: nat, options: seq<Opt>, last: Opt)
    ensures ResolutionAfter(resolution, options + [last])
         == if last.code == 9 && last.value != [] then last.value[0] else ResolutionAfter(resolution, options)
    decreases |options|
  {
    if options != [] {
      assert (options + [last])[1..] == options[1..] + [last];
      var o := options[0];
      ResolutionSnoc(if o.code == 9 && o.value != [] then o.value[0] else resolution, options[1..], last);
    }
  }

  lemma {:induction false} LastCounts(options: seq<Opt>)
    ensures ResolutionAfter(6, options) == ResolutionOf(options)
    decreases |options|
  {
    if options != [] {
      var front, last := options[..|options| - 1], options[|options| - 1];
      LastCounts(front);
      ResolutionSnoc(6, front, last);
      assert options == front + [last];
    }
  }

  lemma {:induction false} OptionsRead(e: Endian, s: seq<byte>, o: nat, p: nat, end: nat, options: seq<Opt>,
                                       ni: NgInterface, resolution: nat)
    requires o <= p && o <= end <= |s| && OptionsLie(e, s, p, end, options)
    requires ni == Resolved(ni, resolution)
    ensures InterfaceOptions(e, s[o..], p - o, end - o, ni) == Resolved(ni, ResolutionAfter(resolution, options))
    decreases |options|
  {
    hide GetU16, U16, ApplyOption;
    if p + 4 <= end {
      Reads16(e, s, o, p - o);
      Reads16(e, s, o, p - o + 2);
    }
    if options != [] {
      var opt, length := options[0], U16(e, s, p + 2);
      var position := p + 4 + (length + 3) / 4 * 4;
      var resolved := if opt.code == 9 && opt.value != [] then opt.value[0] else resolution;
      OptionRead(s, o, p, end, length, opt, ni);
      OptionsRead(e, s, o, position, end, options[1..], ApplyOption(s[o..], p - o, end - o, opt.code, length, ni),
                  resolved);
    }
  }

  lemma OptionRead(s: seq<byte>, o: nat, p: nat, end: nat, length: nat, opt: Opt, ni: NgInterface)
    requires o <= p && p + 4 <= end <= |s|
    requires |opt.value| == Min(length, end - p - 4) && s[p + 4..p + 4 + |opt.value|] == opt.value
    ensures ApplyOption(s[o..], p - o, end - o, opt.code, length, ni)
         == if opt.code == 9 && opt.value != [] then Resolved(ni, opt.value[0]) else ni
  {
    if opt.value != [] { assert opt.value[0] == s[p + 4] == s[o..][p - o + 4]; }
  }

  // ---- timestamps ----

  lemma {:induction false} PowersAgree(b: nat, n: nat)
    ensures Pow(b, n) == Power(b, n)
    decreases n
  {
    if n > 0 { PowersAgree(b, n - 1); }
  }

  /** Scaling the fraction of a second is scaling the whole counter and leaving the seconds out. */
  lemma FractionOf(ticks: nat, unit: nat, d: nat)
    requires d > 0 && unit > 0
    ensures ticks % d >= 0 && ticks % d * unit / d == ticks * unit / d % unit
    ensures ticks / d == ticks * 1 / d
  {
    var q, r := ticks / d, ticks % d;
    DivMod(ticks, d);
    var f: nat := r * unit;
    var g := f / d;
    DivMod(f, d);
    Rearranged(ticks, q, r, d, unit);
    QuotientUnique(ticks * unit, d, q * unit + g, f % d);
    BelowUnit(r, unit, d);
    QuotientUnique(q * unit + g, unit, q, g);
  }

  lemma Rearranged(ticks: nat, q: int, r: int, d: nat, unit: nat)
    requires d > 0 && ticks == q * d + r && 0 <= r
    ensures r * unit >= 0
    ensures var f: nat := r * unit; ticks * unit == (q * unit + f / d) * d + f % d
  {
    var f: nat := r * unit;
    DivMod(f, d);
    assert ticks * unit == q * d * unit + f;
    assert q * d * unit == q * unit * d;
    assert (q * unit + f / d) * d == q * unit * d + f / d * d;
  }

  lemma BelowUnit(r: nat, unit: nat, d: nat)
    requires r < d && unit > 0
    ensures 0 <= r * unit / d < unit
  {
    var f: nat := r * unit;
    DivMod(f, d);
    TimesMonotone(unit, f / d, d);
    TimesStrict(r, d, unit);
  }

  lemma TimesMonotone(a: nat, b: nat, d: nat)
    ensures a <= b ==> a * d <= b * d
  {
  }

  lemma TimesStrict(a: nat, b: nat, d: nat)
    requires a < b && d > 0
    ensures a * d < b * d
  {
  }

  lemma TimestampReads(ni: NgInterface, resolution: nat, high: nat, low: nat)
    requires ni == Resolved(ni, resolution)
    ensures NgTimestamp(ni, high, low) == TimeOf(high * 0x1_0000_0000 + low, Unit(resolution))
  {
    hide Pow, Power;
    var ticks, d := high * 0x1_0000_0000 + low, Unit(resolution);
    PowersAgree(10, resolution);
    if resolution >= 128 { PowersAgree(2, resolution - 128); }
    assert Pow(if ni.base == 2 then 2 else 10, ni.exponent) == d;
    FractionOf(ticks, 1_000_000, d);
    FractionOf(ticks, 1_000_000_000, d);
  }

  // ---- one block ----

  /** An interface as the parser keeps it. */
  function Kept(b: Block): NgInterface
    requires b.Interface?
  {
    Resolved(NgInterface(b.linkLayerType, b.snapshotLength, 10, 6), ResolutionOf(b.options))
  }

  /** The parser's interfaces are those described in the section. */
  predicate Known(interfaces: seq<NgInterface>, described: seq<Block>)
  {
    |interfaces| == |described|
    && forall k :: 0 <= k < |described| ==> described[k].Interface? && interfaces[k] == Kept(described[k])
  }

  /** The parser is about to read the block at `o`. */
  predicate Reaches(st: State, listens: bool, e: Option<Endian>, s: seq<byte>, o: nat, described: seq<Block>,
                    count: nat)
  {
    && st.phase.ParseNgBlock? && !st.errored && st.sectionHandler == listens && st.endianness == e
    && o <= |s| && st.buffer == s[o..] && st.offset == o && st.index == count && Known(st.interfaces, described)
  }

  /** The byte order and extent of the block are found as laid out. */
  lemma FrameReads(st: State, e: Endian, s: seq<byte>, o: nat, total: nat)
    requires st.phase.ParseNgBlock? && o <= |s| && st.buffer == s[o..] && Framed(e, s, o, total)
    requires if s[o..o + 4] == SECTION_TYPE then s[o + 8..o + 12] == OrderMagic(e) else st.endianness == Some(e)
    ensures NgFrame(st) == Complete(st.(endianness := Some(e)), e, total)
  {
    hide GetU32;
    var head := st.buffer[..12];
    SliceOfSlice(s, o, |s|, 0, 4);
    SliceOfSlice(s, o, |s|, 8, 12);
    assert s[o..] == s[o..|s|];
    assert head[..4] == st.buffer[0..4] && head[8..] == st.buffer[8..12];
    Reads32(e, s, o, 4);
  }

  lemma TypeReads(e: Endian, s: seq<byte>, o: nat)
    requires o + 4 <= |s|
    ensures GetU32(e, s[o..], 0) == U32(e, s, o)
    ensures U32(e, s, o) == 0x0a0d0d0a <==> s[o..o + 4] == SECTION_TYPE
  {
    Reads32(e, s, o, 0);
    var t := s[o..o + 4];
    assert t == [s[o], s[o + 1], s[o + 2], s[o + 3]];
  }

  lemma SectionBody(st: State, listens: bool, e: Endian, s: seq<byte>, o: nat, described: seq<Block>, l: Laid)
    requires o <= |s| && st.buffer == s[o..] && st.sectionHandler == listens && st.offset == o
    requires l.block.Section? && BlockLies(listens, e, s, o, described, l)
    ensures NgBody(st, e, l.total)
         == StepResult(Go, st.(interfaces := [], buffer := s[o + l.total..], offset := o + l.total),
                       BlockReports(listens, described, o, st.index, l))
    ensures FixedLength(listens, GetU32(e, st.buffer, 0)) <= l.total
  {
    hide GetU32, GetU16;
    TypeReads(e, s, o);
    Rest(s, o, l.total);
    if listens {
      Reads16(e, s, o, 12);
      Reads16(e, s, o, 14);
    }
  }

  lemma DescriptionReads(e: Endian, s: seq<byte>, o: nat, total: nat, b: Block)
    requires o + total <= |s| && total >= 16
    requires b.Interface? && b.linkLayerType == U16(e, s, o + 8) && b.snapshotLength == U32(e, s, o + 12)
    requires OptionsLie(e, s, o + 16, o + total - 4, b.options)
    ensures DescribedInterface(e, s[o..], total) == Kept(b)
  {
    hide GetU32, GetU16, U16, U32, InterfaceOptions, OptionsLie;
    Reads16(e, s, o, 8);
    Reads32(e, s, o, 12);
    OptionsRead(e, s, o, o + 16, o + total - 4, b.options, NgInterface(b.linkLayerType, b.snapshotLength, 10, 6), 6);
    LastCounts(b.options);
  }

  lemma InterfaceBody(st: State, listens: bool, e: Endian, s: seq<byte>, o: nat, described: seq<Block>, l: Laid)
    requires o <= |s| && st.buffer == s[o..] && st.sectionHandler == listens && st.offset == o
    requires l.block.Interface? && BlockLies(listens, e, s, o, described, l)
    ensures NgBody(st, e, l.total)
         == StepResult(Go, st.(interfaces := st.interfaces + [Kept(l.block)], buffer := s[o + l.total..],
                               offset := o + l.total), [])
    ensures FixedLength(listens, GetU32(e, st.buffer, 0)) <= l.total
  {
    hide GetU32, GetU16, U16, U32, DescribedInterface, Kept, OptionsLie;
    TypeReads(e, s, o);
    Rest(s, o, l.total);
    DescriptionReads(e, s, o, l.total, l.block);
  }

  lemma UnitReads(interfaces: seq<NgInterface>, described: seq<Block>, id: nat, high: nat, low: nat)
    requires Known(interfaces, described)
    ensures NgTimestamp(InterfaceOf(interfaces, id), high, low)
         == TimeOf(high * 0x1_0000_0000 + low, UnitOf(described, id))
  {
    hide Unit, TimeOf, NgTimestamp, ResolutionOf;
    if id < |described| {
      TimestampReads(interfaces[id], ResolutionOf(described[id].options), high, low);
    } else {
      TimestampReads(DEFAULT_INTERFACE, 6, high, low);
    }
  }

  /** A packet block with a timestamp, whatever the width of its interface number. */
  lemma PacketBody(st: State, e: Endian, s: seq<byte>, o: nat, described: seq<Block>, l: Laid, id: nat)
    requires o <= |s| && st.buffer == s[o..] && st.offset == o && Known(st.interfaces, described)
    requires (l.block.Enhanced? || l.block.Obsolete?) && Framed(e, s, o, l.total) && id == l.block.interfaceId
    requires PacketLies(e, s, o, l.total, l.block)
    ensures l.total >= 28
    ensures var b := l.block;
      var t := TimeOf(b.high * 0x1_0000_0000 + b.low, UnitOf(described, id));
      BlockTimestamp(st, e, id) == t
      && EnhancedPacket(st, e, l.total, t)
         == StepResult(Go, st.(index := st.index + 1, buffer := s[o + l.total..], offset := o + l.total,
                               current := RecordHeader(t.seconds, t.microseconds, t.nanoseconds, |b.frame|,
                                                       b.originalLength)),
                       PacketReports(st.index, o, l.total, 28, t, b.originalLength, b.frame))
  {
    hide GetU32, U32, TimeOf, NgTimestamp, InterfaceOf, Known, UnitOf;
    var b := l.block;
    Rest(s, o, l.total);
    Reads32(e, s, o, 12);
    Reads32(e, s, o, 16);
    Reads32(e, s, o, 20);
    Reads32(e, s, o, 24);
    UnitReads(st.interfaces, described, id, b.high, b.low);
    SliceOfSlice(s, o, |s|, 28, 28 + |b.frame|);
    assert s[o..] == s[o..|s|];
  }

  lemma LimitReads(interfaces: seq<NgInterface>, described: seq<Block>)
    requires Known(interfaces, described)
    ensures var snap := InterfaceOf(interfaces, 0).snapshotLength;
      (if snap > 0 then snap else MAX_CAPTURED_LENGTH) == SimpleLimit(described)
  {
  }

  lemma SimpleBody(st: State, listens: bool, e: Endian, s: seq<byte>, o: nat, described: seq<Block>, l: Laid)
    requires o <= |s| && st.buffer == s[o..] && st.offset == o && Known(st.interfaces, described)
    requires l.block.Simple? && BlockLies(listens, e, s, o, described, l)
    ensures var b := l.block;
      SimplePacket(st, e, l.total)
         == StepResult(Go, st.(index := st.index + 1, buffer := s[o + l.total..], offset := o + l.total,
                               current := RecordHeader(0, 0, 0, |b.frame|, b.originalLength)),
                       PacketReports(st.index, o, l.total, 12, Timestamp(0, 0, 0), b.originalLength, b.frame))
  {
    hide GetU32, U32, Known, SimpleLimit, InterfaceOf;
    var b := l.block;
    Rest(s, o, l.total);
    Reads32(e, s, o, 8);
    LimitReads(st.interfaces, described);
    SliceOfSlice(s, o, |s|, 12, 12 + |b.frame|);
    assert s[o..] == s[o..|s|];
  }

  /** The parser once it has read the block. */
  predicate WentOn(r: StepResult, listens: bool, e: Endian, s: seq<byte>, o: nat, described: seq<Block>, count: nat,
                   l: Laid)
  {
    && r.outcome.Go? && r.events == BlockReports(listens, described, o, count, l)
    && Reaches(r.state, listens, Some(e), s, o + l.total, DescribedAfter(described, l.block),
               CountAfter(count, l.block))
  }

  lemma PacketWentOn(st: State, listens: bool, e: Endian, s: seq<byte>, o: nat, described: seq<Block>, count: nat,
                     l: Laid)
    requires Reaches(st, listens, Some(e), s, o, described, count) && BlockLies(listens, e, s, o, described, l)
    requires l.block.Enhanced? || l.block.Obsolete?
    ensures WentOn(NgBody(st, e, l.total), listens, e, s, o, described, count, l)
    ensures FixedLength(listens, GetU32(e, st.buffer, 0)) <= l.total
  {
    hide GetU32, GetU16, TimeOf, BlockTimestamp, EnhancedPacket, PacketLies, UnitOf, Known, PacketReports;
    TypeReads(e, s, o);
    PacketBody(st, e, s, o, described, l, l.block.interfaceId);
    if l.block.Enhanced? { Reads32(e, s, o, 8); } else { Reads16(e, s, o, 8); }
  }

  lemma PlainWentOn(st: State, listens: bool, e: Endian, s: seq<byte>, o: nat, described: seq<Block>, count: nat,
                    l: Laid)
    requires Reaches(st, listens, Some(e), s, o, described, count) && BlockLies(listens, e, s, o, described, l)
    requires l.block.Section? || l.block.Interface? || l.block.Other?
    ensures WentOn(NgBody(st, e, l.total), listens, e, s, o, described, count, l)
    ensures FixedLength(listens, GetU32(e, st.buffer, 0)) <= l.total
  {
    hide GetU32, GetU16, OptionsLie, DescribedInterface, Kept;
    TypeReads(e, s, o);
    Rest(s, o, l.total);
    if l.block.Section? {
      SectionBody(st, listens, e, s, o, described, l);
    } else if l.block.Interface? {
      InterfaceBody(st, listens, e, s, o, described, l);
    }
  }

  lemma BodyReads(st: State, listens: bool, e: Endian, s: seq<byte>, o: nat, described: seq<Block>, count: nat, l: Laid)
    requires Reaches(st, listens, Some(e), s, o, described, count) && BlockLies(listens, e, s, o, described, l)
    ensures WentOn(NgBody(st, e, l.total), listens, e, s, o, described, count, l)
    ensures FixedLength(listens, GetU32(e, st.buffer, 0)) <= l.total
  {
    match l.block
    case Enhanced(_, _, _, _, _) => PacketWentOn(st, listens, e, s, o, described, count, l);
    case Obsolete(_, _, _, _, _) => PacketWentOn(st, listens, e, s, o, described, count, l);
    case Simple(_, _) => SimpleWentOn(st, listens, e, s, o, described, count, l);
    case _ => PlainWentOn(st, listens, e, s, o, described, count, l);
  }

  lemma SimpleWentOn(st: State, listens: bool, e: Endian, s: seq<byte>, o: nat, described: seq<Block>, count: nat,
                     l: Laid)
    requires Reaches(st, listens, Some(e), s, o, described, count) && BlockLies(listens, e, s, o, described, l)
    requires l.block.Simple?
    ensures WentOn(NgBody(st, e, l.total), listens, e, s, o, described, count, l)
    ensures FixedLength(listens, GetU32(e, st.buffer, 0)) <= l.total
  {
    hide GetU32, GetU16, SimplePacket, Known, PacketReports, SimpleLimit;
    TypeReads(e, s, o);
    SimpleBody(st, listens, e, s, o, described, l);
  }

  lemma StepReads(st: State, listens: bool, e: Option<Endian>, s: seq<byte>, o: nat, described: seq<Block>, count: nat,
                  l: Laid)
    requires Reaches(st, listens, e, s, o, described, count)
    requires OrderAfter(e, l.block).Some? && BlockLies(listens, OrderAfter(e, l.block).value, s, o, described, l)
    ensures WentOn(Step(st), listens, OrderAfter(e, l.block).value, s, o, described, count, l) && !Undersized(st)
  {
    hide GetU32, NgBody, WentOn, Known, PacketLies, OptionsLie, SimpleLimit;
    var order := OrderAfter(e, l.block).value;
    TypeReads(order, s, o);
    FrameReads(st, order, s, o, l.total);
    BodyReads(st.(endianness := Some(order)), listens, order, s, o, described, count, l);
  }

  // ---- refusals ----

  predicate Refused(r: StepResult, error: ParseError)
  {
    r.outcome.Stop? && r.state.errored && r.events == [Error(error), End]
  }

  /** What the frame of a block is read as, in the byte order found. */
  lemma HeadReads(st: State, e: Option<Endian>, s: seq<byte>, o: nat, order: Endian)
    requires st.phase.ParseNgBlock? && o + 12 <= |s| && st.buffer == s[o..] && st.endianness == e
    requires OrderHere(e, s, o, order)
    ensures NgFrame(st) == CheckLength(st.(endianness := Some(order)), order)
    ensures GetU32(order, st.buffer, 4) == U32(order, s, o + 4)
  {
    hide GetU32;
    HeadSlices(s, o);
    Reads32(order, s, o, 4);
  }

  lemma HeadSlices(s: seq<byte>, o: nat)
    requires o + 12 <= |s|
    ensures s[o..][..12][..4] == s[o..o + 4] && s[o..][..12][8..] == s[o + 8..o + 12]
  {
    assert s[o..] == s[o..|s|];
    SliceOfSlice(s, o, |s|, 0, 4);
    SliceOfSlice(s, o, |s|, 8, 12);
    var head := s[o..][..12];
    assert head[..4] == s[o..][0..4] && head[8..] == s[o..][8..12];
  }

  lemma OrderRefused(st: State, e: Option<Endian>, s: seq<byte>, o: nat, described: seq<Block>, error: ParseError)
    requires st.phase.ParseNgBlock? && !st.errored && o <= |s| && st.buffer == s[o..] && st.endianness == e
    requires Refuses(e, s, o, described, error) && (error.BlockBeforeSection? || error.UnknownByteOrderMagic?)
    ensures Refused(Step(st), error) && !Undersized(st)
  {
    hide GetU32, CheckLength, NgBody;
    HeadSlices(s, o);
  }

  lemma LengthRefused(st: State, e: Option<Endian>, s: seq<byte>, o: nat, described: seq<Block>, error: ParseError)
    requires st.phase.ParseNgBlock? && !st.errored && o <= |s| && st.buffer == s[o..] && st.endianness == e
    requires Refuses(e, s, o, described, error) && (error.InvalidBlockLength? || error.BlockTooLong?)
    ensures Refused(Step(st), error) && !Undersized(st)
  {
    hide GetU32, NgBody, NgFrame, OrderHere, U32;
    var order :| OrderHere(e, s, o, order) && U32(order, s, o + 4) == error.blockLength
      && if error.BlockTooLong? then error.blockLength % 4 == 0 && error.blockLength > 266240
         else error.blockLength < 12 || error.blockLength % 4 != 0;
    HeadReads(st, e, s, o, order);
  }

  lemma CaptureRefused(st: State, e: Option<Endian>, s: seq<byte>, o: nat, described: seq<Block>, error: ParseError)
    requires st.phase.ParseNgBlock? && !st.errored && o <= |s| && st.buffer == s[o..] && st.endianness == e
    requires Refuses(e, s, o, described, error) && error.CaptureDoesNotFitBlock?
    ensures Refused(Step(st), error) && !Undersized(st)
  {
    hide GetU32, GetU16, NgFrame, OrderHere, U32, BlockTimestamp;
    var n := error.blockLength;
    var order :| Typed(e, s, o, order, n, {2, 6}) && error.capturedLength == U32(order, s, o + 20);
    HeadReads(st, e, s, o, order);
    TypeReads(order, s, o);
    Reads32(order, s, o, 20);
    assert NgFrame(st) == Complete(st.(endianness := Some(order)), order, n);
  }

  lemma SimpleRefused(st: State, e: Option<Endian>, s: seq<byte>, o: nat, described: seq<Block>, error: ParseError)
    requires st.phase.ParseNgBlock? && !st.errored && o <= |s| && st.buffer == s[o..] && st.endianness == e
    requires Known(st.interfaces, described)
    requires Refuses(e, s, o, described, error) && error.InvalidSimplePacket?
    ensures Refused(Step(st), error) && !Undersized(st)
  {
    hide GetU32, GetU16, NgFrame, OrderHere, U32, SimpleLimit, Known;
    var order, n: nat :| Typed(e, s, o, order, n, {3})
      && error.length == Min(Min(U32(order, s, o + 8), n - 16), SimpleLimit(described));
    HeadReads(st, e, s, o, order);
    TypeReads(order, s, o);
    Reads32(order, s, o, 8);
    LimitReads(st.interfaces, described);
    assert NgFrame(st) == Complete(st.(endianness := Some(order)), order, n);
  }

  lemma UnfinishedWaits(st: State, e: Option<Endian>, s: seq<byte>, o: nat)
    requires st.phase.ParseNgBlock? && o <= |s| && st.buffer == s[o..] && st.endianness == e && Unfinished(e, s, o)
    ensures Step(st).outcome.Stop? && Step(st).events == [] && !Undersized(st)
  {
    hide GetU32, NgBody, U32, OrderHere;
    if o + 12 <= |s| {
      var order :| OrderHere(e, s, o, order) && 12 <= U32(order, s, o + 4) <= 266240
        && U32(order, s, o + 4) % 4 == 0 && |s| < o + U32(order, s, o + 4);
      HeadReads(st, e, s, o, order);
    }
  }

  lemma RefusalReads(st: State, e: Option<Endian>, s: seq<byte>, o: nat, described: seq<Block>, error: ParseError)
    requires st.phase.ParseNgBlock? && !st.errored && o <= |s| && st.buffer == s[o..] && st.endianness == e
    requires Known(st.interfaces, described) && Refuses(e, s, o, described, error)
    ensures Refused(Step(st), error) && !Undersized(st)
  {
    hide Step, Undersized, Known, Refused;
    if error.BlockBeforeSection? || error.UnknownByteOrderMagic? {
      OrderRefused(st, e, s, o, described, error);
    } else if error.InvalidBlockLength? || error.BlockTooLong? {
      LengthRefused(st, e, s, o, described, error);
    } else if error.CaptureDoesNotFitBlock? {
      CaptureRefused(st, e, s, o, described, error);
    } else {
      SimpleRefused(st, e, s, o, described, error);
    }
  }

  // ---- whole files ----

  lemma {:induction false} BlocksRead(st: State, listens: bool, e: Option<Endian>, s: seq<byte>, o: nat,
                                      described: seq<Block>, count: nat, ls: seq<Laid>, error: Option<ParseError>)
    requires Reaches(st, listens, e, s, o, described, count) && BlocksLie(listens, e, s, o, described, ls, error)
    ensures Drain(st).events == Reports(listens, described, o, count, ls) + Closing(error) && Sized(st)
    decreases |ls|
  {
    hide Step, Undersized, Drain, Sized, Known, BlockLies, BlockReports, Refuses, Unfinished;
    if ls == [] {
      if error.Some? {
        RefusalReads(st, e, s, o, described, error.value);
      } else {
        UnfinishedWaits(st, e, s, o);
      }
      StopDrains(st);
      AppendNil(Closing(error));
    } else {
      var l := ls[0];
      var described', count' := DescribedAfter(described, l.block), CountAfter(count, l.block);
      StepReads(st, listens, e, s, o, described, count, l);
      GoDrains(st);
      BlocksRead(Step(st).state, listens, OrderAfter(e, l.block), s, o + l.total, described', count', ls[1..], error);
      AppendAssociates(BlockReports(listens, described, o, count, l),
                       Reports(listens, described', o + l.total, count', ls[1..]), Closing(error));
    }
  }

  /**
   * However a pcapng file is cut, the parser reports its packets in order, numbered and placed, with the frames they
   * carry and the times their ticks stand for at the resolution of their interface, and last the block it refuses.
   */
  lemma PcapngReads(listens: bool, s: seq<byte>, ls: seq<Laid>, error: Option<ParseError>, chunks: seq<seq<byte>>)
    requires FileLies(listens, s, ls, error) && Concat(chunks) == s
    ensures Feed(NewParser(listens), chunks).events == Reports(listens, [], 0, 0, ls) + Closing(error)
  {
    hide Step, Undersized, Drain, Sized, BlocksLie, Reports, Feed;
    var start := NewParser(listens).Extend(s);
    var ng := start.(phase := ParseNgBlock);
    AppendNil(s);
    assert s[0..] == s;
    BlocksRead(ng, listens, None, s, 0, [], 0, ls, error);
    NgDrain(listens, s);
    if !Sized(start) { UnsizedIsNg(listens, s); }
    ChunkInvarianceIff(listens, s);
  }

  // ---- resolutions ----

  /** Option `i` is the last if_tsresol with a value. */
  predicate LastResolution(options: seq<Opt>, i: nat)
    requires i < |options|
  {
    && options[i].code == 9 && options[i].value != []
    && forall j :: i < j < |options| ==> options[j].code != 9 || options[j].value == []
  }

  /** The resolution is the first octet of the last if_tsresol, and 6 for want of one. */
  lemma {:induction false} ResolutionIs(options: seq<Opt>)
    ensures forall i :: 0 <= i < |options| && LastResolution(options, i) ==>
      ResolutionOf(options) == options[i].value[0]
    ensures (forall i :: 0 <= i < |options| ==> !LastResolution(options, i)) ==> ResolutionOf(options) == 6
    decreases |options|
  {
    if options != [] {
      var n := |options| - 1;
      ResolutionIs(options[..n]);
      if options[n].code == 9 && options[n].value != [] {
        assert LastResolution(options, n);
      } else {
        assert forall i :: 0 <= i < n ==> (LastResolution(options[..n], i) <==> LastResolution(options, i));
      }
    }
  }

  /** The reported time is the greatest whole number of each unit that the ticks have completed. */
  lemma TimeIsFloor(ticks: nat, d: nat)
    requires d > 0
    ensures var t := TimeOf(ticks, d);
      && t.seconds * d <= ticks < (t.seconds + 1) * d
      && (t.seconds * 1_000_000 + t.microseconds) * d <= ticks * 1_000_000
           < (t.seconds * 1_000_000 + t.microseconds + 1) * d
      && (t.seconds * 1_000_000_000 + t.nanoseconds) * d <= ticks * 1_000_000_000
           < (t.seconds * 1_000_000_000 + t.nanoseconds + 1) * d
      && t.microseconds < 1_000_000 && t.nanoseconds < 1_000_000_000
  {
    WholeUnits(ticks, 1, d);
    WholeUnits(ticks, 1_000_000, d);
    WholeUnits(ticks, 1_000_000_000, d);
  }

  lemma WholeUnits(ticks: nat, unit: nat, d: nat)
    requires d > 0 && unit > 0
    ensures var n := ticks * 1 / d * unit + ticks * unit / d % unit;
      n * d <= ticks * unit < (n + 1) * d
  {
    var q, r := ticks / d, ticks % d;
    DivMod(ticks, d);
    FractionOf(ticks, unit, d);
    Rearranged(ticks, q, r, d, unit);
    var f: nat := r * unit;
    DivMod(f, d);
    var n := q * unit + f / d;
    assert (n + 1) * d == n * d + d;
  }
}
