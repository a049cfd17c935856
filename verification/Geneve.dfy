/** The GENEVE header: bit fields, an option walk bounded by Opt Len, and the Opt Len derived back from it. */
module Geneve {
  import opened Bytes
  import opened BitFields
  import opened HeaderFields
  import opened PacketBuffer
  import opened TlvWalk

  type Octet1 = s: seq<byte> | |s| == 1 witness [0]

  type Octets2 = s: seq<byte> | |s| == 2 witness [0, 0]

  /** One option; `critical` is reported by decode and not read by encode. */
  datatype Opt = Opt(optionClass: int, kind: int, critical: bool, reserved: int, data: seq<byte>)

  datatype Head = Head(version: int, oam: bool, critical: bool, reserved1: int, protocolType: Octets2, vni: int,
                       reserved2: Octet1)

  datatype Message = Message(head: Head, optLen: nat, options: Walked<Opt>)

  /** The fourth octet of an option: three reserved bits, then the data length in four-octet units. */
  function DataBytes(x: byte): nat { x % 32 * 4 }

  function OptionReserved(x: byte): nat { x / 32 }

  function LengthOctet(reserved: int, dataLength: nat): byte { reserved % 8 * 32 + dataLength / 4 % 32 }

  lemma LengthOctetMade(x: byte)
    ensures LengthOctet(OptionReserved(x), DataBytes(x)) == x
    ensures OptionReserved(x) <= 7 && DataBytes(x) % 4 == 0 && DataBytes(x) <= 124
  {
  }

  lemma LengthOctetRead(reserved: nat, dataLength: nat)
    requires reserved <= 7 && dataLength % 4 == 0 && dataLength <= 124
    ensures OptionReserved(LengthOctet(reserved, dataLength)) == reserved
    ensures DataBytes(LengthOctet(reserved, dataLength)) == dataLength
  {
    var units := dataLength / 4;
    assert dataLength == 4 * units && units < 32;
  }

  function FirstOption(p: seq<byte>): Option<nat>
  {
    if |p| < 4 then None
    else if 4 + DataBytes(p[3]) > |p| then None
    else Some(4 + DataBytes(p[3]))
  }

  function ReadOption(p: seq<byte>): Opt
  {
    if FirstOption(p).None? then Opt(0, 0, false, 0, [])
    else Opt(GetU16(BE, p, 0), p[2], p[2] >= 128, OptionReserved(p[3]), p[4..FirstOption(p).value])
  }

  /** The data length is counted in four-octet units, five bits of them. */
  function OptionBytes(o: Opt): seq<byte>
  {
    PutU16(BE, o.optionClass % 65536) + [o.kind % 256] + [LengthOctet(o.reserved, |o.data|)] + o.data
  }

  function SettledOption(o: Opt): Opt
  {
    o.(critical := o.kind >= 128)
  }

  predicate GoodOption(o: Opt)
  {
    0 <= o.optionClass <= 65535 && 0 <= o.kind <= 255 && 0 <= o.reserved <= 7 && |o.data| % 4 == 0 && |o.data| <= 124
  }

  function OptionFormat(): Format<Opt>
  {
    Format(FirstOption, ReadOption, OptionBytes, SettledOption, GoodOption)
  }

  function VersionBits(x: byte): nat { x / 64 }

  function OptLenBits(x: byte): (n: nat)
    ensures n < 64
  {
    x % 64
  }

  function OamBit(x: byte): bool { x / 128 == 1 }

  function CriticalBit(x: byte): bool { x / 64 % 2 == 1 }

  function ReservedBits(x: byte): nat { x % 64 }

  function FirstOctet(version: int, optLen: nat): byte { version % 4 * 64 + optLen % 64 }

  function SecondOctet(oam: bool, critical: bool, reserved1: int): byte
  {
    Flag(oam) * 128 + Flag(critical) * 64 + reserved1 % 64
  }

  lemma FirstOctetRead(version: int, optLen: nat)
    ensures VersionBits(FirstOctet(version, optLen)) == version % 4
      && OptLenBits(FirstOctet(version, optLen)) == optLen % 64
  {
  }

  lemma FirstOctetMade(x: byte, optLen: nat)
    ensures FirstOctet(VersionBits(x), optLen) == x <==> optLen % 64 == OptLenBits(x)
  {
  }

  lemma SecondOctetRead(oam: bool, critical: bool, reserved1: int)
    ensures var y := SecondOctet(oam, critical, reserved1);
      OamBit(y) == oam && CriticalBit(y) == critical && ReservedBits(y) == reserved1 % 64
  {
  }

  lemma SecondOctetMade(x: byte)
    ensures SecondOctet(OamBit(x), CriticalBit(x), ReservedBits(x)) == x
  {
  }

  function HeadOf(p: seq<byte>): Head
    requires |p| >= 8
  {
    Head(VersionBits(p[0]), OamBit(p[1]), CriticalBit(p[1]), ReservedBits(p[1]), p[2..4], ToNat(p[4..7]), p[7..8])
  }

  const MAX_VNI: nat := 16777215

  /** The eight fixed octets with a given Opt Len. */
  function HeadBytes(h: Head, optLen: nat): (r: seq<byte>)
    ensures |r| == 8
  {
    [FirstOctet(h.version, optLen)] + HeadTail(h)
  }

  function HeadTail(h: Head): (r: seq<byte>)
    ensures |r| == 7
  {
    [SecondOctet(h.oam, h.critical, h.reserved1)]
      + h.protocolType + FromNat(Clamp(h.vni, MAX_VNI), 3) + h.reserved2
  }

  /** Where the option region ends: at Opt Len, or where the payload does. */
  function RegionEnd(p: seq<byte>): (end: nat)
    requires |p| >= 8
    ensures 8 <= end <= |p|
  {
    Min(8 + OptLenBits(p[0]) * 4, |p|)
  }

  function Decoded(p: seq<byte>): Message
    requires |p| >= 8
  {
    Message(HeadOf(p), OptLenBits(p[0]), Walk(OptionFormat(), p[..RegionEnd(p)][8..]))
  }

  function Region(m: Message): seq<byte>
  {
    Printed(OptionFormat(), m.options)
  }

  function Encoded(m: Message): seq<byte>
  {
    HeadBytes(m.head, |Region(m)| / 4) + Region(m)
  }

  function DataIssue(o: Opt, index: nat): seq<Issue>
  {
    if |o.data| % 4 != 0 || |o.data| > 124 then [AboveMaximum(index, "data")] else []
  }

  function OptionIssues(options: seq<Opt>): seq<Issue>
  {
    Reported(DataIssue, options)
  }

  // ---- decoding ----

  lemma OptionAt(payload: seq<byte>, end: nat, offset: nat)
    requires offset + 4 <= end <= |payload|
    ensures var next := offset + 4 + DataBytes(payload[offset + 3]);
      if next > end then !Complete(OptionFormat(), payload[..end][offset..])
      else (Complete(OptionFormat(), payload[..end][offset..])
            && FirstOption(payload[..end][offset..]) == Some(next - offset)
        && ReadOption(payload[..end][offset..]) == Opt(GetU16(BE, payload[offset..offset + 2], 0), payload[offset + 2],
             payload[offset + 2] >= 128, OptionReserved(payload[offset + 3]), payload[offset + 4..next]))
  {
    var rest := payload[..end][offset..];
    assert rest == payload[offset..end];
    assert rest[2] == payload[offset + 2] && rest[3] == payload[offset + 3];
    GetInSlice(BE, payload, offset, end, 0);
    GetInSlice(BE, payload, offset, offset + 2, 0);
    var next := offset + 4 + DataBytes(payload[offset + 3]);
    if next <= end { SliceOfSlice(payload, offset, end, 4, next - offset); }
  }

  method NextOption(b: PacketBuffer, ghost visible: seq<byte>, ghost payload: seq<byte>, end: nat, offset: nat)
    returns (option: Option<Opt>, next: nat)
    requires Reading(b, visible, payload) && offset + 4 <= end <= |payload| && b.headerLength <= end
    modifies b
    ensures Reading(b, visible, payload) && b.startPos == old(b.startPos) && b.packet == old(b.packet)
    ensures option.Some? <==> Complete(OptionFormat(), payload[..end][offset..])
    ensures option.Some? ==> option.value == ReadOption(payload[..end][offset..])
    ensures option.Some? ==>
      next == offset + FirstOption(payload[..end][offset..]).value && offset < next <= b.headerLength
    ensures b.headerLength <= end
  {
    hide Reading, FirstOption, ReadOption, Complete, GetU16, DataBytes, OptionReserved;
    OptionAt(payload, end, offset);
    var classOctets := Take(b, visible, payload, offset, 2);
    var kind := Take(b, visible, payload, offset + 2, 1);
    var b3 := Take(b, visible, payload, offset + 3, 1);
    var dataBytes := DataBytes(b3[0]);
    if offset + 4 + dataBytes > end { return None, offset; }
    var data: seq<byte> := [];
    if dataBytes > 0 {
      data := Take(b, visible, payload, offset + 4, dataBytes);
    }
    option := Some(Opt(GetU16(BE, classOctets, 0), kind[0], kind[0] >= 128, OptionReserved(b3[0]), data));
    next := offset + 4 + dataBytes;
  }

  method DecodeFlags(b: PacketBuffer, ghost visible: seq<byte>, ghost payload: seq<byte>)
    returns (version: nat, oam: bool, critical: bool, reserved1: nat)
    requires Reading(b, visible, payload) && |payload| >= 8 && b.headerLength <= 8
    modifies b
    ensures Reading(b, visible, payload) && b.startPos == old(b.startPos) && b.packet == old(b.packet)
    ensures version == VersionBits(payload[0]) && oam == OamBit(payload[1]) && critical == CriticalBit(payload[1])
    ensures reserved1 == ReservedBits(payload[1]) && b.headerLength <= 8
  {
    hide Reading, ReadField;
    OctetFields(payload);
    version := TakeBits(b, visible, payload, 0, 1, 0, 2);
    var oamBit := TakeBits(b, visible, payload, 1, 1, 0, 1);
    var criticalBit := TakeBits(b, visible, payload, 1, 1, 1, 1);
    reserved1 := TakeBits(b, visible, payload, 1, 1, 2, 6);
    oam, critical := oamBit != 0, criticalBit != 0;
  }

  method DecodeHead(b: PacketBuffer, ghost visible: seq<byte>, ghost payload: seq<byte>) returns (h: Head)
    requires Reading(b, visible, payload) && |payload| >= 8 && b.headerLength <= 8
    modifies b
    ensures Reading(b, visible, payload) && b.startPos == old(b.startPos) && b.packet == old(b.packet)
    ensures h == HeadOf(payload) && b.headerLength == 8
  {
    hide Reading, ReadField, ToNat;
    var version, oam, critical, reserved1 := DecodeFlags(b, visible, payload);
    var protocolType := Take(b, visible, payload, 2, 2);
    var vni := TakeBits(b, visible, payload, 4, 3, 0, 24);
    WholeWindow(payload[4..7], 0);
    var reserved2 := Take(b, visible, payload, 7, 1);
    h := Head(version, oam, critical, reserved1, protocolType, vni, reserved2);
  }

  lemma OctetFields(p: seq<byte>)
    requires |p| >= 2
    ensures ReadField(p[0..0 + 1], 1, 0, 2) == VersionBits(p[0]) && ReadField(p[0..0 + 1], 1, 2, 6) == OptLenBits(p[0])
    ensures (ReadField(p[1..1 + 1], 1, 0, 1) != 0) == OamBit(p[1])
      && (ReadField(p[1..1 + 1], 1, 1, 1) != 0) == CriticalBit(p[1])
    ensures ReadField(p[1..1 + 1], 1, 2, 6) == ReservedBits(p[1])
  {
    assert p[0..0 + 1] == [p[0]] && p[1..1 + 1] == [p[1]];
    OctetRead(p[0]);
    OctetRead(p[1]);
  }

  method DecodeLength(b: PacketBuffer, ghost visible: seq<byte>, ghost payload: seq<byte>) returns (optLen: nat)
    requires Reading(b, visible, payload) && |payload| >= 8
    modifies b
    ensures Reading(b, visible, payload) && b.startPos == old(b.startPos) && b.packet == old(b.packet)
    ensures optLen == OptLenBits(payload[0]) && b.headerLength == Max(old(b.headerLength), 1)
  {
    hide Reading, ReadField;
    OctetFields(payload);
    optLen := TakeBits(b, visible, payload, 0, 1, 2, 6);
  }

  /** The option walk: stops where an option would not fit below `end`. */
  method DecodeOptions(b: PacketBuffer, ghost visible: seq<byte>, ghost payload: seq<byte>, end: nat)
    returns (options: seq<Opt>, offset: nat)
    requires Reading(b, visible, payload) && 8 <= end <= |payload| && b.headerLength == 8
    modifies b
    ensures Reading(b, visible, payload) && b.startPos == old(b.startPos) && b.packet == old(b.packet)
    ensures 8 <= offset <= end && b.headerLength <= end && (offset == end ==> b.headerLength == end)
    ensures Walk(OptionFormat(), payload[..end][8..]) == Walked(options, payload[..end][offset..])
  {
    hide Reading, Walk, Preceded, Complete;
    ghost var region := payload[..end];
    options, offset := [], 8;
    WalkBegins(Walk(OptionFormat(), region[8..]));
    while offset + 4 <= end
      invariant 8 <= offset <= end && offset <= b.headerLength <= end
      invariant Reading(b, visible, payload) && b.startPos == old(b.startPos) && b.packet == old(b.packet)
      invariant Walk(OptionFormat(), region[8..]) == Preceded(options, Walk(OptionFormat(), region[offset..]))
    {
      var option, next := NextOption(b, visible, payload, end, offset);
      if option.None? { break; }
      WalkStep(OptionFormat(), region, offset, options);
      options := options + [option.value];
      offset := next;
    }
    ShortIsIncomplete(region[offset..]);
    WalkStops(OptionFormat(), region, offset, options);
  }

  method Decode(b: PacketBuffer, ghost visible: seq<byte>, ghost payload: seq<byte>, available: nat)
    returns (m: Message)
    requires Reading(b, visible, payload) && available == |payload| && 8 <= available && b.headerLength <= 8
    modifies b
    ensures Reading(b, visible, payload) && b.startPos == old(b.startPos) && b.packet == old(b.packet)
    ensures m == Decoded(payload) && b.headerLength == RegionEnd(payload)
  {
    hide Reading, Walk, Preceded, Complete, HeadOf, ReadField;
    var head := DecodeHead(b, visible, payload);
    var optLen := DecodeLength(b, visible, payload);
    var end := if 8 + optLen * 4 < available then 8 + optLen * 4 else available;
    ghost var region := payload[..end];
    var options, offset := DecodeOptions(b, visible, payload, end);
    ReadingMeans(b, visible, payload);
    ReadingPrefix(b, visible, payload, end);
    var tail := TakeRest(b, visible, region, offset, end);
    ReadingWhole(b, visible, payload, region);
    m := Message(head, optLen, Walked(options, tail));
  }

  lemma ReadingPrefix(b: PacketBuffer, visible: seq<byte>, payload: seq<byte>, end: nat)
    requires Reading(b, visible, payload) && end <= |payload|
    ensures Reading(b, visible, payload[..end])
  {
    assert payload[..end] == visible[b.startPos..b.startPos + end];
  }

  lemma ReadingMeans(b: PacketBuffer, visible: seq<byte>, payload: seq<byte>)
    requires Reading(b, visible, payload)
    ensures b.startPos + |payload| <= |visible| && payload == visible[b.startPos..b.startPos + |payload|]
  {
  }

  lemma ReadingWhole(b: PacketBuffer, visible: seq<byte>, payload: seq<byte>, part: seq<byte>)
    requires Reading(b, visible, part)
    requires b.startPos + |payload| <= |visible| && payload == visible[b.startPos..b.startPos + |payload|]
    ensures Reading(b, visible, payload)
  {
  }

  lemma ShortIsIncomplete(p: seq<byte>)
    ensures |p| < 4 ==> !Complete(OptionFormat(), p)
  {
  }

  // ---- encoding ----

  /** Octets 0 and 1, one bit field at a time. */
  method EncodeFlags(b: PacketBuffer, ghost before: seq<byte>, h: Head)
    requires Writing(b, before, [])
    modifies b, b.packet
    ensures Writing(b, before, FlagBytes(h)) && (b.packet == old(b.packet) || fresh(b.packet))
  {
    hide Writing, OctetWith;
    PutNext(b, before, [], 0, 0, 2, h.version);
    FirstFieldsMade(h);
    ghost var first := FirstOctet(h.version, 0);
    AppendNil([first]);
    PutNext(b, before, [first], 1, 0, 1, Flag(h.oam));
    ghost var x := OctetWith(0, 0, 1, Flag(h.oam));
    PutLast(b, before, [first], x, 1, 1, 1, Flag(h.critical));
    PutLast(b, before, [first], OctetWith(x, 1, 1, Flag(h.critical)), 1, 2, 6, h.reserved1);
    SecondFieldsMade(h);
  }

  lemma FirstFieldsMade(h: Head)
    ensures OctetWith(0, 0, 2, h.version) == FirstOctet(h.version, 0)
  {
    hide Pow2, OctetWith;
    SmallPowers();
    OctetWithIs(0, 0, 2, 4, 64, h.version);
  }

  lemma SecondFieldsMade(h: Head)
    ensures OctetWith(OctetWith(OctetWith(0, 0, 1, Flag(h.oam)), 1, 1, Flag(h.critical)), 2, 6, h.reserved1)
         == SecondOctet(h.oam, h.critical, h.reserved1)
  {
    hide Pow2, OctetWith;
    SmallPowers();
    OctetWithIs(0, 0, 1, 2, 128, Flag(h.oam));
    var x := OctetWith(0, 0, 1, Flag(h.oam));
    OctetWithIs(x, 1, 1, 2, 64, Flag(h.critical));
    OctetWithIs(OctetWith(x, 1, 1, Flag(h.critical)), 2, 6, 64, 1, h.reserved1);
  }

  lemma OctetRead(x: byte)
    ensures ReadField([x], 1, 0, 2) == x / 64 && ReadField([x], 1, 2, 6) == x % 64
    ensures ReadField([x], 1, 0, 1) == x / 128 && ReadField([x], 1, 1, 1) == x / 64 % 2
  {
    hide Pow2, ReadField;
    SmallPowers();
    OctetReadIs(x, 0, 2, 4, 64);
    OctetReadIs(x, 2, 6, 64, 1);
    OctetReadIs(x, 0, 1, 2, 128);
    OctetReadIs(x, 1, 1, 2, 64);
  }

  function FlagBytes(h: Head): seq<byte>
  {
    [FirstOctet(h.version, 0)] + [SecondOctet(h.oam, h.critical, h.reserved1)]
  }

  method EncodeHead(b: PacketBuffer, ghost before: seq<byte>, h: Head) returns (issues: seq<Issue>)
    requires Writing(b, before, [])
    modifies b, b.packet
    ensures Writing(b, before, HeadBytes(h, 0)) && (b.packet == old(b.packet) || fresh(b.packet))
    ensures issues == Issues(h.vni, MAX_VNI, 0, "vni")
  {
    hide Writing, BitsOver, FromNat, Clamp, FlagBytes;
    EncodeFlags(b, before, h);
    FlagBytesLength(h);
    ghost var w := FlagBytes(h) + h.protocolType;
    Append(b, before, FlagBytes(h), 2, h.protocolType);
    issues := Issues(h.vni, MAX_VNI, 0, "vni");
    var vni := Clamp(h.vni, MAX_VNI);
    PutBits(b, before, w, 4, 3, 0, 24, vni);
    NewWindow(w, vni);
    ghost var v := w + FromNat(vni, 3);
    Append(b, before, v, 7, h.reserved2);
    HeadSoFar(h);
  }

  lemma FlagBytesLength(h: Head)
    ensures |FlagBytes(h)| == 2
  {
  }

  lemma HeadSoFar(h: Head)
    ensures FlagBytes(h) + h.protocolType + FromNat(Clamp(h.vni, MAX_VNI), 3) + h.reserved2 == HeadBytes(h, 0)
  {
  }

  lemma NewWindow(w: seq<byte>, vni: nat)
    requires |w| == 4 && vni <= MAX_VNI
    ensures BitsOver(w, 4, 3, 0, 24, vni) == w + FromNat(vni, 3)
  {
    ThreeOctets();
    hide Pow2, FromNat, BitsOver;
    AppendWindow(w, 3, vni);
    assert vni % 16777216 == vni;
  }

  lemma AppendWindow(w: seq<byte>, length: nat, v: nat)
    ensures BitsOver(w, |w|, length, 0, 8 * length, v) == w + FromNat(v % Pow2(8 * length), length)
  {
    hide Pow2, FromNat, WriteField, Window, Overlay;
    WholeWindow(Window(w, |w|, length), v);
    OverlayAtEnd(w, FromNat(v % Pow2(8 * length), length));
  }

  lemma ThreeOctets()
    ensures Pow2(24) == 16777216
  {
    assert Pow2(0) == 1;
    hide Pow2;
    Pow2Eight(0);
    Pow2Eight(1);
    Pow2Eight(2);
  }

  method WriteOption(b: PacketBuffer, ghost before: seq<byte>, ghost written: seq<byte>, start: nat, o: Opt)
    returns (offset: nat)
    requires Writing(b, before, written) && start == |written|
    modifies b, b.packet
    ensures Writing(b, before, written + OptionBytes(o)) && (b.packet == old(b.packet) || fresh(b.packet))
    ensures offset == |written + OptionBytes(o)|
  {
    hide Writing, PutU16;
    var class16 := PutU16(BE, o.optionClass % 65536);
    var kind: seq<byte> := [o.kind % 256];
    var b3: seq<byte> := [LengthOctet(o.reserved, |o.data|)];
    Append(b, before, written, start, class16);
    Append(b, before, written + class16, start + 2, kind);
    Append(b, before, written + class16 + kind, start + 3, b3);
    offset := start + 4;
    AppendAssociates(written, class16, kind);
    AppendAssociates(written, class16 + kind, b3);
    AppendAssociates(written, class16 + kind + b3, o.data);
    AppendNil(written + class16 + kind + b3);
    if |o.data| > 0 {
      Append(b, before, written + class16 + kind + b3, offset, o.data);
      offset := offset + |o.data|;
    }
  }

  method Encode(b: PacketBuffer, ghost before: seq<byte>, m: Message) returns (issues: seq<Issue>)
    requires Writing(b, before, [])
    modifies b, b.packet
    ensures Writing(b, before, Encoded(m))
    ensures issues == Issues(m.head.vni, MAX_VNI, 0, "vni") + OptionIssues(m.options.items)
  {
    hide Writing, OptionBytes, DataIssue, Reported, Items, HeadBytes, BitsOver, Issues;
    ghost var f, head, options := OptionFormat(), HeadBytes(m.head, 0), m.options.items;
    NothingYet(OptionFormat(), DataIssue);
    issues := EncodeHead(b, before, m.head);
    AppendNil(head);
    AppendNil(issues);
    var offset, i := 8, 0;
    while i < |m.options.items|
      invariant i <= |options| && (b.packet == old(b.packet) || fresh(b.packet))
      invariant Writing(b, before, head + Items(f, options[..i])) && offset == |head + Items(f, options[..i])|
      invariant issues == Issues(m.head.vni, MAX_VNI, 0, "vni") + OptionIssues(options[..i])
    {
      var o := m.options.items[i];
      ItemsStep(f, options, i);
      ReportedStep(DataIssue, options, i);
      AppendAssociates(head, Items(f, options[..i]), OptionBytes(o));
      AppendAssociates(Issues(m.head.vni, MAX_VNI, 0, "vni"), OptionIssues(options[..i]), DataIssue(o, i));
      issues := issues + DataIssue(o, i);
      offset := WriteOption(b, before, head + Items(f, options[..i]), offset, o);
      i := i + 1;
    }
    assert options[..i] == options;
    AppendAssociates(head, Items(f, options), m.options.rest);
    AppendNil(Items(f, options));
    if |m.options.rest| > 0 {
      Append(b, before, head + Items(f, options), offset, m.options.rest);
      offset := offset + |m.options.rest|;
    }
    OptLenWritten(m);
    PutBits(b, before, head + Region(m), 0, 1, 2, 6, (offset - 8) / 4 % 64);
  }

  /** The final bit-field write turns the provisional head into the one carrying the derived Opt Len. */
  lemma OptLenWritten(m: Message)
    ensures BitsOver(HeadBytes(m.head, 0) + Region(m), 0, 1, 2, 6, |Region(m)| / 4 % 64) == Encoded(m)
  {
    hide HeadTail, Region, BitsOver;
    var x: byte, n := FirstOctet(m.head.version, 0), |Region(m)| / 4;
    AppendAssociates([x], HeadTail(m.head), Region(m));
    AppendAssociates([FirstOctet(m.head.version, n)], HeadTail(m.head), Region(m));
    FirstOctetAgain(x, HeadTail(m.head) + Region(m), n % 64);
  }

  lemma FirstOctetAgain(x: byte, tail: seq<byte>, v: nat)
    requires v < 64
    ensures BitsOver([x] + tail, 0, 1, 2, 6, v) == [x / 64 * 64 + v] + tail
  {
    hide WriteField, BitsOver, Pow2, OctetWith;
    SmallPowers();
    OctetWithIs(x, 2, 6, 64, 1, v);
    OctetWritten(x, 2, 6, v);
    AppendNil([x]);
    AppendNil(WriteField([x], 2, 6, v));
    OctetAgain([], x, tail, 2, 6, v);
  }

  // ---- round trips ----

  lemma OptionSpelled(p: seq<byte>)
    requires Complete(OptionFormat(), p)
    ensures OptionBytes(ReadOption(p)) == p[..FirstOption(p).value] && GoodOption(ReadOption(p))
  {
    hide GetU16, PutU16, DataBytes, OptionReserved, LengthOctet;
    var n := FirstOption(p).value;
    PutGetU16(BE, p, 0);
    LengthOctetMade(p[3]);
    assert |p[4..n]| == DataBytes(p[3]);
    assert p[..n] == p[0..2] + [p[2]] + [p[3]] + p[4..n];
  }

  lemma OptionRead(o: Opt, rest: seq<byte>)
    requires GoodOption(o)
    ensures FirstOption(OptionBytes(o) + rest) == Some(|OptionBytes(o)|) && |OptionBytes(o)| >= 1
    ensures ReadOption(OptionBytes(o) + rest) == SettledOption(o)
  {
    hide GetU16, PutU16, DataBytes, OptionReserved, LengthOctet;
    var class16, b3 := PutU16(BE, o.optionClass), LengthOctet(o.reserved, |o.data|);
    var p := OptionBytes(o) + rest;
    LengthOctetRead(o.reserved, |o.data|);
    assert p == class16 + ([o.kind] + [b3] + o.data + rest);
    GetBefore(BE, class16, [o.kind] + [b3] + o.data + rest, 0);
    assert p[2] == o.kind && p[3] == b3;
    assert p[4..4 + |o.data|] == o.data;
  }

  lemma OptionsLawful()
    ensures Lawful(OptionFormat())
  {
    hide FirstOption, ReadOption, OptionBytes;
    forall p | Complete(OptionFormat(), p)
      ensures OptionBytes(ReadOption(p)) == p[..FirstOption(p).value] && GoodOption(ReadOption(p))
    {
      OptionSpelled(p);
    }
    forall o, rest | GoodOption(o)
      ensures FirstOption(OptionBytes(o) + rest) == Some(|OptionBytes(o)|) && |OptionBytes(o)| >= 1
      ensures ReadOption(OptionBytes(o) + rest) == SettledOption(o)
    {
      OptionRead(o, rest);
    }
  }

  lemma TailReproduced(p: seq<byte>)
    requires |p| >= 8
    ensures HeadTail(HeadOf(p)) == p[1..8] && HeadOf(p).version == VersionBits(p[0]) && 0 <= HeadOf(p).vni <= MAX_VNI
  {
    ToNatBound(p[4..7]);
    ToNatInverse(p[4..7]);
    ThreeOctets();
    hide ToNat, FromNat, Pow2;
    assert 8 * |p[4..7]| == 24;
    SecondOctetMade(p[1]);
    hide SecondOctet, OamBit, CriticalBit, ReservedBits;
    assert p[1..8] == [p[1]] + p[2..4] + p[4..7] + p[7..8];
  }

  lemma RegionReproduced(p: seq<byte>)
    requires |p| >= 8
    ensures Region(Decoded(p)) == p[..RegionEnd(p)][8..] && OptionIssues(Decoded(p).options.items) == []
  {
    OptionsLawful();
    WalkPrints(OptionFormat(), p[..RegionEnd(p)][8..]);
    WalkedGood(OptionFormat(), p[..RegionEnd(p)][8..]);
    NoIssues(Decoded(p).options.items);
  }

  lemma NoIssues(options: seq<Opt>)
    requires forall i :: 0 <= i < |options| ==> OptionFormat().good(options[i])
    ensures OptionIssues(options) == []
  {
    forall i | 0 <= i < |options| ensures DataIssue(options[i], i) == [] { assert OptionFormat().good(options[i]); }
    ReportedNone(DataIssue, options);
  }

  /** The header is reproduced, on the octets it consumes, exactly when the whole option region was captured. */
  lemma DecodeEncodeIff(p: seq<byte>)
    requires |p| >= 8
    ensures Encoded(Decoded(p)) == p[..RegionEnd(p)] <==> |p| >= 8 + OptLenBits(p[0]) * 4
    ensures Issues(Decoded(p).head.vni, MAX_VNI, 0, "vni") + OptionIssues(Decoded(p).options.items) == []
  {
    TailReproduced(p);
    RegionReproduced(p);
    var end := RegionEnd(p);
    OptLenKept(|p|, OptLenBits(p[0]));
    FirstOctetMade(p[0], (end - 8) / 4);
    hide FirstOctet, VersionBits, OptLenBits;
    EncodedForm(p);
    hide Encoded, Decoded, HeadOf;
    assert p[..end] == [p[0]] + p[1..end];
    SameFirst(FirstOctet(VersionBits(p[0]), (end - 8) / 4), p[0], p[1..end]);
  }

  lemma EncodedForm(p: seq<byte>)
    requires |p| >= 8
    ensures Encoded(Decoded(p)) == [FirstOctet(VersionBits(p[0]), (RegionEnd(p) - 8) / 4)] + p[1..RegionEnd(p)]
  {
    hide HeadTail, Region, Reported, Walk, RegionEnd, FirstOctet, HeadOf, Printed, VersionBits, OptLenBits;
    var end := RegionEnd(p);
    TailReproduced(p);
    RegionReproduced(p);
    assert p[..end][8..] == p[8..end];
    assert p[1..end] == p[1..8] + p[8..end];
    AppendAssociates([FirstOctet(VersionBits(p[0]), (end - 8) / 4)], p[1..8], p[8..end]);
  }

  lemma OptLenKept(captured: nat, optLen: nat)
    requires captured >= 8 && optLen < 64
    ensures (Min(8 + optLen * 4, captured) - 8) / 4 % 64 == optLen <==> captured >= 8 + optLen * 4
  {
  }

  lemma SameFirst(a: byte, b: byte, rest: seq<byte>)
    ensures [a] + rest == [b] + rest <==> a == b
  {
    assert ([a] + rest)[0] == a && ([b] + rest)[0] == b;
  }

  predicate GoodHead(h: Head)
  {
    0 <= h.version <= 3 && 0 <= h.reserved1 <= 63 && 0 <= h.vni <= 16777215
  }

  predicate GoodOptions(options: seq<Opt>)
  {
    forall i :: 0 <= i < |options| ==> GoodOption(options[i])
  }

  lemma HeadRead(h: Head, optLen: nat, region: seq<byte>)
    ensures var p := HeadBytes(h, optLen) + region;
      p[8..] == region && OptLenBits(p[0]) == optLen % 64 && (HeadOf(p) == h <==> GoodHead(h))
  {
    var p := HeadBytes(h, optLen) + region;
    var vni := FromNat(Clamp(h.vni, MAX_VNI), 3);
    ThreeOctets();
    FromNatInverse(Clamp(h.vni, MAX_VNI), 3);
    hide ToNat, FromNat, Pow2, FirstOctet, SecondOctet;
    assert p[0] == FirstOctet(h.version, optLen) && p[1] == SecondOctet(h.oam, h.critical, h.reserved1);
    assert p[2..4] == h.protocolType && p[4..7] == vni && p[7..8] == h.reserved2 && p[8..] == region;
    FieldsRead(p, h, optLen);
  }

  lemma FieldsRead(p: seq<byte>, h: Head, optLen: nat)
    requires |p| >= 8 && p[0] == FirstOctet(h.version, optLen) && p[1] == SecondOctet(h.oam, h.critical, h.reserved1)
    requires p[2..4] == h.protocolType && ToNat(p[4..7]) == Clamp(h.vni, MAX_VNI) && p[7..8] == h.reserved2
    ensures OptLenBits(p[0]) == optLen % 64 && (HeadOf(p) == h <==> GoodHead(h))
  {
    FirstOctetRead(h.version, optLen);
    SecondOctetRead(h.oam, h.critical, h.reserved1);
    hide ToNat, FirstOctet, SecondOctet, VersionBits, OptLenBits, OamBit, CriticalBit, ReservedBits;
  }

  lemma WalkBackIff(w: Walked<Opt>)
    ensures Walk(OptionFormat(), Printed(OptionFormat(), w)) == Walked(Settled(OptionFormat(), w.items), w.rest)
       <==> GoodOptions(w.items) && FirstOption(w.rest).None?
  {
    OptionsLawful();
    PrintWalksIff(OptionFormat(), w);
    assert forall i :: 0 <= i < |w.items| ==> OptionFormat().good(w.items[i]) == GoodOption(w.items[i]);
    assert Complete(OptionFormat(), w.rest) <==> FirstOption(w.rest).Some?;
  }

  /**
   * A crafted header comes back exactly when its fields fit, no option hides in the tail and Opt Len can count the
   * region.
   */
  lemma EncodeDecodeIff(m: Message)
    ensures var d := Decoded(Encoded(m));
      (d.head == m.head && d.options == Walked(Settled(OptionFormat(), m.options.items), m.options.rest))
      <==> (GoodHead(m.head) && GoodOptions(m.options.items) && FirstOption(m.options.rest).None?
           && |Region(m)| % 4 == 0 && |Region(m)| <= 252)
  {
    var p, n := Encoded(m), |Region(m)| / 4;
    HeadRead(m.head, n, Region(m));
    WalkBackIff(m.options);
    RegionSeen(p, Region(m));
    RegionFits(|Region(m)|);
    var end := RegionEnd(p);
    assert end == Min(8 + n % 64 * 4, 8 + |Region(m)|);
    hide HeadBytes, HeadOf, Encoded, RegionEnd, Region, Printed, Walk, Settled, GoodHead, GoodOptions, FirstOption;
    if end < |p| && Decoded(p).options == Walked(Settled(OptionFormat(), m.options.items), m.options.rest) {
      WalkedWhole(m, Region(m)[..end - 8]);
    }
  }

  lemma RegionFits(length: nat)
    ensures Min(8 + length / 4 % 64 * 4, 8 + length) == 8 + length <==> length % 4 == 0 && length <= 252
  {
  }

  lemma RegionSeen(p: seq<byte>, region: seq<byte>)
    requires |p| >= 8 && p[8..] == region
    ensures p[..RegionEnd(p)][8..] == region[..RegionEnd(p) - 8]
    ensures RegionEnd(p) == |p| ==> p[..RegionEnd(p)][8..] == region
  {
  }

  /** Options and tail that came back out of a region fill it. */
  lemma WalkedWhole(m: Message, region: seq<byte>)
    requires Walk(OptionFormat(), region) == Walked(Settled(OptionFormat(), m.options.items), m.options.rest)
    ensures |Region(m)| == |region|
  {
    var f := OptionFormat();
    OptionsLawful();
    WalkPrints(f, region);
    WalkedGood(f, region);
    forall i | 0 <= i < |m.options.items| ensures f.good(m.options.items[i]) {
      assert f.good(Settled(f, m.options.items)[i]);
    }
    SettledPrints(f, m.options.items);
  }

  /** Eight octets that announce four more of options come back announcing none. */
  lemma CutRegionLost()
    ensures var p: seq<byte> := [1, 0, 0, 0, 0, 0, 0, 0];
      OptLenBits(p[0]) == 1 && Encoded(Decoded(p)) != p[..RegionEnd(p)]
  {
    hide Encoded, Decoded;
    DecodeEncodeIff([1, 0, 0, 0, 0, 0, 0, 0]);
  }

  // ---- the octets of a header ----

  /** Class in two octets, type, three reserved bits with the data length in words, and the data. */
  function OptionWire(o: Opt): seq<byte>
    requires GoodOption(o)
  {
    [o.optionClass / 256, o.optionClass % 256, o.kind, o.reserved * 32 + |o.data| / 4] + o.data
  }

  function OptionsWire(options: seq<Opt>): seq<byte>
    requires GoodOptions(options)
  {
    if options == [] then [] else OptionWire(options[0]) + OptionsWire(options[1..])
  }

  /** Version and Opt Len, O, C and six reserved bits, protocol type, VNI in three octets, a reserved octet. */
  function HeadWire(h: Head, optLen: nat): seq<byte>
    requires GoodHead(h) && optLen < 64
  {
    [h.version * 64 + optLen, (if h.oam then 128 else 0) + (if h.critical then 64 else 0) + h.reserved1]
      + h.protocolType + [h.vni / 65536, h.vni / 256 % 256, h.vni % 256] + h.reserved2
  }

  lemma {:induction false} OptionsWired(options: seq<Opt>)
    requires GoodOptions(options)
    ensures Items(OptionFormat(), options) == OptionsWire(options)
    decreases |options|
  {
    hide OptionBytes, OptionWire;
    if options != [] {
      assert GoodOption(options[0]);
      OptionWired(options[0]);
      OptionsWired(options[1..]);
    }
  }

  lemma OptionWired(o: Opt)
    requires GoodOption(o)
    ensures OptionBytes(o) == OptionWire(o)
  {
    var units := |o.data| / 4;
    assert units % 32 == units && o.reserved % 8 == o.reserved;
    assert PutU16(BE, o.optionClass) == [o.optionClass / 256, o.optionClass % 256];
  }

  lemma HeadWired(h: Head, optLen: nat)
    requires GoodHead(h) && optLen < 64
    ensures HeadBytes(h, optLen) == HeadWire(h, optLen)
  {
    var v := h.vni;
    assert FromNat(v / 65536, 1) == FromNat(0, 0) + [v / 65536] by { assert v / 65536 < 256; }
    assert FromNat(v, 3) == [v / 65536, v / 256 % 256, v % 256] by {
      assert FromNat(v, 3) == FromNat(v / 256, 2) + [v % 256];
      assert FromNat(v / 256, 2) == FromNat(v / 65536, 1) + [v / 256 % 256];
    }
  }

  lemma LengthReads(h: Head, optLen: nat)
    requires GoodHead(h) && optLen < 64
    ensures OptLenBits(HeadWire(h, optLen)[0]) == optLen
  {
  }

  /** A good header whose options and tail Opt Len can count is written in these octets, and read from them. */
  lemma WireDecodes(m: Message)
    requires GoodHead(m.head) && GoodOptions(m.options.items)
    requires var n := |OptionsWire(m.options.items) + m.options.rest|; n % 4 == 0 && n <= 252
    ensures var region := OptionsWire(m.options.items) + m.options.rest;
      && Encoded(m) == HeadWire(m.head, |region| / 4) + region
      && Decoded(HeadWire(m.head, |region| / 4) + region).optLen == |region| / 4
      && (FirstOption(m.options.rest).None? ==>
            var d := Decoded(HeadWire(m.head, |region| / 4) + region);
            d.head == m.head && d.options == Walked(Settled(OptionFormat(), m.options.items), m.options.rest))
  {
    hide Items, OptionsWire, HeadBytes, HeadWire, FirstOption, GoodHead, HeadOf, Walk;
    OptionsWired(m.options.items);
    LengthReads(m.head, |Region(m)| / 4);
    HeadWired(m.head, |Region(m)| / 4);
    EncodeDecodeIff(m);
  }
}
