/** The GLBP header: fixed fields, a TLV walk whose Length counts the TLV header, and trailing octets. */
module Glbp {
  import opened Bytes
  import opened HeaderFields
  import opened PacketBuffer
  import opened TlvWalk

  type Octets2 = s: seq<byte> | |s| == 2 witness [0, 0]

  type Octets6 = s: seq<byte> | |s| == 6 witness [0, 0, 0, 0, 0, 0]

  /** One TLV; `length` is the whole TLV's size when supplied. */
  datatype Tlv = Tlv(kind: int, length: Option<int>, value: seq<byte>)

  datatype Header = Header(version: int, unknown1: int, group: int, unknown2: Octets2, ownerId: Octets6)

  datatype Message = Message(header: Header, tlvs: Walked<Tlv>)

  function FirstTlv(p: seq<byte>): Option<nat>
  {
    if |p| < 2 || p[1] < 2 || p[1] > |p| then None else Some(p[1])
  }

  function ReadTlv(p: seq<byte>): Tlv
  {
    if FirstTlv(p).None? then Tlv(0, None, []) else Tlv(p[0], Some(p[1]), p[2..p[1]])
  }

  function WrittenLength(tlv: Tlv): int
  {
    if tlv.length.Some? then tlv.length.value else |tlv.value| + 2
  }

  /** The Type is masked to an octet, the Length clamped to one. */
  function TlvBytes(tlv: Tlv): seq<byte>
  {
    [tlv.kind % 256, Clamp(WrittenLength(tlv), 255)] + tlv.value
  }

  function SettledTlv(tlv: Tlv): Tlv
  {
    tlv.(length := Some(WrittenLength(tlv)))
  }

  predicate GoodTlv(tlv: Tlv)
  {
    0 <= tlv.kind <= 255 && WrittenLength(tlv) == 2 + |tlv.value| <= 255
  }

  function TlvFormat(): Format<Tlv>
  {
    Format(FirstTlv, ReadTlv, TlvBytes, SettledTlv, GoodTlv)
  }

  function HeaderOf(p: seq<byte>): Header
    requires |p| >= 12
  {
    Header(p[0], p[1], GetU16(BE, p, 2), p[4..6], p[6..12])
  }

  function HeaderBytes(h: Header): (r: seq<byte>)
    ensures |r| == 12
  {
    [Clamp(h.version, 255)] + [Clamp(h.unknown1, 255)] + PutU16(BE, Clamp(h.group, 65535)) + h.unknown2 + h.ownerId
  }

  predicate GoodHeader(h: Header)
  {
    0 <= h.version <= 255 && 0 <= h.unknown1 <= 255 && 0 <= h.group <= 65535
  }

  function Decoded(p: seq<byte>): Message
    requires |p| >= 12
  {
    Message(HeaderOf(p), Walk(TlvFormat(), p[12..]))
  }

  function Encoded(m: Message): seq<byte>
  {
    HeaderBytes(m.header) + Printed(TlvFormat(), m.tlvs)
  }

  function HeaderIssues(h: Header): seq<Issue>
  {
    Issues(h.version, 255, 0, "version") + Issues(h.unknown1, 255, 0, "unknown1") + Issues(h.group, 65535, 0, "group")
  }

  function LengthIssue(tlv: Tlv, index: nat): seq<Issue>
  {
    Issues(WrittenLength(tlv), 255, index, "length")
  }

  function TlvIssues(tlvs: seq<Tlv>): seq<Issue>
  {
    Reported(LengthIssue, tlvs)
  }

  // ---- decoding ----

  method DecodeHeader(b: PacketBuffer, ghost visible: seq<byte>, ghost payload: seq<byte>) returns (h: Header)
    requires Reading(b, visible, payload) && |payload| >= 12 && b.headerLength <= |payload|
    modifies b
    ensures Reading(b, visible, payload) && b.startPos == old(b.startPos) && b.packet == old(b.packet)
    ensures h == HeaderOf(payload) && 12 <= b.headerLength <= |payload|
  {
    hide Reading;
    var version := Take(b, visible, payload, 0, 1);
    var unknown1 := Take(b, visible, payload, 1, 1);
    var group := Take(b, visible, payload, 2, 2);
    GetInSlice(BE, payload, 2, 4, 0);
    hide GetU16;
    var unknown2 := Take(b, visible, payload, 4, 2);
    var ownerId := Take(b, visible, payload, 6, 6);
    h := Header(version[0], unknown1[0], GetU16(BE, group, 0), unknown2, ownerId);
  }

  lemma TlvAt(payload: seq<byte>, offset: nat)
    requires offset + 2 <= |payload|
    ensures var rest, length: int := payload[offset..], payload[offset + 1];
      if length < 2 || offset + length > |payload| then !Complete(TlvFormat(), rest)
      else
        && Complete(TlvFormat(), rest) && FirstTlv(rest) == Some(length)
        && ReadTlv(rest) == Tlv(payload[offset], Some(length), payload[offset + 2..offset + length])
  {
    var rest, length: int := payload[offset..], payload[offset + 1];
    assert rest[0] == payload[offset] && rest[1] == payload[offset + 1] && |rest| == |payload| - offset;
    if 2 <= length && offset + length <= |payload| { SliceOfSlice(payload, offset, |payload|, 2, length); }
  }

  method NextTlv(b: PacketBuffer, ghost visible: seq<byte>, ghost payload: seq<byte>, available: nat, offset: nat)
    returns (tlv: Option<Tlv>)
    requires Reading(b, visible, payload) && available == |payload| && offset + 2 <= available
    requires b.headerLength <= available
    modifies b
    ensures Reading(b, visible, payload) && b.startPos == old(b.startPos) && b.packet == old(b.packet)
    ensures tlv.Some? <==> Complete(TlvFormat(), payload[offset..])
    ensures tlv.Some? ==> tlv.value == ReadTlv(payload[offset..]) && tlv.value.length.Some?
    ensures tlv.Some? ==> tlv.value.length == FirstTlv(payload[offset..])
    ensures b.headerLength <= available && (tlv.Some? ==> offset + tlv.value.length.value <= b.headerLength)
  {
    hide Reading, FirstTlv, ReadTlv, Complete;
    TlvAt(payload, offset);
    var kindOctet := Take(b, visible, payload, offset, 1);
    var lengthOctet := Take(b, visible, payload, offset + 1, 1);
    var kind, length: int := kindOctet[0], lengthOctet[0];
    if length < 2 || offset + length > available { return None; }
    var value: seq<byte> := [];
    if length > 2 {
      value := Take(b, visible, payload, offset + 2, length - 2);
    }
    tlv := Some(Tlv(kind, Some(length), value));
  }

  method Decode(b: PacketBuffer, ghost visible: seq<byte>, ghost payload: seq<byte>, available: nat)
    returns (m: Message)
    requires Reading(b, visible, payload) && available == |payload| && 12 <= available && b.headerLength <= available
    modifies b
    ensures Reading(b, visible, payload) && b.startPos == old(b.startPos) && b.packet == old(b.packet)
    ensures m == Decoded(payload) && b.headerLength == |payload|
  {
    hide Reading, Walk, Preceded, Complete, HeaderOf;
    var header := DecodeHeader(b, visible, payload);
    var tlvs: seq<Tlv>, offset := [], 12;
    WalkBegins(Walk(TlvFormat(), payload[12..]));
    while offset + 2 <= available
      invariant offset <= available && offset <= b.headerLength <= available
      invariant Reading(b, visible, payload) && b.startPos == old(b.startPos) && b.packet == old(b.packet)
      invariant Walk(TlvFormat(), payload[12..]) == Preceded(tlvs, Walk(TlvFormat(), payload[offset..]))
    {
      var tlv := NextTlv(b, visible, payload, available, offset);
      if tlv.None? { break; }
      WalkStep(TlvFormat(), payload, offset, tlvs);
      tlvs := tlvs + [tlv.value];
      offset := offset + tlv.value.length.value;
    }
    ShortIsIncomplete(payload[offset..]);
    WalkStops(TlvFormat(), payload, offset, tlvs);
    var trailing := TakeRest(b, visible, payload, offset, available);
    m := Message(header, Walked(tlvs, trailing));
  }

  lemma ShortIsIncomplete(p: seq<byte>)
    ensures |p| < 2 ==> !Complete(TlvFormat(), p)
  {
  }

  // ---- encoding ----

  method EncodeHeader(b: PacketBuffer, ghost before: seq<byte>, h: Header) returns (issues: seq<Issue>)
    requires Writing(b, before, [])
    modifies b, b.packet
    ensures Writing(b, before, HeaderBytes(h)) && (b.packet == old(b.packet) || fresh(b.packet))
    ensures issues == HeaderIssues(h)
  {
    hide Writing, PutU16, Clamp;
    issues := Issues(h.version, 255, 0, "version");
    var version: seq<byte> := [Clamp(h.version, 255)];
    Append(b, before, [], 0, version);
    AppendNil(version);
    issues := issues + Issues(h.unknown1, 255, 0, "unknown1");
    var unknown1: seq<byte> := [Clamp(h.unknown1, 255)];
    Append(b, before, version, 1, unknown1);
    issues := issues + Issues(h.group, 65535, 0, "group");
    var group := PutU16(BE, Clamp(h.group, 65535));
    Append(b, before, version + unknown1, 2, group);
    Append(b, before, version + unknown1 + group, 4, h.unknown2);
    Append(b, before, version + unknown1 + group + h.unknown2, 6, h.ownerId);
  }

  method WriteTlv(b: PacketBuffer, ghost before: seq<byte>, ghost written: seq<byte>, start: nat, tlv: Tlv)
    returns (offset: nat)
    requires Writing(b, before, written) && start == |written|
    modifies b, b.packet
    ensures Writing(b, before, written + TlvBytes(tlv)) && (b.packet == old(b.packet) || fresh(b.packet))
    ensures offset == |written + TlvBytes(tlv)|
  {
    hide Writing, Clamp;
    var head: seq<byte> := [tlv.kind % 256, Clamp(WrittenLength(tlv), 255)];
    Append(b, before, written, start, head);
    offset := start + 2;
    AppendAssociates(written, head, tlv.value);
    AppendNil(written + head);
    if |tlv.value| > 0 {
      Append(b, before, written + head, offset, tlv.value);
      offset := offset + |tlv.value|;
    }
  }

  method Encode(b: PacketBuffer, ghost before: seq<byte>, m: Message) returns (issues: seq<Issue>)
    requires Writing(b, before, [])
    modifies b, b.packet
    ensures Writing(b, before, Encoded(m))
    ensures issues == HeaderIssues(m.header) + TlvIssues(m.tlvs.items)
  {
    hide Writing, TlvBytes, Issues, Reported, Items, HeaderBytes, HeaderIssues;
    ghost var f, head, tlvs := TlvFormat(), HeaderBytes(m.header), m.tlvs.items;
    NothingYet(TlvFormat(), LengthIssue);
    issues := EncodeHeader(b, before, m.header);
    AppendNil(head);
    AppendNil(issues);
    var offset, i := 12, 0;
    while i < |m.tlvs.items|
      invariant i <= |tlvs| && (b.packet == old(b.packet) || fresh(b.packet))
      invariant Writing(b, before, head + Items(f, tlvs[..i])) && offset == |head + Items(f, tlvs[..i])|
      invariant issues == HeaderIssues(m.header) + TlvIssues(tlvs[..i])
    {
      var tlv := m.tlvs.items[i];
      ItemsStep(f, tlvs, i);
      ReportedStep(LengthIssue, tlvs, i);
      AppendAssociates(head, Items(f, tlvs[..i]), TlvBytes(tlv));
      AppendAssociates(HeaderIssues(m.header), TlvIssues(tlvs[..i]), Issues(WrittenLength(tlv), 255, i, "length"));
      issues := issues + Issues(WrittenLength(tlv), 255, i, "length");
      offset := WriteTlv(b, before, head + Items(f, tlvs[..i]), offset, tlv);
      i := i + 1;
    }
    assert tlvs[..i] == tlvs;
    AppendAssociates(head, Items(f, tlvs), m.tlvs.rest);
    AppendNil(Items(f, tlvs));
    if |m.tlvs.rest| > 0 {
      Append(b, before, head + Items(f, tlvs), offset, m.tlvs.rest);
    }
  }

  // ---- round trips ----

  lemma TlvsLawful()
    ensures Lawful(TlvFormat())
  {
    forall p | Complete(TlvFormat(), p)
      ensures TlvBytes(ReadTlv(p)) == p[..FirstTlv(p).value] && GoodTlv(ReadTlv(p))
    {
      assert p[..FirstTlv(p).value] == [p[0], p[1]] + p[2..p[1]];
    }
    forall tlv, rest | GoodTlv(tlv)
      ensures FirstTlv(TlvBytes(tlv) + rest) == Some(|TlvBytes(tlv)|) && |TlvBytes(tlv)| >= 1
      ensures ReadTlv(TlvBytes(tlv) + rest) == SettledTlv(tlv)
    {
      var p := TlvBytes(tlv) + rest;
      assert p[2..2 + |tlv.value|] == tlv.value;
    }
  }

  lemma HeaderRoundTrip(p: seq<byte>, h: Header)
    requires |p| >= 12
    ensures HeaderBytes(HeaderOf(p)) == p[..12] && HeaderIssues(HeaderOf(p)) == []
    ensures HeaderOf(HeaderBytes(h)) == h <==> GoodHeader(h)
  {
    PutGetU16(BE, p, 2);
    assert p[..12] == [p[0]] + [p[1]] + p[2..4] + p[4..6] + p[6..12];
    var w := HeaderBytes(h);
    assert w == [w[0], w[1]] + (PutU16(BE, Clamp(h.group, 65535)) + (h.unknown2 + h.ownerId));
    GetAfter(BE, [w[0], w[1]], PutU16(BE, Clamp(h.group, 65535)) + (h.unknown2 + h.ownerId), 0);
    GetBefore(BE, PutU16(BE, Clamp(h.group, 65535)), h.unknown2 + h.ownerId, 0);
    assert w[4..6] == h.unknown2 && w[6..12] == h.ownerId;
  }

  /** Any payload with the whole fixed header is reproduced, with nothing recorded. */
  lemma DecodeEncode(payload: seq<byte>)
    requires |payload| >= 12
    ensures Encoded(Decoded(payload)) == payload
    ensures HeaderIssues(Decoded(payload).header) + TlvIssues(Decoded(payload).tlvs.items) == []
  {
    hide HeaderBytes, HeaderOf, HeaderIssues, Printed, Walk;
    TlvsLawful();
    WalkPrints(TlvFormat(), payload[12..]);
    WalkedGood(TlvFormat(), payload[12..]);
    NoIssues(Decoded(payload).tlvs.items);
    HeaderRoundTrip(payload, HeaderOf(payload));
    assert payload == payload[..12] + payload[12..];
  }

  lemma NoIssues(tlvs: seq<Tlv>)
    requires forall i :: 0 <= i < |tlvs| ==> TlvFormat().good(tlvs[i])
    ensures TlvIssues(tlvs) == []
  {
    forall i | 0 <= i < |tlvs| ensures LengthIssue(tlvs[i], i) == [] { assert TlvFormat().good(tlvs[i]); }
    ReportedNone(LengthIssue, tlvs);
  }

  /** A crafted message comes back exactly when its fields fit, its TLVs are good and no TLV hides in its tail. */
  lemma EncodeDecodeIff(m: Message)
    ensures Decoded(Encoded(m)) == Message(m.header, Walked(Settled(TlvFormat(), m.tlvs.items), m.tlvs.rest))
       <==> GoodHeader(m.header) && (forall i :: 0 <= i < |m.tlvs.items| ==> GoodTlv(m.tlvs.items[i]))
            && FirstTlv(m.tlvs.rest).None?
  {
    var p := Encoded(m);
    HeaderRoundTrip(HeaderBytes(m.header), m.header);
    SameHeader(HeaderBytes(m.header), Printed(TlvFormat(), m.tlvs));
    assert p[12..] == Printed(TlvFormat(), m.tlvs);
    TlvsLawful();
    PrintWalksIff(TlvFormat(), m.tlvs);
    assert forall i :: 0 <= i < |m.tlvs.items| ==> TlvFormat().good(m.tlvs.items[i]) == GoodTlv(m.tlvs.items[i]);
  }

  lemma SameHeader(h: seq<byte>, rest: seq<byte>)
    requires |h| == 12
    ensures HeaderOf(h + rest) == HeaderOf(h)
  {
    GetBefore(BE, h, rest, 2);
    assert (h + rest)[4..6] == h[4..6] && (h + rest)[6..12] == h[6..12];
  }

  // ---- the octets of a message ----

  /** Type, a Length that counts both of them, and the value. */
  function TlvWire(tlv: Tlv): seq<byte>
    requires GoodTlv(tlv)
  {
    [tlv.kind, 2 + |tlv.value|] + tlv.value
  }

  function TlvsWire(tlvs: seq<Tlv>): seq<byte>
    requires forall i :: 0 <= i < |tlvs| ==> GoodTlv(tlvs[i])
  {
    if tlvs == [] then [] else TlvWire(tlvs[0]) + TlvsWire(tlvs[1..])
  }

  /** Version, an unknown octet, the group in two octets, two unknown octets, the owner, the TLVs and the tail. */
  function Wire(m: Message): seq<byte>
    requires GoodHeader(m.header) && forall i :: 0 <= i < |m.tlvs.items| ==> GoodTlv(m.tlvs.items[i])
  {
    var h := m.header;
    [h.version, h.unknown1, h.group / 256, h.group % 256] + h.unknown2 + h.ownerId + TlvsWire(m.tlvs.items)
      + m.tlvs.rest
  }

  lemma {:induction false} TlvsWired(tlvs: seq<Tlv>)
    requires forall i :: 0 <= i < |tlvs| ==> GoodTlv(tlvs[i])
    ensures Items(TlvFormat(), tlvs) == TlvsWire(tlvs)
    decreases |tlvs|
  {
    if tlvs != [] {
      assert GoodTlv(tlvs[0]);
      TlvsWired(tlvs[1..]);
    }
  }

  /** A good message is written in these octets, and read from them. */
  lemma WireDecodes(m: Message)
    requires GoodHeader(m.header) && forall i :: 0 <= i < |m.tlvs.items| ==> GoodTlv(m.tlvs.items[i])
    ensures Encoded(m) == Wire(m)
    ensures FirstTlv(m.tlvs.rest).None? ==>
      Decoded(Wire(m)) == Message(m.header, Walked(Settled(TlvFormat(), m.tlvs.items), m.tlvs.rest))
  {
    hide Items, TlvsWire, Decoded, FirstTlv;
    TlvsWired(m.tlvs.items);
    EncodeDecodeIff(m);
    var h := m.header;
    assert PutU16(BE, h.group) == [h.group / 256, h.group % 256];
    assert HeaderBytes(h) == [h.version, h.unknown1, h.group / 256, h.group % 256] + h.unknown2 + h.ownerId;
  }

  /** A Type out of range is written modulo 256. */
  lemma KindWraps(tlv: Tlv)
    ensures (TlvBytes(tlv)[0] - tlv.kind) % 256 == 0
  {
  }

  /** Encoding records an issue for each fixed field that does not fit, and for no other. */
  lemma HeaderIssuesTell(h: Header)
    ensures HeaderIssues(h) == [] <==> GoodHeader(h)
    ensures AboveMaximum(0, "version") in HeaderIssues(h) <==> h.version > 255
    ensures AboveMaximum(0, "unknown1") in HeaderIssues(h) <==> h.unknown1 > 255
    ensures AboveMaximum(0, "group") in HeaderIssues(h) <==> h.group > 65535
  {
  }

  /** A Length out of range is recorded against its TLV. */
  lemma LengthIssueTells(tlv: Tlv, index: nat)
    ensures AboveMaximum(index, "length") in LengthIssue(tlv, index) <==> WrittenLength(tlv) > 255
    ensures BelowMinimum(index, "length") in LengthIssue(tlv, index) <==> WrittenLength(tlv) < 0
  {
  }

  /** Without a Length given, every TLV that fits is good: the Length derived is its own. */
  lemma DerivedLengthGood(tlv: Tlv)
    requires tlv.length.None? && 0 <= tlv.kind <= 255 && |tlv.value| <= 253
    ensures GoodTlv(tlv)
  {
  }
}
