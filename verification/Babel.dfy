/** The Babel packet: a TLV walk bounded by both the body length and the payload, Pad1 octets, and a trailer. */
module Babel {
  import opened Bytes
  import opened HeaderFields
  import opened PacketBuffer
  import opened TlvWalk

  /** One TLV; a Pad1 (Type 0, or none given) is a bare octet, written without Length or Value. */
  datatype Tlv = Tlv(kind: Option<int>, length: Option<int>, value: seq<byte>)

  const PAD1: Tlv := Tlv(Some(0), None, [])

  /** `tlv.type ? tlv.type : 0` */
  function WrittenKind(tlv: Tlv): int
  {
    if tlv.kind.Some? then tlv.kind.value else 0
  }

  datatype Message = Message(magic: int, version: int, bodyLength: Option<int>, tlvs: seq<Tlv>, trailer: seq<byte>)

  function FirstTlv(p: seq<byte>): Option<nat>
  {
    if |p| == 0 then None
    else if p[0] == 0 then Some(1)
    else if |p| < 2 then None
    else
      var length: int := p[1];
      if 2 + length > |p| then None else Some(2 + length)
  }

  function ReadTlv(p: seq<byte>): Tlv
  {
    if FirstTlv(p).None? || p[0] == 0 then PAD1 else Tlv(Some(p[0]), Some(p[1]), p[2..2 + p[1]])
  }

  /** The value cut to what a one-octet Length can count. */
  function WrittenValue(tlv: Tlv): seq<byte>
  {
    if |tlv.value| > 255 then tlv.value[..255] else tlv.value
  }

  function WrittenLength(tlv: Tlv): int
  {
    if tlv.length.Some? then tlv.length.value else |WrittenValue(tlv)|
  }

  function TlvBytes(tlv: Tlv): seq<byte>
  {
    if WrittenKind(tlv) == 0 then [0]
    else [WrittenKind(tlv) % 256] + [Clamp(WrittenLength(tlv), 255)] + WrittenValue(tlv)
  }

  function SettledTlv(tlv: Tlv): Tlv
  {
    if WrittenKind(tlv) == 0 then PAD1 else tlv.(length := Some(WrittenLength(tlv)))
  }

  predicate GoodTlv(tlv: Tlv)
  {
    WrittenKind(tlv) == 0 || (1 <= WrittenKind(tlv) <= 255 && WrittenLength(tlv) == |tlv.value| <= 255)
  }

  function TlvFormat(): Format<Tlv>
  {
    Format(FirstTlv, ReadTlv, TlvBytes, SettledTlv, GoodTlv)
  }

  /** The body length derived from the TLVs. */
  function Derived(tlvs: seq<Tlv>): nat
  {
    if tlvs == [] then 0
    else Derived(tlvs[..|tlvs| - 1]) + if tlvs[|tlvs| - 1].kind == Some(0) then 1 else 2 + |tlvs[|tlvs| - 1].value|
  }

  function BodyLength(m: Message): int
  {
    if m.bodyLength.Some? then m.bodyLength.value else Derived(m.tlvs)
  }

  function BodyEnd(p: seq<byte>): (end: nat)
    requires |p| >= 4
    ensures 4 <= end <= |p|
  {
    Min(4 + GetU16(BE, p, 2), |p|)
  }

  function Decoded(p: seq<byte>): Message
    requires |p| >= 4
  {
    var end := BodyEnd(p);
    var w := Walk(TlvFormat(), p[..end][4..]);
    Message(p[0], p[1], Some(GetU16(BE, p, 2)), w.items, w.rest + p[end..])
  }

  function HeadBytes(m: Message): (r: seq<byte>)
    ensures |r| == 4
  {
    [Clamp(m.magic, 255)] + [Clamp(m.version, 255)] + PutU16(BE, Clamp(BodyLength(m), 65535))
  }

  function Encoded(m: Message): seq<byte>
  {
    HeadBytes(m) + (Items(TlvFormat(), m.tlvs) + m.trailer)
  }

  function HeadIssues(m: Message): seq<Issue>
  {
    Issues(m.magic, 255, 0, "magic") + Issues(m.version, 255, 0, "version")
      + Issues(BodyLength(m), 65535, 0, "bodyLength")
  }

  function ValueIssue(tlv: Tlv, index: nat): seq<Issue>
  {
    if WrittenKind(tlv) != 0 && |tlv.value| > 255 then [AboveMaximum(index, "value")] else []
  }

  function TlvIssues(tlvs: seq<Tlv>): seq<Issue>
  {
    Reported(ValueIssue, tlvs)
  }

  predicate GoodTlvs(tlvs: seq<Tlv>)
  {
    forall i :: 0 <= i < |tlvs| ==> GoodTlv(tlvs[i])
  }

  // ---- decoding ----

  lemma TlvAt(payload: seq<byte>, bodyEnd: nat, offset: nat)
    requires offset < bodyEnd <= |payload|
    ensures payload[offset] == 0 ==> Complete(TlvFormat(), payload[..bodyEnd][offset..])
    ensures payload[offset] == 0 ==>
      FirstTlv(payload[..bodyEnd][offset..]) == Some(1) && ReadTlv(payload[..bodyEnd][offset..]) == PAD1
    ensures payload[offset] != 0 && offset + 2 > bodyEnd ==> !Complete(TlvFormat(), payload[..bodyEnd][offset..])
    ensures payload[offset] != 0 && offset + 2 <= bodyEnd ==>
      var length: int, next := payload[offset + 1], offset + 2 + payload[offset + 1] as int;
      if next > bodyEnd then !Complete(TlvFormat(), payload[..bodyEnd][offset..])
      else (Complete(TlvFormat(), payload[..bodyEnd][offset..])
            && FirstTlv(payload[..bodyEnd][offset..]) == Some(2 + length)
        && ReadTlv(payload[..bodyEnd][offset..]) == Tlv(Some(payload[offset]), Some(length), payload[offset + 2..next]))
  {
    var rest := payload[..bodyEnd][offset..];
    assert |rest| == bodyEnd - offset && rest[0] == payload[offset];
    if offset + 2 <= bodyEnd {
      assert rest[1] == payload[offset + 1];
      var next := offset + 2 + payload[offset + 1] as int;
      if next <= bodyEnd {
        assert rest == payload[offset..bodyEnd];
        SliceOfSlice(payload, offset, bodyEnd, 2, next - offset);
      }
    }
  }

  method NextTlv(b: PacketBuffer, ghost visible: seq<byte>, ghost payload: seq<byte>, bodyEnd: nat, offset: nat)
    returns (tlv: Option<Tlv>, next: nat)
    requires Reading(b, visible, payload) && offset < bodyEnd <= |payload| && b.headerLength <= |payload|
    modifies b
    ensures Reading(b, visible, payload) && b.startPos == old(b.startPos) && b.packet == old(b.packet)
    ensures tlv.Some? <==> Complete(TlvFormat(), payload[..bodyEnd][offset..])
    ensures tlv.Some? ==> tlv.value == ReadTlv(payload[..bodyEnd][offset..])
    ensures tlv.Some? ==>
      next == offset + FirstTlv(payload[..bodyEnd][offset..]).value && offset < next <= b.headerLength
    ensures b.headerLength <= |payload|
  {
    hide Reading, FirstTlv, ReadTlv, Complete;
    TlvAt(payload, bodyEnd, offset);
    next := offset;
    var kindOctet := Take(b, visible, payload, offset, 1);
    var kind: int := kindOctet[0];
    if kind == 0 { return Some(PAD1), offset + 1; }
    if offset + 2 > bodyEnd { return None, offset; }
    var lengthOctet := Take(b, visible, payload, offset + 1, 1);
    var length: int := lengthOctet[0];
    if offset + 2 + length > bodyEnd { return None, offset; }
    var value: seq<byte> := [];
    if length > 0 {
      value := Take(b, visible, payload, offset + 2, length);
    }
    tlv, next := Some(Tlv(Some(kind), Some(length), value)), offset + 2 + length;
  }

  method DecodeHead(b: PacketBuffer, ghost visible: seq<byte>, ghost payload: seq<byte>)
    returns (magic: byte, version: byte, bodyLength: nat)
    requires Reading(b, visible, payload) && |payload| >= 4 && b.headerLength <= |payload|
    modifies b
    ensures Reading(b, visible, payload) && b.startPos == old(b.startPos) && b.packet == old(b.packet)
    ensures magic == payload[0] && version == payload[1] && bodyLength == GetU16(BE, payload, 2)
    ensures 4 <= b.headerLength <= |payload|
  {
    hide Reading;
    var first := Take(b, visible, payload, 0, 1);
    var second := Take(b, visible, payload, 1, 1);
    var length := Take(b, visible, payload, 2, 2);
    GetInSlice(BE, payload, 2, 4, 0);
    magic, version, bodyLength := first[0], second[0], GetU16(BE, length, 0);
  }

  method Decode(b: PacketBuffer, ghost visible: seq<byte>, ghost payload: seq<byte>, payloadEnd: nat)
    returns (m: Message)
    requires Reading(b, visible, payload) && payloadEnd == |payload| && 4 <= payloadEnd && b.headerLength <= payloadEnd
    modifies b
    ensures Reading(b, visible, payload) && b.startPos == old(b.startPos) && b.packet == old(b.packet)
    ensures m == Decoded(payload) && b.headerLength == |payload|
  {
    hide Reading, Walk, Preceded, Complete, GetU16;
    var magic, version, bodyLength := DecodeHead(b, visible, payload);
    var bodyEnd := 4 + bodyLength;
    if bodyEnd > payloadEnd { bodyEnd := payloadEnd; }
    ghost var body := payload[..bodyEnd];
    var tlvs: seq<Tlv>, offset := [], 4;
    WalkBegins(Walk(TlvFormat(), body[4..]));
    while offset < bodyEnd
      invariant offset <= bodyEnd && offset <= b.headerLength <= payloadEnd
      invariant Reading(b, visible, payload) && b.startPos == old(b.startPos) && b.packet == old(b.packet)
      invariant Walk(TlvFormat(), body[4..]) == Preceded(tlvs, Walk(TlvFormat(), body[offset..]))
    {
      var tlv, next := NextTlv(b, visible, payload, bodyEnd, offset);
      if tlv.None? { break; }
      WalkStep(TlvFormat(), body, offset, tlvs);
      tlvs := tlvs + [tlv.value];
      offset := next;
    }
    EmptyIsIncomplete(body[offset..]);
    WalkStops(TlvFormat(), body, offset, tlvs);
    var trailer := TakeRest(b, visible, payload, offset, payloadEnd);
    TailSplits(payload, bodyEnd, offset);
    m := Message(magic, version, Some(bodyLength), tlvs, trailer);
  }

  lemma TailSplits(p: seq<byte>, end: nat, offset: nat)
    requires offset <= end <= |p|
    ensures p[offset..] == p[..end][offset..] + p[end..]
  {
    assert p[..end][offset..] == p[offset..end];
    assert p[offset..] == p[offset..end] + p[end..];
  }

  lemma EmptyIsIncomplete(p: seq<byte>)
    ensures |p| == 0 ==> !Complete(TlvFormat(), p)
  {
  }

  // ---- encoding ----

  /**
   * The loop of the body length's encoder: the octets the TLVs are printed in exactly when each counts as it is
   * printed.
   */
  method DeriveBodyLength(tlvs: seq<Tlv>) returns (total: nat)
    ensures total == Derived(tlvs) && |Items(TlvFormat(), tlvs)| <= total
    ensures total == |Items(TlvFormat(), tlvs)| <==> AllCounted(tlvs)
  {
    DerivedCountsIff(tlvs);
    total := 0;
    var i := 0;
    while i < |tlvs|
      invariant i <= |tlvs| && total == Derived(tlvs[..i])
    {
      assert tlvs[..i + 1][..i] == tlvs[..i];
      if tlvs[i].kind == Some(0) { total := total + 1; } else { total := total + 2 + |tlvs[i].value|; }
      i := i + 1;
    }
    assert tlvs[..i] == tlvs;
  }

  method EncodeHead(b: PacketBuffer, ghost before: seq<byte>, m: Message) returns (issues: seq<Issue>)
    requires Writing(b, before, [])
    modifies b, b.packet
    ensures Writing(b, before, HeadBytes(m)) && (b.packet == old(b.packet) || fresh(b.packet))
    ensures issues == HeadIssues(m)
  {
    hide Writing, PutU16, Clamp, Derived;
    issues := Issues(m.magic, 255, 0, "magic");
    var magic: seq<byte> := [Clamp(m.magic, 255)];
    Append(b, before, [], 0, magic);
    AppendNil(magic);
    issues := issues + Issues(m.version, 255, 0, "version");
    var version: seq<byte> := [Clamp(m.version, 255)];
    Append(b, before, magic, 1, version);
    var length: int;
    if m.bodyLength.Some? { length := m.bodyLength.value; } else { length := DeriveBodyLength(m.tlvs); }
    issues := issues + Issues(length, 65535, 0, "bodyLength");
    Append(b, before, magic + version, 2, PutU16(BE, Clamp(length, 65535)));
  }

  method WriteTlv(b: PacketBuffer, ghost before: seq<byte>, ghost written: seq<byte>, start: nat, tlv: Tlv)
    returns (offset: nat)
    requires Writing(b, before, written) && start == |written|
    modifies b, b.packet
    ensures Writing(b, before, written + TlvBytes(tlv)) && (b.packet == old(b.packet) || fresh(b.packet))
    ensures offset == |written + TlvBytes(tlv)|
  {
    hide Writing, Clamp;
    if WrittenKind(tlv) == 0 {
      Append(b, before, written, start, [0]);
      return start + 1;
    }
    var kind: seq<byte>, length: seq<byte>, value :=
      [WrittenKind(tlv) % 256], [Clamp(WrittenLength(tlv), 255)], WrittenValue(tlv);
    Append(b, before, written, start, kind);
    Append(b, before, written + kind, start + 1, length);
    offset := start + 2;
    AppendAssociates(written, kind, length);
    AppendAssociates(written, kind + length, value);
    AppendNil(written + kind + length);
    if |value| > 0 {
      Append(b, before, written + kind + length, offset, value);
      offset := offset + |value|;
    }
  }

  method Encode(b: PacketBuffer, ghost before: seq<byte>, m: Message) returns (issues: seq<Issue>)
    requires Writing(b, before, [])
    modifies b, b.packet
    ensures Writing(b, before, Encoded(m))
    ensures issues == HeadIssues(m) + TlvIssues(m.tlvs)
  {
    hide Writing, TlvBytes, ValueIssue, Reported, Items, HeadBytes, HeadIssues;
    ghost var f, head := TlvFormat(), HeadBytes(m);
    NothingYet(TlvFormat(), ValueIssue);
    issues := EncodeHead(b, before, m);
    AppendNil(head);
    AppendNil(issues);
    var offset, i := 4, 0;
    while i < |m.tlvs|
      invariant i <= |m.tlvs| && (b.packet == old(b.packet) || fresh(b.packet))
      invariant Writing(b, before, head + Items(f, m.tlvs[..i])) && offset == |head + Items(f, m.tlvs[..i])|
      invariant issues == HeadIssues(m) + TlvIssues(m.tlvs[..i])
    {
      ItemsStep(f, m.tlvs, i);
      ReportedStep(ValueIssue, m.tlvs, i);
      AppendAssociates(head, Items(f, m.tlvs[..i]), TlvBytes(m.tlvs[i]));
      AppendAssociates(HeadIssues(m), TlvIssues(m.tlvs[..i]), ValueIssue(m.tlvs[i], i));
      issues := issues + ValueIssue(m.tlvs[i], i);
      offset := WriteTlv(b, before, head + Items(f, m.tlvs[..i]), offset, m.tlvs[i]);
      i := i + 1;
    }
    assert m.tlvs[..i] == m.tlvs;
    AppendAssociates(head, Items(f, m.tlvs), m.trailer);
    AppendNil(Items(f, m.tlvs));
    if |m.trailer| > 0 {
      Append(b, before, head + Items(f, m.tlvs), offset, m.trailer);
    }
  }

  // ---- round trips ----

  lemma TlvSpelled(p: seq<byte>)
    requires Complete(TlvFormat(), p)
    ensures TlvBytes(ReadTlv(p)) == p[..FirstTlv(p).value] && GoodTlv(ReadTlv(p))
  {
    if p[0] == 0 {
      assert p[..1] == [0];
    } else {
      assert p[..2 + p[1]] == [p[0]] + [p[1]] + p[2..2 + p[1]];
    }
  }

  lemma TlvRead(tlv: Tlv, rest: seq<byte>)
    requires GoodTlv(tlv)
    ensures FirstTlv(TlvBytes(tlv) + rest) == Some(|TlvBytes(tlv)|) && |TlvBytes(tlv)| >= 1
    ensures ReadTlv(TlvBytes(tlv) + rest) == SettledTlv(tlv)
  {
    var p := TlvBytes(tlv) + rest;
    if WrittenKind(tlv) != 0 { assert p[2..2 + |tlv.value|] == tlv.value; }
  }

  lemma TlvsLawful()
    ensures Lawful(TlvFormat())
  {
    hide FirstTlv, ReadTlv, TlvBytes;
    forall p | Complete(TlvFormat(), p)
      ensures TlvBytes(ReadTlv(p)) == p[..FirstTlv(p).value] && GoodTlv(ReadTlv(p))
    {
      TlvSpelled(p);
    }
    forall tlv, rest | GoodTlv(tlv)
      ensures FirstTlv(TlvBytes(tlv) + rest) == Some(|TlvBytes(tlv)|) && |TlvBytes(tlv)| >= 1
      ensures ReadTlv(TlvBytes(tlv) + rest) == SettledTlv(tlv)
    {
      TlvRead(tlv, rest);
    }
  }

  lemma BodyReproduced(p: seq<byte>)
    requires |p| >= 4
    ensures Items(TlvFormat(), Decoded(p).tlvs) + Decoded(p).trailer == p[4..]
    ensures GoodTlvs(Decoded(p).tlvs)
  {
    hide Walk, Lawful, BodyEnd, Items, GetU16;
    var end := BodyEnd(p);
    var region := p[..end][4..];
    TlvsLawful();
    WalkPrints(TlvFormat(), region);
    WalkedGood(TlvFormat(), region);
    var w := Walk(TlvFormat(), region);
    AppendAssociates(Items(TlvFormat(), w.items), w.rest, p[end..]);
    assert region + p[end..] == p[4..];
    assert forall i :: 0 <= i < |w.items| ==> TlvFormat().good(w.items[i]) == GoodTlv(w.items[i]);
  }

  lemma HeadReproduced(p: seq<byte>)
    requires |p| >= 4
    ensures HeadBytes(Decoded(p)) == p[..4] && HeadIssues(Decoded(p)) == []
  {
    hide Walk, BodyEnd;
    PutGetU16(BE, p, 2);
    hide GetU16, PutU16;
    assert p[..4] == [p[0]] + [p[1]] + p[2..4];
  }

  /** Any payload holding the four header octets is reproduced, a lying body length included, with nothing recorded. */
  lemma DecodeEncode(p: seq<byte>)
    requires |p| >= 4
    ensures Encoded(Decoded(p)) == p
    ensures HeadIssues(Decoded(p)) + TlvIssues(Decoded(p).tlvs) == []
  {
    BodyReproduced(p);
    HeadReproduced(p);
    NoIssues(Decoded(p).tlvs);
    hide Decoded, Items, HeadBytes;
    assert p == p[..4] + p[4..];
  }

  lemma NoIssues(tlvs: seq<Tlv>)
    requires GoodTlvs(tlvs)
    ensures TlvIssues(tlvs) == []
  {
    forall i | 0 <= i < |tlvs| ensures ValueIssue(tlvs[i], i) == [] { assert GoodTlv(tlvs[i]); }
    ReportedNone(ValueIssue, tlvs);
  }

  predicate GoodHead(m: Message)
  {
    0 <= m.magic <= 255 && 0 <= m.version <= 255 && 0 <= BodyLength(m) <= 65535
  }

  /** The trailer octets a decoder still counts as body. */
  function Overhang(m: Message): seq<byte>
  {
    var k := BodyLength(m) - |Items(TlvFormat(), m.tlvs)|;
    if k <= 0 then [] else m.trailer[..Min(k, |m.trailer|)]
  }

  function SettledMessage(m: Message): Message
  {
    m.(bodyLength := Some(BodyLength(m)), tlvs := Settled(TlvFormat(), m.tlvs))
  }

  /**
   * A crafted message comes back exactly when its head fits, its TLVs are good, the body length covers them,
   * and no TLV hides in the trailer octets it covers as well.
   */
  lemma EncodeDecodeIff(m: Message)
    ensures Decoded(Encoded(m)) == SettledMessage(m)
       <==> GoodHead(m) && GoodTlvs(m.tlvs) && |Items(TlvFormat(), m.tlvs)| <= BodyLength(m)
            && FirstTlv(Overhang(m)).None?
  {
    HeadRead(m);
    WalkedShort(m, Encoded(m)[..BodyEnd(Encoded(m))][4..]);
    if GoodHead(m) && |Items(TlvFormat(), m.tlvs)| <= BodyLength(m) { CoveredIff(m); }
  }

  /** The region the decoder walks, and what it leaves to the trailer, when the body length covers the TLVs. */
  lemma RegionOf(m: Message)
    requires GoodHead(m) && |Items(TlvFormat(), m.tlvs)| <= BodyLength(m)
    ensures var p := Encoded(m);
      var end := BodyEnd(p);
      p[..end][4..] == Items(TlvFormat(), m.tlvs) + Overhang(m) && p[end..] == m.trailer[|Overhang(m)|..]
  {
    HeadRead(m);
    var p := Encoded(m);
    var end, items := BodyEnd(p), Items(TlvFormat(), m.tlvs);
    hide Items, HeadBytes, GetU16, Derived;
    assert p[..end][4..] == p[4..][..end - 4];
    assert p[end..] == p[4..][end - 4..];
    assert end - 4 == |items| + |Overhang(m)|;
    assert (items + m.trailer)[..end - 4] == items + Overhang(m);
  }

  lemma OverhangPrefix(m: Message)
    ensures |Overhang(m)| <= |m.trailer| && Overhang(m) == m.trailer[..|Overhang(m)|]
  {
  }

  lemma CoveredIff(m: Message)
    requires GoodHead(m) && |Items(TlvFormat(), m.tlvs)| <= BodyLength(m)
    ensures Decoded(Encoded(m)) == SettledMessage(m) <==> GoodTlvs(m.tlvs) && FirstTlv(Overhang(m)).None?
  {
    RegionOf(m);
    HeadRead(m);
    WalkBackIff(m.tlvs, Overhang(m));
    OverhangPrefix(m);
    var w := Walk(TlvFormat(), Items(TlvFormat(), m.tlvs) + Overhang(m));
    hide Walk, Items, HeadBytes, Overhang, FirstTlv, Encoded, BodyEnd, Settled, GetU16, Derived, GoodTlvs;
    SplitBack(w.rest, Overhang(m), m.trailer);
  }

  lemma WalkBackIff(tlvs: seq<Tlv>, over: seq<byte>)
    ensures Walk(TlvFormat(), Items(TlvFormat(), tlvs) + over) == Walked(Settled(TlvFormat(), tlvs), over)
       <==> GoodTlvs(tlvs) && FirstTlv(over).None?
  {
    hide ReadTlv, TlvBytes, SettledTlv, Walk, Items, Lawful;
    var f := TlvFormat();
    TlvsLawful();
    PrintWalksIff(f, Walked(tlvs, over));
    assert forall i :: 0 <= i < |tlvs| ==> f.good(tlvs[i]) == GoodTlv(tlvs[i]);
    assert Complete(f, over) <==> FirstTlv(over).Some?;
  }

  lemma SplitBack(rest: seq<byte>, over: seq<byte>, trailer: seq<byte>)
    requires |over| <= |trailer| && over == trailer[..|over|]
    ensures rest + trailer[|over|..] == trailer <==> rest == over
  {
    assert over + trailer[|over|..] == trailer;
    if rest + trailer[|over|..] == trailer {
      assert rest == (rest + trailer[|over|..])[..|rest|] == trailer[..|rest|];
    }
  }

  lemma HeadRead(m: Message)
    ensures Encoded(m)[4..] == Items(TlvFormat(), m.tlvs) + m.trailer
    ensures Encoded(m)[0] == Clamp(m.magic, 255) && Encoded(m)[1] == Clamp(m.version, 255)
    ensures GetU16(BE, Encoded(m), 2) == Clamp(BodyLength(m), 65535)
  {
    var length := PutU16(BE, Clamp(BodyLength(m), 65535));
    var tail := Items(TlvFormat(), m.tlvs) + m.trailer;
    var two: seq<byte> := [Clamp(m.magic, 255), Clamp(m.version, 255)];
    assert Encoded(m) == two + (length + tail);
    GetAfter(BE, two, length + tail, 0);
    GetBefore(BE, length, tail, 0);
  }

  /** TLVs that came back out of a region were printed inside it. */
  lemma WalkedShort(m: Message, region: seq<byte>)
    ensures Walk(TlvFormat(), region).items == Settled(TlvFormat(), m.tlvs) ==> |Items(TlvFormat(), m.tlvs)| <= |region|
  {
    if Walk(TlvFormat(), region).items == Settled(TlvFormat(), m.tlvs) { WalkedBack(m, region); }
  }

  lemma WalkedBack(m: Message, region: seq<byte>)
    requires Walk(TlvFormat(), region).items == Settled(TlvFormat(), m.tlvs)
    ensures |Items(TlvFormat(), m.tlvs)| <= |region|
  {
    var f := TlvFormat();
    TlvsLawful();
    WalkPrints(f, region);
    WalkedGood(f, region);
    forall i | 0 <= i < |m.tlvs| ensures f.good(m.tlvs[i]) {
      assert f.good(Settled(f, m.tlvs)[i]);
    }
    SettledPrints(f, m.tlvs);
  }

  /** With the body length left to be derived, good TLVs with a type come back whatever the trailer holds. */
  lemma DerivedComesBack(m: Message)
    requires m.bodyLength == None && GoodTlvs(m.tlvs) && forall i :: 0 <= i < |m.tlvs| ==> m.tlvs[i].kind.Some?
    ensures BodyLength(m) == |Items(TlvFormat(), m.tlvs)| && Overhang(m) == []
    ensures GoodHead(m) ==> Decoded(Encoded(m)) == SettledMessage(m)
  {
    DerivedCountsIff(m.tlvs);
    assert AllCounted(m.tlvs) by { assert forall i :: 0 <= i < |m.tlvs| ==> GoodTlv(m.tlvs[i]); }
    EncodeDecodeIff(m);
  }

  /** The TLV is an explicit Pad1, or has a type and no more value than a one-octet Length can count. */
  predicate Counted(tlv: Tlv)
  {
    tlv.kind == Some(0) || (tlv.kind.Some? && |tlv.value| <= 255)
  }

  predicate AllCounted(tlvs: seq<Tlv>)
  {
    forall i :: 0 <= i < |tlvs| ==> Counted(tlvs[i])
  }

  /**
   * The derived length never counts too little, and counts right exactly when every TLV has a type and no value is cut.
   */
  lemma {:induction false} DerivedCountsIff(tlvs: seq<Tlv>)
    ensures |Items(TlvFormat(), tlvs)| <= Derived(tlvs)
    ensures Derived(tlvs) == |Items(TlvFormat(), tlvs)| <==> AllCounted(tlvs)
  {
    if tlvs != [] {
      var n := |tlvs| - 1;
      DerivedCountsIff(tlvs[..n]);
      ItemsStep(TlvFormat(), tlvs, n);
      assert tlvs[..n + 1] == tlvs;
      assert AllCounted(tlvs) <==> AllCounted(tlvs[..n]) && Counted(tlvs[n]);
    }
  }

  /** A value of 256 octets is counted in full, and printed cut to 255. */
  lemma LongValueMiscounted()
    ensures var tlvs := [Tlv(Some(1), None, Zeros(256))]; Derived(tlvs) == 258 && |Items(TlvFormat(), tlvs)| == 257
  {
    var tlv := Tlv(Some(1), None, Zeros(256));
    assert [tlv][1..] == [] && [tlv][..0] == [];
    assert |TlvBytes(tlv)| == 257;
    assert Items(TlvFormat(), [tlv]) == TlvBytes(tlv) + [];
  }

  /**
   * A TLV without a type counts two octets and is printed in one, so a trailer of one zero octet comes back as a TLV.
   */
  lemma TypelessMiscounted()
    ensures var m := Message(42, 2, None, [Tlv(None, None, [])], [0]);
      && Derived(m.tlvs) == 2 && Items(TlvFormat(), m.tlvs) == [0]
      && Decoded(Encoded(m)) != SettledMessage(m)
  {
    var tlv := Tlv(None, None, []);
    var m := Message(42, 2, None, [tlv], [0]);
    assert [tlv][1..] == [] && [tlv][..0] == [];
    assert Items(TlvFormat(), [tlv]) == TlvBytes(tlv) + [];
    assert Overhang(m) == [0];
    EncodeDecodeIff(m);
  }

  // ---- the octets of a packet ----

  /** A bare zero octet for a Pad1; else Type, Length and value. */
  function TlvWire(tlv: Tlv): seq<byte>
    requires GoodTlv(tlv)
  {
    if tlv.kind.None? || tlv.kind.value == 0 then [0] else [tlv.kind.value, |tlv.value|] + tlv.value
  }

  function TlvsWire(tlvs: seq<Tlv>): seq<byte>
    requires GoodTlvs(tlvs)
  {
    if tlvs == [] then [] else TlvWire(tlvs[0]) + TlvsWire(tlvs[1..])
  }

  /** Magic, version, the body length in two octets, the TLVs and the trailer. */
  function Wire(m: Message): seq<byte>
    requires GoodHead(m) && GoodTlvs(m.tlvs)
  {
    [m.magic, m.version, BodyLength(m) / 256, BodyLength(m) % 256] + TlvsWire(m.tlvs) + m.trailer
  }

  lemma {:induction false} TlvsWired(tlvs: seq<Tlv>)
    requires GoodTlvs(tlvs)
    ensures Items(TlvFormat(), tlvs) == TlvsWire(tlvs)
    decreases |tlvs|
  {
    if tlvs != [] {
      assert GoodTlv(tlvs[0]);
      assert TlvBytes(tlvs[0]) == TlvWire(tlvs[0]);
      TlvsWired(tlvs[1..]);
    }
  }

  /** A good message is written in these octets, and read from them when its body length covers just its TLVs. */
  lemma WireDecodes(m: Message)
    requires GoodHead(m) && GoodTlvs(m.tlvs)
    ensures Encoded(m) == Wire(m)
    ensures BodyLength(m) == |TlvsWire(m.tlvs)| ==> Decoded(Wire(m)) == SettledMessage(m)
  {
    hide Items, TlvsWire, Decoded, GoodTlvs, Derived;
    TlvsWired(m.tlvs);
    EncodeDecodeIff(m);
    var n := BodyLength(m);
    assert PutU16(BE, n) == [n / 256, n % 256];
    assert HeadBytes(m) == [m.magic, m.version, n / 256, n % 256];
    AppendAssociates(HeadBytes(m), Items(TlvFormat(), m.tlvs), m.trailer);
  }

  /** Encoding records an issue for each head field that does not fit, and for no other. */
  lemma HeadIssuesTell(m: Message)
    ensures HeadIssues(m) == [] <==> GoodHead(m)
    ensures AboveMaximum(0, "magic") in HeadIssues(m) <==> m.magic > 255
    ensures AboveMaximum(0, "version") in HeadIssues(m) <==> m.version > 255
    ensures AboveMaximum(0, "bodyLength") in HeadIssues(m) <==> BodyLength(m) > 65535
  {
    hide Derived;
  }

  /** A value that is cut is recorded against its TLV. */
  lemma ValueIssueTells(tlv: Tlv, index: nat)
    ensures ValueIssue(tlv, index) != [] <==> TlvBytes(tlv) != [0] && WrittenValue(tlv) != tlv.value
    ensures ValueIssue(tlv, index) != [] ==> ValueIssue(tlv, index) == [AboveMaximum(index, "value")]
  {
  }

  /** Without a Length given, every TLV that fits is good: the Length derived is its value's. */
  lemma DerivedLengthGood(tlv: Tlv)
    requires tlv.length.None? && 0 <= WrittenKind(tlv) <= 255 && |tlv.value| <= 255
    ensures GoodTlv(tlv)
  {
  }
}
