/** The collectd part walk: any payload survives decode and encode. */
module Collectd {
  import opened Bytes
  import opened HeaderFields
  import opened PacketBuffer
  import opened TlvWalk

  /** One part; `length` is the on-wire Length when supplied, counting the 4-octet part header. */
  datatype Part = Part(kind: int, length: Option<int>, value: seq<byte>)

  /** The complete part at the front of `p`, by its length. */
  function FirstPart(p: seq<byte>): Option<nat>
  {
    if |p| < 4 then None
    else if GetU16(BE, p, 2) < 4 || GetU16(BE, p, 2) > |p| then None
    else Some(GetU16(BE, p, 2))
  }

  function ReadPart(p: seq<byte>): Part
  {
    if FirstPart(p).None? then Part(0, None, [])
    else Part(GetU16(BE, p, 0), Some(FirstPart(p).value), p[4..FirstPart(p).value])
  }

  /** The Length a part is written with: the one supplied, else the one its value gives. */
  function WrittenLength(part: Part): int
  {
    if part.length.Some? then part.length.value else 4 + |part.value|
  }

  function PartBytes(part: Part): seq<byte>
  {
    PutU16(BE, Clamp(part.kind, 65535)) + PutU16(BE, Clamp(WrittenLength(part), 65535)) + part.value
  }

  function SettledPart(part: Part): Part
  {
    part.(length := Some(WrittenLength(part)))
  }

  /** The Type and Length fit the wire, and the Length covers the value. */
  predicate GoodPart(part: Part)
  {
    0 <= part.kind <= 65535 && WrittenLength(part) == 4 + |part.value| <= 65535
  }

  function PartFormat(): Format<Part>
  {
    Format(FirstPart, ReadPart, PartBytes, SettledPart, GoodPart)
  }

  function PartIssues(part: Part, index: nat): seq<Issue>
  {
    Issues(part.kind, 65535, index, "type") + Issues(WrittenLength(part), 65535, index, "length")
  }

  function AllIssues(parts: seq<Part>): seq<Issue>
  {
    Reported(PartIssues, parts)
  }

  // ---- the field codec ----

  lemma PeekedPart(p: seq<byte>, offset: nat, header: seq<byte>)
    requires offset + 4 <= |p| && header == p[offset..offset + 4]
    ensures var length := GetU16(BE, header, 2);
      if length < 4 || offset + length > |p| then !Complete(PartFormat(), p[offset..])
      else (Complete(PartFormat(), p[offset..]) && FirstPart(p[offset..]) == Some(length)
        && ReadPart(p[offset..]) == Part(GetU16(BE, header, 0), Some(length), p[offset..offset + length][4..length]))
  {
    var rest := p[offset..];
    assert header == rest[..4];
    GetBefore(BE, header, rest[4..], 0);
    GetBefore(BE, header, rest[4..], 2);
    assert rest == header + rest[4..];
    hide GetU16;
    var length := GetU16(BE, header, 2);
    if length >= 4 && offset + length <= |p| {
      assert p[offset..offset + length] == rest[..length];
    }
  }

  /** Peeks a part header and, when the part is complete, commits to the whole of it. */
  method NextPart(b: PacketBuffer, ghost visible: seq<byte>, ghost payload: seq<byte>, available: nat, offset: nat)
    returns (part: Option<Part>)
    requires Reading(b, visible, payload) && available == |payload| && offset + 4 <= available
    modifies b
    ensures Reading(b, visible, payload) && b.startPos == old(b.startPos) && b.packet == old(b.packet)
    ensures part.Some? <==> Complete(PartFormat(), payload[offset..])
    ensures part.Some? ==> part.value == ReadPart(payload[offset..]) && part.value.length.Some?
    ensures part.Some? ==> part.value.length == FirstPart(payload[offset..])
    ensures b.headerLength == if part.None? then old(b.headerLength)
      else Max(old(b.headerLength), offset + part.value.length.value)
  {
    hide Reading, GetU16, FirstPart, ReadPart, Complete;
    var header := Peek(b, visible, payload, offset, 4);
    PeekedPart(payload, offset, header);
    var kind, length := GetU16(BE, header, 0), GetU16(BE, header, 2);
    if length < 4 || offset + length > available { return None; }
    var partBuffer := Take(b, visible, payload, offset, length);
    part := Some(Part(kind, Some(length), partBuffer[4..length]));
  }

  method Decode(b: PacketBuffer, ghost visible: seq<byte>, ghost payload: seq<byte>) returns (r: Walked<Part>)
    requires Reading(b, visible, payload) && b.startPos + |payload| == |visible| && b.headerLength <= |payload|
    modifies b
    ensures Reading(b, visible, payload) && b.startPos == old(b.startPos) && b.packet == old(b.packet)
    ensures r == Walk(PartFormat(), payload)
    ensures b.headerLength == |payload|
  {
    hide Reading, Walk, Preceded, Complete;
    var available := Available(b, visible, payload);
    var parts: seq<Part>, offset := [], 0;
    WalkBegins(Walk(PartFormat(), payload));
    assert payload[0..] == payload;
    while offset + 4 <= available
      invariant offset <= available && b.headerLength <= available && (offset > 0 ==> offset <= b.headerLength)
      invariant Reading(b, visible, payload) && b.startPos == old(b.startPos) && b.packet == old(b.packet)
      invariant Walk(PartFormat(), payload) == Preceded(parts, Walk(PartFormat(), payload[offset..]))
    {
      var part := NextPart(b, visible, payload, available, offset);
      if part.None? { break; }
      WalkStep(PartFormat(), payload, offset, parts);
      parts := parts + [part.value];
      offset := offset + part.value.length.value;
    }
    ShortIsIncomplete(payload[offset..]);
    WalkStops(PartFormat(), payload, offset, parts);
    var trailer := TakeRest(b, visible, payload, offset, available);
    r := Walked(parts, trailer);
  }

  lemma ShortIsIncomplete(p: seq<byte>)
    ensures |p| < 4 ==> !Complete(PartFormat(), p)
  {
  }

  method WritePart(b: PacketBuffer, ghost before: seq<byte>, ghost written: seq<byte>, start: nat, part: Part)
    returns (offset: nat)
    requires Writing(b, before, written) && start == |written|
    modifies b, b.packet
    ensures Writing(b, before, written + PartBytes(part)) && (b.packet == old(b.packet) || fresh(b.packet))
    ensures offset == |written + PartBytes(part)|
  {
    hide Writing, PutU16, Clamp;
    var kind, length := PutU16(BE, Clamp(part.kind, 65535)), PutU16(BE, Clamp(WrittenLength(part), 65535));
    Append(b, before, written, start, kind);
    Append(b, before, written + kind, start + 2, length);
    offset := start + 4;
    AppendAssociates(written, kind, length);
    AppendAssociates(written, kind + length, part.value);
    AppendNil(written + kind + length);
    if |part.value| > 0 {
      Append(b, before, written + kind + length, offset, part.value);
      offset := offset + |part.value|;
    }
  }

  method Encode(b: PacketBuffer, ghost before: seq<byte>, r: Walked<Part>) returns (issues: seq<Issue>)
    requires Writing(b, before, [])
    modifies b, b.packet
    ensures Writing(b, before, Printed(PartFormat(), r))
    ensures issues == AllIssues(r.items)
  {
    hide Writing, PartBytes, PartIssues, Reported, Items;
    ghost var f := PartFormat();
    NothingYet(PartFormat(), PartIssues);
    issues := [];
    var offset, i := 0, 0;
    while i < |r.items|
      invariant i <= |r.items| && (b.packet == old(b.packet) || fresh(b.packet))
      invariant Writing(b, before, Items(f, r.items[..i])) && offset == |Items(f, r.items[..i])|
      invariant issues == AllIssues(r.items[..i])
    {
      ItemsStep(f, r.items, i);
      ReportedStep(PartIssues, r.items, i);
      issues := issues + PartIssues(r.items[i], i);
      offset := WritePart(b, before, Items(f, r.items[..i]), offset, r.items[i]);
      i := i + 1;
    }
    assert r.items[..i] == r.items;
    AppendNil(Items(f, r.items));
    if |r.rest| > 0 {
      Append(b, before, Items(f, r.items), offset, r.rest);
    }
  }

  // ---- round trips ----

  lemma PartSpelled(p: seq<byte>)
    requires Complete(PartFormat(), p)
    ensures PartBytes(ReadPart(p)) == p[..FirstPart(p).value] && GoodPart(ReadPart(p))
  {
    var n := FirstPart(p).value;
    PutGetU16(BE, p, 0);
    PutGetU16(BE, p, 2);
    assert p[..n] == p[0..2] + p[2..4] + p[4..n];
  }

  lemma PartRead(part: Part, rest: seq<byte>)
    requires GoodPart(part)
    ensures FirstPart(PartBytes(part) + rest) == Some(|PartBytes(part)|)
    ensures ReadPart(PartBytes(part) + rest) == SettledPart(part)
  {
    var kind, length := PutU16(BE, part.kind), PutU16(BE, WrittenLength(part));
    var p := PartBytes(part) + rest;
    assert p == kind + (length + (part.value + rest));
    GetBefore(BE, kind, length + (part.value + rest), 0);
    GetAfter(BE, kind, length + (part.value + rest), 0);
    GetBefore(BE, length, part.value + rest, 0);
    assert p[4..4 + |part.value|] == part.value;
  }

  lemma PartsLawful()
    ensures Lawful(PartFormat())
  {
    hide FirstPart, ReadPart, PartBytes;
    forall p | Complete(PartFormat(), p)
      ensures PartBytes(ReadPart(p)) == p[..FirstPart(p).value] && GoodPart(ReadPart(p))
    {
      PartSpelled(p);
    }
    forall part, rest | GoodPart(part)
      ensures FirstPart(PartBytes(part) + rest) == Some(|PartBytes(part)|) && |PartBytes(part)| >= 1
      ensures ReadPart(PartBytes(part) + rest) == SettledPart(part)
    {
      PartRead(part, rest);
      assert |PartBytes(part)| >= 1 by { PartBytesLength(part); }
    }
  }

  lemma PartBytesLength(part: Part)
    ensures |PartBytes(part)| == 4 + |part.value|
  {
  }

  /** Any payload at all is reproduced by encoding what was decoded from it, with nothing recorded. */
  lemma DecodeEncode(payload: seq<byte>)
    ensures Printed(PartFormat(), Walk(PartFormat(), payload)) == payload
    ensures AllIssues(Walk(PartFormat(), payload).items) == []
  {
    PartsLawful();
    WalkPrints(PartFormat(), payload);
    WalkedGood(PartFormat(), payload);
    NoIssues(Walk(PartFormat(), payload).items);
  }

  lemma NoIssues(parts: seq<Part>)
    requires forall i :: 0 <= i < |parts| ==> GoodPart(parts[i])
    ensures AllIssues(parts) == []
  {
    ReportedNone(PartIssues, parts);
  }

  /** Crafted parts come back exactly when each is good and the trailer starts with no complete part. */
  lemma EncodeDecodeIff(r: Walked<Part>)
    ensures Walk(PartFormat(), Printed(PartFormat(), r)) == Walked(Settled(PartFormat(), r.items), r.rest)
       <==> (forall i :: 0 <= i < |r.items| ==> GoodPart(r.items[i])) && FirstPart(r.rest).None?
  {
    PartsLawful();
    PrintWalksIff(PartFormat(), r);
    assert forall i :: 0 <= i < |r.items| ==> PartFormat().good(r.items[i]) == GoodPart(r.items[i]);
  }

  // ---- the octets of a payload ----

  /** Type and a Length that counts the four octets of both, two octets each, and the value. */
  function PartWire(part: Part): seq<byte>
    requires GoodPart(part)
  {
    var length := 4 + |part.value|;
    [part.kind / 256, part.kind % 256, length / 256, length % 256] + part.value
  }

  function PartsWire(parts: seq<Part>): seq<byte>
    requires forall i :: 0 <= i < |parts| ==> GoodPart(parts[i])
  {
    if parts == [] then [] else PartWire(parts[0]) + PartsWire(parts[1..])
  }

  lemma {:induction false} PartsWired(parts: seq<Part>)
    requires forall i :: 0 <= i < |parts| ==> GoodPart(parts[i])
    ensures Items(PartFormat(), parts) == PartsWire(parts)
    decreases |parts|
  {
    if parts != [] {
      var part := parts[0];
      assert GoodPart(part);
      var length := 4 + |part.value|;
      assert PutU16(BE, part.kind) == [part.kind / 256, part.kind % 256];
      assert PutU16(BE, length) == [length / 256, length % 256];
      assert PartBytes(part) == PartWire(part);
      PartsWired(parts[1..]);
    }
  }

  /** Good parts are written in these octets, and read from them. */
  lemma WireDecodes(r: Walked<Part>)
    requires forall i :: 0 <= i < |r.items| ==> GoodPart(r.items[i])
    ensures Printed(PartFormat(), r) == PartsWire(r.items) + r.rest
    ensures FirstPart(r.rest).None? ==>
      Walk(PartFormat(), PartsWire(r.items) + r.rest) == Walked(Settled(PartFormat(), r.items), r.rest)
  {
    hide Items, PartsWire, Walk, FirstPart;
    PartsWired(r.items);
    EncodeDecodeIff(r);
  }

  /** A Type or Length that does not fit is recorded against its part. */
  lemma PartIssuesTell(part: Part, index: nat)
    ensures PartIssues(part, index) == [] <==> 0 <= part.kind <= 65535 && 0 <= WrittenLength(part) <= 65535
    ensures AboveMaximum(index, "type") in PartIssues(part, index) <==> part.kind > 65535
    ensures AboveMaximum(index, "length") in PartIssues(part, index) <==> WrittenLength(part) > 65535
  {
  }

  /** Without a Length given, every part that fits is good: the Length derived is its own. */
  lemma DerivedLengthGood(part: Part)
    requires part.length.None? && 0 <= part.kind <= 65535 && |part.value| <= 65531
    ensures GoodPart(part)
  {
  }
}
