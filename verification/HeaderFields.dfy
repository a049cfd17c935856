/** What the byte-exact header walks share: clamped fields, append-only writes and payload bounds. */
module HeaderFields {
  import opened Bytes
  import opened BitFields
  import opened PacketBuffer

  /** `recordError` calls made while encoding. */
  datatype Issue =
    | AboveMaximum(index: nat, field: string)
    | BelowMinimum(index: nat, field: string)

  function Clamp(v: int, max: nat): (r: nat)
    ensures r <= max && (0 <= v <= max ==> r == v)
  {
    if v > max then max else if v < 0 then 0 else v
  }

  function Issues(v: int, max: nat, index: nat, field: string): seq<Issue>
  {
    if v > max then [AboveMaximum(index, field)] else if v < 0 then [BelowMinimum(index, field)] else []
  }

  function Distance(a: int, b: int): nat { if a < b then b - a else a - b }

  /** A field is written as the nearest number that fits, and one issue names the side it was off on. */
  lemma ClampIsNearest(v: int, max: nat, index: nat, field: string)
    ensures forall y :: 0 <= y <= max ==> Distance(v, Clamp(v, max)) <= Distance(v, y)
    ensures Issues(v, max, index, field) == [] <==> 0 <= v <= max
    ensures AboveMaximum(index, field) in Issues(v, max, index, field) <==> v > max
    ensures BelowMinimum(index, field) in Issues(v, max, index, field) <==> v < 0
    ensures |Issues(v, max, index, field)| <= 1
  {
  }

  function Flag(on: bool): int { if on then 1 else 0 }

  lemma ReadWithin(p: seq<byte>, start: nat, end: nat, offset: nat, length: nat)
    requires start + end <= |p| && offset + length <= end
    ensures Clamped(p, start + offset, length) == p[start..start + end][offset..offset + length]
  {
    SliceOfSlice(p, start, start + end, offset, offset + length);
    assert start + (offset + length) == start + offset + length;
  }

  /** The decoder's view: `b` holds `visible`, and the layer's payload is the part of it from the layer's start. */
  ghost predicate Reading(b: PacketBuffer, visible: seq<byte>, payload: seq<byte>)
    reads b, b.packet
  {
    && b.Valid() && b.Visible() == visible
    && b.startPos + |payload| <= |visible|
    && payload == visible[b.startPos..b.startPos + |payload|]
  }

  /** `this.packet.length - this.startPos`. */
  method Available(b: PacketBuffer, ghost visible: seq<byte>, ghost payload: seq<byte>) returns (n: nat)
    requires Reading(b, visible, payload) && b.startPos + |payload| == |visible|
    ensures n == |payload|
  {
    n := b.Logical() - b.startPos;
  }

  /** A read inside the payload, committed to the header length. */
  method Take(b: PacketBuffer, ghost visible: seq<byte>, ghost payload: seq<byte>, offset: nat, length: nat)
    returns (bytes: seq<byte>)
    requires Reading(b, visible, payload) && offset + length <= |payload|
    modifies b
    ensures Reading(b, visible, payload) && b.startPos == old(b.startPos) && b.packet == old(b.packet)
    ensures bytes == payload[offset..offset + length]
    ensures b.headerLength == Max(old(b.headerLength), offset + length)
  {
    bytes := b.ReadBytes(offset, length, false);
    ReadWithin(visible, b.startPos, |payload|, offset, length);
  }

  /** The octets from `offset` to the end of the payload, read only when there are any. */
  method TakeRest(b: PacketBuffer, ghost visible: seq<byte>, ghost payload: seq<byte>, offset: nat, end: nat)
    returns (bytes: seq<byte>)
    requires Reading(b, visible, payload) && end == |payload| && offset <= end
    requires b.headerLength <= end && (offset == end ==> b.headerLength == end)
    modifies b
    ensures Reading(b, visible, payload) && b.startPos == old(b.startPos) && b.packet == old(b.packet)
    ensures bytes == payload[offset..] && b.headerLength == end
  {
    if offset == end { return []; }
    bytes := Take(b, visible, payload, offset, end - offset);
  }

  /** A dry-run read inside the payload. */
  method Peek(b: PacketBuffer, ghost visible: seq<byte>, ghost payload: seq<byte>, offset: nat, length: nat)
    returns (bytes: seq<byte>)
    requires Reading(b, visible, payload) && offset + length <= |payload|
    modifies b
    ensures Reading(b, visible, payload) && b.startPos == old(b.startPos) && b.packet == old(b.packet)
    ensures bytes == payload[offset..offset + length]
    ensures b.headerLength == old(b.headerLength)
  {
    bytes := b.ReadBytes(offset, length, true);
    ReadWithin(visible, b.startPos, |payload|, offset, length);
  }

  /** The encoder's view: `b` holds the earlier layers and then `written`, which is the header so far. */
  ghost predicate Writing(b: PacketBuffer, before: seq<byte>, written: seq<byte>)
    reads b, b.packet
  {
    b.Valid() && b.startPos == |before| && b.headerLength == |written| && b.Visible() == before + written
  }

  /** A write at the end of both the packet and the header. */
  method Append(b: PacketBuffer, ghost before: seq<byte>, ghost written: seq<byte>, offset: nat, data: seq<byte>)
    requires Writing(b, before, written) && offset == |written|
    modifies b, b.packet
    ensures Writing(b, before, written + data) && (b.packet == old(b.packet) || fresh(b.packet))
  {
    WriteAppends(b.Current(), b.startPos, WriteOp(offset, data));
    b.WriteBytes(offset, data);
    AppendAssociates(before, written, data);
  }

  lemma ClampInPayload(visible: seq<byte>, start: nat, offset: nat, length: nat)
    requires start <= |visible|
    ensures Clamped(visible, start + offset, length) == Clamped(visible[start..], offset, length)
  {
    var end := Min(offset + length, |visible| - start);
    if offset <= end {
      SliceOfSlice(visible, start, |visible|, offset, end);
      assert visible[start..] == visible[start..|visible|];
    }
  }

  /** The whole rest of the packet is the payload: a read anywhere in it, clamped to its end. */
  method TakeAt(b: PacketBuffer, ghost visible: seq<byte>, ghost payload: seq<byte>, offset: nat, length: nat,
                dryRun: bool)
    returns (bytes: seq<byte>)
    requires Reading(b, visible, payload) && b.startPos + |payload| == |visible|
    modifies b
    ensures Reading(b, visible, payload) && b.startPos == old(b.startPos) && b.packet == old(b.packet)
    ensures bytes == Clamped(payload, offset, length)
    ensures b.headerLength
      == if dryRun then old(b.headerLength) else Max(old(b.headerLength), Min(offset + length, |payload|))
  {
    hide Clamped;
    bytes := b.ReadBytes(offset, length, dryRun);
    assert visible[b.startPos..b.startPos + |payload|] == visible[b.startPos..];
    ClampInPayload(visible, b.startPos, offset, length);
  }

  /** A bit field laid over the header written so far. */
  function BitsOver(written: seq<byte>, offset: nat, length: nat, bitOffset: nat, bitLength: nat, value: int): seq<byte>
    requires bitOffset + bitLength <= 8 * length
  {
    Overlay(written, offset, WriteField(Window(written, offset, length), bitOffset, bitLength, value))
  }

  /** A bit-field write anywhere in the header so far, or at its end. */
  method PutBits(b: PacketBuffer, ghost before: seq<byte>, ghost written: seq<byte>,
                 offset: nat, length: nat, bitOffset: nat, bitLength: nat, value: int)
    requires Writing(b, before, written) && bitOffset + bitLength <= 8 * length
    modifies b, b.packet
    ensures Writing(b, before, BitsOver(written, offset, length, bitOffset, bitLength, value))
    ensures b.packet == old(b.packet) || fresh(b.packet)
  {
    hide After, WriteField, Overlay, Window;
    var op := WriteBitsOp(offset, length, bitOffset, bitLength, value);
    WindowInHeader(before, written, offset, length);
    OverlayInHeader(before, written, offset, WriteField(Window(written, offset, length), bitOffset, bitLength, value));
    BitsStep(b.Current(), b.startPos, op);
    b.WriteBits(offset, length, bitOffset, bitLength, value);
  }

  lemma NextOctet(w: seq<byte>, bitOffset: nat, bitLength: nat, v: int)
    requires bitOffset + bitLength <= 8
    ensures BitsOver(w, |w|, 1, bitOffset, bitLength, v) == w + WriteField([0], bitOffset, bitLength, v)
  {
    assert Window(w, |w|, 1) == [0];
  }

  lemma OctetAgain(w: seq<byte>, x: byte, rest: seq<byte>, bitOffset: nat, bitLength: nat, v: int)
    requires bitOffset + bitLength <= 8
    ensures BitsOver(w + [x] + rest, |w|, 1, bitOffset, bitLength, v)
      == w + WriteField([x], bitOffset, bitLength, v) + rest
  {
    assert Window(w + [x] + rest, |w|, 1) == [x];
    var o := WriteField([x], bitOffset, bitLength, v);
    assert Overlay(w + [x] + rest, |w|, o) == w + o + rest;
  }

  lemma BitsStep(i: Image, startPos: nat, op: PacketOp)
    requires op.WriteBitsOp?
    ensures After(i, startPos, op).bytes == Overlay(i.bytes, startPos + op.offset,
      WriteField(Window(i.bytes, startPos + op.offset, op.length), op.bitOffset, op.bitLength, op.value))
    ensures After(i, startPos, op).headerLength == Max(i.headerLength, op.offset + op.length)
  {
  }

  /** A bit field read anywhere in the rest of the packet, clamped to its end. */
  method TakeBitsAt(b: PacketBuffer, ghost visible: seq<byte>, ghost payload: seq<byte>,
                    offset: nat, length: nat, bitOffset: nat, bitLength: nat) returns (v: nat)
    requires Reading(b, visible, payload) && b.startPos + |payload| == |visible|
    modifies b
    ensures Reading(b, visible, payload) && b.startPos == old(b.startPos) && b.packet == old(b.packet)
    ensures v == ReadField(Clamped(payload, offset, length), length, bitOffset, bitLength)
    ensures b.headerLength == Max(old(b.headerLength), Min(offset + length, |payload|))
  {
    hide ReadField, Clamped;
    v := b.ReadBits(offset, length, bitOffset, bitLength);
    assert visible[b.startPos..b.startPos + |payload|] == visible[b.startPos..];
    ClampInPayload(visible, b.startPos, offset, length);
  }

  lemma WindowInHeader(before: seq<byte>, written: seq<byte>, offset: nat, length: nat)
    ensures Window(before + written, |before| + offset, length) == Window(written, offset, length)
  {
    var whole, part := Window(before + written, |before| + offset, length), Window(written, offset, length);
    var far, near := Extended(before + written, |before| + offset + length), Extended(written, offset + length);
    assert forall k :: 0 <= k < |near| ==> far[|before| + k] == near[k];
    assert forall k :: 0 <= k < length ==> whole[k] == far[|before| + offset + k] == near[offset + k] == part[k];
  }

  lemma OverlayInHeader(before: seq<byte>, written: seq<byte>, offset: nat, data: seq<byte>)
    ensures Overlay(before + written, |before| + offset, data) == before + Overlay(written, offset, data)
  {
    var whole, part := Overlay(before + written, |before| + offset, data), Overlay(written, offset, data);
    assert |whole| == |before| + |part|;
    assert forall k :: 0 <= k < |whole| ==> whole[k] == (before + part)[k];
  }

  /** The octet `x` with one of its fields set to the low bits of `v`. */
  function OctetWith(x: byte, bitOffset: nat, bitLength: nat, v: int): (r: byte)
    requires bitOffset + bitLength <= 8
  {
    OctetField(x, bitOffset, bitLength, v);
    Reassemble(x, Pow2(bitLength), Pow2(8 - bitOffset - bitLength), v)
  }

  lemma OctetReadIs(x: byte, bitOffset: nat, bitLength: nat, m: nat, d: nat)
    requires bitOffset + bitLength <= 8 && Pow2(bitLength) == m && Pow2(8 - bitOffset - bitLength) == d
    ensures m >= 1 && d >= 1 && ReadField([x], 1, bitOffset, bitLength) == x / d % m
  {
    hide Pow2, ReadField, WriteField;
    OctetField(x, bitOffset, bitLength, 0);
  }

  /** The same in numbers, for a field of `m` values worth `d` each. */
  lemma OctetWithIs(x: byte, bitOffset: nat, bitLength: nat, m: nat, d: nat, v: int)
    requires bitOffset + bitLength <= 8 && Pow2(bitLength) == m && Pow2(8 - bitOffset - bitLength) == d
    ensures m >= 1 && d >= 1 && m * d >= 1
    ensures OctetWith(x, bitOffset, bitLength, v) == x / (m * d) * (m * d) + v % m * d + x % d
  {
    hide Pow2, ReadField, WriteField;
    Products(m, d);
    OctetField(x, bitOffset, bitLength, v);
  }

  lemma OctetWritten(x: byte, bitOffset: nat, bitLength: nat, v: int)
    requires bitOffset + bitLength <= 8
    ensures WriteField([x], bitOffset, bitLength, v) == [OctetWith(x, bitOffset, bitLength, v)]
  {
    OctetField(x, bitOffset, bitLength, v);
  }

  /** A bit field that opens the next octet of the header. */
  method PutNext(b: PacketBuffer, ghost before: seq<byte>, ghost written: seq<byte>,
                 offset: nat, bitOffset: nat, bitLength: nat, v: int)
    requires Writing(b, before, written) && offset == |written| && bitOffset + bitLength <= 8
    modifies b, b.packet
    ensures Writing(b, before, written + [OctetWith(0, bitOffset, bitLength, v)])
    ensures b.packet == old(b.packet) || fresh(b.packet)
  {
    hide Writing, BitsOver, WriteField, OctetWith;
    PutBits(b, before, written, offset, 1, bitOffset, bitLength, v);
    NextOctet(written, bitOffset, bitLength, v);
    OctetWritten(0, bitOffset, bitLength, v);
  }

  /** A further bit field of the header's last octet. */
  method PutLast(b: PacketBuffer, ghost before: seq<byte>, ghost written: seq<byte>, ghost x: byte,
                 offset: nat, bitOffset: nat, bitLength: nat, v: int)
    requires Writing(b, before, written + [x]) && offset == |written| && bitOffset + bitLength <= 8
    modifies b, b.packet
    ensures Writing(b, before, written + [OctetWith(x, bitOffset, bitLength, v)])
    ensures b.packet == old(b.packet) || fresh(b.packet)
  {
    hide Writing, BitsOver, WriteField, OctetWith;
    AppendNil(written + [x]);
    PutBits(b, before, written + [x], offset, 1, bitOffset, bitLength, v);
    OctetAgain(written, x, [], bitOffset, bitLength, v);
    OctetWritten(x, bitOffset, bitLength, v);
    AppendNil(written + [OctetWith(x, bitOffset, bitLength, v)]);
  }

  /** A bit field read inside the payload. */
  method TakeBits(b: PacketBuffer, ghost visible: seq<byte>, ghost payload: seq<byte>,
                  offset: nat, length: nat, bitOffset: nat, bitLength: nat) returns (v: nat)
    requires Reading(b, visible, payload) && offset + length <= |payload|
    modifies b
    ensures Reading(b, visible, payload) && b.startPos == old(b.startPos) && b.packet == old(b.packet)
    ensures v == ReadField(payload[offset..offset + length], length, bitOffset, bitLength)
    ensures b.headerLength == Max(old(b.headerLength), offset + length)
  {
    hide ReadField;
    v := b.ReadBits(offset, length, bitOffset, bitLength);
    ReadWithin(visible, b.startPos, |payload|, offset, length);
  }

  /** Writing at the end of the packet appends. */
  lemma WriteAppends(i: Image, startPos: nat, op: PacketOp)
    requires op.WriteOp? && |i.bytes| == startPos + op.offset && i.headerLength == op.offset
    ensures After(i, startPos, op) == Image(i.bytes + op.data, op.offset + |op.data|)
  {
    OverlayAtEnd(i.bytes, op.data);
    assert Placed(op, i.bytes, startPos + op.offset) == op.data;
  }
}
