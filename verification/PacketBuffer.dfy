/** The shared packet buffer that header codecs read and write, against a zero-extended overlay. */
module PacketBuffer {
  import opened Bytes
  import opened BitFields

  /** What one encoder or decoder step does to the packet, at an offset from the layer's start. */
  datatype Op =
    | ReadOp(offset: nat, length: nat, dryRun: bool)
    | WriteOp(offset: nat, data: seq<byte>)
    | ReadBitsOp(offset: nat, length: nat, bitOffset: nat, bitLength: nat)
    | WriteBitsOp(offset: nat, length: nat, bitOffset: nat, bitLength: nat, value: int)
  {
    predicate Fits() { WriteBitsOp? ==> bitOffset + bitLength <= 8 * length }

    predicate Writes() { WriteOp? || WriteBitsOp? }

    function Length(): nat { if WriteOp? then |data| else length }
  }

  type PacketOp = op: Op | op.Fits() witness ReadOp(0, 0, true)

  /** The visible packet and the layer's header length. */
  datatype Image = Image(bytes: seq<byte>, headerLength: nat)

  /** The octets of `[start, start + length)` that the packet has. */
  function Clamped(p: seq<byte>, start: nat, length: nat): seq<byte>
  {
    var end := Min(start + length, |p|);
    if start <= end then p[start..end] else []
  }

  /** The same octets after the packet is zero-extended to hold all of them. */
  function Window(p: seq<byte>, start: nat, length: nat): (w: seq<byte>)
    ensures |w| == length
  {
    Extended(p, start + length)[start..start + length]
  }

  function Extended(p: seq<byte>, end: nat): (r: seq<byte>)
    ensures |r| == Max(|p|, end)
  {
    p + Zeros(Max(0, end - |p|))
  }

  function Placed(op: PacketOp, p: seq<byte>, start: nat): (data: seq<byte>)
    requires op.Writes()
    ensures |data| == op.Length()
  {
    match op
    case WriteOp(_, data) => data
    case WriteBitsOp(_, length, bitOffset, bitLength, value) =>
      WriteField(Window(p, start, length), bitOffset, bitLength, value)
  }

  /** The reference step: a write overlays the packet, and every committed access raises the header length. */
  function After(i: Image, startPos: nat, op: PacketOp): (r: Image)
    ensures |i.bytes| <= |r.bytes| && i.headerLength <= r.headerLength
  {
    var start, end := startPos + op.offset, startPos + op.offset + op.Length();
    if op.Writes() then
      Image(Overlay(i.bytes, start, Placed(op, i.bytes, start)), Max(i.headerLength, end - startPos))
    else if op.ReadOp? && op.dryRun then i
    else Image(i.bytes, Max(i.headerLength, Min(end, |i.bytes|) - startPos))
  }

  function Run(i: Image, startPos: nat, ops: seq<PacketOp>): Image
  {
    if ops == [] then i else After(Run(i, startPos, ops[..|ops| - 1]), startPos, ops[|ops| - 1])
  }

  // ---- the byte loops of readBits and writeBits ----

  method NarrowNumber(buffer: seq<byte>) returns (v: nat)
    ensures v == ToNat(buffer)
  {
    v := 0;
    var i := 0;
    while i < |buffer|
      invariant i <= |buffer| && v == ToNat(buffer[..i])
    {
      assert buffer[..i + 1][..i] == buffer[..i];
      v := v * 256 + buffer[i];
      i := i + 1;
    }
    assert buffer[..i] == buffer;
  }

  /** `(value << 8n) | byte` over the window. */
  method WideNumber(buffer: seq<byte>) returns (v: nat)
    ensures v == ToNat(buffer)
  {
    v := 0;
    var i := 0;
    while i < |buffer|
      invariant i <= |buffer| && v == ToNat(buffer[..i])
    {
      assert buffer[..i + 1][..i] == buffer[..i];
      OrOctet(v, buffer[i]);
      v := Or(v * 256, buffer[i]);
      i := i + 1;
    }
    assert buffer[..i] == buffer;
  }

  method NarrowOctets(v: nat, n: nat) returns (out: array<byte>)
    ensures fresh(out) && out[..] == FromNat(v, n)
  {
    out := new byte[n](_ => 0);
    var written, i := v, n;
    assert out[n..] == [];
    AppendNil(FromNat(v, n));
    while i > 0
      invariant 0 <= i <= n && written >= 0
      invariant FromNat(v, n) == FromNat(written, i) + out[i..]
    {
      i := i - 1;
      ghost var rest := out[i + 1..];
      out[i] := written % 256;
      assert out[i..] == [written % 256] + rest;
      AppendAssociates(FromNat(written / 256, i), [written % 256], rest);
      written := written / 256;
    }
    assert out[0..] == out[..];
    AppendNil(out[..]);
  }

  /** `v & 0xFFn` and `v >>= 8n` over the window. */
  method WideOctets(v: nat, n: nat) returns (out: array<byte>)
    ensures fresh(out) && out[..] == FromNat(v, n)
  {
    out := new byte[n](_ => 0);
    var rest, i := v, n;
    assert out[n..] == [];
    AppendNil(FromNat(v, n));
    while i > 0
      invariant 0 <= i <= n && rest >= 0
      invariant FromNat(v, n) == FromNat(rest, i) + out[i..]
    {
      i := i - 1;
      ghost var done := out[i + 1..];
      LowOctet(rest);
      out[i] := And(rest, 255);
      assert out[i..] == [rest % 256] + done;
      AppendAssociates(FromNat(rest / 256, i), [rest % 256], done);
      rest := rest / 256;
    }
    assert out[0..] == out[..];
    AppendNil(out[..]);
  }

  /** The octets `writeBits` lays back over its window, by either path. */
  method FieldOver(buffer: seq<byte>, bitOffset: nat, bitLength: nat, value: int) returns (data: seq<byte>)
    requires bitOffset + bitLength <= 8 * |buffer|
    ensures data == WriteField(buffer, bitOffset, bitLength, value)
  {
    var shift := |buffer| * 8 - bitOffset - bitLength;
    var out: array<byte>;
    if |buffer| <= 4 {
      var current := NarrowNumber(buffer);
      var modulo, divisor := Pow2(bitLength), Pow2(shift);
      DoubleRemainder(value, modulo);
      var field := JsMod(JsMod(value, modulo) + modulo, modulo);
      var blockSize := modulo * divisor;
      Products(modulo, divisor);
      var written := current / blockSize * blockSize + field * divisor + current % divisor;
      assert written == Written(current, shift, bitLength, value);
      out := NarrowOctets(written, |buffer|);
    } else {
      var current := WideNumber(buffer);
      ToNatBound(buffer);
      WidePathAgrees(current, shift, bitLength, value, 8 * |buffer|);
      out := WideOctets(WideWritten(current, shift, bitLength, value), |buffer|);
    }
    data := out[..];
  }

  lemma OrOctet(v: nat, b: byte)
    ensures Or(v * 256, b) == v * 256 + b
  {
    assert Pow2(8) == 256 by { assert Pow2(4) == 16; Pow2Add(4, 4); }
    OrDisjoint(v, b, 8);
  }

  lemma LowOctet(v: nat)
    ensures And(v, 255) == v % 256
  {
    assert Pow2(8) == 256 by { assert Pow2(4) == 16; Pow2Add(4, 4); }
    AndMask(v, 8);
  }

  lemma Subarray(a: array<byte>, n: nat, lo: nat, hi: nat)
    requires lo <= hi <= n <= a.Length
    ensures a[lo..hi] == a[..n][lo..hi]
  {
  }

  /** Making room first and then writing the computed octets is one overlay. */
  lemma WriteBitsStep(before: Image, roomy: Image, startPos: nat, op: PacketOp, buffer: seq<byte>)
    requires op.WriteBitsOp?
    requires roomy.bytes == Extended(before.bytes, startPos + op.offset + op.length)
    requires roomy.headerLength == Max(before.headerLength, op.offset + op.length)
    requires buffer == Clamped(roomy.bytes, startPos + op.offset, op.length)
    ensures buffer == Window(before.bytes, startPos + op.offset, op.length)
    ensures var out := WriteField(buffer, op.bitOffset, op.bitLength, op.value);
      After(roomy, startPos, WriteOp(op.offset, out)) == After(before, startPos, op)
  {
    hide WriteField;
    assert buffer == Window(before.bytes, startPos + op.offset, op.length);
    OverlayAfterExtension(before.bytes, startPos + op.offset, WriteField(buffer, op.bitOffset, op.bitLength, op.value));
  }

  lemma WriteStep(before: Image, roomy: Image, startPos: nat, op: PacketOp)
    requires op.WriteOp?
    requires roomy.bytes == Extended(before.bytes, startPos + op.offset + |op.data|)
    requires roomy.headerLength == Max(before.headerLength, op.offset + |op.data|)
    ensures var at := startPos + op.offset;
      After(before, startPos, op)
        == Image(roomy.bytes[..at] + op.data + roomy.bytes[at + |op.data|..], roomy.headerLength)
  {
  }

  lemma OverlayAfterExtension(p: seq<byte>, at: nat, data: seq<byte>)
    ensures Overlay(Extended(p, at + |data|), at, data) == Overlay(p, at, data)
  {
  }

  class PacketBuffer {
    var packet: array<byte>
    /** `packet.length`: the packet may be a view on the front of a longer allocation. */
    var size: nat
    var packetLength: Option<nat>
    var startPos: nat
    var headerLength: nat
    /** Octets copied by growth since the layer began, and the size before the last growth. */
    ghost var copied: nat
    ghost var outgrown: nat

    function Logical(): nat
      reads this
    {
      if packetLength.Some? then packetLength.value else size
    }

    ghost predicate Valid()
      reads this, packet
    {
      && Logical() <= size <= packet.Length
      && (forall i :: Logical() <= i < size ==> packet[i] == 0)
      && (copied == 0 || (copied <= 2 * outgrown < 2 * Logical() && 2 * outgrown <= size))
    }

    ghost function Visible(): seq<byte>
      requires Valid()
      reads this, packet
    {
      packet[..Logical()]
    }

    ghost function Current(): Image
      requires Valid()
      reads this, packet
    {
      Image(Visible(), headerLength)
    }

    constructor (bytes: seq<byte>)
      ensures Valid() && fresh(packet)
      ensures Visible() == bytes && packetLength == None && headerLength == 0 && startPos == 0 && copied == 0
    {
      packet := new byte[|bytes|](i requires 0 <= i < |bytes| => bytes[i]);
      size := |bytes|;
      packetLength := None;
      startPos := 0;
      headerLength := 0;
      copied := 0;
    }

    /** A following layer starts on the exact packet the previous one left. */
    method BeginLayer(at: nat)
      requires Valid() && packetLength == None
      modifies this
      ensures Valid() && packet == old(packet) && Visible() == old(Visible())
      ensures startPos == at && headerLength == 0 && copied == 0 && packetLength == None
    {
      startPos := at;
      headerLength := 0;
      copied := 0;
    }

    /** `Buffer.alloc` and `copy`. */
    static method CopyOf(source: array<byte>, length: nat, capacity: nat) returns (grown: array<byte>)
      requires length <= source.Length && length <= capacity
      ensures fresh(grown) && grown.Length == capacity
      ensures forall k :: 0 <= k < capacity ==> grown[k] == if k < length then source[k] else 0
    {
      grown := new byte[capacity](_ => 0);
      var i := 0;
      while i < length
        invariant i <= length
        invariant forall k :: 0 <= k < capacity ==> grown[k] == if k < i then source[k] else 0
      {
        grown[i] := source[i];
        i := i + 1;
      }
    }

    method Grow(end: nat)
      requires Valid() && size < end
      modifies this
      ensures Valid() && fresh(packet) && packetLength == Some(end)
      ensures Visible() == Extended(old(Visible()), end)
      ensures size == Max(end, 2 * old(size))
      ensures startPos == old(startPos) && headerLength == old(headerLength)
      ensures copied == old(copied) + old(Logical())
    {
      var logical := Logical();
      var capacity := if end > size * 2 then end else size * 2;
      var grown := CopyOf(packet, logical, capacity);
      copied, outgrown := copied + logical, size;
      packet, size := grown, capacity;
      packetLength := Some(end);
      assert grown[..end] == Extended(old(Visible()), end);
    }

    method Expand(end: nat)
      requires Valid() && Logical() < end
      modifies this
      ensures Valid() && (packet == old(packet) || fresh(packet)) && packetLength == Some(end)
      ensures Visible() == Extended(old(Visible()), end)
      ensures startPos == old(startPos) && headerLength == old(headerLength)
    {
      if size < end {
        Grow(end);
      } else {
        packetLength := Some(end);
        assert Visible() == Extended(old(Visible()), end);
      }
    }

    /** The end of an access: the packet grows to it, or it is clamped to the packet. */
    method Reach(end: nat, expand: bool) returns (readEndPos: nat)
      requires Valid()
      modifies this
      ensures Valid() && startPos == old(startPos) && headerLength == old(headerLength)
      ensures packet == old(packet) || (expand && fresh(packet))
      ensures Visible() == if expand then Extended(old(Visible()), end) else old(Visible())
      ensures readEndPos == if expand then end else Min(end, Logical())
    {
      var logical := Logical();
      readEndPos := end;
      if logical < readEndPos {
        if expand {
          Expand(readEndPos);
        } else {
          readEndPos := logical;
        }
      }
    }

    method View(packetOffset: nat, length: nat, readEndPos: nat) returns (bytes: seq<byte>)
      requires Valid() && readEndPos == Min(packetOffset + length, Logical())
      ensures bytes == Clamped(Visible(), packetOffset, length)
    {
      if packetOffset > readEndPos { return []; }
      Subarray(packet, Logical(), packetOffset, readEndPos);
      bytes := packet[packetOffset..readEndPos];
    }

    /** `#readBytes`: clamps or expands, raises the header length, and returns the octets read. */
    method Access(offset: nat, length: nat, expand: bool, changeHeaderLength: bool) returns (bytes: seq<byte>)
      requires Valid()
      modifies this
      ensures Valid() && startPos == old(startPos) && (packet == old(packet) || (expand && fresh(packet)))
      ensures Visible() == if expand then Extended(old(Visible()), startPos + offset + length) else old(Visible())
      ensures bytes == Clamped(Visible(), startPos + offset, length)
      ensures headerLength == if !changeHeaderLength then old(headerLength)
        else Max(old(headerLength), Min(startPos + offset + length, Logical()) - startPos)
    {
      var packetOffset := startPos + offset;
      var readEndPos := Reach(packetOffset + length, expand);
      assert readEndPos == Min(packetOffset + length, Logical());
      hide Extended, Clamped;
      bytes := View(packetOffset, length, readEndPos);
      if changeHeaderLength {
        var reach := readEndPos - startPos;
        headerLength := if headerLength < reach then reach else headerLength;
      }
    }

    method ReadBytes(offset: nat, length: nat, dryRun: bool) returns (bytes: seq<byte>)
      requires Valid()
      modifies this
      ensures Valid() && packet == old(packet) && startPos == old(startPos)
      ensures Current() == After(old(Current()), startPos, ReadOp(offset, length, dryRun))
      ensures bytes == Clamped(Visible(), startPos + offset, length)
    {
      bytes := Access(offset, length, false, !dryRun);
    }

    /** `fill` of the window just made room for. */
    method Fill(at: nat, data: seq<byte>)
      requires Valid() && at + |data| <= Logical()
      modifies packet
      ensures Valid() && Visible() == old(Visible())[..at] + data + old(Visible())[at + |data|..]
    {
      var i := 0;
      while i < |data|
        invariant i <= |data|
        invariant forall k :: 0 <= k < packet.Length ==>
          packet[k] == if at <= k < at + i then data[k - at] else old(packet[k])
      {
        packet[at + i] := data[i];
        i := i + 1;
      }
    }

    method WriteBytes(offset: nat, data: seq<byte>)
      requires Valid()
      modifies this, packet
      ensures Valid() && (packet == old(packet) || fresh(packet)) && startPos == old(startPos)
      ensures Current() == After(old(Current()), startPos, WriteOp(offset, data))
    {
      hide Extended, Overlay, Clamped, After;
      ghost var before := Current();
      var _ := Access(offset, |data|, true, true);
      WriteStep(before, Current(), startPos, WriteOp(offset, data));
      Fill(startPos + offset, data);
    }

    method ReadBits(offset: nat, length: nat, bitOffset: nat, bitLength: nat) returns (v: nat)
      requires Valid()
      modifies this
      ensures Valid() && packet == old(packet) && startPos == old(startPos)
      ensures Current() == After(old(Current()), startPos, ReadBitsOp(offset, length, bitOffset, bitLength))
      ensures v == ReadField(Clamped(Visible(), startPos + offset, length), length, bitOffset, bitLength)
    {
      var buffer := Access(offset, length, false, true);
      var shift := length * 8 - bitOffset - bitLength;
      if shift < 0 { return 0; }
      if length <= 4 {
        var narrow := NarrowNumber(buffer);
        return narrow / Pow2(shift) % Pow2(bitLength);
      }
      var value := WideNumber(buffer);
      WideReadAgrees(value, shift, bitLength);
      v := And(value / Pow2(shift), Mask(bitLength));
    }

    method WriteBits(offset: nat, length: nat, bitOffset: nat, bitLength: nat, value: int)
      requires Valid() && bitOffset + bitLength <= 8 * length
      modifies this, packet
      ensures Valid() && (packet == old(packet) || fresh(packet)) && startPos == old(startPos)
      ensures Current() == After(old(Current()), startPos, WriteBitsOp(offset, length, bitOffset, bitLength, value))
    {
      hide WriteField, Clamped, After, Extended;
      ghost var before := Current();
      var buffer := Access(offset, length, true, true);
      ghost var op := WriteBitsOp(offset, length, bitOffset, bitLength, value);
      WriteBitsStep(before, Current(), startPos, op, buffer);
      var out := FieldOver(buffer, bitOffset, bitLength, value);
      WriteBytes(offset, out);
    }

    /** The end of `encode`: the headroom is cut off. */
    method Finish()
      requires Valid()
      modifies this
      ensures Valid() && packetLength == None && packet == old(packet) && startPos == old(startPos)
      ensures Current() == old(Current()) && Visible() == packet[..size] && size == old(Logical())
      ensures old(copied) == 0 || old(copied) < 2 * size
      ensures copied == 0
    {
      if packetLength.Some? && packetLength.value < size {
        size := packetLength.value;
      }
      packetLength := None;
      copied := 0;
    }

    method Execute(op: PacketOp)
      requires Valid()
      modifies this, packet
      ensures Valid() && (packet == old(packet) || fresh(packet)) && startPos == old(startPos)
      ensures Current() == After(old(Current()), startPos, op)
    {
      hide After;
      match op
      case ReadOp(offset, length, dryRun) =>
        var _ := ReadBytes(offset, length, dryRun);
      case WriteOp(offset, data) =>
        WriteBytes(offset, data);
      case ReadBitsOp(offset, length, bitOffset, bitLength) =>
        var _ := ReadBits(offset, length, bitOffset, bitLength);
      case WriteBitsOp(offset, length, bitOffset, bitLength, value) =>
        WriteBits(offset, length, bitOffset, bitLength, value);
    }

    /** One layer's `encode`: its field encoders in order, then the trim; growth copied under twice the result. */
    method EncodeLayer(at: nat, ops: seq<PacketOp>) returns (ghost moved: nat)
      requires Valid() && packetLength == None
      modifies this, packet
      ensures Valid() && packetLength == None && startPos == at && Visible() == packet[..size]
      ensures Current() == Run(Image(old(Visible()), 0), at, ops)
      ensures moved == 0 || moved < 2 * |Visible()|
    {
      hide After;
      BeginLayer(at);
      ghost var start := Current();
      var i := 0;
      while i < |ops|
        invariant i <= |ops| && Valid() && startPos == at
        invariant packet == old(packet) || fresh(packet)
        invariant Current() == Run(start, at, ops[..i])
      {
        Execute(ops[i]);
        i := i + 1;
        assert ops[..i][..i - 1] == ops[..i - 1];
      }
      assert ops[..i] == ops;
      moved := copied;
      Finish();
    }
  }
}
