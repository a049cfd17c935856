/** What a whole layer's run of reads and writes leaves in the packet, bit by bit. */
module EncodedFields {
  import opened Bytes
  import opened BitFields
  import opened PacketBuffer

  /** Bit `j` of the packet, most significant first; positions past the end read as zero. */
  function PacketBit(p: seq<byte>, j: nat): int
  {
    if j < 8 * |p| then WindowBit(p, j) else 0
  }

  /** Whether the step writes bit `j`, and the bit it puts there. */
  predicate Covers(op: PacketOp, startPos: nat, j: nat)
  {
    var first := 8 * (startPos + op.offset);
    match op
    case WriteOp(_, data) => first <= j < first + 8 * |data|
    case WriteBitsOp(_, _, bitOffset, bitLength, _) => first + bitOffset <= j < first + bitOffset + bitLength
    case _ => false
  }

  function Put(op: PacketOp, startPos: nat, j: nat): int
    requires Covers(op, startPos, j)
  {
    var first := 8 * (startPos + op.offset);
    match op
    case WriteOp(_, data) => WindowBit(data, j - first)
    case WriteBitsOp(_, _, bitOffset, bitLength, value) => Bit(value, first + bitOffset + bitLength - 1 - j)
  }

  /** The last step that covers a bit decides it; an uncovered bit is the packet's own. */
  function Decided(p: seq<byte>, startPos: nat, ops: seq<PacketOp>, j: nat): int
  {
    if ops == [] then PacketBit(p, j)
    else if Covers(ops[|ops| - 1], startPos, j) then Put(ops[|ops| - 1], startPos, j)
    else Decided(p, startPos, ops[..|ops| - 1], j)
  }

  lemma OverlayBit(p: seq<byte>, at: nat, data: seq<byte>, j: nat)
    ensures PacketBit(Overlay(p, at, data), j)
         == if 8 * at <= j < 8 * (at + |data|) then WindowBit(data, j - 8 * at) else PacketBit(p, j)
  {
    var r := Overlay(p, at, data);
    if j < 8 * |r| && 8 * at <= j < 8 * (at + |data|) {
      assert (j - 8 * at) / 8 == j / 8 - at && (j - 8 * at) % 8 == j % 8;
    }
    if 8 * |p| <= j < 8 * |r| && !(8 * at <= j < 8 * (at + |data|)) {
      assert r[j / 8] == 0;
      ZeroBits(7 - j % 8);
    }
  }

  lemma WindowIsPacketBits(p: seq<byte>, at: nat, length: nat, i: nat)
    requires i < 8 * length
    ensures WindowBit(Window(p, at, length), i) == PacketBit(p, 8 * at + i)
  {
    assert (8 * at + i) / 8 == at + i / 8 && (8 * at + i) % 8 == i % 8;
    var r := Extended(p, at + length);
    assert Window(p, at, length)[i / 8] == r[at + i / 8];
    if 8 * at + i >= 8 * |p| {
      assert r[at + i / 8] == 0;
      ZeroBits(7 - i % 8);
    }
  }

  lemma StepBits(i: Image, startPos: nat, op: PacketOp, j: nat)
    ensures PacketBit(After(i, startPos, op).bytes, j)
         == if Covers(op, startPos, j) then Put(op, startPos, j) else PacketBit(i.bytes, j)
  {
    hide WriteField, Overlay, PacketBit, Window;
    var at := startPos + op.offset;
    if op.Writes() {
      var data := Placed(op, i.bytes, at);
      OverlayBit(i.bytes, at, data, j);
      if op.WriteBitsOp? && 8 * at <= j < 8 * (at + op.length) {
        WriteSetsField(Window(i.bytes, at, op.length), op.bitOffset, op.bitLength, op.value, j - 8 * at);
        WindowIsPacketBits(i.bytes, at, op.length, j - 8 * at);
      }
    }
  }

  /** Every bit after a run: that of the last write covering it, else the one the packet had. */
  lemma {:induction false} RunBits(i: Image, startPos: nat, ops: seq<PacketOp>, j: nat)
    ensures PacketBit(Run(i, startPos, ops).bytes, j) == Decided(i.bytes, startPos, ops, j)
    decreases |ops|
  {
    if ops != [] {
      var n := |ops| - 1;
      hide After, PacketBit, Covers, Put;
      RunBits(i, startPos, ops[..n], j);
      StepBits(Run(i, startPos, ops[..n]), startPos, ops[n], j);
    }
  }

  /** The writes after position `k` that touch none of the bits step `k` wrote. */
  ghost predicate Undisturbed(startPos: nat, ops: seq<PacketOp>, k: nat)
    requires k < |ops|
  {
    forall m, j: nat :: k < m < |ops| && Covers(ops[k], startPos, j) ==> !Covers(ops[m], startPos, j)
  }

  lemma {:induction false} DecidedBy(p: seq<byte>, startPos: nat, ops: seq<PacketOp>, k: nat, j: nat)
    requires k < |ops| && Undisturbed(startPos, ops, k) && Covers(ops[k], startPos, j)
    ensures Decided(p, startPos, ops, j) == Put(ops[k], startPos, j)
    decreases |ops|
  {
    var n := |ops| - 1;
    if k < n {
      var short := ops[..n];
      assert short[k] == ops[k];
      forall m, i: nat | k < m < |short| && Covers(short[k], startPos, i) ensures !Covers(short[m], startPos, i) {
        assert short[m] == ops[m];
      }
      DecidedBy(p, startPos, short, k, j);
    }
  }

  lemma {:induction false} RunReaches(i: Image, startPos: nat, ops: seq<PacketOp>, k: nat)
    requires k < |ops| && ops[k].Writes()
    ensures startPos + ops[k].offset + ops[k].Length() <= |Run(i, startPos, ops).bytes|
    ensures ops[k].offset + ops[k].Length() <= Run(i, startPos, ops).headerLength
    decreases |ops|
  {
    var n := |ops| - 1;
    if k < n { RunReaches(i, startPos, ops[..n], k); }
  }

  /** The window of an undisturbed write, whole, with the bits that write put there. */
  lemma WindowHolds(i: Image, startPos: nat, ops: seq<PacketOp>, k: nat, j: nat)
    requires k < |ops| && ops[k].Writes() && Undisturbed(startPos, ops, k)
    requires Covers(ops[k], startPos, 8 * (startPos + ops[k].offset) + j)
    ensures var w := Clamped(Run(i, startPos, ops).bytes, startPos + ops[k].offset, ops[k].Length());
      |w| == ops[k].Length() && j < 8 * |w|
        && WindowBit(w, j) == Put(ops[k], startPos, 8 * (startPos + ops[k].offset) + j)
  {
    hide WindowBit, PacketBit, Decided, Put, Run;
    var at := startPos + ops[k].offset;
    WindowWhole(i, startPos, ops, k);
    WindowIsPacketBits(Run(i, startPos, ops).bytes, at, ops[k].Length(), j);
    RunBits(i, startPos, ops, 8 * at + j);
    DecidedBy(i.bytes, startPos, ops, k, 8 * at + j);
  }

  lemma WindowWhole(i: Image, startPos: nat, ops: seq<PacketOp>, k: nat)
    requires k < |ops| && ops[k].Writes()
    ensures var at, p := startPos + ops[k].offset, Run(i, startPos, ops).bytes;
      Clamped(p, at, ops[k].Length()) == Window(p, at, ops[k].Length())
  {
    RunReaches(i, startPos, ops, k);
    var at, p := startPos + ops[k].offset, Run(i, startPos, ops).bytes;
    assert Extended(p, at + ops[k].Length()) == p;
  }

  /** The octets a run leaves in the window of step `k`. */
  function Left(i: Image, startPos: nat, ops: seq<PacketOp>, k: nat): seq<byte>
    requires k < |ops|
  {
    Clamped(Run(i, startPos, ops).bytes, startPos + ops[k].offset, ops[k].Length())
  }

  lemma FieldBitsLeft(i: Image, startPos: nat, ops: seq<PacketOp>, k: nat, b: nat)
    requires k < |ops| && ops[k].WriteBitsOp? && Undisturbed(startPos, ops, k) && b < ops[k].bitLength
    ensures |Left(i, startPos, ops, k)| == ops[k].length
    ensures WindowBit(Left(i, startPos, ops, k), ops[k].bitOffset + ops[k].bitLength - 1 - b) == Bit(ops[k].value, b)
  {
    hide Run, Clamped, WindowBit, Bit, Undisturbed;
    WindowHolds(i, startPos, ops, k, ops[k].bitOffset + ops[k].bitLength - 1 - b);
  }

  lemma DataBitsLeft(i: Image, startPos: nat, ops: seq<PacketOp>, k: nat, j: nat)
    requires k < |ops| && ops[k].WriteOp? && Undisturbed(startPos, ops, k) && j < 8 * |ops[k].data|
    ensures |Left(i, startPos, ops, k)| == |ops[k].data|
    ensures WindowBit(Left(i, startPos, ops, k), j) == WindowBit(ops[k].data, j)
  {
    hide Run, Clamped, WindowBit, Undisturbed;
    WindowHolds(i, startPos, ops, k, j);
  }

  /** A bit field written by an encoder, and not overwritten later, reads back as its value modulo its range. */
  lemma FieldReadsBack(i: Image, startPos: nat, ops: seq<PacketOp>, k: nat)
    requires k < |ops| && ops[k].WriteBitsOp? && Undisturbed(startPos, ops, k)
    ensures ReadField(Left(i, startPos, ops, k), ops[k].length, ops[k].bitOffset, ops[k].bitLength)
         == ops[k].value % Pow2(ops[k].bitLength)
  {
    WindowWhole(i, startPos, ops, k);
    assert |Left(i, startPos, ops, k)| == ops[k].length;
    hide Left, WindowBit, Bit, Undisturbed;
    forall b: nat | b < ops[k].bitLength
      ensures WindowBit(Left(i, startPos, ops, k), ops[k].bitOffset + ops[k].bitLength - 1 - b) == Bit(ops[k].value, b)
    {
      FieldBitsLeft(i, startPos, ops, k, b);
    }
    FieldSpells(Left(i, startPos, ops, k), ops[k].bitOffset, ops[k].bitLength, ops[k].value);
  }

  /** Octets written by an encoder, and not overwritten later, are the octets read back. */
  lemma BytesReadBack(i: Image, startPos: nat, ops: seq<PacketOp>, k: nat)
    requires k < |ops| && ops[k].WriteOp? && Undisturbed(startPos, ops, k)
    ensures Left(i, startPos, ops, k) == ops[k].data
  {
    WindowWhole(i, startPos, ops, k);
    assert |Left(i, startPos, ops, k)| == |ops[k].data|;
    hide Left, WindowBit, Undisturbed;
    forall j: nat | j < 8 * |ops[k].data| ensures WindowBit(Left(i, startPos, ops, k), j) == WindowBit(ops[k].data, j) {
      DataBitsLeft(i, startPos, ops, k, j);
    }
    WindowsDetermined(Left(i, startPos, ops, k), ops[k].data);
  }

  /** A layer encoded at the end of the packet leaves the packet ending exactly where its header does. */
  lemma {:induction false} LayersAbut(p: seq<byte>, ops: seq<PacketOp>)
    ensures var r := Run(Image(p, 0), |p|, ops);
      |r.bytes| == |p| + r.headerLength && r.bytes[..|p|] == p
    decreases |ops|
  {
    if ops != [] {
      var n := |ops| - 1;
      LayersAbut(p, ops[..n]);
      StepKeepsPrefix(p, Run(Image(p, 0), |p|, ops[..n]), ops[n]);
    }
  }

  lemma StepKeepsPrefix(p: seq<byte>, i: Image, op: PacketOp)
    requires |i.bytes| == |p| + i.headerLength && i.bytes[..|p|] == p
    ensures var r := After(i, |p|, op); |r.bytes| == |p| + r.headerLength && r.bytes[..|p|] == p
  {
    var r := After(i, |p|, op);
    assert forall k :: 0 <= k < |p| ==> r.bytes[k] == i.bytes[k];
  }
}
