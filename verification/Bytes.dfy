/** Octets and the fixed-width unsigned integers that Node's Buffer reads and writes. */
module Bytes {

  type byte = x: int | 0 <= x < 256

  datatype Option<+T> = None | Some(value: T)

  datatype Endian = BE | LE

  const TWO_16: int := 0x1_0000
  const TWO_32: int := 0x1_0000_0000

  function Max(a: int, b: int): int { if a < b then b else a }

  function Min(a: int, b: int): int { if a < b then a else b }

  function Zeros(n: nat): (z: seq<byte>)
    ensures |z| == n && forall i :: 0 <= i < n ==> z[i] == 0
  {
    seq(n, _ => 0)
  }

  function GetU16(e: Endian, b: seq<byte>, o: nat): (v: nat)
    requires o + 2 <= |b|
    ensures v < TWO_16
  {
    var first: int, second: int := b[o], b[o + 1];
    if e.BE? then first * 256 + second else first + second * 256
  }

  function GetU32(e: Endian, b: seq<byte>, o: nat): (v: nat)
    requires o + 4 <= |b|
    ensures v < TWO_32
  {
    if e.BE? then GetU16(e, b, o) * 0x1_0000 + GetU16(e, b, o + 2)
    else GetU16(e, b, o) + GetU16(e, b, o + 2) * 0x1_0000
  }

  /** Two's-complement view of GetU32, as readInt32 gives it. */
  function GetI32(e: Endian, b: seq<byte>, o: nat): int
    requires o + 4 <= |b|
  {
    var v := GetU32(e, b, o);
    if v < 0x8000_0000 then v else v - 0x1_0000_0000
  }

  function PutU16(e: Endian, v: nat): (b: seq<byte>)
    requires v < TWO_16
    ensures |b| == 2 && GetU16(e, b, 0) == v
  {
    if e.BE? then [v / 256, v % 256] else [v % 256, v / 256]
  }

  function PutU32(e: Endian, v: nat): (b: seq<byte>)
    requires v < TWO_32
    ensures |b| == 4 && GetU32(e, b, 0) == v
  {
    var hi, lo := PutU16(e, v / 0x1_0000), PutU16(e, v % 0x1_0000);
    var b := if e.BE? then hi + lo else lo + hi;
    assert b[0..2] == if e.BE? then hi else lo;
    assert b[2..4] == if e.BE? then lo else hi;
    b
  }

  /** Reading in one half of a concatenation is reading that half. */
  lemma GetBefore(e: Endian, a: seq<byte>, b: seq<byte>, o: nat)
    ensures o + 2 <= |a| ==> GetU16(e, a + b, o) == GetU16(e, a, o)
    ensures o + 4 <= |a| ==> GetU32(e, a + b, o) == GetU32(e, a, o)
  {
  }

  lemma GetAfter(e: Endian, a: seq<byte>, b: seq<byte>, o: nat)
    ensures o + 2 <= |b| ==> GetU16(e, a + b, |a| + o) == GetU16(e, b, o)
    ensures o + 4 <= |b| ==> GetU32(e, a + b, |a| + o) == GetU32(e, b, o)
  {
    assert forall i :: 0 <= i < |b| ==> (a + b)[|a| + i] == b[i];
  }

  /** Two octets determine, and are determined by, the 16-bit integer they spell. */
  lemma PutGetU16(e: Endian, b: seq<byte>, o: nat)
    requires o + 2 <= |b|
    ensures PutU16(e, GetU16(e, b, o)) == b[o..o + 2]
  {
  }

  lemma AppendAssociates<T>(a: seq<T>, b: seq<T>, c: seq<T>)
    ensures a + (b + c) == (a + b) + c
  {
  }

  lemma SliceOfSlice<T>(p: seq<T>, lo: nat, hi: nat, a: nat, b: nat)
    requires lo <= hi <= |p| && a <= b <= hi - lo
    ensures p[lo..hi][a..b] == p[lo + a..lo + b]
  {
    var inner, outer := p[lo..hi][a..b], p[lo + a..lo + b];
    assert forall k :: 0 <= k < b - a ==> inner[k] == p[lo..hi][a + k] == p[lo + (a + k)] == outer[k];
  }

  /** An integer inside a slice is the integer at its place in the whole. */
  lemma GetInSlice(e: Endian, p: seq<byte>, lo: nat, hi: nat, o: nat)
    requires lo <= hi <= |p|
    ensures o + 2 <= hi - lo ==> GetU16(e, p[lo..hi], o) == GetU16(e, p, lo + o)
    ensures o + 4 <= hi - lo ==> GetU32(e, p[lo..hi], o) == GetU32(e, p, lo + o)
  {
  }

  lemma AppendNil<T>(a: seq<T>)
    ensures [] + a == a && a + [] == a
  {
  }

  lemma DivMod(x: int, d: nat)
    requires d >= 1
    ensures x == (x / d) * d + x % d && 0 <= x % d < d
    ensures x >= 0 ==> x / d >= 0
  {
  }

  lemma TimesAtLeast(e: int, d: nat)
    ensures e >= 1 ==> e * d >= d
    ensures e <= -1 ==> e * d <= 0 - d
  {
  }

  lemma QuotientUnique(x: int, d: nat, q: int, r: int)
    requires d >= 1 && x == q * d + r && 0 <= r < d
    ensures x / d == q && x % d == r
  {
    DivMod(x, d);
    var e: int := x / d - q;
    assert e * d == r - x % d by { assert (x / d) * d - q * d == e * d; }
    TimesAtLeast(e, d);
  }

  function Concat(parts: seq<seq<byte>>): seq<byte>
  {
    if parts == [] then [] else parts[0] + Concat(parts[1..])
  }

  /** `p` with `b` laid over it from position `off`, zero-filled up to the end of the write. */
  function Overlay(p: seq<byte>, off: nat, b: seq<byte>): (r: seq<byte>)
    ensures |r| == Max(|p|, off + |b|)
    ensures forall i :: 0 <= i < |r| ==>
      r[i] == if off <= i < off + |b| then b[i - off] else if i < |p| then p[i] else 0
  {
    var base := p + Zeros(Max(0, off + |b| - |p|));
    base[..off] + b + base[off + |b|..]
  }

  lemma OverlayAtEnd(p: seq<byte>, b: seq<byte>)
    ensures Overlay(p, |p|, b) == p + b
  {
  }

  // ---- octets at a place ----

  predicate Sits(input: seq<byte>, p: nat, piece: seq<byte>)
  {
    p + |piece| <= |input| && input[p..p + |piece|] == piece
  }

  lemma SitsInside(input: seq<byte>, p: nat, piece: seq<byte>)
    requires Sits(input, p, piece)
    ensures p + |piece| <= |input| && input[p..p + |piece|] == piece
  {
  }

  lemma SitsSplit(input: seq<byte>, p: nat, a: seq<byte>, b: seq<byte>)
    requires Sits(input, p, a + b)
    ensures Sits(input, p, a) && Sits(input, p + |a|, b)
  {
    var s := input[p..p + |a + b|];
    assert s[..|a|] == a && s[|a|..] == b;
    assert input[p..p + |a|] == s[..|a|];
    assert input[p + |a|..p + |a| + |b|] == s[|a|..];
  }

  lemma SitsAt(input: seq<byte>, p: nat, piece: seq<byte>, i: nat)
    requires Sits(input, p, piece) && i < |piece|
    ensures input[p + i] == piece[i]
  {
    assert input[p..p + |piece|][i] == piece[i];
  }
}
