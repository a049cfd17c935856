/** Bit fields over big-endian octet windows: the arithmetic path, the BigInt path, and the bits they mean. */
module BitFields {
  import opened Bytes

  function Pow2(n: nat): (p: nat)
    ensures p >= 1
  {
    if n == 0 then 1 else 2 * Pow2(n - 1)
  }

  /** Bit `k` of `x`, counted from the least significant; negative numbers are in two's complement. */
  function Bit(x: int, k: nat): (b: int)
    ensures 0 <= b <= 1
    decreases k
  {
    if k == 0 then x % 2 else Bit(x / 2, k - 1)
  }

  /** The number a window of octets spells. */
  function ToNat(b: seq<byte>): nat
  {
    if b == [] then 0 else ToNat(b[..|b| - 1]) * 256 + b[|b| - 1]
  }

  /** The low `n` octets of `v`. */
  function FromNat(v: nat, n: nat): (b: seq<byte>)
    ensures |b| == n
  {
    if n == 0 then [] else FromNat(v / 256, n - 1) + [v % 256]
  }

  /** Bit `j` of a window, counted from the most significant bit of its first octet. */
  function WindowBit(b: seq<byte>, j: nat): int
    requires j < 8 * |b|
  {
    Bit(b[j / 8], 7 - j % 8)
  }

  // ---- numbers and their bits ----

  lemma {:induction false} BitsOfSum(hi: nat, lo: nat, n: nat, k: nat)
    requires lo < Pow2(n)
    ensures Bit(hi * Pow2(n) + lo, k) == if k < n then Bit(lo, k) else Bit(hi, k - n)
    decreases n
  {
    if n > 0 {
      var p := Pow2(n - 1);
      HalfOfSum(hi, lo, p);
      if k > 0 { BitsOfSum(hi, lo / 2, n - 1, k - 1); }
    }
  }

  lemma HalfOfSum(hi: nat, lo: nat, p: nat)
    ensures (hi * (2 * p) + lo) % 2 == lo % 2
    ensures (hi * (2 * p) + lo) / 2 == hi * p + lo / 2
  {
    var q := hi * p;
    assert hi * (2 * p) == 2 * q;
  }

  lemma {:induction false} BitsDetermine(x: nat, y: nat, n: nat)
    requires x < Pow2(n) && y < Pow2(n)
    requires forall k :: 0 <= k < n ==> Bit(x, k) == Bit(y, k)
    ensures x == y
    decreases n
  {
    if n > 0 {
      assert Bit(x, 0) == Bit(y, 0);
      forall k | 0 <= k < n - 1 ensures Bit(x / 2, k) == Bit(y / 2, k) {
        assert Bit(x, k + 1) == Bit(y, k + 1);
      }
      BitsDetermine(x / 2, y / 2, n - 1);
    }
  }

  lemma {:induction false} Pow2Add(a: nat, b: nat)
    ensures Pow2(a + b) == Pow2(a) * Pow2(b)
  {
    if a > 0 {
      Pow2Add(a - 1, b);
      assert 2 * (Pow2(a - 1) * Pow2(b)) == (2 * Pow2(a - 1)) * Pow2(b);
    }
  }

  lemma {:induction false} Pow2Monotone(a: nat, b: nat)
    requires a <= b
    ensures Pow2(a) <= Pow2(b)
    decreases b
  {
    if a < b { Pow2Monotone(a, b - 1); }
  }

  /** Bits of a quotient and of a remainder by a power of two. */
  lemma BitsOfDivMod(x: nat, s: nat, k: nat)
    ensures Bit(x / Pow2(s), k) == Bit(x, k + s)
    ensures Bit(x % Pow2(s), k) == if k < s then Bit(x, k) else 0
  {
    DivMod(x, Pow2(s));
    BitsOfSum(x / Pow2(s), x % Pow2(s), s, k + s);
    BitsOfSum(x / Pow2(s), x % Pow2(s), s, k);
    if k >= s { SmallBits(x % Pow2(s), s, k); }
  }

  lemma {:induction false} SmallBits(x: nat, n: nat, k: nat)
    requires x < Pow2(n) && k >= n
    ensures Bit(x, k) == 0
    decreases k
  {
    if k > 0 {
      if n == 0 { assert x == 0; ZeroBits(k); } else { SmallBits(x / 2, n - 1, k - 1); }
    }
  }

  lemma {:induction false} ZeroBits(k: nat)
    ensures Bit(0, k) == 0
  {
    if k > 0 { ZeroBits(k - 1); }
  }

  // ---- windows and their bits ----

  lemma {:induction false} WindowBits(b: seq<byte>, j: nat)
    requires j < 8 * |b|
    ensures WindowBit(b, j) == Bit(ToNat(b), 8 * |b| - 1 - j)
    decreases |b|
  {
    var n := |b| - 1;
    var last: int := b[n];
    assert Pow2(8) == 256 by { assert Pow2(4) == 16; Pow2Add(4, 4); }
    BitsOfSum(ToNat(b[..n]), last, 8, 8 * |b| - 1 - j);
    if j < 8 * n {
      WindowBits(b[..n], j);
    } else {
      assert j / 8 == n && j % 8 == j - 8 * n;
    }
  }

  lemma {:induction false} ToNatBound(b: seq<byte>)
    ensures ToNat(b) < Pow2(8 * |b|)
  {
    if b != [] {
      ToNatBound(b[..|b| - 1]);
      Pow2Eight(|b| - 1);
    }
  }

  lemma Pow2Eight(n: nat)
    ensures Pow2(8 * (n + 1)) == 256 * Pow2(8 * n)
  {
    assert Pow2(8) == 256 by { assert Pow2(4) == 16; Pow2Add(4, 4); }
    assert 8 * (n + 1) == 8 + 8 * n;
    Pow2Add(8, 8 * n);
  }

  lemma {:induction false} FromNatInverse(v: nat, n: nat)
    requires v < Pow2(8 * n)
    ensures ToNat(FromNat(v, n)) == v
    decreases n
  {
    if n > 0 {
      Pow2Eight(n - 1);
      FromNatInverse(v / 256, n - 1);
      assert FromNat(v, n)[..n - 1] == FromNat(v / 256, n - 1);
    }
  }

  lemma {:induction false} ToNatInverse(b: seq<byte>)
    ensures FromNat(ToNat(b), |b|) == b
  {
    if b != [] {
      var n := |b| - 1;
      ToNatInverse(b[..n]);
      assert (ToNat(b[..n]) * 256 + b[n]) / 256 == ToNat(b[..n]);
      assert b == b[..n] + [b[n]];
    }
  }

  /** Two windows of the same width are equal when all their bits are. */
  lemma WindowsDetermined(a: seq<byte>, b: seq<byte>)
    requires |a| == |b| && forall j :: 0 <= j < 8 * |a| ==> WindowBit(a, j) == WindowBit(b, j)
    ensures a == b
  {
    ToNatBound(a);
    ToNatBound(b);
    var n := 8 * |a|;
    forall k | 0 <= k < n ensures Bit(ToNat(a), k) == Bit(ToNat(b), k) {
      WindowBits(a, n - 1 - k);
      WindowBits(b, n - 1 - k);
      assert WindowBit(a, n - 1 - k) == WindowBit(b, n - 1 - k);
    }
    BitsDetermine(ToNat(a), ToNat(b), n);
    ToNatInverse(a);
    ToNatInverse(b);
  }

  // ---- the arithmetic path ----

  /** `readBits` over the octets actually available, out of a window of `length`. */
  function ReadField(b: seq<byte>, length: nat, bitOffset: nat, bitLength: nat): nat
  {
    var shift := length * 8 - bitOffset - bitLength;
    if shift < 0 then 0 else ToNat(b) / Pow2(shift) % Pow2(bitLength)
  }

  /** The window's number with the field replaced by the low `bitLength` bits of `value`. */
  function Written(current: nat, shift: nat, bitLength: nat, value: int): nat
  {
    var modulo, divisor := Pow2(bitLength), Pow2(shift);
    Reassemble(current, modulo, divisor, value)
  }

  function Reassemble(current: nat, modulo: nat, divisor: nat, value: int): nat
    requires modulo >= 1 && divisor >= 1
  {
    Products(modulo, divisor);
    var high: nat := Times(current / (modulo * divisor), modulo * divisor);
    var field: nat := Times(value % modulo, divisor);
    high + field + current % divisor
  }

  function Times(a: nat, b: nat): (p: nat)
    ensures p == a * b
  {
    Scale(0, a, b);
    a * b
  }

  function WriteField(b: seq<byte>, bitOffset: nat, bitLength: nat, value: int): (r: seq<byte>)
    requires bitOffset + bitLength <= 8 * |b|
    ensures |r| == |b|
  {
    FromNat(Written(ToNat(b), 8 * |b| - bitOffset - bitLength, bitLength, value), |b|)
  }

  lemma Distribute(a: int, b: int, d: int)
    ensures (a + b) * d == a * d + b * d
  {
  }

  lemma Associate(a: int, b: int, c: int)
    ensures a * b * c == a * (b * c)
  {
  }

  lemma Scale(a: int, b: int, d: nat)
    requires a <= b
    ensures a * d <= b * d
  {
  }

  lemma Products(m: nat, d: nat)
    requires m >= 1 && d >= 1
    ensures m * d >= 1
  {
  }

  /** `h` groups of `m` and `r` more, each of size `d`, stay under the next group. */
  lemma Nested(h: nat, r: nat, m: nat, d: nat, low: nat)
    requires r < m && low < d
    ensures (h * m + r) * d + low == h * (m * d) + (r * d + low)
    ensures 0 <= r * d + low < m * d
  {
    Distribute(h * m, r, d);
    Associate(h, m, d);
    Scale(r + 1, m, d);
    Distribute(r, 1, d);
    Scale(0, r, d);
  }

  lemma QuotientOfQuotient(x: nat, m: nat, d: nat)
    requires m >= 1 && d >= 1
    ensures m * d >= 1 && x / (m * d) == x / d / m
  {
    Products(m, d);
    var q, low := x / d, x % d;
    DivMod(x, d);
    var h, r := q / m, q % m;
    DivMod(q, m);
    Nested(h, r, m, d, low);
    QuotientUnique(x, m * d, h, r * d + low);
  }

  /** The number as high part, field and low part. */
  lemma WrittenParts(current: nat, shift: nat, bitLength: nat, value: int)
    ensures Written(current, shift, bitLength, value)
         == (current / Pow2(shift) / Pow2(bitLength) * Pow2(bitLength) + value % Pow2(bitLength)) * Pow2(shift)
           + current % Pow2(shift)
    ensures 0 <= value % Pow2(bitLength) < Pow2(bitLength)
  {
    var m, d := Pow2(bitLength), Pow2(shift);
    hide Pow2;
    QuotientOfQuotient(current, m, d);
    var h, f := current / d / m, value % m;
    DivMod(value, m);
    Distribute(h * m, f, d);
    Associate(h, m, d);
  }

  lemma WrittenBits(current: nat, shift: nat, bitLength: nat, value: int, k: nat)
    ensures Bit(Written(current, shift, bitLength, value), k)
         == if shift <= k < shift + bitLength then Bit(value % Pow2(bitLength), k - shift) else Bit(current, k)
  {
    WrittenParts(current, shift, bitLength, value);
    var m, d := Pow2(bitLength), Pow2(shift);
    var h, f := current / d / m, value % m;
    DivMod(current, d);
    DivMod(current / d, m);
    var upper: nat := h * m + f;
    BitsOfSum(upper, current % d, shift, k);
    BitsOfDivMod(current, shift, k);
    if k >= shift {
      BitsOfSum(h, f, bitLength, k - shift);
      if k >= shift + bitLength {
        BitsOfDivMod(current / d, bitLength, k - shift - bitLength);
        BitsOfDivMod(current, shift, k - shift);
      }
    }
  }

  lemma WrittenBound(current: nat, shift: nat, bitLength: nat, value: int, n: nat)
    requires current < Pow2(n) && shift + bitLength <= n
    ensures Written(current, shift, bitLength, value) < Pow2(n)
  {
    var m, d, t := Pow2(bitLength), Pow2(shift), Pow2(n - shift - bitLength);
    Pow2Add(bitLength, shift);
    Pow2Add(n - shift - bitLength, bitLength + shift);
    hide Pow2;
    var block := m * d;
    Products(m, d);
    var h, f, low := current / block, value % m, current % d;
    DivMod(current, block);
    DivMod(value, m);
    DivMod(current, d);
    if h >= t { Scale(t, h, block); }
    Nested(0, f, m, d, low);
    Scale(h + 1, t, block);
    Distribute(h, 1, block);
  }

  // ---- the algebra of fields ----

  /** The low `n` bits of any integer, negative ones included, are its two's-complement bits. */
  lemma {:induction false} LowBits(x: int, n: nat, k: nat)
    requires k < n
    ensures Bit(x % Pow2(n), k) == Bit(x, k)
    decreases k
  {
    var p := Pow2(n - 1);
    HalfOfRemainder(x, p);
    if k > 0 { LowBits(x / 2, n - 1, k - 1); }
  }

  lemma HalfOfRemainder(x: int, p: nat)
    requires p >= 1
    ensures (x % (2 * p)) % 2 == x % 2 && (x % (2 * p)) / 2 == (x / 2) % p
  {
    var q, r := x / 2 / p, x / 2 % p;
    DivMod(x / 2, p);
    Associate(2, q, p);
    assert x == q * (2 * p) + (2 * r + x % 2) by { assert 2 * (q * p) == q * (2 * p); }
    QuotientUnique(x, 2 * p, q, 2 * r + x % 2);
  }

  /** A write sets exactly the field's bits, to those of the value, and keeps every other bit. */
  lemma WriteSetsField(b: seq<byte>, bitOffset: nat, bitLength: nat, value: int, j: nat)
    requires bitOffset + bitLength <= 8 * |b| && j < 8 * |b|
    ensures WindowBit(WriteField(b, bitOffset, bitLength, value), j)
         == if bitOffset <= j < bitOffset + bitLength then Bit(value, bitOffset + bitLength - 1 - j)
            else WindowBit(b, j)
  {
    var n, k := 8 * |b|, 8 * |b| - 1 - j;
    var shift := n - bitOffset - bitLength;
    var out := WriteField(b, bitOffset, bitLength, value);
    ToNatBound(b);
    WrittenBound(ToNat(b), shift, bitLength, value, n);
    FromNatInverse(Written(ToNat(b), shift, bitLength, value), |b|);
    hide WindowBit, Written, ToNat, FromNat, Bit;
    WindowBits(out, j);
    WindowBits(b, j);
    WrittenBits(ToNat(b), shift, bitLength, value, k);
    if shift <= k < shift + bitLength { LowBits(value, bitLength, k - shift); }
  }

  /** A read is the number its field's bits spell. */
  lemma ReadTakesField(b: seq<byte>, bitOffset: nat, bitLength: nat, k: nat)
    requires bitOffset + bitLength <= 8 * |b|
    ensures ReadField(b, |b|, bitOffset, bitLength) < Pow2(bitLength)
    ensures Bit(ReadField(b, |b|, bitOffset, bitLength), k)
         == if k < bitLength then WindowBit(b, bitOffset + bitLength - 1 - k) else 0
  {
    var shift := 8 * |b| - bitOffset - bitLength;
    var x := ToNat(b);
    DivMod(x, Pow2(shift));
    DivMod(x / Pow2(shift), Pow2(bitLength));
    BitsOfDivMod(x / Pow2(shift), bitLength, k);
    BitsOfDivMod(x, shift, k);
    if k < bitLength { WindowBits(b, bitOffset + bitLength - 1 - k); }
  }

  /** A field whose bits are those of `value` reads as `value` modulo its range. */
  lemma FieldSpells(b: seq<byte>, bitOffset: nat, bitLength: nat, value: int)
    requires bitOffset + bitLength <= 8 * |b|
    requires forall k: nat :: k < bitLength ==> WindowBit(b, bitOffset + bitLength - 1 - k) == Bit(value, k)
    ensures ReadField(b, |b|, bitOffset, bitLength) == value % Pow2(bitLength)
  {
    var read := ReadField(b, |b|, bitOffset, bitLength);
    DivMod(value, Pow2(bitLength));
    forall k: nat | k < bitLength ensures Bit(read, k) == Bit(value % Pow2(bitLength), k) {
      hide WindowBit, ReadField, Bit;
      ReadTakesField(b, bitOffset, bitLength, k);
      LowBits(value, bitLength, k);
    }
    ReadTakesField(b, bitOffset, bitLength, 0);
    BitsDetermine(read, value % Pow2(bitLength), bitLength);
  }

  /** Reading a field back gives the value written, modulo the field's range; negative values wrap. */
  lemma ReadAfterWrite(b: seq<byte>, bitOffset: nat, bitLength: nat, value: int)
    requires bitOffset + bitLength <= 8 * |b|
    ensures ReadField(WriteField(b, bitOffset, bitLength, value), |b|, bitOffset, bitLength) == value % Pow2(bitLength)
  {
    var out := WriteField(b, bitOffset, bitLength, value);
    forall k: nat | k < bitLength ensures WindowBit(out, bitOffset + bitLength - 1 - k) == Bit(value, k) {
      WriteSetsField(b, bitOffset, bitLength, value, bitOffset + bitLength - 1 - k);
    }
    FieldSpells(out, bitOffset, bitLength, value);
  }

  /** Writing back what a field holds changes nothing. */
  lemma WriteBack(b: seq<byte>, bitOffset: nat, bitLength: nat)
    requires bitOffset + bitLength <= 8 * |b|
    ensures WriteField(b, bitOffset, bitLength, ReadField(b, |b|, bitOffset, bitLength)) == b
  {
    var v := ReadField(b, |b|, bitOffset, bitLength);
    forall j: nat | j < 8 * |b| ensures WindowBit(WriteField(b, bitOffset, bitLength, v), j) == WindowBit(b, j) {
      WriteSetsField(b, bitOffset, bitLength, v, j);
      if bitOffset <= j < bitOffset + bitLength {
        ReadTakesField(b, bitOffset, bitLength, bitOffset + bitLength - 1 - j);
      }
    }
    WindowsDetermined(WriteField(b, bitOffset, bitLength, v), b);
  }

  /** Writes to disjoint fields of a window commute. */
  lemma DisjointWritesCommute(b: seq<byte>, o1: nat, n1: nat, v1: int, o2: nat, n2: nat, v2: int)
    requires o1 + n1 <= o2 && o2 + n2 <= 8 * |b|
    ensures WriteField(WriteField(b, o1, n1, v1), o2, n2, v2) == WriteField(WriteField(b, o2, n2, v2), o1, n1, v1)
  {
    var first, second := WriteField(b, o1, n1, v1), WriteField(b, o2, n2, v2);
    var x, y := WriteField(first, o2, n2, v2), WriteField(second, o1, n1, v1);
    forall j: nat | j < 8 * |b| ensures WindowBit(x, j) == WindowBit(y, j) {
      hide WindowBit, WriteField, Bit;
      WriteSetsField(b, o1, n1, v1, j);
      WriteSetsField(b, o2, n2, v2, j);
      WriteSetsField(first, o2, n2, v2, j);
      WriteSetsField(second, o1, n1, v1, j);
    }
    WindowsDetermined(x, y);
  }

  lemma {:induction false} LeadingZeros(b: seq<byte>, missing: nat)
    ensures ToNat(Zeros(missing) + b) == ToNat(b)
    decreases missing + |b|
  {
    if b == [] {
      if missing > 0 {
        LeadingZeros([], missing - 1);
        assert (Zeros(missing) + b)[..missing - 1] == Zeros(missing - 1) + [];
      }
    } else {
      var n := |b| - 1;
      LeadingZeros(b[..n], missing);
      assert (Zeros(missing) + b)[..missing + n] == Zeros(missing) + b[..n];
    }
  }

  /** A field of a window cut short by the end of the capture reads as if the missing octets were leading zeros. */
  lemma TruncatedWindow(b: seq<byte>, length: nat, bitOffset: nat, bitLength: nat)
    requires |b| <= length
    ensures ReadField(b, length, bitOffset, bitLength)
      == ReadField(Zeros(length - |b|) + b, length, bitOffset, bitLength)
  {
    LeadingZeros(b, length - |b|);
  }

  // ---- the BigInt path ----

  /** `x & y` for a non-negative `y`. */
  function And(x: int, y: nat): (r: nat)
    decreases y
  {
    if y == 0 then 0 else (if x % 2 == 1 then y % 2 else 0) + 2 * And(x / 2, y / 2)
  }

  /** `x & ~y`. */
  function AndNot(x: nat, y: nat): (r: nat)
    ensures r <= x
    decreases x
  {
    if x == 0 then 0 else (if y % 2 == 1 then 0 else x % 2) + 2 * AndNot(x / 2, y / 2)
  }

  /** `x | y`. */
  function Or(x: nat, y: nat): (r: nat)
    decreases x + y
  {
    if x == 0 && y == 0 then 0 else (if x % 2 == 1 then 1 else y % 2) + 2 * Or(x / 2, y / 2)
  }

  lemma {:induction false} AndBit(x: int, y: nat, k: nat)
    ensures Bit(And(x, y), k) == if Bit(y, k) == 1 then Bit(x, k) else 0
    decreases k
  {
    if y == 0 { ZeroBits(k); } else if k > 0 { AndBit(x / 2, y / 2, k - 1); }
  }

  lemma {:induction false} AndNotBit(x: nat, y: nat, k: nat)
    ensures Bit(AndNot(x, y), k) == if Bit(y, k) == 1 then 0 else Bit(x, k)
    decreases k
  {
    if x == 0 { ZeroBits(k); } else if k > 0 { AndNotBit(x / 2, y / 2, k - 1); }
  }

  lemma {:induction false} OrBit(x: nat, y: nat, k: nat)
    ensures Bit(Or(x, y), k) == if Bit(x, k) == 1 then 1 else Bit(y, k)
    decreases k
  {
    if x == 0 && y == 0 { ZeroBits(k); } else if k > 0 { OrBit(x / 2, y / 2, k - 1); }
  }

  lemma {:induction false} OrBound(x: nat, y: nat, n: nat)
    requires x < Pow2(n) && y < Pow2(n)
    ensures Or(x, y) < Pow2(n)
  {
    if n > 0 { OrBound(x / 2, y / 2, n - 1); } else { assert x == 0 && y == 0; }
  }

  /** Shifting left and or-ing the freed bits is adding. */
  lemma {:induction false} OrDisjoint(hi: nat, lo: nat, n: nat)
    requires lo < Pow2(n)
    ensures Or(hi * Pow2(n), lo) == hi * Pow2(n) + lo
    decreases n
  {
    if n == 0 {
      OrZero(hi);
    } else {
      var p := Pow2(n - 1);
      OrDisjoint(hi, lo / 2, n - 1);
      HalfOfSum(hi, lo, p);
      HalfOfSum(hi, 0, p);
      Scale(0, hi, 2 * p);
      assert hi * (2 * p) + lo == 2 * (hi * p + lo / 2) + lo % 2;
    }
  }

  lemma {:induction false} OrZero(x: nat)
    ensures Or(x, 0) == x
  {
    if x > 0 { OrZero(x / 2); }
  }

  function Mask(n: nat): nat { Pow2(n) - 1 }

  lemma MaskHalf(n: nat)
    requires n > 0
    ensures Mask(n) % 2 == 1 && Mask(n) / 2 == Mask(n - 1)
  {
  }

  lemma {:induction false} AndMask(x: int, n: nat)
    ensures And(x, Mask(n)) == x % Pow2(n)
    decreases n
  {
    if n > 0 {
      AndMask(x / 2, n - 1);
      HalfOfRemainder(x, Pow2(n - 1));
      MaskHalf(n);
    }
  }

  lemma {:induction false} MaskBit(n: nat, k: nat)
    ensures Bit(Mask(n), k) == if k < n then 1 else 0
    decreases k
  {
    if n == 0 { ZeroBits(k); } else {
      MaskHalf(n);
      if k > 0 { MaskBit(n - 1, k - 1); }
    }
  }

  /** `readBits` for windows wider than four octets. */
  function WideRead(current: nat, shift: nat, bitLength: nat): nat
  {
    And(current / Pow2(shift), Mask(bitLength))
  }

  /** `writeBits` for windows wider than four octets. */
  function WideWritten(current: nat, shift: nat, bitLength: nat, value: int): nat
  {
    Or(AndNot(current, Times(Mask(bitLength), Pow2(shift))), Times(And(value, Mask(bitLength)), Pow2(shift)))
  }

  lemma ShiftedBit(x: nat, shift: nat, k: nat)
    ensures Bit(Times(x, Pow2(shift)), k) == if k < shift then 0 else Bit(x, k - shift)
  {
    BitsOfSum(x, 0, shift, k);
    ZeroBits(k);
  }

  lemma ShiftedBound(x: nat, bitLength: nat, shift: nat, n: nat)
    requires x < Pow2(bitLength) && shift + bitLength <= n
    ensures Times(x, Pow2(shift)) < Pow2(n)
  {
    Pow2Add(bitLength, shift);
    Pow2Monotone(bitLength + shift, n);
    Scale(x + 1, Pow2(bitLength), Pow2(shift));
    Distribute(x, 1, Pow2(shift));
  }

  /** The BigInt path computes what the arithmetic path computes. */
  lemma WidePathAgrees(current: nat, shift: nat, bitLength: nat, value: int, n: nat)
    requires current < Pow2(n) && shift + bitLength <= n
    ensures WideRead(current, shift, bitLength) == current / Pow2(shift) % Pow2(bitLength)
    ensures WideWritten(current, shift, bitLength, value) == Written(current, shift, bitLength, value)
  {
    hide Bit, Written, Times, Or, AndNot, And, Pow2, Mask;
    WideReadAgrees(current, shift, bitLength);
    AndMask(value, bitLength);
    DivMod(value, Pow2(bitLength));
    var f := value % Pow2(bitLength);
    var mask, field := Times(Mask(bitLength), Pow2(shift)), Times(f, Pow2(shift));
    var wide := WideWritten(current, shift, bitLength, value);
    ShiftedBound(f, bitLength, shift, n);
    OrBound(AndNot(current, mask), field, n);
    WrittenBound(current, shift, bitLength, value, n);
    forall k: nat | k < n ensures Bit(wide, k) == Bit(Written(current, shift, bitLength, value), k) {
      OrBit(AndNot(current, mask), field, k);
      AndNotBit(current, mask, k);
      ShiftedBit(Mask(bitLength), shift, k);
      ShiftedBit(f, shift, k);
      if k >= shift { MaskBit(bitLength, k - shift); }
      if k >= shift + bitLength { SmallBits(f, bitLength, k - shift); }
      WrittenBits(current, shift, bitLength, value, k);
    }
    BitsDetermine(wide, Written(current, shift, bitLength, value), n);
  }

  lemma WideReadAgrees(current: nat, shift: nat, bitLength: nat)
    ensures And(current / Pow2(shift), Mask(bitLength)) == current / Pow2(shift) % Pow2(bitLength)
  {
    DivMod(current, Pow2(shift));
    AndMask(current / Pow2(shift), bitLength);
  }

  /** JavaScript's `%` takes the sign of the dividend; the double remainder in `writeBits` is the mathematical one. */
  function JsMod(a: int, m: nat): (r: int)
    requires m >= 1
  {
    if a >= 0 then a % m else -(-a % m)
  }

  lemma DoubleRemainder(v: int, m: nat)
    requires m >= 1
    ensures JsMod(JsMod(v, m) + m, m) == v % m
  {
    DivMod(v, m);
    DivMod(-v, m);
    if v >= 0 {
      QuotientUnique(v % m + m, m, 1, v % m);
    } else {
      var q, r := -v / m, -v % m;
      Distribute(-q, -1, m);
      assert v == -q * m - r by { assert -q * m == -(q * m); }
      if r == 0 {
        QuotientUnique(v, m, -q, 0);
        QuotientUnique(m, m, 1, 0);
      } else {
        QuotientUnique(v, m, -q - 1, m - r);
        QuotientUnique(m - r, m, 0, m - r);
      }
    }
  }

  lemma Pow2Of32()
    ensures Pow2(32) == 0x1_0000_0000
  {
    assert Pow2(0) == 1;
    hide Pow2;
    Pow2Eight(0);
    Pow2Eight(1);
    Pow2Eight(2);
    Pow2Eight(3);
  }

  /**
   * In a window of at most four octets every number the arithmetic path computes is a whole number below 2^53, which
   * doubles hold exactly: all but the sum inside the double remainder are at most 2^32, and that sum is below 2^33.
   */
  lemma NarrowIsExact(b: seq<byte>, bitOffset: nat, bitLength: nat, value: int)
    requires |b| <= 4 && bitOffset + bitLength <= 8 * |b|
    ensures var shift, m := 8 * |b| - bitOffset - bitLength, Pow2(bitLength);
      && ToNat(b) < 0x1_0000_0000 && m <= 0x1_0000_0000 && Pow2(shift) <= 0x1_0000_0000
      && 0 - m < JsMod(value, m) < m && 0 < JsMod(value, m) + m < 0x2_0000_0000
      && Times(m, Pow2(shift)) <= 0x1_0000_0000
      && Times(value % m, Pow2(shift)) < 0x1_0000_0000
      && Written(ToNat(b), shift, bitLength, value) < 0x1_0000_0000
  {
    hide Pow2, Written, ToNat, JsMod;
    var shift, n := 8 * |b| - bitOffset - bitLength, 8 * |b|;
    ToNatBound(b);
    Pow2Monotone(n, 32);
    Pow2Monotone(bitLength, 32);
    Pow2Monotone(shift, 32);
    Pow2Of32();
    Pow2Add(bitLength, shift);
    Pow2Monotone(bitLength + shift, n);
    DivMod(value, Pow2(bitLength));
    JsModBound(value, Pow2(bitLength));
    ShiftedBound(value % Pow2(bitLength), bitLength, shift, n);
    WrittenBound(ToNat(b), shift, bitLength, value, n);
  }

  lemma JsModBound(v: int, m: nat)
    requires m >= 1
    ensures 0 - m < JsMod(v, m) < m
  {
    DivMod(v, m);
    DivMod(-v, m);
  }

  /** The sum inside the double remainder passes 2^32 exactly for a positive remainder in a field of all 32 bits. */
  lemma SumStaysNarrowIff(bitLength: nat, value: int)
    requires bitLength <= 32
    ensures JsMod(value, Pow2(bitLength)) + Pow2(bitLength) <= 0x1_0000_0000
       <==> bitLength < 32 || JsMod(value, Pow2(bitLength)) <= 0
  {
    hide Pow2, JsMod;
    Pow2Of32();
    JsModBound(value, Pow2(bitLength));
    if bitLength < 32 {
      Pow2Monotone(bitLength, 31);
      Pow2Double(31);
    }
  }

  lemma Pow2Double(n: nat)
    ensures Pow2(n + 1) == 2 * Pow2(n)
  {
  }

  /** The value 1 in a 32-bit field already does. */
  lemma OnePassesNarrow()
    ensures JsMod(1, Pow2(32)) + Pow2(32) == 0x1_0000_0001
  {
    hide Pow2;
    Pow2Of32();
  }

  // ---- whole windows and single octets ----

  lemma WholeWindow(b: seq<byte>, v: int)
    ensures ReadField(b, |b|, 0, 8 * |b|) == ToNat(b)
    ensures WriteField(b, 0, 8 * |b|, v) == FromNat(v % Pow2(8 * |b|), |b|)
  {
    var m := Pow2(8 * |b|);
    ToNatBound(b);
    assert Pow2(0) == 1;
    hide Pow2;
    QuotientUnique(ToNat(b), m, 0, ToNat(b));
    assert Times(m, 1) == m && ToNat(b) / m == 0;
  }

  lemma SmallPowers()
    ensures Pow2(0) == 1 && Pow2(1) == 2 && Pow2(2) == 4 && Pow2(3) == 8 && Pow2(4) == 16
    ensures Pow2(5) == 32 && Pow2(6) == 64 && Pow2(7) == 128 && Pow2(8) == 256
  {
    assert Pow2(1) == 2 && Pow2(3) == 8 && Pow2(5) == 32;
    assert Pow2(7) == 128;
  }

  /** Reading and writing a field of a single octet. */
  lemma OctetField(x: byte, bitOffset: nat, bitLength: nat, v: int)
    requires bitOffset + bitLength <= 8
    ensures var m, d := Pow2(bitLength), Pow2(8 - bitOffset - bitLength);
      && ReadField([x], 1, bitOffset, bitLength) == x / d % m
      && Reassemble(x, m, d, v) < 256
      && WriteField([x], bitOffset, bitLength, v) == [Reassemble(x, m, d, v)]
  {
    var shift := 8 - bitOffset - bitLength;
    SmallPowers();
    WrittenBound(x, shift, bitLength, v, 8);
    hide Pow2, Reassemble;
    var w := Reassemble(x, Pow2(bitLength), Pow2(shift), v);
    assert [x][..0] == [] && ToNat([x]) == x;
    assert FromNat(w / 256, 0) == [];
    AppendNil([w % 256]);
  }
}
