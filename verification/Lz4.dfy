/**
 * The LZ4 block and frame decoder. An index past the end of a Buffer reads as 0 where a byte is stored and
 * as NaN where a length is accumulated; a NaN length copies nothing and leaves the cursor past the block.
 */
module Lz4 {
  import opened Bytes

  const LZ4_FRAME_MAGIC := 0x184d2204

  /** A byte of a buffer used as data: 0 when the index is out of range. */
  function At(b: seq<byte>, i: int): byte
  {
    if 0 <= i < |b| then b[i] else 0
  }

  /**
   * Continuation bytes from `s`: the sum up to and including the first below 255, and the cursor after it;
   * None when they run off the input.
   */
  function Continuation(input: seq<byte>, s: nat): (r: Option<(nat, nat)>)
    ensures r.Some? ==> s < r.value.1 <= |input|
    decreases |input| - s
  {
    if s >= |input| then None
    else if input[s] < 255 then Some((input[s], s + 1))
    else
      match Continuation(input, s + 1)
      case None => None
      case Some((n, next)) => Some((255 + n, next))
  }

  /** A length whose nibble is `nibble`: 15 means continuation bytes follow. */
  function Length(input: seq<byte>, nibble: nat, s: nat): (r: Option<(nat, nat)>)
    ensures r.Some? ==> s <= r.value.1
  {
    if nibble < 15 then Some((nibble, s))
    else
      match Continuation(input, s)
      case None => None
      case Some((n, next)) => Some((15 + n, next))
  }

  /** `n` bytes of input from `s`, zeros past its end. */
  function Literals(input: seq<byte>, s: nat, n: nat): (r: seq<byte>)
    ensures |r| == n
  {
    seq<byte>(n, (i: nat) => At(input, s + i))
  }

  /** `n` single-byte copies, each from `offset` bytes back. */
  function CopyMatch(out: seq<byte>, offset: nat, n: nat): (r: seq<byte>)
    ensures |r| == |out| + n
    decreases n
  {
    if n == 0 then out else CopyMatch(out + [At(out, |out| - offset)], offset, n - 1)
  }

  /** Everything a block's sequences write, from cursor `s` on, after `out`; no limit on the output size. */
  function Decode(input: seq<byte>, s: nat, end: nat, out: seq<byte>): seq<byte>
    requires end <= |input|
    decreases end - s
  {
    if s >= end then out
    else
      var token := input[s];
      match Length(input, token / 16, s + 1)
      case None => out
      case Some((literals, s1)) =>
        var copied := out + Literals(input, s1, literals);
        var s2 := s1 + literals;
        var offset: nat := At(input, s2) as int + At(input, s2 + 1) as int * 256;
        if s2 >= end || offset == 0 then copied
        else
          match Length(input, token % 16, s2 + 2)
          case None => copied
          case Some((match_, s3)) => Decode(input, s3, end, CopyMatch(copied, offset, match_ + 4))
  }

  function Clip(out: seq<byte>, limit: nat): seq<byte>
  {
    out[..Min(|out|, limit)]
  }

  // ---- the block decoder, in place ----

  /** `out` holds the first bytes of `virt`, as far as it has room. */
  ghost predicate Holds(out: array<byte>, virt: seq<byte>)
    reads out
  {
    forall i :: 0 <= i < |virt| && i < out.Length ==> out[i] == virt[i]
  }

  method ReadLength(input: seq<byte>, nibble: nat, start: nat) returns (length: nat, s: nat, ranOff: bool)
    ensures match Length(input, nibble, start)
            case None => ranOff
            case Some((n, next)) => !ranOff && length == n && s == next
  {
    length, s, ranOff := nibble, start, false;
    if length < 15 { return; }
    length := 15;
    var more := true;
    while more
      invariant match Continuation(input, start)
                case None => more && Continuation(input, s).None?
                case Some((n, next)) =>
                  if more then Continuation(input, s).Some? && length + Continuation(input, s).value.0 == 15 + n
                    && Continuation(input, s).value.1 == next
                  else length == 15 + n && s == next
      decreases if more then 1 else 0, |input| - s
    {
      if s >= |input| { return length, s, true; }
      var extra := input[s];
      s := s + 1;
      length := length + extra;
      more := extra == 255;
    }
  }

  /**
   * The result depends on the input alone: no byte of the freshly allocated output is read before it is
   * written, whatever the input.
   */
  method Lz4DecodeBlock(input: seq<byte>, start: nat, end: nat, blockMaxSize: nat) returns (result: seq<byte>)
    requires end <= |input|
    ensures result == Clip(Decode(input, start, end, []), blockMaxSize)
  {
    var out := new byte[blockMaxSize];
    var s, d, done := start, 0, false;
    ghost var virt: seq<byte> := [];
    while s < end && !done
      invariant Holds(out, virt) && d == |virt|
      invariant Decode(input, start, end, []) == if done then virt else Decode(input, s, end, virt)
      decreases if done then 0 else 1, end - s
    {
      s, d, done, virt := DecodeSequence(input, s, end, out, d, virt);
    }
    result := out[..Min(d, out.Length)];
    assert result == Clip(virt, blockMaxSize);
  }

  /** One turn of the decoder's loop; `done` says that it left the loop. */
  method DecodeSequence(input: seq<byte>, from: nat, end: nat, out: array<byte>, at: nat, ghost virt: seq<byte>)
    returns (s: nat, d: nat, done: bool, ghost after: seq<byte>)
    requires from < end <= |input| && Holds(out, virt) && at == |virt|
    modifies out
    ensures Holds(out, after) && d == |after|
    ensures Decode(input, from, end, virt) == if done then after else Decode(input, s, end, after)
    ensures !done ==> s > from
  {
    hide Length, Literals, CopyMatch, Holds;
    s, d, after := from, at, virt;
    var token := input[s];
    s := s + 1;
    var literalLength, next, ranOff := ReadLength(input, token / 16, s);
    if ranOff { return s, d, true, after; }
    s := next;
    after := CopyLiterals(input, s, literalLength, out, d, virt);
    s, d := s + literalLength, d + literalLength;
    if s >= end { return s, d, true, after; }
    var offset: nat := At(input, s) as int + At(input, s + 1) as int * 256;
    s := s + 2;
    if offset == 0 { return s, d, true, after; }
    var matchLength;
    matchLength, next, ranOff := ReadLength(input, token % 16, s);
    if ranOff { return s, d, true, after; }
    s := next;
    after := CopyBack(out, d, offset, matchLength + 4, after);
    d := d + matchLength + 4;
    done := false;
  }

  method CopyLiterals(input: seq<byte>, s: nat, n: nat, out: array<byte>, d: nat, ghost virt: seq<byte>)
    returns (ghost after: seq<byte>)
    requires Holds(out, virt) && d == |virt|
    modifies out
    ensures after == virt + Literals(input, s, n) && Holds(out, after)
  {
    after := virt;
    for i := 0 to n
      invariant |after| == d + i && Holds(out, after)
      invariant after == virt + Literals(input, s, n)[..i]
    {
      Put(out, d + i, At(input, s + i), At(input, s + i), after);
      after := after + [At(input, s + i)];
    }
  }

  /** The match copy: every step reads index `m`, which is below the write index. */
  method CopyBack(out: array<byte>, d: nat, offset: nat, n: nat, ghost virt: seq<byte>) returns (ghost after: seq<byte>)
    requires Holds(out, virt) && d == |virt| && offset > 0
    modifies out
    ensures after == CopyMatch(virt, offset, n) && Holds(out, after)
  {
    after := virt;
    var m := d - offset;
    for i := 0 to n
      invariant |after| == d + i && Holds(out, after) && m == d + i - offset
      invariant CopyMatch(after, offset, n - i) == CopyMatch(virt, offset, n)
    {
      assert m < d + i;
      var v: byte := if 0 <= m < out.Length then out[m] else 0;
      ghost var exact := At(after, m);
      assert d + i < out.Length ==> v == exact;
      Put(out, d + i, v, exact, after);
      after := after + [exact];
      m := m + 1;
    }
  }

  /** `out[d] = v`, which is ignored past the end; `exact` is what an unlimited output would hold. */
  method Put(out: array<byte>, d: nat, v: byte, ghost exact: byte, ghost virt: seq<byte>)
    requires Holds(out, virt) && d == |virt| && (d < out.Length ==> v == exact)
    modifies out
    ensures Holds(out, virt + [exact])
  {
    if d < out.Length { out[d] := v; }
  }

  // ---- the frame walk ----

  datatype FrameError = BadMagic | UnsupportedVersion(version: nat)

  datatype FrameResult = Ok(bytes: seq<byte>) | Err(error: FrameError)

  function BlockMaxSize(bd: byte): nat
  {
    match bd as int / 16 % 8
    case 4 => 65536
    case 5 => 262144
    case 6 => 1048576
    case _ => 4194304
  }

  /** The position of the first block: magic, FLG, BD, optional content size and dictionary id, checksum. */
  function BlocksStart(flg: byte): nat
  {
    7 + (if flg as int / 8 % 2 == 1 then 8 else 0) + (if flg as int % 2 == 1 then 4 else 0)
  }

  function BlockChunk(input: seq<byte>, field: nat, start: nat, end: nat, maxSize: nat): seq<byte>
    requires start <= end <= |input|
  {
    if field >= 0x8000_0000 then input[start..end] else Clip(Decode(input, start, end, []), maxSize)
  }

  /** The output of the blocks from `pos` on, up to the end mark or the end of the input. */
  function Blocks(input: seq<byte>, pos: nat, checksum: bool, maxSize: nat): seq<byte>
    decreases |input| - pos
  {
    if pos + 4 > |input| then []
    else
      var field := GetU32(LE, input, pos);
      if field == 0 then []
      else
        var end := Min(pos + 4 + field % 0x8000_0000, |input|);
        BlockChunk(input, field, pos + 4, end, maxSize)
          + Blocks(input, if checksum then end + 4 else end, checksum, maxSize)
  }

  function Decompressed(input: seq<byte>): FrameResult
  {
    if |input| < 7 || GetU32(LE, input, 0) != LZ4_FRAME_MAGIC then Err(BadMagic)
    else
      var flg, bd := input[4], input[5];
      if flg as int / 64 != 1 then Err(UnsupportedVersion(flg as int / 64))
      else Ok(Blocks(input, BlocksStart(flg), flg as int / 16 % 2 == 1, BlockMaxSize(bd)))
  }

  method Lz4FrameDecompress(input: seq<byte>) returns (r: FrameResult)
    ensures r == Decompressed(input)
  {
    if |input| < 7 || GetU32(LE, input, 0) != LZ4_FRAME_MAGIC { return Err(BadMagic); }
    var pos := 4;
    var flg: int, bd := input[4], input[5];
    pos := pos + 2;
    if flg / 64 != 1 { return Err(UnsupportedVersion(flg / 64)); }
    var contentSizePresent, dictIdPresent, blockChecksum := flg / 8 % 2 == 1, flg % 2 == 1, flg / 16 % 2 == 1;
    var blockMaxSize := BlockMaxSize(bd);
    if contentSizePresent { pos := pos + 8; }
    if dictIdPresent { pos := pos + 4; }
    pos := pos + 1;
    var bytes := WalkBlocks(input, pos, blockChecksum, blockMaxSize);
    return Ok(bytes);
  }

  method ReadBlock(input: seq<byte>, stored: bool, start: nat, end: nat, blockMaxSize: nat, ghost field: nat)
    returns (chunk: seq<byte>)
    requires start <= end <= |input| && (stored <==> field >= 0x8000_0000)
    ensures chunk == BlockChunk(input, field, start, end, blockMaxSize)
  {
    if stored { chunk := input[start..end]; } else { chunk := Lz4DecodeBlock(input, start, end, blockMaxSize); }
  }

  method WalkBlocks(input: seq<byte>, start: nat, blockChecksum: bool, blockMaxSize: nat) returns (out: seq<byte>)
    ensures out == Blocks(input, start, blockChecksum, blockMaxSize)
  {
    hide BlockChunk, GetU32;
    out := [];
    var pos, ended := start, false;
    while pos + 4 <= |input| && !ended
      invariant Blocks(input, start, blockChecksum, blockMaxSize)
             == if ended then out else out + Blocks(input, pos, blockChecksum, blockMaxSize)
      decreases if ended then 0 else 1, |input| - pos
    {
      var blockSizeField := GetU32(LE, input, pos);
      pos := pos + 4;
      if blockSizeField == 0 {
        ended := true;
        AppendNil(out);
      } else {
        var blockSize := blockSizeField % 0x8000_0000;
        var blockEnd := Min(pos + blockSize, |input|);
        var chunk := ReadBlock(input, blockSizeField >= 0x8000_0000, pos, blockEnd, blockMaxSize, blockSizeField);
        pos := blockEnd;
        if blockChecksum { pos := pos + 4; }
        AppendAssociates(out, chunk, Blocks(input, pos, blockChecksum, blockMaxSize));
        out := out + chunk;
      }
    }
    AppendNil(out);
  }
}
