/** Decoding undoes the LZ4 block and frame formats, and overlapping matches repeat periodically. */
module Lz4Inverse {
  import opened Bytes
  import opened Lz4

  datatype SequenceFields = SequenceFields(literals: seq<byte>, offset: nat, matchLength: nat)

  /** Literals, then a match of at least four bytes starting `offset` bytes back, as the format can express it. */
  type Sequence = s: SequenceFields | 1 <= s.offset < 0x1_0000 && s.matchLength >= 4 witness SequenceFields([], 1, 4)

  function Continue(n: nat): (b: seq<byte>)
    ensures |b| >= 1
  {
    if n < 255 then [n] else [255] + Continue(n - 255)
  }

  function Nibble(n: nat): (k: nat)
    ensures k <= 15
  {
    if n < 15 then n else 15
  }

  function LengthBytes(n: nat): seq<byte>
  {
    if n < 15 then [] else Continue(n - 15)
  }

  function Token(literals: nat, match_: nat): byte
  {
    Nibble(literals) * 16 + Nibble(match_)
  }

  /** Every match starts inside the output, of which `n` bytes precede the list. */
  predicate Legal(ss: seq<Sequence>, n: nat)
  {
    ss == [] || (ss[0].offset <= n + |ss[0].literals| && Legal(ss[1..], n + |ss[0].literals| + ss[0].matchLength))
  }

  function PutSequence(s: Sequence): seq<byte>
  {
    [Token(|s.literals|, s.matchLength - 4)]
    + (LengthBytes(|s.literals|) + (s.literals + (PutU16(LE, s.offset) + LengthBytes(s.matchLength - 4))))
  }

  /** The last sequence of a block has literals only. */
  function PutLast(last: seq<byte>): seq<byte>
  {
    [Token(|last|, 0)] + (LengthBytes(|last|) + last)
  }

  function PutBlock(ss: seq<Sequence>, last: seq<byte>): seq<byte>
  {
    if ss == [] then PutLast(last) else PutSequence(ss[0]) + PutBlock(ss[1..], last)
  }

  /** What a sequence list means: each match copies byte by byte from the output so far. */
  function Expand(ss: seq<Sequence>, last: seq<byte>, out: seq<byte>): seq<byte>
  {
    if ss == [] then out + last
    else Expand(ss[1..], last, CopyMatch(out + ss[0].literals, ss[0].offset, ss[0].matchLength))
  }

  /** A copy from `k` bytes back repeats the last `k` bytes, over and over; bytes before the output read as zero. */
  lemma {:induction false} OverlapIsPeriodic(out: seq<byte>, k: nat, n: nat)
    requires 1 <= k
    ensures CopyMatch(out, k, n)[..|out|] == out
    ensures forall i :: 0 <= i < n ==> CopyMatch(out, k, n)[|out| + i] == (Zeros(k) + out)[|out| + i % k]
    decreases n
  {
    if n > 0 {
      var first: byte := (Zeros(k) + out)[|out|];
      var out' := out + [first];
      assert first == At(out, |out| - k);
      OverlapIsPeriodic(out', k, n - 1);
      var r := CopyMatch(out', k, n - 1);
      assert r[|out|] == out'[|out|];
      assert out == out'[..|out|];
      forall i | 0 <= i < n ensures r[|out| + i] == (Zeros(k) + out)[|out| + i % k] {
        if i == 0 {
          assert 0 % k == 0;
        } else {
          assert r[|out'| + (i - 1)] == (Zeros(k) + out')[|out'| + (i - 1) % k];
          Rotate(i, k);
          Around(out, first, k, (i - 1) % k);
        }
      }
    }
  }

  /** The byte just copied is the last of the next period. */
  lemma Around(out: seq<byte>, first: byte, k: nat, r: nat)
    requires r < k && first == (Zeros(k) + out)[|out|]
    ensures (Zeros(k) + (out + [first]))[|out| + 1 + r] == (Zeros(k) + out)[|out| + if r + 1 == k then 0 else r + 1]
  {
    assert Zeros(k) + (out + [first]) == Zeros(k) + out + [first];
  }

  lemma Rotate(i: nat, k: nat)
    requires i >= 1 && k >= 1
    ensures i % k == if (i - 1) % k + 1 == k then 0 else (i - 1) % k + 1
  {
    var q, r := (i - 1) / k, (i - 1) % k;
    assert i == q * k + (r + 1);
    if r + 1 == k {
      assert i == (q + 1) * k;
      QuotientUnique(i, k, q + 1, 0);
    } else {
      QuotientUnique(i, k, q, r + 1);
    }
  }

  // ---- reading the pieces ----

  lemma {:induction false} ContinuationReads(input: seq<byte>, s: nat, n: nat)
    requires Sits(input, s, Continue(n))
    ensures Continuation(input, s) == Some((n, s + |Continue(n)|))
    decreases n
  {
    SitsAt(input, s, Continue(n), 0);
    if n >= 255 {
      SitsSplit(input, s, [255], Continue(n - 255));
      ContinuationReads(input, s + 1, n - 255);
    }
  }

  lemma LengthReads(input: seq<byte>, s: nat, n: nat)
    requires Sits(input, s, LengthBytes(n))
    ensures Length(input, Nibble(n), s) == Some((n, s + |LengthBytes(n)|))
  {
    if n >= 15 { ContinuationReads(input, s, n - 15); }
  }

  lemma LiteralsRead(input: seq<byte>, s: nat, literals: seq<byte>)
    requires Sits(input, s, literals)
    ensures Literals(input, s, |literals|) == literals
  {
    forall i | 0 <= i < |literals| ensures Literals(input, s, |literals|)[i] == literals[i] {
      SitsAt(input, s, literals, i);
    }
  }

  lemma TokenNibbles(a: nat, b: nat)
    ensures Token(a, b) as int / 16 == Nibble(a) && Token(a, b) as int % 16 == Nibble(b)
  {
  }

  lemma OffsetReads(input: seq<byte>, s: nat, offset: nat)
    requires offset < TWO_16 && Sits(input, s, PutU16(LE, offset))
    ensures At(input, s) as int + At(input, s + 1) as int * 256 == offset
  {
    SitsAt(input, s, PutU16(LE, offset), 0);
    SitsAt(input, s, PutU16(LE, offset), 1);
  }

  /** Where the pieces of a serialised sequence are read. */
  lemma SequenceSits(input: seq<byte>, s: nat, q: Sequence)
    requires Sits(input, s, PutSequence(q))
    ensures var l, m := |q.literals|, q.matchLength - 4;
      var s1 := s + 1 + |LengthBytes(l)|; var s2 := s1 + l;
      && s2 + 2 + |LengthBytes(m)| == s + |PutSequence(q)| <= |input|
      && input[s] as int / 16 == Nibble(l) && input[s] as int % 16 == Nibble(m)
      && Length(input, Nibble(l), s + 1) == Some((l, s1)) && Literals(input, s1, l) == q.literals
      && At(input, s2) as int + At(input, s2 + 1) as int * 256 == q.offset
      && Length(input, Nibble(m), s2 + 2) == Some((m, s2 + 2 + |LengthBytes(m)|))
  {
    hide Length, Literals, Token, Nibble, LengthBytes, Sits, At, PutU16;
    var l, m := |q.literals|, q.matchLength - 4;
    var first, last := LengthBytes(l), LengthBytes(m);
    SitsPieces(input, s, Token(l, m), first, q.literals, PutU16(LE, q.offset), last);
    TokenNibbles(l, m);
    LengthReads(input, s + 1, l);
    LiteralsRead(input, s + 1 + |first|, q.literals);
    OffsetReads(input, s + 1 + |first| + l, q.offset);
    LengthReads(input, s + 1 + |first| + l + 2, m);
  }

  lemma SitsPieces(input: seq<byte>, s: nat, token: byte, a: seq<byte>, b: seq<byte>, c: seq<byte>, d: seq<byte>)
    requires Sits(input, s, [token] + (a + (b + (c + d))))
    ensures s + 1 + |a| + |b| + |c| + |d| <= |input| && input[s] == token
    ensures Sits(input, s + 1, a) && Sits(input, s + 1 + |a|, b)
    ensures Sits(input, s + 1 + |a| + |b|, c) && Sits(input, s + 1 + |a| + |b| + |c|, d)
  {
    hide Sits;
    SitsInside(input, s, [token] + (a + (b + (c + d))));
    SitsSplit(input, s, [token], a + (b + (c + d)));
    SitsAt(input, s, [token], 0);
    SitsSplit(input, s + 1, a, b + (c + d));
    SitsSplit(input, s + 1 + |a|, b, c + d);
    SitsSplit(input, s + 1 + |a| + |b|, c, d);
  }

  /** One serialised sequence decodes to its literals and its match. */
  lemma SequenceReads(input: seq<byte>, s: nat, end: nat, q: Sequence, out: seq<byte>)
    requires end <= |input|
    requires Sits(input, s, PutSequence(q)) && s + |PutSequence(q)| <= end
    ensures Decode(input, s, end, out)
         == Decode(input, s + |PutSequence(q)|, end, CopyMatch(out + q.literals, q.offset, q.matchLength))
  {
    hide Length, Literals, CopyMatch, Nibble, LengthBytes, Sits, At, PutSequence;
    SequenceSits(input, s, q);
  }

  lemma LastReads(input: seq<byte>, s: nat, last: seq<byte>, out: seq<byte>)
    requires Sits(input, s, PutLast(last))
    ensures Decode(input, s, s + |PutLast(last)|, out) == out + last
  {
    hide Length, Literals, CopyMatch, Token, Nibble, LengthBytes, Sits, At;
    var l := |last|;
    SitsSplit(input, s, [Token(l, 0)], LengthBytes(l) + last);
    SitsAt(input, s, [Token(l, 0)], 0);
    TokenNibbles(l, 0);
    SitsSplit(input, s + 1, LengthBytes(l), last);
    LengthReads(input, s + 1, l);
    LiteralsRead(input, s + 1 + |LengthBytes(l)|, last);
  }

  /** Decoding a serialised block, wherever it sits in the input, yields the expansion of its sequences. */
  lemma {:induction false} BlockInverse(input: seq<byte>, s: nat, end: nat, ss: seq<Sequence>, last: seq<byte>,
                                        out: seq<byte>)
    requires Sits(input, s, PutBlock(ss, last)) && s + |PutBlock(ss, last)| == end <= |input|
    ensures Decode(input, s, end, out) == Expand(ss, last, out)
    decreases |ss|
  {
    hide Sits, Decode, CopyMatch, PutSequence, PutLast;
    if ss == [] {
      LastReads(input, s, last, out);
    } else {
      var q, rest := ss[0], PutBlock(ss[1..], last);
      SitsSplit(input, s, PutSequence(q), rest);
      SequenceReads(input, s, end, q, out);
      BlockInverse(input, s + |PutSequence(q)|, end, ss[1..], last,
                   CopyMatch(out + q.literals, q.offset, q.matchLength));
    }
  }

  /** In a legal list no match reads before the output: every copied byte is one already written. */
  lemma {:induction false} LegalCopiesWritten(ss: seq<Sequence>, last: seq<byte>, out: seq<byte>)
    requires Legal(ss, |out|)
    ensures out <= Expand(ss, last, out)
    ensures ss != [] ==>
      var before := out + ss[0].literals;
      forall i :: 0 <= i < ss[0].matchLength ==>
        |before| + i < |Expand(ss, last, out)|
        && Expand(ss, last, out)[|before| + i] == before[|before| - ss[0].offset + i % ss[0].offset]
    decreases |ss|
  {
    if ss != [] {
      var q, before := ss[0], out + ss[0].literals;
      var after := CopyMatch(before, q.offset, q.matchLength);
      OverlapIsPeriodic(before, q.offset, q.matchLength);
      LegalCopiesWritten(ss[1..], last, after);
      assert after[..|out|] == out;
    }
  }

  // ---- frames ----

  datatype FrameBlock = Stored(data: seq<byte>) | Compressed(sequences: seq<Sequence>, last: seq<byte>)
  {
    function Payload(): seq<byte>
    {
      if Stored? then data else PutBlock(sequences, last)
    }

    function Content(): seq<byte>
    {
      if Stored? then data else Expand(sequences, last, [])
    }

    /** A compressed block yields no more than the frame's block size, a stored one all it holds. */
    function Yield(maxSize: nat): seq<byte>
    {
      if Stored? then data else Content()[..Min(|Content()|, maxSize)]
    }

    /** The payload length fits its 31-bit field. */
    predicate Fits()
    {
      |Payload()| < 0x8000_0000
    }

    function SizeField(): nat
      requires |Payload()| < 0x8000_0000
    {
      |Payload()| + if Stored? then 0x8000_0000 else 0
    }
  }

  datatype Checked = Checked(block: FrameBlock, checksum: seq<byte>)

  function PutChecked(c: Checked): seq<byte>
    requires |c.block.Payload()| < 0x8000_0000
  {
    PutU32(LE, c.block.SizeField()) + (c.block.Payload() + c.checksum)
  }

  predicate AllFit(cs: seq<Checked>, checksum: bool)
  {
    forall k :: 0 <= k < |cs| ==> cs[k].block.Fits() && |cs[k].checksum| == if checksum then 4 else 0
  }

  /**
   * The end mark and whatever follows it (the optional content checksum), or too little of a frame that stops short.
   */
  predicate Ending(tail: seq<byte>) { |tail| < 4 || tail[..4] == [0, 0, 0, 0] }

  /** The blocks, then the ending. */
  function PutBlocks(cs: seq<Checked>, checksum: bool, tail: seq<byte>): seq<byte>
    requires AllFit(cs, checksum)
  {
    if cs == [] then tail else PutChecked(cs[0]) + PutBlocks(cs[1..], checksum, tail)
  }

  /** What the blocks yield; their contents, when none is over the block size. */
  function Contents(cs: seq<Checked>, maxSize: nat): seq<byte>
  {
    if cs == [] then [] else cs[0].block.Yield(maxSize) + Contents(cs[1..], maxSize)
  }

  lemma SitsU32(input: seq<byte>, p: nat, v: nat)
    requires v < TWO_32 && Sits(input, p, PutU32(LE, v))
    ensures GetU32(LE, input, p) == v
  {
    var b := PutU32(LE, v);
    SitsAt(input, p, b, 0);
    SitsAt(input, p, b, 1);
    SitsAt(input, p, b, 2);
    SitsAt(input, p, b, 3);
  }

  lemma PayloadNotEmpty(b: FrameBlock)
    requires |b.Payload()| < 0x8000_0000
    ensures b.SizeField() != 0
  {
  }

  lemma ChunkReads(input: seq<byte>, p: nat, b: FrameBlock, maxSize: nat)
    requires b.Fits() && Sits(input, p, b.Payload())
    ensures p + |b.Payload()| <= |input|
    ensures BlockChunk(input, b.SizeField(), p, p + |b.Payload()|, maxSize) == b.Yield(maxSize)
  {
    hide Decode, Expand, PutBlock, Sits;
    assert p + |b.Payload()| <= |input| by { SitsInside(input, p, b.Payload()); }
    if b.Compressed? {
      BlockInverse(input, p, p + |b.Payload()|, b.sequences, b.last, []);
    } else {
      SitsInside(input, p, b.data);
    }
  }

  lemma {:induction false} BlocksRead(input: seq<byte>, p: nat, cs: seq<Checked>, checksum: bool, maxSize: nat,
                                      tail: seq<byte>)
    requires AllFit(cs, checksum) && Ending(tail) && Sits(input, p, PutBlocks(cs, checksum, tail))
    requires p + |PutBlocks(cs, checksum, tail)| == |input|
    ensures Blocks(input, p, checksum, maxSize) == Contents(cs, maxSize)
    decreases |cs|
  {
    hide Sits, PutU32, Blocks, PutChecked, FrameBlock.Yield, Ending;
    if cs == [] {
      EndingReads(input, p, checksum, maxSize, tail);
    } else {
      var rest := PutBlocks(cs[1..], checksum, tail);
      SitsSplit(input, p, PutChecked(cs[0]), rest);
      CheckedReads(input, p, cs[0], checksum, maxSize);
      BlocksRead(input, p + |PutChecked(cs[0])|, cs[1..], checksum, maxSize, tail);
    }
  }

  lemma EndingReads(input: seq<byte>, p: nat, checksum: bool, maxSize: nat, tail: seq<byte>)
    requires Sits(input, p, tail) && Ending(tail) && p + |tail| == |input|
    ensures Blocks(input, p, checksum, maxSize) == []
  {
    if |tail| >= 4 {
      var b0, b1, b2, b3 := tail[..4][0], tail[..4][1], tail[..4][2], tail[..4][3];
      SitsAt(input, p, tail, 0);
      SitsAt(input, p, tail, 1);
      SitsAt(input, p, tail, 2);
      SitsAt(input, p, tail, 3);
    }
  }

  /** One block of a frame. */
  lemma CheckedReads(input: seq<byte>, p: nat, c: Checked, checksum: bool, maxSize: nat)
    requires c.block.Fits() && |c.checksum| == (if checksum then 4 else 0) && Sits(input, p, PutChecked(c))
    ensures Blocks(input, p, checksum, maxSize)
      == c.block.Yield(maxSize) + Blocks(input, p + |PutChecked(c)|, checksum, maxSize)
  {
    hide Sits, BlockChunk, GetU32, PutU32, FrameBlock.Yield, FrameBlock.Payload;
    var b, n := c.block, |c.block.Payload()|;
    SitsInside(input, p, PutChecked(c));
    SitsSplit(input, p, PutU32(LE, b.SizeField()), b.Payload() + c.checksum);
    SitsU32(input, p, b.SizeField());
    SitsSplit(input, p + 4, b.Payload(), c.checksum);
    PayloadNotEmpty(b);
    ChunkReads(input, p + 4, b, maxSize);
    SizeFieldLow(n);
  }

  lemma SizeFieldLow(n: nat)
    requires n < 0x8000_0000
    ensures n % 0x8000_0000 == n && (n + 0x8000_0000) % 0x8000_0000 == n
  {
  }

  /** What a frame's descriptor may say; `spare` holds the octets' reserved bits. */
  datatype Descriptor = Descriptor(
    independent: bool, blockChecksums: bool, contentSize: Option<seq<byte>>, contentChecksum: bool,
    dictionary: Option<seq<byte>>, sizeCode: nat, spare: (bool, bool, nat), headerChecksum: byte)
  {
    predicate Valid()
    {
      && (contentSize.Some? ==> |contentSize.value| == 8) && (dictionary.Some? ==> |dictionary.value| == 4)
      && sizeCode <= 7 && spare.2 <= 15
    }
  }

  function Worth(on: bool, value: nat): nat { if on then value else 0 }

  function FlgOctet(d: Descriptor): byte
  {
    64 + Worth(d.independent, 32) + Worth(d.blockChecksums, 16) + Worth(d.contentSize.Some?, 8)
      + Worth(d.contentChecksum, 4) + Worth(d.spare.0, 2) + Worth(d.dictionary.Some?, 1)
  }

  function BdOctet(d: Descriptor): byte
    requires d.Valid()
  {
    Worth(d.spare.1, 128) + d.sizeCode * 16 + d.spare.2
  }

  function TwoTo(n: nat): (p: nat)
    ensures p > 0
  {
    if n == 0 then 1 else 2 * TwoTo(n - 1)
  }

  /** The block size of a code of the format; the codes it leaves undefined are taken for its largest. */
  function BlockLimit(sizeCode: nat): nat
  {
    TwoTo(8 + 2 * if sizeCode < 4 then 7 else sizeCode)
  }

  function Optional(field: Option<seq<byte>>): seq<byte> { if field.Some? then field.value else [] }

  /** Magic, FLG, BD, content size and dictionary id where present, the header checksum, then the blocks. */
  function PutFrame(d: Descriptor, cs: seq<Checked>, tail: seq<byte>): seq<byte>
    requires d.Valid() && AllFit(cs, d.blockChecksums)
  {
    [0x04, 0x22, 0x4d, 0x18]
      + ([FlgOctet(d), BdOctet(d)]
         + ((Optional(d.contentSize) + Optional(d.dictionary) + [d.headerChecksum])
            + PutBlocks(cs, d.blockChecksums, tail)))
  }

  lemma FlagsRead(d: Descriptor)
    requires d.Valid()
    ensures var flg, bd := FlgOctet(d) as int, BdOctet(d) as int;
      && flg / 64 == 1 && (flg / 16 % 2 == 1 <==> d.blockChecksums) && (flg / 8 % 2 == 1 <==> d.contentSize.Some?)
      && (flg % 2 == 1 <==> d.dictionary.Some?) && bd / 16 % 8 == d.sizeCode
  {
    var flg, bd := FlgOctet(d) as int, BdOctet(d) as int;
    assert flg / 8 == 8 + Worth(d.independent, 4) + Worth(d.blockChecksums, 2) + Worth(d.contentSize.Some?, 1);
    assert flg / 16 == 4 + Worth(d.independent, 2) + Worth(d.blockChecksums, 1);
    assert bd / 16 == Worth(d.spare.1, 8) + d.sizeCode;
  }

  lemma LimitRead(bd: byte)
    ensures BlockMaxSize(bd) == BlockLimit(bd as int / 16 % 8)
  {
    assert TwoTo(4) == 16 && TwoTo(8) == 16 * TwoTo(4) && TwoTo(12) == 16 * TwoTo(8) && TwoTo(16) == 16 * TwoTo(12);
    assert TwoTo(18) == 4 * TwoTo(16) && TwoTo(20) == 4 * TwoTo(18) && TwoTo(22) == 4 * TwoTo(20);
  }

  /**
   * A frame of independent blocks decompresses to the concatenation of their contents, whatever its descriptor, and
   * with or without an end mark; a compressed block over the descriptor's block size is cut to it.
   */
  lemma FrameInverse(d: Descriptor, cs: seq<Checked>, tail: seq<byte>)
    requires d.Valid() && AllFit(cs, d.blockChecksums) && Ending(tail)
    ensures Decompressed(PutFrame(d, cs, tail)) == Ok(Contents(cs, BlockLimit(d.sizeCode)))
  {
    hide TwoTo, Blocks, FlgOctet, BdOctet, PutBlocks, BlockMaxSize, Contents, AllFit, Ending;
    var input, flg, bd := PutFrame(d, cs, tail), FlgOctet(d), BdOctet(d);
    var fields := Optional(d.contentSize) + Optional(d.dictionary) + [d.headerChecksum];
    var blocks := PutBlocks(cs, d.blockChecksums, tail);
    FlagsRead(d);
    LimitRead(bd);
    assert Sits(input, 0, input);
    SitsSplit(input, 0, [0x04, 0x22, 0x4d, 0x18], [flg, bd] + (fields + blocks));
    MagicReads(input);
    SitsSplit(input, 4, [flg, bd], fields + blocks);
    SitsAt(input, 4, [flg, bd], 0);
    SitsAt(input, 4, [flg, bd], 1);
    SitsSplit(input, 6, fields, blocks);
    BlocksRead(input, 6 + |fields|, cs, d.blockChecksums, BlockLimit(d.sizeCode), tail);
  }

  lemma MagicReads(input: seq<byte>)
    requires Sits(input, 0, [0x04, 0x22, 0x4d, 0x18])
    ensures GetU32(LE, input, 0) == LZ4_FRAME_MAGIC
  {
    var magic: seq<byte> := [0x04, 0x22, 0x4d, 0x18];
    SitsAt(input, 0, magic, 0);
    SitsAt(input, 0, magic, 1);
    SitsAt(input, 0, magic, 2);
    SitsAt(input, 0, magic, 3);
  }

  /** An input is refused exactly when it is too short, does not start with the magic, or has another version. */
  lemma RefusedIff(input: seq<byte>)
    ensures Decompressed(input) == Err(BadMagic) <==> |input| < 7 || input[..4] != [0x04, 0x22, 0x4d, 0x18]
    ensures |input| >= 7 && input[..4] == [0x04, 0x22, 0x4d, 0x18] ==>
      (Decompressed(input).Ok? <==> 64 <= input[4] < 128)
      && (Decompressed(input).Err? ==> Decompressed(input) == Err(UnsupportedVersion(input[4] as int / 64)))
  {
    hide Blocks;
    if |input| >= 7 {
      var b0: int, b1: int, b2: int, b3: int := input[0], input[1], input[2], input[3];
      assert input[..4] == [input[0], input[1], input[2], input[3]];
      assert GetU32(LE, input, 0) == b0 + b1 * 0x100 + b2 * 0x1_0000 + b3 * 0x100_0000;
    }
  }

  /** A match from zero bytes back ends the block behind its literals. */
  lemma ZeroOffsetEnds(input: seq<byte>, s: nat, end: nat, literals: seq<byte>, matchNibble: nat, out: seq<byte>)
    requires matchNibble <= 15 && end <= |input|
    requires var piece := [Nibble(|literals|) * 16 + matchNibble] + (LengthBytes(|literals|) + (literals + [0, 0]));
      Sits(input, s, piece) && s + |piece| <= end
    ensures Decode(input, s, end, out) == out + literals
  {
    hide Length, Literals, CopyMatch, Nibble, LengthBytes, Sits, At;
    var l, token := |literals|, Nibble(|literals|) * 16 + matchNibble;
    AppendNil<byte>([0, 0]);
    SitsPieces(input, s, token, LengthBytes(l), literals, [0, 0], []);
    LengthReads(input, s + 1, l);
    LiteralsRead(input, s + 1 + |LengthBytes(l)|, literals);
    ZerosRead(input, s + 1 + |LengthBytes(l)| + l);
    assert token / 16 == Nibble(l);
  }

  lemma ZerosRead(input: seq<byte>, s: nat)
    requires Sits(input, s, [0, 0])
    ensures At(input, s) as int + At(input, s + 1) as int * 256 == 0
  {
    SitsAt(input, s, [0, 0], 0);
    SitsAt(input, s, [0, 0], 1);
  }
}
