/** The DNS message: header flags, four sections sharing a cursor, and the exact condition for byte identity. */
module Dns {
  import opened Bytes
  import opened BitFields
  import opened CraftedNames
  import opened DnsNames
  import opened HeaderFields
  import opened PacketBuffer

  datatype Flags = Flags(qr: bool, opcode: int, aa: bool, tc: bool, rd: bool, ra: bool, z: bool, ad: bool, cd: bool,
                         rcode: int)

  datatype Head = Head(id: int, flags: Flags, qdcount: int, ancount: int, nscount: int, arcount: int)

  /** A question, or a resource record of one of the other three sections. */
  datatype Entry =
    | Question(name: Name, qtype: int, qclass: int)
    | Record(name: Name, kind: int, recordClass: int, ttl: int, rdlength: int, rdata: seq<byte>)

  /** The entries of a section and the cursor after them. */
  datatype Section = Section(entries: seq<Entry>, next: nat)

  datatype Message = Message(head: Head, questions: seq<Entry>, answers: seq<Entry>, authorities: seq<Entry>,
                             additionals: seq<Entry>)

  // ---- what the octets say ----

  /** A big-endian integer of `n` octets; missing octets are dropped, not zero-filled. */
  function Num(p: seq<byte>, o: nat, n: nat): nat
  {
    ToNat(Clamped(p, o, n))
  }

  function Bit2(x: byte, d: nat): bool
    requires d >= 1
  {
    x / d % 2 == 1
  }

  function FlagsOf(x: byte, y: byte): Flags
  {
    Flags(Bit2(x, 128), x / 8 % 16, Bit2(x, 4), Bit2(x, 2), Bit2(x, 1),
          Bit2(y, 128), Bit2(y, 64), Bit2(y, 32), Bit2(y, 16), y % 16)
  }

  function HeadOf(p: seq<byte>): Head
  {
    Head(Num(p, 0, 2), FlagsOf(Octet(p, 2), Octet(p, 3)), Num(p, 4, 2), Num(p, 6, 2), Num(p, 8, 2), Num(p, 10, 2))
  }

  function ReadQuestion(p: seq<byte>, o: nat): (Entry, nat)
  {
    var n := NameAt(p, o).next;
    (Question(ReadName(p, o), Num(p, n, 2), Num(p, n + 2, 2)), n + 4)
  }

  function ReadRecord(p: seq<byte>, o: nat): (Entry, nat)
  {
    var n := NameAt(p, o).next;
    var rdlength := Num(p, n + 8, 2);
    var rdata := if rdlength != 0 then Clamped(p, n + 10, rdlength) else [];
    (Record(ReadName(p, o), Num(p, n, 2), Num(p, n + 2, 2), Num(p, n + 4, 4), rdlength, rdata), n + 10 + rdlength)
  }

  function ReadEntry(p: seq<byte>, question: bool, o: nat): (Entry, nat)
  {
    if question then ReadQuestion(p, o) else ReadRecord(p, o)
  }

  /** Up to `count` entries from `o`, as long as an entry can start inside the message. */
  function Entries(p: seq<byte>, question: bool, count: nat, o: nat): Section
    decreases count
  {
    if count == 0 || o >= |p| then Section([], o)
    else
      var (entry, next) := ReadEntry(p, question, o);
      Joined([entry], Entries(p, question, count - 1, next))
  }

  function Joined(entries: seq<Entry>, rest: Section): Section
  {
    Section(entries + rest.entries, rest.next)
  }

  function Questions(p: seq<byte>): Section { Entries(p, true, Num(p, 4, 2), 12) }

  function Answers(p: seq<byte>): Section { Entries(p, false, Num(p, 6, 2), Questions(p).next) }

  function Authorities(p: seq<byte>): Section { Entries(p, false, Num(p, 8, 2), Answers(p).next) }

  function Additionals(p: seq<byte>): Section { Entries(p, false, Num(p, 10, 2), Authorities(p).next) }

  /** Where the last section ends, be it past the captured octets. */
  function Cursor(p: seq<byte>): nat { Additionals(p).next }

  function Decoded(p: seq<byte>): Message
  {
    Message(HeadOf(p), Questions(p).entries, Answers(p).entries, Authorities(p).entries, Additionals(p).entries)
  }

  // ---- what is written ----

  function FirstFlags(f: Flags): byte
  {
    Flag(f.qr) * 128 + f.opcode % 16 * 8 + Flag(f.aa) * 4 + Flag(f.tc) * 2 + Flag(f.rd)
  }

  function SecondFlags(f: Flags): byte
  {
    Flag(f.ra) * 128 + Flag(f.z) * 64 + Flag(f.ad) * 32 + Flag(f.cd) * 16 + f.rcode % 16
  }

  function Field16(v: int): (r: seq<byte>)
    ensures |r| == 2
  {
    FromNat(Clamp(v, 65535), 2)
  }

  function HeadBytes(h: Head): (r: seq<byte>)
    ensures |r| == 12
  {
    Field16(h.id) + [FirstFlags(h.flags)] + [SecondFlags(h.flags)]
      + Field16(h.qdcount) + Field16(h.ancount) + Field16(h.nscount) + Field16(h.arcount)
  }

  /** The fixed octets that follow an entry's name; RDLENGTH is derived from the data. */
  function FixedBytes(e: Entry): (r: seq<byte>)
    ensures |r| == if e.Question? then 4 else 10
  {
    match e
    case Question(_, qtype, qclass) => FromNat(qtype % 0x1_0000, 2) + FromNat(qclass % 0x1_0000, 2)
    case Record(_, kind, recordClass, ttl, _, rdata) =>
      FromNat(kind % 0x1_0000, 2) + FromNat(recordClass % 0x1_0000, 2) + FromNat(ttl % 0x1_0000_0000, 4)
        + FromNat(|rdata| % 0x1_0000, 2)
  }

  function DataBytes(e: Entry): seq<byte> { if e.Question? then [] else e.rdata }

  function EntryBytes(e: Entry): seq<byte>
  {
    NameBytes(e.name) + FixedBytes(e) + DataBytes(e)
  }

  function EntriesBytes(entries: seq<Entry>): seq<byte>
  {
    if entries == [] then [] else EntryBytes(entries[0]) + EntriesBytes(entries[1..])
  }

  function Encoded(m: Message): seq<byte>
  {
    HeadBytes(m.head) + EntriesBytes(m.questions) + EntriesBytes(m.answers) + EntriesBytes(m.authorities)
      + EntriesBytes(m.additionals)
  }

  // ---- identity ----

  lemma NumFits(p: seq<byte>, o: nat, n: nat)
    ensures Num(p, o, n) < Pow2(8 * n)
  {
    hide Pow2, ToNat;
    ToNatBound(Clamped(p, o, n));
    Pow2Monotone(8 * |Clamped(p, o, n)|, 8 * n);
  }

  /** An integer wholly inside the message is written back as its octets. */
  lemma NumSpelled(p: seq<byte>, o: nat, n: nat)
    requires o + n <= |p|
    ensures FromNat(Num(p, o, n), n) == p[o..o + n]
  {
    hide ToNat, FromNat;
    assert Clamped(p, o, n) == p[o..o + n];
    ToNatInverse(Clamped(p, o, n));
  }

  lemma Widths()
    ensures Pow2(16) == 0x1_0000 && Pow2(32) == 0x1_0000_0000
  {
    SmallPowers();
    hide Pow2;
    Pow2Eight(1);
    Pow2Of32();
  }

  lemma Fits16(p: seq<byte>, o: nat)
    ensures Num(p, o, 2) < 0x1_0000 && Num(p, o, 2) % 0x1_0000 == Num(p, o, 2)
  {
    hide Pow2, Num;
    Widths();
    NumFits(p, o, 2);
    assert 8 * 2 == 16;
  }

  lemma Fits32(p: seq<byte>, o: nat)
    ensures Num(p, o, 4) < 0x1_0000_0000 && Num(p, o, 4) % 0x1_0000_0000 == Num(p, o, 4)
  {
    hide Pow2, Num;
    Widths();
    NumFits(p, o, 4);
    assert 8 * 4 == 32;
  }

  lemma FirstFlagsMade(x: byte, y: byte)
    ensures FirstFlags(FlagsOf(x, y)) == x
  {
    FirstMade(x);
  }

  lemma SecondFlagsMade(x: byte, y: byte)
    ensures SecondFlags(FlagsOf(x, y)) == y
  {
    SecondMade(y);
  }

  lemma FirstMade(x: byte)
    ensures Flag(Bit2(x, 128)) * 128 + x / 8 % 16 % 16 * 8 + Flag(Bit2(x, 4)) * 4 + Flag(Bit2(x, 2)) * 2
      + Flag(Bit2(x, 1)) == x
  {
    hide Flag, Bit2;
    FlagIs(x, 128);
    FlagIs(x, 4);
    FlagIs(x, 2);
    FlagIs(x, 1);
    LowThree(x);
    HighFive(x);
  }

  lemma HighFive(x: byte)
    ensures x / 8 == x / 128 % 2 * 16 + x / 8 % 16
  {
    assert x / 128 == x / 8 / 16;
  }

  lemma LowThree(x: nat)
    ensures x == x / 8 * 8 + x / 4 % 2 * 4 + x / 2 % 2 * 2 + x / 1 % 2
  {
    assert x / 4 == x / 2 / 2;
    assert x / 8 == x / 4 / 2;
  }

  lemma FlagIs(x: byte, d: nat)
    requires d >= 1
    ensures Flag(Bit2(x, d)) == x / d % 2
  {
  }

  lemma SecondMade(x: byte)
    ensures Flag(Bit2(x, 128)) * 128 + Flag(Bit2(x, 64)) * 64 + Flag(Bit2(x, 32)) * 32 + Flag(Bit2(x, 16)) * 16
      + x % 16 % 16 == x
  {
  }

  lemma HeadReproduced(p: seq<byte>)
    requires |p| >= 12
    ensures HeadBytes(HeadOf(p)) == p[..12]
  {
    hide Num, FromNat, FirstFlags, SecondFlags, FlagsOf, Clamp;
    Fits16(p, 0);
    Fits16(p, 4);
    Fits16(p, 6);
    Fits16(p, 8);
    Fits16(p, 10);
    NumSpelled(p, 0, 2);
    NumSpelled(p, 4, 2);
    NumSpelled(p, 6, 2);
    NumSpelled(p, 8, 2);
    NumSpelled(p, 10, 2);
    FirstFlagsMade(p[2], p[3]);
    SecondFlagsMade(p[2], p[3]);
    assert p[..12] == p[0..2] + [p[2]] + [p[3]] + p[4..6] + p[6..8] + p[8..10] + p[10..12];
  }

  /** The name's own octets, as far as they were captured. */
  lemma RawName(p: seq<byte>, o: nat)
    requires o < |p|
    ensures NameAt(p, o).next > o
    ensures ReadName(p, o).raw == p[o..Min(NameAt(p, o).next, |p|)] && NameBytes(ReadName(p, o)) == ReadName(p, o).raw
  {
    hide Follow;
    FollowEnds(p, o, {}, GUARD, None);
  }

  lemma QuestionSpelled(p: seq<byte>, o: nat)
    requires o < |p|
    ensures var (e, next) := ReadQuestion(p, o);
      next > o && if next <= |p| then EntryBytes(e) == p[o..next] else |EntryBytes(e)| > |p| - o
  {
    hide NameAt, Num, FromNat, ReadName, NameBytes;
    RawName(p, o);
    var n := NameAt(p, o).next;
    if n + 4 <= |p| {
      Fits16(p, n);
      Fits16(p, n + 2);
      NumSpelled(p, n, 2);
      NumSpelled(p, n + 2, 2);
      assert p[o..n + 4] == p[o..n] + (p[n..n + 2] + p[n + 2..n + 4]) + [];
    }
  }

  lemma RecordFixed(p: seq<byte>, o: nat)
    requires o < |p| && NameAt(p, o).next + 10 <= |p|
    ensures var n, e := NameAt(p, o).next, ReadRecord(p, o).0;
      FixedBytes(e.(rdata := Zeros(e.rdlength))) == p[n..n + 10] && e.rdlength < 0x1_0000
  {
    hide NameAt, Num, FromNat, ReadName;
    var n := NameAt(p, o).next;
    Fits16(p, n);
    Fits16(p, n + 2);
    Fits32(p, n + 4);
    Fits16(p, n + 8);
    NumSpelled(p, n, 2);
    NumSpelled(p, n + 2, 2);
    NumSpelled(p, n + 4, 4);
    NumSpelled(p, n + 8, 2);
    assert p[n..n + 10] == p[n..n + 2] + p[n + 2..n + 4] + p[n + 4..n + 8] + p[n + 8..n + 10];
  }

  /** Only the data's length shows in an entry's fixed octets. */
  lemma FixedByLength(e: Entry, data: seq<byte>)
    requires e.Record? && |data| == |e.rdata|
    ensures FixedBytes(e.(rdata := data)) == FixedBytes(e)
  {
  }

  lemma RecordWhole(p: seq<byte>, o: nat)
    requires o < |p| && o <= ReadRecord(p, o).1 <= |p|
    ensures EntryBytes(ReadRecord(p, o).0) == p[o..ReadRecord(p, o).1]
  {
    hide NameAt, Num, FixedBytes, ReadName, NameBytes;
    RawName(p, o);
    RecordFixed(p, o);
    var n, e := NameAt(p, o).next, ReadRecord(p, o).0;
    FixedByLength(e, Zeros(e.rdlength));
    var end := n + 10 + e.rdlength;
    assert p[o..end] == p[o..n] + p[n..n + 10] + p[n + 10..end];
  }

  /** A record running past the message cannot be written back as a prefix of what is left of it. */
  lemma RecordCut(p: seq<byte>, o: nat)
    requires o < |p| && ReadRecord(p, o).1 > |p|
    ensures !(EntryBytes(ReadRecord(p, o).0) <= p[o..])
  {
    hide NameAt, Num, FixedBytes, ReadName, NameBytes, Pow2, FromNat;
    RawName(p, o);
    var n, e := NameAt(p, o).next, ReadRecord(p, o).0;
    var w := EntryBytes(e);
    if n + 10 <= |p| && w <= p[o..] {
      RecordFixed(p, o);
      var raw := NameBytes(e.name);
      assert w[|raw|..|raw| + 10] == FixedBytes(e);
      SliceOfSlice(p, o, |p|, |raw|, |raw| + 10);
      assert p[o..] == p[o..|p|] && w[|raw|..|raw| + 10] == p[o..][|raw|..|raw| + 10];
      LengthShows(e, e.(rdata := Zeros(e.rdlength)));
    }
  }

  lemma LengthShows(a: Entry, b: Entry)
    requires a.Record? && b.Record? && |a.rdata| < 0x1_0000 && |b.rdata| < 0x1_0000 && FixedBytes(a) == FixedBytes(b)
    ensures |a.rdata| == |b.rdata|
  {
    hide FromNat, ToNat, Pow2;
    assert FixedBytes(a)[8..10] == FromNat(|a.rdata|, 2) && FixedBytes(b)[8..10] == FromNat(|b.rdata|, 2);
    Widths();
    assert 8 * 2 == 16;
    FromNatInverse(|a.rdata|, 2);
    FromNatInverse(|b.rdata|, 2);
  }

  lemma EntryFaithful(p: seq<byte>, question: bool, o: nat)
    requires o < |p|
    ensures var (e, next) := ReadEntry(p, question, o);
      next > o && if next <= |p| then EntryBytes(e) == p[o..next] else !(EntryBytes(e) <= p[o..])
  {
    hide NameAt, EntryBytes, Num;
    if question {
      QuestionSpelled(p, o);
    } else {
      RawName(p, o);
      if ReadRecord(p, o).1 <= |p| { RecordWhole(p, o); } else { RecordCut(p, o); }
    }
  }

  /** What has been written for the message up to `o`: those octets while they exist, and no prefix of it afterwards. */
  predicate Faithful(p: seq<byte>, o: nat, written: seq<byte>)
  {
    if o <= |p| then written == p[..o] else !(written <= p)
  }

  lemma FaithfulStep(p: seq<byte>, o: nat, next: nat, written: seq<byte>, more: seq<byte>)
    requires o < |p| && o <= next && Faithful(p, o, written)
    requires if next <= |p| then more == p[o..next] else !(more <= p[o..])
    ensures Faithful(p, next, written + more)
  {
    if next <= |p| {
      assert p[..next] == p[..o] + p[o..next];
    } else {
      PrefixTail(p, written, more);
    }
  }

  lemma PrefixTail(p: seq<byte>, a: seq<byte>, b: seq<byte>)
    requires |a| <= |p|
    ensures a + b <= p ==> b <= p[|a|..]
  {
    if a + b <= p {
      assert b == (a + b)[|a|..] == p[..|a| + |b|][|a|..];
      assert p[..|a| + |b|][|a|..] == p[|a|..][..|b|];
    }
  }

  lemma {:induction false} SectionFaithful(p: seq<byte>, question: bool, count: nat, o: nat, written: seq<byte>)
    requires Faithful(p, o, written)
    ensures Faithful(p, Entries(p, question, count, o).next,
                     written + EntriesBytes(Entries(p, question, count, o).entries))
    decreases count
  {
    hide Faithful, ReadEntry, EntryBytes, Num;
    if count == 0 || o >= |p| {
      AppendNil(written);
    } else {
      var (e, next) := ReadEntry(p, question, o);
      var rest := Entries(p, question, count - 1, next);
      EntryFaithful(p, question, o);
      FaithfulStep(p, o, next, written, EntryBytes(e));
      SectionFaithful(p, question, count - 1, next, written + EntryBytes(e));
      assert ([e] + rest.entries)[1..] == rest.entries;
      AppendAssociates(written, EntryBytes(e), EntriesBytes(rest.entries));
    }
  }

  lemma HeadFaithful(p: seq<byte>)
    ensures Faithful(p, 12, HeadBytes(HeadOf(p)))
  {
    if |p| >= 12 { HeadReproduced(p); }
  }

  /** Encoding what was decoded gives the consumed octets back exactly when the sections end inside the message. */
  lemma DecodeEncodeIff(p: seq<byte>)
    ensures Encoded(Decoded(p)) == p[..Min(Cursor(p), |p|)] <==> Cursor(p) <= |p|
  {
    hide HeadBytes, HeadOf, Entries, EntriesBytes, Faithful;
    HeadFaithful(p);
    var w0 := HeadBytes(HeadOf(p));
    SectionFaithful(p, true, Num(p, 4, 2), 12, w0);
    var w1 := w0 + EntriesBytes(Questions(p).entries);
    SectionFaithful(p, false, Num(p, 6, 2), Questions(p).next, w1);
    var w2 := w1 + EntriesBytes(Answers(p).entries);
    SectionFaithful(p, false, Num(p, 8, 2), Answers(p).next, w2);
    var w3 := w2 + EntriesBytes(Authorities(p).entries);
    SectionFaithful(p, false, Num(p, 10, 2), Authorities(p).next, w3);
    FaithfulIff(p, Cursor(p), w3 + EntriesBytes(Additionals(p).entries));
  }

  lemma {:induction false} SectionsAdvance(p: seq<byte>, question: bool, count: nat, o: nat)
    ensures o <= Entries(p, question, count, o).next
    decreases count
  {
    hide ReadEntry;
    if count > 0 && o < |p| {
      EntryFaithful(p, question, o);
      SectionsAdvance(p, question, count - 1, ReadEntry(p, question, o).1);
    }
  }

  /** A header that announces one question, and only the root name of it: what is encoded is longer. */
  lemma CutQuestionLost()
    ensures var p: seq<byte> := [0, 0, 0, 0, 0, 1, 0, 0, 0, 0, 0, 0, 0];
      Cursor(p) > |p| && Encoded(Decoded(p)) != p[..Min(Cursor(p), |p|)]
  {
    hide Entries, Encoded, Decoded, Num;
    var p: seq<byte> := [0, 0, 0, 0, 0, 1, 0, 0, 0, 0, 0, 0, 0];
    OneQuestion(p);
    SectionsAdvance(p, false, Num(p, 6, 2), Questions(p).next);
    SectionsAdvance(p, false, Num(p, 8, 2), Answers(p).next);
    SectionsAdvance(p, false, Num(p, 10, 2), Authorities(p).next);
    DecodeEncodeIff(p);
  }

  lemma OneQuestion(p: seq<byte>)
    requires p == [0, 0, 0, 0, 0, 1, 0, 0, 0, 0, 0, 0, 0]
    ensures Questions(p).next == 17
  {
    hide ToNat;
    assert Clamped(p, 4, 2) == [0, 1];
    assert ToNat([0, 1]) == 1 by { OneSpelled(); }
    assert Octet(p, 12) == 0;
    assert NameAt(p, 12) == Followed([], 13);
    assert Entries(p, true, 0, 17) == Section([], 17);
  }

  lemma OneSpelled()
    ensures ToNat([0, 1]) == 1
  {
    assert [0, 1][..1] == [0] && [0][..0] == [];
    assert ToNat([0]) == 0;
  }

  lemma FaithfulIff(p: seq<byte>, o: nat, written: seq<byte>)
    requires Faithful(p, o, written)
    ensures written == p[..Min(o, |p|)] <==> o <= |p|
  {
    assert p[..|p|] == p;
  }

  // ---- the field codecs ----

  ghost predicate Consumed(b: PacketBuffer, p: seq<byte>, o: nat)
    reads b
  {
    b.headerLength == Min(o, |p|)
  }

  method TakeNum(b: PacketBuffer, ghost visible: seq<byte>, ghost p: seq<byte>, o: nat, n: nat) returns (v: nat)
    requires Reading(b, visible, p) && b.startPos + |p| == |visible| && Consumed(b, p, o)
    modifies b
    ensures Reading(b, visible, p) && b.startPos == old(b.startPos) && b.packet == old(b.packet)
      && Consumed(b, p, o + n)
    ensures v == Num(p, o, n)
  {
    hide Reading, ToNat, Clamped;
    var bytes := TakeAt(b, visible, p, o, n, false);
    v := ToNat(bytes);
  }

  method TakeName(b: PacketBuffer, ghost visible: seq<byte>, ghost p: seq<byte>, o: nat) returns (name: Name, next: nat)
    requires Reading(b, visible, p) && b.startPos + |p| == |visible| && Consumed(b, p, o)
    modifies b
    ensures Reading(b, visible, p) && b.startPos == old(b.startPos) && b.packet == old(b.packet) && Consumed(b, p, next)
    ensures name == ReadName(p, o) && next == NameAt(p, o).next && next > o
  {
    hide Reading, Join, Clamped, NameAt;
    var labels, end := FollowName(b, visible, p, o);
    next := end;
    var value := JoinLabels(labels);
    var raw := TakeAt(b, visible, p, o, next - o, false);
    name := Name(value, raw);
  }

  method TakeQuestion(b: PacketBuffer, ghost visible: seq<byte>, ghost p: seq<byte>, offset: nat)
    returns (e: Entry, next: nat)
    requires Reading(b, visible, p) && b.startPos + |p| == |visible| && Consumed(b, p, offset)
    modifies b
    ensures Reading(b, visible, p) && b.startPos == old(b.startPos) && b.packet == old(b.packet) && Consumed(b, p, next)
    ensures (e, next) == ReadQuestion(p, offset)
  {
    hide Reading, Consumed, NameAt, ReadName, Num;
    var name, o := TakeName(b, visible, p, offset);
    var qtype := TakeNum(b, visible, p, o, 2);
    var qclass := TakeNum(b, visible, p, o + 2, 2);
    e, next := Question(name, qtype, qclass), o + 4;
  }

  method TakeRecord(b: PacketBuffer, ghost visible: seq<byte>, ghost p: seq<byte>, offset: nat)
    returns (e: Entry, next: nat)
    requires Reading(b, visible, p) && b.startPos + |p| == |visible| && Consumed(b, p, offset)
    modifies b
    ensures Reading(b, visible, p) && b.startPos == old(b.startPos) && b.packet == old(b.packet) && Consumed(b, p, next)
    ensures (e, next) == ReadRecord(p, offset)
  {
    hide Reading, NameAt, ReadName, Num, Clamped;
    var name, o := TakeName(b, visible, p, offset);
    var kind := TakeNum(b, visible, p, o, 2);
    var recordClass := TakeNum(b, visible, p, o + 2, 2);
    var ttl := TakeNum(b, visible, p, o + 4, 4);
    var rdlength := TakeNum(b, visible, p, o + 8, 2);
    var rdata: seq<byte> := [];
    if rdlength != 0 {
      rdata := TakeAt(b, visible, p, o + 10, rdlength, false);
    }
    e, next := Record(name, kind, recordClass, ttl, rdlength, rdata), o + 10 + rdlength;
  }

  lemma EntriesStep(p: seq<byte>, question: bool, count: nat, o: nat, entries: seq<Entry>)
    requires count > 0 && o < |p|
    ensures var (e, next) := ReadEntry(p, question, o);
      Joined(entries, Entries(p, question, count, o)) == Joined(entries + [e], Entries(p, question, count - 1, next))
  {
    hide ReadEntry;
    var (e, next) := ReadEntry(p, question, o);
    AppendAssociates(entries, [e], Entries(p, question, count - 1, next).entries);
  }

  lemma EntriesStop(p: seq<byte>, question: bool, count: nat, o: nat, entries: seq<Entry>)
    requires count == 0 || o >= |p|
    ensures Joined(entries, Entries(p, question, count, o)) == Section(entries, o)
  {
    AppendNil(entries);
  }

  lemma EntriesBegin(s: Section)
    ensures Joined([], s) == s
  {
    AppendNil(s.entries);
  }

  lemma EntriesBytesAppend(entries: seq<Entry>, i: nat)
    requires i < |entries|
    ensures EntriesBytes(entries[..i + 1]) == EntriesBytes(entries[..i]) + EntryBytes(entries[i])
  {
    assert entries[..i + 1] == entries[..i] + [entries[i]];
    EntriesBytesSnoc(entries[..i], entries[i]);
  }

  lemma {:induction false} EntriesBytesSnoc(entries: seq<Entry>, last: Entry)
    ensures EntriesBytes(entries + [last]) == EntriesBytes(entries) + EntryBytes(last)
    decreases |entries|
  {
    hide EntryBytes;
    if entries == [] {
      AppendNil(EntryBytes(last));
    } else {
      assert (entries + [last])[1..] == entries[1..] + [last];
      EntriesBytesSnoc(entries[1..], last);
      AppendAssociates(EntryBytes(entries[0]), EntriesBytes(entries[1..]), EntryBytes(last));
    }
  }

  method WriteQuestion(b: PacketBuffer, ghost before: seq<byte>, ghost written: seq<byte>, start: nat, e: Entry)
    returns (offset: nat)
    requires Writing(b, before, written) && start == |written| && e.Question?
    modifies b, b.packet
    ensures Writing(b, before, written + EntryBytes(e)) && (b.packet == old(b.packet) || fresh(b.packet))
    ensures offset == |written + EntryBytes(e)|
  {
    hide Writing, NameBytes, FromNat;
    offset := WriteName(b, before, written, start, e.name);
    ghost var w := written + NameBytes(e.name);
    var qtype, qclass := FromNat(e.qtype % 0x1_0000, 2), FromNat(e.qclass % 0x1_0000, 2);
    Append(b, before, w, offset, qtype);
    Append(b, before, w + qtype, offset + 2, qclass);
    offset := offset + 4;
    AppendAssociates(w, qtype, qclass);
    AppendAssociates(written, NameBytes(e.name), qtype + qclass);
    AppendNil(NameBytes(e.name) + (qtype + qclass));
  }

  method WriteRecord(b: PacketBuffer, ghost before: seq<byte>, ghost written: seq<byte>, start: nat, e: Entry)
    returns (offset: nat)
    requires Writing(b, before, written) && start == |written| && e.Record?
    modifies b, b.packet
    ensures Writing(b, before, written + EntryBytes(e)) && (b.packet == old(b.packet) || fresh(b.packet))
    ensures offset == |written + EntryBytes(e)|
  {
    hide Writing, NameBytes, FromNat;
    offset := WriteName(b, before, written, start, e.name);
    ghost var w := written + NameBytes(e.name);
    var kind, recordClass := FromNat(e.kind % 0x1_0000, 2), FromNat(e.recordClass % 0x1_0000, 2);
    var ttl, rdlength := FromNat(e.ttl % 0x1_0000_0000, 4), FromNat(|e.rdata| % 0x1_0000, 2);
    Append(b, before, w, offset, kind);
    Append(b, before, w + kind, offset + 2, recordClass);
    Append(b, before, w + kind + recordClass, offset + 4, ttl);
    Append(b, before, w + kind + recordClass + ttl, offset + 8, rdlength);
    offset := offset + 10;
    ghost var fixed := kind + recordClass + ttl + rdlength;
    AppendAssociates(w, kind, recordClass);
    AppendAssociates(w, kind + recordClass, ttl);
    AppendAssociates(w, kind + recordClass + ttl, rdlength);
    if |e.rdata| > 0 {
      Append(b, before, w + fixed, offset, e.rdata);
      offset := offset + |e.rdata|;
    }
    EntryAssembled(written, NameBytes(e.name), fixed, e.rdata);
  }

  lemma EntryAssembled(written: seq<byte>, name: seq<byte>, fixed: seq<byte>, data: seq<byte>)
    ensures written + name + fixed + data == written + (name + fixed + data)
    ensures data == [] ==> written + name + fixed == written + (name + fixed + data)
  {
  }

  lemma FlagRead(p: seq<byte>, o: nat, bitOffset: nat, bitLength: nat, m: nat, d: nat)
    requires bitOffset + bitLength <= 8 && Pow2(bitLength) == m && Pow2(8 - bitOffset - bitLength) == d
    ensures m >= 1 && d >= 1 && ReadField(Clamped(p, o, 1), 1, bitOffset, bitLength) == Octet(p, o) / d % m
  {
    if o < |p| {
      hide Pow2, ReadField;
      assert Clamped(p, o, 1) == [p[o]];
      OctetReadIs(p[o], bitOffset, bitLength, m, d);
    } else {
      hide Pow2;
      assert Clamped(p, o, 1) == [];
      assert ToNat([]) == 0;
    }
  }

  /** One flag field of octet `o`: `m` values worth `d` each. */
  method TakeFlag(b: PacketBuffer, ghost visible: seq<byte>, ghost p: seq<byte>, o: nat, bitOffset: nat, bitLength: nat,
                  ghost m: nat, ghost d: nat) returns (v: nat)
    requires Reading(b, visible, p) && b.startPos + |p| == |visible| && (Consumed(b, p, o) || Consumed(b, p, o + 1))
    requires bitOffset + bitLength <= 8 && m >= 1 && d >= 1
    requires Pow2(bitLength) == m && Pow2(8 - bitOffset - bitLength) == d
    modifies b
    ensures Reading(b, visible, p) && b.startPos == old(b.startPos) && b.packet == old(b.packet)
      && Consumed(b, p, o + 1)
    ensures v == Octet(p, o) / d % m
  {
    hide Reading, Pow2, ReadField, Clamped, Octet;
    FlagRead(p, o, bitOffset, bitLength, m, d);
    v := TakeBitsAt(b, visible, p, o, 1, bitOffset, bitLength);
  }

  method TakeFlags(b: PacketBuffer, ghost visible: seq<byte>, ghost p: seq<byte>) returns (f: Flags)
    requires Reading(b, visible, p) && b.startPos + |p| == |visible| && Consumed(b, p, 2)
    modifies b
    ensures Reading(b, visible, p) && b.startPos == old(b.startPos) && b.packet == old(b.packet) && Consumed(b, p, 4)
    ensures f == FlagsOf(Octet(p, 2), Octet(p, 3))
  {
    hide Reading, Pow2, Octet, Consumed;
    SmallPowers();
    var qr := TakeFlag(b, visible, p, 2, 0, 1, 2, 128);
    var opcode := TakeFlag(b, visible, p, 2, 1, 4, 16, 8);
    var aa := TakeFlag(b, visible, p, 2, 5, 1, 2, 4);
    var tc := TakeFlag(b, visible, p, 2, 6, 1, 2, 2);
    var rd := TakeFlag(b, visible, p, 2, 7, 1, 2, 1);
    var ra := TakeFlag(b, visible, p, 3, 0, 1, 2, 128);
    var z := TakeFlag(b, visible, p, 3, 1, 1, 2, 64);
    var ad := TakeFlag(b, visible, p, 3, 2, 1, 2, 32);
    var cd := TakeFlag(b, visible, p, 3, 3, 1, 2, 16);
    var rcode := TakeFlag(b, visible, p, 3, 4, 4, 16, 1);
    f := Flags(qr != 0, opcode, aa != 0, tc != 0, rd != 0, ra != 0, z != 0, ad != 0, cd != 0, rcode);
  }

  method TakeHead(b: PacketBuffer, ghost visible: seq<byte>, ghost p: seq<byte>) returns (h: Head)
    requires Reading(b, visible, p) && b.startPos + |p| == |visible| && Consumed(b, p, 0)
    modifies b
    ensures Reading(b, visible, p) && b.startPos == old(b.startPos) && b.packet == old(b.packet) && Consumed(b, p, 12)
    ensures h == HeadOf(p)
  {
    hide Reading, Num, FlagsOf, Octet, Consumed;
    var id := TakeNum(b, visible, p, 0, 2);
    var flags := TakeFlags(b, visible, p);
    var qdcount := TakeNum(b, visible, p, 4, 2);
    var ancount := TakeNum(b, visible, p, 6, 2);
    var nscount := TakeNum(b, visible, p, 8, 2);
    var arcount := TakeNum(b, visible, p, 10, 2);
    h := Head(id, flags, qdcount, ancount, nscount, arcount);
  }

  // ---- the flag octets, written field by field ----

  /** A field above only zero bits is added to the octet, and leaves the bits below it zero. */
  lemma OctetAdds(x: byte, bitOffset: nat, bitLength: nat, m: nat, d: nat, v: int)
    requires bitOffset + bitLength <= 8 && Pow2(bitLength) == m && Pow2(8 - bitOffset - bitLength) == d
    requires m >= 1 && d >= 1 && m * d >= 1 && x % (m * d) == 0
    ensures OctetWith(x, bitOffset, bitLength, v) == x + v % m * d
    ensures OctetWith(x, bitOffset, bitLength, v) % d == 0
  {
    hide Pow2, OctetWith;
    OctetWithIs(x, bitOffset, bitLength, m, d, v);
    var q := x / (m * d);
    DivMod(x, m * d);
    Associate(q, m, d);
    QuotientUnique(x, d, q * m, 0);
    Distribute(q * m, v % m, d);
    DivMod(v, m);
    QuotientUnique(x + v % m * d, d, q * m + v % m, 0);
  }

  /** The first field of a new octet: `m` values worth `d` each. */
  method PutFirstFlag(b: PacketBuffer, ghost before: seq<byte>, ghost w: seq<byte>, offset: nat, bitLength: nat,
                      ghost m: nat, ghost d: nat, v: int)
    requires Writing(b, before, w) && offset == |w| && bitLength <= 8
    requires Pow2(bitLength) == m && Pow2(8 - bitLength) == d && m >= 1 && d >= 1 && m * d >= 1
    modifies b, b.packet
    ensures v % m * d < 256 && v % m * d % d == 0
    ensures Writing(b, before, w + [v % m * d]) && (b.packet == old(b.packet) || fresh(b.packet))
  {
    hide Writing, OctetWith, Pow2;
    OctetAdds(0, 0, bitLength, m, d, v);
    PutNext(b, before, w, offset, 0, bitLength, v);
  }

  /** A further field of the last octet, above only zero bits. */
  method PutFlag(b: PacketBuffer, ghost before: seq<byte>, ghost w: seq<byte>, ghost x: byte, offset: nat,
                 bitOffset: nat, bitLength: nat,
                 ghost m: nat, ghost d: nat, v: int)
    requires Writing(b, before, w + [x]) && offset == |w| && bitOffset + bitLength <= 8
    requires Pow2(bitLength) == m && Pow2(8 - bitOffset - bitLength) == d && m >= 1 && d >= 1 && m * d >= 1
      && x % (m * d) == 0
    modifies b, b.packet
    ensures x + v % m * d < 256 && (x + v % m * d) % d == 0
    ensures Writing(b, before, w + [x + v % m * d]) && (b.packet == old(b.packet) || fresh(b.packet))
  {
    hide Writing, OctetWith, Pow2;
    OctetAdds(x, bitOffset, bitLength, m, d, v);
    PutLast(b, before, w, x, offset, bitOffset, bitLength, v);
  }

  method PutFlags(b: PacketBuffer, ghost before: seq<byte>, ghost w: seq<byte>, f: Flags)
    requires Writing(b, before, w) && |w| == 2
    modifies b, b.packet
    ensures Writing(b, before, w + [FirstFlags(f)] + [SecondFlags(f)]) && (b.packet == old(b.packet) || fresh(b.packet))
  {
    hide Writing, FirstFlags, SecondFlags;
    PutFirstFlags(b, before, w, f);
    PutSecondFlags(b, before, w + [FirstFlags(f)], f);
  }

  lemma FlagBit(on: bool)
    ensures 0 <= Flag(on) <= 1 && Flag(on) % 2 == Flag(on)
  {
  }

  method PutOpcode(b: PacketBuffer, ghost before: seq<byte>, ghost w: seq<byte>, f: Flags)
    requires Writing(b, before, w) && |w| == 2
    modifies b, b.packet
    ensures Writing(b, before, w + [Flag(f.qr) * 128 + f.opcode % 16 * 8])
      && (b.packet == old(b.packet) || fresh(b.packet))
  {
    hide Writing, Pow2;
    SmallPowers();
    PutFirstFlag(b, before, w, 2, 1, 2, 128, Flag(f.qr));
    PutFlag(b, before, w, Flag(f.qr) * 128, 2, 1, 4, 16, 8, f.opcode);
  }

  method PutFirstFlags(b: PacketBuffer, ghost before: seq<byte>, ghost w: seq<byte>, f: Flags)
    requires Writing(b, before, w) && |w| == 2
    modifies b, b.packet
    ensures Writing(b, before, w + [FirstFlags(f)]) && (b.packet == old(b.packet) || fresh(b.packet))
  {
    hide Writing, Pow2, Flag;
    SmallPowers();
    FlagBit(f.qr);
    FlagBit(f.aa);
    FlagBit(f.tc);
    FlagBit(f.rd);
    PutOpcode(b, before, w, f);
    ghost var x2 := Flag(f.qr) * 128 + f.opcode % 16 * 8;
    PutFlag(b, before, w, x2, 2, 5, 1, 2, 4, Flag(f.aa));
    ghost var x3 := x2 + Flag(f.aa) * 4;
    PutFlag(b, before, w, x3, 2, 6, 1, 2, 2, Flag(f.tc));
    PutFlag(b, before, w, x3 + Flag(f.tc) * 2, 2, 7, 1, 2, 1, Flag(f.rd));
  }

  method PutSecondFlags(b: PacketBuffer, ghost before: seq<byte>, ghost w: seq<byte>, f: Flags)
    requires Writing(b, before, w) && |w| == 3
    modifies b, b.packet
    ensures Writing(b, before, w + [SecondFlags(f)]) && (b.packet == old(b.packet) || fresh(b.packet))
  {
    hide Writing, Pow2;
    SmallPowers();
    PutFirstFlag(b, before, w, 3, 1, 2, 128, Flag(f.ra));
    ghost var x1 := Flag(f.ra) * 128;
    PutFlag(b, before, w, x1, 3, 1, 1, 2, 64, Flag(f.z));
    ghost var x2 := x1 + Flag(f.z) * 64;
    PutFlag(b, before, w, x2, 3, 2, 1, 2, 32, Flag(f.ad));
    ghost var x3 := x2 + Flag(f.ad) * 32;
    PutFlag(b, before, w, x3, 3, 3, 1, 2, 16, Flag(f.cd));
    PutFlag(b, before, w, x3 + Flag(f.cd) * 16, 3, 4, 4, 16, 1, f.rcode);
  }

  function HeadIssues(h: Head): seq<Issue>
  {
    Issues(h.id, 65535, 0, "id") + Issues(h.qdcount, 65535, 0, "qdcount") + Issues(h.ancount, 65535, 0, "ancount")
      + Issues(h.nscount, 65535, 0, "nscount") + Issues(h.arcount, 65535, 0, "arcount")
  }

  method PutHead(b: PacketBuffer, ghost before: seq<byte>, h: Head) returns (issues: seq<Issue>)
    requires Writing(b, before, [])
    modifies b, b.packet
    ensures Writing(b, before, HeadBytes(h)) && (b.packet == old(b.packet) || fresh(b.packet))
    ensures issues == HeadIssues(h)
  {
    hide Writing, Field16, FirstFlags, SecondFlags;
    Append(b, before, [], 0, Field16(h.id));
    AppendNil(Field16(h.id));
    PutFlags(b, before, Field16(h.id), h.flags);
    ghost var w := Field16(h.id) + [FirstFlags(h.flags)] + [SecondFlags(h.flags)];
    Append(b, before, w, 4, Field16(h.qdcount));
    Append(b, before, w + Field16(h.qdcount), 6, Field16(h.ancount));
    Append(b, before, w + Field16(h.qdcount) + Field16(h.ancount), 8, Field16(h.nscount));
    Append(b, before, w + Field16(h.qdcount) + Field16(h.ancount) + Field16(h.nscount), 10, Field16(h.arcount));
    issues :=
      Issues(h.id, 65535, 0, "id") + Issues(h.qdcount, 65535, 0, "qdcount") + Issues(h.ancount, 65535, 0, "ancount")
      + Issues(h.nscount, 65535, 0, "nscount") + Issues(h.arcount, 65535, 0, "arcount");
  }

  /** Questions in the first section, records in the others. */
  predicate Typed(m: Message)
  {
    && (forall e :: e in m.questions ==> e.Question?) && (forall e :: e in m.answers ==> !e.Question?)
    && (forall e :: e in m.authorities ==> !e.Question?) && (forall e :: e in m.additionals ==> !e.Question?)
  }

  /** The header object: its cursor runs through the four section codecs in turn. */
  class DnsHeader {
    var cursor: nat

    method DecodeSection(b: PacketBuffer, ghost visible: seq<byte>, ghost p: seq<byte>, available: nat,
                         question: bool, count: nat, start: nat) returns (entries: seq<Entry>)
      requires Reading(b, visible, p) && b.startPos + |p| == |visible| && available == |p| && Consumed(b, p, start)
      modifies this, b
      ensures Reading(b, visible, p) && b.startPos == old(b.startPos) && b.packet == old(b.packet)
      ensures Section(entries, cursor) == Entries(p, question, count, start) && Consumed(b, p, cursor)
    {
      hide Reading, Consumed, Entries, Joined, ReadQuestion, ReadRecord;
      entries := [];
      var offset: nat, i: nat := start, 0;
      EntriesBegin(Entries(p, question, count, start));
      while i < count && offset < available
        invariant i <= count && Consumed(b, p, offset)
        invariant Reading(b, visible, p) && b.startPos == old(b.startPos) && b.packet == old(b.packet)
        invariant Entries(p, question, count, start) == Joined(entries, Entries(p, question, count - i, offset))
      {
        EntriesStep(p, question, count - i, offset, entries);
        var e: Entry, next: nat;
        if question {
          e, next := TakeQuestion(b, visible, p, offset);
        } else {
          e, next := TakeRecord(b, visible, p, offset);
        }
        entries := entries + [e];
        offset := next;
        i := i + 1;
      }
      EntriesStop(p, question, count - i, offset, entries);
      cursor := offset;
    }

    method EncodeSection(b: PacketBuffer, ghost before: seq<byte>, ghost written: seq<byte>, question: bool,
                         entries: seq<Entry>, start: nat)
      requires Writing(b, before, written) && start == |written|
      requires forall e :: e in entries ==> e.Question? == question
      modifies this, b, b.packet
      ensures Writing(b, before, written + EntriesBytes(entries)) && (b.packet == old(b.packet) || fresh(b.packet))
      ensures cursor == |written + EntriesBytes(entries)|
    {
      hide Writing, EntriesBytes, EntryBytes;
      var offset, i := start, 0;
      NoEntries();
      AppendNil(written);
      while i < |entries|
        invariant i <= |entries| && (b.packet == old(b.packet) || fresh(b.packet))
        invariant Writing(b, before, written + EntriesBytes(entries[..i]))
          && offset == |written + EntriesBytes(entries[..i])|
      {
        EntriesBytesAppend(entries, i);
        AppendAssociates(written, EntriesBytes(entries[..i]), EntryBytes(entries[i]));
        if question {
          offset := WriteQuestion(b, before, written + EntriesBytes(entries[..i]), offset, entries[i]);
        } else {
          offset := WriteRecord(b, before, written + EntriesBytes(entries[..i]), offset, entries[i]);
        }
        i := i + 1;
      }
      assert entries[..i] == entries;
      cursor := offset;
    }

    method Decode(b: PacketBuffer, ghost visible: seq<byte>, ghost p: seq<byte>) returns (m: Message)
      requires Reading(b, visible, p) && b.startPos + |p| == |visible| && b.headerLength == 0
      modifies this, b
      ensures Reading(b, visible, p) && b.startPos == old(b.startPos) && b.packet == old(b.packet)
      ensures m == Decoded(p) && cursor == Cursor(p) && b.headerLength == Min(Cursor(p), |p|)
    {
      hide Reading, Entries, Num, FlagsOf;
      var available := Available(b, visible, p);
      var head := TakeHead(b, visible, p);
      CountsAreNats(p);
      var questions := DecodeSection(b, visible, p, available, true, head.qdcount, 12);
      var answers := DecodeSection(b, visible, p, available, false, head.ancount, cursor);
      var authorities := DecodeSection(b, visible, p, available, false, head.nscount, cursor);
      var additionals := DecodeSection(b, visible, p, available, false, head.arcount, cursor);
      m := Message(head, questions, answers, authorities, additionals);
    }

    method Encode(b: PacketBuffer, ghost before: seq<byte>, m: Message) returns (issues: seq<Issue>)
      requires Writing(b, before, []) && Typed(m)
      modifies this, b, b.packet
      ensures Writing(b, before, Encoded(m)) && issues == HeadIssues(m.head)
    {
      hide Writing, EntriesBytes, HeadBytes, HeadIssues;
      issues := PutHead(b, before, m.head);
      ghost var w := HeadBytes(m.head);
      EncodeSection(b, before, w, true, m.questions, 12);
      w := w + EntriesBytes(m.questions);
      EncodeSection(b, before, w, false, m.answers, cursor);
      w := w + EntriesBytes(m.answers);
      EncodeSection(b, before, w, false, m.authorities, cursor);
      w := w + EntriesBytes(m.authorities);
      EncodeSection(b, before, w, false, m.additionals, cursor);
    }
  }

  lemma CountsAreNats(p: seq<byte>)
    ensures HeadOf(p).qdcount == Num(p, 4, 2) && HeadOf(p).ancount == Num(p, 6, 2)
    ensures HeadOf(p).nscount == Num(p, 8, 2) && HeadOf(p).arcount == Num(p, 10, 2)
  {
  }

  lemma NoEntries()
    ensures EntriesBytes([]) == []
  {
  }
}