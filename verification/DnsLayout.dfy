/** DNS messages by the octets of sections 4.1.1 to 4.1.3 of RFC 1035, and that the decoder reads them as laid out. */
module DnsLayout {
  import opened Bytes
  import opened BitFields
  import opened CraftedNames
  import opened Dns
  import opened DnsNames
  import opened HeaderFields
  import opened PacketBuffer

  // ---- the layout ----

  function Preceded(labels: seq<seq<byte>>): seq<byte>
  {
    if labels == [] then [] else [46] + labels[0] + Preceded(labels[1..])
  }

  /** The labels in order, a dot between neighbours. */
  function Dotted(labels: seq<seq<byte>>): seq<byte>
  {
    if labels == [] then [] else Preceded(labels)[1..]
  }

  /** Two octets, the first the more significant. */
  function Two(p: seq<byte>, o: nat): nat
    requires o + 2 <= |p|
  {
    var first: int, second: int := p[o], p[o + 1];
    first * 256 + second
  }

  /** A name, compressed or not, whose own octets reach up to `end`. */
  ghost predicate NameLies(p: seq<byte>, o: nat, name: Name, end: nat)
  {
    && o <= end <= |p| && name.raw == p[o..end]
    && exists labels, n :: n <= 256 && Spells(p, o, labels, n) && name.value == Dotted(labels) && end == Extent(p, o, n)
  }

  /** Name, QTYPE, QCLASS. */
  ghost predicate QuestionLies(p: seq<byte>, o: nat, e: Entry, next: nat)
  {
    && e.Question? && o + 4 <= next <= |p|
    && var t := next - 4;
    && NameLies(p, o, e.name, t)
    && e.qtype == Two(p, t) && e.qclass == Two(p, t + 2)
  }

  /** Name, TYPE, CLASS, TTL, RDLENGTH, RDATA. */
  ghost predicate RecordLies(p: seq<byte>, o: nat, e: Entry, next: nat)
  {
    && e.Record? && o + 10 + |e.rdata| <= next <= |p|
    && var t := next - |e.rdata| - 10;
    && NameLies(p, o, e.name, t)
    && e.kind == Two(p, t) && e.recordClass == Two(p, t + 2)
    && e.ttl == Two(p, t + 4) * 0x1_0000 + Two(p, t + 6)
    && e.rdlength == |e.rdata| == Two(p, t + 8) && e.rdata == p[t + 10..next]
  }

  ghost predicate EntryLies(p: seq<byte>, question: bool, o: nat, e: Entry, next: nat)
  {
    if question then QuestionLies(p, o, e, next) else RecordLies(p, o, e, next)
  }

  /** The entries lie one behind the other. */
  ghost predicate SectionLies(p: seq<byte>, question: bool, o: nat, entries: seq<Entry>, end: nat)
    decreases |entries|
  {
    if entries == [] then end == o
    else exists next :: EntryLies(p, question, o, entries[0], next) && SectionLies(p, question, next, entries[1..], end)
  }

  function One(on: bool, worth: nat): nat { if on then worth else 0 }

  /** ID, the two octets of flags, and the four counts. */
  predicate HeadLies(p: seq<byte>, h: Head)
    requires |p| >= 12
  {
    var f := h.flags;
    && 0 <= f.opcode <= 15 && 0 <= f.rcode <= 15
    && h.id == Two(p, 0)
    && p[2] == One(f.qr, 128) + f.opcode * 8 + One(f.aa, 4) + One(f.tc, 2) + One(f.rd, 1)
    && p[3] == One(f.ra, 128) + One(f.z, 64) + One(f.ad, 32) + One(f.cd, 16) + f.rcode
    && h.qdcount == Two(p, 4) && h.ancount == Two(p, 6)
    && h.nscount == Two(p, 8) && h.arcount == Two(p, 10)
  }

  /** Header, questions, answers, authorities, additionals, as many as the counts say. */
  ghost predicate MessageLies(p: seq<byte>, m: Message, end: nat)
  {
    && |p| >= 12 && HeadLies(p, m.head)
    && |m.questions| == Two(p, 4) && |m.answers| == Two(p, 6)
    && |m.authorities| == Two(p, 8) && |m.additionals| == Two(p, 10)
    && exists a, b, c ::
         && SectionLies(p, true, 12, m.questions, a) && SectionLies(p, false, a, m.answers, b)
         && SectionLies(p, false, b, m.authorities, c) && SectionLies(p, false, c, m.additionals, end)
  }

  // ---- integers and names ----

  lemma Num16(p: seq<byte>, o: nat)
    requires o + 2 <= |p|
    ensures Num(p, o, 2) == Two(p, o)
  {
    var b := p[o..o + 2];
    assert Clamped(p, o, 2) == b;
    assert b[..1][..0] == [] && ToNat(b[..1]) == b[0];
  }

  lemma Num32(p: seq<byte>, o: nat)
    requires o + 4 <= |p|
    ensures Num(p, o, 4) == Two(p, o) * 0x1_0000 + Two(p, o + 2)
  {
    var b := p[o..o + 4];
    assert Clamped(p, o, 4) == b;
    assert b[..3][..2] == b[..2] && b[..2][..1] == b[..1] && b[..1][..0] == [];
    var first: int, second: int, third: int := b[0], b[1], b[2];
    assert ToNat(b[..1]) == first && ToNat(b[..2]) == first * 256 + second;
    assert ToNat(b[..3]) == (first * 256 + second) * 256 + third;
  }

  lemma {:induction false} PrecededIsJoin(labels: seq<seq<byte>>)
    requires labels != []
    ensures Preceded(labels) == [46] + Join(labels)
    decreases |labels|
  {
    if |labels| == 1 {
      assert Preceded(labels[1..]) == [];
    } else {
      PrecededIsJoin(labels[1..]);
    }
  }

  lemma DottedIsJoin(labels: seq<seq<byte>>)
    ensures Dotted(labels) == Join(labels)
  {
    if labels != [] { PrecededIsJoin(labels); }
  }

  lemma {:induction false} ExtentAdvances(p: seq<byte>, o: nat, n: nat)
    ensures Extent(p, o, n) > o
    decreases n
  {
    var len: nat := Octet(p, o);
    if 0 < len < 192 && n > 0 { ExtentAdvances(p, o + 1 + len, n - 1); }
  }

  lemma NameReads(p: seq<byte>, o: nat, name: Name, end: nat)
    requires NameLies(p, o, name, end)
    ensures ReadName(p, o) == name && NameAt(p, o).next == end > o
  {
    hide Spells, Extent, NameAt;
    var labels, n :|
      n <= 256 && Spells(p, o, labels, n) && name.value == Dotted(labels) && end == Extent(p, o, n);
    NameIsStandard(p, o, labels, n);
    ExtentAdvances(p, o, n);
    DottedIsJoin(labels);
  }

  // ---- entries and sections ----

  lemma QuestionReads(p: seq<byte>, o: nat, e: Entry, next: nat)
    requires QuestionLies(p, o, e, next)
    ensures ReadQuestion(p, o) == (e, next) && o < next
  {
    hide Num, NameAt, ReadName, NameLies;
    var t := next - 4;
    NameReads(p, o, e.name, t);
    Num16(p, t);
    Num16(p, t + 2);
  }

  lemma RecordReads(p: seq<byte>, o: nat, e: Entry, next: nat)
    requires RecordLies(p, o, e, next)
    ensures ReadRecord(p, o) == (e, next) && o < next
  {
    hide Num, NameAt, ReadName, NameLies;
    var t := next - |e.rdata| - 10;
    NameReads(p, o, e.name, t);
    Num16(p, t);
    Num16(p, t + 2);
    Num32(p, t + 4);
    Num16(p, t + 8);
    assert Clamped(p, t + 10, |e.rdata|) == p[t + 10..next];
  }

  lemma EntryReads(p: seq<byte>, question: bool, o: nat, e: Entry, next: nat)
    requires EntryLies(p, question, o, e, next)
    ensures ReadEntry(p, question, o) == (e, next) && o < next <= |p|
  {
    hide ReadQuestion, ReadRecord, NameLies;
    if question { QuestionReads(p, o, e, next); } else { RecordReads(p, o, e, next); }
  }

  lemma {:induction false} SectionReads(p: seq<byte>, question: bool, o: nat, entries: seq<Entry>, end: nat)
    requires SectionLies(p, question, o, entries, end)
    ensures Entries(p, question, |entries|, o) == Section(entries, end)
    decreases |entries|
  {
    hide ReadEntry, EntryLies;
    if entries != [] {
      var next :| EntryLies(p, question, o, entries[0], next) && SectionLies(p, question, next, entries[1..], end);
      EntryReads(p, question, o, entries[0], next);
      SectionReads(p, question, next, entries[1..], end);
      assert entries == [entries[0]] + entries[1..];
    }
  }

  lemma FlagsRead(x: byte, y: byte, f: Flags)
    requires 0 <= f.opcode <= 15 && 0 <= f.rcode <= 15
    requires x == One(f.qr, 128) + f.opcode * 8 + One(f.aa, 4) + One(f.tc, 2) + One(f.rd, 1)
    requires y == One(f.ra, 128) + One(f.z, 64) + One(f.ad, 32) + One(f.cd, 16) + f.rcode
    ensures FlagsOf(x, y) == f
  {
    FirstRead(x, f);
    SecondRead(y, f);
  }

  lemma FirstRead(x: byte, f: Flags)
    requires 0 <= f.opcode <= 15 && x == One(f.qr, 128) + f.opcode * 8 + One(f.aa, 4) + One(f.tc, 2) + One(f.rd, 1)
    ensures Bit2(x, 128) == f.qr && x / 8 % 16 == f.opcode && Bit2(x, 4) == f.aa && Bit2(x, 2) == f.tc
      && Bit2(x, 1) == f.rd
  {
    assert x / 8 == One(f.qr, 16) + f.opcode;
    assert x / 4 == One(f.qr, 32) + f.opcode * 2 + One(f.aa, 1);
    assert x / 2 == One(f.qr, 64) + f.opcode * 4 + One(f.aa, 2) + One(f.tc, 1);
  }

  lemma SecondRead(y: byte, f: Flags)
    requires 0 <= f.rcode <= 15 && y == One(f.ra, 128) + One(f.z, 64) + One(f.ad, 32) + One(f.cd, 16) + f.rcode
    ensures Bit2(y, 128) == f.ra && Bit2(y, 64) == f.z && Bit2(y, 32) == f.ad && Bit2(y, 16) == f.cd
      && y % 16 == f.rcode
  {
    assert y / 16 == One(f.ra, 8) + One(f.z, 4) + One(f.ad, 2) + One(f.cd, 1);
  }

  lemma HeadReads(p: seq<byte>, h: Head)
    requires |p| >= 12 && HeadLies(p, h)
    ensures HeadOf(p) == h
  {
    hide Num, FlagsOf;
    FlagsRead(p[2], p[3], h.flags);
    Num16(p, 0);
    Num16(p, 4);
    Num16(p, 6);
    Num16(p, 8);
    Num16(p, 10);
  }

  /**
   * A message laid out in the octets is decoded to its fields, flags and four lists, and its octets are written back.
   */
  lemma LaidOutDecodes(p: seq<byte>, m: Message, end: nat)
    requires MessageLies(p, m, end)
    ensures Decoded(p) == m && Cursor(p) == end
    ensures end <= |p| ==> Encoded(m) == p[..end]
  {
    hide SectionLies, HeadLies, Entries, HeadOf, Num, Encoded;
    var a, b, c :|
      && SectionLies(p, true, 12, m.questions, a) && SectionLies(p, false, a, m.answers, b)
      && SectionLies(p, false, b, m.authorities, c) && SectionLies(p, false, c, m.additionals, end);
    HeadReads(p, m.head);
    Num16(p, 4);
    Num16(p, 6);
    Num16(p, 8);
    Num16(p, 10);
    SectionReads(p, true, 12, m.questions, a);
    SectionReads(p, false, a, m.answers, b);
    SectionReads(p, false, b, m.authorities, c);
    SectionReads(p, false, c, m.additionals, end);
    DecodeEncodeIff(p);
  }

  // ---- cut messages ----

  lemma {:induction false} SectionCut(p: seq<byte>, question: bool, count: nat, o: nat)
    ensures var s := Entries(p, question, count, o); |s.entries| <= count && (|s.entries| < count ==> s.next >= |p|)
    decreases count
  {
    hide ReadEntry;
    if count > 0 && o < |p| { SectionCut(p, question, count - 1, ReadEntry(p, question, o).1); }
  }

  lemma NoRoom(p: seq<byte>, question: bool, count: nat, o: nat)
    requires o >= |p|
    ensures Entries(p, question, count, o) == Section([], o)
  {
  }

  /** The section has no more entries than its count says, and with fewer no later section has any. */
  predicate Filled(entries: seq<Entry>, count: nat, later: seq<Entry>)
  {
    |entries| <= count && (|entries| < count ==> later == [])
  }

  /** However a message is cut, its sections hold the entries counted for them, until one runs out of octets. */
  lemma CountsBound(p: seq<byte>)
    requires |p| >= 12
    ensures Filled(Decoded(p).questions, Two(p, 4),
                   Decoded(p).answers + Decoded(p).authorities + Decoded(p).additionals)
    ensures Filled(Decoded(p).answers, Two(p, 6), Decoded(p).authorities + Decoded(p).additionals)
    ensures Filled(Decoded(p).authorities, Two(p, 8), Decoded(p).additionals)
    ensures Filled(Decoded(p).additionals, Two(p, 10), [])
  {
    hide Entries, Num, HeadOf;
    Num16(p, 4);
    Num16(p, 6);
    Num16(p, 8);
    Num16(p, 10);
    SectionCut(p, true, Num(p, 4, 2), 12);
    SectionCut(p, false, Num(p, 6, 2), Questions(p).next);
    SectionCut(p, false, Num(p, 8, 2), Answers(p).next);
    SectionCut(p, false, Num(p, 10, 2), Authorities(p).next);
    if Questions(p).next >= |p| { NoRoom(p, false, Num(p, 6, 2), Questions(p).next); }
    if Answers(p).next >= |p| { NoRoom(p, false, Num(p, 8, 2), Answers(p).next); }
    if Authorities(p).next >= |p| { NoRoom(p, false, Num(p, 10, 2), Authorities(p).next); }
  }

  // ---- crafted messages ----

  predicate Sixteen(v: int) { 0 <= v < 0x1_0000 }

  /** A name given as text, with labels that read back. */
  predicate NameCrafted(name: Name)
  {
    name.raw == [] && (name.value == [] || (|Split(name.value)| <= 255 && AllReadable(Split(name.value))))
  }

  /** A crafted entry whose fields fit; a record's RDLENGTH may be anything. */
  predicate Crafted(e: Entry)
  {
    && NameCrafted(e.name)
    && match e
       case Question(_, qtype, qclass) => Sixteen(qtype) && Sixteen(qclass)
       case Record(_, kind, recordClass, ttl, _, rdata) =>
         Sixteen(kind) && Sixteen(recordClass) && 0 <= ttl < 0x1_0000_0000 && |rdata| < 0x1_0000
  }

  /** The entry as it comes back: with the octets of its name, and its data's length. */
  function Completed(e: Entry): Entry
  {
    var name := Name(e.name.value, ValueBytes(e.name.value));
    match e
    case Question(_, qtype, qclass) => Question(name, qtype, qclass)
    case Record(_, kind, recordClass, ttl, _, rdata) => Record(name, kind, recordClass, ttl, |rdata|, rdata)
  }

  function AllCompleted(entries: seq<Entry>): (r: seq<Entry>)
    ensures |r| == |entries|
  {
    if entries == [] then [] else [Completed(entries[0])] + AllCompleted(entries[1..])
  }

  predicate SectionCrafted(entries: seq<Entry>, question: bool)
  {
    forall e :: e in entries ==> Crafted(e) && e.Question? == question
  }

  predicate HeadFits(h: Head)
  {
    && Sixteen(h.id) && Sixteen(h.qdcount) && Sixteen(h.ancount) && Sixteen(h.nscount) && Sixteen(h.arcount)
    && 0 <= h.flags.opcode <= 15 && 0 <= h.flags.rcode <= 15
  }

  predicate MessageCrafted(m: Message)
  {
    && HeadFits(m.head)
    && m.head.qdcount == |m.questions| && m.head.ancount == |m.answers|
    && m.head.nscount == |m.authorities| && m.head.arcount == |m.additionals|
    && SectionCrafted(m.questions, true) && SectionCrafted(m.answers, false)
    && SectionCrafted(m.authorities, false) && SectionCrafted(m.additionals, false)
  }

  lemma NumAt(p: seq<byte>, o: nat, v: nat, n: nat)
    requires (n == 2 && v < 0x1_0000) || (n == 4 && v < 0x1_0000_0000)
    requires Sits(p, o, FromNat(v, n))
    ensures Num(p, o, n) == v
  {
    hide FromNat, ToNat, Pow2;
    Widths();
    assert 8 * 2 == 16 && 8 * 4 == 32;
    FromNatInverse(v, n);
    AtClamped(p, o, FromNat(v, n));
  }

  lemma NameBack(p: seq<byte>, o: nat, name: Name)
    requires NameCrafted(name) && Sits(p, o, ValueBytes(name.value))
    ensures ReadName(p, o) == Name(name.value, ValueBytes(name.value))
    ensures NameAt(p, o).next == o + |ValueBytes(name.value)|
  {
    hide Sits, Split, ValueBytes, NameAt, Join, AllReadable, Clamped;
    CraftedNameIff(p, o, name.value);
    AtClamped(p, o, ValueBytes(name.value));
    ValueNotEmpty(name.value);
  }

  lemma ValueNotEmpty(v: seq<byte>)
    ensures |ValueBytes(v)| > 0
  {
  }

  lemma AtThree(p: seq<byte>, o: nat, a: seq<byte>, b: seq<byte>, c: seq<byte>)
    requires Sits(p, o, a + b + c)
    ensures Sits(p, o, a) && Sits(p, o + |a|, b) && Sits(p, o + |a| + |b|, c)
  {
    hide Sits;
    SitsSplit(p, o, a + b, c);
    SitsSplit(p, o, a, b);
  }

  lemma QuestionBack(p: seq<byte>, o: nat, e: Entry)
    requires Crafted(e) && e.Question? && Sits(p, o, EntryBytes(e))
    ensures ReadQuestion(p, o) == (Completed(e), o + |EntryBytes(e)|)
  {
    hide Sits, NameCrafted, ValueBytes, FromNat, Num, NameAt, ReadName;
    var a, b := FromNat(e.qtype, 2), FromNat(e.qclass, 2);
    NameBytesCrafted(e.name);
    AtThree(p, o, ValueBytes(e.name.value), FixedBytes(e), []);
    var n := o + |ValueBytes(e.name.value)|;
    SitsSplit(p, n, a, b);
    NameBack(p, o, e.name);
    NumAt(p, n, e.qtype, 2);
    NumAt(p, n + 2, e.qclass, 2);
  }

  lemma NameBytesCrafted(name: Name)
    requires NameCrafted(name)
    ensures NameBytes(name) == ValueBytes(name.value)
  {
  }

  lemma RecordBack(p: seq<byte>, o: nat, e: Entry)
    requires Crafted(e) && e.Record? && Sits(p, o, EntryBytes(e))
    ensures ReadRecord(p, o) == (Completed(e), o + |EntryBytes(e)|)
  {
    hide Sits, NameCrafted, ValueBytes, FromNat, Num, NameAt, ReadName, Clamped;
    var a, b, c, d := FromNat(e.kind, 2), FromNat(e.recordClass, 2), FromNat(e.ttl, 4), FromNat(|e.rdata|, 2);
    NameBytesCrafted(e.name);
    AtThree(p, o, ValueBytes(e.name.value), FixedBytes(e), e.rdata);
    var n := o + |ValueBytes(e.name.value)|;
    assert FixedBytes(e) == a + b + c + d;
    SitsSplit(p, n, a + b + c, d);
    AtThree(p, n, a, b, c);
    NameBack(p, o, e.name);
    NumAt(p, n, e.kind, 2);
    NumAt(p, n + 2, e.recordClass, 2);
    NumAt(p, n + 4, e.ttl, 4);
    NumAt(p, n + 8, |e.rdata|, 2);
    AtClamped(p, n + 10, e.rdata);
  }

  lemma EntryBack(p: seq<byte>, question: bool, o: nat, e: Entry)
    requires Crafted(e) && e.Question? == question && Sits(p, o, EntryBytes(e))
    ensures ReadEntry(p, question, o) == (Completed(e), o + |EntryBytes(e)|) && |EntryBytes(e)| > 0 && o < |p|
  {
    hide Crafted, ReadQuestion, ReadRecord, NameBytes, FixedBytes, Completed;
    if question { QuestionBack(p, o, e); } else { RecordBack(p, o, e); }
  }

  lemma {:induction false} SectionBack(p: seq<byte>, question: bool, o: nat, entries: seq<Entry>)
    requires SectionCrafted(entries, question) && Sits(p, o, EntriesBytes(entries))
    ensures Entries(p, question, |entries|, o) == Section(AllCompleted(entries), o + |EntriesBytes(entries)|)
    decreases |entries|
  {
    hide ReadEntry, EntryBytes, Crafted, Completed, Sits;
    if entries != [] {
      assert entries[0] in entries;
      SitsSplit(p, o, EntryBytes(entries[0]), EntriesBytes(entries[1..]));
      EntryBack(p, question, o, entries[0]);
      SectionBack(p, question, o + |EntryBytes(entries[0])|, entries[1..]);
    }
  }

  lemma FieldAt(p: seq<byte>, o: nat, v: int)
    requires Sixteen(v) && Sits(p, o, Field16(v))
    ensures Num(p, o, 2) == v
  {
    hide FromNat, Num;
    NumAt(p, o, v, 2);
  }

  lemma FlagOctets(f: Flags)
    requires 0 <= f.opcode <= 15 && 0 <= f.rcode <= 15
    ensures FlagsOf(FirstFlags(f), SecondFlags(f)) == f
  {
    hide FlagsOf;
    FlagsRead(FirstFlags(f), SecondFlags(f), f);
  }

  lemma HeadBack(p: seq<byte>, h: Head)
    requires HeadFits(h) && Sits(p, 0, HeadBytes(h))
    ensures HeadOf(p) == h
  {
    hide Sits, Field16, FirstFlags, SecondFlags, FlagsOf, Num, Octet;
    var x, y: seq<byte> := [FirstFlags(h.flags)], [SecondFlags(h.flags)];
    var w := Field16(h.id) + x + y;
    SitsSplit(p, 0, w + Field16(h.qdcount) + Field16(h.ancount) + Field16(h.nscount), Field16(h.arcount));
    SitsSplit(p, 0, w + Field16(h.qdcount) + Field16(h.ancount), Field16(h.nscount));
    SitsSplit(p, 0, w + Field16(h.qdcount), Field16(h.ancount));
    SitsSplit(p, 0, w, Field16(h.qdcount));
    AtThree(p, 0, Field16(h.id), x, y);
    AtOctet(p, 2, FirstFlags(h.flags));
    AtOctet(p, 3, SecondFlags(h.flags));
    FlagOctets(h.flags);
    FieldAt(p, 0, h.id);
    FieldAt(p, 4, h.qdcount);
    FieldAt(p, 6, h.ancount);
    FieldAt(p, 8, h.nscount);
    FieldAt(p, 10, h.arcount);
  }

  /**
   * A crafted message whose fields fit, with as many entries as its counts say and names that read back, comes back as
   * it was, with the octets of its names and the true lengths of its data.
   */
  lemma CraftedComesBack(m: Message)
    requires MessageCrafted(m)
    ensures Decoded(Encoded(m))
         == Message(m.head, AllCompleted(m.questions), AllCompleted(m.answers), AllCompleted(m.authorities),
                    AllCompleted(m.additionals))
    ensures Cursor(Encoded(m)) == |Encoded(m)|
  {
    hide HeadFits, HeadOf, HeadBytes, EntriesBytes, SectionCrafted, AllCompleted, Entries, Sits, Num;
    var p, w := Encoded(m), HeadBytes(m.head);
    var q, a, u := EntriesBytes(m.questions), EntriesBytes(m.answers), EntriesBytes(m.authorities);
    WholeAt(p);
    SitsSplit(p, 0, w + q + a + u, EntriesBytes(m.additionals));
    SitsSplit(p, 0, w + q + a, u);
    AtThree(p, 0, w, q, a);
    HeadBack(p, m.head);
    CountsAreNats(p);
    SectionBack(p, true, 12, m.questions);
    SectionBack(p, false, 12 + |q|, m.answers);
    SectionBack(p, false, 12 + |q| + |a|, m.authorities);
    SectionBack(p, false, 12 + |q| + |a| + |u|, m.additionals);
  }

  lemma WholeAt(p: seq<byte>)
    ensures Sits(p, 0, p)
  {
    assert p[0..|p|] == p;
  }

  // ---- fields that do not fit ----

  /** A field of an entry is written modulo its range. */
  lemma FieldsWrap(e: Entry)
    ensures e.Question? ==>
      && FixedBytes(e.(qtype := e.qtype + 0x1_0000)) == FixedBytes(e)
      && FixedBytes(e.(qclass := e.qclass + 0x1_0000)) == FixedBytes(e)
    ensures e.Record? ==>
      && FixedBytes(e.(kind := e.kind + 0x1_0000)) == FixedBytes(e)
      && FixedBytes(e.(recordClass := e.recordClass + 0x1_0000)) == FixedBytes(e)
      && FixedBytes(e.(ttl := e.ttl + 0x1_0000_0000)) == FixedBytes(e)
  {
    hide FromNat;
  }

  lemma FlagsWrap(f: Flags)
    ensures FirstFlags(f.(opcode := f.opcode + 16)) == FirstFlags(f)
    ensures SecondFlags(f.(rcode := f.rcode + 16)) == SecondFlags(f)
  {
  }

  /** A field of the header is written as the nearest number that fits. */
  lemma HeadFieldNearest(v: int)
    ensures v > 0xffff ==> Field16(v) == [0xff, 0xff]
    ensures v < 0 ==> Field16(v) == [0, 0]
  {
    assert FromNat(0xff, 1) == FromNat(0, 0) + [0xff] && FromNat(0, 1) == FromNat(0, 0) + [0];
    assert FromNat(0xffff, 2) == FromNat(0xff, 1) + [0xff] && FromNat(0, 2) == FromNat(0, 1) + [0];
  }

  /** Encoding a header records an issue for each field that does not fit, and for no other. */
  lemma HeadIssuesTell(h: Head)
    ensures HeadIssues(h) == []
       <==> Sixteen(h.id) && Sixteen(h.qdcount) && Sixteen(h.ancount) && Sixteen(h.nscount) && Sixteen(h.arcount)
    ensures AboveMaximum(0, "id") in HeadIssues(h) <==> h.id > 0xffff
    ensures AboveMaximum(0, "qdcount") in HeadIssues(h) <==> h.qdcount > 0xffff
    ensures AboveMaximum(0, "ancount") in HeadIssues(h) <==> h.ancount > 0xffff
    ensures AboveMaximum(0, "nscount") in HeadIssues(h) <==> h.nscount > 0xffff
    ensures AboveMaximum(0, "arcount") in HeadIssues(h) <==> h.arcount > 0xffff
  {
  }
}
