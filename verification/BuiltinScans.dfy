/** Statistics scanned from the index columns, against the reducers over decoded and over synthesized frames. */
module BuiltinScans {
  import opened Bytes
  import opened ColumnarStore
  import opened Conversation
  import opened DisplayFilter
  import opened FrameIndexer
  import opened Statistics

  type Keys = map<Hash32, string>

  /** The retained records, in order. */
  function Retained(w: Window): (r: seq<FrameIndexRecord>)
    ensures |r| == Max(0, |w.log| - w.first)
  {
    seq(Max(0, |w.log| - w.first),
        k requires 0 <= k < |w.log| - w.first => FrameIndexRecord(w.first + k, w.log[w.first + k]))
  }

  // ---- conversations ----

  /** The summary of a record's conversation before the record is counted; None when its hash has no key. */
  function SummaryFor(m: map<int, Option<ConversationSummary>>, r: FrameIndexRecord,
                      keys: Keys): Option<ConversationSummary>
  {
    var h := r.row.conversationHash;
    if h in m then m[h]
    else if Lookup(keys, h).None? then None
    else
      var p := ParseKey(Lookup(keys, h).value);
      Some(Opened(p.protocol, p.a, p.b, r.row.timestamp, r.index))
  }

  function CountedRow(c: ConversationSummary, r: FrameIndexRecord): ConversationSummary
  {
    Counted(c, r.row.capturedLength, r.row.directionForward != 0, r.row.timestamp, r.index)
  }

  function ScanStep(m: map<int, Option<ConversationSummary>>, r: FrameIndexRecord,
                    keys: Keys): map<int, Option<ConversationSummary>>
  {
    var c := SummaryFor(m, r, keys);
    m[r.row.conversationHash := if c.None? then None else Some(CountedRow(c.value, r))]
  }

  function Scanned(rows: seq<FrameIndexRecord>, keys: Keys): map<int, Option<ConversationSummary>>
  {
    if rows == [] then map[] else ScanStep(Scanned(rows[..|rows| - 1], keys), rows[|rows| - 1], keys)
  }

  function Summaries(m: map<int, Option<ConversationSummary>>): set<ConversationSummary>
  {
    set h | h in m && m[h].Some? :: m[h].value
  }

  /** A reducer's result, as a set of entries. */
  function Results<T>(table: map<string, T>): set<T>
  {
    set key | key in table :: table[key]
  }

  /** The record at a retained number. */
  method RowAt(store: ColumnarIndexStore, i: nat) returns (r: FrameIndexRecord)
    requires store.Valid() && store.base <= i < |store.log|
    ensures store.Valid() && r == Retained(store.View())[i - store.base]
  {
    var found := store.Get(i);
    r := found.value;
  }

  method ComputeConversations(store: ColumnarIndexStore, keys: Keys) returns (out: set<ConversationSummary>)
    requires store.Valid()
    ensures store.Valid() && out == Summaries(Scanned(Retained(store.View()), keys))
  {
    hide ParseKey, SummaryFor, CountedRow, Retained;
    ghost var rows := Retained(store.View());
    var byHash: map<int, Option<ConversationSummary>> := map[];
    var first: nat := store.base;
    var count := store.Count();
    var i: nat := 0;
    while i < count
      invariant i <= count && byHash == Scanned(rows[..i], keys)
    {
      var record := RowAt(store, first + i);
      assert rows[..i + 1][..i] == rows[..i];
      var c := SummaryFor(byHash, record, keys);
      byHash := byHash[record.row.conversationHash := if c.None? then None else Some(CountedRow(c.value, record))];
      i := i + 1;
    }
    assert rows[..i] == rows;
    out := Summaries(byHash);
  }

  // ---- endpoints ----

  datatype EndpointScan = EndpointScan(endpoints: map<string, EndpointSummary>,
                                       pairs: map<int, Option<(string, string)>>)

  function GetOrCreate(table: map<string, EndpointSummary>, address: string): map<string, EndpointSummary>
  {
    if address in table then table else table[address := Zero(address)]
  }

  /** Resolves the pair of a record's hash, creating both entries on first sight. */
  function Resolved(st: EndpointScan, h: int, keys: Keys): EndpointScan
  {
    if h in st.pairs then st
    else if Lookup(keys, h).None? then st.(pairs := st.pairs[h := None])
    else
      var p := ParseKey(Lookup(keys, h).value);
      EndpointScan(GetOrCreate(GetOrCreate(st.endpoints, p.a), p.b), st.pairs[h := Some((p.a, p.b))])
  }

  function PairStep(st: EndpointScan, r: FrameIndexRecord, keys: Keys): EndpointScan
  {
    var now := Resolved(st, r.row.conversationHash, keys);
    var pair := now.pairs[r.row.conversationHash];
    if pair.None? then now
    else
      var (a, b) := pair.value;
      var source, destination :=
        if r.row.directionForward != 0 then a else b, if r.row.directionForward != 0 then b else a;
      now.(endpoints := Accounted(Accounted(now.endpoints, source, r.row.capturedLength, true), destination,
                                  r.row.capturedLength, false))
  }

  function EndpointScanned(rows: seq<FrameIndexRecord>, keys: Keys): EndpointScan
  {
    if rows == [] then EndpointScan(map[], map[])
    else PairStep(EndpointScanned(rows[..|rows| - 1], keys), rows[|rows| - 1], keys)
  }

  method ComputeEndpoints(store: ColumnarIndexStore, keys: Keys) returns (out: set<EndpointSummary>)
    requires store.Valid()
    ensures store.Valid() && out == Results(EndpointScanned(Retained(store.View()), keys).endpoints)
  {
    hide PairStep, Retained;
    ghost var rows := Retained(store.View());
    var st := EndpointScan(map[], map[]);
    var first: nat := store.base;
    var count := store.Count();
    var i: nat := 0;
    while i < count
      invariant i <= count && st == EndpointScanned(rows[..i], keys)
    {
      var record := RowAt(store, first + i);
      assert rows[..i + 1][..i] == rows[..i];
      st := PairStep(st, record, keys);
      i := i + 1;
    }
    assert rows[..i] == rows;
    out := Results(st.endpoints);
  }

  // ---- agreement with the reducers ----

  /** A record and a sample say the same of a frame, and the record's hash leads back to the frame's key. */
  predicate Agrees(keys: Keys, r: FrameIndexRecord, s: Sample)
  {
    && r.index == s.index && r.row.capturedLength == s.length && r.row.timestamp == s.timestamp
    && r.row.directionForward == Direction(s.flow)
    && Lookup(keys, r.row.conversationHash) == (if s.flow.Some? then Some(CanonicalKey(s.flow.value)) else None)
    && (s.flow.Some? ==> Plain(s.flow.value))
  }

  predicate AllAgree(keys: Keys, rows: seq<FrameIndexRecord>, samples: seq<Sample>)
  {
    |rows| == |samples| && forall k :: 0 <= k < |rows| ==> Agrees(keys, rows[k], samples[k])
  }

  /** Each key is stored under its own hash. */
  ghost predicate OwnHash(hash: string -> Hash32, keys: Keys)
  {
    forall h :: h in keys ==> hash(keys[h]) == h
  }

  /** A hash's summary is its key's entry in the reducer's table. */
  predicate Tied(keys: Keys, h: int, c: Option<ConversationSummary>, table: map<string, ConversationSummary>)
  {
    var key := Lookup(keys, h);
    if key.None? then c == None else key.value in table && c == Some(table[key.value])
  }

  ghost predicate InStep(hash: string -> Hash32, keys: Keys, m: map<int, Option<ConversationSummary>>,
                         table: map<string, ConversationSummary>)
  {
    && (forall h :: h in m ==> Tied(keys, h, m[h], table))
    && (forall key :: key in table ==> hash(key) in m && Lookup(keys, hash(key)) == Some(key))
  }

  lemma KeyedStep(hash: string -> Hash32, keys: Keys, m: map<int, Option<ConversationSummary>>,
                  table: map<string, ConversationSummary>,
                  h: int, key: string, c: ConversationSummary)
    requires OwnHash(hash, keys) && InStep(hash, keys, m, table) && Lookup(keys, h) == Some(key)
    ensures InStep(hash, keys, m[h := Some(c)], table[key := c])
  {
    assert hash(key) == h;
  }

  lemma KeylessStep(hash: string -> Hash32, keys: Keys, m: map<int, Option<ConversationSummary>>,
                    table: map<string, ConversationSummary>, h: int)
    requires InStep(hash, keys, m, table) && Lookup(keys, h) == None
    ensures InStep(hash, keys, m[h := None], table)
  {
  }

  /** The scan's summary of a conversation so far is the reducer's. */
  lemma SummaryTied(hash: string -> Hash32, keys: Keys, m: map<int, Option<ConversationSummary>>,
                    table: map<string, ConversationSummary>,
                    r: FrameIndexRecord, key: string)
    requires OwnHash(hash, keys) && InStep(hash, keys, m, table) && Lookup(keys, r.row.conversationHash) == Some(key)
    ensures var p := ParseKey(key);
      SummaryFor(m, r, keys)
        == Some(if key in table then table[key] else Opened(p.protocol, p.a, p.b, r.row.timestamp, r.index))
  {
    hide ParseKey;
    assert hash(key) == r.row.conversationHash;
  }

  lemma DirectionBit(f: Flow)
    ensures (Direction(Some(f)) != 0) == Forward(f)
  {
  }

  lemma {:induction false} ScanInStep(hash: string -> Hash32, keys: Keys, rows: seq<FrameIndexRecord>,
                                      samples: seq<Sample>)
    requires OwnHash(hash, keys) && AllAgree(keys, rows, samples)
    ensures InStep(hash, keys, Scanned(rows, keys), Conversations(samples))
    decreases |rows|
  {
    hide InStep, OwnHash, SummaryFor, Counted, CanonicalKey, ParseKey, Plain, EndpointA, EndpointB, Forward, Lookup;
    if rows == [] {
      NothingScanned(hash, keys);
    } else {
      var n := |rows| - 1;
      ScanInStep(hash, keys, rows[..n], samples[..n]);
      var m, table, r, s := Scanned(rows[..n], keys), Conversations(samples[..n]), rows[n], samples[n];
      var h := r.row.conversationHash;
      assert Agrees(keys, r, s);
      if s.flow.Some? {
        var f := s.flow.value;
        var key := CanonicalKey(f);
        KeyParses(f);
        DirectionBit(f);
        SummaryTied(hash, keys, m, table, r, key);
        KeyedStep(hash, keys, m, table, h, key, CountedRow(SummaryFor(m, r, keys).value, r));
      } else {
        assert SummaryFor(m, r, keys) == None by { KeylessSummary(hash, keys, m, table, r); }
        KeylessStep(hash, keys, m, table, h);
      }
    }
  }

  lemma KeylessSummary(hash: string -> Hash32, keys: Keys, m: map<int, Option<ConversationSummary>>,
                       table: map<string, ConversationSummary>, r: FrameIndexRecord)
    requires InStep(hash, keys, m, table) && Lookup(keys, r.row.conversationHash) == None
    ensures SummaryFor(m, r, keys) == None
  {
  }

  lemma NothingScanned(hash: string -> Hash32, keys: Keys)
    ensures InStep(hash, keys, map[], map[])
  {
  }

  lemma SameSummaries(hash: string -> Hash32, keys: Keys, m: map<int, Option<ConversationSummary>>,
                      table: map<string, ConversationSummary>)
    requires InStep(hash, keys, m, table)
    ensures Summaries(m) == Results(table)
  {
    forall c ensures c in Summaries(m) <==> c in Results(table) {
      if c in Summaries(m) {
        var h :| h in m && m[h] == Some(c);
        assert Tied(keys, h, m[h], table);
        assert Lookup(keys, h).value in table;
      }
      if c in Results(table) {
        var key :| key in table && table[key] == c;
        assert Tied(keys, hash(key), m[hash(key)], table);
      }
    }
  }

  // ---- endpoints agree ----

  ghost predicate PairsInStep(keys: Keys, st: EndpointScan)
  {
    forall h :: h in st.pairs ==> PairTied(keys, h, st.pairs[h], st.endpoints)
  }

  predicate PairTied(keys: Keys, h: int, pair: Option<(string, string)>, endpoints: map<string, EndpointSummary>)
  {
    var key := Lookup(keys, h);
    if key.None? then pair == None
    else
      && pair == Some((ParseKey(key.value).a, ParseKey(key.value).b))
      && pair.value.0 in endpoints && pair.value.1 in endpoints
  }

  lemma CreditingCreates(t: map<string, EndpointSummary>, a: string, b: string, x: string, y: string, length: int)
    requires (x == a && y == b) || (x == b && y == a)
    ensures Accounted(Accounted(GetOrCreate(GetOrCreate(t, a), b), x, length, true), y, length, false)
         == Accounted(Accounted(t, x, length, true), y, length, false)
  {
  }

  /** After resolving, the pair of a keyed hash is the key's, and both its addresses have entries. */
  lemma ResolvedTied(keys: Keys, st: EndpointScan, h: int)
    requires PairsInStep(keys, st)
    ensures var now := Resolved(st, h, keys);
      && PairsInStep(keys, now) && h in now.pairs && PairTied(keys, h, now.pairs[h], now.endpoints)
      && now.endpoints == if Lookup(keys, h).None? then st.endpoints
                          else var p := ParseKey(Lookup(keys, h).value);
                          GetOrCreate(GetOrCreate(st.endpoints, p.a), p.b)
  {
    hide ParseKey, Lookup;
    if h in st.pairs { assert PairTied(keys, h, st.pairs[h], st.endpoints); }
  }

  lemma MoreEntries(keys: Keys, st: EndpointScan, endpoints: map<string, EndpointSummary>)
    requires PairsInStep(keys, st) && st.endpoints.Keys <= endpoints.Keys
    ensures PairsInStep(keys, st.(endpoints := endpoints))
  {
    hide ParseKey, Lookup;
    forall h | h in st.pairs ensures PairTied(keys, h, st.pairs[h], endpoints) {
      assert PairTied(keys, h, st.pairs[h], st.endpoints);
    }
  }

  lemma {:induction false} EndpointsAgree(keys: Keys, rows: seq<FrameIndexRecord>, samples: seq<Sample>)
    requires AllAgree(keys, rows, samples)
    ensures PairsInStep(keys, EndpointScanned(rows, keys))
      && EndpointScanned(rows, keys).endpoints == Endpoints(samples)
    decreases |rows|
  {
    hide PairsInStep, Resolved, Credited, CanonicalKey, ParseKey, Plain, Lookup, GetOrCreate, Direction;
    if rows == [] {
      NoPairs(keys);
    } else {
      var n := |rows| - 1;
      EndpointsAgree(keys, rows[..n], samples[..n]);
      var st, r, s := EndpointScanned(rows[..n], keys), rows[n], samples[n];
      assert Agrees(keys, r, s);
      ResolvedTied(keys, st, r.row.conversationHash);
      if s.flow.Some? {
        var f := s.flow.value;
        KeyAndDirection(f);
        var p, now := ParseKey(CanonicalKey(f)), Resolved(st, r.row.conversationHash, keys);
        CreditingCreates(st.endpoints, p.a, p.b, f.source, f.destination, s.length);
        MoreEntries(keys, now, PairStep(st, r, keys).endpoints);
      }
    }
  }

  lemma NoPairs(keys: Keys)
    ensures PairsInStep(keys, EndpointScan(map[], map[]))
  {
  }
}
