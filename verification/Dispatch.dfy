/** Next-layer selection: the dispatch tables built once, against a linear scan of the registered headers. */
module Dispatch {
  import opened Bytes
  import opened JsStrings
  import opened StableSort

  datatype Kind = UInt | Text | Guid | Octets

  /** A field whose value, put into a namespace, routes the next layer. */
  datatype Producer = Producer(field: string, ns: string, kind: Kind)

  /** A registered header class; its position in the registration list is its handle. */
  datatype Header = Header(id: string, matchKeys: seq<string>, priority: int, heuristicFallback: bool,
                           producers: seq<Producer>)

  const RAW: string := "raw"

  /** A JavaScript number: an integer, or anything else by its printed text. */
  datatype JsNumber = Integer(n: int) | Other(text: string)

  datatype Value = Num(number: JsNumber) | Str(text: string)

  /** `Number(string)` and `toLowerCase`, which the model leaves to the host. */
  datatype Host = Host(number: string -> JsNumber, lower: string -> string)

  /** What is used of them: case does not matter to a number, and nothing with a colon is one. */
  ghost predicate Lawful(js: Host)
  {
    && (forall s :: js.number(s).Integer? ==> js.number(js.lower(s)) == js.number(s))
    && (forall s :: js.number(js.lower(s)).Integer? ==> js.number(s) == js.number(js.lower(s)))
    && (forall s :: js.number(s).Integer? ==> ':' !in s)
  }

  // ---- keys ----

  function Digit(d: nat): char
    requires d < 10
  {
    '0' + d as char
  }

  function DecimalNat(n: nat): string
  {
    if n < 10 then [Digit(n)] else DecimalNat(n / 10) + [Digit(n % 10)]
  }

  /** `String(n)` for an integer. */
  function Decimal(n: int): string
  {
    if n < 0 then "-" + DecimalNat(-n) else DecimalNat(n)
  }

  function PrintedNumber(x: JsNumber): string { if x.Integer? then Decimal(x.n) else x.text }

  /** `String(raw)`. */
  function Printed(v: Value): string { if v.Num? then PrintedNumber(v.number) else v.text }

  function Normalised(js: Host, v: Value, kind: Kind): string
  {
    if kind.Guid? || kind.Octets? then js.lower(Printed(v)) else Printed(v)
  }

  function Key(js: Host, p: Producer, v: Value): string
  {
    p.ns + ":" + Normalised(js, v, p.kind)
  }

  /** The demux keys of a layer, in the order its producers are declared; absent fields give none. */
  function DemuxKeys(js: Host, producers: seq<Producer>, data: map<string, Value>): seq<string>
  {
    if producers == [] then []
    else
      var p := producers[0];
      (if p.field in data then [Key(js, p, data[p.field])] else []) + DemuxKeys(js, producers[1..], data)
  }

  predicate AllDigits(s: string) { forall k :: 0 <= k < |s| ==> '0' <= s[k] <= '9' }

  predicate Digits(s: string) { s != "" && AllDigits(s) }

  function DigitsValue(s: string): nat
    requires AllDigits(s)
  {
    if s == "" then 0 else DigitsValue(s[..|s| - 1]) * 10 + (s[|s| - 1] as int - '0' as int)
  }

  datatype KeyRange = KeyRange(ns: string, lo: nat, hi: nat)

  /** `namespace:LO-HI` with LO at most HI; anything else is an exact key. */
  function ParseRange(key: string): Option<KeyRange>
  {
    var colon := IndexOf(key, ':', 0);
    if colon <= 0 then None
    else
      var rest := key[colon + 1..];
      var dash := IndexOf(rest, '-', 0);
      if dash == -1 || !Digits(rest[..dash]) || !Digits(rest[dash + 1..]) then None
      else
        var lo, hi := DigitsValue(rest[..dash]), DigitsValue(rest[dash + 1..]);
        if lo > hi then None else Some(KeyRange(key[..colon], lo, hi))
  }

  predicate Exact(h: Header, key: string)
  {
    key in h.matchKeys && ParseRange(key).None?
  }

  predicate Covers(m: string, ns: string, value: int)
  {
    ParseRange(m).Some? && ParseRange(m).value.ns == ns && ParseRange(m).value.lo <= value <= ParseRange(m).value.hi
  }

  predicate CoveredBy(keys: seq<string>, ns: string, value: int)
  {
    exists k :: 0 <= k < |keys| && Covers(keys[k], ns, value)
  }

  predicate InRange(h: Header, ns: string, value: int)
  {
    CoveredBy(h.matchKeys, ns, value)
  }

  /** Tried by content: headers without keys, and keyed ones that opt in. */
  predicate Heuristic(h: Header)
  {
    h.matchKeys == [] || h.heuristicFallback
  }

  // ---- the tables, as functions of the registration list ----

  datatype RangeEntry = RangeEntry(lo: nat, hi: nat, header: nat)

  /** The handle `i` once for every key of `keys` equal to the exact key `key`. */
  function Hits(keys: seq<string>, key: string, i: nat): seq<nat>
  {
    if keys == [] then []
    else Hits(keys[..|keys| - 1], key, i) + if keys[|keys| - 1] == key && ParseRange(key).None? then [i] else []
  }

  function Bucket(hs: seq<Header>, key: string): seq<nat>
  {
    if hs == [] then []
    else
      var i := |hs| - 1;
      Bucket(hs[..i], key) + if hs[i].id == RAW then [] else Hits(hs[i].matchKeys, key, i)
  }

  function RangeHits(keys: seq<string>, ns: string, i: nat): seq<RangeEntry>
  {
    if keys == [] then []
    else
      var r := ParseRange(keys[|keys| - 1]);
      RangeHits(keys[..|keys| - 1], ns, i)
        + if r.Some? && r.value.ns == ns then [RangeEntry(r.value.lo, r.value.hi, i)] else []
  }

  function Ranges(hs: seq<Header>, ns: string): seq<RangeEntry>
  {
    if hs == [] then []
    else
      var i := |hs| - 1;
      Ranges(hs[..i], ns) + if hs[i].id == RAW then [] else RangeHits(hs[i].matchKeys, ns, i)
  }

  function Heuristics(hs: seq<Header>): seq<nat>
  {
    if hs == [] then []
    else
      var i := |hs| - 1;
      Heuristics(hs[..i]) + if hs[i].id != RAW && Heuristic(hs[i]) then [i] else []
  }

  /** The last registered catch-all; the built-in one when there is none. */
  function RawOf(hs: seq<Header>): Option<nat>
  {
    if hs == [] then None else if hs[|hs| - 1].id == RAW then Some(|hs| - 1) else RawOf(hs[..|hs| - 1])
  }

  /** The first header registered under an id. */
  function FirstWith(hs: seq<Header>, id: string): (r: Option<nat>)
    ensures r.Some? ==> r.value < |hs| && hs[r.value].id == id && forall k :: 0 <= k < r.value ==> hs[k].id != id
    ensures r.None? ==> forall k :: 0 <= k < |hs| ==> hs[k].id != id
  {
    if hs == [] then None
    else
      var r := FirstWith(hs[..|hs| - 1], id);
      if r.Some? then r else if hs[|hs| - 1].id == id then Some(|hs| - 1) else None
  }

  function Priority(hs: seq<Header>, i: nat): int
  {
    if i < |hs| then hs[i].priority else 0
  }

  function Rank(hs: seq<Header>): nat -> int { (i: nat) => Priority(hs, i) }

  function RangeRank(hs: seq<Header>): RangeEntry -> int { (r: RangeEntry) => Priority(hs, r.header) }

  function SortedBucket(hs: seq<Header>, key: string): seq<nat>
  {
    Sort(Bucket(hs, key), Rank(hs))
  }

  function SortedRanges(hs: seq<Header>, ns: string): seq<RangeEntry>
  {
    Sort(Ranges(hs, ns), RangeRank(hs))
  }

  function SortedHeuristics(hs: seq<Header>): seq<nat>
  {
    Sort(Heuristics(hs), Rank(hs))
  }

  // ---- selection, as the code walks it ----

  datatype Choice = Chosen(header: nat) | Fallback

  function FirstAccepted(s: seq<nat>, accepts: nat -> bool): Option<nat>
  {
    if s == [] then None else if accepts(s[0]) then Some(s[0]) else FirstAccepted(s[1..], accepts)
  }

  predicate Admits(r: RangeEntry, value: int, accepts: nat -> bool)
  {
    r.lo <= value <= r.hi && accepts(r.header)
  }

  function FirstAdmitted(s: seq<RangeEntry>, value: int, accepts: nat -> bool): Option<nat>
  {
    if s == [] then None else if Admits(s[0], value, accepts) then Some(s[0].header)
    else FirstAdmitted(s[1..], value, accepts)
  }

  /** The namespace before a key's first colon and the integer after it, when both are there. */
  function RangeValue(js: Host, key: string): Option<(string, int)>
  {
    var colon := IndexOf(key, ':', 0);
    if colon <= 0 then None
    else
      var x := js.number(key[colon + 1..]);
      if x.Integer? then Some((key[..colon], x.n)) else None
  }

  function ByRange(hs: seq<Header>, js: Host, key: string, accepts: nat -> bool): Option<nat>
  {
    var v := RangeValue(js, key);
    if v.None? then None else FirstAdmitted(SortedRanges(hs, v.value.0), v.value.1, accepts)
  }

  function ByKey(hs: seq<Header>, js: Host, key: string, accepts: nat -> bool): Option<nat>
  {
    var exact := FirstAccepted(SortedBucket(hs, key), accepts);
    if exact.Some? then exact else ByRange(hs, js, key, accepts)
  }

  function ByKeys(hs: seq<Header>, js: Host, keys: seq<string>, accepts: nat -> bool): Option<nat>
  {
    if keys == [] then None
    else if ByKey(hs, js, keys[0], accepts).Some? then ByKey(hs, js, keys[0], accepts)
    else ByKeys(hs, js, keys[1..], accepts)
  }

  function OrRaw(r: Option<nat>): Choice { if r.Some? then Chosen(r.value) else Fallback }

  function Select(hs: seq<Header>, js: Host, keys: seq<string>, accepts: nat -> bool): Choice
  {
    var keyed := ByKeys(hs, js, keys, accepts);
    if keyed.Some? then Chosen(keyed.value)
    else
      var byContent := FirstAccepted(SortedHeuristics(hs), accepts);
      if byContent.Some? then Chosen(byContent.value) else OrRaw(RawOf(hs))
  }

  // ---- what the tables hold ----

  lemma {:induction false} HitsAre(keys: seq<string>, key: string, i: nat)
    ensures forall k :: 0 <= k < |Hits(keys, key, i)| ==> Hits(keys, key, i)[k] == i
    ensures Hits(keys, key, i) != [] <==> key in keys && ParseRange(key).None?
    decreases |keys|
  {
    hide ParseRange;
    if keys != [] {
      HitsAre(keys[..|keys| - 1], key, i);
      assert keys == keys[..|keys| - 1] + [keys[|keys| - 1]];
    }
  }

  /** The entries a header adds to a bucket. */
  function Added(hs: seq<Header>, n: nat, key: string): seq<nat>
    requires n < |hs|
  {
    if hs[n].id == RAW then [] else Hits(hs[n].matchKeys, key, n)
  }

  lemma AddedHolds(hs: seq<Header>, n: nat, key: string, i: nat)
    requires n < |hs|
    ensures i in Added(hs, n, key) <==> i == n && hs[n].id != RAW && Exact(hs[n], key)
    ensures forall k :: 0 <= k < |Added(hs, n, key)| ==> Added(hs, n, key)[k] == n
  {
    hide ParseRange;
    HitsAre(hs[n].matchKeys, key, n);
    var more := Added(hs, n, key);
    assert more != [] ==> more[0] in more;
  }

  lemma {:induction false} BucketHolds(hs: seq<Header>, key: string, i: nat)
    ensures i in Bucket(hs, key) <==> i < |hs| && hs[i].id != RAW && Exact(hs[i], key)
    decreases |hs|
  {
    hide ParseRange, Exact, Hits;
    if hs != [] {
      var n := |hs| - 1;
      BucketHolds(hs[..n], key, i);
      AddedHolds(hs, n, key, i);
      InEither(Bucket(hs[..n], key), Added(hs, n, key), i);
    }
  }

  function Self(i: nat): int { i }

  lemma OrderAppend(a: seq<nat>, b: seq<nat>, n: nat)
    requires InOrder(a, Self) && (forall x :: x in a ==> x < n) && (forall k :: 0 <= k < |b| ==> b[k] == n)
    ensures InOrder(a + b, Self)
  {
    assert forall k :: 0 <= k < |a| ==> a[k] in a;
  }

  lemma {:induction false} BucketInOrder(hs: seq<Header>, key: string)
    ensures InOrder(Bucket(hs, key), Self)
    decreases |hs|
  {
    hide ParseRange, Exact, Hits;
    if hs != [] {
      var n := |hs| - 1;
      BucketInOrder(hs[..n], key);
      AddedHolds(hs, n, key, n);
      forall x | x in Bucket(hs[..n], key) ensures x < n {
        BucketHolds(hs[..n], key, x);
      }
      OrderAppend(Bucket(hs[..n], key), Added(hs, n, key), n);
    }
  }

  lemma InEither<T>(a: seq<T>, b: seq<T>, x: T)
    ensures x in a + b <==> x in a || x in b
  {
  }

  /** Some entry of `s` for header `i` covers the value. */
  predicate CoversFor(s: seq<RangeEntry>, i: nat, value: int)
  {
    exists k :: 0 <= k < |s| && s[k].header == i && s[k].lo <= value <= s[k].hi
  }

  lemma CoversForEither(a: seq<RangeEntry>, b: seq<RangeEntry>, i: nat, value: int)
    ensures CoversFor(a + b, i, value) <==> CoversFor(a, i, value) || CoversFor(b, i, value)
  {
    if CoversFor(a, i, value) {
      var k :| 0 <= k < |a| && a[k].header == i && a[k].lo <= value <= a[k].hi;
      assert (a + b)[k] == a[k];
    }
    if CoversFor(b, i, value) {
      var k :| 0 <= k < |b| && b[k].header == i && b[k].lo <= value <= b[k].hi;
      assert (a + b)[|a| + k] == b[k];
    }
  }

  lemma CoveredByEither(a: seq<string>, b: seq<string>, ns: string, value: int)
    ensures CoveredBy(a + b, ns, value) <==> CoveredBy(a, ns, value) || CoveredBy(b, ns, value)
  {
    hide Covers;
    if CoveredBy(a, ns, value) {
      var k :| 0 <= k < |a| && Covers(a[k], ns, value);
      assert (a + b)[k] == a[k];
    }
    if CoveredBy(b, ns, value) {
      var k :| 0 <= k < |b| && Covers(b[k], ns, value);
      assert (a + b)[|a| + k] == b[k];
    }
  }

  predicate AllFor(s: seq<RangeEntry>, i: nat) { forall k :: 0 <= k < |s| ==> s[k].header == i }

  lemma {:induction false} RangeHitsAre(keys: seq<string>, ns: string, i: nat, value: int)
    ensures AllFor(RangeHits(keys, ns, i), i)
    ensures CoversFor(RangeHits(keys, ns, i), i, value) <==> CoveredBy(keys, ns, value)
    decreases |keys|
  {
    hide ParseRange;
    if keys != [] {
      var front, last := keys[..|keys| - 1], keys[|keys| - 1];
      RangeHitsAre(front, ns, i, value);
      assert keys == front + [last];
      CoveredByEither(front, [last], ns, value);
      assert CoveredBy([last], ns, value) <==> Covers([last][0], ns, value);
      var r := ParseRange(last);
      var more := if r.Some? && r.value.ns == ns then [RangeEntry(r.value.lo, r.value.hi, i)] else [];
      CoversForEither(RangeHits(front, ns, i), more, i, value);
      assert more != [] ==> (CoversFor(more, i, value) <==> more[0].lo <= value <= more[0].hi);
    }
  }

  predicate AllBelow(s: seq<RangeEntry>, n: nat) { forall k :: 0 <= k < |s| ==> s[k].header < n }

  lemma {:induction false} RangesHold(hs: seq<Header>, ns: string, value: int, i: nat)
    ensures CoversFor(Ranges(hs, ns), i, value) <==> i < |hs| && hs[i].id != RAW && InRange(hs[i], ns, value)
    ensures AllBelow(Ranges(hs, ns), |hs|)
    decreases |hs|
  {
    hide InRange, RangeHits, CoversFor;
    NoEntries(i, value);
    if hs != [] {
      var n := |hs| - 1;
      RangesHold(hs[..n], ns, value, i);
      AddedRangesHold(hs, n, ns, i, value);
      CoversForEither(Ranges(hs[..n], ns), AddedRanges(hs, n, ns), i, value);
    }
  }

  lemma NoEntries(i: nat, value: int)
    ensures !CoversFor([], i, value)
  {
  }

  /** The entries a header adds to a namespace's ranges. */
  function AddedRanges(hs: seq<Header>, n: nat, ns: string): seq<RangeEntry>
    requires n < |hs|
  {
    if hs[n].id == RAW then [] else RangeHits(hs[n].matchKeys, ns, n)
  }

  lemma AddedRangesHold(hs: seq<Header>, n: nat, ns: string, i: nat, value: int)
    requires n < |hs|
    ensures CoversFor(AddedRanges(hs, n, ns), i, value) <==> i == n && hs[n].id != RAW && InRange(hs[n], ns, value)
    ensures AllFor(AddedRanges(hs, n, ns), n)
  {
    hide CoveredBy, RangeHits;
    RangeHitsAre(hs[n].matchKeys, ns, n, value);
  }

  function HeaderOf(r: RangeEntry): int { r.header }

  lemma {:induction false} RangesInOrder(hs: seq<Header>, ns: string)
    ensures InOrder(Ranges(hs, ns), HeaderOf)
    decreases |hs|
  {
    if hs != [] {
      var n := |hs| - 1;
      RangesInOrder(hs[..n], ns);
      RangesHold(hs[..n], ns, 0, 0);
      AddedRangesHold(hs, n, ns, 0, 0);
      assert Ranges(hs, ns) == Ranges(hs[..n], ns) + AddedRanges(hs, n, ns);
    }
  }

  lemma {:induction false} HeuristicsHold(hs: seq<Header>, i: nat)
    ensures i in Heuristics(hs) <==> i < |hs| && hs[i].id != RAW && Heuristic(hs[i])
    decreases |hs|
  {
    if hs != [] { HeuristicsHold(hs[..|hs| - 1], i); }
  }

  lemma {:induction false} HeuristicsInOrder(hs: seq<Header>)
    ensures InOrder(Heuristics(hs), Self)
    decreases |hs|
  {
    if hs != [] {
      var n := |hs| - 1;
      HeuristicsInOrder(hs[..n]);
      forall x | x in Heuristics(hs[..n]) ensures x < n {
        HeuristicsHold(hs[..n], x);
      }
      OrderAppend(Heuristics(hs[..n]), if hs[n].id != RAW && Heuristic(hs[n]) then [n] else [], n);
    }
  }
}
