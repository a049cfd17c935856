/** The codec object: its tables built once from the registration list, and next-layer selection through them. */
module Codec {
  import opened Bytes
  import opened Dispatch
  import opened JsStrings
  import opened LinearScan
  import opened StableSort

  function At<T>(m: map<string, seq<T>>, key: string): seq<T>
  {
    if key in m then m[key] else []
  }

  /** The buckets, as a table, are those of a function of the key; only non-empty buckets are present. */
  ghost predicate Tabulates<T(!new)>(m: map<string, seq<T>>, f: string -> seq<T>)
  {
    forall key :: At(m, key) == f(key) && (key in m <==> f(key) != [])
  }

  lemma TabulateAppend<T(!new)>(m: map<string, seq<T>>, f: string -> seq<T>, key: string, x: T, g: string -> seq<T>)
    requires Tabulates(m, f)
    requires forall k :: g(k) == f(k) + if k == key then [x] else []
    ensures Tabulates(m[key := At(m, key) + [x]], g)
  {
  }

  lemma TabulateSame<T(!new)>(m: map<string, seq<T>>, f: string -> seq<T>, g: string -> seq<T>)
    requires Tabulates(m, f) && forall k :: g(k) == f(k)
    ensures Tabulates(m, g)
  {
  }

  function BucketsOf(hs: seq<Header>): string -> seq<nat> { (key: string) => Bucket(hs, key) }

  function RangesOf(hs: seq<Header>): string -> seq<RangeEntry> { (ns: string) => Ranges(hs, ns) }

  /** The buckets once the first `j` keys of header `i` have been entered. */
  function BucketsWith(hs: seq<Header>, i: nat, keys: seq<string>): string -> seq<nat>
    requires i <= |hs|
  {
    (key: string) => Bucket(hs[..i], key) + Hits(keys, key, i)
  }

  function RangesWith(hs: seq<Header>, i: nat, keys: seq<string>): string -> seq<RangeEntry>
    requires i <= |hs|
  {
    (ns: string) => Ranges(hs[..i], ns) + RangeHits(keys, ns, i)
  }

  function KeyHit(last: string, key: string, i: nat): seq<nat>
  {
    if last == key && ParseRange(key).None? then [i] else []
  }

  function RangeHit(last: string, ns: string, i: nat): seq<RangeEntry>
  {
    var r := ParseRange(last);
    if r.Some? && r.value.ns == ns then [RangeEntry(r.value.lo, r.value.hi, i)] else []
  }

  lemma HitsGrow(hs: seq<Header>, i: nat, keys: seq<string>, last: string)
    requires i <= |hs|
    ensures forall key :: BucketsWith(hs, i, keys + [last])(key) == BucketsWith(hs, i, keys)(key) + KeyHit(last, key, i)
  {
    hide ParseRange;
    assert (keys + [last])[..|keys|] == keys;
    forall key ensures BucketsWith(hs, i, keys + [last])(key) == BucketsWith(hs, i, keys)(key) + KeyHit(last, key, i) {
      AppendAssociates(Bucket(hs[..i], key), Hits(keys, key, i), KeyHit(last, key, i));
    }
  }

  lemma RangeHitsGrow(hs: seq<Header>, i: nat, keys: seq<string>, last: string)
    requires i <= |hs|
    ensures forall ns :: RangesWith(hs, i, keys + [last])(ns) == RangesWith(hs, i, keys)(ns) + RangeHit(last, ns, i)
  {
    hide ParseRange;
    assert (keys + [last])[..|keys|] == keys;
    forall ns ensures RangesWith(hs, i, keys + [last])(ns) == RangesWith(hs, i, keys)(ns) + RangeHit(last, ns, i) {
      AppendAssociates(Ranges(hs[..i], ns), RangeHits(keys, ns, i), RangeHit(last, ns, i));
    }
  }

  lemma BucketsEntered(hs: seq<Header>, i: nat)
    requires i < |hs|
    ensures hs[i].id != RAW ==> forall key :: BucketsOf(hs[..i + 1])(key) == BucketsWith(hs, i, hs[i].matchKeys)(key)
    ensures hs[i].id == RAW ==> forall key :: BucketsOf(hs[..i + 1])(key) == BucketsOf(hs[..i])(key)
    ensures forall key :: BucketsWith(hs, i, [])(key) == BucketsOf(hs[..i])(key)
  {
    hide ParseRange;
    assert hs[..i + 1][..i] == hs[..i];
    forall key ensures Bucket(hs[..i + 1], key) == Bucket(hs[..i], key) + Added(hs, i, key) {
    }
  }

  lemma RangesEntered(hs: seq<Header>, i: nat)
    requires i < |hs|
    ensures hs[i].id != RAW ==> forall ns :: RangesOf(hs[..i + 1])(ns) == RangesWith(hs, i, hs[i].matchKeys)(ns)
    ensures hs[i].id == RAW ==> forall ns :: RangesOf(hs[..i + 1])(ns) == RangesOf(hs[..i])(ns)
    ensures forall ns :: RangesWith(hs, i, [])(ns) == RangesOf(hs[..i])(ns)
  {
    hide ParseRange;
    assert hs[..i + 1][..i] == hs[..i];
    forall ns ensures Ranges(hs[..i + 1], ns) == Ranges(hs[..i], ns) + AddedRanges(hs, i, ns) {
    }
  }

  lemma HeaderEntered(hs: seq<Header>, i: nat)
    requires i < |hs|
    ensures Heuristics(hs[..i + 1]) == Heuristics(hs[..i]) + if hs[i].id != RAW && Heuristic(hs[i]) then [i] else []
    ensures RawOf(hs[..i + 1]) == if hs[i].id == RAW then Some(i) else RawOf(hs[..i])
    ensures forall id ::
      FirstWith(hs[..i + 1], id)
        == if FirstWith(hs[..i], id).None? && hs[i].id == id then Some(i) else FirstWith(hs[..i], id)
  {
    assert hs[..i + 1][..i] == hs[..i];
  }

  function ById(m: map<string, nat>, id: string): Option<nat>
  {
    if id in m then Some(m[id]) else None
  }

  /** The first registration of an id stays. */
  lemma IdEntered(m: map<string, nat>, hs: seq<Header>, i: nat)
    requires i < |hs| && forall id :: ById(m, id) == FirstWith(hs[..i], id)
    ensures var m' := if hs[i].id in m then m else m[hs[i].id := i];
      forall id :: ById(m', id) == FirstWith(hs[..i + 1], id)
  {
    hide FirstWith;
    HeaderEntered(hs, i);
    var m' := if hs[i].id in m then m else m[hs[i].id := i];
    forall id ensures ById(m', id) == FirstWith(hs[..i + 1], id) {
      assert ById(m, id) == FirstWith(hs[..i], id);
      assert ById(m, hs[i].id) == FirstWith(hs[..i], hs[i].id);
    }
  }

  lemma SortedTable<T(!new)>(m: map<string, seq<T>>, f: string -> seq<T>, rank: T -> int)
    requires Tabulates(m, f)
    ensures forall key :: At(SortTable(m, rank), key) == Sort(f(key), rank)
  {
    forall key ensures At(SortTable(m, rank), key) == Sort(f(key), rank) {
      assert At(m, key) == f(key);
    }
  }

  /** Every bucket sorted in its place. */
  function SortTable<T>(m: map<string, seq<T>>, rank: T -> int): map<string, seq<T>>
  {
    map k | k in m :: Sort(m[k], rank)
  }

  lemma SortedKeys<T(!new)>(m: map<string, seq<T>>, rank: T -> int)
    ensures forall key :: key in SortTable(m, rank) <==> key in m
  {
  }

  class CodecTables {
    const headers: seq<Header>
    const js: Host
    /** The keys of `dispatchTable` in the order they were entered. */
    var bucketKeys: seq<string>
    var dispatchTable: map<string, seq<nat>>
    var rangeTable: map<string, seq<RangeEntry>>
    var heuristicCodecs: seq<nat>
    var constructorById: map<string, nat>
    var rawDataCodec: Option<nat>

    /** The tables hold what the registration list says, sorted. */
    ghost predicate Valid()
      reads this
    {
      && (forall key :: At(dispatchTable, key) == SortedBucket(headers, key))
      && (forall key :: key in bucketKeys <==> key in dispatchTable)
      && (forall ns :: At(rangeTable, ns) == SortedRanges(headers, ns))
      && heuristicCodecs == SortedHeuristics(headers)
      && (forall id :: ById(constructorById, id) == FirstWith(headers, id))
      && rawDataCodec == RawOf(headers)
    }

    constructor (headers: seq<Header>, js: Host)
      ensures Valid() && this.headers == headers && this.js == js
    {
      this.headers := headers;
      this.js := js;
      new;
      BuildDispatchTable();
    }

    /** Enters every match key of header `i`: range keys into the range table, the others into their bucket. */
    method EnterKeys(i: nat)
      requires i < |headers|
      requires Tabulates(dispatchTable, BucketsOf(headers[..i])) && Tabulates(rangeTable, RangesOf(headers[..i]))
      requires forall key :: key in bucketKeys <==> key in dispatchTable
      modifies this`bucketKeys, this`dispatchTable, this`rangeTable
      ensures forall key :: key in bucketKeys <==> key in dispatchTable
      ensures Tabulates(dispatchTable, BucketsWith(headers, i, headers[i].matchKeys))
      ensures Tabulates(rangeTable, RangesWith(headers, i, headers[i].matchKeys))
    {
      hide Tabulates, ParseRange, Hits, RangeHits, BucketsWith, RangesWith, BucketsOf, RangesOf;
      var keys := headers[i].matchKeys;
      BucketsEntered(headers, i);
      RangesEntered(headers, i);
      TabulateSame(dispatchTable, BucketsOf(headers[..i]), BucketsWith(headers, i, []));
      TabulateSame(rangeTable, RangesOf(headers[..i]), RangesWith(headers, i, []));
      assert keys[..0] == [];
      var j := 0;
      while j < |keys|
        invariant j <= |keys| && forall key :: key in bucketKeys <==> key in dispatchTable
        invariant Tabulates(dispatchTable, BucketsWith(headers, i, keys[..j]))
        invariant Tabulates(rangeTable, RangesWith(headers, i, keys[..j]))
      {
        var key := keys[j];
        HitsGrow(headers, i, keys[..j], key);
        RangeHitsGrow(headers, i, keys[..j], key);
        assert keys[..j] + [key] == keys[..j + 1];
        var r := ParseRange(key);
        if r.Some? {
          var entry := RangeEntry(r.value.lo, r.value.hi, i);
          TabulateAppend(rangeTable, RangesWith(headers, i, keys[..j]), r.value.ns, entry,
                         RangesWith(headers, i, keys[..j + 1]));
          TabulateSame(dispatchTable, BucketsWith(headers, i, keys[..j]), BucketsWith(headers, i, keys[..j + 1]));
          rangeTable := rangeTable[r.value.ns := At(rangeTable, r.value.ns) + [entry]];
        } else {
          TabulateAppend(dispatchTable, BucketsWith(headers, i, keys[..j]), key, i,
                         BucketsWith(headers, i, keys[..j + 1]));
          TabulateSame(rangeTable, RangesWith(headers, i, keys[..j]), RangesWith(headers, i, keys[..j + 1]));
          if key !in dispatchTable { bucketKeys := bucketKeys + [key]; }
          dispatchTable := dispatchTable[key := At(dispatchTable, key) + [i]];
        }
        j := j + 1;
      }
      assert keys[..j] == keys;
    }

    /** The unsorted tables after the first `i` headers. */
    ghost predicate Entered(i: nat)
      requires i <= |headers|
      reads this
    {
      && Tabulates(dispatchTable, BucketsOf(headers[..i])) && Tabulates(rangeTable, RangesOf(headers[..i]))
      && heuristicCodecs == Heuristics(headers[..i]) && rawDataCodec == RawOf(headers[..i])
      && (forall id :: ById(constructorById, id) == FirstWith(headers[..i], id))
      && (forall key :: key in bucketKeys <==> key in dispatchTable)
    }

    method EnterId(i: nat)
      requires i < |headers| && forall id :: ById(constructorById, id) == FirstWith(headers[..i], id)
      modifies this`constructorById
      ensures forall id :: ById(constructorById, id) == FirstWith(headers[..i + 1], id)
    {
      IdEntered(constructorById, headers, i);
      var id := headers[i].id;
      if id !in constructorById { constructorById := constructorById[id := i]; }
    }

    method EnterHeader(i: nat)
      requires i < |headers| && Entered(i)
      modifies this
      ensures Entered(i + 1)
    {
      hide Tabulates, Bucket, Ranges, BucketsWith, RangesWith, BucketsOf, RangesOf, FirstWith, ParseRange;
      HeaderEntered(headers, i);
      BucketsEntered(headers, i);
      RangesEntered(headers, i);
      EnterId(i);
      var h := headers[i];
      if h.id == RAW {
        rawDataCodec := Some(i);
        TabulateSame(dispatchTable, BucketsOf(headers[..i]), BucketsOf(headers[..i + 1]));
        TabulateSame(rangeTable, RangesOf(headers[..i]), RangesOf(headers[..i + 1]));
        return;
      }
      EnterKeys(i);
      TabulateSame(dispatchTable, BucketsWith(headers, i, h.matchKeys), BucketsOf(headers[..i + 1]));
      TabulateSame(rangeTable, RangesWith(headers, i, h.matchKeys), RangesOf(headers[..i + 1]));
      if h.matchKeys == [] || h.heuristicFallback { heuristicCodecs := heuristicCodecs + [i]; }
    }

    method EnterAll()
      modifies this
      ensures Entered(|headers|)
    {
      bucketKeys, dispatchTable, rangeTable := [], map[], map[];
      heuristicCodecs, constructorById, rawDataCodec := [], map[], None;
      NothingEntered();
      assert headers[..0] == [];
      assert Entered(0);
      hide Entered;
      var i := 0;
      while i < |headers|
        invariant i <= |headers| && Entered(i)
      {
        EnterHeader(i);
        i := i + 1;
      }
    }

    method BuildDispatchTable()
      modifies this
      ensures Valid()
    {
      hide Tabulates, FirstWith;
      EnterAll();
      assert headers[..|headers|] == headers;
      SortedTable(dispatchTable, BucketsOf(headers), Rank(headers));
      SortedTable(rangeTable, RangesOf(headers), RangeRank(headers));
      hide SortTable, At, Sort, Bucket, Ranges, Rank, RangeRank;
      SortedKeys(dispatchTable, Rank(headers));
      dispatchTable := SortTable(dispatchTable, Rank(headers));
      rangeTable := SortTable(rangeTable, RangeRank(headers));
      heuristicCodecs := Sort(heuristicCodecs, Rank(headers));
    }

    /** Confirms candidates of one key: its bucket, then the ranges of its namespace. */
    method TryKey(key: string, accepts: nat -> bool) returns (r: Option<nat>)
      requires Valid()
      ensures r == ByKey(headers, js, key, accepts)
    {
      var bucket := At(dispatchTable, key);
      var i := 0;
      while i < |bucket|
        invariant i <= |bucket| && FirstAccepted(bucket, accepts) == FirstAccepted(bucket[i..], accepts)
      {
        if accepts(bucket[i]) { return Some(bucket[i]); }
        i := i + 1;
      }
      if |rangeTable| == 0 {
        assert forall ns :: At(rangeTable, ns) == [];
        return None;
      }
      var v := RangeValue(js, key);
      if v.None? { return None; }
      var ranges, value := At(rangeTable, v.value.0), v.value.1;
      i := 0;
      while i < |ranges|
        invariant i <= |ranges| && FirstAdmitted(ranges, value, accepts) == FirstAdmitted(ranges[i..], value, accepts)
      {
        if Admits(ranges[i], value, accepts) { return Some(ranges[i].header); }
        i := i + 1;
      }
      r := None;
    }

    method SelectCodec(demuxKeys: seq<string>, accepts: nat -> bool) returns (choice: Choice)
      requires Valid()
      ensures choice == Select(headers, js, demuxKeys, accepts)
    {
      hide ByKey;
      var i := 0;
      while i < |demuxKeys|
        invariant i <= |demuxKeys|
        invariant ByKeys(headers, js, demuxKeys, accepts) == ByKeys(headers, js, demuxKeys[i..], accepts)
      {
        assert demuxKeys[i..][1..] == demuxKeys[i + 1..];
        var r := TryKey(demuxKeys[i], accepts);
        if r.Some? { return Chosen(r.value); }
        i := i + 1;
      }
      i := 0;
      while i < |heuristicCodecs|
        invariant i <= |heuristicCodecs|
        invariant FirstAccepted(heuristicCodecs, accepts) == FirstAccepted(heuristicCodecs[i..], accepts)
      {
        if accepts(heuristicCodecs[i]) { return Chosen(heuristicCodecs[i]); }
        i := i + 1;
      }
      choice := OrRaw(rawDataCodec);
    }
  }

  lemma NothingEntered()
    ensures Tabulates(map[], BucketsOf([])) && Tabulates(map[], RangesOf([]))
    ensures Heuristics([]) == [] && RawOf([]) == None && forall id :: FirstWith([], id) == None
  {
  }
}
