/** The editor's view of the demux graph: consistency of a layer list, and discriminators for a wanted child. */
module Consistency {
  import opened Bytes
  import opened Codec
  import opened Dispatch
  import opened JsStrings
  import opened LinearScan
  import opened StableSort

  type Data = map<string, Value>

  datatype Layer = Layer(id: string, data: Data)

  datatype Discriminator = Discriminator(field: string, value: Value)

  datatype NextLayer = NextLayer(id: string, discriminator: Option<Discriminator>)

  datatype Issue = Issue(index: nat, parentId: string, childId: string, field: string, actual: Value,
                         suggestion: Option<Discriminator>)

  /** `Number(value)`. */
  function NumberOf(js: Host, v: Value): JsNumber
  {
    if v.Num? then v.number else js.number(v.text)
  }

  /** The producers of the first header registered under an id. */
  function ProducersOf(hs: seq<Header>, id: string): seq<Producer>
  {
    var r := FirstWith(hs, id);
    if r.Some? then hs[r.value].producers else []
  }

  predicate InBucket(hs: seq<Header>, s: seq<nat>, id: string)
  {
    exists k :: 0 <= k < |s| && s[k] < |hs| && hs[s[k]].id == id
  }

  predicate InRanges(hs: seq<Header>, s: seq<RangeEntry>, value: int, id: string)
  {
    exists k :: 0 <= k < |s| && s[k].header < |hs| && s[k].lo <= value <= s[k].hi && hs[s[k].header].id == id
  }

  /** The producer, carrying `v`, routes to the child. */
  predicate Reaches(hs: seq<Header>, js: Host, p: Producer, v: Value, childId: string)
  {
    InBucket(hs, SortedBucket(hs, Key(js, p, v)), childId)
    || (NumberOf(js, v).Integer? && InRanges(hs, SortedRanges(hs, p.ns), NumberOf(js, v).n, childId))
  }

  /** Children matched by content, and the catch-all, are never questioned. */
  predicate Exempt(hs: seq<Header>, childId: string)
  {
    childId == RAW || InBucket(hs, SortedHeuristics(hs), childId)
  }

  predicate Carried(producers: seq<Producer>, data: Data, k: nat)
  {
    k < |producers| && producers[k].field in data
  }

  predicate Reachable(hs: seq<Header>, js: Host, producers: seq<Producer>, data: Data, childId: string)
  {
    exists k ::
      0 <= k < |producers| && Carried(producers, data, k)
        && Reaches(hs, js, producers[k], data[producers[k].field], childId)
  }

  predicate Silent(producers: seq<Producer>, data: Data)
  {
    forall k :: 0 <= k < |producers| ==> !Carried(producers, data, k)
  }

  /** No issue between a parent and the child that follows it. */
  predicate Consistent(hs: seq<Header>, js: Host, parentId: string, data: Data, childId: string)
  {
    Exempt(hs, childId) || Silent(ProducersOf(hs, parentId), data)
    || Reachable(hs, js, ProducersOf(hs, parentId), data, childId)
  }

  // ---- decoding selects consistent layers ----

  lemma {:induction false} KeyComesFrom(js: Host, producers: seq<Producer>, data: Data, k: nat) returns (q: nat)
    requires k < |DemuxKeys(js, producers, data)|
    ensures Carried(producers, data, q)
      && DemuxKeys(js, producers, data)[k] == Key(js, producers[q], data[producers[q].field])
    decreases |producers|
  {
    var here := if producers[0].field in data then 1 else 0;
    if k < here {
      q := 0;
    } else {
      q := KeyComesFrom(js, producers[1..], data, k - here);
      assert producers[1..][q] == producers[q + 1];
      q := q + 1;
    }
  }

  /** Numbers print as text that converts back to them. */
  ghost predicate Prints(js: Host, v: Value)
  {
    v.Num? ==> js.number(Printed(v)) == v.number
  }

  lemma KeySplits(ns: string, rest: string)
    ensures (ns + ":" + rest)[..|ns|] == ns && (ns + ":" + rest)[|ns| + 1..] == rest
    ensures ':' !in ns ==> IndexOf(ns + ":" + rest, ':', 0) == |ns|
    ensures ':' in ns ==> var c := IndexOf(ns + ":" + rest, ':', 0); 0 <= c < |ns| && ':' in (ns + ":" + rest)[c + 1..]
  {
    var key := ns + ":" + rest;
    var c := IndexOf(key, ':', 0);
    assert key[|ns|] == ':';
    if ':' in ns {
      var j :| 0 <= j < |ns| && ns[j] == ':';
      assert key[j] == ':';
      assert key[c + 1..][|ns| - c - 1] == ':';
    } else {
      assert forall j :: 0 <= j < |ns| ==> key[j] == ns[j] && ns[j] in ns;
    }
  }

  /** A key that falls in a range does so with the namespace and the number of its producer. */
  lemma RangeKeyMeans(js: Host, p: Producer, v: Value)
    requires Lawful(js) && Prints(js, v) && RangeValue(js, Key(js, p, v)).Some?
    ensures RangeValue(js, Key(js, p, v)).value.0 == p.ns
    ensures NumberOf(js, v) == Integer(RangeValue(js, Key(js, p, v)).value.1)
  {
    var rest := Normalised(js, v, p.kind);
    KeySplits(p.ns, rest);
    assert js.number(rest).Integer? ==> ':' !in rest;
    var key := Key(js, p, v);
    var c := IndexOf(key, ':', 0);
    assert js.number(key[c + 1..]).Integer? ==> ':' !in key[c + 1..];
    if ':' !in p.ns {
      assert js.number(js.lower(Printed(v))).Integer? ==> js.number(Printed(v)) == js.number(js.lower(Printed(v)));
    }
  }

  lemma OfferReaches(hs: seq<Header>, js: Host, p: Producer, v: Value, byRange: bool, i: nat)
    requires Lawful(js) && Prints(js, v) && Offer(hs, js, Key(js, p, v), byRange, i)
    ensures Reaches(hs, js, p, v, hs[i].id)
  {
    hide Exact, InRange, SortedBucket, SortedRanges, Key, Lawful, NumberOf, Offer;
    var key := Key(js, p, v);
    OfferIs(hs, js, key, byRange, i);
    if byRange {
      RangeKeyMeans(js, p, v);
      var value := RangeValue(js, key).value.1;
      SortedRangesFacts(hs, p.ns, value);
      assert CoversFor(SortedRanges(hs, p.ns), i, value);
      var k :| 0 <= k < |SortedRanges(hs, p.ns)| && SortedRanges(hs, p.ns)[k].header == i
        && SortedRanges(hs, p.ns)[k].lo <= value <= SortedRanges(hs, p.ns)[k].hi;
    } else {
      SortedBucketFacts(hs, key);
      assert i in SortedBucket(hs, key);
      var k :| 0 <= k < |SortedBucket(hs, key)| && SortedBucket(hs, key)[k] == i;
    }
  }

  /** Header `k` claims one of the demux keys, exactly or by a range. */
  predicate Claims(hs: seq<Header>, js: Host, keys: seq<string>, k: nat)
  {
    exists q, byRange :: 0 <= q < |keys| && Offer(hs, js, keys[q], byRange, k)
  }

  /** Whatever is selected claims a key, or is exempt. */
  lemma SelectedClaims(hs: seq<Header>, js: Host, keys: seq<string>, accepts: nat -> bool)
    ensures match Select(hs, js, keys, accepts)
      case Chosen(i) => i < |hs| && (Exempt(hs, hs[i].id) || (Claims(hs, js, keys, i) && accepts(i)))
      case Fallback => true
  {
    hide Offer, SortedHeuristics, ByKeys;
    var k, byRange := ByKeysIs(hs, js, keys, accepts);
    var r := ByKeys(hs, js, keys, accepts);
    if r.Some? {
      OfferBound(hs, js, keys[k], byRange, r.value);
    } else {
      HeuristicsFacts(hs);
      FirstAcceptedIs(hs, SortedHeuristics(hs), accepts);
      var byContent := FirstAccepted(SortedHeuristics(hs), accepts);
      if byContent.Some? {
        var n :| 0 <= n < |SortedHeuristics(hs)| && SortedHeuristics(hs)[n] == byContent.value;
        assert InBucket(hs, SortedHeuristics(hs), hs[byContent.value].id);
      } else {
        RawIsRaw(hs);
      }
    }
  }

  /** A header that claims a key and alone accepts is selected. */
  lemma ClaimantSelected(hs: seq<Header>, js: Host, keys: seq<string>, k: nat)
    requires Claims(hs, js, keys, k)
    ensures Select(hs, js, keys, (x: nat) => x == k) == Chosen(k)
  {
    hide Offer, ByKeys;
    var guard := (x: nat) => x == k;
    var q', byRange' :| 0 <= q' < |keys| && Offer(hs, js, keys[q'], byRange', k);
    NoOffer(hs, js, keys, guard, q');
    var q, byRange := ByKeysIs(hs, js, keys, guard);
  }

  lemma NoOffer(hs: seq<Header>, js: Host, keys: seq<string>, accepts: nat -> bool, q: nat)
    requires q < |keys|
    ensures ByKeys(hs, js, keys, accepts).None? ==> NoneForKey(hs, js, keys[q], accepts)
  {
    hide Offer, ByKeys;
    var k, byRange := ByKeysIs(hs, js, keys, accepts);
  }

  lemma OfferBound(hs: seq<Header>, js: Host, key: string, byRange: bool, i: nat)
    requires Offer(hs, js, key, byRange, i)
    ensures i < |hs|
  {
  }

  lemma {:induction false} RawIsRaw(hs: seq<Header>)
    ensures RawOf(hs).Some? ==> RawOf(hs).value < |hs| && hs[RawOf(hs).value].id == RAW
    decreases |hs|
  {
    if hs != [] && hs[|hs| - 1].id != RAW { RawIsRaw(hs[..|hs| - 1]); }
  }

  function IdOf(hs: seq<Header>, c: Choice): string
  {
    if c.Chosen? && c.header < |hs| then hs[c.header].id else RAW
  }

  function OwnProducers(hs: seq<Header>, c: Choice): seq<Producer>
  {
    if c.Chosen? && c.header < |hs| then hs[c.header].producers else []
  }

  /**
   * One run of decode: each layer after the root is selected by the previous layer's own demux keys, with any answers
   * of the candidates' guards.
   */
  ghost predicate DecodeRun(hs: seq<Header>, js: Host, chosen: seq<Choice>, data: seq<Data>, guards: seq<nat -> bool>)
  {
    && |data| == |chosen| && |guards| == |chosen|
    && forall j :: 0 < j < |chosen| ==>
         chosen[j] == Select(hs, js, DemuxKeys(js, OwnProducers(hs, chosen[j - 1]), data[j - 1]), guards[j])
  }

  /** No selected header is hidden by an earlier registration of its id with other producers. */
  predicate Unshadowed(hs: seq<Header>, c: Choice)
  {
    ProducersOf(hs, IdOf(hs, c)) == OwnProducers(hs, c)
  }

  /** The check, read off the registration list. */
  predicate Unquestioned(hs: seq<Header>, js: Host, parentId: string, data: Data, childId: string)
  {
    || childId == RAW || (exists i :: 0 <= i < |hs| && ByContent(hs, i) && hs[i].id == childId)
    || Silent(ProducersOf(hs, parentId), data)
    || (exists k ::
          0 <= k < |ProducersOf(hs, parentId)| && Carried(ProducersOf(hs, parentId), data, k)
          && Routes(hs, js, ProducersOf(hs, parentId)[k], data[ProducersOf(hs, parentId)[k].field], childId))
  }

  /** Some header with the id is registered under the producer's exact key, or for a range that holds its number. */
  predicate Routes(hs: seq<Header>, js: Host, p: Producer, v: Value, childId: string)
  {
    exists i :: 0 <= i < |hs| && hs[i].id == childId && childId != RAW && RoutesTo(hs[i], js, p, v)
  }

  predicate RoutesTo(h: Header, js: Host, p: Producer, v: Value)
  {
    Exact(h, Key(js, p, v)) || (NumberOf(js, v).Integer? && InRange(h, p.ns, NumberOf(js, v).n))
  }

  lemma ExemptIsListed(hs: seq<Header>, childId: string)
    ensures Exempt(hs, childId)
      <==> childId == RAW || exists i :: 0 <= i < |hs| && ByContent(hs, i) && hs[i].id == childId
  {
    hide SortedHeuristics, ByContent;
    HeuristicsFacts(hs);
    var s := SortedHeuristics(hs);
    if k :| 0 <= k < |s| && s[k] < |hs| && hs[s[k]].id == childId { assert s[k] in s; }
    if i :| 0 <= i < |hs| && ByContent(hs, i) && hs[i].id == childId {
      assert i in s;
      var k :| 0 <= k < |s| && s[k] == i;
    }
  }

  lemma BucketIsListed(hs: seq<Header>, key: string, childId: string)
    ensures InBucket(hs, SortedBucket(hs, key), childId)
       <==> exists i :: 0 <= i < |hs| && hs[i].id == childId && childId != RAW && Exact(hs[i], key)
  {
    hide SortedBucket, Exact;
    SortedBucketFacts(hs, key);
    var s := SortedBucket(hs, key);
    if k :| 0 <= k < |s| && s[k] < |hs| && hs[s[k]].id == childId { assert s[k] in s; }
    if i :| 0 <= i < |hs| && hs[i].id == childId && childId != RAW && Exact(hs[i], key) {
      assert i in s;
      var k :| 0 <= k < |s| && s[k] == i;
    }
  }

  lemma RangesAreListed(hs: seq<Header>, ns: string, value: int, childId: string)
    ensures InRanges(hs, SortedRanges(hs, ns), value, childId)
       <==> exists i :: 0 <= i < |hs| && hs[i].id == childId && childId != RAW && InRange(hs[i], ns, value)
  {
    hide SortedRanges, InRange;
    SortedRangesFacts(hs, ns, value);
    var s := SortedRanges(hs, ns);
    if k :| 0 <= k < |s| && s[k].header < |hs| && s[k].lo <= value <= s[k].hi && hs[s[k].header].id == childId {
      assert CoversFor(s, s[k].header, value);
    }
    if i: nat :| i < |hs| && hs[i].id == childId && childId != RAW && InRange(hs[i], ns, value) {
      assert CoversFor(s, i, value);
      var k :| 0 <= k < |s| && s[k].header == i && s[k].lo <= value <= s[k].hi;
    }
  }

  lemma ReachesIsListed(hs: seq<Header>, js: Host, p: Producer, v: Value, childId: string)
    ensures Reaches(hs, js, p, v, childId) <==> Routes(hs, js, p, v, childId)
  {
    hide InBucket, InRanges, SortedBucket, SortedRanges, Exact, InRange, Key, NumberOf;
    BucketIsListed(hs, Key(js, p, v), childId);
    if NumberOf(js, v).Integer? { RangesAreListed(hs, p.ns, NumberOf(js, v).n, childId); }
    assert Reaches(hs, js, p, v, childId) ==> Routes(hs, js, p, v, childId) by {
      assert forall i :: 0 <= i < |hs| && Exact(hs[i], Key(js, p, v)) ==> RoutesTo(hs[i], js, p, v);
    }
  }

  /** The check through the tables is the check on the registration list. */
  lemma ConsistentIsListed(hs: seq<Header>, js: Host, parentId: string, data: Data, childId: string)
    ensures Consistent(hs, js, parentId, data, childId) <==> Unquestioned(hs, js, parentId, data, childId)
  {
    hide Exempt, Reaches, Routes, ByContent, FirstWith;
    var producers := ProducersOf(hs, parentId);
    ExemptIsListed(hs, childId);
    forall k | 0 <= k < |producers| && Carried(producers, data, k)
      ensures Reaches(hs, js, producers[k], data[producers[k].field], childId)
         <==> Routes(hs, js, producers[k], data[producers[k].field], childId)
    {
      ReachesIsListed(hs, js, producers[k], data[producers[k].field], childId);
    }
  }

  /**
   * A layer of header `i` with these fields is consistent with whatever decode may select next, under any answers of
   * the candidates' guards, if and only if every header that claims one of its demux keys would go unquestioned.
   */
  lemma DecodeIsConsistentIff(hs: seq<Header>, js: Host, i: nat, data: Data)
    requires i < |hs|
    ensures var keys := DemuxKeys(js, hs[i].producers, data);
      (forall guard: nat -> bool :: Consistent(hs, js, hs[i].id, data, IdOf(hs, Select(hs, js, keys, guard))))
      <==> (forall k :: 0 <= k < |hs| && Claims(hs, js, keys, k) ==> Unquestioned(hs, js, hs[i].id, data, hs[k].id))
  {
    hide Consistent, Unquestioned, Claims, Select, DemuxKeys;
    var keys := DemuxKeys(js, hs[i].producers, data);
    if forall guard: nat -> bool :: Consistent(hs, js, hs[i].id, data, IdOf(hs, Select(hs, js, keys, guard))) {
      forall k | 0 <= k < |hs| && Claims(hs, js, keys, k) ensures Unquestioned(hs, js, hs[i].id, data, hs[k].id) {
        ClaimantSelected(hs, js, keys, k);
        ConsistentIsListed(hs, js, hs[i].id, data, hs[k].id);
      }
    }
    if forall k :: 0 <= k < |hs| && Claims(hs, js, keys, k) ==> Unquestioned(hs, js, hs[i].id, data, hs[k].id) {
      forall guard: nat -> bool ensures Consistent(hs, js, hs[i].id, data, IdOf(hs, Select(hs, js, keys, guard))) {
        SelectedConsistent(hs, js, hs[i].id, data, keys, guard);
      }
    }
  }

  lemma SelectedConsistent(hs: seq<Header>, js: Host, parentId: string, data: Data, keys: seq<string>,
                           guard: nat -> bool)
    requires forall k :: 0 <= k < |hs| && Claims(hs, js, keys, k) ==> Unquestioned(hs, js, parentId, data, hs[k].id)
    ensures Consistent(hs, js, parentId, data, IdOf(hs, Select(hs, js, keys, guard)))
  {
    hide Unquestioned, Claims, Select, Exempt, Silent, Reachable;
    SelectedClaims(hs, js, keys, guard);
    RawExempt(hs);
    var id := IdOf(hs, Select(hs, js, keys, guard));
    ConsistentIsListed(hs, js, parentId, data, id);
  }

  /** A header that claims one of a layer's own keys is reached by the layer's own producers. */
  lemma ClaimReached(hs: seq<Header>, js: Host, producers: seq<Producer>, data: Data, k: nat)
    requires Lawful(js) && k < |hs| && Claims(hs, js, DemuxKeys(js, producers, data), k)
    requires forall f :: f in data ==> Prints(js, data[f])
    ensures Reachable(hs, js, producers, data, hs[k].id)
  {
    hide Lawful, Offer, Reaches;
    var keys := DemuxKeys(js, producers, data);
    var q', byRange :| 0 <= q' < |keys| && Offer(hs, js, keys[q'], byRange, k);
    var q := KeyComesFrom(js, producers, data, q');
    OfferReaches(hs, js, producers[q], data[producers[q].field], byRange, k);
  }

  /** Every two neighbouring layers of any decode run are consistent, the first not being shadowed. */
  lemma DecodeIsConsistent(hs: seq<Header>, js: Host, chosen: seq<Choice>, data: seq<Data>, guards: seq<nat -> bool>,
                           j: nat)
    requires Lawful(js) && DecodeRun(hs, js, chosen, data, guards) && j + 1 < |chosen|
    requires Unshadowed(hs, chosen[j]) && forall f :: f in data[j] ==> Prints(js, data[j][f])
    ensures Consistent(hs, js, IdOf(hs, chosen[j]), data[j], IdOf(hs, chosen[j + 1]))
  {
    hide Lawful, Exempt, Reachable, Select, DemuxKeys, Claims, Unquestioned;
    var producers, id := OwnProducers(hs, chosen[j]), IdOf(hs, chosen[j]);
    var keys := DemuxKeys(js, producers, data[j]);
    forall k | 0 <= k < |hs| && Claims(hs, js, keys, k) ensures Unquestioned(hs, js, id, data[j], hs[k].id) {
      ClaimReached(hs, js, producers, data[j], k);
      ConsistentIsListed(hs, js, id, data[j], hs[k].id);
    }
    SelectedConsistent(hs, js, id, data[j], keys, guards[j + 1]);
  }

  lemma RawExempt(hs: seq<Header>)
    ensures Exempt(hs, RAW)
  {
  }

  /** A plain key, for want of a dash, is no range. */
  lemma PlainKey(key: string)
    requires '-' !in key
    ensures ParseRange(key).None?
  {
    var colon := IndexOf(key, ':', 0);
    if colon > 0 {
      var dash := IndexOf(key[colon + 1..], '-', 0);
      assert '-' !in key[colon + 1..];
    }
  }

  /** Headers whose only keys are plain ones: no ranges, and a bucket exactly for each key. */
  lemma PlainTables(hs: seq<Header>, key: string, ns: string, childId: string)
    requires forall i, m :: 0 <= i < |hs| && m in hs[i].matchKeys ==> '-' !in m
    ensures InBucket(hs, SortedBucket(hs, key), childId)
       <==> exists i :: 0 <= i < |hs| && hs[i].id == childId && childId != RAW && key in hs[i].matchKeys
    ensures forall value :: !InRanges(hs, SortedRanges(hs, ns), value, childId)
  {
    hide SortedBucket, SortedRanges;
    SortedBucketFacts(hs, key);
    var s := SortedBucket(hs, key);
    if exists i :: 0 <= i < |hs| && hs[i].id == childId && childId != RAW && key in hs[i].matchKeys {
      var i :| 0 <= i < |hs| && hs[i].id == childId && childId != RAW && key in hs[i].matchKeys;
      PlainKey(key);
      assert i in s;
      var k :| 0 <= k < |s| && s[k] == i;
    }
    if InBucket(hs, s, childId) {
      var k :| 0 <= k < |s| && s[k] < |hs| && hs[s[k]].id == childId;
      assert s[k] in s;
    }
    forall value ensures !InRanges(hs, SortedRanges(hs, ns), value, childId) {
      SortedRangesFacts(hs, ns, value);
      var t := SortedRanges(hs, ns);
      forall k | 0 <= k < |t| && t[k].lo <= value <= t[k].hi ensures t[k].header >= |hs| {
        if t[k].header < |hs| {
          assert CoversFor(t, t[k].header, value);
          assert InRange(hs[t[k].header], ns, value);
          var n :| 0 <= n < |hs[t[k].header].matchKeys| && Covers(hs[t[k].header].matchKeys[n], ns, value);
          PlainKey(hs[t[k].header].matchKeys[n]);
        }
      }
    }
  }

  lemma KeyedNotExempt(hs: seq<Header>, childId: string)
    requires childId != RAW && forall i :: 0 <= i < |hs| && hs[i].id == childId ==> !Heuristic(hs[i])
    ensures !Exempt(hs, childId)
  {
    hide SortedHeuristics;
    HeuristicsFacts(hs);
    var s := SortedHeuristics(hs);
    assert forall k :: 0 <= k < |s| ==> s[k] in s;
  }

  predicate PlainHeaders(hs: seq<Header>)
  {
    forall i, m :: 0 <= i < |hs| && m in hs[i].matchKeys ==> '-' !in m
  }

  /** A keyed child that is not registered under the parent's only key is questioned. */
  lemma Questioned(hs: seq<Header>, js: Host, parentId: string, p: Producer, data: Data, childId: string)
    requires PlainHeaders(hs) && ProducersOf(hs, parentId) == [p] && p.field in data && childId != RAW
    requires forall i :: 0 <= i < |hs| && hs[i].id == childId ==>
      !Heuristic(hs[i]) && Key(js, p, data[p.field]) !in hs[i].matchKeys
    ensures !Consistent(hs, js, parentId, data, childId)
  {
    hide SortedBucket, SortedRanges, Exempt, Key, FirstWith;
    KeyedNotExempt(hs, childId);
    PlainTables(hs, Key(js, p, data[p.field]), p.ns, childId);
    assert Carried([p], data, 0);
  }

  /** With one producer and one header under its key that accepts, that header is selected. */
  lemma OnlyOffer(hs: seq<Header>, js: Host, p: Producer, data: Data, i: nat)
    requires i < |hs| && hs[i].id != RAW && p.field in data
    requires var key := Key(js, p, data[p.field]); key in hs[i].matchKeys && '-' !in key
    ensures Select(hs, js, DemuxKeys(js, [p], data), (x: nat) => x == i) == Chosen(i)
  {
    hide Key, Select, ParseRange;
    var key := Key(js, p, data[p.field]);
    assert DemuxKeys(js, [p], data) == [key] by { assert [p][1..] == []; }
    PlainKey(key);
    assert Offer(hs, js, [key][0], false, i);
    ClaimantSelected(hs, js, [key], i);
  }

  /** Two headers under one id: decode follows the second's producers, the check asks the first's. */
  lemma ShadowedIdQuestioned(js: Host)
    returns (hs: seq<Header>, chosen: seq<Choice>, data: seq<Data>, guards: seq<nat -> bool>)
    ensures DecodeRun(hs, js, chosen, data, guards) && |chosen| == 2
    ensures !Consistent(hs, js, IdOf(hs, chosen[0]), data[0], IdOf(hs, chosen[1]))
  {
    hide Select, Consistent, ParseRange, FirstWith, DemuxKeys;
    var p, q := Producer("f", "x", Text), Producer("g", "y", Text);
    var first, second := Header("a", [], 0, false, [p]), Header("a", [], 0, false, [q]);
    var child := Header("b", ["y:1"], 0, false, []);
    var carried: Data := map["f" := Str("0"), "g" := Str("1")];
    hs := [first, second, child];
    assert hs[0].id == "a" && hs[1] == second && hs[2] == child;
    assert Key(js, p, carried["f"]) == "x:0" && Key(js, q, carried["g"]) == "y:1";
    assert child.matchKeys[0] == "y:1";
    OnlyOffer(hs, js, q, carried, 2);
    Questioned(hs, js, "a", p, carried, "b");
    chosen, data := [Chosen(1), Chosen(2)], [carried, map[]];
    guards := [(x: nat) => x == 1, (x: nat) => x == 2];
  }

  // ---- wanted children ----

  /** The value suggested for an exact key: its text, as a number for numeric producers. */
  function ValueFor(js: Host, p: Producer, raw: string): Value
  {
    if p.kind.UInt? then Num(js.number(raw)) else Str(raw)
  }

  ghost predicate KeyRoute(hs: seq<Header>, js: Host, p: Producer, raw: string, childId: string, v: Value)
  {
    InBucket(hs, SortedBucket(hs, p.ns + ":" + raw), childId) && v == ValueFor(js, p, raw)
  }

  ghost predicate RangeRoute(hs: seq<Header>, p: Producer, k: nat, childId: string, v: Value)
  {
    var s := SortedRanges(hs, p.ns);
    k < |s| && s[k].header < |hs| && hs[s[k].header].id == childId && v == Num(Integer(s[k].lo))
  }

  ghost predicate RouteVia(hs: seq<Header>, js: Host, p: Producer, childId: string, v: Value)
  {
    (exists raw :: KeyRoute(hs, js, p, raw, childId, v)) || (exists k :: RangeRoute(hs, p, k, childId, v))
  }

  /** A producer of the parent leads to the child with this discriminator. */
  ghost predicate Route(hs: seq<Header>, js: Host, producers: seq<Producer>, childId: string, d: Discriminator)
  {
    exists q ::
      0 <= q < |producers| && producers[q].field == d.field && RouteVia(hs, js, producers[q], childId, d.value)
  }

  /** The suggested value is turned back into the very key it came from. */
  predicate Canonical(js: Host, p: Producer, raw: string)
  {
    Normalised(js, ValueFor(js, p, raw), p.kind) == raw
  }

  /** Every exact key under which the field's producers reach the child is written the way decode would write it. */
  ghost predicate CanonicalKeys(hs: seq<Header>, js: Host, producers: seq<Producer>, field: string, childId: string)
  {
    forall q, raw :: 0 <= q < |producers| && KeyOf(hs, producers[q], raw, field, childId) ==>
      Canonical(js, producers[q], raw)
  }

  ghost predicate KeyOf(hs: seq<Header>, p: Producer, raw: string, field: string, childId: string)
  {
    p.field == field && InBucket(hs, SortedBucket(hs, p.ns + ":" + raw), childId)
  }

  /** Setting the parent's field to a suggested discriminator satisfies the check. */
  lemma SuggestionAccepted(hs: seq<Header>, js: Host, parentId: string, data: Data, childId: string, d: Discriminator)
    requires Route(hs, js, ProducersOf(hs, parentId), childId, d)
    requires CanonicalKeys(hs, js, ProducersOf(hs, parentId), d.field, childId)
    ensures Consistent(hs, js, parentId, data[d.field := d.value], childId)
  {
    hide SortedBucket, SortedRanges, FirstWith, Normalised;
    var producers := ProducersOf(hs, parentId);
    var q :| 0 <= q < |producers| && producers[q].field == d.field && RouteVia(hs, js, producers[q], childId, d.value);
    var p := producers[q];
    if raw :| KeyRoute(hs, js, p, raw, childId, d.value) {
      assert KeyOf(hs, p, raw, d.field, childId);
      assert Key(js, p, d.value) == p.ns + ":" + raw;
    } else {
      var k :| RangeRoute(hs, p, k, childId, d.value);
      RangesAreOrdered(hs, p.ns, k);
    }
    assert Carried(producers, data[d.field := d.value], q);
  }

  /** The child is checked by its keys, and `p` with the exact key `raw` is the one way a parent's field leads to it. */
  ghost predicate OneWay(hs: seq<Header>, producers: seq<Producer>, p: Producer, raw: string, childId: string)
  {
    && p in producers && (forall q :: 0 <= q < |producers| && producers[q].field == p.field ==> producers[q] == p)
    && !Exempt(hs, childId)
    && (forall other :: InBucket(hs, SortedBucket(hs, p.ns + ":" + other), childId) <==> other == raw)
    && (forall value :: !InRanges(hs, SortedRanges(hs, p.ns), value, childId))
  }

  /** Set alone, the suggestion for the one way to a child is accepted exactly when decode would write its key back. */
  lemma SuggestionAcceptedIff(hs: seq<Header>, js: Host, parentId: string, p: Producer, raw: string, childId: string)
    requires OneWay(hs, ProducersOf(hs, parentId), p, raw, childId)
    ensures Route(hs, js, ProducersOf(hs, parentId), childId, Discriminator(p.field, ValueFor(js, p, raw)))
    ensures Consistent(hs, js, parentId, map[p.field := ValueFor(js, p, raw)], childId) <==> Canonical(js, p, raw)
  {
    hide SortedBucket, SortedRanges, FirstWith, Normalised, Exempt, InBucket, InRanges;
    var producers, v := ProducersOf(hs, parentId), ValueFor(js, p, raw);
    var q :| 0 <= q < |producers| && producers[q] == p;
    assert KeyRoute(hs, js, p, raw, childId, v);
    assert RouteVia(hs, js, producers[q], childId, v);
    var data: Data := map[p.field := v];
    assert Carried(producers, data, q);
    assert forall k: nat :: Carried(producers, data, k) ==> producers[k] == p;
    assert Reaches(hs, js, p, v, childId) <==> Normalised(js, v, p.kind) == raw;
    if Canonical(js, p, raw) { assert Reaches(hs, js, producers[q], data[producers[q].field], childId); }
  }

  lemma RangesAreOrdered(hs: seq<Header>, ns: string, k: nat)
    requires k < |SortedRanges(hs, ns)|
    ensures SortedRanges(hs, ns)[k].lo <= SortedRanges(hs, ns)[k].hi
  {
    var r := SortedRanges(hs, ns)[k];
    SortKeeps(Ranges(hs, ns), RangeRank(hs), r);
    EntriesOrdered(hs, ns, r);
  }

  lemma {:induction false} EntriesOrdered(hs: seq<Header>, ns: string, r: RangeEntry)
    requires r in Ranges(hs, ns)
    ensures r.lo <= r.hi
    decreases |hs|
  {
    var n := |hs| - 1;
    if r in Ranges(hs[..n], ns) {
      EntriesOrdered(hs[..n], ns, r);
    } else {
      HitsOrdered(hs[n].matchKeys, ns, n, r);
    }
  }

  lemma {:induction false} HitsOrdered(keys: seq<string>, ns: string, i: nat, r: RangeEntry)
    requires r in RangeHits(keys, ns, i)
    ensures r.lo <= r.hi
    decreases |keys|
  {
    if r in RangeHits(keys[..|keys| - 1], ns, i) { HitsOrdered(keys[..|keys| - 1], ns, i, r); }
  }

  /**
   * A child whose only key has a leading zero: whatever childDiscriminator answers for it, the check rejects the field
   * so set, the answer being a number whose key is another one.
   */
  lemma PaddedKeyRejected(js: Host) returns (hs: seq<Header>)
    requires js.number("080") == Integer(80)
    ensures forall d :: Suggested(hs, js, "tcp", "http", d) ==>
      d.Some? && !Consistent(hs, js, "tcp", map[d.value.field := d.value.value], "http")
  {
    hide Consistent, ParseRange, FirstWith, SortedBucket, Decimal, OneWay, Canonical, RouteVia;
    var p := Producer("dstport", "tcpport", UInt);
    var tcp, http := Header("tcp", [], 0, false, [p]), Header("http", ["tcpport:080"], 0, false, []);
    hs := [tcp, http];
    assert hs[0].id == "tcp" && hs[1] == http;
    assert ProducersOf(hs, "tcp") == [p];
    var expected := Discriminator("dstport", Num(Integer(80)));
    PaddedOneWay(hs, p, http);
    SuggestionAcceptedIff(hs, js, "tcp", p, "080", "http");
    PaddedNotCanonical(js, p);
    forall d | Suggested(hs, js, "tcp", "http", d) ensures d == Some(expected) {
      OneAnswer(hs, js, "tcp", p, "080", "http", d);
    }
  }

  lemma PaddedOneWay(hs: seq<Header>, p: Producer, http: Header)
    requires p.ns == "tcpport" && |hs| == 2 && hs[1] == http && hs[0].matchKeys == [] && hs[0].id != "http"
    requires http == Header("http", ["tcpport:080"], 0, false, [])
    ensures OneWay(hs, [p], p, "080", "http")
  {
    hide SortedBucket, SortedRanges, Exempt, ParseRange;
    assert [p][0] == p;
    KeyedNotExempt(hs, "http");
    assert http.matchKeys[0] == "tcpport:080" == "tcpport" + ":" + "080";
    PlainTables(hs, "tcpport:080", "tcpport", "http");
    forall other ensures InBucket(hs, SortedBucket(hs, p.ns + ":" + other), "http") <==> other == "080" {
      PlainTables(hs, p.ns + ":" + other, "tcpport", "http");
      var key := p.ns + ":" + other;
      assert key[8..] == other;
      assert key in http.matchKeys <==> key == "tcpport:080";
      assert "tcpport:080"[8..] == "080";
      assert hs[1].id == "http";
    }
  }

  lemma PaddedNotCanonical(js: Host, p: Producer)
    requires js.number("080") == Integer(80) && p.kind.UInt?
    ensures ValueFor(js, p, "080") == Num(Integer(80)) && !Canonical(js, p, "080")
  {
    EightyPrinted();
  }

  /** With one way to a child, childDiscriminator has one answer. */
  lemma OneAnswer(hs: seq<Header>, js: Host, parentId: string, p: Producer, raw: string, childId: string,
                  d: Option<Discriminator>)
    requires ProducersOf(hs, parentId) == [p] && OneWay(hs, [p], p, raw, childId)
    requires Suggested(hs, js, parentId, childId, d)
    ensures d == Some(Discriminator(p.field, ValueFor(js, p, raw)))
  {
    hide SortedBucket, SortedRanges, FirstWith, Normalised, Exempt, InBucket, ValueFor;
    SuggestionAcceptedIff(hs, js, parentId, p, raw, childId);
    var q :| 0 <= q < |[p]| && [p][q].field == d.value.field && RouteVia(hs, js, [p][q], childId, d.value.value);
    if k: nat :| RangeRoute(hs, p, k, childId, d.value.value) { RangeRouteShows(hs, p, k, childId, d.value.value); }
  }

  lemma RangeRouteShows(hs: seq<Header>, p: Producer, k: nat, childId: string, v: Value)
    requires RangeRoute(hs, p, k, childId, v)
    ensures exists value :: InRanges(hs, SortedRanges(hs, p.ns), value, childId)
  {
    hide SortedRanges;
    RangesAreOrdered(hs, p.ns, k);
    assert InRanges(hs, SortedRanges(hs, p.ns), SortedRanges(hs, p.ns)[k].lo, childId);
  }

  lemma EightyPrinted()
    ensures Decimal(80) == "80"
  {
    assert DecimalNat(8) == "8";
  }

  // ---- the methods ----

  method FindProducers(c: CodecTables, id: string) returns (producers: seq<Producer>)
    ensures producers == ProducersOf(c.headers, id)
  {
    producers := ProducersOf(c.headers, id);
  }

  /** Whether one carried producer routes to the child. */
  method ProducerReaches(c: CodecTables, p: Producer, v: Value, childId: string) returns (reaches: bool)
    requires c.Valid()
    ensures reaches == Reaches(c.headers, c.js, p, v, childId)
  {
    var bucket := At(c.dispatchTable, Key(c.js, p, v));
    if exists k :: 0 <= k < |bucket| && bucket[k] < |c.headers| && c.headers[bucket[k]].id == childId { return true; }
    var ranges, n := At(c.rangeTable, p.ns), NumberOf(c.js, v);
    reaches := n.Integer? && InRanges(c.headers, ranges, n.n, childId);
  }

  /** The representative producer of an inconsistent pair; None when the pair is consistent. */
  method Representative(c: CodecTables, parent: Layer, childId: string) returns (rep: Option<nat>)
    requires c.Valid()
    ensures rep.None? <==> Consistent(c.headers, c.js, parent.id, parent.data, childId)
    ensures var producers := ProducersOf(c.headers, parent.id);
      rep.Some? ==>
        Carried(producers, parent.data, rep.value)
          && forall k :: 0 <= k < rep.value ==> !Carried(producers, parent.data, k)
  {
    hide SortedBucket, SortedRanges, Reaches, FirstWith, SortedHeuristics;
    if childId == RAW || InBucket(c.headers, c.heuristicCodecs, childId) { return None; }
    var producers := FindProducers(c, parent.id);
    rep := None;
    var k := 0;
    while k < |producers|
      invariant k <= |producers|
      invariant rep.None? ==> forall j :: 0 <= j < k ==> !Carried(producers, parent.data, j)
      invariant rep.Some? ==> rep.value < k && Carried(producers, parent.data, rep.value)
      invariant rep.Some? ==> forall j :: 0 <= j < rep.value ==> !Carried(producers, parent.data, j)
      invariant forall j :: 0 <= j < k && Carried(producers, parent.data, j) ==>
        !Reaches(c.headers, c.js, producers[j], parent.data[producers[j].field], childId)
    {
      if producers[k].field in parent.data {
        assert Carried(producers, parent.data, k);
        if rep.None? { rep := Some(k); }
        var reaches := ProducerReaches(c, producers[k], parent.data[producers[k].field], childId);
        if reaches { return None; }
      }
      k := k + 1;
    }
  }

  /** The issue raised for an inconsistent pair. */
  ghost predicate IssueFor(hs: seq<Header>, js: Host, decoded: seq<Layer>, issue: Issue)
  {
    && issue.index + 1 < |decoded|
    && issue.parentId == decoded[issue.index].id && issue.childId == decoded[issue.index + 1].id
    && !Consistent(hs, js, issue.parentId, decoded[issue.index].data, issue.childId)
    && Suggested(hs, js, issue.parentId, issue.childId, issue.suggestion)
    && var producers, data := ProducersOf(hs, issue.parentId), decoded[issue.index].data;
      exists k :: 0 <= k < |producers| && Carried(producers, data, k) && issue.field == producers[k].field
        && issue.actual == data[producers[k].field] && forall j :: 0 <= j < k ==> !Carried(producers, data, j)
  }

  ghost predicate Suggested(hs: seq<Header>, js: Host, parentId: string, childId: string, d: Option<Discriminator>)
  {
    if d.Some? then Route(hs, js, ProducersOf(hs, parentId), childId, d.value)
    else forall x :: !Route(hs, js, ProducersOf(hs, parentId), childId, x)
  }

  /** Where the pairs of a layer list are inconsistent. */
  function Questionable(hs: seq<Header>, js: Host, decoded: seq<Layer>, n: nat): seq<nat>
    requires n < |decoded| || n == 0
  {
    if n == 0 then []
    else
      var here := if Consistent(hs, js, decoded[n - 1].id, decoded[n - 1].data, decoded[n].id) then [] else [n - 1];
      Questionable(hs, js, decoded, n - 1) + here
  }

  method CheckConsistency(c: CodecTables, decoded: seq<Layer>) returns (issues: seq<Issue>)
    requires c.Valid()
    ensures var at := Questionable(c.headers, c.js, decoded, if decoded == [] then 0 else |decoded| - 1);
      |issues| == |at|
        && forall k :: 0 <= k < |at| ==> issues[k].index == at[k] && IssueFor(c.headers, c.js, decoded, issues[k])
  {
    hide Consistent, Suggested, ProducersOf;
    issues := [];
    if decoded == [] { return; }
    var i := 0;
    while i < |decoded| - 1
      invariant i <= |decoded| - 1
      invariant var at := Questionable(c.headers, c.js, decoded, i);
        |issues| == |at|
          && forall k :: 0 <= k < |at| ==> issues[k].index == at[k] && IssueFor(c.headers, c.js, decoded, issues[k])
    {
      var parent, child := decoded[i], decoded[i + 1];
      var rep := Representative(c, parent, child.id);
      if rep.Some? {
        var producers := FindProducers(c, parent.id);
        var suggestion := ChildDiscriminator(c, parent.id, child.id);
        var field := producers[rep.value].field;
        issues := issues + [Issue(i, parent.id, child.id, field, parent.data[field], suggestion)];
      }
      i := i + 1;
    }
  }

  // ---- allowedNextLayers ----

  /** An entry of the menu: reachable from the parent by its discriminator. */
  ghost predicate Offers(hs: seq<Header>, js: Host, producers: seq<Producer>, n: NextLayer)
  {
    n.discriminator.Some? && Route(hs, js, producers, n.id, n.discriminator.value)
  }

  ghost predicate MenuOk(hs: seq<Header>, js: Host, producers: seq<Producer>, menu: seq<NextLayer>, seen: set<string>)
  {
    && (forall k :: 0 <= k < |menu| ==> Offers(hs, js, producers, menu[k]) && menu[k].id in seen)
    && (forall j, k :: 0 <= j < k < |menu| ==> menu[j].id != menu[k].id)
    && (forall id :: id in seen ==> exists k :: 0 <= k < |menu| && menu[k].id == id)
  }

  /** Pushes a child not seen before. */
  method AddChild(ghost hs: seq<Header>, ghost js: Host, ghost producers: seq<Producer>, menu: seq<NextLayer>,
                  seen: set<string>,
                  id: string, d: Discriminator) returns (menu': seq<NextLayer>, seen': set<string>)
    requires MenuOk(hs, js, producers, menu, seen) && Route(hs, js, producers, id, d)
    ensures MenuOk(hs, js, producers, menu', seen') && seen' == seen + {id}
  {
    hide Route;
    menu', seen' := menu, seen + {id};
    if id !in seen {
      menu' := menu + [NextLayer(id, Some(d))];
      forall x | x in seen' ensures exists k :: 0 <= k < |menu'| && menu'[k].id == x {
        if x == id {
          assert menu'[|menu|].id == id;
        } else {
          var k :| 0 <= k < |menu| && menu[k].id == x;
          assert menu'[k].id == x;
        }
      }
    }
  }

  /** The children of one bucket. */
  method AddBucket(c: CodecTables, ghost producers: seq<Producer>, ghost q: nat, p: Producer, raw: string,
                   menu: seq<NextLayer>, seen: set<string>) returns (menu': seq<NextLayer>, seen': set<string>)
    requires c.Valid() && q < |producers| && producers[q] == p && MenuOk(c.headers, c.js, producers, menu, seen)
    ensures MenuOk(c.headers, c.js, producers, menu', seen') && seen <= seen'
    ensures forall id :: InBucket(c.headers, SortedBucket(c.headers, p.ns + ":" + raw), id) ==> id in seen'
  {
    hide MenuOk, SortedBucket, Route, RouteVia, ValueFor, SortedRanges, SortedHeuristics, FirstWith;
    var bucket := At(c.dispatchTable, p.ns + ":" + raw);
    menu', seen' := menu, seen;
    var i := 0;
    while i < |bucket|
      invariant i <= |bucket| && MenuOk(c.headers, c.js, producers, menu', seen') && seen <= seen'
      invariant forall j :: 0 <= j < i && bucket[j] < |c.headers| ==> c.headers[bucket[j]].id in seen'
    {
      if bucket[i] < |c.headers| {
        var id, v := c.headers[bucket[i]].id, ValueFor(c.js, p, raw);
        BucketRoute(c.headers, c.js, producers, q, raw, i);
        menu', seen' := AddChild(c.headers, c.js, producers, menu', seen', id, Discriminator(p.field, v));
      }
      i := i + 1;
    }
  }

  lemma BucketRoute(hs: seq<Header>, js: Host, producers: seq<Producer>, q: nat, raw: string, i: nat)
    requires q < |producers|
    requires var s := SortedBucket(hs, producers[q].ns + ":" + raw); i < |s| && s[i] < |hs|
    ensures var p := producers[q];
      Route(hs, js, producers, hs[SortedBucket(hs, p.ns + ":" + raw)[i]].id,
            Discriminator(p.field, ValueFor(js, p, raw)))
  {
    hide SortedBucket, ValueFor;
    var p := producers[q];
    var id := hs[SortedBucket(hs, p.ns + ":" + raw)[i]].id;
    assert KeyRoute(hs, js, p, raw, id, ValueFor(js, p, raw));
    assert RouteVia(hs, js, p, id, ValueFor(js, p, raw));
  }

  lemma RangeRouteIsRoute(hs: seq<Header>, js: Host, producers: seq<Producer>, q: nat, k: nat, id: string, v: Value)
    requires q < |producers| && RangeRoute(hs, producers[q], k, id, v)
    ensures Route(hs, js, producers, id, Discriminator(producers[q].field, v))
  {
    hide RangeRoute;
    assert RouteVia(hs, js, producers[q], id, v);
  }

  /** The range-keyed children of one namespace, hinted by the low end of their range. */
  method AddRanges(c: CodecTables, ghost producers: seq<Producer>, ghost q: nat, p: Producer,
                   menu: seq<NextLayer>, seen: set<string>) returns (menu': seq<NextLayer>, seen': set<string>)
    requires c.Valid() && q < |producers| && producers[q] == p && MenuOk(c.headers, c.js, producers, menu, seen)
    ensures MenuOk(c.headers, c.js, producers, menu', seen') && seen <= seen'
    ensures forall k, id, v :: RangeRoute(c.headers, p, k, id, v) ==> id in seen'
  {
    hide MenuOk, SortedRanges, Route, RouteVia;
    var ranges := At(c.rangeTable, p.ns);
    menu', seen' := menu, seen;
    var i := 0;
    while i < |ranges|
      invariant i <= |ranges| && MenuOk(c.headers, c.js, producers, menu', seen') && seen <= seen'
      invariant forall j :: 0 <= j < i && ranges[j].header < |c.headers| ==> c.headers[ranges[j].header].id in seen'
    {
      if ranges[i].header < |c.headers| {
        var id, v := c.headers[ranges[i].header].id, Num(Integer(ranges[i].lo));
        assert RangeRoute(c.headers, p, i, id, v);
        RangeRouteIsRoute(c.headers, c.js, producers, q, i, id, v);
        menu', seen' := AddChild(c.headers, c.js, producers, menu', seen', id, Discriminator(p.field, v));
      }
      i := i + 1;
    }
  }

  predicate StartsWith(s: string, prefix: string) { |prefix| <= |s| && s[..|prefix|] == prefix }

  /** The bucket of `key`, which has the prefix, holds a header with the id. */
  ghost predicate Under(c: CodecTables, key: string, prefix: string, id: string)
  {
    StartsWith(key, prefix) && InBucket(c.headers, SortedBucket(c.headers, key), id)
  }

  /** The children one producer leads to: every bucket of its namespace, then its ranges. */
  method AddProducer(c: CodecTables, ghost producers: seq<Producer>, ghost q: nat, p: Producer,
                     menu: seq<NextLayer>, seen: set<string>) returns (menu': seq<NextLayer>, seen': set<string>)
    requires c.Valid() && q < |producers| && producers[q] == p && MenuOk(c.headers, c.js, producers, menu, seen)
    ensures MenuOk(c.headers, c.js, producers, menu', seen') && seen <= seen'
    ensures forall id, v :: RouteVia(c.headers, c.js, p, id, v) ==> id in seen'
  {
    hide MenuOk, SortedBucket, RangeRoute;
    var prefix := p.ns + ":";
    menu', seen' := menu, seen;
    var i := 0;
    while i < |c.bucketKeys|
      invariant i <= |c.bucketKeys| && MenuOk(c.headers, c.js, producers, menu', seen') && seen <= seen'
      invariant forall j, id :: 0 <= j < i && Under(c, c.bucketKeys[j], prefix, id) ==> id in seen'
    {
      var key := c.bucketKeys[i];
      if StartsWith(key, prefix) {
        var raw := key[|prefix|..];
        assert prefix + raw == key;
        menu', seen' := AddBucket(c, producers, q, p, raw, menu', seen');
      }
      i := i + 1;
    }
    forall raw, id, v | KeyRoute(c.headers, c.js, p, raw, id, v) ensures id in seen' {
      var key := prefix + raw;
      assert At(c.dispatchTable, key) == SortedBucket(c.headers, key);
      assert key in c.dispatchTable && key in c.bucketKeys;
      var j :| 0 <= j < |c.bucketKeys| && c.bucketKeys[j] == key;
      assert Under(c, c.bucketKeys[j], prefix, id);
    }
    menu', seen' := AddRanges(c, producers, q, p, menu', seen');
  }

  method Menu(c: CodecTables, parentId: string) returns (menu: seq<NextLayer>)
    requires c.Valid()
    ensures forall k :: 0 <= k < |menu| ==> Offers(c.headers, c.js, ProducersOf(c.headers, parentId), menu[k])
    ensures forall j, k :: 0 <= j < k < |menu| ==> menu[j].id != menu[k].id
    ensures forall id, d :: Route(c.headers, c.js, ProducersOf(c.headers, parentId), id, d) ==>
      exists k :: 0 <= k < |menu| && menu[k].id == id
  {
    hide RouteVia;
    var producers := FindProducers(c, parentId);
    menu := [];
    var seen: set<string> := {};
    var q := 0;
    while q < |producers|
      invariant q <= |producers| && MenuOk(c.headers, c.js, producers, menu, seen)
      invariant forall j, id, v :: 0 <= j < q && RouteVia(c.headers, c.js, producers[j], id, v) ==> id in seen
    {
      menu, seen := AddProducer(c, producers, q, producers[q], menu, seen);
      q := q + 1;
    }
  }

  method AllowedNextLayers(c: CodecTables, parentId: string) returns (result: seq<NextLayer>)
    requires c.Valid()
    ensures |result| > 0 && result[|result| - 1] == NextLayer(RAW, None)
    ensures forall k :: 0 <= k < |result| - 1 ==> Offers(c.headers, c.js, ProducersOf(c.headers, parentId), result[k])
    ensures forall j, k :: 0 <= j < k < |result| - 1 ==> result[j].id != result[k].id
    ensures forall id, d :: Route(c.headers, c.js, ProducersOf(c.headers, parentId), id, d) ==>
      exists k :: 0 <= k < |result| - 1 && result[k].id == id
  {
    hide Route;
    var menu := Menu(c, parentId);
    result := menu + [NextLayer(RAW, None)];
    forall id, d | Route(c.headers, c.js, ProducersOf(c.headers, parentId), id, d)
      ensures exists k :: 0 <= k < |result| - 1 && result[k].id == id
    {
      var k :| 0 <= k < |menu| && menu[k].id == id;
      assert result[k].id == id;
    }
  }

  /** `childDiscriminator`: the first menu entry for the child that carries a discriminator. */
  method ChildDiscriminator(c: CodecTables, parentId: string, childId: string) returns (d: Option<Discriminator>)
    requires c.Valid()
    ensures Suggested(c.headers, c.js, parentId, childId, d)
  {
    hide Route, ProducersOf;
    var menu := AllowedNextLayers(c, parentId);
    var k := 0;
    while k < |menu|
      invariant k <= |menu|
      invariant forall j :: 0 <= j < k ==> menu[j].id != childId || menu[j].discriminator.None?
    {
      if menu[k].id == childId && menu[k].discriminator.Some? { return menu[k].discriminator; }
      k := k + 1;
    }
    d := None;
  }
}
