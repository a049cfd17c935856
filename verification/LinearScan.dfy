/** Selection through the tables is a linear scan for the least accepting header. */
module LinearScan {
  import opened Bytes
  import opened Dispatch
  import opened StableSort

  /** Higher priority first, registration order among equals; 0 stands for the priority of no header. */
  predicate Outranks(hs: seq<Header>, i: nat, j: nat)
  {
    var p, q := if i < |hs| then hs[i].priority else 0, if j < |hs| then hs[j].priority else 0;
    p > q || (p == q && i <= j)
  }

  /** Header `i` claims a demux key, exactly or through a range. */
  predicate Offer(hs: seq<Header>, js: Host, key: string, byRange: bool, i: nat)
  {
    i < |hs| && hs[i].id != "raw"
    && if byRange then
         RangeValue(js, key).Some? && Spans(hs[i], RangeValue(js, key).value.0, RangeValue(js, key).value.1)
       else key in hs[i].matchKeys && ParseRange(key).None?
  }

  /** One of the header's range keys has this namespace and holds the number. */
  predicate Spans(h: Header, ns: string, value: int)
  {
    exists k ::
      0 <= k < |h.matchKeys|
      && var r := ParseRange(h.matchKeys[k]); r.Some? && r.value.ns == ns && r.value.lo <= value <= r.value.hi
  }

  lemma OfferIs(hs: seq<Header>, js: Host, key: string, byRange: bool, i: nat)
    ensures Offer(hs, js, key, byRange, i)
       <==> i < |hs| && hs[i].id != RAW
            && if byRange then
                 RangeValue(js, key).Some? && InRange(hs[i], RangeValue(js, key).value.0, RangeValue(js, key).value.1)
               else Exact(hs[i], key)
  {
    hide ParseRange, RangeValue;
    forall h: Header, ns, value ensures Spans(h, ns, value) <==> InRange(h, ns, value) { SpansIs(h, ns, value); }
  }

  lemma SpansIs(h: Header, ns: string, value: int)
    ensures Spans(h, ns, value) <==> InRange(h, ns, value)
  {
    hide ParseRange;
    assert forall k :: 0 <= k < |h.matchKeys| ==>
      (Covers(h.matchKeys[k], ns, value)
       <==> var r := ParseRange(h.matchKeys[k]); r.Some? && r.value.ns == ns && r.value.lo <= value <= r.value.hi);
  }

  /** Header `i` is tried by content. */
  predicate ByContent(hs: seq<Header>, i: nat)
  {
    i < |hs| && hs[i].id != "raw" && (hs[i].matchKeys == [] || hs[i].heuristicFallback)
  }

  /** At or after: by demux-key position, exact claims before ranges, priority, registration order. */
  predicate Precedes(hs: seq<Header>, k: nat, byRange: bool, i: nat, k': nat, byRange': bool, i': nat)
  {
    k < k' || (k == k' && ((!byRange && byRange') || (byRange == byRange' && Outranks(hs, i, i'))))
  }

  ghost predicate LeastOffer(hs: seq<Header>, js: Host, keys: seq<string>, accepts: nat -> bool, k: nat, byRange: bool,
                             i: nat)
  {
    && k < |keys| && Offer(hs, js, keys[k], byRange, i) && accepts(i)
    && forall k', byRange', i' :: 0 <= k' < |keys| && Offer(hs, js, keys[k'], byRange', i') && accepts(i')
         ==> Precedes(hs, k, byRange, i, k', byRange', i')
  }

  ghost predicate LeastContent(hs: seq<Header>, accepts: nat -> bool, i: nat)
  {
    ByContent(hs, i) && accepts(i) && forall i' :: ByContent(hs, i') && accepts(i') ==> Outranks(hs, i, i')
  }

  // ---- the sorted lists ----

  lemma SortedBucketFacts(hs: seq<Header>, key: string)
    ensures forall i: nat :: i in SortedBucket(hs, key) <==> i < |hs| && hs[i].id != RAW && Exact(hs[i], key)
    ensures forall a, b :: 0 <= a < b < |SortedBucket(hs, key)| ==>
      Outranks(hs, SortedBucket(hs, key)[a], SortedBucket(hs, key)[b])
  {
    hide Exact;
    BucketInOrder(hs, key);
    var rank := Rank(hs);
    SortRanked(Bucket(hs, key), rank, Self);
    forall i: nat ensures i in SortedBucket(hs, key) <==> i < |hs| && hs[i].id != RAW && Exact(hs[i], key) {
      SortKeeps(Bucket(hs, key), rank, i);
      BucketHolds(hs, key, i);
    }
    RankedOutranks(hs, SortedBucket(hs, key), rank);
  }

  lemma RankedOutranks(hs: seq<Header>, s: seq<nat>, rank: nat -> int)
    requires Ranked(s, rank, Self) && forall i: nat :: rank(i) == Priority(hs, i)
    ensures forall a, b :: 0 <= a < b < |s| ==> Outranks(hs, s[a], s[b])
  {
    forall a, b | 0 <= a < b < |s| ensures Outranks(hs, s[a], s[b]) {
      assert Before(s[a], s[b], rank, Self);
    }
  }

  lemma {:induction false} FirstAcceptedIs(hs: seq<Header>, s: seq<nat>, accepts: nat -> bool)
    requires forall a, b :: 0 <= a < b < |s| ==> Outranks(hs, s[a], s[b])
    ensures var r := FirstAccepted(s, accepts);
      if r.Some? then r.value in s && accepts(r.value)
        && (forall j :: j in s && accepts(j) ==> Outranks(hs, r.value, j))
      else (forall j :: j in s ==> !accepts(j))
    decreases |s|
  {
    if s != [] {
      assert s == [s[0]] + s[1..];
      if accepts(s[0]) {
        forall j | j in s && accepts(j) ensures Outranks(hs, s[0], j) {
          var k :| 0 <= k < |s| && s[k] == j;
        }
      } else {
        FirstAcceptedIs(hs, s[1..], accepts);
      }
    }
  }

  lemma HeuristicsFacts(hs: seq<Header>)
    ensures forall i: nat :: i in SortedHeuristics(hs) <==> ByContent(hs, i)
    ensures forall a, b :: 0 <= a < b < |SortedHeuristics(hs)| ==>
      Outranks(hs, SortedHeuristics(hs)[a], SortedHeuristics(hs)[b])
  {
    HeuristicsInOrder(hs);
    var rank := Rank(hs);
    SortRanked(Heuristics(hs), rank, Self);
    forall i: nat ensures i in SortedHeuristics(hs) <==> ByContent(hs, i) {
      SortKeeps(Heuristics(hs), rank, i);
      HeuristicsHold(hs, i);
    }
    RankedOutranks(hs, SortedHeuristics(hs), rank);
  }

  // ---- ranges ----

  predicate RangesRanked(hs: seq<Header>, s: seq<RangeEntry>)
  {
    forall a, b :: 0 <= a < b < |s| ==> Outranks(hs, s[a].header, s[b].header)
  }

  lemma SortedRangesFacts(hs: seq<Header>, ns: string, value: int)
    ensures RangesRanked(hs, SortedRanges(hs, ns))
    ensures forall i: nat ::
      CoversFor(SortedRanges(hs, ns), i, value) <==> i < |hs| && hs[i].id != RAW && InRange(hs[i], ns, value)
  {
    hide InRange;
    var rank := RangeRank(hs);
    var s, sorted := Ranges(hs, ns), SortedRanges(hs, ns);
    RangesInOrder(hs, ns);
    SortRanked(s, rank, HeaderOf);
    forall a, b | 0 <= a < b < |sorted| ensures Outranks(hs, sorted[a].header, sorted[b].header) {
      assert Before(sorted[a], sorted[b], rank, HeaderOf);
    }
    forall i: nat ensures CoversFor(sorted, i, value) <==> i < |hs| && hs[i].id != RAW && InRange(hs[i], ns, value) {
      RangesHold(hs, ns, value, i);
      forall r ensures r in sorted <==> r in s { SortKeeps(s, rank, r); }
      SameCoverage(s, sorted, i, value);
    }
  }

  lemma SameCoverage(s: seq<RangeEntry>, t: seq<RangeEntry>, i: nat, value: int)
    requires forall r :: r in t <==> r in s
    ensures CoversFor(s, i, value) <==> CoversFor(t, i, value)
  {
    if CoversFor(s, i, value) {
      var k :| 0 <= k < |s| && s[k].header == i && s[k].lo <= value <= s[k].hi;
      assert s[k] in t;
    }
    if CoversFor(t, i, value) {
      var k :| 0 <= k < |t| && t[k].header == i && t[k].lo <= value <= t[k].hi;
      assert t[k] in s;
    }
  }

  lemma {:induction false} FirstAdmittedIs(hs: seq<Header>, s: seq<RangeEntry>, value: int, accepts: nat -> bool)
    requires RangesRanked(hs, s)
    ensures var r := FirstAdmitted(s, value, accepts);
      if r.Some? then CoversFor(s, r.value, value) && accepts(r.value)
        && (forall j: nat :: CoversFor(s, j, value) && accepts(j) ==> Outranks(hs, r.value, j))
      else (forall j: nat :: CoversFor(s, j, value) ==> !accepts(j))
    decreases |s|
  {
    if s != [] {
      FirstAdmittedIs(hs, s[1..], value, accepts);
      var r := FirstAdmitted(s, value, accepts);
      forall j: nat ensures CoversFor(s, j, value)
        <==> (s[0].header == j && s[0].lo <= value <= s[0].hi) || CoversFor(s[1..], j, value) {
        assert s == [s[0]] + s[1..];
        CoversForEither([s[0]], s[1..], j, value);
        assert CoversFor([s[0]], j, value) <==> [s[0]][0].header == j && [s[0]][0].lo <= value <= [s[0]][0].hi;
      }
      forall j: nat | CoversFor(s[1..], j, value) ensures Outranks(hs, s[0].header, j) {
        var k :| 0 <= k < |s[1..]| && s[1..][k].header == j;
        assert Outranks(hs, s[0].header, s[k + 1].header);
      }
    }
  }

  // ---- one key, all keys ----

  ghost predicate LeastForKey(hs: seq<Header>, js: Host, key: string, accepts: nat -> bool, byRange: bool, i: nat)
  {
    && Offer(hs, js, key, byRange, i) && accepts(i)
    && forall byRange', i' :: Offer(hs, js, key, byRange', i') && accepts(i')
         ==> (!byRange && byRange') || (byRange == byRange' && Outranks(hs, i, i'))
  }

  ghost predicate NoneForKey(hs: seq<Header>, js: Host, key: string, accepts: nat -> bool)
  {
    forall byRange, i :: Offer(hs, js, key, byRange, i) ==> !accepts(i)
  }

  lemma ByKeyIs(hs: seq<Header>, js: Host, key: string, accepts: nat -> bool) returns (byRange: bool)
    ensures var r := ByKey(hs, js, key, accepts);
      if r.Some? then LeastForKey(hs, js, key, accepts, byRange, r.value) else NoneForKey(hs, js, key, accepts)
  {
    hide Exact, InRange, SortedBucket, SortedRanges, CoversFor, Offer;
    forall byRange, i: nat
      ensures Offer(hs, js, key, byRange, i)
         <==> i < |hs| && hs[i].id != RAW
              && if byRange then
                   RangeValue(js, key).Some? && InRange(hs[i], RangeValue(js, key).value.0, RangeValue(js, key).value.1)
                 else Exact(hs[i], key)
    {
      OfferIs(hs, js, key, byRange, i);
    }
    SortedBucketFacts(hs, key);
    FirstAcceptedIs(hs, SortedBucket(hs, key), accepts);
    byRange := FirstAccepted(SortedBucket(hs, key), accepts).None?;
    if byRange && RangeValue(js, key).Some? {
      var (ns, value) := RangeValue(js, key).value;
      SortedRangesFacts(hs, ns, value);
      FirstAdmittedIs(hs, SortedRanges(hs, ns), value, accepts);
    }
  }

  lemma {:induction false} ByKeysIs(hs: seq<Header>, js: Host, keys: seq<string>, accepts: nat -> bool)
    returns (k: nat, byRange: bool)
    ensures var r := ByKeys(hs, js, keys, accepts);
      if r.Some? then k < |keys| && LeastForKey(hs, js, keys[k], accepts, byRange, r.value)
        && (forall k' :: 0 <= k' < k ==> NoneForKey(hs, js, keys[k'], accepts))
      else (forall k' :: 0 <= k' < |keys| ==> NoneForKey(hs, js, keys[k'], accepts))
    decreases |keys|
  {
    hide ByKey, LeastForKey, NoneForKey;
    k, byRange := 0, false;
    if keys != [] {
      byRange := ByKeyIs(hs, js, keys[0], accepts);
      if ByKey(hs, js, keys[0], accepts).None? {
        k, byRange := ByKeysIs(hs, js, keys[1..], accepts);
        assert forall j :: 0 <= j < |keys[1..]| ==> keys[1..][j] == keys[j + 1];
        k := k + 1;
        assert keys[1..] != [] || ByKeys(hs, js, keys[1..], accepts).None?;
        forall k' | 0 <= k' < |keys| && (ByKeys(hs, js, keys, accepts).Some? ==> k' < k)
          ensures NoneForKey(hs, js, keys[k'], accepts)
        {
          if k' > 0 { assert keys[k'] == keys[1..][k' - 1]; }
        }
      }
    }
  }

  ghost predicate Offered(hs: seq<Header>, js: Host, keys: seq<string>, accepts: nat -> bool)
  {
    exists k, byRange, i :: 0 <= k < |keys| && Offer(hs, js, keys[k], byRange, i) && accepts(i)
  }

  /** The catch-all is the last header registered as one. */
  lemma {:induction false} LastRaw(hs: seq<Header>)
    ensures match RawOf(hs)
            case Some(i) => i < |hs| && hs[i].id == "raw" && forall j :: i < j < |hs| ==> hs[j].id != "raw"
            case None => forall j :: 0 <= j < |hs| ==> hs[j].id != "raw"
    decreases |hs|
  {
    if hs != [] && hs[|hs| - 1].id != RAW {
      LastRaw(hs[..|hs| - 1]);
      assert forall j :: 0 <= j < |hs| - 1 ==> hs[..|hs| - 1][j] == hs[j];
    }
  }

  /**
   * The selected header is the accepting one that is least by demux-key position, then exact before range, then
   * priority, then registration order; without one, the least accepting header tried by content; without either,
   * the last catch-all registered, or the built-in one.
   */
  lemma SelectIsLeast(hs: seq<Header>, js: Host, keys: seq<string>, accepts: nat -> bool)
    returns (k: nat, byRange: bool)
    ensures var choice := Select(hs, js, keys, accepts);
      if Offered(hs, js, keys, accepts) then choice.Chosen?
        && LeastOffer(hs, js, keys, accepts, k, byRange, choice.header)
      else if exists i :: ByContent(hs, i) && accepts(i) then choice.Chosen? && LeastContent(hs, accepts, choice.header)
      else match choice
           case Chosen(i) => i < |hs| && hs[i].id == "raw" && forall j :: i < j < |hs| ==> hs[j].id != "raw"
           case Fallback => forall j :: 0 <= j < |hs| ==> hs[j].id != "raw"
  {
    hide ByKeys, SortedHeuristics, Offer, ByContent;
    LastRaw(hs);
    k, byRange := ByKeysIs(hs, js, keys, accepts);
    HeuristicsFacts(hs);
    FirstAcceptedIs(hs, SortedHeuristics(hs), accepts);
    var r := ByKeys(hs, js, keys, accepts);
    if r.Some? {
      assert Offer(hs, js, keys[k], byRange, r.value) && accepts(r.value);
      assert forall k' :: 0 <= k' < k ==> NoneForKey(hs, js, keys[k'], accepts);
      forall k', byRange', i' | 0 <= k' < |keys| && Offer(hs, js, keys[k'], byRange', i') && accepts(i')
        ensures Precedes(hs, k, byRange, r.value, k', byRange', i')
      {
      }
    }
  }
}
