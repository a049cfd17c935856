/** Walking a byte region element by element: what is cut short or malformed stays behind, verbatim, as the rest. */
module TlvWalk {
  import opened Bytes
  import opened HeaderFields

  /**
   * How one element is delimited, read and printed. `first` gives the length of a complete element at the front of
   * the bytes; `settled` is an element with its derived fields filled in; `good` says the wire can hold it.
   */
  datatype Format<!T> = Format(
    first: seq<byte> -> Option<nat>,
    read: seq<byte> -> T,
    spell: T -> seq<byte>,
    settled: T -> T,
    good: T -> bool)

  datatype Walked<T> = Walked(items: seq<T>, rest: seq<byte>)

  predicate Complete<T>(f: Format<T>, p: seq<byte>)
  {
    f.first(p).Some? && 1 <= f.first(p).value <= |p|
  }

  function Walk<T>(f: Format<T>, p: seq<byte>): Walked<T>
    decreases |p|
  {
    if !Complete(f, p) then Walked([], p)
    else Preceded([f.read(p)], Walk(f, p[f.first(p).value..]))
  }

  function Preceded<T>(items: seq<T>, w: Walked<T>): Walked<T>
  {
    Walked(items + w.items, w.rest)
  }

  function Items<T>(f: Format<T>, items: seq<T>): seq<byte>
  {
    if items == [] then [] else f.spell(items[0]) + Items(f, items[1..])
  }

  function Printed<T>(f: Format<T>, w: Walked<T>): seq<byte>
  {
    Items(f, w.items) + w.rest
  }

  function Settled<T>(f: Format<T>, items: seq<T>): (r: seq<T>)
    ensures |r| == |items|
  {
    seq(|items|, i requires 0 <= i < |items| => f.settled(items[i]))
  }

  /** What a format owes: reading then printing is the identity, and printing then reading settles a good element. */
  ghost predicate Lawful<T(!new)>(f: Format<T>)
  {
    && (forall p :: Complete(f, p) ==> f.spell(f.read(p)) == p[..f.first(p).value] && f.good(f.read(p)))
    && (forall t :: f.good(f.settled(t)) ==> f.good(t))
    && (forall t, rest :: f.good(t) ==>
         f.first(f.spell(t) + rest) == Some(|f.spell(t)|) && |f.spell(t)| >= 1
           && f.read(f.spell(t) + rest) == f.settled(t))
  }

  // ---- the loops that walk and print ----

  lemma WalkBegins<T>(w: Walked<T>)
    ensures Preceded([], w) == w
  {
    AppendNil(w.items);
  }

  lemma WalkStep<T>(f: Format<T>, p: seq<byte>, offset: nat, items: seq<T>)
    requires offset <= |p| && Complete(f, p[offset..])
    ensures offset + f.first(p[offset..]).value <= |p|
    ensures Preceded(items, Walk(f, p[offset..]))
         == Preceded(items + [f.read(p[offset..])], Walk(f, p[offset + f.first(p[offset..]).value..]))
  {
    var n := f.first(p[offset..]).value;
    assert p[offset..][n..] == p[offset + n..];
    AppendAssociates(items, [f.read(p[offset..])], Walk(f, p[offset + n..]).items);
  }

  lemma WalkStops<T>(f: Format<T>, p: seq<byte>, offset: nat, items: seq<T>)
    requires offset <= |p| && !Complete(f, p[offset..])
    ensures Preceded(items, Walk(f, p[offset..])) == Walked(items, p[offset..])
  {
    AppendNil(items);
  }

  lemma {:induction false} ItemsAppend<T>(f: Format<T>, items: seq<T>, last: T)
    ensures Items(f, items + [last]) == Items(f, items) + f.spell(last)
    decreases |items|
  {
    if items == [] {
      AppendNil(f.spell(last));
    } else {
      assert (items + [last])[1..] == items[1..] + [last];
      ItemsAppend(f, items[1..], last);
      AppendAssociates(f.spell(items[0]), Items(f, items[1..]), f.spell(last));
    }
  }

  lemma ItemsStep<T>(f: Format<T>, items: seq<T>, i: nat)
    requires i < |items|
    ensures Items(f, items[..i + 1]) == Items(f, items[..i]) + f.spell(items[i])
  {
    assert items[..i + 1] == items[..i] + [items[i]];
    ItemsAppend(f, items[..i], items[i]);
  }

  // ---- round trips ----

  /** Printing what was walked gives the region back, however malformed its inner lengths. */
  lemma {:induction false} WalkPrints<T(!new)>(f: Format<T>, p: seq<byte>)
    requires Lawful(f)
    ensures Printed(f, Walk(f, p)) == p
    decreases |p|
  {
    if !Complete(f, p) {
      AppendNil(p);
    } else {
      var n := f.first(p).value;
      WalkPrints(f, p[n..]);
      PrintedPreceded(f, f.read(p), Walk(f, p[n..]));
      assert p == p[..n] + p[n..];
    }
  }

  lemma PrintedPreceded<T>(f: Format<T>, item: T, w: Walked<T>)
    ensures Printed(f, Preceded([item], w)) == f.spell(item) + Printed(f, w)
  {
    assert ([item] + w.items)[1..] == w.items;
    AppendAssociates(f.spell(item), Items(f, w.items), w.rest);
  }

  /** Crafted elements come back settled exactly when each is good and no complete element hides in the rest. */
  lemma PrintWalksIff<T(!new)>(f: Format<T>, w: Walked<T>)
    requires Lawful(f)
    ensures Walk(f, Printed(f, w)) == Walked(Settled(f, w.items), w.rest)
       <==> (forall i :: 0 <= i < |w.items| ==> f.good(w.items[i])) && !Complete(f, w.rest)
  {
    if (forall i :: 0 <= i < |w.items| ==> f.good(w.items[i])) && !Complete(f, w.rest) {
      PrintWalks(f, w);
    }
    if Walk(f, Printed(f, w)) == Walked(Settled(f, w.items), w.rest) {
      WalkedGood(f, Printed(f, w));
      forall i | 0 <= i < |w.items| ensures f.good(w.items[i]) {
        assert f.good(Settled(f, w.items)[i]);
      }
    }
  }

  lemma {:induction false} PrintWalks<T(!new)>(f: Format<T>, w: Walked<T>)
    requires Lawful(f) && (forall i :: 0 <= i < |w.items| ==> f.good(w.items[i])) && !Complete(f, w.rest)
    ensures Walk(f, Printed(f, w)) == Walked(Settled(f, w.items), w.rest)
    decreases |w.items|
  {
    if w.items == [] {
      AppendNil(w.rest);
    } else {
      var t, others := w.items[0], Walked(w.items[1..], w.rest);
      PrintWalks(f, others);
      assert w.items == [t] + others.items;
      PrintedPreceded(f, t, others);
      assert f.good(t);
      var p := f.spell(t) + Printed(f, others);
      assert p[|f.spell(t)|..] == Printed(f, others);
      assert Settled(f, w.items) == [f.settled(t)] + Settled(f, others.items);
    }
  }

  lemma {:induction false} WalkedGood<T(!new)>(f: Format<T>, p: seq<byte>)
    requires Lawful(f)
    ensures forall i :: 0 <= i < |Walk(f, p).items| ==> f.good(Walk(f, p).items[i])
    ensures !Complete(f, Walk(f, p).rest)
    decreases |p|
  {
    if Complete(f, p) {
      WalkedGood(f, p[f.first(p).value..]);
    }
  }

  /** Filling in derived fields does not change how good elements are printed. */
  lemma {:induction false} SettledPrints<T(!new)>(f: Format<T>, items: seq<T>)
    requires Lawful(f) && forall i :: 0 <= i < |items| ==> f.good(items[i])
    ensures Items(f, Settled(f, items)) == Items(f, items)
    decreases |items|
  {
    if items != [] {
      assert f.good(items[0]);
      var p := f.spell(items[0]) + [];
      assert Complete(f, p) && f.read(p) == f.settled(items[0]);
      assert f.spell(f.settled(items[0])) == p[..|f.spell(items[0])|] == f.spell(items[0]);
      assert Settled(f, items)[1..] == Settled(f, items[1..]);
      SettledPrints(f, items[1..]);
    }
  }

  // ---- what encoding records ----

  /** The issues of all elements, in order, each numbered by its place. */
  function Reported<T>(report: (T, nat) -> seq<Issue>, items: seq<T>): seq<Issue>
  {
    if items == [] then [] else Reported(report, items[..|items| - 1]) + report(items[|items| - 1], |items| - 1)
  }

  lemma ReportedStep<T>(report: (T, nat) -> seq<Issue>, items: seq<T>, i: nat)
    requires i < |items|
    ensures Reported(report, items[..i + 1]) == Reported(report, items[..i]) + report(items[i], i)
  {
    assert items[..i + 1][..i] == items[..i];
  }

  lemma {:induction false} ReportedNone<T>(report: (T, nat) -> seq<Issue>, items: seq<T>)
    requires forall i :: 0 <= i < |items| ==> report(items[i], i) == []
    ensures Reported(report, items) == []
    decreases |items|
  {
    if items != [] { ReportedNone(report, items[..|items| - 1]); }
  }

  lemma NothingYet<T>(f: Format<T>, report: (T, nat) -> seq<Issue>)
    ensures Items(f, []) == [] && Reported(report, []) == []
  {
  }
}
