/** The texts of dispatch keys: what a range key, a demux key and the number in it are, character by character. */
module KeyForms {
  import opened Bytes
  import opened Dispatch
  import opened JsStrings

  // ---- decimal numbers ----

  function Ten(n: nat): (t: nat)
    ensures t >= 1
  {
    if n == 0 then 1 else 10 * Ten(n - 1)
  }

  /** Each digit by its place. */
  function PlaceValue(s: string): nat
    requires AllDigits(s)
  {
    if s == "" then 0
    else
      var d: nat := s[0] as int - '0' as int;
      d * Ten(|s| - 1) + PlaceValue(s[1..])
  }

  lemma {:induction false} PlaceSnoc(s: string, c: char)
    requires AllDigits(s) && '0' <= c <= '9'
    ensures AllDigits(s + [c]) && PlaceValue(s + [c]) == PlaceValue(s) * 10 + (c as int - '0' as int)
    decreases |s|
  {
    var t := s + [c];
    if s == "" {
      assert t[1..] == "" && Ten(0) == 1;
    } else {
      assert t[0] == s[0] && t[1..] == s[1..] + [c];
      PlaceSnoc(s[1..], c);
      var d: nat := s[0] as int - '0' as int;
      assert Ten(|s|) == 10 * Ten(|s| - 1);
      Regroup(d, Ten(|s| - 1), PlaceValue(s[1..]));
    }
  }

  lemma Regroup(d: nat, t: nat, v: nat)
    ensures d * (10 * t) + v * 10 == (d * t + v) * 10
  {
  }

  lemma {:induction false} DigitsByPlace(s: string)
    requires AllDigits(s)
    ensures DigitsValue(s) == PlaceValue(s)
    decreases |s|
  {
    if s != "" {
      var n := |s| - 1;
      DigitsByPlace(s[..n]);
      PlaceSnoc(s[..n], s[n]);
      assert s == s[..n] + [s[n]];
    }
  }

  /** An integer is printed in digits that read as it, without leading zeros, behind a minus sign when negative. */
  lemma {:induction false} DecimalReads(n: nat)
    ensures Digits(DecimalNat(n)) && PlaceValue(DecimalNat(n)) == n
    ensures n > 0 ==> DecimalNat(n)[0] != '0'
    ensures Decimal(n) == DecimalNat(n) && (n > 0 ==> Decimal(0 - n) == "-" + DecimalNat(n))
    decreases n
  {
    if n < 10 {
      PlaceSnoc("", Digit(n));
      assert "" + [Digit(n)] == [Digit(n)];
    } else {
      DecimalReads(n / 10);
      PlaceSnoc(DecimalNat(n / 10), Digit(n % 10));
    }
  }

  // ---- range keys ----

  /** A namespace, a colon, and two decimal numbers with a dash between them, the first not above the second. */
  ghost predicate WritesRange(key: string, r: KeyRange)
  {
    exists a, b ::
      && Digits(a) && Digits(b) && key == r.ns + ":" + a + "-" + b && r.ns != "" && ':' !in r.ns
      && PlaceValue(a) == r.lo <= r.hi == PlaceValue(b)
  }

  lemma Splits(ns: string, a: string, b: string)
    requires ':' !in ns && AllDigits(a)
    ensures var key := ns + ":" + a + "-" + b;
      && IndexOf(key, ':', 0) == |ns| && key[..|ns|] == ns && key[|ns| + 1..] == a + "-" + b
      && IndexOf(a + "-" + b, '-', 0) == |a| && (a + "-" + b)[..|a|] == a && (a + "-" + b)[|a| + 1..] == b
  {
    var key, rest := ns + ":" + a + "-" + b, a + "-" + b;
    assert key[|ns|] == ':' && rest[|a|] == '-';
    assert forall j :: 0 <= j < |ns| ==> key[j] == ns[j] && ns[j] in ns;
    assert forall j :: 0 <= j < |a| ==> rest[j] == a[j];
  }

  lemma Joins(key: string, colon: nat, dash: nat)
    requires colon < |key| && key[colon] == ':' && dash < |key| - colon - 1 && key[colon + 1 + dash] == '-'
    ensures var rest := key[colon + 1..];
      key == key[..colon] + ":" + rest[..dash] + "-" + rest[dash + 1..]
  {
    var rest := key[colon + 1..];
    assert key == key[..colon] + [key[colon]] + rest && rest == rest[..dash] + [rest[dash]] + rest[dash + 1..];
  }

  lemma WrittenIsParsed(ns: string, a: string, b: string)
    requires Digits(a) && Digits(b) && ns != "" && ':' !in ns
    ensures var lo, hi := PlaceValue(a), PlaceValue(b);
      ParseRange(ns + ":" + a + "-" + b) == if lo <= hi then Some(KeyRange(ns, lo, hi)) else None
  {
    hide PlaceValue, DigitsValue, IndexOf;
    Splits(ns, a, b);
    DigitsByPlace(a);
    DigitsByPlace(b);
  }

  lemma ParsedIsWritten(key: string, r: KeyRange)
    requires ParseRange(key) == Some(r)
    ensures WritesRange(key, r)
  {
    hide PlaceValue, DigitsValue, AllDigits;
    var colon := IndexOf(key, ':', 0);
    var rest := key[colon + 1..];
    var dash := IndexOf(rest, '-', 0);
    var a, b := rest[..dash], rest[dash + 1..];
    Joins(key, colon, dash);
    DigitsByPlace(a);
    DigitsByPlace(b);
    assert ':' !in key[..colon];
    assert Digits(a) && Digits(b) && key == r.ns + ":" + a + "-" + b;
  }

  /** A key is taken for a range exactly when it is written as one. */
  lemma ParseRangeIff(key: string, r: KeyRange)
    ensures ParseRange(key) == Some(r) <==> WritesRange(key, r)
  {
    hide PlaceValue, ParseRange;
    if WritesRange(key, r) {
      var a, b :|
        && Digits(a) && Digits(b) && key == r.ns + ":" + a + "-" + b && r.ns != "" && ':' !in r.ns
        && PlaceValue(a) == r.lo <= r.hi == PlaceValue(b);
      WrittenIsParsed(r.ns, a, b);
    }
    if ParseRange(key) == Some(r) { ParsedIsWritten(key, r); }
  }

  // ---- demux keys ----

  /** What a key carries behind its namespace: numbers in decimal, identifiers and octets in lower case. */
  function Carries(js: Host, kind: Kind, v: Value): string
  {
    var text :=
      match v
      case Num(Integer(n)) => if n < 0 then "-" + DecimalNat(-n) else DecimalNat(n)
      case Num(Other(t)) => t
      case Str(t) => t;
    match kind
    case UInt => text
    case Text => text
    case Guid => js.lower(text)
    case Octets => js.lower(text)
  }

  /** A producer whose field is present gives one key. */
  lemma OneKey(js: Host, p: Producer, data: map<string, Value>)
    ensures DemuxKeys(js, [p], data)
         == if p.field in data then [p.ns + ":" + Carries(js, p.kind, data[p.field])] else []
  {
    assert [p][1..] == [];
  }

  /** Several give their keys in their order. */
  lemma {:induction false} KeysInOrder(js: Host, producers: seq<Producer>, data: map<string, Value>,
                                       more: seq<Producer>)
    ensures DemuxKeys(js, producers + more, data) == DemuxKeys(js, producers, data) + DemuxKeys(js, more, data)
    decreases |producers|
  {
    hide Key;
    if producers == [] {
      assert producers + more == more;
    } else {
      assert (producers + more)[1..] == producers[1..] + more;
      KeysInOrder(js, producers[1..], data, more);
    }
  }

  /** A key is looked up among the ranges by what precedes its first colon and the integer that follows it. */
  lemma RangeValueIs(js: Host, ns: string, text: string)
    requires ':' !in ns
    ensures RangeValue(js, ns + ":" + text)
         == if ns != "" && js.number(text).Integer? then Some((ns, js.number(text).n)) else None
    ensures RangeValue(js, ns) == None
  {
    var key := ns + ":" + text;
    assert key[|ns|] == ':' && forall j :: 0 <= j < |ns| ==> key[j] == ns[j] && ns[j] in ns;
    assert key[..|ns|] == ns && key[|ns| + 1..] == text;
  }
}
