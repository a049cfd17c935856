/** The JavaScript string operations the analysis code relies on. */
module JsStrings {

  /** `a <= b`: lexicographic order by code unit. */
  predicate Leq(a: string, b: string)
  {
    if a == "" then true
    else if b == "" then false
    else if a[0] == b[0] then Leq(a[1..], b[1..])
    else a[0] < b[0]
  }

  lemma {:induction false} LeqReflexive(a: string)
    ensures Leq(a, a)
  {
    if a != "" { LeqReflexive(a[1..]); }
  }

  lemma {:induction false} LeqTotal(a: string, b: string)
    ensures Leq(a, b) || Leq(b, a)
    ensures Leq(a, b) && Leq(b, a) ==> a == b
    decreases |a|
  {
    if a != "" && b != "" && a[0] == b[0] {
      LeqTotal(a[1..], b[1..]);
      assert a == [a[0]] + a[1..] && b == [b[0]] + b[1..];
    }
  }

  /** A string precedes its extensions, and otherwise the first difference decides. */
  lemma {:induction false} LeqMeans(a: string, b: string, n: nat)
    requires n <= |a| && n <= |b| && a[..n] == b[..n]
    ensures n == |a| ==> Leq(a, b)
    ensures n == |b| < |a| ==> !Leq(a, b)
    ensures n < |a| && n < |b| && a[n] != b[n] ==> (Leq(a, b) <==> a[n] < b[n])
    decreases n
  {
    if n > 0 {
      assert a[0] == a[..n][0] == b[0];
      assert a[1..][..n - 1] == a[..n][1..] && b[1..][..n - 1] == b[..n][1..];
      LeqMeans(a[1..], b[1..], n - 1);
    }
  }

  /** `s.indexOf(c, from)` for a one-character needle: -1 when there is none. */
  function IndexOf(s: string, c: char, from: nat): (i: int)
    ensures i == -1 || from <= i < |s|
    ensures i >= 0 ==> s[i] == c && forall k :: from <= k < i ==> s[k] != c
    ensures i == -1 ==> forall k :: from <= k < |s| ==> s[k] != c
    decreases |s| - from
  {
    if from >= |s| then -1 else if s[from] == c then from else IndexOf(s, c, from + 1)
  }

  /** `s.lastIndexOf(c)` for a one-character needle. */
  function LastIndexOf(s: string, c: char): (i: int)
    ensures -1 <= i < |s|
    ensures i >= 0 ==> s[i] == c && forall k :: i < k < |s| ==> s[k] != c
    ensures i == -1 ==> c !in s
  {
    if s == "" then -1
    else if s[|s| - 1] == c then |s| - 1
    else LastIndexOf(s[..|s| - 1], c)
  }
}
