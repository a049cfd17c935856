/** Sorting by descending rank, ties kept in their order, as `Array.sort` with `b.rank - a.rank` does. */
module StableSort {

  function Insert<T>(x: T, s: seq<T>, rank: T -> int): seq<T>
  {
    if s == [] || rank(x) >= rank(s[0]) then [x] + s else [s[0]] + Insert(x, s[1..], rank)
  }

  function Sort<T>(s: seq<T>, rank: T -> int): seq<T>
  {
    if s == [] then [] else Insert(s[0], Sort(s[1..], rank), rank)
  }

  lemma {:induction false} InsertKeeps<T>(x: T, s: seq<T>, rank: T -> int, y: T)
    ensures y in Insert(x, s, rank) <==> y == x || y in s
    decreases |s|
  {
    if s != [] && rank(x) < rank(s[0]) {
      InsertKeeps(x, s[1..], rank, y);
      assert s == [s[0]] + s[1..];
    }
  }

  lemma {:induction false} SortKeeps<T>(s: seq<T>, rank: T -> int, y: T)
    ensures y in Sort(s, rank) <==> y in s
    decreases |s|
  {
    if s != [] {
      SortKeeps(s[1..], rank, y);
      InsertKeeps(s[0], Sort(s[1..], rank), rank, y);
      assert s == [s[0]] + s[1..];
    }
  }

  /** Higher rank first, then lower position. */
  predicate Before<T>(x: T, y: T, rank: T -> int, position: T -> int)
  {
    rank(x) > rank(y) || (rank(x) == rank(y) && position(x) <= position(y))
  }

  ghost predicate Ranked<T(!new)>(s: seq<T>, rank: T -> int, position: T -> int)
  {
    forall a, b :: 0 <= a < b < |s| ==> Before(s[a], s[b], rank, position)
  }

  ghost predicate InOrder<T(!new)>(s: seq<T>, position: T -> int)
  {
    forall a, b :: 0 <= a < b < |s| ==> position(s[a]) <= position(s[b])
  }

  lemma {:induction false} InsertRanked<T(!new)>(x: T, s: seq<T>, rank: T -> int, position: T -> int)
    requires Ranked(s, rank, position) && forall y :: y in s ==> position(x) <= position(y)
    ensures Ranked(Insert(x, s, rank), rank, position)
    decreases |s|
  {
    if s != [] && rank(x) < rank(s[0]) {
      var rest := Insert(x, s[1..], rank);
      InsertRanked(x, s[1..], rank, position);
      forall y | y in rest ensures Before(s[0], y, rank, position) {
        InsertKeeps(x, s[1..], rank, y);
        if y in s[1..] {
          var k :| 0 <= k < |s[1..]| && s[1..][k] == y;
          assert s[k + 1] == y;
        }
      }
    }
  }

  /** Elements that came in position order end up by rank, and by position within a rank. */
  lemma {:induction false} SortRanked<T(!new)>(s: seq<T>, rank: T -> int, position: T -> int)
    requires InOrder(s, position)
    ensures Ranked(Sort(s, rank), rank, position)
    decreases |s|
  {
    if s != [] {
      SortRanked(s[1..], rank, position);
      forall y | y in Sort(s[1..], rank) ensures position(s[0]) <= position(y) {
        SortKeeps(s[1..], rank, y);
        var k :| 0 <= k < |s[1..]| && s[1..][k] == y;
        assert s[k + 1] == y;
      }
      InsertRanked(s[0], Sort(s[1..], rank), rank, position);
    }
  }
}
