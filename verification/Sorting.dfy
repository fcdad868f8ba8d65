/**
 Stable sorting by a comparator, as the array `sort` of the browser client provides it.
 `before(x, y)` stands for a negative comparator result.
 */
module Sorting {

  ghost predicate StrictWeakOrder<T(!new)>(before: (T, T) -> bool)
  {
    && (forall x, y :: before(x, y) ==> !before(y, x))
    && (forall x, y, z :: !before(y, x) && !before(z, y) ==> !before(z, x))
  }

  /** No element stands after one it should come before. */
  ghost predicate Ordered<T>(s: seq<T>, before: (T, T) -> bool)
  {
    forall i, j :: 0 <= i < j < |s| ==> !before(s[j], s[i])
  }

  /** Puts `x` behind every trailing element it need not precede. */
  function Insert<T>(s: seq<T>, x: T, before: (T, T) -> bool): (r: seq<T>)
    ensures multiset(r) == multiset(s) + multiset{x}
  {
    var n := |s| - 1;
    if n < 0 || !before(x, s[n]) then s + [x]
    else
      assert s == s[..n] + [s[n]];
      Insert(s[..n], x, before) + [s[n]]
  }

  function Sort<T>(s: seq<T>, before: (T, T) -> bool): (r: seq<T>)
    ensures multiset(r) == multiset(s)
    ensures |r| == |s|
  {
    if s == [] then []
    else
      var n := |s| - 1;
      assert s == s[..n] + [s[n]];
      var r := Insert(Sort(s[..n], before), s[n], before);
      assert |r| == |multiset(r)| == |multiset(s)| == |s|;
      r
  }

  lemma {:induction false} InsertOrdered<T(!new)>(s: seq<T>, x: T, before: (T, T) -> bool)
    requires StrictWeakOrder(before) && Ordered(s, before)
    ensures Ordered(Insert(s, x, before), before)
  {
    var n := |s| - 1;
    if n >= 0 && before(x, s[n]) {
      InsertOrdered(s[..n], x, before);
      var r := Insert(s[..n], x, before);
      forall y | y in r ensures !before(s[n], y) {
        assert y in multiset(r);
        assert y in s[..n] || y == x;
      }
    } else if n >= 0 {
      forall i | 0 <= i < |s| ensures !before(x, s[i]) {
        assert i == n || !before(s[n], s[i]);
      }
    }
  }

  lemma {:induction false} SortOrdered<T(!new)>(s: seq<T>, before: (T, T) -> bool)
    requires StrictWeakOrder(before)
    ensures Ordered(Sort(s, before), before)
  {
    if s != [] {
      var n := |s| - 1;
      SortOrdered(s[..n], before);
      InsertOrdered(Sort(s[..n], before), s[n], before);
    }
  }

  /** Sorting keeps exactly the given elements. */
  lemma SortMembers<T>(s: seq<T>, before: (T, T) -> bool, x: T)
    ensures x in Sort(s, before) <==> x in s
  {
    assert x in Sort(s, before) <==> x in multiset(Sort(s, before));
    assert x in s <==> x in multiset(s);
  }
}
