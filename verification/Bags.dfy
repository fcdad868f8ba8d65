/** Multisets collected from the parts of a sequence: the bookkeeping of things that move but never multiply. */
module Bags {
  import opened Sequences

  ghost function Bag<T>(s: seq<T>, f: T -> multiset<nat>): multiset<nat>
  {
    if s == [] then multiset{} else f(s[0]) + Bag(s[1..], f)
  }

  lemma {:induction false} BagAppend<T>(a: seq<T>, b: seq<T>, f: T -> multiset<nat>)
    ensures Bag(a + b, f) == Bag(a, f) + Bag(b, f)
  {
    if a == [] {
      assert a + b == b;
    } else {
      assert (a + b)[1..] == a[1..] + b;
      BagAppend(a[1..], b, f);
    }
  }

  lemma BagSingle<T>(x: T, f: T -> multiset<nat>)
    ensures Bag([x], f) == f(x)
  {
    assert [x][1..] == [];
  }

  lemma BagSnoc<T>(s: seq<T>, x: T, f: T -> multiset<nat>)
    ensures Bag(s + [x], f) == Bag(s, f) + f(x)
  {
    BagAppend(s, [x], f);
    BagSingle(x, f);
  }

  lemma BagRemove<T>(s: seq<T>, i: nat, f: T -> multiset<nat>)
    requires i < |s|
    ensures Bag(RemoveAt(s, i), f) + f(s[i]) == Bag(s, f)
  {
    hide Bag;
    SplitAt(s, i);
    BagAppend(s[..i] + [s[i]], s[i + 1..], f);
    BagAppend(s[..i], [s[i]], f);
    BagSingle(s[i], f);
    BagAppend(s[..i], s[i + 1..], f);
  }

  lemma BagUpdate<T>(s: seq<T>, i: nat, x: T, f: T -> multiset<nat>)
    requires i < |s|
    ensures Bag(s[i := x], f) + f(s[i]) == Bag(s, f) + f(x)
  {
    BagRemove(s, i, f);
    BagRemove(s[i := x], i, f);
    assert RemoveAt(s, i) == RemoveAt(s[i := x], i);
  }

  lemma MultisetRemove<T>(s: seq<T>, i: nat)
    requires i < |s|
    ensures multiset(RemoveAt(s, i)) == multiset(s) - multiset{s[i]}
  {
    SplitAt(s, i);
  }

  /** The bag depends only on which elements there are, not on their order. */
  lemma {:induction false} BagPermutation<T>(a: seq<T>, b: seq<T>, f: T -> multiset<nat>)
    requires multiset(a) == multiset(b)
    ensures Bag(a, f) == Bag(b, f)
    decreases |a|
  {
    if a == [] {
      assert |multiset(b)| == 0;
    } else {
      assert a[0] in multiset(b);
      var i :| 0 <= i < |b| && b[i] == a[0];
      MultisetRemove(a, 0);
      MultisetRemove(b, i);
      assert RemoveAt(a, 0) == a[1..];
      BagPermutation(a[1..], RemoveAt(b, i), f);
      BagRemove(b, i, f);
    }
  }

  lemma {:induction false} BagFlatten<T>(parts: seq<seq<T>>, f: T -> multiset<nat>, g: seq<T> -> multiset<nat>)
    requires forall p :: p in parts ==> g(p) == Bag(p, f)
    ensures Bag(Flatten(parts), f) == Bag(parts, g)
  {
    if parts != [] {
      BagFlatten(parts[1..], f, g);
      BagAppend(parts[0], Flatten(parts[1..]), f);
    }
  }

  /** Each of 0, ..., n - 1 exactly once. */
  ghost function UpTo(n: nat): multiset<nat>
  {
    if n == 0 then multiset{} else UpTo(n - 1) + multiset{n - 1}
  }

  lemma {:induction false} UpToCount(n: nat, t: nat)
    ensures UpTo(n)[t] == if t < n then 1 else 0
  {
    if n > 0 { UpToCount(n - 1, t); }
  }

  lemma Cancel(a: multiset<nat>, b: multiset<nat>, c: multiset<nat>)
    requires a + c == b + c
    ensures a == b
  {
    forall x ensures a[x] == b[x] {
      assert (a + c)[x] == (b + c)[x];
    }
  }
}
