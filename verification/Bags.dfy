/** Collecting a sequence into a multiset, and how the collection follows changes of
    the sequence. */
module Bags {

  /** All that the elements of `s` contribute. */
  function Bag<T, U>(s: seq<T>, f: T -> multiset<U>): multiset<U> {
    if s == [] then multiset{} else f(s[0]) + Bag(s[1..], f)
  }

  lemma {:induction false} BagConcat<T, U>(a: seq<T>, b: seq<T>, f: T -> multiset<U>)
    ensures Bag(a + b, f) == Bag(a, f) + Bag(b, f)
  {
    if a == [] {
      assert a + b == b;
    } else {
      BagConcat(a[1..], b, f);
      assert (a + b)[1..] == a[1..] + b;
    }
  }

  lemma BagAppend<T, U>(s: seq<T>, x: T, f: T -> multiset<U>)
    ensures Bag(s + [x], f) == Bag(s, f) + f(x)
  {
    BagConcat(s, [x], f);
    assert Bag([x], f) == f(x);
  }

  /** The sequence without the element at `i`. */
  function Without<T>(s: seq<T>, i: nat): (r: seq<T>)
    requires i < |s|
    ensures |r| == |s| - 1
  {
    s[..i] + s[i + 1..]
  }

  lemma WithoutElement<T>(s: seq<T>, i: nat, j: nat)
    requires i < |s| && j < |s| - 1
    ensures Without(s, i)[j] == s[if j < i then j else j + 1]
  {
  }

  lemma BagHead<T, U>(s: seq<T>, f: T -> multiset<U>)
    requires s != []
    ensures Bag(s, f) == f(s[0]) + Bag(s[1..], f)
  {
  }

  lemma BagWithout<T, U>(s: seq<T>, i: nat, f: T -> multiset<U>)
    requires i < |s|
    ensures Bag(s, f) == Bag(Without(s, i), f) + f(s[i])
  {
    hide Bag;
    var before, from := s[..i], s[i..];
    assert s == before + from && from[1..] == s[i + 1..];
    BagConcat(before, from, f);
    BagHead(from, f);
    BagConcat(before, from[1..], f);
  }

  lemma BagUpdate<T, U>(s: seq<T>, i: nat, x: T, f: T -> multiset<U>)
    requires i < |s|
    ensures Bag(s[i := x], f) == Bag(s, f) - f(s[i]) + f(x)
    ensures f(s[i]) <= Bag(s, f)
  {
    BagWithout(s, i, f);
    BagWithout(s[i := x], i, f);
    assert Without(s[i := x], i) == Without(s, i);
  }

  lemma {:induction false} BagMember<T, U>(s: seq<T>, i: nat, f: T -> multiset<U>)
    requires i < |s|
    ensures f(s[i]) <= Bag(s, f)
  {
    BagWithout(s, i, f);
  }

  lemma {:induction false} BagSubset<T, U>(s: seq<T>, f: T -> multiset<U>, g: T -> multiset<U>)
    requires forall i | 0 <= i < |s| :: f(s[i]) <= g(s[i])
    ensures Bag(s, f) <= Bag(s, g)
  {
    if s != [] {
      BagSubset(s[1..], f, g);
    }
  }

  /** When every element contributes at most one, so many elements contribute at most
      so many. */
  lemma {:induction false} BagSize<T, U>(s: seq<T>, f: T -> multiset<U>)
    requires forall i | 0 <= i < |s| :: |f(s[i])| <= 1
    ensures |Bag(s, f)| <= |s|
  {
    if s != [] {
      BagSize(s[1..], f);
    }
  }

  /** When every element contributes exactly one, exactly so many. */
  lemma {:induction false} BagSizeExact<T, U>(s: seq<T>, f: T -> multiset<U>)
    requires forall i | 0 <= i < |s| :: |f(s[i])| == 1
    ensures |Bag(s, f)| == |s|
  {
    if s != [] {
      BagSizeExact(s[1..], f);
    }
  }

  /** A multiset over n names with at most p of each. */
  lemma {:induction false} BoundedMultiset(m: multiset<nat>, n: nat, p: nat)
    requires forall w | w in m :: w < n && m[w] <= p
    ensures |m| <= n * p
  {
    if n == 0 {
      assert m == multiset{};
    } else {
      var rest := m[n - 1 := 0];
      BoundedMultiset(rest, n - 1, p);
      var top := multiset{}[(n - 1) as nat := m[n - 1]];
      assert m == rest + top;
      assert |m| == |rest| + m[n - 1];
      assert n * p == (n - 1) * p + p;
    }
  }

  /** Sum of what the elements of `s` count for. */
  function Sum<T>(s: seq<T>, f: T -> nat): nat {
    if s == [] then 0 else f(s[0]) + Sum(s[1..], f)
  }

  lemma {:induction false} SumConcat<T>(a: seq<T>, b: seq<T>, f: T -> nat)
    ensures Sum(a + b, f) == Sum(a, f) + Sum(b, f)
  {
    if a == [] {
      assert a + b == b;
    } else {
      SumConcat(a[1..], b, f);
      assert (a + b)[1..] == a[1..] + b;
    }
  }

  lemma SumAppend<T>(s: seq<T>, x: T, f: T -> nat)
    ensures Sum(s + [x], f) == Sum(s, f) + f(x)
  {
    SumConcat(s, [x], f);
    assert Sum([x], f) == f(x);
  }

  lemma SumHead<T>(s: seq<T>, f: T -> nat)
    requires s != []
    ensures Sum(s, f) == f(s[0]) + Sum(s[1..], f)
  {
  }

  lemma SumWithout<T>(s: seq<T>, i: nat, f: T -> nat)
    requires i < |s|
    ensures Sum(s, f) == Sum(Without(s, i), f) + f(s[i])
  {
    hide Sum;
    var before, from := s[..i], s[i..];
    assert s == before + from && from[1..] == s[i + 1..];
    SumConcat(before, from, f);
    SumHead(from, f);
    SumConcat(before, from[1..], f);
  }

  lemma SumUpdate<T>(s: seq<T>, i: nat, x: T, f: T -> nat)
    requires i < |s|
    ensures Sum(s[i := x], f) + f(s[i]) == Sum(s, f) + f(x)
  {
    SumWithout(s, i, f);
    SumWithout(s[i := x], i, f);
    assert Without(s[i := x], i) == Without(s, i);
  }
}
