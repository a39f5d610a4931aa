/** Lists without repetition, and what is left of a list when an element is taken out. */
module Seqs {

  predicate NoDup<T(==)>(q: seq<T>) {
    forall i, j :: 0 <= i < j < |q| ==> q[i] != q[j]
  }

  function Without<T(==)>(q: seq<T>, x: T): (r: seq<T>)
    ensures x !in r
    ensures forall y :: y in r ==> y in q
    ensures forall y :: y in q && y != x ==> y in r
  {
    if q == [] then [] else if q[0] == x then Without(q[1..], x) else [q[0]] + Without(q[1..], x)
  }

  lemma {:induction false} WithoutLength<T>(q: seq<T>, x: T)
    ensures |Without(q, x)| <= |q| && (x in q ==> |Without(q, x)| < |q|)
    decreases |q|
  {
    if q != [] {
      WithoutLength(q[1..], x);
    }
  }

  lemma {:induction false} NoDupCons<T>(x: T, q: seq<T>)
    requires NoDup(q) && x !in q
    ensures NoDup([x] + q)
  {
  }

  lemma {:induction false} NoDupTail<T>(q: seq<T>)
    requires NoDup(q) && q != []
    ensures NoDup(q[1..]) && q[0] !in q[1..]
  {
  }

  lemma {:induction false} WithoutNone<T>(q: seq<T>, x: T)
    requires x !in q
    ensures Without(q, x) == q
    decreases |q|
  {
    if q != [] {
      WithoutNone(q[1..], x);
    }
  }

  lemma {:induction false} WithoutNoDup<T>(q: seq<T>, x: T)
    requires NoDup(q)
    ensures NoDup(Without(q, x))
    decreases |q|
  {
    if q != [] {
      NoDupTail(q);
      WithoutNoDup(q[1..], x);
      NoDupCons(q[0], Without(q[1..], x));
    }
  }
}
