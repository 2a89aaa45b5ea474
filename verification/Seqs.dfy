/** Sequences without repetition, and taking out or putting in one element. */
module Seqs {

  /** q without its element i, and q with x put in before position i. */
  function Removed<X>(q: seq<X>, i: nat): seq<X>
    requires i < |q|
  {
    q[..i] + q[i + 1..]
  }

  function Put<X>(q: seq<X>, i: nat, x: X): seq<X>
    requires i <= |q|
  {
    q[..i] + [x] + q[i..]
  }

  lemma RemovedIs<X>(q: seq<X>, i: nat)
    requires i < |q|
    ensures |Removed(q, i)| == |q| - 1
    ensures forall k: nat :: k < i ==> Removed(q, i)[k] == q[k]
    ensures forall k: nat :: i <= k < |q| - 1 ==> Removed(q, i)[k] == q[k + 1]
  {}

  lemma PutIs<X>(q: seq<X>, i: nat, x: X)
    requires i <= |q|
    ensures |Put(q, i, x)| == |q| + 1
    ensures forall k: nat :: k < i ==> Put(q, i, x)[k] == q[k]
    ensures Put(q, i, x)[i] == x
    ensures forall k: nat :: i < k <= |q| ==> Put(q, i, x)[k] == q[k - 1]
  {}

  lemma RemovedMembers<X>(q: seq<X>, i: nat)
    requires i < |q|
    ensures forall x :: x in Removed(q, i) ==> x in q
  {}

  lemma PutMembers<X>(q: seq<X>, i: nat, y: X)
    requires i <= |q|
    ensures forall x :: x in Put(q, i, y) ==> x == y || x in q
  {}

  predicate NoDup<X(==)>(q: seq<X>)
  {
    forall i: nat, j: nat :: i < j < |q| ==> q[i] != q[j]
  }

  lemma NoDupRemoved<X>(q: seq<X>, i: nat)
    requires NoDup(q) && i < |q|
    ensures NoDup(Removed(q, i)) && q[i] !in Removed(q, i)
  {
    RemovedIs(q, i);
  }

  lemma NoDupPut<X>(q: seq<X>, i: nat, x: X)
    requires NoDup(q) && i <= |q| && x !in q
    ensures NoDup(Put(q, i, x))
  {
    PutIs(q, i, x);
    var r := Put(q, i, x);
    forall j: nat, k: nat | j < k < |r|
      ensures r[j] != r[k]
    {
      if k == i {
        assert q[j] in q;
      } else if j == i {
        assert q[k - 1] in q;
      }
    }
  }

  lemma RemovedTail<X>(q: seq<X>, i: nat)
    requires 0 < i < |q|
    ensures Removed(q, i) == [q[0]] + Removed(q[1..], i - 1)
  {
    assert q[..i] + q[i + 1..] == [q[0]] + (q[1..][..i - 1] + q[1..][i..]);
  }

  lemma PutCounts<X>(q: seq<X>, i: nat, x: X)
    requires i <= |q|
    ensures multiset(Put(q, i, x)) == multiset(q) + multiset{x}
  {
    assert q == q[..i] + q[i..];
  }
}
