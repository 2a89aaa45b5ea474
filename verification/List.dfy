/** Circular doubly linked lists with a head node: list_add_tail, list_del and
    list_splice. */
module List {
  import opened Seqs

  class Node {
    /** null once the node is deleted, where list_del stores a poison value */
    var next: Node?
    var prev: Node?

    /** A list head of its own. */
    constructor ()
      ensures next == this && prev == this && Ring([this])
    {
      next, prev := this, this;
    }
  }

  /** r[i] is linked to its neighbours, and the last element to the first. */
  ghost predicate Ring(r: seq<Node>)
    reads r
  {
    && r != [] && NoDup(r)
    && (forall i: nat :: i < |r| ==> r[i].next == After(r, i))
    && (forall i: nat :: i < |r| ==> r[i].prev == Before(r, i))
  }

  ghost function After(r: seq<Node>, i: nat): Node
    requires i < |r|
  {
    if i + 1 < |r| then r[i + 1] else r[0]
  }

  ghost function Before(r: seq<Node>, i: nat): Node
    requires i < |r|
  {
    if i > 0 then r[i - 1] else r[|r| - 1]
  }

  /** In a ring next and prev undo each other at every node. */
  lemma NextPrevInverse(r: seq<Node>)
    requires Ring(r)
    ensures forall x :: x in r ==> x.next != null && x.prev != null && x.next in r && x.prev in r
    ensures forall x :: x in r ==> x.next.prev == x && x.prev.next == x
  {
    forall x | x in r
      ensures x.next != null && x.prev != null && x.next in r && x.prev in r
      ensures x.next.prev == x && x.prev.next == x
    {
      var i: nat :| i < |r| && r[i] == x;
      var j := if i + 1 < |r| then i + 1 else 0;
      var k := if i > 0 then i - 1 else |r| - 1;
      assert x.next == r[j] && r[j].prev == Before(r, j);
      assert x.prev == r[k] && r[k].next == After(r, k);
    }
  }

  /** __list_add: x between two nodes. */
  method LinkBetween(x: Node, prev: Node, next: Node)
    requires x != prev && x != next
    modifies x, prev`next, next`prev
    ensures x.next == next && x.prev == prev && next.prev == x && prev.next == x
  {
    next.prev := x;
    x.next := next;
    x.prev := prev;
    prev.next := x;
  }

  method ListAddTail(x: Node, head: Node, ghost r: seq<Node>)
    requires Ring(r) && r[0] == head && x !in r
    modifies x, r
    ensures Ring(r + [x])
  {
    hide After, Before, NoDup;
    EndsOf(r);
    ghost var s := r + [x];
    assert head.prev == Before(r, 0);
    LinkBetween(x, head.prev, head);
    forall i: nat | i < |s|
      ensures s[i].next == After(s, i)
    {
      AddedLinks(r, x, i);
    }
    forall i: nat | i < |s|
      ensures s[i].prev == Before(s, i)
    {
      AddedLinks(r, x, i);
    }
    AddedNoDup(r, x);
  }

  lemma EndsOf(r: seq<Node>)
    requires r != []
    ensures Before(r, 0) == r[|r| - 1] && After(r, |r| - 1) == r[0]
  {}

  lemma AddedNoDup(r: seq<Node>, x: Node)
    requires NoDup(r) && x !in r
    ensures NoDup(r + [x])
  {}

  /** The links the extended ring should have. */
  lemma AddedLinks(r: seq<Node>, x: Node, i: nat)
    requires NoDup(r) && r != [] && x !in r && i <= |r|
    ensures var s := r + [x];
            && (i == |r| ==> s[i] == x && After(s, i) == r[0] && Before(s, i) == r[|r| - 1])
            && (i < |r| ==>
                  && s[i] == r[i] && r[i] != x
                  && (r[i] == r[0] <==> i == 0) && (r[i] == r[|r| - 1] <==> i == |r| - 1)
                  && After(s, i) == (if i == |r| - 1 then x else After(r, i))
                  && Before(s, i) == (if i == 0 then x else Before(r, i)))
  {}

  /** Position i, not the head, leaves the ring. */
  method ListDel(x: Node, ghost r: seq<Node>, ghost i: nat)
    requires Ring(r) && 0 < i < |r| && r[i] == x
    modifies r
    ensures Ring(Removed(r, i))
    ensures x.next == null && x.prev == null
  {
    assert x.next == After(r, i) && x.prev == Before(r, i);
    var next, prev := x.next, x.prev;
    next.prev := prev;
    prev.next := next;
    x.next, x.prev := null, null;
    ghost var s := Removed(r, i);
    RemovedIs(r, i);
    NoDupRemoved(r, i);
    forall k: nat | k < |s|
      ensures s[k].next == After(s, k) && s[k].prev == Before(s, k)
    {
      RemovedLinks(r, i, k);
    }
  }

  lemma RemovedLinks(r: seq<Node>, i: nat, k: nat)
    requires NoDup(r) && 0 < i < |r| && k < |r| - 1
    ensures var s, j := Removed(r, i), if k < i then k else k + 1;
            && s[k] == r[j] && r[j] != r[i]
            && (r[j] == Before(r, i) <==> k == i - 1)
            && (r[j] == After(r, i) <==> k == if i + 1 < |r| then i else 0)
            && After(s, k) == (if k == i - 1 then After(r, i) else After(r, j))
            && Before(s, k) == (if k == (if i + 1 < |r| then i else 0) then Before(r, i) else Before(r, j))
  {
    RemovedIs(r, i);
  }

  /** The nodes of one list, without its head, go right after the head of another;
      an empty list changes nothing. */
  method ListSplice(list: Node, head: Node, ghost a: seq<Node>, ghost b: seq<Node>)
    requires Ring(a) && a[0] == list && Ring(b) && b[0] == head
    requires forall x :: x in a ==> x !in b
    modifies a, b
    ensures Ring([head] + a[1..] + b[1..])
  {
    hide NoDup, Before, After;
    HeadLinks(a);
    HeadLinks(b);
    if list.next != list {
      ghost var s := [head] + a[1..] + b[1..];
      Splice(list, head, a, b);
      SplicedNoDup(a, b);
      forall i: nat | i < |s|
        ensures s[i].next == After(s, i)
      {
        SplicedLinks(a, b, i);
      }
      forall i: nat | i < |s|
        ensures s[i].prev == Before(s, i)
      {
        SplicedLinks(a, b, i);
      }
    } else {
      assert [head] + a[1..] + b[1..] == b;
    }
  }

  lemma HeadLinks(r: seq<Node>)
    requires Ring(r)
    ensures r[0].next == (if |r| == 1 then r[0] else r[1]) && r[0].prev == r[|r| - 1]
    ensures |r| > 1 ==> r[1] != r[0]
  {
    assert r[0].next == After(r, 0) && r[0].prev == Before(r, 0);
  }

  /** __list_splice. */
  method Splice(list: Node, head: Node, ghost a: seq<Node>, ghost b: seq<Node>)
    requires Ring(a) && a[0] == list && |a| > 1 && Ring(b) && b[0] == head
    requires forall x :: x in a ==> x !in b
    modifies a, b
    ensures forall x :: x in a && x != a[1] ==> x.prev == old(x.prev)
    ensures forall x :: x in a && x != a[|a| - 1] ==> x.next == old(x.next)
    ensures forall x :: x in b && x != b[0] ==> x.next == old(x.next)
    ensures forall x :: x in b && x != (if |b| == 1 then b[0] else b[1]) ==> x.prev == old(x.prev)
    ensures a[1].prev == b[0] && b[0].next == a[1]
    ensures a[|a| - 1].next == (if |b| == 1 then b[0] else b[1])
    ensures (if |b| == 1 then b[0] else b[1]).prev == a[|a| - 1]
  {
    hide NoDup, After, Before;
    HeadLinks(a);
    HeadLinks(b);
    assert a[1] in a && a[|a| - 1] in a && b[0] in b && (|b| > 1 ==> b[1] in b);
    var first, last, at := list.next, list.prev, head.next;
    first.prev := head;
    head.next := first;
    last.next := at;
    at.prev := last;
  }

  lemma SplicedNoDup(a: seq<Node>, b: seq<Node>)
    requires NoDup(a) && NoDup(b) && a != [] && b != []
    requires forall x :: x in a ==> x !in b
    ensures NoDup([b[0]] + a[1..] + b[1..])
  {
    var s := [b[0]] + a[1..] + b[1..];
    forall i: nat, j: nat | i < j < |s|
      ensures s[i] != s[j]
    {
      assert 0 < i < |a| ==> s[i] == a[i] && a[i] in a;
      assert 0 < j < |a| ==> s[j] == a[j] && a[j] in a;
      assert i >= |a| ==> s[i] == b[i + 1 - |a|];
      assert j >= |a| ==> s[j] == b[j + 1 - |a|];
    }
  }

  /** The links the spliced ring should have. */
  lemma SplicedLinks(a: seq<Node>, b: seq<Node>, i: nat)
    requires NoDup(a) && NoDup(b) && |a| > 1 && b != [] && i < |a| + |b| - 1
    requires forall x :: x in a ==> x !in b
    ensures var s := [b[0]] + a[1..] + b[1..];
            && (i == 0 ==> s[i] == b[0] && After(s, i) == a[1])
            && (0 < i < |a| - 1 ==> After(s, i) == After(a, i))
            && (i == |a| - 1 ==> After(s, i) == if |b| == 1 then b[0] else b[1])
            && (i > |a| - 1 ==> After(s, i) == After(b, i + 1 - |a|))
            && (i == 1 ==> Before(s, i) == b[0])
            && (1 < i < |a| ==> Before(s, i) == Before(a, i))
            && (i == |a| ==> Before(s, i) == a[|a| - 1])
            && (i > |a| ==> Before(s, i) == Before(b, i + 1 - |a|))
            && (i == 0 ==> Before(s, i) == if |b| == 1 then a[|a| - 1] else Before(b, 0))
    ensures var s := [b[0]] + a[1..] + b[1..];
            && (0 < i < |a| ==>
                  && s[i] == a[i] && a[i] !in b
                  && (a[i] == a[1] <==> i == 1) && (a[i] == a[|a| - 1] <==> i == |a| - 1))
            && (i >= |a| ==>
                  var k := i + 1 - |a|;
                  s[i] == b[k] && b[k] !in a && b[k] != b[0] && (b[k] == b[1] <==> k == 1))
            && b[0] !in a
            && (|b| > 1 ==> b[0] != b[1])
  {
    var s := [b[0]] + a[1..] + b[1..];
    assert forall k :: 0 < k < |a| ==> s[k] == a[k];
    assert forall k :: |a| <= k < |s| ==> s[k] == b[k + 1 - |a|];
    assert b[0] in b;
    assert i < |a| ==> a[i] in a;
    assert i >= |a| ==> b[i + 1 - |a|] in b;
  }
}
