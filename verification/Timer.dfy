/** The timer list of timer.c: a singly linked list edited through a reference to
    the link that is to change, and the loop that runs expired timers. */
module Timer {
  import opened Seqs
  import opened TimerSpec

  class Timer {
    var expires: int
    var next: Timer?

    constructor ()
      ensures expires == 0 && next == null
    {
      expires, next := 0, null;
    }
  }

  /** The timer after position i, if any. */
  ghost function Successor(q: seq<Timer>, i: nat): Timer?
  {
    if i + 1 < |q| then q[i + 1] else null
  }

  /** The link each timer should have once position i is gone. */
  lemma RemovedSuccessor(q: seq<Timer>, i: nat, k: nat)
    requires NoDup(q) && i < |q| && k < |q| - 1
    ensures var j := if k < i then k else k + 1;
            && Removed(q, i)[k] == q[j] && q[j] != q[i]
            && (i > 0 ==> (q[j] == q[i - 1] <==> k + 1 == i))
            && Successor(Removed(q, i), k) == if k + 1 == i then Successor(q, i) else Successor(q, j)
  {
    RemovedIs(q, i);
  }

  /** The link each timer should have once x stands before position i. */
  lemma PutSuccessor(q: seq<Timer>, i: nat, x: Timer, k: nat)
    requires NoDup(q) && i <= |q| && x !in q && k <= |q|
    ensures k == i ==> Put(q, i, x)[k] == x &&
                       Successor(Put(q, i, x), k) == if i < |q| then q[i] else null
    ensures k != i ==> var j := if k < i then k else k - 1;
            && Put(q, i, x)[k] == q[j] && q[j] != x
            && (i > 0 ==> (q[j] == q[i - 1] <==> k + 1 == i))
            && Successor(Put(q, i, x), k) == if k + 1 == i then x else Successor(q, j)
  {
    PutIs(q, i, x);
    if k != i {
      assert q[if k < i then k else k - 1] in q;
    }
  }

  /** One of the two lists x49gp_timer_lists[type]. */
  class TimerList {
    var head: Timer?
    /** The timers on the list, in list order. */
    ghost var spine: seq<Timer>

    constructor ()
      ensures Valid() && spine == []
    {
      head, spine := null, [];
    }

    /** The list is acyclic, duplicate-free and is exactly the spine. */
    ghost predicate Linked()
      reads this, spine
    {
      && head == (if spine == [] then null else spine[0])
      && (forall i: nat :: i < |spine| ==> spine[i].next == Successor(spine, i))
      && NoDup(spine)
    }

    ghost function Entries(): (q: seq<Entry<Timer>>)
      reads this, spine
      ensures |q| == |spine|
      ensures forall i :: 0 <= i < |q| ==> q[i] == Entry(spine[i], spine[i].expires)
    {
      seq(|spine|, i requires 0 <= i < |spine| reads this, spine => Entry(spine[i], spine[i].expires))
    }

    ghost predicate Valid()
      reads this, spine
    {
      Linked() && WellFormed(Entries())
    }

    /** Takes the timer at position i out of the list, prev being the timer whose
        link points at it (null for the head link). */
    method Unlink(prev: Timer?, ts: Timer, ghost i: nat)
      requires Linked() && i < |spine| && spine[i] == ts
      requires prev == if i == 0 then null else spine[i - 1]
      modifies this, spine`next
      ensures Linked()
      ensures spine == Removed(old(spine), i)
      ensures ts.next == null
    {
      hide Removed, NoDup;
      ghost var was := spine;
      NoDupRemoved(was, i);
      RemovedIs(was, i);
      assert was[i].next == Successor(was, i);
      if prev == null {
        head := ts.next;
      } else {
        prev.next := ts.next;
      }
      ts.next := null;
      spine := Removed(was, i);
      forall k: nat | k < |spine|
        ensures spine[k].next == Successor(spine, k)
      {
        RemovedSuccessor(was, i, k);
      }
    }

    /** Unlink, seen as a change of the queue. */
    method Detach(prev: Timer?, ts: Timer, ghost i: nat)
      requires Linked() && i < |spine| && spine[i] == ts
      requires prev == if i == 0 then null else spine[i - 1]
      modifies this, spine`next
      ensures Linked()
      ensures spine == Removed(old(spine), i)
      ensures Entries() == Removed(old(Entries()), i)
      ensures ts.next == null && ts !in spine
      ensures forall t :: t in spine ==> t in old(spine)
    {
      hide Removed, Linked;
      ghost var was, e0 := spine, Entries();
      NoDupRemovedOf(was, i);
      Unlink(prev, ts, i);
      RemovedIs(was, i);
      RemovedIs(e0, i);
      RemovedMembers(was, i);
      ghost var e := Entries();
      forall k: nat | k < |e|
        ensures e[k] == Removed(e0, i)[k]
      {
        ghost var j := if k < i then k else k + 1;
        assert Removed(was, i)[k] == was[j] && e0[j] == Entry(was[j], old(was[j].expires));
      }
    }

    lemma NoDupRemovedOf(q: seq<Timer>, i: nat)
      requires Linked() && q == spine && i < |q|
      ensures q[i] !in Removed(q, i)
    {
      NoDupRemoved(q, i);
    }

    /** Puts ts before position i, prev being the timer before it. */
    method Link(prev: Timer?, ts: Timer, ghost i: nat)
      requires Linked() && i <= |spine| && ts !in spine
      requires prev == if i == 0 then null else spine[i - 1]
      modifies this, spine`next, ts`next
      ensures Linked()
      ensures spine == Put(old(spine), i, ts)
    {
      hide Put, NoDup;
      ghost var was := spine;
      NoDupPut(was, i, ts);
      PutIs(was, i, ts);
      assert i > 0 ==> was[i - 1].next == Successor(was, i - 1);
      if prev == null {
        ts.next := head;
        head := ts;
      } else {
        ts.next := prev.next;
        prev.next := ts;
      }
      spine := Put(was, i, ts);
      assert spine[0] == if i == 0 then ts else was[0];
      forall k: nat | k < |spine|
        ensures spine[k].next == Successor(spine, k)
      {
        PutSuccessor(was, i, ts, k);
      }
    }

    /** Lines 200-201 of run_timers: the first timer leaves the list. */
    method Pop()
      requires Valid() && head != null
      modifies this, spine`next
      ensures Valid()
      ensures Entries() == old(Entries())[1..]
      ensures spine == old(spine)[1..]
    {
      hide WellFormed;
      ghost var q := Entries();
      DropKeeps(q, 0);
      Detach(null, head, 0);
      RemovedIs(q, 0);
      assert Entries() == q[1..];
    }

    /** del_timer's walk: stops at ts, or at the end of the list. */
    method WalkTo(ts: Timer) returns (prev: Timer?, t: Timer?, ghost i: nat)
      requires Linked()
      ensures i <= |spine|
      ensures prev == if i == 0 then null else spine[i - 1]
      ensures t == if i < |spine| then ts else null
      ensures forall j :: 0 <= j < i ==> spine[j] != ts
      ensures i < |spine| ==> spine[i] == ts
    {
      prev, t, i := null, head, 0;
      while t != null && t != ts
        invariant Linked()
        invariant 0 <= i <= |spine|
        invariant t == if i < |spine| then spine[i] else null
        invariant prev == if i == 0 then null else spine[i - 1]
        invariant forall j :: 0 <= j < i ==> spine[j] != ts
        decreases |spine| - i
      {
        assert spine[i].next == Successor(spine, i);
        prev := t;
        t := t.next;
        i := i + 1;
      }
    }

    /** mod_timer's walk: past every timer due no later. */
    method WalkPast(expires: int) returns (prev: Timer?, ghost i: nat)
      requires Linked()
      ensures i <= |spine|
      ensures prev == if i == 0 then null else spine[i - 1]
      ensures forall j :: 0 <= j < i ==> spine[j].expires <= expires
      ensures i < |spine| ==> spine[i].expires > expires
    {
      prev, i := null, 0;
      var t := head;
      while t != null && t.expires <= expires
        invariant 0 <= i <= |spine|
        invariant t == if i < |spine| then spine[i] else null
        invariant prev == if i == 0 then null else spine[i - 1]
        invariant forall j :: 0 <= j < i ==> spine[j].expires <= expires
        decreases |spine| - i
      {
        assert spine[i].next == Successor(spine, i);
        prev := t;
        t := t.next;
        i := i + 1;
      }
    }

    /** x49gp_del_timer. */
    method Del(ts: Timer)
      requires Valid()
      modifies this, spine`next
      ensures Valid()
      ensures Entries() == Without(old(Entries()), ts)
      ensures ts !in spine && forall t :: t in spine ==> t in old(spine)
      ensures ts !in old(spine) ==> spine == old(spine) && ts.next == old(ts.next)
      ensures ts in old(spine) ==> ts.next == null
    {
      hide WellFormed, Without, Removed, Linked, Entries;
      var prev, t, i := WalkTo(ts);
      RemovePlace(ts, i);
      if t != null {
        Detach(prev, ts, i);
      }
    }

    /** Where the walk stops is where the queue loses the entry, if it has one. */
    lemma RemovePlace(ts: Timer, i: nat)
      requires Valid() && i <= |spine|
      requires forall j :: 0 <= j < i ==> spine[j] != ts
      requires i < |spine| ==> spine[i] == ts
      ensures ts in spine <==> i < |spine|
      ensures |Entries()| == |spine|
      ensures Without(Entries(), ts) == if i < |spine| then Removed(Entries(), i) else Entries()
      ensures WellFormed(Without(Entries(), ts))
    {
      hide WellFormed, Without, Removed, Linked;
      WithoutAt(Entries(), ts, i);
      WithoutKeeps(Entries(), ts);
    }

    /** Lines 121-123 of mod_timer. */
    method Arm(prev: Timer?, ts: Timer, expires: int, ghost i: nat)
      requires Linked() && i <= |spine| && ts !in spine
      requires prev == if i == 0 then null else spine[i - 1]
      modifies this, spine`next, ts`next, ts`expires
      ensures Linked()
      ensures spine == Put(old(spine), i, ts)
      ensures Entries() == Put(old(Entries()), i, Entry(ts, expires))
      ensures forall t :: t in spine ==> t == ts || t in old(spine)
    {
      hide Put, Linked;
      ghost var was := spine;
      ts.expires := expires;
      Link(prev, ts, i);
      PutIs(was, i, ts);
      ghost var e, e0 := Entries(), old(Entries());
      PutIs(e0, i, Entry(ts, expires));
      forall k: nat | k < |e|
        ensures e[k] == Put(e0, i, Entry(ts, expires))[k]
      {
        if k != i {
          ghost var j := if k < i then k else k - 1;
          assert was[j] in was;
          assert Put(was, i, ts)[k] == was[j] && e0[j] == Entry(was[j], old(was[j].expires));
        }
      }
      PutMembers(was, i, ts);
    }

    /** x49gp_mod_timer. */
    method Mod(ts: Timer, expires: int)
      requires Valid()
      modifies this, spine`next, ts`next, ts`expires
      ensures Valid()
      ensures Entries() == Insert(Without(old(Entries()), ts), Entry(ts, expires))
      ensures forall t :: t in spine ==> t == ts || t in old(spine)
    {
      hide WellFormed, Without, Insert, Put, Removed, Linked, Entries;
      Del(ts);
      var prev, i := WalkPast(expires);
      InsertPlace(ts, expires, i);
      assert forall k: nat :: k < |spine| ==> spine[k] in old(spine);
      Arm(prev, ts, expires, i);
    }

    /** Where the walk stops is where the queue takes the new entry. */
    lemma InsertPlace(ts: Timer, expires: int, i: nat)
      requires Valid() && i <= |spine| && ts !in spine
      requires forall j :: 0 <= j < i ==> spine[j].expires <= expires
      requires i < |spine| ==> spine[i].expires > expires
      ensures i <= |Entries()|
      ensures Put(Entries(), i, Entry(ts, expires)) == Insert(Entries(), Entry(ts, expires))
      ensures WellFormed(Insert(Entries(), Entry(ts, expires)))
    {
      hide WellFormed, Insert, Linked;
      InsertAt(Entries(), Entry(ts, expires), i);
      InsertKeeps(Entries(), Entry(ts, expires));
    }

    /** x49gp_timer_pending. */
    method Pending(ts: Timer) returns (pending: bool)
      requires Valid()
      ensures pending <==> Armed(Entries(), ts)
    {
      ghost var i := 0;
      var t := head;
      while t != null
        invariant 0 <= i <= |spine|
        invariant t == if i < |spine| then spine[i] else null
        invariant forall j :: 0 <= j < i ==> spine[j] != ts
        decreases |spine| - i
      {
        assert spine[i].next == Successor(spine, i);
        if t == ts {
          assert Entries()[i].id == ts;
          return true;
        }
        t := t.next;
        i := i + 1;
      }
      pending := false;
    }

    /** x49gp_timer_expired: looks at the head only. */
    method Expired(now: int) returns (expired: bool)
      requires Valid()
      ensures expired <==> exists e :: e in Entries() && e.at <= now
    {
      HeadDecides(Entries(), now);
      if head == null {
        return false;
      }
      expired := head.expires <= now;
    }
  }

  /** The callback of an expired timer: the mod_timer and del_timer calls it makes. */
  method Callback(list: TimerList, ops: seq<Op<Timer>>, ghost world: set<Timer>)
    requires list.Valid() && (forall t :: t in list.spine ==> t in world)
    requires forall op :: op in ops ==> op.id in world
    modifies list, world
    ensures list.Valid() && forall t :: t in list.spine ==> t in world
    ensures list.Entries() == AllApplied(old(list.Entries()), ops)
  {
    hide WellFormed, Without, Insert, Put, Removed, TimerList.Linked, TimerList.Valid, TimerList.Entries;
    var k := 0;
    ghost var q0 := list.Entries();
    assert ops[0..] == ops;
    while k < |ops|
      invariant 0 <= k <= |ops|
      invariant list.Valid() && forall t :: t in list.spine ==> t in world
      invariant AllApplied(list.Entries(), ops[k..]) == AllApplied(q0, ops)
    {
      assert ops[k..][1..] == ops[k + 1..] && ops[k] in ops;
      match ops[k] {
        case Arm(ts, at) => list.Mod(ts, at);
        case Cancel(ts) => list.Del(ts);
      }
      k := k + 1;
    }
  }

  /** Lines 200-204 of run_timers: the first timer leaves the list and its
      callback runs. */
  method Fire(list: TimerList, ops: seq<Op<Timer>>, ghost world: set<Timer>) returns (ts: Timer)
    requires list.Valid() && list.head != null && (forall t :: t in list.spine ==> t in world)
    requires forall op :: op in ops ==> op.id in world
    modifies list, world
    ensures list.Valid() && forall t :: t in list.spine ==> t in world
    ensures old(list.Entries()) != [] && ts == old(list.Entries())[0].id == old(list.head)
    ensures list.Entries() == AllApplied(old(list.Entries())[1..], ops)
  {
    hide WellFormed;
    ts := list.head;
    list.Pop();
    Callback(list, ops, world);
  }

  lemma Regroup<X>(a: seq<X>, x: X, b: seq<X>)
    ensures a + ([x] + b) == (a + [x]) + b
  {}

  /** x49gp_run_timers, with callbacks that act as scripted. */
  method RunTimers(list: TimerList, now: int, script: map<Timer, seq<Op<Timer>>>, ghost world: set<Timer>)
    returns (fired: seq<Timer>)
    requires list.Valid() && (forall t :: t in list.spine ==> t in world)
    requires forall t, op :: t in script && op in script[t] ==> op.id in world
    requires AllLater(script, now)
    modifies list, world
    ensures list.Valid()
    ensures list.Entries() == Drained(old(list.Entries()), now, script)
    ensures fired == Fired(old(list.Entries()), now, script)
  {
    hide WellFormed, AllApplied;
    ghost var q0 := list.Entries();
    fired := [];
    while list.head != null && list.head.expires <= now
      invariant list.Valid() && forall t :: t in list.spine ==> t in world
      invariant Drained(list.Entries(), now, script) == Drained(q0, now, script)
      invariant fired + Fired(list.Entries(), now, script) == Fired(q0, now, script)
      decreases Due(list.Entries(), now)
    {
      ghost var q := list.Entries();
      AppliedDue(q[1..], OpsOf(script, q[0].id), now);
      var ts := Fire(list, OpsOf(script, list.head), world);
      Regroup(fired, ts, Fired(list.Entries(), now, script));
      fired := fired + [ts];
    }
  }
}
