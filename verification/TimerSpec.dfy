/** The timer queue as a sequence of entries: what insertion, removal and the
    expiry loop do to it, independent of the linked list that holds it. */
module TimerSpec {
  import opened Seqs

  /** An armed timer and its expiry time. */
  datatype Entry<T(==)> = Entry(id: T, at: int)

  /** What a timer's callback does to the queue. */
  datatype Op<T(==)> = Arm(id: T, at: int) | Cancel(id: T)

  predicate Sorted<T>(q: seq<Entry<T>>)
  {
    forall i, j :: 0 <= i < j < |q| ==> q[i].at <= q[j].at
  }

  predicate DistinctIds<T(==)>(q: seq<Entry<T>>)
  {
    forall i, j :: 0 <= i < j < |q| ==> q[i].id != q[j].id
  }

  predicate Armed<T(==)>(q: seq<Entry<T>>, id: T)
  {
    exists i :: 0 <= i < |q| && q[i].id == id
  }

  /** del_timer: the entry of this timer is unlinked. */
  function Without<T(==)>(q: seq<Entry<T>>, id: T): seq<Entry<T>>
  {
    if q == [] then []
    else if q[0].id == id then q[1..]
    else [q[0]] + Without(q[1..], id)
  }

  /** mod_timer's walk: after every entry that is due no later. */
  function Insert<T(==)>(q: seq<Entry<T>>, e: Entry<T>): seq<Entry<T>>
  {
    if q == [] || q[0].at > e.at then [e] + q
    else [q[0]] + Insert(q[1..], e)
  }

  function Applied<T(==)>(q: seq<Entry<T>>, op: Op<T>): seq<Entry<T>>
  {
    match op
    case Arm(id, at) => Insert(Without(q, id), Entry(id, at))
    case Cancel(id) => Without(q, id)
  }

  function AllApplied<T(==)>(q: seq<Entry<T>>, ops: seq<Op<T>>): seq<Entry<T>>
    decreases ops
  {
    if ops == [] then q else AllApplied(Applied(q, ops[0]), ops[1..])
  }

  // ------------------------------------------------------------ positions

  lemma {:induction false} WithoutAt<T>(q: seq<Entry<T>>, id: T, i: nat)
    requires i <= |q|
    requires forall j :: 0 <= j < i ==> q[j].id != id
    requires i < |q| ==> q[i].id == id
    ensures Without(q, id) == if i < |q| then Removed(q, i) else q
  {
    if i == 0 {
    } else {
      WithoutAt(q[1..], id, i - 1);
      if i < |q| {
        RemovedTail(q, i);
      }
    }
  }

  lemma {:induction false} InsertAt<T>(q: seq<Entry<T>>, e: Entry<T>, i: nat)
    requires i <= |q|
    requires forall j :: 0 <= j < i ==> q[j].at <= e.at
    requires i < |q| ==> q[i].at > e.at
    ensures Insert(q, e) == Put(q, i, e)
  {
    if i == 0 {
      assert q[..0] + [e] + q[0..] == [e] + q;
    } else {
      InsertAt(q[1..], e, i - 1);
      assert q[..i] + [e] + q[i..] == [q[0]] + (q[1..][..i - 1] + [e] + q[1..][i - 1..]);
    }
  }

  /** The first entry due later than `at`, or the end. */
  function Place<T(==)>(q: seq<Entry<T>>, at: int): (i: nat)
    ensures i <= |q|
    ensures forall j :: 0 <= j < i ==> q[j].at <= at
    ensures i < |q| ==> q[i].at > at
  {
    if q == [] || q[0].at > at then 0 else 1 + Place(q[1..], at)
  }

  function Find<T(==)>(q: seq<Entry<T>>, id: T): (i: nat)
    ensures i <= |q|
    ensures forall j :: 0 <= j < i ==> q[j].id != id
    ensures i < |q| ==> q[i].id == id
  {
    if q == [] || q[0].id == id then 0 else 1 + Find(q[1..], id)
  }

  // ------------------------------------------------------------ what the operations keep

  /** A queue in which every timer occurs once, in order of expiry. */
  predicate WellFormed<T(==)>(q: seq<Entry<T>>)
  {
    Sorted(q) && DistinctIds(q)
  }

  /** Removal keeps order and drops exactly this timer's entry. */
  lemma WithoutKeeps<T>(q: seq<Entry<T>>, id: T)
    requires WellFormed(q)
    ensures WellFormed(Without(q, id)) && !Armed(Without(q, id), id)
    ensures forall e :: e in Without(q, id) <==> e in q && e.id != id
  {
    var i := Find(q, id);
    WithoutAt(q, id, i);
    if i < |q| {
      DropKeeps(q, i);
    }
  }

  lemma DropKeeps<T>(q: seq<Entry<T>>, i: nat)
    requires WellFormed(q) && i < |q|
    ensures var r := Removed(q, i);
            && WellFormed(r) && !Armed(r, q[i].id)
            && (forall e :: e in r <==> e in q && e.id != q[i].id)
  {
    DropOrders(q, i);
    forall e
      ensures e in Removed(q, i) <==> e in q && e.id != q[i].id
    {
      DropMember(q, i, e);
    }
  }

  lemma DropOrders<T>(q: seq<Entry<T>>, i: nat)
    requires WellFormed(q) && i < |q|
    ensures WellFormed(Removed(q, i)) && !Armed(Removed(q, i), q[i].id)
  {
    RemovedIs(q, i);
    var r := Removed(q, i);
    forall j, k | 0 <= j < k < |r|
      ensures r[j].at <= r[k].at && r[j].id != r[k].id
    {
      assert r[j] == q[if j < i then j else j + 1];
      assert r[k] == q[if k < i then k else k + 1];
    }
  }

  lemma DropMember<T>(q: seq<Entry<T>>, i: nat, e: Entry<T>)
    requires DistinctIds(q) && i < |q|
    ensures e in Removed(q, i) <==> e in q && e.id != q[i].id
  {
    RemovedIs(q, i);
    var r := Removed(q, i);
    if e in r {
      var j :| 0 <= j < |r| && r[j] == e;
      assert q[if j < i then j else j + 1] == e;
    }
    if e in q && e.id != q[i].id {
      var j :| 0 <= j < |q| && q[j] == e;
      assert r[if j < i then j else j - 1] == e;
    }
  }

  /** Insertion keeps order; the new entry stands after every entry due no later
      and before every entry due later, and no other entry changes. */
  lemma InsertKeeps<T>(q: seq<Entry<T>>, e: Entry<T>)
    requires WellFormed(q) && !Armed(q, e.id)
    ensures WellFormed(Insert(q, e))
    ensures multiset(Insert(q, e)) == multiset(q) + multiset{e}
    ensures var i := Place(q, e.at);
            && Insert(q, e) == Put(q, i, e)
            && (forall j :: 0 <= j < |q| ==> (q[j].at <= e.at <==> j < i))
  {
    var i := Place(q, e.at);
    InsertAt(q, e, i);
    PutKeeps(q, e, i);
    PutCounts(q, i, e);
  }

  lemma PutKeeps<T>(q: seq<Entry<T>>, e: Entry<T>, i: nat)
    requires WellFormed(q) && i <= |q| && !Armed(q, e.id)
    requires forall j :: 0 <= j < i ==> q[j].at <= e.at
    requires i < |q| ==> q[i].at > e.at
    ensures WellFormed(Put(q, i, e))
  {
    PutIs(q, i, e);
    var r := Put(q, i, e);
    forall j, k | 0 <= j < k < |r|
      ensures r[j].at <= r[k].at && r[j].id != r[k].id
    {
      if k == i {
        assert q[j].id != e.id;
      } else if j == i {
        assert q[k - 1].id != e.id;
      }
    }
  }

  /** Looking at the head alone tells whether anything is due. */
  lemma HeadDecides<T>(q: seq<Entry<T>>, now: int)
    requires Sorted(q)
    ensures (exists e :: e in q && e.at <= now) <==> q != [] && q[0].at <= now
  {
    if q != [] && q[0].at <= now {
      assert q[0] in q;
    }
  }

  lemma AppliedKeeps<T>(q: seq<Entry<T>>, op: Op<T>)
    requires WellFormed(q)
    ensures WellFormed(Applied(q, op))
  {
    WithoutKeeps(q, op.id);
    if op.Arm? {
      InsertKeeps(Without(q, op.id), Entry(op.id, op.at));
    }
  }

  lemma {:induction false} AllAppliedKeeps<T>(q: seq<Entry<T>>, ops: seq<Op<T>>)
    requires WellFormed(q)
    ensures WellFormed(AllApplied(q, ops))
    decreases ops
  {
    if ops == [] {
    } else {
      AppliedKeeps(q, ops[0]);
      AllAppliedKeeps(Applied(q, ops[0]), ops[1..]);
    }
  }

  // ------------------------------------------------------------ the expiry loop

  /** Everything a callback arms is due strictly after now. */
  predicate Later<T>(ops: seq<Op<T>>, now: int)
  {
    forall op :: op in ops && op.Arm? ==> op.at > now
  }

  predicate AllLater<T>(script: map<T, seq<Op<T>>>, now: int)
  {
    forall t :: t in script ==> Later(script[t], now)
  }

  function OpsOf<T(==)>(script: map<T, seq<Op<T>>>, t: T): seq<Op<T>>
  {
    if t in script then script[t] else []
  }

  function Due<T>(q: seq<Entry<T>>, now: int): nat
  {
    if q == [] then 0 else (if q[0].at <= now then 1 else 0) + Due(q[1..], now)
  }

  lemma {:induction false} WithoutDue<T>(q: seq<Entry<T>>, id: T, now: int)
    ensures Due(Without(q, id), now) <= Due(q, now)
  {
    if q == [] || q[0].id == id {
    } else {
      WithoutDue(q[1..], id, now);
      assert Without(q, id)[1..] == Without(q[1..], id);
    }
  }

  lemma {:induction false} InsertDue<T>(q: seq<Entry<T>>, e: Entry<T>, now: int)
    requires e.at > now
    ensures Due(Insert(q, e), now) == Due(q, now)
  {
    if q == [] || q[0].at > e.at {
      assert Insert(q, e)[1..] == q;
    } else {
      InsertDue(q[1..], e, now);
      assert Insert(q, e)[1..] == Insert(q[1..], e);
    }
  }

  lemma {:induction false} AppliedDue<T>(q: seq<Entry<T>>, ops: seq<Op<T>>, now: int)
    requires Later(ops, now)
    ensures Due(AllApplied(q, ops), now) <= Due(q, now)
    decreases ops
  {
    if ops == [] {
    } else {
      WithoutDue(q, ops[0].id, now);
      if ops[0].Arm? {
        InsertDue(Without(q, ops[0].id), Entry(ops[0].id, ops[0].at), now);
      }
      AppliedDue(Applied(q, ops[0]), ops[1..], now);
    }
  }

  /** The queue after the loop of run_timers, whose callbacks act as scripted. */
  function Drained<T(==)>(q: seq<Entry<T>>, now: int, script: map<T, seq<Op<T>>>): seq<Entry<T>>
    requires AllLater(script, now)
    decreases Due(q, now)
  {
    if q == [] || q[0].at > now then q
    else
      AppliedDue(q[1..], OpsOf(script, q[0].id), now);
      Drained(AllApplied(q[1..], OpsOf(script, q[0].id)), now, script)
  }

  /** The timers whose callbacks ran, in order. */
  function Fired<T(==)>(q: seq<Entry<T>>, now: int, script: map<T, seq<Op<T>>>): seq<T>
    requires AllLater(script, now)
    decreases Due(q, now)
  {
    if q == [] || q[0].at > now then []
    else
      AppliedDue(q[1..], OpsOf(script, q[0].id), now);
      [q[0].id] + Fired(AllApplied(q[1..], OpsOf(script, q[0].id)), now, script)
  }

  /** However the callbacks rearrange the queue, the loop leaves it in order with
      nothing due. */
  lemma {:induction false} DrainedKeeps<T>(q: seq<Entry<T>>, now: int, script: map<T, seq<Op<T>>>)
    requires WellFormed(q) && AllLater(script, now)
    ensures WellFormed(Drained(q, now, script))
    ensures forall e :: e in Drained(q, now, script) ==> e.at > now
    decreases Due(q, now)
  {
    if q == [] || q[0].at > now {
    } else {
      AppliedDue(q[1..], OpsOf(script, q[0].id), now);
      AllAppliedKeeps(q[1..], OpsOf(script, q[0].id));
      DrainedKeeps(AllApplied(q[1..], OpsOf(script, q[0].id)), now, script);
    }
  }

  // ------------------------------------------------------------ callbacks that re-arm themselves

  /** Each callback at most re-arms its own timer, once. */
  predicate SelfOnly<T(==)>(script: map<T, seq<Op<T>>>)
  {
    forall t :: t in script ==> |script[t]| <= 1 && forall op :: op in script[t] ==> op.Arm? && op.id == t
  }

  function Ids<T>(q: seq<Entry<T>>): (ids: seq<T>)
    ensures |ids| == |q|
    ensures forall i :: 0 <= i < |q| ==> ids[i] == q[i].id
  {
    seq(|q|, i requires 0 <= i < |q| => q[i].id)
  }

  /** What the callback of timer t puts back into the queue. */
  function PutBack<T(==)>(script: map<T, seq<Op<T>>>, t: T): multiset<Entry<T>>
    requires SelfOnly(script)
  {
    if t in script && script[t] != [] then multiset{Entry(t, script[t][0].at)} else multiset{}
  }

  function AllPutBack<T(==)>(script: map<T, seq<Op<T>>>, ids: seq<T>): multiset<Entry<T>>
    requires SelfOnly(script)
  {
    if ids == [] then multiset{} else PutBack(script, ids[0]) + AllPutBack(script, ids[1..])
  }

  lemma TailKeeps<T>(q: seq<Entry<T>>)
    requires WellFormed(q) && q != []
    ensures WellFormed(q[1..])
    ensures forall j :: 0 <= j < |q| - 1 ==> q[1..][j].id != q[0].id
  {}

  /** One callback that re-arms at most its own timer, later than now: the due
      entries still in the queue stay in front, in order. */
  lemma SelfStep<T>(q: seq<Entry<T>>, now: int, script: map<T, seq<Op<T>>>, n: nat)
    requires WellFormed(q) && AllLater(script, now) && SelfOnly(script)
    requires 0 < n <= |q| && n == Place(q, now)
    ensures var q' := AllApplied(q[1..], OpsOf(script, q[0].id));
            && WellFormed(q')
            && n - 1 == Place(q', now) <= |q'|
            && q'[..n - 1] == q[1..n]
            && multiset(q'[n - 1..]) == multiset(q[n..]) + PutBack(script, q[0].id)
  {
    hide Insert, WellFormed, Without, AllApplied, Place;
    var t, r := q[0].id, q[1..];
    var ops := OpsOf(script, t);
    PlaceOfTail(q, now, n);
    TailKeeps(q);
    AllAppliedKeeps(r, ops);
    assert r[n - 1..] == q[n..] && r[..n - 1] == q[1..n];
    if ops != [] {
      RearmsSelf(q, now, script);
      RearmBehind(r, Entry(t, ops[0].at), now, n - 1);
    } else {
      NothingApplied(r);
    }
  }

  lemma NothingApplied<T>(q: seq<Entry<T>>)
    ensures AllApplied(q, []) == q
  {}

  lemma PlaceOfTail<T>(q: seq<Entry<T>>, now: int, n: nat)
    requires 0 < n <= |q| && n == Place(q, now)
    ensures Place(q[1..], now) == n - 1
  {
    hide WellFormed;
    PlaceIs(q[1..], now, n - 1);
  }

  /** The callback that re-arms its own timer, after the timer has left the queue. */
  lemma RearmsSelf<T>(q: seq<Entry<T>>, now: int, script: map<T, seq<Op<T>>>)
    requires WellFormed(q) && q != [] && AllLater(script, now) && SelfOnly(script)
    requires OpsOf(script, q[0].id) != []
    ensures var t, ops := q[0].id, OpsOf(script, q[0].id);
            && ops[0].Arm? && ops[0].at > now
            && AllApplied(q[1..], ops) == Insert(q[1..], Entry(t, ops[0].at))
            && PutBack(script, t) == multiset{Entry(t, ops[0].at)}
  {
    hide Insert, WellFormed, Without;
    var t, r := q[0].id, q[1..];
    var ops := OpsOf(script, t);
    TailKeeps(q);
    assert ops[0] in ops && Later(script[t], now);
    WithoutAt(r, t, |r|);
    assert ops[1..] == [];
  }

  /** An entry due later than now joins the ones that are not due. */
  lemma RearmBehind<T>(q: seq<Entry<T>>, e: Entry<T>, now: int, m: nat)
    requires e.at > now && m == Place(q, now)
    ensures var r := Insert(q, e);
            && Place(r, now) == m <= |r|
            && r[..m] == q[..m]
            && multiset(r[m..]) == multiset(q[m..]) + multiset{e}
  {
    var i := Place(q, e.at);
    InsertAt(q, e, i);
    PutBehind(q, e, i, m);
    var r := Insert(q, e);
    forall j | 0 <= j < m
      ensures r[j].at <= now
    {
      assert r[..m][j] == q[..m][j];
    }
    PlaceIs(r, now, m);
  }

  /** An entry put in at i leaves the first m <= i entries, and joins the rest. */
  lemma PutBehind<T>(q: seq<Entry<T>>, e: Entry<T>, i: nat, m: nat)
    requires m <= i <= |q|
    ensures var r := q[..i] + [e] + q[i..];
            && r[..m] == q[..m]
            && multiset(r[m..]) == multiset(q[m..]) + multiset{e}
            && r[m] == (if m < i then q[m] else e)
  {
    var r := q[..i] + [e] + q[i..];
    assert r[m..] == q[m..i] + [e] + q[i..];
    assert q[m..] == q[m..i] + q[i..];
  }

  lemma {:induction false} PlaceIs<T>(q: seq<Entry<T>>, at: int, i: nat)
    requires i <= |q|
    requires forall j :: 0 <= j < i ==> q[j].at <= at
    requires i < |q| ==> q[i].at > at
    ensures Place(q, at) == i
  {
    if i == 0 {
    } else {
      PlaceIs(q[1..], at, i - 1);
    }
  }

  /** In a queue in order, the due entries are the ones in front. */
  lemma DueInFront<T>(q: seq<Entry<T>>, now: int)
    requires Sorted(q)
    ensures forall e :: e in q[..Place(q, now)] <==> e in q && e.at <= now
  {
    var n := Place(q, now);
    forall e | e in q && e.at <= now
      ensures e in q[..n]
    {
      var j :| 0 <= j < |q| && q[j] == e;
      assert j < n;
      assert q[..n][j] == e;
    }
  }

  /** With such callbacks run_timers fires exactly the timers due at entry, each
      once and in queue order, and leaves the others and the re-armed ones. */
  lemma {:induction false} RunExactly<T>(q: seq<Entry<T>>, now: int, script: map<T, seq<Op<T>>>)
    requires WellFormed(q) && AllLater(script, now) && SelfOnly(script)
    ensures var n := Place(q, now);
            && Fired(q, now, script) == Ids(q[..n])
            && multiset(Drained(q, now, script)) == multiset(q[n..]) + AllPutBack(script, Ids(q[..n]))
    decreases Due(q, now)
  {
    hide WellFormed, AllLater, SelfOnly, AllApplied, OpsOf, Ids, PutBack, Due, Fired, Drained, Place;
    var n := Place(q, now);
    PlaceInside(q, now);
    if n == 0 {
      assert q[n..] == q && q[..n] == [];
      NothingDue(q, now, script);
    } else {
      var q' := AllApplied(q[1..], OpsOf(script, q[0].id));
      AppliedLater(q, script, now);
      SelfStep(q, now, script, n);
      RunExactly(q', now, script);
      IdsOfPrefix(q, q', n);
      HeadFires(q, now, script);
    }
  }

  lemma NothingDue<T>(q: seq<Entry<T>>, now: int, script: map<T, seq<Op<T>>>)
    requires AllLater(script, now) && Place(q, now) == 0
    ensures Fired(q, now, script) == [] == Ids([]) && Drained(q, now, script) == q
  {}

  lemma HeadFires<T>(q: seq<Entry<T>>, now: int, script: map<T, seq<Op<T>>>)
    requires AllLater(script, now) && q != [] && q[0].at <= now
    ensures var q' := AllApplied(q[1..], OpsOf(script, q[0].id));
            && Fired(q, now, script) == [q[0].id] + Fired(q', now, script)
            && Drained(q, now, script) == Drained(q', now, script)
  {}

  lemma PlaceInside<T>(q: seq<Entry<T>>, at: int)
    ensures Place(q, at) <= |q|
    ensures Place(q, at) > 0 ==> q != [] && q[0].at <= at
  {}

  lemma AppliedLater<T>(q: seq<Entry<T>>, script: map<T, seq<Op<T>>>, now: int)
    requires AllLater(script, now) && q != [] && q[0].at <= now
    ensures Later(OpsOf(script, q[0].id), now)
    ensures Due(AllApplied(q[1..], OpsOf(script, q[0].id)), now) < Due(q, now)
  {
    AppliedDue(q[1..], OpsOf(script, q[0].id), now);
  }

  lemma IdsOfPrefix<T>(q: seq<Entry<T>>, q': seq<Entry<T>>, n: nat)
    requires 0 < n <= |q| && n - 1 <= |q'| && q'[..n - 1] == q[1..n]
    ensures Ids(q[..n]) == [q[0].id] + Ids(q'[..n - 1])
    ensures Ids(q[..n])[1..] == Ids(q'[..n - 1])
  {
    var a, b := Ids(q[..n]), Ids(q'[..n - 1]);
    forall i | 0 <= i < n - 1
      ensures a[i + 1] == b[i]
    {
      assert q'[..n - 1][i] == q[1..n][i];
    }
  }

  /** The condition is needed: a callback that re-arms its own timer no later than
      now leaves as many timers due as before it ran, so the loop makes no progress. */
  lemma NoProgressUnlessLater<T>(q: seq<Entry<T>>, now: int, at: int)
    requires WellFormed(q) && q != [] && q[0].at <= now && at <= now
    ensures Due(AllApplied(q[1..], [Arm(q[0].id, at)]), now) == Due(q, now)
  {
    TailKeeps(q);
    WithoutAt(q[1..], q[0].id, |q| - 1);
    DueInsert(q[1..], Entry(q[0].id, at), now);
    assert AllApplied(Applied(q[1..], Arm(q[0].id, at)), []) == Insert(q[1..], Entry(q[0].id, at));
    assert [Arm(q[0].id, at)][1..] == [];
  }

  lemma {:induction false} DueInsert<T>(q: seq<Entry<T>>, e: Entry<T>, now: int)
    requires e.at <= now
    ensures Due(Insert(q, e), now) == Due(q, now) + 1
  {
    if q == [] || q[0].at > e.at {
      assert Insert(q, e)[1..] == q;
    } else {
      DueInsert(q[1..], e, now);
      assert Insert(q, e)[1..] == Insert(q[1..], e);
    }
  }
}
