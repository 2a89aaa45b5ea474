/** The two levels of rotating arbitration of the S3C2410 interrupt controller.
    A 32-bit register is the set of its one bits. */
module Arbiter {

  type Word = w: set<nat> | forall b :: b in w ==> b < 32

  /** The two source numbers that no interrupt has; INTMSK always masks them. */
  const UNUSED: Word := {6, 24}

  /** s3c2410_arb_order: the scan order of an arbiter's six inputs, by its sel. */
  function ArbOrder(sel: nat): (o: seq<nat>)
    requires sel < 4
    ensures |o| == 6 && Inputs(o)
  {
    if sel == 0 then [0, 1, 2, 3, 4, 5]
    else if sel == 1 then [0, 2, 3, 4, 1, 5]
    else if sel == 2 then [0, 3, 4, 1, 2, 5]
    else [0, 4, 1, 2, 3, 5]
  }

  /** The req columns of s3c2410_arb_table; -1 is an unconnected input. */
  function ArbReq(k: nat): (r: seq<int>)
    requires k < 7
    ensures Wires(r)
  {
    if k == 0 then [-1, 0, 1, 2, 3, -1]
    else if k == 1 then [4, 5, -1, 7, 8, 9]
    else if k == 2 then [10, 11, 12, 13, 14, 15]
    else if k == 3 then [16, 17, 18, 19, 20, 21]
    else if k == 4 then [22, 23, -1, 25, 26, 27]
    else if k == 5 then [-1, 28, 29, 30, 31, -1]
    else [0, 1, 2, 3, 4, 5]
  }

  // ------------------------------------------------------------ one arbiter

  predicate Inputs(order: seq<nat>)
  {
    forall j :: 0 <= j < |order| ==> order[j] < 6
  }

  predicate Wires(req: seq<int>)
  {
    |req| == 6 && forall j :: 0 <= j < 6 ==> -1 <= req[j] < 32
  }

  predicate Calls(req: seq<int>, x: nat, service: Word)
    requires Wires(req) && x < 6
  {
    req[x] != -1 && req[x] in service
  }

  /** The request an arbiter picks, scanning its inputs in this order; -1 if none. */
  function Pick(order: seq<nat>, req: seq<int>, service: Word): (r: int)
    requires Inputs(order) && Wires(req)
    ensures -1 <= r < 32 && (r != -1 ==> r in service && r in req)
  {
    if order == [] then -1
    else if Calls(req, order[0], service) then req[order[0]]
    else Pick(order[1..], req, service)
  }

  function Choice(k: nat, sel: nat, service: Word): (r: int)
    requires k < 7 && sel < 4
    ensures -1 <= r < 32 && (r != -1 ==> r in service && r in ArbReq(k))
  {
    Pick(ArbOrder(sel), ArbReq(k), service)
  }

  /** sel after a selection: it rotates when something was picked. */
  function Rotated(sel: nat, mode: bool, picked: bool): nat
  {
    if picked && mode then (sel + 1) % 4 else sel
  }

  /** In the order for sel, position sel + 1 is tried right after position 0. */
  lemma FrontRunner(k: nat, sel: nat, service: Word)
    requires k < 7 && sel < 4
    requires !Calls(ArbReq(k), 0, service) && Calls(ArbReq(k), sel + 1, service)
    ensures Choice(k, sel, service) == ArbReq(k)[sel + 1]
  {
    hide ArbReq;
    var order := ArbOrder(sel);
    assert order[0] == 0 && order[1..][0] == sel + 1;
    assert Pick(order, ArbReq(k), service) == Pick(order[1..], ArbReq(k), service);
  }

  /** A request that is present is never passed over for nothing. */
  lemma {:induction false} SomethingPicked(order: seq<nat>, req: seq<int>, service: Word, j: nat)
    requires Inputs(order) && Wires(req) && j < |order|
    requires Calls(req, order[j], service)
    ensures Pick(order, req, service) != -1
  {
    if j == 0 {
    } else {
      SomethingPicked(order[1..], req, service, j - 1);
    }
  }

  lemma {:induction false} PickFirst(order: seq<nat>, req: seq<int>, service: Word, i: nat)
    requires Inputs(order) && Wires(req) && i < |order|
    requires Calls(req, order[i], service)
    requires forall j :: 0 <= j < i ==> !Calls(req, order[j], service)
    ensures Pick(order, req, service) == req[order[i]]
  {
    if i > 0 {
      PickFirst(order[1..], req, service, i - 1);
    }
  }

  /** Where input x stands in the order for sel. */
  function Rank(sel: nat, x: nat): (i: nat)
    requires sel < 4 && x < 6
    ensures i < 6 && ArbOrder(sel)[i] == x
  {
    if x == 0 || x == 5 then x else (x + 3 - sel) % 4 + 1
  }

  /** Input x is tried before input y: input 0 comes first, input 5 last, and between them
      the four others take turns, the one cyclically next after sel being the first. */
  predicate Before(sel: nat, x: nat, y: nat)
  {
    || (x == 0 && y != 0)
    || (x != 5 && y == 5)
    || (1 <= x <= 4 && 1 <= y <= 4 && (x + 3 - sel) % 4 < (y + 3 - sel) % 4)
  }

  /** An arbiter picks the request at input x exactly when there is one and every other
      request is at an input that comes later. */
  lemma ChoiceIsFirst(k: nat, sel: nat, service: Word, x: nat)
    requires k < 7 && sel < 4 && x < 6 && Calls(ArbReq(k), x, service)
    ensures Choice(k, sel, service) == ArbReq(k)[x] <==>
            forall y: nat :: y < 6 && y != x && Calls(ArbReq(k), y, service) ==> Before(sel, x, y)
  {
    hide Calls, ArbReq;
    if forall y: nat :: y < 6 && y != x && Calls(ArbReq(k), y, service) ==> Before(sel, x, y) {
      forall j | 0 <= j < Rank(sel, x)
        ensures !Calls(ArbReq(k), ArbOrder(sel)[j], service)
      {
        EarlierRank(sel, x, j);
      }
      PickFirst(ArbOrder(sel), ArbReq(k), service, Rank(sel, x));
    } else {
      var y: nat :| y < 6 && y != x && Calls(ArbReq(k), y, service) && !Before(sel, x, y);
      BeforeTotal(sel, x, y);
      LaterLoses(k, sel, service, x, y);
    }
  }

  lemma EarlierRank(sel: nat, x: nat, j: nat)
    requires sel < 4 && x < 6 && j < Rank(sel, x)
    ensures Before(sel, ArbOrder(sel)[j], x) && !Before(sel, x, ArbOrder(sel)[j]) && ArbOrder(sel)[j] != x
  {}

  lemma BeforeTotal(sel: nat, x: nat, y: nat)
    requires sel < 4 && x < 6 && y < 6 && x != y && !Before(sel, x, y)
    ensures Rank(sel, y) < Rank(sel, x)
  {}

  lemma LaterLoses(k: nat, sel: nat, service: Word, x: nat, y: nat)
    requires k < 7 && sel < 4 && x < 6 && y < 6 && Rank(sel, y) < Rank(sel, x)
    requires Calls(ArbReq(k), x, service) && Calls(ArbReq(k), y, service)
    ensures Choice(k, sel, service) != ArbReq(k)[x]
  {
    PickedRank(ArbOrder(sel), ArbReq(k), service, Rank(sel, y));
    var i :| && 0 <= i <= Rank(sel, y)
             && ArbReq(k)[ArbOrder(sel)[i]] != -1 && Choice(k, sel, service) == ArbReq(k)[ArbOrder(sel)[i]];
    WiresDiffer(k, ArbOrder(sel)[i], x);
    assert ArbOrder(sel)[i] != x;
  }

  lemma {:induction false} PickedRank(order: seq<nat>, req: seq<int>, service: Word, i: nat)
    requires Inputs(order) && Wires(req) && i < |order| && Calls(req, order[i], service)
    ensures exists j :: 0 <= j <= i && req[order[j]] != -1 && Pick(order, req, service) == req[order[j]]
  {
    if Calls(req, order[0], service) {
      assert Pick(order, req, service) == req[order[0]];
    } else {
      PickedRank(order[1..], req, service, i - 1);
      var j :| 0 <= j <= i - 1 && req[order[1..][j]] != -1 && Pick(order[1..], req, service) == req[order[1..][j]];
      assert req[order[j + 1]] == req[order[1..][j]];
    }
  }

  /** No two inputs of an arbiter are connected to the same request. */
  lemma WiresDiffer(k: nat, x: nat, y: nat)
    requires k < 7 && x < 6 && y < 6 && x != y
    ensures ArbReq(k)[x] != ArbReq(k)[y] || ArbReq(k)[x] == -1
  {}

  /** sel after the first n of a run of selections of a rotating arbiter. */
  function SelAfter(k: nat, sel: nat, services: seq<Word>, n: nat): (s: nat)
    requires k < 7 && sel < 4 && n <= |services|
    ensures s < 4
  {
    if n == 0 then sel
    else
      var s := SelAfter(k, sel, services, n - 1);
      Rotated(s, true, Choice(k, s, services[n - 1]) != -1)
  }

  lemma {:induction false} HeldRotates(k: nat, p: nat, sel: nat, services: seq<Word>, a: nat, n: nat)
    requires k < 7 && sel < 4 && 1 <= p <= 4 && a + n <= |services|
    requires forall i :: a <= i < a + n ==> Calls(ArbReq(k), p, services[i])
    ensures SelAfter(k, sel, services, a + n) == (SelAfter(k, sel, services, a) + n) % 4
  {
    hide Choice, ArbReq, ArbOrder;
    if n == 0 {
    } else {
      HeldRotates(k, p, sel, services, a, n - 1);
      HeldIsServed(k, p, SelAfter(k, sel, services, a + n - 1), services[a + n - 1]);
    }
  }

  lemma HeldIsServed(k: nat, p: nat, sel: nat, service: Word)
    requires k < 7 && sel < 4 && p < 6
    requires Calls(ArbReq(k), p, service)
    ensures Choice(k, sel, service) != -1
  {
    hide ArbReq;
    SomethingPicked(ArbOrder(sel), ArbReq(k), service, Rank(sel, p));
  }

  /** Over any run of selections of an arbiter in rotation mode, a request held at
      one of the positions 1 to 4, while position 0 is idle, is picked at least
      once in every four consecutive selections. */
  lemma HeldRequestWins(k: nat, p: nat, sel: nat, services: seq<Word>, a: nat) returns (i: nat)
    requires k < 7 && sel < 4 && 1 <= p <= 4 && a + 4 <= |services|
    requires forall i :: a <= i < a + 4 ==>
               Calls(ArbReq(k), p, services[i]) && !Calls(ArbReq(k), 0, services[i])
    ensures a <= i < a + 4
    ensures Choice(k, SelAfter(k, sel, services, i), services[i]) == ArbReq(k)[p]
  {
    hide Choice, ArbReq, ArbOrder;
    var s := SelAfter(k, sel, services, a);
    var n := (p + 3 - s) % 4;
    i := a + n;
    HeldRotates(k, p, sel, services, a, n);
    assert SelAfter(k, sel, services, i) == p - 1;
    FrontRunner(k, p - 1, services[i]);
  }

  // ------------------------------------------------------------ the two levels

  /** The groups with a request, as ARB6 sees them. */
  function Groups(sel: seq<nat>, service: Word): (w: Word)
    requires |sel| == 7 && forall k :: 0 <= k < 7 ==> sel[k] < 4
  {
    set k: nat | k < 6 && Choice(k, sel[k], service) != -1
  }

  /** What ARB6's choice g stands for: the choice of arbiter g; -1 for none. */
  function Behind(sel: seq<nat>, service: Word, g: int): int
    requires |sel| == 7 && forall k :: 0 <= k < 7 ==> sel[k] < 4
  {
    if g < 0 || g >= 6 then -1 else Choice(g, sel[g], service)
  }

  /** The source the two levels together select; -1 if none. */
  function Winner(sel: seq<nat>, service: Word): int
    requires |sel| == 7 && forall k :: 0 <= k < 7 ==> sel[k] < 4
  {
    Behind(sel, service, Choice(6, sel[6], Groups(sel, service)))
  }

  /** The sources of group k, in this order of its inputs. */
  function GroupOrder(k: nat, order: seq<nat>): seq<nat>
    requires k < 7 && Inputs(order)
  {
    if order == [] then []
    else
      var r := ArbReq(k)[order[0]];
      (if r == -1 then [] else [r]) + GroupOrder(k, order[1..])
  }

  /** All sources, going through the groups in this order and through each group
      in its own. */
  function FlatOrder(order: seq<nat>, sel: seq<nat>): seq<nat>
    requires Inputs(order) && |sel| == 7 && (forall k :: 0 <= k < 7 ==> sel[k] < 4)
    decreases |order|
  {
    if order == [] then []
    else GroupOrder(order[0], ArbOrder(sel[order[0]])) + FlatOrder(order[1..], sel)
  }

  /** The first source of the list that requests service; -1 if none does. */
  function FirstIn(list: seq<nat>, service: Word): (r: int)
    ensures r == -1 || (r in service && r in list)
  {
    if list == [] then -1 else if list[0] in service then list[0] else FirstIn(list[1..], service)
  }

  /** The flat scan: ARB6's order composed with each group's. */
  function Scan(sel: seq<nat>, service: Word): (r: int)
    requires |sel| == 7 && (forall k :: 0 <= k < 7 ==> sel[k] < 4)
    ensures r == -1 || r in service
  {
    FirstIn(FlatOrder(ArbOrder(sel[6]), sel), service)
  }

  lemma {:induction false} FirstInConcat(a: seq<nat>, b: seq<nat>, service: Word)
    ensures FirstIn(a + b, service) == if FirstIn(a, service) != -1 then FirstIn(a, service) else FirstIn(b, service)
  {
    if a == [] {
      assert a + b == b;
    } else {
      FirstInConcat(a[1..], b, service);
      assert (a + b)[1..] == a[1..] + b;
    }
  }

  lemma {:induction false} GroupIsScan(k: nat, order: seq<nat>, service: Word)
    requires k < 7 && Inputs(order)
    ensures FirstIn(GroupOrder(k, order), service) == Pick(order, ArbReq(k), service)
  {
    hide ArbReq;
    if order == [] {
    } else {
      GroupIsScan(k, order[1..], service);
      var rest := GroupOrder(k, order[1..]);
      if GroupOrder(k, order) != rest {
        assert GroupOrder(k, order)[1..] == rest;
      }
    }
  }

  lemma {:induction false} ScanFrom(order: seq<nat>, sel: seq<nat>, service: Word)
    requires Inputs(order) && |sel| == 7 && (forall k :: 0 <= k < 7 ==> sel[k] < 4)
    ensures FirstIn(FlatOrder(order, sel), service)
            == Behind(sel, service, Pick(order, ArbReq(6), Groups(sel, service)))
    decreases |order|
  {
    hide ArbOrder, ArbReq, GroupOrder;
    if order == [] {
    } else {
      var g := order[0];
      ScanFrom(order[1..], sel, service);
      TopWires(g);
      GroupIsScan(g, ArbOrder(sel[g]), service);
      FirstInConcat(GroupOrder(g, ArbOrder(sel[g])), FlatOrder(order[1..], sel), service);
    }
  }

  lemma TopWires(g: nat)
    requires g < 6
    ensures ArbReq(6)[g] == g
  {}

  /** Two-level arbitration equals a flat scan of the composed order. */
  lemma ArbitrationIsFlat(sel: seq<nat>, service: Word)
    requires |sel| == 7 && (forall k :: 0 <= k < 7 ==> sel[k] < 4)
    ensures Winner(sel, service) == Scan(sel, service)
  {
    hide ArbOrder, ArbReq, GroupOrder;
    ScanFrom(ArbOrder(sel[6]), sel, service);
  }

  /** The group and input a source is wired to. */
  function Wiring(s: nat): (w: (nat, nat))
    requires s < 32 && s !in UNUSED
    ensures w.0 < 6 && w.1 < 6 && ArbReq(w.0)[w.1] == s
  {
    if s < 4 then (0, s + 1)
    else if s < 10 then (1, s - 4)
    else if s < 16 then (2, s - 10)
    else if s < 22 then (3, s - 16)
    else if s < 28 then (4, s - 22)
    else (5, s - 27)
  }

  lemma NeverUnused(k: nat)
    requires k < 6
    ensures forall u :: u in UNUSED ==> (u as int) !in ArbReq(k)
  {}

  /** Any request but the two unused bits yields a winner, and nothing else does;
      the winner is one of the requests. */
  lemma AlwaysAWinner(sel: seq<nat>, service: Word)
    requires |sel| == 7 && (forall k :: 0 <= k < 7 ==> sel[k] < 4)
    ensures Winner(sel, service) != -1 ==> Winner(sel, service) in service - UNUSED
    ensures Winner(sel, service) != -1 <==> service - UNUSED != {}
  {
    hide ArbOrder, ArbReq;
    var g := Choice(6, sel[6], Groups(sel, service));
    if 0 <= g < 6 {
      NeverUnused(g);
    }
    if service - UNUSED != {} {
      var s :| s in service - UNUSED;
      SomeoneWins(sel, service, s);
    }
  }

  lemma SomeoneWins(sel: seq<nat>, service: Word, s: nat)
    requires |sel| == 7 && (forall k :: 0 <= k < 7 ==> sel[k] < 4)
    requires s in service - UNUSED
    ensures Winner(sel, service) != -1
  {
    hide ArbOrder, ArbReq;
    var (k, x) := Wiring(s);
    HeldIsServed(k, x, sel[k], service);
    assert k in Groups(sel, service);
    TopWires(k);
    HeldIsServed(6, k, sel[6], Groups(sel, service));
  }

  /** With every arbiter in its first position the lowest-numbered request wins. */
  lemma LowestWins(service: Word, b: nat)
    requires b in service && b != 6 && b != 24
    requires forall a: nat :: a in service && a < b ==> a == 6 || a == 24
    ensures Winner(seq(7, _ => 0), service) == b
  {
    hide ArbReq, ArbOrder, Choice;
    var zero: seq<nat> := seq(7, _ => 0);
    var (k, x) := Wiring(b);
    LowestInGroup(service, b, k, x);
    forall y: nat | y < 6 && y != k && Calls(ArbReq(6), y, Groups(zero, service))
      ensures Before(0, k, y)
    {
      TopWires(y);
      WiredBelow(k, x, y, service, b);
    }
    assert k in Groups(zero, service);
    TopWires(k);
    ChoiceIsFirst(6, 0, Groups(zero, service), k);
  }

  /** Sources are wired in the order of their numbers, inside a group and over the groups. */
  lemma WiredInOrder(k: nat, x: nat, l: nat, y: nat)
    requires k < 6 && x < 6 && l < 6 && y < 6 && ArbReq(k)[x] != -1 && ArbReq(l)[y] != -1
    ensures ArbReq(k)[x] < ArbReq(l)[y] <==> k < l || (k == l && x < y)
    ensures ArbReq(k)[x] != 6 && ArbReq(k)[x] != 24
  {
    hide ArbReq;
    GroupRange(k, x);
    GroupRange(l, y);
  }

  lemma GroupRange(k: nat, x: nat)
    requires k < 6 && x < 6 && ArbReq(k)[x] != -1
    ensures var r: int := ArbReq(k)[x];
            && r == (if k == 0 then x - 1 else if k == 5 then 27 + x else 6 * k - 2 + x)
            && r != 6 && r != 24 && (k == 0 || k == 5 ==> 1 <= x <= 4)
  {}

  lemma LowestInGroup(service: Word, b: nat, k: nat, x: nat)
    requires b in service && b !in UNUSED && b < 32 && (k, x) == Wiring(b)
    requires forall a: nat :: a in service && a < b ==> a == 6 || a == 24
    ensures Choice(k, 0, service) == b
  {
    hide Choice, ArbReq;
    forall y: nat | y < 6 && y != x && Calls(ArbReq(k), y, service)
      ensures Before(0, x, y)
    {
      WiredInOrder(k, y, k, x);
    }
    ChoiceIsFirst(k, 0, service, x);
  }

  lemma WiredBelow(k: nat, x: nat, y: nat, service: Word, b: nat)
    requires b < 32 && b !in UNUSED && (k, x) == Wiring(b) && y < 6 && y != k
    requires forall a: nat :: a in service && a < b ==> a == 6 || a == 24
    requires Choice(y, 0, service) != -1
    ensures Before(0, k, y)
  {
    hide Choice, ArbReq;
    var r := Choice(y, 0, service);
    var z :| 0 <= z < 6 && ArbReq(y)[z] == r;
    WiredInOrder(y, z, k, x);
  }

  /** With the unused bits out of the way, a request always has a first one. */
  lemma ScanFinds(sel: seq<nat>, service: Word)
    requires |sel| == 7 && (forall k :: 0 <= k < 7 ==> sel[k] < 4)
    requires service !! UNUSED && service != {}
    ensures Scan(sel, service) in service
  {
    hide Winner, Scan;
    ArbitrationIsFlat(sel, service);
    AlwaysAWinner(sel, service);
    assert service - UNUSED == service;
  }
}
