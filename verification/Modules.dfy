/** The ring of modules: registration at the end, and the teardown that runs
    every exit in reverse order while the exits delete their own nodes. */
module Modules {
  import opened Seqs
  import opened List

  /** Every element once, the last first. */
  function Reversed(s: seq<Node>): (r: seq<Node>)
    ensures |r| == |s|
  {
    if s == [] then [] else [s[|s| - 1]] + Reversed(s[..|s| - 1])
  }

  /** What a module's exit does: the error it returns, and whether it unregisters
      the module. */
  datatype Exit = Exit(error: int, unregisters: bool)

  function ExitOf(exits: map<Node, Exit>, x: Node): Exit
  {
    if x in exits then exits[x] else Exit(0, true)
  }

  // ------------------------------------------------------------ what the teardown does

  /** The modules whose exit runs, in order: from the last registered back, up to
      the first that reports an error. */
  function Exited(mods: seq<Node>, exits: map<Node, Exit>): seq<Node>
  {
    if mods == [] then []
    else
      var n := |mods| - 1;
      [mods[n]] + if ExitOf(exits, mods[n]).error != 0 then [] else Exited(mods[..n], exits)
  }

  /** The first error reported, or 0. */
  function FirstError(mods: seq<Node>, exits: map<Node, Exit>): int
  {
    if mods == [] then 0
    else
      var n := |mods| - 1;
      if ExitOf(exits, mods[n]).error != 0 then ExitOf(exits, mods[n]).error else FirstError(mods[..n], exits)
  }

  /** The modules still registered afterwards. */
  function Remaining(mods: seq<Node>, exits: map<Node, Exit>): seq<Node>
  {
    if mods == [] then []
    else
      var n := |mods| - 1;
      (if ExitOf(exits, mods[n]).error != 0 then mods[..n] else Remaining(mods[..n], exits)) +
      (if ExitOf(exits, mods[n]).unregisters then [] else [mods[n]])
  }

  /** When no exit fails, every module's exit runs once, in reverse order of
      registration; if all of them unregister, the ring is empty. */
  lemma {:induction false} CleanTeardown(mods: seq<Node>, exits: map<Node, Exit>)
    requires forall x :: x in mods ==> ExitOf(exits, x).error == 0
    ensures Exited(mods, exits) == Reversed(mods) && FirstError(mods, exits) == 0
    ensures (forall x :: x in mods ==> ExitOf(exits, x).unregisters) ==> Remaining(mods, exits) == []
  {
    if mods == [] {
    } else {
      CleanTeardown(mods[..|mods| - 1], exits);
    }
  }

  /** Reversal keeps each element, once. */
  lemma {:induction false} ReversedAt(s: seq<Node>, i: nat)
    requires i < |s|
    ensures Reversed(s)[i] == s[|s| - 1 - i]
  {
    if i > 0 {
      ReversedAt(s[..|s| - 1], i - 1);
    }
  }

  /** The teardown reports an error exactly when some exit that ran did, and then it
      is the last that ran; the exits that ran are the last registered modules. */
  lemma {:induction false} StopsAtError(mods: seq<Node>, exits: map<Node, Exit>)
    ensures var e := Exited(mods, exits);
            && |e| <= |mods|
            && e == Reversed(mods)[..|e|]
            && (forall k :: 0 <= k < |e| - 1 ==> ExitOf(exits, e[k]).error == 0)
            && (if FirstError(mods, exits) != 0
                then e != [] && FirstError(mods, exits) == ExitOf(exits, e[|e| - 1]).error
                else |e| == |mods| && (e != [] ==> ExitOf(exits, e[|e| - 1]).error == 0))
  {
    if mods == [] {
    } else {
      StopsAtError(mods[..|mods| - 1], exits);
    }
  }

  /** The list without these modules, in its own order. */
  function Filtered(mods: seq<Node>, gone: set<Node>): seq<Node>
  {
    if mods == [] then []
    else Filtered(mods[..|mods| - 1], gone) + (if mods[|mods| - 1] in gone then [] else [mods[|mods| - 1]])
  }

  /** The modules that unregister themselves in an exit that runs. */
  function Gone(mods: seq<Node>, exits: map<Node, Exit>): set<Node>
  {
    set x | x in Exited(mods, exits) && ExitOf(exits, x).unregisters
  }

  /** What stays registered is every module but those whose exit ran and unregistered it,
      in the order of registration. */
  lemma {:induction false} RemainingExactly(mods: seq<Node>, exits: map<Node, Exit>)
    requires NoDup(mods)
    ensures Remaining(mods, exits) == Filtered(mods, Gone(mods, exits))
  {
    if mods == [] {
    } else {
      var n := |mods| - 1;
      var x, front := mods[n], mods[..n];
      RemainingExactly(front, exits);
      OnlyExited(front, exits);
      assert x !in front;
      var rest := if ExitOf(exits, x).error != 0 then {} else Gone(front, exits);
      if ExitOf(exits, x).error != 0 {
        FilteredAlike(front, {}, Gone(mods, exits));
        NothingGone(front);
      } else {
        FilteredAlike(front, Gone(front, exits), Gone(mods, exits));
      }
    }
  }

  lemma {:induction false} FilteredAlike(mods: seq<Node>, a: set<Node>, b: set<Node>)
    requires forall x :: x in mods ==> (x in a <==> x in b)
    ensures Filtered(mods, a) == Filtered(mods, b)
  {
    if mods != [] {
      FilteredAlike(mods[..|mods| - 1], a, b);
    }
  }

  lemma {:induction false} NothingGone(mods: seq<Node>)
    ensures Filtered(mods, {}) == mods
  {
    if mods != [] {
      NothingGone(mods[..|mods| - 1]);
    }
  }

  lemma {:induction false} OnlyExited(mods: seq<Node>, exits: map<Node, Exit>)
    ensures forall x :: x in Exited(mods, exits) ==> x in mods
  {
    if mods != [] {
      OnlyExited(mods[..|mods| - 1], exits);
    }
  }

  // ------------------------------------------------------------ registration and teardown

  /** x49gp_module_register. */
  method Register(x: Node, head: Node, ghost mods: seq<Node>)
    requires Ring([head] + mods) && x != head && x !in mods
    modifies x, head, mods
    ensures Ring([head] + (mods + [x]))
  {
    ListAddTail(x, head, [head] + mods);
    assert [head] + mods + [x] == [head] + (mods + [x]);
  }

  /** x49gp_module_unregister. */
  method Unregister(x: Node, head: Node, ghost mods: seq<Node>, ghost i: nat)
    requires Ring([head] + mods) && i < |mods| && mods[i] == x
    modifies head, mods
    ensures Ring([head] + Removed(mods, i))
  {
    hide Ring, Removed;
    RemovedBehind(head, mods, i);
    ListDel(x, [head] + mods, i + 1);
  }

  lemma RemovedBehind(head: Node, mods: seq<Node>, i: nat)
    requires i < |mods|
    ensures Removed([head] + mods, i + 1) == [head] + Removed(mods, i)
  {}

  /** The ring while the teardown runs: the first j modules and the ones kept. */
  ghost function Midway(head: Node, mods: seq<Node>, j: nat, kept: seq<Node>): (r: seq<Node>)
    requires j <= |mods|
    ensures |r| == 1 + j + |kept| && r[0] == head && (j > 0 ==> r[j] == mods[j - 1])
  {
    [head] + mods[..j] + kept
  }

  lemma MidwayStep(head: Node, mods: seq<Node>, j: nat, kept: seq<Node>)
    requires 0 < j <= |mods|
    ensures Removed(Midway(head, mods, j, kept), j) == Midway(head, mods, j - 1, kept)
    ensures Midway(head, mods, j, kept) == Midway(head, mods, j - 1, [mods[j - 1]] + kept)
  {
    var r := Midway(head, mods, j, kept);
    assert r[..j] == [head] + mods[..j - 1] && r[j + 1..] == kept;
    assert mods[..j] == mods[..j - 1] + [mods[j - 1]];
  }

  /** One exit: the module at position j leaves, or is kept. */
  method RunExit(x: Node, head: Node, e: Exit, ghost mods: seq<Node>, ghost j: nat, ghost kept: seq<Node>)
    requires 0 < j <= |mods| && mods[j - 1] == x && Ring(Midway(head, mods, j, kept))
    requires forall x :: x in kept ==> x in mods
    modifies head, mods
    ensures Ring(Midway(head, mods, j - 1, if e.unregisters then kept else [x] + kept))
  {
    hide Ring, Midway, Removed;
    MidwayFacts(head, mods, j, kept);
    MidwayStep(head, mods, j, kept);
    if e.unregisters {
      ListDel(x, Midway(head, mods, j, kept), j);
    }
  }

  lemma MidwayFacts(head: Node, mods: seq<Node>, j: nat, kept: seq<Node>)
    requires j <= |mods| && forall x :: x in kept ==> x in mods
    ensures var r := Midway(head, mods, j, kept);
            && |r| == 1 + j + |kept| && r[0] == head && (j > 0 ==> r[j] == mods[j - 1])
            && (forall i: nat :: i < |r| ==> r[i] == head || r[i] in mods)
  {
    var r := Midway(head, mods, j, kept);
    forall i: nat | i < |r|
      ensures r[i] == head || r[i] in mods
    {
      assert 0 < i <= j ==> r[i] == mods[i - 1];
      assert i > j ==> r[i] == kept[i - 1 - j];
    }
  }

  /** The nodes before positions j and 0 of the ring. */
  lemma PrevAt(head: Node, mods: seq<Node>, j: nat, kept: seq<Node>)
    requires j <= |mods| && Ring(Midway(head, mods, j, kept))
    ensures var x := if j == 0 then head else mods[j - 1];
            && x.prev != null
            && (j > 0 ==> x != head && x.prev == (if j == 1 then head else mods[j - 2]))
  {
    var r := Midway(head, mods, j, kept);
    assert r[j].prev == Before(r, j);
  }

  /** What is still to come at position j, and what one exit makes of it. */
  lemma Teardown(mods: seq<Node>, exits: map<Node, Exit>, j: nat)
    requires 0 < j <= |mods|
    ensures var x := mods[j - 1];
            var e := ExitOf(exits, x);
            && Exited(mods[..j], exits) == [x] + (if e.error != 0 then [] else Exited(mods[..j - 1], exits))
            && FirstError(mods[..j], exits) == (if e.error != 0 then e.error else FirstError(mods[..j - 1], exits))
            && Remaining(mods[..j], exits) ==
               (if e.error != 0 then mods[..j - 1] else Remaining(mods[..j - 1], exits)) +
               (if e.unregisters then [] else [x])
  {
    assert mods[..j][..j - 1] == mods[..j - 1];
  }

  /** x49gp_modules_exit: the next module is looked up before an exit runs, and the
      one before that only afterwards. */
  method ModulesExit(head: Node, exits: map<Node, Exit>, ghost mods: seq<Node>)
    returns (error: int, ghost ran: seq<Node>)
    requires Ring([head] + mods)
    modifies head, mods
    ensures error == FirstError(mods, exits)
    ensures ran == Exited(mods, exits)
    ensures Ring([head] + Remaining(mods, exits))
  {
    hide Ring, Midway, Exited, FirstError, Remaining;
    ghost var j, kept: seq<Node> := |mods|, [];
    ran := [];
    Whole(head, mods, exits);
    PrevAt(head, mods, j, kept);
    PrevAtHead([head] + mods);
    var module_ := head.prev;
    var next := module_.prev;
    while module_ != head
      invariant 0 <= j <= |mods|
      invariant Ring(Midway(head, mods, j, kept))
      invariant forall x :: x in kept ==> x in mods
      invariant module_ == (if j == 0 then head else mods[j - 1]) && next != null
      invariant j > 0 ==> module_ != head && next == if j == 1 then head else mods[j - 2]
      invariant Exited(mods, exits) == ran + Exited(mods[..j], exits)
      invariant FirstError(mods, exits) == FirstError(mods[..j], exits)
      invariant Remaining(mods, exits) == Remaining(mods[..j], exits) + kept
      decreases j
    {
      var e := ExitOf(exits, module_);
      Teardown(mods, exits, j);
      RunExit(module_, head, e, mods, j, kept);
      ran := ran + [module_];
      kept := if e.unregisters then kept else [module_] + kept;
      j := j - 1;
      if e.error != 0 {
        Stopped(head, mods, j, kept);
        assert Remaining(mods, exits) == mods[..j] + kept;
        return e.error, ran;
      }
      module_ := next;
      PrevAt(head, mods, j, kept);
      next := next.prev;
    }
    assert mods[..j] == [] && Remaining(mods, exits) == kept;
    error := 0;
  }

  lemma PrevAtHead(r: seq<Node>)
    requires Ring(r)
    ensures r[0].prev == r[|r| - 1]
  {
    assert r[0].prev == Before(r, 0);
  }

  /** All modules, before the first exit and after the last. */
  lemma Whole(head: Node, mods: seq<Node>, exits: map<Node, Exit>)
    ensures Midway(head, mods, |mods|, []) == [head] + mods && mods[..|mods|] == mods
    ensures Exited([], exits) == [] && FirstError([], exits) == 0 && Remaining([], exits) == []
    ensures forall kept :: Midway(head, mods, 0, kept) == [head] + kept
  {}

  lemma Stopped(head: Node, mods: seq<Node>, j: nat, kept: seq<Node>)
    requires j <= |mods|
    ensures Midway(head, mods, j, kept) == [head] + (mods[..j] + kept)
  {}
}
