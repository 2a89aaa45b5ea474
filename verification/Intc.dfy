/** The interrupt controller as the device that the sources and the processor
    call into. */
module Intc {

  import opened Arbiter
  import opened IntcState

  /** sel, shifted to its place in PRIORITY. */
  function SelBits(k: nat, sel: nat): Word
    requires k < 7 && sel < 4
  {
    (if sel % 2 == 1 then {7 + 2 * k} else {}) + (if sel / 2 == 1 then {8 + 2 * k} else {})
  }

  /** The bits of PRIORITY that belong to the first i arbiters. */
  function PriorityBelow(sel: seq<nat>, mode: seq<bool>, i: nat): Word
    requires |sel| == |mode| == 7 && i <= 7
  {
    set b | b in PriorityWord(sel, mode) && (if b < 7 then b < i else (b - 7) / 2 < i)
  }

  lemma PriorityGrows(sel: seq<nat>, mode: seq<bool>, i: nat)
    requires |sel| == |mode| == 7 && i < 7 && sel[i] < 4
    ensures PriorityBelow(sel, mode, i + 1)
            == PriorityBelow(sel, mode, i) + SelBits(i, sel[i]) + (if mode[i] then {i} else {})
  {
    var w := PriorityBelow(sel, mode, i) + SelBits(i, sel[i]) + (if mode[i] then {i} else {});
    forall b: nat
      ensures b in PriorityBelow(sel, mode, i + 1) <==> b in w
    {
      if 7 <= b < 21 && (b - 7) / 2 == i {
        assert b == 7 + 2 * i || b == 8 + 2 * i;
      }
    }
  }

  lemma SelModeShape(data: Word)
    ensures |SelOf(data)| == 7 && forall k :: 0 <= k < 7 ==> SelOf(data)[k] < 4
    ensures |ModeOf(data)| == 7
  {}

  class Controller {
    var srcpnd: Word
    var intmod: Word
    var intmsk: Word
    var priority: Word
    var intpnd: Word
    var intoffset: nat
    var subsrcpnd: Word
    var intsubmsk: Word
    const sel: array<nat>
    const mode: array<bool>
    var srcPending: Word
    var subsrcPending: Word
    var fiq: bool
    var irq: bool
    var idle: nat

    function View(): Ctl
      reads this, sel, mode
    {
      Ctl(srcpnd, intmod, intmsk, intpnd, intoffset, subsrcpnd, intsubmsk, sel[..], mode[..],
          srcPending, subsrcPending, fiq, irq, idle)
    }

    /** The controller after a reset. */
    constructor ()
      ensures fresh(sel) && fresh(mode)
      ensures View() == Reset()
    {
      srcpnd, intmod, intmsk, priority := {}, {}, ALL, {0, 1, 2, 3, 4, 5, 6};
      intpnd, intoffset, subsrcpnd, intsubmsk := {}, 0, {}, SUBS;
      sel := new nat[7](_ => 0);
      mode := new bool[7](_ => true);
      srcPending, subsrcPending := {}, {};
      fiq, irq, idle := false, false, 0;
    }

    /** One arbiter scans its inputs in the order of its sel. */
    method SelectInt(k: nat, service: Word) returns (request: Word, offset: int)
      requires Sane(View()) && k < 7
      modifies sel
      ensures offset == Choice(k, old(sel[k]), service)
      ensures request == if offset != -1 then {k} else {}
      ensures sel[..] == old(sel[..])[k := Rotated(old(sel[k]), mode[k], offset != -1)]
      ensures Sane(View())
    {
      hide ArbReq;
      var order, req := ArbOrder(sel[k]), ArbReq(k);
      var i := 0;
      while i < 6
        invariant 0 <= i <= 6
        invariant sel[..] == old(sel[..])
        invariant Pick(order, req, service) == Pick(order[i..], req, service)
      {
        var x := order[i];
        assert order[i..][1..] == order[i + 1..];
        if req[x] != -1 {
          if req[x] in service {
            if mode[k] {
              sel[k] := (sel[k] + 1) % 4;
            }
            return {k}, req[x];
          }
        }
        i := i + 1;
      }
      return {}, -1;
    }

    /** The first-level arbiters: each makes its choice and turns. */
    method SelectGroups(service: Word) returns (request: Word, offset: seq<int>)
      requires Sane(View())
      modifies sel
      ensures request == Groups(old(sel[..]), service)
      ensures |offset| == 6 && forall k :: 0 <= k < 6 ==> offset[k] == Choice(k, old(sel[k]), service)
      ensures forall k :: 0 <= k < 6 ==> sel[k] == Rotated(old(sel[k]), mode[k], offset[k] != -1)
      ensures sel[6] == old(sel[6])
    {
      hide Choice, Rotated, Turned;
      request, offset := {}, [];
      var i := 0;
      while i < 6
        invariant 0 <= i <= 6 && |offset| == i
        invariant forall k: nat :: k in request <==> k < i && Choice(k, old(sel[k]), service) != -1
        invariant forall k :: 0 <= k < i ==> offset[k] == Choice(k, old(sel[k]), service)
        invariant forall k :: 0 <= k < i ==> sel[k] == Rotated(old(sel[k]), mode[k], offset[k] != -1)
        invariant forall k :: i <= k < 7 ==> sel[k] == old(sel[k])
        invariant Sane(View())
      {
        var r, o := SelectInt(i, service);
        request := request + r;
        offset := offset + [o];
        i := i + 1;
      }
    }

    /** Both levels: the offset of the winning source, -1 if there is none. */
    method SelectSource(service: Word) returns (offset: int)
      requires Sane(View())
      modifies sel
      ensures offset == Winner(old(sel[..]), service)
      ensures sel[..] == Turned(old(sel[..]), mode[..], service)
    {
      hide Choice;
      var request, offsets := SelectGroups(service);
      var top, index := SelectInt(6, request);
      offset := if top != {} then offsets[index] else -1;
    }

    method GenInt()
      requires Sane(View())
      modifies this`fiq, this`irq, this`idle, this`intpnd, this`intoffset, sel
      ensures View() == Arbitrated(old(View()))
    {
      hide Turned, Scan, Winner;
      if srcpnd * intmod != {} {
        fiq := true;
        idle := 0;
        return;
      } else {
        fiq := false;
      }
      if intpnd != {} {
        irq := true;
        idle := 0;
        return;
      }
      var service := srcpnd - intmsk;
      if service == {} {
        irq := false;
        return;
      }
      ArbitrationIsFlat(sel[..], service);
      ScanFinds(sel[..], service);
      var offset := SelectSource(service);
      assert offset != -1;
      intoffset := offset;
      intpnd := intpnd + {intoffset};
      irq := true;
      idle := 0;
    }

    // ---------------------------------------------------------- the sources

    method AssertInt(source: nat, level: bool)
      requires Sane(View())
      modifies this, sel
      ensures View() == Stepped(old(View()), Assert(source, level))
    {
      hide Arbitrated;
      if source > 31 {
        return;
      }
      if source !in srcPending {
        if level {
          srcPending := srcPending + {source};
        }
        srcpnd := srcpnd + {source};
        GenInt();
      }
      if idle == 2 {
        if source == EINT0 || source == INT_RTC {
          idle := 0;
        }
      }
    }

    method DeassertInt(source: nat)
      requires Sane(View())
      modifies this`srcPending
      ensures View() == Stepped(old(View()), Deassert(source))
    {
      if source > 31 {
        return;
      }
      srcPending := srcPending - {source};
    }

    method Drive(source: nat, on: bool)
      requires Sane(View())
      modifies this, sel
      ensures View() == Driven(old(View()), source, on)
    {
      if on {
        AssertInt(source, true);
      } else {
        DeassertInt(source);
      }
    }

    method GenIntFromSubInt()
      requires Sane(View())
      modifies this, sel
      ensures View() == SubArbitrated(old(View()))
    {
      hide Driven;
      var service := subsrcpnd - intsubmsk;
      DrivenKeeps(View(), INT_UART0, service * UART0_SUBS != {});
      Drive(INT_UART0, service * UART0_SUBS != {});
      DrivenKeeps(View(), INT_UART1, service * UART1_SUBS != {});
      Drive(INT_UART1, service * UART1_SUBS != {});
      DrivenKeeps(View(), INT_UART2, service * UART2_SUBS != {});
      Drive(INT_UART2, service * UART2_SUBS != {});
      Drive(INT_ADC, service * ADC_SUBS != {});
      subsrcpnd := subsrcPending;
    }

    method SubAssertInt(source: nat, level: bool)
      requires Sane(View())
      modifies this, sel
      ensures View() == Stepped(old(View()), SubAssert(source, level))
    {
      hide SubArbitrated;
      if source > 31 {
        return;
      }
      if source !in subsrcPending {
        if level {
          subsrcPending := subsrcPending + {source};
        }
        subsrcpnd := subsrcpnd + {source};
        GenIntFromSubInt();
      }
    }

    method SubDeassertInt(source: nat)
      requires Sane(View())
      modifies this`subsrcPending
      ensures View() == Stepped(old(View()), SubDeassert(source))
    {
      if source > 31 {
        return;
      }
      subsrcPending := subsrcPending - {source};
    }

    // ---------------------------------------------------------- the registers

    /** PRIORITY is put together from the arbiters when it is read. */
    method GetPriority() returns (data: Word)
      requires Sane(View())
      modifies this`priority
      ensures data == priority == PriorityWord(sel[..], mode[..])
    {
      priority := {};
      var i := 0;
      ghost var s, m := sel[..], mode[..];
      while i < 7
        invariant 0 <= i <= 7
        invariant priority == PriorityBelow(s, m, i)
      {
        PriorityGrows(s, m, i);
        priority := priority + SelBits(i, sel[i]) + (if mode[i] then {i} else {});
        i := i + 1;
      }
      return priority;
    }

    /** sel and mode of every arbiter, taken out of the word written. */
    method LoadPriority(data: Word)
      requires Sane(View())
      modifies this`priority, sel, mode
      ensures sel[..] == SelOf(data) && mode[..] == ModeOf(data)
    {
      priority := set b | b in data && b < 21;
      ghost var low := priority;
      var i := 0;
      while i < 7
        invariant 0 <= i <= 7
        invariant forall k :: 0 <= k < i ==> sel[k] == SelOf(data)[k] && mode[k] == ModeOf(data)[k]
        invariant priority == low
      {
        sel[i] := (if 7 + 2 * i in priority then 1 else 0) + (if 8 + 2 * i in priority then 2 else 0);
        mode[i] := i in priority;
        i := i + 1;
      }
    }

    method PutPriority(data: Word)
      requires Sane(View())
      modifies this, sel, mode
      ensures View() == Stepped(old(View()), Write(PRIORITY, data))
    {
      hide Arbitrated, SelOf, ModeOf;
      SelModeShape(data);
      LoadPriority(data);
      GenInt();
    }

    method PutSrcpnd(data: Word)
      requires Sane(View())
      modifies this, sel
      ensures View() == Stepped(old(View()), Write(SRCPND, data))
    {
      hide Arbitrated;
      srcpnd := srcpnd - data;
      srcpnd := srcpnd + srcPending;
      if srcPending * data != {} {
        GenInt();
      }
    }

    method PutIntmod(data: Word)
      requires Sane(View())
      modifies this, sel
      ensures View() == Stepped(old(View()), Write(INTMOD, data))
    {
      hide Arbitrated;
      intmod := data - UNUSED;
      GenInt();
    }

    method PutIntmsk(data: Word)
      requires Sane(View())
      modifies this, sel
      ensures View() == Stepped(old(View()), Write(INTMSK, data))
    {
      hide Arbitrated;
      intmsk := data + UNUSED;
      GenInt();
    }

    method PutIntpnd(data: Word)
      requires Sane(View())
      modifies this, sel
      ensures View() == Stepped(old(View()), Write(INTPND, data))
    {
      hide Arbitrated;
      intpnd := intpnd - data;
      GenInt();
    }

    method PutSubsrcpnd(data: Word)
      requires Sane(View())
      modifies this, sel
      ensures View() == Stepped(old(View()), Write(SUBSRCPND, data))
    {
      hide SubArbitrated;
      subsrcpnd := subsrcpnd - data;
      subsrcpnd := subsrcpnd + subsrcPending;
      if subsrcPending * data != {} {
        GenIntFromSubInt();
      }
    }

    method PutIntsubmsk(data: Word)
      requires Sane(View())
      modifies this, sel
      ensures View() == Stepped(old(View()), Write(INTSUBMSK, data))
    {
      hide SubArbitrated;
      intsubmsk := data * SUBS;
      GenIntFromSubInt();
    }

    method Put(reg: Register, data: Word)
      requires Sane(View())
      modifies this, sel, mode
      ensures View() == Stepped(old(View()), Write(reg, data))
    {
      hide Arbitrated, SubArbitrated, SelOf, ModeOf;
      match reg {
        case SRCPND => PutSrcpnd(data);
        case INTMOD => PutIntmod(data);
        case INTMSK => PutIntmsk(data);
        case PRIORITY => PutPriority(data);
        case INTPND => PutIntpnd(data);
        case SUBSRCPND => PutSubsrcpnd(data);
        case INTSUBMSK => PutIntsubmsk(data);
      }
    }
  }
}
