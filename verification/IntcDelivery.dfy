/** From the registers to the CPU: which bits every step leaves in each register of the
    interrupt controller, what wakes the CPU, and how an interrupt is unmasked, delivered
    and serviced. Bits and source numbers are written out as the S3C2410 numbers them. */
module IntcDelivery {
  import opened Arbiter
  import opened IntcState

  // ------------------------------------------------------------ the registers after a write

  /** The three masks, bit by bit: bits 6 and 24 are never in FIQ mode and always
      masked, and there are eleven sub-sources. */
  lemma MasksAfter(c: Ctl, reg: Register, data: Word, b: nat)
    requires Sane(c) && b < 32
    ensures var d := Stepped(c, Write(reg, data));
            && (b in d.intmod <==> if reg == INTMOD then b in data && b != 6 && b != 24 else b in c.intmod)
            && (b in d.intmsk <==> if reg == INTMSK then b in data || b == 6 || b == 24 else b in c.intmsk)
            && (b in d.intsubmsk <==> if reg == INTSUBMSK then b in data && b <= 10 else b in c.intsubmsk)
  {
    hide Arbitrated, SubArbitrated, SelOf, ModeOf;
    match reg
    case SRCPND => ArbitratedKeeps(c.(srcpnd := c.srcpnd - data + c.srcPending));
    case INTMOD => ArbitratedKeeps(c.(intmod := data - UNUSED));
    case INTMSK => ArbitratedKeeps(c.(intmsk := data + UNUSED));
    case PRIORITY => ArbitratedKeeps(c.(sel := SelOf(data), mode := ModeOf(data)));
    case INTPND => ArbitratedKeeps(c.(intpnd := c.intpnd - data));
    case SUBSRCPND => SubArbitratedFacts(c.(subsrcpnd := c.subsrcpnd - data + c.subsrcPending));
    case INTSUBMSK => SubArbitratedFacts(c.(intsubmsk := data * SUBS));
  }

  /** The source that sub-source q belongs to. */
  predicate Drives(q: nat, b: nat)
  {
    (q <= 2 && b == 28) || (3 <= q <= 5 && b == 23) || (6 <= q <= 8 && b == 15) || (9 <= q <= 10 && b == 31)
  }

  /** One of these requests of sub-sources belongs to source b. */
  predicate SubAsks(requests: Word, b: nat)
  {
    exists q :: q in requests && Drives(q, b)
  }

  /** What looking at the sub-sources does to SRCPND, SUBSRCPND and the levels. */
  lemma SubArbitratedBits(c: Ctl, b: nat)
    requires Inv(c) && b < 32
    ensures var d := SubArbitrated(c);
            && (b in d.srcpnd <==> b in c.srcpnd || SubAsks(c.subsrcpnd - c.intsubmsk, b))
            && (b in d.srcPending <==>
                if b in {15, 23, 28, 31} then SubAsks(c.subsrcpnd - c.intsubmsk, b) else b in c.srcPending)
            && (b in d.subsrcpnd <==> b in c.subsrcPending) && d.subsrcPending == c.subsrcPending
  {
    hide SubArbitrated, Arbitrated;
    SubSourcesDrive(c);
    SubArbitratedFacts(c);
    GroupsOfSubs(c.subsrcpnd - c.intsubmsk, b);
    SubArbitratedPends(c, b);
  }

  lemma GroupsOfSubs(requests: Word, b: nat)
    ensures SubAsks(requests, b) <==>
            || (b == 28 && requests * UART0_SUBS != {}) || (b == 23 && requests * UART1_SUBS != {})
            || (b == 15 && requests * UART2_SUBS != {}) || (b == 31 && requests * ADC_SUBS != {})
  {
    forall q | q in requests
      ensures Drives(q, b) <==>
              || (b == 28 && q in requests * UART0_SUBS) || (b == 23 && q in requests * UART1_SUBS)
              || (b == 15 && q in requests * UART2_SUBS) || (b == 31 && q in requests * ADC_SUBS)
    {}
    if b == 28 && requests * UART0_SUBS != {} {
      var q :| q in requests * UART0_SUBS;
      assert Drives(q, b);
    } else if b == 23 && requests * UART1_SUBS != {} {
      var q :| q in requests * UART1_SUBS;
      assert Drives(q, b);
    } else if b == 15 && requests * UART2_SUBS != {} {
      var q :| q in requests * UART2_SUBS;
      assert Drives(q, b);
    } else if b == 31 && requests * ADC_SUBS != {} {
      var q :| q in requests * ADC_SUBS;
      assert Drives(q, b);
    }
  }

  lemma DrivenPends(c: Ctl, source: nat, on: bool)
    requires Sane(c) && source < 32 && c.srcPending <= c.srcpnd
    ensures var d := Driven(c, source, on);
            && d.srcpnd == (if on then c.srcpnd + {source} else c.srcpnd)
            && d.srcPending <= d.srcpnd && Sane(d)
  {
    hide Turned, Scan;
    if on && source in c.srcPending {
      assert c.srcpnd + {source} == c.srcpnd;
    }
  }

  lemma SubArbitratedPends(c: Ctl, b: nat)
    requires Sane(c) && c.srcPending <= c.srcpnd
    ensures b in SubArbitrated(c).srcpnd <==>
            || b in c.srcpnd
            || (b == 28 && SubRequests(c) * UART0_SUBS != {}) || (b == 23 && SubRequests(c) * UART1_SUBS != {})
            || (b == 15 && SubRequests(c) * UART2_SUBS != {}) || (b == 31 && SubRequests(c) * ADC_SUBS != {})
  {
    hide Driven, Sane;
    var service := SubRequests(c);
    DrivenPends(c, INT_UART0, service * UART0_SUBS != {});
    var c1 := Driven(c, INT_UART0, service * UART0_SUBS != {});
    DrivenPends(c1, INT_UART1, service * UART1_SUBS != {});
    var c2 := Driven(c1, INT_UART1, service * UART1_SUBS != {});
    DrivenPends(c2, INT_UART2, service * UART2_SUBS != {});
    var c3 := Driven(c2, INT_UART2, service * UART2_SUBS != {});
    DrivenPends(c3, INT_ADC, service * ADC_SUBS != {});
  }

  /** SRCPND, SUBSRCPND and the levels after a write, bit by bit. Writing ones to SRCPND
      clears all but the held sources; the sub-sources are looked at by a write of
      INTSUBMSK, and by one of SUBSRCPND that touches a held one. */
  lemma PendingAfter(c: Ctl, reg: Register, data: Word, b: nat)
    requires Inv(c) && b < 32
    ensures var d := Stepped(c, Write(reg, data));
            var touched := exists q :: q in data && q in c.subsrcPending;
            && (reg == SRCPND ==>
                  (b in d.srcpnd <==> b in c.srcPending || (b in c.srcpnd && b !in data)))
            && (reg == INTSUBMSK ==>
                  && (b in d.subsrcpnd <==> b in c.subsrcPending)
                  && (b in d.srcpnd <==>
                      b in c.srcpnd || exists q :: q in c.subsrcpnd && !(q in data && q <= 10) && Drives(q, b)))
            && (reg == SUBSRCPND && !touched ==>
                  && (b in d.subsrcpnd <==> b in c.subsrcPending || (b in c.subsrcpnd && b !in data))
                  && d.srcpnd == c.srcpnd)
            && (reg == SUBSRCPND && touched ==>
                  && (b in d.subsrcpnd <==> b in c.subsrcPending)
                  && (b in d.srcpnd <==>
                      || b in c.srcpnd
                      || exists q :: (q in c.subsrcPending || (q in c.subsrcpnd && q !in data))
                                     && q !in c.intsubmsk && Drives(q, b)))
            && (reg != SRCPND && reg != SUBSRCPND && reg != INTSUBMSK ==> d.srcpnd == c.srcpnd)
            && (reg != SUBSRCPND && reg != INTSUBMSK ==> d.subsrcpnd == c.subsrcpnd && d.srcPending == c.srcPending)
            && d.subsrcPending == c.subsrcPending
  {
    hide Arbitrated, SubArbitrated, SelOf, ModeOf, Drives;
    match reg
    case SRCPND => ArbitratedFacts(c.(srcpnd := c.srcpnd - data + c.srcPending));
    case INTMOD => ArbitratedFacts(c.(intmod := data - UNUSED));
    case INTMSK => ArbitratedFacts(c.(intmsk := data + UNUSED));
    case PRIORITY => ArbitratedFacts(c.(sel := SelOf(data), mode := ModeOf(data)));
    case INTPND => ArbitratedFacts(c.(intpnd := c.intpnd - data));
    case SUBSRCPND =>
      var e := c.(subsrcpnd := c.subsrcpnd - data + c.subsrcPending);
      TouchesHeld(c, data);
      assert Inv(e);
      SubArbitratedBits(e, b);
    case INTSUBMSK =>
      var e := c.(intsubmsk := data * SUBS);
      assert Inv(e);
      SubArbitratedBits(e, b);
      ElevenSubs(data);
  }

  lemma TouchesHeld(c: Ctl, data: Word)
    ensures c.subsrcPending * data != {} <==> exists q :: q in data && q in c.subsrcPending
  {
    if c.subsrcPending * data != {} {
      var q :| q in c.subsrcPending * data;
      assert q in data && q in c.subsrcPending;
    } else {
      forall q | q in data
        ensures q !in c.subsrcPending
      {
        assert q !in c.subsrcPending * data;
      }
    }
  }

  lemma ElevenSubs(data: Word)
    ensures forall q: nat :: q in data * SUBS <==> q in data && q <= 10
  {}

  /** The modes and the positions of the arbiters: seven mode bits, then two bits for
      each position, the lower one first. An arbitration turns positions only when it
      puts something new into INTPND. */
  lemma PriorityAfter(c: Ctl, reg: Register, data: Word, k: nat)
    requires Sane(c) && k < 7 && reg != SUBSRCPND && reg != INTSUBMSK
    ensures var d := Stepped(c, Write(reg, data));
            && Sane(d)
            && (d.mode[k] <==> if reg == PRIORITY then k in data else c.mode[k])
            && (d.intpnd == {} || (c.intpnd != {} && (reg == INTPND ==> !(c.intpnd <= data))) ==>
                  d.sel[k] == if reg == PRIORITY
                              then (if 7 + 2 * k in data then 1 else 0) + (if 8 + 2 * k in data then 2 else 0)
                              else c.sel[k])
  {
    hide Arbitrated, SubArbitrated;
    match reg
    case SRCPND => ArbitratedStands(c.(srcpnd := c.srcpnd - data + c.srcPending));
    case INTMOD => ArbitratedStands(c.(intmod := data - UNUSED));
    case INTMSK => ArbitratedStands(c.(intmsk := data + UNUSED));
    case PRIORITY => ArbitratedStands(c.(sel := SelOf(data), mode := ModeOf(data)));
    case INTPND =>
      assert c.intpnd - data == {} ==> c.intpnd <= data by {
        assert forall b :: b in c.intpnd && b !in data ==> b in c.intpnd - data;
      }
      ArbitratedStands(c.(intpnd := c.intpnd - data));
  }

  lemma ArbitratedStands(c: Ctl)
    requires Sane(c)
    ensures var d := Arbitrated(c);
            Sane(d) && d.mode == c.mode && (d.intpnd == {} || c.intpnd != {} ==> d.sel == c.sel)
  {
    hide Turned, Scan;
    if IrqRequests(c) != {} {
      assert First(c) in {First(c)};
    }
  }

  // ------------------------------------------------------------ the registers after an edge or a level

  /** An edge or a level of a source: its SRCPND bit is set, and a level is held. */
  lemma AssertedIs(c: Ctl, source: nat, level: bool)
    requires Inv(c)
    ensures var d := Stepped(c, Assert(source, level));
            && d.srcpnd == (if source <= 31 then c.srcpnd + {source} else c.srcpnd)
            && d.srcPending == (if source <= 31 && level then c.srcPending + {source} else c.srcPending)
            && d.intmod == c.intmod && d.intmsk == c.intmsk
    ensures var d := Stepped(c, Deassert(source));
            d == c.(srcPending := c.srcPending - {source})
  {
    hide Arbitrated;
    if source <= 31 && source !in c.srcPending {
      ArbitratedFacts(c.(srcPending := if level then c.srcPending + {source} else c.srcPending,
                         srcpnd := c.srcpnd + {source}));
    } else {
      assert source <= 31 ==> c.srcpnd + {source} == c.srcpnd && c.srcPending + {source} == c.srcPending;
      assert source > 31 ==> c.srcPending - {source} == c.srcPending;
    }
  }

  /** An edge or a level of a sub-source: it is held if it is a level, and together with
      what was pending it drives the shared sources. */
  lemma SubAssertedIs(c: Ctl, q: nat, level: bool, b: nat)
    requires Inv(c) && q <= 31 && q !in c.subsrcPending && b < 32
    ensures var d := Stepped(c, SubAssert(q, level));
            && d.subsrcPending == (if level then c.subsrcPending + {q} else c.subsrcPending)
            && d.subsrcpnd == d.subsrcPending
            && (b in d.srcpnd <==> b in c.srcpnd || SubAsks(c.subsrcpnd + {q} - c.intsubmsk, b))
    ensures Stepped(c, SubDeassert(q)) == c.(subsrcPending := c.subsrcPending - {q})
  {
    hide SubArbitrated, SubAsks, Arbitrated;
    var e := c.(subsrcPending := if level then c.subsrcPending + {q} else c.subsrcPending,
                subsrcpnd := c.subsrcpnd + {q});
    assert Inv(e);
    SubArbitratedBits(e, b);
    SubArbitratedFacts(e);
  }

  // ------------------------------------------------------------ the lines and INTPND

  /** What an arbitration over the registers of d makes of the lines and of INTPND, which
      showed these bits, from arbiters at these positions: FIQ if a pending source is in
      FIQ mode, and then nothing else changes; IRQ if INTPND shows something; and if it
      showed nothing, the winner among the unmasked pending sources if there is one. */
  predicate Output(d: Ctl, fiq: bool, irq: bool, shown: Word, sel: seq<nat>)
    requires |sel| == 7 && forall k :: 0 <= k < 7 ==> sel[k] < 4
  {
    && (d.fiq <==> fiq)
    && if fiq then d.irq == irq && d.intpnd == shown
       else if shown != {} then d.irq && d.intpnd == shown
       else if d.srcpnd - d.intmsk == {} then !d.irq && d.intpnd == {}
       else d.irq && d.intpnd == {d.intoffset} && d.intoffset == Winner(sel, d.srcpnd - d.intmsk)
  }

  /** A pending source is in FIQ mode. */
  predicate FiqAsked(d: Ctl)
  {
    exists b :: b in d.srcpnd && b in d.intmod
  }

  lemma ArbitratedOutput(c: Ctl)
    requires Sane(c)
    ensures var d := Arbitrated(c);
            Output(d, FiqAsked(d), c.irq, c.intpnd, c.sel) && d.srcpnd == c.srcpnd && d.intmod == c.intmod
  {
    hide Turned, Scan, Winner;
    FiqIsAsked(c);
    FiqIsAsked(Arbitrated(c));
    if IrqRequests(c) != {} {
      ArbitrationIsFlat(c.sel, IrqRequests(c));
    }
  }

  lemma FiqIsAsked(c: Ctl)
    ensures FiqAsked(c) <==> FiqRequests(c) != {}
  {
    if FiqAsked(c) {
      var b :| b in c.srcpnd && b in c.intmod;
      assert b in FiqRequests(c);
    }
    forall b | b in FiqRequests(c)
      ensures FiqAsked(c)
    {}
  }

  /** The lines and INTPND after a write of any register but those of the sub-sources. A
      write of SRCPND that touches no held source leaves them all as they were. */
  lemma LinesAfterWrite(c: Ctl, reg: Register, data: Word)
    requires Sane(c) && reg != SUBSRCPND && reg != INTSUBMSK
    ensures var d := Stepped(c, Write(reg, data));
            if reg == SRCPND && c.srcPending !! data
            then d == c.(srcpnd := c.srcpnd - data + c.srcPending)
            else Output(d, FiqAsked(d), c.irq, if reg == INTPND then c.intpnd - data else c.intpnd,
                        if reg == PRIORITY then SelOf(data) else c.sel)
  {
    hide Arbitrated, SelOf, ModeOf, Output;
    match reg
    case SRCPND =>
      ApartIs(c.srcPending, data);
      ArbitratedOutput(c.(srcpnd := c.srcpnd - data + c.srcPending));
    case INTMOD => ArbitratedOutput(c.(intmod := data - UNUSED));
    case INTMSK => ArbitratedOutput(c.(intmsk := data + UNUSED));
    case PRIORITY => PriorityOutput(c, data);
    case INTPND => ArbitratedOutput(c.(intpnd := c.intpnd - data));
  }

  lemma ApartIs(a: Word, b: Word)
    ensures a !! b <==> a * b == {}
  {
    if a * b == {} {
      forall x | x in a
        ensures x !in b
      {
        assert x !in a * b;
      }
    } else {
      var x :| x in a * b;
      assert x in a && x in b;
    }
  }

  lemma PriorityOutput(c: Ctl, data: Word)
    requires Sane(c)
    ensures var d := Stepped(c, Write(PRIORITY, data)); Output(d, FiqAsked(d), c.irq, c.intpnd, SelOf(data))
  {
    hide Arbitrated, Output;
    ArbitratedOutput(c.(sel := SelOf(data), mode := ModeOf(data)));
  }

  /** And after the edge or level of a source that is not held. */
  lemma LinesAfterAssert(c: Ctl, source: nat, level: bool)
    requires Sane(c) && source <= 31 && source !in c.srcPending
    ensures var d := Stepped(c, Assert(source, level)); Output(d, FiqAsked(d), c.irq, c.intpnd, c.sel)
  {
    hide Arbitrated;
    ArbitratedOutput(c.(srcPending := if level then c.srcPending + {source} else c.srcPending,
                        srcpnd := c.srcpnd + {source}));
  }

  // ------------------------------------------------------------ waking the CPU

  /** From c to d a line that comes up finds the CPU awake, and nothing puts it to sleep. */
  predicate Wakes(c: Ctl, d: Ctl)
  {
    && (d.idle == 0 || d.idle == c.idle)
    && ((d.fiq && !c.fiq) || (d.irq && !c.irq) || (c.intpnd == {} && d.intpnd != {}) ==> d.idle == 0)
  }

  lemma ArbitratedWakes(c: Ctl)
    requires Sane(c)
    ensures var d := Arbitrated(c); d.idle == if d.fiq || d.irq then 0 else c.idle
    ensures Wakes(c, Arbitrated(c))
  {
    hide Turned, Scan;
  }

  lemma AssertedWakes(c: Ctl, source: nat, level: bool)
    requires Sane(c)
    ensures Wakes(c, Asserted(c, source, level)) && Sane(Asserted(c, source, level))
    ensures c.intpnd != {} ==> Asserted(c, source, level).intpnd != {}
  {
    hide Arbitrated;
    if source <= 31 && source !in c.srcPending {
      var e := c.(srcPending := if level then c.srcPending + {source} else c.srcPending,
                  srcpnd := c.srcpnd + {source});
      ArbitratedWakes(e);
      ArbitratedFacts(e);
    }
  }

  lemma DrivenWakes(b: Ctl, c: Ctl, source: nat, on: bool)
    requires Sane(c) && Wakes(b, c) && (b.intpnd != {} ==> c.intpnd != {}) && source <= 31
    ensures var d := Driven(c, source, on);
            Wakes(b, d) && Sane(d) && (b.intpnd != {} ==> d.intpnd != {})
  {
    hide Asserted;
    AssertedWakes(c, source, true);
  }

  lemma SubArbitratedWakes(c: Ctl)
    requires Sane(c)
    ensures Wakes(c, SubArbitrated(c))
  {
    hide Driven, Wakes, Sane;
    var service := SubRequests(c);
    WakesSelf(c);
    DrivenWakes(c, c, INT_UART0, service * UART0_SUBS != {});
    var c1 := Driven(c, INT_UART0, service * UART0_SUBS != {});
    DrivenWakes(c, c1, INT_UART1, service * UART1_SUBS != {});
    var c2 := Driven(c1, INT_UART1, service * UART1_SUBS != {});
    DrivenWakes(c, c2, INT_UART2, service * UART2_SUBS != {});
    var c3 := Driven(c2, INT_UART2, service * UART2_SUBS != {});
    DrivenWakes(c, c3, INT_ADC, service * ADC_SUBS != {});
    WakesAlike(c, Driven(c3, INT_ADC, service * ADC_SUBS != {}), SubArbitrated(c));
  }

  lemma WakesSelf(c: Ctl)
    ensures Wakes(c, c)
  {}

  lemma WakesAlike(c: Ctl, d: Ctl, e: Ctl)
    requires Wakes(c, d) && e == d.(subsrcpnd := e.subsrcpnd)
    ensures Wakes(c, e)
  {}

  /** Whatever brings up FIQ or IRQ or fills INTPND wakes the CPU, and no step of the
      controller puts it to sleep; from the deepest idle state EINT0 and the real time
      clock wake it even when they are masked. */
  lemma StepWakes(c: Ctl, s: Step)
    requires Inv(c)
    ensures var d := Stepped(c, s);
            && (d.idle == 0 || d.idle == c.idle)
            && ((d.fiq && !c.fiq) || (d.irq && !c.irq) || (c.intpnd == {} && d.intpnd != {}) ==> d.idle == 0)
    ensures s.Assert? && c.idle == 2 && (s.source == 0 || s.source == 30) ==> Stepped(c, s).idle == 0
  {
    hide Arbitrated, SubArbitrated, SelOf, ModeOf;
    match s
    case Assert(source, level) =>
      AssertedWakes(c, source, level);
      if c.idle == 2 && (source == 0 || source == 30) {
        AssertedAwake(c, source, level);
      }
    case Deassert(_) =>
    case SubDeassert(_) =>
    case SubAssert(q, level) =>
      if q <= 31 && q !in c.subsrcPending {
        SubArbitratedWakes(c.(subsrcPending := if level then c.subsrcPending + {q} else c.subsrcPending,
                              subsrcpnd := c.subsrcpnd + {q}));
      }
    case Write(reg, data) => WriteWakes(c, reg, data);
  }

  lemma WriteWakes(c: Ctl, reg: Register, data: Word)
    requires Inv(c)
    ensures Wakes(c, Stepped(c, Write(reg, data)))
  {
    hide Arbitrated, SubArbitrated, SelOf, ModeOf;
    match reg
    case SRCPND => ArbitratedWakes(c.(srcpnd := c.srcpnd - data + c.srcPending));
    case INTMOD => ArbitratedWakes(c.(intmod := data - UNUSED));
    case INTMSK => ArbitratedWakes(c.(intmsk := data + UNUSED));
    case PRIORITY => ArbitratedWakes(c.(sel := SelOf(data), mode := ModeOf(data)));
    case INTPND => ArbitratedWakes(c.(intpnd := c.intpnd - data));
    case SUBSRCPND => SubArbitratedWakes(c.(subsrcpnd := c.subsrcpnd - data + c.subsrcPending));
    case INTSUBMSK => SubArbitratedWakes(c.(intsubmsk := data * SUBS));
  }

  lemma AssertedAwake(c: Ctl, source: nat, level: bool)
    requires Sane(c) && (source == 0 || source == 30) && c.idle == 2
    ensures Asserted(c, source, level).idle == 0
  {
    hide Arbitrated;
    if source !in c.srcPending {
      ArbitratedWakes(c.(srcPending := if level then c.srcPending + {source} else c.srcPending,
                         srcpnd := c.srcpnd + {source}));
    }
  }

  // ------------------------------------------------------------ delivery

  /** INTPND shows source b alone, and the CPU is awake with IRQ asserted. */
  predicate Delivered(c: Ctl, b: nat)
  {
    c.intpnd == {b} && c.intoffset == b && c.irq && !c.fiq && c.idle == 0
  }

  /** Unmasking any pending source, while no FIQ is requested and INTPND is empty,
      delivers a pending source that is now unmasked. */
  lemma UnmaskedDelivers(c: Ctl, data: Word, b: nat)
    requires Inv(c) && c.srcpnd !! c.intmod && c.intpnd == {}
    requires b in c.srcpnd && b !in data && b != 6 && b != 24
    ensures var d := Stepped(c, Write(INTMSK, data));
            && Delivered(d, d.intoffset)
            && d.intoffset in c.srcpnd && d.intoffset !in data && d.intoffset != 6 && d.intoffset != 24
  {
    hide Turned, Scan;
    var e := c.(intmsk := data + UNUSED);
    assert b in IrqRequests(e);
    assert FiqRequests(e) == {};
  }

  /** A source that is the only one pending and unmasked is the one delivered. */
  lemma OnlyRequest(c: Ctl, b: nat)
    requires Sane(c) && FiqRequests(c) == {} && c.intpnd == {} && IrqRequests(c) == {b}
    ensures Delivered(Arbitrated(c), b)
  {
    hide Turned, Scan;
    assert First(c) in IrqRequests(c);
  }

  /** With nothing to ask for, the arbitration only takes the lines down. */
  lemma NoRequest(c: Ctl)
    requires Sane(c) && FiqRequests(c) == {} && c.intpnd == {} && IrqRequests(c) == {}
    ensures Arbitrated(c) == c.(fiq := false, irq := false)
  {}

  /** The registers after reset: nothing is pending or held, all 32 sources and all eleven
      sub-sources are masked, none is in FIQ mode, and PRIORITY reads 0x7f, all arbiters
      rotating from their first positions. */
  lemma ResetRegisters()
    ensures var c := Reset();
            && c.srcpnd == c.subsrcpnd == c.intpnd == c.intmod == c.srcPending == c.subsrcPending == {}
            && (forall b: nat :: b in c.intmsk <==> b <= 31) && (forall q: nat :: q in c.intsubmsk <==> q <= 10)
            && (forall b: nat :: b in PriorityWord(c.sel, c.mode) <==> b <= 6)
            && !c.fiq && !c.irq && c.intoffset == 0
  {
    forall b: nat
      ensures b in Reset().intmsk <==> b <= 31
      ensures b in PriorityWord(Reset().sel, Reset().mode) <==> b <= 6
    {
      assert b < 21 ==> (PriorityBit(Reset().sel, Reset().mode, b) <==> b <= 6);
    }
  }

  /** After reset everything is masked: no source reaches INTPND or a line. */
  lemma ResetMasksAll(b: nat, level: bool)
    requires b < 32
    ensures var d := Stepped(Reset(), Assert(b, level));
            b in d.srcpnd && d.intpnd == {} && !d.irq && !d.fiq
  {
    hide Arbitrated;
    var e := Reset().(srcPending := if level then {} + {b} else {}, srcpnd := {} + {b});
    assert b in ALL;
    assert FiqRequests(e) == {} && IrqRequests(e) == {};
    NoRequest(e);
  }

  /** The controller after a reset and a write of INTMSK that unmasks b alone. */
  lemma UnmaskedReset(b: nat)
    requires b < 32 && b != 6 && b != 24
    ensures var c := Stepped(Reset(), Write(INTMSK, ALL - {b}));
            c == Reset().(intmsk := ALL - {b})
  {
    hide Arbitrated;
    var e := Reset().(intmsk := ALL - {b} + UNUSED);
    assert UNUSED <= ALL - {b};
    assert ALL - {b} + UNUSED == ALL - {b};
    assert FiqRequests(e) == {} && IrqRequests(e) == {};
    NoRequest(e);
  }

  /** Unmasking a source after reset and asserting it delivers it. */
  lemma FromReset(b: nat, level: bool)
    requires b < 32 && b != 6 && b != 24
    ensures var c := Stepped(Reset(), Write(INTMSK, ALL - {b}));
            Sane(c) && Delivered(Stepped(c, Assert(b, level)), b)
  {
    hide Arbitrated, Delivered;
    UnmaskedReset(b);
    var c := Reset().(intmsk := ALL - {b});
    assert UNUSED <= ALL - {b};
    var e := c.(srcPending := if level then {} + {b} else {}, srcpnd := {} + {b});
    assert b in ALL;
    assert {b} - (ALL - {b}) == {b};
    assert FiqRequests(e) == {} && IrqRequests(e) == {b};
    OnlyRequest(e, b);
    DeliveredAwake(c, b, level);
  }

  lemma DeliveredAwake(c: Ctl, b: nat, level: bool)
    requires Sane(c) && b <= 31 && b !in c.srcPending
    requires var e := c.(srcPending := if level then c.srcPending + {b} else c.srcPending, srcpnd := c.srcpnd + {b});
             Delivered(Arbitrated(e), b)
    ensures Delivered(Stepped(c, Assert(b, level)), b)
  {
    hide Arbitrated;
  }

  /** A source in FIQ mode raises FIQ, masked or not, and never reaches INTPND. */
  lemma FiqFromReset(b: nat, level: bool)
    requires b < 32 && b != 6 && b != 24
    ensures var c := Stepped(Reset(), Write(INTMOD, {b}));
            Sane(c) && var d := Stepped(c, Assert(b, level)); d.fiq && !d.irq && d.intpnd == {} && d.idle == 0
  {
    hide Turned, Scan;
    var e := Reset().(intmod := {b} - UNUSED);
    assert {b} - UNUSED == {b};
    assert FiqRequests(e) == {} && IrqRequests(e) == {};
    NoRequest(e);
    var c := Stepped(Reset(), Write(INTMOD, {b}));
    var x := c.(srcPending := if level then c.srcPending + {b} else c.srcPending, srcpnd := c.srcpnd + {b});
    assert b in FiqRequests(x);
  }

  /** The end of a service routine for an edge: its bits are cleared in SRCPND and then
      in INTPND, and the IRQ line goes down; a level that is still held comes back. */
  lemma Serviced(c: Ctl, b: nat)
    requires Inv(c) && Delivered(c, b) && c.srcpnd - c.intmsk == {b} && c.srcpnd !! c.intmod
    ensures var d := Stepped(c, Write(SRCPND, {b}));
            && Inv(d)
            && var e := Stepped(d, Write(INTPND, {b}));
               if b in c.srcPending then Delivered(e, b) && b in e.srcpnd
               else e.intpnd == {} && !e.irq && !e.fiq && b !in e.srcpnd
  {
    hide Arbitrated, Delivered, Inv;
    InvIsSane(c);
    StepKeeps(c, Write(SRCPND, {b}));
    SrcpndCleared(c, b);
    var d := Stepped(c, Write(SRCPND, {b}));
    var x := d.(intpnd := d.intpnd - {b});
    assert FiqRequests(x) == {};
    if b in c.srcPending {
      assert IrqRequests(x) == {b};
      OnlyRequest(x, b);
      ArbitratedFacts(x);
    } else {
      assert IrqRequests(x) == {};
      NoRequest(x);
    }
  }

  lemma InvIsSane(c: Ctl)
    requires Inv(c)
    ensures Sane(c)
  {}

  lemma SrcpndCleared(c: Ctl, b: nat)
    requires Inv(c) && Delivered(c, b) && c.srcpnd - c.intmsk == {b} && c.srcpnd !! c.intmod
    ensures var d := Stepped(c, Write(SRCPND, {b}));
            && Sane(d) && d.intpnd == {b} && d.intmsk == c.intmsk && d.srcpnd !! d.intmod && d.srcpnd <= c.srcpnd
            && (if b in c.srcPending then d.srcpnd - d.intmsk == {b} else d.srcpnd - d.intmsk == {} && b !in d.srcpnd)
  {
    hide Arbitrated;
    var x := c.(srcpnd := c.srcpnd - {b} + c.srcPending);
    ArbitratedFacts(x);
    assert b in c.srcpnd;
    if b in c.srcPending {
      assert b in x.srcpnd - c.intmsk;
    }
  }

  /** From reset with one sub-source and its source unmasked: asserting the sub-source
      delivers the source. */
  lemma SubFromReset(q: nat, b: nat, level: bool)
    requires Drives(q, b)
    ensures var c := Stepped(Reset(), Write(INTMSK, ALL - {b}));
            && Sane(c)
            && var d := Stepped(c, Write(INTSUBMSK, SUBS - {q}));
               && Sane(d)
               && var e := Stepped(d, SubAssert(q, level));
                  Delivered(e, b) && e.srcpnd == {b} && e.srcPending == {b}
  {
    hide Arbitrated, Delivered, SubArbitrated;
    UnmaskedReset(b);
    assert UNUSED <= ALL - {b};
    var c := Reset().(intmsk := ALL - {b});
    SubIdle(c.(intsubmsk := (SUBS - {q}) * SUBS));
    assert (SUBS - {q}) * SUBS == SUBS - {q};
    var d := c.(intsubmsk := SUBS - {q});
    var e := d.(subsrcPending := if level then {} + {q} else {}, subsrcpnd := {} + {q});
    OneSub(e, q, b);
  }

  /** Without any request of a sub-source nothing happens. */
  lemma SubIdle(c: Ctl)
    requires Sane(c) && c.srcPending == c.subsrcpnd == c.subsrcPending == {}
    ensures SubArbitrated(c) == c
  {
    assert SubRequests(c) == {};
  }

  lemma OneSub(e: Ctl, q: nat, b: nat)
    requires Sane(e) && Drives(q, b) && e.subsrcpnd == {q} && q !in e.intsubmsk
    requires e.srcPending == e.srcpnd == e.intpnd == e.intmod == {} && e.intmsk == ALL - {b} && e.idle == 0
    ensures var d := SubArbitrated(e);
            Delivered(d, b) && d.srcpnd == {b} && d.srcPending == {b}
  {
    hide Arbitrated;
    assert SubRequests(e) == {q};
    var x := e.(srcPending := {} + {b}, srcpnd := {} + {b});
    assert b in ALL;
    assert {b} - (ALL - {b}) == {b};
    assert IrqRequests(x) == {b} && FiqRequests(x) == {};
    OnlyRequest(x, b);
    ArbitratedFacts(x);
    OnlyOne(q, b);
    var y := Arbitrated(x);
    assert y.srcPending == {b};
    forall s: nat | s != b
      ensures {b} - {s} == {b}
    {}
    Idle(e);
    assert Asserted(e, b, true) == y;
  }

  lemma Idle(e: Ctl)
    requires e.srcPending == {}
    ensures forall s: nat :: s <= 31 ==> Deasserted(e, s) == e
  {
    forall s: nat | s <= 31
      ensures Deasserted(e, s) == e
    {
      assert e.srcPending - {s} == e.srcPending;
    }
  }

  lemma OnlyOne(q: nat, b: nat)
    requires Drives(q, b)
    ensures ({q} * UART0_SUBS != {} <==> b == 28) && ({q} * UART1_SUBS != {} <==> b == 23)
    ensures ({q} * UART2_SUBS != {} <==> b == 15) && ({q} * ADC_SUBS != {} <==> b == 31)
  {
    assert q in UART0_SUBS ==> q in {q} * UART0_SUBS;
    assert q in UART1_SUBS ==> q in {q} * UART1_SUBS;
    assert q in UART2_SUBS ==> q in {q} * UART2_SUBS;
    assert q in ADC_SUBS ==> q in {q} * ADC_SUBS;
  }
}
