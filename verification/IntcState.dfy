/** The S3C2410 interrupt controller as a state machine over its steps: level and
    edge sources, sub-sources, register writes, and the CPU's FIQ and IRQ lines. */
module IntcState {

  import opened Arbiter

  const INT_ADC: nat := 31
  const INT_RTC: nat := 30
  const INT_UART0: nat := 28
  const INT_UART1: nat := 23
  const INT_UART2: nat := 15
  const EINT0: nat := 0

  const ALL: Word := {0, 1, 2, 3, 4, 5, 6, 7, 8, 9, 10, 11, 12, 13, 14, 15,
                      16, 17, 18, 19, 20, 21, 22, 23, 24, 25, 26, 27, 28, 29, 30, 31}

  /** The sub-sources, and which of them share a source. */
  const SUBS: Word := {0, 1, 2, 3, 4, 5, 6, 7, 8, 9, 10}
  const UART0_SUBS: Word := {0, 1, 2}
  const UART1_SUBS: Word := {3, 4, 5}
  const UART2_SUBS: Word := {6, 7, 8}
  const ADC_SUBS: Word := {9, 10}

  /** The registers, the arbiters' sel and mode, the levels held by the sources,
      the two CPU lines, and the CPU's idle state (0 is running). */
  datatype Ctl = Ctl(srcpnd: Word, intmod: Word, intmsk: Word, intpnd: Word, intoffset: nat,
                     subsrcpnd: Word, intsubmsk: Word, sel: seq<nat>, mode: seq<bool>,
                     srcPending: Word, subsrcPending: Word, fiq: bool, irq: bool, idle: nat)

  datatype Register = SRCPND | INTMOD | INTMSK | PRIORITY | INTPND | SUBSRCPND | INTSUBMSK

  datatype Step =
    | Assert(source: nat, level: bool)
    | Deassert(source: nat)
    | SubAssert(source: nat, level: bool)
    | SubDeassert(source: nat)
    | Write(reg: Register, data: Word)

  /** The arbiters are in range and the two unused bits are masked. */
  predicate Sane(c: Ctl)
  {
    && |c.sel| == 7 && (forall k :: 0 <= k < 7 ==> c.sel[k] < 4)
    && |c.mode| == 7
    && UNUSED <= c.intmsk
  }

  // ------------------------------------------------------------ what each operation does

  function FiqRequests(c: Ctl): Word
  {
    c.srcpnd * c.intmod
  }

  function IrqRequests(c: Ctl): Word
  {
    c.srcpnd - c.intmsk
  }

  /** Every arbiter that picks something turns by one, if its mode bit is set. */
  function Turned(sel: seq<nat>, mode: seq<bool>, service: Word): (r: seq<nat>)
    requires |sel| == |mode| == 7 && forall k :: 0 <= k < 7 ==> sel[k] < 4
    ensures |r| == 7 && forall k :: 0 <= k < 7 ==> r[k] < 4
  {
    seq(7, k requires 0 <= k < 7 =>
      Rotated(sel[k], mode[k], Choice(k, sel[k], if k < 6 then service else Groups(sel, service)) != -1))
  }

  /** The first unmasked request in the composed order. */
  function First(c: Ctl): (w: nat)
    requires Sane(c) && IrqRequests(c) != {}
    ensures w in IrqRequests(c)
  {
    ScanFinds(c.sel, IrqRequests(c));
    Scan(c.sel, IrqRequests(c))
  }

  /** s3c2410_intc_gen_int. */
  function Arbitrated(c: Ctl): Ctl
    requires Sane(c)
  {
    if FiqRequests(c) != {} then c.(fiq := true, idle := 0)
    else if c.intpnd != {} then c.(fiq := false, irq := true, idle := 0)
    else if IrqRequests(c) == {} then c.(fiq := false, irq := false)
    else c.(fiq := false, irq := true, idle := 0, intoffset := First(c), intpnd := {First(c)},
            sel := Turned(c.sel, c.mode, IrqRequests(c)))
  }

  function Asserted(c: Ctl, source: nat, level: bool): Ctl
    requires Sane(c)
  {
    if source > 31 then c
    else
      var d := if source in c.srcPending then c
               else Arbitrated(c.(srcPending := if level then c.srcPending + {source} else c.srcPending,
                                  srcpnd := c.srcpnd + {source}));
      if d.idle == 2 && (source == EINT0 || source == INT_RTC) then d.(idle := 0) else d
  }

  function Deasserted(c: Ctl, source: nat): Ctl
  {
    if source > 31 then c else c.(srcPending := c.srcPending - {source})
  }

  /** A source driven by its sub-sources. */
  function Driven(c: Ctl, source: nat, on: bool): Ctl
    requires Sane(c)
  {
    if on then Asserted(c, source, true) else Deasserted(c, source)
  }

  function SubRequests(c: Ctl): Word
  {
    c.subsrcpnd - c.intsubmsk
  }

  /** s3c2410_intc_gen_int_from_sub_int. */
  function SubArbitrated(c: Ctl): Ctl
    requires Sane(c)
  {
    var service := SubRequests(c);
    var c1 := Driven(c, INT_UART0, service * UART0_SUBS != {});
    DrivenKeeps(c, INT_UART0, service * UART0_SUBS != {});
    var c2 := Driven(c1, INT_UART1, service * UART1_SUBS != {});
    DrivenKeeps(c1, INT_UART1, service * UART1_SUBS != {});
    var c3 := Driven(c2, INT_UART2, service * UART2_SUBS != {});
    DrivenKeeps(c2, INT_UART2, service * UART2_SUBS != {});
    var c4 := Driven(c3, INT_ADC, service * ADC_SUBS != {});
    c4.(subsrcpnd := c4.subsrcPending)
  }

  /** What the arbitration leaves alone. */
  predicate SameSources(c: Ctl, d: Ctl)
  {
    && d.intmod == c.intmod && d.intmsk == c.intmsk && d.mode == c.mode
    && d.subsrcpnd == c.subsrcpnd && d.intsubmsk == c.intsubmsk && d.subsrcPending == c.subsrcPending
  }

  lemma ArbitratedKeeps(c: Ctl)
    requires Sane(c)
    ensures Sane(Arbitrated(c)) && SameSources(c, Arbitrated(c))
  {
    hide Turned, Scan;
  }

  lemma DrivenKeeps(c: Ctl, source: nat, on: bool)
    requires Sane(c)
    ensures Sane(Driven(c, source, on)) && SameSources(c, Driven(c, source, on))
  {
    hide Arbitrated;
    if source <= 31 {
      ArbitratedKeeps(c.(srcPending := c.srcPending + {source}, srcpnd := c.srcpnd + {source}));
    }
  }

  /** The bits of the PRIORITY register: seven mode bits, then two bits of sel each. */
  function PriorityWord(sel: seq<nat>, mode: seq<bool>): Word
    requires |sel| == |mode| == 7
  {
    set b: nat | b < 21 && PriorityBit(sel, mode, b)
  }

  predicate PriorityBit(sel: seq<nat>, mode: seq<bool>, b: nat)
    requires |sel| == |mode| == 7 && b < 21
  {
    if b < 7 then mode[b]
    else if b % 2 == 1 then sel[(b - 7) / 2] % 2 == 1
    else sel[(b - 7) / 2] / 2 == 1
  }

  function SelOf(data: Word): (sel: seq<nat>)
    ensures |sel| == 7 && forall k :: 0 <= k < 7 ==> sel[k] < 4
  {
    seq(7, k requires 0 <= k < 7 => (if 7 + 2 * k in data then 1 else 0) + (if 8 + 2 * k in data then 2 else 0))
  }

  function ModeOf(data: Word): (mode: seq<bool>)
    ensures |mode| == 7
  {
    seq(7, k requires 0 <= k < 7 => k in data)
  }

  /** Reading PRIORITY gives back the 21 bits written, and writing what was read
      restores every arbiter. */
  lemma PriorityRoundTrip(data: Word, sel: seq<nat>, mode: seq<bool>)
    requires |sel| == |mode| == 7 && forall k :: 0 <= k < 7 ==> sel[k] < 4
    ensures PriorityWord(SelOf(data), ModeOf(data)) == set b | b in data && b < 21
    ensures SelOf(PriorityWord(sel, mode)) == sel && ModeOf(PriorityWord(sel, mode)) == mode
  {
    forall b: nat | b < 21
      ensures PriorityBit(SelOf(data), ModeOf(data), b) <==> b in data
    {}
    var w := PriorityWord(sel, mode);
    forall k: nat | k < 7
      ensures SelOf(w)[k] == sel[k] && ModeOf(w)[k] == mode[k]
    {
      assert 7 + 2 * k in w <==> sel[k] % 2 == 1;
      assert 8 + 2 * k in w <==> sel[k] / 2 == 1;
    }
  }

  function Stepped(c: Ctl, s: Step): Ctl
    requires Sane(c)
  {
    match s
    case Assert(source, level) => Asserted(c, source, level)
    case Deassert(source) => Deasserted(c, source)
    case SubAssert(source, level) =>
      if source > 31 || source in c.subsrcPending then c
      else SubArbitrated(c.(subsrcPending := if level then c.subsrcPending + {source} else c.subsrcPending,
                            subsrcpnd := c.subsrcpnd + {source}))
    case SubDeassert(source) => if source > 31 then c else c.(subsrcPending := c.subsrcPending - {source})
    case Write(SRCPND, data) =>
      var d := c.(srcpnd := c.srcpnd - data + c.srcPending);
      if c.srcPending * data != {} then Arbitrated(d) else d
    case Write(INTMOD, data) => Arbitrated(c.(intmod := data - UNUSED))
    case Write(INTMSK, data) => Arbitrated(c.(intmsk := data + UNUSED))
    case Write(PRIORITY, data) => Arbitrated(c.(sel := SelOf(data), mode := ModeOf(data)))
    case Write(INTPND, data) => Arbitrated(c.(intpnd := c.intpnd - data))
    case Write(SUBSRCPND, data) =>
      var d := c.(subsrcpnd := c.subsrcpnd - data + c.subsrcPending);
      if c.subsrcPending * data != {} then SubArbitrated(d) else d
    case Write(INTSUBMSK, data) => SubArbitrated(c.(intsubmsk := data * SUBS))
  }

  // ------------------------------------------------------------ what holds in every reachable state

  predicate Inv(c: Ctl)
  {
    && Sane(c)
    && c.intmod !! UNUSED
    && c.srcPending <= c.srcpnd
    && c.subsrcPending <= c.subsrcpnd
    && (c.intpnd != {} ==> c.intpnd == {c.intoffset} && c.irq)
    && c.intpnd !! UNUSED
    && (FiqRequests(c) != {} ==> c.fiq)
  }

  /** The lines of the CPU agree with the registers. */
  predicate Settled(c: Ctl)
  {
    && (c.fiq <==> FiqRequests(c) != {})
    && (!c.fiq ==> (c.irq <==> c.intpnd != {}))
    && (!c.fiq && c.intpnd == {} ==> IrqRequests(c) == {})
  }

  /** INTPND shows an unmasked pending source that is not in FIQ mode. */
  predicate Picked(c: Ctl)
  {
    c.intpnd == {c.intoffset} && c.intoffset in c.srcpnd - c.intmsk - c.intmod
  }

  /** From c to d sources at most come in, and nothing that is in INTPND gives way. */
  predicate Grown(c: Ctl, d: Ctl)
  {
    && Sane(d) && SameSources(c, d)
    && c.srcpnd <= d.srcpnd
    && (c.intpnd != {} ==> d.intpnd == c.intpnd && d.intoffset == c.intoffset)
    && (c.intpnd == {} && d.intpnd != {} ==> Picked(d))
  }

  lemma ArbitratedFacts(c: Ctl)
    requires Sane(c)
    ensures var d := Arbitrated(c);
            && Grown(c, d) && Settled(d)
            && d.srcpnd == c.srcpnd && d.srcPending == c.srcPending
            && (d.intpnd != {} && (c.intpnd != {} ==> c.irq) ==> d.irq)
  {
    hide Turned, Scan;
    var d := Arbitrated(c);
    assert FiqRequests(d) == FiqRequests(c) && IrqRequests(d) == IrqRequests(c);
    if FiqRequests(c) == {} && c.intpnd == {} && IrqRequests(c) != {} {
      assert d.intoffset in d.intpnd;
    }
  }

  lemma AssertedFacts(c: Ctl, source: nat, level: bool)
    requires Sane(c)
    ensures var d := Asserted(c, source, level);
            && Grown(c, d)
            && (Inv(c) ==> Inv(d))
            && (Settled(c) ==> Settled(d))
  {
    hide Arbitrated, Turned;
    if source <= 31 && source !in c.srcPending {
      ArbitratedFacts(c.(srcPending := if level then c.srcPending + {source} else c.srcPending,
                         srcpnd := c.srcpnd + {source}));
    }
  }

  lemma DeassertedFacts(c: Ctl, source: nat)
    requires Sane(c)
    ensures var d := Deasserted(c, source);
            && Grown(c, d)
            && (Inv(c) ==> Inv(d))
            && (Settled(c) ==> Settled(d))
  {
  }

  lemma DrivenFacts(c: Ctl, source: nat, on: bool)
    requires Sane(c)
    ensures var d := Driven(c, source, on);
            && Grown(c, d)
            && (Inv(c) ==> Inv(d))
            && (Settled(c) ==> Settled(d))
  {
    hide Asserted, Deasserted, Grown, Inv, Settled;
    if on {
      AssertedFacts(c, source, true);
    } else {
      DeassertedFacts(c, source);
    }
  }

  lemma GrownTrans(b: Ctl, c: Ctl, d: Ctl)
    requires Grown(b, c) && Grown(c, d)
    ensures Grown(b, d)
  {}

  /** Once more a source driven, after others have been. */
  lemma DrivenAfter(b: Ctl, c: Ctl, source: nat, on: bool)
    requires Sane(c) && Grown(b, c) && SameSources(b, c) && (Inv(b) ==> Inv(c)) && (Settled(b) ==> Settled(c))
    ensures var d := Driven(c, source, on);
            && Sane(d) && Grown(b, d) && SameSources(b, d) && (Inv(b) ==> Inv(d)) && (Settled(b) ==> Settled(d))
  {
    hide Driven, Grown, Inv, Settled;
    DrivenFacts(c, source, on);
    DrivenKeeps(c, source, on);
    GrownTrans(b, c, Driven(c, source, on));
  }

  lemma GrownSelf(c: Ctl)
    requires Sane(c)
    ensures Grown(c, c) && SameSources(c, c)
  {}

  /** Driving four sources from the sub-sources. */
  lemma SubArbitratedFacts(c: Ctl)
    requires Sane(c)
    ensures var d := SubArbitrated(c);
            && Grown(c, d.(subsrcpnd := c.subsrcpnd))
            && Sane(d) && d.subsrcpnd == d.subsrcPending == c.subsrcPending
            && (Inv(c) ==> Inv(d))
            && (Settled(c) ==> Settled(d))
  {
    hide Driven, Grown, Inv, Settled, Sane;
    var service := SubRequests(c);
    GrownSelf(c);
    DrivenAfter(c, c, INT_UART0, service * UART0_SUBS != {});
    var c1 := Driven(c, INT_UART0, service * UART0_SUBS != {});
    DrivenAfter(c, c1, INT_UART1, service * UART1_SUBS != {});
    var c2 := Driven(c1, INT_UART1, service * UART1_SUBS != {});
    DrivenAfter(c, c2, INT_UART2, service * UART2_SUBS != {});
    var c3 := Driven(c2, INT_UART2, service * UART2_SUBS != {});
    DrivenAfter(c, c3, INT_ADC, service * ADC_SUBS != {});
    var c4 := Driven(c3, INT_ADC, service * ADC_SUBS != {});
    SubCleared(c4, c4.subsrcPending);
    assert c4 == SubArbitrated(c).(subsrcpnd := c.subsrcpnd);
  }

  lemma SubCleared(c: Ctl, w: Word)
    requires Sane(c) && c.subsrcPending <= w
    ensures var d := c.(subsrcpnd := w);
            Sane(d) && (Inv(c) ==> Inv(d)) && (Settled(c) ==> Settled(d))
  {}

  /** Each of the four shared sources is held exactly when one of its enabled
      sub-sources was pending. */
  lemma SubSourcesDrive(c: Ctl)
    requires Sane(c)
    ensures var d := SubArbitrated(c);
            && (INT_UART0 in d.srcPending <==> SubRequests(c) * UART0_SUBS != {})
            && (INT_UART1 in d.srcPending <==> SubRequests(c) * UART1_SUBS != {})
            && (INT_UART2 in d.srcPending <==> SubRequests(c) * UART2_SUBS != {})
            && (INT_ADC in d.srcPending <==> SubRequests(c) * ADC_SUBS != {})
            && (forall s :: s !in {INT_UART0, INT_UART1, INT_UART2, INT_ADC} ==>
                  (s in d.srcPending <==> s in c.srcPending))
  {
    hide Driven;
    var service := SubRequests(c);
    DrivenLevel(c, INT_UART0, service * UART0_SUBS != {});
    var c1 := Driven(c, INT_UART0, service * UART0_SUBS != {});
    DrivenKeeps(c, INT_UART0, service * UART0_SUBS != {});
    DrivenLevel(c1, INT_UART1, service * UART1_SUBS != {});
    var c2 := Driven(c1, INT_UART1, service * UART1_SUBS != {});
    DrivenKeeps(c1, INT_UART1, service * UART1_SUBS != {});
    DrivenLevel(c2, INT_UART2, service * UART2_SUBS != {});
    var c3 := Driven(c2, INT_UART2, service * UART2_SUBS != {});
    DrivenKeeps(c2, INT_UART2, service * UART2_SUBS != {});
    DrivenLevel(c3, INT_ADC, service * ADC_SUBS != {});
  }

  lemma DrivenLevel(c: Ctl, source: nat, on: bool)
    requires Sane(c) && source < 32
    ensures Driven(c, source, on).srcPending == if on then c.srcPending + {source} else c.srcPending - {source}
  {
    hide Turned, Scan;
    if on && source in c.srcPending {
      assert c.srcPending + {source} == c.srcPending;
    }
  }

  // ------------------------------------------------------------ one step

  /** How the arbitration may change INTPND: not at all unless it is empty. */
  predicate Pending(c: Ctl, d: Ctl)
  {
    && (c.intpnd != {} ==> d.intpnd == c.intpnd && d.intoffset == c.intoffset)
    && (c.intpnd == {} && d.intpnd != {} ==> Picked(d))
  }

  /** What the processor acknowledges by this step leaves INTPND. */
  function Acked(c: Ctl, s: Step): Ctl
  {
    if s.Write? && s.reg == INTPND then c.(intpnd := c.intpnd - s.data) else c
  }

  /** The invariant holds after every step, and only the bits written to INTPND
      leave it: a new assertion, a mask, a mode or a priority never displaces what
      it shows. What newly appears there is an unmasked pending source that is not
      in FIQ mode. */
  lemma StepKeeps(c: Ctl, s: Step)
    requires Sane(c)
    ensures Sane(Stepped(c, s))
    ensures Inv(c) ==> Inv(Stepped(c, s))
    ensures Pending(Acked(c, s), Stepped(c, s))
  {
    hide Arbitrated, SubArbitrated, Asserted, Deasserted;
    match s
    case Assert(source, level) => AssertedFacts(c, source, level);
    case Deassert(source) => DeassertedFacts(c, source);
    case SubAssert(_, _) => SubStepKeeps(c, s);
    case SubDeassert(source) =>
    case Write(reg, data) =>
      if reg == SUBSRCPND || reg == INTSUBMSK {
        SubStepKeeps(c, s);
      } else {
        WriteKeeps(c, reg, data);
      }
  }

  lemma SubStepKeeps(c: Ctl, s: Step)
    requires Sane(c)
    requires s.SubAssert? || (s.Write? && (s.reg == SUBSRCPND || s.reg == INTSUBMSK))
    ensures var d := Stepped(c, s);
            && Sane(d) && Pending(c, d)
            && (Inv(c) ==> Inv(d))
            && (Settled(c) ==> Settled(d))
  {
    hide SubArbitrated;
    match s
    case SubAssert(source, level) =>
      if source <= 31 && source !in c.subsrcPending {
        SubArbitratedFacts(c.(subsrcPending := if level then c.subsrcPending + {source} else c.subsrcPending,
                              subsrcpnd := c.subsrcpnd + {source}));
      }
    case Write(SUBSRCPND, data) => SubArbitratedFacts(c.(subsrcpnd := c.subsrcpnd - data + c.subsrcPending));
    case Write(INTSUBMSK, data) => SubArbitratedFacts(c.(intsubmsk := data * SUBS));
  }

  lemma WriteKeeps(c: Ctl, reg: Register, data: Word)
    requires Sane(c) && reg != SUBSRCPND && reg != INTSUBMSK
    ensures var d := Stepped(c, Write(reg, data));
            && Sane(d) && (Inv(c) ==> Inv(d))
            && Pending(Acked(c, Write(reg, data)), d)
            && (reg != SRCPND ==> Settled(d))
  {
    hide Arbitrated, SelOf, ModeOf;
    match reg
    case SRCPND => ArbitratedFacts(c.(srcpnd := c.srcpnd - data + c.srcPending));
    case INTMOD => ArbitratedFacts(c.(intmod := data - UNUSED));
    case INTMSK => ArbitratedFacts(c.(intmsk := data + UNUSED));
    case PRIORITY => PriorityStep(c, data);
    case INTPND => ArbitratedFacts(c.(intpnd := c.intpnd - data));
  }

  lemma PriorityStep(c: Ctl, data: Word)
    requires Sane(c)
    ensures var d := Stepped(c, Write(PRIORITY, data));
            Sane(d) && (Inv(c) ==> Inv(d)) && Pending(c, d) && Settled(d)
  {
    hide Arbitrated;
    ArbitratedFacts(c.(sel := SelOf(data), mode := ModeOf(data)));
  }

  /** A SRCPND write that clears the last FIQ request and touches no held source:
      the one write after which the controller does not arbitrate again. */
  predicate DropsFiq(c: Ctl, s: Step)
  {
    && s.Write? && s.reg == SRCPND
    && c.srcPending * s.data == {}
    && FiqRequests(c) != {} && FiqRequests(c) - s.data == {}
  }

  /** From agreement between the registers and the CPU's lines, a step leads to
      agreement exactly when it is not such a write. */
  lemma SettledStep(c: Ctl, s: Step)
    requires Inv(c) && Settled(c)
    ensures Settled(Stepped(c, s)) <==> !DropsFiq(c, s)
  {
    hide Arbitrated, SubArbitrated, Asserted;
    match s
    case Assert(source, level) => AssertedFacts(c, source, level);
    case Deassert(source) => DeassertedFacts(c, source);
    case SubAssert(_, _) => SubStepKeeps(c, s);
    case SubDeassert(source) =>
    case Write(reg, data) =>
      if reg == SUBSRCPND || reg == INTSUBMSK {
        SubStepKeeps(c, s);
      } else if reg != SRCPND {
        WriteKeeps(c, reg, data);
      } else {
        SrcpndSettled(c, data);
      }
  }

  lemma SrcpndSettled(c: Ctl, data: Word)
    requires Inv(c) && Settled(c)
    ensures Settled(Stepped(c, Write(SRCPND, data))) <==> !DropsFiq(c, Write(SRCPND, data))
  {
    hide Arbitrated;
    var d := c.(srcpnd := c.srcpnd - data + c.srcPending);
    if c.srcPending * data != {} {
      ArbitratedFacts(d);
    } else {
      assert FiqRequests(d) == FiqRequests(c) - data by {
        forall b | b in data
          ensures b !in c.srcPending
        {
          assert b !in c.srcPending * data;
        }
      }
    }
  }

  // ------------------------------------------------------------ runs

  /** After s3c2410_intc_reset. */
  function Reset(): Ctl
  {
    Ctl({}, {}, ALL, {}, 0, {}, SUBS, seq(7, _ => 0), seq(7, _ => true), {}, {}, false, false, 0)
  }

  function Ran(c: Ctl, steps: seq<Step>): Ctl
    requires Sane(c)
    decreases steps
  {
    if steps == [] then c
    else
      StepKeeps(c, steps[0]);
      Ran(Stepped(c, steps[0]), steps[1..])
  }

  lemma {:induction false} RunKeeps(c: Ctl, steps: seq<Step>)
    requires Inv(c)
    ensures Inv(Ran(c, steps))
    decreases steps
  {
    hide Stepped;
    if steps == [] {
    } else {
      StepKeeps(c, steps[0]);
      RunKeeps(Stepped(c, steps[0]), steps[1..]);
    }
  }

  /** In every reachable state INTPND shows at most one source, the one INTOFFSET
      names, and then the IRQ line is asserted; a held source stays pending. */
  lemma Reachable(steps: seq<Step>)
    ensures Inv(Reset()) && Settled(Reset())
    ensures Inv(Ran(Reset(), steps))
  {
    hide Stepped;
    RunKeeps(Reset(), steps);
  }

  /** Such a write is reachable: with source 1 in FIQ mode and asserted as an edge,
      clearing it in SRCPND leaves the FIQ line asserted with nothing pending. */
  lemma LinesCanDisagree()
    ensures var steps := [Write(INTMOD, {1}), Assert(1, false), Write(SRCPND, {1})];
            var c := Ran(Reset(), steps);
            c.fiq && FiqRequests(c) == {} && !Settled(c)
  {
    var c0 := Reset();
    var s0, s1, s2 := Write(INTMOD, {1}), Assert(1, false), Write(SRCPND, {1});
    var steps := [s0, s1, s2];
    StepKeeps(c0, s0);
    var c1 := Stepped(c0, s0);
    StepKeeps(c1, s1);
    var c2 := Stepped(c1, s1);
    assert 1 in FiqRequests(c2);
    StepKeeps(c2, s2);
    var c3 := Stepped(c2, s2);
    assert c2.srcPending * {1} == {};
    assert FiqRequests(c3) == {};
    assert steps[1..] == [s1, s2] && [s1, s2][1..] == [s2] && [s2][1..] == [];
    assert Ran(c2, [s2]) == c3;
    assert Ran(c1, [s1, s2]) == c3;
  }

  /** This step leaves source b in INTPND alone. */
  predicate Spares(s: Step, b: nat)
  {
    s.Write? && s.reg == INTPND ==> b !in s.data
  }

  /** Over any run in which the processor does not acknowledge it, the interrupt in
      INTPND stays the one that is shown. */
  lemma {:induction false} PendingStays(c: Ctl, steps: seq<Step>)
    requires Inv(c) && c.intpnd != {}
    requires forall s :: s in steps ==> Spares(s, c.intoffset)
    ensures Ran(c, steps).intpnd == c.intpnd && Ran(c, steps).intoffset == c.intoffset
    decreases steps
  {
    hide Stepped;
    if steps == [] {
    } else {
      StepKeeps(c, steps[0]);
      assert Spares(steps[0], c.intoffset);
      assert Acked(c, steps[0]).intpnd == c.intpnd;
      PendingStays(Stepped(c, steps[0]), steps[1..]);
    }
  }

  /** The sources that are driven by sub-sources. */
  const SHARED: Word := {INT_UART0, INT_UART1, INT_UART2, INT_ADC}

  lemma LevelStays(c: Ctl, s: Step, b: nat)
    requires Sane(c) && b in c.srcPending && b !in SHARED && s != Deassert(b)
    ensures b in Stepped(c, s).srcPending
  {
    hide Arbitrated, SubArbitrated;
    match s
    case Assert(source, level) =>
      if source <= 31 && source !in c.srcPending {
        ArbitratedFacts(c.(srcPending := if level then c.srcPending + {source} else c.srcPending,
                           srcpnd := c.srcpnd + {source}));
      }
    case Deassert(source) =>
    case SubAssert(_, _) => SubLevelStays(c, s, b);
    case SubDeassert(source) =>
    case Write(reg, data) =>
      if reg == SUBSRCPND || reg == INTSUBMSK {
        SubLevelStays(c, s, b);
      } else {
        WriteLevels(c, reg, data);
      }
  }

  lemma SubLevelStays(c: Ctl, s: Step, b: nat)
    requires Sane(c) && b in c.srcPending && b !in SHARED
    requires s.SubAssert? || (s.Write? && (s.reg == SUBSRCPND || s.reg == INTSUBMSK))
    ensures b in Stepped(c, s).srcPending
  {
    hide SubArbitrated;
    match s
    case SubAssert(source, level) =>
      if source <= 31 && source !in c.subsrcPending {
        SubSourcesDrive(c.(subsrcPending := if level then c.subsrcPending + {source} else c.subsrcPending,
                           subsrcpnd := c.subsrcpnd + {source}));
      }
    case Write(SUBSRCPND, data) => SubSourcesDrive(c.(subsrcpnd := c.subsrcpnd - data + c.subsrcPending));
    case Write(INTSUBMSK, data) => SubSourcesDrive(c.(intsubmsk := data * SUBS));
  }

  lemma WriteLevels(c: Ctl, reg: Register, data: Word)
    requires Sane(c) && reg != SUBSRCPND && reg != INTSUBMSK
    ensures Stepped(c, Write(reg, data)).srcPending == c.srcPending
  {
    hide Arbitrated, SelOf, ModeOf;
    match reg
    case SRCPND => ArbitratedFacts(c.(srcpnd := c.srcpnd - data + c.srcPending));
    case INTMOD => ArbitratedFacts(c.(intmod := data - UNUSED));
    case INTMSK => ArbitratedFacts(c.(intmsk := data + UNUSED));
    case PRIORITY => ArbitratedFacts(c.(sel := SelOf(data), mode := ModeOf(data)));
    case INTPND => ArbitratedFacts(c.(intpnd := c.intpnd - data));
  }

  /** No step of the run is the SRCPND write after which the lines can disagree. */
  predicate NeverDrops(c: Ctl, steps: seq<Step>)
    requires Sane(c)
    decreases steps
  {
    steps != [] ==>
      && !DropsFiq(c, steps[0])
      && Sane(Stepped(c, steps[0]))
      && NeverDrops(Stepped(c, steps[0]), steps[1..])
  }

  /** A run without such a write keeps the lines in agreement with the registers. */
  lemma {:induction false} RunSettles(c: Ctl, steps: seq<Step>)
    requires Inv(c) && Settled(c) && NeverDrops(c, steps)
    ensures Settled(Ran(c, steps))
    decreases steps
  {
    hide Stepped, Settled, DropsFiq;
    if steps == [] {
    } else {
      StepKeeps(c, steps[0]);
      SettledStep(c, steps[0]);
      RunSettles(Stepped(c, steps[0]), steps[1..]);
    }
  }

  /** An unmasked pending source keeps the IRQ line asserted while no FIQ intervenes. */
  lemma PendingAsserts(c: Ctl, b: nat)
    requires Settled(c) && b in c.srcpnd && b !in c.intmsk && FiqRequests(c) == {}
    ensures c.irq && c.intpnd != {}
  {
    assert b in IrqRequests(c);
  }

  /** A source held at its level stays pending over any run until it is released,
      whatever is written to the registers; if the lines agreed with the registers and
      no write made them disagree, an unmasked one keeps the IRQ line asserted once no
      FIQ intervenes. */
  lemma {:induction false} HeldStays(c: Ctl, steps: seq<Step>, b: nat)
    requires Inv(c) && b in c.srcPending && b !in SHARED
    requires Deassert(b) !in steps
    ensures var d := Ran(c, steps);
            && b in d.srcpnd
            && (Settled(c) && NeverDrops(c, steps) && FiqRequests(d) == {} && b !in d.intmsk ==>
                  d.irq && d.intpnd != {})
    decreases steps
  {
    hide Stepped, Settled, DropsFiq;
    if Settled(c) && NeverDrops(c, steps) {
      RunSettles(c, steps);
    }
    HeldPends(c, steps, b);
    if Settled(Ran(c, steps)) && FiqRequests(Ran(c, steps)) == {} && b !in Ran(c, steps).intmsk {
      PendingAsserts(Ran(c, steps), b);
    }
  }

  lemma {:induction false} HeldPends(c: Ctl, steps: seq<Step>, b: nat)
    requires Inv(c) && b in c.srcPending && b !in SHARED
    requires Deassert(b) !in steps
    ensures b in Ran(c, steps).srcpnd
    decreases steps
  {
    hide Stepped;
    if steps == [] {
      assert b in c.srcpnd;
    } else {
      StepKeeps(c, steps[0]);
      LevelStays(c, steps[0], b);
      HeldPends(Stepped(c, steps[0]), steps[1..], b);
    }
  }

  // ------------------------------------------------------------ the shared sources

  function SubsOf(b: nat): Word
  {
    if b == INT_UART0 then UART0_SUBS
    else if b == INT_UART1 then UART1_SUBS
    else if b == INT_UART2 then UART2_SUBS
    else if b == INT_ADC then ADC_SUBS
    else {}
  }

  /** Source b is held, on behalf of its enabled and held sub-source q. */
  predicate HeldBy(c: Ctl, q: nat, b: nat)
  {
    b in c.srcPending && q in c.subsrcPending && q !in c.intsubmsk && q in SubsOf(b)
  }

  /** This step neither releases b or q nor masks q. */
  predicate KeepsHold(s: Step, q: nat, b: nat)
  {
    && s != Deassert(b) && s != SubDeassert(q)
    && (s.Write? && s.reg == INTSUBMSK ==> q !in s.data)
  }

  lemma SharedHoldStays(c: Ctl, s: Step, q: nat, b: nat)
    requires Inv(c) && HeldBy(c, q, b) && KeepsHold(s, q, b)
    ensures HeldBy(Stepped(c, s), q, b)
  {
    hide Arbitrated, SubArbitrated, SelOf, ModeOf, SubsOf, PriorityWord;
    match s
    case Assert(source, level) =>
      if source <= 31 && source !in c.srcPending {
        ArbitratedFacts(c.(srcPending := if level then c.srcPending + {source} else c.srcPending,
                           srcpnd := c.srcpnd + {source}));
      }
    case Deassert(source) =>
    case SubDeassert(source) =>
    case SubAssert(source, level) =>
      if source <= 31 && source !in c.subsrcPending {
        SubHold(c.(subsrcPending := if level then c.subsrcPending + {source} else c.subsrcPending,
                   subsrcpnd := c.subsrcpnd + {source}), q, b);
      }
    case Write(reg, data) =>
      if reg == SUBSRCPND {
        SubHold(c.(subsrcpnd := c.subsrcpnd - data + c.subsrcPending), q, b);
      } else if reg == INTSUBMSK {
        SubHold(c.(intsubmsk := data * SUBS), q, b);
      } else {
        WriteLevels(c, reg, data);
        WriteSubs(c, reg, data);
      }
  }

  lemma WriteSubs(c: Ctl, reg: Register, data: Word)
    requires Sane(c) && reg != SUBSRCPND && reg != INTSUBMSK
    ensures var d := Stepped(c, Write(reg, data)); d.subsrcPending == c.subsrcPending && d.intsubmsk == c.intsubmsk
  {
    hide Turned, Scan, SelOf, ModeOf;
  }

  /** Driving the sources from the sub-sources keeps the hold. */
  lemma SubHold(c: Ctl, q: nat, b: nat)
    requires Sane(c) && HeldBy(c, q, b) && q in c.subsrcpnd
    ensures HeldBy(SubArbitrated(c), q, b)
  {
    hide SubArbitrated;
    SubSourcesDrive(c);
    SubArbitratedFacts(c);
    assert q in SubRequests(c) * SubsOf(b);
  }

  /** The same for the four shared sources: one that an enabled sub-source holds stays
      pending until one of the two is released or the sub-source masked. */
  lemma {:induction false} SharedHeldStays(c: Ctl, steps: seq<Step>, q: nat, b: nat)
    requires Inv(c) && HeldBy(c, q, b)
    requires forall s :: s in steps ==> KeepsHold(s, q, b)
    ensures var d := Ran(c, steps);
            && b in d.srcpnd
            && (Settled(c) && NeverDrops(c, steps) && FiqRequests(d) == {} && b !in d.intmsk ==>
                  d.irq && d.intpnd != {})
  {
    hide Stepped, Settled, DropsFiq;
    if Settled(c) && NeverDrops(c, steps) {
      RunSettles(c, steps);
    }
    SharedPends(c, steps, q, b);
    if Settled(Ran(c, steps)) && FiqRequests(Ran(c, steps)) == {} && b !in Ran(c, steps).intmsk {
      PendingAsserts(Ran(c, steps), b);
    }
  }

  lemma {:induction false} SharedPends(c: Ctl, steps: seq<Step>, q: nat, b: nat)
    requires Inv(c) && HeldBy(c, q, b)
    requires forall s :: s in steps ==> KeepsHold(s, q, b)
    ensures b in Ran(c, steps).srcpnd
    decreases steps
  {
    hide Stepped;
    if steps == [] {
      assert b in c.srcpnd;
    } else {
      StepKeeps(c, steps[0]);
      SharedHoldStays(c, steps[0], q, b);
      SharedPends(Stepped(c, steps[0]), steps[1..], q, b);
    }
  }

  // ------------------------------------------------------------ whom the two levels ever serve

  predicate Fits(sel: seq<nat>)
  {
    |sel| == 7 && forall k :: 0 <= k < 7 ==> sel[k] < 4
  }

  /** The arbiters after n selections among the same requests. */
  function AfterFrom(sel: seq<nat>, mode: seq<bool>, service: Word, n: nat): (r: seq<nat>)
    requires Fits(sel) && |mode| == 7
    ensures Fits(r)
  {
    if n == 0 then sel else Turned(AfterFrom(sel, mode, service, n - 1), mode, service)
  }

  /** What is connected to arbiter k of these requests. */
  function InputsOf(k: nat, service: Word): Word
    requires k < 7
  {
    if k < 6 then service else Groups(seq(7, _ => 0), service)
  }

  predicate Picks(k: nat, service: Word)
    requires k < 7
  {
    Choice(k, 0, InputsOf(k, service)) != -1
  }

  /** Whether an arbiter picks anything does not depend on where it stands. */
  lemma PicksAnyway(k: nat, s: nat, t: nat, service: Word)
    requires k < 7 && s < 4 && t < 4
    ensures Choice(k, s, service) != -1 <==> Choice(k, t, service) != -1
  {
    hide Choice, ArbReq;
    if Choice(k, s, service) != -1 {
      ServedIfPicked(k, s, t, service);
    }
    if Choice(k, t, service) != -1 {
      ServedIfPicked(k, t, s, service);
    }
  }

  lemma ServedIfPicked(k: nat, s: nat, t: nat, service: Word)
    requires k < 7 && s < 4 && t < 4 && Choice(k, s, service) != -1
    ensures Choice(k, t, service) != -1
  {
    hide ArbOrder;
    var r := Choice(k, s, service);
    var x :| 0 <= x < |ArbReq(k)| && ArbReq(k)[x] == r;
    HeldIsServed(k, x, t, service);
  }

  lemma GroupsAnyway(sel: seq<nat>, service: Word)
    requires Fits(sel)
    ensures Groups(sel, service) == InputsOf(6, service)
  {
    hide Choice;
    forall k: nat | k < 6
      ensures Choice(k, sel[k], service) != -1 <==> Choice(k, 0, service) != -1
    {
      PicksAnyway(k, sel[k], 0, service);
    }
  }

  lemma TurnIs(sel: seq<nat>, mode: seq<bool>, service: Word, k: nat)
    requires Fits(sel) && |mode| == 7 && k < 7
    ensures Turned(sel, mode, service)[k] == if mode[k] && Picks(k, service) then (sel[k] + 1) % 4 else sel[k]
  {
    hide Choice, Groups;
    GroupsAnyway(sel, service);
    PicksAnyway(k, sel[k], 0, InputsOf(k, service));
  }

  lemma {:induction false} AfterIs(sel: seq<nat>, mode: seq<bool>, service: Word, n: nat, k: nat)
    requires Fits(sel) && |mode| == 7 && k < 7
    ensures AfterFrom(sel, mode, service, n)[k] == if mode[k] && Picks(k, service) then (sel[k] + n) % 4 else sel[k]
  {
    hide Turned, Picks;
    if n > 0 {
      AfterIs(sel, mode, service, n - 1, k);
      TurnIs(AfterFrom(sel, mode, service, n - 1), mode, service, k);
    }
  }

  /** Among constant requests the arbiters come back to where they were after four selections. */
  lemma FourSelections(sel: seq<nat>, mode: seq<bool>, service: Word, n: nat)
    requires Fits(sel) && |mode| == 7
    ensures AfterFrom(sel, mode, service, n) == AfterFrom(sel, mode, service, n % 4)
  {
    hide AfterFrom, Picks;
    var a, b := AfterFrom(sel, mode, service, n), AfterFrom(sel, mode, service, n % 4);
    AfterFits(sel, mode, service, n);
    AfterFits(sel, mode, service, n % 4);
    forall k: nat | k < 7
      ensures a[k] == b[k]
    {
      AfterIs(sel, mode, service, n, k);
      AfterIs(sel, mode, service, n % 4, k);
    }
  }

  lemma AfterFits(sel: seq<nat>, mode: seq<bool>, service: Word, n: nat)
    requires Fits(sel) && |mode| == 7
    ensures Fits(AfterFrom(sel, mode, service, n))
  {
    hide Turned;
  }

  /** Selection n, counted from these arbiters, falls on source s. */
  predicate Served(sel: seq<nat>, mode: seq<bool>, service: Word, n: nat, s: nat)
    requires Fits(sel) && |mode| == 7
  {
    Winner(AfterFrom(sel, mode, service, n), service) == s
  }

  /** Among constant requests, from any arbiters in any modes, a source is served at all
      if and only if it is served in one of the next four selections, and then again and
      again. */
  lemma ServedExactly(sel: seq<nat>, mode: seq<bool>, service: Word, s: nat)
    requires Fits(sel) && |mode| == 7
    ensures (exists n: nat :: Served(sel, mode, service, n, s)) <==>
            (exists n: nat :: n < 4 && Served(sel, mode, service, n, s))
    ensures forall n: nat :: Served(sel, mode, service, n, s) <==> Served(sel, mode, service, n + 4, s)
  {
    hide AfterFrom, Winner;
    forall n: nat
      ensures Served(sel, mode, service, n, s) <==> Served(sel, mode, service, n % 4, s)
      ensures Served(sel, mode, service, n, s) <==> Served(sel, mode, service, n + 4, s)
    {
      FourSelections(sel, mode, service, n);
      FourSelections(sel, mode, service, n + 4);
    }
    if n: nat :| Served(sel, mode, service, n, s) {
      assert n % 4 < 4 && Served(sel, mode, service, n % 4, s);
    }
  }

  /** The processor acknowledges what INTPND shows, n times over. */
  function AckedTimes(c: Ctl, n: nat): (d: Ctl)
    requires Sane(c)
    ensures Sane(d)
  {
    if n == 0 then c
    else
      var d := AckedTimes(c, n - 1);
      StepKeeps(d, Write(INTPND, d.intpnd));
      Stepped(d, Write(INTPND, d.intpnd))
  }

  lemma AckStep(d: Ctl)
    requires Sane(d) && FiqRequests(d) == {} && IrqRequests(d) != {}
    ensures var e := Stepped(d, Write(INTPND, d.intpnd));
            && e.srcpnd == d.srcpnd && SameSources(d, e)
            && e.sel == Turned(d.sel, d.mode, IrqRequests(d))
            && e.intpnd == {e.intoffset} && e.intoffset == Winner(d.sel, IrqRequests(d))
  {
    hide Turned, Scan, Winner;
    ArbitrationIsFlat(d.sel, IrqRequests(d));
  }

  /** While no FIQ is requested and the requests stay, acknowledgement number n + 1 makes
      INTPND show what selection n falls on. */
  lemma {:induction false} AckShows(c: Ctl, n: nat)
    requires Sane(c) && FiqRequests(c) == {} && IrqRequests(c) != {}
    ensures var d := AckedTimes(c, n);
            && d.srcpnd == c.srcpnd && SameSources(c, d)
            && d.sel == AfterFrom(c.sel, c.mode, IrqRequests(c), n)
    ensures var e := AckedTimes(c, n + 1);
            && e.intpnd == {e.intoffset}
            && e.intoffset == Winner(AfterFrom(c.sel, c.mode, IrqRequests(c), n), IrqRequests(c))
  {
    hide Turned, Winner, Stepped;
    if n > 0 {
      AckShows(c, n - 1);
      AckStep(AckedTimes(c, n - 1));
    }
    AckStep(AckedTimes(c, n));
  }

  /** After acknowledgement number n + 1 INTPND shows source s. */
  predicate Shown(c: Ctl, n: nat, s: nat)
    requires Sane(c)
  {
    AckedTimes(c, n + 1).intpnd == {s}
  }

  /** While no FIQ is requested and the requests stay, a source is shown in INTPND after
      some acknowledgement if and only if it is after one of the next four. */
  lemma ShownExactly(c: Ctl, s: nat)
    requires Sane(c) && FiqRequests(c) == {} && IrqRequests(c) != {}
    ensures (exists n: nat :: Shown(c, n, s)) <==> (exists n: nat :: n < 4 && Shown(c, n, s))
  {
    hide AckedTimes, AfterFrom, Winner;
    var service := IrqRequests(c);
    forall n: nat
      ensures Shown(c, n, s) <==> Served(c.sel, c.mode, service, n, s)
    {
      AckShows(c, n);
      assert s in AckedTimes(c, n + 1).intpnd <==> s == AckedTimes(c, n + 1).intoffset;
    }
    ServedExactly(c.sel, c.mode, service, s);
  }

  // ------------------------------------------------------------ a source that is never served

  /** One request in group 1, two in group 2. */
  const CONTENDERS: Word := {5, 11, 12}

  lemma ContendersInGroups(sel: seq<nat>)
    requires Fits(sel)
    ensures Choice(1, sel[1], CONTENDERS) == 5
    ensures Choice(2, sel[2], CONTENDERS) != -1 && (sel[2] == 1 ==> Choice(2, sel[2], CONTENDERS) == 12)
    ensures forall k :: 0 <= k < 6 && k != 1 && k != 2 ==> Choice(k, sel[k], CONTENDERS) == -1
    ensures Groups(sel, CONTENDERS) == {1, 2}
  {
    hide Choice, ArbOrder;
    HeldIsServed(1, 1, sel[1], CONTENDERS);
    HeldIsServed(2, 1, sel[2], CONTENDERS);
    if sel[2] == 1 {
      FrontRunner(2, 1, CONTENDERS);
    }
  }

  lemma ContendersOnTop(sel: nat)
    requires sel < 4
    ensures Choice(6, sel, {1, 2}) == if sel == 1 then 2 else 1
  {
    PickFirst(ArbOrder(sel), ArbReq(6), {1, 2}, if sel < 2 then 1 else if sel == 2 then 3 else 2);
  }

  lemma ContendersPick()
    ensures Picks(2, CONTENDERS) && Picks(6, CONTENDERS)
  {
    hide Choice, ArbOrder, ArbReq, Groups;
    ContendersInGroups(seq(7, _ => 0));
    ContendersOnTop(0);
  }

  lemma InStep(sel: seq<nat>)
    requires Fits(sel) && sel[2] == sel[6]
    ensures Winner(sel, CONTENDERS) == if sel[6] == 1 then 12 else 5
  {
    hide Choice, ArbOrder, ArbReq, Groups;
    ContendersInGroups(sel);
    ContendersOnTop(sel[6]);
  }

  /** From reset the arbiters of both levels turn in step: source 11 is never served,
      although it requests service all the time, every arbiter rotates and each of them
      would serve each of its own inputs in turn. */
  lemma CanStarve(n: nat)
    ensures !Served(Reset().sel, Reset().mode, CONTENDERS, n, 11)
  {
    hide AfterFrom, Winner, Picks;
    var sel, mode := Reset().sel, Reset().mode;
    AfterFits(sel, mode, CONTENDERS, n);
    ContendersPick();
    AfterIs(sel, mode, CONTENDERS, n, 2);
    AfterIs(sel, mode, CONTENDERS, n, 6);
    InStep(AfterFrom(sel, mode, CONTENDERS, n));
  }

  // ------------------------------------------------------------ sub-sources that are masked

  /** An edge of a sub-source is forgotten as soon as the sub-sources have been looked
      at: if it was masked then, it drives nothing, neither now nor once it is unmasked. */
  lemma MaskedEdgeForgotten(c: Ctl, q: nat)
    requires Sane(c) && q <= 31 && q !in c.subsrcPending && q in c.intsubmsk
    ensures var d := Stepped(c, SubAssert(q, false));
            && q !in d.subsrcpnd && q !in d.subsrcPending
            && forall s :: s in d.srcPending <==> s in SubArbitrated(c).srcPending
  {
    hide SubArbitrated;
    var e := c.(subsrcpnd := c.subsrcpnd + {q});
    SubArbitratedFacts(e);
    SubSourcesDrive(e);
    SubSourcesDrive(c);
    assert SubRequests(e) == SubRequests(c);
  }
}
