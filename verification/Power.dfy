/** The clock generator: how the PLL and divider registers give the CPU, bus and
    peripheral clocks. */
module Power {
  import opened Arith

  const EXTCLK: nat := 12_000_000

  /** The bits of a 32-bit register from `shift` on, `width` being the number of
      values they take. */
  function Field(reg: nat, shift: nat, width: nat): (f: nat)
    requires shift > 0 && width > 0
    ensures f < width
  {
    reg / shift % width
  }

  /** A PLL: main divider, pre divider and post divider around EXTCLK. */
  function Pll(con: nat): nat
  {
    var (m, p, s) := (Field(con, 4096, 256), Field(con, 16, 64), Field(con, 1, 4));
    EXTCLK * (m + 8) / ((p + 2) * Post(s))
  }

  /** 1 << s for the two-bit post divider. */
  function Post(s: nat): (d: nat)
    requires s < 4
    ensures 1 <= d <= 8
  {
    if s == 0 then 1 else if s == 1 then 2 else if s == 2 then 4 else 8
  }

  /** Every setting of a PLL gives a clock that fits 32 bits and is above 184 kHz. */
  lemma PllRange(con: nat)
    ensures 184_615 <= Pll(con) <= 1_578_000_000 < 0x1_0000_0000
  {
    var (m, p, s) := (Field(con, 4096, 256), Field(con, 16, 64), Field(con, 1, 4));
    var d := (p + 2) * Post(s);
    assert 2 <= d <= 520;
    QuotientBounds(EXTCLK * (m + 8), d);
  }

  /** The clock of a PLL is the quotient of 12 MHz times main divider + 8 by
      (pre divider + 2) times 2 to the power of the post divider, rounded down; the
      dividers are bits 12 to 19, 4 to 9 and 0 to 1 of its register. */
  lemma PllIs(con: nat)
    ensures var m, p, s := con / 4096 % 256, con / 16 % 64, con % 4;
            var d := (p + 2) * Pow2(s);
            Pll(con) * d <= 12_000_000 * (m + 8) < Pll(con) * d + d
  {
    var m, p, s := con / 4096 % 256, con / 16 % 64, con % 4;
    assert Pow2(0) == 1 && Pow2(1) == 2 && Pow2(2) == 4 && Pow2(3) == 8;
    assert Field(con, 1, 4) == con % 4;
    DivModFacts(12_000_000 * (m + 8), (p + 2) * Post(s));
  }

  /** FCLK is the PLL's unless bit 4 of the slow-clock register is set, and then 12 MHz
      divided by twice the number in its low three bits, or undivided for 0. */
  lemma FclkIs(clkslow: nat, mclk: nat)
    ensures clkslow / 16 % 2 == 0 ==> Fclk(clkslow, mclk) == mclk
    ensures var v := clkslow % 8;
            clkslow / 16 % 2 == 1 ==>
              if v == 0 then Fclk(clkslow, mclk) == 12_000_000
              else Fclk(clkslow, mclk) * (2 * v) <= 12_000_000 < Fclk(clkslow, mclk) * (2 * v) + 2 * v
  {
    assert Field(clkslow, 1, 8) == clkslow % 8;
    var v := clkslow % 8;
    if v > 0 {
      DivModFacts(12_000_000, 2 * v);
    }
  }

  /** The divisions of FCLK to the bus clock and to the peripheral clock. */
  lemma RatiosAre(clkdivn: nat)
    ensures (HclkRatio(clkdivn), PclkRatio(clkdivn)) ==
            if clkdivn % 8 == 0 then (1, 1) else if clkdivn % 8 == 1 then (1, 2)
            else if clkdivn % 8 == 2 then (2, 2) else if clkdivn % 8 == 3 then (2, 4) else (4, 4)
  {
    BitsOf(clkdivn);
  }

  /** A PLL set to main divider m and pre divider p, its post divider off. */
  lemma PllAt(con: nat, m: nat, p: nat, q: nat)
    requires con / 4096 % 256 == m && con / 16 % 64 == p && con % 4 == 0
    requires q * (p + 2) == 12_000_000 * (m + 8)
    ensures Pll(con) == q
  {
    assert Pow2(0) == 1;
    hide Pll;
    PllIs(con);
    DivModUnique(12_000_000 * (m + 8), p + 2, q, 0);
    DivModUnique(12_000_000 * (m + 8), p + 2, Pll(con), 12_000_000 * (m + 8) - Pll(con) * (p + 2));
  }

  /** The clocks for the reset values of the registers. */
  lemma ResetClocks()
    ensures Pll(0x5c080) == 120_000_000 && Pll(0x28080) == 57_600_000
    ensures forall mclk: nat :: Fclk(4, mclk) == mclk
    ensures HclkRatio(0) == 1 == PclkRatio(0)
  {
    hide Pll, Fclk, HclkRatio, PclkRatio, Field, Pow2;
    PllAt(0x5c080, 92, 8, 120_000_000);
    PllAt(0x28080, 40, 8, 57_600_000);
    RatiosAre(0);
    forall mclk: nat
      ensures Fclk(4, mclk) == mclk
    {
      FclkIs(4, mclk);
    }
  }

  lemma BitsOf(n: nat)
    ensures n / 1 % 2 == n % 8 % 2 && n / 2 % 2 == n % 8 / 2 % 2 && n / 4 % 2 == n % 8 / 4
  {
    DivModUnique(n / 2, 4, n / 8, n % 8 / 2);
    DivModUnique(n / 4, 2, n / 8, n % 8 / 4);
    DivModUnique(n / 2, 2, 2 * (n / 8) + n % 8 / 4, n % 8 / 2 % 2);
  }

  lemma QuotientBounds(x: nat, d: nat)
    requires 2 <= d <= 520
    ensures x / 520 <= x / d <= x / 2
  {
    DivAntitone(x, 2, d);
    DivAntitone(x, d, 520);
  }

  lemma DivAntitone(x: nat, d: nat, e: nat)
    requires 0 < d <= e
    ensures x / e <= x / d
  {
    DivModFacts(x, d);
    DivModFacts(x, e);
    var q, p := x / e, x / d;
    MulMonotone(d, e, q);
    assert (p + 1) * d == p * d + d;
    if q > p {
      MulMonotone(p + 1, q, d);
    }
  }

  /** What the slow-clock register makes of the PLL clock. */
  function Fclk(clkslow: nat, mclk: nat): nat
  {
    if Field(clkslow, 16, 2) == 0 then mclk
    else if Field(clkslow, 1, 8) == 0 then EXTCLK
    else EXTCLK / (2 * Field(clkslow, 1, 8))
  }

  /** How many times slower than FCLK the bus and peripheral clocks run. */
  function HclkRatio(clkdivn: nat): (r: nat)
    ensures r == 1 || r == 2 || r == 4
  {
    if Field(clkdivn, 4, 2) == 1 then 4 else if Field(clkdivn, 2, 2) == 1 then 2 else 1
  }

  function PclkRatio(clkdivn: nat): (r: nat)
    ensures r == 1 || r == 2 || r == 4
  {
    if Field(clkdivn, 4, 2) == 1 then 4 else HclkRatio(clkdivn) * (Field(clkdivn, 1, 2) + 1)
  }

  /** The peripheral clock never stops, whatever the registers hold. */
  lemma PclkPositive(mpllcon: nat, clkslow: nat, clkdivn: nat)
    ensures var f := Fclk(clkslow, Pll(mpllcon));
            f / PclkRatio(clkdivn) >= 46_153 && f < 0x1_0000_0000
  {
    hide Pll, PclkRatio;
    PllRange(mpllcon);
    FclkRange(clkslow, Pll(mpllcon));
    RatioRange(clkdivn);
    QuarterOrMore(Fclk(clkslow, Pll(mpllcon)), PclkRatio(clkdivn));
  }

  /** The ratios for each setting of CLKDIVN. */
  lemma Ratios(clkdivn: nat)
    ensures Field(clkdivn, 4, 2) == 1 ==> HclkRatio(clkdivn) == 4 == PclkRatio(clkdivn)
    ensures Field(clkdivn, 4, 2) != 1 ==>
              && HclkRatio(clkdivn) == (if Field(clkdivn, 1, 4) < 2 then 1 else 2)
              && PclkRatio(clkdivn) == HclkRatio(clkdivn) * (Field(clkdivn, 1, 4) % 2 + 1)
    ensures Field(clkdivn, 1, 4) < 4
  {}

  lemma Quarter(x: nat)
    ensures x / 2 / 2 == x / 4 && x / 1 == x
  {}

  lemma RatioRange(clkdivn: nat)
    ensures var r := PclkRatio(clkdivn); r == 1 || r == 2 || r == 4
  {}

  lemma FclkRange(clkslow: nat, mclk: nat)
    requires 184_615 <= mclk <= 1_578_000_000
    ensures 184_615 <= Fclk(clkslow, mclk) <= 1_578_000_000
  {
    var v := Field(clkslow, 1, 8);
    if v > 0 {
      assert v == 1 || v == 2 || v == 3 || v == 4 || v == 5 || v == 6 || v == 7;
    }
  }

  lemma QuarterOrMore(f: nat, r: nat)
    requires f >= 184_615 && (r == 1 || r == 2 || r == 4)
    ensures f / r >= 46_153
  {}

  class Clocks {
    var mpllcon: nat
    var upllcon: nat
    var clkslow: nat
    var clkdivn: nat
    var MCLK: nat
    var UCLK: nat
    var FCLK: nat
    var HCLK: nat
    var PCLK: nat
    var PCLKRatio: nat

    /** Every clock is what the registers say. */
    predicate Valid()
      reads this
    {
      && MCLK == Pll(mpllcon) && UCLK == Pll(upllcon)
      && FCLK == Fclk(clkslow, MCLK)
      && HCLK == FCLK / HclkRatio(clkdivn)
      && PCLKRatio == PclkRatio(clkdivn)
      && PCLK == FCLK / PCLKRatio
      && PCLK > 0
    }

    /** The reset values of the registers. */
    constructor ()
      ensures Valid() && mpllcon == 0x5c080 && upllcon == 0x28080 && clkslow == 4 && clkdivn == 0
      ensures MCLK == FCLK == HCLK == PCLK == 120_000_000 && UCLK == 57_600_000
    {
      mpllcon, upllcon, clkslow, clkdivn := 0x5c080, 0x28080, 4, 0;
      new;
      hide Pll, Fclk, HclkRatio, PclkRatio;
      Recompute();
      ResetClocks();
    }

    /** The tail of s3c2410_power_write. */
    method Recompute()
      modifies this`MCLK, this`UCLK, this`FCLK, this`HCLK, this`PCLK, this`PCLKRatio
      ensures Valid()
    {
      hide Pll, Fclk, Field, HclkRatio, PclkRatio;
      PclkPositive(mpllcon, clkslow, clkdivn);
      Ratios(clkdivn);
      ComputePlls();
      ComputeFclk();
      Quarter(FCLK);
      if Field(clkdivn, 4, 2) == 1 {
        HCLK := FCLK / 4;
        PCLK := FCLK / 4;
        PCLKRatio := 4;
      } else if Field(clkdivn, 1, 4) == 0 {
        HCLK := FCLK;
        PCLK := HCLK;
        PCLKRatio := 1;
      } else if Field(clkdivn, 1, 4) == 1 {
        HCLK := FCLK;
        PCLK := HCLK / 2;
        PCLKRatio := 2;
      } else if Field(clkdivn, 1, 4) == 2 {
        HCLK := FCLK / 2;
        PCLK := HCLK;
        PCLKRatio := 2;
      } else {
        HCLK := FCLK / 2;
        PCLK := HCLK / 2;
        PCLKRatio := 4;
      }
    }

    method ComputePlls()
      modifies this`MCLK, this`UCLK
      ensures MCLK == Pll(mpllcon) && UCLK == Pll(upllcon)
    {
      var mMdiv, mPdiv, mSdiv := Field(mpllcon, 4096, 256), Field(mpllcon, 16, 64), Field(mpllcon, 1, 4);
      MCLK := EXTCLK * (mMdiv + 8) / ((mPdiv + 2) * Post(mSdiv));
      var uMdiv, uPdiv, uSdiv := Field(upllcon, 4096, 256), Field(upllcon, 16, 64), Field(upllcon, 1, 4);
      UCLK := EXTCLK * (uMdiv + 8) / ((uPdiv + 2) * Post(uSdiv));
    }

    method ComputeFclk()
      modifies this`FCLK
      ensures FCLK == Fclk(clkslow, MCLK)
    {
      if Field(clkslow, 16, 2) == 1 {
        var slow := Field(clkslow, 1, 8);
        if slow == 0 {
          FCLK := EXTCLK;
        } else {
          FCLK := EXTCLK / (2 * slow);
        }
      } else {
        FCLK := MCLK;
      }
    }

    /** A write of one of the registers that set the clocks. */
    method Write(reg: ClockRegister, data: nat)
      requires Valid()
      modifies this
      ensures Valid()
      ensures mpllcon == if reg == MPLLCON then data else old(mpllcon)
      ensures upllcon == if reg == UPLLCON then data else old(upllcon)
      ensures clkslow == if reg == CLKSLOW then data else old(clkslow)
      ensures clkdivn == if reg == CLKDIVN then data else old(clkdivn)
    {
      match reg {
        case MPLLCON => mpllcon := data;
        case UPLLCON => upllcon := data;
        case CLKSLOW => clkslow := data;
        case CLKDIVN => clkdivn := data;
      }
      Recompute();
    }
  }

  datatype ClockRegister = MPLLCON | UPLLCON | CLKSLOW | CLKDIVN
}
