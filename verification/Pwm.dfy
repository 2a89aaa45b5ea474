/** The five PWM timers: counts of prescaled peripheral clocks turned into
    microsecond timeouts and back. */
module Pwm {
  import opened Arith
  import Power

  const MICRO: nat := 1_000_000

  // ------------------------------------------------------------ the two conversions

  /** How long c counts of i clocks take, in whole microseconds, at pclk hertz. */
  function Timeout(c: nat, i: nat, pclk: nat): nat
    requires pclk > 0
  {
    MICRO * c * i / pclk
  }

  /** How many counts are left when `left` microseconds are. */
  function Count(left: int, i: nat, pclk: nat): nat
    requires i > 0
  {
    if left <= 0 then 0 else left * pclk / (MICRO * i)
  }

  lemma QuotientBrackets(x: nat, d: nat)
    requires d > 0
    ensures x / d * d <= x < x / d * d + d
  {
    DivModFacts(x, d);
  }

  lemma QuotientMonotone(x: nat, y: nat, d: nat)
    requires d > 0 && x <= y
    ensures x / d <= y / d
  {
    QuotientBrackets(x, d);
    QuotientBrackets(y, d);
    assert (y / d + 1) * d == y / d * d + d;
    if x / d > y / d {
      MulMonotone(y / d + 1, x / d, d);
    }
  }

  /** Reading a running counter is non-increasing in time. */
  lemma CountFalls(expires: int, now: int, later: int, i: nat, pclk: nat)
    requires i > 0 && now <= later
    ensures Count(expires - later, i, pclk) <= Count(expires - now, i, pclk)
  {
    if expires - later > 0 {
      MulMonotone(expires - later, expires - now, pclk);
      QuotientMonotone((expires - later) * pclk, (expires - now) * pclk, MICRO * i);
    }
  }

  /** e microseconds after a start with count c, the counter is never above the exact
      count, which is c - e * pclk / (10^6 * i), and is below it by less than
      pclk / (10^6 * i) + 1. */
  lemma CountTracks(c: nat, i: nat, pclk: nat, e: nat)
    requires i > 0 && pclk > 0
    ensures var k, r := MICRO * i, Count(Timeout(c, i, pclk) - e, i, pclk);
            && (r > 0 ==> r * k <= c * k - e * pclk)
            && c * k - e * pclk < r * k + k + pclk
  {
    var k, t := MICRO * i, Timeout(c, i, pclk);
    assert MICRO * c * i == c * k;
    QuotientBrackets(c * k, pclk);
    if t - e > 0 {
      QuotientBrackets((t - e) * pclk, k);
      assert (t - e) * pclk == t * pclk - e * pclk;
    } else {
      MulMonotone(t, e, pclk);
    }
  }

  /** At the start the counter shows at most the loaded count, and is short of it by
      less than pclk / (10^6 * i) + 1. */
  lemma CountAtStart(c: nat, i: nat, pclk: nat)
    requires i > 0 && pclk > 0
    ensures var r := Count(Timeout(c, i, pclk), i, pclk);
            && r <= c
            && (c - r - 1) * (MICRO * i) < pclk
  {
    var k, r := MICRO * i, Count(Timeout(c, i, pclk), i, pclk);
    CountTracks(c, i, pclk, 0);
    assert (c - r - 1) * k == c * k - r * k - k;
    assert (c + 1) * k == c * k + k;
    if r > c {
      MulMonotone(c + 1, r, k);
    }
  }

  /** For 16-bit counts and every prescaler setting no product leaves 63 bits. */
  lemma ProductsFit(c: nat, i: nat, pclk: nat, left: nat)
    requires c < 0x1_0000 && 0 < i <= 4096 && pclk > 0 && left <= Timeout(c, i, pclk)
    ensures MICRO * c * i < 0x8000_0000_0000_0000
    ensures left * pclk <= MICRO * c * i
  {
    QuotientBrackets(MICRO * c * i, pclk);
    MulMonotone(left, Timeout(c, i, pclk), pclk);
    MulMonotone(MICRO * c, MICRO * 0xffff, i);
    MulMonotone(i, 4096, MICRO * 0xffff);
  }

  // ------------------------------------------------------------ the timers

  /** One of the five timers, with its entry in the timer queue. */
  datatype Channel = Channel(tcntb: nat, tcmpb: nat, tcnt: nat, tcmp: nat, interval: nat,
                             pending: bool, expires: int)

  /** TCON as the set of its one bits. */
  function StartBit(i: nat): nat
  {
    if i == 0 then 0 else 4 + 4 * i
  }

  function UpdateBit(i: nat): nat
  {
    StartBit(i) + 1
  }

  function ReloadBit(i: nat): nat
  {
    if i == 4 then 22 else StartBit(i) + 3
  }

  /** Peripheral clocks per count: the prescaler, then the divider. */
  function Interval(tcfg0: nat, tcfg1: nat, i: nat): (n: nat)
    requires i < 5
    ensures 2 <= n <= 4096
  {
    var pre := if i < 2 then Power.Field(tcfg0, 1, 256) else Power.Field(tcfg0, 256, 256);
    var mux := Power.Field(tcfg1, MuxPlace(i), 16);
    (pre + 1) * Divider(mux)
  }

  function MuxPlace(i: nat): (p: nat)
    ensures p > 0
  {
    if i == 0 then 1 else 16 * MuxPlace(i - 1)
  }

  /** 2 << mux, settings above 3 being taken as 3. */
  function Divider(mux: nat): (d: nat)
    ensures 2 <= d <= 16
  {
    if mux == 0 then 2 else if mux == 1 then 4 else if mux == 2 then 8 else 16
  }

  /** The queue entry armed for the present count, from now. */
  function Rearmed(ch: Channel, now: int, pclk: nat): Channel
    requires pclk > 0
  {
    ch.(pending := true, expires := now + Timeout(ch.tcnt, ch.interval, pclk))
  }

  /** A TCFG write, for one timer. */
  function Configured(ch: Channel, interval: nat, now: int, pclk: nat): Channel
    requires pclk > 0
  {
    var c := ch.(interval := interval);
    if ch.pending then Rearmed(c, now, pclk) else c
  }

  /** A TCON write, for one timer: only a change of the start bit starts or stops. */
  function Controlled(ch: Channel, prev: set<nat>, tcon: set<nat>, i: nat, now: int, pclk: nat): Channel
    requires pclk > 0
  {
    var c := if UpdateBit(i) in tcon then ch.(tcnt := ch.tcntb, tcmp := ch.tcmpb) else ch;
    if StartBit(i) in tcon && StartBit(i) !in prev then Rearmed(c, now, pclk)
    else if StartBit(i) !in tcon && StartBit(i) in prev then c.(pending := false)
    else c
  }

  /** The timer's callback; its queue entry is gone by then. */
  function Expired(ch: Channel, tcon: set<nat>, i: nat, now: int, pclk: nat): Channel
    requires pclk > 0
  {
    if ReloadBit(i) in tcon then Rearmed(ch.(tcnt := ch.tcntb, tcmp := ch.tcmpb), now, pclk)
    else ch.(pending := false)
  }

  /** The bits of different timers are different. */
  lemma BitsApart(i: nat, j: nat)
    requires i < 5 && j < 5
    ensures StartBit(i) != UpdateBit(j) && StartBit(i) != ReloadBit(j) && UpdateBit(i) != ReloadBit(j)
    ensures i != j ==> StartBit(i) != StartBit(j) && UpdateBit(i) != UpdateBit(j) && ReloadBit(i) != ReloadBit(j)
  {}

  datatype TconWrite = TconWrite(now: int, tcon: set<nat>)

  /** The timer after the first n of a run of TCON writes, prev being the word that the
      first one is compared with. */
  function AfterWrites(ch: Channel, prev: set<nat>, ws: seq<TconWrite>, n: nat, i: nat, pclk: nat): Channel
    requires pclk > 0 && n <= |ws|
  {
    if n == 0 then ch
    else Controlled(AfterWrites(ch, prev, ws, n - 1, i, pclk), if n == 1 then prev else ws[n - 2].tcon,
                    ws[n - 1].tcon, i, ws[n - 1].now, pclk)
  }

  predicate Cleared(ws: seq<TconWrite>, n: nat, i: nat)
    requires n <= |ws|
  {
    exists k :: 0 <= k < n && StartBit(i) !in ws[k].tcon
  }

  /** An expired one-shot timer: its start bit leaves TCON but not the copy that the
      next TCON write is compared with. A run of writes therefore starts it again
      exactly when the last word has the start bit and some word before it had not. */
  lemma {:induction false} OneShotRestart(ch: Channel, tcon: set<nat>, i: nat, now: int,
                                          ws: seq<TconWrite>, n: nat, pclk: nat)
    requires i < 5 && pclk > 0 && StartBit(i) in tcon && ReloadBit(i) !in tcon && n <= |ws|
    ensures AfterWrites(Expired(ch, tcon, i, now, pclk), tcon, ws, n, i, pclk).pending <==>
            n > 0 && StartBit(i) in ws[n - 1].tcon && Cleared(ws, n, i)
  {
    hide Timeout, StartBit, UpdateBit, ReloadBit;
    if n > 0 {
      OneShotRestart(ch, tcon, i, now, ws, n - 1, pclk);
      ClearedGrows(ws, n, i);
    }
  }

  lemma ClearedGrows(ws: seq<TconWrite>, n: nat, i: nat)
    requires 0 < n <= |ws|
    ensures Cleared(ws, n, i) <==> Cleared(ws, n - 1, i) || StartBit(i) !in ws[n - 1].tcon
  {
    if StartBit(i) !in ws[n - 1].tcon {
      assert Cleared(ws, n, i);
    }
  }

  class Timers {
    var tcfg0: nat
    var tcfg1: nat
    var tcon: set<nat>
    var prevTcon: set<nat>
    const timeout: array<Channel>

    predicate Valid()
      reads this, timeout
    {
      timeout.Length == 5 && forall i :: 0 <= i < 5 ==> timeout[i].interval > 0
    }

    constructor ()
      ensures Valid() && fresh(timeout)
      ensures tcfg0 == tcfg1 == 0 && tcon == prevTcon == {}
      ensures forall i :: 0 <= i < 5 ==> timeout[i] == Channel(0, 0, 0, 0, 2, false, 0)
    {
      tcfg0, tcfg1, tcon, prevTcon := 0, 0, {}, {};
      timeout := new Channel[5](_ => Channel(0, 0, 0, 0, 2, false, 0));
    }

    /** s3c2410_update_tcfg, at time now. */
    method UpdateTcfg(now: int, pclk: nat)
      requires Valid() && pclk > 0
      modifies timeout
      ensures Valid()
      ensures forall i: nat :: i < 5 ==>
                timeout[i] == Configured(old(timeout[i]), Interval(tcfg0, tcfg1, i), now, pclk)
    {
      hide Interval, Timeout;
      var i := 0;
      while i < 5
        invariant 0 <= i <= 5
        invariant forall k: nat :: k < i ==>
                    timeout[k] == Configured(old(timeout[k]), Interval(tcfg0, tcfg1, k), now, pclk)
        invariant forall k: nat :: i <= k < 5 ==> timeout[k] == old(timeout[k])
        invariant Valid()
      {
        IntervalRange(tcfg0, tcfg1, i);
        var t := timeout[i].(interval := Interval(tcfg0, tcfg1, i));
        if t.pending {
          t := Rearmed(t, now, pclk);
        }
        timeout[i] := t;
        i := i + 1;
      }
    }

    /** s3c2410_update_tcon, at time now. */
    method UpdateTcon(now: int, pclk: nat)
      requires Valid() && pclk > 0
      modifies this`prevTcon, timeout
      ensures Valid() && prevTcon == tcon
      ensures forall i: nat :: i < 5 ==>
                timeout[i] == Controlled(old(timeout[i]), old(prevTcon), tcon, i, now, pclk)
    {
      hide Timeout;
      var was := prevTcon;
      prevTcon := tcon;
      var i := 0;
      while i < 5
        invariant 0 <= i <= 5
        invariant forall k: nat :: k < i ==>
                    timeout[k] == Controlled(old(timeout[k]), was, tcon, k, now, pclk)
        invariant prevTcon == tcon
        invariant forall k: nat :: i <= k < 5 ==> timeout[k] == old(timeout[k])
        invariant Valid()
      {
        var t := timeout[i];
        if UpdateBit(i) in tcon {
          t := t.(tcnt := t.tcntb, tcmp := t.tcmpb);
        }
        if (StartBit(i) in was) != (StartBit(i) in tcon) {
          if StartBit(i) in tcon {
            t := Rearmed(t, now, pclk);
          } else {
            t := t.(pending := false);
          }
        }
        timeout[i] := t;
        i := i + 1;
      }
    }

    /** s3c2410_read_tcnt: a running count comes from the time left; one that is
        overdue reads as 0. */
    method ReadTcnt(index: nat, now: int, pclk: nat) returns (value: nat)
      requires Valid() && index < 5
      modifies timeout
      ensures Valid()
      ensures var t := old(timeout[index]);
              value == if StartBit(index) in tcon && t.pending then Count(t.expires - now, t.interval, pclk) else t.tcnt
      ensures timeout[index] == old(timeout[index]).(tcnt := timeout[index].tcnt)
      ensures forall i :: 0 <= i < 5 && i != index ==> timeout[i] == old(timeout[i])
    {
      hide Count;
      var t := timeout[index];
      if StartBit(index) !in tcon {
        return t.tcnt;
      }
      if t.pending {
        var left := t.expires - now;
        CountIs(left, t.interval, pclk);
        if left <= 0 {
          return 0;
        }
        timeout[index] := t.(tcnt := left * pclk / (MICRO * t.interval));
      }
      return timeout[index].tcnt;
    }

    /** s3c2410_timer_timeout: the interrupt is asserted; with reload the count starts
        again, otherwise the timer stops. */
    method TimerTimeout(index: nat, now: int, pclk: nat) returns (asserted: nat)
      requires Valid() && index < 5 && pclk > 0
      modifies this`tcon, timeout
      ensures Valid() && asserted == 10 + index
      ensures timeout[index] == Expired(old(timeout[index]), old(tcon), index, now, pclk)
      ensures forall i :: 0 <= i < 5 && i != index ==> timeout[i] == old(timeout[i])
      ensures tcon == if ReloadBit(index) in old(tcon) then old(tcon) else old(tcon) - {StartBit(index)}
    {
      hide Timeout;
      asserted := 10 + index;
      var t := timeout[index].(pending := false);
      if ReloadBit(index) in tcon {
        t := t.(tcnt := t.tcntb, tcmp := t.tcmpb);
      } else {
        tcon := tcon - {StartBit(index)};
        timeout[index] := t;
        return;
      }
      timeout[index] := Rearmed(t, now, pclk);
    }
  }

  /** A timer that a TCON write starts, read twice while it runs: the count is never
      above the one loaded, never rises, and stays within the bracket of CountTracks. */
  method Countdown(t: Timers, i: nat, start: int, first: int, second: int, pclk: nat) returns (a: nat, b: nat)
    requires t.Valid() && i < 5 && pclk > 0 && start <= first <= second
    requires StartBit(i) in t.tcon && StartBit(i) !in t.prevTcon
    modifies t`prevTcon, t.timeout
    ensures var ch := old(t.timeout[i]);
            var c, k, e := if UpdateBit(i) in t.tcon then ch.tcntb else ch.tcnt, MICRO * ch.interval, first - start;
            && b <= a <= c
            && (a > 0 ==> a * k <= c * k - e * pclk)
            && c * k - e * pclk < a * k + k + pclk
  {
    hide Timeout, Count, StartBit, UpdateBit;
    ghost var ch := t.timeout[i];
    ghost var c := if UpdateBit(i) in t.tcon then ch.tcntb else ch.tcnt;
    ghost var full := Timeout(c, ch.interval, pclk);
    t.UpdateTcon(start, pclk);
    a := t.ReadTcnt(i, first, pclk);
    b := t.ReadTcnt(i, second, pclk);
    CountTracks(c, ch.interval, pclk, first - start);
    CountAtStart(c, ch.interval, pclk);
    CountFalls(start + full, start, first, ch.interval, pclk);
    CountFalls(start + full, first, second, ch.interval, pclk);
    assert start + full - start == full && start + full - first == full - (first - start);
  }

  lemma IntervalRange(tcfg0: nat, tcfg1: nat, i: nat)
    requires i < 5
    ensures 2 <= Interval(tcfg0, tcfg1, i) <= 4096
  {}

  lemma CountIs(left: int, i: nat, pclk: nat)
    requires i > 0
    ensures Count(left, i, pclk) == if left <= 0 then 0 else left * pclk / (MICRO * i)
  {}
}
