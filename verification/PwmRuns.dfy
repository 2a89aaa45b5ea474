/** What a program sees of the PWM timers: the registers bit by bit, periodic expiries,
    counts after a reload, a reconfiguration and a stop. */
module PwmRuns {
  import opened Arith
  import opened Pwm

  // ------------------------------------------------------------ the register fields

  /** The start, update and reload bits of TCON. */
  lemma TconBits(i: nat)
    requires i < 5
    ensures (StartBit(i), UpdateBit(i), ReloadBit(i)) ==
            if i == 0 then (0, 1, 3) else if i == 1 then (8, 9, 11) else if i == 2 then (12, 13, 15)
            else if i == 3 then (16, 17, 19) else (20, 21, 22)
  {}

  /** Clocks per count: one more than the prescaler, which timers 0 and 1 share and the
      others share, times two to the power of one more than the timer's nibble of TCFG1,
      at most 3. */
  lemma IntervalIs(tcfg0: nat, tcfg1: nat, i: nat)
    requires i < 5
    ensures var pre, mux := if i < 2 then tcfg0 % 256 else tcfg0 / 256 % 256, tcfg1 / Pow2(4 * i) % 16;
            Interval(tcfg0, tcfg1, i) == (pre + 1) * Pow2(if mux < 3 then mux + 1 else 4)
  {
    NibblePlace(i);
    assert Pow2(1) == 2 && Pow2(2) == 4 && Pow2(3) == 8 && Pow2(4) == 16;
  }

  lemma {:induction false} NibblePlace(i: nat)
    ensures MuxPlace(i) == Pow2(4 * i)
  {
    if i > 0 {
      NibblePlace(i - 1);
      Pow2Add(4, 4 * i - 4);
      assert Pow2(4) == 16;
    }
  }

  // ------------------------------------------------------------ counting down

  /** The counts a and b read e and f microseconds after a start with count c, where one
      count takes i clocks: they do not rise, are never above the exact count, which is
      c - e * pclk / (10^6 * i), and below it by less than 1 + pclk / (10^6 * i). */
  predicate CountsDown(c: nat, i: nat, pclk: nat, e: nat, f: nat, a: nat, b: nat)
  {
    && b <= a <= c
    && (a > 0 ==> a * (MICRO * i) <= c * (MICRO * i) - e * pclk)
    && c * (MICRO * i) - e * pclk < a * (MICRO * i) + MICRO * i + pclk
    && (b > 0 ==> b * (MICRO * i) <= c * (MICRO * i) - f * pclk)
    && c * (MICRO * i) - f * pclk < b * (MICRO * i) + MICRO * i + pclk
  }

  lemma ReadsCountDown(c: nat, i: nat, pclk: nat, start: int, first: int, second: int)
    requires i > 0 && pclk > 0 && start <= first <= second
    ensures var end := start + Timeout(c, i, pclk);
            CountsDown(c, i, pclk, first - start, second - start,
                       Count(end - first, i, pclk), Count(end - second, i, pclk))
  {
    hide Timeout, Count;
    var full := Timeout(c, i, pclk);
    CountTracks(c, i, pclk, first - start);
    CountTracks(c, i, pclk, second - start);
    CountAtStart(c, i, pclk);
    CountFalls(start + full, start, first, i, pclk);
    CountFalls(start + full, first, second, i, pclk);
    assert start + full - start == full && start + full - first == full - (first - start);
    assert start + full - second == full - (second - start);
  }

  /** The counter of a pending timer, read twice. */
  method ReadTwice(t: Timers, i: nat, first: int, second: int, pclk: nat) returns (a: nat, b: nat)
    requires t.Valid() && i < 5 && pclk > 0 && StartBit(i) in t.tcon && t.timeout[i].pending
    modifies t.timeout
    ensures t.Valid()
    ensures var ch := old(t.timeout[i]);
            a == Count(ch.expires - first, ch.interval, pclk) && b == Count(ch.expires - second, ch.interval, pclk)
    ensures t.timeout[i] == old(t.timeout[i]).(tcnt := t.timeout[i].tcnt)
    ensures forall j :: 0 <= j < 5 && j != i ==> t.timeout[j] == old(t.timeout[j])
  {
    hide Count, StartBit;
    a := t.ReadTcnt(i, first, pclk);
    b := t.ReadTcnt(i, second, pclk);
  }

  // ------------------------------------------------------------ expiry

  /** The expiry of a timer with its reload bit set: its interrupt, and at once the next
      period, of the reloaded count; its start bit stays and its counter counts down from
      that count. */
  method Reload(t: Timers, i: nat, now: int, first: int, second: int, pclk: nat)
    returns (irq: nat, a: nat, b: nat)
    requires t.Valid() && i < 5 && pclk > 0 && now <= first <= second
    requires StartBit(i) in t.tcon && ReloadBit(i) in t.tcon
    modifies t`tcon, t.timeout
    ensures t.Valid() && irq == 10 + i && t.tcon == old(t.tcon)
    ensures var ch, d := old(t.timeout[i]), t.timeout[i];
            && d.pending && d.expires == now + MICRO * ch.tcntb * ch.interval / pclk
            && d.tcmp == ch.tcmpb && d.tcntb == ch.tcntb && d.tcmpb == ch.tcmpb && d.interval == ch.interval
            && CountsDown(ch.tcntb, ch.interval, pclk, first - now, second - now, a, b)
    ensures forall j :: 0 <= j < 5 && j != i ==> t.timeout[j] == old(t.timeout[j])
  {
    hide Count, StartBit, ReloadBit, CountsDown;
    ghost var ch := t.timeout[i];
    irq := t.TimerTimeout(i, now, pclk);
    a, b := ReadTwice(t, i, first, second, pclk);
    ReadsCountDown(ch.tcntb, ch.interval, pclk, now, first, second);
  }

  /** The sum of the first n delays. */
  function Delays(late: seq<nat>, n: nat): nat
    requires n <= |late|
  {
    if n == 0 then 0 else Delays(late, n - 1) + late[n - 1]
  }

  /** A periodic timer over any number of expiries, the callback of each of them run so
      many microseconds late: each raises the interrupt, the timer is always armed again,
      and the next expiry comes after so many whole periods and the delays so far. */
  method Periodic(t: Timers, i: nat, late: seq<nat>, pclk: nat) returns (irqs: seq<nat>)
    requires t.Valid() && i < 5 && pclk > 0
    requires StartBit(i) in t.tcon && ReloadBit(i) in t.tcon && t.timeout[i].pending
    modifies t`tcon, t.timeout
    ensures t.Valid() && t.tcon == old(t.tcon)
    ensures |irqs| == |late| && forall k :: 0 <= k < |irqs| ==> irqs[k] == 10 + i
    ensures var ch, d := old(t.timeout[i]), t.timeout[i];
            && d.pending && d.tcntb == ch.tcntb && d.interval == ch.interval
            && d.expires == ch.expires + |late| * (MICRO * ch.tcntb * ch.interval / pclk) + Delays(late, |late|)
    ensures forall j :: 0 <= j < 5 && j != i ==> t.timeout[j] == old(t.timeout[j])
  {
    hide StartBit, ReloadBit;
    irqs := [];
    ghost var ch := t.timeout[i];
    ghost var period := MICRO * ch.tcntb * ch.interval / pclk;
    var n := 0;
    while n < |late|
      invariant 0 <= n <= |late| && |irqs| == n && t.Valid() && t.tcon == old(t.tcon)
      invariant forall k :: 0 <= k < n ==> irqs[k] == 10 + i
      invariant t.timeout[i].pending && t.timeout[i].tcntb == ch.tcntb && t.timeout[i].interval == ch.interval
      invariant t.timeout[i].expires == ch.expires + n * period + Delays(late, n)
      invariant forall j :: 0 <= j < 5 && j != i ==> t.timeout[j] == old(t.timeout[j])
    {
      assert (n + 1) * period == n * period + period;
      var irq := t.TimerTimeout(i, t.timeout[i].expires + late[n], pclk);
      irqs := irqs + [irq];
      n := n + 1;
    }
  }

  /** The expiry of a one-shot timer: its interrupt, and it stops. Its counter does not
      read as 0 afterwards, but as what it was last read as, or started with. */
  method OneShot(t: Timers, i: nat, now: int, later: int, pclk: nat) returns (irq: nat, a: nat)
    requires t.Valid() && i < 5 && pclk > 0 && ReloadBit(i) !in t.tcon
    modifies t`tcon, t.timeout
    ensures t.Valid() && irq == 10 + i && t.tcon == old(t.tcon) - {StartBit(i)}
    ensures !t.timeout[i].pending && a == old(t.timeout[i].tcnt)
    ensures forall j :: 0 <= j < 5 && j != i ==> t.timeout[j] == old(t.timeout[j])
  {
    hide Count, StartBit, ReloadBit;
    irq := t.TimerTimeout(i, now, pclk);
    a := t.ReadTcnt(i, later, pclk);
  }

  // ------------------------------------------------------------ the control registers

  /** A TCFG write while the timer runs: it counts down anew, with the interval that the
      registers now give, from the count that was last read, or started with. */
  method Reconfigure(t: Timers, i: nat, now: int, first: int, second: int, pclk: nat) returns (a: nat, b: nat)
    requires t.Valid() && i < 5 && pclk > 0 && now <= first <= second
    requires StartBit(i) in t.tcon && t.timeout[i].pending
    modifies t.timeout
    ensures t.Valid()
    ensures var pre, mux := if i < 2 then t.tcfg0 % 256 else t.tcfg0 / 256 % 256, t.tcfg1 / Pow2(4 * i) % 16;
            var interval := (pre + 1) * Pow2(if mux < 3 then mux + 1 else 4);
            && t.timeout[i].interval == interval && t.timeout[i].pending
            && CountsDown(old(t.timeout[i].tcnt), interval, pclk, first - now, second - now, a, b)
  {
    hide Count, StartBit, CountsDown, Interval, Pow2;
    ghost var ch := t.timeout[i];
    IntervalIs(t.tcfg0, t.tcfg1, i);
    t.UpdateTcfg(now, pclk);
    a, b := ReadTwice(t, i, first, second, pclk);
    ReadsCountDown(ch.tcnt, t.timeout[i].interval, pclk, now, first, second);
  }

  /** A TCFG write leaves a timer that does not run stopped. */
  method ReconfigureIdle(t: Timers, i: nat, now: int, pclk: nat)
    requires t.Valid() && i < 5 && pclk > 0 && !t.timeout[i].pending
    modifies t.timeout
    ensures t.Valid() && t.timeout[i] == old(t.timeout[i]).(interval := t.timeout[i].interval)
  {
    hide Interval;
    t.UpdateTcfg(now, pclk);
  }

  /** A TCON write that clears the start bit stops the timer; its counter then reads as the
      one written to its buffer if the update bit is set, and else as before. */
  method Stop(t: Timers, i: nat, now: int, later: int, pclk: nat) returns (a: nat)
    requires t.Valid() && i < 5 && pclk > 0 && StartBit(i) !in t.tcon && StartBit(i) in t.prevTcon
    modifies t`prevTcon, t.timeout
    ensures t.Valid() && !t.timeout[i].pending
    ensures t.timeout[i].tcmp == if UpdateBit(i) in t.tcon then old(t.timeout[i].tcmpb) else old(t.timeout[i].tcmp)
    ensures a == if UpdateBit(i) in t.tcon then old(t.timeout[i].tcntb) else old(t.timeout[i].tcnt)
  {
    hide Count, StartBit, UpdateBit;
    t.UpdateTcon(now, pclk);
    a := t.ReadTcnt(i, later, pclk);
  }

  /** A TCON write that leaves the start bit as it was neither starts nor stops the timer,
      nor moves its expiry, even if the update bit is set. */
  method Unchanged(t: Timers, i: nat, now: int, pclk: nat)
    requires t.Valid() && i < 5 && pclk > 0 && (StartBit(i) in t.tcon <==> StartBit(i) in t.prevTcon)
    modifies t`prevTcon, t.timeout
    ensures t.Valid()
    ensures t.timeout[i].pending == old(t.timeout[i].pending) && t.timeout[i].expires == old(t.timeout[i].expires)
    ensures t.timeout[i].tcmp == if UpdateBit(i) in t.tcon then old(t.timeout[i].tcmpb) else old(t.timeout[i].tcmp)
    ensures t.timeout[i].tcnt == if UpdateBit(i) in t.tcon then old(t.timeout[i].tcntb) else old(t.timeout[i].tcnt)
  {
    hide StartBit, UpdateBit;
    t.UpdateTcon(now, pclk);
  }
}
