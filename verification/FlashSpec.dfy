/** The command machine of the SST29VF160 NOR flash, over traces of bus cycles. */
module FlashSpec {

  const SIZE: nat := 0x20_0000
  const SECTOR_SIZE: nat := 0x1000
  const BLOCK_SIZE: nat := 0x1_0000
  const VENDOR_ID: bv16 := 0x00bf
  const DEVICE_ID: bv16 := 0x2782

  /** The number of entries of the CFI table, which the code compares with byte
      offsets. */
  const CFI_SIZE: nat := 53

  datatype State =
    | Normal | Unlock1 | Unlock2 | Erase1 | Erase2 | Erase3
    | SoftwareExit1 | SoftwareExit2 | CfiExit1 | CfiExit2
    | SoftwareId | CfiQuery | WordProg

  datatype Chip = Chip(state: State, data: seq<bv8>)

  /** A halfword read or write as the state machine sees it. */
  datatype Cycle = Rd(offset: nat) | Wr(offset: nat, data: bv16)

  predicate InRange(cy: Cycle)
  {
    cy.offset + 2 <= SIZE
  }

  predicate Sound(c: Chip)
  {
    |c.data| == SIZE
  }

  // ------------------------------------------------------------ halfwords

  function Lo(w: bv16): bv8
  {
    (w & 0xff) as bv8
  }

  function Hi(w: bv16): bv8
  {
    (w >> 8) as bv8
  }

  function Join(lo: bv8, hi: bv8): (w: bv16)
    ensures Lo(w) == lo && Hi(w) == hi
  {
    ((hi as bv16) << 8) | (lo as bv16)
  }

  lemma JoinSplits(w: bv16)
    ensures Join(Lo(w), Hi(w)) == w
  {}

  lemma AndSplits(a: bv16, b: bv16)
    ensures Lo(a & b) == Lo(a) & Lo(b) && Hi(a & b) == Hi(a) & Hi(b)
  {}

  /** The little-endian halfword at an offset. */
  function Halfword(data: seq<bv8>, offset: nat): bv16
    requires offset + 2 <= |data|
  {
    Join(data[offset], data[offset + 1])
  }

  // ------------------------------------------------------------ one cycle

  /** A write of this value, in the low byte, to this halfword address. */
  predicate Key(offset: nat, data: bv16, word: nat, value: bv16)
  {
    offset / 2 == word && data & 0xff == value
  }

  function StateAfterRead(s: State): State
  {
    if s == SoftwareId || s == CfiQuery then s else Normal
  }

  function StateAfterWrite(s: State, offset: nat, data: bv16): State
  {
    match s
    case Normal => if Key(offset, data, 0x5555, 0xaa) then Unlock1 else Normal
    case Unlock1 => if Key(offset, data, 0x2aaa, 0x55) then Unlock2 else Normal
    case Unlock2 =>
      if Key(offset, data, 0x5555, 0xa0) then WordProg
      else if Key(offset, data, 0x5555, 0x80) then Erase1
      else if Key(offset, data, 0x5555, 0x90) then SoftwareId
      else if Key(offset, data, 0x5555, 0x98) then CfiQuery
      else Normal
    case Erase1 => if Key(offset, data, 0x5555, 0xaa) then Erase2 else Normal
    case Erase2 => if Key(offset, data, 0x2aaa, 0x55) then Erase3 else Normal
    case SoftwareExit1 => if Key(offset, data, 0x2aaa, 0x55) then SoftwareExit2 else SoftwareId
    case SoftwareExit2 => if Key(offset, data, 0x5555, 0xf0) then Normal else SoftwareId
    case CfiExit1 => if Key(offset, data, 0x2aaa, 0x55) then CfiExit2 else CfiQuery
    case CfiExit2 => if Key(offset, data, 0x5555, 0xf0) then Normal else CfiQuery
    case SoftwareId =>
      if Key(offset, data, 0x5555, 0xaa) then SoftwareExit1
      else if data & 0xff == 0xf0 then Normal
      else SoftwareId
    case CfiQuery =>
      if Key(offset, data, 0x5555, 0xaa) then CfiExit1
      else if data & 0xff == 0xf0 then Normal
      else CfiQuery
    case WordProg => Normal
    case Erase3 => Normal
  }

  /** Programming can only clear bits of one halfword. */
  function Programmed(data: seq<bv8>, offset: nat, w: bv16): (r: seq<bv8>)
    requires offset + 2 <= |data|
    ensures |r| == |data|
  {
    data[offset := data[offset] & Lo(w)][offset + 1 := data[offset + 1] & Hi(w)]
  }

  function Erased(data: seq<bv8>, at: nat, n: nat): (r: seq<bv8>)
    ensures |r| == |data|
    ensures forall i :: 0 <= i < |r| ==> r[i] == if at <= i < at + n then 0xff else data[i]
  {
    seq(|data|, i requires 0 <= i < |data| => if at <= i < at + n then 0xff else data[i])
  }

  /** What an erase command covers: the chip, the sector or the block. */
  function EraseLength(w: bv16): nat
  {
    if w & 0xff == 0x10 then SIZE
    else if w & 0xff == 0x30 then SECTOR_SIZE
    else if w & 0xff == 0x50 then BLOCK_SIZE
    else 0
  }

  function EraseStart(offset: nat, w: bv16): nat
  {
    if w & 0xff == 0x10 then 0
    else if w & 0xff == 0x30 then offset - offset % SECTOR_SIZE
    else offset - offset % BLOCK_SIZE
  }

  function DataAfterWrite(c: Chip, offset: nat, w: bv16): (r: seq<bv8>)
    requires Sound(c) && offset + 2 <= SIZE
    ensures |r| == SIZE
  {
    if c.state == WordProg then Programmed(c.data, offset, w)
    else if c.state == Erase3 then Erased(c.data, EraseStart(offset, w), EraseLength(w))
    else c.data
  }

  function Next(c: Chip, cy: Cycle): (d: Chip)
    requires Sound(c) && InRange(cy)
    ensures Sound(d)
  {
    match cy
    case Rd(_) => c.(state := StateAfterRead(c.state))
    case Wr(offset, w) => Chip(StateAfterWrite(c.state, offset, w), DataAfterWrite(c, offset, w))
  }

  predicate AllInRange(t: seq<Cycle>)
  {
    forall i :: 0 <= i < |t| ==> InRange(t[i])
  }

  function Run(c: Chip, t: seq<Cycle>): (d: Chip)
    requires Sound(c) && AllInRange(t)
    ensures Sound(d)
  {
    if t == [] then c else Next(Run(c, t[..|t| - 1]), t[|t| - 1])
  }

  // ------------------------------------------------------------ what a read returns

  /** The CFI query table. */
  function CfiData(k: nat): bv16
  {
    if k == 0x10 then 0x51 else if k == 0x11 then 0x52 else if k == 0x12 then 0x59
    else if k == 0x13 then 0x01 else if k == 0x14 then 0x07
    else if k == 0x1b then 0x27 else if k == 0x1c then 0x36
    else if k == 0x1f then 0x04 else if k == 0x21 then 0x04
    else if k == 0x23 then 0x01 else if k == 0x25 then 0x01 else if k == 0x26 then 0x01
    else if k == 0x27 then 0x15 else if k == 0x28 then 0x01
    else if k == 0x2c then 0x02 else if k == 0x2d then 0xff else if k == 0x2e then 0x01
    else if k == 0x2f then 0x10 else if k == 0x31 then 0x3f else if k == 0x34 then 0x01
    else 0
  }

  function Value(c: Chip, offset: nat): bv16
    requires Sound(c) && offset + 2 <= SIZE
  {
    if c.state == SoftwareId then (if offset / 2 % 2 == 1 then DEVICE_ID else VENDOR_ID)
    else if c.state == CfiQuery then (if offset < CFI_SIZE then CfiData(offset / 2) else 0)
    else Halfword(c.data, offset)
  }

  /** The CFI table has 53 halfwords, but the guard compares its length with a byte
      offset: an entry comes back from the query exactly when it is one of the
      first 27, or is zero anyway. */
  lemma CfiReadable(c: Chip, k: nat)
    requires Sound(c) && c.state == CfiQuery && k < CFI_SIZE
    ensures Value(c, 2 * k) == CfiData(k) <==> k <= 26 || CfiData(k) == 0
  {
    assert 2 * k / 2 == k;
  }

  /** The two halves of a long read do not depend on the order in which they are
      made, although the first may change the state. */
  lemma LongReadOrder(c: Chip, a: nat, b: nat)
    requires Sound(c) && a + 2 <= SIZE && b + 2 <= SIZE
    ensures Value(Next(c, Rd(a)), b) == Value(c, b)
    ensures Next(Next(c, Rd(a)), Rd(b)) == Next(Next(c, Rd(b)), Rd(a)) == Next(c, Rd(a))
  {}

  // ------------------------------------------------------------ what unlocks the array

  predicate Wrote(cy: Cycle, word: nat, value: bv16)
  {
    cy.Wr? && Key(cy.offset, cy.data, word, value)
  }

  /** The trace ends with the three-write program unlock. */
  predicate ProgramUnlocked(t: seq<Cycle>)
  {
    var n := |t|;
    n >= 3 && Wrote(t[n - 3], 0x5555, 0xaa) && Wrote(t[n - 2], 0x2aaa, 0x55) && Wrote(t[n - 1], 0x5555, 0xa0)
  }

  /** The trace ends with the five-write erase unlock. */
  predicate EraseUnlocked(t: seq<Cycle>)
  {
    var n := |t|;
    && n >= 5
    && Wrote(t[n - 5], 0x5555, 0xaa) && Wrote(t[n - 4], 0x2aaa, 0x55) && Wrote(t[n - 3], 0x5555, 0x80)
    && Wrote(t[n - 2], 0x5555, 0xaa) && Wrote(t[n - 1], 0x2aaa, 0x55)
  }

  /** From which state, and by which write, each armed state is entered. */
  lemma Entered(c: Chip, cy: Cycle)
    requires Sound(c) && InRange(cy)
    ensures Next(c, cy).state == Unlock1 <==> c.state == Normal && Wrote(cy, 0x5555, 0xaa)
    ensures Next(c, cy).state == Unlock2 <==> c.state == Unlock1 && Wrote(cy, 0x2aaa, 0x55)
    ensures Next(c, cy).state == WordProg <==> c.state == Unlock2 && Wrote(cy, 0x5555, 0xa0)
    ensures Next(c, cy).state == Erase1 <==> c.state == Unlock2 && Wrote(cy, 0x5555, 0x80)
    ensures Next(c, cy).state == Erase2 <==> c.state == Erase1 && Wrote(cy, 0x5555, 0xaa)
    ensures Next(c, cy).state == Erase3 <==> c.state == Erase2 && Wrote(cy, 0x2aaa, 0x55)
  {}

  /** The state after the first n cycles. */
  function StateAt(c: Chip, t: seq<Cycle>, n: nat): State
    requires Sound(c) && AllInRange(t) && n <= |t|
  {
    Run(c, t[..n]).state
  }

  /** The armed states, each entered from one state by one write. */
  predicate EnteredBy(c: Chip, t: seq<Cycle>, n: nat, s: State, from: State, word: nat, value: bv16)
    requires Sound(c) && AllInRange(t) && n <= |t|
  {
    StateAt(c, t, n) == s <==> n >= 1 && StateAt(c, t, n - 1) == from && Wrote(t[n - 1], word, value)
  }

  lemma EnteredAt(c: Chip, t: seq<Cycle>, n: nat)
    requires Sound(c) && c.state == Normal && AllInRange(t) && n <= |t|
    ensures EnteredBy(c, t, n, Unlock1, Normal, 0x5555, 0xaa)
    ensures EnteredBy(c, t, n, Unlock2, Unlock1, 0x2aaa, 0x55)
    ensures EnteredBy(c, t, n, WordProg, Unlock2, 0x5555, 0xa0)
    ensures EnteredBy(c, t, n, Erase1, Unlock2, 0x5555, 0x80)
    ensures EnteredBy(c, t, n, Erase2, Erase1, 0x5555, 0xaa)
    ensures EnteredBy(c, t, n, Erase3, Erase2, 0x2aaa, 0x55)
  {
    hide Wrote, Next;
    if n >= 1 {
      assert t[..n][..n - 1] == t[..n - 1];
      Entered(Run(c, t[..n - 1]), t[n - 1]);
    }
  }

  /** The chip is ready to program exactly when the last three cycles were the
      program unlock, begun in the normal state. */
  lemma ReadyToProgram(c: Chip, t: seq<Cycle>)
    requires Sound(c) && c.state == Normal && AllInRange(t)
    ensures Run(c, t).state == WordProg
            <==> ProgramUnlocked(t) && StateAt(c, t, |t| - 3) == Normal
  {
    hide Wrote, Run;
    var n := |t|;
    assert t[..n] == t;
    EnteredAt(c, t, n);
    EnteredAt(c, t, if n < 1 then 0 else n - 1);
    EnteredAt(c, t, if n < 2 then 0 else n - 2);
  }

  /** The chip is ready to erase exactly when the last five cycles were the erase
      unlock, begun in the normal state. */
  lemma ReadyToErase(c: Chip, t: seq<Cycle>)
    requires Sound(c) && c.state == Normal && AllInRange(t)
    ensures Run(c, t).state == Erase3
            <==> EraseUnlocked(t) && StateAt(c, t, |t| - 5) == Normal
  {
    hide Wrote, Run;
    var n := |t|;
    assert t[..n] == t;
    EnteredAt(c, t, n);
    EnteredAt(c, t, if n < 1 then 0 else n - 1);
    EnteredAt(c, t, if n < 2 then 0 else n - 2);
    EnteredAt(c, t, if n < 3 then 0 else n - 3);
    EnteredAt(c, t, if n < 4 then 0 else n - 4);
  }

  /** Over every trace from the normal state, a cycle changes the array only if it
      is a write right after a full program unlock or a full erase unlock; the
      change is then the AND of one halfword, or 0xff over the chip, one sector or
      one block. */
  lemma ChangesNeedUnlock(c: Chip, t: seq<Cycle>, cy: Cycle)
    requires Sound(c) && c.state == Normal && AllInRange(t) && InRange(cy)
    requires Next(Run(c, t), cy).data != Run(c, t).data
    ensures cy.Wr?
    ensures var was, now := Run(c, t).data, Next(Run(c, t), cy).data;
            || (ProgramUnlocked(t) && now == Programmed(was, cy.offset, cy.data))
            || (EraseUnlocked(t) && now == Erased(was, EraseStart(cy.offset, cy.data), EraseLength(cy.data)))
  {
    hide ProgramUnlocked, EraseUnlocked, Run;
    ReadyToProgram(c, t);
    ReadyToErase(c, t);
  }

  /** Sectors and blocks are aligned and inside the chip. */
  lemma EraseAligned(offset: nat, w: bv16)
    requires offset + 2 <= SIZE
    ensures EraseLength(w) > 0 ==>
              && EraseStart(offset, w) % EraseLength(w) == 0
              && EraseStart(offset, w) <= offset < EraseStart(offset, w) + EraseLength(w) <= SIZE
  {}

  // ------------------------------------------------------------ bits only go down, until an erase

  predicate EraseCovers(c: Chip, cy: Cycle, a: nat)
  {
    cy.Wr? && c.state == Erase3
    && EraseStart(cy.offset, cy.data) <= a < EraseStart(cy.offset, cy.data) + EraseLength(cy.data)
  }

  /** Every bit set in x is set in y. */
  predicate Below(x: bv8, y: bv8)
  {
    x & y == x
  }

  lemma BelowRefl(x: bv8)
    ensures Below(x, x)
  {}

  lemma BelowAnd(x: bv8, y: bv8)
    ensures Below(x & y, x)
  {}

  lemma BelowTrans(x: bv8, y: bv8, z: bv8)
    requires Below(x, y) && Below(y, z)
    ensures Below(x, z)
  {
    assert x & z == (x & y) & z == x & (y & z) == x & y == x;
  }

  /** One cycle sets a bit only by an erase over it, which leaves the byte 0xff. */
  lemma CycleOnlyClears(c: Chip, cy: Cycle, a: nat)
    requires Sound(c) && InRange(cy) && a < SIZE
    ensures if EraseCovers(c, cy, a) then Next(c, cy).data[a] == 0xff
            else Below(Next(c, cy).data[a], c.data[a])
  {
    hide Below;
    var d := Next(c, cy).data;
    BelowRefl(c.data[a]);
    if cy.Wr? && c.state == WordProg {
      BelowAnd(c.data[a], Lo(cy.data));
      BelowAnd(c.data[a], Hi(cy.data));
    }
  }

  /** Over any trace, a cleared bit stays cleared until an erase covers it. */
  lemma {:induction false} ClearedStays(c: Chip, t: seq<Cycle>, a: nat)
    requires Sound(c) && AllInRange(t) && a < SIZE
    requires forall i :: 0 <= i < |t| ==> !EraseCovers(Run(c, t[..i]), t[i], a)
    ensures Below(Run(c, t).data[a], c.data[a])
  {
    hide Below, EraseCovers, Next;
    if t == [] {
      BelowRefl(c.data[a]);
    } else {
      var n := |t| - 1;
      var s := t[..n];
      assert forall i :: 0 <= i < n ==> s[..i] == t[..i];
      ClearedStays(c, s, a);
      assert !EraseCovers(Run(c, t[..n]), t[n], a);
      CycleOnlyClears(Run(c, s), t[n], a);
      BelowTrans(Run(c, t).data[a], Run(c, s).data[a], c.data[a]);
    }
  }

  // ------------------------------------------------------------ the commands work

  function UnlockProgram(): seq<Cycle>
  {
    [Wr(0xaaaa, 0xaa), Wr(0x5554, 0x55), Wr(0xaaaa, 0xa0)]
  }

  function UnlockErase(): seq<Cycle>
  {
    [Wr(0xaaaa, 0xaa), Wr(0x5554, 0x55), Wr(0xaaaa, 0x80), Wr(0xaaaa, 0xaa), Wr(0x5554, 0x55)]
  }

  lemma RunConcat(c: Chip, t: seq<Cycle>, cy: Cycle)
    requires Sound(c) && AllInRange(t) && InRange(cy)
    ensures AllInRange(t + [cy]) && Run(c, t + [cy]) == Next(Run(c, t), cy)
  {
    assert (t + [cy])[..|t|] == t;
  }

  lemma RunNothing(c: Chip)
    requires Sound(c)
    ensures Run(c, []) == c
  {}

  lemma RunThree(c: Chip, v: Cycle, w: Cycle, x: Cycle)
    requires Sound(c) && InRange(v) && InRange(w) && InRange(x)
    ensures Run(c, [v, w, x]) == Next(Next(Next(c, v), w), x)
  {
    hide Next, Run;
    RunNothing(c);
    RunConcat(c, [], v);
    assert [] + [v] == [v];
    RunConcat(c, [v], w);
    assert [v] + [w] == [v, w];
    RunConcat(c, [v, w], x);
    assert [v, w] + [x] == [v, w, x];
  }

  lemma RunFive(c: Chip, v: Cycle, w: Cycle, x: Cycle, y: Cycle, z: Cycle)
    requires Sound(c) && InRange(v) && InRange(w) && InRange(x) && InRange(y) && InRange(z)
    ensures Run(c, [v, w, x, y, z]) == Next(Next(Run(c, [v, w, x]), y), z)
  {
    hide Next, Run;
    RunConcat(c, [v, w, x], y);
    assert [v, w, x] + [y] == [v, w, x, y];
    RunConcat(c, [v, w, x, y], z);
    assert [v, w, x, y] + [z] == [v, w, x, y, z];
  }

  /** From the normal state the unlock and a write program one halfword. */
  lemma ProgramWorks(c: Chip, offset: nat, w: bv16)
    requires Sound(c) && c.state == Normal && offset + 2 <= SIZE
    ensures var t := UnlockProgram() + [Wr(offset, w)];
            AllInRange(t) && Run(c, t) == Chip(Normal, Programmed(c.data, offset, w))
  {
    hide Run;
    var u := UnlockProgram();
    RunThree(c, u[0], u[1], u[2]);
    RunConcat(c, u, Wr(offset, w));
    assert u == [u[0], u[1], u[2]];
  }

  /** From the normal state the unlock and an erase command erase what it covers. */
  lemma EraseWorks(c: Chip, offset: nat, w: bv16)
    requires Sound(c) && c.state == Normal && offset + 2 <= SIZE
    ensures var t := UnlockErase() + [Wr(offset, w)];
            AllInRange(t) && Run(c, t) == Chip(Normal, Erased(c.data, EraseStart(offset, w), EraseLength(w)))
  {
    hide Run;
    var u := UnlockErase();
    RunThree(c, u[0], u[1], u[2]);
    RunFive(c, u[0], u[1], u[2], u[3], u[4]);
    RunConcat(c, u, Wr(offset, w));
    assert u == [u[0], u[1], u[2], u[3], u[4]];
  }

  /** Any value can be stored: erase the sector of the halfword, then program it;
      the rest of the sector reads 0xff and nothing outside it changes. */
  lemma EraseThenProgram(c: Chip, offset: nat, w: bv16)
    requires Sound(c) && c.state == Normal && offset % 2 == 0 && offset + 2 <= SIZE
    ensures var e := UnlockErase() + [Wr(offset, 0x30)];
            var p := UnlockProgram() + [Wr(offset, w)];
            && AllInRange(e) && AllInRange(p)
            && var d := Run(Run(c, e), p);
            && d.state == Normal && Value(d, offset) == w
            && (forall i :: 0 <= i < SIZE && i != offset && i != offset + 1 ==>
                  d.data[i] == if i / SECTOR_SIZE == offset / SECTOR_SIZE then 0xff else c.data[i])
  {
    hide Run, Join, Lo, Hi;
    var e := UnlockErase() + [Wr(offset, 0x30)];
    EraseWorks(c, offset, 0x30);
    ProgramWorks(Run(c, e), offset, w);
    JoinSplits(w);
    AllOnes(Lo(w));
    AllOnes(Hi(w));
  }

  lemma AllOnes(x: bv8)
    ensures 0xff & x == x
  {}

  /** Two writes of 0xf0 bring the chip back to the normal state with the array
      unchanged from every state but the one that is about to program. */
  lemma TwoResetsRecover(c: Chip, a: nat, b: nat)
    requires Sound(c) && c.state != WordProg && a + 2 <= SIZE && b + 2 <= SIZE
    ensures Next(Next(c, Wr(a, 0xf0)), Wr(b, 0xf0)) == Chip(Normal, c.data)
  {
    hide Erased;
    if c.state == Erase3 {
      ErasesNothing(c.data, EraseStart(a, 0xf0));
    }
  }

  lemma ErasesNothing(data: seq<bv8>, at: nat)
    ensures Erased(data, at, 0) == data
  {}

  // ------------------------------------------------------------ the commands, byte by byte

  /** Unlocked and written 0x10, the chip is all ones. */
  lemma ChipErase(c: Chip, offset: nat, w: bv16)
    requires Sound(c) && c.state == Normal && offset + 2 <= 0x20_0000 && w & 0xff == 0x10
    ensures AllInRange(UnlockErase() + [Wr(offset, w)])
    ensures var d := Run(c, UnlockErase() + [Wr(offset, w)]);
            && d.state == Normal && |d.data| == 0x20_0000
            && forall i :: 0 <= i < 0x20_0000 ==> d.data[i] == 0xff
  {
    hide Run;
    EraseWorks(c, offset, w);
  }

  /** Written 0x30, the 4 KB sector of the address is all ones and the rest as before. */
  lemma SectorErase(c: Chip, offset: nat, w: bv16)
    requires Sound(c) && c.state == Normal && offset + 2 <= 0x20_0000 && w & 0xff == 0x30
    ensures AllInRange(UnlockErase() + [Wr(offset, w)])
    ensures var d := Run(c, UnlockErase() + [Wr(offset, w)]);
            && d.state == Normal && |d.data| == 0x20_0000
            && forall i :: 0 <= i < 0x20_0000 ==>
                 d.data[i] == if i / 0x1000 == offset / 0x1000 then 0xff else c.data[i]
  {
    hide Run;
    EraseWorks(c, offset, w);
  }

  /** Written 0x50, the 64 KB block of the address is all ones and the rest as before. */
  lemma BlockErase(c: Chip, offset: nat, w: bv16)
    requires Sound(c) && c.state == Normal && offset + 2 <= 0x20_0000 && w & 0xff == 0x50
    ensures AllInRange(UnlockErase() + [Wr(offset, w)])
    ensures var d := Run(c, UnlockErase() + [Wr(offset, w)]);
            && d.state == Normal && |d.data| == 0x20_0000
            && forall i :: 0 <= i < 0x20_0000 ==>
                 d.data[i] == if i / 0x1_0000 == offset / 0x1_0000 then 0xff else c.data[i]
  {
    hide Run;
    EraseWorks(c, offset, w);
  }

  /** Any other command after the unlock leaves the array as it was. */
  lemma NoErase(c: Chip, offset: nat, w: bv16)
    requires Sound(c) && c.state == Normal && offset + 2 <= 0x20_0000
    requires w & 0xff != 0x10 && w & 0xff != 0x30 && w & 0xff != 0x50
    ensures AllInRange(UnlockErase() + [Wr(offset, w)])
    ensures Run(c, UnlockErase() + [Wr(offset, w)]) == c
  {
    hide Run;
    EraseWorks(c, offset, w);
    ErasesNothing(c.data, EraseStart(offset, w));
  }

  /** The program command keeps of the byte at the address what the low byte of the data
      has, of the next one what the high byte has, and every other byte. */
  lemma ProgramBits(c: Chip, offset: nat, w: bv16)
    requires Sound(c) && c.state == Normal && offset + 2 <= 0x20_0000
    ensures AllInRange(UnlockProgram() + [Wr(offset, w)])
    ensures var d := Run(c, UnlockProgram() + [Wr(offset, w)]);
            && d.state == Normal && |d.data| == 0x20_0000
            && d.data[offset] == c.data[offset] & ((w & 0xff) as bv8)
            && d.data[offset + 1] == c.data[offset + 1] & ((w >> 8) as bv8)
            && forall i :: 0 <= i < 0x20_0000 && i != offset && i != offset + 1 ==> d.data[i] == c.data[i]
  {
    hide Run;
    ProgramWorks(c, offset, w);
  }

  function UnlockId(): seq<Cycle>
  {
    [Wr(0xaaaa, 0xaa), Wr(0x5554, 0x55), Wr(0xaaaa, 0x90)]
  }

  function UnlockCfi(): seq<Cycle>
  {
    [Wr(0xaaaa, 0xaa), Wr(0x5554, 0x55), Wr(0xaaaa, 0x98)]
  }

  /** After the identify command even words read as the vendor and odd ones as the device,
      for as long as the chip is only read. */
  lemma Identifies(c: Chip, a: nat, b: nat)
    requires Sound(c) && c.state == Normal && a + 2 <= 0x20_0000 && b + 2 <= 0x20_0000
    ensures AllInRange(UnlockId())
    ensures var d := Run(c, UnlockId());
            && d.data == c.data && Next(d, Rd(b)) == d
            && Value(d, a) == if a / 2 % 2 == 0 then 0x00bf else 0x2782
  {
    hide Run;
    var u := UnlockId();
    RunThree(c, u[0], u[1], u[2]);
    assert u == [u[0], u[1], u[2]];
  }

  /** After the query command the chip reads as "QRY" from word 0x10 on, two more entries of
      the CFI table, and zeros everywhere else. */
  lemma Queries(c: Chip, a: nat, b: nat)
    requires Sound(c) && c.state == Normal && a + 2 <= 0x20_0000 && b + 2 <= 0x20_0000
    ensures AllInRange(UnlockCfi())
    ensures var d := Run(c, UnlockCfi());
            && d.data == c.data && Next(d, Rd(b)) == d
            && Value(d, a) == if a / 2 == 0x10 then 0x51 else if a / 2 == 0x11 then 0x52 else if a / 2 == 0x12 then 0x59
                              else if a / 2 == 0x13 then 1 else if a / 2 == 0x14 then 7 else 0
  {
    hide Run;
    var u := UnlockCfi();
    RunThree(c, u[0], u[1], u[2]);
    assert u == [u[0], u[1], u[2]];
  }

  /** Either mode is left by writing 0xf0 anywhere, or by the three writes of the exit
      sequence, the last of which counts at its own address only; the array is what it
      was, and reads as little-endian halfwords again. */
  lemma Leaves(c: Chip, offset: nat)
    requires Sound(c) && (c.state == SoftwareId || c.state == CfiQuery) && offset + 2 <= 0x20_0000
    ensures Next(c, Wr(offset, 0xf0)) == Chip(Normal, c.data)
    ensures var d := Next(Next(c, Wr(0xaaaa, 0xaa)), Wr(0x5554, 0x55));
            Next(d, Wr(offset, 0xf0)) == if offset / 2 == 0x5555 then Chip(Normal, c.data) else c
    ensures Value(Chip(Normal, c.data), offset) ==
            ((c.data[offset + 1] as bv16) << 8) | (c.data[offset] as bv16)
  {}

  /** A read in the middle of any command sequence gives it up. */
  lemma ReadAborts(c: Chip, offset: nat)
    requires Sound(c) && c.state != SoftwareId && c.state != CfiQuery && offset + 2 <= 0x20_0000
    ensures Next(c, Rd(offset)) == Chip(Normal, c.data) && Value(c, offset) == Value(Chip(Normal, c.data), offset)
  {}

  /** A wrong write gives up an unlock, a wrong write in an exit sequence leads back to the
      mode it should leave, and in the normal state and the two modes it does nothing. */
  lemma WrongWrite(c: Chip, offset: nat, w: bv16)
    requires Sound(c) && offset + 2 <= 0x20_0000
    ensures c.state in {Unlock1, Erase2} && !(offset / 2 == 0x2aaa && w & 0xff == 0x55) ==>
              Next(c, Wr(offset, w)) == Chip(Normal, c.data)
    ensures c.state == Erase1 && !(offset / 2 == 0x5555 && w & 0xff == 0xaa) ==>
              Next(c, Wr(offset, w)) == Chip(Normal, c.data)
    ensures c.state == Unlock2 && !(offset / 2 == 0x5555 && w & 0xff in {0xa0, 0x80, 0x90, 0x98}) ==>
              Next(c, Wr(offset, w)) == Chip(Normal, c.data)
    ensures c.state in {SoftwareId, CfiQuery} && !(offset / 2 == 0x5555 && w & 0xff == 0xaa) && w & 0xff != 0xf0 ==>
              Next(c, Wr(offset, w)) == c
    ensures c.state == Normal && !(offset / 2 == 0x5555 && w & 0xff == 0xaa) ==> Next(c, Wr(offset, w)) == c
    ensures c.state == SoftwareExit1 && !(offset / 2 == 0x2aaa && w & 0xff == 0x55) ==>
              Next(c, Wr(offset, w)) == Chip(SoftwareId, c.data)
    ensures c.state == SoftwareExit2 && !(offset / 2 == 0x5555 && w & 0xff == 0xf0) ==>
              Next(c, Wr(offset, w)) == Chip(SoftwareId, c.data)
    ensures c.state == CfiExit1 && !(offset / 2 == 0x2aaa && w & 0xff == 0x55) ==>
              Next(c, Wr(offset, w)) == Chip(CfiQuery, c.data)
    ensures c.state == CfiExit2 && !(offset / 2 == 0x5555 && w & 0xff == 0xf0) ==>
              Next(c, Wr(offset, w)) == Chip(CfiQuery, c.data)
  {}

  // ------------------------------------------------------------ the geometry in the CFI table

  /** Two entries of the table as a little-endian number. */
  function CfiPair(k: nat): nat
  {
    BytePair(CfiData(k), CfiData(k + 1))
  }

  function BytePair(lo: bv16, hi: bv16): nat
  {
    lo as nat + 256 * hi as nat
  }

  lemma CfiRegions()
    ensures CfiPair(0x2d) == 0x1ff && CfiPair(0x2f) == 0x10
    ensures CfiPair(0x31) == 0x3f && CfiPair(0x33) == 0x100
  {
    assert CfiData(0x2d) == 0xff && CfiData(0x2e) == 1 && CfiData(0x2f) == 0x10 && CfiData(0x30) == 0;
    assert CfiData(0x31) == 0x3f && CfiData(0x32) == 0 && CfiData(0x33) == 0 && CfiData(0x34) == 1;
    hide CfiData;
  }

  /** The size of the chip, 2 to the power 21, and its sectors are what the table says; its
      region of blocks, however, covers twice the chip. */
  lemma CfiGeometry()
    ensures CfiData(0x27) == 21 && CfiData(0x2c) == 2
    ensures (CfiPair(0x2d) + 1) * (256 * CfiPair(0x2f)) == SIZE && 256 * CfiPair(0x2f) == SECTOR_SIZE
    ensures (CfiPair(0x31) + 1) * (256 * CfiPair(0x33)) == 2 * SIZE && 256 * CfiPair(0x33) == BLOCK_SIZE
  {
    assert CfiData(0x27) == 21 && CfiData(0x2c) == 2;
    hide CfiPair, CfiData;
    CfiRegions();
  }
}
