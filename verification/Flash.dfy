/** The NOR flash device: its array, its state, and the accesses of each width. */
module Flash {

  import opened FlashSpec

  /** A byte on the half of the bus that its address selects. */
  function Lane(offset: nat, data: bv32): bv16
  {
    if offset % 2 == 1 then ((data & 0xff) << 8) as bv16 else (data & 0xff) as bv16
  }

  function Low(data: bv32): bv16
  {
    (data & 0xffff) as bv16
  }

  function High(data: bv32): bv16
  {
    (data >> 16) as bv16
  }

  /** A byte write is not read-modify-write: programming one byte clears the other
      byte of its halfword. */
  lemma ByteProgramClearsNeighbour(c: Chip, offset: nat, data: bv32)
    requires Sound(c) && c.state == WordProg && offset < SIZE
    ensures var at := offset - offset % 2;
            var d := Next(c, Wr(at, Lane(offset, data)));
            && d.data[if offset % 2 == 0 then at + 1 else at] == 0
            && d.data[offset] == c.data[offset] & ((data & 0xff) as bv8)
  {
    LaneHalves(offset, data);
    var at := offset - offset % 2;
    Cleared(c.data[at]);
    Cleared(c.data[at + 1]);
  }

  lemma LaneHalves(offset: nat, data: bv32)
    ensures offset % 2 == 0 ==> Lo(Lane(offset, data)) == (data & 0xff) as bv8 && Hi(Lane(offset, data)) == 0
    ensures offset % 2 == 1 ==> Hi(Lane(offset, data)) == (data & 0xff) as bv8 && Lo(Lane(offset, data)) == 0
  {}

  lemma Cleared(x: bv8)
    ensures x & 0 == 0
  {}

  class Device {
    const data: array<bv8>
    var state: State

    function View(): Chip
      reads this, data
    {
      Chip(state, data[..])
    }

    predicate Valid()
      reads this, data
    {
      data.Length == SIZE
    }

    constructor (image: seq<bv8>)
      requires |image| == SIZE
      ensures Valid() && fresh(data) && View() == Chip(Normal, image)
    {
      state := Normal;
      data := new bv8[SIZE](i requires 0 <= i < SIZE => image[i]);
    }

    method StateReset()
      modifies this`state
      ensures state == Normal
    {
      if state != Normal {
        state := Normal;
      }
    }

    method GetHalfword(offset: nat) returns (value: bv16)
      requires Valid() && offset + 2 <= SIZE
      modifies this`state
      ensures value == Value(old(View()), offset)
      ensures View() == Next(old(View()), Rd(offset))
    {
      match state {
        case SoftwareId =>
          if offset / 2 % 2 == 1 {
            value := DEVICE_ID;
          } else {
            value := VENDOR_ID;
          }
        case CfiQuery =>
          if offset < CFI_SIZE {
            value := CfiData(offset / 2);
          } else {
            value := 0;
          }
        case _ =>
          StateReset();
          value := Join(data[offset], data[offset + 1]);
      }
    }

    /** memset(datap + at, 0xff, n). */
    method Fill(at: nat, n: nat)
      requires Valid() && at + n <= SIZE
      modifies data
      ensures data[..] == Erased(old(data[..]), at, n)
    {
      var i := at;
      while i < at + n
        invariant at <= i <= at + n
        invariant forall k :: at <= k < i ==> data[k] == 0xff
        invariant forall k :: 0 <= k < SIZE && !(at <= k < i) ==> data[k] == old(data[k])
      {
        data[i] := 0xff;
        i := i + 1;
      }
    }

    method Erase(offset: nat, w: bv16)
      requires Valid() && offset + 2 <= SIZE && state == Erase3
      modifies this`state, data
      ensures View() == Next(old(View()), Wr(offset, w))
    {
      EraseAligned(offset, w);
      ErasesNothing(data[..], EraseStart(offset, w));
      if w & 0xff == 0x10 {
        Fill(0, SIZE);
      } else if w & 0xff == 0x30 {
        Fill(offset - offset % SECTOR_SIZE, SECTOR_SIZE);
      } else if w & 0xff == 0x50 {
        Fill(offset - offset % BLOCK_SIZE, BLOCK_SIZE);
      }
      StateReset();
    }

    method Program(offset: nat, w: bv16)
      requires Valid() && offset + 2 <= SIZE && state == WordProg
      modifies this`state, data
      ensures View() == Next(old(View()), Wr(offset, w))
    {
      var temp := Join(data[offset], data[offset + 1]);
      AndSplits(temp, w);
      data[offset], data[offset + 1] := Lo(temp & w), Hi(temp & w);
      StateReset();
    }

    method PutHalfword(offset: nat, w: bv16)
      requires Valid() && offset + 2 <= SIZE
      modifies this`state, data
      ensures View() == Next(old(View()), Wr(offset, w))
    {
      match state {
        case Normal =>
          if offset / 2 == 0x5555 && w & 0xff == 0xaa {
            state := Unlock1;
          }
        case Unlock1 =>
          if offset / 2 == 0x2aaa && w & 0xff == 0x55 {
            state := Unlock2;
          } else {
            StateReset();
          }
        case Unlock2 =>
          if offset / 2 == 0x5555 {
            if w & 0xff == 0xa0 {
              state := WordProg;
            } else if w & 0xff == 0x80 {
              state := Erase1;
            } else if w & 0xff == 0x90 {
              state := SoftwareId;
            } else if w & 0xff == 0x98 {
              state := CfiQuery;
            } else {
              StateReset();
            }
          } else {
            StateReset();
          }
        case Erase1 =>
          if offset / 2 == 0x5555 && w & 0xff == 0xaa {
            state := Erase2;
          } else {
            StateReset();
          }
        case Erase2 =>
          if offset / 2 == 0x2aaa && w & 0xff == 0x55 {
            state := Erase3;
          } else {
            StateReset();
          }
        case SoftwareExit1 =>
          if offset / 2 == 0x2aaa && w & 0xff == 0x55 {
            state := SoftwareExit2;
          } else {
            state := SoftwareId;
          }
        case SoftwareExit2 =>
          if offset / 2 == 0x5555 && w & 0xff == 0xf0 {
            StateReset();
          } else {
            state := SoftwareId;
          }
        case CfiExit1 =>
          if offset / 2 == 0x2aaa && w & 0xff == 0x55 {
            state := CfiExit2;
          } else {
            state := CfiQuery;
          }
        case CfiExit2 =>
          if offset / 2 == 0x5555 && w & 0xff == 0xf0 {
            StateReset();
          } else {
            state := CfiQuery;
          }
        case SoftwareId =>
          if offset / 2 == 0x5555 && w & 0xff == 0xaa {
            state := SoftwareExit1;
          } else if w & 0xff == 0xf0 {
            StateReset();
          }
        case CfiQuery =>
          if offset / 2 == 0x5555 && w & 0xff == 0xaa {
            state := CfiExit1;
          } else if w & 0xff == 0xf0 {
            StateReset();
          }
        case WordProg => Program(offset, w);
        case Erase3 => Erase(offset, w);
      }
    }

    // ---------------------------------------------------------- the three widths

    method ReadB(offset: nat) returns (value: bv8)
      requires Valid() && offset < SIZE
      modifies this`state
      ensures var w := Value(old(View()), offset - offset % 2);
              value == if offset % 2 == 1 then Hi(w) else Lo(w)
      ensures View() == Next(old(View()), Rd(offset - offset % 2))
    {
      if state == Normal {
        value := data[offset];
      } else {
        var temp := GetHalfword(offset - offset % 2);
        value := if offset % 2 == 1 then Hi(temp) else Lo(temp);
      }
    }

    method ReadW(offset: nat) returns (value: bv16)
      requires Valid() && offset + 2 <= SIZE
      modifies this`state
      ensures value == Value(old(View()), offset)
      ensures View() == Next(old(View()), Rd(offset))
    {
      if state == Normal {
        value := Join(data[offset], data[offset + 1]);
      } else {
        value := GetHalfword(offset);
      }
    }

    method ReadL(offset: nat) returns (value: bv32)
      requires Valid() && offset + 4 <= SIZE
      modifies this`state
      ensures High(value) == Value(old(View()), offset + 2) && Low(value) == Value(old(View()), offset)
      ensures View() == Next(old(View()), Rd(offset))
    {
      var high, low: bv16;
      if state == Normal {
        high, low := Join(data[offset + 2], data[offset + 3]), Join(data[offset], data[offset + 1]);
      } else {
        LongReadOrder(View(), offset + 2, offset);
        high := GetHalfword(offset + 2);
        low := GetHalfword(offset);
      }
      JoinsLong(high, low);
      value := (high as bv32 << 16) | low as bv32;
    }

    method WriteB(offset: nat, value: bv32)
      requires Valid() && offset < SIZE
      modifies this`state, data
      ensures View() == Next(old(View()), Wr(offset - offset % 2, Lane(offset, value)))
    {
      var b := value & 0xff;
      PutHalfword(offset - offset % 2, if offset % 2 == 1 then (b << 8) as bv16 else b as bv16);
    }

    method WriteW(offset: nat, value: bv32)
      requires Valid() && offset + 2 <= SIZE
      modifies this`state, data
      ensures View() == Next(old(View()), Wr(offset, Low(value)))
    {
      PutHalfword(offset, Low(value));
    }

    /** The upper halfword is written first. */
    method WriteL(offset: nat, value: bv32)
      requires Valid() && offset + 4 <= SIZE
      modifies this`state, data
      ensures View() == Next(Next(old(View()), Wr(offset + 2, High(value))), Wr(offset, Low(value)))
    {
      PutHalfword(offset + 2, High(value));
      PutHalfword(offset, Low(value));
    }
  }

  lemma JoinsLong(high: bv16, low: bv16)
    ensures High((high as bv32 << 16) | low as bv32) == high
    ensures Low((high as bv32 << 16) | low as bv32) == low
  {}

  /** A long read is the four bytes of its halfwords, the first in the lowest place. */
  lemma LongIsFourBytes(value: bv32, data: seq<bv8>, offset: nat)
    requires offset + 4 <= |data|
    requires High(value) == Halfword(data, offset + 2) && Low(value) == Halfword(data, offset)
    ensures value == ((data[offset + 3] as bv32) << 24) | ((data[offset + 2] as bv32) << 16)
                     | ((data[offset + 1] as bv32) << 8) | (data[offset] as bv32)
  {
    FourBytesJoin(value, data[offset], data[offset + 1], data[offset + 2], data[offset + 3]);
  }

  lemma FourBytesJoin(value: bv32, a: bv8, b: bv8, c: bv8, d: bv8)
    requires High(value) == Join(c, d) && Low(value) == Join(a, b)
    ensures value == ((d as bv32) << 24) | ((c as bv32) << 16) | ((b as bv32) << 8) | (a as bv32)
  {}

  /** A 32-bit write to a chip that is ready to program programs its upper halfword only:
      the first of its two cycles uses up the unlock. */
  lemma LongProgramsUpper(c: Chip, offset: nat, value: bv32)
    requires Sound(c) && c.state == WordProg && offset + 4 <= SIZE
    ensures var d := Next(Next(c, Wr(offset + 2, High(value))), Wr(offset, Low(value)));
            && d.data[offset + 2] == c.data[offset + 2] & (((value >> 16) & 0xff) as bv8)
            && d.data[offset + 3] == c.data[offset + 3] & ((value >> 24) as bv8)
            && forall i :: 0 <= i < SIZE && i != offset + 2 && i != offset + 3 ==> d.data[i] == c.data[i]
  {
    UpperHalves(value);
  }

  lemma UpperHalves(value: bv32)
    ensures Lo(High(value)) == ((value >> 16) & 0xff) as bv8 && Hi(High(value)) == (value >> 24) as bv8
  {}
}
