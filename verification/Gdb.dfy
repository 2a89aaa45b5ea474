/** The GDB stub's buffers: sending and receiving packets, and hex dumps. */
module Gdb {
  import opened Bytes
  import opened GdbSpec

  /** memtohex: 2 * |mem| digits and a terminator. */
  method MemToHex(buf: array<byte>, mem: seq<byte>)
    requires buf.Length >= 2 * |mem| + 1
    modifies buf
    ensures buf[..2 * |mem|] == Dump(mem) && buf[2 * |mem|] == 0
    ensures forall k :: 2 * |mem| < k < buf.Length ==> buf[k] == old(buf[k])
  {
    var i, q := 0, 0;
    while i < |mem|
      invariant 0 <= i <= |mem| && q == 2 * i
      invariant buf[..q] == Dump(mem[..i])
      invariant forall k :: q <= k < buf.Length ==> buf[k] == old(buf[k])
    {
      var c: nat := mem[i];
      buf[q] := ToHex(c / 16);
      q := q + 1;
      buf[q] := ToHex(c % 16);
      q := q + 1;
      assert mem[..i + 1][..i] == mem[..i];
      assert buf[..q] == buf[..2 * i] + [ToHex(c / 16), ToHex(c % 16)];
      i := i + 1;
    }
    buf[q] := 0;
    assert mem[..i] == mem;
  }

  /** hextomem: len pairs of digits. */
  method HexToMem(mem: array<byte>, buf: seq<byte>, len: nat)
    requires len <= mem.Length && 2 * len <= |buf|
    modifies mem
    ensures mem[..len] == Undump(buf, len)
    ensures forall k :: len <= k < mem.Length ==> mem[k] == old(mem[k])
  {
    var i := 0;
    while i < len
      invariant 0 <= i <= len
      invariant mem[..i] == Undump(buf, i)
      invariant forall k :: len <= k < mem.Length ==> mem[k] == old(mem[k])
    {
      mem[i] := FromHex(buf[2 * i]) * 16 + FromHex(buf[2 * i + 1]);
      assert mem[..i + 1] == mem[..i] + [mem[i]];
      i := i + 1;
    }
  }

  /** The sum of the bytes of a buffer as signed chars. */
  method CharSum(buf: array<byte>, from: nat, n: nat) returns (csum: int)
    requires from + n <= buf.Length
    ensures csum == Sum(buf[from..from + n])
  {
    csum := 0;
    var i := 0;
    while i < n
      invariant 0 <= i <= n
      invariant csum == Sum(buf[from..from + i])
    {
      csum := csum + Signed(buf[from + i]);
      assert buf[from..from + i + 1][..i] == buf[from..from + i];
      i := i + 1;
    }
  }

  class GdbState {
    var state: RSState
    const lineBuf: array<byte>
    var lineBufIndex: nat
    var lineCsum: nat
    const lastPacket: array<byte>
    var lastPacketLen: nat
    /** What the connection still delivers, what went out, and the packets that were
        handed to the packet handler. */
    var input: seq<byte>
    var output: seq<byte>
    var packets: seq<seq<byte>>

    predicate Valid()
      reads this, lineBuf
    {
      lineBuf.Length == 4096 && lastPacket.Length == 4100 && lineBuf != lastPacket &&
      lineBufIndex <= LINE_MAX && Inv(View())
    }

    function View(): Stub
      requires lineBuf.Length == 4096 && lineBufIndex <= LINE_MAX
      reads this, lineBuf
    {
      Stub(state, lineBuf[..lineBufIndex], lineCsum, packets, output, input)
    }

    constructor (input: seq<byte>)
      ensures Valid() && fresh(lineBuf) && fresh(lastPacket)
      ensures View() == Stub(Idle, [], 0, [], [], input)
    {
      state, lineBufIndex, lineCsum, lastPacketLen := Idle, 0, 0, 0;
      lineBuf, lastPacket := new byte[4096](_ => 0), new byte[4100](_ => 0);
      this.input, output, packets := input, [], [];
    }

    /** get_char: -1 once the connection is closed. */
    method GetChar() returns (c: int)
      modifies this`input
      ensures if old(input) == [] then c == -1 && input == [] else c == old(input[0]) && input == old(input[1..])
    {
      if input == [] {
        return -1;
      }
      c := input[0];
      input := input[1..];
    }

    /** The frame of a payload into last_packet. */
    method BuildFrame(buf: seq<byte>)
      requires Valid() && |buf| <= 4096
      modifies this`lastPacketLen, lastPacket
      ensures Valid() && View() == old(View())
      ensures lastPacketLen == |buf| + 4 && lastPacket[..lastPacketLen] == Frame(buf)
    {
      lastPacket[0] := DOLLAR;
      var len := |buf|;
      forall i | 0 <= i < len {
        lastPacket[1 + i] := buf[i];
      }
      assert lastPacket[1..1 + len] == buf;
      var csum := CharSum(lastPacket, 1, len);
      lastPacket[1 + len] := HASH;
      lastPacket[2 + len] := ToHex(csum / 16 % 16);
      lastPacket[3 + len] := ToHex(csum % 16);
      lastPacketLen := len + 4;
      assert lastPacket[1..1 + len] == buf;
      assert lastPacket[..lastPacketLen] == Frame(buf);
    }

    /** put_packet: the payload is the string in buf, up to its terminator. */
    method PutPacket(buf: seq<byte>) returns (ret: int)
      requires Valid() && |UntilNul(buf)| <= 4096
      modifies this`input, this`output, this`lastPacketLen, lastPacket
      ensures Valid() && View() == Sent(old(View()), UntilNul(buf))
      ensures ret == if PLUS in old(input) then 0 else -1
    {
      ghost var start := View();
      var payload := UntilNul(buf);
      while true
        invariant Valid()
        invariant Sent(View(), payload) == Sent(start, payload)
        invariant PLUS in input <==> PLUS in start.inbox
        decreases |input|
      {
        BuildFrame(payload);
        output := output + lastPacket[..lastPacketLen];
        ghost var was := input;
        var i := GetChar();
        if i < 0 {
          return -1;
        }
        assert was == [was[0]] + input;
        if i == PLUS {
          return 0;
        }
      }
    }

    /** gdb_read_byte. */
    method ReadByte(ch: byte)
      requires Valid()
      modifies this, lineBuf, lastPacket
      ensures Valid() && View() == Fed(old(View()), ch)
    {
      match state {
        case Idle =>
          if ch == DOLLAR {
            lineBufIndex := 0;
            state := GetLine;
          } else if ch == INTERRUPT {
            WholeString(STOPPED);
            var _ := PutPacket(STOPPED);
          }
        case GetLine =>
          if ch == HASH {
            state := Chksum1;
          } else if lineBufIndex >= lineBuf.Length - 1 {
            state := Idle;
          } else {
            lineBuf[lineBufIndex] := ch;
            lineBufIndex := lineBufIndex + 1;
          }
        case Chksum1 =>
          lineBuf[lineBufIndex] := 0;
          lineCsum := FromHex(ch) * 16;
          state := Chksum2;
        case Chksum2 =>
          lineCsum := lineCsum + FromHex(ch);
          var csum := CharSum(lineBuf, 0, lineBufIndex);
          assert lineBuf[0..lineBufIndex] == lineBuf[..lineBufIndex];
          if lineCsum != csum % 256 {
            output := output + [MINUS];
          } else {
            output := output + [PLUS];
            packets := packets + [lineBuf[..lineBufIndex]];
          }
          state := Idle;
      }
    }
  }
}
