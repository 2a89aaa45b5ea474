/** The GDB remote serial protocol: packet frames with checksums, the receiving
    state machine, and hex dumps of memory. */
module GdbSpec {
  import opened Arith
  import opened Bytes

  const DOLLAR: byte := 36
  const HASH: byte := 35
  const PLUS: byte := 43
  const MINUS: byte := 45
  const INTERRUPT: byte := 3

  /** Bytes of payload the line buffer takes, besides its terminator. */
  const LINE_MAX: nat := 4095

  // ------------------------------------------------------------ hex

  function ToHex(v: nat): (h: byte)
    requires v < 16
  {
    if v < 10 then v + 48 else v - 10 + 97
  }

  function FromHex(v: byte): (n: nat)
    ensures n < 16
  {
    if 48 <= v <= 57 then v - 48
    else if 65 <= v <= 70 then v - 65 + 10
    else if 97 <= v <= 102 then v - 97 + 10
    else 0
  }

  lemma FromToHex(v: nat)
    requires v < 16
    ensures FromHex(ToHex(v)) == v
  {}

  function Dump(mem: seq<byte>): (s: seq<byte>)
    ensures |s| == 2 * |mem|
  {
    if mem == [] then []
    else
      var m: nat := mem[|mem| - 1];
      Dump(mem[..|mem| - 1]) + [ToHex(m / 16), ToHex(m % 16)]
  }

  /** The memory that n pairs of digits describe. */
  function Undump(s: seq<byte>, n: nat): (mem: seq<byte>)
    requires 2 * n <= |s|
    ensures |mem| == n
  {
    if n == 0 then [] else Undump(s, n - 1) + [FromHex(s[2 * n - 2]) * 16 + FromHex(s[2 * n - 1])]
  }

  lemma {:induction false} UndumpPrefix(s: seq<byte>, t: seq<byte>, n: nat)
    requires 2 * n <= |s|
    ensures Undump(s + t, n) == Undump(s, n)
  {
    if n > 0 {
      UndumpPrefix(s, t, n - 1);
    }
  }

  /** hextomem undoes memtohex, whatever follows the digits. */
  lemma {:induction false} UndumpDump(mem: seq<byte>, t: seq<byte>)
    ensures Undump(Dump(mem) + t, |mem|) == mem
  {
    if mem == [] {
    } else {
      var n := |mem| - 1;
      var m: nat := mem[n];
      var d := [ToHex(m / 16), ToHex(m % 16)];
      UndumpDump(mem[..n], d + t);
      assert Dump(mem) + t == Dump(mem[..n]) + (d + t);
      FromToHex(m / 16);
      FromToHex(m % 16);
      assert mem == mem[..n] + [mem[n]];
    }
  }

  // ------------------------------------------------------------ frames

  /** A char as the int it is promoted to. */
  function Signed(b: byte): int
  {
    if b < 128 then b else b - 256
  }

  function Sum(p: seq<byte>): int
  {
    if p == [] then 0 else Sum(p[..|p| - 1]) + Signed(p[|p| - 1])
  }

  function Checksum(p: seq<byte>): (c: nat)
    ensures c < 256
  {
    Sum(p) % 256
  }

  function Frame(p: seq<byte>): seq<byte>
  {
    [DOLLAR] + p + [HASH, ToHex(Sum(p) / 16 % 16), ToHex(Sum(p) % 16)]
  }

  /** The two digits of a frame are the checksum's. */
  lemma DigitsAreChecksum(p: seq<byte>)
    ensures FromHex(ToHex(Sum(p) / 16 % 16)) * 16 + FromHex(ToHex(Sum(p) % 16)) == Checksum(p)
  {
    hide ToHex, FromHex, Sum;
    FromToHex(Sum(p) / 16 % 16);
    FromToHex(Sum(p) % 16);
    NibblesJoin(Sum(p));
  }

  lemma NibblesJoin(s: int)
    ensures s / 16 % 16 * 16 + s % 16 == s % 256
  {
    DivModUnique(s, 256, s / 16 / 16, s / 16 % 16 * 16 + s % 16);
  }

  lemma {:induction false} SumSplits(p: seq<byte>, q: seq<byte>)
    ensures Sum(p + q) == Sum(p) + Sum(q)
  {
    if q == [] {
      assert p + q == p;
    } else {
      SumSplits(p, q[..|q| - 1]);
      assert (p + q)[..|p + q| - 1] == p + q[..|q| - 1];
    }
  }

  /** The sum of bytes as unsigned numbers. */
  function ByteSum(p: seq<byte>): nat
  {
    if p == [] then 0 else ByteSum(p[..|p| - 1]) + p[|p| - 1]
  }

  /** The checksum is that of the protocol, the sum of the bytes as unsigned numbers modulo
      256, although the code adds signed chars. */
  lemma {:induction false} ChecksumIsByteSum(p: seq<byte>)
    ensures Checksum(p) == ByteSum(p) % 256
  {
    if p == [] {
    } else {
      ChecksumIsByteSum(p[..|p| - 1]);
      SameRemainder(Sum(p[..|p| - 1]), ByteSum(p[..|p| - 1]), p[|p| - 1]);
    }
  }

  lemma SameRemainder(s: int, u: nat, b: byte)
    requires s % 256 == u % 256
    ensures (s + Signed(b)) % 256 == (u + b) % 256
  {
    DivModFacts(u + b, 256);
    var k := s / 256 - u / 256 - if b < 128 then 0 else 1;
    assert s + Signed(b) == 256 * k + (u + b);
    DivModUnique(s + Signed(b), 256, (u + b) / 256 + k, (u + b) % 256);
  }

  /** A frame: a dollar sign, the payload, a hash sign, and two lower-case hex digits of
      the checksum, the higher first. */
  lemma FrameIs(p: seq<byte>)
    ensures var c := ByteSum(p) % 256;
            var digits: seq<byte> := [48, 49, 50, 51, 52, 53, 54, 55, 56, 57, 97, 98, 99, 100, 101, 102];
            Frame(p) == [36] + p + [35, digits[c / 16], digits[c % 16]]
  {
    hide Sum, ByteSum;
    ChecksumIsByteSum(p);
    Nibbles(Sum(p));
  }

  lemma Nibbles(s: int)
    ensures s % 256 / 16 == s / 16 % 16 && s % 256 % 16 == s % 16
  {
    NibblesJoin(s);
    DivModUnique(s % 256, 16, s / 16 % 16, s % 16);
  }

  /** A digit is taken in either case, and anything else as 0. */
  lemma DigitsRead(v: byte)
    ensures FromHex(v) == if v in {49, 50, 51, 52, 53, 54, 55, 56, 57} then v - 48
                          else if v in {65, 66, 67, 68, 69, 70} then v - 55
                          else if v in {97, 98, 99, 100, 101, 102} then v - 87
                          else 0
  {}

  /** Digit k of a dump: two for every byte, the higher half first. */
  lemma {:induction false} DumpDigit(mem: seq<byte>, k: nat)
    requires k < 2 * |mem|
    ensures var digits: seq<byte> := [48, 49, 50, 51, 52, 53, 54, 55, 56, 57, 97, 98, 99, 100, 101, 102];
            var m: nat := mem[k / 2];
            Dump(mem)[k] == digits[if k % 2 == 0 then m / 16 else m % 16]
  {
    var n := |mem| - 1;
    if k < 2 * n {
      DumpDigit(mem[..n], k);
    } else {
      DivModUnique(k, 2, n, k - 2 * n);
    }
  }

  /** Changing one byte changes the checksum. */
  lemma SubstitutionShows(p: seq<byte>, i: nat, c: byte)
    requires i < |p| && c != p[i]
    ensures Checksum(p[i := c]) != Checksum(p)
  {
    var a, z := p[..i], p[i + 1..];
    assert p == a + ([p[i]] + z) && p[i := c] == a + ([c] + z);
    SumSplits(a, [p[i]] + z);
    SumSplits([p[i]], z);
    SumSplits(a, [c] + z);
    SumSplits([c], z);
    assert Sum([p[i]]) == Signed(p[i]) && Sum([c]) == Signed(c);
    DifferentRemainders(Sum(a) + Sum(z), Signed(p[i]), Signed(c));
  }

  lemma DifferentRemainders(s: int, x: int, y: int)
    requires x != y && -128 <= x < 128 && -128 <= y < 128
    ensures (s + x) % 256 != (s + y) % 256
  {}

  // ------------------------------------------------------------ receiving

  datatype RSState = Idle | GetLine | Chksum1 | Chksum2

  /** line is the part of the line buffer that is filled; handled are the packets
      accepted so far, out what was sent back, inbox what the other side has sent
      and put_packet may still read. */
  datatype Stub = Stub(state: RSState, line: seq<byte>, csum: nat,
                       handled: seq<seq<byte>>, out: seq<byte>, inbox: seq<byte>)

  predicate Inv(s: Stub)
  {
    |s.line| <= LINE_MAX && s.csum < 256 && (s.state == Chksum2 ==> s.csum % 16 == 0)
  }

  /** put_packet: frames are sent until one is acknowledged or the line closes. */
  function Sent(s: Stub, p: seq<byte>): Stub
    decreases |s.inbox|
  {
    var t := s.(out := s.out + Frame(p));
    if s.inbox == [] then t
    else
      var u := t.(inbox := s.inbox[1..]);
      if s.inbox[0] == PLUS then u else Sent(u, p)
  }

  /** "S02", the reply to an interrupt character. */
  const STOPPED: seq<byte> := [83, 48, 50]

  /** The C string that begins a buffer: what strlen counts. */
  function UntilNul(s: seq<byte>): (r: seq<byte>)
    ensures r <= s && 0 !in r
    ensures |r| < |s| ==> s[|r|] == 0
  {
    if s == [] || s[0] == 0 then [] else [s[0]] + UntilNul(s[1..])
  }

  lemma {:induction false} WholeString(s: seq<byte>)
    requires 0 !in s
    ensures UntilNul(s) == s
  {
    if s == [] {
    } else {
      WholeString(s[1..]);
    }
  }

  /** gdb_read_byte. */
  function Fed(s: Stub, ch: byte): Stub
  {
    match s.state
    case Idle =>
      if ch == DOLLAR then s.(line := [], state := GetLine)
      else if ch == INTERRUPT then Sent(s, STOPPED)
      else s
    case GetLine =>
      if ch == HASH then s.(state := Chksum1)
      else if |s.line| >= LINE_MAX then s.(state := Idle)
      else s.(line := s.line + [ch])
    case Chksum1 => s.(csum := FromHex(ch) * 16, state := Chksum2)
    case Chksum2 =>
      var c := s.csum + FromHex(ch);
      if c != Checksum(s.line) then s.(csum := c, out := s.out + [MINUS], state := Idle)
      else s.(csum := c, out := s.out + [PLUS], state := Idle, handled := s.handled + [s.line])
  }

  function FedAll(s: Stub, b: seq<byte>): Stub
    decreases |b|
  {
    if b == [] then s else FedAll(Fed(s, b[0]), b[1..])
  }

  lemma {:induction false} FedConcat(s: Stub, a: seq<byte>, b: seq<byte>)
    ensures FedAll(s, a + b) == FedAll(FedAll(s, a), b)
    decreases |a|
  {
    if a == [] {
      assert a + b == b;
    } else {
      FedConcat(Fed(s, a[0]), a[1..], b);
      assert (a + b)[1..] == a[1..] + b;
    }
  }

  /** The line buffer takes what fits. */
  lemma {:induction false} LineFills(s: Stub, p: seq<byte>)
    requires s.state == GetLine && HASH !in p && |s.line| + |p| <= LINE_MAX
    ensures FedAll(s, p) == s.(line := s.line + p)
    decreases |p|
  {
    if p == [] {
      assert s.line + p == s.line;
    } else {
      LineFills(Fed(s, p[0]), p[1..]);
      assert s.line + p == s.line + [p[0]] + p[1..];
    }
  }

  lemma LineEnds(s: Stub, hi: byte, lo: byte)
    requires s.state == GetLine
    ensures var c := FromHex(hi) * 16 + FromHex(lo);
            FedAll(s, [HASH, hi, lo]) ==
            if c == Checksum(s.line)
            then s.(csum := c, out := s.out + [PLUS], state := Idle, handled := s.handled + [s.line])
            else s.(csum := c, out := s.out + [MINUS], state := Idle)
  {
    hide Checksum;
    assert [HASH, hi, lo][1..] == [hi, lo] && [hi, lo][1..] == [lo] && [lo][1..] == [];
    var s1 := Fed(s, HASH);
    var s2 := Fed(s1, hi);
    assert FedAll(s2, [lo]) == Fed(s2, lo);
    assert FedAll(s1, [hi, lo]) == FedAll(s2, [lo]);
  }

  /** What happens to a packet with any two checksum digits. */
  lemma PacketArrives(s: Stub, p: seq<byte>, hi: byte, lo: byte)
    requires s.state == Idle && HASH !in p && |p| <= LINE_MAX
    ensures var c := FromHex(hi) * 16 + FromHex(lo);
            FedAll(s, [DOLLAR] + p + [HASH, hi, lo]) ==
            if c == Checksum(p)
            then s.(line := p, csum := c, out := s.out + [PLUS], handled := s.handled + [p])
            else s.(line := p, csum := c, out := s.out + [MINUS])
  {
    hide Checksum;
    var tail := [HASH, hi, lo];
    FedConcat(s, [DOLLAR] + p, tail);
    FedConcat(s, [DOLLAR], p);
    var g := s.(line := [], state := GetLine);
    assert [DOLLAR][1..] == [];
    assert FedAll(s, [DOLLAR]) == g;
    LineFills(g, p);
    assert [] + p == p;
    LineEnds(g.(line := p), hi, lo);
  }

  /** From idle, the frame that put_packet builds is acknowledged and gives back
      exactly its payload. */
  lemma FrameRoundTrip(s: Stub, p: seq<byte>)
    requires s.state == Idle && HASH !in p && |p| <= LINE_MAX
    ensures FedAll(s, Frame(p)) ==
            s.(line := p, csum := Checksum(p), out := s.out + [PLUS], handled := s.handled + [p])
  {
    hide Checksum, ToHex, FromHex, FedAll;
    DigitsAreChecksum(p);
    PacketArrives(s, p, ToHex(Sum(p) / 16 % 16), ToHex(Sum(p) % 16));
  }

  /** One payload byte replaced by another, not by a '#', is rejected. */
  lemma SubstitutionRejected(s: Stub, p: seq<byte>, i: nat, c: byte)
    requires s.state == Idle && HASH !in p && |p| <= LINE_MAX
    requires i < |p| && c != p[i] && c != HASH
    ensures var t := FedAll(s, Frame(p)[i + 1 := c]);
            t.handled == s.handled && t.out == s.out + [MINUS] && t.state == Idle
  {
    hide Checksum, ToHex, FromHex, FedAll;
    var hi, lo := ToHex(Sum(p) / 16 % 16), ToHex(Sum(p) % 16);
    assert Frame(p)[i + 1 := c] == [DOLLAR] + p[i := c] + [HASH, hi, lo];
    DigitsAreChecksum(p);
    SubstitutionShows(p, i, c);
    PacketArrives(s, p[i := c], hi, lo);
  }

  /** In idle, bytes other than '$' and the interrupt character are skipped. */
  lemma {:induction false} IdleSkips(s: Stub, b: seq<byte>)
    requires s.state == Idle && DOLLAR !in b && INTERRUPT !in b
    ensures FedAll(s, b) == s
    decreases |b|
  {
    if b == [] {
    } else {
      IdleSkips(s, b[1..]);
    }
  }

  /** A payload that the line buffer cannot hold is dropped as a whole. */
  lemma LongDropped(s: Stub, p: seq<byte>)
    requires s.state == Idle && HASH !in p && |p| > LINE_MAX
    requires DOLLAR !in p && INTERRUPT !in p
    ensures var t := FedAll(s, Frame(p));
            t.handled == s.handled && t.out == s.out && t.state == Idle
  {
    hide Sum, FedAll;
    var hi, lo := ToHex(Sum(p) / 16 % 16), ToHex(Sum(p) % 16);
    var a, b, z := p[..LINE_MAX], p[LINE_MAX], p[LINE_MAX + 1..] + [HASH, hi, lo];
    var g := s.(line := [], state := GetLine);
    assert Frame(p) == [DOLLAR] + (a + ([b] + z));
    FedOne(s, DOLLAR, a + ([b] + z));
    FedConcat(g, a, [b] + z);
    LineFills(g, a);
    assert [] + a == a;
    FedOne(g.(line := a), b, z);
    IdleSkips(g.(line := a, state := Idle), z);
  }

  lemma FedOne(s: Stub, c: byte, b: seq<byte>)
    ensures FedAll(s, [c] + b) == FedAll(Fed(s, c), b)
  {
    assert ([c] + b)[1..] == b;
  }

  /** For payloads free of framing characters: accepted exactly up to 4095 bytes. */
  lemma AcceptedExactly(s: Stub, p: seq<byte>)
    requires s.state == Idle && HASH !in p && DOLLAR !in p && INTERRUPT !in p
    ensures FedAll(s, Frame(p)).handled == s.handled + [p] <==> |p| <= LINE_MAX
  {
    hide Frame, FedAll;
    if |p| <= LINE_MAX {
      FrameRoundTrip(s, p);
    } else {
      LongDropped(s, p);
      assert |s.handled + [p]| != |s.handled|;
    }
  }

  // ------------------------------------------------------------ sending

  /** Where the first acknowledgement is, or the end. */
  function FirstPlus(inbox: seq<byte>): (k: nat)
    ensures k <= |inbox| && PLUS !in inbox[..k] && (k < |inbox| ==> inbox[k] == PLUS)
  {
    if inbox == [] || inbox[0] == PLUS then 0 else 1 + FirstPlus(inbox[1..])
  }

  function Copies(f: seq<byte>, n: nat): seq<byte>
  {
    if n == 0 then [] else f + Copies(f, n - 1)
  }

  /** put_packet sends the frame once, and once more for every byte that comes back
      before the acknowledgement, and reads nothing past that. */
  lemma {:induction false} SentUntilPlus(s: Stub, p: seq<byte>)
    ensures var k := FirstPlus(s.inbox);
            Sent(s, p) == s.(out := s.out + Copies(Frame(p), k + 1),
                             inbox := if k < |s.inbox| then s.inbox[k + 1..] else [])
    decreases |s.inbox|
  {
    hide Frame;
    var f := Frame(p);
    assert Copies(f, 1) == f + Copies(f, 0) == f;
    if s.inbox == [] || s.inbox[0] == PLUS {
    } else {
      var t := s.(out := s.out + f, inbox := s.inbox[1..]);
      SentUntilPlus(t, p);
      var k := FirstPlus(s.inbox[1..]);
      assert s.out + f + Copies(f, k + 1) == s.out + Copies(f, k + 2);
    }
  }

  // ------------------------------------------------------------ on the wire

  /** The bytes of a packet as the other side sends them: with the right checksum, in
      digits of either case, it is handed over and answered with a plus sign, otherwise
      it is dropped and answered with a minus sign. */
  lemma PacketAnswered(s: Stub, p: seq<byte>, hi: byte, lo: byte)
    requires s.state == Idle && 35 !in p && |p| <= 4095
    ensures var t := FedAll(s, [36] + p + [35, hi, lo]);
            && t.state == Idle && t.inbox == s.inbox
            && if FromHex(hi) * 16 + FromHex(lo) == ByteSum(p) % 256
               then t.handled == s.handled + [p] && t.out == s.out + [43]
               else t.handled == s.handled && t.out == s.out + [45]
  {
    hide Checksum, FedAll, FromHex;
    PacketArrives(s, p, hi, lo);
    ChecksumIsByteSum(p);
  }

  /** An interrupt character between packets is answered with the packet "S02". */
  lemma InterruptAnswered(s: Stub)
    requires s.state == Idle && s.inbox == [43]
    ensures Fed(s, 3) == s.(out := s.out + [36, 83, 48, 50, 35, 98, 53], inbox := [])
  {
    hide Frame;
    FrameIs([83, 48, 50]);
    SumOfThree();
    assert s.inbox[1..] == [];
  }

  lemma SumOfThree()
    ensures ByteSum([83, 48, 50]) == 0xb5
  {
    assert [83, 48, 50][..2] == [83, 48] && [83, 48][..1] == [83];
    assert ByteSum([83]) == 83;
    assert ByteSum([83, 48]) == 131;
  }
}
