/** Single-block transfers of the SD controller, what stops a multi-block one, and where a
    transfer ends. */
module SdiSingle {
  import opened Arith
  import opened Bytes
  import opened SdiSpec

  // ------------------------------------------------------------ which commands there are

  /** A command is started by bits 8 and 9 of SDICCON together; the low six bits name it. */
  predicate Issues(data: nat, cmd: nat)
  {
    data % 64 == cmd && data / 256 % 4 == 3
  }

  lemma StartBits(data: nat)
    ensures Starts(data) <==> data / 256 % 4 == 3
  {
    DivDiv(data, 256, 2);
    DivModFacts(data / 256, 4);
    DivModFacts(data / 256, 2);
    DivModFacts(data / 512, 2);
  }

  /** Anything but commands 12, 17, 18, 24 and 25 moves no data, nor does a word without
      both start bits. */
  lemma OtherCommands(p: Port, data: nat)
    requires forall cmd :: cmd in {12, 17, 18, 24, 25} ==> !Issues(data, cmd)
    ensures Command(p, data) == p
  {
    StartBits(data);
    assert !Issues(data, 12) && !Issues(data, 17) && !Issues(data, 18) && !Issues(data, 24) && !Issues(data, 25);
  }

  /** CMD12 ends a multi-block transfer and changes nothing else. */
  lemma StopCommand(p: Port, data: nat)
    requires Issues(data, 12)
    ensures Command(p, data) == p.(multiple := false)
  {
    StartBits(data);
  }

  /** Without CMD12 in between, a single-block command after a multi-block one is itself a
      multi-block command; otherwise it is not. */
  lemma SingleOnlyIfStopped(p: Port, single: nat, multi: nat)
    requires Inv(p) && p.present
    requires (Issues(single, 17) && Issues(multi, 18)) || (Issues(single, 24) && Issues(multi, 25))
    ensures Command(p, single).multiple <==> p.multiple
    ensures Command(p, single) == Command(p, multi) <==> p.multiple
    ensures Command(p, multi).multiple
  {
    StartBits(single);
    StartBits(multi);
  }

  // ------------------------------------------------------------ one block written

  /** A single-block write of b bytes to address a stands after n words. */
  predicate WritingOne(q: Port, p: Port, a: nat, b: nat, words: seq<nat>, n: nat)
    requires b > 0 && n <= |words|
  {
    && !q.multiple && q.writable == p.writable && q.present == p.present && q.arg == p.arg && q.bsize == p.bsize
    && q.woff == a
    && (if Track(b, n).0 == 0 then q.wlen == b && q.wbuf == Sent(b, words, n) && q.card == p.card
        else q.wlen == 0)
  }

  lemma WordOfOne(q: Port, p: Port, a: nat, b: nat, words: seq<nat>, n: nat)
    requires b > 0 && Inv(q) && n < |words| && WritingOne(q, p, a, b, words, n)
    ensures WritingOne(WriteWord(q, words[n]), p, a, b, words, n + 1)
    ensures Track(b, n).0 > 0 ==> WriteWord(q, words[n]) == q.(dat := words[n])
    ensures Track(b, n).0 == 0 && Track(b, n + 1).0 > 0 ==>
              && Track(b, n + 1) == (b, 0)
              && |Sent(b, words, n + 1)| == b
              && WriteWord(q, words[n]).card ==
                 if p.writable && a + b <= |p.card| then Overlay(p.card, a, Sent(b, words, n + 1)) else p.card
  {
    hide EncodeBE, Overlay, Track, Sent;
    TrackAfter(b, n);
    SentGrows(b, words, n);
    SentSize(b, words, n);
    SentSize(b, words, n + 1);
    TrackInside(b, n);
  }

  lemma {:induction false} WritesOne(p: Port, a: nat, b: nat, words: seq<nat>, n: nat)
    requires b > 0 && Inv(p) && n <= |words| && forall i :: 0 <= i < |words| ==> words[i] < WRAP
    requires WritingOne(p, p, a, b, words, 0)
    ensures WritingOne(Writes(p, words, n), p, a, b, words, n)
    ensures Track(b, n) == (b, 0) ==>
              Writes(p, words, n).card ==
              if p.writable && a + b <= |p.card| then Overlay(p.card, a, Sent(b, words, n)) else p.card
  {
    hide Track, WriteWord, WritingOne, Sent, Overlay;
    TrackStart(b);
    if n > 0 {
      WritesOne(p, a, b, words, n - 1);
      WordOfOne(Writes(p, words, n - 1), p, a, b, words, n - 1);
      MovedGrows(b, n - 1, n);
      BlocksAre(b, n - 1);
    }
  }

  /** A block gets full by one word only. */
  lemma {:induction false} BlocksAre(b: nat, n: nat)
    requires b > 0
    ensures Track(b, n).0 > 0 ==> Track(b, n).0 >= b
    ensures Track(b, n + 1) == (b, 0) ==> Track(b, n).0 == 0
  {
    if n > 0 {
      BlocksAre(b, n - 1);
    }
  }

  /** How a block of b fills up: four bytes a word, the last word perhaps fewer. */
  lemma {:induction false} FirstBlock(b: nat, n: nat)
    requires b > 0 && 4 * n < b + 4
    ensures Track(b, n) == if 4 * n < b then (0, 4 * n) else (b, 0)
    ensures 4 * n < b ==> Taken(b, n) == Min(4, b - 4 * n) && Moved(b, n) == 4 * n
    ensures 4 * n >= b ==> Moved(b, n) == b
  {
    if n > 0 {
      FirstBlock(b, n - 1);
    }
  }

  lemma AfterBlock(b: nat, n: nat)
    requires b > 0 && 4 * n >= b
    ensures Track(b, n).0 > 0
  {
    var m := (b + 3) / 4;
    FirstBlock(b, m);
    MovedGrows(b, m, n);
  }

  /** Byte r of a word, counted from the highest. */
  function Digit(w: nat, r: nat): nat
  {
    if r == 0 then w / 0x100_0000 else if r == 1 then w / 0x1_0000 % 256 else if r == 2 then w / 256 % 256 else w % 256
  }

  lemma DigitIs(w: nat, r: nat)
    requires w < WRAP && r < 4
    ensures EncodeBE(w, 4)[r] == Digit(w, r)
  {
    hide EncodeBE;
    EncodeFour(w);
  }

  /** The bytes of a block of b that n words have filled. */
  lemma {:induction false} SentByte(b: nat, words: seq<nat>, n: nat, j: nat)
    requires b > 0 && 0 < n <= |words| && 4 * n < b + 4 && (forall i :: 0 <= i < |words| ==> words[i] < WRAP)
    requires j < Moved(b, n)
    ensures j / 4 < n && Sent(b, words, n)[j] == Digit(words[j / 4], j % 4)
  {
    hide EncodeBE, Track, Digit;
    FirstBlock(b, n - 1);
    FirstBlock(b, n);
    SentGrows(b, words, n - 1);
    SentSize(b, words, n - 1);
    if j < 4 * (n - 1) {
      SentByte(b, words, n - 1, j);
    } else {
      DivModUnique(j, 4, n - 1, j - 4 * (n - 1));
      DigitIs(words[n - 1], j % 4);
    }
  }

  /** After CMD24, outside a multi-block transfer: the card stays as it is until b bytes
      are in; the word that completes the block puts it on the card at the argument
      address, the highest byte of each word first, unless the card is read-only or too
      short, and then the block is lost; further words only pass through the data register. */
  lemma SingleWrite(p: Port, data: nat, words: seq<nat>, n: nat)
    requires Inv(p) && p.present && !p.multiple && data < WRAP && Issues(data, 24)
    requires n <= |words| && forall i :: 0 <= i < |words| ==> words[i] < WRAP
    requires p.bsize % 4096 > 0
    ensures Inv(Command(p, data))
    ensures var b, q := p.bsize % 4096, Writes(Command(p, data), words, n);
            && |q.card| == |p.card| && q.arg == p.arg && q.bsize == p.bsize && q.present && !q.multiple
            && (4 * n < b || !p.writable || p.arg + b > |p.card| ==> q.card == p.card)
            && (4 * n >= b && p.writable && p.arg + b <= |p.card| ==>
                  forall i :: 0 <= i < |p.card| ==>
                    q.card[i] == if p.arg <= i < p.arg + b then Digit(words[(i - p.arg) / 4], (i - p.arg) % 4)
                                 else p.card[i])
            && (4 * n >= b && n < |words| ==> Writes(Command(p, data), words, n + 1) == q.(dat := words[n]))
    decreases n
  {
    hide Track, Writes, WriteWord, Sent, Command, Inv, Digit, Overlay;
    var b, q := p.bsize % 4096, Command(p, data);
    StartBits(data);
    StepsKeep(p, data);
    CommandWritesOne(p, data, words);
    WritesOne(q, p.arg, b, words, n);
    if 4 * n < b + 4 {
      FirstBlock(b, n);
      BlockLies(p, words, n, b, Writes(q, words, n));
    } else {
      SingleWrite(p, data, words, n - 1);
      NextWrite(q, words, n - 1);
    }
    if 4 * n >= b {
      AfterBlock(b, n);
      if n < |words| {
        NextWrite(q, words, n);
        InvWrites(q, words, n);
        WordOfOne(Writes(q, words, n), q, p.arg, b, words, n);
      }
    }
  }

  lemma NextWrite(q: Port, words: seq<nat>, n: nat)
    requires Inv(q) && n < |words| && forall i :: 0 <= i < |words| ==> words[i] < WRAP
    ensures Inv(Writes(q, words, n)) && Writes(q, words, n + 1) == WriteWord(Writes(q, words, n), words[n])
  {
    hide WriteWord, Inv;
  }

  lemma CommandWritesOne(p: Port, data: nat, words: seq<nat>)
    requires p.present && !p.multiple && Starts(data) && data % 64 == 24 && p.bsize % 4096 > 0
    ensures var q := Command(p, data);
            && WritingOne(q, q, p.arg, p.bsize % 4096, words, 0) && q.card == p.card
            && q.writable == p.writable && q.present && q.arg == p.arg && q.bsize == p.bsize
  {
    hide Track;
    TrackStart(p.bsize % 4096);
  }

  lemma BlockLies(p: Port, words: seq<nat>, n: nat, b: nat, q: Port)
    requires 0 < b && n <= |words| && 4 * n < b + 4 && forall i :: 0 <= i < |words| ==> words[i] < WRAP
    requires if 4 * n < b then q.card == p.card
             else if p.writable && p.arg + b <= |p.card|
                  then |Sent(b, words, n)| == b && q.card == Overlay(p.card, p.arg, Sent(b, words, n))
             else q.card == p.card
    ensures |q.card| == |p.card|
    ensures 4 * n >= b && p.writable && p.arg + b <= |p.card| ==>
              forall i :: 0 <= i < |p.card| ==>
                q.card[i] == if p.arg <= i < p.arg + b then Digit(words[(i - p.arg) / 4], (i - p.arg) % 4)
                             else p.card[i]
  {
    hide Sent, Digit;
    if 4 * n >= b && p.writable && p.arg + b <= |p.card| {
      FirstBlock(b, n);
      forall i | p.arg <= i < p.arg + b
        ensures q.card[i] == Digit(words[(i - p.arg) / 4], (i - p.arg) % 4)
      {
        SentByte(b, words, n, i - p.arg);
      }
    }
  }

  // ------------------------------------------------------------ one block read

  /** Byte r of word n of the b bytes of the card from address a on, 0 past the last. */
  function CardByte(card: seq<byte>, a: nat, b: nat, n: nat, r: nat): nat
    requires a + b <= |card|
  {
    if 4 * n + r < b then card[a + 4 * n + r] else 0
  }

  /** After CMD17, outside a multi-block transfer: word n of the data port holds bytes
      4 * n to 4 * n + 3 of the block, the first in the highest place and zeros where the
      block ends; past the end of the block the port repeats its last word. */
  lemma SingleReadBytes(p: Port, data: nat, n: nat)
    requires Inv(p) && p.present && !p.multiple && data < WRAP && Issues(data, 17)
    requires p.bsize % 4096 > 0 && p.arg + p.bsize % 4096 <= |p.card|
    ensures Inv(Command(p, data))
    ensures var b, q := p.bsize % 4096, Command(p, data);
            && Reads(q, n).card == p.card
            && (4 * n < b ==>
                  WordRead(q, n) == 0x100_0000 * CardByte(p.card, p.arg, b, n, 0)
                                    + 0x1_0000 * CardByte(p.card, p.arg, b, n, 1)
                                    + 256 * CardByte(p.card, p.arg, b, n, 2) + CardByte(p.card, p.arg, b, n, 3))
            && (4 * n >= b ==> WordRead(q, n) == Reads(q, n).dat && Reads(q, n + 1) == Reads(q, n))
  {
    hide Track, Reads, Command, Inv, WordOf, Moved, Taken;
    var b := p.bsize % 4096;
    StartBits(data);
    SingleRead(p, data, n);
    if 4 * n < b {
      FirstBlock(b, n);
      var s := Piece(p.card, p.arg + 4 * n, Min(4, b - 4 * n));
      WordIs(s, CardByte(p.card, p.arg, b, n, 0), CardByte(p.card, p.arg, b, n, 1),
             CardByte(p.card, p.arg, b, n, 2), CardByte(p.card, p.arg, b, n, 3));
    } else {
      AfterBlock(b, n);
    }
  }

  /** A block that the card does not have is not delivered: the port keeps its word. */
  lemma NothingRead(p: Port, data: nat, n: nat)
    requires Inv(p) && !p.multiple && data < WRAP && Issues(data, 17)
    requires !p.present || p.arg + p.bsize % 4096 > |p.card|
    ensures Inv(Command(p, data))
    ensures Reads(Command(p, data), n) == Command(p, data) && Command(p, data).dat == p.dat
  {
    StartBits(data);
    StepsKeep(p, data);
    EmptyReads(Command(p, data), n);
  }

  lemma {:induction false} EmptyReads(q: Port, n: nat)
    requires Inv(q) && q.rbuf == []
    ensures Reads(q, n) == q
  {
    hide WordOf;
    if n > 0 {
      EmptyReads(q, n - 1);
    }
  }

  // ------------------------------------------------------------ there and back, and after a stop

  /** A word with all but its first k bytes, from the highest, zeroed. */
  function Head(w: nat, k: nat): nat
  {
    if k >= 4 then w
    else if k == 3 then w - w % 256
    else if k == 2 then w - w % 0x1_0000
    else w - w % 0x100_0000
  }

  /** The bytes of the card where a block of words lies, put together again. */
  lemma WordOnCard(card: seq<byte>, a: nat, b: nat, words: seq<nat>, n: nat)
    requires a + b <= |card| && 4 * n < b <= 4 * |words| && forall i :: 0 <= i < |words| ==> words[i] < WRAP
    requires forall i :: a <= i < a + b ==> card[i] == Digit(words[(i - a) / 4], (i - a) % 4)
    ensures 0x100_0000 * CardByte(card, a, b, n, 0) + 0x1_0000 * CardByte(card, a, b, n, 1)
            + 256 * CardByte(card, a, b, n, 2) + CardByte(card, a, b, n, 3) == Head(words[n], b - 4 * n)
  {
    hide Digit;
    forall r: nat | r < 4 && 4 * n + r < b
      ensures CardByte(card, a, b, n, r) == Digit(words[n], r)
    {
      DivModUnique(4 * n + r, 4, n, r);
      assert card[a + (4 * n + r)] == Digit(words[(4 * n + r) / 4], (4 * n + r) % 4);
    }
    DigitsJoin(words[n]);
  }

  /** One block written by CMD24 and read by CMD17 comes back word by word; the last word
      without the bytes for which the block had no room. */
  lemma SingleRoundTrip(p: Port, cmd24: nat, cmd17: nat, words: seq<nat>, n: nat)
    requires Inv(p) && p.present && p.writable && !p.multiple && cmd24 < WRAP && cmd17 < WRAP
    requires Issues(cmd24, 24) && Issues(cmd17, 17)
    requires forall i :: 0 <= i < |words| ==> words[i] < WRAP
    requires var b := p.bsize % 4096; 0 < b <= 4 * |words| && p.arg + b <= |p.card| && 4 * n < b
    ensures Inv(Command(p, cmd24))
    ensures var b, q := p.bsize % 4096, Writes(Command(p, cmd24), words, |words|);
            && Inv(q) && Inv(Command(q, cmd17))
            && WordRead(Command(q, cmd17), n) == Head(words[n], b - 4 * n)
  {
    hide Writes, Command, Inv, Reads, WordRead, Digit, Head, CardByte, Issues;
    var b := p.bsize % 4096;
    SingleWrite(p, cmd24, words, |words|);
    InvWrites(Command(p, cmd24), words, |words|);
    var q := Writes(Command(p, cmd24), words, |words|);
    SingleReadBytes(q, cmd17, n);
    WordOnCard(q.card, p.arg, b, words, n);
  }

  lemma DigitsJoin(w: nat)
    requires w < WRAP
    ensures Digit(w, 0) == w / 0x100_0000 && Digit(w, 3) == w % 256
    ensures 0x100_0000 * Digit(w, 0) == w - w % 0x100_0000
    ensures 0x100_0000 * Digit(w, 0) + 0x1_0000 * Digit(w, 1) == w - w % 0x1_0000
    ensures 0x100_0000 * Digit(w, 0) + 0x1_0000 * Digit(w, 1) + 256 * Digit(w, 2) == w - w % 256
    ensures 0x100_0000 * Digit(w, 0) + 0x1_0000 * Digit(w, 1) + 256 * Digit(w, 2) + Digit(w, 3) == w
  {
    DigitSums(w);
  }

  /** Whatever transfer was under way, also a multi-block one: after CMD12 a CMD17 delivers
      one block, and the card is as it was. */
  lemma StoppedRead(p: Port, cmd12: nat, cmd17: nat, n: nat)
    requires Inv(p) && p.present && cmd12 < WRAP && cmd17 < WRAP && Issues(cmd12, 12) && Issues(cmd17, 17)
    requires p.bsize % 4096 > 0 && p.arg + p.bsize % 4096 <= |p.card|
    ensures var q := Command(p, cmd12);
            && Inv(q) && Inv(Command(q, cmd17))
            && var b := p.bsize % 4096;
               && Reads(Command(q, cmd17), n).card == p.card
               && (4 * n < b ==>
                     WordRead(Command(q, cmd17), n) ==
                     0x100_0000 * CardByte(p.card, p.arg, b, n, 0) + 0x1_0000 * CardByte(p.card, p.arg, b, n, 1)
                     + 256 * CardByte(p.card, p.arg, b, n, 2) + CardByte(p.card, p.arg, b, n, 3))
               && (4 * n >= b ==> Reads(Command(q, cmd17), n + 1) == Reads(Command(q, cmd17), n))
  {
    hide Command, Inv, Reads, WordRead, CardByte;
    StepsKeep(p, cmd12);
    StopCommand(p, cmd12);
    SingleReadBytes(Command(p, cmd12), cmd17, n);
  }

  /** And a CMD24 stores one block. */
  lemma StoppedWrite(p: Port, cmd12: nat, cmd24: nat, words: seq<nat>, n: nat)
    requires Inv(p) && p.present && p.writable && cmd12 < WRAP && cmd24 < WRAP
    requires Issues(cmd12, 12) && Issues(cmd24, 24)
    requires n <= |words| && forall i :: 0 <= i < |words| ==> words[i] < WRAP
    requires p.bsize % 4096 > 0 && p.arg + p.bsize % 4096 <= |p.card|
    ensures var q := Command(p, cmd12);
            && Inv(q) && Inv(Command(q, cmd24))
            && var b, r := p.bsize % 4096, Writes(Command(q, cmd24), words, n);
               && |r.card| == |p.card|
               && forall i :: 0 <= i < |p.card| ==>
                    r.card[i] == if 4 * n >= b && p.arg <= i < p.arg + b
                                 then Digit(words[(i - p.arg) / 4], (i - p.arg) % 4) else p.card[i]
  {
    hide Command, Inv, Writes, Digit;
    StepsKeep(p, cmd12);
    StopCommand(p, cmd12);
    SingleWrite(Command(p, cmd12), cmd24, words, n);
  }

  // ------------------------------------------------------------ the count, and the end of the card

  /** SDIDCNT after a command: one block, and its bytes. */
  lemma CountAtStart(p: Port, data: nat)
    requires Inv(p) && p.present
    requires Issues(data, 17) || Issues(data, 18) || Issues(data, 24) || Issues(data, 25)
    requires p.arg + p.bsize % 4096 <= |p.card|
    ensures Command(p, data).dcnt == 0x1000 + p.bsize % 4096
  {
    StartBits(data);
  }

  /** A word read leaves the count of bytes still in the block; a block that is used up is
      followed, in a multi-block read, by the next one if the card has it. */
  lemma CountAfterRead(p: Port)
    requires Inv(p) && p.rbuf != []
    ensures var q, b, next := ReadWord(p), |p.rbuf|, (p.roff + |p.rbuf|) % WRAP;
            if p.rindex + 4 < b then q.dcnt == b - p.rindex - 4 && q.rbuf == p.rbuf && q.rindex == p.rindex + 4
            else if p.multiple && p.present && next + b <= |p.card|
            then q.dcnt == b && q.rbuf == p.card[next..next + b] && q.rindex == 0 && q.roff == next
            else q.dcnt == 0 && q.rbuf == []
  {
    hide WordOf;
    DeliveredBytes(p);
  }

  /** The same for a word written; in a multi-block write the next block is as long. */
  lemma CountAfterWrite(p: Port, data: nat)
    requires Inv(p) && p.wlen > 0
    ensures var q := WriteWord(p, data);
            && q.dat == data
            && if |p.wbuf| + 4 < p.wlen then q.dcnt == p.wlen - |p.wbuf| - 4 && q.card == p.card
               else if p.multiple
               then q.dcnt == p.wlen == q.wlen && q.wbuf == [] && q.woff == (p.woff + p.wlen) % WRAP
               else q.dcnt == 0 == q.wlen && q.wbuf == []
  {
    hide EncodeBE, Overlay;
  }
}
