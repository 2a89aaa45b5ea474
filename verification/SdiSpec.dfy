/** The SD transfer engine as a state machine over a card of bytes: block buffers
    with indices, multi-block streaming, and the 32-bit big-endian data port. */
module SdiSpec {
  import opened Arith
  import opened Bytes

  const WRAP: nat := 0x1_0000_0000

  /** The part of the controller that moves data. rbuf is the block being read and
      rindex how much of it is gone; wlen is the size of the block being written
      and wbuf what has come in so far. */
  datatype Port = Port(present: bool, writable: bool, card: seq<byte>, arg: nat, bsize: nat, multiple: bool,
                       rbuf: seq<byte>, rindex: nat, roff: nat,
                       wlen: nat, wbuf: seq<byte>, woff: nat,
                       dat: nat, dcnt: nat)

  /** Indices stay inside their blocks, and no block is left used up. */
  predicate Inv(p: Port)
  {
    && (if p.rbuf == [] then p.rindex == 0 else p.rindex < |p.rbuf|)
    && (if p.wlen == 0 then p.wbuf == [] else |p.wbuf| < p.wlen)
    && (p.rbuf != [] || p.wlen != 0 ==> p.present)
    && |p.rbuf| < 4096 && p.wlen < 4096
    && p.arg < WRAP && p.roff < WRAP && p.woff < WRAP && p.dat < WRAP
  }

  function Min(a: nat, b: nat): nat
  {
    if a <= b then a else b
  }

  /** The first bytes of a big-endian word, the others being zero. */
  function WordOf(b: seq<byte>): (w: nat)
    requires |b| <= 4
    ensures w < WRAP
  {
    Pow256Values();
    DecodeBound(b + Zeros(4 - |b|));
    DecodeBE(b + Zeros(4 - |b|))
  }

  /** sdcard_read: with no card, or when the card fails, the buffer is empty. */
  function Fetched(p: Port, size: nat): Port
  {
    p.(rbuf := if p.present && p.roff + size <= |p.card| then Piece(p.card, p.roff, size) else [], rindex := 0)
  }

  /** sdcard_write_prepare. */
  function Prepared(p: Port): Port
  {
    p.(wbuf := [], wlen := if p.present then p.wlen else 0)
  }

  /** sdcard_write: when the card fails the block is lost. */
  function Flushed(p: Port): Port
  {
    p.(wbuf := [],
       card := if p.writable && p.woff + |p.wbuf| <= |p.card| then Overlay(p.card, p.woff, p.wbuf) else p.card)
  }

  /** SDICCON starts a command and waits for its response. */
  predicate Starts(data: nat)
  {
    data / 256 % 2 == 1 && data / 512 % 2 == 1
  }

  /** CMD17, and CMD18 if multiple. */
  function ReadStarted(p: Port, multiple: bool): Port
  {
    var q := Fetched(p.(multiple := p.multiple || multiple, roff := p.arg), p.bsize % 4096);
    q.(dcnt := 4096 + |q.rbuf|)
  }

  /** CMD24, and CMD25 if multiple. */
  function WriteStarted(p: Port, multiple: bool): Port
  {
    var q := Prepared(p.(multiple := p.multiple || multiple, woff := p.arg, wlen := p.bsize % 4096));
    q.(dcnt := 4096 + q.wlen)
  }

  /** A write of SDICCON. */
  function Command(p: Port, data: nat): Port
  {
    var cmd := data % 64;
    if !Starts(data) then p
    else if cmd == 12 then p.(multiple := false)
    else if cmd == 17 || cmd == 18 then ReadStarted(p, cmd == 18)
    else if cmd == 24 || cmd == 25 then WriteStarted(p, cmd == 25)
    else p
  }

  /** The bytes the next read of SDIDAT delivers. */
  function Delivered(p: Port): (b: seq<byte>)
    requires Inv(p)
    ensures |b| <= 4
  {
    p.rbuf[p.rindex..p.rindex + Min(4, |p.rbuf| - p.rindex)]
  }

  /** A block that is used up: in a multi-block read the next one is fetched. */
  function Reloaded(p: Port): Port
  {
    if p.multiple then
      var r := Fetched(p.(roff := (p.roff + |p.rbuf|) % WRAP), |p.rbuf|);
      r.(dcnt := |r.rbuf|)
    else p.(rindex := 0, rbuf := [], dcnt := 0)
  }

  /** A read of SDIDAT; the value read is dat. */
  function ReadWord(p: Port): Port
    requires Inv(p)
  {
    if p.rbuf == [] then p
    else
      var q := p.(dat := WordOf(Delivered(p)), rindex := p.rindex + |Delivered(p)|);
      if q.rindex < |p.rbuf| then q.(dcnt := |p.rbuf| - q.rindex)
      else Reloaded(q)
  }

  /** What a write of SDIDAT adds to the block. */
  function Accepted(p: Port, data: nat): (b: seq<byte>)
    requires Inv(p)
    ensures |b| == Min(4, p.wlen - |p.wbuf|)
  {
    EncodeBE(data, 4)[..Min(4, p.wlen - |p.wbuf|)]
  }

  /** A block that is full goes to the card. */
  function Drained(p: Port): Port
  {
    var r := Flushed(p);
    if p.multiple then
      var s := Prepared(r.(woff := (p.woff + p.wlen) % WRAP));
      s.(dcnt := s.wlen)
    else r.(wlen := 0, dcnt := 0)
  }

  /** A write of SDIDAT. */
  function WriteWord(p: Port, data: nat): Port
    requires Inv(p)
  {
    if p.wlen == 0 then p.(dat := data)
    else
      var q := p.(dat := data, wbuf := p.wbuf + Accepted(p, data));
      if |q.wbuf| < q.wlen then q.(dcnt := q.wlen - |q.wbuf|)
      else Drained(q)
  }

  lemma IndexInside(p: Port)
    requires Inv(p)
    ensures p.rbuf != [] ==> p.rindex < |p.rbuf|
    ensures p.wlen > 0 ==> |p.wbuf| < p.wlen && p.present
  {}

  lemma LatchKeeps(p: Port, data: nat)
    requires Inv(p) && data < WRAP
    ensures Inv(p.(dat := data))
  {}

  lemma DeliveredBytes(p: Port)
    requires Inv(p) && p.rbuf != []
    ensures p.rindex < |p.rbuf| && |Delivered(p)| == Min(4, |p.rbuf| - p.rindex)
    ensures forall k :: 0 <= k < |Delivered(p)| ==> Delivered(p)[k] == p.rbuf[p.rindex + k]
  {}

  /** The word of which these are the first bytes, the rest being zero. */
  lemma WordIs(b: seq<byte>, b0: byte, b1: byte, b2: byte, b3: byte)
    requires 1 <= |b| <= 4
    requires b0 == b[0]
    requires b1 == if |b| > 1 then b[1] else 0
    requires b2 == if |b| > 2 then b[2] else 0
    requires b3 == if |b| > 3 then b[3] else 0
    ensures WordOf(b) == b0 as nat * 16777216 + b1 as nat * 65536 + b2 as nat * 256 + b3 as nat
  {
    hide DecodeBE, Pow256;
    var s := b + Zeros(4 - |b|);
    assert s == [b0, b1, b2, b3];
    DecodeFour(s);
  }

  lemma CommandStays(p: Port, data: nat)
    requires Inv(p) && data < WRAP
    ensures Inv(Command(p, data))
  {}

  lemma ReadStays(p: Port)
    requires Inv(p)
    ensures Inv(ReadWord(p))
  {
    hide WordOf;
    WordFits(Delivered(p));
  }

  lemma WriteStays(p: Port, data: nat)
    requires Inv(p) && data < WRAP
    ensures Inv(WriteWord(p, data))
  {
    hide EncodeBE;
  }

  /** Every operation keeps the indices inside their blocks. */
  lemma StepsKeep(p: Port, data: nat)
    requires Inv(p) && data < WRAP
    ensures Inv(Command(p, data)) && Inv(ReadWord(p)) && Inv(WriteWord(p, data))
  {
    hide Inv, Command, ReadWord, WriteWord;
    CommandStays(p, data);
    ReadStays(p);
    WriteStays(p, data);
  }

  lemma WordFits(b: seq<byte>)
    requires |b| <= 4
    ensures WordOf(b) < WRAP
  {}

  /** Without a card no command makes any data move. */
  lemma NoCardNoData(p: Port, data: nat)
    requires Inv(p) && !p.present && data < WRAP
    ensures ReadWord(p) == p
    ensures WriteWord(p, data) == p.(dat := data)
    ensures Command(p, data).rbuf == [] && Command(p, data).wlen == 0 && !Command(p, data).present
  {}

  // ------------------------------------------------------------ where a transfer stands

  /** Full blocks and bytes of the current block after n words, for blocks of b. */
  function Track(b: nat, n: nat): (t: (nat, nat))
    requires b > 0
    ensures t.1 < b
  {
    if n == 0 then (0, 0)
    else
      var t := Track(b, n - 1);
      if t.1 + 4 >= b then (t.0 + b, 0) else (t.0, t.1 + 4)
  }

  /** How many bytes word n moves. */
  function Taken(b: nat, n: nat): (k: nat)
    requires b > 0
    ensures 1 <= k <= 4
  {
    Min(4, b - Track(b, n).1)
  }

  /** The bytes moved by the first n words. */
  function Moved(b: nat, n: nat): nat
    requires b > 0
  {
    Track(b, n).0 + Track(b, n).1
  }

  /** Word n moves the bytes that come right after those of the words before it. */
  lemma NoGap(b: nat, n: nat)
    requires b > 0
    ensures Moved(b, n + 1) == Moved(b, n) + Taken(b, n)
  {}

  /** A block size that is a multiple of 4 makes every word a full one. */
  lemma {:induction false} WholeWords(b: nat, n: nat)
    requires b > 0 && b % 4 == 0
    ensures Taken(b, n) == 4 && Moved(b, n) == 4 * n && Track(b, n).1 % 4 == 0
  {
    hide Track, Min;
    if n == 0 {
      TrackStart(b);
    } else {
      WholeWords(b, n - 1);
      WholeStep(b, n - 1);
    }
    FourLeft(b, Track(b, n).1);
  }

  lemma TrackStart(b: nat)
    requires b > 0
    ensures Track(b, 0) == (0, 0)
  {}

  lemma WholeStep(b: nat, n: nat)
    requires b > 0 && b % 4 == 0 && Track(b, n).1 % 4 == 0
    ensures Track(b, n + 1).1 % 4 == 0
    ensures Taken(b, n) == 4 ==> Moved(b, n + 1) == Moved(b, n) + 4
  {}

  lemma FourLeft(b: nat, i: nat)
    requires i < b && b % 4 == 0 && i % 4 == 0
    ensures Min(4, b - i) == 4
  {
    assert b == 4 * (b / 4) && i == 4 * (i / 4);
  }

  lemma {:induction false} MovedGrows(b: nat, m: nat, n: nat)
    requires b > 0 && m <= n
    ensures Moved(b, m) <= Moved(b, n) && Track(b, m).0 <= Track(b, n).0
    decreases n
  {
    if m < n {
      MovedGrows(b, m, n - 1);
    }
  }

  /** The block of a word lies in front of any later end of a block. */
  lemma BlockOfWord(b: nat, i: nat, n: nat)
    requires b > 0 && i < n && Track(b, n).1 == 0
    ensures Track(b, i).0 + b <= Moved(b, n)
  {
    MovedGrows(b, i, n - 1);
  }

  // ------------------------------------------------------------ reading

  /** After n reads. */
  function Reads(p: Port, n: nat): (q: Port)
    requires Inv(p)
    ensures Inv(q)
  {
    if n == 0 then p
    else
      StepsKeep(Reads(p, n - 1), 0);
      ReadWord(Reads(p, n - 1))
  }

  /** The word that read number n returns. */
  function WordRead(p: Port, n: nat): nat
    requires Inv(p)
  {
    Reads(p, n + 1).dat
  }

  /** A multi-block read of blocks of b from address a stands after n words. */
  predicate Reading(q: Port, p: Port, a: nat, b: nat, n: nat)
    requires b > 0
  {
    var t := Track(b, n);
    && q.present && q.multiple && q.card == p.card
    && q.roff == a + t.0 && q.rindex == t.1
    && a + t.0 + b <= |q.card|
    && q.rbuf == Piece(q.card, a + t.0, b)
  }

  lemma {:induction false} ReadsTrack(p: Port, a: nat, b: nat, n: nat)
    requires b > 0 && Inv(p) && Reading(p, p, a, b, 0)
    requires a + Track(b, n).0 + b <= |p.card| && a + Track(b, n).0 < WRAP
    ensures Reading(Reads(p, n), p, a, b, n)
  {
    hide WordOf, Track, ReadWord;
    if n == 0 {
    } else {
      MovedGrows(b, n - 1, n);
      ReadsTrack(p, a, b, n - 1);
      ReadTracks(Reads(p, n - 1), p, a, b, n - 1);
    }
  }

  lemma ReadTracks(q: Port, p: Port, a: nat, b: nat, n: nat)
    requires b > 0 && Inv(q) && Reading(q, p, a, b, n)
    requires a + Track(b, n + 1).0 + b <= |p.card| && a + Track(b, n + 1).0 < WRAP
    ensures Reading(ReadWord(q), p, a, b, n + 1)
  {
    hide WordOf, Piece;
    var t := Track(b, n);
    PieceLength(q.card, a + t.0, b);
    if t.1 + 4 >= b {
      PieceLength(q.card, a + t.0 + b, b);
    }
  }

  lemma PieceLength(d: seq<byte>, a: nat, n: nat)
    requires a + n <= |d|
    ensures |Piece(d, a, n)| == n
  {}

  /** After CMD18 the reads of SDIDAT spell out, high byte first and across block
      reloads, the bytes of the card from the argument address on, as long as the
      card has the block. */
  lemma ReadSpells(p: Port, data: nat, n: nat)
    requires Inv(p) && p.present && data < WRAP && Starts(data) && data % 64 == 18
    requires var b := p.bsize % 4096;
             b > 0 && p.arg + Track(b, n).0 + b <= |p.card| && p.arg + Track(b, n).0 < WRAP
    ensures Inv(Command(p, data))
    ensures var b := p.bsize % 4096;
            && p.arg + Moved(b, n) + Taken(b, n) <= |p.card|
            && WordRead(Command(p, data), n) == WordOf(Piece(p.card, p.arg + Moved(b, n), Taken(b, n)))
  {
    hide WordOf, Track, Piece, Inv, Command, ReadWord, Reading, Reads, WordRead, Moved, Taken;
    var b, q := p.bsize % 4096, Command(p, data);
    StepsKeep(p, data);
    CommandReads(p, data);
    ReadsTrack(q, p.arg, b, n);
    NextRead(q, p.arg, b, n);
  }

  lemma CommandReads(p: Port, data: nat)
    requires Inv(p) && p.present && data < WRAP && Starts(data) && data % 64 == 18
    requires p.bsize % 4096 > 0 && p.arg + p.bsize % 4096 <= |p.card|
    ensures Reading(Command(p, data), Command(p, data), p.arg, p.bsize % 4096, 0)
    ensures Command(p, data).card == p.card
  {}

  lemma NextRead(q: Port, a: nat, b: nat, n: nat)
    requires b > 0 && Inv(q) && Reading(Reads(q, n), q, a, b, n)
    ensures a + Moved(b, n) + Taken(b, n) <= |q.card|
    ensures WordRead(q, n) == WordOf(Piece(q.card, a + Moved(b, n), Taken(b, n)))
  {
    hide WordOf, Track, Piece, ReadWord, Inv;
    TrackInside(b, n);
    ReadWithin(Reads(q, n), a + Track(b, n).0, b);
  }

  lemma TrackInside(b: nat, n: nat)
    requires b > 0
    ensures Track(b, n).1 < b
  {}

  /** A read inside a block of b bytes that begins at address a. */
  lemma ReadWithin(r: Port, a: nat, b: nat)
    requires Inv(r) && a + b <= |r.card| && r.rbuf == Piece(r.card, a, b) && r.rindex < b
    ensures ReadWord(r).dat == WordOf(Piece(r.card, a + r.rindex, Min(4, b - r.rindex)))
  {
    hide WordOf, Piece, Inv;
    PieceLength(r.card, a, b);
    SlicePiece(r.card, a, b, r.rindex, Min(4, b - r.rindex));
    assert Delivered(r) == r.rbuf[r.rindex..r.rindex + Min(4, b - r.rindex)];
    ReadDelivers(r);
  }

  lemma ReadDelivers(p: Port)
    requires Inv(p) && p.rbuf != []
    ensures ReadWord(p).dat == WordOf(Delivered(p))
  {
    hide WordOf;
  }

  lemma {:induction false} SingleReads(q: Port, a: nat, b: nat, n: nat)
    requires Inv(q) && !q.multiple && b > 0 && a + b <= |q.card|
    requires q.rbuf == Piece(q.card, a, b) && q.rindex == 0
    ensures var r, t := Reads(q, n), Track(b, n);
            && r.card == q.card && !r.multiple
            && (if t.0 == 0 then r.rbuf == Piece(q.card, a, b) && r.rindex == t.1 else r.rbuf == [])
    ensures Track(b, n).0 == 0 ==>
              && a + Moved(b, n) + Taken(b, n) <= |q.card|
              && WordRead(q, n) == WordOf(Piece(q.card, a + Moved(b, n), Taken(b, n)))
    ensures Track(b, n).0 > 0 ==> Reads(q, n + 1) == Reads(q, n)
  {
    hide WordOf, Piece, Track, ReadWord, Inv;
    PieceLength(q.card, a, b);
    TrackStart(b);
    if n > 0 {
      SingleReads(q, a, b, n - 1);
      MovedGrows(b, n - 1, n);
      SingleStep(Reads(q, n - 1), b, n - 1);
    }
    if Track(b, n).0 == 0 {
      TrackInside(b, n);
      ReadWithin(Reads(q, n), a, b);
    } else {
      SingleStep(Reads(q, n), b, n);
    }
  }

  lemma SingleStep(r: Port, b: nat, n: nat)
    requires Inv(r) && !r.multiple && b > 0
    requires Track(b, n).0 == 0 ==> |r.rbuf| == b && r.rindex == Track(b, n).1
    requires Track(b, n).0 > 0 ==> r.rbuf == []
    ensures var q, t := ReadWord(r), Track(b, n + 1);
            && q.card == r.card && !q.multiple
            && (if t.0 == 0 then q.rbuf == r.rbuf && q.rindex == t.1 else q.rbuf == [])
            && (r.rbuf == [] ==> q == r)
  {
    hide WordOf;
  }

  /** After CMD17 the reads spell out one block; when it is used up, further reads change
      nothing and return the last word again. */
  lemma SingleRead(p: Port, data: nat, n: nat)
    requires Inv(p) && p.present && !p.multiple && data < WRAP && Starts(data) && data % 64 == 17
    requires p.bsize % 4096 > 0 && p.arg + p.bsize % 4096 <= |p.card|
    ensures Inv(Command(p, data))
    ensures var b, q := p.bsize % 4096, Command(p, data);
            && (Track(b, n).0 == 0 ==>
                  && p.arg + Moved(b, n) + Taken(b, n) <= |p.card|
                  && WordRead(q, n) == WordOf(Piece(p.card, p.arg + Moved(b, n), Taken(b, n))))
            && (Track(b, n).0 > 0 ==> Reads(q, n + 1) == Reads(q, n))
            && Reads(q, n).card == p.card
  {
    hide WordOf, Piece, Track, ReadWord, Inv, Command, Reads;
    StepsKeep(p, data);
    CommandReadsOne(p, data);
    SingleReads(Command(p, data), p.arg, p.bsize % 4096, n);
  }

  lemma CommandReadsOne(p: Port, data: nat)
    requires p.present && !p.multiple && Starts(data) && data % 64 == 17
    requires p.arg + p.bsize % 4096 <= |p.card|
    ensures var q := Command(p, data);
            && q.card == p.card && !q.multiple
            && q.rbuf == Piece(p.card, p.arg, p.bsize % 4096) && q.rindex == 0
  {}

  lemma SlicePiece(d: seq<byte>, a: nat, n: nat, o: nat, m: nat)
    requires a + n <= |d| && o + m <= n
    ensures Piece(d, a, n)[o..o + m] == Piece(d, a + o, m)
  {
    PieceOfPiece(d, a, n, o, m);
  }

  // ------------------------------------------------------------ writing

  /** After the first n words. */
  function Writes(p: Port, words: seq<nat>, n: nat): (q: Port)
    requires Inv(p) && n <= |words| && forall i :: 0 <= i < |words| ==> words[i] < WRAP
    ensures Inv(q)
  {
    if n == 0 then p
    else
      StepsKeep(Writes(p, words, n - 1), words[n - 1]);
      WriteWord(Writes(p, words, n - 1), words[n - 1])
  }

  /** The bytes of the first n words that go to the card, in blocks of b. */
  function Sent(b: nat, words: seq<nat>, n: nat): (s: seq<byte>)
    requires b > 0 && n <= |words|
    ensures |s| == Moved(b, n)
  {
    if n == 0 then []
    else
      NoGap(b, n - 1);
      Sent(b, words, n - 1) + EncodeBE(words[n - 1], 4)[..Taken(b, n - 1)]
  }

  /** A multi-block write of blocks of b from address a stands after n words. */
  predicate Writing(q: Port, p: Port, a: nat, b: nat, words: seq<nat>, n: nat)
    requires b > 0 && n <= |words|
  {
    var t, s := Track(b, n), Sent(b, words, n);
    && q.present && q.writable && q.multiple && q.wlen == b
    && q.woff == (a + t.0) % WRAP && a + t.0 <= |p.card|
    && q.wbuf == s[t.0..]
    && q.card == Overlay(p.card, a, s[..t.0])
    && q.arg == p.arg && q.bsize == p.bsize
  }

  lemma {:induction false} WritesTrack(p: Port, a: nat, b: nat, words: seq<nat>, n: nat)
    requires b > 0 && Inv(p) && n <= |words| && forall i :: 0 <= i < |words| ==> words[i] < WRAP
    requires Writing(p, p, a, b, words, 0)
    requires a + Track(b, n).0 <= |p.card| && a + Track(b, n).0 <= WRAP
    ensures Writing(Writes(p, words, n), p, a, b, words, n)
  {
    hide Track, WriteWord, Writing, Sent;
    if n == 0 {
    } else {
      MovedGrows(b, n - 1, n);
      WritesTrack(p, a, b, words, n - 1);
      WriteTracks(Writes(p, words, n - 1), p, a, b, words, n - 1);
    }
  }

  lemma WriteTracks(q: Port, p: Port, a: nat, b: nat, words: seq<nat>, n: nat)
    requires b > 0 && Inv(q) && n < |words| && Writing(q, p, a, b, words, n)
    requires a + Track(b, n + 1).0 <= |p.card| && a + Track(b, n + 1).0 <= WRAP
    ensures Writing(WriteWord(q, words[n]), p, a, b, words, n + 1)
  {
    hide Writing, WriteWord, Inv;
    TrackAfter(b, n);
    if Track(b, n).1 + 4 >= b {
      LastWordOfBlock(q, p, a, b, words, n);
    } else {
      WordInBlock(q, p, a, b, words, n);
    }
  }

  lemma WordInBlock(q: Port, p: Port, a: nat, b: nat, words: seq<nat>, n: nat)
    requires b > 0 && Inv(q) && n < |words| && Writing(q, p, a, b, words, n)
    requires Track(b, n).1 + 4 < b
    ensures Writing(WriteWord(q, words[n]), p, a, b, words, n + 1)
  {
    hide EncodeBE, Overlay, Track;
    var t, s, e := Track(b, n), Sent(b, words, n), Accepted(q, words[n]);
    TrackAfter(b, n);
    SentGrows(b, words, n);
    assert Sent(b, words, n + 1) == s + e;
    assert (s + e)[t.0..] == s[t.0..] + e;
    assert (s + e)[..t.0] == s[..t.0];
  }

  lemma LastWordOfBlock(q: Port, p: Port, a: nat, b: nat, words: seq<nat>, n: nat)
    requires b > 0 && Inv(q) && n < |words| && Writing(q, p, a, b, words, n)
    requires Track(b, n).1 + 4 >= b
    requires a + Track(b, n).0 + b <= |p.card| && a + Track(b, n).0 + b <= WRAP
    ensures Writing(WriteWord(q, words[n]), p, a, b, words, n + 1)
  {
    hide EncodeBE, Overlay, Track, Sent;
    var t, s, e := Track(b, n), Sent(b, words, n), Accepted(q, words[n]);
    TrackAfter(b, n);
    SentGrows(b, words, n);
    SentSize(b, words, n);
    SmallOffset(a + t.0, b);
    assert (s + e)[t.0..] == s[t.0..] + e;
    OverlayExtends(p.card, a, s[..t.0], s[t.0..] + e);
    assert s[..t.0] + (s[t.0..] + e) == s + e == (s + e)[..t.0 + b];
    OverlaySize(p.card, a, s[..t.0]);
  }

  lemma SmallOffset(x: nat, b: nat)
    requires b > 0 && x + b <= WRAP
    ensures x % WRAP == x
  {}

  lemma OverlaySize(d: seq<byte>, at: nat, b: seq<byte>)
    requires at + |b| <= |d|
    ensures |Overlay(d, at, b)| == |d|
  {}

  lemma SentGrows(b: nat, words: seq<nat>, n: nat)
    requires b > 0 && n < |words|
    ensures Sent(b, words, n + 1) == Sent(b, words, n) + EncodeBE(words[n], 4)[..Taken(b, n)]
  {}

  lemma CommandWrites(p: Port, data: nat, words: seq<nat>)
    requires Inv(p) && p.present && p.writable && Starts(data) && data % 64 == 25
    requires p.bsize % 4096 > 0 && p.arg <= |p.card|
    ensures var q := Command(p, data);
            Writing(q, q, p.arg, p.bsize % 4096, words, 0) && q.card == p.card
  {
    hide Overlay, EncodeBE, Track, Taken, Moved, Piece;
    TrackStart(p.bsize % 4096);
    OverlayNothing(p.card, p.arg);
  }

  /** After CMD25 the words written lie on the card, high byte first and without a
      gap, from the argument address on, as soon as the last block is full. */
  lemma WriteStores(p: Port, data: nat, words: seq<nat>, n: nat)
    requires Inv(p) && p.present && p.writable && data < WRAP
    requires Starts(data) && data % 64 == 25
    requires n <= |words| && forall i :: 0 <= i < |words| ==> words[i] < WRAP
    requires var b := p.bsize % 4096;
             && b > 0 && Track(b, n).1 == 0
             && p.arg + Moved(b, n) <= |p.card| && p.arg + Moved(b, n) <= WRAP
    ensures Inv(Command(p, data))
    ensures var b, q := p.bsize % 4096, Writes(Command(p, data), words, n);
            && q.card == Overlay(p.card, p.arg, Sent(b, words, n))
            && q.present && q.arg == p.arg && q.bsize == p.bsize
  {
    hide Track, Command, Writes, Overlay, Sent;
    var b, q := p.bsize % 4096, Command(p, data);
    StepsKeep(p, data);
    CommandWrites(p, data, words);
    CommandKeeps(p, data);
    WritesTrack(q, p.arg, b, words, n);
    SentSize(b, words, n);
    assert Sent(b, words, n)[..Moved(b, n)] == Sent(b, words, n);
  }

  lemma SentSize(b: nat, words: seq<nat>, n: nat)
    requires b > 0 && n <= |words|
    ensures |Sent(b, words, n)| == Moved(b, n)
  {}

  lemma CommandKeeps(p: Port, data: nat)
    ensures var q := Command(p, data);
            q.card == p.card && q.present == p.present && q.arg == p.arg && q.bsize == p.bsize
  {}

  // ------------------------------------------------------------ the round trip

  lemma {:induction false} SentAt(b: nat, words: seq<nat>, n: nat, i: nat)
    requires b > 0 && i < n <= |words|
    ensures Moved(b, i) + Taken(b, i) <= Moved(b, n)
    ensures Piece(Sent(b, words, n), Moved(b, i), Taken(b, i)) == EncodeBE(words[i], 4)[..Taken(b, i)]
  {
    hide Track, EncodeBE;
    NoGap(b, i);
    MovedGrows(b, i + 1, n);
    SentGrows(b, words, n - 1);
    SentSize(b, words, n - 1);
    if i + 1 < n {
      MovedGrows(b, i + 1, n - 1);
      SentAt(b, words, n - 1, i);
    }
  }

  /** What is written through CMD25 is read back through CMD18: each word without
      the bytes that its block had no room for. */
  lemma RoundTrip(p: Port, cmd25: nat, cmd12: nat, cmd18: nat, words: seq<nat>, i: nat)
    requires Inv(p) && p.present && p.writable && cmd25 < WRAP && cmd12 < WRAP && cmd18 < WRAP
    requires Starts(cmd25) && cmd25 % 64 == 25
    requires Starts(cmd12) && cmd12 % 64 == 12
    requires Starts(cmd18) && cmd18 % 64 == 18
    requires forall k :: 0 <= k < |words| ==> words[k] < WRAP
    requires var b := p.bsize % 4096;
             && b > 0 && Track(b, |words|).1 == 0
             && p.arg + Moved(b, |words|) <= |p.card| && p.arg + Moved(b, |words|) <= WRAP
    requires i < |words|
    ensures Inv(Command(p, cmd25))
    ensures var q := Command(Writes(Command(p, cmd25), words, |words|), cmd12);
            && Inv(q) && Inv(Command(q, cmd18))
            && var k := Taken(p.bsize % 4096, i);
               WordRead(Command(q, cmd18), i) == WordOf(EncodeBE(words[i], 4)[..k])
  {
    hide Track, Command, Sent, Inv, WordOf, EncodeBE, Overlay, Writes, Reads;
    var b, n := p.bsize % 4096, |words|;
    WriteStores(p, cmd25, words, n);
    var w := Writes(Command(p, cmd25), words, n);
    var q := Command(w, cmd12);
    InvWrites(Command(p, cmd25), words, n);
    StepsKeep(w, cmd12);
    StepsKeep(q, cmd18);
    CommandKeeps(w, cmd12);
    SentSize(b, words, n);
    OverlaySize(p.card, p.arg, Sent(b, words, n));
    BlockOfWord(b, i, n);
    ReadSpells(q, cmd18, i);
    SentAt(b, words, n, i);
    PieceOfOverlay(p.card, p.arg, Sent(b, words, n), Moved(b, i), Taken(b, i));
  }

  lemma InvWrites(p: Port, words: seq<nat>, n: nat)
    requires Inv(p) && n <= |words| && forall i :: 0 <= i < |words| ==> words[i] < WRAP
    ensures Inv(Writes(p, words, n))
  {}

  lemma PieceOfOverlay(d: seq<byte>, a: nat, s: seq<byte>, o: nat, m: nat)
    requires a + |s| <= |d| && o + m <= |s|
    ensures |Overlay(d, a, s)| == |d|
    ensures Piece(Overlay(d, a, s), a + o, m) == Piece(s, o, m)
  {}

  lemma EncodeFour(w: nat)
    requires w < WRAP
    ensures var e := EncodeBE(w, 4);
            e[0] == w / 16777216 && e[1] == w / 65536 % 256 && e[2] == w / 256 % 256 && e[3] == w % 256
  {
    hide EncodeBE;
    DivSteps(w);
    EncodeStep(w, 3);
    EncodeStep(w / 256, 2);
    EncodeStep(w / 65536, 1);
    EncodeStep(w / 16777216, 0);
  }

  lemma DivSteps(w: nat)
    ensures w / 256 / 256 == w / 65536 && w / 65536 / 256 == w / 16777216
  {}

  lemma EncodeStep(x: nat, n: nat)
    ensures EncodeBE(x, n + 1) == EncodeBE(x / 256, n) + [x % 256]
  {}

  lemma DigitSums(w: nat)
    ensures w % 65536 == 256 * (w / 256 % 256) + w % 256
    ensures w % 16777216 == 65536 * (w / 65536 % 256) + w % 65536
    ensures w == 16777216 * (w / 16777216) + w % 16777216
  {
    DivModUnique(w, 65536, w / 256 / 256, 256 * (w / 256 % 256) + w % 256);
    DivModUnique(w, 16777216, w / 65536 / 256, 65536 * (w / 65536 % 256) + w % 65536);
  }

  lemma DecodeFour(s: seq<byte>)
    requires |s| == 4
    ensures DecodeBE(s) == 16777216 * (s[0] as int) + 65536 * (s[1] as int) + 256 * (s[2] as int) + s[3] as int
  {
    assert s[..3][..2] == s[..2] && s[..2][..1] == s[..1];
    assert DecodeBE(s[..1]) == s[0];
    assert DecodeBE(s[..2]) == 256 * (s[0] as int) + s[1] as int;
    assert DecodeBE(s[..3]) == 65536 * (s[0] as int) + 256 * (s[1] as int) + s[2] as int;
  }

  /** A word comes back unchanged exactly when the bytes left out of it are zero;
      for block sizes that are a multiple of 4 none is left out. */
  lemma KeptExactly(w: nat, k: nat)
    requires w < WRAP && 1 <= k <= 4
    ensures WordOf(EncodeBE(w, 4)[..k]) == w <==> w % Pow256(4 - k) == 0
  {
    hide EncodeBE, DecodeBE, Pow256;
    EncodeFour(w);
    DigitSums(w);
    SmallPowers();
    DecodeFour(EncodeBE(w, 4)[..k] + Zeros(4 - k));
  }

  lemma SmallPowers()
    ensures Pow256(0) == 1 && Pow256(1) == 256 && Pow256(2) == 65536 && Pow256(3) == 16777216
  {}

  /** Written through CMD25 and read through CMD18, a word comes back exactly when the
      bytes that its block had no room for are zero. */
  lemma ComesBackExactly(p: Port, cmd25: nat, cmd12: nat, cmd18: nat, words: seq<nat>, i: nat)
    requires Inv(p) && p.present && p.writable && cmd25 < WRAP && cmd12 < WRAP && cmd18 < WRAP
    requires Starts(cmd25) && cmd25 % 64 == 25
    requires Starts(cmd12) && cmd12 % 64 == 12
    requires Starts(cmd18) && cmd18 % 64 == 18
    requires forall k :: 0 <= k < |words| ==> words[k] < WRAP
    requires var b := p.bsize % 4096;
             && b > 0 && Track(b, |words|).1 == 0
             && p.arg + Moved(b, |words|) <= |p.card| && p.arg + Moved(b, |words|) <= WRAP
    requires i < |words|
    ensures Inv(Command(p, cmd25))
    ensures var q := Command(Writes(Command(p, cmd25), words, |words|), cmd12);
            && Inv(q) && Inv(Command(q, cmd18))
            && (WordRead(Command(q, cmd18), i) == words[i] <==>
                words[i] % Pow256(4 - Taken(p.bsize % 4096, i)) == 0)
  {
    hide Track, Command, Inv, WordOf, EncodeBE, Writes, WordRead, Moved, Pow256;
    RoundTrip(p, cmd25, cmd12, cmd18, words, i);
    KeptExactly(words[i], Taken(p.bsize % 4096, i));
  }

  /** With blocks of 6 bytes the second word of a block keeps only its upper half. */
  lemma SixByteBlocks(w: nat)
    requires w < WRAP
    ensures Taken(6, 0) == 4 && Taken(6, 1) == 2 && Track(6, 2) == (6, 0)
    ensures WordOf(EncodeBE(w, 4)[..2]) == w - w % 65536
  {
    TrackStart(6);
    TrackAfter(6, 0);
    TrackAfter(6, 1);
    hide Track, EncodeBE, DecodeBE, Pow256;
    EncodeFour(w);
    DigitSums(w);
    DecodeFour(EncodeBE(w, 4)[..2] + Zeros(2));
  }

  lemma TrackAfter(b: nat, n: nat)
    requires b > 0
    ensures Track(b, n + 1) ==
              if Track(b, n).1 + 4 >= b then (Track(b, n).0 + b, 0) else (Track(b, n).0, Track(b, n).1 + 4)
  {}

  /** With a block size that is a multiple of 4, the words written come back. */
  lemma WholeBlocksComeBack(p: Port, cmd25: nat, cmd12: nat, cmd18: nat, words: seq<nat>, i: nat)
    requires Inv(p) && p.present && p.writable && cmd25 < WRAP && cmd12 < WRAP && cmd18 < WRAP
    requires Starts(cmd25) && cmd25 % 64 == 25
    requires Starts(cmd12) && cmd12 % 64 == 12
    requires Starts(cmd18) && cmd18 % 64 == 18
    requires forall k :: 0 <= k < |words| ==> words[k] < WRAP
    requires var b := p.bsize % 4096;
             && b > 0 && b % 4 == 0 && Track(b, |words|).1 == 0
             && p.arg + 4 * |words| <= |p.card| && p.arg + 4 * |words| <= WRAP
    requires i < |words|
    ensures Inv(Command(p, cmd25))
    ensures var q := Command(Writes(Command(p, cmd25), words, |words|), cmd12);
            && Inv(q) && Inv(Command(q, cmd18))
            && WordRead(Command(q, cmd18), i) == words[i]
  {
    hide Track, Command, Inv, WordOf, EncodeBE, Writes, WordRead, Moved;
    WholeWords(p.bsize % 4096, |words|);
    WholeWords(p.bsize % 4096, i);
    RoundTrip(p, cmd25, cmd12, cmd18, words, i);
    KeptExactly(words[i], 4);
    SmallPowers();
  }
}
