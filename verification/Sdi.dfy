/** The SD controller's data path as a device over the byte-granular block layer. */
module Sdi {
  import opened Bytes
  import opened QcowMap
  import opened QcowCache
  import opened QcowDisk
  import opened Block
  import opened SdiSpec

  const ENODEV: int := 19

  class Controller {
    const bs: BlockDriverState?
    var sdicarg: nat
    var sdibsize: nat
    var sdidcnt: nat
    var sdidat: nat
    var readData: array?<byte>
    var nrReadData: nat
    var readOffset: nat
    var readIndex: nat
    var writeData: array?<byte>
    var nrWriteData: nat
    var writeOffset: nat
    var writeIndex: nat
    var multipleBlock: bool

    ghost function CardRepr(): set<object>
    {
      if bs == null then {} else bs.Repr()
    }

    ghost predicate CardSound()
      reads CardRepr()
    {
      bs != null ==> bs.Valid()
    }

    /** The bytes of the card; none without a card. */
    ghost function Card(): seq<byte>
      requires CardSound()
      reads CardRepr()
    {
      if bs == null then [] else bs.View()
    }

    constructor (bs: BlockDriverState?)
      requires bs != null ==> bs.Valid()
      ensures this.bs == bs && Valid() && Card() == if bs == null then [] else bs.View()
      ensures View() == Port(bs != null, bs != null && !bs.readOnly, Card(), 0, 0, false, [], 0, 0, 0, [], 0, 0, 0)
    {
      hide Capacity, Disk, DriverSound, WellFormed, ClusterCacheOk, Lossless, CowSafe;
      this.bs := bs;
      sdicarg, sdibsize, sdidcnt, sdidat := 0, 0, 0, 0;
      readData, nrReadData, readOffset, readIndex := null, 0, 0, 0;
      writeData, nrWriteData, writeOffset, writeIndex := null, 0, 0, 0;
      multipleBlock := false;
    }

    /** bdrv_pread on the card, which fails past its end. */
    method PreadCard(offset: nat, size: nat) returns (buf: array<byte>, n: int)
      requires bs != null && CardSound()
      modifies CardRepr()
      ensures CardSound() && Card() == old(Card())
      ensures fresh(buf) && buf.Length == size && buf !in CardRepr()
      ensures if offset + size <= |Card()| then n == size && buf[..] == Piece(Card(), offset, size) else n < 0
    {
      hide Capacity, Overlay, Piece, Disk, DriverSound, WellFormed, ClusterCacheOk, Lossless, CowSafe;
      ghost var card := Card();
      buf := NewBuffer(size);
      if bs.Size() < offset + size {
        return buf, -EIO;
      }
      ghost var was := buf[..];
      n := bs.Pread(offset, buf, size);
      PieceLength(card, offset, size);
      OverlayAll(was, Piece(card, offset, size));
    }

    /** malloc. */
    method NewBuffer(size: nat) returns (buf: array<byte>)
      requires CardSound()
      ensures fresh(buf) && buf.Length == size && buf !in CardRepr()
      ensures CardSound() && Card() == old(Card())
    {
      hide CardSound, Card;
      ghost var others := CardRepr();
      buf := new byte[size];
      assert buf !in others;
    }

    /** bdrv_pwrite on the card, which takes nothing past its end. */
    method PwriteCard(offset: nat, data: seq<byte>) returns (n: int)
      requires bs != null && CardSound() && data != []
      modifies CardRepr()
      ensures CardSound()
      ensures n == |data| <==> !bs.readOnly && offset + |data| <= |old(Card())|
      ensures if n == |data| then Card() == Overlay(old(Card()), offset, data) else Card() == old(Card())
    {
      hide Capacity, Disk, DriverSound, WellFormed, ClusterCacheOk, Lossless, CowSafe, HeaderKeeps;
      if bs.Size() < offset + |data| {
        return -EIO;
      }
      n := bs.Pwrite(offset, data);
    }

    /** The objects are apart, and the card, if any, is sound. */
    ghost predicate Apart()
      reads this, CardRepr()
    {
      && this !in CardRepr()
      && CardSound()
      && (readData != null ==> readData !in CardRepr())
      && (writeData != null ==> writeData !in CardRepr() && writeData != readData)
    }

    ghost function View(): Port
      requires Apart()
      reads this, CardRepr(), readData, writeData
    {
      Port(bs != null, bs != null && !bs.readOnly, Card(), sdicarg, sdibsize, multipleBlock,
           Prefix(readData, nrReadData), readIndex, readOffset,
           nrWriteData, Prefix(writeData, writeIndex), writeOffset,
           sdidat, sdidcnt)
    }

    ghost predicate Valid()
      reads this, CardRepr(), readData, writeData
    {
      && Apart()
      && Holds(readData, nrReadData) && Holds(writeData, nrWriteData) && writeIndex <= nrWriteData
      && Inv(View())
    }

    // ---------------------------------------------------------- the card

    /** sdcard_read. A transfer that comes up short is answered with what errno happens
        to hold, which may be 0. */
    method CardRead(errno: int) returns (ret: int)
      requires Apart()
      modifies this`readData, this`nrReadData, this`readIndex, CardRepr()
      ensures Apart() && View() == Fetched(old(View()), old(nrReadData))
      ensures Holds(readData, nrReadData) && readIndex == 0
      ensures ret == if bs == null then -ENODEV else if old(readOffset + nrReadData) <= |Card()| then 0 else -errno
    {
      hide Card, CardSound;
      var offset, size := readOffset, nrReadData;
      nrReadData := 0;
      readIndex := 0;
      if bs == null {
        PrefixNone(readData);
        return -ENODEV;
      }
      var n;
      readData, n := PreadCard(offset, size);
      if n != size {
        readData := null;
        PrefixNone(readData);
        return -errno;
      }
      nrReadData := n;
      return 0;
    }

    /** sdcard_write_prepare. */
    method WritePrepare() returns (ret: int)
      requires Apart()
      modifies this`writeData, this`nrWriteData, this`writeIndex
      ensures Apart() && View() == Prepared(old(View()))
      ensures Holds(writeData, nrWriteData) && writeIndex == 0
      ensures ret == if bs == null then -ENODEV else 0
    {
      hide Card, CardSound;
      writeIndex := 0;
      if bs == null {
        nrWriteData := 0;
        PrefixNone(writeData);
        return -ENODEV;
      }
      writeData := NewBuffer(nrWriteData);
      return 0;
    }

    /** sdcard_write: the buffer is freed whether or not the card took it. */
    method CardWrite(errno: int) returns (ret: int)
      requires Apart() && bs != null
      requires writeData != null && 0 < nrWriteData == writeIndex <= writeData.Length
      modifies this`writeData, this`writeIndex, CardRepr()
      ensures Apart() && View() == Flushed(old(View())) && writeData == null && writeIndex == 0
      ensures ret == if !bs.readOnly && old(writeOffset + nrWriteData) <= |old(Card())| then 0 else -errno
    {
      hide Card, CardSound;
      writeIndex := 0;
      var n := PwriteCard(writeOffset, writeData[..nrWriteData]);
      ret := if n == nrWriteData then 0 else -errno;
      writeData := null;
    }

    // ---------------------------------------------------------- the registers

    method StartRead(multiple: bool)
      requires Valid()
      modifies this, CardRepr()
      ensures Apart() && View() == ReadStarted(old(View()), multiple)
      ensures Holds(readData, nrReadData)
      ensures writeData == old(writeData) && nrWriteData == old(nrWriteData) && writeIndex == old(writeIndex)
    {
      hide Card, CardSound, Prefix, Inv, Piece;
      if multiple {
        multipleBlock := true;
      }
      readOffset := sdicarg;
      nrReadData := sdibsize % 4096;
      var errno: int := *;
      var _ := CardRead(errno);
      PrefixSize(readData, nrReadData);
      sdidcnt := 4096 + (nrReadData - readIndex);
    }

    method StartWrite(multiple: bool)
      requires Valid()
      modifies this
      ensures Apart() && View() == WriteStarted(old(View()), multiple)
      ensures Holds(writeData, nrWriteData) && writeIndex == 0
      ensures readData == old(readData) && nrReadData == old(nrReadData)
    {
      hide Card, CardSound, Prefix, Inv;
      if multiple {
        multipleBlock := true;
      }
      writeOffset := sdicarg;
      nrWriteData := sdibsize % 4096;
      var _ := WritePrepare();
      sdidcnt := 4096 + (nrWriteData - writeIndex);
    }

    /** The command that a write of SDICCON starts, if any. */
    method PutCcon(data: nat)
      requires Valid() && data < WRAP
      modifies this, CardRepr()
      ensures Valid() && View() == Command(old(View()), data)
    {
      hide Card, CardSound, ReadStarted, WriteStarted, Inv;
      StepsKeep(View(), data);
      if !Starts(data) {
        return;
      }
      var cmd := data % 64;
      if cmd == 12 {
        multipleBlock := false;
      } else if cmd == 17 || cmd == 18 {
        StartRead(cmd == 18);
      } else if cmd == 24 || cmd == 25 {
        StartWrite(cmd == 25);
      }
    }

    method PutArg(data: nat)
      requires Valid() && data < WRAP
      modifies this`sdicarg
      ensures Valid() && View() == old(View()).(arg := data)
    {
      hide Card, CardSound, Prefix;
      sdicarg := data;
    }

    method PutBsize(data: nat)
      requires Valid() && data < WRAP
      modifies this`sdibsize
      ensures Valid() && View() == old(View()).(bsize := data)
    {
      hide Card, CardSound, Prefix;
      sdibsize := data;
    }

    /** The next byte of the block being read, 0 when it is used up. */
    method GetByte() returns (b: byte)
      requires Apart() && Holds(readData, nrReadData) && readIndex <= nrReadData
      modifies this`readIndex
      ensures Apart() && Holds(readData, nrReadData) && readIndex <= nrReadData
      ensures var p := old(View());
              && View() == p.(rindex := readIndex)
              && |p.rbuf| == nrReadData
              && readIndex == Min(p.rindex + 1, nrReadData)
              && b == if p.rindex < nrReadData then p.rbuf[p.rindex] else 0
    {
      hide Card, CardSound;
      PrefixSize(readData, nrReadData);
      b := 0;
      if nrReadData - readIndex > 0 {
        b := readData[readIndex];
        readIndex := readIndex + 1;
      }
    }

    lemma ViewRead()
      requires Apart() && Holds(readData, nrReadData)
      ensures View().rindex == readIndex && |View().rbuf| == nrReadData
    {
      hide Card, CardSound;
      PrefixSize(readData, nrReadData);
    }

    /** Up to four bytes of the block, the first in the highest place. */
    method GetWord() returns (w: nat)
      requires Valid() && readIndex < nrReadData
      modifies this`readIndex
      ensures Apart() && Holds(readData, nrReadData) && readIndex <= nrReadData
      ensures var p := old(View());
              && View() == p.(rindex := p.rindex + |Delivered(p)|)
              && |p.rbuf| == nrReadData && w == WordOf(Delivered(p))
    {
      hide Card, CardSound, WordOf, Delivered, Prefix, Inv, View, Apart;
      ghost var p := View();
      ViewRead();
      DeliveredBytes(p);
      var b0 := GetByte();
      var b1 := GetByte();
      var b2 := GetByte();
      var b3 := GetByte();
      w := b0 as nat * 16777216 + b1 as nat * 65536 + b2 as nat * 256 + b3 as nat;
      WordIs(Delivered(p), b0, b1, b2, b3);
    }

    /** A block that is used up: with a multi-block read the next one is fetched. */
    method Reload()
      requires Apart() && Holds(readData, nrReadData) && 0 < nrReadData == readIndex
      modifies this, CardRepr()
      ensures Apart() && Holds(readData, nrReadData) && readIndex == 0
      ensures View() == Reloaded(old(View()))
      ensures writeData == old(writeData) && nrWriteData == old(nrWriteData) && writeIndex == old(writeIndex)
      ensures sdidat == old(sdidat)
    {
      hide Card, CardSound, Prefix, Piece;
      PrefixSize(readData, nrReadData);
      readIndex := 0;
      readData := null;
      if multipleBlock {
        readOffset := (readOffset + nrReadData) % WRAP;
        var errno: int := *;
        var _ := CardRead(errno);
        PrefixSize(readData, nrReadData);
      } else {
        nrReadData := 0;
        PrefixNone(readData);
      }
      sdidcnt := nrReadData - readIndex;
    }

    /** A read of SDIDAT. */
    method ReadDat() returns (w: nat)
      requires Valid()
      modifies this, CardRepr()
      ensures Valid() && View() == ReadWord(old(View())) && w == View().dat
    {
      hide Card, CardSound, Inv, WordOf, Reloaded, Prefix;
      StepsKeep(View(), 0);
      PrefixSize(readData, nrReadData);
      IndexInside(View());
      if nrReadData - readIndex > 0 {
        sdidat := GetWord();
        if readIndex >= nrReadData {
          Reload();
        } else {
          sdidcnt := nrReadData - readIndex;
        }
      }
      w := sdidat;
    }

    /** One byte into the block being written, if there is room. */
    method PutByte(b: byte)
      requires Apart() && Holds(writeData, nrWriteData) && writeIndex <= nrWriteData
      modifies this`writeIndex, writeData
      ensures Apart() && Holds(writeData, nrWriteData) && writeIndex <= nrWriteData
      ensures var p := old(View());
              View() == p.(wbuf := WithByte(p.wbuf, b, nrWriteData))
      ensures |View().wbuf| == writeIndex
    {
      hide Card, CardSound;
      PrefixSize(writeData, writeIndex);
      if nrWriteData - writeIndex > 0 {
        writeData[writeIndex] := b;
        writeIndex := writeIndex + 1;
        assert writeData[..writeIndex] == old(writeData[..writeIndex]) + [b];
      }
    }

    /** Up to four bytes of the word, the highest first. */
    method PutWord(w: nat)
      requires Valid() && w < WRAP && writeIndex < nrWriteData
      modifies this`writeIndex, writeData
      ensures Apart() && Holds(writeData, nrWriteData) && writeIndex <= nrWriteData
      ensures var p := old(View());
              && View() == p.(wbuf := p.wbuf + Accepted(p, w))
              && |View().wbuf| == writeIndex
    {
      hide Card, CardSound, EncodeBE, WithByte, Inv;
      ghost var p := View();
      EncodeFour(w);
      FourBytes(p.wbuf, EncodeBE(w, 4), nrWriteData);
      PrefixSize(writeData, writeIndex);
      PutByte(w / 16777216);
      PutByte(w / 65536 % 256);
      PutByte(w / 256 % 256);
      PutByte(w % 256);
    }

    /** A block that is full goes to the card. */
    method Flush()
      requires Apart() && bs != null && Holds(writeData, nrWriteData) && 0 < nrWriteData == writeIndex
      modifies this, CardRepr()
      ensures Apart() && Holds(writeData, nrWriteData) && writeIndex == 0
      ensures View() == Drained(old(View()))
      ensures readData == old(readData) && nrReadData == old(nrReadData)
    {
      hide Card, CardSound, Prefix, Flushed;
      var errno: int := *;
      var _ := CardWrite(errno);
      if multipleBlock {
        writeOffset := (writeOffset + nrWriteData) % WRAP;
        var _ := WritePrepare();
      } else {
        nrWriteData := 0;
      }
      sdidcnt := nrWriteData - writeIndex;
    }

    /** A write of SDIDAT. */
    method WriteDat(data: nat)
      requires Valid() && data < WRAP
      modifies this, CardRepr(), writeData
      ensures Valid() && View() == WriteWord(old(View()), data)
    {
      hide Card, CardSound, Inv, Drained, Prefix, EncodeBE;
      StepsKeep(View(), data);
      PrefixSize(writeData, writeIndex);
      IndexInside(View());
      LatchKeeps(View(), data);
      sdidat := data;
      if nrWriteData - writeIndex > 0 {
        PutWord(data);
        if writeIndex >= nrWriteData {
          Flush();
        } else {
          sdidcnt := nrWriteData - writeIndex;
        }
      }
    }
  }

  ghost predicate Holds(a: array?<byte>, n: nat)
  {
    n > 0 ==> a != null && n <= a.Length
  }

  ghost function Prefix(a: array?<byte>, n: nat): seq<byte>
    reads a
  {
    if a == null || n > a.Length then [] else a[..n]
  }

  lemma PrefixNone(a: array?<byte>)
    ensures Prefix(a, 0) == []
  {}

  lemma PrefixSize(a: array?<byte>, n: nat)
    requires Holds(a, n)
    ensures |Prefix(a, n)| == n
  {}

  /** A byte appended to a block of at most n. */
  function WithByte(s: seq<byte>, b: byte, n: nat): seq<byte>
  {
    if |s| < n then s + [b] else s
  }

  lemma FourBytes(s: seq<byte>, e: seq<byte>, n: nat)
    requires |e| == 4 && |s| < n
    ensures WithByte(WithByte(WithByte(WithByte(s, e[0], n), e[1], n), e[2], n), e[3], n) ==
            s + e[..Min(4, n - |s|)]
  {}
}
