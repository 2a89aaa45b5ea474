/** The byte-granular block layer over the sector driver: bdrv_read and
    bdrv_write, and the read-modify-write emulation of bdrv_pread and
    bdrv_pwrite for drivers that only know sectors. */
module Block {
  import opened Bytes
  import opened QcowMap
  import opened QcowCache
  import opened QcowDisk
  import opened Qcow

  const ENOMEDIUM: int := 123
  const EACCES: int := 13
  const EIO: int := 5

  class BlockDriverState {
    const drv: Qcow?
    /** bs->total_sectors */
    const totalSectors: nat
    const readOnly: bool
    const bootSectorEnabled: bool
    const bootSectorData: array<byte>

    constructor (drv: Qcow?, totalSectors: nat, readOnly: bool, bootSectorEnabled: bool)
      ensures this.drv == drv && this.totalSectors == totalSectors
      ensures this.readOnly == readOnly && this.bootSectorEnabled == bootSectorEnabled
      ensures bootSectorData.Length == 512 && fresh(bootSectorData)
    {
      this.drv, this.totalSectors := drv, totalSectors;
      this.readOnly, this.bootSectorEnabled := readOnly, bootSectorEnabled;
      bootSectorData := new byte[512](_ => 0);
    }

    ghost function Repr(): set<object>
    {
      {this, bootSectorData} + if drv == null then {} else drv.Repr()
    }

    function Size(): nat
    {
      512 * totalSectors
    }

    /** A medium is present and sound, a backing image covers it, and writes to it
        are flat. */
    ghost predicate Valid()
      reads Repr()
    {
      && bootSectorData.Length == 512
      && drv != null
      && bootSectorData !in drv.Repr() && this !in drv.Repr()
      && drv.Valid() && CowSafe(drv.g, drv.base) && drv.g.Shape()
      && 512 <= Size() <= Capacity(drv.g)
      && (drv.base.Some? ==> Size() <= |drv.base.value|)
    }

    /** The byte array a caller sees: the boot sector overrides sector 0. */
    ghost function View(): (v: seq<byte>)
      requires drv != null && drv.g.Shape() && 512 <= Size() <= Capacity(drv.g)
      requires bootSectorData.Length == 512
      reads bootSectorData, drv.hd
      ensures |v| == Size()
    {
      var v := Piece(drv.Contents(), 0, Size());
      if bootSectorEnabled then Overlay(v, 0, bootSectorData[..]) else v
    }

    lemma ViewPieces(s: nat, n: nat)
      requires drv != null && drv.g.Shape() && 512 <= Size() <= Capacity(drv.g)
      requires bootSectorData.Length == 512
      requires s + n <= Size()
      ensures !bootSectorEnabled || s >= 512 ==> Piece(View(), s, n) == Piece(drv.Contents(), s, n)
      ensures bootSectorEnabled ==> Piece(View(), 0, 512) == bootSectorData[..]
    {
      hide Capacity, Disk;
      var v := Piece(drv.Contents(), 0, Size());
      PieceOfPiece(drv.Contents(), 0, Size(), s, n);
      if bootSectorEnabled {
        OverlayPieces(v, 0, bootSectorData[..], s, n);
      }
    }

    /** The backing image covers every sector, so no read of it is short. */
    lemma AlwaysBacked(s: nat, n: nat)
      requires Valid() && 512 * (s + n) <= Size()
      ensures drv.g.Shape() && Backed(drv.g, drv.base, drv.hd.data, 512 * s, 512 * n)
    {
      hide Qcow.Valid, Qcow.Sound, WordAt, Capacity;
    }

    /** The part of the file before the L1 table stays what it is. */
    lemma HeaderSame()
      requires Valid()
      ensures HeaderKeeps(drv.g, drv.hd.data, drv.hd.data)
    {
      hide DriverSound, WellFormed, Laid, ClusterCacheOk;
      drv.Facts();
    }

    lemma HeaderChain(f0: seq<byte>, f1: seq<byte>)
      requires drv != null
      ensures HeaderKeeps(drv.g, f0, f1) && HeaderKeeps(drv.g, f1, drv.hd.data) ==> HeaderKeeps(drv.g, f0, drv.hd.data)
    {}

    /** bdrv_read. */
    method Read(sectorNum: nat, buf: array<byte>, at: nat, nbSectors: nat) returns (ret: int)
      requires Valid() && buf !in Repr()
      requires at + 512 * nbSectors <= buf.Length
      requires 512 * (sectorNum + nbSectors) <= Size()
      modifies drv.Repr(), buf
      ensures Valid() && View() == old(View()) && drv.hd.data == old(drv.hd.data)
      ensures ret == 0
      ensures buf[..] == Overlay(old(buf[..]), at, old(Piece(View(), 512 * sectorNum, 512 * nbSectors)))
    {
      hide DriverSound, WellFormed, ClusterCacheOk, Lossless, Backed, Seen, Qcow.Sound, Capacity, Disk, Overlay,
           CowSafe;
      ghost var buf0, v := buf[..], View();
      var sector, pos, nb := sectorNum, at, nbSectors;
      if sectorNum == 0 && bootSectorEnabled && nbSectors > 0 {
        ViewPieces(0, 0);
        Memcpy(buf, at, bootSectorData[..]);
        sector, nb, pos := 1, nbSectors - 1, at + 512;
        PieceSplits(v, 0, 512, 512 * nb);
        OverlayExtends(buf0, at, bootSectorData[..], Piece(v, 512, 512 * nb));
        if nb == 0 {
          PieceNothing(v, 512);
          return 0;
        }
      }
      ViewPieces(512 * sector, 512 * nb);
      AlwaysBacked(sector, nb);
      ret := drv.Read(sector, buf, pos, nb);
    }

    /** bdrv_write. */
    method Write(sectorNum: nat, buf: seq<byte>, nbSectors: nat) returns (ret: int)
      requires Valid() && |buf| == 512 * nbSectors
      requires 512 * (sectorNum + nbSectors) <= Size()
      modifies drv.Repr(), bootSectorData
      ensures Valid()
      ensures readOnly ==> ret == -EACCES && View() == old(View()) && drv.hd.data == old(drv.hd.data)
      ensures !readOnly ==> ret == 0 && View() == Overlay(old(View()), 512 * sectorNum, buf)
      ensures !readOnly ==> HeaderKeeps(drv.g, old(drv.hd.data), drv.hd.data)
    {
      hide DriverSound, WellFormed, ClusterCacheOk, Lossless, Backed, Seen, Qcow.Sound, Capacity, Disk, Overlay,
           Progress, HeaderKeeps;
      ghost var d, boot := Piece(drv.Contents(), 0, Size()), bootSectorData[..];
      PieceOverlaid(drv.Contents(), Size(), 512 * sectorNum, buf);
      if readOnly {
        return -EACCES;
      }
      if sectorNum == 0 && bootSectorEnabled && nbSectors > 0 {
        Memcpy(bootSectorData, 0, buf[..512]);
        OverlayAll(boot, buf[..512]);
        OverlayAbsorbs(d, boot, buf);
      } else if bootSectorEnabled {
        OverlayCommutes(d, boot, 512 * sectorNum, buf);
      }
      ret := drv.Write(sectorNum, buf, nbSectors);
    }

    /** Lines 516-532 of bdrv_pread_em: count bytes from the start of a sector, the
        whole sectors in place and then part of the last one. */
    method PreadAligned(sector: nat, buf: array<byte>, at: nat, count: nat, tmpBuf: array<byte>)
      requires Valid() && buf !in Repr() && tmpBuf !in Repr() && tmpBuf != buf && tmpBuf.Length == 512
      requires at + count <= buf.Length && 512 * sector + count <= Size()
      modifies drv.Repr(), buf, tmpBuf
      ensures Valid() && View() == old(View()) && drv.hd.data == old(drv.hd.data)
      ensures buf[..] == Overlay(old(buf[..]), at, old(Piece(View(), 512 * sector, count)))
    {
      hide DriverSound, WellFormed, ClusterCacheOk, Lossless, Backed, Seen, Qcow.Sound, Capacity, Disk, Overlay,
           Piece, CowSafe, View;
      ghost var buf0, v := buf[..], View();
      ReadStarts(buf0, at, v, 512 * sector);
      var nb := count / 512;
      if nb > 0 {
        var _ := Read(sector, buf, at, nb);
      }
      var rest := count - 512 * nb;
      ReadExtends(buf0, at, v, 512 * sector, 512 * nb, rest);
      if rest > 0 {
        ReadPart(sector + nb, 0, buf, at + 512 * nb, rest, tmpBuf);
      }
    }

    /** Bytes [o, o + n) of one sector into buf, by way of a sector-sized buffer. */
    method ReadPart(sector: nat, o: nat, buf: array<byte>, at: nat, n: nat, tmpBuf: array<byte>)
      requires Valid() && buf !in Repr() && tmpBuf !in Repr() && tmpBuf != buf && tmpBuf.Length == 512
      requires at + n <= buf.Length && o + n <= 512 && 512 * (sector + 1) <= Size()
      modifies drv.Repr(), buf, tmpBuf
      ensures Valid() && View() == old(View()) && drv.hd.data == old(drv.hd.data)
      ensures buf[..] == Overlay(old(buf[..]), at, old(Piece(View(), 512 * sector + o, n)))
    {
      hide DriverSound, WellFormed, ClusterCacheOk, Lossless, Backed, Seen, Qcow.Sound, Capacity, Disk, Overlay,
           Piece, CowSafe, View;
      PieceOfPiece(View(), 512 * sector, 512, o, n);
      ReadSector(sector, tmpBuf);
      Memcpy(buf, at, Piece(tmpBuf[..], o, n));
    }

    /** bdrv_pread_em: bytes [offset, offset + count1) into buf at `at`, through
        whole-sector reads. */
    method PreadEm(offset: nat, buf: array<byte>, at: nat, count1: nat) returns (ret: int)
      requires Valid() && buf !in Repr()
      requires at + count1 <= buf.Length && offset + count1 <= Size()
      modifies drv.Repr(), buf
      ensures Valid() && View() == old(View()) && drv.hd.data == old(drv.hd.data)
      ensures ret == count1
      ensures buf[..] == Overlay(old(buf[..]), at, old(Piece(View(), offset, count1)))
    {
      hide DriverSound, WellFormed, ClusterCacheOk, Lossless, Backed, Seen, Qcow.Sound, Capacity, Disk, Overlay,
           Piece, CowSafe, View;
      ghost var buf0, v := buf[..], View();
      var tmpBuf := new byte[512];
      // first read to align to sector start
      var len := (512 - offset) % 512;
      if len > count1 {
        len := count1;
      }
      var sector := offset / 512;
      ToSectorStart(offset, len, count1, totalSectors);
      ReadStarts(buf0, at, v, offset);
      ReadExtends(buf0, at, v, offset, len, count1 - len);
      if len > 0 {
        ReadPart(sector, offset % 512, buf, at, len, tmpBuf);
        if len == count1 {
          return count1;
        }
        sector := sector + 1;
      }
      if len < count1 {
        PreadAligned(sector, buf, at + len, count1 - len, tmpBuf);
      }
      ret := count1;
    }

    /** One sector into a sector-sized buffer. */
    method ReadSector(sector: nat, tmpBuf: array<byte>)
      requires Valid() && tmpBuf !in Repr() && tmpBuf.Length == 512
      requires 512 * (sector + 1) <= Size()
      modifies drv.Repr(), tmpBuf
      ensures Valid() && View() == old(View()) && drv.hd.data == old(drv.hd.data)
      ensures tmpBuf[..] == old(Piece(View(), 512 * sector, 512))
    {
      hide DriverSound, WellFormed, ClusterCacheOk, Lossless, Backed, Seen, Qcow.Sound, Capacity, Disk, Overlay,
           Piece, CowSafe, View;
      OverlayAll(tmpBuf[..], Piece(View(), 512 * sector, 512));
      var _ := Read(sector, tmpBuf, 0, 1);
    }

    /** Bytes [o, o + |b|) of one sector, by reading it, changing it and writing it. */
    method ModifySector(sector: nat, tmpBuf: array<byte>, o: nat, b: seq<byte>) returns (ret: int)
      requires Valid() && tmpBuf !in Repr() && tmpBuf.Length == 512
      requires 512 * (sector + 1) <= Size() && o + |b| <= 512
      modifies drv.Repr(), bootSectorData, tmpBuf
      ensures Valid()
      ensures readOnly ==> ret == -EACCES && View() == old(View()) && drv.hd.data == old(drv.hd.data)
      ensures !readOnly ==> ret == 0 && View() == Overlay(old(View()), 512 * sector + o, b)
      ensures !readOnly ==> HeaderKeeps(drv.g, old(drv.hd.data), drv.hd.data)
    {
      hide DriverSound, WellFormed, ClusterCacheOk, Lossless, Backed, Seen, Qcow.Sound, Capacity, Disk, Overlay,
           Piece, CowSafe, View, HeaderKeeps;
      ghost var v := View();
      ReadSector(sector, tmpBuf);
      Memcpy(tmpBuf, o, b);
      OverlayOfPiece(v, 512 * sector, 512, o, b);
      ret := Write(sector, tmpBuf[..], 1);
    }

    /** Lines 563-582 of bdrv_pwrite_em: buf from the start of a sector, the whole
        sectors in place and then the part of the last one. */
    method PwriteAligned(sectorNum: nat, buf: seq<byte>, tmpBuf: array<byte>) returns (ret: int)
      requires Valid() && tmpBuf !in Repr() && tmpBuf.Length == 512
      requires 512 * sectorNum + |buf| <= Size() && buf != []
      modifies drv.Repr(), bootSectorData, tmpBuf
      ensures Valid()
      ensures readOnly ==> ret == -EIO && View() == old(View()) && drv.hd.data == old(drv.hd.data)
      ensures !readOnly ==> ret == 0 && View() == Overlay(old(View()), 512 * sectorNum, buf)
      ensures !readOnly ==> HeaderKeeps(drv.g, old(drv.hd.data), drv.hd.data)
    {
      hide DriverSound, WellFormed, ClusterCacheOk, Lossless, Backed, Seen, Qcow.Sound, Capacity, Disk, Overlay,
           CowSafe, View, HeaderKeeps;
      ghost var v, f0 := View(), drv.hd.data;
      HeaderSame();
      var nb := |buf| / 512;
      OverlayNothing(v, 512 * sectorNum);
      if nb > 0 {
        var r := Write(sectorNum, buf[..512 * nb], nb);
        if r < 0 {
          return -EIO;
        }
      }
      if |buf| > 512 * nb {
        OverlayExtends(v, 512 * sectorNum, buf[..512 * nb], buf[512 * nb..]);
        assert buf[..512 * nb] + buf[512 * nb..] == buf;
        ghost var f1 := drv.hd.data;
        var r := ModifySector(sectorNum + nb, tmpBuf, 0, buf[512 * nb..]);
        HeaderChain(f0, f1);
        if r < 0 {
          return -EIO;
        }
      } else {
        assert buf[..512 * nb] == buf;
      }
      ret := 0;
    }

    /** bdrv_pwrite_em: buf at byte offset, by whole-sector reads and writes. */
    method PwriteEm(offset: nat, buf: seq<byte>) returns (ret: int)
      requires Valid() && offset + |buf| <= Size()
      modifies drv.Repr(), bootSectorData
      ensures Valid()
      ensures readOnly ==>
                && ret == (if buf == [] then 0 else -EIO)
                && View() == old(View()) && drv.hd.data == old(drv.hd.data)
      ensures !readOnly ==> ret == |buf| && View() == Overlay(old(View()), offset, buf)
      ensures !readOnly ==> HeaderKeeps(drv.g, old(drv.hd.data), drv.hd.data)
    {
      hide DriverSound, WellFormed, ClusterCacheOk, Lossless, Backed, Seen, Qcow.Sound, Capacity, Disk, Overlay,
           CowSafe, View, HeaderKeeps;
      ghost var v, f0 := View(), drv.hd.data;
      HeaderSame();
      var tmpBuf := new byte[512];
      // first write to align to sector start
      var len := (512 - offset) % 512;
      if len > |buf| {
        len := |buf|;
      }
      var sector := offset / 512;
      ToSectorStart(offset, len, |buf|, totalSectors);
      OverlayNothing(v, offset);
      assert buf[..len] + buf[len..] == buf;
      assert len == 0 ==> buf[..len] == [];
      if len > 0 {
        var r := ModifySector(sector, tmpBuf, offset % 512, buf[..len]);
        if r < 0 {
          return -EIO;
        }
        sector := sector + 1;
      }
      if len < |buf| {
        OverlayExtends(v, offset, buf[..len], buf[len..]);
        ghost var f1 := drv.hd.data;
        var r := PwriteAligned(sector, buf[len..], tmpBuf);
        HeaderChain(f0, f1);
        if r < 0 {
          return -EIO;
        }
      } else {
        assert buf[..len] == buf;
      }
      ret := |buf|;
    }

    /** bdrv_pread: the sector driver has no byte reads of its own. */
    method Pread(offset: nat, buf: array<byte>, count1: nat) returns (ret: int)
      requires drv != null ==> Valid() && buf !in Repr() && offset + count1 <= Size()
      requires count1 <= buf.Length
      modifies if drv == null then {} else drv.Repr(), buf
      ensures drv == null ==> ret == -ENOMEDIUM && buf[..] == old(buf[..])
      ensures drv != null ==>
                && Valid() && View() == old(View()) && drv.hd.data == old(drv.hd.data)
                && ret == count1
                && buf[..] == Overlay(old(buf[..]), 0, old(Piece(View(), offset, count1)))
    {
      if drv == null {
        return -ENOMEDIUM;
      }
      ret := PreadEm(offset, buf, 0, count1);
    }

    /** bdrv_pwrite. */
    method Pwrite(offset: nat, buf: seq<byte>) returns (ret: int)
      requires drv != null ==> Valid() && offset + |buf| <= Size()
      modifies if drv == null then {} else drv.Repr(), bootSectorData
      ensures drv == null ==> ret == -ENOMEDIUM
      ensures drv != null ==> Valid()
      ensures drv != null && readOnly ==> ret == (if buf == [] then 0 else -EIO) && View() == old(View())
      ensures drv != null && !readOnly ==> ret == |buf| && View() == Overlay(old(View()), offset, buf)
      ensures drv != null && !readOnly ==> HeaderKeeps(drv.g, old(drv.hd.data), drv.hd.data)
    {
      if drv == null {
        return -ENOMEDIUM;
      }
      ret := PwriteEm(offset, buf);
    }
  }

  /** A request of n bytes at offset begins with len bytes up to a sector boundary, or
      with all of it if that is less. */
  lemma ToSectorStart(offset: nat, len: nat, n: nat, sectors: nat)
    requires offset + n <= 512 * sectors
    requires len == if (512 - offset) % 512 > n then n else (512 - offset) % 512
    ensures 512 * (offset / 512) + offset % 512 == offset && offset % 512 + len <= 512
    ensures len > 0 ==> offset / 512 + 1 <= sectors
    ensures 0 < len < n ==> 512 * (offset / 512 + 1) == offset + len
    ensures len == 0 < n ==> offset % 512 == 0
  {}
}
