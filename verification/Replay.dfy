/** Runs of byte requests against the block layer: the whole stack, from byte
    emulation down to the two-level map in the file, answers as one flat mutable
    array of bytes would. */
module Replay {
  import opened Bytes
  import opened QcowMap
  import opened QcowRoom
  import opened QcowCache
  import opened QcowDisk
  import opened QcowImage
  import opened HostFile
  import opened Block

  datatype Request =
    | ReadAt(offset: nat, count: nat)
    | WriteAt(offset: nat, data: seq<byte>)
  {
    predicate Within(size: nat) {
      match this
      case ReadAt(offset, count) => offset + count <= size
      case WriteAt(offset, data) => offset + |data| <= size
    }

    /** What the request does to a flat array. */
    function Applied(v: seq<byte>): (u: seq<byte>)
      requires Within(|v|)
      ensures |u| == |v|
    {
      match this
      case ReadAt(_, _) => v
      case WriteAt(offset, data) => Overlay(v, offset, data)
    }

    /** What a flat array answers. */
    function Answer(v: seq<byte>): seq<byte>
      requires Within(|v|)
    {
      match this
      case ReadAt(offset, count) => Piece(v, offset, count)
      case WriteAt(_, _) => []
    }
  }

  predicate AllWithin(reqs: seq<Request>, size: nat)
  {
    forall n: nat :: n < |reqs| ==> reqs[n].Within(size)
  }

  /** A flat array after the first n requests. */
  function FlatAfter(v: seq<byte>, reqs: seq<Request>, n: nat): (u: seq<byte>)
    requires AllWithin(reqs, |v|) && n <= |reqs|
    ensures |u| == |v|
  {
    if n == 0 then v else reqs[n - 1].Applied(FlatAfter(v, reqs, n - 1))
  }

  /** The byte the last of the first n requests to write position k left there. */
  function LastWrite(reqs: seq<Request>, n: nat, k: nat): Option<byte>
    requires n <= |reqs|
  {
    if n == 0 then None
    else
      match reqs[n - 1]
      case ReadAt(_, _) => LastWrite(reqs, n - 1, k)
      case WriteAt(offset, data) =>
        if offset <= k < offset + |data| then Some(data[k - offset]) else LastWrite(reqs, n - 1, k)
  }

  /** Every byte of the array is its last written value, or else the original. */
  lemma {:induction false} LastWriteWins(v: seq<byte>, reqs: seq<Request>, n: nat, k: nat)
    requires AllWithin(reqs, |v|) && n <= |reqs|
    requires k < |v|
    ensures FlatAfter(v, reqs, n)[k] ==
            match LastWrite(reqs, n, k) { case Some(b) => b case None => v[k] }
  {
    if n == 0 {
    } else {
      LastWriteWins(v, reqs, n - 1, k);
      assert reqs[n - 1].Within(|v|);
    }
  }

  /** One request on a writable device. */
  method Step(bs: BlockDriverState, r: Request) returns (answer: seq<byte>)
    requires bs.Valid() && !bs.readOnly
    requires r.Within(bs.Size())
    modifies bs.drv.Repr(), bs.bootSectorData
    ensures bs.Valid()
    ensures bs.View() == r.Applied(old(bs.View()))
    ensures answer == r.Answer(old(bs.View()))
    ensures HeaderKeeps(bs.drv.g, old(bs.drv.hd.data), bs.drv.hd.data)
  {
    hide DriverSound, WellFormed, ClusterCacheOk, Lossless, Capacity, Overlay, CowSafe, Piece, Disk, HeaderKeeps;
    bs.HeaderSame();
    match r
    case ReadAt(offset, count) =>
      answer := ReadBytes(bs, offset, count);
    case WriteAt(offset, data) =>
      var _ := bs.Pwrite(offset, data);
      answer := [];
  }

  method ReadBytes(bs: BlockDriverState, offset: nat, count: nat) returns (answer: seq<byte>)
    requires bs.Valid() && offset + count <= bs.Size()
    modifies bs.drv.Repr()
    ensures bs.Valid() && bs.View() == old(bs.View()) && bs.drv.hd.data == old(bs.drv.hd.data)
    ensures answer == Piece(old(bs.View()), offset, count)
  {
    hide DriverSound, WellFormed, ClusterCacheOk, Lossless, Capacity, Overlay, CowSafe, Piece, Disk;
    var buf := new byte[count](_ => 0);
    OverlayAll(buf[..], Piece(bs.View(), offset, count));
    var _ := bs.Pread(offset, buf, count);
    answer := buf[..];
  }

  /** Each answer is the one a flat array, at first v, gives at that point. */
  ghost predicate Answered(v: seq<byte>, reqs: seq<Request>, answers: seq<seq<byte>>)
    requires AllWithin(reqs, |v|)
  {
    && |answers| == |reqs|
    && forall n: nat :: n < |reqs| ==> answers[n] == reqs[n].Answer(FlatAfter(v, reqs, n))
  }

  /** Any run of byte reads and writes on a writable device. */
  method Run(bs: BlockDriverState, reqs: seq<Request>) returns (answers: seq<seq<byte>>)
    requires bs.Valid() && !bs.readOnly
    requires AllWithin(reqs, bs.Size())
    modifies bs.drv.Repr(), bs.bootSectorData
    ensures bs.Valid()
    ensures bs.View() == FlatAfter(old(bs.View()), reqs, |reqs|)
    ensures Answered(old(bs.View()), reqs, answers)
    ensures HeaderKeeps(bs.drv.g, old(bs.drv.hd.data), bs.drv.hd.data)
  {
    hide DriverSound, WellFormed, ClusterCacheOk, Lossless, Capacity, Overlay, CowSafe, Piece, Disk, HeaderKeeps,
         Request.Applied, Request.Answer;
    ghost var v, f0 := bs.View(), bs.drv.hd.data;
    bs.HeaderSame();
    answers := [];
    var i := 0;
    while i < |reqs|
      invariant 0 <= i <= |reqs| && |answers| == i
      invariant bs.Valid()
      invariant bs.View() == FlatAfter(v, reqs, i)
      invariant HeaderKeeps(bs.drv.g, f0, bs.drv.hd.data)
      invariant forall n: nat :: n < i ==> answers[n] == reqs[n].Answer(FlatAfter(v, reqs, n))
    {
      ghost var f1 := bs.drv.hd.data;
      var answer := Step(bs, reqs[i]);
      bs.HeaderChain(f0, f1);
      answers := answers + [answer];
      i := i + 1;
    }
  }

  // ------------------------------------------------------------ the life of an image

  /** What a new image of this many sectors reads as. */
  function Blank(totalSize: nat, base: Option<seq<byte>>): (v: seq<byte>)
    ensures |v| == 512 * totalSize
  {
    BaseBytes(base, 0, 512 * totalSize)
  }

  /** A backing image is at least as long as the image over it. */
  predicate Covers(base: Option<seq<byte>>, totalSectors: nat)
  {
    base.Some? ==> 512 * totalSectors <= |base.value|
  }

  /** f is a sound image of n sectors with geometry g, and byte writes over base are
      flat on it. */
  ghost predicate Mountable(f: seq<byte>, n: nat, g: Geometry, z: Codec, base: Option<seq<byte>>)
  {
    && |f| >= HEADER_SIZE && f[32] <= 30 && f[33] <= 26
    && OpenHeader(f).Some? && OpenHeader(f).value.g == g && OpenHeader(f).value.totalSectors == n
    && Lossless(z) && g.Opened() && g.Shape() && WellFormed(g, z, f)
    && Fills(g) && Roomy(g, f)
    && CowSafe(g, base) && 512 <= 512 * n <= Capacity(g) && Covers(base, n)
  }

  ghost function Mounted(f: seq<byte>, n: nat, g: Geometry, z: Codec, base: Option<seq<byte>>): (v: seq<byte>)
    requires Mountable(f, n, g, z, base)
    ensures |v| == 512 * n
  {
    Piece(Disk(g, z, base, f), 0, 512 * n)
  }

  lemma CreatedIsBlank(totalSize: nat, backing: Option<seq<byte>>, z: Codec, base: Option<seq<byte>>)
    requires Creatable(totalSize, backing) && totalSize > 0 && Lossless(z)
    requires (backing.Some? || base.None?) && Covers(base, totalSize)
    ensures var f, g := CreatedFile(totalSize, backing, false), CreatedShape(totalSize, backing);
            && Mountable(f, totalSize, g, z, base)
            && Mounted(f, totalSize, g, z, base) == Blank(totalSize, base)
            && HeaderKeeps(g, f, f)
  {
    hide CreatedFile, OpenHeader, WellFormed, Capacity, CowSafe, GeometryOf, Geometry.Opened, Lossless, Fills, Roomy;
    CreatedOpens(totalSize, backing, false);
    CreatedIsSound(totalSize, backing, false, z, base);
  }

  /** A device over a file that holds a sound image. */
  method Attach(file: HostFile, ghost n: nat, ghost g: Geometry, z: Codec, base: Option<seq<byte>>)
    returns (bs: BlockDriverState)
    requires Mountable(file.data, n, g, z, base)
    ensures bs.Valid() && !bs.readOnly && !bs.bootSectorEnabled
    ensures bs.drv.hd == file && bs.drv.g == g && bs.drv.z == z && bs.drv.base == base && bs.totalSectors == n
    ensures file.data == old(file.data) && bs.View() == Mounted(file.data, n, g, z, base)
    ensures fresh(bs.drv.Repr() - {file}) && fresh(bs.bootSectorData)
  {
    hide OpenHeader, WellFormed, Capacity, CowSafe, DriverSound, ClusterCacheOk, Disk, Lossless, Geometry.Opened,
         Fills, Roomy;
    var q := Open(file, z, base);
    bs := new BlockDriverState(q.value, OpenHeader(file.data).value.totalSectors, false, false);
  }

  /** A created image that has only been written through the driver opens again. */
  lemma Remount(totalSize: nat, backing: Option<seq<byte>>, z: Codec, base: Option<seq<byte>>, bs: BlockDriverState)
    requires Creatable(totalSize, backing) && totalSize > 0
    requires (backing.Some? || base.None?) && Covers(base, totalSize)
    requires bs.Valid() && bs.drv.g == CreatedShape(totalSize, backing) && bs.drv.z == z && bs.drv.base == base
    requires bs.totalSectors == totalSize
    requires HeaderKeeps(bs.drv.g, CreatedFile(totalSize, backing, false), bs.drv.hd.data)
    ensures !bs.bootSectorEnabled ==>
              && Mountable(bs.drv.hd.data, totalSize, bs.drv.g, z, base)
              && Mounted(bs.drv.hd.data, totalSize, bs.drv.g, z, base) == bs.View()
  {
    hide CreatedFile, OpenHeader, WellFormed, Capacity, CowSafe, GeometryOf, Geometry.Opened, Lossless, DriverSound,
         ClusterCacheOk, Disk, Fills, Roomy, Laid;
    bs.drv.Facts();
    CreatedOpens(totalSize, backing, false);
    CreatedIsSound(totalSize, backing, false, z, base);
    CreatedReopens(totalSize, backing, false, bs.drv.hd.data);
  }

  predicate SessionsWithin(sessions: seq<seq<Request>>, size: nat)
  {
    forall k: nat :: k < |sessions| ==> AllWithin(sessions[k], size)
  }

  /** A flat array after the first k sessions. */
  function AfterSessions(v: seq<byte>, sessions: seq<seq<Request>>, k: nat): (u: seq<byte>)
    requires SessionsWithin(sessions, |v|) && k <= |sessions|
    ensures |u| == |v|
  {
    if k == 0 then v else FlatAfter(AfterSessions(v, sessions, k - 1), sessions[k - 1], |sessions[k - 1]|)
  }

  /** One session: open, any run, and drop the driver. */
  method Session(totalSize: nat, backing: Option<seq<byte>>, z: Codec, base: Option<seq<byte>>,
                 file: HostFile, reqs: seq<Request>)
    returns (answers: seq<seq<byte>>)
    requires Creatable(totalSize, backing) && totalSize > 0
    requires (backing.Some? || base.None?) && Covers(base, totalSize)
    requires Mountable(file.data, totalSize, CreatedShape(totalSize, backing), z, base)
    requires HeaderKeeps(CreatedShape(totalSize, backing), CreatedFile(totalSize, backing, false), file.data)
    requires AllWithin(reqs, 512 * totalSize)
    modifies file
    ensures var g := CreatedShape(totalSize, backing);
            && Mountable(file.data, totalSize, g, z, base)
            && Answered(old(Mounted(file.data, totalSize, g, z, base)), reqs, answers)
            && Mounted(file.data, totalSize, g, z, base) ==
               FlatAfter(old(Mounted(file.data, totalSize, g, z, base)), reqs, |reqs|)
            && HeaderKeeps(g, CreatedFile(totalSize, backing, false), file.data)
  {
    hide CreatedFile, OpenHeader, Capacity, CowSafe, DriverSound, WellFormed, ClusterCacheOk, Lossless, Disk,
         Mountable, Mounted, Answered, HeaderKeeps, CreatedShape;
    ghost var g, f0, f1 := CreatedShape(totalSize, backing), CreatedFile(totalSize, backing, false), file.data;
    var bs := Attach(file, totalSize, g, z, base);
    answers := Run(bs, reqs);
    bs.HeaderChain(f0, f1);
    Remount(totalSize, backing, z, base, bs);
  }

  /** From qcow_create on, over any number of sessions that each open the file, make
      any run of byte reads and writes, and drop the driver: every read answers as
      one flat array would that at first shows the backing image, or zeros. */
  method Lifetime(totalSize: nat, backing: Option<seq<byte>>, z: Codec, base: Option<seq<byte>>,
                  sessions: seq<seq<Request>>)
    returns (answers: seq<seq<seq<byte>>>)
    requires Creatable(totalSize, backing) && totalSize > 0 && Lossless(z)
    requires (backing.Some? || base.None?) && Covers(base, totalSize)
    requires SessionsWithin(sessions, 512 * totalSize)
    ensures |answers| == |sessions|
    ensures forall k: nat :: k < |sessions| ==>
              Answered(AfterSessions(Blank(totalSize, base), sessions, k), sessions[k], answers[k])
  {
    hide CreatedFile, CreatedShape, L1SizeFor, Capacity, Lossless, Disk, Mountable, Mounted, Answered, HeaderKeeps,
         Blank, Covers;
    CreatableSize(totalSize, backing);
    var file := Create(totalSize, backing, false);
    ghost var g := CreatedShape(totalSize, backing);
    CreatedIsBlank(totalSize, backing, z, base);
    ghost var v := Blank(totalSize, base);
    answers := [];
    var k := 0;
    while k < |sessions|
      invariant 0 <= k <= |sessions| && |answers| == k
      invariant Mountable(file.data, totalSize, g, z, base)
      invariant SessionsWithin(sessions, |v|)
      invariant Mounted(file.data, totalSize, g, z, base) == AfterSessions(v, sessions, k)
      invariant HeaderKeeps(g, CreatedFile(totalSize, backing, false), file.data)
      invariant forall n: nat :: n < k ==> Answered(AfterSessions(v, sessions, n), sessions[n], answers[n])
    {
      var a := Session(totalSize, backing, z, base, file, sessions[k]);
      answers := answers + [a];
      k := k + 1;
    }
  }
}
