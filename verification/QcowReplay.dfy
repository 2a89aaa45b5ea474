/** Runs of requests to the QCOW driver itself: sector reads and writes, compressed
    writes, emptying and reopening. From qcow_create on, the image answers as one flat
    array of bytes, as long as each stream goes to a cluster that holds nothing yet. */
module QcowReplay {
  import opened Bytes
  import opened QcowMap
  import opened QcowRoom
  import opened QcowAlloc
  import opened QcowCache
  import opened QcowDisk
  import opened QcowRewrite
  import opened Qcow
  import opened QcowImage

  datatype Request =
    | ReadSectors(sector: nat, count: nat)
    | WriteSectors(sector: nat, data: seq<byte>)
    | WriteCluster(sector: nat, data: seq<byte>)
    | Empty
    | Reopen

  datatype Answer = Answer(ret: int, bytes: seq<byte>)

  // ------------------------------------------------------------ the flat array

  /** An array over which base shows. */
  function Bare(base: Option<seq<byte>>, size: nat): (v: seq<byte>)
    ensures |v| == size
  {
    BaseBytes(base, 0, size)
  }

  /** Whole sectors, inside the map, and reads only of what a backing image covers. */
  predicate Within(g: Geometry, r: Request, readable: nat, size: nat)
  {
    match r
    case ReadSectors(s, n) => 512 * (s + n) <= readable <= size
    case WriteSectors(s, data) => |data| % 512 == 0 && 512 * s + |data| <= size
    case WriteCluster(s, data) => |data| % 512 == 0 && 512 * s + |data| <= size
    case _ => true
  }

  function Applied(g: Geometry, base: Option<seq<byte>>, r: Request, v: seq<byte>): (u: seq<byte>)
    requires Within(g, r, |v|, |v|)
    ensures |u| == |v|
  {
    match r
    case WriteSectors(s, data) => Overlay(v, 512 * s, data)
    case WriteCluster(s, data) => if |data| == g.clusterSize then Overlay(v, 512 * s, data) else v
    case Empty => Bare(base, |v|)
    case _ => v
  }

  function Answered(g: Geometry, r: Request, v: seq<byte>): Answer
    requires Within(g, r, |v|, |v|)
  {
    match r
    case ReadSectors(s, n) => Answer(0, Piece(v, 512 * s, 512 * n))
    case WriteCluster(s, data) => Answer(if |data| == g.clusterSize then 0 else -EINVAL, [])
    case _ => Answer(0, [])
  }

  predicate AllWithin(g: Geometry, reqs: seq<Request>, readable: nat, size: nat)
  {
    forall n: nat :: n < |reqs| ==> Within(g, reqs[n], readable, size)
  }

  /** The array after the first n requests. */
  function FlatAfter(g: Geometry, base: Option<seq<byte>>, v: seq<byte>, reqs: seq<Request>, n: nat): (u: seq<byte>)
    requires n <= |reqs| && AllWithin(g, reqs, |v|, |v|)
    ensures |u| == |v|
  {
    if n == 0 then v else Applied(g, base, reqs[n - 1], FlatAfter(g, base, v, reqs, n - 1))
  }

  /** Every request so far got the answer of the array, at first v, at that point. */
  ghost predicate AnsweredAs(g: Geometry, base: Option<seq<byte>>, v: seq<byte>, reqs: seq<Request>,
                             answers: seq<Answer>)
  {
    && |answers| <= |reqs| && AllWithin(g, reqs, |v|, |v|)
    && forall n: nat :: n < |answers| ==> answers[n] == Answered(g, reqs[n], FlatAfter(g, base, v, reqs, n))
  }

  lemma AnsweredMore(g: Geometry, base: Option<seq<byte>>, v: seq<byte>, reqs: seq<Request>,
                     answers: seq<Answer>, a: Answer)
    requires AnsweredAs(g, base, v, reqs, answers) && |answers| < |reqs|
    requires a == Answered(g, reqs[|answers|], FlatAfter(g, base, v, reqs, |answers|))
    ensures AnsweredAs(g, base, v, reqs, answers + [a])
  {
    hide Answered, FlatAfter, Within;
  }

  // ------------------------------------------------------------ where streams may go

  /** One of the first n requests has written to the cluster of guest byte k since the
      image was last emptied. */
  predicate Touched(g: Geometry, reqs: seq<Request>, n: nat, k: nat)
    requires g.clusterSize > 0 && n <= |reqs|
  {
    n > 0 &&
    match reqs[n - 1]
    case WriteSectors(s, data) => Reached(g, 512 * s, |data|, k) || Touched(g, reqs, n - 1, k)
    case WriteCluster(s, data) =>
      (|data| == g.clusterSize && Reached(g, 512 * s, |data|, k)) || Touched(g, reqs, n - 1, k)
    case Empty => false
    case _ => Touched(g, reqs, n - 1, k)
  }

  predicate Packed(g: Geometry, z: Codec, data: seq<byte>)
  {
    |data| == g.clusterSize && |Deflate(z, data)| < g.clusterSize
  }

  /** The image was emptied, and the driver neither reopened nor made to write plain
      sectors since: the one case in which its decompression cache may name an offset
      that the file has yet to reach. */
  predicate Ahead(g: Geometry, z: Codec, reqs: seq<Request>, n: nat)
    requires n <= |reqs|
  {
    n > 0 &&
    match reqs[n - 1]
    case Empty => true
    case Reopen => false
    case WriteSectors(_, _) => false
    case WriteCluster(_, data) =>
      (Packed(g, z, data) || |data| != g.clusterSize) && Ahead(g, z, reqs, n - 1)
    case ReadSectors(_, _) => Ahead(g, z, reqs, n - 1)
  }

  /** A compressed write is aligned, and its stream goes to a cluster that nothing was
      written to, not right after the image was emptied. */
  predicate Allowed(g: Geometry, z: Codec, reqs: seq<Request>, n: nat)
    requires g.clusterSize > 0 && n < |reqs|
  {
    reqs[n].WriteCluster? && |reqs[n].data| == g.clusterSize ==>
      && ClusterStart(g, 512 * reqs[n].sector) == 512 * reqs[n].sector
      && (Packed(g, z, reqs[n].data) ==>
            !Touched(g, reqs, n, 512 * reqs[n].sector) && !Ahead(g, z, reqs, n))
  }

  predicate AllAllowed(g: Geometry, z: Codec, reqs: seq<Request>)
    requires g.clusterSize > 0
  {
    forall n: nat :: n < |reqs| ==> Allowed(g, z, reqs, n)
  }

  // ------------------------------------------------------------ the driver along a run

  /** Clusters that were not touched are not mapped. */
  ghost predicate Unmapped(g: Geometry, f: seq<byte>, reqs: seq<Request>, n: nat)
    requires g.Shape() && n <= |reqs|
  {
    forall k: nat :: Addressable(g, k) && !Touched(g, reqs, n, k) ==> WordAt(g, f, k) == 0
  }

  /** After a stream in the cluster of guest byte k0 the other clusters keep their words. */
  lemma StreamUnmapped(g: Geometry, z: Codec, f: seq<byte>, f': seq<byte>, k0: nat, content: seq<byte>, k: nat)
    requires g.Shape() && Addressable(g, k) && StoredOk(g, z, f, L1Index(g, k0), L2Index(g, k0), content, f')
    requires ClusterStart(g, k0) == k0 && !Reached(g, k0, g.clusterSize, k)
    ensures WordAt(g, f', k) == WordAt(g, f, k)
  {
    hide WellFormed, ClusterWord, L1Index, L2Index, WordExtent, Expand, SameContent, Total, Roomy;
    SplitInjective(g, k);
    SameCluster(g, k0, k);
    WholeClusterReach(g, k0, k);
  }

  // ------------------------------------------------------------ one request

  /** What a run keeps true of the driver. */
  ghost predicate Kept(q: Qcow, readable: nat, reqs: seq<Request>, n: nat, v: seq<byte>)
    requires n <= |reqs|
    reads q.Repr()
  {
    && q.Valid() && CowSafe(q.g, q.base)
    && readable <= Capacity(q.g) && (q.base.Some? ==> readable <= |q.base.value|)
    && Total(q.g, q.hd.data) <= q.g.Limit() && EmptyTotal(q.g) <= q.g.Limit()
    && q.Contents() == v
    && Unmapped(q.g, q.hd.data, reqs, n)
    && (!Ahead(q.g, q.z, reqs, n) ==> q.Behind())
  }

  lemma SameMap(g: Geometry, f: seq<byte>, f': seq<byte>, reqs: seq<Request>, n: nat)
    requires g.Shape() && n < |reqs| && Unmapped(g, f, reqs, n)
    requires forall k: nat :: Addressable(g, k) && !Touched(g, reqs, n + 1, k) ==>
               !Touched(g, reqs, n, k) && WordAt(g, f', k) == WordAt(g, f, k)
    ensures Unmapped(g, f', reqs, n + 1)
  {
    hide WordAt, Touched;
  }

  /** qcow_read. */
  method StepRead(q: Qcow, readable: nat, ghost reqs: seq<Request>, ghost n: nat, ghost v: seq<byte>, s: nat,
                  count: nat)
    returns (answer: Answer)
    requires n < |reqs| && reqs[n] == ReadSectors(s, count)
    requires Kept(q, readable, reqs, n, v) && Within(q.g, reqs[n], readable, |v|)
    modifies q.Repr()
    ensures q.g.Shape() && q.hd.data == old(q.hd.data)
    ensures Kept(q, readable, reqs, n + 1, v)
    ensures answer == Answered(q.g, reqs[n], v)
  {
    hide DriverSound, WellFormed, ClusterCacheOk, Lossless, Capacity, Disk, Seen, CowSafe, Total, EmptyTotal, WordAt,
         Reached, Overlay, Piece, Inflated, Expand;
    var buf := new byte[512 * count];
    AlwaysReadable(q.g, q.base, q.hd.data, 512 * s, 512 * count, readable);
    OverlayAll(buf[..], Piece(v, 512 * s, 512 * count));
    var ret := q.Read(s, buf, 0, count);
    SameMap(q.g, q.hd.data, q.hd.data, reqs, n);
    answer := Answer(ret, buf[..]);
  }

  lemma AlwaysReadable(g: Geometry, base: Option<seq<byte>>, f: seq<byte>, lo: nat, len: nat, readable: nat)
    requires g.clusterSize > 0 && g.l2Size > 0 && lo + len <= readable && (base.Some? ==> readable <= |base.value|)
    ensures Backed(g, base, f, lo, len)
  {
    hide WordAt;
  }

  /** qcow_write. */
  method StepWrite(q: Qcow, readable: nat, ghost reqs: seq<Request>, ghost n: nat, ghost v: seq<byte>,
                   s: nat, data: seq<byte>)
    returns (answer: Answer)
    requires n < |reqs| && reqs[n] == WriteSectors(s, data)
    requires Kept(q, readable, reqs, n, v) && Within(q.g, reqs[n], readable, |v|)
    modifies q.Repr()
    ensures q.g.Shape() && HeaderKeeps(q.g, old(q.hd.data), q.hd.data)
    ensures Kept(q, readable, reqs, n + 1, Applied(q.g, q.base, reqs[n], v))
    ensures answer == Answered(q.g, reqs[n], v)
  {
    hide DriverSound, WellFormed, ClusterCacheOk, Lossless, Capacity, Disk, CowSafe, Total, EmptyTotal, WordAt,
         Reached, Overlay, Piece, DiskByte, WrittenByte;
    ghost var f := q.hd.data;
    assert 512 * (|data| / 512) == |data|;
    var ret := q.Write(s, data, |data| / 512);
    SameMap(q.g, f, q.hd.data, reqs, n);
    answer := Answer(ret, []);
  }

  /** The stream, if there is one, goes to an unmapped cluster, at an offset that fits. */
  lemma StreamRoom(q: Qcow, reqs: seq<Request>, n: nat, s: nat, data: seq<byte>)
    requires q.Valid() && n < |reqs| && reqs[n] == WriteCluster(s, data)
    requires 512 * s + |data| <= Capacity(q.g)
    requires Total(q.g, q.hd.data) <= q.g.Limit()
    requires Unmapped(q.g, q.hd.data, reqs, n) && Allowed(q.g, q.z, reqs, n)
    ensures q.Packs(data) ==>
              && !Ahead(q.g, q.z, reqs, n)
              && WordAt(q.g, q.hd.data, 512 * s) == 0 && q.NextStream(512 * s) < q.g.Limit()
  {
    hide DriverSound, WellFormed, ClusterCacheOk, Lossless, Capacity, Total, WordAt, Roomy, WithTable, Deflate,
         Touched, Ahead, ClusterStart, L1Index;
    if q.Packs(data) {
      q.Facts();
      CapacityBound(q.g, 512 * s);
      StreamFits(q.g, q.z, q.hd.data, 512 * s);
    }
  }

  /** What a compressed write leaves unmapped. */
  lemma ClusterMap(g: Geometry, z: Codec, base: Option<seq<byte>>, f: seq<byte>, f': seq<byte>,
                   reqs: seq<Request>, n: nat, s: nat, data: seq<byte>)
    requires g.Shape() && n < |reqs| && reqs[n] == WriteCluster(s, data) && Unmapped(g, f, reqs, n)
    requires |data| != g.clusterSize ==> f' == f
    requires |data| == g.clusterSize ==>
               && ClusterStart(g, 512 * s) == 512 * s
               && (Progress(g, z, base, f, f', 512 * s, data)
                   || StoredOk(g, z, f, L1Index(g, 512 * s), L2Index(g, 512 * s), data, f'))
    ensures Unmapped(g, f', reqs, n + 1)
  {
    hide WordAt, Reached, StoredOk, ClusterStart, DiskByte, WrittenByte, L1Index, L2Index;
    forall k: nat | Addressable(g, k) && !Touched(g, reqs, n + 1, k)
      ensures !Touched(g, reqs, n, k) && WordAt(g, f', k) == WordAt(g, f, k)
    {
      if |data| == g.clusterSize && !Progress(g, z, base, f, f', 512 * s, data) {
        StreamUnmapped(g, z, f, f', 512 * s, data, k);
      }
    }
    SameMap(g, f, f', reqs, n);
  }

  /** qcow_write_compressed. */
  method StepCluster(q: Qcow, readable: nat, ghost reqs: seq<Request>, ghost n: nat, ghost v: seq<byte>,
                     s: nat, data: seq<byte>)
    returns (answer: Answer)
    requires n < |reqs| && reqs[n] == WriteCluster(s, data)
    requires Kept(q, readable, reqs, n, v) && Within(q.g, reqs[n], readable, |v|) && Allowed(q.g, q.z, reqs, n)
    modifies q.Repr()
    ensures q.g.Shape() && HeaderKeeps(q.g, old(q.hd.data), q.hd.data)
    ensures Kept(q, readable, reqs, n + 1, Applied(q.g, q.base, reqs[n], v))
    ensures answer == Answered(q.g, reqs[n], v)
  {
    hide DriverSound, WellFormed, ClusterCacheOk, Lossless, Capacity, Disk, CowSafe, Total, EmptyTotal, WordAt,
         Reached, Overlay, Piece, DiskByte, WrittenByte, Restream, SparesTables, OthersKeep, Inflated, Expand,
         WordExtent, EntrySize, EntryOffset, HoldsAt, ClusterStart, StoredOk, WithTable, Inflate, Deflate, Progress,
         L1Index, L2Index, Roomy;
    ghost var f := q.hd.data;
    q.Facts();
    assert 512 * (|data| / 512) == |data|;
    StreamRoom(q, reqs, n, s, data);
    var ret := q.WriteCompressed(s, data, |data| / 512);
    ClusterMap(q.g, q.z, q.base, f, q.hd.data, reqs, n, s, data);
    answer := Answer(ret, []);
  }

  /** qcow_make_empty. */
  method StepEmpty(q: Qcow, readable: nat, ghost reqs: seq<Request>, ghost n: nat, ghost v: seq<byte>)
    returns (answer: Answer)
    requires n < |reqs| && reqs[n] == Empty && Kept(q, readable, reqs, n, v)
    modifies q.Repr()
    ensures q.g.Shape() && HeaderKeeps(q.g, old(q.hd.data), q.hd.data)
    ensures Kept(q, readable, reqs, n + 1, Bare(q.base, |v|))
    ensures answer == Answered(q.g, reqs[n], v)
  {
    hide DriverSound, WellFormed, ClusterCacheOk, Lossless, Capacity, CowSafe, Total, EmptyTotal, WordAt, DiskByte,
         L1Entry, Laid, Fills, Roomy;
    q.Facts();
    var ret := q.MakeEmpty();
    q.Facts();
    EmptyIsRoomy(q.g, q.hd.data);
    BareDisk(q.g, q.z, q.base, q.hd.data);
    answer := Answer(ret, []);
  }

  lemma BareDisk(g: Geometry, z: Codec, base: Option<seq<byte>>, f: seq<byte>)
    requires g.Shape()
    requires forall k: nat :: Addressable(g, k) ==> DiskByte(g, z, base, f, k) == BaseByte(base, k)
    ensures Disk(g, z, base, f) == Bare(base, Capacity(g))
  {
    hide DiskByte, Capacity;
    forall k: nat | k < Capacity(g)
      ensures Disk(g, z, base, f)[k] == Bare(base, Capacity(g))[k]
    {
      CapacityBound(g, k);
    }
  }

  method Step(q: Qcow, readable: nat, ghost reqs: seq<Request>, ghost n: nat, ghost v: seq<byte>, r: Request)
    returns (answer: Answer)
    requires n < |reqs| && reqs[n] == r && !r.Reopen?
    requires Kept(q, readable, reqs, n, v) && Within(q.g, r, readable, |v|) && Allowed(q.g, q.z, reqs, n)
    modifies q.Repr()
    ensures q.g.Shape() && HeaderKeeps(q.g, old(q.hd.data), q.hd.data)
    ensures Kept(q, readable, reqs, n + 1, Applied(q.g, q.base, r, v))
    ensures answer == Answered(q.g, r, v)
  {
    hide Kept, Touched, Ahead, Allowed;
    KeptShape(q, readable, reqs, n, v);
    match r {
      case ReadSectors(s, count) => answer := StepRead(q, readable, reqs, n, v, s, count);
      case WriteSectors(s, data) => answer := StepWrite(q, readable, reqs, n, v, s, data);
      case WriteCluster(s, data) => answer := StepCluster(q, readable, reqs, n, v, s, data);
      case Empty => answer := StepEmpty(q, readable, reqs, n, v);
    }
  }

  lemma KeptShape(q: Qcow, readable: nat, reqs: seq<Request>, n: nat, v: seq<byte>)
    requires n <= |reqs| && Kept(q, readable, reqs, n, v)
    ensures q.g.Shape() && q.g.l1TableOffset <= q.g.L1End() <= |q.hd.data| && |v| == Capacity(q.g)
  {
    hide DriverSound, WellFormed, ClusterCacheOk, Lossless, Capacity, CowSafe, Total, EmptyTotal, WordAt, Laid, Fills,
         Roomy, DiskByte;
    q.Facts();
  }

  /** The driver closed, and the file opened again. */
  method StepReopen(q: Qcow, readable: nat, ghost reqs: seq<Request>, ghost n: nat, ghost v: seq<byte>,
                    ghost totalSize: nat, ghost backing: Option<seq<byte>>)
    returns (q': Qcow)
    requires n < |reqs| && reqs[n] == Reopen && Kept(q, readable, reqs, n, v)
    requires Creatable(totalSize, backing) && totalSize > 0
    requires q.g == CreatedShape(totalSize, backing)
    requires HeaderKeeps(q.g, CreatedFile(totalSize, backing, false), q.hd.data)
    ensures q'.hd == q.hd && q'.g == q.g && q'.z == q.z && q'.base == q.base && fresh(q'.Repr() - {q.hd})
    ensures q.hd.data == old(q.hd.data) && Kept(q', readable, reqs, n + 1, v)
  {
    hide DriverSound, WellFormed, ClusterCacheOk, Lossless, Capacity, CowSafe, Total, EmptyTotal, WordAt, Laid, Disk,
         Fills, Roomy, CreatedFile, OpenHeader, GeometryOf, Geometry.Opened;
    q.Facts();
    CreatedOpens(totalSize, backing, false);
    CreatedIsSound(totalSize, backing, false, q.z, q.base);
    CreatedReopens(totalSize, backing, false, q.hd.data);
    var o := Open(q.hd, q.z, q.base);
    q' := o.value;
    SameMap(q.g, q.hd.data, q.hd.data, reqs, n);
  }

  // ------------------------------------------------------------ the whole run

  lemma NewImageKept(totalSize: nat, backing: Option<seq<byte>>, z: Codec, base: Option<seq<byte>>)
    requires Creatable(totalSize, backing) && totalSize > 0 && (backing.Some? || base.None?)
    ensures var f, g := CreatedFile(totalSize, backing, false), CreatedShape(totalSize, backing);
            && |f| >= HEADER_SIZE && f[32] <= 30 && f[33] <= 26
            && OpenHeader(f).Some? && OpenHeader(f).value.g == g
            && g.Opened() && g.Shape() && WellFormed(g, z, f) && Fills(g) && Roomy(g, f)
            && Total(g, f) == EmptyTotal(g) <= g.Limit() && CowSafe(g, base) && g.l1TableOffset <= |f|
            && Disk(g, z, base, f) == Bare(base, Capacity(g))
            && forall k: nat :: Addressable(g, k) ==> WordAt(g, f, k) == 0
  {
    hide WriteHeader, WellFormed, Capacity, CreatedFile, GeometryOf, Geometry.Opened, Fills, Roomy, Total, EmptyTotal,
         OpenHeader, Disk, WordAt, CowSafe, L1Entry, L1SizeFor, NameBytes, Bare;
    CreatedOpens(totalSize, backing, false);
    CreatedGeometry(totalSize, backing, false);
    CreatedIsSound(totalSize, backing, false, z, base);
    var f, g := CreatedFile(totalSize, backing, false), CreatedShape(totalSize, backing);
    DiskIsBare(g, z, base, f);
  }

  lemma DiskIsBare(g: Geometry, z: Codec, base: Option<seq<byte>>, f: seq<byte>)
    requires g.Shape() && forall k: nat :: k < Capacity(g) ==> Disk(g, z, base, f)[k] == BaseByte(base, k)
    ensures Disk(g, z, base, f) == Bare(base, Capacity(g))
  {
    hide DiskByte, Capacity;
  }

  /** From qcow_create on, over any run of sector reads and writes, compressed writes,
      emptyings and reopenings in which streams go to clusters that hold nothing: every
      request is answered as by one flat array that at first shows the backing image,
      or zeros. */
  method RunImage(totalSize: nat, backing: Option<seq<byte>>, z: Codec, base: Option<seq<byte>>, readable: nat,
                  reqs: seq<Request>)
    returns (answers: seq<Answer>)
    requires Creatable(totalSize, backing) && totalSize > 0 && Lossless(z)
    requires (backing.Some? || base.None?) && (base.Some? ==> readable <= |base.value|)
    requires var g := CreatedShape(totalSize, backing);
             && g.clusterSize > 0
             && readable <= Capacity(g)
             && AllWithin(g, reqs, readable, Capacity(g)) && AllAllowed(g, z, reqs)
    ensures var g := CreatedShape(totalSize, backing);
            |answers| == |reqs| && AnsweredAs(g, base, Bare(base, Capacity(g)), reqs, answers)
  {
    hide Kept, Lossless, CreatedFile, CreatedShape, AllWithin, AllAllowed, AnsweredAs, FlatAfter, OpenHeader,
         L1SizeFor, Capacity, Bare, Applied, Answered, Within, Allowed, WellFormed, Roomy, Fills, Geometry.Opened,
         HeaderKeeps, CowSafe, Disk, WordAt, Total, EmptyTotal, Qcow.Valid, Qcow.Sound;
    ghost var g := CreatedShape(totalSize, backing);
    ghost var f0 := CreatedFile(totalSize, backing, false);
    ghost var v := Bare(base, Capacity(g));
    NewImageKept(totalSize, backing, z, base);
    CreatableSize(totalSize, backing);
    WithinAll(g, reqs, readable, v);
    var file := Create(totalSize, backing, false);
    var o := Open(file, z, base);
    var q := o.value;
    StartKept(q, readable, reqs, v);
    HeaderSelf(g, f0);
    Nothing(g, base, v, reqs);
    answers := [];
    var i := 0;
    while i < |reqs|
      invariant 0 <= i <= |reqs| && |answers| == i
      invariant fresh(q.Repr()) && q.hd == file && q.g == g && q.z == z && q.base == base
      invariant AnsweredAs(g, base, v, reqs, answers)
      invariant Kept(q, readable, reqs, i, FlatAfter(g, base, v, reqs, i))
      invariant HeaderKeeps(g, f0, file.data)
    {
      ghost var u, f1 := FlatAfter(g, base, v, reqs, i), file.data;
      NextRequest(g, z, reqs, i, readable, |v|);
      FlatNext(g, base, v, reqs, i);
      if reqs[i].Reopen? {
        q := StepReopen(q, readable, reqs, i, u, totalSize, backing);
        ReopenFlat(g, base, reqs[i], u);
        AnsweredMore(g, base, v, reqs, answers, Answer(0, []));
        answers := answers + [Answer(0, [])];
      } else {
        var answer := Step(q, readable, reqs, i, u, reqs[i]);
        HeaderJoin(g, f0, f1, file.data);
        AnsweredMore(g, base, v, reqs, answers, answer);
        answers := answers + [answer];
      }
      i := i + 1;
    }
  }

  lemma Nothing(g: Geometry, base: Option<seq<byte>>, v: seq<byte>, reqs: seq<Request>)
    requires AllWithin(g, reqs, |v|, |v|)
    ensures AnsweredAs(g, base, v, reqs, []) && FlatAfter(g, base, v, reqs, 0) == v
  {}

  lemma NextRequest(g: Geometry, z: Codec, reqs: seq<Request>, i: nat, readable: nat, size: nat)
    requires g.clusterSize > 0 && i < |reqs| && AllWithin(g, reqs, readable, size) && AllAllowed(g, z, reqs)
    requires readable <= size
    ensures Within(g, reqs[i], readable, size) && Within(g, reqs[i], size, size) && Allowed(g, z, reqs, i)
  {}

  lemma FlatNext(g: Geometry, base: Option<seq<byte>>, v: seq<byte>, reqs: seq<Request>, i: nat)
    requires i < |reqs| && AllWithin(g, reqs, |v|, |v|)
    ensures FlatAfter(g, base, v, reqs, i + 1) == Applied(g, base, reqs[i], FlatAfter(g, base, v, reqs, i))
    ensures FlatAfter(g, base, v, reqs, 0) == v
  {}

  lemma ReopenFlat(g: Geometry, base: Option<seq<byte>>, r: Request, v: seq<byte>)
    requires r.Reopen? && Within(g, r, |v|, |v|)
    ensures Applied(g, base, r, v) == v && Answered(g, r, v) == Answer(0, [])
  {}

  lemma HeaderSelf(g: Geometry, f: seq<byte>)
    requires g.l1TableOffset <= |f|
    ensures HeaderKeeps(g, f, f)
  {}

  lemma HeaderJoin(g: Geometry, f0: seq<byte>, f1: seq<byte>, f2: seq<byte>)
    requires HeaderKeeps(g, f0, f1) && HeaderKeeps(g, f1, f2)
    ensures HeaderKeeps(g, f0, f2)
  {}

  lemma WithinAll(g: Geometry, reqs: seq<Request>, readable: nat, v: seq<byte>)
    requires AllWithin(g, reqs, readable, |v|) && readable <= |v|
    ensures AllWithin(g, reqs, |v|, |v|)
  {
    forall n: nat | n < |reqs|
      ensures Within(g, reqs[n], |v|, |v|)
    {
      assert Within(g, reqs[n], readable, |v|);
    }
  }

  lemma StartKept(q: Qcow, readable: nat, reqs: seq<Request>, v: seq<byte>)
    requires q.Valid() && CowSafe(q.g, q.base) && q.clusterCacheOffset == NO_OFFSET
    requires readable <= Capacity(q.g) && (q.base.Some? ==> readable <= |q.base.value|)
    requires Total(q.g, q.hd.data) == EmptyTotal(q.g) <= q.g.Limit()
    requires v == Disk(q.g, q.z, q.base, q.hd.data)
    requires forall k: nat :: Addressable(q.g, k) ==> WordAt(q.g, q.hd.data, k) == 0
    ensures Kept(q, readable, reqs, 0, v)
  {
    hide DriverSound, WellFormed, ClusterCacheOk, Lossless, Capacity, CowSafe, Total, EmptyTotal, WordAt, Disk;
  }
}
