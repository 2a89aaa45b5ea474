/** Short runs of the driver that show when compressed clusters read back. */
module QcowRuns {
  import opened Arith
  import opened Bytes
  import opened HostFile
  import opened QcowMap
  import opened QcowRoom
  import opened QcowAlloc
  import opened QcowCache
  import opened QcowDisk
  import opened QcowRewrite
  import opened Qcow
  import opened QcowImage

  /** Sector s begins a cluster of the disk. */
  predicate ClusterAt(g: Geometry, s: nat)
    requires g.Shape()
  {
    ClusterStart(g, 512 * s) == 512 * s && 512 * s + g.clusterSize <= Capacity(g)
  }

  /** Where the first stream after qcow_make_empty goes, whatever it is. */
  function FirstStream(g: Geometry): nat
    requires g.clusterSize > 0
  {
    RoundUp(g.L1End(), g.clusterSize) + 8 * g.l2Size
  }

  lemma FirstStreamPlace(g: Geometry, f: seq<byte>, i: nat)
    requires g.Shape() && |f| == g.L1End() && i < g.l1Size && L1Entry(g, f, i) == 0 && Roomy(g, f)
    ensures |WithTable(g, f, i)| == FirstStream(g)
  {
    hide L1Entry, WithTable, Roomy;
    RoomForTable(g, f, i);
    WithTableBytes(g, f, i);
  }

  /** A whole cluster with a compressed entry, read through the decompression cache. */
  lemma SeenWhole(g: Geometry, z: Codec, base: Option<seq<byte>>, f: seq<byte>, coff: nat, cdata: seq<byte>, k: nat)
    requires g.Shape() && Lossless(z) && ClusterStart(g, k) == k && WordAt(g, f, k) >= COMPRESSED
    requires |cdata| == g.clusterSize
    ensures Seen(g, z, base, f, coff, cdata, k, g.clusterSize) == Inflated(g, z, f, coff, cdata, WordAt(g, f, k))
  {
    hide WordAt, WordExtent, Expand, Lossless;
    ExpandsSized(g, z, f, WordAt(g, f, k));
    var c := Inflated(g, z, f, coff, cdata, WordAt(g, f, k));
    if c.Some? {
      assert c.value[0..g.clusterSize] == c.value;
    }
  }

  /** Reads the whole cluster at sector s. */
  method ReadWhole(q: Qcow, s: nat, out: array<byte>) returns (ret: int)
    requires q.Sound() && out !in q.Repr() && out.Length == q.g.clusterSize
    requires ClusterAt(q.g, s) && WordAt(q.g, q.hd.data, 512 * s) >= COMPRESSED
    modifies q.Repr(), out
    ensures q.Sound() && q.g.Shape() && q.hd.data == old(q.hd.data) && (old(q.Valid()) ==> q.Valid())
    ensures var seen := Inflated(q.g, q.z, q.hd.data, old(q.clusterCacheOffset), old(q.clusterCache[..]),
                                 WordAt(q.g, q.hd.data, 512 * s));
            && (ret == 0 <==> seen.Some?) && (ret == 0 || ret == -1)
            && (ret == 0 ==> seen == Some(out[..]) == Some(q.clusterCache[..]))
    ensures ret == 0 ==> q.clusterCacheOffset == WordExtent(q.g, WordAt(q.g, q.hd.data, 512 * s)).off
    ensures ret != 0 ==>
              q.Spoiled(WordAt(q.g, q.hd.data, 512 * s), old(q.clusterCacheOffset), old(q.clusterCache[..]))
    ensures old(q.Behind()) ==> q.Behind()
  {
    hide DriverSound, WellFormed, ClusterCacheOk, Lossless, Capacity, Seen, Inflated, WordExtent, WordAt, Overlay,
         Backed, ClusterStart, Leftover;
    SeenWhole(q.g, q.z, q.base, q.hd.data, q.clusterCacheOffset, q.clusterCache[..], 512 * s);
    ghost var seen := q.SeenNow(s, q.g.clusterSectors);
    if seen.Some? {
      OverlayAll(out[..], seen.value);
    }
    ret := q.Read(s, out, 0, q.g.clusterSectors);
  }

  /** A compressed write to an unmapped cluster. */
  method StoreNew(q: Qcow, s: nat, content: seq<byte>)
    requires q.Valid() && q.Packs(content) && ClusterAt(q.g, s)
    requires WordAt(q.g, q.hd.data, 512 * s) == 0 && q.NextStream(512 * s) < q.g.Limit()
    modifies q.Repr()
    ensures q.Sound() && WellFormed(q.g, q.z, q.hd.data)
    ensures q.clusterCacheOffset == old(q.clusterCacheOffset) && q.clusterCache[..] == old(q.clusterCache[..])
    ensures q.StoredAt(512 * s, old(q.NextStream(512 * s)), Deflate(q.z, content))
    ensures StoredOk(q.g, q.z, old(q.hd.data), L1Index(q.g, 512 * s), L2Index(q.g, 512 * s), content, q.hd.data)
    ensures q.Valid() <==> (q.clusterCacheOffset == old(q.NextStream(512 * s)) ==> q.clusterCache[..] == content)
    ensures old(q.Behind()) ==> q.Behind() && q.Valid()
  {
    hide DriverSound, WellFormed, ClusterCacheOk, Lossless, Capacity, WordExtent, WordAt, Overlay, Deflate, Disk,
         ClusterStart, Progress, WithTable, L1Index, L2Index, StoredOk, Restream, Piece, EntryOffset, EntrySize,
         SparesTables, Expand, Inflate, Roomy;
    var _ := q.WriteCompressed(s, content, q.g.clusterSectors);
  }

  /** A compressed write to an unmapped cluster, read back at once: the answer is
      what was written, unless the decompression cache is tagged with the offset
      that the stream got, which it is not as long as its tag is below the end of the file. */
  method StoreAndRead(q: Qcow, s: nat, content: seq<byte>, out: array<byte>) returns (ret: int)
    requires q.Valid() && out !in q.Repr() && out.Length == q.g.clusterSize
    requires q.Packs(content) && ClusterAt(q.g, s)
    requires WordAt(q.g, q.hd.data, 512 * s) == 0 && q.NextStream(512 * s) < q.g.Limit()
    modifies q.Repr(), out
    ensures q.Sound() && ret == 0
    ensures out[..] ==
              if old(q.clusterCacheOffset) == old(q.NextStream(512 * s)) then old(q.clusterCache[..]) else content
    ensures q.Valid() <==> out[..] == content
    ensures old(q.Behind()) ==> out[..] == content && q.Behind()
    ensures q.clusterCacheOffset == old(q.NextStream(512 * s)) && q.clusterCache[..] == out[..]
  {
    hide DriverSound, WellFormed, ClusterCacheOk, Lossless, Capacity, WordExtent, Overlay, Deflate, Disk, ClusterWord,
         HoldsAt, ClusterStart, WithTable, L1Index, L2Index, Expand, Roomy, ClusterAt;
    StoreNew(q, s, content);
    ret := ReadWhole(q, s, out);
  }

  /** qcow_make_empty, a compressed write and a read: what was written comes back if
      and only if the decompression cache was not tagged with the offset that the
      first stream of an empty image always gets, or held the same content already. */
  method EmptyStoreRead(q: Qcow, s: nat, content: seq<byte>, out: array<byte>) returns (ret: int)
    requires q.Sound() && out !in q.Repr() && out.Length == q.g.clusterSize
    requires q.Packs(content) && ClusterAt(q.g, s) && FirstStream(q.g) < q.g.Limit()
    modifies q.Repr(), out
    ensures q.Sound() && ret == 0
    ensures out[..] == content <==>
            old(q.clusterCacheOffset) != FirstStream(q.g) || old(q.clusterCache[..]) == content
    ensures old(q.clusterCacheOffset) == FirstStream(q.g) ==> out[..] == old(q.clusterCache[..])
  {
    hide DriverSound, WellFormed, ClusterCacheOk, Lossless, Capacity, WordExtent, Deflate, Disk, ClusterWord, HoldsAt,
         ClusterStart, WithTable, Expand, Roomy, ClusterAt, L1Entry, DiskByte, L1Index, Fills, Laid;
    q.Facts();
    var _ := q.MakeEmpty();
    q.Facts();
    InCapacity(q.g, s);
    FirstStreamPlace(q.g, q.hd.data, L1Index(q.g, 512 * s));
    ret := StoreAndRead(q, s, content, out);
  }

  lemma InCapacity(g: Geometry, s: nat)
    requires g.Shape() && ClusterAt(g, s)
    ensures 512 * s < Capacity(g) && Addressable(g, 512 * s)
  {
    hide Capacity;
    CapacityBound(g, 512 * s);
  }

  /** A compressed write over a compressed cluster, not longer than the old stream, read
      back at once: the cache answers if it is tagged with that stream, and otherwise
      the new stream followed by the old tail is inflated. */
  method RewriteAndRead(q: Qcow, s: nat, content: seq<byte>, out: array<byte>) returns (ret: int)
    requires q.Valid() && out !in q.Repr() && out.Length == q.g.clusterSize
    requires q.Packs(content) && ClusterAt(q.g, s) && WordAt(q.g, q.hd.data, 512 * s) >= COMPRESSED
    requires |Deflate(q.z, content)| <= EntrySize(q.g, WordAt(q.g, q.hd.data, 512 * s))
    modifies q.Repr(), out
    ensures q.Sound()
    ensures var e := WordExtent(q.g, WordAt(q.g, old(q.hd.data), 512 * s));
            && e.off + e.len <= |old(q.hd.data)|
            && var seen := if old(q.clusterCacheOffset) == e.off then Some(old(q.clusterCache[..]))
                           else Inflate(q.z, Restream(old(q.hd.data), e, Deflate(q.z, content)), q.g.clusterSize);
               (ret == 0 <==> seen.Some?) && (ret == 0 ==> out[..] == seen.value)
  {
    hide DriverSound, WellFormed, ClusterCacheOk, Lossless, Capacity, WordExtent, WordAt, Overlay, Deflate, Disk,
         ClusterStart, Progress, WithTable, L1Index, L2Index, StoredOk, Restream, Piece, EntryOffset, EntrySize,
         SparesTables, Expand, Inflate, Roomy;
    var _ := q.WriteCompressed(s, content, q.g.clusterSectors);
    ret := ReadWhole(q, s, out);
  }

  // ------------------------------------------------------------ runs from qcow_create on

  lemma NewImage(totalSize: nat, z: Codec)
    requires Creatable(totalSize, None) && totalSize >= 8
    ensures var f, g := CreatedFile(totalSize, None, false), GeometryOf(HeaderFor(totalSize, None, false));
            && |f| >= HEADER_SIZE && f[32] <= 30 && f[33] <= 26
            && OpenHeader(f).Some? && OpenHeader(f).value.g == g
            && g.Opened() && g.Shape() && WellFormed(g, z, f) && Fills(g) && Roomy(g, f)
            && 512 * totalSize <= Capacity(g)
            && |f| == g.L1End() && Total(g, f) <= g.Limit()
            && (forall i: nat :: i < g.l1Size ==> L1Entry(g, f, i) == 0)
  {
    hide WriteHeader, WellFormed, Capacity, CreatedFile, GeometryOf, Geometry.Opened, DecodeBE, Fills, Roomy,
         OpenHeader, Disk, Total, EmptyTotal, WordAt;
    var f, g := CreatedFile(totalSize, None, false), GeometryOf(HeaderFor(totalSize, None, false));
    CreatedOpens(totalSize, None, false);
    CreatedIsSound(totalSize, None, false, z, None);
    CreatedGeometry(totalSize, None, false);
    CreateShift(None, totalSize, false);
    CreatedEntries(totalSize);
    CreatedTable(totalSize, None, false);
    ZeroWords(f, g.l1TableOffset, g.l1Size);
  }

  lemma CreatedEntries(totalSize: nat)
    requires totalSize > 0
    ensures L1SizeFor(totalSize * 512, 21) > 0
  {
    hide Pow2;
    CreateShift(None, totalSize, false);
    RoundedDivision(totalSize * 512, 0x20_0000);
  }

  /** The numbers of such an image. */
  lemma NewGeometry(totalSize: nat)
    requires Creatable(totalSize, None) && totalSize > 0
    ensures var g := GeometryOf(HeaderFor(totalSize, None, false));
            && g.clusterSize == 4096 && g.clusterSectors == 8 && g.l2Size == 512 && g.l1Size > 0
            && g.L1End() < 0x10_0000_0000 && g.Limit() == 0x8_0000_0000_0000
  {
    hide Pow2, L1Read, L1SizeFor;
    CreatedEntries(totalSize);
    EntriesFit(totalSize, None, false);
    CreateLimits();
    assert Pow2(3) == 8 by {
      Pow2Values();
      Pow2Add(9, 3);
    }
  }

  /** A new image without backing, just opened. */
  method OpenNew(totalSize: nat, z: Codec) returns (q: Qcow)
    requires Creatable(totalSize, None) && totalSize >= 8 && Lossless(z)
    ensures q.Valid() && fresh(q.Repr()) && q.z == z && q.base == None
    ensures q.g == GeometryOf(HeaderFor(totalSize, None, false))
    ensures 512 * totalSize <= Capacity(q.g)
    ensures q.clusterCacheOffset == NO_OFFSET
    ensures |q.hd.data| == q.g.L1End() && Total(q.g, q.hd.data) <= q.g.Limit()
    ensures forall i: nat :: i < q.g.l1Size ==> L1Entry(q.g, q.hd.data, i) == 0
  {
    hide WellFormed, Lossless, Fills, Roomy, Total, DriverSound, ClusterCacheOk, CreatedFile, GeometryOf, OpenHeader,
         L1SizeFor, Geometry.Opened, L1Entry, Capacity, Qcow.Valid, Qcow.Sound;
    NewImage(totalSize, z);
    CreatableSize(totalSize, None);
    var file := Create(totalSize, None, false);
    var o := Open(file, z, None);
    q := o.value;
  }

  lemma FirstCluster(g: Geometry, f: seq<byte>)
    requires g.Shape() && g.l1Size > 0 && g.clusterSize <= Capacity(g) && L1Entry(g, f, 0) == 0
    ensures ClusterAt(g, 0) && WordAt(g, f, 0) == 0 && L1Index(g, 0) == 0
  {
    hide Capacity, L1Entry;
    DivModUnique(0, g.clusterSize, 0, 0);
    DivModUnique(0, g.l2Size, 0, 0);
  }

  /** A run from qcow_create on: write a compressed, read it, empty the image, write b
      compressed in the same place and read it. The answer is a. */
  method StaleRun(totalSize: nat, z: Codec, a: seq<byte>, b: seq<byte>) returns (first: seq<byte>, second: seq<byte>)
    requires Creatable(totalSize, None) && totalSize >= 8 && Lossless(z)
    requires |a| == |b| == 4096 && |Deflate(z, a)| < 4096 && |Deflate(z, b)| < 4096
    ensures first == a && second == a
  {
    hide Lossless, DriverSound, WellFormed, ClusterCacheOk, Creatable, GeometryOf, HeaderFor, Capacity, L1Entry,
         WordAt, Deflate, WithTable, ClusterAt, RoundUp, Laid, Fills, Roomy;
    NewGeometry(totalSize);
    var q := OpenNew(totalSize, z);
    q.Facts();
    FirstCluster(q.g, q.hd.data);
    FirstStreamPlace(q.g, q.hd.data, 0);
    var out := new byte[q.g.clusterSize];
    var _ := StoreAndRead(q, 0, a, out);
    first := out[..];
    var _ := EmptyStoreRead(q, 0, b, out);
    second := out[..];
  }

  // ------------------------------------------------------------ a longer stream runs into its neighbour

  /** The neighbour's stream after s2 was written where s0 was, in front of it. */
  function Spliced(s0: seq<byte>, s1: seq<byte>, s2: seq<byte>): seq<byte>
    requires |s0| < |s2| <= |s0| + |s1|
  {
    s2[|s0|..] + s1[|s2| - |s0|..]
  }

  /** Two streams stand one behind the other; no table lies in their place. */
  lemma TablesApart(g: Geometry, f: seq<byte>, i: nat, j: nat, n: nat, m: nat, off: nat, len0: nat, len1: nat, len: nat)
    requires Laid(g, f) && InMap(g, i, j) && InMap(g, n, m) && (n, m) != (i, j)
    requires WordExtent(g, ClusterWord(g, f, i, j)) == Extent(off, len0)
    requires WordExtent(g, ClusterWord(g, f, n, m)) == Extent(off + len0, len1)
    requires len0 > 0 && len1 > 0 && len <= len0 + len1
    ensures SparesTables(g, f, Extent(off, len)) && off + len0 + len1 <= |f|
  {
    hide Laid, L1Entry, ClusterWord, WordExtent;
    LaidBounds(g, f);
    LaidCluster(g, f, i, j);
    LaidCluster(g, f, n, m);
    forall k: nat | k < g.l1Size
      ensures Apart(ExtentOf(g, f, L2Table(k)), Extent(off, len))
    {
      LaidApart(g, f, L2Table(k), Cluster(i, j));
      LaidApart(g, f, L2Table(k), Cluster(n, m));
    }
  }

  lemma NeighbourAfter(g: Geometry, z: Codec, f: seq<byte>, i: nat, j: nat, n: nat, m: nat, off: nat,
                       s0: seq<byte>, s1: seq<byte>, s2: seq<byte>)
    requires Laid(g, f) && Roomy(g, f) && InMap(g, i, j) && InMap(g, n, m) && (n, m) != (i, j)
    requires WordExtent(g, ClusterWord(g, f, i, j)) == Extent(off, |s0|)
    requires WordExtent(g, ClusterWord(g, f, n, m)) == Extent(off + |s0|, |s1|)
    requires ClusterWord(g, f, n, m) >= COMPRESSED
    requires 0 < |s0| < |s2| <= |s0| + |s1|
    requires HoldsAt(f, off + |s0|, s1)
    ensures var f' := Written(f, off, s2);
            && g.clusterSize > 0 && SparesTables(g, f, Extent(off, |s2|)) && Roomy(g, f')
            && ClusterWord(g, f', n, m) == ClusterWord(g, f, n, m)
            && (forall k: nat, l: nat :: InMap(g, k, l) ==> ClusterWord(g, f', k, l) == ClusterWord(g, f, k, l))
            && off + |s0| + |s1| <= |f| <= |f'|
            && f'[off + |s0|..off + |s0| + |s1|] == Spliced(s0, s1, s2)
            && Expand(g, z, f', ClusterWord(g, f, n, m)) == Inflate(z, Spliced(s0, s1, s2), g.clusterSize)
  {
    hide Laid, L1Entry, ClusterWord, WordExtent, SparesTables, Roomy, Total, Written, SameContent, Expands, Expand;
    LaidBounds(g, f);
    TablesApart(g, f, i, j, n, m, off, |s0|, |s1|, |s2|);
    RoomyBound(g, f);
    RewriteStep(g, z, f, off, s2);
    WrittenEffect(f, off, s2);
    RoomySame(g, f, Written(f, off, s2));
    var e := Extent(off + |s0|, |s1|);
    LongStreamDamages(g, z, None, f, off, s2, n, m, 0, 0);
    StreamAfter(f, off, s2, e);
    TailOfHeld(f, e, s1, |s2| - |s0|);
    assert Restream(f, e, s2[|s0|..]) == Spliced(s0, s1, s2);
  }

  lemma TailOfHeld(f: seq<byte>, e: Extent, s: seq<byte>, n: nat)
    requires HoldsAt(f, e.off, s) && e.len == |s| && n <= |s|
    ensures f[e.off + n..e.off + e.len] == s[n..]
  {
    SliceOfSlice(f, e.off, |s|, n, |s| - n);
  }

  /** The first three clusters of the disk. */
  lemma FirstClusters(g: Geometry, f: seq<byte>, n: nat)
    requires g.Shape() && g.l1Size > 0 && g.l2Size > 2 && n <= 2 && (n + 1) * g.clusterSize <= Capacity(g)
    ensures ClusterAt(g, n * g.clusterSectors) && InMap(g, 0, n)
    ensures WordAt(g, f, 512 * (n * g.clusterSectors)) == ClusterWord(g, f, 0, n)
    ensures L1Index(g, 512 * (n * g.clusterSectors)) == 0 && L2Index(g, 512 * (n * g.clusterSectors)) == n
  {
    hide Capacity, ClusterWord;
    assert 512 * (n * g.clusterSectors) == n * g.clusterSize;
    DivModUnique(n * g.clusterSize, g.clusterSize, n, 0);
    DivModUnique(n, g.l2Size, 0, n);
  }

  /** The shape of an image without backing, with three clusters at least. */
  predicate Plain(g: Geometry)
  {
    && g.Shape() && g.clusterSize == 4096 && g.clusterSectors == 8 && g.l2Size == 512 && g.l1Size > 0
    && 3 * g.clusterSize <= Capacity(g)
  }

  method OpenPlain(totalSize: nat, z: Codec) returns (q: Qcow)
    requires Creatable(totalSize, None) && totalSize >= 24 && Lossless(z)
    ensures q.Valid() && fresh(q.Repr()) && q.z == z && Plain(q.g) && q.clusterCacheOffset == NO_OFFSET
    ensures Total(q.g, q.hd.data) <= q.g.Limit()
    ensures forall j: nat :: j < 3 ==> ClusterWord(q.g, q.hd.data, 0, j) == 0
  {
    hide Lossless, GeometryOf, HeaderFor, Capacity, L1Entry, ClusterWord, Qcow.Sound, Total, WellFormed,
         ClusterCacheOk;
    NewGeometry(totalSize);
    q := OpenNew(totalSize, z);
    q.Facts();
    forall j: nat | j < 3
      ensures ClusterWord(q.g, q.hd.data, 0, j) == 0
    {
      WordOfMissingTable(q.g, q.hd.data, 0, j);
    }
  }

  /** A stream in cluster n of the first row. */
  method StoreStreamAt(q: Qcow, n: nat, content: seq<byte>) returns (ghost off: nat)
    requires q.Valid() && q.Behind() && Plain(q.g) && n <= 2 && q.Packs(content)
    requires ClusterWord(q.g, q.hd.data, 0, n) == 0 && Total(q.g, q.hd.data) <= q.g.Limit()
    modifies q.Repr()
    ensures q.Valid() && q.Behind()
    ensures q.clusterCacheOffset == old(q.clusterCacheOffset) && q.clusterCache[..] == old(q.clusterCache[..])
    ensures Total(q.g, q.hd.data) <= q.g.Limit()
    ensures |old(q.hd.data)| <= off && (L1Entry(q.g, old(q.hd.data), 0) != 0 ==> off == |old(q.hd.data)|)
    ensures L1Entry(q.g, q.hd.data, 0) != 0
    ensures ClusterWord(q.g, q.hd.data, 0, n) >= COMPRESSED
    ensures WordExtent(q.g, ClusterWord(q.g, q.hd.data, 0, n)) == Extent(off, |Deflate(q.z, content)|)
    ensures Expand(q.g, q.z, q.hd.data, ClusterWord(q.g, q.hd.data, 0, n)) == Some(content)
    ensures |q.hd.data| == off + |Deflate(q.z, content)| && HoldsAt(q.hd.data, off, Deflate(q.z, content))
    ensures forall j: nat :: j < 3 && j != n ==>
              ClusterWord(q.g, q.hd.data, 0, j) == ClusterWord(q.g, old(q.hd.data), 0, j)
  {
    hide Lossless, DriverSound, WellFormed, ClusterCacheOk, Capacity, L1Entry, ClusterWord, Deflate, ClusterAt, Laid,
         Fills, Roomy, Total, L1Index, L2Index, WithTable, WordExtent, Expand, SameContent, HoldsAt;
    q.Facts();
    ghost var f := q.hd.data;
    FirstClusters(q.g, f, n);
    InCapacity(q.g, 8 * n);
    StreamFits(q.g, q.z, f, 512 * (8 * n));
    off := q.NextStream(512 * (8 * n));
    q.BehindNext(f, 512 * (8 * n), 0);
    if L1Entry(q.g, f, 0) != 0 {
      WithTableIdle(q.g, f, 0);
    }
    StoreNew(q, 8 * n, content);
    q.Facts();
    StoredFacts(q.g, q.z, f, 0, n, content, q.hd.data);
    FirstClusters(q.g, q.hd.data, n);
    TableOfMapped(q.g, q.hd.data, 0, n);
    forall j: nat | j < 3 && j != n
      ensures ClusterWord(q.g, q.hd.data, 0, j) == ClusterWord(q.g, f, 0, j)
    {
      assert InMap(q.g, 0, j);
    }
  }

  lemma TableOfMapped(g: Geometry, f: seq<byte>, i: nat, j: nat)
    requires ClusterWord(g, f, i, j) != 0
    ensures L1Entry(g, f, i) != 0
  {}

  /** a in the first cluster and b in the second, then c in the first again, all
      compressed and c's stream longer than a's: what the second is left with. */
  method Damage(q: Qcow, a: seq<byte>, b: seq<byte>, c: seq<byte>)
    requires q.Valid() && q.Behind() && Plain(q.g)
    requires q.Packs(a) && q.Packs(b) && q.Packs(c)
    requires |Deflate(q.z, a)| < |Deflate(q.z, c)| <= |Deflate(q.z, a)| + |Deflate(q.z, b)|
    requires ClusterWord(q.g, q.hd.data, 0, 0) == ClusterWord(q.g, q.hd.data, 0, 1) == 0
    requires Total(q.g, q.hd.data) <= q.g.Limit()
    modifies q.Repr()
    ensures q.Sound()
    ensures q.clusterCacheOffset == old(q.clusterCacheOffset) && q.clusterCache[..] == old(q.clusterCache[..])
    ensures ClusterWord(q.g, q.hd.data, 0, 2) == ClusterWord(q.g, old(q.hd.data), 0, 2)
    ensures var w := ClusterWord(q.g, q.hd.data, 0, 1);
            var e, s := WordExtent(q.g, w), Spliced(Deflate(q.z, a), Deflate(q.z, b), Deflate(q.z, c));
            && w >= COMPRESSED && |old(q.hd.data)| <= e.off && e.off + e.len <= |q.hd.data| <= COMPRESSED
            && q.hd.data[e.off..e.off + e.len] == s
            && Expand(q.g, q.z, q.hd.data, w) == Inflate(q.z, s, q.g.clusterSize)
  {
    hide Lossless, DriverSound, WellFormed, ClusterCacheOk, Capacity, ClusterWord, Deflate, ClusterAt, Laid, Fills,
         Roomy, Total, L1Index, L2Index, WordExtent, Expand, SameContent, HoldsAt, SparesTables, Written, EntryOffset,
         EntrySize, Spliced, Inflate, Restream, Progress, Disk, Overlay, StoredOk, Piece, WithTable, OthersKeep,
         Inflated, L1Entry;
    ghost var off := StoreStreamAt(q, 0, a);
    ghost var off1 := StoreStreamAt(q, 1, b);
    ghost var f := q.hd.data;
    q.Facts();
    RoundTrips(q.z, a);
    EntryFields(q.g, ClusterWord(q.g, f, 0, 0));
    FirstClusters(q.g, f, 0);
    NeighbourAfter(q.g, q.z, f, 0, 0, 0, 1, off, Deflate(q.z, a), Deflate(q.z, b), Deflate(q.z, c));
    var _ := q.WriteCompressed(0, c, q.g.clusterSectors);
    q.Facts();
    assert InMap(q.g, 0, 1) && InMap(q.g, 0, 2);
  }

  /** A run from qcow_create on: if the second cluster was damaged by a longer stream it
      reads as whatever its own stream now inflates to. */
  method DamageRun(totalSize: nat, z: Codec, a: seq<byte>, b: seq<byte>, c: seq<byte>)
    returns (ret: int, second: seq<byte>)
    requires Creatable(totalSize, None) && totalSize >= 24 && Lossless(z)
    requires |a| == |b| == |c| == 4096
    requires |Deflate(z, a)| < 4096 && |Deflate(z, b)| < 4096 && |Deflate(z, c)| < 4096
    requires |Deflate(z, a)| < |Deflate(z, c)| <= |Deflate(z, a)| + |Deflate(z, b)|
    ensures var seen := Inflate(z, Spliced(Deflate(z, a), Deflate(z, b), Deflate(z, c)), 4096);
            (ret == 0 <==> seen.Some?) && (ret == 0 ==> second == seen.value)
  {
    hide Lossless, Qcow.Sound, WellFormed, ClusterCacheOk, Capacity, ClusterWord, Deflate, ClusterAt, Total,
         WordExtent, Expand, Spliced, Inflate;
    var q := OpenPlain(totalSize, z);
    Damage(q, a, b, c);
    q.Facts();
    FirstClusters(q.g, q.hd.data, 1);
    var out := new byte[q.g.clusterSize];
    ret := ReadWhole(q, 8, out);
    second := out[..];
  }

  // ------------------------------------------------------------ a failed read spoils the cache

  /** A cluster that is in the decompression cache, read after an attempt to read one that
      does not inflate: its content comes back if and only if what the failed inflate
      wrote is how that content begins. */
  method FailThenRead(q: Qcow, bad: nat, good: nat, out: array<byte>) returns (first: int, second: int)
    requires q.Sound() && out !in q.Repr() && out.Length == q.g.clusterSize
    requires ClusterAt(q.g, bad) && ClusterAt(q.g, good)
    requires WordAt(q.g, q.hd.data, 512 * bad) >= COMPRESSED && WordAt(q.g, q.hd.data, 512 * good) >= COMPRESSED
    requires WordExtent(q.g, WordAt(q.g, q.hd.data, 512 * good)).off == q.clusterCacheOffset
    requires WordExtent(q.g, WordAt(q.g, q.hd.data, 512 * bad)).off != q.clusterCacheOffset
    requires Expand(q.g, q.z, q.hd.data, WordAt(q.g, q.hd.data, 512 * bad)).None?
    modifies q.Repr(), out
    ensures q.Sound() && q.hd.data == old(q.hd.data) && first == -1 && second == 0
    ensures var part := Leftover(q.g, q.z, q.hd.data, WordAt(q.g, q.hd.data, 512 * bad));
            && out[..] == Overlay(old(q.clusterCache[..]), 0, part)
            && (out[..] == old(q.clusterCache[..]) <==> part <= old(q.clusterCache[..]))
  {
    hide DriverSound, WellFormed, ClusterCacheOk, Lossless, Capacity, WordExtent, WordAt, Overlay, Expand, ClusterAt,
         Leftover;
    q.Facts();
    OverlayPrefix(q.clusterCache[..], Leftover(q.g, q.z, q.hd.data, WordAt(q.g, q.hd.data, 512 * bad)));
    first := ReadWhole(q, bad, out);
    second := ReadWhole(q, good, out);
  }

  lemma LeftoverIs(g: Geometry, z: Codec, f: seq<byte>, w: nat)
    requires g.clusterSize > 0 && WordExtent(g, w).off + WordExtent(g, w).len <= |f|
    requires var e := WordExtent(g, w); |Partial(z, f[e.off..e.off + e.len], g.clusterSize)| <= g.clusterSize
    ensures var e := WordExtent(g, w); Leftover(g, z, f, w) == Partial(z, f[e.off..e.off + e.len], g.clusterSize)
  {}

  /** A run from qcow_create on: the third cluster is written compressed and read, the second
      one is damaged, reading it fails, and the third is read again. */
  method SpoilRun(totalSize: nat, z: Codec, a: seq<byte>, b: seq<byte>, c: seq<byte>, t: seq<byte>)
    returns (before: seq<byte>, ret: int, after: seq<byte>)
    requires Creatable(totalSize, None) && totalSize >= 24 && Lossless(z)
    requires |a| == |b| == |c| == |t| == 4096 && |Deflate(z, t)| < 4096
    requires |Deflate(z, a)| < 4096 && |Deflate(z, b)| < 4096 && |Deflate(z, c)| < 4096
    requires |Deflate(z, a)| < |Deflate(z, c)| <= |Deflate(z, a)| + |Deflate(z, b)|
    requires Inflate(z, Spliced(Deflate(z, a), Deflate(z, b), Deflate(z, c)), 4096).None?
    ensures before == t && ret == -1
    ensures var part := Partial(z, Spliced(Deflate(z, a), Deflate(z, b), Deflate(z, c)), 4096);
            |part| <= 4096 && after == Overlay(t, 0, part) && (after == t <==> part <= t)
  {
    hide Lossless, Qcow.Sound, WellFormed, ClusterCacheOk, Capacity, ClusterWord, Deflate, ClusterAt, Total,
         WordExtent, Expand, Spliced, Inflate, Partial, Overlay, L1Entry, HoldsAt, Leftover, L1Index, L2Index;
    var q := OpenPlain(totalSize, z);
    RoundTrips(z, t);
    InflateFacts(z, Spliced(Deflate(z, a), Deflate(z, b), Deflate(z, c)), 4096);
    ghost var off := StoreStreamAt(q, 2, t);
    FirstClusters(q.g, q.hd.data, 2);
    var out := new byte[q.g.clusterSize];
    var _ := ReadWhole(q, 16, out);
    before := out[..];
    Damage(q, a, b, c);
    q.Facts();
    FirstClusters(q.g, q.hd.data, 1);
    FirstClusters(q.g, q.hd.data, 2);
    LeftoverIs(q.g, z, q.hd.data, ClusterWord(q.g, q.hd.data, 0, 1));
    var second;
    ret, second := FailThenRead(q, 8, 16, out);
    after := out[..];
  }

  // ------------------------------------------------------------ a codec for which that loses the cluster

  predicate Constant(x: seq<byte>)
  {
    x != [] && forall k :: 0 <= k < |x| ==> x[k] == x[0]
  }

  /** A constant block becomes its byte, escaped by two bytes if it is below 8, and
      anything else is kept behind a marker. */
  function Pack(x: seq<byte>): seq<byte>
  {
    if !Constant(x) then [2] + x
    else if x[0] >= 8 then [0, x[0]]
    else [1, 0, x[0]]
  }

  function Unpack(b: seq<byte>, n: nat): Option<seq<byte>>
  {
    if |b| >= 2 && b[0] == 0 then Some(seq(n, _ => b[1]))
    else if |b| >= 3 && b[0] == 1 then Some(seq(n, _ => b[2]))
    else if |b| > n && b[0] == 2 then Some(b[1..n + 1])
    else None
  }

  /** A block that is kept is copied as far as it goes. */
  function Unpacked(b: seq<byte>, n: nat): seq<byte>
  {
    if 0 < |b| <= n && b[0] == 2 then b[1..] else []
  }

  const RUN_LENGTH: Codec := Codec(Pack, Unpack, Unpacked)

  lemma RunLengthIs(x: seq<byte>, n: nat)
    ensures Deflate(RUN_LENGTH, x) == Pack(x) && Inflate(RUN_LENGTH, x, n) == Unpack(x, n)
    ensures Partial(RUN_LENGTH, x, n) == Unpacked(x, n)
  {
    hide Pack, Unpack, Unpacked;
  }

  lemma UnpackPack(x: seq<byte>)
    ensures |Pack(x)| > 0 && Unpack(Pack(x), |x|) == Some(x)
  {
    if Constant(x) {
      assert x == seq(|x|, _ => x[0]);
    } else {
      assert Pack(x)[1..|x| + 1] == x;
    }
  }

  lemma UnpackSize(b: seq<byte>, n: nat)
    ensures Unpack(b, n).Some? ==> |Unpack(b, n).value| == n
    ensures Unpack([], n).None? && Unpacked([], n) == [] && |Unpacked(b, n)| <= n
  {}

  lemma RunLengthLossless()
    ensures Lossless(RUN_LENGTH)
  {
    hide Pack, Unpack, Unpacked, Deflate, Inflate, Bounded;
    RunLengthBounded();
    forall x: seq<byte>
      ensures |Deflate(RUN_LENGTH, x)| > 0
      ensures Inflate(RUN_LENGTH, Deflate(RUN_LENGTH, x), |x|) == Some(x)
    {
      RunLengthIs(x, 0);
      RunLengthIs(Pack(x), |x|);
      UnpackPack(x);
    }
    forall b: seq<byte>, n: nat
      ensures Inflate(RUN_LENGTH, b, n).Some? ==> |Inflate(RUN_LENGTH, b, n).value| == n
    {
      RunLengthIs(b, n);
      UnpackSize(b, n);
    }
  }

  lemma RunLengthBounded()
    ensures Bounded(RUN_LENGTH)
  {
    hide Pack, Unpack, Unpacked, Deflate, Inflate, Partial;
    forall b: seq<byte>, n: nat
      ensures |Partial(RUN_LENGTH, b, n)| <= n
    {
      RunLengthIs(b, n);
      UnpackSize(b, n);
    }
    forall n: nat
      ensures Inflate(RUN_LENGTH, [], n).None? && Partial(RUN_LENGTH, [], n) == []
    {
      RunLengthIs([], n);
      UnpackSize([], n);
    }
  }

  function Filled(v: byte): (b: seq<byte>)
    ensures |b| == 4096 && forall k :: 0 <= k < |b| ==> b[k] == v
  {
    seq(4096, _ => v)
  }

  lemma PackFilled(v: byte)
    ensures Pack(Filled(v)) == if v >= 8 then [0, v] else [1, 0, v]
  {
    assert Filled(v)[0] == v;
    hide Filled;
    assert Constant(Filled(v));
  }

  /** Under this codec the run of DamageRun with blocks of 100, 105 and 2 leaves the
      second cluster unreadable, and the attempt to read it leaves a byte 105 behind. */
  lemma LongStreamLosesNeighbour()
    ensures Lossless(RUN_LENGTH)
    ensures var s0, s1 := Deflate(RUN_LENGTH, Filled(100)), Deflate(RUN_LENGTH, Filled(105));
            var s2 := Deflate(RUN_LENGTH, Filled(2));
            && |s0| < |s2| <= |s0| + |s1| < 4096
            && Inflate(RUN_LENGTH, Spliced(s0, s1, s2), 4096) == None
            && Partial(RUN_LENGTH, Spliced(s0, s1, s2), 4096) == [105]
    ensures |Deflate(RUN_LENGTH, Filled(50))| < 4096 && !([105] <= Filled(50))
  {
    hide Lossless, Deflate, Inflate, Partial, Filled, Pack;
    RunLengthLossless();
    PackFilled(100);
    PackFilled(105);
    PackFilled(2);
    PackFilled(50);
    RunLengthIs(Filled(100), 0);
    RunLengthIs(Filled(105), 0);
    RunLengthIs(Filled(2), 0);
    RunLengthIs(Filled(50), 0);
    assert [1, 0, 2][2..] + [0, 105][1..] == [2, 105];
    RunLengthIs([2, 105], 4096);
    assert [2, 105][1..] == [105];
    assert Filled(50)[0] == 50 by {
      FilledAt(50);
    }
  }

  lemma FilledAt(v: byte)
    ensures |Filled(v)| == 4096 && Filled(v)[0] == v
  {}
}
