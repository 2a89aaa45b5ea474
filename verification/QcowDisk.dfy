/** The guest's view of an image as one flat array of bytes, and what writing a
    run of sectors does to it. */
module QcowDisk {
  import opened Arith
  import opened Bytes
  import opened HostFile
  import opened QcowMap
  import opened QcowRoom
  import opened QcowAlloc
  import opened QcowCache

  // ------------------------------------------------------------ splitting an offset

  function L1Index(g: Geometry, k: nat): nat
    requires g.clusterSize > 0 && g.l2Size > 0
  {
    k / g.clusterSize / g.l2Size
  }

  function L2Index(g: Geometry, k: nat): nat
    requires g.clusterSize > 0 && g.l2Size > 0
  {
    k / g.clusterSize % g.l2Size
  }

  function ClusterStart(g: Geometry, k: nat): nat
    requires g.clusterSize > 0
  {
    k - k % g.clusterSize
  }

  /** Bytes in all the clusters the L1 table can reach. */
  function Capacity(g: Geometry): nat
  {
    Times(g.l1Size, Times(g.l2Size, g.clusterSize))
  }

  predicate Addressable(g: Geometry, k: nat)
    requires g.clusterSize > 0 && g.l2Size > 0
  {
    L1Index(g, k) < g.l1Size
  }

  /** The shifts and masks of get_cluster_offset select these indices. */
  lemma SplitIsShifts(g: Geometry, k: nat)
    requires g.Opened()
    ensures g.Shape()
    ensures Shr(k, g.l2Bits + g.clusterBits) == L1Index(g, k)
    ensures BitAnd(Shr(k, g.clusterBits), g.l2Size - 1) == L2Index(g, k)
  {
    hide BitAnd, Pow2, Shr;
    OpenedShape(g);
    Pow2Add(g.l2Bits, g.clusterBits);
    ShrIsDiv(k, g.l2Bits + g.clusterBits);
    ShrIsDiv(k, g.clusterBits);
    DivDiv(k, g.clusterSize, g.l2Size);
    BitAndMask(k / g.clusterSize, g.l2Bits);
    assert g.clusterSize * g.l2Size == g.l2Size * g.clusterSize;
  }

  lemma CapacityBound(g: Geometry, k: nat)
    requires g.Shape()
    ensures Addressable(g, k) <==> k < Capacity(g)
  {
    var cs, n := g.clusterSize, g.l2Size;
    DivDiv(k, cs, n);
    assert cs * n == n * cs;
    TimesIsProduct(n, cs);
    TimesIsProduct(g.l1Size, n * cs);
    QuotientBelow(k, n * cs, g.l1Size);
  }

  lemma QuotientBelow(k: nat, d: nat, n: nat)
    requires d > 0
    ensures k / d < n <==> k < n * d
  {
    DivModFacts(k, d);
    if k / d < n {
      MulMonotone(k / d + 1, n, d);
      assert (k / d + 1) * d == k / d * d + d;
    } else {
      MulMonotone(n, k / d, d);
    }
  }

  /** The split is injective: the two indices and the offset give the byte back. */
  lemma SplitInjective(g: Geometry, k: nat)
    requires g.Shape()
    ensures L2Index(g, k) < g.l2Size && k % g.clusterSize < g.clusterSize
    ensures (L1Index(g, k) * g.l2Size + L2Index(g, k)) * g.clusterSize + k % g.clusterSize == k
  {
    DivModFacts(k, g.clusterSize);
    DivModFacts(k / g.clusterSize, g.l2Size);
  }

  /** Two bytes have the same indices exactly when they share a cluster. */
  lemma SameCluster(g: Geometry, k: nat, p: nat)
    requires g.Shape()
    ensures ClusterStart(g, k) <= p < ClusterStart(g, k) + g.clusterSize <==>
            L1Index(g, k) == L1Index(g, p) && L2Index(g, k) == L2Index(g, p)
    ensures ClusterStart(g, k) <= p < ClusterStart(g, k) + g.clusterSize ==>
              ClusterStart(g, p) == ClusterStart(g, k)
    ensures ClusterStart(g, k) <= k < ClusterStart(g, k) + g.clusterSize
    ensures L2Index(g, k) < g.l2Size
  {
    var cs := g.clusterSize;
    DivModFacts(k, cs);
    DivModFacts(p, cs);
    if ClusterStart(g, k) <= p < ClusterStart(g, k) + cs {
      DivModUnique(p, cs, k / cs, p - ClusterStart(g, k));
    } else if L1Index(g, k) == L1Index(g, p) && L2Index(g, k) == L2Index(g, p) {
      DivModFacts(k / cs, g.l2Size);
      DivModFacts(p / cs, g.l2Size);
    }
  }

  // ------------------------------------------------------------ the flat array

  /** The L2 entry that governs guest byte k. */
  function WordAt(g: Geometry, f: seq<byte>, k: nat): nat
    requires g.clusterSize > 0 && g.l2Size > 0
  {
    ClusterWord(g, f, L1Index(g, k), L2Index(g, k))
  }

  /** Guest byte k. */
  function DiskByte(g: Geometry, z: Codec, base: Option<seq<byte>>, f: seq<byte>, k: nat): byte
    requires g.clusterSize > 0 && g.l2Size > 0
  {
    WordByte(g, z, base, f, WordAt(g, f, k), k - ClusterStart(g, k), k)
  }

  function Disk(g: Geometry, z: Codec, base: Option<seq<byte>>, f: seq<byte>): (d: seq<byte>)
    requires g.clusterSize > 0 && g.l2Size > 0
    ensures |d| == Capacity(g)
    ensures forall k :: 0 <= k < |d| ==> d[k] == DiskByte(g, z, base, f, k)
  {
    seq(Capacity(g), k requires 0 <= k => DiskByte(g, z, base, f, k))
  }

  // ------------------------------------------------------------ writing a run

  /** k lies in a cluster that a write of n bytes at lo reaches. */
  predicate Reached(g: Geometry, lo: nat, n: nat, k: nat)
    requires g.clusterSize > 0
  {
    n > 0 && ClusterStart(g, lo) <= k && ClusterStart(g, k) < lo + n
  }

  /** Guest byte k after b is written at lo: a cluster that had no data of its
      own becomes zero around the written bytes, whatever it read as before. */
  function WrittenByte(g: Geometry, z: Codec, base: Option<seq<byte>>, f: seq<byte>,
                       lo: nat, b: seq<byte>, k: nat): byte
    requires g.clusterSize > 0 && g.l2Size > 0
  {
    if lo <= k < lo + |b| then b[k - lo]
    else if Reached(g, lo, |b|, k) && WordAt(g, f, k) == 0 then 0
    else DiskByte(g, z, base, f, k)
  }

  /** f is the image f0 after the bytes b have been written at lo. */
  ghost predicate Progress(g: Geometry, z: Codec, base: Option<seq<byte>>,
                           f0: seq<byte>, f: seq<byte>, lo: nat, b: seq<byte>)
    requires g.clusterSize > 0 && g.l2Size > 0
  {
    && (forall k: nat :: Addressable(g, k) ==>
          DiskByte(g, z, base, f, k) == WrittenByte(g, z, base, f0, lo, b, k))
    && (forall k: nat :: Addressable(g, k) && !Reached(g, lo, |b|, k) ==>
          WordAt(g, f, k) == WordAt(g, f0, k))
  }

  /** f2 is f1 with chunk stored at a. */
  ghost predicate Stored(f1: seq<byte>, f2: seq<byte>, a: nat, chunk: seq<byte>)
  {
    && |f2| == |f1|
    && ChangedOnly(f1, f2, a, a + |chunk|)
    && HoldsAt(f2, a, chunk)
  }

  /** Byte r of the cluster that was just written at offset o. */
  lemma ChunkByte(g: Geometry, z: Codec, base: Option<seq<byte>>, f: seq<byte>, f1: seq<byte>, f2: seq<byte>,
                  i: nat, j: nat, o: nat, chunk: seq<byte>, r: nat, k: nat)
    requires g.Shape() && InMap(g, i, j) && r < g.clusterSize && o + |chunk| <= g.clusterSize
    requires AllocationOk(g, z, f, i, j, |chunk| == g.clusterSize, f1)
    requires Stored(f1, f2, ClusterWord(g, f1, i, j) + o, chunk)
    ensures WordByte(g, z, base, f2, ClusterWord(g, f1, i, j), r, k) ==
            if o <= r < o + |chunk| then chunk[r - o]
            else if ClusterWord(g, f, i, j) == 0 then 0
            else WordByte(g, z, base, f, ClusterWord(g, f, i, j), r, k)
  {
    hide WellFormed, WordExtent, Expand, Word, L1Entry;
    var w, w0 := ClusterWord(g, f1, i, j), ClusterWord(g, f, i, j);
    if o <= r < o + |chunk| {
      assert f2[w + o..w + o + |chunk|][r - o] == f2[w + r];
    } else {
      assert ByteAt(f2, w + r) == ByteAt(f1, w + r) by {
        assert |f2| == |f1|;
      }
      assert WordByte(g, z, base, f2, w, r, k) == WordByte(g, z, base, f1, w, r, k);
      if 0 < w0 < COMPRESSED {
        assert SameContent(g, z, f, f1, w0);
      } else {
        assert FreshContent(g, z, f, w0, |chunk| == g.clusterSize, f1, w);
        assert |chunk| != g.clusterSize;
        assert WordByte(g, z, base, f1, w, r, k) == WordByte(g, z, None, f, w0, r, k);
      }
    }
  }

  /** One turn of the loop of qcow_write at guest position cur: the cluster is
      allocated (f to f1) and the chunk is stored in it (f1 to f2). */
  lemma ChunkStep(g: Geometry, z: Codec, base: Option<seq<byte>>, f: seq<byte>, f1: seq<byte>, f2: seq<byte>,
                  cur: nat, chunk: seq<byte>)
    requires WellFormed(g, z, f) && Addressable(g, cur)
    requires chunk != [] && cur + |chunk| <= ClusterStart(g, cur) + g.clusterSize
    requires AllocationOk(g, z, f, L1Index(g, cur), L2Index(g, cur), |chunk| == g.clusterSize, f1)
    requires Stored(f1, f2, WordAt(g, f1, cur) + (cur - ClusterStart(g, cur)), chunk)
    ensures WellFormed(g, z, f2)
    ensures Progress(g, z, base, f, f2, cur, chunk)
  {
    hide WellFormed, WordByte, SameContent, FreshContent, ClusterWord, L1Index, L2Index, ClusterStart;
    ImageBounds(g, z, f);
    var i, j := L1Index(g, cur), L2Index(g, cur);
    SameCluster(g, cur, cur);
    var w, o := ClusterWord(g, f1, i, j), cur - ClusterStart(g, cur);
    DataWriteStep(g, z, f1, f2, i, j, w + o, w + o + |chunk|);
    forall k: nat | Addressable(g, k)
      ensures DiskByte(g, z, base, f2, k) == WrittenByte(g, z, base, f, cur, chunk, k)
      ensures !Reached(g, cur, |chunk|, k) ==> WordAt(g, f2, k) == WordAt(g, f, k)
    {
      var r, last := k - ClusterStart(g, k), ClusterStart(g, cur) + g.clusterSize - 1;
      SameCluster(g, k, k);
      SameCluster(g, cur, k);
      SameCluster(g, cur, last);
      SameCluster(g, k, last);
      assert ClusterWord(g, f2, L1Index(g, k), L2Index(g, k)) == ClusterWord(g, f1, L1Index(g, k), L2Index(g, k));
      if L1Index(g, k) == i && L2Index(g, k) == j {
        ChunkByte(g, z, base, f, f1, f2, i, j, o, chunk, r, k);
      } else {
        OtherByte(g, z, base, f, f1, f2, ClusterWord(g, f, L1Index(g, k), L2Index(g, k)), r, k);
      }
    }
  }

  lemma OtherByte(g: Geometry, z: Codec, base: Option<seq<byte>>, f: seq<byte>, f1: seq<byte>, f2: seq<byte>,
                  w: nat, r: nat, k: nat)
    requires g.clusterSize > 0 && r < g.clusterSize
    requires SameContent(g, z, f, f1, w) && SameContent(g, z, f1, f2, w)
    ensures WordByte(g, z, base, f2, w, r, k) == WordByte(g, z, base, f, w, r, k)
  {
    hide WordByte;
    assert WordByte(g, z, base, f1, w, r, k) == WordByte(g, z, base, f, w, r, k);
  }

  /** A write that goes on at a cluster boundary reaches the clusters of both parts,
      and no cluster twice. */
  lemma ReachChain(g: Geometry, lo: nat, n: nat, m: nat, k: nat)
    requires g.Shape() && m > 0
    requires n == 0 || ClusterStart(g, lo + n) == lo + n
    ensures Reached(g, lo, n + m, k) <==> Reached(g, lo, n, k) || Reached(g, lo + n, m, k)
    ensures !(Reached(g, lo, n, k) && Reached(g, lo + n, m, k))
    ensures lo <= k < lo + n ==> Reached(g, lo, n, k)
    ensures lo <= k < lo + m ==> Reached(g, lo, m, k)
  {
    hide ClusterStart, L1Index, L2Index;
    SameCluster(g, k, k);
    SameCluster(g, lo, k);
    SameCluster(g, lo + n, k);
    SameCluster(g, k, lo);
    SameCluster(g, k, lo + n);
    SameCluster(g, lo, lo);
  }

  /** Chunks compose: after b at lo, a chunk right behind it. */
  lemma ProgressChains(g: Geometry, z: Codec, base: Option<seq<byte>>,
                       f0: seq<byte>, f: seq<byte>, f2: seq<byte>, lo: nat, b: seq<byte>, chunk: seq<byte>)
    requires g.Shape()
    requires Progress(g, z, base, f0, f, lo, b)
    requires Progress(g, z, base, f, f2, lo + |b|, chunk)
    requires b == [] || ClusterStart(g, lo + |b|) == lo + |b|
    requires chunk != []
    ensures Progress(g, z, base, f0, f2, lo, b + chunk)
  {
    hide DiskByte, WordAt, ClusterStart, L1Index, Reached;
    var cur, c := lo + |b|, b + chunk;
    forall k: nat | Addressable(g, k)
      ensures DiskByte(g, z, base, f2, k) == WrittenByte(g, z, base, f0, lo, c, k)
      ensures !Reached(g, lo, |c|, k) ==> WordAt(g, f2, k) == WordAt(g, f0, k)
    {
      ReachChain(g, lo, |b|, |chunk|, k);
      ReachChain(g, cur, 0, |chunk|, k);
    }
  }

  /** The write is the flat one exactly when every byte it zeroes was zero. */
  lemma FlatExactly(g: Geometry, z: Codec, base: Option<seq<byte>>, f0: seq<byte>, f: seq<byte>,
                    lo: nat, b: seq<byte>)
    requires g.Shape() && lo + |b| <= Capacity(g)
    requires Progress(g, z, base, f0, f, lo, b)
    ensures Disk(g, z, base, f) == Overlay(Disk(g, z, base, f0), lo, b) <==>
            forall k: nat :: Addressable(g, k) && Reached(g, lo, |b|, k) && !(lo <= k < lo + |b|)
                             && WordAt(g, f0, k) == 0
                             ==> DiskByte(g, z, base, f0, k) == 0
  {
    hide DiskByte, WordAt, ClusterStart, L1Index, Capacity;
    var d0, d := Disk(g, z, base, f0), Disk(g, z, base, f);
    var e := Overlay(d0, lo, b);
    forall k: nat
      ensures Addressable(g, k) <==> k < Capacity(g)
    {
      CapacityBound(g, k);
    }
    forall k: nat | k < Capacity(g)
      ensures d[k] == WrittenByte(g, z, base, f0, lo, b, k)
      ensures e[k] == if lo <= k < lo + |b| then b[k - lo] else d0[k]
    {
    }
    if d == e {
      forall k: nat | Addressable(g, k) && Reached(g, lo, |b|, k) && !(lo <= k < lo + |b|) && WordAt(g, f0, k) == 0
        ensures DiskByte(g, z, base, f0, k) == 0
      {
        assert d[k] == e[k];
      }
    }
  }

  // ------------------------------------------------------------ sectors

  /** sector & (cluster_sectors - 1): the sector's place in its cluster. */
  lemma SectorIndex(g: Geometry, s: nat)
    requires g.Opened()
    ensures g.Shape()
    ensures BitAnd(s, g.clusterSectors - 1) < g.clusterSectors
    ensures 512 * BitAnd(s, g.clusterSectors - 1) == 512 * s - ClusterStart(g, 512 * s)
  {
    hide BitAnd, Pow2;
    OpenedShape(g);
    BitAndMask(s, g.clusterBits - 9);
    var c := g.clusterSectors;
    DivModFacts(s, c);
    assert s / c * (512 * c) == 512 * (s / c * c);
    DivModUnique(512 * s, 512 * c, s / c, 512 * (s % c));
  }

  /** The sector after the last one of a cluster starts a cluster. */
  lemma NextCluster(g: Geometry, k: nat)
    requires g.Shape()
    ensures var e := ClusterStart(g, k) + g.clusterSize; ClusterStart(g, e) == e
  {
    var cs := g.clusterSize;
    DivModFacts(k, cs);
    assert k / cs * cs + cs == (k / cs + 1) * cs;
    DivModUnique(ClusterStart(g, k) + cs, cs, k / cs + 1, 0);
  }

  /** Reading len bytes at cur out of the cluster that holds them. */
  lemma ChunkReads(g: Geometry, z: Codec, base: Option<seq<byte>>, f: seq<byte>, cur: nat, chunk: seq<byte>)
    requires g.Shape()
    requires cur + |chunk| <= ClusterStart(g, cur) + g.clusterSize && cur + |chunk| <= Capacity(g)
    requires forall p: nat :: p < |chunk| ==>
               chunk[p] == WordByte(g, z, base, f, WordAt(g, f, cur), cur - ClusterStart(g, cur) + p, cur + p)
    ensures chunk == Piece(Disk(g, z, base, f), cur, |chunk|)
  {
    hide WordByte, ClusterWord, ClusterStart, L1Index, L2Index, Capacity;
    var d := Disk(g, z, base, f);
    SameCluster(g, cur, cur);
    forall p: nat | p < |chunk|
      ensures chunk[p] == d[cur + p]
    {
      SameCluster(g, cur, cur + p);
    }
  }

  lemma SpliceStored(f: seq<byte>, a: nat, chunk: seq<byte>)
    requires a + |chunk| <= |f|
    ensures Stored(f, Written(f, a, chunk), a, chunk)
  {
    WrittenSplices(f, a, chunk);
  }

  lemma ProgressStarts(g: Geometry, z: Codec, base: Option<seq<byte>>, f: seq<byte>, lo: nat)
    requires g.clusterSize > 0 && g.l2Size > 0
    ensures Progress(g, z, base, f, f, lo, [])
  {}

  /** Everything a turn of qcow_write establishes, for the chunk at cur. */
  lemma TurnSound(g: Geometry, z: Codec, base: Option<seq<byte>>, f: seq<byte>, cur: nat, chunk: seq<byte>, whole: bool)
    requires WellFormed(g, z, f) && Addressable(g, cur)
    requires chunk != [] && cur + |chunk| <= ClusterStart(g, cur) + g.clusterSize
    requires whole == (|chunk| == g.clusterSize)
    requires Roomy(g, f)
    ensures InMap(g, L1Index(g, cur), L2Index(g, cur))
    ensures var f1 := Allocated(g, z, f, L1Index(g, cur), L2Index(g, cur), whole);
            var w := WordAt(g, f1, cur);
            var a := w + (cur - ClusterStart(g, cur));
            var f2 := Written(f1, a, chunk);
            && WellFormed(g, z, f1) && 0 < w < COMPRESSED
            && ClusterStart(g, cur) <= cur
            && a + |chunk| <= w + g.clusterSize <= |f1|
            && Stored(f1, f2, a, chunk)
            && Progress(g, z, base, f, f2, cur, chunk)
            && HeaderKeeps(g, f, f2)
            && |f| <= |f2| && Total(g, f2) <= Total(g, f)
  {
    hide WellFormed, Allocated, Progress, Stored, ClusterStart, L1Index, L2Index, WordExtent, SameContent,
         FreshContent, Written, Roomy, Total;
    ImageBounds(g, z, f);
    SameCluster(g, cur, cur);
    var i, j := L1Index(g, cur), L2Index(g, cur);
    AllocatedSound(g, z, f, i, j, whole);
    var f1 := Allocated(g, z, f, i, j, whole);
    ClusterInside(g, z, f1, i, j);
    NormalInside(g, f1, ClusterWord(g, f1, i, j));
    var a := WordAt(g, f1, cur) + (cur - ClusterStart(g, cur));
    SpliceStored(f1, a, chunk);
    ChunkStep(g, z, base, f, f1, Written(f1, a, chunk), cur, chunk);
    StoredLength(f1, Written(f1, a, chunk), a, chunk);
    DataWriteTotal(g, z, f1, Written(f1, a, chunk), i, j, a, a + |chunk|);
    ChangeKeepsHeader(g, f1, Written(f1, a, chunk), a, a + |chunk|);
  }

  lemma DataWriteTotal(g: Geometry, z: Codec, f: seq<byte>, f': seq<byte>, i: nat, j: nat, lo: nat, hi: nat)
    requires WellFormed(g, z, f) && InMap(g, i, j) && 0 < ClusterWord(g, f, i, j) < COMPRESSED
    requires ClusterWord(g, f, i, j) <= lo < hi <= ClusterWord(g, f, i, j) + g.clusterSize
    requires ChangedOnly(f, f', lo, hi) && |f'| == |f|
    ensures Total(g, f') <= Total(g, f)
  {
    hide WellFormed, ClusterWord, L1Entry, SameContent, Total;
    DataWriteStep(g, z, f, f', i, j, lo, hi);
    RoomySame(g, f, f');
  }

  lemma StoredLength(f: seq<byte>, f': seq<byte>, a: nat, chunk: seq<byte>)
    requires Stored(f, f', a, chunk)
    ensures |f'| == |f| && ChangedOnly(f, f', a, a + |chunk|)
  {}

  // ------------------------------------------------------------ when a write is flat

  /** A backing image needs one-sector clusters: then no write is partial. */
  predicate CowSafe(g: Geometry, base: Option<seq<byte>>)
  {
    base.None? || g.clusterSectors == 1
  }

  lemma AlignedReach(g: Geometry, lo: nat, n: nat, k: nat)
    requires g.Shape() && g.clusterSectors == 1
    requires lo % 512 == 0 && n % 512 == 0
    requires Reached(g, lo, n, k)
    ensures lo <= k < lo + n
  {}

  /** Whole-sector writes are flat on every image that is CowSafe. */
  lemma CowSafeIsFlat(g: Geometry, z: Codec, base: Option<seq<byte>>, f0: seq<byte>, f: seq<byte>,
                      lo: nat, b: seq<byte>)
    requires g.Shape() && lo + |b| <= Capacity(g)
    requires lo % 512 == 0 && |b| % 512 == 0
    requires CowSafe(g, base)
    requires Progress(g, z, base, f0, f, lo, b)
    ensures Disk(g, z, base, f) == Overlay(Disk(g, z, base, f0), lo, b)
  {
    hide WordAt, ClusterStart, L1Index, Capacity, Progress, Disk, Overlay, Reached;
    forall k: nat | Addressable(g, k) && Reached(g, lo, |b|, k) && !(lo <= k < lo + |b|) && WordAt(g, f0, k) == 0
      ensures DiskByte(g, z, base, f0, k) == 0
    {
      if g.clusterSectors == 1 {
        AlignedReach(g, lo, |b|, k);
      }
    }
    FlatExactly(g, z, base, f0, f, lo, b);
  }

  /** Without that, the first partial write to an unallocated cluster loses the
      backing image's bytes around it: a nonzero byte there now reads as zero. */
  lemma CowUnsafeLosesData(g: Geometry, z: Codec, base: seq<byte>, f0: seq<byte>, f: seq<byte>, b: seq<byte>)
    requires g.Shape() && Capacity(g) > 0 && g.clusterSectors > 1
    requires WordAt(g, f0, 0) == 0
    requires |base| > 512 && base[512] != 0 && |b| == 512
    requires Progress(g, z, Some(base), f0, f, 0, b)
    ensures Addressable(g, 512)
    ensures DiskByte(g, z, Some(base), f0, 512) == base[512] != 0
    ensures DiskByte(g, z, Some(base), f, 512) == 0
  {
    hide ClusterWord, Capacity;
    CapacityBound(g, 0);
    DivModUnique(512, g.clusterSize, 0, 512);
    DivModUnique(0, g.clusterSize, 0, 0);
    assert WordAt(g, f0, 512) == WordAt(g, f0, 0);
    assert Reached(g, 0, 512, 512);
  }

  // ------------------------------------------------------------ compressed writes

  /** A write of one whole aligned cluster reaches nothing else. */
  lemma WholeClusterReach(g: Geometry, lo: nat, k: nat)
    requires g.Shape() && ClusterStart(g, lo) == lo
    ensures Reached(g, lo, g.clusterSize, k) <==> lo <= k < lo + g.clusterSize
  {
    SameCluster(g, lo, k);
    SameCluster(g, k, lo + g.clusterSize - 1);
    SameCluster(g, lo, lo + g.clusterSize - 1);
    SameCluster(g, k, k);
  }

  lemma WholeClusterIsFlat(g: Geometry, z: Codec, base: Option<seq<byte>>, f0: seq<byte>, f: seq<byte>,
                           lo: nat, b: seq<byte>)
    requires g.Shape() && lo + |b| <= Capacity(g)
    requires ClusterStart(g, lo) == lo && |b| == g.clusterSize
    requires Progress(g, z, base, f0, f, lo, b)
    ensures Disk(g, z, base, f) == Overlay(Disk(g, z, base, f0), lo, b)
  {
    hide WordAt, ClusterStart, L1Index, Capacity, Progress, Disk, Overlay, Reached;
    forall k: nat | Reached(g, lo, |b|, k)
      ensures lo <= k < lo + |b|
    {
      WholeClusterReach(g, lo, k);
    }
    FlatExactly(g, z, base, f0, f, lo, b);
  }

  /** A stored stream makes its cluster read as the original content, and leaves
      the rest of the guest's bytes alone. */
  lemma StoredIsFlat(g: Geometry, z: Codec, base: Option<seq<byte>>, f: seq<byte>, f': seq<byte>,
                     k0: nat, content: seq<byte>)
    requires g.Shape() && Addressable(g, k0) && ClusterStart(g, k0) + g.clusterSize <= Capacity(g)
    requires |content| == g.clusterSize
    requires StoredOk(g, z, f, L1Index(g, k0), L2Index(g, k0), content, f')
    ensures Disk(g, z, base, f') == Overlay(Disk(g, z, base, f), ClusterStart(g, k0), content)
  {
    hide ClusterWord, ClusterStart, L1Index, L2Index, Capacity, WellFormed, WordExtent, Expand, SameContent;
    var d, d' := Disk(g, z, base, f), Disk(g, z, base, f');
    var lo := ClusterStart(g, k0);
    forall k: nat | k < Capacity(g)
      ensures d'[k] == if lo <= k < lo + |content| then content[k - lo] else d[k]
    {
      CapacityBound(g, k);
      SameCluster(g, k0, k);
      SameCluster(g, k, k);
      if lo <= k < lo + |content| {
      } else {
        StoredOther(g, z, base, f, f', L1Index(g, k0), L2Index(g, k0), content,
                    L1Index(g, k), L2Index(g, k), k - ClusterStart(g, k), k);
      }
    }
  }

  lemma StoredOther(g: Geometry, z: Codec, base: Option<seq<byte>>, f: seq<byte>, f': seq<byte>,
                    i: nat, j: nat, content: seq<byte>, n: nat, m: nat, r: nat, k: nat)
    requires g.clusterSize > 0 && r < g.clusterSize
    requires StoredOk(g, z, f, i, j, content, f')
    requires InMap(g, n, m) && (n, m) != (i, j)
    ensures WordByte(g, z, base, f', ClusterWord(g, f', n, m), r, k) ==
            WordByte(g, z, base, f, ClusterWord(g, f, n, m), r, k)
  {
    hide WordByte, WellFormed, Expand, WordExtent;
    assert SameContent(g, z, f, f', ClusterWord(g, f, n, m));
  }

  /** A compressed write over a cluster that already has normal data stores the
      raw stream there: the cluster reads back as the stream, then its old tail,
      which is what was written only if the two happen to be the same. */
  lemma CompressedOverNormal(g: Geometry, z: Codec, base: Option<seq<byte>>, f: seq<byte>, k0: nat, d: seq<byte>,
                             buf: seq<byte>)
    requires WellFormed(g, z, f) && Addressable(g, k0) && Roomy(g, f)
    requires ClusterStart(g, k0) == k0 && 0 < |d| < g.clusterSize == |buf| && k0 + g.clusterSize <= Capacity(g)
    requires 0 < WordAt(g, f, k0) < COMPRESSED
    ensures var f' := Written(f, WordAt(g, f, k0), d);
            var v := Disk(g, z, base, f);
            && g.Shape()
            && WellFormed(g, z, f')
            && Disk(g, z, base, f') == Overlay(v, k0, d)
            && (Disk(g, z, base, f') == Overlay(v, k0, buf) <==>
                d + Piece(v, k0 + |d|, g.clusterSize - |d|) == buf)
  {
    hide WellFormed, ClusterWord, Capacity, ClusterStart, L1Index, L2Index, Written, Progress, Disk, Overlay,
         AllocationOk, Stored, WordExtent, Roomy, Total;
    ImageBounds(g, z, f);
    var i, j := L1Index(g, k0), L2Index(g, k0);
    SameCluster(g, k0, k0);
    ClusterInside(g, z, f, i, j);
    NormalInside(g, f, ClusterWord(g, f, i, j));
    var f' := Written(f, WordAt(g, f, k0), d);
    SpliceStored(f, WordAt(g, f, k0), d);
    NormalStays(g, z, f, i, j, false);
    ChunkStep(g, z, base, f, f, f', k0, d);
    forall k: nat | WordAt(g, f, k) == 0 && Addressable(g, k) && Reached(g, k0, |d|, k)
      ensures false
    {
      ReachOneCluster(g, k0, |d|, k);
      SameCluster(g, k0, k);
    }
    FlatExactly(g, z, base, f, f', k0, d);
    OverlayExactly(Disk(g, z, base, f), k0, d, buf);
  }

  lemma ReachOneCluster(g: Geometry, lo: nat, n: nat, k: nat)
    requires g.Shape() && ClusterStart(g, lo) == lo && n <= g.clusterSize
    requires Reached(g, lo, n, k)
    ensures lo <= k < lo + g.clusterSize
  {
    WholeClusterReach(g, lo, k);
  }

  lemma NormalStays(g: Geometry, z: Codec, f: seq<byte>, i: nat, j: nat, whole: bool)
    requires WellFormed(g, z, f) && InMap(g, i, j) && 0 < ClusterWord(g, f, i, j) < COMPRESSED && Roomy(g, f)
    ensures AllocationOk(g, z, f, i, j, whole, f)
  {
    hide WellFormed, WordByte, Roomy, Total;
    ImageBounds(g, z, f);
  }

  // ------------------------------------------------------------ reading through the decompression cache

  /** No read of these guest bytes runs past the end of the backing image. */
  ghost predicate Backed(g: Geometry, base: Option<seq<byte>>, f: seq<byte>, lo: nat, len: nat)
    requires g.clusterSize > 0 && g.l2Size > 0
  {
    forall k: nat :: lo <= k < lo + len && WordAt(g, f, k) == 0 && base.Some? ==> k < |base.value|
  }

  lemma BackedNothing(g: Geometry, base: Option<seq<byte>>, f: seq<byte>, lo: nat)
    requires g.clusterSize > 0 && g.l2Size > 0
    ensures Backed(g, base, f, lo, 0)
  {}

  lemma BackedSplits(g: Geometry, base: Option<seq<byte>>, f: seq<byte>, lo: nat, n: nat, m: nat, rest: nat)
    requires g.clusterSize > 0 && g.l2Size > 0
    ensures Backed(g, base, f, lo, n + m) <==> Backed(g, base, f, lo, n) && Backed(g, base, f, lo + n, m)
    ensures Backed(g, base, f, lo, n + m + rest) ==> Backed(g, base, f, lo + n, m)
  {
    hide WordAt;
  }

  /** n sectors from s on, at least one, lie in one cluster. */
  predicate InOneCluster(g: Geometry, s: nat, n: nat)
    requires g.clusterSize > 0
  {
    n > 0 && 512 * (s + n) <= ClusterStart(g, 512 * s) + g.clusterSize
  }

  /** What the driver takes for the content of a compressed entry when its one-entry
      cache is tagged coff and holds cdata. */
  function Inflated(g: Geometry, z: Codec, f: seq<byte>, coff: nat, cdata: seq<byte>, w: nat): Option<seq<byte>>
    requires g.clusterSize > 0
  {
    if WordExtent(g, w).off == coff then Some(cdata) else Expand(g, z, f, w)
  }

  /** The len bytes at guest position lo, all in one cluster, as a read delivers them
      through that cache; None where it fails. */
  function Seen(g: Geometry, z: Codec, base: Option<seq<byte>>, f: seq<byte>, coff: nat, cdata: seq<byte>,
                lo: nat, len: nat): (b: Option<seq<byte>>)
    requires g.clusterSize > 0 && g.l2Size > 0
    ensures b.Some? ==> |b.value| == len
  {
    var w, o := WordAt(g, f, lo), lo % g.clusterSize;
    if w == 0 then
      if base.Some? && |base.value| < lo + len then None else Some(BaseBytes(base, lo, len))
    else if w < COMPRESSED then
      if w + o + len <= |f| then Some(f[w + o..w + o + len]) else None
    else
      var c := Inflated(g, z, f, coff, cdata, w);
      if c.Some? && o + len <= |c.value| then Some(c.value[o..o + len]) else None
  }

  /** What a failed attempt to inflate an entry leaves at the beginning of the cache. */
  function Leftover(g: Geometry, z: Codec, f: seq<byte>, w: nat): (p: seq<byte>)
    requires g.clusterSize > 0
    ensures |p| <= g.clusterSize
  {
    var e := WordExtent(g, w);
    if e.off + e.len > |f| then []
    else
      var p := Partial(z, f[e.off..e.off + e.len], g.clusterSize);
      if |p| <= g.clusterSize then p else []
  }

  /** Where the driver's memory agrees with the file, a read delivers the guest's
      bytes, and fails exactly where the backing image is too short. */
  lemma SeenIsFlat(g: Geometry, z: Codec, base: Option<seq<byte>>, f: seq<byte>, coff: nat, cdata: seq<byte>,
                   lo: nat, len: nat)
    requires WellFormed(g, z, f) && ClusterCacheOk(g, z, f, coff, cdata)
    requires len > 0 && lo + len <= ClusterStart(g, lo) + g.clusterSize && lo + len <= Capacity(g)
    ensures g.Shape()
    ensures Seen(g, z, base, f, coff, cdata, lo, len) ==
            if Backed(g, base, f, lo, len) then Some(Piece(Disk(g, z, base, f), lo, len)) else None
  {
    hide WellFormed, ClusterCacheOk, ClusterWord, Capacity, Expand, WordExtent, L1Index, L2Index, Inside, Expands;
    ImageBounds(g, z, f);
    var i, j := L1Index(g, lo), L2Index(g, lo);
    CapacityBound(g, lo);
    SplitInjective(g, lo);
    ClusterInside(g, z, f, i, j);
    var w, o := WordAt(g, f, lo), lo % g.clusterSize;
    forall k: nat | lo <= k < lo + len
      ensures WordAt(g, f, k) == w
    {
      SameCluster(g, lo, k);
    }
    if w == 0 {
      if base.Some? {
        assert WordAt(g, f, lo + len - 1) == 0;
      }
      ChunkReads(g, z, base, f, lo, BaseBytes(base, lo, len));
    } else if w < COMPRESSED {
      NormalInside(g, f, w);
      ChunkReads(g, z, base, f, lo, f[w + o..w + o + len]);
    } else {
      DriverDecompresses(g, z, f, coff, cdata, i, j);
      ChunkReads(g, z, base, f, lo, Expand(g, z, f, w).value[o..o + len]);
    }
  }

  // ------------------------------------------------------------ an emptied image

  lemma EmptyFile(g: Geometry, f: seq<byte>)
    requires g.L1End() <= |f|
    ensures var f' := Truncated(Written(f, g.l1TableOffset, Zeros(8 * g.l1Size)), g.L1End());
            && f' == f[..g.l1TableOffset] + Zeros(8 * g.l1Size)
            && HoldsAt(f', g.l1TableOffset, Zeros(8 * g.l1Size))
  {
    var b := Zeros(8 * g.l1Size);
    WrittenSplices(f, g.l1TableOffset, b);
    var f1 := Written(f, g.l1TableOffset, b);
    assert f1[..g.L1End()] == f[..g.l1TableOffset] + b;
    if |f1| < g.L1End() {
      assert false;
    }
  }

  lemma EmptyReads(g: Geometry, z: Codec, base: Option<seq<byte>>, f: seq<byte>)
    requires g.Shape()
    requires forall i: nat, j: nat :: InMap(g, i, j) ==> ClusterWord(g, f, i, j) == 0
    ensures forall k: nat :: Addressable(g, k) ==>
              WordAt(g, f, k) == 0 && DiskByte(g, z, base, f, k) == BaseByte(base, k)
  {
    hide ClusterWord, L1Index, L2Index, ClusterStart;
    forall k: nat | Addressable(g, k)
      ensures WordAt(g, f, k) == 0
    {
      SplitInjective(g, k);
    }
  }
}
