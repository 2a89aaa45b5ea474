/** The two-level map of a QCOW image, read directly off the bytes of its file.

    Everything here is about values: `f` is the content of the host file, `g` the
    geometry fixed when the image was opened. The in-memory driver state (module
    Qcow) is proved to follow these definitions. */
module QcowMap {
  import opened Arith
  import opened Bytes

  datatype Option<+T> = None | Some(value: T)

  /** zlib as the driver uses it: a raw deflate stream, an inflate that is told how
      many bytes must come out, and what an inflate that fails has written by then. */
  datatype Codec = Codec(deflate: seq<byte> -> seq<byte>,
                         inflate: (seq<byte>, nat) -> Option<seq<byte>>,
                         partial: (seq<byte>, nat) -> seq<byte>)

  function Deflate(z: Codec, b: seq<byte>): seq<byte>
  {
    z.deflate(b)
  }

  function Inflate(z: Codec, b: seq<byte>, n: nat): Option<seq<byte>>
  {
    z.inflate(b, n)
  }

  function Partial(z: Codec, b: seq<byte>, n: nat): seq<byte>
  {
    z.partial(b, n)
  }

  /** A failed inflate has not written more than was asked for, and nothing gives nothing. */
  ghost predicate Bounded(z: Codec)
  {
    && (forall n: nat :: n > 0 ==> Inflate(z, [], n).None? && Partial(z, [], n) == [])
    && (forall b, n :: |Partial(z, b, n)| <= n)
  }

  ghost predicate Lossless(z: Codec)
  {
    && (forall x :: |Deflate(z, x)| > 0)
    && (forall x :: Inflate(z, Deflate(z, x), |x|) == Some(x))
    && (forall b, n :: Inflate(z, b, n).Some? ==> |Inflate(z, b, n).value| == n)
    && Bounded(z)
  }

  const COMPRESSED: nat := 0x8000_0000_0000_0000
  const WORD_LIMIT: nat := 0x1_0000_0000_0000_0000

  /** The fields of BDRVQcowState that qcow_open derives from the header. */
  datatype Geometry = Geometry(
    clusterBits: nat, clusterSize: nat, clusterSectors: nat,
    l2Bits: nat, l2Size: nat, l1Size: nat,
    clusterOffsetMask: nat, l1TableOffset: nat)
  {
    /** What qcow_open computes; a C int must hold clusterSize, 16 * l2Size and the
        size of the L1 table in bytes. */
    predicate Opened() {
      && 9 <= clusterBits <= 30 && l2Bits <= 26 && l1Size < 0x1000_0000
      && clusterSize == Pow2(clusterBits)
      && clusterSectors == Pow2(clusterBits - 9)
      && l2Size == Pow2(l2Bits)
      && clusterOffsetMask == Pow2(63 - clusterBits) - 1
      && l1TableOffset > 0
    }

    /** Every offset that fits beside the size field of a compressed entry. */
    function Limit(): nat { clusterOffsetMask + 1 }

    function L1End(): nat { l1TableOffset + 8 * l1Size }

    /** The consequences of Opened() that the map proofs use. */
    predicate Shape() {
      && clusterSectors > 0
      && 512 <= clusterSize == 512 * clusterSectors
      && l2Size > 0
      && l1TableOffset > 0
      && 0 < Limit() < COMPRESSED
    }
  }

  lemma OpenedShape(g: Geometry)
    requires g.Opened()
    ensures g.Shape()
    ensures g.Limit() * g.clusterSize == COMPRESSED
  {
    Pow2Values();
    Pow2Add(9, g.clusterBits - 9);
    Pow2Add(63 - g.clusterBits, g.clusterBits);
    Pow2Monotone(63 - g.clusterBits, 54);
    Pow2Add(54, 9);
  }

  // ------------------------------------------------------------ reading the map

  function ByteAt(f: seq<byte>, a: nat): byte
  {
    if a < |f| then f[a] else 0
  }

  function Word(f: seq<byte>, a: nat): nat
  {
    if a + 8 <= |f| then DecodeBE(f[a..a + 8]) else 0
  }

  function L1Entry(g: Geometry, f: seq<byte>, i: nat): nat
  {
    Word(f, g.l1TableOffset + 8 * i)
  }

  /** A guest cluster is named by its place in the map: entry j of L2 table i. */
  predicate InMap(g: Geometry, i: nat, j: nat)
  {
    i < g.l1Size && j < g.l2Size
  }

  /** Where the L2 entry of a guest cluster is stored. */
  function EntryAddr(g: Geometry, f: seq<byte>, i: nat, j: nat): nat
  {
    L1Entry(g, f, i) + 8 * j
  }

  /** The uncached two-level walk: the L2 entry of a guest cluster, 0 if none. */
  function ClusterWord(g: Geometry, f: seq<byte>, i: nat, j: nat): nat
  {
    if L1Entry(g, f, i) == 0 then 0 else Word(f, EntryAddr(g, f, i, j))
  }

  /** What owns space in the file: the i-th L2 table, or the data of a cluster. */
  datatype Object = L2Table(i: nat) | Cluster(i: nat, j: nat)

  datatype Extent = Extent(off: nat, len: nat)

  predicate InRange(g: Geometry, o: Object)
  {
    match o
    case L2Table(i) => i < g.l1Size
    case Cluster(i, j) => InMap(g, i, j)
  }

  /** The place an L2 entry denotes (length 0 for the empty entry). */
  function WordExtent(g: Geometry, w: nat): Extent
    requires g.clusterSize > 0
  {
    if w == 0 then Extent(0, 0)
    else if w < COMPRESSED then Extent(w, g.clusterSize)
    else Extent(w % g.Limit(), w / g.Limit() % g.clusterSize)
  }

  function ExtentOf(g: Geometry, f: seq<byte>, o: Object): Extent
    requires g.clusterSize > 0
  {
    match o
    case L2Table(i) =>
      if L1Entry(g, f, i) == 0 then Extent(0, 0) else Extent(L1Entry(g, f, i), 8 * g.l2Size)
    case Cluster(i, j) => WordExtent(g, ClusterWord(g, f, i, j))
  }

  predicate Apart(a: Extent, b: Extent)
  {
    a.len == 0 || b.len == 0 || a.off + a.len <= b.off || b.off + b.len <= a.off
  }

  predicate Inside(g: Geometry, f: seq<byte>, e: Extent)
  {
    e.len == 0 || (g.L1End() <= e.off && e.off + e.len <= |f|)
  }

  function Expand(g: Geometry, z: Codec, f: seq<byte>, w: nat): Option<seq<byte>>
    requires g.clusterSize > 0
  {
    var e := WordExtent(g, w);
    if e.off + e.len <= |f| then Inflate(z, f[e.off..e.off + e.len], g.clusterSize) else None
  }

  predicate Expands(g: Geometry, z: Codec, f: seq<byte>, w: nat)
    requires g.clusterSize > 0
  {
    w >= COMPRESSED ==>
      && WordExtent(g, w).len > 0
      && Expand(g, z, f, w).Some?
      && |Expand(g, z, f, w).value| == g.clusterSize
  }

  /** Header and L1 table, L2 tables, data clusters and compressed extents lie
      inside the file and do not overlap; offsets leave bit 63 free. */
  ghost predicate Laid(g: Geometry, f: seq<byte>)
  {
    && g.Shape()
    && g.L1End() <= |f| <= COMPRESSED
    && (forall o :: InRange(g, o) ==> Inside(g, f, ExtentOf(g, f, o)))
    && (forall o, p :: InRange(g, o) && InRange(g, p) && o != p
                       ==> Apart(ExtentOf(g, f, o), ExtentOf(g, f, p)))
  }

  /** Every compressed cluster inflates to one cluster. */
  ghost predicate AllExpand(g: Geometry, z: Codec, f: seq<byte>)
    requires g.clusterSize > 0
  {
    forall i: nat, j: nat :: InMap(g, i, j) ==> Expands(g, z, f, ClusterWord(g, f, i, j))
  }

  /** The image invariant. */
  ghost predicate WellFormed(g: Geometry, z: Codec, f: seq<byte>)
  {
    Laid(g, f) && AllExpand(g, z, f)
  }

  // ------------------------------------------------------------ the guest's view

  function BaseByte(base: Option<seq<byte>>, k: nat): byte
  {
    if base.Some? && k < |base.value| then base.value[k] else 0
  }

  /** bdrv_read on the backing image. */
  function BaseBytes(base: Option<seq<byte>>, k: nat, n: nat): (b: seq<byte>)
    ensures |b| == n
    ensures forall p: nat :: p < n ==> b[p] == BaseByte(base, k + p)
  {
    seq<byte>(n, p requires 0 <= p => BaseByte(base, k + p))
  }

  /** Byte r of a guest cluster whose L2 entry is w, at guest position k: an
      unallocated cluster reads as the backing image, or as zero without one. */
  function WordByte(g: Geometry, z: Codec, base: Option<seq<byte>>, f: seq<byte>,
                    w: nat, r: nat, k: nat): byte
    requires g.clusterSize > 0
  {
    if w == 0 then BaseByte(base, k)
    else if w < COMPRESSED then ByteAt(f, w + r)
    else
      var e := Expand(g, z, f, w);
      if e.Some? && r < |e.value| then e.value[r] else 0
  }

  /** Both files give the entry w the same bytes. */
  ghost predicate SameContent(g: Geometry, z: Codec, f: seq<byte>, f': seq<byte>, w: nat)
    requires g.clusterSize > 0
  {
    forall base: Option<seq<byte>>, r: nat, k: nat :: r < g.clusterSize ==>
      WordByte(g, z, base, f', w, r, k) == WordByte(g, z, base, f, w, r, k)
  }

  // ------------------------------------------------------------ frames

  /** f' keeps every byte of f outside [lo, hi). */
  predicate ChangedOnly(f: seq<byte>, f': seq<byte>, lo: nat, hi: nat)
  {
    |f| <= |f'| && forall p :: 0 <= p < |f| && !(lo <= p < hi) ==> f'[p] == f[p]
  }

  /** f stores the bytes b at a. */
  predicate HoldsAt(f: seq<byte>, a: nat, b: seq<byte>)
  {
    a + |b| <= |f| && f[a..a + |b|] == b
  }

  /** Everything before the L1 table, the header, is unchanged. */
  predicate HeaderKeeps(g: Geometry, f: seq<byte>, f': seq<byte>)
  {
    g.l1TableOffset <= |f| && g.l1TableOffset <= |f'| && f'[..g.l1TableOffset] == f[..g.l1TableOffset]
  }

  lemma ChangeKeepsHeader(g: Geometry, f: seq<byte>, f': seq<byte>, lo: nat, hi: nat)
    requires ChangedOnly(f, f', lo, hi) && g.l1TableOffset <= lo && g.l1TableOffset <= |f|
    ensures HeaderKeeps(g, f, f')
  {
    SliceKeeps(f, f', lo, hi, 0, g.l1TableOffset);
  }

  lemma SliceKeeps(f: seq<byte>, f': seq<byte>, lo: nat, hi: nat, off: nat, len: nat)
    requires ChangedOnly(f, f', lo, hi)
    requires off + len <= |f|
    requires off + len <= lo || hi <= off
    ensures f'[off..off + len] == f[off..off + len]
  {}

  lemma L1Keeps(g: Geometry, f: seq<byte>, f': seq<byte>, lo: nat, hi: nat)
    requires g.L1End() <= |f|
    requires ChangedOnly(f, f', lo, hi) && g.L1End() <= lo
    ensures forall i :: 0 <= i < g.l1Size ==> L1Entry(g, f', i) == L1Entry(g, f, i)
  {
    forall i | 0 <= i < g.l1Size
      ensures L1Entry(g, f', i) == L1Entry(g, f, i)
    {
      SliceKeeps(f, f', lo, hi, g.l1TableOffset + 8 * i, 8);
    }
  }

  /** A change that leaves the L2 entry of a cluster alone leaves its walk alone. */
  lemma WordKeeps(g: Geometry, f: seq<byte>, f': seq<byte>, lo: nat, hi: nat, i: nat, j: nat)
    requires ChangedOnly(f, f', lo, hi)
    requires L1Entry(g, f', i) == L1Entry(g, f, i)
    requires L1Entry(g, f, i) != 0 ==>
               && EntryAddr(g, f, i, j) + 8 <= |f|
               && (EntryAddr(g, f, i, j) + 8 <= lo || hi <= EntryAddr(g, f, i, j))
    ensures ClusterWord(g, f', i, j) == ClusterWord(g, f, i, j)
  {
    if L1Entry(g, f, i) != 0 {
      SliceKeeps(f, f', lo, hi, EntryAddr(g, f, i, j), 8);
    }
  }

  /** A change outside the extent of entry w leaves what w denotes alone. */
  lemma ContentKeeps(g: Geometry, z: Codec, f: seq<byte>, f': seq<byte>, lo: nat, hi: nat, w: nat)
    requires g.Shape()
    requires ChangedOnly(f, f', lo, hi) && lo <= hi
    requires Inside(g, f, WordExtent(g, w)) && Expands(g, z, f, w)
    requires Apart(WordExtent(g, w), Extent(lo, hi - lo))
    ensures Expands(g, z, f', w) && SameContent(g, z, f, f', w)
  {
    var e := WordExtent(g, w);
    if w != 0 {
      if lo < hi {
        SliceKeeps(f, f', lo, hi, e.off, e.len);
      } else {
        SliceKeeps(f, f', |f|, |f|, e.off, e.len);
      }
    }
  }

  // ------------------------------------------------------------ using the invariant

  lemma LaidBounds(g: Geometry, f: seq<byte>)
    requires Laid(g, f)
    ensures g.Shape() && 0 < g.L1End() <= |f| <= COMPRESSED
  {}

  lemma LaidApart(g: Geometry, f: seq<byte>, o: Object, p: Object)
    requires Laid(g, f)
    requires InRange(g, o) && InRange(g, p) && o != p
    ensures Apart(ExtentOf(g, f, o), ExtentOf(g, f, p))
  {}

  lemma LaidTable(g: Geometry, f: seq<byte>, i: nat)
    requires Laid(g, f)
    requires i < g.l1Size && L1Entry(g, f, i) != 0
    ensures g.L1End() <= L1Entry(g, f, i)
    ensures L1Entry(g, f, i) + 8 * g.l2Size <= |f|
  {
    assert InRange(g, L2Table(i));
    assert Inside(g, f, ExtentOf(g, f, L2Table(i)));
  }

  lemma LaidCluster(g: Geometry, f: seq<byte>, i: nat, j: nat)
    requires Laid(g, f) && InMap(g, i, j)
    ensures Inside(g, f, WordExtent(g, ClusterWord(g, f, i, j)))
  {
    assert InRange(g, Cluster(i, j));
    assert Inside(g, f, ExtentOf(g, f, Cluster(i, j)));
  }

  lemma ImageBounds(g: Geometry, z: Codec, f: seq<byte>)
    requires WellFormed(g, z, f)
    ensures g.Shape() && 0 < g.L1End() <= |f| <= COMPRESSED
  {}

  lemma ObjectsApart(g: Geometry, z: Codec, f: seq<byte>, o: Object, p: Object)
    requires WellFormed(g, z, f)
    requires InRange(g, o) && InRange(g, p) && o != p
    ensures Apart(ExtentOf(g, f, o), ExtentOf(g, f, p))
  {}

  lemma TableInside(g: Geometry, z: Codec, f: seq<byte>, i: nat)
    requires WellFormed(g, z, f)
    requires i < g.l1Size && L1Entry(g, f, i) != 0
    ensures g.L1End() <= L1Entry(g, f, i)
    ensures L1Entry(g, f, i) + 8 * g.l2Size <= |f|
  {
    LaidTable(g, f, i);
  }

  lemma ClusterInside(g: Geometry, z: Codec, f: seq<byte>, i: nat, j: nat)
    requires WellFormed(g, z, f) && InMap(g, i, j)
    ensures Inside(g, f, WordExtent(g, ClusterWord(g, f, i, j)))
    ensures Expands(g, z, f, ClusterWord(g, f, i, j))
  {
    LaidCluster(g, f, i, j);
  }

  lemma NormalInside(g: Geometry, f: seq<byte>, w: nat)
    requires g.clusterSize > 0 && 0 < w < COMPRESSED
    requires Inside(g, f, WordExtent(g, w))
    ensures g.L1End() <= w && w + g.clusterSize <= |f|
  {}

  /** The shape common to all steps: only the object x may move, and if it does
      it moves to space past the old end of the file. */
  lemma WellFormedStep(g: Geometry, z: Codec, f: seq<byte>, f': seq<byte>, x: Object)
    requires WellFormed(g, z, f)
    requires |f| <= |f'| <= COMPRESSED
    requires forall o :: InRange(g, o) && o != x ==> ExtentOf(g, f', o) == ExtentOf(g, f, o)
    requires InRange(g, x)
    requires var e := ExtentOf(g, f', x);
             e == ExtentOf(g, f, x) || (|f| <= e.off && e.off + e.len <= |f'|)
    requires forall i: nat, j: nat :: InMap(g, i, j) ==> Expands(g, z, f', ClusterWord(g, f', i, j))
    ensures WellFormed(g, z, f')
  {
    forall o | InRange(g, o)
      ensures Inside(g, f', ExtentOf(g, f', o))
    {
      assert Inside(g, f, ExtentOf(g, f, o));
    }
    forall o, p | InRange(g, o) && InRange(g, p) && o != p
      ensures Apart(ExtentOf(g, f', o), ExtentOf(g, f', p))
    {
      assert Inside(g, f, ExtentOf(g, f, o)) && Inside(g, f, ExtentOf(g, f, p));
      ObjectsApart(g, z, f, o, p);
    }
  }

  // ------------------------------------------------------------ the three kinds of step

  /** No L2 table lies in e, and neither do the header and the L1 table. */
  predicate SparesTables(g: Geometry, f: seq<byte>, e: Extent)
    requires g.clusterSize > 0
  {
    g.L1End() <= e.off && forall n: nat :: n < g.l1Size ==> Apart(ExtentOf(g, f, L2Table(n)), e)
  }

  /** A change that spares the tables changes no map entry, whatever it hits. */
  lemma SparedTables(g: Geometry, f: seq<byte>, f': seq<byte>, lo: nat, hi: nat)
    requires Laid(g, f) && lo < hi && SparesTables(g, f, Extent(lo, hi - lo))
    requires ChangedOnly(f, f', lo, hi) && |f'| <= COMPRESSED
    ensures Laid(g, f')
    ensures forall n :: 0 <= n < g.l1Size ==> L1Entry(g, f', n) == L1Entry(g, f, n)
    ensures forall n: nat, m: nat :: InMap(g, n, m) ==> ClusterWord(g, f', n, m) == ClusterWord(g, f, n, m)
  {
    hide Laid;
    LaidBounds(g, f);
    L1Keeps(g, f, f', lo, hi);
    forall n: nat, m: nat | InMap(g, n, m)
      ensures ClusterWord(g, f', n, m) == ClusterWord(g, f, n, m)
    {
      if L1Entry(g, f, n) != 0 {
        LaidTable(g, f, n);
        assert Apart(ExtentOf(g, f, L2Table(n)), Extent(lo, hi - lo));
      }
      WordKeeps(g, f, f', lo, hi, n, m);
    }
    LaidSame(g, f, f');
  }

  lemma LaidSame(g: Geometry, f: seq<byte>, f': seq<byte>)
    requires Laid(g, f) && |f| <= |f'| <= COMPRESSED
    requires forall n :: 0 <= n < g.l1Size ==> L1Entry(g, f', n) == L1Entry(g, f, n)
    requires forall n: nat, m: nat :: InMap(g, n, m) ==> ClusterWord(g, f', n, m) == ClusterWord(g, f, n, m)
    ensures Laid(g, f')
  {
    hide L1Entry, ClusterWord, WordExtent;
    forall o | InRange(g, o)
      ensures ExtentOf(g, f', o) == ExtentOf(g, f, o) && Inside(g, f', ExtentOf(g, f', o))
    {
      assert Inside(g, f, ExtentOf(g, f, o));
    }
    forall o, p | InRange(g, o) && InRange(g, p) && o != p
      ensures Apart(ExtentOf(g, f', o), ExtentOf(g, f', p))
    {
      LaidApart(g, f, o, p);
    }
  }

  /** Part of the space of one cluster lies in no other object. */
  lemma ClusterSpares(g: Geometry, f: seq<byte>, i: nat, j: nat, lo: nat, hi: nat)
    requires Laid(g, f) && InMap(g, i, j)
    requires var e := WordExtent(g, ClusterWord(g, f, i, j)); e.off <= lo < hi <= e.off + e.len
    ensures hi <= |f| && SparesTables(g, f, Extent(lo, hi - lo))
    ensures forall n: nat, m: nat :: InMap(g, n, m) && (n, m) != (i, j) ==>
              Apart(WordExtent(g, ClusterWord(g, f, n, m)), Extent(lo, hi - lo))
  {
    hide Laid, L1Entry, ClusterWord, WordExtent;
    LaidBounds(g, f);
    LaidCluster(g, f, i, j);
    forall n: nat | n < g.l1Size
      ensures Apart(ExtentOf(g, f, L2Table(n)), Extent(lo, hi - lo))
    {
      LaidApart(g, f, L2Table(n), Cluster(i, j));
    }
    forall n: nat, m: nat | InMap(g, n, m) && (n, m) != (i, j)
      ensures Apart(WordExtent(g, ClusterWord(g, f, n, m)), Extent(lo, hi - lo))
    {
      LaidApart(g, f, Cluster(n, m), Cluster(i, j));
    }
  }

  /** Overwriting part of one normal cluster's data changes no map entry and no
      other cluster's bytes. */
  lemma DataWriteStep(g: Geometry, z: Codec, f: seq<byte>, f': seq<byte>, i: nat, j: nat,
                      lo: nat, hi: nat)
    requires WellFormed(g, z, f) && InMap(g, i, j)
    requires 0 < ClusterWord(g, f, i, j) < COMPRESSED
    requires ClusterWord(g, f, i, j) <= lo < hi <= ClusterWord(g, f, i, j) + g.clusterSize
    requires ChangedOnly(f, f', lo, hi) && |f'| == |f|
    ensures WellFormed(g, z, f')
    ensures forall n :: 0 <= n < g.l1Size ==> L1Entry(g, f', n) == L1Entry(g, f, n)
    ensures forall n: nat, m: nat :: InMap(g, n, m) ==> ClusterWord(g, f', n, m) == ClusterWord(g, f, n, m)
    ensures forall n: nat, m: nat :: InMap(g, n, m) && (n, m) != (i, j) ==>
              SameContent(g, z, f, f', ClusterWord(g, f, n, m))
  {
    hide Laid, ClusterWord, SameContent, SparesTables, L1Entry, Expand;
    LaidBounds(g, f);
    ClusterSpares(g, f, i, j, lo, hi);
    SparedTables(g, f, f', lo, hi);
    forall n: nat, m: nat | InMap(g, n, m)
      ensures Expands(g, z, f', ClusterWord(g, f', n, m))
      ensures (n, m) != (i, j) ==> SameContent(g, z, f, f', ClusterWord(g, f, n, m))
    {
      if (n, m) != (i, j) {
        LaidCluster(g, f, n, m);
        ContentKeeps(g, z, f, f', lo, hi, ClusterWord(g, f, n, m));
      }
    }
  }

  /** Giving L1 entry i an all-zero table past the end of the file changes no
      cluster's entry or bytes. */
  lemma NewTableStep(g: Geometry, z: Codec, f: seq<byte>, f': seq<byte>, i: nat, t: nat)
    requires WellFormed(g, z, f)
    requires i < g.l1Size && L1Entry(g, f, i) == 0
    requires ChangedOnly(f, f', g.l1TableOffset + 8 * i, g.l1TableOffset + 8 * i + 8)
    requires |f| <= t && |f'| == t + 8 * g.l2Size <= COMPRESSED
    requires L1Entry(g, f', i) == t
    requires forall m: nat :: m < g.l2Size ==> Word(f', t + 8 * m) == 0
    ensures WellFormed(g, z, f')
    ensures forall n: nat :: n < g.l1Size && n != i ==> L1Entry(g, f', n) == L1Entry(g, f, n)
    ensures forall n: nat, m: nat :: InMap(g, n, m) ==> ClusterWord(g, f', n, m) == ClusterWord(g, f, n, m)
    ensures forall n: nat, m: nat :: InMap(g, n, m) ==>
              SameContent(g, z, f, f', ClusterWord(g, f, n, m))
  {
    hide WellFormed;
    ImageBounds(g, z, f);
    var lo := g.l1TableOffset + 8 * i;
    forall n: nat | n < g.l1Size && n != i
      ensures L1Entry(g, f', n) == L1Entry(g, f, n)
    {
      SliceKeeps(f, f', lo, lo + 8, g.l1TableOffset + 8 * n, 8);
    }
    forall n: nat, m: nat | InMap(g, n, m)
      ensures ClusterWord(g, f', n, m) == ClusterWord(g, f, n, m)
      ensures Expands(g, z, f', ClusterWord(g, f', n, m))
      ensures SameContent(g, z, f, f', ClusterWord(g, f, n, m))
    {
      if n != i {
        if L1Entry(g, f, n) != 0 {
          TableInside(g, z, f, n);
        }
        WordKeeps(g, f, f', lo, lo + 8, n, m);
      }
      ClusterInside(g, z, f, n, m);
      ContentKeeps(g, z, f, f', lo, lo + 8, ClusterWord(g, f, n, m));
    }
    WellFormedStep(g, z, f, f', L2Table(i));
  }

  /** Rewriting one L2 entry changes no other entry. */
  lemma EntryWriteWords(g: Geometry, z: Codec, f: seq<byte>, f': seq<byte>, i: nat, j: nat, n: nat, m: nat)
    requires WellFormed(g, z, f) && InMap(g, i, j) && InMap(g, n, m)
    requires L1Entry(g, f, i) != 0
    requires ChangedOnly(f, f', EntryAddr(g, f, i, j), EntryAddr(g, f, i, j) + 8)
    ensures L1Entry(g, f', n) == L1Entry(g, f, n)
    ensures (n, m) != (i, j) ==> ClusterWord(g, f', n, m) == ClusterWord(g, f, n, m)
  {
    hide WellFormed, WordExtent;
    ImageBounds(g, z, f);
    var lo := EntryAddr(g, f, i, j);
    TableInside(g, z, f, i);
    L1Keeps(g, f, f', lo, lo + 8);
    if (n, m) != (i, j) {
      if n != i && L1Entry(g, f, n) != 0 {
        TableInside(g, z, f, n);
        ObjectsApart(g, z, f, L2Table(n), L2Table(i));
      }
      WordKeeps(g, f, f', lo, lo + 8, n, m);
    }
  }

  /** Rewriting one L2 entry touches no cluster's data. */
  lemma EntryWriteContent(g: Geometry, z: Codec, f: seq<byte>, f': seq<byte>, i: nat, j: nat, n: nat, m: nat)
    requires WellFormed(g, z, f) && InMap(g, i, j) && InMap(g, n, m)
    requires L1Entry(g, f, i) != 0
    requires ChangedOnly(f, f', EntryAddr(g, f, i, j), EntryAddr(g, f, i, j) + 8)
    ensures Expands(g, z, f', ClusterWord(g, f, n, m))
    ensures SameContent(g, z, f, f', ClusterWord(g, f, n, m))
  {
    hide WellFormed;
    ImageBounds(g, z, f);
    var lo := EntryAddr(g, f, i, j);
    ClusterInside(g, z, f, n, m);
    ObjectsApart(g, z, f, Cluster(n, m), L2Table(i));
    ContentKeeps(g, z, f, f', lo, lo + 8, ClusterWord(g, f, n, m));
  }

  /** Storing data past the end of the file and pointing one L2 entry at it
      changes the mapping of exactly that cluster. */
  lemma AttachStep(g: Geometry, z: Codec, f: seq<byte>, f': seq<byte>, i: nat, j: nat, w: nat)
    requires WellFormed(g, z, f) && InMap(g, i, j)
    requires L1Entry(g, f, i) != 0
    requires ChangedOnly(f, f', EntryAddr(g, f, i, j), EntryAddr(g, f, i, j) + 8)
    requires Word(f', EntryAddr(g, f, i, j)) == w
    requires |f'| <= COMPRESSED
    requires |f| <= WordExtent(g, w).off && WordExtent(g, w).off + WordExtent(g, w).len <= |f'|
    requires Expands(g, z, f', w)
    ensures WellFormed(g, z, f')
    ensures forall n: nat :: n < g.l1Size ==> L1Entry(g, f', n) == L1Entry(g, f, n)
    ensures ClusterWord(g, f', i, j) == w
    ensures forall n: nat, m: nat :: InMap(g, n, m) && (n, m) != (i, j) ==>
              ClusterWord(g, f', n, m) == ClusterWord(g, f, n, m)
    ensures forall n: nat, m: nat :: InMap(g, n, m) ==>
              SameContent(g, z, f, f', ClusterWord(g, f, n, m))
  {
    hide WellFormed, WordExtent, Expands, SameContent;
    ImageBounds(g, z, f);
    forall n: nat | n < g.l1Size
      ensures L1Entry(g, f', n) == L1Entry(g, f, n)
    {
      EntryWriteWords(g, z, f, f', i, j, n, j);
    }
    forall n: nat, m: nat | InMap(g, n, m)
      ensures (n, m) != (i, j) ==> ClusterWord(g, f', n, m) == ClusterWord(g, f, n, m)
      ensures Expands(g, z, f', ClusterWord(g, f', n, m))
      ensures SameContent(g, z, f, f', ClusterWord(g, f, n, m))
    {
      EntryWriteWords(g, z, f, f', i, j, n, m);
      EntryWriteContent(g, z, f, f', i, j, n, m);
    }
    WellFormedStep(g, z, f, f', Cluster(i, j));
  }
}
