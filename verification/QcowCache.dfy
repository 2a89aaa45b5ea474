/** What the driver keeps in memory, and when it agrees with the file: the L1
    table, the sixteen-slot L2 cache and the one-entry decompression cache. */
module QcowCache {
  import opened Arith
  import opened Bytes
  import opened HostFile
  import opened QcowMap
  import opened QcowRoom
  import opened QcowAlloc

  const L2_CACHE_SIZE: nat := 16
  const COUNT_LIMIT: nat := 0xffff_ffff
  /** cluster_cache_offset = -1, as an unsigned word. */
  const NO_OFFSET: nat := 0xffff_ffff_ffff_ffff

  // ------------------------------------------------------------ the L1 table

  predicate L1Ok(g: Geometry, f: seq<byte>, l1: seq<nat>)
  {
    |l1| == g.l1Size && forall i: nat :: i < |l1| ==> l1[i] == L1Entry(g, f, i)
  }

  // ------------------------------------------------------------ the L2 cache

  ghost predicate IsTable(g: Geometry, f: seq<byte>, t: nat)
  {
    exists i: nat :: i < g.l1Size && L1Entry(g, f, i) == t
  }

  /** A slot with a nonzero tag holds the table on disk at that tag. */
  ghost predicate SlotOk(g: Geometry, f: seq<byte>, tag: nat, slot: seq<byte>)
  {
    && |slot| == 8 * g.l2Size
    && (tag != 0 ==>
          && IsTable(g, f, tag)
          && tag + 8 * g.l2Size <= |f|
          && slot == f[tag..tag + 8 * g.l2Size])
  }

  ghost predicate CacheOk(g: Geometry, f: seq<byte>, tags: seq<nat>, counts: seq<nat>, slots: seq<seq<byte>>)
  {
    && |tags| == |counts| == |slots| == L2_CACHE_SIZE
    && (forall s: nat :: s < L2_CACHE_SIZE ==> counts[s] < COUNT_LIMIT)
    && (forall s: nat :: s < L2_CACHE_SIZE ==> SlotOk(g, f, tags[s], slots[s]))
    && (forall s: nat, u: nat :: s < u < L2_CACHE_SIZE && tags[s] != 0 ==> tags[s] != tags[u])
  }

  /** The hit counts after a hit on slot s (block-qcow.c:220-224): every count is
      halved when this one would reach its limit. */
  function Touched(counts: seq<nat>, s: nat): seq<nat>
    requires s < |counts|
  {
    var c := counts[s := counts[s] + 1];
    if c[s] == COUNT_LIMIT then seq(|c|, k requires 0 <= k < |c| => c[k] / 2) else c
  }

  lemma TouchedBelowLimit(counts: seq<nat>, s: nat)
    requires s < |counts|
    requires forall k: nat :: k < |counts| ==> counts[k] < COUNT_LIMIT
    ensures |Touched(counts, s)| == |counts|
    ensures forall k: nat :: k < |counts| ==> Touched(counts, s)[k] < COUNT_LIMIT
    ensures forall k: nat :: k < |counts| ==>
              var c := if k == s then counts[k] + 1 else counts[k];
              Touched(counts, s)[k] == if counts[s] == 0xffff_fffe then c / 2 else c
  {}

  /** A slot is a true victim when no slot has a smaller count. */
  predicate LeastUsed(counts: seq<nat>, s: nat)
  {
    s < |counts| && forall k: nat :: k < |counts| ==> counts[s] <= counts[k]
  }

  lemma TagsBelowEnd(g: Geometry, f: seq<byte>, tags: seq<nat>, counts: seq<nat>, slots: seq<seq<byte>>, s: nat)
    requires g.Shape() && CacheOk(g, f, tags, counts, slots) && s < L2_CACHE_SIZE
    ensures tags[s] < |f| || tags[s] == 0
  {
    assert SlotOk(g, f, tags[s], slots[s]);
  }

  /** A table the change does not touch keeps its cached copy. */
  lemma SlotKeeps(g: Geometry, z: Codec, f: seq<byte>, f': seq<byte>, lo: nat, hi: nat, tag: nat, slot: seq<byte>)
    requires g.Shape()
    requires SlotOk(g, f, tag, slot)
    requires ChangedOnly(f, f', lo, hi)
    requires forall n: nat :: n < g.l1Size && L1Entry(g, f, n) != 0 ==> L1Entry(g, f', n) == L1Entry(g, f, n)
    requires tag != 0 ==> tag + 8 * g.l2Size <= lo || hi <= tag
    ensures SlotOk(g, f', tag, slot)
  {
    if tag != 0 {
      var n: nat :| n < g.l1Size && L1Entry(g, f, n) == tag;
      assert L1Entry(g, f', n) == tag;
      SliceKeeps(f, f', lo, hi, tag, 8 * g.l2Size);
    }
  }

  /** A change outside every L2 table keeps the whole cache. */
  lemma CacheKeeps(g: Geometry, z: Codec, f: seq<byte>, f': seq<byte>, lo: nat, hi: nat,
                   tags: seq<nat>, counts: seq<nat>, slots: seq<seq<byte>>)
    requires g.Shape()
    requires CacheOk(g, f, tags, counts, slots)
    requires ChangedOnly(f, f', lo, hi)
    requires forall n: nat :: n < g.l1Size && L1Entry(g, f, n) != 0 ==>
               && L1Entry(g, f', n) == L1Entry(g, f, n)
               && (L1Entry(g, f, n) + 8 * g.l2Size <= lo || hi <= L1Entry(g, f, n))
    ensures CacheOk(g, f', tags, counts, slots)
  {
    forall s: nat | s < L2_CACHE_SIZE
      ensures SlotOk(g, f', tags[s], slots[s])
    {
      assert SlotOk(g, f, tags[s], slots[s]);
      SlotKeeps(g, z, f, f', lo, hi, tags[s], slots[s]);
    }
  }

  /** Loading table t into slot s (block-qcow.c:238-250). */
  lemma CacheLoads(g: Geometry, f: seq<byte>, tags: seq<nat>, counts: seq<nat>, slots: seq<seq<byte>>,
                   s: nat, t: nat, table: seq<byte>)
    requires CacheOk(g, f, tags, counts, slots) && s < L2_CACHE_SIZE
    requires t != 0 && SlotOk(g, f, t, table)
    requires forall u: nat :: u < L2_CACHE_SIZE ==> tags[u] != t
    ensures CacheOk(g, f, tags[s := t], counts[s := 1], slots[s := table])
  {
    var tags', slots' := tags[s := t], slots[s := table];
    forall u: nat | u < L2_CACHE_SIZE
      ensures SlotOk(g, f, tags'[u], slots'[u])
    {
      assert SlotOk(g, f, tags[u], slots[u]);
    }
  }

  /** Entry j of a cached table with its word replaced. */
  function SlotWith(slot: seq<byte>, j: nat, w: nat): seq<byte>
    requires 8 * j + 8 <= |slot|
  {
    slot[..8 * j] + EncodeBE(w, 8) + slot[8 * j + 8..]
  }

  /** The cached copy of a table tells the same entries as the file. */
  lemma CachedWord(g: Geometry, f: seq<byte>, i: nat, j: nat, slot: seq<byte>)
    requires InMap(g, i, j) && L1Entry(g, f, i) != 0
    requires SlotOk(g, f, L1Entry(g, f, i), slot)
    ensures DecodeBE(slot[8 * j..8 * j + 8]) == ClusterWord(g, f, i, j)
  {
    SliceOfSlice(f, L1Entry(g, f, i), 8 * g.l2Size, 8 * j, 8);
  }

  /** Writing one L2 entry through: the file's table and the cached copy change
      alike, and no other slot is affected. f' may also have grown. */
  lemma CacheWritesThrough(g: Geometry, z: Codec, f: seq<byte>, f': seq<byte>, i: nat, j: nat, w: nat,
                           tags: seq<nat>, counts: seq<nat>, slots: seq<seq<byte>>, s: nat)
    requires WellFormed(g, z, f) && InMap(g, i, j) && L1Entry(g, f, i) != 0
    requires CacheOk(g, f, tags, counts, slots)
    requires s < L2_CACHE_SIZE && tags[s] == L1Entry(g, f, i)
    requires ChangedOnly(f, f', EntryAddr(g, f, i, j), EntryAddr(g, f, i, j) + 8)
    requires HoldsAt(f', EntryAddr(g, f, i, j), EncodeBE(w, 8))
    ensures |slots[s]| == 8 * g.l2Size
    ensures CacheOk(g, f', tags, counts, slots[s := SlotWith(slots[s], j, w)])
  {
    hide WellFormed, DecodeBE, EncodeBE, WordExtent;
    ImageBounds(g, z, f);
    var a, t := EntryAddr(g, f, i, j), L1Entry(g, f, i);
    TableInside(g, z, f, i);
    L1Keeps(g, f, f', a, a + 8);
    assert SlotOk(g, f, tags[s], slots[s]);
    var slot' := SlotWith(slots[s], j, w);
    SlotWrites(g, f, f', t, j, w, slots[s]);
    forall u: nat | u < L2_CACHE_SIZE
      ensures SlotOk(g, f', tags[u], slots[s := slot'][u])
    {
      assert SlotOk(g, f, tags[u], slots[u]);
      if u == s {
        assert L1Entry(g, f', i) == t;
      } else if tags[u] != 0 {
        var n: nat :| n < g.l1Size && L1Entry(g, f, n) == tags[u];
        assert tags[u] != t;
        ObjectsApart(g, z, f, L2Table(n), L2Table(i));
        SlotKeeps(g, z, f, f', a, a + 8, tags[u], slots[u]);
      }
    }
  }

  lemma SlotWrites(g: Geometry, f: seq<byte>, f': seq<byte>, t: nat, j: nat, w: nat, slot: seq<byte>)
    requires j < g.l2Size && t + 8 * g.l2Size <= |f|
    requires slot == f[t..t + 8 * g.l2Size]
    requires ChangedOnly(f, f', t + 8 * j, t + 8 * j + 8)
    requires HoldsAt(f', t + 8 * j, EncodeBE(w, 8))
    ensures SlotWith(slot, j, w) == f'[t..t + 8 * g.l2Size]
  {
    hide EncodeBE;
    var b := EncodeBE(w, 8);
    var s, n := t + 8 * j, t + 8 * g.l2Size;
    assert f'[t..n] == f'[t..s] + f'[s..s + 8] + f'[s + 8..n];
    SliceKeeps(f, f', s, s + 8, t, 8 * j);
    SliceKeeps(f, f', s, s + 8, s + 8, n - (s + 8));
    assert slot[..8 * j] == f[t..s];
    assert slot[8 * j + 8..] == f[s + 8..n];
  }

  // ------------------------------------------------------------ the decompression cache

  /** The cached cluster is the content of every compressed entry stored at the
      cached offset. */
  ghost predicate ClusterCacheOk(g: Geometry, z: Codec, f: seq<byte>, coff: nat, cdata: seq<byte>)
    requires g.clusterSize > 0
  {
    && |cdata| == g.clusterSize
    && (forall i: nat, j: nat :: InMap(g, i, j) && ClusterWord(g, f, i, j) >= COMPRESSED
                                 && WordExtent(g, ClusterWord(g, f, i, j)).off == coff ==>
          Expand(g, z, f, ClusterWord(g, f, i, j)) == Some(cdata))
  }

  lemma ExpandSame(g: Geometry, z: Codec, f: seq<byte>, f': seq<byte>, w: nat)
    requires g.Shape() && w >= COMPRESSED
    requires Expands(g, z, f, w) && Expands(g, z, f', w) && SameContent(g, z, f, f', w)
    ensures Expand(g, z, f', w) == Expand(g, z, f, w)
  {
    hide WordExtent, Expand;
    var d, d' := Expand(g, z, f, w).value, Expand(g, z, f', w).value;
    forall r: nat | r < g.clusterSize
      ensures d'[r] == d[r]
    {
      assert WordByte(g, z, None, f', w, r, 0) == WordByte(g, z, None, f, w, r, 0);
    }
    assert d' == d;
  }

  /** A step that moves only cluster (i, j), and not to the cached offset, keeps the
      decompression cache right. */
  lemma ClusterCacheKeeps(g: Geometry, z: Codec, f: seq<byte>, f': seq<byte>, i: nat, j: nat,
                          coff: nat, cdata: seq<byte>)
    requires WellFormed(g, z, f) && WellFormed(g, z, f')
    requires |f| <= |f'|
    requires ClusterCacheOk(g, z, f, coff, cdata)
    requires forall n: nat, m: nat :: InMap(g, n, m) && (n, m) != (i, j) ==>
               && ClusterWord(g, f', n, m) == ClusterWord(g, f, n, m)
               && SameContent(g, z, f, f', ClusterWord(g, f, n, m))
    requires InMap(g, i, j)
    requires var w' := ClusterWord(g, f', i, j);
             || w' < COMPRESSED
             || (w' == ClusterWord(g, f, i, j) && SameContent(g, z, f, f', w'))
             || WordExtent(g, w').off != coff
    ensures ClusterCacheOk(g, z, f', coff, cdata)
  {
    hide WellFormed, WordExtent, Expand, SameContent, Word;
    ImageBounds(g, z, f);
    ImageBounds(g, z, f');
    forall n: nat, m: nat | InMap(g, n, m) && ClusterWord(g, f', n, m) >= COMPRESSED
                            && WordExtent(g, ClusterWord(g, f', n, m)).off == coff
      ensures Expand(g, z, f', ClusterWord(g, f', n, m)) == Some(cdata)
    {
      var w := ClusterWord(g, f', n, m);
      assert w == ClusterWord(g, f, n, m) && SameContent(g, z, f, f', w);
      ClusterInside(g, z, f, n, m);
      ClusterInside(g, z, f', n, m);
      ExpandSame(g, z, f, f', w);
    }
  }

  // ------------------------------------------------------------ the whole driver state

  /** The file is laid out soundly, has room for whatever may still be allocated,
      and the L1 and L2 copies agree with it. The decompression cache may be wrong. */
  ghost predicate DriverSound(g: Geometry, f: seq<byte>, l1: seq<nat>,
                              tags: seq<nat>, counts: seq<nat>, slots: seq<seq<byte>>)
  {
    && g.Opened() && Fills(g)
    && Laid(g, f) && Roomy(g, f)
    && L1Ok(g, f, l1)
    && CacheOk(g, f, tags, counts, slots)
  }

  /** The driver's memory and its file agree. */
  ghost predicate DriverOk(g: Geometry, z: Codec, f: seq<byte>, l1: seq<nat>,
                           tags: seq<nat>, counts: seq<nat>, slots: seq<seq<byte>>,
                           coff: nat, cdata: seq<byte>)
  {
    && DriverSound(g, f, l1, tags, counts, slots)
    && Lossless(z) && WellFormed(g, z, f)
    && ClusterCacheOk(g, z, f, coff, cdata)
  }

  /** Making an L2 table keeps the cache, the L1 table and the decompression
      cache in step with the file. */
  lemma DriverGainsTable(g: Geometry, z: Codec, f: seq<byte>, i: nat, l1: seq<nat>,
                         tags: seq<nat>, counts: seq<nat>, slots: seq<seq<byte>>, coff: nat, cdata: seq<byte>)
    requires DriverOk(g, z, f, l1, tags, counts, slots, coff, cdata)
    requires i < g.l1Size && L1Entry(g, f, i) == 0
    ensures var t, f' := RoundUp(|f|, g.clusterSize), WithTable(g, f, i);
            && |l1| == g.l1Size
            && |f| <= t && t != 0
            && DriverOk(g, z, f', l1[i := t], tags, counts, slots, coff, cdata)
            && L1Entry(g, f', i) == t
            && HoldsAt(f', t, Zeros(8 * g.l2Size))
            && (forall s: nat :: s < L2_CACHE_SIZE ==> tags[s] != t)
  {
    hide WellFormed, WithTable, ClusterCacheOk, Lossless, Geometry.Opened, DecodeBE, Roomy, Total, Fills;
    ImageBounds(g, z, f);
    var t, a, f' := RoundUp(|f|, g.clusterSize), g.l1TableOffset + 8 * i, WithTable(g, f, i);
    RoomForTable(g, f, i);
    WithTableBytes(g, f, i);
    WithTableStep(g, z, f, i);
    WellFormedIsLaid(g, z, f');
    TablesAfterL1(g, z, f);
    CacheKeeps(g, z, f, f', a, a + 8, tags, counts, slots);
    forall s: nat | s < L2_CACHE_SIZE
      ensures tags[s] != t
    {
      TagsBelowEnd(g, f, tags, counts, slots, s);
    }
    if g.l2Size > 0 {
      ClusterCacheKeeps(g, z, f, f', i, 0, coff, cdata);
    }
  }

  lemma WellFormedIsLaid(g: Geometry, z: Codec, f: seq<byte>)
    requires WellFormed(g, z, f)
    ensures Laid(g, f)
  {}

  lemma TablesAfterL1(g: Geometry, z: Codec, f: seq<byte>)
    requires WellFormed(g, z, f)
    ensures forall n: nat :: n < g.l1Size && L1Entry(g, f, n) != 0 ==>
              && g.L1End() <= L1Entry(g, f, n)
              && L1Entry(g, f, n) + 8 * g.l2Size <= |f|
  {
    forall n: nat | n < g.l1Size && L1Entry(g, f, n) != 0
      ensures g.L1End() <= L1Entry(g, f, n) && L1Entry(g, f, n) + 8 * g.l2Size <= |f|
    {
      TableInside(g, z, f, n);
    }
  }

  /** Storing data in a normal cluster keeps every cache. */
  lemma DriverWritesData(g: Geometry, z: Codec, f: seq<byte>, f': seq<byte>, i: nat, j: nat, lo: nat, hi: nat,
                         l1: seq<nat>, tags: seq<nat>, counts: seq<nat>, slots: seq<seq<byte>>,
                         coff: nat, cdata: seq<byte>)
    requires DriverOk(g, z, f, l1, tags, counts, slots, coff, cdata)
    requires InMap(g, i, j) && 0 < ClusterWord(g, f, i, j) < COMPRESSED
    requires ClusterWord(g, f, i, j) <= lo < hi <= ClusterWord(g, f, i, j) + g.clusterSize
    requires ChangedOnly(f, f', lo, hi) && |f'| == |f|
    ensures DriverOk(g, z, f', l1, tags, counts, slots, coff, cdata)
  {
    hide WellFormed, Laid, ClusterCacheOk, Lossless, Geometry.Opened, Word, WordExtent, Roomy, Total, Fills;
    ImageBounds(g, z, f);
    DataWriteStep(g, z, f, f', i, j, lo, hi);
    RoomySame(g, f, f');
    WellFormedIsLaid(g, z, f');
    ClusterInside(g, z, f, i, j);
    forall n: nat | n < g.l1Size && L1Entry(g, f, n) != 0
      ensures L1Entry(g, f, n) + 8 * g.l2Size <= lo || hi <= L1Entry(g, f, n)
    {
      NormalExtent(g, f, i, j);
      ObjectsApart(g, z, f, L2Table(n), Cluster(i, j));
    }
    CacheKeeps(g, z, f, f', lo, hi, tags, counts, slots);
    ClusterCacheKeeps(g, z, f, f', i, j, coff, cdata);
  }

  lemma NormalExtent(g: Geometry, f: seq<byte>, i: nat, j: nat)
    requires g.clusterSize > 0 && 0 < ClusterWord(g, f, i, j) < COMPRESSED
    ensures ExtentOf(g, f, Cluster(i, j)) == Extent(ClusterWord(g, f, i, j), g.clusterSize)
  {}

  /** Entering a new place for cluster (i, j), in the file and in the cached copy
      of its table, keeps every cache. */
  lemma DriverEnters(g: Geometry, z: Codec, f: seq<byte>, f': seq<byte>, i: nat, j: nat, w: nat, s: nat,
                     l1: seq<nat>, tags: seq<nat>, counts: seq<nat>, slots: seq<seq<byte>>,
                     coff: nat, cdata: seq<byte>)
    requires DriverOk(g, z, f, l1, tags, counts, slots, coff, cdata)
    requires InMap(g, i, j) && L1Entry(g, f, i) != 0
    requires s < L2_CACHE_SIZE && tags[s] == L1Entry(g, f, i)
    requires ChangedOnly(f, f', EntryAddr(g, f, i, j), EntryAddr(g, f, i, j) + 8)
    requires HoldsAt(f', EntryAddr(g, f, i, j), EncodeBE(w, 8))
    requires WellFormed(g, z, f') && Roomy(g, f')
    requires forall n: nat, m: nat :: InMap(g, n, m) && (n, m) != (i, j) ==>
               && ClusterWord(g, f', n, m) == ClusterWord(g, f, n, m)
               && SameContent(g, z, f, f', ClusterWord(g, f, n, m))
    requires ClusterWord(g, f', i, j) < COMPRESSED
    ensures |slots[s]| == 8 * g.l2Size
    ensures DriverOk(g, z, f', l1, tags, counts, slots[s := SlotWith(slots[s], j, w)], coff, cdata)
  {
    hide WellFormed, Laid, ClusterCacheOk, Lossless, Geometry.Opened, Word, WordExtent, EncodeBE, SameContent,
         ClusterWord, Roomy, Total, Fills;
    ImageBounds(g, z, f);
    WellFormedIsLaid(g, z, f');
    var a := EntryAddr(g, f, i, j);
    TableInside(g, z, f, i);
    L1Keeps(g, f, f', a, a + 8);
    CacheWritesThrough(g, z, f, f', i, j, w, tags, counts, slots, s);
    ClusterCacheKeeps(g, z, f, f', i, j, coff, cdata);
  }

  /** Empty caches are right for any image. */
  lemma FreshCaches(g: Geometry, z: Codec, f: seq<byte>, tags: seq<nat>, counts: seq<nat>, slots: seq<seq<byte>>,
                    cdata: seq<byte>)
    requires WellFormed(g, z, f)
    requires |tags| == |counts| == |slots| == L2_CACHE_SIZE && |cdata| == g.clusterSize
    requires forall s: nat :: s < L2_CACHE_SIZE ==> tags[s] == 0 && counts[s] == 0 && |slots[s]| == 8 * g.l2Size
    ensures CacheOk(g, f, tags, counts, slots)
    ensures ClusterCacheOk(g, z, f, NO_OFFSET, cdata)
  {
    hide WellFormed, Expand;
    ImageBounds(g, z, f);
    forall i: nat, j: nat | InMap(g, i, j) && ClusterWord(g, f, i, j) >= COMPRESSED
      ensures WordExtent(g, ClusterWord(g, f, i, j)).off != NO_OFFSET
    {
      ClusterInside(g, z, f, i, j);
    }
  }

  lemma SoundFacts(g: Geometry, f: seq<byte>, l1: seq<nat>, tags: seq<nat>, counts: seq<nat>, slots: seq<seq<byte>>)
    requires DriverSound(g, f, l1, tags, counts, slots)
    ensures g.Opened() && g.Shape() && Fills(g) && Roomy(g, f)
    ensures Laid(g, f) && 0 < g.L1End() <= |f| <= COMPRESSED
    ensures |l1| == g.l1Size && forall i: nat :: i < |l1| ==> l1[i] == L1Entry(g, f, i)
    ensures |tags| == |counts| == |slots| == L2_CACHE_SIZE
    ensures forall s: nat :: s < L2_CACHE_SIZE ==> counts[s] < COUNT_LIMIT && |slots[s]| == 8 * g.l2Size
  {
    forall s: nat | s < L2_CACHE_SIZE
      ensures counts[s] < COUNT_LIMIT && |slots[s]| == 8 * g.l2Size
    {
      assert SlotOk(g, f, tags[s], slots[s]);
    }
  }

  /** Counting a hit keeps everything. */
  lemma DriverCounts(g: Geometry, f: seq<byte>, l1: seq<nat>,
                     tags: seq<nat>, counts: seq<nat>, slots: seq<seq<byte>>, s: nat)
    requires DriverSound(g, f, l1, tags, counts, slots)
    requires s < |counts|
    ensures DriverSound(g, f, l1, tags, Touched(counts, s), slots)
  {
    hide Laid, Roomy, Total, Fills, Geometry.Opened, SlotOk;
    TouchedBelowLimit(counts, s);
  }

  /** Loading the table of L1 entry i into a slot keeps everything. */
  lemma DriverLoads(g: Geometry, f: seq<byte>, l1: seq<nat>,
                    tags: seq<nat>, counts: seq<nat>, slots: seq<seq<byte>>, i: nat, s: nat, table: seq<byte>)
    requires DriverSound(g, f, l1, tags, counts, slots)
    requires i < g.l1Size && L1Entry(g, f, i) != 0
    requires HoldsAt(f, L1Entry(g, f, i), table) && |table| == 8 * g.l2Size
    requires s < L2_CACHE_SIZE
    requires forall u: nat :: u < |tags| ==> tags[u] != L1Entry(g, f, i)
    ensures |tags| == |counts| == |slots| == L2_CACHE_SIZE
    ensures DriverSound(g, f, l1, tags[s := L1Entry(g, f, i)], counts[s := 1], slots[s := table])
  {
    hide Laid, Roomy, Total, Fills, Geometry.Opened, Word;
    CacheLoads(g, f, tags, counts, slots, s, L1Entry(g, f, i), table);
  }

  /** Filling the decompression cache from the entry of cluster (i, j): no other
      entry shares its offset. */
  lemma DriverDecompresses(g: Geometry, z: Codec, f: seq<byte>, coff: nat, cdata: seq<byte>, i: nat, j: nat)
    requires WellFormed(g, z, f) && ClusterCacheOk(g, z, f, coff, cdata)
    requires InMap(g, i, j) && ClusterWord(g, f, i, j) >= COMPRESSED
    ensures var w := ClusterWord(g, f, i, j);
            && Expand(g, z, f, w).Some?
            && |Expand(g, z, f, w).value| == g.clusterSize
            && ClusterCacheOk(g, z, f, WordExtent(g, w).off, Expand(g, z, f, w).value)
            && (WordExtent(g, w).off == coff ==> Expand(g, z, f, w) == Some(cdata))
  {
    hide WellFormed, WordExtent, Word, L1Entry;
    ImageBounds(g, z, f);
    ClusterInside(g, z, f, i, j);
    var w := ClusterWord(g, f, i, j);
    forall n: nat, m: nat | InMap(g, n, m) && ClusterWord(g, f, n, m) >= COMPRESSED
                            && WordExtent(g, ClusterWord(g, f, n, m)).off == WordExtent(g, w).off
      ensures n == i && m == j
    {
      ClusterInside(g, z, f, n, m);
      if (n, m) != (i, j) {
        ObjectsApart(g, z, f, Cluster(n, m), Cluster(i, j));
      }
    }
  }

  lemma EntryAddrKeeps(g: Geometry, f: seq<byte>, f': seq<byte>, i: nat, j: nat)
    requires g.L1End() <= |f| && i < g.l1Size && ChangedOnly(f, f', |f|, |f|)
    ensures EntryAddr(g, f', i, j) == EntryAddr(g, f, i, j)
  {
    SliceKeeps(f, f', |f|, |f|, g.l1TableOffset + 8 * i, 8);
  }

  /** A fresh normal cluster, entered in the file and in the cached table. */
  lemma DriverAllocates(g: Geometry, z: Codec, f: seq<byte>, i: nat, j: nat, whole: bool, s: nat,
                        l1: seq<nat>, tags: seq<nat>, counts: seq<nat>, slots: seq<seq<byte>>,
                        coff: nat, cdata: seq<byte>)
    requires DriverOk(g, z, f, l1, tags, counts, slots, coff, cdata)
    requires InMap(g, i, j) && L1Entry(g, f, i) != 0
    requires s < L2_CACHE_SIZE && tags[s] == L1Entry(g, f, i)
    requires ClusterWord(g, f, i, j) == 0 || ClusterWord(g, f, i, j) >= COMPRESSED
    ensures g.clusterSize > 0 && |slots[s]| == 8 * g.l2Size
    ensures var off := RoundUp(|f|, g.clusterSize);
            var f2 := WithCluster(g, z, f, ClusterWord(g, f, i, j), whole);
            var f' := WithEntry(g, f2, i, j, off);
            && EntryAddr(g, f2, i, j) == EntryAddr(g, f, i, j)
            && off == ClusterWord(g, f', i, j)
            && DriverOk(g, z, f', l1, tags, counts, slots[s := SlotWith(slots[s], j, off)], coff, cdata)
  {
    hide WellFormed, DriverSound, ClusterCacheOk, Word, EncodeBE, WithCluster, WithEntry, WordByte, ClusterWord,
         Roomy, Total, Laid;
    SoundFacts(g, f, l1, tags, counts, slots);
    RoomForOne(g, f, i, j);
    ClusterStep(g, z, f, i, j, whole);
    ClusterInside(g, z, f, i, j);
    var f2, off := WithCluster(g, z, f, ClusterWord(g, f, i, j), whole), RoundUp(|f|, g.clusterSize);
    RoomyWithEntry(g, f, WithEntry(g, f2, i, j, off), i, j);
    WithClusterEffect(g, z, f, ClusterWord(g, f, i, j), whole);
    EntryAddrKeeps(g, f, f2, i, j);
    DriverEnters(g, z, f, WithEntry(g, f2, i, j, off), i, j, off, s, l1, tags, counts, slots, coff, cdata);
  }

  /** What holds between reserving a compressed extent and storing its bytes. */
  ghost predicate Reserving(g: Geometry, f: seq<byte>, l1: seq<nat>, tags: seq<nat>, counts: seq<nat>,
                            slots: seq<seq<byte>>)
  {
    L1Ok(g, f, l1) && CacheOk(g, f, tags, counts, slots)
  }

  lemma DriverReserves(g: Geometry, z: Codec, f: seq<byte>, i: nat, j: nat, w: nat, s: nat,
                       l1: seq<nat>, tags: seq<nat>, counts: seq<nat>, slots: seq<seq<byte>>,
                       coff: nat, cdata: seq<byte>)
    requires DriverOk(g, z, f, l1, tags, counts, slots, coff, cdata)
    requires InMap(g, i, j) && L1Entry(g, f, i) != 0 && w < WORD_LIMIT
    requires s < L2_CACHE_SIZE && tags[s] == L1Entry(g, f, i)
    ensures |slots[s]| == 8 * g.l2Size
    ensures var f' := WithEntry(g, f, i, j, w);
            && w == ClusterWord(g, f', i, j)
            && Reserving(g, f', l1, tags, counts, slots[s := SlotWith(slots[s], j, w)])
  {
    hide WellFormed, Laid, ClusterCacheOk, Lossless, Geometry.Opened, Word, WordExtent, EncodeBE, DecodeBE, Roomy,
         Total, Fills, Written, SlotWith, CacheOk, L1Ok;
    ImageBounds(g, z, f);
    var a, f' := EntryAddr(g, f, i, j), WithEntry(g, f, i, j, w);
    TableInside(g, z, f, i);
    WordWriteEffect(f, a, w);
    L1Stays(g, f, f', a, a + 8, l1);
    CacheWritesThrough(g, z, f, f', i, j, w, tags, counts, slots, s);
  }

  lemma L1Stays(g: Geometry, f: seq<byte>, f': seq<byte>, lo: nat, hi: nat, l1: seq<nat>)
    requires g.L1End() <= |f| && ChangedOnly(f, f', lo, hi) && g.L1End() <= lo && L1Ok(g, f, l1)
    ensures L1Ok(g, f', l1)
    ensures forall i :: 0 <= i < g.l1Size ==> L1Entry(g, f', i) == L1Entry(g, f, i)
  {
    hide L1Entry;
    L1Keeps(g, f, f', lo, hi);
  }

  lemma WordOfMissingTable(g: Geometry, f: seq<byte>, i: nat, j: nat)
    requires L1Entry(g, f, i) == 0
    ensures ClusterWord(g, f, i, j) == 0
  {}

  /** The cached copy of a table answers the walk. */
  lemma DriverReadsWord(g: Geometry, f: seq<byte>, i: nat, j: nat, s: nat,
                        l1: seq<nat>, tags: seq<nat>, counts: seq<nat>, slots: seq<seq<byte>>)
    requires DriverSound(g, f, l1, tags, counts, slots)
    requires InMap(g, i, j) && L1Entry(g, f, i) != 0
    requires s < L2_CACHE_SIZE && tags[s] == L1Entry(g, f, i)
    ensures 8 * j + 8 <= |slots[s]|
    ensures DecodeBE(slots[s][8 * j..8 * j + 8]) == ClusterWord(g, f, i, j)
  {
    hide Laid, Roomy, Total, Fills, Geometry.Opened, Word;
    assert SlotOk(g, f, tags[s], slots[s]);
    CachedWord(g, f, i, j, slots[s]);
  }

  /** cluster_cache_offset = -1 is always right. */
  lemma CacheForgets(g: Geometry, z: Codec, f: seq<byte>, cdata: seq<byte>)
    requires WellFormed(g, z, f) && |cdata| == g.clusterSize
    ensures g.clusterSize > 0 && ClusterCacheOk(g, z, f, NO_OFFSET, cdata)
  {
    hide WellFormed, Expand;
    ImageBounds(g, z, f);
    forall i: nat, j: nat | InMap(g, i, j) && ClusterWord(g, f, i, j) >= COMPRESSED
      ensures WordExtent(g, ClusterWord(g, f, i, j)).off != NO_OFFSET
    {
      ClusterInside(g, z, f, i, j);
    }
  }

  /** Storing the stream behind a reserved entry completes the step. */
  lemma DriverStores(g: Geometry, z: Codec, f0: seq<byte>, f: seq<byte>, d: seq<byte>, i: nat, j: nat,
                     content: seq<byte>,
                     l1: seq<nat>, tags: seq<nat>, counts: seq<nat>, slots: seq<seq<byte>>)
    requires g.Opened() && g.Shape() && Fills(g) && InMap(g, i, j)
    requires g.L1End() <= |f| && d != []
    requires Reserving(g, f, l1, tags, counts, slots)
    requires StoredOk(g, z, f0, i, j, content, Written(f, |f|, d))
    ensures DriverSound(g, Written(f, |f|, d), l1, tags, counts, slots)
  {
    hide WellFormed, Laid, Geometry.Opened, Word, Written, WordExtent, Expand, SameContent, ClusterWord, Roomy, Total,
         Fills;
    var f' := Written(f, |f|, d);
    ImageBounds(g, z, f');
    WellFormedIsLaid(g, z, f');
    AppendEffect(f, |f|, d);
    L1Keeps(g, f, f', |f|, |f|);
    forall s: nat | s < L2_CACHE_SIZE
      ensures SlotOk(g, f', tags[s], slots[s])
    {
      assert SlotOk(g, f, tags[s], slots[s]);
      SlotKeeps(g, z, f, f', |f|, |f|, tags[s], slots[s]);
    }
  }

  /** After a stream is stored in an unmapped cluster the decompression cache is
      right exactly when it is not tagged with the stream's offset, or holds the
      new content already. */
  lemma CacheAfterStore(g: Geometry, z: Codec, f: seq<byte>, f': seq<byte>, i: nat, j: nat, content: seq<byte>,
                        coff: nat, cdata: seq<byte>)
    requires WellFormed(g, z, f) && InMap(g, i, j) && ClusterCacheOk(g, z, f, coff, cdata)
    requires StoredOk(g, z, f, i, j, content, f')
    ensures ClusterCacheOk(g, z, f', coff, cdata) <==>
            (WordExtent(g, ClusterWord(g, f', i, j)).off == coff ==> cdata == content)
  {
    hide WellFormed, Word, WordExtent, Expand, SameContent, ClusterWord, Roomy, Total;
    ImageBounds(g, z, f);
    if WordExtent(g, ClusterWord(g, f', i, j)).off != coff {
      ClusterCacheKeeps(g, z, f, f', i, j, coff, cdata);
    } else {
      StoredAlone(g, z, f', i, j, coff);
    }
  }

  /** Only one compressed extent begins at an offset. */
  lemma StoredAlone(g: Geometry, z: Codec, f: seq<byte>, i: nat, j: nat, coff: nat)
    requires WellFormed(g, z, f) && InMap(g, i, j) && ClusterWord(g, f, i, j) >= COMPRESSED
    requires WordExtent(g, ClusterWord(g, f, i, j)).off == coff
    ensures forall n: nat, m: nat :: InMap(g, n, m) && ClusterWord(g, f, n, m) >= COMPRESSED
                                     && WordExtent(g, ClusterWord(g, f, n, m)).off == coff ==>
              n == i && m == j
  {
    hide WellFormed, WordExtent, Word, L1Entry, Expand;
    ImageBounds(g, z, f);
    ClusterInside(g, z, f, i, j);
    forall n: nat, m: nat | InMap(g, n, m) && ClusterWord(g, f, n, m) >= COMPRESSED
                            && WordExtent(g, ClusterWord(g, f, n, m)).off == coff
      ensures n == i && m == j
    {
      ClusterInside(g, z, f, n, m);
      if (n, m) != (i, j) {
        ObjectsApart(g, z, f, Cluster(n, m), Cluster(i, j));
      }
    }
  }

  /** make_empty leaves an image with nothing allocated, and empty L2 caches. The
      decompression cache is right as long as nothing compressed is stored. */
  lemma DriverEmpties(g: Geometry, z: Codec, f: seq<byte>, l1: seq<nat>,
                      tags: seq<nat>, counts: seq<nat>, slots: seq<seq<byte>>, coff: nat, cdata: seq<byte>)
    requires g.Opened() && Lossless(z) && g.Shape() && Fills(g)
    requires |f| == g.L1End() <= COMPRESSED && HoldsAt(f, g.l1TableOffset, Zeros(8 * g.l1Size))
    requires |l1| == g.l1Size && forall i: nat :: i < |l1| ==> l1[i] == 0
    requires |tags| == |counts| == |slots| == L2_CACHE_SIZE && |cdata| == g.clusterSize
    requires forall s: nat :: s < L2_CACHE_SIZE ==> tags[s] == 0 && counts[s] == 0 && |slots[s]| == 8 * g.l2Size
    ensures forall i: nat :: i < g.l1Size ==> L1Entry(g, f, i) == 0
    ensures forall i: nat, j: nat :: InMap(g, i, j) ==> ClusterWord(g, f, i, j) == 0
    ensures DriverOk(g, z, f, l1, tags, counts, slots, coff, cdata)
  {
    hide WellFormed, Laid, Geometry.Opened, Lossless, DecodeBE, Expand, WordExtent, ClusterWord, CacheOk, Roomy,
         Total, Fills;
    ZeroWords(f, g.l1TableOffset, g.l1Size);
    assert forall i: nat :: i < g.l1Size ==> L1Entry(g, f, i) == 0;
    EmptyIsWellFormed(g, z, f);
    WellFormedIsLaid(g, z, f);
    EmptyIsRoomy(g, f);
    FreshCaches(g, z, f, tags, counts, slots, cdata);
  }

  lemma EmptyIsWellFormed(g: Geometry, z: Codec, f: seq<byte>)
    requires g.Shape() && g.L1End() <= |f| <= COMPRESSED
    requires forall i: nat :: i < g.l1Size ==> L1Entry(g, f, i) == 0
    ensures WellFormed(g, z, f)
    ensures forall i: nat, j: nat :: InMap(g, i, j) ==> ClusterWord(g, f, i, j) == 0
  {}
}
