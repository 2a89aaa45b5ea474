/** Compressed writes over a cluster that is already compressed: get_cluster_offset
    keeps the old entry with its old size, and the new stream goes where the old
    one was. */
module QcowRewrite {
  import opened Arith
  import opened Bytes
  import opened HostFile
  import opened QcowMap
  import opened QcowRoom
  import opened QcowAlloc
  import opened QcowCache
  import opened QcowDisk

  /** What is found at e once the bytes d have been written from e.off on. */
  function Restream(f: seq<byte>, e: Extent, d: seq<byte>): (s: seq<byte>)
    requires e.off + e.len <= |f|
    ensures |s| == e.len
  {
    if |d| < e.len then d + f[e.off + |d|..e.off + e.len] else d[..e.len]
  }

  lemma WrittenEffect(f: seq<byte>, off: nat, d: seq<byte>)
    requires d != []
    ensures var f' := Written(f, off, d);
            && |f'| == (if |f| < off + |d| then off + |d| else |f|)
            && ChangedOnly(f, f', off, off + |d|)
            && HoldsAt(f', off, d)
  {}

  /** A write that reaches the beginning of an extent replaces that much of it. */
  lemma StreamAfter(f: seq<byte>, off: nat, d: seq<byte>, e: Extent)
    requires e.off + e.len <= |f|
    requires off <= e.off < off + |d|
    ensures |f| <= |Written(f, off, d)|
    ensures Written(f, off, d)[e.off..e.off + e.len] == Restream(f, e, d[e.off - off..])
  {
    hide Written;
    WrittenEffect(f, off, d);
    var f', s := Written(f, off, d), Restream(f, e, d[e.off - off..]);
    forall p | 0 <= p < e.len
      ensures f'[e.off + p] == s[p]
    {
      if e.off + p < off + |d| {
        assert f'[off..off + |d|][e.off + p - off] == f'[e.off + p];
      }
    }
    assert f'[e.off..e.off + e.len] == s;
  }

  /** A stream stored over another one, so long as it hits no table: the map stays,
      and so does the content of every cluster it does not hit. */
  lemma RewriteStep(g: Geometry, z: Codec, f: seq<byte>, off: nat, d: seq<byte>)
    requires Laid(g, f) && d != [] && off + |d| <= COMPRESSED
    requires SparesTables(g, f, Extent(off, |d|))
    ensures var f' := Written(f, off, d);
            && Laid(g, f') && |f| <= |f'|
            && HeaderKeeps(g, f, f')
            && (forall n :: 0 <= n < g.l1Size ==> L1Entry(g, f', n) == L1Entry(g, f, n))
            && (forall n: nat, m: nat :: InMap(g, n, m) ==> ClusterWord(g, f', n, m) == ClusterWord(g, f, n, m))
            && (forall n: nat, m: nat ::
                  && InMap(g, n, m) && Expands(g, z, f, ClusterWord(g, f, n, m))
                  && Apart(WordExtent(g, ClusterWord(g, f, n, m)), Extent(off, |d|)) ==>
                    && Expands(g, z, f', ClusterWord(g, f, n, m))
                    && SameContent(g, z, f, f', ClusterWord(g, f, n, m)))
  {
    hide Laid, ClusterWord, SameContent, L1Entry, Expands, Written, WordExtent;
    LaidBounds(g, f);
    WrittenEffect(f, off, d);
    var f' := Written(f, off, d);
    SparedTables(g, f, f', off, off + |d|);
    ChangeKeepsHeader(g, f, f', off, off + |d|);
    forall n: nat, m: nat |
      && InMap(g, n, m) && Expands(g, z, f, ClusterWord(g, f, n, m))
      && Apart(WordExtent(g, ClusterWord(g, f, n, m)), Extent(off, |d|))
      ensures Expands(g, z, f', ClusterWord(g, f, n, m))
      ensures SameContent(g, z, f, f', ClusterWord(g, f, n, m))
    {
      LaidCluster(g, f, n, m);
      ContentKeeps(g, z, f, f', off, off + |d|, ClusterWord(g, f, n, m));
    }
  }

  /** The L1 table and the L2 cache stay right. */
  lemma RewriteKeepsCaches(g: Geometry, z: Codec, f: seq<byte>, off: nat, d: seq<byte>, l1: seq<nat>,
                           tags: seq<nat>, counts: seq<nat>, slots: seq<seq<byte>>)
    requires DriverSound(g, f, l1, tags, counts, slots) && d != [] && off + |d| <= COMPRESSED
    requires SparesTables(g, f, Extent(off, |d|))
    requires Roomy(g, Written(f, off, d))
    ensures DriverSound(g, Written(f, off, d), l1, tags, counts, slots)
  {
    hide Laid, ClusterWord, SameContent, L1Entry, Expands, Written, WordExtent, Roomy, Total, Fills, Geometry.Opened;
    LaidBounds(g, f);
    WrittenEffect(f, off, d);
    RewriteStep(g, z, f, off, d);
    forall n: nat | n < g.l1Size && L1Entry(g, f, n) != 0
      ensures L1Entry(g, f, n) + 8 * g.l2Size <= off || off + |d| <= L1Entry(g, f, n)
    {
      assert Apart(ExtentOf(g, f, L2Table(n)), Extent(off, |d|));
    }
    CacheKeeps(g, z, f, Written(f, off, d), off, off + |d|, tags, counts, slots);
  }

  /** A stream no longer than the old one hits nothing else. */
  lemma ShortStreamSpares(g: Geometry, f: seq<byte>, i: nat, j: nat, n: nat)
    requires Laid(g, f) && InMap(g, i, j) && ClusterWord(g, f, i, j) >= COMPRESSED
    requires 0 < n <= WordExtent(g, ClusterWord(g, f, i, j)).len
    ensures var e := Extent(WordExtent(g, ClusterWord(g, f, i, j)).off, n);
            && e.off + n <= |f| && SparesTables(g, f, e)
            && forall n: nat, m: nat :: InMap(g, n, m) && (n, m) != (i, j) ==>
                 Apart(WordExtent(g, ClusterWord(g, f, n, m)), e)
  {
    hide Laid, ClusterWord, L1Entry, WordExtent;
    LaidBounds(g, f);
    var e := WordExtent(g, ClusterWord(g, f, i, j));
    ClusterSpares(g, f, i, j, e.off, e.off + n);
  }

  lemma InflateFacts(z: Codec, b: seq<byte>, n: nat)
    requires Lossless(z)
    ensures Inflate(z, b, n).Some? ==> |Inflate(z, b, n).value| == n
    ensures n > 0 ==> Inflate(z, [], n).None? && Partial(z, [], n) == []
    ensures |Partial(z, b, n)| <= n
  {
    hide Deflate;
  }

  /** An entry that inflates has its stream inside the file. */
  lemma StreamInside(g: Geometry, z: Codec, f: seq<byte>, w: nat)
    requires Lossless(z) && g.clusterSize > 0 && Expand(g, z, f, w).Some?
    ensures WordExtent(g, w).off < |f|
  {
    hide WordExtent, Lossless;
    var e := WordExtent(g, w);
    NothingAt(f, e);
    InflateFacts(z, [], g.clusterSize);
  }

  lemma NothingAt(f: seq<byte>, e: Extent)
    requires e.off + e.len <= |f|
    ensures e.len == 0 ==> f[e.off..e.off + e.len] == []
  {}

  lemma ExpandsSized(g: Geometry, z: Codec, f: seq<byte>, w: nat)
    requires Lossless(z) && g.clusterSize > 0
    ensures Expand(g, z, f, w).Some? ==> |Expand(g, z, f, w).value| == g.clusterSize
  {
    hide WordExtent, Lossless;
    var e := WordExtent(g, w);
    if e.off + e.len <= |f| {
      InflateFacts(z, f[e.off..e.off + e.len], g.clusterSize);
    }
  }

  lemma NothingLeft(g: Geometry, z: Codec, f: seq<byte>, w: nat)
    requires g.clusterSize > 0
    ensures WordExtent(g, w).off + WordExtent(g, w).len > |f| ==> Leftover(g, z, f, w) == []
  {}

  lemma StoredFacts(g: Geometry, z: Codec, f: seq<byte>, i: nat, j: nat, content: seq<byte>, f': seq<byte>)
    requires g.clusterSize > 0 && StoredOk(g, z, f, i, j, content, f')
    ensures |f| <= |f'| && HeaderKeeps(g, f, f') && Total(g, f') <= Total(g, f)
    ensures Expand(g, z, f', ClusterWord(g, f', i, j)) == Some(content)
  {
    hide WellFormed, Total, ClusterWord, WordExtent, Expand;
  }

  /** The bytes that decompress_cluster reads inflate to what the entry denotes. */
  lemma StreamInflates(g: Geometry, z: Codec, f: seq<byte>, w: nat, stream: seq<byte>)
    requires Lossless(z) && g.clusterSize > 0 && |stream| == WordExtent(g, w).len
    requires var e := WordExtent(g, w); stream == if e.off + e.len <= |f| then f[e.off..e.off + e.len] else []
    ensures Inflate(z, stream, g.clusterSize) == Expand(g, z, f, w)
    ensures Partial(z, stream, g.clusterSize) == Leftover(g, z, f, w)
  {
    hide WordExtent, Lossless;
    InflateFacts(z, stream, g.clusterSize);
    InflateFacts(z, [], g.clusterSize);
  }

  /** What the short rewrite does to the cluster itself and to all others. */
  lemma ShortRewrite(g: Geometry, z: Codec, f: seq<byte>, i: nat, j: nat, d: seq<byte>)
    requires WellFormed(g, z, f) && Lossless(z) && InMap(g, i, j) && ClusterWord(g, f, i, j) >= COMPRESSED
    requires 0 < |d| <= WordExtent(g, ClusterWord(g, f, i, j)).len
    ensures var w := ClusterWord(g, f, i, j);
            var e := WordExtent(g, w);
            var f' := Written(f, e.off, d);
            && g.Shape() && e.off + e.len <= |f| == |f'|
            && Expand(g, z, f', w) == Inflate(z, Restream(f, e, d), g.clusterSize)
            && (forall n: nat, m: nat :: InMap(g, n, m) ==> ClusterWord(g, f', n, m) == ClusterWord(g, f, n, m))
            && (forall n: nat, m: nat :: InMap(g, n, m) && (n, m) != (i, j) ==>
                  SameContent(g, z, f, f', ClusterWord(g, f, n, m)))
            && (WellFormed(g, z, f') <==> Expand(g, z, f', w).Some?)
  {
    hide Laid, ClusterWord, SameContent, L1Entry, Written, Lossless, SparesTables, Restream;
    LaidBounds(g, f);
    var w := ClusterWord(g, f, i, j);
    var e := WordExtent(g, w);
    LaidCluster(g, f, i, j);
    ShortStreamSpares(g, f, i, j, |d|);
    WrittenEffect(f, e.off, d);
    RewriteStep(g, z, f, e.off, d);
    StreamAfter(f, e.off, d, e);
    var f' := Written(f, e.off, d);
    assert d[0..] == d;
    ExpandsSized(g, z, f', w);
    OnlyThisOne(g, z, f, f', i, j);
  }

  lemma OnlyThisOne(g: Geometry, z: Codec, f: seq<byte>, f': seq<byte>, i: nat, j: nat)
    requires g.clusterSize > 0 && Laid(g, f') && InMap(g, i, j)
    requires forall n: nat, m: nat :: InMap(g, n, m) ==> ClusterWord(g, f', n, m) == ClusterWord(g, f, n, m)
    requires forall n: nat, m: nat :: InMap(g, n, m) && (n, m) != (i, j) ==> Expands(g, z, f', ClusterWord(g, f, n, m))
    ensures WellFormed(g, z, f') <==> Expands(g, z, f', ClusterWord(g, f, i, j))
  {
    hide Laid, ClusterWord, Expands;
  }

  /** After a short rewrite the decompression cache is right exactly when it is not
      tagged with this stream, or holds what the new bytes inflate to. */
  lemma ShortRewriteCache(g: Geometry, z: Codec, f: seq<byte>, i: nat, j: nat, d: seq<byte>, coff: nat,
                          cdata: seq<byte>)
    requires WellFormed(g, z, f) && Lossless(z) && InMap(g, i, j) && ClusterWord(g, f, i, j) >= COMPRESSED
    requires 0 < |d| <= WordExtent(g, ClusterWord(g, f, i, j)).len
    requires ClusterCacheOk(g, z, f, coff, cdata)
    requires WellFormed(g, z, Written(f, WordExtent(g, ClusterWord(g, f, i, j)).off, d))
    ensures var w := ClusterWord(g, f, i, j);
            var f' := Written(f, WordExtent(g, w).off, d);
            ClusterCacheOk(g, z, f', coff, cdata) <==>
            (WordExtent(g, w).off == coff ==> Expand(g, z, f', w) == Some(cdata))
  {
    hide WellFormed, ClusterWord, SameContent, L1Entry, Written, Lossless, SparesTables, Restream, WordExtent, Expand;
    ImageBounds(g, z, f);
    var w := ClusterWord(g, f, i, j);
    var f' := Written(f, WordExtent(g, w).off, d);
    ShortRewrite(g, z, f, i, j, d);
    if WordExtent(g, w).off != coff {
      ClusterCacheKeeps(g, z, f, f', i, j, coff, cdata);
    } else {
      StoredAlone(g, z, f', i, j, coff);
    }
  }

  /** The guest's view after a short rewrite is the flat one exactly when the new
      stream and what is left of the old one inflate to what was written. */
  lemma ShortRewriteView(g: Geometry, z: Codec, base: Option<seq<byte>>, f: seq<byte>, k0: nat, d: seq<byte>,
                         buf: seq<byte>)
    requires WellFormed(g, z, f) && Lossless(z) && Addressable(g, k0) && WordAt(g, f, k0) >= COMPRESSED
    requires 0 < |d| <= WordExtent(g, WordAt(g, f, k0)).len
    requires ClusterStart(g, k0) == k0 && |buf| == g.clusterSize && k0 + g.clusterSize <= Capacity(g)
    ensures var w := WordAt(g, f, k0);
            var f' := Written(f, WordExtent(g, w).off, d);
            && g.Shape()
            && (WellFormed(g, z, f') && Disk(g, z, base, f') == Overlay(Disk(g, z, base, f), k0, buf) <==>
                Expand(g, z, f', w) == Some(buf))
  {
    hide WellFormed, ClusterWord, SameContent, L1Entry, Written, Lossless, SparesTables, Restream, WordExtent, Expand,
         Capacity, ClusterStart, L1Index, L2Index;
    ImageBounds(g, z, f);
    SplitInjective(g, k0);
    ShortRewrite(g, z, f, L1Index(g, k0), L2Index(g, k0), d);
    var w := WordAt(g, f, k0);
    var f' := Written(f, WordExtent(g, w).off, d);
    var e := Expand(g, z, f', w);
    ExpandsSized(g, z, f', w);
    if e.Some? {
      OneClusterView(g, z, base, f, f', k0, e.value);
      OverlayExactly(Disk(g, z, base, f), k0, e.value, buf);
      assert e.value + [] == e.value;
    }
  }

  /** If all other clusters keep their entries and bytes, the view changes in one cluster. */
  lemma OneClusterView(g: Geometry, z: Codec, base: Option<seq<byte>>, f: seq<byte>, f': seq<byte>, k0: nat,
                       c: seq<byte>)
    requires g.Shape() && Addressable(g, k0) && WordAt(g, f, k0) >= COMPRESSED
    requires ClusterStart(g, k0) == k0 && k0 + g.clusterSize <= Capacity(g)
    requires |c| == g.clusterSize && Expand(g, z, f', WordAt(g, f, k0)) == Some(c)
    requires forall n: nat, m: nat :: InMap(g, n, m) ==> ClusterWord(g, f', n, m) == ClusterWord(g, f, n, m)
    requires forall n: nat, m: nat :: InMap(g, n, m) && (n, m) != (L1Index(g, k0), L2Index(g, k0)) ==>
               SameContent(g, z, f, f', ClusterWord(g, f, n, m))
    ensures Disk(g, z, base, f') == Overlay(Disk(g, z, base, f), k0, c)
  {
    hide ClusterWord, WordExtent, Expand, Capacity, ClusterStart, L1Index, L2Index, SameContent;
    var d, d' := Disk(g, z, base, f), Disk(g, z, base, f');
    forall k: nat | k < Capacity(g)
      ensures d'[k] == if k0 <= k < k0 + |c| then c[k - k0] else d[k]
    {
      CapacityBound(g, k);
      SplitInjective(g, k);
      SameCluster(g, k0, k);
      SameCluster(g, k, k);
      var n, m := L1Index(g, k), L2Index(g, k);
      assert InMap(g, n, m);
      if !(k0 <= k < k0 + |c|) {
        SameByte(g, z, base, f, f', ClusterWord(g, f, n, m), k - ClusterStart(g, k), k);
      }
    }
  }

  lemma SameByte(g: Geometry, z: Codec, base: Option<seq<byte>>, f: seq<byte>, f': seq<byte>, w: nat, r: nat, k: nat)
    requires g.clusterSize > 0 && r < g.clusterSize && SameContent(g, z, f, f', w)
    ensures WordByte(g, z, base, f', w, r, k) == WordByte(g, z, base, f, w, r, k)
  {
    hide WordByte;
  }

  /** The new content is what the guest reads, from the file and through the cache,
      exactly when the new stream with the old tail inflates to it, and the cache does
      not still hold something else for this stream. */
  lemma CompressedOverCompressed(g: Geometry, z: Codec, base: Option<seq<byte>>, f: seq<byte>, k0: nat, d: seq<byte>,
                                 buf: seq<byte>, coff: nat, cdata: seq<byte>)
    requires WellFormed(g, z, f) && Lossless(z) && Addressable(g, k0) && WordAt(g, f, k0) >= COMPRESSED
    requires 0 < |d| <= WordExtent(g, WordAt(g, f, k0)).len
    requires ClusterStart(g, k0) == k0 && |buf| == g.clusterSize && k0 + g.clusterSize <= Capacity(g)
    requires ClusterCacheOk(g, z, f, coff, cdata)
    ensures var e := WordExtent(g, WordAt(g, f, k0));
            var f' := Written(f, e.off, d);
            && g.Shape() && e.off + e.len <= |f|
            && (WellFormed(g, z, f') && ClusterCacheOk(g, z, f', coff, cdata)
                && Disk(g, z, base, f') == Overlay(Disk(g, z, base, f), k0, buf) <==>
                Inflate(z, Restream(f, e, d), g.clusterSize) == Some(buf) && (e.off == coff ==> cdata == buf))
  {
    hide WellFormed, ClusterWord, L1Entry, Written, Lossless, Restream, WordExtent, Expand, SameContent, Capacity,
         ClusterStart, L1Index, L2Index, Disk, ClusterCacheOk, Overlay;
    ImageBounds(g, z, f);
    SplitInjective(g, k0);
    var i, j := L1Index(g, k0), L2Index(g, k0);
    ShortRewrite(g, z, f, i, j, d);
    ShortRewriteView(g, z, base, f, k0, d, buf);
    if WellFormed(g, z, Written(f, WordExtent(g, ClusterWord(g, f, i, j)).off, d)) {
      ShortRewriteCache(g, z, f, i, j, d, coff, cdata);
    }
  }

  // ------------------------------------------------------------ a stream longer than the old one

  /** A cluster stored in the way of a longer stream now shows the stream's bytes if
      it is a normal one, and inflates what is left of its own if it is compressed. */
  lemma LongStreamDamages(g: Geometry, z: Codec, base: Option<seq<byte>>, f: seq<byte>, off: nat, d: seq<byte>,
                          n: nat, m: nat, r: nat, k: nat)
    requires Laid(g, f) && InMap(g, n, m) && off + |d| <= COMPRESSED
    requires SparesTables(g, f, Extent(off, |d|))
    requires ClusterWord(g, f, n, m) != 0 && r < g.clusterSize
    requires off <= WordExtent(g, ClusterWord(g, f, n, m)).off < off + |d|
    requires WordExtent(g, ClusterWord(g, f, n, m)).len > 0
    ensures var w, f' := ClusterWord(g, f, n, m), Written(f, off, d);
            var e := WordExtent(g, w);
            && ClusterWord(g, f', n, m) == w && e.off + e.len <= |f|
            && (w < COMPRESSED && w + r < off + |d| ==> WordByte(g, z, base, f', w, r, k) == d[w + r - off])
            && (w >= COMPRESSED ==>
                  Expand(g, z, f', w) == Inflate(z, Restream(f, e, d[e.off - off..]), g.clusterSize))
  {
    hide Laid, ClusterWord, SameContent, L1Entry, Expands, Written, SparesTables, Restream;
    var w, f' := ClusterWord(g, f, n, m), Written(f, off, d);
    LaidBounds(g, f);
    LaidCluster(g, f, n, m);
    WrittenEffect(f, off, d);
    RewriteStep(g, z, f, off, d);
    StreamAfter(f, off, d, WordExtent(g, w));
    if w < COMPRESSED && w + r < off + |d| {
      assert f'[off..off + |d|][w + r - off] == f'[w + r];
    }
  }

  // ------------------------------------------------------------ what the driver needs to know

  /** A normal entry below the limit of compressed offsets passes the mask unchanged. */
  lemma NormalOffset(g: Geometry, w: nat)
    requires g.Opened() && w < g.Limit()
    ensures EntryOffset(g, w) == w
  {
    hide BitAnd, Pow2;
    BitAndMask(w, 63 - g.clusterBits);
    SmallMod(w, Pow2(63 - g.clusterBits));
  }

  /** A raw stream over a normal cluster leaves the driver's memory right. */
  lemma OverNormalKeeps(g: Geometry, z: Codec, f: seq<byte>, i: nat, j: nat, d: seq<byte>, coff: nat, cdata: seq<byte>)
    requires WellFormed(g, z, f) && Roomy(g, f) && ClusterCacheOk(g, z, f, coff, cdata)
    requires InMap(g, i, j) && 0 < ClusterWord(g, f, i, j) < COMPRESSED && 0 < |d| < g.clusterSize
    ensures var w := ClusterWord(g, f, i, j);
            var f' := Written(f, w, d);
            && g.clusterSize > 0 && SparesTables(g, f, Extent(w, |d|))
            && WellFormed(g, z, f') && Roomy(g, f') && ClusterCacheOk(g, z, f', coff, cdata)
  {
    hide WellFormed, Laid, ClusterWord, L1Entry, Written, SameContent, Expand, SparesTables, Roomy, Total,
         ClusterCacheOk;
    ImageBounds(g, z, f);
    WellFormedIsLaid(g, z, f);
    var w := ClusterWord(g, f, i, j);
    ClusterSpares(g, f, i, j, w, w + |d|);
    WrittenEffect(f, w, d);
    DataWriteStep(g, z, f, Written(f, w, d), i, j, w, w + |d|);
    RoomySame(g, f, Written(f, w, d));
    ClusterCacheKeeps(g, z, f, Written(f, w, d), i, j, coff, cdata);
  }

  /** A short stream over a compressed cluster leaves everything but that cluster. */
  lemma ShortStreamKeeps(g: Geometry, z: Codec, base: Option<seq<byte>>, f: seq<byte>, k0: nat, d: seq<byte>)
    requires WellFormed(g, z, f) && Roomy(g, f) && Lossless(z)
    requires Addressable(g, k0) && WordAt(g, f, k0) >= COMPRESSED
    requires 0 < |d| <= WordExtent(g, WordAt(g, f, k0)).len
    ensures var off := WordExtent(g, WordAt(g, f, k0)).off;
            var f' := Written(f, off, d);
            && g.Shape() && SparesTables(g, f, Extent(off, |d|)) && Roomy(g, f')
            && (forall k: nat ::
                  k < Capacity(g) && !(ClusterStart(g, k0) <= k < ClusterStart(g, k0) + g.clusterSize) ==>
                  Disk(g, z, base, f')[k] == Disk(g, z, base, f)[k])
  {
    hide WellFormed, Laid, ClusterWord, L1Entry, Written, SameContent, Expand, SparesTables, Roomy, Total, WordExtent,
         Restream, L1Index, L2Index, ClusterStart, Capacity, Lossless;
    ImageBounds(g, z, f);
    WellFormedIsLaid(g, z, f);
    SplitInjective(g, k0);
    var i, j := L1Index(g, k0), L2Index(g, k0);
    var off := WordExtent(g, WordAt(g, f, k0)).off;
    var f' := Written(f, off, d);
    ShortStreamSpares(g, f, i, j, |d|);
    ShortRewrite(g, z, f, i, j, d);
    RewriteStep(g, z, f, off, d);
    RoomySame(g, f, f');
    forall k: nat | k < Capacity(g) && !(ClusterStart(g, k0) <= k < ClusterStart(g, k0) + g.clusterSize)
      ensures Disk(g, z, base, f')[k] == Disk(g, z, base, f)[k]
    {
      CapacityBound(g, k);
      SplitInjective(g, k);
      SameCluster(g, k0, k);
      SameCluster(g, k, k);
      var n, m := L1Index(g, k), L2Index(g, k);
      assert InMap(g, n, m);
      SameByte(g, z, base, f, f', ClusterWord(g, f, n, m), k - ClusterStart(g, k), k);
    }
  }

  // ------------------------------------------------------------ the three cases of a stored stream

  /** The cluster of guest byte k is a whole cluster of the disk. */
  predicate WholeCluster(g: Geometry, k: nat)
    requires g.Shape()
  {
    Addressable(g, k) && ClusterStart(g, k) + g.clusterSize <= Capacity(g)
  }

  lemma StoredInNew(g: Geometry, z: Codec, base: Option<seq<byte>>, f: seq<byte>, f': seq<byte>, k: nat,
                    buf: seq<byte>, coff: nat, cdata: seq<byte>)
    requires WellFormed(g, z, f) && ClusterCacheOk(g, z, f, coff, cdata)
    requires WholeCluster(g, k) && |buf| == g.clusterSize
    requires StoredOk(g, z, f, L1Index(g, k), L2Index(g, k), buf, f')
    ensures g.Shape() && WellFormed(g, z, f')
    ensures Disk(g, z, base, f') == Overlay(Disk(g, z, base, f), ClusterStart(g, k), buf)
    ensures WordAt(g, f', k) >= COMPRESSED && Expand(g, z, f', WordAt(g, f', k)) == Some(buf)
    ensures ClusterCacheOk(g, z, f', coff, cdata) <==> (WordExtent(g, WordAt(g, f', k)).off == coff ==> cdata == buf)
  {
    hide WellFormed, ClusterWord, L1Index, L2Index, Capacity, WordExtent, Expand, Roomy, Total, ClusterCacheOk, Disk,
         Overlay, ClusterStart, SameContent;
    ImageBounds(g, z, f);
    SplitInjective(g, k);
    StoredIsFlat(g, z, base, f, f', k, buf);
    CacheAfterStore(g, z, f, f', L1Index(g, k), L2Index(g, k), buf, coff, cdata);
  }

  lemma StoredOverNormal(g: Geometry, z: Codec, base: Option<seq<byte>>, f: seq<byte>, k: nat, d: seq<byte>,
                         buf: seq<byte>, coff: nat, cdata: seq<byte>)
    requires WellFormed(g, z, f) && Roomy(g, f) && g.Opened() && ClusterCacheOk(g, z, f, coff, cdata)
    requires WholeCluster(g, k) && 0 < |d| < g.clusterSize == |buf|
    requires 0 < WordAt(g, f, k) < g.Limit()
    ensures var f', k0, v := Written(f, EntryOffset(g, WordAt(g, f, k)), d), ClusterStart(g, k), Disk(g, z, base, f);
            && g.Shape() && WellFormed(g, z, f') && Roomy(g, f') && ClusterCacheOk(g, z, f', coff, cdata)
            && SparesTables(g, f, Extent(EntryOffset(g, WordAt(g, f, k)), |d|))
            && Disk(g, z, base, f') == Overlay(v, k0, d)
            && (Disk(g, z, base, f') == Overlay(v, k0, buf) <==>
                d + Piece(v, k0 + |d|, g.clusterSize - |d|) == buf)
  {
    hide WellFormed, Geometry.Opened, ClusterWord, L1Index, L2Index, Capacity, WordExtent, Expand, Roomy, Total,
         ClusterCacheOk, Disk, Overlay, ClusterStart, SparesTables, Piece, EntryOffset, Written;
    ImageBounds(g, z, f);
    SplitInjective(g, k);
    var k0 := ClusterStart(g, k);
    SameCluster(g, k, k0);
    NormalOffset(g, WordAt(g, f, k));
    OverNormalKeeps(g, z, f, L1Index(g, k), L2Index(g, k), d, coff, cdata);
    CompressedOverNormal(g, z, base, f, k0, d, buf);
  }

  lemma StoredOverShort(g: Geometry, z: Codec, base: Option<seq<byte>>, f: seq<byte>, k: nat, d: seq<byte>,
                        buf: seq<byte>, coff: nat, cdata: seq<byte>)
    requires WellFormed(g, z, f) && Roomy(g, f) && Lossless(z) && ClusterCacheOk(g, z, f, coff, cdata)
    requires WholeCluster(g, k) && |buf| == g.clusterSize
    requires WordAt(g, f, k) >= COMPRESSED && 0 < |d| <= WordExtent(g, WordAt(g, f, k)).len
    ensures var w, k0 := WordAt(g, f, k), ClusterStart(g, k);
            var e := WordExtent(g, w);
            var f' := Written(f, e.off, d);
            && g.Shape() && e.off + e.len <= |f| && SparesTables(g, f, Extent(e.off, |d|)) && Roomy(g, f')
            && WordAt(g, f', k) == w
            && Expand(g, z, f', w) == Inflate(z, Restream(f, e, d), g.clusterSize)
            && (WellFormed(g, z, f') && ClusterCacheOk(g, z, f', coff, cdata)
                && Disk(g, z, base, f') == Overlay(Disk(g, z, base, f), k0, buf) <==>
                Inflate(z, Restream(f, e, d), g.clusterSize) == Some(buf) && (e.off == coff ==> cdata == buf))
            && (forall p: nat :: p < Capacity(g) && !(k0 <= p < k0 + g.clusterSize) ==>
                  Disk(g, z, base, f')[p] == Disk(g, z, base, f)[p])
  {
    hide WellFormed, ClusterWord, L1Index, L2Index, Capacity, WordExtent, Expand, Roomy, Total, ClusterCacheOk, Disk,
         Overlay, ClusterStart, SparesTables, Restream, Written, Lossless, Inflate, SameContent;
    ImageBounds(g, z, f);
    SplitInjective(g, k);
    var k0 := ClusterStart(g, k);
    SameCluster(g, k, k0);
    SameCluster(g, k0, k0);
    ShortStreamKeeps(g, z, base, f, k0, d);
    ShortRewrite(g, z, f, L1Index(g, k), L2Index(g, k), d);
    CompressedOverCompressed(g, z, base, f, k0, d, buf, coff, cdata);
  }

  /** A stream of any length over a compressed cluster, so long as it hits no table: what
      the cluster denotes, and that clusters it does not hit stay. */
  lemma StoredOverAny(g: Geometry, z: Codec, f: seq<byte>, k: nat, d: seq<byte>)
    requires WellFormed(g, z, f) && Addressable(g, k) && WordAt(g, f, k) >= COMPRESSED && d != []
    requires SparesTables(g, f, Extent(WordExtent(g, WordAt(g, f, k)).off, |d|))
    requires WordExtent(g, WordAt(g, f, k)).off + |d| <= COMPRESSED
    ensures var w := WordAt(g, f, k);
            var e := WordExtent(g, w);
            var f' := Written(f, e.off, d);
            && g.Shape() && e.off + e.len <= |f| <= |f'| && HeaderKeeps(g, f, f')
            && WordAt(g, f', k) == w
            && Expand(g, z, f', w) == Inflate(z, Restream(f, e, d), g.clusterSize)
            && OthersKeep(g, z, f, f', Extent(e.off, |d|))
  {
    hide WellFormed, Laid, ClusterWord, L1Entry, WordExtent, Written, SparesTables, SameContent, Restream, L1Index,
         L2Index, Expands;
    ImageBounds(g, z, f);
    SplitInjective(g, k);
    WellFormedIsLaid(g, z, f);
    var i, j := L1Index(g, k), L2Index(g, k);
    var w := ClusterWord(g, f, i, j);
    var e := WordExtent(g, w);
    ClusterInside(g, z, f, i, j);
    StreamHasLength(g, z, f, w);
    RewriteStep(g, z, f, e.off, d);
    WrittenEffect(f, e.off, d);
    StreamAfter(f, e.off, d, e);
    assert d[0..] == d;
    forall n: nat, m: nat | InMap(g, n, m)
      ensures Expands(g, z, f, ClusterWord(g, f, n, m))
    {
      ClusterInside(g, z, f, n, m);
    }
  }

  /** Every cluster whose data lie apart from e keeps its entry and its content. */
  ghost predicate OthersKeep(g: Geometry, z: Codec, f: seq<byte>, f': seq<byte>, e: Extent)
    requires g.clusterSize > 0
  {
    forall n: nat, m: nat :: InMap(g, n, m) && Apart(WordExtent(g, ClusterWord(g, f, n, m)), e) ==>
      ClusterWord(g, f', n, m) == ClusterWord(g, f, n, m) && SameContent(g, z, f, f', ClusterWord(g, f, n, m))
  }

  lemma StreamHasLength(g: Geometry, z: Codec, f: seq<byte>, w: nat)
    requires g.clusterSize > 0 && w >= COMPRESSED && Expands(g, z, f, w)
    ensures WordExtent(g, w).len > 0 && WordExtent(g, w).off + WordExtent(g, w).len <= |f|
  {}

  /** There is room for a stream in every unmapped cluster. */
  lemma StreamFits(g: Geometry, z: Codec, f: seq<byte>, k: nat)
    requires WellFormed(g, z, f) && Roomy(g, f) && Total(g, f) <= g.Limit()
    requires Addressable(g, k) && WordAt(g, f, k) == 0
    ensures |WithTable(g, f, L1Index(g, k))| < g.Limit()
  {
    hide WellFormed, Roomy, Total, WithTable, L1Index, L2Index, SameContent, ClusterWord;
    ImageBounds(g, z, f);
    SplitInjective(g, k);
    WithTableStep(g, z, f, L1Index(g, k));
    RoomForOne(g, WithTable(g, f, L1Index(g, k)), L1Index(g, k), L2Index(g, k));
  }
}
