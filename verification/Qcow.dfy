/** The QCOW driver itself: the mutable state of BDRVQcowState and the methods
    that keep it in step with the image file. */
module Qcow {
  import opened Arith
  import opened Bytes
  import opened HostFile
  import opened QcowMap
  import opened QcowRoom
  import opened QcowAlloc
  import opened QcowCache
  import opened QcowDisk
  import opened QcowRewrite

  const EINVAL: int := 22

  /** memcpy into a caller's buffer. */
  method Memcpy(dst: array<byte>, at: nat, src: seq<byte>)
    requires at + |src| <= dst.Length
    modifies dst
    ensures dst[..] == Overlay(old(dst[..]), at, src)
  {
    forall p | 0 <= p < |src| {
      dst[at + p] := src[p];
    }
  }

  class Qcow {
    const g: Geometry
    const z: Codec
    /** The content of bs->backing_hd, if there is one. */
    const base: Option<seq<byte>>
    const hd: HostFile
    const l1Table: array<nat>
    const l2Cache: array<seq<byte>>
    const l2CacheOffsets: array<nat>
    const l2CacheCounts: array<nat>
    const clusterCache: array<byte>
    var clusterCacheOffset: nat

    /** qcow_open after the header has been read: the L1 table is loaded, the
        caches are empty. */
    constructor (hd: HostFile, g: Geometry, z: Codec, base: Option<seq<byte>>)
      requires g.Opened() && Lossless(z) && WellFormed(g, z, hd.data)
      requires Fills(g) && Roomy(g, hd.data)
      ensures Valid()
      ensures this.g == g && this.z == z && this.base == base && this.hd == hd
      ensures clusterCacheOffset == NO_OFFSET
      ensures fresh(Repr() - {hd})
    {
      hide WellFormed, Geometry.Opened, Lossless, Word, ClusterCacheOk, SlotOk, WordExtent, Fills, Roomy, Total;
      this.hd, this.g, this.z, this.base := hd, g, z, base;
      l1Table := new nat[g.l1Size](i requires 0 <= i reads hd => L1Entry(g, hd.data, i));
      l2Cache := new seq<byte>[L2_CACHE_SIZE](_ => Zeros(8 * g.l2Size));
      l2CacheOffsets := new nat[L2_CACHE_SIZE](_ => 0);
      l2CacheCounts := new nat[L2_CACHE_SIZE](_ => 0);
      clusterCache := new byte[g.clusterSize](_ => 0);
      clusterCacheOffset := NO_OFFSET;
      new;
      ImageBounds(g, z, hd.data);
      WellFormedIsLaid(g, z, hd.data);
      FreshCaches(g, z, hd.data, l2CacheOffsets[..], l2CacheCounts[..], l2Cache[..], clusterCache[..]);
    }

    ghost function Repr(): set<object>
    {
      {this, hd, l1Table, l2Cache, l2CacheOffsets, l2CacheCounts, clusterCache}
    }

    ghost predicate Distinct()
    {
      && l1Table != l2CacheOffsets && l1Table != l2CacheCounts && l2CacheOffsets != l2CacheCounts
      && (clusterCache as object) !in {l1Table as object, l2CacheOffsets, l2CacheCounts, l2Cache}
      && (l2Cache as object) !in {l1Table as object, l2CacheOffsets, l2CacheCounts}
    }

    /** Everything but the decompression cache, and the streams, can be relied on. */
    ghost predicate Sound()
      reads Repr()
    {
      && Distinct()
      && g.Shape() && Lossless(z)
      && clusterCache.Length == g.clusterSize
      && DriverSound(g, hd.data, l1Table[..], l2CacheOffsets[..], l2CacheCounts[..], l2Cache[..])
    }

    /** All of it can: every stream inflates, and the decompression cache is right. */
    ghost predicate Valid()
      reads Repr()
    {
      && Sound()
      && WellFormed(g, z, hd.data)
      && ClusterCacheOk(g, z, hd.data, clusterCacheOffset, clusterCache[..])
    }

    /** The tag of the decompression cache is no offset that a later stream could get.
        Only qcow_make_empty, which cuts the file, can break this. */
    ghost predicate Behind()
      reads this, hd
    {
      clusterCacheOffset == NO_OFFSET || clusterCacheOffset < |hd.data|
    }

    lemma Facts()
      requires Sound()
      ensures g.Opened() && g.Shape() && Fills(g) && Roomy(g, hd.data) && Lossless(z)
      ensures Laid(g, hd.data) && 0 < g.L1End() <= |hd.data| <= COMPRESSED
      ensures l1Table.Length == g.l1Size
      ensures forall i: nat :: i < g.l1Size ==> l1Table[i] == L1Entry(g, hd.data, i)
      ensures l2CacheOffsets.Length == l2CacheCounts.Length == l2Cache.Length == L2_CACHE_SIZE
      ensures forall s: nat :: s < L2_CACHE_SIZE ==> l2CacheCounts[s] < COUNT_LIMIT && |l2Cache[s]| == 8 * g.l2Size
      ensures clusterCache.Length == g.clusterSize
      ensures Valid() ==> DriverOk(g, z, hd.data, l1Table[..], l2CacheOffsets[..], l2CacheCounts[..], l2Cache[..],
                                   clusterCacheOffset, clusterCache[..])
    {
      hide Laid, Roomy, Total, Fills, WellFormed, ClusterCacheOk, Lossless, Geometry.Opened, L1Entry;
      SoundFacts(g, hd.data, l1Table[..], l2CacheOffsets[..], l2CacheCounts[..], l2Cache[..]);
    }

    lemma DriverIsValid()
      requires Distinct()
      requires DriverOk(g, z, hd.data, l1Table[..], l2CacheOffsets[..], l2CacheCounts[..], l2Cache[..],
                        clusterCacheOffset, clusterCache[..])
      ensures Valid()
    {
      hide WellFormed, CacheOk, L1Ok, Roomy, Total, Fills, Geometry.Opened, Lossless;
      ImageBounds(g, z, hd.data);
    }

    /** The flat byte array the guest sees. */
    ghost function Contents(): (d: seq<byte>)
      requires g.Shape()
      reads hd
      ensures |d| == Capacity(g)
    {
      Disk(g, z, base, hd.data)
    }

    /** The guest's bytes in sectors [s, s + n). */
    ghost function Sectors(s: nat, n: nat): (b: seq<byte>)
      requires g.Shape() && 512 * (s + n) <= Capacity(g)
      reads hd
      ensures |b| == 512 * n
    {
      Piece(Contents(), 512 * s, 512 * n)
    }

    // ---------------------------------------------------------- the L2 cache

    /** The first slot with this tag, counted as a hit; 16 if there is none. */
    method LookupSlot(off: nat) returns (s: nat)
      requires Distinct()
      requires l2CacheOffsets.Length == l2CacheCounts.Length == L2_CACHE_SIZE
      modifies l2CacheCounts
      ensures s <= L2_CACHE_SIZE
      ensures forall u: nat :: u < s ==> l2CacheOffsets[u] != off
      ensures s < L2_CACHE_SIZE ==> l2CacheOffsets[s] == off
      ensures l2CacheCounts[..] ==
              if s < L2_CACHE_SIZE then Touched(old(l2CacheCounts[..]), s) else old(l2CacheCounts[..])
    {
      s := 0;
      while s < L2_CACHE_SIZE
        invariant s <= L2_CACHE_SIZE
        invariant forall u: nat :: u < s ==> l2CacheOffsets[u] != off
        invariant l2CacheCounts[..] == old(l2CacheCounts[..])
      {
        if off == l2CacheOffsets[s] {
          ghost var bumped := old(l2CacheCounts[..])[s := old(l2CacheCounts[s]) + 1];
          l2CacheCounts[s] := l2CacheCounts[s] + 1;
          assert l2CacheCounts[..] == bumped;
          if l2CacheCounts[s] == COUNT_LIMIT {
            var j := 0;
            while j < L2_CACHE_SIZE
              invariant j <= L2_CACHE_SIZE
              invariant forall k: nat :: k < j ==> l2CacheCounts[k] == bumped[k] / 2
              invariant forall k: nat :: j <= k < L2_CACHE_SIZE ==> l2CacheCounts[k] == bumped[k]
            {
              l2CacheCounts[j] := l2CacheCounts[j] / 2;
              j := j + 1;
            }
          }
          return;
        }
        s := s + 1;
      }
    }

    /** The first slot with the least hit count. */
    method Victim() returns (s: nat)
      requires l2CacheCounts.Length == L2_CACHE_SIZE
      requires forall k: nat :: k < L2_CACHE_SIZE ==> l2CacheCounts[k] < COUNT_LIMIT
      ensures LeastUsed(l2CacheCounts[..], s)
      ensures forall k: nat :: k < s ==> l2CacheCounts[s] < l2CacheCounts[k]
    {
      s := 0;
      var minCount, i := COUNT_LIMIT, 0;
      while i < L2_CACHE_SIZE
        invariant i <= L2_CACHE_SIZE && s < L2_CACHE_SIZE && (s < i || i == 0)
        invariant minCount == if i == 0 then COUNT_LIMIT else l2CacheCounts[s]
        invariant i == 0 ==> s == 0
        invariant forall k: nat :: k < i ==> minCount <= l2CacheCounts[k]
        invariant i > 0 ==> forall k: nat :: k < s ==> minCount < l2CacheCounts[k]
      {
        if l2CacheCounts[i] < minCount {
          minCount := l2CacheCounts[i];
          s := i;
        }
        i := i + 1;
      }
    }

    /** Lines 205-215 of get_cluster_offset: an L1 entry for a table to come. */
    method PlaceTable(i: nat) returns (l2Offset: nat)
      requires i < l1Table.Length && g.clusterSize > 0
      modifies hd, l1Table
      ensures l2Offset == RoundUp(|old(hd.data)|, g.clusterSize)
      ensures l1Table[..] == old(l1Table[..])[i := l2Offset]
      ensures hd.data == Written(old(hd.data), g.l1TableOffset + 8 * i, EncodeBE(l2Offset, 8))
    {
      var len := hd.GetLength();
      l2Offset := RoundUp(len, g.clusterSize);
      l1Table[i] := l2Offset;
      hd.Pwrite(g.l1TableOffset + 8 * i, EncodeBE(l2Offset, 8));
    }

    /** Lines 230-250 of get_cluster_offset: a table, zeroed on disk if it is new,
        replaces the least used one. */
    method LoadTable(l2Offset: nat, newTable: bool) returns (slot: nat)
      requires Distinct() && l2CacheCounts.Length == l2CacheOffsets.Length == l2Cache.Length == L2_CACHE_SIZE
      requires forall k: nat :: k < L2_CACHE_SIZE ==> l2CacheCounts[k] < COUNT_LIMIT
      requires !newTable ==> l2Offset + 8 * g.l2Size <= |hd.data|
      modifies hd, l2Cache, l2CacheOffsets, l2CacheCounts
      ensures LeastUsed(old(l2CacheCounts[..]), slot)
      ensures hd.data == if newTable then Written(old(hd.data), l2Offset, Zeros(8 * g.l2Size)) else old(hd.data)
      ensures l2CacheOffsets[..] == old(l2CacheOffsets[..])[slot := l2Offset]
      ensures l2CacheCounts[..] == old(l2CacheCounts[..])[slot := 1]
      ensures l2Cache[..] ==
              old(l2Cache[..])[slot := if newTable then Zeros(8 * g.l2Size)
                                       else old(hd.data)[l2Offset..l2Offset + 8 * g.l2Size]]
    {
      hide Written;
      slot := Victim();
      if newTable {
        l2Cache[slot] := Zeros(8 * g.l2Size);
        hd.Pwrite(l2Offset, l2Cache[slot]);
      } else {
        var t := hd.Pread(l2Offset, 8 * g.l2Size);
        l2Cache[slot] := t;
      }
      l2CacheOffsets[slot] := l2Offset;
      l2CacheCounts[slot] := 1;
    }

    /** Lines 200-250 of get_cluster_offset: the L2 table for L1 entry i, made if
        there is none, in a cache slot. */
    method FindTable(i: nat) returns (l2Offset: nat, slot: nat)
      requires Sound() && i < g.l1Size
      requires L1Entry(g, hd.data, i) == 0 ==> Valid()
      modifies hd, l1Table, l2Cache, l2CacheOffsets, l2CacheCounts
      ensures Sound() && (old(Valid()) ==> Valid())
      ensures g.Shape() && hd.data == WithTable(g, old(hd.data), i)
      ensures slot < L2_CACHE_SIZE && l2CacheOffsets.Length == L2_CACHE_SIZE
      ensures l2Offset == L1Entry(g, hd.data, i) == l2CacheOffsets[slot] && l2Offset != 0
    {
      hide DriverSound, WellFormed, Lossless, Geometry.Opened, L1Entry, WithTable, EncodeBE, Touched, Written,
           RoundUp, Zeros, Laid, Roomy, Total, Fills, ClusterCacheOk;
      Facts();
      ghost var f0, l10 := hd.data, l1Table[..];
      ghost var tags, counts, slots := l2CacheOffsets[..], l2CacheCounts[..], l2Cache[..];
      l2Offset := l1Table[i];
      var newTable := false;
      if l2Offset == 0 {
        DriverGainsTable(g, z, f0, i, l10, tags, counts, slots, clusterCacheOffset, clusterCache[..]);
        WithTableMade(g, f0, i);
        l2Offset := PlaceTable(i);
        newTable := true;
      } else {
        WithTableIdle(g, f0, i);
        LaidTable(g, f0, i);
      }
      ghost var f1 := WithTable(g, f0, i);
      assert DriverSound(g, f1, l1Table[..], tags, counts, slots);
      slot := LookupSlot(l2Offset);
      if slot == L2_CACHE_SIZE {
        slot := LoadTable(l2Offset, newTable);
        assert LeastUsed(counts, slot) && slot < |counts|;
        DriverLoads(g, f1, l1Table[..], tags, counts, slots, i, slot, l2Cache[slot]);
      } else {
        DriverCounts(g, f1, l1Table[..], tags, counts, slots, slot);
      }
    }

    /** The decompression cache, tagged coff, held cdata before an attempt to inflate the
        entry w over it failed. */
    ghost predicate Spoiled(w: nat, coff: nat, cdata: seq<byte>)
      requires g.Shape() && |cdata| == g.clusterSize
      reads this, hd, clusterCache
    {
      && clusterCacheOffset == coff
      && clusterCache[..] == Overlay(cdata, 0, Leftover(g, z, hd.data, w))
    }

    /** Brings the cluster behind a compressed entry into the one-entry cache. The tag
        alone decides whether anything is read. If the stream does not inflate, what was
        inflated of it lies over the old content of the cache, under the old tag. */
    method DecompressCluster(w: nat) returns (ret: int)
      requires Sound() && w >= COMPRESSED
      modifies this`clusterCacheOffset, clusterCache
      ensures Sound()
      ensures ret == 0 <==> Inflated(g, z, hd.data, old(clusterCacheOffset), old(clusterCache[..]), w).Some?
      ensures ret == 0 ==>
                && Inflated(g, z, hd.data, old(clusterCacheOffset), old(clusterCache[..]), w) == Some(clusterCache[..])
                && clusterCacheOffset == WordExtent(g, w).off
      ensures ret != 0 ==> ret == -1 && clusterCacheOffset == old(clusterCacheOffset) != WordExtent(g, w).off
      ensures ret != 0 ==> Spoiled(w, old(clusterCacheOffset), old(clusterCache[..]))
      ensures ret != 0 && WordExtent(g, w).off + WordExtent(g, w).len > |hd.data| ==>
                clusterCache[..] == old(clusterCache[..])
      ensures old(clusterCacheOffset) == WordExtent(g, w).off ==> clusterCache[..] == old(clusterCache[..])
      ensures old(Behind()) ==> Behind()
    {
      hide DriverSound, Lossless, Inflate, Partial, Geometry.Opened, EntryOffset, EntrySize, WordExtent, Laid, Roomy,
           Total, Fills, Overlay, Leftover;
      Facts();
      EntryFields(g, w);
      var coffset := EntryOffset(g, w);
      if clusterCacheOffset != coffset {
        var csize := EntrySize(g, w);
        var stream := hd.Pread(coffset, csize);
        OverlayNothing(clusterCache[..], 0);
        NothingLeft(g, z, hd.data, w);
        if |stream| != csize {
          return -1;
        }
        var r := Inflate(z, stream, g.clusterSize);
        StreamInflates(g, z, hd.data, w, stream);
        if r.None? {
          Memcpy(clusterCache, 0, Partial(z, stream, g.clusterSize));
          return -1;
        }
        ExpandsSized(g, z, hd.data, w);
        StreamInside(g, z, hd.data, w);
        OverlayAll(clusterCache[..], r.value);
        Memcpy(clusterCache, 0, r.value);
        clusterCacheOffset := coffset;
      }
      ret := 0;
    }

    /** Lines 285-290 of get_cluster_offset: one L2 entry, written through. */
    method EnterWord(slot: nat, l2Offset: nat, l2Index: nat, w: nat)
      requires Distinct() && slot < l2Cache.Length && 8 * l2Index + 8 <= |l2Cache[slot]|
      modifies hd, l2Cache
      ensures hd.data == Written(old(hd.data), l2Offset + 8 * l2Index, EncodeBE(w, 8))
      ensures l2Cache[..] == old(l2Cache[..])[slot := SlotWith(old(l2Cache[slot]), l2Index, w)]
    {
      l2Cache[slot] := l2Cache[slot][..8 * l2Index] + EncodeBE(w, 8) + l2Cache[slot][8 * l2Index + 8..];
      hd.Pwrite(l2Offset + 8 * l2Index, EncodeBE(w, 8));
    }

    /** Lines 258-290 of get_cluster_offset: a new place for cluster (i, j), whose
        table is in the given slot and whose entry was w. */
    method NewEntry(slot: nat, l2Offset: nat, l2Index: nat, w: nat, allocate: nat, compressedSize: nat,
                    whole: bool, ghost i: nat)
      returns (clusterOffset: nat)
      requires Valid() && InMap(g, i, l2Index)
      requires slot < L2_CACHE_SIZE == l2CacheOffsets.Length
      requires l2Offset == L1Entry(g, hd.data, i) == l2CacheOffsets[slot] && l2Offset != 0
      requires w == ClusterWord(g, hd.data, i, l2Index)
      requires allocate == 1 || allocate == 2
      requires w == 0 || (w >= COMPRESSED && allocate == 1)
      requires allocate == 2 ==> 0 < compressedSize < g.clusterSize && |hd.data| < g.Limit()
      modifies this`clusterCacheOffset, clusterCache, hd, l2Cache
      ensures Distinct() && g.Shape() && g.Opened()
      ensures clusterOffset == ClusterWord(g, hd.data, i, l2Index)
      ensures allocate == 1 ==>
                && Valid()
                && var f2 := WithCluster(g, z, old(hd.data), w, whole);
                   hd.data == WithEntry(g, f2, i, l2Index, RoundUp(|old(hd.data)|, g.clusterSize))
      ensures allocate == 2 ==>
                && hd.data == WithEntry(g, old(hd.data), i, l2Index, PackCompressed(g, |old(hd.data)|, compressedSize))
                && Reserving(g, hd.data, l1Table[..], l2CacheOffsets[..], l2CacheCounts[..], l2Cache[..])
                && clusterCacheOffset == old(clusterCacheOffset) && clusterCache[..] == old(clusterCache[..])
    {
      hide DriverOk, DriverSound, WellFormed, Lossless, Geometry.Opened, ClusterWord, L1Entry, WithCluster, EncodeBE,
           PackCompressed, Expand, SlotWith, EntryOffset, EntrySize, WordExtent, Written, Truncated, DecodeBE,
           ClusterCacheOk, Laid, Roomy, Total, Fills;
      Facts();
      ghost var f, l1, tags, counts, slots := hd.data, l1Table[..], l2CacheOffsets[..], l2CacheCounts[..], l2Cache[..];
      ghost var coff, cdata := clusterCacheOffset, clusterCache[..];
      ghost var target;
      if w >= COMPRESSED && !whole {
        DriverDecompresses(g, z, f, coff, cdata, i, l2Index);
        var ret := DecompressCluster(w);
        Facts();
        DriverAllocates(g, z, f, i, l2Index, whole, slot, l1, tags, counts, slots, clusterCacheOffset,
                        clusterCache[..]);
        WithClusterCopies(g, z, f, w, whole);
        var len := hd.GetLength();
        clusterOffset := RoundUp(len, g.clusterSize);
        hd.Pwrite(clusterOffset, clusterCache[..]);
        target := WithEntry(g, WithCluster(g, z, f, w, whole), i, l2Index, clusterOffset);
      } else {
        var len := hd.GetLength();
        if allocate == 1 {
          DriverAllocates(g, z, f, i, l2Index, whole, slot, l1, tags, counts, slots, coff, cdata);
          WithClusterExtends(g, z, f, w, whole);
          clusterOffset := RoundUp(len, g.clusterSize);
          hd.Truncate(clusterOffset + g.clusterSize);
          target := WithEntry(g, WithCluster(g, z, f, w, whole), i, l2Index, clusterOffset);
        } else {
          PackUnpack(g, len, compressedSize);
          clusterOffset := PackCompressed(g, len, compressedSize);
          DriverReserves(g, z, f, i, l2Index, clusterOffset, slot, l1, tags, counts, slots, coff, cdata);
          target := WithEntry(g, f, i, l2Index, clusterOffset);
        }
      }
      assert target == Written(hd.data, l2Offset + 8 * l2Index, EncodeBE(clusterOffset, 8));
      EnterWord(slot, l2Offset, l2Index, clusterOffset);
      if allocate == 1 {
        DriverIsValid();
      }
    }

    /** The L2 entry for the cluster at guest byte `offset`, allocating as asked:
        0 not at all, 1 a normal cluster, 2 a compressed one (block-qcow.c:188). */
    method GetClusterOffset(offset: nat, allocate: nat, compressedSize: nat, nStart: nat, nEnd: nat)
      returns (clusterOffset: nat)
      requires Sound() && Addressable(g, offset)
      requires allocate <= 2 && nStart <= nEnd
      requires allocate != 0 ==> Valid()
      requires allocate == 2 ==> 0 < compressedSize < g.clusterSize
      requires allocate == 2 && WordAt(g, hd.data, offset) == 0 ==>
                 |WithTable(g, hd.data, L1Index(g, offset))| < g.Limit()
      modifies Repr()
      ensures Distinct() && g.Shape() && g.Opened()
      ensures clusterOffset == WordAt(g, hd.data, offset)
      ensures allocate == 0 ==> hd.data == old(hd.data) && Sound()
      ensures allocate == 1 ==>
                hd.data == Allocated(g, z, old(hd.data), L1Index(g, offset), L2Index(g, offset),
                                     nEnd - nStart >= g.clusterSectors)
      ensures allocate == 2 ==>
                hd.data == Reserved(g, old(hd.data), L1Index(g, offset), L2Index(g, offset), compressedSize)
      ensures old(Valid()) && (allocate != 2 || WordAt(g, old(hd.data), offset) != 0) ==> Valid()
      ensures allocate != 1 ==>
                clusterCacheOffset == old(clusterCacheOffset) && clusterCache[..] == old(clusterCache[..])
      ensures allocate == 2 && WordAt(g, old(hd.data), offset) == 0 ==>
                Reserving(g, hd.data, l1Table[..], l2CacheOffsets[..], l2CacheCounts[..], l2Cache[..])
    {
      hide DriverSound, WellFormed, Lossless, Geometry.Opened, ClusterWord, L1Entry, WithTable, WithCluster, EncodeBE,
           DecodeBE, L1Index, L2Index, PackCompressed, WithEntry, Shr, BitAnd, Reserving, SameContent, ClusterCacheOk,
           Laid, Roomy, Total, Fills;
      Facts();
      ghost var f0 := hd.data;
      ghost var i, j := L1Index(g, offset), L2Index(g, offset);
      SplitIsShifts(g, offset);
      SplitInjective(g, offset);
      var l1Index := Shr(offset, g.l2Bits + g.clusterBits);
      if l1Table[l1Index] == 0 && allocate == 0 {
        WordOfMissingTable(g, f0, i, j);
        return 0;
      }
      if allocate != 0 {
        WithTableStep(g, z, f0, i);
      } else {
        WithTableIdle(g, f0, i);
      }
      var l2Offset, slot := FindTable(l1Index);
      ghost var f1 := hd.data;
      Facts();
      var l2Index := BitAnd(Shr(offset, g.clusterBits), g.l2Size - 1);
      DriverReadsWord(g, f1, i, j, slot, l1Table[..], l2CacheOffsets[..], l2CacheCounts[..], l2Cache[..]);
      clusterOffset := DecodeBE(l2Cache[slot][8 * l2Index..8 * l2Index + 8]);
      if clusterOffset == 0 || (clusterOffset >= COMPRESSED && allocate == 1) {
        if allocate == 0 {
          return 0;
        }
        clusterOffset := NewEntry(slot, l2Offset, l2Index, clusterOffset, allocate, compressedSize,
                                  nEnd - nStart >= g.clusterSectors, i);
      }
    }

    // ---------------------------------------------------------- reading

    /** What a read of n sectors, all in one cluster, would deliver right now. */
    ghost function SeenNow(s: nat, n: nat): (b: Option<seq<byte>>)
      requires g.Shape()
      reads this, hd, clusterCache
    {
      Seen(g, z, base, hd.data, clusterCacheOffset, clusterCache[..], 512 * s, 512 * n)
    }

    /** The decompression cache holds what it was, tagged coff with cdata, or else the
        file, had to offer for the compressed entry w. */
    ghost predicate CacheHolds(w: nat, coff: nat, cdata: seq<byte>)
      requires g.Shape()
      reads this, hd, clusterCache
    {
      && clusterCacheOffset == WordExtent(g, w).off
      && Inflated(g, z, hd.data, coff, cdata, w) == Some(clusterCache[..])
    }

    /** The decompression cache after an attempt to read a cluster with compressed entry w. */
    ghost predicate CacheAfterRead(w: nat, ret: int, coff: nat, cdata: seq<byte>)
      requires g.Shape() && |cdata| == g.clusterSize
      reads this, hd, clusterCache
    {
      if ret == 0 then CacheHolds(w, coff, cdata) else Spoiled(w, coff, cdata)
    }

    /** n sectors of a cluster whose entry is w, from its sector `index` on: the body of
        the loop of qcow_read. */
    method ReadChunk(w: nat, sector: nat, index: nat, n: nat) returns (ret: int, chunk: seq<byte>)
      requires Sound() && n > 0
      requires 512 * index == 512 * sector % g.clusterSize
      requires index + n <= g.clusterSectors
      requires Addressable(g, 512 * sector) && w == WordAt(g, hd.data, 512 * sector)
      modifies this`clusterCacheOffset, clusterCache
      ensures Sound() && g.Shape()
      ensures old(SeenNow(sector, n)) == if ret == 0 then Some(chunk) else None
      ensures ret == 0 || ret == -1
      ensures w >= COMPRESSED ==> CacheAfterRead(w, ret, old(clusterCacheOffset), old(clusterCache[..]))
      ensures old(Valid()) ==> Valid()
      ensures old(Behind()) ==> Behind()
    {
      hide DriverSound, Lossless, Geometry.Opened, ClusterWord, L1Index, L2Index, Expand, WordExtent, Laid, Roomy,
           Total, Fills, WellFormed, ClusterCacheOk, Overlay, Leftover;
      Facts();
      ghost var i, j := L1Index(g, 512 * sector), L2Index(g, 512 * sector);
      SplitInjective(g, 512 * sector);
      LaidCluster(g, hd.data, i, j);
      ret, chunk := 0, [];
      if w == 0 {
        if base.Some? {
          if |base.value| < 512 * (sector + n) {
            return -1, [];
          }
          chunk := BaseBytes(base, 512 * sector, 512 * n);
        } else {
          chunk := Zeros(512 * n);
          assert chunk == BaseBytes(base, 512 * sector, 512 * n);
        }
      } else if w >= COMPRESSED {
        if Valid() {
          DriverDecompresses(g, z, hd.data, clusterCacheOffset, clusterCache[..], i, j);
        }
        ret := DecompressCluster(w);
        if ret < 0 {
          return -1, [];
        }
        chunk := clusterCache[512 * index..512 * index + 512 * n];
      } else {
        NormalInside(g, hd.data, w);
        chunk := hd.Pread(w + 512 * index, 512 * n);
      }
    }

    /** One turn of the loop of qcow_read: n sectors, all in one cluster. */
    method ReadTurn(sector: nat, buf: array<byte>, pos: nat, nb: nat) returns (ret: int, n: nat)
      requires Sound() && buf !in Repr()
      requires nb > 0 && pos + 512 * nb <= buf.Length
      requires 512 * (sector + nb) <= Capacity(g)
      modifies Repr(), buf
      ensures Sound() && g.Shape() && hd.data == old(hd.data)
      ensures 0 < n <= nb && (ret == 0 || ret == -1)
      ensures 512 * (sector + n) <= ClusterStart(g, 512 * sector) + g.clusterSize
      ensures n == nb || 512 * (sector + n) == ClusterStart(g, 512 * sector) + g.clusterSize
      ensures ret == 0 <==> old(SeenNow(sector, n)).Some?
      ensures ret == 0 ==> buf[..] == Overlay(old(buf[..]), pos, old(SeenNow(sector, n)).value)
      ensures ret != 0 ==> buf[..] == old(buf[..])
      ensures WordAt(g, hd.data, 512 * sector) >= COMPRESSED ==>
                CacheAfterRead(WordAt(g, hd.data, 512 * sector), ret, old(clusterCacheOffset), old(clusterCache[..]))
      ensures old(Valid()) ==> Valid()
      ensures old(Behind()) ==> Behind()
    {
      hide DriverSound, WellFormed, Lossless, Geometry.Opened, ClusterWord, L1Index, L2Index, Capacity, BitAnd,
           Overlay, Seen, WithTable, Allocated, Reserved, ClusterCacheOk, Laid, Roomy, Total, Fills, Inflated,
           WordExtent, CacheAfterRead;
      Facts();
      CapacityBound(g, 512 * sector);
      SectorIndex(g, sector);
      SplitInjective(g, 512 * sector);
      var w := GetClusterOffset(512 * sector, 0, 0, 0, 0);
      var index := BitAnd(sector, g.clusterSectors - 1);
      n := g.clusterSectors - index;
      if n > nb {
        n := nb;
      }
      var chunk;
      ret, chunk := ReadChunk(w, sector, index, n);
      if ret == 0 {
        Memcpy(buf, pos, chunk);
      }
    }

    /** qcow_read: sectors [sectorNum, sectorNum + nbSectors) into buf at `at`. It fails
        where the backing image is too short or a stream does not inflate. */
    method Read(sectorNum: nat, buf: array<byte>, at: nat, nbSectors: nat) returns (ret: int)
      requires Sound() && buf !in Repr()
      requires at + 512 * nbSectors <= buf.Length
      requires 512 * (sectorNum + nbSectors) <= Capacity(g)
      modifies Repr(), buf
      ensures Sound() && g.Shape() && hd.data == old(hd.data)
      ensures ret == 0 || ret == -1
      // the driver's memory is right: the guest's bytes are read
      ensures old(Valid()) ==> Valid()
      ensures old(Valid()) ==> (ret == 0 <==> Backed(g, base, hd.data, 512 * sectorNum, 512 * nbSectors))
      ensures old(Valid()) && ret == 0 ==> buf[..] == Overlay(old(buf[..]), at, old(Sectors(sectorNum, nbSectors)))
      // in any case, a read within one cluster delivers what the cache or the file has
      ensures InOneCluster(g, sectorNum, nbSectors) ==>
                (ret == 0 <==> old(SeenNow(sectorNum, nbSectors)).Some?)
      ensures InOneCluster(g, sectorNum, nbSectors) && ret == 0 ==>
                buf[..] == Overlay(old(buf[..]), at, old(SeenNow(sectorNum, nbSectors)).value)
      ensures InOneCluster(g, sectorNum, nbSectors) && WordAt(g, hd.data, 512 * sectorNum) >= COMPRESSED ==>
                CacheAfterRead(WordAt(g, hd.data, 512 * sectorNum), ret, old(clusterCacheOffset), old(clusterCache[..]))
      ensures old(Behind()) ==> Behind()
    {
      hide DriverSound, WellFormed, Lossless, Geometry.Opened, Capacity, Overlay, Disk, Laid, Roomy, Total, Fills,
           ClusterCacheOk, Seen, Backed, ClusterStart, WordAt, CacheAfterRead, WordExtent;
      ghost var d, buf0, right := Contents(), buf[..], Valid();
      ghost var one, seen := InOneCluster(g, sectorNum, nbSectors), SeenNow(sectorNum, nbSectors);
      var sector, pos, nb := sectorNum, at, nbSectors;
      ghost var done := 0;
      ReadStarts(buf0, at, d, 512 * sectorNum);
      BackedNothing(g, base, hd.data, 512 * sectorNum);
      while nb > 0
        invariant 0 <= nb <= nbSectors && done == 512 * (nbSectors - nb)
        invariant sector + nb == sectorNum + nbSectors && pos + 512 * nb == at + 512 * nbSectors
        invariant Sound() && g.Shape() && hd.data == old(hd.data)
        invariant right ==> Valid()
        invariant right ==> buf[..] == Overlay(buf0, at, Piece(d, 512 * sectorNum, done))
        invariant right ==> Backed(g, base, hd.data, 512 * sectorNum, done)
        invariant nb == nbSectors ==>
                    && clusterCacheOffset == old(clusterCacheOffset) && clusterCache[..] == old(clusterCache[..])
                    && buf[..] == buf0
        invariant one && nb < nbSectors && WordAt(g, hd.data, 512 * sectorNum) >= COMPRESSED ==>
                    CacheAfterRead(WordAt(g, hd.data, 512 * sectorNum), 0, old(clusterCacheOffset),
                                   old(clusterCache[..]))
        invariant old(Behind()) ==> Behind()
        invariant one && nb < nbSectors ==> nb == 0 && seen.Some? && buf[..] == Overlay(buf0, at, seen.value)
      {
        ghost var coff, cdata := clusterCacheOffset, clusterCache[..];
        if right {
          ReadExtends(buf0, at, d, 512 * sectorNum, done, 512 * nb);
        }
        var r, n := ReadTurn(sector, buf, pos, nb);
        if right {
          SeenIsFlat(g, z, base, hd.data, coff, cdata, 512 * sector, 512 * n);
          BackedSplits(g, base, hd.data, 512 * sectorNum, done, 512 * n, 512 * (nb - n));
          ReadExtends(buf0, at, d, 512 * sectorNum, done, 512 * n);
        }
        if r < 0 {
          return -1;
        }
        nb, sector, pos := nb - n, sector + n, pos + 512 * n;
        done := done + 512 * n;
      }
      ret := 0;
    }

    // ---------------------------------------------------------- writing

    /** One turn of the loop of qcow_write: the first n sectors of buf, all in one
        cluster. */
    method WriteTurn(sector: nat, buf: seq<byte>, nb: nat) returns (n: nat)
      requires Valid() && nb > 0 && |buf| == 512 * nb
      requires 512 * (sector + nb) <= Capacity(g)
      modifies Repr()
      ensures Valid() && g.Shape()
      ensures 0 < n <= nb
      ensures n == nb || ClusterStart(g, 512 * (sector + n)) == 512 * (sector + n)
      ensures HeaderKeeps(g, old(hd.data), hd.data)
      ensures Total(g, hd.data) <= Total(g, old(hd.data))
      ensures Progress(g, z, base, old(hd.data), hd.data, 512 * sector, buf[..512 * n])
    {
      hide DriverSound, WellFormed, Lossless, Geometry.Opened, ClusterWord, L1Index, L2Index, Capacity, BitAnd,
           ClusterStart, Disk, DiskByte, Allocated, Reserved, Progress, Stored, Written, InMap, Laid, Roomy, Total,
           Fills, ClusterCacheOk;
      Facts();
      ghost var f := hd.data;
      CapacityBound(g, 512 * sector);
      SectorIndex(g, sector);
      NextCluster(g, 512 * sector);
      var index := BitAnd(sector, g.clusterSectors - 1);
      n := g.clusterSectors - index;
      if n > nb {
        n := nb;
      }
      var chunk := buf[..512 * n];
      TurnSound(g, z, base, f, 512 * sector, chunk, n >= g.clusterSectors);
      var w := GetClusterOffset(512 * sector, 1, 0, index, index + n);
      Facts();
      ghost var f1 := hd.data;
      var a := w + 512 * index;
      hd.Pwrite(a, chunk);
      StoredLength(f1, hd.data, a, chunk);
      DriverWritesData(g, z, f1, hd.data, L1Index(g, 512 * sector), L2Index(g, 512 * sector), a, a + |chunk|,
                       l1Table[..], l2CacheOffsets[..], l2CacheCounts[..], l2Cache[..],
                       clusterCacheOffset, clusterCache[..]);
      DriverIsValid();
    }

    /** qcow_write: buf holds the new content of nbSectors sectors from sectorNum. */
    method Write(sectorNum: nat, buf: seq<byte>, nbSectors: nat) returns (ret: int)
      requires Valid() && |buf| == 512 * nbSectors
      requires 512 * (sectorNum + nbSectors) <= Capacity(g)
      modifies Repr()
      ensures Valid() && g.Shape()
      ensures ret == 0
      ensures Progress(g, z, base, old(hd.data), hd.data, 512 * sectorNum, buf)
      ensures CowSafe(g, base) ==> Contents() == Overlay(old(Contents()), 512 * sectorNum, buf)
      ensures clusterCacheOffset == NO_OFFSET
      ensures HeaderKeeps(g, old(hd.data), hd.data)
      ensures Total(g, hd.data) <= Total(g, old(hd.data))
    {
      hide DriverSound, WellFormed, Lossless, Geometry.Opened, Capacity, Progress, ClusterStart, Disk, Overlay, Laid,
           Roomy, Total, Fills, ClusterCacheOk;
      Facts();
      ghost var f0, lo := hd.data, 512 * sectorNum;
      ProgressStarts(g, z, base, f0, lo);
      var sector, nb := sectorNum, nbSectors;
      assert buf[..512 * (sector - sectorNum)] == [];
      while nb > 0
        invariant 0 <= nb <= nbSectors && sector + nb == sectorNum + nbSectors
        invariant Valid() && g.Shape()
        invariant HeaderKeeps(g, f0, hd.data) && Total(g, hd.data) <= Total(g, f0)
        invariant sector == sectorNum || nb == 0 || ClusterStart(g, 512 * sector) == 512 * sector
        invariant Progress(g, z, base, f0, hd.data, lo, buf[..512 * (sector - sectorNum)])
      {
        ghost var f, done := hd.data, buf[..512 * (sector - sectorNum)];
        var rest := buf[512 * (sector - sectorNum)..];
        var n := WriteTurn(sector, rest, nb);
        ProgressChains(g, z, base, f0, f, hd.data, lo, done, rest[..512 * n]);
        nb, sector := nb - n, sector + n;
        assert done + rest[..512 * n] == buf[..512 * (sector - sectorNum)];
      }
      assert buf[..512 * nbSectors] == buf;
      CacheForgets(g, z, hd.data, clusterCache[..]);
      if CowSafe(g, base) {
        CowSafeIsFlat(g, z, base, f0, hd.data, lo, buf);
      }
      clusterCacheOffset := NO_OFFSET;
      ret := 0;
    }

    /** Whether the sector's cluster has data of its own, and how many of the
        nbSectors sectors from it share that answer. */
    method IsAllocated(sectorNum: nat, nbSectors: nat) returns (hasData: bool, pnum: nat)
      requires Sound() && 512 * sectorNum < Capacity(g)
      modifies Repr()
      ensures Sound() && g.Shape() && hd.data == old(hd.data) && (old(Valid()) ==> Valid())
      ensures pnum <= nbSectors && (nbSectors > 0 ==> pnum > 0)
      ensures forall k: nat :: 512 * sectorNum <= k < 512 * (sectorNum + pnum) ==>
                (hasData <==> WordAt(g, hd.data, k) != 0)
      ensures pnum < nbSectors ==>
                ClusterStart(g, 512 * (sectorNum + pnum)) == 512 * (sectorNum + pnum)
    {
      hide DriverSound, WellFormed, Lossless, Geometry.Opened, ClusterWord, L1Index, L2Index, Capacity, BitAnd,
           ClusterStart, Disk, WithTable, Allocated, Reserved, Laid, Roomy, Total, Fills, ClusterCacheOk;
      Facts();
      CapacityBound(g, 512 * sectorNum);
      SectorIndex(g, sectorNum);
      NextCluster(g, 512 * sectorNum);
      var w := GetClusterOffset(512 * sectorNum, 0, 0, 0, 0);
      var index := BitAnd(sectorNum, g.clusterSectors - 1);
      pnum := g.clusterSectors - index;
      if pnum > nbSectors {
        pnum := nbSectors;
      }
      hasData := w != 0;
      forall k: nat | 512 * sectorNum <= k < 512 * (sectorNum + pnum)
        ensures WordAt(g, hd.data, k) == w
      {
        SameCluster(g, 512 * sectorNum, k);
      }
    }

    // ---------------------------------------------------------- compressed writes

    /** The offset a compressed stream gets in an unmapped cluster at guest byte k. */
    ghost function NextStream(k: nat): nat
      requires g.Shape()
      reads hd
    {
      |WithTable(g, hd.data, L1Index(g, k))|
    }

    /** Where a stream of n bytes for a cluster that is already mapped goes. */
    ghost function StreamTarget(sectorNum: nat, n: nat): Extent
      requires g.Shape()
      reads hd
    {
      Extent(EntryOffset(g, WordAt(g, hd.data, 512 * sectorNum)), n)
    }

    /** The stream of the cluster at guest byte k ends the file, and begins at off. */
    ghost predicate StoredAt(k: nat, off: nat, stream: seq<byte>)
      requires g.Shape()
      reads hd
    {
      && WordAt(g, hd.data, k) >= COMPRESSED
      && WordExtent(g, WordAt(g, hd.data, k)) == Extent(off, |stream|)
      && |hd.data| == off + |stream|
      && HoldsAt(hd.data, off, stream)
    }

    /** The compressed branch of qcow_write_compressed: the stream goes where the
        entry says. */
    method StoreStream(sectorNum: nat, content: seq<byte>, stream: seq<byte>)
      requires Valid() && 512 * sectorNum < Capacity(g)
      requires |content| == g.clusterSize && stream == Deflate(z, content) && |stream| < g.clusterSize
      requires WordAt(g, hd.data, 512 * sectorNum) == 0 ==> NextStream(512 * sectorNum) < g.Limit()
      modifies Repr()
      ensures g.Shape() && stream != []
      ensures clusterCacheOffset == old(clusterCacheOffset) && clusterCache[..] == old(clusterCache[..])
      ensures WordAt(g, old(hd.data), 512 * sectorNum) == 0 ==>
                && Sound()
                && StoredOk(g, z, old(hd.data), L1Index(g, 512 * sectorNum), L2Index(g, 512 * sectorNum),
                            content, hd.data)
                && StoredAt(512 * sectorNum, old(NextStream(512 * sectorNum)), stream)
      ensures WordAt(g, old(hd.data), 512 * sectorNum) != 0 ==>
                && hd.data == Written(old(hd.data), EntryOffset(g, WordAt(g, old(hd.data), 512 * sectorNum)), stream)
                && (SparesTables(g, old(hd.data), old(StreamTarget(sectorNum, |stream|))) && Roomy(g, hd.data) ==>
                      Sound())
    {
      hide DriverSound, WellFormed, Lossless, Geometry.Opened, ClusterWord, L1Index, L2Index, Capacity, StoredOk,
           Deflate, Inflate, Written, EntryOffset, EntrySize, WordExtent, Reserving, Reserved, Laid, Roomy, Total,
           Fills, ClusterCacheOk, SparesTables, WithTable;
      Facts();
      var k := 512 * sectorNum;
      ghost var f0 := hd.data;
      CapacityBound(g, k);
      SplitInjective(g, k);
      RoundTrips(z, content);
      ghost var i, j := L1Index(g, k), L2Index(g, k);
      if ClusterWord(g, f0, i, j) == 0 {
        CompressedSound(g, z, f0, i, j, content);
      } else {
        ReservedIdle(g, z, f0, i, j, |stream|);
      }
      var w := GetClusterOffset(k, 2, |stream|, 0, 0);
      ghost var f := hd.data;
      if ClusterWord(g, f0, i, j) == 0 {
        EntryFields(g, w);
        WithTableStep(g, z, f0, i);
      } else {
        Facts();
      }
      hd.Pwrite(EntryOffset(g, w), stream);
      if ClusterWord(g, f0, i, j) == 0 {
        AppendEffect(f, |f|, stream);
        DriverStores(g, z, f0, f, stream, i, j, content,
                     l1Table[..], l2CacheOffsets[..], l2CacheCounts[..], l2Cache[..]);
      } else if SparesTables(g, f, Extent(EntryOffset(g, w), |stream|)) && Roomy(g, hd.data) {
        RoomyBound(g, hd.data);
        WrittenEffect(f, EntryOffset(g, w), stream);
        RewriteKeepsCaches(g, z, f, EntryOffset(g, w), stream,
                           l1Table[..], l2CacheOffsets[..], l2CacheCounts[..], l2Cache[..]);
      }
    }

    /** A buffer that qcow_write_compressed stores as a stream. */
    ghost predicate Packs(buf: seq<byte>)
    {
      |buf| == g.clusterSize && |Deflate(z, buf)| < g.clusterSize
    }

    /** A tag below the end of the file is not that of the next stream. */
    lemma BehindNext(f: seq<byte>, k: nat, coff: nat)
      requires WellFormed(g, z, f) && Roomy(g, f) && Addressable(g, k)
      ensures g.Shape() && |f| <= |WithTable(g, f, L1Index(g, k))|
      ensures coff < |f| ==> coff != |WithTable(g, f, L1Index(g, k))|
    {
      hide WellFormed, Roomy, Total, WithTable, L1Index, SameContent, ClusterWord;
      ImageBounds(g, z, f);
      WithTableStep(g, z, f, L1Index(g, k));
    }

    /** qcow_write_compressed: one cluster, compressed if that makes it smaller. */
    method WriteCompressed(sectorNum: nat, buf: seq<byte>, nbSectors: nat) returns (ret: int)
      requires Valid() && |buf| == 512 * nbSectors
      requires 512 * (sectorNum + nbSectors) <= Capacity(g)
      requires Packs(buf) && WordAt(g, hd.data, 512 * sectorNum) == 0 ==> NextStream(512 * sectorNum) < g.Limit()
      modifies Repr()
      ensures g.Shape()
      // the wrong length is refused
      ensures nbSectors != g.clusterSectors ==>
                && ret == -EINVAL && Valid() && hd.data == old(hd.data)
                && clusterCacheOffset == old(clusterCacheOffset) && clusterCache[..] == old(clusterCache[..])
      ensures nbSectors == g.clusterSectors ==> ret == 0
      // an incompressible cluster is written as usual
      ensures nbSectors == g.clusterSectors && !Packs(buf) ==>
                && Valid() && Progress(g, z, base, old(hd.data), hd.data, 512 * sectorNum, buf)
                && clusterCacheOffset == NO_OFFSET
                && (ClusterStart(g, 512 * sectorNum) == 512 * sectorNum ==>
                      Contents() == Overlay(old(Contents()), 512 * sectorNum, buf))
      ensures Packs(buf) ==>
                clusterCacheOffset == old(clusterCacheOffset) && clusterCache[..] == old(clusterCache[..])
      // a stream in an unmapped cluster: the file is right, the cache may name its offset already
      ensures Packs(buf) && WordAt(g, old(hd.data), 512 * sectorNum) == 0 ==>
                && Sound() && WellFormed(g, z, hd.data)
                && Contents() == Overlay(old(Contents()), ClusterStart(g, 512 * sectorNum), buf)
                && StoredAt(512 * sectorNum, old(NextStream(512 * sectorNum)), Deflate(z, buf))
                && StoredOk(g, z, old(hd.data), L1Index(g, 512 * sectorNum), L2Index(g, 512 * sectorNum), buf, hd.data)
                && (Valid() <==>
                    (old(clusterCacheOffset) == old(NextStream(512 * sectorNum)) ==> old(clusterCache[..]) == buf))
      // which it cannot without qcow_make_empty
      ensures old(Behind()) ==> Behind()
      ensures old(Behind()) && (Packs(buf) ==> WordAt(g, old(hd.data), 512 * sectorNum) == 0) ==> Valid()
      ensures (Packs(buf) ==> WordAt(g, old(hd.data), 512 * sectorNum) == 0) ==>
                HeaderKeeps(g, old(hd.data), hd.data) && Total(g, hd.data) <= Total(g, old(hd.data))
      // a stream over a normal cluster: the raw stream and the old tail
      ensures Packs(buf) && 0 < WordAt(g, old(hd.data), 512 * sectorNum) < g.Limit() ==>
                var k0, d := ClusterStart(g, 512 * sectorNum), Deflate(z, buf);
                && Valid()
                && Contents() == Overlay(old(Contents()), k0, d)
                && (Contents() == Overlay(old(Contents()), k0, buf) <==>
                    d + Piece(old(Contents()), k0 + |d|, g.clusterSize - |d|) == buf)
      // a stream over another that is at least as long: no other cluster changes
      ensures Packs(buf) && WordAt(g, old(hd.data), 512 * sectorNum) >= COMPRESSED
              && |Deflate(z, buf)| <= EntrySize(g, WordAt(g, old(hd.data), 512 * sectorNum)) ==>
                var e := WordExtent(g, WordAt(g, old(hd.data), 512 * sectorNum));
                var d, k0 := Deflate(z, buf), ClusterStart(g, 512 * sectorNum);
                && Sound() && e.off + e.len <= |old(hd.data)|
                && WordAt(g, hd.data, 512 * sectorNum) == WordAt(g, old(hd.data), 512 * sectorNum)
                && Expand(g, z, hd.data, WordAt(g, hd.data, 512 * sectorNum)) ==
                   Inflate(z, Restream(old(hd.data), e, d), g.clusterSize)
                && (Valid() && Contents() == Overlay(old(Contents()), k0, buf) <==>
                    && Inflate(z, Restream(old(hd.data), e, d), g.clusterSize) == Some(buf)
                    && (e.off == old(clusterCacheOffset) ==> old(clusterCache[..]) == buf))
                && (forall k: nat :: k < Capacity(g) && !(k0 <= k < k0 + g.clusterSize) ==>
                      Contents()[k] == old(Contents())[k])
      // over any mapped cluster the stream goes where the entry says, however long it is
      ensures Packs(buf) && WordAt(g, old(hd.data), 512 * sectorNum) != 0 ==>
                && hd.data == Written(old(hd.data), EntryOffset(g, WordAt(g, old(hd.data), 512 * sectorNum)),
                                      Deflate(z, buf))
                && (SparesTables(g, old(hd.data), old(StreamTarget(sectorNum, |Deflate(z, buf)|)))
                    && Roomy(g, hd.data) ==>
                      Sound())
      // if it hits no table the cluster denotes what the beginning of it inflates to
      ensures Packs(buf) && WordAt(g, old(hd.data), 512 * sectorNum) >= COMPRESSED
              && SparesTables(g, old(hd.data), old(StreamTarget(sectorNum, |Deflate(z, buf)|))) && Roomy(g, hd.data) ==>
                var e := WordExtent(g, WordAt(g, old(hd.data), 512 * sectorNum));
                && e.off + e.len <= |old(hd.data)|
                && WordAt(g, hd.data, 512 * sectorNum) == WordAt(g, old(hd.data), 512 * sectorNum)
                && Expand(g, z, hd.data, WordAt(g, hd.data, 512 * sectorNum)) ==
                   Inflate(z, Restream(old(hd.data), e, Deflate(z, buf)), g.clusterSize)
                && OthersKeep(g, z, old(hd.data), hd.data, Extent(e.off, |Deflate(z, buf)|))
                && (Inflated(g, z, hd.data, clusterCacheOffset, clusterCache[..], WordAt(g, hd.data, 512 * sectorNum))
                    == Some(buf) <==>
                    if e.off == old(clusterCacheOffset) then old(clusterCache[..]) == buf
                    else Inflate(z, Restream(old(hd.data), e, Deflate(z, buf)), g.clusterSize) == Some(buf))
    {
      hide DriverSound, WellFormed, Lossless, Geometry.Opened, ClusterWord, L1Index, L2Index, Capacity, StoredOk,
           Deflate, Inflate, Written, EntryOffset, EntrySize, WordExtent, Progress, Disk, Overlay, ClusterStart, Laid,
           Roomy, Total, Fills, ClusterCacheOk, Expand, SparesTables, WithTable, Restream, Piece;
      Facts();
      ghost var f0, k := hd.data, 512 * sectorNum;
      if nbSectors != g.clusterSectors {
        return -EINVAL;
      }
      CapacityBound(g, k);
      SameCluster(g, k, k);
      var stream := Deflate(z, buf);
      if |stream| >= g.clusterSize {
        var _ := Write(sectorNum, buf, g.clusterSectors);
        if ClusterStart(g, k) == k {
          WholeClusterIsFlat(g, z, base, f0, hd.data, k, buf);
        }
      } else {
        ghost var w, coff, cdata := WordAt(g, f0, k), clusterCacheOffset, clusterCache[..];
        StoreStream(sectorNum, buf, stream);
        WrittenEffect(f0, EntryOffset(g, w), stream);
        if w == 0 {
          BehindNext(f0, k, coff);
          StoredFacts(g, z, f0, L1Index(g, k), L2Index(g, k), buf, hd.data);
          StoredInNew(g, z, base, f0, hd.data, k, buf, coff, cdata);
        } else if w < g.Limit() {
          StoredOverNormal(g, z, base, f0, k, stream, buf, coff, cdata);
        } else if w >= COMPRESSED {
          EntryFields(g, w);
          if SparesTables(g, f0, Extent(EntryOffset(g, w), |stream|)) && Roomy(g, hd.data) {
            RoomyBound(g, hd.data);
            StoredOverAny(g, z, f0, k, stream);
          }
          if |stream| <= EntrySize(g, w) {
            StoredOverShort(g, z, base, f0, k, stream, buf, coff, cdata);
          }
        }
      }
      ret := 0;
    }

    /** qcow_make_empty: the file shrinks to its header and an empty L1 table. Nothing
        compressed is left for the decompression cache to be wrong about, but its tag
        stays. */
    method MakeEmpty() returns (ret: int)
      requires Sound()
      modifies Repr()
      ensures ret == 0 && Valid() && g.Shape()
      ensures hd.data == old(hd.data)[..g.l1TableOffset] + Zeros(8 * g.l1Size)
      ensures forall k: nat :: Addressable(g, k) ==>
                WordAt(g, hd.data, k) == 0 && DiskByte(g, z, base, hd.data, k) == BaseByte(base, k)
      ensures forall i: nat :: i < g.l1Size ==> L1Entry(g, hd.data, i) == 0
      ensures clusterCacheOffset == old(clusterCacheOffset) && clusterCache[..] == old(clusterCache[..])
    {
      hide DriverOk, WellFormed, Lossless, Geometry.Opened, ClusterWord, L1Index, L2Index, Written, Truncated, Laid,
           Roomy, Total, Fills, ClusterCacheOk;
      Facts();
      ghost var f0 := hd.data;
      forall i | 0 <= i < l1Table.Length {
        l1Table[i] := 0;
      }
      hd.Pwrite(g.l1TableOffset, Zeros(8 * g.l1Size));
      hd.Truncate(g.L1End());
      EmptyFile(g, f0);
      forall s | 0 <= s < l2Cache.Length {
        l2Cache[s] := Zeros(8 * g.l2Size);
      }
      forall s | 0 <= s < l2CacheOffsets.Length {
        l2CacheOffsets[s] := 0;
      }
      forall s | 0 <= s < l2CacheCounts.Length {
        l2CacheCounts[s] := 0;
      }
      DriverEmpties(g, z, hd.data, l1Table[..], l2CacheOffsets[..], l2CacheCounts[..], l2Cache[..],
                    clusterCacheOffset, clusterCache[..]);
      EmptyReads(g, z, base, hd.data);
      DriverIsValid();
      ret := 0;
    }
  }
}
