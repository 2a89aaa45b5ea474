/** Allocation: the file contents that get_cluster_offset leaves behind, and
    what they mean for the map and for the guest. */
module QcowAlloc {
  import opened Arith
  import opened Bytes
  import opened HostFile
  import opened QcowMap
  import opened QcowRoom

  // ------------------------------------------------------------ compressed entries

  /** offset | QCOW_OFLAG_COMPRESSED | size << (63 - cluster_bits), the flag
      being bit 63. */
  function PackCompressed(g: Geometry, off: nat, size: nat): nat
    requires g.Opened()
  {
    BitOr(off, BitOr(Pow2(63), size * Pow2(63 - g.clusterBits)))
  }

  /** The fields decompress_cluster takes out of an entry. */
  function EntryOffset(g: Geometry, w: nat): nat
  {
    BitAnd(w, g.clusterOffsetMask)
  }

  function EntrySize(g: Geometry, w: nat): nat
    requires g.Opened()
  {
    BitAnd(Shr(w, 63 - g.clusterBits), g.clusterSize - 1)
  }

  /** The masks and shifts of decompress_cluster select the entry's extent. */
  lemma EntryFields(g: Geometry, w: nat)
    requires g.Opened() && w >= COMPRESSED
    ensures WordExtent(g, w) == Extent(EntryOffset(g, w), EntrySize(g, w))
  {
    hide BitAnd, Shr, Pow2;
    BitAndMask(w, 63 - g.clusterBits);
    ShrIsDiv(w, 63 - g.clusterBits);
    BitAndMask(Shr(w, 63 - g.clusterBits), g.clusterBits);
  }

  /** Packing then unpacking gives the same offset and size. */
  lemma PackUnpack(g: Geometry, off: nat, size: nat)
    requires g.Opened()
    requires off < g.Limit() && size < g.clusterSize
    ensures var w := PackCompressed(g, off, size);
            && COMPRESSED <= w < WORD_LIMIT
            && EntryOffset(g, w) == off && EntrySize(g, w) == size
            && WordExtent(g, w) == Extent(off, size)
  {
    hide BitOr, BitAnd, Shr;
    var k, m := 63 - g.clusterBits, g.clusterBits;
    PackFields(k, m, off, size);
    UnpackFields(k, m, off, size);
    assert k + m == 63;
    Pow2Values();
    EntryFields(g, PackCompressed(g, off, size));
  }

  // ------------------------------------------------------------ file effects

  lemma AppendEffect(f: seq<byte>, off: nat, b: seq<byte>)
    requires |f| <= off && b != []
    ensures var f' := Written(f, off, b);
            && |f'| == off + |b|
            && ChangedOnly(f, f', |f|, |f|)
            && HoldsAt(f', off, b)
  {
    WrittenAppends(f, off, b);
  }

  lemma WordWriteEffect(f: seq<byte>, a: nat, w: nat)
    requires a + 8 <= |f| && w < WORD_LIMIT
    ensures var f' := Written(f, a, EncodeBE(w, 8));
            && |f'| == |f|
            && ChangedOnly(f, f', a, a + 8)
            && HoldsAt(f', a, EncodeBE(w, 8))
            && Word(f', a) == w
  {
    var b := EncodeBE(w, 8);
    WrittenSplices(f, a, b);
    assert Written(f, a, b)[a..a + 8] == b;
    Pow256Values();
    DecodeEncode(w, 8);
  }

  lemma ZeroWords(f: seq<byte>, t: nat, n: nat)
    requires HoldsAt(f, t, Zeros(8 * n))
    ensures forall m: nat :: m < n ==> Word(f, t + 8 * m) == 0
  {
    forall m: nat | m < n
      ensures Word(f, t + 8 * m) == 0
    {
      var s := f[t + 8 * m..t + 8 * m + 8];
      forall p | 0 <= p < 8
        ensures s[p] == 0
      {
        assert s[p] == f[t..t + |Zeros(8 * n)|][8 * m + p];
        assert Zeros(8 * n)[8 * m + p] == 0;
      }
      DecodeZeros(s);
    }
  }

  // ------------------------------------------------------------ allocating an L2 table

  /** The file once L1 entry i has a table (block-qcow.c:206-243). */
  function WithTable(g: Geometry, f: seq<byte>, i: nat): seq<byte>
    requires g.clusterSize > 0
  {
    if L1Entry(g, f, i) != 0 then f
    else
      var t := RoundUp(|f|, g.clusterSize);
      Written(Written(f, g.l1TableOffset + 8 * i, EncodeBE(t, 8)), t, Zeros(8 * g.l2Size))
  }

  /** The bytes that change when L1 entry i gets a table. */
  lemma WithTableBytes(g: Geometry, f: seq<byte>, i: nat)
    requires g.Shape() && 0 < g.L1End() <= |f| && i < g.l1Size && L1Entry(g, f, i) == 0
    requires |f| + TableCost(g) <= COMPRESSED
    ensures var t, a, f' := RoundUp(|f|, g.clusterSize), g.l1TableOffset + 8 * i, WithTable(g, f, i);
            && 0 < |f| <= t
            && L1Entry(g, f', i) == t
            && ChangedOnly(f, f', a, a + 8)
            && |f'| == t + 8 * g.l2Size
            && HoldsAt(f', t, Zeros(8 * g.l2Size))
  {
    hide EncodeBE, DecodeBE, Written;
    var t, a := RoundUp(|f|, g.clusterSize), g.l1TableOffset + 8 * i;
    var f1 := Written(f, a, EncodeBE(t, 8));
    WordWriteEffect(f, a, t);
    AppendEffect(f1, t, Zeros(8 * g.l2Size));
    SliceKeeps(f1, WithTable(g, f, i), |f1|, |f1|, a, 8);
  }

  lemma WithTableStep(g: Geometry, z: Codec, f: seq<byte>, i: nat)
    requires WellFormed(g, z, f) && i < g.l1Size && Roomy(g, f)
    ensures var f' := WithTable(g, f, i);
            && WellFormed(g, z, f') && Roomy(g, f') && Total(g, f') <= Total(g, f)
            && |f| <= |f'| <= |f| + TableCost(g)
            && HeaderKeeps(g, f, f')
            && L1Entry(g, f', i) != 0
            && (forall n: nat :: n < g.l1Size && n != i ==> L1Entry(g, f', n) == L1Entry(g, f, n))
            && (forall n: nat, m: nat :: InMap(g, n, m) ==> ClusterWord(g, f', n, m) == ClusterWord(g, f, n, m))
            && (forall n: nat, m: nat :: InMap(g, n, m) ==>
                  SameContent(g, z, f, f', ClusterWord(g, f, n, m)))
  {
    hide WithTable, Roomy, Total, L1Entry, ClusterWord, WellFormed, SameContent;
    ImageBounds(g, z, f);
    if L1Entry(g, f, i) == 0 {
      var t, f' := RoundUp(|f|, g.clusterSize), WithTable(g, f, i);
      RoomForTable(g, f, i);
      WithTableBytes(g, f, i);
      ZeroWords(f', t, g.l2Size);
      NewTableStep(g, z, f, f', i, t);
      ChangeKeepsHeader(g, f, f', g.l1TableOffset + 8 * i, g.l1TableOffset + 8 * i + 8);
      RoomyWithTable(g, f, f', i);
    } else {
      WithTableIdle(g, f, i);
      NothingChanges(g, z, f);
    }
  }

  lemma RoomForTable(g: Geometry, f: seq<byte>, i: nat)
    requires Roomy(g, f) && i < g.l1Size && g.l2Size > 0 && L1Entry(g, f, i) == 0
    ensures |f| + TableCost(g) <= COMPRESSED
  {
    hide L1Entry, ClusterWord, Roomy, Total;
    RoomForOne(g, f, i, 0);
  }

  lemma NothingChanges(g: Geometry, z: Codec, f: seq<byte>)
    requires g.Shape() && g.l1TableOffset <= |f|
    ensures HeaderKeeps(g, f, f)
    ensures forall n: nat, m: nat :: InMap(g, n, m) ==> SameContent(g, z, f, f, ClusterWord(g, f, n, m))
  {
    hide ClusterWord, WordByte;
  }

  lemma WithTableMade(g: Geometry, f: seq<byte>, i: nat)
    requires g.clusterSize > 0 && L1Entry(g, f, i) == 0
    ensures var t := RoundUp(|f|, g.clusterSize);
            WithTable(g, f, i) ==
            Written(Written(f, g.l1TableOffset + 8 * i, EncodeBE(t, 8)), t, Zeros(8 * g.l2Size))
  {}

  lemma WithTableIdle(g: Geometry, f: seq<byte>, i: nat)
    requires g.clusterSize > 0 && L1Entry(g, f, i) != 0
    ensures WithTable(g, f, i) == f
  {}

  // ------------------------------------------------------------ allocating a cluster

  function WithEntry(g: Geometry, f: seq<byte>, i: nat, j: nat, w: nat): seq<byte>
  {
    Written(f, EntryAddr(g, f, i, j), EncodeBE(w, 8))
  }

  /** The file after get_cluster_offset(allocate = 1) (block-qcow.c:199-291);
      whole says that the caller will overwrite the entire cluster. */
  function Allocated(g: Geometry, z: Codec, f: seq<byte>, i: nat, j: nat, whole: bool): seq<byte>
    requires g.clusterSize > 0
  {
    var f1 := WithTable(g, f, i);
    var w := ClusterWord(g, f1, i, j);
    if 0 < w < COMPRESSED then f1
    else WithEntry(g, WithCluster(g, z, f1, w, whole), i, j, RoundUp(|f1|, g.clusterSize))
  }

  /** Room for the new cluster, filled with the old content where it is needed. */
  function WithCluster(g: Geometry, z: Codec, f: seq<byte>, w: nat, whole: bool): seq<byte>
    requires g.clusterSize > 0
  {
    var off := RoundUp(|f|, g.clusterSize);
    if w >= COMPRESSED && !whole && Expand(g, z, f, w).Some?
    then Written(f, off, Expand(g, z, f, w).value)
    else Truncated(f, off + g.clusterSize)
  }

  lemma WithClusterCopies(g: Geometry, z: Codec, f: seq<byte>, w: nat, whole: bool)
    requires g.clusterSize > 0 && w >= COMPRESSED && !whole && Expand(g, z, f, w).Some?
    ensures WithCluster(g, z, f, w, whole) == Written(f, RoundUp(|f|, g.clusterSize), Expand(g, z, f, w).value)
  {}

  lemma WithClusterExtends(g: Geometry, z: Codec, f: seq<byte>, w: nat, whole: bool)
    requires g.clusterSize > 0 && (w == 0 || whole)
    ensures WithCluster(g, z, f, w, whole) == Truncated(f, RoundUp(|f|, g.clusterSize) + g.clusterSize)
  {}

  /** What a fresh cluster holds when its entry was w: nothing if it is about to
      be overwritten or was unallocated, else the decompressed old content. */
  ghost predicate FreshContent(g: Geometry, z: Codec, f: seq<byte>, w: nat, whole: bool,
                               f': seq<byte>, w': nat)
    requires g.clusterSize > 0
  {
    forall base: Option<seq<byte>>, r: nat, k: nat :: r < g.clusterSize ==>
      WordByte(g, z, base, f', w', r, k) ==
      if whole then 0 else WordByte(g, z, None, f, w, r, k)
  }

  lemma WithClusterEffect(g: Geometry, z: Codec, f: seq<byte>, w: nat, whole: bool)
    requires g.Shape() && Expands(g, z, f, w) && (w == 0 || w >= COMPRESSED)
    requires 0 < |f| && |f| + 2 * g.clusterSize <= COMPRESSED
    ensures var f', off := WithCluster(g, z, f, w, whole), RoundUp(|f|, g.clusterSize);
            && 0 < off < COMPRESSED
            && |f'| == off + g.clusterSize
            && ChangedOnly(f, f', |f|, |f|)
            && FreshContent(g, z, f, w, whole, f', off)
  {
    hide WordExtent, Expand, Written, Truncated;
    if w >= COMPRESSED && !whole {
      CopiedEffect(g, z, f, w);
    } else {
      WithClusterExtends(g, z, f, w, whole);
      ExtendedEffect(g, z, f, w, whole);
    }
  }

  lemma CopiedEffect(g: Geometry, z: Codec, f: seq<byte>, w: nat)
    requires g.Shape() && Expands(g, z, f, w) && w >= COMPRESSED
    requires 0 < |f| && |f| + 2 * g.clusterSize <= COMPRESSED
    ensures var f', off := WithCluster(g, z, f, w, false), RoundUp(|f|, g.clusterSize);
            && 0 < off < COMPRESSED
            && |f'| == off + g.clusterSize
            && ChangedOnly(f, f', |f|, |f|)
            && FreshContent(g, z, f, w, false, f', off)
  {
    hide WordExtent, Expand, Written;
    var f', off := WithCluster(g, z, f, w, false), RoundUp(|f|, g.clusterSize);
    var d := Expand(g, z, f, w).value;
    AppendEffect(f, off, d);
    forall r: nat | r < g.clusterSize
      ensures ByteAt(f', off + r) == d[r]
    {
      assert f'[off..off + g.clusterSize][r] == f'[off + r];
    }
  }

  lemma ExtendedEffect(g: Geometry, z: Codec, f: seq<byte>, w: nat, whole: bool)
    requires g.Shape() && (w == 0 || whole)
    requires 0 < |f| && |f| + 2 * g.clusterSize <= COMPRESSED
    ensures var off := RoundUp(|f|, g.clusterSize);
            var f' := Truncated(f, off + g.clusterSize);
            && 0 < off < COMPRESSED
            && |f'| == off + g.clusterSize
            && ChangedOnly(f, f', |f|, |f|)
            && FreshContent(g, z, f, w, whole, f', off)
  {
    hide WordExtent, Expand;
    var off := RoundUp(|f|, g.clusterSize);
    assert Truncated(f, off + g.clusterSize) == f + Zeros(off + g.clusterSize - |f|);
  }

  /** What allocation with allocate = 1 promises about cluster (i, j). */
  ghost predicate AllocationOk(g: Geometry, z: Codec, f: seq<byte>, i: nat, j: nat, whole: bool, f': seq<byte>)
    requires g.clusterSize > 0
  {
    var w, w' := ClusterWord(g, f, i, j), ClusterWord(g, f', i, j);
    && WellFormed(g, z, f') && Roomy(g, f') && Total(g, f') <= Total(g, f)
    && |f| <= |f'|
    && HeaderKeeps(g, f, f')
    && 0 < w' < COMPRESSED
    && L1Entry(g, f', i) != 0
    && (forall n: nat :: n < g.l1Size && n != i ==> L1Entry(g, f', n) == L1Entry(g, f, n))
    && (forall n: nat, m: nat :: InMap(g, n, m) && (n, m) != (i, j) ==>
          && ClusterWord(g, f', n, m) == ClusterWord(g, f, n, m)
          && SameContent(g, z, f, f', ClusterWord(g, f, n, m)))
    && (if 0 < w < COMPRESSED
        then w' == w && SameContent(g, z, f, f', w)
        else |f| <= w' && w' % g.clusterSize == 0 && FreshContent(g, z, f, w, whole, f', w'))
  }

  lemma ContentChain(g: Geometry, z: Codec, f: seq<byte>, f1: seq<byte>, f2: seq<byte>)
    requires g.Shape()
    requires forall n: nat, m: nat :: InMap(g, n, m) ==>
               && ClusterWord(g, f1, n, m) == ClusterWord(g, f, n, m)
               && SameContent(g, z, f, f1, ClusterWord(g, f, n, m))
    requires forall n: nat, m: nat :: InMap(g, n, m) ==>
               SameContent(g, z, f1, f2, ClusterWord(g, f1, n, m))
    ensures forall n: nat, m: nat :: InMap(g, n, m) ==>
              SameContent(g, z, f, f2, ClusterWord(g, f, n, m))
  {
    hide WordByte, ClusterWord;
    forall n: nat, m: nat, base: Option<seq<byte>>, r: nat, k: nat | InMap(g, n, m) && r < g.clusterSize
      ensures WordByte(g, z, base, f2, ClusterWord(g, f, n, m), r, k) ==
              WordByte(g, z, base, f, ClusterWord(g, f, n, m), r, k)
    {
      assert SameContent(g, z, f, f1, ClusterWord(g, f, n, m));
      assert SameContent(g, z, f1, f2, ClusterWord(g, f1, n, m));
      assert WordByte(g, z, base, f1, ClusterWord(g, f, n, m), r, k) ==
             WordByte(g, z, base, f, ClusterWord(g, f, n, m), r, k);
    }
  }

  /** The bytes that change when a fresh cluster is made and entered. */
  lemma ClusterBytes(g: Geometry, z: Codec, f: seq<byte>, i: nat, j: nat, w: nat, whole: bool)
    requires g.Shape() && g.L1End() <= |f| && i < g.l1Size
    requires Expands(g, z, f, w) && (w == 0 || w >= COMPRESSED)
    requires EntryAddr(g, f, i, j) + 8 <= |f| && g.L1End() <= EntryAddr(g, f, i, j)
    requires |f| + 2 * g.clusterSize <= COMPRESSED
    ensures var off, a := RoundUp(|f|, g.clusterSize), EntryAddr(g, f, i, j);
            var f' := WithEntry(g, WithCluster(g, z, f, w, whole), i, j, off);
            && 0 < off < COMPRESSED
            && |f'| == off + g.clusterSize
            && ChangedOnly(f, f', a, a + 8)
            && HoldsAt(f', a, EncodeBE(off, 8))
            && Word(f', a) == off
            && FreshContent(g, z, f, w, whole, f', off)
  {
    hide WordExtent, Expand, FreshContent, WithCluster, EncodeBE, DecodeBE, Written;
    var off, a := RoundUp(|f|, g.clusterSize), EntryAddr(g, f, i, j);
    var f2 := WithCluster(g, z, f, w, whole);
    WithClusterEffect(g, z, f, w, whole);
    SliceKeeps(f, f2, |f|, |f|, g.l1TableOffset + 8 * i, 8);
    var f' := WithEntry(g, f2, i, j, off);
    WordWriteEffect(f2, a, off);
    FreshKeeps(g, z, f, w, whole, f2, f', off, a);
  }

  /** The fresh cluster and its entry, once the table exists. */
  lemma ClusterStep(g: Geometry, z: Codec, f: seq<byte>, i: nat, j: nat, whole: bool)
    requires WellFormed(g, z, f) && InMap(g, i, j) && L1Entry(g, f, i) != 0
    requires ClusterWord(g, f, i, j) == 0 || ClusterWord(g, f, i, j) >= COMPRESSED
    requires |f| + 2 * g.clusterSize <= COMPRESSED
    ensures var off := RoundUp(|f|, g.clusterSize);
            var f2 := WithCluster(g, z, f, ClusterWord(g, f, i, j), whole);
            var f' := WithEntry(g, f2, i, j, off);
            && |f'| == off + g.clusterSize
            && 0 < off < COMPRESSED
            && ChangedOnly(f, f', EntryAddr(g, f, i, j), EntryAddr(g, f, i, j) + 8)
            && HoldsAt(f', EntryAddr(g, f, i, j), EncodeBE(off, 8))
            && WellFormed(g, z, f')
            && (forall n: nat :: n < g.l1Size ==> L1Entry(g, f', n) == L1Entry(g, f, n))
            && ClusterWord(g, f', i, j) == off
            && FreshContent(g, z, f, ClusterWord(g, f, i, j), whole, f', off)
            && (forall n: nat, m: nat :: InMap(g, n, m) && (n, m) != (i, j) ==>
                  ClusterWord(g, f', n, m) == ClusterWord(g, f, n, m))
            && (forall n: nat, m: nat :: InMap(g, n, m) ==>
                  SameContent(g, z, f, f', ClusterWord(g, f, n, m)))
  {
    hide WellFormed, SameContent, FreshContent, WithCluster, WithEntry, Expand;
    ImageBounds(g, z, f);
    var w, off := ClusterWord(g, f, i, j), RoundUp(|f|, g.clusterSize);
    ClusterInside(g, z, f, i, j);
    TableInside(g, z, f, i);
    ClusterBytes(g, z, f, i, j, w, whole);
    var f' := WithEntry(g, WithCluster(g, z, f, w, whole), i, j, off);
    AttachStep(g, z, f, f', i, j, off);
  }

  lemma FreshKeeps(g: Geometry, z: Codec, f: seq<byte>, w: nat, whole: bool,
                   f2: seq<byte>, f': seq<byte>, off: nat, a: nat)
    requires g.Shape() && 0 < off < COMPRESSED
    requires ChangedOnly(f2, f', a, a + 8) && a + 8 <= off && off + g.clusterSize <= |f2|
    requires FreshContent(g, z, f, w, whole, f2, off)
    ensures FreshContent(g, z, f, w, whole, f', off)
  {
    forall base: Option<seq<byte>>, r: nat, k: nat | r < g.clusterSize
      ensures WordByte(g, z, base, f', off, r, k) == if whole then 0 else WordByte(g, z, None, f, w, r, k)
    {
      assert WordByte(g, z, base, f2, off, r, k) == f2[off + r];
    }
  }

  /** get_cluster_offset(allocate = 1) maps exactly one cluster, to aligned fresh
      space unless it already had a normal cluster, and keeps the image sound. */
  lemma AllocatedSound(g: Geometry, z: Codec, f: seq<byte>, i: nat, j: nat, whole: bool)
    requires WellFormed(g, z, f) && InMap(g, i, j) && Roomy(g, f)
    ensures AllocationOk(g, z, f, i, j, whole, Allocated(g, z, f, i, j, whole))
  {
    hide WellFormed, SameContent, WithTable, WithCluster, WithEntry, Roomy, Total;
    ImageBounds(g, z, f);
    WithTableStep(g, z, f, i);
    var f1 := WithTable(g, f, i);
    var w := ClusterWord(g, f1, i, j);
    var f' := Allocated(g, z, f, i, j, whole);
    if 0 < w < COMPRESSED {
    } else {
      RoomForOne(g, f1, i, j);
      ClusterStep(g, z, f1, i, j, whole);
      RoomyWithEntry(g, f1, f', i, j);
      ImageBounds(g, z, f1);
      TableInside(g, z, f1, i);
      ChangeKeepsHeader(g, f1, f', EntryAddr(g, f1, i, j), EntryAddr(g, f1, i, j) + 8);
      ContentChain(g, z, f, f1, f');
      FreshChain(g, z, f, f1, w, whole, f', RoundUp(|f1|, g.clusterSize));
    }
  }

  lemma FreshChain(g: Geometry, z: Codec, f: seq<byte>, f1: seq<byte>, w: nat, whole: bool,
                   f': seq<byte>, w': nat)
    requires g.Shape() && SameContent(g, z, f, f1, w) && FreshContent(g, z, f1, w, whole, f', w')
    ensures FreshContent(g, z, f, w, whole, f', w')
  {
    hide WordByte;
    forall base: Option<seq<byte>>, r: nat, k: nat | r < g.clusterSize
      ensures WordByte(g, z, base, f', w', r, k) == if whole then 0 else WordByte(g, z, None, f, w, r, k)
    {
      assert WordByte(g, z, None, f1, w, r, k) == WordByte(g, z, None, f, w, r, k);
    }
  }

  // ------------------------------------------------------------ compressed clusters

  /** The file after get_cluster_offset(allocate = 2): an unmapped cluster gets an
      entry pointing at the current end of the file (block-qcow.c:274-283). */
  function Reserved(g: Geometry, f: seq<byte>, i: nat, j: nat, size: nat): seq<byte>
    requires g.Opened()
  {
    var f1 := WithTable(g, f, i);
    if ClusterWord(g, f1, i, j) != 0 then f1
    else WithEntry(g, f1, i, j, PackCompressed(g, |f1|, size))
  }

  /** What storing the compressed stream d in an unmapped cluster promises. */
  ghost predicate StoredOk(g: Geometry, z: Codec, f: seq<byte>, i: nat, j: nat, content: seq<byte>, f': seq<byte>)
    requires g.clusterSize > 0
  {
    var w' := ClusterWord(g, f', i, j);
    && WellFormed(g, z, f') && Roomy(g, f') && Total(g, f') <= Total(g, f)
    && |f| <= |f'|
    && HeaderKeeps(g, f, f')
    && w' >= COMPRESSED
    && |f| <= WordExtent(g, w').off
    && Expand(g, z, f', w') == Some(content)
    && (forall n: nat, m: nat :: InMap(g, n, m) && (n, m) != (i, j) ==>
          && ClusterWord(g, f', n, m) == ClusterWord(g, f, n, m)
          && SameContent(g, z, f, f', ClusterWord(g, f, n, m)))
  }

  /** The bytes that change when a compressed stream d is entered and stored. */
  lemma StreamBytes(g: Geometry, f: seq<byte>, i: nat, j: nat, d: seq<byte>)
    requires g.Opened() && g.L1End() <= |f| && i < g.l1Size
    requires L1Entry(g, f, i) != 0
    requires EntryAddr(g, f, i, j) + 8 <= |f| && g.L1End() <= EntryAddr(g, f, i, j)
    requires 0 < |d| < g.clusterSize && |f| < g.Limit()
    ensures var w, a := PackCompressed(g, |f|, |d|), EntryAddr(g, f, i, j);
            var f2 := WithEntry(g, f, i, j, w);
            var f' := Written(f2, |f2|, d);
            && COMPRESSED <= w && WordExtent(g, w) == Extent(|f|, |d|)
            && |f2| == |f| && ClusterWord(g, f2, i, j) == w
            && |f'| == |f| + |d|
            && ChangedOnly(f, f', a, a + 8)
            && Word(f', a) == w
            && HoldsAt(f', |f|, d)
  {
    hide PackCompressed, EntryOffset, EntrySize, WordExtent, Pow2, EncodeBE, DecodeBE, Written;
    var w, a := PackCompressed(g, |f|, |d|), EntryAddr(g, f, i, j);
    PackUnpack(g, |f|, |d|);
    var f2 := WithEntry(g, f, i, j, w);
    WordWriteEffect(f, a, w);
    SliceKeeps(f, f2, a, a + 8, g.l1TableOffset + 8 * i, 8);
    AppendEffect(f2, |f2|, d);
    var f' := Written(f2, |f2|, d);
    SliceKeeps(f2, f', |f2|, |f2|, a, 8);
  }

  /** The compressed stream and its entry, once the table exists. */
  lemma StreamStep(g: Geometry, z: Codec, f: seq<byte>, i: nat, j: nat, content: seq<byte>, d: seq<byte>)
    requires g.Opened() && WellFormed(g, z, f) && InMap(g, i, j)
    requires L1Entry(g, f, i) != 0
    requires Inflate(z, d, g.clusterSize) == Some(content) && |content| == g.clusterSize
    requires 0 < |d| < g.clusterSize && |f| < g.Limit() && |f| + |d| <= COMPRESSED
    ensures var f2 := WithEntry(g, f, i, j, PackCompressed(g, |f|, |d|));
            var f' := Written(f2, |f2|, d);
            && WordExtent(g, ClusterWord(g, f2, i, j)) == Extent(|f2|, |d|)
            && ClusterWord(g, f2, i, j) >= COMPRESSED
            && |f2| == |f|
            && |f'| == |f| + |d|
            && HeaderKeeps(g, f, f')
            && WellFormed(g, z, f')
            && ClusterWord(g, f', i, j) == ClusterWord(g, f2, i, j)
            && Expand(g, z, f', ClusterWord(g, f', i, j)) == Some(content)
            && (forall n: nat :: n < g.l1Size ==> L1Entry(g, f', n) == L1Entry(g, f, n))
            && (forall n: nat, m: nat :: InMap(g, n, m) && (n, m) != (i, j) ==>
                  ClusterWord(g, f', n, m) == ClusterWord(g, f, n, m))
            && (forall n: nat, m: nat :: InMap(g, n, m) ==>
                  SameContent(g, z, f, f', ClusterWord(g, f, n, m)))
  {
    hide WellFormed, SameContent, WordExtent, PackCompressed, WithEntry, Pow2, Written, DecodeBE;
    ImageBounds(g, z, f);
    TableInside(g, z, f, i);
    StreamBytes(g, f, i, j, d);
    var w := PackCompressed(g, |f|, |d|);
    AttachStep(g, z, f, Written(WithEntry(g, f, i, j, w), |f|, d), i, j, w);
    ChangeKeepsHeader(g, f, Written(WithEntry(g, f, i, j, w), |f|, d), EntryAddr(g, f, i, j), EntryAddr(g, f, i,
                      j) + 8);
  }

  lemma RoundTrips(z: Codec, x: seq<byte>)
    requires Lossless(z)
    ensures |Deflate(z, x)| > 0 && Inflate(z, Deflate(z, x), |x|) == Some(x)
  {}

  /** A compressed write to an unmapped cluster: its stream inflates back to the
      original, and no other cluster changes. */
  lemma CompressedSound(g: Geometry, z: Codec, f: seq<byte>, i: nat, j: nat, content: seq<byte>)
    requires g.Opened() && Lossless(z)
    requires WellFormed(g, z, f) && Roomy(g, f) && InMap(g, i, j) && ClusterWord(g, f, i, j) == 0
    requires |content| == g.clusterSize && |Deflate(z, content)| < g.clusterSize
    requires |WithTable(g, f, i)| < g.Limit()
    ensures var d := Deflate(z, content);
            var f1, f2 := WithTable(g, f, i), Reserved(g, f, i, j, |d|);
            && |f2| == |f1|
            && WordExtent(g, ClusterWord(g, f2, i, j)) == Extent(|f1|, |d|)
            && ClusterWord(g, f2, i, j) >= COMPRESSED
            && ClusterWord(g, Written(f2, |f2|, d), i, j) == ClusterWord(g, f2, i, j)
            && StoredOk(g, z, f, i, j, content, Written(f2, |f2|, d))
  {
    hide Lossless, WellFormed, SameContent, WithTable, WordExtent, PackCompressed, WithEntry, Pow2, Written, Word,
         Expand, Roomy, Total;
    ImageBounds(g, z, f);
    RoundTrips(z, content);
    var d := Deflate(z, content);
    WithTableStep(g, z, f, i);
    var f1 := WithTable(g, f, i);
    RoomForOne(g, f1, i, j);
    StreamStep(g, z, f1, i, j, content, d);
    var f' := Written(Reserved(g, f, i, j, |d|), |f1|, d);
    RoomyWithEntry(g, f1, f', i, j);
    ContentChain(g, z, f, f1, f');
  }

  lemma ReservedIdle(g: Geometry, z: Codec, f: seq<byte>, i: nat, j: nat, size: nat)
    requires g.Opened() && ClusterWord(g, f, i, j) != 0
    ensures Reserved(g, f, i, j, size) == f
  {
    hide Geometry.Opened, Pow2;
  }
}
