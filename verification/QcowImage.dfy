/** Creating an image file and reading its header back: qcow_create and the
    header part of qcow_open. */
module QcowImage {
  import opened Arith
  import opened Bytes
  import opened HostFile
  import opened QcowMap
  import opened QcowRoom
  import opened QcowAlloc
  import opened QcowCache
  import opened QcowDisk
  import opened Qcow

  const MAGIC: nat := 0x5146_49fb
  const VERSION: nat := 1
  const CRYPT_AES: nat := 1
  const HEADER_SIZE: nat := 48

  /** struct QCowHeader; two padding bytes follow l2_bits. */
  datatype Header = Header(magic: nat, version: nat, backingOffset: nat, backingSize: nat, mtime: nat,
                           size: nat, clusterBits: nat, l2Bits: nat, crypt: nat, l1TableOffset: nat)
  {
    /** Every field fits its width in the struct. */
    predicate Fits() {
      && magic < 0x1_0000_0000 && version < 0x1_0000_0000
      && backingOffset < WORD_LIMIT && backingSize < 0x1_0000_0000 && mtime < 0x1_0000_0000
      && size < WORD_LIMIT && clusterBits < 256 && l2Bits < 256
      && crypt < 0x1_0000_0000 && l1TableOffset < WORD_LIMIT
    }
  }

  function WriteHeader(h: Header): (b: seq<byte>)
    ensures |b| == HEADER_SIZE
  {
    EncodeBE(h.magic, 4) + EncodeBE(h.version, 4) + EncodeBE(h.backingOffset, 8)
    + EncodeBE(h.backingSize, 4) + EncodeBE(h.mtime, 4) + EncodeBE(h.size, 8)
    + [h.clusterBits % 256, h.l2Bits % 256, 0, 0]
    + EncodeBE(h.crypt, 4) + EncodeBE(h.l1TableOffset, 8)
  }

  function ReadHeader(b: seq<byte>): Header
    requires |b| == HEADER_SIZE
  {
    Header(DecodeBE(b[0..4]), DecodeBE(b[4..8]), DecodeBE(b[8..16]), DecodeBE(b[16..20]), DecodeBE(b[20..24]),
           DecodeBE(b[24..32]), b[32], b[33], DecodeBE(b[36..40]), DecodeBE(b[40..48]))
  }

  lemma FirstFields(a: seq<byte>, b: seq<byte>, c: seq<byte>, d: seq<byte>, e: seq<byte>)
    requires |a| == |b| == |d| == |e| == 4 && |c| == 8
    ensures var s := a + b + c + d + e;
            s[0..4] == a && s[4..8] == b && s[8..16] == c && s[16..20] == d && s[20..24] == e
  {}

  lemma LastFields(a: seq<byte>, b: seq<byte>, c: seq<byte>, d: seq<byte>)
    requires |a| == |d| == 8 && |b| == |c| == 4
    ensures var s := a + b + c + d;
            s[0..8] == a && s[8..12] == b && s[12..16] == c && s[16..24] == d
  {}

  lemma HeaderRoundTrip(h: Header)
    requires h.Fits()
    ensures ReadHeader(WriteHeader(h)) == h
  {
    hide EncodeBE, DecodeBE;
    var b, bits := WriteHeader(h), [h.clusterBits, h.l2Bits, 0, 0];
    var lo := EncodeBE(h.magic, 4) + EncodeBE(h.version, 4) + EncodeBE(h.backingOffset, 8) +
              EncodeBE(h.backingSize, 4) + EncodeBE(h.mtime, 4);
    var hi := EncodeBE(h.size, 8) + bits + EncodeBE(h.crypt, 4) + EncodeBE(h.l1TableOffset, 8);
    FirstFields(EncodeBE(h.magic, 4), EncodeBE(h.version, 4), EncodeBE(h.backingOffset, 8),
                EncodeBE(h.backingSize, 4), EncodeBE(h.mtime, 4));
    LastFields(EncodeBE(h.size, 8), bits, EncodeBE(h.crypt, 4), EncodeBE(h.l1TableOffset, 8));
    assert b == lo + hi;
    HeaderHalves(lo, hi);
    DecodeFields(h);
  }

  lemma HeaderHalves(lo: seq<byte>, hi: seq<byte>)
    requires |lo| == |hi| == 24
    ensures var b := lo + hi;
            && b[0..4] == lo[0..4] && b[4..8] == lo[4..8] && b[8..16] == lo[8..16]
            && b[16..20] == lo[16..20] && b[20..24] == lo[20..24]
            && b[24..32] == hi[0..8] && b[36..40] == hi[12..16] && b[40..48] == hi[16..24]
            && b[32] == hi[8..12][0] && b[33] == hi[8..12][1]
  {
    SliceOfSum(lo, hi, 0, 4);
    SliceOfSum(lo, hi, 4, 8);
    SliceOfSum(lo, hi, 8, 16);
    SliceOfSum(lo, hi, 16, 20);
    SliceOfSum(lo, hi, 20, 24);
    SliceOfSum(lo, hi, 0, 8);
    SliceOfSum(lo, hi, 12, 16);
    SliceOfSum(lo, hi, 16, 24);
  }

  lemma DecodeFields(h: Header)
    requires h.Fits()
    ensures DecodeBE(EncodeBE(h.magic, 4)) == h.magic && DecodeBE(EncodeBE(h.version, 4)) == h.version
    ensures DecodeBE(EncodeBE(h.backingOffset, 8)) == h.backingOffset
    ensures DecodeBE(EncodeBE(h.backingSize, 4)) == h.backingSize && DecodeBE(EncodeBE(h.mtime, 4)) == h.mtime
    ensures DecodeBE(EncodeBE(h.size, 8)) == h.size && DecodeBE(EncodeBE(h.crypt, 4)) == h.crypt
    ensures DecodeBE(EncodeBE(h.l1TableOffset, 8)) == h.l1TableOffset
  {
    Pow256Values();
    DecodeEncode(h.magic, 4);
    DecodeEncode(h.version, 4);
    DecodeEncode(h.backingOffset, 8);
    DecodeEncode(h.backingSize, 4);
    DecodeEncode(h.mtime, 4);
    DecodeEncode(h.size, 8);
    DecodeEncode(h.crypt, 4);
    DecodeEncode(h.l1TableOffset, 8);
  }

  // ------------------------------------------------------------ qcow_open

  /** (size + (1 << shift) - 1) >> shift */
  function L1SizeFor(size: nat, shift: nat): nat
  {
    (size + Pow2(shift) - 1) / Pow2(shift)
  }

  /** The conversion to a C int. */
  function IntOf(n: nat): int
  {
    var m := n % 0x1_0000_0000;
    if m < 0x8000_0000 then m else m - 0x1_0000_0000
  }

  /** What qcow_open makes of the size in 64 bits, as the C int l1_size. */
  function L1Read(h: Header): int
  {
    IntOf((h.size + Pow2(h.clusterBits + h.l2Bits) - 1) % WORD_LIMIT / Pow2(h.clusterBits + h.l2Bits))
  }

  lemma L1ReadIs(h: Header)
    requires h.size + Pow2(h.clusterBits + h.l2Bits) <= WORD_LIMIT
    requires L1SizeFor(h.size, h.clusterBits + h.l2Bits) < 0x8000_0000
    ensures L1Read(h) == L1SizeFor(h.size, h.clusterBits + h.l2Bits)
  {
    hide Pow2;
    SmallMod(h.size + Pow2(h.clusterBits + h.l2Bits) - 1, WORD_LIMIT);
  }

  function GeometryOf(h: Header): Geometry
    requires 9 <= h.clusterBits <= 30
  {
    Geometry(h.clusterBits, Pow2(h.clusterBits), Pow2(h.clusterBits - 9),
             h.l2Bits, Pow2(h.l2Bits), if L1Read(h) < 0 then 0 else L1Read(h),
             Pow2(63 - h.clusterBits) - 1, h.l1TableOffset)
  }

  datatype Opened = Opened(g: Geometry, totalSectors: nat, backingName: seq<byte>)

  /** qcow_open on the bytes of a file: None is its fail path. The L1 table is read
      with an int as the count of bytes, so a longer one is refused. The shifts and the
      size of the L2 cache are C's only for cluster_bits up to 30 and l2_bits up to 26. */
  function OpenHeader(f: seq<byte>): Option<Opened>
    requires |f| >= HEADER_SIZE ==> f[32] <= 30 && f[33] <= 26
  {
    if |f| < HEADER_SIZE then None
    else
      var h := ReadHeader(f[..HEADER_SIZE]);
      if h.magic != MAGIC || h.version != VERSION then None
      else if h.size <= 1 || h.clusterBits < 9 then None
      else if h.crypt > CRYPT_AES then None
      else if L1Read(h) < 0 || 8 * L1Read(h) >= 0x8000_0000 then None
      else
        var g := GeometryOf(h);
        var len := if h.backingSize > 1023 then 1023 else h.backingSize;
        if g.l1TableOffset + 8 * g.l1Size > |f| then None
        else if h.backingOffset == 0 then Some(Opened(g, h.size / 512, []))
        else if h.backingOffset + len > |f| then None
        else Some(Opened(g, h.size / 512, f[h.backingOffset..h.backingOffset + len]))
  }

  // ------------------------------------------------------------ qcow_create

  function HeaderFor(totalSize: nat, backing: Option<seq<byte>>, encrypted: bool): Header
  {
    var nameLen := if backing.Some? then |backing.value| else 0;
    Header(MAGIC, VERSION, if backing.Some? then HEADER_SIZE else 0, nameLen, 0, totalSize * 512,
           if backing.Some? then 9 else 12, if backing.Some? then 12 else 9,
           if encrypted then CRYPT_AES else 0, (HEADER_SIZE + nameLen + 7) / 8 * 8)
  }

  function NameBytes(backing: Option<seq<byte>>): seq<byte>
  {
    if backing.Some? then backing.value else []
  }

  /** What an int header size and an int l1_size, at 2 MB an entry, can hold. */
  predicate Writable(totalSize: nat, backing: Option<seq<byte>>)
  {
    L1SizeFor(totalSize * 512, 21) < 0x8000_0000 && (backing.Some? ==> |backing.value| < 0x4000_0000)
  }

  /** The same with a table that qcow_open can read. */
  predicate Creatable(totalSize: nat, backing: Option<seq<byte>>)
  {
    L1SizeFor(totalSize * 512, 21) < 0x1000_0000 && (backing.Some? ==> |backing.value| < 0x4000_0000)
  }

  /** The entries qcow_create writes: l1_size is a C int, none if it is negative. */
  function Entries(totalSize: nat, h: Header): (n: nat)
  {
    var n := IntOf(L1SizeFor(totalSize * 512, h.clusterBits + h.l2Bits));
    if n < 0 then 0 else n
  }

  lemma EntriesFit(totalSize: nat, backing: Option<seq<byte>>, encrypted: bool)
    requires Writable(totalSize, backing)
    ensures var h := HeaderFor(totalSize, backing, encrypted);
            && h.clusterBits + h.l2Bits == 21
            && Entries(totalSize, h) == L1SizeFor(totalSize * 512, 21) == L1Read(h)
            && GeometryOf(h).l1Size == L1SizeFor(totalSize * 512, 21)
  {
    hide L1SizeFor, Pow2, IntOf, L1Read;
    CreatableSize(totalSize, backing);
    CreateShift(backing, totalSize, encrypted);
    IntFits(L1SizeFor(totalSize * 512, 21));
    L1ReadIs(HeaderFor(totalSize, backing, encrypted));
  }

  lemma IntFits(n: nat)
    requires n < 0x8000_0000
    ensures IntOf(n) == n
  {}

  /** The file qcow_create leaves: header, backing name, padding, zero L1 table. */
  function CreatedFile(totalSize: nat, backing: Option<seq<byte>>, encrypted: bool): seq<byte>
  {
    var h := HeaderFor(totalSize, backing, encrypted);
    var front := WriteHeader(h) + NameBytes(backing);
    var n := Entries(totalSize, h);
    if n == 0 then front else front + Zeros(h.l1TableOffset - |front|) + Zeros(8 * n)
  }

  /** qcow_create: the L1 table is written one zero entry at a time, after a seek
      over the padding. */
  method Create(totalSize: nat, backing: Option<seq<byte>>, encrypted: bool) returns (file: HostFile)
    requires totalSize * 512 < COMPRESSED && (backing.Some? ==> |backing.value| < 0x4000_0000)
    ensures fresh(file)
    ensures file.data == CreatedFile(totalSize, backing, encrypted)
  {
    hide WriteHeader, Pow2, Written, L1SizeFor, Zeros, EncodeBE, WithEntries, IntOf;
    var h := HeaderFor(totalSize, backing, encrypted);
    file := new HostFile([]);
    file.Pwrite(0, WriteHeader(h));
    WrittenAppends([], 0, WriteHeader(h));
    if backing.Some? {
      WrittenAfter(file.data, backing.value);
      file.Pwrite(HEADER_SIZE, backing.value);
    }
    ghost var front := WriteHeader(h) + NameBytes(backing);
    assert file.data == front;
    NoEntries(front, h.l1TableOffset);
    var n := IntOf(L1SizeFor(totalSize * 512, h.clusterBits + h.l2Bits));
    var i := 0;
    while i < n
      invariant 0 <= i && (i <= n || i == 0)
      invariant file.data == WithEntries(front, h.l1TableOffset, i)
    {
      EntryAppends(front, h.l1TableOffset, i);
      file.Pwrite(h.l1TableOffset + 8 * i, Zeros(8));
      i := i + 1;
    }
    AllEntries(front, h.l1TableOffset, i);
  }

  /** The header and name, and the first i entries of an empty table at off. */
  function WithEntries(front: seq<byte>, off: nat, i: nat): seq<byte>
    requires |front| <= off
  {
    if i == 0 then front else front + Zeros(off - |front|) + Zeros(8 * i)
  }

  lemma NoEntries(front: seq<byte>, off: nat)
    requires |front| <= off
    ensures WithEntries(front, off, 0) == front
  {}

  lemma AllEntries(front: seq<byte>, off: nat, n: nat)
    requires |front| <= off
    ensures WithEntries(front, off, n) == if n == 0 then front else front + Zeros(off - |front|) + Zeros(8 * n)
  {}

  lemma EntryAppends(front: seq<byte>, off: nat, i: nat)
    requires |front| <= off
    ensures Written(WithEntries(front, off, i), off + 8 * i, Zeros(8)) == WithEntries(front, off, i + 1)
  {
    hide Written, Zeros;
    var f := WithEntries(front, off, i);
    ZerosSize(off - |front|);
    ZerosSize(8 * i);
    ZerosSize(8);
    WrittenAppends(f, off + 8 * i, Zeros(8));
    ZerosJoin(8 * i, 8);
    if i > 0 {
      assert f + Zeros(0) + Zeros(8) == front + Zeros(off - |front|) + (Zeros(8 * i) + Zeros(8));
    }
  }

  lemma ZerosSize(n: nat)
    ensures |Zeros(n)| == n
  {}

  lemma WrittenAfter(f: seq<byte>, b: seq<byte>)
    ensures Written(f, |f|, b) == f + b
  {}

  lemma ZerosJoin(n: nat, m: nat)
    ensures Zeros(n) + Zeros(m) == Zeros(n + m)
    ensures Zeros(0) == []
  {}

  lemma RoundedDivision(size: nat, d: nat)
    requires d > 0
    ensures size <= (size + d - 1) / d * d < size + d
  {
    DivModFacts(size + d - 1, d);
  }

  lemma CreateShift(backing: Option<seq<byte>>, totalSize: nat, encrypted: bool)
    ensures var h := HeaderFor(totalSize, backing, encrypted);
            Pow2(h.clusterBits + h.l2Bits) == 0x20_0000
  {
    assert Pow2(10) == 1024;
    Pow2Add(10, 10);
    Pow2Add(20, 1);
    assert Pow2(1) == 2;
  }

  lemma CreatableSize(totalSize: nat, backing: Option<seq<byte>>)
    requires Writable(totalSize, backing)
    ensures totalSize * 512 < 0x10_0000_0000_0000
    ensures backing.Some? ==> |backing.value| < 0x4000_0000
  {
    hide Pow2;
    CreateShift(backing, totalSize, false);
    RoundedDivision(totalSize * 512, 0x20_0000);
  }

  /** Opening a created image succeeds, with the geometry qcow_create chose, exactly when
      it has at least one sector and an L1 table of fewer than 2^28 entries. */
  lemma CreatedOpens(totalSize: nat, backing: Option<seq<byte>>, encrypted: bool)
    requires Writable(totalSize, backing)
    ensures var f := CreatedFile(totalSize, backing, encrypted);
            && |f| >= HEADER_SIZE && f[32] <= 30 && f[33] <= 26
            && (OpenHeader(f).Some? <==> totalSize > 0 && Creatable(totalSize, backing))
            && (totalSize > 0 && Creatable(totalSize, backing) ==>
                  && OpenHeader(f).value.g == GeometryOf(HeaderFor(totalSize, backing, encrypted))
                  && OpenHeader(f).value.totalSectors == totalSize
                  && (|NameBytes(backing)| <= 1023 ==> OpenHeader(f).value.backingName == NameBytes(backing)))
  {
    hide WriteHeader, ReadHeader, Pow2, Zeros, Entries, L1Read;
    CreatableSize(totalSize, backing);
    EntriesFit(totalSize, backing, encrypted);
    var h := HeaderFor(totalSize, backing, encrypted);
    var f := CreatedFile(totalSize, backing, encrypted);
    assert f[..HEADER_SIZE] == WriteHeader(h);
    HeaderRoundTrip(h);
    HeaderBits(f);
    CreateShift(backing, totalSize, encrypted);
    RoundedDivision(totalSize * 512, 0x20_0000);
    if totalSize > 0 && backing.Some? {
      assert f[HEADER_SIZE..HEADER_SIZE + |backing.value|] == backing.value;
    }
  }

  lemma HeaderBits(f: seq<byte>)
    requires |f| >= HEADER_SIZE
    ensures f[32] == ReadHeader(f[..HEADER_SIZE]).clusterBits && f[33] == ReadHeader(f[..HEADER_SIZE]).l2Bits
  {}

  /** The geometry of a created image: 2 MB of disk per L1 entry. */
  lemma CreatedGeometry(totalSize: nat, backing: Option<seq<byte>>, encrypted: bool)
    requires Creatable(totalSize, backing) && totalSize > 0
    ensures var g := GeometryOf(HeaderFor(totalSize, backing, encrypted));
            && g.Opened() && g.Shape() && Fills(g) && EmptyTotal(g) <= g.Limit()
            && 512 * totalSize <= Capacity(g)
            && (backing.Some? ==> g.clusterSectors == 1)
  {
    hide Pow2;
    var h := HeaderFor(totalSize, backing, encrypted);
    var g := GeometryOf(h);
    CreateShift(backing, totalSize, encrypted);
    EntriesFit(totalSize, backing, encrypted);
    Pow2Add(h.l2Bits, h.clusterBits);
    RoundedDivision(totalSize * 512, 0x20_0000);
    OpenedShape(g);
    TimesIsProduct(g.l2Size, g.clusterSize);
    TimesIsProduct(g.l1Size, 0x20_0000);
    CreateLimits();
    CreatedFills(g);
  }

  /** 2^28 entries of 2 MB each, all allocated, stay below the offsets of compressed entries. */
  lemma CreatedFills(g: Geometry)
    requires (g.clusterSize == 4096 && g.l2Size == 512) || (g.clusterSize == 512 && g.l2Size == 4096)
    requires g.l1Size < 0x1000_0000 && g.l1TableOffset < 0x8000_0000
    ensures EmptyTotal(g) <= 0x8_0000_0000_0000 && Fills(g)
  {
    TimesIsProduct(g.l2Size, 3 * g.clusterSize);
    TimesIsProduct(g.l1Size, FullRow(g));
    assert FullRow(g) <= 0x70_0000;
    MulMonotone(g.l1Size, 0x1000_0000, FullRow(g));
  }

  lemma CreateLimits()
    ensures Pow2(54) == 0x40_0000_0000_0000 && Pow2(51) == 0x8_0000_0000_0000
    ensures Pow2(0) == 1 && Pow2(9) == 512 && Pow2(12) == 4096
  {
    Pow2Values();
    assert Pow2(3) == 8;
    Pow2Add(9, 3);
    Pow2Add(51, 12);
    Pow2Add(54, 9);
  }

  lemma CreatedTable(totalSize: nat, backing: Option<seq<byte>>, encrypted: bool)
    requires L1SizeFor(totalSize * 512, 21) > 0 && Creatable(totalSize, backing)
    ensures var f := CreatedFile(totalSize, backing, encrypted);
            var g := GeometryOf(HeaderFor(totalSize, backing, encrypted));
            |f| == g.L1End() && HoldsAt(f, g.l1TableOffset, Zeros(8 * g.l1Size))
  {
    hide WriteHeader, Pow2, Entries;
    EntriesFit(totalSize, backing, encrypted);
  }

  /** A created image is sound, has nothing allocated, reaches every sector it
      advertises, and never shares a cluster between a write and its backing. */
  lemma CreatedIsSound(totalSize: nat, backing: Option<seq<byte>>, encrypted: bool, z: Codec, base: Option<seq<byte>>)
    requires Creatable(totalSize, backing) && totalSize > 0
    ensures var f := CreatedFile(totalSize, backing, encrypted);
            var g := GeometryOf(HeaderFor(totalSize, backing, encrypted));
            && g.Opened() && g.Shape() && WellFormed(g, z, f) && |f| == g.L1End()
            && Fills(g) && Roomy(g, f) && Total(g, f) == EmptyTotal(g)
            && 512 * totalSize <= Capacity(g)
            && (backing.Some? || base.None? ==> CowSafe(g, base))
            && (forall k: nat :: Addressable(g, k) ==> WordAt(g, f, k) == 0)
            && (forall k: nat :: k < Capacity(g) ==> Disk(g, z, base, f)[k] == BaseByte(base, k))
  {
    hide WriteHeader, Disk, WellFormed, Capacity, CreatedFile, GeometryOf, Geometry.Opened, DecodeBE, ClusterWord,
         DiskByte, Fills, Roomy, Total;
    var f, g := CreatedFile(totalSize, backing, encrypted), GeometryOf(HeaderFor(totalSize, backing, encrypted));
    CreatedGeometry(totalSize, backing, encrypted);
    CreateShift(backing, totalSize, encrypted);
    RoundedDivision(totalSize * 512, 0x20_0000);
    CreatedTable(totalSize, backing, encrypted);
    ZeroWords(f, g.l1TableOffset, g.l1Size);
    assert forall i: nat :: i < g.l1Size ==> L1Entry(g, f, i) == 0;
    FillsBound(g);
    EmptyIsWellFormed(g, z, f);
    EmptyIsRoomy(g, f);
    EmptyReads(g, z, base, f);
    forall k: nat | k < Capacity(g)
      ensures Disk(g, z, base, f)[k] == BaseByte(base, k)
    {
      CapacityBound(g, k);
    }
  }

  lemma HeaderStart(f: seq<byte>, f': seq<byte>, n: nat, i: nat, j: nat)
    requires i <= j <= n <= |f| && n <= |f'| && f'[..n] == f[..n]
    ensures f'[i..j] == f[i..j]
  {
    SliceOfSlice(f, 0, n, i, j - i);
    SliceOfSlice(f', 0, n, i, j - i);
  }

  /** The geometry of an unencrypted image. */
  function CreatedShape(totalSize: nat, backing: Option<seq<byte>>): Geometry
  {
    GeometryOf(HeaderFor(totalSize, backing, false))
  }

  /** Whatever was written to a created image, closing and opening it again finds
      the same header. */
  lemma CreatedReopens(totalSize: nat, backing: Option<seq<byte>>, encrypted: bool, f': seq<byte>)
    requires Creatable(totalSize, backing) && totalSize > 0
    requires var f := CreatedFile(totalSize, backing, encrypted);
             |f| <= |f'| && HeaderKeeps(GeometryOf(HeaderFor(totalSize, backing, encrypted)), f, f')
    ensures var f := CreatedFile(totalSize, backing, encrypted);
            && f[32] <= 30 && f[33] <= 26 && |f'| >= HEADER_SIZE && f'[32] <= 30 && f'[33] <= 26
            && OpenHeader(f).Some? && OpenHeader(f') == OpenHeader(f)
  {
    hide WriteHeader, Pow2, DecodeBE, EncodeBE, Zeros;
    var f := CreatedFile(totalSize, backing, encrypted);
    var h := HeaderFor(totalSize, backing, encrypted);
    CreatedOpens(totalSize, backing, encrypted);
    CreatableSize(totalSize, backing);
    assert f[..HEADER_SIZE] == WriteHeader(h);
    HeaderRoundTrip(h);
    var n := h.l1TableOffset;
    HeaderStart(f, f', n, 0, HEADER_SIZE);
    HeaderBits(f);
    HeaderBits(f');
    if backing.Some? {
      var len := if h.backingSize > 1023 then 1023 else h.backingSize;
      HeaderStart(f, f', n, HEADER_SIZE, HEADER_SIZE + len);
    }
  }

  /** qcow_open: the driver over an existing file. */
  method Open(file: HostFile, z: Codec, base: Option<seq<byte>>) returns (q: Option<Qcow>)
    requires |file.data| >= HEADER_SIZE ==> file.data[32] <= 30 && file.data[33] <= 26
    requires Lossless(z)
    requires OpenHeader(file.data).Some? ==>
               var g := OpenHeader(file.data).value.g;
               g.Opened() && WellFormed(g, z, file.data) && Fills(g) && Roomy(g, file.data)
    ensures q.Some? <==> OpenHeader(file.data).Some?
    ensures q.Some? ==>
              && q.value.Valid() && q.value.hd == file && q.value.z == z && q.value.base == base
              && q.value.g == OpenHeader(file.data).value.g
              && q.value.clusterCacheOffset == NO_OFFSET
              && fresh(q.value.Repr() - {file})
  {
    hide WellFormed, Geometry.Opened, Fills, Roomy, Total;
    var o := OpenHeader(file.data);
    if o.None? {
      return None;
    }
    var qcow := new Qcow(file, o.value.g, z, base);
    q := Some(qcow);
  }
}
