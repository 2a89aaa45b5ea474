/** The QCOW file format, byte by byte: the header of a created image, which files open
    and with what geometry, and where the bytes of the guest lie. */
module QcowFormat {
  import opened Arith
  import opened Bytes
  import opened QcowMap
  import opened QcowDisk
  import opened QcowImage

  // ------------------------------------------------------------ the header of a created image

  /** The header of a created image, field by field, all numbers big-endian. */
  lemma HeaderBytes(totalSize: nat, backing: Option<seq<byte>>, encrypted: bool)
    requires totalSize * 512 < COMPRESSED && (backing.Some? ==> |backing.value| < 0x4000_0000)
    ensures var f := CreatedFile(totalSize, backing, encrypted);
            var len := if backing.Some? then |backing.value| else 0;
            && |f| >= 48 + len
            && f[0..8] == [0x51, 0x46, 0x49, 0xfb, 0, 0, 0, 1]
            && DecodeBE(f[8..16]) == (if backing.Some? then 48 else 0)
            && DecodeBE(f[16..20]) == len
            && DecodeBE(f[20..24]) == 0
            && DecodeBE(f[24..32]) == 512 * totalSize
            && f[32..36] == (if backing.Some? then [9, 12, 0, 0] else [12, 9, 0, 0])
            && DecodeBE(f[36..40]) == (if encrypted then 1 else 0)
            && (backing.Some? ==> f[48..48 + len] == backing.value)
  {
    hide WriteHeader, ReadHeader, Zeros, Entries, DecodeBE, EncodeBE, Pow2;
    var h, f := HeaderFor(totalSize, backing, encrypted), CreatedFile(totalSize, backing, encrypted);
    assert f[..HEADER_SIZE] == WriteHeader(h);
    HeaderRoundTrip(h);
    HeaderFields(f, h);
    MagicBytes(f);
  }

  lemma HeaderFields(f: seq<byte>, h: Header)
    requires |f| >= 48 && h.Fits() && f[..48] == WriteHeader(h) && ReadHeader(WriteHeader(h)) == h
    ensures DecodeBE(f[0..4]) == h.magic && DecodeBE(f[4..8]) == h.version
    ensures DecodeBE(f[8..16]) == h.backingOffset && DecodeBE(f[16..20]) == h.backingSize
    ensures DecodeBE(f[20..24]) == h.mtime && DecodeBE(f[24..32]) == h.size
    ensures f[32..36] == [h.clusterBits, h.l2Bits, 0, 0]
    ensures DecodeBE(f[36..40]) == h.crypt && DecodeBE(f[40..48]) == h.l1TableOffset
  {
    hide DecodeBE, EncodeBE;
    HeadSlices(f);
    assert WriteHeader(h)[34] == 0 && WriteHeader(h)[35] == 0;
    assert f[..48][32] == f[32] && f[..48][33] == f[33] && f[..48][34] == f[34] && f[..48][35] == f[35];
  }

  lemma HeadSlices(f: seq<byte>)
    requires |f| >= 48
    ensures var b := f[..48];
            && b[0..4] == f[0..4] && b[4..8] == f[4..8] && b[8..16] == f[8..16] && b[16..20] == f[16..20]
            && b[20..24] == f[20..24] && b[24..32] == f[24..32] && b[36..40] == f[36..40] && b[40..48] == f[40..48]
  {
    SliceOfSlice(f, 0, 48, 0, 4);
    SliceOfSlice(f, 0, 48, 4, 4);
    SliceOfSlice(f, 0, 48, 8, 8);
    SliceOfSlice(f, 0, 48, 16, 4);
    SliceOfSlice(f, 0, 48, 20, 4);
    SliceOfSlice(f, 0, 48, 24, 8);
    SliceOfSlice(f, 0, 48, 36, 4);
    SliceOfSlice(f, 0, 48, 40, 8);
  }

  /** The first eight bytes say "QFI", 0xfb, version 1. */
  lemma MagicBytes(f: seq<byte>)
    requires |f| >= 8
    ensures f[0..8] == [0x51, 0x46, 0x49, 0xfb, 0, 0, 0, 1] <==>
            DecodeBE(f[0..4]) == 0x5146_49fb && DecodeBE(f[4..8]) == 1
  {
    hide DecodeBE;
    FourBytes(f[0..4], 0x51, 0x46, 0x49, 0xfb);
    FourBytes(f[4..8], 0, 0, 0, 1);
    assert f[0..8] == f[0..4] + f[4..8];
  }

  lemma FourBytes(s: seq<byte>, a: byte, b: byte, c: byte, d: byte)
    requires |s| == 4
    ensures s == [a, b, c, d] <==>
            DecodeBE(s) == 0x100_0000 * (a as nat) + 0x1_0000 * (b as nat) + 0x100 * (c as nat) + d as nat
  {
    DecodeFourBytes(s);
    DecodeFourBytes([a, b, c, d]);
    EncodeDecode(s);
    EncodeDecode([a, b, c, d]);
  }

  lemma DecodeFourBytes(s: seq<byte>)
    requires |s| == 4
    ensures DecodeBE(s) == 0x100_0000 * (s[0] as nat) + 0x1_0000 * (s[1] as nat) + 0x100 * (s[2] as nat) + s[3] as nat
  {
    assert s[..3][..2] == s[..2] && s[..2][..1] == s[..1];
    assert DecodeBE(s[..1]) == s[0];
    assert DecodeBE(s[..2]) == 256 * (s[0] as nat) + s[1] as nat;
    assert DecodeBE(s[..3]) == 0x1_0000 * (s[0] as nat) + 256 * (s[1] as nat) + s[2] as nat;
  }

  /** Behind header and name come zeros only: padding to a multiple of 8, and an L1 table
      of one entry for every 2 MB of the disk, where the header says it begins. */
  lemma TableBytes(totalSize: nat, backing: Option<seq<byte>>, encrypted: bool)
    requires Writable(totalSize, backing)
    ensures var f := CreatedFile(totalSize, backing, encrypted);
            var len := if backing.Some? then |backing.value| else 0;
            var o, n := DecodeBE(f[40..48]), (totalSize + 4095) / 4096;
            && o % 8 == 0 && 48 + len <= o < 56 + len
            && |f| == (if totalSize == 0 then 48 + len else o + 8 * n)
            && forall i :: 48 + len <= i < |f| ==> f[i] == 0
  {
    hide WriteHeader, ReadHeader, DecodeBE, EncodeBE, Pow2, L1SizeFor, Entries, L1Read;
    var h, f := HeaderFor(totalSize, backing, encrypted), CreatedFile(totalSize, backing, encrypted);
    CreatableSize(totalSize, backing);
    EntriesFit(totalSize, backing, encrypted);
    TwoMegabytes(totalSize);
    assert f[..HEADER_SIZE] == WriteHeader(h);
    HeaderRoundTrip(h);
    HeaderFields(f, h);
  }

  lemma TwoMegabytes(totalSize: nat)
    ensures L1SizeFor(totalSize * 512, 21) == (totalSize + 4095) / 4096
  {
    hide Pow2;
    CreateShift(None, 0, false);
    DivModFacts(totalSize + 4095, 4096);
    var q, r := (totalSize + 4095) / 4096, (totalSize + 4095) % 4096;
    DivModUnique(totalSize * 512 + 0x20_0000 - 1, 0x20_0000, q, 512 * r + 511);
  }

  // ------------------------------------------------------------ which files open

  /** The number of L1 entries that a header asks for, from its size in 64 bits, as the
      low 32 bits of it. */
  function TableEntries(size: nat, bits: nat): nat
  {
    (size + Pow2(bits) - 1) % 0x1_0000_0000_0000_0000 / Pow2(bits) % 0x1_0000_0000
  }

  /** A file that is a QCOW image of version 1, of at least 2 bytes and with clusters of at
      least one sector, unencrypted or encrypted with AES, that holds its L1 table, of
      fewer than 2^28 entries, and as much of its backing name as is read. */
  predicate IsImage(f: seq<byte>)
  {
    && |f| >= 48
    && f[0..8] == [0x51, 0x46, 0x49, 0xfb, 0, 0, 0, 1]
    && DecodeBE(f[24..32]) >= 2 && f[32] >= 9 && DecodeBE(f[36..40]) <= 1
    && TableEntries(DecodeBE(f[24..32]), f[32] as nat + f[33] as nat) < 0x1000_0000
    && DecodeBE(f[40..48]) + 8 * TableEntries(DecodeBE(f[24..32]), f[32] as nat + f[33] as nat) <= |f|
    && (DecodeBE(f[8..16]) == 0 || DecodeBE(f[8..16]) + NameLength(f) <= |f|)
  }

  /** How much of the backing name is read. */
  function NameLength(f: seq<byte>): nat
    requires |f| >= 48
  {
    if DecodeBE(f[16..20]) > 1023 then 1023 else DecodeBE(f[16..20])
  }

  /** qcow_open accepts exactly these files, with the geometry that the fields give. */
  lemma OpensExactly(f: seq<byte>)
    requires |f| >= 48 ==> f[32] <= 30 && f[33] <= 26
    ensures OpenHeader(f).Some? <==> IsImage(f)
    ensures IsImage(f) ==>
              var o, bits := OpenHeader(f).value, (f[32] as nat, f[33] as nat);
              && o.g == Geometry(bits.0, Pow2(bits.0), Pow2(bits.0 - 9), bits.1, Pow2(bits.1),
                                 TableEntries(DecodeBE(f[24..32]), bits.0 + bits.1),
                                 Pow2(63 - bits.0) - 1, DecodeBE(f[40..48]))
              && o.totalSectors == DecodeBE(f[24..32]) / 512
              && o.backingName == (if DecodeBE(f[8..16]) == 0 then []
                                   else f[DecodeBE(f[8..16])..DecodeBE(f[8..16]) + NameLength(f)])
  {
    hide DecodeBE, Pow2;
    if |f| >= 48 {
      HeadSlices(f);
      MagicBytes(f);
      assert f[..48][32] == f[32] && f[..48][33] == f[33];
      var h := ReadHeader(f[..48]);
      TableAsInt(h);
    }
  }

  lemma TableAsInt(h: Header)
    ensures var n := TableEntries(h.size, h.clusterBits + h.l2Bits);
            && (L1Read(h) < 0 || 8 * L1Read(h) >= 0x8000_0000 <==> n >= 0x1000_0000)
            && (n < 0x1000_0000 ==> L1Read(h) == n)
  {
    hide Pow2;
  }

  // ------------------------------------------------------------ where the bytes of the guest lie

  /** The big-endian word of eight bytes at an offset, 0 past the end of the file. */
  function BigWord(f: seq<byte>, at: nat): nat
  {
    if at + 8 <= |f| then DecodeBE(f[at..at + 8]) else 0
  }

  /** The low n bits of k; Shr are the bits above. */
  function Low(k: nat, n: nat): nat
  {
    k % Pow2(n)
  }

  /** The entry of the two-level map for guest byte k: the high bits of k select an entry of
      the L1 table, the middle ones an entry of the L2 table which that names. */
  function MapEntry(f: seq<byte>, l1TableOffset: nat, clusterBits: nat, l2Bits: nat, k: nat): nat
  {
    var table := BigWord(f, l1TableOffset + 8 * Shr(k, clusterBits + l2Bits));
    if table == 0 then 0 else BigWord(f, table + 8 * Low(Shr(k, clusterBits), l2Bits))
  }

  /** Every guest byte, read off the file: an entry 0 leaves it to the backing image, one
      without bit 63 is the offset of the cluster, and one with it names a stream, whose
      offset is in the low bits and whose length is in the clusterBits bits below bit 63. */
  lemma GuestByteIs(g: Geometry, z: Codec, base: Option<seq<byte>>, f: seq<byte>, k: nat)
    requires g.Opened()
    ensures g.Shape()
    ensures var w := MapEntry(f, g.l1TableOffset, g.clusterBits, g.l2Bits, k);
            var off, len := Low(w, 63 - g.clusterBits), Low(Shr(w, 63 - g.clusterBits), g.clusterBits);
            var r := Low(k, g.clusterBits);
            DiskByte(g, z, base, f, k) ==
            if w == 0 then (if base.Some? && k < |base.value| then base.value[k] else 0)
            else if w < 0x8000_0000_0000_0000 then (if w + r < |f| then f[w + r] else 0)
            else if off + len > |f| then 0
            else match z.inflate(f[off..off + len], Pow2(g.clusterBits))
                 case Some(content) => if r < |content| then content[r] else 0
                 case None => 0
  {
    hide Pow2, DecodeBE, Shr;
    OpenedShape(g);
    Pow2Add(g.clusterBits, g.l2Bits);
    ShrIsDiv(k, g.clusterBits + g.l2Bits);
    ShrIsDiv(k, g.clusterBits);
    ShrIsDiv(MapEntry(f, g.l1TableOffset, g.clusterBits, g.l2Bits, k), 63 - g.clusterBits);
    DivDiv(k, g.clusterSize, g.l2Size);
  }
}
