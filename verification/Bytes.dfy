/** Bytes, zero blocks and big-endian words. */
module Bytes {
  type byte = x: int | 0 <= x < 256

  function Zeros(n: nat): (z: seq<byte>)
    ensures |z| == n
    ensures forall i :: 0 <= i < n ==> z[i] == 0
  {
    seq(n, i => 0)
  }

  function Pow256(n: nat): (p: nat)
    ensures p > 0
  {
    if n == 0 then 1 else 256 * Pow256(n - 1)
  }

  /** The number a big-endian byte string denotes. */
  function DecodeBE(s: seq<byte>): nat
  {
    if s == [] then 0 else 256 * DecodeBE(s[..|s| - 1]) + s[|s| - 1]
  }

  /** cpu_to_be32 / cpu_to_be64: the n-byte big-endian form of x (modulo 256^n). */
  function EncodeBE(x: nat, n: nat): (s: seq<byte>)
    ensures |s| == n
  {
    if n == 0 then [] else EncodeBE(x / 256, n - 1) + [x % 256]
  }

  lemma {:induction false} DecodeEncode(x: nat, n: nat)
    requires x < Pow256(n)
    ensures DecodeBE(EncodeBE(x, n)) == x
  {
    if n == 0 {
    } else {
      DecodeEncode(x / 256, n - 1);
      var s := EncodeBE(x, n);
      assert s[..|s| - 1] == EncodeBE(x / 256, n - 1);
    }
  }

  lemma {:induction false} EncodeDecode(s: seq<byte>)
    ensures EncodeBE(DecodeBE(s), |s|) == s
  {
    if s == [] {
    } else {
      EncodeDecode(s[..|s| - 1]);
      assert s == s[..|s| - 1] + [s[|s| - 1]];
    }
  }

  lemma {:induction false} DecodeBound(s: seq<byte>)
    ensures DecodeBE(s) < Pow256(|s|)
  {
    if s == [] {
    } else {
      DecodeBound(s[..|s| - 1]);
    }
  }

  lemma {:induction false} DecodeZeros(s: seq<byte>)
    requires forall i :: 0 <= i < |s| ==> s[i] == 0
    ensures DecodeBE(s) == 0
  {
    if s == [] {
    } else {
      DecodeZeros(s[..|s| - 1]);
    }
  }

  lemma Pow256Values()
    ensures Pow256(1) == 256
    ensures Pow256(4) == 0x1_0000_0000
    ensures Pow256(8) == 0x1_0000_0000_0000_0000
  {
    assert Pow256(2) == 65536;
    assert Pow256(4) == 0x1_0000_0000;
    assert Pow256(6) == 65536 * 0x1_0000_0000;
  }

  lemma SliceOfSlice(f: seq<byte>, a: nat, n: nat, o: nat, m: nat)
    requires a + n <= |f| && o + m <= n
    ensures f[a..a + n][o..o + m] == f[a + o..a + o + m]
  {
    var x, y := f[a..a + n][o..o + m], f[a + o..a + o + m];
    forall p | 0 <= p < m
      ensures x[p] == y[p]
    {
      assert f[a..a + n][o + p] == f[a + (o + p)];
    }
  }

  lemma SliceOfSum(x: seq<byte>, y: seq<byte>, i: nat, j: nat)
    requires i <= j
    ensures j <= |x| ==> (x + y)[i..j] == x[i..j]
    ensures j <= |y| ==> (x + y)[|x| + i..|x| + j] == y[i..j]
  {}

  // ------------------------------------------------------------ parts of a flat array

  /** A flat array with the bytes b stored at position at. */
  function Overlay(d: seq<byte>, at: nat, b: seq<byte>): seq<byte>
    requires at + |b| <= |d|
  {
    d[..at] + b + d[at + |b|..]
  }

  lemma OverlayAll(d: seq<byte>, b: seq<byte>)
    requires |b| == |d|
    ensures Overlay(d, 0, b) == b
  {}

  lemma OverlayNothing(d: seq<byte>, at: nat)
    requires at <= |d|
    ensures Overlay(d, at, []) == d
  {}

  lemma OverlayExtends(d: seq<byte>, at: nat, b: seq<byte>, c: seq<byte>)
    requires at + |b| + |c| <= |d|
    ensures Overlay(Overlay(d, at, b), at + |b|, c) == Overlay(d, at, b + c)
  {}

  /** Storing b puts c there, for a longer c, exactly when c is b and then the old tail. */
  lemma OverlayExactly(d: seq<byte>, at: nat, b: seq<byte>, c: seq<byte>)
    requires |b| <= |c| && at + |c| <= |d|
    ensures Overlay(d, at, b) == Overlay(d, at, c) <==> b + Piece(d, at + |b|, |c| - |b|) == c
  {
    var e := b + Piece(d, at + |b|, |c| - |b|);
    assert Overlay(d, at, b) == Overlay(d, at, e);
    assert Overlay(d, at, c)[at..at + |c|] == c;
    assert Overlay(d, at, e)[at..at + |c|] == e;
  }

  /** Storing p at the beginning changes nothing exactly when it is there already. */
  lemma OverlayPrefix(d: seq<byte>, p: seq<byte>)
    requires |p| <= |d|
    ensures Overlay(d, 0, p) == d <==> p <= d
  {
    assert Overlay(d, 0, p)[..|p|] == p;
    if p <= d {
      assert p + d[|p|..] == d;
    }
  }

  /** d[a..a + n] */
  function Piece(d: seq<byte>, a: nat, n: nat): (p: seq<byte>)
    requires a + n <= |d|
    ensures |p| == n
  {
    d[a..a + n]
  }

  lemma PieceSplits(d: seq<byte>, a: nat, n: nat, m: nat)
    requires a + n + m <= |d|
    ensures Piece(d, a, n + m) == Piece(d, a, n) + Piece(d, a + n, m)
  {}

  lemma PieceNothing(d: seq<byte>, a: nat)
    requires a <= |d|
    ensures Piece(d, a, 0) == []
  {}

  lemma OverlayPieces(d: seq<byte>, at: nat, b: seq<byte>, s: nat, n: nat)
    requires at + |b| <= |d| && s + n <= |d|
    ensures Piece(Overlay(d, at, b), at, |b|) == b
    ensures s + n <= at || at + |b| <= s ==> Piece(Overlay(d, at, b), s, n) == Piece(d, s, n)
  {}

  lemma PieceOfPiece(d: seq<byte>, a: nat, n: nat, o: nat, m: nat)
    requires a + n <= |d| && o + m <= n
    ensures Piece(Piece(d, a, n), o, m) == Piece(d, a + o, m)
  {
    SliceOfSlice(d, a, n, o, m);
  }

  lemma PieceOverlaid(d: seq<byte>, n: nat, at: nat, b: seq<byte>)
    requires n <= |d| && at + |b| <= n
    ensures Piece(Overlay(d, at, b), 0, n) == Overlay(Piece(d, 0, n), at, b)
  {}

  lemma ReadStarts(buf: seq<byte>, at: nat, v: seq<byte>, offset: nat)
    requires at <= |buf| && offset <= |v|
    ensures Overlay(buf, at, Piece(v, offset, 0)) == buf
  {}

  /** A buffer that holds the first n bytes wanted, and is given the next m. */
  lemma ReadExtends(buf: seq<byte>, at: nat, v: seq<byte>, offset: nat, n: nat, m: nat)
    requires at + n + m <= |buf| && offset + n + m <= |v|
    ensures Overlay(Overlay(buf, at, Piece(v, offset, n)), at + n, Piece(v, offset + n, m)) ==
            Overlay(buf, at, Piece(v, offset, n + m))
  {
    PieceSplits(v, offset, n, m);
    OverlayExtends(buf, at, Piece(v, offset, n), Piece(v, offset + n, m));
  }

  /** Writing over the boot sector replaces the overriding copy. */
  lemma OverlayAbsorbs(d: seq<byte>, boot: seq<byte>, b: seq<byte>)
    requires |boot| <= |b| <= |d|
    ensures Overlay(Overlay(d, 0, b), 0, b[..|boot|]) == Overlay(Overlay(d, 0, boot), 0, b)
  {}

  lemma OverlayCommutes(d: seq<byte>, boot: seq<byte>, at: nat, b: seq<byte>)
    requires |boot| <= |d| && at + |b| <= |d|
    requires |boot| <= at || b == []
    ensures Overlay(Overlay(d, at, b), 0, boot) == Overlay(Overlay(d, 0, boot), at, b)
  {
    if b == [] {
      OverlayNothing(d, at);
      OverlayNothing(Overlay(d, 0, boot), at);
    } else {
      var e := boot + d[|boot|..at] + b + d[at + |b|..];
      assert Overlay(Overlay(d, at, b), 0, boot) == e;
      assert Overlay(Overlay(d, 0, boot), at, b) == e;
    }
  }

  /** Changing part of a piece and putting the piece back changes that part. */
  lemma OverlayOfPiece(d: seq<byte>, a: nat, n: nat, o: nat, b: seq<byte>)
    requires a + n <= |d| && o + |b| <= n
    ensures Overlay(d, a, Overlay(Piece(d, a, n), o, b)) == Overlay(d, a + o, b)
  {}
}
