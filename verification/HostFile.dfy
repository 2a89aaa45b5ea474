/** The host file under an image: a growable byte string.

    Models the raw protocol driver as the image driver uses it: a read returns every
    byte asked for that the file has, a write past the end fills the gap with zeros,
    and a truncation that lengthens the file does the same. */
module HostFile {
  import opened Bytes

  function Grown(f: seq<byte>, n: nat): (r: seq<byte>)
    ensures |f| <= |r| && n <= |r|
  {
    if |f| < n then f + Zeros(n - |f|) else f
  }

  /** The file after writing b at off. */
  function Written(f: seq<byte>, off: nat, b: seq<byte>): (r: seq<byte>)
  {
    if b == [] then f
    else
      var e := Grown(f, off + |b|);
      e[..off] + b + e[off + |b|..]
  }

  function Truncated(f: seq<byte>, n: nat): seq<byte>
  {
    if |f| < n then f + Zeros(n - |f|) else f[..n]
  }

  /** Every byte of the file after a write, and after a truncation. */
  lemma BytesAfter(f: seq<byte>, off: nat, b: seq<byte>, n: nat)
    ensures var r := Written(f, off, b);
            if b == [] then r == f
            else && |r| == (if off + |b| > |f| then off + |b| else |f|)
                 && forall i :: 0 <= i < |r| ==>
                      r[i] == if off <= i < off + |b| then b[i - off] else if i < |f| then f[i] else 0
    ensures var r := Truncated(f, n);
            |r| == n && forall i :: 0 <= i < n ==> r[i] == if i < |f| then f[i] else 0
  {}

  class HostFile {
    var data: seq<byte>

    constructor (initial: seq<byte>)
      ensures data == initial
    {
      data := initial;
    }

    method GetLength() returns (n: nat)
      ensures n == |data|
    {
      n := |data|;
    }

    /** A read that meets the end of the file is short. */
    method Pread(off: nat, count: nat) returns (b: seq<byte>)
      ensures off + count <= |data| ==> b == data[off..off + count]
      ensures off <= |data| < off + count ==> b == data[off..]
      ensures |data| < off ==> b == []
    {
      if |data| < off {
        b := [];
      } else if |data| < off + count {
        b := data[off..];
      } else {
        b := data[off..off + count];
      }
    }

    method Pwrite(off: nat, b: seq<byte>)
      modifies this
      ensures data == Written(old(data), off, b)
    {
      if b != [] {
        if |data| < off + |b| {
          data := data + Zeros(off + |b| - |data|);
        }
        data := data[..off] + b + data[off + |b|..];
      }
    }

    method Truncate(n: nat)
      modifies this
      ensures data == Truncated(old(data), n)
    {
      if |data| < n {
        data := data + Zeros(n - |data|);
      } else {
        data := data[..n];
      }
    }
  }

  // A write at or after the end appends; a write inside splices.

  lemma WrittenAppends(f: seq<byte>, off: nat, b: seq<byte>)
    requires |f| <= off && b != []
    ensures Written(f, off, b) == f + Zeros(off - |f|) + b
  {
    var e := Grown(f, off + |b|);
    assert e[..off] == f + Zeros(off - |f|);
  }

  lemma WrittenSplices(f: seq<byte>, off: nat, b: seq<byte>)
    requires off + |b| <= |f|
    ensures Written(f, off, b) == f[..off] + b + f[off + |b|..]
  {
    if b == [] {
      assert f == f[..off] + b + f[off + |b|..];
    }
  }
}
