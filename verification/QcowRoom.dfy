/** How far an image can still grow. Every allocation uses up some of a bound that
    depends on the map alone, so an image whose fully allocated form stays below
    2^63 bytes never runs out of offsets, however long it is written to. */
module QcowRoom {
  import opened Arith
  import opened Bytes
  import opened QcowMap

  /** The most a new L2 table adds to the file. */
  function TableCost(g: Geometry): nat
  {
    g.clusterSize + 8 * g.l2Size
  }

  /** The most that a cluster with this entry can still add: a compressed stream
      and then a rounded normal cluster, or only the latter, or nothing. */
  function WordRest(g: Geometry, w: nat): nat
  {
    if w == 0 then 3 * g.clusterSize
    else if w < COMPRESSED then 0
    else 2 * g.clusterSize
  }

  /** The first n clusters of row i. */
  function RowRest(g: Geometry, f: seq<byte>, i: nat, n: nat): nat
  {
    if n == 0 then 0 else RowRest(g, f, i, n - 1) + WordRest(g, ClusterWord(g, f, i, n - 1))
  }

  function TableRest(g: Geometry, f: seq<byte>, i: nat): nat
  {
    if L1Entry(g, f, i) == 0 then TableCost(g) else 0
  }

  /** The first n rows. */
  function Rest(g: Geometry, f: seq<byte>, n: nat): nat
  {
    if n == 0 then 0
    else Rest(g, f, n - 1) + TableRest(g, f, n - 1) + RowRest(g, f, n - 1, g.l2Size)
  }

  /** The file and all it may still grow by. No step makes it larger. */
  function Total(g: Geometry, f: seq<byte>): nat
  {
    |f| + Rest(g, f, g.l1Size)
  }

  /** It stays below 2^63. */
  predicate Roomy(g: Geometry, f: seq<byte>)
  {
    Total(g, f) <= COMPRESSED
  }

  /** The same for an image with nothing allocated: a condition on the geometry. */
  function FullRow(g: Geometry): nat
  {
    TableCost(g) + Times(g.l2Size, 3 * g.clusterSize)
  }

  function EmptyTotal(g: Geometry): nat
  {
    g.L1End() + Times(g.l1Size, FullRow(g))
  }

  predicate Fills(g: Geometry)
  {
    EmptyTotal(g) <= COMPRESSED
  }

  // ------------------------------------------------------------ one entry at a time

  lemma {:induction false} RowSame(g: Geometry, f: seq<byte>, f': seq<byte>, i: nat, n: nat)
    requires forall j: nat :: j < n ==> ClusterWord(g, f', i, j) == ClusterWord(g, f, i, j)
    ensures RowRest(g, f', i, n) == RowRest(g, f, i, n)
  {
    hide ClusterWord;
    if n > 0 {
      RowSame(g, f, f', i, n - 1);
    }
  }

  lemma {:induction false} RowChange(g: Geometry, f: seq<byte>, f': seq<byte>, i: nat, j: nat, n: nat)
    requires j < n
    requires forall m: nat :: m < n && m != j ==> ClusterWord(g, f', i, m) == ClusterWord(g, f, i, m)
    ensures RowRest(g, f', i, n) + WordRest(g, ClusterWord(g, f, i, j)) ==
            RowRest(g, f, i, n) + WordRest(g, ClusterWord(g, f', i, j))
  {
    hide ClusterWord, WordRest;
    if j == n - 1 {
      RowSame(g, f, f', i, n - 1);
    } else {
      RowChange(g, f, f', i, j, n - 1);
    }
  }

  /** Row i is the same in both images. */
  predicate RowAlike(g: Geometry, f: seq<byte>, f': seq<byte>, i: nat)
  {
    && (L1Entry(g, f', i) == 0 <==> L1Entry(g, f, i) == 0)
    && forall j: nat :: j < g.l2Size ==> ClusterWord(g, f', i, j) == ClusterWord(g, f, i, j)
  }

  /** So are the first n rows, except possibly row x. */
  predicate SameRows(g: Geometry, f: seq<byte>, f': seq<byte>, x: nat, n: nat)
  {
    forall i: nat :: i < n && i != x ==> RowAlike(g, f, f', i)
  }

  lemma {:induction false} RestSame(g: Geometry, f: seq<byte>, f': seq<byte>, x: nat, n: nat)
    requires SameRows(g, f, f', x, n) && n <= x
    ensures Rest(g, f', n) == Rest(g, f, n)
  {
    hide ClusterWord, L1Entry;
    if n > 0 {
      RestSame(g, f, f', x, n - 1);
      assert RowAlike(g, f, f', n - 1);
      RowSame(g, f, f', n - 1, g.l2Size);
    }
  }

  /** A change in row x alone changes the sum by what it changes there. */
  lemma {:induction false} RestChange(g: Geometry, f: seq<byte>, f': seq<byte>, x: nat, n: nat)
    requires SameRows(g, f, f', x, n) && x < n
    ensures Rest(g, f', n) + TableRest(g, f, x) + RowRest(g, f, x, g.l2Size) ==
            Rest(g, f, n) + TableRest(g, f', x) + RowRest(g, f', x, g.l2Size)
  {
    hide ClusterWord, L1Entry, RowRest, TableRest;
    if x == n - 1 {
      RestSame(g, f, f', x, n - 1);
    } else {
      RestChange(g, f, f', x, n - 1);
      assert RowAlike(g, f, f', n - 1);
      RowSame(g, f, f', n - 1, g.l2Size);
      TableSame(g, f, f', n - 1);
    }
  }

  lemma TableSame(g: Geometry, f: seq<byte>, f': seq<byte>, i: nat)
    requires L1Entry(g, f', i) == 0 <==> L1Entry(g, f, i) == 0
    ensures TableRest(g, f', i) == TableRest(g, f, i)
  {}

  lemma {:induction false} RowAtLeast(g: Geometry, f: seq<byte>, i: nat, j: nat, n: nat)
    requires j < n
    ensures RowRest(g, f, i, n) >= WordRest(g, ClusterWord(g, f, i, j))
  {
    hide ClusterWord, WordRest;
    if j < n - 1 {
      RowAtLeast(g, f, i, j, n - 1);
    }
  }

  lemma {:induction false} RestAtLeast(g: Geometry, f: seq<byte>, i: nat, n: nat)
    requires i < n
    ensures Rest(g, f, n) >= TableRest(g, f, i) + RowRest(g, f, i, g.l2Size)
  {
    hide TableRest, RowRest;
    if i < n - 1 {
      RestAtLeast(g, f, i, n - 1);
    }
  }

  // ------------------------------------------------------------ what the driver's steps do to it

  /** There is always room for the allocation a cluster may still need. */
  lemma RoomForOne(g: Geometry, f: seq<byte>, i: nat, j: nat)
    requires InMap(g, i, j)
    ensures |f| + TableRest(g, f, i) + WordRest(g, ClusterWord(g, f, i, j)) <= Total(g, f)
    ensures Roomy(g, f) ==> |f| + TableRest(g, f, i) + WordRest(g, ClusterWord(g, f, i, j)) <= COMPRESSED
  {
    hide ClusterWord, L1Entry, WordRest, TableRest;
    RestAtLeast(g, f, i, g.l1Size);
    RowAtLeast(g, f, i, j, g.l2Size);
  }

  lemma RoomyBound(g: Geometry, f: seq<byte>)
    requires Roomy(g, f)
    ensures |f| <= COMPRESSED
  {}

  /** A step that changes no table and no entry, and does not lengthen the file. */
  lemma RoomySame(g: Geometry, f: seq<byte>, f': seq<byte>)
    requires |f'| <= |f|
    requires forall i: nat :: i < g.l1Size ==> L1Entry(g, f', i) == L1Entry(g, f, i)
    requires forall i: nat, j: nat :: InMap(g, i, j) ==> ClusterWord(g, f', i, j) == ClusterWord(g, f, i, j)
    ensures Total(g, f') <= Total(g, f)
    ensures Roomy(g, f) ==> Roomy(g, f')
  {
    hide ClusterWord, L1Entry;
    forall i: nat, j: nat | i < g.l1Size && j < g.l2Size
      ensures ClusterWord(g, f', i, j) == ClusterWord(g, f, i, j)
    {
      assert InMap(g, i, j);
    }
    RestSame(g, f, f', g.l1Size, g.l1Size);
  }

  /** Making an L2 table pays for the bytes it adds. */
  lemma RoomyWithTable(g: Geometry, f: seq<byte>, f': seq<byte>, i: nat)
    requires i < g.l1Size && |f'| <= |f| + TableCost(g)
    requires L1Entry(g, f, i) == 0 && L1Entry(g, f', i) != 0
    requires forall n: nat :: n < g.l1Size && n != i ==> L1Entry(g, f', n) == L1Entry(g, f, n)
    requires forall n: nat, m: nat :: InMap(g, n, m) ==> ClusterWord(g, f', n, m) == ClusterWord(g, f, n, m)
    ensures Total(g, f') <= Total(g, f)
    ensures Roomy(g, f) ==> Roomy(g, f')
  {
    hide ClusterWord, L1Entry;
    forall n: nat, m: nat | n < g.l1Size && m < g.l2Size
      ensures ClusterWord(g, f', n, m) == ClusterWord(g, f, n, m)
    {
      assert InMap(g, n, m);
    }
    RowSame(g, f, f', i, g.l2Size);
    RestChange(g, f, f', i, g.l1Size);
  }

  /** Changing the entry of one cluster pays for the bytes it adds. */
  lemma RoomyWithEntry(g: Geometry, f: seq<byte>, f': seq<byte>, i: nat, j: nat)
    requires InMap(g, i, j)
    requires forall n: nat :: n < g.l1Size ==> L1Entry(g, f', n) == L1Entry(g, f, n)
    requires forall n: nat, m: nat :: InMap(g, n, m) && (n, m) != (i, j) ==>
               ClusterWord(g, f', n, m) == ClusterWord(g, f, n, m)
    requires |f'| + WordRest(g, ClusterWord(g, f', i, j)) <= |f| + WordRest(g, ClusterWord(g, f, i, j))
    ensures Total(g, f') <= Total(g, f)
    ensures Roomy(g, f) ==> Roomy(g, f')
  {
    hide ClusterWord, L1Entry, WordRest;
    forall n: nat, m: nat | n < g.l1Size && m < g.l2Size && (n, m) != (i, j)
      ensures ClusterWord(g, f', n, m) == ClusterWord(g, f, n, m)
    {
      assert InMap(g, n, m);
    }
    RowChange(g, f, f', i, j, g.l2Size);
    RestChange(g, f, f', i, g.l1Size);
    TableSame(g, f, f', i);
  }

  // ------------------------------------------------------------ an image with nothing allocated

  lemma FillsBound(g: Geometry)
    requires Fills(g)
    ensures g.L1End() <= COMPRESSED
  {}

  lemma {:induction false} EmptyRow(g: Geometry, f: seq<byte>, i: nat, n: nat)
    requires L1Entry(g, f, i) == 0
    ensures RowRest(g, f, i, n) == Times(n, 3 * g.clusterSize)
  {
    hide L1Entry;
    if n > 0 {
      EmptyRow(g, f, i, n - 1);
      TimesSplits(n, 1, 3 * g.clusterSize);
    }
  }

  lemma {:induction false} EmptyRest(g: Geometry, f: seq<byte>, n: nat)
    requires forall i: nat :: i < n ==> L1Entry(g, f, i) == 0
    ensures Rest(g, f, n) == Times(n, FullRow(g))
  {
    hide L1Entry;
    if n > 0 {
      EmptyRest(g, f, n - 1);
      EmptyRow(g, f, n - 1, g.l2Size);
    }
  }

  /** An emptied image has room if its geometry does. */
  lemma EmptyIsRoomy(g: Geometry, f: seq<byte>)
    requires Fills(g) && |f| == g.L1End()
    requires forall i: nat :: i < g.l1Size ==> L1Entry(g, f, i) == 0
    ensures Total(g, f) == EmptyTotal(g)
    ensures Roomy(g, f)
  {
    hide L1Entry;
    EmptyRest(g, f, g.l1Size);
  }
}
