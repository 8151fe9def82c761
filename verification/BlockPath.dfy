/** Block addressing: which slots lead from an inode to the block of a given index (`get_path`). */
module BlockPath {
  import opened Layout

  const MAX_BLOCKS := INDIRECT_END + NIDS_PER_BLOCK * NIDS_PER_BLOCK * ADDRS_PER_BLOCK

  /** The largest index on which the C arithmetic stays inside 32 bits. */
  const LAST_SAFE_INDEX := 2146450258

  newtype int32 = x: int | -0x8000_0000 <= x < 0x8000_0000

  /** A slot index inside any node below an inode. */
  predicate InNode(i: int) {
    0 <= i < NIDS_PER_BLOCK
  }

  /** Paths that end in a data slot: the head slot of the inode decides the depth. */
  predicate IsPath(p: seq<int>) {
    && (|p| == 1 || |p| == 2 || |p| == 3 || |p| == 4)
    && (forall i :: 0 <= i < |p| ==> InNode(p[i]))
    && (|p| == 1 ==> p[0] < ADDRS_PER_INODE)
    && (|p| == 2 ==> ADDRS_PER_INODE <= p[0] < ADDRS_PER_INODE + 2)
    && (|p| == 3 ==> ADDRS_PER_INODE + 2 <= p[0] < ADDRS_PER_INODE + 4)
    && (|p| == 4 ==> p[0] == ADDRS_PER_INODE + 4)
  }

  /** Paths that end in a node: the inode itself, or a chain of node-id slots. */
  predicate IsPrefix(q: seq<int>) {
    && |q| <= 3
    && (forall i :: 0 <= i < |q| ==> InNode(q[i]))
    && (|q| > 0 ==> ADDRS_PER_INODE <= q[0] < ADDRS_PER_INODE + 5)
    && (|q| == 2 ==> ADDRS_PER_INODE + 2 <= q[0])
    && (|q| == 3 ==> q[0] == ADDRS_PER_INODE + 4)
  }

  /** The weighted sum that inverts the addressing. */
  function Index(p: seq<int>): int
    requires 1 <= |p| <= 4
  {
    if |p| == 1 then p[0]
    else if |p| == 2 then ADDRS_PER_INODE + ((p[0] - ADDRS_PER_INODE) * ADDRS_PER_BLOCK + p[1])
    else if |p| == 3 then
      DIRECT_END + (((p[0] - ADDRS_PER_INODE - 2) * ADDRS_PER_BLOCK + p[1]) * ADDRS_PER_BLOCK + p[2])
    else INDIRECT_END + ((p[1] * ADDRS_PER_BLOCK + p[2]) * ADDRS_PER_BLOCK + p[3])
  }

  /** The path of a block index, as mixed-radix digits; past MAX_BLOCKS it leaves the tree. */
  function Path(idx: int): (p: seq<int>)
    requires 0 <= idx
    ensures 1 <= |p| <= 4 && Index(p) == idx
    ensures IsPath(p) <==> idx < MAX_BLOCKS
  {
    if idx < ADDRS_PER_INODE then [idx]
    else if idx < DIRECT_END then
      var d := idx - ADDRS_PER_INODE;
      [ADDRS_PER_INODE + d / ADDRS_PER_BLOCK, d % ADDRS_PER_BLOCK]
    else if idx < INDIRECT_END then
      var d := idx - DIRECT_END;
      [ADDRS_PER_INODE + 2 + d / ADDRS_PER_BLOCK / ADDRS_PER_BLOCK,
       d / ADDRS_PER_BLOCK % ADDRS_PER_BLOCK, d % ADDRS_PER_BLOCK]
    else
      var d := idx - INDIRECT_END;
      [ADDRS_PER_INODE + 4,
       d / ADDRS_PER_BLOCK / ADDRS_PER_BLOCK, d / ADDRS_PER_BLOCK % ADDRS_PER_BLOCK, d % ADDRS_PER_BLOCK]
  }

  /** Every in-range path is the path of exactly one index, the weighted sum of its slots. */
  lemma PathOfIndex(p: seq<int>)
    requires IsPath(p)
    ensures 0 <= Index(p) < MAX_BLOCKS && Path(Index(p)) == p
  {
    IndexRange(p);
    SameIndexSamePath(p, Path(Index(p)));
  }

  lemma SameIndexSamePath(p: seq<int>, r: seq<int>)
    requires IsPath(p) && IsPath(r) && Index(p) == Index(r)
    ensures p == r
  {
    SameLength(p, r);
    var k := |p|;
    if k == 3 {
      SameDigit((p[0] - ADDRS_PER_INODE - 2) * ADDRS_PER_BLOCK + p[1], p[2],
                (r[0] - ADDRS_PER_INODE - 2) * ADDRS_PER_BLOCK + r[1], r[2]);
      SameDigit(p[0] - ADDRS_PER_INODE + 2, p[1], r[0] - ADDRS_PER_INODE + 2, r[1]);
    } else if k == 4 {
      SameDigit(p[1] * ADDRS_PER_BLOCK + p[2], p[3], r[1] * ADDRS_PER_BLOCK + r[2], r[3]);
      SameDigit(p[1], p[2], r[1], r[2]);
    }
    assert forall i :: 0 <= i < k ==> p[i] == r[i];
  }

  lemma SameLength(p: seq<int>, r: seq<int>)
    requires IsPath(p) && IsPath(r) && Index(p) == Index(r)
    ensures |p| == |r|
  {
    IndexRange(p);
    IndexRange(r);
  }

  lemma IndexRange(p: seq<int>)
    requires IsPath(p)
    ensures 0 <= Index(p) < MAX_BLOCKS
    ensures |p| == 1 <==> Index(p) < ADDRS_PER_INODE
    ensures |p| <= 2 <==> Index(p) < DIRECT_END
    ensures |p| <= 3 <==> Index(p) < INDIRECT_END
  {
    assert InNode(p[0]);
    assert |p| > 1 ==> InNode(p[1]);
    assert |p| > 2 ==> InNode(p[2]);
    assert |p| > 3 ==> InNode(p[3]);
  }

  lemma SameDigit(a: int, x: int, b: int, y: int)
    requires InNode(x) && InNode(y) && a * ADDRS_PER_BLOCK + x == b * ADDRS_PER_BLOCK + y
    ensures a == b && x == y
  {
  }

  /** The nodes passed on the way to a data slot are the proper prefixes of its path. */
  lemma PrefixesOfPath(p: seq<int>, k: nat)
    requires IsPath(p) && k < |p|
    ensures IsPrefix(p[..k])
  {
  }

  // The same numbers as the 32-bit integers the code computes with.
  const IN_INODE := ADDRS_PER_INODE as int32
  const IN_BLOCK := ADDRS_PER_BLOCK as int32
  const IN_INDIRECT := (NIDS_PER_BLOCK * ADDRS_PER_BLOCK) as int32

  /** DIV_ROUND_UP(n + 1, size) - 1 for both sizes, with the kernel's order of operations. */
  function CeilBlock(n: int32): (r: int32)
    requires 0 <= n && n as int + ADDRS_PER_BLOCK < 0x7fff_ffff
    ensures r == n / IN_BLOCK
  {
    (n + 1 + IN_BLOCK - 1) / IN_BLOCK - 1
  }

  function CeilSquare(n: int32): (r: int32)
    requires 0 <= n && n as int + NIDS_PER_BLOCK * ADDRS_PER_BLOCK < 0x7fff_ffff
    ensures r == n / IN_INDIRECT
  {
    (n + 1 + IN_INDIRECT - 1) / IN_INDIRECT - 1
  }

  /** Peeling off the most significant digit first, as the code does, gives the same digits. */
  lemma PeelDigits(d: int)
    requires 0 <= d
    ensures var top := d / (NIDS_PER_BLOCK * ADDRS_PER_BLOCK);
            var rest := d - top * NIDS_PER_BLOCK * ADDRS_PER_BLOCK;
            && d / ADDRS_PER_BLOCK / ADDRS_PER_BLOCK == top
            && d / ADDRS_PER_BLOCK % ADDRS_PER_BLOCK == rest / ADDRS_PER_BLOCK
            && d % ADDRS_PER_BLOCK == rest - rest / ADDRS_PER_BLOCK * ADDRS_PER_BLOCK
            && 0 <= rest < NIDS_PER_BLOCK * ADDRS_PER_BLOCK && 0 <= rest / ADDRS_PER_BLOCK < ADDRS_PER_BLOCK
  {
    var high, low := d / ADDRS_PER_BLOCK, d % ADDRS_PER_BLOCK;
    var top, mid := high / ADDRS_PER_BLOCK, high % ADDRS_PER_BLOCK;
    assert d == top * NIDS_PER_BLOCK * ADDRS_PER_BLOCK + mid * ADDRS_PER_BLOCK + low;
    assert 0 <= mid * ADDRS_PER_BLOCK + low < NIDS_PER_BLOCK * ADDRS_PER_BLOCK;
  }

  /** The first `depth + 1` entries of an offset array. */
  ghost function PathIn(offset: array<int32>, depth: int32): seq<int>
    requires 0 <= depth <= 3 && offset.Length >= 4
    reads offset
  {
    [offset[0] as int]
    + (if depth >= 1 then [offset[1] as int] else [])
    + (if depth >= 2 then [offset[2] as int] else [])
    + (if depth >= 3 then [offset[3] as int] else [])
  }

  /** The direct branch of `get_path`: `b` counts from the first block below a direct node. */
  method DirectPath(offset: array<int32>, b: int32)
    requires offset.Length >= 4 && 0 <= b as int < 2 * ADDRS_PER_BLOCK
    modifies offset
    ensures forall i :: 2 <= i < offset.Length ==> offset[i] == old(offset[i])
    ensures PathIn(offset, 1) == [ADDRS_PER_INODE + b as int / ADDRS_PER_BLOCK, b as int % ADDRS_PER_BLOCK]
  {
    var i := CeilBlock(b);
    offset[0] := IN_INODE + i;
    offset[1] := (b - i * IN_BLOCK) % IN_BLOCK;
  }

  /** The three digits of an index below an indirect node, in the order the code peels them off. */
  function PeelOff(b: int32): (r: (int32, int32, int32))
    requires 0 <= b as int && b as int + NIDS_PER_BLOCK * ADDRS_PER_BLOCK < 0x7fff_ffff
    ensures r.0 as int == b as int / ADDRS_PER_BLOCK / ADDRS_PER_BLOCK
    ensures r.1 as int == b as int / ADDRS_PER_BLOCK % ADDRS_PER_BLOCK
    ensures r.2 as int == b as int % ADDRS_PER_BLOCK
  {
    PeelDigits(b as int);
    var top := CeilSquare(b);
    var rest := b - IN_INDIRECT * top;
    var mid := CeilBlock(rest);
    (top, mid, rest - IN_BLOCK * mid)
  }

  /** The indirect branch: `b` counts from the first block below an indirect node. */
  method IndirectPath(offset: array<int32>, b: int32)
    requires offset.Length >= 4 && 0 <= b as int < 2 * NIDS_PER_BLOCK * ADDRS_PER_BLOCK
    modifies offset
    ensures forall i :: 3 <= i < offset.Length ==> offset[i] == old(offset[i])
    ensures var at := b as int;
            PathIn(offset, 2) == [902 + at / ADDRS_PER_BLOCK / ADDRS_PER_BLOCK,
                at / ADDRS_PER_BLOCK % ADDRS_PER_BLOCK, at % ADDRS_PER_BLOCK]
  {
    var (i, j, k) := PeelOff(b);
    offset[0], offset[1], offset[2] := IN_INODE + 2 + i, j, k;
  }

  /** The double-indirect branch: `b` counts from the first block below the double-indirect node. */
  method DoubleIndirectPath(offset: array<int32>, b: int32)
    requires offset.Length >= 4 && 0 <= b as int && b as int + NIDS_PER_BLOCK * ADDRS_PER_BLOCK < 0x7fff_ffff
    modifies offset
    ensures forall i :: 4 <= i < offset.Length ==> offset[i] == old(offset[i])
    ensures var at := b as int;
            PathIn(offset, 3) == [904, at / ADDRS_PER_BLOCK / ADDRS_PER_BLOCK,
                at / ADDRS_PER_BLOCK % ADDRS_PER_BLOCK, at % ADDRS_PER_BLOCK]
  {
    var (i, j, k) := PeelOff(b);
    offset[0], offset[1], offset[2], offset[3] := IN_INODE + 2 + 2, i, j, k;
  }

  /** `get_path` adds a block number, one, and what rounding up takes, on each level it reaches. */
  predicate SumsFit(idx: int) {
    && (ADDRS_PER_INODE <= idx ==> idx - ADDRS_PER_INODE + 1 + ADDRS_PER_BLOCK < 0x8000_0000)
    && (DIRECT_END <= idx ==> idx - DIRECT_END + 1 + NIDS_PER_BLOCK * ADDRS_PER_BLOCK < 0x8000_0000)
    && (INDIRECT_END <= idx ==> idx - INDIRECT_END + 1 + NIDS_PER_BLOCK * ADDRS_PER_BLOCK < 0x8000_0000)
  }

  /** These sums stay inside 32 bits up to LAST_SAFE_INDEX and no further: the next index overflows. */
  lemma LastSafe(idx: int)
    ensures SumsFit(idx) <==> idx <= LAST_SAFE_INDEX
  {
  }

  method ClearPath(offset: array<int32>)
    requires offset.Length >= 4
    modifies offset
    ensures forall i :: 0 <= i < 4 ==> offset[i] == -1
    ensures forall i :: 4 <= i < offset.Length ==> offset[i] == old(offset[i])
  {
    var k := 0;
    while k < 4
      invariant 0 <= k <= 4
      invariant forall i :: 0 <= i < k ==> offset[i] == -1
      invariant forall i :: 4 <= i < offset.Length ==> offset[i] == old(offset[i])
    {
      offset[k] := -1;
      k := k + 1;
    }
  }

  /**
   * `get_path`: fills `offset` with the path of `iblock` and -1 elsewhere, and returns the number
   * of node levels below the inode.  No step overflows up to LAST_SAFE_INDEX.
   */
  method GetPath(offset: array<int32>, iblock: int32) returns (depth: int32)
    requires offset.Length >= 4
    requires 0 <= iblock as int <= LAST_SAFE_INDEX
    modifies offset
    ensures 0 <= depth <= 3
    ensures forall i :: depth as int < i < 4 ==> offset[i] == -1
    ensures forall i :: 4 <= i < offset.Length ==> offset[i] == old(offset[i])
    ensures PathIn(offset, depth) == Path(iblock as int)
  {
    ClearPath(offset);
    if iblock < IN_INODE {
      offset[0] := iblock;
      return 0;
    }
    if CeilBlock(iblock - IN_INODE) < 2 {
      DirectPath(offset, iblock - IN_INODE);
      return 1;
    }
    if CeilSquare(iblock - IN_INODE - 2 * IN_BLOCK) < 2 {
      IndirectPath(offset, iblock - IN_INODE - 2 * IN_BLOCK);
      return 2;
    }
    DoubleIndirectPath(offset, iblock - IN_INODE - 2 * IN_BLOCK - 2 * IN_INDIRECT);
    return 3;
  }
}
