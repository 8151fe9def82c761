/** Truncation of files without indirect nodes: `xcpfs_truncate_blocks` and `xcpfs_recurse` at depth 0. */
module Truncate {
  import opened BlockPath
  import opened Layout
  import opened NodeTree
  import opened ZoneTable
  import opened ZoneManager
  import WritePipeline

  // ----- Invalidating many blocks -----

  predicate AllInTable(t: Table, s: seq<int>) {
    forall i :: 0 <= i < |s| ==> InTable(t, s[i])
  }

  /** `invalidate_blkaddr` on each block in turn. */
  function InvalidateAll(t: Table, s: seq<int>): (u: Table)
    requires AllInTable(t, s)
    ensures |u.zones| == |t.zones| && u.zoneSize == t.zoneSize
  {
    if s == [] then t
    else
      var last := |s| - 1;
      Invalidate(InvalidateAll(t, s[..last]), s[last])
  }

  lemma {:induction false} InvalidateMore(t: Table, s: seq<int>, r: seq<int>)
    requires AllInTable(t, s) && AllInTable(t, r)
    ensures AllInTable(t, s + r) && AllInTable(InvalidateAll(t, s), r)
    ensures InvalidateAll(t, s + r) == InvalidateAll(InvalidateAll(t, s), r)
  {
    if r == [] {
      assert s + r == s;
    } else {
      InvalidateMore(t, s, r[..|r| - 1]);
      assert (s + r)[..|s + r| - 1] == s + r[..|r| - 1];
    }
  }

  /** How many of the blocks lie in zone `z`. */
  function CountIn(size: nat, s: seq<int>, z: int): nat
    requires size >= SECTORS_PER_BLOCK
  {
    if s == [] then 0
    else CountIn(size, s[..|s| - 1], z) + if ZoneOf(size, s[|s| - 1]) == z then 1 else 0
  }

  /** Exactly the given blocks lose their bits, and each zone's counter drops by its share of them. */
  lemma {:induction false} InvalidateAllLaws(t: Table, s: seq<int>, z: nat, b: int)
    requires AllInTable(t, s) && z < |t.zones| && InTable(t, b)
    ensures InvalidateAll(t, s).zones[z].vblocks == t.zones[z].vblocks - CountIn(t.zoneSize, s, z)
    ensures InTable(InvalidateAll(t, s), b)
    ensures WritePipeline.BitSet(InvalidateAll(t, s), b) <==> WritePipeline.BitSet(t, b) && b !in s
  {
    hide ZoneOf, BitOf;
    if s != [] {
      var last := |s| - 1;
      InvalidateAllLaws(t, s[..last], z, b);
      WritePipeline.InvalidateBits(InvalidateAll(t, s[..last]), s[last], b);
      assert s == s[..last] + [s[last]];
    }
  }

  // ----- The blocks a file has in a range -----

  /** The addresses of the mapped blocks with index in [lo, hi), in order. */
  function Former(nodes: Nodes, ino: int, lo: int, hi: int): seq<int>
    requires 0 <= lo && hi <= DIRECT_END
    decreases hi - lo
  {
    if hi <= lo then []
    else
      var a := AddrAt(nodes, ino, hi - 1);
      Former(nodes, ino, lo, hi - 1) + if a != 0 then [a] else []
  }

  lemma {:induction false} FormerSplit(nodes: Nodes, ino: int, lo: int, mid: int, hi: int)
    requires 0 <= lo <= mid <= hi <= DIRECT_END
    ensures Former(nodes, ino, lo, hi) == Former(nodes, ino, lo, mid) + Former(nodes, ino, mid, hi)
    decreases hi - mid
  {
    if mid < hi {
      FormerSplit(nodes, ino, lo, mid, hi - 1);
    }
  }

  lemma {:induction false} FormerSame(nodes: Nodes, other: Nodes, ino: int, lo: int, hi: int)
    requires 0 <= lo && hi <= DIRECT_END
    requires forall k :: lo <= k < hi ==> AddrAt(nodes, ino, k) == AddrAt(other, ino, k)
    ensures Former(nodes, ino, lo, hi) == Former(other, ino, lo, hi)
    decreases hi - lo
  {
    if lo < hi {
      FormerSame(nodes, other, ino, lo, hi - 1);
    }
  }

  /** Every mapped block of the file lies in the zone table. */
  ghost predicate Mapped(nodes: Nodes, ino: int, t: Table) {
    forall k :: 0 <= k < DIRECT_END && AddrAt(nodes, ino, k) != 0 ==> InTable(t, AddrAt(nodes, ino, k))
  }

  lemma {:induction false} FormerInTable(nodes: Nodes, ino: int, lo: int, hi: int, t: Table)
    requires 0 <= lo && hi <= DIRECT_END && Mapped(nodes, ino, t)
    ensures AllInTable(t, Former(nodes, ino, lo, hi))
    decreases hi - lo
  {
    if lo < hi {
      FormerInTable(nodes, ino, lo, hi - 1, t);
    }
  }

  // ----- The flat map after clearing -----

  /** `now` is `was` with the blocks of one file in [lo, hi) unmapped and every node where it was. */
  ghost predicate ClearedAt(was: Nodes, now: Nodes, ino: int, lo: int, hi: int, f: int, k: int)
    requires 0 <= k < MAX_BLOCKS
  {
    AddrAt(now, f, k) == if f == ino && lo <= k < hi then 0 else AddrAt(was, f, k)
  }

  ghost predicate SameNode(was: Nodes, now: Nodes, f: int, r: seq<int>)
    requires IsPrefix(r)
  {
    Walk(now, f, r) == Walk(was, f, r)
  }

  ghost predicate Cleared(was: Nodes, now: Nodes, files: set<int>, ino: int, lo: int, hi: int) {
    && Forest(now, files)
    && (forall f, k {:trigger ClearedAt(was, now, ino, lo, hi, f, k)} ::
          f in files && 0 <= k < MAX_BLOCKS ==> ClearedAt(was, now, ino, lo, hi, f, k))
    && (forall f, r {:trigger SameNode(was, now, f, r)} :: f in files && IsPrefix(r) ==> SameNode(was, now, f, r))
  }

  lemma ClearNothing(was: Nodes, files: set<int>, ino: int, lo: int)
    requires Forest(was, files)
    ensures Cleared(was, was, files, ino, lo, lo)
  {
  }

  /** Clearing the next block. */
  lemma ClearNext(was: Nodes, now: Nodes, files: set<int>, ino: int, lo: int, k: int)
    requires Cleared(was, now, files, ino, lo, k) && 0 <= lo <= k < DIRECT_END && ino in files
    requires CanStore(now, files, ino, Path(k))
    ensures Cleared(was, Put(now, ino, Path(k), 0), files, ino, lo, k + 1)
  {
    var next, hi := Put(now, ino, Path(k), 0), k + 1;
    StoreKeepsForest(now, files, ino, Path(k), 0);
    forall f, j | f in files && 0 <= j < MAX_BLOCKS ensures ClearedAt(was, next, ino, lo, hi, f, j) {
      assert ClearedAt(was, now, ino, lo, k, f, j);
      StoreAddrAt(now, files, ino, k, 0, f, j);
    }
    forall f, r | f in files && IsPrefix(r) ensures SameNode(was, next, f, r) {
      assert SameNode(was, now, f, r);
      StoreWalk(now, files, ino, Path(k), 0, f, r);
    }
  }

  /** A block that is not mapped counts as cleared. */
  lemma ClearHole(was: Nodes, now: Nodes, files: set<int>, ino: int, lo: int, k: int)
    requires Cleared(was, now, files, ino, lo, k) && 0 <= lo <= k < DIRECT_END && ino in files
    requires AddrAt(now, ino, k) == 0
    ensures Cleared(was, now, files, ino, lo, k + 1)
  {
    var hi := k + 1;
    forall f, j | f in files && 0 <= j < MAX_BLOCKS ensures ClearedAt(was, now, ino, lo, hi, f, j) {
      assert ClearedAt(was, now, ino, lo, k, f, j);
    }
  }

  /** Slot `i` of node `nid` holds the address of block `k` of the file. */
  ghost predicate SlotIs(nodes: Nodes, ino: int, nid: int, i: int, k: int)
    requires 0 <= k < MAX_BLOCKS
  {
    var p := Path(k);
    IsPrefix(p[..|p| - 1]) && Walk(nodes, ino, p[..|p| - 1]) == nid != 0 && p[|p| - 1] == i && InNode(i)
  }

  lemma InodeSlot(nodes: Nodes, ino: int, i: int)
    requires ino != 0 && 0 <= i < ADDRS_PER_INODE
    ensures SlotIs(nodes, ino, ino, i, i)
  {
  }

  lemma DirectSlot(nodes: Nodes, ino: int, d: int, i: int)
    requires 0 <= d < 2 && 0 <= i < ADDRS_PER_BLOCK
    requires IsPrefix([ADDRS_PER_INODE + d]) && Walk(nodes, ino, [ADDRS_PER_INODE + d]) != 0
    ensures SlotIs(nodes, ino, Walk(nodes, ino, [ADDRS_PER_INODE + d]), i, ADDRS_PER_INODE + d * ADDRS_PER_BLOCK + i)
  {
    assert Path(ADDRS_PER_INODE + d * ADDRS_PER_BLOCK + i) == [ADDRS_PER_INODE + d, i];
    assert [ADDRS_PER_INODE + d, i][..1] == [ADDRS_PER_INODE + d];
  }

  lemma SlotHolds(nodes: Nodes, ino: int, nid: int, i: int, k: int)
    requires 0 <= k < MAX_BLOCKS && SlotIs(nodes, ino, nid, i, k)
    ensures NodeTree.Slot(nodes, nid, i) == AddrAt(nodes, ino, k)
    ensures SetSlot(nodes, nid, i, 0) == Put(nodes, ino, Path(k), 0)
  {
  }

  /** The block index of the first slot of direct node `d`. */
  function DirectBase(d: int): int {
    ADDRS_PER_INODE + d * ADDRS_PER_BLOCK
  }

  ghost predicate SlotsAre(nodes: Nodes, ino: int, nid: int, base: int, hi: int)
    requires 0 <= base && base + hi <= DIRECT_END
  {
    forall i, k {:trigger SlotIs(nodes, ino, nid, i, k)} ::
      0 <= i < hi && k == base + i ==> SlotIs(nodes, ino, nid, i, k)
  }

  lemma InodeSlots(nodes: Nodes, ino: int)
    requires ino != 0
    ensures SlotsAre(nodes, ino, ino, 0, ADDRS_PER_INODE)
  {
    forall i, k | 0 <= i < ADDRS_PER_INODE && k == i ensures SlotIs(nodes, ino, ino, i, k) {
      InodeSlot(nodes, ino, i);
    }
  }

  lemma DirectSlots(nodes: Nodes, ino: int, d: int)
    requires 0 <= d < 2 && IsPrefix([ADDRS_PER_INODE + d]) && Walk(nodes, ino, [ADDRS_PER_INODE + d]) != 0
    ensures SlotsAre(nodes, ino, Walk(nodes, ino, [ADDRS_PER_INODE + d]), DirectBase(d), ADDRS_PER_BLOCK)
  {
    var base, nid := DirectBase(d), Walk(nodes, ino, [ADDRS_PER_INODE + d]);
    forall i, k | 0 <= i < ADDRS_PER_BLOCK && k == base + i ensures SlotIs(nodes, ino, nid, i, k)
    {
      DirectSlot(nodes, ino, d, i);
    }
  }

  // ----- Cutting: unmapping a range and invalidating its blocks -----

  /** The blocks of the file in [lo, hi) are unmapped, and exactly they were invalidated, once each. */
  ghost predicate Cut(was: Nodes, now: Nodes, files: set<int>, ino: int, lo: int, hi: int, t: Table, u: Table)
    requires 0 <= lo && hi <= DIRECT_END
  {
    && Cleared(was, now, files, ino, lo, hi)
    && AllInTable(t, Former(was, ino, lo, hi))
    && u == InvalidateAll(t, Former(was, ino, lo, hi))
  }

  lemma CutNothing(was: Nodes, files: set<int>, ino: int, lo: int, t: Table)
    requires Forest(was, files) && 0 <= lo <= DIRECT_END
    ensures Cut(was, was, files, ino, lo, lo, t, t)
  {
    ClearNothing(was, files, ino, lo);
  }

  lemma OneMore(t: Table, s: seq<int>, a: int)
    requires AllInTable(t, s) && InTable(t, a)
    ensures AllInTable(t, s + [a]) && InTable(InvalidateAll(t, s), a)
    ensures InvalidateAll(t, s + [a]) == Invalidate(InvalidateAll(t, s), a)
  {
    assert (s + [a])[..|s + [a]| - 1] == s;
  }

  // ----- Unlinking a direct node -----

  /** Clearing the link to a direct node takes away that walk and no other. */
  lemma {:induction false} UnlinkWalk(nodes: Nodes, files: set<int>, ino: int, d: int, f: int, r: seq<int>)
    requires Forest(nodes, files) && ino in files && f in files
    requires 0 <= d < 2 && IsPrefix([ADDRS_PER_INODE + d]) && IsPrefix(r)
    ensures Walk(SetSlot(nodes, ino, ADDRS_PER_INODE + d, 0), f, r)
         == if f == ino && r == [ADDRS_PER_INODE + d] then 0 else Walk(nodes, f, r)
    decreases |r|
  {
    if r != [] {
      var up := r[..|r| - 1];
      EndInRange(r);
      UnlinkWalk(nodes, files, ino, d, f, up);
      assert Separate(nodes, f, up, ino, []);
      assert ino != 0 && Walk(nodes, ino, []) == ino;
      hide Forest, Separate;
      if Walk(nodes, f, up) == ino {
        assert f == ino && up == [] && r == [r[0]];
      } else {
        assert f == ino ==> up != [];
      }
    }
  }

  /** The blocks below the link are gone from the flat map, the others stay. */
  lemma UnlinkAddr(nodes: Nodes, files: set<int>, ino: int, d: int, f: int, k: int)
    requires Forest(nodes, files) && ino in files && f in files && 0 <= d < 2 && IsPrefix([ADDRS_PER_INODE + d])
    requires 0 <= k < MAX_BLOCKS
    ensures AddrAt(SetSlot(nodes, ino, ADDRS_PER_INODE + d, 0), f, k)
         == if f == ino && InDirect(d, k) then 0 else AddrAt(nodes, f, k)
  {
    var p := Path(k);
    var up := p[..|p| - 1];
    EndInRange(p);
    UnlinkWalk(nodes, files, ino, d, f, up);
    assert Separate(nodes, f, up, ino, []);
    DirectUp(d, k);
  }

  predicate InDirect(d: int, k: int) {
    ADDRS_PER_INODE + d * ADDRS_PER_BLOCK <= k < ADDRS_PER_INODE + (d + 1) * ADDRS_PER_BLOCK
  }

  lemma DirectUp(d: int, k: int)
    requires 0 <= d < 2 && 0 <= k < MAX_BLOCKS
    ensures Path(k)[..|Path(k)| - 1] == [ADDRS_PER_INODE + d] <==> InDirect(d, k)
    ensures Path(k)[..|Path(k)| - 1] == [] ==> k < ADDRS_PER_INODE && Path(k) == [k]
  {
  }

  lemma UnlinkForest(nodes: Nodes, files: set<int>, ino: int, d: int)
    requires Forest(nodes, files) && ino in files && 0 <= d < 2 && IsPrefix([ADDRS_PER_INODE + d])
    ensures Forest(SetSlot(nodes, ino, ADDRS_PER_INODE + d, 0), files)
  {
    var now := SetSlot(nodes, ino, ADDRS_PER_INODE + d, 0);
    forall f, r, f', r' | f in files && f' in files && IsPrefix(r) && IsPrefix(r')
      ensures Separate(now, f, r, f', r')
    {
      UnlinkWalk(nodes, files, ino, d, f, r);
      UnlinkWalk(nodes, files, ino, d, f', r');
      assert Separate(nodes, f, r, f', r');
    }
  }

  // ----- What the code does to the two direct nodes -----

  /** From which slot on a direct node is cleared (1018: not at all), and whether it is then unlinked. */
  datatype Plan = Plan(start: int, drop: bool)

  const UNTOUCHED := Plan(ADDRS_PER_BLOCK, false)

  /**
   * One round of the direct-node loop from the state of `offset`: `head` and `low` are offset[0] and
   * offset[1].  A missing node leaves the offsets alone; `flag` stands for a NULL offset.
   */
  function Round(exists_: bool, flag: bool, head: int, low: int): (Plan, int, int) {
    if !exists_ then (UNTOUCHED, head, low)
    else if flag then (Plan(0, true), head, low)
    else if low == -1 then (Plan(head, false), head - 1, low)
    else (Plan(low, low - 1 == 0), head, low - 1)
  }

  /** Both rounds, from the path of `from`. */
  function Plans(first: bool, second: bool, from: int): (Plan, Plan)
    requires 0 <= from < DIRECT_END
  {
    if from < ADDRS_PER_INODE then
      (Round(first, true, ADDRS_PER_INODE, -1).0, Round(second, true, ADDRS_PER_INODE, -1).0)
    else
      var past := from - ADDRS_PER_INODE;
      var head, low := ADDRS_PER_INODE + past / ADDRS_PER_BLOCK, past % ADDRS_PER_BLOCK;
      if head == 901 then (UNTOUCHED, Round(second, false, head, low).0)
      else
        var (p, head', low') := Round(first, false, head, low);
        (p, Round(second, false, head', low').0)
  }

  function Direct(nodes: Nodes, ino: int, d: int): int
    requires 0 <= d < 2
  {
    NodeTree.Slot(nodes, ino, ADDRS_PER_INODE + d)
  }

  /** The block indices that are unmapped afterwards. */
  predicate Gone(nodes: Nodes, ino: int, from: int, k: int)
    requires 0 <= from < DIRECT_END
  {
    var (p, q) := Plans(Direct(nodes, ino, 0) != 0, Direct(nodes, ino, 1) != 0, from);
    if k < ADDRS_PER_INODE then from <= k
    else if k < 1918 then p.drop || p.start <= k - ADDRS_PER_INODE
    else k < DIRECT_END && (q.drop || q.start <= k - 1918)
  }

  /** The block indices one round unmaps. */
  predicate Trimmed(d: int, p: Plan, k: int) {
    InDirect(d, k) && (p.drop || p.start <= k - DirectBase(d))
  }

  /** The blocks one round invalidates. */
  function Trims(nodes: Nodes, ino: int, d: int, p: Plan): seq<int>
    requires 0 <= d < 2 && 0 <= p.start
  {
    Former(nodes, ino, DirectBase(d) + p.start, DirectBase(d + 1))
  }

  lemma DirectIsWalk(nodes: Nodes, files: set<int>, ino: int, d: int)
    requires Forest(nodes, files) && ino in files && 0 <= d < 2
    ensures IsPrefix([ADDRS_PER_INODE + d]) && Walk(nodes, ino, [ADDRS_PER_INODE + d]) == Direct(nodes, ino, d)
    ensures ino != 0
  {
    assert [ADDRS_PER_INODE + d][..0] == [];
  }

  /** After a cut the flat map, the links and the forest are as the round needs them. */
  lemma CutTrims(was: Nodes, now: Nodes, files: set<int>, ino: int, d: int, start: int, t: Table, u: Table)
    requires 0 <= d < 2 && 0 <= start <= ADDRS_PER_BLOCK && ino in files && Forest(was, files)
    requires Cut(was, now, files, ino, DirectBase(d) + start, DirectBase(d + 1), t, u)
    ensures Forest(now, files)
    ensures forall f, k {:trigger AddrAt(now, f, k)} :: f in files && 0 <= k < MAX_BLOCKS ==>
              AddrAt(now, f, k) == if f == ino && Trimmed(d, Plan(start, false), k) then 0 else AddrAt(was, f, k)
    ensures forall e {:trigger Direct(now, ino, e)} :: 0 <= e < 2 ==> Direct(now, ino, e) == Direct(was, ino, e)
    ensures AllInTable(t, Trims(was, ino, d, Plan(start, false)))
    ensures u == InvalidateAll(t, Trims(was, ino, d, Plan(start, false)))
  {
    hide AddrAt, Walk, InvalidateAll;
    var lo, hi := DirectBase(d) + start, DirectBase(d + 1);
    forall f, k | f in files && 0 <= k < MAX_BLOCKS
      ensures AddrAt(now, f, k) == if f == ino && Trimmed(d, Plan(start, false), k) then 0 else AddrAt(was, f, k)
    {
      assert ClearedAt(was, now, ino, lo, hi, f, k);
    }
    forall e | 0 <= e < 2 ensures Direct(now, ino, e) == Direct(was, ino, e) {
      DirectIsWalk(was, files, ino, e);
      DirectIsWalk(now, files, ino, e);
      assert SameNode(was, now, ino, [ADDRS_PER_INODE + e]);
    }
  }

  /** Unlinking after the cut: everything below the direct node is gone from the map. */
  lemma UnlinkAll(was: Nodes, now: Nodes, files: set<int>, ino: int, d: int)
    requires Forest(now, files) && ino in files && 0 <= d < 2 && IsPrefix([ADDRS_PER_INODE + d])
    ensures var cut := SetSlot(now, ino, ADDRS_PER_INODE + d, 0);
            && Forest(cut, files)
            && (forall f, k {:trigger AddrAt(cut, f, k)} :: f in files && 0 <= k < MAX_BLOCKS ==>
                  AddrAt(cut, f, k) == if f == ino && InDirect(d, k) then 0 else AddrAt(now, f, k))
            && (forall e {:trigger Direct(cut, ino, e)} :: 0 <= e < 2 && e != d ==>
                Direct(cut, ino, e) == Direct(now, ino, e))
  {
    hide AddrAt, Walk;
    var cut := SetSlot(now, ino, ADDRS_PER_INODE + d, 0);
    UnlinkForest(now, files, ino, d);
    forall f, k | f in files && 0 <= k < MAX_BLOCKS
      ensures AddrAt(cut, f, k) == if f == ino && InDirect(d, k) then 0 else AddrAt(now, f, k)
    {
      UnlinkAddr(now, files, ino, d, f, k);
    }
  }

  /** A round on a missing node does nothing, and there is nothing to do. */
  lemma NothingToTrim(nodes: Nodes, files: set<int>, ino: int, d: int, t: Table)
    requires Forest(nodes, files) && 0 <= d < 2
    ensures var gone := Trims(nodes, ino, d, UNTOUCHED);
            gone == [] && AllInTable(t, gone) && InvalidateAll(t, gone) == t
  {
  }

  // ----- The three stages of a truncation -----

  function PlansOf(nodes: Nodes, ino: int, from: int): (Plan, Plan)
    requires 0 <= from < DIRECT_END
  {
    Plans(Direct(nodes, ino, 0) != 0, Direct(nodes, ino, 1) != 0, from)
  }

  function Least(a: int, b: int): int {
    if a < b then a else b
  }

  predicate GoneBy(nodes: Nodes, ino: int, from: int, stage: int, k: int)
    requires 0 <= from < DIRECT_END
  {
    var (p, q) := PlansOf(nodes, ino, from);
    (from <= k < ADDRS_PER_INODE) || (stage >= 2 && Trimmed(0, p, k)) || (stage >= 3 && Trimmed(1, q, k))
  }

  function ReleasedBy(nodes: Nodes, ino: int, from: int, stage: int): seq<int>
    requires 0 <= from < DIRECT_END
  {
    var (p, q) := PlansOf(nodes, ino, from);
    Former(nodes, ino, Least(from, ADDRS_PER_INODE), ADDRS_PER_INODE)
    + (if stage >= 2 then Trims(nodes, ino, 0, p) else [])
    + (if stage >= 3 then Trims(nodes, ino, 1, q) else [])
  }

  /** The blocks a truncation invalidates, in order. */
  function Released(nodes: Nodes, ino: int, from: int): seq<int>
    requires 0 <= from < DIRECT_END
  {
    ReleasedBy(nodes, ino, from, 3)
  }

  ghost predicate Staged(was: Nodes, now: Nodes, files: set<int>, ino: int, from: int, stage: int, t: Table, u: Table)
    requires 0 <= from < DIRECT_END
  {
    && Forest(now, files)
    && (forall f, k {:trigger AddrAt(now, f, k)} :: f in files && 0 <= k < MAX_BLOCKS ==>
          AddrAt(now, f, k) == if f == ino && GoneBy(was, ino, from, stage, k) then 0 else AddrAt(was, f, k))
    && (forall e {:trigger Direct(now, ino, e)} :: 0 <= e < 2 && stage - 1 <= e ==>
        Direct(now, ino, e) == Direct(was, ino, e))
    && AllInTable(t, ReleasedBy(was, ino, from, stage))
    && u == InvalidateAll(t, ReleasedBy(was, ino, from, stage))
    && Mapped(now, ino, u)
  }

  lemma StillMapped(was: Nodes, now: Nodes, ino: int, t: Table, u: Table)
    requires Mapped(was, ino, t) && |u.zones| == |t.zones| && u.zoneSize == t.zoneSize
    requires forall k :: 0 <= k < DIRECT_END ==> AddrAt(now, ino, k) == 0 || AddrAt(now, ino, k) == AddrAt(was, ino, k)
    ensures Mapped(now, ino, u)
  {
  }

  lemma StageInode(was: Nodes, now: Nodes, files: set<int>, ino: int, from: int, t: Table, u: Table)
    requires Forest(was, files) && ino in files && Mapped(was, ino, t) && 0 <= from < DIRECT_END
    requires Cut(was, now, files, ino, Least(from, ADDRS_PER_INODE), ADDRS_PER_INODE, t, u)
    ensures Staged(was, now, files, ino, from, 1, t, u)
  {
    hide AddrAt, Walk, InvalidateAll, Mapped, AllInTable, PlansOf;
    var lo, hi := Least(from, ADDRS_PER_INODE), ADDRS_PER_INODE;
    forall f, k | f in files && 0 <= k < MAX_BLOCKS
      ensures AddrAt(now, f, k) == if f == ino && GoneBy(was, ino, from, 1, k) then 0 else AddrAt(was, f, k)
    {
      assert ClearedAt(was, now, ino, lo, hi, f, k);
    }
    forall e | 0 <= e < 2 ensures Direct(now, ino, e) == Direct(was, ino, e) {
      DirectIsWalk(was, files, ino, e);
      DirectIsWalk(now, files, ino, e);
      assert SameNode(was, now, ino, [ADDRS_PER_INODE + e]);
    }
    assert ReleasedBy(was, ino, from, 1) == Former(was, ino, lo, ADDRS_PER_INODE);
    StillMapped(was, now, ino, t, u);
  }

  /** The next round, on top of the stages before it. */
  lemma StageRound(was: Nodes, mid: Nodes, now: Nodes, files: set<int>, ino: int, from: int, d: int, p: Plan,
                   t: Table, m: Table, u: Table)
    requires ino in files && 0 <= from < DIRECT_END && 0 <= d < 2 && 0 <= p.start
    requires p == (if d == 0 then PlansOf(was, ino, from).0 else PlansOf(was, ino, from).1)
    requires Staged(was, mid, files, ino, from, d + 1, t, m) && Forest(now, files)
    requires forall f, k {:trigger AddrAt(now, f, k)} :: f in files && 0 <= k < MAX_BLOCKS ==>
               AddrAt(now, f, k) == if f == ino && Trimmed(d, p, k) then 0 else AddrAt(mid, f, k)
    requires forall e :: 0 <= e < 2 && e != d ==> Direct(now, ino, e) == Direct(mid, ino, e)
    requires AllInTable(m, Trims(mid, ino, d, p)) && u == InvalidateAll(m, Trims(mid, ino, d, p))
    ensures Staged(was, now, files, ino, from, d + 2, t, u)
  {
    hide AddrAt, Mapped, AllInTable, PlansOf, Former, InvalidateAll, Forest;
    SameTrims(was, mid, files, ino, from, d, p);
    SameTable(t, m, Trims(was, ino, d, p));
    InvalidateMore(t, ReleasedBy(was, ino, from, d + 1), Trims(was, ino, d, p));
    assert ReleasedBy(was, ino, from, d + 1) + Trims(was, ino, d, p) == ReleasedBy(was, ino, from, d + 2);
    StillMapped(mid, now, ino, m, u);
  }

  lemma SameTable(t: Table, m: Table, s: seq<int>)
    requires AllInTable(m, s) && |m.zones| == |t.zones| && m.zoneSize == t.zoneSize
    ensures AllInTable(t, s)
  {
  }

  /** What the next round may rely on. */
  lemma StageGives(was: Nodes, now: Nodes, files: set<int>, ino: int, from: int, stage: int, t: Table, u: Table)
    requires 0 <= from < DIRECT_END && 1 <= stage <= 2 && Staged(was, now, files, ino, from, stage, t, u)
    ensures Forest(now, files) && Mapped(now, ino, u)
    ensures Direct(now, ino, stage - 1) == Direct(was, ino, stage - 1)
  {
    hide AddrAt, Mapped, AllInTable, InvalidateAll, Forest, GoneBy, ReleasedBy;
  }

  lemma SameTrims(was: Nodes, mid: Nodes, files: set<int>, ino: int, from: int, d: int, p: Plan)
    requires ino in files && 0 <= from < DIRECT_END && 0 <= d < 2 && 0 <= p.start
    requires forall f, k {:trigger AddrAt(mid, f, k)} :: f in files && 0 <= k < MAX_BLOCKS ==>
               AddrAt(mid, f, k) == if f == ino && GoneBy(was, ino, from, d + 1, k) then 0 else AddrAt(was, f, k)
    ensures Trims(mid, ino, d, p) == Trims(was, ino, d, p)
  {
    hide AddrAt, PlansOf;
    FormerSame(mid, was, ino, DirectBase(d) + p.start, DirectBase(d + 1));
  }

  lemma StageSkip(was: Nodes, now: Nodes, files: set<int>, ino: int, from: int, t: Table, u: Table)
    requires 0 <= from < DIRECT_END && PlansOf(was, ino, from).0 == UNTOUCHED
    requires Staged(was, now, files, ino, from, 1, t, u)
    ensures Staged(was, now, files, ino, from, 2, t, u)
  {
    hide AddrAt, Mapped, AllInTable, PlansOf, InvalidateAll, Forest;
    assert Trims(was, ino, 0, UNTOUCHED) == [];
    assert ReleasedBy(was, ino, from, 2) == ReleasedBy(was, ino, from, 1);
  }

  lemma StageDone(was: Nodes, now: Nodes, files: set<int>, ino: int, from: int, t: Table, u: Table)
    requires 0 <= from < DIRECT_END && Staged(was, now, files, ino, from, 3, t, u)
    ensures Forest(now, files)
    ensures forall f, k {:trigger AddrAt(now, f, k)} :: f in files && 0 <= k < MAX_BLOCKS ==>
              AddrAt(now, f, k) == if f == ino && Gone(was, ino, from, k) then 0 else AddrAt(was, f, k)
    ensures AllInTable(t, Released(was, ino, from)) && u == InvalidateAll(t, Released(was, ino, from))
  {
    hide AddrAt, Mapped, AllInTable, InvalidateAll, Forest, Plans, Former;
  }

  lemma InodeIsFile(nodes: Nodes, files: set<int>, ino: int)
    requires Forest(nodes, files) && ino in files
    ensures ino != 0
  {
  }

  /** The offsets of a block of the inode or its direct nodes, as the loop may have decremented them. */
  ghost predicate OffsetOk(offset: array<int32>)
    reads offset
  {
    offset.Length >= 4 && 0 <= offset[0] <= 901 && -1 <= offset[1] as int < ADDRS_PER_BLOCK
  }

  lemma PathInDirect(offset: array<int32>, len: int32, from: int)
    requires offset.Length >= 4 && 0 <= len <= 3 && 0 <= from < DIRECT_END
    requires BlockPath.PathIn(offset, len) == Path(from)
    requires forall i :: len as int < i < 4 ==> offset[i] == -1
    ensures OffsetOk(offset) && offset[2] == -1
    ensures from < ADDRS_PER_INODE ==> offset[0] as int == from && offset[1] == -1
    ensures from >= ADDRS_PER_INODE ==>
        offset[0] as int == ADDRS_PER_INODE + (from - ADDRS_PER_INODE) / ADDRS_PER_BLOCK
        && offset[1] as int == (from - ADDRS_PER_INODE) % ADDRS_PER_BLOCK
  {
    assert len as int == |Path(from)| - 1;
    assert BlockPath.PathIn(offset, len)[0] == offset[0] as int;
    if from >= ADDRS_PER_INODE {
      assert BlockPath.PathIn(offset, len)[1] == offset[1] as int;
    }
  }

  // ----- The code -----

  class Truncator {
    const zm: Manager
    var nodes: Nodes
    /** nids given to `invalidate_nat`, in order. */
    var dropped: seq<int>
    ghost const files: set<int>

    constructor (zm: Manager, nodes: Nodes, ghost files: set<int>)
      ensures this.zm == zm && this.nodes == nodes && dropped == [] && this.files == files
    {
      this.zm, this.nodes, this.dropped, this.files := zm, nodes, [], files;
    }

    /** One slot: a mapped block is invalidated and unmapped. */
    method ClearSlot(nid: int, i: int, ghost ino: int, ghost lo: int, ghost k: int, ghost was: Nodes, ghost t: Table)
      requires zm.Valid() && ino in files && 0 <= lo <= k < DIRECT_END && Mapped(was, ino, t)
      requires SlotIs(was, ino, nid, i, k) && Cut(was, nodes, files, ino, lo, k, t, zm.T())
      modifies this`nodes, zm.zoneInfo
      ensures zm.Valid() && Cut(was, nodes, files, ino, lo, k + 1, t, zm.T())
    {
      hide Cleared, SlotIs, InvalidateAll, AllInTable, Invalidate, InTable;
      StillSlot(was, nodes, files, ino, nid, i, k, lo);
      SlotHolds(nodes, ino, nid, i, k);
      var a := PageOf(nodes, nid)[i];
      if a != 0 {
        OneMore(t, Former(was, ino, lo, k), a);
        zm.InvalidateBlkaddr(a);
        ClearNext(was, nodes, files, ino, lo, k);
        nodes := SetSlot(nodes, nid, i, 0);
      } else {
        ClearHole(was, nodes, files, ino, lo, k);
        assert Former(was, ino, lo, k) + [] == Former(was, ino, lo, k);
      }
    }

    /**
     * The loop that clears slots `lo` to `hi` of a node page: every mapped block is invalidated once
     * and unmapped.  Slot `i` is block `base + i` of the file.
     */
    method ClearSlots(nid: int, lo: int, hi: int, ghost ino: int, ghost base: int)
      requires zm.Valid() && Forest(nodes, files) && ino in files && Mapped(nodes, ino, zm.T())
      requires 0 <= lo <= hi <= ADDRS_PER_BLOCK && 0 <= base && base + hi <= DIRECT_END
      requires SlotsAre(nodes, ino, nid, base, hi)
      modifies this`nodes, zm.zoneInfo
      ensures zm.Valid() && Cut(old(nodes), nodes, files, ino, base + lo, base + hi, old(zm.T()), zm.T())
    {
      hide Cut, Mapped;
      ghost var was, t := nodes, zm.T();
      CutNothing(was, files, ino, base + lo, t);
      var i := lo;
      while i < hi
        invariant lo <= i <= hi
        invariant zm.Valid() && Cut(was, nodes, files, ino, base + lo, base + i, t, zm.T())
      {
        assert SlotIs(was, ino, nid, i, base + i);
        ClearSlot(nid, i, ino, base + lo, base + i, was, t);
        i := i + 1;
      }
    }

    /** The number of leading offsets that are set. */
    method OffsetLen(offset: array<int32>) returns (len: int)
      requires OffsetOk(offset) && offset[2] == -1
      ensures len == if offset[1] == -1 then 1 else 2
    {
      len := 0;
      while len < 4 && offset[len] != -1
        invariant 0 <= len <= 2 && forall j :: 0 <= j < len ==> offset[j] != -1
        decreases 4 - len
      {
        len := len + 1;
      }
    }

    /** `xcpfs_recurse` at depth 0; a null `offset` clears the whole node. */
    method RecurseDirect(offset: array?<int32>, nid: int, ghost ino: int, ghost d: int) returns (ghost start: int)
      requires zm.Valid() && Forest(nodes, files) && ino in files && Mapped(nodes, ino, zm.T())
      requires 0 <= d < 2 && IsPrefix([ADDRS_PER_INODE + d]) && nid == Walk(nodes, ino, [ADDRS_PER_INODE + d]) != 0
      requires offset != null ==> OffsetOk(offset) && offset[2] == -1
      modifies this`nodes, zm.zoneInfo, offset
      ensures 0 <= start <= ADDRS_PER_BLOCK
      ensures start == if offset == null then 0
                       else if old(offset[1]) == -1 then old(offset[0]) as int else old(offset[1]) as int
      ensures zm.Valid() && Cut(old(nodes), nodes, files, ino, DirectBase(d) + start, DirectBase(d + 1), old(zm.T()),
          zm.T())
      ensures offset != null ==> offset[2] == -1
      ensures offset != null ==> offset[0] == old(offset[0]) - if old(offset[1]) == -1 then 1 else 0
      ensures offset != null ==> offset[1] == old(offset[1]) - if old(offset[1]) == -1 then 0 else 1
    {
      hide Cut, Mapped, Walk;
      var from := 0;
      var len := 0;
      if offset != null {
        len := OffsetLen(offset);
        from := offset[len - 1] as int;
      }
      start := from;
      DirectSlots(nodes, ino, d);
      ClearSlots(nid, from, ADDRS_PER_BLOCK, ino, DirectBase(d));
      if offset != null {
        offset[len - 1] := offset[len - 1] - 1;
      }
    }

    /** One round of the direct-node loop of `xcpfs_truncate_blocks`. */
    method TruncateDirect(ino: int, d: int, offset: array<int32>, flag: bool, ghost p: Plan)
      requires zm.Valid() && Forest(nodes, files) && ino in files && Mapped(nodes, ino, zm.T())
      requires 0 <= d < 2 && OffsetOk(offset) && offset[2] == -1
      requires p == Round(Direct(nodes, ino, d) != 0, flag, offset[0] as int, offset[1] as int).0
      modifies this`nodes, this`dropped, zm.zoneInfo, offset
      ensures zm.Valid() && Forest(nodes, files)
      ensures forall f, k {:trigger AddrAt(nodes, f, k)} :: f in files && 0 <= k < MAX_BLOCKS ==>
                AddrAt(nodes, f, k) == if f == ino && Trimmed(d, p, k) then 0 else AddrAt(old(nodes), f, k)
      ensures forall e :: 0 <= e < 2 && e != d ==> Direct(nodes, ino, e) == old(Direct(nodes, ino, e))
      ensures Direct(nodes, ino, d) == if p.drop then 0 else old(Direct(nodes, ino, d))
      ensures AllInTable(old(zm.T()), Trims(old(nodes), ino, d, p))
      ensures zm.T() == InvalidateAll(old(zm.T()), Trims(old(nodes), ino, d, p))
      ensures dropped == old(dropped) + if p.drop then [old(Direct(nodes, ino, d))] else []
      ensures var r := old(Round(Direct(nodes, ino, d) != 0, flag, offset[0] as int, offset[1] as int));
              offset[0] as int == r.1 && offset[1] as int == r.2 && offset[2] == -1
    {
      hide Mapped, Cut, Forest, Walk, AddrAt, Addr, InvalidateAll, AllInTable, Former;
      ghost var was, t := nodes, zm.T();
      DirectIsWalk(was, files, ino, d);
      var nid := PageOf(nodes, ino)[ADDRS_PER_INODE + d];
      if nid != 0 {
        var start := RecurseDirect(if flag then null else offset, nid, ino, d);
        CutTrims(was, nodes, files, ino, d, start, t, zm.T());
        if flag || offset[1] == 0 {
          dropped := dropped + [nid];
          UnlinkAll(was, nodes, files, ino, d);
          nodes := SetSlot(nodes, ino, ADDRS_PER_INODE + d, 0);
        }
      } else {
        NothingToTrim(was, files, ino, d, t);
      }
    }

    /** The part of `xcpfs_truncate_blocks` that clears the address slots of the inode itself. */
    method TruncateInode(ino: int, offset: array<int32>) returns (flag: bool)
      requires zm.Valid() && Forest(nodes, files) && ino in files && Mapped(nodes, ino, zm.T())
      requires offset.Length >= 4 && 0 <= offset[0]
      modifies this`nodes, zm.zoneInfo, offset
      ensures zm.Valid() && flag == old(offset[0] as int < ADDRS_PER_INODE)
      ensures Cut(old(nodes), nodes, files, ino, if flag then old(offset[0]) as int else ADDRS_PER_INODE,
          ADDRS_PER_INODE, old(zm.T()), zm.T())
      ensures offset[0] == (if flag then ADDRS_PER_INODE as int32 else old(offset[0]))
      ensures offset[1..4] == old(offset[1..4])
    {
      hide Cut;
      flag := false;
      if offset[0] as int < ADDRS_PER_INODE {
        InodeIsFile(nodes, files, ino);
        InodeSlots(nodes, ino);
        ClearSlots(ino, offset[0] as int, ADDRS_PER_INODE, ino, 0);
        offset[0] := ADDRS_PER_INODE as int32;
        flag := true;
      } else {
        CutNothing(nodes, files, ino, ADDRS_PER_INODE, zm.T());
      }
    }

    /** `xcpfs_truncate_blocks` up to and with the first direct node. */
    method TruncateFront(ino: int, freeFrom: int, offset: array<int32>, ghost p: Plan, ghost q: Plan)
        returns (flag: bool)
      requires zm.Valid() && Forest(nodes, files) && ino in files && Mapped(nodes, ino, zm.T())
      requires 0 <= freeFrom < DIRECT_END && (p, q) == PlansOf(nodes, ino, freeFrom)
      requires OffsetOk(offset) && offset[2] == -1
      requires freeFrom < ADDRS_PER_INODE ==> offset[0] as int == freeFrom && offset[1] == -1
      requires freeFrom >= ADDRS_PER_INODE ==>
          offset[0] as int == ADDRS_PER_INODE + (freeFrom - ADDRS_PER_INODE) / ADDRS_PER_BLOCK
          && offset[1] as int == (freeFrom - ADDRS_PER_INODE) % ADDRS_PER_BLOCK
      modifies this`nodes, this`dropped, zm.zoneInfo, offset
      ensures zm.Valid() && Staged(old(nodes), nodes, files, ino, freeFrom, 2, old(zm.T()), zm.T())
      ensures OffsetOk(offset) && offset[2] == -1
      ensures q == Round(Direct(old(nodes), ino, 1) != 0, flag, offset[0] as int, offset[1] as int).0
      ensures Direct(nodes, ino, 0) == if p.drop then 0 else old(Direct(nodes, ino, 0))
      ensures dropped == old(dropped) + if p.drop then [old(Direct(nodes, ino, 0))] else []
    {
      hide Staged, Cut, Mapped, Forest, Walk, AddrAt, Former, InvalidateAll, AllInTable, Path, Gone, Released;
      ghost var was, t := nodes, zm.T();
      flag := TruncateInode(ino, offset);
      StageInode(was, nodes, files, ino, freeFrom, t, zm.T());
      ghost var s1, t1 := nodes, zm.T();
      StageGives(was, s1, files, ino, freeFrom, 1, t, t1);
      if offset[0] as int - ADDRS_PER_INODE == 0 {
        TruncateDirect(ino, 0, offset, flag, p);
        StageRound(was, s1, nodes, files, ino, freeFrom, 0, p, t, t1, zm.T());
      } else {
        StageSkip(was, nodes, files, ino, freeFrom, t, zm.T());
      }
    }

    /**
     * `xcpfs_truncate_blocks` on a file without indirect nodes: afterwards exactly the blocks in
     * `Gone` are unmapped, no other file changed, and exactly the listed blocks were invalidated.
     */
    method TruncateBlocks(ino: int, freeFrom: int)
      requires zm.Valid() && Forest(nodes, files) && ino in files && Mapped(nodes, ino, zm.T())
      requires 0 <= freeFrom < DIRECT_END && NoIndirect(nodes, ino)
      modifies this`nodes, this`dropped, zm.zoneInfo
      ensures zm.Valid() && Forest(nodes, files)
      ensures forall f, k {:trigger AddrAt(nodes, f, k)} :: f in files && 0 <= k < MAX_BLOCKS ==>
                AddrAt(nodes, f, k)
                == if f == ino && Gone(old(nodes), ino, freeFrom, k) then 0 else AddrAt(old(nodes), f, k)
      ensures AllInTable(old(zm.T()), Released(old(nodes), ino, freeFrom))
      ensures zm.T() == InvalidateAll(old(zm.T()), Released(old(nodes), ino, freeFrom))
      ensures var d0, d1 := Direct(old(nodes), ino, 0), Direct(old(nodes), ino, 1);
              var cut0 := d0 != 0 && (freeFrom < 900 || freeFrom == 901);
              var cut1 := d1 != 0 && (freeFrom < 900 || freeFrom == 1919 || freeFrom == if d0 != 0 then 902 else 901);
              && Direct(nodes, ino, 0) == (if cut0 then 0 else d0)
              && Direct(nodes, ino, 1) == (if cut1 then 0 else d1)
              && dropped == old(dropped) + (if cut0 then [d0] else []) + (if cut1 then [d1] else [])
    {
      hide Staged, Cut, Mapped, Forest, Walk, AddrAt, Former, InvalidateAll, AllInTable, Path, Gone, Released;
      var offset := new int32[5](i => -1);
      var len := GetPath(offset, freeFrom as int32);
      ghost var was, t := nodes, zm.T();
      ghost var (p, q) := PlansOf(was, ino, freeFrom);
      PathInDirect(offset, len, freeFrom);
      var flag := TruncateFront(ino, freeFrom, offset, p, q);
      ghost var s2, t2 := nodes, zm.T();
      StageGives(was, s2, files, ino, freeFrom, 2, t, t2);
      TruncateDirect(ino, 1, offset, flag, q);
      StageRound(was, s2, nodes, files, ino, freeFrom, 1, q, t, t2, zm.T());
      StageDone(was, nodes, files, ino, freeFrom, t, zm.T());
      DropsWhen(Direct(was, ino, 0) != 0, Direct(was, ino, 1) != 0, freeFrom);
    }
  }

  /** The three slots for indirect nodes are empty. */
  predicate NoIndirect(nodes: Nodes, ino: int) {
    forall e :: ADDRS_PER_INODE + 2 <= e < ADDRS_PER_INODE + 5 ==> NodeTree.Slot(nodes, ino, e) == 0
  }

  /** While earlier blocks are cleared, the next slot still holds the next block, unchanged. */
  lemma StillSlot(was: Nodes, now: Nodes, files: set<int>, ino: int, nid: int, i: int, k: int, lo: int)
    requires Cleared(was, now, files, ino, lo, k) && ino in files && 0 <= k < MAX_BLOCKS
    requires SlotIs(was, ino, nid, i, k)
    ensures SlotIs(now, ino, nid, i, k) && CanStore(now, files, ino, Path(k))
    ensures AddrAt(now, ino, k) == AddrAt(was, ino, k)
  {
    var p := Path(k);
    assert SameNode(was, now, ino, p[..|p| - 1]);
    assert ClearedAt(was, now, ino, lo, k, ino, k);
  }

  // ----- Which blocks and which nodes go, by block number -----

  /**
   * The first direct node goes with a truncation below 900 or to 901; the second below 900, to 1919, and
   * to 902, or 901 if there is no first one.
   */
  lemma DropsWhen(first: bool, second: bool, from: int)
    requires 0 <= from < DIRECT_END
    ensures var (p, q) := Plans(first, second, from);
            && (p.drop <==> first && (from < 900 || from == 901))
            && (q.drop <==> second && (from < 900 || from == 1919 || from == if first then 902 else 901))
  {
  }

  /**
   * From which block on the second direct node is cleared: a truncation inside the first node spares it up to
   * a slot that depends on whether the first one is there.
   */
  function SecondFrom(first: bool, second: bool, from: int): int {
    if !second then 2936
    else if from < 900 then 1918
    else if from >= 1918 then from
    else if !first then from + 1018
    else if from == 900 then 2818
    else from + 1017
  }

  function FirstFrom(first: bool, from: int): int {
    if !first || from >= 1918 then 1918 else if from < 900 then 900 else from
  }

  lemma StartsAt(first: bool, second: bool, from: int)
    requires 0 <= from < DIRECT_END
    ensures var (p, q) := Plans(first, second, from);
            && p.start == FirstFrom(first, from) - 900 && q.start == SecondFrom(first, second, from) - 1918
  {
  }

  /** The unmapped blocks: those of the cleared slots, and all below a node that went. */
  lemma GoneByNumber(nodes: Nodes, ino: int, from: int, k: int)
    requires 0 <= from < DIRECT_END && 0 <= k < 2936
    ensures var first, second := Direct(nodes, ino, 0) != 0, Direct(nodes, ino, 1) != 0;
            Gone(nodes, ino, from, k) <==>
              if k < 900 then from <= k
              else if k < 1918 then FirstFrom(first, from) <= k || (first && from == 901)
              else SecondFrom(first, second, from) <= k
                   || (second && (from == 1919 || from == if first then 902 else 901))
  {
    var first, second := Direct(nodes, ino, 0) != 0, Direct(nodes, ino, 1) != 0;
    hide Direct;
    DropsWhen(first, second, from);
    StartsAt(first, second, from);
  }

  /** The released blocks, in order: those of the inode, of the first direct node and of the second. */
  lemma ReleasedByNumber(nodes: Nodes, ino: int, from: int)
    requires 0 <= from < DIRECT_END
    ensures var first, second := Direct(nodes, ino, 0) != 0, Direct(nodes, ino, 1) != 0;
            Released(nodes, ino, from)
            == Former(nodes, ino, from, 900) + Former(nodes, ino, FirstFrom(first, from), 1918)
               + Former(nodes, ino, SecondFrom(first, second, from), 2936)
  {
    hide Former, Direct, Plans;
    StartsAt(Direct(nodes, ino, 0) != 0, Direct(nodes, ino, 1) != 0, from);
    if 900 < from {
      FormerNone(nodes, ino, from);
      FormerNone(nodes, ino, 900);
    }
  }

  lemma FormerNone(nodes: Nodes, ino: int, lo: int)
    requires 900 <= lo
    ensures Former(nodes, ino, lo, 900) == []
  {
  }

  // ----- When truncation is right -----

  /** What truncation is for: the blocks from `from` on are unmapped, those below stay. */
  ghost predicate TruncatesRight(nodes: Nodes, ino: int, from: int)
    requires 0 <= from < DIRECT_END
  {
    forall k :: 0 <= k < DIRECT_END ==>
      (if Gone(nodes, ino, from, k) then 0 else AddrAt(nodes, ino, k))
      == (if k < from then AddrAt(nodes, ino, k) else 0)
  }

  /** How many leading blocks of the second direct node a truncation inside the first one forgets. */
  function Forgotten(nodes: Nodes, ino: int, from: int): int
    requires 0 <= from < DIRECT_END
  {
    var j := from - ADDRS_PER_INODE;
    if from < ADDRS_PER_INODE || from >= 1918 || Direct(nodes, ino, 1) == 0 then 0
    else if Direct(nodes, ino, 0) == 0 then if j == 1 then 0 else j
    else if j == 0 then ADDRS_PER_INODE
    else if j == 2 then 0
    else j - 1
  }

  lemma MissingDirect(nodes: Nodes, files: set<int>, ino: int, d: int, k: int)
    requires Forest(nodes, files) && ino in files && 0 <= d < 2 && InDirect(d, k) && Direct(nodes, ino, d) == 0
    ensures AddrAt(nodes, ino, k) == 0
  {
    DirectIsWalk(nodes, files, ino, d);
    DirectUp(d, k);
  }

  /** A block whose node exists is treated wrongly exactly when it is one of these. */
  lemma WrongAt(nodes: Nodes, ino: int, from: int, k: int)
    requires 0 <= from < DIRECT_END && 0 <= k < DIRECT_END
    requires forall d :: 0 <= d < 2 && InDirect(d, k) ==> Direct(nodes, ino, d) != 0
    ensures (Gone(nodes, ino, from, k) != (from <= k)) <==>
            || (from >= ADDRS_PER_INODE && (from - ADDRS_PER_INODE) % ADDRS_PER_BLOCK == 1 && k == from - 1)
            || 1918 <= k < 1918 + Forgotten(nodes, ino, from)
  {
    hide Direct;
    assert InDirect(0, k) <==> ADDRS_PER_INODE <= k < 1918;
    assert InDirect(1, k) <==> 1918 <= k;
  }

  /**
   * Below 900 truncation is always right.  Above, it is right exactly when it does not cut one slot
   * into a direct node whose first block is mapped, and the blocks it forgets in the second direct
   * node are holes.
   */
  lemma TruncatesRightIff(nodes: Nodes, files: set<int>, ino: int, from: int)
    requires Forest(nodes, files) && ino in files && 0 <= from < DIRECT_END
    ensures TruncatesRight(nodes, ino, from) <==>
            && (from >= ADDRS_PER_INODE && (from - ADDRS_PER_INODE) % ADDRS_PER_BLOCK == 1 ==>
                  AddrAt(nodes, ino, from - 1) == 0)
            && (forall k :: 1918 <= k < 1918 + Forgotten(nodes, ino, from) ==> AddrAt(nodes, ino, k) == 0)
  {
    hide AddrAt, Forest, Plans, Gone, Forgotten, Direct;
    ForgottenBound(nodes, ino, from);
    forall k | 0 <= k < DIRECT_END
      ensures AddrAt(nodes, ino, k) != 0 ==>
        ((Gone(nodes, ino, from, k) != (from <= k)) <==>
         (from >= ADDRS_PER_INODE && (from - ADDRS_PER_INODE) % ADDRS_PER_BLOCK == 1 && k == from - 1)
          || 1918 <= k < 1918 + Forgotten(nodes, ino, from))
    {
      if AddrAt(nodes, ino, k) != 0 {
        forall d | 0 <= d < 2 && InDirect(d, k) ensures Direct(nodes, ino, d) != 0 {
          if Direct(nodes, ino, d) == 0 {
            MissingDirect(nodes, files, ino, d, k);
          }
        }
        WrongAt(nodes, ino, from, k);
      }
    }
  }

  lemma ForgottenBound(nodes: Nodes, ino: int, from: int)
    requires 0 <= from < DIRECT_END
    ensures 0 <= Forgotten(nodes, ino, from) <= ADDRS_PER_BLOCK
  {
  }

  /** Truncating to 901 blocks loses block 900 of a file that has it: the node holding it is unlinked. */
  lemma TruncateTo901Loses900(nodes: Nodes, files: set<int>, ino: int)
    requires Forest(nodes, files) && ino in files && AddrAt(nodes, ino, ADDRS_PER_INODE) != 0
    ensures Gone(nodes, ino, 901, ADDRS_PER_INODE) && !TruncatesRight(nodes, ino, 901)
  {
    TruncatesRightIff(nodes, files, ino, 901);
    if Direct(nodes, ino, 0) == 0 {
      MissingDirect(nodes, files, ino, 0, ADDRS_PER_INODE);
    }
  }

  /** Below 900 what is released is every block from there on, once each. */
  lemma ReleasedBelow900(nodes: Nodes, files: set<int>, ino: int, from: int)
    requires Forest(nodes, files) && ino in files && 0 <= from < ADDRS_PER_INODE
    ensures Released(nodes, ino, from) == Former(nodes, ino, from, DIRECT_END)
    ensures forall k :: 0 <= k < DIRECT_END && AddrAt(nodes, ino, k) != 0 ==> (Gone(nodes, ino, from, k) <==> from <= k)
  {
    hide AddrAt, Forest, Direct, Former;
    FormerSplit(nodes, ino, from, ADDRS_PER_INODE, DIRECT_END);
    FormerSplit(nodes, ino, ADDRS_PER_INODE, 1918, DIRECT_END);
    var (p, q) := PlansOf(nodes, ino, from);
    DirectReleased(nodes, files, ino, 0, p);
    DirectReleased(nodes, files, ino, 1, q);
    TruncatesRightIff(nodes, files, ino, from);
    forall k | 0 <= k < DIRECT_END && AddrAt(nodes, ino, k) != 0 ensures Gone(nodes, ino, from, k) <==> from <= k {
      assert TruncatesRight(nodes, ino, from);
    }
  }

  lemma DirectReleased(nodes: Nodes, files: set<int>, ino: int, d: int, p: Plan)
    requires Forest(nodes, files) && ino in files && 0 <= d < 2
    requires p == if Direct(nodes, ino, d) != 0 then Plan(0, true) else UNTOUCHED
    ensures Trims(nodes, ino, d, p) == Former(nodes, ino, DirectBase(d), DirectBase(d + 1))
  {
    if Direct(nodes, ino, d) == 0 {
      HolesReleaseNothing(nodes, files, ino, d, DirectBase(d + 1));
    }
  }

  lemma {:induction false} HolesReleaseNothing(nodes: Nodes, files: set<int>, ino: int, d: int, hi: int)
    requires Forest(nodes, files) && ino in files && 0 <= d < 2 && Direct(nodes, ino, d) == 0
    requires DirectBase(d) <= hi <= DirectBase(d + 1)
    ensures Former(nodes, ino, DirectBase(d), hi) == []
    decreases hi
  {
    if DirectBase(d) < hi {
      MissingDirect(nodes, files, ino, d, hi - 1);
      HolesReleaseNothing(nodes, files, ino, d, hi - 1);
    }
  }
}
