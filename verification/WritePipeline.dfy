/**
 * The append pipeline: a write is submitted (the old block becomes invalid and a zone is chosen), the
 * device picks an address in that zone, and the completion publishes it.  Any number of pages are in
 * flight and complete in any order.
 */
module WritePipeline {
  import opened Layout
  import opened ZoneTable
  import opened ZoneAlloc

  const META_NODE := 1
  const META_DATA := 2
  const REG_NODE := 3
  const REG_DATA := 4

  /** All that is written back: node pages, whose address is in the NAT, file blocks, whose address is in a node. */
  datatype Page = Node(nid: int) | Data(ino: int, idx: int)

  /** `get_page_type` */
  function GetPageType(ino: int, iblock: int): (ty: int)
    ensures IsType(ty)
  {
    if ino == META_INO then META_DATA
    else if ino == NODE_INO then if iblock < REG_NID_START then META_NODE else REG_NODE
    else REG_DATA
  }

  /** A node page is a page of the node inode at index nid. */
  function PageType(p: Page): (ty: int)
    ensures IsType(ty)
  {
    match p
    case Node(nid) => GetPageType(NODE_INO, nid)
    case Data(ino, idx) => GetPageType(ino, idx)
  }

  datatype Flight = Queued(zone: int) | Landed(addr: int)

  /**
   * `dev` is the drive: what was appended where, forever.  The rest records what the mount found:
   * `unmarked` are the published blocks whose bit was clear, `strays` the pages that lay in a zone of
   * another type; `overdrawn` are the unmarked blocks invalidated since, each lowering a count in vain.
   */
  datatype Io<B> = Io(t: Table, addr: map<Page, int>, flights: map<Page, Flight>, dev: map<int, B>,
                      unmarked: set<int>, strays: set<(Page, int)>, overdrawn: set<int>)

  function AddrOf<B>(s: Io<B>, p: Page): int {
    if p in s.addr then s.addr[p] else 0
  }

  // ----- Geometry -----

  ghost predicate Geometry(t: Table) {
    && t.zoneSize % SECTORS_PER_BLOCK == 0 && SECTORS_PER_BLOCK <= t.zoneSize < LONG_MAX
    && 0 < t.capacity <= t.zoneSize
    && forall z :: 0 <= z < |t.zones| ==> t.zones[z].start == z * t.zoneSize
  }

  predicate BitSet(t: Table, a: int)
    requires InTable(t, a)
  {
    BitOf(t.zoneSize, a) in t.zones[ZoneOf(t.zoneSize, a)].valid
  }

  lemma SamePlace(size: nat, a: int, b: int)
    requires size >= SECTORS_PER_BLOCK && ZoneOf(size, a) == ZoneOf(size, b) && BitOf(size, a) == BitOf(size, b)
    ensures a == b
  {
    var n := size / SECTORS_PER_BLOCK;
    assert a == n * (a / n) + a % n;
    assert b == n * (b / n) + b % n;
  }

  /** Clearing a bit clears one block. */
  lemma InvalidateBits(t: Table, a: int, b: int)
    requires InTable(t, a) && InTable(t, b)
    ensures InTable(Invalidate(t, a), b)
    ensures BitSet(Invalidate(t, a), b) <==> BitSet(t, b) && b != a
  {
    hide ZoneOf, BitOf;
    if ZoneOf(t.zoneSize, a) == ZoneOf(t.zoneSize, b) && BitOf(t.zoneSize, a) == BitOf(t.zoneSize, b) {
      SamePlace(t.zoneSize, a, b);
    }
  }

  lemma ValidateBits(t: Table, a: int, b: int)
    requires InTable(t, a) && InTable(t, b)
    ensures InTable(Validate(t, a), b)
    ensures BitSet(Validate(t, a), b) <==> BitSet(t, b) || b == a
  {
    hide ZoneOf, BitOf, Overwrite;
    if ZoneOf(t.zoneSize, a) == ZoneOf(t.zoneSize, b) && BitOf(t.zoneSize, a) == BitOf(t.zoneSize, b) {
      SamePlace(t.zoneSize, a, b);
    }
  }

  // ----- The invariant -----

  /** A usable zone for pages of a type: not one of the superblock zones, not empty, of that type. */
  predicate Hosts(t: Table, z: int, ty: int) {
    Settled(t, z) && t.zones[z].ztype == ty
  }

  predicate Settled(t: Table, z: int) {
    2 <= z < |t.zones| && t.zones[z].cond != Empty
  }

  /** A page lies in a zone of its type, unless it is still in the zone of another type it was mounted in. */
  predicate Placed<B>(s: Io<B>, p: Page, z: int) {
    Settled(s.t, z) && (s.t.zones[z].ztype == PageType(p) <==> (p, z) !in s.strays)
  }

  predicate Holds<B>(s: Io<B>, p: Page, a: int) {
    InCapacity(s.t, a) && a in s.dev && Placed(s, p, ZoneOf(s.t.zoneSize, a))
  }

  /**
   * The published address of a page, and the block its write landed on.  The block of a page that is not
   * in flight is marked valid exactly if the mount did not find it unmarked.
   */
  ghost predicate OwnerOk<B>(s: Io<B>, p: Page) {
    && (AddrOf(s, p) != 0 ==>
          && Holds(s, p, AddrOf(s, p))
          && (p !in s.flights ==> (BitSet(s.t, AddrOf(s, p)) <==> AddrOf(s, p) !in s.unmarked)
                                  && AddrOf(s, p) !in s.overdrawn))
    && (p in s.flights ==>
          match s.flights[p]
          case Queued(z) => Placed(s, p, z)
          case Landed(a) => Holds(s, p, a) && !BitSet(s.t, a) && a != 0 && a !in s.unmarked)
  }

  predicate LandedAt<B>(s: Io<B>, p: Page, a: int) {
    p in s.flights && s.flights[p] == Landed(a)
  }

  predicate Claims<B>(s: Io<B>, p: Page, a: int) {
    a != 0 && (AddrOf(s, p) == a || LandedAt(s, p, a))
  }

  /** No block is claimed by two pages, nor twice by one. */
  ghost predicate ClaimOk<B>(s: Io<B>, p: Page, q: Page, a: int) {
    Claims(s, p, a) && Claims(s, q, a) ==> p == q && !(AddrOf(s, p) == a && LandedAt(s, p, a))
  }

  /** Only appended blocks are marked valid. */
  ghost predicate BitOk<B>(s: Io<B>, a: int) {
    InTable(s.t, a) && ZoneOf(s.t.zoneSize, a) != 0 && BitSet(s.t, a) ==> a in s.dev
  }

  ghost function Over<B>(s: Io<B>, z: int): set<int>
    requires s.t.zoneSize >= SECTORS_PER_BLOCK
  {
    set a | a in s.overdrawn && ZoneOf(s.t.zoneSize, a) == z
  }

  /** The count of a zone other than 0: its bits, less the unmarked blocks that were invalidated all the same. */
  ghost predicate CountOk<B>(s: Io<B>, z: int) {
    0 < z < |s.t.zones| && s.t.zoneSize >= SECTORS_PER_BLOCK ==>
      s.t.zones[z].vblocks == |s.t.zones[z].valid| - |Over(s, z)|
  }

  ghost predicate StrayOk<B>(s: Io<B>, p: Page, z: int) {
    (p, z) in s.strays ==> Settled(s.t, z) && s.t.zones[z].ztype != PageType(p)
  }

  ghost predicate TableOk(t: Table) {
    Good(t) && Geometry(t) && !IsType(t.zones[0].ztype) && !IsType(t.zones[1].ztype)
  }

  /**
   * The safety half: every block held by a page that is not in flight is marked valid, but for those the
   * mount found unmarked; it lies in a zone of the page's type, but for those mounted elsewhere; no two
   * pages share a block; the counters count the bits, but for the overdrawn blocks.
   */
  ghost predicate Safe<B>(s: Io<B>) {
    && TableOk(s.t) && s.overdrawn <= s.unmarked && (forall a :: a in s.unmarked ==> a in s.dev && InTable(s.t, a))
    && (forall p {:trigger OwnerOk(s, p)} :: OwnerOk(s, p))
    && (forall p, q, a {:trigger ClaimOk(s, p, q, a)} :: ClaimOk(s, p, q, a))
    && (forall a {:trigger BitOk(s, a)} :: BitOk(s, a))
    && (forall z {:trigger CountOk(s, z)} :: CountOk(s, z))
    && (forall p, z {:trigger StrayOk(s, p, z)} :: StrayOk(s, p, z))
  }

  /** A valid block of a zone other than 0 is held by a page that is not in flight. */
  ghost predicate Owned<B>(s: Io<B>, a: int) {
    InTable(s.t, a) && ZoneOf(s.t.zoneSize, a) != 0 && BitSet(s.t, a) ==>
      exists p :: p !in s.flights && AddrOf(s, p) == a
  }

  /** The accounting is exact: valid means held. */
  ghost predicate Exact<B>(s: Io<B>) {
    Safe(s) && forall a {:trigger Owned(s, a)} :: Owned(s, a)
  }

  // ----- Steps -----

  /** Everything `alloc_zone` needs; `dev` answers its zone opens. */
  ghost predicate CanSubmit<B>(s: Io<B>, p: Page, dev: nat -> bool) {
    var a := AddrOf(s, p);
    && p !in s.flights && Shape(s.t) && InTable(s.t, a)
    && (NeedsZone(s.t, a) ==> Halts(s.t, PageType(p), dev)
                              && (WantsEmpty(s.t, PageType(p)) ==> HasEmpty(s.t)))
  }

  /** Invalidating a block whose bit is clear already. */
  function Overdraw<B>(s: Io<B>, a: int): set<int> {
    if a in s.unmarked then s.overdrawn + {a} else s.overdrawn
  }

  /** `submit_node_xio` / `submit_data_xio` for a write: one write in flight per page. */
  ghost function Submit<B>(s: Io<B>, p: Page, dev: nat -> bool): Io<B>
    requires CanSubmit(s, p, dev)
  {
    var a := AddrOf(s, p);
    var (u, z) := Alloc(s.t, a, PageType(p), dev);
    s.(t := u, flights := s.flights[p := Queued(z)], overdrawn := Overdraw(s, a))
  }

  /** The device appends: some block of the zone, inside its capacity, never written before. */
  predicate CanLand<B>(s: Io<B>, p: Page, a: int) {
    && p in s.flights && s.flights[p].Queued?
    && a !in s.dev && InCapacity(s.t, a) && ZoneOf(s.t.zoneSize, a) == s.flights[p].zone
  }

  function Land<B>(s: Io<B>, p: Page, a: int, content: B): Io<B>
    requires CanLand(s, p, a)
  {
    s.(flights := s.flights[p := Landed(a)], dev := s.dev[a := content])
  }

  predicate CanComplete<B>(s: Io<B>, p: Page) {
    p in s.flights && s.flights[p].Landed? && InTable(s.t, s.flights[p].addr)
  }

  /** `xcpfs_write_end_io`: the NAT entry or the node slot takes the new address, then the block becomes valid. */
  function Complete<B>(s: Io<B>, p: Page): Io<B>
    requires CanComplete(s, p)
  {
    var a := s.flights[p].addr;
    s.(t := Validate(s.t, a), addr := s.addr[p := a], flights := s.flights - {p})
  }

  /** Truncation reaches a file block while its node is unlocked, so with no write of it in flight. */
  predicate CanTruncate<B>(s: Io<B>, p: Page) {
    p.Data? && p !in s.flights && AddrOf(s, p) != 0 && InTable(s.t, AddrOf(s, p))
  }

  function Truncate<B>(s: Io<B>, p: Page): Io<B>
    requires CanTruncate(s, p)
  {
    var a := AddrOf(s, p);
    s.(t := Invalidate(s.t, a), addr := s.addr[p := 0], overdrawn := Overdraw(s, a))
  }

  /**
   * `invalidate_nat` on a node page, and what it does to a block in a slot of that page: the address goes,
   * its validity bit stays.
   */
  function Drop<B>(s: Io<B>, p: Page): Io<B> {
    s.(addr := s.addr[p := 0])
  }

  datatype Step<!B> =
    | DoSubmit(p: Page, dev: nat -> bool) | DoLand(p: Page, a: int, content: B) | DoComplete(p: Page)
    | DoTruncate(p: Page) | DoDrop(p: Page)

  ghost predicate CanStep<B>(s: Io<B>, step: Step<B>) {
    match step
    case DoSubmit(p, dev) => CanSubmit(s, p, dev)
    case DoLand(p, a, content) => CanLand(s, p, a)
    case DoComplete(p) => CanComplete(s, p)
    case DoTruncate(p) => CanTruncate(s, p)
    case DoDrop(p) => true
  }

  ghost function After<B>(s: Io<B>, step: Step<B>): Io<B>
    requires CanStep(s, step)
  {
    match step
    case DoSubmit(p, dev) => Submit(s, p, dev)
    case DoLand(p, a, content) => Land(s, p, a, content)
    case DoComplete(p) => Complete(s, p)
    case DoTruncate(p) => Truncate(s, p)
    case DoDrop(p) => Drop(s, p)
  }

  /** Any interleaving of steps, each possible where it is taken. */
  ghost predicate CanRun<B>(s: Io<B>, steps: seq<Step<B>>)
    decreases |steps|
  {
    steps == [] || (CanStep(s, steps[0]) && CanRun(After(s, steps[0]), steps[1..]))
  }

  ghost function RunFrom<B>(s: Io<B>, steps: seq<Step<B>>): Io<B>
    requires CanRun(s, steps)
    decreases |steps|
  {
    if steps == [] then s else RunFrom(After(s, steps[0]), steps[1..])
  }

  lemma {:induction false} RunSplit<B(!new)>(s: Io<B>, first: seq<Step<B>>, rest: seq<Step<B>>)
    requires CanRun(s, first)
    ensures CanRun(s, first + rest) <==> CanRun(RunFrom(s, first), rest)
    ensures CanRun(s, first + rest) ==> RunFrom(s, first + rest) == RunFrom(RunFrom(s, first), rest)
    decreases |first|
  {
    if first == [] {
      assert first + rest == rest;
    } else {
      assert (first + rest)[0] == first[0] && (first + rest)[1..] == first[1..] + rest;
      hide CanStep, After;
      RunSplit(After(s, first[0]), first[1..], rest);
    }
  }

  // ----- What alloc_zone does to the table -----

  /** Blocks and non-empty zones are as before, but for the bit of the old block `a`. */
  ghost predicate AllocFrame(t: Table, u: Table, a: int)
    requires InTable(t, a)
  {
    && |u.zones| == |t.zones| && u.zoneSize == t.zoneSize && u.capacity == t.capacity
    && forall z {:trigger FrameAt(t, u, a, z)} :: 0 <= z < |t.zones| ==> FrameAt(t, u, a, z)
  }

  predicate FrameAt(t: Table, u: Table, a: int, z: int)
    requires InTable(t, a) && |u.zones| == |t.zones| && 0 <= z < |t.zones|
  {
    var here := z == ZoneOf(t.zoneSize, a);
    && u.zones[z].start == t.zones[z].start && u.zones[z].wp == t.zones[z].wp
    && u.zones[z].valid == (if here then t.zones[z].valid - {BitOf(t.zoneSize, a)} else t.zones[z].valid)
    && u.zones[z].vblocks == t.zones[z].vblocks - (if here then 1 else 0)
    && (t.zones[z].cond != Empty ==> u.zones[z].cond == t.zones[z].cond)
    && (t.zones[z].cond != Empty || z < 2 ==> u.zones[z].ztype == t.zones[z].ztype)
  }

  lemma GeometryFrame(t: Table, u: Table)
    requires Geometry(t) && |u.zones| == |t.zones| && u.zoneSize == t.zoneSize && u.capacity == t.capacity
    requires forall z :: 0 <= z < |t.zones| ==> u.zones[z].start == t.zones[z].start
    ensures Geometry(u)
  {
  }

  lemma InvalidateTable(t: Table, a: int)
    requires TableOk(t) && InTable(t, a)
    ensures TableOk(Invalidate(t, a)) && AllocFrame(t, Invalidate(t, a), a)
  {
    hide ZoneOf, BitOf, Inv, Geometry;
    var u, z := Invalidate(t, a), ZoneOf(t.zoneSize, a);
    SameCondKeepsInv(t, z, u.zones[z]);
    GeometryFrame(t, u);
  }

  lemma ValidateTable(t: Table, a: int)
    requires TableOk(t) && InCapacity(t, a) && 2 <= ZoneOf(t.zoneSize, a)
    ensures TableOk(Validate(t, a))
  {
    hide ZoneOf, BitOf, Inv, Overwrite, Geometry;
    var u := Validate(t, a);
    ValidateKeepsInv(t, a);
    GeometryFrame(t, u);
    CapacityBound(t);
    assert WpSane(u);
  }

  lemma CapacityBound(t: Table)
    requires Geometry(t)
    ensures t.capacity < LONG_MAX
  {
  }

  /** `get_zone` picks a zone that hosts the type, and leaves every non-empty zone and all blocks alone. */
  lemma GetZoneTable(t: Table, ty: int, dev: nat -> bool)
    requires TableOk(t) && IsType(ty) && Halts(t, ty, dev) && (WantsEmpty(t, ty) ==> HasEmpty(t))
    ensures var (u, z) := GetZone(t, ty, dev);
            && TableOk(u) && Hosts(u, z, ty) && u.zones[z].cond != Full
            && (forall y :: 0 <= y < |t.zones| ==> SameButType(t, u, y))
            && u.zoneSize == t.zoneSize && u.capacity == t.capacity
  {
    hide Inv, Geometry, WpSane;
    var (u, z) := GetZone(t, ty, dev);
    GetZoneShape(t, ty, dev);
    GetEmptyFinds(t);
    assert forall y :: 0 <= y < |t.zones| ==> SameButType(t, u, y);
    GeometryFrame(t, u);
  }

  /** A zone keeps its blocks; only an empty one outside the superblock zones may change type or condition. */
  predicate SameButType(t: Table, u: Table, y: int)
    requires 0 <= y < |t.zones|
  {
    && |u.zones| == |t.zones|
    && u.zones[y] == t.zones[y].(cond := u.zones[y].cond, ztype := u.zones[y].ztype, dirty := u.zones[y].dirty)
    && (t.zones[y].cond != Empty || y < 2 ==> u.zones[y] == t.zones[y])
  }

  /**
   * `alloc_zone` never picks a zone marked FULL; a first write, or a rewrite out of a full zone, goes to a
   * zone of the type that is not a superblock zone, and any other rewrite stays where it was.
   */
  lemma AllocTable(t: Table, a: int, ty: int, dev: nat -> bool)
    requires TableOk(t) && IsType(ty) && InTable(t, a)
    requires NeedsZone(t, a) ==> Halts(t, ty, dev) && (WantsEmpty(t, ty) ==> HasEmpty(t))
    ensures var (u, z) := Alloc(t, a, ty, dev);
            && TableOk(u) && AllocFrame(t, u, a) && z < |u.zones| && u.zones[z].cond != Full
            && if NeedsZone(t, a) then Hosts(u, z, ty) else z == ZoneOf(t.zoneSize, a)
  {
    hide Inv, Geometry, WpSane, ZoneOf, BitOf, GetZone;
    if NeedsZone(t, a) {
      GetZoneTable(t, ty, dev);
      var m := GetZone(t, ty, dev).0;
      assert SameButType(t, m, ZoneOf(t.zoneSize, a));
      InvalidateTable(m, a);
      FrameTrans(t, m, Invalidate(m, a), a);
    } else {
      InvalidateTable(t, a);
      assert FrameAt(t, Invalidate(t, a), a, ZoneOf(t.zoneSize, a));
    }
  }

  lemma FrameTrans(t: Table, m: Table, u: Table, a: int)
    requires InTable(t, a) && |m.zones| == |t.zones| && m.zoneSize == t.zoneSize && m.capacity == t.capacity
    requires forall y :: 0 <= y < |t.zones| ==> SameButType(t, m, y)
    requires InTable(m, a) && AllocFrame(m, u, a)
    ensures AllocFrame(t, u, a)
  {
    hide ZoneOf, BitOf;
    forall z | 0 <= z < |t.zones| ensures FrameAt(t, u, a, z) {
      assert SameButType(t, m, z) && FrameAt(m, u, a, z);
    }
  }

  // ----- Every step keeps the safety half -----

  /** A block other than `a` keeps its bit through `alloc_zone`. */
  lemma FrameKeeps(t: Table, u: Table, a: int, b: int)
    requires InTable(t, a) && AllocFrame(t, u, a) && InTable(t, b)
    ensures InTable(u, b) && (InCapacity(u, b) <==> InCapacity(t, b)) && u.zoneSize == t.zoneSize
    ensures BitSet(u, b) <==> BitSet(t, b) && b != a
  {
    hide ZoneOf, BitOf;
    assert FrameAt(t, u, a, ZoneOf(t.zoneSize, b));
    if ZoneOf(t.zoneSize, a) == ZoneOf(t.zoneSize, b) && BitOf(t.zoneSize, a) == BitOf(t.zoneSize, b) {
      SamePlace(t.zoneSize, a, b);
    }
  }

  /** So does the type of any zone in use. */
  lemma FrameSettled(t: Table, u: Table, a: int, z: int)
    requires InTable(t, a) && AllocFrame(t, u, a) && Settled(t, z)
    ensures Settled(u, z) && u.zones[z].ztype == t.zones[z].ztype
  {
    assert FrameAt(t, u, a, z);
  }

  lemma FrameShape(t: Table, u: Table, a: int)
    requires InTable(t, a) && AllocFrame(t, u, a)
    ensures u.zoneSize == t.zoneSize && |u.zones| == |t.zones| && forall b :: InTable(u, b) <==> InTable(t, b)
  {
  }

  lemma ZeroIsNowhere(size: nat)
    requires size >= SECTORS_PER_BLOCK
    ensures ZoneOf(size, 0) == 0
  {
  }

  lemma InCapacityInTable(t: Table, a: int)
    requires InCapacity(t, a)
    ensures InTable(t, a)
  {
  }

  /** Block `a` may be invalidated: nobody's, or that of a page that is not in flight. */
  ghost predicate CanRelease<B>(s: Io<B>, a: int) {
    && InTable(s.t, a)
    && (a != 0 ==> (BitSet(s.t, a) <==> a !in s.unmarked) && a !in s.overdrawn)
  }

  /** What submission and truncation do to the rest of the state. */
  ghost predicate Releases<B>(s: Io<B>, s': Io<B>, a: int) {
    && InTable(s.t, a) && CanRelease(s, a) && AllocFrame(s.t, s'.t, a)
    && s'.dev == s.dev && s'.unmarked == s.unmarked && s'.strays == s.strays && s'.overdrawn == Overdraw(s, a)
  }

  /** The part of the state a step leaves alone for one page. */
  lemma OwnerFrame<B>(s: Io<B>, s': Io<B>, p: Page, a: int)
    requires OwnerOk(s, p) && Releases(s, s', a)
    requires AddrOf(s', p) == AddrOf(s, p)
    requires p in s'.flights <==> p in s.flights
    requires p in s.flights ==> s'.flights[p] == s.flights[p]
    requires a != 0 ==> p in s.flights || AddrOf(s, p) != a
    ensures OwnerOk(s', p)
  {
    hide ZoneOf, BitOf, AllocFrame, Settled, InCapacity, BitSet;
    FrameShape(s.t, s'.t, a);
    if AddrOf(s, p) != 0 {
      HeldFrame(s, s', p, AddrOf(s, p), a);
    }
    if p in s.flights {
      match s.flights[p]
      case Queued(z) => FrameSettled(s.t, s'.t, a, z);
      case Landed(b) => HeldFrame(s, s', p, b, a);
    }
  }

  lemma HeldFrame<B>(s: Io<B>, s': Io<B>, p: Page, b: int, a: int)
    requires Holds(s, p, b) && Releases(s, s', a)
    ensures InTable(s.t, b) && InTable(s'.t, b) && Holds(s', p, b)
    ensures BitSet(s'.t, b) <==> BitSet(s.t, b) && b != a
  {
    hide ZoneOf, BitOf, AllocFrame, Settled, BitSet;
    InCapacityInTable(s.t, b);
    FrameKeeps(s.t, s'.t, a, b);
    FrameSettled(s.t, s'.t, a, ZoneOf(s.t.zoneSize, b));
  }

  lemma CountFrame<B>(s: Io<B>, s': Io<B>, a: int, z: int)
    requires Releases(s, s', a) && CountOk(s, z)
    ensures CountOk(s', z)
  {
    if 0 < z < |s.t.zones| {
      ZeroIsNowhere(s.t.zoneSize);
      hide ZoneOf, BitOf;
      assert FrameAt(s.t, s'.t, a, z);
      var v := s.t.zones[z].valid;
      if z != ZoneOf(s.t.zoneSize, a) {
        assert Over(s', z) == Over(s, z);
      } else if a in s.unmarked {
        assert Over(s', z) == Over(s, z) + {a};
        assert v - {BitOf(s.t.zoneSize, a)} == v;
      } else {
        assert Over(s', z) == Over(s, z);
        assert |v| == |v - {BitOf(s.t.zoneSize, a)}| + 1;
      }
    }
  }

  lemma BitFrame<B>(s: Io<B>, s': Io<B>, a: int, b: int)
    requires Releases(s, s', a) && BitOk(s, b)
    ensures BitOk(s', b)
  {
    hide ZoneOf, BitOf, AllocFrame;
    FrameShape(s.t, s'.t, a);
    if InTable(s.t, b) {
      FrameKeeps(s.t, s'.t, a, b);
    }
  }

  lemma StrayFrame<B>(s: Io<B>, s': Io<B>, a: int, p: Page, z: int)
    requires Releases(s, s', a) && StrayOk(s, p, z)
    ensures StrayOk(s', p, z)
  {
    hide ZoneOf, BitOf, AllocFrame;
    if (p, z) in s.strays {
      FrameSettled(s.t, s'.t, a, z);
    }
  }

  /** All of `Safe` but what it says of the page whose block is released. */
  lemma ReleaseSafe<B>(s: Io<B>, s': Io<B>, p: Page, a: int)
    requires Safe(s) && Releases(s, s', a) && TableOk(s'.t)
    requires a == AddrOf(s, p) && p !in s.flights && OwnerOk(s', p)
    requires forall q :: q != p ==> AddrOf(s', q) == AddrOf(s, q) && (q in s'.flights <==> q in s.flights)
    requires forall q :: q != p && q in s.flights ==> s'.flights[q] == s.flights[q]
    requires AddrOf(s', p) == a || AddrOf(s', p) == 0
    requires p in s'.flights ==> s'.flights[p].Queued?
    ensures Safe(s')
  {
    hide ZoneOf, BitOf, TableOk, AllocFrame, OwnerOk, CountOk, StrayOk, BitOk, CanRelease;
    FrameShape(s.t, s'.t, a);
    forall q ensures OwnerOk(s', q) {
      assert OwnerOk(s, q);
      if q != p {
        assert ClaimOk(s, p, q, a);
        OwnerFrame(s, s', q, a);
      }
    }
    forall q, r, b ensures ClaimOk(s', q, r, b) {
      assert ClaimOk(s, q, r, b);
    }
    forall b ensures BitOk(s', b) {
      assert BitOk(s, b);
      BitFrame(s, s', a, b);
    }
    forall z ensures CountOk(s', z) {
      assert CountOk(s, z);
      CountFrame(s, s', a, z);
    }
    forall q, z ensures StrayOk(s', q, z) {
      assert StrayOk(s, q, z);
      StrayFrame(s, s', a, q, z);
    }
  }

  lemma PageReleases<B>(s: Io<B>, p: Page)
    requires OwnerOk(s, p) && p !in s.flights && InTable(s.t, AddrOf(s, p))
    ensures CanRelease(s, AddrOf(s, p))
  {
  }

  lemma SubmitReleases<B>(s: Io<B>, p: Page, dev: nat -> bool)
    requires Safe(s) && CanSubmit(s, p, dev)
    ensures Releases(s, Submit(s, p, dev), AddrOf(s, p)) && TableOk(Submit(s, p, dev).t)
  {
    hide ZoneOf, BitOf, Alloc, AllocFrame, OwnerOk, CanRelease, TableOk;
    assert OwnerOk(s, p);
    PageReleases(s, p);
    AllocTable(s.t, AddrOf(s, p), PageType(p), dev);
  }

  lemma SubmitSafe<B>(s: Io<B>, p: Page, dev: nat -> bool)
    requires Safe(s) && CanSubmit(s, p, dev)
    ensures Safe(Submit(s, p, dev))
  {
    hide ZoneOf, BitOf, Alloc, AllocFrame, TableOk, Releases, Safe;
    SubmitReleases(s, p, dev);
    SubmittedOwner(s, p, dev);
    ReleaseSafe(s, Submit(s, p, dev), p, AddrOf(s, p));
  }

  lemma SubmittedOwner<B>(s: Io<B>, p: Page, dev: nat -> bool)
    requires Safe(s) && CanSubmit(s, p, dev)
    ensures OwnerOk(Submit(s, p, dev), p)
  {
    var a, s' := AddrOf(s, p), Submit(s, p, dev);
    assert OwnerOk(s, p);
    SubmitReleases(s, p, dev);
    SubmittedZone(s, p, dev);
    hide ZoneOf, BitOf, Alloc, AllocFrame, TableOk, Releases, Settled, InCapacity, Safe, Placed;
    if a != 0 {
      HeldFrame(s, s', p, a, a);
    }
  }

  /** The zone a write is queued for: of the page's type, but for a rewrite in place of a stray. */
  lemma SubmittedZone<B>(s: Io<B>, p: Page, dev: nat -> bool)
    requires Safe(s) && CanSubmit(s, p, dev)
    ensures var s' := Submit(s, p, dev); Placed(s', p, s'.flights[p].zone)
  {
    var a, s' := AddrOf(s, p), Submit(s, p, dev);
    var z := s'.flights[p].zone;
    assert OwnerOk(s, p) && StrayOk(s', p, z) by {
      SubmitReleases(s, p, dev);
      assert StrayOk(s, p, z);
      StrayFrame(s, s', a, p, z);
    }
    ZeroIsNowhere(s.t.zoneSize);
    AllocTable(s.t, a, PageType(p), dev);
    hide ZoneOf, BitOf, Alloc, AllocFrame, TableOk, InCapacity, Safe;
    if !NeedsZone(s.t, a) {
      FrameSettled(s.t, s'.t, a, z);
    }
  }

  lemma LandSafe<B>(s: Io<B>, p: Page, a: int, content: B)
    requires Safe(s) && CanLand(s, p, a)
    ensures Safe(Land(s, p, a, content))
  {
    hide ZoneOf, BitOf, TableOk, InCapacity, Placed, CountOk, StrayOk;
    var s' := Land(s, p, a, content);
    InCapacityInTable(s.t, a);
    forall q ensures OwnerOk(s', q) {
      assert OwnerOk(s, q);
      LandedPlaces(s, p, a, content, q);
      if q == p {
        LandedOwner(s, p, a);
      }
    }
    forall q, r, b ensures ClaimOk(s', q, r, b) {
      assert ClaimOk(s, q, r, b);
      if b == a {
        NobodyClaims(s, q, a);
        NobodyClaims(s, r, a);
      }
    }
    forall b ensures BitOk(s', b) {
      assert BitOk(s, b);
    }
    forall z ensures CountOk(s', z) {
      assert CountOk(s, z);
      LandedCount(s, p, a, content, z);
    }
    forall q, z ensures StrayOk(s', q, z) {
      assert StrayOk(s, q, z);
      LandedStray(s, p, a, content, q, z);
    }
  }

  lemma LandedPlaces<B>(s: Io<B>, p: Page, a: int, content: B, q: Page)
    requires CanLand(s, p, a)
    ensures forall z :: Placed(Land(s, p, a, content), q, z) <==> Placed(s, q, z)
  {
  }

  lemma LandedCount<B>(s: Io<B>, p: Page, a: int, content: B, z: int)
    requires CanLand(s, p, a) && CountOk(s, z)
    ensures CountOk(Land(s, p, a, content), z)
  {
    if s.t.zoneSize >= SECTORS_PER_BLOCK {
      assert Over(Land(s, p, a, content), z) == Over(s, z);
    }
  }

  lemma LandedStray<B>(s: Io<B>, p: Page, a: int, content: B, q: Page, z: int)
    requires CanLand(s, p, a) && StrayOk(s, q, z)
    ensures StrayOk(Land(s, p, a, content), q, z)
  {
  }

  /** A block the drive never wrote has no bit and is not block 0. */
  lemma LandedOwner<B>(s: Io<B>, p: Page, a: int)
    requires OwnerOk(s, p) && BitOk(s, a) && CanLand(s, p, a)
    ensures Placed(s, p, ZoneOf(s.t.zoneSize, a)) && !BitSet(s.t, a) && a != 0
  {
    ZeroIsNowhere(s.t.zoneSize);
  }

  lemma NobodyClaims<B>(s: Io<B>, q: Page, a: int)
    requires OwnerOk(s, q) && a !in s.dev
    ensures !Claims(s, q, a)
  {
  }

  lemma CompleteSafe<B>(s: Io<B>, p: Page)
    requires Safe(s) && CanComplete(s, p)
    ensures Safe(Complete(s, p))
  {
    hide ZoneOf, BitOf, TableOk, InCapacity, Settled, Validate, CountOk, StrayOk;
    var a, s' := s.flights[p].addr, Complete(s, p);
    assert OwnerOk(s, p);
    CompletedTable(s, p);
    ValidateShape(s.t, a);
    forall q ensures OwnerOk(s', q) {
      assert OwnerOk(s, q);
      assert ClaimOk(s, p, q, a);
      CompletedOwner(s, p, q);
    }
    forall q, r, b ensures ClaimOk(s', q, r, b) {
      assert ClaimOk(s, q, r, b);
      assert ClaimOk(s, p, q, b) && ClaimOk(s, p, r, b);
    }
    forall b ensures BitOk(s', b) {
      assert BitOk(s, b);
      if InTable(s.t, b) {
        ValidateBits(s.t, a, b);
      }
    }
    forall z ensures CountOk(s', z) {
      assert CountOk(s, z);
      CompletedCount(s, p, z);
    }
    forall q, z ensures StrayOk(s', q, z) {
      assert StrayOk(s, q, z);
      CompletedStray(s, p, q, z);
    }
  }

  lemma ValidateShape(t: Table, a: int)
    requires InTable(t, a)
    ensures |Validate(t, a).zones| == |t.zones| && Validate(t, a).zoneSize == t.zoneSize
    ensures forall b :: InTable(Validate(t, a), b) <==> InTable(t, b)
  {
    hide ZoneOf, BitOf, Overwrite;
  }

  lemma ValidateSettled(t: Table, a: int, z: int)
    requires InTable(t, a) && Settled(t, z)
    ensures Settled(Validate(t, a), z) && Validate(t, a).zones[z].ztype == t.zones[z].ztype
  {
    hide ZoneOf, BitOf, Overwrite;
  }

  lemma CompletedTable<B>(s: Io<B>, p: Page)
    requires TableOk(s.t) && OwnerOk(s, p) && CanComplete(s, p)
    ensures TableOk(Complete(s, p).t)
  {
    hide TableOk;
    ValidateTable(s.t, s.flights[p].addr);
  }

  lemma CompletedCount<B>(s: Io<B>, p: Page, z: int)
    requires OwnerOk(s, p) && CanComplete(s, p) && CountOk(s, z)
    ensures CountOk(Complete(s, p), z)
  {
    var a, s' := s.flights[p].addr, Complete(s, p);
    hide ZoneOf, BitOf, Overwrite;
    if 0 < z < |s.t.zones| {
      assert Over(s', z) == Over(s, z);
    }
  }

  lemma CompletedStray<B>(s: Io<B>, p: Page, q: Page, z: int)
    requires CanComplete(s, p) && StrayOk(s, q, z)
    ensures StrayOk(Complete(s, p), q, z)
  {
    hide Validate;
    if (q, z) in s.strays {
      ValidateSettled(s.t, s.flights[p].addr, z);
    }
  }

  lemma CompletedHolds<B>(s: Io<B>, p: Page, q: Page, b: int)
    requires CanComplete(s, p) && Holds(s, q, b)
    ensures var a, s' := s.flights[p].addr, Complete(s, p);
            && Holds(s', q, b) && InTable(s.t, b) && InTable(s'.t, b)
            && (BitSet(s'.t, b) <==> BitSet(s.t, b) || b == a)
  {
    hide ZoneOf, BitOf, Validate, Settled, BitSet;
    var a := s.flights[p].addr;
    InCapacityInTable(s.t, b);
    ValidateBits(s.t, a, b);
    ValidateKeepsShape(s.t, a, b);
    ValidateSettled(s.t, a, ZoneOf(s.t.zoneSize, b));
    ValidateShape(s.t, a);
  }

  lemma CompletedOwner<B>(s: Io<B>, p: Page, q: Page)
    requires OwnerOk(s, p) && OwnerOk(s, q) && CanComplete(s, p) && s.overdrawn <= s.unmarked
    requires forall a {:trigger ClaimOk(s, p, q, a)} :: ClaimOk(s, p, q, a)
    ensures OwnerOk(Complete(s, p), q)
  {
    hide ZoneOf, BitOf, InCapacity, Settled, Validate, Holds, BitSet;
    var a, s' := s.flights[p].addr, Complete(s, p);
    if AddrOf(s', q) != 0 {
      CompletedHolds(s, p, q, AddrOf(s', q));
      assert ClaimOk(s, p, q, a);
    }
    if q in s'.flights {
      match s.flights[q]
      case Queued(z) => ValidateSettled(s.t, a, z);
      case Landed(b) =>
        CompletedHolds(s, p, q, b);
        assert ClaimOk(s, p, q, b);
    }
  }

  lemma TruncateReleases<B>(s: Io<B>, p: Page)
    requires Safe(s) && CanTruncate(s, p)
    ensures Releases(s, Truncate(s, p), AddrOf(s, p)) && TableOk(Truncate(s, p).t)
  {
    hide ZoneOf, BitOf, AllocFrame, OwnerOk, CanRelease, TableOk;
    assert OwnerOk(s, p);
    PageReleases(s, p);
    InvalidateTable(s.t, AddrOf(s, p));
  }

  lemma TruncateSafe<B>(s: Io<B>, p: Page)
    requires Safe(s) && CanTruncate(s, p)
    ensures Safe(Truncate(s, p))
  {
    hide ZoneOf, BitOf, AllocFrame, TableOk, Releases, Safe, Invalidate;
    TruncateReleases(s, p);
    ReleaseSafe(s, Truncate(s, p), p, AddrOf(s, p));
  }

  lemma DropSafe<B>(s: Io<B>, p: Page)
    requires Safe(s)
    ensures Safe(Drop(s, p))
  {
    hide TableOk, InCapacity, Settled, ZoneOf, BitOf;
    var s' := Drop(s, p);
    forall q ensures OwnerOk(s', q) {
      assert OwnerOk(s, q);
    }
    forall q, r, b ensures ClaimOk(s', q, r, b) {
      assert ClaimOk(s, q, r, b);
    }
    forall b ensures BitOk(s', b) {
      assert BitOk(s, b);
    }
    forall z ensures CountOk(s', z) {
      assert CountOk(s, z);
      assert s.t.zoneSize >= SECTORS_PER_BLOCK ==> Over(s', z) == Over(s, z);
    }
    forall q, z ensures StrayOk(s', q, z) {
      assert StrayOk(s, q, z);
    }
  }

  lemma StepSafe<B>(s: Io<B>, step: Step<B>)
    requires Safe(s) && CanStep(s, step)
    ensures Safe(After(s, step))
  {
    hide Safe;
    match step
    case DoSubmit(p, dev) => SubmitSafe(s, p, dev);
    case DoLand(p, a, content) => LandSafe(s, p, a, content);
    case DoComplete(p) => CompleteSafe(s, p);
    case DoTruncate(p) => TruncateSafe(s, p);
    case DoDrop(p) => DropSafe(s, p);
  }

  /**
   * Over every run of submits, appends, completions, truncations and drops, in any
   * interleaving: a block of a page that is not in flight keeps its bit, unless the mount found it
   * unmarked; no two pages share a block; every block lies in a zone of its type, unless it is still where
   * the mount found it astray.
   */
  lemma {:induction false} RunSafe<B(!new)>(s: Io<B>, steps: seq<Step<B>>)
    requires Safe(s) && CanRun(s, steps)
    ensures Safe(RunFrom(s, steps))
    ensures RunFrom(s, steps).unmarked == s.unmarked && RunFrom(s, steps).strays == s.strays
    decreases |steps|
  {
    hide Safe, CanStep;
    if steps != [] {
      StepSafe(s, steps[0]);
      StepKeepsMount(s, steps[0]);
      RunSafe(After(s, steps[0]), steps[1..]);
    }
  }

  lemma StepKeepsMount<B>(s: Io<B>, step: Step<B>)
    requires CanStep(s, step)
    ensures After(s, step).unmarked == s.unmarked && After(s, step).strays == s.strays
  {
  }

  // ----- What the mount found -----

  /**
   * The arrays and addresses a mount may start from: published blocks are on the drive, inside zones that
   * are in use and not superblock zones, one page each; only they are marked; the counters count the bits.
   * Nothing is asked of the types of those zones, nor that the published blocks be marked.
   */
  ghost predicate MountOk<B>(t: Table, addr: map<Page, int>, dev: map<int, B>) {
    && TableOk(t)
    && (forall p :: p in addr && addr[p] != 0 ==>
          InCapacity(t, addr[p]) && addr[p] in dev && Settled(t, ZoneOf(t.zoneSize, addr[p])))
    && (forall p, q :: p in addr && q in addr && addr[p] == addr[q] != 0 ==> p == q)
    && (forall a {:trigger Marked(t, a)} :: Marked(t, a) ==> a != 0 && exists p :: p in addr && addr[p] == a)
    && (forall z :: 0 < z < |t.zones| ==> t.zones[z].vblocks == |t.zones[z].valid|)
  }

  ghost predicate Marked(t: Table, a: int) {
    InTable(t, a) && ZoneOf(t.zoneSize, a) != 0 && BitSet(t, a)
  }

  ghost function AtMount<B>(t: Table, addr: map<Page, int>, dev: map<int, B>): Io<B>
    requires t.zoneSize >= SECTORS_PER_BLOCK
  {
    Io(t, addr, map[], dev,
       set p | p in addr && addr[p] != 0 && !Marked(t, addr[p]) :: addr[p],
       set p | p in addr && addr[p] != 0 && !Hosts(t, ZoneOf(t.zoneSize, addr[p]), PageType(p))
         :: (p, ZoneOf(t.zoneSize, addr[p])),
       {})
  }

  /** Whatever bits and types the mount found, the accounting is exact from there on. */
  lemma MountExact<B>(t: Table, addr: map<Page, int>, dev: map<int, B>)
    requires MountOk(t, addr, dev)
    ensures Exact(AtMount(t, addr, dev))
  {
    var s := AtMount(t, addr, dev);
    forall p ensures OwnerOk(s, p) {
      MountOwner(t, addr, dev, p);
    }
    hide ZoneOf, BitOf, Good, Geometry, OwnerOk;
    forall p, q, a ensures ClaimOk(s, p, q, a) {
    }
    forall a ensures BitOk(s, a) && Owned(s, a) {
      assert Marked(t, a) <==> InTable(t, a) && ZoneOf(t.zoneSize, a) != 0 && BitSet(t, a);
      if Marked(t, a) {
        var p :| p in addr && addr[p] == a;
        assert p !in s.flights && AddrOf(s, p) == a;
      }
    }
    forall z ensures CountOk(s, z) {
      assert Over(s, z) == {};
    }
    forall a | a in s.unmarked ensures a in s.dev && InTable(s.t, a) {
      var p :| p in addr && addr[p] != 0 && !Marked(t, addr[p]) && addr[p] == a;
      InCapacityInTable(t, a);
    }
  }

  lemma MountOwner<B>(t: Table, addr: map<Page, int>, dev: map<int, B>, p: Page)
    requires MountOk(t, addr, dev)
    ensures OwnerOk(AtMount(t, addr, dev), p)
  {
    var s := AtMount(t, addr, dev);
    var a := AddrOf(s, p);
    if a != 0 {
      InCapacityInTable(t, a);
      ZeroBelow(t, a);
      assert (p, ZoneOf(t.zoneSize, a)) in s.strays <==> !Hosts(t, ZoneOf(t.zoneSize, a), PageType(p));
      if a in s.unmarked {
        var q :| q in addr && addr[q] != 0 && !Marked(t, addr[q]) && addr[q] == a;
      }
    }
  }

  lemma ZeroBelow(t: Table, a: int)
    requires InTable(t, a) && Settled(t, ZoneOf(t.zoneSize, a))
    ensures Marked(t, a) <==> BitSet(t, a)
  {
  }

  /**
   * The next mount of a drive may start from what was published at any earlier moment: with clean arrays of
   * the same geometry, and no zone reported empty that holds a block, it meets the conditions again.
   */
  lemma MountAgain<B>(s: Io<B>, t: Table, dev: map<int, B>)
    requires Safe(s) && OnlyAppended(s.dev, dev) && TableOk(t)
    requires t.zoneSize == s.t.zoneSize && t.capacity == s.t.capacity && |t.zones| == |s.t.zones|
    requires forall z :: 0 < z < |t.zones| ==> t.zones[z].valid == {} && t.zones[z].vblocks == 0
    requires forall a :: a in dev && InTable(t, a) ==> t.zones[ZoneOf(t.zoneSize, a)].cond != Empty
    ensures MountOk(t, s.addr, dev)
  {
    hide ZoneOf, BitOf, TableOk;
    forall p | p in s.addr && s.addr[p] != 0
      ensures InCapacity(t, s.addr[p]) && s.addr[p] in dev && Settled(t, ZoneOf(t.zoneSize, s.addr[p]))
    {
      assert OwnerOk(s, p) && AddrOf(s, p) == s.addr[p];
      SameCapacity(s.t, t, s.addr[p]);
    }
    forall p, q | p in s.addr && q in s.addr && s.addr[p] == s.addr[q] != 0 ensures p == q {
      assert ClaimOk(s, p, q, s.addr[p]);
      assert Claims(s, p, s.addr[p]) && Claims(s, q, s.addr[p]);
    }
  }

  lemma SameCapacity(t: Table, u: Table, a: int)
    requires TableOk(t) && TableOk(u) && InCapacity(t, a)
    requires u.zoneSize == t.zoneSize && u.capacity == t.capacity && |u.zones| == |t.zones|
    ensures InCapacity(u, a) && InTable(u, a) && InTable(t, a)
  {
  }

  /** The accounting holds for a block a settled page holds if and only if the mount did not find it unmarked. */
  lemma HeldMarkedIff<B>(s: Io<B>, p: Page)
    requires Safe(s) && p !in s.flights && AddrOf(s, p) != 0
    ensures InTable(s.t, AddrOf(s, p)) && (BitSet(s.t, AddrOf(s, p)) <==> AddrOf(s, p) !in s.unmarked)
  {
    hide ZoneOf, BitOf, TableOk, BitSet;
    assert OwnerOk(s, p);
    InCapacityInTable(s.t, AddrOf(s, p));
  }

  /** A count equals its bits if and only if no unmarked block of the zone was invalidated. */
  lemma CountIff<B>(s: Io<B>, z: int)
    requires Safe(s) && 0 < z < |s.t.zones|
    ensures s.t.zoneSize >= SECTORS_PER_BLOCK
    ensures s.t.zones[z].vblocks == |s.t.zones[z].valid| <==> Over(s, z) == {}
  {
    hide Inv, WpSane, OwnerOk;
    assert CountOk(s, z);
  }

  /** A page's block lies in a zone of its type if and only if that is not the zone the mount found it astray in. */
  lemma TypedIff<B>(s: Io<B>, p: Page)
    requires Safe(s) && AddrOf(s, p) != 0
    ensures s.t.zoneSize >= SECTORS_PER_BLOCK
    ensures var z := ZoneOf(s.t.zoneSize, AddrOf(s, p));
            2 <= z < |s.t.zones| && (s.t.zones[z].ztype == PageType(p) <==> (p, z) !in s.strays)
  {
    hide ZoneOf, Inv, WpSane;
    assert OwnerOk(s, p);
  }

  /** A write goes to a zone of the page's type if and only if the page was not astray or its zone is full. */
  lemma SubmitTypedIff<B>(s: Io<B>, p: Page, dev: nat -> bool)
    requires Safe(s) && CanSubmit(s, p, dev)
    ensures var s' := Submit(s, p, dev);
            (Hosts(s'.t, s'.flights[p].zone, PageType(p))
             <==> NeedsZone(s.t, AddrOf(s, p)) || (p, ZoneOf(s.t.zoneSize, AddrOf(s, p))) !in s.strays)
  {
    var a, s' := AddrOf(s, p), Submit(s, p, dev);
    SubmittedZone(s, p, dev);
    AllocTable(s.t, a, PageType(p), dev);
    hide ZoneOf, BitOf, Alloc, TableOk, AllocFrame;
  }

  // ----- Pages of different kinds are kept in different zones -----

  /** What a page is: a node page of the table's own nids or of the others, a block of the table file or of another. */
  datatype Kind = LowNode | RegularNode | TableBlock | FileBlock

  function KindOf(p: Page): Kind {
    match p
    case Node(n) => if n < 2730000 then LowNode else RegularNode
    case Data(ino, idx) =>
      if ino == 1 then TableBlock
      else if ino == 2 then if idx < 2730000 then LowNode else RegularNode
      else FileBlock
  }

  /** The zone types of the four kinds. */
  function ZoneTypeOf(k: Kind): int {
    match k
    case LowNode => 1
    case TableBlock => 2
    case RegularNode => 3
    case FileBlock => 4
  }

  lemma KindTypes(p: Page)
    ensures PageType(p) == ZoneTypeOf(KindOf(p))
  {
  }

  /** A mount finds a page astray exactly if its block lies in a zone of another kind's type, or in no usable one. */
  lemma StraysAtMount<B>(t: Table, addr: map<Page, int>, dev: map<int, B>, p: Page, z: int)
    requires t.zoneSize >= SECTORS_PER_BLOCK
    ensures (p, z) in AtMount(t, addr, dev).strays <==>
              && p in addr && addr[p] != 0 && z == ZoneOf(t.zoneSize, addr[p])
              && !(Settled(t, z) && t.zones[z].ztype == ZoneTypeOf(KindOf(p)))
  {
    hide ZoneOf;
    KindTypes(p);
  }

  /** Two published blocks in one zone at any moment of any run are of the same kind, but for pages mounted astray. */
  lemma KindsApart<B(!new)>(s: Io<B>, steps: seq<Step<B>>, p: Page, q: Page)
    requires Safe(s) && CanRun(s, steps)
    ensures RunFrom(s, steps).t.zoneSize >= SECTORS_PER_BLOCK
    ensures var u := RunFrom(s, steps);
            var z := ZoneOf(u.t.zoneSize, AddrOf(u, p));
            AddrOf(u, p) != 0 && (p, z) !in s.strays ==>
              && 2 <= z < |u.t.zones| && u.t.zones[z].ztype == ZoneTypeOf(KindOf(p))
              && (AddrOf(u, q) != 0 && (q, z) !in s.strays && ZoneOf(u.t.zoneSize, AddrOf(u, q)) == z ==>
                    KindOf(q) == KindOf(p))
  {
    hide ZoneOf, Safe;
    RunSafe(s, steps);
    var u := RunFrom(s, steps);
    SafeSize(u);
    if AddrOf(u, p) != 0 {
      TypedIff(u, p);
      KindTypes(p);
    }
    if AddrOf(u, q) != 0 {
      TypedIff(u, q);
      KindTypes(q);
    }
  }

  lemma SafeSize<B>(s: Io<B>)
    requires Safe(s)
    ensures s.t.zoneSize >= SECTORS_PER_BLOCK
  {
  }

  /** A first write, or a rewrite out of a full zone, goes to a zone of the type of the page's kind. */
  lemma SubmitKind<B>(s: Io<B>, p: Page, dev: nat -> bool)
    requires Safe(s) && CanSubmit(s, p, dev)
    ensures p in Submit(s, p, dev).flights && Submit(s, p, dev).flights[p].Queued?
    ensures var u := Submit(s, p, dev);
            var z := u.flights[p].zone;
            AddrOf(s, p) == 0 || NeedsZone(s.t, AddrOf(s, p)) ==>
              2 <= z < |u.t.zones| && u.t.zones[z].cond != Full && u.t.zones[z].ztype == ZoneTypeOf(KindOf(p))
  {
    var a := AddrOf(s, p);
    SubmittedZone(s, p, dev);
    AllocTable(s.t, a, PageType(p), dev);
    KindTypes(p);
    hide Alloc, TableOk, AllocFrame, BitOf;
  }

  // ----- Exact accounting -----

  /** After block `a` lost its bit, every other valid block still has its owner. */
  lemma OwnedFrame<B>(s: Io<B>, s': Io<B>, a: int, b: int)
    requires Releases(s, s', a) && Owned(s, b)
    requires forall q :: q !in s.flights && AddrOf(s, q) != a ==> q !in s'.flights && AddrOf(s', q) == AddrOf(s, q)
    ensures Owned(s', b)
  {
    hide ZoneOf, BitOf, AllocFrame;
    FrameShape(s.t, s'.t, a);
    if InTable(s.t, b) {
      FrameKeeps(s.t, s'.t, a, b);
    }
  }

  lemma SubmitExact<B>(s: Io<B>, p: Page, dev: nat -> bool)
    requires Exact(s) && CanSubmit(s, p, dev)
    ensures Exact(Submit(s, p, dev))
  {
    hide ZoneOf, BitOf, Safe, Alloc, Releases, InTable, Owned;
    SubmitSafe(s, p, dev);
    SubmitReleases(s, p, dev);
    forall b ensures Owned(Submit(s, p, dev), b) {
      assert Owned(s, b);
      OwnedFrame(s, Submit(s, p, dev), AddrOf(s, p), b);
    }
  }

  lemma LandExact<B>(s: Io<B>, p: Page, a: int, content: B)
    requires Exact(s) && CanLand(s, p, a)
    ensures Exact(Land(s, p, a, content))
  {
    hide ZoneOf, BitOf, Safe, InCapacity;
    var s' := Land(s, p, a, content);
    LandSafe(s, p, a, content);
    forall b ensures Owned(s', b) {
      assert Owned(s, b);
      if InTable(s.t, b) && ZoneOf(s.t.zoneSize, b) != 0 && BitSet(s.t, b) {
        var q :| q !in s.flights && AddrOf(s, q) == b;
        assert q !in s'.flights && AddrOf(s', q) == b;
      }
    }
  }

  lemma CompleteExact<B>(s: Io<B>, p: Page)
    requires Exact(s) && CanComplete(s, p)
    ensures Exact(Complete(s, p))
  {
    hide ZoneOf, BitOf, Safe, Validate;
    var a, s' := s.flights[p].addr, Complete(s, p);
    CompleteSafe(s, p);
    ValidateShape(s.t, a);
    forall b ensures Owned(s', b) {
      assert Owned(s, b);
      if InTable(s.t, b) {
        ValidateBits(s.t, a, b);
      }
      if b == a {
        assert p !in s'.flights && AddrOf(s', p) == a;
      } else if InTable(s.t, b) && ZoneOf(s.t.zoneSize, b) != 0 && BitSet(s.t, b) {
        var q :| q !in s.flights && AddrOf(s, q) == b;
        assert q !in s'.flights && AddrOf(s', q) == b;
      }
    }
  }

  lemma TruncateExact<B>(s: Io<B>, p: Page)
    requires Exact(s) && CanTruncate(s, p)
    ensures Exact(Truncate(s, p))
  {
    hide ZoneOf, BitOf, Safe, Releases, Invalidate, InTable, Owned;
    TruncateSafe(s, p);
    TruncateReleases(s, p);
    forall b ensures Owned(Truncate(s, p), b) {
      assert Owned(s, b);
      OwnedFrame(s, Truncate(s, p), AddrOf(s, p), b);
    }
  }

  /** Dropping a page loses track of a marked block: of one whose page is not in flight. */
  predicate Leaks<B>(s: Io<B>, p: Page) {
    AddrOf(s, p) != 0 && p !in s.flights && AddrOf(s, p) !in s.unmarked
  }

  /** Dropping a page keeps the accounting exact if and only if it leaks nothing. */
  lemma DropExactIff<B>(s: Io<B>, p: Page)
    requires Exact(s)
    ensures Exact(Drop(s, p)) <==> !Leaks(s, p)
  {
    hide ZoneOf, BitOf, Safe, TableOk, Settled, InCapacity;
    var s' := Drop(s, p);
    DropSafe(s, p);
    if Leaks(s, p) {
      LeakedBlock(s, p);
      LeakedIsNotExact(s', AddrOf(s, p));
    } else {
      forall b ensures Owned(s', b) {
        assert Owned(s, b);
        if InTable(s.t, b) && ZoneOf(s.t.zoneSize, b) != 0 && BitSet(s.t, b) {
          var q :| q !in s.flights && AddrOf(s, q) == b;
          ZeroIsNowhere(s.t.zoneSize);
          if q == p {
            SettledBit(s, q);
          }
          assert q !in s'.flights && AddrOf(s', q) == b;
        }
      }
    }
  }

  lemma SettledBit<B>(s: Io<B>, p: Page)
    requires Safe(s) && p !in s.flights && AddrOf(s, p) != 0
    ensures InTable(s.t, AddrOf(s, p)) && (AddrOf(s, p) in s.unmarked ==> !BitSet(s.t, AddrOf(s, p)))
  {
    HeldMarkedIff(s, p);
  }

  /** A marked block that nobody holds and nothing in flight landed on. */
  ghost predicate Leaked<B>(s: Io<B>, a: int) {
    && InTable(s.t, a) && ZoneOf(s.t.zoneSize, a) != 0 && BitSet(s.t, a) && a != 0 && a in s.dev
    && forall q {:trigger Claims(s, q, a)} :: !Claims(s, q, a)
  }

  lemma LeakedIsNotExact<B>(s: Io<B>, a: int)
    requires Leaked(s, a)
    ensures !Exact(s)
  {
    hide ZoneOf, BitOf, Safe;
    forall q ensures AddrOf(s, q) != a {
      assert !Claims(s, q, a);
    }
    assert !Owned(s, a);
  }

  lemma LeakedBlock<B>(s: Io<B>, p: Page)
    requires Safe(s) && Leaks(s, p)
    ensures Leaked(Drop(s, p), AddrOf(s, p))
  {
    hide ZoneOf, BitOf, TableOk;
    var a := AddrOf(s, p);
    assert OwnerOk(s, p);
    ZeroIsNowhere(s.t.zoneSize);
    forall q ensures !Claims(Drop(s, p), q, a) {
      assert ClaimOk(s, p, q, a) && Claims(s, p, a);
    }
  }

  /** No step ever marks a leaked block clear, re-appends it or gives it an owner. */
  lemma LeakStays<B>(s: Io<B>, step: Step<B>, a: int)
    requires Safe(s) && CanStep(s, step) && Leaked(s, a)
    ensures Leaked(After(s, step), a)
  {
    var s' := After(s, step);
    hide ZoneOf, BitOf, Alloc, Validate, Invalidate, Releases;
    forall q ensures !Claims(s, q, a) && !Claims(s', q, a) {
      hide TableOk, OwnerOk, CountOk, StrayOk, BitOk;
      assert !Claims(s, q, a);
    }
    match step
    case DoSubmit(p, dev) =>
      assert !Claims(s, p, a);
      SubmitReleases(s, p, dev);
      LeakFrame(s, s', AddrOf(s, p), a);
    case DoLand(p, b, content) =>
    case DoComplete(p) =>
      ValidateBits(s.t, s.flights[p].addr, a);
      ValidateShape(s.t, s.flights[p].addr);
    case DoTruncate(p) =>
      assert !Claims(s, p, a);
      TruncateReleases(s, p);
      LeakFrame(s, s', AddrOf(s, p), a);
    case DoDrop(p) =>
  }

  lemma LeakFrame<B>(s: Io<B>, s': Io<B>, b: int, a: int)
    requires Releases(s, s', b) && InTable(s.t, a) && BitSet(s.t, a) && a != b
    ensures InTable(s'.t, a) && BitSet(s'.t, a) && s'.t.zoneSize == s.t.zoneSize && s'.dev == s.dev
  {
    FrameKeeps(s.t, s'.t, b, a);
  }

  lemma {:induction false} LeakStaysForever<B(!new)>(s: Io<B>, steps: seq<Step<B>>, a: int)
    requires Safe(s) && CanRun(s, steps) && Leaked(s, a)
    ensures Leaked(RunFrom(s, steps), a)
    decreases |steps|
  {
    hide Safe, Leaked, CanStep;
    if steps != [] {
      LeakStays(s, steps[0], a);
      StepSafe(s, steps[0]);
      LeakStaysForever(After(s, steps[0]), steps[1..], a);
    }
  }

  /** A run in which nothing dropped leaks. */
  ghost predicate Tight<B>(s: Io<B>, steps: seq<Step<B>>)
    requires CanRun(s, steps)
    decreases |steps|
  {
    steps == [] || (!(steps[0].DoDrop? && Leaks(s, steps[0].p)) && Tight(After(s, steps[0]), steps[1..]))
  }

  /**
   * Over every run, in any interleaving, the accounting ends exact, with a block valid exactly when a page
   * not in flight holds it, if and only if nothing dropped on the way leaked.
   */
  lemma {:induction false} RunExactIff<B(!new)>(s: Io<B>, steps: seq<Step<B>>)
    requires Exact(s) && CanRun(s, steps)
    ensures Exact(RunFrom(s, steps)) <==> Tight(s, steps)
    decreases |steps|
  {
    if steps != [] {
      var m := After(s, steps[0]);
      hide Safe, Owned;
      if steps[0].DoDrop? && Leaks(s, steps[0].p) {
        var a := AddrOf(s, steps[0].p);
        LeakedBlock(s, steps[0].p);
        DropSafe(s, steps[0].p);
        LeakStaysForever(m, steps[1..], a);
        LeakedIsNotExact(RunFrom(m, steps[1..]), a);
      } else {
        StepExact(s, steps[0]);
        RunExactIff(m, steps[1..]);
      }
    }
  }

  lemma StepExact<B>(s: Io<B>, step: Step<B>)
    requires Exact(s) && CanStep(s, step) && !(step.DoDrop? && Leaks(s, step.p))
    ensures Exact(After(s, step))
  {
    hide Exact;
    match step
    case DoSubmit(p, dev) => SubmitExact(s, p, dev);
    case DoLand(p, a, content) => LandExact(s, p, a, content);
    case DoComplete(p) => CompleteExact(s, p);
    case DoTruncate(p) => TruncateExact(s, p);
    case DoDrop(p) => DropExactIff(s, p);
  }

  /** A block is valid exactly when it was not found unmarked and one page not in flight, and one only, holds it. */
  lemma ExactMeans<B>(s: Io<B>, a: int)
    requires Exact(s)
    ensures InTable(s.t, a) && ZoneOf(s.t.zoneSize, a) != 0 ==>
              (BitSet(s.t, a) <==> a !in s.unmarked && exists p :: p !in s.flights && AddrOf(s, p) == a)
    ensures forall p, q :: AddrOf(s, p) == a && AddrOf(s, q) == a != 0 ==> p == q
  {
    hide ZoneOf, BitOf, TableOk, BitSet;
    if InTable(s.t, a) && ZoneOf(s.t.zoneSize, a) != 0 {
      ZeroIsNowhere(s.t.zoneSize);
      assert Owned(s, a);
      forall p | p !in s.flights && AddrOf(s, p) == a ensures BitSet(s.t, a) <==> a !in s.unmarked {
        assert OwnerOk(s, p);
      }
    }
    forall p, q | AddrOf(s, p) == a && AddrOf(s, q) == a != 0 ensures p == q {
      assert ClaimOk(s, p, q, a) && Claims(s, p, a) && Claims(s, q, a);
    }
  }

  // ----- Limits -----

  /** Over every run the open zones of a type pass its limit by no more than they passed its counter at mount. */
  lemma {:induction false} RunWithinLimits<B(!new)>(s: Io<B>, steps: seq<Step<B>>, k: int, extra: nat)
    requires Safe(s) && CanRun(s, steps) && IsType(k) && WithinLimit(s.t, k, extra)
    ensures Shape(RunFrom(s, steps).t) && WithinLimit(RunFrom(s, steps).t, k, extra)
    decreases |steps|
  {
    hide Safe, CanStep, WithinLimit;
    SafeShape(s);
    if steps != [] {
      StepWithinLimits(s, steps[0], k, extra);
      StepSafe(s, steps[0]);
      RunWithinLimits(After(s, steps[0]), steps[1..], k, extra);
    }
  }

  lemma SafeShape<B>(s: Io<B>)
    requires Safe(s)
    ensures TableOk(s.t) && Shape(s.t)
  {
  }

  lemma StepWithinLimits<B>(s: Io<B>, step: Step<B>, k: int, extra: nat)
    requires Safe(s) && CanStep(s, step) && IsType(k) && WithinLimit(s.t, k, extra)
    ensures Shape(After(s, step).t) && WithinLimit(After(s, step).t, k, extra)
  {
    SafeShape(s);
    StepSafe(s, step);
    SafeShape(After(s, step));
    hide Safe, ZoneOf, BitOf, Inv, WpSane, WithinLimit, Overwrite;
    match step
    case DoSubmit(p, dev) =>
      var a := AddrOf(s, p);
      if NeedsZone(s.t, a) {
        GetZoneKeepsLimits(s.t, PageType(p), dev, k, extra);
        GetZoneTable(s.t, PageType(p), dev);
        InvalidateKeepsLimits(GetZone(s.t, PageType(p), dev).0, a, k, extra);
      } else {
        InvalidateKeepsLimits(s.t, a, k, extra);
      }
    case DoLand(p, a, content) =>
    case DoComplete(p) => ValidateKeepsLimits(s.t, s.flights[p].addr, k, extra);
    case DoTruncate(p) => InvalidateKeepsLimits(s.t, AddrOf(s, p), k, extra);
    case DoDrop(p) =>
  }

  lemma InvalidateKeepsLimits(t: Table, a: int, k: int, extra: nat)
    requires Shape(t) && InTable(t, a) && IsType(k) && WithinLimit(t, k, extra)
    ensures Shape(Invalidate(t, a)) && WithinLimit(Invalidate(t, a), k, extra)
  {
    hide ZoneOf, BitOf;
    assert OpenTyped(Invalidate(t, a), k) == OpenTyped(t, k);
  }

  lemma ValidateKeepsLimits(t: Table, a: int, k: int, extra: nat)
    requires Shape(t) && InTable(t, a) && IsType(k) && WithinLimit(t, k, extra)
    ensures Shape(Validate(t, a)) && WithinLimit(Validate(t, a), k, extra)
  {
    hide ZoneOf, BitOf, Overwrite;
    ValidateShape(t, a);
    assert OpenTyped(Validate(t, a), k) <= OpenTyped(t, k);
    SubsetSize(OpenTyped(Validate(t, a), k), OpenTyped(t, k));
  }

  // ----- The drive only grows -----

  /** Every block of `d` is on `e`, unchanged. */
  ghost predicate OnlyAppended<B>(d: map<int, B>, e: map<int, B>) {
    forall a :: a in d ==> a in e && e[a] == d[a]
  }

  /** No step overwrites a block, whatever is in flight. */
  lemma {:induction false} RunAppendsOnly<B(!new)>(s: Io<B>, steps: seq<Step<B>>)
    requires CanRun(s, steps)
    ensures OnlyAppended(s.dev, RunFrom(s, steps).dev)
    decreases |steps|
  {
    if steps != [] {
      StepAppendsOnly(s, steps[0]);
      RunAppendsOnly(After(s, steps[0]), steps[1..]);
    }
  }

  lemma StepAppendsOnly<B>(s: Io<B>, step: Step<B>)
    requires CanStep(s, step)
    ensures OnlyAppended(s.dev, After(s, step).dev)
  {
  }
}
