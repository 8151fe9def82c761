/** The hypotheses hold on a fresh image, and those of the table as long as 1021 low nids are free. */
module FreshStart {
  import opened Layout
  import opened BlockPath
  import opened NodeTree
  import opened NatCache
  import opened NatStore
  import opened Recovery
  import opened Writeback
  import opened NatFs
  import opened Checkpoint
  import opened Mount
  import opened ZoneTable
  import opened ZoneAlloc
  import opened WritePipeline
  import opened Serving
  import Joint

  /** The single walks of the table file: three links of inode 1 and the slots of one indirect node. */
  function Links(): set<seq<int>> {
    {[900], [901], [902]} + RowOf(NIDS_PER_BLOCK)
  }

  function RowOf(n: nat): set<seq<int>> {
    set y | 0 <= y < n :: [902, y]
  }

  lemma {:induction false} RowSize(n: nat)
    ensures |RowOf(n)| <= n
  {
    if n > 0 {
      RowSize(n - 1);
      assert RowOf(n) == RowOf(n - 1) + {[902, n - 1]};
    } else {
      assert RowOf(0) == {};
    }
  }

  lemma MetaLink(b: int, k: nat)
    requires 0 <= b < META_BLOCKS && 0 < k <= Depth(b)
    ensures Up(b, k) in Links()
  {
    var p := Path(b);
    assert Up(b, k) == if k == 1 then [p[0]] else [p[0], p[1]];
  }

  /** The table file never needs more than 1021 nodes. */
  lemma AbsentFew(nodes: Nodes)
    ensures |Absent(nodes)| <= 1021
  {
    forall q | q in Absent(nodes) ensures q in Links() {
      var b, k :| 0 <= b < META_BLOCKS && 0 <= k <= Depth(b) && Walk(nodes, META_INO, Up(b, k)) == 0 && q == Up(b, k);
      if k > 0 {
        MetaLink(b, k);
      }
    }
    SubsetSize(Absent(nodes), Links());
    RowSize(NIDS_PER_BLOCK);
  }

  lemma SupplyIfFree(st: Store)
    requires |FreeLow(st)| >= 1021
    ensures Supply(st)
  {
    AbsentFew(st.nodes);
  }

  function Nids(lo: int, n: nat): (s: set<int>)
    ensures |s| == n && forall i :: i in s <==> lo <= i < lo + n
  {
    if n == 0 then {} else Nids(lo, n - 1) + {lo + n - 1}
  }

  // ----- A fresh image: the root directory's two blocks in zone 6, its node in zone 5, inode 1 in zone 3 -----

  /**
   * A zoned drive: blocks in a zone, sectors of them that can be written, zones, and how many may be open and
   * active.  The mount never sets the limit of meta node zones.
   */
  datatype Geometry = Geometry(blocks: nat, capacity: nat, zones: nat, opens: nat, actives: nat, unset: int)

  predicate Fits(g: Geometry) {
    && 2 * SECTORS_PER_BLOCK < g.capacity <= ZoneSize(g) < LONG_MAX
    && g.zones >= 7 && g.opens >= 4 && g.actives >= 4
  }

  function ZoneSize(g: Geometry): nat {
    g.blocks * SECTORS_PER_BLOCK
  }

  function MetaLba(g: Geometry): int {
    3 * g.blocks
  }

  function RootLba(g: Geometry): int {
    5 * g.blocks
  }

  function DotLba(g: Geometry): int {
    6 * g.blocks
  }

  function DotDotLba(g: Geometry): int {
    6 * g.blocks + 1
  }

  function RootPage(g: Geometry): NodePage {
    Zeroes(NIDS_PER_BLOCK)[0 := DotLba(g)][1 := DotDotLba(g)]
  }

  function FreshDisk(g: Geometry): Disk {
    map[MetaLba(g) := NodeBlk(Zeroes(NIDS_PER_BLOCK)), RootLba(g) := NodeBlk(RootPage(g)),
        DotLba(g) := DataBlk(1), DotDotLba(g) := DataBlk(2)]
  }

  function FreshData(): FileData {
    map[(ROOT_INO, 0) := 1, (ROOT_INO, 1) := 2]
  }

  /** The log `mkfs` writes: the root first, then inode 1. */
  function FreshLog(g: Geometry): seq<LogEntry> {
    [LogEntry(ROOT_INO, ROOT_INO, RootLba(g)), LogEntry(META_INO, META_INO, MetaLba(g))]
  }

  const FRESH_FILES := {META_INO, ROOT_INO}

  /** Memory on the first mount: both logged entries are cached, the table is empty. */
  ghost function FirstMount(g: Geometry): Store {
    Store(Mounted(FreshLog(g)), map[ROOT_INO := RootPage(g)], map[], {}, {})
  }

  lemma FreshBook(g: Geometry)
    requires Fits(g)
    ensures LogMap(FreshLog(g)) == map[ROOT_INO := RootLba(g), META_INO := MetaLba(g)]
    ensures forall n {:trigger ZeroIsLast(FreshLog(g), n)} :: ZeroIsLast(FreshLog(g), n) && ZeroIsFirst(FreshLog(g), n)
    ensures Mounted(FreshLog(g)).free == map[]
    ensures Mounted(FreshLog(g)).used.Keys == FRESH_FILES
    ensures Mounted(FreshLog(g)).used[ROOT_INO].addr == RootLba(g) && !Mounted(FreshLog(g)).used[ROOT_INO].dirty
    ensures Mounted(FreshLog(g)).used[META_INO].addr == MetaLba(g) && !Mounted(FreshLog(g)).used[META_INO].dirty
  {
    var log, e3, e1 := FreshLog(g), FreshLog(g)[0], FreshLog(g)[1];
    assert log == [e3] + [e1] && [e3] == [] + [e3] && log[..1] == [e3] && [e3][..0] == [];
    forall n
      ensures FirstAddr(log, n) == (
        if n == ROOT_INO then Some(RootLba(g)) else if n == META_INO then Some(MetaLba(g)) else None)
    {
      FirstAppend([], e3, n);
      FirstAppend([e3], e1, n);
    }
    FirstAppend([], e3, 0);
    FirstAppend([e3], e1, 0);
    assert LogMap([]) == map[];
    MountedStep(log);
    MountedStep([e3]);
    assert Mounted([]) == Book(map[], map[]);
  }

  /** No node but the two inodes is reached. */
  lemma {:induction false} FreshWalk(g: Geometry, f: int, q: seq<int>)
    requires Fits(g) && f in FRESH_FILES && IsPrefix(q)
    ensures Walk(map[ROOT_INO := RootPage(g)], f, q) == if q == [] then f else 0
    decreases |q|
  {
    if q != [] {
      EndInRange(q);
      FreshWalk(g, f, q[..|q| - 1]);
    }
  }

  lemma FreshAddr(g: Geometry, f: int, k: int)
    requires Fits(g) && f in FRESH_FILES && 0 <= k < MAX_BLOCKS
    ensures AddrAt(map[ROOT_INO := RootPage(g)], f, k)
         == if f == ROOT_INO && k == 0 then DotLba(g) else if f == ROOT_INO && k == 1 then DotDotLba(g) else 0
  {
    var p := Path(k);
    EndInRange(p);
    FreshWalk(g, f, p[..|p| - 1]);
  }

  lemma FirstMountCore(g: Geometry)
    requires Fits(g)
    ensures Core(FirstMount(g), FRESH_FILES)
  {
    var st := FirstMount(g);
    FreshBook(g);
    hide Walk, AddrAt, OnPage, Mounted, LogMap, RootPage;
    forall f, q | f in FRESH_FILES && IsPrefix(q) ensures Walk(st.nodes, f, q) == if q == [] then f else 0 {
      FreshWalk(g, f, q);
    }
  }

  lemma OnlyInodesBusy(g: Geometry, n: int)
    requires Fits(g) && 0 <= n
    ensures Busy(FirstMount(g), n) <==> n in FRESH_FILES
  {
    FreshBook(g);
    hide Mounted, LogMap;
  }

  lemma FirstMountFree(g: Geometry)
    requires Fits(g)
    ensures var st := FirstMount(g);
            && |FreeLow(st)| == LOW_NIDS - 4
            && |FreeRegular(st)| == (NAT_BLOCKS - REG_NAT_START) * NAT_ENTRY_PER_BLOCK
  {
    var st := FirstMount(g);
    forall n | 0 <= n ensures Busy(st, n) <==> n in FRESH_FILES {
      OnlyInodesBusy(g, n);
    }
    hide Mounted, LogMap, FirstMount, Busy;
    assert FreeLow(st) == Nids(4, LOW_NIDS - 4);
    assert FreeRegular(st) == Nids(REG_NID_START, (NAT_BLOCKS - REG_NAT_START) * NAT_ENTRY_PER_BLOCK);
  }

  lemma FirstMountBeliefs(g: Geometry, n: int)
    requires Fits(g) && 0 <= n
    ensures Believed(FirstMount(g), n) == if n == ROOT_INO then RootLba(g) else if n == META_INO then MetaLba(g) else 0
    ensures OnPage(FirstMount(g).pages, n) == RawNat(0, 0)
    ensures Stale(FirstMount(g), n) <==> n in FRESH_FILES
  {
    FreshBook(g);
    hide Mounted, LogMap;
  }

  lemma FreshNodeTracked(g: Geometry, n: int)
    requires Fits(g) && 0 <= n
    ensures NodeTracked(FirstMount(g), FreshDisk(g), n)
    ensures NodeSynced(FirstMount(g), FreshDisk(g), LogMap(FreshLog(g)), n)
  {
    FirstMountBeliefs(g, n);
    FreshBook(g);
    assert PageOf(FirstMount(g).nodes, n) == if n == ROOT_INO then RootPage(g) else Zeroes(NIDS_PER_BLOCK);
    hide Mounted, LogMap, FreshLog, Believed, RootPage;
  }

  lemma FreshBlockSynced(g: Geometry, f: int, k: int)
    requires Fits(g) && f in FRESH_FILES && 0 <= k < MAX_BLOCKS
    ensures f == ROOT_INO ==> BlockSynced(FirstMount(g), FreshDisk(g), FreshData(), f, k)
    ensures f == META_INO && k < META_BLOCKS ==> PageSynced(FirstMount(g), FreshDisk(g), k)
  {
    FreshAddr(g, f, k);
    assert FirstMount(g).nodes == map[ROOT_INO := RootPage(g)] && FirstMount(g).pages == map[];
    hide Mounted, AddrAt, FirstMount;
  }

  lemma FirstMountTracked(g: Geometry)
    requires Fits(g)
    ensures Tracked(FirstMount(g), Image(FreshDisk(g), FreshData(), {}, {}), FRESH_FILES)
  {
    var st, m := FirstMount(g), Image(FreshDisk(g), FreshData(), {}, {});
    hide FirstMount, NodeTracked, BlockSynced, PageSynced, FreshDisk;
    forall n | 0 <= n ensures NodeTracked(st, m.dev, n) {
      FreshNodeTracked(g, n);
    }
    forall b | 0 <= b < META_BLOCKS ensures PageTracked(st, m, b) {
      FreshBlockSynced(g, META_INO, b);
    }
    forall f, k | f in FRESH_FILES && f != META_INO && 0 <= k < MAX_BLOCKS ensures BlockTracked(st, m, f, k) {
      FreshBlockSynced(g, f, k);
    }
  }

  lemma FreshSynced(g: Geometry)
    requires Fits(g)
    ensures Synced(FirstMount(g), FreshDisk(g), LogMap(FreshLog(g)), FreshData(), FRESH_FILES)
  {
    var st, dev, log := FirstMount(g), FreshDisk(g), LogMap(FreshLog(g));
    FreshBook(g);
    FirstMountCore(g);
    hide Mounted, LogMap, Core, FirstMount, NodeSynced, BlockSynced, PageSynced, FreshDisk, FreshLog;
    forall n | 0 <= n ensures NodeSynced(st, dev, log, n) {
      FreshNodeTracked(g, n);
    }
    forall b | 0 <= b < META_BLOCKS ensures PageSynced(st, dev, b) {
      FreshBlockSynced(g, META_INO, b);
    }
    forall f, k | f in FRESH_FILES && f != META_INO && 0 <= k < MAX_BLOCKS
      ensures BlockSynced(st, dev, FreshData(), f, k)
    {
      FreshBlockSynced(g, f, k);
    }
  }

  /** The image as `mkfs` leaves it is a checkpoint of the first mount. */
  lemma FreshCheckpointed(g: Geometry, st: Store, dev: Disk, log: seq<LogEntry>, data: FileData)
    requires Fits(g) && st == FirstMount(g) && dev == FreshDisk(g) && log == FreshLog(g) && data == FreshData()
    ensures Checkpointed(st, dev, log, data, FRESH_FILES)
  {
    FreshBook(g);
    FreshSynced(g);
    hide Mounted, LogMap, Synced, FirstMount, FreshDisk, ZeroIsLast, ZeroIsFirst;
    forall e | e in log ensures IsNid(e.nid) {
      assert e == log[0] || e == log[1];
    }
    forall n ensures ZeroIsLast(log, n) && ZeroIsFirst(log, n) {
      assert ZeroIsLast(FreshLog(g), n);
    }
  }

  /** All of the checkpoint's and the allocator's hypotheses hold on the first mount of a fresh image. */
  lemma FirstMountHolds(g: Geometry)
    requires Fits(g)
    ensures var st := FirstMount(g);
      && Core(st, FRESH_FILES) && Supply(st)
      && |FreeRegular(st)| == (NAT_BLOCKS - REG_NAT_START) * NAT_ENTRY_PER_BLOCK
      && Tracked(st, Image(FreshDisk(g), FreshData(), {}, {}), FRESH_FILES)
      && forall n :: 0 <= n ==> (Stale(st, n) <==> n == META_INO || n == ROOT_INO)
  {
    FirstMountCore(g);
    FirstMountFree(g);
    FirstMountTracked(g);
    forall n | 0 <= n ensures Stale(FirstMount(g), n) <==> n in FRESH_FILES {
      FirstMountBeliefs(g, n);
    }
    hide Core, Supply, Tracked, FreeRegular, FreeLow, Stale, FirstMount;
    SupplyIfFree(FirstMount(g));
  }

  /** The checkpoint's state on the first mount. */
  method FirstCheckpointer(g: Geometry, nm: Nat, drive: Drive) returns (cp: Checkpointer)
    requires Fits(g) && Sane(nm.Cached()) && nm.St() == FirstMount(g) && nm.files == FRESH_FILES
    requires drive.Valid() && drive.dev == FreshDisk(g)
    ensures fresh(cp) && cp.Valid() && cp.nm == nm && cp.drive == drive && cp.metaNat == [] && !cp.restart
  {
    FirstMountHolds(g);
    hide Core, Supply, Tracked, FirstMount, FreshDisk, FreshData;
    cp := new Checkpointer(nm, drive, FreshData());
  }

  // ----- The zones of the fresh image -----

  /** Zone `z` with its first blocks written: the superblock, inode 1, the root, and the root's two blocks. */
  function FreshZone(g: Geometry, z: int): Zone {
    var (ty, blocks) :=
      if z == 0 then (0, 1) else if z == 3 then (META_NODE, 1) else if z == 5 then (REG_NODE, 1)
      else if z == 6 then (REG_DATA, 2) else (0, 0);
    var start := z * ZoneSize(g);
    Zone(if blocks == 0 then Empty else ExpOpen, start + blocks * SECTORS_PER_BLOCK, start, ty, 0, {}, false)
  }

  function Nulls(n: nat): (s: seq<Slot>)
    ensures |s| == n
  {
    seq(n, i => Null)
  }

  function FreshSlots(n: nat): (s: seq<Slot>)
    requires n >= 4
    ensures |s| == n
  {
    [Ref(0), Ref(3), Ref(5), Ref(6)] + Nulls(n - 4)
  }

  /** The zones as the drive reports them and `xcpfs_fill_super` types them. */
  function FreshTable(g: Geometry): Table
    requires Fits(g)
  {
    Table(seq(g.zones, z => FreshZone(g, z)), FreshSlots(g.opens), FreshSlots(g.actives), 4, 4,
          [0, 0, 0, 0, 0], [0, g.unset, 1, 2, g.opens - 6], ZoneSize(g), g.capacity, false, false)
  }

  lemma {:induction false} NullsCount(n: nat, z: nat)
    ensures multiset(Nulls(n))[Null] == n && multiset(Nulls(n))[Ref(z)] == 0
  {
    if n > 0 {
      NullsCount(n - 1, z);
      assert Nulls(n) == Nulls(n - 1) + [Null];
    }
  }

  lemma SlotsCount(n: nat, z: nat)
    requires n >= 4
    ensures multiset(FreshSlots(n))[Null] == n - 4
    ensures multiset(FreshSlots(n))[Ref(z)] == if z in {0, 3, 5, 6} then 1 else 0
  {
    NullsCount(n - 4, z);
    hide Nulls;
    assert multiset(FreshSlots(n)) == multiset([Ref(0), Ref(3), Ref(5), Ref(6)]) + multiset(Nulls(n - 4));
  }

  lemma SlotIds(g: Geometry, n: nat)
    requires n >= 4
    ensures forall x :: x in FreshSlots(n) ==> x == Null || x.id in {0, 3, 5, 6}
  {
    var nulls := Nulls(n - 4);
    assert forall i :: 0 <= i < n - 4 ==> nulls[i] == Null;
  }

  lemma FreshZones(g: Geometry)
    requires Fits(g)
    ensures |FreshTable(g).zones| == g.zones
    ensures forall z :: 0 <= z < g.zones ==> FreshTable(g).zones[z] == FreshZone(g, z)
  {
  }

  lemma FreshInv(g: Geometry)
    requires Fits(g)
    ensures Inv(FreshTable(g))
  {
    var t := FreshTable(g);
    FreshZones(g);
    FreshFields(g);
    SlotIds(g, g.opens);
    SlotIds(g, g.actives);
    SlotsCount(g.opens, 0);
    SlotsCount(g.actives, 0);
    hide FreshSlots, FreshTable;
    assert Counted(t);
    forall z | 0 <= z < g.zones ensures InSlots(t, z) {
      SlotsCount(g.opens, z);
      SlotsCount(g.actives, z);
    }
  }

  lemma FreshTableOk(g: Geometry)
    requires Fits(g)
    ensures TableOk(FreshTable(g))
  {
    FreshInv(g);
    FreshZones(g);
    FreshFields(g);
    hide FreshTable, Inv, FreshSlots;
  }

  lemma FreshFields(g: Geometry)
    requires Fits(g)
    ensures var t := FreshTable(g);
            && |t.zones| == g.zones && t.openedCount == 4 && t.activeCount == 4
            && t.openSlots == FreshSlots(g.opens) && t.activeSlots == FreshSlots(g.actives)
            && t.zoneSize == ZoneSize(g) && t.capacity == g.capacity && |t.nrType| == 5 && |t.limitType| == 5
  {
  }

  function FreshAddress(g: Geometry, p: Page): int {
    if p == Node(META_INO) then MetaLba(g) else if p == Node(ROOT_INO) then RootLba(g)
    else if p == Data(ROOT_INO, 0) then DotLba(g) else if p == Data(ROOT_INO, 1) then DotDotLba(g) else 0
  }

  /** The zone and the bit of block `i` of zone `z`. */
  lemma Place(g: Geometry, z: nat, i: nat)
    requires Fits(g) && i < 2
    ensures ZoneOf(ZoneSize(g), z * g.blocks + i) == z && BitOf(ZoneSize(g), z * g.blocks + i) == i
  {
    var a := z * g.blocks + i;
    assert ZoneSize(g) / SECTORS_PER_BLOCK == g.blocks;
    InZone(g.blocks, z, a);
    assert a == g.blocks * (a / g.blocks) + a % g.blocks;
  }

  lemma FreshPlaces(g: Geometry)
    requires Fits(g)
    ensures ZoneOf(ZoneSize(g), MetaLba(g)) == 3 && ZoneOf(ZoneSize(g), RootLba(g)) == 5
    ensures ZoneOf(ZoneSize(g), DotLba(g)) == 6 && ZoneOf(ZoneSize(g), DotDotLba(g)) == 6
    ensures BitOf(ZoneSize(g), RootLba(g)) == 0
  {
    Place(g, 3, 0);
    Place(g, 5, 0);
    Place(g, 6, 0);
    Place(g, 6, 1);
  }

  /** A fresh image meets what the pipeline asks of a mount. */
  lemma FreshMountOk(g: Geometry, addr: map<Page, int>)
    requires Fits(g) && forall p :: p in addr ==> addr[p] == FreshAddress(g, p)
    ensures MountOk(FreshTable(g), addr, FreshDisk(g))
  {
    var t := FreshTable(g);
    FreshTableOk(g);
    FreshZones(g);
    FreshFields(g);
    forall p | p in addr && addr[p] != 0
      ensures InCapacity(t, addr[p]) && addr[p] in FreshDisk(g) && Settled(t, ZoneOf(t.zoneSize, addr[p]))
    {
      FreshHeld(g, p);
    }
    hide TableOk, FreshTable, ZoneOf, Settled, InCapacity, FreshDisk;
    forall p, q | p in addr && q in addr && addr[p] == addr[q] != 0 ensures p == q {
    }
    forall a ensures !Marked(t, a) {
      if 0 <= ZoneOf(t.zoneSize, a) < g.zones {
        assert t.zones[ZoneOf(t.zoneSize, a)] == FreshZone(g, ZoneOf(t.zoneSize, a));
      }
    }
  }

  lemma FreshHeld(g: Geometry, p: Page)
    requires Fits(g) && FreshAddress(g, p) != 0
    ensures var t, a := FreshTable(g), FreshAddress(g, p);
            InCapacity(t, a) && a in FreshDisk(g) && Settled(t, ZoneOf(t.zoneSize, a))
  {
    FreshZones(g);
    FreshFields(g);
    FreshPlaces(g);
    hide ZoneOf, FreshTable;
  }

  ghost function FreshJoint(g: Geometry): Joint.Joint
    requires Fits(g)
  {
    Joint.Mounted(FreshTable(g), FirstMount(g), FRESH_FILES, 4, FreshDisk(g))
  }

  /** On the first mount of a fresh image the whole machine starts right, with exact accounting. */
  lemma FreshJointOk(g: Geometry)
    requires Fits(g)
    ensures Joint.Ok(FreshJoint(g)) && Exact(FreshJoint(g).io)
  {
    var addr := Joint.MountAddrs(FirstMount(g), FRESH_FILES, 4);
    forall p | p in addr ensures addr[p] == FreshAddress(g, p)
    {
      FreshPage(g, p);
    }
    FreshMountOk(g, addr);
    FirstMountCore(g);
    forall n | 4 <= n ensures Believed(FirstMount(g), n) == 0 {
      FirstMountBeliefs(g, n);
    }
    hide FirstMount, FreshTable, Core, MountOk, Believed, Joint.MountAddrs;
    Joint.MountedOk(FreshTable(g), FirstMount(g), FRESH_FILES, 4, FreshDisk(g));
  }

  lemma FreshPage(g: Geometry, p: Page)
    requires Fits(g) && p in Joint.MountAddrs(FirstMount(g), FRESH_FILES, 4)
    ensures Joint.MountAddrs(FirstMount(g), FRESH_FILES, 4)[p] == FreshAddress(g, p)
  {
    hide Believed, AddrAt, Mounted;
    match p
    case Node(n) => FirstMountBeliefs(g, n);
    case Data(f, k) => FreshAddr(g, f, k);
  }

  /**
   * The root inode is astray on every fresh image: its page is a meta node, its zone one for regular nodes.
   * Its first rewrite stays there, and lowers that zone's count below its bits.
   */
  lemma RootGoesAstray(g: Geometry, answers: nat -> bool)
    requires Fits(g)
    ensures CanSubmit(FreshJoint(g).io, Node(ROOT_INO), answers)
    ensures var s := Submit(FreshJoint(g).io, Node(ROOT_INO), answers);
            && s.flights[Node(ROOT_INO)] == Queued(5)
            && s.t.zones[5].ztype == REG_NODE && PageType(Node(ROOT_INO)) == META_NODE
            && s.t.zones[5].vblocks == -1 && s.t.zones[5].valid == {}
  {
    var j := FreshJoint(g);
    FirstMountBeliefs(g, ROOT_INO);
    hide Mounted, Core;
    assert AddrOf(j.io, Node(ROOT_INO)) == RootLba(g) by {
      assert Node(ROOT_INO) in j.io.addr;
    }
    FreshPlaces(g);
    FreshFields(g);
    FreshZones(g);
    hide ZoneOf, BitOf, FirstMount, FreshTable, FreshSlots;
    assert j.io.t == FreshTable(g) && j.io.t.zones[5] == FreshZone(g, 5);
  }
}
