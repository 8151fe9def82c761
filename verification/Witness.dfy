/**
 * Runs of the machine from a fresh image to states at which the exact conditions fail: a node that was read but
 * never written, and an update that a later, idle mount takes back.
 */
module Witness {
  import opened Layout
  import opened BlockPath
  import opened NodeTree
  import opened NatCache
  import opened NatStore
  import opened NatFs
  import opened Recovery
  import opened Writeback
  import opened Checkpoint
  import opened Mount
  import opened FreshStart
  import opened Serial
  import opened Views
  import opened Serving
  import opened WritePipeline
  import Joint
  import opened Lifetime
  import opened Remounting
  import ZoneTable

  /** The table's first two own nodes, as the free list of a fresh image hands them out, and the first regular nid. */
  const MID := 454
  const LOW := 453
  const FILE := REG_NID_START

  /** The way to block 6000 of the table file. */
  lemma WayTo6000()
    ensures Path(6000) == [902, 3, 10] && Up(6000, 0) == [] && Up(6000, 1) == [902] && Up(6000, 2) == [902, 3]
    ensures Depth(6000) == 2 && Depth(0) == 0 && Up(0, 0) == []
  {
  }

  lemma FreshUnread(g: Geometry, k: int)
    requires Fits(g) && ADDRS_PER_INODE <= k < META_BLOCKS
    ensures Dnode(FirstMount(g).nodes, META_INO, k) == 0
  {
    FreshWalk(g, META_INO, Up(k, Depth(k)));
    assert FirstMount(g).nodes == map[ROOT_INO := RootPage(g)];
    hide Mounted, Walk;
    assert |Up(k, Depth(k))| == Depth(k) > 0;
  }

  /**
   * On the first mount, looking up any regular nid hangs a node in the table file that is reached, has no address
   * and is not dirty: a checkpoint that writes no block below it leaves it unwritten.
   */
  method LookUpHigh(g: Geometry, nm: Nat, nid: int) returns (ghost w: int)
    requires Fits(g) && Sane(nm.Cached()) && nm.St() == FirstMount(g) && nm.files == FRESH_FILES
    requires REG_NID_START <= nid < NAT_BLOCKS * NAT_ENTRY_PER_BLOCK
    modifies nm
    ensures nm.Valid() && nm.files == FRESH_FILES
    ensures w == Dnode(nm.nodes, META_INO, nid / NAT_ENTRY_PER_BLOCK) > 0
    ensures Believed(nm.St(), w) == 0 && w !in nm.nodeDirty
    ensures !ReachedHeld(nm.St(), META_INO, Up(nid / NAT_ENTRY_PER_BLOCK, Depth(nid / NAT_ENTRY_PER_BLOCK)))
  {
    ghost var st, k := nm.St(), nid / NAT_ENTRY_PER_BLOCK;
    FirstMountHolds(g);
    FreshUnread(g, k);
    NothingCached(g, nid);
    hide Core, Supply, Sane, FirstMount, Grows, Tracked, BookOf;
    var _ := nm.LookupNat(nid);
    w := Dnode(nm.nodes, META_INO, k);
    GrowsExtends(st, nm.St(), FRESH_FILES);
    ReadLeavesClean(st, nm.St(), FRESH_FILES, k);
    FirstMountBeliefs(g, w);
    FirstMountClean(g);
  }

  lemma GrowsExtends(a: Store, b: Store, files: set<int>)
    requires Grows(a, b, files)
    ensures Extends(a, b, files)
  {
  }

  lemma FirstMountClean(g: Geometry)
    ensures FirstMount(g).dirty == {} && FirstMount(g).ready == {} && FirstMount(g).pages == map[]
  {
  }

  lemma NothingCached(g: Geometry, n: int)
    requires Fits(g) && n !in FRESH_FILES
    ensures EntryOf(FirstMount(g).book, n).None?
  {
    FreshBook(g);
    hide Mounted;
  }

  // ----- The lookup of a nid of block 6000, step by step -----

  ghost function Unflushed(k: Book): set<int> {
    set n | n in k.used && k.used[n].dirty
  }

  /** Reading a table block whose node page exists, and caching its entries. */
  function ReadBlock(st: Store, b: int): Store
    requires 0 <= b
  {
    st.(ready := st.ready + {b}, book := CacheBlock(st.book, st.pages, b, NAT_ENTRY_PER_BLOCK))
  }

  lemma ReadBlockStore(st: Store, files: set<int>, b: int)
    requires Core(st, files) && IsNatBlock(b) && Dnode(st.nodes, META_INO, b) != 0
    ensures Core(ReadBlock(st, b), files) && Reads(st, ReadBlock(st, b), files)
    ensures Supply(st) ==> Supply(ReadBlock(st, b))
    ensures Unflushed(ReadBlock(st, b).book) == Unflushed(st.book)
    ensures forall n :: EntryOf(st.book, n).Some? ==> EntryOf(ReadBlock(st, b).book, n).Some?
    ensures forall n :: 3 <= n && n / NAT_ENTRY_PER_BLOCK == b ==> EntryOf(ReadBlock(st, b).book, n).Some?
  {
    var at := st.(ready := st.ready + {b});
    MarkReady(st, files, b);
    CacheBlockStore(at, files, b, NAT_ENTRY_PER_BLOCK);
    ReadsTrans(st, at, ReadBlock(st, b), files);
    ReadsGrows(st, ReadBlock(st, b), files);
    CacheBlockDirty(st.book, st.pages, b, NAT_ENTRY_PER_BLOCK);
    var done := CacheBlock(st.book, st.pages, b, NAT_ENTRY_PER_BLOCK);
    hide CacheBlock;
    forall n ensures n in Unflushed(done) <==> n in Unflushed(st.book) {
    }
  }

  /** A free low nid is hung at the end of `q`, as `get_dnode_page` does it. */
  function Adopted(st: Store, q: seq<int>, m: int): Store
    requires IsPrefix(q) && q != [] && m in st.book.free
  {
    Linked(st, META_INO, q, m).(
      book := Book(st.book.used[m := NatEntry(m, META_INO, 0, false, true)], st.book.free - {m}))
  }

  /** Memory after the lookup: blocks 0 and 6000 are cached, and two nodes hang on the way to block 6000. */
  ghost function Grown(g: Geometry): Store
    requires Fits(g)
  {
    var s1 := ReadBlock(FirstMount(g), 0);
    FirstFree(g);
    var s2 := Adopted(s1, [902], MID);
    var s3 := Adopted(s2, [902, 3], LOW);
    ReadBlock(s3, 6000)
  }

  /** Block 0 is cached: the nids from 4 on are free, the last in front. */
  lemma FirstFree(g: Geometry)
    requires Fits(g)
    ensures var s1 := ReadBlock(FirstMount(g), 0);
            && Core(s1, FRESH_FILES) && Supply(s1) && Reads(FirstMount(g), s1, FRESH_FILES)
            && MID in s1.book.free && LOW in s1.book.free && META_INO in s1.book.used
            && Unflushed(s1.book) == {} && s1.book.used.Keys == FRESH_FILES && s1.pages == map[]
  {
    var st := FirstMount(g);
    FirstMountHolds(g);
    FirstMountUsed(g);
    hide Core, Supply, Reads, FirstMount, CacheBlock, Tracked;
    assert Walk(st.nodes, META_INO, []) == META_INO;
    WayTo6000();
    ReadBlockStore(st, FRESH_FILES, 0);
    CachedFree(g, ReadBlock(st, 0), MID);
    CachedFree(g, ReadBlock(st, 0), LOW);
    CachedUsed(st, ReadBlock(st, 0), META_INO);
    SameUsed(st, ReadBlock(st, 0));
  }

  /** While no table page shows an address, a read adds nothing to nat_list. */
  lemma SameUsed(a: Store, b: Store)
    requires Reads(a, b, FRESH_FILES) && Core(a, FRESH_FILES) && Core(b, FRESH_FILES) && a.pages == map[]
    ensures b.book.used.Keys == a.book.used.Keys && b.pages == map[]
  {
    forall n ensures n in a.book.used <==> n in b.book.used {
      if n in a.book.used || n in b.book.used {
        assert IsNid(n);
        assert KeepsNid(a, b, n);
      }
    }
  }

  lemma FirstMountUsed(g: Geometry)
    requires Fits(g)
    ensures META_INO in FirstMount(g).book.used && Unflushed(FirstMount(g).book) == {}
    ensures FirstMount(g).book.used.Keys == FRESH_FILES && FirstMount(g).pages == map[]
  {
    FreshBook(g);
    hide Mounted;
  }

  lemma CachedUsed(a: Store, b: Store, n: int)
    requires Extends(a, b, FRESH_FILES) && n in a.book.used && 0 <= n
    ensures n in b.book.used
  {
    assert KeepsNid(a, b, n);
  }

  lemma CachedFree(g: Geometry, b: Store, n: int)
    requires Fits(g) && Reads(FirstMount(g), b, FRESH_FILES) && Core(b, FRESH_FILES)
    requires 4 <= n && EntryOf(b.book, n).Some?
    ensures n in b.book.free
  {
    OnlyInodesBusy(g, n);
    assert KeepsNid(FirstMount(g), b, n);
    hide Core, FirstMount;
  }

  lemma AdoptedStore(st: Store, q: seq<int>, m: int, k: nat)
    requires Core(st, FRESH_FILES) && Supply(st) && m in st.book.free && 3 <= m < LOW_NIDS
    requires 0 < k <= 2 && q == Up(6000, k) && Walk(st.nodes, META_INO, Up(6000, k - 1)) in st.book.used
    requires Walk(st.nodes, META_INO, Up(6000, k - 1)) != 0 && Walk(st.nodes, META_INO, q) == 0
    ensures Depth(6000) == 2 && q != []
    ensures var b := Adopted(st, q, m);
            && Core(b, FRESH_FILES) && Supply(b) && Extends(st, b, FRESH_FILES)
            && Walk(b.nodes, META_INO, q) == m && m in b.book.used
            && b.dirty == st.dirty + {Walk(st.nodes, META_INO, Up(6000, k - 1))}
            && Unflushed(b.book) == Unflushed(st.book) + {m} && b.ready == st.ready
            && (forall n :: n in st.book.used ==> n in b.book.used)
            && (forall n :: n in st.book.free && n != m ==> n in b.book.free)
            && b.book.used.Keys == st.book.used.Keys + {m}
  {
    WayTo6000();
    var b := Adopted(st, q, m);
    assert q[..|q| - 1] == Up(6000, k - 1);
    assert m !in Unflushed(st.book) by {
      assert m !in st.book.used;
    }
    hide Core, Supply, Extends, Walk;
    AdoptStore(st, b, FRESH_FILES, META_INO, 6000, k, m);
    assert Unflushed(b.book) == Unflushed(st.book) + {m};
  }

  lemma FreshWays(g: Geometry)
    requires Fits(g)
    ensures Walk(FirstMount(g).nodes, META_INO, []) == META_INO
    ensures Walk(FirstMount(g).nodes, META_INO, [902]) == 0 && Walk(FirstMount(g).nodes, META_INO, [902, 3]) == 0
  {
    FreshWalk(g, META_INO, []);
    FreshWalk(g, META_INO, [902]);
    FreshWalk(g, META_INO, [902, 3]);
  }

  /** The new node is empty, so nothing hangs below it yet. */
  lemma NothingBelow(st: Store, m: int)
    requires Core(st, FRESH_FILES) && m in st.book.free && IsPrefix([902]) && IsPrefix([902, 3])
    requires Walk(st.nodes, META_INO, []) == META_INO && Walk(Adopted(st, [902], m).nodes, META_INO, [902]) == m
    ensures Walk(Adopted(st, [902], m).nodes, META_INO, [902, 3]) == 0
  {
    assert [902, 3][..1] == [902] && [902][..0] == [];
  }

  /** What the lookup left behind. */
  ghost predicate LookedUp(st: Store) {
    && Core(st, FRESH_FILES) && Supply(st)
    && Walk(st.nodes, META_INO, [902]) == MID && Walk(st.nodes, META_INO, [902, 3]) == LOW
    && st.dirty == {META_INO, MID} && Unflushed(st.book) == {MID, LOW} && {0, 6000} <= st.ready
    && st.book.used.Keys == {META_INO, ROOT_INO, MID, LOW} && FILE in st.book.free
  }

  /** The first node is hung. */
  lemma MidHung(g: Geometry) returns (s2: Store)
    requires Fits(g)
    ensures Core(s2, FRESH_FILES) && Supply(s2) && Extends(FirstMount(g), s2, FRESH_FILES)
    ensures MID in ReadBlock(FirstMount(g), 0).book.free && s2 == Adopted(ReadBlock(FirstMount(g), 0), [902], MID)
    ensures LOW in s2.book.free && s2.book.used.Keys == {META_INO, ROOT_INO, MID}
    ensures Walk(s2.nodes, META_INO, [902]) == MID && Walk(s2.nodes, META_INO, [902, 3]) == 0
    ensures s2.dirty == {META_INO} && Unflushed(s2.book) == {MID} && 0 in s2.ready && s2.pages == map[]
  {
    WayTo6000();
    FreshWays(g);
    FirstFree(g);
    var st, s1 := FirstMount(g), ReadBlock(FirstMount(g), 0);
    FirstMountClean(g);
    hide Core, Supply, Extends, Reads, FirstMount, CacheBlock, Walk, Adopted, Unflushed;
    ReadsExtends(st, s1);
    AdoptedStore(s1, [902], MID, 1);
    s2 := Adopted(s1, [902], MID);
    NothingBelow(s1, MID);
    ExtendsTrans(st, s1, s2, FRESH_FILES);
    SamePagesOf(s1, s2);
  }

  lemma SamePagesOf(a: Store, b: Store)
    requires Extends(a, b, FRESH_FILES)
    ensures b.pages == a.pages
  {
  }

  lemma GrownFacts(g: Geometry)
    requires Fits(g)
    ensures LookedUp(Grown(g)) && Extends(FirstMount(g), Grown(g), FRESH_FILES)
  {
    WayTo6000();
    var st := FirstMount(g);
    var s2 := MidHung(g);
    assert Grown(g) == ReadBlock(Adopted(s2, [902, 3], LOW), 6000);
    hide Grown, Core, Supply, Extends, Reads, FirstMount, CacheBlock, Walk, Adopted, Unflushed;
    AdoptedStore(s2, [902, 3], LOW, 2);
    var s3 := Adopted(s2, [902, 3], LOW);
    StillWalks(s2, s3, [902]);
    SamePagesOf(s2, s3);
    ExtendsTrans(st, s2, s3, FRESH_FILES);
    LastRead(st, s3);
  }

  lemma LastRead(st: Store, s3: Store)
    requires Core(s3, FRESH_FILES) && Supply(s3) && Extends(st, s3, FRESH_FILES) && s3.pages == map[]
    requires Walk(s3.nodes, META_INO, [902]) == MID && Walk(s3.nodes, META_INO, [902, 3]) == LOW
    requires s3.dirty == {META_INO, MID} && Unflushed(s3.book) == {MID, LOW} && 0 in s3.ready
    requires s3.book.used.Keys == {META_INO, ROOT_INO, MID, LOW}
    ensures LookedUp(ReadBlock(s3, 6000)) && Extends(st, ReadBlock(s3, 6000), FRESH_FILES)
  {
    var s4 := ReadBlock(s3, 6000);
    WayTo6000();
    hide Core, Supply, Extends, Reads, CacheBlock, Walk, Unflushed;
    ReadBlockStore(s3, FRESH_FILES, 6000);
    ReadsExtends(s3, s4);
    ExtendsTrans(st, s3, s4, FRESH_FILES);
    SameUsed(s3, s4);
    assert FILE / NAT_ENTRY_PER_BLOCK == 6000;
    assert EntryOf(s4.book, FILE).Some?;
  }

  lemma ReadsExtends(a: Store, b: Store)
    requires Reads(a, b, FRESH_FILES)
    ensures Extends(a, b, FRESH_FILES) && b.nodes == a.nodes && b.dirty == a.dirty && a.ready <= b.ready
  {
  }

  lemma StillWalks(a: Store, b: Store, q: seq<int>)
    requires Extends(a, b, FRESH_FILES) && IsPrefix(q) && Walk(a.nodes, META_INO, q) != 0
    ensures Walk(b.nodes, META_INO, q) == Walk(a.nodes, META_INO, q)
  {
    assert KeepsWalk(a, b, META_INO, q);
  }

  // ----- The machine at the start, and after the lookup -----

  /** A drive with room for `n` writes on a fresh image, each in a zone of its own if need be. */
  predicate Ample(g: Geometry, n: nat) {
    && Fits(g) && g.opens >= 4 + n && g.actives >= 4 + n && g.zones >= 7 + n
    && (4 + n + 1) * ZoneTable.SECTORS_PER_BLOCK < g.capacity
  }

  lemma FreshRoomy(g: Geometry, n: nat)
    requires Ample(g, n)
    ensures Roomy(FreshJoint(g).io, n)
  {
    var t := FreshTable(g);
    FreshZones(g);
    FreshFields(g);
    var high := Nids(7, n);
    hide FreshTable, FreshSlots, Nids;
    assert NoneFull(t);
    assert forall z :: z in high ==> z in Spare(t);
    SubsetSize(high, Spare(t));
    FreshDiskSize(g);
  }

  lemma FreshDiskSize(g: Geometry)
    requires Fits(g)
    ensures |FreshDisk(g)| <= 4
  {
    SubsetSize(FreshDisk(g).Keys, {MetaLba(g), RootLba(g), DotLba(g), DotDotLba(g)});
  }

  function FreshView(g: Geometry): View {
    View(map[META_INO := MetaLba(g), ROOT_INO := RootLba(g)], map[], {META_INO, ROOT_INO}, {}, {}, {}, map[], {})
  }

  function FreshImage(g: Geometry): Image {
    Image(FreshDisk(g), FreshData(), {}, {})
  }

  ghost function FreshWork(g: Geometry, n: nat): Work
    requires Fits(g)
  {
    Work(FreshJoint(g), FreshImage(g), FreshView(g), n)
  }

  lemma FreshGood(g: Geometry, n: nat)
    requires Ample(g, n)
    ensures Good(FreshWork(g, n))
  {
    FreshRoomy(g, n);
    FreshJointOk(g);
    FirstMountTracked(g);
    FreshMatches(g);
    hide Joint.Ok, Tracked, Roomy, Matches, FirstMount, FreshTable;
    Assemble(FreshWork(g, n));
  }

  lemma FreshMatches(g: Geometry)
    requires Fits(g)
    ensures Matches(FirstMount(g), FRESH_FILES, FreshView(g))
  {
    var st := FirstMount(g);
    FirstMountUsed(g);
    FirstMountClean(g);
    forall n | 0 <= n
      ensures Believed(st, n) == Get(FreshView(g).bel, n) && OnPage(st.pages, n).addr == Get(FreshView(g).shown, n)
    {
      FirstMountBeliefs(g, n);
    }
    hide FirstMount, Believed, OnPage;
    assert forall n :: n !in Unflushed(st.book);
  }

  /** After the lookup two entries and two node pages are dirty. */
  function LookupView(g: Geometry): View {
    FreshView(g).(used := {META_INO, ROOT_INO, MID, LOW}, todo := {MID, LOW}, dirty := {META_INO, MID},
                  homes := map[(META_INO, 0) := META_INO, (META_INO, 6000) := LOW], ready := {0, 6000})
  }

  lemma LookupMatches(g: Geometry, st: Store)
    requires Fits(g) && LookedUp(st) && Extends(FirstMount(g), st, FRESH_FILES)
    ensures Matches(st, FRESH_FILES, LookupView(g))
  {
    var v := LookupView(g);
    WayTo6000();
    FirstMountClean(g);
    assert Walk(st.nodes, META_INO, []) == META_INO;
    assert Home(st, FRESH_FILES, META_INO, 0, META_INO) && Home(st, FRESH_FILES, META_INO, 6000, LOW);
    forall n | 0 <= n ensures Believed(st, n) == Get(v.bel, n) && OnPage(st.pages, n).addr == Get(v.shown, n) {
      FirstMountBeliefs(g, n);
      assert KeepsNid(FirstMount(g), st, n);
    }
    hide FirstMount, Core, Extends, Believed, OnPage, Home, Supply, Walk;
    assert forall n :: n in v.todo <==> n in Unflushed(st.book);
  }

  lemma LookupWork(g: Geometry, n: nat) returns (w: Work)
    requires Ample(g, n)
    ensures Good(w) && w.v == LookupView(g) && w.room == n && w.m == FreshImage(g)
    ensures w.j == FreshJoint(g).(st := Grown(g)) && LookedUp(w.j.st) && w.j.files == FRESH_FILES
    ensures Ran(FreshJoint(g), w.j, false)
  {
    FreshGood(g, n);
    GrownFacts(g);
    LookupMatches(g, Grown(g));
    hide Good, Extends, Core, Matches, Grown, FreshTable, FirstMount, FreshDisk, Ran;
    w := WalkTo(FreshWork(g, n), Grown(g), LookupView(g));
  }

  // ----- A checkpoint that leaves the node unwritten -----

  /** The first pass: both entries are flushed, their page and the two nodes are written.  A zone may be opened. */
  lemma FirstPass(w0: Work) returns (w: Work, c: int, a: int)
    requires Good(w0) && w0.room >= 3 && w0.m.nats == {} && w0.m.blocks == {}
    requires w0.v.todo == {MID, LOW} && w0.v.dirty == {META_INO, MID} && w0.v.ready == {0, 6000}
    requires w0.v.homes == map[(META_INO, 0) := META_INO, (META_INO, 6000) := LOW]
    ensures Good(w) && Next(w0, w) && Ran(w0.j, w.j, true) && w.room == w0.room - 3 && a != 0 && c != 0
    ensures w.m.nats == {} && w.m.blocks == {}
    ensures w.v == w0.v.(shown := w0.v.shown[LOW := Get(w0.v.bel, LOW)][MID := Get(w0.v.bel, MID)],
                         bel := w0.v.bel[META_INO := a][MID := c],
                         todo := {META_INO, MID}, dirty := {}, mapped := w0.v.mapped + {(META_INO, 0)})
  {
    hide Good, Ran, Next;
    var w1 := FlushE(w0, LOW);
    var w2 := FlushE(w1, MID);
    var w3 := WriteB(w2, META_INO, 0);
    var w4;
    a, w4 := WriteN(w3, META_INO);
    c, w := WriteN(w4, MID);
    Opened(w0, w1, false);
    Opened(w1, w2, false);
    Opened(w2, w3, (META_INO, 0) !in w2.v.mapped);
    Opened(w3, w4, Get(w3.v.bel, META_INO) == 0);
    Opened(w4, w, Get(w4.v.bel, MID) == 0);
    NextTrans(w0, w1, w2, true);
    NextTrans(w0, w2, w3, true);
    NextTrans(w0, w3, w4, true);
    NextTrans(w0, w4, w, true);
  }

  lemma Opened(a: Work, b: Work, opens: bool)
    requires Ran(a.j, b.j, opens)
    ensures Ran(a.j, b.j, true)
  {
    RanOpens(a.j, b.j, opens);
  }

  /** The second pass flushes what the first one moved, and opens no zone: it is the last. */
  lemma SecondPass(w0: Work) returns (w: Work, a: int)
    requires Good(w0) && w0.room >= 2 && w0.v.todo == {META_INO, MID} && w0.v.dirty == {} && 0 in w0.v.ready
    requires (META_INO, 0) in w0.v.homes && w0.v.homes[(META_INO, 0)] == META_INO && (META_INO, 0) in w0.v.mapped
    requires Get(w0.v.bel, META_INO) != 0 && w0.m.nats == {} && w0.m.blocks == {}
    ensures Good(w) && Next(w0, w) && Ran(w0.j, w.j, false) && a != 0
    ensures w.m.nats == {} && w.m.blocks == {} && w.v.dirty == {} && w.v.homes == w0.v.homes
    ensures w.v.shown == w0.v.shown[META_INO := Get(w0.v.bel, META_INO)][MID := Get(w0.v.bel, MID)]
    ensures w.v.bel == w0.v.bel[META_INO := a]
  {
    hide Good, Ran, Next;
    var w1 := FlushE(w0, META_INO);
    var w2 := FlushE(w1, MID);
    var w3 := WriteB(w2, META_INO, 0);
    a, w := WriteN(w3, META_INO);
    NextTrans(w0, w1, w2, false);
    NextTrans(w0, w2, w3, false);
    NextTrans(w0, w3, w, false);
  }

  /** The log of a pass that moved inode 1 and no other node. */
  function MetaLog(a: int, root: int): seq<LogEntry> {
    [LogEntry(META_INO, META_INO, a), LogEntry(META_INO, META_INO, a), LogEntry(ROOT_INO, ROOT_INO, root)]
  }

  lemma MetaLogIs(a: int, root: int)
    requires a != 0
    ensures PassLog(MetaLog(a, root)) && LogMap(MetaLog(a, root)) == map[META_INO := a, ROOT_INO := root]
    ensures forall n {:trigger Moved(MetaLog(a, root), n)} :: !Moved(MetaLog(a, root), n)
    ensures FromDiskUsed(MetaLog(a, root), {META_INO} + if root != 0 then {ROOT_INO} else {})
  {
    var log := MetaLog(a, root);
    var e, e3 := log[0], log[2];
    var l1, l2 := [e], [e] + [e];
    assert l1 == [] + [e] && log == l2 + [e3] && log[..|log| - 2] == [e] && log[|log| - 2..] == [e, e3];
    assert LogMap([]) == map[];
    FirstAppend([], e, 0);
    FirstAppend(l1, e, 0);
    FirstAppend(l2, e3, 0);
    var keys := {META_INO} + if root != 0 then {ROOT_INO} else {};
    hide Mounted, LogMap, Moved, MetaLog;
    forall n ensures !Moved(log, n) {
      MetaLogAt(a, root, n);
    }
    forall n ensures n in Mounted(log).used.Keys <==> n in keys {
      MetaLogAt(a, root, n);
    }
  }

  lemma MetaLogAt(a: int, root: int, n: int)
    requires a != 0
    ensures !Moved(MetaLog(a, root), n)
    ensures n in Mounted(MetaLog(a, root)).used <==> n == META_INO || (n == ROOT_INO && root != 0)
  {
    var log := MetaLog(a, root);
    var e, e3 := log[0], log[2];
    var l1, l2 := [e], [e] + [e];
    assert l1 == [] + [e] && log == l2 + [e3];
    FirstAppend([], e, n);
    FirstAppend(l1, e, n);
    FirstAppend(l2, e3, n);
    MovedAppend([], e, n);
    MovedAppend(l1, e, n);
    MovedAppend(l2, e3, n);
    MountedIs(log, n);
    hide Moved, Mounted;
  }

  /** The nids on nat_list after the replay. */
  ghost predicate FromDiskUsed(log: seq<LogEntry>, used: set<int>) {
    Mounted(log).used.Keys == used
  }

  /** The lower node is reached and has no address. */
  ghost predicate Unwritten(st: Store) {
    Walk(st.nodes, META_INO, [902, 3]) == LOW && Believed(st, LOW) == 0
  }

  /** The lookup and the checkpoint after it, as one run of the machine on a fresh image. */
  lemma UnwrittenRun(g: Geometry) returns (w: Work, a: int)
    requires Ample(g, 5)
    ensures Good(w) && Ran(FreshJoint(g), w.j, true) && w.j.files == FRESH_FILES && w.m.data == FreshData()
    ensures Checkpointed(w.j.st, w.j.io.dev, MetaLog(a, RootLba(g)), w.m.data, FRESH_FILES)
    ensures Unwritten(w.j.st)
  {
    hide Good, Ran, Extends, Core, FreshJoint, Grown, LookedUp, FreshDisk, FreshData;
    var w0 := LookupWork(g, 5);
    var c, b, w1;
    w1, c, b := FirstPass(w0);
    w, a := SecondPass(w1);
    Opened(w1, w, false);
    NextTrans(w0, w1, w, true);
    Opened(FreshWork(g, 5), w0, false);
    RanTrans(FreshJoint(g), w0.j, w.j, true);
    MetaLogIs(a, RootLba(g));
    SameFiles(w0, w);
    LookupEnds(g, w, a, b, c);
  }

  lemma SameFiles(w: Work, w': Work)
    requires Next(w, w')
    ensures w'.j.files == w.j.files && w'.m.data == w.m.data
  {
  }

  lemma LookupEnds(g: Geometry, w: Work, a: int, b: int, c: int)
    requires Fits(g) && Good(w) && a != 0 && w.v.dirty == {} && w.m.nats == {} && w.m.blocks == {}
    requires w.v.bel == LookupView(g).bel[META_INO := b][MID := c][META_INO := a]
    requires w.v.shown == LookupView(g).shown[LOW := 0][MID := 0][META_INO := b][MID := c]
    requires (META_INO, 6000) in w.v.homes && w.v.homes[(META_INO, 6000)] == LOW
    ensures Checkpointed(w.j.st, w.j.io.dev, MetaLog(a, RootLba(g)), w.m.data, w.j.files)
    ensures Unwritten(w.j.st)
  {
    hide *;
    var log := MetaLog(a, RootLba(g));
    GoodParts(w);
    MetaLogIs(a, RootLba(g));
    LookupCovers(g, w.v, a, b, c);
    LowUnwritten(w);
    PassEnds(w, log);
    CheckpointMounts(w.j.st, w.j.io.dev, log, w.m.data, w.j.files);
  }

  /** The log gives inode 1 and the root, the table the two nodes. */
  lemma LookupCovers(g: Geometry, v: View, a: int, b: int, c: int)
    requires v.bel == LookupView(g).bel[META_INO := b][MID := c][META_INO := a]
    requires v.shown == LookupView(g).shown[LOW := 0][MID := 0][META_INO := b][MID := c]
    ensures var log := map[META_INO := a, ROOT_INO := RootLba(g)];
            forall n :: 0 <= n ==> (if n in log then log[n] else Get(v.shown, n)) == Get(v.bel, n)
    ensures Get(v.bel, LOW) == 0 && META_INO in map[META_INO := a, ROOT_INO := RootLba(g)]
  {
  }

  lemma LowUnwritten(w: Work)
    requires Good(w) && (META_INO, 6000) in w.v.homes && w.v.homes[(META_INO, 6000)] == LOW && Get(w.v.bel, LOW) == 0
    ensures Unwritten(w.j.st)
  {
    WayTo6000();
    GoodParts(w);
    hide Good;
    assert Home(w.j.st, w.j.files, (META_INO, 6000).0, (META_INO, 6000).1, LOW);
  }

  /**
   * From a fresh image the machine can run to a complete checkpoint after which the table's invariant does not
   * survive the mount: a node is reached and looks free, so it can be handed out a second time.
   */
  lemma NeverWrittenNodeIsLost(g: Geometry) returns (j: Joint.Joint, log: seq<LogEntry>)
    requires Ample(g, 5)
    ensures Ran(FreshJoint(g), j, true)
    ensures Checkpointed(j.st, j.io.dev, log, FreshData(), FRESH_FILES)
    ensures !ReachedHeld(j.st, META_INO, [902, 3]) && !Core(FromDisk(j.io.dev, log), FRESH_FILES)
    ensures Walk(FromDisk(j.io.dev, log).nodes, META_INO, [902, 3]) == LOW
    ensures !Busy(FromDisk(j.io.dev, log), LOW)
  {
    hide Good, Ran, Checkpointed, FromDisk, Core, Walk, Busy, FreshJoint, FreshData, MetaLog;
    var w, a := UnwrittenRun(g);
    j, log := w.j, MetaLog(a, RootLba(g));
    assert !ReachedHeld(j.st, META_INO, [902, 3]);
    RemountCoreIff(j.st, j.io.dev, log, FreshData(), FRESH_FILES);
    RemountKeepsTree(j.st, j.io.dev, log, FreshData(), FRESH_FILES, META_INO);
    HeldIsBusy(j.st, j.io.dev, log, FreshData(), FRESH_FILES, LOW);
  }

  // ----- A file is created and checkpointed -----

  const INODES := {META_INO, ROOT_INO, FILE}

  function FileView(g: Geometry): View {
    View(LookupView(g).bel, map[], {META_INO, ROOT_INO, MID, LOW, FILE}, {MID, LOW}, {META_INO, MID, FILE}, {},
         map[(META_INO, 0) := META_INO, (META_INO, 6000) := LOW, (FILE, 0) := FILE], {0, 6000})
  }

  /** The new inode takes the first nid of block 6000, which the allocation reads, and its first block is written to. */
  lemma FileWork(g: Geometry, n: nat) returns (w: Work)
    requires Ample(g, n)
    ensures Good(w) && w.v == FileView(g) && w.room == n && w.j.files == INODES && Ran(FreshJoint(g), w.j, false)
    ensures w.m == Image(FreshDisk(g), FreshData()[(FILE, 0) := 7], {}, {(FILE, 0)})
  {
    hide Good, Ran, Core, Supply, Grown, FreshJoint, FreshDisk, FreshData;
    var w0 := LookupWork(g, n);
    var w1 := CreateFile(w0, FILE);
    RanTrans(FreshJoint(g), w0.j, w1.j, false);
    w := PutData(w1, FILE, 0, 7);
  }

  /** The first pass: the block and its inode, then three entries, two table pages and three nodes. */
  lemma FileFirstPass(g: Geometry, w0: Work) returns (w: Work, f: int, a: int, b: int, c: int)
    requires Good(w0) && w0.room >= 7 && w0.v == FileView(g) && w0.m.nats == {} && w0.m.blocks == {(FILE, 0)}
    ensures Good(w) && Next(w0, w) && Ran(w0.j, w.j, true) && w.room == w0.room - 7
    ensures f != 0 && a != 0 && b != 0 && c != 0 && w.m.nats == {} && w.m.blocks == {}
    ensures w.v == FileView(g).(shown := map[FILE := f, LOW := 0, MID := 0],
                                bel := FileView(g).bel[FILE := f][META_INO := a][LOW := b][MID := c],
                                todo := {META_INO, LOW, MID}, dirty := {},
                                mapped := {(FILE, 0), (META_INO, 6000), (META_INO, 0)})
  {
    hide Good, Ran, Next;
    var w2;
    f, w2 := FileFront(g, w0);
    var w3 := WriteB(w2, META_INO, 6000);
    var w4 := WriteB(w3, META_INO, 0);
    Opened(w2, w3, (META_INO, 6000) !in w2.v.mapped);
    Opened(w3, w4, (META_INO, 0) !in w3.v.mapped);
    NextTrans(w0, w2, w3, true);
    NextTrans(w0, w3, w4, true);
    a, b, c, w := ThreeNodes(w4);
    NextTrans(w0, w4, w, true);
  }

  /** Phase 1 and the flush. */
  lemma FileFront(g: Geometry, w0: Work) returns (f: int, w: Work)
    requires Good(w0) && w0.room >= 2 && w0.v == FileView(g) && w0.m.nats == {} && w0.m.blocks == {(FILE, 0)}
    ensures Good(w) && Next(w0, w) && Ran(w0.j, w.j, true) && w.room == w0.room - 2
    ensures f != 0 && w.m.nats == {0, 6000} && w.m.blocks == {}
    ensures w.v == FileView(g).(shown := map[FILE := f, LOW := 0, MID := 0], bel := FileView(g).bel[FILE := f],
                                todo := {}, dirty := {META_INO, MID}, mapped := {(FILE, 0)})
  {
    hide Good, Ran, Next;
    var w1 := WriteB(w0, FILE, 0);
    var w2;
    f, w2 := WriteN(w1, FILE);
    assert FILE / NAT_ENTRY_PER_BLOCK == 6000;
    var w3 := FlushE(w2, FILE);
    var w4 := FlushE(w3, LOW);
    w := FlushE(w4, MID);
    Opened(w0, w1, (FILE, 0) !in w0.v.mapped);
    Opened(w1, w2, Get(w1.v.bel, FILE) == 0);
    Opened(w2, w3, false);
    Opened(w3, w4, false);
    Opened(w4, w, false);
    NextTrans(w0, w1, w2, true);
    NextTrans(w0, w2, w3, true);
    NextTrans(w0, w3, w4, true);
    NextTrans(w0, w4, w, true);
  }

  lemma ThreeNodes(w0: Work) returns (a: int, b: int, c: int, w: Work)
    requires Good(w0) && w0.room >= 3 && w0.v.todo == {} && w0.v.dirty == {META_INO, LOW, MID}
    ensures Good(w) && Next(w0, w) && Ran(w0.j, w.j, true) && w.room == w0.room - 3 && w.m.nats == w0.m.nats
    ensures a != 0 && b != 0 && c != 0 && w.m.blocks == w0.m.blocks
    ensures w.v == w0.v.(bel := w0.v.bel[META_INO := a][LOW := b][MID := c], todo := {META_INO, LOW, MID}, dirty := {})
  {
    hide Good, Ran, Next;
    var w1, w2;
    a, w1 := WriteN(w0, META_INO);
    b, w2 := WriteN(w1, LOW);
    c, w := WriteN(w2, MID);
    Opened(w0, w1, Get(w0.v.bel, META_INO) == 0);
    Opened(w1, w2, Get(w1.v.bel, LOW) == 0);
    Opened(w2, w, Get(w2.v.bel, MID) == 0);
    NextTrans(w0, w1, w2, true);
    NextTrans(w0, w2, w, true);
  }

  /** The second pass opens no zone, so it is the last. */
  lemma FileSecondPass(w0: Work) returns (w: Work, a: int)
    requires Good(w0) && w0.room >= 2 && w0.v.todo == {META_INO, LOW, MID} && w0.v.dirty == {} && 0 in w0.v.ready
    requires (META_INO, 0) in w0.v.homes && w0.v.homes[(META_INO, 0)] == META_INO && (META_INO, 0) in w0.v.mapped
    requires Get(w0.v.bel, META_INO) != 0 && w0.m.nats == {} && w0.m.blocks == {}
    ensures Good(w) && Next(w0, w) && Ran(w0.j, w.j, false) && a != 0 && w.room == w0.room - 2
    ensures w.m.nats == {} && w.m.blocks == {}
    ensures w.v == w0.v.(shown := w0.v.shown[META_INO := Get(w0.v.bel, META_INO)][LOW := Get(w0.v.bel, LOW)]
                                            [MID := Get(w0.v.bel, MID)],
                         bel := w0.v.bel[META_INO := a], todo := {META_INO})
  {
    hide Good, Ran, Next;
    var w1 := FlushE(w0, META_INO);
    var w2 := FlushE(w1, LOW);
    var w3 := FlushE(w2, MID);
    var w4 := WriteB(w3, META_INO, 0);
    a, w := WriteN(w4, META_INO);
    assert w4.v.mapped == w3.v.mapped;
    NextTrans(w0, w1, w2, false);
    NextTrans(w0, w2, w3, false);
    NextTrans(w0, w3, w4, false);
    NextTrans(w0, w4, w, false);
  }

  // ----- Every block on the drive lies in a zone in use -----

  lemma FreshSettled(g: Geometry)
    requires Fits(g)
    ensures DevSettled(FreshJoint(g).io)
  {
    var s := FreshJoint(g).io;
    FreshZones(g);
    FreshFields(g);
    FreshPlaces(g);
    assert s.t == FreshTable(g) && s.dev == FreshDisk(g);
    hide FreshJoint, FreshTable, ZoneTable.ZoneOf;
    forall a ensures InUseZone(s, a) {
    }
  }

  lemma RanSettled(a: Joint.Joint, b: Joint.Joint)
    requires Ran(a, b, true) && Joint.Ok(a) && DevSettled(a.io)
    ensures DevSettled(b.io)
  {
    hide Joint.Ok, DevSettled;
    var es :| Joint.CanAll(a, es) && Joint.ThenAll(a, es) == b;
    hide Joint.CanAll, Joint.ThenAll;
    Joint.OkCoupled(a);
    Joint.RunProjects(a, es);
    RunSettled(a.io, Joint.IoSteps(es));
  }

  /** The first mount's run: a file is created, written and checkpointed. */
  lemma FileRun(g: Geometry, n: nat) returns (w: Work, log: seq<LogEntry>)
    requires Ample(g, n) && n >= 9
    ensures Settles(w, log) && Ran(FreshJoint(g), w.j, true) && w.room == n - 9 && w.j.files == INODES
    ensures w.m.data == FreshData()[(FILE, 0) := 7] && PassLog(log)
    ensures exists a, b, c, f, m {:trigger FileEnd(g, w.v, a, b, c, f, m)} ::
              FileEnd(g, w.v, a, b, c, f, m) && log == MetaLog(a, RootLba(g))
  {
    FileViewIs(g);
    hide *;
    var w0 := FileWork(g, n);
    var f, m, b, c, w1;
    w1, f, m, b, c := FileFirstPass(g, w0);
    FirstPassGets(g, w1.v, f, m, b, c);
    var a;
    w, a := FileSecondPass(w1);
    SecondPassEnds(g, w1.v, w.v, a, b, c, f, m);
    log := MetaLog(a, RootLba(g));
    Opened(w1, w, false);
    NextTrans(w0, w1, w, true);
    Opened(FreshWork(g, n), w0, false);
    RanTrans(FreshJoint(g), w0.j, w.j, true);
    SameFiles(w0, w);
    FileSettles(g, w, a, b, c, f, m);
  }

  lemma FileViewIs(g: Geometry)
    requires Fits(g)
    ensures forall n: nat :: FreshWork(g, n).j == FreshJoint(g)
  {
  }

  lemma FirstPassGets(g: Geometry, v: View, f: int, m: int, b: int, c: int)
    requires v == FileView(g).(shown := map[FILE := f, LOW := 0, MID := 0],
                               bel := FileView(g).bel[FILE := f][META_INO := m][LOW := b][MID := c],
                               todo := {META_INO, LOW, MID}, dirty := {},
                               mapped := {(FILE, 0), (META_INO, 6000), (META_INO, 0)})
    requires m != 0
    ensures v.dirty == {} && 0 in v.ready && (META_INO, 0) in v.homes && v.homes[(META_INO, 0)] == META_INO
    ensures (META_INO, 0) in v.mapped && Get(v.bel, META_INO) == m && Get(v.bel, LOW) == b && Get(v.bel, MID) == c
    ensures v.todo == {META_INO, LOW, MID}
  {
  }

  lemma SecondPassEnds(g: Geometry, v: View, v': View, a: int, b: int, c: int, f: int, m: int)
    requires Fits(g) && a != 0 && b != 0 && c != 0 && f != 0 && m != 0
    requires v == FileView(g).(shown := map[FILE := f, LOW := 0, MID := 0],
                               bel := FileView(g).bel[FILE := f][META_INO := m][LOW := b][MID := c],
                               todo := {META_INO, LOW, MID}, dirty := {},
                               mapped := {(FILE, 0), (META_INO, 6000), (META_INO, 0)})
    requires v' == v.(shown := v.shown[META_INO := m][LOW := b][MID := c], bel := v.bel[META_INO := a],
                      todo := {META_INO})
    ensures FileEnd(g, v', a, b, c, f, m)
  {
    var bel := FileView(g).bel;
    assert bel == map[META_INO := MetaLba(g), ROOT_INO := RootLba(g)];
    assert FileView(g).todo == {MID, LOW} && FileView(g).shown == map[];
    hide FileView, MetaLba;
    BelEnds(bel, RootLba(g), a, b, c, f, m);
    ShownEnds(b, c, f, m);
    assert RootLba(g) == 5 * g.blocks;
    hide RootLba;
  }

  lemma BelEnds(bel: map<int, int>, root: int, a: int, b: int, c: int, f: int, m: int)
    requires bel.Keys == {META_INO, ROOT_INO} && bel[ROOT_INO] == root
    ensures bel[FILE := f][META_INO := m][LOW := b][MID := c][META_INO := a]
         == map[META_INO := a, ROOT_INO := root, FILE := f, LOW := b, MID := c]
  {
  }

  lemma ShownEnds(b: int, c: int, f: int, m: int)
    ensures map[FILE := f, LOW := 0, MID := 0][META_INO := m][LOW := b][MID := c]
         == map[FILE := f, META_INO := m, LOW := b, MID := c]
  {
  }

  /** What is believed and shown after the last pass: only inode 1 has moved since its entry was flushed. */
  predicate FileEnd(g: Geometry, v: View, a: int, b: int, c: int, f: int, m: int) {
    && a != 0 && b != 0 && c != 0 && f != 0 && m != 0
    && v == FileView(g).(shown := map[FILE := f, META_INO := m, LOW := b, MID := c],
                         bel := map[META_INO := a, ROOT_INO := RootLba(g), FILE := f, LOW := b, MID := c],
                         todo := {META_INO}, dirty := {}, mapped := {(FILE, 0), (META_INO, 6000), (META_INO, 0)})
  }

  lemma FileCovers(g: Geometry, v: View, a: int, b: int, c: int, f: int, m: int)
    requires Fits(g) && FileEnd(g, v, a, b, c, f, m)
    ensures var log := map[META_INO := a, ROOT_INO := RootLba(g)];
            forall n :: 0 <= n ==> (if n in log then log[n] else Get(v.shown, n)) == Get(v.bel, n)
    ensures forall n :: n in v.used || Get(v.shown, n) != 0 ==> Get(v.bel, n) != 0
    ensures v.dirty == {}
  {
  }

  lemma FileSettles(g: Geometry, w: Work, a: int, b: int, c: int, f: int, m: int)
    requires Fits(g) && Good(w) && FileEnd(g, w.v, a, b, c, f, m) && w.m.nats == {} && w.m.blocks == {}
    requires Ran(FreshJoint(g), w.j, true)
    ensures Settles(w, MetaLog(a, RootLba(g))) && PassLog(MetaLog(a, RootLba(g)))
  {
    var log := MetaLog(a, RootLba(g));
    GoodParts(w);
    assert a != 0;
    MetaLogIs(a, RootLba(g));
    FileCovers(g, w.v, a, b, c, f, m);
    FreshJointOk(g);
    FreshSettled(g);
    hide *;
    RanSettled(FreshJoint(g), w.j);
    PassEnds(w, log);
    CheckpointMounts(w.j.st, w.j.io.dev, log, w.m.data, w.j.files);
    Settled(w, log);
  }

  lemma Settled(w: Work, log: seq<LogEntry>)
    requires Good(w) && Checkpointed(w.j.st, w.j.io.dev, log, w.m.data, w.j.files) && DevSettled(w.j.io)
    requires (forall n {:trigger Moved(log, n)} :: !Moved(log, n)) && w.m.nats == {} && w.m.blocks == {}
    requires forall n :: n in w.v.used || Get(w.v.shown, n) != 0 ==> Get(w.v.bel, n) != 0
    ensures Settles(w, log)
  {
  }

  // ----- The second mount rewrites the file's block -----

  /** After the mount the way to the file is read, which caches blocks 0 and 6000. */
  function ReadView(v: View): View {
    v.(used := {META_INO, ROOT_INO, MID, LOW, FILE}, ready := {0, 6000},
       homes := map[(META_INO, 0) := META_INO, (META_INO, 6000) := LOW, (FILE, 0) := FILE])
  }

  /** The state the second mount starts from. */
  ghost predicate Second(v: View) {
    && v.used == {META_INO, ROOT_INO} && v.todo == {} && v.dirty == {} && v.ready == {}
    && v.mapped == {(FILE, 0), (META_INO, 6000), (META_INO, 0)}
    && (forall n :: n in {META_INO, ROOT_INO, MID, LOW, FILE} ==> Get(v.bel, n) != 0)
    && (forall n :: Get(v.shown, n) != 0 ==> n in {META_INO, MID, LOW, FILE})
  }

  function BothRead(st: Store): Store {
    ReadBlock(ReadBlock(st, 0), 6000)
  }

  lemma BothReadStore(st: Store, files: set<int>)
    requires Core(st, files) && Walk(st.nodes, META_INO, [902, 3]) == LOW
    ensures Core(BothRead(st), files) && Reads(st, BothRead(st), files)
    ensures Unflushed(BothRead(st).book) == Unflushed(st.book) && {0, 6000} <= BothRead(st).ready
    ensures forall n :: n in {MID, LOW, FILE} ==> EntryOf(BothRead(st).book, n).Some?
    ensures EntryOf(st.book, META_INO).Some? ==> EntryOf(BothRead(st).book, META_INO).Some?
  {
    WayTo6000();
    MetaReached(st, files);
    var s1 := ReadBlock(st, 0);
    assert s1.nodes == st.nodes && 0 in s1.ready;
    hide Core, Reads, CacheBlock, Walk, Unflushed;
    ReadBlockStore(st, files, 0);
    ReadBlockStore(s1, files, 6000);
    ReadsTrans(st, s1, ReadBlock(s1, 6000), files);
    assert MID / NAT_ENTRY_PER_BLOCK == 0 && LOW / NAT_ENTRY_PER_BLOCK == 0 && FILE / NAT_ENTRY_PER_BLOCK == 6000;
  }

  lemma MetaReached(st: Store, files: set<int>)
    requires Core(st, files)
    ensures Walk(st.nodes, META_INO, []) == META_INO
  {
  }

  /** A read caches on nat_list what has an address, and nothing else that was not there. */
  lemma ReadUsed(a: Store, b: Store, files: set<int>, n: int)
    requires Reads(a, b, files) && Core(a, files) && Core(b, files)
    ensures n in b.book.used ==> 0 <= n && (n in a.book.used || OnPage(a.pages, n).addr != 0)
    ensures 0 <= n && EntryOf(b.book, n).Some? && Believed(a, n) != 0 ==> n in b.book.used
    ensures n in a.book.used ==> n in b.book.used
  {
    if 0 <= n {
      assert KeepsNid(a, b, n);
    }
  }

  lemma ReadMatches(st: Store, files: set<int>, v: View)
    requires Core(st, files) && Matches(st, files, v) && Second(v) && Walk(st.nodes, META_INO, [902, 3]) == LOW
    requires FILE in files
    ensures Core(BothRead(st), files) && Extends(st, BothRead(st), files)
    ensures Matches(BothRead(st), files, ReadView(v))
  {
    var to := BothRead(st);
    BothReadStore(st, files);
    BothReadIs(st);
    ReadHomes(to, files);
    ReadKeys(st, to, files, v);
    ReadNumbers(st, to, files, v);
    NothingDirty(st, files, v);
    ReadsGives(st, to, files);
    hide *;
    ReadClean(st, to, files, v);
  }

  lemma BothReadIs(st: Store)
    ensures BothRead(st).nodes == st.nodes && BothRead(st).pages == st.pages && BothRead(st).dirty == st.dirty
  {
  }

  lemma ReadsGives(a: Store, b: Store, files: set<int>)
    requires Reads(a, b, files)
    ensures Extends(a, b, files)
  {
  }

  lemma NothingDirty(st: Store, files: set<int>, v: View)
    requires Matches(st, files, v) && Second(v)
    ensures Unflushed(st.book) == {} && st.dirty == {}
    ensures forall p :: p in v.mapped ==> Mapped(st, files, p.0, p.1)
  {
  }

  lemma ReadClean(st: Store, to: Store, files: set<int>, v: View)
    requires Matches(st, files, v) && Second(v) && to.nodes == st.nodes && to.dirty == {} && Unflushed(to.book) == {}
    requires forall n {:trigger Believed(to, n)} :: 0 <= n ==> Believed(to, n) == Get(v.bel, n)
    requires forall n {:trigger OnPage(to.pages, n)} :: 0 <= n ==> OnPage(to.pages, n).addr == Get(v.shown, n)
    requires to.book.used.Keys == {META_INO, ROOT_INO, MID, LOW, FILE} && {0, 6000} <= to.ready
    requires Home(to, files, META_INO, 0, META_INO) && Home(to, files, META_INO, 6000, LOW)
    requires Home(to, files, FILE, 0, FILE)
    ensures Matches(to, files, ReadView(v))
  {
    hide Home, AddrAt, Believed, OnPage;
    assert forall p :: p in v.mapped ==> Mapped(st, files, p.0, p.1);
    assert forall n :: n !in Unflushed(to.book);
  }

  lemma ReadNumbers(st: Store, to: Store, files: set<int>, v: View)
    requires Matches(st, files, v) && Reads(st, to, files)
    ensures forall n {:trigger Believed(to, n)} :: 0 <= n ==> Believed(to, n) == Get(v.bel, n)
    ensures forall n {:trigger OnPage(to.pages, n)} :: 0 <= n ==> OnPage(to.pages, n).addr == Get(v.shown, n)
  {
    forall n | 0 <= n ensures Believed(to, n) == Get(v.bel, n) {
      assert KeepsNid(st, to, n);
    }
  }

  lemma ReadHomes(to: Store, files: set<int>)
    requires Core(to, files) && Walk(to.nodes, META_INO, [902, 3]) == LOW && FILE in files
    requires forall n :: n in {META_INO, LOW, FILE} ==> EntryOf(to.book, n).Some?
    ensures Home(to, files, META_INO, 0, META_INO) && Home(to, files, META_INO, 6000, LOW)
    ensures Home(to, files, FILE, 0, FILE)
  {
    WayTo6000();
    MetaReached(to, files);
    assert Walk(to.nodes, FILE, []) == FILE;
  }

  lemma ReadKeys(st: Store, to: Store, files: set<int>, v: View)
    requires Core(st, files) && Core(to, files) && Reads(st, to, files) && Matches(st, files, v) && Second(v)
    requires forall n :: n in {MID, LOW, FILE} ==> EntryOf(to.book, n).Some?
    ensures to.book.used.Keys == {META_INO, ROOT_INO, MID, LOW, FILE}
  {
    hide Core, Reads;
    forall n ensures n in to.book.used.Keys <==> n in {META_INO, ROOT_INO, MID, LOW, FILE} {
      ReadUsed(st, to, files, n);
      if 0 <= n {
        assert Believed(st, n) == Get(v.bel, n) && OnPage(st.pages, n).addr == Get(v.shown, n);
      }
      hide Believed, OnPage;
    }
  }

  /** The first mount's run, the second mount, and the way to the file. */
  lemma SecondMount(g: Geometry, n: nat) returns (w1: Work, log1: seq<LogEntry>, w2: Work)
    requires Ample(g, n) && n >= 9
    ensures Settles(w1, log1) && Ran(FreshJoint(g), w1.j, true) && w1.m.data == FreshData()[(FILE, 0) := 7]
    ensures PassLog(log1) && w1.j.files == INODES && w1.j.io.t.zoneSize >= ZoneTable.SECTORS_PER_BLOCK
    ensures CleanTable(Cleared(w1.j.io.t), w1.j.io.t, w1.j.io.dev)
    ensures Good(w2) && w2.room == n - 9 && w2.j.files == INODES && w2.m == w1.m && w2.m.nats == {} && w2.m.blocks == {}
    ensures Ran(Reborn(w1.j, log1), w2.j, false) && SecondView(g, w2.v)
    ensures log1 == MetaLog(Get(w2.v.bel, META_INO), RootLba(g)) && Get(w2.v.bel, META_INO) != 0
  {
    AmpleFits(g, n);
    InodesAre();
    hide *;
    w1, log1 := FileRun(g, n);
    var a, b, c, f, m :| FileEnd(g, w1.v, a, b, c, f, m) && log1 == MetaLog(a, RootLba(g));
    FileEndNonzero(g, w1.v, a, b, c, f, m);
    MetaLogIs(a, RootLba(g));
    var w := MountWork(w1, log1);
    SettlesGives(w1, log1);
    MountedSecond(g, w1.v, w.v, w1.j.io.dev, log1, a, b, c, f, m);
    GoodParts(w);
    WorkCore(w);
    SameLow(w1, w);
    ReadMatches(w.j.st, w.j.files, w.v);
    w2 := WalkTo(w, BothRead(w.j.st), ReadView(w.v));
    RebornFiles(w1.j, log1);
    SecondViewIs(g, w1.v, w.v, w2.v, w1.j.io.dev, log1, a, b, c, f, m);
  }

  lemma AmpleFits(g: Geometry, n: nat)
    requires Ample(g, n)
    ensures Fits(g)
  {
  }

  lemma InodesAre()
    ensures FILE in INODES && META_INO in INODES && ROOT_INO in INODES
  {
  }

  lemma RebornFiles(j: Joint.Joint, log: seq<LogEntry>)
    requires j.io.t.zoneSize >= ZoneTable.SECTORS_PER_BLOCK
    ensures Reborn(j, log).files == j.files
  {
  }

  lemma SettlesGives(w: Work, log: seq<LogEntry>)
    requires Settles(w, log)
    ensures w.m.nats == {} && w.m.blocks == {} && Good(w)
    ensures Checkpointed(w.j.st, w.j.io.dev, log, w.m.data, w.j.files)
  {
  }

  lemma FileEndNonzero(g: Geometry, v: View, a: int, b: int, c: int, f: int, m: int)
    requires Fits(g) && FileEnd(g, v, a, b, c, f, m)
    ensures a != 0 && b != 0 && Get(v.bel, META_INO) == a && RootLba(g) != 0
    ensures (META_INO, 6000) in v.homes && v.homes[(META_INO, 6000)] == LOW
  {
  }

  lemma MountedSecond(g: Geometry, v1: View, v: View, dev: Disk, log: seq<LogEntry>,
                      a: int, b: int, c: int, f: int, m: int)
    requires Fits(g) && FileEnd(g, v1, a, b, c, f, m) && v == MountView(v1, dev, log)
    requires FromDiskUsed(log, {META_INO} + if RootLba(g) != 0 then {ROOT_INO} else {})
    ensures Second(v)
  {
    assert FromDisk(dev, log).book == Mounted(log);
    hide FromDisk, Mounted;
  }

  lemma SameLow(w1: Work, w: Work)
    requires Good(w1) && META_INO in w1.j.files && (META_INO, 6000) in w1.v.homes && w1.v.homes[(META_INO, 6000)] == LOW
    requires forall f, q {:trigger Walk(w.j.st.nodes, f, q)} :: f in w1.j.files && IsPrefix(q) ==>
               Walk(w.j.st.nodes, f, q) == Walk(w1.j.st.nodes, f, q)
    ensures Walk(w.j.st.nodes, META_INO, [902, 3]) == LOW
  {
    WayTo6000();
    GoodParts(w1);
    hide Good;
    assert Home(w1.j.st, w1.j.files, (META_INO, 6000).0, (META_INO, 6000).1, LOW);
  }

  /** Nothing is dirty, the table shows all but inode 1 and the root, and the file's addresses are known. */
  ghost predicate SecondView(g: Geometry, v: View) {
    && v.todo == {} && v.dirty == {} && v.ready == {0, 6000}
    && v.mapped == {(FILE, 0), (META_INO, 6000), (META_INO, 0)}
    && v.homes == map[(META_INO, 0) := META_INO, (META_INO, 6000) := LOW, (FILE, 0) := FILE]
    && (forall n :: n in {META_INO, ROOT_INO, LOW, FILE} ==> Get(v.bel, n) != 0) && Get(v.bel, ROOT_INO) == RootLba(g)
    && (forall n :: 0 <= n && n != META_INO && n != ROOT_INO ==> Get(v.shown, n) == Get(v.bel, n))
  }

  lemma SecondViewIs(g: Geometry, v1: View, v: View, v2: View, dev: Disk, log: seq<LogEntry>,
                     a: int, b: int, c: int, f: int, m: int)
    requires Fits(g) && FileEnd(g, v1, a, b, c, f, m) && v == MountView(v1, dev, log) && v2 == ReadView(v) && Second(v)
    ensures SecondView(g, v2) && Get(v2.bel, META_INO) == a
  {
  }

  /** The second checkpoint takes one pass: every write is a rewrite.  Only the lower node moves after the flush. */
  lemma UpdatePass(g: Geometry, w0: Work) returns (w: Work, f: int, b: int)
    requires Good(w0) && w0.room >= 4 && SecondView(g, w0.v) && w0.m.nats == {} && w0.m.blocks == {}
    ensures Good(w) && w.j.files == w0.j.files && w.m.data == w0.m.data[(FILE, 0) := 8]
    ensures Ran(w0.j, w.j, false) && OnlyAppended(w0.m.dev, w.m.dev)
    ensures w.m.nats == {} && w.m.blocks == {} && w.v.dirty == {} && f != 0 && b != 0 && b != Get(w0.v.bel, LOW)
    ensures w.v.bel == w0.v.bel[FILE := f][LOW := b] && w.v.shown == w0.v.shown[FILE := f]
  {
    hide Good, Ran, OnlyAppended;
    var w1 := PutData(w0, FILE, 0, 8);
    var w2 := WriteB(w1, FILE, 0);
    var w3;
    f, w3 := WriteN(w2, FILE);
    assert FILE / NAT_ENTRY_PER_BLOCK == 6000;
    var w4 := FlushE(w3, FILE);
    var w5 := WriteB(w4, META_INO, 6000);
    assert Get(w5.v.bel, LOW) == Get(w0.v.bel, LOW) != 0;
    b, w := WriteN(w5, LOW);
    NextTrans(w1, w2, w3, false);
    NextTrans(w1, w3, w4, false);
    NextTrans(w1, w4, w5, false);
    NextTrans(w1, w5, w, false);
  }

  // ----- The third mount does nothing -----

  /** The second checkpoint moved the lower node only. */
  function UpdateLog(b: int, a: int, root: int): seq<LogEntry> {
    [LogEntry(LOW, META_INO, b), LogEntry(META_INO, META_INO, a), LogEntry(ROOT_INO, ROOT_INO, root)]
  }

  /** A pass that finds nothing dirty logs inode 1 and the root. */
  function IdleLog(a: int, root: int): seq<LogEntry> {
    [LogEntry(META_INO, META_INO, a), LogEntry(ROOT_INO, ROOT_INO, root)]
  }

  lemma IdleLogIs(a: int, root: int)
    ensures PassLog(IdleLog(a, root)) && LogMap(IdleLog(a, root)) == map[META_INO := a, ROOT_INO := root]
  {
    var log := IdleLog(a, root);
    assert log == ([] + [log[0]]) + [log[1]] && log[..|log| - 2] == [] && log[|log| - 2..] == log;
    assert LogMap([]) == map[];
    FirstAppend([], log[0], 0);
    FirstAppend([] + [log[0]], log[1], 0);
  }

  lemma UpdateLogIs(b: int, a: int, root: int)
    requires b != 0
    ensures PassLog(UpdateLog(b, a, root))
    ensures LogMap(UpdateLog(b, a, root)) == map[LOW := b, META_INO := a, ROOT_INO := root]
    ensures forall n {:trigger Moved(UpdateLog(b, a, root), n)} :: !Moved(UpdateLog(b, a, root), n)
  {
    var log := UpdateLog(b, a, root);
    var e, e1, e3 := log[0], log[1], log[2];
    var l1, l2 := [e], [e] + [e1];
    assert l1 == [] + [e] && log == l2 + [e3] && log[..|log| - 2] == [e] && log[|log| - 2..] == [e1, e3];
    assert LogMap([]) == map[];
    FirstAppend([], e, 0);
    FirstAppend(l1, e1, 0);
    FirstAppend(l2, e3, 0);
    forall n ensures !Moved(log, n) {
      UpdateLogAt(b, a, root, n);
    }
  }

  lemma UpdateLogAt(b: int, a: int, root: int, n: int)
    ensures !Moved(UpdateLog(b, a, root), n)
  {
    var log := UpdateLog(b, a, root);
    var e, e1, e3 := log[0], log[1], log[2];
    var l1, l2 := [e], [e] + [e1];
    assert l1 == [] + [e] && log == l2 + [e3];
    assert LogMap([]) == map[];
    FirstAppend([], e, n);
    FirstAppend(l1, e1, n);
    MovedAppend([], e, n);
    MovedAppend(l1, e1, n);
    MovedAppend(l2, e3, n);
    hide Moved;
  }

  /** When nothing is dirty after a mount, a pass that logs what is believed of its nids leaves everything as it is. */
  lemma IdleAgrees(dev: Disk, log: seq<LogEntry>, idle: map<int, int>)
    requires forall n {:trigger Moved(log, n)} :: !Moved(log, n)
    requires forall n :: n in idle ==> 0 <= n && idle[n] == Believed(FromDisk(dev, log), n)
    ensures AllAgree(FromDisk(dev, log), FromDisk(dev, log), idle)
  {
    var r := FromDisk(dev, log);
    forall n | 0 <= n ensures Agrees(r, r, idle, n) {
      MountedIs(log, n);
      assert r.book == Mounted(log) && !Moved(log, n);
      hide FromDisk, Mounted, Moved, OnPage;
    }
  }

  /** The second checkpoint is complete, and its replay leaves the lower node's entry clean. */
  lemma UpdateEnds(g: Geometry, w: Work, v0: View, a: int, f: int, b: int)
    requires Fits(g) && Good(w) && w.m.nats == {} && w.m.blocks == {} && w.v.dirty == {} && SecondView(g, v0)
    requires w.v.bel == v0.bel[FILE := f][LOW := b] && w.v.shown == v0.shown[FILE := f]
    requires Get(v0.bel, META_INO) == a && b != 0 && b != Get(v0.bel, LOW)
    ensures Checkpointed(w.j.st, w.j.io.dev, UpdateLog(b, a, RootLba(g)), w.m.data, w.j.files)
    ensures LeftClean(w.j.st, UpdateLog(b, a, RootLba(g)), LOW)
    ensures Believed(w.j.st, META_INO) == a && Believed(w.j.st, ROOT_INO) == RootLba(g)
  {
    var log := UpdateLog(b, a, RootLba(g));
    GoodParts(w);
    UpdateLogIs(b, a, RootLba(g));
    UpdateCovers(g, w.v, v0, a, f, b);
    UpdateBelieved(w, g, v0, a, f, b);
    assert !Moved(log, LOW);
    assert LeftClean(w.j.st, log, LOW) by {
      hide UpdateLog, Good, Matches, Moved, OnPage;
    }
    hide *;
    PassEnds(w, log);
    CheckpointMounts(w.j.st, w.j.io.dev, log, w.m.data, w.j.files);
  }

  lemma UpdateBelieved(w: Work, g: Geometry, v0: View, a: int, f: int, b: int)
    requires Good(w) && SecondView(g, v0) && w.v.bel == v0.bel[FILE := f][LOW := b] && w.v.shown == v0.shown[FILE := f]
    requires Get(v0.bel, META_INO) == a
    ensures Believed(w.j.st, META_INO) == a && Believed(w.j.st, ROOT_INO) == RootLba(g)
    ensures OnPage(w.j.st.pages, LOW).addr == Get(v0.bel, LOW)
  {
    GoodParts(w);
    hide Good, Believed;
    assert OnPage(w.j.st.pages, LOW).addr == Get(w.v.shown, LOW) == Get(v0.shown, LOW);
  }

  lemma UpdateCovers(g: Geometry, v: View, v0: View, a: int, f: int, b: int)
    requires SecondView(g, v0) && v.bel == v0.bel[FILE := f][LOW := b] && v.shown == v0.shown[FILE := f]
    requires Get(v0.bel, META_INO) == a
    ensures var log := map[LOW := b, META_INO := a, ROOT_INO := RootLba(g)];
            forall n :: 0 <= n ==> (if n in log then log[n] else Get(v.shown, n)) == Get(v.bel, n)
  {
    forall n | 0 <= n
      ensures Get(v.bel, n) == if n == LOW then b else if n == FILE then f else Get(v0.bel, n)
      ensures Get(v.shown, n) == if n == FILE then f else Get(v0.shown, n)
    {
    }
  }

  /** What the file system holds after the first checkpoint, and after the second. */
  function Before(): FileData {
    FreshData()[(FILE, 0) := 7]
  }

  function Later(): FileData {
    FreshData()[(FILE, 0) := 8]
  }

  /** The runs of the first two mounts, each up to its checkpoint. */
  lemma TwoMounts(g: Geometry) returns (j1: Joint.Joint, j2: Joint.Joint, a: int, b: int)
    requires Ample(g, 13)
    ensures j1.io.t.zoneSize >= ZoneTable.SECTORS_PER_BLOCK && CleanTable(Cleared(j1.io.t), j1.io.t, j1.io.dev)
    ensures a != 0 && b != 0 && OnlyAppended(j1.io.dev, j2.io.dev)
    ensures Ran(FreshJoint(g), j1, true) && Ran(Reborn(j1, MetaLog(a, RootLba(g))), j2, false)
    ensures Checkpointed(j1.st, j1.io.dev, MetaLog(a, RootLba(g)), Before(), INODES)
    ensures Checkpointed(j2.st, j2.io.dev, UpdateLog(b, a, RootLba(g)), Later(), INODES)
    ensures LeftClean(j2.st, UpdateLog(b, a, RootLba(g)), LOW)
    ensures Believed(j2.st, META_INO) == a && Believed(j2.st, ROOT_INO) == RootLba(g)
  {
    AmpleFits(g, 13);
    InodesAre();
    Overwritten();
    hide *;
    var w1, log1, w2, f, w;
    w1, log1, w2 := SecondMount(g, 13);
    SettlesGives(w1, log1);
    a := Get(w2.v.bel, META_INO);
    w, f, b := UpdatePass(g, w2);
    GoodParts(w1);
    GoodParts(w);
    UpdateEnds(g, w, w2.v, a, f, b);
    RanTrans(Reborn(w1.j, log1), w2.j, w.j, false);
    j1, j2 := w1.j, w.j;
  }

  /**
   * Three mounts take an update back.  The first creates a file and checkpoints; the second overwrites the file's
   * block and checkpoints, and it reads back; the third mounts, writes nothing and checkpoints.  Its log is that of
   * the first checkpoint, because the table's own node moved by the second was left clean by the replay, and
   * every block of every file reads as at the first checkpoint again.
   */
  lemma IdleMountRollsBack(g: Geometry)
      returns (j1: Joint.Joint, log1: seq<LogEntry>, j2: Joint.Joint, log2: seq<LogEntry>, log3: seq<LogEntry>)
    requires Ample(g, 13)
    ensures j1.io.t.zoneSize >= ZoneTable.SECTORS_PER_BLOCK && CleanTable(Cleared(j1.io.t), j1.io.t, j1.io.dev)
    ensures Ran(FreshJoint(g), j1, true) && Ran(Reborn(j1, log1), j2, false)
    ensures PassLog(log1) && PassLog(log2) && PassLog(log3)
    ensures Checkpointed(j1.st, j1.io.dev, log1, Before(), INODES)
    ensures Checkpointed(j2.st, j2.io.dev, log2, Later(), INODES)
    ensures LeftClean(j2.st, log2, LOW) && LOW !in LogMap(log3)
    ensures AllAgree(FromDisk(j2.io.dev, log2), FromDisk(j2.io.dev, log2), LogMap(log3))
    ensures ReadsAs(j2.io.dev, LogMap(log2), Later(), INODES) && ReadsAs(j2.io.dev, LogMap(log3), Before(), INODES)
    ensures InMemory(Later(), FILE, 0) == 8 && InMemory(Before(), FILE, 0) == 7
  {
    AmpleFits(g, 13);
    TheBlock();
    hide *;
    var a, b;
    var root := RootLba(g);
    j1, j2, a, b := TwoMounts(g);
    log1, log2, log3 := MetaLog(a, root), UpdateLog(b, a, root), IdleLog(a, root);
    MetaLogIs(a, root);
    UpdateLogIs(b, a, root);
    IdleLogIs(a, root);
    NotLogged(a, root);
    SameDisk(j2.io.dev);
    CheckpointReads(j2.st, j2.io.dev, j2.io.dev, log2, Later(), INODES);
    CheckpointReads(j1.st, j1.io.dev, j2.io.dev, log1, Before(), INODES);
    IdleValues(j2.st, j2.io.dev, log2, a, root);
    IdleAgrees(j2.io.dev, log2, LogMap(log3));
  }

  lemma NotLogged(a: int, root: int)
    ensures LOW !in map[META_INO := a, ROOT_INO := root]
  {
  }

  lemma SameDisk(dev: Disk)
    ensures OnlyAppended(dev, dev)
  {
  }

  lemma TheBlock()
    ensures InMemory(Later(), FILE, 0) == 8 && InMemory(Before(), FILE, 0) == 7
  {
  }

  lemma Overwritten()
    ensures FreshData()[(FILE, 0) := 7] == Before() && Before()[(FILE, 0) := 8] == Later()
  {
  }

  lemma IdleValues(st: Store, dev: Disk, log: seq<LogEntry>, a: int, root: int)
    requires Checkpointed(st, dev, log, Later(), INODES)
    requires Believed(st, META_INO) == a && Believed(st, ROOT_INO) == root
    ensures forall n :: n in map[META_INO := a, ROOT_INO := root] ==>
              0 <= n && map[META_INO := a, ROOT_INO := root][n] == Believed(FromDisk(dev, log), n)
  {
    hide Checkpointed, FromDisk, Believed, Later;
    RemountSame(st, dev, log, Later(), INODES, META_INO);
    RemountSame(st, dev, log, Later(), INODES, ROOT_INO);
  }
}
