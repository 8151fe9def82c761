/**
 * The file system as one machine: the append pipeline together with the node address table and the node
 * trees it publishes into, under every interleaving of writes with walks, allocations, flushes, new files,
 * truncations and invalidations.
 */
module Joint {
  import opened Layout
  import opened BlockPath
  import opened NodeTree
  import opened NatCache
  import opened NatStore
  import opened Recovery
  import opened Writeback
  import opened WritePipeline
  import opened Coupling
  import opened Unlink
  import Cutting = Truncate

  datatype Joint = Joint(io: Io<Block>, st: Store, files: set<int>)

  /** What a write in flight relies on: an entry to put its address in, or a node page. */
  ghost predicate Ready(st: Store, files: set<int>, p: Page) {
    match p
    case Node(n) => n in st.book.used
    case Data(f, k) => CanWrite(st, files, f, k)
  }

  ghost predicate FlightsReady(j: Joint) {
    forall p {:trigger Ready(j.st, j.files, p)} :: p in j.io.flights ==> Ready(j.st, j.files, p)
  }

  ghost predicate Ok(j: Joint) {
    Core(j.st, j.files) && Coupled(j.io, j.st, j.files) && Safe(j.io) && FlightsReady(j)
  }

  /**
   * `Walk` stands for any lookup, walk or allocation, `HandOut` for the moment an allocation takes its nid;
   * the rest are single steps of the code.
   */
  datatype Event =
    | Start(p: Page, dev: nat -> bool) | Lands(p: Page, a: int, content: Block) | Ends(p: Page)
    | Cut(f: int, k: int) | Drop(nid: int) | Unlink(f: int, d: int)
    | Walks(to: Store) | HandOut(m: int, to: Store) | Create(m: int, to: Store) | Flush(nid: int)

  ghost predicate Can(j: Joint, e: Event) {
    match e
    case Start(p, dev) => CanSubmit(j.io, p, dev) && Ready(j.st, j.files, p)
    case Lands(p, a, content) => CanLand(j.io, p, a)
    case Ends(p) => CanComplete(j.io, p) && (p.Data? ==> 0 <= p.idx < MAX_BLOCKS)
    case Cut(f, k) => f != META_INO && CanWrite(j.st, j.files, f, k) && CanTruncate(j.io, Data(f, k))
    case Drop(nid) => 0 <= nid && EntryOf(j.st.book, nid).Some?
    case Unlink(f, d) =>
      CanUnlink(j.st, j.files, f, d) && forall k :: Cutting.InDirect(d, k) ==> Data(f, k) !in j.io.flights
    case Walks(to) => Extends(j.st, to, j.files) && Core(to, j.files)
    case HandOut(m, to) => HandsOut(j.st, to, m)
    case Create(m, to) => HandsOut(j.st, to, m) && REG_NID_START <= m
    case Flush(nid) =>
      nid in j.st.book.used && j.st.book.used[nid].dirty && 0 <= nid && nid / NAT_ENTRY_PER_BLOCK in j.st.ready
  }

  /** The completion of a write on the table or on the node page. */
  function Publish(st: Store, p: Page, a: int): Store
    requires p.Data? ==> 0 <= p.idx < MAX_BLOCKS
  {
    match p
    case Node(n) => NodeWritten(st, n, a)
    case Data(f, k) => BlockWritten(st, f, k, a)
  }

  ghost function Then(j: Joint, e: Event): Joint
    requires Can(j, e)
  {
    match e
    case Start(p, dev) => j.(io := Submit(j.io, p, dev))
    case Lands(p, a, content) => j.(io := Land(j.io, p, a, content))
    case Ends(p) => j.(io := Complete(j.io, p), st := Publish(j.st, p, j.io.flights[p].addr))
    case Cut(f, k) => j.(io := Truncate(j.io, Data(f, k)), st := BlockWritten(j.st, f, k, 0))
    case Drop(nid) => j.(io := WritePipeline.Drop(j.io, Node(nid)), st := j.st.(book := BookInvalidate(j.st.book, nid)))
    case Unlink(f, d) => j.(io := UnlinkIo(j.io, f, d), st := Unlinked(j.st, f, d))
    case Walks(to) => j.(st := to)
    case HandOut(m, to) => j.(st := to)
    case Create(m, to) => j.(st := to.(dirty := to.dirty + {m}), files := j.files + {m})
    case Flush(nid) => j.(st := Flushed(j.st, nid))
  }

  ghost predicate CanAll(j: Joint, es: seq<Event>)
    decreases |es|
  {
    es == [] || (Can(j, es[0]) && CanAll(Then(j, es[0]), es[1..]))
  }

  ghost function ThenAll(j: Joint, es: seq<Event>): Joint
    requires CanAll(j, es)
    decreases |es|
  {
    if es == [] then j else ThenAll(Then(j, es[0]), es[1..])
  }

  // ----- Nothing a write relies on goes away -----

  /** Entries stay cached, nat_list only grows, and no walk that reached a node changes. */
  ghost predicate Keeps(a: Store, b: Store, files: set<int>) {
    && UsedGrows(a, b)
    && (forall n :: EntryOf(a.book, n).Some? ==> EntryOf(b.book, n).Some?)
    && (forall f, q {:trigger KeepsWalk(a, b, f, q)} :: f in files && IsPrefix(q) ==> KeepsWalk(a, b, f, q))
  }

  lemma ReadyKept(a: Store, b: Store, files: set<int>, more: set<int>, p: Page)
    requires Keeps(a, b, files) && files <= more && Ready(a, files, p)
    ensures Ready(b, more, p)
  {
    match p
    case Node(n) =>
    case Data(f, k) => assert KeepsWalk(a, b, f, Up(k, Depth(k)));
  }

  lemma ExtendsKeeps(a: Store, b: Store, files: set<int>)
    requires Core(a, files) && Core(b, files) && Extends(a, b, files)
    ensures Keeps(a, b, files)
  {
    ExtendsUsed(a, b, files);
    forall n | EntryOf(a.book, n).Some? ensures EntryOf(b.book, n).Some? {
      assert IsNid(n) && KeepsNid(a, b, n);
    }
  }

  lemma NodeWrittenKeeps(st: Store, files: set<int>, n: int, a: int)
    ensures Keeps(st, NodeWritten(st, n, a), files)
  {
  }

  lemma BlockWrittenKeeps(st: Store, files: set<int>, f: int, k: int, a: int)
    requires Core(st, files) && CanWrite(st, files, f, k) && (f == META_INO ==> a != 0)
    ensures Keeps(st, BlockWritten(st, f, k, a), files)
  {
    BlockWrittenStore(st, files, f, k, a);
    hide Core, CanWrite;
    forall g, q | g in files && IsPrefix(q) ensures KeepsWalk(st, BlockWritten(st, f, k, a), g, q) {
      assert SameWalk(st, BlockWritten(st, f, k, a), g, q);
    }
  }

  lemma DropKeeps(st: Store, files: set<int>, n: int)
    ensures Keeps(st, st.(book := BookInvalidate(st.book, n)), files)
  {
  }

  lemma FlushKeeps(st: Store, files: set<int>, n: int)
    requires n in st.book.used && 0 <= n
    ensures Keeps(st, Flushed(st, n), files)
  {
  }

  lemma CreateKeeps(a: Store, b: Store, files: set<int>, m: int)
    requires HandsOut(a, b, m)
    ensures Keeps(a, b.(dirty := b.dirty + {m}), files) && Keeps(a, b, files)
  {
  }

  // ----- The invariant over every run -----

  lemma StartOk(j: Joint, p: Page, dev: nat -> bool)
    requires Ok(j) && Can(j, Start(p, dev))
    ensures Ok(Then(j, Start(p, dev)))
  {
    SubmitSafe(j.io, p, dev);
    CoupledInFlight(j.io, j.st, j.files, p, dev, 0, DataBlk(0));
    hide Core, Coupled, Safe, Ready, CanSubmit;
    assert forall q :: q in Submit(j.io, p, dev).flights ==> q == p || q in j.io.flights;
  }

  lemma LandsOk(j: Joint, p: Page, a: int, content: Block)
    requires Ok(j) && Can(j, Lands(p, a, content))
    ensures Ok(Then(j, Lands(p, a, content)))
  {
    LandSafe(j.io, p, a, content);
    CoupledInFlight(j.io, j.st, j.files, p, n => true, a, content);
    hide Core, Coupled, Safe, Ready;
  }

  lemma EndsOk(j: Joint, p: Page)
    requires Ok(j) && Can(j, Ends(p))
    ensures Ok(Then(j, Ends(p)))
    ensures Keeps(j.st, Then(j, Ends(p)).st, j.files)
  {
    var a, j' := j.io.flights[p].addr, Then(j, Ends(p));
    assert OwnerOk(j.io, p) && a != 0;
    assert Ready(j.st, j.files, p);
    CompleteSafe(j.io, p);
    hide Safe;
    match p {
      case Node(n) =>
        NodeWrittenStore(j.st, j.files, n, a);
        CoupledNode(j.io, j.st, j.files, n);
        NodeWrittenKeeps(j.st, j.files, n, a);
      case Data(f, k) =>
        BlockWrittenStore(j.st, j.files, f, k, a);
        CoupledBlock(j.io, j.st, j.files, f, k);
        BlockWrittenKeeps(j.st, j.files, f, k, a);
    }
    hide Core, Coupled, CanWrite, Keeps, Ready, NodeWritten, BlockWritten;
    forall q | q in j'.io.flights ensures Ready(j'.st, j'.files, q) {
      assert Ready(j.st, j.files, q);
      ReadyKept(j.st, j'.st, j.files, j.files, q);
    }
  }

  lemma CutOk(j: Joint, f: int, k: int)
    requires Ok(j) && Can(j, Cut(f, k))
    ensures Ok(Then(j, Cut(f, k)))
    ensures Keeps(j.st, Then(j, Cut(f, k)).st, j.files)
  {
    var j' := Then(j, Cut(f, k));
    TruncateSafe(j.io, Data(f, k));
    BlockWrittenStore(j.st, j.files, f, k, 0);
    CoupledTruncate(j.io, j.st, j.files, f, k);
    BlockWrittenKeeps(j.st, j.files, f, k, 0);
    hide Core, Coupled, CanWrite, Keeps, Ready, Safe, BlockWritten, Truncate, CanTruncate;
    FlightsSame(j, j');
  }

  /** When the pipeline keeps its flights, what they rely on is kept too. */
  lemma FlightsSame(j: Joint, j': Joint)
    requires FlightsReady(j) && Keeps(j.st, j'.st, j.files) && j.files <= j'.files
    requires forall q :: q in j'.io.flights ==> q in j.io.flights
    ensures FlightsReady(j')
  {
    hide Keeps, Ready;
    forall q | q in j'.io.flights ensures Ready(j'.st, j'.files, q) {
      assert Ready(j.st, j.files, q);
      ReadyKept(j.st, j'.st, j.files, j'.files, q);
    }
  }

  lemma DropOk(j: Joint, nid: int)
    requires Ok(j) && Can(j, Drop(nid))
    ensures Ok(Then(j, Drop(nid)))
    ensures Keeps(j.st, Then(j, Drop(nid)).st, j.files)
  {
    var j' := Then(j, Drop(nid));
    DropSafe(j.io, Node(nid));
    CoupledDrop(j.io, j.st, j.files, nid);
    DropKeeps(j.st, j.files, nid);
    InvalidateCore(j.st, j.files, nid);
    hide Core, Coupled, Keeps, Ready, Safe;
    FlightsSame(j, j');
  }

  lemma InvalidateCore(st: Store, files: set<int>, nid: int)
    requires Core(st, files) && EntryOf(st.book, nid).Some?
    ensures Core(st.(book := BookInvalidate(st.book, nid)), files)
  {
    var b := st.(book := BookInvalidate(st.book, nid));
    forall n | 0 <= n ensures Busy(b, n) <==> Busy(st, n) {
    }
    forall f, q | f in files && IsPrefix(q) ensures Anchored(b, f, q) {
      assert Anchored(st, f, q);
    }
    forall k | 0 <= k < META_BLOCKS ensures PageReachable(b, k) {
      assert PageReachable(st, k);
    }
  }

  /** What the writes in flight rely on is not below the link. */
  lemma UnlinkOk(j: Joint, f: int, d: int)
    requires Ok(j) && Can(j, Unlink(f, d))
    ensures Ok(Then(j, Unlink(f, d)))
  {
    var j' := Then(j, Unlink(f, d));
    UnlinkStore(j.st, j.files, f, d);
    CoupledUnlink(j.io, j.st, j.files, f, d);
    DropsRun(j.io, f, Cutting.DirectBase(d), ADDRS_PER_BLOCK);
    RunSafe(j.io, Drops(f, Cutting.DirectBase(d), ADDRS_PER_BLOCK));
    hide Core, Coupled, Safe, Supply, CanRun, RunFrom, AddrAt;
    forall p | p in j'.io.flights ensures Ready(j'.st, j'.files, p) {
      assert Ready(j.st, j.files, p);
      if p.Data? {
        Cutting.DirectUp(d, p.idx);
        assert Up(p.idx, Depth(p.idx)) == Path(p.idx)[..|Path(p.idx)| - 1];
        assert Walk(j'.st.nodes, p.ino, Up(p.idx, Depth(p.idx))) == Walk(j.st.nodes, p.ino, Up(p.idx, Depth(p.idx)));
      }
    }
  }

  /** The steps that touch the table and the trees only. */
  lemma QuietOk(j: Joint, e: Event)
    requires Ok(j) && Can(j, e) && (e.Walks? || e.HandOut? || e.Create? || e.Flush?)
    ensures Ok(Then(j, e))
    ensures Keeps(j.st, Then(j, e).st, j.files)
  {
    match e {
      case Walks(to) =>
        ExtendsKeeps(j.st, to, j.files);
        CoupledExtends(j.io, j.st, to, j.files);
      case HandOut(m, to) =>
        HandOutStore(j.st, to, j.files, m);
        CreateKeeps(j.st, to, j.files, m);
        CoupledExtends(j.io, j.st, to, j.files);
      case Create(m, to) =>
        NewFileStore(j.st, to, j.files, m);
        CreateKeeps(j.st, to, j.files, m);
        CoupledNewFile(j.io, j.st, to, j.files, m);
      case Flush(nid) =>
        FlushedStore(j.st, j.files, nid);
        FlushKeeps(j.st, j.files, nid);
        CoupledFlush(j.io, j.st, j.files, nid);
    }
    hide Core, Coupled, Keeps, Ready, Safe, Extends, Flushed, HandsOut, Supply;
    FlightsSame(j, Then(j, e));
  }

  lemma StepOk(j: Joint, e: Event)
    requires Ok(j) && Can(j, e)
    ensures Ok(Then(j, e)) && UsedGrows(j.st, Then(j, e).st)
  {
    hide Ok;
    match e
    case Start(p, dev) => StartOk(j, p, dev);
    case Lands(p, a, content) => LandsOk(j, p, a, content);
    case Ends(p) => EndsOk(j, p);
    case Cut(f, k) => CutOk(j, f, k);
    case Drop(nid) => DropOk(j, nid);
    case Unlink(f, d) => UnlinkOk(j, f, d);
    case _ => QuietOk(j, e);
  }

  /**
   * Over every run: the table's invariant and the pipeline's hold together, the published addresses are
   * exactly those in the table and the slots, every write in flight keeps what it relies on, and nat_list
   * only grows.
   */
  lemma {:induction false} RunOk(j: Joint, es: seq<Event>)
    requires Ok(j) && CanAll(j, es)
    ensures Ok(ThenAll(j, es)) && UsedGrows(j.st, ThenAll(j, es).st)
    decreases |es|
  {
    hide Ok, Can;
    if es != [] {
      StepOk(j, es[0]);
      RunOk(Then(j, es[0]), es[1..]);
    }
  }

  /**
   * A nid handed out in a mount is never handed out again, whatever is written, flushed, invalidated,
   * truncated, walked or allocated in between.
   */
  lemma NeverTwiceInRun(j: Joint, first: Event, es: seq<Event>, again: Event)
    requires Ok(j) && (first.HandOut? || first.Create?) && (again.HandOut? || again.Create?)
    requires Can(j, first) && CanAll(Then(j, first), es) && Can(ThenAll(Then(j, first), es), again)
    ensures again.m != first.m
  {
    hide Ok, CanAll, ThenAll;
    var a := Then(j, first);
    StepOk(j, first);
    RunOk(a, es);
    var c := ThenAll(a, es);
    assert first.m in a.st.book.used;
    OkDisjoint(c, first.m);
  }

  lemma OkDisjoint(j: Joint, n: int)
    requires Ok(j) && n in j.st.book.used
    ensures n !in j.st.book.free
  {
    hide Coupled, Safe, FlightsReady;
  }

  // ----- What is handed out -----

  lemma StepUnshown(j: Joint, e: Event)
    requires Ok(j) && Can(j, e) && FreeUnshown(j.st)
    ensures FreeUnshown(Then(j, e).st)
  {
    hide Safe, Coupled, Believed, CanSubmit, CanUnlink, CanWrite;
    match e
    case Walks(to) => ExtendsUnshown(j.st, to, j.files);
    case Flush(nid) =>
      hide NodeWritten, BlockWritten;
      forall n | n in j.st.book.free ensures OnPage(Flushed(j.st, nid).pages, n) == OnPage(j.st.pages, n) {
        assert n != nid;
        SameEntry(n, nid);
      }
    case Drop(nid) =>
    case _ =>
  }

  lemma {:induction false} RunUnshown(j: Joint, es: seq<Event>)
    requires Ok(j) && CanAll(j, es) && FreeUnshown(j.st)
    ensures FreeUnshown(ThenAll(j, es).st)
    decreases |es|
  {
    hide Ok, Can, FreeUnshown;
    if es != [] {
      StepOk(j, es[0]);
      StepUnshown(j, es[0]);
      RunUnshown(Then(j, es[0]), es[1..]);
    }
  }

  /** After the run, the event takes a nid whose table page shows no address. */
  ghost predicate TakesUnshown(j: Joint, es: seq<Event>, e: Event) {
    CanAll(j, es) && (e.HandOut? || e.Create?) && Can(ThenAll(j, es), e) ==>
      0 <= e.m && OnPage(ThenAll(j, es).st.pages, e.m).addr == 0
  }

  /**
   * No run ever hands out a nid whose table page shows an address, if and only if no free entry of the cache
   * has one at the start.
   */
  lemma HandsOutUnshownIff(j: Joint)
    requires Ok(j)
    ensures FreeUnshown(j.st) <==> forall es, e {:trigger TakesUnshown(j, es, e)} :: TakesUnshown(j, es, e)
  {
    if FreeUnshown(j.st) {
      forall es, e ensures TakesUnshown(j, es, e) {
        if CanAll(j, es) && (e.HandOut? || e.Create?) && Can(ThenAll(j, es), e) {
          hide Ok, CanAll, ThenAll;
          RunUnshown(j, es);
        }
      }
    } else {
      var m :| m in j.st.book.free && !(0 <= m && OnPage(j.st.pages, m).addr == 0);
      var to := j.st.(book := BookTake(j.st.book, m));
      hide Coupled, Safe, FlightsReady;
      assert HandsOut(j.st, to, m);
      assert !TakesUnshown(j, [], HandOut(m, to));
    }
  }

  // ----- The accounting, by who holds a block -----

  /** The pipeline's part of a run. */
  function IoSteps(es: seq<Event>): seq<Step<Block>> {
    if es == [] then []
    else IoStep(es[0]) + IoSteps(es[1..])
  }

  function IoStep(e: Event): seq<Step<Block>> {
    match e
    case Start(p, dev) => [DoSubmit(p, dev)]
    case Lands(p, a, content) => [DoLand(p, a, content)]
    case Ends(p) => [DoComplete(p)]
    case Cut(f, k) => [DoTruncate(Data(f, k))]
    case Drop(nid) => [DoDrop(Node(nid))]
    case Unlink(f, d) => Drops(f, Cutting.DirectBase(d), ADDRS_PER_BLOCK)
    case _ => []
  }

  lemma {:induction false} RunProjects(j: Joint, es: seq<Event>)
    requires CanAll(j, es)
    ensures CanRun(j.io, IoSteps(es)) && RunFrom(j.io, IoSteps(es)) == ThenAll(j, es).io
    decreases |es|
  {
    if es != [] {
      var rest := IoSteps(es[1..]);
      StepProjects(j, es[0]);
      RunProjects(Then(j, es[0]), es[1..]);
      hide Can, Then, IoStep;
      RunSplit(j.io, IoStep(es[0]), rest);
    }
  }

  lemma StepProjects(j: Joint, e: Event)
    requires Can(j, e)
    ensures CanRun(j.io, IoStep(e)) && RunFrom(j.io, IoStep(e)) == Then(j, e).io
  {
    hide CanSubmit, Submit, CanLand, CanComplete, CanTruncate, Extends, HandsOut, Core, Drops, CanUnlink;
    if e.Unlink? {
      DropsRun(j.io, e.f, Cutting.DirectBase(e.d), ADDRS_PER_BLOCK);
    } else if IoStep(e) != [] {
      assert IoStep(e)[1..] == [];
    }
  }

  /** An entry of the table, or a slot of a node page, whose page is not in flight holds the block. */
  ghost predicate HeldByEntry(j: Joint, n: int, a: int) {
    0 <= n && Believed(j.st, n) == a && Node(n) !in j.io.flights
  }

  ghost predicate HeldBySlot(j: Joint, f: int, k: int, a: int) {
    f in j.files && 0 <= k < MAX_BLOCKS && AddrAt(j.st.nodes, f, k) == a && Data(f, k) !in j.io.flights
  }

  /**
   * Over every run in which nothing dropped leaks, neither an invalidated node nor a block still mapped below
   * a link that is cleared, a block outside zone 0 is marked valid exactly if the
   * mount did not find it unmarked and one table entry or one slot of a node page, and one only, holds it.
   */
  lemma RunAccounts(j: Joint, es: seq<Event>, a: int)
    requires Ok(j) && Exact(j.io) && CanAll(j, es)
    requires CanRun(j.io, IoSteps(es)) && Tight(j.io, IoSteps(es))
    ensures var j' := ThenAll(j, es);
            ZoneTable.InTable(j'.io.t, a) && ZoneTable.ZoneOf(j'.io.t.zoneSize, a) != 0 ==>
              (BitSet(j'.io.t, a) <==>
                 a !in j.io.unmarked
                 && ((exists n :: HeldByEntry(j', n, a)) || (exists f, k :: HeldBySlot(j', f, k, a))))
  {
    hide Ok, CanAll, ThenAll, CanRun, Tight, IoSteps, Exact, BitSet;
    var j' := ThenAll(j, es);
    RunOk(j, es);
    RunProjects(j, es);
    RunExactIff(j.io, IoSteps(es));
    OkCoupled(j);
    RunSafe(j.io, IoSteps(es));
    OkCoupled(j');
    ExactMeans(j'.io, a);
    if a != 0 {
      HolderIs(j', a);
    } else if ZoneTable.InTable(j'.io.t, a) {
      ZeroIsNowhere(j'.io.t.zoneSize);
    }
  }

  lemma OkCoupled(j: Joint)
    requires Ok(j)
    ensures Coupled(j.io, j.st, j.files) && Safe(j.io)
  {
  }

  lemma HolderIs(j: Joint, a: int)
    requires Coupled(j.io, j.st, j.files) && a != 0
    ensures (exists p :: p !in j.io.flights && AddrOf(j.io, p) == a)
       <==> (exists n :: HeldByEntry(j, n, a)) || (exists f, k :: HeldBySlot(j, f, k, a))
  {
    hide Believed, AddrAt;
    if p :| p !in j.io.flights && AddrOf(j.io, p) == a {
      assert SameAddr(j.io, j.st, j.files, p);
      match p
      case Node(n) => assert HeldByEntry(j, n, a);
      case Data(f, k) => assert HeldBySlot(j, f, k, a);
    }
    if n :| HeldByEntry(j, n, a) {
      assert SameAddr(j.io, j.st, j.files, Node(n));
      assert AddrOf(j.io, Node(n)) == a;
    }
    if f, k :| HeldBySlot(j, f, k, a) {
      assert SameAddr(j.io, j.st, j.files, Data(f, k));
      assert AddrOf(j.io, Data(f, k)) == a;
    }
  }

  /**
   * Clearing the link to a direct node with a marked block still mapped below it leaks that block for good,
   * as truncation to 901 blocks does with block 900: over every later run it stays marked and unowned.
   */
  lemma UnlinkLeaks(j: Joint, f: int, d: int, k: int, es: seq<Event>)
    requires Ok(j) && Can(j, Unlink(f, d)) && CanAll(Then(j, Unlink(f, d)), es)
    requires 0 <= k < MAX_BLOCKS && Cutting.InDirect(d, k)
    requires AddrAt(j.st.nodes, f, k) != 0 && AddrAt(j.st.nodes, f, k) !in j.io.unmarked
    ensures AddrAt(Then(j, Unlink(f, d)).st.nodes, f, k) == 0
    ensures Leaked(ThenAll(Then(j, Unlink(f, d)), es).io, AddrAt(j.st.nodes, f, k))
  {
    var m, a := Then(j, Unlink(f, d)), AddrAt(j.st.nodes, f, k);
    OkCoupled(j);
    UnlinkAddrs(j.st, j.files, f, d, k);
    assert SameAddr(j.io, j.st, j.files, Data(f, k));
    LeaksNow(j.io, f, d, k);
    hide Core, Safe, Leaked, CanAll, ThenAll, FlightsReady, AddrAt, Coupled;
    UnlinkOk(j, f, d);
    hide Ok;
    OkCoupled(m);
    RunProjects(m, es);
    LeakStaysForever(m.io, IoSteps(es), a);
  }

  lemma UnlinkAddrs(st: Store, files: set<int>, f: int, d: int, k: int)
    requires Core(st, files) && CanUnlink(st, files, f, d) && 0 <= k < MAX_BLOCKS && Cutting.InDirect(d, k)
    ensures AddrAt(Unlinked(st, f, d).nodes, f, k) == 0
  {
    UnlinkStore(st, files, f, d);
  }

  lemma LeaksNow(s: Io<Block>, f: int, d: int, k: int)
    requires Safe(s) && Cutting.InDirect(d, k) && Data(f, k) !in s.flights
    requires AddrOf(s, Data(f, k)) != 0 && AddrOf(s, Data(f, k)) !in s.unmarked
    ensures Leaked(UnlinkIo(s, f, d), AddrOf(s, Data(f, k)))
  {
    var p, lo := Data(f, k), Cutting.DirectBase(d);
    var one := WritePipeline.Drop(s, p);
    LeakedBlock(s, p);
    hide Safe, Leaked, Drops;
    DropSafe(s, p);
    DropsRun(one, f, lo, ADDRS_PER_BLOCK);
    LeakStaysForever(one, Drops(f, lo, ADDRS_PER_BLOCK), AddrOf(s, p));
    DropTwice(s, f, lo, ADDRS_PER_BLOCK, k);
  }

  /** Clearing the link keeps the accounting exact if and only if no marked block is mapped below the node. */
  lemma UnlinkAccountsIff(j: Joint, f: int, d: int)
    requires Ok(j) && Exact(j.io) && Can(j, Unlink(f, d))
    ensures Exact(Then(j, Unlink(f, d)).io)
       <==> forall k {:trigger AddrAt(j.st.nodes, f, k)} :: Cutting.InDirect(d, k) ==>
              AddrAt(j.st.nodes, f, k) == 0 || AddrAt(j.st.nodes, f, k) in j.io.unmarked
  {
    OkCoupled(j);
    UnlinkExactIff(j.io, j.st, j.files, f, d);
  }

  /** Over every run, no block is referenced twice. */
  lemma RunSharesNothing(j: Joint, es: seq<Event>, n: int, m: int, f: int, k: int, g: int, i: int)
    requires Ok(j) && CanAll(j, es) && 0 <= n && 0 <= m
    requires f in ThenAll(j, es).files && g in ThenAll(j, es).files && 0 <= k < MAX_BLOCKS && 0 <= i < MAX_BLOCKS
    ensures var st := ThenAll(j, es).st;
            && (Believed(st, n) == Believed(st, m) != 0 ==> n == m)
            && (AddrAt(st.nodes, f, k) == AddrAt(st.nodes, g, i) != 0 ==> f == g && k == i)
            && (Believed(st, n) == AddrAt(st.nodes, f, k) ==> Believed(st, n) == 0)
  {
    hide Ok, CanAll, ThenAll;
    RunOk(j, es);
    OkCoupled(ThenAll(j, es));
    NoSharedBlock(ThenAll(j, es).io, ThenAll(j, es).st, ThenAll(j, es).files, n, m, f, k, g, i);
  }

  // ----- Where a run starts -----

  /** The addresses a mount finds: those of the table and of the slots of all files. */
  ghost function MountAddrs(st: Store, files: set<int>, nids: nat): map<Page, int> {
    (map p | p in (set n | 0 <= n < nids :: Node(n)) :: Believed(st, p.nid))
    + (map p | p in (set f, k | f in files && 0 <= k < MAX_BLOCKS :: Data(f, k)) :: AddrAt(st.nodes, p.ino, p.idx))
  }

  ghost function Mounted(t: ZoneTable.Table, st: Store, files: set<int>, nids: nat, dev: Disk): Joint
    requires t.zoneSize >= ZoneTable.SECTORS_PER_BLOCK
  {
    Joint(AtMount(t, MountAddrs(st, files, nids), dev), st, files)
  }

  /** A mount that the pipeline and the table accept starts every run off right, with exact accounting. */
  lemma MountedOk(t: ZoneTable.Table, st: Store, files: set<int>, nids: nat, dev: Disk)
    requires Core(st, files) && MountOk(t, MountAddrs(st, files, nids), dev)
    requires forall n :: nids <= n ==> Believed(st, n) == 0
    ensures Ok(Mounted(t, st, files, nids, dev)) && Exact(Mounted(t, st, files, nids, dev).io)
  {
    MountExact(t, MountAddrs(st, files, nids), dev);
    MountedCoupled(t, st, files, nids, dev);
    hide Core, MountOk, Safe, Coupled, MountAddrs;
  }

  lemma MountedCoupled(t: ZoneTable.Table, st: Store, files: set<int>, nids: nat, dev: Disk)
    requires t.zoneSize >= ZoneTable.SECTORS_PER_BLOCK && forall n :: nids <= n ==> Believed(st, n) == 0
    ensures Coupled(AtMount(t, MountAddrs(st, files, nids), dev), st, files)
  {
    var s := AtMount(t, MountAddrs(st, files, nids), dev);
    hide Believed, AddrAt;
    forall p ensures SameAddr(s, st, files, p) {
      match p
      case Node(n) => assert Node(n) in s.addr <==> 0 <= n < nids;
      case Data(f, k) => assert Data(f, k) in s.addr <==> f in files && 0 <= k < MAX_BLOCKS;
    }
  }
}
