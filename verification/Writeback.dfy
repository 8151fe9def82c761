/**
 * Writing pages back: what stays true of memory and disk while any page that is not dirty agrees with
 * the block it was last written to.
 */
module Writeback {
  import opened Layout
  import opened BlockPath
  import opened NodeTree
  import opened NatCache
  import opened NatStore
  import opened Recovery

  /** `nats` and `blocks` are the table pages and file blocks that are dirty in the page cache. */
  datatype Image = Image(dev: Disk, data: FileData, nats: set<int>, blocks: set<(int, int)>)

  /** A published address is a written block, and a clean node page is what that block holds. */
  ghost predicate NodeTracked(st: Store, dev: Disk, n: int)
    requires 0 <= n
  {
    && (Believed(st, n) != 0 ==> Believed(st, n) in dev)
    && (n !in st.dirty ==> NodeAt(dev, Believed(st, n)) == Some(PageOf(st.nodes, n)))
  }

  ghost predicate PageTracked(st: Store, m: Image, b: int)
    requires 0 <= b < META_BLOCKS
  {
    b !in m.nats ==> PageSynced(st, m.dev, b)
  }

  ghost predicate BlockTracked(st: Store, m: Image, f: int, k: int)
    requires 0 <= k < MAX_BLOCKS
  {
    (f, k) !in m.blocks ==> BlockSynced(st, m.dev, m.data, f, k)
  }

  ghost predicate HasHome(st: Store, files: set<int>, f: int, k: int) {
    f in files && f != META_INO && 0 <= k < MAX_BLOCKS && Dnode(st.nodes, f, k) != 0
  }

  ghost predicate Tracked(st: Store, m: Image, files: set<int>) {
    && m.nats <= st.ready && (forall f, k :: (f, k) in m.data ==> f in files)
    && (forall f, k {:trigger HasHome(st, files, f, k)} :: (f, k) in m.blocks ==> HasHome(st, files, f, k))
    && (forall n {:trigger NodeTracked(st, m.dev, n)} :: 0 <= n ==> NodeTracked(st, m.dev, n))
    && (forall b {:trigger PageTracked(st, m, b)} :: 0 <= b < META_BLOCKS ==> PageTracked(st, m, b))
    && (forall f, k {:trigger BlockTracked(st, m, f, k)} ::
          f in files && f != META_INO && 0 <= k < MAX_BLOCKS ==> BlockTracked(st, m, f, k))
  }

  /** Walks, lookups and allocations leave everything that is clean where it is on disk. */
  lemma TrackedExtends(a: Store, b: Store, m: Image, files: set<int>)
    requires Tracked(a, m, files) && Extends(a, b, files) && META_INO in files
    ensures Tracked(b, m, files)
  {
    forall n | 0 <= n ensures NodeTracked(b, m.dev, n) {
      assert NodeTracked(a, m.dev, n) && KeepsNid(a, b, n);
    }
    forall k | 0 <= k < META_BLOCKS ensures PageTracked(b, m, k) {
      assert PageTracked(a, m, k) && KeepsAddr(a, b, META_INO, Path(k));
    }
    forall f, k | f in files && f != META_INO && 0 <= k < MAX_BLOCKS ensures BlockTracked(b, m, f, k) {
      assert BlockTracked(a, m, f, k) && KeepsAddr(a, b, f, Path(k));
    }
    forall f, k | (f, k) in m.blocks ensures HasHome(b, files, f, k) {
      assert HasHome(a, files, f, k) && KeepsWalk(a, b, f, Up(k, Depth(k)));
    }
  }

  /** Writing to a file block in memory. */
  lemma TrackedData(st: Store, m: Image, files: set<int>, f: int, k: int, content: int)
    requires Tracked(st, m, files) && HasHome(st, files, f, k)
    ensures Tracked(st, m.(data := m.data[(f, k) := content], blocks := m.blocks + {(f, k)}), files)
  {
    var m' := m.(data := m.data[(f, k) := content], blocks := m.blocks + {(f, k)});
    forall b | 0 <= b < META_BLOCKS ensures PageTracked(st, m', b) {
      assert PageTracked(st, m, b);
    }
    forall g, j | g in files && g != META_INO && 0 <= j < MAX_BLOCKS ensures BlockTracked(st, m', g, j) {
      assert BlockTracked(st, m, g, j);
    }
  }

  /** A new file: its node page is dirty, its blocks are holes. */
  lemma TrackedNewFile(a: Store, c: Store, m: Image, files: set<int>, ino: int)
    requires Tracked(a, m, files) && ino !in files && c.nodes == a.nodes && c.ready == a.ready && c.pages == a.pages
    requires c.dirty == a.dirty + {ino}
    requires forall n {:trigger Believed(c, n)} :: 0 <= n ==> Believed(c, n) == Believed(a, n)
    requires forall k {:trigger AddrAt(c.nodes, ino, k)} :: 0 <= k < MAX_BLOCKS ==> AddrAt(c.nodes, ino, k) == 0
    ensures Tracked(c, m, files + {ino})
  {
    hide AddrAt, Believed;
    forall n | 0 <= n ensures NodeTracked(c, m.dev, n) {
      assert NodeTracked(a, m.dev, n);
    }
    forall b | 0 <= b < META_BLOCKS ensures PageTracked(c, m, b) {
      assert PageTracked(a, m, b);
    }
    forall f, k | f in files + {ino} && f != META_INO && 0 <= k < MAX_BLOCKS ensures BlockTracked(c, m, f, k) {
      if f == ino {
        assert AddrAt(c.nodes, ino, k) == 0;
      } else {
        assert BlockTracked(a, m, f, k);
      }
    }
    forall f, k | (f, k) in m.blocks ensures HasHome(c, files + {ino}, f, k) {
      assert HasHome(a, files, f, k);
    }
  }

  /** A clean hole reads as zeroes. */
  lemma HoleReadsZero(st: Store, m: Image, files: set<int>, f: int, k: int)
    requires Tracked(st, m, files) && f in files && f != META_INO && 0 <= k < MAX_BLOCKS && (f, k) !in m.blocks
    ensures AddrAt(st.nodes, f, k) == 0 ==> InMemory(m.data, f, k) == 0
  {
    assert BlockTracked(st, m, f, k);
  }

  // ----- A node page -----

  /** `update_nat` when the write of node `n` ends at `a`. */
  function NodeWritten(st: Store, n: int, a: int): Store {
    st.(book := BookUpdate(st.book, n, a, false), dirty := st.dirty - {n})
  }

  /** Publishing a node's address moves that node and nothing else. */
  lemma NodeWrittenStore(st: Store, files: set<int>, n: int, a: int)
    requires Core(st, files) && n in st.book.used && a != 0
    ensures 0 < n && Core(NodeWritten(st, n, a), files)
    ensures Supply(st) ==> Supply(NodeWritten(st, n, a))
    ensures var b := NodeWritten(st, n, a);
            && (forall j :: 0 <= j ==> Believed(b, j) == if j == n then a else Believed(st, j))
            && (forall j :: 0 <= j ==> (Stale(b, j) ==> Stale(st, j)))
  {
    var b := NodeWritten(st, n, a);
    forall j | 0 <= j ensures Busy(b, j) <==> Busy(st, j) {
    }
    forall f, q | f in files && IsPrefix(q) ensures Anchored(b, f, q) {
      assert Anchored(st, f, q);
    }
    forall k | 0 <= k < META_BLOCKS ensures PageReachable(b, k) {
      assert PageReachable(st, k);
    }
    if Supply(st) {
      assert FreeLow(b) == FreeLow(st);
    }
  }

  lemma TrackedNodeNode(st: Store, m: Image, files: set<int>, n: int, a: int, j: int)
    requires Tracked(st, m, files) && n in st.book.used && a != 0 && a !in m.dev && 0 <= j
    ensures NodeTracked(NodeWritten(st, n, a), m.dev[a := NodeBlk(PageOf(st.nodes, n))], j)
  {
    assert NodeTracked(st, m.dev, j);
    hide Tracked;
  }

  lemma TrackedNodeBlock(st: Store, m: Image, files: set<int>, n: int, a: int, f: int, k: int)
    requires Tracked(st, m, files) && n in st.book.used && a != 0 && a !in m.dev
    requires f in files && 0 <= k < MAX_BLOCKS
    ensures var b, m' := NodeWritten(st, n, a), m.(dev := m.dev[a := NodeBlk(PageOf(st.nodes, n))]);
            && (f != META_INO ==> BlockTracked(b, m', f, k))
            && (k < META_BLOCKS ==> PageTracked(b, m', k))
  {
    assert f != META_INO ==> BlockTracked(st, m, f, k);
    assert k < META_BLOCKS ==> PageTracked(st, m, k);
    hide Tracked, AddrAt;
  }

  lemma TrackedNode(st: Store, m: Image, files: set<int>, n: int, a: int)
    requires Tracked(st, m, files) && Core(st, files) && n in st.book.used
    requires a != 0 && a !in m.dev
    ensures Tracked(NodeWritten(st, n, a), m.(dev := m.dev[a := NodeBlk(PageOf(st.nodes, n))]), files)
  {
    MetaIn(st, files);
    var b := NodeWritten(st, n, a);
    var m' := m.(dev := m.dev[a := NodeBlk(PageOf(st.nodes, n))]);
    forall f, k | (f, k) in m.blocks ensures HasHome(b, files, f, k) {
      assert HasHome(st, files, f, k);
    }
    hide Core, NodeTracked, PageTracked, BlockTracked, HasHome;
    forall j | 0 <= j ensures NodeTracked(b, m'.dev, j) {
      TrackedNodeNode(st, m, files, n, a, j);
    }
    forall k | 0 <= k < META_BLOCKS ensures PageTracked(b, m', k) {
      TrackedNodeBlock(st, m, files, n, a, META_INO, k);
    }
    forall f, k | f in files && f != META_INO && 0 <= k < MAX_BLOCKS ensures BlockTracked(b, m', f, k) {
      TrackedNodeBlock(st, m, files, n, a, f, k);
    }
  }

  // ----- A block of a file, the table file included -----

  /** The slot of the node page that holds the address of block `k` takes `a`. */
  function BlockWritten(st: Store, f: int, k: int, a: int): Store
    requires 0 <= k < MAX_BLOCKS
  {
    st.(nodes := Put(st.nodes, f, Path(k), a), dirty := st.dirty + {Dnode(st.nodes, f, k)})
  }

  ghost predicate CanWrite(st: Store, files: set<int>, f: int, k: int) {
    && f in files && 0 <= k < MAX_BLOCKS && Dnode(st.nodes, f, k) != 0
    && EntryOf(st.book, Dnode(st.nodes, f, k)).Some?
  }

  lemma WriteTarget(st: Store, files: set<int>, f: int, k: int)
    requires Core(st, files) && CanWrite(st, files, f, k)
    ensures CanStore(st.nodes, files, f, Path(k)) && Path(k)[..|Path(k)| - 1] == Up(k, Depth(k))
    ensures var d := Dnode(st.nodes, f, k); d in st.book.used && (f == META_INO ==> d < LOW_NIDS)
  {
    PrefixesOfPath(Path(k), |Path(k)| - 1);
    assert Anchored(st, f, Up(k, Depth(k)));
  }

  /** Publishing a block's address changes that address of that file and no belief about any node. */
  lemma BlockWrittenStore(st: Store, files: set<int>, f: int, k: int, a: int)
    requires Core(st, files) && CanWrite(st, files, f, k) && (f == META_INO ==> a != 0)
    ensures Core(BlockWritten(st, f, k, a), files)
    ensures Supply(st) ==> Supply(BlockWritten(st, f, k, a))
    ensures var b := BlockWritten(st, f, k, a);
            && (forall g, j {:trigger AddrAt(b.nodes, g, j)} :: g in files && 0 <= j < MAX_BLOCKS ==>
                  AddrAt(b.nodes, g, j) == if g == f && j == k then a else AddrAt(st.nodes, g, j))
            && (forall g, q {:trigger SameWalk(st, b, g, q)} :: g in files && IsPrefix(q) ==> SameWalk(st, b, g, q))
  {
    WriteTarget(st, files, f, k);
    var b := BlockWritten(st, f, k, a);
    StoreKeepsForest(st.nodes, files, f, Path(k), a);
    forall g, q | g in files && IsPrefix(q) ensures SameWalk(st, b, g, q) && Anchored(b, g, q) {
      StoreWalk(st.nodes, files, f, Path(k), a, g, q);
      assert Anchored(st, g, q);
    }
    forall g, j | g in files && 0 <= j < MAX_BLOCKS
      ensures AddrAt(b.nodes, g, j) == if g == f && j == k then a else AddrAt(st.nodes, g, j)
    {
      StoreAddrAt(st.nodes, files, f, k, a, g, j);
    }
    assert Anchored(st, f, Up(k, Depth(k)));
    forall j | 0 <= j < META_BLOCKS ensures PageReachable(b, j) {
      assert PageReachable(st, j) && SameWalk(st, b, META_INO, Up(j, Depth(j)));
    }
    if Supply(st) {
      SameAbsent(st, b, files);
    }
  }

  lemma SameAbsent(st: Store, b: Store, files: set<int>)
    requires META_INO in files && b.book == st.book && b.pages == st.pages
    requires forall g, q {:trigger SameWalk(st, b, g, q)} :: g in files && IsPrefix(q) ==> SameWalk(st, b, g, q)
    ensures FreeLow(b) == FreeLow(st) && Absent(b.nodes) == Absent(st.nodes)
  {
    forall k, i | 0 <= k < META_BLOCKS && 0 <= i <= Depth(k)
      ensures Walk(b.nodes, META_INO, Up(k, i)) == Walk(st.nodes, META_INO, Up(k, i))
    {
      assert SameWalk(st, b, META_INO, Up(k, i));
    }
    assert forall q :: q in Absent(b.nodes) <==> q in Absent(st.nodes);
  }

  /** The image after block `k` of `f` went to `a`: a table page from memory, or file data. */
  function BlockOut(st: Store, m: Image, f: int, k: int, a: int): Image {
    if f == META_INO then m.(dev := m.dev[a := NatBlk(Content(st.pages, k))], nats := m.nats - {k})
    else m.(dev := m.dev[a := DataBlk(InMemory(m.data, f, k))], blocks := m.blocks - {(f, k)})
  }

  /** Only the node page that took the address changes, and that one is dirty now. */
  lemma TrackedBlockNodes(st: Store, m: Image, files: set<int>, f: int, k: int, a: int, n: int)
    requires Tracked(st, m, files) && Core(st, files) && CanWrite(st, files, f, k)
    requires a !in m.dev && 0 <= n
    ensures NodeTracked(BlockWritten(st, f, k, a), BlockOut(st, m, f, k, a).dev, n)
  {
    assert NodeTracked(st, m.dev, n);
    WriteTarget(st, files, f, k);
    hide Core, Tracked;
  }

  lemma MetaIn(st: Store, files: set<int>)
    requires Core(st, files)
    ensures META_INO in files
  {
  }

  lemma BlockWrittenAddr(st: Store, files: set<int>, f: int, k: int, a: int, g: int, j: int)
    requires Core(st, files) && CanWrite(st, files, f, k) && g in files && 0 <= j < MAX_BLOCKS
    ensures AddrAt(BlockWritten(st, f, k, a).nodes, g, j) == if g == f && j == k then a else AddrAt(st.nodes, g, j)
  {
    WriteTarget(st, files, f, k);
    StoreAddrAt(st.nodes, files, f, k, a, g, j);
  }

  lemma TrackedBlockPages(st: Store, m: Image, files: set<int>, f: int, k: int, a: int, j: int)
    requires Tracked(st, m, files) && Core(st, files) && CanWrite(st, files, f, k)
    requires a != 0 && a !in m.dev && 0 <= j < META_BLOCKS
    ensures PageTracked(BlockWritten(st, f, k, a), BlockOut(st, m, f, k, a), j)
  {
    assert PageTracked(st, m, j);
    hide Core, Tracked, AddrAt, Walk, Put, CanWrite, Dnode;
    MetaIn(st, files);
    BlockWrittenAddr(st, files, f, k, a, META_INO, j);
  }

  lemma TrackedBlockData(st: Store, m: Image, files: set<int>, f: int, k: int, a: int, g: int, j: int)
    requires Tracked(st, m, files) && Core(st, files) && CanWrite(st, files, f, k)
    requires a != 0 && a !in m.dev && g in files && g != META_INO && 0 <= j < MAX_BLOCKS
    ensures BlockTracked(BlockWritten(st, f, k, a), BlockOut(st, m, f, k, a), g, j)
  {
    hide Core, AddrAt, Walk, Put, CanWrite, Dnode;
    assert BlockTracked(st, m, g, j);
    BlockWrittenAddr(st, files, f, k, a, g, j);
    hide Tracked;
  }

  lemma TrackedBlock(st: Store, m: Image, files: set<int>, f: int, k: int, a: int)
    requires Tracked(st, m, files) && Core(st, files) && CanWrite(st, files, f, k)
    requires a != 0 && a !in m.dev && (f == META_INO ==> k < META_BLOCKS)
    ensures Tracked(BlockWritten(st, f, k, a), BlockOut(st, m, f, k, a), files)
  {
    var b, m' := BlockWritten(st, f, k, a), BlockOut(st, m, f, k, a);
    forall g, j | (g, j) in m'.blocks ensures HasHome(b, files, g, j) {
      BlockWrittenStore(st, files, f, k, a);
      assert HasHome(st, files, g, j) && SameWalk(st, b, g, Up(j, Depth(j)));
    }
    hide Core, AddrAt, Walk, Put, CanWrite, NodeTracked, PageTracked, BlockTracked;
    forall n | 0 <= n ensures NodeTracked(b, m'.dev, n) {
      TrackedBlockNodes(st, m, files, f, k, a, n);
    }
    forall j | 0 <= j < META_BLOCKS ensures PageTracked(b, m', j) {
      TrackedBlockPages(st, m, files, f, k, a, j);
    }
    forall g, j | g in files && g != META_INO && 0 <= j < MAX_BLOCKS ensures BlockTracked(b, m', g, j) {
      TrackedBlockData(st, m, files, f, k, a, g, j);
    }
  }

  /** Truncation takes block `k` of `f` out of memory and out of its slot: the hole it leaves reads as zeroes. */
  lemma TrackedCut(st: Store, m: Image, files: set<int>, f: int, k: int)
    requires Tracked(st, m, files) && Core(st, files) && CanWrite(st, files, f, k) && f != META_INO
    ensures Tracked(BlockWritten(st, f, k, 0), m.(data := m.data - {(f, k)}, blocks := m.blocks - {(f, k)}), files)
  {
    var b, m' := BlockWritten(st, f, k, 0), m.(data := m.data - {(f, k)}, blocks := m.blocks - {(f, k)});
    MetaIn(st, files);
    forall g, j | (g, j) in m'.blocks ensures HasHome(b, files, g, j) {
      BlockWrittenStore(st, files, f, k, 0);
      assert HasHome(st, files, g, j) && SameWalk(st, b, g, Up(j, Depth(j)));
    }
    forall n | 0 <= n ensures NodeTracked(b, m'.dev, n) {
      CutNodes(st, m, files, f, k, n);
    }
    hide Core, AddrAt, Walk, Put, CanWrite, NodeTracked, Dnode;
    forall j | 0 <= j < META_BLOCKS ensures PageTracked(b, m', j) {
      assert PageTracked(st, m, j);
      BlockWrittenAddr(st, files, f, k, 0, META_INO, j);
    }
    forall g, j | g in files && g != META_INO && 0 <= j < MAX_BLOCKS ensures BlockTracked(b, m', g, j) {
      assert BlockTracked(st, m, g, j);
      BlockWrittenAddr(st, files, f, k, 0, g, j);
    }
  }

  lemma CutNodes(st: Store, m: Image, files: set<int>, f: int, k: int, n: int)
    requires Tracked(st, m, files) && Core(st, files) && CanWrite(st, files, f, k) && 0 <= n
    ensures NodeTracked(BlockWritten(st, f, k, 0), m.dev, n)
  {
    assert NodeTracked(st, m.dev, n);
    WriteTarget(st, files, f, k);
    hide Core, Tracked;
  }

  // ----- Flushing an entry to its table page -----

  /** One round of `flush_nat`: the entry of `n` is copied to its page and is clean again. */
  function Flushed(st: Store, n: int): Store
    requires n in st.book.used && 0 <= n
  {
    var e := st.book.used[n];
    st.(book := st.book.(used := st.book.used[n := e.(dirty := false)]),
        pages := st.pages[n / NAT_ENTRY_PER_BLOCK :=
          Content(st.pages, n / NAT_ENTRY_PER_BLOCK)[n % NAT_ENTRY_PER_BLOCK := RawNat(e.ino, e.addr)]])
  }

  lemma FlushedStore(st: Store, files: set<int>, n: int)
    requires Core(st, files) && n in st.book.used && n / NAT_ENTRY_PER_BLOCK in st.ready
    ensures 0 < n && Core(Flushed(st, n), files)
    ensures Supply(st) ==> Supply(Flushed(st, n))
    ensures var b := Flushed(st, n);
            && (forall j :: 0 <= j ==> Believed(b, j) == Believed(st, j))
            && (forall j :: 0 <= j ==>
                OnPage(b.pages, j)
                == if j == n then RawNat(st.book.used[n].ino, st.book.used[n].addr) else OnPage(st.pages, j))
  {
    var b := Flushed(st, n);
    forall j | 0 <= j
      ensures Believed(b, j) == Believed(st, j) && (Busy(b, j) <==> Busy(st, j))
      ensures OnPage(b.pages, j) == if j == n
          then RawNat(st.book.used[n].ino, st.book.used[n].addr) else OnPage(st.pages, j)
    {
      SameEntry(n, j);
    }
    forall f, q | f in files && IsPrefix(q) ensures Anchored(b, f, q) {
      assert Anchored(st, f, q);
    }
    forall k | 0 <= k < META_BLOCKS ensures PageReachable(b, k) {
      assert PageReachable(st, k);
    }
    if Supply(st) {
      assert FreeLow(b) == FreeLow(st);
    }
  }

  lemma SameEntry(n: int, j: int)
    ensures n / NAT_ENTRY_PER_BLOCK == j / NAT_ENTRY_PER_BLOCK && n % NAT_ENTRY_PER_BLOCK == j % NAT_ENTRY_PER_BLOCK
        ==> n == j
  {
  }

  lemma TrackedFlush(st: Store, m: Image, files: set<int>, n: int)
    requires Tracked(st, m, files) && Core(st, files) && n in st.book.used && n / NAT_ENTRY_PER_BLOCK in st.ready
    ensures 0 < n && Tracked(Flushed(st, n), m.(nats := m.nats + {n / NAT_ENTRY_PER_BLOCK}), files)
  {
    FlushedStore(st, files, n);
    hide Core;
    var b, m' := Flushed(st, n), m.(nats := m.nats + {n / NAT_ENTRY_PER_BLOCK});
    forall j | 0 <= j ensures NodeTracked(b, m'.dev, j) {
      assert NodeTracked(st, m.dev, j);
    }
    forall k | 0 <= k < META_BLOCKS ensures PageTracked(b, m', k) {
      assert PageTracked(st, m, k);
    }
    forall f, k | f in files && f != META_INO && 0 <= k < MAX_BLOCKS ensures BlockTracked(b, m', f, k) {
      assert BlockTracked(st, m, f, k);
    }
    forall f, k | (f, k) in m.blocks ensures HasHome(b, files, f, k) {
      assert HasHome(st, files, f, k);
    }
  }
}
