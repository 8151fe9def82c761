/**
 * The node address table together with the node pages it serves.  The table is itself a file (inode
 * 1), so reading one of its pages walks node pages, and finding those asks the table again.
 */
module NatStore {
  import opened Layout
  import opened BlockPath
  import opened NodeTree
  import opened NatCache

  /** nids whose table page hangs directly off inode 1: 900 pages of NAT_ENTRY_PER_BLOCK entries. */
  const LOW_NIDS := ADDRS_PER_INODE * NAT_ENTRY_PER_BLOCK
  /** Table blocks end where the zone information table starts; the meta file ends at the summaries. */
  const NAT_BLOCKS := 600000
  const META_BLOCKS := 800000

  /**
   * `ready` holds the table pages that are up to date in the page cache, `dirty` the node pages that
   * changed since they were last written.
   */
  datatype Store = Store(book: Book, nodes: Nodes, pages: NatPages, ready: set<int>, dirty: set<int>)

  /** The nids in circulation: table blocks 0-899 for the meta range, 6000-599999 for the rest. */
  predicate IsNid(n: int) {
    n == META_INO || 3 <= n < LOW_NIDS || REG_NID_START <= n < NAT_BLOCKS * NAT_ENTRY_PER_BLOCK
  }

  /** The table file's own nids fill its first 900 pages, the regular ones pages 6000 to 599999. */
  lemma NidsAre(n: int)
    ensures IsNid(n) <==> n == 1 || 3 <= n < 409500 || 2730000 <= n < 273000000
    ensures 0 <= n ==> (IsNid(n) && n >= 3 <==> n >= 3 && (n / 455 < 900 || 6000 <= n / 455 < 600000))
  {
  }

  predicate Busy(st: Store, n: int)
    requires 0 <= n
  {
    InUse(st.book, st.pages, n)
  }

  function Believed(st: Store, n: int): int
    requires 0 <= n
  {
    View(st.book, st.pages, n)
  }

  /** The first `k` steps of the way to a block. */
  function Up(idx: int, k: nat): (q: seq<int>)
    requires 0 <= idx < MAX_BLOCKS && k < |Path(idx)|
    ensures IsPrefix(q)
  {
    Path(idx)[..k]
  }

  function Depth(idx: int): (d: nat)
    requires 0 <= idx < MAX_BLOCKS
  {
    |Path(idx)| - 1
  }

  /** The node page that holds the address of a block, or 0. */
  function Dnode(nodes: Nodes, ino: int, idx: int): int
    requires 0 <= idx < MAX_BLOCKS
  {
    Walk(nodes, ino, Up(idx, Depth(idx)))
  }

  /** A node that is reached has been handed out; below inode 1 its nid is low. */
  ghost predicate Anchored(st: Store, f: int, q: seq<int>)
    requires IsPrefix(q)
  {
    var w := Walk(st.nodes, f, q);
    w != 0 ==> IsNid(w) && Busy(st, w) && (f == META_INO ==> w < LOW_NIDS)
  }

  /** Cached nids are in circulation; a free one is on one list only and has no address. */
  ghost predicate BookInRange(k: Book) {
    && (forall n :: n in k.used ==> IsNid(n))
    && (forall n :: n in k.free ==> IsNid(n) && 3 <= n && n !in k.used && k.free[n].addr == 0)
  }

  /** A page is up to date only below an existing node; a hole that is not up to date is empty. */
  ghost predicate PageReachable(st: Store, b: int)
    requires 0 <= b < META_BLOCKS
  {
    && (b in st.ready ==> Dnode(st.nodes, META_INO, b) != 0)
    && (b !in st.ready && AddrAt(st.nodes, META_INO, b) == 0 ==> b !in st.pages)
  }

  ghost predicate PagesReachable(st: Store) {
    && (forall b :: b in st.ready || b in st.pages ==> 0 <= b < META_BLOCKS)
    && (forall b {:trigger PageReachable(st, b)} :: 0 <= b < META_BLOCKS ==> PageReachable(st, b))
  }

  /** The invariant of the self-hosted table. */
  ghost predicate Core(st: Store, files: set<int>) {
    && BookInRange(st.book) && META_INO in st.book.used
    && META_INO in files && Forest(st.nodes, files)
    && (forall f, q {:trigger Anchored(st, f, q)} :: f in files && IsPrefix(q) ==> Anchored(st, f, q))
    && (forall n :: n in st.nodes ==> 0 <= n && Busy(st, n))
    && (forall n :: n in st.dirty ==> n in st.book.used)
    && PagesReachable(st)
  }

  /** Free low nids, and the nodes of the meta file that do not exist yet. */
  ghost function FreeLow(st: Store): set<int> {
    set n | 3 <= n < LOW_NIDS && !Busy(st, n)
  }

  ghost function FreeRegular(st: Store): set<int> {
    set n | REG_NID_START <= n < NAT_BLOCKS * NAT_ENTRY_PER_BLOCK && !Busy(st, n)
  }

  ghost function Absent(nodes: Nodes): set<seq<int>> {
    set b, k | 0 <= b < META_BLOCKS && 0 <= k <= Depth(b) && Walk(nodes, META_INO, Up(b, k)) == 0 :: Up(b, k)
  }

  /** There are at least as many free low nids as nodes the meta file can still ask for. */
  ghost predicate Supply(st: Store) {
    |FreeLow(st)| >= |Absent(st.nodes)|
  }

  // ----- What an operation may change -----

  /** A cached address that the next flush will not write although the table page shows another. */
  predicate Stale(st: Store, n: int)
    requires 0 <= n
  {
    && OnPage(st.pages, n).addr != Believed(st, n)
    && (n in st.book.used ==> !st.book.used[n].dirty)
  }

  ghost predicate KeepsNid(a: Store, b: Store, n: int)
    requires 0 <= n
  {
    && Believed(b, n) == Believed(a, n)
    && (Busy(a, n) ==> Busy(b, n))
    && (n in a.book.used ==> n in b.book.used && b.book.used[n] == a.book.used[n])
    && (EntryOf(a.book, n).Some? ==> EntryOf(b.book, n).Some?)
    && (Stale(b, n) ==> Stale(a, n))
    && (n !in b.dirty ==> n !in a.dirty && PageOf(b.nodes, n) == PageOf(a.nodes, n))
    && (n in b.dirty ==> n in a.dirty || PageOf(b.nodes, n) != Zeroes(NIDS_PER_BLOCK))
    && (PageOf(a.nodes, n) != Zeroes(NIDS_PER_BLOCK) ==> PageOf(b.nodes, n) != Zeroes(NIDS_PER_BLOCK))
  }

  ghost predicate KeepsWalk(a: Store, b: Store, f: int, q: seq<int>)
    requires IsPrefix(q)
  {
    Walk(a.nodes, f, q) != 0 ==> Walk(b.nodes, f, q) == Walk(a.nodes, f, q)
  }

  ghost predicate KeepsAddr(a: Store, b: Store, f: int, p: seq<int>)
    requires IsPath(p)
  {
    Addr(b.nodes, f, p) == Addr(a.nodes, f, p)
  }

  ghost predicate SameWalk(a: Store, b: Store, f: int, q: seq<int>)
    requires IsPrefix(q)
  {
    Walk(b.nodes, f, q) == Walk(a.nodes, f, q)
  }

  /**
   * No belief about any nid and no block address of any file changes; node trees only grow; entries
   * already on nat_list stay as they are.
   */
  ghost predicate Extends(a: Store, b: Store, files: set<int>) {
    && b.pages == a.pages && a.ready <= b.ready
    && (forall n {:trigger KeepsNid(a, b, n)} :: 0 <= n ==> KeepsNid(a, b, n))
    && (forall f, q {:trigger KeepsWalk(a, b, f, q)} :: f in files && IsPrefix(q) ==> KeepsWalk(a, b, f, q))
    && (forall f, p {:trigger KeepsAddr(a, b, f, p)} :: f in files && IsPath(p) ==> KeepsAddr(a, b, f, p))
  }

  /** As `Extends`, and only the meta file grows, from low nids. */
  ghost predicate Grows(a: Store, b: Store, files: set<int>) {
    && Extends(a, b, files)
    && (forall n {:trigger KeepsNid(a, b, n)} :: LOW_NIDS <= n ==>
          (Busy(b, n) <==> Busy(a, n)) && (n in b.dirty ==> n in a.dirty))
    && (forall f, q {:trigger SameWalk(a, b, f, q)} :: f in files && f != META_INO && IsPrefix(q) ==>
        SameWalk(a, b, f, q))
  }

  /** As `Grows`, and no node is touched and nothing handed out: only the cache fills up. */
  ghost predicate Reads(a: Store, b: Store, files: set<int>) {
    && Extends(a, b, files)
    && b.nodes == a.nodes && b.dirty == a.dirty
    && (forall n {:trigger KeepsNid(a, b, n)} :: 0 <= n ==> (Busy(b, n) <==> Busy(a, n)))
  }

  lemma UsedNid(st: Store, files: set<int>, n: int)
    requires Core(st, files) && n in st.book.used
    ensures IsNid(n)
  {
  }

  lemma ExtendsTrans(a: Store, b: Store, c: Store, files: set<int>)
    requires Extends(a, b, files) && Extends(b, c, files)
    ensures Extends(a, c, files)
  {
    forall n | 0 <= n ensures KeepsNid(a, c, n) {
      assert KeepsNid(a, b, n) && KeepsNid(b, c, n);
    }
    forall f, q | f in files && IsPrefix(q) ensures KeepsWalk(a, c, f, q) {
      assert KeepsWalk(a, b, f, q) && KeepsWalk(b, c, f, q);
    }
    forall f, p | f in files && IsPath(p) ensures KeepsAddr(a, c, f, p) {
      assert KeepsAddr(a, b, f, p) && KeepsAddr(b, c, f, p);
    }
  }

  lemma GrowsTrans(a: Store, b: Store, c: Store, files: set<int>)
    requires Grows(a, b, files) && Grows(b, c, files)
    ensures Grows(a, c, files)
  {
    ExtendsTrans(a, b, c, files);
    forall n | LOW_NIDS <= n ensures (Busy(c, n) <==> Busy(a, n)) && (n in c.dirty ==> n in a.dirty) {
      assert KeepsNid(a, b, n) && KeepsNid(b, c, n);
    }
    forall f, q | f in files && f != META_INO && IsPrefix(q) ensures SameWalk(a, c, f, q) {
      assert SameWalk(a, b, f, q) && SameWalk(b, c, f, q);
    }
  }

  lemma ReadsTrans(a: Store, b: Store, c: Store, files: set<int>)
    requires Reads(a, b, files) && Reads(b, c, files)
    ensures Reads(a, c, files)
  {
    ExtendsTrans(a, b, c, files);
    forall n | 0 <= n ensures Busy(c, n) <==> Busy(a, n) {
      assert KeepsNid(a, b, n) && KeepsNid(b, c, n);
    }
  }

  lemma ReadsGrows(a: Store, b: Store, files: set<int>)
    requires Reads(a, b, files)
    ensures Grows(a, b, files)
    ensures FreeLow(b) == FreeLow(a) && (Supply(a) ==> Supply(b))
  {
    forall n | 0 <= n ensures Busy(b, n) <==> Busy(a, n) {
      assert KeepsNid(a, b, n);
    }
  }

  lemma GrowsFreeRegular(a: Store, b: Store, files: set<int>)
    requires Grows(a, b, files)
    ensures FreeRegular(b) == FreeRegular(a)
  {
    forall n | LOW_NIDS <= n ensures Busy(b, n) <==> Busy(a, n) {
      assert KeepsNid(a, b, n);
    }
  }

  lemma Refl(a: Store, files: set<int>)
    ensures Reads(a, a, files) && Grows(a, a, files)
  {
  }

  // ----- Steps -----

  /** The parts of `Core` that depend on which nids are busy. */
  lemma CarryAnchors(a: Store, b: Store, files: set<int>)
    requires Core(a, files) && b.nodes == a.nodes && b.dirty == a.dirty
    requires forall n {:trigger KeepsNid(a, b, n)} :: 0 <= n ==> KeepsNid(a, b, n)
    ensures forall f, q {:trigger Anchored(b, f, q)} :: f in files && IsPrefix(q) ==> Anchored(b, f, q)
    ensures forall n :: n in b.nodes ==> 0 <= n && Busy(b, n)
    ensures forall n :: n in b.dirty ==> n in b.book.used
  {
    forall n | n in b.dirty ensures n in b.book.used {
      assert IsNid(n);
      assert KeepsNid(a, b, n);
    }
    forall f, q | f in files && IsPrefix(q) ensures Anchored(b, f, q) {
      assert Anchored(a, f, q);
      var w := Walk(a.nodes, f, q);
      if w != 0 {
        assert KeepsNid(a, b, w);
      }
    }
    forall n | n in b.nodes ensures 0 <= n && Busy(b, n) {
      assert KeepsNid(a, b, n);
    }
  }

  /** Caching an entry as its table page shows it. */
  lemma CacheEntry(st: Store, files: set<int>, n: int)
    requires Core(st, files) && 3 <= n && IsNid(n)
    ensures var b := st.(book := BookInsert(st.book, FromPage(st.pages, n)));
            Core(b, files) && Reads(st, b, files) && EntryOf(b.book, n).Some?
  {
    var b := st.(book := BookInsert(st.book, FromPage(st.pages, n)));
    forall j | 0 <= j ensures KeepsNid(st, b, j) && (Busy(b, j) <==> Busy(st, j)) {
    }
    CarryAnchors(st, b, files);
    forall k | 0 <= k < META_BLOCKS ensures PageReachable(b, k) {
      assert PageReachable(st, k);
    }
  }

  /** The cache entry made from a table page. */
  function FromPage(pages: NatPages, n: int): NatEntry
    requires 0 <= n
  {
    NatEntry(n, OnPage(pages, n).ino, OnPage(pages, n).addr, false, false)
  }

  /** Caching the first `k` entries of a table block, but for the reserved nids below 3. */
  function CacheBlock(book: Book, pages: NatPages, b: int, k: nat): Book
    requires 0 <= b
  {
    if k == 0 then book
    else
      var n := b * NAT_ENTRY_PER_BLOCK + (k - 1);
      var done := CacheBlock(book, pages, b, k - 1);
      if n < 3 then done else BookInsert(done, FromPage(pages, n))
  }

  /** A nid of the block that was unknown is cached with the inode and the address in its slot. */
  lemma {:induction false} CacheBlockEntry(book: Book, pages: NatPages, b: int, k: nat, i: int)
    requires 0 <= b && 0 <= i < k <= 455 && 3 <= 455 * b + i && EntryOf(book, 455 * b + i).None?
    ensures EntryOf(CacheBlock(book, pages, b, k), 455 * b + i)
         == Some(NatEntry(455 * b + i, Content(pages, b)[i].ino, Content(pages, b)[i].addr, false, false))
    ensures 455 * b + i in CacheBlock(book, pages, b, k).used <==> Content(pages, b)[i].addr != 0
    decreases k
  {
    hide Content;
    assert (455 * b + i) / 455 == b && (455 * b + i) % 455 == i;
    if i < k - 1 {
      CacheBlockEntry(book, pages, b, k - 1, i);
    } else {
      CacheBlockOthers(book, pages, b, i, 455 * b + i);
    }
  }

  lemma {:induction false} CacheBlockOthers(book: Book, pages: NatPages, b: int, k: nat, n: int)
    requires 0 <= b && (n < 455 * b || 455 * b + k <= n)
    ensures EntryOf(CacheBlock(book, pages, b, k), n) == EntryOf(book, n)
    ensures n in CacheBlock(book, pages, b, k).used <==> n in book.used
  {
    hide Content;
    if k > 0 {
      CacheBlockOthers(book, pages, b, k - 1, n);
    }
  }

  /** A table block whose nids are in circulation. */
  predicate IsNatBlock(b: int) {
    0 <= b < ADDRS_PER_INODE || REG_NAT_START <= b < NAT_BLOCKS
  }

  lemma {:induction false} CacheBlockStore(st: Store, files: set<int>, b: int, k: nat)
    requires Core(st, files) && IsNatBlock(b) && k <= NAT_ENTRY_PER_BLOCK
    ensures var done := st.(book := CacheBlock(st.book, st.pages, b, k));
            && Core(done, files) && Reads(st, done, files)
            && (forall n :: 3 <= n && b * NAT_ENTRY_PER_BLOCK <= n < b * NAT_ENTRY_PER_BLOCK + k ==>
                EntryOf(done.book, n).Some?)
            && (forall n :: EntryOf(st.book, n).Some? ==> EntryOf(done.book, n).Some?)
  {
    if k > 0 {
      CacheBlockStore(st, files, b, k - 1);
      var prev := st.(book := CacheBlock(st.book, st.pages, b, k - 1));
      var n := b * NAT_ENTRY_PER_BLOCK + (k - 1);
      if n >= 3 {
        CacheEntry(prev, files, n);
        ReadsTrans(st, prev, prev.(book := BookInsert(prev.book, FromPage(st.pages, n))), files);
      }
      var book := CacheBlock(st.book, st.pages, b, k);
      forall j ensures EntryOf(prev.book, j).Some? || (j == n && 3 <= n) ==> EntryOf(book, j).Some? {
      }
    } else {
      assert st.(book := CacheBlock(st.book, st.pages, b, 0)) == st;
      Refl(st, files);
    }
  }

  /** Caching a block adds no dirty entry and keeps those there are. */
  lemma {:induction false} CacheBlockDirty(book: Book, pages: NatPages, b: int, k: nat)
    requires 0 <= b
    ensures var done := CacheBlock(book, pages, b, k);
            forall n :: n in done.used && done.used[n].dirty <==> n in book.used && book.used[n].dirty
  {
    if k > 0 {
      CacheBlockDirty(book, pages, b, k - 1);
    }
  }

  /** Marking a table page up to date once the way to it exists. */
  lemma MarkReady(st: Store, files: set<int>, k: int)
    requires Core(st, files) && 0 <= k < META_BLOCKS && Dnode(st.nodes, META_INO, k) != 0
    ensures Core(st.(ready := st.ready + {k}), files)
    ensures Reads(st, st.(ready := st.ready + {k}), files)
  {
    var b := st.(ready := st.ready + {k});
    forall n | 0 <= n ensures KeepsNid(st, b, n) && (Busy(b, n) <==> Busy(st, n)) {
    }
    CarryAnchors(st, b, files);
    forall j | 0 <= j < META_BLOCKS ensures PageReachable(b, j) {
      assert PageReachable(st, j);
    }
  }

  /** The state after a free entry was handed out. */
  ghost predicate HandsOut(a: Store, b: Store, m: int) {
    && m in a.book.free && m in b.book.used && b.book.used[m].addr == 0
    && b == a.(book := Book(a.book.used[m := b.book.used[m]], a.book.free - {m}))
  }

  lemma HandOutStore(st: Store, b: Store, files: set<int>, m: int)
    requires Core(st, files) && HandsOut(st, b, m)
    ensures 3 <= m && IsNid(m) && m !in st.nodes && Unreached(st.nodes, files, m) && !Busy(st, m)
    ensures Core(b, files) && Extends(st, b, files)
    ensures forall n {:trigger KeepsNid(st, b, n)} :: 0 <= n ==> (Busy(b, n) <==> Busy(st, n) || n == m)
  {
    forall n | 0 <= n
      ensures KeepsNid(st, b, n) && (Busy(b, n) <==> Busy(st, n) || n == m)
    {
    }
    forall f, q | f in files && IsPrefix(q) ensures Walk(st.nodes, f, q) != m {
      assert Anchored(st, f, q);
    }
    CarryAnchors(st, b, files);
    forall k | 0 <= k < META_BLOCKS ensures PageReachable(b, k) {
      assert PageReachable(st, k);
    }
  }

  /** What every operation of a mount keeps: a nid on nat_list stays there. */
  ghost predicate UsedGrows(a: Store, b: Store) {
    forall n :: n in a.book.used ==> n in b.book.used
  }

  lemma ExtendsUsed(a: Store, b: Store, files: set<int>)
    requires Extends(a, b, files) && BookInRange(a.book)
    ensures UsedGrows(a, b)
  {
    forall n | n in a.book.used ensures n in b.book.used {
      assert IsNid(n) && KeepsNid(a, b, n);
    }
  }

  /** A nid handed out once is not handed out again while nat_list only grows. */
  lemma NeverTwice(a: Store, b: Store, c: Store, d: Store, files: set<int>, m: int, n: int)
    requires HandsOut(a, b, m) && UsedGrows(b, c) && Core(c, files) && HandsOut(c, d, n)
    ensures n != m
  {
  }

  /** No free entry of the cache has an address on its table page. */
  ghost predicate FreeUnshown(st: Store) {
    forall n :: n in st.book.free ==> 0 <= n && OnPage(st.pages, n).addr == 0
  }

  /** Entries that lookups add to free_nat are free because their page shows no address. */
  lemma ExtendsUnshown(a: Store, b: Store, files: set<int>)
    requires Core(a, files) && Core(b, files) && Extends(a, b, files) && FreeUnshown(a)
    ensures FreeUnshown(b)
  {
    forall n | n in b.book.free ensures 0 <= n && OnPage(b.pages, n).addr == 0 {
      assert KeepsNid(a, b, n);
    }
  }

  /** A handed-out nid becomes the inode of a new, empty file. */
  lemma NewFileStore(a: Store, b: Store, files: set<int>, m: int)
    requires Core(a, files) && HandsOut(a, b, m) && REG_NID_START <= m
    ensures m !in files
    ensures var c := b.(dirty := b.dirty + {m});
      && Core(c, files + {m}) && (Supply(a) ==> Supply(c))
      && (forall n {:trigger Believed(c, n)} :: 0 <= n ==> Believed(c, n) == Believed(a, n))
      && (forall n {:trigger Stale(c, n)} :: 0 <= n && Stale(c, n) ==> Stale(a, n))
      && (forall k {:trigger AddrAt(c.nodes, m, k)} :: 0 <= k < MAX_BLOCKS ==> AddrAt(c.nodes, m, k) == 0)
  {
    HandOutStore(a, b, files, m);
    var c := b.(dirty := b.dirty + {m});
    forall f | f in files ensures f != m {
      assert Walk(a.nodes, f, []) == f;
    }
    forall q | IsPrefix(q) ensures Walk(c.nodes, m, q) == if q == [] then m else 0 {
      LeafWalk(c.nodes, m, q);
    }
    forall f, q | f in files + {m} && IsPrefix(q) ensures Anchored(c, f, q) {
      assert f in files ==> Anchored(b, f, q);
    }
    forall f, q, g, r | f in files + {m} && g in files + {m} && IsPrefix(q) && IsPrefix(r)
      ensures Separate(c.nodes, f, q, g, r)
    {
      assert f in files && g in files ==> Separate(a.nodes, f, q, g, r);
    }
    forall k | 0 <= k < META_BLOCKS ensures PageReachable(c, k) {
      assert PageReachable(b, k);
    }
    forall k | 0 <= k < MAX_BLOCKS ensures AddrAt(c.nodes, m, k) == 0 {
      EndInRange(Path(k));
    }
    NewFileFree(a, c, m);
  }

  lemma {:induction false} LeafWalk(nodes: Nodes, m: int, q: seq<int>)
    requires IsPrefix(q) && PageOf(nodes, m) == Zeroes(NIDS_PER_BLOCK)
    ensures Walk(nodes, m, q) == if q == [] then m else 0
    decreases |q|
  {
    if q != [] {
      EndInRange(q);
      LeafWalk(nodes, m, q[..|q| - 1]);
    }
  }

  lemma NewFileFree(a: Store, c: Store, m: int)
    requires m in a.book.free && a.book.free[m].addr == 0 && REG_NID_START <= m && c.nodes == a.nodes
        && c.pages == a.pages
    requires m in c.book.used && c.book.used[m].addr == 0
    requires c.book == Book(a.book.used[m := c.book.used[m]], a.book.free - {m})
    ensures Supply(a) ==> Supply(c)
  {
    forall n | 3 <= n < LOW_NIDS ensures Busy(c, n) <==> Busy(a, n) {
    }
    assert FreeLow(c) == FreeLow(a);
  }

  /** `m` is hung at the end of `q`, and the node page that took the link is dirty. */
  function Linked(st: Store, ino: int, q: seq<int>, m: int): Store
    requires IsPrefix(q) && q != []
  {
    EndInRange(q);
    st.(nodes := Put(st.nodes, ino, q, m), dirty := st.dirty + {Walk(st.nodes, ino, q[..|q| - 1])})
  }

  /** Hanging a handed-out nid into the tree of a file. */
  lemma LinkStore(st: Store, files: set<int>, ino: int, q: seq<int>, m: int)
    requires Core(st, files) && CanLink(st.nodes, files, ino, q, m)
    requires IsNid(m) && 3 <= m && Busy(st, m) && (ino == META_INO ==> m < LOW_NIDS)
    requires Walk(st.nodes, ino, q[..|q| - 1]) in st.book.used
    ensures var b := Linked(st, ino, q, m);
            && Core(b, files) && Extends(st, b, files)
            && Walk(b.nodes, ino, q) == m
            && (forall f, r {:trigger SameWalk(st, b, f, r)} ::
                  f in files && f != ino && IsPrefix(r) ==> SameWalk(st, b, f, r))
            && (ino == META_INO ==> Grows(st, b, files))
  {
    var b := Linked(st, ino, q, m);
    LinkKeepsForest(st.nodes, files, ino, q, m);
    EndInRange(q);
    var parent := Walk(st.nodes, ino, q[..|q| - 1]);
    assert Anchored(st, ino, q[..|q| - 1]);
    forall f, r | f in files && IsPrefix(r)
      ensures KeepsWalk(st, b, f, r) && Anchored(b, f, r)
      ensures f != ino ==> SameWalk(st, b, f, r)
      ensures f == ino && r == q ==> Walk(b.nodes, f, r) == m
    {
      LinkWalk(st.nodes, files, ino, q, m, f, r);
      assert Anchored(st, f, r);
    }
    forall f, p | f in files && IsPath(p) ensures KeepsAddr(st, b, f, p) {
      LinkAddr(st.nodes, files, ino, q, m, f, p);
    }
    forall k | 0 <= k < META_BLOCKS ensures PageReachable(b, k) {
      assert PageReachable(st, k);
      assert KeepsAddr(st, b, META_INO, Path(k));
      assert KeepsWalk(st, b, META_INO, Up(k, Depth(k)));
    }
    forall n | 0 <= n ensures KeepsNid(st, b, n) && (Busy(b, n) <==> Busy(st, n)) {
    }
  }

  lemma FreeLowDrops(a: Store, b: Store, files: set<int>, m: int)
    requires Core(a, files) && m < LOW_NIDS && HandsOut(a, b, m)
    ensures FreeLow(b) == FreeLow(a) - {m} && m in FreeLow(a)
  {
    HandOutStore(a, b, files, m);
    forall n | 0 <= n ensures Busy(b, n) <==> Busy(a, n) || n == m {
      assert KeepsNid(a, b, n);
    }
  }

  lemma AbsentDrops(nodes: Nodes, files: set<int>, idx: int, k: nat, m: int)
    requires META_INO in files && 0 <= idx < META_BLOCKS && 0 < k <= Depth(idx)
    requires CanLink(nodes, files, META_INO, Up(idx, k), m)
    ensures Up(idx, k) in Absent(nodes)
    ensures Absent(Put(nodes, META_INO, Up(idx, k), m)) <= Absent(nodes) - {Up(idx, k)}
  {
    var q := Up(idx, k);
    forall r | r in Absent(Put(nodes, META_INO, q, m)) ensures r in Absent(nodes) && r != q {
      LinkWalk(nodes, files, META_INO, q, m, META_INO, r);
    }
  }

  /** One more node of the meta file uses up one free low nid, so the supply still suffices. */
  lemma LinkSupply(st: Store, mid: Store, files: set<int>, idx: int, k: nat, m: int)
    requires Core(st, files) && Supply(st) && 0 <= idx < META_BLOCKS && 0 < k <= Depth(idx)
    requires m < LOW_NIDS && HandsOut(st, mid, m)
    requires CanLink(mid.nodes, files, META_INO, Up(idx, k), m)
    ensures Supply(Linked(mid, META_INO, Up(idx, k), m))
  {
    var q := Up(idx, k);
    var b := Linked(mid, META_INO, q, m);
    FreeLowDrops(st, mid, files, m);
    assert FreeLow(b) == FreeLow(mid);
    AbsentDrops(mid.nodes, files, idx, k, m);
    SubsetSize(Absent(b.nodes), Absent(st.nodes) - {q});
  }

  /** While some node of the meta file is missing, some low nid is free. */
  lemma SupplyGivesFree(st: Store, idx: int, k: nat) returns (n: int)
    requires Supply(st) && 0 <= idx < META_BLOCKS && k <= Depth(idx)
    requires Walk(st.nodes, META_INO, Up(idx, k)) == 0
    ensures n in FreeLow(st)
  {
    assert Up(idx, k) in Absent(st.nodes);
    assert |Absent(st.nodes)| > 0;
    n :| n in FreeLow(st);
  }

  // ----- Creating a node: allocate, link, fill in the entry -----

  /** `now` is `mid` with the free nid `m` handed out and hung at the end of `q`. */
  ghost predicate Adopts(mid: Store, now: Store, ino: int, q: seq<int>, m: int)
    requires IsPrefix(q) && q != []
  {
    && m in mid.book.free && m in now.book.used && now.book.used[m].addr == 0 && now.book.used[m].dirty
    && now == Linked(mid, ino, q, m).(book := Book(mid.book.used[m := now.book.used[m]], mid.book.free - {m}))
  }

  lemma AdoptStore(mid: Store, now: Store, files: set<int>, ino: int, idx: int, k: nat, m: int)
    requires Core(mid, files) && Supply(mid) && ino in files
    requires 0 <= idx < MAX_BLOCKS && 0 < k <= Depth(idx) && (ino == META_INO ==> idx < META_BLOCKS)
    requires Walk(mid.nodes, ino, Up(idx, k - 1)) != 0 && Walk(mid.nodes, ino, Up(idx, k)) == 0
    requires Walk(mid.nodes, ino, Up(idx, k - 1)) in mid.book.used
    requires InRange(m, ino == META_INO) && Adopts(mid, now, ino, Up(idx, k), m)
    ensures Core(now, files) && Supply(now) && Extends(mid, now, files)
    ensures Walk(now.nodes, ino, Up(idx, k)) == m != 0
    ensures ino == META_INO ==> Grows(mid, now, files)
    ensures |FreeRegular(now)| >= |FreeRegular(mid)| - 1
  {
    hide Core, Supply, Extends, Grows, CanLink;
    var q := Up(idx, k);
    assert q[..|q| - 1] == Up(idx, k - 1);
    var out := mid.(book := now.book);
    HandOutStore(mid, out, files, m);
    AdoptLinks(mid, files, ino, q, m);
    LinkStore(out, files, ino, q, m);
    AdoptExtends(mid, out, now, files, ino, m);
    if ino == META_INO {
      LinkSupply(mid, out, files, idx, k, m);
    } else {
      SupplyElsewhere(mid, out, now, files, ino, m);
    }
    FreeRegularDrops(mid, now, m);
  }

  lemma AdoptLinks(mid: Store, files: set<int>, ino: int, q: seq<int>, m: int)
    requires Core(mid, files) && ino in files && IsPrefix(q) && q != []
    requires Walk(mid.nodes, ino, q[..|q| - 1]) != 0 && Walk(mid.nodes, ino, q) == 0
    requires m !in mid.nodes && Unreached(mid.nodes, files, m) && 3 <= m
    ensures CanLink(mid.nodes, files, ino, q, m)
  {
  }

  lemma AdoptExtends(mid: Store, out: Store, now: Store, files: set<int>, ino: int, m: int)
    requires Core(mid, files) && HandsOut(mid, out, m) && Extends(mid, out, files) && Extends(out, now, files)
    requires now == out.(nodes := now.nodes, dirty := now.dirty)
    requires ino == META_INO ==> m < LOW_NIDS && Grows(out, now, files)
    requires forall f, r {:trigger SameWalk(out, now, f, r)} :: f in files && f != ino && IsPrefix(r) ==>
        SameWalk(out, now, f, r)
    ensures Extends(mid, now, files)
    ensures ino == META_INO ==> Grows(mid, now, files)
  {
    ExtendsTrans(mid, out, now, files);
    if ino == META_INO {
      forall n | LOW_NIDS <= n ensures Busy(out, n) <==> Busy(mid, n) {
      }
      assert Grows(mid, out, files);
      GrowsTrans(mid, out, now, files);
    }
  }

  /** Growing another file with a regular nid leaves the supply for the meta file alone. */
  lemma SupplyElsewhere(mid: Store, out: Store, now: Store, files: set<int>, ino: int, m: int)
    requires Core(mid, files) && Supply(mid) && REG_NID_START <= m && ino != META_INO
    requires m in now.book.used && now.pages == mid.pages && out.nodes == mid.nodes
    requires now.book == Book(mid.book.used[m := now.book.used[m]], mid.book.free - {m})
    requires forall f, r {:trigger SameWalk(out, now, f, r)} :: f in files && f != ino && IsPrefix(r) ==>
        SameWalk(out, now, f, r)
    ensures Supply(now)
  {
    forall r | IsPrefix(r) ensures Walk(now.nodes, META_INO, r) == Walk(mid.nodes, META_INO, r) {
      assert SameWalk(out, now, META_INO, r);
    }
    forall n | 3 <= n < LOW_NIDS ensures Busy(now, n) <==> Busy(mid, n) {
    }
    assert FreeLow(now) == FreeLow(mid);
    forall q | q in Absent(now.nodes) ensures q in Absent(mid.nodes) {
    }
    SubsetSize(Absent(now.nodes), Absent(mid.nodes));
  }

  lemma FreeRegularDrops(mid: Store, now: Store, m: int)
    requires m in now.book.used && now.pages == mid.pages
    requires now.book == Book(mid.book.used[m := now.book.used[m]], mid.book.free - {m})
    ensures |FreeRegular(now)| >= |FreeRegular(mid)| - 1
  {
    forall n | REG_NID_START <= n && n != m ensures Busy(now, n) <==> Busy(mid, n) {
    }
    SubsetSize(FreeRegular(mid) - {m}, FreeRegular(now));
  }

  /**
   * A read of a table block that had no node page hangs one, and leaves it clean, empty and without an
   * address: nothing will write it unless a block below it is written.
   */
  lemma ReadLeavesClean(a: Store, b: Store, files: set<int>, k: int)
    requires Core(b, files) && Extends(a, b, files) && ADDRS_PER_INODE <= k < META_BLOCKS && k in b.ready
    requires Dnode(a.nodes, META_INO, k) == 0
    ensures var w := Dnode(b.nodes, META_INO, k);
            && 0 < w < LOW_NIDS && PageOf(b.nodes, w) == Zeroes(NIDS_PER_BLOCK)
            && (w in b.dirty ==> w in a.dirty) && Believed(b, w) == Believed(a, w)
            && w !in files
  {
    var up := Up(k, Depth(k));
    var w := Walk(b.nodes, META_INO, up);
    assert PageReachable(b, k) && Anchored(b, META_INO, up);
    assert KeepsNid(a, b, w);
    forall f | f in files ensures w != f {
      assert Separate(b.nodes, META_INO, up, f, []);
    }
    hide Core, Separate, Walk, Believed;
    EmptyBelow(a, b, files, k);
  }

  lemma EmptyBelow(a: Store, b: Store, files: set<int>, k: int)
    requires Extends(a, b, files) && META_INO in files && ADDRS_PER_INODE <= k < META_BLOCKS
    requires Dnode(a.nodes, META_INO, k) == 0 && Dnode(b.nodes, META_INO, k) != 0
    ensures PageOf(b.nodes, Dnode(b.nodes, META_INO, k)) == Zeroes(NIDS_PER_BLOCK)
  {
    var up, w := Up(k, Depth(k)), Dnode(b.nodes, META_INO, k);
    forall i | 0 <= i < NIDS_PER_BLOCK ensures PageOf(b.nodes, w)[i] == 0 {
      var p := up + [i];
      assert p[..|p| - 1] == up;
      assert IsPath(p) by {
        SlotBelow(k, i);
      }
      assert KeepsAddr(a, b, META_INO, p);
    }
  }

  lemma SlotBelow(k: int, i: int)
    requires ADDRS_PER_INODE <= k < MAX_BLOCKS && 0 <= i < ADDRS_PER_BLOCK
    ensures IsPath(Up(k, Depth(k)) + [i])
  {
  }

  /** Below a missing link nothing is reached. */
  lemma {:induction false} WalkStops(nodes: Nodes, ino: int, idx: int, k: nat, j: nat)
    requires 0 <= idx < MAX_BLOCKS && k <= j <= Depth(idx)
    requires Walk(nodes, ino, Up(idx, k)) == 0
    ensures Walk(nodes, ino, Up(idx, j)) == 0
  {
    if k < j {
      WalkStops(nodes, ino, idx, k, j - 1);
      assert Up(idx, j)[..j - 1] == Up(idx, j - 1);
    }
  }

  lemma WalkStep(nodes: Nodes, ino: int, idx: int, k: nat)
    requires 0 <= idx < MAX_BLOCKS && k < Depth(idx)
    ensures Walk(nodes, ino, Up(idx, k + 1)) == Follow(nodes, Walk(nodes, ino, Up(idx, k)), Path(idx)[k])
  {
    assert Up(idx, k + 1)[..k] == Up(idx, k);
  }
}
