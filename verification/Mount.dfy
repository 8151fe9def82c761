/** Mounting again: the superblock's log is replayed into an empty cache. */
module Mount {
  import opened BlockPath
  import opened NodeTree
  import opened NatCache
  import opened NatStore
  import opened NatFs
  import opened Recovery
  import opened Writeback
  import opened Checkpoint
  import opened Layout
  import WritePipeline

  /** One entry of the replay loop; the result of `insert_nat` is overwritten, so the update always runs. */
  function ReplayOne(c: Cache, e: LogEntry): Cache {
    if e.nid == 0 then c else Update(Insert(c, e.nid, e.ino, e.addr, true), e.nid, e.addr, true)
  }

  function Replay(c: Cache, log: seq<LogEntry>): Cache {
    if log == [] then c else ReplayOne(Replay(c, log[..|log| - 1]), log[|log| - 1])
  }

  /** The log replay of `xcpfs_read_super`. */
  method ReadSuper(nm: Nat, metaNat: seq<LogEntry>)
    modifies nm`natList, nm`freeNat, nm`cachedNatCount
    ensures nm.Cached() == Replay(old(nm.Cached()), metaNat)
  {
    var i := 0;
    while i < |metaNat|
      invariant 0 <= i <= |metaNat|
      invariant nm.Cached() == Replay(old(nm.Cached()), metaNat[..i])
    {
      var ne := metaNat[i];
      assert metaNat[..i + 1][..i] == metaNat[..i];
      if ne.nid != 0 {
        var _ := nm.InsertNat(ne.nid, ne.ino, ne.addr, true, true);
        var _ := nm.UpdateNat(ne.nid, ne.addr, true);
      }
      i := i + 1;
    }
    assert metaNat[..|metaNat|] == metaNat;
  }

  // ----- What the replay leaves in the cache -----

  const EMPTY := Cache([], [], 0)

  /** The cache after mounting with a log, without its order. */
  ghost function Mounted(log: seq<LogEntry>): Book {
    BookOf(Replay(EMPTY, log))
  }

  lemma {:induction false} ReplaySane(log: seq<LogEntry>)
    ensures Sane(Replay(EMPTY, log))
  {
    if log != [] {
      var c, e := Replay(EMPTY, log[..|log| - 1]), log[|log| - 1];
      ReplaySane(log[..|log| - 1]);
      InsertRefines(c, e.nid, e.ino, e.addr, true);
      UpdateRefines(Insert(c, e.nid, e.ino, e.addr, true), e.nid, e.addr, true);
    }
  }

  function BookReplay(k: Book, e: LogEntry): Book {
    if e.nid == 0 then k
    else BookUpdate(BookInsert(k, NatEntry(e.nid, e.ino, e.addr, true, false)), e.nid, e.addr, true)
  }

  lemma MountedStep(log: seq<LogEntry>)
    requires log != []
    ensures var k, e := Mounted(log[..|log| - 1]), log[|log| - 1];
            Mounted(log) == BookReplay(k, e)
  {
    var c, e := Replay(EMPTY, log[..|log| - 1]), log[|log| - 1];
    ReplaySane(log[..|log| - 1]);
    InsertRefines(c, e.nid, e.ino, e.addr, true);
    UpdateRefines(Insert(c, e.nid, e.ino, e.addr, true), e.nid, e.addr, true);
  }

  /** The first address logged for a nid. */
  function FirstAddr(log: seq<LogEntry>, n: int): (r: Option<int>)
    ensures r.Some? <==> n in LogMap(log)
  {
    if log == [] then None
    else
      var e := log[|log| - 1];
      var r := FirstAddr(log[..|log| - 1], n);
      if r.Some? || e.nid == 0 || e.nid != n then r else Some(e.addr)
  }

  /** The log gives a nid two addresses, one after the other. */
  predicate Moved(log: seq<LogEntry>, n: int) {
    log != [] &&
    var e, rest := log[|log| - 1], log[..|log| - 1];
    Moved(rest, n) || (n != 0 && e.nid == n && n in LogMap(rest) && LogMap(rest)[n] != e.addr)
  }

  lemma BookReplayAt(k: Book, e: LogEntry, n: int)
    requires e.nid != 0 && !(n in k.used && n in k.free)
    ensures var b := BookReplay(k, e);
      if n != e.nid || n in k.free then
        (n in b.used <==> n in k.used) && (n in b.used ==> b.used[n] == k.used[n])
        && (n in b.free <==> n in k.free) && (n in b.free ==> b.free[n] == k.free[n])
      else if n in k.used then
        n in b.used && n !in b.free && b.used[n].addr == e.addr
        && (b.used[n].dirty <==> k.used[n].dirty || k.used[n].addr != e.addr)
      else if e.addr == 0 then n in b.free && b.free[n].addr == 0 && n !in b.used
      else n in b.used && n !in b.free && b.used[n].addr == e.addr && !b.used[n].dirty
  {
  }

  /** The cache holds for `n` what the log says about it. */
  ghost predicate Replayed(k: Book, log: seq<LogEntry>, n: int) {
    match FirstAddr(log, n)
    case None => EntryOf(k, n) == None && !Moved(log, n)
    case Some(first) =>
      if first == 0 then n in k.free && k.free[n].addr == 0 && n !in k.used
      else n in k.used && n !in k.free && k.used[n].addr == LogMap(log)[n] && (k.used[n].dirty <==> Moved(log, n))
  }

  /**
   * A nid that is not logged is not cached.  One whose first logged address is 0 is a free entry for good;
   * any other has its last address, and is dirty only if the log moved it.
   */
  lemma {:induction false} MountedIs(log: seq<LogEntry>, n: int)
    ensures Replayed(Mounted(log), log, n)
  {
    if log == [] {
      assert Mounted(log) == Book(map[], map[]);
    } else {
      var rest, e := log[..|log| - 1], log[|log| - 1];
      MountedIs(rest, n);
      MountedStep(log);
      if e.nid != 0 {
        BookReplayAt(Mounted(rest), e, n);
      }
      hide Mounted, BookReplay;
    }
  }

  /** Entry `i` is the first one the log has for `n`. */
  ghost predicate FirstFor(log: seq<LogEntry>, n: int, i: int) {
    0 <= i < |log| && log[i].nid == n && forall j :: 0 <= j < i ==> log[j].nid != n
  }

  /** A mounted entry is pinned and names the inode of the first entry logged for its nid. */
  lemma {:induction false} MountedIno(log: seq<LogEntry>, n: int)
    ensures EntryOf(Mounted(log), n).Some? ==>
              exists i :: FirstFor(log, n, i) && EntryOf(Mounted(log), n).value.ino == log[i].ino
                          && EntryOf(Mounted(log), n).value.nid == n && EntryOf(Mounted(log), n).value.pinned
  {
    if log == [] {
      assert Mounted(log) == Book(map[], map[]);
    } else {
      var rest, e := log[..|log| - 1], log[|log| - 1];
      MountedIno(rest, n);
      MountedIs(rest, n);
      MountedStep(log);
      BookReplayIno(Mounted(rest), e, n);
      hide Mounted, BookReplay, EntryOf, FirstAddr;
      if EntryOf(Mounted(rest), n).Some? {
        var i :| FirstFor(rest, n, i) && EntryOf(Mounted(rest), n).value.ino == rest[i].ino;
        assert FirstFor(log, n, i);
      } else if e.nid == n && n != 0 {
        FirstForLast(log, n);
      }
    }
  }

  lemma BookReplayIno(k: Book, e: LogEntry, n: int)
    ensures var b := EntryOf(BookReplay(k, e), n);
            if EntryOf(k, n).Some? then
              && b.Some? && b.value.ino == EntryOf(k, n).value.ino && b.value.nid == EntryOf(k, n).value.nid
              && (EntryOf(k, n).value.pinned ==> b.value.pinned)
            else if n == e.nid && n != 0 then b.Some? && b.value.ino == e.ino && b.value.nid == n && b.value.pinned
            else b == None
  {
  }

  lemma FirstForLast(log: seq<LogEntry>, n: int)
    requires log != [] && log[|log| - 1].nid == n != 0 && FirstAddr(log[..|log| - 1], n).None?
    ensures FirstFor(log, n, |log| - 1)
  {
    var rest := log[..|log| - 1];
    forall j | 0 <= j < |log| - 1 ensures log[j].nid != n {
      if rest[j].nid == n {
        InLogMap(rest, j);
      }
    }
  }

  lemma {:induction false} InLogMap(log: seq<LogEntry>, j: int)
    requires 0 <= j < |log| && log[j].nid != 0
    ensures log[j].nid in LogMap(log)
  {
    if j < |log| - 1 {
      InLogMap(log[..|log| - 1], j);
    }
  }

  /** An address of 0 in the log is final. */
  ghost predicate ZeroIsLast(log: seq<LogEntry>, n: int) {
    FirstAddr(log, n) == Some(0) ==> LogMap(log)[n] == 0
  }

  ghost predicate ZeroIsFirst(log: seq<LogEntry>, n: int) {
    n in LogMap(log) && LogMap(log)[n] == 0 ==> FirstAddr(log, n) == Some(0)
  }

  /** Mounting rebuilds "log over pages" for a nid exactly if no later address follows a first 0. */
  lemma MountViewIff(log: seq<LogEntry>, pages: NatPages, n: int)
    requires 0 <= n
    ensures View(Mounted(log), pages, n) == (if n in LogMap(log) then LogMap(log)[n] else OnPage(pages, n).addr)
       <==> ZeroIsLast(log, n)
  {
    MountedIs(log, n);
  }

  lemma {:induction false} NoZeros(log: seq<LogEntry>, n: int)
    requires Moves(log)
    ensures FirstAddr(log, n) != Some(0)
  {
    if log != [] {
      assert log[|log| - 1] in log && forall e :: e in log[..|log| - 1] ==> e in log;
      NoZeros(log[..|log| - 1], n);
    }
  }

  lemma {:induction false} LoggedEntry(log: seq<LogEntry>, n: int)
    requires n in LogMap(log)
    ensures n != 0 && exists e :: e in log && e.nid == n
  {
    var e := log[|log| - 1];
    if e.nid == 0 || e.nid != n {
      LoggedEntry(log[..|log| - 1], n);
      var d :| d in log[..|log| - 1] && d.nid == n;
      assert d in log;
    } else {
      assert e in log;
    }
  }

  /** A later address does not replace a first 0: the entry is on free_nat, where the update does not look. */
  lemma FirstZeroSticks(n: int, a: int, pages: NatPages)
    requires 0 < n && a != 0
    ensures var log := [LogEntry(n, n, 0), LogEntry(n, n, a)];
            n in LogMap(log) && LogMap(log)[n] == a && View(Mounted(log), pages, n) == 0
  {
    var e, d := LogEntry(n, n, 0), LogEntry(n, n, a);
    assert [e, d] == [e] + [d] && [e] == [] + [e];
    FirstAppend([], e, n);
    FirstAppend([e], d, n);
    MountedIs([e, d], n);
  }

  /** A nid logged once is clean after the mount, whatever its page shows: the next flush will not write it. */
  lemma LoggedOnceGoesStale(n: int, a: int, nodes: Nodes, pages: NatPages)
    requires 0 < n && a != 0 && OnPage(pages, n).addr != a
    ensures Stale(Store(Mounted([LogEntry(n, n, a)]), nodes, pages, {}, {}), n)
  {
    var e := LogEntry(n, n, a);
    assert [e] == [] + [e] && [e][..0] == [];
    assert LogMap([]) == map[] && FirstAddr([], n) == None && !Moved([], n);
    FirstAppend([], e, n);
    MovedAppend([], e, n);
    MountedIs([e], n);
    hide Mounted, LogMap, FirstAddr, Moved, OnPage;
  }

  lemma FirstAppend(log: seq<LogEntry>, e: LogEntry, n: int)
    requires e.nid != 0
    ensures FirstAddr(log + [e], n) == if FirstAddr(log, n).Some? || e.nid != n then FirstAddr(log, n) else Some(e.addr)
    ensures LogMap(log + [e]) == LogMap(log)[e.nid := e.addr]
  {
    assert (log + [e])[..|log|] == log;
  }

  lemma MovedAppend(log: seq<LogEntry>, e: LogEntry, n: int)
    ensures Moved(log + [e], n) <==>
              Moved(log, n) || (n != 0 && e.nid == n && n in LogMap(log) && LogMap(log)[n] != e.addr)
  {
    assert (log + [e])[..|log|] == log;
  }

  /** The log of one checkpoint pass replays as it is meant to. */
  lemma PassLogReplays(log: seq<LogEntry>, n: int)
    requires PassLog(log)
    ensures ZeroIsLast(log, n) && ZeroIsFirst(log, n)
  {
    var k := |log|;
    var moves, l1, e1, e3 := log[..k - 2], log[..k - 1], log[k - 2], log[k - 1];
    assert l1 == moves + [e1] && log == l1 + [e3];
    FirstAppend(moves, e1, n);
    FirstAppend(l1, e3, n);
    NoZeros(moves, n);
    MovesMap(moves);
    if n in LogMap(moves) {
      LoggedEntry(moves, n);
    }
    assert log[k - 2..] == [e1, e3];
  }

  // ----- The file system after the mount -----

  /** Nids of the table: every block of the table file holds so many. */
  const NIDS := META_BLOCKS * NAT_ENTRY_PER_BLOCK

  /** The addresses the mounted cache has, which is where the code looks before it reads a table page. */
  ghost function CachedAddrs(log: seq<LogEntry>): map<int, int> {
    map n | n in LogMap(log) && EntryOf(Mounted(log), n).Some? :: EntryOf(Mounted(log), n).value.addr
  }

  /**
   * Memory after a mount, from the drive and the log alone: the cache holds the replayed entries, and a node
   * or table page is whatever is read for it through them, nothing where that is all zeroes.
   */
  ghost function FromDisk(dev: Disk, log: seq<LogEntry>): Store {
    var at := CachedAddrs(log);
    Store(Mounted(log),
          map n | 0 <= n < NIDS && META_INO in at && NodeOnDisk(dev, at, n) !in {None, Some(Zeroes(NIDS_PER_BLOCK))}
            :: NodeOnDisk(dev, at, n).value,
          map b | 0 <= b < META_BLOCKS && META_INO in at && NatPageOnDisk(dev, at, b) !in {None, Some(ZeroPage())}
            :: NatPageOnDisk(dev, at, b).value,
          {}, {})
  }

  ghost predicate Checkpointed(st: Store, dev: Disk, log: seq<LogEntry>, data: FileData, files: set<int>) {
    Synced(st, dev, LogMap(log), data, files) && Replayable(log)
  }

  /** No address after a first 0, no 0 after an address, and nids in circulation only. */
  ghost predicate Replayable(log: seq<LogEntry>) {
    && (forall n {:trigger ZeroIsLast(log, n)} :: ZeroIsLast(log, n) && ZeroIsFirst(log, n))
    && (forall e :: e in log ==> e.nid == 0 || IsNid(e.nid))
  }

  /** The mounted cache has the log's addresses, last entry winning, exactly if no address follows a first 0. */
  lemma CachedAddrsIff(log: seq<LogEntry>)
    ensures CachedAddrs(log) == LogMap(log) <==> forall n {:trigger ZeroIsLast(log, n)} :: ZeroIsLast(log, n)
  {
    forall n
      ensures n in LogMap(log) ==> n in CachedAddrs(log)
      ensures n in LogMap(log) ==> (CachedAddrs(log)[n] == LogMap(log)[n] <==> ZeroIsLast(log, n))
      ensures n !in LogMap(log) ==> ZeroIsLast(log, n)
    {
      MountedIs(log, n);
    }
  }

  /** Read back from the drive, every table page is what memory held before the mount. */
  lemma PageSame(st: Store, dev: Disk, log: seq<LogEntry>, data: FileData, files: set<int>, b: int)
    requires Checkpointed(st, dev, log, data, files) && 0 <= b < META_BLOCKS
    ensures Content(FromDisk(dev, log).pages, b) == Content(st.pages, b)
  {
    CachedAddrsIff(log);
    NatPageIs(st, dev, LogMap(log), data, files, b);
    SyncedCore(st, dev, LogMap(log), data, files);
    hide NatPageOnDisk, NodeOnDisk, CachedAddrs, Mounted, LogMap, Synced, Core;
    assert META_INO in LogMap(log);
  }

  lemma NodeSame(st: Store, dev: Disk, log: seq<LogEntry>, data: FileData, files: set<int>, n: int)
    requires Checkpointed(st, dev, log, data, files) && 0 <= n < NIDS
    ensures PageOf(FromDisk(dev, log).nodes, n) == PageOf(st.nodes, n)
  {
    CachedAddrsIff(log);
    NodeIs(st, dev, LogMap(log), data, files, n);
    SyncedCore(st, dev, LogMap(log), data, files);
    hide NatPageOnDisk, NodeOnDisk, CachedAddrs, Mounted, LogMap, Synced, Core;
    assert META_INO in LogMap(log);
  }

  /** Reading everything back from the drive gives every node page and every nid's address as before the mount. */
  lemma RemountSame(st: Store, dev: Disk, log: seq<LogEntry>, data: FileData, files: set<int>, n: int)
    requires Checkpointed(st, dev, log, data, files) && 0 <= n < NIDS
    ensures PageOf(FromDisk(dev, log).nodes, n) == PageOf(st.nodes, n)
    ensures Content(FromDisk(dev, log).pages, n / NAT_ENTRY_PER_BLOCK) == Content(st.pages, n / NAT_ENTRY_PER_BLOCK)
    ensures Believed(FromDisk(dev, log), n) == Believed(st, n)
  {
    NodeSame(st, dev, log, data, files, n);
    PageSame(st, dev, log, data, files, n / NAT_ENTRY_PER_BLOCK);
    assert NodeSynced(st, dev, LogMap(log), n) && ZeroIsLast(log, n);
    MountViewIff(log, FromDisk(dev, log).pages, n);
    hide Synced, Mounted, LogMap, NodeOnDisk, NatPageOnDisk, CachedAddrs;
  }

  /** The walks of a file, when the node pages it reaches are the same. */
  lemma {:induction false} WalkSame(st: Store, files: set<int>, b: Nodes, f: int, q: seq<int>)
    requires Core(st, files) && f in files && IsPrefix(q)
    requires forall n {:trigger PageOf(b, n)} :: 0 <= n < NIDS ==> PageOf(b, n) == PageOf(st.nodes, n)
    ensures Walk(b, f, q) == Walk(st.nodes, f, q)
    decreases |q|
  {
    hide Core, PageOf;
    if q != [] {
      EndInRange(q);
      WalkSame(st, files, b, f, q[..|q| - 1]);
      if Walk(st.nodes, f, q[..|q| - 1]) != 0 {
        ReachedIsNid(st, files, f, q[..|q| - 1]);
      }
    }
  }

  lemma AddrSame(st: Store, files: set<int>, b: Nodes, f: int, p: seq<int>)
    requires Core(st, files) && f in files && IsPath(p)
    requires forall n {:trigger PageOf(b, n)} :: 0 <= n < NIDS ==> PageOf(b, n) == PageOf(st.nodes, n)
    ensures Addr(b, f, p) == Addr(st.nodes, f, p)
  {
    hide Core, PageOf;
    EndInRange(p);
    WalkSame(st, files, b, f, p[..|p| - 1]);
    if Walk(st.nodes, f, p[..|p| - 1]) != 0 {
      ReachedIsNid(st, files, f, p[..|p| - 1]);
    }
  }

  /** Read back from the drive, every walk and every block address of every file is as before the mount. */
  lemma RemountKeepsTree(st: Store, dev: Disk, log: seq<LogEntry>, data: FileData, files: set<int>, f: int)
    requires Checkpointed(st, dev, log, data, files) && f in files
    ensures forall q {:trigger Walk(FromDisk(dev, log).nodes, f, q)} :: IsPrefix(q) ==>
        Walk(FromDisk(dev, log).nodes, f, q) == Walk(st.nodes, f, q)
    ensures forall p {:trigger Addr(FromDisk(dev, log).nodes, f, p)} :: IsPath(p) ==>
        Addr(FromDisk(dev, log).nodes, f, p) == Addr(st.nodes, f, p)
  {
    SyncedCore(st, dev, LogMap(log), data, files);
    hide Synced, Core, FromDisk, LogMap, PageOf, Walk, Addr, Checkpointed;
    var b := FromDisk(dev, log).nodes;
    forall n | 0 <= n < NIDS ensures PageOf(b, n) == PageOf(st.nodes, n) {
      NodeSame(st, dev, log, data, files, n);
    }
    forall q | IsPrefix(q) ensures Walk(b, f, q) == Walk(st.nodes, f, q) {
      WalkSame(st, files, b, f, q);
    }
    forall p | IsPath(p) ensures Addr(b, f, p) == Addr(st.nodes, f, p) {
      AddrSame(st, files, b, f, p);
    }
  }

  /** A nid counts as handed out after the mount exactly if it has an address. */
  lemma HeldIsBusy(st: Store, dev: Disk, log: seq<LogEntry>, data: FileData, files: set<int>, n: int)
    requires Checkpointed(st, dev, log, data, files) && 0 <= n < NIDS
    ensures Busy(FromDisk(dev, log), n) <==> Believed(st, n) != 0
  {
    RemountSame(st, dev, log, data, files, n);
    MountedIs(log, n);
    assert NodeSynced(st, dev, LogMap(log), n) && ZeroIsLast(log, n) && ZeroIsFirst(log, n);
    hide Synced, Mounted, LogMap, NodeOnDisk, NatPageOnDisk, CachedAddrs;
  }

  ghost predicate ReachedHeld(st: Store, f: int, q: seq<int>)
    requires IsPrefix(q)
  {
    var w := Walk(st.nodes, f, q);
    w != 0 ==> 0 <= w && Believed(st, w) != 0
  }

  /**
   * The invariant of the table survives the mount exactly if every node that is reached was written: a
   * node that was created by a read and never written looks free again although it is referenced.
   */
  lemma RemountCoreIff(st: Store, dev: Disk, log: seq<LogEntry>, data: FileData, files: set<int>)
    requires Checkpointed(st, dev, log, data, files)
    ensures Core(FromDisk(dev, log), files)
       <==> forall f, q {:trigger ReachedHeld(st, f, q)} :: f in files && IsPrefix(q) ==> ReachedHeld(st, f, q)
  {
    var r := FromDisk(dev, log);
    if forall f, q {:trigger ReachedHeld(st, f, q)} :: f in files && IsPrefix(q) ==> ReachedHeld(st, f, q) {
      RemountCore(st, dev, log, data, files);
    }
    if Core(r, files) {
      forall f, q | f in files && IsPrefix(q) ensures ReachedHeld(st, f, q) {
        assert Anchored(r, f, q);
        RemountKeepsTree(st, dev, log, data, files, f);
        hide FromDisk, Synced, Core, Busy;
        var w := Walk(st.nodes, f, q);
        assert Walk(r.nodes, f, q) == w;
        if w != 0 {
          HeldIsBusy(st, dev, log, data, files, w);
        }
      }
    }
  }

  lemma RemountAnchored(st: Store, dev: Disk, log: seq<LogEntry>, data: FileData, files: set<int>, f: int, q: seq<int>)
    requires Checkpointed(st, dev, log, data, files) && f in files && IsPrefix(q) && ReachedHeld(st, f, q)
    ensures Anchored(FromDisk(dev, log), f, q) && Walk(FromDisk(dev, log).nodes, f, q) == Walk(st.nodes, f, q)
  {
    SyncedCore(st, dev, LogMap(log), data, files);
    assert Anchored(st, f, q);
    hide Synced, Core, FromDisk, LogMap, Busy, Believed;
    RemountKeepsTree(st, dev, log, data, files, f);
    if Walk(st.nodes, f, q) != 0 {
      HeldIsBusy(st, dev, log, data, files, Walk(st.nodes, f, q));
    }
  }

  lemma RemountCore(st: Store, dev: Disk, log: seq<LogEntry>, data: FileData, files: set<int>)
    requires Checkpointed(st, dev, log, data, files)
    requires forall f, q {:trigger ReachedHeld(st, f, q)} :: f in files && IsPrefix(q) ==> ReachedHeld(st, f, q)
    ensures Core(FromDisk(dev, log), files)
  {
    var r := FromDisk(dev, log);
    SyncedCore(st, dev, LogMap(log), data, files);
    assert Core(st, files);
    assert ReachedHeld(st, META_INO, []);
    RemountBook(st, dev, log, data, files);
    RemountPages(st, dev, log, data, files);
    RemountNodes(st, dev, log, data, files);
    assert r.ready == {} && r.dirty == {};
    hide Mounted, LogMap, FirstAddr, Moved, FromDisk, Synced, ReachedHeld, NodeOnDisk, NatPageOnDisk, Busy, Walk;
    forall f, q | f in files && IsPrefix(q) ensures Anchored(r, f, q) && Walk(r.nodes, f, q) == Walk(st.nodes, f, q) {
      assert ReachedHeld(st, f, q);
      RemountAnchored(st, dev, log, data, files, f, q);
    }
    forall f, q, f', q' | f in files && f' in files && IsPrefix(q) && IsPrefix(q')
      ensures Separate(r.nodes, f, q, f', q')
    {
      assert Separate(st.nodes, f, q, f', q');
      assert Walk(r.nodes, f, q) == Walk(st.nodes, f, q) && Walk(r.nodes, f', q') == Walk(st.nodes, f', q');
    }
  }

  /** A node page that is not all zeroes was read from an address, so its nid is in use. */
  lemma RemountNodes(st: Store, dev: Disk, log: seq<LogEntry>, data: FileData, files: set<int>)
    requires Checkpointed(st, dev, log, data, files)
    ensures forall n :: n in FromDisk(dev, log).nodes ==> 0 <= n && Busy(FromDisk(dev, log), n)
  {
    var r := FromDisk(dev, log);
    forall n | n in r.nodes ensures 0 <= n && Busy(r, n) {
      assert 0 <= n < NIDS && PageOf(r.nodes, n) != Zeroes(NIDS_PER_BLOCK);
      NodeSame(st, dev, log, data, files, n);
      assert NodeSynced(st, dev, LogMap(log), n);
      HeldIsBusy(st, dev, log, data, files, n);
    }
  }

  lemma RemountPages(st: Store, dev: Disk, log: seq<LogEntry>, data: FileData, files: set<int>)
    requires Checkpointed(st, dev, log, data, files)
    ensures PagesReachable(FromDisk(dev, log))
  {
    var r := FromDisk(dev, log);
    SyncedCore(st, dev, LogMap(log), data, files);
    RemountKeepsTree(st, dev, log, data, files, META_INO);
    forall b | 0 <= b < META_BLOCKS ensures PageReachable(r, b) {
      assert PageSynced(st, dev, b);
      PageSame(st, dev, log, data, files, b);
      assert AddrAt(r.nodes, META_INO, b) == AddrAt(st.nodes, META_INO, b);
      assert b in r.pages ==> Content(r.pages, b) != ZeroPage();
    }
  }

  lemma RemountBook(st: Store, dev: Disk, log: seq<LogEntry>, data: FileData, files: set<int>)
    requires Checkpointed(st, dev, log, data, files) && ReachedHeld(st, META_INO, [])
    ensures BookInRange(Mounted(log)) && META_INO in Mounted(log).used
  {
    hide Synced, Core, Mounted;
    forall n | n in Mounted(log).used || n in Mounted(log).free ensures IsNid(n) {
      MountedIs(log, n);
      LoggedEntry(log, n);
    }
    SyncedCore(st, dev, LogMap(log), data, files);
    MountedIs(log, META_INO);
    assert Walk(st.nodes, META_INO, []) == META_INO;
    HeldIsBusy(st, dev, log, data, files, META_INO);
    assert META_INO in Mounted(log).used;
    forall n | n in Mounted(log).free ensures 3 <= n && n !in Mounted(log).used && Mounted(log).free[n].addr == 0 {
      MountedIs(log, n);
    }
  }

  /** A mount offers only nids whose page shows no address, exactly if every nid first logged with 0 has slot 0. */
  lemma RemountUnshownIff(st: Store, dev: Disk, log: seq<LogEntry>, data: FileData, files: set<int>)
    requires Checkpointed(st, dev, log, data, files)
    ensures FreeUnshown(FromDisk(dev, log))
       <==> forall n {:trigger ZeroSlot(st, log, n)} :: 0 <= n ==> ZeroSlot(st, log, n)
  {
    var r := FromDisk(dev, log);
    hide FromDisk, LogMap, FirstAddr, Checkpointed, OnPage;
    forall n ensures n in r.book.free <==> FirstAddr(log, n) == Some(0) {
      FirstIsFree(dev, log, n);
    }
    forall n | n in r.book.free ensures 0 <= n && OnPage(r.pages, n) == OnPage(st.pages, n) {
      FirstSamePage(st, dev, log, data, files, n);
    }
    if FreeUnshown(r) {
      forall n | 0 <= n ensures ZeroSlot(st, log, n) {
        assert n in r.book.free <==> FirstAddr(log, n) == Some(0);
      }
    } else {
      var n :| n in r.book.free && !(0 <= n && OnPage(r.pages, n).addr == 0);
      assert !ZeroSlot(st, log, n);
    }
  }

  predicate ZeroSlot(st: Store, log: seq<LogEntry>, n: int)
    requires 0 <= n
  {
    FirstAddr(log, n) == Some(0) ==> OnPage(st.pages, n).addr == 0
  }

  lemma {:induction false} FirstEntry(log: seq<LogEntry>, n: int)
    requires FirstAddr(log, n).Some?
    ensures exists e :: e in log && e.nid == n && e.addr == FirstAddr(log, n).value
  {
    var rest, e := log[..|log| - 1], log[|log| - 1];
    if FirstAddr(rest, n).Some? {
      FirstEntry(rest, n);
      var d :| d in rest && d.nid == n && d.addr == FirstAddr(rest, n).value;
      assert d in log;
    } else {
      assert e in log;
    }
  }

  /** A pass logs a 0 for inode 1 or the root only. */
  lemma ZeroLogged(log: seq<LogEntry>, n: int)
    requires PassLog(log) && exists e :: e in log && e.nid == n && e.addr == 0
    ensures n == META_INO || n == ROOT_INO
  {
    assert log == log[..|log| - 2] + [log[|log| - 2], log[|log| - 1]];
  }

  /** So it does after a checkpoint pass that left inode 1 and the root written. */
  lemma RemountUnshown(st: Store, dev: Disk, log: seq<LogEntry>, data: FileData, files: set<int>)
    requires Checkpointed(st, dev, log, data, files) && PassLog(log)
    requires Believed(st, META_INO) != 0 && Believed(st, ROOT_INO) != 0
    ensures FreeUnshown(FromDisk(dev, log))
  {
    forall n | 0 <= n ensures ZeroSlot(st, log, n) {
      if FirstAddr(log, n) == Some(0) {
        assert ZeroIsLast(log, n) && NodeSynced(st, dev, LogMap(log), n);
        FirstEntry(log, n);
        ZeroLogged(log, n);
      }
    }
    RemountUnshownIff(st, dev, log, data, files);
  }

  lemma FirstIsFree(dev: Disk, log: seq<LogEntry>, n: int)
    ensures n in FromDisk(dev, log).book.free <==> FirstAddr(log, n) == Some(0)
  {
    MountedIs(log, n);
    hide Mounted, LogMap, FirstAddr, NodeOnDisk, NatPageOnDisk, CachedAddrs;
  }

  lemma FirstSamePage(st: Store, dev: Disk, log: seq<LogEntry>, data: FileData, files: set<int>, n: int)
    requires Checkpointed(st, dev, log, data, files) && FirstAddr(log, n).Some?
    ensures 0 <= n && OnPage(FromDisk(dev, log).pages, n) == OnPage(st.pages, n)
  {
    FirstInRange(log, n);
    hide FromDisk, Synced, LogMap, FirstAddr;
    PageSame(st, dev, log, data, files, n / NAT_ENTRY_PER_BLOCK);
  }

  lemma FirstInRange(log: seq<LogEntry>, n: int)
    requires FirstAddr(log, n).Some? && forall e :: e in log ==> e.nid == 0 || IsNid(e.nid)
    ensures 0 <= n < NIDS && 0 <= n / NAT_ENTRY_PER_BLOCK < META_BLOCKS
  {
    MountedIs(log, n);
    LoggedEntry(log, n);
  }

  /** Nothing is dirty after the mount and memory agrees with the drive. */
  lemma RemountTracked(st: Store, dev: Disk, log: seq<LogEntry>, data: FileData, files: set<int>)
    requires Checkpointed(st, dev, log, data, files) && Tracked(st, Image(dev, data, {}, {}), files)
    ensures Tracked(FromDisk(dev, log), Image(dev, data, {}, {}), files)
  {
    var r, m := FromDisk(dev, log), Image(dev, data, {}, {});
    forall n | 0 <= n ensures NodeTracked(r, dev, n) {
      RemountNodeTracked(st, dev, log, data, files, n);
    }
    SyncedCore(st, dev, LogMap(log), data, files);
    assert r.ready == {} && r.dirty == {};
    hide Mounted, LogMap, Core, FromDisk, NodeTracked;
    RemountKeepsTree(st, dev, log, data, files, META_INO);
    forall b | 0 <= b < META_BLOCKS ensures PageTracked(r, m, b) {
      PageSame(st, dev, log, data, files, b);
      assert PageSynced(st, dev, b) && AddrAt(r.nodes, META_INO, b) == AddrAt(st.nodes, META_INO, b);
    }
    forall f, k | f in files && f != META_INO && 0 <= k < MAX_BLOCKS ensures BlockTracked(r, m, f, k) {
      RemountKeepsTree(st, dev, log, data, files, f);
      assert BlockSynced(st, dev, data, f, k) && AddrAt(r.nodes, f, k) == AddrAt(st.nodes, f, k);
    }
  }

  lemma RemountNodeTracked(st: Store, dev: Disk, log: seq<LogEntry>, data: FileData, files: set<int>, n: int)
    requires Checkpointed(st, dev, log, data, files) && Tracked(st, Image(dev, data, {}, {}), files) && 0 <= n
    ensures NodeTracked(FromDisk(dev, log), dev, n)
  {
    assert NodeTracked(st, dev, n) && NodeSynced(st, dev, LogMap(log), n);
    if n < NIDS {
      RemountSame(st, dev, log, data, files, n);
      hide FromDisk, Synced, Tracked, LogMap, Believed;
    } else {
      MountedIs(log, n);
      if n in LogMap(log) {
        LoggedEntry(log, n);
      }
      hide Synced, Tracked, Mounted, NodeOnDisk, NatPageOnDisk, CachedAddrs;
      assert Content(FromDisk(dev, log).pages, n / NAT_ENTRY_PER_BLOCK) == ZeroPage();
      assert n !in FromDisk(dev, log).nodes;
    }
  }

  /** The mount only frees nids, so the table file can still grow. */
  lemma RemountSupply(st: Store, dev: Disk, log: seq<LogEntry>, data: FileData, files: set<int>)
    requires Checkpointed(st, dev, log, data, files) && Supply(st)
    ensures Supply(FromDisk(dev, log))
  {
    var r := FromDisk(dev, log);
    SyncedCore(st, dev, LogMap(log), data, files);
    hide Mounted, LogMap, Core, FromDisk, Checkpointed;
    RemountKeepsTree(st, dev, log, data, files, META_INO);
    assert Absent(r.nodes) == Absent(st.nodes) by {
      assert forall q :: q in Absent(r.nodes) <==> q in Absent(st.nodes);
    }
    forall n | n in FreeLow(st) ensures n in FreeLow(r) {
      HeldIsBusy(st, dev, log, data, files, n);
      FreeHasNoAddr(st, files, n);
    }
    SubsetSize(FreeLow(st), FreeLow(r));
  }

  lemma FreeHasNoAddr(st: Store, files: set<int>, n: int)
    requires Core(st, files) && 0 <= n && !Busy(st, n)
    ensures Believed(st, n) == 0
  {
  }

  /**
   * The replayed entries are clean: after the mount a logged nid whose page shows another address is not
   * written by the next flush, unless the log itself moved it from one address to another.
   */
  lemma RemountStaleIff(st: Store, dev: Disk, log: seq<LogEntry>, data: FileData, files: set<int>, n: int)
    requires Checkpointed(st, dev, log, data, files) && 0 <= n < NIDS
    ensures Stale(FromDisk(dev, log), n) <==> LeftClean(st, log, n)
  {
    MountedIs(log, n);
    RemountSame(st, dev, log, data, files, n);
    assert NodeSynced(st, dev, LogMap(log), n) && ZeroIsLast(log, n);
    hide Synced, Mounted, LogMap, NodeOnDisk, NatPageOnDisk, CachedAddrs;
  }

  predicate LeftClean(st: Store, log: seq<LogEntry>, n: int)
    requires 0 <= n
  {
    && n in LogMap(log) && LogMap(log)[n] != OnPage(st.pages, n).addr
    && (FirstAddr(log, n) == Some(0) || !Moved(log, n))
  }

  // ----- The whole cycle -----

  /** What a checkpoint leaves in the superblock, when every nid survived its last pass, can be mounted. */
  lemma CheckpointMounts(st: Store, dev: Disk, log: seq<LogEntry>, data: FileData, files: set<int>)
    requires Synced(st, dev, LogMap(log), data, files) && PassLog(log)
    ensures Checkpointed(st, dev, log, data, files)
  {
    hide Synced;
    forall n ensures ZeroIsLast(log, n) && ZeroIsFirst(log, n) {
      PassLogReplays(log, n);
    }
    var k := |log| - 2;
    forall e | e in log ensures IsNid(e.nid) {
      var i :| 0 <= i < |log| && log[i] == e;
      if i < k {
        assert log[..k][i] == e;
      }
    }
  }

  /**
   * Checkpoint, then anything, then a crash, then a mount: however many writes, truncations and
   * invalidations the pipeline began or finished since, what is read back from the drive of that moment has
   * every node page, every nid's address, every block address and every file block of the checkpoint; it
   * agrees with the drive, and nothing is dirty.
   */
  lemma CrashThenMount(st: Store, log: seq<LogEntry>, data: FileData, files: set<int>,
                       io: WritePipeline.Io<Block>, steps: seq<WritePipeline.Step<Block>>)
    requires Checkpointed(st, io.dev, log, data, files) && Tracked(st, Image(io.dev, data, {}, {}), files)
    requires WritePipeline.CanRun(io, steps)
    ensures var dev := WritePipeline.RunFrom(io, steps).dev;
            var r := FromDisk(dev, log);
            && Tracked(r, Image(dev, data, {}, {}), files)
            && (forall n {:trigger Believed(r, n)} :: 0 <= n < NIDS ==> Believed(r, n) == Believed(st, n))
            && (forall n {:trigger PageOf(r.nodes, n)} :: 0 <= n < NIDS ==> PageOf(r.nodes, n) == PageOf(st.nodes, n))
            && (forall f, k {:trigger AddrAt(r.nodes, f, k)} :: f in files && 0 <= k < MAX_BLOCKS
                  ==> AddrAt(r.nodes, f, k) == AddrAt(st.nodes, f, k))
            && (forall f, k {:trigger BlockOnDisk(dev, LogMap(log), f, k)} ::
                  f in files && f != META_INO && 0 <= k < MAX_BLOCKS
                  ==> BlockOnDisk(dev, LogMap(log), f, k) == Some(InMemory(data, f, k)))
  {
    hide Synced, BlockOnDisk, WritePipeline.RunFrom, WritePipeline.CanRun, FromDisk, LogMap, Believed, Core, Tracked;
    var dev := WritePipeline.RunFrom(io, steps).dev;
    var r := FromDisk(dev, log);
    WritePipeline.RunAppendsOnly(io, steps);
    CheckpointedGrows(st, io.dev, dev, log, data, files);
    SyncedCore(st, dev, LogMap(log), data, files);
    TrackedGrows(st, Image(io.dev, data, {}, {}), dev, files);
    RemountTracked(st, dev, log, data, files);
    forall n | 0 <= n < NIDS ensures Believed(r, n) == Believed(st, n) && PageOf(r.nodes, n) == PageOf(st.nodes, n) {
      RemountSame(st, dev, log, data, files, n);
    }
    forall f, k | f in files && 0 <= k < MAX_BLOCKS ensures AddrAt(r.nodes, f, k) == AddrAt(st.nodes, f, k) {
      RemountKeepsTree(st, dev, log, data, files, f);
    }
    forall f, k | f in files && f != META_INO && 0 <= k < MAX_BLOCKS
      ensures BlockOnDisk(dev, LogMap(log), f, k) == Some(InMemory(data, f, k))
    {
      DiskHoldsTree(st, dev, LogMap(log), data, files, f, k);
    }
  }

  /** Being described by a log is a matter of the state only, given that the log replays as it should. */
  lemma SyncedCheckpointed(st: Store, dev: Disk, r: Store, dev': Disk, log: seq<LogEntry>, data: FileData,
                           files: set<int>)
    requires Checkpointed(st, dev, log, data, files) && Synced(r, dev', LogMap(log), data, files)
    ensures Checkpointed(r, dev', log, data, files)
  {
    hide Synced, LogMap, Replayable;
  }

  lemma CheckpointedGrows(st: Store, dev: Disk, dev': Disk, log: seq<LogEntry>, data: FileData, files: set<int>)
    requires Checkpointed(st, dev, log, data, files) && WritePipeline.OnlyAppended(dev, dev')
    ensures Checkpointed(st, dev', log, data, files)
  {
    CheckpointedIsSynced(st, dev, log, data, files);
    hide *;
    SyncedGrows(st, dev, dev', LogMap(log), data, files);
    SyncedCheckpointed(st, dev, st, dev', log, data, files);
  }

  lemma CheckpointedIsSynced(st: Store, dev: Disk, log: seq<LogEntry>, data: FileData, files: set<int>)
    requires Checkpointed(st, dev, log, data, files)
    ensures Synced(st, dev, LogMap(log), data, files)
  {
  }

  lemma TrackedGrows(st: Store, m: Image, dev: Disk, files: set<int>)
    requires Tracked(st, m, files) && WritePipeline.OnlyAppended(m.dev, dev)
    ensures Tracked(st, m.(dev := dev), files)
  {
    var m' := m.(dev := dev);
    forall n | 0 <= n ensures NodeTracked(st, dev, n) {
      assert NodeTracked(st, m.dev, n);
    }
    forall b | 0 <= b < META_BLOCKS ensures PageTracked(st, m', b) {
      assert PageTracked(st, m, b);
    }
    forall f, k | f in files && f != META_INO && 0 <= k < MAX_BLOCKS ensures BlockTracked(st, m', f, k) {
      assert BlockTracked(st, m, f, k);
    }
  }
}
