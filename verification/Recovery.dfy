/**
 * What a mount can read back: from the last superblock alone, through the table file that is itself
 * found through its own entries, to every block of every file.
 */
module Recovery {
  import opened Layout
  import opened BlockPath
  import opened NodeTree
  import opened NatCache
  import opened NatStore
  import WritePipeline

  datatype Block = NodeBlk(node: NodePage) | NatBlk(nats: NatPage) | DataBlk(content: int)

  type Disk = map<int, Block>

  /** The superblock's log of table changes, as it is replayed: the last entry of a nid counts. */
  datatype LogEntry = LogEntry(nid: int, ino: int, addr: int)

  function LogMap(log: seq<LogEntry>): map<int, int> {
    if log == [] then map[]
    else
      var e := log[|log| - 1];
      var rest := LogMap(log[..|log| - 1]);
      if e.nid == 0 then rest else rest[e.nid := e.addr]
  }

  // ----- Reading the disk -----

  /** Address 0 is a hole and reads as zeroes. */
  function NodeAt(dev: Disk, a: int): Option<NodePage> {
    if a == 0 then Some(Zeroes(NIDS_PER_BLOCK)) else if a in dev && dev[a].NodeBlk? then Some(dev[a].node) else None
  }

  function NatAt(dev: Disk, a: int): Option<NatPage> {
    if a == 0 then Some(ZeroPage()) else if a in dev && dev[a].NatBlk? then Some(dev[a].nats) else None
  }

  function DataAt(dev: Disk, a: int): Option<int> {
    if a == 0 then Some(0) else if a in dev && dev[a].DataBlk? then Some(dev[a].content) else None
  }

  /** The walk from an inode when node pages are fetched by `get`. */
  function WalkVia(get: int -> Option<NodePage>, ino: int, q: seq<int>): Option<int>
    requires IsPrefix(q)
    decreases |q|
  {
    if q == [] then Some(ino)
    else FollowVia(get, WalkVia(get, ino, q[..|q| - 1]), q[|q| - 1])
  }

  function FollowVia(get: int -> Option<NodePage>, d: Option<int>, i: int): Option<int>
    requires InNode(i)
  {
    match d
    case None => None
    case Some(nid) =>
      if nid == 0 then Some(0)
      else
        match get(nid)
        case None => None
        case Some(page) => Some(page[i])
  }

  function AddrVia(get: int -> Option<NodePage>, ino: int, p: seq<int>): Option<int>
    requires IsPath(p)
  {
    EndInRange(p);
    FollowVia(get, WalkVia(get, ino, p[..|p| - 1]), p[|p| - 1])
  }

  /** The address of a node of the table file: from the log, or from a page that hangs off inode 1. */
  function LowAddr(dev: Disk, log: map<int, int>, n: int): Option<int>
    requires META_INO in log
  {
    if n in log then Some(log[n])
    else if !(0 <= n < LOW_NIDS) then None
    else
      match NodeAt(dev, log[META_INO])
      case None => None
      case Some(root) =>
        match NatAt(dev, root[n / NAT_ENTRY_PER_BLOCK])
        case None => None
        case Some(page) => Some(page[n % NAT_ENTRY_PER_BLOCK].addr)
  }

  function LowNode(dev: Disk, log: map<int, int>, n: int): Option<NodePage>
    requires META_INO in log
  {
    match LowAddr(dev, log, n)
    case None => None
    case Some(a) => NodeAt(dev, a)
  }

  function NatPageOnDisk(dev: Disk, log: map<int, int>, b: int): Option<NatPage>
    requires META_INO in log && 0 <= b < MAX_BLOCKS
  {
    match AddrVia(n => LowNode(dev, log, n), META_INO, Path(b))
    case None => None
    case Some(a) => NatAt(dev, a)
  }

  function NodeOnDisk(dev: Disk, log: map<int, int>, n: int): Option<NodePage>
    requires META_INO in log
  {
    if n in log then NodeAt(dev, log[n])
    else if !(0 <= n < META_BLOCKS * NAT_ENTRY_PER_BLOCK) then None
    else
      match NatPageOnDisk(dev, log, n / NAT_ENTRY_PER_BLOCK)
      case None => None
      case Some(page) => NodeAt(dev, page[n % NAT_ENTRY_PER_BLOCK].addr)
  }

  /** A block of a file, read from the superblock down. */
  function BlockOnDisk(dev: Disk, log: map<int, int>, ino: int, k: int): Option<int>
    requires META_INO in log && 0 <= k < MAX_BLOCKS
  {
    match AddrVia(n => NodeOnDisk(dev, log, n), ino, Path(k))
    case None => None
    case Some(a) => DataAt(dev, a)
  }

  // ----- A checkpointed state -----

  type FileData = map<(int, int), int>

  /** What memory holds for a block of a file. */
  function InMemory(data: FileData, f: int, k: int): int {
    if (f, k) in data then data[(f, k)] else 0
  }

  ghost predicate NodeSynced(st: Store, dev: Disk, log: map<int, int>, n: int)
    requires 0 <= n
  {
    && (if n in log then log[n] else OnPage(st.pages, n).addr) == Believed(st, n)
    && NodeAt(dev, Believed(st, n)) == Some(PageOf(st.nodes, n))
  }

  ghost predicate PageSynced(st: Store, dev: Disk, b: int)
    requires 0 <= b < META_BLOCKS
  {
    NatAt(dev, AddrAt(st.nodes, META_INO, b)) == Some(Content(st.pages, b))
  }

  ghost predicate BlockSynced(st: Store, dev: Disk, data: FileData, f: int, k: int)
    requires 0 <= k < MAX_BLOCKS
  {
    DataAt(dev, AddrAt(st.nodes, f, k)) == Some(InMemory(data, f, k))
  }

  /** Table pages overlaid by the log give every nid's address, and every page is on disk where memory says. */
  ghost predicate Synced(st: Store, dev: Disk, log: map<int, int>, data: FileData, files: set<int>) {
    && Core(st, files) && META_INO in log
    && (forall n {:trigger NodeSynced(st, dev, log, n)} :: 0 <= n ==> NodeSynced(st, dev, log, n))
    && (forall b {:trigger PageSynced(st, dev, b)} :: 0 <= b < META_BLOCKS ==> PageSynced(st, dev, b))
    && (forall f, k {:trigger BlockSynced(st, dev, data, f, k)} ::
          f in files && f != META_INO && 0 <= k < MAX_BLOCKS ==> BlockSynced(st, dev, data, f, k))
  }

  // ----- The disk holds the tree of the checkpoint -----

  /** Nodes of the table file are found without any other table page than those off inode 1. */
  lemma LowNodeIs(st: Store, dev: Disk, log: map<int, int>, data: FileData, files: set<int>, n: int)
    requires Synced(st, dev, log, data, files) && 0 <= n < LOW_NIDS
    ensures LowNode(dev, log, n) == Some(PageOf(st.nodes, n))
  {
    assert NodeSynced(st, dev, log, n);
    if n !in log {
      assert NodeSynced(st, dev, log, META_INO);
      var b := n / NAT_ENTRY_PER_BLOCK;
      assert PageSynced(st, dev, b);
      assert Path(b) == [b];
      assert Walk(st.nodes, META_INO, []) == META_INO;
      assert AddrAt(st.nodes, META_INO, b) == PageOf(st.nodes, META_INO)[b];
    }
  }

  /** Fetching the right pages gives the right walk. */
  lemma {:induction false} WalkViaIs(st: Store, files: set<int>, get: int -> Option<NodePage>, f: int, q: seq<int>)
    requires Core(st, files) && f in files && IsPrefix(q)
    requires forall r {:trigger Walk(st.nodes, f, r)} :: IsPrefix(r) && Walk(st.nodes, f, r) != 0
               ==> get(Walk(st.nodes, f, r)) == Some(PageOf(st.nodes, Walk(st.nodes, f, r)))
    ensures WalkVia(get, f, q) == Some(Walk(st.nodes, f, q))
    decreases |q|
  {
    hide Core;
    if q != [] {
      EndInRange(q);
      WalkViaIs(st, files, get, f, q[..|q| - 1]);
    }
  }

  lemma AddrViaIs(st: Store, files: set<int>, get: int -> Option<NodePage>, f: int, p: seq<int>)
    requires Core(st, files) && f in files && IsPath(p)
    requires forall r {:trigger Walk(st.nodes, f, r)} :: IsPrefix(r) && Walk(st.nodes, f, r) != 0
               ==> get(Walk(st.nodes, f, r)) == Some(PageOf(st.nodes, Walk(st.nodes, f, r)))
    ensures AddrVia(get, f, p) == Some(Addr(st.nodes, f, p))
  {
    hide Core;
    EndInRange(p);
    WalkViaIs(st, files, get, f, p[..|p| - 1]);
  }

  lemma NatPageIs(st: Store, dev: Disk, log: map<int, int>, data: FileData, files: set<int>, b: int)
    requires Synced(st, dev, log, data, files) && 0 <= b < META_BLOCKS
    ensures NatPageOnDisk(dev, log, b) == Some(Content(st.pages, b))
  {
    hide Synced, LowNode, Core;
    SyncedCore(st, dev, log, data, files);
    var get := n => LowNode(dev, log, n);
    forall r | IsPrefix(r) && Walk(st.nodes, META_INO, r) != 0
      ensures get(Walk(st.nodes, META_INO, r)) == Some(PageOf(st.nodes, Walk(st.nodes, META_INO, r)))
    {
      ReachedIsLow(st, files, r);
      LowNodeIs(st, dev, log, data, files, Walk(st.nodes, META_INO, r));
    }
    AddrViaIs(st, files, get, META_INO, Path(b));
    SyncedPage(st, dev, log, data, files, b);
  }

  lemma SyncedCore(st: Store, dev: Disk, log: map<int, int>, data: FileData, files: set<int>)
    requires Synced(st, dev, log, data, files)
    ensures Core(st, files) && META_INO in files && META_INO in log
  {
  }

  lemma SyncedPage(st: Store, dev: Disk, log: map<int, int>, data: FileData, files: set<int>, b: int)
    requires Synced(st, dev, log, data, files) && 0 <= b < META_BLOCKS
    ensures PageSynced(st, dev, b)
  {
  }

  lemma ReachedIsLow(st: Store, files: set<int>, r: seq<int>)
    requires Core(st, files) && IsPrefix(r) && Walk(st.nodes, META_INO, r) != 0
    ensures 0 <= Walk(st.nodes, META_INO, r) < LOW_NIDS
  {
    assert Anchored(st, META_INO, r);
  }

  lemma ReachedIsNid(st: Store, files: set<int>, f: int, r: seq<int>)
    requires Core(st, files) && f in files && IsPrefix(r) && Walk(st.nodes, f, r) != 0
    ensures 0 <= Walk(st.nodes, f, r) < META_BLOCKS * NAT_ENTRY_PER_BLOCK
  {
    assert Anchored(st, f, r);
  }

  lemma NodeIs(st: Store, dev: Disk, log: map<int, int>, data: FileData, files: set<int>, n: int)
    requires Synced(st, dev, log, data, files) && 0 <= n < META_BLOCKS * NAT_ENTRY_PER_BLOCK
    ensures NodeOnDisk(dev, log, n) == Some(PageOf(st.nodes, n))
  {
    assert NodeSynced(st, dev, log, n);
    hide Synced;
    if n !in log {
      NatPageIs(st, dev, log, data, files, n / NAT_ENTRY_PER_BLOCK);
    }
  }

  /** Read from the superblock, every block of every file is what memory held at the checkpoint. */
  lemma DiskHoldsTree(st: Store, dev: Disk, log: map<int, int>, data: FileData, files: set<int>, f: int, k: int)
    requires Synced(st, dev, log, data, files) && f in files && f != META_INO && 0 <= k < MAX_BLOCKS
    ensures META_INO in log && BlockOnDisk(dev, log, f, k) == Some(InMemory(data, f, k))
  {
    assert BlockSynced(st, dev, data, f, k);
    hide Synced, NodeOnDisk, Core;
    SyncedCore(st, dev, log, data, files);
    var get := n => NodeOnDisk(dev, log, n);
    forall r | IsPrefix(r) && Walk(st.nodes, f, r) != 0
      ensures get(Walk(st.nodes, f, r)) == Some(PageOf(st.nodes, Walk(st.nodes, f, r)))
    {
      ReachedIsNid(st, files, f, r);
      NodeIs(st, dev, log, data, files, Walk(st.nodes, f, r));
    }
    AddrViaIs(st, files, get, f, Path(k));
  }

  // ----- A crash later changes nothing that could be read -----

  lemma {:induction false} WalkViaGrows(get: int -> Option<NodePage>, more: int -> Option<NodePage>, f: int,
      q: seq<int>)
    requires IsPrefix(q) && forall n {:trigger get(n)} :: get(n).Some? ==> more(n) == get(n)
    ensures WalkVia(get, f, q).Some? ==> WalkVia(more, f, q) == WalkVia(get, f, q)
    decreases |q|
  {
    if q != [] {
      EndInRange(q);
      WalkViaGrows(get, more, f, q[..|q| - 1]);
    }
  }

  lemma NatPageGrows(dev: Disk, dev': Disk, log: map<int, int>, b: int)
    requires WritePipeline.OnlyAppended(dev, dev') && META_INO in log && 0 <= b < MAX_BLOCKS
    ensures NatPageOnDisk(dev, log, b).Some? ==> NatPageOnDisk(dev', log, b) == NatPageOnDisk(dev, log, b)
  {
    var p := Path(b);
    EndInRange(p);
    WalkViaGrows(n => LowNode(dev, log, n), n => LowNode(dev', log, n), META_INO, p[..|p| - 1]);
  }

  lemma NodeGrows(dev: Disk, dev': Disk, log: map<int, int>, n: int)
    requires WritePipeline.OnlyAppended(dev, dev') && META_INO in log
    ensures NodeOnDisk(dev, log, n).Some? ==> NodeOnDisk(dev', log, n) == NodeOnDisk(dev, log, n)
  {
    hide NatPageOnDisk;
    if 0 <= n < META_BLOCKS * NAT_ENTRY_PER_BLOCK {
      NatPageGrows(dev, dev', log, n / NAT_ENTRY_PER_BLOCK);
    }
  }

  lemma BlockGrows(dev: Disk, dev': Disk, log: map<int, int>, f: int, k: int)
    requires WritePipeline.OnlyAppended(dev, dev') && META_INO in log && 0 <= k < MAX_BLOCKS
    ensures BlockOnDisk(dev, log, f, k).Some? ==> BlockOnDisk(dev', log, f, k) == BlockOnDisk(dev, log, f, k)
  {
    hide NodeOnDisk;
    var p := Path(k);
    EndInRange(p);
    forall n ensures NodeOnDisk(dev, log, n).Some? ==> NodeOnDisk(dev', log, n) == NodeOnDisk(dev, log, n) {
      NodeGrows(dev, dev', log, n);
    }
    WalkViaGrows(n => NodeOnDisk(dev, log, n), n => NodeOnDisk(dev', log, n), f, p[..|p| - 1]);
  }

  /** A synced state stays synced while blocks are only appended. */
  lemma SyncedGrows(st: Store, dev: Disk, dev': Disk, log: map<int, int>, data: FileData, files: set<int>)
    requires Synced(st, dev, log, data, files) && WritePipeline.OnlyAppended(dev, dev')
    ensures Synced(st, dev', log, data, files)
  {
    hide Core;
    forall n | 0 <= n ensures NodeSynced(st, dev', log, n) {
      assert NodeSynced(st, dev, log, n);
    }
    forall b | 0 <= b < META_BLOCKS ensures PageSynced(st, dev', b) {
      assert PageSynced(st, dev, b);
    }
    forall f, k | f in files && f != META_INO && 0 <= k < MAX_BLOCKS ensures BlockSynced(st, dev', data, f, k) {
      assert BlockSynced(st, dev, data, f, k);
    }
  }

  /**
   * Crash consistency: whatever the pipeline does after a checkpoint, in any interleaving and up to
   * any point, the superblock of the checkpoint still gives every block of every file.
   */
  lemma CrashKeepsTree(st: Store, log: map<int, int>, data: FileData, files: set<int>,
                       io: WritePipeline.Io<Block>, steps: seq<WritePipeline.Step<Block>>, f: int, k: int)
    requires Synced(st, io.dev, log, data, files) && WritePipeline.CanRun(io, steps)
    requires f in files && f != META_INO && 0 <= k < MAX_BLOCKS
    ensures && META_INO in log
            && BlockOnDisk(WritePipeline.RunFrom(io, steps).dev, log, f, k) == Some(InMemory(data, f, k))
  {
    hide Synced, BlockOnDisk, WritePipeline.CanRun, WritePipeline.RunFrom;
    DiskHoldsTree(st, io.dev, log, data, files, f, k);
    WritePipeline.RunAppendsOnly(io, steps);
    BlockGrows(io.dev, WritePipeline.RunFrom(io, steps).dev, log, f, k);
  }
}
