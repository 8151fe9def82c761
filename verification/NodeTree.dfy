/**
 * The node pages of a file system as one forest: an inode and the indirect and direct nodes below
 * it, each a page of slots.  A slot holds a node id or a block address depending on where the node
 * hangs; 0 is "nothing here".
 */
module NodeTree {
  import opened Layout
  import opened BlockPath

  function Zeroes(n: nat): (s: seq<int>)
    ensures |s| == n && forall i :: 0 <= i < n ==> s[i] == 0
  {
    seq(n, i => 0)
  }

  type NodePage = s: seq<int> | |s| == NIDS_PER_BLOCK witness Zeroes(NIDS_PER_BLOCK)
  type Nodes = map<int, NodePage>

  /** A node never written reads back as zeroes. */
  function PageOf(nodes: Nodes, nid: int): NodePage {
    if nid in nodes then nodes[nid] else Zeroes(NIDS_PER_BLOCK)
  }

  function Slot(nodes: Nodes, nid: int, i: int): int
    requires InNode(i)
  {
    PageOf(nodes, nid)[i]
  }

  function SetSlot(nodes: Nodes, nid: int, i: int, v: int): Nodes
    requires InNode(i)
  {
    nodes[nid := PageOf(nodes, nid)[i := v]]
  }

  /** The node reached from inode `ino` along the node-id slots `q`; 0 when a link is missing. */
  function Walk(nodes: Nodes, ino: int, q: seq<int>): int
    requires IsPrefix(q)
    decreases |q|
  {
    if q == [] then ino
    else
      Follow(nodes, Walk(nodes, ino, q[..|q| - 1]), q[|q| - 1])
  }

  function Follow(nodes: Nodes, nid: int, i: int): int
    requires InNode(i)
  {
    if nid == 0 then 0 else Slot(nodes, nid, i)
  }

  /** The block address a file has at a path: the flat sparse map the tree stands for. */
  function Addr(nodes: Nodes, ino: int, p: seq<int>): int
    requires IsPath(p)
  {
    PrefixesOfPath(p, |p| - 1);
    Follow(nodes, Walk(nodes, ino, p[..|p| - 1]), p[|p| - 1])
  }

  /** The same map by block index. */
  function AddrAt(nodes: Nodes, ino: int, idx: int): int
    requires 0 <= idx < MAX_BLOCKS
  {
    Addr(nodes, ino, Path(idx))
  }

  /** Two walks that end in the same node are the same walk of the same file. */
  predicate Separate(nodes: Nodes, ino: int, q: seq<int>, ino': int, q': seq<int>)
    requires IsPrefix(q) && IsPrefix(q')
  {
    Walk(nodes, ino, q) == Walk(nodes, ino', q') != 0 ==> ino == ino' && q == q'
  }

  /** No node is reached twice: not from two files, not along two ways, and no inode is a child. */
  ghost predicate Forest(nodes: Nodes, files: set<int>) {
    && 0 !in files
    && forall ino, q, ino', q' {:trigger Separate(nodes, ino, q, ino', q')} ::
      ino in files && ino' in files && IsPrefix(q) && IsPrefix(q') ==> Separate(nodes, ino, q, ino', q')
  }

  /** `nid` occurs nowhere in the forest. */
  ghost predicate Unreached(nodes: Nodes, files: set<int>, nid: int) {
    forall ino, q :: ino in files && IsPrefix(q) ==> Walk(nodes, ino, q) != nid
  }

  /** The nodes after writing `v` at the end of the link or data path `p` of a file. */
  function Put(nodes: Nodes, ino: int, p: seq<int>, v: int): Nodes
    requires IsPath(p) || (IsPrefix(p) && p != [])
  {
    EndInRange(p);
    SetSlot(nodes, Walk(nodes, ino, p[..|p| - 1]), p[|p| - 1], v)
  }

  lemma EndInRange(p: seq<int>)
    requires IsPath(p) || (IsPrefix(p) && p != [])
    ensures IsPrefix(p[..|p| - 1]) && InNode(p[|p| - 1])
  {
  }

  /** `m` may be hung at the empty end of `q`. */
  ghost predicate CanLink(nodes: Nodes, files: set<int>, ino: int, q: seq<int>, m: int) {
    && Forest(nodes, files) && ino in files
    && IsPrefix(q) && q != []
    && Walk(nodes, ino, q[..|q| - 1]) != 0 && Walk(nodes, ino, q) == 0
    && m != 0 && Unreached(nodes, files, m) && PageOf(nodes, m) == Zeroes(NIDS_PER_BLOCK)
  }

  /** The node that holds the end of `p` exists. */
  ghost predicate CanStore(nodes: Nodes, files: set<int>, ino: int, p: seq<int>) {
    && Forest(nodes, files) && ino in files
    && IsPath(p) && IsPrefix(p[..|p| - 1])
    && Walk(nodes, ino, p[..|p| - 1]) != 0
  }

  /**
   * Hanging an unreached, zeroed node under an empty node-id slot changes the walk to that slot
   * and no other.
   */
  lemma {:induction false} LinkWalk(nodes: Nodes, files: set<int>, ino: int, q: seq<int>, m: int, f: int, r: seq<int>)
    requires CanLink(nodes, files, ino, q, m) && f in files && IsPrefix(r)
    ensures Walk(Put(nodes, ino, q, m), f, r) == if f == ino && r == q then m else Walk(nodes, f, r)
    decreases |r|
  {
    if r != [] {
      var up, top := r[..|r| - 1], q[..|q| - 1];
      EndInRange(r);
      LinkWalk(nodes, files, ino, q, m, f, up);
      assert Separate(nodes, f, up, ino, top);
      assert r == up + [r[|r| - 1]] && q == top + [q[|q| - 1]];
    }
  }

  /** The same for the data slots: no block address of any file changes. */
  lemma LinkAddr(nodes: Nodes, files: set<int>, ino: int, q: seq<int>, m: int, f: int, p: seq<int>)
    requires CanLink(nodes, files, ino, q, m) && f in files && IsPath(p)
    ensures Addr(Put(nodes, ino, q, m), f, p) == Addr(nodes, f, p)
  {
    var up, top := p[..|p| - 1], q[..|q| - 1];
    EndInRange(p);
    LinkWalk(nodes, files, ino, q, m, f, up);
    assert Separate(nodes, f, up, ino, top);
    assert up == top ==> p[|p| - 1] != q[|q| - 1];
  }

  /** Growing by one link keeps the forest a forest. */
  lemma LinkKeepsForest(nodes: Nodes, files: set<int>, ino: int, q: seq<int>, m: int)
    requires CanLink(nodes, files, ino, q, m)
    ensures Forest(Put(nodes, ino, q, m), files)
  {
    forall f, r, f', r' | f in files && f' in files && IsPrefix(r) && IsPrefix(r')
      ensures Separate(Put(nodes, ino, q, m), f, r, f', r')
    {
      LinkWalk(nodes, files, ino, q, m, f, r);
      LinkWalk(nodes, files, ino, q, m, f', r');
      assert Separate(nodes, f, r, f', r');
    }
  }

  /** Storing a block address moves no node. */
  lemma {:induction false} StoreWalk(nodes: Nodes, files: set<int>, ino: int, p: seq<int>, a: int, f: int, r: seq<int>)
    requires CanStore(nodes, files, ino, p) && f in files && IsPrefix(r)
    ensures Walk(Put(nodes, ino, p, a), f, r) == Walk(nodes, f, r)
    decreases |r|
  {
    if r != [] {
      var up, top := r[..|r| - 1], p[..|p| - 1];
      EndInRange(r);
      StoreWalk(nodes, files, ino, p, a, f, up);
      assert Separate(nodes, f, up, ino, top);
      assert up == top ==> r[|r| - 1] != p[|p| - 1];
    }
  }

  /** Storing through the end of a path updates the flat map at that path of that file only. */
  lemma StoreAddr(nodes: Nodes, files: set<int>, ino: int, p: seq<int>, a: int, f: int, r: seq<int>)
    requires CanStore(nodes, files, ino, p) && f in files && IsPath(r)
    ensures Addr(Put(nodes, ino, p, a), f, r) == if f == ino && r == p then a else Addr(nodes, f, r)
  {
    var up, top := r[..|r| - 1], p[..|p| - 1];
    EndInRange(r);
    StoreWalk(nodes, files, ino, p, a, f, up);
    assert Separate(nodes, f, up, ino, top);
    assert r == up + [r[|r| - 1]] && p == top + [p[|p| - 1]];
    hide Forest, Walk, Separate;
  }

  /** The flat-map law by block index, through the addressing bijection. */
  lemma StoreAddrAt(nodes: Nodes, files: set<int>, ino: int, idx: int, a: int, f: int, other: int)
    requires 0 <= idx < MAX_BLOCKS && 0 <= other < MAX_BLOCKS && f in files
    requires CanStore(nodes, files, ino, Path(idx))
    ensures AddrAt(Put(nodes, ino, Path(idx), a), f, other)
         == if f == ino && other == idx then a else AddrAt(nodes, f, other)
  {
    StoreAddr(nodes, files, ino, Path(idx), a, f, Path(other));
    PathOfIndex(Path(idx));
    PathOfIndex(Path(other));
  }

  lemma StoreKeepsForest(nodes: Nodes, files: set<int>, ino: int, p: seq<int>, a: int)
    requires CanStore(nodes, files, ino, p)
    ensures Forest(Put(nodes, ino, p, a), files)
  {
    forall f, r, f', r' | f in files && f' in files && IsPrefix(r) && IsPrefix(r')
      ensures Separate(Put(nodes, ino, p, a), f, r, f', r')
    {
      StoreWalk(nodes, files, ino, p, a, f, r);
      StoreWalk(nodes, files, ino, p, a, f', r');
      assert Separate(nodes, f, r, f', r');
    }
  }
}
