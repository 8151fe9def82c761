/**
 * The two halves as one: the addresses the append pipeline publishes are the ones in the node address
 * table and in the node pages.
 */
module Coupling {
  import opened Layout
  import opened BlockPath
  import opened NodeTree
  import opened NatCache
  import opened NatStore
  import opened Recovery
  import opened Writeback
  import opened WritePipeline

  /** A node page's address is its nid's, a file block's is in the slot on its path; nothing else has one. */
  ghost predicate SameAddr(s: Io<Block>, st: Store, files: set<int>, p: Page) {
    match p
    case Node(nid) => AddrOf(s, p) == if 0 <= nid then Believed(st, nid) else 0
    case Data(ino, idx) =>
      AddrOf(s, p) == if ino in files && 0 <= idx < MAX_BLOCKS then AddrAt(st.nodes, ino, idx) else 0
  }

  ghost predicate Coupled(s: Io<Block>, st: Store, files: set<int>) {
    forall p {:trigger SameAddr(s, st, files, p)} :: SameAddr(s, st, files, p)
  }

  /** Submitting a write and landing it publish nothing. */
  lemma CoupledInFlight(s: Io<Block>, st: Store, files: set<int>, p: Page, answers: nat -> bool, a: int, content: Block)
    requires Coupled(s, st, files)
    ensures CanSubmit(s, p, answers) ==> Coupled(Submit(s, p, answers), st, files)
    ensures CanLand(s, p, a) ==> Coupled(Land(s, p, a, content), st, files)
  {
    if CanSubmit(s, p, answers) {
      forall q ensures SameAddr(Submit(s, p, answers), st, files, q) {
        assert SameAddr(s, st, files, q);
      }
    }
    if CanLand(s, p, a) {
      forall q ensures SameAddr(Land(s, p, a, content), st, files, q) {
        assert SameAddr(s, st, files, q);
      }
    }
  }

  /** The completion of a node write is `update_nat` on the table. */
  lemma CoupledNode(s: Io<Block>, st: Store, files: set<int>, n: int)
    requires Coupled(s, st, files) && Core(st, files) && n in st.book.used
    requires CanComplete(s, Node(n)) && s.flights[Node(n)].addr != 0
    ensures Coupled(Complete(s, Node(n)), NodeWritten(st, n, s.flights[Node(n)].addr), files)
  {
    var a := s.flights[Node(n)].addr;
    NodeWrittenStore(st, files, n, a);
    hide Core, Believed;
    forall q ensures SameAddr(Complete(s, Node(n)), NodeWritten(st, n, a), files, q) {
      assert SameAddr(s, st, files, q);
    }
  }

  /** The completion of a file block's write is a store into the slot of its node page. */
  lemma CoupledBlock(s: Io<Block>, st: Store, files: set<int>, f: int, k: int)
    requires Coupled(s, st, files) && Core(st, files) && CanWrite(st, files, f, k)
    requires CanComplete(s, Data(f, k)) && s.flights[Data(f, k)].addr != 0
    ensures Coupled(Complete(s, Data(f, k)), BlockWritten(st, f, k, s.flights[Data(f, k)].addr), files)
  {
    var a := s.flights[Data(f, k)].addr;
    var s', b := Complete(s, Data(f, k)), BlockWritten(st, f, k, a);
    forall q ensures SameAddr(s', b, files, q) {
      hide Core, AddrAt, Put, Walk, CanWrite;
      assert SameAddr(s, st, files, q);
      if q.Data? && q.ino in files && 0 <= q.idx < MAX_BLOCKS {
        BlockWrittenAddr(st, files, f, k, a, q.ino, q.idx);
      }
    }
  }

  /** Truncating a block is clearing its slot. */
  lemma CoupledTruncate(s: Io<Block>, st: Store, files: set<int>, f: int, k: int)
    requires Coupled(s, st, files) && Core(st, files) && CanWrite(st, files, f, k)
    requires CanTruncate(s, Data(f, k))
    ensures Coupled(Truncate(s, Data(f, k)), BlockWritten(st, f, k, 0), files)
  {
    var s', b := Truncate(s, Data(f, k)), BlockWritten(st, f, k, 0);
    forall q ensures SameAddr(s', b, files, q) {
      hide Core, AddrAt, Put, Walk, CanWrite;
      assert SameAddr(s, st, files, q);
      if q.Data? && q.ino in files && 0 <= q.idx < MAX_BLOCKS {
        BlockWrittenAddr(st, files, f, k, 0, q.ino, q.idx);
      }
    }
  }

  /** Invalidating a cached nid is dropping its address in the table. */
  lemma CoupledDrop(s: Io<Block>, st: Store, files: set<int>, n: int)
    requires Coupled(s, st, files) && 0 <= n && EntryOf(st.book, n).Some?
    ensures Coupled(Drop(s, Node(n)), st.(book := BookInvalidate(st.book, n)), files)
  {
    forall q ensures SameAddr(Drop(s, Node(n)), st.(book := BookInvalidate(st.book, n)), files, q) {
      assert SameAddr(s, st, files, q);
    }
  }

  /** Walks, lookups and allocations move no address. */
  lemma CoupledExtends(s: Io<Block>, a: Store, b: Store, files: set<int>)
    requires Coupled(s, a, files) && Extends(a, b, files)
    ensures Coupled(s, b, files)
  {
    forall q ensures SameAddr(s, b, files, q) {
      assert SameAddr(s, a, files, q);
      match q
      case Node(n) => assert 0 <= n ==> KeepsNid(a, b, n);
      case Data(f, k) => assert f in files && 0 <= k < MAX_BLOCKS ==> KeepsAddr(a, b, f, Path(k));
    }
  }

  /** Flushing an entry to its table page moves no address. */
  lemma CoupledFlush(s: Io<Block>, st: Store, files: set<int>, n: int)
    requires Coupled(s, st, files) && Core(st, files) && n in st.book.used && n / NAT_ENTRY_PER_BLOCK in st.ready
    ensures 0 < n && Coupled(s, Flushed(st, n), files)
  {
    FlushedStore(st, files, n);
    hide Core, Believed;
    forall q ensures SameAddr(s, Flushed(st, n), files, q) {
      assert SameAddr(s, st, files, q);
    }
  }

  /** A new file has no blocks yet. */
  lemma CoupledNewFile(s: Io<Block>, a: Store, b: Store, files: set<int>, m: int)
    requires Coupled(s, a, files) && Core(a, files) && HandsOut(a, b, m) && REG_NID_START <= m
    ensures Coupled(s, b.(dirty := b.dirty + {m}), files + {m})
  {
    var c := b.(dirty := b.dirty + {m});
    NewFileStore(a, b, files, m);
    hide Core, Believed, AddrAt, Supply;
    forall q ensures SameAddr(s, c, files + {m}, q) {
      assert SameAddr(s, a, files, q);
    }
  }

  /**
   * No block is referenced twice: not by two entries of the table, not by two slots of node pages, not by
   * an entry and a slot.
   */
  lemma NoSharedBlock(s: Io<Block>, st: Store, files: set<int>, n: int, m: int, f: int, k: int, g: int, j: int)
    requires Coupled(s, st, files) && Safe(s) && 0 <= n && 0 <= m
    requires f in files && g in files && 0 <= k < MAX_BLOCKS && 0 <= j < MAX_BLOCKS
    ensures Believed(st, n) == Believed(st, m) != 0 ==> n == m
    ensures AddrAt(st.nodes, f, k) == AddrAt(st.nodes, g, j) != 0 ==> f == g && k == j
    ensures Believed(st, n) == AddrAt(st.nodes, f, k) ==> Believed(st, n) == 0
  {
    hide TableOk, OwnerOk, BitOk, Believed, AddrAt, CountOk, StrayOk;
    assert SameAddr(s, st, files, Node(n)) && SameAddr(s, st, files, Node(m));
    assert SameAddr(s, st, files, Data(f, k)) && SameAddr(s, st, files, Data(g, j));
    assert ClaimOk(s, Node(n), Node(m), Believed(st, n));
    assert ClaimOk(s, Data(f, k), Data(g, j), AddrAt(st.nodes, f, k));
    assert ClaimOk(s, Node(n), Data(f, k), Believed(st, n));
  }
}
