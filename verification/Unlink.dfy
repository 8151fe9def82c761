/**
 * Unlinking a direct node: the link in the inode goes, and with it every block address below it, while the
 * validity bits of those blocks stay.
 */
module Unlink {
  import opened Layout
  import opened BlockPath
  import opened NodeTree
  import opened NatCache
  import opened NatStore
  import opened Recovery
  import opened Writeback
  import opened WritePipeline
  import opened Coupling
  import Cutting = Truncate

  // ----- In the pipeline -----

  /** Blocks `lo` to `lo + n` of a file lose their addresses. */
  function DropRange<B>(s: Io<B>, f: int, lo: int, n: nat): Io<B> {
    s.(addr := Zeroed(s.addr, Range(f, lo, n)))
  }

  function Zeroed(addr: map<Page, int>, r: set<Page>): map<Page, int> {
    addr + map p | p in r :: 0
  }

  function Range(f: int, lo: int, n: nat): (r: set<Page>)
    ensures forall p :: p in r <==> p.Data? && p.ino == f && lo <= p.idx < lo + n
  {
    set k | lo <= k < lo + n :: Data(f, k)
  }

  function Drops<B>(f: int, lo: int, n: nat): seq<Step<B>> {
    seq(n, i requires 0 <= i < n => DoDrop(Data(f, lo + i)))
  }

  lemma DropsFirst<B>(s: Io<B>, f: int, lo: int, n: nat)
    requires n > 0
    ensures var drops := Drops<B>(f, lo, n);
            && drops[0] == DoDrop(Data(f, lo)) && drops[1..] == Drops<B>(f, lo + 1, n - 1)
            && CanStep(s, drops[0]) && After(s, drops[0]) == Drop(s, Data(f, lo))
  {
    hide CanSubmit, Submit, CanLand, Land, CanComplete, Complete, CanTruncate, WritePipeline.Truncate, Drop;
    assert Drops<B>(f, lo, n)[1..] == Drops<B>(f, lo + 1, n - 1);
  }

  lemma DropRangeStep<B>(s: Io<B>, f: int, lo: int, n: nat)
    requires n > 0
    ensures DropRange(Drop(s, Data(f, lo)), f, lo + 1, n - 1) == DropRange(s, f, lo, n)
  {
    assert Range(f, lo, n) == {Data(f, lo)} + Range(f, lo + 1, n - 1);
    hide Range;
    ZeroedStep(s.addr, Data(f, lo), Range(f, lo + 1, n - 1));
  }

  lemma ZeroedStep(addr: map<Page, int>, p: Page, r: set<Page>)
    ensures Zeroed(addr[p := 0], r) == Zeroed(addr, {p} + r)
  {
  }

  lemma {:induction false} DropsRun<B(!new)>(s: Io<B>, f: int, lo: int, n: nat)
    ensures CanRun(s, Drops(f, lo, n)) && RunFrom(s, Drops(f, lo, n)) == DropRange(s, f, lo, n)
    decreases n
  {
    if n == 0 {
      assert DropRange(s, f, lo, 0).addr == s.addr;
    } else {
      DropsFirst(s, f, lo, n);
      DropRangeStep(s, f, lo, n);
      DropsRun(Drop(s, Data(f, lo)), f, lo + 1, n - 1);
      hide DropRange, CanStep, After, Drops;
    }
  }

  lemma {:induction false} DropsTight<B(!new)>(s: Io<B>, f: int, lo: int, n: nat)
    ensures CanRun(s, Drops(f, lo, n))
    ensures Tight(s, Drops(f, lo, n)) <==> forall k :: lo <= k < lo + n ==> !Leaks(s, Data(f, k))
    decreases n
  {
    DropsRun(s, f, lo, n);
    if n > 0 {
      var m := Drop(s, Data(f, lo));
      DropsFirst(s, f, lo, n);
      DropsTight(m, f, lo + 1, n - 1);
      forall k | lo + 1 <= k < lo + n ensures Leaks(m, Data(f, k)) <==> Leaks(s, Data(f, k)) {
      }
      hide DropRange, CanStep, After, Drops, Leaks, CanRun;
    }
  }

  lemma DropRangeAddr<B>(s: Io<B>, f: int, lo: int, n: nat, p: Page)
    ensures AddrOf(DropRange(s, f, lo, n), p)
         == if p.Data? && p.ino == f && lo <= p.idx < lo + n then 0 else AddrOf(s, p)
  {
  }

  lemma DropTwice<B>(s: Io<B>, f: int, lo: int, n: nat, k: int)
    requires lo <= k < lo + n
    ensures DropRange(Drop(s, Data(f, k)), f, lo, n) == DropRange(s, f, lo, n)
  {
    assert {Data(f, k)} + Range(f, lo, n) == Range(f, lo, n);
    hide Range;
    ZeroedStep(s.addr, Data(f, k), Range(f, lo, n));
  }

  // ----- In the table and the trees -----

  /** `i_nid[d] = 0`, and the inode page is dirty. */
  function Unlinked(st: Store, f: int, d: int): Store
    requires 0 <= d < 2
  {
    st.(nodes := SetSlot(st.nodes, f, ADDRS_PER_INODE + d, 0), dirty := st.dirty + {f})
  }

  ghost predicate CanUnlink(st: Store, files: set<int>, f: int, d: int) {
    0 <= d < 2 && f in files && f != META_INO && EntryOf(st.book, f).Some?
  }

  lemma UnlinkStore(st: Store, files: set<int>, f: int, d: int)
    requires Core(st, files) && CanUnlink(st, files, f, d)
    ensures Core(Unlinked(st, f, d), files)
    ensures Supply(st) ==> Supply(Unlinked(st, f, d))
    ensures var b := Unlinked(st, f, d);
            && (forall g, q {:trigger Walk(b.nodes, g, q)} :: g in files && IsPrefix(q) ==>
                  Walk(b.nodes, g, q) == if g == f && q == [ADDRS_PER_INODE + d] then 0 else Walk(st.nodes, g, q))
            && (forall g, k {:trigger AddrAt(b.nodes, g, k)} :: g in files && 0 <= k < MAX_BLOCKS ==>
                  AddrAt(b.nodes, g, k) == if g == f && Cutting.InDirect(d, k) then 0 else AddrAt(st.nodes, g, k))
  {
    var b := Unlinked(st, f, d);
    assert IsPrefix([ADDRS_PER_INODE + d]);
    assert Anchored(st, f, []);
    Cutting.UnlinkForest(st.nodes, files, f, d);
    forall g, q | g in files && IsPrefix(q)
      ensures Walk(b.nodes, g, q) == if g == f && q == [ADDRS_PER_INODE + d] then 0 else Walk(st.nodes, g, q)
      ensures Anchored(b, g, q)
    {
      Cutting.UnlinkWalk(st.nodes, files, f, d, g, q);
      assert Anchored(st, g, q);
    }
    forall g, k | g in files && 0 <= k < MAX_BLOCKS
      ensures AddrAt(b.nodes, g, k) == if g == f && Cutting.InDirect(d, k) then 0 else AddrAt(st.nodes, g, k)
    {
      Cutting.UnlinkAddr(st.nodes, files, f, d, g, k);
    }
    UnlinkPages(st, b, files);
    if Supply(st) {
      assert forall g, q {:trigger SameWalk(st, b, g, q)} :: g == META_INO && IsPrefix(q) ==> SameWalk(st, b, g, q);
      SameAbsent(st, b, {META_INO});
    }
  }

  lemma UnlinkPages(st: Store, b: Store, files: set<int>)
    requires PagesReachable(st) && b.book == st.book && b.pages == st.pages && b.ready == st.ready
    requires forall q {:trigger Walk(b.nodes, META_INO, q)} :: IsPrefix(q) ==>
               Walk(b.nodes, META_INO, q) == Walk(st.nodes, META_INO, q)
    requires forall k {:trigger AddrAt(b.nodes, META_INO, k)} :: 0 <= k < MAX_BLOCKS ==>
               AddrAt(b.nodes, META_INO, k) == AddrAt(st.nodes, META_INO, k)
    ensures PagesReachable(b)
  {
    hide AddrAt, Walk;
    forall k | 0 <= k < META_BLOCKS ensures PageReachable(b, k) {
      assert PageReachable(st, k);
    }
  }

  // ----- Both -----

  function UnlinkIo<B>(s: Io<B>, f: int, d: int): Io<B> {
    DropRange(s, f, Cutting.DirectBase(d), ADDRS_PER_BLOCK)
  }

  lemma CoupledUnlink(s: Io<Block>, st: Store, files: set<int>, f: int, d: int)
    requires Coupled(s, st, files) && Core(st, files) && CanUnlink(st, files, f, d)
    ensures Coupled(UnlinkIo(s, f, d), Unlinked(st, f, d), files)
  {
    var b := Unlinked(st, f, d);
    UnlinkStore(st, files, f, d);
    hide Core, AddrAt, Walk, Supply;
    forall p ensures SameAddr(UnlinkIo(s, f, d), b, files, p) {
      assert SameAddr(s, st, files, p);
      DropRangeAddr(s, f, Cutting.DirectBase(d), ADDRS_PER_BLOCK, p);
      match p
      case Node(n) =>
      case Data(g, k) =>
        if g in files && 0 <= k < MAX_BLOCKS {
          assert AddrAt(b.nodes, g, k) == if g == f && Cutting.InDirect(d, k) then 0 else AddrAt(st.nodes, g, k);
        }
    }
  }

  /** Unlinking a node keeps the accounting exact if and only if no marked block is still mapped below it. */
  lemma UnlinkExactIff(s: Io<Block>, st: Store, files: set<int>, f: int, d: int)
    requires Exact(s) && Coupled(s, st, files) && CanUnlink(st, files, f, d)
    requires forall k :: Cutting.InDirect(d, k) ==> Data(f, k) !in s.flights
    ensures Exact(UnlinkIo(s, f, d))
       <==> forall k {:trigger AddrAt(st.nodes, f, k)} :: Cutting.InDirect(d, k) ==>
              AddrAt(st.nodes, f, k) == 0 || AddrAt(st.nodes, f, k) in s.unmarked
  {
    var lo := Cutting.DirectBase(d);
    DropsRun(s, f, lo, ADDRS_PER_BLOCK);
    DropsTight(s, f, lo, ADDRS_PER_BLOCK);
    RunExactIff(s, Drops(f, lo, ADDRS_PER_BLOCK));
    hide Exact, AddrAt, CanRun, RunFrom, Tight;
    forall k | Cutting.InDirect(d, k)
      ensures Leaks(s, Data(f, k)) <==> AddrAt(st.nodes, f, k) != 0 && AddrAt(st.nodes, f, k) !in s.unmarked
    {
      assert SameAddr(s, st, files, Data(f, k));
    }
  }
}
