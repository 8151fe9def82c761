/** The node address table at work: lookups, allocation and the node walk, which call each other. */
module NatFs {
  import opened Layout
  import opened BlockPath
  import opened NodeTree
  import opened NatCache
  import opened NatStore

  datatype WalkResult = Reached(nid: int, need: bool) | NoNode

  class Nat {
    var natList: seq<NatEntry>
    var freeNat: seq<NatEntry>
    var cachedNatCount: int
    var nodes: Nodes
    var natPages: NatPages
    var pageUptodate: set<int>
    /** Node pages changed since they were last written. */
    var nodeDirty: set<int>
    ghost var files: set<int>

    ghost function Cached(): Cache
      reads this
    {
      Cache(natList, freeNat, cachedNatCount)
    }

    ghost function St(): Store
      reads this
    {
      Store(BookOf(Cached()), nodes, natPages, pageUptodate, nodeDirty)
    }

    ghost predicate Valid()
      reads this
    {
      Sane(Cached()) && Core(St(), files)
    }

    /** `__lookup_nat` */
    method LookupCached(nid: int) returns (r: Option<NatEntry>)
      ensures r == EntryOf(BookOf(Cached()), nid) && (r.Some? ==> r.value.nid == nid)
    {
      AsMapAt(natList, nid);
      AsMapAt(freeNat, nid);
      var i := 0;
      while i < |natList|
        invariant 0 <= i <= |natList|
        invariant forall j :: 0 <= j < i ==> natList[j].nid != nid
      {
        ScanFinds(natList, nid, i);
        if natList[i].nid == nid {
          return Some(natList[i]);
        }
        i := i + 1;
      }
      ScanFinds(natList, nid, i);
      i := 0;
      while i < |freeNat|
        invariant 0 <= i <= |freeNat|
        invariant forall j :: 0 <= j < i ==> freeNat[j].nid != nid
      {
        ScanFinds(freeNat, nid, i);
        if freeNat[i].nid == nid {
          return Some(freeNat[i]);
        }
        i := i + 1;
      }
      ScanFinds(freeNat, nid, i);
      r := None;
    }

    /** `__insert_nat` */
    method InsertNat(nid: int, ino: int, addr: int, pinned: bool, dirty: bool) returns (ok: bool)
      modifies `natList, `freeNat, `cachedNatCount
      ensures Cached() == Insert(old(Cached()), nid, ino, addr, pinned)
      ensures ok <==> !old(Has(Cached(), nid))
      ensures IsTail(old(natList), natList)
    {
      AsMapAt(natList, nid);
      AsMapAt(freeNat, nid);
      var ne := NatEntry(nid, ino, addr, pinned, false);
      var t := LookupCached(nid);
      if t.Some? {
        return false;
      }
      if ne.addr != 0 {
        natList := [ne] + natList;
      } else {
        freeNat := [ne] + freeNat;
      }
      cachedNatCount := cachedNatCount + 1;
      ok := true;
    }

    /** The position of a nid on nat_list, as the scans of `__update_nat` and `__remove_nat` find it. */
    method ScanNatList(nid: int) returns (i: int)
      ensures i == IndexOf(natList, nid)
    {
      i := 0;
      while i < |natList|
        invariant 0 <= i <= |natList|
        invariant forall j :: 0 <= j < i ==> natList[j].nid != nid
      {
        ScanFinds(natList, nid, i);
        if natList[i].nid == nid {
          return;
        }
        i := i + 1;
      }
      ScanFinds(natList, nid, i);
      i := -1;
    }

    /** `__update_nat` */
    method UpdateNat(nid: int, addr: int, pinned: bool) returns (ok: bool)
      modifies `natList
      ensures Cached() == Update(old(Cached()), nid, addr, pinned)
      ensures ok <==> IndexOf(old(natList), nid) >= 0
    {
      var i := ScanNatList(nid);
      if i >= 0 && natList[i].addr != addr {
        var ne := natList[i].(addr := addr, pinned := pinned, dirty := true);
        natList := [ne] + (natList[..i] + natList[i + 1..]);
      }
      ok := i >= 0;
    }

    /** `__remove_nat` */
    method RemoveNat(nid: int) returns (ok: bool)
      modifies `natList, `cachedNatCount
      ensures Cached() == Remove(old(Cached()), nid)
      ensures ok <==> IndexOf(old(natList), nid) >= 0
    {
      var i := ScanNatList(nid);
      if i >= 0 {
        natList := natList[..i] + natList[i + 1..];
        cachedNatCount := cachedNatCount - 1;
      }
      ok := i >= 0;
    }

    /** `free_nat_empty`: the first free entry of the range moves to the head of nat_list. */
    method FreeNatEmpty(isMeta: bool) returns (ne: Option<NatEntry>)
      modifies `natList, `freeNat
      ensures var i := FirstFree(old(freeNat), isMeta);
              if i < 0 then ne == None && Cached() == old(Cached())
              else ne == Some(old(freeNat)[i]) && Cached() == TakeFree(old(Cached()), i)
    {
      var i := 0;
      while i < |freeNat|
        invariant 0 <= i <= |freeNat| && Cached() == old(Cached())
        invariant forall j :: 0 <= j < i ==> !InRange(freeNat[j].nid, isMeta)
      {
        FreeScanFinds(freeNat, isMeta, i);
        if InRange(freeNat[i].nid, isMeta) {
          ne := Some(freeNat[i]);
          natList := [freeNat[i]] + natList;
          freeNat := freeNat[..i] + freeNat[i + 1..];
          return;
        }
        i := i + 1;
      }
      FreeScanFinds(freeNat, isMeta, i);
      ne := None;
    }

    /** One round of the caching loop. */
    method InsertRaw(nid: int, raw: RawNat)
      requires Sane(Cached())
      modifies `natList, `freeNat, `cachedNatCount
      ensures Sane(Cached()) && IsTail(old(natList), natList)
      ensures BookOf(Cached()) == BookInsert(old(BookOf(Cached())), NatEntry(nid, raw.ino, raw.addr, false, false))
    {
      InsertRefines(Cached(), nid, raw.ino, raw.addr, false);
      var _ := InsertNat(nid, raw.ino, raw.addr, false, false);
    }

    /** The loop of `lookup_nat` and `alloc_free_nat` that caches every entry of a table page. */
    method InsertBlock(b: int, page: NatPage)
      requires Sane(Cached()) && 0 <= b && page == Content(natPages, b)
      modifies `natList, `freeNat, `cachedNatCount
      ensures Sane(Cached()) && IsTail(old(natList), natList)
      ensures BookOf(Cached()) == CacheBlock(old(BookOf(Cached())), natPages, b, NAT_ENTRY_PER_BLOCK)
    {
      hide Sane, IsTail, BookOf;
      TailRefl(natList);
      var i := 0;
      while i < NAT_ENTRY_PER_BLOCK
        invariant 0 <= i <= NAT_ENTRY_PER_BLOCK
        invariant Sane(Cached()) && IsTail(old(natList), natList)
        invariant BookOf(Cached()) == CacheBlock(old(BookOf(Cached())), natPages, b, i)
      {
        var nid := b * NAT_ENTRY_PER_BLOCK + i;
        if nid >= 3 {
          ghost var before := natList;
          InBlock(b, i);
          InsertRaw(nid, page[i]);
          TailTrans(old(natList), before, natList);
        }
        i := i + 1;
      }
    }

    /** Overwriting the fields of the entry at the head of nat_list. */
    method SetHead(ino: int, addr: int, dirty: bool, pinned: bool)
      requires Sane(Cached()) && |natList| > 0
      modifies `natList
      ensures Sane(Cached()) && |natList| == |old(natList)| && natList[1..] == old(natList)[1..]
      ensures var e := NatEntry(old(natList)[0].nid, ino, addr, pinned, dirty);
              BookOf(Cached()) == old(BookOf(Cached())).(used := old(BookOf(Cached())).used[e.nid := e])
    {
      ghost var e := NatEntry(natList[0].nid, ino, addr, pinned, dirty);
      AsMapSet(natList, 0, e);
      natList := natList[0 := NatEntry(natList[0].nid, ino, addr, pinned, dirty)];
    }

    // ----- The mutual recursion -----

    /** `lookup_nat`: from the cache, or after caching the whole table page of the nid. */
    method LookupNat(nid: int) returns (r: Option<NatEntry>)
      requires Valid() && IsNid(nid) && (nid >= LOW_NIDS ==> Supply(St()))
      modifies `natList, `freeNat, `cachedNatCount, `nodes, `pageUptodate, `nodeDirty
      ensures Valid() && Grows(old(St()), St(), files) && IsTail(old(natList), natList)
      ensures old(Supply(St())) ==> Supply(St())
      ensures nid < LOW_NIDS ==> Reads(old(St()), St(), files)
      ensures old(EntryOf(St().book, nid)).Some? ==> St() == old(St())
      ensures r == EntryOf(St().book, nid) && (r.Some? ==> r.value.nid == nid)
      ensures r.Some? && r.value.addr == Believed(old(St()), nid)
      ensures old(EntryOf(St().book, nid)).None? ==>
                nid / 455 in pageUptodate && (r.Some? ==> r.value.addr == Content(natPages, nid / 455)[nid % 455].addr)
      ensures old(EntryOf(St().book, nid)).None? ==>
                forall n :: 3 <= n && n / 455 == nid / 455 ==> EntryOf(St().book, n).Some?
      ensures nid >= 3 ==> r.Some?
      decreases LookupRank(nid)
    {
      hide Core, Sane, Supply, IsTail, BookOf, Extends, Grows, Reads;
      ghost var start := St();
      Refl(start, files);
      TailRefl(natList);
      MetaInFiles(start, files);
      r := LookupCached(nid);
      if r.Some? {
        return;
      }
      ScanBlock(nid / NAT_ENTRY_PER_BLOCK);
      r := LookupCached(nid);
      SameBelief(start, St(), files, nid);
    }

    /** Reading a table block and caching all its entries. */
    method ScanBlock(b: int)
      requires Valid() && IsNatBlock(b) && (b >= ADDRS_PER_INODE ==> Supply(St()))
      modifies `natList, `freeNat, `cachedNatCount, `nodes, `pageUptodate, `nodeDirty
      ensures Valid() && Grows(old(St()), St(), files) && IsTail(old(natList), natList)
      ensures old(Supply(St())) ==> Supply(St())
      ensures b < ADDRS_PER_INODE ==> Reads(old(St()), St(), files)
      ensures forall n :: 3 <= n && n / NAT_ENTRY_PER_BLOCK == b ==> EntryOf(St().book, n).Some?
      ensures b in pageUptodate
      decreases ReadRank(b), 2
    {
      hide Core, Sane, Supply, IsTail, BookOf, Extends, Grows, Reads, CacheBlock, AsMap;
      var page := ReadRawNatBlock(b);
      ghost var mid, list := St(), natList;
      CacheBlockStore(mid, files, b, NAT_ENTRY_PER_BLOCK);
      InsertBlock(b, page);
      TailTrans(old(natList), list, natList);
      ThenReads(old(St()), mid, St(), files);
    }

    /** `do_prepare_page` on the table file: walk to the page, and again to read its address if it has one. */
    method PrepareMetaPage(b: int) returns (need: bool)
      requires Valid() && 0 <= b < META_BLOCKS && (b >= ADDRS_PER_INODE ==> Supply(St()))
      modifies `natList, `freeNat, `cachedNatCount, `nodes, `pageUptodate, `nodeDirty
      ensures Valid() && Grows(old(St()), St(), files) && IsTail(old(natList), natList)
      ensures old(Supply(St())) ==> Supply(St())
      ensures b < ADDRS_PER_INODE ==> Reads(old(St()), St(), files)
      ensures Dnode(nodes, META_INO, b) != 0
      ensures need <==> old(AddrAt(nodes, META_INO, b)) == 0
      decreases ReadRank(b), 0
    {
      hide Core, Sane, Supply, IsTail, BookOf, Extends, Grows, Reads, Walked, AddrAt;
      MetaInFiles(St(), files);
      var w := GetDnodePage(META_INO, b, true);
      ghost var mid, list := St(), natList;
      MetaWalk(old(St()), mid, files, b);
      if !w.need {
        var _ := GetDnodePage(META_INO, b, false);
        MetaWalkAgain(old(St()), mid, St(), files, b);
        TailTrans(old(natList), list, natList);
      }
      need := w.need;
    }

    /** `read_raw_nat_block`: a page of the table file, creating the way to it if there is none. */
    method ReadRawNatBlock(b: int) returns (page: NatPage)
      requires Valid() && 0 <= b < META_BLOCKS && (b >= ADDRS_PER_INODE ==> Supply(St()))
      modifies `natList, `freeNat, `cachedNatCount, `nodes, `pageUptodate, `nodeDirty
      ensures Valid() && Grows(old(St()), St(), files) && IsTail(old(natList), natList)
      ensures old(Supply(St())) ==> Supply(St())
      ensures b < ADDRS_PER_INODE ==> Reads(old(St()), St(), files)
      ensures page == Content(natPages, b)
      ensures b in pageUptodate
      decreases ReadRank(b), 1
    {
      hide Core, Sane, Supply, IsTail, BookOf, Extends, Grows, Reads, AddrAt;
      Refl(St(), files);
      TailRefl(natList);
      if b in pageUptodate {
        return Content(natPages, b);
      }
      HoleIsEmpty(St(), files, b);
      var need := PrepareMetaPage(b);
      SamePages(old(St()), St(), files);
      page := if need then ZeroPage() else Content(natPages, b);
      ghost var last := St();
      MarkReady(last, files, b);
      pageUptodate := pageUptodate + {b};
      ThenReads(old(St()), last, St(), files);
    }

    /**
     * `get_node_page`: a node page, read through its table entry.  (For a page that is still up to date
     * the code skips the lookup; its entry is cached then, so the lookup changes nothing.)
     */
    method GetNodePage(nid: int) returns (page: NodePage)
      requires Valid() && IsNid(nid) && (nid >= LOW_NIDS ==> Supply(St()))
      modifies `natList, `freeNat, `cachedNatCount, `nodes, `pageUptodate, `nodeDirty
      ensures Valid() && Grows(old(St()), St(), files) && IsTail(old(natList), natList)
      ensures old(Supply(St())) ==> Supply(St())
      ensures nid < LOW_NIDS ==> Reads(old(St()), St(), files)
      ensures nid == META_INO ==> St() == old(St())
      ensures page == PageOf(nodes, nid) && EntryOf(St().book, nid).Some?
      decreases LookupRank(nid) + 1
    {
      hide Core, Sane, Supply, IsTail, BookOf, Extends, Grows, Reads;
      Refl(St(), files);
      TailRefl(natList);
      MetaInFiles(St(), files);
      var _ := LookupNat(nid);
      page := PageOf(nodes, nid);
    }

    /** The creating part of a level: allocate a nid, store it in the parent's slot, set up its entry. */
    method CreateNode(ino: int, iblock: int, i: nat, nid: int) returns (next: int)
      requires Valid() && ino in files && CanWalk(St(), ino, iblock, true, 1)
      requires i < Depth(iblock) && nid == Walk(nodes, ino, Up(iblock, i)) != 0
      requires EntryOf(St().book, nid).Some? && Walk(nodes, ino, Up(iblock, i + 1)) == 0
      modifies `natList, `freeNat, `cachedNatCount, `nodes, `pageUptodate, `nodeDirty
      ensures Valid() && Supply(St()) && IsTail(old(natList), natList)
      ensures Walked(old(St()), St(), files, ino, true)
      ensures |FreeRegular(St())| >= |FreeRegular(old(St()))| - 1
      ensures next == Walk(nodes, ino, Up(iblock, i + 1)) != 0
      ensures FreshEntry(St(), ino, next) && SameFrom(old(St()), St(), ino, iblock, i + 2)
      decreases WalkRank(ino, iblock), 0, 0
    {
      hide Core, Sane, Supply, IsTail, BookOf, Extends, Grows, Reads, FreeRegular, AllocSoFar, Anchored, Walked, AsMap;
      ghost var st := St();
      DeepWalk(iblock);
      CanAllocOne(st, files, ino, iblock, i + 1);
      ghost var mid;
      var ne;
      ne, mid := AllocFreeNat(ino == META_INO);
      ghost var out, list := St(), natList[1..];
      AllocatedFor(st, mid, files, ino, iblock, i, ne.nid);
      nodes := SetSlot(nodes, nid, Path(iblock)[i], ne.nid);
      nodeDirty := nodeDirty + {nid};
      SetHead(ino, 0, true, false);
      AdoptsNow(mid, out, St(), ino, Up(iblock, i + 1), ne.nid);
      AdoptStore(mid, St(), files, ino, iblock, i + 1, ne.nid);
      WalkedByAdopting(st, mid, St(), files, ino);
      AdoptKeepsOthers(st, mid, St(), files, ino, iblock, i, ne.nid);
      TailStep(natList);
      TailTrans(old(natList), list, natList);
      next := ne.nid;
    }

    /**
     * One level of `get_dnode_page`: read a node page and follow the slot on the path, creating a node
     * when the slot is empty and `create` is set.
     */
    method Descend(ino: int, iblock: int, i: nat, nid: int, create: bool) returns (next: int)
      requires Valid() && ino in files && CanWalk(St(), ino, iblock, create, 1)
      requires i < Depth(iblock) && nid == Walk(nodes, ino, Up(iblock, i)) != 0
      modifies `natList, `freeNat, `cachedNatCount, `nodes, `pageUptodate, `nodeDirty
      ensures Valid() && Supply(St()) && IsTail(old(natList), natList)
      ensures Walked(old(St()), St(), files, ino, create)
      ensures |FreeRegular(St())| >= |FreeRegular(old(St()))| - 1
      ensures next == Walk(nodes, ino, Up(iblock, i + 1))
      ensures create ==> next != 0
      ensures next != 0 && old(Walk(nodes, ino, Up(iblock, i + 1))) == 0 ==> FreshEntry(St(), ino, next)
      ensures SameFrom(old(St()), St(), ino, iblock, i + 2)
      decreases WalkRank(ino, iblock), 0, 1
    {
      hide Core, Sane, Supply, IsTail, BookOf, Extends, Grows, Reads, FreeRegular, Anchored, Walked;
      ghost var start := St();
      DeepWalk(iblock);
      AnchoredAt(start, files, ino, iblock, i);
      var page := GetNodePage(nid);
      ghost var st, list := St(), natList;
      NodePageRead(start, st, files, ino, iblock, i, create);
      ReadKeepsWalks(start, st, files, ino, iblock);
      next := page[Path(iblock)[i]];
      if next == 0 && create {
        next := CreateNode(ino, iblock, i, nid);
        WalkedTrans(start, st, St(), files, ino, true);
        TailTrans(old(natList), list, natList);
      }
    }

    /**
     * `get_dnode_page`: the node page holding the address of block `iblock` of file `ino`, and whether
     * that address is still missing.  With `create` the way there is created.
     */
    method GetDnodePage(ino: int, iblock: int, create: bool) returns (r: WalkResult)
      requires Valid() && ino in files && CanWalk(St(), ino, iblock, create, 3)
      modifies `natList, `freeNat, `cachedNatCount, `nodes, `pageUptodate, `nodeDirty
      ensures Valid() && IsTail(old(natList), natList)
      ensures old(Supply(St())) ==> Supply(St())
      ensures Walked(old(St()), St(), files, ino, create)
      ensures ino == META_INO && iblock < ADDRS_PER_INODE ==> Reads(old(St()), St(), files)
      ensures create ==> r.Reached?
      ensures r.NoNode? <==> !create && old(Dnode(nodes, ino, iblock)) == 0
      ensures r.Reached? ==> r.nid == Dnode(nodes, ino, iblock) != 0
      ensures r.Reached? ==> (r.need <==> AddrAt(nodes, ino, iblock) == 0)
      ensures r.Reached? ==> EntryOf(St().book, r.nid).Some?
      ensures r.Reached? ==> NewEntries(old(St()), St(), ino, iblock, Depth(iblock))
      decreases WalkRank(ino, iblock), 1
    {
      hide Core, Sane, Supply, IsTail, BookOf, Extends, Grows, Reads, FreeRegular, Anchored, Walked;
      ghost var start := St();
      WalkedRefl(start, files, ino, create);
      TailRefl(natList);
      var path := Path(iblock);
      var cur := ino;
      var i := 0;
      InodeItself(start, files, ino, iblock);
      while i < |path| - 1
        invariant 0 <= i <= Depth(iblock)
        invariant Valid() && IsTail(old(natList), natList) && Walked(start, St(), files, ino, create)
        invariant CanWalk(St(), ino, iblock, create, 3 - i)
        invariant cur == Walk(nodes, ino, Up(iblock, i)) != 0
        invariant i == 0 ==> St() == start
        invariant NewEntries(start, St(), ino, iblock, i) && SameFrom(start, St(), ino, iblock, i + 1)
      {
        ghost var st, list := St(), natList;
        DeepWalk(iblock);
        cur := Descend(ino, iblock, i, cur, create);
        WalkedTrans(start, st, St(), files, ino, create);
        TailTrans(old(natList), list, natList);
        i := i + 1;
        if cur == 0 {
          NoNodeBelow(start, St(), files, ino, iblock, i);
          return NoNode;
        }
        EntriesNext(start, st, St(), files, ino, iblock, create, i);
      }
      ghost var st, list := St(), natList;
      AnchoredAt(st, files, ino, iblock, i);
      NotMissing(start, st, files, ino, iblock, create);
      var page := GetNodePage(cur);
      LastPageRead(st, St(), files, ino, iblock, create);
      EntriesStay(start, st, St(), files, ino, iblock, create, i);
      WalkedTrans(start, st, St(), files, ino, create);
      TailTrans(old(natList), list, natList);
      r := Reached(cur, page[path[i]] == 0);
    }

    /** `xcpfs_new_inode`: a regular nid is handed out and owns itself; its page is to be written. */
    method NewInode() returns (ino: int, ghost mid: Store)
      requires Valid() && CanAlloc(St(), false)
      modifies `natList, `freeNat, `cachedNatCount, `nodes, `pageUptodate, `nodeDirty, `files
      ensures Valid() && Supply(St())
      ensures files == old(files) + {ino} && ino !in old(files) && REG_NID_START <= ino
      ensures ino in St().book.used && St().book.used[ino].ino == ino
      ensures UsedGrows(old(St()), St()) && UsedGrows(mid, St())
      ensures Grows(old(St()), mid, old(files)) && Core(mid, old(files))
      ensures St().nodes == mid.nodes && St().pages == mid.pages && St().ready == mid.ready
          && St().dirty == mid.dirty + {ino}
      ensures forall n {:trigger Believed(St(), n)} :: 0 <= n ==> Believed(St(), n) == Believed(mid, n)
      ensures forall n {:trigger Stale(St(), n)} :: 0 <= n && Stale(St(), n) ==> Stale(mid, n)
      ensures forall k {:trigger AddrAt(nodes, ino, k)} :: 0 <= k < MAX_BLOCKS ==> AddrAt(nodes, ino, k) == 0
    {
      hide Core, Sane, Supply, IsTail, BookOf, Extends, Grows, Reads, Believed, Stale, CanAlloc, AddrAt, UsedGrows;
      ghost var start := St();
      var ne;
      ne, mid := AllocFreeNat(false);
      ghost var out := St();
      HeadEntry();
      SetHead(ne.nid, ne.addr, ne.dirty, ne.pinned);
      ino := ne.nid;
      OwnEntry(mid, out, St(), ino);
      AllocUsed(start, mid, St(), old(files), ino);
      NewFileStore(mid, St(), files, ino);
      nodeDirty := nodeDirty + {ino};
      files := files + {ino};
    }

    lemma HeadEntry()
      requires Sane(Cached()) && natList != []
      ensures natList[0].nid in BookOf(Cached()).used && BookOf(Cached()).used[natList[0].nid] == natList[0]
    {
      AsMapMember(natList, 0);
    }

    /** `invalidate_nat`: the entry loses its address wherever it is cached, and the next flush clears its page. */
    method InvalidateNat(nid: int)
      requires Valid() && IsNid(nid) && (nid >= LOW_NIDS ==> Supply(St()))
      modifies `natList, `freeNat, `cachedNatCount, `nodes, `pageUptodate, `nodeDirty
      ensures Valid()
      ensures forall n :: 0 <= n ==> Believed(St(), n) == if n == nid then 0 else old(Believed(St(), n))
      ensures forall n :: 0 <= n && old(Busy(St(), n)) ==> Busy(St(), n)
      ensures EntryOf(St().book, nid) == Some(NatEntry(nid, 0, 0, false, true))
      ensures UsedGrows(old(St()), St())
    {
      hide Core, Sane, Supply, IsTail, BookOf, Extends, Grows, Reads, Believed;
      ghost var start := St();
      var _ := LookupNat(nid);
      ghost var st, c := St(), Cached();
      InvalidateStore(start, st, files, nid);
      InvalidateRefines(c, nid);
      AsMapAt(natList, nid);
      AsMapAt(freeNat, nid);
      var i := ScanNatList(nid);
      if i >= 0 {
        natList := natList[i := NatEntry(nid, 0, 0, false, true)];
      } else {
        i := 0;
        while i < |freeNat| && freeNat[i].nid != nid
          invariant 0 <= i <= |freeNat| && forall j :: 0 <= j < i ==> freeNat[j].nid != nid
        {
          i := i + 1;
        }
        ScanFinds(freeNat, nid, i);
        if i < |freeNat| {
          freeNat := freeNat[i := NatEntry(nid, 0, 0, false, true)];
        }
      }
      assert Cached() == Invalidate(c, nid);
    }

    /** `free_nat_empty` on the whole state: a free nid of the range is handed out if one is cached. */
    method TakeFreeNat(isMeta: bool) returns (ne: Option<NatEntry>)
      requires Valid()
      modifies `natList, `freeNat
      ensures Valid() && Took(old(St()), St(), isMeta, ne)
      ensures natList == Pushed(ne, old(natList))
    {
      ghost var c, st := Cached(), St();
      ne := FreeNatEmpty(isMeta);
      ghost var i := FirstFree(c.free, isMeta);
      if i < 0 {
        forall n | n in st.book.free ensures !InRange(n, isMeta) {
          if InRange(n, isMeta) {
            FirstFreeExists(c.free, isMeta, n);
          }
        }
      } else {
        TakeFreeRefines(c, i);
        AsMapMember(c.free, i);
        HandOutStore(st, St(), files, ne.value.nid);
      }
    }

    /** One round of `alloc_free_nat`: scan a block, then look at free_nat again. */
    method ScanAndTake(iblock: int, isMeta: bool)
        returns (ne: Option<NatEntry>, ghost mid: Store, ghost list: seq<NatEntry>)
      requires Valid() && IsNatBlock(iblock) && (iblock >= ADDRS_PER_INODE ==> Supply(St()))
      modifies `natList, `freeNat, `cachedNatCount, `nodes, `pageUptodate, `nodeDirty
      ensures Valid() && Core(mid, files) && Took(mid, St(), isMeta, ne)
      ensures isMeta ==> iblock < ADDRS_PER_INODE ==> AllocSoFar(old(St()), mid, files, isMeta)
      ensures !isMeta && iblock >= ADDRS_PER_INODE ==> AllocSoFar(old(St()), mid, files, isMeta)
      ensures forall n :: 3 <= n && n / NAT_ENTRY_PER_BLOCK == iblock ==> EntryOf(mid.book, n).Some?
      ensures IsTail(old(natList), list) && natList == Pushed(ne, list)
      decreases ReadRank(iblock), 3
    {
      ScanBlock(iblock);
      mid, list := St(), natList;
      ne := TakeFreeNat(isMeta);
    }

    /** `alloc_free_nat`: the first free nid of the range, scanning table blocks until there is one. */
    method AllocFreeNat(isMeta: bool) returns (ne: NatEntry, ghost mid: Store)
      requires Valid()
      requires CanAlloc(St(), isMeta)
      modifies `natList, `freeNat, `cachedNatCount, `nodes, `pageUptodate, `nodeDirty
      ensures Valid() && Core(mid, files) && AllocSoFar(old(St()), mid, files, isMeta)
      ensures InRange(ne.nid, isMeta) && HandsOut(mid, St(), ne.nid)
      ensures |natList| > 0 && natList[0] == ne && IsTail(old(natList), natList[1..])
      ensures old(FreeUnshown(St())) ==> OnPage(natPages, ne.nid).addr == 0
      decreases AllocRank(isMeta)
    {
      hide Core, Sane, FreeUnshown, HandsOut, IsTail, BookOf, AllocSoFar, FreeNid, CanAlloc, Pushed;
      ghost var n := AllocTarget(St(), isMeta);
      ghost var list := natList;
      mid := St();
      AllocRefl(mid, files, isMeta);
      TailRefl(list);
      var iblock := if isMeta then 0 else REG_NAT_START;
      var found := TakeFreeNat(isMeta);
      while found.None?
        invariant (if isMeta then 0 else REG_NAT_START) <= iblock <= n / NAT_ENTRY_PER_BLOCK + 1
        invariant Valid() && Core(mid, files) && Took(mid, St(), isMeta, found)
        invariant AllocSoFar(old(St()), mid, files, isMeta)
        invariant n / NAT_ENTRY_PER_BLOCK < iblock ==> EntryOf(mid.book, n).Some?
        invariant IsTail(old(natList), list) && natList == Pushed(found, list)
        decreases n / NAT_ENTRY_PER_BLOCK + 1 - iblock
      {
        NotScannedYet(old(St()), mid, files, isMeta, n, iblock);
        PushedNone(list);
        ghost var before, listBefore := mid, list;
        found, mid, list := ScanAndTake(iblock, isMeta);
        AllocRound(old(St()), before, mid, files, isMeta, n);
        TailTrans(old(natList), listBefore, list);
        iblock := iblock + 1;
      }
      ne := found.value;
      PushedSome(ne, list);
      TakenUnshown(old(St()), mid, St(), files, isMeta, ne.nid);
    }
  }

  lemma TakenUnshown(a: Store, mid: Store, b: Store, files: set<int>, isMeta: bool, m: int)
    requires Core(a, files) && Core(mid, files) && AllocSoFar(a, mid, files, isMeta) && HandsOut(mid, b, m)
    ensures 0 <= m && (FreeUnshown(a) ==> OnPage(b.pages, m).addr == 0)
  {
    hide Sane, Supply;
    if FreeUnshown(a) {
      ExtendsUnshown(a, mid, files);
    }
  }

  lemma PushedNone(list: seq<NatEntry>)
    ensures Pushed(None, list) == list
  {
  }

  lemma PushedSome(e: NatEntry, list: seq<NatEntry>)
    ensures |Pushed(Some(e), list)| > 0 && Pushed(Some(e), list)[0] == e && Pushed(Some(e), list)[1..] == list
  {
  }

  ghost predicate FreeNid(st: Store, isMeta: bool, n: int) {
    n in (if isMeta then FreeLow(st) else FreeRegular(st))
  }

  /** A free nid of the range exists; a regular allocation may also need nodes for the table itself. */
  ghost predicate CanAlloc(st: Store, isMeta: bool) {
    if isMeta then FreeLow(st) != {} else Supply(st) && FreeRegular(st) != {}
  }

  lemma AllocTarget(st: Store, isMeta: bool) returns (n: int)
    requires CanAlloc(st, isMeta)
    ensures FreeNid(st, isMeta, n) && 3 <= n
    ensures if isMeta then n / NAT_ENTRY_PER_BLOCK < ADDRS_PER_INODE
            else REG_NAT_START <= n / NAT_ENTRY_PER_BLOCK < NAT_BLOCKS
  {
    if isMeta {
      n :| n in FreeLow(st);
    } else {
      n :| n in FreeRegular(st);
    }
  }

  lemma AllocRefl(st: Store, files: set<int>, isMeta: bool)
    requires CanAlloc(st, isMeta)
    ensures AllocSoFar(st, st, files, isMeta)
  {
    Refl(st, files);
  }

  function Pushed(ne: Option<NatEntry>, list: seq<NatEntry>): seq<NatEntry> {
    (if ne.Some? then [ne.value] else []) + list
  }

  /** What `free_nat_empty` did: handed out a nid of the range, or found none cached. */
  ghost predicate Took(a: Store, b: Store, isMeta: bool, ne: Option<NatEntry>) {
    match ne
    case None => b == a && forall n :: n in a.book.free ==> !InRange(n, isMeta)
    case Some(e) => InRange(e.nid, isMeta) && HandsOut(a, b, e.nid)
  }

  /** What a walk needs: inside the table file enough low nids, elsewhere also enough regular ones. */
  ghost predicate CanWalk(st: Store, ino: int, iblock: int, create: bool, regular: nat) {
    && 0 <= iblock < MAX_BLOCKS
    && (ino == META_INO ==> iblock < META_BLOCKS)
    && (ino != META_INO || iblock >= ADDRS_PER_INODE ==> Supply(st))
    && (ino != META_INO && create ==> |FreeRegular(st)| >= regular)
  }

  /** What a walk in file `ino` may change. */
  ghost predicate Walked(a: Store, b: Store, files: set<int>, ino: int, create: bool) {
    && Extends(a, b, files)
    && (ino == META_INO || !create ==> Grows(a, b, files))
    && (ino == META_INO && !create ==> Reads(a, b, files))
  }

  // ----- The entries of the nodes a walk creates -----

  /** A node created for file `ino`: its entry names the file, has no address yet, and is to be flushed. */
  predicate FreshEntry(b: Store, ino: int, w: int) {
    w != 0 && w in b.book.used && b.book.used[w] == NatEntry(w, ino, 0, false, true)
  }

  /** Every node of the first `k` levels that was missing has such an entry. */
  ghost predicate NewEntries(a: Store, b: Store, ino: int, iblock: int, k: nat)
    requires 0 <= iblock < MAX_BLOCKS && k <= Depth(iblock)
  {
    forall j: nat {:trigger Up(iblock, j)} :: 0 < j <= k && Walk(a.nodes, ino, Up(iblock, j)) == 0 ==>
      FreshEntry(b, ino, Walk(b.nodes, ino, Up(iblock, j)))
  }

  /** From level `i` on the walk is as it was. */
  ghost predicate SameFrom(a: Store, b: Store, ino: int, iblock: int, i: nat)
    requires 0 <= iblock < MAX_BLOCKS
  {
    forall j: nat {:trigger Up(iblock, j)} :: i <= j <= Depth(iblock) ==>
      Walk(b.nodes, ino, Up(iblock, j)) == Walk(a.nodes, ino, Up(iblock, j))
  }

  lemma ReadKeepsWalks(a: Store, b: Store, files: set<int>, ino: int, iblock: int)
    requires Grows(a, b, files) && ino in files && (ino == META_INO ==> Reads(a, b, files))
    requires 0 <= iblock < MAX_BLOCKS
    ensures SameFrom(a, b, ino, iblock, 0)
  {
    forall j: nat | j <= Depth(iblock)
      ensures Walk(b.nodes, ino, Up(iblock, j)) == Walk(a.nodes, ino, Up(iblock, j))
    {
      assert ino != META_INO ==> SameWalk(a, b, ino, Up(iblock, j));
    }
  }

  lemma AdoptKeepsOthers(st: Store, mid: Store, now: Store, files: set<int>, ino: int, iblock: int, i: nat, m: int)
    requires AllocSoFar(st, mid, files, ino == META_INO) && ino in files && Core(mid, files)
    requires 0 <= iblock < MAX_BLOCKS && i < Depth(iblock) && Adopts(mid, now, ino, Up(iblock, i + 1), m)
    requires Walk(mid.nodes, ino, Up(iblock, i)) != 0 && Walk(mid.nodes, ino, Up(iblock, i + 1)) == 0
    requires Up(iblock, i + 1)[..i] == Up(iblock, i) && |Up(iblock, i + 1)| == i + 1
    ensures SameFrom(st, now, ino, iblock, i + 2)
  {
    var out := mid.(book := now.book);
    HandOutStore(mid, out, files, m);
    AdoptLinks(mid, files, ino, Up(iblock, i + 1), m);
    hide Core, Adopts, Up, Walk, Extends;
    ReadKeepsWalks(st, mid, files, ino, iblock);
    forall j: nat | i + 2 <= j <= Depth(iblock)
      ensures Walk(now.nodes, ino, Up(iblock, j)) == Walk(st.nodes, ino, Up(iblock, j))
    {
      LinkWalk(mid.nodes, files, ino, Up(iblock, i + 1), m, ino, Up(iblock, j));
    }
  }

  lemma EntriesStay(a: Store, b: Store, c: Store, files: set<int>, ino: int, iblock: int, create: bool, k: nat)
    requires 0 <= iblock < MAX_BLOCKS && k <= Depth(iblock) && ino in files
    requires NewEntries(a, b, ino, iblock, k) && Walked(b, c, files, ino, create) && Core(b, files)
    ensures NewEntries(a, c, ino, iblock, k)
  {
    forall j: nat | 0 < j <= k && Walk(a.nodes, ino, Up(iblock, j)) == 0
      ensures FreshEntry(c, ino, Walk(c.nodes, ino, Up(iblock, j)))
    {
      var w := Walk(b.nodes, ino, Up(iblock, j));
      UsedNid(b, files, w);
      assert KeepsWalk(b, c, ino, Up(iblock, j)) && KeepsNid(b, c, w);
    }
  }

  lemma EntriesNext(a: Store, b: Store, c: Store, files: set<int>, ino: int, iblock: int, create: bool, k: nat)
    requires 0 <= iblock < MAX_BLOCKS && 0 < k <= Depth(iblock) && ino in files
    requires NewEntries(a, b, ino, iblock, k - 1) && SameFrom(a, b, ino, iblock, k)
    requires Walked(b, c, files, ino, create) && Core(b, files) && SameFrom(b, c, ino, iblock, k + 1)
    requires Walk(b.nodes, ino, Up(iblock, k)) == 0 ==> FreshEntry(c, ino, Walk(c.nodes, ino, Up(iblock, k)))
    ensures NewEntries(a, c, ino, iblock, k) && SameFrom(a, c, ino, iblock, k + 1)
  {
    EntriesStay(a, b, c, files, ino, iblock, create, k - 1);
  }

  /** Scanning on behalf of a meta allocation only fills the cache; a regular one may grow the meta file. */
  ghost predicate AllocSoFar(a: Store, b: Store, files: set<int>, isMeta: bool) {
    && Grows(a, b, files)
    && (Supply(a) ==> Supply(b))
    && if isMeta then Reads(a, b, files) else Supply(b)
  }

  lemma AllocRound(a: Store, b: Store, c: Store, files: set<int>, isMeta: bool, n: int)
    requires AllocSoFar(a, b, files, isMeta) && AllocSoFar(b, c, files, isMeta) && 0 <= n
    ensures AllocSoFar(a, c, files, isMeta)
    ensures EntryOf(b.book, n).Some? ==> EntryOf(c.book, n).Some?
  {
    GrowsTrans(a, b, c, files);
    if isMeta {
      ReadsTrans(a, b, c, files);
    }
    assert KeepsNid(b, c, n);
  }

  /** Termination measure of the mutual recursion: lookups below 409500 never need a high one. */
  function LookupRank(nid: int): nat {
    if nid == META_INO then 0 else if nid < LOW_NIDS then 4 else 8
  }

  function ReadRank(b: int): nat {
    if b < ADDRS_PER_INODE then 3 else 7
  }

  function WalkRank(ino: int, idx: int): nat {
    if ino != META_INO then 10 else if idx < ADDRS_PER_INODE then 2 else 6
  }

  function AllocRank(isMeta: bool): nat {
    if isMeta then 4 else 8
  }

  lemma InBlock(b: int, i: int)
    requires 0 <= i < NAT_ENTRY_PER_BLOCK
    ensures (b * NAT_ENTRY_PER_BLOCK + i) / NAT_ENTRY_PER_BLOCK == b &&
            (b * NAT_ENTRY_PER_BLOCK + i) % NAT_ENTRY_PER_BLOCK == i
  {
  }

  ghost predicate IsTail(a: seq<NatEntry>, b: seq<NatEntry>) {
    |a| <= |b| && b[|b| - |a|..] == a
  }

  lemma TailRefl(a: seq<NatEntry>)
    ensures IsTail(a, a)
  {
  }

  lemma TailTrans(a: seq<NatEntry>, b: seq<NatEntry>, c: seq<NatEntry>)
    requires IsTail(a, b) && IsTail(b, c)
    ensures IsTail(a, c)
  {
    assert c[|c| - |a|..] == c[|c| - |b|..][|b| - |a|..];
  }

  /** While no free nid of the range is cached, the block of a free one has not been scanned. */
  lemma NotScannedYet(a: Store, b: Store, files: set<int>, isMeta: bool, n: int, iblock: int)
    requires Core(b, files) && AllocSoFar(a, b, files, isMeta) && FreeNid(a, isMeta, n)
    requires (if isMeta then 0 else REG_NAT_START) <= iblock
    requires Took(b, b, isMeta, None)
    requires n / NAT_ENTRY_PER_BLOCK < iblock ==> EntryOf(b.book, n).Some?
    ensures iblock <= n / NAT_ENTRY_PER_BLOCK && IsNatBlock(iblock) && (isMeta ==> iblock < ADDRS_PER_INODE)
    ensures iblock >= ADDRS_PER_INODE ==> Supply(b)
  {
    assert KeepsNid(a, b, n);
  }

  lemma MetaInFiles(st: Store, files: set<int>)
    requires Core(st, files)
    ensures META_INO in files && EntryOf(st.book, META_INO).Some?
  {
  }

  lemma MetaWalk(a: Store, b: Store, files: set<int>, k: int)
    requires Walked(a, b, files, META_INO, true) && META_INO in files && 0 <= k < META_BLOCKS
    ensures Grows(a, b, files) && AddrAt(b.nodes, META_INO, k) == AddrAt(a.nodes, META_INO, k)
  {
    assert KeepsAddr(a, b, META_INO, Path(k));
  }

  lemma MetaWalkAgain(a: Store, b: Store, c: Store, files: set<int>, k: int)
    requires Grows(a, b, files) && Walked(b, c, files, META_INO, false) && META_INO in files
    requires 0 <= k < META_BLOCKS && Dnode(b.nodes, META_INO, k) != 0
    ensures Grows(a, c, files) && Dnode(c.nodes, META_INO, k) != 0
    ensures Reads(a, b, files) ==> Reads(a, c, files)
  {
    GrowsTrans(a, b, c, files);
    if Reads(a, b, files) {
      ReadsTrans(a, b, c, files);
    }
  }

  /** A hole of the table file that is not up to date reads as zeroes. */
  lemma HoleIsEmpty(st: Store, files: set<int>, b: int)
    requires Core(st, files) && 0 <= b < META_BLOCKS && b !in st.ready
    ensures AddrAt(st.nodes, META_INO, b) == 0 ==> Content(st.pages, b) == ZeroPage()
  {
    assert PageReachable(st, b);
  }

  /** Dropping the address of a cached nid changes what is believed about that nid only. */
  lemma InvalidateStore(start: Store, st: Store, files: set<int>, nid: int)
    requires Core(start, files) && Grows(start, st, files) && Core(st, files) && EntryOf(st.book, nid).Some?
    ensures var b := st.(book := BookInvalidate(st.book, nid));
      && Core(b, files)
      && (forall n :: 0 <= n ==> Believed(b, n) == if n == nid then 0 else Believed(start, n))
      && (forall n :: 0 <= n && Busy(start, n) ==> Busy(b, n))
      && EntryOf(b.book, nid) == Some(NatEntry(nid, 0, 0, false, true))
      && UsedGrows(start, b)
  {
    var b := st.(book := BookInvalidate(st.book, nid));
    ExtendsUsed(start, st, files);
    forall n | 0 <= n ensures Busy(b, n) <==> Busy(st, n) {
    }
    forall n | 0 <= n ensures (Busy(start, n) ==> Busy(st, n)) && Believed(st, n) == Believed(start, n) {
      assert KeepsNid(start, st, n);
    }
    forall f, q | f in files && IsPrefix(q) ensures Anchored(b, f, q) {
      assert Anchored(st, f, q);
    }
    forall k | 0 <= k < META_BLOCKS ensures PageReachable(b, k) {
      assert PageReachable(st, k);
    }
  }

  lemma OwnEntry(a: Store, b: Store, c: Store, m: int)
    requires HandsOut(a, b, m) && m in c.book.used && c.book.used[m].addr == b.book.used[m].addr
    requires c == b.(book := b.book.(used := b.book.used[m := c.book.used[m]]))
    ensures HandsOut(a, c, m)
  {
    assert b.book.used[m := c.book.used[m]] == a.book.used[m := c.book.used[m]];
  }

  lemma AllocUsed(a: Store, mid: Store, b: Store, files: set<int>, m: int)
    requires Core(a, files) && Grows(a, mid, files) && HandsOut(mid, b, m)
    ensures UsedGrows(a, b) && UsedGrows(mid, b)
    ensures forall d: set<int> :: UsedGrows(a, b.(dirty := d)) && UsedGrows(mid, b.(dirty := d))
  {
    ExtendsUsed(a, mid, files);
  }

  lemma SamePages(a: Store, b: Store, files: set<int>)
    requires Extends(a, b, files) || Grows(a, b, files)
    ensures b.pages == a.pages
  {
  }

  lemma SameBelief(a: Store, b: Store, files: set<int>, n: int)
    requires Grows(a, b, files) && Core(b, files) && 0 <= n
    ensures EntryOf(b.book, n).Some? ==> EntryOf(b.book, n).value.addr == Believed(a, n)
  {
    assert KeepsNid(a, b, n);
  }

  lemma ThenReads(a: Store, b: Store, c: Store, files: set<int>)
    requires Grows(a, b, files) && Reads(b, c, files)
    ensures Grows(a, c, files)
    ensures Reads(a, b, files) ==> Reads(a, c, files)
    ensures Supply(b) ==> Supply(c)
  {
    ReadsGrows(b, c, files);
    GrowsTrans(a, b, c, files);
    if Reads(a, b, files) {
      ReadsTrans(a, b, c, files);
    }
  }

  // ----- The steps of a walk -----

  lemma TailStep(a: seq<NatEntry>)
    requires |a| > 0
    ensures IsTail(a[1..], a)
  {
  }

  lemma InodeItself(st: Store, files: set<int>, ino: int, iblock: int)
    requires Core(st, files) && ino in files && 0 <= iblock < MAX_BLOCKS
    ensures Walk(st.nodes, ino, Up(iblock, 0)) == ino != 0
  {
  }

  lemma WalkedRefl(a: Store, files: set<int>, ino: int, create: bool)
    ensures Walked(a, a, files, ino, create) && Reads(a, a, files)
  {
    Refl(a, files);
  }

  lemma WalkedTrans(a: Store, b: Store, c: Store, files: set<int>, ino: int, create: bool)
    requires Walked(a, b, files, ino, create) && Walked(b, c, files, ino, create)
    ensures Walked(a, c, files, ino, create)
  {
    ExtendsTrans(a, b, c, files);
    if ino == META_INO || !create {
      GrowsTrans(a, b, c, files);
    }
    if ino == META_INO && !create {
      ReadsTrans(a, b, c, files);
    }
  }

  lemma DeepWalk(iblock: int)
    requires 0 <= iblock < MAX_BLOCKS && Depth(iblock) > 0
    ensures iblock >= ADDRS_PER_INODE
  {
  }

  /** A read-only walk sees the links as they were. */
  lemma SeesOldLink(a: Store, b: Store, files: set<int>, ino: int, q: seq<int>)
    requires Walked(a, b, files, ino, false) && ino in files && IsPrefix(q)
    ensures Walk(b.nodes, ino, q) == Walk(a.nodes, ino, q)
  {
    assert ino != META_INO ==> SameWalk(a, b, ino, q);
  }

  lemma NoNodeBelow(a: Store, b: Store, files: set<int>, ino: int, iblock: int, i: nat)
    requires Walked(a, b, files, ino, false) && ino in files
    requires 0 <= iblock < MAX_BLOCKS && i <= Depth(iblock) && Walk(b.nodes, ino, Up(iblock, i)) == 0
    ensures Dnode(a.nodes, ino, iblock) == 0
  {
    SeesOldLink(a, b, files, ino, Up(iblock, i));
    WalkStops(a.nodes, ino, iblock, i, Depth(iblock));
  }

  lemma NotMissing(a: Store, b: Store, files: set<int>, ino: int, iblock: int, create: bool)
    requires Walked(a, b, files, ino, create) && ino in files
    requires 0 <= iblock < MAX_BLOCKS && Dnode(b.nodes, ino, iblock) != 0
    ensures !create ==> Dnode(a.nodes, ino, iblock) != 0
  {
    if !create {
      SeesOldLink(a, b, files, ino, Up(iblock, Depth(iblock)));
    }
  }

  lemma LastPageRead(a: Store, b: Store, files: set<int>, ino: int, iblock: int, create: bool)
    requires Grows(a, b, files) && ino in files && (ino == META_INO ==> Reads(a, b, files))
    requires 0 <= iblock < MAX_BLOCKS && Dnode(a.nodes, ino, iblock) != 0
    ensures Walked(a, b, files, ino, create)
    ensures Dnode(b.nodes, ino, iblock) == Dnode(a.nodes, ino, iblock)
    ensures InNode(Path(iblock)[Depth(iblock)])
    ensures AddrAt(b.nodes, ino, iblock) == Slot(b.nodes, Dnode(b.nodes, ino, iblock), Path(iblock)[Depth(iblock)])
  {
    assert KeepsWalk(a, b, ino, Up(iblock, Depth(iblock)));
  }

  lemma AnchoredAt(st: Store, files: set<int>, ino: int, iblock: int, i: nat)
    requires Core(st, files) && ino in files && 0 <= iblock < MAX_BLOCKS && i <= Depth(iblock)
    ensures var w := Walk(st.nodes, ino, Up(iblock, i));
            w != 0 ==> IsNid(w) && (ino == META_INO ==> w < LOW_NIDS)
  {
    assert Anchored(st, ino, Up(iblock, i));
  }

  /** Reading the node page moves nothing, and its slot is the next step of the walk. */
  lemma NodePageRead(a: Store, b: Store, files: set<int>, ino: int, iblock: int, i: nat, create: bool)
    requires Grows(a, b, files) && ino in files && (ino == META_INO ==> Reads(a, b, files))
    requires 0 <= iblock < MAX_BLOCKS && i < Depth(iblock)
    requires Walk(a.nodes, ino, Up(iblock, i)) != 0
    ensures Walk(b.nodes, ino, Up(iblock, i)) == Walk(a.nodes, ino, Up(iblock, i))
    ensures InNode(Path(iblock)[i])
    ensures Slot(b.nodes, Walk(b.nodes, ino, Up(iblock, i)), Path(iblock)[i]) == Walk(b.nodes, ino, Up(iblock, i + 1))
    ensures Walked(a, b, files, ino, create)
    ensures FreeRegular(b) == FreeRegular(a)
  {
    assert KeepsWalk(a, b, ino, Up(iblock, i));
    WalkStep(b.nodes, ino, iblock, i);
    GrowsFreeRegular(a, b, files);
  }

  lemma CanAllocOne(st: Store, files: set<int>, ino: int, iblock: int, k: nat)
    requires Supply(st) && 0 <= iblock < MAX_BLOCKS && 0 < k <= Depth(iblock)
    requires ino == META_INO ==> iblock < META_BLOCKS && Walk(st.nodes, META_INO, Up(iblock, k)) == 0
    requires ino != META_INO ==> |FreeRegular(st)| >= 1
    ensures CanAlloc(st, ino == META_INO)
  {
    if ino == META_INO {
      var n := SupplyGivesFree(st, iblock, k);
    }
  }

  /** The allocation left the link that is being created empty. */
  lemma AllocatedFor(st: Store, mid: Store, files: set<int>, ino: int, iblock: int, i: nat, m: int)
    requires AllocSoFar(st, mid, files, ino == META_INO) && Supply(st) && ino in files
    requires 0 <= iblock < MAX_BLOCKS && i < Depth(iblock)
    requires Walk(st.nodes, ino, Up(iblock, i)) != 0 && Walk(st.nodes, ino, Up(iblock, i + 1)) == 0
    requires Core(st, files) && EntryOf(st.book, Walk(st.nodes, ino, Up(iblock, i))).Some?
    ensures Walk(st.nodes, ino, Up(iblock, i)) in mid.book.used
    ensures Supply(mid) && FreeRegular(mid) == FreeRegular(st)
    ensures Walk(mid.nodes, ino, Up(iblock, i)) == Walk(st.nodes, ino, Up(iblock, i))
    ensures Walk(mid.nodes, ino, Up(iblock, i + 1)) == 0
    ensures InNode(Path(iblock)[i])
    ensures |Up(iblock, i + 1)| == i + 1 && Up(iblock, i + 1)[..i] == Up(iblock, i)
    ensures SetSlot(mid.nodes, Walk(st.nodes, ino, Up(iblock, i)), Path(iblock)[i], m)
         == Put(mid.nodes, ino, Up(iblock, i + 1), m)
  {
    assert SameWalk(st, mid, ino, Up(iblock, i)) && SameWalk(st, mid, ino, Up(iblock, i + 1));
    AnchoredIsUsed(st, mid, files, ino, Up(iblock, i));
    hide Core, Supply, KeepsNid, EntryOf, Walk, Grows;
    GrowsFreeRegular(st, mid, files);
    assert Up(iblock, i + 1)[..i] == Up(iblock, i);
  }

  lemma AnchoredIsUsed(st: Store, mid: Store, files: set<int>, f: int, q: seq<int>)
    requires Core(st, files) && Grows(st, mid, files) && f in files && IsPrefix(q)
    requires Walk(st.nodes, f, q) != 0 && EntryOf(st.book, Walk(st.nodes, f, q)).Some?
    ensures Walk(st.nodes, f, q) in mid.book.used
  {
    assert Anchored(st, f, q);
    assert KeepsNid(st, mid, Walk(st.nodes, f, q));
  }

  lemma AdoptsNow(mid: Store, out: Store, now: Store, ino: int, q: seq<int>, m: int)
    requires HandsOut(mid, out, m) && IsPrefix(q) && q != []
    requires m in now.book.used && now.book.used[m].addr == 0
    requires now.book == out.book.(used := out.book.used[m := now.book.used[m]])
    requires now.book.used[m].dirty && now == Linked(out, ino, q, m).(book := now.book)
    ensures Adopts(mid, now, ino, q, m)
  {
    assert out.book.used[m := now.book.used[m]] == mid.book.used[m := now.book.used[m]];
  }

  lemma WalkedByAdopting(st: Store, mid: Store, now: Store, files: set<int>, ino: int)
    requires AllocSoFar(st, mid, files, ino == META_INO)
    requires Extends(mid, now, files) && (ino == META_INO ==> Grows(mid, now, files))
    ensures Walked(st, now, files, ino, true)
  {
    ExtendsTrans(st, mid, now, files);
    if ino == META_INO {
      GrowsTrans(st, mid, now, files);
    }
  }
}
