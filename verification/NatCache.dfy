/**
 * The node address table: fixed-size pages of (ino, block address) entries and the cache of entries
 * in front of them, kept as one list of entries in use and one list of free entries.
 */
module NatCache {
  import opened Layout

  datatype Option<+T> = None | Some(value: T)

  datatype NatEntry = NatEntry(nid: int, ino: int, addr: int, pinned: bool, dirty: bool)
  datatype RawNat = RawNat(ino: int, addr: int)

  type NatPage = s: seq<RawNat> | |s| == NAT_ENTRY_PER_BLOCK witness ZeroPage()
  type NatPages = map<int, NatPage>

  function ZeroPage(): (s: seq<RawNat>)
    ensures |s| == NAT_ENTRY_PER_BLOCK && forall i :: 0 <= i < NAT_ENTRY_PER_BLOCK ==> s[i] == RawNat(0, 0)
  {
    seq(NAT_ENTRY_PER_BLOCK, i => RawNat(0, 0))
  }

  /** A NAT page; pages never written are zero. */
  function Content(pages: NatPages, b: int): NatPage {
    if b in pages then pages[b] else ZeroPage()
  }

  /** The entry of a nid on the NAT pages. */
  function OnPage(pages: NatPages, nid: int): RawNat
    requires 0 <= nid
  {
    Content(pages, nid / NAT_ENTRY_PER_BLOCK)[nid % NAT_ENTRY_PER_BLOCK]
  }

  // ----- The lists -----

  /** `used` is nat_list, `free` is free_nat and `count` is cached_nat_count. */
  datatype Cache = Cache(used: seq<NatEntry>, free: seq<NatEntry>, count: int)

  /** The first position of a nid on a list, or -1: what a left-to-right scan finds. */
  function IndexOf(list: seq<NatEntry>, nid: int): (i: int)
    ensures -1 <= i < |list|
    ensures i >= 0 ==> list[i].nid == nid
  {
    if list == [] then -1
    else if list[0].nid == nid then 0
    else
      var i := IndexOf(list[1..], nid);
      if i < 0 then -1 else i + 1
  }

  lemma {:induction false} ScanFinds(list: seq<NatEntry>, nid: int, i: int)
    requires 0 <= i <= |list|
    requires forall j :: 0 <= j < i ==> list[j].nid != nid
    ensures i < |list| && list[i].nid == nid ==> IndexOf(list, nid) == i
    ensures i == |list| ==> IndexOf(list, nid) == -1
  {
    if i > 0 {
      ScanFinds(list[1..], nid, i - 1);
    }
  }

  ghost predicate Unique(list: seq<NatEntry>) {
    forall i, j :: 0 <= i < j < |list| ==> list[i].nid != list[j].nid
  }

  /** Each nid sits at most once on the two lists, the counter counts them, free entries have no address. */
  ghost predicate Sane(c: Cache) {
    && Unique(c.used) && Unique(c.free)
    && (forall i, j :: 0 <= i < |c.used| && 0 <= j < |c.free| ==> c.used[i].nid != c.free[j].nid)
    && (forall j :: 0 <= j < |c.free| ==> c.free[j].addr == 0)
    && c.count == |c.used| + |c.free|
  }

  predicate Has(c: Cache, nid: int) {
    IndexOf(c.used, nid) >= 0 || IndexOf(c.free, nid) >= 0
  }

  /** `__insert_nat`: a known nid is left alone; the `dirty` argument is not stored. */
  function Insert(c: Cache, nid: int, ino: int, addr: int, pinned: bool): Cache {
    if Has(c, nid) then c
    else
      var e := NatEntry(nid, ino, addr, pinned, false);
      if addr != 0 then Cache([e] + c.used, c.free, c.count + 1)
      else Cache(c.used, [e] + c.free, c.count + 1)
  }

  function Without(list: seq<NatEntry>, i: int): seq<NatEntry>
    requires 0 <= i < |list|
  {
    list[..i] + list[i + 1..]
  }

  /** `__update_nat`: only nat_list is searched; a changed entry moves to the head and becomes dirty. */
  function Update(c: Cache, nid: int, addr: int, pinned: bool): Cache {
    var i := IndexOf(c.used, nid);
    if i < 0 || c.used[i].addr == addr then c
    else c.(used := [c.used[i].(addr := addr, pinned := pinned, dirty := true)] + Without(c.used, i))
  }

  /** `__remove_nat`: only nat_list is searched. */
  function Remove(c: Cache, nid: int): Cache {
    var i := IndexOf(c.used, nid);
    if i < 0 then c else c.(used := Without(c.used, i), count := c.count - 1)
  }

  /** The in-place part of `invalidate_nat`, on whichever list holds the entry. */
  function Invalidate(c: Cache, nid: int): Cache {
    var i, j := IndexOf(c.used, nid), IndexOf(c.free, nid);
    if i >= 0 then c.(used := c.used[i := NatEntry(nid, 0, 0, false, true)])
    else if j >= 0 then c.(free := c.free[j := NatEntry(nid, 0, 0, false, true)])
    else c
  }

  predicate InRange(nid: int, isMeta: bool) {
    isMeta <==> nid < REG_NID_START
  }

  /** The first free entry of the meta or of the regular range, or -1. */
  function FirstFree(list: seq<NatEntry>, isMeta: bool): (i: int)
    ensures -1 <= i < |list|
    ensures i >= 0 ==> InRange(list[i].nid, isMeta)
  {
    if list == [] then -1
    else if InRange(list[0].nid, isMeta) then 0
    else
      var i := FirstFree(list[1..], isMeta);
      if i < 0 then -1 else i + 1
  }

  lemma {:induction false} FreeScanFinds(list: seq<NatEntry>, isMeta: bool, i: int)
    requires 0 <= i <= |list|
    requires forall j :: 0 <= j < i ==> !InRange(list[j].nid, isMeta)
    ensures i < |list| && InRange(list[i].nid, isMeta) ==> FirstFree(list, isMeta) == i
    ensures i == |list| ==> FirstFree(list, isMeta) == -1
  {
    if i > 0 {
      FreeScanFinds(list[1..], isMeta, i - 1);
    }
  }

  /** `free_nat_empty`: the entry moves from free_nat to the head of nat_list. */
  function TakeFree(c: Cache, i: int): Cache
    requires 0 <= i < |c.free|
  {
    Cache([c.free[i]] + c.used, Without(c.free, i), c.count)
  }

  /** The free nid inserted last is the first to be handed out of its range. */
  lemma LastInFirstOut(c: Cache, nid: int, ino: int, pinned: bool, isMeta: bool)
    requires !Has(c, nid)
    ensures var d := Insert(c, nid, ino, 0, pinned);
            && d.used == c.used && |d.free| > 0 && d.free[0] == NatEntry(nid, ino, 0, pinned, false)
            && FirstFree(d.free, isMeta) == if isMeta == (nid < 2730000) then 0
                                            else if FirstFree(c.free, isMeta) < 0 then -1
                                            else FirstFree(c.free, isMeta) + 1
  {
    var d := Insert(c, nid, ino, 0, pinned);
    assert d.free[1..] == c.free;
  }

  /** A changed entry becomes the head of nat_list, dirty and pinned as told; the others keep their order. */
  lemma UpdateMovesFront(c: Cache, i: nat, addr: int, pinned: bool)
    requires Sane(c) && i < |c.used|
    ensures var e := c.used[i];
            Update(c, e.nid, addr, pinned)
            == if e.addr == addr then c
               else Cache([NatEntry(e.nid, e.ino, addr, pinned, true)] + c.used[..i] + c.used[i + 1..], c.free, c.count)
  {
    ScanFinds(c.used, c.used[i].nid, i);
    var e := NatEntry(c.used[i].nid, c.used[i].ino, addr, pinned, true);
    assert [e] + (c.used[..i] + c.used[i + 1..]) == [e] + c.used[..i] + c.used[i + 1..];
  }

  // ----- The lists as maps -----

  function AsMap(list: seq<NatEntry>): map<int, NatEntry> {
    if list == [] then map[] else AsMap(list[1..])[list[0].nid := list[0]]
  }

  /** The cache without its order: who is on nat_list and who on free_nat. */
  datatype Book = Book(used: map<int, NatEntry>, free: map<int, NatEntry>)

  function BookOf(c: Cache): Book {
    Book(AsMap(c.used), AsMap(c.free))
  }

  /** What the file system believes about a nid: the cached entry, or else the NAT page. */
  function View(k: Book, pages: NatPages, nid: int): int
    requires 0 <= nid
  {
    if nid in k.used then k.used[nid].addr
    else if nid in k.free then k.free[nid].addr
    else OnPage(pages, nid).addr
  }

  /** A nid that has been handed out, or that shows an address on its NAT page. */
  predicate InUse(k: Book, pages: NatPages, nid: int)
    requires 0 <= nid
  {
    nid in k.used || (nid !in k.free && OnPage(pages, nid).addr != 0)
  }

  function EntryOf(k: Book, nid: int): Option<NatEntry> {
    if nid in k.used then Some(k.used[nid]) else if nid in k.free then Some(k.free[nid]) else None
  }

  function BookInsert(k: Book, e: NatEntry): Book {
    if EntryOf(k, e.nid).Some? then k
    else if e.addr != 0 then k.(used := k.used[e.nid := e])
    else k.(free := k.free[e.nid := e])
  }

  function BookUpdate(k: Book, nid: int, addr: int, pinned: bool): Book {
    if nid !in k.used || k.used[nid].addr == addr then k
    else k.(used := k.used[nid := k.used[nid].(addr := addr, pinned := pinned, dirty := true)])
  }

  function BookRemove(k: Book, nid: int): Book {
    k.(used := k.used - {nid})
  }

  function BookInvalidate(k: Book, nid: int): Book {
    var e := NatEntry(nid, 0, 0, false, true);
    if nid in k.used then k.(used := k.used[nid := e])
    else if nid in k.free then k.(free := k.free[nid := e])
    else k
  }

  function BookTake(k: Book, nid: int): Book
    requires nid in k.free
  {
    Book(k.used[nid := k.free[nid]], k.free - {nid})
  }

  // ----- The list operations are the map operations -----

  lemma {:induction false} AsMapAt(list: seq<NatEntry>, nid: int)
    ensures nid in AsMap(list) <==> IndexOf(list, nid) >= 0
    ensures nid in AsMap(list) ==> AsMap(list)[nid] == list[IndexOf(list, nid)]
  {
    if list != [] {
      AsMapAt(list[1..], nid);
    }
  }

  lemma AsMapPrepend(e: NatEntry, list: seq<NatEntry>)
    ensures AsMap([e] + list) == AsMap(list)[e.nid := e]
  {
    assert ([e] + list)[1..] == list;
  }

  lemma {:induction false} AsMapMember(list: seq<NatEntry>, i: int)
    requires 0 <= i < |list|
    ensures list[i].nid in AsMap(list)
    ensures Unique(list) ==> AsMap(list)[list[i].nid] == list[i]
  {
    if i > 0 {
      AsMapMember(list[1..], i - 1);
    }
  }

  lemma WithoutUnique(list: seq<NatEntry>, i: int)
    requires Unique(list) && 0 <= i < |list|
    ensures Unique(Without(list, i))
  {
    var w := Without(list, i);
    assert forall j :: 0 <= j < |w| ==> w[j] == list[if j < i then j else j + 1];
  }

  lemma {:induction false} AsMapWithout(list: seq<NatEntry>, i: int)
    requires Unique(list) && 0 <= i < |list|
    ensures Unique(Without(list, i))
    ensures AsMap(Without(list, i)) == AsMap(list) - {list[i].nid}
  {
    WithoutUnique(list, i);
    if i == 0 {
      assert Without(list, 0) == list[1..];
      AsMapAt(list[1..], list[0].nid);
      hide Without, IndexOf;
      assert AsMap(list) - {list[0].nid} == AsMap(list[1..]);
    } else {
      var rest := Without(list[1..], i - 1);
      AsMapWithout(list[1..], i - 1);
      assert Without(list, i) == [list[0]] + rest;
      AsMapPrepend(list[0], rest);
      assert list[0].nid != list[i].nid;
      hide Unique, Without, IndexOf;
    }
  }

  lemma {:induction false} AsMapSet(list: seq<NatEntry>, i: int, e: NatEntry)
    requires Unique(list) && 0 <= i < |list| && e.nid == list[i].nid
    ensures Unique(list[i := e])
    ensures AsMap(list[i := e]) == AsMap(list)[e.nid := e]
  {
    if i > 0 {
      AsMapSet(list[1..], i - 1, e);
      assert list[i := e] == [list[0]] + list[1..][i - 1 := e];
      AsMapPrepend(list[0], list[1..][i - 1 := e]);
    } else {
      assert list[0 := e] == [e] + list[1..];
      AsMapPrepend(e, list[1..]);
    }
  }

  /** No nid is on both lists. */
  lemma SaneDisjoint(c: Cache, nid: int)
    requires Sane(c)
    ensures !(nid in BookOf(c).used && nid in BookOf(c).free)
    ensures nid in BookOf(c).free ==> BookOf(c).free[nid].addr == 0
  {
    AsMapAt(c.used, nid);
    AsMapAt(c.free, nid);
  }

  /** An entry for a nid that is on neither list can join either. */
  lemma SaneJoin(c: Cache, e: NatEntry)
    requires Sane(c) && e.nid !in BookOf(c).used && e.nid !in BookOf(c).free
    ensures Sane(Cache([e] + c.used, c.free, c.count + 1))
    ensures e.addr == 0 ==> Sane(Cache(c.used, [e] + c.free, c.count + 1))
  {
    forall i | 0 <= i < |c.used| ensures c.used[i].nid != e.nid {
      AsMapMember(c.used, i);
    }
    forall i | 0 <= i < |c.free| ensures c.free[i].nid != e.nid {
      AsMapMember(c.free, i);
    }
  }

  lemma InsertRefines(c: Cache, nid: int, ino: int, addr: int, pinned: bool)
    requires Sane(c)
    ensures Sane(Insert(c, nid, ino, addr, pinned))
    ensures BookOf(Insert(c, nid, ino, addr, pinned))
         == BookInsert(BookOf(c), NatEntry(nid, ino, addr, pinned, false))
  {
    var e := NatEntry(nid, ino, addr, pinned, false);
    AsMapAt(c.used, nid);
    AsMapAt(c.free, nid);
    AsMapPrepend(e, c.used);
    AsMapPrepend(e, c.free);
    if !Has(c, nid) {
      SaneJoin(c, e);
    }
  }

  /** Putting the entry of position `i`, changed, in front keeps the lists sane. */
  lemma SaneToFront(c: Cache, i: int, e: NatEntry)
    requires Sane(c) && 0 <= i < |c.used| && e.nid == c.used[i].nid
    ensures Sane(c.(used := [e] + Without(c.used, i)))
  {
    var w := Without(c.used, i);
    WithoutUnique(c.used, i);
    assert forall j :: 0 <= j < |w| ==> w[j] == c.used[if j < i then j else j + 1];
    assert |w| == |c.used| - 1;
    hide Without;
    var u := [e] + w;
    assert forall j :: 0 < j < |u| ==> u[j] == w[j - 1];
    assert forall j :: 0 <= j < |w| ==> w[j].nid != e.nid;
  }

  lemma UpdateRefines(c: Cache, nid: int, addr: int, pinned: bool)
    requires Sane(c)
    ensures Sane(Update(c, nid, addr, pinned))
    ensures BookOf(Update(c, nid, addr, pinned)) == BookUpdate(BookOf(c), nid, addr, pinned)
  {
    var i := IndexOf(c.used, nid);
    AsMapAt(c.used, nid);
    if i >= 0 && c.used[i].addr != addr {
      var e := c.used[i].(addr := addr, pinned := pinned, dirty := true);
      SaneToFront(c, i, e);
      AsMapWithout(c.used, i);
      AsMapPrepend(e, Without(c.used, i));
      hide Sane, Unique, Without, AsMap, IndexOf;
    }
  }

  lemma RemoveRefines(c: Cache, nid: int)
    requires Sane(c)
    ensures Sane(Remove(c, nid)) && BookOf(Remove(c, nid)) == BookRemove(BookOf(c), nid)
  {
    var i := IndexOf(c.used, nid);
    AsMapAt(c.used, nid);
    if i >= 0 {
      var w := Without(c.used, i);
      AsMapWithout(c.used, i);
      assert forall j :: 0 <= j < |w| ==> w[j] == c.used[if j < i then j else j + 1];
    }
  }

  lemma InvalidateRefines(c: Cache, nid: int)
    requires Sane(c)
    ensures Sane(Invalidate(c, nid)) && BookOf(Invalidate(c, nid)) == BookInvalidate(BookOf(c), nid)
  {
    var i, j := IndexOf(c.used, nid), IndexOf(c.free, nid);
    var e := NatEntry(nid, 0, 0, false, true);
    AsMapAt(c.used, nid);
    AsMapAt(c.free, nid);
    if i >= 0 {
      AsMapSet(c.used, i, e);
    } else if j >= 0 {
      AsMapSet(c.free, j, e);
    }
  }

  lemma TakeFreeRefines(c: Cache, i: int)
    requires Sane(c) && 0 <= i < |c.free|
    ensures c.free[i].nid in BookOf(c).free
    ensures Sane(TakeFree(c, i)) && BookOf(TakeFree(c, i)) == BookTake(BookOf(c), c.free[i].nid)
  {
    AsMapMember(c.free, i);
    AsMapWithout(c.free, i);
    AsMapPrepend(c.free[i], c.used);
    var w := Without(c.free, i);
    assert forall j :: 0 <= j < |w| ==> w[j] == c.free[if j < i then j else j + 1];
  }

  /** When a nid of the range is on free_nat, the scan finds one. */
  lemma {:induction false} FirstFreeExists(list: seq<NatEntry>, isMeta: bool, nid: int)
    requires nid in AsMap(list) && InRange(nid, isMeta)
    ensures FirstFree(list, isMeta) >= 0
  {
    if list[0].nid != nid {
      FirstFreeExists(list[1..], isMeta, nid);
    }
  }

  /** Dropping an entry from the cache is harmless exactly when its NAT page already agrees. */
  lemma RemoveKeepsView(c: Cache, pages: NatPages, nid: int)
    requires Sane(c) && 0 <= nid
    ensures (forall n :: 0 <= n ==> View(BookOf(Remove(c, nid)), pages, n) == View(BookOf(c), pages, n))
       <==> (nid in BookOf(c).used ==> OnPage(pages, nid).addr == View(BookOf(c), pages, nid))
  {
    RemoveRefines(c, nid);
    SaneDisjoint(c, nid);
  }
}
