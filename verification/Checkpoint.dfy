/** The checkpoint: three phases of writing back, and the superblock's log of late table changes. */
module Checkpoint {
  import opened Layout
  import opened BlockPath
  import opened NodeTree
  import opened NatCache
  import opened NatStore
  import opened NatFs
  import opened Recovery
  import opened Writeback
  import opened Steps
  import RestartFuel

  // ----- The drive -----

  /**
   * The drive behind the write path: any fresh address for each write, and zones opened out of `fuel`.
   * The zone manager's pipeline is such a drive (`RestartFuel.WriteIsAppend`).
   */
  class Drive {
    var dev: Disk
    var next: int
    var fuel: nat

    ghost predicate Valid()
      reads this
    {
      0 < next && forall a :: a in dev ==> a < next
    }

    method Append(content: Block) returns (a: int, newZone: bool)
      requires Valid()
      modifies this
      ensures Valid() && RestartFuel.Appended(old(dev), old(fuel), dev, fuel, a, content, newZone)
    {
      a, newZone := *, false;
      if a <= 0 || a in dev {
        a := next;
      }
      next := if next <= a then a + 1 else next;
      dev := dev[a := content];
      if fuel > 0 {
        newZone := *;
        fuel := if newZone then fuel - 1 else fuel;
      }
    }
  }

  // ----- The log -----

  lemma LogAppend(log: seq<LogEntry>, e: LogEntry)
    ensures LogMap(log + [e]) == if e.nid == 0 then LogMap(log) else LogMap(log)[e.nid := e.addr]
  {
    assert (log + [e])[..|log|] == log;
  }

  /**
   * Since the flush of `mid`: a logged nid has its address in the log; any other still has its address,
   * and its page shows it exactly if the flush had it to write or to agree with.
   */
  ghost predicate Agrees(st: Store, mid: Store, log: map<int, int>, n: int)
    requires 0 <= n
  {
    if n in log then log[n] == Believed(st, n)
    else
      && Believed(st, n) == Believed(mid, n)
      && (OnPage(st.pages, n).addr == Believed(st, n) <==> !Stale(mid, n))
  }

  ghost predicate AllAgree(st: Store, mid: Store, log: map<int, int>) {
    forall n {:trigger Agrees(st, mid, log, n)} :: 0 <= n ==> Agrees(st, mid, log, n)
  }

  /** `b` comes after `a` in a mount: nothing turned stale, and a nid on nat_list stays there. */
  ghost predicate Succeeds(a: Store, b: Store) {
    && UsedGrows(a, b)
    && forall n {:trigger Stale(b, n)} :: 0 <= n && Stale(b, n) ==> Stale(a, n)
  }

  /** Log entries of nodes that were written: nids in circulation with an address. */
  ghost predicate Moves(log: seq<LogEntry>) {
    forall e :: e in log ==> IsNid(e.nid) && e.addr != 0
  }

  /** The superblock page: 30 bytes of header, and log entries of 13 bytes each. */
  const LOG_ROOM := (4096 - 30) / 13

  /** The entries that fit behind the header. */
  lemma LogEntryFits(i: int)
    ensures 30 + (i + 1) * 13 <= PAGE_BYTES <==> i < LOG_ROOM
    ensures LOG_ROOM == 312
  {
  }

  /** One entry for each of these nids, and no other. */
  ghost predicate LogsOnce(log: seq<LogEntry>, nids: set<int>) {
    |log| == |nids| && forall n :: n in nids <==> exists e :: e in log && e.nid == n
  }

  lemma LoggedNext(start: seq<LogEntry>, logged: seq<LogEntry>, now: seq<LogEntry>, due: set<int>,
      todo: set<int>, n: int)
    requires start <= logged <= now && n in todo && todo <= due
    requires Moves(logged[|start|..]) && Moves(now[|logged|..])
    ensures Moves(now[|start|..])
    ensures |now| == |logged| + 1 && now[|logged|].nid == n && LogsOnce(logged[|start|..], due - todo)
        ==> LogsOnce(now[|start|..], due - (todo - {n}))
  {
    assert now[|start|..] == logged[|start|..] + now[|logged|..];
    if |now| == |logged| + 1 && now[|logged|].nid == n && LogsOnce(logged[|start|..], due - todo) {
      assert now[|logged|..] == [now[|logged|]];
      LogsOneMore(logged[|start|..], due - todo, now[|logged|]);
      assert due - (todo - {n}) == due - todo + {n};
    }
  }

  lemma LogsNone()
    ensures LogsOnce([], {}) && Moves([])
  {
  }

  lemma OnceSize(log: seq<LogEntry>, nids: set<int>)
    requires LogsOnce(log, nids)
    ensures |log| == |nids|
  {
  }

  lemma LogsOneMore(log: seq<LogEntry>, nids: set<int>, e: LogEntry)
    requires LogsOnce(log, nids) && e.nid !in nids
    ensures LogsOnce(log + [e], nids + {e.nid})
  {
    forall n ensures n in nids + {e.nid} <==> exists d :: d in log + [e] && d.nid == n {
      if n == e.nid {
        assert e in log + [e];
      } else if n in nids {
        var d :| d in log && d.nid == n;
        assert d in log + [e];
      }
    }
  }

  /** The log of one pass: nodes that moved, then nids 1 and 3 as they are. */
  ghost predicate PassLog(log: seq<LogEntry>) {
    && |log| >= 2 && Moves(log[..|log| - 2])
    && log[|log| - 2].nid == 1 && log[|log| - 1].nid == 3
    && forall e, last :: e in log[..|log| - 2] && last in log[|log| - 2..] && e.nid == last.nid ==> last.addr != 0
  }

  lemma {:induction false} MovesMap(log: seq<LogEntry>)
    requires Moves(log)
    ensures forall e :: e in log ==> e.nid in LogMap(log)
    ensures forall n :: n in LogMap(log) ==> LogMap(log)[n] != 0
  {
    if log != [] {
      var rest, last := log[..|log| - 1], log[|log| - 1];
      assert log == rest + [last] && last in log;
      assert Moves(rest) by {
        assert forall e :: e in rest ==> e in log;
      }
      MovesMap(rest);
    }
  }

  /** A node that moved has an address, so the two entries that end the log do not undo a move. */
  lemma PassLogEnds(st: Store, mid: Store, moves: seq<LogEntry>, e1: LogEntry, e3: LogEntry)
    requires Moves(moves) && AllAgree(st, mid, LogMap(moves)) && e1.nid == 1 && e3.nid == 3
    requires e1.addr == Believed(st, 1) && e3.addr == Believed(st, 3)
    ensures PassLog(moves + [e1, e3])
  {
    MovesMap(moves);
    assert Agrees(st, mid, LogMap(moves), 1) && Agrees(st, mid, LogMap(moves), 3);
    var log := moves + [e1, e3];
    assert log[..|log| - 2] == moves && log[|log| - 2..] == [e1, e3];
  }

  ghost predicate SameBeliefs(a: Store, b: Store) {
    && b.pages == a.pages
    && forall n {:trigger Believed(b, n)} :: 0 <= n ==> Believed(b, n) == Believed(a, n)
  }

  /** Only nodes of the table file may have become dirty. */
  ghost predicate DirtyLow(a: set<int>, b: set<int>) {
    forall n :: n in b && LOW_NIDS <= n ==> n in a
  }

  // ----- Lemmas for the steps -----

  lemma DirtyUsed(st: Store, m: Image, files: set<int>, n: int)
    requires Core(st, files) && Tracked(st, m, files) && n in st.dirty
    ensures n in st.book.used && IsNid(n) && EntryOf(st.book, n) == Some(st.book.used[n])
  {
  }

  lemma ExtendsStale(a: Store, b: Store, files: set<int>)
    requires Extends(a, b, files) && BookInRange(a.book)
    ensures Succeeds(a, b) && SameBeliefs(a, b) && a.ready <= b.ready
  {
    ExtendsUsed(a, b, files);
    forall n | 0 <= n && Stale(b, n) ensures Stale(a, n) {
      assert KeepsNid(a, b, n);
    }
    forall n | 0 <= n ensures Believed(b, n) == Believed(a, n) {
      assert KeepsNid(a, b, n);
    }
  }

  lemma NodeLogged(st: Store, mid: Store, files: set<int>, log: seq<LogEntry>, n: int, a: int, ino: int)
    requires Core(st, files) && n in st.book.used && a != 0 && AllAgree(st, mid, LogMap(log))
    ensures AllAgree(NodeWritten(st, n, a), mid, LogMap(log + [LogEntry(n, ino, a)]))
  {
    NodeWrittenStore(st, files, n, a);
    hide Core;
    LogAppend(log, LogEntry(n, ino, a));
    forall j | 0 <= j ensures Agrees(NodeWritten(st, n, a), mid, LogMap(log + [LogEntry(n, ino, a)]), j) {
      assert Agrees(st, mid, LogMap(log), j);
    }
  }

  lemma AgreeSame(a: Store, b: Store, mid: Store, log: map<int, int>)
    requires SameBeliefs(a, b) && AllAgree(a, mid, log)
    ensures AllAgree(b, mid, log)
  {
    forall n | 0 <= n ensures Agrees(b, mid, log, n) {
      assert Agrees(a, mid, log, n);
    }
  }

  lemma PendingHome(st: Store, m: Image, files: set<int>, f: int, k: int)
    requires Core(st, files) && Tracked(st, m, files) && Supply(st) && Pending(m, f, k)
    ensures f in files && CanWalk(st, f, k, false, 3) && Dnode(st.nodes, f, k) != 0
    ensures f == META_INO ==> 0 <= k < META_BLOCKS
  {
    if f == META_INO {
      assert PageReachable(st, k);
    } else {
      assert HasHome(st, files, f, k);
    }
  }

  /** What the walk before a block write may have changed. */
  lemma WalkForWrite(a: Store, b: Store, m: Image, files: set<int>, f: int, k: int)
    requires Core(a, files) && Core(b, files) && Tracked(a, m, files) && Walked(a, b, files, f, false) && Supply(b)
    requires Pending(m, f, k) && f in files && 0 <= k < MAX_BLOCKS && Dnode(b.nodes, f, k) != 0
    requires EntryOf(b.book, Dnode(b.nodes, f, k)).Some? && (f == META_INO ==> k < META_BLOCKS)
    ensures Tracked(b, m, files) && CanWrite(b, files, f, k)
    ensures Succeeds(a, b) && SameBeliefs(a, b) && DirtyLow(a.dirty, b.dirty)
    ensures InNode(Path(k)[Depth(k)])
  {
    WriteTarget(b, files, f, k);
    MetaIn(a, files);
    hide Core, Tracked;
    TrackedExtends(a, b, m, files);
    ExtendsStale(a, b, files);
    EndInRange(Path(k));
    WalkedDirty(a, b, files, f);
  }

  lemma WalkedDirty(a: Store, b: Store, files: set<int>, f: int)
    requires Walked(a, b, files, f, false)
    ensures DirtyLow(a.dirty, b.dirty)
  {
    forall n | n in b.dirty && LOW_NIDS <= n ensures n in a.dirty {
      assert KeepsNid(a, b, n);
    }
  }

  lemma BlockWrittenEffect(a: Store, files: set<int>, f: int, k: int, addr: int)
    requires Core(a, files) && CanWrite(a, files, f, k) && (f == META_INO ==> addr != 0)
    ensures SameBeliefs(a, BlockWritten(a, f, k, addr)) && Succeeds(a, BlockWritten(a, f, k, addr))
    ensures f == META_INO ==> DirtyLow(a.dirty, BlockWritten(a, f, k, addr).dirty)
  {
    WriteTarget(a, files, f, k);
  }

  // ----- As steps -----

  lemma LooksOnly(a: Store, b: Store, m: Image, files: set<int>)
    requires Grows(a, b, files) && Core(b, files)
    ensures Reaches(Mem(a, m), Mem(b, m), files)
  {
    ReachesOne(Mem(a, m), files, Look(b));
  }

  lemma WalkedGrows(a: Store, b: Store, files: set<int>, f: int)
    requires Walked(a, b, files, f, false)
    ensures Grows(a, b, files)
  {
  }

  lemma LookThen(a: Store, b: Store, m: Image, files: set<int>, v: Move)
    requires Grows(a, b, files) && Core(b, files) && CanTake(Mem(b, m), files, v)
    ensures Reaches(Mem(a, m), Taken(Mem(b, m), files, v), files)
  {
    hide CanTake, Taken, Reaches, Grows, Core;
    LooksOnly(a, b, m, files);
    ReachesOne(Mem(b, m), files, v);
    ReachesTrans(Mem(a, m), Mem(b, m), Taken(Mem(b, m), files, v), files);
  }

  /** The walk to a block's node page and the write of the block, together. */
  lemma BlockOutEffect(a: Store, b: Store, m: Image, files: set<int>, f: int, k: int, to: int)
    requires Core(a, files) && Core(b, files) && Supply(b) && Tracked(b, m, files) && Walked(a, b, files, f, false)
    requires Pending(m, f, k) && CanWrite(b, files, f, k) && (f == META_INO ==> k < META_BLOCKS)
    requires Succeeds(a, b) && SameBeliefs(a, b) && DirtyLow(a.dirty, b.dirty) && to != 0 && to !in m.dev
    ensures var c, m' := BlockWritten(b, f, k, to), BlockOut(b, m, f, k, to);
            && Core(c, files) && Supply(c) && Tracked(c, m', files)
            && Succeeds(a, c) && SameBeliefs(a, c) && (f == META_INO ==> DirtyLow(a.dirty, c.dirty))
            && Reaches(Mem(a, m), Mem(c, m'), files)
  {
    BlockWrittenStore(b, files, f, k, to);
    BlockWrittenEffect(b, files, f, k, to);
    TrackedBlock(b, m, files, f, k, to);
    WalkedGrows(a, b, files, f);
    hide Core, Supply, Tracked, Walked, CanWrite, AddrAt, Walk, Stale, Believed, BlockWritten, BlockOut, Grows, Reaches;
    StaleTrans(a, b, BlockWritten(b, f, k, to));
    LookThen(a, b, m, files, PutBlock(f, k, to));
  }

  // ----- Flushing -----

  /**
   * While `rest` is still to be flushed: beliefs are as they were; every other entry that was dirty is
   * clean and its table slot holds its inode and address; all other entries and slots are as they were.
   */
  ghost predicate FlushedAt(st0: Store, st: Store, rest: seq<NatEntry>, n: int)
    requires 0 <= n
  {
    var done := n in st0.book.used && IndexOf(rest, n) < 0;
    && Believed(st, n) == Believed(st0, n)
    && (n in st0.book.used ==>
          n in st.book.used && st.book.used[n] == if done then st0.book.used[n].(dirty := false) else st0.book.used[n])
    && OnPage(st.pages, n) ==
         (if done && st0.book.used[n].dirty then RawNat(st0.book.used[n].ino, st0.book.used[n].addr)
          else OnPage(st0.pages, n))
  }

  ghost predicate FlushSoFar(st0: Store, st: Store, rest: seq<NatEntry>) {
    forall n {:trigger FlushedAt(st0, st, rest, n)} :: 0 <= n ==> FlushedAt(st0, st, rest, n)
  }

  lemma FlushStart(st: Store, list: seq<NatEntry>)
    requires AsMap(list) == st.book.used
    ensures FlushSoFar(st, st, list)
  {
    forall n | 0 <= n ensures FlushedAt(st, st, list, n) {
      AsMapAt(list, n);
    }
  }

  /** What the flush leaves in slot `i` of table page `b`: the dirty entry of nid 455 * b + i, or what was there. */
  lemma FlushPlaces(st0: Store, st: Store)
    requires FlushSoFar(st0, st, [])
    ensures forall b, i {:trigger Content(st.pages, b)[i]} :: 0 <= b && 0 <= i < 455 ==>
              var n, used := 455 * b + i, st0.book.used;
              Content(st.pages, b)[i] == if n in used && used[n].dirty then RawNat(used[n].ino, used[n].addr)
                                         else Content(st0.pages, b)[i]
  {
    forall b, i | 0 <= b && 0 <= i < 455
      ensures var n, used := 455 * b + i, st0.book.used;
              Content(st.pages, b)[i] == if n in used && used[n].dirty then RawNat(used[n].ino, used[n].addr)
                                         else Content(st0.pages, b)[i]
    {
      hide Content, Believed;
      assert FlushedAt(st0, st, [], 455 * b + i);
      assert (455 * b + i) / 455 == b && (455 * b + i) % 455 == i;
    }
  }

  lemma FlushReads(st0: Store, st: Store, at: Store, rest: seq<NatEntry>, files: set<int>)
    requires FlushSoFar(st0, st, rest) && Grows(st, at, files)
    ensures FlushSoFar(st0, at, rest)
  {
    forall n | 0 <= n ensures FlushedAt(st0, at, rest, n) {
      assert FlushedAt(st0, st, rest, n) && KeepsNid(st, at, n);
    }
  }

  lemma FlushStep(st0: Store, at: Store, files: set<int>, rest: seq<NatEntry>)
    requires FlushSoFar(st0, at, rest) && rest != [] && Unique(rest) && Core(at, files)
    requires var e := rest[0];
             && e.nid in st0.book.used && st0.book.used[e.nid] == e
             && (e.dirty ==>
                  e.nid in at.book.used && at.book.used[e.nid] == e && e.nid / NAT_ENTRY_PER_BLOCK in at.ready)
    ensures FlushSoFar(st0, if rest[0].dirty then Flushed(at, rest[0].nid) else at, rest[1..])
  {
    var e := rest[0];
    var b := if e.dirty then Flushed(at, e.nid) else at;
    if e.dirty {
      FlushedStore(at, files, e.nid);
    }
    hide Core, Flushed;
    ScanFinds(rest[1..], e.nid, |rest| - 1);
    forall n | 0 <= n ensures FlushedAt(st0, b, rest[1..], n) {
      assert FlushedAt(st0, at, rest, n);
    }
  }

  /** The read of an entry's page and the flush of the entry, together. */
  lemma EntryOutEffect(a: Store, b: Store, m: Image, files: set<int>, st0: Store, rest: seq<NatEntry>)
    requires Core(b, files) && Supply(b) && Tracked(b, m, files) && Grows(a, b, files)
    requires FlushSoFar(st0, b, rest) && rest != [] && rest[0].dirty && Unique(rest)
    requires rest[0].nid in st0.book.used && st0.book.used[rest[0].nid] == rest[0]
    requires rest[0].nid in b.book.used && b.book.used[rest[0].nid] == rest[0]
    requires rest[0].nid / NAT_ENTRY_PER_BLOCK in b.ready
    ensures 0 < rest[0].nid
    ensures var c, m' := Flushed(b, rest[0].nid), m.(nats := m.nats + {rest[0].nid / NAT_ENTRY_PER_BLOCK});
            && Core(c, files) && Supply(c) && Tracked(c, m', files) && FlushSoFar(st0, c, rest[1..])
            && Reaches(Mem(a, m), Mem(c, m'), files)
  {
    FlushedStore(b, files, rest[0].nid);
    TrackedFlush(b, m, files, rest[0].nid);
    FlushStep(st0, b, files, rest);
    hide Core, Supply, Tracked, Stale, Believed, Flushed, Grows, Reaches, FlushSoFar, Unique;
    LookThen(a, b, m, files, PutEntry(rest[0].nid));
  }

  lemma AfterRead(a: Store, b: Store, m: Image, files: set<int>)
    requires Core(a, files) && Tracked(a, m, files) && Grows(a, b, files)
    ensures Tracked(b, m, files) && SameBeliefs(a, b) && DirtyLow(a.dirty, b.dirty) && Succeeds(a, b)
  {
    MetaIn(a, files);
    hide Core, Tracked;
    TrackedExtends(a, b, m, files);
    ExtendsStale(a, b, files);
    forall n | n in b.dirty && LOW_NIDS <= n ensures n in a.dirty {
      assert KeepsNid(a, b, n);
    }
  }

  lemma AfterLookup(a: Store, b: Store, m: Image, files: set<int>)
    requires Core(a, files) && Tracked(a, m, files) && Reads(a, b, files)
    ensures Tracked(b, m, files) && SameBeliefs(a, b) && b.dirty == a.dirty && Succeeds(a, b)
  {
    MetaIn(a, files);
    hide Core, Tracked;
    TrackedExtends(a, b, m, files);
    ExtendsStale(a, b, files);
  }

  /** A walk of a file, creating or not, keeps memory and disk in agreement and moves no block. */
  lemma AfterWalk(a: Store, b: Store, m: Image, files: set<int>, f: int)
    requires Core(a, files) && Tracked(a, m, files) && Walked(a, b, files, f, true)
    ensures Tracked(b, m, files) && Succeeds(a, b)
    ensures forall g, j {:trigger AddrAt(b.nodes, g, j)} :: g in files && 0 <= j < MAX_BLOCKS ==>
        AddrAt(b.nodes, g, j) == AddrAt(a.nodes, g, j)
  {
    MetaIn(a, files);
    hide Core, Tracked;
    TrackedExtends(a, b, m, files);
    ExtendsStale(a, b, files);
    forall g, j | g in files && 0 <= j < MAX_BLOCKS ensures AddrAt(b.nodes, g, j) == AddrAt(a.nodes, g, j) {
      assert KeepsAddr(a, b, g, Path(j));
    }
  }

  lemma WrittenInMemory(a: Store, b: Store, m: Image, files: set<int>, f: int, k: int, content: int)
    requires Core(a, files) && Tracked(a, m, files) && Walked(a, b, files, f, true)
    requires f in files && f != META_INO && 0 <= k < MAX_BLOCKS && Dnode(b.nodes, f, k) != 0
    ensures Tracked(b, m.(data := m.data[(f, k) := content], blocks := m.blocks + {(f, k)}), files) && Succeeds(a, b)
    ensures forall g, j {:trigger AddrAt(b.nodes, g, j)} :: g in files && 0 <= j < MAX_BLOCKS ==>
        AddrAt(b.nodes, g, j) == AddrAt(a.nodes, g, j)
  {
    hide Core, Walked, Tracked, Succeeds, AddrAt, Dnode;
    AfterWalk(a, b, m, files, f);
    TrackedData(b, m, files, f, k, content);
  }

  lemma SlotOnPath(k: int)
    requires 0 <= k < MAX_BLOCKS
    ensures InNode(Path(k)[Depth(k)])
  {
    EndInRange(Path(k));
  }

  lemma PutIsSet(st: Store, f: int, k: int)
    requires 0 <= k < MAX_BLOCKS && InNode(Path(k)[Depth(k)])
    ensures BlockWritten(st, f, k, 0).nodes == SetSlot(st.nodes, Dnode(st.nodes, f, k), Path(k)[Depth(k)], 0)
  {
  }

  /** Clearing the slot of a block after the walk to it; without a node page there is nothing to clear. */
  lemma CutEffect(a: Store, b: Store, m: Image, files: set<int>, f: int, k: int)
    requires Core(a, files) && Core(b, files) && Supply(b) && Tracked(a, m, files) && Walked(a, b, files, f, false)
    requires f in files && f != META_INO && 0 <= k < MAX_BLOCKS
    requires Dnode(b.nodes, f, k) != 0 ==> EntryOf(b.book, Dnode(b.nodes, f, k)).Some?
    ensures var m' := m.(data := m.data - {(f, k)}, blocks := m.blocks - {(f, k)});
            var c := if Dnode(b.nodes, f, k) != 0 then BlockWritten(b, f, k, 0) else b;
            && Core(c, files) && Supply(c) && Tracked(c, m', files) && Succeeds(a, c) && SameBeliefs(a, c)
            && forall g, j {:trigger AddrAt(c.nodes, g, j)} :: g in files && 0 <= j < MAX_BLOCKS ==>
                 AddrAt(c.nodes, g, j) == if g == f && j == k then 0 else AddrAt(a.nodes, g, j)
  {
    MetaIn(a, files);
    TrackedExtends(a, b, m, files);
    ExtendsStale(a, b, files);
    hide Core, Supply, AddrAt, Tracked, Stale;
    forall g, j | g in files && 0 <= j < MAX_BLOCKS ensures AddrAt(b.nodes, g, j) == AddrAt(a.nodes, g, j) {
      assert KeepsAddr(a, b, g, Path(j));
    }
    if Dnode(b.nodes, f, k) != 0 {
      BlockWrittenStore(b, files, f, k, 0);
      BlockWrittenEffect(b, files, f, k, 0);
      TrackedCut(b, m, files, f, k);
    } else {
      NoHome(b, files, f, k);
      TrackedUncut(b, m, files, f, k);
    }
  }

  lemma TrackedUncut(st: Store, m: Image, files: set<int>, f: int, k: int)
    requires Tracked(st, m, files) && 0 <= k < MAX_BLOCKS && f != META_INO && AddrAt(st.nodes, f, k) == 0
    ensures Tracked(st, m.(data := m.data - {(f, k)}, blocks := m.blocks - {(f, k)}), files)
  {
    var m' := m.(data := m.data - {(f, k)}, blocks := m.blocks - {(f, k)});
    hide AddrAt, NodeTracked, HasHome;
    forall j | 0 <= j < META_BLOCKS ensures PageTracked(st, m', j) {
      assert PageTracked(st, m, j);
    }
    forall g, j | g in files && g != META_INO && 0 <= j < MAX_BLOCKS ensures BlockTracked(st, m', g, j) {
      assert BlockTracked(st, m, g, j);
    }
  }

  lemma SameHome(a: Store, b: Store, files: set<int>, f: int, k: int)
    requires Walked(a, b, files, f, false) && f in files && f != META_INO && 0 <= k < MAX_BLOCKS
    ensures Dnode(b.nodes, f, k) == Dnode(a.nodes, f, k)
  {
    assert SameWalk(a, b, f, Up(k, Depth(k)));
  }

  lemma NoHome(st: Store, files: set<int>, f: int, k: int)
    requires 0 <= k < MAX_BLOCKS && Dnode(st.nodes, f, k) == 0
    ensures AddrAt(st.nodes, f, k) == 0
  {
    EndInRange(Path(k));
  }

  lemma NoData(st: Store, m: Image, files: set<int>, ino: int)
    requires Tracked(st, m, files) && ino !in files
    ensures forall k :: InMemory(m.data, ino, k) == 0
  {
  }

  /** The entry to flush sits where the untouched tail of the list begins. */
  lemma TailHead(list: seq<NatEntry>, rest: seq<NatEntry>)
    requires IsTail(rest, list) && rest != []
    ensures 0 <= |list| - |rest| < |list| && list[|list| - |rest|] == rest[0]
  {
    assert list[|list| - |rest|..][0] == rest[0];
  }

  /** Changing that entry leaves the rest of the tail. */
  lemma TailSkip(list: seq<NatEntry>, rest: seq<NatEntry>, e: NatEntry)
    requires IsTail(rest, list) && rest != []
    ensures IsTail(rest[1..], list[|list| - |rest| := e])
  {
    var p, now := |list| - |rest|, list[|list| - |rest| := e];
    assert now[p + 1..] == list[p..][1..];
  }

  lemma FlushEnds(st0: Store, st: Store)
    requires FlushSoFar(st0, st, []) && BookInRange(st0.book)
    ensures AllAgree(st, st0, map[]) && Succeeds(st0, st)
  {
    forall n | 0 <= n ensures Agrees(st, st0, map[], n) && (Stale(st, n) ==> Stale(st0, n)) {
      assert FlushedAt(st0, st, [], n);
    }
    forall n | n in st0.book.used ensures n in st.book.used {
      assert IsNid(n) && FlushedAt(st0, st, [], n);
    }
  }

  lemma SucceedsItself(a: Store)
    ensures Succeeds(a, a)
  {
  }

  lemma StaleTrans(a: Store, b: Store, c: Store)
    requires Succeeds(a, b) && Succeeds(b, c)
    ensures Succeeds(a, c)
  {
  }

  lemma EntryLogged(st: Store, mid: Store, log: seq<LogEntry>, e: LogEntry)
    requires AllAgree(st, mid, LogMap(log)) && 0 < e.nid && e.addr == Believed(st, e.nid)
    ensures AllAgree(st, mid, LogMap(log + [e])) && e.nid in LogMap(log + [e])
    ensures forall n :: n in LogMap(log) ==> n in LogMap(log + [e])
  {
    LogAppend(log, e);
    forall n | 0 <= n ensures Agrees(st, mid, LogMap(log + [e]), n) {
      assert Agrees(st, mid, LogMap(log), n);
    }
  }

  // ----- When the superblock describes the memory -----

  lemma {:induction false} LogConcat(l0: seq<LogEntry>, l1: seq<LogEntry>)
    ensures LogMap(l0 + l1) == LogMap(l0) + LogMap(l1)
  {
    if l1 == [] {
      assert l0 + l1 == l0;
    } else {
      var e := l1[|l1| - 1];
      LogConcat(l0, l1[..|l1| - 1]);
      LogAppend(l0 + l1[..|l1| - 1], e);
      assert l0 + l1 == (l0 + l1[..|l1| - 1]) + [e];
    }
  }

  /**
   * What phase 2 has to do for nid `n`: log it; or else an entry left over from an earlier checkpoint of
   * the mount is still right; or else its page agreed or its entry was dirty when the flush began.
   */
  ghost predicate Survives(mid: Store, left: map<int, int>, log: map<int, int>, n: int)
    requires 0 <= n
  {
    n !in log ==> if n in left then left[n] == Believed(mid, n) else !Stale(mid, n)
  }

  /** After a pass that left nothing dirty, the superblock describes all of memory exactly when every nid survives. */
  lemma SyncedIff(st: Store, mid: Store, m: Image, files: set<int>, left: seq<LogEntry>, log: seq<LogEntry>)
    requires Core(st, files) && Tracked(st, m, files) && AllAgree(st, mid, LogMap(log)) && META_INO in LogMap(log)
    requires st.dirty == {} && m.nats == {} && m.blocks == {}
    ensures Synced(st, m.dev, LogMap(left + log), m.data, files)
       <==> forall n {:trigger Survives(mid, LogMap(left), LogMap(log), n)} :: 0 <= n ==>
           Survives(mid, LogMap(left), LogMap(log), n)
  {
    hide Core, LogMap, Stale;
    LogConcat(left, log);
    var all := LogMap(left + log);
    forall n | 0 <= n
      ensures NodeSynced(st, m.dev, all, n) <==> Survives(mid, LogMap(left), LogMap(log), n)
    {
      assert Agrees(st, mid, LogMap(log), n) && NodeTracked(st, m.dev, n);
    }
    forall b | 0 <= b < META_BLOCKS ensures PageSynced(st, m.dev, b) {
      assert PageTracked(st, m, b);
    }
    forall f, k | f in files && f != META_INO && 0 <= k < MAX_BLOCKS ensures BlockSynced(st, m.dev, m.data, f, k) {
      assert BlockTracked(st, m, f, k);
    }
    SyncedUnfolds(st, m, files, all);
  }

  lemma NoneStale(start: Store, mid: Store, log: seq<LogEntry>)
    requires Succeeds(start, mid) && PassLog(log) && forall n :: 0 <= n && n != 1 && n != 3 ==> !Stale(start, n)
    ensures forall n {:trigger Survives(mid, LogMap([]), LogMap(log), n)} :: 0 <= n ==>
        Survives(mid, LogMap([]), LogMap(log), n)
  {
    var k := |log|;
    LogAppend(log[..k - 2], log[k - 2]);
    LogAppend(log[..k - 1], log[k - 1]);
    assert log[..k - 1] == log[..k - 2] + [log[k - 2]] && log == log[..k - 1] + [log[k - 1]];
  }

  lemma SyncedUnfolds(st: Store, m: Image, files: set<int>, log: map<int, int>)
    requires Core(st, files) && META_INO in log
    requires forall b {:trigger PageSynced(st, m.dev, b)} :: 0 <= b < META_BLOCKS ==> PageSynced(st, m.dev, b)
    requires forall f, k {:trigger BlockSynced(st, m.dev, m.data, f, k)} ::
               f in files && f != META_INO && 0 <= k < MAX_BLOCKS ==> BlockSynced(st, m.dev, m.data, f, k)
    ensures Synced(st, m.dev, log, m.data, files)
       <==> forall n {:trigger NodeSynced(st, m.dev, log, n)} :: 0 <= n ==> NodeSynced(st, m.dev, log, n)
  {
  }

  /** The next page of a writeback; the order does not matter here. */
  method AnyOf<T(==)>(s: set<T>) returns (x: T)
    requires s != {}
    ensures x in s
  {
    x :| x in s;
  }

  /** The dirty pages of a range. */
  function Within(s: set<int>, lo: int, hi: int): (r: set<int>)
    ensures r <= s
  {
    set n | n in s && lo <= n < hi
  }

  class Checkpointer {
    const nm: Nat
    const drive: Drive
    /** Contents of file blocks, and which pages of files and of the table file are dirty. */
    var data: FileData
    var natDirty: set<int>
    var blockDirty: set<(int, int)>
    /** The log in the superblock page, the phase, and the flag that asks for another pass. */
    var metaNat: seq<LogEntry>
    var phase: int
    var restart: bool

    /** A mount: nothing is dirty, and `data` is what the files' blocks hold. */
    constructor (nm: Nat, drive: Drive, data: FileData)
      ensures this.nm == nm && this.drive == drive && metaNat == [] && !restart
      ensures Img() == Image(drive.dev, data, {}, {})
    {
      this.nm, this.drive, this.data := nm, drive, data;
      natDirty, blockDirty, metaNat, phase, restart := {}, {}, [], 0, false;
    }

    ghost function Img(): Image
      reads `data, `natDirty, `blockDirty, drive
    {
      Image(drive.dev, data, natDirty, blockDirty)
    }

    ghost function Memory(): Mem
      reads `data, `natDirty, `blockDirty, nm, drive
    {
      Mem(nm.St(), Img())
    }

    ghost predicate Valid()
      reads `data, `natDirty, `blockDirty, nm, drive
    {
      && nm.Valid() && drive.Valid() && Supply(nm.St())
      && Tracked(nm.St(), Img(), nm.files)
    }

    // ----- What happens between checkpoints -----

    /** `xcpfs_new_inode` */
    method CreateFile() returns (ino: int)
      requires Valid() && CanAlloc(nm.St(), false)
      modifies nm
      ensures Valid() && nm.files == old(nm.files) + {ino} && ino !in old(nm.files)
      ensures Succeeds(old(nm.St()), nm.St())
      ensures forall k :: 0 <= k < MAX_BLOCKS ==> InMemory(data, ino, k) == 0
    {
      hide Core, Sane, Supply, BookOf, Extends, Grows, Reads, Tracked, Stale, CanAlloc, Believed, AddrAt;
      ghost var st, m, files := nm.St(), Img(), nm.files;
      ghost var mid;
      ino, mid := nm.NewInode();
      AfterRead(st, mid, m, files);
      StaleTrans(st, mid, nm.St());
      TrackedNewFile(mid, nm.St(), m, files, ino);
      NoData(mid, m, files, ino);
    }

    /** A write to a file block: the way to its address is created, the page takes the content and is dirty. */
    method WriteFile(f: int, k: int, content: int)
      requires Valid() && f in nm.files && f != META_INO && 0 <= k < MAX_BLOCKS && |FreeRegular(nm.St())| >= 3
      modifies `data, `blockDirty, nm
      ensures Valid() && nm.files == old(nm.files)
      ensures data == old(data)[(f, k) := content] && blockDirty == old(blockDirty) + {(f, k)}
      ensures Succeeds(old(nm.St()), nm.St())
      ensures forall g, j {:trigger AddrAt(nm.nodes, g, j)} :: g in nm.files && 0 <= j < MAX_BLOCKS ==>
          AddrAt(nm.nodes, g, j) == old(AddrAt(nm.nodes, g, j))
    {
      hide Core, Sane, Supply, BookOf, Extends, Grows, Reads, Tracked, Stale, Believed, AddrAt, FreeRegular, Walked,
          Path, Walk, Succeeds, IsTail, Dnode, EntryOf;
      ghost var st, m := nm.St(), Img();
      var _ := nm.GetDnodePage(f, k, true);
      WrittenInMemory(st, nm.St(), m, nm.files, f, k, content);
      data := data[(f, k) := content];
      blockDirty := blockDirty + {(f, k)};
    }

    /** What truncation does to one block: its slot is cleared if it has one, and memory forgets it. */
    method CutBlock(f: int, k: int)
      requires Valid() && f in nm.files && f != META_INO && 0 <= k < MAX_BLOCKS
      modifies `data, `blockDirty, nm
      ensures Valid() && nm.files == old(nm.files)
      ensures data == old(data) - {(f, k)} && blockDirty == old(blockDirty) - {(f, k)}
      ensures Succeeds(old(nm.St()), nm.St()) && SameBeliefs(old(nm.St()), nm.St())
      ensures forall g, j {:trigger AddrAt(nm.nodes, g, j)} :: g in nm.files && 0 <= j < MAX_BLOCKS ==>
                AddrAt(nm.nodes, g, j) == if g == f && j == k then 0 else old(AddrAt(nm.nodes, g, j))
    {
      hide Core, Sane, Supply, BookOf, Extends, Grows, Reads, Tracked, Stale, Believed, AddrAt, Walked, Path, Walk,
          CanWrite, Succeeds, SameBeliefs, IsTail, EntryOf;
      ghost var st, m := nm.St(), Img();
      var w := nm.GetDnodePage(f, k, false);
      ghost var at := nm.St();
      SameHome(st, at, nm.files, f, k);
      CutEffect(st, at, m, nm.files, f, k);
      if w.Reached? {
        SlotOnPath(k);
        nm.nodes := SetSlot(nm.nodes, w.nid, Path(k)[Depth(k)], 0);
        nm.nodeDirty := nm.nodeDirty + {w.nid};
        PutIsSet(at, f, k);
        assert nm.St() == BlockWritten(at, f, k, 0);
      }
      data := data - {(f, k)};
      blockDirty := blockDirty - {(f, k)};
    }

    // ----- Writing back -----

    /** `cp_append_nat` */
    method CpAppendNat(ne: NatEntry)
      modifies `metaNat
      ensures metaNat == old(metaNat) + [LogEntry(ne.nid, ne.ino, ne.addr)]
    {
      metaNat := metaNat + [LogEntry(ne.nid, ne.ino, ne.addr)];
    }

    /** Submission and completion of a node page's write: append it and publish its address in its entry. */
    method AppendNode(n: int) returns (ghost a: int)
      requires Valid() && n in nm.nodeDirty
      modifies `restart, nm, drive
      ensures Valid() && nm.files == old(nm.files)
      ensures n in old(nm.St()).book.used && IsNid(n) && a != 0
      ensures nm.St() == NodeWritten(old(nm.St()), n, a)
      ensures Reaches(old(Memory()), Memory(), nm.files)
      ensures drive.fuel <= old(drive.fuel) && (restart <==> old(restart) || drive.fuel < old(drive.fuel))
    {
      hide Core, Sane, Supply, BookOf, Extends, Grows, Reads, IsTail, Tracked, Stale, Believed, IsNid, BookUpdate,
          Update, AsMap;
      ghost var st, m := nm.St(), Img();
      DirtyUsed(st, m, nm.files, n);
      var _ := nm.LookupNat(n);
      var to, newZone := drive.Append(NodeBlk(PageOf(nm.nodes, n)));
      a := to;
      if newZone {
        restart := true;
      }
      NodeWrittenStore(st, nm.files, n, a);
      TrackedNode(st, m, nm.files, n, a);
      UpdateRefines(nm.Cached(), n, to, false);
      var _ := nm.UpdateNat(n, to, false);
      nm.nodeDirty := nm.nodeDirty - {n};
      ReachesOne(Mem(st, m), nm.files, PutNode(n, a));
    }

    /** Writing a node page; in phase 2 its new address is logged. */
    method WriteNode(n: int, ghost mid: Store, ghost base: nat)
      requires Valid() && n in nm.nodeDirty && base <= |metaNat|
      requires phase == 2 ==> AllAgree(nm.St(), mid, LogMap(metaNat[base..]))
      modifies `metaNat, `restart, nm, drive
      ensures Valid() && nm.files == old(nm.files)
      ensures nm.nodeDirty == old(nm.nodeDirty) - {n}
      ensures Succeeds(old(nm.St()), nm.St())
      ensures Reaches(old(Memory()), Memory(), nm.files)
      ensures drive.fuel <= old(drive.fuel) && (restart <==> old(restart) || drive.fuel < old(drive.fuel))
      ensures old(metaNat) <= metaNat && Moves(metaNat[|old(metaNat)|..])
      ensures phase == 2 ==> |metaNat| == |old(metaNat)| + 1 && metaNat[|old(metaNat)|].nid == n
      ensures phase == 2 ==> AllAgree(nm.St(), mid, LogMap(metaNat[base..]))
      ensures phase != 2 ==> metaNat == old(metaNat)
    {
      hide Reaches, Valid, AllAgree, LogMap, Stale, BookOf, Believed, IsNid;
      ghost var st := nm.St();
      InCore();
      var a := AppendNode(n);
      NodeWrittenStore(st, nm.files, n, a);
      if phase == 2 {
        LogNode(n, st, mid, base, a);
      }
    }

    /** `lookup_nat` and `cp_append_nat` at the end of a node write in phase 2. */
    method LogNode(n: int, ghost st: Store, ghost mid: Store, ghost base: nat, ghost a: int)
      requires Valid() && base <= |metaNat| && Core(st, nm.files) && n in st.book.used && IsNid(n) && a != 0
      requires AllAgree(st, mid, LogMap(metaNat[base..])) && nm.St() == NodeWritten(st, n, a)
      modifies `metaNat, nm`natList, nm`freeNat, nm`cachedNatCount, nm`nodes, nm`pageUptodate, nm`nodeDirty
      ensures Valid() && nm.St() == old(nm.St())
      ensures |metaNat| == |old(metaNat)| + 1 && metaNat[|old(metaNat)|].nid == n
      ensures old(metaNat) <= metaNat && Moves(metaNat[|old(metaNat)|..])
      ensures AllAgree(nm.St(), mid, LogMap(metaNat[base..]))
    {
      hide Core, Sane, Supply, BookOf, Extends, Grows, Reads, IsTail, Tracked, AllAgree, LogMap, Stale, IsNid;
      NodeWrittenStore(st, nm.files, n, a);
      var ne := nm.LookupNat(n);
      ghost var e := LogEntry(n, ne.value.ino, a);
      NodeLogged(st, mid, nm.files, metaNat[base..], n, a, e.ino);
      assert metaNat[base..] + [e] == (metaNat + [e])[base..];
      CpAppendNat(ne.value);
    }

    lemma InCore()
      requires Valid()
      ensures Core(nm.St(), nm.files)
    {
    }

    /**
     * Writing a block of a file or of the table file (`submit_data_xio` and its completion): find the node
     * page, append, store the new address in its slot, which makes the node page dirty.
     */
    method WriteBlock(f: int, k: int)
      requires Valid() && Pending(Img(), f, k)
      modifies `natDirty, `blockDirty, `restart, nm, drive
      ensures Valid() && nm.files == old(nm.files)
      ensures natDirty == old(natDirty) - (if f == META_INO then {k} else {})
      ensures blockDirty == old(blockDirty) - (if f == META_INO then {} else {(f, k)})
      ensures Succeeds(old(nm.St()), nm.St()) && SameBeliefs(old(nm.St()), nm.St())
      ensures Reaches(old(Memory()), Memory(), nm.files)
      ensures f == META_INO ==> DirtyLow(old(nm.nodeDirty), nm.nodeDirty)
      ensures drive.fuel <= old(drive.fuel) && (restart <==> old(restart) || drive.fuel < old(drive.fuel))
    {
      hide Core, Sane, Supply, BookOf, Extends, Grows, Reads, IsTail, Tracked, Walked, Stale, AddrAt, Walk, CanWrite,
          Reaches, Succeeds, SameBeliefs, DirtyLow, Believed;
      ghost var st, m := nm.St(), Img();
      PendingHome(st, m, nm.files, f, k);
      var w := nm.GetDnodePage(f, k, false);
      ghost var at := nm.St();
      WalkForWrite(st, at, m, nm.files, f, k);
      var a, newZone;
      if f == META_INO {
        a, newZone := drive.Append(NatBlk(Content(nm.natPages, k)));
        natDirty := natDirty - {k};
      } else {
        a, newZone := drive.Append(DataBlk(InMemory(data, f, k)));
        blockDirty := blockDirty - {(f, k)};
      }
      if newZone {
        restart := true;
      }
      nm.nodes := SetSlot(nm.nodes, w.nid, Path(k)[Depth(k)], a);
      nm.nodeDirty := nm.nodeDirty + {w.nid};
      assert nm.St() == BlockWritten(at, f, k, a) && Img() == BlockOut(at, m, f, k, a);
      BlockOutEffect(st, at, m, nm.files, f, k, a);
    }

    /** One round of `flush_nat`, for a dirty entry: its page is read for writing and takes the entry. */
    method FlushEntry(ghost st0: Store, ghost rest: seq<NatEntry>, left: nat)
      requires Valid() && left == |rest| > 0 && IsTail(rest, nm.natList) && rest[0].dirty && Unique(rest)
      requires FlushSoFar(st0, nm.St(), rest)
      requires rest[0].nid in st0.book.used && st0.book.used[rest[0].nid] == rest[0]
      modifies `natDirty, nm
      ensures Valid() && nm.files == old(nm.files) && IsTail(rest[1..], nm.natList)
      ensures FlushSoFar(st0, nm.St(), rest[1..])
      ensures Reaches(old(Memory()), Memory(), nm.files)
      ensures DirtyLow(old(nm.nodeDirty), nm.nodeDirty)
    {
      hide Core, Supply, BookOf, Extends, Grows, Reads, IsTail, Tracked, Stale, FlushSoFar, Sane, Reaches, DirtyLow,
          SameBeliefs, Succeeds, Unique;
      ghost var st, m := nm.St(), Img();
      TailHead(nm.natList, rest);
      var ne := nm.natList[|nm.natList| - left];
      ListedUsed(ne);
      var iblock, off := ne.nid / NAT_ENTRY_PER_BLOCK, ne.nid % NAT_ENTRY_PER_BLOCK;
      ghost var before := nm.natList;
      var page := nm.ReadRawNatBlock(iblock);
      ghost var at := nm.St();
      AfterRead(st, at, m, nm.files);
      FlushReads(st0, st, at, rest, nm.files);
      TailTrans(rest, before, nm.natList);
      TailHead(nm.natList, rest);
      ListedUsed(ne);
      var p := |nm.natList| - left;
      TailSkip(nm.natList, rest, ne.(dirty := false));
      SetEntry(p, ne.(dirty := false));
      nm.natPages := nm.natPages[iblock := page[off := RawNat(ne.ino, ne.addr)]];
      natDirty := natDirty + {iblock};
      assert nm.St() == Flushed(at, ne.nid);
      EntryOutEffect(st, at, m, nm.files, st0, rest);
    }

    /** Changing an entry of nat_list in place. */
    method SetEntry(p: int, e: NatEntry)
      requires Sane(nm.Cached()) && 0 <= p < |nm.natList| && e.nid == nm.natList[p].nid
      modifies nm`natList
      ensures Sane(nm.Cached()) && nm.natList == old(nm.natList)[p := e]
      ensures BookOf(nm.Cached()) == old(BookOf(nm.Cached())).(used := old(BookOf(nm.Cached())).used[e.nid := e])
    {
      AsMapSet(nm.natList, p, e);
      nm.natList := nm.natList[p := e];
    }

    lemma ListedUsed(e: NatEntry)
      requires nm.Valid() && e in nm.natList
      ensures e.nid in nm.St().book.used && nm.St().book.used[e.nid] == e && IsNid(e.nid)
    {
      hide Core;
      var i :| 0 <= i < |nm.natList| && nm.natList[i] == e;
      AsMapMember(nm.natList, i);
      UsedNid(nm.St(), nm.files, e.nid);
    }

    /**
     * `flush_nat`: every dirty entry that was on nat_list when the flush began goes to its table page.
     * Reading a page may put new entries in front of them; those are not visited.
     */
    method FlushNat()
      requires Valid()
      modifies `natDirty, nm
      ensures Valid() && nm.files == old(nm.files)
      ensures FlushSoFar(old(nm.St()), nm.St(), [])
      ensures forall b, i {:trigger Content(nm.natPages, b)[i]} :: 0 <= b && 0 <= i < 455 ==>
                var n, used := 455 * b + i, old(nm.St()).book.used;
                Content(nm.natPages, b)[i] == if n in used && used[n].dirty then RawNat(used[n].ino, used[n].addr)
                                              else old(Content(nm.natPages, b)[i])
      ensures Reaches(old(Memory()), Memory(), nm.files)
      ensures DirtyLow(old(nm.nodeDirty), nm.nodeDirty)
    {
      hide Reaches, Core, Supply, BookOf, Extends, Grows, Reads, IsTail, Tracked, Stale, FlushSoFar, FlushedAt,
          Valid, Nat.Valid;
      ghost var st0, list := nm.St(), nm.natList;
      var left := |nm.natList|;
      FlushBegins();
      ReachesItself(Memory(), nm.files);
      while left > 0
        invariant 0 <= left <= |list| && Valid() && nm.files == old(nm.files) && Unique(list)
        invariant IsTail(list[|list| - left..], nm.natList)
        invariant FlushSoFar(st0, nm.St(), list[|list| - left..])
        invariant Reaches(old(Memory()), Memory(), nm.files)
        invariant DirtyLow(old(nm.nodeDirty), nm.nodeDirty)
        invariant forall e :: e in list ==> e.nid in st0.book.used && st0.book.used[e.nid] == e
      {
        ghost var rest := list[|list| - left..];
        assert rest[1..] == list[|list| - (left - 1)..];
        TailHead(nm.natList, rest);
        if nm.natList[|nm.natList| - left].dirty {
          ghost var x := Memory();
          FlushEntry(st0, rest, left);
          ReachesTrans(old(Memory()), x, Memory(), nm.files);
        } else {
          SkipEntry(st0, rest);
        }
        left := left - 1;
      }
      FlushPlaces(st0, nm.St());
    }

    lemma FlushBegins()
      requires Valid()
      ensures FlushSoFar(nm.St(), nm.St(), nm.natList) && Unique(nm.natList) && IsTail(nm.natList, nm.natList)
      ensures forall e :: e in nm.natList ==> e.nid in nm.St().book.used && nm.St().book.used[e.nid] == e
    {
      hide Core, Supply, Tracked;
      FlushStart(nm.St(), nm.natList);
      forall e | e in nm.natList ensures e.nid in nm.St().book.used && nm.St().book.used[e.nid] == e {
        ListedUsed(e);
      }
    }

    lemma SkipEntry(st0: Store, rest: seq<NatEntry>)
      requires Valid() && rest != [] && !rest[0].dirty && Unique(rest) && FlushSoFar(st0, nm.St(), rest)
      requires rest[0].nid in st0.book.used && st0.book.used[rest[0].nid] == rest[0]
      requires IsTail(rest, nm.natList)
      ensures FlushSoFar(st0, nm.St(), rest[1..]) && IsTail(rest[1..], nm.natList)
    {
      hide Core, Supply, Tracked, FlushSoFar, Sane, BookOf;
      FlushStep(st0, nm.St(), nm.files, rest);
      TailHead(nm.natList, rest);
      TailSkip(nm.natList, rest, rest[0]);
      assert nm.natList[|nm.natList| - |rest| := rest[0]] == nm.natList;
    }

    /** `filemap_write_and_wait_range` on the node inode: all dirty node pages of a range of nids. */
    method WriteNodes(lo: int, hi: int, ghost mid: Store, ghost base: nat)
      requires Valid() && base <= |metaNat|
      requires phase == 2 ==> AllAgree(nm.St(), mid, LogMap(metaNat[base..]))
      modifies `metaNat, `restart, nm, drive
      ensures Valid() && nm.files == old(nm.files)
      ensures nm.nodeDirty == old(nm.nodeDirty) - Within(old(nm.nodeDirty), lo, hi)
      ensures Succeeds(old(nm.St()), nm.St())
      ensures Reaches(old(Memory()), Memory(), nm.files)
      ensures drive.fuel <= old(drive.fuel) && (restart <==> old(restart) || drive.fuel < old(drive.fuel))
      ensures old(metaNat) <= metaNat && Moves(metaNat[|old(metaNat)|..])
      ensures phase == 2 ==> LogsOnce(metaNat[|old(metaNat)|..], Within(old(nm.nodeDirty), lo, hi))
      ensures phase == 2 ==> AllAgree(nm.St(), mid, LogMap(metaNat[base..]))
      ensures phase != 2 ==> metaNat == old(metaNat)
    {
      hide Reaches, Within, Valid, AllAgree, LogMap, Stale, BookOf, LogsOnce, Moves, Succeeds;
      var todo := Within(nm.nodeDirty, lo, hi);
      ghost var due := todo;
      SucceedsItself(nm.St());
      LogsNone();
      assert metaNat[|metaNat|..] == [] && due - todo == {};
      ReachesItself(Memory(), nm.files);
      while todo != {}
        invariant Valid() && nm.files == old(nm.files)
        invariant old(metaNat) <= metaNat && Moves(metaNat[|old(metaNat)|..])
        invariant todo <= nm.nodeDirty && nm.nodeDirty == old(nm.nodeDirty) - (due - todo)
        invariant Succeeds(old(nm.St()), nm.St())
        invariant drive.fuel <= old(drive.fuel) && (restart <==> old(restart) || drive.fuel < old(drive.fuel))
        invariant todo <= due && (phase == 2 ==> LogsOnce(metaNat[|old(metaNat)|..], due - todo))
        invariant phase == 2 ==> AllAgree(nm.St(), mid, LogMap(metaNat[base..]))
        invariant phase != 2 ==> metaNat == old(metaNat)
        invariant Reaches(old(Memory()), Memory(), nm.files)
        decreases todo
      {
        var n := AnyOf(todo);
        ghost var logged := metaNat;
        ghost var st := nm.St();
        ghost var x := Memory();
        WriteNode(n, mid, base);
        ReachesTrans(old(Memory()), x, Memory(), nm.files);
        StaleTrans(old(nm.St()), st, nm.St());
        LoggedNext(old(metaNat), logged, metaNat, due, todo, n);
        todo := todo - {n};
      }
      assert due - todo == due;
    }

    /** The same on the meta inode: all dirty table pages of a range. */
    method WriteNatPages(lo: int, hi: int)
      requires Valid()
      modifies `natDirty, `blockDirty, `restart, nm, drive
      ensures Valid() && nm.files == old(nm.files) && blockDirty == old(blockDirty)
      ensures natDirty == old(natDirty) - Within(old(natDirty), lo, hi)
      ensures SameBeliefs(old(nm.St()), nm.St())
      ensures DirtyLow(old(nm.nodeDirty), nm.nodeDirty)
      ensures drive.fuel <= old(drive.fuel) && (restart <==> old(restart) || drive.fuel < old(drive.fuel))
      ensures Succeeds(old(nm.St()), nm.St())
      ensures Reaches(old(Memory()), Memory(), nm.files)
    {
      hide Reaches, Within, Valid, Stale, BookOf, Believed;
      var todo := Within(natDirty, lo, hi);
      ghost var due := todo;
      ReachesItself(Memory(), nm.files);
      while todo != {}
        invariant Valid() && nm.files == old(nm.files) && blockDirty == old(blockDirty)
        invariant todo <= natDirty && todo <= due && natDirty == old(natDirty) - (due - todo)
        invariant Succeeds(old(nm.St()), nm.St()) && SameBeliefs(old(nm.St()), nm.St())
        invariant DirtyLow(old(nm.nodeDirty), nm.nodeDirty)
        invariant drive.fuel <= old(drive.fuel) && (restart <==> old(restart) || drive.fuel < old(drive.fuel))
        invariant Reaches(old(Memory()), Memory(), nm.files)
        decreases todo
      {
        var b := AnyOf(todo);
        ghost var x := Memory();
        WriteBlock(META_INO, b);
        ReachesTrans(old(Memory()), x, Memory(), nm.files);
        todo := todo - {b};
      }
    }

    /** `sync_inodes_sb`: every dirty file block, and table pages and node pages as it meets them. */
    method SyncInodes()
      requires Valid() && phase == 1
      modifies `natDirty, `blockDirty, `metaNat, `restart, nm, drive
      ensures Valid() && nm.files == old(nm.files) && metaNat == old(metaNat)
      ensures blockDirty == {} && Succeeds(old(nm.St()), nm.St())
      ensures Reaches(old(Memory()), Memory(), nm.files)
      ensures drive.fuel <= old(drive.fuel) && (restart <==> old(restart) || drive.fuel < old(drive.fuel))
    {
      hide Reaches, Valid, Stale, BookOf, Believed, LogMap, AllAgree;
      ReachesItself(Memory(), nm.files);
      while blockDirty != {}
        invariant Valid() && nm.files == old(nm.files) && metaNat == old(metaNat)
        invariant Succeeds(old(nm.St()), nm.St())
        invariant drive.fuel <= old(drive.fuel) && (restart <==> old(restart) || drive.fuel < old(drive.fuel))
        invariant Reaches(old(Memory()), Memory(), nm.files)
        decreases natDirty, blockDirty, nm.nodeDirty
      {
        var other: bool := *;
        ghost var x := Memory();
        if other && natDirty != {} {
          var b := AnyOf(natDirty);
          WriteBlock(META_INO, b);
        } else if other && nm.nodeDirty != {} {
          var n := AnyOf(nm.nodeDirty);
          WriteNode(n, nm.St(), 0);
        } else {
          var p := AnyOf(blockDirty);
          BlockIsOfFile(p.0, p.1);
          WriteBlock(p.0, p.1);
        }
        ReachesTrans(old(Memory()), x, Memory(), nm.files);
      }
    }

    /** Phase 1: file data, then the regular nodes. */
    method Phase1()
      requires Valid()
      modifies this`natDirty, `blockDirty, `metaNat, `phase, `restart, nm, drive
      ensures Valid() && nm.files == old(nm.files) && metaNat == old(metaNat)
      ensures blockDirty == {} && forall n :: n in nm.nodeDirty ==> 0 < n < LOW_NIDS
      ensures Succeeds(old(nm.St()), nm.St())
      ensures Reaches(old(Memory()), Memory(), nm.files)
      ensures drive.fuel <= old(drive.fuel) && (restart <==> old(restart) || drive.fuel < old(drive.fuel))
    {
      hide Reaches, Valid, Stale, BookOf, Believed, LogMap, AllAgree;
      phase := 0;
      phase := 1;
      SyncInodes();
      ghost var x := Memory();
      WriteNodes(REG_NID_START, NAT_BLOCKS * NAT_ENTRY_PER_BLOCK, nm.St(), 0);
      DirtyNids();
      ReachesTrans(old(Memory()), x, Memory(), nm.files);
    }

    /** Phase 2: flush the table, write its pages and then its nodes, which are logged as they move. */
    method Phase2() returns (ghost mid: Store, ghost moved: set<int>)
      requires Valid() && blockDirty == {} && forall n :: n in nm.nodeDirty ==> 0 < n < LOW_NIDS
      modifies this`natDirty, `blockDirty, `metaNat, `phase, `restart, nm, drive
      ensures Valid() && nm.files == old(nm.files) && mid == old(nm.St())
      ensures old(metaNat) <= metaNat && Moves(metaNat[|old(metaNat)|..])
      ensures LogsOnce(metaNat[|old(metaNat)|..], moved) && forall n :: n in moved ==> 0 < n < LOW_NIDS
      ensures natDirty == {} && blockDirty == {} && nm.nodeDirty == {}
      ensures AllAgree(nm.St(), mid, LogMap(metaNat[|old(metaNat)|..]))
      ensures Succeeds(mid, nm.St())
      ensures Reaches(old(Memory()), Memory(), nm.files)
      ensures drive.fuel <= old(drive.fuel) && (restart <==> old(restart) || drive.fuel < old(drive.fuel))
    {
      hide Reaches, Valid, Stale, BookOf, Believed, AllAgree, FlushSoFar, LogsOnce;
      phase := 2;
      mid := nm.St();
      BookIn();
      FlushNat();
      FlushEnds(mid, nm.St());
      ghost var x1 := Memory();
      ghost var flushed := nm.St();
      DirtyPages();
      WriteNatPages(REG_NAT_START, META_BLOCKS);
      ghost var x2 := Memory();
      ReachesTrans(old(Memory()), x1, x2, nm.files);
      WriteNatPages(0, META_BLOCKS);
      ghost var x3 := Memory();
      ReachesTrans(old(Memory()), x2, x3, nm.files);
      AgreeSame(flushed, nm.St(), mid, map[]);
      StaleTrans(mid, flushed, nm.St());
      ghost var written := nm.St();
      assert metaNat[|metaNat|..] == [];
      DirtyNids();
      moved := nm.nodeDirty;
      assert Within(moved, 0, REG_NID_START) == moved;
      WriteNodes(0, REG_NID_START, mid, |metaNat|);
      StaleTrans(mid, written, nm.St());
      ReachesTrans(old(Memory()), x3, Memory(), nm.files);
    }

    /** Phase 3: the entries of the table file itself and of the root are logged in any case. */
    method Phase3(ghost mid: Store, ghost base: nat)
      requires Valid() && base <= |metaNat| && AllAgree(nm.St(), mid, LogMap(metaNat[base..]))
      modifies `metaNat, nm
      ensures Valid() && nm.files == old(nm.files) && nm.nodeDirty == old(nm.nodeDirty)
      ensures |metaNat| == |old(metaNat)| + 2
      ensures old(metaNat) <= metaNat && (Moves(old(metaNat)[base..]) ==> PassLog(metaNat[base..]))
      ensures AllAgree(nm.St(), mid, LogMap(metaNat[base..])) && META_INO in LogMap(metaNat[base..])
      ensures Succeeds(old(nm.St()), nm.St())
      ensures Reaches(old(Memory()), Memory(), nm.files)
    {
      hide Core, Sane, Supply, BookOf, Extends, Grows, Reads, IsTail, Tracked, AllAgree, LogMap, Stale;
      ghost var st, m := nm.St(), Img();
      MetaInFiles(st, nm.files);
      var ne := nm.LookupNat(1);
      ghost var e1 := LogEntry(1, ne.value.ino, ne.value.addr);
      EntryLogged(st, mid, metaNat[base..], e1);
      assert metaNat[base..] + [e1] == (metaNat + [e1])[base..];
      CpAppendNat(ne.value);
      ne := nm.LookupNat(3);
      ghost var at := nm.St();
      LooksOnly(st, at, m, nm.files);
      AfterLookup(st, at, m, nm.files);
      AgreeSame(st, at, mid, LogMap(metaNat[base..]));
      ghost var e3 := LogEntry(3, ne.value.ino, ne.value.addr);
      EntryLogged(at, mid, metaNat[base..], e3);
      assert metaNat[base..] + [e3] == (metaNat + [e3])[base..];
      CpAppendNat(ne.value);
      assert metaNat[base..] == old(metaNat)[base..] + [e1, e3];
      if Moves(old(metaNat)[base..]) {
        PassLogEnds(st, mid, old(metaNat)[base..], e1, e3);
      }
    }

    lemma DirtyNids()
      requires Valid()
      ensures forall n :: n in nm.nodeDirty ==> IsNid(n)
    {
      hide Supply, Tracked;
    }

    lemma BookIn()
      requires Valid()
      ensures BookInRange(nm.St().book)
    {
      hide Supply, Tracked;
    }

    lemma DirtyPages()
      requires Valid()
      ensures forall b :: b in natDirty ==> 0 <= b < META_BLOCKS
    {
      hide Supply;
    }

    /**
     * `do_checkpoint`.  It ends with the first pass that opens no zone (`last` is the fuel that pass starts with),
     * after at most one pass more than zones can be opened, with nothing dirty, and the superblock then describes
     * the whole memory exactly if every nid survives the last pass.
     */
    method DoCheckpoint()
      returns (ghost mid: Store, ghost left: seq<LogEntry>, ghost moved: set<int>, ghost passes: nat, ghost last: nat)
      requires Valid()
      modifies this`natDirty, `blockDirty, `metaNat, `phase, `restart, nm, drive
      ensures Valid() && nm.files == old(nm.files)
      ensures natDirty == {} && blockDirty == {} && nm.nodeDirty == {} && !restart
      ensures 1 <= passes <= old(drive.fuel) - drive.fuel + 1
      ensures drive.fuel == last && (passes == 1 <==> drive.fuel == old(drive.fuel))
      ensures passes > 1 || old(restart) ==> left == []
      ensures passes == 1 && !old(restart) ==> left == old(metaNat)
      ensures left <= metaNat && (left == [] || (!old(restart) && left == old(metaNat)))
      ensures Succeeds(old(nm.St()), nm.St())
      ensures Reaches(old(Memory()), Memory(), nm.files)
      ensures |metaNat| == |left| + |moved| + 2 && LogsOnce(metaNat[|left|..|metaNat| - 2], moved)
      ensures (forall n :: n in moved ==> 0 < n < LOW_NIDS)
      ensures |metaNat| <= LOG_ROOM <==> |left| + |moved| <= LOG_ROOM - 2
      ensures Succeeds(old(nm.St()), mid) && PassLog(metaNat[|left|..])
      ensures AllAgree(nm.St(), mid, LogMap(metaNat[|left|..])) && META_INO in LogMap(metaNat[|left|..])
      ensures Synced(nm.St(), drive.dev, LogMap(metaNat), data, nm.files)
         <==> forall n {:trigger Survives(mid, LogMap(left), LogMap(metaNat[|left|..]), n)} ::
                0 <= n ==> Survives(mid, LogMap(left), LogMap(metaNat[|left|..]), n)
      ensures && (old(metaNat) == [] || old(restart))
              && (forall n :: 0 <= n && n != 1 && n != 3 ==> !Stale(old(nm.St()), n))
          ==> Synced(nm.St(), drive.dev, LogMap(metaNat), data, nm.files)
    {
      hide Reaches, Valid, Stale, BookOf, Believed, AllAgree, LogMap, Synced, Survives, LogsOnce;
      var again := true;
      mid, left, moved, passes, last := nm.St(), [], {}, 0, drive.fuel;
      ReachesItself(Memory(), nm.files);
      while again
        invariant Valid() && nm.files == old(nm.files)
        invariant again ==> passes + drive.fuel <= old(drive.fuel)
        invariant !again ==> drive.fuel == last && (passes == 1 <==> drive.fuel == old(drive.fuel))
        invariant passes == 0 ==> again && drive.fuel == old(drive.fuel)
        invariant !again && (passes > 1 || old(restart)) ==> left == []
        invariant !again && passes == 1 && !old(restart) ==> left == old(metaNat)
        invariant !again ==> 1 <= passes <= old(drive.fuel) - drive.fuel + 1 && !restart
        invariant again ==> if passes == 0 then restart == old(restart) && metaNat == old(metaNat) else restart
        invariant Succeeds(old(nm.St()), nm.St()) && Succeeds(old(nm.St()), mid)
        invariant Reaches(old(Memory()), Memory(), nm.files)
        invariant left <= metaNat
        invariant !again ==> left == [] || (!old(restart) && left == old(metaNat))
        invariant !again ==> |metaNat| == |left| + |moved| + 2 && LogsOnce(metaNat[|left|..|metaNat| - 2], moved)
        invariant !again ==> forall n :: n in moved ==> 0 < n < LOW_NIDS
        invariant !again ==> PassLog(metaNat[|left|..])
        invariant !again ==> natDirty == {} && blockDirty == {} && nm.nodeDirty == {}
        invariant !again ==> AllAgree(nm.St(), mid, LogMap(metaNat[|left|..])) && META_INO in LogMap(metaNat[|left|..])
        decreases again, drive.fuel
      {
        ghost var start := nm.St();
        if restart {
          restart := false;
          metaNat := [];
        }
        left, last := metaNat, drive.fuel;
        ghost var x0 := Memory();
        Phase1();
        ghost var x1 := Memory();
        ReachesTrans(old(Memory()), x0, x1, nm.files);
        StaleTrans(old(nm.St()), start, nm.St());
        mid, moved := Phase2();
        ghost var x2 := Memory();
        ReachesTrans(old(Memory()), x1, x2, nm.files);
        ghost var logged := metaNat;
        OnceSize(logged[|left|..], moved);
        StaleTrans(old(nm.St()), mid, nm.St());
        ghost var end := nm.St();
        Phase3(mid, |left|);
        ReachesTrans(old(Memory()), x2, Memory(), nm.files);
        assert metaNat[|left|..|metaNat| - 2] == logged[|left|..];
        StaleTrans(old(nm.St()), end, nm.St());
        again := restart;
        passes := passes + 1;
      }
      Done(mid, left);
      if left == [] && forall n :: 0 <= n && n != 1 && n != 3 ==> !Stale(old(nm.St()), n) {
        NoneStale(old(nm.St()), mid, metaNat[|left|..]);
      }
    }

    lemma Done(mid: Store, left: seq<LogEntry>)
      requires Valid() && left <= metaNat && natDirty == {} && blockDirty == {} && nm.nodeDirty == {}
      requires AllAgree(nm.St(), mid, LogMap(metaNat[|left|..])) && META_INO in LogMap(metaNat[|left|..])
      ensures Synced(nm.St(), drive.dev, LogMap(metaNat), data, nm.files)
         <==> forall n {:trigger Survives(mid, LogMap(left), LogMap(metaNat[|left|..]), n)} ::
                0 <= n ==> Survives(mid, LogMap(left), LogMap(metaNat[|left|..]), n)
    {
      hide Core, Tracked, Supply, AllAgree, LogMap, Synced, Survives, BookOf, Sane;
      SyncedIff(nm.St(), mid, Img(), nm.files, left, metaNat[|left|..]);
      assert left + metaNat[|left|..] == metaNat;
    }

    lemma BlockIsOfFile(f: int, k: int)
      requires Valid() && (f, k) in blockDirty
      ensures f != META_INO
    {
      hide Core, Supply;
      assert HasHome(nm.St(), nm.files, f, k);
    }
  }
}
