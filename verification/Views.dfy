/**
 * What a mount knows of its nids while it writes back: the addresses believed, those the table shows, the entries
 * and node pages still dirty.  Each step of a checkpoint changes it in one place.
 */
module Views {
  import opened Layout
  import opened BlockPath
  import opened NodeTree
  import opened NatCache
  import opened NatStore
  import opened Recovery
  import opened Writeback
  import opened WritePipeline
  import opened Coupling
  import opened Serving
  import opened Mount
  import opened Joint
  import opened Serial

  /**
   * Nids that are left out have no address.  `used` are the entries of nat_list, `todo` the dirty ones among
   * them, `dirty` the dirty node pages, `mapped` blocks known to have an address, `homes` the node pages known
   * to hold the address of a block.
   */
  datatype View = View(bel: map<int, int>, shown: map<int, int>, used: set<int>, todo: set<int>, dirty: set<int>,
                       mapped: set<(int, int)>, homes: map<(int, int), int>, ready: set<int>)

  function Get(m: map<int, int>, n: int): int {
    if n in m then m[n] else 0
  }

  ghost predicate Home(st: Store, files: set<int>, f: int, k: int, home: int) {
    CanWrite(st, files, f, k) && Dnode(st.nodes, f, k) == home
  }

  ghost predicate Mapped(st: Store, files: set<int>, f: int, k: int) {
    f in files && 0 <= k < MAX_BLOCKS && AddrAt(st.nodes, f, k) != 0
  }

  ghost predicate Matches(st: Store, files: set<int>, v: View) {
    && (forall n {:trigger Believed(st, n)} :: 0 <= n ==> Believed(st, n) == Get(v.bel, n))
    && (forall n {:trigger OnPage(st.pages, n)} :: 0 <= n ==> OnPage(st.pages, n).addr == Get(v.shown, n))
    && st.book.used.Keys == v.used
    && (forall n :: n in v.todo <==> n in st.book.used && st.book.used[n].dirty)
    && st.dirty == v.dirty && v.ready <= st.ready
    && (forall p :: p in v.mapped ==> Mapped(st, files, p.0, p.1))
    && (forall p :: p in v.homes ==> Home(st, files, p.0, p.1, v.homes[p]))
  }

  datatype Work = Work(j: Joint, m: Image, v: View, room: nat)

  ghost predicate Good(w: Work) {
    Working(w.j, w.m, w.room) && Matches(w.j.st, w.j.files, w.v)
  }

  lemma GoodParts(w: Work)
    requires Good(w)
    ensures Matches(w.j.st, w.j.files, w.v) && w.m.dev == w.j.io.dev && w.j.io.flights == map[]
    ensures Working(w.j, w.m, w.room) && Ok(w.j) && Tracked(w.j.st, w.m, w.j.files) && Roomy(w.j.io, w.room)
  {
  }

  lemma WorkingParts(j: Joint, m: Image, n: nat)
    requires Working(j, m, n)
    ensures Ok(j) && Tracked(j.st, m, j.files) && m.dev == j.io.dev && j.io.flights == map[] && Roomy(j.io, n)
  {
  }

  lemma Assemble(w: Work)
    requires Ok(w.j) && Tracked(w.j.st, w.m, w.j.files) && w.m.dev == w.j.io.dev && w.j.io.flights == map[]
    requires Roomy(w.j.io, w.room) && Matches(w.j.st, w.j.files, w.v)
    ensures Good(w)
  {
  }

  /** What every step keeps. */
  ghost predicate Next(w: Work, w': Work) {
    w'.j.files == w.j.files && w'.m.data == w.m.data && OnlyAppended(w.m.dev, w'.m.dev)
  }

  /** Steps one after the other. */
  lemma NextTrans(a: Work, b: Work, c: Work, opens: bool)
    requires Next(a, b) && Next(b, c) && Ran(a.j, b.j, opens) && Ran(b.j, c.j, opens)
    ensures Next(a, c) && Ran(a.j, c.j, opens)
  {
    RanTrans(a.j, b.j, c.j, opens);
  }

  // ----- A lookup or a walk -----

  lemma WalkTo(w: Work, to: Store, v: View) returns (w': Work)
    requires Good(w) && Extends(w.j.st, to, w.j.files) && Core(to, w.j.files) && Matches(to, w.j.files, v)
    ensures Good(w') && Next(w, w') && w'.room == w.room && w'.v == v && w'.m == w.m && w'.j == w.j.(st := to)
    ensures Ran(w.j, w'.j, false)
  {
    WorkCore(w);
    GoodParts(w);
    InMeta(w.j.st, w.j.files);
    hide Core, Matches, Tracked, Ok, Roomy, Extends;
    var e: Event := Walks(to);
    assert Can(w.j, e);
    TrackedExtends(w.j.st, to, w.m, w.j.files);
    StepOk(w.j, e);
    RanOne(w.j, e);
    w' := Work(w.j.(st := to), w.m, v, w.room);
  }

  lemma InMeta(st: Store, files: set<int>)
    requires Core(st, files)
    ensures META_INO in files
  {
  }

  // ----- A new file, and a write to a block in memory -----

  function Created(st: Store, ino: int): Store {
    st.(book := Book(st.book.used[ino := NatEntry(ino, ino, 0, false, false)], st.book.free - {ino}),
        dirty := st.dirty + {ino})
  }

  lemma CreateRuns(j: Joint, ino: int)
    requires Ok(j) && ino in j.st.book.free && REG_NID_START <= ino
    ensures var j' := j.(st := Created(j.st, ino), files := j.files + {ino});
            && Ok(j') && Ran(j, j', false) && ino !in j.files && ino !in j.st.book.used
            && (forall n {:trigger Believed(j'.st, n)} :: 0 <= n ==> Believed(j'.st, n) == Believed(j.st, n))
            && (forall k {:trigger AddrAt(j'.st.nodes, ino, k)} :: 0 <= k < MAX_BLOCKS ==>
                  AddrAt(j'.st.nodes, ino, k) == 0)
  {
    var st, c := j.st, Created(j.st, ino);
    var to := c.(dirty := st.dirty);
    OkCore(j);
    NoAddrFree(st, j.files, ino);
    assert HandsOut(st, to, ino) && to.(dirty := to.dirty + {ino}) == c;
    NewFileStore(st, to, j.files, ino);
    var e: Event := Create(ino, to);
    assert Can(j, e);
    hide Core, Ok, HandsOut, Can, AddrAt, Believed, Supply, Stale, Created;
    StepOk(j, e);
    RanOne(j, e);
  }

  lemma CreateFile(w: Work, ino: int) returns (w': Work)
    requires Good(w) && ino in w.j.st.book.free && REG_NID_START <= ino
    ensures Good(w') && w'.room == w.room && w'.m == w.m && w'.j.files == w.j.files + {ino} && w'.j.io == w.j.io
    ensures w'.v == w.v.(used := w.v.used + {ino}, dirty := w.v.dirty + {ino}, homes := w.v.homes[(ino, 0) := ino])
    ensures Ran(w.j, w'.j, false) && ino !in w.j.files
  {
    GoodParts(w);
    CreateRuns(w.j, ino);
    var st, c, files := w.j.st, Created(w.j.st, ino), w.j.files + {ino};
    assert c.nodes == st.nodes && c.ready == st.ready && c.pages == st.pages && c.dirty == st.dirty + {ino};
    w' := Work(w.j.(st := c, files := files), w.m,
               w.v.(used := w.v.used + {ino}, dirty := w.v.dirty + {ino}, homes := w.v.homes[(ino, 0) := ino]), w.room);
    CreatedView(st, c, w.j.files, w.v, ino);
    hide *;
    TrackedNewFile(st, c, w.m, w.j.files, ino);
    Assemble(w');
  }

  lemma NoAddrFree(st: Store, files: set<int>, n: int)
    requires Core(st, files) && n in st.book.free
    ensures n !in st.book.used && Believed(st, n) == 0 && 0 <= n
  {
  }

  lemma CreatedView(a: Store, c: Store, files: set<int>, v: View, ino: int)
    requires Matches(a, files, v) && ino in a.book.free && ino !in a.book.used && 0 < ino
    requires c == Created(a, ino)
    requires forall n {:trigger Believed(c, n)} :: 0 <= n ==> Believed(c, n) == Believed(a, n)
    ensures Matches(c, files + {ino},
                    v.(used := v.used + {ino}, dirty := v.dirty + {ino}, homes := v.homes[(ino, 0) := ino]))
  {
    var v' := v.(used := v.used + {ino}, dirty := v.dirty + {ino}, homes := v.homes[(ino, 0) := ino]);
    assert Up(0, Depth(0)) == [];
    forall p | p in v'.homes ensures Home(c, files + {ino}, p.0, p.1, v'.homes[p]) {
      if p != (ino, 0) {
        assert Home(a, files, p.0, p.1, v.homes[p]);
      }
    }
    hide Walk, AddrAt;
    forall p | p in v'.mapped ensures Mapped(c, files + {ino}, p.0, p.1) {
      assert Mapped(a, files, p.0, p.1);
    }
    hide Home, Mapped, Believed, OnPage;
  }

  lemma PutData(w: Work, f: int, k: int, content: int) returns (w': Work)
    requires Good(w) && (f, k) in w.v.homes && f != META_INO
    ensures Good(w') && w'.j == w.j && w'.v == w.v && w'.room == w.room
    ensures w'.m == w.m.(data := w.m.data[(f, k) := content], blocks := w.m.blocks + {(f, k)})
  {
    w' := w.(m := w.m.(data := w.m.data[(f, k) := content], blocks := w.m.blocks + {(f, k)}));
    assert Home(w.j.st, w.j.files, f, k, w.v.homes[(f, k)]);
    hide Matches, Ok, Tracked, Roomy;
    TrackedData(w.j.st, w.m, w.j.files, f, k, content);
  }

  // ----- A node page is written -----

  function NodeOut(v: View, n: int, a: int): View {
    v.(bel := v.bel[n := a], todo := v.todo + {n}, dirty := v.dirty - {n})
  }

  lemma NodeView(st: Store, files: set<int>, v: View, n: int, a: int)
    requires Core(st, files) && Matches(st, files, v) && n in st.book.used && a != 0 && a != Believed(st, n)
    ensures Matches(NodeWritten(st, n, a), files, NodeOut(v, n, a))
  {
    var b := NodeWritten(st, n, a);
    NodeWrittenStore(st, files, n, a);
    hide Core, AddrAt, Stale, Supply, Walk;
    forall i | 0 <= i ensures OnPage(b.pages, i) == OnPage(st.pages, i) {
    }
    forall p | p in v.homes ensures Home(b, files, p.0, p.1, v.homes[p]) {
    }
    forall p | p in v.mapped ensures Mapped(b, files, p.0, p.1) {
    }
    hide Believed, OnPage, Home, Mapped;
  }

  lemma NodeDue(w: Work, n: int)
    requires Good(w) && n in w.v.dirty
    ensures Due(w.j, w.m, Node(n)) && n in w.j.st.book.used && 0 < n
    ensures Core(w.j.st, w.j.files) && AddrOf(w.j.io, Node(n)) == Believed(w.j.st, n) == Get(w.v.bel, n)
    ensures Believed(w.j.st, n) != 0 ==> Believed(w.j.st, n) in w.m.dev
  {
    hide Safe, Roomy;
    assert n in w.j.st.book.used && IsNid(n);
    assert SameAddr(w.j.io, w.j.st, w.j.files, Node(n));
    assert NodeTracked(w.j.st, w.m.dev, n);
  }

  lemma WriteN(w: Work, n: int) returns (a: int, w': Work)
    requires Good(w) && w.room > 0 && n in w.v.dirty
    ensures Good(w') && Next(w, w') && w'.room == w.room - 1 && w'.v == NodeOut(w.v, n, a)
    ensures a != 0 && a != Get(w.v.bel, n)
    ensures w'.m.nats == w.m.nats && w'.m.blocks == w.m.blocks
    ensures Ran(w.j, w'.j, Get(w.v.bel, n) == 0)
  {
    NodeDue(w, n);
    GoodParts(w);
    hide *;
    var j';
    a, j' := Serve(w.j, w.m, Node(n), w.room);
    w' := NodeWork(w, j', n, a);
  }

  lemma NodeWork(w: Work, j': Joint, n: int, a: int) returns (w': Work)
    requires Good(w) && w.room > 0 && n in w.v.dirty && a != 0 && a !in w.m.dev
    requires j'.st == Publish(w.j.st, Node(n), a) && j'.files == w.j.files
    requires Working(j', PageOut(w.j.st, w.m, Node(n), a), w.room - 1)
    ensures w'.j == j' && Good(w') && Next(w, w') && w'.room == w.room - 1 && w'.v == NodeOut(w.v, n, a)
    ensures w'.m.nats == w.m.nats && w'.m.blocks == w.m.blocks
  {
    NodeDue(w, n);
    WorkCore(w);
    hide *;
    w' := Work(j', PageOut(w.j.st, w.m, Node(n), a), NodeOut(w.v, n, a), w.room - 1);
    NodePublish(w.j.st, w.m, n, a);
    NodeView(w.j.st, w.j.files, w.v, n, a);
    WorkingParts(w'.j, w'.m, w'.room);
    Assemble(w');
    KeepsMost(w, w');
  }

  lemma NodePublish(st: Store, m: Image, n: int, a: int)
    requires a !in m.dev
    ensures Publish(st, Node(n), a) == NodeWritten(st, n, a)
    ensures var m' := PageOut(st, m, Node(n), a);
            m'.data == m.data && OnlyAppended(m.dev, m'.dev) && m'.nats == m.nats && m'.blocks == m.blocks
  {
  }

  // ----- A block is written -----

  function BlockPut(v: View, f: int, k: int): View
    requires (f, k) in v.homes
  {
    v.(dirty := v.dirty + {v.homes[(f, k)]}, mapped := v.mapped + {(f, k)})
  }

  lemma BlockView(st: Store, files: set<int>, v: View, f: int, k: int, a: int)
    requires Core(st, files) && Matches(st, files, v) && (f, k) in v.homes && a != 0
    ensures 0 <= k < MAX_BLOCKS && Matches(BlockWritten(st, f, k, a), files, BlockPut(v, f, k))
  {
    assert Home(st, files, f, k, v.homes[(f, k)]);
    var b := BlockWritten(st, f, k, a);
    BlockHomes(st, files, v, f, k, a);
    BlockMapped(st, files, v, f, k, a);
    hide Core, AddrAt, Put, OnPage, Mapped, CanWrite;
    forall n | 0 <= n ensures Believed(b, n) == Believed(st, n) {
    }
    hide Believed, Home;
  }

  lemma BlockHomes(st: Store, files: set<int>, v: View, f: int, k: int, a: int)
    requires Core(st, files) && Matches(st, files, v) && CanWrite(st, files, f, k) && a != 0
    ensures forall p :: p in v.homes ==> Home(BlockWritten(st, f, k, a), files, p.0, p.1, v.homes[p])
  {
    BlockWrittenStore(st, files, f, k, a);
    hide Core, AddrAt, Supply, Put, Believed, OnPage;
    forall p | p in v.homes ensures Home(BlockWritten(st, f, k, a), files, p.0, p.1, v.homes[p]) {
      HomeStays(st, BlockWritten(st, f, k, a), files, p.0, p.1, v.homes[p]);
    }
  }

  lemma BlockMapped(st: Store, files: set<int>, v: View, f: int, k: int, a: int)
    requires Core(st, files) && Matches(st, files, v) && CanWrite(st, files, f, k) && a != 0
    ensures forall p :: p in v.mapped + {(f, k)} ==> Mapped(BlockWritten(st, f, k, a), files, p.0, p.1)
  {
    var b := BlockWritten(st, f, k, a);
    BlockWrittenStore(st, files, f, k, a);
    hide Core, AddrAt, Supply, Put, Believed, OnPage, Walk;
    forall p | p in v.mapped + {(f, k)} ensures Mapped(b, files, p.0, p.1) {
      assert AddrAt(b.nodes, p.0, p.1) == if p.0 == f && p.1 == k then a else AddrAt(st.nodes, p.0, p.1);
    }
  }

  lemma HomeStays(st: Store, b: Store, files: set<int>, f: int, k: int, home: int)
    requires Home(st, files, f, k, home) && b.book == st.book
    requires SameWalk(st, b, f, Up(k, Depth(k)))
    ensures Home(b, files, f, k, home)
  {
  }

  /** The page of a block with a known home is dirty in memory. */
  predicate Waits(m: Image, f: int, k: int) {
    if f == META_INO then k in m.nats && 0 <= k < META_BLOCKS else (f, k) in m.blocks
  }

  lemma BlockDue(w: Work, f: int, k: int)
    requires Good(w) && (f, k) in w.v.homes && Waits(w.m, f, k)
    ensures Due(w.j, w.m, Data(f, k)) && Core(w.j.st, w.j.files) && 0 <= k < MAX_BLOCKS
    ensures (f, k) in w.v.mapped ==> AddrOf(w.j.io, Data(f, k)) != 0
  {
    hide Safe, Roomy;
    assert Home(w.j.st, w.j.files, f, k, w.v.homes[(f, k)]);
    assert SameAddr(w.j.io, w.j.st, w.j.files, Data(f, k));
    assert (f, k) in w.v.mapped ==> Mapped(w.j.st, w.j.files, (f, k).0, (f, k).1);
  }

  lemma WriteB(w: Work, f: int, k: int) returns (w': Work)
    requires Good(w) && w.room > 0 && (f, k) in w.v.homes && Waits(w.m, f, k)
    ensures Good(w') && Next(w, w') && w'.room == w.room - 1 && w'.v == BlockPut(w.v, f, k)
    ensures w'.m.nats == w.m.nats - (if f == META_INO then {k} else {})
    ensures w'.m.blocks == w.m.blocks - (if f == META_INO then {} else {(f, k)})
    ensures Ran(w.j, w'.j, (f, k) !in w.v.mapped)
  {
    BlockDue(w, f, k);
    GoodParts(w);
    hide *;
    var a, j' := Serve(w.j, w.m, Data(f, k), w.room);
    w' := BlockWork(w, j', f, k, a);
    RanOpens(w.j, j', AddrOf(w.j.io, Data(f, k)) == 0);
  }

  lemma BlockWork(w: Work, j': Joint, f: int, k: int, a: int) returns (w': Work)
    requires Good(w) && w.room > 0 && (f, k) in w.v.homes && a != 0 && a !in w.m.dev && 0 <= k < MAX_BLOCKS
    requires j'.st == Publish(w.j.st, Data(f, k), a) && j'.files == w.j.files
    requires Working(j', PageOut(w.j.st, w.m, Data(f, k), a), w.room - 1)
    ensures w'.j == j' && Good(w') && Next(w, w') && w'.room == w.room - 1 && w'.v == BlockPut(w.v, f, k)
    ensures w'.m.nats == w.m.nats - (if f == META_INO then {k} else {})
    ensures w'.m.blocks == w.m.blocks - (if f == META_INO then {} else {(f, k)})
  {
    hide *;
    w' := Work(j', PageOut(w.j.st, w.m, Data(f, k), a), BlockPut(w.v, f, k), w.room - 1);
    BlockPublish(w.j.st, w.m, f, k, a);
    BlockOutIs(w.j.st, w.m, f, k, a);
    WorkCore(w);
    BlockView(w.j.st, w.j.files, w.v, f, k, a);
    WorkingParts(w'.j, w'.m, w'.room);
    Assemble(w');
    KeepsMost(w, w');
  }

  lemma BlockPublish(st: Store, m: Image, f: int, k: int, a: int)
    requires 0 <= k < MAX_BLOCKS
    ensures Publish(st, Data(f, k), a) == BlockWritten(st, f, k, a)
    ensures PageOut(st, m, Data(f, k), a) == BlockOut(st, m, f, k, a)
  {
  }

  lemma KeepsMost(w: Work, w': Work)
    requires w'.j.files == w.j.files && w'.m.data == w.m.data && OnlyAppended(w.m.dev, w'.m.dev)
    ensures Next(w, w')
  {
  }

  lemma WorkCore(w: Work)
    requires Good(w)
    ensures Core(w.j.st, w.j.files) && Matches(w.j.st, w.j.files, w.v)
  {
    OkCore(w.j);
  }

  lemma BlockOutIs(st: Store, m: Image, f: int, k: int, a: int)
    requires a !in m.dev && 0 <= k < MAX_BLOCKS
    ensures var m' := BlockOut(st, m, f, k, a);
            && m'.data == m.data && OnlyAppended(m.dev, m'.dev)
            && m'.nats == m.nats - (if f == META_INO then {k} else {})
            && m'.blocks == m.blocks - (if f == META_INO then {} else {(f, k)})
  {
  }

  // ----- An entry is flushed -----

  function EntryOut(v: View, n: int): View {
    v.(shown := v.shown[n := Get(v.bel, n)], todo := v.todo - {n})
  }

  lemma FlushView(st: Store, files: set<int>, v: View, n: int)
    requires Core(st, files) && Matches(st, files, v) && n in v.todo && n / NAT_ENTRY_PER_BLOCK in st.ready
    ensures 0 < n && n in st.book.used && Matches(Flushed(st, n), files, EntryOut(v, n))
  {
    var b := Flushed(st, n);
    FlushedStore(st, files, n);
    hide Core, AddrAt, Stale, Supply, Walk;
    forall p | p in v.homes ensures Home(b, files, p.0, p.1, v.homes[p]) {
    }
    forall p | p in v.mapped ensures Mapped(b, files, p.0, p.1) {
    }
    forall i | 0 <= i ensures OnPage(b.pages, i).addr == Get(EntryOut(v, n).shown, i) {
      SameEntry(i, n);
      assert st.book.used[n].addr == Believed(st, n) == Get(v.bel, n);
      hide Believed;
    }
    hide OnPage, Home, Mapped, Believed;
  }

  lemma FlushE(w: Work, n: int) returns (w': Work)
    requires Good(w) && n in w.v.todo && n / NAT_ENTRY_PER_BLOCK in w.v.ready
    ensures Good(w') && Next(w, w') && w'.room == w.room && w'.v == EntryOut(w.v, n)
    ensures w'.m.nats == w.m.nats + {n / NAT_ENTRY_PER_BLOCK} && w'.m.blocks == w.m.blocks
    ensures Ran(w.j, w'.j, false)
  {
    OkCore(w.j);
    FlushView(w.j.st, w.j.files, w.v, n);
    TrackedFlush(w.j.st, w.m, w.j.files, n);
    assert Can(w.j, Flush(n));
    w' := Work(FlushedJoint(w.j, n), w.m.(nats := w.m.nats + {n / NAT_ENTRY_PER_BLOCK}), EntryOut(w.v, n), w.room);
    hide Core, Matches, Tracked, Ok, Can, Flushed, Roomy;
    StepOk(w.j, Flush(n));
    RanOne(w.j, Flush(n));
  }

  ghost function FlushedJoint(j: Joint, n: int): (r: Joint)
    requires Can(j, Flush(n))
    ensures r == Then(j, Flush(n))
  {
    j.(st := Flushed(j.st, n))
  }

  // ----- The end of a pass -----

  /** With nothing dirty, the log overlaid on what the table shows is what is believed. */
  lemma PassEnds(w: Work, log: seq<LogEntry>)
    requires Good(w) && w.v.dirty == {} && w.m.nats == {} && w.m.blocks == {} && META_INO in LogMap(log)
    requires forall n :: 0 <= n ==> (if n in LogMap(log) then LogMap(log)[n] else Get(w.v.shown, n)) == Get(w.v.bel, n)
    ensures Synced(w.j.st, w.m.dev, LogMap(log), w.m.data, w.j.files)
  {
    var st := w.j.st;
    OkCore(w.j);
    hide LogMap, Ok, Core, Roomy;
    forall n | 0 <= n ensures NodeSynced(st, w.m.dev, LogMap(log), n) {
      assert NodeTracked(st, w.m.dev, n);
      assert Believed(st, n) == Get(w.v.bel, n) && OnPage(st.pages, n).addr == Get(w.v.shown, n);
      hide Believed, OnPage;
    }
    forall b | 0 <= b < META_BLOCKS ensures PageSynced(st, w.m.dev, b) {
      assert PageTracked(st, w.m, b);
    }
    forall f, k | f in w.j.files && f != META_INO && 0 <= k < MAX_BLOCKS
      ensures BlockSynced(st, w.m.dev, w.m.data, f, k)
    {
      assert BlockTracked(st, w.m, f, k);
    }
  }

  /** When every nid in use has an address, so has every node that is reached. */
  lemma AllHeld(w: Work)
    requires Good(w) && forall n :: n in w.v.used || Get(w.v.shown, n) != 0 ==> Get(w.v.bel, n) != 0
    ensures forall f, q {:trigger ReachedHeld(w.j.st, f, q)} :: f in w.j.files && IsPrefix(q) ==>
              ReachedHeld(w.j.st, f, q)
  {
    WorkCore(w);
    hide Good;
    forall f, q | f in w.j.files && IsPrefix(q) ensures ReachedHeld(w.j.st, f, q) {
      assert Anchored(w.j.st, f, q);
      var n := Walk(w.j.st.nodes, f, q);
      hide Walk, AddrAt;
      if n != 0 {
        assert Believed(w.j.st, n) == Get(w.v.bel, n) && OnPage(w.j.st.pages, n).addr == Get(w.v.shown, n);
      }
    }
  }
}
