/** The steps a checkpoint is made of, on memory and drive: each of them, and any number in sequence. */
module Steps {
  import opened Layout
  import opened BlockPath
  import opened NodeTree
  import opened NatCache
  import opened NatStore
  import opened Recovery
  import opened Writeback

  datatype Mem = Mem(st: Store, m: Image)

  /** A lookup or walk, the write of a node page or of a block to address `a`, the flush of an entry. */
  datatype Move = Look(to: Store) | PutNode(n: int, a: int) | PutBlock(f: int, k: int, a: int) | PutEntry(n: int)

  /** A table page to write is reached below inode 1, a file block below its own inode. */
  ghost predicate Pending(m: Image, f: int, k: int) {
    if f == META_INO then k in m.nats else (f, k) in m.blocks
  }

  ghost predicate CanTake(x: Mem, files: set<int>, v: Move) {
    match v
    case Look(to) => Grows(x.st, to, files) && Core(to, files)
    case PutNode(n, a) => n in x.st.dirty && n in x.st.book.used && a != 0 && a !in x.m.dev
    case PutBlock(f, k, a) =>
      && Pending(x.m, f, k) && CanWrite(x.st, files, f, k) && (f == META_INO ==> k < META_BLOCKS)
      && a != 0 && a !in x.m.dev
    case PutEntry(n) =>
      n in x.st.book.used && x.st.book.used[n].dirty && 0 <= n && n / NAT_ENTRY_PER_BLOCK in x.st.ready
  }

  ghost function Taken(x: Mem, files: set<int>, v: Move): Mem
    requires CanTake(x, files, v)
  {
    match v
    case Look(to) => x.(st := to)
    case PutNode(n, a) => Mem(NodeWritten(x.st, n, a), x.m.(dev := x.m.dev[a := NodeBlk(PageOf(x.st.nodes, n))]))
    case PutBlock(f, k, a) => Mem(BlockWritten(x.st, f, k, a), BlockOut(x.st, x.m, f, k, a))
    case PutEntry(n) => Mem(Flushed(x.st, n), x.m.(nats := x.m.nats + {n / NAT_ENTRY_PER_BLOCK}))
  }

  ghost predicate CanTakeAll(x: Mem, files: set<int>, vs: seq<Move>)
    decreases |vs|
  {
    vs == [] || (CanTake(x, files, vs[0]) && CanTakeAll(Taken(x, files, vs[0]), files, vs[1..]))
  }

  ghost function TakenAll(x: Mem, files: set<int>, vs: seq<Move>): Mem
    requires CanTakeAll(x, files, vs)
    decreases |vs|
  {
    if vs == [] then x else TakenAll(Taken(x, files, vs[0]), files, vs[1..])
  }

  /** `y` comes out of `x` by such steps. */
  ghost predicate Reaches(x: Mem, y: Mem, files: set<int>) {
    exists vs {:trigger CanTakeAll(x, files, vs)} :: CanTakeAll(x, files, vs) && TakenAll(x, files, vs) == y
  }

  lemma {:induction false} StepsJoin(x: Mem, files: set<int>, vs: seq<Move>, us: seq<Move>)
    requires CanTakeAll(x, files, vs) && CanTakeAll(TakenAll(x, files, vs), files, us)
    ensures CanTakeAll(x, files, vs + us) && TakenAll(x, files, vs + us) == TakenAll(TakenAll(x, files, vs), files, us)
    decreases |vs|
  {
    if vs == [] {
      assert vs + us == us;
    } else {
      assert (vs + us)[0] == vs[0] && (vs + us)[1..] == vs[1..] + us;
      hide CanTake, Taken;
      StepsJoin(Taken(x, files, vs[0]), files, vs[1..], us);
    }
  }

  lemma ReachesTrans(x: Mem, y: Mem, z: Mem, files: set<int>)
    requires Reaches(x, y, files) && Reaches(y, z, files)
    ensures Reaches(x, z, files)
  {
    var vs :| CanTakeAll(x, files, vs) && TakenAll(x, files, vs) == y;
    var us :| CanTakeAll(y, files, us) && TakenAll(y, files, us) == z;
    StepsJoin(x, files, vs, us);
    assert CanTakeAll(x, files, vs + us);
  }

  lemma ReachesItself(x: Mem, files: set<int>)
    ensures Reaches(x, x, files)
  {
    assert CanTakeAll(x, files, []);
  }

  lemma ReachesOne(x: Mem, files: set<int>, v: Move)
    requires CanTake(x, files, v)
    ensures Reaches(x, Taken(x, files, v), files)
  {
    var vs := [v];
    var y := Taken(x, files, v);
    assert vs[1..] == [];
    assert CanTakeAll(y, files, []) && TakenAll(y, files, []) == y;
    hide CanTake, Taken;
    assert CanTakeAll(x, files, vs) && TakenAll(x, files, vs) == TakenAll(y, files, vs[1..]);
  }
}
