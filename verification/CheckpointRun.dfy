/**
 * A checkpoint as a run of the whole machine: its steps, as long as the pipeline can serve each write where the
 * drive put it.
 */
module CheckpointRun {
  import opened Layout
  import opened BlockPath
  import opened NodeTree
  import opened NatCache
  import opened NatStore
  import opened Recovery
  import opened Writeback
  import opened WritePipeline
  import opened Serving
  import opened Joint
  import opened Serial
  import opened Steps
  import Checkpoint
  import Mount

  /** The machine is idle, and its table, trees and drive are those of `x`. */
  ghost predicate Idle(j: Joint, x: Mem) {
    j.st == x.st && j.io.dev == x.m.dev && j.io.flights == map[]
  }

  predicate IsWrite(v: Move) {
    v.PutNode? || v.PutBlock?
  }

  function PageIn(v: Move): Page
    requires IsWrite(v)
  {
    match v
    case PutNode(n, a) => Node(n)
    case PutBlock(f, k, a) => Data(f, k)
  }

  function MoveEvents(j: Joint, x: Mem, v: Move, dev: nat -> bool): seq<Event> {
    match v
    case Look(to) => [Walks(to)] + []
    case PutEntry(n) => [Flush(n)] + []
    case _ => WriteEvents(j, x.m, PageIn(v), dev, v.a)
  }

  /** The pipeline takes the write, and the drive's choice of an address is one it could make there. */
  ghost predicate ServesOne(j: Joint, v: Move, dev: nat -> bool) {
    IsWrite(v) ==> CanSubmit(j.io, PageIn(v), dev) && CanLand(Submit(j.io, PageIn(v), dev), PageIn(v), v.a)
  }

  lemma WriteMove(j: Joint, x: Mem, v: Move, dev: nat -> bool)
    requires Ok(j) && Idle(j, x) && CanTake(x, j.files, v) && ServesOne(j, v, dev) && IsWrite(v)
    ensures CanAll(j, MoveEvents(j, x, v, dev))
    ensures var j' := ThenAll(j, MoveEvents(j, x, v, dev)); Idle(j', Taken(x, j.files, v)) && j'.files == j.files
  {
    var p := PageIn(v);
    assert Due(j, x.m, p);
    WriteRuns(j, x.m, p, dev, v.a);
    ServedIs(j.io, p, dev, v.a, ContentOf(j.st, x.m, p));
    hide Ok, CanSubmit, CanLand, Submit, Served, CanAll, ThenAll, CanWrite;
  }

  lemma QuietMove(j: Joint, x: Mem, v: Move, dev: nat -> bool)
    requires Ok(j) && Idle(j, x) && CanTake(x, j.files, v) && !IsWrite(v)
    ensures CanAll(j, MoveEvents(j, x, v, dev))
    ensures var j' := ThenAll(j, MoveEvents(j, x, v, dev)); Idle(j', Taken(x, j.files, v)) && j'.files == j.files
  {
    var e: Event := if v.Look? then Walks(v.to) else Flush(v.n);
    assert Can(j, e) && Idle(Then(j, e), Taken(x, j.files, v));
    assert CanAll(Then(j, e), []);
    hide Ok, Can, Then, CanTake;
    RunCons(j, e, []);
  }

  lemma MoveRuns(j: Joint, x: Mem, v: Move, dev: nat -> bool)
    requires Ok(j) && Idle(j, x) && CanTake(x, j.files, v) && ServesOne(j, v, dev)
    ensures CanAll(j, MoveEvents(j, x, v, dev))
    ensures var j' := ThenAll(j, MoveEvents(j, x, v, dev));
            Ok(j') && Idle(j', Taken(x, j.files, v)) && j'.files == j.files
  {
    hide Ok, CanTake, Taken, ServesOne, MoveEvents;
    if IsWrite(v) {
      WriteMove(j, x, v, dev);
    } else {
      QuietMove(j, x, v, dev);
    }
    RunOk(j, MoveEvents(j, x, v, dev));
  }

  /** Every write in turn can be served; `devs` are the drive's answers to the zone opens of each. */
  ghost predicate Serves(j: Joint, x: Mem, vs: seq<Move>, devs: seq<nat -> bool>)
    decreases |vs|
  {
    vs == [] || (
      && devs != [] && ServesOne(j, vs[0], devs[0])
      && CanTake(x, j.files, vs[0]) && CanAll(j, MoveEvents(j, x, vs[0], devs[0]))
      && Serves(ThenAll(j, MoveEvents(j, x, vs[0], devs[0])), Taken(x, j.files, vs[0]), vs[1..], devs[1..]))
  }

  lemma {:induction false} MovesRun(j: Joint, x: Mem, vs: seq<Move>, devs: seq<nat -> bool>) returns (es: seq<Event>)
    requires Ok(j) && Idle(j, x) && CanTakeAll(x, j.files, vs) && Serves(j, x, vs, devs)
    ensures CanAll(j, es) && Ok(ThenAll(j, es)) && Idle(ThenAll(j, es), TakenAll(x, j.files, vs))
    ensures ThenAll(j, es).files == j.files
    decreases |vs|
  {
    hide Ok, Idle, CanTake, Taken, ServesOne;
    if vs == [] {
      es := [];
    } else {
      var fs := MoveEvents(j, x, vs[0], devs[0]);
      MoveRuns(j, x, vs[0], devs[0]);
      var j' := ThenAll(j, fs);
      var rest := MovesRun(j', Taken(x, j.files, vs[0]), vs[1..], devs[1..]);
      RunsJoin(j, fs, rest);
      es := fs + rest;
    }
  }

  /** The pipeline can serve a way from `x` to `y`. */
  ghost predicate ServesWay(j: Joint, x: Mem, y: Mem, vs: seq<Move>, devs: seq<nat -> bool>) {
    CanTakeAll(x, j.files, vs) && TakenAll(x, j.files, vs) == y && Serves(j, x, vs, devs)
  }

  /**
   * A checkpoint that ended in memory and drive `y` with a complete log is a run of the machine: whenever the
   * pipeline can serve its writes, there is a run to a state that is right and that the log describes.
   */
  lemma CheckpointIsRun(j: Joint, x: Mem, y: Mem, vs: seq<Move>, devs: seq<nat -> bool>, log: seq<LogEntry>)
      returns (es: seq<Event>)
    requires Ok(j) && Idle(j, x) && ServesWay(j, x, y, vs, devs)
    requires Synced(y.st, y.m.dev, LogMap(log), y.m.data, j.files) && Checkpoint.PassLog(log)
    ensures CanAll(j, es)
    ensures var j' := ThenAll(j, es);
            && Ok(j') && j'.st == y.st && j'.io.dev == y.m.dev && j'.io.flights == map[] && j'.files == j.files
            && Mount.Checkpointed(j'.st, j'.io.dev, log, y.m.data, j'.files)
  {
    hide Ok, CanTakeAll, TakenAll, Serves, CanAll, ThenAll, Synced, LogMap;
    es := MovesRun(j, x, vs, devs);
    Mount.CheckpointMounts(y.st, y.m.dev, log, y.m.data, j.files);
  }
}
