/**
 * Writing back one page at a time as a run of the whole machine, and what it makes of the addresses that are
 * believed, shown by the table and still to be flushed.
 */
module Serial {
  import opened Layout
  import opened BlockPath
  import opened NodeTree
  import opened NatCache
  import opened NatStore
  import opened Recovery
  import opened Writeback
  import opened WritePipeline
  import opened Coupling
  import opened Serving
  import opened Joint
  import ZoneAlloc

  // ----- Runs from one state to another -----

  /** No submission of the run asks for a new zone: the checkpoint is not restarted. */
  ghost predicate NoOpens(j: Joint, es: seq<Event>)
    requires CanAll(j, es)
    decreases |es|
  {
    es == [] || ((es[0].Start? ==> !ZoneAlloc.NeedsZone(j.io.t, AddrOf(j.io, es[0].p)))
                 && NoOpens(Then(j, es[0]), es[1..]))
  }

  /** There is a run from `a` to `b`; unless `opens`, it opens no zone. */
  ghost predicate Ran(a: Joint, b: Joint, opens: bool) {
    exists es {:trigger CanAll(a, es)} :: CanAll(a, es) && ThenAll(a, es) == b && (opens || NoOpens(a, es))
  }

  lemma {:induction false} RunsJoin(a: Joint, es: seq<Event>, fs: seq<Event>)
    requires CanAll(a, es) && CanAll(ThenAll(a, es), fs)
    ensures CanAll(a, es + fs) && ThenAll(a, es + fs) == ThenAll(ThenAll(a, es), fs)
    ensures NoOpens(a, es) && NoOpens(ThenAll(a, es), fs) ==> NoOpens(a, es + fs)
    decreases |es|
  {
    if es == [] {
      assert es + fs == fs;
    } else {
      assert (es + fs)[0] == es[0] && (es + fs)[1..] == es[1..] + fs;
      hide Can, Then;
      RunsJoin(Then(a, es[0]), es[1..], fs);
    }
  }

  lemma RanTrans(a: Joint, b: Joint, c: Joint, opens: bool)
    requires Ran(a, b, opens) && Ran(b, c, opens)
    ensures Ran(a, c, opens)
  {
    var es :| CanAll(a, es) && ThenAll(a, es) == b && (opens || NoOpens(a, es));
    var fs :| CanAll(b, fs) && ThenAll(b, fs) == c && (opens || NoOpens(b, fs));
    RunsJoin(a, es, fs);
    assert CanAll(a, es + fs);
  }

  lemma RanOpens(a: Joint, b: Joint, opens: bool)
    requires Ran(a, b, opens)
    ensures Ran(a, b, true)
  {
    var es :| CanAll(a, es) && ThenAll(a, es) == b && (opens || NoOpens(a, es));
    assert CanAll(a, es);
  }

  lemma RunCons(j: Joint, e: Event, es: seq<Event>)
    requires Can(j, e) && CanAll(Then(j, e), es)
    ensures CanAll(j, [e] + es) && ThenAll(j, [e] + es) == ThenAll(Then(j, e), es)
    ensures NoOpens(j, [e] + es) <==>
              (e.Start? ==> !ZoneAlloc.NeedsZone(j.io.t, AddrOf(j.io, e.p))) && NoOpens(Then(j, e), es)
  {
    assert ([e] + es)[0] == e && ([e] + es)[1..] == es;
    hide Can, Then;
  }

  lemma RanOne(j: Joint, e: Event)
    requires Can(j, e) && !e.Start?
    ensures Ran(j, Then(j, e), false)
  {
    RunCons(j, e, []);
    hide Can, Then;
    assert CanAll(j, [e] + []) && NoOpens(j, [e] + []);
  }

  // ----- One write -----

  /** Nothing is in flight, memory and drive agree on what is clean, and the drive has room for `n` writes. */
  ghost predicate Working(j: Joint, m: Image, n: nat) {
    && Ok(j) && Tracked(j.st, m, j.files) && m.dev == j.io.dev && j.io.flights == map[] && Roomy(j.io, n)
  }

  /** A dirty page whose write has somewhere to publish its address. */
  ghost predicate Due(j: Joint, m: Image, p: Page) {
    match p
    case Node(n) => n in j.st.dirty
    case Data(f, k) =>
      CanWrite(j.st, j.files, f, k) && if f == META_INO then k in m.nats && 0 <= k < META_BLOCKS else (f, k) in m.blocks
  }

  function ContentOf(st: Store, m: Image, p: Page): Block {
    match p
    case Node(n) => NodeBlk(PageOf(st.nodes, n))
    case Data(f, k) => if f == META_INO then NatBlk(Content(st.pages, k)) else DataBlk(InMemory(m.data, f, k))
  }

  function PageOut(st: Store, m: Image, p: Page, a: int): Image {
    match p
    case Node(n) => m.(dev := m.dev[a := ContentOf(st, m, p)])
    case Data(f, k) => BlockOut(st, m, f, k, a)
  }

  lemma DueReady(j: Joint, m: Image, p: Page)
    requires Ok(j) && Due(j, m, p)
    ensures Ready(j.st, j.files, p) && (p.Data? ==> 0 <= p.idx < MAX_BLOCKS)
  {
    hide Safe, Coupled;
  }

  lemma TrackedOut(j: Joint, m: Image, p: Page, a: int)
    requires Core(j.st, j.files) && Tracked(j.st, m, j.files) && Due(j, m, p) && a != 0 && a !in m.dev
    ensures p.Data? ==> 0 <= p.idx < MAX_BLOCKS
    ensures Tracked(Publish(j.st, p, a), PageOut(j.st, m, p, a), j.files)
  {
    match p
    case Node(n) => TrackedNode(j.st, m, j.files, n, a);
    case Data(f, k) => TrackedBlock(j.st, m, j.files, f, k, a);
  }

  function WriteEvents(j: Joint, m: Image, p: Page, dev: nat -> bool, a: int): seq<Event> {
    [Start(p, dev)] + ([Lands(p, a, ContentOf(j.st, m, p))] + ([Ends(p)] + []))
  }

  lemma WriteRuns(j: Joint, m: Image, p: Page, dev: nat -> bool, a: int)
    requires Ok(j) && Due(j, m, p) && CanSubmit(j.io, p, dev) && CanLand(Submit(j.io, p, dev), p, a)
    ensures p.Data? ==> 0 <= p.idx < MAX_BLOCKS
    ensures var es := WriteEvents(j, m, p, dev, a);
            && CanAll(j, es) && ThenAll(j, es)
               == j.(io := Served(j.io, p, dev, a, ContentOf(j.st, m, p)), st := Publish(j.st, p, a))
            && (NoOpens(j, es) <==> !ZoneAlloc.NeedsZone(j.io.t, AddrOf(j.io, p)))
  {
    var content := ContentOf(j.st, m, p);
    DueReady(j, m, p);
    WriteSteps(j, p, dev, a, content);
    var j1 := Then(j, Start(p, dev));
    var j2 := Then(j1, Lands(p, a, content));
    var j3 := Then(j2, Ends(p));
    hide Can, Then, Ok, Due, CanSubmit, CanLand, Submit, Served, Publish, ContentOf;
    assert CanAll(j3, []);
    RunCons(j2, Ends(p), []);
    RunCons(j1, Lands(p, a, content), [Ends(p)] + []);
    RunCons(j, Start(p, dev), [Lands(p, a, content)] + ([Ends(p)] + []));
  }

  lemma WriteSteps(j: Joint, p: Page, dev: nat -> bool, a: int, content: Block)
    requires CanSubmit(j.io, p, dev) && CanLand(Submit(j.io, p, dev), p, a)
    requires Ready(j.st, j.files, p) && (p.Data? ==> 0 <= p.idx < MAX_BLOCKS)
    ensures Can(j, Start(p, dev))
    ensures var j1 := Then(j, Start(p, dev));
            && Can(j1, Lands(p, a, content))
            && var j2 := Then(j1, Lands(p, a, content));
               && Can(j2, Ends(p))
               && Then(j2, Ends(p)) == j.(io := Served(j.io, p, dev, a, content), st := Publish(j.st, p, a))
  {
    var j1 := Then(j, Start(p, dev));
    var j2 := Then(j1, Lands(p, a, content));
    InCapacityInTable(j1.io.t, a);
    hide CanSubmit, Submit, Publish, Ready;
    assert j2.io.flights[p] == Landed(a) && j2.io.t == j1.io.t;
  }

  /** A dirty page can be written; a rewrite opens no zone. */
  lemma Serve(j: Joint, m: Image, p: Page, n: nat) returns (a: int, j': Joint)
    requires Working(j, m, n) && n > 0 && Due(j, m, p)
    ensures p.Data? ==> 0 <= p.idx < MAX_BLOCKS
    ensures a != 0 && a !in m.dev && j'.st == Publish(j.st, p, a) && j'.files == j.files
    ensures Working(j', PageOut(j.st, m, p, a), n - 1)
    ensures Ran(j, j', AddrOf(j.io, p) == 0)
  {
    DueReady(j, m, p);
    OkCoupled(j);
    CanServe(j.io, p, n);
    a := CanLandServed(j.io, p, n);
    NotZero(j.io, p, a);
    RewritesStay(j.io, p, n);
    WriteRuns(j, m, p, Yes(), a);
    ServedRoomy(j.io, p, a, ContentOf(j.st, m, p), n);
    var es := WriteEvents(j, m, p, Yes(), a);
    j' := ThenAll(j, es);
    OkCore(j);
    TrackedOut(j, m, p, a);
    hide Ok, Tracked, Roomy, CanAll, ThenAll, NoOpens, Safe, Due, Coupled, Core, ZoneAlloc.NeedsZone;
    RunOk(j, es);
    ServedIs(j.io, p, Yes(), a, ContentOf(j.st, m, p));
  }

  lemma OkCore(j: Joint)
    requires Ok(j)
    ensures Core(j.st, j.files)
  {
  }

  lemma NotZero(s: Io<Block>, p: Page, a: int)
    requires Safe(s) && CanSubmit(s, p, Yes()) && CanLand(Submit(s, p, Yes()), p, a)
    ensures a != 0 && a !in s.dev
  {
    SubmitSafe(s, p, Yes());
    SubmitDev(s, p);
    LandSafe(Submit(s, p, Yes()), p, a, DataBlk(0));
    var s2 := Land(Submit(s, p, Yes()), p, a, DataBlk(0));
    hide Safe, TableOk, Submit;
    LandedOwn(s2, p);
  }

  lemma LandedOwn(s: Io<Block>, p: Page)
    requires Safe(s) && p in s.flights && s.flights[p].Landed?
    ensures s.flights[p].addr != 0
  {
    assert OwnerOk(s, p);
  }

  lemma ServedIs(s: Io<Block>, p: Page, dev: nat -> bool, a: int, content: Block)
    requires s.flights == map[] && CanSubmit(s, p, dev) && CanLand(Submit(s, p, dev), p, a)
    ensures Served(s, p, dev, a, content).flights == map[] && Served(s, p, dev, a, content).dev == s.dev[a := content]
  {
  }
}
