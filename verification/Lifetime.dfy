/** From one mount to the next: what a crash leaves is a state the whole machine can start from again. */
module Lifetime {
  import opened Layout
  import opened BlockPath
  import opened NodeTree
  import opened NatCache
  import opened NatStore
  import opened Recovery
  import opened Writeback
  import opened Checkpoint
  import opened Mount
  import opened WritePipeline
  import opened Coupling
  import Joint
  import ZoneTable

  /** Two address maps that publish the same addresses. */
  ghost predicate SamePublished(a: map<Page, int>, b: map<Page, int>) {
    forall p {:trigger Published(a, p)} {:trigger Published(b, p)} :: Published(a, p) == Published(b, p)
  }

  function Published(a: map<Page, int>, p: Page): int {
    if p in a then a[p] else 0
  }

  lemma MountOkSame(t: ZoneTable.Table, a: map<Page, int>, b: map<Page, int>, dev: Disk)
    requires MountOk(t, a, dev) && SamePublished(a, b)
    ensures MountOk(t, b, dev)
  {
    hide TableOk, ZoneTable.ZoneOf, ZoneTable.BitOf, Settled;
    forall p | p in b && b[p] != 0 ensures p in a && a[p] == b[p] {
      assert Published(b, p) == Published(a, p);
    }
    forall x | Marked(t, x) ensures x != 0 && exists p :: p in b && b[p] == x {
      var p :| p in a && a[p] == x;
      assert Published(b, p) == Published(a, p);
    }
  }

  /** The clean zone arrays of a next mount: same geometry, no zone reported empty that holds a block. */
  ghost predicate CleanTable(t: ZoneTable.Table, before: ZoneTable.Table, dev: Disk) {
    && TableOk(t)
    && t.zoneSize == before.zoneSize && t.capacity == before.capacity && |t.zones| == |before.zones|
    && (forall z :: 0 < z < |t.zones| ==> t.zones[z].valid == {} && t.zones[z].vblocks == 0)
    && (forall a :: a in dev && ZoneTable.InTable(t, a) ==>
          t.zones[ZoneTable.ZoneOf(t.zoneSize, a)].cond != ZoneTable.Empty)
  }

  // ----- A next mount always finds such arrays -----

  ghost predicate InUseZone<B>(s: Io<B>, a: int) {
    a in s.dev && ZoneTable.InTable(s.t, a) ==> s.t.zones[ZoneTable.ZoneOf(s.t.zoneSize, a)].cond != ZoneTable.Empty
  }

  /** Every block on the drive lies in a zone that is not empty. */
  ghost predicate DevSettled<B>(s: Io<B>) {
    forall a {:trigger InUseZone(s, a)} :: InUseZone(s, a)
  }

  lemma FrameUsed<B>(s: Io<B>, s': Io<B>, a: int, b: int)
    requires Releases(s, s', a) && InUseZone(s, b)
    ensures InUseZone(s', b)
  {
    hide ZoneTable.ZoneOf;
    FrameShape(s.t, s'.t, a);
    if ZoneTable.InTable(s.t, b) {
      assert FrameAt(s.t, s'.t, a, ZoneTable.ZoneOf(s.t.zoneSize, b));
    }
  }

  lemma StepSettled<B>(s: Io<B>, step: Step<B>)
    requires Safe(s) && CanStep(s, step) && DevSettled(s)
    ensures DevSettled(After(s, step))
  {
    var s' := After(s, step);
    forall b ensures InUseZone(s', b) {
      assert InUseZone(s, b);
      StepKeepsUse(s, step, b);
    }
  }

  lemma StepKeepsUse<B>(s: Io<B>, step: Step<B>, b: int)
    requires Safe(s) && CanStep(s, step) && InUseZone(s, b)
    ensures InUseZone(After(s, step), b)
  {
    var s' := After(s, step);
    hide ZoneTable.ZoneOf, ZoneTable.BitOf, ZoneTable.Invalidate, Releases, InUseZone, Submit;
    match step
    case DoSubmit(p, dev) =>
      SubmitReleases(s, p, dev);
      FrameUsed(s, s', AddrOf(s, p), b);
    case DoLand(p, a, content) => LandInUse(s, p, a, content, b);
    case DoComplete(p) => ValidateInUse(s, p, b);
    case DoTruncate(p) =>
      TruncateReleases(s, p);
      FrameUsed(s, s', AddrOf(s, p), b);
    case DoDrop(p) => DropInUse(s, p, b);
  }

  lemma LandInUse<B>(s: Io<B>, p: Page, a: int, content: B, b: int)
    requires Safe(s) && CanLand(s, p, a) && InUseZone(s, b)
    ensures InUseZone(Land(s, p, a, content), b)
  {
    assert OwnerOk(s, p);
    hide ZoneTable.ZoneOf, TableOk;
  }

  lemma ValidateInUse<B>(s: Io<B>, p: Page, b: int)
    requires CanComplete(s, p) && InUseZone(s, b)
    ensures InUseZone(Complete(s, p), b)
  {
    hide ZoneTable.ZoneOf, ZoneTable.BitOf, ZoneTable.Overwrite;
    ValidateShape(s.t, s.flights[p].addr);
  }

  lemma DropInUse<B>(s: Io<B>, p: Page, b: int)
    requires InUseZone(s, b)
    ensures InUseZone(WritePipeline.Drop(s, p), b)
  {
  }

  lemma {:induction false} RunSettled<B(!new)>(s: Io<B>, steps: seq<Step<B>>)
    requires Safe(s) && CanRun(s, steps) && DevSettled(s)
    ensures DevSettled(RunFrom(s, steps))
    decreases |steps|
  {
    hide Safe, CanStep, DevSettled;
    if steps != [] {
      StepSettled(s, steps[0]);
      StepSafe(s, steps[0]);
      RunSettled(After(s, steps[0]), steps[1..]);
    }
  }

  /** The same zones with clean bitmaps. */
  function Cleared(t: ZoneTable.Table): ZoneTable.Table {
    t.(zones := seq(|t.zones|, z requires 0 <= z < |t.zones| => t.zones[z].(valid := {}, vblocks := 0)))
  }

  lemma ClearedOk(t: ZoneTable.Table)
    requires TableOk(t)
    ensures TableOk(Cleared(t))
  {
    var u := Cleared(t);
    assert forall z :: 0 <= z < |t.zones| ==> u.zones[z] == t.zones[z].(valid := {}, vblocks := 0);
    forall z | 0 <= z < |u.zones| ensures ZoneTable.InSlots(u, z) {
      assert ZoneTable.InSlots(t, z);
    }
  }

  /** After any run from a drive whose blocks lie in zones in use, the next mount's arrays are clean. */
  lemma ClearedIsClean(j: Joint.Joint)
    requires Joint.Ok(j) && DevSettled(j.io)
    ensures CleanTable(Cleared(j.io.t), j.io.t, j.io.dev)
  {
    Joint.OkCoupled(j);
    assert TableOk(j.io.t);
    hide Safe, Joint.Ok, Coupled;
    ClearedOk(j.io.t);
    var t, u := j.io.t, Cleared(j.io.t);
    hide TableOk, ZoneTable.ZoneOf;
    forall a | a in j.io.dev && ZoneTable.InTable(u, a)
      ensures u.zones[ZoneTable.ZoneOf(u.zoneSize, a)].cond != ZoneTable.Empty
    {
      assert InUseZone(j.io, a);
    }
  }

  lemma DiskAddr(j: Joint.Joint, dev: Disk, log: seq<LogEntry>, data: FileData, p: Page)
    requires Joint.Ok(j) && Checkpointed(j.st, dev, log, data, j.files)
    ensures Published(Joint.MountAddrs(FromDisk(dev, log), j.files, NIDS), p) == Published(j.io.addr, p)
  {
    var r := FromDisk(dev, log);
    Joint.OkCoupled(j);
    assert SameAddr(j.io, j.st, j.files, p);
    hide Joint.Ok, Safe, Coupled, FromDisk, AddrAt, Checkpointed, Believed;
    match p
    case Node(n) =>
      if 0 <= n < NIDS {
        RemountSame(j.st, dev, log, data, j.files, n);
      } else if NIDS <= n {
        HighHasNoAddr(j.st, dev, log, data, j.files, n);
      }
    case Data(f, k) =>
      if f in j.files && 0 <= k < MAX_BLOCKS {
        RemountKeepsTree(j.st, dev, log, data, j.files, f);
        SameAt(r.nodes, j.st.nodes, f, k);
      }
  }

  lemma SameAt(a: Nodes, b: Nodes, f: int, k: int)
    requires 0 <= k < MAX_BLOCKS
    ensures Addr(a, f, Path(k)) == Addr(b, f, Path(k)) ==> AddrAt(a, f, k) == AddrAt(b, f, k)
  {
  }

  lemma HighHasNoAddr(st: Store, dev: Disk, log: seq<LogEntry>, data: FileData, files: set<int>, n: int)
    requires Checkpointed(st, dev, log, data, files) && NIDS <= n
    ensures Believed(st, n) == 0
  {
    SyncedCore(st, dev, LogMap(log), data, files);
    hide Synced, LogMap;
  }

  lemma FromDiskEnds(dev: Disk, log: seq<LogEntry>, n: int)
    requires NIDS <= n && (forall e :: e in log ==> e.nid == 0 || IsNid(e.nid))
    ensures Believed(FromDisk(dev, log), n) == 0
  {
    MountedIs(log, n);
    if n in LogMap(log) {
      LoggedEntry(log, n);
    }
    hide Mounted, LogMap, NodeOnDisk, NatPageOnDisk, CachedAddrs;
    assert n / NAT_ENTRY_PER_BLOCK !in FromDisk(dev, log).pages;
  }

  /**
   * A checkpoint, any run after it, a crash, and a mount with clean arrays: if every node that was reached had
   * been written, the table, the trees and the pipeline start together again, with exact accounting, and what
   * is read back is the checkpoint.
   */
  lemma NextMountOk(j: Joint.Joint, es: seq<Joint.Event>, log: seq<LogEntry>, data: FileData, t: ZoneTable.Table)
    requires Joint.Ok(j) && Joint.CanAll(j, es)
    requires Checkpointed(j.st, j.io.dev, log, data, j.files)
    requires forall f, q {:trigger ReachedHeld(j.st, f, q)} :: f in j.files && IsPrefix(q) ==> ReachedHeld(j.st, f, q)
    requires CleanTable(t, j.io.t, Joint.ThenAll(j, es).io.dev)
    ensures var dev := Joint.ThenAll(j, es).io.dev;
            && t.zoneSize >= ZoneTable.SECTORS_PER_BLOCK
            && Joint.Ok(Joint.Mounted(t, FromDisk(dev, log), j.files, NIDS, dev))
            && Exact(Joint.Mounted(t, FromDisk(dev, log), j.files, NIDS, dev).io)
            && forall f, k {:trigger BlockOnDisk(dev, LogMap(log), f, k)} ::
                 f in j.files && f != META_INO && 0 <= k < MAX_BLOCKS
                 ==> META_INO in LogMap(log) && BlockOnDisk(dev, LogMap(log), f, k) == Some(InMemory(data, f, k))
  {
    hide Joint.Ok, Joint.CanAll, Joint.ThenAll, FromDisk, Core, LogMap, Safe, MountOk, BlockOnDisk, Synced;
    hide CanRun, RunFrom;
    var dev := Joint.ThenAll(j, es).io.dev;
    var r := FromDisk(dev, log);
    Joint.RunProjects(j, es);
    RunAppendsOnly(j.io, Joint.IoSteps(es));
    CheckpointedGrows(j.st, j.io.dev, dev, log, data, j.files);
    RemountCoreIff(j.st, dev, log, data, j.files);
    Joint.OkCoupled(j);
    MountAgain(j.io, t, dev);
    forall p ensures Published(Joint.MountAddrs(r, j.files, NIDS), p) == Published(j.io.addr, p) {
      DiskAddr(j, dev, log, data, p);
    }
    MountOkSame(t, j.io.addr, Joint.MountAddrs(r, j.files, NIDS), dev);
    forall n | NIDS <= n ensures Believed(r, n) == 0 {
      FromDiskEnds(dev, log, n);
    }
    Joint.MountedOk(t, r, j.files, NIDS, dev);
    SyncedCore(j.st, dev, LogMap(log), data, j.files);
    forall f, k | f in j.files && f != META_INO && 0 <= k < MAX_BLOCKS
      ensures META_INO in LogMap(log) && BlockOnDisk(dev, LogMap(log), f, k) == Some(InMemory(data, f, k))
    {
      DiskHoldsTree(j.st, dev, LogMap(log), data, j.files, f, k);
    }
  }

  lemma RemountNodeSynced(st: Store, dev: Disk, log: seq<LogEntry>, data: FileData, files: set<int>, n: int)
    requires Checkpointed(st, dev, log, data, files) && 0 <= n
    ensures NodeSynced(FromDisk(dev, log), dev, LogMap(log), n)
  {
    assert NodeSynced(st, dev, LogMap(log), n);
    if n < NIDS {
      RemountSame(st, dev, log, data, files, n);
      hide FromDisk, Checkpointed, Believed, LogMap;
    } else {
      HighHasNoAddr(st, dev, log, data, files, n);
      FromDiskEnds(dev, log, n);
      if n in LogMap(log) {
        LoggedEntry(log, n);
      }
      hide Mounted, LogMap, NodeOnDisk, NatPageOnDisk, CachedAddrs, Synced;
      assert n !in FromDisk(dev, log).nodes && n / NAT_ENTRY_PER_BLOCK !in FromDisk(dev, log).pages;
    }
  }

  /** What a mount reads back is itself a state its superblock describes, as long as every reached node was written. */
  lemma RemountCheckpointed(st: Store, dev: Disk, log: seq<LogEntry>, data: FileData, files: set<int>)
    requires Checkpointed(st, dev, log, data, files)
    requires forall f, q {:trigger ReachedHeld(st, f, q)} :: f in files && IsPrefix(q) ==> ReachedHeld(st, f, q)
    ensures Checkpointed(FromDisk(dev, log), dev, log, data, files)
    ensures forall f, q {:trigger ReachedHeld(FromDisk(dev, log), f, q)} :: f in files && IsPrefix(q) ==>
              ReachedHeld(FromDisk(dev, log), f, q)
  {
    var r := FromDisk(dev, log);
    RemountCoreIff(st, dev, log, data, files);
    forall n | 0 <= n ensures NodeSynced(r, dev, LogMap(log), n) {
      RemountNodeSynced(st, dev, log, data, files, n);
    }
    SyncedCore(st, dev, LogMap(log), data, files);
    hide FromDisk, Core, LogMap, NodeSynced;
    RemountKeepsTree(st, dev, log, data, files, META_INO);
    forall b | 0 <= b < META_BLOCKS ensures PageSynced(r, dev, b) {
      PageSame(st, dev, log, data, files, b);
      assert PageSynced(st, dev, b);
      SameAt(r.nodes, st.nodes, META_INO, b);
    }
    forall f, k | f in files && f != META_INO && 0 <= k < MAX_BLOCKS ensures BlockSynced(r, dev, data, f, k) {
      RemountKeepsTree(st, dev, log, data, files, f);
      assert BlockSynced(st, dev, data, f, k);
      SameAt(r.nodes, st.nodes, f, k);
    }
    forall f, q | f in files && IsPrefix(q) ensures ReachedHeld(r, f, q) {
      RemountHeld(st, dev, log, data, files, f, q);
    }
    SyncedCheckpointed(st, dev, r, dev, log, data, files);
  }

  lemma RemountHeld(st: Store, dev: Disk, log: seq<LogEntry>, data: FileData, files: set<int>, f: int, q: seq<int>)
    requires Checkpointed(st, dev, log, data, files) && f in files && IsPrefix(q) && ReachedHeld(st, f, q)
    ensures ReachedHeld(FromDisk(dev, log), f, q)
  {
    SyncedCore(st, dev, LogMap(log), data, files);
    hide FromDisk, LogMap, Checkpointed;
    RemountKeepsTree(st, dev, log, data, files, f);
    var w := Walk(st.nodes, f, q);
    if w != 0 {
      ReachedIsNid(st, files, f, q);
      RemountSame(st, dev, log, data, files, w);
    }
  }

  /** One mount that crashes: what it does, and the clean arrays the next one finds. */
  datatype Life = Life(es: seq<Joint.Event>, t: ZoneTable.Table)

  ghost predicate CanCrash(j: Joint.Joint, life: Life) {
    Joint.CanAll(j, life.es) && CleanTable(life.t, j.io.t, Joint.ThenAll(j, life.es).io.dev)
  }

  /** The next mount reads everything back from the drive, through the log of the last checkpoint. */
  ghost function Crashed(j: Joint.Joint, log: seq<LogEntry>, life: Life): Joint.Joint
    requires CanCrash(j, life)
  {
    var dev := Joint.ThenAll(j, life.es).io.dev;
    Joint.Mounted(life.t, FromDisk(dev, log), j.files, NIDS, dev)
  }

  ghost predicate CanLive(j: Joint.Joint, log: seq<LogEntry>, lives: seq<Life>)
    decreases |lives|
  {
    lives == [] || (CanCrash(j, lives[0]) && CanLive(Crashed(j, log, lives[0]), log, lives[1..]))
  }

  ghost function Lived(j: Joint.Joint, log: seq<LogEntry>, lives: seq<Life>): Joint.Joint
    requires CanLive(j, log, lives)
    decreases |lives|
  {
    if lives == [] then j else Lived(Crashed(j, log, lives[0]), log, lives[1..])
  }

  /** The machine is right, its drive holds the checkpoint, and every reached node was written. */
  ghost predicate Recoverable(j: Joint.Joint, log: seq<LogEntry>, data: FileData) {
    && Joint.Ok(j) && Checkpointed(j.st, j.io.dev, log, data, j.files)
    && forall f, q {:trigger ReachedHeld(j.st, f, q)} :: f in j.files && IsPrefix(q) ==> ReachedHeld(j.st, f, q)
  }

  lemma CrashedRecoverable(j: Joint.Joint, log: seq<LogEntry>, data: FileData, life: Life)
    requires Recoverable(j, log, data) && CanCrash(j, life)
    ensures Recoverable(Crashed(j, log, life), log, data) && Exact(Crashed(j, log, life).io)
  {
    hide Joint.Ok, Joint.CanAll, Joint.ThenAll, FromDisk, Checkpointed, BlockOnDisk, LogMap, CleanTable, ReachedHeld;
    var dev := Joint.ThenAll(j, life.es).io.dev;
    NextMountOk(j, life.es, log, data, life.t);
    Joint.RunProjects(j, life.es);
    RunAppendsOnly(j.io, Joint.IoSteps(life.es));
    CheckpointedGrows(j.st, j.io.dev, dev, log, data, j.files);
    RemountCheckpointed(j.st, dev, log, data, j.files);
  }

  /**
   * Mount after mount may run and crash anywhere.  Each next one, with clean arrays, starts right again, with
   * exact accounting, and every block still reads as at the checkpoint.
   */
  lemma {:induction false} CrashesKeepCheckpoint(j: Joint.Joint, log: seq<LogEntry>, data: FileData, lives: seq<Life>)
    requires Recoverable(j, log, data) && CanLive(j, log, lives)
    ensures Recoverable(Lived(j, log, lives), log, data) && Lived(j, log, lives).files == j.files
    ensures lives != [] ==> Exact(Lived(j, log, lives).io)
    ensures ReadsAs(Lived(j, log, lives).io.dev, LogMap(log), data, j.files)
    decreases |lives|
  {
    hide Recoverable, CanCrash, Exact, ReadsAs, LogMap;
    if lives == [] {
      ReadsBack(j, log, data);
    } else {
      CrashedRecoverable(j, log, data, lives[0]);
      CrashesKeepCheckpoint(Crashed(j, log, lives[0]), log, data, lives[1..]);
    }
  }

  /** Through the log every block of every file reads as `data` has it. */
  ghost predicate ReadsAs(dev: Disk, log: map<int, int>, data: FileData, files: set<int>) {
    META_INO in log && forall f, k {:trigger BlockOnDisk(dev, log, f, k)} ::
      f in files && f != META_INO && 0 <= k < MAX_BLOCKS ==> BlockOnDisk(dev, log, f, k) == Some(InMemory(data, f, k))
  }

  /** What was checkpointed reads back through its log from any later drive. */
  lemma CheckpointReads(st: Store, dev: Disk, dev': Disk, log: seq<LogEntry>, data: FileData, files: set<int>)
    requires Checkpointed(st, dev, log, data, files) && OnlyAppended(dev, dev')
    ensures ReadsAs(dev', LogMap(log), data, files)
  {
    hide OnlyAppended, BlockOnDisk, LogMap, Core;
    CheckpointedGrows(st, dev, dev', log, data, files);
    forall f, k | f in files && f != META_INO && 0 <= k < MAX_BLOCKS
      ensures BlockOnDisk(dev', LogMap(log), f, k) == Some(InMemory(data, f, k))
    {
      DiskHoldsTree(st, dev', LogMap(log), data, files, f, k);
    }
  }

  lemma ReadsBack(j: Joint.Joint, log: seq<LogEntry>, data: FileData)
    requires Recoverable(j, log, data)
    ensures ReadsAs(j.io.dev, LogMap(log), data, j.files)
  {
    hide Joint.Ok, Checkpointed, ReadsAs;
    CheckpointReads(j.st, j.io.dev, j.io.dev, log, data, j.files);
  }

  // ----- The checkpoint of the second mount -----

  /** A nid that the first mount's replay left clean is logged, or was written or flushed before the last pass. */
  ghost predicate Rescued(st: Store, log0: seq<LogEntry>, mid: Store, log: map<int, int>, n: int)
    requires 0 <= n
  {
    LeftClean(st, log0, n) ==> n in log || !Stale(mid, n)
  }

  /**
   * The nids a second mount's checkpoint loses are among those the first mount's replay left clean.  `mid` is
   * memory when its flush begins, `log` what its last pass logs.
   */
  lemma SecondCheckpointIff(st: Store, dev: Disk, log0: seq<LogEntry>, data0: FileData, files0: set<int>,
                            mid: Store, now: Store, m: Image, files: set<int>, log: seq<LogEntry>)
    requires Checkpointed(st, dev, log0, data0, files0) && Succeeds(FromDisk(dev, log0), mid)
    requires Core(now, files) && Tracked(now, m, files) && AllAgree(now, mid, LogMap(log)) && META_INO in LogMap(log)
    requires now.dirty == {} && m.nats == {} && m.blocks == {}
    ensures Synced(now, m.dev, LogMap(log), m.data, files)
       <==> forall n {:trigger Rescued(st, log0, mid, LogMap(log), n)} ::
              0 <= n < NIDS ==> Rescued(st, log0, mid, LogMap(log), n)
  {
    hide Core, Tracked, AllAgree, Synced, LogMap, FromDisk, LeftClean, Succeeds, Stale, Checkpointed;
    SyncedIff(now, mid, m, files, [], log);
    assert [] + log == log;
    NoLog();
    forall n | 0 <= n
      ensures Survives(mid, LogMap([]), LogMap(log), n) <==> (n < NIDS ==> Rescued(st, log0, mid, LogMap(log), n))
    {
      SurvivesIff(st, dev, log0, data0, files0, mid, log, n);
    }
    hide Survives, Rescued;
    if forall n {:trigger Rescued(st, log0, mid, LogMap(log), n)} ::
         0 <= n < NIDS ==> Rescued(st, log0, mid, LogMap(log), n) {
      assert forall n :: 0 <= n ==> Survives(mid, LogMap([]), LogMap(log), n);
    } else {
      var n :| 0 <= n < NIDS && !Rescued(st, log0, mid, LogMap(log), n);
      assert !Survives(mid, LogMap([]), LogMap(log), n);
    }
  }

  lemma NoLog()
    ensures LogMap([]) == map[]
  {
  }

  lemma SurvivesIff(st: Store, dev: Disk, log0: seq<LogEntry>, data0: FileData, files0: set<int>,
                    mid: Store, log: seq<LogEntry>, n: int)
    requires Checkpointed(st, dev, log0, data0, files0) && Succeeds(FromDisk(dev, log0), mid) && 0 <= n
    ensures Survives(mid, map[], LogMap(log), n) <==> (n < NIDS ==> Rescued(st, log0, mid, LogMap(log), n))
  {
    var r := FromDisk(dev, log0);
    if n < NIDS {
      RemountStaleIff(st, dev, log0, data0, files0, n);
    } else {
      FromDiskEnds(dev, log0, n);
      assert n / NAT_ENTRY_PER_BLOCK !in r.pages by {
        hide Mounted, NodeOnDisk, NatPageOnDisk;
      }
    }
    hide FromDisk, LeftClean, Synced, LogMap, UsedGrows;
    assert Stale(mid, n) ==> Stale(r, n);
  }

  /** A nid left clean is lost unless logged, if neither its entry nor its slot of the table changed since the mount. */
  lemma UntouchedIsLost(st: Store, dev: Disk, log0: seq<LogEntry>, data: FileData, files: set<int>, mid: Store,
                        log: map<int, int>, n: int)
    requires Checkpointed(st, dev, log0, data, files) && 0 <= n < NIDS && LeftClean(st, log0, n)
    requires EntryOf(mid.book, n) == EntryOf(FromDisk(dev, log0).book, n)
    requires n in mid.book.used <==> n in FromDisk(dev, log0).book.used
    requires OnPage(mid.pages, n) == OnPage(FromDisk(dev, log0).pages, n)
    ensures Rescued(st, log0, mid, log, n) <==> n in log
  {
    RemountStaleIff(st, dev, log0, data, files, n);
    hide FromDisk, LeftClean, Checkpointed, OnPage;
  }
}
