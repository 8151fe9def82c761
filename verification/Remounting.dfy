/** The next mount of a drive as a state to work on: what was believed and shown carries over, nothing is cached. */
module Remounting {
  import opened Layout
  import opened BlockPath
  import opened NodeTree
  import opened NatCache
  import opened NatStore
  import opened Recovery
  import opened Writeback
  import opened Mount
  import opened WritePipeline
  import opened Coupling
  import opened Serving
  import opened Joint
  import Machine = Joint
  import opened Serial
  import opened Views
  import opened Lifetime
  import ZoneTable

  /** The machine as the next mount finds it, with clean bitmaps. */
  ghost function Reborn(j: Joint, log: seq<LogEntry>): Joint
    requires j.io.t.zoneSize >= ZoneTable.SECTORS_PER_BLOCK
  {
    Machine.Mounted(Cleared(j.io.t), FromDisk(j.io.dev, log), j.files, NIDS, j.io.dev)
  }

  ghost function MountView(v: View, dev: Disk, log: seq<LogEntry>): View {
    View(v.bel, v.shown, FromDisk(dev, log).book.used.Keys, {}, {}, v.mapped, map[], {})
  }

  /** The hypotheses: a checkpoint of a state in which every reached node was written and whose log moves no nid. */
  ghost predicate Settles(w: Work, log: seq<LogEntry>) {
    && Good(w) && Checkpointed(w.j.st, w.j.io.dev, log, w.m.data, w.j.files)
    && DevSettled(w.j.io) && (forall n {:trigger Moved(log, n)} :: !Moved(log, n))
    && w.m.nats == {} && w.m.blocks == {}
    && forall n :: n in w.v.used || Get(w.v.shown, n) != 0 ==> Get(w.v.bel, n) != 0
  }

  lemma MountWork(w: Work, log: seq<LogEntry>) returns (w': Work)
    requires Settles(w, log)
    ensures w.j.io.t.zoneSize >= ZoneTable.SECTORS_PER_BLOCK
    ensures Good(w') && w'.j == Reborn(w.j, log) && w'.room == w.room && w'.m == w.m
    ensures w'.v == MountView(w.v, w.j.io.dev, log)
    ensures CleanTable(Cleared(w.j.io.t), w.j.io.t, w.j.io.dev)
    ensures forall f, q {:trigger Walk(w'.j.st.nodes, f, q)} :: f in w.j.files && IsPrefix(q) ==>
              Walk(w'.j.st.nodes, f, q) == Walk(w.j.st.nodes, f, q)
    ensures DevSettled(w'.j.io)
  {
    var dev := w.j.io.dev;
    var r := FromDisk(dev, log);
    GoodParts(w);
    AllHeld(w);
    ClearedIsClean(w.j);
    ZoneSizeOk(w.j);
    w' := Work(Reborn(w.j, log), w.m, MountView(w.v, dev, log), w.room);
    RebornParts(w.j, log);
    assert w.m == Image(dev, w.m.data, {}, {});
    MountMatches(w, log);
    MountTracked(w, log);
    MountRoomy(w.j, log, w.room);
    MountRuns(w.j, log, w.m.data);
    MountWalks(w.j, log, w.m.data);
    hide *;
    Assemble(w');
  }

  lemma ZoneSizeOk(j: Joint)
    requires Ok(j)
    ensures j.io.t.zoneSize >= ZoneTable.SECTORS_PER_BLOCK
  {
  }

  lemma RebornParts(j: Joint, log: seq<LogEntry>)
    requires j.io.t.zoneSize >= ZoneTable.SECTORS_PER_BLOCK
    ensures var j' := Reborn(j, log);
            && j'.st == FromDisk(j.io.dev, log) && j'.files == j.files && j'.io.dev == j.io.dev
            && j'.io.flights == map[] && j'.io.t == Cleared(j.io.t)
  {
  }

  lemma MountRuns(j: Joint, log: seq<LogEntry>, data: FileData)
    requires Ok(j) && Checkpointed(j.st, j.io.dev, log, data, j.files) && DevSettled(j.io)
    requires j.io.t.zoneSize >= ZoneTable.SECTORS_PER_BLOCK
    requires forall f, q {:trigger ReachedHeld(j.st, f, q)} :: f in j.files && IsPrefix(q) ==> ReachedHeld(j.st, f, q)
    requires CleanTable(Cleared(j.io.t), j.io.t, j.io.dev)
    ensures Ok(Reborn(j, log)) && DevSettled(Reborn(j, log).io)
  {
    assert CanAll(j, []) && ThenAll(j, []) == j;
    var u := Cleared(j.io.t);
    RebornParts(j, log);
    forall a ensures InUseZone(Reborn(j, log).io, a) {
      assert InUseZone(j.io, a);
      SameUseZone(j.io.t, a);
      hide ZoneTable.ZoneOf, Ok, Checkpointed, Reborn, Cleared;
    }
    hide Ok, Checkpointed, FromDisk, CleanTable, ReachedHeld, BlockOnDisk, LogMap, Reborn, Exact;
    NextMountOk(j, [], log, data, u);
    assert Reborn(j, log) == Machine.Mounted(u, FromDisk(j.io.dev, log), j.files, NIDS, j.io.dev) by {
      RebornIs(j, log);
    }
  }

  lemma RebornIs(j: Joint, log: seq<LogEntry>)
    requires j.io.t.zoneSize >= ZoneTable.SECTORS_PER_BLOCK
    ensures Reborn(j, log) == Machine.Mounted(Cleared(j.io.t), FromDisk(j.io.dev, log), j.files, NIDS, j.io.dev)
  {
  }

  lemma SameUseZone(t: ZoneTable.Table, a: int)
    ensures ZoneTable.InTable(Cleared(t), a) <==> ZoneTable.InTable(t, a)
    ensures ZoneTable.InTable(t, a) ==>
              var z := ZoneTable.ZoneOf(t.zoneSize, a);
              Cleared(t).zoneSize == t.zoneSize && Cleared(t).zones[z].cond == t.zones[z].cond
  {
  }

  lemma MountRoomy(j: Joint, log: seq<LogEntry>, n: nat)
    requires j.io.t.zoneSize >= ZoneTable.SECTORS_PER_BLOCK && Roomy(j.io, n)
    ensures Roomy(Reborn(j, log).io, n)
  {
    RebornParts(j, log);
    var t, u := j.io.t, Cleared(j.io.t);
    assert forall z :: 0 <= z < |t.zones| ==> u.zones[z] == t.zones[z].(valid := {}, vblocks := 0);
    hide Reborn;
    assert Spare(u) == Spare(t);
    assert NoneFull(u);
  }

  lemma MountTracked(w: Work, log: seq<LogEntry>)
    requires Good(w) && Checkpointed(w.j.st, w.j.io.dev, log, w.m.data, w.j.files)
    requires w.m == Image(w.j.io.dev, w.m.data, {}, {})
    ensures Tracked(FromDisk(w.j.io.dev, log), w.m, w.j.files)
  {
    GoodParts(w);
    hide Good, Tracked, Checkpointed, FromDisk;
    RemountTracked(w.j.st, w.j.io.dev, log, w.m.data, w.j.files);
  }

  lemma MountWalks(j: Joint, log: seq<LogEntry>, data: FileData)
    requires Checkpointed(j.st, j.io.dev, log, data, j.files)
    ensures forall f, q {:trigger Walk(FromDisk(j.io.dev, log).nodes, f, q)} :: f in j.files && IsPrefix(q) ==>
              Walk(FromDisk(j.io.dev, log).nodes, f, q) == Walk(j.st.nodes, f, q)
  {
    hide Checkpointed, FromDisk, Walk;
    forall f | f in j.files
      ensures forall q {:trigger Walk(FromDisk(j.io.dev, log).nodes, f, q)} :: IsPrefix(q) ==>
                Walk(FromDisk(j.io.dev, log).nodes, f, q) == Walk(j.st.nodes, f, q)
    {
      RemountKeepsTree(j.st, j.io.dev, log, data, j.files, f);
    }
  }

  // ----- What is believed and shown -----

  lemma MountNid(w: Work, log: seq<LogEntry>, n: int)
    requires Good(w) && Checkpointed(w.j.st, w.j.io.dev, log, w.m.data, w.j.files) && 0 <= n
    ensures Believed(FromDisk(w.j.io.dev, log), n) == Get(w.v.bel, n)
    ensures OnPage(FromDisk(w.j.io.dev, log).pages, n).addr == Get(w.v.shown, n)
  {
    var st, dev := w.j.st, w.j.io.dev;
    var r := FromDisk(dev, log);
    GoodParts(w);
    assert Believed(st, n) == Get(w.v.bel, n) && OnPage(st.pages, n).addr == Get(w.v.shown, n);
    hide Good, Matches;
    if n < NIDS {
      RemountSame(st, dev, log, w.m.data, w.j.files, n);
      hide FromDisk, Checkpointed, Believed;
    } else {
      HighHasNoAddr(st, dev, log, w.m.data, w.j.files, n);
      HighNotShown(st, dev, log, w.m.data, w.j.files, n);
      FromDiskEnds(dev, log, n);
      hide Mount.Mounted, NodeOnDisk, NatPageOnDisk, CachedAddrs, Checkpointed, Believed;
      assert n / NAT_ENTRY_PER_BLOCK !in r.pages;
    }
  }

  /** Past the last table block nothing is shown. */
  lemma HighNotShown(st: Store, dev: Disk, log: seq<LogEntry>, data: FileData, files: set<int>, n: int)
    requires Checkpointed(st, dev, log, data, files) && NIDS <= n
    ensures OnPage(st.pages, n).addr == 0
  {
    SyncedCore(st, dev, LogMap(log), data, files);
    assert PagesReachable(st);
    hide Checkpointed, Core;
    assert n / NAT_ENTRY_PER_BLOCK >= META_BLOCKS;
  }

  lemma MountMatches(w: Work, log: seq<LogEntry>)
    requires Settles(w, log)
    ensures Matches(FromDisk(w.j.io.dev, log), w.j.files, MountView(w.v, w.j.io.dev, log))
  {
    var dev := w.j.io.dev;
    var r, v := FromDisk(dev, log), MountView(w.v, dev, log);
    GoodParts(w);
    forall p | p in v.mapped ensures Mapped(r, w.j.files, p.0, p.1) {
      MountMapped(w, log, p.0, p.1);
    }
    forall n ensures n in r.book.used ==> !r.book.used[n].dirty {
      MountedIs(log, n);
    }
    assert r.ready == {} && r.dirty == {};
    hide FromDisk, Good, Checkpointed, Mapped;
    forall n | 0 <= n ensures Believed(r, n) == Get(v.bel, n) && OnPage(r.pages, n).addr == Get(v.shown, n) {
      MountNid(w, log, n);
    }
    hide Believed, OnPage;
  }

  lemma MountMapped(w: Work, log: seq<LogEntry>, f: int, k: int)
    requires Good(w) && Checkpointed(w.j.st, w.j.io.dev, log, w.m.data, w.j.files) && (f, k) in w.v.mapped
    ensures Mapped(FromDisk(w.j.io.dev, log), w.j.files, f, k)
  {
    GoodParts(w);
    assert Mapped(w.j.st, w.j.files, (f, k).0, (f, k).1);
    hide Good, Matches, Checkpointed, FromDisk;
    RemountKeepsTree(w.j.st, w.j.io.dev, log, w.m.data, w.j.files, f);
    SameAt(FromDisk(w.j.io.dev, log).nodes, w.j.st.nodes, f, k);
  }
}
