/** Submission and completion of writes on the zone manager's arrays. */
module Xio {
  import opened ZoneTable
  import opened ZoneAlloc
  import opened ZoneManager
  import opened WritePipeline

  class Engine<B> {
    const zm: Manager
    /** Published addresses: NAT entries of node pages, node slots of file blocks. */
    var addr: map<Page, int>
    /** Writes in flight, one per page under writeback. */
    var flights: map<Page, Flight>
    /** What the drive holds, and what the mount found out of place. */
    ghost var dev: map<int, B>
    ghost var unmarked: set<int>
    ghost var strays: set<(Page, int)>
    ghost var overdrawn: set<int>

    ghost function S(): Io<B>
      reads this, zm, zm.zoneInfo, zm.zoneOpened, zm.zoneActive, zm.nrType, zm.limitType
    {
      Io(zm.T(), addr, flights, dev, unmarked, strays, overdrawn)
    }

    /** A mount: nothing in flight, addresses as the log and the drive give them. */
    constructor (zm: Manager, addr: map<Page, int>, ghost dev: map<int, B>)
      requires zm.Valid() && zm.T().zoneSize >= SECTORS_PER_BLOCK
      ensures this.zm == zm && S() == AtMount(zm.T(), addr, dev)
    {
      this.zm := zm;
      this.addr, flights := addr, map[];
      this.dev := dev;
      ghost var s := AtMount(zm.T(), addr, dev);
      unmarked, strays, overdrawn := s.unmarked, s.strays, s.overdrawn;
    }

    /** `submit_node_xio` and `submit_data_xio` for a write: read the old address, then `alloc_zone`. */
    method SubmitXio(p: Page, answers: nat -> bool)
      requires zm.Valid() && CanSubmit(S(), p, answers)
      modifies this`flights, this`overdrawn, zm, zm.zoneInfo, zm.zoneOpened, zm.zoneActive, zm.nrType
      ensures zm.Valid() && S() == Submit(old(S()), p, answers)
      ensures p in flights && flights[p].Queued? && 0 <= flights[p].zone
      ensures Safe(old(S())) && (AddrOf(old(S()), p) == 0 || NeedsZone(old(zm.T()), AddrOf(old(S()), p))) ==>
                var z := flights[p].zone;
                && 2 <= z < |zm.T().zones| && zm.T().zones[z].cond != Full
                && zm.T().zones[z].ztype == ZoneTypeOf(KindOf(p))
    {
      if Safe(S()) {
        SubmitKind(S(), p, answers);
      }
      var old_blkaddr := if p in addr then addr[p] else 0;
      overdrawn := Overdraw(S(), old_blkaddr);
      var zone := zm.AllocZone(old_blkaddr, PageType(p), answers);
      flights := flights[p := Queued(zone)];
    }

    /** The device takes the append at a block of its choice. */
    method Append(p: Page, a: int, ghost content: B)
      requires zm.Valid() && CanLand(S(), p, a)
      modifies this`flights, this`dev
      ensures S() == Land(old(S()), p, a, content)
    {
      flights := flights[p := Landed(a)];
      dev := dev[a := content];
    }

    /** `xcpfs_write_end_io`: publish the address the device returned, then validate the block. */
    method WriteEndIo(p: Page)
      requires zm.Valid() && CanComplete(S(), p)
      modifies this`addr, this`flights, zm, zm.zoneInfo, zm.zoneOpened, zm.zoneActive
      ensures zm.Valid() && S() == Complete(old(S()), p)
    {
      var a := flights[p].addr;
      addr := addr[p := a];
      zm.ValidateBlkaddr(a);
      flights := flights - {p};
    }
  }
}
