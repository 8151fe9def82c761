/** The zone manager that performs the operations of `ZoneTable` and `ZoneAlloc` on its arrays. */
module ZoneManager {
  import opened ZoneTable
  import opened ZoneAlloc

  // ----- The slot arrays as the mount report fills them -----

  predicate Picks(c: Cond, activeToo: bool) {
    if activeToo then IsActive(c) else IsOpen(c)
  }

  /** References to the zones picked, in order. */
  function Pack(zones: seq<Zone>, activeToo: bool): (s: seq<Slot>)
    ensures forall i :: 0 <= i < |s| ==> s[i].Ref? && s[i].id < |zones|
  {
    if zones == [] then []
    else
      var n := |zones| - 1;
      Pack(zones[..n], activeToo) + if Picks(zones[n].cond, activeToo) then [Ref(n)] else []
  }

  function Padded(s: seq<Slot>, n: nat): (r: seq<Slot>)
    requires |s| <= n
    ensures |r| == n
  {
    s + seq(n - |s|, i => Null)
  }

  lemma {:induction false} PackCounts(zones: seq<Zone>, activeToo: bool, z: nat)
    ensures multiset(Pack(zones, activeToo))[Ref(z)]
         == if z < |zones| && Picks(zones[z].cond, activeToo) then 1 else 0
    ensures multiset(Pack(zones, activeToo))[Null] == 0
  {
    if zones != [] {
      PackCounts(zones[..|zones| - 1], activeToo, z);
    }
  }

  lemma {:induction false} NullCounts(k: nat, x: Slot)
    ensures multiset(seq(k, i => Null))[x] == if x == Null then k else 0
  {
    if k > 0 {
      NullCounts(k - 1, x);
      assert seq(k, i => Null) == seq(k - 1, i => Null) + [Null];
    }
  }

  lemma PaddedCounts(s: seq<Slot>, n: nat, x: Slot)
    requires |s| <= n
    ensures multiset(Padded(s, n))[x] == multiset(s)[x] + if x == Null then n - |s| else 0
  {
    NullCounts(n - |s|, x);
  }

  lemma {:induction false} PackGrows(zones: seq<Zone>, activeToo: bool, n: nat)
    requires n <= |zones|
    ensures |Pack(zones[..n], activeToo)| <= |Pack(zones, activeToo)|
    decreases |zones|
  {
    if n < |zones| {
      PackGrows(zones[..|zones| - 1], activeToo, n);
      assert zones[..|zones| - 1][..n] == zones[..n];
    } else {
      assert zones[..n] == zones;
    }
  }

  lemma PackIds(zones: seq<Zone>, activeToo: bool, n: nat)
    requires |Pack(zones, activeToo)| <= n
    ensures forall x :: x in Padded(Pack(zones, activeToo), n) ==> x == Null || x.id < |zones|
  {
    hide Pack;
  }

  /** The tables after the report satisfy the state-machine invariant. */
  lemma ReportedInv(t: Table)
    requires |Pack(t.zones, false)| <= |t.openSlots| && t.openSlots == Padded(Pack(t.zones, false), |t.openSlots|)
    requires |Pack(t.zones, true)| <= |t.activeSlots| && t.activeSlots == Padded(Pack(t.zones, true), |t.activeSlots|)
    requires t.openedCount == |Pack(t.zones, false)| && t.activeCount == |Pack(t.zones, true)|
    ensures Inv(t)
  {
    hide Padded, Pack;
    PackIds(t.zones, false, |t.openSlots|);
    PackIds(t.zones, true, |t.activeSlots|);
    PaddedCounts(Pack(t.zones, false), |t.openSlots|, Null);
    PaddedCounts(Pack(t.zones, true), |t.activeSlots|, Null);
    PackCounts(t.zones, false, 0);
    PackCounts(t.zones, true, 0);
    forall z | 0 <= z < |t.zones| ensures InSlots(t, z) {
      PackCounts(t.zones, false, z);
      PackCounts(t.zones, true, z);
      PaddedCounts(Pack(t.zones, false), |t.openSlots|, Ref(z));
      PaddedCounts(Pack(t.zones, true), |t.activeSlots|, Ref(z));
    }
  }

  class Manager {
    const zoneInfo: array<Zone>
    const zoneOpened: array<Slot>
    const zoneActive: array<Slot>
    const nrType: array<int>
    const limitType: array<int>
    var zoneOpenedCount: int
    var zoneActiveCount: int
    const zoneSize: nat
    const zoneCapacity: nat
    var cpLocked: bool
    var restart: bool

    ghost function T(): Table
      reads this, zoneInfo, zoneOpened, zoneActive, nrType, limitType
    {
      Table(zoneInfo[..], zoneOpened[..], zoneActive[..], zoneOpenedCount, zoneActiveCount,
            nrType[..], limitType[..], zoneSize, zoneCapacity, cpLocked, restart)
    }

    ghost predicate Valid()
      reads this, zoneInfo, zoneOpened, zoneActive, nrType, limitType
    {
      zoneOpened != zoneActive && nrType != limitType && Shape(T())
    }

    /** Cleared arrays and counters; the zones are filled in by the report. */
    constructor (zones: nat, maxOpen: nat, maxActive: nat, limits: seq<int>, size: nat, capacity: nat)
      requires zones >= 2 && size >= SECTORS_PER_BLOCK && |limits| == 5
      ensures Valid() && fresh(zoneInfo) && fresh(zoneOpened) && fresh(zoneActive) && fresh(nrType) && fresh(limitType)
      ensures T().limitType == limits && zoneSize == size && zoneCapacity == capacity
      ensures zoneOpened.Length == maxOpen && zoneActive.Length == maxActive
      ensures forall reported :: |reported| == zones ==> Reported(reported, 0)
    {
      zoneInfo := new Zone[zones](i => Zone(Empty, 0, 0, 0, 0, {}, false));
      zoneOpened := new Slot[maxOpen](i => Null);
      zoneActive := new Slot[maxActive](i => Null);
      nrType := new int[5](i => 0);
      limitType := new int[5](i requires 0 <= i < 5 => limits[i]);
      zoneOpenedCount, zoneActiveCount := 0, 0;
      zoneSize, zoneCapacity := size, capacity;
      cpLocked, restart := false, false;
      new;
      assert zoneOpened[..] == Padded([], maxOpen) && zoneActive[..] == Padded([], maxActive);
    }

    /** The fields after the first `n` zones were reported. */
    ghost predicate Reported(reported: seq<Zone>, n: nat)
      requires n <= |reported|
      reads this, zoneInfo, zoneOpened, zoneActive
    {
      && zoneInfo.Length == |reported| && zoneInfo[..n] == reported[..n]
      && zoneOpenedCount == |Pack(reported[..n], false)| <= zoneOpened.Length
      && zoneActiveCount == |Pack(reported[..n], true)| <= zoneActive.Length
      && zoneOpened[..] == Padded(Pack(reported[..n], false), zoneOpened.Length)
      && zoneActive[..] == Padded(Pack(reported[..n], true), zoneActive.Length)
    }

    /** `xcpfs_report_zones_cb` */
    method ReportZone(zone: Zone, idx: nat, ghost reported: seq<Zone>)
      requires idx < |reported| && zone == reported[idx] && Reported(reported, idx) && zoneOpened != zoneActive
      requires |Pack(reported[..idx + 1], false)| <= zoneOpened.Length
      requires |Pack(reported[..idx + 1], true)| <= zoneActive.Length
      modifies this`zoneOpenedCount, this`zoneActiveCount, zoneInfo, zoneOpened, zoneActive
      ensures Reported(reported, idx + 1)
    {
      assert reported[..idx + 1][..idx] == reported[..idx];
      zoneInfo[idx] := zone;
      if zone.cond == ImpOpen || zone.cond == ExpOpen {
        zoneOpened[zoneOpenedCount] := Ref(idx);
        zoneOpenedCount := zoneOpenedCount + 1;
        zoneActive[zoneActiveCount] := Ref(idx);
        zoneActiveCount := zoneActiveCount + 1;
      } else if zone.cond == Closed {
        zoneActive[zoneActiveCount] := Ref(idx);
        zoneActiveCount := zoneActiveCount + 1;
      }
    }

    /** The report of all zones, within the device's own limits, on cleared arrays. */
    method ReportZones(reported: seq<Zone>)
      requires Valid() && Reported(reported, 0)
      requires |Pack(reported, false)| <= zoneOpened.Length && |Pack(reported, true)| <= zoneActive.Length
      modifies this`zoneOpenedCount, this`zoneActiveCount, zoneInfo, zoneOpened, zoneActive
      ensures Valid() && Inv(T()) && T().zones == reported
    {
      var idx := 0;
      while idx < |reported|
        invariant 0 <= idx <= |reported| && Reported(reported, idx)
      {
        PackGrows(reported, false, idx + 1);
        PackGrows(reported, true, idx + 1);
        ReportZone(reported[idx], idx, reported);
        idx := idx + 1;
      }
      assert reported[..idx] == reported && zoneInfo[..] == zoneInfo[..idx];
      ReportedInv(T());
    }

    /** `__insert_zone` and `__remove_zone`: the first slot holding `x` becomes `y`. */
    static method Replace(list: array<Slot>, x: Slot, y: Slot) returns (ok: bool)
      modifies list
      ensures list[..] == Overwrite(old(list[..]), x, y)
      ensures ok <==> x in old(list[..])
    {
      SlotOfMember(list[..], x);
      var i := 0;
      while i < list.Length
        invariant 0 <= i <= list.Length && list[..] == old(list[..])
        invariant forall j :: 0 <= j < i ==> list[j] != x
      {
        SlotScan(list[..], x, i);
        if list[i] == x {
          list[i] := y;
          return true;
        }
        i := i + 1;
      }
      SlotScan(list[..], x, i);
      ok := false;
    }

    method InsertZoneOpened(z: nat)
      requires Valid()
      modifies this`zoneOpenedCount, zoneOpened
      ensures T() == InsertOpened(old(T()), z)
    {
      var ok := Replace(zoneOpened, Null, Ref(z));
      if ok {
        zoneOpenedCount := zoneOpenedCount + 1;
      }
    }

    method RemoveZoneOpened(z: nat)
      requires Valid()
      modifies this`zoneOpenedCount, zoneOpened
      ensures T() == RemoveOpened(old(T()), z)
    {
      var ok := Replace(zoneOpened, Ref(z), Null);
      if ok {
        zoneOpenedCount := zoneOpenedCount - 1;
      }
    }

    method InsertZoneActive(z: nat)
      requires Valid()
      modifies this`zoneActiveCount, zoneActive
      ensures T() == InsertActive(old(T()), z)
    {
      var ok := Replace(zoneActive, Null, Ref(z));
      if ok {
        zoneActiveCount := zoneActiveCount + 1;
      }
    }

    method RemoveZoneActive(z: nat)
      requires Valid()
      modifies this`zoneActiveCount, zoneActive
      ensures T() == RemoveActive(old(T()), z)
    {
      var ok := Replace(zoneActive, Ref(z), Null);
      if ok {
        zoneActiveCount := zoneActiveCount - 1;
      }
    }

    /** `xcpfs_zone_open`; `dev` is the device's answer. */
    method ZoneOpen(z: nat, dev: bool) returns (ret: Ret)
      requires Valid() && z < zoneInfo.Length
      modifies this`zoneOpenedCount, this`zoneActiveCount, zoneInfo, zoneOpened, zoneActive
      ensures (T(), ret) == Open(old(T()), z, dev)
    {
      var zi := zoneInfo[z];
      if zi.cond == ExpOpen {
        return Ok;
      }
      if zoneOpenedCount == zoneOpened.Length {
        return MaxOpen;
      }
      if zoneActiveCount == zoneActive.Length {
        return MaxActive;
      }
      if !dev {
        return DeviceError;
      }
      InsertZoneOpened(z);
      if zi.cond != Closed {
        InsertZoneActive(z);
      }
      zoneInfo[z] := zi.(cond := ExpOpen, dirty := true);
      ret := Ok;
    }

    /** `xcpfs_zone_close` */
    method ZoneClose(z: nat, dev: bool) returns (ret: Ret)
      requires Valid() && z < zoneInfo.Length
      modifies this`zoneOpenedCount, zoneInfo, zoneOpened
      ensures (T(), ret) == Close(old(T()), z, dev)
    {
      if zoneInfo[z].cond != ExpOpen {
        return BadZone;
      }
      if !dev {
        return DeviceError;
      }
      RemoveZoneOpened(z);
      zoneInfo[z] := zoneInfo[z].(cond := Closed, dirty := true);
      ret := Ok;
    }

    /** `xcpfs_zone_finish` */
    method ZoneFinish(z: nat, dev: bool) returns (ret: Ret)
      requires Valid() && z < zoneInfo.Length
      modifies this`zoneOpenedCount, this`zoneActiveCount, zoneInfo, zoneOpened, zoneActive
      ensures (T(), ret) == Finish(old(T()), z, dev)
    {
      if zoneInfo[z].cond == Empty {
        return BadZone;
      }
      if !dev {
        return DeviceError;
      }
      RemoveZoneOpened(z);
      RemoveZoneActive(z);
      zoneInfo[z] := zoneInfo[z].(cond := Full, wp := zoneCapacity, dirty := true);
      ret := Ok;
    }

    /** `xcpfs_zone_reset` */
    method ZoneReset(z: nat, dev: bool) returns (ret: Ret)
      requires Valid() && z < zoneInfo.Length
      modifies this`zoneOpenedCount, this`zoneActiveCount, zoneInfo, zoneOpened, zoneActive
      ensures (T(), ret) == Reset(old(T()), z, dev)
    {
      if !dev {
        return DeviceError;
      }
      RemoveZoneOpened(z);
      RemoveZoneActive(z);
      zoneInfo[z] := zoneInfo[z].(cond := Empty, wp := 0, dirty := true);
      ret := Ok;
    }

    /** `validate_blkaddr` */
    method ValidateBlkaddr(a: int)
      requires Valid() && InTable(T(), a)
      modifies this`zoneOpenedCount, this`zoneActiveCount, zoneInfo, zoneOpened, zoneActive
      ensures T() == Validate(old(T()), a) && Valid()
    {
      var z, idx := ZoneOf(zoneSize, a), BitOf(zoneSize, a);
      var zi := zoneInfo[z];
      zi := zi.(valid := zi.valid + {idx}, vblocks := zi.vblocks + 1, dirty := true);
      zi := zi.(wp := if zi.wp < (a + 1) * 8 then (a + 1) * 8 else zi.wp);
      if zi.wp == zoneCapacity + zi.start {
        zoneInfo[z] := zi.(cond := Full);
        RemoveZoneActive(z);
        RemoveZoneOpened(z);
      } else {
        zoneInfo[z] := zi;
      }
    }

    /** `invalidate_blkaddr` */
    method InvalidateBlkaddr(a: int)
      requires Valid() && InTable(T(), a)
      modifies zoneInfo
      ensures T() == Invalidate(old(T()), a) && Valid()
    {
      var z, idx := ZoneOf(zoneSize, a), BitOf(zoneSize, a);
      var zi := zoneInfo[z];
      zoneInfo[z] := zi.(valid := zi.valid - {idx}, vblocks := zi.vblocks - 1, dirty := true);
    }

    /** `get_empty_zone` */
    method GetEmptyZone() returns (z: nat)
      requires Valid()
      ensures z == GetEmpty(T()) && (z == 0 || (2 <= z < |T().zones| && T().zones[z].cond == Empty))
      ensures forall k :: 2 <= k < (if z != 0 then z else |T().zones|) ==> T().zones[k].cond != Empty
    {
      GetEmptyIsFirst(T());
      var i := 2;
      while i < zoneInfo.Length
        invariant 2 <= i <= zoneInfo.Length && FirstEmpty(T(), i) == GetEmpty(T())
      {
        if zoneInfo[i].cond == Empty {
          return i;
        }
        i := i + 1;
      }
      z := 0;
    }

    /** The scan of the opened zones in `get_zone`. */
    method ScanOpened(ty: int) returns (tar: Slot)
      requires Valid()
      ensures tar == Scan(T(), ty)
      ensures exists w {:trigger Winners(T(), ty, w, |T().openSlots|)} ::
                && Winners(T(), ty, w, |T().openSlots|)
                && tar == if w == [] then Null else T().openSlots[w[|w| - 1]]
    {
      ghost var w := ScanWinners(T(), ty);
      var inflight := LONG_MAX;
      tar := Null;
      var i := 0;
      while i < zoneOpened.Length
        invariant 0 <= i <= zoneOpened.Length
        invariant ScanFrom(T(), ty, i, inflight, tar) == Scan(T(), ty)
      {
        var x := zoneOpened[i];
        if x.Ref? && x.id < zoneInfo.Length {
          var zi := zoneInfo[x.id];
          if zi.ztype == ty && (zi.wp - zi.start) % SECTOR_RANGE < inflight {
            inflight := zi.wp % SECTOR_RANGE;
            tar := x;
          }
        }
        i := i + 1;
      }
    }

    /** The open block of `get_zone`. */
    method OpenForType(ty: int, dev: bool)
      requires Valid() && IsType(ty)
      modifies this, zoneInfo, zoneOpened, zoneActive, nrType
      ensures Valid() && T() == OpenMore(old(T()), ty, dev)
    {
      if zoneOpenedCount < zoneOpened.Length {
        var z := GetEmptyZone();
        var _ := ZoneOpen(z, dev);
        zoneInfo[z] := zoneInfo[z].(ztype := ty);
        nrType[ty] := nrType[ty] + 1;
        if cpLocked {
          restart := true;
        }
      }
    }

    /** `get_zone`; the retry loop runs as long as no opened zone of the type is found. */
    method GetZone(ty: int, dev: nat -> bool) returns (z: nat)
      requires Valid() && IsType(ty) && Halts(T(), ty, dev)
      modifies this, zoneInfo, zoneOpened, zoneActive, nrType
      ensures Valid() && (T(), z) == ZoneAlloc.GetZone(old(T()), ty, dev)
      ensures Ref(z) in T().openSlots && z < |T().zones| && T().zones[z].ztype == ty
      ensures T().nrType == old(T().nrType)[ty := T().nrType[ty]]
      ensures Good(old(T())) ==>
                && (T().nrType[ty] > old(T().nrType)[ty] <==>
                      && old(zoneOpenedCount) < zoneOpened.Length
                      && (old(T().nrType)[ty] < old(T().limitType)[ty] || !OpenOfType(old(T()), ty)))
                && (T().nrType[ty] <= old(T().nrType)[ty] ==> T() == old(T()))
    {
      hide Halts, OpenMore, Scan, Inv, WpSane, OpenOfType;
      ghost var t := T();
      ghost var last := HaltsAt(t, ty, dev);
      var attempt: nat := 0;
      if nrType[ty] < limitType[ty] {
        OpenForType(ty, dev(attempt));
        attempt := attempt + 1;
      }
      var tar := ScanOpened(ty);
      while tar == Null
        invariant Valid() && Entry(t, ty) <= attempt <= last && T() == Passes(t, ty, dev, attempt)
        invariant tar == Scan(T(), ty)
        decreases last - attempt
      {
        assert attempt < last;
        OpenForType(ty, dev(attempt));
        attempt := attempt + 1;
        tar := ScanOpened(ty);
      }
      assert Stops(t, ty, dev, last) && attempt == last;
      z := tar.id;
      GetZoneIs(t, ty, dev, last);
      GetZoneFinds(t, ty, dev);
      if Good(t) {
        GetZoneTakesNew(t, ty, dev);
      }
    }

    /** `alloc_zone` for a write: the zone to append to; the old block becomes invalid. */
    method AllocZone(old_blkaddr: int, ty: int, dev: nat -> bool) returns (z: nat)
      requires Valid() && IsType(ty) && InTable(T(), old_blkaddr)
      requires NeedsZone(T(), old_blkaddr) ==> Halts(T(), ty, dev)
      modifies this, zoneInfo, zoneOpened, zoneActive, nrType
      ensures Valid() && (T(), z) == Alloc(old(T()), old_blkaddr, ty, dev)
    {
      z := ZoneOf(zoneSize, old_blkaddr);
      if zoneInfo[z].cond == Full || z == 0 {
        z := GetZone(ty, dev);
      }
      InvalidateBlkaddr(old_blkaddr);
    }
  }
}
