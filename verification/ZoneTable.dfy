/**
 * The zone table: conditions, write pointers, validity bitmaps, and the slot arrays of opened and
 * active zones.  Every operation is a function on a table value; class `ZoneManager` performs them.
 */
module ZoneTable {
  datatype Cond = Empty | ImpOpen | ExpOpen | Closed | ReadOnly | Full | Offline

  /** A `struct xcpfs_zone_info`; `wp` and `start` count sectors, `valid` is the set of bits set. */
  datatype Zone = Zone(cond: Cond, wp: int, start: int, ztype: int, vblocks: int, valid: set<int>, dirty: bool)

  datatype Slot = Null | Ref(id: nat)

  /** `struct xcpfs_zm_info`, with the checkpoint's restart flag and whether its lock is held. */
  datatype Table = Table(
    zones: seq<Zone>, openSlots: seq<Slot>, activeSlots: seq<Slot>, openedCount: int, activeCount: int,
    nrType: seq<int>, limitType: seq<int>, zoneSize: nat, capacity: nat,
    cpLocked: bool, restart: bool)

  datatype Ret = Ok | MaxOpen | MaxActive | DeviceError | BadZone

  const SECTORS_PER_BLOCK := 8
  const LONG_MAX := 0x7fff_ffff_ffff_ffff
  const SECTOR_RANGE := 0x1_0000_0000_0000_0000

  predicate IsOpen(c: Cond) {
    c == ImpOpen || c == ExpOpen
  }

  predicate IsActive(c: Cond) {
    IsOpen(c) || c == Closed
  }

  // ----- Slot arrays -----

  /** The first slot holding `x`, or the length of the array. */
  function SlotOf(list: seq<Slot>, x: Slot): (i: nat)
    ensures i <= |list|
    ensures i < |list| ==> list[i] == x
  {
    if list == [] then 0 else if list[0] == x then 0 else 1 + SlotOf(list[1..], x)
  }

  lemma {:induction false} SlotScan(list: seq<Slot>, x: Slot, i: nat)
    requires i <= |list| && forall j :: 0 <= j < i ==> list[j] != x
    ensures i < |list| && list[i] == x ==> SlotOf(list, x) == i
    ensures i == |list| ==> SlotOf(list, x) == i
  {
    if i > 0 {
      SlotScan(list[1..], x, i - 1);
    }
  }

  lemma {:induction false} SlotOfMember(list: seq<Slot>, x: Slot)
    ensures SlotOf(list, x) < |list| <==> x in list
  {
    if list != [] && list[0] != x {
      SlotOfMember(list[1..], x);
    }
  }

  /** `__insert_zone` and `__remove_zone` both overwrite the first slot that holds `x`, if any. */
  function Overwrite(list: seq<Slot>, x: Slot, y: Slot): seq<Slot> {
    var i := SlotOf(list, x);
    if i < |list| then list[i := y] else list
  }

  /** How often `w` occurs after an overwrite. */
  lemma Overwritten(list: seq<Slot>, x: Slot, y: Slot, w: Slot)
    requires x != y
    ensures multiset(Overwrite(list, x, y))[w]
         == multiset(list)[w] + (if x in list && w == y then 1 else 0) - (if x in list && w == x then 1 else 0)
    ensures |Overwrite(list, x, y)| == |list|
  {
    SlotOfMember(list, x);
  }

  /** Overwriting two different references commutes. */
  lemma OverwriteCommutes(list: seq<Slot>, x: Slot, y: Slot)
    requires x != Null && y != Null
    ensures Overwrite(Overwrite(list, x, Null), y, Null) == Overwrite(Overwrite(list, y, Null), x, Null)
  {
    if x != y {
      FirstElsewhere(list, x, y);
      FirstElsewhere(list, y, x);
    }
  }

  lemma {:induction false} FirstElsewhere(list: seq<Slot>, x: Slot, y: Slot)
    requires x != y && x != Null && y != Null
    ensures SlotOf(Overwrite(list, x, Null), y) == SlotOf(list, y)
  {
    if list != [] && list[0] != x {
      FirstElsewhere(list[1..], x, y);
      assert Overwrite(list, x, Null) == [list[0]] + Overwrite(list[1..], x, Null);
    } else if list != [] {
      assert Overwrite(list, x, Null)[1..] == list[1..];
    }
  }

  // ----- Operations -----

  function InsertOpened(t: Table, z: nat): Table {
    t.(openSlots := Overwrite(t.openSlots, Null, Ref(z)),
       openedCount := t.openedCount + if Null in t.openSlots then 1 else 0)
  }

  function RemoveOpened(t: Table, z: nat): Table {
    t.(openSlots := Overwrite(t.openSlots, Ref(z), Null),
       openedCount := t.openedCount - if Ref(z) in t.openSlots then 1 else 0)
  }

  function InsertActive(t: Table, z: nat): Table {
    t.(activeSlots := Overwrite(t.activeSlots, Null, Ref(z)),
       activeCount := t.activeCount + if Null in t.activeSlots then 1 else 0)
  }

  function RemoveActive(t: Table, z: nat): Table {
    t.(activeSlots := Overwrite(t.activeSlots, Ref(z), Null),
       activeCount := t.activeCount - if Ref(z) in t.activeSlots then 1 else 0)
  }

  function SetZone(t: Table, z: nat, zone: Zone): Table
    requires z < |t.zones|
  {
    t.(zones := t.zones[z := zone])
  }

  /** `xcpfs_zone_open`; `dev` is the device's answer. */
  function Open(t: Table, z: nat, dev: bool): (Table, Ret)
    requires z < |t.zones|
  {
    var zi := t.zones[z];
    if zi.cond == ExpOpen then (t, Ok)
    else if t.openedCount == |t.openSlots| then (t, MaxOpen)
    else if t.activeCount == |t.activeSlots| then (t, MaxActive)
    else if !dev then (t, DeviceError)
    else
      var t1 := InsertOpened(t, z);
      var t2 := if zi.cond != Closed then InsertActive(t1, z) else t1;
      (SetZone(t2, z, zi.(cond := ExpOpen, dirty := true)), Ok)
  }

  /** `xcpfs_zone_close` */
  function Close(t: Table, z: nat, dev: bool): (Table, Ret)
    requires z < |t.zones|
  {
    var zi := t.zones[z];
    if zi.cond != ExpOpen then (t, BadZone)
    else if !dev then (t, DeviceError)
    else (SetZone(RemoveOpened(t, z), z, zi.(cond := Closed, dirty := true)), Ok)
  }

  /** `xcpfs_zone_finish` */
  function Finish(t: Table, z: nat, dev: bool): (Table, Ret)
    requires z < |t.zones|
  {
    var zi := t.zones[z];
    if zi.cond == Empty then (t, BadZone)
    else if !dev then (t, DeviceError)
    else (SetZone(Drop(t, z), z, zi.(cond := Full, wp := t.capacity, dirty := true)), Ok)
  }

  /** `xcpfs_zone_reset` */
  function Reset(t: Table, z: nat, dev: bool): (Table, Ret)
    requires z < |t.zones|
  {
    var zi := t.zones[z];
    if !dev then (t, DeviceError)
    else (SetZone(Drop(t, z), z, zi.(cond := Empty, wp := 0, dirty := true)), Ok)
  }

  /** `blk2zone`; `size` is the zone size in sectors. */
  function ZoneOf(size: nat, a: int): int
    requires size >= SECTORS_PER_BLOCK
  {
    a / (size / SECTORS_PER_BLOCK)
  }

  function BitOf(size: nat, a: int): int
    requires size >= SECTORS_PER_BLOCK
  {
    a % (size / SECTORS_PER_BLOCK)
  }

  function Max(a: int, b: int): int {
    if a < b then b else a
  }

  /** A block address inside some zone of the table. */
  predicate InTable(t: Table, a: int) {
    t.zoneSize >= SECTORS_PER_BLOCK && 0 <= a && 0 <= ZoneOf(t.zoneSize, a) < |t.zones|
  }

  /** The zone fields `validate_blkaddr` updates for block `a`. */
  function Written(size: nat, zi: Zone, a: int): Zone
    requires size >= SECTORS_PER_BLOCK
  {
    zi.(valid := zi.valid + {BitOf(size, a)}, vblocks := zi.vblocks + 1, dirty := true,
        wp := Max(zi.wp, (a + 1) * SECTORS_PER_BLOCK))
  }

  predicate Filled(capacity: nat, zi: Zone) {
    zi.wp == capacity + zi.start
  }

  function Drop(t: Table, z: nat): Table {
    RemoveOpened(RemoveActive(t, z), z)
  }

  function NewZone(capacity: nat, zi: Zone): Zone {
    if Filled(capacity, zi) then zi.(cond := Full) else zi
  }

  /** `validate_blkaddr` */
  function Validate(t: Table, a: int): Table
    requires InTable(t, a)
  {
    var z := ZoneOf(t.zoneSize, a);
    var zi := Written(t.zoneSize, t.zones[z], a);
    if Filled(t.capacity, zi) then Drop(SetZone(t, z, NewZone(t.capacity, zi)), z) else SetZone(t, z, zi)
  }

  /** `invalidate_blkaddr` */
  function Invalidate(t: Table, a: int): Table
    requires InTable(t, a)
  {
    var z := ZoneOf(t.zoneSize, a);
    var zi := t.zones[z];
    SetZone(t, z, zi.(valid := zi.valid - {BitOf(t.zoneSize, a)}, vblocks := zi.vblocks - 1, dirty := true))
  }

  // ----- The invariant of the state machine -----

  ghost predicate InSlots(t: Table, z: nat)
    requires z < |t.zones|
  {
    && multiset(t.openSlots)[Ref(z)] == (if IsOpen(t.zones[z].cond) then 1 else 0)
    && multiset(t.activeSlots)[Ref(z)] == (if IsActive(t.zones[z].cond) then 1 else 0)
  }

  /** Slots name zones of the table, and the counters count the slots in use. */
  ghost predicate Counted(t: Table) {
    && (forall x :: x in t.openSlots || x in t.activeSlots ==> x == Null || x.id < |t.zones|)
    && t.openedCount == |t.openSlots| - multiset(t.openSlots)[Null]
    && t.activeCount == |t.activeSlots| - multiset(t.activeSlots)[Null]
  }

  /**
   * A zone is in the opened array exactly once iff it is open, in the active array exactly once iff
   * it is open or closed, and both counters count the slots in use.
   */
  ghost predicate Inv(t: Table) {
    Counted(t) && forall z {:trigger InSlots(t, z)} :: 0 <= z < |t.zones| ==> InSlots(t, z)
  }

  /** The counters never pass the device limits. */
  lemma CountersBounded(t: Table)
    requires Inv(t)
    ensures 0 <= t.openedCount <= |t.openSlots| && 0 <= t.activeCount <= |t.activeSlots|
    ensures t.openedCount < |t.openSlots| <==> Null in t.openSlots
    ensures t.activeCount < |t.activeSlots| <==> Null in t.activeSlots
  {
    assert multiset(t.openSlots)[Null] <= |multiset(t.openSlots)|;
    assert multiset(t.activeSlots)[Null] <= |multiset(t.activeSlots)|;
  }

  /** Whether opening would put a second reference to a zone into the slot arrays. */
  predicate OpensTwice(t: Table, z: nat, dev: bool)
    requires z < |t.zones|
  {
    t.zones[z].cond == ImpOpen && t.openedCount < |t.openSlots| && t.activeCount < |t.activeSlots| && dev
  }

  lemma InsertOpenedLaws(t: Table, z: nat, y: nat)
    requires Counted(t) && z < |t.zones| && Null in t.openSlots
    ensures Counted(InsertOpened(t, z))
    ensures multiset(InsertOpened(t, z).openSlots)[Ref(y)] == multiset(t.openSlots)[Ref(y)] + if y == z then 1 else 0
  {
    Overwritten(t.openSlots, Null, Ref(z), Ref(y));
    Overwritten(t.openSlots, Null, Ref(z), Null);
  }

  lemma InsertActiveLaws(t: Table, z: nat, y: nat)
    requires Counted(t) && z < |t.zones| && Null in t.activeSlots
    ensures Counted(InsertActive(t, z))
    ensures multiset(InsertActive(t, z).activeSlots)[Ref(y)]
         == multiset(t.activeSlots)[Ref(y)] + if y == z then 1 else 0
  {
    Overwritten(t.activeSlots, Null, Ref(z), Ref(y));
    Overwritten(t.activeSlots, Null, Ref(z), Null);
  }

  lemma RemoveOpenedLaws(t: Table, z: nat, y: nat)
    requires Counted(t) && z < |t.zones|
    ensures Counted(RemoveOpened(t, z))
    ensures multiset(RemoveOpened(t, z).openSlots)[Ref(y)]
         == multiset(t.openSlots)[Ref(y)] - if y == z && Ref(z) in t.openSlots then 1 else 0
  {
    Overwritten(t.openSlots, Ref(z), Null, Ref(y));
    Overwritten(t.openSlots, Ref(z), Null, Null);
  }

  lemma RemoveActiveLaws(t: Table, z: nat, y: nat)
    requires Counted(t) && z < |t.zones|
    ensures Counted(RemoveActive(t, z))
    ensures multiset(RemoveActive(t, z).activeSlots)[Ref(y)]
         == multiset(t.activeSlots)[Ref(y)] - if y == z && Ref(z) in t.activeSlots then 1 else 0
  {
    Overwritten(t.activeSlots, Ref(z), Null, Ref(y));
    Overwritten(t.activeSlots, Ref(z), Null, Null);
  }

  // ----- What the zone commands do to the sets of open and active zones -----

  ghost function OpenedZones(t: Table): set<int> {
    set z | 0 <= z < |t.zones| && IsOpen(t.zones[z].cond)
  }

  ghost function ActiveZones(t: Table): set<int> {
    set z | 0 <= z < |t.zones| && IsActive(t.zones[z].cond)
  }

  /** Only zone `z` differs, and in it neither its place nor its type nor what it holds. */
  ghost predicate OnlyState(t: Table, u: Table, z: nat)
    requires z < |t.zones|
  {
    && |u.zones| == |t.zones| && (forall y :: 0 <= y < |t.zones| && y != z ==> u.zones[y] == t.zones[y])
    && u.zones[z].start == t.zones[z].start && u.zones[z].ztype == t.zones[z].ztype
    && u.zones[z].valid == t.zones[z].valid && u.zones[z].vblocks == t.zones[z].vblocks
    && u.nrType == t.nrType && u.limitType == t.limitType && u.restart == t.restart
  }

  lemma OpenMoves(t: Table, z: nat, dev: bool)
    requires Inv(t) && z < |t.zones|
    ensures var (u, r) := Open(t, z, dev);
            && (r == Ok <==> t.zones[z].cond == ExpOpen || (Null in t.openSlots && Null in t.activeSlots && dev))
            && (r != Ok || t.zones[z].cond == ExpOpen ==> u == t)
            && (r == Ok ==> OnlyState(t, u, z) && u.zones[z].cond == ExpOpen && u.zones[z].wp == t.zones[z].wp
                            && OpenedZones(u) == OpenedZones(t) + {z} && ActiveZones(u) == ActiveZones(t) + {z})
  {
    hide Overwrite;
    CountersBounded(t);
  }

  lemma CloseMoves(t: Table, z: nat, dev: bool)
    requires z < |t.zones|
    ensures var (u, r) := Close(t, z, dev);
            && (r == Ok <==> t.zones[z].cond == ExpOpen && dev)
            && (r != Ok ==> u == t)
            && (r == Ok ==> OnlyState(t, u, z) && u.zones[z].cond == Closed && u.zones[z].wp == t.zones[z].wp
                            && OpenedZones(u) == OpenedZones(t) - {z} && ActiveZones(u) == ActiveZones(t))
  {
    hide Overwrite;
  }

  lemma FinishMoves(t: Table, z: nat, dev: bool)
    requires z < |t.zones|
    ensures var (u, r) := Finish(t, z, dev);
            && (r == Ok <==> t.zones[z].cond != Empty && dev)
            && (r != Ok ==> u == t)
            && (r == Ok ==> OnlyState(t, u, z) && u.zones[z].cond == Full && u.zones[z].wp == t.capacity
                            && OpenedZones(u) == OpenedZones(t) - {z} && ActiveZones(u) == ActiveZones(t) - {z})
  {
    hide Overwrite;
  }

  lemma ResetMoves(t: Table, z: nat, dev: bool)
    requires z < |t.zones|
    ensures var (u, r) := Reset(t, z, dev);
            && (r == Ok <==> dev)
            && (r != Ok ==> u == t)
            && (r == Ok ==> OnlyState(t, u, z) && u.zones[z].cond == Empty && u.zones[z].wp == 0
                            && OpenedZones(u) == OpenedZones(t) - {z} && ActiveZones(u) == ActiveZones(t) - {z})
  {
    hide Overwrite;
  }

  /** Opening keeps the invariant exactly when it does not open an implicitly open zone again. */
  lemma OpenKeepsInv(t: Table, z: nat, dev: bool)
    requires Inv(t) && z < |t.zones|
    ensures Inv(Open(t, z, dev).0) <==> !OpensTwice(t, z, dev)
  {
    hide Overwrite, Counted;
    CountersBounded(t);
    var t1, t' := InsertOpened(t, z), Open(t, z, dev).0;
    assert InSlots(t, z);
    if Open(t, z, dev).1.Ok? && t.zones[z].cond != ExpOpen {
      InsertOpenedLaws(t, z, z);
      InsertActiveLaws(t1, z, z);
      RezoneCounted(t1, z, t'.zones[z]);
      RezoneCounted(InsertActive(t1, z), z, t'.zones[z]);
      if OpensTwice(t, z, dev) {
        assert !InSlots(t', z);
      } else {
        forall y | 0 <= y < |t'.zones| ensures InSlots(t', y) {
          assert InSlots(t, y);
          InsertOpenedLaws(t, z, y);
          InsertActiveLaws(t1, z, y);
        }
      }
    }
  }

  lemma RezoneCounted(t: Table, z: nat, zone: Zone)
    requires Counted(t) && z < |t.zones|
    ensures Counted(SetZone(t, z, zone))
  {
  }

  /** Dropping a zone from both arrays and giving it a condition that is neither open nor active. */
  lemma DropKeepsInv(t: Table, z: nat, zone: Zone)
    requires Inv(t) && z < |t.zones| && !IsActive(zone.cond)
    ensures Inv(SetZone(Drop(t, z), z, zone)) && SetZone(Drop(t, z), z, zone) == Drop(SetZone(t, z, zone), z)
  {
    hide Overwrite, Counted;
    var t1, t' := RemoveActive(t, z), SetZone(Drop(t, z), z, zone);
    RemoveActiveLaws(t, z, z);
    RemoveOpenedLaws(t1, z, z);
    RezoneCounted(Drop(t, z), z, zone);
    forall y | 0 <= y < |t'.zones| ensures InSlots(t', y) {
      assert InSlots(t, y);
      RemoveActiveLaws(t, z, y);
      RemoveOpenedLaws(t1, z, y);
    }
  }

  lemma CloseKeepsInv(t: Table, z: nat, dev: bool)
    requires Inv(t) && z < |t.zones|
    ensures Inv(Close(t, z, dev).0)
  {
    hide Overwrite, Counted;
    var t' := Close(t, z, dev).0;
    RemoveOpenedLaws(t, z, z);
    RezoneCounted(RemoveOpened(t, z), z, t'.zones[z]);
    forall y | 0 <= y < |t'.zones| ensures InSlots(t', y) {
      assert InSlots(t, y);
      RemoveOpenedLaws(t, z, y);
    }
  }

  lemma SameCondKeepsInv(t: Table, z: nat, zone: Zone)
    requires Inv(t) && z < |t.zones| && zone.cond == t.zones[z].cond
    ensures Inv(SetZone(t, z, zone))
  {
    forall y | 0 <= y < |t.zones| ensures InSlots(SetZone(t, z, zone), y) {
      assert InSlots(t, y);
    }
  }

  lemma ValidateKeepsInv(t: Table, a: int)
    requires Inv(t) && InTable(t, a)
    ensures Inv(Validate(t, a))
  {
    var z := ZoneOf(t.zoneSize, a);
    var zone := Written(t.zoneSize, t.zones[z], a);
    if Filled(t.capacity, zone) {
      DropKeepsInv(t, z, zone.(cond := Full));
    } else {
      SameCondKeepsInv(t, z, zone);
    }
  }

  // ----- Runs -----

  datatype Op =
    | OpOpen(z: nat, dev: bool) | OpClose(z: nat, dev: bool) | OpFinish(z: nat, dev: bool) | OpReset(z: nat, dev: bool)
    | OpValidate(a: int) | OpInvalidate(a: int)

  predicate Enabled(t: Table, op: Op) {
    match op
    case OpValidate(a) => InTable(t, a)
    case OpInvalidate(a) => InTable(t, a)
    case _ => op.z < |t.zones|
  }

  function Step(t: Table, op: Op): Table
    requires Enabled(t, op)
  {
    match op
    case OpOpen(z, dev) => Open(t, z, dev).0
    case OpClose(z, dev) => Close(t, z, dev).0
    case OpFinish(z, dev) => Finish(t, z, dev).0
    case OpReset(z, dev) => Reset(t, z, dev).0
    case OpValidate(a) => Validate(t, a)
    case OpInvalidate(a) => Invalidate(t, a)
  }

  /** `t'` is reached from `t` by the operations `ops`, none of which opens an implicitly open zone. */
  ghost predicate Run(t: Table, ops: seq<Op>, t': Table)
    decreases |ops|
  {
    if ops == [] then t' == t
    else
      && Enabled(t, ops[0])
      && (ops[0].OpOpen? ==> !OpensTwice(t, ops[0].z, ops[0].dev))
      && Run(Step(t, ops[0]), ops[1..], t')
  }

  lemma StepKeepsInv(t: Table, op: Op)
    requires Inv(t) && Enabled(t, op) && (op.OpOpen? ==> !OpensTwice(t, op.z, op.dev))
    ensures Inv(Step(t, op))
  {
    match op
    case OpOpen(z, dev) => OpenKeepsInv(t, z, dev);
    case OpClose(z, dev) => CloseKeepsInv(t, z, dev);
    case OpFinish(z, dev) => DropKeepsInv(t, z, t.zones[z].(cond := Full, wp := t.capacity, dirty := true));
    case OpReset(z, dev) => DropKeepsInv(t, z, t.zones[z].(cond := Empty, wp := 0, dirty := true));
    case OpValidate(a) => ValidateKeepsInv(t, a);
    case OpInvalidate(a) => SameCondKeepsInv(t, ZoneOf(t.zoneSize, a), Invalidate(t, a).zones[ZoneOf(t.zoneSize, a)]);
  }

  /** The state-machine invariant holds over every run. */
  lemma {:induction false} RunKeepsInv(t: Table, ops: seq<Op>, t': Table)
    requires Inv(t) && Run(t, ops, t')
    ensures Inv(t')
    decreases |ops|
  {
    if ops != [] {
      StepKeepsInv(t, ops[0]);
      RunKeepsInv(Step(t, ops[0]), ops[1..], t');
    }
  }

  /** Only the mount report puts zones in the implicitly open condition, so runs without it never refuse. */
  lemma {:induction false} NoImplicitOpens(t: Table, op: Op)
    requires Enabled(t, op) && forall z :: 0 <= z < |t.zones| ==> t.zones[z].cond != ImpOpen
    ensures |Step(t, op).zones| == |t.zones|
    ensures forall z :: 0 <= z < |t.zones| ==> Step(t, op).zones[z].cond != ImpOpen
    ensures op.OpOpen? ==> !OpensTwice(t, op.z, op.dev)
  {
  }

  // ----- Completion order -----

  /** The block lies in the usable part of its zone. */
  predicate InCapacity(t: Table, a: int) {
    && InTable(t, a)
    && (a + 1) * SECTORS_PER_BLOCK <= t.capacity + t.zones[ZoneOf(t.zoneSize, a)].start
  }

  /** What the zone fields become under two validations does not depend on their order. */
  lemma WrittenCommutes(size: nat, zi: Zone, a: int, b: int)
    requires size >= SECTORS_PER_BLOCK
    ensures Written(size, Written(size, zi, a), b) == Written(size, Written(size, zi, b), a)
  {
    hide BitOf;
    assert zi.valid + {BitOf(size, a)} + {BitOf(size, b)} == zi.valid + {BitOf(size, b)} + {BitOf(size, a)};
  }

  lemma DropCommutes(t: Table, z: nat, y: nat)
    ensures Drop(Drop(t, z), y) == Drop(Drop(t, y), z)
  {
    hide Overwrite;
    OverwriteCommutes(t.openSlots, Ref(z), Ref(y));
    OverwriteCommutes(t.activeSlots, Ref(z), Ref(y));
    if z != y {
      DropOther(t.openSlots, z, y);
      DropOther(t.openSlots, y, z);
      DropOther(t.activeSlots, z, y);
      DropOther(t.activeSlots, y, z);
    }
  }

  lemma DropOther(list: seq<Slot>, z: nat, y: nat)
    requires z != y
    ensures Ref(y) in Overwrite(list, Ref(z), Null) <==> Ref(y) in list
  {
    Overwritten(list, Ref(z), Null, Ref(y));
  }

  /** A zone that is neither open nor active is in no slot. */
  lemma DropIdle(t: Table, z: nat)
    requires Inv(t) && z < |t.zones| && !IsActive(t.zones[z].cond)
    ensures Drop(t, z) == t
  {
    assert InSlots(t, z);
  }

  /** Validations in different zones do not see each other. */
  lemma ValidateElsewhere(t: Table, a: int, b: int)
    requires InTable(t, a) && InTable(t, b) && ZoneOf(t.zoneSize, a) != ZoneOf(t.zoneSize, b)
    ensures var z, y := ZoneOf(t.zoneSize, a), ZoneOf(t.zoneSize, b);
            var za, zb := Written(t.zoneSize, t.zones[z], a), Written(t.zoneSize, t.zones[y], b);
            var u := SetZone(SetZone(t, z, NewZone(t.capacity, za)), y, NewZone(t.capacity, zb));
            var v := if Filled(t.capacity, za) then Drop(u, z) else u;
            InTable(Validate(t, a), b)
            && Validate(Validate(t, a), b) == if Filled(t.capacity, zb) then Drop(v, y) else v
  {
    hide Overwrite, ZoneOf, BitOf, Written, Filled;
  }

  /** Two validations in one zone: it is dropped once, if the second one leaves it filled. */
  lemma ValidateTwice(t: Table, a: int, b: int)
    requires Inv(t) && InCapacity(t, a) && InCapacity(t, b) && ZoneOf(t.zoneSize, a) == ZoneOf(t.zoneSize, b)
    ensures var z := ZoneOf(t.zoneSize, a);
            var zi := Written(t.zoneSize, Written(t.zoneSize, t.zones[z], a), b);
            InTable(Validate(t, a), b)
            && Validate(Validate(t, a), b)
            == if Filled(t.capacity, zi) then Drop(SetZone(t, z, NewZone(t.capacity, zi)), z) else SetZone(t, z, zi)
  {
    hide Overwrite, ZoneOf, BitOf, Inv;
    var z := ZoneOf(t.zoneSize, a);
    var za := Written(t.zoneSize, t.zones[z], a);
    var t1 := Validate(t, a);
    ValidateKeepsInv(t, a);
    if Filled(t.capacity, za) {
      var zb := Written(t.zoneSize, za.(cond := Full), b);
      assert zb.wp == za.wp && Filled(t.capacity, zb);
      DropIdle(t1, z);
      assert Validate(t1, b) == Drop(SetZone(t1, z, zb), z) == SetZone(Drop(t1, z), z, zb);
    }
  }

  /** Validating two blocks gives the same table in either order. */
  lemma ValidateCommutes(t: Table, a: int, b: int)
    requires Inv(t) && InCapacity(t, a) && InCapacity(t, b)
    ensures InTable(Validate(t, a), b) && InTable(Validate(t, b), a)
    ensures Validate(Validate(t, a), b) == Validate(Validate(t, b), a)
  {
    hide Overwrite, Inv, Drop, Written, Filled, ZoneOf, BitOf;
    var z, y := ZoneOf(t.zoneSize, a), ZoneOf(t.zoneSize, b);
    if z != y {
      ValidateElsewhere(t, a, b);
      ValidateElsewhere(t, b, a);
      var za := NewZone(t.capacity, Written(t.zoneSize, t.zones[z], a));
      var zb := NewZone(t.capacity, Written(t.zoneSize, t.zones[y], b));
      assert SetZone(SetZone(t, z, za), y, zb) == SetZone(SetZone(t, y, zb), z, za) by {
        assert t.zones[z := za][y := zb] == t.zones[y := zb][z := za];
      }
      DropCommutes(SetZone(SetZone(t, z, za), y, zb), z, y);
    } else {
      ValidateTwice(t, a, b);
      ValidateTwice(t, b, a);
      WrittenCommutes(t.zoneSize, t.zones[z], a, b);
    }
  }

  lemma ValidateKeepsShape(t: Table, a: int, b: int)
    requires InTable(t, a)
    ensures |Validate(t, a).zones| == |t.zones|
    ensures InTable(Validate(t, a), b) <==> InTable(t, b)
    ensures InCapacity(Validate(t, a), b) <==> InCapacity(t, b)
  {
    hide Overwrite, ZoneOf, BitOf;
  }

  predicate AllInCapacity(t: Table, s: seq<int>) {
    forall i :: 0 <= i < |s| ==> InCapacity(t, s[i])
  }

  /** The completions `s`, in order. */
  function ValidateAll(t: Table, s: seq<int>): Table
    requires AllInCapacity(t, s)
    decreases |s|
  {
    if s == [] then t
    else
      FrontShape(t, s);
      ValidateAll(Validate(t, s[0]), s[1..])
  }

  lemma FrontShape(t: Table, s: seq<int>)
    requires AllInCapacity(t, s) && s != []
    ensures InTable(t, s[0]) && AllInCapacity(Validate(t, s[0]), s[1..])
  {
    hide Validate, InTable;
    forall i | 0 <= i < |s| - 1 ensures InCapacity(Validate(t, s[0]), s[1..][i]) {
      ValidateKeepsShape(t, s[0], s[i + 1]);
    }
  }

  /** A completion may be moved to the front. */
  lemma {:induction false} ValidateToFront(t: Table, s: seq<int>, k: nat)
    requires Inv(t) && AllInCapacity(t, s) && k < |s|
    ensures AllInCapacity(t, [s[k]] + s[..k] + s[k + 1..])
    ensures ValidateAll(t, s) == ValidateAll(t, [s[k]] + s[..k] + s[k + 1..])
    decreases |s|
  {
    hide Inv, Validate, InCapacity, InTable, AllInCapacity, ValidateAll;
    var x, y, u := s[0], s[k], s[1..];
    assert s == [x] + u;
    if k == 0 {
      assert [y] + s[..k] + s[k + 1..] == s;
    } else {
      var inner := u[..k - 1] + u[k..];
      ValidateCons(t, x, u);
      ValidateKeepsInv(t, x);
      ValidateToFront(Validate(t, x), u, k - 1);
      assert [u[k - 1]] + u[..k - 1] + u[k..] == [y] + inner;
      ValidateCons(Validate(t, x), y, inner);
      AllMember(t, s, 0);
      AllMember(t, s, k);
      ValidateCommutes(t, x, y);
      AllUnshift(t, x, [y] + inner);
      AllSwap(t, x, y, inner);
      ValidateCons(t, y, [x] + inner);
      ValidateCons(Validate(t, y), x, inner);
      assert [y] + s[..k] + s[k + 1..] == [y] + ([x] + inner);
    }
  }

  lemma ValidateCons(t: Table, x: int, rest: seq<int>)
    requires AllInCapacity(t, [x] + rest)
    ensures InTable(t, x) && AllInCapacity(Validate(t, x), rest)
    ensures ValidateAll(t, [x] + rest) == ValidateAll(Validate(t, x), rest)
  {
    hide Validate, InTable;
    assert ([x] + rest)[1..] == rest;
    FrontShape(t, [x] + rest);
  }

  lemma AllMember(t: Table, s: seq<int>, i: nat)
    requires AllInCapacity(t, s) && i < |s|
    ensures InCapacity(t, s[i])
  {
  }

  lemma AllUnshift(t: Table, x: int, s: seq<int>)
    requires InCapacity(t, x) && AllInCapacity(Validate(t, x), s)
    ensures AllInCapacity(t, [x] + s)
  {
    hide Validate, InTable;
    forall i | 0 <= i < |[x] + s| ensures InCapacity(t, ([x] + s)[i]) {
      if i > 0 {
        ValidateKeepsShape(t, x, s[i - 1]);
      }
    }
  }

  lemma AllSwap(t: Table, x: int, y: int, s: seq<int>)
    requires AllInCapacity(t, [x] + ([y] + s))
    ensures AllInCapacity(t, [y] + ([x] + s))
  {
    forall i | 0 <= i < |s| + 2 ensures InCapacity(t, ([y] + ([x] + s))[i]) {
      assert InCapacity(t, ([x] + ([y] + s))[if i < 2 then 1 - i else i]);
    }
  }

  /**
   * Completion order does not matter: any two orders of the same completions leave the same
   * bitmaps, counters, write pointers, conditions and slot arrays.
   */
  lemma {:induction false} CompletionOrder(t: Table, s: seq<int>, r: seq<int>)
    requires Inv(t) && AllInCapacity(t, s) && AllInCapacity(t, r) && multiset(s) == multiset(r)
    ensures ValidateAll(t, s) == ValidateAll(t, r)
    decreases |s|
  {
    if s == [] {
      assert |multiset(r)| == 0;
    } else {
      assert s[0] in multiset(s);
      var k :| 0 <= k < |r| && r[k] == s[0];
      ValidateToFront(t, r, k);
      var rest := r[..k] + r[k + 1..];
      assert [r[k]] + r[..k] + r[k + 1..] == [s[0]] + rest;
      hide Inv, Validate, InTable, AllInCapacity, ValidateAll;
      assert s == [s[0]] + s[1..];
      ValidateCons(t, s[0], s[1..]);
      ValidateCons(t, s[0], rest);
      SameRest(s, r, k);
      ValidateKeepsInv(t, s[0]);
      CompletionOrder(Validate(t, s[0]), s[1..], rest);
    }
  }

  lemma SameRest(s: seq<int>, r: seq<int>, k: nat)
    requires s != [] && k < |r| && r[k] == s[0] && multiset(s) == multiset(r)
    ensures multiset(s[1..]) == multiset(r[..k] + r[k + 1..])
  {
    assert s == [s[0]] + s[1..];
    assert r == (r[..k] + [r[k]]) + r[k + 1..];
    assert multiset(r[..k] + [r[k]]) == multiset(r[..k]) + multiset{r[k]};
    assert multiset(r) == multiset(r[..k]) + multiset{r[k]} + multiset(r[k + 1..]);
    assert multiset(s) == multiset{s[0]} + multiset(s[1..]);
    assert multiset(r[..k] + r[k + 1..]) == multiset(r[..k]) + multiset(r[k + 1..]);
    assert multiset(s[1..]) == multiset(s) - multiset{s[0]};
    assert multiset(r[..k] + r[k + 1..]) == multiset(r) - multiset{s[0]};
  }

  lemma {:induction false} StaysFull(t: Table, s: seq<int>, z: nat)
    requires AllInCapacity(t, s) && z < |t.zones| && t.zones[z].cond == Full
    ensures z < |ValidateAll(t, s).zones| && ValidateAll(t, s).zones[z].cond == Full
    decreases |s|
  {
    hide ZoneOf, BitOf, Overwrite;
    if s != [] {
      FrontShape(t, s);
      StaysFull(Validate(t, s[0]), s[1..], z);
    }
  }

  /** The block ends exactly at the capacity of zone `z`. */
  predicate IsLastBlock(t: Table, z: nat, a: int)
    requires z < |t.zones|
  {
    InTable(t, a) && ZoneOf(t.zoneSize, a) == z && (a + 1) * SECTORS_PER_BLOCK == t.capacity + t.zones[z].start
  }

  /** A zone with room turns FULL iff its last block is among the completions. */
  lemma {:induction false} FullIffLastBlock(t: Table, s: seq<int>, z: nat)
    requires AllInCapacity(t, s) && z < |t.zones|
    requires t.zones[z].cond != Full && t.zones[z].wp < t.capacity + t.zones[z].start
    ensures z < |ValidateAll(t, s).zones|
    ensures ValidateAll(t, s).zones[z].cond == Full <==> exists i :: 0 <= i < |s| && IsLastBlock(t, z, s[i])
    decreases |s|
  {
    hide ZoneOf, BitOf, Overwrite;
    if s != [] {
      var t' := Validate(t, s[0]);
      FrontShape(t, s);
      if IsLastBlock(t, z, s[0]) {
        StaysFull(t', s[1..], z);
      } else {
        FullIffLastBlock(t', s[1..], z);
        forall i | 0 <= i < |s| ensures i > 0 ==> (IsLastBlock(t, z, s[i]) <==> IsLastBlock(t', z, s[1..][i - 1])) {
          if i > 0 {
            ValidateKeepsShape(t, s[0], s[i]);
          }
        }
      }
    }
  }
}
