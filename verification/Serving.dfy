/**
 * One page written at a time: while the drive has room, the pipeline can serve the write of any page, and
 * afterwards it still has room for one write less.
 */
module Serving {
  import opened Layout
  import opened ZoneTable
  import opened ZoneAlloc
  import opened WritePipeline

  /** A drive that opens every zone it is asked to open. */
  function Yes(): nat -> bool {
    k => true
  }

  ghost function Spare(t: Table): set<int> {
    set z | 2 <= z < |t.zones| && t.zones[z].cond == Empty
  }

  /** The last block of a zone is left out, so no zone fills up. */
  predicate Inside(t: Table, a: int) {
    InCapacity(t, a) && (a + 1) * SECTORS_PER_BLOCK < t.capacity + t.zones[ZoneOf(t.zoneSize, a)].start
  }

  predicate NoneFull(t: Table) {
    forall z :: 0 <= z < |t.zones| ==> t.zones[z].cond != Full && t.zones[z].wp < t.capacity + t.zones[z].start
  }

  /** Room for `n` writes, each of which may open a zone. */
  ghost predicate Roomy<B>(s: Io<B>, n: nat) {
    && NoneFull(s.t) && |Spare(s.t)| >= n
    && s.t.openedCount + n <= |s.t.openSlots| && s.t.activeCount + n <= |s.t.activeSlots|
    && (|s.dev| + n + 1) * SECTORS_PER_BLOCK < s.t.capacity
  }

  /** With room there is an answer to every submission. */
  lemma CanServe<B>(s: Io<B>, p: Page, n: nat)
    requires Safe(s) && Roomy(s, n) && n > 0 && p !in s.flights
    ensures CanSubmit(s, p, Yes())
  {
    var t, a, ty := s.t, AddrOf(s, p), PageType(p);
    assert TableOk(t) && OwnerOk(s, p);
    InTableOrZero(s, p);
    hide Inv, WpSane, Geometry, ZoneOf, Halts, OwnerOk, Safe;
    var z :| z in Spare(t);
    assert HasEmpty(t);
    GetEmptyFinds(t);
    assert Yes()(0);
    assert CanSettle(t, ty, Yes());
    HaltsIff(t, ty, Yes());
  }

  lemma InTableOrZero<B>(s: Io<B>, p: Page)
    requires Safe(s)
    ensures InTable(s.t, AddrOf(s, p))
    ensures AddrOf(s, p) != 0 ==> 2 <= ZoneOf(s.t.zoneSize, AddrOf(s, p))
  {
    assert OwnerOk(s, p);
    hide Inv, WpSane;
    if AddrOf(s, p) == 0 {
      ZeroIsNowhere(s.t.zoneSize);
    } else {
      InCapacityInTable(s.t, AddrOf(s, p));
    }
  }

  /** Rewrites open no zone. */
  lemma RewritesStay<B>(s: Io<B>, p: Page, n: nat)
    requires Safe(s) && Roomy(s, n)
    ensures InTable(s.t, AddrOf(s, p)) && (NeedsZone(s.t, AddrOf(s, p)) <==> AddrOf(s, p) == 0)
  {
    InTableOrZero(s, p);
    hide Safe;
    if AddrOf(s, p) == 0 {
      ZeroIsNowhere(s.t.zoneSize);
    }
  }

  // ----- Submission -----

  /** What choosing a zone may cost: one spare zone and one slot. */
  ghost predicate Costs(t: Table, u: Table) {
    && |u.zones| == |t.zones| && u.zoneSize == t.zoneSize && u.capacity == t.capacity
    && |u.openSlots| == |t.openSlots| && u.openedCount <= t.openedCount + 1
    && |u.activeSlots| == |t.activeSlots| && u.activeCount <= t.activeCount + 1
    && |Spare(u)| >= |Spare(t)| - 1
    && (NoneFull(t) ==> NoneFull(u))
  }

  lemma GetZoneCosts(t: Table, ty: int, dev: nat -> bool)
    requires TableOk(t) && IsType(ty) && Halts(t, ty, dev) && (WantsEmpty(t, ty) ==> HasEmpty(t))
    ensures Costs(t, GetZone(t, ty, dev).0)
  {
    var u := GetZone(t, ty, dev).0;
    GetZoneShape(t, ty, dev);
    hide Inv, WpSane, Geometry, GetZone, Halts, WantsEmpty, Tried, Opened, Costs, Spare, NoneFull;
    SameCosts(t);
    if Tried(t, u, ty) {
      TriedCosts(t, u, ty);
    } else if Opened(t, u, ty) {
      OpenedCosts(t, u, ty);
    }
  }

  lemma SameCosts(t: Table)
    ensures Costs(t, t)
  {
  }

  lemma TriedCosts(t: Table, u: Table, ty: int)
    requires Shape(t) && Tried(t, u, ty)
    ensures Costs(t, u)
  {
    hide GetEmpty;
    assert Spare(u) == Spare(t);
  }

  lemma OpenedCosts(t: Table, u: Table, ty: int)
    requires Shape(t) && IsType(ty) && Opened(t, u, ty)
    ensures Costs(t, u)
  {
    var e := GetEmpty(t);
    hide GetEmpty;
    SpareLess(t, u, e);
  }

  lemma SpareLess(t: Table, u: Table, e: int)
    requires |u.zones| == |t.zones|
    requires forall z :: 0 <= z < |t.zones| && z != e ==> u.zones[z].cond == t.zones[z].cond
    ensures |Spare(u)| >= |Spare(t)| - 1
  {
    SubsetSize(Spare(t) - {e}, Spare(u));
  }

  lemma InvalidateCosts(t: Table, a: int)
    requires InTable(t, a)
    ensures Costs(t, Invalidate(t, a)) && Spare(Invalidate(t, a)) == Spare(t)
    ensures Invalidate(t, a).openedCount == t.openedCount && Invalidate(t, a).activeCount == t.activeCount
  {
    hide ZoneOf, BitOf;
    assert Spare(Invalidate(t, a)) == Spare(t);
  }

  lemma SubmitCosts<B>(s: Io<B>, p: Page, dev: nat -> bool)
    requires TableOk(s.t) && CanSubmit(s, p, dev)
    ensures Costs(s.t, Submit(s, p, dev).t)
  {
    var t, a := s.t, AddrOf(s, p);
    hide ZoneOf, BitOf, TableOk, Costs, GetZone, Halts, WantsEmpty, HasEmpty, Invalidate, Spare, NoneFull;
    if NeedsZone(t, a) {
      var u := GetZone(t, PageType(p), dev).0;
      GetZoneCosts(t, PageType(p), dev);
      InvalidateCosts(u, a);
      CostsThen(t, u, Invalidate(u, a));
    } else {
      InvalidateCosts(t, a);
    }
  }

  lemma CostsThen(t: Table, u: Table, v: Table)
    requires Costs(t, u) && Costs(u, v) && Spare(v) == Spare(u)
    requires v.openedCount == u.openedCount && v.activeCount == u.activeCount
    ensures Costs(t, v)
  {
  }

  // ----- The append -----

  ghost function BlocksOf(b: nat, z: int, n: nat): (r: set<int>)
    ensures |r| == n && forall a :: a in r <==> z * b <= a < z * b + n
  {
    if n == 0 then {} else BlocksOf(b, z, n - 1) + {z * b + n - 1}
  }

  /** A zone has a fresh block that is not its last. */
  lemma FreshBlock<B>(t: Table, dev: map<int, B>, z: int) returns (a: int)
    requires Geometry(t) && 2 <= z < |t.zones| && (|dev| + 1) * SECTORS_PER_BLOCK < t.capacity
    ensures a !in dev && Inside(t, a) && ZoneOf(t.zoneSize, a) == z
  {
    var b, n := t.zoneSize / SECTORS_PER_BLOCK, |dev| + 1;
    var blocks := BlocksOf(b, z, n);
    if forall x :: x in blocks ==> x in dev {
      SubsetSize(blocks, dev.Keys);
      assert false;
    }
    a :| a in blocks && a !in dev;
    BlockInside(t, z, a, n);
  }

  lemma BlockInside(t: Table, z: int, a: int, n: nat)
    requires Geometry(t) && 2 <= z < |t.zones| && n * SECTORS_PER_BLOCK < t.capacity
    requires var b := t.zoneSize / SECTORS_PER_BLOCK; z * b <= a < z * b + n
    ensures Inside(t, a) && ZoneOf(t.zoneSize, a) == z
  {
    var b := t.zoneSize / SECTORS_PER_BLOCK;
    assert t.zoneSize == b * SECTORS_PER_BLOCK;
    InZone(b, z, a);
    Sectors(z, b);
    NonNegative(z, b);
  }

  lemma Sectors(z: int, b: int)
    ensures z * (b * SECTORS_PER_BLOCK) == (z * b) * SECTORS_PER_BLOCK
  {
  }

  lemma NonNegative(z: int, b: int)
    requires z >= 0 && b >= 0
    ensures z * b >= 0
  {
  }

  lemma InZone(b: int, z: int, a: int)
    requires b > 0 && z * b <= a < z * b + b
    ensures a / b == z
  {
    var d, r := a / b, a % b;
    var x := d - z;
    assert a == d * b + r;
    assert x * b == d * b - z * b;
    AtLeast(x, b);
    AtLeast(-x, b);
    assert (-x) * b == -(x * b);
  }

  lemma AtLeast(x: int, b: int)
    requires b > 0
    ensures x >= 1 ==> x * b >= b
  {
  }

  /** After the submission the drive can land the write on a fresh block inside the zone. */
  lemma CanLandServed<B>(s: Io<B>, p: Page, n: nat) returns (a: int)
    requires Safe(s) && Roomy(s, n) && n > 0 && p !in s.flights && CanSubmit(s, p, Yes())
    ensures CanLand(Submit(s, p, Yes()), p, a) && Inside(Submit(s, p, Yes()).t, a)
  {
    var s' := Submit(s, p, Yes());
    assert TableOk(s.t);
    SubmitSafe(s, p, Yes());
    SubmittedZone(s, p, Yes());
    SubmitCosts(s, p, Yes());
    assert TableOk(s'.t);
    hide Inv, WpSane, Geometry, Safe, Submit, ZoneOf, Spare;
    assert s'.dev == s.dev && s'.flights[p].Queued? by {
      QueuedNow(s, p);
    }
    a := FreshBlock(s'.t, s'.dev, s'.flights[p].zone);
  }

  lemma QueuedNow<B>(s: Io<B>, p: Page)
    requires CanSubmit(s, p, Yes())
    ensures var s' := Submit(s, p, Yes()); s'.dev == s.dev && p in s'.flights && s'.flights[p].Queued?
  {
  }

  // ----- The whole write -----

  /** Submit, append, complete. */
  ghost function Served<B>(s: Io<B>, p: Page, dev: nat -> bool, a: int, content: B): Io<B>
    requires CanSubmit(s, p, dev) && CanLand(Submit(s, p, dev), p, a)
  {
    var s2 := Land(Submit(s, p, dev), p, a, content);
    InCapacityInTable(s2.t, a);
    Complete(s2, p)
  }

  lemma ServedRoomy<B>(s: Io<B>, p: Page, a: int, content: B, n: nat)
    requires Safe(s) && Roomy(s, n) && n > 0 && p !in s.flights && CanSubmit(s, p, Yes())
    requires CanLand(Submit(s, p, Yes()), p, a) && Inside(Submit(s, p, Yes()).t, a)
    ensures Roomy(Served(s, p, Yes(), a, content), n - 1)
  {
    var s1 := Submit(s, p, Yes());
    var u := Validate(s1.t, a);
    assert TableOk(s.t);
    SubmitCosts(s, p, Yes());
    SubmitDev(s, p);
    hide TableOk, Submit, Safe;
    InsideStays(s1.t, a);
    hide Validate, ZoneOf, BitOf, Inside, CanSubmit;
    assert |s.dev[a := content]| <= |s.dev| + 1;
  }

  lemma SubmitDev<B>(s: Io<B>, p: Page)
    requires CanSubmit(s, p, Yes())
    ensures Submit(s, p, Yes()).dev == s.dev
  {
  }

  lemma InsideStays(t: Table, a: int)
    requires NoneFull(t) && Inside(t, a)
    ensures var u := Validate(t, a);
            && NoneFull(u) && Spare(u) == Spare(t) && u.capacity == t.capacity
            && u.openedCount == t.openedCount && u.openSlots == t.openSlots
            && u.activeCount == t.activeCount && u.activeSlots == t.activeSlots
  {
    hide ZoneOf, BitOf;
    assert Spare(Validate(t, a)) == Spare(t);
  }
}
