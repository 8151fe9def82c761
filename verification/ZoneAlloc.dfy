/** Choosing a zone for an append: `get_empty_zone`, `get_zone` and `alloc_zone`. */
module ZoneAlloc {
  import opened ZoneTable

  /** Page types and zone types are the same numbers: META_NODE, META_DATA, REG_NODE, REG_DATA. */
  predicate IsType(ty: int) {
    1 <= ty <= 4
  }

  /** The table has zones 0 and 1 for the superblock, and a counter and a limit for every zone type. */
  predicate Shape(t: Table) {
    && |t.zones| >= 2 && t.zoneSize >= SECTORS_PER_BLOCK
    && |t.nrType| == 5 && |t.limitType| == 5
  }

  function FirstEmpty(t: Table, i: nat): (z: nat)
    requires Shape(t)
    ensures z < |t.zones|
    ensures z != 0 ==> i <= z && t.zones[z].cond == Empty
    decreases |t.zones| - i
  {
    if i >= |t.zones| then 0 else if t.zones[i].cond == Empty then i else FirstEmpty(t, i + 1)
  }

  /** `get_empty_zone`: zones 0 and 1 are skipped; 0 when there is none. */
  function GetEmpty(t: Table): (z: nat)
    requires Shape(t)
    ensures z < |t.zones|
    ensures z != 0 ==> 2 <= z && t.zones[z].cond == Empty
  {
    FirstEmpty(t, 2)
  }

  ghost predicate HasEmpty(t: Table) {
    exists z :: 2 <= z < |t.zones| && t.zones[z].cond == Empty
  }

  lemma {:induction false} FirstEmptyFinds(t: Table, i: nat, z: nat)
    requires Shape(t) && 0 < i <= z < |t.zones| && t.zones[z].cond == Empty
    ensures FirstEmpty(t, i) != 0
    decreases |t.zones| - i
  {
    if t.zones[i].cond != Empty {
      FirstEmptyFinds(t, i + 1, z);
    }
  }

  lemma GetEmptyFinds(t: Table)
    requires Shape(t)
    ensures GetEmpty(t) != 0 <==> HasEmpty(t)
  {
    if HasEmpty(t) {
      var z :| 2 <= z < |t.zones| && t.zones[z].cond == Empty;
      FirstEmptyFinds(t, 2, z);
    }
  }

  lemma {:induction false} FirstEmptyIsFirst(t: Table, i: nat, k: nat)
    requires Shape(t) && 0 < i <= k < |t.zones| && (FirstEmpty(t, i) != 0 ==> k < FirstEmpty(t, i))
    ensures t.zones[k].cond != Empty
    decreases |t.zones| - i
  {
    if i < k {
      FirstEmptyIsFirst(t, i + 1, k);
    }
  }

  /** No empty zone lies before the one found, and none at all from zone 2 on when none is found. */
  lemma GetEmptyIsFirst(t: Table)
    requires Shape(t)
    ensures forall k :: 2 <= k < (if GetEmpty(t) != 0 then GetEmpty(t) else |t.zones|) ==> t.zones[k].cond != Empty
  {
    forall k | 2 <= k < (if GetEmpty(t) != 0 then GetEmpty(t) else |t.zones|) ensures t.zones[k].cond != Empty {
      FirstEmptyIsFirst(t, 2, k);
    }
  }

  // ----- The scan of the opened zones -----

  /** wp + write_inflight - start in unsigned 64-bit arithmetic; nothing ever adds to write_inflight. */
  function Offset(zi: Zone): int {
    (zi.wp - zi.start) % SECTOR_RANGE
  }

  predicate Typed(t: Table, ty: int, x: Slot) {
    x.Ref? && x.id < |t.zones| && t.zones[x.id].ztype == ty
  }

  predicate Candidate(t: Table, ty: int, x: Slot) {
    Typed(t, ty, x) && Offset(t.zones[x.id]) < LONG_MAX
  }

  /** The scan of `get_zone` from slot `i` on; after a hit only smaller offsets than its `wp` replace it. */
  function ScanFrom(t: Table, ty: int, i: nat, inflight: int, tar: Slot): Slot
    requires i <= |t.openSlots|
    decreases |t.openSlots| - i
  {
    if i == |t.openSlots| then tar
    else
      var x := t.openSlots[i];
      if Typed(t, ty, x) && Offset(t.zones[x.id]) < inflight
      then ScanFrom(t, ty, i + 1, t.zones[x.id].wp % SECTOR_RANGE, x)
      else ScanFrom(t, ty, i + 1, inflight, tar)
  }

  function Scan(t: Table, ty: int): Slot {
    ScanFrom(t, ty, 0, LONG_MAX, Null)
  }

  lemma {:induction false} ScanFromFinds(t: Table, ty: int, i: nat, inflight: int, tar: Slot)
    requires i <= |t.openSlots|
    ensures var r := ScanFrom(t, ty, i, inflight, tar);
            && (r == tar || (Typed(t, ty, r) && r in t.openSlots))
            && (tar != Null ==> r != Null)
            && (tar == Null && inflight == LONG_MAX ==>
                  (r == Null <==> forall j :: i <= j < |t.openSlots| ==> !Candidate(t, ty, t.openSlots[j])))
    decreases |t.openSlots| - i
  {
    if i < |t.openSlots| {
      var x := t.openSlots[i];
      if Typed(t, ty, x) && Offset(t.zones[x.id]) < inflight {
        ScanFromFinds(t, ty, i + 1, t.zones[x.id].wp % SECTOR_RANGE, x);
      } else {
        ScanFromFinds(t, ty, i + 1, inflight, tar);
      }
    }
  }

  /** The scan returns an opened zone of the type, and finds one exactly when there is a candidate. */
  lemma ScanFinds(t: Table, ty: int)
    ensures var r := Scan(t, ty);
            && (r != Null ==> Typed(t, ty, r) && r in t.openSlots)
            && (r == Null <==> forall x :: x in t.openSlots ==> !Candidate(t, ty, x))
  {
    ScanFromFinds(t, ty, 0, LONG_MAX, Null);
  }

  // ----- Which opened zone the scan selects -----

  /** Slot `k` holds a zone of the type whose distance from its start to its write pointer is below `bound`. */
  predicate Under(t: Table, ty: int, k: int, bound: int)
    requires 0 <= k < |t.openSlots|
  {
    var x := t.openSlots[k];
    x.Ref? && x.id < |t.zones| && t.zones[x.id].ztype == ty
    && (t.zones[x.id].wp - t.zones[x.id].start) % 0x1_0000_0000_0000_0000 < bound
  }

  /** What later slots must fall below once slot `k` was taken: its absolute write pointer. */
  function Bar(t: Table, k: int): int
    requires 0 <= k < |t.openSlots|
  {
    var x := t.openSlots[k];
    if x.Ref? && x.id < |t.zones| then t.zones[x.id].wp % 0x1_0000_0000_0000_0000 else 0
  }

  ghost predicate InSlotRange(t: Table, w: seq<int>, n: int) {
    n <= |t.openSlots| && forall m :: 0 <= m < |w| ==> 0 <= w[m] < n
  }

  function Before(w: seq<int>, m: int): int
    requires 0 <= m <= |w|
  {
    if m == 0 then -1 else w[m - 1]
  }

  /** What a slot must fall below after the first `m` were taken. */
  ghost function BarBefore(t: Table, w: seq<int>, m: int): int
    requires InSlotRange(t, w, |t.openSlots|) && 0 <= m <= |w|
  {
    if m == 0 then 0x7fff_ffff_ffff_ffff else Bar(t, w[m - 1])
  }

  /** None of the slots between `last` and `n` falls below. */
  ghost predicate NoneUnder(t: Table, ty: int, last: int, n: int, bound: int)
    requires -1 <= last && n <= |t.openSlots|
  {
    forall j :: last < j < n ==> !Under(t, ty, j, bound)
  }

  /** The slot taken as number `m` is the next one that falls below what counts then. */
  ghost predicate TakesAt(t: Table, ty: int, w: seq<int>, m: int)
    requires InSlotRange(t, w, |t.openSlots|) && 0 <= m < |w|
  {
    && Before(w, m) < w[m] && Under(t, ty, w[m], BarBefore(t, w, m))
    && NoneUnder(t, ty, Before(w, m), w[m], BarBefore(t, w, m))
  }

  /**
   * The slots taken one after the other among the first `n`: the first whose distance is below 2^63 - 1, then
   * always the next whose distance is below the absolute write pointer of the one before.
   */
  ghost predicate Winners(t: Table, ty: int, w: seq<int>, n: int)
    requires 0 <= n <= |t.openSlots|
  {
    && InSlotRange(t, w, n) && InSlotRange(t, w, |t.openSlots|)
    && (forall m {:trigger TakesAt(t, ty, w, m)} :: 0 <= m < |w| ==> TakesAt(t, ty, w, m))
    && NoneUnder(t, ty, Before(w, |w|), n, BarBefore(t, w, |w|))
  }

  lemma {:induction false} ScanFromWinners(t: Table, ty: int, i: nat, inflight: int, tar: Slot, w: seq<int>)
      returns (v: seq<int>)
    requires i <= |t.openSlots| && Winners(t, ty, w, i)
    requires inflight == BarBefore(t, w, |w|) && tar == if w == [] then Null else t.openSlots[w[|w| - 1]]
    ensures Winners(t, ty, v, |t.openSlots|)
    ensures ScanFrom(t, ty, i, inflight, tar) == if v == [] then Null else t.openSlots[v[|v| - 1]]
    decreases |t.openSlots| - i
  {
    if i == |t.openSlots| {
      v := w;
    } else {
      var x := t.openSlots[i];
      if Typed(t, ty, x) && Offset(t.zones[x.id]) < inflight {
        assert Under(t, ty, i, inflight);
        WinnersTake(t, ty, w, i);
        v := ScanFromWinners(t, ty, i + 1, t.zones[x.id].wp % SECTOR_RANGE, x, w + [i]);
      } else {
        v := ScanFromWinners(t, ty, i + 1, inflight, tar, w);
      }
    }
  }

  lemma WinnersTake(t: Table, ty: int, w: seq<int>, i: int)
    requires 0 <= i < |t.openSlots| && Winners(t, ty, w, i) && Under(t, ty, i, BarBefore(t, w, |w|))
    ensures Winners(t, ty, w + [i], i + 1)
  {
    var u := w + [i];
    forall m | 0 <= m < |u| ensures TakesAt(t, ty, u, m) {
      assert Before(u, m) == Before(w, m) && BarBefore(t, u, m) == BarBefore(t, w, m);
      if m < |w| {
        assert TakesAt(t, ty, w, m);
      }
    }
  }

  /** The scan returns the last slot taken, and nothing if none is. */
  lemma ScanWinners(t: Table, ty: int) returns (w: seq<int>)
    ensures Winners(t, ty, w, |t.openSlots|)
    ensures Scan(t, ty) == if w == [] then Null else t.openSlots[w[|w| - 1]]
  {
    w := ScanFromWinners(t, ty, 0, LONG_MAX, Null, []);
  }

  lemma {:induction false} WinnersAgree(t: Table, ty: int, w: seq<int>, v: seq<int>, m: nat)
    requires Winners(t, ty, w, |t.openSlots|) && Winners(t, ty, v, |t.openSlots|) && m <= |w| && m <= |v|
    ensures w[..m] == v[..m] && Before(w, m) == Before(v, m) && BarBefore(t, w, m) == BarBefore(t, v, m)
  {
    if m > 0 {
      WinnersAgree(t, ty, w, v, m - 1);
      assert TakesAt(t, ty, w, m - 1) && TakesAt(t, ty, v, m - 1);
      assert w[m - 1] == v[m - 1];
      assert w[..m] == w[..m - 1] + [w[m - 1]] && v[..m] == v[..m - 1] + [v[m - 1]];
    }
  }

  /** Which slots are taken is determined. */
  lemma WinnersUnique(t: Table, ty: int, w: seq<int>, v: seq<int>)
    requires Winners(t, ty, w, |t.openSlots|) && Winners(t, ty, v, |t.openSlots|)
    ensures w == v
  {
    assert w[..|w|] == w && v[..|v|] == v;
    if |w| < |v| {
      NextTaken(t, ty, v, |w|);
    } else if |v| < |w| {
      NextTaken(t, ty, w, |v|);
    }
    WinnersAgree(t, ty, w, v, if |w| <= |v| then |w| else |v|);
  }

  lemma NextTaken(t: Table, ty: int, w: seq<int>, m: nat)
    requires Winners(t, ty, w, |t.openSlots|) && m < |w|
    ensures TakesAt(t, ty, w, m)
  {
  }

  // ----- The retry loop -----

  /** The open block of `get_zone`: the type and the counter change even if the open fails. */
  function OpenMore(t: Table, ty: int, dev: bool): Table
    requires Shape(t) && IsType(ty)
  {
    if t.openedCount < |t.openSlots| then
      var e := GetEmpty(t);
      var t1 := Open(t, e, dev).0;
      t1.(zones := t1.zones[e := t1.zones[e].(ztype := ty)],
          nrType := t1.nrType[ty := t1.nrType[ty] + 1],
          restart := t1.restart || t1.cpLocked)
    else t
  }

  /** The table after `n` passes through the open block; `dev` gives the device's successive answers. */
  function Passes(t: Table, ty: int, dev: nat -> bool, n: nat): (u: Table)
    requires Shape(t) && IsType(ty)
    ensures Shape(u) && |u.zones| == |t.zones| && u.zoneSize == t.zoneSize
  {
    if n == 0 then t else OpenMore(Passes(t, ty, dev, n - 1), ty, dev(n - 1))
  }

  /** Below the limit of its type `get_zone` enters at the open block, otherwise at the scan. */
  function Entry(t: Table, ty: int): nat
    requires Shape(t) && IsType(ty)
  {
    if t.nrType[ty] < t.limitType[ty] then 1 else 0
  }

  /** Pass `n` is the first scan that finds a zone. */
  ghost predicate Stops(t: Table, ty: int, dev: nat -> bool, n: nat)
    requires Shape(t) && IsType(ty)
  {
    && Entry(t, ty) <= n
    && Scan(Passes(t, ty, dev, n), ty) != Null
    && forall k :: Entry(t, ty) <= k < n ==> Scan(Passes(t, ty, dev, k), ty) == Null
  }

  ghost predicate Halts(t: Table, ty: int, dev: nat -> bool)
    requires Shape(t) && IsType(ty)
  {
    exists n: nat :: Stops(t, ty, dev, n)
  }

  lemma {:induction false} FirstHit(t: Table, ty: int, dev: nat -> bool, n: nat, k: nat)
    requires Shape(t) && IsType(ty) && Entry(t, ty) <= k <= n && Scan(Passes(t, ty, dev, n), ty) != Null
    requires forall j :: Entry(t, ty) <= j < k ==> Scan(Passes(t, ty, dev, j), ty) == Null
    ensures Halts(t, ty, dev)
    decreases n - k
  {
    hide Scan, Passes, Shape;
    if Scan(Passes(t, ty, dev, k), ty) != Null {
      assert Stops(t, ty, dev, k);
    } else {
      FirstHit(t, ty, dev, n, k + 1);
    }
  }

  lemma HaltsAt(t: Table, ty: int, dev: nat -> bool) returns (n: nat)
    requires Shape(t) && IsType(ty) && Halts(t, ty, dev)
    ensures Stops(t, ty, dev, n)
  {
    n :| Stops(t, ty, dev, n);
  }

  lemma StopsOnce(t: Table, ty: int, dev: nat -> bool, n: nat, m: nat)
    requires Shape(t) && IsType(ty) && Stops(t, ty, dev, n) && Stops(t, ty, dev, m)
    ensures n == m
  {
  }

  // ----- What the loop does -----

  /** Write pointers of zones that can be chosen are absolute. */
  ghost predicate WpSane(t: Table) {
    forall z :: 0 <= z < |t.zones| && (z == 0 || IsOpen(t.zones[z].cond) || t.zones[z].cond == Empty)
      ==> 0 <= t.zones[z].wp - t.zones[z].start < LONG_MAX
  }

  ghost predicate Good(t: Table) {
    Shape(t) && Inv(t) && WpSane(t)
  }

  /** With sane write pointers the scan misses no opened zone of the type. */
  lemma ScanIsExact(t: Table, ty: int)
    requires Good(t)
    ensures Scan(t, ty) == Null <==> forall z :: 0 <= z < |t.zones| && IsOpen(t.zones[z].cond) ==>
        t.zones[z].ztype != ty
    ensures Scan(t, ty).Ref? ==> Scan(t, ty).id < |t.zones| && IsOpen(t.zones[Scan(t, ty).id].cond)
                                 && t.zones[Scan(t, ty).id].ztype == ty
  {
    ScanFinds(t, ty);
    forall z | 0 <= z < |t.zones| ensures Ref(z) in t.openSlots <==> IsOpen(t.zones[z].cond) {
      assert InSlots(t, z);
    }
  }

  /** `u` is `t` after attempts that opened nothing: only the type of the zone tried, its counter and the flag moved. */
  ghost predicate Tried(t: Table, u: Table, ty: int)
    requires Shape(t)
  {
    var e := GetEmpty(t);
    && |u.zones| == |t.zones| && |u.nrType| == 5 && IsType(ty)
    && u == t.(zones := t.zones[e := u.zones[e]], nrType := u.nrType, restart := u.restart)
    && u.zones[e] == t.zones[e].(ztype := u.zones[e].ztype)
    && u.zones[e].ztype in {t.zones[e].ztype, ty}
    && (t.restart ==> u.restart) && (u.restart ==> t.restart || t.cpLocked)
    && (forall k :: 0 <= k < 5 ==> u.nrType[k] >= t.nrType[k] && (k != ty ==> u.nrType[k] == t.nrType[k]))
  }

  lemma {:induction false} TriedEmpty(t: Table, u: Table, ty: int, i: nat)
    requires Shape(t) && Shape(u) && Tried(t, u, ty)
    ensures FirstEmpty(u, i) == FirstEmpty(t, i)
    decreases |t.zones| - i
  {
    if i < |t.zones| && t.zones[i].cond != Empty {
      TriedEmpty(t, u, ty, i + 1);
    }
  }

  lemma TriedGood(t: Table, u: Table, ty: int)
    requires Good(t) && Tried(t, u, ty)
    ensures Good(u) && GetEmpty(u) == GetEmpty(t)
  {
    TriedEmpty(t, u, ty, 2);
    forall z | 0 <= z < |u.zones| ensures InSlots(u, z) {
      assert InSlots(t, z);
    }
  }

  /** Whether a pass from `t` opens its zone when the device agrees. */
  predicate CanOpenMore(t: Table)
    requires Shape(t)
  {
    && t.openedCount < |t.openSlots| && t.activeCount < |t.activeSlots|
    && !IsOpen(t.zones[GetEmpty(t)].cond)
  }

  /** A pass that the bounds or the device stop opens nothing. */
  lemma TriedMore(t: Table, u: Table, ty: int, dev: bool)
    requires Good(t) && Tried(t, u, ty) && t.zones[GetEmpty(t)].cond != ImpOpen
    requires CanOpenMore(t) ==> !dev
    ensures Tried(t, OpenMore(u, ty, dev), ty)
    ensures t.openedCount < |t.openSlots| ==> OpenMore(u, ty, dev).zones[GetEmpty(t)].ztype == ty
    ensures t.openedCount < |t.openSlots| ==> OpenMore(u, ty, dev).nrType[ty] == u.nrType[ty] + 1
  {
    TriedEmpty(t, u, ty, 2);
  }

  lemma {:induction false} PassesTried(t: Table, ty: int, dev: nat -> bool, n: nat)
    requires Good(t) && IsType(ty) && t.zones[GetEmpty(t)].cond != ImpOpen
    requires CanOpenMore(t) ==> forall k: nat :: k < n ==> !dev(k)
    ensures Tried(t, Passes(t, ty, dev, n), ty)
    ensures n > 0 && t.openedCount < |t.openSlots| ==> Passes(t, ty, dev, n).zones[GetEmpty(t)].ztype == ty
    ensures t.openedCount < |t.openSlots| ==> Passes(t, ty, dev, n).nrType[ty] == t.nrType[ty] + n
  {
    if n > 0 {
      PassesTried(t, ty, dev, n - 1);
      TriedMore(t, Passes(t, ty, dev, n - 1), ty, dev(n - 1));
    } else {
      assert t.zones[GetEmpty(t) := t.zones[GetEmpty(t)]] == t.zones;
    }
  }

  /** A pass that opens its zone. */
  lemma OpenedMore(t: Table, u: Table, ty: int)
    requires Good(t) && Tried(t, u, ty) && CanOpenMore(t)
    ensures OpenMore(u, ty, true).zones
         == t.zones[GetEmpty(t) := t.zones[GetEmpty(t)].(cond := ExpOpen, ztype := ty, dirty := true)]
    ensures Good(OpenMore(u, ty, true)) && Scan(OpenMore(u, ty, true), ty) != Null
    ensures OpenMore(u, ty, true).nrType == u.nrType[ty := u.nrType[ty] + 1]
    ensures OpenMore(u, ty, true).restart == (u.restart || u.cpLocked)
  {
    hide Inv, Overwrite, InsertOpened, InsertActive, Offset;
    var e := GetEmpty(t);
    TriedGood(t, u, ty);
    OpenKeepsInv(u, e, true);
    var o, w := Open(u, e, true).0, OpenMore(u, ty, true);
    OpenFields(u, e);
    assert w.zones == t.zones[e := t.zones[e].(cond := ExpOpen, ztype := ty, dirty := true)];
    RetypeInv(o, w, e, ty);
    ScanIsExact(w, ty);
    assert w.zones[e].ztype == ty && IsOpen(w.zones[e].cond);
  }

  /** A successful open touches the slot arrays, the counters and its zone. */
  lemma OpenFields(t: Table, z: nat)
    requires z < |t.zones| && !IsOpen(t.zones[z].cond)
    requires t.openedCount != |t.openSlots| && t.activeCount != |t.activeSlots|
    ensures var o := Open(t, z, true).0;
            o == t.(zones := t.zones[z := t.zones[z].(cond := ExpOpen, dirty := true)], openSlots := o.openSlots,
                    openedCount := o.openedCount, activeSlots := o.activeSlots, activeCount := o.activeCount)
            && |o.openSlots| == |t.openSlots| && |o.activeSlots| == |t.activeSlots|
            && o.openedCount <= t.openedCount + 1 && o.activeCount <= t.activeCount + 1
  {
  }

  lemma RetypeInv(o: Table, w: Table, e: nat, ty: int)
    requires Inv(o) && e < |o.zones|
    requires w == o.(zones := o.zones[e := o.zones[e].(ztype := ty)], nrType := w.nrType, restart := w.restart)
    ensures Inv(w)
  {
    forall z | 0 <= z < |w.zones| ensures InSlots(w, z) {
      assert InSlots(o, z);
    }
  }

  /** The pass from `t` itself finds a zone of the type if there was one, or if zone 0 is open and no zone is empty. */
  lemma FirstPass(t: Table, ty: int, dev: bool)
    requires Good(t) && IsType(ty)
    requires Scan(t, ty) != Null || (t.openedCount < |t.openSlots| && IsOpen(t.zones[GetEmpty(t)].cond))
    ensures Scan(OpenMore(t, ty, dev), ty) != Null
  {
    var e, u := GetEmpty(t), OpenMore(t, ty, dev);
    ScanIsExact(t, ty);
    if t.openedCount < |t.openSlots| {
      assert t.zones[e := t.zones[e]] == t.zones;
      if CanOpenMore(t) && dev {
        OpenedMore(t, t, ty);
      } else if t.zones[e].cond == ImpOpen {
        ImpOpenPass(t, ty, dev);
      } else {
        TriedMore(t, t, ty, dev);
        TriedGood(t, u, ty);
        ScanIsExact(u, ty);
        var z := if Scan(t, ty) != Null then Scan(t, ty).id else e;
        assert IsOpen(u.zones[z].cond) && u.zones[z].ztype == ty;
      }
    }
  }

  /** With no empty zone left and zone 0 implicitly open, zone 0 itself is taken. */
  lemma ImpOpenPass(t: Table, ty: int, dev: bool)
    requires Good(t) && IsType(ty) && t.openedCount < |t.openSlots| && t.zones[GetEmpty(t)].cond == ImpOpen
    ensures Scan(OpenMore(t, ty, dev), ty) != Null
  {
    hide Inv, Scan, Overwrite;
    var u := OpenMore(t, ty, dev);
    SlotOfOpen(t, 0);
    Overwritten(t.openSlots, Null, Ref(0), Ref(0));
    assert Ref(0) in Overwrite(t.openSlots, Null, Ref(0)) by {
      assert multiset(Overwrite(t.openSlots, Null, Ref(0)))[Ref(0)] > 0;
    }
    assert u.zones[0].wp == t.zones[0].wp && u.zones[0].start == t.zones[0].start;
    assert Candidate(u, ty, Ref(0));
    ScanFinds(u, ty);
  }

  lemma SlotOfOpen(t: Table, z: nat)
    requires Inv(t) && z < |t.zones|
    ensures Ref(z) in t.openSlots <==> IsOpen(t.zones[z].cond)
  {
    assert InSlots(t, z);
  }

  /** What `get_zone` needs: an opened zone of the type, or a slot and a zone the device will open. */
  ghost predicate CanSettle(t: Table, ty: int, dev: nat -> bool)
    requires Shape(t) && IsType(ty)
  {
    || (exists z :: 0 <= z < |t.zones| && IsOpen(t.zones[z].cond) && t.zones[z].ztype == ty)
    || (t.openedCount < |t.openSlots|
        && (IsOpen(t.zones[GetEmpty(t)].cond) || (t.activeCount < |t.activeSlots| && exists k: nat :: dev(k))))
  }

  /** `get_zone` leaves its retry loop exactly then. */
  lemma HaltsIff(t: Table, ty: int, dev: nat -> bool)
    requires Good(t) && IsType(ty)
    ensures Halts(t, ty, dev) <==> CanSettle(t, ty, dev)
  {
    hide Inv, WpSane, Tried, OpenMore, Scan, Offset;
    ScanIsExact(t, ty);
    var e := GetEmpty(t);
    if Scan(t, ty) != Null || (t.openedCount < |t.openSlots| && IsOpen(t.zones[e].cond)) {
      FirstPass(t, ty, dev(0));
      assert Passes(t, ty, dev, 1) == OpenMore(Passes(t, ty, dev, 0), ty, dev(0));
      FirstHit(t, ty, dev, 1, Entry(t, ty));
    } else if CanOpenMore(t) && exists k: nat :: dev(k) {
      CountersBounded(t);
      var k: nat :| dev(k);
      var j := LeastYes(dev, k);
      PassesTried(t, ty, dev, j);
      OpenedMore(t, Passes(t, ty, dev, j), ty);
      assert Passes(t, ty, dev, j + 1) == OpenMore(Passes(t, ty, dev, j), ty, dev(j));
      FirstHit(t, ty, dev, j + 1, if Entry(t, ty) == 0 then 0 else 1);
    } else {
      CountersBounded(t);
      forall n: nat ensures !Stops(t, ty, dev, n) {
        NeverHits(t, ty, dev, n);
      }
    }
  }

  lemma NeverHits(t: Table, ty: int, dev: nat -> bool, n: nat)
    requires Good(t) && IsType(ty) && Scan(t, ty) == Null
    requires t.openedCount < |t.openSlots| ==> !IsOpen(t.zones[GetEmpty(t)].cond)
    requires CanOpenMore(t) ==> forall k: nat :: !dev(k)
    ensures Scan(Passes(t, ty, dev, n), ty) == Null
  {
    hide Inv, WpSane, OpenMore, Scan, Offset, Passes;
    var u := Passes(t, ty, dev, n);
    ScanIsExact(t, ty);
    if t.openedCount < |t.openSlots| {
      PassesTried(t, ty, dev, n);
      TriedGood(t, u, ty);
      ScanIsExact(u, ty);
    } else {
      PassesIdle(t, ty, dev, n);
    }
  }

  lemma {:induction false} PassesIdle(t: Table, ty: int, dev: nat -> bool, n: nat)
    requires Shape(t) && IsType(ty) && t.openedCount >= |t.openSlots|
    ensures Passes(t, ty, dev, n) == t
  {
    if n > 0 {
      PassesIdle(t, ty, dev, n - 1);
    }
  }

  lemma {:induction false} LeastYes(dev: nat -> bool, k: nat) returns (j: nat)
    requires dev(k)
    ensures j <= k && dev(j) && forall i: nat :: i < j ==> !dev(i)
  {
    j := 0;
    while !dev(j)
      invariant j <= k && forall i: nat :: i < j ==> !dev(i)
      decreases k - j
    {
      j := j + 1;
    }
  }

  // ----- Results of get_zone -----

  /** `get_zone` as a function: the table and the zone when the loop stops. */
  ghost function GetZone(t: Table, ty: int, dev: nat -> bool): (r: (Table, nat))
    requires Shape(t) && IsType(ty) && Halts(t, ty, dev)
    ensures exists n: nat :: Stops(t, ty, dev, n) && r.0 == Passes(t, ty, dev, n) && Scan(r.0, ty) == Ref(r.1)
    ensures |r.0.zones| == |t.zones| && r.0.zoneSize == t.zoneSize
  {
    var n: nat :| Stops(t, ty, dev, n);
    var u := Passes(t, ty, dev, n);
    (u, Scan(u, ty).id)
  }

  /** The counter of the type counts the passes through the open block; nothing else counts, and only it flags. */
  lemma {:induction false} PassesCount(t: Table, ty: int, dev: nat -> bool, n: nat)
    requires Shape(t) && IsType(ty)
    ensures var u := Passes(t, ty, dev, n);
            && u.nrType == t.nrType[ty := u.nrType[ty]] && u.nrType[ty] >= t.nrType[ty]
            && u.limitType == t.limitType && u.cpLocked == t.cpLocked
            && (u.restart <==> t.restart || (t.cpLocked && u.nrType[ty] > t.nrType[ty]))
            && (t.openedCount < |t.openSlots| && n > 0 ==> u.nrType[ty] > t.nrType[ty])
  {
    PassesNone(t, ty, dev);
    hide Passes, Open, GetEmpty, OpenMore;
    if n > 0 {
      PassesCount(t, ty, dev, n - 1);
      OpenMoreCounts(Passes(t, ty, dev, n - 1), ty, dev(n - 1));
      PassesNext(t, ty, dev, n);
    }
  }

  lemma PassesNone(t: Table, ty: int, dev: nat -> bool)
    requires Shape(t) && IsType(ty)
    ensures Passes(t, ty, dev, 0) == t
  {
  }

  lemma PassesNext(t: Table, ty: int, dev: nat -> bool, n: nat)
    requires Shape(t) && IsType(ty) && n > 0
    ensures Passes(t, ty, dev, n) == OpenMore(Passes(t, ty, dev, n - 1), ty, dev(n - 1))
  {
  }

  lemma OpenMoreCounts(t: Table, ty: int, dev: bool)
    requires Shape(t) && IsType(ty)
    ensures var u := OpenMore(t, ty, dev);
            && u.nrType == t.nrType[ty := u.nrType[ty]] && u.limitType == t.limitType && u.cpLocked == t.cpLocked
            && u.nrType[ty] == t.nrType[ty] + (if t.openedCount < |t.openSlots| then 1 else 0)
            && (u.restart <==> t.restart || (t.cpLocked && t.openedCount < |t.openSlots|))
  {
  }

  /** What `get_zone` returns stands in the array of opened zones and has the type; only its counter moves. */
  lemma GetZoneFinds(t: Table, ty: int, dev: nat -> bool)
    requires Shape(t) && IsType(ty) && Halts(t, ty, dev)
    ensures var (u, z) := GetZone(t, ty, dev);
            && Ref(z) in u.openSlots && z < |u.zones| && u.zones[z].ztype == ty
            && |u.nrType| == 5 && u.nrType == t.nrType[ty := u.nrType[ty]]
  {
    var (u, z) := GetZone(t, ty, dev);
    var n: nat :| Stops(t, ty, dev, n) && u == Passes(t, ty, dev, n) && Scan(u, ty) == Ref(z);
    ScanFinds(u, ty);
    PassesCount(t, ty, dev, n);
  }

  /** An opened zone has the type. */
  ghost predicate OpenOfType(t: Table, ty: int) {
    exists z :: 0 <= z < |t.zones| && IsOpen(t.zones[z].cond) && t.zones[z].ztype == ty
  }

  /**
   * Below its limit, or without an opened zone of the type, `get_zone` takes a new zone when a slot is free;
   * otherwise it leaves the table alone.  The restart flag is raised exactly when it counted a new zone while a
   * checkpoint was under way.
   */
  lemma GetZoneTakesNew(t: Table, ty: int, dev: nat -> bool)
    requires Good(t) && IsType(ty) && Halts(t, ty, dev)
    ensures var u := GetZone(t, ty, dev).0;
            && (u.nrType[ty] > t.nrType[ty] <==>
                  t.openedCount < |t.openSlots| && (t.nrType[ty] < t.limitType[ty] || !OpenOfType(t, ty)))
            && (u.nrType[ty] <= t.nrType[ty] ==> u == t)
            && u.nrType == t.nrType[ty := u.nrType[ty]]
            && (u.restart <==> t.restart || (t.cpLocked && u.nrType[ty] > t.nrType[ty]))
  {
    var n := HaltsAt(t, ty, dev);
    GetZoneIs(t, ty, dev, n);
    PassesCount(t, ty, dev, n);
    ScanIsExact(t, ty);
    assert Passes(t, ty, dev, 0) == t;
    hide Scan, Inv, WpSane, OpenMore;
    if t.openedCount >= |t.openSlots| {
      PassesIdle(t, ty, dev, n);
    } else if n > 0 && Entry(t, ty) == 0 {
      assert Scan(Passes(t, ty, dev, 0), ty) == Null;
    }
  }

  /** `e` is the first empty zone from 2 on. */
  ghost predicate IsFirstEmpty(t: Table, e: nat) {
    2 <= e < |t.zones| && t.zones[e].cond == Empty && forall k :: 2 <= k < e ==> t.zones[k].cond != Empty
  }

  lemma GetEmptyIsFirstEmpty(t: Table)
    requires Shape(t) && HasEmpty(t)
    ensures IsFirstEmpty(t, GetEmpty(t))
  {
    GetEmptyFinds(t);
    GetEmptyIsFirst(t);
  }

  /**
   * With slots free, the first empty zone is opened for the type at the first open the drive answers, number `j`;
   * the refused ones count as well.
   */
  lemma GetZoneOpensFirst(t: Table, ty: int, dev: nat -> bool, j: nat) returns (e: nat)
    requires Good(t) && IsType(ty) && Halts(t, ty, dev) && HasEmpty(t)
    requires dev(j) && forall i: nat :: i < j ==> !dev(i)
    requires t.openedCount < |t.openSlots| && t.activeCount < |t.activeSlots|
    requires !OpenOfType(t, ty) || (t.nrType[ty] < t.limitType[ty] && j == 0)
    ensures IsFirstEmpty(t, e)
    ensures GetZone(t, ty, dev).0.zones == t.zones[e := t.zones[e].(cond := ExpOpen, ztype := ty, dirty := true)]
    ensures GetZone(t, ty, dev).0.nrType == t.nrType[ty := t.nrType[ty] + j + 1]
  {
    hide Inv, WpSane, GetEmpty, Scan, Passes, Halts, Stops, HasEmpty, OpenOfType;
    e := GetEmpty(t);
    GetEmptyIsFirstEmpty(t);
    StopsAtOpen(t, ty, dev, j);
    GetZoneIs(t, ty, dev, j + 1);
  }

  lemma StopsAtOpen(t: Table, ty: int, dev: nat -> bool, j: nat)
    requires Good(t) && IsType(ty) && t.zones[GetEmpty(t)].cond == Empty
    requires dev(j) && forall i: nat :: i < j ==> !dev(i)
    requires t.openedCount < |t.openSlots| && t.activeCount < |t.activeSlots|
    requires !OpenOfType(t, ty) || (t.nrType[ty] < t.limitType[ty] && j == 0)
    ensures Stops(t, ty, dev, j + 1) && |t.nrType| == 5
    ensures Passes(t, ty, dev, j + 1).nrType == t.nrType[ty := t.nrType[ty] + j + 1]
    ensures Passes(t, ty, dev, j + 1).zones
         == t.zones[GetEmpty(t) := t.zones[GetEmpty(t)].(cond := ExpOpen, ztype := ty, dirty := true)]
  {
    hide Scan, Inv, WpSane, OpenMore, Tried, GetEmpty, Passes, OpenOfType;
    PassOpens(t, ty, dev, j);
    if OpenOfType(t, ty) {
      assert Entry(t, ty) == j + 1;
    } else {
      forall k: nat | k <= j ensures Scan(Passes(t, ty, dev, k), ty) == Null {
        PassScansNull(t, ty, dev, k);
      }
    }
  }

  /** The pass at which the drive grants the open. */
  lemma PassOpens(t: Table, ty: int, dev: nat -> bool, j: nat)
    requires Good(t) && IsType(ty) && t.zones[GetEmpty(t)].cond == Empty
    requires dev(j) && forall i: nat :: i < j ==> !dev(i)
    requires t.openedCount < |t.openSlots| && t.activeCount < |t.activeSlots|
    ensures var u := Passes(t, ty, dev, j + 1);
            && Scan(u, ty) != Null && |t.nrType| == 5 && u.nrType == t.nrType[ty := t.nrType[ty] + j + 1]
            && u.zones == t.zones[GetEmpty(t) := t.zones[GetEmpty(t)].(cond := ExpOpen, ztype := ty, dirty := true)]
  {
    hide Scan, Inv, WpSane, OpenMore, Tried, GetEmpty, Passes;
    PassesTried(t, ty, dev, j);
    OpenedMore(t, Passes(t, ty, dev, j), ty);
    PassesCount(t, ty, dev, j);
    PassesNext(t, ty, dev, j + 1);
  }

  lemma PassScansNull(t: Table, ty: int, dev: nat -> bool, k: nat)
    requires Good(t) && IsType(ty) && t.zones[GetEmpty(t)].cond == Empty && !OpenOfType(t, ty)
    requires forall i: nat :: i < k ==> !dev(i)
    ensures Scan(Passes(t, ty, dev, k), ty) == Null
  {
    hide Scan, Inv, WpSane, Tried, GetEmpty, Passes, OpenOfType;
    PassesTried(t, ty, dev, k);
    TriedScansNull(t, Passes(t, ty, dev, k), ty);
  }

  lemma TriedScansNull(t: Table, u: Table, ty: int)
    requires Good(t) && Tried(t, u, ty) && !OpenOfType(t, ty) && t.zones[GetEmpty(t)].cond == Empty
    ensures Scan(u, ty) == Null
  {
    TriedGood(t, u, ty);
    hide Inv, WpSane, Scan, GetEmpty;
    ScanIsExact(u, ty);
    forall z | 0 <= z < |u.zones| && IsOpen(u.zones[z].cond) ensures u.zones[z].ztype != ty {
      assert IsOpen(t.zones[z].cond);
    }
  }

  /** Below the limit and refused, the first empty zone gets the type and is counted, but an opened one is returned. */
  lemma GetZoneRefused(t: Table, ty: int, dev: nat -> bool) returns (e: nat)
    requires Good(t) && IsType(ty) && Halts(t, ty, dev) && HasEmpty(t) && t.openedCount < |t.openSlots|
    requires t.nrType[ty] < t.limitType[ty] && OpenOfType(t, ty)
    requires t.activeCount == |t.activeSlots| || !dev(0)
    ensures IsFirstEmpty(t, e)
    ensures GetZone(t, ty, dev).0
         == t.(zones := t.zones[e := t.zones[e].(ztype := ty)], nrType := t.nrType[ty := t.nrType[ty] + 1],
               restart := t.restart || t.cpLocked)
    ensures GetZone(t, ty, dev).1 != e
  {
    e := GetEmpty(t);
    GetEmptyIsFirstEmpty(t);
    PassesTried(t, ty, dev, 0);
    TriedMore(t, t, ty, dev(0));
    var u := OpenMore(t, ty, dev(0));
    TriedGood(t, u, ty);
    ScanIsExact(u, ty);
    PassesNext(t, ty, dev, 1);
    hide Scan, Inv, WpSane, Tried, GetEmpty;
    var z :| 0 <= z < |t.zones| && IsOpen(t.zones[z].cond) && t.zones[z].ztype == ty;
    assert IsOpen(u.zones[z].cond) && u.zones[z].ztype == ty;
    assert Stops(t, ty, dev, 1);
    GetZoneIs(t, ty, dev, 1);
    GetZoneShape(t, ty, dev);
  }

  /** A new zone is asked for: below the limit, or no opened zone has the type. */
  ghost predicate WantsEmpty(t: Table, ty: int)
    requires Shape(t) && IsType(ty)
  {
    t.openedCount < |t.openSlots| && (Entry(t, ty) == 1 || Scan(t, ty) == Null)
  }

  /** `w` is `t` after `get_zone` opened its empty zone for type `ty`. */
  ghost predicate Opened(t: Table, w: Table, ty: int)
    requires Shape(t) && IsType(ty)
  {
    var e := GetEmpty(t);
    && |w.nrType| == 5 && e != 0
    && w == t.(zones := t.zones[e := t.zones[e].(cond := ExpOpen, ztype := ty, dirty := true)],
               openSlots := w.openSlots, openedCount := w.openedCount,
               activeSlots := w.activeSlots, activeCount := w.activeCount,
               nrType := w.nrType, restart := t.restart || t.cpLocked)
    && |w.openSlots| == |t.openSlots| && w.openedCount <= t.openedCount + 1
    && |w.activeSlots| == |t.activeSlots| && w.activeCount <= t.activeCount + 1
    && w.nrType[ty] > t.nrType[ty]
    && (forall k :: 0 <= k < 5 && k != ty ==> w.nrType[k] == t.nrType[k])
  }

  /** As long as an empty zone is there when one is asked for, the loop tries zones and opens at most one. */
  lemma GetZoneShape(t: Table, ty: int, dev: nat -> bool)
    requires Good(t) && IsType(ty) && Halts(t, ty, dev)
    requires WantsEmpty(t, ty) ==> HasEmpty(t)
    ensures var (u, z) := GetZone(t, ty, dev);
            && Good(u) && z < |u.zones| && IsOpen(u.zones[z].cond) && u.zones[z].ztype == ty
            && (u == t || (WantsEmpty(t, ty) && HasEmpty(t) && (Tried(t, u, ty) || Opened(t, u, ty))
                           && u.nrType[ty] > t.nrType[ty]))
  {
    hide Inv, WpSane, OpenMore, Scan, Offset, Tried, Opened;
    var (u, z) := GetZone(t, ty, dev);
    var n: nat :| Stops(t, ty, dev, n) && u == Passes(t, ty, dev, n) && Scan(u, ty) == Ref(z);
    if n > 0 {
      if t.openedCount < |t.openSlots| {
        assert Scan(Passes(t, ty, dev, 0), ty) == Null || Entry(t, ty) == 1;
        GetEmptyFinds(t);
        PassesShape(t, ty, dev, n);
      } else {
        CountersBounded(t);
        PassesIdle(t, ty, dev, n);
      }
    }
    ScanIsExact(u, ty);
  }

  lemma PassesShape(t: Table, ty: int, dev: nat -> bool, n: nat)
    requires Good(t) && IsType(ty) && Stops(t, ty, dev, n) && n > 0
    requires t.openedCount < |t.openSlots| && GetEmpty(t) != 0
    ensures var u := Passes(t, ty, dev, n);
            Good(u) && (Tried(t, u, ty) || Opened(t, u, ty)) && u.nrType[ty] > t.nrType[ty]
  {
    hide Inv, WpSane, OpenMore, Scan, Offset, Tried, Opened;
    var u := Passes(t, ty, dev, n);
    if CanOpenMore(t) && exists j: nat :: j < n && dev(j) {
      var k: nat :| k < n && dev(k);
      var j := LeastYes(dev, k);
      PassesTried(t, ty, dev, j);
      var v := Passes(t, ty, dev, j);
      OpenedMore(t, v, ty);
      assert Passes(t, ty, dev, j + 1) == OpenMore(v, ty, dev(j));
      assert n == j + 1;
      OpenedIs(t, v, ty);
    } else {
      PassesTried(t, ty, dev, n);
      TriedGood(t, u, ty);
    }
  }

  lemma OpenedIs(t: Table, v: Table, ty: int)
    requires Good(t) && Tried(t, v, ty) && CanOpenMore(t) && GetEmpty(t) != 0
    ensures Opened(t, OpenMore(v, ty, true), ty)
    ensures OpenMore(v, ty, true).nrType[ty] > t.nrType[ty]
  {
    hide Inv, WpSane, Overwrite, InsertOpened, InsertActive;
    OpenedMore(t, v, ty);
    CountersBounded(t);
    TriedEmpty(t, v, ty, 2);
    OpenFields(v, GetEmpty(t));
  }

  /** When empty zones ran out while zone 0 is open and no opened zone has the type, the data goes to zone 0. */
  lemma SuperblockZoneTaken(t: Table, ty: int, dev: nat -> bool)
    requires Good(t) && IsType(ty) && t.openedCount < |t.openSlots| && t.zones[0].cond == ExpOpen
    requires !HasEmpty(t) && Scan(t, ty) == Null
    ensures Halts(t, ty, dev) && GetZone(t, ty, dev).1 == 0
  {
    hide Inv, WpSane, Scan, Offset;
    GetEmptyFinds(t);
    HaltsIff(t, ty, dev);
    ScanIsExact(t, ty);
    var u := OpenMore(t, ty, dev(0));
    assert t.zones[0 := t.zones[0]] == t.zones;
    TriedMore(t, t, ty, dev(0));
    TriedGood(t, u, ty);
    ScanIsExact(u, ty);
    assert u.zones[0].ztype == ty;
    assert Passes(t, ty, dev, 1) == OpenMore(Passes(t, ty, dev, 0), ty, dev(0));
    assert Stops(t, ty, dev, 1);
    var n: nat :| Stops(t, ty, dev, n) && GetZone(t, ty, dev).0 == Passes(t, ty, dev, n)
                  && Scan(GetZone(t, ty, dev).0, ty) == Ref(GetZone(t, ty, dev).1);
    StopsOnce(t, ty, dev, n, 1);
  }

  lemma GetZoneIs(t: Table, ty: int, dev: nat -> bool, n: nat)
    requires Shape(t) && IsType(ty) && Stops(t, ty, dev, n)
    ensures GetZone(t, ty, dev) == (Passes(t, ty, dev, n), Scan(Passes(t, ty, dev, n), ty).id)
  {
    var m: nat :| Stops(t, ty, dev, m) && GetZone(t, ty, dev).0 == Passes(t, ty, dev, m)
                  && Scan(GetZone(t, ty, dev).0, ty) == Ref(GetZone(t, ty, dev).1);
    StopsOnce(t, ty, dev, n, m);
  }

  // ----- alloc_zone -----

  /** A rewrite stays in the zone of its old block unless that zone is full; address 0 means a first write. */
  predicate NeedsZone(t: Table, a: int)
    requires InTable(t, a)
  {
    t.zones[ZoneOf(t.zoneSize, a)].cond == Full || ZoneOf(t.zoneSize, a) == 0
  }

  /** `alloc_zone` for a write to a block whose old address is `a`. */
  ghost function Alloc(t: Table, a: int, ty: int, dev: nat -> bool): (Table, nat)
    requires Shape(t) && IsType(ty) && InTable(t, a)
    requires NeedsZone(t, a) ==> Halts(t, ty, dev)
  {
    var (u, z) := if NeedsZone(t, a) then GetZone(t, ty, dev) else (t, ZoneOf(t.zoneSize, a));
    (Invalidate(u, a), z)
  }

  // ----- The per-type limit -----

  ghost function OpenTyped(t: Table, ty: int): set<int> {
    set z | 0 <= z < |t.zones| && IsOpen(t.zones[z].cond) && t.zones[z].ztype == ty
  }

  /** The open zones of a type pass its limit, or one when the limit is below one, by `extra` at most. */
  ghost predicate WithinLimit(t: Table, ty: int, extra: nat)
    requires Shape(t) && IsType(ty)
  {
    |OpenTyped(t, ty)| <= t.nrType[ty] + extra && |OpenTyped(t, ty)| <= Max(t.limitType[ty], 1) + extra
  }

  lemma GetZoneKeepsLimits(t: Table, ty: int, dev: nat -> bool, k: int, extra: nat)
    requires Good(t) && IsType(ty) && Halts(t, ty, dev) && IsType(k)
    requires WantsEmpty(t, ty) ==> HasEmpty(t)
    requires WithinLimit(t, k, extra)
    ensures WithinLimit(GetZone(t, ty, dev).0, k, extra)
  {
    hide Inv, WpSane, Scan, Offset, OpenMore, Tried, Opened;
    GetZoneShape(t, ty, dev);
    GetEmptyFinds(t);
    var u := GetZone(t, ty, dev).0;
    if u != t && Tried(t, u, ty) {
      TriedKeepsLimits(t, u, ty, k, extra);
    } else if u != t {
      ScanIsExact(t, ty);
      OpenedKeepsLimits(t, u, ty, k, extra);
    }
  }

  lemma TriedKeepsLimits(t: Table, u: Table, ty: int, k: int, extra: nat)
    requires Shape(t) && Shape(u) && Tried(t, u, ty) && GetEmpty(t) != 0 && IsType(k) && WithinLimit(t, k, extra)
    ensures WithinLimit(u, k, extra)
  {
    assert OpenTyped(u, k) == OpenTyped(t, k);
  }

  lemma OpenedKeepsLimits(t: Table, u: Table, ty: int, k: int, extra: nat)
    requires Shape(t) && Shape(u) && IsType(ty) && Opened(t, u, ty) && IsType(k) && WithinLimit(t, k, extra)
    requires Entry(t, ty) == 1 || forall z :: 0 <= z < |t.zones| && IsOpen(t.zones[z].cond) ==> t.zones[z].ztype != ty
    ensures WithinLimit(u, k, extra)
  {
    if k == ty {
      assert OpenTyped(u, k) == OpenTyped(t, k) + {GetEmpty(t)};
      assert Entry(t, ty) == 0 ==> OpenTyped(t, k) == {};
    } else {
      assert OpenTyped(u, k) == OpenTyped(t, k);
    }
  }

  // ----- What makes the checkpoint restart -----

  ghost function EmptyZones(t: Table): set<int> {
    set z | 0 <= z < |t.zones| && t.zones[z].cond == Empty
  }

  /** How far the counter of a type is below its limit. */
  function Room(t: Table, k: int): nat
    requires Shape(t) && IsType(k)
  {
    Max(0, t.limitType[k] - t.nrType[k])
  }

  /** An upper bound on how often `get_zone` can still raise the restart flag. */
  ghost function Fuel(t: Table): nat
    requires Shape(t)
  {
    |EmptyZones(t)| + Room(t, 1) + Room(t, 2) + Room(t, 3) + Room(t, 4)
  }

  /** Every call of `get_zone` that changes the table, and so every one that raises the flag, burns fuel. */
  lemma GetZoneBurnsFuel(t: Table, ty: int, dev: nat -> bool)
    requires Good(t) && IsType(ty) && Halts(t, ty, dev)
    requires WantsEmpty(t, ty) ==> HasEmpty(t)
    ensures var u := GetZone(t, ty, dev).0;
            u == t || (Shape(u) && Fuel(u) < Fuel(t))
  {
    hide Inv, WpSane, Scan, Offset, OpenMore, Tried, Opened, Fuel;
    GetZoneShape(t, ty, dev);
    GetEmptyFinds(t);
    var (u, z) := GetZone(t, ty, dev);
    if u != t && Tried(t, u, ty) {
      ScanIsExact(t, ty);
      TriedElsewhere(t, u, ty, z);
      TriedBurnsFuel(t, u, ty);
    } else if u != t {
      OpenedBurnsFuel(t, u, ty);
    }
  }

  lemma TriedElsewhere(t: Table, u: Table, ty: int, z: nat)
    requires Shape(t) && Tried(t, u, ty) && z < |u.zones| && IsOpen(u.zones[z].cond) && GetEmpty(t) != 0
    ensures z < |t.zones| && u.zones[z] == t.zones[z]
  {
  }

  lemma RoomShrinks(t: Table, u: Table, ty: int)
    requires Shape(t) && Shape(u) && IsType(ty) && u.limitType == t.limitType && u.nrType[ty] > t.nrType[ty]
    requires forall k :: 0 <= k < 5 && k != ty ==> u.nrType[k] == t.nrType[k]
    ensures Room(u, 1) + Room(u, 2) + Room(u, 3) + Room(u, 4) <= Room(t, 1) + Room(t, 2) + Room(t, 3) + Room(t, 4)
    ensures Entry(t, ty) == 1
        ==> Room(u, 1) + Room(u, 2) + Room(u, 3) + Room(u, 4) < Room(t, 1) + Room(t, 2) + Room(t, 3) + Room(t, 4)
  {
    assert forall k :: IsType(k) && k != ty ==> Room(u, k) == Room(t, k);
  }

  lemma TriedBurnsFuel(t: Table, u: Table, ty: int)
    requires Shape(t) && Shape(u) && Tried(t, u, ty) && Entry(t, ty) == 1 && u.nrType[ty] > t.nrType[ty]
    ensures Fuel(u) < Fuel(t)
  {
    RoomShrinks(t, u, ty);
    assert EmptyZones(u) == EmptyZones(t);
  }

  lemma OpenedBurnsFuel(t: Table, u: Table, ty: int)
    requires Shape(t) && Shape(u) && IsType(ty) && Opened(t, u, ty)
    ensures Fuel(u) < Fuel(t)
  {
    RoomShrinks(t, u, ty);
    assert GetEmpty(t) in EmptyZones(t) && EmptyZones(u) == EmptyZones(t) - {GetEmpty(t)};
  }
}
