/**
 * What one write costs: from submission to completion it fills one fresh block, and it can make
 * `get_zone` open a zone, which raises the checkpoint's restart flag, only by burning fuel.
 */
module RestartFuel {
  import opened Layout
  import opened ZoneTable
  import opened ZoneAlloc
  import opened WritePipeline

  /** A write as the checkpoint sees it: `newZone` says whether the restart flag was raised. */
  ghost predicate Appended<B>(dev: map<int, B>, fuel: nat, dev': map<int, B>, fuel': nat, a: int, content: B,
      newZone: bool) {
    && a != 0 && a !in dev && dev' == dev[a := content]
    && fuel' <= fuel && (newZone <==> fuel' < fuel)
  }

  /** Submission raises the flag only when `get_zone` passes its opening branch, which changes the table. */
  ghost predicate Raises<B>(s: Io<B>, p: Page, answers: nat -> bool)
    requires CanSubmit(s, p, answers)
  {
    NeedsZone(s.t, AddrOf(s, p)) && GetZone(s.t, PageType(p), answers).0 != s.t
  }

  /** The flag is raised exactly by those submissions, and only while a checkpoint holds its lock. */
  lemma RaisesFlag<B>(s: Io<B>, p: Page, answers: nat -> bool)
    requires TableOk(s.t) && CanSubmit(s, p, answers)
    ensures var ty, u := PageType(p), Submit(s, p, answers).t;
            && |u.nrType| == 5 && (Raises(s, p, answers) <==> u.nrType[ty] > s.t.nrType[ty])
            && (u.restart <==> s.t.restart || (s.t.cpLocked && Raises(s, p, answers)))
  {
    hide ZoneOf, BitOf, GetZone, Halts, WantsEmpty, HasEmpty, Inv, WpSane, Geometry, OpenOfType;
    var a := AddrOf(s, p);
    if NeedsZone(s.t, a) {
      GetZoneTakesNew(s.t, PageType(p), answers);
      GetZoneFinds(s.t, PageType(p), answers);
    }
  }

  lemma InvalidateFuel(t: Table, a: int)
    requires Shape(t) && InTable(t, a)
    ensures Shape(Invalidate(t, a)) && Fuel(Invalidate(t, a)) == Fuel(t)
  {
    hide ZoneOf, BitOf;
    assert EmptyZones(Invalidate(t, a)) == EmptyZones(t);
  }

  lemma ValidateFuel(t: Table, a: int)
    requires Shape(t) && InTable(t, a)
    ensures Shape(Validate(t, a)) && Fuel(Validate(t, a)) <= Fuel(t)
  {
    hide ZoneOf, BitOf;
    ValidateShape(t, a);
    SubsetSize(EmptyZones(Validate(t, a)), EmptyZones(t));
  }

  /** A completion in a zone that is not empty leaves the fuel as it is. */
  lemma SettledFuel(t: Table, a: int)
    requires Shape(t) && InTable(t, a) && t.zones[ZoneOf(t.zoneSize, a)].cond != Empty
    ensures Shape(Validate(t, a)) && Fuel(Validate(t, a)) == Fuel(t)
  {
    hide ZoneOf, BitOf, Overwrite;
    assert EmptyZones(Validate(t, a)) == EmptyZones(t);
  }

  lemma SubmitFuel<B>(s: Io<B>, p: Page, answers: nat -> bool)
    requires TableOk(s.t) && CanSubmit(s, p, answers)
    ensures var u := Submit(s, p, answers).t;
            && Shape(u) && Fuel(u) <= Fuel(s.t)
            && (Raises(s, p, answers) <==> Fuel(u) < Fuel(s.t))
  {
    var a := AddrOf(s, p);
    hide ZoneOf, BitOf, GetZone, Halts, Fuel, WantsEmpty, HasEmpty, Inv, WpSane, Invalidate, Geometry;
    if NeedsZone(s.t, a) {
      var u := GetZone(s.t, PageType(p), answers).0;
      GetZoneBurnsFuel(s.t, PageType(p), answers);
      GetZoneTable(s.t, PageType(p), answers);
      InvalidateFuel(u, a);
    } else {
      InvalidateFuel(s.t, a);
    }
  }

  /** Submission, append and completion together are one write to the drive, whatever address it picks. */
  lemma WriteIsAppend<B>(s: Io<B>, p: Page, answers: nat -> bool, a: int, content: B)
    requires Safe(s) && CanSubmit(s, p, answers) && CanLand(Submit(s, p, answers), p, a)
    ensures var s2 := Land(Submit(s, p, answers), p, a, content);
            && CanComplete(s2, p) && Shape(s.t) && Shape(Complete(s2, p).t)
            && Appended(s.dev, Fuel(s.t), Complete(s2, p).dev, Fuel(Complete(s2, p).t), a, content,
                        Raises(s, p, answers))
  {
    hide Safe, TableOk, ZoneOf, BitOf, Alloc, Validate, Fuel, Shape, Raises, InCapacity;
    TableOfSafe(s);
    var s1 := Submit(s, p, answers);
    var s2 := Land(s1, p, a, content);
    SubmitSafe(s, p, answers);
    SubmitFuel(s, p, answers);
    LandSafe(s1, p, a, content);
    InCapacityInTable(s1.t, a);
    LandedHome(s2, p);
    SettledFuel(s1.t, a);
  }

  lemma TableOfSafe<B>(s: Io<B>)
    requires Safe(s)
    ensures TableOk(s.t) && Shape(s.t)
  {
  }

  lemma LandedHome<B>(s: Io<B>, p: Page)
    requires Safe(s) && p in s.flights && s.flights[p].Landed?
    ensures InTable(s.t, s.flights[p].addr) && s.flights[p].addr != 0
    ensures s.t.zones[ZoneOf(s.t.zoneSize, s.flights[p].addr)].cond != Empty
  {
    hide ZoneOf, BitOf, TableOk;
    TableOfSafe(s);
    assert OwnerOk(s, p);
    InCapacityInTable(s.t, s.flights[p].addr);
  }

  /** Over any run, every submission that raises the flag is paid for: at most `Fuel` of them. */
  ghost function Raised<B>(s: Io<B>, steps: seq<Step<B>>): nat
    requires CanRun(s, steps)
    decreases |steps|
  {
    if steps == [] then 0
    else
      (if steps[0].DoSubmit? && Raises(s, steps[0].p, steps[0].dev) then 1 else 0)
      + Raised(After(s, steps[0]), steps[1..])
  }

  lemma StepFuel<B(!new)>(s: Io<B>, step: Step<B>)
    requires Safe(s) && CanStep(s, step)
    ensures Shape(s.t) && Safe(After(s, step)) && Shape(After(s, step).t)
    ensures Fuel(After(s, step).t) + (if step.DoSubmit? && Raises(s, step.p, step.dev) then 1 else 0) <= Fuel(s.t)
  {
    hide Safe, TableOk, ZoneOf, BitOf, Alloc, Validate, Invalidate, Fuel, Shape, Raises, InCapacity;
    TableOfSafe(s);
    match step
    case DoSubmit(p, dev) => SubmitSafe(s, p, dev); SubmitFuel(s, p, dev);
    case DoLand(p, a, content) => LandSafe(s, p, a, content);
    case DoComplete(p) => CompleteSafe(s, p); ValidateFuel(s.t, s.flights[p].addr);
    case DoTruncate(p) => TruncateSafe(s, p); InvalidateFuel(s.t, AddrOf(s, p));
    case DoDrop(p) => DropSafe(s, p);
  }

  lemma {:induction false} RunBurnsFuel<B(!new)>(s: Io<B>, steps: seq<Step<B>>)
    requires Safe(s) && CanRun(s, steps)
    ensures Shape(s.t) && Raised(s, steps) <= Fuel(s.t)
    decreases |steps|
  {
    hide Safe, Fuel, Shape, Raises, CanStep, After;
    TableOfSafe(s);
    if steps != [] {
      StepFuel(s, steps[0]);
      RunBurnsFuel(After(s, steps[0]), steps[1..]);
    }
  }
}
