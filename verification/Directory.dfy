/** Directories: one entry per page, holes reused first. */
module Directory {
  /** A `struct xcpfs_dentry`; inode number 0 marks a hole. */
  datatype Dentry = Dentry(name: string, ino: int, namelen: int)

  const HOLE := Dentry("", 0, 0)

  /** A name the VFS may pass: a nonempty C string that fits the entry. */
  predicate FileName(name: string) {
    0 < |name| < 256 && '\0' !in name
  }

  predicate Matches(e: Dentry, name: string) {
    e.namelen == |name| && e.name == name
  }

  // ----- Slots as a map -----

  /** What the slots mean: each live name with its inode. */
  function Contents(pages: seq<Dentry>): map<string, int> {
    if pages == [] then map[]
    else
      var e := pages[|pages| - 1];
      var rest := Contents(pages[..|pages| - 1]);
      if e.ino == 0 then rest else rest[e.name := e.ino]
  }

  function LiveCount(pages: seq<Dentry>): nat {
    if pages == [] then 0
    else LiveCount(pages[..|pages| - 1]) + if pages[|pages| - 1].ino == 0 then 0 else 1
  }

  /** Live entries have proper names, holes are cleared, and no two live entries share a name. */
  ghost predicate Tidy(pages: seq<Dentry>) {
    && (forall i :: 0 <= i < |pages| ==>
          if pages[i].ino == 0 then pages[i] == HOLE
          else FileName(pages[i].name) && pages[i].namelen == |pages[i].name|)
    && (forall i, j :: 0 <= i < j < |pages| && pages[i].ino != 0 && pages[j].ino != 0 ==>
        pages[i].name != pages[j].name)
  }

  lemma {:induction false} ContentsHas(pages: seq<Dentry>, name: string)
    ensures name in Contents(pages) <==> exists i :: 0 <= i < |pages| && pages[i].ino != 0 && pages[i].name == name
    ensures name in Contents(pages) ==> Contents(pages)[name] != 0
  {
    if pages != [] {
      var n := |pages| - 1;
      ContentsHas(pages[..n], name);
      if name in Contents(pages[..n]) {
        var i :| 0 <= i < n && pages[..n][i].ino != 0 && pages[..n][i].name == name;
        assert pages[i].ino != 0 && pages[i].name == name;
      }
      forall i | 0 <= i < |pages| && pages[i].ino != 0 && pages[i].name == name ensures name in Contents(pages) {
        if i < n {
          assert pages[..n][i] == pages[i];
        }
      }
    }
  }

  lemma {:induction false} ContentsAt(pages: seq<Dentry>, i: nat)
    requires Tidy(pages) && i < |pages| && pages[i].ino != 0
    ensures pages[i].name in Contents(pages) && Contents(pages)[pages[i].name] == pages[i].ino
  {
    var n := |pages| - 1;
    if i < n {
      ContentsAt(pages[..n], i);
      assert pages[n].ino != 0 ==> pages[n].name != pages[i].name;
    }
  }

  /** Filling a hole, or the page after the last, with a new name extends the map. */
  lemma {:induction false} ContentsPut(pages: seq<Dentry>, i: nat, e: Dentry)
    requires Tidy(pages) && i < |pages| && pages[i].ino == 0 && e.ino != 0 && e.name !in Contents(pages)
    ensures Contents(pages[i := e]) == Contents(pages)[e.name := e.ino]
    ensures LiveCount(pages[i := e]) == LiveCount(pages) + 1
  {
    var n := |pages| - 1;
    if i == n {
      assert pages[i := e][..n] == pages[..n];
    } else {
      ContentsHas(pages, e.name);
      ContentsHas(pages[..n], e.name);
      assert pages[..n][i] == pages[i];
      ContentsPut(pages[..n], i, e);
      assert pages[i := e][..n] == pages[..n][i := e];
    }
  }

  lemma {:induction false} ContentsClear(pages: seq<Dentry>, i: nat)
    requires Tidy(pages) && i < |pages| && pages[i].ino != 0
    ensures Contents(pages[i := HOLE]) == Contents(pages) - {pages[i].name}
    ensures LiveCount(pages[i := HOLE]) == LiveCount(pages) - 1
  {
    var n := |pages| - 1;
    assert Tidy(pages[..n]);
    if i == n {
      assert pages[i := HOLE][..n] == pages[..n];
      ContentsHas(pages[..n], pages[n].name);
    } else {
      assert pages[n].ino != 0 ==> pages[n].name != pages[i].name;
      hide Tidy;
      ContentsClear(pages[..n], i);
      assert pages[i := HOLE][..n] == pages[..n][i := HOLE];
    }
  }

  lemma {:induction false} LiveBound(pages: seq<Dentry>)
    ensures LiveCount(pages) <= |pages|
    ensures LiveCount(pages) == |pages| <==> forall i :: 0 <= i < |pages| ==> pages[i].ino != 0
  {
    if pages != [] {
      var n := |pages| - 1;
      LiveBound(pages[..n]);
      assert forall i :: 0 <= i < n ==> pages[..n][i] == pages[i];
    }
  }

  // ----- The operations on slots -----

  /** The first hole, or the number of pages. */
  function FirstHole(pages: seq<Dentry>): (i: nat)
    ensures i <= |pages|
    ensures i < |pages| ==> pages[i].ino == 0
    ensures forall j :: 0 <= j < i ==> pages[j].ino != 0
  {
    if pages == [] then 0
    else if pages[0].ino == 0 then 0
    else
      var r := FirstHole(pages[1..]);
      assert forall j :: 1 <= j < 1 + r ==> pages[j] == pages[1..][j - 1];
      1 + r
  }

  function Added(pages: seq<Dentry>, name: string, ino: int): seq<Dentry> {
    var tar := FirstHole(pages);
    var e := Dentry(name, ino, |name|);
    if tar < |pages| then pages[tar := e] else pages + [e]
  }

  class Dir {
    /** The pages of the directory file; their number follows its size. */
    var pages: seq<Dentry>

    /** `xcpfs_init_dir`: both entries carry the directory's own number. */
    constructor (ino: int)
      requires ino != 0
      ensures pages == [Dentry(".", ino, 1), Dentry("..", ino, 2)]
      ensures Tidy(pages) && Contents(pages) == map["." := ino, ".." := ino]
    {
      pages := [Dentry(".", ino, 1), Dentry("..", ino, 2)];
      new;
      assert pages[..1] == [pages[0]] && [pages[0]][..0] == [];
      assert Contents([pages[0]]) == map["." := ino];
    }

    /** `xcpfs_add_link` */
    method AddLink(name: string, ino: int) returns (ok: bool)
      requires Tidy(pages) && FileName(name) && ino != 0
      modifies this
      ensures Tidy(pages)
      ensures ok <==> name !in old(Contents(pages))
      ensures ok ==> pages == Added(old(pages), name, ino) && Contents(pages) == old(Contents(pages))[name := ino]
      ensures !ok ==> pages == old(pages)
    {
      ContentsHas(pages, name);
      var npages := |pages|;
      var tar := npages;
      var i := 0;
      while i < npages
        invariant 0 <= i <= npages && pages == old(pages)
        invariant forall j :: 0 <= j < i ==> !Matches(pages[j], name)
        invariant tar == if FirstHole(pages) < i then FirstHole(pages) else npages
      {
        if pages[i].ino == 0 && tar == npages {
          tar := i;
        }
        if pages[i].namelen == |name| && pages[i].name == name {
          return false;
        }
        i := i + 1;
      }
      AddedLaws(pages, name, ino);
      var e := Dentry(name, ino, |name|);
      pages := if tar < npages then pages[tar := e] else pages + [e];
      ok := true;
    }

    /** `xcpfs_find_entry`: the page of the live entry, or the number of pages. */
    method FindEntry(name: string) returns (i: nat)
      requires Tidy(pages)
      ensures i <= |pages|
      ensures i < |pages| ==> pages[i].ino != 0 && pages[i].name == name
      ensures i < |pages| <==> name in Contents(pages)
    {
      ContentsHas(pages, name);
      i := 0;
      while i < |pages|
        invariant 0 <= i <= |pages|
        invariant forall j :: 0 <= j < i ==> pages[j].ino == 0 || pages[j].name != name
      {
        if pages[i].ino != 0 && pages[i].namelen == |name| && pages[i].name == name {
          return;
        }
        i := i + 1;
      }
    }

    /** `xcpfs_inode_by_name`: 0 when there is no entry. */
    method InodeByName(name: string) returns (ino: int)
      requires Tidy(pages)
      ensures ino == if name in Contents(pages) then Contents(pages)[name] else 0
    {
      var i := FindEntry(name);
      if i < |pages| {
        ContentsAt(pages, i);
        ino := pages[i].ino;
      } else {
        ino := 0;
      }
    }

    /** `xcpfs_unlink`: find the entry and clear it (`xcpfs_delete_entry`). */
    method Unlink(name: string) returns (ok: bool)
      requires Tidy(pages)
      modifies this
      ensures Tidy(pages) && Contents(pages) == old(Contents(pages)) - {name}
      ensures ok <==> name in old(Contents(pages))
      ensures pages == Removed(old(pages), name)
    {
      var i := FindEntry(name);
      RemovedLaws(pages, name);
      if i == |pages| {
        return false;
      }
      LiveAt(pages, name, i);
      pages := pages[i := HOLE];
      ok := true;
    }

    /** `xcpfs_empty_dir`: whether nothing but "." and ".." is left. */
    method EmptyDir() returns (empty: bool)
      requires Rooted(pages)
      ensures empty <==> Contents(pages).Keys == {".", ".."}
    {
      var i := 2;
      while i < |pages|
        invariant 2 <= i <= |pages|
        invariant forall j :: 2 <= j < i ==> pages[j].ino == 0
      {
        if pages[i].ino != 0 {
          ContentsAt(pages, i);
          return false;
        }
        i := i + 1;
      }
      forall name | name in Contents(pages) ensures name == "." || name == ".." {
        ContentsHas(pages, name);
      }
      ContentsAt(pages, 0);
      ContentsAt(pages, 1);
      empty := true;
    }
  }

  /** A directory as the operations keep it: "." and ".." in the first two slots. */
  ghost predicate Rooted(pages: seq<Dentry>) {
    && Tidy(pages) && |pages| >= 2
    && pages[0].ino != 0 && pages[0].name == "." && pages[1].ino != 0 && pages[1].name == ".."
  }

  lemma AddedLaws(pages: seq<Dentry>, name: string, ino: int)
    requires Tidy(pages) && FileName(name) && ino != 0 && name !in Contents(pages)
    ensures Tidy(Added(pages, name, ino))
    ensures Contents(Added(pages, name, ino)) == Contents(pages)[name := ino]
    ensures LiveCount(Added(pages, name, ino)) == LiveCount(pages) + 1
    ensures |Added(pages, name, ino)| == if LiveCount(pages) < |pages| then |pages| else |pages| + 1
  {
    var tar, e := FirstHole(pages), Dentry(name, ino, |name|);
    ContentsHas(pages, name);
    LiveBound(pages);
    TidyPut(pages, tar, e);
    if tar < |pages| {
      ContentsPut(pages, tar, e);
    } else {
      assert (pages + [e])[..|pages|] == pages;
    }
    hide Tidy;
  }

  lemma TidyPut(pages: seq<Dentry>, i: nat, e: Dentry)
    requires Tidy(pages) && FileName(e.name) && e.namelen == |e.name| && e.ino != 0
    requires forall j :: 0 <= j < |pages| && pages[j].ino != 0 ==> pages[j].name != e.name
    ensures i < |pages| ==> Tidy(pages[i := e])
    ensures Tidy(pages + [e])
  {
  }

  /** The slots after clearing the live entry of a name, if there is one. */
  function Removed(pages: seq<Dentry>, name: string): seq<Dentry> {
    var i := FirstLive(pages, name);
    if i < |pages| then pages[i := HOLE] else pages
  }

  function FirstLive(pages: seq<Dentry>, name: string): (i: nat)
    ensures i <= |pages|
    ensures i < |pages| ==> pages[i].ino != 0 && pages[i].name == name
    ensures forall j :: 0 <= j < i ==> pages[j].ino == 0 || pages[j].name != name
  {
    if pages == [] then 0
    else if pages[0].ino != 0 && pages[0].name == name then 0
    else
      var r := FirstLive(pages[1..], name);
      assert forall j :: 1 <= j < 1 + r ==> pages[j] == pages[1..][j - 1];
      1 + r
  }

  lemma LiveAt(pages: seq<Dentry>, name: string, i: nat)
    requires Tidy(pages) && i < |pages| && pages[i].ino != 0 && pages[i].name == name
    ensures FirstLive(pages, name) == i
  {
  }

  lemma RemovedLaws(pages: seq<Dentry>, name: string)
    requires Tidy(pages)
    ensures Tidy(Removed(pages, name)) && |Removed(pages, name)| == |pages|
    ensures Contents(Removed(pages, name)) == Contents(pages) - {name}
    ensures LiveCount(Removed(pages, name)) == LiveCount(pages) - if name in Contents(pages) then 1 else 0
    ensures FirstLive(pages, name) < |pages| <==> name in Contents(pages)
  {
    ContentsHas(pages, name);
    if FirstLive(pages, name) < |pages| {
      TidyClear(pages, FirstLive(pages, name));
      ContentsClear(pages, FirstLive(pages, name));
    }
    hide Tidy, Contents, LiveCount;
  }

  lemma TidyClear(pages: seq<Dentry>, i: nat)
    requires Tidy(pages) && i < |pages|
    ensures Tidy(pages[i := HOLE])
  {
  }

  // ----- Runs -----

  datatype Op = Add(name: string, ino: int) | Remove(name: string)

  /** Names the VFS passes for creation and removal; it handles "." and ".." itself. */
  predicate Proper(op: Op) {
    FileName(op.name) && op.name != "." && op.name != ".." && (op.Add? ==> op.ino != 0)
  }

  /** One operation on the slots, as the methods perform it. */
  function Step(pages: seq<Dentry>, op: Op): seq<Dentry> {
    match op
    case Add(name, ino) => if name in Contents(pages) then pages else Added(pages, name, ino)
    case Remove(name) => Removed(pages, name)
  }

  /** The same operation on a map: a taken name is refused. */
  function MapStep(m: map<string, int>, op: Op): map<string, int> {
    match op
    case Add(name, ino) => if name in m then m else m[name := ino]
    case Remove(name) => m - {name}
  }

  function After(pages: seq<Dentry>, ops: seq<Op>): seq<Dentry> {
    if ops == [] then pages else Step(After(pages, ops[..|ops| - 1]), ops[|ops| - 1])
  }

  function MapAfter(m: map<string, int>, ops: seq<Op>): map<string, int> {
    if ops == [] then m else MapStep(MapAfter(m, ops[..|ops| - 1]), ops[|ops| - 1])
  }

  /** The most entries that were ever live at once. */
  function Peak(pages: seq<Dentry>, ops: seq<Op>): nat {
    var now := LiveCount(After(pages, ops));
    if ops == [] then now
    else
      var before := Peak(pages, ops[..|ops| - 1]);
      if before < now then now else before
  }

  lemma StepLaws(pages: seq<Dentry>, op: Op)
    requires Rooted(pages) && Proper(op)
    ensures Rooted(Step(pages, op)) && Contents(Step(pages, op)) == MapStep(Contents(pages), op)
    ensures |Step(pages, op)| == if |pages| < LiveCount(Step(pages, op)) then LiveCount(Step(pages, op)) else |pages|
    ensures Step(pages, op)[0] == pages[0] && Step(pages, op)[1] == pages[1]
  {
    LiveBound(pages);
    LiveBound(Step(pages, op));
    match op
    case Add(name, ino) =>
      if name !in Contents(pages) {
        AddedLaws(pages, name, ino);
      }
    case Remove(name) => RemovedLaws(pages, name);
  }

  /**
   * Over every run the slots refine the map, "." and ".." keep slots 0 and 1, and the number of pages
   * is the larger of the initial number and the historical peak of live entries.
   */
  lemma {:induction false} RunRefinesMap(pages: seq<Dentry>, ops: seq<Op>)
    requires Rooted(pages) && forall i :: 0 <= i < |ops| ==> Proper(ops[i])
    ensures Rooted(After(pages, ops)) && Contents(After(pages, ops)) == MapAfter(Contents(pages), ops)
    ensures After(pages, ops)[0] == pages[0] && After(pages, ops)[1] == pages[1]
    ensures |After(pages, ops)| == if |pages| < Peak(pages, ops) then Peak(pages, ops) else |pages|
  {
    LiveBound(pages);
    if ops != [] {
      RunRefinesMap(pages, ops[..|ops| - 1]);
      StepLaws(After(pages, ops[..|ops| - 1]), ops[|ops| - 1]);
    }
  }

  /** A directory created by `xcpfs_init_dir` never has more pages than it once had live entries. */
  lemma FreshDirPages(ino: int, ops: seq<Op>)
    requires ino != 0 && forall i :: 0 <= i < |ops| ==> Proper(ops[i])
    ensures var pages := [Dentry(".", ino, 1), Dentry("..", ino, 2)];
            |After(pages, ops)| == Peak(pages, ops)
  {
    var pages := [Dentry(".", ino, 1), Dentry("..", ino, 2)];
    RunRefinesMap(pages, ops);
    LiveBound(pages);
    PeakStart(pages, ops);
  }

  lemma {:induction false} PeakStart(pages: seq<Dentry>, ops: seq<Op>)
    ensures LiveCount(pages) <= Peak(pages, ops)
  {
    if ops != [] {
      PeakStart(pages, ops[..|ops| - 1]);
    }
  }
}
