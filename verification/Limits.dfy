/** Where the code stops doing what its documentation says, and exactly when: names of more than 26 bytes,
    a '..' that translate gets wrong, a destination that rename does not see, a directory that rmdir takes for empty. */
module Limits {
  import opened Format
  import opened Bits
  import opened Image
  import opened Change
  import opened Paths
  import opened Ops
  import opened Keep
  import opened Making
  import opened Removing
  import opened Renaming
  import opened Editing
  import opened Writing
  import opened Runs

  // ---- walks beside a changed slot ----

  lemma {:induction false} FindSame(d: Disk, e: Disk, i: nat, name: Str, k: nat)
    requires Slots(e, i) == Slots(d, i) && forall l :: 0 <= l < Slots(d, i) ==> Ent(e, i, l) == Ent(d, i, l)
    ensures Find(e, i, name, k) == Find(d, i, name, k)
    decreases Slots(d, i) - k
  {
    hide Slots, Ent, CStr;
    if k < Slots(d, i) {
      assert Ent(e, i, k) == Ent(d, i, k);
      FindSame(d, e, i, name, k + 1);
    }
  }

  lemma StepBeside(d: Disk, C: Cert, e: Disk, p: nat, k: nat, i: nat, name: Str)
    requires SameTree(d, e, C, p, k) && Ino(C, i) && i != p
    ensures Step(e, i, name) == Step(d, i, name)
  {
    assert SameIno(d, e, i);
    hide Slots, Ent, NodeOk, Find;
    if DirAt(d, i) {
      FindSame(d, e, i, name, 0);
    }
  }

  /** A walk that takes the same step wherever it passes the directory of the changed slot ends where it ended. */
  lemma {:induction false} WalkBeside(d: Disk, C: Cert, e: Disk, p: nat, k: nat, q: Path)
    requires Tree(d, C) && SameTree(d, e, C, p, k) && Walk(d, q).Ok?
    requires forall m :: 0 <= m < |q| ==> Walk(d, q[..m]) != Ok(p)
    ensures Walk(e, q) == Walk(d, q)
  {
    hide Step, Tree, SameTree;
    if q != [] {
      assert Front(q) == q[..|q| - 1];
      forall m | 0 <= m < |Front(q)| ensures Walk(d, Front(q)[..m]) != Ok(p) { assert Front(q)[..m] == q[..m]; }
      WalkBeside(d, C, e, p, k, Front(q));
      WalkIsPath(d, C, Front(q));
      StepBeside(d, C, e, p, k, Walk(d, Front(q)).inum, Last(q));
    }
  }

  /** The path of the directory itself does not pass through it, nor does any path shorter than its entries'. */
  lemma WalkShort(d: Disk, C: Cert, e: Disk, p: nat, k: nat, q: Path, r: Path)
    requires Tree(d, C) && SameTree(d, e, C, p, k) && Walk(d, q).Ok? && Walk(d, r) == Ok(p) && |q| <= |r|
    ensures Walk(e, q) == Walk(d, q)
  {
    hide Tree, SameTree, Walk;
    WalkIsPath(d, C, r);
    forall m | 0 <= m < |q|
      ensures Walk(d, q[..m]) != Ok(p)
    {
      if Walk(d, q[..m]) == Ok(p) {
        WalkIsPath(d, C, q[..m]);
      }
    }
    WalkBeside(d, C, e, p, k, q);
  }

  lemma SameTreeAfter(d: Disk, f: Disk, C: Cert, p: nat, k: nat, x: Dirent)
    requires Tree(d, C) && Agree(d, f, C) && Ino(C, p) && DirAt(d, p) && k < Slots(d, p)
    ensures var e := PatchSlot(f, p, k, x);
      SameTree(d, e, C, p, k) && Ent(e, p, k) == x && DirAt(e, p) && Slots(e, p) == Slots(d, p)
  {
    AgreeTree(d, f, C);
    AgreeSame(d, f, C);
    assert SameIno(d, f, p);
    PatchEffect(f, C, p, k, x);
    var e := PatchSlot(f, p, k, x);
    assert SameIno(f, e, p);
    hide PatchSlot, DirAt, Slots, Span, Ptr, NodeOk, Ent, Agree, Bounds, Nodes, Owns, Owned, Links, Linked, Names;
    forall i | Ino(C, i)
      ensures SameIno(d, e, i)
    {
      assert SameIno(d, f, i) && SameIno(f, e, i);
    }
    forall i, l | Ino(C, i) && DirAt(d, i) && 0 <= l < Slots(d, i) && !(i == p && l == k)
      ensures Ent(e, i, l) == Ent(d, i, l)
    {
      assert SameIno(d, f, i);
      assert 0 !in C;
    }
  }

  // ---- names of more than 26 bytes ----

  /** A name of more than 26 bytes is linked under its first 26, so its own path leads nowhere afterwards. */
  lemma LongLink(s: Fs, C: Cert, p: nat, r: Path, c: nat, f: Disk, k: nat)
    requires Tree(s.disk, C) && Agree(s.disk, f, C) && CanMake(s, r) && p == ParentOf(s.disk, r)
    requires |NameIn(r)| > 26 && 0 !in NameIn(r) && FreeSlot(f, p, 0) == Hit(k)
    ensures Lookup(PatchSlot(f, p, k, NewEntry(Ent(f, p, k), c, NameIn(r))), r) == None
  {
    var d, n, x := s.disk, NameIn(r), NewEntry(Ent(f, p, k), c, NameIn(r));
    var e := PatchSlot(f, p, k, x);
    StoredNameReadsBack(Ent(f, p, k).name, n);
    assert CStr(x.name) != n && Walk(d, Front(r)) == Ok(p) && DirAt(d, p) && Find(d, p, n, 0).Miss?;
    hide *;
    WalkIsPath(d, C, Front(r));
    AgreeSlots(d, f, C, p, k);
    SameTreeAfter(d, f, C, p, k, x);
    WalkShort(d, C, e, p, k, Front(r), Front(r));
    NoStep(d, C, e, p, k, n, x);
    LookupFails(e, r, p);
  }

  lemma AgreeSlots(d: Disk, f: Disk, C: Cert, p: nat, k: nat)
    requires Tree(d, C) && Agree(d, f, C) && Ino(C, p) && FreeSlot(f, p, 0) == Hit(k)
    ensures k < Slots(d, p)
  {
    AgreeSame(d, f, C);
    assert SameIno(d, f, p);
  }

  lemma NoStep(d: Disk, C: Cert, e: Disk, p: nat, k: nat, n: Str, x: Dirent)
    requires SameTree(d, e, C, p, k) && Ino(C, p) && DirAt(d, p) && Find(d, p, n, 0).Miss? && Ent(e, p, k) == x
    requires CStr(x.name) != n
    ensures Step(e, p, n).Fail?
  {
    assert SameIno(d, e, p);
    hide Slots, Ent, NodeOk;
    assert forall l :: 0 <= l < Slots(d, p) && l != k ==> Ent(e, p, l) == Ent(d, p, l);
  }

  lemma LookupFails(e: Disk, r: Path, p: nat)
    requires r != [] && Walk(e, Front(r)) == Ok(p) && Step(e, p, NameIn(r)).Fail?
    ensures Lookup(e, r) == None
  {
    hide Step;
  }

  /** The create that succeeds can be found again under its own name if and only if that has at most 26 bytes. */
  lemma CreateFinds(s: Fs, C: Cert, comps: seq<Str>, mode: nat, w: Caller)
    requires Inv(s, C) && Resolve(comps) != [] && NewName(NameIn(Resolve(comps))) && mode < 0x1_0000_0000 && IsReg(mode)
    requires Create(s, comps, mode, w).code == 0
    ensures Lookup(After(s, Create(s, comps, mode, w)).disk, Resolve(comps)).Some? <==> |NameIn(Resolve(comps))| <= 26
  {
    hide *;
    InvParts(s, C);
    var r, c := Resolve(comps), FirstFree(s.bitmap, |s.disk|, 2);
    var bm := SetBit(s.bitmap, c);
    var ws := CreateWrites(bm, c, mode, w);
    NameFacts(s.disk, r);
    if |NameIn(r)| <= 26 {
      var D, t, L, c' := CreateKeeps(s, C, comps, mode, w);
      MadeShows(s, C, Create(s, comps, mode, w), D, t, L, r, File(NewAttr(mode, w), []), 1, ENOSPC, c', 0);
    } else {
      CreateShape(s, comps, mode, w);
      RefusalNegative(s, r);
      ErrsAre(s);
      InvSmall(s, C);
      forall b: nat ensures Bit(bm, b) <==> Bit(s.bitmap, b) || b == c { SetThenTest(s.bitmap, c, b); }
      AreFileWrites(bm, c, mode, w);
      NewFileFacts(mode, w);
      FreeRange(s, c);
      CreateLays(s, C, c, bm, ws, NewFile(mode, w));
      LaidParts(s, C, c, bm, ws);
      LongMade(s, C, r, c, bm, ws, ENOSPC);
    }
  }

  lemma NameFacts(d: Disk, r: Path)
    requires r != [] && NewName(NameIn(r))
    ensures 0 !in NameIn(r) && (|NameIn(r)| <= 26 ==> Stores(d, r) && Stored(r) == r)
  {
    StoredParts(r);
  }

  lemma MadeShows(s: Fs, C: Cert, o: Outcome, D: Cert, t: nat, L: set<nat>, r: Path, obj: Obj, n: nat, full: int,
      c: nat, size: int)
    requires Made(s, C, o, D, t, L, r, obj, n, full, c, size) && o.code == 0
    ensures Lookup(After(s, o).disk, r) == Some(obj)
  {
    hide Stages, Inv, Loses, SameBut, Walk, Clean, After, Lookup, Node;
  }

  lemma LongMade(s: Fs, C: Cert, r: Path, c: nat, bm: Block, ws: seq<Write>, full: int)
    requires Tree(s.disk, C) && Agree(s.disk, Apply(s.disk, ws), C) && CanMake(s, r) && full < 0
    requires |NameIn(r)| > 26 && 0 !in NameIn(r)
    requires var o := Link(s, ParentOf(s.disk, r), NameIn(r), c, bm, ws, full); o.code == 0
    ensures var o := Link(s, ParentOf(s.disk, r), NameIn(r), c, bm, ws, full); Lookup(After(s, o).disk, r) == None
  {
    hide *;
    var p, d := ParentOf(s.disk, r), Apply(s.disk, ws);
    var o := Link(s, p, NameIn(r), c, bm, ws, full);
    LinkCases(s, p, NameIn(r), c, bm, ws, full);
    match FreeSlot(d, p, 0)
    case Miss => assert false;
    case Hit(k) =>
      var x := NewEntry(Ent(d, p, k), c, NameIn(r));
      LinkAtIs(d, p, k, NameIn(r), c, bm, ws);
      ApplyOn(s.disk, ws, SlotWrite(d, p, k, x));
      SlotPut(d, p, k, x);
      AfterIs(s, o);
      LongLink(s, C, p, r, c, d, k);
  }

  /** So can the mkdir. */
  lemma MkdirFinds(s: Fs, C: Cert, comps: seq<Str>, mode: nat, w: Caller)
    requires Inv(s, C) && Resolve(comps) != [] && NewName(NameIn(Resolve(comps))) && mode < 0x1000
    requires Mkdir(s, comps, mode, w).code == 0
    ensures Lookup(After(s, Mkdir(s, comps, mode, w)).disk, Resolve(comps)).Some? <==> |NameIn(Resolve(comps))| <= 26
  {
    hide *;
    InvParts(s, C);
    var r, k := Resolve(comps), Take(s.bitmap, |s.disk|, 2);
    NameFacts(s.disk, r);
    if |NameIn(r)| <= 26 {
      var D, t, L, c' := MkdirKeeps(s, C, comps, mode, w);
      MadeShows(s, C, Mkdir(s, comps, mode, w), D, t, L, r, Dir(NewAttr(0x4000 + mode, w)), 2, EOPNOTSUPP, c', 4096);
    } else {
      MkdirShape(s, comps, mode, w);
      RefusalNegative(s, r);
      ErrsAre(s);
      var c, b := k.blocks[0], k.blocks[1];
      var ws := MkdirWrites(k.map8, c, b, mode, w);
      InvSmall(s, C);
      TakesTwo(s);
      AreDirWrites(k.map8, c, b, mode, w);
      NewDirFacts(s, c, k.map8, mode, b, w);
      MkdirLays(s, C, c, b, k.map8, ws, NewDir(mode, b, w));
      LaidParts(s, C, c, k.map8, ws);
      LongMade(s, C, r, c, k.map8, ws, EOPNOTSUPP);
    }
  }

  // ---- two entries of one name ----

  lemma OneOfAName(e: Disk, E: Cert, p: nat, k: nat, l: nat)
    requires Tree(e, E) && Ino(E, p) && DirAt(e, p) && k < Slots(e, p) && l < Slots(e, p)
    requires Ent(e, p, k).valid && Ent(e, p, l).valid && NameAt(e, p, k) == NameAt(e, p, l)
    ensures k == l
  {
    hide Ent, Slots, NameAt, DirAt, Bounds, Nodes, Owns, Owned, Links, Linked;
    assert Live(e, E, p, k) && Live(e, E, p, l);
  }

  /** Two live slots of one directory that carry the same name: no certificate makes that a tree. */
  lemma Twins(e: Disk, q: Path, p: nat, k: nat, l: nat)
    requires Walk(e, q) == Ok(p) && DirAt(e, p) && k < Slots(e, p) && l < Slots(e, p) && k != l
    requires Ent(e, p, k).valid && Ent(e, p, l).valid && NameAt(e, p, k) == NameAt(e, p, l)
    ensures !Mountable(e)
  {
    hide DirAt, Slots, Ent, NameAt, Walk;
    if Mountable(e) {
      var E: Cert :| Safe(e, E);
      assert Tree(e, E) by { hide Tree; }
      WalkIsPath(e, E, q);
      OneOfAName(e, E, p, k, l);
    }
  }

  /** Slot k of directory p gets a name that another live slot l of it has: the disk cannot be mounted any more. */
  lemma Clash(d: Disk, C: Cert, f: Disk, q: Path, p: nat, k: nat, l: nat, x: Dirent)
    requires Tree(d, C) && Agree(d, f, C) && Walk(d, q) == Ok(p) && DirAt(d, p) && k < Slots(d, p) && l < Slots(d, p)
    requires k != l
    requires Ent(d, p, l).valid && x.valid && NameAt(d, p, l) == CStr(x.name)
    ensures !Mountable(PatchSlot(f, p, k, x))
  {
    hide *;
    var e := PatchSlot(f, p, k, x);
    WalkIsPath(d, C, q);
    SameTreeAfter(d, f, C, p, k, x);
    SlotKept(d, C, e, p, k, l);
    WalkShort(d, C, e, p, k, q, q);
    NameOf(e, p, k);
    NameOf(e, p, l);
    NameOf(d, p, l);
    Twins(e, q, p, k, l);
  }

  lemma SlotKept(d: Disk, C: Cert, e: Disk, p: nat, k: nat, l: nat)
    requires SameTree(d, e, C, p, k) && Ino(C, p) && DirAt(d, p) && l < Slots(d, p) && l != k
    ensures Ent(e, p, l) == Ent(d, p, l)
  {
    hide Ent, Slots, DirAt, SameIno;
  }

  lemma NameOf(d: Disk, p: nat, k: nat)
    ensures NameAt(d, p, k) == CStr(Ent(d, p, k).name)
  {
    hide Ent, CStr;
  }

  /** Linking under a cut name that is taken. */
  lemma LinkClash(s: Fs, C: Cert, r: Path, c: nat, bm: Block, ws: seq<Write>, full: int)
    requires Tree(s.disk, C) && Agree(s.disk, Apply(s.disk, ws), C) && CanMake(s, r) && full < 0 && NewName(NameIn(r))
    requires !Stores(s.disk, r) && Link(s, ParentOf(s.disk, r), NameIn(r), c, bm, ws, full).code == 0
    ensures !Mountable(After(s, Link(s, ParentOf(s.disk, r), NameIn(r), c, bm, ws, full)).disk)
  {
    hide *;
    var p, d, f := ParentOf(s.disk, r), s.disk, Apply(s.disk, ws);
    var o := Link(s, p, NameIn(r), c, bm, ws, full);
    LinkCases(s, p, NameIn(r), c, bm, ws, full);
    var l := TakenSlot(s, C, r);
    match FreeSlot(f, p, 0)
    case Miss => assert false;
    case Hit(k) =>
      var x := NewEntry(Ent(f, p, k), c, NameIn(r));
      LinkAtIs(f, p, k, NameIn(r), c, bm, ws);
      ApplyOn(d, ws, SlotWrite(f, p, k, x));
      SlotPut(f, p, k, x);
      AfterIs(s, o);
      NewEntryCut(Ent(f, p, k), c, NameIn(r));
      CanMakeParts(s, r);
      WalkIsPath(d, C, Front(r));
      FreeIsFree(d, C, f, p, k);
      Clash(d, C, f, Front(r), p, k, l, x);
  }

  lemma CanMakeParts(s: Fs, r: Path)
    requires CanMake(s, r)
    ensures r != [] && Walk(s.disk, Front(r)) == Ok(ParentOf(s.disk, r)) && DirAt(s.disk, ParentOf(s.disk, r))
  {
    hide Find;
  }

  lemma NewEntryCut(was: Dirent, c: nat, n: Str)
    requires 0 !in n || NewName(n)
    ensures NewEntry(was, c, n).valid && CStr(NewEntry(was, c, n).name) == Kept(n)
  {
    StoredNameReadsBack(was.name, n);
    hide CStr, StoreName;
  }

  /** The slot that has the name that the name of r is cut to. */
  lemma TakenSlot(s: Fs, C: Cert, r: Path) returns (l: nat)
    requires Tree(s.disk, C) && CanMake(s, r) && !Stores(s.disk, r)
    ensures var d, p := s.disk, ParentOf(s.disk, r);
      l < Slots(d, p) && Ent(d, p, l).valid && NameAt(d, p, l) == Kept(NameIn(r))
  {
    StoredParts(r);
    CanMakeParts(s, r);
    var d, p := s.disk, ParentOf(s.disk, r);
    hide Tree, Find, Ent, Slots, DirAt, CStr;
    assert Walk(d, Stored(r)) == Step(d, p, Kept(NameIn(r)));
    l := Find(d, p, Kept(NameIn(r)), 0).slot;
  }

  lemma FreeIsFree(d: Disk, C: Cert, f: Disk, p: nat, k: nat)
    requires Tree(d, C) && Agree(d, f, C) && Ino(C, p) && DirAt(d, p) && FreeSlot(f, p, 0) == Hit(k)
    ensures k < Slots(d, p) && !Ent(d, p, k).valid
  {
    AgreeSame(d, f, C);
    assert SameIno(d, f, p) && 0 !in C;
    hide Tree, Ent, Slots, DirAt, NodeOk, Agree;
  }

  /** After a create that succeeds the disk can be mounted if and only if the name fits 26 bytes or what it is cut to
      was not taken; otherwise two entries carry the same name. If it can, the file is found where its name is
      stored. */
  lemma CreateNeedsPlace(s: Fs, C: Cert, comps: seq<Str>, mode: nat, w: Caller)
    requires Inv(s, C) && Resolve(comps) != [] && NewName(NameIn(Resolve(comps))) && mode < 0x1_0000_0000 && IsReg(mode)
    requires Create(s, comps, mode, w).code == 0
    ensures var r, e := Resolve(comps), After(s, Create(s, comps, mode, w)).disk;
      && (Mountable(e) <==> Stores(s.disk, r))
      && (Stores(s.disk, r) ==> Gains(s.disk, e, Stored(r), File(NewAttr(mode, w), [])))
  {
    hide *;
    var r, c, o := Resolve(comps), FirstFree(s.bitmap, |s.disk|, 2), Create(s, comps, mode, w);
    InvParts(s, C);
    if Stores(s.disk, r) {
      var D, t, L, c' := CreateKeeps(s, C, comps, mode, w);
      MadeMounts(s, C, o, D, t, L, Stored(r), File(NewAttr(mode, w), []), 1, ENOSPC, c', 0);
    } else {
      CreateShape(s, comps, mode, w);
      RefusalNegative(s, r);
      ErrsAre(s);
      LaidAgrees(s, C, mode, w);
      LinkClash(s, C, r, c, SetBit(s.bitmap, c), CreateWrites(SetBit(s.bitmap, c), c, mode, w), ENOSPC);
    }
  }

  /** The same for mkdir. */
  lemma MkdirNeedsPlace(s: Fs, C: Cert, comps: seq<Str>, mode: nat, w: Caller)
    requires Inv(s, C) && Resolve(comps) != [] && NewName(NameIn(Resolve(comps))) && mode < 0x1000
    requires Mkdir(s, comps, mode, w).code == 0
    ensures var r, e := Resolve(comps), After(s, Mkdir(s, comps, mode, w)).disk;
      && (Mountable(e) <==> Stores(s.disk, r))
      && (Stores(s.disk, r) ==> Gains(s.disk, e, Stored(r), Dir(NewAttr(0x4000 + mode, w))))
  {
    hide *;
    var r, k, o := Resolve(comps), Take(s.bitmap, |s.disk|, 2), Mkdir(s, comps, mode, w);
    InvParts(s, C);
    if Stores(s.disk, r) {
      var D, t, L, c' := MkdirKeeps(s, C, comps, mode, w);
      MadeMounts(s, C, o, D, t, L, Stored(r), Dir(NewAttr(0x4000 + mode, w)), 2, EOPNOTSUPP, c', 4096);
    } else {
      MkdirShape(s, comps, mode, w);
      RefusalNegative(s, r);
      ErrsAre(s);
      DirLaidAgrees(s, C, mode, w);
      LinkClash(s, C, r, k.blocks[0], k.map8, MkdirWrites(k.map8, k.blocks[0], k.blocks[1], mode, w), EOPNOTSUPP);
    }
  }

  lemma MadeMounts(s: Fs, C: Cert, o: Outcome, D: Cert, t: nat, L: set<nat>, r: Path, obj: Obj, n: nat, full: int,
      c: nat, size: int)
    requires Made(s, C, o, D, t, L, r, obj, n, full, c, size) && o.code == 0
    ensures Mountable(After(s, o).disk) && Gains(s.disk, After(s, o).disk, r, obj)
  {
    SoundMounts(s, C, o, D, t) by { hide Stages, Inv, Loses, SameBut, Walk, Clean, After, Lookup, Node; }
    hide Stages, Inv, Loses, SameBut, Walk, Clean, After, Gains, Node, Mountable;
  }

  /** After a rename that succeeds the disk can be mounted if and only if the place where the destination is stored was
      free or the source itself; otherwise two entries carry the same name. */
  lemma RenameNeedsPlace(s: Fs, C: Cert, src: seq<Str>, dst: seq<Str>)
    requires Inv(s, C) && RenameDefined(s.disk, src, dst) && NewName(NameIn(Resolve(dst)))
    requires Rename(s, src, dst).code == 0
    ensures Mountable(After(s, Rename(s, src, dst)).disk) <==> Receives(s.disk, Resolve(src), Resolve(dst))
  {
    hide *;
    var d, rs, rd, o := s.disk, Resolve(src), Resolve(dst), Rename(s, src, dst);
    var p := ParentOf(d, rs);
    InvParts(s, C);
    if Receives(d, rs, rd) {
      RenameKeeps(s, C, src, dst);
      SoundMounts(s, C, o, C, 1);
    } else {
      var k := RenamedSlot(s, C, src, dst);
      var l := ReceivingSlot(d, C, rs, rd);
      var x := Renamed(Ent(d, p, k), NameIn(rd));
      SlotPut(d, p, k, x);
      ApplyOne(d, SlotWrite(d, p, k, x));
      AfterIs(s, o);
      AgreeItself(d, C);
      RenamedCut(d, p, k, NameIn(rd));
      SlotsApart(d, p, k, l, rs, rd);
      Clash(d, C, d, Front(rs), p, k, l, x);
    }
  }

  /** What a rename that succeeds does: the slot that it rewrites. */
  lemma RenamedSlot(s: Fs, C: Cert, src: seq<Str>, dst: seq<Str>) returns (k: nat)
    requires Tree(s.disk, C) && RenameDefined(s.disk, src, dst) && Rename(s, src, dst).code == 0
    ensures var d, rs, rd := s.disk, Resolve(src), Resolve(dst); var p := ParentOf(d, rs);
      && rs != [] && rd != [] && Walk(d, Front(rs)) == Ok(p) && DirAt(d, p) && Front(rd) == Front(rs)
      && k < Slots(d, p) && Ent(d, p, k).valid && NameAt(d, p, k) == NameIn(rs)
      && Rename(s, src, dst) == Outcome(0, [SlotWrite(d, p, k, Renamed(Ent(d, p, k), NameIn(rd)))], s.bitmap)
  {
    hide *;
    var d, rs, rd := s.disk, Resolve(src), Resolve(dst);
    var p := RenameGoes(s, src, dst);
    RenameSigns();
    ErrsAre(s);
    ParentIs(d, rs);
    NameInIs(rs);
    NameInIs(rd);
    WalkIsPath(d, C, Front(rs));
    WalkIsPath(d, C, Front(rd));
    k := Find(d, p, NameIn(rs), 0).slot;
    RenameInShape(s, p, NameIn(rs), NameIn(rd), k);
    HitIs(d, p, NameIn(rs));
  }

  lemma HitIs(d: Disk, p: nat, name: Str)
    requires Find(d, p, name, 0).Hit?
    ensures var k := Find(d, p, name, 0).slot; k < Slots(d, p) && Ent(d, p, k).valid && NameAt(d, p, k) == name
  {
    hide Slots, Ent, CStr;
  }

  lemma ReceivingSlot(d: Disk, C: Cert, rs: Path, rd: Path) returns (l: nat)
    requires rs != [] && rd != [] && Front(rd) == Front(rs) && Walk(d, Front(rs)) == Ok(ParentOf(d, rs))
    requires DirAt(d, ParentOf(d, rs))
    requires !Receives(d, rs, rd)
    ensures var p := ParentOf(d, rs);
      l < Slots(d, p) && Ent(d, p, l).valid && NameAt(d, p, l) == Kept(NameIn(rd)) && Kept(NameIn(rd)) != NameIn(rs)
  {
    StoredParts(rd);
    FrontLast(rs);
    FrontLast(Stored(rd));
    var p := ParentOf(d, rs);
    hide Find, Ent, Slots, DirAt, CStr, ObjAt;
    assert Walk(d, Stored(rd)) == Step(d, p, Kept(NameIn(rd)));
    l := Find(d, p, Kept(NameIn(rd)), 0).slot;
  }

  lemma SlotsApart(d: Disk, p: nat, k: nat, l: nat, rs: Path, rd: Path)
    requires NameAt(d, p, k) == NameIn(rs) && NameAt(d, p, l) == Kept(NameIn(rd)) && Kept(NameIn(rd)) != NameIn(rs)
    ensures k != l
  {}

  lemma RenamedCut(d: Disk, p: nat, k: nat, n: Str)
    requires NewName(n) && Ent(d, p, k).valid
    ensures var x := Renamed(Ent(d, p, k), n); x.valid && CStr(x.name) == Kept(n)
  {
    StoredNameReadsBack(Ent(d, p, k).name, n);
    hide CStr, StoreName, Ent;
  }

  /** For a destination name of at most 26 bytes that says: the scan saw the destination if it was there. */
  lemma RenameSeesDestination(s: Fs, C: Cert, src: seq<Str>, dst: seq<Str>)
    requires Inv(s, C) && RenameDefined(s.disk, src, dst) && NewName(NameIn(Resolve(dst)))
    requires |NameIn(Resolve(dst))| <= 26 && Rename(s, src, dst).code == 0
    ensures Mountable(After(s, Rename(s, src, dst)).disk) <==>
      !Unseen(s.disk, ParentOf(s.disk, Resolve(src)), NameIn(Resolve(src)), NameIn(Resolve(dst)))
  {
    hide *;
    var d, rs, rd := s.disk, Resolve(src), Resolve(dst);
    InvParts(s, C);
    RenameNeedsPlace(s, C, src, dst);
    var k := RenamedSlot(s, C, src, dst);
    var p := RenameGoes(s, src, dst);
    ParentIs(d, rs);
    NameInIs(rs);
    NameInIs(rd);
    StoredParts(rd);
    UnseenIs(s, rs, rd);
  }

  lemma UnseenIs(s: Fs, rs: Path, rd: Path)
    requires var d, p := s.disk, ParentOf(s.disk, rs);
      && rs != [] && rd != [] && Walk(d, Front(rs)) == Ok(p) && DirAt(d, p) && Front(rd) == Front(rs)
      && Stored(rd) == rd
      && RenameIn(s, p, NameIn(rs), NameIn(rd)).code == 0
    ensures Receives(s.disk, rs, rd) <==> !Unseen(s.disk, ParentOf(s.disk, rs), NameIn(rs), NameIn(rd))
  {
    assert EEXIST < 0 && EOPNOTSUPP < 0;
    var d, p := s.disk, ParentOf(s.disk, rs);
    FrontLast(rs);
    FrontLast(rd);
    assert Walk(d, rd) == Step(d, p, NameIn(rd));
    hide Ent, DirAt, ObjAt, SlotWrite, Renamed, Find, Stored;
  }

  lemma SoundMounts(s: Fs, C: Cert, o: Outcome, D: Cert, t: nat)
    requires Sound(s, C, o, D, t)
    ensures Mountable(After(s, o).disk)
  {
    IsMountable(After(s, o), D);
  }

  // ---- a path that translate gets wrong ----

  lemma PatchThenFlush(d: Disk, C: Cert, p: nat, k: nat, x: Dirent, y: Sector)
    requires Tree(d, C) && Ino(C, p) && DirAt(d, p) && k < Slots(d, p)
    ensures SameTree(d, Put(PatchSlot(d, p, k, x), 1, y), C, p, k)
  {
    OneOutside(d, C);
    SlotIsData(d, C, p, k);
    var f := Put(d, 1, y);
    assert Agree(d, f, C);
    assert At(f, p) == At(d, p) && At(f, SlotBlock(d, p, k)) == At(d, SlotBlock(d, p, k));
    assert PatchSlot(f, p, k, x) == Put(PatchSlot(d, p, k, x), 1, y) by {
      hide PatchDirent;
      Commute(d, SlotBlock(d, p, k), SlotData(d, p, k, x), y);
    }
    hide PatchSlot;
    SameTreeAfter(d, f, C, p, k, x);
  }

  lemma Commute(d: Disk, b: nat, x: Sector, y: Sector)
    requires b != 1
    ensures Put(Put(d, 1, y), b, x) == Put(Put(d, b, x), 1, y)
  {}

  /** Detaching the entry of r while freeing another inode i that a shorter path leads to. */
  lemma DetachWrong(s: Fs, C: Cert, q: Path, r: Path, i: nat, bm: Block)
    requires Inv(s, C) && r != [] && Walk(s.disk, q) == Ok(i) && |q| < |r| && !Bit(bm, i)
    requires Walk(s.disk, Front(r)).Ok? && DirAt(s.disk, ParentOf(s.disk, r))
    ensures var o := Detach(s, ParentOf(s.disk, r), NameIn(r), bm); !Mountable(After(s, o).disk)
  {
    var d, p := s.disk, ParentOf(s.disk, r);
    var o, v := Detach(s, p, NameIn(r), bm), Flush(bm);
    assert |Front(r)| == |r| - 1;
    hide *;
    InvParts(s, C);
    OneOutside(d, C);
    ParentIs(d, r);
    WalkIsPath(d, C, Front(r));
    FlushIsWrite(bm);
    AfterIs(s, o);
    DetachCases(s, p, NameIn(r), bm);
    var h := Find(d, p, NameIn(r), 0);
    if h.Hit? {
      var w := SlotWrite(d, p, h.slot, Cleared(Ent(d, p, h.slot)));
      SlotPut(d, p, h.slot, Cleared(Ent(d, p, h.slot)));
      ApplyTwo(d, w, v);
      PatchThenFlush(d, C, p, h.slot, Cleared(Ent(d, p, h.slot)), v.data);
      WalkShort(d, C, After(s, o).disk, p, h.slot, q, Front(r));
      Freed(After(s, o).disk, q, i, bm);
    } else {
      ApplyOne(d, v);
      FlushOnly(d, C, v, q);
      Freed(After(s, o).disk, q, i, bm);
    }
  }

  lemma FlushOnly(d: Disk, C: Cert, v: Write, q: Path)
    requires Tree(d, C) && v.lba == 1 && Walk(d, q).Ok?
    ensures Walk(Put(d, 1, v.data), q) == Walk(d, q)
  {
    OneOutside(d, C);
    hide Tree, Walk, Lookup;
    AgreeLookup(d, Put(d, 1, v.data), C, q);
  }

  lemma DetachCases(s: Fs, p: nat, name: Str, bm: Block)
    ensures var h := Find(s.disk, p, name, 0); h.Hit? ==> h.slot < Slots(s.disk, p)
    ensures var h := Find(s.disk, p, name, 0); var o := Detach(s, p, name, bm);
      && o.bitmap == bm
      && o.writes == if h.Hit? then [SlotWrite(s.disk, p, h.slot, Cleared(Ent(s.disk, p, h.slot))), Flush(bm)]
          else [Flush(bm)]
  {
    hide SlotWrite, Flush, Cleared;
  }

  /** An inode that a path leads to and that is not marked: the disk cannot be mounted. */
  lemma Freed(e: Disk, q: Path, i: nat, bm: Block)
    requires Walk(e, q) == Ok(i) && At(e, 1).bytes == bm && !Bit(bm, i)
    ensures !Mountable(e)
  {
    if Mountable(e) {
      InoMarked(e, q);
    }
  }

  lemma InoMarked(e: Disk, q: Path)
    requires Mountable(e) && Walk(e, q).Ok?
    ensures OnDisk(e, Walk(e, q).inum)
  {
    hide Walk, Bit;
    var E: Cert :| Safe(e, E);
    WalkIsPath(e, E, q);
    assert Walk(e, q).inum in E;
  }

  /** A '..' that lands on the wrong inode, and what is taken off the bitmap for it. */
  lemma WrongTarget(s: Fs, C: Cert, comps: seq<Str>) returns (q: Path)
    requires Inv(s, C) && !Faithful(comps) && Translate(s.disk, comps).Ok?
    ensures var i := Translate(s.disk, comps).inum;
      && Walk(s.disk, q) == Ok(i) && |q| < |Resolve(comps)| && Ino(C, i) && i < 32768
      && !Bit(ClearBit(ClearAll(s.bitmap, Table(s.disk, i)), i), i)
      && !Bit(ClearBit(ClearBit(s.bitmap, Ptr(s.disk, i, 0)), i), i)
  {
    var i := Translate(s.disk, comps).inum;
    InvParts(s, C);
    q := Land(comps).cur;
    hide Inv, Land, Faithful, Resolve, Walk, Bit, ClearBit, ClearAll, Table, Ptr;
    TranslateVersusResolve(s.disk, C, comps);
    LandsRight(comps);
    WalkIsPath(s.disk, C, q);
    assert i in C && i < |s.disk|;
    SetThenTest(ClearAll(s.bitmap, Table(s.disk, i)), i, i);
    SetThenTest(ClearBit(s.bitmap, Ptr(s.disk, i, 0)), i, i);
  }

  /** After an unlink that succeeds the disk can be mounted if and only if translate got the path right. When it did
      not, one file keeps its name and loses its blocks, and another loses its name. */
  lemma UnlinkNeedsFaithful(s: Fs, C: Cert, comps: seq<Str>)
    requires Inv(s, C) && UnlinkDefined(s.disk, comps) && Unlink(s, comps).code == 0
    ensures Mountable(After(s, Unlink(s, comps)).disk) <==> Faithful(comps)
  {
    assert EISDIR < 0 && ENOTDIR < 0;
    hide *;
    var o, r := Unlink(s, comps), Resolve(comps);
    UnlinkFails(s, comps);
    UnlinkShape(s, comps);
    TraceFailsNegative(s.disk, comps);
    WalkFailsNegative(s.disk, Front(r));
    ErrsAre(s);
    if Faithful(comps) {
      var D, n := UnlinkKeeps(s, C, comps);
      SoundMounts(s, C, o, D, 1);
    } else {
      var q := WrongTarget(s, C, comps);
      var i := Translate(s.disk, comps).inum;
      ParentIs(s.disk, r);
      NameInIs(r);
      DetachWrong(s, C, q, r, i, ClearBit(ClearAll(s.bitmap, Table(s.disk, i)), i));
    }
  }

  /** The same for rmdir, whatever lies in later blocks of the directory: what rmdir drops unseen is lost, but the rest
      is a tree. */
  lemma RmdirNeedsFaithful(s: Fs, C: Cert, comps: seq<Str>)
    requires Inv(s, C) && RmdirDefined(s.disk, comps) && Rmdir(s, comps).code == 0
    ensures Mountable(After(s, Rmdir(s, comps)).disk) <==> Faithful(comps)
  {
    RemoveSigns();
    hide *;
    var r := Resolve(comps);
    RmdirFails(s, comps);
    RmdirShape(s, comps);
    TraceFailsNegative(s.disk, comps);
    WalkFailsNegative(s.disk, Front(r));
    ErrsAre(s);
    if Faithful(comps) {
      var D, L, n := RmdirKeeps(s, C, comps);
      SoundMounts(s, C, Rmdir(s, comps), D, 1);
    } else {
      var q := WrongTarget(s, C, comps);
      var i := Translate(s.disk, comps).inum;
      ParentIs(s.disk, r);
      NameInIs(r);
      DetachWrong(s, C, q, r, i, ClearBit(ClearBit(s.bitmap, Ptr(s.disk, i, 0)), i));
    }
  }

  // ---- a directory that rmdir takes for empty ----

  /** rmdir, when it succeeds, leaves a mountable disk and takes away one object only, if and only if translate got the
      path right and no block of the directory holds an entry; the code looks at the first block. */
  lemma RmdirNeedsEmpty(s: Fs, C: Cert, comps: seq<Str>)
    requires Inv(s, C) && RmdirDefined(s.disk, comps) && Rmdir(s, comps).code == 0
    ensures Translate(s.disk, comps).Ok?
    ensures var e := After(s, Rmdir(s, comps)).disk;
      && (Faithful(comps) ==> (Removed(s.disk, e, Resolve(comps)) <==> AllEmpty(s.disk, Translate(s.disk, comps).inum)))
      && (Mountable(e) && Removed(s.disk, e, Resolve(comps)) <==>
            Faithful(comps) && AllEmpty(s.disk, Translate(s.disk, comps).inum))
  {
    RemoveSigns();
    hide *;
    var o, r := Rmdir(s, comps), Resolve(comps);
    RmdirFails(s, comps);
    RmdirShape(s, comps);
    TraceFailsNegative(s.disk, comps);
    ErrsAre(s);
    InvParts(s, C);
    RmdirNeedsFaithful(s, C, comps);
    if Faithful(comps) {
      FaithfulTarget(s.disk, C, comps);
      var i := Translate(s.disk, comps).inum;
      if AllEmpty(s.disk, i) {
        var D, L, n := RmdirKeeps(s, C, comps);
      } else {
        LiveChild(s.disk, C, i, r, After(s, o).disk);
      }
    }
  }

  lemma LiveChild(d: Disk, C: Cert, i: nat, r: Path, e: Disk)
    requires Tree(d, C) && Ino(C, i) && DirAt(d, i) && Walk(d, r) == Ok(i) && !AllEmpty(d, i)
    ensures !Removed(d, e, r)
  {
    var k :| 0 <= k < Slots(d, i) && Ent(d, i, k).valid;
    var n := NameAt(d, i, k);
    assert Live(d, C, i, k);
    hide Tree, DirAt, Slots, Ent, NameAt, Step, Walk, Removed;
    StepFinds(d, C, i, k);
    WalkOn(d, r, n);
    if Removed(d, e, r) {
      NothingBelow(d, e, r, n);
    }
  }

  /** Nothing is found below what is not found. */
  lemma NothingBelow(d: Disk, e: Disk, r: Path, n: Str)
    requires Removed(d, e, r)
    ensures Walk(d, r + [n]).Fail?
  {
    assert Front(r + [n]) == r && r + [n] != r;
    assert Lookup(e, r) == None && Lookup(e, r + [n]) == Lookup(d, r + [n]);
    hide Step, ObjAt;
  }

  // ---- the exact condition ----

  /** For arguments as the kernel and pathparse hand them out, the disk can be mounted after a call if and only if the
      call asked for what it may: no operation breaks the tree in any other way. */
  lemma AsksExactly(s: Fs, C: Cert, a: Call)
    requires Inv(s, C) && Proper(s, a) && InTable(s, a)
    ensures Callable(s, a) && (Mountable(After(s, Do(s, a)).disk) <==> Asks(s, a))
  {
    hide *;
    ProperIs(s, a);
    CallableIs(s, a);
    AsksByCode(s, a);
    if Asks(s, a) {
      var D, t := CallKeeps(s, C, a);
      AccountParts(s, C, a, Do(s, a), D);
      IsMountable(After(s, Do(s, a)), D);
    } else {
      DoIs(s, a);
      HeedsIs(s, a);
      NoneAboveZero(s, a);
      match a
      case CreateCall(p, mode, who) => CreateNeedsPlace(s, C, p, mode, who);
      case MkdirCall(p, mode, who) => MkdirNeedsPlace(s, C, p, mode, who);
      case UnlinkCall(p) => UnlinkNeedsFaithful(s, C, p);
      case RmdirCall(p) => RmdirNeedsFaithful(s, C, p);
      case RenameCall(p, q) =>
        RenameFails(s, p, q);
        RenameNeedsPlace(s, C, p, q);
      case _ =>
    }
  }

  /** Only write returns a positive code. */
  lemma NoneAboveZero(s: Fs, a: Call)
    requires Callable(s, a) && (a.CreateCall? || a.MkdirCall? || a.UnlinkCall? || a.RmdirCall? || a.RenameCall?)
    ensures Do(s, a).code <= 0
  {
    hide *;
    DoIs(s, a);
    CallableIs(s, a);
    ErrsAre(s);
    match a
    case CreateCall(p, mode, who) =>
      var bm := SetBit(s.bitmap, FirstFree(s.bitmap, |s.disk|, 2));
      CreateShape(s, p, mode, who);
      RefusalNegative(s, Resolve(p));
      LinkSign(s, ParentOf(s.disk, Resolve(p)), NameIn(Resolve(p)), FirstFree(s.bitmap, |s.disk|, 2), bm,
               CreateWrites(bm, FirstFree(s.bitmap, |s.disk|, 2), mode, who), ENOSPC);
    case MkdirCall(p, mode, who) =>
      var t := Take(s.bitmap, |s.disk|, 2);
      MkdirShape(s, p, mode, who);
      RefusalNegative(s, Resolve(p));
      if |t.blocks| >= 2 {
        LinkSign(s, ParentOf(s.disk, Resolve(p)), NameIn(Resolve(p)), t.blocks[0], t.map8,
                 MkdirWrites(t.map8, t.blocks[0], t.blocks[1], mode, who), EOPNOTSUPP);
      }
    case UnlinkCall(p) => UnlinkFails(s, p);
    case RmdirCall(p) => RmdirFails(s, p);
    case RenameCall(p, q) => RenameFails(s, p, q);
  }

  lemma LinkSign(s: Fs, p: nat, name: Str, c: nat, bm: Block, ws: seq<Write>, full: int)
    requires full < 0
    ensures Link(s, p, name, c, bm, ws, full).code <= 0
  {
    hide FreeSlot, SlotWrite, NewEntry;
  }

  lemma AsksByCode(s: Fs, a: Call)
    requires Proper(s, a) && InTable(s, a)
    ensures Callable(s, a) && (Asks(s, a) <==> (Do(s, a).code >= 0 ==> Heeds(s, a)))
  {
    hide Do, Heeds, Callable, InTable, Parsed;
  }
}
