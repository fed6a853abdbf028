/** rename: one directory entry is rewritten, and a whole subtree moves. */
module Renaming {
  import opened Format
  import opened Bits
  import opened Image
  import opened Change
  import opened Paths
  import opened Ops
  import opened Keep
  import opened Removing
  import opened Making

  /** Where a path ends up when the subtree at r moves to r'. */
  function Move(r: Path, r': Path, p: Path): Path { if r <= p then r' + p[|r|..] else p }

  /** The subtree at r is found at r', inode by inode, and nothing is left at r; every other path leads where it led. */
  ghost predicate Moved(d: Disk, e: Disk, r: Path, r': Path) {
    && Walk(d, r).Ok? && (r' != r ==> Walk(d, r').Fail?)
    && (forall q: Path :: Walk(d, q).Ok? ==> Walk(e, Move(r, r', q)) == Walk(d, q))
    && (forall q: Path :: Walk(e, q).Ok? ==> exists p: Path :: Walk(d, p) == Walk(e, q) && q == Move(r, r', p))
    && (forall i, q: Path :: Walk(d, q) == Ok(i) ==> ObjAt(e, i) == ObjAt(d, i))
  }

  /** For every path below r the object is found below r', and at r nothing is found any more. */
  lemma MovedSubtree(d: Disk, C: Cert, e: Disk, r: Path, r': Path, rest: Path)
    requires Tree(d, C) && Moved(d, e, r, r') && |r| == |r'|
    ensures Lookup(d, r + rest).Some? ==> Lookup(e, r' + rest) == Lookup(d, r + rest)
    ensures r != r' ==> Lookup(e, r + rest) == None
  {
    hide *;
    MovedAlong(d, e, r, r', rest);
    if r != r' {
      NothingMovesBack(r, r', rest);
      NotFoundUnmoved(d, e, r, r', r + rest);
    }
  }

  lemma MovedAlong(d: Disk, e: Disk, r: Path, r': Path, rest: Path)
    requires Moved(d, e, r, r')
    ensures Lookup(d, r + rest).Some? ==> Lookup(e, r' + rest) == Lookup(d, r + rest)
  {
    assert Move(r, r', r + rest) == r' + rest;
    hide Walk, ObjAt, Move;
  }

  lemma NotFoundUnmoved(d: Disk, e: Disk, r: Path, r': Path, q: Path)
    requires Moved(d, e, r, r') && forall p: Path :: Move(r, r', p) != q
    ensures Lookup(e, q) == None
  {
    hide Walk, ObjAt, Move;
  }

  lemma NothingMovesBack(r: Path, r': Path, rest: Path)
    requires |r| == |r'| && r != r'
    ensures forall p: Path :: Move(r, r', p) != r + rest
  {
    forall p: Path
      ensures Move(r, r', p) != r + rest
    {
      assert (r + rest)[..|r|] == r;
      if r <= p {
        assert Move(r, r', p)[..|r|] == r';
      }
    }
  }

  /** Every name is as it was, but for the one of the entry c. */
  ghost predicate RenamedNames(d: Disk, C: Cert, e: Disk, c: nat, dst: Str) {
    forall j :: IsEntry(C, j) ==>
      NameAt(e, C[j].parent, C[j].slot) == if j == c then dst else NameAt(d, C[j].parent, C[j].slot)
  }

  /** Every inode sits where the move sends its path. */
  lemma {:induction false} RenamedPath(d: Disk, C: Cert, e: Disk, p: nat, k: nat, c: nat, i: nat, dst: Str)
    requires Tree(d, C) && Tree(e, C) && Ino(C, p) && Ino(C, i) && IsEntry(C, c) && C[c].parent == p && C[c].slot == k
    requires RenamedNames(d, C, e, c, dst)
    ensures PathOf(e, C, i) == Move(PathOf(d, C, c), PathOf(d, C, p) + [dst], PathOf(d, C, i))
    decreases Depth(C, i)
  {
    hide DirAt, Slots, Ent, NameAt, Nodes, Owns, Owned, Links, Names;
    var r := PathOf(d, C, c);
    DepthIsLength(d, C, i);
    DepthIsLength(d, C, c);
    if IsEntry(C, i) {
      var j := C[i].parent;
      RenamedPath(d, C, e, p, k, c, j, dst);
      var n := NameAt(d, j, C[i].slot);
      assert PathOf(d, C, i) == PathOf(d, C, j) + [n];
      if i == c {
        DepthIsLength(d, C, j);
        assert PathOf(d, C, i)[|r|..] == [];
        assert !(r <= PathOf(d, C, j));
      } else if r <= PathOf(d, C, i) {
        SamePlace(d, C, c, i);
        assert |r| <= |PathOf(d, C, j)|;
        assert PathOf(d, C, i)[|r|..] == PathOf(d, C, j)[|r|..] + [n];
      } else {
        assert !(r <= PathOf(d, C, j));
      }
    }
  }

  lemma RenameNamespace(d: Disk, C: Cert, e: Disk, c: nat, r: Path, r': Path)
    requires Tree(d, C) && Tree(e, C) && Ino(C, c) && PathOf(d, C, c) == r && |r'| == |r|
    requires forall i :: Ino(C, i) ==> PathOf(e, C, i) == Move(r, r', PathOf(d, C, i)) && ObjAt(e, i) == ObjAt(d, i)
    requires r' != r ==> Walk(d, r').Fail?
    ensures Moved(d, e, r, r')
  {
    hide Tree, PathOf, ObjAt, Move;
    WalkReaches(d, C, c);
    forall q: Path | Walk(d, q).Ok?
      ensures Walk(e, Move(r, r', q)) == Walk(d, q) && Ino(C, Walk(d, q).inum)
    {
      WalkIsPath(d, C, q);
      WalkReaches(e, C, Walk(d, q).inum);
    }
    forall q: Path | Walk(e, q).Ok?
      ensures exists p: Path :: Walk(d, p) == Walk(e, q) && q == Move(r, r', p)
    {
      WalkIsPath(e, C, q);
      var i := Walk(e, q).inum;
      WalkReaches(d, C, i);
      assert Walk(d, PathOf(d, C, i)) == Walk(e, q) && q == Move(r, r', PathOf(d, C, i));
    }
  }

  /** Rewriting the name of a slot: the tree, the moved subtree, and nothing else. */
  lemma RenameEffect(d: Disk, C: Cert, c: nat, x: Dirent, dst: Str)
    requires Tree(d, C) && IsEntry(C, c)
    requires x.valid && x.inode == c && CStr(x.name) == dst && GoodName(dst)
    requires forall l :: Live(d, C, C[c].parent, l) && l != C[c].slot ==> NameAt(d, C[c].parent, l) != dst
    ensures var e := PatchSlot(d, C[c].parent, C[c].slot, x); var r := PathOf(d, C, c);
      Tree(e, C) && SameTop(d, e) && Moved(d, e, r, PathOf(d, C, C[c].parent) + [dst])
  {
    hide *;
    EntryIsIno(C, c);
    var p, k := C[c].parent, C[c].slot;
    var e, r := PatchSlot(d, p, k, x), PathOf(d, C, c);
    EntryLive(d, C, c);
    LiveParts(d, C, p, k);
    FrontLast(r);
    RenameTree(d, C, p, k, x);
    RenamePatch(d, C, p, k, x);
    RenameFree(d, C, c, dst);
    RenamedName(d, C, c, x);
    forall i | Ino(C, i)
      ensures ObjAt(e, i) == ObjAt(d, i)
    {
      PatchObj(d, C, p, k, x, i);
    }
    forall i | Ino(C, i)
      ensures PathOf(e, C, i) == Move(r, PathOf(d, C, p) + [dst], PathOf(d, C, i))
    {
      RenamedPath(d, C, e, p, k, c, i, dst);
    }
    RenameNamespace(d, C, e, c, r, PathOf(d, C, p) + [dst]);
  }

  lemma LiveParts(d: Disk, C: Cert, i: nat, k: nat)
    requires Live(d, C, i, k)
    ensures Ino(C, i) && DirAt(d, i) && k < Slots(d, i) && Ent(d, i, k).valid
  {}

  lemma RenamePatch(d: Disk, C: Cert, p: nat, k: nat, x: Dirent)
    requires Tree(d, C) && Ino(C, p) && DirAt(d, p) && k < Slots(d, p)
    ensures SameTop(d, PatchSlot(d, p, k, x))
  {
    PatchEffect(d, C, p, k, x);
    SlotIsData(d, C, p, k);
    hide PatchSlot;
    assert 1 !in C;
  }

  lemma RenamedName(d: Disk, C: Cert, c: nat, x: Dirent)
    requires Tree(d, C) && IsEntry(C, c)
    ensures RenamedNames(d, C, PatchSlot(d, C[c].parent, C[c].slot, x), c, CStr(x.name))
  {
    assert LinkedAt(d, C, c);
    PatchEffect(d, C, C[c].parent, C[c].slot, x);
    hide PatchSlot, CStr;
    forall j | IsEntry(C, j)
      ensures var e := PatchSlot(d, C[c].parent, C[c].slot, x);
        NameAt(e, C[j].parent, C[j].slot) == if j == c then CStr(x.name) else NameAt(d, C[j].parent, C[j].slot)
    {
      assert LinkedAt(d, C, j);
    }
  }

  /** The new path leads nowhere before the rename, unless it is the old one. */
  lemma RenameFree(d: Disk, C: Cert, c: nat, dst: Str)
    requires Tree(d, C) && IsEntry(C, c)
    requires forall l :: Live(d, C, C[c].parent, l) && l != C[c].slot ==> NameAt(d, C[c].parent, l) != dst
    ensures var r' := PathOf(d, C, C[c].parent) + [dst];
      r' != PathOf(d, C, c) ==> Walk(d, r').Fail?
  {
    var p := C[c].parent;
    var r' := PathOf(d, C, p) + [dst];
    assert LinkedAt(d, C, c);
    if Walk(d, r').Ok? {
      WalkReaches(d, C, p);
      assert Front(r') == PathOf(d, C, p);
      hide Tree, NameAt, Ent, Slots, DirAt;
      StepIsLink(d, C, p, dst);
      var i := Step(d, p, dst).inum;
      EntryLive(d, C, i);
      EntryLive(d, C, c);
    }
  }

  // ---- the operation ----

  /** dst is in use, but only in a block after the one that holds src: the scan stops before it sees dst. */
  predicate Unseen(d: Disk, p: nat, src: Str, dst: Str) {
    var k, l := Find(d, p, src, 0), Find(d, p, dst, 0);
    k.Hit? && l.Hit? && l.slot / 128 > k.slot / 128
  }

  /** Success moves just the subtree at r to r'; a failure changes nothing; no block is used or freed. */
  ghost predicate RenameResult(s: Fs, C: Cert, o: Outcome, r: Path, r': Path) {
    && Loses(s.bitmap, C, o.bitmap, C, {}) && o.code <= 0
    && (if o.code == 0 then Moved(s.disk, After(s, o).disk, r, r') else Untouched(s, C, o, C))
  }

  lemma RenameWrites(s: Fs, C: Cert, c: nat, w: Write, x: Dirent, dst: Str)
    requires Inv(s, C) && IsEntry(C, c) && w == SlotWrite(s.disk, C[c].parent, C[c].slot, x)
    requires x.valid && x.inode == c && CStr(x.name) == dst && GoodName(dst)
    requires forall l :: Live(s.disk, C, C[c].parent, l) && l != C[c].slot ==> NameAt(s.disk, C[c].parent, l) != dst
    ensures var o := Outcome(0, [w], s.bitmap);
      && Ino(C, C[c].parent) && Tree(s.disk, C) && Sound(s, C, o, C, 1)
      && RenameResult(s, C, o, PathOf(s.disk, C, c), PathOf(s.disk, C, C[c].parent) + [dst])
  {
    hide *;
    EntryIsIno(C, c);
    var d, p, k := s.disk, C[c].parent, C[c].slot;
    var e := PatchSlot(d, p, k, x);
    var o := Outcome(0, [w], s.bitmap);
    SlotPut(d, p, k, x);
    InvParts(s, C);
    EntryLive(d, C, c);
    ApplyOne(d, w);
    AfterIs(s, o);
    RenameEffect(d, C, c, x, dst);
    NewSafe(s, C, e);
    NoWrites(d, C);
    StagesMove(d, [], C, w, C);
    CleanKept(s, e);
    SoundIs(s, C, o, C, 1);
    IsRename(s, C, o, PathOf(d, C, c), PathOf(d, C, p) + [dst]);
  }

  lemma NewSafe(s: Fs, C: Cert, e: Disk)
    requires Inv(s, C) && Tree(e, C) && SameTop(s.disk, e) && |e| == |s.disk|
    ensures Safe(e, C) && Inv(Fs(e, s.bitmap), C) && Loses(s.bitmap, C, s.bitmap, C, {})
  {
    hide Tree, Bit;
  }

  lemma IsRename(s: Fs, C: Cert, o: Outcome, r: Path, r': Path)
    requires Loses(s.bitmap, C, o.bitmap, C, {}) && o.code == 0 && Moved(s.disk, After(s, o).disk, r, r')
    ensures RenameResult(s, C, o, r, r')
  {
    hide Loses, Moved;
  }

  lemma RenameError(s: Fs, C: Cert, code: int, r: Path, r': Path)
    requires Inv(s, C) && code < 0
    ensures Sound(s, C, Err(s, code), C, 1) && RenameResult(s, C, Err(s, code), r, r')
  {
    hide Bit, Tree, Agree;
    NoWrites(s.disk, C);
    AgreeItself(s.disk, C);
  }

  /** Renaming inside a directory, when no other entry has the name that dst is cut to. */
  lemma RenameInKeeps(s: Fs, C: Cert, c: nat, src: Str, dst: Str)
    requires Inv(s, C) && IsEntry(C, c) && NewName(dst) && NameAt(s.disk, C[c].parent, C[c].slot) == src
    requires RenameIn(s, C[c].parent, src, dst).code == 0 ==> NoTwin(s.disk, C, C[c].parent, C[c].slot, Kept(dst))
    ensures Tree(s.disk, C) && Ino(C, c) && Ino(C, C[c].parent)
    ensures var o := RenameIn(s, C[c].parent, src, dst);
      && Sound(s, C, o, C, 1)
      && RenameResult(s, C, o, PathOf(s.disk, C, c), PathOf(s.disk, C, C[c].parent) + [Kept(dst)])
  {
    var d, p, k := s.disk, C[c].parent, C[c].slot;
    hide *;
    InvParts(s, C);
    EntryIsIno(C, c);
    EntryLive(d, C, c);
    EntrySlot(d, C, c);
    var x := Renamed(Ent(d, p, k), dst);
    KeptIsStorable(dst);
    RenamedFacts(d, C, p, k, Kept(dst));
    CutEntry(Ent(d, p, k), 0, dst);
    RenameInShape(s, p, src, dst, k);
    if RenameIn(s, p, src, dst) == Err(s, EEXIST) {
      RenameError(s, C, EEXIST, PathOf(d, C, c), PathOf(d, C, p) + [Kept(dst)]);
    } else {
      NoTwinIs(d, C, p, k, Kept(dst));
      RenameWrites(s, C, c, SlotWrite(d, p, k, x), x, Kept(dst));
    }
  }

  /** No live slot of directory p but k carries the name. */
  ghost predicate NoTwin(d: Disk, C: Cert, p: nat, k: nat, name: Str) {
    forall l :: Live(d, C, p, l) && l != k ==> NameAt(d, p, l) != name
  }

  lemma NoTwinIs(d: Disk, C: Cert, p: nat, k: nat, name: Str)
    requires NoTwin(d, C, p, k, name)
    ensures forall l :: Live(d, C, p, l) && l != k ==> NameAt(d, p, l) != name
  {}

  lemma RenamedFacts(d: Disk, C: Cert, p: nat, k: nat, dst: Str)
    requires Live(d, C, p, k) && Storable(dst)
    ensures var x := Renamed(Ent(d, p, k), dst);
      x.valid && x.inode == Ent(d, p, k).inode && CStr(x.name) == dst && GoodName(dst)
  {
    StoredNameReadsBack(Ent(d, p, k).name, dst);
    hide CStr, StoreName;
  }

  lemma RenameInShape(s: Fs, p: nat, src: Str, dst: Str, k: nat)
    requires Find(s.disk, p, src, 0) == Hit(k)
    ensures var o := RenameIn(s, p, src, dst);
      || o == Err(s, EEXIST)
      || o == Outcome(0, [SlotWrite(s.disk, p, k, Renamed(Ent(s.disk, p, k), dst))], s.bitmap)
    ensures EEXIST < 0 && EOPNOTSUPP < 0
  {
    hide SlotWrite, Renamed, Find;
  }

  /** The place where the destination is stored is free, or is the source. */
  predicate Receives(d: Disk, rs: Path, rd: Path) { Stored(rd) == rs || Lookup(d, Stored(rd)) == None }

  /** If the destination's place is free, no other entry of the directory has its name. */
  lemma ReceivesAlone(d: Disk, C: Cert, c: nat, rs: Path, rd: Path)
    requires Tree(d, C) && IsEntry(C, c) && Ino(C, c) && PathOf(d, C, c) == rs && rd != []
    requires Ino(C, C[c].parent) && Front(rd) == PathOf(d, C, C[c].parent) && Receives(d, rs, rd)
    ensures NoTwin(d, C, C[c].parent, C[c].slot, Kept(NameIn(rd)))
  {
    var p, n := C[c].parent, Kept(NameIn(rd));
    StoredParts(rd);
    EntryLive(d, C, c);
    WalkReaches(d, C, p);
    var r' := PathOf(d, C, p) + [n];
    assert Stored(rd) == r';
    forall l | Live(d, C, p, l) && l != C[c].slot
      ensures NameAt(d, p, l) != n
    {
      if NameAt(d, p, l) == n {
        StepFinds(d, C, p, l);
        StepFinds(d, C, p, C[c].slot);
        WalkOn(d, PathOf(d, C, p), n);
        hide Tree, Ent, CStr, Step, ObjAt, PathOf;
      }
    }
  }

  lemma RenameShape(s: Fs, src: seq<Str>, dst: seq<Str>)
    requires Resolve(src) != [] && Resolve(dst) != []
    ensures var ps, pd := Walk(s.disk, Front(Resolve(src))), Walk(s.disk, Front(Resolve(dst)));
      Rename(s, src, dst) ==
        if Translate(s.disk, src).Fail? || ps.Fail? || pd.Fail? then Err(s, ENOENT)
        else if ps.inum != pd.inum then Err(s, EINVAL)
        else if !DirAt(s.disk, ps.inum) then Err(s, ENOTDIR)
        else RenameIn(s, ps.inum, Last(Resolve(src)), Last(Resolve(dst)))
  {
    hide Translate, Resolve, Walk, DirAt, RenameIn, Err;
  }

  /** rename moves the subtree at the source path to the place where the destination is stored in the same directory,
      with every inode and byte below it, by one block write; a failure changes nothing. If it gets as far as to write,
      that place must be free or the source itself. */
  lemma RenameKeeps(s: Fs, C: Cert, src: seq<Str>, dst: seq<Str>)
    requires Inv(s, C) && RenameDefined(s.disk, src, dst)
    requires Rename(s, src, dst).code == 0 ==> NewName(NameIn(Resolve(dst)))
    requires Rename(s, src, dst).code == 0 ==> Receives(s.disk, Resolve(src), Resolve(dst))
    ensures Sound(s, C, Rename(s, src, dst), C, 1)
    ensures RenameResult(s, C, Rename(s, src, dst), Resolve(src), Stored(Resolve(dst)))
  {
    hide *;
    var d, rs, rd := s.disk, Resolve(src), Resolve(dst);
    InvParts(s, C);
    RenameFails(s, src, dst);
    if Rename(s, src, dst).code != 0 {
      RenameError(s, C, Rename(s, src, dst).code, rs, Stored(rd));
    } else {
      var p := RenameGoes(s, src, dst);
      WalkIsPath(d, C, Front(rs));
      WalkIsPath(d, C, Front(rd));
      var c := HitLeads(d, rs);
      TargetSlot(d, C, rs, c);
      EntryIsIno(C, c);
      EntryLive(d, C, c);
      FrontLast(rs);
      LastOf(PathOf(d, C, C[c].parent), NameAt(d, C[c].parent, C[c].slot), rs);
      StoredIs(rd);
      ReceivesAlone(d, C, c, rs, rd);
      RenameInKeeps(s, C, c, Last(rs), Last(rd));
    }
  }

  lemma RenameSigns()
    ensures ENOENT < 0 && EINVAL < 0 && ENOTDIR < 0 && EOPNOTSUPP < 0
  {}

  /** A rename that does not succeed changes nothing, and one that does has both last components. */
  lemma RenameFails(s: Fs, src: seq<Str>, dst: seq<Str>)
    requires RenameDefined(s.disk, src, dst)
    ensures var code := Rename(s, src, dst).code;
      && code <= 0 && (code == 0 ==> Resolve(src) != [] && Resolve(dst) != [])
      && (code != 0 ==> Rename(s, src, dst) == Err(s, code))
  {
    hide *;
    RenameSigns();
    ErrsAre(s);
    if Translate(s.disk, src).Fail? {
      RenameMissing(s, src, dst);
    } else {
      RenameDefinedIs(s.disk, src, dst);
      RenameShape(s, src, dst);
      var ps := Walk(s.disk, Front(Resolve(src)));
      if ps.Ok? { RenameInCases(s, ps.inum, Last(Resolve(src)), Last(Resolve(dst))); }
    }
  }

  lemma RenameDefinedIs(d: Disk, src: seq<Str>, dst: seq<Str>)
    ensures RenameDefined(d, src, dst) <==> (Translate(d, src).Ok? ==> Resolve(src) != [] && Resolve(dst) != [])
  {
    hide Translate, Resolve;
  }

  lemma DefinedBoth(d: Disk, src: seq<Str>, dst: seq<Str>)
    requires Resolve(src) != [] && Resolve(dst) != []
    ensures RenameDefined(d, src, dst)
  {
    hide Translate, Resolve;
  }

  lemma RenameMissing(s: Fs, src: seq<Str>, dst: seq<Str>)
    requires Translate(s.disk, src).Fail?
    ensures RenameDefined(s.disk, src, dst) && Rename(s, src, dst) == Err(s, ENOENT)
  {
    hide Translate, Resolve, Err;
  }

  lemma RenameInCases(s: Fs, p: nat, src: Str, dst: Str)
    ensures var o := RenameIn(s, p, src, dst);
      && o.code <= 0 && (o.code != 0 ==> o == Err(s, o.code)) && (o.code == 0 ==> Find(s.disk, p, src, 0).Hit?)
  {
    assert EEXIST < 0 && EOPNOTSUPP < 0;
    hide Find, SlotWrite, Renamed;
  }

  /** What a rename that succeeds has found. */
  lemma RenameGoes(s: Fs, src: seq<Str>, dst: seq<Str>) returns (p: nat)
    requires RenameDefined(s.disk, src, dst) && Rename(s, src, dst).code == 0
    ensures var d, rs, rd := s.disk, Resolve(src), Resolve(dst);
      && rs != [] && rd != [] && Walk(d, Front(rs)) == Ok(p) && Walk(d, Front(rd)) == Ok(p) && DirAt(d, p)
      && Find(d, p, Last(rs), 0).Hit? && Rename(s, src, dst) == RenameIn(s, p, Last(rs), Last(rd))
  {
    hide *;
    RenameSigns();
    ErrsAre(s);
    RenameFails(s, src, dst);
    RenameShape(s, src, dst);
    p := Walk(s.disk, Front(Resolve(src))).inum;
    if Walk(s.disk, Front(Resolve(src))).Ok? {
      RenameInCases(s, p, Last(Resolve(src)), Last(Resolve(dst)));
    }
  }

  lemma StoredIs(r: Path)
    requires r != []
    ensures Stored(r) == Front(r) + [Kept(Last(r))] && NameIn(r) == Last(r)
  {}

  /** Finding the last name in the parent's scan is finding the path. */
  lemma HitLeads(d: Disk, r: Path) returns (c: nat)
    requires r != [] && Walk(d, Front(r)).Ok? && DirAt(d, Walk(d, Front(r)).inum)
    requires Find(d, Walk(d, Front(r)).inum, Last(r), 0).Hit?
    ensures Walk(d, r) == Ok(c)
  {
    hide Find, DirAt, Ent;
    c := Walk(d, r).inum;
  }

  lemma LastOf(p: Path, n: Str, r: Path)
    requires r == p + [n]
    ensures Last(r) == n && Front(r) == p
  {}
}
