/** Taking back what was made: create, write and unlink, mkdir and rmdir, write and truncate give back every block. */
module Undo {
  import opened Format
  import opened Bits
  import opened Image
  import opened Change
  import opened Paths
  import opened Ops
  import opened Keep
  import opened Making
  import opened Removing
  import opened Editing
  import opened Writing
  import opened Runs
  import opened Crashes
  import opened Codes
  import opened Refining

  // ---- certificates that differ in one inode ----

  lemma SameButTrans(C: Cert, D: Cert, E: Cert, c: nat)
    requires SameBut(C, D, c) && SameBut(D, E, c)
    ensures SameBut(C, E, c)
  {}

  lemma PruneSameBut(C: Cert, c: nat)
    ensures SameBut(C, Prune(C, c), c) && c !in Prune(C, c)
  {}

  lemma RetableSameBut(d: Disk, C: Cert, i: nat, t: seq<nat>)
    requires Ino(C, i) && MayHold(d, C, i, t)
    ensures SameBut(C, Retable(C, i, t), i)
  {
    assert forall b :: b in t && b in C ==> Mine(C, b, i);
  }

  lemma LosesTrans(a: Block, A: Cert, b: Block, B: Cert, c: Block, C: Cert)
    requires Loses(a, A, b, B, {}) && Loses(b, B, c, C, {})
    ensures Loses(a, A, c, C, {})
  {
    hide Bit;
    forall x: nat ensures Slack(c, C, x) <==> Slack(a, A, x) { assert Slack(b, B, x) <==> Slack(a, A, x); }
  }

  /** The same blocks in use and none used up in between: the same bitmap, byte for byte. */
  lemma SameBitmap(s: Fs, C: Cert, e: Fs, D: Cert)
    requires Inv(s, C) && Inv(e, D) && Loses(s.bitmap, C, e.bitmap, D, {}) && C.Keys == D.Keys
    ensures e.bitmap == s.bitmap
  {
    InvMarks(s, C);
    InvMarks(e, D);
    hide Inv, Bit;
    forall b: nat
      ensures Bit(e.bitmap, b) <==> Bit(s.bitmap, b)
    {
      assert Slack(e.bitmap, D, b) <==> Slack(s.bitmap, C, b);
      assert b in C.Keys <==> b in D.Keys;
    }
    MarksDetermineMap(e.bitmap, s.bitmap);
  }

  // ---- a branch of the history that has touched one path only ----

  /** From s0 on, only the object at r and inode c with its blocks have changed, and no block was used up. */
  ghost predicate Branch(s0: Fs, C0: Cert, s: Fs, C: Cert, r: Path, c: nat) {
    && Inv(s0, C0) && Inv(s, C) && SameBut(C0, C, c) && Loses(s0.bitmap, C0, s.bitmap, C, {})
    && Walk(s.disk, r) == Ok(c) && forall q: Path :: q != r ==> Lookup(s.disk, q) == Lookup(s0.disk, q)
  }

  /** One write of a file. */
  datatype Piece = Piece(data: Str, off: nat, now: nat)

  function PieceCall(comps: seq<Str>, p: Piece): Call { WriteCall(comps, p.data, p.off, p.now) }

  /** All the writes can be asked for and succeed. */
  ghost predicate Succeed(s: Fs, comps: seq<Str>, ps: seq<Piece>)
    decreases |ps|
  {
    ps == [] ||
    (Asks(s, PieceCall(comps, ps[0])) && Do(s, PieceCall(comps, ps[0])).code >= 0
     && Succeed(After(s, Do(s, PieceCall(comps, ps[0]))), comps, ps[1..]))
  }

  ghost function WriteAll(s: Fs, comps: seq<Str>, ps: seq<Piece>): Fs
    requires Succeed(s, comps, ps)
    decreases |ps|
  { if ps == [] then s else WriteAll(After(s, Do(s, PieceCall(comps, ps[0]))), comps, ps[1..]) }

  lemma BranchParts(s0: Fs, C0: Cert, s: Fs, C: Cert, r: Path, c: nat)
    requires Branch(s0, C0, s, C, r, c)
    ensures Inv(s0, C0) && Inv(s, C) && Tree(s.disk, C) && SameBut(C0, C, c) && Loses(s0.bitmap, C0, s.bitmap, C, {})
    ensures Walk(s.disk, r) == Ok(c)
    ensures Tree(s0.disk, C0)
  {}

  /** One more step that touches only r and c. */
  lemma BranchStep(s0: Fs, C0: Cert, s: Fs, C: Cert, e: Fs, D: Cert, r: Path, c: nat)
    requires Branch(s0, C0, s, C, r, c) && Inv(e, D) && SameBut(C, D, c) && Loses(s.bitmap, C, e.bitmap, D, {})
    requires Walk(e.disk, r) == Ok(c) && forall q: Path :: q != r ==> Lookup(e.disk, q) == Lookup(s.disk, q)
    ensures Branch(s0, C0, e, D, r, c)
  {
    hide Inv, Loses, SameBut, Walk, Lookup;
    SameButTrans(C0, C, D, c);
    LosesTrans(s0.bitmap, C0, s.bitmap, C, e.bitmap, D);
  }

  lemma BranchStart(s: Fs, C: Cert, e: Fs, D: Cert, r: Path, c: nat)
    requires Inv(s, C) && Inv(e, D) && SameBut(C, D, c) && Loses(s.bitmap, C, e.bitmap, D, {})
    requires Walk(e.disk, r) == Ok(c) && forall q: Path :: q != r ==> Lookup(e.disk, q) == Lookup(s.disk, q)
    ensures Branch(s, C, e, D, r, c)
  {
    hide Inv, Loses, SameBut, Walk, Lookup;
  }

  lemma WriteParts(s: Fs, C: Cert, o: Outcome, D: Cert, r: Path, obj: Obj, more: nat)
    requires WriteResult(s, C, o, D, r, obj, more) && o.code >= 0
    ensures Loses(s.bitmap, C, o.bitmap, D, {}) && Walk(After(s, o).disk, r) == Walk(s.disk, r)
    ensures forall q: Path :: q != r ==> Lookup(After(s, o).disk, q) == Lookup(s.disk, q)
  {
    hide Loses, Clean;
  }

  lemma WriteBranch(s0: Fs, C0: Cert, s: Fs, C: Cert, r: Path, c: nat, comps: seq<Str>, p: Piece) returns (D: Cert)
    requires Branch(s0, C0, s, C, r, c) && Target(comps) == r
    requires Asks(s, PieceCall(comps, p)) && Do(s, PieceCall(comps, p)).code >= 0
    ensures Branch(s0, C0, After(s, Do(s, PieceCall(comps, p))), D, r, c)
  {
    var a := PieceCall(comps, p);
    assert a == WriteCall(comps, p.data, p.off, p.now);
    hide *;
    AsksIs(s, a);
    DoIs(s, a);
    var i, o, n := TargetOf(s.disk, comps), Do(s, a), |p.data|;
    BranchParts(s0, C0, s, C, r, c);
    D := WriteKeeps(s, C, comps, p.data, p.off, p.now);
    TargetWalks(s.disk, C, comps);
    TargetIs(s.disk, comps);
    CanWriteInside(s, i, p.off, n);
    AllocatesIs(s, comps, p.off);
    BoundedIs(s, comps, p.off, n);
    WriteIsPlan(s, C, i, p.off, n);
    PlanParts(s, C, i, NewBlocks(s, i, p.off, n).blocks, p.off, n);
    RetableSameBut(s.disk, C, i, Table(s.disk, i) + NewBlocks(s, i, p.off, n).blocks);
    WriteParts(s, C, o, D, r, WrittenObj(s.disk, i, p.off, p.data, p.now), |NewBlocks(s, i, p.off, n).blocks|);
    AfterIs(s, o);
    BranchStep(s0, C0, s, C, After(s, o), D, r, c);
  }

  lemma {:induction false} WritesBranch(s0: Fs, C0: Cert, s: Fs, C: Cert, r: Path, c: nat, comps: seq<Str>,
      ps: seq<Piece>) returns (D: Cert)
    requires Branch(s0, C0, s, C, r, c) && Target(comps) == r && Succeed(s, comps, ps)
    ensures Branch(s0, C0, WriteAll(s, comps, ps), D, r, c)
    decreases |ps|
  {
    hide Branch, Asks, Do, After, Target;
    D := C;
    if ps != [] {
      D := WriteBranch(s0, C0, s, C, r, c, comps, ps[0]);
      D := WritesBranch(s0, C0, After(s, Do(s, PieceCall(comps, ps[0]))), D, r, c, comps, ps[1..]);
    }
  }

  /** Removing what the branch made. */
  lemma RemoveBranch(s0: Fs, C0: Cert, s: Fs, C: Cert, r: Path, c: nat, o: Outcome, n: nat)
    requires Branch(s0, C0, s, C, r, c) && c !in C0 && Lookup(s0.disk, r) == None
    requires Inv(After(s, o), Prune(C, c)) && RemoveResult(s, C, o, Prune(C, c), {}, r, n) && o.code == 0
    requires Removed(s.disk, After(s, o).disk, r)
    ensures o.bitmap == s0.bitmap && SameView(s0.disk, After(s, o).disk)
  {
    var D, e := Prune(C, c), After(s, o);
    RemovedParts(s, C, o, D, r, n);
    hide *;
    BranchParts(s0, C0, s, C, r, c);
    PruneSameBut(C, c);
    SameButTrans(C0, C, D, c);
    TreeOwned(s0, C0);
    TreeOwned(e, D);
    SameButGone(s0.disk, C0, e.disk, D, c);
    LosesTrans(s0.bitmap, C0, s.bitmap, C, e.bitmap, D);
    SameBitmap(s0, C0, e, D);
    BranchView(s0, C0, s, C, r, c, e);
  }

  lemma RemovedParts(s: Fs, C: Cert, o: Outcome, D: Cert, r: Path, n: nat)
    requires RemoveResult(s, C, o, D, {}, r, n) && o.code == 0 && Removed(s.disk, After(s, o).disk, r)
    ensures Loses(s.bitmap, C, After(s, o).bitmap, D, {}) && After(s, o).bitmap == o.bitmap
    ensures forall q: Path :: Lookup(After(s, o).disk, q) == if q == r then None else Lookup(s.disk, q)
  {
    hide Loses, Lookup;
  }

  lemma TreeOwned(s: Fs, C: Cert)
    requires Inv(s, C)
    ensures Owned(s.disk, C)
  {
    assert Tree(s.disk, C);
  }

  lemma BranchView(s0: Fs, C0: Cert, s: Fs, C: Cert, r: Path, c: nat, e: Fs)
    requires Branch(s0, C0, s, C, r, c) && Lookup(s0.disk, r) == None
    requires forall q: Path :: Lookup(e.disk, q) == if q == r then None else Lookup(s.disk, q)
    ensures SameView(s0.disk, e.disk)
  {
    hide Inv, Loses, SameBut, Walk, Lookup;
  }

  lemma MadeParts(s: Fs, C: Cert, o: Outcome, D: Cert, t: nat, L: set<nat>, r: Path, obj: Obj, n: nat, full: int,
      c: nat, size: int)
    requires Made(s, C, o, D, t, L, r, obj, n, full, c, size) && o.code == 0
    ensures Inv(After(s, o), D) && SameBut(C, D, c) && c !in C && Loses(s.bitmap, C, After(s, o).bitmap, D, {})
    ensures Walk(After(s, o).disk, r) == Ok(c) && Lookup(s.disk, r) == None && Node(After(s, o).disk, c).size == size
    ensures forall q: Path :: q != r ==> Lookup(After(s, o).disk, q) == Lookup(s.disk, q)
  {
    AfterIs(s, o);
    hide Stages, Inv, Loses, SameBut, Walk, Clean, After, Lookup, Node;
  }

  /** A call that makes something under a name of at most 26 bytes makes it at the resolved path, and edits go there. */
  lemma MakesAt(s: Fs, a: Call)
    requires Asks(s, a) && (a.CreateCall? || a.MkdirCall?) && |NameIn(Resolve(a.comps))| <= 26
    ensures Callable(s, a) && Resolve(a.comps) != [] && NewName(NameIn(Resolve(a.comps)))
    ensures Stores(s.disk, Resolve(a.comps))
    ensures a.CreateCall? ==> a.mode < 0x1_0000_0000 && IsReg(a.mode)
    ensures a.MkdirCall? ==> a.mode < 0x1000
    ensures Stored(Resolve(a.comps)) == Resolve(a.comps) && (Faithful(a.comps) <==> Target(a.comps) == Resolve(a.comps))
  {
    assert Stores(s.disk, Resolve(a.comps));
    hide *;
    AsksIs(s, a);
    StoredParts(Resolve(a.comps));
    TargetIsResolved(a.comps);
  }

  /** create, then any writes that succeed, then unlink of the same path: the bitmap in memory is what it was before,
      byte for byte, and so is the namespace. */
  lemma CreateUndone(s: Fs, C: Cert, comps: seq<Str>, mode: nat, who: Caller, ps: seq<Piece>)
    requires Inv(s, C) && Asks(s, CreateCall(comps, mode, who)) && Faithful(comps) && |NameIn(Resolve(comps))| <= 26
    requires Create(s, comps, mode, who).code == 0
    requires Succeed(After(s, Create(s, comps, mode, who)), comps, ps)
    requires Unlink(WriteAll(After(s, Create(s, comps, mode, who)), comps, ps), comps).code == 0
    ensures var e := WriteAll(After(s, Create(s, comps, mode, who)), comps, ps);
      var f := After(e, Unlink(e, comps));
      f.bitmap == s.bitmap && SameView(s.disk, f.disk)
  {
    hide *;
    MakesAt(s, CreateCall(comps, mode, who));
    var r, o := Resolve(comps), Create(s, comps, mode, who);
    var s1, L, t, c, n, D, E, F;
    s1 := After(s, o);
    D, t, L, c := CreateKeeps(s, C, comps, mode, who);
    MadeParts(s, C, o, D, t, L, r, File(NewAttr(mode, who), []), 1, ENOSPC, c, 0);
    BranchStart(s, C, s1, D, r, c);
    E := WritesBranch(s, C, s1, D, r, c, comps, ps);
    var e := WriteAll(s1, comps, ps);
    BranchParts(s, C, e, E, r, c);
    DefinedBelow(e.disk, comps);
    F, n := UnlinkKeeps(e, E, comps);
    FaithfulTarget(e.disk, E, comps);
    SoundParts(e, E, Unlink(e, comps), F, 1);
    RemoveBranch(s, C, e, E, r, c, Unlink(e, comps), n);
    AfterIs(e, Unlink(e, comps));
  }

  lemma SoundParts(s: Fs, C: Cert, o: Outcome, D: Cert, t: nat)
    requires Sound(s, C, o, D, t)
    ensures Inv(After(s, o), D)
  {}

  /** mkdir, then rmdir of the same path: the bitmap in memory and the namespace are what they were before. */
  lemma MkdirUndone(s: Fs, C: Cert, comps: seq<Str>, mode: nat, who: Caller)
    requires Inv(s, C) && Asks(s, MkdirCall(comps, mode, who)) && Faithful(comps) && |NameIn(Resolve(comps))| <= 26
    requires Mkdir(s, comps, mode, who).code == 0
    requires Rmdir(After(s, Mkdir(s, comps, mode, who)), comps).code == 0
    ensures var e := After(s, Mkdir(s, comps, mode, who));
      var f := After(e, Rmdir(e, comps));
      f.bitmap == s.bitmap && SameView(s.disk, f.disk)
  {
    hide *;
    MakesAt(s, MkdirCall(comps, mode, who));
    var r, o := Resolve(comps), Mkdir(s, comps, mode, who);
    var e, L, t, c, n, D, F;
    e := After(s, o);
    D, t, L, c := MkdirKeeps(s, C, comps, mode, who);
    MadeParts(s, C, o, D, t, L, r, Dir(NewAttr(0x4000 + mode, who)), 2, EOPNOTSUPP, c, 4096);
    BranchStart(s, C, e, D, r, c);
    BranchParts(s, C, e, D, r, c);
    DefinedBelow(e.disk, comps);
    F, L, n := RmdirKeeps(e, D, comps);
    FaithfulTarget(e.disk, D, comps);
    SoundParts(e, D, Rmdir(e, comps), F, 1);
    RemoveBranch(s, C, e, D, r, c, Rmdir(e, comps), n);
    AfterIs(e, Rmdir(e, comps));
  }

  // ---- on a path without dots the way back is always open ----

  lemma WriteKeepsFile(s: Fs, C: Cert, comps: seq<Str>, p: Piece) returns (D: Cert)
    requires Inv(s, C) && Asks(s, PieceCall(comps, p)) && Do(s, PieceCall(comps, p)).code >= 0
    ensures var e := After(s, Do(s, PieceCall(comps, p))); Inv(e, D) && FileFound(e.disk, Target(comps))
  {
    var a := PieceCall(comps, p);
    assert a == WriteCall(comps, p.data, p.off, p.now);
    hide *;
    IsCallable(s, a);
    var t;
    D, t := CallKeeps(s, C, a);
    AccountParts(s, C, a, Do(s, a), D);
    CallRefines(s, C, a);
    StepIsWrite(s.disk, a, Do(s, a).code, After(s, Do(s, a)).disk);
    ReplacedFile(s.disk, After(s, Do(s, a)).disk, Target(comps), Stamp(AttrAt(s.disk, Target(comps)), p.now),
                 Spliced(BytesAt(s.disk, Target(comps)), p.off, p.data));
  }

  lemma ReplacedFile(d: Disk, e: Disk, r: Path, a: Attr, c: Str)
    requires Replaced(d, e, r, File(a, c))
    ensures FileFound(e, r)
  {
    hide Walk;
    assert Lookup(e, r) == Some(File(a, c));
  }

  lemma {:induction false} WritesKeepFile(s: Fs, C: Cert, comps: seq<Str>, ps: seq<Piece>) returns (D: Cert)
    requires Inv(s, C) && Succeed(s, comps, ps) && FileFound(s.disk, Target(comps))
    ensures Inv(WriteAll(s, comps, ps), D) && FileFound(WriteAll(s, comps, ps).disk, Target(comps))
    decreases |ps|
  {
    hide Inv, Asks, Do, After, Target, FileFound;
    D := C;
    if ps != [] {
      D := WriteKeepsFile(s, C, comps, ps[0]);
      D := WritesKeepFile(After(s, Do(s, PieceCall(comps, ps[0]))), D, comps, ps[1..]);
    }
  }

  lemma FoundByTranslate(d: Disk, comps: seq<Str>)
    requires Canonical(comps)
    ensures Resolve(comps) == comps && Faithful(comps) && Target(comps) == comps
    ensures FileFound(d, comps) || DirFound(d, comps) ==> Translate(d, comps).Ok?
  {
    ResolveCanonical(comps);
    CanonicalIsFaithful(comps);
    TargetIsResolved(comps);
    TranslateIsWalk(d, comps);
    DirFoundIs(d, comps);
    hide FileFound, DirFound, Translate, Walk, Resolve, Faithful, Target;
  }

  lemma {:induction false} CanonicalIsFaithful(comps: seq<Str>)
    requires Canonical(comps)
    ensures Faithful(comps)
  {
    hide Resolve, Dot;
    if comps != [] {
      assert Plain(comps[|comps| - 1]);
      CanonicalIsFaithful(Front(comps));
    }
  }

  /** On a path without dots the unlink after create and any successful writes succeeds, and restores everything. */
  lemma CreateUnlinkUndone(s: Fs, C: Cert, comps: seq<Str>, mode: nat, who: Caller, ps: seq<Piece>)
    requires Inv(s, C) && Asks(s, CreateCall(comps, mode, who)) && Canonical(comps) && |NameIn(Resolve(comps))| <= 26
    requires Create(s, comps, mode, who).code == 0
    requires Succeed(After(s, Create(s, comps, mode, who)), comps, ps)
    ensures var e := WriteAll(After(s, Create(s, comps, mode, who)), comps, ps);
      var o := Unlink(e, comps); var f := After(e, o);
      o.code == 0 && f.bitmap == s.bitmap && SameView(s.disk, f.disk)
  {
    hide *;
    MakesAt(s, CreateCall(comps, mode, who));
    var o := Create(s, comps, mode, who);
    var D, t, L, c := CreateKeeps(s, C, comps, mode, who);
    MadeParts(s, C, o, D, t, L, Resolve(comps), File(NewAttr(mode, who), []), 1, ENOSPC, c, 0);
    MadeFile(s, C, o, D, t, L, Resolve(comps), NewAttr(mode, who), c);
    FoundByTranslate(s.disk, comps);
    var E := WritesKeepFile(After(s, o), D, comps, ps);
    var e := WriteAll(After(s, o), comps, ps);
    FoundByTranslate(e.disk, comps);
    UnlinkCodes(e, E, comps);
    CreateUndone(s, C, comps, mode, who, ps);
  }

  lemma MadeFile(s: Fs, C: Cert, o: Outcome, D: Cert, t: nat, L: set<nat>, r: Path, a: Attr, c: nat)
    requires Made(s, C, o, D, t, L, r, File(a, []), 1, ENOSPC, c, 0) && o.code == 0
    ensures FileFound(After(s, o).disk, r)
  {
    hide Stages, Inv, Loses, SameBut, Walk, Clean, After, Lookup, Node;
  }

  lemma MadeDir(s: Fs, C: Cert, o: Outcome, D: Cert, t: nat, L: set<nat>, r: Path, a: Attr, c: nat)
    requires Made(s, C, o, D, t, L, r, Dir(a), 2, EOPNOTSUPP, c, 4096) && o.code == 0
    ensures DirFound(After(s, o).disk, r)
  {
    hide Stages, Inv, Loses, SameBut, Walk, Clean, After, Lookup, Node;
  }

  lemma NothingBelow(d: Disk, r: Path, n: Str)
    requires Lookup(d, r) == None
    ensures Lookup(d, r + [n]) == None && r + [n] != r
  {
    assert Front(r + [n]) == r;
    hide Step, ObjAt;
  }

  /** A directory below which no path leads anywhere has no valid entry. */
  lemma ChildlessIsEmpty(d: Disk, C: Cert, r: Path, c: nat)
    requires Tree(d, C) && Walk(d, r) == Ok(c) && DirAt(d, c) && forall n: Str :: Lookup(d, r + [n]) == None
    ensures FirstBlockEmpty(d, c)
  {
    WalkIsPath(d, C, r);
    forall k | 0 <= k < Slots(d, c)
      ensures !Ent(d, c, k).valid
    {
      if Ent(d, c, k).valid {
        ChildFound(d, C, r, c, k);
      }
    }
    OneBlockEmpty(d, C, c);
  }

  lemma ChildFound(d: Disk, C: Cert, r: Path, c: nat, k: nat)
    requires Tree(d, C) && Ino(C, c) && Walk(d, r) == Ok(c) && DirAt(d, c) && k < Slots(d, c) && Ent(d, c, k).valid
    ensures Lookup(d, r + [NameAt(d, c, k)]).Some?
  {
    assert Live(d, C, c, k);
    StepFinds(d, C, c, k);
    WalkOn(d, r, NameAt(d, c, k));
    hide Tree, Ent, Slots, CStr, Step;
  }

  /** On a path without dots the rmdir after mkdir succeeds, and restores everything. */
  lemma MkdirRmdirUndone(s: Fs, C: Cert, comps: seq<Str>, mode: nat, who: Caller)
    requires Inv(s, C) && Asks(s, MkdirCall(comps, mode, who)) && Canonical(comps) && |NameIn(Resolve(comps))| <= 26
    requires Mkdir(s, comps, mode, who).code == 0
    ensures var e := After(s, Mkdir(s, comps, mode, who));
      var o := Rmdir(e, comps); var f := After(e, o);
      o.code == 0 && f.bitmap == s.bitmap && SameView(s.disk, f.disk)
  {
    hide *;
    MakesAt(s, MkdirCall(comps, mode, who));
    var r, o := Resolve(comps), Mkdir(s, comps, mode, who);
    var e := After(s, o);
    var D, t, L, c := MkdirKeeps(s, C, comps, mode, who);
    MadeParts(s, C, o, D, t, L, r, Dir(NewAttr(0x4000 + mode, who)), 2, EOPNOTSUPP, c, 4096);
    MadeDir(s, C, o, D, t, L, r, NewAttr(0x4000 + mode, who), c);
    InvParts(e, D);
    FoundByTranslate(e.disk, comps);
    FaithfulTarget(e.disk, D, comps);
    DirFoundIs(e.disk, r);
    forall n: Str ensures Lookup(e.disk, r + [n]) == None { NothingBelow(s.disk, r, n); }
    ChildlessIsEmpty(e.disk, D, r, c);
    DefinedBelow(e.disk, comps);
    RmdirCodes(e, D, comps);
    MkdirUndone(s, C, comps, mode, who);
  }

  // ---- an empty file written and truncated ----

  lemma EmptyKeys(d: Disk, C: Cert, e: Disk, D: Cert, c: nat)
    requires Tree(d, C) && Tree(e, D) && SameBut(C, D, c) && Ino(C, c) && Ino(D, c) && Span(d, c) == 0
    requires Span(e, c) == 0
    ensures C.Keys == D.Keys
  {
    BlocksOfCert(d, C, c);
    BlocksOfCert(e, D, c);
    assert Members(Table(d, c)) == {} && Members(Table(e, c)) == {};
    hide Tree, Table, Span;
    assert forall b :: Mine(C, b, c) ==> b == c;
    assert forall b :: Mine(D, b, c) ==> b == c;
    assert forall b :: b in C.Keys <==> b in D.Keys;
  }

  /** Writing an empty file and truncating it gives back every block it took, and leaves the file empty. */
  lemma WritesUndone(s: Fs, C: Cert, comps: seq<Str>, ps: seq<Piece>, now: nat)
    requires Inv(s, C) && Walk(s.disk, Target(comps)).Ok? && Span(s.disk, Walk(s.disk, Target(comps)).inum) == 0
    requires Succeed(s, comps, ps) && Truncate(WriteAll(s, comps, ps), comps, 0, now).code == 0
    ensures var e := WriteAll(s, comps, ps);
      var f := After(e, Truncate(e, comps, 0, now));
      && f.bitmap == s.bitmap && BytesAt(f.disk, Target(comps)) == []
      && forall q: Path :: q != Target(comps) ==> Lookup(f.disk, q) == Lookup(s.disk, q)
  {
    hide *;
    var r := Target(comps);
    var c := Walk(s.disk, r).inum;
    BranchSelf(s, C, r, c);
    var E := WritesBranch(s, C, s, C, r, c, comps, ps);
    var e := WriteAll(s, comps, ps);
    var f := After(e, Truncate(e, comps, 0, now));
    var F := TruncateBranch(s, C, e, E, r, c, comps, now);
    BranchParts(s, C, f, F, r, c);
    WalkIsPath(s.disk, C, r);
    WalkIsPath(f.disk, F, r);
    EmptyKeys(s.disk, C, f.disk, F, c);
    SameBitmap(s, C, f, F);
    BranchElse(s, C, f, F, r, c);
  }

  /** On a path without dots the truncate after successful writes of a file succeeds; if the file was empty, it gives
      back every block they took. */
  lemma WriteTruncateUndone(s: Fs, C: Cert, comps: seq<Str>, ps: seq<Piece>, now: nat)
    requires Inv(s, C) && Canonical(comps) && FileFound(s.disk, comps) && BytesAt(s.disk, comps) == []
    requires Succeed(s, comps, ps)
    ensures var e := WriteAll(s, comps, ps);
      var o := Truncate(e, comps, 0, now); var f := After(e, o);
      && o.code == 0 && f.bitmap == s.bitmap && BytesAt(f.disk, comps) == []
      && forall q: Path :: q != comps ==> Lookup(f.disk, q) == Lookup(s.disk, q)
  {
    hide *;
    var e := WriteAll(s, comps, ps);
    FoundByTranslate(s.disk, comps);
    DirFoundIs(s.disk, comps);
    var E := WritesKeepFile(s, C, comps, ps);
    FoundByTranslate(e.disk, comps);
    TruncateCodes(e, E, comps, 0, now);
    NoBytes(s, C, comps);
    WritesUndone(s, C, comps, ps, now);
  }

  lemma NoBytes(s: Fs, C: Cert, r: Path)
    requires Inv(s, C) && FileFound(s.disk, r) && BytesAt(s.disk, r) == []
    ensures Walk(s.disk, r).Ok? && Span(s.disk, Walk(s.disk, r).inum) == 0
  {
    InvParts(s, C);
    WalkIsPath(s.disk, C, r);
    var i := Walk(s.disk, r).inum;
    assert |Content(s.disk, i)| == 0;
    hide Inv, Tree, Walk;
  }

  lemma BranchElse(s0: Fs, C0: Cert, s: Fs, C: Cert, r: Path, c: nat)
    requires Branch(s0, C0, s, C, r, c)
    ensures forall q: Path :: q != r ==> Lookup(s.disk, q) == Lookup(s0.disk, q)
  {
    hide Inv, SameBut, Loses, Walk, Lookup;
  }

  lemma BranchSelf(s: Fs, C: Cert, r: Path, c: nat)
    requires Inv(s, C) && Walk(s.disk, r) == Ok(c)
    ensures Branch(s, C, s, C, r, c)
  {
    hide Inv, Walk, Lookup, Bit;
  }

  lemma TruncateBranch(s0: Fs, C0: Cert, s: Fs, C: Cert, r: Path, c: nat, comps: seq<Str>, now: nat) returns (D: Cert)
    requires Branch(s0, C0, s, C, r, c) && Target(comps) == r && Truncate(s, comps, 0, now).code == 0
    ensures var e := After(s, Truncate(s, comps, 0, now));
      Branch(s0, C0, e, D, r, c) && Span(e.disk, c) == 0 && BytesAt(e.disk, r) == []
  {
    hide *;
    var i, o := TargetOf(s.disk, comps), Truncate(s, comps, 0, now);
    BranchParts(s0, C0, s, C, r, c);
    D := TruncateKeeps(s, C, comps, 0, now);
    TruncateFinds(s, comps, now);
    TargetWalks(s.disk, C, comps);
    TargetIs(s.disk, comps);
    SameButBare(s.disk, C, c);
    SoundParts(s, C, o, D, 1);
    EditParts(s, C, o, D, r, TruncatedObj(s.disk, i, now), Span(s.disk, i));
    EmptySpan(After(s, o).disk, r, c, s.disk, i, now);
    BranchStep(s0, C0, s, C, After(s, o), D, r, c);
  }

  lemma SameButBare(d: Disk, C: Cert, c: nat)
    requires Ino(C, c)
    ensures SameBut(C, C, c) && SameBut(C, Retable(C, c, []), c)
  {
    RetableSameBut(d, C, c, []);
  }

  lemma TruncateFinds(s: Fs, comps: seq<Str>, now: nat)
    requires Truncate(s, comps, 0, now).code == 0
    ensures Translate(s.disk, comps).Ok?
  {
    TruncateShape(s, comps, 0, now);
    TraceFailsNegative(s.disk, comps);
    hide Truncate, Translate, DirAt;
  }

  lemma EditParts(s: Fs, C: Cert, o: Outcome, D: Cert, r: Path, obj: Obj, less: nat)
    requires EditResult(s, C, o, D, r, obj, 0, less) && o.code >= 0
    ensures var e := After(s, o);
      && Loses(s.bitmap, C, e.bitmap, D, {}) && Lookup(e.disk, r) == Some(obj)
      && (Walk(s.disk, r).Ok? ==> Walk(e.disk, r) == Walk(s.disk, r))
      && forall q: Path :: q != r ==> Lookup(e.disk, q) == Lookup(s.disk, q)
  {
    hide Loses, Lookup, Walk;
  }

  lemma EmptySpan(e: Disk, r: Path, c: nat, d: Disk, i: nat, now: nat)
    requires Walk(e, r) == Ok(c) && Lookup(e, r) == Some(TruncatedObj(d, i, now))
    ensures Span(e, c) == 0 && BytesAt(e, r) == []
  {
    assert |Content(e, c)| == 0;
  }
}
