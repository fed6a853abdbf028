/** When each operation succeeds, and with which code it fails, said in terms of the namespace and of free blocks. */
module Codes {
  import opened Format
  import opened Bits
  import opened Image
  import opened Change
  import opened Paths
  import opened Ops
  import opened Keep
  import opened Making
  import opened Removing
  import opened Editing
  import opened Renaming
  import opened Writing

  /** The codes are the negated numbers of errno.h. */
  lemma ErrorNumbers()
    ensures ENOENT == -2 && EEXIST == -17 && ENOTDIR == -20 && EISDIR == -21 && EINVAL == -22 && ENOSPC == -28
    ensures ENOTEMPTY == -39 && EOPNOTSUPP == -95
  {}

  /** A directory, or a file, is found at q. */
  predicate DirFound(d: Disk, q: Path) { Lookup(d, q).Some? && Lookup(d, q).value.Dir? }
  predicate FileFound(d: Disk, q: Path) { Lookup(d, q).Some? && Lookup(d, q).value.File? }

  lemma DirFoundIs(d: Disk, q: Path)
    ensures DirFound(d, q) <==> Walk(d, q).Ok? && DirAt(d, Walk(d, q).inum)
    ensures FileFound(d, q) <==> Walk(d, q).Ok? && !DirAt(d, Walk(d, q).inum)
    ensures Lookup(d, q).Some? <==> Walk(d, q).Ok?
  {
    hide Walk, Content, DirAt;
  }

  // ---- create and mkdir ----

  lemma CanMakeIs(s: Fs, r: Path)
    requires r != []
    ensures CanMake(s, r) <==> DirFound(s.disk, Front(r)) && Lookup(s.disk, r) == None
    ensures !CanMake(s, r) ==> (Refusal(s, r) == EEXIST <==> Lookup(s.disk, r).Some?)
    ensures !CanMake(s, r) ==> Refusal(s, r) != ENOSPC && Refusal(s, r) != EOPNOTSUPP && Refusal(s, r) < 0
    ensures FileFound(s.disk, Front(r)) ==> !CanMake(s, r) && Refusal(s, r) == ENOTDIR
    ensures Walk(s.disk, Front(r)).Fail? ==> !CanMake(s, r) && Refusal(s, r) == Walk(s.disk, Front(r)).code
  {
    DirFoundIs(s.disk, Front(r));
    DirFoundIs(s.disk, r);
    WalkCodes(s.disk, Front(r));
    assert Walk(s.disk, r) == if Walk(s.disk, Front(r)).Ok? then Step(s.disk, Walk(s.disk, Front(r)).inum, Last(r))
        else Walk(s.disk, Front(r));
    hide Walk, DirAt, Find, DirFound, FileFound, Lookup;
  }

  lemma {:induction false} WalkCodes(d: Disk, q: Path)
    ensures Walk(d, q).Fail? ==> Walk(d, q).code == ENOENT || Walk(d, q).code == ENOTDIR
  {
    hide Find, DirAt;
    if q != [] { WalkCodes(d, Front(q)); }
  }

  /** The walk comes as far as the first m components and not further: there is a file, or a directory without the
      name. */
  predicate StopsAt(d: Disk, q: Path, m: nat) {
    && m < |q| && Walk(d, q[..m]).Ok? && Walk(d, q[..m + 1]).Fail?
    && Walk(d, q) == Fail(if DirAt(d, Walk(d, q[..m]).inum) then ENOENT else ENOTDIR)
  }

  /** Why a walk fails: ENOTDIR at the first component below a file, ENOENT at the first name its directory lacks. */
  lemma {:induction false} WalkSays(d: Disk, q: Path) returns (m: nat)
    requires Walk(d, q).Fail?
    ensures StopsAt(d, q, m)
  {
    hide Find, DirAt;
    var f := Front(q);
    if Walk(d, f).Fail? {
      m := WalkSays(d, f);
      assert f[..m] == q[..m] && f[..m + 1] == q[..m + 1];
    } else {
      m := |q| - 1;
      assert q[..m] == f && q[..m + 1] == q;
    }
  }

  // ---- translate ----

  /** Every name before the j-th component is found where translate looks for it. */
  ghost predicate Passes(d: Disk, c: seq<Str>, j: nat) {
    forall i {:trigger c[..i]} :: 0 <= i < j && i < |c| && Plain(c[i]) ==> Lookup(d, Target(c[..i]) + [c[i]]).Some?
  }

  /** Component j is the first name that is not found; there is a file in the way, or a directory without it. */
  ghost predicate StopsOn(d: Disk, c: seq<Str>, j: nat, code: int) {
    && j < |c| && Plain(c[j]) && Passes(d, c, j) && Lookup(d, Target(c[..j]) + [c[j]]) == None
    && code == if FileFound(d, Target(c[..j])) then -20 else -2
  }

  lemma PassesOn(d: Disk, c: seq<Str>)
    requires c != []
    ensures Passes(d, c, |c|) <==>
      Passes(d, Front(c), |c| - 1) && (Plain(Last(c)) ==> Lookup(d, Target(Front(c)) + [Last(c)]).Some?)
  {
    var f := Front(c);
    assert c[..|f|] == f;
    hide Lookup, Plain, Land;
    forall i | 0 <= i < |f|
      ensures c[..i] == f[..i] && c[i] == f[i]
    {}
  }

  /** One more component, by what is found. */
  lemma TraceFinds(d: Disk, c: seq<Str>)
    requires c != [] && Translate(d, Front(c)).Ok?
    ensures var q := Target(Front(c));
      && Walk(d, q) == Translate(d, Front(c))
      && (Plain(Last(c)) ==> Translate(d, c) == Walk(d, q + [Last(c)]))
      && (Plain(Last(c)) ==> Walk(d, q + [Last(c)]) == Step(d, Walk(d, q).inum, Last(c)))
      && (!Plain(Last(c)) ==> Translate(d, c).Ok?)
  {
    TraceLands(d, Front(c));
    WalkOn(d, Target(Front(c)), Last(c));
    hide Step, Walk;
  }

  lemma StepCodes(d: Disk, i: nat, n: Str)
    ensures Step(d, i, n).Fail? ==> Step(d, i, n).code == if DirAt(d, i) then -2 else -20
  {
    hide DirAt, Find;
  }

  /** translate succeeds if and only if every name of the path is found where it looks. */
  lemma {:induction false} TranslatePasses(d: Disk, c: seq<Str>)
    ensures Translate(d, c).Ok? <==> Passes(d, c, |c|)
    decreases |c|
  {
    hide *;
    if c == [] {
      NothingToPass(d, c);
    } else {
      FrontShorter(c);
      TranslatePasses(d, Front(c));
      PassesOn(d, c);
      if Translate(d, Front(c)).Ok? {
        TraceFinds(d, c);
        DirFoundIs(d, Target(Front(c)) + [Last(c)]);
      } else {
        TraceFailsOn(d, c);
      }
    }
  }

  lemma NothingToPass(d: Disk, c: seq<Str>)
    requires c == []
    ensures Translate(d, c).Ok? && Passes(d, c, |c|)
  {}

  lemma FrontShorter(c: seq<Str>)
    requires c != []
    ensures |Front(c)| == |c| - 1
  {}

  lemma TraceFailsOn(d: Disk, c: seq<Str>)
    requires c != [] && Translate(d, Front(c)).Fail?
    ensures Translate(d, c) == Translate(d, Front(c))
  {
    hide Step;
  }

  lemma {:induction false} TranslateStops(d: Disk, c: seq<Str>) returns (j: nat)
    requires Translate(d, c).Fail?
    ensures StopsOn(d, c, j, Translate(d, c).code)
    decreases |c|
  {
    hide *;
    j := 0;
    if c != [] { FrontShorter(c); }
    if c == [] {
      NothingToPass(d, c);
    } else if Translate(d, Front(c)).Fail? {
      j := TranslateStops(d, Front(c));
      TraceFailsOn(d, c);
      StopsLonger(d, c, j, Translate(d, c).code);
    } else {
      j := |c| - 1;
      TranslatePasses(d, Front(c));
      TraceFinds(d, c);
      StepCodes(d, Walk(d, Target(Front(c))).inum, Last(c));
      DirFoundIs(d, Target(Front(c)));
      DirFoundIs(d, Target(Front(c)) + [Last(c)]);
      StopsLast(d, c, Translate(d, c).code);
    }
  }

  lemma StopsLonger(d: Disk, c: seq<Str>, j: nat, code: int)
    requires c != [] && StopsOn(d, Front(c), j, code)
    ensures StopsOn(d, c, j, code)
  {
    var f := Front(c);
    hide Lookup, Plain, Land, FileFound;
    forall i | 0 <= i <= j
      ensures c[..i] == f[..i] && c[i] == f[i]
    {}
  }

  lemma StopsLast(d: Disk, c: seq<Str>, code: int)
    requires c != [] && Plain(Last(c)) && Passes(d, Front(c), |Front(c)|)
    requires !Lookup(d, Target(Front(c)) + [Last(c)]).Some?
    requires code == if FileFound(d, Target(Front(c))) then -20 else -2
    ensures StopsOn(d, c, |c| - 1, code)
  {
    var f := Front(c);
    assert c[..|c| - 1] == f;
    hide Lookup, Plain, Land, FileFound;
    forall i | 0 <= i < |f|
      ensures c[..i] == f[..i] && c[i] == f[i]
    {}
  }

  lemma StopsOnce(d: Disk, c: seq<Str>, j: nat, e: int, k: nat, f: int)
    requires StopsOn(d, c, j, e) && StopsOn(d, c, k, f)
    ensures e == f
  {
    hide Lookup, Plain, Land, FileFound;
    assert c[..j] == c[..j] && c[..k] == c[..k];
  }

  lemma StopsNotPasses(d: Disk, c: seq<Str>, j: nat, code: int)
    ensures StopsOn(d, c, j, code) ==> !Passes(d, c, |c|)
  {
    hide Lookup, Plain, Land, FileFound;
    assert j < |c| ==> c[..j] == c[..j];
  }

  /** On any path translate fails with a code if and only if the path stops with it: ENOTDIR (-20) at the first name
      below a file, ENOENT (-2) at the first that its directory lacks. */
  lemma TranslateCodes(d: Disk, c: seq<Str>, code: int)
    ensures Translate(d, c) == Fail(code) <==> exists j :: StopsOn(d, c, j, code)
  {
    hide *;
    TranslatePasses(d, c);
    if Translate(d, c).Fail? {
      var k := TranslateStops(d, c);
      forall j: nat | StopsOn(d, c, j, code)
        ensures code == Translate(d, c).code
      {
        StopsOnce(d, c, j, code, k, Translate(d, c).code);
      }
    } else {
      forall j: nat
        ensures StopsOn(d, c, j, code) ==> !Passes(d, c, |c|)
      {
        StopsNotPasses(d, c, j, code);
      }
    }
  }

  lemma SpareBlocks(s: Fs)
    requires |s.disk| <= 32768
    ensures FirstFree(s.bitmap, |s.disk|, 2) == 0 <==> FreeBlocks(s) == {}
    ensures |Take(s.bitmap, |s.disk|, 2).blocks| == 2 <==> |FreeBlocks(s)| >= 2
  {
    var n, t := |s.disk|, Take(s.bitmap, |s.disk|, 2);
    hide Bit, Take;
    TakeFacts(s.bitmap, n, 2);
    MembersSize(t.blocks);
    if FirstFree(s.bitmap, n, 2) != 0 {
      assert FirstFree(s.bitmap, n, 2) in FreeBlocks(s);
    }
    if |t.blocks| == 2 {
      assert Members(t.blocks) <= FreeBlocks(s);
      SubsetSize(Members(t.blocks), FreeBlocks(s));
    } else {
      assert FreeBlocks(s) <= Members(t.blocks);
      SubsetSize(FreeBlocks(s), Members(t.blocks));
    }
  }

  lemma LinkCode(s: Fs, p: nat, name: Str, c: nat, bm: Block, ws: seq<Write>, full: int)
    ensures Link(s, p, name, c, bm, ws, full).code == if FreeSlot(Apply(s.disk, ws), p, 0).Hit? then 0 else full
  {
    hide FreeSlot, SlotWrite, NewEntry;
  }

  /** create succeeds exactly when the parent is a directory with a slot to spare, the name is new and a block is free;
      it says EEXIST exactly when the path is taken, and ENOSPC exactly when a block or a slot is missing. */
  lemma CreateCodes(s: Fs, C: Cert, comps: seq<Str>, mode: nat, w: Caller)
    requires Inv(s, C) && Resolve(comps) != [] && mode < 0x1_0000_0000 && IsReg(mode)
    ensures var code, r, d := Create(s, comps, mode, w).code, Resolve(comps), s.disk;
      var vacant := DirFound(d, Front(r)) && Lookup(d, r) == None;
      && (code == 0 <==> vacant && FreeBlocks(s) != {} && Roomy(d, r))
      && (code == ENOSPC <==> vacant && (FreeBlocks(s) == {} || !Roomy(d, r)))
      && (code == EEXIST <==> Lookup(d, r).Some?)
      && (FileFound(d, Front(r)) ==> code == ENOTDIR) && (Walk(d, Front(r)).Fail? ==> code == Walk(d, Front(r)).code)
  {
    assert ENOSPC < 0 && EEXIST < 0 && ENOSPC != EEXIST;
    hide *;
    var r, c := Resolve(comps), FirstFree(s.bitmap, |s.disk|, 2);
    var ws := CreateWrites(SetBit(s.bitmap, c), c, mode, w);
    InvParts(s, C);
    CreateShape(s, comps, mode, w);
    CanMakeIs(s, r);
    ErrsAre(s);
    SpareBlocks(s);
    if CanMake(s, r) && c != 0 {
      LaidAgrees(s, C, mode, w);
      RoomySame(s, C, Apply(s.disk, ws), r);
      LinkCode(s, ParentOf(s.disk, r), NameIn(r), c, SetBit(s.bitmap, c), ws, ENOSPC);
    }
  }

  /** mkdir likewise, but on two blocks, and with another code for a full parent. */
  lemma MkdirCodes(s: Fs, C: Cert, comps: seq<Str>, mode: nat, w: Caller)
    requires Inv(s, C) && Resolve(comps) != [] && mode < 0x1000
    ensures var code, r, d := Mkdir(s, comps, mode, w).code, Resolve(comps), s.disk;
      var vacant := DirFound(d, Front(r)) && Lookup(d, r) == None;
      && (code == 0 <==> vacant && |FreeBlocks(s)| >= 2 && Roomy(d, r))
      && (code == ENOSPC <==> vacant && |FreeBlocks(s)| < 2)
      && (code == EOPNOTSUPP <==> vacant && |FreeBlocks(s)| >= 2 && !Roomy(d, r))
      && (code == EEXIST <==> Lookup(d, r).Some?)
      && (FileFound(d, Front(r)) ==> code == ENOTDIR) && (Walk(d, Front(r)).Fail? ==> code == Walk(d, Front(r)).code)
  {
    assert ENOSPC < 0 && EEXIST < 0 && EOPNOTSUPP < 0 && ENOSPC != EEXIST && ENOSPC != EOPNOTSUPP &&
        EEXIST != EOPNOTSUPP;
    hide *;
    var r, t := Resolve(comps), Take(s.bitmap, |s.disk|, 2);
    InvParts(s, C);
    MkdirShape(s, comps, mode, w);
    CanMakeIs(s, r);
    ErrsAre(s);
    SpareBlocks(s);
    if CanMake(s, r) && |t.blocks| >= 2 {
      var ws := MkdirWrites(t.map8, t.blocks[0], t.blocks[1], mode, w);
      DirLaidAgrees(s, C, mode, w);
      RoomySame(s, C, Apply(s.disk, ws), r);
      LinkCode(s, ParentOf(s.disk, r), NameIn(r), t.blocks[0], t.map8, ws, EOPNOTSUPP);
    }
  }

  // ---- unlink, rmdir and truncate ----

  lemma TraceCodes(d: Disk, comps: seq<Str>)
    ensures Translate(d, comps).Fail? ==> Translate(d, comps).code == ENOENT || Translate(d, comps).code == ENOTDIR
  {
    hide Find, DirAt;
    if comps != [] { TraceCodes(d, Front(comps)); }
  }

  /** The code that a failing or missing parent of r gives, when the rest is in order. */
  predicate ParentSays(d: Disk, r: Path, code: int) {
    && r != []
    && (DirFound(d, Front(r)) ==> code == 0) && (FileFound(d, Front(r)) ==> code == ENOTDIR)
    && (Walk(d, Front(r)).Fail? ==> code == Walk(d, Front(r)).code)
  }

  lemma ParentIsSays(d: Disk, r: Path, code: int)
    requires r != []
    requires var w := Walk(d, Front(r)); code == if w.Fail? then w.code else if DirAt(d, w.inum) then 0 else ENOTDIR
    ensures ParentSays(d, r, code)
  {
    DirFoundIs(d, Front(r));
    hide Walk, DirAt, DirFound, FileFound;
  }

  lemma ParentSaysIs(d: Disk, r: Path, code: int)
    requires ParentSays(d, r, code)
    ensures r != [] && (code == 0 <==> DirFound(d, Front(r))) && (code == 0 || code == ENOTDIR || code == ENOENT)
  {
    assert ENOTDIR != 0 && ENOENT != 0;
    DirFoundIs(d, Front(r));
    WalkCodes(d, Front(r));
    hide Walk, DirAt, DirFound, FileFound;
  }

  /** unlink, on any path: what translate finds decides, then what the parent of the resolved path is. On faithful
      paths it succeeds exactly on a file. The root gives EISDIR. */
  lemma UnlinkCodes(s: Fs, C: Cert, comps: seq<Str>)
    requires Inv(s, C)
    ensures UnlinkDefined(s.disk, comps)
    ensures var code, d, q, t := Unlink(s, comps).code, s.disk, Target(comps), Translate(s.disk, comps);
      && (t.Fail? ==> code == t.code) && (code == EISDIR <==> t.Ok? && DirFound(d, q))
      && (t.Ok? && FileFound(d, q) ==> ParentSays(d, Resolve(comps), code))
      && (Faithful(comps) ==> (code == 0 <==> t.Ok? && FileFound(d, Resolve(comps))))
  {
    UnlinkSigns();
    hide *;
    var t, r, q := Translate(s.disk, comps), Resolve(comps), Target(comps);
    InvParts(s, C);
    UnlinkIsDefined(s.disk, C, comps);
    TraceCodes(s.disk, comps);
    ErrsAre(s);
    DirFoundIs(s.disk, q);
    TargetIsResolved(comps);
    if t.Ok? { TargetWalks(s.disk, C, comps); }
    if r == [] {
      UnlinkRoot(s, comps);
    } else {
      UnlinkShape(s, comps);
      PrefixFound(s.disk, r);
      var w := Walk(s.disk, Front(r));
      DirFoundIs(s.disk, Front(r));
      if t.Ok? && !DirAt(s.disk, t.inum) {
        if w.Ok? {
          DetachCode(s, w.inum, Last(r), ClearBit(ClearAll(s.bitmap, Table(s.disk, t.inum)), t.inum));
        }
        ParentIsSays(s.disk, r, Unlink(s, comps).code);
        ParentSaysIs(s.disk, r, Unlink(s, comps).code);
      }
    }
  }

  lemma UnlinkSigns()
    ensures EISDIR != 0 && EISDIR != ENOENT && EISDIR != ENOTDIR && ENOENT != 0 && ENOTDIR != 0
    ensures ENOTEMPTY != 0 && ENOTEMPTY != ENOENT && ENOTEMPTY != ENOTDIR
  {}

  /** rmdir likewise. On faithful paths it succeeds exactly on a directory whose first block is empty. */
  lemma RmdirCodes(s: Fs, C: Cert, comps: seq<Str>)
    requires Inv(s, C) && RmdirDefined(s.disk, comps)
    ensures var code, d, q, t := Rmdir(s, comps).code, s.disk, Target(comps), Translate(s.disk, comps);
      && (t.Fail? ==> code == t.code) && (t.Ok? && FileFound(d, q) ==> code == ENOTDIR)
      && (code == ENOTEMPTY <==> t.Ok? && DirFound(d, q) && !FirstBlockEmpty(d, t.inum))
      && (t.Ok? && DirFound(d, q) && FirstBlockEmpty(d, t.inum) ==> ParentSays(d, Resolve(comps), code))
      && (Faithful(comps) ==> (code == 0 <==> t.Ok? && DirFound(d, Resolve(comps)) && FirstBlockEmpty(d, t.inum)))
  {
    UnlinkSigns();
    hide *;
    var t, r, q := Translate(s.disk, comps), Resolve(comps), Target(comps);
    InvParts(s, C);
    TraceCodes(s.disk, comps);
    ErrsAre(s);
    DirFoundIs(s.disk, q);
    TargetIsResolved(comps);
    if t.Ok? { TargetWalks(s.disk, C, comps); }
    if r == [] {
      RmdirRoot(s, comps);
      RmdirAtRoot(s.disk, comps);
    } else {
      RmdirShape(s, comps);
      PrefixFound(s.disk, r);
      var w := Walk(s.disk, Front(r));
      DirFoundIs(s.disk, Front(r));
      if t.Ok? && DirAt(s.disk, t.inum) && FirstBlockEmpty(s.disk, t.inum) {
        if w.Ok? {
          DetachCode(s, w.inum, Last(r), ClearBit(ClearBit(s.bitmap, Ptr(s.disk, t.inum, 0)), t.inum));
        }
        ParentIsSays(s.disk, r, Rmdir(s, comps).code);
        ParentSaysIs(s.disk, r, Rmdir(s, comps).code);
      }
    }
  }

  lemma RmdirAtRoot(d: Disk, comps: seq<Str>)
    requires RmdirDefined(d, comps) && Resolve(comps) == []
    ensures Translate(d, comps).Ok? && DirAt(d, Translate(d, comps).inum) ==>
      !FirstBlockEmpty(d, Translate(d, comps).inum)
  {
    hide Translate, Resolve, DirAt, FirstBlockEmpty;
  }

  /** truncate succeeds exactly on a file and for length 0. */
  lemma TruncateCodes(s: Fs, C: Cert, comps: seq<Str>, len: int, now: nat)
    requires Inv(s, C)
    ensures var code, r, found := Truncate(s, comps, len, now).code, Target(comps), Translate(s.disk, comps).Ok?;
      && code <= 0 && (code == 0 <==> len == 0 && found && FileFound(s.disk, r))
      && (code == EINVAL <==> len != 0)
      && (code == EISDIR <==> len == 0 && found && DirFound(s.disk, r))
      && (len == 0 && !found ==> code == Translate(s.disk, comps).code)
  {
    WriteCodeSigns();
    hide *;
    InvParts(s, C);
    TruncateShape(s, comps, len, now);
    TraceCodes(s.disk, comps);
    ErrsAre(s);
    TargetIs(s.disk, comps);
    DirFoundIs(s.disk, Target(comps));
    if Translate(s.disk, comps).Ok? {
      TargetWalks(s.disk, C, comps);
    }
  }

  // ---- chmod and utime ----

  /** chmod and utime succeed exactly on what translate finds, the root included, and fail with its code. */
  lemma TouchCodes(s: Fs, comps: seq<Str>, mode: nat, modtime: nat)
    ensures var c, u := Chmod(s, comps, mode).code, Utime(s, comps, modtime).code;
      && (c == 0 <==> Passes(s.disk, comps, |comps|)) && (u == 0 <==> Passes(s.disk, comps, |comps|))
      && forall j, code :: StopsOn(s.disk, comps, j, code) ==> c == code && u == code
  {
    hide *;
    TouchShapes(s, comps, mode, modtime);
    TranslatePasses(s.disk, comps);
    TraceFailsNegative(s.disk, comps);
    StopsAll(s.disk, comps);
  }

  lemma TouchShapes(s: Fs, comps: seq<Str>, mode: nat, modtime: nat)
    ensures var t := Translate(s.disk, comps);
      && Chmod(s, comps, mode).code == (if t.Fail? then t.code else 0)
      && Utime(s, comps, modtime).code == (if t.Fail? then t.code else 0)
  {
    hide Translate, InodeSector, ChmodInode;
  }

  lemma StopsAll(d: Disk, c: seq<Str>)
    ensures forall j, code :: StopsOn(d, c, j, code) ==> Translate(d, c) == Fail(code)
  {
    hide *;
    forall j: nat, code | StopsOn(d, c, j, code)
      ensures Translate(d, c) == Fail(code)
    {
      TranslateCodes(d, c, code);
    }
  }

  // ---- rename ----

  lemma RenameInCode(s: Fs, p: nat, src: Str, dst: Str)
    ensures var k, l := Find(s.disk, p, src, 0), Find(s.disk, p, dst, 0);
      RenameIn(s, p, src, dst).code ==
        if k.Miss? then EOPNOTSUPP
        else if src != dst && l.Hit? && !Unseen(s.disk, p, src, dst) then EEXIST
        else 0
  {
    hide Find, SlotWrite, Renamed;
  }

  lemma HitIsFound(d: Disk, r: Path)
    requires r != [] && Walk(d, Front(r)).Ok? && DirAt(d, ParentOf(d, r))
    ensures Find(d, ParentOf(d, r), NameIn(r), 0).Hit? <==> Walk(d, r).Ok?
  {
    hide Find;
  }

  lemma RenameSignsApart()
    ensures EEXIST < 0 && ENOENT < 0 && EINVAL < 0 && ENOTDIR < 0 && EOPNOTSUPP < 0
    ensures EEXIST != ENOENT && EEXIST != EINVAL && EEXIST != ENOTDIR && EEXIST != EOPNOTSUPP && ENOENT != EINVAL
    ensures ENOENT != ENOTDIR && ENOENT != EOPNOTSUPP && EINVAL != ENOTDIR && EINVAL != EOPNOTSUPP
    ensures ENOTDIR != EOPNOTSUPP
  {}

  /** Each code of rename and when it is returned. Without a source it is ENOENT. Else both paths must resolve into one
      directory that has the source; then something else at the destination gives EEXIST, unless it lies in a block that
      the scan does not reach. */
  lemma RenameCodes(s: Fs, C: Cert, src: seq<Str>, dst: seq<Str>)
    requires Inv(s, C) && RenameDefined(s.disk, src, dst)
    ensures Translate(s.disk, src).Fail? ==> Rename(s, src, dst).code == ENOENT
    ensures Translate(s.disk, src).Ok? ==>
      && Resolve(src) != [] && Resolve(dst) != []
      && RenameSays(s.disk, Resolve(src), Resolve(dst), Rename(s, src, dst).code)
  {
    RenameSignsApart();
    hide *;
    var d, rs, rd, code := s.disk, Resolve(src), Resolve(dst), Rename(s, src, dst).code;
    InvParts(s, C);
    ErrsAre(s);
    RenameDefinedIs(d, src, dst);
    if Translate(d, src).Fail? {
      RenameMissing(s, src, dst);
      return;
    }
    RenameShape(s, src, dst);
    DirFoundIs(d, rs);
    DirFoundIs(d, rd);
    DirFoundIs(d, Front(rs));
    DirFoundIs(d, Front(rd));
    PrefixFound(d, rs);
    if Walk(d, Front(rs)).Ok? && Walk(d, Front(rd)).Ok? {
      WalkIsPath(d, C, Front(rs));
      WalkIsPath(d, C, Front(rd));
      if Front(rs) == Front(rd) {
        ParentIs(d, rs);
        ParentIs(d, rd);
        NameInIs(rs);
        NameInIs(rd);
        FrontLast(rs);
        FrontLast(rd);
        if DirAt(d, ParentOf(d, rs)) {
          HitIsFound(d, rs);
          HitIsFound(d, rd);
          RenameInCode(s, ParentOf(d, rs), NameIn(rs), NameIn(rd));
        }
      }
    }
    RenameSaysIs(d, rs, rd, code);
  }

  /** What code a rename of rs to rd gives, once translate has found the source. */
  predicate RenameSays(d: Disk, rs: Path, rd: Path, code: int)
    requires rs != [] && rd != []
  {
    var here := Front(rd) == Front(rs);
    var taken := rs != rd && Lookup(d, rd).Some? && !Unseen(d, ParentOf(d, rs), NameIn(rs), NameIn(rd));
    && (code == 0 <==> here && Lookup(d, rs).Some? && !taken)
    && (code == EEXIST <==> here && Lookup(d, rs).Some? && taken)
    && (code == EOPNOTSUPP <==> here && DirFound(d, Front(rs)) && Lookup(d, rs) == None)
    && (code == ENOTDIR <==> here && FileFound(d, Front(rs)))
    && (code == ENOENT <==> Lookup(d, Front(rs)) == None || Lookup(d, Front(rd)) == None)
    && (code == EINVAL <==> Lookup(d, Front(rs)).Some? && Lookup(d, Front(rd)).Some? && Front(rd) != Front(rs))
  }

  lemma RenameSaysIs(d: Disk, rs: Path, rd: Path, code: int)
    requires rs != [] && rd != []
    ensures var here := Front(rd) == Front(rs);
      var taken := rs != rd && Lookup(d, rd).Some? && !Unseen(d, ParentOf(d, rs), NameIn(rs), NameIn(rd));
      RenameSays(d, rs, rd, code) <==>
        && (code == 0 <==> here && Lookup(d, rs).Some? && !taken)
        && (code == EEXIST <==> here && Lookup(d, rs).Some? && taken)
        && (code == EOPNOTSUPP <==> here && DirFound(d, Front(rs)) && Lookup(d, rs) == None)
        && (code == ENOTDIR <==> here && FileFound(d, Front(rs)))
        && (code == ENOENT <==> Lookup(d, Front(rs)) == None || Lookup(d, Front(rd)) == None)
        && (code == EINVAL <==> Lookup(d, Front(rs)).Some? && Lookup(d, Front(rd)).Some? && Front(rd) != Front(rs))
  {
    hide Lookup, Unseen, ParentOf, NameIn, DirFound, FileFound;
  }

  /** A path below a file, or below nothing, is not found. */
  lemma PrefixFound(d: Disk, r: Path)
    requires r != []
    ensures Walk(d, r).Ok? ==> Walk(d, Front(r)).Ok? && DirAt(d, Walk(d, Front(r)).inum)
  {
    hide Find, DirAt;
  }

  // ---- write ----

  lemma SpareFor(s: Fs, k: nat)
    requires |s.disk| <= 32768
    ensures |Take(s.bitmap, |s.disk|, k).blocks| == k <==> k <= |FreeBlocks(s)|
  {
    var t := Take(s.bitmap, |s.disk|, k);
    hide Bit, Take;
    TakeFacts(s.bitmap, |s.disk|, k);
    MembersSize(t.blocks);
    if |t.blocks| == k {
      assert Members(t.blocks) <= FreeBlocks(s);
      SubsetSize(Members(t.blocks), FreeBlocks(s));
    } else {
      assert FreeBlocks(s) <= Members(t.blocks);
      SubsetSize(FreeBlocks(s), Members(t.blocks));
    }
  }

  lemma CanWriteIs(s: Fs, i: nat, off: nat, n: nat)
    requires |s.disk| <= 32768
    ensures var size := Node(s.disk, i).size;
      CanWrite(s, i, off, n) <==> off <= size && Blocks(size) <= Blocks(off + n) <= Blocks(size) + |FreeBlocks(s)|
  {
    hide *;
    var k := Blocks(off + n) - Blocks(Node(s.disk, i).size);
    NeededShape(s, i, off, n);
    if k >= 0 { SpareFor(s, k); }
  }

  lemma WriteCodesAre(s: Fs, C: Cert, i: nat, data: Str, off: nat, now: nat)
    requires Inv(s, C) && Ino(C, i) && !DirAt(s.disk, i) && off + |data| <= 0xFFF_FFFF_F000
    ensures var code, size := WriteAt(s, i, data, off, now).code, Node(s.disk, i).size;
      && (CanWrite(s, i, off, |data|) ==> code == |data|)
      && (!CanWrite(s, i, off, |data|) ==> code == if off > size then EINVAL else ENOSPC)
  {
    hide *;
    WriteAtShape(s, C, i, data, off, now);
    ErrsAre(s);
  }

  /** write succeeds exactly on a file, at an offset inside it, when it does not end in an earlier block than the file
      and no more blocks are missing than are free. It says EINVAL exactly for an offset beyond the file, EISDIR exactly
      for a directory, and ENOSPC for everything else about blocks, a write that ends too early included. */
  lemma WriteCodes(s: Fs, C: Cert, comps: seq<Str>, data: Str, off: nat, now: nat)
    requires Inv(s, C) && off + |data| <= 0xFFF_FFFF_F000
    ensures var code, r, found := WriteFile(s, comps, data, off, now).code, Target(comps), Translate(s.disk, comps).Ok?;
      var size := Node(s.disk, TargetOf(s.disk, comps)).size;
      var fits := Blocks(size) <= Blocks(off + |data|) <= Blocks(size) + |FreeBlocks(s)|;
      && (code >= 0 <==> found && FileFound(s.disk, r) && off <= size && fits) && (code >= 0 ==> code == |data|)
      && (code == ENOSPC <==> found && FileFound(s.disk, r) && off <= size && !fits)
      && (code == EINVAL <==> found && FileFound(s.disk, r) && off > size)
      && (code == EISDIR <==> found && DirFound(s.disk, r)) && (!found ==> code == Translate(s.disk, comps).code)
  {
    WriteCodeSigns();
    hide *;
    var t, i := Translate(s.disk, comps), TargetOf(s.disk, comps);
    InvParts(s, C);
    WriteFileShape(s, comps, data, off, now);
    TraceCodes(s.disk, comps);
    ErrsAre(s);
    TargetIs(s.disk, comps);
    DirFoundIs(s.disk, Target(comps));
    if t.Ok? {
      TargetWalks(s.disk, C, comps);
      CanWriteIs(s, i, off, |data|);
      if !DirAt(s.disk, i) { WriteCodesAre(s, C, i, data, off, now); }
    }
  }

  lemma WriteCodeSigns()
    ensures EISDIR < 0 && EINVAL < 0 && ENOSPC < 0 && ENOENT < 0 && ENOTDIR < 0
    ensures EISDIR != EINVAL && EISDIR != ENOSPC && EINVAL != ENOSPC && EISDIR != ENOENT && EISDIR != ENOTDIR
    ensures EINVAL != ENOENT && EINVAL != ENOTDIR && ENOSPC != ENOENT && ENOSPC != ENOTDIR
  {}
}
