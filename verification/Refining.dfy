/** The file system a user sees: a map from canonical paths to directories and byte strings. Every operation is one
    step on that map, and every run of operations a run of such steps. */
module Refining {
  import opened Format
  import opened Image
  import opened Change
  import opened Paths
  import opened Ops
  import opened Keep
  import opened Making
  import opened Removing
  import opened Editing
  import opened Renaming
  import opened Writing
  import opened Runs
  import opened Codes
  import opened Crashes

  // ---- steps on the map ----

  /** Everything at and below r is found at and below r' instead. */
  ghost predicate Moves(d: Disk, r: Path, r': Path, e: Disk) {
    && Lookup(d, r).Some? && |r'| == |r| && (r' != r ==> Lookup(d, r') == None)
    && forall q: Path :: Lookup(e, q) ==
         if r' <= q then Lookup(d, r + q[|r'|..]) else if r <= q then None else Lookup(d, q)
  }

  function AttrAt(d: Disk, r: Path): Attr { match Lookup(d, r) case Some(o) => o.attr case None => Attr(0, 0, 0, 0, 0) }

  function BytesAt(d: Disk, r: Path): Str { match Lookup(d, r) case Some(File(_, c)) => c case _ => [] }

  function Stamp(a: Attr, now: nat): Attr { a.(mtime := now % 0x1_0000_0000) }

  /** The step a call that returns code takes from the map of d to the map of e. A new name is kept where it is stored,
      cut to 26 bytes; truncate and the other edits go where translate leads. */
  ghost predicate StepOf(d: Disk, a: Call, code: int, e: Disk) {
    if code < 0 then SameView(d, e)
    else match a
      case CreateCall(p, mode, w) => Gains(d, e, Stored(Resolve(p)), File(NewAttr(mode, w), []))
      case MkdirCall(p, mode, w) => Gains(d, e, Stored(Resolve(p)), Dir(NewAttr(0x4000 + mode, w)))
      case UnlinkCall(p) => FileFound(d, Resolve(p)) && Removed(d, e, Resolve(p))
      case RmdirCall(p) => DirFound(d, Resolve(p)) && Drops(d, e, Resolve(p))
      case RenameCall(p, q) => Moves(d, Resolve(p), Stored(Resolve(q)), e)
      case TruncateCall(p, len, now) =>
        var r := Target(p);
        len == 0 && FileFound(d, r) && Replaced(d, e, r, File(Stamp(AttrAt(d, r), now), []))
      case WriteCall(p, data, off, now) =>
        var r := Target(p);
        && FileFound(d, r) && off <= |BytesAt(d, r)|
        && Replaced(d, e, r, File(Stamp(AttrAt(d, r), now), Spliced(BytesAt(d, r), off, data)))
      case ChmodCall(p, mode) =>
        var r := Target(p); var was := AttrAt(d, r);
        var now := was.(mode := was.mode / 0x1000 % 16 * 0x1000 + mode % 0x200);
        Lookup(d, r).Some? && Replaced(d, e, r, WithAttr(Lookup(d, r).value, now))
      case UtimeCall(p, modtime) =>
        var r := Target(p);
        Lookup(d, r).Some? && Replaced(d, e, r, WithAttr(Lookup(d, r).value, Stamp(AttrAt(d, r), modtime)))
  }

  /** On a path of names of at most 26 bytes, without a '..' that translate gets wrong, both are the resolved path. */
  lemma OrdinaryPaths(comps: seq<Str>)
    ensures Resolve(comps) != [] && |NameIn(Resolve(comps))| <= 26 ==> Stored(Resolve(comps)) == Resolve(comps)
    ensures Faithful(comps) <==> Target(comps) == Resolve(comps)
  {
    TargetIsResolved(comps);
    if Resolve(comps) != [] { StoredParts(Resolve(comps)); }
  }

  // ---- rename on the map ----

  lemma WalkPrefix(d: Disk, p: Path, rest: Path)
    requires Walk(d, p + rest).Ok?
    ensures Walk(d, p).Ok?
  {
    if rest == [] {
      assert p + rest == p;
    } else {
      assert Front(p + rest) == p + Front(rest);
      WalkPrefix(d, p, Front(rest));
    }
  }

  lemma MoveParts(r: Path, r': Path, p: Path, q: Path)
    requires |r'| == |r|
    ensures r <= p && q == Move(r, r', p) ==> r' <= q && r + q[|r'|..] == p
    ensures r' <= q ==> q == r' + q[|r'|..] && Move(r, r', r + q[|r'|..]) == q
    ensures !(r <= q) ==> Move(r, r', q) == q
  {
    if r <= p { assert p == r + p[|r|..]; }
    if r' <= q { assert r <= r + q[|r'|..] && (r + q[|r'|..])[|r|..] == q[|r'|..]; }
  }

  lemma MovedOk(d: Disk, e: Disk, r: Path, r': Path, q: Path)
    requires Moved(d, e, r, r') && |r'| == |r| && Walk(e, q).Ok?
    ensures Lookup(e, q) == if r' <= q then Lookup(d, r + q[|r'|..]) else if r <= q then None else Lookup(d, q)
  {
    hide ObjAt, Walk;
    var p: Path :| Walk(d, p) == Walk(e, q) && q == Move(r, r', p);
    hide Move;
    MoveParts(r, r', p, q);
    MoveElse(r, r', p);
    assert Lookup(e, q) == Lookup(d, p);
    if !(r <= p) && r' <= q {
      WalkPrefix(d, r', q[|r'|..]);
    }
  }

  lemma MoveElse(r: Path, r': Path, p: Path)
    ensures !(r <= p) ==> Move(r, r', p) == p
  {}

  lemma MovedIs(d: Disk, e: Disk, r: Path, r': Path, q: Path)
    requires Moved(d, e, r, r') && |r'| == |r|
    ensures Lookup(e, q) == if r' <= q then Lookup(d, r + q[|r'|..]) else if r <= q then None else Lookup(d, q)
  {
    hide ObjAt, Walk, Move;
    if Walk(e, q).Ok? {
      MovedOk(d, e, r, r', q);
    } else {
      MoveParts(r, r', q, q);
      assert r' <= q ==> Walk(d, r + q[|r'|..]).Fail?;
    }
  }

  lemma MovesIs(d: Disk, e: Disk, r: Path, r': Path)
    requires Moved(d, e, r, r') && |r'| == |r|
    ensures Moves(d, r, r', e)
  {
    forall q: Path
      ensures Lookup(e, q) == if r' <= q then Lookup(d, r + q[|r'|..]) else if r <= q then None else Lookup(d, q)
    {
      MovedIs(d, e, r, r', q);
    }
    hide ObjAt, Walk;
  }

  // ---- every operation is a step ----

  lemma UntouchedView(s: Fs, C: Cert, o: Outcome, D: Cert)
    requires Inv(s, C) && Untouched(s, C, o, D)
    ensures SameView(s.disk, After(s, o).disk)
  {
    assert Agree(s.disk, After(s, o).disk, C);
    InvParts(s, C);
    hide Inv, Safe, Agree, Lookup, After;
    AgreeView(s.disk, After(s, o).disk, C);
  }

  lemma MakeView(s: Fs, C: Cert, o: Outcome, D: Cert, t: nat, L: set<nat>, r: Path, obj: Obj, n: nat, full: int,
      c: nat, size: int)
    requires Inv(s, C) && Made(s, C, o, D, t, L, r, obj, n, full, c, size)
    ensures o.code <= 0 && if o.code == 0 then Gains(s.disk, After(s, o).disk, r, obj)
        else SameView(s.disk, After(s, o).disk)
  {
    hide Inv, Stages, Loses, Gains, Placed, Clean, SameView, Untouched, After;
    if o.code != 0 {
      UntouchedView(s, C, o, D);
    }
  }

  lemma RemoveView(s: Fs, C: Cert, o: Outcome, D: Cert, L: set<nat>, r: Path, n: nat)
    requires Inv(s, C) && RemoveResult(s, C, o, D, L, r, n)
    ensures o.code <= 0 && if o.code == 0 then Drops(s.disk, After(s, o).disk, r)
        else SameView(s.disk, After(s, o).disk)
  {
    hide Inv, Loses, Drops, SameView, Untouched, After;
    if o.code != 0 {
      UntouchedView(s, C, o, D);
    }
  }

  lemma EditView(s: Fs, C: Cert, o: Outcome, D: Cert, r: Path, obj: Obj, more: nat, less: nat)
    requires Inv(s, C) && EditResult(s, C, o, D, r, obj, more, less)
    ensures if o.code >= 0 then Replaced(s.disk, After(s, o).disk, r, obj) else SameView(s.disk, After(s, o).disk)
  {
    hide Inv, Loses, Replaced, SameView, Untouched, After;
    if o.code < 0 {
      UntouchedView(s, C, o, D);
    }
  }

  lemma WriteView(s: Fs, C: Cert, o: Outcome, D: Cert, r: Path, obj: Obj, more: nat)
    requires WriteResult(s, C, o, D, r, obj, more)
    ensures if o.code >= 0 then Replaced(s.disk, After(s, o).disk, r, obj) else SameView(s.disk, After(s, o).disk)
  {
    if o.code < 0 {
      ApplyNone(s.disk);
    }
    hide Loses, Replaced, Lookup, Clean;
  }

  lemma RenameView(s: Fs, C: Cert, o: Outcome, r: Path, r': Path)
    requires Inv(s, C) && RenameResult(s, C, o, r, r')
    ensures o.code <= 0 && if o.code == 0 then Moved(s.disk, After(s, o).disk, r, r')
        else SameView(s.disk, After(s, o).disk)
  {
    hide Inv, Loses, Moved, SameView, Untouched, After;
    if o.code != 0 {
      UntouchedView(s, C, o, C);
    }
  }

  /** What is found at the target is the object that translate leads to. */
  lemma FoundIs(d: Disk, C: Cert, comps: seq<Str>)
    requires Tree(d, C) && Translate(d, comps).Ok?
    ensures var i, r := TargetOf(d, comps), Target(comps);
      && Lookup(d, r) == Some(ObjAt(d, i)) && AttrAt(d, r) == AttrOf(Node(d, i))
      && (!DirAt(d, i) ==> BytesAt(d, r) == Content(d, i) && FileFound(d, r))
      && (DirAt(d, i) ==> DirFound(d, r))
  {
    TargetWalks(d, C, comps);
    hide Tree, Content, Target, DirAt;
  }

  lemma StepMake(s: Fs, C: Cert, a: Call)
    requires Inv(s, C) && Asks(s, a) && (a.CreateCall? || a.MkdirCall?)
    ensures Callable(s, a) && StepOf(s.disk, a, Do(s, a).code, After(s, Do(s, a)).disk)
  {
    hide *;
    AsksIs(s, a);
    DoIs(s, a);
    HeedsIs(s, a);
    StepIsMake(s.disk, a, Do(s, a).code, After(s, Do(s, a)).disk);
    var r := Stored(Resolve(a.comps));
    if a.CreateCall? {
      var D, t, L, c := CreateKeeps(s, C, a.comps, a.mode, a.who);
      MakeView(s, C, Do(s, a), D, t, L, r, File(NewAttr(a.mode, a.who), []), 1, ENOSPC, c, 0);
    } else {
      var D, t, L, c := MkdirKeeps(s, C, a.comps, a.mode, a.who);
      MakeView(s, C, Do(s, a), D, t, L, r, Dir(NewAttr(0x4000 + a.mode, a.who)), 2, EOPNOTSUPP, c, 4096);
    }
  }

  lemma StepIsMake(d: Disk, a: Call, code: int, e: Disk)
    requires a.CreateCall? || a.MkdirCall?
    ensures code < 0 ==> (StepOf(d, a, code, e) <==> SameView(d, e))
    ensures code >= 0 && a.CreateCall? ==>
      (StepOf(d, a, code, e) <==> Gains(d, e, Stored(Resolve(a.comps)), File(NewAttr(a.mode, a.who), [])))
    ensures code >= 0 && a.MkdirCall? ==>
      (StepOf(d, a, code, e) <==> Gains(d, e, Stored(Resolve(a.comps)), Dir(NewAttr(0x4000 + a.mode, a.who))))
  {
    hide SameView, Gains, Resolve, Stored;
  }

  lemma StepRemove(s: Fs, C: Cert, a: Call)
    requires Inv(s, C) && Asks(s, a) && (a.UnlinkCall? || a.RmdirCall?)
    ensures Callable(s, a) && StepOf(s.disk, a, Do(s, a).code, After(s, Do(s, a)).disk)
  {
    hide *;
    AsksIs(s, a);
    DoIs(s, a);
    HeedsIs(s, a);
    StepIsRemove(s.disk, a, Do(s, a).code, After(s, Do(s, a)).disk);
    var r := Resolve(a.comps);
    if a.UnlinkCall? {
      if Faithful(a.comps) { UnlinkCodes(s, C, a.comps); }
      var D, n := UnlinkKeeps(s, C, a.comps);
      RemoveView(s, C, Do(s, a), D, {}, r, n);
    } else {
      if Faithful(a.comps) { RmdirCodes(s, C, a.comps); }
      var D, L, n := RmdirKeeps(s, C, a.comps);
      RemoveView(s, C, Do(s, a), D, L, r, n);
    }
  }

  lemma StepIsRemove(d: Disk, a: Call, code: int, e: Disk)
    requires a.UnlinkCall? || a.RmdirCall?
    ensures code < 0 ==> (StepOf(d, a, code, e) <==> SameView(d, e))
    ensures code >= 0 && a.UnlinkCall? ==>
      (StepOf(d, a, code, e) <==> FileFound(d, Resolve(a.comps)) && Removed(d, e, Resolve(a.comps)))
    ensures code >= 0 && a.RmdirCall? ==>
      (StepOf(d, a, code, e) <==> DirFound(d, Resolve(a.comps)) && Drops(d, e, Resolve(a.comps)))
  {
    hide SameView, Removed, Drops, Resolve, FileFound, DirFound, Lookup;
  }

  lemma StepRename(s: Fs, C: Cert, a: Call)
    requires Inv(s, C) && Asks(s, a) && a.RenameCall?
    ensures Callable(s, a) && StepOf(s.disk, a, Do(s, a).code, After(s, Do(s, a)).disk)
  {
    hide *;
    AsksIs(s, a);
    DoIs(s, a);
    HeedsIs(s, a);
    StepIsRename(s.disk, a, Do(s, a).code, After(s, Do(s, a)).disk);
    var rs, rd := Resolve(a.src), Resolve(a.dst);
    RenameFails(s, a.src, a.dst);
    RenameKeeps(s, C, a.src, a.dst);
    RenameView(s, C, Do(s, a), rs, Stored(rd));
    if Do(s, a).code == 0 {
      RenameInOne(s, C, a.src, a.dst);
      StoredIs(rd);
      FrontLength(rs);
      FrontLength(rd);
      MovesIs(s.disk, After(s, Do(s, a)).disk, rs, Stored(rd));
    }
  }

  /** A rename that succeeds stays in one directory. */
  lemma RenameInOne(s: Fs, C: Cert, src: seq<Str>, dst: seq<Str>)
    requires Inv(s, C) && RenameDefined(s.disk, src, dst) && Rename(s, src, dst).code == 0
    ensures Resolve(src) != [] && Resolve(dst) != []
    ensures Front(Resolve(dst)) == Front(Resolve(src)) && Walk(s.disk, Front(Resolve(src))).Ok?
  {
    hide *;
    InvParts(s, C);
    var p := RenameGoes(s, src, dst);
    WalkIsPath(s.disk, C, Front(Resolve(src)));
    WalkIsPath(s.disk, C, Front(Resolve(dst)));
  }

  lemma FrontLength(r: Path)
    requires r != []
    ensures |Front(r)| == |r| - 1
  {}

  lemma StepIsRename(d: Disk, a: Call, code: int, e: Disk)
    requires a.RenameCall?
    ensures StepOf(d, a, code, e) <==> if code < 0 then SameView(d, e)
        else Moves(d, Resolve(a.src), Stored(Resolve(a.dst)), e)
  {
    hide SameView, Moves, Resolve, Stored;
  }

  lemma StepTruncate(s: Fs, C: Cert, a: Call)
    requires Inv(s, C) && Asks(s, a) && a.TruncateCall?
    ensures Callable(s, a) && StepOf(s.disk, a, Do(s, a).code, After(s, Do(s, a)).disk)
  {
    hide *;
    AsksIs(s, a);
    DoIs(s, a);
    StepIsEdit(s.disk, a, Do(s, a).code, After(s, Do(s, a)).disk);
    var d, i, o := s.disk, TargetOf(s.disk, a.comps), Do(s, a);
    InvParts(s, C);
    TruncateCodes(s, C, a.comps, a.len, a.now);
    TouchSucceeds(s, a);
    if Translate(d, a.comps).Ok? { FoundIs(d, C, a.comps); }
    var D := TruncateKeeps(s, C, a.comps, a.len, a.now);
    EditView(s, C, o, D, Target(a.comps), TruncatedObj(d, i, a.now), 0, Span(d, i));
    TruncatedObjIs(d, i, a.now);
  }

  lemma StepTouch(s: Fs, C: Cert, a: Call)
    requires Inv(s, C) && Asks(s, a) && (a.ChmodCall? || a.UtimeCall?)
    ensures Callable(s, a) && StepOf(s.disk, a, Do(s, a).code, After(s, Do(s, a)).disk)
  {
    hide *;
    AsksIs(s, a);
    DoIs(s, a);
    StepIsEdit(s.disk, a, Do(s, a).code, After(s, Do(s, a)).disk);
    var d, i, r, o := s.disk, TargetOf(s.disk, a.comps), Target(a.comps), Do(s, a);
    InvParts(s, C);
    TouchSucceeds(s, a);
    if Translate(d, a.comps).Ok? { FoundIs(d, C, a.comps); }
    if a.ChmodCall? {
      ChmodKeeps(s, C, a.comps, a.mode);
      var m := PermMode(Node(d, i).mode, a.mode);
      EditView(s, C, o, C, r, WithAttr(ObjAt(d, i), AttrOf(Node(d, i)).(mode := m)), 0, 0);
      ChmodAttr(Node(d, i), a.mode);
    } else {
      UtimeKeeps(s, C, a.comps, a.modtime);
      EditView(s, C, o, C, r, WithAttr(ObjAt(d, i), AttrOf(Node(d, i)).(mtime := a.modtime % 0x1_0000_0000)), 0, 0);
      StampIs(AttrOf(Node(d, i)), a.modtime);
    }
  }

  lemma TouchSucceeds(s: Fs, a: Call)
    requires Asks(s, a) && (a.TruncateCall? || a.ChmodCall? || a.UtimeCall?)
    ensures Do(s, a).code >= 0 ==> Translate(s.disk, a.comps).Ok?
  {
    DoIs(s, a);
    TraceFailsNegative(s.disk, a.comps);
    if a.TruncateCall? { TruncateShape(s, a.comps, a.len, a.now); }
    assert EINVAL < 0;
    hide Do, Asks, Truncate, Translate, ObjAt, InodeSector, DirAt, Resolve, Faithful;
  }

  lemma TruncatedObjIs(d: Disk, i: nat, now: nat)
    ensures TruncatedObj(d, i, now) == File(Stamp(AttrOf(Node(d, i)), now), [])
  {}

  lemma ChmodAttr(n: Inode, mode: nat)
    ensures PermMode(n.mode, mode) == AttrOf(n).mode / 0x1000 % 16 * 0x1000 + mode % 0x200
  {}

  lemma StampIs(a: Attr, now: nat)
    ensures Stamp(a, now) == a.(mtime := now % 0x1_0000_0000)
  {}

  lemma StepIsEdit(d: Disk, a: Call, code: int, e: Disk)
    requires a.TruncateCall? || a.ChmodCall? || a.UtimeCall?
    ensures var r := Target(a.comps); var was := AttrAt(d, r);
      StepOf(d, a, code, e) <==>
        if code < 0 then SameView(d, e)
        else if a.TruncateCall? then a.len == 0 && FileFound(d, r) && Replaced(d, e, r, File(Stamp(was, a.now), []))
        else if a.ChmodCall? then
          Lookup(d, r).Some? &&
          Replaced(d, e, r, WithAttr(Lookup(d, r).value,
              was.(mode := was.mode / 0x1000 % 16 * 0x1000 + a.mode % 0x200)))
        else Lookup(d, r).Some? && Replaced(d, e, r, WithAttr(Lookup(d, r).value, Stamp(was, a.modtime)))
  {
    hide SameView, Replaced, Target, FileFound, Lookup, AttrAt, Stamp, WithAttr;
  }

  lemma StepWrite(s: Fs, C: Cert, a: Call)
    requires Inv(s, C) && Asks(s, a) && a.WriteCall?
    ensures Callable(s, a) && StepOf(s.disk, a, Do(s, a).code, After(s, Do(s, a)).disk)
  {
    hide *;
    AsksIs(s, a);
    DoIs(s, a);
    StepIsWrite(s.disk, a, Do(s, a).code, After(s, Do(s, a)).disk);
    var d, i, r, n := s.disk, TargetOf(s.disk, a.comps), Target(a.comps), |a.data|;
    InvParts(s, C);
    var D := WriteKeeps(s, C, a.comps, a.data, a.off, a.now);
    WriteView(s, C, Do(s, a), D, r, WrittenObj(d, i, a.off, a.data, a.now), |NewBlocks(s, i, a.off, n).blocks|);
    if Do(s, a).code >= 0 {
      FoundIs(d, C, a.comps);
      CanWriteInside(s, i, a.off, n);
      ContentSize(d, i);
      WrittenObjShape(d, i, a.off, a.data, a.now);
    }
  }

  lemma WrittenObjShape(d: Disk, i: nat, off: nat, data: Str, now: nat)
    requires off <= |Content(d, i)|
    ensures WrittenObj(d, i, off, data, now) == File(Stamp(AttrOf(Node(d, i)), now), Spliced(Content(d, i), off, data))
  {
    hide Content, Spliced;
  }

  lemma StepIsWrite(d: Disk, a: Call, code: int, e: Disk)
    requires a.WriteCall?
    ensures var r := Target(a.comps);
      StepOf(d, a, code, e) <==>
        if code < 0 then SameView(d, e)
        else FileFound(d, r) && a.off <= |BytesAt(d, r)|
             && Replaced(d, e, r, File(Stamp(AttrAt(d, r), a.now), Spliced(BytesAt(d, r), a.off, a.data)))
  {
    hide SameView, Replaced, Target, FileFound, Lookup, AttrAt, BytesAt, Stamp, Spliced;
  }

  /** Every operation, on every state that has the invariant, is one step on the map from paths to objects: the step of
      its name if it succeeds, and no step at all if it fails. */
  lemma CallRefines(s: Fs, C: Cert, a: Call)
    requires Inv(s, C) && Asks(s, a)
    ensures Callable(s, a) && StepOf(s.disk, a, Do(s, a).code, After(s, Do(s, a)).disk)
  {
    hide *;
    if a.CreateCall? || a.MkdirCall? {
      StepMake(s, C, a);
    } else if a.UnlinkCall? || a.RmdirCall? {
      StepRemove(s, C, a);
    } else if a.RenameCall? {
      StepRename(s, C, a);
    } else if a.WriteCall? {
      StepWrite(s, C, a);
    } else if a.TruncateCall? {
      StepTruncate(s, C, a);
    } else {
      StepTouch(s, C, a);
    }
  }

  // ---- every run is a run of steps ----

  /** Each call of the run takes its step on the map. */
  ghost predicate Behaves(s: Fs, run: seq<Call>)
    requires Admits(s, run)
    decreases |run|
  {
    run == [] ||
    (StepOf(s.disk, run[0], Do(s, run[0]).code, After(s, Do(s, run[0])).disk) &&
        Behaves(After(s, Do(s, run[0])), run[1..]))
  }

  /** From a state with the invariant on, every run behaves as the map does, failures and all. */
  lemma {:induction false} RunRefines(s: Fs, C: Cert, run: seq<Call>)
    requires Inv(s, C) && Admits(s, run)
    ensures Behaves(s, run)
    decreases |run|
  {
    hide Inv, Asks, Do, After, StepOf;
    if run != [] {
      IsCallable(s, run[0]);
      var D, t := CallKeeps(s, C, run[0]);
      AccountParts(s, C, run[0], Do(s, run[0]), D);
      CallRefines(s, C, run[0]);
      RunRefines(After(s, Do(s, run[0])), D, run[1..]);
    }
  }
}
