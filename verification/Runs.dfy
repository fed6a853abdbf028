/** Whole runs: the invariant over every sequence of operations, exact block accounting, and what statfs reports. */
module Runs {
  import opened Format
  import opened Bits
  import opened Image
  import opened Change
  import opened Paths
  import opened Ops
  import opened Keep
  import opened Making
  import opened Removing
  import opened Editing
  import opened Renaming
  import opened Writing

  datatype Call =
    | CreateCall(comps: seq<Str>, mode: nat, who: Caller)
    | MkdirCall(comps: seq<Str>, mode: nat, who: Caller)
    | UnlinkCall(comps: seq<Str>)
    | RmdirCall(comps: seq<Str>)
    | RenameCall(src: seq<Str>, dst: seq<Str>)
    | TruncateCall(comps: seq<Str>, len: int, now: nat)
    | WriteCall(comps: seq<Str>, data: Str, off: nat, now: nat)
    | ChmodCall(comps: seq<Str>, mode: nat)
    | UtimeCall(comps: seq<Str>, modtime: nat)

  /** The path names something below the root: there is a last component. */
  predicate HasName(comps: seq<Str>) { Resolve(comps) != [] }

  /** What the code itself asks of a call: a last component where it splits one off, and for mkdir permission bits
      only. */
  predicate Callable(s: Fs, a: Call) {
    match a
    case CreateCall(p, _, _) => HasName(p)
    case MkdirCall(p, mode, _) => HasName(p) && mode < 0x1000
    case UnlinkCall(p) => UnlinkDefined(s.disk, p)
    case RmdirCall(p) => RmdirDefined(s.disk, p)
    case RenameCall(p, q) => RenameDefined(s.disk, p, q)
    case _ => true
  }

  /** What the kernel and pathparse promise of the arguments: a regular file's mode for create, and names that are
      tokens of a C string. */
  predicate Proper(s: Fs, a: Call) {
    && Callable(s, a)
    && match a
       case CreateCall(p, mode, _) => Parsed(p) && mode < 0x1_0000_0000 && IsReg(mode)
       case MkdirCall(p, _, _) => Parsed(p)
       case RenameCall(_, q) => Parsed(q)
       case _ => true
  }

  /** What a call that succeeds must heed to keep the invariant: a new name that is stored cut must not be taken, and
      unlink and rmdir must not be given a '..' that translate gets wrong. */
  predicate Heeds(s: Fs, a: Call) {
    match a
    case CreateCall(p, _, _) => Stores(s.disk, Resolve(p))
    case MkdirCall(p, _, _) => Stores(s.disk, Resolve(p))
    case UnlinkCall(p) => Faithful(p)
    case RmdirCall(p) => Faithful(p)
    case RenameCall(p, q) => Receives(s.disk, Resolve(p), Resolve(q))
    case _ => true
  }

  /** A write that gets to the allocation loop stays inside the pointer table. */
  predicate InTable(s: Fs, a: Call) { a.WriteCall? ==> Bounded(s, a.comps, a.off, |a.data|) }

  /** What an operation needs to keep the invariant. A call that fails needs nothing of a name or a path. */
  predicate Asks(s: Fs, a: Call) {
    Proper(s, a) && InTable(s, a) && (Do(s, a).code >= 0 ==> Heeds(s, a))
  }

  function Do(s: Fs, a: Call): Outcome
    requires Callable(s, a)
  {
    match a
    case CreateCall(p, mode, who) => Create(s, p, mode, who)
    case MkdirCall(p, mode, who) => Mkdir(s, p, mode, who)
    case UnlinkCall(p) => Unlink(s, p)
    case RmdirCall(p) => Rmdir(s, p)
    case RenameCall(p, q) => Rename(s, p, q)
    case TruncateCall(p, len, now) => Truncate(s, p, len, now)
    case WriteCall(p, data, off, now) => WriteFile(s, p, data, off, now)
    case ChmodCall(p, mode) => Chmod(s, p, mode)
    case UtimeCall(p, t) => Utime(s, p, t)
  }

  /** Blocks a successful call adds to the tree ... */
  function Takes(s: Fs, a: Call): nat {
    match a
    case CreateCall(_, _, _) => 1
    case MkdirCall(_, _, _) => 2
    case WriteCall(p, data, off, _) => |NewBlocks(s, TargetOf(s.disk, p), off, |data|).blocks|
    case _ => 0
  }

  /** ... and blocks it takes out. */
  ghost function Frees(s: Fs, a: Call): nat {
    match a
    case UnlinkCall(p) => 1 + Span(s.disk, TargetOf(s.disk, p))
    case RmdirCall(p) => |Beneath(s.disk, Resolve(p))|
    case TruncateCall(p, _, _) => Span(s.disk, TargetOf(s.disk, p))
    case _ => 0
  }

  /** The blocks a call loses, by the state before it: the ones a new object was to have when its parent turns out to
      be full, what rmdir takes out of the tree and does not clear, and all free blocks when a write finds too few. */
  ghost function Lost(s: Fs, a: Call): set<nat> {
    match a
    case CreateCall(p, _, _) => CreateLoses(s, Resolve(p))
    case MkdirCall(p, _, _) => MkdirLoses(s, Resolve(p))
    case RmdirCall(p) => RmdirLoses(s.disk, p)
    case WriteCall(p, data, off, _) => if WriteShort(s, p, off, |data|) then FreeBlocks(s) else {}
    case _ => {}
  }

  /** What holds after every call: the invariant and an exact account of blocks. What has been lost is in use nowhere
      and not free either; only a write that finds too few blocks leaves that to memory alone. */
  ghost predicate Accounts(s: Fs, C: Cert, a: Call, o: Outcome, D: Cert) {
    && Inv(After(s, o), D) && Loses(s.bitmap, C, o.bitmap, D, Lost(s, a))
    && (Clean(s) && (a.WriteCall? ==> Lost(s, a) == {}) ==> Clean(After(s, o)))
    && (o.code < 0 ==> D == C) && (o.code >= 0 && !a.RmdirCall? ==> Lost(s, a) == {})
    && (o.code >= 0 ==> |D.Keys| + Frees(s, a) == |C.Keys| + Takes(s, a))
  }

  lemma FromMake(s: Fs, C: Cert, a: Call, o: Outcome, D: Cert, t: nat, L: set<nat>, r: Path, obj: Obj, n: nat,
      full: int, c: nat, size: int)
    requires Made(s, C, o, D, t, L, r, obj, n, full, c, size) && L == Lost(s, a)
    requires Frees(s, a) == 0 && Takes(s, a) == n && !a.WriteCall? && !a.RmdirCall?
    ensures Accounts(s, C, a, o, D) && Sound(s, C, o, D, t)
  {
    hide Stages, Inv, Loses, Gains, Agree, Placed, Clean, Lost, Frees, Takes;
  }

  lemma FromRemove(s: Fs, C: Cert, a: Call, o: Outcome, D: Cert, L: set<nat>, r: Path, n: nat)
    requires Sound(s, C, o, D, 1) && RemoveResult(s, C, o, D, L, r, n) && L == Lost(s, a)
    requires (a.UnlinkCall? && L == {}) || a.RmdirCall?
    requires o.code == 0 ==> n == Frees(s, a)
    requires Takes(s, a) == 0
    ensures Accounts(s, C, a, o, D)
  {
    hide Stages, Inv, Loses, Drops, Agree, Clean, Lost, Frees, Takes;
  }

  lemma FromEdit(s: Fs, C: Cert, a: Call, o: Outcome, D: Cert, r: Path, obj: Obj, less: nat)
    requires Sound(s, C, o, D, 1) && EditResult(s, C, o, D, r, obj, 0, less)
    requires less == Frees(s, a) && Takes(s, a) == 0 && Lost(s, a) == {}
    ensures Accounts(s, C, a, o, D)
  {
    hide Stages, Inv, Loses, Replaced, Agree, Clean, Frees, Takes, Lost;
  }

  lemma FromRename(s: Fs, C: Cert, a: Call, o: Outcome, r: Path, r': Path)
    requires Sound(s, C, o, C, 1) && RenameResult(s, C, o, r, r') && a.RenameCall?
    ensures Accounts(s, C, a, o, C)
  {
    hide Stages, Inv, Loses, Moved, Agree, Clean;
  }

  lemma FromWrite(s: Fs, C: Cert, a: Call, o: Outcome, D: Cert, r: Path, obj: Obj, more: nat)
    requires Inv(After(s, o), D) && WriteResult(s, C, o, D, r, obj, more) && a.WriteCall? && more == Takes(s, a)
    requires Lost(s, a) == (if o.code == ENOSPC then FreeBlocks(s) else {}) && Frees(s, a) == 0
    ensures Accounts(s, C, a, o, D)
  {
    assert ENOSPC < 0;
    hide Inv, Loses, Replaced, Clean, Takes, Frees, FreeBlocks, Lost;
  }

  lemma DoIs(s: Fs, a: Call)
    requires Callable(s, a)
    ensures match a
      case CreateCall(p, mode, who) => Do(s, a) == Create(s, p, mode, who)
      case MkdirCall(p, mode, who) => Do(s, a) == Mkdir(s, p, mode, who)
      case UnlinkCall(p) => Do(s, a) == Unlink(s, p)
      case RmdirCall(p) => Do(s, a) == Rmdir(s, p)
      case RenameCall(p, q) => Do(s, a) == Rename(s, p, q)
      case TruncateCall(p, len, now) => Do(s, a) == Truncate(s, p, len, now)
      case WriteCall(p, data, off, now) => Do(s, a) == WriteFile(s, p, data, off, now)
      case ChmodCall(p, mode) => Do(s, a) == Chmod(s, p, mode)
      case UtimeCall(p, t) => Do(s, a) == Utime(s, p, t)
  {
    hide Create, Mkdir, Unlink, Rmdir, Rename, Truncate, WriteFile, Chmod, Utime, Resolve;
  }

  /** The last name of a resolved path of tokens is a name that can be new. */
  lemma NewNames(comps: seq<Str>)
    requires Parsed(comps) && Resolve(comps) != []
    ensures NewName(NameIn(Resolve(comps)))
  {
    ResolvedNames(comps);
    var r := Resolve(comps);
    hide Resolve;
    assert r[|r| - 1] in comps && Plain(r[|r| - 1]);
  }

  lemma CallableIs(s: Fs, a: Call)
    requires Callable(s, a)
    ensures a.CreateCall? || a.MkdirCall? ==> Resolve(a.comps) != []
    ensures a.UnlinkCall? ==> UnlinkDefined(s.disk, a.comps)
    ensures a.RmdirCall? ==> RmdirDefined(s.disk, a.comps)
    ensures a.RenameCall? ==> RenameDefined(s.disk, a.src, a.dst)
    ensures a.MkdirCall? ==> a.mode < 0x1000
  {
    hide Resolve, UnlinkDefined, RmdirDefined, RenameDefined;
  }

  lemma ProperIs(s: Fs, a: Call)
    requires Proper(s, a)
    ensures Callable(s, a)
    ensures a.CreateCall? || a.MkdirCall? ==> NewName(NameIn(Resolve(a.comps)))
    ensures a.CreateCall? ==> a.mode < 0x1_0000_0000 && IsReg(a.mode)
    ensures a.RenameCall? && Resolve(a.dst) != [] ==> NewName(NameIn(Resolve(a.dst)))
  {
    CallableIs(s, a);
    if a.CreateCall? || a.MkdirCall? { NewNames(a.comps); }
    if a.RenameCall? && Resolve(a.dst) != [] { NewNames(a.dst); }
    hide Callable, Resolve, NewName, Parsed, IsReg;
  }

  lemma HeedsIs(s: Fs, a: Call)
    ensures a.CreateCall? || a.MkdirCall? ==> (Heeds(s, a) <==> Stores(s.disk, Resolve(a.comps)))
    ensures a.UnlinkCall? || a.RmdirCall? ==> (Heeds(s, a) <==> Faithful(a.comps))
    ensures a.RenameCall? ==> (Heeds(s, a) <==> Receives(s.disk, Resolve(a.src), Resolve(a.dst)))
    ensures a.TruncateCall? || a.WriteCall? || a.ChmodCall? || a.UtimeCall? ==> Heeds(s, a)
  {
    hide Stores, Receives, Faithful, Resolve;
  }

  lemma AsksParts(s: Fs, a: Call)
    requires Asks(s, a)
    ensures Proper(s, a) && Callable(s, a) && (Do(s, a).code >= 0 ==> Heeds(s, a))
    ensures a.WriteCall? ==> Bounded(s, a.comps, a.off, |a.data|)
  {
    hide Callable, Heeds, Bounded, Do;
  }

  /** What a call that asks for what it may comes with. */
  lemma AsksIs(s: Fs, a: Call)
    requires Asks(s, a)
    ensures Callable(s, a) && (Do(s, a).code >= 0 ==> Heeds(s, a))
    ensures a.CreateCall? || a.MkdirCall? ==> Resolve(a.comps) != []
    ensures a.UnlinkCall? ==> UnlinkDefined(s.disk, a.comps)
    ensures a.RmdirCall? ==> RmdirDefined(s.disk, a.comps)
    ensures a.RenameCall? ==> RenameDefined(s.disk, a.src, a.dst)
    ensures a.MkdirCall? ==> a.mode < 0x1000
    ensures a.CreateCall? || a.MkdirCall? ==> NewName(NameIn(Resolve(a.comps)))
    ensures a.CreateCall? ==> a.mode < 0x1_0000_0000 && IsReg(a.mode)
    ensures a.RenameCall? && Resolve(a.dst) != [] ==> NewName(NameIn(Resolve(a.dst)))
    ensures a.WriteCall? ==> Bounded(s, a.comps, a.off, |a.data|)
  {
    hide *;
    AsksParts(s, a);
    CallableIs(s, a);
    ProperIs(s, a);
  }

  /** On a disk of at most 1024 blocks every write may be asked for, on any path and at any offset. */
  lemma WritesAsk(s: Fs, C: Cert, a: Call)
    requires Inv(s, C) && |s.disk| <= 1024 && a.WriteCall? && a.off + |a.data| <= 0xFFF_FFFF_F000
    ensures Callable(s, a) && Asks(s, a)
  {
    BoundedOnSmallDisks(s, C, a.comps, a.off, |a.data|);
    hide Do, Bounded, Inv;
  }

  lemma IsCallable(s: Fs, a: Call)
    requires Asks(s, a)
    ensures Callable(s, a)
  {
    hide Callable, Heeds, Bounded, Do;
  }

  /** The account of each operation. */
  lemma CountsAre(s: Fs, a: Call)
    ensures a.CreateCall? ==> Lost(s, a) == CreateLoses(s, Resolve(a.comps)) && Takes(s, a) == 1
    ensures a.MkdirCall? ==> Lost(s, a) == MkdirLoses(s, Resolve(a.comps)) && Takes(s, a) == 2
    ensures a.UnlinkCall? ==> Lost(s, a) == {} && Frees(s, a) == 1 + Span(s.disk, TargetOf(s.disk, a.comps))
    ensures a.RmdirCall? ==>
      Lost(s, a) == RmdirLoses(s.disk, a.comps) && Frees(s, a) == |Beneath(s.disk, Resolve(a.comps))|
    ensures a.TruncateCall? ==> Lost(s, a) == {} && Frees(s, a) == Span(s.disk, TargetOf(s.disk, a.comps))
    ensures a.RenameCall? || a.ChmodCall? || a.UtimeCall? ==> Lost(s, a) == {} && Takes(s, a) == Frees(s, a) == 0
    ensures a.WriteCall? ==>
      && Lost(s, a) == (if WriteShort(s, a.comps, a.off, |a.data|) then FreeBlocks(s) else {})
      && Takes(s, a) == |NewBlocks(s, TargetOf(s.disk, a.comps), a.off, |a.data|).blocks|
    ensures a.CreateCall? || a.MkdirCall? || a.WriteCall? ==> Frees(s, a) == 0
    ensures a.UnlinkCall? || a.RmdirCall? || a.TruncateCall? ==> Takes(s, a) == 0
  {
    hide Span, TargetOf, NewBlocks, CreateLoses, MkdirLoses, RmdirLoses, WriteShort, FreeBlocks, Beneath, Resolve;
  }

  lemma KeepsMake(s: Fs, C: Cert, a: Call) returns (D: Cert, t: nat)
    requires Inv(s, C) && Asks(s, a) && (a.CreateCall? || a.MkdirCall?)
    ensures Accounts(s, C, a, Do(s, a), D) && Sound(s, C, Do(s, a), D, t)
  {
    hide *;
    AsksIs(s, a);
    DoIs(s, a);
    HeedsIs(s, a);
    CountsAre(s, a);
    var r := Stored(Resolve(a.comps));
    var c, L;
    match a
    case CreateCall(p, mode, who) =>
      D, t, L, c := CreateKeeps(s, C, p, mode, who);
      FromMake(s, C, a, Do(s, a), D, t, L, r, File(NewAttr(mode, who), []), 1, ENOSPC, c, 0);
    case MkdirCall(p, mode, who) =>
      D, t, L, c := MkdirKeeps(s, C, p, mode, who);
      FromMake(s, C, a, Do(s, a), D, t, L, r, Dir(NewAttr(0x4000 + mode, who)), 2, EOPNOTSUPP, c, 4096);
  }

  lemma KeepsRemove(s: Fs, C: Cert, a: Call) returns (D: Cert)
    requires Inv(s, C) && Asks(s, a) && (a.UnlinkCall? || a.RmdirCall?)
    ensures Accounts(s, C, a, Do(s, a), D) && Sound(s, C, Do(s, a), D, 1)
  {
    hide *;
    AsksIs(s, a);
    DoIs(s, a);
    HeedsIs(s, a);
    CountsAre(s, a);
    TargetIs(s.disk, a.comps);
    var n: nat;
    match a
    case UnlinkCall(p) =>
      D, n := UnlinkKeeps(s, C, p);
      FromRemove(s, C, a, Do(s, a), D, {}, Resolve(p), n);
    case RmdirCall(p) =>
      var L;
      D, L, n := RmdirKeeps(s, C, p);
      FromRemove(s, C, a, Do(s, a), D, L, Resolve(p), n);
  }

  lemma KeepsRename(s: Fs, C: Cert, a: Call)
    requires Inv(s, C) && Asks(s, a) && a.RenameCall?
    ensures Accounts(s, C, a, Do(s, a), C) && Sound(s, C, Do(s, a), C, 1)
  {
    hide *;
    AsksIs(s, a);
    DoIs(s, a);
    HeedsIs(s, a);
    RenameFails(s, a.src, a.dst);
    RenameKeeps(s, C, a.src, a.dst);
    FromRename(s, C, a, Do(s, a), Resolve(a.src), Stored(Resolve(a.dst)));
  }

  lemma KeepsEdit(s: Fs, C: Cert, a: Call) returns (D: Cert)
    requires Inv(s, C) && Asks(s, a) && (a.TruncateCall? || a.ChmodCall? || a.UtimeCall?)
    ensures Accounts(s, C, a, Do(s, a), D) && Sound(s, C, Do(s, a), D, 1)
  {
    hide *;
    AsksIs(s, a);
    DoIs(s, a);
    CountsAre(s, a);
    D := C;
    var i, r, n := TargetOf(s.disk, a.comps), Target(a.comps), Node(s.disk, TargetOf(s.disk, a.comps));
    match a
    case TruncateCall(p, len, now) =>
      D := TruncateKeeps(s, C, p, len, now);
      FromEdit(s, C, a, Do(s, a), D, r, TruncatedObj(s.disk, i, now), Span(s.disk, i));
    case ChmodCall(p, mode) =>
      ChmodKeeps(s, C, p, mode);
      FromEdit(s, C, a, Do(s, a), C, r, WithAttr(ObjAt(s.disk, i), AttrOf(n).(mode := PermMode(n.mode, mode))), 0);
    case UtimeCall(p, m) =>
      UtimeKeeps(s, C, p, m);
      FromEdit(s, C, a, Do(s, a), C, r, WithAttr(ObjAt(s.disk, i), AttrOf(n).(mtime := m % 0x1_0000_0000)), 0);
  }

  lemma KeepsWrite(s: Fs, C: Cert, a: Call) returns (D: Cert)
    requires Inv(s, C) && Asks(s, a) && a.WriteCall?
    ensures Accounts(s, C, a, Do(s, a), D)
  {
    hide *;
    AsksIs(s, a);
    DoIs(s, a);
    CountsAre(s, a);
    var i := TargetOf(s.disk, a.comps);
    D := WriteKeeps(s, C, a.comps, a.data, a.off, a.now);
    WriteRunsOut(s, C, a.comps, a.data, a.off, a.now);
    FromWrite(s, C, a, Do(s, a), D, Target(a.comps), WrittenObj(s.disk, i, a.off, a.data, a.now),
              |NewBlocks(s, i, a.off, |a.data|).blocks|);
  }

  /** Every operation keeps the invariant and accounts for its blocks, to the last one; all but write do so safely at
      every block write. */
  lemma CallKeeps(s: Fs, C: Cert, a: Call) returns (D: Cert, t: nat)
    requires Inv(s, C) && Asks(s, a)
    ensures Accounts(s, C, a, Do(s, a), D) && (!a.WriteCall? ==> Sound(s, C, Do(s, a), D, t))
  {
    hide *;
    D, t := C, 1;
    if a.CreateCall? || a.MkdirCall? {
      D, t := KeepsMake(s, C, a);
    } else if a.UnlinkCall? || a.RmdirCall? {
      D := KeepsRemove(s, C, a);
    } else if a.RenameCall? {
      KeepsRename(s, C, a);
    } else if a.WriteCall? {
      D := KeepsWrite(s, C, a);
    } else {
      D := KeepsEdit(s, C, a);
    }
  }

  // ---- runs ----

  /** Each call of the run asks only for what it may, in the state it is made in. */
  ghost predicate Admits(s: Fs, run: seq<Call>)
    decreases |run|
  { run == [] || (Asks(s, run[0]) && Admits(After(s, Do(s, run[0])), run[1..])) }

  ghost function Play(s: Fs, run: seq<Call>): Fs
    requires Admits(s, run)
    decreases |run|
  { if run == [] then s else Play(After(s, Do(s, run[0])), run[1..]) }

  /** The blocks in use beyond those at the start, summed over the calls ... */
  ghost function Growth(s: Fs, run: seq<Call>): int
    requires Admits(s, run)
    decreases |run|
  {
    if run == [] then 0
    else
      var o := Do(s, run[0]);
      (if o.code >= 0 then Takes(s, run[0]) - Frees(s, run[0]) else 0) + Growth(After(s, o), run[1..])
  }

  /** ... the blocks that the calls lose, and how many each loses, summed up. */
  ghost function LostIn(s: Fs, run: seq<Call>): set<nat>
    requires Admits(s, run)
    decreases |run|
  { if run == [] then {} else Lost(s, run[0]) + LostIn(After(s, Do(s, run[0])), run[1..]) }

  ghost function Losses(s: Fs, run: seq<Call>): nat
    requires Admits(s, run)
    decreases |run|
  { if run == [] then 0 else |Lost(s, run[0])| + Losses(After(s, Do(s, run[0])), run[1..]) }

  lemma AccountParts(s: Fs, C: Cert, a: Call, o: Outcome, D: Cert)
    requires Accounts(s, C, a, o, D)
    ensures Inv(After(s, o), D) && |After(s, o).disk| == |s.disk|
    ensures Loses(s.bitmap, C, After(s, o).bitmap, D, Lost(s, a))
    ensures Clean(s) && Lost(s, a) == {} ==> Clean(After(s, o))
    ensures |D.Keys| == |C.Keys| + if o.code >= 0 then Takes(s, a) - Frees(s, a) else 0
    ensures o.code >= 0 && !a.RmdirCall? ==> Lost(s, a) == {}
  {
    AfterIs(s, o);
    hide Inv, Loses, Clean, Takes, Frees, Lost;
  }

  /** Every run of operations keeps the invariant, whatever fails on the way. */
  lemma {:induction false} RunKeeps(s: Fs, C: Cert, run: seq<Call>) returns (D: Cert)
    requires Inv(s, C) && Admits(s, run)
    ensures Inv(Play(s, run), D)
    decreases |run|
  {
    hide Inv, Asks, Do, After;
    D := C;
    if run != [] {
      var t;
      IsCallable(s, run[0]);
      D, t := CallKeeps(s, C, run[0]);
      AccountParts(s, C, run[0], Do(s, run[0]), D);
      D := RunKeeps(After(s, Do(s, run[0])), D, run[1..]);
    }
  }

  // ---- exact accounting ----

  /** Both bitmaps are the same and mark exactly the blocks in use and the first two blocks. */
  ghost predicate Exact(s: Fs, C: Cert) {
    Inv(s, C) && Clean(s) && forall b: nat :: Bit(s.bitmap, b) <==> b in C || b == 0 || b == 1
  }

  /** What has been lost stays lost, and nothing is lost twice. */
  lemma LosesOn(bm: Block, C: Cert, bm1: Block, D: Cert, bm2: Block, E: Cert, L: set<nat>, M: set<nat>)
    requires Loses(bm, C, bm1, D, L) && Loses(bm1, D, bm2, E, M)
    ensures Loses(bm, C, bm2, E, L + M) && L !! M
  {
    hide Slack;
    forall b: nat
      ensures !(b in L && b in M)
    {
      assert Slack(bm1, D, b) <==> Slack(bm, C, b) || b in L;
    }
  }

  lemma LosesNothing(bm: Block, C: Cert)
    ensures Loses(bm, C, bm, C, {})
  {}

  lemma ExactKept(s: Fs, C: Cert, e: Fs, D: Cert, L: set<nat>)
    requires Exact(s, C) && Inv(e, D) && Loses(s.bitmap, C, e.bitmap, D, L) && (L == {} ==> Clean(e))
    ensures Exact(e, D) <==> L == {}
  {
    InvMarks(s, C);
    InvMarks(e, D);
    hide Inv, Bit;
    if L == {} {
      forall b: nat
        ensures Bit(e.bitmap, b) <==> b in D || b == 0 || b == 1
      {
        assert Slack(e.bitmap, D, b) <==> Slack(s.bitmap, C, b);
      }
    } else {
      var b :| b in L;
      assert Slack(e.bitmap, D, b) && !Slack(s.bitmap, C, b);
    }
  }

  /** Marked, free and used-up blocks are all there are: what the tree gains or the call loses, the free blocks
      lose. */
  lemma FreeChange(s: Fs, C: Cert, e: Fs, D: Cert, L: set<nat>)
    requires Inv(s, C) && Inv(e, D) && |e.disk| == |s.disk| && Loses(s.bitmap, C, e.bitmap, D, L)
    requires forall b :: b in L ==> b < |s.disk|
    ensures |FreeBlocks(e)| + |D.Keys| + |L| == |FreeBlocks(s)| + |C.Keys|
  {
    FreeParts(s, C);
    FreeParts(e, D);
    IdleGrows(s, C, e, D, L);
  }

  /** When the tree stays, just the blocks lost are no longer free. */
  lemma FreeAfter(s: Fs, C: Cert, e: Fs, L: set<nat>)
    requires Inv(s, C) && Inv(e, C) && |e.disk| == |s.disk| && Loses(s.bitmap, C, e.bitmap, C, L)
    ensures FreeBlocks(e) == FreeBlocks(s) - L
  {
    InvMarks(s, C);
    InvMarks(e, C);
    hide Inv, Bit;
    forall b: nat
      ensures b in FreeBlocks(e) <==> b in FreeBlocks(s) && b !in L
    {
      assert Slack(e.bitmap, C, b) <==> Slack(s.bitmap, C, b) || b in L;
    }
  }

  lemma IdleGrows(s: Fs, C: Cert, e: Fs, D: Cert, L: set<nat>)
    requires |e.disk| == |s.disk| && Loses(s.bitmap, C, e.bitmap, D, L) && forall b :: b in L ==> b < |s.disk|
    ensures |Idle(e, D)| == |Idle(s, C)| + |L|
  {
    hide Slack;
    assert Idle(e, D) == Idle(s, C) + L by {
      forall b: nat ensures Slack(e.bitmap, D, b) <==> Slack(s.bitmap, C, b) || b in L { }
    }
    assert Idle(s, C) !! L;
  }

  /** Blocks of the disk that are marked but not in use. */
  ghost function Idle(s: Fs, C: Cert): set<nat> { set b: nat | b < |s.disk| && Slack(s.bitmap, C, b) }

  lemma FreeParts(s: Fs, C: Cert)
    requires Inv(s, C)
    ensures |FreeBlocks(s)| + |C.Keys| + |Idle(s, C)| == |s.disk|
  {
    InvMarks(s, C);
    InvParts(s, C);
    InBounds(s, C);
    hide Inv, Bit;
    var f, i := FreeBlocks(s), Idle(s, C);
    assert f !! C.Keys;
    assert (f + C.Keys) !! i;
    assert f + C.Keys + i == Below(|s.disk|);
  }

  lemma InBounds(s: Fs, C: Cert)
    requires Inv(s, C)
    ensures forall b :: b in C ==> 2 <= b < |s.disk|
  {
    assert Tree(s.disk, C);
  }

  /** What a call loses are blocks of the disk. */
  lemma LostInside(s: Fs, a: Call)
    requires |s.disk| <= 32768
    ensures forall b :: b in Lost(s, a) ==> b < |s.disk|
  {
    hide *;
    CountsAre(s, a);
    match a
    case CreateCall(p, _, _) => CreateLosesInside(s, Resolve(p));
    case MkdirCall(p, _, _) => MkdirLosesInside(s, Resolve(p));
    case RmdirCall(p) => RmdirLosesInside(s.disk, p);
    case WriteCall(_, _, _, _) => FreeInside(s);
    case _ =>
  }

  lemma CreateLosesInside(s: Fs, r: Path)
    ensures forall b :: b in CreateLoses(s, r) ==> b < |s.disk|
  {
    hide CanMake, Roomy, Bit;
  }

  lemma MkdirLosesInside(s: Fs, r: Path)
    requires |s.disk| <= 32768
    ensures forall b :: b in MkdirLoses(s, r) ==> b < |s.disk|
  {
    hide CanMake, Roomy, Bit, Take;
    TakeFacts(s.bitmap, |s.disk|, 2);
  }

  lemma RmdirLosesInside(d: Disk, comps: seq<Str>)
    ensures forall b :: b in RmdirLoses(d, comps) ==> b < |d|
  {
    hide RmdirGoes, LiesBeneath, RmdirBlocks, Translate, Resolve;
  }

  lemma FreeInside(s: Fs)
    ensures forall b :: b in FreeBlocks(s) ==> b < |s.disk|
  {
    hide Bit;
  }

  /** The account of any run: the blocks used up beyond those at the start are exactly those the calls lose, no block is
      lost twice, and the free count changes by exactly what the calls took, freed and lost. */
  lemma {:induction false} RunAccounts(s: Fs, C: Cert, run: seq<Call>) returns (D: Cert)
    requires Inv(s, C) && Admits(s, run)
    ensures var e, L := Play(s, run), LostIn(s, run);
      && Inv(e, D) && |e.disk| == |s.disk| && Loses(s.bitmap, C, e.bitmap, D, L) && |L| == Losses(s, run)
      && |FreeBlocks(e)| == |FreeBlocks(s)| - Growth(s, run) - Losses(s, run)
      && (Clean(s) && L == {} ==> Clean(e))
    decreases |run|
  {
    hide Inv, Asks, Do, After, Takes, Frees, Lost, FreeBlocks, Loses, Clean;
    D := C;
    if run == [] {
      LosesNothing(s.bitmap, C);
    } else {
      var a := run[0];
      IsCallable(s, a);
      var o := Do(s, a);
      var e, t, E;
      e := After(s, o);
      InvParts(s, C);
      D, t := CallKeeps(s, C, a);
      AccountParts(s, C, a, o, D);
      LostInside(s, a);
      FreeChange(s, C, e, D, Lost(s, a));
      E := RunAccounts(e, D, run[1..]);
      var L, M := Lost(s, a), LostIn(e, run[1..]);
      LosesOn(s.bitmap, C, e.bitmap, D, Play(e, run[1..]).bitmap, E, L, M);
      assert |L + M| == |L| + |M|;
      D := E;
    }
  }

  /** From an exact account, a run leads to an exact account if and only if it loses nothing. */
  lemma ExactRun(s: Fs, C: Cert, run: seq<Call>) returns (D: Cert)
    requires Exact(s, C) && Admits(s, run)
    ensures var e := Play(s, run);
      Inv(e, D) && (Exact(e, D) <==> LostIn(s, run) == {}) &&
      |FreeBlocks(e)| == |FreeBlocks(s)| - Growth(s, run) - Losses(s, run)
  {
    hide *;
    ExactParts(s, C);
    D := RunAccounts(s, C, run);
    ExactKept(s, C, Play(s, run), D, LostIn(s, run));
  }

  lemma ExactParts(s: Fs, C: Cert)
    requires Exact(s, C)
    ensures Inv(s, C) && Clean(s)
  {}

  // ---- statfs ----

  /** The loop of fs_statfs over the in-memory bitmap. */
  function Marked(bm: Block, n: nat): nat { if n == 0 then 0 else Marked(bm, n - 1) + if Bit(bm, n - 1) then 1 else 0 }

  datatype Usage = Usage(bsize: nat, blocks: int, bfree: int, bavail: int, namemax: nat)

  /** f_bfree is unsigned and 64 bits wide; the used blocks include blocks 0 and 1, which f_blocks already leaves
      out. */
  function Statfs(s: Fs): Usage {
    var free := (|s.disk| - 2 - Marked(s.bitmap, |s.disk|)) % 0x1_0000_0000_0000_0000;
    Usage(4096, (|s.disk| - 2) % 0x1_0000_0000_0000_0000, free, free, 27)
  }

  lemma {:induction false} MarkedIs(bm: Block, n: nat)
    requires n >= 2 && Bit(bm, 0) && Bit(bm, 1)
    ensures Marked(bm, n) + |set b: nat | 2 <= b < n && !Bit(bm, b)| == n
  {
    hide Bit;
    var f := set b: nat | 2 <= b < n && !Bit(bm, b);
    if n == 2 {
      assert Marked(bm, 1) == 1 && f == {};
    } else {
      MarkedIs(bm, n - 1);
      var g := set b: nat | 2 <= b < n - 1 && !Bit(bm, b);
      assert f == if Bit(bm, n - 1) then g else g + {n - 1};
    }
  }

  lemma Wraps(n: nat, used: nat, f: nat)
    requires 2 < n <= 32768 && used + f == n
    ensures (n - 2 - used) % 0x1_0000_0000_0000_0000 == if f >= 2 then f - 2 else f - 2 + 0x1_0000_0000_0000_0000
    ensures (n - 2) % 0x1_0000_0000_0000_0000 == n - 2
  {
    assert n - 2 - used == f - 2;
  }

  /** statfs reports two free blocks fewer than there are, and wraps around exactly when fewer than two are free. */
  lemma StatfsReports(s: Fs, C: Cert)
    requires Inv(s, C)
    ensures var f := |FreeBlocks(s)|; Statfs(s).bfree == if f >= 2 then f - 2 else f - 2 + 0x1_0000_0000_0000_0000
    ensures Statfs(s).blocks == |s.disk| - 2 && Statfs(s).bavail == Statfs(s).bfree && Statfs(s).bsize == 4096
    ensures Statfs(s).namemax == 27
  {
    hide *;
    InvMarks(s, C);
    InvParts(s, C);
    OneOutside(s.disk, C);
    MarkedIs(s.bitmap, |s.disk|);
    FreeIs(s);
    Wraps(|s.disk|, Marked(s.bitmap, |s.disk|), |FreeBlocks(s)|);
    StatfsIs(s);
  }

  lemma FreeIs(s: Fs)
    ensures FreeBlocks(s) == set b: nat | 2 <= b < |s.disk| && !Bit(s.bitmap, b)
  {
    hide Bit;
  }

  lemma StatfsIs(s: Fs)
    ensures Statfs(s).bfree == (|s.disk| - 2 - Marked(s.bitmap, |s.disk|)) % 0x1_0000_0000_0000_0000
    ensures Statfs(s).blocks == (|s.disk| - 2) % 0x1_0000_0000_0000_0000
    ensures Statfs(s).bavail == Statfs(s).bfree && Statfs(s).bsize == 4096 && Statfs(s).namemax == 27
  {
    hide Marked;
  }
}
