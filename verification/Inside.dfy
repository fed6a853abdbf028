/** No operation leaves the disk: every block write goes to a block of the image, and none to the superblock. Nothing of
    the names or paths that a call should heed matters here. */
module Inside {
  import opened Format
  import opened Bits
  import opened Image
  import opened Change
  import opened Paths
  import opened Ops
  import opened Keep
  import opened Making
  import opened Removing
  import opened Editing
  import opened Renaming
  import opened Bytes
  import opened Writing
  import opened Runs
  import opened Limits
  import opened Crashes
  import opened Loops

  /** What block_write asks for: no write to block 0, and none past the end. */
  predicate Within(d: Disk, ws: seq<Write>) { forall k :: 0 <= k < |ws| ==> 1 <= ws[k].lba < |d| }

  lemma WithinNone(d: Disk)
    ensures Within(d, [])
  {}

  lemma WithinOn(d: Disk, ws: seq<Write>, w: Write)
    requires Within(d, ws) && 1 <= w.lba < |d|
    ensures Within(d, ws + [w])
  {}

  /** Writes outside the tree leave it as it is. */
  lemma {:induction false} AgreeOutside(d: Disk, ws: seq<Write>, C: Cert)
    requires forall k :: 0 <= k < |ws| ==> ws[k].lba !in C
    ensures Agree(d, Apply(d, ws), C)
  {
    if ws != [] {
      AgreeOutside(d, Front(ws), C);
      assert Last(ws).lba !in C;
    }
  }

  lemma SlotInside(s: Fs, C: Cert, ws: seq<Write>, p: nat, k: nat, x: Dirent)
    requires Inv(s, C) && Agree(s.disk, Apply(s.disk, ws), C) && Ino(C, p) && DirAt(s.disk, p)
    requires var d := Apply(s.disk, ws); k < Slots(d, p)
    ensures var w := SlotWrite(Apply(s.disk, ws), p, k, x); 1 <= w.lba < |s.disk|
  {
    var d := Apply(s.disk, ws);
    assert |d| == |s.disk|;
    hide *;
    InvParts(s, C);
    AgreeTree(s.disk, d, C);
    DirSame(s.disk, d, C, p);
    SlotIsData(d, C, p, k);
    SlotWriteLba(d, p, k, x);
    TreeBelow(d, C);
  }

  lemma TreeBelow(d: Disk, C: Cert)
    requires Tree(d, C)
    ensures 2 < |d| && forall b :: b in C ==> 2 <= b < |d|
  {
    assert ROOT in C;
  }

  // ---- create and mkdir ----

  lemma LinkInside(s: Fs, C: Cert, r: Path, c: nat, bm: Block, ws: seq<Write>, full: int)
    requires Inv(s, C) && CanMake(s, r) && Agree(s.disk, Apply(s.disk, ws), C) && Within(s.disk, ws)
    ensures Within(s.disk, Link(s, ParentOf(s.disk, r), NameIn(r), c, bm, ws, full).writes)
  {
    hide *;
    var p, d := ParentOf(s.disk, r), Apply(s.disk, ws);
    InvParts(s, C);
    CanMakeParts(s, r);
    WalkIsPath(s.disk, C, Front(r));
    LinkCases(s, p, NameIn(r), c, bm, ws, full);
    SlotFree(d, p);
    match FreeSlot(d, p, 0)
    case Miss =>
    case Hit(k) =>
      LinkAtIs(d, p, k, NameIn(r), c, bm, ws);
      SlotInside(s, C, ws, p, k, NewEntry(Ent(d, p, k), c, NameIn(r)));
      WithinOn(s.disk, ws, SlotWrite(d, p, k, NewEntry(Ent(d, p, k), c, NameIn(r))));
  }

  lemma SlotFree(d: Disk, p: nat)
    ensures FreeSlot(d, p, 0).Hit? ==> FreeSlot(d, p, 0).slot < Slots(d, p)
  {
    hide Slots, Ent;
  }

  lemma FileWritesInside(d: Disk, C: Cert, bm: Block, c: nat, mode: nat, w: Caller)
    requires 2 <= c < |d| && c !in C && 1 !in C
    ensures var ws := CreateWrites(bm, c, mode, w); Within(d, ws) && forall k :: 0 <= k < |ws| ==> ws[k].lba !in C
  {
    hide Read, InodeSector, NewFile;
  }

  lemma DirWritesInside(d: Disk, C: Cert, bm: Block, c: nat, b: nat, mode: nat, w: Caller)
    requires 2 <= c < |d| && c !in C && 2 <= b < |d| && b !in C && 1 !in C && mode < 0x1000
    ensures var ws := MkdirWrites(bm, c, b, mode, w); Within(d, ws) && forall k :: 0 <= k < |ws| ==> ws[k].lba !in C
  {
    hide Read, InodeSector, NewDir;
  }

  lemma CreateInside(s: Fs, C: Cert, comps: seq<Str>, mode: nat, w: Caller)
    requires Inv(s, C) && Resolve(comps) != []
    ensures Within(s.disk, Create(s, comps, mode, w).writes)
  {
    hide *;
    var r, c := Resolve(comps), FirstFree(s.bitmap, |s.disk|, 2);
    var bm := SetBit(s.bitmap, c);
    InvParts(s, C);
    CreateShape(s, comps, mode, w);
    ErrsAre(s);
    WithinNone(s.disk);
    if CanMake(s, r) && c != 0 {
      FreeRange(s, c);
      FreeIsOutside(s, C, c);
      OneOutside(s.disk, C);
      FileWritesInside(s.disk, C, bm, c, mode, w);
      AgreeOutside(s.disk, CreateWrites(bm, c, mode, w), C);
      LinkInside(s, C, r, c, bm, CreateWrites(bm, c, mode, w), ENOSPC);
    }
  }

  lemma MkdirInside(s: Fs, C: Cert, comps: seq<Str>, mode: nat, w: Caller)
    requires Inv(s, C) && Resolve(comps) != [] && mode < 0x1000
    ensures Within(s.disk, Mkdir(s, comps, mode, w).writes)
  {
    hide *;
    var r, t := Resolve(comps), Take(s.bitmap, |s.disk|, 2);
    InvParts(s, C);
    MkdirShape(s, comps, mode, w);
    ErrsAre(s);
    WithinNone(s.disk);
    if CanMake(s, r) && |t.blocks| >= 2 {
      var c, b := t.blocks[0], t.blocks[1];
      TakesTwo(s);
      TwoParts(s, c, b, t.map8);
      FreeIsOutside(s, C, c);
      FreeIsOutside(s, C, b);
      OneOutside(s.disk, C);
      DirWritesInside(s.disk, C, t.map8, c, b, mode, w);
      AgreeOutside(s.disk, MkdirWrites(t.map8, c, b, mode, w), C);
      LinkInside(s, C, r, c, t.map8, MkdirWrites(t.map8, c, b, mode, w), EOPNOTSUPP);
    }
  }

  // ---- unlink, rmdir and rename ----

  lemma DetachInside(s: Fs, C: Cert, r: Path, bm: Block)
    requires Inv(s, C) && r != [] && Walk(s.disk, Front(r)).Ok? && DirAt(s.disk, Walk(s.disk, Front(r)).inum)
    ensures Within(s.disk, Detach(s, Walk(s.disk, Front(r)).inum, Last(r), bm).writes)
  {
    hide *;
    var d, p, n := s.disk, Walk(s.disk, Front(r)).inum, Last(r);
    InvParts(s, C);
    TreeBelow(d, C);
    WalkIsPath(d, C, Front(r));
    DetachCases(s, p, n, bm);
    FlushIsWrite(bm);
    TwoInside(d, if Find(d, p, n, 0).Hit? then [FirstWrite(s, C, p, Find(d, p, n, 0).slot)] else [], Flush(bm));
  }

  /** The write that clears slot k of directory p. */
  ghost function FirstWrite(s: Fs, C: Cert, p: nat, k: nat): (w: Write)
    requires Inv(s, C) && Ino(C, p) && DirAt(s.disk, p) && k < Slots(s.disk, p)
    ensures w == SlotWrite(s.disk, p, k, Cleared(Ent(s.disk, p, k))) && 1 <= w.lba < |s.disk|
  {
    hide *;
    ApplyNone(s.disk);
    AgreeItself(s.disk, C);
    SlotInside(s, C, [], p, k, Cleared(Ent(s.disk, p, k)));
    SlotWrite(s.disk, p, k, Cleared(Ent(s.disk, p, k)))
  }

  lemma TwoInside(d: Disk, ws: seq<Write>, v: Write)
    requires |ws| <= 1 && (ws != [] ==> 1 <= ws[0].lba < |d|) && 1 <= v.lba < |d|
    ensures Within(d, ws + [v]) && (ws != [] ==> ws + [v] == [ws[0], v]) && (ws == [] ==> ws + [v] == [v])
  {}

  lemma UnlinkInside(s: Fs, C: Cert, comps: seq<Str>)
    requires Inv(s, C) && UnlinkDefined(s.disk, comps)
    ensures Within(s.disk, Unlink(s, comps).writes)
  {
    hide *;
    var t, r := Translate(s.disk, comps), Resolve(comps);
    ErrsAre(s);
    WithinNone(s.disk);
    UnlinkFails(s, comps);
    if Unlink(s, comps).code == 0 {
      UnlinkShape(s, comps);
      RemoveSigns();
      TraceFailsNegative(s.disk, comps);
      WalkFailsNegative(s.disk, Front(r));
      DetachInside(s, C, r, ClearBit(ClearAll(s.bitmap, Table(s.disk, t.inum)), t.inum));
    }
  }

  lemma RmdirInside(s: Fs, C: Cert, comps: seq<Str>)
    requires Inv(s, C) && RmdirDefined(s.disk, comps)
    ensures Within(s.disk, Rmdir(s, comps).writes)
  {
    hide *;
    var t, r := Translate(s.disk, comps), Resolve(comps);
    ErrsAre(s);
    WithinNone(s.disk);
    RmdirFails(s, comps);
    if Rmdir(s, comps).code == 0 {
      RmdirShape(s, comps);
      RmdirGoesIs(s.disk, comps);
      DetachInside(s, C, r, ClearBit(ClearBit(s.bitmap, Ptr(s.disk, t.inum, 0)), t.inum));
    }
  }

  lemma RenameInside(s: Fs, C: Cert, src: seq<Str>, dst: seq<Str>)
    requires Inv(s, C) && RenameDefined(s.disk, src, dst)
    ensures Within(s.disk, Rename(s, src, dst).writes)
  {
    hide *;
    ErrsAre(s);
    WithinNone(s.disk);
    RenameFails(s, src, dst);
    if Rename(s, src, dst).code == 0 {
      InvParts(s, C);
      var k := RenamedSlot(s, C, src, dst);
      var rs, rd := Resolve(src), Resolve(dst);
      var p := ParentOf(s.disk, rs);
      WalkIsPath(s.disk, C, Front(rs));
      ApplyNone(s.disk);
      AgreeItself(s.disk, C);
      SlotInside(s, C, [], p, k, Renamed(Ent(s.disk, p, k), NameIn(rd)));
      WithinOn(s.disk, [], SlotWrite(s.disk, p, k, Renamed(Ent(s.disk, p, k), NameIn(rd))));
      AloneIs(SlotWrite(s.disk, p, k, Renamed(Ent(s.disk, p, k), NameIn(rd))));
    }
  }

  lemma AloneIs(w: Write)
    ensures [] + [w] == [w]
  {}

  // ---- truncate, chmod and utime ----

  lemma TargetInside(d: Disk, C: Cert, comps: seq<Str>)
    requires Tree(d, C) && Translate(d, comps).Ok?
    ensures 1 <= Translate(d, comps).inum < |d|
  {
    hide *;
    TargetWalks(d, C, comps);
    TreeBelow(d, C);
    InoIn(C, Translate(d, comps).inum);
  }

  lemma InoIn(C: Cert, i: nat)
    requires Ino(C, i)
    ensures i in C
  {}

  lemma TruncateInside(s: Fs, C: Cert, comps: seq<Str>, len: int, now: nat)
    requires Inv(s, C)
    ensures Within(s.disk, Truncate(s, comps, len, now).writes)
  {
    hide *;
    InvParts(s, C);
    TreeBelow(s.disk, C);
    ErrsAre(s);
    WithinNone(s.disk);
    TruncateShape(s, comps, len, now);
    TargetIs(s.disk, comps);
    var i := TargetOf(s.disk, comps);
    var bm := ClearAll(s.bitmap, Table(s.disk, i));
    if len == 0 && Translate(s.disk, comps).Ok? && !DirAt(s.disk, i) {
      TargetInside(s.disk, C, comps);
      FlushIsWrite(bm);
      TwoInside(s.disk, [Write(i, InodeSector(Emptied(Node(s.disk, i), now)))], Flush(bm));
    }
  }

  lemma TouchInside(s: Fs, C: Cert, comps: seq<Str>, y: Inode)
    requires Inv(s, C)
    ensures Within(s.disk, Touched(s, comps, y).writes)
  {
    hide *;
    InvParts(s, C);
    ErrsAre(s);
    WithinNone(s.disk);
    TouchedIs(s, comps, y);
    if Translate(s.disk, comps).Ok? {
      var w := Write(Translate(s.disk, comps).inum, InodeSector(y));
      TargetInside(s.disk, C, comps);
      WithinOn(s.disk, [], w);
      AloneIs(w);
    }
  }

  // ---- write ----

  lemma DataInside(d: Disk, ptrs: Ptrs, off: nat, data: Str)
    requires off + |data| <= 1019 * 4096 && PagesIn(ptrs, off, |data|, |d|)
    ensures Within(d, DataWrites(d, ptrs, off, data))
  {
    hide DataWrites, Touches;
    forall j | 0 <= j < |DataWrites(d, ptrs, off, data)|
      ensures 1 <= DataWrites(d, ptrs, off, data)[j].lba < |d|
    {
      DataTargets(d, ptrs, off, data, j);
    }
  }

  lemma WriteInside(s: Fs, C: Cert, comps: seq<Str>, data: Str, off: nat, now: nat)
    requires Inv(s, C) && Bounded(s, comps, off, |data|)
    ensures Within(s.disk, WriteFile(s, comps, data, off, now).writes)
  {
    hide *;
    var i := TargetOf(s.disk, comps);
    InvParts(s, C);
    TreeBelow(s.disk, C);
    ErrsAre(s);
    WithinNone(s.disk);
    WriteFileShape(s, comps, data, off, now);
    AllocatesIs(s, comps, off);
    TargetIs(s.disk, comps);
    if Allocates(s, comps, off) {
      BoundedIs(s, comps, off, |data|);
      TargetWalks(s.disk, C, comps);
      TargetInside(s.disk, C, comps);
      WriteAtShape(s, C, i, data, off, now);
      if CanWrite(s, i, off, |data|) { ListInside(s, C, i, data, off, now); }
    } else if Translate(s.disk, comps).Ok? && !DirAt(s.disk, i) {
      WriteBeyond(s, i, data, off, now);
    }
  }

  lemma ListInside(s: Fs, C: Cert, i: nat, data: Str, off: nat, now: nat)
    requires Inv(s, C) && Ino(C, i) && !DirAt(s.disk, i) && off + |data| <= 0xFFF_FFFF_F000
    requires CanWrite(s, i, off, |data|) && Room(s, i, off, |data|)
    ensures Within(s.disk, WriteList(s, i, data, off, now))
  {
    hide *;
    var t := NewBlocks(s, i, off, |data|);
    var x := Written(Node(s.disk, i), t.blocks, off + |data|, now);
    var dw, v := DataWrites(s.disk, x.ptrs, off, data), Write(i, InodeSector(x));
    InvParts(s, C);
    TreeBelow(s.disk, C);
    InoIn(C, i);
    WritePages(s, C, i, off, |data|, now);
    WriteIsPlan(s, C, i, off, |data|);
    PlanEnd(s, C, i, t.blocks, off, |data|);
    DataInside(s.disk, x.ptrs, off, data);
    WithinOn(s.disk, dw, v);
    FlushIsWrite(t.map8);
    WithinOn(s.disk, dw + [v], Flush(t.map8));
    WriteListIs(s, i, data, off, now);
  }

  // ---- every operation ----

  /** Every write of every operation that the code can make goes to a block of the disk and not to the superblock,
      whatever the call returns and whether or not it breaks the tree. */
  lemma CallInside(s: Fs, C: Cert, a: Call)
    requires Inv(s, C) && Callable(s, a) && InTable(s, a)
    ensures Within(s.disk, Do(s, a).writes)
  {
    hide *;
    DoIs(s, a);
    CallableIs(s, a);
    InTableIs(s, a);
    match a
    case CreateCall(p, mode, who) => CreateInside(s, C, p, mode, who);
    case MkdirCall(p, mode, who) => MkdirInside(s, C, p, mode, who);
    case UnlinkCall(p) => UnlinkInside(s, C, p);
    case RmdirCall(p) => RmdirInside(s, C, p);
    case RenameCall(p, q) => RenameInside(s, C, p, q);
    case TruncateCall(p, len, now) => TruncateInside(s, C, p, len, now);
    case WriteCall(p, data, off, now) => WriteInside(s, C, p, data, off, now);
    case ChmodCall(p, mode) =>
      ChmodIs(s, p, mode);
      TouchInside(s, C, p, ChmodInode(Node(s.disk, TargetOf(s.disk, p)), mode));
    case UtimeCall(p, t) =>
      UtimeIs(s, p, t);
      TouchInside(s, C, p, Node(s.disk, TargetOf(s.disk, p)).(mtime := t % 0x1_0000_0000));
  }

  lemma InTableIs(s: Fs, a: Call)
    requires InTable(s, a)
    ensures a.WriteCall? ==> Bounded(s, a.comps, a.off, |a.data|)
  {
    hide Bounded;
  }

  /** So the superblock is the same after each of them, cut wherever it may be. */
  lemma HeadSurvives(s: Fs, C: Cert, a: Call, k: nat)
    requires Inv(s, C) && Callable(s, a) && InTable(s, a) && k <= |Do(s, a).writes|
    ensures var e := Apply(s.disk, Do(s, a).writes[..k]);
      |e| == |s.disk| && At(e, 0) == At(s.disk, 0) && Headed(e)
  {
    hide *;
    CallInside(s, C, a);
    HeadIs(s, C);
    PrefixHead(s.disk, Do(s, a).writes, k);
  }

  lemma HeadIs(s: Fs, C: Cert)
    requires Inv(s, C)
    ensures Headed(s.disk)
  {}

  lemma PrefixHead(d: Disk, ws: seq<Write>, k: nat)
    requires Within(d, ws) && Headed(d) && k <= |ws|
    ensures var e := Apply(d, ws[..k]); |e| == |d| && At(e, 0) == At(d, 0) && Headed(e)
  {
    ApplyElse(d, ws[..k], 0);
    hide Apply, Word;
  }

  /** It survives every run ... */
  lemma {:induction false} RunHead(s: Fs, C: Cert, run: seq<Call>)
    requires Inv(s, C) && Admits(s, run)
    ensures At(Play(s, run).disk, 0) == At(s.disk, 0)
    decreases |run|
  {
    hide Inv, Asks, Do, After, Callable, InTable;
    if run != [] {
      var a := run[0];
      AsksOf(s, a);
      AfterHead(s, C, a);
      var D, t := CallKeeps(s, C, a);
      AccountParts(s, C, a, Do(s, a), D);
      RunHead(After(s, Do(s, a)), D, run[1..]);
    }
  }

  lemma AsksOf(s: Fs, a: Call)
    requires Asks(s, a)
    ensures Callable(s, a) && InTable(s, a)
  {
    hide Callable, InTable, Do, Heeds;
  }

  lemma AfterHead(s: Fs, C: Cert, a: Call)
    requires Inv(s, C) && Callable(s, a) && InTable(s, a)
    ensures At(After(s, Do(s, a)).disk, 0) == At(s.disk, 0)
  {
    var ws := Do(s, a).writes;
    assert ws[..|ws|] == ws;
    hide *;
    HeadSurvives(s, C, a, |ws|);
    AfterIs(s, Do(s, a));
  }

  lemma EventHead(s: Fs, C: Cert, v: Event)
    requires Inv(s, C) && Happens(s, v) && Next(s, v).Some?
    ensures At(Next(s, v).value.disk, 0) == At(s.disk, 0)
  {
    hide *;
    HappensIs(s, v);
    AsksOf(s, v.call);
    match v
    case Whole(a) => AfterHead(s, C, a);
    case Cut(a, k) =>
      HeadSurvives(s, C, a, k);
      InitIs(Apply(s.disk, Do(s, a).writes[..k]));
  }

  lemma InitIs(d: Disk)
    ensures Init(d).Some? ==> Init(d).value.disk == d
  {
    hide Headed;
  }

  /** ... and every run with power cuts and mounts in between. */
  lemma {:induction false} StoryHead(s: Fs, C: Cert, vs: seq<Event>)
    requires Inv(s, C) && Story(s, vs)
    ensures Ends(s, vs).Some? && At(Ends(s, vs).value.disk, 0) == At(s.disk, 0)
    decreases |vs|
  {
    hide Inv, Happens, Next;
    if vs != [] {
      var D := EventKeeps(s, C, vs[0]);
      EventHead(s, C, vs[0]);
      StoryHead(Next(s, vs[0]).value, D, vs[1..]);
    }
  }
}
