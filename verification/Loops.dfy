/** What the loops of homework.c compute, turn by turn, in terms of the functions that say what the operations do. */
module Loops {
  import opened Format
  import opened Bits
  import opened Image
  import opened Change
  import opened Paths
  import opened Ops
  import opened Keep
  import opened Making
  import opened Removing
  import opened Editing
  import opened Renaming
  import opened Bytes
  import opened Writing
  import opened Viewing
  import opened Runs
  import opened Limits
  import opened Crashes
  import opened Device

  // ---- scanning directories ----

  lemma SlotIs(d: Disk, i: nat, j: nat, k: nat)
    requires k < 128
    ensures Ent(d, i, 128 * j + k) == At(d, Ptr(d, i, j)).dirents[k]
    ensures SlotBlock(d, i, 128 * j + k) == Ptr(d, i, j)
    ensures forall e :: SlotData(d, i, 128 * j + k, e) == PatchDirent(At(d, Ptr(d, i, j)), k, e)
  {
    assert (128 * j + k) / 128 == j && (128 * j + k) % 128 == k;
  }

  /** Entry k of the block that holds slots 128 * j and on. */
  lemma EntOf(d: Disk, p: nat, n: Inode, j: nat, k: nat, block: Block)
    requires k < 128 && j < 1019 && n == Node(d, p) && Read(block) == At(d, n.ptrs[j])
    ensures Ent(d, p, 128 * j + k) == DecodeDirent(block, k)
    ensures NameAt(d, p, 128 * j + k) == CStr(DecodeDirent(block, k).name)
  {
    SlotIs(d, p, j, k);
    hide DecodeDirent, DecodeInode, CStr, Slots;
  }

  lemma FindNext(d: Disk, i: nat, name: Str, k: nat)
    ensures k >= Slots(d, i) ==> Find(d, i, name, k) == Miss
    ensures k < Slots(d, i) ==>
      Find(d, i, name, k) == if Ent(d, i, k).valid && NameAt(d, i, k) == name then Hit(k) else Find(d, i, name, k + 1)
  {
    hide Slots, Ent, CStr;
  }

  lemma FreeNext(d: Disk, i: nat, k: nat)
    ensures k >= Slots(d, i) ==> FreeSlot(d, i, k) == Miss
    ensures k < Slots(d, i) ==> FreeSlot(d, i, k) == if !Ent(d, i, k).valid then Hit(k) else FreeSlot(d, i, k + 1)
  {
    hide Slots, Ent;
  }

  lemma SlotsIs(d: Disk, i: nat, size: int)
    requires Node(d, i).size == size
    ensures Slots(d, i) == if size <= 0 then 0 else 128 * (size / 4096)
  {}

  lemma SlotWriteIs(d: Disk, p: nat, n: Inode, j: nat, k: nat, block: Block, e: Dirent)
    requires k < 128 && j < 1019 && n == Node(d, p) && Read(block) == At(d, n.ptrs[j])
    ensures SlotWrite(d, p, 128 * j + k, e) == Write(n.ptrs[j], Read(PutDirent(block, k, e)))
  {
    SlotIs(d, p, j, k);
    PatchIsPut(block, k, e);
    hide PutDirent, PatchDirent, Read, At;
  }

  lemma FirstEmptyIs(d: Disk, i: nat, block: Block)
    requires Read(block) == At(d, Ptr(d, i, 0))
    ensures FirstBlockEmpty(d, i) <==> forall r :: 0 <= r < 128 ==> !DecodeDirent(block, r).valid
  {
    hide DecodeInode, DecodeDirent;
    assert At(d, Ptr(d, i, 0)).dirents == DecodeDirents(block);
    assert forall r: nat :: r < 128 ==> DecodeDirents(block)[r] == DecodeDirent(block, r);
  }

  lemma ListingNext(d: Disk, i: nat, k: nat)
    ensures k >= Slots(d, i) ==> Listing(d, i, k) == []
    ensures k < Slots(d, i) ==>
      Listing(d, i, k) ==
        (if Ent(d, i, k).valid then [Listed(NameAt(d, i, k), StatOf(Node(d, Ent(d, i, k).inode)))] else []) +
            Listing(d, i, k + 1)
  {
    hide Slots, Ent, NameAt, StatOf, Node;
  }

  // ---- what a method may rely on ----

  lemma LiveSize(d: Disk, C: Cert, q: Path)
    requires Tree(d, C) && Walk(d, q).Ok?
    ensures Ino(C, Walk(d, q).inum) && 0 <= Node(d, Walk(d, q).inum).size <= 1019 * 4096
  {
    WalkIsPath(d, C, q);
    assert NodeOk(d, Walk(d, q).inum);
  }

  lemma DirAtIs(d: Disk, i: nat)
    ensures DirAt(d, i) <==> IsDir(Node(d, i).mode)
  {}

  lemma SmallIno(d: Disk, C: Cert, i: nat)
    requires Tree(d, C) && Ino(C, i) && |d| <= 32768
    ensures i < 32768 && 0 <= Node(d, i).size <= 1019 * 4096
  {
    assert i in C && NodeOk(d, i);
  }

  /** The pointers that the size of the inode n spans lead to blocks of a disk of m blocks, and not to the
      superblock. */
  predicate Leads(n: Inode, m: nat) { forall j :: 0 <= j < 1019 && 4096 * j < n.size ==> 0 < n.ptrs[j] < m }

  /** So do those of every live inode, and it lies on the disk itself. */
  lemma LiveLeads(d: Disk, C: Cert, i: nat)
    requires Tree(d, C) && Ino(C, i)
    ensures 0 < i < |d| && Leads(Node(d, i), |d|)
  {
    assert i in C && 2 <= i < |d|;
    hide Nodes, Owned, Links, Linked, Names, Node;
    forall j | 0 <= j < 1019 && 4096 * j < Node(d, i).size
      ensures 0 < Node(d, i).ptrs[j] < |d|
    {
      assert j < Span(d, i) && Ptr(d, i, j) in C;
    }
  }

  lemma LeadsTo(n: Inode, m: nat, j: nat)
    requires Leads(n, m) && j < 1019 && 4096 * j < n.size
    ensures 0 < n.ptrs[j] < m
  {}

  /** What an entry in use names lies on the disk. */
  lemma EntryInside(d: Disk, C: Cert, i: nat, k: nat)
    requires Tree(d, C) && Ino(C, i) && DirAt(d, i) && k < Slots(d, i) && Ent(d, i, k).valid
    ensures Ent(d, i, k).inode < |d|
  {
    assert Live(d, C, i, k);
  }

  lemma FirstBlock(d: Disk, C: Cert, i: nat)
    requires Tree(d, C) && Ino(C, i) && DirAt(d, i) && |d| <= 32768
    ensures Node(d, i).ptrs[0] == Ptr(d, i, 0) < 32768 && i < 32768 && Node(d, i).size >= 4096
  {
    assert NodeOk(d, i) && 0 < Span(d, i);
    assert Ptr(d, i, 0) in C && i in C;
  }

  /** The table of an inode, as the loops of unlink and truncate see it. */
  lemma TableIs(d: Disk, C: Cert, i: nat)
    requires Tree(d, C) && Ino(C, i) && |d| <= 32768
    ensures |Table(d, i)| == Blocks(Node(d, i).size) <= 1019
    ensures forall j :: 0 <= j < |Table(d, i)| ==> Table(d, i)[j] == Node(d, i).ptrs[j] && Table(d, i)[j] < 32768
  {
    assert NodeOk(d, i);
    hide Links, Linked, Names, Owned;
    assert forall j :: 0 <= j < Span(d, i) ==> Table(d, i)[j] == Ptr(d, i, j) && Ptr(d, i, j) in C;
  }

  lemma CodesNegative()
    ensures EISDIR < 0 && ENOTDIR < 0 && ENOTEMPTY < 0 && EINVAL < 0 && ENOENT < 0 && EEXIST < 0 && ENOSPC < 0
    ensures EOPNOTSUPP < 0
  {}

  lemma ErrIs(s: Fs, code: int)
    ensures After(s, Err(s, code)) == s && Err(s, code).code == code && Err(s, code).writes == []
  {}

  lemma OneWrite(s: Fs, w: Write, code: int)
    ensures var o := Outcome(code, [w], s.bitmap);
      After(s, o) == Fs(Put(s.disk, w.lba, w.data), s.bitmap) && o.writes == [w]
  {
    ApplyOne(s.disk, w);
    hide Put, Apply;
  }

  lemma TwoWrites(s: Fs, w: Write, v: Write, bm: Block, code: int)
    ensures var o := Outcome(code, [w, v], bm);
      After(s, o) == Fs(Put(Put(s.disk, w.lba, w.data), v.lba, v.data), bm) && o.writes == [w] + [v]
  {
    ApplyTwo(s.disk, w, v);
    hide Put, Apply;
  }

  lemma MayCall(s: Fs, a: Call)
    requires a.CreateCall? || a.MkdirCall? ==> Resolve(a.comps) != []
    requires a.MkdirCall? ==> a.mode < 0x1000
    requires a.UnlinkCall? ==> UnlinkDefined(s.disk, a.comps)
    requires a.RmdirCall? ==> RmdirDefined(s.disk, a.comps)
    requires a.RenameCall? ==> RenameDefined(s.disk, a.src, a.dst)
    ensures Callable(s, a)
  {
    hide Resolve, UnlinkDefined, RmdirDefined, RenameDefined;
  }

  lemma UnlinkReachesIs(d: Disk, comps: seq<Str>)
    ensures UnlinkReaches(d, comps) <==> Translate(d, comps).Ok? && !DirAt(d, Translate(d, comps).inum)
    ensures UnlinkDefined(d, comps) <==> (UnlinkReaches(d, comps) ==> Resolve(comps) != [])
  {
    hide Translate, DirAt, Resolve;
  }

  lemma RmdirReachesIs(d: Disk, comps: seq<Str>)
    ensures RmdirReaches(d, comps) <==>
      && Translate(d, comps).Ok? && DirAt(d, Translate(d, comps).inum)
      && FirstBlockEmpty(d, Translate(d, comps).inum)
    ensures RmdirDefined(d, comps) <==> (RmdirReaches(d, comps) ==> Resolve(comps) != [])
  {
    hide Translate, DirAt, Resolve, FirstBlockEmpty;
  }

  // ---- create and mkdir ----

  /** Where create and mkdir give up before they change anything. */
  lemma RefusalIs(s: Fs, r: Path)
    requires r != []
    ensures Walk(s.disk, Front(r)).Fail? ==> !CanMake(s, r) && Refusal(s, r) == Walk(s.disk, Front(r)).code
    ensures Walk(s.disk, Front(r)).Ok? && !DirAt(s.disk, ParentOf(s.disk, r)) ==>
        !CanMake(s, r) && Refusal(s, r) == ENOTDIR
    ensures Walk(s.disk, Front(r)).Ok? && DirAt(s.disk, ParentOf(s.disk, r)) ==>
      (CanMake(s, r) <==> Find(s.disk, ParentOf(s.disk, r), NameIn(r), 0).Miss?) &&
          (!CanMake(s, r) ==> Refusal(s, r) == EEXIST)
  {
    hide Walk, Find, DirAt;
  }

  /** The parent's inode is the same after the first writes of create. */
  lemma ParentKept(d: Disk, e: Disk, C: Cert, p: nat)
    requires Agree(d, e, C) && Ino(C, p)
    ensures Node(e, p) == Node(d, p)
  {}

  lemma CreateLeads(s: Fs, C: Cert, c: nat, mode: nat, w: Caller, p: nat)
    requires Inv(s, C) && mode < 0x1_0000_0000 && IsReg(mode) && c == FirstFree(s.bitmap, |s.disk|, 2) && c != 0
    requires Ino(C, p)
    ensures var bm := SetBit(s.bitmap, c); var v, x := Flush(bm), Write(c, InodeSector(NewFile(mode, w)));
      && c < 32768 && CreateWrites(bm, c, mode, w) == [v] + [x]
      && Apply(s.disk, CreateWrites(bm, c, mode, w)) == Put(Put(s.disk, 1, v.data), c, x.data)
      && Node(Put(Put(s.disk, 1, v.data), c, x.data), p) == Node(s.disk, p)
  {
    var bm := SetBit(s.bitmap, c);
    var v, x := Flush(bm), Write(c, InodeSector(NewFile(mode, w)));
    assert CreateWrites(bm, c, mode, w) == [v] + [x] && [v] + [x] == [v, x];
    assert v.lba == 1 && x.lba == c;
    hide *;
    InvSmall(s, C);
    FreeRange(s, c);
    ApplyTwo(s.disk, v, x);
    LaidAgrees(s, C, mode, w);
    ParentKept(s.disk, Apply(s.disk, CreateWrites(bm, c, mode, w)), C, p);
  }

  /** The last step of create and mkdir: the outcome by what the scan for a free slot finds. */
  lemma LinkIs(s: Fs, p: nat, name: Str, c: nat, bm: Block, ws: seq<Write>, full: int, h: Look)
    requires h == FreeSlot(Apply(s.disk, ws), p, 0)
    ensures var d := Apply(s.disk, ws); var o := Link(s, p, name, c, bm, ws, full);
      match h
      case Miss => o.code == full && o.writes == ws && After(s, o) == Fs(d, bm)
      case Hit(q) =>
        var w := SlotWrite(d, p, q, NewEntry(Ent(d, p, q), c, name));
        o.code == 0 && o.writes == ws + [w] && After(s, o) == Fs(Put(d, w.lba, w.data), bm)
  {
    var d, o := Apply(s.disk, ws), Link(s, p, name, c, bm, ws, full);
    LinkCases(s, p, name, c, bm, ws, full);
    if h.Hit? {
      LinkAtIs(d, p, h.slot, name, c, bm, ws);
      ApplyOn(s.disk, ws, SlotWrite(d, p, h.slot, NewEntry(Ent(d, p, h.slot), c, name)));
    }
    hide Apply, FreeSlot, SlotWrite, NewEntry, Ent, Link, LinkAt, Put;
  }

  lemma FreeFrom(m: Block, n: nat, j: nat)
    requires j >= 2
    ensures FirstFree(m, n, j) == if j >= n then 0 else if !Bit(m, j) then j else FirstFree(m, n, j + 1)
  {
    hide Bit;
  }

  lemma NextFree(m: Block, n: nat)
    requires n <= 32768 && FirstFree(m, n, 2) != 0
    ensures var c := FirstFree(m, n, 2); FirstFree(SetBit(m, c), n, 2) == FirstFree(m, n, c + 1)
  {
    var c := FirstFree(m, n, 2);
    hide Bit, SetBit;
    forall j: nat ensures Bit(SetBit(m, c), j) <==> j == c || Bit(m, j) { SetThenTest(m, c, j); }
  }

  /** Two rounds of first-fit, by what one pass over the bitmap finds. */
  lemma TakeTwoIs(m: Block, n: nat, c: nat, b: nat)
    requires n <= 32768 && c == FirstFree(m, n, 2) && (if c == 0 then b == 0 else b == FirstFree(m, n, c + 1))
    ensures b == 0 ==> |Take(m, n, 2).blocks| < 2
    ensures b != 0 ==> Take(m, n, 2) == Taken([c, b], SetBit(SetBit(m, c), b))
  {
    if c != 0 {
      NextFree(m, n);
      assert Take(SetBit(m, c), n, 1) == if b == 0 then Taken([], SetBit(m, c))
          else Taken([b], SetBit(SetBit(m, c), b));
    }
    hide Bit, SetBit;
  }

  lemma MkdirLeads(s: Fs, C: Cert, mode: nat, w: Caller, p: nat)
    requires Inv(s, C) && mode < 0x1000 && |Take(s.bitmap, |s.disk|, 2).blocks| >= 2 && Ino(C, p)
    ensures var t := Take(s.bitmap, |s.disk|, 2); var c, b := t.blocks[0], t.blocks[1];
      var ws := MkdirWrites(t.map8, c, b, mode, w);
      && c < 32768 && b < 32768 && ws == [Flush(t.map8)] + [Write(c, InodeSector(NewDir(mode, b, w)))] +
          [Write(b, Read(ZeroBlock()))]
      && Apply(s.disk, ws) ==
           Put(Put(Put(s.disk, 1, Flush(t.map8).data), c, InodeSector(NewDir(mode, b, w))), b, Read(ZeroBlock()))
      && Node(Apply(s.disk, ws), p) == Node(s.disk, p)
  {
    hide *;
    var t := Take(s.bitmap, |s.disk|, 2);
    var c, b := t.blocks[0], t.blocks[1];
    InvSmall(s, C);
    TakesTwo(s);
    TwoParts(s, c, b, t.map8);
    MkdirList(s.disk, t.map8, c, b, mode, w);
    DirLaidAgrees(s, C, mode, w);
    ParentKept(s.disk, Apply(s.disk, MkdirWrites(t.map8, c, b, mode, w)), C, p);
  }

  lemma MkdirList(d: Disk, bm: Block, c: nat, b: nat, mode: nat, w: Caller)
    requires mode < 0x1000
    ensures var ws := MkdirWrites(bm, c, b, mode, w);
      && ws == [Flush(bm)] + [Write(c, InodeSector(NewDir(mode, b, w)))] + [Write(b, Read(ZeroBlock()))]
      && Apply(d, ws) == Put(Put(Put(d, 1, Flush(bm).data), c, InodeSector(NewDir(mode, b, w))), b, Read(ZeroBlock()))
  {
    var v, x, y := Flush(bm), Write(c, InodeSector(NewDir(mode, b, w))), Write(b, Read(ZeroBlock()));
    assert [v] + [x] == [v, x];
    assert MkdirWrites(bm, c, b, mode, w) == [v] + [x] + [y] && v.lba == 1;
    hide *;
    ApplyTwo(d, v, x);
    ApplyOn(d, [v, x], y);
  }

  // ---- unlink, rmdir and truncate ----

  lemma ClearNone(bm: Block, bs: seq<nat>)
    ensures ClearAll(bm, bs[..0]) == bm && bs[..|bs|] == bs
  {}

  lemma ClearNext(bm: Block, bs: seq<nat>, j: nat)
    requires j < |bs|
    ensures ClearAll(bm, bs[..j + 1]) == if bs[j] == 0 then ClearAll(bm, bs[..j])
        else ClearBit(ClearAll(bm, bs[..j]), bs[j])
  {
    assert Front(bs[..j + 1]) == bs[..j] && Last(bs[..j + 1]) == bs[j];
    hide ClearBit;
  }

  /** The outcome of the two writes of unlink and rmdir. */
  lemma DetachIs(s: Fs, p: nat, name: Str, bm: Block, h: Look)
    requires h == Find(s.disk, p, name, 0)
    ensures var o, v := Detach(s, p, name, bm), Flush(bm);
      && o.code == 0 && v.lba == 1
      && match h
        case Miss => o.writes == [v] && After(s, o) == Fs(Put(s.disk, 1, v.data), bm)
        case Hit(q) =>
          var w := SlotWrite(s.disk, p, q, Cleared(Ent(s.disk, p, q)));
          o.writes == [w] + [v] && After(s, o) == Fs(Put(Put(s.disk, w.lba, w.data), 1, v.data), bm)
  {
    FlushIsWrite(bm);
    DetachCode(s, p, name, bm);
    DetachCases(s, p, name, bm);
    var v := Flush(bm);
    ApplyOne(s.disk, v);
    if h.Hit? {
      ApplyTwo(s.disk, SlotWrite(s.disk, p, h.slot, Cleared(Ent(s.disk, p, h.slot))), v);
    }
    hide Find, SlotWrite, Flush, Cleared, Apply, Detach, Ent, Put;
  }

  /** The common end of unlink and rmdir: find the parent, clear the entry, flush the bitmap bm. */
  function Detaching(s: Fs, r: Path, bm: Block): Outcome {
    if r == [] then Err(s, ENOENT)
    else if Walk(s.disk, Front(r)).Fail? then Err(s, Walk(s.disk, Front(r)).code)
    else if !DirAt(s.disk, ParentOf(s.disk, r)) then Err(s, ENOTDIR)
    else Detach(s, ParentOf(s.disk, r), NameIn(r), bm)
  }

  lemma UnlinkIs(s: Fs, comps: seq<Str>)
    requires UnlinkDefined(s.disk, comps)
    ensures var t := Translate(s.disk, comps);
      Unlink(s, comps) ==
        if t.Fail? then Err(s, t.code)
        else if DirAt(s.disk, t.inum) then Err(s, EISDIR)
        else Detaching(s, Resolve(comps), ClearBit(ClearAll(s.bitmap, Table(s.disk, t.inum)), t.inum))
  {
    hide Translate, Resolve, DirAt, Walk, Detach, Err, Table, ClearAll, ClearBit;
  }

  lemma RmdirIs(s: Fs, comps: seq<Str>)
    requires RmdirDefined(s.disk, comps)
    ensures var t := Translate(s.disk, comps);
      Rmdir(s, comps) ==
        if t.Fail? then Err(s, t.code)
        else if !DirAt(s.disk, t.inum) then Err(s, ENOTDIR)
        else if !FirstBlockEmpty(s.disk, t.inum) then Err(s, ENOTEMPTY)
        else Detaching(s, Resolve(comps), ClearBit(ClearBit(s.bitmap, Ptr(s.disk, t.inum, 0)), t.inum))
  {
    hide Translate, Resolve, DirAt, Walk, Detach, Err, Ptr, ClearBit, FirstBlockEmpty;
  }

  /** The outcome of Detaching, by what Locate and the scan for the entry find. */
  lemma DetachingIs(s: Fs, r: Path, bm: Block)
    requires r != []
    ensures var d, p, o := s.disk, ParentOf(s.disk, r), Detaching(s, r, bm);
      if Walk(d, Front(r)).Fail? then o == Err(s, Walk(d, Front(r)).code)
      else if !DirAt(d, p) then o == Err(s, ENOTDIR)
      else
        var v := Flush(bm);
        match Find(d, p, NameIn(r), 0)
        case Miss => o.code == 0 && o.writes == [v] && After(s, o) == Fs(Put(d, 1, v.data), bm)
        case Hit(q) =>
          var w := SlotWrite(d, p, q, Cleared(Ent(d, p, q)));
          o.code == 0 && o.writes == [w] + [v] && After(s, o) == Fs(Put(Put(d, w.lba, w.data), 1, v.data), bm)
  {
    var p := ParentOf(s.disk, r);
    DetachIs(s, p, NameIn(r), bm, Find(s.disk, p, NameIn(r), 0));
    hide Walk, DirAt, Find, SlotWrite, Flush, Cleared, Detach, Ent, Put, After, Err, ParentOf;
  }

  /** Flushing bm is all that separates the state now, with the writes t behind it, from the end of the outcome o
      of the state s. */
  ghost predicate Awaits(now: Fs, t: seq<Write>, s: Fs, t0: seq<Write>, o: Outcome, bm: Block) {
    && o.code == 0 && After(s, o) == Fs(Put(now.disk, 1, Flush(bm).data), bm) && t + [Flush(bm)] == t0 + o.writes
  }

  lemma AwaitsIs(now: Fs, t: seq<Write>, s: Fs, t0: seq<Write>, o: Outcome, bm: Block)
    requires o.code == 0 && After(s, o) == Fs(Put(now.disk, 1, Flush(bm).data), bm)
    requires (t == t0 && o.writes == [Flush(bm)]) || (exists w :: t == t0 + [w] && o.writes == [w] + [Flush(bm)])
    ensures Awaits(now, t, s, t0, o, bm)
  {
    if t != t0 {
      var w :| t == t0 + [w] && o.writes == [w] + [Flush(bm)];
      assert t0 + [w] + [Flush(bm)] == t0 + ([w] + [Flush(bm)]);
    }
    hide After, Flush, Put;
  }

  /** Changing one inode and then the bitmap block, as truncate's outcome has it. */
  lemma TruncateIs(s: Fs, i: nat, now: nat)
    ensures var bm := ClearAll(s.bitmap, Table(s.disk, i)); var x := InodeSector(Emptied(Node(s.disk, i), now));
      var o := Outcome(0, [Write(i, x), Flush(bm)], bm);
      After(s, o) == Fs(Put(Put(s.disk, i, x), 1, Flush(bm).data), bm) && o.writes == [Write(i, x)] + [Flush(bm)]
  {
    var bm := ClearAll(s.bitmap, Table(s.disk, i));
    FlushIsWrite(bm);
    TwoWrites(s, Write(i, InodeSector(Emptied(Node(s.disk, i), now))), Flush(bm), bm, 0);
    hide Put, Apply, Flush, InodeSector, Emptied, ClearAll;
  }

  // ---- rename ----

  /** What the scan of rename knows at slot q: the slot of src if it has come by, and whether dst has. */
  ghost predicate Seen(d: Disk, p: nat, src: Str, dst: Str, q: nat, at: Look, dstSeen: bool) {
    && (at.Miss? ==> Find(d, p, src, 0) == Find(d, p, src, q))
    && (at.Hit? ==> Find(d, p, src, 0) == at && at.slot < q)
    && (dstSeen ==> src != dst && Find(d, p, dst, 0).Hit? && Find(d, p, dst, 0).slot < q)
    && (!dstSeen && src != dst ==> Find(d, p, dst, 0) == Find(d, p, dst, q))
  }

  lemma SeenStart(d: Disk, p: nat, src: Str, dst: Str)
    ensures Seen(d, p, src, dst, 0, Miss, false)
  {
    hide Find;
  }

  lemma SeenNext(d: Disk, C: Cert, p: nat, src: Str, dst: Str, q: nat, at: Look, dstSeen: bool)
    requires Tree(d, C) && Ino(C, p) && DirAt(d, p) && q < Slots(d, p) && Seen(d, p, src, dst, q, at, dstSeen)
    ensures var e, n := Ent(d, p, q), NameAt(d, p, q);
      Seen(d, p, src, dst, q + 1, if e.valid && n == src then Hit(q) else at, dstSeen ||
          (e.valid && n != src && n == dst))
  {
    hide Tree, Find, Ent, NameAt, Slots, DirAt;
    FindNext(d, p, src, q);
    FindNext(d, p, dst, q);
    if Ent(d, p, q).valid && NameAt(d, p, q) == src {
      FindHere(d, C, p, q);
    }
    if Ent(d, p, q).valid && NameAt(d, p, q) == dst {
      FindHere(d, C, p, q);
    }
  }

  /** In a tree a live slot is the first one of its name. */
  lemma FindHere(d: Disk, C: Cert, p: nat, q: nat)
    requires Tree(d, C) && Ino(C, p) && DirAt(d, p) && q < Slots(d, p) && Ent(d, p, q).valid
    ensures Find(d, p, NameAt(d, p, q), 0) == Hit(q)
  {
    assert Live(d, C, p, q);
    StepFinds(d, C, p, q);
  }

  /** rename by what the scan has seen at the end of block j. */
  lemma SeenDecides(s: Fs, p: nat, src: Str, dst: Str, j: nat, at: Look, dstSeen: bool)
    requires Seen(s.disk, p, src, dst, 128 * j + 128, at, dstSeen) && at.Hit? && 128 * j <= at.slot
    ensures RenameIn(s, p, src, dst) ==
      if dstSeen then Err(s, EEXIST)
      else Outcome(0, [SlotWrite(s.disk, p, at.slot, Renamed(Ent(s.disk, p, at.slot), dst))], s.bitmap)
  {
    var l := Find(s.disk, p, dst, 0);
    FindFrom(s.disk, p, dst, 128 * j + 128);
    hide Find, SlotWrite, Renamed, Ent, Err;
    assert at.slot / 128 == j;
    assert dstSeen ==> l.slot / 128 <= j;
    assert !dstSeen && src != dst && l.Hit? ==> l.slot / 128 > j;
  }

  lemma FindFrom(d: Disk, p: nat, name: Str, q: nat)
    ensures Find(d, p, name, q).Hit? ==> Find(d, p, name, q).slot >= q
  {}

  lemma SeenNothing(s: Fs, p: nat, src: Str, dst: Str, q: nat, dstSeen: bool)
    requires Seen(s.disk, p, src, dst, q, Miss, dstSeen) && q >= Slots(s.disk, p)
    ensures RenameIn(s, p, src, dst) == Err(s, EOPNOTSUPP)
  {
    FindNext(s.disk, p, src, q);
    hide Find, Err, Slots;
  }

  /** A renamed slot and its block write. */
  lemma RenameWrite(s: Fs, p: nat, n: Inode, j: nat, k: nat, block: Block, dst: Str)
    requires k < 128 && j < 1019 && n == Node(s.disk, p) && Read(block) == At(s.disk, n.ptrs[j])
    ensures var w := Write(n.ptrs[j], Read(PutDirent(block, k, Renamed(DecodeDirent(block, k), dst))));
      var o := Outcome(0, [SlotWrite(s.disk, p, 128 * j + k, Renamed(Ent(s.disk, p, 128 * j + k), dst))], s.bitmap);
      After(s, o) == Fs(Put(s.disk, w.lba, w.data), s.bitmap) && o.writes == [w]
  {
    EntOf(s.disk, p, n, j, k, block);
    SlotWriteIs(s.disk, p, n, j, k, block, Renamed(DecodeDirent(block, k), dst));
    OneWrite(s, SlotWrite(s.disk, p, 128 * j + k, Renamed(Ent(s.disk, p, 128 * j + k), dst)), 0);
    hide SlotWrite, PutDirent, DecodeDirent, Renamed, Ent, Read, At, Put, After;
  }

  /** rename once the source has been found. */
  function RenamingIn(s: Fs, rs: Path, rd: Path): Outcome {
    if rs == [] || rd == [] || Walk(s.disk, Front(rs)).Fail? || Walk(s.disk, Front(rd)).Fail? then Err(s, ENOENT)
    else if ParentOf(s.disk, rs) != ParentOf(s.disk, rd) then Err(s, EINVAL)
    else if !DirAt(s.disk, ParentOf(s.disk, rs)) then Err(s, ENOTDIR)
    else RenameIn(s, ParentOf(s.disk, rs), NameIn(rs), NameIn(rd))
  }

  lemma RenamingIs(s: Fs, rs: Path, rd: Path)
    requires rs != [] && rd != []
    ensures RenamingIn(s, rs, rd) ==
      if Walk(s.disk, Front(rs)).Fail? || Walk(s.disk, Front(rd)).Fail? then Err(s, ENOENT)
      else if ParentOf(s.disk, rs) != ParentOf(s.disk, rd) then Err(s, EINVAL)
      else if !DirAt(s.disk, ParentOf(s.disk, rs)) then Err(s, ENOTDIR)
      else RenameIn(s, ParentOf(s.disk, rs), NameIn(rs), NameIn(rd))
  {
    hide Walk, DirAt, RenameIn, Err, ParentOf, NameIn;
  }

  /** rename is a check that the source is found, and then that. */
  lemma RenameIs(s: Fs, src: seq<Str>, dst: seq<Str>)
    requires RenameDefined(s.disk, src, dst)
    ensures Rename(s, src, dst) ==
      if Translate(s.disk, src).Fail? then Err(s, ENOENT) else RenamingIn(s, Resolve(src), Resolve(dst))
  {
    if Translate(s.disk, src).Fail? {
      RenameMissing(s, src, dst);
    } else {
      RenameShape(s, src, dst);
    }
    hide Translate, Resolve, Walk, DirAt, RenameIn, Err, Rename;
  }

  // ---- reading ----

  /** One turn of the read loop: the bytes of the block that holds position x. */
  lemma ContentPiece(d: Disk, i: nat, x: nat, m: nat, block: Block)
    requires x + m <= |Content(d, i)| && x % 4096 + m <= 4096 && Read(block) == At(d, Ptr(d, i, x / 4096))
    ensures Content(d, i)[..x] + block[x % 4096..x % 4096 + m] == Content(d, i)[..x + m]
  {
    assert block == At(d, Ptr(d, i, x / 4096)).bytes;
    hide Read, At, Ptr;
    forall y: nat | x <= y < x + m
      ensures Content(d, i)[y] == block[x % 4096 + (y - x)]
    {
      assert y / 4096 == x / 4096 && y % 4096 == x % 4096 + (y - x);
    }
  }

  lemma ReadIs(d: Disk, comps: seq<Str>, len: nat, off: nat)
    ensures var t := Translate(d, comps);
      ReadFile(d, comps, len, off) ==
        if t.Fail? then Bad(t.code) else if !IsReg(Node(d, t.inum).mode) then Bad(EISDIR)
        else Good(Slice(Content(d, t.inum), off, len))
  {
    hide Translate, IsReg, Content, Slice;
  }

  lemma SliceIs(c: Str, off: nat, len: nat)
    ensures off >= |c| ==> Slice(c, off, len) == []
    ensures off < |c| ==> Slice(c, off, len) == c[off..if off + len > |c| then |c| else off + len]
  {}

  lemma TablePtr(d: Disk, i: nat, n: Inode, k: nat)
    requires n == Node(d, i) && k < 1019
    ensures Ptr(d, i, k) == n.ptrs[k]
  {}

  lemma ReaddirIs(d: Disk, comps: seq<Str>)
    ensures var t := Translate(d, comps);
      Readdir(d, comps) == if t.Fail? then Bad(t.code) else if !DirAt(d, t.inum) then Bad(ENOTDIR)
          else Good(Listing(d, t.inum, 0))
  {
    hide Translate, DirAt, Listing;
  }

  lemma MarkedNext(bm: Block, n: nat)
    ensures Marked(bm, 0) == 0 && Marked(bm, n + 1) == Marked(bm, n) + if Bit(bm, n) then 1 else 0
  {
    hide Bit;
  }

  // ---- writing ----

  /** One more round of first-fit. */
  lemma TakeNext(m: Block, n: nat, i: nat)
    requires |Take(m, n, i).blocks| == i
    ensures var t := Take(m, n, i); var f := FirstFree(t.map8, n, 2);
      if f == 0 then forall k: nat :: k >= i ==> Take(m, n, k) == t
      else Take(m, n, i + 1) == Taken(t.blocks + [f], SetBit(t.map8, f))
  {
    hide Bit, SetBit, FirstFree;
    var t := Take(m, n, i);
    var f := FirstFree(t.map8, n, 2);
    if f == 0 {
      forall k: nat | k >= i
        ensures Take(m, n, k) == t
      {
        TakeComposes(m, n, i, k - i);
        assert Take(t.map8, n, k - i) == Taken([], t.map8);
        assert Take(m, n, i + (k - i)) == Taken(t.blocks + [], t.map8);
      }
    } else {
      TakeComposes(m, n, i, 1);
      assert Take(SetBit(t.map8, f), n, 0) == Taken([], SetBit(t.map8, f));
      assert Take(t.map8, n, 1) == Taken([f] + [], SetBit(t.map8, f));
    }
  }

  lemma TakeGrows(m: Block, n: nat, i: nat, k: nat)
    requires i <= k && |Take(m, n, i).blocks| == i
    ensures |Take(m, n, k).blocks| >= i
  {
    hide Take;
    TakeComposes(m, n, i, k - i);
  }

  lemma TakeNone(m: Block, n: nat, ptrs: Ptrs, cur: nat)
    ensures Take(m, n, 0) == Taken([], m) && Assign(ptrs, cur, []) == ptrs
  {}

  lemma AssignNext(ptrs: Ptrs, cur: nat, bs: seq<nat>, f: nat)
    requires cur + |bs| < 1019 && f < 32768
    ensures Assign(ptrs, cur, bs + [f]) == Assign(ptrs, cur, bs)[cur + |bs| := f]
  {}

  /** What the allocation loop leaves: the bitmap of the blocks t, and all of them in the table if they were enough. */
  ghost predicate Allocated(s: Fs, now: Fs, t: Taken, ptrs: Ptrs, cur: nat, need: nat, ok: bool, r: Ptrs) {
    now == Fs(s.disk, t.map8) && (ok <==> |t.blocks| == need) && (ok ==> r == Assign(ptrs, cur, t.blocks))
  }

  lemma IsAllocated(s: Fs, now: Fs, t: Taken, ptrs: Ptrs, cur: nat, need: nat, ok: bool, r: Ptrs)
    requires now == Fs(s.disk, t.map8) && (ok <==> |t.blocks| == need) && (ok ==> r == Assign(ptrs, cur, t.blocks))
    ensures Allocated(s, now, t, ptrs, cur, need, ok, r)
  {
    hide Assign;
  }

  lemma AllocatedIs(s: Fs, now: Fs, t: Taken, ptrs: Ptrs, cur: nat, need: nat, ok: bool, r: Ptrs)
    requires Allocated(s, now, t, ptrs, cur, need, ok, r)
    ensures now == Fs(s.disk, t.map8) && (ok <==> |t.blocks| == need) && (ok ==> r == Assign(ptrs, cur, t.blocks))
  {
    hide Assign;
  }

  /** One turn of the write loop. */
  lemma DataNext(d: Disk, ptrs: Ptrs, off: nat, data: Str)
    requires data != [] && off / 4096 < 1019
    ensures var w, c := ChunkWrite(d, ptrs, off, data), Chunk(off, |data|);
      && 0 < c <= |data| && off % 4096 + c <= 4096
      && w == Write(ptrs[off / 4096], Read(Splice(At(d, ptrs[off / 4096]).bytes, off % 4096, data[..c])))
      && DataWrites(d, ptrs, off, data) == [w] + DataWrites(Put(d, w.lba, w.data), ptrs, off + c, data[c..])
      && Apply(d, DataWrites(d, ptrs, off, data)) ==
           Apply(Put(d, w.lba, w.data), DataWrites(Put(d, w.lba, w.data), ptrs, off + c, data[c..]))
  {
    hide Read, Splice, Apply, Put, At;
    var w, c := ChunkWrite(d, ptrs, off, data), Chunk(off, |data|);
    ApplyCons(d, w, DataWrites(Put(d, w.lba, w.data), ptrs, off + c, data[c..]));
  }

  lemma DataDone(d: Disk, ptrs: Ptrs, off: nat)
    ensures DataWrites(d, ptrs, off, []) == [] && Apply(d, []) == d
  {}

  /** A block that is overwritten as a whole need not be read. */
  lemma WholeSplice(a: Block, b: Block, data: Str)
    requires |data| == 4096
    ensures Splice(a, 0, data) == Splice(b, 0, data)
  {}

  lemma PlanEnd(s: Fs, C: Cert, i: nat, bs: seq<nat>, off: nat, n: nat)
    requires Plan(s, C, i, bs, off, n)
    ensures off + n <= 1019 * 4096
  {
    hide Inv;
  }

  lemma WriteListIs(s: Fs, i: nat, data: Str, off: nat, now: nat)
    ensures var t := NewBlocks(s, i, off, |data|); var x := Written(Node(s.disk, i), t.blocks, off + |data|, now);
      var ws := DataWrites(s.disk, x.ptrs, off, data) + [Write(i, InodeSector(x))];
      WriteList(s, i, data, off, now) == if Blocks(off + |data|) > Blocks(Node(s.disk, i).size) then
          ws + [Flush(t.map8)] else ws
  {
    hide NewBlocks, Written, DataWrites, InodeSector, Blocks, Flush;
  }

  /** The pages that a write of n bytes at off touches lie on a disk of m blocks, and none is the superblock. */
  predicate PagesIn(ptrs: Ptrs, off: nat, n: nat, m: nat) {
    forall k :: 0 <= k < 1019 && Touches(k, off, n) ==> 0 < ptrs[k] < m
  }

  lemma PageIn(ptrs: Ptrs, off: nat, n: nat, m: nat, x: nat)
    requires PagesIn(ptrs, off, n, m) && off <= x < off + n && x / 4096 < 1019
    ensures 0 < ptrs[x / 4096] < m
  {
    assert Touches(x / 4096, off, n);
  }

  lemma WritePages(s: Fs, C: Cert, i: nat, off: nat, n: nat, now: nat)
    requires Inv(s, C) && Ino(C, i) && !DirAt(s.disk, i) && off + n <= 0xFFF_FFFF_F000
    requires CanWrite(s, i, off, n) && Room(s, i, off, n)
    ensures PagesIn(Written(Node(s.disk, i), NewBlocks(s, i, off, n).blocks, off + n, now).ptrs, off, n, |s.disk|)
  {
    var bs := NewBlocks(s, i, off, n).blocks;
    WriteIsPlan(s, C, i, off, n);
    PlanPages(s, C, i, bs, off, n, now);
    hide Inv, CanWrite, Room, Plan, NewBlocks, Written, Node, DirAt, Pages;
    forall k | 0 <= k < 1019 && Touches(k, off, n)
      ensures k < Blocks(off + n)
    {}
  }

  /** The outcome of a write with the blocks t. */
  lemma WriteEnds(s: Fs, C: Cert, i: nat, data: Str, off: nat, now: nat, t: Taken)
    requires Inv(s, C) && Ino(C, i) && !DirAt(s.disk, i) && off + |data| <= 0xFFF_FFFF_F000
    requires off <= Node(s.disk, i).size
    requires t == Take(s.bitmap, |s.disk|, Needed(off, |data|, Node(s.disk, i).size))
    ensures |t.blocks| < Needed(off, |data|, Node(s.disk, i).size) ==>
        WriteAt(s, i, data, off, now) == Outcome(ENOSPC, [], t.map8)
    ensures |t.blocks| == Needed(off, |data|, Node(s.disk, i).size) && Room(s, i, off, |data|) ==>
      var x := Written(Node(s.disk, i), t.blocks, off + |data|, now); var dw := DataWrites(s.disk, x.ptrs, off, data);
      var e := Put(Apply(s.disk, dw), i, InodeSector(x)); var o := WriteAt(s, i, data, off, now);
      && o.code == |data| && off + |data| <= 1019 * 4096
      && (Blocks(off + |data|) > Blocks(Node(s.disk, i).size) ==>
            After(s, o) == Fs(Put(e, 1, Flush(t.map8).data), t.map8) &&
                o.writes == dw + [Write(i, InodeSector(x))] + [Flush(t.map8)])
      && (Blocks(off + |data|) <= Blocks(Node(s.disk, i).size) ==>
            After(s, o) == Fs(e, t.map8) && o.writes == dw + [Write(i, InodeSector(x))])
  {
    hide *;
    var n := |data|;
    NeededIs(s, C, i, off, n);
    WriteAtShape(s, C, i, data, off, now);
    if CanWrite(s, i, off, n) && Room(s, i, off, n) {
      var x := Written(Node(s.disk, i), t.blocks, off + n, now);
      WriteIsPlan(s, C, i, off, n);
      PlanEnd(s, C, i, t.blocks, off, n);
      WriteDisk(s, i, data, off, now);
      WrittenDiskIs(s.disk, i, x, off, data);
      WriteListIs(s, i, data, off, now);
      AfterIs(s, WriteAt(s, i, data, off, now));
      FsIs(After(s, WriteAt(s, i, data, off, now)));
    }
  }

  lemma NeedIs(off: nat, n: nat, size: int)
    ensures Needed(off, n, size) == (Blocks(off + n) - Blocks(size)) % 0x1_0000_0000
  {}

  lemma WrittenIs(n: Inode, bs: seq<nat>, end: nat, now: nat)
    ensures Written(n, bs, end, now) ==
      n.(ptrs := Assign(n.ptrs, Blocks(n.size), bs), size := NewSize(n.size, end), mtime := now % 0x1_0000_0000)
  {
    hide Assign, NewSize, Blocks;
  }

  // ---- fs_init ----

  lemma MountIs(image: seq<Block>, C: Cert)
    requires Safe(Sectors(image), C)
    ensures 2 < |image| <= 32768 && Word(image[0], 4) == |image|
    ensures Remount(Sectors(image)) == Fs(Sectors(image), image[1])
  {
    assert ROOT in C && 2 < |Sectors(image)| by { hide Nodes, Owns, Owned, Links, Linked, Names, Sectors, Bit, Word; }
    SectorAt(image, 0);
    SectorAt(image, 1);
    hide DecodeInode, DecodeDirents, Sectors, Tree, Word, Bit;
  }
}
