/** Disks at the edge: a root directory with many files, once so many that it is full, and once with so many blocks to
    spare that a write can overrun the pointer table. */
module Edges {
  import opened Words
  import opened Format
  import opened Bits
  import opened Image
  import opened Change
  import opened Paths
  import opened Ops
  import opened Keep
  import opened Making
  import opened Removing
  import opened Editing
  import opened Writing
  import opened Runs
  import opened Codes
  import opened Crashes
  import opened Device
  import opened Loops
  import opened Witnesses

  // ---- a root directory of m files on a disk of n blocks ----

  /** The r-th file is called by the one byte r + 64. */
  function NameOf(r: nat): (name: Str)
    requires r < 128
    ensures NewName(name) && |name| == 1 && name[0] == r + 64
  { [r + 64] }

  function EntryOf(r: nat): Dirent
    requires r < 128
  { Dirent(true, r + 4, StoreName(seq(28, _ => 0), NameOf(r))) }

  function NoEntry(): Dirent { Dirent(false, 0, seq(28, _ => 0)) }

  /** The directory block: entries for the inodes 4 to m + 3. */
  function RowBlock(m: nat): Block {
    seq(4096, x requires 0 <= x < 4096 => DirentByte(if x / 32 < m then EntryOf(x / 32) else NoEntry(), x % 32))
  }

  /** The first 8 * b bits and the low bits of one more byte. */
  function FirstMarks(b: nat, low: byte): Block { seq(4096, x => if x < b then 255 else if x == b then low else 0) }

  function RootNode(): Inode { Inode(0, 0, 0x41ed, 0, 0, 4096, NoPtrs()[0 := 3]) }

  function EmptyFile(): Inode { Inode(0, 0, 0x81a4, 0, 0, 0, NoPtrs()) }

  function RowPart(m: nat, n: uint32, bm: Block, b: nat): Block {
    if b == 0 then Superblock(n) else if b == 1 then bm
    else if b == 2 then EncodeInode(RootNode()) else if b == 3 then RowBlock(m)
    else if b < m + 4 then EncodeInode(EmptyFile()) else ZeroBlock()
  }

  function RowImage(m: nat, n: uint32, bm: Block): seq<Block> { seq(n, b requires 0 <= b => RowPart(m, n, bm, b)) }

  function RowDisk(m: nat, n: uint32, bm: Block): Disk { Sectors(RowImage(m, n, bm)) }

  function RowRole(b: nat): Role { if b < 3 then Root else if b == 3 then Data(2, 0) else Entry(2, b - 4, 1) }

  predicate InTree(b: nat) { 2 <= b }

  function RowCert(m: nat): Cert { map b: nat | b < m + 4 && InTree(b) :: RowRole(b) }

  // ---- what it reads as ----

  lemma RowReads(m: nat, n: uint32, bm: Block, b: nat)
    requires b < n
    ensures At(RowDisk(m, n, bm), b) == Read(RowImage(m, n, bm)[b]) && |RowDisk(m, n, bm)| == n
  {
    SectorAt(RowImage(m, n, bm), b);
    hide RowPart, Read, Sectors;
  }

  lemma EntryKept(m: nat, r: nat)
    requires r < 128
    ensures DecodeDirent(RowBlock(m), r) == if r < m then EntryOf(r) else NoEntry()
  {
    var e := if r < m then EntryOf(r) else NoEntry();
    PutThenGet(RowBlock(m), r, e, r);
    hide DirentByte, DecodeDirent, EntryOf, NoEntry;
    assert PutDirent(RowBlock(m), r, e) == RowBlock(m);
  }

  lemma EntryNamed(r: nat)
    requires r < 128
    ensures CStr(EntryOf(r).name) == NameOf(r) && EntryOf(r).valid && EntryOf(r).inode == r + 4 && !NoEntry().valid
  {
    StoredNameReadsBack(seq(28, _ => 0), NameOf(r));
    hide CStr, StoreName;
  }

  /** The facts the proofs use. */
  ghost predicate RowHolds(d: Disk, m: nat) {
    && m <= 128 && m + 4 < |d| <= 32768
    && Node(d, 2) == RootNode() && (forall i :: 4 <= i < m + 4 ==> Node(d, i) == EmptyFile())
    && (forall r: nat :: r < 128 ==> (At(d, 3).dirents[r].valid <==> r < m))
    && (forall r: nat :: r < m ==> At(d, 3).dirents[r].inode == r + 4 && CStr(At(d, 3).dirents[r].name) == NameOf(r))
  }

  lemma RowIs(m: nat, n: uint32, bm: Block)
    requires m <= 128 && m + 4 < n <= 32768
    ensures RowHolds(RowDisk(m, n, bm), m)
    ensures At(RowDisk(m, n, bm), 0).bytes == Superblock(n) && At(RowDisk(m, n, bm), 1).bytes == bm
  {
    var d, bs := RowDisk(m, n, bm), RowImage(m, n, bm);
    RowParts(m, n, bm);
    hide *;
    RowReads(m, n, bm, 0);
    RowReads(m, n, bm, 1);
    RowReads(m, n, bm, 2);
    RowReads(m, n, bm, 3);
    BytesOfRead(Superblock(n));
    BytesOfRead(bm);
    NodeReads(d, 2, RootNode());
    forall i | 4 <= i < m + 4
      ensures Node(d, i) == EmptyFile()
    {
      RowReads(m, n, bm, i);
      NodeReads(d, i, EmptyFile());
    }
    forall r: nat | r < 128
      ensures At(d, 3).dirents[r].valid <==> r < m
      ensures r < m ==> At(d, 3).dirents[r].inode == r + 4 && CStr(At(d, 3).dirents[r].name) == NameOf(r)
    {
      EntryKept(m, r);
      EntryNamed(r);
      DirentRead(RowBlock(m), r);
    }
    IsRow(d, m);
  }

  lemma RowParts(m: nat, n: uint32, bm: Block)
    requires m + 4 < n
    ensures var bs := RowImage(m, n, bm);
      && |bs| == n && bs[0] == Superblock(n) && bs[1] == bm && bs[2] == EncodeInode(RootNode()) && bs[3] == RowBlock(m)
      && forall i :: 4 <= i < m + 4 ==> bs[i] == EncodeInode(EmptyFile())
  {
    hide Superblock, EncodeInode, RootNode, RowBlock, EmptyFile;
  }

  lemma IsRow(d: Disk, m: nat)
    requires m <= 128 && m + 4 < |d| <= 32768
    requires Node(d, 2) == RootNode() && (forall i :: 4 <= i < m + 4 ==> Node(d, i) == EmptyFile())
    requires forall r: nat :: r < 128 ==> (At(d, 3).dirents[r].valid <==> r < m)
    requires forall r: nat :: r < m ==>
      At(d, 3).dirents[r].inode == r + 4 && CStr(At(d, 3).dirents[r].name) == NameOf(r)
    ensures RowHolds(d, m)
  {
    hide Node, At, RootNode, EmptyFile, NameOf, CStr;
  }

  lemma NodeReads(d: Disk, i: nat, n: Inode)
    requires At(d, i) == Read(EncodeInode(n))
    ensures Node(d, i) == n
  {
    InodeRoundTrip(n);
    hide At, EncodeInode, DecodeInode, DecodeDirents;
  }

  lemma DirentRead(b: Block, r: nat)
    requires r < 128
    ensures Read(b).dirents[r] == DecodeDirent(b, r)
  {
    hide DecodeInode, DecodeDirent;
  }

  // ---- the invariant ----

  lemma RowNodes(d: Disk, m: nat)
    requires RowHolds(d, m)
    ensures DirAt(d, 2) && NodeOk(d, 2) && Slots(d, 2) == 128 && Span(d, 2) == 1 && Ptr(d, 2, 0) == 3
    ensures forall i :: 4 <= i < m + 4 ==> !DirAt(d, i) && NodeOk(d, i) && Span(d, i) == 0 && Node(d, i).size == 0
  {
    hide At, CStr, NameOf, Node;
  }

  lemma RowSlots(d: Disk, m: nat)
    requires RowHolds(d, m)
    ensures forall k: nat :: k < 128 ==> (Ent(d, 2, k).valid <==> k < m)
    ensures forall k: nat :: k < m ==> Ent(d, 2, k).inode == k + 4 && NameAt(d, 2, k) == NameOf(k)
  {
    RowNodes(d, m);
    hide At, CStr, NameOf, Node, Ptr, Slots, Span, NodeOk, DirAt;
    forall k: nat | k < 128 ensures Ent(d, 2, k) == At(d, 3).dirents[k] { }
  }

  lemma RowRoles(m: nat)
    ensures var C := RowCert(m);
      && (forall i: nat :: Ino(C, i) <==> i == 2 || 4 <= i < m + 4)
      && (forall b: nat :: IsEntry(C, b) <==> 4 <= b < m + 4) && (forall b: nat :: IsData(C, b) <==> b == 3)
      && (forall b: nat :: b in C <==> 2 <= b < m + 4) && C[2] == Root && C[3] == Data(2, 0)
      && (forall r: nat :: r < m ==> C[r + 4] == Entry(2, r, 1))
  {}

  lemma RowLive(d: Disk, m: nat)
    requires RowHolds(d, m)
    ensures forall i: nat, k: nat :: Live(d, RowCert(m), i, k) <==> i == 2 && k < m
  {
    RowRoles(m);
    RowNodes(d, m);
    RowSlots(d, m);
    hide Node, Ent, Slots, Span, NodeOk, DirAt, RowCert, Ino, NameAt, NameOf, Ptr;
  }

  lemma RowTree(d: Disk, m: nat)
    requires RowHolds(d, m)
    ensures Tree(d, RowCert(m))
  {
    RowRoles(m);
    RowNodes(d, m);
    RowSlots(d, m);
    RowLive(d, m);
    RowNames(m);
    hide Node, Ent, Slots, Span, NodeOk, DirAt, RowCert, Ino, NameAt, NameOf, Ptr, Live, IsData, IsEntry, RowHolds,
         GoodName;
    var C := RowCert(m);
    assert Bounds(d, C) && Nodes(d, C) by { RowSize(d, m); }
    assert Owns(d, C) && Owned(d, C);
    assert Links(d, C) && Linked(d, C);
    assert Names(d, C);
  }

  lemma RowSize(d: Disk, m: nat)
    requires RowHolds(d, m)
    ensures m + 4 < |d| && m <= 128
  {}

  lemma RowNames(m: nat)
    requires m <= 128
    ensures forall r: nat :: r < m ==> GoodName(NameOf(r))
    ensures forall r: nat, q: nat :: r < m && q < m && NameOf(r) == NameOf(q) ==> r == q
  {
    forall r: nat, q: nat | r < m && q < m && NameOf(r) == NameOf(q)
      ensures r == q
    {
      assert NameOf(r)[0] == r + 64 && NameOf(q)[0] == q + 64;
    }
  }

  lemma MarksAre(b: nat, low: byte, c: nat, j: nat)
    requires b < 4096 && ((low == 15 && c == 4) || (low == 31 && c == 5))
    ensures Bit(FirstMarks(b, low), j) <==> j < 8 * b + c
  {
    if j < 32768 {
      LowBytes();
      EndBytes();
      BitsOfByte(0);
      BitsOfByte(15);
      BitsOfByte(31);
      BitsOfByte(255);
      LowMasks(j % 8);
      hide And8, Mask8, ToBits, OfBits;
    }
  }

  lemma LowBytes()
    ensures OfBits(15) == 15 && OfBits(31) == 31
  {}

  lemma LowMasks(k: nat)
    requires k < 8
    ensures And8(0, Mask8(k)) == 0 && And8(255, Mask8(k)) != 0
    ensures And8(15, Mask8(k)) != 0 <==> k < 4
    ensures And8(31, Mask8(k)) != 0 <==> k < 5
  {
    assert k == 0 || k == 1 || k == 2 || k == 3 || k == 4 || k == 5 || k == 6 || k == 7;
  }

  /** With the blocks in use marked and no others, the invariant holds and all others are free. */
  lemma RowBegins(m: nat, n: uint32, bm: Block)
    requires m <= 128 && m + 4 < n <= 32768 && forall j: nat :: Bit(bm, j) <==> j < m + 4
    ensures var d := RowDisk(m, n, bm);
      && Inv(Remount(d), RowCert(m)) && RowHolds(d, m) && |d| == n
      && forall b: nat :: b in FreeBlocks(Remount(d)) <==> m + 4 <= b < n
  {
    SuperblockIs(n);
    hide *;
    RowIs(m, n, bm);
    RowReads(m, n, bm, 0);
    RowTree(RowDisk(m, n, bm), m);
    RowRoles(m);
    IsMarked(RowDisk(m, n, bm), RowCert(m), m + 4);
  }

  lemma SuperblockIs(n: uint32)
    ensures Word(Superblock(n), 0) == FS_MAGIC && Word(Superblock(n), 4) == n
  {
    hide Word;
  }

  lemma IsMarked(d: Disk, C: Cert, k: nat)
    requires Tree(d, C) && |d| <= 32768 && Word(At(d, 0).bytes, 0) == FS_MAGIC && Word(At(d, 0).bytes, 4) == |d|
    requires 2 <= k && (forall b: nat :: b in C <==> 2 <= b < k) && forall j: nat :: Bit(At(d, 1).bytes, j) <==> j < k
    ensures Inv(Remount(d), C) && forall b: nat :: b in FreeBlocks(Remount(d)) <==> k <= b < |d|
  {
    hide Tree, Bit, Word, At;
  }

  // ---- a full directory ----

  /** 128 files in the root, and two blocks to spare. */
  function Packed(): Fs { Remount(RowDisk(128, 134, FirstMarks(16, 15))) }

  function Two(): (name: Str)
    ensures NewName(name) && |name| == 1 && name[0] == 50
  { [50] }

  lemma PackedIs()
    ensures var s, C := Packed(), RowCert(128);
      && Inv(s, C) && Tree(s.disk, C) && |s.disk| == 134 && FreeBlocks(s) == {132, 133} && RowHolds(s.disk, 128)
      && FirstFree(s.bitmap, 134, 2) == 132
  {
    hide *;
    ManyMarks(16, 15, 4);
    RowBegins(128, 134, FirstMarks(16, 15));
    PackedHas(RowDisk(128, 134, FirstMarks(16, 15)));
    InvParts(Packed(), RowCert(128));
  }

  lemma ManyMarks(b: nat, low: byte, c: nat)
    requires b < 4096 && ((low == 15 && c == 4) || (low == 31 && c == 5))
    ensures forall j: nat :: Bit(FirstMarks(b, low), j) <==> j < 8 * b + c
  {
    hide *;
    forall j: nat
      ensures Bit(FirstMarks(b, low), j) <==> j < 8 * b + c
    {
      MarksAre(b, low, c, j);
    }
  }

  lemma PackedHas(d: Disk)
    requires d == RowDisk(128, 134, FirstMarks(16, 15)) && |d| == 134
    requires forall b: nat :: b in FreeBlocks(Remount(d)) <==> 132 <= b < 134
    ensures Packed() == Remount(d) && Packed().disk == d && FreeBlocks(Packed()) == {132, 133}
    ensures FirstFree(Packed().bitmap, 134, 2) == 132
  {
    hide RowDisk, FirstMarks, At, Bit;
    var s := Packed();
    var f := FirstFree(s.bitmap, 134, 2);
    assert 132 in FreeBlocks(s);
    assert f != 0 ==> f in FreeBlocks(s);
  }

  /** There is no entry of that name and no slot for one. */
  lemma PackedFull(d: Disk)
    requires RowHolds(d, 128)
    ensures DirFound(d, Front([Two()])) && Lookup(d, [Two()]) == None && !Roomy(d, [Two()])
  {
    assert Front([Two()]) == [];
    hide *;
    assert [] + [Two()] == [Two()];
    RootDir(d, 128);
    NoTwo(d);
    NoSlot(d);
    WalkRoot(d);
    WalkOn(d, [], Two());
    DirFoundIs(d, []);
    DirFoundIs(d, [Two()]);
    NoneIfNotSome(d, [Two()]);
    ParentIs(d, [Two()]);
    RoomyIs(d, [Two()]);
  }

  lemma RootDir(d: Disk, m: nat)
    requires RowHolds(d, m)
    ensures DirAt(d, 2)
  {
    RowNodes(d, m);
    hide RowHolds, DirAt;
  }

  lemma NoTwo(d: Disk)
    requires RowHolds(d, 128)
    ensures Step(d, 2, Two()).Fail?
  {
    RowNodes(d, 128);
    RowSlots(d, 128);
    assert forall r: nat :: r < 128 ==> NameOf(r)[0] == r + 64;
    hide RowHolds, Node, Ent, Slots, Span, NodeOk, DirAt, NameAt, NameOf, Ptr, Two;
  }

  lemma NoSlot(d: Disk)
    requires RowHolds(d, 128)
    ensures FreeSlot(d, 2, 0).Miss?
  {
    RowNodes(d, 128);
    RowSlots(d, 128);
    hide RowHolds, Node, Ent, Slots, Span, NodeOk, DirAt, NameAt, NameOf, Ptr;
  }

  /** create in a full directory takes a free block and loses it. */
  lemma FullForCreate(mode: nat, w: Caller)
    requires mode < 0x1_0000_0000 && IsReg(mode)
    ensures var s, p := Packed(), InRoot(Two()); var o := Create(s, p, mode, w);
      && Inv(s, RowCert(128)) && FreeBlocks(s) == {132, 133} && o.code == ENOSPC
      && Lost(s, CreateCall(p, mode, w)) == {132} && FreeBlocks(After(s, o)) == {133}
  {
    TwoIs();
    hide *;
    var s, C, p, n := Packed(), RowCert(128), InRoot(Two()), Two();
    PackedIs();
    PackedFull(s.disk);
    InRootIs(s.disk, n);
    TwoFreeBlocks(s);
    CreateCodes(s, C, p, mode, w);
    CountsAre(s, CreateCall(p, mode, w));
    CanMakeIs(s, [n]);
    CreateLosesIs(s, [n]);
    var D, t, L, c := CreateKeeps(s, C, p, mode, w);
    NotMade(s, C, Create(s, p, mode, w), D, t, L, Stored([n]), File(NewAttr(mode, w), []), 1, ENOSPC, c, 0);
    AfterSize(s, Create(s, p, mode, w));
    FreeAfter(s, C, After(s, Create(s, p, mode, w)), L);
  }

  /** mkdir loses two. */
  lemma FullForMkdir(mode: nat, w: Caller)
    requires mode < 0x1000
    ensures var s, p := Packed(), InRoot(Two()); var o := Mkdir(s, p, mode, w);
      && Inv(s, RowCert(128)) && FreeBlocks(s) == {132, 133} && o.code == EOPNOTSUPP
      && Lost(s, MkdirCall(p, mode, w)) == {132, 133} && FreeBlocks(After(s, o)) == {}
  {
    TwoIs();
    hide *;
    var s, C, p, n := Packed(), RowCert(128), InRoot(Two()), Two();
    PackedIs();
    PackedFull(s.disk);
    InRootIs(s.disk, n);
    TwoFreeBlocks(s);
    MkdirCodes(s, C, p, mode, w);
    CountsAre(s, MkdirCall(p, mode, w));
    CanMakeIs(s, [n]);
    MkdirLosesIs(s, [n]);
    SpareBlocks(s);
    BothTaken(s);
    var D, t, L, c := MkdirKeeps(s, C, p, mode, w);
    NotMade(s, C, Mkdir(s, p, mode, w), D, t, L, Stored([n]), Dir(NewAttr(0x4000 + mode, w)), 2, EOPNOTSUPP, c, 4096);
    AfterSize(s, Mkdir(s, p, mode, w));
    FreeAfter(s, C, After(s, Mkdir(s, p, mode, w)), L);
  }

  lemma TwoIs()
    ensures Plain(Two()) && NewName(Two()) && |Two()| == 1
    ensures EOPNOTSUPP < 0 && ENOSPC < 0
  {}

  lemma TwoFreeBlocks(s: Fs)
    requires FreeBlocks(s) == {132, 133}
    ensures |FreeBlocks(s)| == 2 && FreeBlocks(s) != {}
  {
    hide FreeBlocks;
  }

  lemma BothTaken(s: Fs)
    requires |s.disk| <= 32768 && FreeBlocks(s) == {132, 133} && |Take(s.bitmap, |s.disk|, 2).blocks| == 2
    ensures var bs := Take(s.bitmap, |s.disk|, 2).blocks; {bs[0], bs[1]} == {132, 133}
  {
    hide Take, Bit;
    TakeFacts(s.bitmap, |s.disk|, 2);
    var bs := Take(s.bitmap, |s.disk|, 2).blocks;
    assert bs[0] in FreeBlocks(s) && bs[1] in FreeBlocks(s) && bs[0] != bs[1];
  }

  lemma NotMade(s: Fs, C: Cert, o: Outcome, D: Cert, t: nat, L: set<nat>, r: Path, obj: Obj, n: nat, full: int,
      c: nat, size: int)
    requires Made(s, C, o, D, t, L, r, obj, n, full, c, size) && o.code != 0
    ensures D == C && Inv(After(s, o), C) && Loses(s.bitmap, C, After(s, o).bitmap, C, L)
  {
    AfterIs(s, o);
    hide Stages, Inv, Loses, Gains, Agree, Placed, Clean;
  }

  lemma AfterSize(s: Fs, o: Outcome)
    ensures |After(s, o).disk| == |s.disk|
  {
    AfterIs(s, o);
  }

  // ---- more blocks than pointers ----

  /** One empty file, and 1020 of 1025 blocks free. */
  function Vast(): Fs { Remount(RowDisk(1, 1025, FirstMarks(0, 31))) }

  lemma VastIs()
    ensures var s, C := Vast(), RowCert(1);
      && Inv(s, C) && Tree(s.disk, C) && |s.disk| == 1025 && RowHolds(s.disk, 1)
      && forall b: nat :: b in FreeBlocks(s) <==> 5 <= b < 1025
  {
    hide *;
    ManyMarks(0, 31, 5);
    RowBegins(1, 1025, FirstMarks(0, 31));
    VastHas(RowDisk(1, 1025, FirstMarks(0, 31)));
    InvParts(Vast(), RowCert(1));
  }

  lemma VastHas(d: Disk)
    requires d == RowDisk(1, 1025, FirstMarks(0, 31))
    ensures Vast() == Remount(d) && Vast().disk == d
  {
    hide RowDisk, FirstMarks, At;
  }

  lemma FirstFile(d: Disk)
    requires RowHolds(d, 1) && Tree(d, RowCert(1))
    ensures Walk(d, [NameOf(0)]) == Ok(4) && !DirAt(d, 4) && Node(d, 4).size == 0
  {
    hide *;
    FileFacts(d);
    WalkRoot(d);
    StepFinds(d, RowCert(1), 2, 0);
    WalkOn(d, [], NameOf(0));
    assert [] + [NameOf(0)] == [NameOf(0)];
  }

  lemma FileFacts(d: Disk)
    requires RowHolds(d, 1)
    ensures !DirAt(d, 4) && Node(d, 4).size == 0 && Live(d, RowCert(1), 2, 0)
    ensures Ent(d, 2, 0).inode == 4 && NameAt(d, 2, 0) == NameOf(0)
  {
    RowNodes(d, 1);
    RowSlots(d, 1);
    RowLive(d, 1);
    hide RowHolds, Node, Ent, Slots, Span, NodeOk, DirAt, NameAt, NameOf, Ptr, Live, RowCert;
  }

  /** So 1024 blocks is as large as a disk can be: with one more there is a write that overruns the pointer table. */
  lemma PastTheTable()
    ensures var s := Vast();
      Inv(s, RowCert(1)) && |s.disk| == 1025 && !Bounded(s, InRoot(NameOf(0)), 0, 1020 * 4096)
  {
    NameOfIs();
    hide *;
    var s, C, p, n := Vast(), RowCert(1), InRoot(NameOf(0)), NameOf(0);
    VastIs();
    FirstFile(s.disk);
    InRootIs(s.disk, n);
    VastFree(s, C);
    TargetIs(s.disk, p);
    AllocatesIs(s, p, 0);
    SpareFor(s, 1020);
    NeedsAll(s, 4);
    if Bounded(s, p, 0, 1020 * 4096) { BoundedIs(s, p, 0, 1020 * 4096); }
  }

  lemma NameOfIs()
    ensures Plain(NameOf(0))
  {}

  lemma VastFree(s: Fs, C: Cert)
    requires Inv(s, C) && C == RowCert(1) && |s.disk| == 1025 && forall b: nat :: b in FreeBlocks(s) <==> 5 <= b < 1025
    ensures |FreeBlocks(s)| == 1020
  {
    hide *;
    FreeParts(s, C);
    KeysAre(C);
    IdleAre(s, C);
  }

  lemma KeysAre(C: Cert)
    requires C == RowCert(1)
    ensures |C.Keys| == 3 && forall b: nat :: b in C <==> 2 <= b < 5
  {
    RowRoles(1);
    hide RowCert;
    assert C.Keys == {2, 3, 4};
  }

  lemma IdleAre(s: Fs, C: Cert)
    requires Inv(s, C) && |s.disk| == 1025 && forall b: nat :: b in FreeBlocks(s) <==> 5 <= b < 1025
    requires forall b: nat :: b in C <==> 2 <= b < 5
    ensures |Idle(s, C)| == 2
  {
    InvMarks(s, C);
    hide Inv, Bit, FreeBlocks;
    forall b: nat
      ensures b in Idle(s, C) <==> b == 0 || b == 1
    {
      FreeIs(s, b);
    }
    assert Idle(s, C) == {0, 1};
  }

  lemma FreeIs(s: Fs, b: nat)
    ensures b in FreeBlocks(s) <==> 2 <= b < |s.disk| && !Bit(s.bitmap, b)
  {
    hide Bit;
  }

  lemma NeedsAll(s: Fs, i: nat)
    requires Node(s.disk, i).size == 0 && |Take(s.bitmap, |s.disk|, 1020).blocks| == 1020
    ensures !Room(s, i, 0, 1020 * 4096)
  {
    hide Take, Node, Needed, Blocks;
    NeedIs(0, 1020 * 4096, 0);
    SizesAre();
  }

  lemma SizesAre()
    ensures Blocks(0) == 0 && Blocks(1020 * 4096) == 1020
  {}
}
