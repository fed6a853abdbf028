/** One small disk on which every limit is met: for each failed promise a call that fails it. */
module Witnesses {
  import opened Words
  import opened Format
  import opened Bits
  import opened Image
  import opened Change
  import opened Paths
  import opened Ops
  import opened Keep
  import opened Making
  import opened Removing
  import opened Renaming
  import opened Editing
  import opened Writing
  import opened Runs
  import opened Limits
  import opened Codes
  import opened Crashes
  import opened Device

  // ---- the disk ----

  function DirNode(b: uint32, c: uint32): Inode { Inode(0, 0, 0x41ed, 0, 0, 8192, NoPtrs()[0 := b][1 := c]) }

  function FileNode(size: int32, b: uint32): Inode { Inode(0, 0, 0x81a4, 0, 0, size, NoPtrs()[0 := b]) }

  function Called(i: uint31, name: Str): Dirent { Dirent(true, i, StoreName(seq(28, _ => 0), name)) }

  /** A directory block with one entry, in its first slot. */
  function OneEntry(i: uint31, name: Str): Block { PutDirent(ZeroBlock(), 0, Called(i, name)) }

  /** The first 16 blocks are marked. */
  function Marked(): Block { seq(4096, x => if x < 2 then 255 else 0) }

  function A(): (n: Str)
    ensures NewName(n) && |n| == 1 && n[0] == 97
  { [97] }

  function G(): (n: Str)
    ensures NewName(n) && |n| == 1 && n[0] == 103
  { [103] }

  /** The longest name that is stored whole. */
  function F(): (n: Str)
    ensures NewName(n) && |n| == 26 && n[0] == 102
  { seq(26, _ => 102) }

  /** It holds a directory A with a file G in its second block and, in the second block of the root, a file F of one
      byte. Blocks 11 to 15 are used up, 16 and 17 are free. */
  function SmallImage(): seq<Block> {
    [Superblock(18), Marked(), EncodeInode(DirNode(3, 4)), OneEntry(5, A()), OneEntry(9, F()),
     EncodeInode(DirNode(6, 7)), ZeroBlock(), OneEntry(8, G()), EncodeInode(FileNode(0, 0)),
     EncodeInode(FileNode(1, 10)), ZeroBlock()] + seq(7, _ => ZeroBlock())
  }

  function Small(): Disk { Sectors(SmallImage()) }

  function SmallCert(): Cert {
    map[2 := Root, 3 := Data(2, 0), 4 := Data(2, 1), 5 := Entry(2, 0, 1), 6 := Data(5, 0), 7 := Data(5, 1),
        8 := Entry(5, 128, 2), 9 := Entry(2, 128, 1), 10 := Data(9, 0)]
  }

  /** The state after fs_init. */
  function SmallFs(): Fs { Remount(Small()) }

  // ---- what the proofs use of it ----

  ghost predicate Roles(C: Cert) {
    && (forall b: nat :: b in C <==> 2 <= b <= 10)
    && C[2] == Root && C[3] == Data(2, 0) && C[4] == Data(2, 1) && C[5] == Entry(2, 0, 1) && C[6] == Data(5, 0)
    && C[7] == Data(5, 1) && C[8] == Entry(5, 128, 2) && C[9] == Entry(2, 128, 1) && C[10] == Data(9, 0)
  }

  lemma RolesAre()
    ensures Roles(SmallCert())
  {}

  ghost predicate Sizes(d: Disk) {
    && DirAt(d, 2) && DirAt(d, 5) && !DirAt(d, 8) && !DirAt(d, 9)
    && NodeOk(d, 2) && NodeOk(d, 5) && NodeOk(d, 8) && NodeOk(d, 9)
    && Slots(d, 2) == 256 && Slots(d, 5) == 256
    && Span(d, 2) == 2 && Span(d, 5) == 2 && Span(d, 8) == 0 && Span(d, 9) == 1
    && Ptr(d, 2, 0) == 3 && Ptr(d, 2, 1) == 4 && Ptr(d, 5, 0) == 6 && Ptr(d, 5, 1) == 7 && Ptr(d, 9, 0) == 10
    && Node(d, 8).size == 0 && Node(d, 9).size == 1
  }

  /** Slot k of directory i is in use. */
  predicate Used(i: nat, k: nat) { (i == 2 && (k == 0 || k == 128)) || (i == 5 && k == 128) }

  ghost predicate Entries(d: Disk) {
    && (forall i, k :: (i == 2 || i == 5) && 0 <= k < 256 ==> (Ent(d, i, k).valid <==> Used(i, k)))
    && Ent(d, 2, 0).inode == 5 && Ent(d, 2, 128).inode == 9 && Ent(d, 5, 128).inode == 8
    && NameAt(d, 2, 0) == A() && NameAt(d, 2, 128) == F() && NameAt(d, 5, 128) == G()
  }

  /** Block b has one entry, for inode i. */
  ghost predicate Only(x: Sector, i: nat, name: Str) {
    var e := x.dirents;
    e[0].valid && e[0].inode == i && CStr(e[0].name) == name && forall r :: 1 <= r < 128 ==> !e[r].valid
  }

  ghost predicate Unused(x: Sector) { forall r :: 0 <= r < 128 ==> !x.dirents[r].valid }

  lemma ZeroUnused()
    ensures Unused(Read(ZeroBlock()))
  {
    forall r | 0 <= r < 128
      ensures !Read(ZeroBlock()).dirents[r].valid
    {
      ZeroReads(r);
    }
    hide Read;
  }

  lemma OneEntryReads(i: uint31, name: Str)
    requires 0 !in name && |name| <= 26
    ensures Only(Read(OneEntry(i, name)), i, name)
  {
    StoredNameReadsBack(seq(28, _ => 0), name);
    var e := Called(i, name);
    hide DecodeInode, DecodeDirent, PutDirent, StoreName, CStr, ZeroBlock;
    forall r: nat | r < 128
      ensures Read(OneEntry(i, name)).dirents[r] == if r == 0 then e else DecodeDirent(ZeroBlock(), r)
      ensures !DecodeDirent(ZeroBlock(), r).valid
    {
      PutThenGet(ZeroBlock(), 0, e, r);
      ZeroBlockEmpty(r);
    }
  }

  lemma SizesAre(d: Disk)
    requires Node(d, 2) == DirNode(3, 4) && Node(d, 5) == DirNode(6, 7)
    requires Node(d, 8) == FileNode(0, 0) && Node(d, 9) == FileNode(1, 10)
    ensures Sizes(d)
  {
    hide Node;
  }

  lemma EntriesAre(d: Disk)
    requires Sizes(d) && Only(At(d, 3), 5, A()) && Only(At(d, 4), 9, F()) && Unused(At(d, 6)) && Only(At(d, 7), 8, G())
    ensures Entries(d)
  {
    SizeParts(d);
    hide Sizes, At, Ptr, CStr, F;
    forall i: nat, k: nat | (i == 2 || i == 5) && k < 256
      ensures Ent(d, i, k).valid <==> Used(i, k)
    {
      assert k / 128 == 0 || k / 128 == 1;
    }
  }

  lemma SizeParts(d: Disk)
    requires Sizes(d)
    ensures Ptr(d, 2, 0) == 3 && Ptr(d, 2, 1) == 4 && Ptr(d, 5, 0) == 6 && Ptr(d, 5, 1) == 7
  {
    hide DirAt, NodeOk, Slots, Span, Ptr, Node;
  }

  lemma SmallReads()
    ensures var d := Small();
      && |d| == 18 && At(d, 0) == Read(Superblock(18)) && At(d, 1) == Read(Marked())
      && At(d, 2) == Read(EncodeInode(DirNode(3, 4))) && At(d, 3) == Read(OneEntry(5, A()))
      && At(d, 4) == Read(OneEntry(9, F())) && At(d, 5) == Read(EncodeInode(DirNode(6, 7)))
      && At(d, 6) == Read(ZeroBlock()) && At(d, 7) == Read(OneEntry(8, G()))
      && At(d, 8) == Read(EncodeInode(FileNode(0, 0))) && At(d, 9) == Read(EncodeInode(FileNode(1, 10)))
  {
    hide Read, OneEntry, EncodeInode, DirNode, FileNode, Marked, ZeroBlock, Superblock, F;
  }

  lemma NodeIs(d: Disk, i: nat, n: Inode)
    requires At(d, i) == Read(EncodeInode(n))
    ensures Node(d, i) == n
  {
    InodeRoundTrip(n);
    hide At, DecodeInode, EncodeInode, DecodeDirents;
  }

  lemma ShortNames()
    ensures 0 !in A() && 0 !in F() && 0 !in G() && |A()| == 1 && |F()| == 26 && |G()| == 1
    ensures GoodName(A()) && GoodName(F()) && GoodName(G()) && A() != F()
  {
    assert F()[0] == 102 && A()[0] == 97;
  }

  lemma SmallFacts()
    ensures Sizes(Small()) && Entries(Small())
  {
    ShortNames();
    OneEntryReads(5, A());
    OneEntryReads(9, F());
    OneEntryReads(8, G());
    ZeroUnused();
    SmallReads();
    hide *;
    var d := Small();
    NodeIs(d, 2, DirNode(3, 4));
    NodeIs(d, 5, DirNode(6, 7));
    NodeIs(d, 8, FileNode(0, 0));
    NodeIs(d, 9, FileNode(1, 10));
    SizesAre(d);
    EntriesAre(d);
  }

  // ---- the invariant holds ----

  lemma MarkedBits(j: nat)
    ensures Bit(Marked(), j) <==> j < 16
  {
    if j < 32768 {
      EndBytes();
      BitsOfByte(0);
      BitsOfByte(255);
      ByteMasks(j % 8, j % 8);
      AllOrNothing(Mask8(j % 8));
      hide And8, Mask8, ToBits, OfBits;
    }
  }

  lemma AllOrNothing(m: bv8)
    ensures And8(0, m) == 0 && And8(255, m) == m
  {}

  lemma InosAre(C: Cert)
    requires Roles(C)
    ensures forall i: nat :: Ino(C, i) <==> i == 2 || i == 5 || i == 8 || i == 9
    ensures forall b: nat :: IsEntry(C, b) <==> b == 5 || b == 8 || b == 9
    ensures forall b: nat :: IsData(C, b) <==> b == 3 || b == 4 || b == 6 || b == 7 || b == 10
  {}

  lemma BoundsAre(d: Disk, C: Cert)
    requires Roles(C) && Sizes(d) && |d| == 18
    ensures Bounds(d, C) && Nodes(d, C)
  {
    InosAre(C);
    hide DirAt, NodeOk, Slots, Span, Ptr, Node, Ino;
  }

  lemma DataAre(d: Disk, C: Cert)
    requires Roles(C) && Sizes(d)
    ensures Owns(d, C) && Owned(d, C)
  {
    InosAre(C);
    hide DirAt, NodeOk, Slots, Span, Ptr, Node, Ino, IsData;
  }

  lemma LiveAre(d: Disk, C: Cert)
    requires Roles(C) && Sizes(d) && Entries(d)
    ensures forall i: nat, k: nat :: Live(d, C, i, k) <==> Used(i, k)
  {
    InosAre(C);
    hide DirAt, NodeOk, Slots, Span, Ptr, Node, Ino, Roles, Ent, NameAt, F;
  }

  lemma LinksAre(d: Disk, C: Cert)
    requires Roles(C) && Sizes(d) && Entries(d)
    ensures Links(d, C) && Linked(d, C)
  {
    InosAre(C);
    LiveAre(d, C);
    hide Sizes, Live, Ent, IsEntry, NameAt, F;
  }

  lemma NamesAre(d: Disk, C: Cert)
    requires Roles(C) && Sizes(d) && Entries(d)
    ensures Names(d, C)
  {
    ShortNames();
    LiveAre(d, C);
    hide Sizes, Live, Ent, Roles, NameAt, F, GoodName;
  }

  /** The disk is a tree and every block in use is marked. */
  lemma Begins()
    ensures Inv(SmallFs(), SmallCert()) && FreeBlocks(SmallFs()) == {16, 17}
  {
    SmallFacts();
    SmallReads();
    RolesAre();
    forall j: nat
      ensures Bit(Marked(), j) <==> j < 16
    {
      MarkedBits(j);
    }
    BytesOfRead(Marked());
    BytesOfRead(Superblock(18));
    SuperblockReads();
    hide *;
    var d, C := Small(), SmallCert();
    BoundsAre(d, C);
    DataAre(d, C);
    LinksAre(d, C);
    NamesAre(d, C);
    MarkedIs(d, C);
  }

  lemma SuperblockReads()
    ensures Word(Superblock(18), 0) == FS_MAGIC && Word(Superblock(18), 4) == 18
  {
    hide Word;
  }

  lemma MarkedIs(d: Disk, C: Cert)
    requires Bounds(d, C) && Nodes(d, C) && Owns(d, C) && Owned(d, C) && Links(d, C) && Linked(d, C) && Names(d, C)
    requires Word(At(d, 0).bytes, 0) == FS_MAGIC && Word(At(d, 0).bytes, 4) == 18
    requires Roles(C) && |d| == 18 && forall j: nat :: Bit(At(d, 1).bytes, j) <==> j < 16
    ensures Inv(Remount(d), C) && FreeBlocks(Remount(d)) == {16, 17}
  {
    hide Word, Bounds, Nodes, Owns, Owned, Links, Linked, Names, Bit, At;
  }

  /** fs_init mounts it, as the class of the mounted file system asks. */
  lemma SmallMounts()
    ensures Safe(Sectors(SmallImage()), SmallCert()) && Init(Sectors(SmallImage())) == Some(SmallFs())
  {
    hide *;
    Begins();
    SmallIs();
    InvParts(SmallFs(), SmallCert());
    RemountKeeps(Small(), SmallCert());
  }

  lemma SmallIs()
    ensures Small() == Sectors(SmallImage()) && SmallFs() == Remount(Small()) && SmallFs().disk == Small()
  {
    hide SmallImage, Sectors;
  }

  // ---- what is found on it ----

  lemma WalkRoot(d: Disk)
    ensures Walk(d, []) == Ok(2)
  {}

  lemma EntryParts(d: Disk)
    requires Entries(d)
    ensures Ent(d, 2, 0).inode == 5 && Ent(d, 2, 128).inode == 9 && Ent(d, 5, 128).inode == 8
    ensures NameAt(d, 2, 0) == A() && NameAt(d, 2, 128) == F() && NameAt(d, 5, 128) == G()
    ensures Used(2, 0) && Used(2, 128) && Used(5, 128)
  {
    hide Ent, NameAt, F;
  }

  lemma Finds(d: Disk, C: Cert)
    requires Tree(d, C) && Roles(C) && Sizes(d) && Entries(d)
    ensures Find(d, 2, A(), 0) == Hit(0) && Find(d, 2, F(), 0) == Hit(128) && Find(d, 5, G(), 0) == Hit(128)
    ensures Walk(d, []) == Ok(2) && Walk(d, [A()]) == Ok(5) && Walk(d, [F()]) == Ok(9) && Walk(d, [A(), G()]) == Ok(8)
  {
    EntryParts(d);
    hide *;
    LiveAre(d, C);
    assert Live(d, C, 2, 0) && Live(d, C, 2, 128) && Live(d, C, 5, 128);
    StepFinds(d, C, 2, 0);
    StepFinds(d, C, 2, 128);
    StepFinds(d, C, 5, 128);
    WalkRoot(d);
    WalkOn(d, [], A());
    WalkOn(d, [], F());
    WalkOn(d, [A()], G());
    assert [] + [A()] == [A()] && [] + [F()] == [F()] && [A()] + [G()] == [A(), G()];
  }

  // ---- what calls do on it ----

  const UP: Str := [46, 46]

  /** A name of 27 bytes that is stored as F. */
  function Long(): (n: Str)
    ensures NewName(n) && |n| == 27 && Kept(n) == F()
  {
    var n: Str := seq(27, _ => 102);
    assert n[0] == 102 && n[..26] == F();
    n
  }

  /** The path of one component. */
  function InRoot(n: Str): (c: seq<Str>)
    requires Plain(n)
    ensures Resolve(c) == [n]
  {
    PathEnds([]);
    OneDown([], n);
    assert [] + [n] == [n];
    [n]
  }

  /** A/G/../n: translate goes up from A/G to the root instead of to A. */
  function Astray(n: Str): (c: seq<Str>)
    requires Plain(n)
    ensures Resolve(c) == [A(), n]
  {
    AstrayLands(n);
    [A(), G(), UP, n]
  }

  lemma SmallNames()
    ensures NewName(A()) && NewName(F()) && NewName(G()) && A() != F() && Kept(F()) == F() && |F()| == 26
  {
    assert F()[0] == 102 && A()[0] == 97;
  }

  lemma TraceDown(d: Disk, c: seq<Str>, n: Str, p: nat, t: seq<nat>, i: nat)
    requires Plain(n) && Trace(d, c) == On(p, t) && Step(d, p, n) == Ok(i)
    ensures Trace(d, c + [n]) == On(i, t + [p])
  {
    TraceOn(d, c, n);
    hide Trace, Step;
  }

  lemma TraceUp(d: Disk, c: seq<Str>, p: nat, t: seq<nat>)
    requires Trace(d, c) == On(p, t) && |t| >= 2
    ensures Trace(d, c + [UP]) == On(t[|t| - 2], Front(t))
  {
    TraceOn(d, c, UP);
    hide Trace, Step;
  }

  lemma AstrayLands(n: Str)
    requires Plain(n)
    ensures Resolve([A(), G(), UP, n]) == [A(), n] && !Faithful([A(), G(), UP, n])
  {
    assert Plain(A()) && Plain(G()) && Front([A(), G()]) == [A()];
    assert [A(), G()] + [UP] == [A(), G(), UP] && [A(), G(), UP] + [n] == [A(), G(), UP, n] &&
        [A()] + [n] == [A(), n] && [] + [n] == [n];
    hide *;
    TwoDown(A(), G());
    UpAgain([A(), G()], [A(), G()], [[], [A()]]);
    OneDown([A(), G(), UP], n);
    LandsRight([A(), G(), UP, n]);
  }

  lemma UpFacts()
    ensures Plain(A()) && Plain(G()) && ROOT == 2 && Front([2, 5]) == [2]
    ensures [] + [A()] == [A()] && [A()] + [G()] == [A(), G()] && [] + [2] == [2] && [2] + [5] == [2, 5]
  {}

  lemma UpGoes(d: Disk, C: Cert)
    requires Tree(d, C) && Roles(C) && Sizes(d) && Entries(d)
    ensures Trace(d, [A(), G()] + [UP]) == On(2, [2])
  {
    UpFacts();
    assert ROOT == 2;
    hide *;
    Finds(d, C);
    PathEnds(d);
    TraceDown(d, [], A(), 2, [], 5);
    TraceDown(d, [A()], G(), 5, [2], 8);
    TraceUp(d, [A(), G()], 8, [2, 5]);
  }

  /** translate takes A/G/../n for n. */
  lemma AstrayGoes(d: Disk, C: Cert, n: Str, i: nat)
    requires Tree(d, C) && Roles(C) && Sizes(d) && Entries(d) && Plain(n) && Step(d, 2, n) == Ok(i)
    ensures Translate(d, Astray(n)) == Ok(i)
  {
    AstrayIs(n);
    hide *;
    UpGoes(d, C);
    TraceDown(d, [A(), G()] + [UP], n, 2, [2], i);
    TranslateIs(d, Astray(n), i);
  }

  lemma AstrayIs(n: Str)
    requires Plain(n)
    ensures Astray(n) == [A(), G()] + [UP] + [n]
  {
    hide Resolve;
  }

  lemma TranslateIs(d: Disk, c: seq<Str>, i: nat)
    requires Trace(d, c).On? && Trace(d, c).inum == i
    ensures Translate(d, c) == Ok(i)
  {
    hide Trace;
  }

  lemma SmallTree()
    ensures var s, d, C := SmallFs(), Small(), SmallCert();
      s.disk == d && |d| == 18 && Inv(s, C) && Tree(d, C) && Roles(C) && Sizes(d) && Entries(d) &&
          FreeBlocks(s) == {16, 17}
  {
    hide Small, SmallCert, Sizes, Entries, Tree, FreeBlocks, At, Bit, Roles;
    Begins();
    SmallFacts();
    SmallReads();
    RolesAre();
  }

  lemma LongIs()
    ensures Plain(Long()) && NewName(Long()) && Kept(Long()) == F() && |Long()| == 27
  {}

  lemma LongMissing(d: Disk)
    requires Sizes(d) && Entries(d)
    ensures Step(d, 2, Long()).Fail?
  {
    assert |F()| == 26 && |A()| == 1;
    hide Ent, NameAt, F, Long, NodeOk, DirAt, Ptr, Span;
  }

  lemma RoomyRoot(d: Disk)
    requires Sizes(d) && Entries(d)
    ensures FreeSlot(d, 2, 0).Hit? && DirAt(d, 2)
  {
    hide Ent, NameAt, NodeOk, DirAt, Ptr, Span, F;
    assert !Used(2, 1) && !Ent(d, 2, 1).valid;
  }

  /** The root has room for a new entry of the name n. */
  lemma RoomFor(d: Disk, n: Str)
    requires Sizes(d) && Entries(d) && Step(d, 2, n).Fail?
    ensures DirFound(d, Front([n])) && Lookup(d, [n]) == None && Roomy(d, [n])
  {
    hide *;
    WalkRoot(d);
    RoomyRoot(d);
    OneName(n);
    WalkOn(d, [], n);
    DirFoundIs(d, []);
    DirFoundIs(d, [n]);
    ParentIs(d, [n]);
    RoomyIs(d, [n]);
  }

  lemma OneName(n: Str)
    ensures [] + [n] == [n] && Front([n]) == []
  {}

  lemma RoomyIs(d: Disk, r: Path)
    ensures Roomy(d, r) <==> FreeSlot(d, ParentOf(d, r), 0).Hit?
  {
    hide FreeSlot;
  }

  lemma TwoFree(s: Fs)
    requires FreeBlocks(s) == {16, 17}
    ensures |FreeBlocks(s)| == 2 && FreeBlocks(s) != {}
  {
    hide FreeBlocks;
  }

  /** A name of 27 bytes beside an entry of its first 26: create returns 0, the file is not found under its name, and
      two entries carry the same one. */
  lemma LongNameCreated(mode: nat, w: Caller)
    requires mode < 0x1_0000_0000 && IsReg(mode)
    ensures var s := SmallFs(); var o := Create(s, InRoot(Long()), mode, w);
      Inv(s, SmallCert()) && o.code == 0 && Lookup(After(s, o).disk, [Long()]) == None && !Mountable(After(s, o).disk)
  {
    LongIs();
    hide *;
    var s, C, n := SmallFs(), SmallCert(), Long();
    SmallTree();
    LongMissing(s.disk);
    RoomFor(s.disk, n);
    TwoFree(s);
    InRootIs(s.disk, n);
    CreateCodes(s, C, InRoot(n), mode, w);
    CreateFinds(s, C, InRoot(n), mode, w);
    CreateNeedsPlace(s, C, InRoot(n), mode, w);
    LongIsTaken(s.disk, C);
    NoneIfNotSome(After(s, Create(s, InRoot(n), mode, w)).disk, [n]);
  }

  lemma LongIsTaken(d: Disk, C: Cert)
    requires Tree(d, C) && Roles(C) && Sizes(d) && Entries(d)
    ensures !Stores(d, [Long()])
  {
    LongStored();
    hide *;
    Targets(d, C);
    StoresCut(d, [Long()]);
  }

  lemma LongStored()
    ensures Stored([Long()]) == [F()] && NameIn([Long()]) == Long() && |Long()| == 27
  {
    hide Kept, F, Long;
  }

  lemma StoresCut(d: Disk, r: Path)
    requires |NameIn(r)| > 26
    ensures Stores(d, r) <==> Lookup(d, Stored(r)) == None
  {
    hide Lookup, Stored;
  }

  lemma NoneIfNotSome(d: Disk, r: Path)
    ensures !Lookup(d, r).Some? ==> Lookup(d, r) == None
  {}

  /** So does mkdir. */
  lemma LongNameMade(mode: nat, w: Caller)
    requires mode < 0x1000
    ensures var s := SmallFs(); var o := Mkdir(s, InRoot(Long()), mode, w);
      Inv(s, SmallCert()) && o.code == 0 && Lookup(After(s, o).disk, [Long()]) == None && !Mountable(After(s, o).disk)
  {
    LongIs();
    hide *;
    var s, C, n := SmallFs(), SmallCert(), Long();
    SmallTree();
    LongMissing(s.disk);
    RoomFor(s.disk, n);
    TwoFree(s);
    InRootIs(s.disk, n);
    MkdirCodes(s, C, InRoot(n), mode, w);
    MkdirFinds(s, C, InRoot(n), mode, w);
    MkdirNeedsPlace(s, C, InRoot(n), mode, w);
    LongIsTaken(s.disk, C);
    NoneIfNotSome(After(s, Mkdir(s, InRoot(n), mode, w)).disk, [n]);
  }

  lemma InRootIs(d: Disk, n: Str)
    requires Plain(n)
    ensures InRoot(n) == [n] && Resolve(InRoot(n)) == [n] && Faithful(InRoot(n)) && Target(InRoot(n)) == [n]
    ensures Translate(d, InRoot(n)) == Walk(d, [n]) && Front([n]) == [] && NameIn([n]) == n
  {
    assert Front([n]) == [] && Canonical([n]);
    TranslateIsWalk(d, [n]);
    TargetIsResolved([n]);
    hide Translate, Walk, Resolve, Land;
  }

  lemma Targets(d: Disk, C: Cert)
    requires Tree(d, C) && Roles(C) && Sizes(d) && Entries(d)
    ensures DirFound(d, []) && DirFound(d, [A()]) && FileFound(d, [F()]) && FileFound(d, [A(), G()])
    ensures FirstBlockEmpty(d, 5)
    ensures Lookup(d, [A()]).Some? && Lookup(d, [F()]).Some? && Lookup(d, [A(), G()]).Some? && ParentOf(d, [A()]) == 2
  {
    assert Front([A()]) == [];
    EmptyFirst(d);
    SizedDirs(d);
    hide *;
    Finds(d, C);
    DirFoundIs(d, []);
    DirFoundIs(d, [A()]);
    DirFoundIs(d, [F()]);
    DirFoundIs(d, [A(), G()]);
    ParentIs(d, [A()]);
  }

  lemma SizedDirs(d: Disk)
    requires Sizes(d)
    ensures DirAt(d, 2) && DirAt(d, 5) && !DirAt(d, 8) && !DirAt(d, 9)
  {
    hide DirAt, NodeOk, Slots, Span, Ptr, Node;
  }

  lemma EmptyFirst(d: Disk)
    requires Entries(d)
    ensures FirstBlockEmpty(d, 5)
  {
    NoEntryBefore(d);
    forall r: nat | r < 128
      ensures !At(d, Ptr(d, 5, 0)).dirents[r].valid
    {
      FirstSlots(d, 5, r);
    }
    hide Entries, Ptr, Ent, At;
  }

  lemma NoEntryBefore(d: Disk)
    requires Entries(d)
    ensures forall r: nat :: r < 128 ==> !Ent(d, 5, r).valid
  {
    hide Ent, NameAt, F;
    forall r: nat | r < 128
      ensures !Ent(d, 5, r).valid
    {
      assert !Used(5, r);
    }
  }

  lemma FirstSlots(d: Disk, i: nat, r: nat)
    requires r < 128
    ensures Ent(d, i, r) == At(d, Ptr(d, i, 0)).dirents[r]
  {
    hide At, Ptr;
  }

  lemma RenamesA(n: Str)
    requires NewName(n) && Plain(A()) && n != A()
    requires Unseen(Small(), 2, A(), n) || Lookup(Small(), [n]) == None
    ensures Rename(SmallFs(), InRoot(A()), InRoot(n)).code == 0
  {
    assert Plain(n);
    hide *;
    var s, C := SmallFs(), SmallCert();
    SmallTree();
    Finds(s.disk, C);
    Targets(s.disk, C);
    InRootIs(s.disk, A());
    InRootIs(s.disk, n);
    DefinedBoth(s.disk, InRoot(A()), InRoot(n));
    RenameCodes(s, C, InRoot(A()), InRoot(n));
    RenameSaysIs(s.disk, [A()], [n], Rename(s, InRoot(A()), InRoot(n)).code);
  }

  lemma UnseenF(d: Disk, C: Cert)
    requires Tree(d, C) && Roles(C) && Sizes(d) && Entries(d)
    ensures Unseen(d, 2, A(), F())
  {
    Finds(d, C);
    hide Tree, Roles, Sizes, Entries, Find, Walk;
  }

  /** A destination in a later block of the directory than the source: rename returns 0 and two entries carry its
      name. */
  lemma RenamedOverUnseen()
    ensures var s := SmallFs(); var o := Rename(s, InRoot(A()), InRoot(F()));
      Inv(s, SmallCert()) && Lookup(s.disk, [F()]).Some? && o.code == 0 && !Mountable(After(s, o).disk)
  {
    SmallNames();
    assert Plain(A());
    hide *;
    var s, C := SmallFs(), SmallCert();
    SmallTree();
    Targets(s.disk, C);
    UnseenF(s.disk, C);
    InRootIs(s.disk, A());
    InRootIs(s.disk, F());
    RenamesA(F());
    RenameSeesDestination(s, C, InRoot(A()), InRoot(F()));
  }

  /** A destination of 27 bytes whose first 26 are taken: the scan does not find it, and two entries carry one name. */
  lemma RenamedOverCut()
    ensures var s := SmallFs(); var o := Rename(s, InRoot(A()), InRoot(Long()));
      Inv(s, SmallCert()) && o.code == 0 && !Mountable(After(s, o).disk)
  {
    SmallNames();
    LongIs();
    assert Plain(A());
    hide *;
    var s, C, n := SmallFs(), SmallCert(), Long();
    SmallTree();
    LongMissing(s.disk);
    RoomFor(s.disk, n);
    InRootIs(s.disk, A());
    InRootIs(s.disk, n);
    RenamesA(n);
    RenameNeedsPlace(s, C, InRoot(A()), InRoot(n));
    CutNotReceived(s.disk, C);
  }

  lemma CutNotReceived(d: Disk, C: Cert)
    requires Tree(d, C) && Roles(C) && Sizes(d) && Entries(d)
    ensures !Receives(d, [A()], [Long()])
  {
    LongStored();
    assert F()[0] == 102 && A()[0] == 97 && [F()][0] != [A()][0];
    hide *;
    Targets(d, C);
    ReceivesIs(d, [A()], [Long()]);
  }

  lemma ReceivesIs(d: Disk, rs: Path, rd: Path)
    ensures Receives(d, rs, rd) <==> Stored(rd) == rs || Lookup(d, Stored(rd)) == None
  {
    hide Lookup, Stored;
  }

  /** unlink of A/G/../F returns 0: F is still found and its block is free. */
  lemma UnlinkAstray()
    ensures var s := SmallFs(); var o := Unlink(s, Astray(F()));
      Inv(s, SmallCert()) && o.code == 0 && !Mountable(After(s, o).disk)
  {
    SmallNames();
    assert Front([A(), F()]) == [A()];
    hide *;
    var s, C, c := SmallFs(), SmallCert(), Astray(F());
    SmallTree();
    SizedDirs(s.disk);
    Finds(s.disk, C);
    AstrayGoes(s.disk, C, F(), 9);
    AstrayWrong(F());
    UnlinkShape(s, c);
    DetachCode(s, 5, Last(Resolve(c)), ClearBit(ClearAll(s.bitmap, Table(s.disk, 9)), 9));
    UnlinkNeedsFaithful(s, C, c);
  }

  /** So does rmdir of A/G/../A. */
  lemma RmdirAstray()
    ensures var s := SmallFs(); var o := Rmdir(s, Astray(A()));
      Inv(s, SmallCert()) && o.code == 0 && !Mountable(After(s, o).disk)
  {
    SmallNames();
    assert Front([A(), A()]) == [A()];
    hide *;
    var s, C, c := SmallFs(), SmallCert(), Astray(A());
    SmallTree();
    SizedDirs(s.disk);
    EmptyFirst(s.disk);
    Finds(s.disk, C);
    AstrayGoes(s.disk, C, A(), 5);
    AstrayWrong(A());
    RmdirShape(s, c);
    DetachCode(s, 5, Last(Resolve(c)), ClearBit(ClearBit(s.bitmap, Ptr(s.disk, 5, 0)), 5));
    RmdirNeedsFaithful(s, C, c);
  }

  lemma AstrayWrong(n: Str)
    requires Plain(n)
    ensures !Faithful(Astray(n)) && Resolve(Astray(n)) == [A(), n]
  {
    AstrayLands(n);
    hide Faithful, Resolve;
  }

  /** Not only r but also the object n below it is gone. */
  ghost predicate LosesBelow(d: Disk, e: Disk, r: Path, n: Str) {
    !Removed(d, e, r) && Lookup(d, r + [n]).Some? && Lookup(e, r + [n]) == None
  }

  lemma RmdirWorks(s: Fs, C: Cert, c: seq<Str>)
    requires s == SmallFs() && C == SmallCert() && c == InRoot(A())
    ensures Resolve(c) == [A()] && Faithful(c) && Rmdir(s, c).code == 0 && Translate(s.disk, c) == Ok(5)
    ensures !AllEmpty(s.disk, 5) && Lookup(s.disk, [A(), G()]).Some?
  {
    SmallNames();
    assert Plain(A());
    hide *;
    SmallTree();
    Finds(s.disk, C);
    Targets(s.disk, C);
    InRootIs(s.disk, A());
    RmdirCodes(s, C, c);
    NotAllEmpty(s.disk);
  }

  /** rmdir of A, whose first block is empty, returns 0, and the file in its second block is lost. */
  lemma RmdirLosesFile()
    ensures Inv(SmallFs(), SmallCert())
    ensures var s := SmallFs(); var o := Rmdir(s, InRoot(A()));
      o.code == 0 && Mountable(After(s, o).disk) && LosesBelow(s.disk, After(s, o).disk, [A()], G())
  {
    hide *;
    GInA();
    var s, C, c := SmallFs(), SmallCert(), InRoot(A());
    SmallTree();
    RmdirWorks(s, C, c);
    DefinedBelow(s.disk, c);
    RmdirNeedsEmpty(s, C, c);
    RmdirNeedsFaithful(s, C, c);
    var D, L, n := RmdirKeeps(s, C, c);
    DropsBelow(s, C, Rmdir(s, c), D, L, [A()], n);
    LosesIs(s.disk, After(s, Rmdir(s, c)).disk, [A()], G());
  }

  lemma GInA()
    ensures Plain(A()) && [A()] <= [A()] + [G()] == [A(), G()]
  {}

  /** With it go its inode and the second block of A: neither in use nor free. */
  lemma RmdirLosesBlocks()
    ensures Lost(SmallFs(), RmdirCall(InRoot(A()))) == {7, 8}
  {
    SmallNames();
    assert Plain(A());
    hide *;
    var s, C, c := SmallFs(), SmallCert(), InRoot(A());
    SmallTree();
    RmdirWorks(s, C, c);
    DefinedBelow(s.disk, c);
    RmdirFails(s, c);
    CountsAre(s, RmdirCall(c));
    RmdirLosesIs(s.disk, c);
    BeneathA(s.disk, C);
    RmdirBlocksAre(s.disk);
  }

  lemma BeneathA(d: Disk, C: Cert)
    requires Tree(d, C) && Roles(C) && Sizes(d) && Entries(d)
    ensures Beneath(d, [A()]) == {5, 6, 7, 8} && Ptr(d, 5, 0) == 6
  {
    InosAre(C);
    hide *;
    Finds(d, C);
    BeneathIs(d, C, 5, [A()]);
    SizeParts(d);
    LeavingA(d, C);
  }

  lemma RmdirBlocksAre(d: Disk)
    requires Ptr(d, 5, 0) == 6
    ensures {5, 6, 7, 8} - RmdirBlocks(d, 5) == {7, 8}
  {
    hide Ptr;
  }

  lemma LeavingA(d: Disk, C: Cert)
    requires Tree(d, C) && Roles(C) && Sizes(d) && Entries(d) && Ino(C, 5)
    ensures Leaving(d, C, 5) == {5, 6, 7, 8}
  {
    hide *;
    SubtreeA(d, C);
    LeavingAre(d, C, 5);
    BelowA(C, Leaving(d, C, 5), Subtree(d, C, 5));
  }

  lemma SubtreeA(d: Disk, C: Cert)
    requires Tree(d, C) && Roles(C) && Sizes(d) && Entries(d) && Ino(C, 5)
    ensures Subtree(d, C, 5) == {5, 8}
  {
    InosAre(C);
    hide *;
    PathsAre(d, C);
    SubtreeHas(d, C, 5);
    SubtreeInos(d, C, 5);
  }

  lemma BelowA(C: Cert, B: set<nat>, U: set<nat>)
    requires Roles(C) && U == {5, 8}
    requires forall b :: b in B <==> b in C && (if Ino(C, b) then b in U else C[b].owner in U)
    ensures B == {5, 6, 7, 8}
  {
    InosAre(C);
    forall b
      ensures b in B <==> b == 5 || b == 6 || b == 7 || b == 8
    {
      if b in C && !Ino(C, b) { assert C[b].Data?; }
    }
    hide Ino;
  }

  lemma SubtreeInos(d: Disk, C: Cert, c: nat)
    requires Tree(d, C) && Ino(C, c)
    ensures forall j :: j in Subtree(d, C, c) ==> Ino(C, j)
  {
    hide Tree, PathOf;
  }

  lemma PathsAre(d: Disk, C: Cert)
    requires Tree(d, C) && Roles(C) && Sizes(d) && Entries(d)
    ensures Ino(C, 2) && Ino(C, 5) && Ino(C, 8) && Ino(C, 9)
    ensures var r := PathOf(d, C, 5);
      r <= PathOf(d, C, 5) && r <= PathOf(d, C, 8) && !(r <= PathOf(d, C, 2)) && !(r <= PathOf(d, C, 9))
  {
    ShortNames();
    assert [F()][0] != [A()][0] && [A()] <= [A(), G()];
    hide *;
    Finds(d, C);
    WalkIsPath(d, C, []);
    WalkIsPath(d, C, [A()]);
    WalkIsPath(d, C, [F()]);
    WalkIsPath(d, C, [A(), G()]);
  }

  lemma LosesIs(d: Disk, e: Disk, r: Path, n: Str)
    ensures LosesBelow(d, e, r, n) <==> !Removed(d, e, r) && Lookup(d, r + [n]).Some? && Lookup(e, r + [n]) == None
  {
    hide Removed, Lookup;
  }

  lemma NotAllEmpty(d: Disk)
    requires Sizes(d) && Entries(d)
    ensures !AllEmpty(d, 5)
  {
    hide DirAt, NodeOk, Span, Node, NameAt, F, Ptr;
    assert Used(5, 128) && Ent(d, 5, 128).valid;
  }

  lemma DropsBelow(s: Fs, C: Cert, o: Outcome, D: Cert, L: set<nat>, r: Path, n: nat)
    requires RemoveResult(s, C, o, D, L, r, n) && o.code == 0
    ensures forall q: Path :: r <= q ==> Lookup(After(s, o).disk, q) == None
  {
    hide Loses, Lookup, After;
  }

  // ---- writes ----

  lemma PlainIsFaithful(c: seq<Str>)
    requires Canonical(c)
    ensures Faithful(c)
  {
    ShallowIsFaithful(c);
    hide Resolve, Faithful;
  }

  lemma PathAG(d: Disk, C: Cert)
    requires Tree(d, C) && Roles(C) && Sizes(d) && Entries(d)
    ensures Translate(d, [A(), G()]) == Ok(8) && Target([A(), G()]) == [A(), G()]
  {
    assert Canonical([A(), G()]);
    hide *;
    Finds(d, C);
    TranslateIsWalk(d, [A(), G()]);
    ResolveCanonical([A(), G()]);
    PlainIsFaithful([A(), G()]);
    TargetIsResolved([A(), G()]);
  }

  /** One byte written to the empty file G: the disk after the inode and before the bitmap cannot be mounted. */
  lemma WriteTorn(now: nat)
    ensures var s, a := SmallFs(), WriteCall([A(), G()], [65], 0, now);
      Inv(s, SmallCert()) && Asks(s, a) && |Do(s, a).writes| == 3 && !Mountable(Apply(s.disk, Do(s, a).writes[..2]))
  {
    SmallNames();
    hide *;
    var s, C, a := SmallFs(), SmallCert(), WriteCall([A(), G()], [65], 0, now);
    SmallTree();
    Finds(s.disk, C);
    PathAG(s.disk, C);
    SizedDirs(s.disk);
    OneByte(s.disk);
    TwoFree(s);
    InvParts(s, C);
    TargetIs(s.disk, [A(), G()]);
    WritesAsk(s, C, a);
    CanWriteIs(s, 8, 0, 1);
    DoIs(s, a);
    WriteFileShape(s, [A(), G()], [65], 0, now);
    TargetWalks(s.disk, C, [A(), G()]);
    WriteAtShape(s, C, 8, [65], 0, now);
    ThreeWrites(s, 8, 65, now);
    TornIs(s, a, 2);
    CutWrite(s, C, a, 2);
  }

  lemma ThreeWrites(s: Fs, i: nat, b: byte, now: nat)
    requires Blocks(1) > Span(s.disk, i)
    ensures |WriteList(s, i, [b], 0, now)| == 3
  {
    var x := Written(Node(s.disk, i), NewBlocks(s, i, 0, 1).blocks, 1, now);
    hide Written, ChunkWrite, InodeSector, Flush, NewBlocks, Blocks;
    assert |DataWrites(s.disk, x.ptrs, 0, [b])| == 1;
  }

  /** Nothing written at the start of F, which has a block: the write ends in an earlier block than the file, fails for
      want of space and uses up every free block until the next mount. */
  lemma WriteUsesUp(now: nat)
    ensures var s := SmallFs(); var o := WriteFile(s, InRoot(F()), [], 0, now);
      Inv(s, SmallCert()) && o.code == ENOSPC && FreeBlocks(s) == {16, 17} && FreeBlocks(After(s, o)) == {}
  {
    SmallNames();
    hide *;
    var s, C, c := SmallFs(), SmallCert(), InRoot(F());
    SmallTree();
    Finds(s.disk, C);
    Targets(s.disk, C);
    InRootIs(s.disk, F());
    OneByte(s.disk);
    WriteCodes(s, C, c, [], 0, now);
    TargetIs(s.disk, c);
    BoundedOnSmallDisks(s, C, c, 0, 0);
    var D := WriteKeeps(s, C, c, [], 0, now);
    var o := WriteFile(s, c, [], 0, now);
    FullParts(s, C, o, D, Target(c), WrittenObj(s.disk, 9, 0, [], now), |NewBlocks(s, 9, 0, 0).blocks|);
    FreeAfter(s, C, After(s, o), FreeBlocks(s));
  }

  /** Then statfs reports 2 to the 64 less 2 free blocks. */
  lemma StatfsWraps(now: nat)
    ensures var s := SmallFs(); var e := After(s, WriteFile(s, InRoot(F()), [], 0, now));
      Inv(e, SmallCert()) && Statfs(e).bfree == 0xFFFF_FFFF_FFFF_FFFE
  {
    SmallNames();
    hide *;
    var s, C, c := SmallFs(), SmallCert(), InRoot(F());
    var o := WriteFile(s, c, [], 0, now);
    WriteUsesUp(now);
    SmallTree();
    BoundedOnSmallDisks(s, C, c, 0, 0);
    var D := WriteKeeps(s, C, c, [], 0, now);
    FullParts(s, C, o, D, Target(c), WrittenObj(s.disk, TargetOf(s.disk, c), 0, [], now),
              |NewBlocks(s, TargetOf(s.disk, c), 0, 0).blocks|);
    StatfsReports(After(s, o), C);
  }

  lemma FullParts(s: Fs, C: Cert, o: Outcome, D: Cert, r: Path, obj: Obj, more: nat)
    requires WriteResult(s, C, o, D, r, obj, more) && o.code == ENOSPC
    ensures D == C && Loses(s.bitmap, C, After(s, o).bitmap, D, FreeBlocks(s)) && |After(s, o).disk| == |s.disk|
  {
    assert ENOSPC < 0;
    hide Loses, FreeBlocks, Clean, Replaced;
  }

  lemma OneByte(d: Disk)
    requires Sizes(d)
    ensures Node(d, 9).size == 1 && Node(d, 8).size == 0 && Span(d, 8) == 0 && Blocks(0) == 0 && Blocks(1) == 1
  {
    hide DirAt, NodeOk, Slots, Span, Ptr, Node;
  }
}
