/** One small image in literal bytes, as a hex dump of the image file would show it, and what the file system says of
    it: nothing here is written by the functions that encode inodes and entries. */
module Literal {
  import opened Words
  import opened Format
  import opened Bits
  import opened Image
  import opened Paths
  import opened Keep
  import opened Writing
  import opened Crashes
  import opened Viewing
  import opened Device

  // ---- the image ----

  /** These bytes, and zeros behind them. */
  function Padded(head: Str): (b: Block)
    requires |head| <= 4096
    ensures forall x :: 0 <= x < 4096 ==> b[x] == if x < |head| then head[x] else 0
  { head + seq(4096 - |head|, _ => 0) }

  /** The root, inode 2: mode 40755, both times 946684800, 4096 bytes in block 3. */
  function RootBytes(): (b: Str)
    ensures |b| == 24
  { [0, 0, 0, 0, 0xED, 0x41, 0, 0, 0x80, 0x43, 0x6D, 0x38, 0x80, 0x43, 0x6D, 0x38, 0, 0x10, 0, 0, 3, 0, 0, 0] }

  /** Inode 5: user 500, group 100, mode 100644, two bytes in block 4, changed one second later. */
  function FileBytes(): (b: Str)
    ensures |b| == 24
  { [0xF4, 1, 100, 0, 0xA4, 0x81, 0, 0, 0x80, 0x43, 0x6D, 0x38, 0x81, 0x43, 0x6D, 0x38, 2, 0, 0, 0, 4, 0, 0, 0] }

  /** A valid entry for inode 5 with the name a. */
  function EntryBytes(): (b: Str)
    ensures |b| == 5
  { [0x0B, 0, 0, 0, 97] }

  /** Seven blocks, of which the last is free. */
  function TinyImage(): seq<Block> {
    [Padded([0x35, 0x36, 0x30, 0x30, 7, 0, 0, 0]), Padded([0x3F]), Padded(RootBytes()), Padded(EntryBytes()),
     Padded([90, 91]), Padded(FileBytes()), Padded([])]
  }

  function Tiny(): Disk { Sectors(TinyImage()) }

  function TinyCert(): Cert { map[2 := Root, 3 := Data(2, 0), 4 := Data(5, 0), 5 := Entry(2, 0, 1)] }

  // ---- how it is read ----

  function RootNode(): Inode { Inode(0, 0, 0x41ed, 946684800, 946684800, 4096, NoPtrs()[0 := 3]) }

  function FileNode(): Inode { Inode(500, 100, 0x81a4, 946684800, 946684801, 2, NoPtrs()[0 := 4]) }

  lemma OnePointer(b: Block, p: uint32)
    requires FourBytes(b, 20) == p && forall x :: 24 <= x < 4096 ==> b[x] == 0
    ensures TableAt(b, NoPtrs()[0 := p])
  {
    var t := NoPtrs()[0 := p];
    forall k | 0 <= k < 1019
      ensures PointerAt(b, t, k)
    {
      if k > 0 {
        var o := 20 + 4 * k;
        assert b[o] == 0 && b[o + 1] == 0 && b[o + 2] == 0 && b[o + 3] == 0;
      }
    }
  }

  lemma NodesRead()
    ensures DecodeInode(Padded(RootBytes())) == RootNode() && DecodeInode(Padded(FileBytes())) == FileNode()
  {
    var b, c := Padded(RootBytes()), Padded(FileBytes());
    assert FieldsAt(b, RootNode());
    assert FieldsAt(c, FileNode());
    OnePointer(b, 3);
    OnePointer(c, 4);
    hide DecodeInode, Padded, FieldsAt, TableAt;
    InodeReads(b, RootNode());
    InodeReads(c, FileNode());
  }

  function NameA(): NameField { [97] + seq(27, _ => 0) }

  lemma EntryBytesRead(r: nat)
    requires r < 128
    ensures DecodeDirent(Padded(EntryBytes()), r) == if r == 0 then Dirent(true, 5, NameA()) else
        Dirent(false, 0, seq(28, _ => 0))
  {
    var b, e := Padded(EntryBytes()), if r == 0 then Dirent(true, 5, NameA()) else Dirent(false, 0, seq(28, _ => 0));
    var o := 32 * r;
    assert b[o + 4..o + 32] == e.name;
    hide DecodeDirent;
    EntryReads(b, r, e);
  }

  lemma NameRead()
    ensures CStr(NameA()) == [97]
  {
    CStrIsPrefix(NameA(), [97]);
  }

  lemma MarksRead(j: nat)
    ensures Bit(Padded([0x3F]), j) <==> j < 6
  {
    var b := Padded([0x3F]);
    hide Bit, Padded, BinaryDigit;
    BitsEnd(b, j);
    if j < 32768 {
      BitAt(b, j);
      SixOnes(j % 8);
      DigitsEnd(0, 0, j % 8);
    }
  }

  lemma SixOnes(k: nat)
    ensures BinaryDigit(0x3F, k) == if k < 6 then 1 else 0
  {
    Ones(6, k);
    assert Weight(6) == 64;
  }

  lemma BitsEnd(m: Block, j: nat)
    ensures j >= 32768 ==> !Bit(m, j)
  {}

  lemma {:induction false} Ones(n: nat, k: nat)
    ensures BinaryDigit(Weight(n) - 1, k) == if k < n then 1 else 0
    decreases n
  {
    if n == 0 {
      DigitsEnd(0, 0, k);
    } else if k > 0 {
      assert (Weight(n) - 1) / 2 == Weight(n - 1) - 1;
      Ones(n - 1, k - 1);
    }
  }

  // ---- the tree ----

  ghost predicate TinyHolds(d: Disk) {
    && |d| == 7 && Node(d, 2) == RootNode() && Node(d, 5) == FileNode() && At(d, 4).bytes[..2] == [90, 91]
    && At(d, 3).dirents[0] == Dirent(true, 5, NameA()) && (forall r :: 1 <= r < 128 ==> !At(d, 3).dirents[r].valid)
    && (forall j: nat :: Bit(At(d, 1).bytes, j) <==> j < 6)
    && At(d, 0).bytes[..4] == [0x35, 0x36, 0x30, 0x30] && FourBytes(At(d, 0).bytes, 4) == 7
  }

  lemma TinyReads()
    ensures var d := Tiny();
      && |d| == 7 && At(d, 0) == Read(Padded([0x35, 0x36, 0x30, 0x30, 7, 0, 0, 0])) && At(d, 1) == Read(Padded([0x3F]))
      && At(d, 2) == Read(Padded(RootBytes())) && At(d, 3) == Read(Padded(EntryBytes()))
      && At(d, 4) == Read(Padded([90, 91])) && At(d, 5) == Read(Padded(FileBytes()))
  {
    hide Read, Padded;
  }

  lemma SectorParts(x: Sector, b: Block)
    requires x == Read(b)
    ensures x.bytes == b && x.inode == DecodeInode(b) && forall r: nat :: r < 128 ==> x.dirents[r] == DecodeDirent(b, r)
  {
    hide DecodeInode, DecodeDirent;
  }

  lemma HeadRead()
    ensures var b := Padded([0x35, 0x36, 0x30, 0x30, 7, 0, 0, 0]);
      b[..4] == [0x35, 0x36, 0x30, 0x30] && FourBytes(b, 4) == 7
    ensures Padded([90, 91])[..2] == [90, 91]
  {}

  lemma AreHeld(d: Disk)
    requires |d| == 7 && At(d, 2).inode == RootNode() && At(d, 5).inode == FileNode() && At(d, 4).bytes[..2] == [90, 91]
    requires forall r: nat :: r < 128 ==>
      At(d, 3).dirents[r] == if r == 0 then Dirent(true, 5, NameA()) else Dirent(false, 0, seq(28, _ => 0))
    requires forall j: nat :: Bit(At(d, 1).bytes, j) <==> j < 6
    requires At(d, 0).bytes[..4] == [0x35, 0x36, 0x30, 0x30] && FourBytes(At(d, 0).bytes, 4) == 7
    ensures TinyHolds(d)
  {
    hide Bit, At, RootNode, FileNode, NameA, FourBytes;
  }

  lemma TinyIs()
    ensures TinyHolds(Tiny())
  {
    hide *;
    var d := Tiny();
    TinyReads();
    HeadRead();
    NodesRead();
    SectorParts(At(d, 0), Padded([0x35, 0x36, 0x30, 0x30, 7, 0, 0, 0]));
    SectorParts(At(d, 1), Padded([0x3F]));
    SectorParts(At(d, 2), Padded(RootBytes()));
    SectorParts(At(d, 3), Padded(EntryBytes()));
    SectorParts(At(d, 4), Padded([90, 91]));
    SectorParts(At(d, 5), Padded(FileBytes()));
    forall r: nat | r < 128
      ensures At(d, 3).dirents[r] == if r == 0 then Dirent(true, 5, NameA()) else Dirent(false, 0, seq(28, _ => 0))
    {
      EntryBytesRead(r);
    }
    forall j: nat
      ensures Bit(At(d, 1).bytes, j) <==> j < 6
    {
      MarksRead(j);
    }
    AreHeld(d);
  }

  /** What the tree is made of. */
  ghost predicate TinySizes(d: Disk) {
    && DirAt(d, 2) && !DirAt(d, 5) && NodeOk(d, 2) && NodeOk(d, 5) && Slots(d, 2) == 128
    && Span(d, 2) == 1 && Span(d, 5) == 1 && Ptr(d, 2, 0) == 3 && Ptr(d, 5, 0) == 4
    && (forall k: nat :: k < 128 ==> (Ent(d, 2, k).valid <==> k == 0)) && Ent(d, 2, 0).inode == 5
    && NameAt(d, 2, 0) == [97]
  }

  lemma SizesAre(d: Disk)
    requires TinyHolds(d)
    ensures TinySizes(d)
  {
    NameRead();
    hide At, Bit, CStr, NameA;
  }

  ghost predicate TinyRoles(C: Cert) {
    (forall b: nat :: b in C <==> 2 <= b <= 5) && C[2] == Root && C[3] == Data(2, 0) && C[4] == Data(5, 0) &&
        C[5] == Entry(2, 0, 1)
  }

  lemma TinyTree(d: Disk, C: Cert)
    requires TinySizes(d) && TinyRoles(C) && |d| == 7
    ensures Tree(d, C)
  {
    hide DirAt, NodeOk, Slots, Span, Ptr, Ent, NameAt;
    assert forall i: nat :: Ino(C, i) <==> i == 2 || i == 5;
    assert forall i: nat, k: nat :: Live(d, C, i, k) <==> i == 2 && k == 0;
    assert Links(d, C) && Linked(d, C);
    assert Owns(d, C) && Owned(d, C);
  }

  lemma TinySafe()
    ensures Safe(Tiny(), TinyCert()) && Init(Tiny()).Some? && FreeBlocks(Init(Tiny()).value) == {6}
  {
    var d, C := Tiny(), TinyCert();
    assert TinyRoles(C);
    hide *;
    TinyIs();
    SizesAre(d);
    TinySize(d);
    InitReads(d);
    InitHeads(d);
    TinyTree(d, C);
    TinyMarks(d, C);
  }

  lemma TinySize(d: Disk)
    requires TinyHolds(d)
    ensures var b := At(d, 0).bytes;
      |d| == 7 && b[0] == 0x35 && b[1] == 0x36 && b[2] == 0x30 && b[3] == 0x30 && FourBytes(b, 4) == |d|
  {
    var b := At(d, 0).bytes;
    assert b[0] == b[..4][0] && b[1] == b[..4][1] && b[2] == b[..4][2] && b[3] == b[..4][3];
    hide Bit, At, Node, FourBytes;
  }

  lemma TinyMarks(d: Disk, C: Cert)
    requires TinyHolds(d) && TinyRoles(C) && Tree(d, C) && Headed(d)
    ensures Safe(d, C) && (Init(d).Some? ==> FreeBlocks(Init(d).value) == {6})
  {
    hide Tree, Headed, Bit, At, Node, FourBytes;
  }

  lemma InitHeads(d: Disk)
    ensures Init(d).Some? <==> Headed(d)
  {
    hide Headed;
  }

  // ---- what is seen on it ----

  lemma TinyFinds(d: Disk, C: Cert)
    requires Tree(d, C) && TinySizes(d) && TinyRoles(C)
    ensures Walk(d, []) == Ok(2) && Walk(d, [[97]]) == Ok(5) && Walk(d, [[98]]) == Fail(-2)
    ensures Walk(d, [[97], [120]]) == Fail(-20)
  {
    var a, b, c: Path := [[97]], [[98]], [[97], [120]];
    assert Front(a) == [] && Front(b) == [] && Front(c) == a;
    assert Live(d, C, 2, 0) by { hide DirAt, NodeOk, Slots, Span, Ptr, Ent, NameAt; }
    StepFinds(d, C, 2, 0);
    hide Tree, NodeOk, Span, Ptr, Ent, NameAt, Slots, DirAt;
    assert Find(d, 2, [98], 0).Miss?;
  }

  /** A file a of two bytes is found, with every field of its inode; nothing else is. */
  lemma TinyShows()
    ensures var d := Tiny();
      var st := Stat(500, 100, 0x81a4, 2, 1, 946684801, 946684801, 946684800, 1);
      && Getattr(d, [[97]]) == Good(st) && Readdir(d, []) == Good([Listed([97], st)])
      && ReadFile(d, [[97]], 10, 0) == Good([90, 91]) && ReadFile(d, [[97]], 10, 1) == Good([91])
      && Getattr(d, []) == Good(Stat(0, 0, 0x41ed, 4096, 1, 946684800, 946684800, 946684800, 1))
      && Getattr(d, [[98]]) == Bad(-2) && Getattr(d, [[97], [120]]) == Bad(-20)
  {
    hide *;
    var d, C := Tiny(), TinyCert();
    TinySafe();
    TinyIs();
    SizesAre(d);
    TinyCertIs();
    SafeTree(d, C);
    TinyFinds(d, C);
    TinyPlain();
    TranslateIsWalk(d, []);
    TranslateIsWalk(d, [[97]]);
    TranslateIsWalk(d, [[98]]);
    TranslateIsWalk(d, [[97], [120]]);
    GetattrIs(d, []);
    GetattrIs(d, [[97]]);
    GetattrIs(d, [[98]]);
    GetattrIs(d, [[97], [120]]);
    ReaddirShape(d, []);
    ReadFileShape(d, [[97]], 10, 0);
    ReadFileShape(d, [[97]], 10, 1);
    TinyStats(d);
    TinyListing(d);
    TinyContent(d);
  }

  lemma TinyCertIs()
    ensures TinyRoles(TinyCert())
  {}

  lemma SafeTree(d: Disk, C: Cert)
    requires Safe(d, C)
    ensures Tree(d, C)
  {
    hide Tree;
  }

  lemma TinyPlain()
    ensures Canonical([]) && Canonical([[97]]) && Canonical([[98]]) && Canonical([[97], [120]])
  {}

  lemma TinyStats(d: Disk)
    requires TinyHolds(d)
    ensures StatOf(Node(d, 5)) == Stat(500, 100, 0x81a4, 2, 1, 946684801, 946684801, 946684800, 1)
    ensures StatOf(Node(d, 2)) == Stat(0, 0, 0x41ed, 4096, 1, 946684800, 946684800, 946684800, 1)
    ensures DirAt(d, 2) && IsReg(Node(d, 5).mode)
  {
    hide At, Bit, CStr, NameA, FourBytes;
  }

  lemma TinyListing(d: Disk)
    requires TinySizes(d)
    ensures Listing(d, 2, 0) == [Listed([97], StatOf(Node(d, 5)))]
  {
    var ks := ListingInOrder(d, 2, 0);
    hide Node, DirAt, NodeOk, Slots, Span, Ptr, Ent, NameAt, StatOf, Listing;
    assert 0 in ks;
    forall l: nat
      ensures l in ks <==> l == 0
    {}
    OnlyZero(ks);
  }

  lemma OnlyZero(ks: seq<nat>)
    requires forall l: nat :: l in ks <==> l == 0
    requires |ks| > 1 ==> ks[0] < ks[1]
    ensures ks == [0]
  {
    assert 0 in ks;
    assert forall a :: 0 <= a < |ks| ==> ks[a] in ks;
  }

  lemma TinyContent(d: Disk)
    requires TinyHolds(d)
    ensures Slice(Content(d, 5), 0, 10) == [90, 91] && Slice(Content(d, 5), 1, 10) == [91]
  {
    hide At, Bit, CStr, NameA, FourBytes;
    assert Ptr(d, 5, 0) == 4;
    var b := At(d, 4).bytes;
    assert b[0] == b[..2][0] && b[1] == b[..2][1];
    assert Content(d, 5) == [90, 91];
  }

  // ---- refused ----

  /** fs_init refuses the image when block 0 is zero, and when it names another size. */
  lemma Refused()
    ensures Init(Tiny()).Some? && Init(Sectors(TinyImage()[0 := Padded([])])) == None
    ensures Init(Sectors(TinyImage()[0 := Padded([0x35, 0x36, 0x30, 0x30, 8, 0, 0, 0])])) == None
  {
    var b, c := Padded([]), Padded([0x35, 0x36, 0x30, 0x30, 8, 0, 0, 0]);
    assert b[0] == 0 && FourBytes(c, 4) == 8;
    hide Padded, FourBytes;
    OtherHead(b);
    OtherHead(c);
    hide *;
    TinySafe();
    InitReads(Sectors(TinyImage()[0 := b]));
    InitReads(Sectors(TinyImage()[0 := c]));
  }

  lemma OtherHead(b: Block)
    ensures var d := Sectors(TinyImage()[0 := b]); |d| == 7 && At(d, 0).bytes == b && |TinyImage()| == 7
  {
    hide Padded, DecodeInode, DecodeDirents;
  }
}
