/** gen-disk.py from end to end: the image of an input whose items form a tree is that tree. */
module Imaging {
  import opened Format
  import opened Bits
  import opened Image
  import opened Keep
  import opened Device
  import opened Diskfmt
  import opened Generating

  /** What the input file says: the items, the fields of their inodes, which are directories, and their lines. */
  datatype Input = Input(items: seq<Item>, fields: seq<Inode>, dirs: seq<bool>, lines: seq<seq<Line>>, nblocks: nat)

  /** Where an item hangs: at the top, or from a line of a directory, so many levels down. */
  datatype Place = Top | Under(item: nat, line: nat, depth: nat)

  function Level(p: Place): nat { if p.Top? then 0 else p.depth }

  predicate Shaped(t: Input) { |t.items| == |t.fields| == |t.dirs| == |t.lines| }

  /** The size, the mode and the number of blocks of item x agree, and its lines fit its blocks. */
  predicate ItemFits(t: Input, x: nat)
    requires Shaped(t) && x < |t.items|
  {
    var f, bs := t.fields[x], t.items[x].blocks;
    && 0 <= f.size <= 1019 * 4096 && |bs| == Blocks(f.size)
    && if t.dirs[x] then IsDir(f.mode) && 4096 <= f.size && f.size % 4096 == 0 && |t.lines[x]| <= 128 * |bs|
       else IsReg(f.mode) && t.lines[x] == []
  }

  /** Line l of item x is in use. */
  predicate InUse(t: Input, x: nat, l: nat) {
    Shaped(t) && x < |t.items| && l < |t.lines[x]| && t.lines[x][l].valid
  }

  /** Line l of item x is the one that item y hangs from. */
  predicate Hangs(t: Input, up: seq<Place>, x: nat, l: nat, y: nat) {
    && InUse(t, x, l) && y < |t.items| && |up| == |t.items|
    && t.lines[x][l].inum == t.items[y].inum && up[y] == Under(x, l, Level(up[x]) + 1)
  }

  /** The items form a tree in which each hangs where up says. */
  ghost predicate FormTree(t: Input, up: seq<Place>) {
    && Shaped(t) && |up| == |t.items|
    && (forall x :: 0 <= x < |up| ==> ItemFits(t, x))
    && (forall x :: 0 <= x < |up| ==> (up[x].Top? <==> t.items[x].inum == 2))
    && (exists x :: 0 <= x < |up| && up[x].Top? && t.dirs[x])
    && (forall x: nat, l: nat :: InUse(t, x, l) ==> exists y: nat :: Hangs(t, up, x, l, y))
    && (forall y :: 0 <= y < |up| && up[y].Under? ==> Hangs(t, up, up[y].item, up[y].line, y))
    && (forall x: nat, l: nat :: InUse(t, x, l) ==> GoodName(t.lines[x][l].name))
    && (forall x: nat, k: nat, l: nat ::
          InUse(t, x, k) && InUse(t, x, l) && t.lines[x][k].name == t.lines[x][l].name ==> k == l)
  }

  // ---- the certificate ----

  function RoleOf(t: Input, up: seq<Place>, c: Cell): Role {
    match c
    case Nothing => Root
    case DataOf(x, k) => Data(if x < |t.items| then t.items[x].inum else 0, k)
    case InodeOf(x) =>
      if x < |up| && up[x].Under? && up[x].item < |t.items| then
        Entry(t.items[up[x].item].inum, up[x].line, up[x].depth)
      else Root
  }

  /** The role of every block, read off the cells of the claim loop. */
  function CertOf(t: Input, up: seq<Place>, cells: seq<Cell>): Cert {
    map b: nat | b < |cells| && cells[b] != Nothing :: RoleOf(t, up, cells[b])
  }

  /** What the image holds, block by block: data has the blocks of every item. */
  ghost predicate Holds(t: Input, cells: seq<Cell>, image: seq<Block>, data: seq<seq<Block>>) {
    && Shaped(t) && 2 < |image| <= |cells| && InImage(t.items, |image|) && |data| == |t.items|
    && CellsHold(cells, Claims(t.items, |t.items|)) && Apart(Claims(t.items, |t.items|))
    && (forall x :: 0 <= x < |t.items| ==> HoldsItem(t, image, x, data[x]))
    && MarksClaims(image[1], Claims(t.items, |t.items|))
    && Word(image[0], 0) == FS_MAGIC && Word(image[0], 4) == |image|
  }

  /** The block of item x is its inode, its blocks are the given ones, and those of a directory hold its lines. */
  ghost predicate HoldsItem(t: Input, image: seq<Block>, x: nat, own: seq<Block>)
    requires Shaped(t) && x < |t.items|
  {
    var d, i, bs := Sectors(image), t.items[x].inum, t.items[x].blocks;
    && Node(d, i) == t.fields[x].(ptrs := Node(d, i).ptrs) && |own| == |bs|
    && (forall k :: 0 <= k < |bs| && k < 1019 ==> Ptr(d, i, k) == bs[k] && BlockAt(image, bs[k]) == own[k])
    && (t.dirs[x] ==> HoldsLines(image, i, t.lines[x], |bs|))
  }

  // ---- claims and cells ----

  /** Every claim is that of an inode or of a block of some item. */
  predicate Honest(items: seq<Item>, c: Claim) {
    match c.cell
    case Nothing => false
    case InodeOf(x) => x < |items| && c.block == items[x].inum
    case DataOf(x, k) => x < |items| && k < |items[x].blocks| && c.block == items[x].blocks[k]
  }

  lemma {:induction false} DataHonest(items: seq<Item>, x: nat, k: nat)
    requires x < |items| && k <= |items[x].blocks|
    ensures forall c :: c in DataClaims(x, items[x].blocks, k) ==> Honest(items, c)
  {
    if k > 0 {
      DataHonest(items, x, k - 1);
    }
  }

  lemma {:induction false} ClaimsHonest(items: seq<Item>, x: nat)
    requires x <= |items|
    ensures forall c :: c in Claims(items, x) ==> Honest(items, c)
  {
    if x > 0 {
      ClaimsHonest(items, x - 1);
      DataHonest(items, x - 1, |items[x - 1].blocks|);
    }
  }

  /** The cells are exactly what the items say. */
  ghost predicate CellsSay(t: Input, cells: seq<Cell>, n: nat) {
    && n <= |cells|
    && (forall b :: 0 <= b < |cells| && cells[b] != Nothing ==> 2 <= b < n && Honest(t.items, Claim(b, cells[b])))
    && (forall x :: 0 <= x < |t.items| ==> t.items[x].inum < |cells| && cells[t.items[x].inum] == InodeOf(x))
    && (forall x, k :: 0 <= x < |t.items| && 0 <= k < |t.items[x].blocks| ==>
          t.items[x].blocks[k] < |cells| && cells[t.items[x].blocks[k]] == DataOf(x, k))
  }

  lemma CellsAre(t: Input, cells: seq<Cell>, n: nat)
    requires CellsHold(cells, Claims(t.items, |t.items|)) && Apart(Claims(t.items, |t.items|))
    requires InImage(t.items, n) && n <= |cells|
    ensures CellsSay(t, cells, n)
  {
    var cs := Claims(t.items, |t.items|);
    ClaimsHonest(t.items, |t.items|);
    hide Claims;
    forall b | 0 <= b < |cells| && cells[b] != Nothing
      ensures 2 <= b < n && Honest(t.items, Claim(b, cells[b]))
    {
      assert Claimed(cs, b);
      var p :| 0 <= p < |cs| && cs[p].block == b;
      assert cs[p] in cs && cs[p] == Claim(b, cells[b]);
    }
    forall x | 0 <= x < |t.items|
      ensures t.items[x].inum < |cells| && cells[t.items[x].inum] == InodeOf(x)
    {
      ClaimsOf(t.items, x, 0);
      CellOf(cells, cs, Claim(t.items[x].inum, InodeOf(x)));
    }
    forall x, k | 0 <= x < |t.items| && 0 <= k < |t.items[x].blocks|
      ensures t.items[x].blocks[k] < |cells| && cells[t.items[x].blocks[k]] == DataOf(x, k)
    {
      ClaimsOf(t.items, x, k);
      CellOf(cells, cs, Claim(t.items[x].blocks[k], DataOf(x, k)));
    }
  }

  // ---- the image read as a disk ----

  /** What slot k of a directory shows of the lines. */
  ghost predicate ShowsSlot(d: Disk, i: nat, lines: seq<Line>, k: nat) {
    var e := Ent(d, i, k);
    if k < |lines| then e.valid == lines[k].valid && e.inode == lines[k].inum && NameAt(d, i, k) == lines[k].name
    else !e.valid
  }

  /** Inode i has the fields, the blocks and the lines of item x. */
  ghost predicate ShowsItem(t: Input, d: Disk, x: nat)
    requires Shaped(t) && x < |t.items|
  {
    var i, f, bs := t.items[x].inum, t.fields[x], t.items[x].blocks;
    && AttrOf(Node(d, i)) == AttrOf(f) && Node(d, i).size == f.size && (DirAt(d, i) <==> t.dirs[x])
    && NodeOk(d, i) && Span(d, i) == |bs| && (forall k :: 0 <= k < |bs| ==> Ptr(d, i, k) == bs[k])
    && (DirAt(d, i) ==> |t.lines[x]| <= Slots(d, i) && forall k :: 0 <= k < Slots(d, i) ==>
        ShowsSlot(d, i, t.lines[x], k))
  }

  lemma ItemShown(t: Input, image: seq<Block>, x: nat, own: seq<Block>)
    requires Shaped(t) && x < |t.items| && ItemFits(t, x) && HoldsItem(t, image, x, own)
    ensures ShowsItem(t, Sectors(image), x)
  {
    var d, i, bs := Sectors(image), t.items[x].inum, t.items[x].blocks;
    hide Sectors, Ptr, Node, Ent, CStr, HoldsLines;
    assert |bs| <= 1019;
    if DirAt(d, i) {
      assert Slots(d, i) == 128 * |bs|;
      forall k | 0 <= k < Slots(d, i)
        ensures ShowsSlot(d, i, t.lines[x], k)
      {
        SlotShows(image, i, t.lines[x], |bs|, k);
      }
    }
  }

  ghost predicate ShowsAllItems(t: Input, d: Disk) {
    Shaped(t) && forall x :: 0 <= x < |t.items| ==> ShowsItem(t, d, x)
  }

  // ---- the roles ----

  lemma PlaceRole(t: Input, up: seq<Place>, x: nat)
    requires FormTree(t, up) && x < |t.items|
    ensures up[x].Top? ==> RoleOf(t, up, InodeOf(x)) == Root && t.items[x].inum == 2
    ensures up[x].Under? ==> Hangs(t, up, up[x].item, up[x].line, x) && t.items[x].inum != 2
    ensures up[x].Under? ==> RoleOf(t, up, InodeOf(x)) == Entry(t.items[up[x].item].inum, up[x].line, up[x].depth)
  {
    hide ItemFits, GoodName;
  }

  lemma CertAt(t: Input, up: seq<Place>, cells: seq<Cell>, n: nat, b: nat)
    requires CellsSay(t, cells, n)
    ensures var C := CertOf(t, up, cells);
      && (b in C <==> b < |cells| && cells[b] != Nothing)
      && (b in C ==> 2 <= b < n && C[b] == RoleOf(t, up, cells[b]) && Honest(t.items, Claim(b, cells[b])))
      && (Ino(C, b) <==> b < |cells| && cells[b].InodeOf?) && (IsData(C, b) <==> b < |cells| && cells[b].DataOf?)
  {
    hide Honest;
  }

  /** Item x is inode inum in the certificate. */
  lemma ItemInCert(t: Input, up: seq<Place>, cells: seq<Cell>, n: nat, x: nat)
    requires CellsSay(t, cells, n) && FormTree(t, up) && x < |t.items|
    ensures var C, i := CertOf(t, up, cells), t.items[x].inum;
      Ino(C, i) && C[i] == RoleOf(t, up, InodeOf(x)) && Depth(C, i) == Level(up[x]) && (IsEntry(C, i) <==> up[x].Under?)
  {
    CertAt(t, up, cells, n, t.items[x].inum);
    PlaceRole(t, up, x);
    hide FormTree, CertOf;
  }

  /** Every inode in the certificate is an item. */
  lemma InoIsItem(t: Input, up: seq<Place>, cells: seq<Cell>, n: nat, i: nat) returns (x: nat)
    requires CellsSay(t, cells, n) && FormTree(t, up) && Ino(CertOf(t, up, cells), i)
    ensures x < |t.items| && t.items[x].inum == i
  {
    CertAt(t, up, cells, n, i);
    hide FormTree, CertOf, CellsSay;
    x := cells[i].item;
  }

  // ---- the tree ----

  lemma ImageRoot(t: Input, up: seq<Place>, cells: seq<Cell>, d: Disk)
    requires CellsSay(t, cells, |d|) && FormTree(t, up) && ShowsAllItems(t, d)
    ensures Ino(CertOf(t, up, cells), 2) && DirAt(d, 2)
  {
    var x :| 0 <= x < |up| && up[x].Top? && t.dirs[x];
    hide ItemFits, Hangs, CellsSay, CertOf, DirAt, NodeOk, Node, Ptr, Span, Slots, GoodName;
    assert ShowsItem(t, d, x);
    ItemInCert(t, up, cells, |d|, x);
  }

  lemma ImageBlock(t: Input, up: seq<Place>, cells: seq<Cell>, d: Disk, b: nat)
    requires CellsSay(t, cells, |d|) && FormTree(t, up) && ShowsAllItems(t, d) && b in CertOf(t, up, cells)
    ensures var C := CertOf(t, up, cells); 2 <= b < |d| && (C[b].Root? <==> b == 2) && (Ino(C, b) ==> NodeOk(d, b))
  {
    var C := CertOf(t, up, cells);
    ImageRoot(t, up, cells, d);
    hide FormTree, CellsSay, CertOf, DirAt, NodeOk, Node, Ptr, Span, Slots;
    CertAt(t, up, cells, |d|, b);
    if Ino(C, b) {
      var y := InoIsItem(t, up, cells, |d|, b);
      ShownAt(t, d, y);
      assert NodeOk(d, b);
      ItemInCert(t, up, cells, |d|, y);
      PlaceRole(t, up, y);
    }
  }

  lemma ImageBounds(t: Input, up: seq<Place>, cells: seq<Cell>, d: Disk)
    requires CellsSay(t, cells, |d|) && FormTree(t, up) && ShowsAllItems(t, d)
    ensures var C := CertOf(t, up, cells); Bounds(d, C) && Nodes(d, C)
  {
    hide *;
    var C := CertOf(t, up, cells);
    ImageRoot(t, up, cells, d);
    forall b: nat | b in C
      ensures 2 <= b < |d| && (C[b].Root? <==> b == 2) && (Ino(C, b) ==> NodeOk(d, b))
    {
      ImageBlock(t, up, cells, d, b);
    }
    AreBounds(d, C);
  }

  lemma AreBounds(d: Disk, C: Cert)
    requires Ino(C, 2) && DirAt(d, 2)
    requires forall b :: b in C ==> 2 <= b < |d| && (C[b].Root? <==> b == 2) && (Ino(C, b) ==> NodeOk(d, b))
    ensures Bounds(d, C) && Nodes(d, C)
  {
    hide DirAt, NodeOk;
  }

  lemma ImageData(t: Input, up: seq<Place>, cells: seq<Cell>, d: Disk)
    requires CellsSay(t, cells, |d|) && FormTree(t, up) && ShowsAllItems(t, d)
    ensures var C := CertOf(t, up, cells); Owns(d, C) && Owned(d, C)
  {
    var C := CertOf(t, up, cells);
    hide FormTree, CertOf, DirAt, NodeOk, Node, Ptr, Span, Slots;
    forall i: nat, k: nat | Ino(C, i) && k < Span(d, i)
      ensures Ptr(d, i, k) in C && C[Ptr(d, i, k)] == Data(i, k)
    {
      var x := InoIsItem(t, up, cells, |d|, i);
      assert ShowsItem(t, d, x);
      CertAt(t, up, cells, |d|, t.items[x].blocks[k]);
    }
    forall b: nat | IsData(C, b)
      ensures Ino(C, C[b].owner) && C[b].index < Span(d, C[b].owner) && Ptr(d, C[b].owner, C[b].index) == b
    {
      CertAt(t, up, cells, |d|, b);
      var x := cells[b].item;
      assert ShowsItem(t, d, x);
      ItemInCert(t, up, cells, |d|, x);
    }
  }

  /** The slots in use are the lines in use. */
  lemma LiveLine(t: Input, up: seq<Place>, cells: seq<Cell>, d: Disk, i: nat, k: nat) returns (x: nat)
    requires CellsSay(t, cells, |d|) && FormTree(t, up) && ShowsAllItems(t, d) && Live(d, CertOf(t, up, cells), i, k)
    ensures x < |t.items| && t.items[x].inum == i && InUse(t, x, k)
    ensures NameAt(d, i, k) == t.lines[x][k].name && Ent(d, i, k).inode == t.lines[x][k].inum
  {
    x := InoIsItem(t, up, cells, |d|, i);
    hide FormTree, CertOf, CellsSay, NodeOk, Node, Ptr, Span, Slots, Ent, CStr;
    assert ShowsItem(t, d, x) && ShowsSlot(d, i, t.lines[x], k);
  }

  lemma LineLive(t: Input, up: seq<Place>, cells: seq<Cell>, d: Disk, x: nat, l: nat)
    requires CellsSay(t, cells, |d|) && FormTree(t, up) && ShowsAllItems(t, d) && InUse(t, x, l)
    ensures Live(d, CertOf(t, up, cells), t.items[x].inum, l)
    ensures Ent(d, t.items[x].inum, l).inode == t.lines[x][l].inum
    ensures NameAt(d, t.items[x].inum, l) == t.lines[x][l].name
  {
    ItemInCert(t, up, cells, |d|, x);
    assert ItemFits(t, x);
    hide FormTree, CertOf, CellsSay, NodeOk, Node, Ptr, Span, Slots, Ent, CStr;
    assert ShowsItem(t, d, x) && ShowsSlot(d, t.items[x].inum, t.lines[x], l);
  }

  lemma HangsAt(t: Input, up: seq<Place>, x: nat, l: nat) returns (y: nat)
    requires FormTree(t, up) && InUse(t, x, l)
    ensures Hangs(t, up, x, l, y) && up[y].Under? && GoodName(t.lines[x][l].name)
  {
    y :| Hangs(t, up, x, l, y);
    hide ItemFits, GoodName;
  }

  lemma ImageLinks(t: Input, up: seq<Place>, cells: seq<Cell>, d: Disk)
    requires CellsSay(t, cells, |d|) && FormTree(t, up) && ShowsAllItems(t, d)
    ensures var C := CertOf(t, up, cells); Links(d, C) && Linked(d, C)
  {
    var C := CertOf(t, up, cells);
    hide FormTree, CertOf, CellsSay, ShowsAllItems, DirAt, NodeOk, Node, Ptr, Span, Slots, Ent, CStr;
    forall i: nat, k: nat | Live(d, C, i, k)
      ensures Ent(d, i, k).inode in C && C[Ent(d, i, k).inode] == Entry(i, k, Depth(C, i) + 1)
    {
      var x := LiveLine(t, up, cells, d, i, k);
      var y := HangsAt(t, up, x, k);
      ItemInCert(t, up, cells, |d|, x);
      ItemInCert(t, up, cells, |d|, y);
      PlaceRole(t, up, y);
    }
    forall c: nat | IsEntry(C, c)
      ensures LinkedAt(d, C, c)
    {
      var y := InoIsItem(t, up, cells, |d|, c);
      ItemInCert(t, up, cells, |d|, y);
      PlaceRole(t, up, y);
      var x, l := up[y].item, up[y].line;
      ItemInCert(t, up, cells, |d|, x);
      LineLive(t, up, cells, d, x, l);
    }
  }

  lemma ImageNames(t: Input, up: seq<Place>, cells: seq<Cell>, d: Disk)
    requires CellsSay(t, cells, |d|) && FormTree(t, up) && ShowsAllItems(t, d)
    ensures Names(d, CertOf(t, up, cells))
  {
    var C := CertOf(t, up, cells);
    hide FormTree, CertOf, CellsSay, ShowsAllItems, Live, NodeOk, Node, Ptr, Span, Slots, Ent, CStr, GoodName;
    forall i: nat, k: nat | Live(d, C, i, k)
      ensures GoodName(NameAt(d, i, k))
    {
      var x := LiveLine(t, up, cells, d, i, k);
      var y := HangsAt(t, up, x, k);
    }
    forall i: nat, k: nat, l: nat | Live(d, C, i, k) && Live(d, C, i, l) && NameAt(d, i, k) == NameAt(d, i, l)
      ensures k == l
    {
      var x := LiveLine(t, up, cells, d, i, k);
      var z := LiveLine(t, up, cells, d, i, l);
      OneItem(t, up, cells, |d|, x, z);
      NamesApart(t, up, x, k, l);
    }
  }

  lemma OneItem(t: Input, up: seq<Place>, cells: seq<Cell>, n: nat, x: nat, z: nat)
    requires CellsSay(t, cells, n) && x < |t.items| && z < |t.items| && t.items[x].inum == t.items[z].inum
    ensures x == z
  {
    assert cells[t.items[x].inum] == InodeOf(x) && cells[t.items[z].inum] == InodeOf(z);
  }

  lemma NamesApart(t: Input, up: seq<Place>, x: nat, k: nat, l: nat)
    requires FormTree(t, up) && InUse(t, x, k) && InUse(t, x, l) && t.lines[x][k].name == t.lines[x][l].name
    ensures k == l
  {
    hide ItemFits, GoodName, Hangs;
  }

  /** Every block in use is marked. */
  lemma ImageMarked(t: Input, up: seq<Place>, cells: seq<Cell>, image: seq<Block>, data: seq<seq<Block>>)
    requires Holds(t, cells, image, data)
    ensures var d := Sectors(image);
      && OnDisk(d, 0) && OnDisk(d, 1) && |d| == |image| && Headed(d)
      && forall b :: b in CertOf(t, up, cells) ==> OnDisk(d, b)
  {
    SectorAt(image, 0);
    SectorAt(image, 1);
    BytesOfRead(image[0]);
    BytesOfRead(image[1]);
    hide Sectors, Bit, Claims, Apart, HoldsItem, InImage, Read, Claimed, RoleOf;
    assert At(Sectors(image), 0).bytes == image[0] && At(Sectors(image), 1).bytes == image[1];
  }

  lemma HoldsParts(t: Input, cells: seq<Cell>, image: seq<Block>, data: seq<seq<Block>>)
    requires Holds(t, cells, image, data)
    ensures Shaped(t) && 2 < |image| <= 400 && CellsSay(t, cells, |image|) && |Sectors(image)| == |image|
    ensures |data| == |t.items| && forall x :: 0 <= x < |t.items| ==> HoldsItem(t, image, x, data[x])
  {
    CellsAre(t, cells, |image|);
    hide CellsHold, Claims, Apart, HoldsItem, MarksClaims, CellsSay;
  }

  lemma ImageShows(t: Input, up: seq<Place>, cells: seq<Cell>, image: seq<Block>, data: seq<seq<Block>>)
    requires FormTree(t, up) && Holds(t, cells, image, data)
    ensures ShowsAllItems(t, Sectors(image))
  {
    HoldsParts(t, cells, image, data);
    assert forall x :: 0 <= x < |t.items| ==> ItemFits(t, x);
    hide FormTree, Holds, HoldsItem, ItemFits, Sectors, ShowsItem, CellsSay;
    forall x | 0 <= x < |t.items|
      ensures ShowsItem(t, Sectors(image), x)
    {
      ItemShown(t, image, x, data[x]);
    }
  }

  /** The image of an input whose items form a tree and claim no block twice can be mounted. */
  lemma ImageIsSafe(t: Input, up: seq<Place>, cells: seq<Cell>, image: seq<Block>, data: seq<seq<Block>>)
    requires FormTree(t, up) && Holds(t, cells, image, data)
    ensures Safe(Sectors(image), CertOf(t, up, cells))
  {
    var d, C := Sectors(image), CertOf(t, up, cells);
    hide *;
    HoldsParts(t, cells, image, data);
    ImageShows(t, up, cells, image, data);
    ImageMarked(t, up, cells, image, data);
    ImageBounds(t, up, cells, d);
    ImageData(t, up, cells, d);
    ImageLinks(t, up, cells, d);
    ImageNames(t, up, cells, d);
    IsSafe(d, C);
  }

  lemma IsSafe(d: Disk, C: Cert)
    requires Bounds(d, C) && Nodes(d, C) && Owns(d, C) && Owned(d, C) && Links(d, C) && Linked(d, C) && Names(d, C)
    requires |d| <= 32768 && Headed(d) && OnDisk(d, 0) && OnDisk(d, 1) && forall b :: b in C ==> OnDisk(d, b)
    ensures Safe(d, C)
  {
    hide Bounds, Nodes, Owns, Owned, Links, Linked, Names, OnDisk;
  }

  // ---- the namespace of the image ----

  /** The path of an item: the names of the lines that lead to it. */
  ghost function InputPath(t: Input, up: seq<Place>, x: nat): Path
    requires FormTree(t, up) && x < |t.items|
    decreases Level(up[x])
  {
    PlaceRole(t, up, x);
    if up[x].Top? then [] else InputPath(t, up, up[x].item) + [t.lines[up[x].item][up[x].line].name]
  }

  /** In the image that path leads to the item. */
  lemma {:induction false} ItemFound(t: Input, up: seq<Place>, cells: seq<Cell>, d: Disk, x: nat)
    requires CellsSay(t, cells, |d|) && FormTree(t, up) && ShowsAllItems(t, d) && Tree(d, CertOf(t, up, cells))
    requires x < |t.items|
    ensures Walk(d, InputPath(t, up, x)) == Ok(t.items[x].inum)
    decreases Level(up[x])
  {
    PlaceRole(t, up, x);
    hide FormTree, CertOf, CellsSay, ShowsAllItems, Tree, Ent, NameAt, Step, Slots, DirAt;
    if up[x].Under? {
      var y, l := up[x].item, up[x].line;
      var n := t.lines[y][l].name;
      ItemFound(t, up, cells, d, y);
      LineLive(t, up, cells, d, y, l);
      StepFinds(d, CertOf(t, up, cells), t.items[y].inum, l);
      assert Front(InputPath(t, up, y) + [n]) == InputPath(t, up, y);
    }
  }

  /** What the input says of item x: its attributes and, if it is a file, the first bytes of its blocks. */
  function ObjOf(t: Input, x: nat, own: seq<Block>): Obj
    requires Shaped(t) && x < |t.items|
  {
    if t.dirs[x] then Dir(AttrOf(t.fields[x]))
    else File(AttrOf(t.fields[x]),
              seq(if t.fields[x].size <= 0 then 0 else t.fields[x].size,
                  p requires 0 <= p => if p / 4096 < |own| then own[p / 4096][p % 4096] else 0))
  }

  lemma ItemIsObj(t: Input, image: seq<Block>, x: nat, own: seq<Block>)
    requires Shaped(t) && x < |t.items| && ItemFits(t, x) && HoldsItem(t, image, x, own)
    requires ShowsItem(t, Sectors(image), x)
    ensures ObjAt(Sectors(image), t.items[x].inum) == ObjOf(t, x, own)
  {
    var d, i, bs := Sectors(image), t.items[x].inum, t.items[x].blocks;
    assert |bs| <= 1019;
    hide Sectors, Ptr, Node, HoldsLines, NodeOk, ShowsSlot, BlockAt;
    if !t.dirs[x] {
      forall p: nat | p < t.fields[x].size
        ensures p / 4096 < |own| && At(d, Ptr(d, i, p / 4096)).bytes[p % 4096] == own[p / 4096][p % 4096]
      {
        SectorAt(image, bs[p / 4096]);
        BytesOfRead(own[p / 4096]);
      }
      assert Content(d, i) == ObjOf(t, x, own).bytes;
    }
  }

  /** The namespace of the image is that of the input: every item is found at its path with its attributes and its
      bytes, and nothing else is found. */
  lemma ImageNamespace(t: Input, up: seq<Place>, cells: seq<Cell>, image: seq<Block>, data: seq<seq<Block>>)
    requires FormTree(t, up) && Holds(t, cells, image, data)
    ensures |data| == |t.items| && forall x :: 0 <= x < |t.items| ==>
      Lookup(Sectors(image), InputPath(t, up, x)) == Some(ObjOf(t, x, data[x]))
    ensures forall q: Path :: Lookup(Sectors(image), q).Some? ==>
        exists x :: 0 <= x < |t.items| && q == InputPath(t, up, x)
  {
    var d, C := Sectors(image), CertOf(t, up, cells);
    TreeItems(t, up);
    hide *;
    HoldsParts(t, cells, image, data);
    ImageShows(t, up, cells, image, data);
    ImageIsSafe(t, up, cells, image, data);
    SafeIsTree(d, C);
    forall x | 0 <= x < |t.items|
      ensures Lookup(d, InputPath(t, up, x)) == Some(ObjOf(t, x, data[x]))
    {
      ShownAt(t, d, x);
      ItemFound(t, up, cells, d, x);
      ItemIsObj(t, image, x, data[x]);
      FoundIs(d, InputPath(t, up, x));
    }
    forall q: Path | Lookup(d, q).Some?
      ensures exists x :: 0 <= x < |t.items| && q == InputPath(t, up, x)
    {
      FoundIs(d, q);
      WalkIsPath(d, C, q);
      var x := InoIsItem(t, up, cells, |d|, Walk(d, q).inum);
      ItemFound(t, up, cells, d, x);
      WalkIsPath(d, C, InputPath(t, up, x));
    }
  }

  lemma TreeItems(t: Input, up: seq<Place>)
    requires FormTree(t, up)
    ensures Shaped(t) && |up| == |t.items| && forall x :: 0 <= x < |t.items| ==> ItemFits(t, x)
  {
    hide ItemFits, GoodName, Hangs;
  }

  lemma SafeIsTree(d: Disk, C: Cert)
    requires Safe(d, C)
    ensures Tree(d, C)
  {
    hide Tree;
  }

  lemma ShownAt(t: Input, d: Disk, x: nat)
    requires ShowsAllItems(t, d) && x < |t.items|
    ensures Shaped(t) && ShowsItem(t, d, x)
  {
    hide ShowsItem;
  }

  lemma FoundIs(d: Disk, q: Path)
    ensures Lookup(d, q).Some? <==> Walk(d, q).Ok?
    ensures Walk(d, q).Ok? ==> Lookup(d, q) == Some(ObjAt(d, Walk(d, q).inum))
  {
    hide Walk, ObjAt;
  }

  // ---- the whole program ----

  /** The blocks of one item: the lines of a directory, or the random text of a file. */
  ghost predicate Generated(t: Input, x: nat, noise: seq<Block>, own: seq<Block>)
    requires Shaped(t) && x < |t.items|
  {
    && |own| == |t.items[x].blocks|
    && if t.dirs[x] then forall k :: 0 <= k < |own| ==> forall r: nat :: r < 128 ==>
           ShowsLine(own[k], t.lines[x], k, r) && LineBytes(own[k], t.lines[x], k, r)
       else own == noise
  }

  /** The inode block of one item. */
  ghost predicate Encoded(t: Input, x: nat, b: Block)
    requires Shaped(t) && x < |t.items|
  {
    var n, bs := DecodeInode(b), t.items[x].blocks;
    && n == t.fields[x].(ptrs := n.ptrs) && |bs| <= 1019
    && forall k :: 0 <= k < 1019 ==> n.ptrs[k] == if k < |bs| then bs[k] else 0
  }

  method ItemBlocks(t: Input, x: nat, noise: seq<Block>) returns (own: seq<Block>)
    requires Shaped(t) && x < |t.items| && |noise| == |t.items[x].blocks| && forall l :: l in t.lines[x] ==> Holdable(l)
    ensures Generated(t, x, noise, own)
  {
    hide ShowsLine, LineBytes, Holdable;
    own := [];
    if t.dirs[x] {
      for k := 0 to |t.items[x].blocks|
        invariant |own| == k
        invariant forall j :: 0 <= j < k ==> forall r: nat :: r < 128 ==>
            ShowsLine(own[j], t.lines[x], j, r) && LineBytes(own[j], t.lines[x], j, r)
      {
        var b := DirBlock(t.lines[x], k);
        own := own + [b];
      }
    } else {
      own := noise;
    }
  }

  /** What the program is given: every claim lies in the image, every pointer in the table, every line in an entry. */
  predicate Writable(t: Input, noise: seq<seq<Block>>) {
    && Shaped(t) && 2 < t.nblocks && InImage(t.items, t.nblocks) && |noise| == |t.items|
    && (forall x :: 0 <= x < |t.items| ==> |noise[x]| == |t.items[x].blocks| <= 1019)
    && (forall x :: 0 <= x < |t.items| ==> forall l :: l in t.lines[x] ==> Holdable(l))
  }

  /** What the output loop has written. */
  ghost predicate Output(t: Input, cells: seq<Cell>, image: seq<Block>, inodes: seq<Block>, data: seq<seq<Block>>,
      noise: seq<seq<Block>>) {
    && Writable(t, noise) && |inodes| == |data| == |t.items| && |image| == t.nblocks <= |cells|
    && (forall x :: 0 <= x < |t.items| ==> Encoded(t, x, inodes[x]) && Generated(t, x, noise[x], data[x]))
    && (forall i :: 2 <= i < |image| ==> image[i] == Filled(cells[i], inodes, data))
  }

  /** What a block holds that was claimed so: the inode of the item, or a block of it. */
  ghost predicate Wrote(t: Input, b: Block, c: Cell, data: seq<seq<Block>>) {
    && Shaped(t)
    && match c
       case Nothing => false
       case InodeOf(x) => x < |t.items| && Encoded(t, x, b)
       case DataOf(x, k) => x < |data| && k < |data[x]| && b == data[x][k]
  }

  /** A block holds what its last claim says, and is all zero if there is none. */
  lemma BlockWritten(t: Input, cells: seq<Cell>, image: seq<Block>, inodes: seq<Block>, data: seq<seq<Block>>,
      noise: seq<seq<Block>>, p: nat)
    requires Output(t, cells, image, inodes, data, noise) && CellsHold(cells, Claims(t.items, |t.items|))
    requires var cs := Claims(t.items, |t.items|); LastAt(cs, p) && 2 <= cs[p].block < |image|
    ensures var c := Claims(t.items, |t.items|)[p]; Wrote(t, image[c.block], c.cell, data)
  {
    var c := Claims(t.items, |t.items|)[p];
    ClaimsHonest(t.items, |t.items|);
    assert c in Claims(t.items, |t.items|) && cells[c.block] == c.cell;
    assert image[c.block] == Filled(c.cell, inodes, data);
    hide Claims, CellsHold, LastAt, Encoded, Holdable, InImage, ShowsLine, LineBytes;
    assert Encoded(t, c.cell.item, inodes[c.cell.item]) &&
        Generated(t, c.cell.item, noise[c.cell.item], data[c.cell.item]);
  }

  /** The blocks of the image from the third on. */
  ghost predicate BlocksSay(t: Input, image: seq<Block>, data: seq<seq<Block>>) {
    var cs := Claims(t.items, |t.items|);
    && (forall p: nat :: LastAt(cs, p) && 2 <= cs[p].block < |image| ==>
          Wrote(t, image[cs[p].block], cs[p].cell, data))
    && forall b :: 2 <= b < |image| && !Claimed(cs, b) ==> forall x :: 0 <= x < 4096 ==> image[b][x] == 0
  }

  lemma BlocksWritten(t: Input, cells: seq<Cell>, image: seq<Block>, inodes: seq<Block>, data: seq<seq<Block>>,
      noise: seq<seq<Block>>)
    requires Output(t, cells, image, inodes, data, noise) && CellsHold(cells, Claims(t.items, |t.items|))
    ensures BlocksSay(t, image, data)
  {
    var cs := Claims(t.items, |t.items|);
    assert |image| <= |cells|;
    forall b | 2 <= b < |image| && !Claimed(cs, b)
      ensures forall x :: 0 <= x < 4096 ==> image[b][x] == 0
    {
      assert cells[b] == Nothing && image[b] == Filled(Nothing, inodes, data);
    }
    hide Output, Claims, Claimed, CellsHold, LastAt, Wrote;
    forall p: nat | LastAt(cs, p) && 2 <= cs[p].block < |image|
      ensures Wrote(t, image[cs[p].block], cs[p].cell, data)
    {
      BlockWritten(t, cells, image, inodes, data, noise, p);
    }
  }

  lemma ItemWritten(t: Input, cells: seq<Cell>, image: seq<Block>, inodes: seq<Block>, data: seq<seq<Block>>,
      noise: seq<seq<Block>>, x: nat)
    requires Output(t, cells, image, inodes, data, noise) && x < |t.items|
    requires CellsHold(cells, Claims(t.items, |t.items|)) && Apart(Claims(t.items, |t.items|))
    ensures HoldsItem(t, image, x, data[x])
  {
    var d, i, bs := Sectors(image), t.items[x].inum, t.items[x].blocks;
    assert Encoded(t, x, inodes[x]) && Generated(t, x, noise[x], data[x]);
    hide Sectors, DecodeInode, BlockAt, Ptr, Node, Claims, CellsHold, Apart, ShowsLine, LineBytes, Filled, HoldsLines,
        Holdable, InImage;
    InodeLies(t, cells, image, inodes, data, x);
    forall k | 0 <= k < |bs|
      ensures Ptr(d, i, k) == bs[k] && BlockAt(image, bs[k]) == data[x][k]
    {
      DirectoryBlock(t.items, cells, image, inodes, data, x, k);
      PtrIs(d, i, k);
    }
    if t.dirs[x] {
      DirectoryLies(t.items, cells, image, inodes, data, x, t.lines[x]);
    }
  }

  lemma PtrIs(d: Disk, i: nat, k: nat)
    requires k < 1019
    ensures Ptr(d, i, k) == Node(d, i).ptrs[k]
  {
    hide Node;
  }

  lemma InodeLies(t: Input, cells: seq<Cell>, image: seq<Block>, inodes: seq<Block>, data: seq<seq<Block>>, x: nat)
    requires Shaped(t) && x < |t.items| && |inodes| == |t.items| && |image| <= |cells| && InImage(t.items, |image|)
    requires CellsHold(cells, Claims(t.items, |t.items|)) && Apart(Claims(t.items, |t.items|))
    requires forall i :: 2 <= i < |image| ==> image[i] == Filled(cells[i], inodes, data)
    ensures Node(Sectors(image), t.items[x].inum) == DecodeInode(inodes[x])
  {
    var i, cs := t.items[x].inum, Claims(t.items, |t.items|);
    ClaimsOf(t.items, x, 0);
    hide DecodeInode, DecodeDirents, Claims, Apart, CellsHold, Sectors;
    CellOf(cells, cs, Claim(i, InodeOf(x)));
    ApartLow(cs, Claim(i, InodeOf(x)));
    SectorAt(image, i);
  }

  lemma AllWritten(t: Input, cells: seq<Cell>, image: seq<Block>, inodes: seq<Block>, data: seq<seq<Block>>,
      noise: seq<seq<Block>>)
    requires Output(t, cells, image, inodes, data, noise) && MarksClaims(image[1], Claims(t.items, |t.items|))
    requires CellsHold(cells, Claims(t.items, |t.items|)) && Apart(Claims(t.items, |t.items|))
    requires Word(image[0], 0) == FS_MAGIC && Word(image[0], 4) == |image|
    ensures Holds(t, cells, image, data)
  {
    hide Claims, Apart, CellsHold, MarksClaims, HoldsItem, Encoded, Generated, Filled, Holdable, InImage;
    forall x | 0 <= x < |t.items|
      ensures HoldsItem(t, image, x, data[x])
    {
      ItemWritten(t, cells, image, inodes, data, noise, x);
    }
  }

  /** The inode and the blocks of every item. */
  ghost predicate Blocked(t: Input, noise: seq<seq<Block>>, inodes: seq<Block>, data: seq<seq<Block>>, n: nat) {
    && Shaped(t) && |inodes| == |data| == n <= |t.items| == |noise|
    && forall x :: 0 <= x < n ==> Encoded(t, x, inodes[x]) && Generated(t, x, noise[x], data[x])
  }

  lemma WritableParts(t: Input, noise: seq<seq<Block>>)
    requires Writable(t, noise)
    ensures Shaped(t) && 2 < t.nblocks <= 400 && InImage(t.items, t.nblocks) && |noise| == |t.items|
    ensures forall x :: 0 <= x < |t.items| ==> |noise[x]| == |t.items[x].blocks| <= 1019
    ensures forall x :: 0 <= x < |t.items| ==> forall k :: 0 <= k < |t.items[x].blocks| ==>
        t.items[x].blocks[k] < 0x1_0000_0000
    ensures forall x :: 0 <= x < |t.items| ==> forall l :: l in t.lines[x] ==> Holdable(l)
  {
    hide Holdable;
  }

  lemma EncodedIs(t: Input, x: nat, b: Block)
    requires Shaped(t) && x < |t.items| && |t.items[x].blocks| <= 1019
    requires FieldsAt(b, t.fields[x]) && TableAt(b, t.items[x].blocks)
    ensures Encoded(t, x, b)
  {
    hide DecodeInode, TwoBytes, FourBytes;
    var n, bs := DecodeInode(b), t.items[x].blocks;
    InodeReads(b, n);
    TablePadded(b, n.ptrs, bs);
  }

  lemma OutputIs(t: Input, cells: seq<Cell>, image: seq<Block>, inodes: seq<Block>, data: seq<seq<Block>>,
      noise: seq<seq<Block>>, top: Block, bm: Block)
    requires Writable(t, noise) && Blocked(t, noise, inodes, data, |t.items|)
    requires |image| == t.nblocks <= |cells| && image[..2] == [top, bm]
    requires forall i :: 2 <= i < |image| ==> image[i] == Filled(cells[i], inodes, data)
    ensures Output(t, cells, image, inodes, data, noise) && |image| > 2 && image[0] == top && image[1] == bm
    ensures |data| == |t.items| && forall x :: 0 <= x < |t.items| ==> Generated(t, x, noise[x], data[x])
  {
    assert image[0] == image[..2][0] && image[1] == image[..2][1];
    hide Encoded, Generated, Filled, InImage, Holdable;
  }

  lemma HeadWritten(n: uint32)
    ensures var b := Superblock(n);
      && b[..4] == [0x35, 0x36, 0x30, 0x30] && FourBytes(b, 4) == n && Word(b, 0) == FS_MAGIC && Word(b, 4) == n
      && forall x :: 8 <= x < 4096 ==> b[x] == 0
  {
    SuperblockBytes(n);
    hide FourBytes;
  }

  lemma BytesAre(m: Bitmap)
    requires m.Valid()
    ensures m.vals.Length == 1024 && BytesOf(m.vals[..]) == m.Bytes()
  {
    hide BytesOf;
  }

  lemma SafeMounts(d: Disk, C: Cert)
    requires Safe(d, C)
    ensures Mountable(d)
  {
    hide Safe;
  }

  lemma BlockedNext(t: Input, noise: seq<seq<Block>>, inodes: seq<Block>, data: seq<seq<Block>>, n: nat, b: Block,
      own: seq<Block>)
    requires Blocked(t, noise, inodes, data, n) && n < |t.items| && Encoded(t, n, b) && Generated(t, n, noise[n], own)
    ensures Blocked(t, noise, inodes + [b], data + [own], n + 1)
  {
    hide Encoded, Generated;
  }

  method EncodeItems(t: Input, noise: seq<seq<Block>>) returns (inodes: seq<Block>, data: seq<seq<Block>>)
    requires Writable(t, noise)
    ensures Blocked(t, noise, inodes, data, |t.items|)
  {
    WritableParts(t, noise);
    hide Encoded, Generated, DecodeInode, Holdable, Writable, InImage;
    inodes, data := [], [];
    for x := 0 to |t.items|
      invariant Blocked(t, noise, inodes, data, x)
    {
      hide Blocked;
      var n := BuildInode(t.fields[x], t.items[x].blocks);
      EncodedIs(t, x, n);
      var own := ItemBlocks(t, x, noise[x]);
      BlockedNext(t, noise, inodes, data, x, n, own);
      inodes, data := inodes + [n], data + [own];
    }
  }

  lemma Mounts(t: Input, cells: seq<Cell>, image: seq<Block>, data: seq<seq<Block>>)
    requires Holds(t, cells, image, data)
    ensures forall up :: FormTree(t, up) ==> Mountable(Sectors(image))
  {
    hide *;
    forall up | FormTree(t, up)
      ensures Mountable(Sectors(image))
    {
      ImageIsSafe(t, up, cells, image, data);
      SafeMounts(Sectors(image), CertOf(t, up, cells));
    }
  }

  /** gen-disk.py: claim the blocks, then write the image, with the given text in the blocks of files. */
  method Generate(t: Input, noise: seq<seq<Block>>)
    returns (image: seq<Block>, errors: seq<nat>, ghost cells: seq<Cell>, ghost data: seq<seq<Block>>)
    requires Writable(t, noise)
    ensures |image| == t.nblocks > 2 && image[0][..4] == [0x35, 0x36, 0x30, 0x30] && FourBytes(image[0], 4) == |image|
    ensures (forall x :: 8 <= x < 4096 ==> image[0][x] == 0) && MarksClaims(image[1], Claims(t.items, |t.items|))
    ensures |data| == |t.items| && forall x :: 0 <= x < |t.items| ==> Generated(t, x, noise[x], data[x])
    ensures BlocksSay(t, image, data)
    ensures errors == Doubled(Claims(t.items, |t.items|)) && (errors == [] <==> NoDoubles(Claims(t.items, |t.items|)))
    ensures Apart(Claims(t.items, |t.items|)) ==> Holds(t, cells, image, data)
    ensures forall up :: Apart(Claims(t.items, |t.items|)) && FormTree(t, up) ==> Mountable(Sectors(image))
  {
    WritableParts(t, noise);
    hide *;
    var map8, blocks, inodes, own;
    map8, blocks, errors := BuildMap(t.items, t.nblocks);
    inodes, own := EncodeItems(t, noise);
    BytesAre(map8);
    var top, bm := Superblock(t.nblocks), BytesOf(map8.vals[..]);
    image := WriteImage(t.nblocks, blocks[..], top, bm, inodes, own);
    data, cells := own, blocks[..];
    OutputIs(t, cells, image, inodes, data, noise, top, bm);
    BlocksWritten(t, cells, image, inodes, data, noise);
    HeadWritten(t.nblocks);
    if Apart(Claims(t.items, |t.items|)) {
      AllWritten(t, cells, image, inodes, data, noise);
      Mounts(t, cells, image, data);
    }
  }

  // ---- the smallest input ----

  /** One directory without lines, the root: inode 2 and block 3. */
  function Bare(f: Inode, n: nat): Input { Input([Item(2, [3])], [f], [true], [[]], n) }

  lemma BareForms(f: Inode, n: nat)
    requires IsDir(f.mode) && f.size == 4096 && 4 <= n <= 400
    ensures var t := Bare(f, n); FormTree(t, [Top]) && Writable(t, [[ZeroBlock()]]) && Apart(Claims(t.items, 1))
  {
    var t := Bare(f, n);
    BareClaims(t.items);
    assert [Top][0].Top?;
    assert ItemFits(t, 0);
    assert forall x: nat, l: nat :: !InUse(t, x, l);
    hide GoodName, IsDir, Holdable, Claims, ItemFits;
  }

  lemma BareClaims(items: seq<Item>)
    requires items == [Item(2, [3])]
    ensures Claims(items, 1) == [Claim(2, InodeOf(0)), Claim(3, DataOf(0, 0))]
  {
    ClaimsStep(items, 0);
    ClaimsNext(items, 0, 0);
    NoClaims(items);
    assert DataClaims(0, items[0].blocks, 0) == [];
    hide Claims, DataClaims;
  }
}
