/** fs_write: allocation, the bytes a user sees, the invariant, crash points, and splitting one write in two. */
module Writing {
  import opened Words
  import opened Format
  import opened Bits
  import opened Image
  import opened Change
  import opened Paths
  import opened Ops
  import opened Keep
  import opened Removing
  import opened Editing
  import opened Bytes

  // ---- counting blocks ----

  /** The block numbers of a disk of n blocks. */
  function Below(n: nat): (r: set<nat>)
    ensures |r| == n && forall x: nat :: x in r <==> x < n
  { if n == 0 then {} else Below(n - 1) + {n - 1} }

  lemma SubsetSize(a: set<nat>, b: set<nat>)
    requires a <= b
    ensures |a| <= |b|
  {
    assert b == a + (b - a);
  }

  lemma TakeBounded(m: Block, n: nat, k: nat)
    requires n <= 32768
    ensures |Take(m, n, k).blocks| <= n
  {
    hide Bit, Take;
    TakeFacts(m, n, k);
    var bs := Take(m, n, k).blocks;
    MembersSize(bs);
    SubsetSize(Members(bs), Below(n));
  }

  /** The blocks of file i and the blocks first-fit can still find are all different, and none of them is the
      superblock, the bitmap, the root inode, the root's first data block or the inode of i. */
  lemma Pigeonhole(s: Fs, C: Cert, i: nat, k: nat)
    requires Inv(s, C) && Ino(C, i) && !DirAt(s.disk, i)
    ensures Span(s.disk, i) + |Take(s.bitmap, |s.disk|, k).blocks| + 5 <= |s.disk|
  {
    hide *;
    var n := |s.disk|;
    var bs := Take(s.bitmap, n, k).blocks;
    InvParts(s, C);
    EmptyTable(s.disk, C, i);
    TakenFresh(s, C, k);
    InUse(s.disk, C, i);
    MembersSize(bs);
    CountApart(n, Ptr(s.disk, ROOT, 0), i, Members(Table(s.disk, i)), Members(bs));
  }

  lemma CountApart(n: nat, r: nat, i: nat, a: set<nat>, b: set<nat>)
    requires 2 < n && 2 <= r < n && 2 <= i < n && r != 2 && i != 2 && r != i
    requires forall x :: x in a ==> 2 <= x < n && x != 2 && x != r && x != i
    requires forall x :: x in b ==> 2 <= x < n && x != 2 && x != r && x != i && x !in a
    ensures 5 + |a| + |b| <= n
  {
    var five := Five(r, i);
    ThreeApart(five, a, b);
    SubsetSize(five + a + b, Below(n));
  }

  /** The superblock, the bitmap, the root inode and two more blocks. */
  function Five(r: nat, i: nat): (f: set<nat>)
    requires 2 < r && 2 < i && r != i
    ensures |f| == 5 && forall x :: x in f <==> x == 0 || x == 1 || x == 2 || x == r || x == i
  {
    var low := {0, 1, 2};
    assert |low| == 3 && |low + {r}| == 4;
    low + {r} + {i}
  }

  lemma ThreeApart(a: set<nat>, b: set<nat>, c: set<nat>)
    requires (forall x :: x in b ==> x !in a) && forall x :: x in c ==> x !in a && x !in b
    ensures |a + b + c| == |a| + |b| + |c|
  {
    assert a !! b && (a + b) !! c;
  }

  lemma InUse(d: Disk, C: Cert, i: nat)
    requires Tree(d, C) && Ino(C, i) && !DirAt(d, i)
    ensures var r := Ptr(d, ROOT, 0);
      && 2 < |d| && 2 <= r < |d| && 2 <= i < |d| && r != 2 && i != 2 && r != i && 2 in C && r in C && i in C
      && (forall b :: b in Members(Table(d, i)) ==> 2 <= b < |d| && b != 2 && b != r && b != i && b in C)
  {
    assert NodeOk(d, ROOT) && 0 < Span(d, ROOT);
    assert C[Ptr(d, ROOT, 0)] == Data(ROOT, 0);
    BlocksOfCert(d, C, i);
    forall b | b in Members(Table(d, i))
      ensures IsData(C, b) && C[b].owner == i
    {
      var k := IndexOf(Table(d, i), b);
      assert Ptr(d, i, k) == b;
    }
    hide Links, Linked, Names, Nodes, Owned, Owns, Table;
  }

  lemma TakenFresh(s: Fs, C: Cert, k: nat)
    requires Inv(s, C)
    ensures var bs := Take(s.bitmap, |s.disk|, k).blocks;
      && Distinct(bs) && (forall b :: b in Members(bs) ==>
          b !in C && 2 <= b < |s.disk| && !Bit(s.bitmap, b) && !OnDisk(s.disk, b))
  {
    hide Bit, Take, Tree;
    TakeFacts(s.bitmap, |s.disk|, k);
    forall b | b in Take(s.bitmap, |s.disk|, k).blocks
      ensures b !in C
    {
      FreeIsOutside(s, C, b);
    }
  }

  // ---- a write that has its blocks ----

  /** The blocks bs are free, and are what file i needs to hold everything up to off + n. */
  ghost predicate Plan(s: Fs, C: Cert, i: nat, bs: seq<nat>, off: nat, n: nat) {
    && Inv(s, C) && Ino(C, i) && !DirAt(s.disk, i) && off <= Node(s.disk, i).size
    && Blocks(off + n) == Span(s.disk, i) + |bs| && Blocks(off + n) <= 1019
    && Distinct(bs) && forall b :: b in bs ==> b !in C && 2 <= b < |s.disk|
  }

  lemma PlanPtrs(s: Fs, C: Cert, i: nat, bs: seq<nat>, off: nat, n: nat, now: nat, k: nat)
    requires Plan(s, C, i, bs, off, n) && k < Blocks(off + n)
    ensures var x := Written(Node(s.disk, i), bs, off + n, now); var cur := Span(s.disk, i);
      x.ptrs[k] == if k < cur then Ptr(s.disk, i, k) else bs[k - cur]
    ensures Written(Node(s.disk, i), bs, off + n, now).size == if Node(s.disk, i).size < off + n then off + n
        else Node(s.disk, i).size
  {
    hide *;
    PlanNode(s, C, i, bs, off, n);
    SpanBlocks(s.disk, i);
    SizeArithmetic(Node(s.disk, i).size, off + n);
    WrittenParts(Node(s.disk, i), bs, off + n, now, k);
    PtrAt(s.disk, i, k);
    if k >= Span(s.disk, i) {
      assert bs[k - Span(s.disk, i)] in bs;
    }
  }

  lemma PlanNode(s: Fs, C: Cert, i: nat, bs: seq<nat>, off: nat, n: nat)
    requires Plan(s, C, i, bs, off, n)
    ensures 0 <= Node(s.disk, i).size <= 1019 * 4096 && (forall b :: b in bs ==> b < 32768)
    ensures Blocks(off + n) == Span(s.disk, i) + |bs| && Blocks(off + n) <= 1019
  {
    assert NodeOk(s.disk, i) && |s.disk| <= 32768;
    hide Inv;
  }

  lemma WrittenParts(x: Inode, bs: seq<nat>, end: nat, now: nat, k: nat)
    requires k < 1019
    ensures var w := Written(x, bs, end, now); var cur := Blocks(x.size);
      && w.size == NewSize(x.size, end)
      && w.ptrs[k] == if cur <= k < cur + |bs| then bs[k - cur] % 0x1_0000_0000 else x.ptrs[k]
  {
    hide Blocks, NewSize;
  }

  lemma PtrAt(d: Disk, i: nat, k: nat)
    requires k < 1019
    ensures Ptr(d, i, k) == Node(d, i).ptrs[k]
  {
    hide Node;
  }

  /** The file's old blocks and the new ones are the pages of the write. */
  lemma PlanPages(s: Fs, C: Cert, i: nat, bs: seq<nat>, off: nat, n: nat, now: nat)
    requires Plan(s, C, i, bs, off, n)
    ensures var x := Written(Node(s.disk, i), bs, off + n, now);
      && Pages(s.disk, x.ptrs, Blocks(off + n)) && off + n <= 4096 * Blocks(off + n)
      && (forall k :: 0 <= k < Blocks(off + n) ==>
            && x.ptrs[k] != i && 2 <= x.ptrs[k] < |s.disk|
            && (x.ptrs[k] in C ==> C[x.ptrs[k]].Data? && C[x.ptrs[k]].owner == i))
  {
    var d, x, m, cur := s.disk, Written(Node(s.disk, i), bs, off + n, now), Blocks(off + n), Span(s.disk, i);
    InvParts(s, C);
    OneOutside(d, C);
    forall k | 0 <= k < m
      ensures x.ptrs[k] == if k < cur then Ptr(d, i, k) else bs[k - cur]
      ensures k < cur ==> x.ptrs[k] in C && C[x.ptrs[k]] == Data(i, k)
      ensures k >= cur ==> x.ptrs[k] !in C && 2 <= x.ptrs[k] < |d|
    {
      PlanPtrs(s, C, i, bs, off, n, now, k);
      if k >= cur { assert bs[k - cur] in bs; }
    }
    hide Inv, Written, Nodes, Owned, Links, Linked, Names, Owns;
    forall j, k | 0 <= j < k < m ensures x.ptrs[j] != x.ptrs[k] { }
  }

  /** The disk agrees with d except in data blocks of file i and in blocks out of use. */
  ghost predicate AgreeData(d: Disk, e: Disk, C: Cert, i: nat) {
    |e| == |d| && forall b :: b in C && !(C[b].Data? && C[b].owner == i) ==> At(e, b) == At(d, b)
  }

  /** Overwriting data of a file does not move anything in the tree. */
  lemma AgreeDataTree(d: Disk, C: Cert, e: Disk, i: nat)
    requires Tree(d, C) && Ino(C, i) && !DirAt(d, i) && AgreeData(d, e, C, i)
    ensures Tree(e, C) && AgreeExcept(d, e, C, i)
  {
    forall j | Ino(C, j) ensures SameIno(d, e, j) { }
    forall j, k | Ino(C, j) && DirAt(d, j) && 0 <= k < Slots(d, j)
      ensures Ent(e, j, k) == Ent(d, j, k)
    {
      assert k / 128 < Span(d, j);
      assert C[Ptr(d, j, k / 128)] == Data(j, k / 128);
    }
    hide Ent, Slots, Span, Ptr, DirAt, NodeOk, CStr;
    SameTreeTree(d, e, C);
  }

  /** Every prefix of the data writes leaves the tree where it was. */
  lemma DataPrefix(s: Fs, C: Cert, i: nat, bs: seq<nat>, off: nat, data: Str, now: nat, m: nat)
    requires Plan(s, C, i, bs, off, |data|)
    requires var x := Written(Node(s.disk, i), bs, off + |data|, now); m <= |DataWrites(s.disk, x.ptrs, off, data)|
    ensures var x := Written(Node(s.disk, i), bs, off + |data|, now);
      var e := Apply(s.disk, DataWrites(s.disk, x.ptrs, off, data)[..m]);
      AgreeData(s.disk, e, C, i) && SameTop(s.disk, e) && Safe(e, C)
  {
    hide *;
    var e := Apply(s.disk, DataWrites(s.disk, Written(Node(s.disk, i), bs, off + |data|, now).ptrs, off, data)[..m]);
    DataLeaves(s, C, i, bs, off, data, now, m);
    PlanParts(s, C, i, bs, off, |data|);
    InvParts(s, C);
    AgreeDataTree(s.disk, C, e, i);
    SameSize(s.disk, e, C, i);
    DataSafe(s, C, e);
  }

  lemma SameSize(d: Disk, e: Disk, C: Cert, i: nat)
    requires AgreeData(d, e, C, i)
    ensures |e| == |d|
  {}

  /** Blocks 0 and 1 and the blocks of other owners are none of the pages. */
  lemma DataLeaves(s: Fs, C: Cert, i: nat, bs: seq<nat>, off: nat, data: Str, now: nat, m: nat)
    requires Plan(s, C, i, bs, off, |data|)
    requires var x := Written(Node(s.disk, i), bs, off + |data|, now); m <= |DataWrites(s.disk, x.ptrs, off, data)|
    ensures var x := Written(Node(s.disk, i), bs, off + |data|, now);
      var e := Apply(s.disk, DataWrites(s.disk, x.ptrs, off, data)[..m]);
      AgreeData(s.disk, e, C, i) && SameTop(s.disk, e)
  {
    var x := Written(Node(s.disk, i), bs, off + |data|, now);
    var e := Apply(s.disk, DataWrites(s.disk, x.ptrs, off, data)[..m]);
    PlanPages(s, C, i, bs, off, |data|, now);
    hide DataWrites, Apply, Written, Plan, Pages;
    forall b: nat | b == 0 || b == 1 || (b in C && !(C[b].Data? && C[b].owner == i))
      ensures At(e, b) == At(s.disk, b)
    {
      DataElse(s.disk, x.ptrs, Blocks(off + |data|), off, data, m, b);
    }
  }

  lemma DataSafe(s: Fs, C: Cert, e: Disk)
    requires Inv(s, C) && Tree(e, C) && SameTop(s.disk, e) && |e| == |s.disk|
    ensures Safe(e, C)
  {
    hide Tree, Bit;
  }

  /** The disk when the inode has been written. */
  ghost function WrittenDisk(d: Disk, i: nat, x: Inode, off: nat, data: Str): Disk {
    Put(Apply(d, DataWrites(d, x.ptrs, off, data)), i, InodeSector(x))
  }

  /** After the inode write the tree is the old one with the new blocks added to the file. */
  lemma WrittenTree(s: Fs, C: Cert, i: nat, bs: seq<nat>, off: nat, data: Str, now: nat, r: Path)
    requires Plan(s, C, i, bs, off, |data|) && Walk(s.disk, r) == Ok(i)
    ensures var x := Written(Node(s.disk, i), bs, off + |data|, now); var e := WrittenDisk(s.disk, i, x, off, data);
      && Table(e, i) == Table(s.disk, i) + bs && Node(e, i) == x && SameTop(s.disk, e) && |e| == |s.disk|
      && Tree(e, Retable(C, i, Table(s.disk, i) + bs)) && Replaced(s.disk, e, r, ObjAt(e, i)) && !DirAt(e, i)
      && forall q: Path :: Walk(s.disk, q).Ok? || Walk(e, q).Ok? ==> Walk(e, q) == Walk(s.disk, q)
  {
    hide *;
    var x := Written(Node(s.disk, i), bs, off + |data|, now);
    var dw := DataWrites(s.disk, x.ptrs, off, data);
    var f := Apply(s.disk, dw);
    DataPrefix(s, C, i, bs, off, data, now, |dw|);
    assert dw[..|dw|] == dw;
    PlanParts(s, C, i, bs, off, |data|);
    WrittenDiskIs(s.disk, i, x, off, data);
    InodePut(s.disk, C, i, f, x);
    WrittenTable(s, C, i, bs, off, |data|, now, WrittenDisk(s.disk, i, x, off, data));
    FileChanges(s.disk, C, WrittenDisk(s.disk, i, x, off, data), i, r);
  }

  lemma PlanParts(s: Fs, C: Cert, i: nat, bs: seq<nat>, off: nat, n: nat)
    requires Plan(s, C, i, bs, off, n)
    ensures Inv(s, C) && Tree(s.disk, C) && Ino(C, i) && !DirAt(s.disk, i) && 2 <= i < |s.disk|
    ensures MayHold(s.disk, C, i, Table(s.disk, i) + bs)
  {
    var d, t := s.disk, Table(s.disk, i);
    InvParts(s, C);
    BlocksOfCert(d, C, i);
    forall b | b in t
      ensures b in C && C[b].Data? && C[b].owner == i && 2 <= b < |d|
    {
      assert b in BlocksOf(d, i);
      var k := IndexOf(t, b);
      assert Ptr(d, i, k) == b;
    }
    assert i in C;
    hide Inv, Tree, Table, Span, Blocks;
    TableJoin(d, C, i, t, bs);
  }

  lemma TableJoin(d: Disk, C: Cert, i: nat, t: seq<nat>, bs: seq<nat>)
    requires Distinct(t) && Distinct(bs)
    requires forall b :: b in t ==> b in C && C[b].Data? && C[b].owner == i && 2 <= b < |d|
    requires forall b :: b in bs ==> b !in C && 2 <= b < |d|
    ensures MayHold(d, C, i, t + bs)
  {
    assert forall b :: b in t + bs <==> b in t || b in bs;
    forall x, y | 0 <= x < y < |t + bs|
      ensures (t + bs)[x] != (t + bs)[y]
    {
      if x < |t| <= y { assert t[x] in t && bs[y - |t|] in bs; }
    }
  }

  /** The new table is the old one and then the new blocks. */
  lemma WrittenTable(s: Fs, C: Cert, i: nat, bs: seq<nat>, off: nat, n: nat, now: nat, e: Disk)
    requires Plan(s, C, i, bs, off, n) && Node(e, i) == Written(Node(s.disk, i), bs, off + n, now)
    ensures Table(e, i) == Table(s.disk, i) + bs && NodeOk(e, i) && !DirAt(e, i)
  {
    WrittenSize(s, C, i, bs, off, n, now);
    var d, m := s.disk, Blocks(off + n);
    assert Span(e, i) == m && m == Span(d, i) + |bs|;
    forall k | 0 <= k < m
      ensures Ptr(e, i, k) == if k < Span(d, i) then Ptr(d, i, k) else bs[k - Span(d, i)]
    {
      PlanPtrs(s, C, i, bs, off, n, now, k);
    }
    hide Plan, Written, Span, Ptr;
    assert Table(e, i) == Table(d, i) + bs;
  }

  lemma WrittenSize(s: Fs, C: Cert, i: nat, bs: seq<nat>, off: nat, n: nat, now: nat)
    requires Plan(s, C, i, bs, off, n)
    ensures var x := Written(Node(s.disk, i), bs, off + n, now);
      && Blocks(x.size) == Blocks(off + n) && 0 <= x.size <= 1019 * 4096 && x.mode == Node(s.disk, i).mode
      && x.size == (if Node(s.disk, i).size < off + n then off + n else Node(s.disk, i).size)
      && IsReg(x.mode) && !IsDir(x.mode)
  {
    assert NodeOk(s.disk, i);
    hide Inv, Assign, NewSize, Blocks;
    SizeArithmetic(Node(s.disk, i).size, off + n);
  }

  lemma SizeArithmetic(size: int32, end: nat)
    requires 0 <= size <= 1019 * 4096 && Blocks(size) <= Blocks(end) <= 1019
    ensures NewSize(size, end) == (if size < end then end else size) && Blocks(NewSize(size, end)) == Blocks(end)
    ensures 0 <= NewSize(size, end) <= 1019 * 4096
  {}

  lemma InodePut(d: Disk, C: Cert, i: nat, f: Disk, x: Inode)
    requires 2 <= i < |d| && AgreeData(d, f, C, i) && SameTop(d, f)
    ensures var e := Put(f, i, InodeSector(x));
      Node(e, i) == x && SameTop(d, e) && AgreeExcept(d, e, C, i) && |e| == |d|
  {
    hide EncodeInode, DecodeDirents;
  }

  lemma WrittenDiskIs(d: Disk, i: nat, x: Inode, off: nat, data: Str)
    ensures WrittenDisk(d, i, x, off, data) == Put(Apply(d, DataWrites(d, x.ptrs, off, data)), i, InodeSector(x))
  {}

  // ---- the bytes a user sees ----

  /** data written over the contents c at off. */
  function Spliced(c: Str, off: nat, data: Str): Str
    requires off <= |c|
  { c[..off] + data + if off + |data| < |c| then c[off + |data|..] else [] }

  lemma SplicedAt(c: Str, off: nat, data: Str, x: nat)
    requires off <= |c| && (x < |c| || x < off + |data|)
    ensures |Spliced(c, off, data)| == if |c| < off + |data| then off + |data| else |c|
    ensures Spliced(c, off, data)[x] == if off <= x < off + |data| then data[x - off] else c[x]
  {}

  /** The byte at position x of inode i, whatever its size. */
  function ByteAt(d: Disk, i: nat, x: nat): byte { At(d, Ptr(d, i, x / 4096)).bytes[x % 4096] }

  /** One byte of the file after the write: no byte of a reused block shows below the new size. */
  lemma WrittenByte(s: Fs, C: Cert, i: nat, bs: seq<nat>, off: nat, data: Str, now: nat, x: nat)
    requires Plan(s, C, i, bs, off, |data|) && (x < Node(s.disk, i).size || x < off + |data|)
    ensures var e := WrittenDisk(s.disk, i, Written(Node(s.disk, i), bs, off + |data|, now), off, data);
      ByteAt(e, i, x) == if off <= x < off + |data| then data[x - off] else ByteAt(s.disk, i, x)
  {
    hide *;
    var d, w := s.disk, Written(Node(s.disk, i), bs, off + |data|, now);
    var k, o, m := x / 4096, x % 4096, Blocks(off + |data|);
    var e := WrittenDisk(d, i, w, off, data);
    PlanPages(s, C, i, bs, off, |data|, now);
    PlanBounds(s, C, i, bs, off, |data|);
    PageOf(s, C, i, bs, off, |data|, now, x);
    DataByte(d, w.ptrs, m, off, data, k, o);
    OtherThanInode(d, i, w, off, data, w.ptrs[k]);
    WrittenInode(s, i, w, off, data);
    PtrIs(e, i, w, k);
    ByteAtIs(e, i, x);
    ByteAtIs(d, i, x);
    OverlaidIs(At(d, w.ptrs[k]).bytes, x, off, data);
  }

  lemma PtrIs(e: Disk, i: nat, w: Inode, k: nat)
    requires Node(e, i) == w && k < 1019
    ensures Ptr(e, i, k) == w.ptrs[k]
  {}

  lemma ByteAtIs(d: Disk, i: nat, x: nat)
    ensures ByteAt(d, i, x) == At(d, Ptr(d, i, x / 4096)).bytes[x % 4096]
  {}

  lemma OverlaidIs(b: Block, x: nat, off: nat, data: Str)
    ensures Overlaid(b, x / 4096, x % 4096, off, data) == if off <= x < off + |data| then data[x - off] else b[x % 4096]
  {}

  lemma OtherThanInode(d: Disk, i: nat, w: Inode, off: nat, data: Str, b: nat)
    requires b != i
    ensures At(WrittenDisk(d, i, w, off, data), b) == At(Apply(d, DataWrites(d, w.ptrs, off, data)), b)
  {
    WrittenDiskIs(d, i, w, off, data);
    hide WrittenDisk, InodeSector, DataWrites, Apply;
  }

  /** Position x lies in a page of the write; a position the write does not cover lies in the old table. */
  lemma PageOf(s: Fs, C: Cert, i: nat, bs: seq<nat>, off: nat, n: nat, now: nat, x: nat)
    requires Plan(s, C, i, bs, off, n) && (x < Node(s.disk, i).size || x < off + n)
    ensures x / 4096 < Blocks(off + n) <= 1019
    ensures var w := Written(Node(s.disk, i), bs, off + n, now);
      w.ptrs[x / 4096] != i && (!(off <= x < off + n) ==> w.ptrs[x / 4096] == Ptr(s.disk, i, x / 4096))
  {
    WrittenSize(s, C, i, bs, off, n, now);
    PlanPages(s, C, i, bs, off, n, now);
    PlanPtrs(s, C, i, bs, off, n, now, x / 4096);
    hide Written, Pages;
  }

  /** A non-shrinking write at off turns the contents c into c[..off] + data + what lay behind it. */
  lemma WrittenContent(s: Fs, C: Cert, i: nat, bs: seq<nat>, off: nat, data: Str, now: nat)
    requires Plan(s, C, i, bs, off, |data|)
    ensures var e := WrittenDisk(s.disk, i, Written(Node(s.disk, i), bs, off + |data|, now), off, data);
      off <= |Content(s.disk, i)| && Content(e, i) == Spliced(Content(s.disk, i), off, data)
  {
    hide *;
    var w := Written(Node(s.disk, i), bs, off + |data|, now);
    var e, c := WrittenDisk(s.disk, i, w, off, data), Content(s.disk, i);
    WrittenSize(s, C, i, bs, off, |data|, now);
    PlanBounds(s, C, i, bs, off, |data|);
    WrittenInode(s, i, w, off, data);
    ContentSize(s.disk, i);
    ContentSize(e, i);
    SplicedSize(c, off, data);
    forall x: nat | x < |Content(e, i)|
      ensures Content(e, i)[x] == Spliced(c, off, data)[x]
    {
      WrittenByte(s, C, i, bs, off, data, now, x);
      ContentByte(e, i, x);
      if x < |c| { ContentByte(s.disk, i, x); }
      SplicedAt(c, off, data, x);
    }
  }

  lemma SplicedSize(c: Str, off: nat, data: Str)
    requires off <= |c|
    ensures |Spliced(c, off, data)| == if |c| < off + |data| then off + |data| else |c|
  {}

  lemma ContentSize(d: Disk, i: nat)
    ensures |Content(d, i)| == if Node(d, i).size < 0 then 0 else Node(d, i).size
  {}

  lemma ContentByte(d: Disk, i: nat, x: nat)
    requires x < |Content(d, i)|
    ensures Content(d, i)[x] == ByteAt(d, i, x)
  {}

  lemma PlanBounds(s: Fs, C: Cert, i: nat, bs: seq<nat>, off: nat, n: nat)
    requires Plan(s, C, i, bs, off, n)
    ensures 2 <= i < |s.disk| && 0 <= off <= Node(s.disk, i).size
  {
    PlanParts(s, C, i, bs, off, n);
  }

  lemma WrittenInode(s: Fs, i: nat, x: Inode, off: nat, data: Str)
    requires i < |s.disk|
    ensures Node(WrittenDisk(s.disk, i, x, off, data), i) == x
  {
    WrittenDiskIs(s.disk, i, x, off, data);
    hide EncodeInode, DecodeDirents, DataWrites, Apply, WrittenDisk;
  }

  // ---- fs_write ----

  /** The write starts inside the file, does not end in an earlier block than the file does, and finds its blocks. */
  predicate CanWrite(s: Fs, i: nat, off: nat, n: nat) {
    var k := Blocks(off + n) - Blocks(Node(s.disk, i).size);
    off <= Node(s.disk, i).size && 0 <= k && |Take(s.bitmap, |s.disk|, k).blocks| == k
  }

  /** fs_write never assigns a pointer past the table. It holds on every disk of at most 1024 blocks. */
  predicate Room(s: Fs, i: nat, off: nat, n: nat) {
    Blocks(Node(s.disk, i).size) + |Take(s.bitmap, |s.disk|, Needed(off, n, Node(s.disk, i).size)).blocks| <= 1019
  }

  /** On a disk of at most 1024 blocks no write of any length overruns the pointer table, even when the count of
      needed blocks wraps around. */
  lemma RoomOnSmallDisks(s: Fs, C: Cert, i: nat, off: nat, n: nat)
    requires Inv(s, C) && Ino(C, i) && !DirAt(s.disk, i) && |s.disk| <= 1024
    ensures Room(s, i, off, n)
  {
    hide Inv, Take;
    Pigeonhole(s, C, i, Needed(off, n, Node(s.disk, i).size));
  }

  /** The blocks a successful write takes. */
  function NewBlocks(s: Fs, i: nat, off: nat, n: nat): Taken {
    var k := Blocks(off + n) - Blocks(Node(s.disk, i).size);
    Take(s.bitmap, |s.disk|, if k < 0 then 0 else k)
  }

  /** Ending in an earlier block wraps the count, which no disk can meet; otherwise the count is the difference. */
  lemma NeededIs(s: Fs, C: Cert, i: nat, off: nat, n: nat)
    requires Inv(s, C) && Ino(C, i) && !DirAt(s.disk, i) && off + n <= 0xFFF_FFFF_F000
    ensures var m := Node(s.disk, i); var need := Needed(off, n, m.size); var t := Take(s.bitmap, |s.disk|, need);
      && (off <= m.size ==> (|t.blocks| == need <==> CanWrite(s, i, off, n)))
      && (CanWrite(s, i, off, n) ==> t == NewBlocks(s, i, off, n))
      && |t.blocks| <= need
  {
    hide *;
    var m := Node(s.disk, i);
    SmallSpan(s, C, i);
    TakeBounded(s.bitmap, |s.disk|, Needed(off, n, m.size));
    NeededArithmetic(off + n, m.size);
    NeededShape(s, i, off, n);
  }

  lemma SmallSpan(s: Fs, C: Cert, i: nat)
    requires Inv(s, C) && Ino(C, i)
    ensures 0 <= Blocks(Node(s.disk, i).size) <= 1019 && |s.disk| <= 32768
  {
    assert NodeOk(s.disk, i);
  }

  lemma NeededArithmetic(end: nat, size: int)
    requires end <= 0xFFF_FFFF_F000 && Blocks(size) <= 1019
    ensures var k := Blocks(end) - Blocks(size);
      (Blocks(end) - Blocks(size)) % 0x1_0000_0000 == (if k >= 0 then k else k + 0x1_0000_0000)
    ensures Blocks(end) - Blocks(size) < 0 ==> Blocks(end) - Blocks(size) + 0x1_0000_0000 > 32768
  {
    var x: int, y: int := Blocks(end), Blocks(size);
    assert 0 <= x < 0x1_0000_0000;
  }

  lemma NeededShape(s: Fs, i: nat, off: nat, n: nat)
    ensures Needed(off, n, Node(s.disk, i).size) == (Blocks(off + n) - Blocks(Node(s.disk, i).size)) % 0x1_0000_0000
    ensures var k := Blocks(off + n) - Blocks(Node(s.disk, i).size);
      && (CanWrite(s, i, off, n) <==>
            off <= Node(s.disk, i).size && 0 <= k && |Take(s.bitmap, |s.disk|, k).blocks| == k)
      && NewBlocks(s, i, off, n) == Take(s.bitmap, |s.disk|, if k < 0 then 0 else k)
      && forall m: nat :: |Take(s.bitmap, |s.disk|, m).blocks| <= m
  {
    hide Blocks, Take;
  }

  lemma WriteIsPlan(s: Fs, C: Cert, i: nat, off: nat, n: nat)
    requires Inv(s, C) && Ino(C, i) && !DirAt(s.disk, i) && off + n <= 0xFFF_FFFF_F000
    requires CanWrite(s, i, off, n) && Room(s, i, off, n)
    ensures Plan(s, C, i, NewBlocks(s, i, off, n).blocks, off, n)
    ensures |NewBlocks(s, i, off, n).blocks| == Blocks(off + n) - Span(s.disk, i)
  {
    hide *;
    NeededIs(s, C, i, off, n);
    NeededShape(s, i, off, n);
    TakenFresh(s, C, Blocks(off + n) - Blocks(Node(s.disk, i).size));
    RoomFits(s, i, off, n);
    SpanBlocks(s.disk, i);
    IsPlan(s, C, i, NewBlocks(s, i, off, n).blocks, off, n);
  }

  lemma RoomFits(s: Fs, i: nat, off: nat, n: nat)
    requires Room(s, i, off, n) && CanWrite(s, i, off, n)
    requires Take(s.bitmap, |s.disk|, Needed(off, n, Node(s.disk, i).size)) == NewBlocks(s, i, off, n)
    ensures Blocks(Node(s.disk, i).size) + |NewBlocks(s, i, off, n).blocks| <= 1019
  {
    hide Take, Needed, Blocks, NewBlocks;
  }

  lemma SpanBlocks(d: Disk, i: nat)
    ensures Span(d, i) == Blocks(Node(d, i).size)
  {
    hide Blocks, Node;
  }

  lemma IsPlan(s: Fs, C: Cert, i: nat, bs: seq<nat>, off: nat, n: nat)
    requires Inv(s, C) && Ino(C, i) && !DirAt(s.disk, i) && off <= Node(s.disk, i).size
    requires Blocks(off + n) == Span(s.disk, i) + |bs| && Blocks(off + n) <= 1019
    requires Distinct(bs) && forall b :: b in Members(bs) ==> b !in C && 2 <= b < |s.disk|
    ensures Plan(s, C, i, bs, off, n)
  {
    hide Inv, Blocks, Node, Span, DirAt, Distinct;
    forall b | b in bs ensures b !in C && 2 <= b < |s.disk| { assert b in Members(bs); }
  }

  /** The writes of a successful call. */
  function WriteList(s: Fs, i: nat, data: Str, off: nat, now: nat): seq<Write> {
    var t := NewBlocks(s, i, off, |data|);
    var x := Written(Node(s.disk, i), t.blocks, off + |data|, now);
    var ws := DataWrites(s.disk, x.ptrs, off, data) + [Write(i, InodeSector(x))];
    if Blocks(off + |data|) > Blocks(Node(s.disk, i).size) then ws + [Flush(t.map8)] else ws
  }

  lemma WriteAtShape(s: Fs, C: Cert, i: nat, data: Str, off: nat, now: nat)
    requires Inv(s, C) && Ino(C, i) && !DirAt(s.disk, i) && off + |data| <= 0xFFF_FFFF_F000
    ensures WriteAt(s, i, data, off, now) ==
      if CanWrite(s, i, off, |data|) then Outcome(|data|, WriteList(s, i, data, off, now),
          NewBlocks(s, i, off, |data|).map8)
      else if off > Node(s.disk, i).size then Err(s, EINVAL)
      else Outcome(ENOSPC, [], Take(s.bitmap, |s.disk|, Needed(off, |data|, Node(s.disk, i).size)).map8)
  {
    NeededIs(s, C, i, off, |data|);
    hide Inv, Take, Needed, NewBlocks, DataWrites, Written, Flush, Blocks, InodeSector;
  }

  /** The disk of a successful write: the written disk, and the bitmap flushed if there are new blocks. */
  lemma WriteDisk(s: Fs, i: nat, data: Str, off: nat, now: nat)
    ensures var t := NewBlocks(s, i, off, |data|); var x := Written(Node(s.disk, i), t.blocks, off + |data|, now);
      var e := WrittenDisk(s.disk, i, x, off, data);
      Apply(s.disk, WriteList(s, i, data, off, now)) ==
        if Blocks(off + |data|) > Blocks(Node(s.disk, i).size) then Put(e, 1, Flush(t.map8).data) else e
  {
    var t := NewBlocks(s, i, off, |data|);
    var x := Written(Node(s.disk, i), t.blocks, off + |data|, now);
    var dw := DataWrites(s.disk, x.ptrs, off, data);
    var v := Write(i, InodeSector(x));
    WrittenDiskIs(s.disk, i, x, off, data);
    ApplyOn(s.disk, dw, v);
    ApplyOn(s.disk, dw + [v], Flush(t.map8));
    FlushIsWrite(t.map8);
    hide Apply, DataWrites, NewBlocks, Written, WrittenDisk, InodeSector, Blocks, Flush, Put;
  }

  lemma NewBlocksMarks(s: Fs, C: Cert, i: nat, off: nat, n: nat)
    requires Inv(s, C)
    ensures var t := NewBlocks(s, i, off, n);
      && (forall b: nat :: Bit(t.map8, b) <==> Bit(s.bitmap, b) || b in Members(t.blocks))
      && (forall b :: b in Members(t.blocks) ==> b !in C && !OnDisk(s.disk, b) && !Bit(s.bitmap, b)) &&
          Distinct(t.blocks)
      && (t.blocks == [] ==> t.map8 == s.bitmap)
  {
    hide Bit, Take, Blocks;
    InvParts(s, C);
    var k := Blocks(off + n) - Blocks(Node(s.disk, i).size);
    var j := if k < 0 then 0 else k;
    TakeFacts(s.bitmap, |s.disk|, j);
    TakenFresh(s, C, j);
    hide Inv;
    var t := NewBlocks(s, i, off, n);
    if t.blocks == [] { MarksDetermineMap(t.map8, s.bitmap); }
  }

  /** The blocks of the certificate after a write. */
  lemma WrittenKeys(d: Disk, C: Cert, i: nat, bs: seq<nat>)
    requires Tree(d, C) && Ino(C, i) && forall b :: b in Members(bs) ==> b !in C
    ensures Retable(C, i, Table(d, i) + bs).Keys == C.Keys + Members(bs)
  {
    var t := Table(d, i);
    BlocksOfCert(d, C, i);
    assert forall b :: b in t + bs <==> b in t || b in bs;
    forall b | b in C.Keys
      ensures b in Retable(C, i, t + bs)
    {
      if IsData(C, b) && C[b].owner == i { assert b in BlocksOf(d, i) && b != i && b in Members(t); }
    }
    forall b | b in t
      ensures b in C
    {
      assert b in BlocksOf(d, i);
    }
    hide Table;
  }

  // ---- what fs_write keeps ----

  /** The blocks first-fit could still hand out. */
  function FreeBlocks(s: Fs): set<nat> { set b: nat | 2 <= b < |s.disk| && !Bit(s.bitmap, b) }

  /** Success replaces just the object at r and uses up the blocks more; a failure writes nothing,
      but one for want of space leaves every block marked in memory. */
  ghost predicate WriteResult(s: Fs, C: Cert, o: Outcome, D: Cert, r: Path, obj: Obj, more: nat) {
    (Clean(s) && (o.code != ENOSPC || FreeBlocks(s) == {}) ==> Clean(After(s, o))) &&
    if o.code >= 0 then
      && Loses(s.bitmap, C, o.bitmap, D, {}) && Replaced(s.disk, After(s, o).disk, r, obj)
      && |D.Keys| == |C.Keys| + more
    else
      && D == C && o.writes == []
      && Loses(s.bitmap, C, o.bitmap, D, if o.code == ENOSPC then FreeBlocks(s) else {})
  }

  /** The object at the target when data has been written at off. */
  function WrittenObj(d: Disk, i: nat, off: nat, data: Str, now: nat): Obj {
    var c := Content(d, i);
    File(AttrOf(Node(d, i)).(mtime := now % 0x1_0000_0000), if off <= |c| then Spliced(c, off, data) else c)
  }

  lemma WrittenObjIs(s: Fs, C: Cert, i: nat, bs: seq<nat>, off: nat, data: Str, now: nat)
    requires Plan(s, C, i, bs, off, |data|)
    ensures var e := WrittenDisk(s.disk, i, Written(Node(s.disk, i), bs, off + |data|, now), off, data);
      !DirAt(e, i) ==> ObjAt(e, i) == WrittenObj(s.disk, i, off, data, now)
  {
    PlanBounds(s, C, i, bs, off, |data|);
    WrittenInode(s, i, Written(Node(s.disk, i), bs, off + |data|, now), off, data);
    WrittenContent(s, C, i, bs, off, data, now);
    hide Plan, Content, Spliced, WrittenDisk, IsDir, Assign, NewSize, Blocks;
  }

  /** Flushing a bitmap that marks all of a tree makes the disk safe. */
  lemma FlushMakes(e: Disk, D: Cert, bm: Block, w: Write)
    requires Tree(e, D) && |e| <= 32768 && Headed(e) && w.lba == 1 && w.data.bytes == bm
    requires Bit(bm, 0) && Bit(bm, 1) && forall b :: b in D ==> Bit(bm, b)
    ensures Inv(Fs(Put(e, 1, w.data), bm), D) && Agree(e, Put(e, 1, w.data), D)
  {
    OneOutside(e, D);
    hide Bit, Tree;
    AgreeTree(e, Put(e, 1, w.data), D);
  }

  lemma SameMarks(s: Fs, C: Cert, e: Disk, D: Cert)
    requires Inv(s, C) && Tree(e, D) && SameTop(s.disk, e) && |e| == |s.disk| && D.Keys <= C.Keys
    ensures Inv(Fs(e, s.bitmap), D)
  {
    InvParts(s, C);
    RetableSafe(s.disk, C, e, D);
    hide Tree, Bit;
  }

  lemma GrownSlack(s: Fs, C: Cert, D: Cert, bm: Block, M: set<nat>)
    requires Inv(s, C) && D.Keys == C.Keys + M && forall b: nat :: Bit(bm, b) <==> Bit(s.bitmap, b) || b in M
    requires forall b :: b in M ==> b !in C && !Bit(s.bitmap, b)
    ensures Loses(s.bitmap, C, bm, D, {}) && Bit(bm, 0) && Bit(bm, 1) && |D.Keys| == |C.Keys| + |M|
    ensures forall b :: b in D ==> Bit(bm, b)
  {
    InvMarks(s, C);
    hide Inv, Bit;
    assert forall b: nat :: b in D <==> b in C || b in M;
    assert C.Keys !! M;
  }

  /** The tree and the invariant after the writes of a successful call. */
  lemma WriteDone(s: Fs, C: Cert, i: nat, data: Str, off: nat, now: nat, r: Path) returns (D: Cert)
    requires Inv(s, C) && Ino(C, i) && !DirAt(s.disk, i) && off + |data| <= 0xFFF_FFFF_F000
    requires CanWrite(s, i, off, |data|) && Room(s, i, off, |data|) && Walk(s.disk, r) == Ok(i)
    ensures var o := Outcome(|data|, WriteList(s, i, data, off, now), NewBlocks(s, i, off, |data|).map8);
      && Inv(After(s, o), D)
      && WriteResult(s, C, o, D, r, WrittenObj(s.disk, i, off, data, now), Blocks(off + |data|) - Span(s.disk, i))
      && D == Retable(C, i, Table(s.disk, i) + NewBlocks(s, i, off, |data|).blocks) && Ino(D, i)
  {
    hide *;
    var d, t := s.disk, NewBlocks(s, i, off, |data|);
    var x := Written(Node(d, i), t.blocks, off + |data|, now);
    var e, o := WrittenDisk(d, i, x, off, data), Outcome(|data|, WriteList(s, i, data, off, now), t.map8);
    var obj := WrittenObj(d, i, off, data, now);
    D := Retable(C, i, Table(d, i) + t.blocks);
    InvParts(s, C);
    WriteIsPlan(s, C, i, off, |data|);
    WrittenTree(s, C, i, t.blocks, off, data, now, r);
    WrittenObjIs(s, C, i, t.blocks, off, data, now);
    StillIno(s, C, i, t.blocks, off, |data|);
    TableGrows(s, C, i, off, |data|);
    WriteDisk(s, i, data, off, now);
    AfterIs(s, o);
    GrowsIs(s, i, off, |data|, t.blocks);
    if t.blocks != [] {
      FlushIsWrite(t.map8);
      HeadKept(d, e, C);
      FlushMakes(e, D, t.map8, Flush(t.map8));
      ReplacedThenFlush(d, e, Put(e, 1, Flush(t.map8).data), D, r, obj);
      OneOutside(d, C);
      FlushIsClean(After(s, o), e, Flush(t.map8), t.map8);
    } else {
      CleanKept(s, e);
      SameMarks(s, C, e, D);
    }
    FsIs(After(s, o));
    IsWrite(s, C, o, D, r, obj, |t.blocks|);
  }

  lemma HeadKept(d: Disk, e: Disk, C: Cert)
    requires Safe(d, C) && SameTop(d, e) && |e| == |d|
    ensures Headed(e)
  {}

  lemma FlushIsClean(f: Fs, e: Disk, w: Write, m: Block)
    requires f.disk == Put(e, 1, w.data) && 1 < |e| && w.data.bytes == m && f.bitmap == m
    ensures Clean(f)
  {}

  lemma TableGrows(s: Fs, C: Cert, i: nat, off: nat, n: nat)
    requires Inv(s, C) && Ino(C, i)
    ensures var t := NewBlocks(s, i, off, n); var D := Retable(C, i, Table(s.disk, i) + t.blocks);
      && Loses(s.bitmap, C, t.map8, D, {}) && Bit(t.map8, 0) && Bit(t.map8, 1)
      && (forall b :: b in D ==> Bit(t.map8, b))
      && |D.Keys| == |C.Keys| + |t.blocks| && (t.blocks == [] ==> D.Keys <= C.Keys && t.map8 == s.bitmap)
  {
    hide *;
    var t := NewBlocks(s, i, off, n);
    InvParts(s, C);
    NewBlocksMarks(s, C, i, off, n);
    WrittenKeys(s.disk, C, i, t.blocks);
    GrownSlack(s, C, Retable(C, i, Table(s.disk, i) + t.blocks), t.map8, Members(t.blocks));
    MembersSize(t.blocks);
    if t.blocks == [] { NoMembers(t.blocks); }
  }

  lemma StillIno(s: Fs, C: Cert, i: nat, bs: seq<nat>, off: nat, n: nat)
    requires Plan(s, C, i, bs, off, n)
    ensures Ino(Retable(C, i, Table(s.disk, i) + bs), i)
  {
    PlanParts(s, C, i, bs, off, n);
  }

  lemma NoMembers(bs: seq<nat>)
    requires bs == []
    ensures Members(bs) == {} && forall S: set<nat> :: S + Members(bs) == S
  {}

  lemma FsIs(s: Fs)
    ensures s == Fs(s.disk, s.bitmap)
  {}

  lemma GrowsIs(s: Fs, i: nat, off: nat, n: nat, bs: seq<nat>)
    requires |bs| == Blocks(off + n) - Span(s.disk, i)
    ensures Blocks(off + n) > Blocks(Node(s.disk, i).size) <==> bs != []
  {
    hide Blocks;
  }

  lemma IsWrite(s: Fs, C: Cert, o: Outcome, D: Cert, r: Path, obj: Obj, more: nat)
    requires Loses(s.bitmap, C, o.bitmap, D, {}) && o.code >= 0 && Replaced(s.disk, After(s, o).disk, r, obj)
    requires |D.Keys| == |C.Keys| + more && (Clean(s) ==> Clean(After(s, o)))
    ensures WriteResult(s, C, o, D, r, obj, more)
  {
    hide Loses, Replaced;
  }

  /** Running out of space marks all blocks in memory; the disk and the tree stay. */
  lemma WriteFails(s: Fs, C: Cert, i: nat, off: nat, n: nat, r: Path, obj: Obj, more: nat)
    requires Inv(s, C) && Ino(C, i) && !DirAt(s.disk, i) && off + n <= 0xFFF_FFFF_F000
    requires off <= Node(s.disk, i).size && !CanWrite(s, i, off, n)
    ensures var o := Outcome(ENOSPC, [], Take(s.bitmap, |s.disk|, Needed(off, n, Node(s.disk, i).size)).map8);
      Inv(After(s, o), C) && WriteResult(s, C, o, C, r, obj, more)
  {
    hide *;
    var k := Needed(off, n, Node(s.disk, i).size);
    NeededIs(s, C, i, off, n);
    AllTaken(s, C, k);
    IsFull(s, C, Take(s.bitmap, |s.disk|, k).map8, r, obj, more);
  }

  lemma AllTaken(s: Fs, C: Cert, k: nat)
    requires Inv(s, C) && |Take(s.bitmap, |s.disk|, k).blocks| < k
    ensures var m := Take(s.bitmap, |s.disk|, k).map8;
      Inv(Fs(s.disk, m), C) && Loses(s.bitmap, C, m, C, FreeBlocks(s)) && (FreeBlocks(s) == {} ==> m == s.bitmap)
  {
    hide *;
    InvParts(s, C);
    TakesAll(s, k);
    FreeUnmarked(s, C);
    MarksAll(s, C, Take(s.bitmap, |s.disk|, k).map8, FreeBlocks(s));
    if FreeBlocks(s) == {} { TakesNone(s, k); }
  }

  lemma FreeUnmarked(s: Fs, C: Cert)
    requires Inv(s, C)
    ensures forall b: nat :: b in FreeBlocks(s) ==> b !in C && !Bit(s.bitmap, b)
  {
    hide Bit, Tree;
  }

  /** Marking unused blocks in memory keeps the invariant and loses them. */
  lemma MarksAll(s: Fs, C: Cert, m: Block, F: set<nat>)
    requires Inv(s, C) && forall b: nat :: b in F ==> b !in C && !Bit(s.bitmap, b)
    requires forall b: nat :: Bit(m, b) <==> Bit(s.bitmap, b) || b in F
    ensures Inv(Fs(s.disk, m), C) && Loses(s.bitmap, C, m, C, F)
  {
    hide Bit, Safe;
  }

  lemma IsFull(s: Fs, C: Cert, m: Block, r: Path, obj: Obj, more: nat)
    requires Inv(Fs(s.disk, m), C) && Loses(s.bitmap, C, m, C, FreeBlocks(s)) && (FreeBlocks(s) == {} ==> m == s.bitmap)
    ensures var o := Outcome(ENOSPC, [], m); Inv(After(s, o), C) && WriteResult(s, C, o, C, r, obj, more)
  {
    ApplyNone(s.disk);
    assert ENOSPC < 0;
    hide Inv, Loses, FreeBlocks, Replaced;
  }

  lemma TakesNone(s: Fs, k: nat)
    requires |Take(s.bitmap, |s.disk|, k).blocks| < k && FreeBlocks(s) == {}
    ensures Take(s.bitmap, |s.disk|, k).map8 == s.bitmap
  {
    hide Bit;
    var f := FirstFree(s.bitmap, |s.disk|, 2);
    assert f != 0 ==> f in FreeBlocks(s);
  }

  /** Rounds that fall short have taken every free block. */
  lemma TakesAll(s: Fs, k: nat)
    requires |s.disk| <= 32768 && |Take(s.bitmap, |s.disk|, k).blocks| < k
    ensures forall b: nat :: Bit(Take(s.bitmap, |s.disk|, k).map8, b) <==> Bit(s.bitmap, b) || b in FreeBlocks(s)
  {
    hide Bit, Take;
    TakeFacts(s.bitmap, |s.disk|, k);
    var bs := Take(s.bitmap, |s.disk|, k).blocks;
    forall b: nat
      ensures b in bs <==> b in FreeBlocks(s)
    {
      if b in bs { var x := IndexOf(bs, b); }
    }
  }

  lemma WriteError(s: Fs, C: Cert, code: int, r: Path, obj: Obj, more: nat)
    requires Inv(s, C) && code < 0 && code != ENOSPC
    ensures Inv(After(s, Err(s, code)), C) && WriteResult(s, C, Err(s, code), C, r, obj, more)
  {
    hide Bit, Tree;
  }

  /** The call gets to the allocation loop: a file is found and the offset lies inside it. */
  predicate Allocates(s: Fs, comps: seq<Str>, off: nat) {
    && Translate(s.disk, comps).Ok? && !DirAt(s.disk, TargetOf(s.disk, comps))
    && off <= Node(s.disk, TargetOf(s.disk, comps)).size
  }

  /** If the call gets that far, its block count fits 32 bits and the loop stays inside the pointer table. */
  predicate Bounded(s: Fs, comps: seq<Str>, off: nat, n: nat) {
    Allocates(s, comps, off) ==> off + n <= 0xFFF_FFFF_F000 && Room(s, TargetOf(s.disk, comps), off, n)
  }

  /** On a disk of at most 1024 blocks that is so for every path, offset and length. */
  lemma BoundedOnSmallDisks(s: Fs, C: Cert, comps: seq<Str>, off: nat, n: nat)
    requires Inv(s, C) && |s.disk| <= 1024 && off + n <= 0xFFF_FFFF_F000
    ensures Bounded(s, comps, off, n)
  {
    hide Inv, Translate, DirAt, Room, Node;
    InvParts(s, C);
    if Allocates(s, comps, off) {
      TargetWalks(s.disk, C, comps);
      RoomOnSmallDisks(s, C, TargetOf(s.disk, comps), off, n);
    }
  }

  lemma BoundedIs(s: Fs, comps: seq<Str>, off: nat, n: nat)
    requires Bounded(s, comps, off, n) && Allocates(s, comps, off)
    ensures off + n <= 0xFFF_FFFF_F000 && Room(s, TargetOf(s.disk, comps), off, n)
  {
    hide Allocates, Room;
  }

  lemma AllocatesIs(s: Fs, comps: seq<Str>, off: nat)
    ensures var i := TargetOf(s.disk, comps);
      Allocates(s, comps, off) <==> Translate(s.disk, comps).Ok? && !DirAt(s.disk, i) && off <= Node(s.disk, i).size
  {
    hide Translate, DirAt, Node;
  }

  lemma WriteBeyond(s: Fs, i: nat, data: Str, off: nat, now: nat)
    requires off > Node(s.disk, i).size
    ensures WriteAt(s, i, data, off, now) == Err(s, EINVAL)
  {
    hide Take, DataWrites, Written, Needed, Err;
  }

  /** The call gets to the allocation loop and cannot be done. */
  predicate WriteShort(s: Fs, comps: seq<Str>, off: nat, n: nat) {
    Allocates(s, comps, off) && !CanWrite(s, TargetOf(s.disk, comps), off, n)
  }

  lemma WriteRefused(s: Fs, C: Cert, comps: seq<Str>, data: Str, off: nat, now: nat, obj: Obj, more: nat)
    requires Inv(s, C) && !Allocates(s, comps, off)
    ensures var o := WriteFile(s, comps, data, off, now);
      o.code < 0 && o.code != ENOSPC && Inv(After(s, o), C) && WriteResult(s, C, o, C, Target(comps), obj, more)
  {
    assert ENOSPC < 0 && EISDIR < 0 && EISDIR != ENOSPC && EINVAL < 0 && EINVAL != ENOSPC;
    hide *;
    var t, i, r := Translate(s.disk, comps), TargetOf(s.disk, comps), Target(comps);
    WriteFileShape(s, comps, data, off, now);
    TraceFailsNegative(s.disk, comps);
    AllocatesIs(s, comps, off);
    CanWriteInside(s, i, off, |data|);
    if t.Fail? || DirAt(s.disk, i) {
      WriteError(s, C, if t.Fail? then t.code else EISDIR, r, obj, more);
    } else {
      WriteBeyond(s, i, data, off, now);
      WriteError(s, C, EINVAL, r, obj, more);
    }
  }

  /** fs_write. It succeeds exactly when the target is a file, the offset lies inside it, the write does not end in an
      earlier block than the file and the blocks it lacks are free; the bytes are then laid over the old contents and
      nothing else is seen to change. The invariant holds after every outcome. */
  lemma WriteKeeps(s: Fs, C: Cert, comps: seq<Str>, data: Str, off: nat, now: nat) returns (D: Cert)
    requires Inv(s, C) && Bounded(s, comps, off, |data|)
    ensures var o, i := WriteFile(s, comps, data, off, now), TargetOf(s.disk, comps);
      var bs := NewBlocks(s, i, off, |data|).blocks;
      && Inv(After(s, o), D)
      && WriteResult(s, C, o, D, Target(comps), WrittenObj(s.disk, i, off, data, now), |bs|)
      && (o.code >= 0 <==> Translate(s.disk, comps).Ok? && !DirAt(s.disk, i) && CanWrite(s, i, off, |data|))
      && (o.code >= 0 ==> o.code == |data| && D == Retable(C, i, Table(s.disk, i) + bs))
  {
    hide *;
    WriteCodesDiffer();
    var t, i, r := Translate(s.disk, comps), TargetOf(s.disk, comps), Target(comps);
    var obj, more := WrittenObj(s.disk, i, off, data, now), |NewBlocks(s, i, off, |data|).blocks|;
    InvParts(s, C);
    WriteFileShape(s, comps, data, off, now);
    TraceFailsNegative(s.disk, comps);
    TargetIs(s.disk, comps);
    AllocatesIs(s, comps, off);
    CanWriteInside(s, i, off, |data|);
    D := C;
    if !Allocates(s, comps, off) {
      WriteRefused(s, C, comps, data, off, now, obj, more);
    } else {
      BoundedIs(s, comps, off, |data|);
      TargetWalks(s.disk, C, comps);
      WriteAtShape(s, C, i, data, off, now);
      if CanWrite(s, i, off, |data|) {
        WriteIsPlan(s, C, i, off, |data|);
        D := WriteDone(s, C, i, data, off, now, r);
      } else {
        WriteFails(s, C, i, off, |data|, r, obj, more);
      }
    }
  }

  lemma WriteCodesDiffer()
    ensures ENOSPC < 0 && EISDIR < 0 && EISDIR != ENOSPC && EINVAL < 0 && EINVAL != ENOSPC
  {}

  /** It runs out of space exactly when it gets to the allocation loop and cannot be done. */
  lemma WriteRunsOut(s: Fs, C: Cert, comps: seq<Str>, data: Str, off: nat, now: nat)
    requires Inv(s, C) && Bounded(s, comps, off, |data|)
    ensures WriteFile(s, comps, data, off, now).code == ENOSPC <==> WriteShort(s, comps, off, |data|)
  {
    assert ENOSPC < 0;
    hide *;
    var i := TargetOf(s.disk, comps);
    WriteShortIs(s, comps, off, |data|);
    if Allocates(s, comps, off) {
      InvParts(s, C);
      AllocatesIs(s, comps, off);
      BoundedIs(s, comps, off, |data|);
      TargetIs(s.disk, comps);
      TargetWalks(s.disk, C, comps);
      WriteFileShape(s, comps, data, off, now);
      WriteAtShape(s, C, i, data, off, now);
    } else {
      WriteRefused(s, C, comps, data, off, now, WrittenObj(s.disk, i, off, data, now), 0);
    }
  }

  lemma WriteShortIs(s: Fs, comps: seq<Str>, off: nat, n: nat)
    ensures WriteShort(s, comps, off, n) <==>
      Allocates(s, comps, off) && !CanWrite(s, TargetOf(s.disk, comps), off, n)
  {
    hide Allocates, CanWrite, TargetOf;
  }

  lemma CanWriteInside(s: Fs, i: nat, off: nat, n: nat)
    ensures CanWrite(s, i, off, n) ==> off <= Node(s.disk, i).size
    ensures forall code: int :: Err(s, code).code == code
  {
    hide Take, Blocks;
  }

  lemma WriteFileShape(s: Fs, comps: seq<Str>, data: Str, off: nat, now: nat)
    ensures var t, i := Translate(s.disk, comps), TargetOf(s.disk, comps);
      WriteFile(s, comps, data, off, now) ==
        if t.Fail? then Err(s, t.code) else if DirAt(s.disk, i) then Err(s, EISDIR) else WriteAt(s, i, data, off, now)
  {
    hide Translate, DirAt, WriteAt, Err;
  }

  // ---- crash points of fs_write ----

  /** In a mountable image the blocks of what a path leads to are marked. */
  lemma MountedBlock(e: Disk, r: Path, i: nat, k: nat)
    requires Mountable(e) && Walk(e, r) == Ok(i) && k < Span(e, i)
    ensures OnDisk(e, Ptr(e, i, k))
  {
    var E: Cert :| Safe(e, E);
    WalkIsPath(e, E, r);
    hide Bounds, Nodes, Owned, Links, Linked, Names;
    assert Ptr(e, i, k) in E;
  }

  lemma NewBlockUnmarked(s: Fs, C: Cert, i: nat, bs: seq<nat>, off: nat, data: Str, now: nat, r: Path)
    requires Plan(s, C, i, bs, off, |data|) && Walk(s.disk, r) == Ok(i) && bs != []
    requires forall b :: b in Members(bs) ==> !OnDisk(s.disk, b)
    ensures !Mountable(WrittenDisk(s.disk, i, Written(Node(s.disk, i), bs, off + |data|, now), off, data))
  {
    var d, k := s.disk, |Table(s.disk, i)|;
    var e := WrittenDisk(d, i, Written(Node(d, i), bs, off + |data|, now), off, data);
    WrittenTree(s, C, i, bs, off, data, now, r);
    assert Span(e, i) == |Table(e, i)| && Ptr(e, i, k) == Table(e, i)[k] == bs[0];
    assert bs[0] in Members(bs);
    assert !OnDisk(e, Ptr(e, i, k));
    hide Plan, WrittenDisk, Written, OnDisk, Ptr, Span, Table, Mountable;
    if Mountable(e) { MountedBlock(e, r, i, k); }
  }

  lemma WriteMiddle(s: Fs, C: Cert, i: nat, data: Str, off: nat, now: nat, r: Path)
    requires Inv(s, C) && Ino(C, i) && !DirAt(s.disk, i) && off + |data| <= 0xFFF_FFFF_F000
    requires CanWrite(s, i, off, |data|) && Room(s, i, off, |data|) && Walk(s.disk, r) == Ok(i)
    ensures var e := WrittenDisk(s.disk, i, Written(Node(s.disk, i), NewBlocks(s, i, off, |data|).blocks, off + |data|,
        now), off, data);
      Mountable(e) <==> Blocks(off + |data|) == Span(s.disk, i)
  {
    hide *;
    var d, bs := s.disk, NewBlocks(s, i, off, |data|).blocks;
    var e := WrittenDisk(d, i, Written(Node(d, i), bs, off + |data|, now), off, data);
    InvParts(s, C);
    WriteIsPlan(s, C, i, off, |data|);
    NewBlocksMarks(s, C, i, off, |data|);
    if bs != [] {
      NewBlockUnmarked(s, C, i, bs, off, data, now, r);
    } else {
      NoMembers(bs);
      WrittenTree(s, C, i, bs, off, data, now, r);
      WrittenKeys(d, C, i, bs);
      SameMarks(s, C, e, Retable(C, i, Table(d, i) + bs));
      IsMountable(Fs(e, s.bitmap), Retable(C, i, Table(d, i) + bs));
    }
  }

  lemma IsMountable(s: Fs, C: Cert)
    requires Inv(s, C)
    ensures Mountable(s.disk)
  {
    hide Tree, Bit;
    assert Safe(s.disk, C);
  }

  lemma WriteSteps(s: Fs, i: nat, data: Str, off: nat, now: nat, k: nat)
    requires k <= |WriteList(s, i, data, off, now)|
    ensures var x := Written(Node(s.disk, i), NewBlocks(s, i, off, |data|).blocks, off + |data|, now);
      var dw, ws := DataWrites(s.disk, x.ptrs, off, data), WriteList(s, i, data, off, now);
      && (k <= |dw| ==> ws[..k] == dw[..k])
      && (k == |dw| + 1 ==> Apply(s.disk, ws[..k]) == WrittenDisk(s.disk, i, x, off, data))
      && (k > |dw| + 1 ==> ws[..k] == ws)
      && |ws| == |dw| + if Blocks(off + |data|) > Span(s.disk, i) then 2 else 1
  {
    var x := Written(Node(s.disk, i), NewBlocks(s, i, off, |data|).blocks, off + |data|, now);
    var dw, ws := DataWrites(s.disk, x.ptrs, off, data), WriteList(s, i, data, off, now);
    var v := Write(i, InodeSector(x));
    WrittenDiskIs(s.disk, i, x, off, data);
    ApplyOn(s.disk, dw, v);
    hide WrittenDisk, DataWrites, Written, InodeSector, Apply, NewBlocks, Flush, Blocks, Span, Node;
    Prefixes(ws, dw, v, k);
  }

  lemma Prefixes(ws: seq<Write>, dw: seq<Write>, v: Write, k: nat)
    requires k <= |ws| && |dw| + 1 <= |ws| <= |dw| + 2 && ws[..|dw| + 1] == dw + [v]
    ensures k <= |dw| ==> ws[..k] == dw[..k]
    ensures k == |dw| + 1 ==> ws[..k] == dw + [v]
    ensures k > |dw| + 1 ==> ws[..k] == ws
  {
    if k <= |dw| {
      assert ws[..k] == ws[..|dw| + 1][..k] && (dw + [v])[..k] == dw[..k];
    }
  }

  /** fs_write writes the inode before the bitmap. The disk can be mounted after each prefix of its writes, except
      when the write takes new blocks and the bitmap is the one write that is missing. */
  lemma WriteCrash(s: Fs, C: Cert, i: nat, data: Str, off: nat, now: nat, r: Path, k: nat)
    requires Inv(s, C) && Ino(C, i) && !DirAt(s.disk, i) && off + |data| <= 0xFFF_FFFF_F000
    requires CanWrite(s, i, off, |data|) && Room(s, i, off, |data|) && Walk(s.disk, r) == Ok(i)
    requires k <= |WriteList(s, i, data, off, now)|
    ensures var ws := WriteList(s, i, data, off, now);
      Mountable(Apply(s.disk, ws[..k])) <==> !(Blocks(off + |data|) > Span(s.disk, i) && k + 1 == |ws|)
  {
    hide *;
    var t, ws := NewBlocks(s, i, off, |data|), WriteList(s, i, data, off, now);
    var x := Written(Node(s.disk, i), t.blocks, off + |data|, now);
    var dw := DataWrites(s.disk, x.ptrs, off, data);
    WriteMiddle(s, C, i, data, off, now, r);
    WriteIsPlan(s, C, i, off, |data|);
    WriteSteps(s, i, data, off, now, k);
    if k <= |dw| {
      DataPrefix(s, C, i, t.blocks, off, data, now, k);
      SafeMounts(Apply(s.disk, dw[..k]), C);
    } else if k > |dw| + 1 {
      var D := WriteDone(s, C, i, data, off, now, r);
      AfterIs(s, Outcome(|data|, ws, t.map8));
      IsMountable(After(s, Outcome(|data|, ws, t.map8)), D);
    }
  }

  lemma SafeMounts(d: Disk, C: Cert)
    requires Safe(d, C)
    ensures Mountable(d)
  {
    hide Safe;
  }

  lemma OwnTable(d: Disk, C: Cert, i: nat)
    requires Tree(d, C) && Ino(C, i)
    ensures MayHold(d, C, i, Table(d, i)) && NodeOk(d, i)
  {
    BlocksOfCert(d, C, i);
    forall b | b in Table(d, i)
      ensures b in C && C[b].Data? && C[b].owner == i && 2 <= b < |d|
    {
      assert b in BlocksOf(d, i);
      var k := IndexOf(Table(d, i), b);
      assert Ptr(d, i, k) == b;
    }
    hide Links, Linked, Names, Owns, Owned, Table;
  }

  /** Overwriting data of file i replaces at most that file. */
  lemma DataAlone(d: Disk, C: Cert, e: Disk, i: nat, r: Path)
    requires Tree(d, C) && Walk(d, r) == Ok(i) && Ino(C, i) && !DirAt(d, i) && AgreeData(d, e, C, i)
    ensures Replaced(d, e, r, ObjAt(e, i))
  {
    assert Node(e, i) == Node(d, i) && Table(e, i) == Table(d, i);
    assert NodeOk(e, i) == NodeOk(d, i) && DirAt(e, i) == DirAt(d, i);
    hide *;
    AgreeDataTree(d, C, e, i);
    OwnTable(d, C, i);
    FileChanges(d, C, e, i, r);
  }

  /** At no point of a write, torn or not, does any path but that of the file show anything new. */
  lemma WriteAlone(s: Fs, C: Cert, i: nat, data: Str, off: nat, now: nat, r: Path, k: nat) returns (obj: Obj)
    requires Inv(s, C) && Ino(C, i) && !DirAt(s.disk, i) && off + |data| <= 0xFFF_FFFF_F000
    requires CanWrite(s, i, off, |data|) && Room(s, i, off, |data|) && Walk(s.disk, r) == Ok(i)
    requires k <= |WriteList(s, i, data, off, now)|
    ensures Replaced(s.disk, Apply(s.disk, WriteList(s, i, data, off, now)[..k]), r, obj)
  {
    hide *;
    var t, ws := NewBlocks(s, i, off, |data|), WriteList(s, i, data, off, now);
    var x := Written(Node(s.disk, i), t.blocks, off + |data|, now);
    var dw := DataWrites(s.disk, x.ptrs, off, data);
    InvParts(s, C);
    WriteIsPlan(s, C, i, off, |data|);
    WriteSteps(s, i, data, off, now, k);
    obj := ObjAt(Apply(s.disk, ws[..k]), i);
    if k <= |dw| {
      DataPrefix(s, C, i, t.blocks, off, data, now, k);
      DataAlone(s.disk, C, Apply(s.disk, dw[..k]), i, r);
    } else if k == |dw| + 1 {
      WrittenTree(s, C, i, t.blocks, off, data, now, r);
    } else {
      var o := Outcome(|data|, ws, t.map8);
      var D := WriteDone(s, C, i, data, off, now, r);
      AfterIs(s, o);
      obj := WrittenObj(s.disk, i, off, data, now);
      WriteReplaces(s, C, o, D, r, obj, Blocks(off + |data|) - Span(s.disk, i));
    }
  }

  lemma WriteReplaces(s: Fs, C: Cert, o: Outcome, D: Cert, r: Path, obj: Obj, more: nat)
    requires WriteResult(s, C, o, D, r, obj, more) && o.code >= 0
    ensures Replaced(s.disk, After(s, o).disk, r, obj)
  {
    hide Loses, Replaced, Clean;
  }
}
