/** read-img.py: the recursive walk over an image, checked against its bitmap. */
module Checking {
  import opened Format
  import opened Bits
  import opened Image
  import opened Change
  import opened Paths
  import opened Keep
  import opened Removing
  import opened Device
  import opened Diskfmt

  // ---- the part of a tree below an inode ----

  /** Inode j lies at i or below it. */
  ghost predicate Under(d: Disk, C: Cert, i: nat, j: nat)
    requires Tree(d, C) && Ino(C, i)
  { Ino(C, j) && PathOf(d, C, i) <= PathOf(d, C, j) }

  /** The inodes that the valid entries of directory i link, in slot order from slot k on. */
  function Kids(d: Disk, i: nat, k: nat): seq<nat>
    decreases Slots(d, i) - k
  {
    if k >= Slots(d, i) then [] else (if Ent(d, i, k).valid then [Ent(d, i, k).inode] else []) + Kids(d, i, k + 1)
  }

  /** Entry c hangs from directory i at slot k or later. */
  predicate HangsFrom(C: Cert, i: nat, k: nat, c: nat) { IsEntry(C, c) && C[c].parent == i && C[c].slot >= k }

  lemma HangsHere(d: Disk, C: Cert, i: nat, k: nat, c: nat)
    requires Tree(d, C) && Ino(C, i) && DirAt(d, i)
    ensures HangsFrom(C, i, k, c) <==>
      HangsFrom(C, i, k + 1, c) || (k < Slots(d, i) && Ent(d, i, k).valid && Ent(d, i, k).inode == c)
    ensures k < Slots(d, i) && Ent(d, i, k).valid && Ent(d, i, k).inode == c ==> !HangsFrom(C, i, k + 1, c)
    ensures k >= Slots(d, i) ==> !HangsFrom(C, i, k, c)
  {
    hide Slots, Ent, DirAt, Bounds, Nodes, Owns, Owned, Names, CStr;
    if IsEntry(C, c) && C[c].parent == i {
      assert LinkedAt(d, C, c);
    }
    if k < Slots(d, i) && Ent(d, i, k).valid {
      assert Live(d, C, i, k);
    }
  }

  lemma {:induction false} KidIs(d: Disk, C: Cert, i: nat, k: nat, c: nat)
    requires Tree(d, C) && Ino(C, i) && DirAt(d, i)
    ensures c in Kids(d, i, k) <==> HangsFrom(C, i, k, c)
    decreases Slots(d, i) - k
  {
    hide *;
    HangsHere(d, C, i, k, c);
    KidsNext(d, i, k);
    if k < Slots(d, i) {
      KidIs(d, C, i, k + 1, c);
    }
  }

  lemma {:induction false} KidsDistinct(d: Disk, C: Cert, i: nat, k: nat)
    requires Tree(d, C) && Ino(C, i) && DirAt(d, i)
    ensures Distinct(Kids(d, i, k))
    decreases Slots(d, i) - k
  {
    hide *;
    KidsNext(d, i, k);
    NoneDistinct();
    if k < Slots(d, i) {
      KidsDistinct(d, C, i, k + 1);
      if Ent(d, i, k).valid {
        HangsHere(d, C, i, k, Ent(d, i, k).inode);
        KidIs(d, C, i, k + 1, Ent(d, i, k).inode);
        DistinctFirst(Ent(d, i, k).inode, Kids(d, i, k + 1));
      }
    }
  }

  lemma KidsAre(d: Disk, C: Cert, i: nat, k: nat)
    requires Tree(d, C) && Ino(C, i) && DirAt(d, i)
    ensures forall c :: c in Kids(d, i, k) <==> IsEntry(C, c) && C[c].parent == i && C[c].slot >= k
    ensures Distinct(Kids(d, i, k))
  {
    KidsDistinct(d, C, i, k);
    forall c: nat
      ensures c in Kids(d, i, k) <==> HangsFrom(C, i, k, c)
    {
      KidIs(d, C, i, k, c);
    }
    hide Kids, Distinct, Tree, IsEntry;
  }

  lemma DistinctFirst(x: nat, s: seq<nat>)
    requires Distinct(s) && x !in s
    ensures Distinct([x] + s)
  {}

  lemma NoneDistinct()
    ensures Distinct([])
  {}

  /** Everything below i is i itself or lies below exactly one of its entries. */
  lemma {:induction false} UnderKid(d: Disk, C: Cert, i: nat, j: nat) returns (c: nat)
    requires Tree(d, C) && Ino(C, i) && Under(d, C, i, j) && j != i
    ensures IsEntry(C, c) && C[c].parent == i && Ino(C, c) && Under(d, C, c, j)
    decreases Depth(C, j)
  {
    SamePlace(d, C, i, j);
    EntryOf(C, j);
    if !IsEntry(C, j) {
      RootPath(d, C, j);
      assert false;
    }
    EntryLive(d, C, j);
    DepthLess(d, C, j);
    hide Tree, PathOf, NameAt;
    var p := C[j].parent;
    if p == i {
      c := j;
    } else {
      PrefixUp(PathOf(d, C, i), PathOf(d, C, p), NameAt(d, p, C[j].slot), PathOf(d, C, j));
      c := UnderKid(d, C, i, p);
    }
  }

  lemma EntryOf(C: Cert, j: nat)
    requires Ino(C, j)
    ensures IsEntry(C, j) || C[j].Root?
  {}

  lemma RootPath(d: Disk, C: Cert, j: nat)
    requires Tree(d, C) && Ino(C, j) && C[j].Root?
    ensures PathOf(d, C, j) == []
  {}

  lemma DepthLess(d: Disk, C: Cert, j: nat)
    requires Tree(d, C) && IsEntry(C, j)
    ensures Ino(C, C[j].parent) && Depth(C, j) == Depth(C, C[j].parent) + 1
  {
    assert LinkedAt(d, C, j);
  }

  lemma KidUnder(d: Disk, C: Cert, c: nat, j: nat)
    requires Tree(d, C) && IsEntry(C, c) && Ino(C, c) && Under(d, C, c, j)
    ensures Ino(C, C[c].parent) && Under(d, C, C[c].parent, j) && j != C[c].parent
  {
    EntryLive(d, C, c);
    hide Tree, PathOf;
  }

  lemma KidsApart(d: Disk, C: Cert, b: nat, c: nat, j: nat)
    requires Tree(d, C) && IsEntry(C, b) && IsEntry(C, c) && C[b].parent == C[c].parent && Ino(C, b) && Ino(C, c)
    requires Under(d, C, b, j) && Under(d, C, c, j)
    ensures b == c
  {
    DepthIsLength(d, C, b);
    DepthIsLength(d, C, c);
    DepthLess(d, C, b);
    DepthLess(d, C, c);
    hide Tree, PathOf;
    SameLengthPrefix(PathOf(d, C, b), PathOf(d, C, c), PathOf(d, C, j));
    SamePlace(d, C, b, c);
  }

  lemma SameLengthPrefix(a: Path, b: Path, c: Path)
    requires a <= c && b <= c && |a| == |b|
    ensures a == b
  {
    assert a == c[..|a|] && b == c[..|b|];
  }

  // ---- what a walk below i visits ----

  /** v lists exactly the inodes at and below i, each once. */
  ghost predicate Covers(d: Disk, C: Cert, i: nat, v: seq<nat>)
    requires Tree(d, C) && Ino(C, i)
  { Distinct(v) && forall j :: j in v <==> Under(d, C, i, j) }

  /** v lists i and what lies at and below the first x kids, each once. */
  ghost predicate CoversKids(d: Disk, C: Cert, i: nat, kids: seq<nat>, x: nat, v: seq<nat>)
    requires Tree(d, C) && Ino(C, i)
  {
    && Distinct(v) && x <= |kids| && (forall y :: 0 <= y < |kids| ==>
        IsEntry(C, kids[y]) && Ino(C, kids[y]) && C[kids[y]].parent == i)
    && forall j :: j in v <==> j == i || exists y :: 0 <= y < x && Under(d, C, kids[y], j)
  }

  lemma CoversStart(d: Disk, C: Cert, i: nat, kids: seq<nat>)
    requires Tree(d, C) && Ino(C, i) && forall c :: c in kids ==> IsEntry(C, c) && C[c].parent == i
    ensures CoversKids(d, C, i, kids, 0, [i])
  {
    hide Tree, PathOf;
    forall y | 0 <= y < |kids|
      ensures Ino(C, kids[y]) && IsEntry(C, kids[y]) && C[kids[y]].parent == i
    {
      assert kids[y] in kids;
    }
  }

  lemma CoversNext(d: Disk, C: Cert, i: nat, kids: seq<nat>, x: nat, v: seq<nat>, w: seq<nat>)
    requires Tree(d, C) && Ino(C, i) && Distinct(kids) && x < |kids| && CoversKids(d, C, i, kids, x, v)
    requires Ino(C, kids[x]) && Covers(d, C, kids[x], w)
    ensures CoversKids(d, C, i, kids, x + 1, v + w)
  {
    hide Tree, Under;
    forall j | j in w
      ensures j !in v
    {
      KidUnder(d, C, kids[x], j);
      if y :| 0 <= y < x && Under(d, C, kids[y], j) {
        KidsApart(d, C, kids[y], kids[x], j);
      }
    }
    DistinctJoin(v, w);
    forall j
      ensures j in v + w <==> j == i || exists y :: 0 <= y < x + 1 && Under(d, C, kids[y], j)
    {
      if Under(d, C, kids[x], j) { assert j in w; }
    }
  }

  lemma DistinctJoin(v: seq<nat>, w: seq<nat>)
    requires Distinct(v) && Distinct(w) && forall j :: j in w ==> j !in v
    ensures Distinct(v + w)
  {
    forall x, y | 0 <= x < y < |v + w|
      ensures (v + w)[x] != (v + w)[y]
    {
      if x < |v| <= y { assert v[x] in v && w[y - |v|] in w; }
    }
  }

  lemma CoversAll(d: Disk, C: Cert, i: nat, kids: seq<nat>, v: seq<nat>)
    requires Tree(d, C) && Ino(C, i) && CoversKids(d, C, i, kids, |kids|, v)
    requires forall c :: IsEntry(C, c) && C[c].parent == i ==> c in kids
    ensures Covers(d, C, i, v)
  {
    forall j | j in v
      ensures Under(d, C, i, j)
    {
      if j != i {
        var y :| 0 <= y < |kids| && Under(d, C, kids[y], j);
        KidUnder(d, C, kids[y], j);
      }
    }
    forall j | Under(d, C, i, j)
      ensures j == i || exists y :: 0 <= y < |kids| && Under(d, C, kids[y], j)
    {
      if j != i {
        var c := UnderKid(d, C, i, j);
        var y := IndexOf(kids, c);
        assert Under(d, C, kids[y], j);
      }
    }
    hide Tree, PathOf, Under;
  }

  // ---- blocks that are not marked ----

  function Missing(bm: Block, bs: set<nat>): set<nat> { set b | b in bs && !Bit(bm, b) }

  lemma MissingAdd(bm: Block, a: set<nat>, b: set<nat>)
    ensures Missing(bm, a + b) == Missing(bm, a) + Missing(bm, b)
    ensures (forall x: nat :: Missing(bm, {x}) == if Bit(bm, x) then {} else {x}) && Missing(bm, {}) == {}
  {
    hide Bit;
  }

  /** All blocks of the inodes v. */
  function Holdings(d: Disk, v: seq<nat>): set<nat> {
    if v == [] then {} else Holdings(d, Front(v)) + BlocksOf(d, Last(v))
  }

  lemma {:induction false} HoldingsJoin(d: Disk, v: seq<nat>, w: seq<nat>)
    ensures Holdings(d, v + w) == Holdings(d, v) + Holdings(d, w)
  {
    hide BlocksOf;
    if w == [] {
      assert v + w == v;
    } else {
      HoldingsJoin(d, v, Front(w));
      assert Front(v + w) == v + Front(w) && Last(v + w) == Last(w);
    }
  }

  lemma {:induction false} HoldingsAre(d: Disk, v: seq<nat>, b: nat)
    ensures b in Holdings(d, v) <==> exists j :: j in v && b in BlocksOf(d, j)
  {
    hide BlocksOf;
    if v != [] {
      HoldingsAre(d, Front(v), b);
      FrontLast(v);
      assert forall j :: j in v <==> j in Front(v) || j == Last(v);
    }
  }

  /** The inodes below the root hold every block in use. */
  lemma RootHoldsAll(d: Disk, C: Cert, v: seq<nat>)
    requires Tree(d, C) && Ino(C, ROOT) && Covers(d, C, ROOT, v)
    ensures (forall j :: j in v <==> Ino(C, j)) && Holdings(d, v) == C.Keys
  {
    assert C[ROOT].Root?;
    RootPath(d, C, ROOT);
    forall j | Ino(C, j) ensures Under(d, C, ROOT, j) { }
    forall b: nat
      ensures b in Holdings(d, v) <==> b in C.Keys
    {
      HoldingsAre(d, v, b);
      if j :| j in v && b in BlocksOf(d, j) {
        BlocksOfCert(d, C, j);
      } else if b in C.Keys {
        OwnerHolds(d, C, b);
      }
    }
    hide Tree, PathOf, BlocksOf;
  }

  lemma OwnerHolds(d: Disk, C: Cert, b: nat)
    requires Tree(d, C) && b in C
    ensures exists j :: Ino(C, j) && b in BlocksOf(d, j)
  {
    var j := if C[b].Data? then C[b].owner else b;
    assert C[b].Data? ==> IsData(C, b);
    BlocksOfCert(d, C, j);
    hide Links, Linked, Names, BlocksOf;
  }

  /** On a tree with a superblock and blocks 0 and 1 marked, no block in use is unmarked exactly if the image is safe to
      mount. */
  lemma NothingMissing(d: Disk, C: Cert)
    requires Tree(d, C) && |d| <= 32768 && Headed(d) && OnDisk(d, 0) && OnDisk(d, 1)
    ensures Missing(At(d, 1).bytes, C.Keys) == {} <==> Safe(d, C)
  {
    hide Tree, Bit;
    forall b | b in C ensures b in C.Keys { }
    if Missing(At(d, 1).bytes, C.Keys) == {} {
      forall b | b in C ensures OnDisk(d, b) { assert b !in Missing(At(d, 1).bytes, C.Keys); }
    }
  }

  // ---- the walk ----

  lemma InodeParts(d: Disk, C: Cert, i: nat)
    requires Tree(d, C) && Ino(C, i) && |d| <= 32768
    ensures i < |d| && |Table(d, i)| == Blocks(Node(d, i).size) <= 1019
    ensures forall k :: 0 <= k < |Table(d, i)| ==> Table(d, i)[k] == Node(d, i).ptrs[k] && Table(d, i)[k] < |d|
    ensures if IsReg(Node(d, i).mode) then !DirAt(d, i) else DirAt(d, i) && IsDir(Node(d, i).mode)
    ensures DirAt(d, i) ==> Slots(d, i) == 128 * |Table(d, i)|
  {
    assert i in C && NodeOk(d, i);
    hide Links, Linked, Names, Owned;
    assert forall k :: 0 <= k < Span(d, i) ==> Table(d, i)[k] == Ptr(d, i, k) && Ptr(d, i, k) in C;
  }

  lemma KidsNext(d: Disk, i: nat, k: nat)
    ensures Kids(d, i, k) ==
      if k >= Slots(d, i) then []
      else if Ent(d, i, k).valid then [Ent(d, i, k).inode] + Kids(d, i, k + 1)
      else Kids(d, i, k + 1)
  {
    hide Slots, Ent;
  }

  lemma SlotOf(d: Disk, i: nat, k: nat, r: nat, block: Block)
    requires k < |Table(d, i)| <= 1019 && r < 128 && Read(block) == At(d, Table(d, i)[k])
    ensures Ent(d, i, 128 * k + r) == DecodeDirent(block, r)
  {
    assert (128 * k + r) / 128 == k && (128 * k + r) % 128 == r;
    hide DecodeDirent, DecodeInode;
  }

  lemma MembersNext(bs: seq<nat>, k: nat)
    requires k < |bs|
    ensures Members(bs[..k + 1]) == Members(bs[..k]) + {bs[k]}
  {
    assert bs[..k + 1] == bs[..k] + [bs[k]];
  }

  /** What has been reported when the first k blocks of a table have been looked up. */
  ghost function Reported(bm: Block, was: set<nat>, bs: seq<nat>, k: nat): set<nat> {
    was + if k <= |bs| then Missing(bm, Members(bs[..k])) else {}
  }

  lemma ReportNext(bm: Block, was: set<nat>, bs: seq<nat>, k: nat)
    requires k < |bs|
    ensures Reported(bm, was, bs, k + 1) == Reported(bm, was, bs, k) + Missing(bm, {bs[k]})
  {
    MembersNext(bs, k);
    MissingAdd(bm, Members(bs[..k]), {bs[k]});
    hide Missing, Members;
  }

  lemma ReportEnds(bm: Block, was: set<nat>, bs: seq<nat>)
    ensures Reported(bm, was, bs, 0) == was && Reported(bm, was, bs, |bs|) == was + Missing(bm, Members(bs))
  {
    MissingAdd(bm, {}, {});
    assert bs[..0] == [] && Members([]) == {} && bs[..|bs|] == bs;
    hide Missing;
  }

  lemma BlocksWhole(d: Disk, i: nat)
    ensures BlocksOf(d, i) == {i} + Members(Table(d, i))
  {}

  lemma {:induction false} DepthBound(C: Cert, keys: set<nat>) returns (limit: nat)
    requires keys <= C.Keys
    ensures forall b :: b in keys ==> Depth(C, b) <= limit
  {
    if keys == {} {
      limit := 0;
    } else {
      var b :| b in keys;
      limit := DepthBound(C, keys - {b});
      if limit < Depth(C, b) { limit := Depth(C, b); }
    }
  }

  /** [name + '/' + entry name, inode number]. */
  datatype Child = Child(name: Str, inum: nat)

  function Inums(cs: seq<Child>): seq<nat> { if cs == [] then [] else Inums(Front(cs)) + [Last(cs).inum] }

  lemma InumsAt(cs: seq<Child>)
    ensures |Inums(cs)| == |cs| && forall x :: 0 <= x < |cs| ==> Inums(cs)[x] == cs[x].inum
  {}

  lemma InumsAdd(cs: seq<Child>, c: Child)
    ensures Inums(cs + [c]) == Inums(cs) + [c.inum]
  {
    assert Front(cs + [c]) == cs;
  }

  class Walker {
    const blks: seq<Block>
    const blkmap: Bitmap
    /** The keys of the global dictionary. */
    var inodes: set<nat>
    /** The blocks reported as not marked. */
    var unmarked: set<nat>

    constructor (blks: seq<Block>, blkmap: Bitmap)
      ensures this.blks == blks && this.blkmap == blkmap && inodes == {} && unmarked == {}
    {
      this.blks, this.blkmap, inodes, unmarked := blks, blkmap, {}, {};
    }

    ghost predicate Ready()
      reads blkmap.vals
    { blkmap.Valid() && |blks| <= 32768 }

    ghost function Image(): Disk { Sectors(blks) }

    ghost function Map8(): Block
      reads blkmap.vals
    { blkmap.Bytes() }

    /** Look up one block in the bitmap and report it if it is not marked. */
    method CheckBlock(b: nat)
      requires Ready() && b < |blks|
      modifies this`unmarked
      ensures unmarked == old(unmarked) + Missing(Map8(), {b})
    {
      MissingAdd(Map8(), {}, {});
      hide Bit;
      var marked := blkmap.Get(b);
      if !marked {
        unmarked := unmarked + {b};
      }
    }

    /** Every block of the table bs lies in the image and is a pointer of the inode. */
    ghost predicate Tabled(node: Inode, bs: seq<nat>) {
      |bs| == Blocks(node.size) <= 1019 && forall k :: 0 <= k < |bs| ==> bs[k] == node.ptrs[k] && bs[k] < |blks|
    }

    /** The k-th block of a table. */
    method CheckNext(b: nat, ghost bs: seq<nat>, ghost k: nat, ghost was: set<nat>)
      requires Ready() && b < |blks| && k < |bs| && b == bs[k] && unmarked == Reported(Map8(), was, bs, k)
      modifies this`unmarked
      ensures unmarked == Reported(Map8(), was, bs, k + 1)
    {
      hide *;
      CheckBlock(b);
      ReportNext(Map8(), was, bs, k);
    }

    /** The branch of iter for a file. */
    method FileBlocks(node: Inode, ghost bs: seq<nat>)
      requires Ready() && Tabled(node, bs)
      modifies this`unmarked
      ensures unmarked == Reported(Map8(), old(unmarked), bs, |bs|)
    {
      hide *;
      TabledIs(node, bs);
      ghost var was := unmarked;
      ReportEnds(Map8(), was, bs);
      for k := 0 to Blocks(node.size)
        invariant Ready() && unmarked == Reported(Map8(), was, bs, k)
      {
        CheckNext(node.ptrs[k], bs, k, was);
      }
    }

    /** The branch of iter for a directory: its blocks, and the entries in them. */
    method DirBlocks(name: Str, node: Inode, ghost inum: nat, ghost bs: seq<nat>) returns (children: seq<Child>)
      requires Ready() && Tabled(node, bs) && bs == Table(Image(), inum) && Slots(Image(), inum) == 128 * |bs|
      modifies this`unmarked
      ensures unmarked == Reported(Map8(), old(unmarked), bs, |bs|) && Inums(children) == Kids(Image(), inum, 0)
    {
      hide *;
      TabledIs(node, bs);
      ghost var was := unmarked;
      ReportEnds(Map8(), was, bs);
      children := [];
      KidsStart(children, Image(), inum);
      for k := 0 to Blocks(node.size)
        invariant Ready() && unmarked == Reported(Map8(), was, bs, k)
        invariant Kids(Image(), inum, 0) == Inums(children) + Kids(Image(), inum, 128 * k)
      {
        CheckNext(node.ptrs[k], bs, k, was);
        children := Entries(name, node.ptrs[k], children, inum, k);
      }
      KidsNext(Image(), inum, 128 * |bs|);
    }

    lemma TabledIs(node: Inode, bs: seq<nat>)
      requires Tabled(node, bs)
      ensures |bs| == Blocks(node.size) <= 1019 && forall k :: 0 <= k < |bs| ==> bs[k] == node.ptrs[k] && bs[k] < |blks|
    {}

    lemma IsTabled(node: Inode, bs: seq<nat>)
      requires |bs| == Blocks(node.size) <= 1019 && forall k :: 0 <= k < |bs| ==>
          bs[k] == node.ptrs[k] && bs[k] < |blks|
      ensures Tabled(node, bs)
    {}

    /** The part of iter before it recurses: mark the inode as found, check its blocks, collect its entries. */
    method Visit(name: Str, inum: nat, ghost C: Cert) returns (children: seq<Child>)
      requires Ready() && Tree(Image(), C) && Ino(C, inum)
      modifies this`inodes, this`unmarked
      ensures inodes == old(inodes) + {inum} && unmarked == old(unmarked) + Missing(Map8(), BlocksOf(Image(), inum))
      ensures Inums(children) == if DirAt(Image(), inum) then Kids(Image(), inum, 0) else []
    {
      hide *;
      ghost var d := Image();
      ghost var bs := Table(d, inum);
      ReadyIs();
      InodeParts(d, C, inum);
      BlocksWhole(d, inum);
      ImageIs();
      NodeIs(blks, inum);
      inodes := inodes + {inum};
      var node := DecodeInode(blks[inum]);
      CheckBlock(inum);
      ReportEnds(Map8(), unmarked, bs);
      MissingAdd(Map8(), {inum}, Members(bs));
      IsTabled(node, bs);
      children := [];
      KidsStart(children, d, inum);
      if IsReg(node.mode) {
        FileBlocks(node, bs);
      } else {
        children := DirBlocks(name, node, inum, bs);
      }
    }

    lemma ReadyIs()
      requires Ready()
      ensures |Image()| <= 32768 && |blks| <= 32768
    {}

    lemma ImageIs()
      ensures Image() == Sectors(blks) && |Image()| == |blks|
    {}

    lemma KidsStart(children: seq<Child>, d: Disk, i: nat)
      requires children == []
      ensures Inums(children) == [] && Kids(d, i, 0) == Inums(children) + Kids(d, i, 0)
    {
      hide Kids;
    }

    /** The valid entries of the k-th block of a directory. */
    method Entries(name: Str, b: nat, before: seq<Child>, ghost inum: nat, ghost k: nat) returns (children: seq<Child>)
      requires b < |blks| && k < |Table(Image(), inum)| <= 1019 && b == Table(Image(), inum)[k]
      requires 128 * k + 128 <= Slots(Image(), inum)
      requires Kids(Image(), inum, 0) == Inums(before) + Kids(Image(), inum, 128 * k)
      ensures Kids(Image(), inum, 0) == Inums(children) + Kids(Image(), inum, 128 * (k + 1))
    {
      hide *;
      ghost var d := Image();
      ImageIs();
      SectorAt(blks, b);
      BlockAtIs(blks, b);
      var block := blks[b];
      children := before;
      for r := 0 to 128
        invariant Kids(d, inum, 0) == Inums(children) + Kids(d, inum, 128 * k + r)
      {
        KidsNext(d, inum, 128 * k + r);
        SlotOf(d, inum, k, r, block);
        var e := DecodeDirent(block, r);
        if e.valid {
          InumsAdd(children, Child(name + [SLASH] + CStr(e.name), e.inode));
          children := children + [Child(name + [SLASH] + CStr(e.name), e.inode)];
        }
      }
    }

    /** The walk visits what lies at and below the inode, each inode once, and reports exactly the blocks of those
        inodes that are not marked. It ends because every entry lies one level deeper. */
    method Iter(name: Str, inum: nat, ghost C: Cert, ghost limit: nat) returns (ghost visited: seq<nat>)
      requires Ready() && Tree(Image(), C) && Ino(C, inum) && Depth(C, inum) <= limit
      requires forall b :: b in C.Keys ==> Depth(C, b) <= limit
      modifies this`inodes, this`unmarked
      decreases limit - Depth(C, inum)
      ensures Covers(Image(), C, inum, visited) && inodes == old(inodes) + Members(visited)
      ensures unmarked == old(unmarked) + Missing(Map8(), Holdings(Image(), visited))
    {
      hide *;
      ghost var d := Image();
      var children := Visit(name, inum, C);
      ghost var kids := Inums(children);
      KidsOf(d, C, inum, kids);
      InumsAt(children);
      CoversStart(d, C, inum, kids);
      visited := [inum];
      OneHolds(d, inum);
      var x := 0;
      while x < |children|
        invariant x <= |children| && Ready() && CoversKids(d, C, inum, kids, x, visited)
        invariant inodes == old(inodes) + Members(visited)
        invariant unmarked == old(unmarked) + Missing(Map8(), Holdings(d, visited))
      {
        KidAt(d, C, inum, kids, x, visited);
        DepthLess(d, C, kids[x]);
        KeyDepth(C, kids[x], limit);
        ghost var more := Iter(children[x].name, children[x].inum, C, limit);
        CoversNext(d, C, inum, kids, x, visited, more);
        HoldingsJoin(d, visited, more);
        MissingAdd(Map8(), Holdings(d, visited), Holdings(d, more));
        MembersJoin(visited, more);
        visited := visited + more;
        x := x + 1;
      }
      CoversAll(d, C, inum, kids, visited);
    }

    /** iter('', 2): on a tree the walk finds exactly the inodes of the tree, each once, and reports exactly the blocks
        in use that the bitmap does not mark. */
    method Check(ghost C: Cert) returns (ghost visited: seq<nat>)
      requires Ready() && Tree(Image(), C) && inodes == {} && unmarked == {}
      modifies this`inodes, this`unmarked
      ensures Distinct(visited) && inodes == Members(visited) && forall j :: j in visited <==> Ino(C, j)
      ensures unmarked == Missing(Map8(), C.Keys)
      ensures Map8() == At(Image(), 1).bytes && Headed(Image()) && OnDisk(Image(), 0) && OnDisk(Image(), 1) ==>
        (unmarked == {} <==> Safe(Image(), C))
    {
      ImageSize();
      hide *;
      var limit := DepthBound(C, C.Keys);
      RootIsIno(Image(), C);
      visited := Iter([], ROOT, C, limit);
      RootHoldsAll(Image(), C, visited);
      CoversDistinct(Image(), C, ROOT, visited);
      if Map8() == At(Image(), 1).bytes && Headed(Image()) && OnDisk(Image(), 0) && OnDisk(Image(), 1) {
        NothingMissing(Image(), C);
      }
    }

    lemma ImageSize()
      ensures |Image()| == |blks|
      ensures Ready() ==> |Image()| <= 32768
    {
      hide Read;
    }
  }

  lemma NodeIs(bs: seq<Block>, i: nat)
    requires i < |bs|
    ensures DecodeInode(bs[i]) == Node(Sectors(bs), i)
  {
    hide DecodeInode, DecodeDirents;
  }

  lemma BlockAtIs(bs: seq<Block>, b: nat)
    requires b < |bs|
    ensures BlockAt(bs, b) == bs[b]
  {}

  lemma KidsOf(d: Disk, C: Cert, i: nat, kids: seq<nat>)
    requires Tree(d, C) && Ino(C, i) && kids == if DirAt(d, i) then Kids(d, i, 0) else []
    ensures Distinct(kids) && forall c :: c in kids <==> IsEntry(C, c) && C[c].parent == i
  {
    if DirAt(d, i) {
      KidsAre(d, C, i, 0);
    } else {
      forall c | IsEntry(C, c) ensures DirAt(d, C[c].parent) { assert LinkedAt(d, C, c); }
    }
  }

  lemma OneHolds(d: Disk, i: nat)
    ensures Holdings(d, [i]) == BlocksOf(d, i) && Members([i]) == {i}
  {
    hide BlocksOf;
    assert Front([i]) == [];
  }

  lemma KidAt(d: Disk, C: Cert, i: nat, kids: seq<nat>, x: nat, v: seq<nat>)
    requires Tree(d, C) && Ino(C, i) && CoversKids(d, C, i, kids, x, v) && x < |kids|
    ensures IsEntry(C, kids[x]) && Ino(C, kids[x]) && C[kids[x]].parent == i
  {
    hide Tree, Under;
  }

  lemma KeyDepth(C: Cert, c: nat, limit: nat)
    requires IsEntry(C, c) && forall b :: b in C.Keys ==> Depth(C, b) <= limit
    ensures c in C && Depth(C, c) <= limit
  {
    assert c in C.Keys;
  }

  lemma MembersJoin(v: seq<nat>, w: seq<nat>)
    ensures Members(v + w) == Members(v) + Members(w)
  {
    assert forall j :: j in v + w <==> j in v || j in w;
  }

  lemma RootIsIno(d: Disk, C: Cert)
    requires Tree(d, C)
    ensures Ino(C, ROOT) && Depth(C, ROOT) == 0 && ROOT in C.Keys
  {
    assert C[ROOT].Root?;
  }

  lemma CoversDistinct(d: Disk, C: Cert, i: nat, v: seq<nat>)
    requires Tree(d, C) && Ino(C, i) && Covers(d, C, i, v)
    ensures Distinct(v)
  {
    hide Tree, Under;
  }
}
