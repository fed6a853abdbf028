/** How one elementary change of the image changes its tree: a slot gets linked, unlinked or renamed,
    or a file gets another block table. Every operation is one of these between writes outside the tree. */
module Change {
  import opened Format
  import opened Image

  // ---- writes outside the tree ----

  /** The images agree on every block in use. */
  ghost predicate Agree(d: Disk, e: Disk, C: Cert) {
    |e| == |d| && forall b :: b in C ==> At(e, b) == At(d, b)
  }

  /** Inode i reads the same in both images. */
  ghost predicate SameIno(d: Disk, e: Disk, i: nat) {
    && (DirAt(e, i) <==> DirAt(d, i)) && (NodeOk(e, i) <==> NodeOk(d, i))
    && Slots(e, i) == Slots(d, i) && Span(e, i) == Span(d, i)
    && forall k :: 0 <= k < Span(d, i) ==> Ptr(e, i, k) == Ptr(d, i, k)
  }

  /** The inodes and slots of the tree read the same in both images, but for the slot (p, q). */
  ghost predicate SameTree(d: Disk, e: Disk, C: Cert, p: nat, q: nat) {
    && |e| == |d|
    && (forall i :: Ino(C, i) ==> SameIno(d, e, i))
    && (forall i, k :: Ino(C, i) && DirAt(d, i) && 0 <= k < Slots(d, i) && !(i == p && k == q) ==>
          Ent(e, i, k) == Ent(d, i, k))
  }

  lemma AgreeEnt(d: Disk, e: Disk, C: Cert, i: nat, k: nat)
    requires Tree(d, C) && Agree(d, e, C) && Ino(C, i) && DirAt(d, i) && k < Slots(d, i)
    ensures Ent(e, i, k) == Ent(d, i, k)
  {
    assert k / 128 < Span(d, i);
    assert Ptr(d, i, k / 128) in C;
  }

  lemma AgreeSame(d: Disk, e: Disk, C: Cert)
    requires Tree(d, C) && Agree(d, e, C)
    ensures SameTree(d, e, C, 0, 0)
  {
    forall i, k | Ino(C, i) && DirAt(d, i) && 0 <= k < Slots(d, i)
      ensures Ent(e, i, k) == Ent(d, i, k)
    {
      AgreeEnt(d, e, C, i, k);
    }
    hide Ent, Links, Linked, Names, Owned, Owns;
  }

  lemma SameTreeTree(d: Disk, e: Disk, C: Cert)
    requires Tree(d, C) && SameTree(d, e, C, 0, 0)
    ensures Tree(e, C)
  {
    assert SameIno(d, e, ROOT);
    hide DirAt, Slots, Span, Ptr, NodeOk, Ent, CStr;
    assert 0 !in C;
    assert forall i, k :: Live(e, C, i, k) <==> Live(d, C, i, k);
  }

  /** Blocks outside the tree do not matter to it. */
  lemma AgreeTree(d: Disk, e: Disk, C: Cert)
    requires Tree(d, C) && Agree(d, e, C)
    ensures Tree(e, C)
  {
    AgreeSame(d, e, C);
    SameTreeTree(d, e, C);
  }

  lemma AgreeObj(d: Disk, e: Disk, C: Cert, i: nat)
    requires Tree(d, C) && Agree(d, e, C) && Ino(C, i)
    ensures ObjAt(e, i) == ObjAt(d, i)
  {
    forall x: nat | !DirAt(d, i) && x < Node(d, i).size
      ensures At(e, Ptr(e, i, x / 4096)) == At(d, Ptr(d, i, x / 4096))
    {
      assert x / 4096 < Span(d, i);
      assert Ptr(d, i, x / 4096) in C;
    }
    assert !DirAt(d, i) ==> Content(e, i) == Content(d, i);
  }

  // ---- trees that share paths ----

  /** Every inode of C is one of D, linked from the same slot under the same name. */
  ghost predicate SharePaths(d: Disk, C: Cert, e: Disk, D: Cert) {
    forall i :: Ino(C, i) ==>
      && i in D && D[i] == C[i]
      && (IsEntry(C, i) ==> NameAt(e, C[i].parent, C[i].slot) == NameAt(d, C[i].parent, C[i].slot))
  }

  lemma {:induction false} SamePath(d: Disk, C: Cert, e: Disk, D: Cert, i: nat)
    requires Tree(d, C) && Tree(e, D) && SharePaths(d, C, e, D) && Ino(C, i)
    ensures PathOf(e, D, i) == PathOf(d, C, i)
    decreases Depth(C, i)
  {
    hide DirAt, Slots, Ent, NameAt, Nodes, Owns, Owned, Links, Names;
    if IsEntry(C, i) {
      assert IsEntry(D, i);
      SamePath(d, C, e, D, C[i].parent);
    }
  }

  /** A path that leads to an inode of C leads to the same inode in D. */
  lemma SameWalk(d: Disk, C: Cert, e: Disk, D: Cert, p: Path)
    requires Tree(d, C) && Tree(e, D) && SharePaths(d, C, e, D) && Walk(d, p).Ok?
    ensures Walk(e, p) == Walk(d, p)
  {
    hide Tree, PathOf;
    WalkIsPath(d, C, p);
    var i := Walk(d, p).inum;
    SamePath(d, C, e, D, i);
    WalkReaches(e, D, i);
  }

  lemma AgreeLookup(d: Disk, e: Disk, C: Cert, p: Path)
    requires Tree(d, C) && Agree(d, e, C)
    ensures Lookup(e, p) == Lookup(d, p) && (Walk(d, p).Ok? || Walk(e, p).Ok? ==> Walk(e, p) == Walk(d, p))
  {
    AgreeTree(d, e, C);
    assert SharePaths(d, C, e, C) && SharePaths(e, C, d, C) by {
      forall i | IsEntry(C, i)
        ensures NameAt(e, C[i].parent, C[i].slot) == NameAt(d, C[i].parent, C[i].slot)
      {
        AgreeEnt(d, e, C, C[i].parent, C[i].slot);
      }
    }
    hide Tree, ObjAt;
    if Walk(d, p).Ok? {
      SameWalk(d, C, e, C, p);
      WalkIsPath(d, C, p);
      AgreeObj(d, e, C, Walk(d, p).inum);
    } else if Walk(e, p).Ok? {
      SameWalk(e, C, d, C, p);
    }
  }

  // ---- paths and what lies below them ----

  lemma {:induction false} DepthIsLength(d: Disk, C: Cert, i: nat)
    requires Tree(d, C) && Ino(C, i)
    ensures |PathOf(d, C, i)| == Depth(C, i)
    decreases Depth(C, i)
  {
    hide DirAt, Slots, Ent, NameAt, Nodes, Owns, Owned, Links, Names;
    if IsEntry(C, i) {
      DepthIsLength(d, C, C[i].parent);
    }
  }

  /** Two inodes with the same path are the same inode. */
  lemma SamePlace(d: Disk, C: Cert, c: nat, i: nat)
    requires Tree(d, C) && Ino(C, c) && Ino(C, i)
    ensures PathOf(d, C, c) == PathOf(d, C, i) ==> c == i
  {
    hide Tree, PathOf;
    WalkReaches(d, C, c);
    WalkReaches(d, C, i);
  }

  lemma EntryLive(d: Disk, C: Cert, i: nat)
    requires Tree(d, C) && IsEntry(C, i)
    ensures Live(d, C, C[i].parent, C[i].slot) && Ent(d, C[i].parent, C[i].slot).inode == i
    ensures Ino(C, C[i].parent) && PathOf(d, C, i) == PathOf(d, C, C[i].parent) + [NameAt(d, C[i].parent, C[i].slot)]
  {
    assert LinkedAt(d, C, i);
    hide Ent, NameAt, Slots, DirAt, Nodes, Owns, Owned, Links, Names;
  }

  lemma PrefixUp(a: Path, b: Path, n: Str, c: Path)
    requires a <= c && c == b + [n] && a != c
    ensures a <= b && b <= c
  {}

  // ---- one slot overwritten ----

  /** The block write that overwrites slot k of directory i. */
  function SlotBlock(d: Disk, i: nat, k: nat): nat { Ptr(d, i, k / 128) }

  function SlotData(d: Disk, i: nat, k: nat, e: Dirent): Sector { PatchDirent(At(d, SlotBlock(d, i, k)), k % 128, e) }

  function PatchSlot(d: Disk, i: nat, k: nat, e: Dirent): Disk { Put(d, SlotBlock(d, i, k), SlotData(d, i, k, e)) }

  /** Overwriting slot (p, q) of a tree changes that slot alone: no inode, no other slot, no other block. */
  lemma PatchEffect(d: Disk, C: Cert, p: nat, q: nat, e: Dirent)
    requires Tree(d, C) && Ino(C, p) && DirAt(d, p) && q < Slots(d, p)
    ensures var r := PatchSlot(d, p, q, e);
      && SameTree(d, r, C, p, q) && Ent(r, p, q) == e
      && (forall b: nat :: !(b in C && C[b] == Data(p, q / 128)) ==> At(r, b) == At(d, b))
  {
    hide DecodeInode, PutDirent;
    var r := PatchSlot(d, p, q, e);
    assert q / 128 < Span(d, p);
    forall i, k | Ino(C, i) && DirAt(d, i) && 0 <= k < Slots(d, i)
      ensures Ent(r, i, k) == if i == p && k == q then e else Ent(d, i, k)
    {
      PatchEnt(d, C, p, q, e, i, k);
    }
    hide PatchDirent, Ent, Links, Linked, Names, Owned;
  }

  /** ... and no object: directories keep their attributes, files their attributes and bytes. */
  lemma PatchObj(d: Disk, C: Cert, p: nat, q: nat, e: Dirent, i: nat)
    requires Tree(d, C) && Ino(C, p) && DirAt(d, p) && q < Slots(d, p) && Ino(C, i)
    ensures ObjAt(PatchSlot(d, p, q, e), i) == ObjAt(d, i)
  {
    var r := PatchSlot(d, p, q, e);
    PatchElse(d, C, p, q, e, i);
    hide PatchSlot, Tree, Ptr;
    assert ObjAt(r, i).Dir? <==> DirAt(d, i);
    if !DirAt(d, i) {
      forall x: nat | x < Node(d, i).size
        ensures At(r, Ptr(d, i, x / 4096)) == At(d, Ptr(d, i, x / 4096))
      {
        assert x / 4096 < Span(d, i);
      }
      assert forall k :: Ptr(r, i, k) == Ptr(d, i, k) by { SamePtrs(d, r, i); }
      assert Content(r, i) == Content(d, i);
    }
  }

  lemma SamePtrs(d: Disk, r: Disk, i: nat)
    requires Node(r, i) == Node(d, i)
    ensures forall k: nat :: Ptr(r, i, k) == Ptr(d, i, k)
  {}

  /** The inode and, for a file, the data blocks of i are none of the block that is rewritten. */
  lemma PatchElse(d: Disk, C: Cert, p: nat, q: nat, e: Dirent, i: nat)
    requires Tree(d, C) && Ino(C, p) && DirAt(d, p) && q < Slots(d, p) && Ino(C, i)
    ensures var r := PatchSlot(d, p, q, e);
      && Node(r, i) == Node(d, i)
      && (!DirAt(d, i) ==> forall k :: 0 <= k < Span(d, i) ==> At(r, Ptr(d, i, k)) == At(d, Ptr(d, i, k)))
  {
    PatchEffect(d, C, p, q, e);
    var r := PatchSlot(d, p, q, e);
    hide PatchSlot, Links, Linked, Names, Owned, Ent, Span, Ptr, Nodes;
    forall k | 0 <= k < Span(d, i) && !DirAt(d, i)
      ensures At(r, Ptr(d, i, k)) == At(d, Ptr(d, i, k))
    {
      assert C[Ptr(d, i, k)] == Data(i, k);
    }
  }

  lemma PatchEnt(d: Disk, C: Cert, p: nat, q: nat, e: Dirent, i: nat, k: nat)
    requires Tree(d, C) && Ino(C, p) && DirAt(d, p) && q < Slots(d, p)
    requires Ino(C, i) && DirAt(d, i) && k < Slots(d, i)
    ensures Ent(PatchSlot(d, p, q, e), i, k) == if i == p && k == q then e else Ent(d, i, k)
  {
    hide DecodeInode, PutDirent, Links, Linked, Names, Owned;
    assert q / 128 < Span(d, p) && k / 128 < Span(d, i);
    assert C[Ptr(d, p, q / 128)] == Data(p, q / 128);
    assert C[Ptr(d, i, k / 128)] == Data(i, k / 128);
  }

  /** Block b is inode c or one of its data blocks. */
  predicate Mine(C: Cert, b: nat, c: nat) { b in C && (b == c || (C[b].Data? && C[b].owner == c)) }

  /** The certificates agree on everything that is not inode c or its data. */
  ghost predicate SameBut(C: Cert, D: Cert, c: nat) {
    && (forall b :: b in C && !Mine(C, b, c) ==> b in D && D[b] == C[b] && !Mine(D, b, c))
    && (forall b :: b in D && !Mine(D, b, c) ==> b in C && D[b] == C[b] && !Mine(C, b, c))
  }

  /** Certificates that agree on all but c, and both do without c, are the same. */
  lemma SameButGone(d: Disk, C: Cert, e: Disk, D: Cert, c: nat)
    requires Owned(d, C) && Owned(e, D) && SameBut(C, D, c) && c !in C && c !in D
    ensures C == D
  {
    assert forall b :: b in C ==> !IsData(C, b) || C[b].owner != c;
    assert forall b :: b in D ==> !IsData(D, b) || D[b].owner != c;
    assert forall b :: b in C <==> b in D;
    assert C.Keys == D.Keys;
  }

  /** The certificate with the inodes of U and their blocks taken out. */
  function Drop(C: Cert, U: set<nat>): Cert {
    map b | b in C && b !in U && !(C[b].Data? && C[b].owner in U) :: C[b]
  }

  /** The certificate with inode c and its blocks taken out. */
  function Prune(C: Cert, c: nat): Cert { Drop(C, {c}) }

  /** U is c and all inodes below it: an entry is in U exactly when it is c or its directory is in U. */
  ghost predicate IsSubtree(C: Cert, c: nat, U: set<nat>) {
    && IsEntry(C, c) && ROOT !in U && (forall j :: j in U ==> Ino(C, j))
    && forall j {:trigger IsEntry(C, j)} :: IsEntry(C, j) ==> (j in U <==> j == c || C[j].parent in U)
  }

  /** The inodes at and below c. */
  ghost function Subtree(d: Disk, C: Cert, c: nat): set<nat>
    requires Tree(d, C) && Ino(C, c)
  { set j | j in C.Keys && Ino(C, j) && PathOf(d, C, c) <= PathOf(d, C, j) }

  lemma SubtreeIs(d: Disk, C: Cert, c: nat)
    requires Tree(d, C) && IsEntry(C, c) && Ino(C, c)
    ensures IsSubtree(C, c, Subtree(d, C, c))
  {
    var U := Subtree(d, C, c);
    EntryLive(d, C, c);
    assert C[ROOT].Root? && PathOf(d, C, ROOT) == [];
    forall j | IsEntry(C, j)
      ensures j in U <==> j == c || C[j].parent in U
    {
      SubtreeStep(d, C, c, j);
    }
    hide Tree, PathOf;
  }

  lemma SubtreeStep(d: Disk, C: Cert, c: nat, j: nat)
    requires Tree(d, C) && Ino(C, c) && IsEntry(C, j)
    ensures j in Subtree(d, C, c) <==> j == c || C[j].parent in Subtree(d, C, c)
  {
    EntryLive(d, C, j);
    SamePlace(d, C, c, j);
    hide Tree, PathOf, NameAt;
    if PathOf(d, C, c) <= PathOf(d, C, j) && j != c {
      PrefixUp(PathOf(d, C, c), PathOf(d, C, C[j].parent), NameAt(d, C[j].parent, C[j].slot), PathOf(d, C, j));
    }
  }

  /** There is one set of inodes at and below c. */
  lemma {:induction false} SubtreeUnique(d: Disk, C: Cert, c: nat, U: set<nat>, V: set<nat>, j: nat)
    requires Tree(d, C) && IsSubtree(C, c, U) && IsSubtree(C, c, V) && Ino(C, j)
    ensures j in U <==> j in V
    decreases Depth(C, j)
  {
    if IsEntry(C, j) {
      EntryLive(d, C, j);
      assert LinkedAt(d, C, j);
      hide Bounds, Nodes, Owns, Owned, Links, Linked, Names, Live, Ent;
      SubtreeUnique(d, C, c, U, V, C[j].parent);
    } else {
      assert j == ROOT;
    }
  }

  /** Nothing is linked below c. */
  ghost predicate Leaf(d: Disk, C: Cert, c: nat) {
    Ino(C, c) && forall l :: !Live(d, C, c, l)
  }

  lemma LeafSubtree(d: Disk, C: Cert, c: nat)
    requires Tree(d, C) && Leaf(d, C, c) && IsEntry(C, c)
    ensures IsSubtree(C, c, {c})
  {
    forall j | IsEntry(C, j)
      ensures C[j].parent != c
    {
      assert LinkedAt(d, C, j);
    }
  }

  lemma LeafAlone(d: Disk, C: Cert, c: nat)
    requires Tree(d, C) && Leaf(d, C, c) && IsEntry(C, c) && Ino(C, c)
    ensures Subtree(d, C, c) == {c}
  {
    LeafSubtree(d, C, c);
    SubtreeIs(d, C, c);
    forall j: nat
      ensures j in Subtree(d, C, c) <==> j in {c}
    {
      if Ino(C, j) { SubtreeUnique(d, C, c, Subtree(d, C, c), {c}, j); }
    }
  }

  /** Clearing the one slot that links c takes c, everything below it and all their blocks out of the tree. */
  lemma UnlinkTree(d: Disk, C: Cert, c: nat, U: set<nat>, e: Dirent)
    requires Tree(d, C) && IsSubtree(C, c, U) && !e.valid
    ensures Tree(PatchSlot(d, C[c].parent, C[c].slot, e), Drop(C, U))
  {
    var p, q := C[c].parent, C[c].slot;
    var r, D := PatchSlot(d, p, q, e), Drop(C, U);
    assert LinkedAt(d, C, c);
    PatchEffect(d, C, p, q, e);
    hide PatchSlot;
    UnlinkLive(d, C, c, U, r);
    UnlinkOwnership(d, C, U, r);
    UnlinkLinks(d, C, c, U, r);
    hide DirAt, Slots, Span, Ptr, NodeOk, Ent, Owns, Owned, Links, Linked, Names;
    assert C[ROOT].Root? && SameIno(d, r, ROOT);
    forall i | Ino(D, i)
      ensures NodeOk(r, i)
    {
      assert Ino(C, i) && SameIno(d, r, i);
    }
  }

  lemma UnlinkLive(d: Disk, C: Cert, c: nat, U: set<nat>, r: Disk)
    requires IsSubtree(C, c, U) && SameTree(d, r, C, C[c].parent, C[c].slot) && !Ent(r, C[c].parent, C[c].slot).valid
    ensures forall i, k ::
      Live(r, Drop(C, U), i, k) <==> Live(d, C, i, k) && i !in U && !(i == C[c].parent && k == C[c].slot)
    ensures forall i, k :: Live(r, Drop(C, U), i, k) ==> Ent(r, i, k) == Ent(d, i, k)
  {
    hide DirAt, Slots, Span, Ptr, NodeOk, Ent;
    assert forall i :: Ino(Drop(C, U), i) <==> Ino(C, i) && i !in U;
  }

  lemma UnlinkLinks(d: Disk, C: Cert, c: nat, U: set<nat>, r: Disk)
    requires Links(d, C) && Linked(d, C) && Names(d, C) && IsSubtree(C, c, U)
    requires forall i, k ::
      Live(r, Drop(C, U), i, k) <==> Live(d, C, i, k) && i !in U && !(i == C[c].parent && k == C[c].slot)
    requires forall i, k :: Live(r, Drop(C, U), i, k) ==> Ent(r, i, k) == Ent(d, i, k)
    ensures Links(r, Drop(C, U)) && Linked(r, Drop(C, U)) && Names(r, Drop(C, U))
  {
    hide Live, DirAt, Slots, Span, Ptr, NodeOk, Ent, CStr;
    var D := Drop(C, U);
    assert LinkedAt(d, C, c);
    forall i, k | Live(r, D, i, k)
      ensures Ino(D, i) && Ent(r, i, k).inode in D && D[Ent(r, i, k).inode] == Entry(i, k, Depth(D, i) + 1)
    {
      LiveIno(r, D, i, k);
      assert Live(d, C, i, k) && IsEntry(C, Ent(d, i, k).inode);
    }
    forall x | IsEntry(D, x)
      ensures LinkedAt(r, D, x)
    {
      assert IsEntry(C, x) && LinkedAt(d, C, x);
      LiveIno(d, C, C[x].parent, C[x].slot);
    }
  }

  lemma LiveIno(d: Disk, C: Cert, i: nat, k: nat)
    requires Live(d, C, i, k)
    ensures Ino(C, i)
  {}

  lemma UnlinkOwnership(d: Disk, C: Cert, U: set<nat>, r: Disk)
    requires Tree(d, C) && (forall j :: j in U ==> Ino(C, j)) && forall i :: Ino(C, i) ==> SameIno(d, r, i)
    ensures Owns(r, Drop(C, U)) && Owned(r, Drop(C, U))
  {
    hide DirAt, Slots, Span, Ptr, NodeOk, Links, Linked, Names, Nodes;
    var D := Drop(C, U);
    forall j, k | Ino(D, j) && 0 <= k < Span(r, j)
      ensures Ptr(r, j, k) in D && D[Ptr(r, j, k)] == Data(j, k)
    {
      assert Ino(C, j) && SameIno(d, r, j);
      assert C[Ptr(d, j, k)] == Data(j, k);
    }
    forall b | IsData(D, b)
      ensures Ino(D, D[b].owner) && D[b].index < Span(r, D[b].owner) && Ptr(r, D[b].owner, D[b].index) == b
    {
      assert IsData(C, b);
      assert SameIno(d, r, C[b].owner);
    }
  }

  /** Giving a linked slot another good name that its directory does not use keeps the tree. */
  lemma RenameTree(d: Disk, C: Cert, p: nat, q: nat, e: Dirent)
    requires Tree(d, C) && Live(d, C, p, q)
    requires e.valid && e.inode == Ent(d, p, q).inode && GoodName(CStr(e.name))
    requires forall l :: Live(d, C, p, l) && l != q ==> NameAt(d, p, l) != CStr(e.name)
    ensures Tree(PatchSlot(d, p, q, e), C)
  {
    var r := PatchSlot(d, p, q, e);
    PatchEffect(d, C, p, q, e);
    hide PatchSlot, DirAt, Slots, Span, Ptr, NodeOk, Ent, CStr;
    assert Ino(C, p);
    RenameLive(d, C, r, p, q);
    RenameBlocks(d, C, r);
    hide Owns, Owned, Nodes, Bounds, SameTree;
  }

  lemma RenameLive(d: Disk, C: Cert, r: Disk, p: nat, q: nat)
    requires SameTree(d, r, C, p, q) && Live(d, C, p, q) && Ent(r, p, q).valid
    ensures forall i, k :: Live(r, C, i, k) <==> Live(d, C, i, k)
    ensures forall i, k :: Live(d, C, i, k) && !(i == p && k == q) ==> Ent(r, i, k) == Ent(d, i, k)
  {
    hide DirAt, Slots, Span, Ptr, NodeOk, Ent;
  }

  lemma RenameBlocks(d: Disk, C: Cert, r: Disk)
    requires Bounds(d, C) && Nodes(d, C) && Owns(d, C) && Owned(d, C) && |r| == |d| && forall i :: Ino(C, i) ==>
        SameIno(d, r, i)
    ensures Bounds(r, C) && Nodes(r, C) && Owns(r, C) && Owned(r, C)
  {
    hide DirAt, Slots, Span, Ptr, NodeOk;
    assert C[ROOT].Root? && SameIno(d, r, ROOT);
  }

  // ---- blocks of an inode ----

  function IndexOf(bs: seq<nat>, b: nat): (x: nat)
    requires b in bs
    ensures x < |bs| && bs[x] == b
  { if bs[0] == b then 0 else 1 + IndexOf(bs[1..], b) }

  function Members(bs: seq<nat>): set<nat> { set b | b in bs }

  ghost predicate Distinct(bs: seq<nat>) { forall x, y :: 0 <= x < y < |bs| ==> bs[x] != bs[y] }

  lemma {:induction false} MembersSize(bs: seq<nat>)
    requires Distinct(bs)
    ensures |Members(bs)| == |bs|
  {
    if bs == [] {
      assert Members(bs) == {};
    } else {
      MembersSize(Front(bs));
      FrontLast(bs);
      assert Last(bs) !in Front(bs);
      assert Members(bs) == Members(Front(bs)) + {Last(bs)};
    }
  }

  /** The certificate in which the data blocks of i are exactly bs, in that order. */
  function Retable(C: Cert, i: nat, bs: seq<nat>): Cert {
    map b | b in C.Keys + (set x | x in bs) && (b in bs || !(C[b].Data? && C[b].owner == i)) ::
      if b in bs then Data(i, IndexOf(bs, b)) else C[b]
  }

  /** The blocks bs may become the blocks of i: they are distinct, on the disk, and not in use for anything else. */
  ghost predicate MayHold(d: Disk, C: Cert, i: nat, bs: seq<nat>) {
    && Distinct(bs)
    && (forall b :: b in bs ==> 2 <= b < |d|)
    && (forall b :: b in bs && b in C ==> C[b].Data? && C[b].owner == i)
  }

  /** The block table of inode i, as far as its size spans. */
  function Table(d: Disk, i: nat): (bs: seq<nat>)
    ensures |bs| == Span(d, i)
  { seq(Span(d, i), k requires 0 <= k => Ptr(d, i, k)) }

  /** The images agree on every block in use that is not a file's own inode or data block. */
  ghost predicate AgreeExcept(d: Disk, e: Disk, C: Cert, i: nat) {
    |e| == |d| && forall b :: b in C && b != i && !(C[b].Data? && C[b].owner == i) ==> At(e, b) == At(d, b)
  }

  lemma RetableSame(d: Disk, C: Cert, e: Disk, i: nat)
    requires Tree(d, C) && Ino(C, i) && !DirAt(d, i) && AgreeExcept(d, e, C, i)
    ensures forall j :: Ino(C, j) && j != i ==> SameIno(d, e, j)
    ensures forall j, k :: Ino(C, j) && DirAt(d, j) && 0 <= k < Slots(d, j) ==> Ent(e, j, k) == Ent(d, j, k)
  {
    forall j, k | Ino(C, j) && DirAt(d, j) && 0 <= k < Slots(d, j)
      ensures Ent(e, j, k) == Ent(d, j, k)
    {
      assert k / 128 < Span(d, j);
      assert Ptr(d, j, k / 128) in C && C[Ptr(d, j, k / 128)] == Data(j, k / 128);
    }
    hide Ent, Links, Linked, Names, Owned, Owns;
  }

  lemma RetableOwnership(d: Disk, C0: Cert, e: Disk, i: nat, C: Cert)
    requires Owns(d, C0) && Owned(d, C0) && Ino(C, i)
    requires C == C0 || (i !in C0 && C == C0[i := C[i]])
    requires forall j :: Ino(C0, j) && j != i ==> SameIno(d, e, j)
    requires MayHold(d, C, i, Table(e, i))
    ensures Owns(e, Retable(C, i, Table(e, i))) && Owned(e, Retable(C, i, Table(e, i)))
  {
    var bs := Table(e, i);
    var D := Retable(C, i, bs);
    assert forall k :: 0 <= k < Span(e, i) ==> bs[k] == Ptr(e, i, k);
    hide DirAt, Slots, Span, Ptr, NodeOk, Table;
    forall j, k | Ino(D, j) && 0 <= k < Span(e, j)
      ensures Ptr(e, j, k) in D && D[Ptr(e, j, k)] == Data(j, k)
    {
      if j == i {
        assert bs[k] in bs && IndexOf(bs, bs[k]) == k;
      } else {
        assert Ino(C0, j) && SameIno(d, e, j);
        assert C0[Ptr(d, j, k)] == Data(j, k);
      }
    }
    forall b | IsData(D, b)
      ensures Ino(D, D[b].owner) && D[b].index < Span(e, D[b].owner) && Ptr(e, D[b].owner, D[b].index) == b
    {
      if b !in bs {
        assert IsData(C0, b);
        assert SameIno(d, e, C0[b].owner);
      }
    }
  }

  lemma RetableNodes(d: Disk, C: Cert, e: Disk, i: nat)
    requires Bounds(d, C) && Nodes(d, C) && Ino(C, i) && |e| == |d| && NodeOk(e, i) && !DirAt(d, i) && !DirAt(e, i)
    requires MayHold(d, C, i, Table(e, i)) && forall j :: Ino(C, j) && j != i ==> SameIno(d, e, j)
    ensures Bounds(e, Retable(C, i, Table(e, i))) && Nodes(e, Retable(C, i, Table(e, i)))
    ensures forall j :: Ino(Retable(C, i, Table(e, i)), j) <==> Ino(C, j)
  {
    hide DirAt, Slots, Span, Ptr, NodeOk, Table;
    var D := Retable(C, i, Table(e, i));
    assert C[ROOT].Root? && SameIno(d, e, ROOT);
    forall j | Ino(D, j)
      ensures NodeOk(e, j)
    {
      assert Ino(C, j) && (j != i ==> SameIno(d, e, j));
    }
  }

  lemma RetableLinks(d: Disk, C: Cert, e: Disk, i: nat)
    requires Links(d, C) && Linked(d, C) && Names(d, C) && Ino(C, i) && !DirAt(d, i) && !DirAt(e, i)
    requires MayHold(d, C, i, Table(e, i)) && forall j :: Ino(C, j) && j != i ==> SameIno(d, e, j)
    requires forall j, k :: Ino(C, j) && DirAt(d, j) && 0 <= k < Slots(d, j) ==> Ent(e, j, k) == Ent(d, j, k)
    requires forall j :: Ino(Retable(C, i, Table(e, i)), j) <==> Ino(C, j)
    ensures var D := Retable(C, i, Table(e, i)); Links(e, D) && Linked(e, D) && Names(e, D)
  {
    var D := Retable(C, i, Table(e, i));
    hide DirAt, Slots, Span, Ptr, NodeOk, Ent, CStr, Table;
    assert forall j, k :: Live(e, D, j, k) <==> Live(d, C, j, k);
    forall x | IsEntry(D, x)
      ensures LinkedAt(e, D, x)
    {
      assert IsEntry(C, x);
    }
  }

  /** A file may be given another size and table, and its blocks other bytes: the tree keeps its shape. */
  lemma RetableTree(d: Disk, C: Cert, e: Disk, i: nat)
    requires Tree(d, C) && Ino(C, i) && !DirAt(d, i) && AgreeExcept(d, e, C, i)
    requires NodeOk(e, i) && !DirAt(e, i) && MayHold(d, C, i, Table(e, i))
    ensures Tree(e, Retable(C, i, Table(e, i)))
  {
    assert |e| == |d|;
    RetableSame(d, C, e, i);
    hide DirAt, Slots, Span, Ptr, NodeOk, Ent, CStr, Owns, Owned, Table, Links, Linked, Names, Bounds, Nodes, MayHold,
        Retable, SameIno, AgreeExcept;
    RetableOwnership(d, C, e, i, C);
    RetableNodes(d, C, e, i);
    RetableLinks(d, C, e, i);
  }

  /** A fresh inode written outside the tree becomes a leaf of it when a free slot of a directory links it. */
  lemma LinkTree(d: Disk, C: Cert, p: nat, q: nat, c: nat, e: Dirent)
    requires Tree(d, C) && Ino(C, p) && DirAt(d, p) && q < Slots(d, p) && !Ent(d, p, q).valid
    requires c !in C && 2 <= c < |d| && NodeOk(d, c)
    requires (DirAt(d, c) ==> forall l :: 0 <= l < Slots(d, c) ==> !Ent(d, c, l).valid)
    requires MayHold(d, C, c, Table(d, c)) && c !in Table(d, c) && forall b :: b in Table(d, c) ==> b !in C
    requires e.valid && e.inode == c && GoodName(CStr(e.name))
    requires forall l :: Live(d, C, p, l) ==> NameAt(d, p, l) != CStr(e.name)
    ensures Tree(PatchSlot(d, p, q, e), Retable(C[c := Entry(p, q, Depth(C, p) + 1)], c, Table(d, c)))
  {
    PatchEffect(d, C, p, q, e);
    FreshKept(d, C, p, q, c, e);
    LinkGrows(d, C, p, q, c, PatchSlot(d, p, q, e));
  }

  /** Linking a fresh inode does not touch it. */
  lemma FreshKept(d: Disk, C: Cert, p: nat, q: nat, c: nat, e: Dirent)
    requires Tree(d, C) && Ino(C, p) && DirAt(d, p) && q < Slots(d, p)
    requires c !in C && NodeOk(d, c) && (DirAt(d, c) ==> forall l :: 0 <= l < Slots(d, c) ==> !Ent(d, c, l).valid)
    requires forall b :: b in Table(d, c) ==> b !in C
    ensures var r := PatchSlot(d, p, q, e);
      && SameIno(d, r, c) && Table(r, c) == Table(d, c)
      && (DirAt(r, c) ==> forall l :: 0 <= l < Slots(r, c) ==> !Ent(r, c, l).valid)
  {
    PatchEffect(d, C, p, q, e);
    var r := PatchSlot(d, p, q, e);
    hide PatchSlot;
    assert Node(r, c) == Node(d, c);
    forall l | DirAt(d, c) && 0 <= l < Slots(d, c)
      ensures Ent(r, c, l) == Ent(d, c, l)
    {
      assert l / 128 < Span(d, c);
      assert Table(d, c)[l / 128] == Ptr(d, c, l / 128);
    }
  }

  lemma LinkGrows(d: Disk, C: Cert, p: nat, q: nat, c: nat, r: Disk)
    requires Tree(d, C) && Ino(C, p) && DirAt(d, p) && q < Slots(d, p) && !Ent(d, p, q).valid
    requires c !in C && 2 <= c < |d| && MayHold(d, C, c, Table(r, c)) && c !in Table(r, c)
    requires forall b :: b in Table(r, c) ==> b !in C
    requires SameTree(d, r, C, p, q) && Ent(r, p, q).valid && Ent(r, p, q).inode == c && GoodName(NameAt(r, p, q))
    requires forall l :: Live(d, C, p, l) ==> NameAt(d, p, l) != NameAt(r, p, q)
    requires NodeOk(r, c) && (DirAt(r, c) ==> forall l :: 0 <= l < Slots(r, c) ==> !Ent(r, c, l).valid)
    ensures Tree(r, Retable(C[c := Entry(p, q, Depth(C, p) + 1)], c, Table(r, c)))
  {
    hide DirAt, Slots, Span, Ptr, NodeOk, Ent, CStr, Table, GoodName;
    var C1 := C[c := Entry(p, q, Depth(C, p) + 1)];
    var D := Retable(C1, c, Table(r, c));
    assert SameIno(d, r, ROOT);
    RetableOwnership(d, C, r, c, C1);
    assert forall j :: Ino(D, j) <==> Ino(C, j) || j == c;
    LinkLive(d, C, p, q, c, r, D);
    LinkLinks(d, C, p, q, c, r, D);
    hide Owns, Owned, Links, Linked, Names;
  }

  lemma LinkLive(d: Disk, C: Cert, p: nat, q: nat, c: nat, r: Disk, D: Cert)
    requires Ino(C, p) && DirAt(d, p) && q < Slots(d, p) && c !in C && !Ent(d, p, q).valid
    requires forall j :: Ino(D, j) <==> Ino(C, j) || j == c
    requires SameTree(d, r, C, p, q) && Ent(r, p, q).valid
    requires DirAt(r, c) ==> forall l :: 0 <= l < Slots(r, c) ==> !Ent(r, c, l).valid
    ensures !Live(d, C, p, q)
    ensures forall i, k :: Live(r, D, i, k) <==> Live(d, C, i, k) || (i == p && k == q)
    ensures forall i, k :: Live(d, C, i, k) ==> Ent(r, i, k) == Ent(d, i, k)
  {
    hide DirAt, Slots, Span, Ptr, NodeOk, Ent;
  }

  lemma LinkLinks(d: Disk, C: Cert, p: nat, q: nat, c: nat, r: Disk, D: Cert)
    requires Links(d, C) && Linked(d, C) && Names(d, C) && Ino(C, p) && !Live(d, C, p, q) && c !in C
    requires Ino(D, c) && D[c] == Entry(p, q, Depth(C, p) + 1)
    requires forall j :: Ino(C, j) ==> Ino(D, j) && D[j] == C[j]
    requires forall j :: Ino(D, j) ==> Ino(C, j) || j == c
    requires forall i, k :: Live(r, D, i, k) <==> Live(d, C, i, k) || (i == p && k == q)
    requires forall i, k :: Live(d, C, i, k) ==> Ent(r, i, k) == Ent(d, i, k)
    requires Ent(r, p, q).inode == c && GoodName(NameAt(r, p, q))
    requires forall l :: Live(d, C, p, l) ==> NameAt(d, p, l) != NameAt(r, p, q)
    ensures Links(r, D) && Linked(r, D) && Names(r, D)
  {
    hide Live, DirAt, Slots, Span, Ptr, NodeOk, Ent, CStr, GoodName;
    forall i, k | Live(r, D, i, k)
      ensures Ino(D, i) && Ent(r, i, k).inode in D && D[Ent(r, i, k).inode] == Entry(i, k, Depth(D, i) + 1)
      ensures GoodName(NameAt(r, i, k))
    {
      LiveIno(r, D, i, k);
      if Live(d, C, i, k) {
        LiveIno(d, C, i, k);
        assert Ino(C, Ent(d, i, k).inode);
      }
    }
    forall x | IsEntry(D, x)
      ensures LinkedAt(r, D, x)
    {
      if x != c {
        assert Ino(D, x) && IsEntry(C, x) && LinkedAt(d, C, x);
        LiveIno(d, C, C[x].parent, C[x].slot);
      }
    }
  }
}
