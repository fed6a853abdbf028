/** unlink, rmdir and truncate: what they take out of the tree and give back to the bitmap. */
module Removing {
  import opened Format
  import opened Bits
  import opened Image
  import opened Change
  import opened Paths
  import opened Ops
  import opened Keep

  /** The object at r goes away and nothing else changes. */
  ghost predicate Removed(d: Disk, e: Disk, r: Path) {
    Lookup(d, r).Some? && forall q: Path :: Lookup(e, q) == if q == r then None else Lookup(d, q)
  }

  /** Everything at and below r goes away and nothing else changes. */
  ghost predicate Drops(d: Disk, e: Disk, r: Path) {
    Lookup(d, r).Some? && forall q: Path :: Lookup(e, q) == if r <= q then None else Lookup(d, q)
  }

  /** Inode c and its data blocks. */
  function BlocksOf(d: Disk, c: nat): set<nat> { {c} + Members(Table(d, c)) }

  /** The blocks of an inode are the ones the certificate gives it. */
  lemma BlocksOfCert(d: Disk, C: Cert, c: nat)
    requires Tree(d, C) && Ino(C, c)
    ensures forall b :: b in BlocksOf(d, c) <==> b == c || (IsData(C, b) && C[b].owner == c)
    ensures Distinct(Table(d, c)) && |BlocksOf(d, c)| == 1 + Span(d, c)
    ensures Prune(C, c).Keys == C.Keys - BlocksOf(d, c)
  {
    var bs := Table(d, c);
    hide Links, Linked, Names, Nodes;
    assert forall k :: 0 <= k < Span(d, c) ==> bs[k] == Ptr(d, c, k) && C[bs[k]] == Data(c, k);
    hide Ptr, Span, Table;
    MembersSize(bs);
    forall b | IsData(C, b) && C[b].owner == c
      ensures b in bs
    {
      assert bs[C[b].index] == b;
    }
  }

  lemma UnlinkNamespace(d: Disk, C: Cert, e: Disk, D: Cert, c: nat, r: Path)
    requires Tree(d, C) && Tree(e, D) && SharePaths(e, D, d, C) && Ino(C, c) && PathOf(d, C, c) == r
    requires forall i :: Ino(D, i) <==> Ino(C, i) && i !in Subtree(d, C, c)
    requires forall i :: Ino(D, i) ==> ObjAt(e, i) == ObjAt(d, i)
    ensures Drops(d, e, r)
  {
    SubtreeHas(d, C, c);
    hide Tree, ObjAt, Subtree, PathOf, SharePaths;
    WalkReaches(d, C, c);
    forall q: Path
      ensures Lookup(e, q) == if r <= q then None else Lookup(d, q)
    {
      if Walk(e, q).Ok? {
        WalkIsPath(e, D, q);
        SameWalk(e, D, d, C, q);
        WalkIsPath(d, C, q);
      } else if Walk(d, q).Ok? {
        WalkIsPath(d, C, q);
        var i := Walk(d, q).inum;
        if i !in Subtree(d, C, c) {
          SamePath(e, D, d, C, i);
          WalkReaches(e, D, i);
        }
      }
    }
  }

  lemma SubtreeHas(d: Disk, C: Cert, c: nat)
    requires Tree(d, C) && Ino(C, c)
    ensures forall j :: Ino(C, j) ==> (j in Subtree(d, C, c) <==> PathOf(d, C, c) <= PathOf(d, C, j))
  {
    hide Tree, PathOf;
  }

  /** The certificate without c and all below it. */
  ghost function Without(d: Disk, C: Cert, c: nat): Cert
    requires Tree(d, C) && Ino(C, c)
  { Drop(C, Subtree(d, C, c)) }

  /** Clearing the slot of c: the tree, and what a user sees. */
  lemma UnlinkEffect(d: Disk, C: Cert, c: nat, x: Dirent)
    requires Tree(d, C) && Ino(C, c) && IsEntry(C, c) && !x.valid
    ensures var e := PatchSlot(d, C[c].parent, C[c].slot, x);
      && Tree(e, Without(d, C, c)) && Drops(d, e, PathOf(d, C, c))
      && SlotBlock(d, C[c].parent, C[c].slot) > 1 && SameTop(d, e) && |e| == |d|
  {
    var p, k := C[c].parent, C[c].slot;
    hide *;
    SubtreeIs(d, C, c);
    UnlinkTree(d, C, c, Subtree(d, C, c), x);
    EntrySlotIs(d, C, c);
    PatchParts(d, C, p, k, x);
    WithoutParts(d, C, c);
    forall i | Ino(Without(d, C, c), i)
      ensures ObjAt(PatchSlot(d, p, k, x), i) == ObjAt(d, i)
    {
      UnlinkLeaves(d, C, c, x, i);
    }
    UnlinkShares(d, C, c, x);
    UnlinkNamespace(d, C, PatchSlot(d, p, k, x), Without(d, C, c), c, PathOf(d, C, c));
  }

  lemma EntrySlotIs(d: Disk, C: Cert, c: nat)
    requires Tree(d, C) && IsEntry(C, c)
    ensures Ino(C, C[c].parent) && DirAt(d, C[c].parent) && C[c].slot < Slots(d, C[c].parent)
  {
    assert LinkedAt(d, C, c);
  }

  lemma PatchParts(d: Disk, C: Cert, p: nat, k: nat, x: Dirent)
    requires Tree(d, C) && Ino(C, p) && DirAt(d, p) && k < Slots(d, p)
    ensures SlotBlock(d, p, k) > 1 && SameTop(d, PatchSlot(d, p, k, x)) && |PatchSlot(d, p, k, x)| == |d|
  {
    PatchEffect(d, C, p, k, x);
    SlotIsData(d, C, p, k);
    OneOutside(d, C);
    hide PatchSlot, Tree, SameIno;
  }

  lemma WithoutParts(d: Disk, C: Cert, c: nat)
    requires Tree(d, C) && Ino(C, c)
    ensures Without(d, C, c) == Drop(C, Subtree(d, C, c))
    ensures forall i :: Ino(Without(d, C, c), i) <==> Ino(C, i) && i !in Subtree(d, C, c)
    ensures forall i :: i in Without(d, C, c) ==> i in C && Without(d, C, c)[i] == C[i]
  {
    hide Tree, Subtree;
  }

  lemma UnlinkShares(d: Disk, C: Cert, c: nat, x: Dirent)
    requires Tree(d, C) && IsEntry(C, c) && Ino(C, c)
    ensures SharePaths(PatchSlot(d, C[c].parent, C[c].slot, x), Without(d, C, c), d, C)
  {
    WithoutParts(d, C, c);
    var e, D := PatchSlot(d, C[c].parent, C[c].slot, x), Without(d, C, c);
    hide Tree, PatchSlot, NameAt, ObjAt, Without;
    forall i | Ino(D, i)
      ensures IsEntry(D, i) ==> NameAt(d, D[i].parent, D[i].slot) == NameAt(e, D[i].parent, D[i].slot)
    {
      UnlinkLeaves(d, C, c, x, i);
    }
  }

  lemma SlotIsData(d: Disk, C: Cert, p: nat, k: nat)
    requires Tree(d, C) && Ino(C, p) && DirAt(d, p) && k < Slots(d, p)
    ensures SlotBlock(d, p, k) in C && C[SlotBlock(d, p, k)] == Data(p, k / 128) && SlotBlock(d, p, k) > 1
  {
    assert k / 128 < Span(d, p);
  }

  lemma UnlinkLeaves(d: Disk, C: Cert, c: nat, x: Dirent, i: nat)
    requires Tree(d, C) && IsEntry(C, c) && Ino(C, c) && Ino(Without(d, C, c), i)
    ensures var e := PatchSlot(d, C[c].parent, C[c].slot, x);
      && Ino(C, i) && ObjAt(e, i) == ObjAt(d, i)
      && (IsEntry(C, i) ==> NameAt(e, C[i].parent, C[i].slot) == NameAt(d, C[i].parent, C[i].slot))
  {
    hide *;
    WithoutParts(d, C, c);
    SubtreeHas(d, C, c);
    EntryIsIno(C, c);
    EntrySlotIs(d, C, c);
    PatchObj(d, C, C[c].parent, C[c].slot, x, i);
    if IsEntry(C, i) {
      EntryIsIno(C, i);
      EntrySlotIs(d, C, i);
      OtherSlot(d, C, c, i);
      PatchEnt(d, C, C[c].parent, C[c].slot, x, C[i].parent, C[i].slot);
      NameFrom(d, PatchSlot(d, C[c].parent, C[c].slot, x), C[i].parent, C[i].slot);
    }
  }

  lemma OtherSlot(d: Disk, C: Cert, c: nat, i: nat)
    requires Tree(d, C) && IsEntry(C, c) && IsEntry(C, i)
    ensures C[i].parent == C[c].parent && C[i].slot == C[c].slot ==> i == c
  {
    EntryLive(d, C, c);
    EntryLive(d, C, i);
    hide Tree, Live, Ent, PathOf, NameAt;
  }

  lemma NameFrom(d: Disk, e: Disk, p: nat, k: nat)
    requires Ent(e, p, k) == Ent(d, p, k)
    ensures NameAt(e, p, k) == NameAt(d, p, k)
  {
    hide Ent, CStr;
  }

  // ---- the two writes of unlink and rmdir ----

  /** What removing the object at r means: it goes with all below it, n blocks leave the tree, and the blocks of L are
      lost. */
  ghost predicate RemoveResult(s: Fs, C: Cert, o: Outcome, D: Cert, L: set<nat>, r: Path, n: nat) {
    && Loses(s.bitmap, C, o.bitmap, D, L) && o.code <= 0
    && (if o.code == 0 then Drops(s.disk, After(s, o).disk, r) && |D.Keys| == |C.Keys| - n
        else L == {} && Untouched(s, C, o, D))
  }

  /** bm is the bitmap of s without the blocks in X. */
  ghost predicate Clears(s: Fs, bm: Block, X: set<nat>) {
    forall b: nat :: Bit(bm, b) <==> Bit(s.bitmap, b) && b !in X
  }

  lemma WithoutSafe(d: Disk, C: Cert, e: Disk, c: nat)
    requires Safe(d, C) && Tree(d, C) && Ino(C, c) && Tree(e, Without(d, C, c)) && SameTop(d, e) && |e| == |d|
    ensures Safe(e, Without(d, C, c))
  {
    WithoutParts(d, C, c);
    hide Tree, Bit, Without;
  }

  lemma DropsThenFlush(d: Disk, e: Disk, f: Disk, D: Cert, r: Path)
    requires Drops(d, e, r) && Tree(e, D) && Agree(e, f, D)
    ensures Drops(d, f, r)
  {
    hide Tree, Lookup, Agree;
    forall q: Path ensures Lookup(f, q) == Lookup(e, q) { AgreeLookup(e, f, D, q); }
  }

  lemma FlushedInv(e: Disk, D: Cert, bm: Block, w: Write)
    requires Safe(e, D) && w.lba == 1 && w.data.bytes == bm
    requires Bit(bm, 0) && Bit(bm, 1) && forall b :: b in D ==> Bit(bm, b)
    ensures Inv(Fs(Put(e, 1, w.data), bm), D) && Agree(e, Put(e, 1, w.data), D) && 1 !in D
  {
    OneOutside(e, D);
    hide Bit, Tree;
    PutOutside(e, D, 1, w.data);
  }

  /** Clearing a slot and then flushing a bitmap that still marks all that is left. */
  lemma ClearAndFlush(s: Fs, C: Cert, c: nat, x: Dirent, v: Write, bm: Block)
    requires Inv(s, C) && Tree(s.disk, C) && IsEntry(C, c) && Ino(C, c) && !x.valid
    requires v.lba == 1 && v.data.bytes == bm && Bit(bm, 0) && Bit(bm, 1)
    requires forall b :: b in Without(s.disk, C, c) ==> Bit(bm, b)
    ensures var o := Outcome(0, [SlotWrite(s.disk, C[c].parent, C[c].slot, x), v], bm);
      Sound(s, C, o, Without(s.disk, C, c), 1) && Drops(s.disk, After(s, o).disk, PathOf(s.disk, C, c))
  {
    hide *;
    EntryIsIno(C, c);
    var d, D := s.disk, Without(s.disk, C, c);
    var w := SlotWrite(d, C[c].parent, C[c].slot, x);
    var e := PatchSlot(d, C[c].parent, C[c].slot, x);
    var o := Outcome(0, [w, v], bm);
    InvParts(s, C);
    SlotPut(d, C[c].parent, C[c].slot, x);
    SlotWriteLba(d, C[c].parent, C[c].slot, x);
    ApplyTwo(d, w, v);
    AfterIs(s, o);
    UnlinkEffect(d, C, c, x);
    WithoutSafe(d, C, e, c);
    FlushedInv(e, D, bm, v);
    StagesMoveFirst(d, C, w, D, v);
    DropsThenFlush(d, e, Put(e, 1, v.data), D, PathOf(d, C, c));
    OneOutside(d, C);
    FlushLeavesClean(e, v, bm);
    SoundIs(s, C, o, D, 1);
  }

  lemma SlotWriteLba(d: Disk, p: nat, k: nat, x: Dirent)
    ensures SlotWrite(d, p, k, x).lba == SlotBlock(d, p, k)
  {
    hide SlotData;
  }

  lemma FlushLeavesClean(e: Disk, v: Write, bm: Block)
    requires v.data.bytes == bm && 1 < |e|
    ensures Clean(Fs(Put(e, 1, v.data), bm))
  {}

  lemma ApplyTwo(d: Disk, w: Write, v: Write)
    ensures Apply(d, [w, v]) == Put(Put(d, w.lba, w.data), v.lba, v.data)
  {
    assert [w, v] == [w] + [v] && [w] == [] + [w];
    ApplyOn(d, [w], v);
    ApplyOn(d, [], w);
  }

  /** The blocks of c and of everything below it. */
  ghost function Leaving(d: Disk, C: Cert, c: nat): set<nat>
    requires Tree(d, C) && Ino(C, c)
  { C.Keys - Without(d, C, c).Keys }

  lemma LeavingParts(d: Disk, C: Cert, c: nat)
    requires Tree(d, C) && Ino(C, c)
    ensures BlocksOf(d, c) <= Leaving(d, C, c) && (forall b :: b in Leaving(d, C, c) ==> b in C)
    ensures Without(d, C, c).Keys == C.Keys - Leaving(d, C, c)
    ensures Subtree(d, C, c) == {c} ==> Leaving(d, C, c) == BlocksOf(d, c) && Without(d, C, c) == Prune(C, c)
  {
    BlocksOfCert(d, C, c);
    WithoutParts(d, C, c);
    assert c in Subtree(d, C, c);
    var D := Without(d, C, c);
    hide Tree, Subtree, BlocksOf, Without;
    assert forall b :: b in D.Keys ==> b in C.Keys by { forall b | b in D.Keys ensures b in C.Keys { assert b in D; } }
    forall b | b in BlocksOf(d, c)
      ensures b in C && b !in D
    {
      assert b != c ==> IsData(C, b) && C[b].owner == c;
    }
  }

  /** The blocks of everything found at and below r. */
  ghost function Beneath(d: Disk, r: Path): set<nat> { set b: nat | b < |d| && LiesBeneath(d, r, b) }

  ghost predicate LiesBeneath(d: Disk, r: Path, b: nat) {
    exists q: Path :: r <= q && Walk(d, q).Ok? && b in BlocksOf(d, Walk(d, q).inum)
  }

  /** They are what leaves the tree. */
  lemma BeneathIs(d: Disk, C: Cert, i: nat, r: Path)
    requires Tree(d, C) && Ino(C, i) && Walk(d, r) == Ok(i)
    ensures Beneath(d, r) == Leaving(d, C, i)
  {
    WalkIsPath(d, C, r);
    CertBelow(d, C);
    hide *;
    SubtreeHas(d, C, i);
    LeavingAre(d, C, i);
    forall b: nat
      ensures b in Beneath(d, r) <==> b in Leaving(d, C, i)
    {
      if b in Beneath(d, r) {
        var q := BeneathAt(d, r, b);
        WalkIsPath(d, C, q);
        BlocksOfCert(d, C, Walk(d, q).inum);
      }
      if b in Leaving(d, C, i) {
        var j := if Ino(C, b) then b else C[b].owner;
        RolesApart(d, C, b);
        WalkReaches(d, C, j);
        BlocksOfCert(d, C, j);
        BeneathHas(d, r, PathOf(d, C, j), b);
      }
    }
  }

  lemma BeneathAt(d: Disk, r: Path, b: nat) returns (q: Path)
    requires b in Beneath(d, r)
    ensures r <= q && Walk(d, q).Ok? && b in BlocksOf(d, Walk(d, q).inum)
  {
    hide Walk, BlocksOf;
    q :| r <= q && Walk(d, q).Ok? && b in BlocksOf(d, Walk(d, q).inum);
  }

  lemma BeneathHas(d: Disk, r: Path, q: Path, b: nat)
    requires r <= q && Walk(d, q).Ok? && b in BlocksOf(d, Walk(d, q).inum) && b < |d|
    ensures b in Beneath(d, r)
  {
    hide Walk, BlocksOf;
  }

  lemma CertBelow(d: Disk, C: Cert)
    requires Tree(d, C)
    ensures forall b :: b in C ==> b < |d|
  {}

  lemma RolesApart(d: Disk, C: Cert, b: nat)
    requires Tree(d, C) && b in C
    ensures Ino(C, b) || (IsData(C, b) && Ino(C, C[b].owner))
  {
    hide Bounds, Nodes, Owns, Links, Linked, Names;
    assert C[b].Data? ==> IsData(C, b);
  }

  lemma LeavingAre(d: Disk, C: Cert, c: nat)
    requires Tree(d, C) && Ino(C, c)
    ensures forall b :: b in Leaving(d, C, c) <==>
      b in C && (if Ino(C, b) then b in Subtree(d, C, c) else C[b].owner in Subtree(d, C, c))
  {
    var U := Subtree(d, C, c);
    assert forall j :: j in U ==> Ino(C, j);
    hide Tree, Subtree;
    forall b
      ensures b in Leaving(d, C, c) <==> b in C && b !in Without(d, C, c)
      ensures b in Without(d, C, c) <==> b in C && b !in U && !(C[b].Data? && C[b].owner in U)
    {
      assert b in C.Keys <==> b in C;
      assert b in Without(d, C, c).Keys <==> b in Without(d, C, c);
    }
  }

  /** The blocks that leave the tree and are not cleared are lost. */
  lemma ClearedSlack(s: Fs, C: Cert, c: nat, bm: Block, X: set<nat>)
    requires Inv(s, C) && Tree(s.disk, C) && Ino(C, c) && Clears(s, bm, X) && X <= Leaving(s.disk, C, c)
    ensures Loses(s.bitmap, C, bm, Without(s.disk, C, c), Leaving(s.disk, C, c) - X)
    ensures |Without(s.disk, C, c).Keys| == |C.Keys| - |Leaving(s.disk, C, c)|
    ensures Bit(bm, 0) && Bit(bm, 1) && forall b :: b in Without(s.disk, C, c) ==> Bit(bm, b)
  {
    hide *;
    LeavingParts(s.disk, C, c);
    InvMarks(s, C);
    SlackSets(s, C, bm, Without(s.disk, C, c), Leaving(s.disk, C, c), X);
  }

  lemma SlackSets(s: Fs, C: Cert, bm: Block, D: Cert, B: set<nat>, X: set<nat>)
    requires D.Keys == C.Keys - B && X <= B && Clears(s, bm, X) && forall b :: b in B ==> b in C
    requires Bit(s.bitmap, 0) && Bit(s.bitmap, 1) && 0 !in C && 1 !in C && forall b :: b in C ==> Bit(s.bitmap, b)
    ensures Loses(s.bitmap, C, bm, D, B - X) && |D.Keys| == |C.Keys| - |B|
    ensures Bit(bm, 0) && Bit(bm, 1) && forall b :: b in D ==> Bit(bm, b)
  {
    hide Bit;
    assert B <= C.Keys;
    forall b: nat
      ensures b in D <==> b in C && b !in B
    {
      assert b in D.Keys <==> b in D;
      assert b in C.Keys <==> b in C;
    }
  }

  lemma InvMarks(s: Fs, C: Cert)
    requires Inv(s, C)
    ensures Bit(s.bitmap, 0) && Bit(s.bitmap, 1) && 0 !in C && 1 !in C && forall b :: b in C ==> Bit(s.bitmap, b)
  {
    hide Bit;
    assert OnDisk(s.disk, 0) && OnDisk(s.disk, 1);
    forall b | b in C ensures Bit(s.bitmap, b) { assert OnDisk(s.disk, b); }
  }

  // ---- unlink ----

  /** The entry a walk ends at: its slot is what scanning the parent for the last name finds. */
  lemma TargetSlot(d: Disk, C: Cert, r: Path, i: nat)
    requires Tree(d, C) && r != [] && Walk(d, r) == Ok(i)
    ensures IsEntry(C, i) && PathOf(d, C, i) == r
    ensures Walk(d, Front(r)) == Ok(C[i].parent) && DirAt(d, C[i].parent)
    ensures Find(d, C[i].parent, Last(r), 0) == Hit(C[i].slot)
  {
    WalkIsPath(d, C, r);
    WalkIsPath(d, C, Front(r));
    hide Find, Tree, PathOf;
    StepIsLink(d, C, Walk(d, Front(r)).inum, Last(r));
    EntrySlot(d, C, i);
  }

  lemma EntrySlot(d: Disk, C: Cert, i: nat)
    requires Tree(d, C) && IsEntry(C, i)
    ensures Ino(C, C[i].parent) && DirAt(d, C[i].parent)
    ensures Find(d, C[i].parent, NameAt(d, C[i].parent, C[i].slot), 0) == Hit(C[i].slot)
  {
    assert LinkedAt(d, C, i);
    StepFinds(d, C, C[i].parent, C[i].slot);
  }

  lemma {:induction false} ClearAllBits(bm: Block, bs: seq<nat>, i: nat)
    requires forall b :: b in bs ==> b < 32768
    ensures Bit(ClearAll(bm, bs), i) <==> Bit(bm, i) && !(i in bs && i != 0)
  {
    hide Bit, ClearBit;
    if bs != [] {
      FrontLast(bs);
      assert Last(bs) in bs && forall b :: b in Front(bs) ==> b in bs;
      ClearAllBits(bm, Front(bs), i);
      SetThenTest(ClearAll(bm, Front(bs)), Last(bs), i);
    }
  }

  lemma UnlinkClears(s: Fs, C: Cert, i: nat)
    requires Inv(s, C) && Ino(C, i)
    ensures Clears(s, ClearAll(s.bitmap, Table(s.disk, i)), Members(Table(s.disk, i)))
    ensures Clears(s, ClearBit(ClearAll(s.bitmap, Table(s.disk, i)), i), BlocksOf(s.disk, i))
    ensures Members(Table(s.disk, i)) <= BlocksOf(s.disk, i)
  {
    hide *;
    var bs := Table(s.disk, i);
    InvParts(s, C);
    TableBounds(s, C, i);
    BlocksOfIs(s.disk, i);
    forall b: nat
      ensures Bit(ClearAll(s.bitmap, bs), b) <==> Bit(s.bitmap, b) && b !in Members(bs)
      ensures Bit(ClearBit(ClearAll(s.bitmap, bs), i), b) <==> Bit(s.bitmap, b) && b !in BlocksOf(s.disk, i)
    {
      ClearAllBits(s.bitmap, bs, b);
      SetThenTest(ClearAll(s.bitmap, bs), i, b);
    }
    IsCleared(s, ClearAll(s.bitmap, bs), Members(bs));
    IsCleared(s, ClearBit(ClearAll(s.bitmap, bs), i), BlocksOf(s.disk, i));
  }

  lemma TableBounds(s: Fs, C: Cert, i: nat)
    requires Inv(s, C) && Ino(C, i)
    ensures i < 32768 && forall b :: b in Table(s.disk, i) ==> 2 <= b < 32768
  {
    InvParts(s, C);
    BlocksOfCert(s.disk, C, i);
    assert i in C;
    hide Links, Linked, Names, Nodes, Owned, Owns, Table;
    forall b | b in Table(s.disk, i)
      ensures 2 <= b < 32768
    {
      assert b in BlocksOf(s.disk, i);
    }
  }

  lemma BlocksOfIs(d: Disk, i: nat)
    ensures forall b: nat :: b in BlocksOf(d, i) <==> b == i || b in Members(Table(d, i))
    ensures forall b: nat :: b in Members(Table(d, i)) <==> b in Table(d, i)
  {
    hide Table;
  }

  /** Removing what lies at path r by the detaching writes, with the blocks of X cleared. */
  lemma DetachKeeps(s: Fs, C: Cert, i: nat, r: Path, bm: Block, X: set<nat>)
    requires Inv(s, C) && Tree(s.disk, C) && Ino(C, i) && r != [] && Walk(s.disk, r) == Ok(i)
    requires Clears(s, bm, X) && X <= BlocksOf(s.disk, i)
    ensures Walk(s.disk, Front(r)).Ok? && DirAt(s.disk, Walk(s.disk, Front(r)).inum)
    ensures var o := Detach(s, Walk(s.disk, Front(r)).inum, Last(r), bm); var n := Leaving(s.disk, C, i);
      && Sound(s, C, o, Without(s.disk, C, i), 1) && o.code == 0
      && RemoveResult(s, C, o, Without(s.disk, C, i), n - X, r, |n|)
  {
    assert r != [];
    hide *;
    TargetSlot(s.disk, C, r, i);
    LeavingParts(s.disk, C, i);
    ClearedSlack(s, C, i, bm, X);
    var p, k := C[i].parent, C[i].slot;
    var x, v := Cleared(Ent(s.disk, p, k)), Flush(bm);
    ClearedIs(Ent(s.disk, p, k));
    DetachShape(s, p, Last(r), bm, k);
    ClearAndFlush(s, C, i, x, v, bm);
    var n := Leaving(s.disk, C, i);
    IsRemoved(s, C, Outcome(0, [SlotWrite(s.disk, p, k, x), v], bm), Without(s.disk, C, i), n - X, r, |n|);
  }

  lemma ClearedIs(e: Dirent)
    ensures !Cleared(e).valid
  {}

  lemma IsRemoved(s: Fs, C: Cert, o: Outcome, D: Cert, L: set<nat>, r: Path, n: nat)
    requires Loses(s.bitmap, C, o.bitmap, D, L) && o.code == 0 && Drops(s.disk, After(s, o).disk, r)
    requires |D.Keys| == |C.Keys| - n
    ensures RemoveResult(s, C, o, D, L, r, n)
  {
    hide Loses, Drops;
  }

  /** Below a leaf there is nothing: dropping it is removing one object. */
  lemma DropsLeaf(d: Disk, C: Cert, e: Disk, i: nat, r: Path)
    requires Tree(d, C) && Walk(d, r) == Ok(i) && Ino(C, i) && Subtree(d, C, i) == {i} && Drops(d, e, r)
    ensures Removed(d, e, r)
  {
    SubtreeHas(d, C, i);
    WalkIsPath(d, C, r);
    hide Tree, Subtree, PathOf, ObjAt;
    forall q: Path | r <= q && Lookup(d, q).Some?
      ensures q == r
    {
      WalkIsPath(d, C, q);
    }
  }

  lemma EntryIsIno(C: Cert, i: nat)
    requires IsEntry(C, i)
    ensures Ino(C, i) && i in C && C[i].Entry?
  {}

  lemma DetachCode(s: Fs, p: nat, name: Str, bm: Block)
    ensures Detach(s, p, name, bm).code == 0
  {
    hide SlotWrite, Flush, Cleared, Find;
  }

  lemma DetachShape(s: Fs, p: nat, name: Str, bm: Block, k: nat)
    requires Find(s.disk, p, name, 0) == Hit(k)
    ensures Flush(bm).lba == 1 && Flush(bm).data.bytes == bm
    ensures Detach(s, p, name, bm) == Outcome(0, [SlotWrite(s.disk, p, k, Cleared(Ent(s.disk, p, k))), Flush(bm)], bm)
  {
    hide DecodeInode, DecodeDirents, SlotWrite, Cleared;
  }

  lemma RemoveError(s: Fs, C: Cert, code: int, r: Path, n: nat)
    requires Inv(s, C) && code < 0
    ensures Sound(s, C, Err(s, code), C, 1) && RemoveResult(s, C, Err(s, code), C, {}, r, n)
  {
    hide Bit, Tree, Agree;
    NoWrites(s.disk, C);
    AgreeItself(s.disk, C);
  }

  lemma FaithfulTarget(d: Disk, C: Cert, comps: seq<Str>)
    requires Tree(d, C) && Faithful(comps) && Translate(d, comps).Ok?
    ensures Walk(d, Resolve(comps)) == Translate(d, comps) && Ino(C, Translate(d, comps).inum)
  {
    hide Tree;
    TranslateVersusResolve(d, C, comps);
    WalkIsPath(d, C, Resolve(comps));
  }

  lemma {:induction false} TraceFailsNegative(d: Disk, c: seq<Str>)
    ensures Translate(d, c).Fail? ==> Translate(d, c).code < 0 && Translate(d, c).code != ENOSPC
  {
    hide Find, DirAt;
    if c != [] {
      TraceFailsNegative(d, Front(c));
    }
  }

  /** On a tree a path that resolves to nothing leads to the root if anywhere, so unlink refuses it. */
  lemma UnlinkIsDefined(d: Disk, C: Cert, comps: seq<Str>)
    requires Tree(d, C)
    ensures UnlinkDefined(d, comps)
    ensures Resolve(comps) == [] && Translate(d, comps).Ok? ==> Translate(d, comps).inum == ROOT && DirAt(d, ROOT)
  {
    LandDepths(comps);
    hide Nodes, Owns, Owned, Links, Linked, Names, DirAt, Resolve, Land, Translate;
    if Resolve(comps) == [] && Translate(d, comps).Ok? {
      TargetWalks(d, C, comps);
      assert Target(comps) == [];
    }
  }

  /** What is left when there is no last component. */
  lemma UnlinkRoot(s: Fs, comps: seq<Str>)
    requires UnlinkDefined(s.disk, comps) && Resolve(comps) == []
    ensures Unlink(s, comps) == Err(s, if Translate(s.disk, comps).Fail? then Translate(s.disk, comps).code else EISDIR)
  {
    hide Translate, Resolve, DirAt, Detach, Err;
  }

  lemma RmdirRoot(s: Fs, comps: seq<Str>)
    requires RmdirDefined(s.disk, comps) && Resolve(comps) == []
    ensures var t := Translate(s.disk, comps);
      Rmdir(s, comps) ==
        Err(s, if t.Fail? then t.code else if !DirAt(s.disk, t.inum) then ENOTDIR else ENOTEMPTY)
  {
    hide Translate, Resolve, DirAt, Detach, Err, FirstBlockEmpty;
  }

  lemma DefinedBelow(d: Disk, comps: seq<Str>)
    requires Resolve(comps) != []
    ensures UnlinkDefined(d, comps) && RmdirDefined(d, comps)
  {
    hide Translate, Resolve, DirAt, FirstBlockEmpty;
  }

  lemma UnlinkShape(s: Fs, comps: seq<Str>)
    requires Resolve(comps) != []
    ensures var t, r := Translate(s.disk, comps), Resolve(comps);
      Unlink(s, comps) ==
        if t.Fail? then Err(s, t.code)
        else if DirAt(s.disk, t.inum) then Err(s, EISDIR)
        else if Walk(s.disk, Front(r)).Fail? then Err(s, Walk(s.disk, Front(r)).code)
        else if !DirAt(s.disk, Walk(s.disk, Front(r)).inum) then Err(s, ENOTDIR)
        else Detach(s, Walk(s.disk, Front(r)).inum, Last(r),
            ClearBit(ClearAll(s.bitmap, Table(s.disk, t.inum)), t.inum))
  {
    hide Translate, Resolve, DirAt, Walk, Detach, Err, Table, ClearAll, ClearBit;
  }

  lemma FileAlone(d: Disk, C: Cert, i: nat, r: Path)
    requires Tree(d, C) && Ino(C, i) && (!DirAt(d, i) || AllEmpty(d, i)) && r != [] && Walk(d, r) == Ok(i)
    ensures Subtree(d, C, i) == {i}
  {
    TargetSlot(d, C, r, i);
    assert Leaf(d, C, i) by { hide Tree, Ent, Slots; }
    hide Tree, Leaf, Walk;
    LeafAlone(d, C, i);
  }

  /** If unlink gets as far as to write, its path must be faithful; it then removes exactly that file, frees its inode
      and every block of it, and loses none. A failure changes nothing. */
  lemma UnlinkKeeps(s: Fs, C: Cert, comps: seq<Str>) returns (D: Cert, n: nat)
    requires Inv(s, C) && UnlinkDefined(s.disk, comps) && (Unlink(s, comps).code == 0 ==> Faithful(comps))
    ensures Sound(s, C, Unlink(s, comps), D, 1)
    ensures RemoveResult(s, C, Unlink(s, comps), D, {}, Resolve(comps), n)
    ensures Unlink(s, comps).code == 0 ==>
      var t := Translate(s.disk, comps);
      && t.Ok? && n == 1 + Span(s.disk, t.inum) && D == Prune(C, t.inum)
      && Removed(s.disk, After(s, Unlink(s, comps)).disk, Resolve(comps))
  {
    RemoveSigns();
    hide *;
    InvParts(s, C);
    var d, t, r := s.disk, Translate(s.disk, comps), Resolve(comps);
    UnlinkFails(s, comps);
    if Unlink(s, comps).code != 0 {
      D, n := C, 0;
      RemoveError(s, C, Unlink(s, comps).code, r, 0);
    } else {
      UnlinkShape(s, comps);
      TraceFailsNegative(s.disk, comps);
      ErrsAre(s);
      var i := t.inum;
      FaithfulTarget(d, C, comps);
      FileAlone(d, C, i, r);
      LeavingParts(d, C, i);
      BlocksOfCert(d, C, i);
      UnlinkClears(s, C, i);
      D, n := Without(d, C, i), 1 + Span(d, i);
      DetachKeeps(s, C, i, r, ClearBit(ClearAll(s.bitmap, Table(d, i)), i), BlocksOf(d, i));
      assert BlocksOf(d, i) - BlocksOf(d, i) == {};
      DroppedIs(s, C, Unlink(s, comps), D, {}, r, n);
      DropsLeaf(d, C, After(s, Unlink(s, comps)).disk, i, r);
    }
  }

  lemma DroppedIs(s: Fs, C: Cert, o: Outcome, D: Cert, L: set<nat>, r: Path, n: nat)
    requires RemoveResult(s, C, o, D, L, r, n) && o.code == 0
    ensures Drops(s.disk, After(s, o).disk, r)
  {
    hide Drops, Loses;
  }

  lemma RemoveSigns()
    ensures EISDIR < 0 && ENOTDIR < 0 && ENOTEMPTY < 0
  {}

  /** An unlink that does not succeed changes nothing, and one that does has a last component. */
  lemma UnlinkFails(s: Fs, comps: seq<Str>)
    requires UnlinkDefined(s.disk, comps)
    ensures var code := Unlink(s, comps).code;
      && code <= 0 && (code == 0 ==> Resolve(comps) != []) && (code != 0 ==> Unlink(s, comps) == Err(s, code))
  {
    RemoveSigns();
    hide *;
    var t, r := Translate(s.disk, comps), Resolve(comps);
    TraceFailsNegative(s.disk, comps);
    ErrsAre(s);
    if r == [] {
      UnlinkRoot(s, comps);
    } else {
      UnlinkShape(s, comps);
      WalkFailsNegative(s.disk, Front(r));
      if t.Ok? && Walk(s.disk, Front(r)).Ok? {
        DetachCode(s, Walk(s.disk, Front(r)).inum, Last(r),
                   ClearBit(ClearAll(s.bitmap, Table(s.disk, t.inum)), t.inum));
      }
    }
  }

  lemma ErrsAre(s: Fs)
    ensures forall code :: Err(s, code).code == code && Err(s, code).writes == [] && Err(s, code).bitmap == s.bitmap
  {}

  // ---- rmdir ----

  /** No slot of directory i is in use, in any of its blocks. */
  ghost predicate AllEmpty(d: Disk, i: nat) { forall l :: 0 <= l < Slots(d, i) ==> !Ent(d, i, l).valid }

  /** All that rmdir checks is the first block; for a one-block directory that is everything. */
  lemma OneBlockEmpty(d: Disk, C: Cert, i: nat)
    requires Tree(d, C) && Ino(C, i) && DirAt(d, i)
    ensures AllEmpty(d, i) ==> FirstBlockEmpty(d, i)
    ensures FirstBlockEmpty(d, i) && Node(d, i).size == 4096 ==> AllEmpty(d, i)
  {
    if AllEmpty(d, i) {
      forall x | 0 <= x < 128
        ensures !At(d, Ptr(d, i, 0)).dirents[x].valid
      {
        assert !Ent(d, i, x).valid;
      }
    }
  }

  /** rmdir succeeds: a directory is found whose first block is empty, and so is its parent. */
  predicate RmdirGoes(d: Disk, comps: seq<Str>) {
    var t, r := Translate(d, comps), Resolve(comps);
    && t.Ok? && DirAt(d, t.inum) && FirstBlockEmpty(d, t.inum)
    && r != [] && Walk(d, Front(r)).Ok? && DirAt(d, Walk(d, Front(r)).inum)
  }

  lemma RmdirGoesIs(d: Disk, comps: seq<Str>)
    ensures var t, r := Translate(d, comps), Resolve(comps);
      RmdirGoes(d, comps) <==>
        && t.Ok? && DirAt(d, t.inum) && FirstBlockEmpty(d, t.inum)
        && r != [] && Walk(d, Front(r)).Ok? && DirAt(d, Walk(d, Front(r)).inum)
  {
    hide Translate, Resolve, DirAt, Walk, FirstBlockEmpty;
  }

  /** What rmdir loses: the blocks at and below the directory, but for its inode and its first block. */
  ghost function RmdirLoses(d: Disk, comps: seq<Str>): set<nat> {
    if RmdirGoes(d, comps) then Beneath(d, Resolve(comps)) - RmdirBlocks(d, Translate(d, comps).inum) else {}
  }

  lemma RmdirShape(s: Fs, comps: seq<Str>)
    requires Resolve(comps) != []
    ensures var t, r := Translate(s.disk, comps), Resolve(comps);
      Rmdir(s, comps) ==
        if t.Fail? then Err(s, t.code)
        else if !DirAt(s.disk, t.inum) then Err(s, ENOTDIR)
        else if !FirstBlockEmpty(s.disk, t.inum) then Err(s, ENOTEMPTY)
        else if Walk(s.disk, Front(r)).Fail? then Err(s, Walk(s.disk, Front(r)).code)
        else if !DirAt(s.disk, Walk(s.disk, Front(r)).inum) then Err(s, ENOTDIR)
        else Detach(s, Walk(s.disk, Front(r)).inum, Last(r),
            ClearBit(ClearBit(s.bitmap, Ptr(s.disk, t.inum, 0)), t.inum))
  {
    hide Translate, Resolve, DirAt, Walk, Detach, Err, Ptr, ClearBit, FirstBlockEmpty;
  }

  /** The blocks rmdir clears. */
  function RmdirBlocks(d: Disk, i: nat): set<nat> { {Ptr(d, i, 0), i} }

  lemma RmdirClears(s: Fs, C: Cert, i: nat)
    requires Inv(s, C) && Ino(C, i) && DirAt(s.disk, i)
    ensures Clears(s, ClearBit(ClearBit(s.bitmap, Ptr(s.disk, i, 0)), i), RmdirBlocks(s.disk, i))
    ensures RmdirBlocks(s.disk, i) <= BlocksOf(s.disk, i)
    ensures Node(s.disk, i).size == 4096 ==> RmdirBlocks(s.disk, i) == BlocksOf(s.disk, i)
  {
    var b := Ptr(s.disk, i, 0);
    FirstPtr(s, C, i);
    hide *;
    forall x: nat
      ensures Bit(ClearBit(ClearBit(s.bitmap, b), i), x) <==> Bit(s.bitmap, x) && x !in RmdirBlocks(s.disk, i)
    {
      SetThenTest(s.bitmap, b, x);
      SetThenTest(ClearBit(s.bitmap, b), i, x);
    }
    IsCleared(s, ClearBit(ClearBit(s.bitmap, b), i), RmdirBlocks(s.disk, i));
  }

  lemma IsCleared(s: Fs, bm: Block, X: set<nat>)
    requires forall b: nat :: Bit(bm, b) <==> Bit(s.bitmap, b) && b !in X
    ensures Clears(s, bm, X)
  {
    hide Bit;
  }

  lemma FirstPtr(s: Fs, C: Cert, i: nat)
    requires Inv(s, C) && Ino(C, i) && DirAt(s.disk, i)
    ensures var b := Ptr(s.disk, i, 0);
      && b < 32768 && i < 32768 && RmdirBlocks(s.disk, i) <= BlocksOf(s.disk, i) && RmdirBlocks(s.disk, i) == {b, i}
      && (Node(s.disk, i).size == 4096 ==> RmdirBlocks(s.disk, i) == BlocksOf(s.disk, i))
  {
    var b := Ptr(s.disk, i, 0);
    assert NodeOk(s.disk, i) && 0 < Span(s.disk, i);
    assert b in C && b < 32768 && i < 32768;
    assert Table(s.disk, i)[0] == b;
    assert Node(s.disk, i).size == 4096 ==> Table(s.disk, i) == [b];
    hide Inv;
  }

  lemma RmdirFails(s: Fs, comps: seq<Str>)
    requires RmdirDefined(s.disk, comps)
    ensures var code := Rmdir(s, comps).code;
      && code <= 0 && (code == 0 <==> RmdirGoes(s.disk, comps)) && (code == 0 ==> Resolve(comps) != [])
      && (code != 0 ==> Rmdir(s, comps) == Err(s, code))
  {
    RemoveSigns();
    hide *;
    var t, r := Translate(s.disk, comps), Resolve(comps);
    TraceFailsNegative(s.disk, comps);
    RmdirGoesIs(s.disk, comps);
    ErrsAre(s);
    if r == [] {
      RmdirRoot(s, comps);
    } else {
      RmdirShape(s, comps);
      WalkFailsNegative(s.disk, Front(r));
      if t.Ok? && Walk(s.disk, Front(r)).Ok? {
        DetachCode(s, Walk(s.disk, Front(r)).inum, Last(r),
                   ClearBit(ClearBit(s.bitmap, Ptr(s.disk, t.inum, 0)), t.inum));
      }
    }
  }

  /** If rmdir gets as far as to write, its path must be faithful; it then removes the directory and everything that
      lies below it unseen, frees the inode and the first block, and loses all other blocks of what it removes. It
      loses nothing if and only if the directory has one block, and removes exactly that directory when no block of it
      holds an entry. A failure changes nothing. */
  lemma RmdirKeeps(s: Fs, C: Cert, comps: seq<Str>) returns (D: Cert, L: set<nat>, n: nat)
    requires Inv(s, C) && RmdirDefined(s.disk, comps) && (Rmdir(s, comps).code == 0 ==> Faithful(comps))
    ensures Sound(s, C, Rmdir(s, comps), D, 1)
    ensures RemoveResult(s, C, Rmdir(s, comps), D, L, Resolve(comps), n)
    ensures L == RmdirLoses(s.disk, comps)
    ensures Rmdir(s, comps).code == 0 ==>
      var t := Translate(s.disk, comps);
      && t.Ok? && n == |Beneath(s.disk, Resolve(comps))|
      && (L == {} <==> Node(s.disk, t.inum).size == 4096) && (L == {} ==> AllEmpty(s.disk, t.inum))
      && (AllEmpty(s.disk, t.inum) ==>
            && Removed(s.disk, After(s, Rmdir(s, comps)).disk, Resolve(comps))
            && n == 1 + Span(s.disk, t.inum) && D == Prune(C, t.inum))
  {
    RemoveSigns();
    hide *;
    InvParts(s, C);
    var d, t, r := s.disk, Translate(s.disk, comps), Resolve(comps);
    RmdirFails(s, comps);
    RmdirLosesIs(d, comps);
    if Rmdir(s, comps).code != 0 {
      D, L, n := C, {}, 0;
      RemoveError(s, C, Rmdir(s, comps).code, r, 0);
    } else {
      RmdirShape(s, comps);
      TraceFailsNegative(s.disk, comps);
      ErrsAre(s);
      WalkFailsNegative(d, Front(r));
      var i := t.inum;
      var X := RmdirBlocks(d, i);
      FaithfulTarget(d, C, comps);
      RmdirClears(s, C, i);
      OneBlockEmpty(d, C, i);
      D, L, n := Without(d, C, i), Leaving(d, C, i) - X, |Leaving(d, C, i)|;
      DetachKeeps(s, C, i, r, ClearBit(ClearBit(s.bitmap, Ptr(d, i, 0)), i), X);
      BeneathIs(d, C, i, r);
      RmdirLosesNone(s, C, i, r);
      if AllEmpty(d, i) {
        FileAlone(d, C, i, r);
        LeavingParts(d, C, i);
        BlocksOfCert(d, C, i);
        DroppedIs(s, C, Rmdir(s, comps), D, L, r, n);
        DropsLeaf(d, C, After(s, Rmdir(s, comps)).disk, i, r);
        assert X == BlocksOf(d, i) ==> L == {};
      }
    }
  }

  lemma RmdirLosesIs(d: Disk, comps: seq<Str>)
    ensures RmdirLoses(d, comps) ==
      if RmdirGoes(d, comps) then Beneath(d, Resolve(comps)) - RmdirBlocks(d, Translate(d, comps).inum) else {}
    ensures RmdirGoes(d, comps) ==> Translate(d, comps).Ok?
  {
    hide Beneath, RmdirBlocks, Translate, Resolve, Walk, DirAt, FirstBlockEmpty;
  }

  /** Clearing the inode and the first block clears everything if and only if the directory has one block. */
  lemma RmdirLosesNone(s: Fs, C: Cert, i: nat, r: Path)
    requires Inv(s, C) && Tree(s.disk, C) && Ino(C, i) && DirAt(s.disk, i) && FirstBlockEmpty(s.disk, i)
    requires r != [] && Walk(s.disk, r) == Ok(i)
    ensures Leaving(s.disk, C, i) - RmdirBlocks(s.disk, i) == {} <==> Node(s.disk, i).size == 4096
  {
    hide *;
    OneBlockEmpty(s.disk, C, i);
    LeavingParts(s.disk, C, i);
    FirstPtr(s, C, i);
    if Node(s.disk, i).size == 4096 {
      FileAlone(s.disk, C, i, r);
    } else {
      SecondPtr(s.disk, C, i);
    }
  }

  lemma SecondPtr(d: Disk, C: Cert, i: nat)
    requires Tree(d, C) && Ino(C, i) && DirAt(d, i) && Node(d, i).size != 4096
    ensures Ptr(d, i, 1) in BlocksOf(d, i) - RmdirBlocks(d, i)
  {
    BlocksOfCert(d, C, i);
    assert NodeOk(d, i) && 1 < Span(d, i);
    assert C[Ptr(d, i, 0)] == Data(i, 0) && C[Ptr(d, i, 1)] == Data(i, 1);
    hide Links, Linked, Names, Owned, Bounds, BlocksOf;
    assert IsData(C, Ptr(d, i, 1));
  }
}
