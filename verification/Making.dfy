/** create and mkdir: the tree they make, the blocks they use, and the namespace afterwards. */
module Making {
  import opened Format
  import opened Bits
  import opened Image
  import opened Change
  import opened Paths
  import opened Ops
  import opened Keep

  /** Names the store keeps whole. */
  predicate Storable(name: Str) { GoodName(name) && |name| <= 26 }

  /** A name as pathparse and resolve_path hand it out. */
  predicate NewName(n: Str) { Token(n) && Plain(n) && 0 !in n }

  /** Where an object made at r is found: the name is stored cut to 26 bytes. */
  function Stored(r: Path): Path { if r == [] then [] else Front(r) + [Kept(Last(r))] }

  /** The name of r is short enough to be stored whole, or what it is cut to is not taken. */
  predicate Stores(d: Disk, r: Path) { |NameIn(r)| <= 26 || Lookup(d, Stored(r)) == None }

  lemma KeptIsStorable(n: Str)
    requires NewName(n)
    ensures Storable(Kept(n)) && (|n| <= 26 ==> Kept(n) == n)
  {
    assert |n| > 26 ==> forall x :: x in n[..26] ==> x in n;
  }

  lemma StoredParts(r: Path)
    requires r != []
    ensures Stored(r) != [] && Front(Stored(r)) == Front(r) && NameIn(Stored(r)) == Kept(NameIn(r))
    ensures |NameIn(r)| <= 26 ==> Stored(r) == r
  {
    FrontLast(r);
  }

  /** What is stored under a name is stored under what it is cut to. */
  lemma CutEntry(was: Dirent, c: nat, name: Str)
    ensures NewEntry(was, c, name) == NewEntry(was, c, Kept(name)) && Renamed(was, name) == Renamed(was, Kept(name))
  {
    assert StoreName(was.name, name) == StoreName(was.name, Kept(name));
  }

  /** Inode c and its blocks are written outside the tree of s, marked in bm, and bm is on the disk d. */
  ghost predicate Prepared(s: Fs, C: Cert, c: nat, bm: Block, d: Disk) {
    && c !in C && 2 <= c < |d| && NodeOk(d, c)
    && (DirAt(d, c) ==> forall l :: 0 <= l < Slots(d, c) ==> !Ent(d, c, l).valid)
    && MayHold(d, C, c, Table(d, c)) && c !in Table(d, c) && (forall b :: b in Table(d, c) ==> b !in C)
    && At(d, 1).bytes == bm && Bit(bm, c) && (forall b :: b in Table(d, c) ==> Bit(bm, b))
  }

  /** r can be made in directory p: the parent walk leads to p, and p has no entry of that name. */
  ghost predicate Absent(s: Fs, C: Cert, p: nat, r: Path) {
    && Inv(s, C) && r != [] && Walk(s.disk, Front(r)) == Ok(p)
    && DirAt(s.disk, p) && Find(s.disk, p, Last(r), 0).Miss? && Storable(Last(r))
  }

  /** The writes ws prepare inode c and leave the tree of s alone. */
  ghost predicate Laid(s: Fs, C: Cert, c: nat, bm: Block, ws: seq<Write>) {
    && Stages(s.disk, ws, C, C, |ws| + 1) && Prepared(s, C, c, bm, Apply(s.disk, ws))
    && forall b: nat :: Bit(bm, b) <==> Bit(s.bitmap, b) || b in Taking(c, Apply(s.disk, ws))
  }

  /** The blocks of a prepared inode. */
  function Taking(c: nat, d: Disk): set<nat> { {c} + Members(Table(d, c)) }

  /** The certificate after linking c at the end of a slot search. */
  ghost function LinkedCert(C: Cert, p: nat, k: nat, c: nat, bs: seq<nat>): Cert
    requires p in C
  { Retable(C[c := Entry(p, k, Depth(C, p) + 1)], c, bs) }

  lemma LinkedBlocks(C: Cert, p: nat, k: nat, c: nat, bs: seq<nat>)
    requires p in C && c !in C && c !in bs && forall b :: b in bs ==> b !in C
    requires forall b :: IsData(C, b) ==> Ino(C, C[b].owner)
    ensures LinkedCert(C, p, k, c, bs).Keys == C.Keys + {c} + Members(bs)
    ensures forall i :: Ino(C, i) ==> i in LinkedCert(C, p, k, c, bs) && LinkedCert(C, p, k, c, bs)[i] == C[i]
    ensures SameBut(C, LinkedCert(C, p, k, c, bs), c)
  {
    forall b | b in C
      ensures b in LinkedCert(C, p, k, c, bs) && !Mine(C, b, c)
    {
      assert IsData(C, b) ==> Ino(C, C[b].owner);
    }
  }

  /** The new inode is c, of that size, found at r, and nothing else in the tree changed its role. */
  ghost predicate Placed(C: Cert, D: Cert, e: Disk, r: Path, c: nat, size: int) {
    c !in C && SameBut(C, D, c) && Walk(e, r) == Ok(c) && Node(e, c).size == size
  }

  lemma LinkCases(s: Fs, p: nat, name: Str, c: nat, bm: Block, ws: seq<Write>, full: int)
    ensures var d := Apply(s.disk, ws); var o := Link(s, p, name, c, bm, ws, full);
      match FreeSlot(d, p, 0)
      case Miss => o == Outcome(full, ws, bm)
      case Hit(k) => o == LinkAt(d, p, k, name, c, bm, ws)
  {}

  /** The linking write produces a tree. */
  lemma LinkInto(d0: Disk, C: Cert, d: Disk, p: nat, name: Str, k: nat, c: nat)
    requires Tree(d0, C) && Tree(d, C) && Agree(d0, d, C) && |d| <= 32768
    requires Ino(C, p) && DirAt(d0, p) && Find(d0, p, name, 0).Miss? && Storable(name)
    requires k < Slots(d, p) && !Ent(d, p, k).valid
    requires c !in C && 2 <= c < |d| && NodeOk(d, c)
    requires (DirAt(d, c) ==> forall l :: 0 <= l < Slots(d, c) ==> !Ent(d, c, l).valid)
    requires MayHold(d, C, c, Table(d, c)) && c !in Table(d, c) && (forall b :: b in Table(d, c) ==> b !in C)
    ensures Tree(PatchSlot(d, p, k, NewEntry(Ent(d, p, k), c, name)), LinkedCert(C, p, k, c, Table(d, c)))
  {
    hide *;
    NewEntryIs(Ent(d, p, k), c, name);
    NameIsNew(d0, C, d, p, name);
    InoKey(C, p);
    LinkTree(d, C, p, k, c, NewEntry(Ent(d, p, k), c, name));
    LinkedCertIs(C, p, k, c, Table(d, c));
  }

  lemma NewEntryIs(was: Dirent, c: nat, name: Str)
    requires Storable(name) && c < 0x8000_0000
    ensures var e := NewEntry(was, c, name); e.valid && e.inode == c && GoodName(CStr(e.name)) && CStr(e.name) == name
  {
    StoredNameReadsBack(was.name, name);
    hide CStr, StoreName;
  }

  lemma NameIsNew(d0: Disk, C: Cert, d: Disk, p: nat, name: Str)
    requires Tree(d0, C) && Agree(d0, d, C) && Ino(C, p) && DirAt(d0, p) && Find(d0, p, name, 0).Miss?
    ensures DirAt(d, p) && forall l :: Live(d, C, p, l) ==> NameAt(d, p, l) != name
  {
    AgreeSame(d0, d, C);
    assert SameIno(d0, d, p) && 0 !in C;
    hide CStr, Ent, Slots, DirAt, NodeOk, Tree;
    forall l | Live(d, C, p, l)
      ensures NameAt(d, p, l) != name
    {
      assert Ent(d, p, l) == Ent(d0, p, l);
    }
  }

  lemma LinkedCertIs(C: Cert, p: nat, k: nat, c: nat, bs: seq<nat>)
    requires p in C
    ensures LinkedCert(C, p, k, c, bs) == Retable(C[c := Entry(p, k, Depth(C, p) + 1)], c, bs)
  {
    hide Retable;
  }

  /** ... whose blocks are all marked, because the bitmap went to the disk first. */
  lemma LinkSafe(d: Disk, C: Cert, p: nat, k: nat, c: nat, e: Dirent, bm: Block)
    requires Safe(d, C) && Ino(C, p) && DirAt(d, p) && k < Slots(d, p)
    requires c !in C && At(d, 1).bytes == bm && Bit(bm, c) && (forall b :: b in Table(d, c) ==> Bit(bm, b) && b !in C)
    requires c !in Table(d, c)
    requires Tree(PatchSlot(d, p, k, e), LinkedCert(C, p, k, c, Table(d, c)))
    ensures Safe(PatchSlot(d, p, k, e), LinkedCert(C, p, k, c, Table(d, c)))
    ensures At(PatchSlot(d, p, k, e), 1).bytes == bm
  {
    assert Tree(d, C) && Owned(d, C) && |d| <= 32768;
    hide *;
    OneOutside(d, C);
    PatchKeepsOne(d, C, p, k, e);
    InoKey(C, p);
    LinkedOwners(d, C);
    LinkedBlocks(C, p, k, c, Table(d, c));
    SafeByMap(d, C, PatchSlot(d, p, k, e), LinkedCert(C, p, k, c, Table(d, c)), c, Table(d, c), bm);
  }

  lemma InoKey(C: Cert, p: nat)
    requires Ino(C, p)
    ensures p in C
  {}

  lemma LinkedOwners(d: Disk, C: Cert)
    requires Owned(d, C)
    ensures forall b :: IsData(C, b) ==> Ino(C, C[b].owner)
  {
    hide Span, Ptr;
  }

  lemma PatchKeepsOne(d: Disk, C: Cert, p: nat, k: nat, e: Dirent)
    requires Tree(d, C) && Ino(C, p) && DirAt(d, p) && k < Slots(d, p) && 1 !in C
    ensures SameTop(d, PatchSlot(d, p, k, e)) && |PatchSlot(d, p, k, e)| == |d|
  {
    PatchEffect(d, C, p, k, e);
    hide PatchSlot, Tree, SameIno;
  }

  lemma SafeByMap(d: Disk, C: Cert, f: Disk, D: Cert, c: nat, bs: seq<nat>, bm: Block)
    requires Safe(d, C) && Tree(f, D) && |f| == |d| && SameTop(d, f) && At(d, 1).bytes == bm
    requires D.Keys == C.Keys + {c} + Members(bs) && Bit(bm, c) && forall b :: b in bs ==> Bit(bm, b)
    ensures Safe(f, D)
  {
    hide Tree, Bit;
    forall b | b in D
      ensures OnDisk(f, b)
    {
      assert b in D.Keys;
      assert b in C ==> OnDisk(d, b);
    }
  }

  // ---- the namespace after a link ----

  /** The namespace gains the object o at the path r, where there was none, and nothing else changes. */
  ghost predicate Gains(d: Disk, e: Disk, r: Path, o: Obj) {
    Lookup(d, r) == None && forall q: Path :: Lookup(e, q) == if q == r then Some(o) else Lookup(d, q)
  }

  lemma LinkGains(d: Disk, C: Cert, e: Disk, D: Cert, c: nat, r: Path)
    requires Tree(d, C) && Tree(e, D) && SharePaths(d, C, e, D) && r != []
    requires c !in C && IsEntry(D, c) && Ino(C, D[c].parent) && PathOf(d, C, D[c].parent) == Front(r)
    requires NameAt(e, D[c].parent, D[c].slot) == Last(r)
    requires forall i :: Ino(D, i) ==> Ino(C, i) || i == c
    requires forall i :: Ino(C, i) ==> ObjAt(e, i) == ObjAt(d, i)
    ensures Gains(d, e, r, ObjAt(e, c)) && Walk(e, r) == Ok(c)
  {
    hide Tree, ObjAt, NameAt;
    SamePath(d, C, e, D, D[c].parent);
    FrontLast(r);
    assert PathOf(e, D, c) == r;
    hide PathOf;
    WalkReaches(e, D, c);
    forall q: Path | q != r
      ensures Lookup(e, q) == Lookup(d, q)
    {
      if Walk(d, q).Ok? {
        WalkIsPath(d, C, q);
        SameWalk(d, C, e, D, q);
      } else if Walk(e, q).Ok? {
        WalkIsPath(e, D, q);
        var i := Walk(e, q).inum;
        SamePath(d, C, e, D, i);
        WalkReaches(d, C, i);
      }
    }
    if Walk(d, r).Ok? {
      WalkIsPath(d, C, r);
      SameWalk(d, C, e, D, r);
    }
  }

  /** Filling a free slot leaves every other object and every name as it was. */
  lemma LinkLeaves(d0: Disk, C: Cert, d: Disk, p: nat, k: nat, x: Dirent, i: nat)
    requires Tree(d0, C) && Tree(d, C) && Agree(d0, d, C) && Ino(C, i)
    requires Ino(C, p) && DirAt(d, p) && k < Slots(d, p) && !Ent(d, p, k).valid
    ensures var e := PatchSlot(d, p, k, x);
      && ObjAt(e, i) == ObjAt(d0, i)
      && (IsEntry(C, i) ==> NameAt(e, C[i].parent, C[i].slot) == NameAt(d0, C[i].parent, C[i].slot))
  {
    PatchEffect(d, C, p, k, x);
    hide CStr, PatchSlot, Ent;
    PatchObj(d, C, p, k, x, i);
    AgreeObj(d0, d, C, i);
    if IsEntry(C, i) {
      assert LinkedAt(d, C, i) && LinkedAt(d0, C, i);
      AgreeEnt(d0, d, C, C[i].parent, C[i].slot);
    }
  }

  /** What linking c into slot (p, k) of the prepared disk d does to the namespace of the disk d0 before. */
  lemma LinkNamespace(d0: Disk, C: Cert, d: Disk, p: nat, k: nat, c: nat, name: Str, r: Path)
    requires Tree(d0, C) && Tree(d, C) && Agree(d0, d, C) && r != [] && name == Last(r) && Storable(name)
    requires Ino(C, p) && DirAt(d, p) && k < Slots(d, p) && !Ent(d, p, k).valid && PathOf(d0, C, p) == Front(r)
    requires c !in C && c !in Table(d, c) && forall b :: b in Table(d, c) ==> b !in C
    requires var e := NewEntry(Ent(d, p, k), c, name);
      Tree(PatchSlot(d, p, k, e), LinkedCert(C, p, k, c, Table(d, c)))
    ensures var e := PatchSlot(d, p, k, NewEntry(Ent(d, p, k), c, name));
        Gains(d0, e, r, ObjAt(e, c)) && Walk(e, r) == Ok(c)
  {
    hide *;
    var x := NewEntry(Ent(d, p, k), c, name);
    InoKey(C, p);
    var e, D := PatchSlot(d, p, k, x), LinkedCert(C, p, k, c, Table(d, c));
    NewEntryName(Ent(d, p, k), c, name);
    PatchedName(d, C, p, k, x);
    TreeOwns(d, C);
    LinkedOwners(d, C);
    LinkedBlocks(C, p, k, c, Table(d, c));
    LinkedRoles(C, p, k, c, Table(d, c));
    LinkedPaths(d0, C, d, p, k, x, D);
    LinkGains(d0, C, e, D, c, r);
  }

  lemma TreeOwns(d: Disk, C: Cert)
    requires Tree(d, C)
    ensures Owned(d, C)
  {}

  lemma NewEntryName(was: Dirent, c: nat, name: Str)
    requires Storable(name)
    ensures CStr(NewEntry(was, c, name).name) == name
  {
    StoredNameReadsBack(was.name, name);
    hide CStr, StoreName;
  }

  lemma PatchedName(d: Disk, C: Cert, p: nat, k: nat, x: Dirent)
    requires Tree(d, C) && Ino(C, p) && DirAt(d, p) && k < Slots(d, p)
    ensures NameAt(PatchSlot(d, p, k, x), p, k) == CStr(x.name)
  {
    PatchEffect(d, C, p, k, x);
    hide PatchSlot, CStr, Ent, Tree;
  }

  /** In the new certificate c is the entry of slot k of p, and there is no other new inode. */
  lemma LinkedRoles(C: Cert, p: nat, k: nat, c: nat, bs: seq<nat>)
    requires p in C && c !in bs && Ino(C, p)
    ensures var D := LinkedCert(C, p, k, c, bs);
      && IsEntry(D, c) && D[c].parent == p && D[c].slot == k && Ino(C, D[c].parent)
      && forall i :: Ino(D, i) ==> Ino(C, i) || i == c
  {}

  lemma LinkedPaths(d0: Disk, C: Cert, d: Disk, p: nat, k: nat, x: Dirent, D: Cert)
    requires Tree(d0, C) && Tree(d, C) && Agree(d0, d, C)
    requires Ino(C, p) && DirAt(d, p) && k < Slots(d, p) && !Ent(d, p, k).valid
    requires forall i :: Ino(C, i) ==> i in D && D[i] == C[i]
    ensures var e := PatchSlot(d, p, k, x);
      SharePaths(d0, C, e, D) && forall i :: Ino(C, i) ==> ObjAt(e, i) == ObjAt(d0, i)
  {
    var e := PatchSlot(d, p, k, x);
    hide CStr, PatchSlot, Ent, ObjAt, Tree, Agree;
    forall i | Ino(C, i)
      ensures ObjAt(e, i) == ObjAt(d0, i)
      ensures IsEntry(C, i) ==> NameAt(e, C[i].parent, C[i].slot) == NameAt(d0, C[i].parent, C[i].slot)
    {
      LinkLeaves(d0, C, d, p, k, x, i);
    }
    hide NameAt;
  }

  /** A prepared inode is not touched by the write that links it. */
  lemma PreparedObj(d: Disk, C: Cert, p: nat, k: nat, x: Dirent, c: nat)
    requires Tree(d, C) && Ino(C, p) && DirAt(d, p) && k < Slots(d, p)
    requires c !in C && NodeOk(d, c) && forall b :: b in Table(d, c) ==> b !in C
    ensures ObjAt(PatchSlot(d, p, k, x), c) == ObjAt(d, c) && Node(PatchSlot(d, p, k, x), c) == Node(d, c)
  {
    var r := PatchSlot(d, p, k, x);
    PatchOutside(d, C, p, k, x);
    hide *;
    SameNode(d, r, c);
    TableBlocks(d, c);
    SameBytes(d, r, c);
  }

  lemma PatchOutside(d: Disk, C: Cert, p: nat, k: nat, x: Dirent)
    requires Tree(d, C) && Ino(C, p) && DirAt(d, p) && k < Slots(d, p)
    ensures forall b: nat :: b !in C ==> At(PatchSlot(d, p, k, x), b) == At(d, b)
  {
    PatchEffect(d, C, p, k, x);
    hide PatchSlot, Tree, SameIno, At;
  }

  lemma SameNode(d: Disk, e: Disk, c: nat)
    requires At(e, c) == At(d, c)
    ensures Node(e, c) == Node(d, c) && (forall k: nat :: Ptr(e, c, k) == Ptr(d, c, k))
  {
    hide At;
  }

  lemma TableBlocks(d: Disk, c: nat)
    requires NodeOk(d, c)
    ensures forall y: nat :: y < Node(d, c).size ==> Ptr(d, c, y / 4096) in Table(d, c)
  {
    hide Node;
    forall y: nat | y < Node(d, c).size
      ensures Ptr(d, c, y / 4096) in Table(d, c)
    {
      assert Table(d, c)[y / 4096] == Ptr(d, c, y / 4096);
    }
  }

  lemma SameBytes(d: Disk, e: Disk, c: nat)
    requires Node(e, c) == Node(d, c) && forall k: nat :: Ptr(e, c, k) == Ptr(d, c, k)
    requires forall y: nat :: y < Node(d, c).size ==> At(e, Ptr(d, c, y / 4096)) == At(d, Ptr(d, c, y / 4096))
    ensures ObjAt(e, c) == ObjAt(d, c)
  {
    hide Ptr, Node, At;
    assert Content(e, c) == Content(d, c);
  }

  /** The blocks of L get marked; if the tree grows by them nothing is lost, and if it stays as it is they are. */
  lemma Uses(bm: Block, C: Cert, bm': Block, D: Cert, L: set<nat>, linked: bool)
    requires forall b: nat :: Bit(bm', b) <==> Bit(bm, b) || b in L
    requires forall b :: b in L ==> !Bit(bm, b) && b !in C
    requires D.Keys == if linked then C.Keys + L else C.Keys
    ensures Loses(bm, C, bm', D, if linked then {} else L)
    ensures |D.Keys| == |C.Keys| + if linked then |L| else 0
  {
    hide Bit;
    UsesCount(C, D, L, linked);
    hide Loses;
    UsesSlack(bm, C, bm', D, L, linked);
  }

  lemma UsesCount(C: Cert, D: Cert, L: set<nat>, linked: bool)
    requires D.Keys == (if linked then C.Keys + L else C.Keys) && forall b :: b in L ==> b !in C
    ensures |D.Keys| == |C.Keys| + if linked then |L| else 0
  {
    assert C.Keys !! L;
  }

  lemma UsesSlack(bm: Block, C: Cert, bm': Block, D: Cert, L: set<nat>, linked: bool)
    requires forall b: nat :: Bit(bm', b) <==> Bit(bm, b) || b in L
    requires forall b :: b in L ==> !Bit(bm, b) && b !in C
    requires D.Keys == if linked then C.Keys + L else C.Keys
    ensures Loses(bm, C, bm', D, if linked then {} else L)
  {
    hide Bit;
    forall b: nat
      ensures Slack(bm', D, b) <==> Slack(bm, C, b) || (!linked && b in L)
    {
      assert b in D.Keys <==> b in D;
      assert b in C.Keys <==> b in C;
    }
  }

  /** The final slot write of create and mkdir links the prepared inode, or finds the parent full, changes nothing
      and loses the blocks it prepared. */
  lemma LinkKeeps(s: Fs, C: Cert, p: nat, r: Path, c: nat, bm: Block, ws: seq<Write>, full: int)
    returns (D: Cert, t: nat)
    requires Absent(s, C, p, r) && Laid(s, C, c, bm, ws)
    requires forall b :: b in Taking(c, Apply(s.disk, ws)) ==> !Bit(s.bitmap, b)
    ensures var d := Apply(s.disk, ws);
      var o, hit := Link(s, p, NameIn(r), c, bm, ws, full), FreeSlot(d, p, 0).Hit?;
      && Sound(s, C, o, D, t) && o.bitmap == bm
      && (if hit then o.code == 0 && Gains(s.disk, After(s, o).disk, r, ObjAt(d, c))
          else o.code == full && Untouched(s, C, o, D))
      && (hit ==> Placed(C, D, After(s, o).disk, r, c, Node(d, c).size))
      && Loses(s.bitmap, C, bm, D, if hit then {} else Taking(c, d))
      && |D.Keys| == |C.Keys| + if hit then |Taking(c, d)| else 0
  {
    hide *;
    var d := Apply(s.disk, ws);
    LinkCases(s, p, NameIn(r), c, bm, ws, full);
    TakingFresh(s, C, c, bm, ws);
    match FreeSlot(d, p, 0)
    case Miss =>
      D, t := C, |ws| + 1;
      FullParent(s, C, c, bm, ws, full);
      Uses(s.bitmap, C, bm, D, Taking(c, d), false);
    case Hit(k) =>
      D, t := LinkHits(s, C, p, r, c, bm, ws, k);
      LinkAtIs(d, p, k, NameIn(r), c, bm, ws);
      Uses(s.bitmap, C, bm, D, Taking(c, d), true);
  }

  lemma TakingFresh(s: Fs, C: Cert, c: nat, bm: Block, ws: seq<Write>)
    requires Laid(s, C, c, bm, ws)
    ensures forall b :: b in Taking(c, Apply(s.disk, ws)) ==> b !in C
    ensures forall b: nat :: Bit(bm, b) <==> Bit(s.bitmap, b) || b in Taking(c, Apply(s.disk, ws))
  {
    hide Bit, Stages, Apply, Table, NodeOk, MayHold, Slots, Ent;
  }

  /** With no free slot in the parent the prepared inode stays outside the tree. */
  lemma FullParent(s: Fs, C: Cert, c: nat, bm: Block, ws: seq<Write>, full: int)
    requires Laid(s, C, c, bm, ws)
    ensures Sound(s, C, Outcome(full, ws, bm), C, |ws| + 1) && Untouched(s, C, Outcome(full, ws, bm), C)
  {
    assert At(Apply(s.disk, ws), 1).bytes == bm;
    hide *;
    var o := Outcome(full, ws, bm);
    LaidParts(s, C, c, bm, ws);
    AfterIs(s, o);
    SafeInv(After(s, o), C);
    FullIs(s, C, o);
  }

  lemma FullIs(s: Fs, C: Cert, o: Outcome)
    requires Stages(s.disk, o.writes, C, C, |o.writes| + 1) && Inv(After(s, o), C) && Clean(After(s, o))
    requires Agree(s.disk, After(s, o).disk, C)
    ensures Sound(s, C, o, C, |o.writes| + 1) && Untouched(s, C, o, C)
  {
    hide Stages, Inv, Agree;
  }

  lemma AbsentParts(s: Fs, C: Cert, p: nat, r: Path)
    requires Absent(s, C, p, r)
    ensures Inv(s, C) && Safe(s.disk, C) && Tree(s.disk, C) && |s.disk| <= 32768
    ensures Ino(C, p) && PathOf(s.disk, C, p) == Front(r)
  {
    WalkIsPath(s.disk, C, Front(r));
  }

  lemma LaidParts(s: Fs, C: Cert, c: nat, bm: Block, ws: seq<Write>)
    requires Laid(s, C, c, bm, ws)
    ensures var d := Apply(s.disk, ws);
      Safe(d, C) && Tree(d, C) && Agree(s.disk, d, C) && Stages(s.disk, ws, C, C, |ws| + 1) &&
          Prepared(s, C, c, bm, d) && |d| == |s.disk|
  {
    hide Tree, Prepared, Agree;
    assert ws[..|ws|] == ws;
  }

  lemma DirSame(d: Disk, e: Disk, C: Cert, p: nat)
    requires Tree(d, C) && Agree(d, e, C) && Ino(C, p)
    ensures DirAt(e, p) <==> DirAt(d, p)
  {
    AgreeSame(d, e, C);
    assert SameIno(d, e, p);
  }

  /** With the inode laid out and slot k of the parent free, the last write completes the tree. */
  lemma LinkTo(s: Fs, C: Cert, p: nat, r: Path, c: nat, bm: Block, ws: seq<Write>, k: nat)
    requires Absent(s, C, p, r) && Laid(s, C, c, bm, ws) && FreeSlot(Apply(s.disk, ws), p, 0) == Hit(k)
    ensures var d := Apply(s.disk, ws);
      && p in C && Ino(C, p) && DirAt(d, p) && k < Slots(d, p) && !Ent(d, p, k).valid
      && Safe(PatchSlot(d, p, k, NewEntry(Ent(d, p, k), c, NameIn(r))), LinkedCert(C, p, k, c, Table(d, c)))
      && At(PatchSlot(d, p, k, NewEntry(Ent(d, p, k), c, NameIn(r))), 1).bytes == bm
  {
    AbsentParts(s, C, p, r);
    LaidParts(s, C, c, bm, ws);
    var d := Apply(s.disk, ws);
    hide Inv, Safe, Tree, Stages, Agree, Bit, Table, MayHold, Find, FreeSlot, Walk, GoodName, PathOf, PatchSlot,
        NewEntry, LinkedCert, NodeOk, DirAt, Slots, Ent;
    DirSame(s.disk, d, C, p);
    LinkInto(s.disk, C, d, p, NameIn(r), k, c);
    LinkSafe(d, C, p, k, c, NewEntry(Ent(d, p, k), c, NameIn(r)), bm);
  }

  lemma LinkHits(s: Fs, C: Cert, p: nat, r: Path, c: nat, bm: Block, ws: seq<Write>, k: nat)
    returns (D: Cert, t: nat)
    requires Absent(s, C, p, r) && Laid(s, C, c, bm, ws) && FreeSlot(Apply(s.disk, ws), p, 0) == Hit(k)
    ensures var d := Apply(s.disk, ws);
      var o := LinkAt(d, p, k, NameIn(r), c, bm, ws);
      && Sound(s, C, o, D, t) && Gains(s.disk, After(s, o).disk, r, ObjAt(d, c)) && D.Keys == C.Keys + Taking(c, d)
      && Placed(C, D, After(s, o).disk, r, c, Node(d, c).size)
  {
    hide *;
    var d := Apply(s.disk, ws);
    var e := NewEntry(Ent(d, p, k), c, NameIn(r));
    var w := SlotWrite(d, p, k, e);
    var o := LinkAt(d, p, k, NameIn(r), c, bm, ws);
    LinkAtIs(d, p, k, NameIn(r), c, bm, ws);
    AbsentParts(s, C, p, r);
    LaidParts(s, C, c, bm, ws);
    LinkTo(s, C, p, r, c, bm, ws, k);
    D, t := LinkedCert(C, p, k, c, Table(d, c)), |ws| + 1;
    ApplyOn(s.disk, ws, w);
    SlotPut(d, p, k, e);
    AfterIs(s, o);
    FreshParts(s, C, c, bm, ws);
    SafeTree(PatchSlot(d, p, k, e), D);
    StagesMove(s.disk, ws, C, w, D);
    AbsentName(s, C, p, r);
    LinkNamespace(s.disk, C, d, p, k, c, NameIn(r), r);
    PreparedObj(d, C, p, k, e, c);
    LinkedBlocks(C, p, k, c, Table(d, c));
    SafeInv(After(s, o), D);
    HitIs(s, C, o, D, t, r, c, d);
  }

  lemma SafeTree(d: Disk, C: Cert)
    requires Safe(d, C)
    ensures Tree(d, C)
  {}

  lemma AbsentName(s: Fs, C: Cert, p: nat, r: Path)
    requires Absent(s, C, p, r)
    ensures r != [] && NameIn(r) == Last(r) && Storable(Last(r))
  {}

  lemma LinkAtIs(d: Disk, p: nat, k: nat, name: Str, c: nat, bm: Block, ws: seq<Write>)
    ensures LinkAt(d, p, k, name, c, bm, ws) ==
      Outcome(0, ws + [SlotWrite(d, p, k, NewEntry(Ent(d, p, k), c, name))], bm)
  {
    hide SlotWrite, NewEntry, Ent;
  }

  lemma FreshParts(s: Fs, C: Cert, c: nat, bm: Block, ws: seq<Write>)
    requires Laid(s, C, c, bm, ws)
    ensures var d := Apply(s.disk, ws);
      && c !in C && c !in Table(d, c) && (forall b :: b in Table(d, c) ==> b !in C) && NodeOk(d, c)
      && C.Keys + {c} + Members(Table(d, c)) == C.Keys + Taking(c, d)
    ensures forall b :: IsData(C, b) ==> Ino(C, C[b].owner)
  {
    LaidParts(s, C, c, bm, ws);
    hide Bit, Stages, Apply, Table, NodeOk, MayHold, Slots, Ent, Links, Linked, Names;
  }

  lemma HitIs(s: Fs, C: Cert, o: Outcome, D: Cert, t: nat, r: Path, c: nat, d: Disk)
    requires Stages(s.disk, o.writes, C, D, t) && Inv(After(s, o), D) && Clean(After(s, o))
    requires c !in C && SameBut(C, D, c) && Walk(After(s, o).disk, r) == Ok(c)
    requires Node(After(s, o).disk, c) == Node(d, c)
    ensures Sound(s, C, o, D, t) && Placed(C, D, After(s, o).disk, r, c, Node(d, c).size)
  {
    hide Stages, Inv, SameBut, Walk, Node;
  }

  /** Right after a flush the bitmap in memory is the one on the disk. */
  lemma SafeInv(s: Fs, C: Cert)
    requires Safe(s.disk, C) && At(s.disk, 1).bytes == s.bitmap
    ensures Inv(s, C) && Clean(s)
  {}

  /** What making an object o of n blocks at r means: success adds just that object, uses n blocks and loses none; a
      failure changes no object. */
  ghost predicate MakeResult(s: Fs, C: Cert, o: Outcome, D: Cert, L: set<nat>, r: Path, obj: Obj, n: nat, full: int) {
    && Loses(s.bitmap, C, o.bitmap, D, L) && o.code <= 0
    && (L != {} ==> o.code == full)
    && (if o.code == 0 then L == {} && Gains(s.disk, After(s, o).disk, r, obj) && |D.Keys| == |C.Keys| + n
        else Untouched(s, C, o, D))
  }

  /** All that making an object comes to: the result, safe at every write, with the new inode c of that size in
      place. */
  ghost predicate Made(s: Fs, C: Cert, o: Outcome, D: Cert, t: nat, L: set<nat>, r: Path, obj: Obj, n: nat, full: int,
      c: nat, size: int) {
    && Sound(s, C, o, D, t) && MakeResult(s, C, o, D, L, r, obj, n, full)
    && (o.code == 0 ==> Placed(C, D, After(s, o).disk, r, c, size))
  }

  lemma MadeOrFull(s: Fs, C: Cert, o: Outcome, D: Cert, t: nat, L: set<nat>, r: Path, obj: Obj, U: set<nat>, full: int,
      c: nat, size: int, hit: bool)
    requires L == (if hit then {} else U) && full < 0 && Loses(s.bitmap, C, o.bitmap, D, L)
    requires if hit then o.code == 0 && Gains(s.disk, After(s, o).disk, r, obj)
             else o.code == full && Untouched(s, C, o, D)
    requires |D.Keys| == |C.Keys| + if hit then |U| else 0
    requires Sound(s, C, o, D, t) && (hit ==> Placed(C, D, After(s, o).disk, r, c, size))
    ensures Made(s, C, o, D, t, L, r, obj, |U|, full, c, size)
  {
    hide Loses, Gains, Untouched, Sound, Placed;
  }

  lemma LinkMakes(s: Fs, C: Cert, p: nat, r: Path, c: nat, bm: Block, ws: seq<Write>, obj: Obj, n: nat, full: int,
      size: int)
    returns (D: Cert, t: nat, L: set<nat>)
    requires Absent(s, C, p, r) && Laid(s, C, c, bm, ws) && full < 0
    requires var d := Apply(s.disk, ws);
      && ObjAt(d, c) == obj && |Taking(c, d)| == n && Node(d, c).size == size && forall b :: b in Taking(c, d) ==>
          !Bit(s.bitmap, b)
    ensures Made(s, C, Link(s, p, NameIn(r), c, bm, ws, full), D, t, L, r, obj, n, full, c, size)
    ensures L == if FreeSlot(Apply(s.disk, ws), p, 0).Hit? then {} else Taking(c, Apply(s.disk, ws))
  {
    hide *;
    var d := Apply(s.disk, ws);
    D, t := LinkKeeps(s, C, p, r, c, bm, ws, full);
    var hit := FreeSlot(d, p, 0).Hit?;
    L := if hit then {} else Taking(c, d);
    MadeOrFull(s, C, Link(s, p, NameIn(r), c, bm, ws, full), D, t, L, r, obj, Taking(c, d), full, c, size, hit);
  }

  lemma MadeError(s: Fs, C: Cert, code: int, r: Path, obj: Obj, n: nat, full: int, c: nat, size: int)
    requires Inv(s, C) && code < 0
    ensures Made(s, C, Err(s, code), C, 1, {}, r, obj, n, full, c, size)
  {
    hide Bit, Tree, Agree;
    NoWrites(s.disk, C);
    AgreeItself(s.disk, C);
  }

  // ---- create ----

  function NewAttr(mode: nat, w: Caller): Attr {
    Attr(w.uid % 0x1_0000, w.gid % 0x1_0000, mode, w.now % 0x1_0000_0000, w.now % 0x1_0000_0000)
  }

  /** Flushing a bitmap with at least the marks of the one in memory leaves the tree safe. */
  lemma FlushStages(s: Fs, C: Cert, w: Write)
    requires Inv(s, C) && w.lba == 1 && forall b: nat :: Bit(s.bitmap, b) ==> Bit(w.data.bytes, b)
    ensures Stages(s.disk, [w], C, C, 2)
  {
    hide Bit, Tree;
    assert OnDisk(s.disk, 0) && OnDisk(s.disk, 1);
    forall b | b in C ensures Bit(w.data.bytes, b) { assert OnDisk(s.disk, b); }
    assert 1 !in C by { hide *; OneOutside(s.disk, C); }
    NoWrites(s.disk, C);
    StagesOutside(s.disk, [], C, w);
    assert [] + [w] == [w];
  }

  /** The two writes before create links the inode: the bitmap, then the inode. */
  predicate FileWrites(ws: seq<Write>, bm: Block, c: nat, x: Inode) {
    |ws| == 2 && ws[0].lba == 1 && ws[0].data.bytes == bm && ws[1].lba == c && ws[1].data.inode == x
  }

  lemma CreateLays(s: Fs, C: Cert, c: nat, bm: Block, ws: seq<Write>, x: Inode)
    requires Inv(s, C) && 2 <= c < |s.disk| && !Bit(s.bitmap, c) && FileWrites(ws, bm, c, x)
    requires forall b: nat :: Bit(bm, b) <==> Bit(s.bitmap, b) || b == c
    requires x.size == 0 && IsReg(x.mode)
    ensures var d := Apply(s.disk, ws);
      Laid(s, C, c, bm, ws) && ObjAt(d, c) == File(AttrOf(x), []) && Taking(c, d) == {c} && Node(d, c) == x
  {
    hide *;
    FreeIsOutside(s, C, c);
    FileApplied(s.disk, ws, bm, c, x);
    FlushStages(s, C, ws[0]);
    StagesOutside(s.disk, [ws[0]], C, ws[1]);
    FileImage(Apply(s.disk, ws), c, x);
    IsLaid(s, C, c, bm, ws);
  }

  lemma FileApplied(d: Disk, ws: seq<Write>, bm: Block, c: nat, x: Inode)
    requires FileWrites(ws, bm, c, x) && 2 <= c < |d|
    ensures var e := Apply(d, ws); At(e, 1).bytes == bm && Node(e, c) == x && |e| == |d|
    ensures |ws| == 2 && [ws[0]] + [ws[1]] == ws && ws[0].lba == 1 && ws[0].data.bytes == bm && ws[1].lba == c
  {
    assert [ws[0]] + [ws[1]] == ws && [] + [ws[0]] == [ws[0]];
    ApplyOn(d, [ws[0]], ws[1]);
    ApplyOn(d, [], ws[0]);
  }

  lemma IsLaid(s: Fs, C: Cert, c: nat, bm: Block, ws: seq<Write>)
    requires Stages(s.disk, ws, C, C, |ws| + 1)
    requires var d := Apply(s.disk, ws);
      && c !in C && 2 <= c < |d| && NodeOk(d, c) && !DirAt(d, c) && Table(d, c) == [] && Taking(c, d) == {c}
      && At(d, 1).bytes == bm
    requires forall b: nat :: Bit(bm, b) <==> Bit(s.bitmap, b) || b == c
    ensures Laid(s, C, c, bm, ws)
  {
    hide Bit, Stages, Taking, Table, NodeOk, DirAt;
  }

  lemma FileImage(d: Disk, c: nat, x: Inode)
    requires Node(d, c) == x && x.size == 0 && IsReg(x.mode)
    ensures NodeOk(d, c) && !DirAt(d, c) && Table(d, c) == [] && ObjAt(d, c) == File(AttrOf(x), [])
    ensures Taking(c, d) == {c}
  {
    assert Content(d, c) == [];
  }

  lemma NewFileFacts(mode: nat, w: Caller)
    requires mode < 0x1_0000_0000
    ensures var x := NewFile(mode, w); x.size == 0 && x.mode == mode && AttrOf(x) == NewAttr(mode, w)
  {}

  function ParentOf(d: Disk, r: Path): nat { if r != [] && Walk(d, Front(r)).Ok? then Walk(d, Front(r)).inum else 0 }

  function NameIn(r: Path): Str { if r == [] then [] else Last(r) }

  /** The parent of r is a directory without an entry of that name. */
  predicate CanMake(s: Fs, r: Path) {
    r != [] && Walk(s.disk, Front(r)).Ok? && DirAt(s.disk, ParentOf(s.disk, r)) &&
        Find(s.disk, ParentOf(s.disk, r), NameIn(r), 0).Miss?
  }

  lemma IsAbsent(s: Fs, C: Cert, r: Path)
    requires Inv(s, C) && Storable(NameIn(r)) && CanMake(s, r)
    ensures Absent(s, C, ParentOf(s.disk, r), r)
  {}

  lemma ParentIs(d: Disk, r: Path)
    requires r != [] && Walk(d, Front(r)).Ok?
    ensures ParentOf(d, r) == Walk(d, Front(r)).inum
  {}

  lemma NameInIs(r: Path)
    requires r != []
    ensures NameIn(r) == Last(r)
  {}

  // ---- parents with and without a slot to spare ----

  /** The directory that holds r has a slot to spare. */
  predicate Roomy(d: Disk, r: Path) { FreeSlot(d, ParentOf(d, r), 0).Hit? }

  lemma RoomySame(s: Fs, C: Cert, f: Disk, r: Path)
    requires Tree(s.disk, C) && Agree(s.disk, f, C) && r != [] && CanMake(s, r)
    ensures FreeSlot(f, ParentOf(s.disk, r), 0).Hit? <==> Roomy(s.disk, r)
  {
    var d, p := s.disk, ParentOf(s.disk, r);
    WalkIsPath(d, C, Front(r));
    AgreeSame(d, f, C);
    assert SameIno(d, f, p) && 0 !in C;
    hide Tree, Ent, Slots, NodeOk, Find, Walk;
    FreeSlotSame(d, f, p, 0);
  }

  lemma {:induction false} FreeSlotSame(d: Disk, e: Disk, i: nat, k: nat)
    requires Slots(e, i) == Slots(d, i) && forall l :: 0 <= l < Slots(d, i) ==> Ent(e, i, l) == Ent(d, i, l)
    ensures FreeSlot(e, i, k) == FreeSlot(d, i, k)
    decreases Slots(d, i) - k
  {
    hide Slots, Ent;
    if k < Slots(d, i) {
      assert Ent(e, i, k) == Ent(d, i, k);
      FreeSlotSame(d, e, i, k + 1);
    }
  }

  /** What create loses: the first free block, if it takes one and then finds no slot for the entry. */
  function CreateLoses(s: Fs, r: Path): set<nat> {
    var c := FirstFree(s.bitmap, |s.disk|, 2);
    if CanMake(s, r) && c != 0 && !Roomy(s.disk, r) then {c} else {}
  }

  /** What mkdir loses: the first two free blocks, likewise. */
  function MkdirLoses(s: Fs, r: Path): set<nat> {
    var bs := Take(s.bitmap, |s.disk|, 2).blocks;
    if CanMake(s, r) && |bs| == 2 && !Roomy(s.disk, r) then Members(bs) else {}
  }

  lemma CreateLosesIs(s: Fs, r: Path)
    ensures var c := FirstFree(s.bitmap, |s.disk|, 2);
      CreateLoses(s, r) == if CanMake(s, r) && c != 0 && !Roomy(s.disk, r) then {c} else {}
  {
    hide FirstFree, CanMake, Roomy;
  }

  lemma MkdirLosesIs(s: Fs, r: Path)
    ensures var bs := Take(s.bitmap, |s.disk|, 2).blocks;
      MkdirLoses(s, r) == if CanMake(s, r) && |bs| == 2 && !Roomy(s.disk, r) then {bs[0], bs[1]} else {}
  {
    hide Take, CanMake, Roomy;
  }

  // ---- names that are stored cut ----

  lemma LinkCut(s: Fs, p: nat, name: Str, c: nat, bm: Block, ws: seq<Write>, full: int)
    ensures Link(s, p, name, c, bm, ws, full) == Link(s, p, Kept(name), c, bm, ws, full)
  {
    var d := Apply(s.disk, ws);
    hide *;
    LinkCases(s, p, name, c, bm, ws, full);
    LinkCases(s, p, Kept(name), c, bm, ws, full);
    match FreeSlot(d, p, 0)
    case Miss =>
    case Hit(k) =>
      CutEntry(Ent(d, p, k), c, name);
      LinkAtIs(d, p, k, name, c, bm, ws);
      LinkAtIs(d, p, k, Kept(name), c, bm, ws);
  }

  /** Where r can be made, and what its name is cut to is free, the stored path can be made. */
  lemma CanMakeStored(s: Fs, r: Path)
    requires CanMake(s, r) && Stores(s.disk, r)
    ensures r != [] && CanMake(s, Stored(r)) && ParentOf(s.disk, Stored(r)) == ParentOf(s.disk, r)
  {
    StoredParts(r);
    var d, r' := s.disk, Stored(r);
    if |NameIn(r)| > 26 {
      assert Walk(d, r') == Step(d, ParentOf(d, r), NameIn(r'));
    }
    hide Find, DirAt, ObjAt;
  }

  /** With no free slot in the parent nothing is linked, under whatever name. */
  lemma FullMakes(s: Fs, C: Cert, p: nat, name: Str, c: nat, bm: Block, ws: seq<Write>, obj: Obj, full: int, size: int,
      r: Path)
    returns (L: set<nat>)
    requires Laid(s, C, c, bm, ws) && full < 0 && Link(s, p, name, c, bm, ws, full).code != 0
    requires forall b :: b in Taking(c, Apply(s.disk, ws)) ==> !Bit(s.bitmap, b)
    ensures Made(s, C, Link(s, p, name, c, bm, ws, full), C, |ws| + 1, L, r, obj, |Taking(c, Apply(s.disk, ws))|, full,
        c, size)
    ensures L == if FreeSlot(Apply(s.disk, ws), p, 0).Hit? then {} else Taking(c, Apply(s.disk, ws))
  {
    hide *;
    var d := Apply(s.disk, ws);
    var o := Link(s, p, name, c, bm, ws, full);
    LinkCases(s, p, name, c, bm, ws, full);
    if FreeSlot(d, p, 0).Hit? {
      LinkAtIs(d, p, FreeSlot(d, p, 0).slot, name, c, bm, ws);
    }
    L := Taking(c, d);
    TakingFresh(s, C, c, bm, ws);
    FullParent(s, C, c, bm, ws, full);
    Uses(s.bitmap, C, bm, C, L, false);
    MadeOrFull(s, C, o, C, |ws| + 1, L, r, obj, L, full, c, size, false);
  }

  /** The last step of create and mkdir for any name: the object appears at the path its name is stored under, if that
      is free when the entry is written. */
  lemma LinkCuts(s: Fs, C: Cert, r: Path, c: nat, bm: Block, ws: seq<Write>, obj: Obj, n: nat, full: int, size: int)
    returns (D: Cert, t: nat, L: set<nat>)
    requires Inv(s, C) && CanMake(s, r) && NewName(NameIn(r)) && Laid(s, C, c, bm, ws) && full < 0
    requires Link(s, ParentOf(s.disk, r), NameIn(r), c, bm, ws, full).code == 0 ==> Stores(s.disk, r)
    requires var d := Apply(s.disk, ws);
      && ObjAt(d, c) == obj && |Taking(c, d)| == n && Node(d, c).size == size
      && forall b :: b in Taking(c, d) ==> !Bit(s.bitmap, b)
    ensures Made(s, C, Link(s, ParentOf(s.disk, r), NameIn(r), c, bm, ws, full), D, t, L, Stored(r), obj, n, full, c,
        size)
    ensures L == if Roomy(s.disk, r) then {} else Taking(c, Apply(s.disk, ws))
  {
    hide *;
    var p := ParentOf(s.disk, r);
    RoomyAfter(s, C, c, bm, ws, r);
    if Stores(s.disk, r) {
      CanMakeStored(s, r);
      StoredParts(r);
      KeptIsStorable(NameIn(r));
      LinkCut(s, p, NameIn(r), c, bm, ws, full);
      IsAbsent(s, C, Stored(r));
      D, t, L := LinkMakes(s, C, p, Stored(r), c, bm, ws, obj, n, full, size);
    } else {
      L := FullMakes(s, C, p, NameIn(r), c, bm, ws, obj, full, size, Stored(r));
      D, t := C, |ws| + 1;
    }
  }

  lemma RoomyAfter(s: Fs, C: Cert, c: nat, bm: Block, ws: seq<Write>, r: Path)
    requires Inv(s, C) && CanMake(s, r) && Laid(s, C, c, bm, ws)
    ensures FreeSlot(Apply(s.disk, ws), ParentOf(s.disk, r), 0).Hit? <==> Roomy(s.disk, r)
  {
    hide *;
    InvSafe(s, C);
    LaidParts(s, C, c, bm, ws);
    MakeAt(s, r);
    RoomySame(s, C, Apply(s.disk, ws), r);
  }

  lemma InvSafe(s: Fs, C: Cert)
    requires Inv(s, C)
    ensures Tree(s.disk, C)
  {}

  lemma MakeAt(s: Fs, r: Path)
    requires CanMake(s, r)
    ensures r != []
  {}

  /** create with a free block c, in a parent without an entry of that name. */
  lemma CreateMakes(s: Fs, C: Cert, r: Path, mode: nat, w: Caller, c: nat) returns (D: Cert, t: nat, L: set<nat>)
    requires Inv(s, C) && NewName(NameIn(r)) && mode < 0x1_0000_0000 && IsReg(mode) && CanMake(s, r)
    requires c == FirstFree(s.bitmap, |s.disk|, 2) && c != 0
    requires MakingFile(s, r, mode, w).code == 0 ==> Stores(s.disk, r)
    ensures Made(s, C, MakingFile(s, r, mode, w), D, t, L, Stored(r), File(NewAttr(mode, w), []), 1, ENOSPC, c, 0)
    ensures L == if Roomy(s.disk, r) then {} else {c}
  {
    MakingFileIs(s, r, mode, w);
    hide *;
    var bm := SetBit(s.bitmap, c);
    var ws := CreateWrites(bm, c, mode, w);
    InvSmall(s, C);
    forall b: nat ensures Bit(bm, b) <==> Bit(s.bitmap, b) || b == c { SetThenTest(s.bitmap, c, b); }
    AreFileWrites(bm, c, mode, w);
    NewFileFacts(mode, w);
    CreateLays(s, C, c, bm, ws, NewFile(mode, w));
    D, t, L := LinkCuts(s, C, r, c, bm, ws, File(NewAttr(mode, w), []), 1, ENOSPC, 0);
  }

  /** create at the path r from the choice of a block on. */
  function MakingFile(s: Fs, r: Path, mode: nat, w: Caller): Outcome {
    var c := FirstFree(s.bitmap, |s.disk|, 2);
    var bm := SetBit(s.bitmap, c);
    if c == 0 then Err(s, ENOSPC)
    else Link(s, ParentOf(s.disk, r), NameIn(r), c, bm, CreateWrites(bm, c, mode, w), ENOSPC)
  }

  lemma MakingFileIs(s: Fs, r: Path, mode: nat, w: Caller)
    ensures var c := FirstFree(s.bitmap, |s.disk|, 2); var bm := SetBit(s.bitmap, c);
      MakingFile(s, r, mode, w) ==
        if c == 0 then Err(s, ENOSPC)
        else Link(s, ParentOf(s.disk, r), NameIn(r), c, bm, CreateWrites(bm, c, mode, w), ENOSPC)
    ensures ENOSPC < 0
  {
    hide Link, FirstFree, SetBit, CreateWrites, ParentOf, NameIn, Err;
  }

  /** create keeps the invariant and is safe after every write. It succeeds exactly by adding an empty file at the path
      its name is stored under, on one new block, and needs that path to be free if it gets that far; with the parent
      directory full, and only then, it loses that block. */
  lemma CreateKeeps(s: Fs, C: Cert, comps: seq<Str>, mode: nat, w: Caller) returns (D: Cert, t: nat, L: set<nat>,
      c: nat)
    requires Inv(s, C) && Resolve(comps) != [] && NewName(NameIn(Resolve(comps))) && mode < 0x1_0000_0000 && IsReg(mode)
    requires Create(s, comps, mode, w).code == 0 ==> Stores(s.disk, Resolve(comps))
    ensures Made(s, C, Create(s, comps, mode, w), D, t, L, Stored(Resolve(comps)), File(NewAttr(mode, w), []), 1,
        ENOSPC, c, 0)
    ensures L == CreateLoses(s, Resolve(comps))
  {
    hide *;
    var r := Resolve(comps);
    c := FirstFree(s.bitmap, |s.disk|, 2);
    CreateLosesIs(s, r);
    CreateShape(s, comps, mode, w);
    MakingFileIs(s, r, mode, w);
    if !CanMake(s, r) || c == 0 {
      RefusalNegative(s, r);
      var code := if !CanMake(s, r) then Refusal(s, r) else ENOSPC;
      MadeError(s, C, code, Stored(r), File(NewAttr(mode, w), []), 1, ENOSPC, c, 0);
      D, t, L := C, 1, {};
    } else {
      D, t, L := CreateMakes(s, C, r, mode, w, c);
    }
  }

  lemma FreeRange(s: Fs, c: nat)
    requires c == FirstFree(s.bitmap, |s.disk|, 2) && c != 0
    ensures 2 <= c < |s.disk| && !Bit(s.bitmap, c)
  {
    hide Bit;
  }

  lemma LaidAgrees(s: Fs, C: Cert, mode: nat, w: Caller)
    requires Inv(s, C) && mode < 0x1_0000_0000 && IsReg(mode) && FirstFree(s.bitmap, |s.disk|, 2) != 0
    ensures var c := FirstFree(s.bitmap, |s.disk|, 2);
        Agree(s.disk, Apply(s.disk, CreateWrites(SetBit(s.bitmap, c), c, mode, w)), C)
  {
    hide *;
    var c := FirstFree(s.bitmap, |s.disk|, 2);
    var bm := SetBit(s.bitmap, c);
    var ws := CreateWrites(bm, c, mode, w);
    InvSmall(s, C);
    FreeRange(s, c);
    forall b: nat ensures Bit(bm, b) <==> Bit(s.bitmap, b) || b == c { SetThenTest(s.bitmap, c, b); }
    AreFileWrites(bm, c, mode, w);
    NewFileFacts(mode, w);
    CreateLays(s, C, c, bm, ws, NewFile(mode, w));
    LaidParts(s, C, c, bm, ws);
  }

  lemma CreateShape(s: Fs, comps: seq<Str>, mode: nat, w: Caller)
    requires Resolve(comps) != []
    ensures var r, c := Resolve(comps), FirstFree(s.bitmap, |s.disk|, 2);
      Create(s, comps, mode, w) ==
        if !CanMake(s, r) then Err(s, Refusal(s, r))
        else if c == 0 then Err(s, ENOSPC)
        else
          var bm := SetBit(s.bitmap, c);
          Link(s, ParentOf(s.disk, r), NameIn(r), c, bm, CreateWrites(bm, c, mode, w), ENOSPC)
  {
    hide Resolve, Link, Find, DirAt, Walk, SetBit, FirstFree, CreateWrites, Err;
  }

  lemma AreFileWrites(bm: Block, c: nat, mode: nat, w: Caller)
    ensures FileWrites(CreateWrites(bm, c, mode, w), bm, c, NewFile(mode, w))
  {
    hide DecodeInode, EncodeInode, DecodeDirents, NewFile;
  }

  // ---- mkdir ----

  /** The three writes before mkdir links the inode: the bitmap, the inode, its zeroed block. */
  predicate DirWrites(ws: seq<Write>, bm: Block, c: nat, b: nat, x: Inode) {
    && |ws| == 3 && ws[0].lba == 1 && ws[0].data.bytes == bm && ws[1].lba == c && ws[1].data.inode == x
    && ws[2].lba == b && forall r :: 0 <= r < 128 ==> !ws[2].data.dirents[r].valid
  }

  predicate EmptyDir(x: Inode, b: nat) {
    x.size == 4096 && IsDir(x.mode) && x.ptrs[0] == b
  }

  lemma DirImage(d: Disk, c: nat, b: nat, x: Inode)
    requires Node(d, c) == x && EmptyDir(x, b) && b < |d| && forall r :: 0 <= r < 128 ==> !At(d, b).dirents[r].valid
    ensures NodeOk(d, c) && DirAt(d, c) && Table(d, c) == [b] && ObjAt(d, c) == Dir(AttrOf(x)) && Taking(c, d) == {c, b}
    ensures forall l :: 0 <= l < Slots(d, c) ==> !Ent(d, c, l).valid
  {
    assert Ptr(d, c, 0) == b;
    assert Table(d, c) == [b];
  }

  lemma MkdirImage(d: Disk, ws: seq<Write>, bm: Block, c: nat, b: nat, x: Inode)
    requires DirWrites(ws, bm, c, b, x) && 2 <= c < |d| && 2 <= b < |d| && b != c
    ensures var e := Apply(d, ws);
      At(e, 1).bytes == bm && Node(e, c) == x && forall r :: 0 <= r < 128 ==> !At(e, b).dirents[r].valid
    ensures [ws[0]] + [ws[1]] == ws[..2] && ws[..2] + [ws[2]] == ws
    ensures |ws| == 3 && |ws[..2]| == 2 && ws[0].lba == 1 && ws[0].data.bytes == bm && ws[1].lba == c && ws[2].lba == b
  {
    assert [ws[0]] + [ws[1]] == ws[..2] && ws[..2] + [ws[2]] == ws && [] + [ws[0]] == [ws[0]];
    ApplyOn(d, ws[..2], ws[2]);
    ApplyOn(d, [ws[0]], ws[1]);
    ApplyOn(d, [], ws[0]);
  }

  /** Two free blocks got marked. */
  ghost predicate TwoTaken(s: Fs, c: nat, b: nat, bm: Block) {
    && 2 <= c < |s.disk| && !Bit(s.bitmap, c) && 2 <= b < |s.disk| && !Bit(s.bitmap, b) && b != c
    && forall i: nat :: Bit(bm, i) <==> Bit(s.bitmap, i) || i == c || i == b
  }

  lemma TwoParts(s: Fs, c: nat, b: nat, bm: Block)
    requires TwoTaken(s, c, b, bm)
    ensures 2 <= c < |s.disk| && !Bit(s.bitmap, c) && 2 <= b < |s.disk| && !Bit(s.bitmap, b) && b != c
    ensures forall i: nat :: Bit(bm, i) <==> Bit(s.bitmap, i) || i == c || i == b
  {
    hide Bit;
  }

  lemma MkdirLays(s: Fs, C: Cert, c: nat, b: nat, bm: Block, ws: seq<Write>, x: Inode)
    requires Inv(s, C) && TwoTaken(s, c, b, bm) && DirWrites(ws, bm, c, b, x) && EmptyDir(x, b)
    ensures var d := Apply(s.disk, ws);
      && Laid(s, C, c, bm, ws) && ObjAt(d, c) == Dir(AttrOf(x)) && Taking(c, d) == {c, b} && Node(d, c) == x
      && |Taking(c, d)| == 2
      && forall i :: i in Taking(c, d) ==> !Bit(s.bitmap, i)
  {
    hide *;
    TwoParts(s, c, b, bm);
    MkdirImage(s.disk, ws, bm, c, b, x);
    FreeIsOutside(s, C, c);
    FreeIsOutside(s, C, b);
    FlushStages(s, C, ws[0]);
    StagesOutside(s.disk, [ws[0]], C, ws[1]);
    StagesOutside(s.disk, ws[..2], C, ws[2]);
    DirImage(Apply(s.disk, ws), c, b, x);
    IsLaidDir(s, C, c, b, bm, ws);
  }

  lemma IsLaidDir(s: Fs, C: Cert, c: nat, b: nat, bm: Block, ws: seq<Write>)
    requires Stages(s.disk, ws, C, C, |ws| + 1) && c !in C && b !in C && c != b
    requires var d := Apply(s.disk, ws);
      && 2 <= c < |d| && 2 <= b < |d| && NodeOk(d, c) && Table(d, c) == [b] && Taking(c, d) == {c, b}
      && At(d, 1).bytes == bm && forall l :: 0 <= l < Slots(d, c) ==> !Ent(d, c, l).valid
    requires forall i: nat :: Bit(bm, i) <==> Bit(s.bitmap, i) || i == c || i == b
    ensures Laid(s, C, c, bm, ws)
  {
    hide Bit, Stages, Taking, Table, NodeOk, DirAt, Slots, Ent;
  }

  lemma NewDirFacts(s: Fs, c: nat, bm: Block, mode: nat, b: nat, w: Caller)
    requires mode < 0x1000 && TwoTaken(s, c, b, bm) && |s.disk| <= 32768
    ensures var x := NewDir(mode, b, w); EmptyDir(x, b) && AttrOf(x) == NewAttr(0x4000 + mode, w)
  {}

  lemma ZeroIsEmpty()
    ensures forall r :: 0 <= r < 128 ==> !Read(ZeroBlock()).dirents[r].valid
  {
    hide Read;
    forall r | 0 <= r < 128 ensures !Read(ZeroBlock()).dirents[r].valid { ZeroReads(r); }
  }

  lemma TakesTwo(s: Fs)
    requires |s.disk| <= 32768 && |Take(s.bitmap, |s.disk|, 2).blocks| >= 2
    ensures var t := Take(s.bitmap, |s.disk|, 2); TwoTaken(s, t.blocks[0], t.blocks[1], t.map8)
  {
    hide Bit, Take;
    TakeFacts(s.bitmap, |s.disk|, 2);
    var t := Take(s.bitmap, |s.disk|, 2);
    assert t.blocks == [t.blocks[0], t.blocks[1]];
  }

  /** Why r cannot be made, when it cannot. */
  function Refusal(s: Fs, r: Path): int {
    if r == [] then ENOENT
    else match Walk(s.disk, Front(r))
      case Fail(e) => e
      case Ok(p) => if !DirAt(s.disk, p) then ENOTDIR else EEXIST
  }

  lemma MkdirShape(s: Fs, comps: seq<Str>, mode: nat, w: Caller)
    requires Resolve(comps) != [] && mode < 0x1000
    ensures var r, t := Resolve(comps), Take(s.bitmap, |s.disk|, 2);
      Mkdir(s, comps, mode, w) ==
        if !CanMake(s, r) then Err(s, Refusal(s, r))
        else if |t.blocks| < 2 then Err(s, ENOSPC)
        else Link(s, ParentOf(s.disk, r), NameIn(r), t.blocks[0], t.map8,
            MkdirWrites(t.map8, t.blocks[0], t.blocks[1], mode, w), EOPNOTSUPP)
  {
    hide Resolve, Link, Find, DirAt, Walk, Take, MkdirWrites, Err;
  }

  lemma RefusalNegative(s: Fs, r: Path)
    ensures Refusal(s, r) < 0 && ENOSPC < 0 && EOPNOTSUPP < 0
  {
    if r != [] {
      WalkFailsNegative(s.disk, Front(r));
    }
  }

  lemma AreDirWrites(bm: Block, c: nat, b: nat, mode: nat, w: Caller)
    requires mode < 0x1000
    ensures DirWrites(MkdirWrites(bm, c, b, mode, w), bm, c, b, NewDir(mode, b, w))
  {
    ZeroIsEmpty();
    hide DecodeInode, EncodeInode, DecodeDirents, NewDir;
  }

  /** mkdir keeps the invariant and is safe after every write. It succeeds exactly by adding an empty directory at the
      path its name is stored under, on two new blocks, and needs that path to be free if it gets that far; with the
      parent directory full, and only then, it loses those blocks. */
  lemma MkdirKeeps(s: Fs, C: Cert, comps: seq<Str>, mode: nat, w: Caller) returns (D: Cert, t: nat, L: set<nat>, c: nat)
    requires Inv(s, C) && Resolve(comps) != [] && NewName(NameIn(Resolve(comps))) && mode < 0x1000
    requires Mkdir(s, comps, mode, w).code == 0 ==> Stores(s.disk, Resolve(comps))
    ensures Made(s, C, Mkdir(s, comps, mode, w), D, t, L, Stored(Resolve(comps)), Dir(NewAttr(0x4000 + mode, w)), 2,
        EOPNOTSUPP, c, 4096)
    ensures L == MkdirLoses(s, Resolve(comps))
  {
    hide *;
    var r := Resolve(comps);
    MkdirLosesIs(s, r);
    TakeShort(s, 2);
    var k := Take(s.bitmap, |s.disk|, 2);
    var obj := Dir(NewAttr(0x4000 + mode, w));
    c := if |k.blocks| < 2 then 0 else k.blocks[0];
    MkdirShape(s, comps, mode, w);
    RefusalNegative(s, r);
    if !CanMake(s, r) || |k.blocks| < 2 {
      var code := if !CanMake(s, r) then Refusal(s, r) else ENOSPC;
      MadeError(s, C, code, Stored(r), obj, 2, EOPNOTSUPP, c, 4096);
      D, t, L := C, 1, {};
    } else {
      var b := k.blocks[1];
      var ws := MkdirWrites(k.map8, c, b, mode, w);
      InvSmall(s, C);
      TakesTwo(s);
      AreDirWrites(k.map8, c, b, mode, w);
      NewDirFacts(s, c, k.map8, mode, b, w);
      MkdirLays(s, C, c, b, k.map8, ws, NewDir(mode, b, w));
      D, t, L := LinkCuts(s, C, r, c, k.map8, ws, obj, 2, EOPNOTSUPP, 4096);
    }
  }

  lemma TakeShort(s: Fs, k: nat)
    ensures |Take(s.bitmap, |s.disk|, k).blocks| <= k
  {
    hide Take;
  }

  lemma DirLaidAgrees(s: Fs, C: Cert, mode: nat, w: Caller)
    requires Inv(s, C) && mode < 0x1000 && |Take(s.bitmap, |s.disk|, 2).blocks| >= 2
    ensures var t := Take(s.bitmap, |s.disk|, 2);
      Agree(s.disk, Apply(s.disk, MkdirWrites(t.map8, t.blocks[0], t.blocks[1], mode, w)), C)
  {
    hide *;
    var t := Take(s.bitmap, |s.disk|, 2);
    var c, b := t.blocks[0], t.blocks[1];
    var ws := MkdirWrites(t.map8, c, b, mode, w);
    InvSmall(s, C);
    TakesTwo(s);
    AreDirWrites(t.map8, c, b, mode, w);
    NewDirFacts(s, c, t.map8, mode, b, w);
    MkdirLays(s, C, c, b, t.map8, ws, NewDir(mode, b, w));
    LaidParts(s, C, c, t.map8, ws);
  }

  lemma InvSmall(s: Fs, C: Cert)
    requires Inv(s, C)
    ensures |s.disk| <= 32768
  {}
}
