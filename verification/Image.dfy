/** What a disk image means: inodes, directory slots, the tree they form and the paths that reach them. */
module Image {
  import opened Format

  type Disk = seq<Sector>
  type Path = seq<Str>

  const ROOT: nat := 2

  datatype Option<+T> = None | Some(value: T)

  // ---- reading the image ----

  function At(d: Disk, b: nat): Sector { if b < |d| then d[b] else Blank() }

  function Put(d: Disk, b: nat, x: Sector): (r: Disk)
    ensures |r| == |d|
    ensures forall c: nat :: At(r, c) == if c == b && b < |d| then x else At(d, c)
  { if b < |d| then d[b := x] else d }

  function Node(d: Disk, i: nat): Inode { At(d, i).inode }

  predicate DirAt(d: Disk, i: nat) { IsDir(Node(d, i).mode) }

  /** The k-th block pointer of inode i. */
  function Ptr(d: Disk, i: nat, k: nat): nat { if k < 1019 then Node(d, i).ptrs[k] else 0 }

  /** Blocks an inode's size spans. */
  function Span(d: Disk, i: nat): nat { Blocks(Node(d, i).size) }

  /** Directory slots, counted through all blocks of a directory: slot k is entry k % 128 of block k / 128. */
  function Slots(d: Disk, i: nat): nat {
    if Node(d, i).size <= 0 then 0 else 128 * (Node(d, i).size / 4096)
  }

  function Ent(d: Disk, i: nat, k: nat): Dirent { At(d, Ptr(d, i, k / 128)).dirents[k % 128] }

  function NameAt(d: Disk, i: nat, k: nat): Str { CStr(Ent(d, i, k).name) }

  // ---- the certificate of a tree ----

  /** What one block in use is for: an inode linked from a slot of its parent, or the k-th data block of an inode. */
  datatype Role = Root | Entry(parent: nat, slot: nat, depth: nat) | Data(owner: nat, index: nat)

  type Cert = map<nat, Role>

  predicate Ino(C: Cert, i: nat) { i in C && !C[i].Data? }

  function Depth(C: Cert, i: nat): nat
    requires i in C
  { if C[i].Entry? then C[i].depth else 0 }

  predicate GoodName(n: Str) { 1 <= |n| <= 27 && 0 !in n && 47 !in n && n != [46] && n != [46, 46] }

  predicate NodeOk(d: Disk, i: nat) {
    var n := Node(d, i);
    && 0 <= n.size <= 1019 * 4096
    && (IsDir(n.mode) || IsReg(n.mode))
    && (IsDir(n.mode) ==> 4096 <= n.size && n.size % 4096 == 0)
  }

  ghost predicate Bounds(d: Disk, C: Cert) {
    && ROOT in C && DirAt(d, ROOT)
    && (forall b :: b in C ==> 2 <= b < |d|)
    && (forall b :: b in C ==> (C[b].Root? <==> b == ROOT))
  }

  ghost predicate Nodes(d: Disk, C: Cert) {
    forall i :: Ino(C, i) ==> NodeOk(d, i)
  }

  ghost predicate Owns(d: Disk, C: Cert) {
    forall i, k :: Ino(C, i) && 0 <= k < Span(d, i) ==> Ptr(d, i, k) in C && C[Ptr(d, i, k)] == Data(i, k)
  }

  ghost predicate Owned(d: Disk, C: Cert) {
    forall b {:trigger IsData(C, b)} :: IsData(C, b) ==>
      Ino(C, C[b].owner) && C[b].index < Span(d, C[b].owner) && Ptr(d, C[b].owner, C[b].index) == b
  }

  predicate Live(d: Disk, C: Cert, i: nat, k: nat) {
    Ino(C, i) && DirAt(d, i) && k < Slots(d, i) && Ent(d, i, k).valid
  }

  ghost predicate Links(d: Disk, C: Cert) {
    forall i, k :: Live(d, C, i, k) ==>
      Ent(d, i, k).inode in C && C[Ent(d, i, k).inode] == Entry(i, k, Depth(C, i) + 1)
  }

  predicate IsEntry(C: Cert, c: nat) { c in C && C[c].Entry? }

  predicate IsData(C: Cert, b: nat) { b in C && C[b].Data? }

  /** The slot that the certificate records for an entry does link it. */
  predicate LinkedAt(d: Disk, C: Cert, c: nat)
    requires IsEntry(C, c)
  {
    && Live(d, C, C[c].parent, C[c].slot) && Ent(d, C[c].parent, C[c].slot).inode == c
    && C[c].depth == Depth(C, C[c].parent) + 1
  }

  ghost predicate Linked(d: Disk, C: Cert) {
    forall c {:trigger IsEntry(C, c)} :: IsEntry(C, c) ==> LinkedAt(d, C, c)
  }

  ghost predicate Names(d: Disk, C: Cert) {
    && (forall i, k :: Live(d, C, i, k) ==> GoodName(NameAt(d, i, k)))
    && (forall i, k, l :: Live(d, C, i, k) && Live(d, C, i, l) && NameAt(d, i, k) == NameAt(d, i, l) ==> k == l)
  }

  /** C is exactly the set of blocks reachable from the root, each with its one role: the image is a tree,
      no block is owned twice, names are unique within a directory. */
  ghost predicate Tree(d: Disk, C: Cert) {
    Bounds(d, C) && Nodes(d, C) && Owns(d, C) && Owned(d, C) && Links(d, C) && Linked(d, C) && Names(d, C)
  }

  // ---- names and walks ----

  datatype Look = Hit(slot: nat) | Miss

  /** The first valid slot from k on that carries the name. */
  function Find(d: Disk, i: nat, name: Str, k: nat): (r: Look)
    ensures r.Hit? ==> k <= r.slot < Slots(d, i) && Ent(d, i, r.slot).valid && NameAt(d, i, r.slot) == name
    ensures r.Hit? ==> forall l: nat :: k <= l < r.slot && Ent(d, i, l).valid ==> NameAt(d, i, l) != name
    ensures r.Miss? ==> forall l: nat :: k <= l < Slots(d, i) && Ent(d, i, l).valid ==> NameAt(d, i, l) != name
    decreases Slots(d, i) - k
  {
    hide Slots, Ent, NameAt;
    if k >= Slots(d, i) then Miss
    else if Ent(d, i, k).valid && NameAt(d, i, k) == name then Hit(k)
    else Find(d, i, name, k + 1)
  }

  /** The first slot from k on that is not valid. */
  function FreeSlot(d: Disk, i: nat, k: nat): (r: Look)
    ensures r.Hit? ==> k <= r.slot < Slots(d, i) && !Ent(d, i, r.slot).valid
    ensures r.Hit? ==> forall l: nat :: k <= l < r.slot ==> Ent(d, i, l).valid
    ensures r.Miss? ==> forall l: nat :: k <= l < Slots(d, i) ==> Ent(d, i, l).valid
    decreases Slots(d, i) - k
  {
    hide Slots, Ent, NameAt;
    if k >= Slots(d, i) then Miss else if !Ent(d, i, k).valid then Hit(k) else FreeSlot(d, i, k + 1)
  }

  datatype Found = Ok(inum: nat) | Fail(code: int)

  const ENOENT: int := -2
  const EEXIST: int := -17
  const ENOTDIR: int := -20
  const EISDIR: int := -21
  const EINVAL: int := -22
  const ENOSPC: int := -28
  const ENOTEMPTY: int := -39
  const EOPNOTSUPP: int := -95

  /** One component of a path: the named entry of directory i. */
  function Step(d: Disk, i: nat, name: Str): Found {
    if !DirAt(d, i) then Fail(ENOTDIR)
    else match Find(d, i, name, 0)
      case Hit(k) => Ok(Ent(d, i, k).inode)
      case Miss => Fail(ENOENT)
  }

  function Front<T>(s: seq<T>): seq<T>
    requires s != []
  { s[..|s| - 1] }

  function Last<T>(s: seq<T>): T
    requires s != []
  { s[|s| - 1] }

  lemma FrontLast<T>(s: seq<T>)
    requires s != []
    ensures Front(s) + [Last(s)] == s
  {}

  /** The inode a path without dots leads to from the root. */
  function Walk(d: Disk, p: Path): Found {
    if p == [] then Ok(ROOT)
    else match Walk(d, Front(p))
      case Fail(e) => Fail(e)
      case Ok(i) => Step(d, i, Last(p))
  }

  /** The path of a live inode, read off the certificate. */
  ghost function PathOf(d: Disk, C: Cert, i: nat): Path
    requires Tree(d, C) && Ino(C, i)
    decreases Depth(C, i)
  {
    assert !C[i].Root? ==> IsEntry(C, i);
    if C[i].Root? then [] else PathOf(d, C, C[i].parent) + [NameAt(d, C[i].parent, C[i].slot)]
  }

  /** In a tree the entry of a directory with a given name is the one slot that carries it. */
  lemma StepFinds(d: Disk, C: Cert, i: nat, k: nat)
    requires Tree(d, C) && Live(d, C, i, k)
    ensures Find(d, i, NameAt(d, i, k), 0) == Hit(k)
    ensures Step(d, i, NameAt(d, i, k)) == Ok(Ent(d, i, k).inode)
  {
    var r := Find(d, i, NameAt(d, i, k), 0);
    assert r.Hit? ==> Live(d, C, i, r.slot);
  }

  /** Walking the path of a live inode leads to it. */
  lemma {:induction false} WalkReaches(d: Disk, C: Cert, i: nat)
    requires Tree(d, C) && Ino(C, i)
    ensures Walk(d, PathOf(d, C, i)) == Ok(i)
    decreases Depth(C, i)
  {
    hide Find, Step;
    if IsEntry(C, i) {
      var p, k := C[i].parent, C[i].slot;
      WalkReaches(d, C, p);
      StepFinds(d, C, p, k);
      assert Front(PathOf(d, C, p) + [NameAt(d, p, k)]) == PathOf(d, C, p);
    }
  }

  /** A step from a live directory leads to a live inode recorded as its entry. */
  lemma StepIsLink(d: Disk, C: Cert, i: nat, name: Str)
    requires Tree(d, C) && Ino(C, i) && Step(d, i, name).Ok?
    ensures var c := Step(d, i, name).inum;
      Ino(C, c) && C[c].Entry? && C[c].parent == i && NameAt(d, i, C[c].slot) == name
  {
    hide DirAt, Slots, Ent, NameAt, Bounds, Nodes, Owns, Owned, Linked, Names;
    assert Live(d, C, i, Find(d, i, name, 0).slot);
  }

  /** Whatever a walk leads to is live and has exactly that path: no inode has two paths. */
  lemma {:induction false} WalkIsPath(d: Disk, C: Cert, p: Path)
    requires Tree(d, C) && Walk(d, p).Ok?
    ensures Ino(C, Walk(d, p).inum) && PathOf(d, C, Walk(d, p).inum) == p
  {
    hide Step, DirAt, Slots, NameAt, Nodes, Owns, Owned, Links, Linked, Names;
    if p != [] {
      WalkIsPath(d, C, Front(p));
      StepIsLink(d, C, Walk(d, Front(p)).inum, Last(p));
      assert p == Front(p) + [Last(p)];
    }
  }

  lemma {:induction false} WalkFailsNegative(d: Disk, p: Path)
    ensures Walk(d, p).Fail? ==> Walk(d, p).code < 0
  {
    if p != [] {
      WalkFailsNegative(d, Front(p));
    }
  }

  // ---- the namespace a user sees ----

  datatype Attr = Attr(uid: nat, gid: nat, mode: nat, ctime: nat, mtime: nat)
  datatype Obj = Dir(attr: Attr) | File(attr: Attr, bytes: Str)

  function AttrOf(n: Inode): Attr { Attr(n.uid, n.gid, n.mode, n.ctime, n.mtime) }

  /** The bytes of a file: the first size bytes of its blocks in order. */
  function Content(d: Disk, i: nat): Str {
    seq(if Node(d, i).size <= 0 then 0 else Node(d, i).size,
        x requires 0 <= x => At(d, Ptr(d, i, x / 4096)).bytes[x % 4096])
  }

  function ObjAt(d: Disk, i: nat): Obj {
    if DirAt(d, i) then Dir(AttrOf(Node(d, i))) else File(AttrOf(Node(d, i)), Content(d, i))
  }

  /** The namespace: the object at a path, if there is one. */
  function Lookup(d: Disk, p: Path): Option<Obj> {
    match Walk(d, p)
    case Fail(_) => None
    case Ok(i) => Some(ObjAt(d, i))
  }
}
