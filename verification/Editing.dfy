/** Operations on one inode in place: truncate, chmod and utime, and what any change of one file means for the
    namespace. */
module Editing {
  import opened Words
  import opened Format
  import opened Bits
  import opened Image
  import opened Change
  import opened Paths
  import opened Ops
  import opened Keep
  import opened Removing

  /** The object at r becomes o and nothing else changes; every path keeps its inode. */
  ghost predicate Replaced(d: Disk, e: Disk, r: Path, o: Obj) {
    && Lookup(d, r).Some? && (forall q: Path :: Lookup(e, q) == if q == r then Some(o) else Lookup(d, q))
    && forall q: Path :: Walk(d, q).Ok? || Walk(e, q).Ok? ==> Walk(e, q) == Walk(d, q)
  }

  /** Both trees link the same inodes from the same slots under the same names. */
  ghost predicate SameNames(d: Disk, C: Cert, e: Disk, D: Cert) {
    SharePaths(d, C, e, D) && SharePaths(e, D, d, C)
  }

  lemma EditNamespace(d: Disk, C: Cert, e: Disk, D: Cert, i: nat, r: Path)
    requires Tree(d, C) && Tree(e, D) && SameNames(d, C, e, D) && Walk(d, r) == Ok(i)
    requires forall j :: Ino(C, j) && j != i ==> ObjAt(e, j) == ObjAt(d, j)
    ensures Replaced(d, e, r, ObjAt(e, i)) && Walk(e, r) == Ok(i)
    ensures forall q: Path :: Walk(d, q).Ok? || Walk(e, q).Ok? ==> Walk(e, q) == Walk(d, q)
  {
    hide Tree, ObjAt, PathOf, SharePaths;
    WalkIsPath(d, C, r);
    forall q: Path
      ensures Walk(d, q).Ok? || Walk(e, q).Ok? ==> Walk(e, q) == Walk(d, q)
      ensures Lookup(e, q) == if q == r then Some(ObjAt(e, i)) else Lookup(d, q)
    {
      if Walk(d, q).Ok? {
        SameWalk(d, C, e, D, q);
        WalkIsPath(d, C, q);
      } else if Walk(e, q).Ok? {
        SameWalk(e, D, d, C, q);
      }
    }
    SameWalk(d, C, e, D, r);
  }

  // ---- a file's inode, table or bytes change ----

  lemma RetableNames(d: Disk, C: Cert, e: Disk, i: nat)
    requires Tree(d, C) && Ino(C, i) && !DirAt(d, i) && AgreeExcept(d, e, C, i) && MayHold(d, C, i, Table(e, i))
    ensures SameNames(d, C, e, Retable(C, i, Table(e, i)))
  {
    RetableSame(d, C, e, i);
    var D := Retable(C, i, Table(e, i));
    hide Table, CStr, Nodes, Owns, Owned, Links, Names;
    forall j
      ensures Ino(D, j) <==> Ino(C, j)
      ensures Ino(C, j) ==> D[j] == C[j]
      ensures IsEntry(C, j) ==> NameAt(e, C[j].parent, C[j].slot) == NameAt(d, C[j].parent, C[j].slot)
    {
      if IsEntry(C, j) {
        assert LinkedAt(d, C, j);
      }
    }
    hide Ent;
  }

  lemma RetableObj(d: Disk, C: Cert, e: Disk, i: nat, j: nat)
    requires Tree(d, C) && Ino(C, i) && !DirAt(d, i) && AgreeExcept(d, e, C, i) && Ino(C, j) && j != i
    ensures ObjAt(e, j) == ObjAt(d, j)
  {
    hide Links, Linked, Names, Owned;
    assert Node(e, j) == Node(d, j);
    if !DirAt(d, j) {
      forall x: nat | x < Node(d, j).size
        ensures At(e, Ptr(e, j, x / 4096)) == At(d, Ptr(d, j, x / 4096))
      {
        assert x / 4096 < Span(d, j);
        assert C[Ptr(d, j, x / 4096)] == Data(j, x / 4096);
      }
      assert Content(e, j) == Content(d, j);
    }
  }

  /** A file whose size, table or bytes change stays where it is in the tree, and nothing else is seen to change. */
  lemma FileChanges(d: Disk, C: Cert, e: Disk, i: nat, r: Path)
    requires Tree(d, C) && Walk(d, r) == Ok(i) && !DirAt(d, i) && AgreeExcept(d, e, C, i)
    requires NodeOk(e, i) && !DirAt(e, i) && MayHold(d, C, i, Table(e, i))
    ensures Tree(e, Retable(C, i, Table(e, i))) && Replaced(d, e, r, ObjAt(e, i))
    ensures forall q: Path :: Walk(d, q).Ok? || Walk(e, q).Ok? ==> Walk(e, q) == Walk(d, q)
  {
    hide *;
    WalkIsPath(d, C, r);
    RetableTree(d, C, e, i);
    RetableNames(d, C, e, i);
    forall j | Ino(C, j) && j != i
      ensures ObjAt(e, j) == ObjAt(d, j)
    {
      RetableObj(d, C, e, i, j);
    }
    EditNamespace(d, C, e, Retable(C, i, Table(e, i)), i, r);
  }

  // ---- truncate ----

  /** Success replaces just the object at r and uses up n blocks less; a failure changes nothing. */
  ghost predicate EditResult(s: Fs, C: Cert, o: Outcome, D: Cert, r: Path, obj: Obj, more: nat, less: nat) {
    && Loses(s.bitmap, C, o.bitmap, D, {})
    && (if o.code >= 0 then Replaced(s.disk, After(s, o).disk, r, obj) && |D.Keys| + less == |C.Keys| + more
        else Untouched(s, C, o, D))
  }

  lemma EditError(s: Fs, C: Cert, code: int, r: Path, obj: Obj, more: nat, less: nat)
    requires Inv(s, C) && code < 0
    ensures Sound(s, C, Err(s, code), C, 1) && EditResult(s, C, Err(s, code), C, r, obj, more, less)
  {
    hide Bit, Tree, Agree;
    NoWrites(s.disk, C);
    AgreeItself(s.disk, C);
  }

  /** The empty table: what is left of the certificate when a file loses its blocks. */
  lemma EmptyTable(d: Disk, C: Cert, i: nat)
    requires Tree(d, C) && Ino(C, i)
    ensures Retable(C, i, []).Keys == C.Keys - Members(Table(d, i)) && |Members(Table(d, i))| == Span(d, i)
    ensures Members(Table(d, i)) <= C.Keys
  {
    BlocksOfCert(d, C, i);
    assert forall b :: b in Members(Table(d, i)) <==> IsData(C, b) && C[b].owner == i by {
      forall b ensures b in Members(Table(d, i)) <==> IsData(C, b) && C[b].owner == i {
        assert b in BlocksOf(d, i) <==> b == i || b in Members(Table(d, i));
        if b in Table(d, i) {
          var k := IndexOf(Table(d, i), b);
          assert Ptr(d, i, k) == b;
        }
      }
    }
    MembersSize(Table(d, i));
  }

  /** The inode x of an empty file is written to block i. */
  predicate Empties(w: Write, i: nat, x: Inode) {
    w.lba == i && w.data.inode == x && x.size == 0 && IsReg(x.mode)
  }

  lemma TruncatedImage(d: Disk, C: Cert, i: nat, w: Write, x: Inode)
    requires Tree(d, C) && Ino(C, i) && !DirAt(d, i) && Empties(w, i, x)
    ensures var e := Put(d, w.lba, w.data);
      && |e| == |d| && AgreeExcept(d, e, C, i) && NodeOk(e, i) && !DirAt(e, i) && Table(e, i) == []
      && MayHold(d, C, i, [])
      && ObjAt(e, i) == File(AttrOf(x), []) && SameTop(d, e)
  {
    assert i in C && 2 <= i < |d|;
    var e := Put(d, i, w.data);
    assert Table(e, i) == [] && Content(e, i) == [];
  }

  lemma RetableSafe(d: Disk, C: Cert, e: Disk, D: Cert)
    requires Safe(d, C) && Tree(e, D) && SameTop(d, e) && |e| == |d| && D.Keys <= C.Keys
    ensures Safe(e, D)
  {
    hide Tree, Bit;
    forall b | b in D ensures OnDisk(e, b) { assert b in D.Keys; }
  }

  lemma ReplacedThenFlush(d: Disk, e: Disk, f: Disk, D: Cert, r: Path, o: Obj)
    requires Replaced(d, e, r, o) && Tree(e, D) && Agree(e, f, D)
    ensures Replaced(d, f, r, o)
  {
    hide Tree, Lookup, Agree;
    forall q: Path
      ensures Lookup(f, q) == Lookup(e, q) && (Walk(e, q).Ok? || Walk(f, q).Ok? ==> Walk(f, q) == Walk(e, q))
    {
      AgreeLookup(e, f, D, q);
    }
  }

  lemma TruncateTree(d: Disk, C: Cert, i: nat, r: Path, w: Write, x: Inode)
    requires Safe(d, C) && Tree(d, C) && Walk(d, r) == Ok(i) && !DirAt(d, i) && Empties(w, i, x)
    ensures var e, D := Put(d, w.lba, w.data), Retable(C, i, []);
      Ino(C, i) && Safe(e, D) && Tree(e, D) && Replaced(d, e, r, File(AttrOf(x), []))
  {
    hide *;
    WalkIsPath(d, C, r);
    TruncatedImage(d, C, i, w, x);
    FileChanges(d, C, Put(d, w.lba, w.data), i, r);
    EmptyTable(d, C, i);
    RetableSafe(d, C, Put(d, w.lba, w.data), Retable(C, i, []));
  }

  lemma TruncateWrites(s: Fs, C: Cert, i: nat, r: Path, w: Write, v: Write, x: Inode)
    requires Inv(s, C) && Walk(s.disk, r) == Ok(i) && !DirAt(s.disk, i) && Empties(w, i, x)
    requires v.lba == 1 && Clears(s, v.data.bytes, Members(Table(s.disk, i)))
    ensures var o := Outcome(0, [w, v], v.data.bytes); var D := Retable(C, i, []);
      Sound(s, C, o, D, 1) && EditResult(s, C, o, D, r, File(AttrOf(x), []), 0, Span(s.disk, i))
  {
    var d, D, bm := s.disk, Retable(C, i, []), v.data.bytes;
    var o := Outcome(0, [w, v], bm);
    var e := Put(d, w.lba, w.data);
    assert Tree(d, C) && Safe(d, C);
    assert After(s, o) == Fs(Put(e, 1, v.data), bm) by { ApplyTwo(d, w, v); }
    hide *;
    TruncateTree(d, C, i, r, w, x);
    TruncateSlack(s, C, i, bm);
    FlushedInv(e, D, bm, v);
    StagesMoveFirst(d, C, w, D, v);
    ReplacedThenFlush(d, e, Put(e, 1, v.data), D, r, File(AttrOf(x), []));
    SoundIs(s, C, o, D, 1);
    IsEdit(s, C, o, D, r, File(AttrOf(x), []), 0, Span(d, i));
  }

  lemma IsEdit(s: Fs, C: Cert, o: Outcome, D: Cert, r: Path, obj: Obj, more: nat, less: nat)
    requires Loses(s.bitmap, C, o.bitmap, D, {}) && o.code >= 0 && Replaced(s.disk, After(s, o).disk, r, obj)
    requires |D.Keys| + less == |C.Keys| + more
    ensures EditResult(s, C, o, D, r, obj, more, less)
  {
    hide Loses, Replaced;
  }

  lemma TruncateSlack(s: Fs, C: Cert, i: nat, bm: Block)
    requires Inv(s, C) && Ino(C, i) && Clears(s, bm, Members(Table(s.disk, i)))
    ensures Loses(s.bitmap, C, bm, Retable(C, i, []), {}) && |Retable(C, i, []).Keys| + Span(s.disk, i) == |C.Keys|
    ensures Bit(bm, 0) && Bit(bm, 1) && forall b :: b in Retable(C, i, []) ==> Bit(bm, b)
  {
    assert Tree(s.disk, C);
    hide *;
    EmptyTable(s.disk, C, i);
    InvMarks(s, C);
    var B := Members(Table(s.disk, i));
    assert forall b :: b in B ==> b in C.Keys;
    SlackSets(s, C, bm, Retable(C, i, []), B, B);
    assert B - B == {};
  }

  /** The inode number a path translates to, or 0. */
  function TargetOf(d: Disk, comps: seq<Str>): nat { if Translate(d, comps).Ok? then Translate(d, comps).inum else 0 }

  lemma TruncateShape(s: Fs, comps: seq<Str>, len: int, now: nat)
    ensures var t, i := Translate(s.disk, comps), TargetOf(s.disk, comps);
      var bm := ClearAll(s.bitmap, Table(s.disk, i));
      Truncate(s, comps, len, now) ==
        if len != 0 then Err(s, EINVAL)
        else if t.Fail? then Err(s, t.code)
        else if DirAt(s.disk, i) then Err(s, EISDIR)
        else Outcome(0, [Write(i, InodeSector(Emptied(Node(s.disk, i), now))), Flush(bm)], bm)
  {
    hide Translate, DirAt, Err, Table, ClearAll, Read, InodeSector, Emptied;
  }

  lemma EmptiedFacts(d: Disk, C: Cert, i: nat, now: nat)
    requires Tree(d, C) && Ino(C, i) && !DirAt(d, i)
    ensures var x := Emptied(Node(d, i), now);
      Empties(Write(i, InodeSector(x)), i, x) && AttrOf(x) == AttrOf(Node(d, i)).(mtime := now % 0x1_0000_0000)
  {
    hide EncodeInode, DecodeDirents;
    assert NodeOk(d, i);
  }

  /** The object truncate leaves behind. */
  function TruncatedObj(d: Disk, i: nat, now: nat): Obj {
    File(AttrOf(Node(d, i)).(mtime := now % 0x1_0000_0000), [])
  }

  lemma FlushIsWrite(bm: Block)
    ensures Flush(bm).lba == 1 && Flush(bm).data.bytes == bm
  {
    hide DecodeInode, DecodeDirents;
  }

  /** truncate to 0 makes the file that the path leads to empty and frees all its blocks; any other length, and any
      failure, changes nothing. */
  lemma TruncateKeeps(s: Fs, C: Cert, comps: seq<Str>, len: int, now: nat) returns (D: Cert)
    requires Inv(s, C)
    ensures Sound(s, C, Truncate(s, comps, len, now), D, 1)
    ensures var i := TargetOf(s.disk, comps);
      EditResult(s, C, Truncate(s, comps, len, now), D, Target(comps), TruncatedObj(s.disk, i, now), 0, Span(s.disk, i))
    ensures D == C || D == Retable(C, TargetOf(s.disk, comps), [])
  {
    assert EINVAL < 0 && EISDIR < 0 && Tree(s.disk, C);
    hide *;
    TruncateShape(s, comps, len, now);
    TraceFailsNegative(s.disk, comps);
    var t, i, r := Translate(s.disk, comps), TargetOf(s.disk, comps), Target(comps);
    var obj := TruncatedObj(s.disk, i, now);
    if len != 0 || t.Fail? || DirAt(s.disk, i) {
      D := C;
      EditError(s, C, if len != 0 then EINVAL else if t.Fail? then t.code else EISDIR, r, obj, 0, Span(s.disk, i));
    } else {
      TargetIs(s.disk, comps);
      TargetWalks(s.disk, C, comps);
      UnlinkClears(s, C, i);
      EmptiedFacts(s.disk, C, i, now);
      var bm, x := ClearAll(s.bitmap, Table(s.disk, i)), Emptied(Node(s.disk, i), now);
      FlushIsWrite(bm);
      D := Retable(C, i, []);
      TruncateWrites(s, C, i, r, Write(i, InodeSector(x)), Flush(bm), x);
      assert obj == File(AttrOf(x), []) by { TruncatedIs(s.disk, C, i, now); }
    }
  }

  lemma TargetIs(d: Disk, comps: seq<Str>)
    ensures Translate(d, comps).Ok? ==> TargetOf(d, comps) == Translate(d, comps).inum
  {}

  lemma TruncatedIs(d: Disk, C: Cert, i: nat, now: nat)
    requires Tree(d, C) && Ino(C, i) && !DirAt(d, i)
    ensures TruncatedObj(d, i, now) == File(AttrOf(Emptied(Node(d, i), now)), [])
  {
    EmptiedFacts(d, C, i, now);
  }

  // ---- chmod and utime ----

  /** An inode that keeps its kind, size and table. */
  predicate SameShape(x: Inode, y: Inode) {
    x.size == y.size && x.ptrs == y.ptrs && (IsDir(x.mode) <==> IsDir(y.mode)) && (IsReg(x.mode) <==> IsReg(y.mode))
  }

  lemma TouchTree(d: Disk, C: Cert, i: nat, w: Write)
    requires Tree(d, C) && Ino(C, i) && w.lba == i && SameShape(Node(d, i), w.data.inode)
    ensures Tree(Put(d, i, w.data), C) && SameNames(d, C, Put(d, i, w.data), C) && SameTop(d, Put(d, i, w.data))
  {
    var e := Put(d, i, w.data);
    forall j | Ino(C, j) ensures SameIno(d, e, j) { }
    forall j, k | Ino(C, j) && DirAt(d, j) && 0 <= k < Slots(d, j)
      ensures Ent(e, j, k) == Ent(d, j, k)
    {
      assert k / 128 < Span(d, j);
      assert C[Ptr(d, j, k / 128)] == Data(j, k / 128);
    }
    hide Ent, Slots, Span, Ptr, DirAt, NodeOk, Put, CStr;
    SameTreeTree(d, e, C);
    forall j | IsEntry(C, j)
      ensures NameAt(e, C[j].parent, C[j].slot) == NameAt(d, C[j].parent, C[j].slot)
    {
      assert LinkedAt(d, C, j);
    }
  }

  lemma TouchObj(d: Disk, C: Cert, i: nat, w: Write, j: nat)
    requires Tree(d, C) && Ino(C, i) && w.lba == i && SameShape(Node(d, i), w.data.inode) && Ino(C, j)
    ensures var e := Put(d, i, w.data); var y := w.data.inode;
      ObjAt(e, j) == if j != i then ObjAt(d, j) else if DirAt(d, i) then Dir(AttrOf(y))
          else File(AttrOf(y), Content(d, i))
  {
    var e := Put(d, i, w.data);
    hide Links, Linked, Names, Owned;
    if !DirAt(d, j) {
      forall x: nat | x < Node(d, j).size
        ensures At(e, Ptr(e, j, x / 4096)) == At(d, Ptr(d, j, x / 4096))
      {
        assert x / 4096 < Span(d, j);
        assert C[Ptr(d, j, x / 4096)] == Data(j, x / 4096);
      }
      assert Content(e, j) == Content(d, j);
    }
  }

  /** The object with its attributes replaced. */
  function WithAttr(o: Obj, a: Attr): Obj { if o.Dir? then Dir(a) else File(a, o.bytes) }

  lemma TouchWrites(s: Fs, C: Cert, i: nat, r: Path, w: Write)
    requires Inv(s, C) && Walk(s.disk, r) == Ok(i) && w.lba == i && SameShape(Node(s.disk, i), w.data.inode)
    ensures var o := Outcome(0, [w], s.bitmap);
      && Sound(s, C, o, C, 1)
      && EditResult(s, C, o, C, r, WithAttr(ObjAt(s.disk, i), AttrOf(w.data.inode)), 0, 0)
  {
    hide *;
    var d := s.disk;
    var e := Put(d, i, w.data);
    var o := Outcome(0, [w], s.bitmap);
    InvParts(s, C);
    ApplyOne(d, w);
    AfterIs(s, o);
    WalkIsPath(d, C, r);
    TouchTree(d, C, i, w);
    forall j | Ino(C, j) ensures ObjAt(e, j) == if j != i then ObjAt(d, j)
        else WithAttr(ObjAt(d, i), AttrOf(w.data.inode)) {
      TouchOne(d, C, i, w, j);
    }
    EditNamespace(d, C, e, C, i, r);
    TouchSafe(s, C, e);
    NoWrites(d, C);
    StagesMove(d, [], C, w, C);
    CleanKept(s, e);
    SoundIs(s, C, o, C, 1);
    IsEdit(s, C, o, C, r, WithAttr(ObjAt(d, i), AttrOf(w.data.inode)), 0, 0);
  }

  lemma TouchOne(d: Disk, C: Cert, i: nat, w: Write, j: nat)
    requires Tree(d, C) && Ino(C, i) && w.lba == i && SameShape(Node(d, i), w.data.inode) && Ino(C, j)
    ensures ObjAt(Put(d, i, w.data), j) == if j != i then ObjAt(d, j) else WithAttr(ObjAt(d, i), AttrOf(w.data.inode))
  {
    TouchObj(d, C, i, w, j);
    hide Tree, Content;
  }

  lemma TouchSafe(s: Fs, C: Cert, e: Disk)
    requires Inv(s, C) && Tree(e, C) && SameTop(s.disk, e) && |e| == |s.disk|
    ensures Safe(e, C) && Inv(Fs(e, s.bitmap), C) && Loses(s.bitmap, C, s.bitmap, C, {})
  {
    hide Tree, Bit;
  }

  lemma ChmodShape(n: Inode, mode: nat)
    ensures SameShape(n, ChmodInode(n, mode))
    ensures AttrOf(ChmodInode(n, mode)) == AttrOf(n).(mode := PermMode(n.mode, mode))
  {
    var y := n.mode / 0x1000 % 16;
    assert (y * 0x1000 + mode % 0x200) / 0x1000 == y;
  }

  /** The binary digits of a mode after chmod: the nine permission bits are the given ones, the four of the kind are
      those of before, and all others are 0. */
  ghost predicate NewPerms(was: nat, mode: nat, m: nat) {
    forall j: nat ::
      BinaryDigit(m, j) == if j < 9 then BinaryDigit(mode, j) else if 12 <= j < 16 then BinaryDigit(was, j) else 0
  }

  lemma PermDigits(was: nat, mode: nat)
    ensures NewPerms(was, mode, PermMode(was, mode))
  {
    var m, y, p := PermMode(was, mode), was / 4096 % 16, mode % 512;
    assert m == 4096 * y + p && mode == 512 * (mode / 512) + p && was == 4096 * (was / 4096) + was % 4096 &&
        was / 4096 == 16 * (was / 4096 / 16) + y;
    hide *;
    forall j: nat
      ensures BinaryDigit(m, j) ==
          if j < 9 then BinaryDigit(mode, j) else if 12 <= j < 16 then BinaryDigit(was, j) else 0
    {
      LowPerms(m, 8 * y, p, mode, mode / 512, j);
      if j >= 12 { KindDigits(m, y, p, was, was / 4096 / 16, was % 4096, j); }
    }
    AreNewPerms(was, mode, m);
  }

  lemma AreNewPerms(was: nat, mode: nat, m: nat)
    requires forall j: nat ::
      BinaryDigit(m, j) == if j < 9 then BinaryDigit(mode, j) else if 12 <= j < 16 then BinaryDigit(was, j) else 0
    ensures NewPerms(was, mode, m)
  {
    hide BinaryDigit;
  }

  lemma LowPerms(m: nat, y: nat, p: nat, mode: nat, q: nat, j: nat)
    requires m == 512 * y + p && mode == 512 * q + p && p < 512
    ensures j < 9 ==> BinaryDigit(m, j) == BinaryDigit(mode, j)
    ensures 9 <= j < 12 && y % 8 == 0 ==> BinaryDigit(m, j) == 0
  {
    Powers();
    hide Weight, BinaryDigit;
    DigitsJoin(9, y, p, j);
    DigitsJoin(9, q, p, j);
    if j >= 9 {
      DigitsJoin(3, y / 8, 0, j - 9);
      DigitsEnd(0, 0, j - 9);
    }
  }

  lemma KindDigits(m: nat, y: nat, p: nat, was: nat, q: nat, low: nat, j: nat)
    requires m == 4096 * y + p && p < 4096 && was == 4096 * (16 * q + y) + low && low < 4096 && y < 16 && j >= 12
    ensures BinaryDigit(m, j) == if j < 16 then BinaryDigit(was, j) else 0
  {
    Powers();
    hide Weight, BinaryDigit;
    DigitsJoin(12, y, p, j);
    DigitsJoin(12, 16 * q + y, low, j);
    DigitsJoin(4, q, y, j - 12);
    if j >= 16 { DigitsEnd(4, y, j - 12); }
  }

  lemma Powers()
    ensures Weight(0) == 1 && Weight(3) == 8 && Weight(4) == 16 && Weight(9) == 512 && Weight(12) == 4096
  {}

  lemma UtimeShape(n: Inode, t: nat)
    ensures SameShape(n, n.(mtime := t % 0x1_0000_0000))
    ensures AttrOf(n.(mtime := t % 0x1_0000_0000)) == AttrOf(n).(mtime := t % 0x1_0000_0000)
  {}

  /** What rewriting the inode y of the target of a path amounts to. */
  function Touched(s: Fs, comps: seq<Str>, y: Inode): Outcome {
    match Translate(s.disk, comps)
    case Fail(e) => Err(s, e)
    case Ok(i) => Outcome(0, [Write(i, InodeSector(y))], s.bitmap)
  }

  lemma ChmodIs(s: Fs, comps: seq<Str>, mode: nat)
    ensures Chmod(s, comps, mode) == Touched(s, comps, ChmodInode(Node(s.disk, TargetOf(s.disk, comps)), mode))
  {
    hide Translate, InodeSector, Err, Node, ChmodInode;
  }

  lemma UtimeIs(s: Fs, comps: seq<Str>, modtime: nat)
    ensures Utime(s, comps, modtime) == Touched(s, comps,
        Node(s.disk, TargetOf(s.disk, comps)).(mtime := modtime % 0x1_0000_0000))
  {
    hide Translate, InodeSector, Err, Node;
  }

  /** chmod changes the permission bits of the one object, keeps its kind, and does not store a new mtime. */
  lemma ChmodKeeps(s: Fs, C: Cert, comps: seq<Str>, mode: nat)
    requires Inv(s, C)
    ensures Sound(s, C, Chmod(s, comps, mode), C, 1)
    ensures var i := TargetOf(s.disk, comps); var n := Node(s.disk, i);
      var m, o := PermMode(n.mode, mode), Chmod(s, comps, mode);
      && EditResult(s, C, o, C, Target(comps), WithAttr(ObjAt(s.disk, i), AttrOf(n).(mode := m)), 0, 0)
      && NewPerms(n.mode, mode, m)
  {
    ChmodIs(s, comps, mode);
    hide *;
    ChmodShape(Node(s.disk, TargetOf(s.disk, comps)), mode);
    PermDigits(Node(s.disk, TargetOf(s.disk, comps)).mode, mode);
    TouchKeeps(s, C, comps, ChmodInode(Node(s.disk, TargetOf(s.disk, comps)), mode));
  }

  lemma UtimeKeeps(s: Fs, C: Cert, comps: seq<Str>, modtime: nat)
    requires Inv(s, C)
    ensures Sound(s, C, Utime(s, comps, modtime), C, 1)
    ensures var i := TargetOf(s.disk, comps);
      EditResult(s, C, Utime(s, comps, modtime), C, Target(comps),
                 WithAttr(ObjAt(s.disk, i), AttrOf(Node(s.disk, i)).(mtime := modtime % 0x1_0000_0000)), 0, 0)
  {
    UtimeIs(s, comps, modtime);
    hide *;
    UtimeShape(Node(s.disk, TargetOf(s.disk, comps)), modtime);
    TouchKeeps(s, C, comps, Node(s.disk, TargetOf(s.disk, comps)).(mtime := modtime % 0x1_0000_0000));
  }

  /** Rewriting the inode a path leads to, shape kept. */
  lemma TouchKeeps(s: Fs, C: Cert, comps: seq<Str>, y: Inode)
    requires Inv(s, C) && SameShape(Node(s.disk, TargetOf(s.disk, comps)), y)
    ensures var i, o := TargetOf(s.disk, comps), Touched(s, comps, y);
      && Sound(s, C, o, C, 1) && EditResult(s, C, o, C, Target(comps), WithAttr(ObjAt(s.disk, i), AttrOf(y)), 0, 0)
  {
    TouchedIs(s, comps, y);
    hide *;
    InvParts(s, C);
    var t, i, r := Translate(s.disk, comps), TargetOf(s.disk, comps), Target(comps);
    TraceFailsNegative(s.disk, comps);
    TargetIs(s.disk, comps);
    if t.Fail? {
      EditError(s, C, t.code, r, WithAttr(ObjAt(s.disk, i), AttrOf(y)), 0, 0);
    } else {
      TargetWalks(s.disk, C, comps);
      TouchWrites(s, C, i, r, Write(i, InodeSector(y)));
    }
  }

  lemma TouchedIs(s: Fs, comps: seq<Str>, y: Inode)
    ensures InodeSector(y).inode == y
    ensures Touched(s, comps, y) ==
      var t := Translate(s.disk, comps);
      if t.Fail? then Err(s, t.code) else Outcome(0, [Write(t.inum, InodeSector(y))], s.bitmap)
  {
    hide EncodeInode, DecodeDirents, Translate;
  }
}
