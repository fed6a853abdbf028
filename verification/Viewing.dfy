/** The operations that change nothing: getattr, readdir, read and statfs. */
module Viewing {
  import opened Format
  import opened Image
  import opened Paths
  import opened Ops
  import opened Keep
  import opened Change
  import opened Making
  import opened Removing
  import opened Editing
  import opened Writing
  import opened Codes

  datatype Result<+T> = Good(value: T) | Bad(code: int)

  // ---- read ----

  /** At most len bytes of c from off on. */
  function Slice(c: Str, off: nat, len: nat): Str {
    if off >= |c| then [] else c[off..if off + len > |c| then |c| else off + len]
  }

  /** fs_read; the return code of a good read is the number of its bytes. */
  function ReadFile(d: Disk, comps: seq<Str>, len: nat, off: nat): Result<Str> {
    match Translate(d, comps)
    case Fail(e) => Bad(e)
    case Ok(i) => if !IsReg(Node(d, i).mode) then Bad(EISDIR) else Good(Slice(Content(d, i), off, len))
  }

  function Sum(sizes: seq<nat>): nat { if sizes == [] then 0 else sizes[0] + Sum(sizes[1..]) }

  /** A client that reads on from where the last read ended. */
  function ReadOn(d: Disk, comps: seq<Str>, sizes: seq<nat>, off: nat): Result<Str> {
    if sizes == [] then Good([])
    else match ReadFile(d, comps, sizes[0], off)
      case Bad(e) => Bad(e)
      case Good(a) => match ReadOn(d, comps, sizes[1..], off + |a|)
        case Bad(e) => Bad(e)
        case Good(b) => Good(a + b)
  }

  lemma SlicesJoin(c: Str, off: nat, m: nat, n: nat)
    ensures var a := Slice(c, off, m); a + Slice(c, off + |a|, n) == Slice(c, off, m + n)
  {}

  /** Reading on in chunks of any sizes gives what one read of their sum gives. */
  lemma {:induction false} ChunkedRead(d: Disk, comps: seq<Str>, sizes: seq<nat>, off: nat)
    requires Translate(d, comps).Ok? && IsReg(Node(d, Translate(d, comps).inum).mode)
    ensures ReadOn(d, comps, sizes, off) == ReadFile(d, comps, Sum(sizes), off)
  {
    hide Content, Translate, IsReg, Slice;
    var c := Content(d, Translate(d, comps).inum);
    if sizes == [] {
      assert Slice(c, off, 0) == [] by { SlicesJoin(c, off, 0, 0); EmptySlice(c, off); }
    } else {
      var a := Slice(c, off, sizes[0]);
      ChunkedRead(d, comps, sizes[1..], off + |a|);
      SlicesJoin(c, off, sizes[0], Sum(sizes[1..]));
    }
  }

  lemma EmptySlice(c: Str, off: nat)
    ensures Slice(c, off, 0) == []
  {}

  /** Reading from the start in positive chunks until they cover the file gives the whole file. */
  lemma WholeFile(d: Disk, comps: seq<Str>, sizes: seq<nat>)
    requires Translate(d, comps).Ok? && IsReg(Node(d, Translate(d, comps).inum).mode)
    requires Sum(sizes) >= |Content(d, Translate(d, comps).inum)|
    ensures ReadOn(d, comps, sizes, 0) == Good(Content(d, Translate(d, comps).inum))
  {
    hide Content, Translate, IsReg;
    ChunkedRead(d, comps, sizes, 0);
    var c := Content(d, Translate(d, comps).inum);
    assert Slice(c, 0, Sum(sizes)) == c;
  }

  /** A read shows the namespace: the bytes of the file that the path leads to, EISDIR for a directory. */
  lemma ReadShows(d: Disk, C: Cert, comps: seq<Str>, len: nat, off: nat)
    requires Tree(d, C)
    ensures var g, x := ReadFile(d, comps, len, off), Lookup(d, Target(comps));
      if Translate(d, comps).Fail? then g == Bad(Translate(d, comps).code)
      else x.Some? && g == if x.value.Dir? then Bad(EISDIR) else Good(Slice(x.value.bytes, off, len))
  {
    if Translate(d, comps).Ok? {
      var i := Translate(d, comps).inum;
      TargetWalks(d, C, comps);
      assert Lookup(d, Target(comps)) == Some(ObjAt(d, i));
      assert NodeOk(d, i);
      assert DirAt(d, i) <==> !IsReg(Node(d, i).mode);
    }
  }

  // ---- reading what was written ----

  /** Where no walk changes, translate's cursor does not either. */
  lemma {:induction false} TraceSame(d: Disk, e: Disk, c: seq<Str>)
    requires Trace(d, c).On? && forall q: Path :: Walk(d, q).Ok? ==> Walk(e, q) == Walk(d, q)
    ensures Trace(e, c) == Trace(d, c)
  {
    hide Step, Dot, DotDot, Walk;
    if c != [] {
      TraceSame(d, e, Front(c));
      var q, n := Land(Front(c)).cur, Last(c);
      TraceLands(d, Front(c));
      TraceLands(e, Front(c));
      WalkOn(d, q, n);
      WalkOn(e, q, n);
    }
  }

  lemma SameTail(x: Str, y: Str, k: nat, a: nat, b: nat)
    requires k <= a <= b && b <= |x| && b <= |y| && x[k..] == y[k..]
    ensures x[a..b] == y[a..b]
  {
    forall j | a <= j < b
      ensures x[j] == y[j]
    {
      assert x[j] == x[k..][j - k] && y[j] == y[k..][j - k];
    }
  }

  /** Before the written bytes nothing changes ... */
  lemma SplicedBefore(c: Str, off: nat, data: Str, at: nat, len: nat)
    requires off <= |c| && at + len <= off
    ensures Slice(Spliced(c, off, data), at, len) == Slice(c, at, len)
  {
    var x := Spliced(c, off, data);
    SplicedSize(c, off, data);
    assert x[..off] == c[..off];
    forall j | at <= j < at + len
      ensures x[j] == c[j]
    {
      assert x[j] == x[..off][j] && c[j] == c[..off][j];
    }
  }

  /** ... nor behind them. */
  lemma SplicedBehind(c: Str, off: nat, data: Str, at: nat, len: nat)
    requires off <= |c| && off + |data| <= at
    ensures Slice(Spliced(c, off, data), at, len) == Slice(c, at, len)
  {
    var x, k := Spliced(c, off, data), off + |data|;
    SplicedSize(c, off, data);
    if at < |c| {
      assert x[k..] == c[k..];
      SameTail(x, c, k, at, if at + len > |c| then |c| else at + len);
    }
  }

  lemma SplicedThere(c: Str, off: nat, data: Str)
    requires off <= |c|
    ensures Slice(Spliced(c, off, data), off, |data|) == data
  {
    SplicedSize(c, off, data);
  }

  /** After a write that succeeds, reading the same path where the data went returns the data, and reading it elsewhere
      returns what it returned before. */
  lemma ReadBack(s: Fs, C: Cert, comps: seq<Str>, data: Str, off: nat, now: nat, at: nat, len: nat)
    requires Inv(s, C) && Bounded(s, comps, off, |data|) && WriteFile(s, comps, data, off, now).code >= 0
    ensures var e := After(s, WriteFile(s, comps, data, off, now)).disk;
      && ReadFile(e, comps, |data|, off) == Good(data)
      && (at + len <= off || off + |data| <= at ==> ReadFile(e, comps, len, at) == ReadFile(s.disk, comps, len, at))
  {
    hide *;
    var d, i, o := s.disk, TargetOf(s.disk, comps), WriteFile(s, comps, data, off, now);
    var e, c := After(s, o).disk, Content(d, i);
    InvParts(s, C);
    TargetIs(d, comps);
    var D := WriteKeeps(s, C, comps, data, off, now);
    WriteReplaces(s, C, o, D, Target(comps), WrittenObj(d, i, off, data, now), |NewBlocks(s, i, off, |data|).blocks|);
    CanWriteInside(s, i, off, |data|);
    ContentSize(d, i);
    TargetWalks(d, C, comps);
    ReplacedReads(d, e, comps, Target(comps), WrittenObj(d, i, off, data, now));
    InvParts(After(s, o), D);
    ReadShows(d, C, comps, len, at);
    ReadShows(e, D, comps, len, at);
    ReadShows(e, D, comps, |data|, off);
    WrittenBytes(d, i, off, data, now, Target(comps));
    SplicedThere(c, off, data);
    if at + len <= off { SplicedBefore(c, off, data, at, len); }
    if off + |data| <= at { SplicedBehind(c, off, data, at, len); }
  }

  lemma ReplacedReads(d: Disk, e: Disk, comps: seq<Str>, r: Path, o: Obj)
    requires Replaced(d, e, r, o) && Translate(d, comps).Ok?
    ensures Lookup(e, r) == Some(o) && Translate(e, comps) == Translate(d, comps)
  {
    hide Walk, Lookup, Trace;
    TraceSame(d, e, comps);
  }

  lemma WrittenBytes(d: Disk, i: nat, off: nat, data: Str, now: nat, r: Path)
    requires off <= |Content(d, i)| && Walk(d, r) == Ok(i) && !DirAt(d, i)
    ensures var o := WrittenObj(d, i, off, data, now); o.File? && o.bytes == Spliced(Content(d, i), off, data)
    ensures Lookup(d, r) == Some(ObjAt(d, i)) && ObjAt(d, i).File? && ObjAt(d, i).bytes == Content(d, i)
  {
    hide Content, Spliced, Walk, DirAt;
  }

  // ---- getattr and readdir ----

  datatype Stat = Stat(uid: nat, gid: nat, mode: nat, size: int, nlink: nat, atime: nat, mtime: nat, ctime: nat,
      blocks: nat)

  /** setstat. */
  function StatOf(n: Inode): Stat { Stat(n.uid, n.gid, n.mode, n.size, 1, n.mtime, n.mtime, n.ctime, Blocks(n.size)) }

  function Getattr(d: Disk, comps: seq<Str>): Result<Stat> {
    match Translate(d, comps)
    case Fail(e) => Bad(e)
    case Ok(i) => Good(StatOf(Node(d, i)))
  }

  /** What a stat says of the object at q, inode i. The size of a file is the number of its bytes and its block count
      the least that holds them; a directory counts the blocks that it has as data, and its size is all of them. */
  ghost predicate StatShows(d: Disk, C: Cert, q: Path, i: nat, st: Stat) {
    && Lookup(d, q).Some?
    && var x := Lookup(d, q).value;
    && Attr(st.uid, st.gid, st.mode, st.ctime, st.mtime) == x.attr && st.nlink == 1 && st.atime == st.mtime
    && (x.File? ==>
          && st.size == |x.bytes| && st.size <= 4096 * st.blocks
          && forall n: nat :: st.size <= 4096 * n ==> st.blocks <= n)
    && (x.Dir? ==> st.blocks == |DataOf(C, i)| && st.size == 4096 * st.blocks && st.blocks > 0)
  }

  /** The blocks that the certificate gives inode i as data. */
  ghost function DataOf(C: Cert, i: nat): set<nat> { set b | b in C.Keys && C[b].Data? && C[b].owner == i }

  lemma DataCount(d: Disk, C: Cert, i: nat)
    requires Tree(d, C) && Ino(C, i)
    ensures |DataOf(C, i)| == Span(d, i)
  {
    BlocksOfCert(d, C, i);
    hide Tree, BlocksOf, Span;
    assert forall b :: IsData(C, b) <==> b in C.Keys && C[b].Data?;
    assert BlocksOf(d, i) == DataOf(C, i) + {i};
    assert i !in DataOf(C, i);
  }

  /** What setstat makes of a live inode. */
  lemma StatOfLive(d: Disk, C: Cert, q: Path, i: nat)
    requires Tree(d, C) && Walk(d, q) == Ok(i)
    ensures StatShows(d, C, q, i, StatOf(Node(d, i)))
  {
    WalkIsPath(d, C, q);
    DataCount(d, C, i);
    NodeIsOk(d, C, i);
    LeastBlocks(Node(d, i).size);
    hide Tree, Walk, DataOf, Blocks, Node;
  }

  lemma NodeIsOk(d: Disk, C: Cert, i: nat)
    requires Tree(d, C) && Ino(C, i)
    ensures NodeOk(d, i)
  {
    hide NodeOk, Bounds, Owns, Owned, Links, Linked, Names;
  }

  lemma LeastBlocks(size: int)
    ensures size <= 4096 * Blocks(size) && forall n: nat :: size <= 4096 * n ==> Blocks(size) <= n
    ensures size >= 4096 && size % 4096 == 0 ==> size == 4096 * Blocks(size) && Blocks(size) > 0
  {}

  /** getattr shows the object that the path leads to. */
  lemma GetattrShows(d: Disk, C: Cert, comps: seq<Str>)
    requires Tree(d, C) && Getattr(d, comps).Good?
    ensures Translate(d, comps).Ok?
    ensures StatShows(d, C, Target(comps), Translate(d, comps).inum, Getattr(d, comps).value)
  {
    TargetWalks(d, C, comps);
    hide Tree, Target, Walk, Translate, StatShows, StatOf, Node;
    StatOfLive(d, C, Target(comps), Translate(d, comps).inum);
  }

  /** getattr succeeds if and only if every name of the path is found where translate looks, so always on the root, and
      fails with the code of the first that is not. */
  lemma GetattrCodes(d: Disk, c: seq<Str>)
    ensures Getattr(d, c).Good? <==> Passes(d, c, |c|)
    ensures forall code :: Getattr(d, c) == Bad(code) <==> exists j :: StopsOn(d, c, j, code)
    ensures c == [] ==> Getattr(d, c).Good?
  {
    GetattrIs(d, c);
    hide *;
    TranslatePasses(d, c);
    if c == [] { NothingToPass(d, c); }
    forall code
      ensures Getattr(d, c) == Bad(code) <==> exists j :: StopsOn(d, c, j, code)
    {
      TranslateCodes(d, c, code);
    }
  }

  lemma GetattrIs(d: Disk, c: seq<Str>)
    ensures var t := Translate(d, c); Getattr(d, c) == if t.Fail? then Bad(t.code) else Good(StatOf(Node(d, t.inum)))
  {
    hide Translate, StatOf, Node;
  }

  /** On a path without dots: it succeeds exactly if the object is there, says ENOTDIR (-20) exactly if a file is in the
      way, and ENOENT (-2) exactly if a directory on the way lacks the next name. */
  lemma GetattrPlain(d: Disk, c: seq<Str>)
    requires Canonical(c)
    ensures Getattr(d, c).Good? <==> Lookup(d, c).Some?
    ensures Getattr(d, c) == Bad(-20) <==> exists m :: 0 <= m < |c| && FileFound(d, c[..m])
    ensures Getattr(d, c) == Bad(-2) <==>
      exists m :: 0 <= m < |c| && DirFound(d, c[..m]) && Lookup(d, c[..m + 1]) == None
  {
    GetattrIs(d, c);
    TranslateIsWalk(d, c);
    assert c[..|c|] == c;
    hide *;
    DirFoundIs(d, c);
    if Walk(d, c).Fail? {
      var m := WalkSays(d, c);
      StopsAtIs(d, c, m);
    }
    forall m | 0 <= m < |c|
      ensures FileFound(d, c[..m]) ==> Walk(d, c) == Fail(-20)
      ensures DirFound(d, c[..m]) && Lookup(d, c[..m + 1]) == None ==> Walk(d, c) == Fail(-2)
    {
      StopsFrom(d, c, m);
    }
  }

  lemma StopsAtIs(d: Disk, c: Path, m: nat)
    requires StopsAt(d, c, m)
    ensures m < |c| && Lookup(d, c[..m + 1]) == None
    ensures Walk(d, c) == Fail(if FileFound(d, c[..m]) then -20 else -2)
    ensures FileFound(d, c[..m]) || DirFound(d, c[..m])
  {
    DirFoundIs(d, c[..m]);
    hide Walk, DirAt, FileFound, DirFound, ObjAt;
  }

  /** A walk that has failed stays so. */
  lemma {:induction false} FailsOn(d: Disk, c: Path, m: nat)
    requires m <= |c| && Walk(d, c[..m]).Fail?
    ensures Walk(d, c) == Walk(d, c[..m])
    decreases |c|
  {
    hide Step;
    if m == |c| {
      assert c[..m] == c;
    } else {
      assert Front(c)[..m] == c[..m];
      FailsOn(d, Front(c), m);
    }
  }

  lemma StopsFrom(d: Disk, c: Path, m: nat)
    requires m < |c|
    ensures FileFound(d, c[..m]) ==> Walk(d, c) == Fail(-20)
    ensures DirFound(d, c[..m]) && Lookup(d, c[..m + 1]) == None ==> Walk(d, c) == Fail(-2)
  {
    assert c[..m + 1] == c[..m] + [c[m]];
    hide *;
    DirFoundIs(d, c[..m]);
    DirFoundIs(d, c[..m + 1]);
    if Walk(d, c[..m]).Ok? {
      var i := Walk(d, c[..m]).inum;
      WalkOn(d, c[..m], c[m]);
      StepCodes(d, i, c[m]);
      StepOnFile(d, i, c[m]);
      if Walk(d, c[..m + 1]).Fail? { FailsOn(d, c, m + 1); }
    }
  }

  lemma StepOnFile(d: Disk, i: nat, n: Str)
    ensures !DirAt(d, i) ==> Step(d, i, n).Fail?
  {
    hide DirAt, Find;
  }

  /** One call of the filler. */
  datatype Listed = Listed(name: Str, stat: Stat)

  /** The filler calls for the slots of directory i from k on. */
  function Listing(d: Disk, i: nat, k: nat): seq<Listed>
    decreases Slots(d, i) - k
  {
    if k >= Slots(d, i) then []
    else if !Ent(d, i, k).valid then Listing(d, i, k + 1)
    else [Listed(NameAt(d, i, k), StatOf(Node(d, Ent(d, i, k).inode)))] + Listing(d, i, k + 1)
  }

  function Readdir(d: Disk, comps: seq<Str>): Result<seq<Listed>> {
    match Translate(d, comps)
    case Fail(e) => Bad(e)
    case Ok(i) => if !DirAt(d, i) then Bad(ENOTDIR) else Good(Listing(d, i, 0))
  }

  /** The filler is called for exactly the valid slots. */
  lemma {:induction false} ListingIs(d: Disk, i: nat, k: nat, x: Listed)
    ensures x in Listing(d, i, k) <==>
      exists l: nat :: k <= l < Slots(d, i) && Ent(d, i, l).valid &&
          x == Listed(NameAt(d, i, l), StatOf(Node(d, Ent(d, i, l).inode)))
    decreases Slots(d, i) - k
  {
    hide Slots, Ent, NameAt, StatOf, Node;
    if k < Slots(d, i) {
      ListingIs(d, i, k + 1, x);
    }
  }

  /** ... in the order of the slots. */
  lemma {:induction false} ListingInOrder(d: Disk, i: nat, k: nat) returns (ks: seq<nat>)
    ensures |ks| == |Listing(d, i, k)| && forall a, b :: 0 <= a < b < |ks| ==> ks[a] < ks[b]
    ensures forall l: nat :: l in ks <==> k <= l < Slots(d, i) && Ent(d, i, l).valid
    ensures forall a :: 0 <= a < |ks| ==>
        Listing(d, i, k)[a] == Listed(NameAt(d, i, ks[a]), StatOf(Node(d, Ent(d, i, ks[a]).inode)))
    decreases Slots(d, i) - k
  {
    hide Slots, Ent, NameAt, StatOf, Node;
    ks := [];
    if k < Slots(d, i) {
      var rest := ListingInOrder(d, i, k + 1);
      if Ent(d, i, k).valid {
        assert forall a :: 0 <= a < |rest| ==> rest[a] in rest;
        ks := [k] + rest;
      } else {
        ks := rest;
      }
    }
  }

  /** No name is listed twice: one filler call per valid slot. */
  lemma {:induction false} ListedOnce(d: Disk, C: Cert, i: nat, k: nat)
    requires Tree(d, C) && Ino(C, i) && DirAt(d, i)
    ensures forall a, b :: 0 <= a < b < |Listing(d, i, k)| ==> Listing(d, i, k)[a].name != Listing(d, i, k)[b].name
    decreases Slots(d, i) - k
  {
    hide Slots, Ent, NameAt, StatOf, Node, Bounds, Nodes, Owns, Owned, Links, Linked, DirAt;
    if k < Slots(d, i) {
      ListedOnce(d, C, i, k + 1);
      if Ent(d, i, k).valid {
        forall x | x in Listing(d, i, k + 1)
          ensures x.name != NameAt(d, i, k)
        {
          ListingIs(d, i, k + 1, x);
          var l: nat :| k + 1 <= l < Slots(d, i) && Ent(d, i, l).valid &&
              x == Listed(NameAt(d, i, l), StatOf(Node(d, Ent(d, i, l).inode)));
          assert Live(d, C, i, k) && Live(d, C, i, l);
        }
      }
    }
  }

  /** A name is listed with a stat exactly when getattr of the name under the same path returns that stat. */
  lemma ListingAgrees(d: Disk, C: Cert, p: Path, n: Str, st: Stat)
    requires Tree(d, C) && Canonical(p + [n]) && Readdir(d, p).Good?
    ensures Listed(n, st) in Readdir(d, p).value <==> Getattr(d, p + [n]) == Good(st)
    ensures forall a, b :: 0 <= a < b < |Readdir(d, p).value| ==>
        Readdir(d, p).value[a].name != Readdir(d, p).value[b].name
  {
    assert forall j :: 0 <= j < |p| ==> p[j] == (p + [n])[j];
    TranslateIsWalk(d, p);
    TranslateIsWalk(d, p + [n]);
    WalkIsPath(d, C, p);
    var i := Walk(d, p).inum;
    hide Canonical, Plain, Translate;
    ListedOnce(d, C, i, 0);
    ListingIs(d, i, 0, Listed(n, st));
    WalkOn(d, p, n);
    hide Walk, Ent, Slots, StatOf;
    if Find(d, i, n, 0).Hit? {
      var k := Find(d, i, n, 0).slot;
      forall l: nat | l < Slots(d, i) && Ent(d, i, l).valid && NameAt(d, i, l) == n
        ensures l == k
      {
        assert Live(d, C, i, l) && Live(d, C, i, k);
      }
    }
  }

  /** Every stat that readdir passes to the filler shows the object of that name under the path. */
  lemma ListingShows(d: Disk, C: Cert, c: seq<Str>, x: Listed) returns (i: nat)
    requires Tree(d, C) && Readdir(d, c).Good? && x in Readdir(d, c).value
    ensures Walk(d, Target(c) + [x.name]) == Ok(i) && StatShows(d, C, Target(c) + [x.name], i, x.stat)
  {
    ReaddirShape(d, c);
    hide *;
    TargetWalks(d, C, c);
    var j := Translate(d, c).inum;
    i := ListedEntry(d, C, Target(c), j, x);
    StatOfLive(d, C, Target(c) + [x.name], i);
  }

  lemma ListedEntry(d: Disk, C: Cert, q: Path, j: nat, x: Listed) returns (i: nat)
    requires Tree(d, C) && Walk(d, q) == Ok(j) && DirAt(d, j) && x in Listing(d, j, 0)
    ensures Walk(d, q + [x.name]) == Ok(i) && x.stat == StatOf(Node(d, i))
  {
    WalkIsPath(d, C, q);
    WalkOn(d, q, x.name);
    ListingIs(d, j, 0, x);
    hide Walk, Slots, StatOf, Node;
    var k: nat :| k < Slots(d, j) && Ent(d, j, k).valid &&
        x == Listed(NameAt(d, j, k), StatOf(Node(d, Ent(d, j, k).inode)));
    i := Ent(d, j, k).inode;
    assert Live(d, C, j, k);
    StepFinds(d, C, j, k);
  }

  lemma ReaddirShape(d: Disk, c: seq<Str>)
    ensures var t := Translate(d, c);
      Readdir(d, c) ==
        if t.Fail? then Bad(t.code) else if !DirAt(d, t.inum) then Bad(-20) else Good(Listing(d, t.inum, 0))
  {
    hide Translate, Listing, DirAt;
  }

  lemma ReadFileShape(d: Disk, c: seq<Str>, len: nat, off: nat)
    ensures var t, g := Translate(d, c), ReadFile(d, c, len, off);
      && (t.Fail? ==> g == Bad(t.code)) && (t.Ok? && !IsReg(Node(d, t.inum).mode) ==> g == Bad(-21))
      && (t.Ok? && IsReg(Node(d, t.inum).mode) ==> g == Good(Slice(Content(d, t.inum), off, len)))
  {
    hide Translate, Content, IsReg, Slice, Node;
  }

  /** readdir succeeds if and only if the path leads to a directory. A file gives ENOTDIR (-20); a path that leads
      nowhere gives the code of the first name that is not found. */
  lemma ReaddirCodes(d: Disk, C: Cert, c: seq<Str>, code: int)
    requires Tree(d, C)
    ensures Readdir(d, c).Good? <==> Passes(d, c, |c|) && DirFound(d, Target(c))
    ensures Readdir(d, c) == Bad(code) <==>
      (code == -20 && Passes(d, c, |c|) && FileFound(d, Target(c))) || exists j :: StopsOn(d, c, j, code)
  {
    ReaddirShape(d, c);
    hide *;
    TranslatePasses(d, c);
    TranslateCodes(d, c, code);
    DirFoundIs(d, Target(c));
    if Translate(d, c).Ok? { TargetWalks(d, C, c); }
  }

  /** read likewise, of a file; a directory gives EISDIR (-21). */
  lemma ReadCodes(d: Disk, C: Cert, c: seq<Str>, len: nat, off: nat, code: int)
    requires Tree(d, C)
    ensures ReadFile(d, c, len, off).Good? <==> Passes(d, c, |c|) && FileFound(d, Target(c))
    ensures ReadFile(d, c, len, off) == Bad(code) <==>
      (code == -21 && Passes(d, c, |c|) && DirFound(d, Target(c))) || exists j :: StopsOn(d, c, j, code)
  {
    ReadFileShape(d, c, len, off);
    hide *;
    TranslatePasses(d, c);
    TranslateCodes(d, c, code);
    DirFoundIs(d, Target(c));
    if Translate(d, c).Ok? {
      TargetWalks(d, C, c);
      RegOrDir(d, C, Target(c), Translate(d, c).inum);
    }
  }

  lemma RegOrDir(d: Disk, C: Cert, q: Path, i: nat)
    requires Tree(d, C) && Walk(d, q) == Ok(i)
    ensures DirAt(d, i) <==> !IsReg(Node(d, i).mode)
  {
    WalkIsPath(d, C, q);
    assert NodeOk(d, i);
    hide Walk;
  }

  /** The bytes that read returns, one by one. */
  lemma ReadBytes(d: Disk, C: Cert, c: seq<Str>, len: nat, off: nat)
    requires Tree(d, C) && ReadFile(d, c, len, off).Good?
    ensures FileFound(d, Target(c))
    ensures var g, f := ReadFile(d, c, len, off).value, Lookup(d, Target(c)).value.bytes;
      && |g| == (if off >= |f| then 0 else if len <= |f| - off then len else |f| - off)
      && forall k :: 0 <= k < |g| ==> g[k] == f[off + k]
  {
    ReadCodes(d, C, c, len, off, 0);
    ReadShows(d, C, c, len, off);
    hide ReadFile, Lookup, Target, Tree, Translate, Passes, StopsOn;
  }

  // ---- getattr of what was made ----

  lemma StatIs(e: Disk, r: Path, i: nat, x: Obj, size: int)
    requires Canonical(r) && Walk(e, r) == Ok(i) && Lookup(e, r) == Some(x) && Node(e, i).size == size
    ensures var a := x.attr;
      Getattr(e, r) == Good(Stat(a.uid, a.gid, a.mode, size, 1, a.mtime, a.mtime, a.ctime, Blocks(size)))
  {
    TranslateIsWalk(e, r);
    hide Walk, Translate, Canonical, Node, Blocks, Content, DirAt;
  }

  lemma StoredCanonical(c: seq<Str>)
    requires Resolve(c) != [] && NewName(NameIn(Resolve(c)))
    ensures Canonical(Stored(Resolve(c)))
  {
    var r := Resolve(c);
    ResolvedNames(c);
    hide Resolve;
    KeptIsStorable(Last(r));
    forall j | 0 <= j < |Front(r)| ensures Stored(r)[j] == r[j] {}
  }

  lemma MadeIsThere(s: Fs, C: Cert, o: Outcome, D: Cert, t: nat, L: set<nat>, r: Path, x: Obj, n: nat, full: int,
      c: nat, size: int)
    requires Made(s, C, o, D, t, L, r, x, n, full, c, size) && o.code == 0
    ensures var e := After(s, o).disk; Walk(e, r) == Ok(c) && Lookup(e, r) == Some(x) && Node(e, c).size == size
  {
    hide Stages, Inv, Loses, SameBut, Walk, Clean, After, Lookup, Node;
  }

  lemma NewAttrIs(mode: nat, w: Caller)
    ensures NewAttr(mode, w) ==
      Attr(w.uid % 0x1_0000, w.gid % 0x1_0000, mode, w.now % 0x1_0000_0000, w.now % 0x1_0000_0000)
    ensures Blocks(0) == 0 && Blocks(4096) == 1
  {}

  /** After a create getattr shows an empty file without blocks, of the caller and of the time of the call. */
  lemma CreateStat(s: Fs, C: Cert, comps: seq<Str>, mode: nat, w: Caller)
    requires Inv(s, C) && Resolve(comps) != [] && NewName(NameIn(Resolve(comps))) && mode < 0x1_0000_0000 && IsReg(mode)
    requires Create(s, comps, mode, w).code == 0 && Stores(s.disk, Resolve(comps))
    ensures var now := w.now % 0x1_0000_0000;
      Getattr(After(s, Create(s, comps, mode, w)).disk, Stored(Resolve(comps))) ==
        Good(Stat(w.uid % 0x1_0000, w.gid % 0x1_0000, mode, 0, 1, now, now, now, 0))
  {
    hide *;
    NewAttrIs(mode, w);
    var r, o := Stored(Resolve(comps)), Create(s, comps, mode, w);
    var D, t, L, c := CreateKeeps(s, C, comps, mode, w);
    MadeIsThere(s, C, o, D, t, L, r, File(NewAttr(mode, w), []), 1, ENOSPC, c, 0);
    StoredCanonical(comps);
    StatIs(After(s, o).disk, r, c, File(NewAttr(mode, w), []), 0);
  }

  /** After a mkdir it shows a directory of 4096 bytes, one block. */
  lemma MkdirStat(s: Fs, C: Cert, comps: seq<Str>, mode: nat, w: Caller)
    requires Inv(s, C) && Resolve(comps) != [] && NewName(NameIn(Resolve(comps))) && mode < 0x1000
    requires Mkdir(s, comps, mode, w).code == 0 && Stores(s.disk, Resolve(comps))
    ensures var now := w.now % 0x1_0000_0000;
      Getattr(After(s, Mkdir(s, comps, mode, w)).disk, Stored(Resolve(comps))) ==
        Good(Stat(w.uid % 0x1_0000, w.gid % 0x1_0000, 0x4000 + mode, 4096, 1, now, now, now, 1))
  {
    hide *;
    NewAttrIs(0x4000 + mode, w);
    var r, o, x := Stored(Resolve(comps)), Mkdir(s, comps, mode, w), Dir(NewAttr(0x4000 + mode, w));
    var D, t, L, c := MkdirKeeps(s, C, comps, mode, w);
    MadeIsThere(s, C, o, D, t, L, r, x, 2, EOPNOTSUPP, c, 4096);
    StoredCanonical(comps);
    StatIs(After(s, o).disk, r, c, x, 4096);
  }
}
