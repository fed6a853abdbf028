/** The mounted file system: one disk, one bitmap in memory, and the operations of homework.c as methods that change
    them in place. Each method is proved to return the code, make the block writes and leave the disk and the bitmap
    that the function of Ops for its operation says, on every state with the invariant. */
module Mounted {
  import opened Words
  import opened Format
  import opened Bits
  import opened Image
  import opened Change
  import opened Paths
  import opened Ops
  import opened Keep
  import opened Making
  import opened Editing
  import opened Renaming
  import opened Writing
  import opened Viewing
  import opened Runs
  import opened Splitting
  import opened Crashes
  import opened Device
  import opened Parsing
  import opened Loops

  class FileSystem {
    var disk: seq<Block>
    const bitmap: array<byte>
    const diskSize: nat
    ghost var cert: Cert
    /** The block writes so far. */
    ghost var trace: seq<Write>

    ghost predicate Ready()
      reads this`disk, bitmap
    { bitmap.Length == 4096 && 2 < |disk| == diskSize <= 32768 }

    ghost function State(): Fs
      reads this`disk, bitmap
    { Fs(Sectors(disk), if bitmap.Length == 4096 then bitmap[..] else ZeroBlock()) }

    ghost predicate Valid()
      reads this, bitmap
    { Ready() && Inv(State(), cert) }

    /** fs_init on an image whose superblock is in order: the size comes from block 0, the bitmap from block 1. */
    constructor Mount(image: seq<Block>, ghost C: Cert)
      requires Safe(Sectors(image), C)
      ensures Valid() && fresh(bitmap) && State() == Remount(Sectors(image)) && cert == C && trace == []
      ensures bitmap[..] == image[1]
    {
      MountIs(image, C);
      hide *;
      disk, diskSize := image, Word(image[0], 4);
      var map8 := image[1];
      bitmap := new byte[4096](k requires 0 <= k < 4096 => map8[k]);
      cert, trace := C, [];
      new;
      assert bitmap[..] == map8;
      RemountKeeps(Sectors(image), C);
      assert Ready() && State() == Fs(Sectors(image), map8);
    }

    /** fs_init: block 0 is read and its magic number tested; with a bad one there is no bitmap and nothing mounted. */
    static method FsInit(image: seq<Block>, ghost C: Cert) returns (fs: FileSystem?)
      requires image != [] && (Word(image[0], 0) == FS_MAGIC ==> Safe(Sectors(image), C))
      ensures fs == null <==> image[0][..4] != [0x35, 0x36, 0x30, 0x30]
      ensures fs != null ==> fresh(fs) && fresh(fs.bitmap) && fs.Valid() && fs.cert == C && fs.trace == []
      ensures Init(Sectors(image)) == if fs == null then None else Some(fs.State())
    {
      MagicIs(image);
      hide Word, Safe, Sectors, Init;
      if Word(image[0], 0) != FS_MAGIC {
        return null;
      }
      RemountKeeps(Sectors(image), C);
      fs := new FileSystem.Mount(image, C);
    }

    static lemma MagicIs(image: seq<Block>)
      requires image != []
      ensures Word(image[0], 0) == FS_MAGIC <==> image[0][..4] == [0x35, 0x36, 0x30, 0x30]
      ensures Init(Sectors(image)).Some? ==> Word(image[0], 0) == FS_MAGIC
    {
      var b := image[0];
      SectorAt(image, 0);
      BytesOfRead(b);
      WordIsFour(b, 0);
      MagicBytes(b[0], b[1], b[2], b[3]);
      hide Word, Sectors, Read;
    }

    // ---- blocks and bits ----

    /** A read past the image is an error. */
    method BlockRead(lba: nat) returns (b: Block)
      requires Ready() && lba < diskSize
      ensures b == BlockAt(disk, lba) && Read(b) == At(State().disk, lba)
    {
      SectorAt(disk, lba);
      hide Read;
      b := disk[lba];
    }

    /** So is a write past it, and a write to block 0 stops the program. */
    method BlockWrite(b: Block, lba: nat)
      requires Ready() && 0 < lba < diskSize
      modifies this`disk, this`trace
      ensures Ready() && State() == Fs(Put(old(State()).disk, lba, Read(b)), old(State()).bitmap)
      ensures trace == old(trace) + [Write(lba, Read(b))]
    {
      SectorsPut(disk, lba, b);
      hide Read, Sectors, Put;
      disk := disk[lba := b];
      trace := trace + [Write(lba, Read(b))];
    }

    method BitTest(i: nat) returns (r: bool)
      requires Ready() && i < 32768
      ensures r == Bit(State().bitmap, i)
    {
      hide Test8;
      r := Test8(bitmap[i / 8], i % 8);
    }

    method BitSet(i: nat)
      requires Ready() && i < 32768
      modifies bitmap
      ensures Ready() && State() == Fs(old(State()).disk, SetBit(old(State()).bitmap, i))
    {
      hide Put8, Sectors;
      bitmap[i / 8] := Put8(bitmap[i / 8], i % 8, true);
    }

    method BitClear(i: nat)
      requires Ready() && i < 32768
      modifies bitmap
      ensures Ready() && State() == Fs(old(State()).disk, ClearBit(old(State()).bitmap, i))
    {
      hide Put8, Sectors;
      bitmap[i / 8] := Put8(bitmap[i / 8], i % 8, false);
    }

    /** block_write(bitmap, 1, 1). */
    method WriteBitmap()
      requires Ready()
      modifies this`disk, this`trace
      ensures Ready() && State() == Fs(Put(old(State()).disk, 1, Flush(old(State()).bitmap).data), old(State()).bitmap)
      ensures trace == old(trace) + [Flush(old(State()).bitmap)]
    {
      hide Read, Put, Sectors;
      BlockWrite(bitmap[..], 1);
    }

    method ReadInode(inum: nat) returns (n: Inode)
      requires Ready() && inum < diskSize
      ensures n == Node(State().disk, inum) && InodeAt(disk[inum], n)
    {
      var b := BlockRead(inum);
      InodeReads(b, DecodeInode(b));
      hide DecodeDirents, DecodeInode, Sectors, Put;
      n := DecodeInode(b);
    }

    /** memcpy of an inode into a block, and its block_write. */
    method WriteInode(n: Inode, inum: nat)
      requires Ready() && 0 < inum < diskSize
      modifies this`disk, this`trace
      ensures Ready() && State() == Fs(Put(old(State()).disk, inum, InodeSector(n)), old(State()).bitmap)
      ensures trace == old(trace) + [Write(inum, InodeSector(n))]
    {
      InodeSectorIsRead(n);
      hide Read, Put, Sectors, EncodeInode, InodeSector;
      BlockWrite(EncodeInode(n), inum);
    }

    /** The first-fit scan from block 2 on. */
    method FindFree() returns (b: nat)
      requires Ready()
      ensures b == FirstFree(State().bitmap, diskSize, 2)
    {
      hide Bit, Sectors;
      b := 0;
      var i := 2;
      while i < diskSize
        invariant 2 <= i
        invariant FirstFree(State().bitmap, diskSize, 2) == FirstFree(State().bitmap, diskSize, i)
      {
        var t := BitTest(i);
        if !t {
          b := i;
          break;
        }
        i := i + 1;
      }
    }

    // ---- directory scans ----

    /** The scan for a valid entry with the name: its block number in the directory, its place there, and the block. */
    method ScanName(n: Inode, name: Str, ghost p: nat) returns (found: bool, j: nat, k: nat, block: Block)
      requires Ready() && n == Node(State().disk, p) && n.size <= 1019 * 4096 && Leads(n, diskSize)
      ensures Find(State().disk, p, name, 0) == if found then Hit(128 * j + k) else Miss
      ensures found ==> j < 1019 && k < 128 && block == BlockAt(disk, n.ptrs[j]) && 0 < n.ptrs[j] < diskSize
    {
      hide *;
      ghost var d := State().disk;
      SlotsIs(d, p, n.size);
      found, j, k, block := false, 0, 0, ZeroBlock();
      while n.size > 0 && j < n.size / 4096
        invariant !found ==> Find(d, p, name, 0) == Find(d, p, name, 128 * j)
      {
        LeadsTo(n, diskSize, j);
        block := BlockRead(n.ptrs[j]);
        k := 0;
        while k < 128
          invariant k <= 128 && j < 1019 && Read(block) == At(d, n.ptrs[j]) && block == BlockAt(disk, n.ptrs[j])
          invariant Find(d, p, name, 0) == Find(d, p, name, 128 * j + k)
        {
          FindNext(d, p, name, 128 * j + k);
          EntOf(d, p, n, j, k, block);
          var e := DecodeDirent(block, k);
          if e.valid && CStr(e.name) == name {
            return true, j, k, block;
          }
          k := k + 1;
        }
        j := j + 1;
      }
      FindNext(d, p, name, 128 * j);
    }

    /** The scan for an entry that is not valid. */
    method ScanFree(n: Inode, ghost p: nat) returns (found: bool, j: nat, k: nat, block: Block)
      requires Ready() && n == Node(State().disk, p) && n.size <= 1019 * 4096 && Leads(n, diskSize)
      ensures FreeSlot(State().disk, p, 0) == if found then Hit(128 * j + k) else Miss
      ensures found ==> j < 1019 && k < 128 && block == BlockAt(disk, n.ptrs[j]) && 0 < n.ptrs[j] < diskSize
    {
      hide *;
      ghost var d := State().disk;
      SlotsIs(d, p, n.size);
      found, j, k, block := false, 0, 0, ZeroBlock();
      while n.size > 0 && j < n.size / 4096
        invariant FreeSlot(d, p, 0) == FreeSlot(d, p, 128 * j)
      {
        LeadsTo(n, diskSize, j);
        block := BlockRead(n.ptrs[j]);
        k := 0;
        while k < 128
          invariant k <= 128 && j < 1019 && Read(block) == At(d, n.ptrs[j]) && block == BlockAt(disk, n.ptrs[j])
          invariant FreeSlot(d, p, 0) == FreeSlot(d, p, 128 * j + k)
        {
          FreeNext(d, p, 128 * j + k);
          EntOf(d, p, n, j, k, block);
          var e := DecodeDirent(block, k);
          if !e.valid {
            return true, j, k, block;
          }
          k := k + 1;
        }
        j := j + 1;
      }
      FreeNext(d, p, 128 * j);
    }

    // ---- translate ----

    /** One component of the path: the entry of that name in the current directory. */
    method StepInto(current: nat, name: Str) returns (code: int, next: nat)
      requires Ready() && Node(State().disk, current).size <= 1019 * 4096
      requires current < diskSize && Leads(Node(State().disk, current), diskSize)
      ensures code <= 0 && Step(State().disk, current, name) == if code == 0 then Ok(next) else Fail(code)
    {
      hide *;
      StepIs(State().disk, current, name);
      var n := ReadInode(current);
      if !IsDir(n.mode) {
        return ENOTDIR, 0;
      }
      var found, j, k, block := ScanName(n, name, current);
      if !found {
        return ENOENT, 0;
      }
      SectorAt(disk, n.ptrs[j]);
      StateIs();
      EntOf(State().disk, current, n, j, k, block);
      return 0, DecodeDirent(block, k).inode;
    }

    lemma ValidParts()
      requires Valid()
      ensures Ready() && Inv(State(), cert) && Tree(State().disk, cert)
    {}

    lemma StateIs()
      requires Ready()
      ensures State() == Fs(Sectors(disk), bitmap[..])
    {}

    method TranslatePath(path: Str) returns (code: int, inum: nat, inode: Inode)
      requires Valid() && Shallow(State().disk, Components(path))
      ensures Translate(State().disk, Components(path)) == if code == 0 then Ok(inum) else Fail(code)
      ensures code <= 0 && (code == 0 ==> inode == Node(State().disk, inum))
    {
      hide *;
      ValidParts();
      SizeIs();
      ghost var d := State().disk;
      ghost var t := On(ROOT, []);
      inode := Blank().inode;
      var comps := PathParse(path);
      var current: nat := ROOT;
      var stack := new nat[10];
      var pos := 0;
      stack[0] := ROOT;
      TraceStart(d, comps);
      var i := 0;
      while i < |comps|
        invariant i <= |comps| && t.On? && Trace(d, comps[..i]) == t && t.inum == current
        invariant pos == |t.stack| <= 9 && stack[0] == ROOT && forall x :: 0 <= x < pos ==> stack[x + 1] == t.stack[x]
      {
        TurnIs(d, cert, comps, i, t);
        AdvanceIs(d, t, comps[i]);
        if comps[i] == [46] {
        } else if comps[i] == [46, 46] {
          if pos > 0 {
            pos := pos - 1;
            current := stack[pos];
          }
        } else {
          LiveLeads(d, cert, current);
          var e, next := StepInto(current, comps[i]);
          if e != 0 {
            return e, 0, inode;
          }
          stack[pos + 1] := current;
          pos := pos + 1;
          current := next;
        }
        t := Advance(d, t, comps[i]);
        i := i + 1;
      }
      TranslateIs(d, comps);
      TargetWalks(d, cert, comps);
      LiveLeads(d, cert, current);
      inode := ReadInode(current);
      return 0, current, inode;
    }

    // ---- the parent directory ----

    /** Resolve the path, build the string of its directory and translate that. */
    method Locate(path: Str) returns (code: int, name: Str, p: nat, inode: Inode)
      requires Valid() && Resolve(Components(path)) != [] && |ParentString(Resolve(Components(path)))| < 256
      ensures var d, r := State().disk, Resolve(Components(path));
        && name == NameIn(r) && code <= 0
        && Walk(d, Front(r)) == (if code == 0 then Ok(p) else Fail(code))
        && (code == 0 ==>
              && p == ParentOf(d, r) && inode == Node(d, p) && Ino(cert, p) && 0 <= inode.size <= 1019 * 4096
              && Leads(inode, diskSize))
    {
      ghost var r := Resolve(Components(path));
      NameInIs(r);
      hide *;
      ValidParts();
      SizeIs();
      ParentParses(path);
      ParentIsShallow(State().disk, cert, path);
      var comps := PathParse(path);
      var resolved := ResolvePath(comps);
      name := resolved[|resolved| - 1];
      LastIs(r);
      var parent := ParentPath(resolved);
      code, p, inode := TranslatePath(parent);
      if code == 0 {
        LiveSize(State().disk, cert, Front(r));
        LiveLeads(State().disk, cert, p);
        ParentIs(State().disk, r);
      }
    }

    lemma LastIs(r: Path)
      requires r != []
      ensures Last(r) == r[|r| - 1]
    {}

    /** Fill the first free slot of directory p. */
    method LinkEntry(n: Inode, name: Str, inum: nat, full: int, ghost p: nat) returns (code: int)
      requires Ready() && n == Node(State().disk, p) && n.size <= 1019 * 4096 && Leads(n, diskSize)
      modifies this`disk, this`trace
      ensures Ready() && State().bitmap == old(State()).bitmap
      ensures var d := old(State()).disk;
        match FreeSlot(d, p, 0)
        case Miss => code == full && State().disk == d && trace == old(trace)
        case Hit(q) =>
          var w := SlotWrite(d, p, q, NewEntry(Ent(d, p, q), inum, name));
          code == 0 && State().disk == Put(d, w.lba, w.data) && trace == old(trace) + [w]
    {
      hide *;
      ghost var d := State().disk;
      var found, j, k, block := ScanFree(n, p);
      if !found {
        return full;
      }
      SectorAt(disk, n.ptrs[j]);
      StateIs();
      EntOf(d, p, n, j, k, block);
      var e := NewEntry(DecodeDirent(block, k), inum, name);
      SlotWriteIs(d, p, n, j, k, block, e);
      BlockWrite(PutDirent(block, k, e), n.ptrs[j]);
      return 0;
    }

    /** Clear the slot that carries the name, if there is one. */
    method ClearEntry(n: Inode, name: Str, ghost p: nat)
      requires Ready() && n == Node(State().disk, p) && n.size <= 1019 * 4096 && Leads(n, diskSize)
      modifies this`disk, this`trace
      ensures Ready() && State().bitmap == old(State()).bitmap
      ensures var d := old(State()).disk;
        match Find(d, p, name, 0)
        case Miss => State().disk == d && trace == old(trace)
        case Hit(q) =>
          var w := SlotWrite(d, p, q, Cleared(Ent(d, p, q)));
          State().disk == Put(d, w.lba, w.data) && trace == old(trace) + [w]
    {
      hide *;
      ghost var d := State().disk;
      var found, j, k, block := ScanName(n, name, p);
      if found {
        SectorAt(disk, n.ptrs[j]);
        StateIs();
        EntOf(d, p, n, j, k, block);
        var e := Cleared(DecodeDirent(block, k));
        SlotWriteIs(d, p, n, j, k, block, e);
        BlockWrite(PutDirent(block, k, e), n.ptrs[j]);
      }
    }

    // ---- how an operation ends ----

    /** The call a was made in the state s with the writes t behind it, and has just returned code. If it kept to what
        the invariant needs, or changed nothing, the invariant holds. */
    ghost predicate Did(s: Fs, t: seq<Write>, a: Call, code: int)
      reads this, bitmap
    { Callable(s, a) && Ended(s, t, Do(s, a), code) && (Asks(s, a) || State() == s ==> Valid()) }

    /** The outcome o of the state s with the writes t behind it is what has happened. */
    ghost predicate Ended(s: Fs, t: seq<Write>, o: Outcome, code: int)
      reads this`disk, this`trace, bitmap
    { Ready() && State() == After(s, o) && trace == t + o.writes && code == o.code }

    /** A return without a change. */
    lemma Refused(o: Outcome, code: int)
      requires Ready() && o == Err(State(), code)
      ensures Ended(State(), trace, o, code)
    {
      ErrIs(State(), code);
      hide Err;
      assert trace + [] == trace;
    }

    lemma IsEnded(s: Fs, t: seq<Write>, o: Outcome, code: int)
      requires Ready() && State() == After(s, o) && trace == t + o.writes && code == o.code
      ensures Ended(s, t, o, code)
    {
      hide After;
    }

    lemma EndedIs(s: Fs, t: seq<Write>, o: Outcome, code: int)
      requires Ended(s, t, o, code)
      ensures Ready() && State() == After(s, o)
    {
      hide After;
    }

    /** With the writes of the call done, the certificate follows. */
    ghost method Settle(s: Fs, t: seq<Write>, a: Call, code: int)
      requires Inv(s, cert) && Callable(s, a) && Ended(s, t, Do(s, a), code)
      modifies this`cert
      ensures Did(s, t, a, code)
    {
      hide *;
      EndedIs(s, t, Do(s, a), code);
      if Asks(s, a) {
        var D, u := CallKeeps(s, cert, a);
        AccountParts(s, cert, a, Do(s, a), D);
        cert := D;
      }
      IsDid(s, t, a, code);
    }

    lemma IsDid(s: Fs, t: seq<Write>, a: Call, code: int)
      requires Callable(s, a) && Ended(s, t, Do(s, a), code) && (Asks(s, a) || State() == s ==> Inv(State(), cert))
      ensures Did(s, t, a, code)
    {
      hide Inv, Asks, Do, After;
    }

    // ---- create and mkdir ----

    /** The checks of create and mkdir: the parent is a directory that does not have the name yet. */
    method Vacancy(path: Str) returns (code: int, name: Str, p: nat, inode: Inode)
      requires Valid() && Fits(path)
      ensures var s, r := State(), Resolve(Components(path));
        && (CanMake(s, r) <==> code == 0) && (code != 0 ==> code == Refusal(s, r))
        && name == NameIn(r)
        && (code == 0 ==>
              p == ParentOf(s.disk, r) && inode == Node(s.disk, p) && Ino(cert, p) && 0 <= inode.size <= 1019 * 4096)
    {
      ghost var r := Resolve(Components(path));
      assert Fits(path) ==> r != [];
      hide *;
      ValidParts();
      RefusalIs(State(), r);
      FitsIs(path);
      RefusalNegative(State(), r);
      code, name, p, inode := Locate(path);
      DirAtIs(State().disk, p);
      if code != 0 {
        return;
      }
      if !IsDir(inode.mode) {
        return ENOTDIR, name, p, inode;
      }
      var found, j, k, block := ScanName(inode, name, p);
      if found {
        return EEXIST, name, p, inode;
      }
    }

    lemma FitsIs(path: Str)
      requires Fits(path)
      ensures Resolve(Components(path)) != [] && |ParentString(Resolve(Components(path)))| < 256
    {}

    lemma HasParent(path: Str)
      ensures Fits(path) ==> Resolve(Components(path)) != []
    {
      hide Resolve, Components;
    }

    /** create from the allocation on. */
    method MakeFile(inode: Inode, name: Str, mode: nat, who: Caller, ghost p: nat) returns (code: int)
      requires Valid() && Ino(cert, p) && inode == Node(State().disk, p) && inode.size <= 1019 * 4096
      requires mode < 0x1_0000_0000 && IsReg(mode)
      modifies this`disk, this`trace, bitmap
      ensures var s := old(State()); var c := FirstFree(s.bitmap, |s.disk|, 2); var bm := SetBit(s.bitmap, c);
        Ended(s, old(trace), if c == 0 then Err(s, ENOSPC)
            else Link(s, p, name, c, bm, CreateWrites(bm, c, mode, who), ENOSPC), code)
    {
      hide *;
      ghost var s := State();
      ValidParts();
      SizeIs();
      var inum := FindFree();
      if inum == 0 {
        Refused(Err(s, ENOSPC), ENOSPC);
        return ENOSPC;
      }
      ghost var bm := SetBit(s.bitmap, inum);
      ghost var ws := CreateWrites(bm, inum, mode, who);
      CreateLeads(s, cert, inum, mode, who, p);
      LiveLeads(s.disk, cert, p);
      BitSet(inum);
      WriteBitmap();
      WriteInode(NewFile(mode, who), inum);
      assert trace == old(trace) + ws;
      code := LinkEntry(inode, name, inum, ENOSPC, p);
      LinkIs(s, p, name, inum, bm, ws, ENOSPC, FreeSlot(Apply(s.disk, ws), p, 0));
      FsIs(State());
      IsEnded(s, old(trace), Link(s, p, name, inum, bm, ws, ENOSPC), code);
    }

    lemma SizeIs()
      requires Ready()
      ensures |State().disk| == diskSize <= 32768
    {}

    method CreateFile(path: Str, mode: nat, who: Caller) returns (code: int)
      requires Valid() && Fits(path) && mode < 0x1_0000_0000 && IsReg(mode)
      modifies this, bitmap
      ensures Did(old(State()), old(trace), CreateCall(Components(path), mode, who), code)
    {
      ghost var a := CreateCall(Components(path), mode, who);
      ghost var s := State();
      hide *;
      ValidParts();
      FitsIs(path);
      MayCall(s, a);
      DoIs(s, a);
      CreateShape(s, Components(path), mode, who);
      var e, name, p, inode := Vacancy(path);
      if e != 0 {
        Refused(Do(s, a), e);
        code := e;
      } else {
        code := MakeFile(inode, name, mode, who, p);
      }
      Settle(s, old(trace), a, code);
    }

    /** The one pass of mkdir over the bitmap. */
    method FindTwo() returns (c: nat, b: nat)
      requires Ready()
      ensures c == FirstFree(State().bitmap, diskSize, 2)
      ensures if c == 0 then b == 0 else b == FirstFree(State().bitmap, diskSize, c + 1)
    {
      SizeIs();
      hide *;
      ghost var m := State().bitmap;
      c, b := 0, 0;
      var i := 2;
      while i < diskSize
        invariant 2 <= i && b == 0
        invariant c == 0 ==> FirstFree(m, diskSize, 2) == FirstFree(m, diskSize, i)
        invariant c != 0 ==>
          c == FirstFree(m, diskSize, 2) && FirstFree(m, diskSize, c + 1) == FirstFree(m, diskSize, i)
      {
        FreeFrom(m, diskSize, i);
        var t := BitTest(i);
        if c == 0 && !t {
          c := i;
        } else if b == 0 && !t {
          b := i;
          return;
        }
        i := i + 1;
      }
      FreeFrom(m, diskSize, i);
    }

    /** mkdir from the allocation on. */
    method MakeDir(inode: Inode, name: Str, mode: nat, who: Caller, ghost p: nat) returns (code: int)
      requires Valid() && Ino(cert, p) && inode == Node(State().disk, p) && inode.size <= 1019 * 4096 && mode < 0x1000
      modifies this`disk, this`trace, bitmap
      ensures var s := old(State()); var t := Take(s.bitmap, |s.disk|, 2);
        Ended(s, old(trace), if |t.blocks| < 2 then Err(s, ENOSPC)
          else Link(s, p, name, t.blocks[0], t.map8, MkdirWrites(t.map8, t.blocks[0], t.blocks[1], mode, who),
              EOPNOTSUPP), code)
    {
      hide *;
      ghost var s := State();
      ValidParts();
      SizeIs();
      var c, b := FindTwo();
      TakeTwoIs(s.bitmap, diskSize, c, b);
      if c == 0 || b == 0 {
        Refused(Err(s, ENOSPC), ENOSPC);
        return ENOSPC;
      }
      ghost var t := Take(s.bitmap, |s.disk|, 2);
      ghost var ws := MkdirWrites(t.map8, c, b, mode, who);
      MkdirLeads(s, cert, mode, who, p);
      LiveLeads(s.disk, cert, p);
      BitSet(c);
      BitSet(b);
      WriteBitmap();
      WriteInode(NewDir(mode, b, who), c);
      BlockWrite(ZeroBlock(), b);
      assert trace == old(trace) + ws;
      code := LinkEntry(inode, name, c, EOPNOTSUPP, p);
      LinkIs(s, p, name, c, t.map8, ws, EOPNOTSUPP, FreeSlot(Apply(s.disk, ws), p, 0));
      FsIs(State());
      IsEnded(s, old(trace), Link(s, p, name, c, t.map8, ws, EOPNOTSUPP), code);
    }

    method CreateDir(path: Str, mode: nat, who: Caller) returns (code: int)
      requires Valid() && Fits(path) && mode < 0x1000
      modifies this, bitmap
      ensures Did(old(State()), old(trace), MkdirCall(Components(path), mode, who), code)
    {
      ghost var a := MkdirCall(Components(path), mode, who);
      ghost var s := State();
      hide *;
      ValidParts();
      FitsIs(path);
      MayCall(s, a);
      DoIs(s, a);
      MkdirShape(s, Components(path), mode, who);
      var e, name, p, inode := Vacancy(path);
      if e != 0 {
        Refused(Do(s, a), e);
        code := e;
      } else {
        code := MakeDir(inode, name, mode, who, p);
      }
      Settle(s, old(trace), a, code);
    }

    // ---- unlink, rmdir and truncate ----

    /** Clear the bits of the blocks bs that the inode spans. */
    method ClearBlocks(inode: Inode, ghost bs: seq<nat>)
      requires Ready() && |bs| == Blocks(inode.size) <= 1019 && forall j :: 0 <= j < |bs| ==>
          bs[j] == inode.ptrs[j] < 32768
      modifies bitmap
      ensures Ready() && State() == Fs(old(State()).disk, ClearAll(old(State()).bitmap, bs))
    {
      hide *;
      ghost var s := State();
      ClearNone(s.bitmap, bs);
      FsIs(s);
      var n := Blocks(inode.size);
      for k := 0 to n
        invariant Ready() && State() == Fs(s.disk, ClearAll(s.bitmap, bs[..k]))
      {
        ClearNext(s.bitmap, bs, k);
        if inode.ptrs[k] != 0 {
          BitClear(inode.ptrs[k]);
        }
      }
    }

    /** Locate the parent and clear the entry: all of unlink and rmdir that can still fail. What is left to do then
        is to bring the bitmap to bm and to write it. */
    method DetachEntry(path: Str, ghost bm: Block) returns (code: int)
      requires Valid() && Fits(path)
      modifies this`disk, this`trace
      ensures var s := old(State()); var o := Detaching(s, Resolve(Components(path)), bm);
        if code != 0 then Ended(s, old(trace), o, code)
        else Ready() && State().bitmap == s.bitmap && Awaits(State(), trace, s, old(trace), o, bm)
    {
      FitsIs(path);
      hide *;
      CodesNegative();
      ghost var s := State();
      ghost var r := Resolve(Components(path));
      ghost var o := Detaching(s, r, bm);
      ValidParts();
      DetachingIs(s, r, bm);
      var e, name, p, inode := Locate(path);
      if e != 0 {
        Refused(o, e);
        return e;
      }
      DirAtIs(s.disk, p);
      if !IsDir(inode.mode) {
        Refused(o, ENOTDIR);
        return ENOTDIR;
      }
      ClearEntry(inode, name, p);
      AwaitsIs(State(), trace, s, old(trace), o, bm);
      return 0;
    }

    lemma Awaited(s: Fs, t: seq<Write>, o: Outcome, bm: Block, was: Fs, before: seq<Write>)
      requires Ready() && Awaits(was, before, s, t, o, bm)
      requires State() == Fs(Put(was.disk, 1, Flush(bm).data), bm) && trace == before + [Flush(bm)]
      ensures Ended(s, t, o, 0)
    {
      hide After, Flush, Put;
    }

    /** unlink of the file i from the parent's path on. */
    method RemoveFile(path: Str, inode: Inode, i: nat) returns (code: int)
      requires Valid() && Fits(path) && Ino(cert, i) && inode == Node(State().disk, i)
      modifies this`disk, this`trace, bitmap
      ensures var s := old(State());
        Ended(s, old(trace), Detaching(s, Resolve(Components(path)),
            ClearBit(ClearAll(s.bitmap, Table(s.disk, i)), i)), code)
    {
      hide *;
      ghost var s := State();
      ghost var r, bs := Resolve(Components(path)), Table(s.disk, i);
      ghost var bm := ClearBit(ClearAll(s.bitmap, bs), i);
      ValidParts();
      SizeIs();
      TableIs(s.disk, cert, i);
      SmallIno(s.disk, cert, i);
      code := DetachEntry(path, bm);
      if code == 0 {
        ghost var was, before := State(), trace;
        ClearBlocks(inode, bs);
        BitClear(i);
        WriteBitmap();
        Awaited(s, old(trace), Detaching(s, r, bm), bm, was, before);
      }
    }

    method UnlinkFile(path: Str) returns (code: int)
      requires Valid() && Shallow(State().disk, Components(path))
      requires UnlinkReaches(State().disk, Components(path)) ==> Fits(path)
      modifies this, bitmap
      ensures Did(old(State()), old(trace), UnlinkCall(Components(path)), code)
    {
      ghost var a := UnlinkCall(Components(path));
      ghost var s := State();
      hide *;
      ValidParts();
      HasParent(path);
      UnlinkReachesIs(s.disk, Components(path));
      MayCall(s, a);
      DoIs(s, a);
      UnlinkIs(s, Components(path));
      var e, i, inode := TranslatePath(path);
      DirAtIs(s.disk, i);
      if e != 0 {
        Refused(Do(s, a), e);
        code := e;
      } else if IsDir(inode.mode) {
        Refused(Do(s, a), EISDIR);
        code := EISDIR;
      } else {
        TargetLive(s.disk, cert, Components(path));
        code := RemoveFile(path, inode, i);
      }
      Settle(s, old(trace), a, code);
    }

    /** rmdir of the directory i from the parent's path on. */
    method RemoveDirectory(path: Str, inode: Inode, i: nat) returns (code: int)
      requires Valid() && Fits(path) && Ino(cert, i) && DirAt(State().disk, i) && inode == Node(State().disk, i)
      modifies this`disk, this`trace, bitmap
      ensures var s := old(State());
        Ended(s, old(trace), Detaching(s, Resolve(Components(path)),
            ClearBit(ClearBit(s.bitmap, Ptr(s.disk, i, 0)), i)), code)
    {
      hide *;
      ghost var s := State();
      ghost var bm := ClearBit(ClearBit(s.bitmap, Ptr(s.disk, i, 0)), i);
      ValidParts();
      SizeIs();
      FirstBlock(s.disk, cert, i);
      code := DetachEntry(path, bm);
      if code == 0 {
        ghost var was, before := State(), trace;
        BitClear(inode.ptrs[0]);
        BitClear(i);
        WriteBitmap();
        Awaited(s, old(trace), Detaching(s, Resolve(Components(path)), bm), bm, was, before);
      }
    }

    /** The check of rmdir: no entry in the first block. */
    method FirstIsEmpty(inode: Inode, ghost i: nat) returns (empty: bool)
      requires Valid() && Ino(cert, i) && inode == Node(State().disk, i) && inode.ptrs[0] == Ptr(State().disk, i, 0)
      requires 0 < inode.size
      ensures empty <==> FirstBlockEmpty(State().disk, i)
    {
      hide *;
      ValidParts();
      SizeIs();
      LiveLeads(State().disk, cert, i);
      LeadsTo(inode, diskSize, 0);
      var block := BlockRead(inode.ptrs[0]);
      FirstEmptyIs(State().disk, i, block);
      for k := 0 to 128
        invariant forall r :: 0 <= r < k ==> !DecodeDirent(block, r).valid
      {
        if DecodeDirent(block, k).valid {
          return false;
        }
      }
      return true;
    }

    method RemoveDir(path: Str) returns (code: int)
      requires Valid() && Shallow(State().disk, Components(path))
      requires RmdirReaches(State().disk, Components(path)) ==> Fits(path)
      modifies this, bitmap
      ensures Did(old(State()), old(trace), RmdirCall(Components(path)), code)
    {
      ghost var a := RmdirCall(Components(path));
      ghost var s := State();
      hide *;
      ValidParts();
      SizeIs();
      HasParent(path);
      RmdirReachesIs(s.disk, Components(path));
      MayCall(s, a);
      DoIs(s, a);
      RmdirIs(s, Components(path));
      var e, i, inode := TranslatePath(path);
      DirAtIs(s.disk, i);
      if e != 0 {
        Refused(Do(s, a), e);
        code := e;
      } else if !IsDir(inode.mode) {
        Refused(Do(s, a), ENOTDIR);
        code := ENOTDIR;
      } else {
        TargetLive(s.disk, cert, Components(path));
        FirstBlock(s.disk, cert, i);
        var empty := FirstIsEmpty(inode, i);
        if !empty {
          Refused(Do(s, a), ENOTEMPTY);
          code := ENOTEMPTY;
        } else {
          code := RemoveDirectory(path, inode, i);
        }
      }
      Settle(s, old(trace), a, code);
    }

    method TruncateFile(path: Str, len: int, now: nat) returns (code: int)
      requires Valid() && (len == 0 ==> Shallow(State().disk, Components(path)))
      modifies this, bitmap
      ensures Did(old(State()), old(trace), TruncateCall(Components(path), len, now), code)
    {
      ghost var a := TruncateCall(Components(path), len, now);
      ghost var s := State();
      hide *;
      ValidParts();
      SizeIs();
      MayCall(s, a);
      DoIs(s, a);
      TruncateShape(s, Components(path), len, now);
      TargetIs(s.disk, Components(path));
      if len != 0 {
        Refused(Do(s, a), EINVAL);
        Settle(s, old(trace), a, EINVAL);
        return EINVAL;
      }
      var e, i, inode := TranslatePath(path);
      DirAtIs(s.disk, i);
      if e != 0 {
        Refused(Do(s, a), e);
        code := e;
      } else if IsDir(inode.mode) {
        Refused(Do(s, a), EISDIR);
        code := EISDIR;
      } else {
        TargetLive(s.disk, cert, Components(path));
        TableIs(s.disk, cert, i);
        TruncateIs(s, i, now);
        FsIs(s);
        ClearBlocks(inode, Table(s.disk, i));
        LiveLeads(s.disk, cert, i);
        WriteInode(Emptied(inode, now), i);
        WriteBitmap();
        IsEnded(s, old(trace), Do(s, a), 0);
        code := 0;
      }
      Settle(s, old(trace), a, code);
    }

    // ---- rename ----

    /** The scan of rename through the entries of one block, from place 0 on. */
    method ScanBlock(block: Block, src: Str, dst: Str, seen: bool, ghost p: nat, ghost n: Inode, ghost j: nat)
      returns (at: int, dstSeen: bool)
      requires Valid() && Ino(cert, p) && DirAt(State().disk, p) && n == Node(State().disk, p) && j < 1019
      requires Read(block) == At(State().disk, n.ptrs[j]) && 128 * j + 128 <= Slots(State().disk, p)
      requires Seen(State().disk, p, src, dst, 128 * j, Miss, seen)
      ensures -1 <= at < 128
      ensures Seen(State().disk, p, src, dst, 128 * j + 128, if at < 0 then Miss else Hit(128 * j + at), dstSeen)
    {
      hide *;
      ghost var d := State().disk;
      ValidParts();
      at, dstSeen := -1, seen;
      for k := 0 to 128
        invariant -1 <= at < k
        invariant Seen(d, p, src, dst, 128 * j + k, if at < 0 then Miss else Hit(128 * j + at), dstSeen)
      {
        SeenNext(d, cert, p, src, dst, 128 * j + k, if at < 0 then Miss else Hit(128 * j + at), dstSeen);
        EntOf(d, p, n, j, k, block);
        var e := DecodeDirent(block, k);
        if e.valid {
          if CStr(e.name) == src {
            at := k;
          } else if CStr(e.name) == dst {
            dstSeen := true;
          }
        }
      }
    }

    /** The loop of rename over the blocks of the directory: the first block that holds src decides. */
    method RenameEntry(n: Inode, src: Str, dst: Str, ghost p: nat) returns (code: int)
      requires Valid() && Ino(cert, p) && DirAt(State().disk, p) && n == Node(State().disk, p)
      modifies this`disk, this`trace
      ensures var s := old(State()); Ended(s, old(trace), RenameIn(s, p, src, dst), code)
    {
      hide *;
      ghost var s := State();
      ValidParts();
      SizeIs();
      SmallIno(s.disk, cert, p);
      LiveLeads(s.disk, cert, p);
      SlotsIs(s.disk, p, n.size);
      SeenStart(s.disk, p, src, dst);
      var dstSeen := false;
      var j := 0;
      while j < n.size / 4096
        invariant j <= n.size / 4096 && Ready() && Valid() && State() == s && trace == old(trace)
        invariant Seen(s.disk, p, src, dst, 128 * j, Miss, dstSeen)
      {
        LeadsTo(n, diskSize, j);
        var block := BlockRead(n.ptrs[j]);
        var at, seen := ScanBlock(block, src, dst, dstSeen, p, n, j);
        dstSeen := seen;
        if at >= 0 {
          SeenDecides(s, p, src, dst, j, Hit(128 * j + at), dstSeen);
          if dstSeen {
            Refused(RenameIn(s, p, src, dst), EEXIST);
            return EEXIST;
          }
          RenameWrite(s, p, n, j, at, block, dst);
          BlockWrite(PutDirent(block, at, Renamed(DecodeDirent(block, at), dst)), n.ptrs[j]);
          IsEnded(s, old(trace), RenameIn(s, p, src, dst), 0);
          return 0;
        }
        j := j + 1;
      }
      SeenNothing(s, p, src, dst, 128 * j, dstSeen);
      Refused(RenameIn(s, p, src, dst), EOPNOTSUPP);
      return EOPNOTSUPP;
    }

    method RenamePath(src: Str, dst: Str) returns (code: int)
      requires Valid() && Shallow(State().disk, Components(src))
      requires Translate(State().disk, Components(src)).Ok? ==> Fits(src) && Fits(dst)
      modifies this, bitmap
      ensures Did(old(State()), old(trace), RenameCall(Components(src), Components(dst)), code)
    {
      ghost var a := RenameCall(Components(src), Components(dst));
      ghost var s := State();
      hide *;
      ValidParts();
      HasParent(src);
      HasParent(dst);
      RenameDefinedIs(s.disk, Components(src), Components(dst));
      MayCall(s, a);
      DoIs(s, a);
      RenameIs(s, Components(src), Components(dst));
      var e, i, inode := TranslatePath(src);
      if e != 0 {
        Refused(Do(s, a), ENOENT);
        Settle(s, old(trace), a, ENOENT);
        return ENOENT;
      }
      code := RenameLocated(src, dst);
      Settle(s, old(trace), a, code);
    }

    /** rename from the parent's paths on. */
    method RenameLocated(src: Str, dst: Str) returns (code: int)
      requires Valid() && Fits(src) && Fits(dst)
      modifies this`disk, this`trace
      ensures var s := old(State());
        Ended(s, old(trace), RenamingIn(s, Resolve(Components(src)), Resolve(Components(dst))), code)
    {
      hide *;
      ghost var s := State();
      ghost var rs, rd := Resolve(Components(src)), Resolve(Components(dst));
      ghost var o := RenamingIn(s, rs, rd);
      ValidParts();
      FitsIs(src);
      FitsIs(dst);
      RenamingIs(s, rs, rd);
      var e, srcName, p, m := Locate(src);
      if e != 0 {
        Refused(o, ENOENT);
        return ENOENT;
      }
      var f, dstName, q, n := Locate(dst);
      if f != 0 {
        Refused(o, ENOENT);
        return ENOENT;
      }
      DirAtIs(s.disk, q);
      if p != q {
        Refused(o, EINVAL);
        return EINVAL;
      }
      if !IsDir(n.mode) {
        Refused(o, ENOTDIR);
        return ENOTDIR;
      }
      code := RenameEntry(n, srcName, dstName, p);
    }

    // ---- chmod and utime ----

    method ChangeMode(path: Str, mode: nat) returns (code: int)
      requires Valid() && Shallow(State().disk, Components(path))
      modifies this, bitmap
      ensures Did(old(State()), old(trace), ChmodCall(Components(path), mode), code)
    {
      ghost var a := ChmodCall(Components(path), mode);
      ghost var s := State();
      hide *;
      ValidParts();
      SizeIs();
      MayCall(s, a);
      DoIs(s, a);
      ChmodIs(s, Components(path), mode);
      TargetIs(s.disk, Components(path));
      var e, i, inode := TranslatePath(path);
      TouchedIs(s, Components(path), ChmodInode(Node(s.disk, TargetOf(s.disk, Components(path))), mode));
      if e != 0 {
        Refused(Do(s, a), e);
        code := e;
      } else {
        OneWrite(s, Write(i, InodeSector(ChmodInode(inode, mode))), 0);
        TargetWalks(s.disk, cert, Components(path));
        LiveLeads(s.disk, cert, i);
        WriteInode(ChmodInode(inode, mode), i);
        IsEnded(s, old(trace), Do(s, a), 0);
        code := 0;
      }
      Settle(s, old(trace), a, code);
    }

    method ChangeTime(path: Str, modtime: nat) returns (code: int)
      requires Valid() && Shallow(State().disk, Components(path))
      modifies this, bitmap
      ensures Did(old(State()), old(trace), UtimeCall(Components(path), modtime), code)
    {
      ghost var a := UtimeCall(Components(path), modtime);
      ghost var s := State();
      hide *;
      ValidParts();
      SizeIs();
      MayCall(s, a);
      DoIs(s, a);
      UtimeIs(s, Components(path), modtime);
      TargetIs(s.disk, Components(path));
      var e, i, inode := TranslatePath(path);
      var n := inode.(mtime := modtime % 0x1_0000_0000);
      ghost var was := Node(s.disk, TargetOf(s.disk, Components(path)));
      TouchedIs(s, Components(path), was.(mtime := modtime % 0x1_0000_0000));
      if e != 0 {
        Refused(Do(s, a), e);
        code := e;
      } else {
        OneWrite(s, Write(i, InodeSector(n)), 0);
        TargetWalks(s.disk, cert, Components(path));
        LiveLeads(s.disk, cert, i);
        WriteInode(n, i);
        IsEnded(s, old(trace), Do(s, a), 0);
        code := 0;
      }
      Settle(s, old(trace), a, code);
    }

    // ---- the operations that change nothing ----

    method GetAttr(path: Str) returns (code: int, st: Stat)
      requires Valid() && Shallow(State().disk, Components(path))
      ensures code <= 0 && Getattr(State().disk, Components(path)) == if code == 0 then Good(st) else Bad(code)
    {
      hide Valid, Translate, Components, Split, Shallow, State;
      var e, i, inode := TranslatePath(path);
      return e, StatOf(inode);
    }

    /** The read loop: len bytes of file i from off on, all of them inside the file. */
    method ReadBytes(inode: Inode, off: nat, len: nat, ghost i: nat) returns (buf: Str)
      requires Ready() && inode == Node(State().disk, i) && inode.size <= 1019 * 4096 && off + len <= inode.size
      requires Leads(inode, diskSize)
      ensures off + len <= |Content(State().disk, i)| && buf == Content(State().disk, i)[off..off + len]
    {
      hide *;
      ghost var d := State().disk;
      ghost var c := Content(d, i);
      ContentSize(d, i);
      buf := [];
      while |buf| < len
        invariant |buf| <= len && c[..off] + buf == c[..off + |buf|]
        decreases len - |buf|
      {
        var x := off + |buf|;
        var k, o := x / 4096, x % 4096;
        assert k < 1019;
        TablePtr(d, i, inode, k);
        LeadsTo(inode, diskSize, k);
        var block := BlockRead(inode.ptrs[k]);
        var m := 4096 - o;
        if m > len - |buf| {
          m := len - |buf|;
        }
        ContentPiece(d, i, x, m, block);
        assert c[..off] + (buf + block[o..o + m]) == (c[..off] + buf) + block[o..o + m];
        buf := buf + block[o..o + m];
      }
      assert c[off..off + len] == c[..off + len][off..];
    }

    method ReadData(path: Str, len: nat, off: nat) returns (code: int, buf: Str)
      requires Valid() && Shallow(State().disk, Components(path))
      ensures ReadFile(State().disk, Components(path), len, off) == if code >= 0 then Good(buf) else Bad(code)
      ensures code >= 0 ==> code == |buf|
    {
      hide *;
      ghost var d := State().disk;
      ghost var comps := Components(path);
      ValidParts();
      CodesNegative();
      ReadIs(d, comps, len, off);
      var e, i, inode := TranslatePath(path);
      if e != 0 {
        return e, [];
      }
      if !IsReg(inode.mode) {
        return EISDIR, [];
      }
      TargetLive(d, cert, comps);
      SizeIs();
      LiveLeads(d, cert, i);
      ContentSize(d, i);
      SliceIs(Content(d, i), off, len);
      if off >= inode.size {
        return 0, [];
      }
      var n := len;
      if off + len > inode.size {
        n := inode.size - off;
      }
      buf := ReadBytes(inode, off, n, i);
      return |buf|, buf;
    }

    lemma TargetLive(d: Disk, C: Cert, comps: seq<Str>)
      requires Tree(d, C) && Translate(d, comps).Ok?
      ensures Ino(C, Translate(d, comps).inum) && 0 <= Node(d, Translate(d, comps).inum).size <= 1019 * 4096
    {
      TraceLive(d, C, comps);
    }

    /** The filler calls of readdir, in order. */
    method ListDir(path: Str) returns (code: int, out: seq<Listed>)
      requires Valid() && Shallow(State().disk, Components(path))
      ensures code <= 0 && Readdir(State().disk, Components(path)) == if code == 0 then Good(out) else Bad(code)
    {
      hide *;
      ghost var d := State().disk;
      ValidParts();
      CodesNegative();
      ReaddirIs(d, Components(path));
      var e, i, inode := TranslatePath(path);
      if e != 0 {
        return e, [];
      }
      DirAtIs(d, i);
      if !IsDir(inode.mode) {
        return ENOTDIR, [];
      }
      TargetLive(d, cert, Components(path));
      out := ListSlots(inode, i);
      return 0, out;
    }

    method ListSlots(inode: Inode, ghost i: nat) returns (out: seq<Listed>)
      requires Valid() && Ino(cert, i) && DirAt(State().disk, i)
      requires inode == Node(State().disk, i) && inode.size <= 1019 * 4096
      ensures out == Listing(State().disk, i, 0)
    {
      hide *;
      ghost var d := State().disk;
      ValidParts();
      SizeIs();
      LiveLeads(d, cert, i);
      SlotsIs(d, i, inode.size);
      out := [];
      var j := 0;
      while inode.size > 0 && j < inode.size / 4096
        invariant Listing(d, i, 0) == out + Listing(d, i, 128 * j)
      {
        LeadsTo(inode, diskSize, j);
        var block := BlockRead(inode.ptrs[j]);
        for k := 0 to 128
          invariant Listing(d, i, 0) == out + Listing(d, i, 128 * j + k)
        {
          ListingNext(d, i, 128 * j + k);
          EntOf(d, i, inode, j, k, block);
          var e := DecodeDirent(block, k);
          if e.valid {
            EntryInside(d, cert, i, 128 * j + k);
            var n := ReadInode(e.inode);
            out := out + [Listed(CStr(e.name), StatOf(n))];
          }
        }
        j := j + 1;
      }
      ListingNext(d, i, 128 * j);
    }

    method FreeSpace() returns (u: Usage)
      requires Ready()
      ensures u == Statfs(State())
    {
      SizeIs();
      hide Bit, State, Marked;
      var used := 0;
      for i := 0 to diskSize
        invariant used == Marked(State().bitmap, i)
      {
        MarkedNext(State().bitmap, i);
        var t := BitTest(i);
        if t {
          used := used + 1;
        }
      }
      MarkedNext(State().bitmap, 0);
      var free := (diskSize - 2 - used) % 0x1_0000_0000_0000_0000;
      u := Usage(4096, (diskSize - 2) % 0x1_0000_0000_0000_0000, free, free, 27);
    }

    // ---- write ----

    /** The allocation loop of write: need blocks, first-fit, assigned from index cur of the table on. */
    method Allocate(ptrs: Ptrs, cur: nat, need: nat) returns (ok: bool, r: Ptrs)
      requires Ready() && cur + |Take(State().bitmap, diskSize, need).blocks| <= 1019
      modifies bitmap
      ensures Ready()
      ensures Allocated(old(State()), State(), Take(old(State()).bitmap, diskSize, need), ptrs, cur, need, ok, r)
    {
      hide *;
      SizeIs();
      ghost var s := State();
      ghost var m := s.bitmap;
      FsIs(s);
      TakeNone(m, diskSize, ptrs, cur);
      r := ptrs;
      var i := 0;
      while i < need
        invariant i <= need && Ready() && |Take(m, diskSize, i).blocks| == i
        invariant State() == Fs(s.disk, Take(m, diskSize, i).map8)
        invariant r == Assign(ptrs, cur, Take(m, diskSize, i).blocks)
      {
        TakeNext(m, diskSize, i);
        var b := FindFree();
        if b == 0 {
          IsAllocated(s, State(), Take(m, diskSize, need), ptrs, cur, need, false, r);
          return false, r;
        }
        FreeSmall(State(), b, diskSize);
        TakeGrows(m, diskSize, i + 1, need);
        AssignNext(ptrs, cur, Take(m, diskSize, i).blocks, b);
        BitSet(b);
        r := r[cur + i := b];
        i := i + 1;
      }
      IsAllocated(s, State(), Take(m, diskSize, need), ptrs, cur, need, true, r);
      return true, r;
    }

    lemma FreeSmall(s: Fs, b: nat, n: nat)
      requires b == FirstFree(s.bitmap, n, 2) && b != 0
      ensures 2 <= b < n
    {
      hide Bit;
    }

    /** The data loop of write. */
    method WriteBytes(ptrs: Ptrs, off: nat, data: Str)
      requires Ready() && off + |data| <= 1019 * 4096 && PagesIn(ptrs, off, |data|, diskSize)
      modifies this`disk, this`trace
      ensures var s := old(State()); var ws := DataWrites(s.disk, ptrs, off, data);
        Ready() && State() == Fs(Apply(s.disk, ws), s.bitmap) && trace == old(trace) + ws
    {
      hide *;
      ghost var s := State();
      ghost var ws := DataWrites(s.disk, ptrs, off, data);
      ghost var done: seq<Write> := [];
      var n := 0;
      assert data[0..] == data && [] + ws == ws && old(trace) + [] == old(trace);
      while n < |data|
        invariant n <= |data| && Ready() && State().bitmap == s.bitmap && trace == old(trace) + done
        invariant ws == done + DataWrites(State().disk, ptrs, off + n, data[n..])
        invariant Apply(s.disk, ws) == Apply(State().disk, DataWrites(State().disk, ptrs, off + n, data[n..]))
      {
        ghost var d := State().disk;
        var x := off + n;
        var k, o := x / 4096, x % 4096;
        assert k < 1019;
        PageIn(ptrs, off, |data|, diskSize, x);
        DataNext(d, ptrs, x, data[n..]);
        var m := if |data| - n < 4096 - o then |data| - n else 4096 - o;
        ChunkIs(x, |data| - n);
        var block := ZeroBlock();
        if o > 0 || m < 4096 {
          block := BlockRead(ptrs[k]);
          BytesOfRead(block);
        } else {
          WholeSplice(block, At(d, ptrs[k]).bytes, data[n..][..m]);
        }
        BlockWrite(Splice(block, o, data[n..][..m]), ptrs[k]);
        done := done + [ChunkWrite(d, ptrs, x, data[n..])];
        assert data[n..][m..] == data[n + m..];
        n := n + m;
      }
      DataDone(State().disk, ptrs, off + n);
      assert data[n..] == [];
      FsIs(State());
    }

    lemma ChunkIs(off: nat, n: nat)
      ensures Chunk(off, n) == if n < 4096 - off % 4096 then n else 4096 - off % 4096
    {}

    /** write to the file i. */
    method WriteInto(inode: Inode, i: nat, data: Str, off: nat, now: nat) returns (code: int)
      requires Valid() && Ino(cert, i) && !DirAt(State().disk, i) && inode == Node(State().disk, i)
      requires off + |data| <= 0xFFF_FFFF_F000 && Room(State(), i, off, |data|) && off <= inode.size
      modifies this`disk, this`trace, bitmap
      ensures var s := old(State()); Ended(s, old(trace), WriteAt(s, i, data, off, now), code)
    {
      hide *;
      ghost var s := State();
      ghost var o := WriteAt(s, i, data, off, now);
      ValidParts();
      SizeIs();
      RoomIs(s, i, off, |data|);
      NeedIs(off, |data|, inode.size);
      var newBlocks: int, current: int := Blocks(off + |data|), Blocks(inode.size);
      var need := (newBlocks - current) % 0x1_0000_0000;
      ghost var t := Take(s.bitmap, diskSize, need);
      WriteEnds(s, cert, i, data, off, now, t);
      NeededIs(s, cert, i, off, |data|);
      var ok, ptrs := Allocate(inode.ptrs, current, need);
      AllocatedIs(s, State(), t, inode.ptrs, current, need, ok, ptrs);
      if !ok {
        NoneWritten(s, t.map8, ENOSPC, trace);
        IsEnded(s, old(trace), o, ENOSPC);
        return ENOSPC;
      }
      WrittenIs(inode, t.blocks, off + |data|, now);
      WritePages(s, cert, i, off, |data|, now);
      LiveLeads(s.disk, cert, i);
      WriteBytes(ptrs, off, data);
      var x := inode.(ptrs := ptrs, size := NewSize(inode.size, off + |data|), mtime := now % 0x1_0000_0000);
      WriteInode(x, i);
      if newBlocks > current {
        WriteBitmap();
      }
      IsEnded(s, old(trace), o, |data|);
      return |data|;
    }

    lemma NoneWritten(s: Fs, m: Block, code: int, t: seq<Write>)
      ensures After(s, Outcome(code, [], m)) == Fs(s.disk, m) && t + [] == t
    {
      ApplyNone(s.disk);
    }

    method WriteData(path: Str, data: Str, off: nat, now: nat) returns (code: int)
      requires Valid() && Shallow(State().disk, Components(path))
      requires Bounded(State(), Components(path), off, |data|)
      modifies this, bitmap
      ensures Did(old(State()), old(trace), WriteCall(Components(path), data, off, now), code)
    {
      ghost var a := WriteCall(Components(path), data, off, now);
      ghost var s := State();
      hide *;
      ValidParts();
      MayCall(s, a);
      DoIs(s, a);
      WriteFileShape(s, Components(path), data, off, now);
      TargetIs(s.disk, Components(path));
      var e, i, inode := TranslatePath(path);
      DirAtIs(s.disk, i);
      if e != 0 {
        Refused(Do(s, a), e);
        code := e;
      } else if IsDir(inode.mode) {
        Refused(Do(s, a), EISDIR);
        code := EISDIR;
      } else if off > inode.size {
        WriteBeyond(s, i, data, off, now);
        Refused(Do(s, a), EINVAL);
        code := EINVAL;
      } else {
        TargetLive(s.disk, cert, Components(path));
        AllocatesIs(s, Components(path), off);
        BoundedIs(s, Components(path), off, |data|);
        code := WriteInto(inode, i, data, off, now);
      }
      Settle(s, old(trace), a, code);
    }
  }
}
