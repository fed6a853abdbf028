/** What each operation of homework.c does, as a function of the state before it: the return code,
    the block writes in order, and the in-memory bitmap afterwards. Block reads and writes succeed. */
module Ops {
  import opened Format
  import opened Bits
  import opened Image
  import opened Change
  import opened Paths

  datatype Write = Write(lba: nat, data: Sector)

  /** The disk and the in-memory bitmap; the disk has superblock.disk_size blocks. */
  datatype Fs = Fs(disk: Disk, bitmap: Block)

  datatype Outcome = Outcome(code: int, writes: seq<Write>, bitmap: Block)

  /** The identity of the caller and the clock. */
  datatype Caller = Caller(uid: nat, gid: nat, now: nat)

  function Apply(d: Disk, ws: seq<Write>): (r: Disk)
    ensures |r| == |d|
  { if ws == [] then d else Put(Apply(d, Front(ws)), Last(ws).lba, Last(ws).data) }

  function After(s: Fs, o: Outcome): Fs { Fs(Apply(s.disk, o.writes), o.bitmap) }

  /** Return without a write. */
  function Err(s: Fs, code: int): Outcome { Outcome(code, [], s.bitmap) }

  function Flush(bm: Block): Write { Write(1, Read(bm)) }

  // ---- create and mkdir ----

  function Fresh(mode: nat, size: int32, ptrs: Ptrs, w: Caller): Inode {
    var now := w.now % 0x1_0000_0000;
    Inode(w.uid % 0x1_0000, w.gid % 0x1_0000, mode % 0x1_0000_0000, now, now, size, ptrs)
  }

  function NewFile(mode: nat, w: Caller): Inode { Fresh(mode, 0, NoPtrs(), w) }

  /** mkdir's mode has permission bits only; S_IFDIR is or-ed in. */
  function NewDir(mode: nat, b: nat, w: Caller): Inode
    requires mode < 0x1000
  { Fresh(0x4000 + mode, 4096, NoPtrs()[0 := b % 0x1_0000_0000], w) }

  /** The slot as the code fills it: the 31-bit inode field, strncpy and a NUL at byte 26. */
  function NewEntry(was: Dirent, c: nat, name: Str): Dirent { Dirent(true, c % 0x8000_0000, StoreName(was.name, name)) }

  function SlotWrite(d: Disk, i: nat, k: nat, e: Dirent): Write { Write(SlotBlock(d, i, k), SlotData(d, i, k, e)) }

  /** After the writes ws, put inode c into the first free slot of p; with no free slot, give up with the code full. */
  function Link(s: Fs, p: nat, name: Str, c: nat, bm: Block, ws: seq<Write>, full: int): Outcome {
    match FreeSlot(Apply(s.disk, ws), p, 0)
    case Miss => Outcome(full, ws, bm)
    case Hit(k) => LinkAt(Apply(s.disk, ws), p, k, name, c, bm, ws)
  }

  /** ... with slot k free on the disk d that the writes ws left. */
  function LinkAt(d: Disk, p: nat, k: nat, name: Str, c: nat, bm: Block, ws: seq<Write>): Outcome {
    Outcome(0, ws + [SlotWrite(d, p, k, NewEntry(Ent(d, p, k), c, name))], bm)
  }

  function CreateWrites(bm: Block, c: nat, mode: nat, w: Caller): seq<Write> {
    [Flush(bm), Write(c, InodeSector(NewFile(mode, w)))]
  }

  function MkdirWrites(bm: Block, c: nat, b: nat, mode: nat, w: Caller): seq<Write>
    requires mode < 0x1000
  { [Flush(bm), Write(c, InodeSector(NewDir(mode, b, w))), Write(b, Read(ZeroBlock()))] }

  function Create(s: Fs, comps: seq<Str>, mode: nat, w: Caller): Outcome
    requires Resolve(comps) != []
  {
    var r := Resolve(comps);
    match Walk(s.disk, Front(r))
    case Fail(e) => Err(s, e)
    case Ok(p) =>
      if !DirAt(s.disk, p) then Err(s, ENOTDIR)
      else if Find(s.disk, p, Last(r), 0).Hit? then Err(s, EEXIST)
      else
        var c := FirstFree(s.bitmap, |s.disk|, 2);
        if c == 0 then Err(s, ENOSPC)
        else
          var bm := SetBit(s.bitmap, c);
          Link(s, p, Last(r), c, bm, CreateWrites(bm, c, mode, w), ENOSPC)
  }

  function Mkdir(s: Fs, comps: seq<Str>, mode: nat, w: Caller): Outcome
    requires Resolve(comps) != [] && mode < 0x1000
  {
    var r := Resolve(comps);
    match Walk(s.disk, Front(r))
    case Fail(e) => Err(s, e)
    case Ok(p) =>
      if !DirAt(s.disk, p) then Err(s, ENOTDIR)
      else if Find(s.disk, p, Last(r), 0).Hit? then Err(s, EEXIST)
      else
        var t := Take(s.bitmap, |s.disk|, 2);
        if |t.blocks| < 2 then Err(s, ENOSPC)
        else
          var c, b := t.blocks[0], t.blocks[1];
          Link(s, p, Last(r), c, t.map8, MkdirWrites(t.map8, c, b, mode, w), EOPNOTSUPP)
  }

  // ---- unlink, rmdir and truncate ----

  /** Clear the bits of all blocks in bs but 0. */
  function ClearAll(bm: Block, bs: seq<nat>): Block {
    if bs == [] then bm
    else
      var m := ClearAll(bm, Front(bs));
      if Last(bs) == 0 then m else ClearBit(m, Last(bs))
  }

  /** Clear the first slot of p that carries the name, if there is one, and flush the bitmap bm. */
  function Detach(s: Fs, p: nat, name: Str, bm: Block): Outcome {
    match Find(s.disk, p, name, 0)
    case Miss => Outcome(0, [Flush(bm)], bm)
    case Hit(k) => Outcome(0, [SlotWrite(s.disk, p, k, Cleared(Ent(s.disk, p, k))), Flush(bm)], bm)
  }

  function Cleared(e: Dirent): Dirent { e.(valid := false) }

  /** unlink gets to where it splits off the last component of the resolved path ... */
  predicate UnlinkReaches(d: Disk, comps: seq<Str>) {
    Translate(d, comps).Ok? && !DirAt(d, Translate(d, comps).inum)
  }

  /** ... only if there is one. */
  predicate UnlinkDefined(d: Disk, comps: seq<Str>) { UnlinkReaches(d, comps) ==> Resolve(comps) != [] }

  function Unlink(s: Fs, comps: seq<Str>): Outcome
    requires UnlinkDefined(s.disk, comps)
  {
    match Translate(s.disk, comps)
    case Fail(e) => Err(s, e)
    case Ok(i) =>
      if DirAt(s.disk, i) then Err(s, EISDIR)
      else match Walk(s.disk, Front(Resolve(comps)))
        case Fail(e) => Err(s, e)
        case Ok(p) =>
          if !DirAt(s.disk, p) then Err(s, ENOTDIR)
          else Detach(s, p, Last(Resolve(comps)), ClearBit(ClearAll(s.bitmap, Table(s.disk, i)), i))
  }

  /** The first block of a directory holds no valid entry: all that rmdir looks at. */
  predicate FirstBlockEmpty(d: Disk, i: nat) {
    forall r :: 0 <= r < 128 ==> !At(d, Ptr(d, i, 0)).dirents[r].valid
  }

  predicate RmdirReaches(d: Disk, comps: seq<Str>) {
    && Translate(d, comps).Ok? && DirAt(d, Translate(d, comps).inum)
    && FirstBlockEmpty(d, Translate(d, comps).inum)
  }

  predicate RmdirDefined(d: Disk, comps: seq<Str>) { RmdirReaches(d, comps) ==> Resolve(comps) != [] }

  function Rmdir(s: Fs, comps: seq<Str>): Outcome
    requires RmdirDefined(s.disk, comps)
  {
    match Translate(s.disk, comps)
    case Fail(e) => Err(s, e)
    case Ok(i) =>
      if !DirAt(s.disk, i) then Err(s, ENOTDIR)
      else if !FirstBlockEmpty(s.disk, i) then Err(s, ENOTEMPTY)
      else match Walk(s.disk, Front(Resolve(comps)))
        case Fail(e) => Err(s, e)
        case Ok(p) =>
          if !DirAt(s.disk, p) then Err(s, ENOTDIR)
          else Detach(s, p, Last(Resolve(comps)), ClearBit(ClearBit(s.bitmap, Ptr(s.disk, i, 0)), i))
  }

  function Truncate(s: Fs, comps: seq<Str>, len: int, now: nat): Outcome {
    if len != 0 then Err(s, EINVAL)
    else match Translate(s.disk, comps)
      case Fail(e) => Err(s, e)
      case Ok(i) =>
        if DirAt(s.disk, i) then Err(s, EISDIR)
        else
          var bm := ClearAll(s.bitmap, Table(s.disk, i));
          Outcome(0, [Write(i, InodeSector(Emptied(Node(s.disk, i), now))), Flush(bm)], bm)
  }

  function Emptied(i: Inode, now: nat): Inode { i.(ptrs := NoPtrs(), size := 0, mtime := now % 0x1_0000_0000) }

  // ---- rename ----

  function Renamed(e: Dirent, name: Str): Dirent { e.(name := StoreName(e.name, name)) }

  /** The block-by-block scan: the first block that holds src decides, and only blocks up to it are searched for dst. */
  function RenameIn(s: Fs, p: nat, src: Str, dst: Str): Outcome {
    match Find(s.disk, p, src, 0)
    case Miss => Err(s, EOPNOTSUPP)
    case Hit(k) =>
      var l := Find(s.disk, p, dst, 0);
      if src != dst && l.Hit? && l.slot / 128 <= k / 128 then Err(s, EEXIST)
      else Outcome(0, [SlotWrite(s.disk, p, k, Renamed(Ent(s.disk, p, k), dst))], s.bitmap)
  }

  predicate RenameDefined(d: Disk, src: seq<Str>, dst: seq<Str>) {
    Translate(d, src).Ok? ==> Resolve(src) != [] && Resolve(dst) != []
  }

  function Rename(s: Fs, src: seq<Str>, dst: seq<Str>): Outcome
    requires RenameDefined(s.disk, src, dst)
  {
    if Translate(s.disk, src).Fail? then Err(s, ENOENT)
    else
      var ps, pd := Walk(s.disk, Front(Resolve(src))), Walk(s.disk, Front(Resolve(dst)));
      if ps.Fail? || pd.Fail? then Err(s, ENOENT)
      else if ps.inum != pd.inum then Err(s, EINVAL)
      else if !DirAt(s.disk, ps.inum) then Err(s, ENOTDIR)
      else RenameIn(s, ps.inum, Last(Resolve(src)), Last(Resolve(dst)))
  }

  // ---- chmod and utime ----

  /** (mode & S_IFMT) | (new & 0777). */
  function PermMode(was: nat, mode: nat): nat { was / 0x1000 % 16 * 0x1000 + mode % 0x200 }

  function ChmodInode(n: Inode, mode: nat): Inode { n.(mode := PermMode(n.mode, mode)) }

  /** The inode is copied into the block before mtime is set, so the new mtime is not stored. */
  function Chmod(s: Fs, comps: seq<Str>, mode: nat): Outcome {
    match Translate(s.disk, comps)
    case Fail(e) => Err(s, e)
    case Ok(i) =>
      Outcome(0, [Write(i, InodeSector(ChmodInode(Node(s.disk, i), mode)))], s.bitmap)
  }

  function Utime(s: Fs, comps: seq<Str>, modtime: nat): Outcome {
    match Translate(s.disk, comps)
    case Fail(e) => Err(s, e)
    case Ok(i) => Outcome(0, [Write(i, InodeSector(Node(s.disk, i).(mtime := modtime % 0x1_0000_0000)))], s.bitmap)
  }

  // ---- write ----

  /** One turn of the write loop at file position off: the bytes go into the block of ptrs that holds off. */
  function Chunk(off: nat, n: nat): (c: nat)
    ensures n > 0 ==> 0 < c <= n
  { if n <= 4096 - off % 4096 then n else 4096 - off % 4096 }

  function Splice(b: Block, at: nat, data: Str): Block
    requires at + |data| <= 4096
  { b[..at] + data + b[at + |data|..] }

  function PtrIn(ptrs: Ptrs, k: nat): nat { if k < 1019 then ptrs[k] else 0 }

  function ChunkWrite(d: Disk, ptrs: Ptrs, off: nat, data: Str): Write
    requires data != []
  {
    var b := PtrIn(ptrs, off / 4096);
    Write(b, Read(Splice(At(d, b).bytes, off % 4096, data[..Chunk(off, |data|)])))
  }

  /** All turns of the loop. */
  function DataWrites(d: Disk, ptrs: Ptrs, off: nat, data: Str): seq<Write>
    decreases |data|
  {
    if data == [] then []
    else
      var w := ChunkWrite(d, ptrs, off, data);
      var c := Chunk(off, |data|);
      [w] + DataWrites(Put(d, w.lba, w.data), ptrs, off + c, data[c..])
  }

  /** The pointer table with the blocks bs assigned from index k on. */
  function Assign(ptrs: Ptrs, k: nat, bs: seq<nat>): Ptrs {
    seq(1019, j requires 0 <= j < 1019 => if k <= j < k + |bs| then bs[j - k] % 0x1_0000_0000 else ptrs[j])
  }

  /** The size field is 32 bits wide. */
  function NewSize(size: int32, end: nat): int32 {
    ToSigned((if size < end then end else FromSigned(size)) % 0x1_0000_0000)
  }

  /** new_blocks_needed: an unsigned 32-bit difference, so it wraps when the write ends in an earlier block. */
  function Needed(off: nat, len: nat, size: int): nat { (Blocks(off + len) - Blocks(size)) % 0x1_0000_0000 }

  /** The inode as fs_write leaves it: the new blocks assigned, the size grown, the time set. */
  function Written(n: Inode, bs: seq<nat>, end: nat, now: nat): Inode {
    n.(ptrs := Assign(n.ptrs, Blocks(n.size), bs), size := NewSize(n.size, end), mtime := now % 0x1_0000_0000)
  }

  function WriteAt(s: Fs, i: nat, data: Str, off: nat, now: nat): Outcome {
    var n := Node(s.disk, i);
    if off > n.size then Err(s, EINVAL)
    else
      var need := Needed(off, |data|, n.size);
      var t := Take(s.bitmap, |s.disk|, need);
      if |t.blocks| < need then Outcome(ENOSPC, [], t.map8)
      else
        var x := Written(n, t.blocks, off + |data|, now);
        var ws := DataWrites(s.disk, x.ptrs, off, data) + [Write(i, InodeSector(x))];
        Outcome(|data|, if Blocks(off + |data|) > Blocks(n.size) then ws + [Flush(t.map8)] else ws, t.map8)
  }

  function WriteFile(s: Fs, comps: seq<Str>, data: Str, off: nat, now: nat): Outcome {
    match Translate(s.disk, comps)
    case Fail(e) => Err(s, e)
    case Ok(i) => if DirAt(s.disk, i) then Err(s, EISDIR) else WriteAt(s, i, data, off, now)
  }
}
