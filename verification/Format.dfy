/** The on-disk format: 4096-byte blocks, one-block inodes and 32-byte directory entries
    (fs5600.h:12-48, diskfmt.py:5-22). All integers are little-endian. */
module Format {
  import opened Words


  type Str = seq<byte>
  type Block = b: seq<byte> | |b| == 4096 witness seq(4096, _ => 0)

  function ZeroBlock(): Block { seq(4096, _ => 0) }

  // ---- words ----

  function ByteOf(w: nat, j: nat): byte
    requires j < 4
  { Digit(w, j) }

  /** A little-endian number of any width. */
  function Little(s: seq<byte>): nat { if s == [] then 0 else s[0] + 0x100 * Little(s[1..]) }

  lemma LittleTwo(s: seq<byte>)
    requires |s| == 2
    ensures Little(s) == Compose(s[0], s[1], 0, 0) && Little(s) < 0x1_0000
  {
    assert s[1..][1..] == [] && s[1..][0] == s[1];
    assert Little(s[1..]) == s[1] + 0x100 * Little(s[1..][1..]);
  }

  lemma LittleFour(s: seq<byte>)
    requires |s| == 4
    ensures Little(s) == Compose(s[0], s[1], s[2], s[3]) && Little(s) < 0x1_0000_0000
  {
    LittleTwo(s[2..]);
    assert s[1..][1..] == s[2..] && s[1..][0] == s[1];
    assert Little(s[1..]) == s[1] + 0x100 * Little(s[1..][1..]);
  }

  /** The 32-bit word at byte offset o. */
  function Word(b: seq<byte>, o: nat): (w: nat)
    requires o + 4 <= |b|
    ensures w < 0x1_0000_0000
  {
    LittleFour(b[o..o + 4]);
    Little(b[o..o + 4])
  }

  function Half(b: seq<byte>, o: nat): (w: nat)
    requires o + 2 <= |b|
    ensures w < 0x1_0000
  {
    LittleTwo(b[o..o + 2]);
    Little(b[o..o + 2])
  }

  lemma WordOfBytes(b: seq<byte>, o: nat, w: nat)
    requires o + 4 <= |b| && w < 0x1_0000_0000
    requires b[o] == ByteOf(w, 0) && b[o + 1] == ByteOf(w, 1) && b[o + 2] == ByteOf(w, 2) && b[o + 3] == ByteOf(w, 3)
    ensures Word(b, o) == w
  {
    hide Compose, Digit, Little;
    LittleFour(b[o..o + 4]);
    ComposeOfDigits(w);
  }

  lemma BytesOfWord(b: seq<byte>, o: nat, j: nat)
    requires o + 4 <= |b| && j < 4
    ensures ByteOf(Word(b, o), j) == b[o + j]
  {
    hide Compose, Digit, Little;
    LittleFour(b[o..o + 4]);
    DigitsOfCompose(b[o], b[o + 1], b[o + 2], b[o + 3]);
  }

  // ---- the superblock ----

  const FS_MAGIC: nat := 0x30303635

  /** A struct fs_super with the magic number and n blocks, padded with zeros. */
  function Superblock(n: nat): (b: Block)
    requires n < 0x1_0000_0000
    ensures Word(b, 0) == FS_MAGIC && Word(b, 4) == n
  {
    hide Word, ByteOf;
    var b: Block := seq(4096, x requires 0 <= x =>
      if x < 4 then ByteOf(FS_MAGIC, x) else if x < 8 then ByteOf(n, x - 4) else 0);
    WordOfBytes(b, 0, FS_MAGIC);
    WordOfBytes(b, 4, n);
    b
  }

  // ---- inodes ----

  type uint16 = x: int | 0 <= x < 0x1_0000
  type uint31 = x: int | 0 <= x < 0x8000_0000
  type uint32 = x: int | 0 <= x < 0x1_0000_0000
  type int32 = x: int | -0x8000_0000 <= x < 0x8000_0000
  type Ptrs = s: seq<uint32> | |s| == 1019 witness seq(1019, _ => 0)

  datatype Inode = Inode(uid: uint16, gid: uint16, mode: uint32, ctime: uint32, mtime: uint32, size: int32, ptrs: Ptrs)

  function NoPtrs(): Ptrs { seq(1019, _ => 0) }

  /** Two's complement reading and writing of the int32_t size field. */
  function ToSigned(w: uint32): int32 { if w < 0x8000_0000 then w else w - 0x1_0000_0000 }
  function FromSigned(v: int32): uint32 { if v < 0 then v + 0x1_0000_0000 else v }

  /** memcpy from a block into a struct fs_inode. */
  function DecodeInode(b: Block): Inode {
    hide Word, Half;
    Inode(Half(b, 0), Half(b, 2), Word(b, 4), Word(b, 8), Word(b, 12), ToSigned(Word(b, 16)),
          seq(1019, k requires 0 <= k < 1019 => Word(b, 20 + 4 * k)))
  }

  /** The byte at position x of a struct fs_inode. */
  function InodeByte(i: Inode, x: nat): byte
    requires x < 4096
  {
    if x < 2 then ByteOf(i.uid, x)
    else if x < 4 then ByteOf(i.gid, x - 2)
    else if x < 8 then ByteOf(i.mode, x - 4)
    else if x < 12 then ByteOf(i.ctime, x - 8)
    else if x < 16 then ByteOf(i.mtime, x - 12)
    else if x < 20 then ByteOf(FromSigned(i.size), x - 16)
    else ByteOf(i.ptrs[(x - 20) / 4], (x - 20) % 4)
  }

  /** memcpy from a struct fs_inode into a block. */
  function EncodeInode(i: Inode): Block {
    seq(4096, x requires 0 <= x < 4096 => InodeByte(i, x))
  }

  lemma HalfOfBytes(b: seq<byte>, o: nat, w: nat)
    requires o + 2 <= |b| && w < 0x1_0000
    requires b[o] == ByteOf(w, 0) && b[o + 1] == ByteOf(w, 1)
    ensures Half(b, o) == w
  {
    hide Little;
    LittleTwo(b[o..o + 2]);
  }

  lemma BytesOfHalf(b: seq<byte>, o: nat, j: nat)
    requires o + 2 <= |b| && j < 2
    ensures ByteOf(Half(b, o), j) == b[o + j]
  {
    hide Compose, Digit, Little;
    LittleTwo(b[o..o + 2]);
    DigitsOfCompose(b[o], b[o + 1], 0, 0);
  }

  lemma PtrRoundTrip(i: Inode, k: nat)
    requires k < 1019
    ensures Word(EncodeInode(i), 20 + 4 * k) == i.ptrs[k]
  {
    hide Word, ByteOf;
    var b, o := EncodeInode(i), 20 + 4 * k;
    assert b[o] == InodeByte(i, o) && b[o + 1] == InodeByte(i, o + 1);
    assert b[o + 2] == InodeByte(i, o + 2) && b[o + 3] == InodeByte(i, o + 3);
    WordOfBytes(b, o, i.ptrs[k]);
  }

  /** An inode read back from the block it was written to is the inode that was written. */
  lemma InodeRoundTrip(i: Inode)
    ensures DecodeInode(EncodeInode(i)) == i
  {
    hide Word, Half, ByteOf;
    var b := EncodeInode(i);
    HalfOfBytes(b, 0, i.uid);
    HalfOfBytes(b, 2, i.gid);
    WordOfBytes(b, 4, i.mode);
    WordOfBytes(b, 8, i.ctime);
    WordOfBytes(b, 12, i.mtime);
    WordOfBytes(b, 16, FromSigned(i.size));
    forall k: nat | k < 1019
      ensures DecodeInode(b).ptrs[k] == i.ptrs[k]
    {
      PtrRoundTrip(i, k);
    }
    assert DecodeInode(b).ptrs == i.ptrs;
  }

  lemma InodeByteOfBlock(b: Block, x: nat)
    requires x < 4096
    ensures InodeByte(DecodeInode(b), x) == b[x]
  {
    hide Word, Half, ByteOf;
    if x < 2 {
      BytesOfHalf(b, 0, x);
    } else if x < 4 {
      BytesOfHalf(b, 2, x - 2);
    } else if x < 20 {
      BytesOfWord(b, x / 4 * 4, x % 4);
    } else {
      BytesOfWord(b, 20 + 4 * ((x - 20) / 4), (x - 20) % 4);
    }
  }

  /** Every block is the encoding of exactly the inode it decodes to: no byte of it is lost. */
  lemma BlockRoundTrip(b: Block)
    ensures EncodeInode(DecodeInode(b)) == b
  {
    hide DecodeInode, InodeByte;
    forall x: nat | x < 4096
      ensures EncodeInode(DecodeInode(b))[x] == b[x]
    {
      InodeByteOfBlock(b, x);
    }
  }

  // ---- directory entries ----

  type NameField = s: Str | |s| == 28 witness seq(28, _ => 0)

  datatype Dirent = Dirent(valid: bool, inode: uint31, name: NameField)

  /** Entry r of a directory block: a 1-bit flag, a 31-bit inode number and a 28-byte name. */
  function DecodeDirent(b: Block, r: nat): Dirent
    requires r < 128
  {
    var w := Word(b, 32 * r);
    Dirent(w % 2 == 1, w / 2, b[32 * r + 4..32 * r + 32])
  }

  function DirentWord(e: Dirent): nat { (if e.valid then 1 else 0) + 2 * e.inode }

  /** Byte j of an encoded entry. */
  function DirentByte(e: Dirent, j: nat): byte
    requires j < 32
  {
    if j < 4 then ByteOf(DirentWord(e), j) else e.name[j - 4]
  }

  /** A block with entry r overwritten. */
  function PutDirent(b: Block, r: nat, e: Dirent): Block
    requires r < 128
  {
    seq(4096, x requires 0 <= x < 4096 => if x / 32 == r then DirentByte(e, x % 32) else b[x])
  }

  /** Overwriting entry r is seen at entry r and nowhere else. */
  lemma PutThenGet(b: Block, r: nat, e: Dirent, q: nat)
    requires r < 128 && q < 128
    ensures DecodeDirent(PutDirent(b, r, e), q) == if q == r then e else DecodeDirent(b, q)
  {
    hide Little, ByteOf;
    var c := PutDirent(b, r, e);
    var o := 32 * q;
    if q == r {
      forall j: nat | j < 32
        ensures c[o + j] == DirentByte(e, j)
      {
        assert (o + j) / 32 == r && (o + j) % 32 == j;
      }
      assert c[o + 0] == DirentByte(e, 0) && c[o + 1] == DirentByte(e, 1);
      assert c[o + 2] == DirentByte(e, 2) && c[o + 3] == DirentByte(e, 3);
      WordOfBytes(c, o, DirentWord(e));
      forall k | 0 <= k < 28
        ensures c[o + 4..o + 32][k] == e.name[k]
      {
        assert c[o + (k + 4)] == DirentByte(e, k + 4);
      }
      assert c[o + 4..o + 32] == e.name;
    } else {
      forall x | o <= x < o + 32 ensures c[x] == b[x] { }
      assert c[o..o + 4] == b[o..o + 4];
      assert c[o + 4..o + 32] == b[o + 4..o + 32];
    }
  }

  /** A zeroed block holds no valid entry. */
  lemma ZeroBlockEmpty(r: nat)
    requires r < 128
    ensures !DecodeDirent(ZeroBlock(), r).valid
  {
    var b := ZeroBlock();
    assert b[32 * r] == 0 && b[32 * r + 1] == 0 && b[32 * r + 2] == 0 && b[32 * r + 3] == 0;
  }

  // ---- C strings ----

  /** The C string held in a name field: the bytes before the first NUL. */
  function CStr(s: Str): (r: Str)
    ensures |r| <= |s| && r == s[..|r|]
    ensures 0 !in r
    ensures |r| < |s| ==> s[|r|] == 0
  {
    if s == [] || s[0] == 0 then [] else [s[0]] + CStr(s[1..])
  }

  /** strncpy(field, s, 27) followed by field[26] = 0: byte 27 keeps what it held. */
  function StoreName(field: NameField, s: Str): NameField {
    seq(28, j requires 0 <= j < 28 =>
      if j == 27 then field[27] else if j < 26 && j < |s| then s[j] else 0)
  }

  /** The name as it is kept on disk: cut to 26 bytes. */
  function Kept(s: Str): Str { if |s| <= 26 then s else s[..26] }

  lemma CStrIsPrefix(s: Str, p: Str)
    requires |p| < |s| && s[..|p|] == p && s[|p|] == 0 && 0 !in p
    ensures CStr(s) == p
  {}

  /** What strncpy stored is read back by strcmp as the name cut to 26 bytes. */
  lemma StoredNameReadsBack(field: NameField, s: Str)
    requires 0 !in s
    ensures CStr(StoreName(field, s)) == Kept(s)
  {
    var r := StoreName(field, s);
    assert r[..|Kept(s)|] == Kept(s);
    CStrIsPrefix(r, Kept(s));
  }

  // ---- mode bits ----

  /** (mode & S_IFMT) == S_IFDIR and == S_IFREG, the masks written as arithmetic. */
  predicate IsDir(mode: nat) { mode / 0x1000 % 16 == 4 }
  predicate IsReg(mode: nat) { mode / 0x1000 % 16 == 8 }

  /** ceil(size / FS_BLOCK_SIZE). */
  function Blocks(size: int): nat { if size <= 0 then 0 else (size + (4095)) / 4096 }

  // ---- a block in its three readings ----

  type Dirents = s: seq<Dirent> | |s| == 128 witness seq(128, _ => Dirent(false, 0, seq(28, _ => 0)))

  /** One block of the disk. The code casts the same 4096 bytes to a struct fs_inode or to an array of
      struct fs_dirent, so a sector carries its bytes together with both readings of them. */
  datatype Sector = Sector(bytes: Block, inode: Inode, dirents: Dirents)

  function NoDirents(): Dirents { seq(128, _ => Dirent(false, 0, seq(28, _ => 0))) }

  function Blank(): Sector { Sector(ZeroBlock(), Inode(0, 0, 0, 0, 0, 0, NoPtrs()), NoDirents()) }

  function DecodeDirents(b: Block): Dirents {
    seq(128, r requires 0 <= r < 128 => DecodeDirent(b, r))
  }

  /** The sector of a block's bytes. */
  function Read(b: Block): Sector { Sector(b, DecodeInode(b), DecodeDirents(b)) }

  lemma BytesOfRead(b: Block)
    ensures Read(b).bytes == b
  {
    hide DecodeInode, DecodeDirents;
  }

  /** The sector written by memcpy from a struct fs_inode. */
  function InodeSector(i: Inode): Sector { Sector(EncodeInode(i), i, DecodeDirents(EncodeInode(i))) }

  /** A directory sector with entry r patched in place. */
  function PatchDirent(s: Sector, r: nat, e: Dirent): Sector
    requires r < 128
  {
    var b := PutDirent(s.bytes, r, e);
    Sector(b, DecodeInode(b), s.dirents[r := e])
  }

  lemma InodeSectorIsRead(i: Inode)
    ensures InodeSector(i) == Read(EncodeInode(i))
  {
    hide DecodeInode, EncodeInode, DecodeDirents;
    InodeRoundTrip(i);
  }

  /** Patching an entry of a sector is patching its bytes. */
  lemma PatchIsPut(b: Block, r: nat, e: Dirent)
    requires r < 128
    ensures PatchDirent(Read(b), r, e) == Read(PutDirent(b, r, e))
  {
    hide DecodeInode, DecodeDirent, PutDirent;
    forall q: nat | q < 128
      ensures DecodeDirents(b)[r := e][q] == DecodeDirents(PutDirent(b, r, e))[q]
    {
      PutThenGet(b, r, e, q);
    }
  }

  /** A zeroed block reads as a directory block without entries. */
  lemma ZeroReads(r: nat)
    requires r < 128
    ensures !Read(ZeroBlock()).dirents[r].valid
  {
    hide DecodeInode, DecodeDirent;
    ZeroBlockEmpty(r);
  }

  // ---- the layout, byte by byte ----

  /** Two and four bytes of an image as a number, the least significant byte first. */
  function TwoBytes(b: Block, o: nat): nat
    requires o + 2 <= 4096
  {
    var b0: nat, b1: nat := b[o], b[o + 1];
    b0 + 256 * b1
  }

  function FourBytes(b: Block, o: nat): nat
    requires o + 4 <= 4096
  {
    var b0: nat, b1: nat, b2: nat, b3: nat := b[o], b[o + 1], b[o + 2], b[o + 3];
    b0 + 256 * b1 + 65536 * b2 + 16777216 * b3
  }

  /** Where a struct fs_inode has its fields; a negative size is kept in two's complement. */
  predicate FieldsAt(b: Block, n: Inode) {
    && TwoBytes(b, 0) == n.uid && TwoBytes(b, 2) == n.gid && FourBytes(b, 4) == n.mode
    && FourBytes(b, 8) == n.ctime && FourBytes(b, 12) == n.mtime
    && FourBytes(b, 16) == (if n.size < 0 then n.size + 4294967296 else n.size)
  }

  /** ... and its pointers behind them. */
  ghost predicate InodeAt(b: Block, n: Inode) {
    FieldsAt(b, n) && TableAt(b, n.ptrs)
  }

  ghost predicate TableAt(b: Block, ptrs: seq<nat>) { forall k :: 0 <= k < 1019 ==> PointerAt(b, ptrs, k) }

  /** Pointer k; behind the given ones all are 0. */
  predicate PointerAt(b: Block, ptrs: seq<nat>, k: nat)
    requires k < 1019
  { FourBytes(b, 20 + 4 * k) == if k < |ptrs| then ptrs[k] else 0 }

  lemma TablePadded(b: Block, ptrs: Ptrs, given: seq<nat>)
    requires TableAt(b, ptrs)
    ensures TableAt(b, given) <==> forall k :: 0 <= k < 1019 ==> ptrs[k] == if k < |given| then given[k] else 0
  {
    hide FourBytes;
    forall k | 0 <= k < 1019
      ensures PointerAt(b, given, k) <==> ptrs[k] == if k < |given| then given[k] else 0
    {
      assert PointerAt(b, ptrs, k);
    }
  }

  /** Where the r-th struct fs_dirent of a block has its fields: the flag is the lowest bit, the 31 bits of the inode
      number lie above it, and the name follows. */
  predicate EntryAt(b: Block, r: nat, e: Dirent)
    requires r < 128
  {
    && b[32 * r] == (if e.valid then 1 else 0) + 2 * (e.inode % 128)
    && b[32 * r + 1] == e.inode / 128 % 256
    && b[32 * r + 2] == e.inode / 32768 % 256
    && b[32 * r + 3] == e.inode / 8388608
    && b[32 * r + 4..32 * r + 32] == e.name
  }

  lemma WordIsFour(b: Block, o: nat)
    requires o + 4 <= 4096
    ensures Word(b, o) == FourBytes(b, o)
  {
    hide Little;
    LittleFour(b[o..o + 4]);
  }

  lemma HalfIsTwo(b: Block, o: nat)
    requires o + 2 <= 4096
    ensures Half(b, o) == TwoBytes(b, o)
  {
    hide Little;
    LittleTwo(b[o..o + 2]);
  }

  /** The inode that a block is read as is the one whose fields lie there ... */
  lemma InodeReads(b: Block, n: Inode)
    ensures InodeAt(b, n) <==> DecodeInode(b) == n
  {
    hide Word, Half, TwoBytes, FourBytes;
    HalfIsTwo(b, 0);
    HalfIsTwo(b, 2);
    WordIsFour(b, 4);
    WordIsFour(b, 8);
    WordIsFour(b, 12);
    WordIsFour(b, 16);
    forall k | 0 <= k < 1019
      ensures DecodeInode(b).ptrs[k] == FourBytes(b, 20 + 4 * k)
    {
      WordIsFour(b, 20 + 4 * k);
    }
    if InodeAt(b, n) {
      forall k | 0 <= k < 1019
        ensures DecodeInode(b).ptrs[k] == n.ptrs[k]
      {
        assert PointerAt(b, n.ptrs, k);
      }
      assert DecodeInode(b).ptrs == n.ptrs;
    }
  }

  /** ... and the block that it is written as is the one block in which they do. */
  lemma InodeWrites(b: Block, n: Inode)
    ensures InodeAt(b, n) <==> b == EncodeInode(n)
  {
    hide InodeAt, DecodeInode, EncodeInode;
    InodeReads(b, n);
    InodeRoundTrip(n);
    BlockRoundTrip(b);
  }

  /** The fields do not depend on the pointers. */
  lemma FieldsAlone(b: Block, n: Inode, m: Inode)
    requires InodeAt(b, n) && n.(ptrs := m.ptrs) == m
    ensures FieldsAt(b, m) && TableAt(b, n.ptrs)
  {
    hide TwoBytes, FourBytes, TableAt;
  }

  /** The same for an entry of a directory block. */
  lemma EntryReads(b: Block, r: nat, e: Dirent)
    requires r < 128
    ensures EntryAt(b, r, e) <==> DecodeDirent(b, r) == e
  {
    var o := 32 * r;
    WordIsFour(b, o);
    FlagAndNumber(b[o], b[o + 1], b[o + 2], b[o + 3], if e.valid then 1 else 0, e.inode);
    hide Word;
  }

  lemma FlagAndNumber(b0: nat, b1: nat, b2: nat, b3: nat, f: nat, i: nat)
    requires b0 < 256 && b1 < 256 && b2 < 256 && b3 < 256 && f < 2 && i < 0x8000_0000
    ensures var w := b0 + 256 * b1 + 65536 * b2 + 16777216 * b3;
      w % 2 == f && w / 2 == i <==>
        b0 == f + 2 * (i % 128) && b1 == i / 128 % 256 && b2 == i / 32768 % 256 && b3 == i / 8388608
  {
    var w := b0 + 256 * b1 + 65536 * b2 + 16777216 * b3;
    Quotients(i);
    Halves(w, f, i);
    if w == 2 * i + f {
      Lowest(b0, b1 + 256 * b2 + 65536 * b3, f, i);
      NextDigit(b1, b2 + 256 * b3, i / 128);
      NextDigit(b2, b3, i / 128 / 256);
    }
    Recombine(i);
  }

  lemma Halves(w: nat, f: nat, i: nat)
    requires f < 2
    ensures w % 2 == f && w / 2 == i <==> w == 2 * i + f
  {}

  lemma Recombine(i: nat)
    ensures i == i % 128 + 128 * (i / 128 % 256) + 32768 * (i / 32768 % 256) + 8388608 * (i / 8388608)
  {
    Quotients(i);
    var j, k := i / 128, i / 128 / 256;
    assert i == 128 * j + i % 128 && j == 256 * k + j % 256 && k == 256 * (k / 256) + k % 256;
  }

  lemma Lowest(b0: nat, rest: nat, f: nat, i: nat)
    requires b0 < 256 && f < 2 && b0 + 256 * rest == 2 * i + f
    ensures b0 == f + 2 * (i % 128) && rest == i / 128
  {
    assert i == 128 * (i / 128) + i % 128;
    OneDigit(b0, rest, f + 2 * (i % 128), i / 128);
  }

  lemma OneDigit(a: nat, q: nat, b: nat, r: nat)
    requires a < 256 && b < 256 && a + 256 * q == b + 256 * r
    ensures a == b && q == r
  {}

  lemma NextDigit(b: nat, rest: nat, x: nat)
    requires b < 256 && b + 256 * rest == x
    ensures b == x % 256 && rest == x / 256
  {}

  lemma Quotients(i: nat)
    ensures i / 128 / 256 == i / 32768 && i / 128 / 256 / 256 == i / 8388608
  {}

  lemma EntryWrites(b: Block, r: nat, e: Dirent)
    requires r < 128
    ensures EntryAt(PutDirent(b, r, e), r, e)
    ensures forall x: nat :: x < 4096 && x / 32 != r ==> PutDirent(b, r, e)[x] == b[x]
  {
    PutThenGet(b, r, e, r);
    EntryReads(PutDirent(b, r, e), r, e);
    hide EntryAt, DecodeDirent;
  }

  /** A struct fs_super with zeros behind it. */
  lemma SuperblockBytes(n: uint32)
    ensures var b := Superblock(n);
      && b[0] == 0x35 && b[1] == 0x36 && b[2] == 0x30 && b[3] == 0x30 && FourBytes(b, 4) == n
      && forall x :: 8 <= x < 4096 ==> b[x] == 0
  {
    WordIsFour(Superblock(n), 4);
    hide Word;
  }

  /** The file type bits: the fourth hexadecimal digit of the mode. */
  lemma KindBits(high: nat, kind: nat, low: nat)
    requires kind < 16 && low < 4096
    ensures IsDir(65536 * high + 4096 * kind + low) <==> kind == 4
    ensures IsReg(65536 * high + 4096 * kind + low) <==> kind == 8
  {
    assert (65536 * high + 4096 * kind + low) / 4096 == 16 * high + kind;
  }
}
