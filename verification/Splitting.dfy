/** One write split in two: first-fit allocation composes, so the same blocks, pointers and bytes come out. */
module Splitting {
  import opened Format
  import opened Bits
  import opened Image
  import opened Ops
  import opened Keep
  import opened Bytes
  import opened Editing
  import opened Writing

  // ---- the disk after one write, block by block ----

  /** Block p of the disk e is page k of d with the data laid over it. */
  ghost predicate PageAfter(d: Disk, e: Disk, p: nat, k: nat, off: nat, data: Str) {
    && (forall o: nat :: o < 4096 ==> At(e, p).bytes[o] == Overlaid(At(d, p).bytes, k, o, off, data))
    && At(e, p) == if Touches(k, off, |data|) then Read(At(e, p).bytes) else At(d, p)
  }

  /** The disk f after a write of data at off that leaves the inode x with n pages, the bitmap m flushed if it grew. */
  ghost predicate Wrote(d: Disk, f: Disk, i: nat, x: Inode, n: nat, off: nat, data: Str, grows: bool, m: Block) {
    && |f| == |d| && Pages(d, x.ptrs, n) && off + |data| <= 4096 * n && 2 <= i < |d|
    && At(f, i) == InodeSector(x)
    && At(f, 1) == (if grows then Flush(m).data else At(d, 1))
    && (forall k :: 0 <= k < n ==> x.ptrs[k] != i && x.ptrs[k] != 1 && PageAfter(d, f, x.ptrs[k], k, off, data))
    && (forall b: nat :: b != i && b != 1 && (forall k :: 0 <= k < n ==> x.ptrs[k] != b) ==> At(f, b) == At(d, b))
  }

  lemma DataPage(d: Disk, ptrs: Ptrs, n: nat, off: nat, data: Str, k: nat)
    requires Pages(d, ptrs, n) && off + |data| <= 4096 * n && k < n
    ensures n <= 1019 && PageAfter(d, Apply(d, DataWrites(d, ptrs, off, data)), ptrs[k], k, off, data)
  {
    hide Apply, DataWrites, Overlaid, At, Read, Touches;
    DataSector(d, ptrs, n, off, data, k);
    forall o: nat | o < 4096
      ensures At(Apply(d, DataWrites(d, ptrs, off, data)), ptrs[k]).bytes[o] ==
          Overlaid(At(d, ptrs[k]).bytes, k, o, off, data)
    {
      DataByte(d, ptrs, n, off, data, k, o);
    }
  }

  lemma PageKept(d: Disk, e: Disk, f: Disk, p: nat, k: nat, off: nat, data: Str)
    requires PageAfter(d, e, p, k, off, data) && At(f, p) == At(e, p)
    ensures PageAfter(d, f, p, k, off, data)
  {
    hide Overlaid, Read, Touches, At;
  }

  /** The disk of a planned write. */
  lemma WriteBlocks(s: Fs, C: Cert, i: nat, data: Str, off: nat, now: nat)
    requires Plan(s, C, i, NewBlocks(s, i, off, |data|).blocks, off, |data|)
    ensures var t := NewBlocks(s, i, off, |data|);
      Wrote(s.disk, Apply(s.disk, WriteList(s, i, data, off, now)), i,
          Written(Node(s.disk, i), t.blocks, off + |data|, now),
            Blocks(off + |data|), off, data, Blocks(off + |data|) > Blocks(Node(s.disk, i).size), t.map8)
  {
    hide *;
    var d, t, n := s.disk, NewBlocks(s, i, off, |data|), Blocks(off + |data|);
    var x := Written(Node(d, i), t.blocks, off + |data|, now);
    var f := Apply(d, WriteList(s, i, data, off, now));
    var e := Apply(d, DataWrites(d, x.ptrs, off, data));
    PlanBounds(s, C, i, t.blocks, off, |data|);
    PlanPages(s, C, i, t.blocks, off, |data|, now);
    PagesBound(d, x.ptrs, n);
    WriteDisk(s, i, data, off, now);
    WrittenDiskIs(d, i, x, off, data);
    FlushIsWrite(t.map8);
    forall k | 0 <= k < n
      ensures PageAfter(d, f, x.ptrs[k], k, off, data)
    {
      DataPage(d, x.ptrs, n, off, data, k);
      PageKept(d, e, f, x.ptrs[k], k, off, data);
    }
    forall b: nat | b != i && forall k :: 0 <= k < n ==> x.ptrs[k] != b
      ensures At(e, b) == At(d, b)
    {
      DataNone(d, x.ptrs, n, off, data, b);
    }
    assert At(e, 1) == At(d, 1);
    WroteIs(d, f, i, x, n, off, data, n > Blocks(Node(d, i).size), t.map8);
  }

  lemma WroteIs(d: Disk, f: Disk, i: nat, x: Inode, n: nat, off: nat, data: Str, grows: bool, m: Block)
    requires |f| == |d| && Pages(d, x.ptrs, n) && n <= 1019 && off + |data| <= 4096 * n && 2 <= i < |d|
    requires At(f, i) == InodeSector(x) && At(f, 1) == (if grows then Flush(m).data else At(d, 1))
    requires forall k :: 0 <= k < n ==> x.ptrs[k] != i && x.ptrs[k] != 1 && PageAfter(d, f, x.ptrs[k], k, off, data)
    requires forall b: nat :: b != i && b != 1 && (forall k :: 0 <= k < n ==> x.ptrs[k] != b) ==> At(f, b) == At(d, b)
    ensures Wrote(d, f, i, x, n, off, data, grows, m)
  {
    hide PageAfter, At, Flush, InodeSector, Pages;
  }

  lemma PagesBound(d: Disk, ptrs: Ptrs, n: nat)
    requires Pages(d, ptrs, n)
    ensures n <= 1019
  {}

  lemma DataNone(d: Disk, ptrs: Ptrs, n: nat, off: nat, data: Str, b: nat)
    requires n <= 1019 && off + |data| <= 4096 * n && forall k :: 0 <= k < n ==> ptrs[k] != b
    ensures At(Apply(d, DataWrites(d, ptrs, off, data)), b) == At(d, b)
  {
    hide DataWrites, Apply;
    var dw := DataWrites(d, ptrs, off, data);
    assert dw[..|dw|] == dw;
    DataElse(d, ptrs, n, off, data, |dw|, b);
  }

  // ---- two writes and one ----

  lemma OverlaysCompose(was: Block, mid: Block, k: nat, o: nat, off: nat, a: Str, b: Str)
    requires o < 4096 && mid[o] == Overlaid(was, k, o, off, a)
    ensures Overlaid(mid, k, o, off + |a|, b) == Overlaid(was, k, o, off, a + b)
  {}

  /** The two halves of the data laid over a page one after the other leave the sector that the whole leaves. */
  lemma PagesCompose(d: Disk, d1: Disk, d2: Disk, e: Disk, p: nat, k: nat, off: nat, a: Str, b: Str)
    requires PageAfter(d, d1, p, k, off, a) && PageAfter(d1, d2, p, k, off + |a|, b)
    requires PageAfter(d, e, p, k, off, a + b)
    ensures At(d2, p) == At(e, p)
  {
    forall o: nat | o < 4096
      ensures At(d2, p).bytes[o] == At(e, p).bytes[o]
    {
      OverlaysCompose(At(d, p).bytes, At(d1, p).bytes, k, o, off, a, b);
    }
    assert At(d2, p).bytes == At(e, p).bytes;
    TouchesSplit(k, off, |a|, |b|);
    hide Overlaid, Touches, Read, At;
  }

  lemma TouchesSplit(k: nat, off: nat, m: nat, n: nat)
    ensures Touches(k, off, m + n) <==> Touches(k, off, m) || Touches(k, off + m, n)
  {}

  /** A page the write does not reach. */
  lemma PageBeyond(d: Disk, e: Disk, p: nat, k: nat, off: nat, data: Str)
    requires At(e, p) == At(d, p) && off + |data| <= 4096 * k
    ensures PageAfter(d, e, p, k, off, data)
  {
    hide At, Read;
  }

  lemma WroteSplits(d: Disk, d1: Disk, d2: Disk, e: Disk, i: nat, x1: Inode, x: Inode, n1: nat, n: nat, off: nat,
                    a: Str, b: Str, g1: bool, g2: bool, m1: Block, m: Block)
    requires Wrote(d, d1, i, x1, n1, off, a, g1, m1) && Wrote(d1, d2, i, x, n, off + |a|, b, g2, m)
    requires Wrote(d, e, i, x, n, off, a + b, g1 || g2, m)
    requires n1 <= n && (!g2 ==> m == m1) && n <= 1019 && forall k :: 0 <= k < n1 ==> x1.ptrs[k] == x.ptrs[k]
    ensures d2 == e
  {
    hide PageAfter, Pages, At, Flush, InodeSector;
    forall c: nat | c < |d|
      ensures At(d2, c) == At(e, c)
    {
      if k :| 0 <= k < n && x.ptrs[k] == c {
        SplitPage(d, d1, d2, e, i, x1, x, n1, n, off, a, b, g1, g2, m1, m, k);
      }
    }
    SameDisk(d2, e);
  }

  lemma SameDisk(d: Disk, e: Disk)
    requires |d| == |e| && forall c: nat :: c < |d| ==> At(d, c) == At(e, c)
    ensures d == e
  {
    forall c: nat | c < |d| ensures d[c] == e[c] { assert At(d, c) == At(e, c); }
  }

  lemma SplitPage(d: Disk, d1: Disk, d2: Disk, e: Disk, i: nat, x1: Inode, x: Inode, n1: nat, n: nat, off: nat,
                  a: Str, b: Str, g1: bool, g2: bool, m1: Block, m: Block, k: nat)
    requires Wrote(d, d1, i, x1, n1, off, a, g1, m1) && Wrote(d1, d2, i, x, n, off + |a|, b, g2, m)
    requires Wrote(d, e, i, x, n, off, a + b, g1 || g2, m)
    requires n1 <= n && k < n && n <= 1019 && forall k :: 0 <= k < n1 ==> x1.ptrs[k] == x.ptrs[k]
    ensures At(d2, x.ptrs[k]) == At(e, x.ptrs[k])
  {
    var p := x.ptrs[k];
    hide PageAfter, At, Flush, InodeSector;
    if k >= n1 {
      PageBeyond(d, d1, p, k, off, a);
    }
    PagesCompose(d, d1, d2, e, p, k, off, a, b);
  }

  /** First-fit for the two writes in turn takes what it takes for the one. */
  lemma TakeSplits(s: Fs, s1: Fs, i: nat, off: nat, m: nat, n: nat)
    requires |s1.disk| == |s.disk| && s1.bitmap == NewBlocks(s, i, off, m).map8
    requires CanWrite(s, i, off, m) && CanWrite(s, i, off, m + n) && off + m <= Node(s1.disk, i).size
    requires Blocks(Node(s1.disk, i).size) == Blocks(off + m)
    ensures var t, t1, t2 := NewBlocks(s, i, off, m + n), NewBlocks(s, i, off, m), NewBlocks(s1, i, off + m, n);
      && t.blocks == t1.blocks + t2.blocks && t.map8 == t2.map8 && CanWrite(s1, i, off + m, n)
      && |t1.blocks| == Blocks(off + m) - Blocks(Node(s.disk, i).size)
      && |t2.blocks| == Blocks(off + m + n) - Blocks(off + m)
  {
    var k := Blocks(off + m) - Blocks(Node(s.disk, i).size);
    var j := Blocks(off + m + n) - Blocks(off + m);
    hide *;
    MoreBlocks(off + m, off + m + n);
    assert off + (m + n) == off + m + n;
    NeededShape(s, i, off, m);
    NeededShape(s, i, off, m + n);
    NeededShape(s1, i, off + m, n);
    TakeComposes(s.bitmap, |s.disk|, k, j);
  }

  lemma MoreBlocks(x: nat, y: nat)
    requires x <= y
    ensures Blocks(x) <= Blocks(y)
  {}

  lemma AssignsCompose(ptrs: Ptrs, k: nat, a: seq<nat>, b: seq<nat>)
    ensures Assign(Assign(ptrs, k, a), k + |a|, b) == Assign(ptrs, k, a + b)
  {}

  /** The inode after the two writes is the inode after the one, whatever the time of the first. */
  lemma WrittenSplits(x: Inode, a: seq<nat>, b: seq<nat>, mid: nat, end: nat, now1: nat, now: nat)
    requires 0 <= x.size && mid <= end && end <= 1019 * 4096
    requires Blocks(Written(x, a, mid, now1).size) == Blocks(x.size) + |a|
    ensures Written(Written(x, a, mid, now1), b, end, now) == Written(x, a + b, end, now)
  {
    AssignsCompose(x.ptrs, Blocks(x.size), a, b);
    hide Assign, Blocks;
  }

  /** Taking fewer blocks stays inside the table, too. */
  lemma FewerRoom(s: Fs, C: Cert, i: nat, off: nat, m: nat, n: nat)
    requires Inv(s, C) && Ino(C, i) && !DirAt(s.disk, i) && off + m + n <= 0xFFF_FFFF_F000
    requires CanWrite(s, i, off, m) && CanWrite(s, i, off, m + n) && Room(s, i, off, m + n)
    ensures Room(s, i, off, m) && off + m + n <= 1019 * 4096
  {
    hide *;
    NeededIs(s, C, i, off, m);
    NeededIs(s, C, i, off, m + n);
    RoomShape(s, i, off, m, n);
  }

  lemma RoomShape(s: Fs, i: nat, off: nat, m: nat, n: nat)
    requires CanWrite(s, i, off, m) && CanWrite(s, i, off, m + n) && Room(s, i, off, m + n)
    requires Take(s.bitmap, |s.disk|, Needed(off, m, Node(s.disk, i).size)) == NewBlocks(s, i, off, m)
    requires Take(s.bitmap, |s.disk|, Needed(off, m + n, Node(s.disk, i).size)) == NewBlocks(s, i, off, m + n)
    ensures Room(s, i, off, m) && off + m + n <= 1019 * 4096
  {
    hide Take, Needed;
    assert off + (m + n) == off + m + n;
    MoreBlocks(off + m, off + m + n);
  }

  /** What a write leaves for the next one: its invariant, and the file's size and blocks. */
  lemma FirstWrite(s: Fs, C: Cert, i: nat, a: Str, off: nat, now: nat) returns (D: Cert, s1: Fs)
    requires Inv(s, C) && Ino(C, i) && !DirAt(s.disk, i) && off + |a| <= 0xFFF_FFFF_F000
    requires CanWrite(s, i, off, |a|) && Room(s, i, off, |a|)
    ensures var t := NewBlocks(s, i, off, |a|); var x := Written(Node(s.disk, i), t.blocks, off + |a|, now);
      && s1 == After(s, WriteAt(s, i, a, off, now)) && Inv(s1, D) && Ino(D, i) && !DirAt(s1.disk, i)
      && WriteAt(s, i, a, off, now).code == |a|
      && s1.bitmap == t.map8 && Node(s1.disk, i) == x && off + |a| <= x.size && Blocks(x.size) == Blocks(off + |a|)
      && 0 <= Node(s.disk, i).size
      && Blocks(off + |a|) == Blocks(Node(s.disk, i).size) + |t.blocks|
      && Wrote(s.disk, s1.disk, i, x, Blocks(off + |a|), off, a, Blocks(off + |a|) > Blocks(Node(s.disk, i).size),
          t.map8)
  {
    hide *;
    var t := NewBlocks(s, i, off, |a|);
    var x := Written(Node(s.disk, i), t.blocks, off + |a|, now);
    InvParts(s, C);
    WalkReaches(s.disk, C, i);
    WriteAtShape(s, C, i, a, off, now);
    WriteIsPlan(s, C, i, off, |a|);
    D := WriteDone(s, C, i, a, off, now, PathOf(s.disk, C, i));
    s1 := After(s, WriteAt(s, i, a, off, now));
    AfterIs(s, WriteAt(s, i, a, off, now));
    WriteBlocks(s, C, i, a, off, now);
    WrittenSize(s, C, i, t.blocks, off, |a|, now);
    PlanBounds(s, C, i, t.blocks, off, |a|);
    WroteInode(s.disk, s1.disk, i, x, Blocks(off + |a|), off, a, Blocks(off + |a|) > Blocks(Node(s.disk, i).size),
        t.map8);
    SpanBlocks(s.disk, i);
  }

  lemma WroteInode(d: Disk, f: Disk, i: nat, x: Inode, n: nat, off: nat, data: Str, grows: bool, m: Block)
    requires Wrote(d, f, i, x, n, off, data, grows, m) && !IsDir(x.mode)
    ensures Node(f, i) == x && !DirAt(f, i) && |f| == |d| && n <= 1019
  {
    hide PageAfter, EncodeInode, DecodeDirents;
  }

  lemma NextRoom(s1: Fs, D: Cert, i: nat, off: nat, m: nat, n: nat)
    requires Inv(s1, D) && Ino(D, i) && !DirAt(s1.disk, i) && off + m + n <= 1019 * 4096
    requires CanWrite(s1, i, off + m, n) && Blocks(Node(s1.disk, i).size) == Blocks(off + m)
    requires |NewBlocks(s1, i, off + m, n).blocks| == Blocks(off + m + n) - Blocks(off + m)
    ensures Room(s1, i, off + m, n)
    ensures NewBlocks(s1, i, off + m, n).blocks == [] ==> NewBlocks(s1, i, off + m, n).map8 == s1.bitmap
  {
    hide *;
    NeededIs(s1, D, i, off + m, n);
    NewBlocksMarks(s1, D, i, off + m, n);
    SmallBlocks(off + m + n);
    RoomIs(s1, i, off + m, n);
  }

  lemma RoomIs(s: Fs, i: nat, off: nat, n: nat)
    ensures Room(s, i, off, n) <==>
      Blocks(Node(s.disk, i).size) + |Take(s.bitmap, |s.disk|, Needed(off, n, Node(s.disk, i).size)).blocks| <= 1019
  {
    hide Take, Needed, Blocks;
  }

  lemma AssignPrefix(x: Inode, a: seq<nat>, b: seq<nat>, mid: nat, end: nat, now1: nat, now: nat)
    ensures forall k :: 0 <= k < Blocks(x.size) + |a| && k < 1019 ==>
      Written(x, a, mid, now1).ptrs[k] == Written(x, a + b, end, now).ptrs[k]
  {
    hide Blocks, NewSize;
  }

  /** Writing a at off and then b behind it leaves the same disk and the same bitmap as writing a + b at off,
      down to every block number, pointer and byte; the time of the first write leaves no trace. */
  lemma SplitWrites(s: Fs, C: Cert, i: nat, a: Str, b: Str, off: nat, now1: nat, now: nat)
    requires Inv(s, C) && Ino(C, i) && !DirAt(s.disk, i) && off + |a| + |b| <= 0xFFF_FFFF_F000
    requires CanWrite(s, i, off, |a|) && CanWrite(s, i, off, |a| + |b|) && Room(s, i, off, |a| + |b|)
    ensures var o1 := WriteAt(s, i, a, off, now1); var s1 := After(s, o1);
      var o2, o := WriteAt(s1, i, b, off + |a|, now), WriteAt(s, i, a + b, off, now);
      After(s1, o2) == After(s, o) && o1.code == |a| && o2.code == |b| && o.code == |a| + |b|
  {
    hide *;
    var m, n, x0 := |a|, |b|, Node(s.disk, i);
    FewerRoom(s, C, i, off, m, n);
    var D, s1 := FirstWrite(s, C, i, a, off, now1);
    assert |a + b| == m + n && off + (m + n) == off + m + n;
    var E, e := FirstWrite(s, C, i, a + b, off, now);
    var t, t1, t2 := NewBlocks(s, i, off, m + n), NewBlocks(s, i, off, m), NewBlocks(s1, i, off + m, n);
    SameLength(s.disk, s1.disk, i, Node(s1.disk, i), Blocks(off + m), off, a, Blocks(off + m) > Blocks(x0.size),
        t1.map8);
    TakeSplits(s, s1, i, off, m, n);
    NextRoom(s1, D, i, off, m, n);
    var F, s2 := FirstWrite(s1, D, i, b, off + m, now);
    WrittenSplits(x0, t1.blocks, t2.blocks, off + m, off + m + n, now1, now);
    AssignPrefix(x0, t1.blocks, t2.blocks, off + m, off + m + n, now1, now);
    MoreBlocks(off + m, off + m + n);
    SmallBlocks(off + m + n);
    WroteSplits(s.disk, s1.disk, s2.disk, e.disk, i, Node(s1.disk, i), Node(e.disk, i), Blocks(off + m),
        Blocks(off + m + n), off, a, b,
                Blocks(off + m) > Blocks(x0.size), Blocks(off + m + n) > Blocks(off + m), t1.map8, t.map8);
    FsIs(s2);
    FsIs(e);
  }

  lemma SmallBlocks(x: nat)
    requires x <= 1019 * 4096
    ensures Blocks(x) <= 1019
  {}

  lemma SameLength(d: Disk, f: Disk, i: nat, x: Inode, n: nat, off: nat, data: Str, grows: bool, m: Block)
    requires Wrote(d, f, i, x, n, off, data, grows, m)
    ensures |f| == |d|
  {
    hide PageAfter;
  }
}
