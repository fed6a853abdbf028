/** The write loop and the read loop on a file's blocks, byte by byte. */
module Bytes {
  import opened Words
  import opened Format
  import opened Image
  import opened Ops
  import opened Keep

  /** The first n pointers are distinct blocks of the disk. */
  ghost predicate Pages(d: Disk, ptrs: Ptrs, n: nat) {
    && n <= 1019
    && (forall k :: 0 <= k < n ==> ptrs[k] < |d|)
    && (forall j, k :: 0 <= j < k < n ==> ptrs[j] != ptrs[k])
  }

  /** What byte o of page k holds after data is written at off. */
  function Overlaid(was: Block, k: nat, o: nat, off: nat, data: Str): byte
    requires o < 4096
  { if off <= 4096 * k + o < off + |data| then data[4096 * k + o - off] else was[o] }

  /** Page k is touched by a write of n bytes at off. */
  predicate Touches(k: nat, off: nat, n: nat) { n > 0 && off / 4096 <= k <= (off + n - 1) / 4096 }

  lemma {:induction false} ApplyElse(d: Disk, ws: seq<Write>, b: nat)
    requires forall j :: 0 <= j < |ws| ==> ws[j].lba != b
    ensures At(Apply(d, ws), b) == At(d, b)
  {
    if ws != [] {
      ApplyElse(d, Front(ws), b);
    }
  }

  lemma ApplyCons(d: Disk, w: Write, ws: seq<Write>)
    ensures Apply(d, [w] + ws) == Apply(Put(d, w.lba, w.data), ws)
  {
    ApplyAppend(d, [w], ws);
    ApplyOne(d, w);
  }

  /** The write loop writes blocks of the touched pages only. */
  lemma {:induction false} DataTargets(d: Disk, ptrs: Ptrs, off: nat, data: Str, j: nat)
    requires j < |DataWrites(d, ptrs, off, data)| && off + |data| <= 1019 * 4096
    ensures exists k :: 0 <= k < 1019 && Touches(k, off, |data|) && DataWrites(d, ptrs, off, data)[j].lba == ptrs[k]
    decreases |data|
  {
    hide Read, Splice;
    var w := ChunkWrite(d, ptrs, off, data);
    var c := Chunk(off, |data|);
    if j == 0 {
      assert Touches(off / 4096, off, |data|) && w.lba == ptrs[off / 4096];
    } else {
      DataTargets(Put(d, w.lba, w.data), ptrs, off + c, data[c..], j - 1);
      assert forall k :: Touches(k, off + c, |data| - c) ==> Touches(k, off, |data|);
    }
  }

  lemma SplicedByte(b: Block, at: nat, data: Str, o: nat)
    requires at + |data| <= 4096 && o < 4096
    ensures Splice(b, at, data)[o] == if at <= o < at + |data| then data[o - at] else b[o]
  {}

  /** One turn of the loop on the page it touches. */
  lemma ChunkByte(d: Disk, ptrs: Ptrs, off: nat, data: Str, o: nat)
    requires data != [] && o < 4096
    ensures var b := At(d, PtrIn(ptrs, off / 4096)).bytes; var c := Chunk(off, |data|);
      ChunkWrite(d, ptrs, off, data).data.bytes[o] ==
        if off % 4096 <= o < off % 4096 + c then data[o - off % 4096] else b[o]
  {
    var b, c := At(d, PtrIn(ptrs, off / 4096)).bytes, Chunk(off, |data|);
    SplicedByte(b, off % 4096, data[..c], o);
    hide DecodeInode, DecodeDirents, Splice;
  }

  /** Laying the first chunk over its page and then the rest of the data is laying the data. */
  lemma OverlayStep(was: Block, mid: Block, k: nat, o: nat, off: nat, data: Str)
    requires data != [] && o < 4096
    requires var c := Chunk(off, |data|);
      mid[o] == if k == off / 4096 && off % 4096 <= o < off % 4096 + c then data[o - off % 4096] else was[o]
    ensures var c := Chunk(off, |data|);
      Overlaid(mid, k, o, off + c, data[c..]) == Overlaid(was, k, o, off, data)
  {
    var c := Chunk(off, |data|);
    var x := 4096 * k + o;
    assert off == 4096 * (off / 4096) + off % 4096;
    if k == off / 4096 {
      assert x - off == o - off % 4096;
    } else if k < off / 4096 {
      assert x < off;
    } else {
      assert off + c <= x || c == |data|;
      if off + c <= x < off + |data| {
        assert data[c..][x - (off + c)] == data[x - off];
      }
    }
  }

  lemma FirstChunk(d: Disk, ptrs: Ptrs, n: nat, off: nat, data: Str)
    requires Pages(d, ptrs, n) && off + |data| <= 4096 * n && data != []
    ensures var w, c := ChunkWrite(d, ptrs, off, data), Chunk(off, |data|); var e := Put(d, w.lba, w.data);
      && DataWrites(d, ptrs, off, data) == [w] + DataWrites(e, ptrs, off + c, data[c..])
      && Apply(d, DataWrites(d, ptrs, off, data)) == Apply(e, DataWrites(e, ptrs, off + c, data[c..]))
      && off / 4096 < n && w.lba == ptrs[off / 4096] && Pages(e, ptrs, n)
      && (forall k :: 0 <= k < n ==> At(e, ptrs[k]) == if k == off / 4096 then w.data else At(d, ptrs[k]))
      && w.data == Read(w.data.bytes)
  {
    hide DecodeInode, DecodeDirents, Splice, Apply, Pages;
    var w, c := ChunkWrite(d, ptrs, off, data), Chunk(off, |data|);
    var e := Put(d, w.lba, w.data);
    ApplyCons(d, w, DataWrites(e, ptrs, off + c, data[c..]));
    hide DataWrites, Read, ChunkWrite;
    ChunkLba(d, ptrs, off, data);
    PagesPut(d, ptrs, n, off / 4096, w.data);
  }

  lemma PagesPut(d: Disk, ptrs: Ptrs, n: nat, j: nat, x: Sector)
    requires Pages(d, ptrs, n) && j < n
    ensures Pages(Put(d, ptrs[j], x), ptrs, n)
    ensures forall k :: 0 <= k < n ==> At(Put(d, ptrs[j], x), ptrs[k]) == if k == j then x else At(d, ptrs[k])
  {}

  lemma ChunkMid(d: Disk, ptrs: Ptrs, n: nat, off: nat, data: Str, k: nat, o: nat)
    requires Pages(d, ptrs, n) && off + |data| <= 4096 * n && data != [] && k < n && o < 4096
    ensures var w, c := ChunkWrite(d, ptrs, off, data), Chunk(off, |data|); var e := Put(d, w.lba, w.data);
      n <= 1019 && Overlaid(At(e, ptrs[k]).bytes, k, o, off + c, data[c..]) ==
          Overlaid(At(d, ptrs[k]).bytes, k, o, off, data)
  {
    FirstChunk(d, ptrs, n, off, data);
    ChunkByte(d, ptrs, off, data, o);
    hide ChunkWrite, DataWrites, Apply, Read, At, Overlaid;
    var w := ChunkWrite(d, ptrs, off, data);
    OverlayStep(At(d, ptrs[k]).bytes, At(Put(d, w.lba, w.data), ptrs[k]).bytes, k, o, off, data);
  }

  /** A page the loop touches ends up as the old page with the data laid over it. */
  lemma {:induction false} DataByte(d: Disk, ptrs: Ptrs, n: nat, off: nat, data: Str, k: nat, o: nat)
    requires Pages(d, ptrs, n) && off + |data| <= 4096 * n && k < n && o < 4096
    ensures n <= 1019
    ensures At(Apply(d, DataWrites(d, ptrs, off, data)), ptrs[k]).bytes[o] ==
        Overlaid(At(d, ptrs[k]).bytes, k, o, off, data)
    decreases |data|
  {
    if data == [] {
      hide Read, Splice, ChunkWrite, At;
      assert DataWrites(d, ptrs, off, data) == [];
      ApplyNone(d);
    } else {
      hide *;
      FirstChunk(d, ptrs, n, off, data);
      var w, c := ChunkWrite(d, ptrs, off, data), Chunk(off, |data|);
      DataByte(Put(d, w.lba, w.data), ptrs, n, off + c, data[c..], k, o);
      ChunkMid(d, ptrs, n, off, data, k, o);
    }
  }

  lemma ChunkLba(d: Disk, ptrs: Ptrs, off: nat, data: Str)
    requires data != []
    ensures ChunkWrite(d, ptrs, off, data).lba == PtrIn(ptrs, off / 4096)
  {
    hide Read, Splice;
  }

  /** A page the loop touches holds nothing but its bytes. */
  lemma {:induction false} DataSector(d: Disk, ptrs: Ptrs, n: nat, off: nat, data: Str, k: nat)
    requires Pages(d, ptrs, n) && off + |data| <= 4096 * n && k < n
    ensures var s := At(Apply(d, DataWrites(d, ptrs, off, data)), ptrs[k]);
      s == if Touches(k, off, |data|) then Read(s.bytes) else At(d, ptrs[k])
    decreases |data|
  {
    hide Read, Splice, ChunkWrite, At, Pages;
    if data == [] {
      assert DataWrites(d, ptrs, off, data) == [];
      ApplyNone(d);
    } else {
      hide DataWrites, Apply;
      FirstChunk(d, ptrs, n, off, data);
      var w, c := ChunkWrite(d, ptrs, off, data), Chunk(off, |data|);
      DataSector(Put(d, w.lba, w.data), ptrs, n, off + c, data[c..], k);
      assert Touches(k, off, |data|) <==> k == off / 4096 || Touches(k, off + c, |data| - c);
    }
  }

  /** Blocks that are none of the first n pages keep what they hold through every prefix of the loop. */
  lemma DataElse(d: Disk, ptrs: Ptrs, n: nat, off: nat, data: Str, m: nat, b: nat)
    requires n <= 1019 && off + |data| <= 4096 * n && m <= |DataWrites(d, ptrs, off, data)|
    requires forall k :: 0 <= k < n ==> ptrs[k] != b
    ensures At(Apply(d, DataWrites(d, ptrs, off, data)[..m]), b) == At(d, b)
  {
    var ws := DataWrites(d, ptrs, off, data);
    forall j | 0 <= j < m
      ensures ws[..m][j].lba != b
    {
      DataTargets(d, ptrs, off, data, j);
      var k :| 0 <= k < 1019 && Touches(k, off, |data|) && ws[j].lba == ptrs[k];
      assert k < n;
    }
    ApplyElse(d, ws[..m], b);
  }
}
