/** What every operation keeps. For each operation: the tree after it, the invariant over disk and bitmaps,
    which blocks it loses, and that the disk alone is safe after every prefix of its writes. */
module Keep {
  import opened Format
  import opened Bits
  import opened Image
  import opened Change
  import opened Ops

  /** Block b is marked in the bitmap on the disk. */
  predicate OnDisk(d: Disk, b: nat) { Bit(At(d, 1).bytes, b) }

  /** Block 0 is a superblock with the magic number and the size of the disk. */
  predicate Headed(d: Disk) { Word(At(d, 0).bytes, 0) == FS_MAGIC && Word(At(d, 0).bytes, 4) == |d| }

  /** The images agree on the superblock and the bitmap. */
  predicate SameTop(d: Disk, e: Disk) { At(e, 0) == At(d, 0) && At(e, 1) == At(d, 1) }

  /** The disk alone has a superblock and is a tree whose blocks are all marked: a mount succeeds, loses no data and
      hands out no block in use. */
  ghost predicate Safe(d: Disk, C: Cert) {
    && Tree(d, C) && |d| <= 32768 && Headed(d)
    && (forall b :: b in C ==> OnDisk(d, b))
    && OnDisk(d, 0) && OnDisk(d, 1)
  }

  /** The disk can be mounted: it has a superblock, it is a tree and every block in use is marked. */
  ghost predicate Mountable(d: Disk) { exists C: Cert :: Safe(d, C) }

  /** The invariant: a safe disk, and no block marked on the disk is free in memory. */
  ghost predicate Inv(s: Fs, C: Cert) {
    Safe(s.disk, C) && forall b: nat :: OnDisk(s.disk, b) ==> Bit(s.bitmap, b)
  }

  /** A block is used up: marked in memory, but in no file or directory. */
  predicate Slack(bm: Block, C: Cert, b: nat) { Bit(bm, b) && b !in C }

  /** The operation used up exactly the blocks of L. */
  ghost predicate Loses(bm: Block, C: Cert, bm': Block, D: Cert, L: set<nat>) {
    && (forall b: nat :: Slack(bm', D, b) <==> Slack(bm, C, b) || b in L)
    && (forall b: nat :: b in L ==> !Slack(bm, C, b))
  }

  /** Up to the t-th write the disk shows the tree C unchanged, from then on the tree D of the final disk;
      after every prefix of the writes the disk alone is safe. */
  ghost predicate Stages(d: Disk, ws: seq<Write>, C: Cert, D: Cert, t: nat) {
    forall k :: 0 <= k <= |ws| ==>
      var e := Apply(d, ws[..k]);
      if k < t then Safe(e, C) && Agree(d, e, C) else Safe(e, D) && Agree(e, Apply(d, ws), D)
  }

  /** The bitmap in memory is the one on the disk. */
  predicate Clean(s: Fs) { At(s.disk, 1).bytes == s.bitmap }

  /** The outcome o takes the file system from the tree C to the tree D, safely at every write,
      and leaves no bitmap change behind in memory. */
  ghost predicate Sound(s: Fs, C: Cert, o: Outcome, D: Cert, t: nat) {
    Stages(s.disk, o.writes, C, D, t) && Inv(After(s, o), D) && (Clean(s) ==> Clean(After(s, o)))
  }

  /** The outcome o leaves the tree and every block in use as they were. */
  ghost predicate Untouched(s: Fs, C: Cert, o: Outcome, D: Cert) {
    D == C && Agree(s.disk, After(s, o).disk, C)
  }

  lemma OneOutside(d: Disk, C: Cert)
    requires Tree(d, C)
    ensures 1 !in C && 0 !in C && 2 < |d|
  {
    assert 2 in C;
  }

  // ---- applying writes ----

  lemma ApplyOn(d: Disk, ws: seq<Write>, w: Write)
    ensures Apply(d, ws + [w]) == Put(Apply(d, ws), w.lba, w.data)
  {
    assert Front(ws + [w]) == ws;
  }

  lemma SlotPut(d: Disk, p: nat, k: nat, x: Dirent)
    ensures var w := SlotWrite(d, p, k, x); PatchSlot(d, p, k, x) == Put(d, w.lba, w.data)
  {
    hide SlotData, SlotBlock;
  }

  lemma ApplyNone(d: Disk)
    ensures Apply(d, []) == d
  {}

  lemma AfterIs(s: Fs, o: Outcome)
    ensures After(s, o).disk == Apply(s.disk, o.writes) && After(s, o).bitmap == o.bitmap
  {}

  lemma ApplyOne(d: Disk, w: Write)
    ensures Apply(d, [w]) == Put(d, w.lba, w.data) && [] + [w] == [w]
  {
    assert [] + [w] == [w];
    ApplyOn(d, [], w);
  }

  lemma {:induction false} ApplyAppend(d: Disk, v: seq<Write>, w: seq<Write>)
    ensures Apply(d, v + w) == Apply(Apply(d, v), w)
  {
    if w == [] {
      assert v + w == v;
    } else {
      ApplyAppend(d, v, Front(w));
      assert Front(v + w) == v + Front(w);
    }
  }

  // ---- writes that leave the tree alone ----

  lemma PutOutside(d: Disk, C: Cert, b: nat, x: Sector)
    requires Safe(d, C) && b !in C && b != 0
    requires b == 1 ==> Bit(x.bytes, 0) && Bit(x.bytes, 1) && forall c :: c in C ==> Bit(x.bytes, c)
    ensures Agree(d, Put(d, b, x), C) && Safe(Put(d, b, x), C)
  {
    hide Tree, Bit;
    AgreeTree(d, Put(d, b, x), C);
  }

  lemma AgreeItself(d: Disk, C: Cert)
    ensures Agree(d, d, C)
  {}

  lemma AgreeTrans(d: Disk, e: Disk, f: Disk, C: Cert)
    requires Agree(d, e, C) && Agree(e, f, C)
    ensures Agree(d, f, C)
  {}

  lemma FreeIsOutside(s: Fs, C: Cert, b: nat)
    requires Inv(s, C) && !Bit(s.bitmap, b)
    ensures b !in C && b != 0 && b != 1
  {
    assert b in C ==> OnDisk(s.disk, b);
  }

  lemma InvParts(s: Fs, C: Cert)
    requires Inv(s, C)
    ensures Safe(s.disk, C) && Tree(s.disk, C) && |s.disk| <= 32768
  {}

  lemma SoundIs(s: Fs, C: Cert, o: Outcome, D: Cert, t: nat)
    requires Stages(s.disk, o.writes, C, D, t) && Inv(Fs(Apply(s.disk, o.writes), o.bitmap), D)
    requires Clean(s) ==> Clean(Fs(Apply(s.disk, o.writes), o.bitmap))
    ensures Sound(s, C, o, D, t)
  {}

  lemma CleanKept(s: Fs, e: Disk)
    requires SameTop(s.disk, e)
    ensures Clean(s) ==> Clean(Fs(e, s.bitmap))
  {}

  /** One more write that leaves the tree alone, after stages that already left it alone. */
  lemma StagesOutside(d: Disk, ws: seq<Write>, C: Cert, w: Write)
    requires Stages(d, ws, C, C, |ws| + 1) && w.lba !in C && w.lba != 0
    requires w.lba == 1 ==> Bit(w.data.bytes, 0) && Bit(w.data.bytes, 1) && forall c :: c in C ==> Bit(w.data.bytes, c)
    ensures Stages(d, ws + [w], C, C, |ws| + 2)
  {
    hide Safe, Agree, Bit, Put;
    var v := ws + [w];
    assert ws[..|ws|] == ws;
    ApplyOn(d, ws, w);
    PutOutside(Apply(d, ws), C, w.lba, w.data);
    AgreeTrans(d, Apply(d, ws), Apply(d, v), C);
    forall k | 0 <= k <= |v|
      ensures Safe(Apply(d, v[..k]), C) && Agree(d, Apply(d, v[..k]), C)
    {
      if k <= |ws| {
        assert v[..k] == ws[..k];
      } else {
        assert v[..k] == v;
      }
    }
  }

  lemma NoWrites(d: Disk, C: Cert)
    requires Safe(d, C)
    ensures Stages(d, [], C, C, 1)
  {}

  /** A last write that moves the tree from C to D. */
  lemma StagesMove(d: Disk, ws: seq<Write>, C: Cert, w: Write, D: Cert)
    requires Stages(d, ws, C, C, |ws| + 1) && Safe(Apply(d, ws + [w]), D)
    ensures Stages(d, ws + [w], C, D, |ws| + 1)
  {
    hide Safe, Apply;
    var v := ws + [w];
    forall k | 0 <= k <= |v|
      ensures k < |ws| + 1 ==> Safe(Apply(d, v[..k]), C) && Agree(d, Apply(d, v[..k]), C)
      ensures k >= |ws| + 1 ==> Safe(Apply(d, v[..k]), D) && Agree(Apply(d, v[..k]), Apply(d, v), D)
    {
      if k <= |ws| {
        assert v[..k] == ws[..k];
      } else {
        assert v[..k] == v;
      }
    }
  }

  /** A first write that moves the tree, then one that leaves it alone. */
  lemma StagesMoveFirst(d: Disk, C: Cert, w: Write, D: Cert, v: Write)
    requires Safe(d, C) && Safe(Put(d, w.lba, w.data), D) && v.lba !in D && v.lba != 0
    requires v.lba == 1 ==> Bit(v.data.bytes, 0) && Bit(v.data.bytes, 1) && forall c :: c in D ==> Bit(v.data.bytes, c)
    ensures Stages(d, [w, v], C, D, 1)
  {
    hide *;
    var e := Put(d, w.lba, w.data);
    PutOutside(e, D, v.lba, v.data);
    assert [w, v] == [w] + [v];
    ApplyNone(d);
    ApplyOne(d, w);
    ApplyOn(d, [w], v);
    AgreeItself(d, C);
    AgreeItself(Put(e, v.lba, v.data), D);
    AreStages(d, w, v, C, D);
  }

  lemma AreStages(d: Disk, w: Write, v: Write, C: Cert, D: Cert)
    requires Safe(Apply(d, []), C) && Agree(d, Apply(d, []), C)
    requires Safe(Apply(d, [w]), D) && Agree(Apply(d, [w]), Apply(d, [w, v]), D)
    requires Safe(Apply(d, [w, v]), D) && Agree(Apply(d, [w, v]), Apply(d, [w, v]), D)
    ensures Stages(d, [w, v], C, D, 1)
  {
    hide Safe, Agree, Apply;
    assert [w, v][..0] == [] && [w, v][..1] == [w] && [w, v][..2] == [w, v];
  }
}
