/** The disk as the code holds it, a row of 4096-byte blocks, and as the model reads it. */
module Device {
  import opened Format
  import opened Image

  /** Every block in its three readings. */
  function Sectors(bs: seq<Block>): Disk { seq(|bs|, i requires 0 <= i < |bs| => Read(bs[i])) }

  function BlockAt(bs: seq<Block>, b: nat): Block { if b < |bs| then bs[b] else ZeroBlock() }

  function WithBlock(bs: seq<Block>, b: nat, x: Block): seq<Block> { if b < |bs| then bs[b := x] else bs }

  lemma ZeroInode()
    ensures DecodeInode(ZeroBlock()) == Inode(0, 0, 0, 0, 0, 0, NoPtrs())
  {
    hide Word, Half;
    var b := ZeroBlock();
    ZeroWords(b);
    assert DecodeInode(b).ptrs == NoPtrs();
  }

  lemma ZeroWords(b: Block)
    requires forall i :: 0 <= i < 4096 ==> b[i] == 0
    ensures forall o: nat :: o + 4 <= 4096 ==> Word(b, o) == 0
    ensures forall o: nat :: o + 2 <= 4096 ==> Half(b, o) == 0
  {
    hide Little, Word, Half;
    forall o: nat | o + 4 <= 4096 ensures Word(b, o) == 0 { ZeroDigits(); WordOfBytes(b, o, 0); }
    forall o: nat | o + 2 <= 4096 ensures Half(b, o) == 0 { ZeroDigits(); HalfOfBytes(b, o, 0); }
  }

  lemma ZeroDigits()
    ensures forall j: nat :: j < 4 ==> ByteOf(0, j) == 0
  {}

  lemma ZeroDirent(r: nat)
    requires r < 128
    ensures DecodeDirent(ZeroBlock(), r) == Dirent(false, 0, seq(28, _ => 0))
  {
    var b := ZeroBlock();
    ZeroWords(b);
    hide Word;
    assert b[32 * r + 4..32 * r + 32] == seq(28, _ => 0);
  }

  /** A zeroed block reads as nothing at all. */
  lemma ZeroIsBlank()
    ensures Read(ZeroBlock()) == Blank()
  {
    ZeroInode();
    hide DecodeInode, DecodeDirent, ZeroBlock;
    forall r: nat | r < 128
      ensures DecodeDirents(ZeroBlock())[r] == NoDirents()[r]
    {
      ZeroDirent(r);
    }
    assert DecodeDirents(ZeroBlock()) == NoDirents();
  }

  lemma SectorAt(bs: seq<Block>, b: nat)
    ensures At(Sectors(bs), b) == Read(BlockAt(bs, b)) && |Sectors(bs)| == |bs|
  {
    ZeroIsBlank();
    hide DecodeInode, DecodeDirents, Blank, ZeroBlock;
  }

  lemma SectorsPut(bs: seq<Block>, b: nat, x: Block)
    ensures Sectors(WithBlock(bs, b, x)) == Put(Sectors(bs), b, Read(x))
  {
    hide Read;
  }
}
