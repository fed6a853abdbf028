/** The block bitmap: the C operations on bytes (homework.c:54-65), the Python operations on
    32-bit words (diskfmt.py:24-37), and first-fit allocation over the C form. */
module Bits {
  import opened Words
  import opened Format


  // ---- the C byte bitmap ----

  /** bit_test: block i is marked. No index past the end of the map is marked. */
  predicate Bit(m: seq<byte>, i: nat) {
    i / 8 < |m| && Test8(m[i / 8], i % 8)
  }

  /** bit_set and bit_clear. */
  function SetBit(m: Block, i: nat): Block {
    if i / 8 < |m| then m[i / 8 := Put8(m[i / 8], i % 8, true)] else m
  }

  function ClearBit(m: Block, i: nat): Block {
    if i / 8 < |m| then m[i / 8 := Put8(m[i / 8], i % 8, false)] else m
  }

  /** The mark of block i is binary digit i % 8 of byte i / 8, the least significant digit first. */
  lemma BitAt(m: Block, i: nat)
    requires i < 32768
    ensures Bit(m, i) <==> BinaryDigit(m[i / 8], i % 8) == 1
  {
    hide Test8;
    BitIsDigit(m[i / 8], i % 8);
  }

  /** Setting or clearing block i is seen at i and at no other block number. */
  lemma SetThenTest(m: Block, i: nat, j: nat)
    requires i < 8 * 4096
    ensures Bit(SetBit(m, i), j) <==> j == i || Bit(m, j)
    ensures Bit(ClearBit(m, i), j) <==> j != i && Bit(m, j)
  {
    hide Put8, Test8;
    if i / 8 == j / 8 {
      ByteBits(m[i / 8], i % 8, true, j % 8);
      ByteBits(m[i / 8], i % 8, false, j % 8);
    }
  }

  /** The map holds nothing but its marks: two maps with the same marks are the same bytes. */
  lemma MarksDetermineMap(a: Block, b: Block)
    requires forall i: nat :: Bit(a, i) <==> Bit(b, i)
    ensures a == b
  {
    hide Test8;
    forall x: nat | x < 4096
      ensures a[x] == b[x]
    {
      forall k: nat | k < 8
        ensures Test8(a[x], k) <==> Test8(b[x], k)
      {
        assert (8 * x + k) / 8 == x && (8 * x + k) % 8 == k;
        assert Bit(a, 8 * x + k) <==> Bit(b, 8 * x + k);
      }
      SameByte(a[x], b[x]);
    }
  }

  // ---- the Python word bitmap ----

  predicate WordGet(vals: seq<bv32>, i: nat)
    requires i / 32 < |vals|
  { Test32(vals[i / 32], i % 32) }

  function WordSet(vals: seq<bv32>, i: nat, val: bool): (r: seq<bv32>)
    requires i / 32 < |vals|
    ensures |r| == |vals|
  { vals[i / 32 := Put32(vals[i / 32], i % 32, val)] }

  /** bitmap.set is seen by bitmap.get at i and at no other block number. */
  lemma WordSetThenGet(vals: seq<bv32>, i: nat, val: bool, j: nat)
    requires i / 32 < |vals| && j / 32 < |vals|
    ensures WordGet(WordSet(vals, i, val), j) == if j == i then val else WordGet(vals, j)
  {
    hide Test32, Put32;
    if i / 32 == j / 32 {
      PutThenTest(vals[i / 32], i % 32, val, j % 32);
    }
  }

  /** bytearray(blockmap): the words laid out little-endian. */
  function BytesOf(vals: seq<bv32>): Block
    requires |vals| == 1024
  {
    seq(4096, x requires 0 <= x < 4096 => ByteOfWord(vals[x / 4], x % 4))
  }

  /** The C bit test on the bytes and the Python get on the words agree on every block number. */
  lemma LanguagesAgree(vals: seq<bv32>, i: nat)
    requires |vals| == 1024 && i < 32 * 1024
    ensures Bit(BytesOf(vals), i) <==> WordGet(vals, i)
  {
    hide Test8, Test32, ByteOfWord;
    BitOfWord(vals[i / 32], i / 8 % 4, i % 8);
    assert i / 8 / 4 == i / 32 && 8 * (i / 8 % 4) + i % 8 == i % 32;
  }

  /** Marking in Python and then reading the bytes is marking in C. */
  lemma SetsAgree(vals: seq<bv32>, i: nat)
    requires |vals| == 1024 && i < 32 * 1024
    ensures BytesOf(WordSet(vals, i, true)) == SetBit(BytesOf(vals), i)
    ensures BytesOf(WordSet(vals, i, false)) == ClearBit(BytesOf(vals), i)
  {
    hide Bit, BytesOf, WordSet, SetBit, ClearBit, WordGet;
    forall j: nat
      ensures Bit(BytesOf(WordSet(vals, i, true)), j) <==> Bit(SetBit(BytesOf(vals), i), j)
      ensures Bit(BytesOf(WordSet(vals, i, false)), j) <==> Bit(ClearBit(BytesOf(vals), i), j)
    {
      SetThenTest(BytesOf(vals), i, j);
      if j < 32 * 1024 {
        LanguagesAgree(vals, j);
        LanguagesAgree(WordSet(vals, i, true), j);
        LanguagesAgree(WordSet(vals, i, false), j);
        WordSetThenGet(vals, i, true, j);
        WordSetThenGet(vals, i, false, j);
      } else {
        NothingPastTheEnd(BytesOf(WordSet(vals, i, true)), j);
        NothingPastTheEnd(BytesOf(WordSet(vals, i, false)), j);
        NothingPastTheEnd(BytesOf(vals), j);
      }
    }
    MarksDetermineMap(BytesOf(WordSet(vals, i, true)), SetBit(BytesOf(vals), i));
    MarksDetermineMap(BytesOf(WordSet(vals, i, false)), ClearBit(BytesOf(vals), i));
  }

  lemma NothingPastTheEnd(m: Block, i: nat)
    requires i >= 8 * 4096
    ensures !Bit(m, i)
  {}

  // ---- first-fit allocation ----

  /** The first block in j..n that is not marked, or 0. */
  function FirstFree(m: Block, n: nat, j: nat): (f: nat)
    requires j >= 2
    ensures f == 0 <==> forall i: nat :: j <= i < n ==> Bit(m, i)
    ensures f != 0 ==> j <= f < n && !Bit(m, f) && forall i: nat :: j <= i < f ==> Bit(m, i)
    decreases n - j
  {
    hide Bit;
    if j >= n then 0 else if !Bit(m, j) then j else FirstFree(m, n, j + 1)
  }

  /** k rounds of first-fit: the blocks taken, fewer than k when the disk filled up, and the map after. */
  datatype Taken = Taken(blocks: seq<nat>, map8: Block)

  function Take(m: Block, n: nat, k: nat): (t: Taken)
    ensures |t.blocks| <= k
    decreases k
  {
    if k == 0 then Taken([], m)
    else
      var f := FirstFree(m, n, 2);
      if f == 0 then Taken([], m)
      else
        var rest := Take(SetBit(m, f), n, k - 1);
        Taken([f] + rest.blocks, rest.map8)
  }

  /** What k rounds of first-fit do: they take distinct unmarked blocks, mark just those,
      and fall short only when no block is left. */
  lemma {:induction false} TakeFacts(m: Block, n: nat, k: nat)
    requires n <= 8 * 4096
    decreases k
    ensures var t := Take(m, n, k);
      && (forall x: nat :: x < |t.blocks| ==> 2 <= t.blocks[x] < n && !Bit(m, t.blocks[x]))
      && (forall x: nat, y: nat :: x < y < |t.blocks| ==> t.blocks[x] != t.blocks[y])
      && (forall i: nat :: Bit(t.map8, i) <==> Bit(m, i) || i in t.blocks)
      && (|t.blocks| < k ==> forall i: nat :: 2 <= i < n ==> Bit(t.map8, i))
  {
    hide Bit, SetBit;
    var f := FirstFree(m, n, 2);
    if k != 0 && f != 0 {
      var m1 := SetBit(m, f);
      TakeFacts(m1, n, k - 1);
      forall i: nat ensures Bit(m1, i) <==> i == f || Bit(m, i) { SetThenTest(m, f, i); }
    }
  }

  /** First-fit composes: taking a and then b blocks is taking a + b blocks. */
  lemma {:induction false} TakeComposes(m: Block, n: nat, a: nat, b: nat)
    requires |Take(m, n, a).blocks| == a
    ensures Take(m, n, a + b).blocks == Take(m, n, a).blocks + Take(Take(m, n, a).map8, n, b).blocks
    ensures Take(m, n, a + b).map8 == Take(Take(m, n, a).map8, n, b).map8
    decreases a
  {
    hide Bit, SetBit;
    if a > 0 {
      var f := FirstFree(m, n, 2);
      var m1 := SetBit(m, f);
      TakeComposes(m1, n, a - 1, b);
      assert Take(m, n, a + b).blocks == [f] + Take(m1, n, a - 1 + b).blocks;
    }
  }
}
