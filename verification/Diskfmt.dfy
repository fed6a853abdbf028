/** The bitmap of diskfmt.py: 1024 words of 32 bits, tested and changed in place. */
module Diskfmt {
  import opened Words
  import opened Format
  import opened Bits

  class Bitmap {
    const vals: array<bv32>

    /** All bits clear. */
    constructor ()
      ensures fresh(vals) && vals.Length == 1024 && forall i: nat :: !Bit(Bytes(), i)
    {
      vals := new bv32[1024](_ => 0);
      new;
      NoBits(vals[..]);
    }

    ghost predicate Valid()
      reads vals
    { vals.Length == 1024 }

    /** bytearray(bitmap): what goes to block 1 of the image. */
    ghost function Bytes(): Block
      reads vals
    { if vals.Length == 1024 then BytesOf(vals[..]) else ZeroBlock() }

    method Get(i: nat) returns (r: bool)
      requires Valid() && i < 32768
      ensures r == Bit(Bytes(), i)
    {
      LanguagesAgree(vals[..], i);
      hide BytesOf, Bit, Mask32, And32;
      var n := vals[i / 32];
      var mask := Mask32(i % 32);
      r := And32(n, mask) != 0;
    }

    method Set(i: nat, val: bool)
      requires Valid() && i < 32768
      modifies vals
      ensures Valid() && Bytes() == if val then SetBit(old(Bytes()), i) else ClearBit(old(Bytes()), i)
    {
      ghost var was := vals[..];
      SetsAgree(was, i);
      SetIs(was, i, val);
      hide BytesOf, Bit, SetBit, ClearBit, WordSet, Put32, Mask32, Mix32;
      var mask := Mask32(i % 32);
      var n := vals[i / 32];
      vals[i / 32] := Mix32(n, mask, val);
      assert vals[..] == was[i / 32 := Mix32(n, mask, val)];
    }
  }

  lemma SetIs(vals: seq<bv32>, i: nat, val: bool)
    requires i / 32 < |vals|
    ensures WordSet(vals, i, val) == vals[i / 32 := Mix32(vals[i / 32], Mask32(i % 32), val)]
  {
    hide Mask32, Mix32;
  }

  lemma NoBits(vals: seq<bv32>)
    requires |vals| == 1024 && forall x :: 0 <= x < 1024 ==> vals[x] == 0
    ensures forall i: nat :: !Bit(BytesOf(vals), i)
  {
    hide BytesOf, Bit;
    forall i: nat
      ensures !Bit(BytesOf(vals), i)
    {
      if i < 32768 {
        LanguagesAgree(vals, i);
        ZeroWord(i % 32);
      } else {
        NothingPastTheEnd(BytesOf(vals), i);
      }
    }
  }

  lemma ZeroWord(k: nat)
    requires k < 32
    ensures !Test32(0, k)
  {}
}
