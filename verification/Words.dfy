/** Numbers and bytes: little-endian composition, and single-bit masks. */
module Words {

  type byte = x: int | 0 <= x < 256

  // ---- four bytes as one number ----

  /** Least significant byte first. */
  function Compose(b0: nat, b1: nat, b2: nat, b3: nat): nat { b0 + 0x100 * (b1 + 0x100 * (b2 + 0x100 * b3)) }

  function Digit(w: nat, j: nat): (n: nat)
    requires j < 4
    ensures n < 256
  {
    if j == 0 then w % 256 else if j == 1 then w / 0x100 % 256
    else if j == 2 then w / 0x100 / 0x100 % 256 else w / 0x100 / 0x100 / 0x100 % 256
  }

  lemma Split256(q: nat, r: nat)
    requires r < 256
    ensures (r + 0x100 * q) / 0x100 == q && (r + 0x100 * q) % 256 == r
  {}

  lemma DigitsOfCompose(b0: nat, b1: nat, b2: nat, b3: nat)
    requires b0 < 256 && b1 < 256 && b2 < 256 && b3 < 256
    ensures var w := Compose(b0, b1, b2, b3);
      w < 0x1_0000_0000 && Digit(w, 0) == b0 && Digit(w, 1) == b1 && Digit(w, 2) == b2 && Digit(w, 3) == b3
  {
    var w2 := b2 + 0x100 * b3;
    var w1 := b1 + 0x100 * w2;
    Split256(w1, b0);
    Split256(w2, b1);
    Split256(b3, b2);
  }

  lemma ComposeOfDigits(w: nat)
    requires w < 0x1_0000_0000
    ensures Compose(Digit(w, 0), Digit(w, 1), Digit(w, 2), Digit(w, 3)) == w
  {
    var w1 := w / 0x100;
    var w2 := w1 / 0x100;
    assert w == Digit(w, 0) + 0x100 * w1;
    assert w1 == Digit(w, 1) + 0x100 * w2;
    assert w2 == Digit(w, 2) + 0x100 * (w2 / 0x100);
  }

  // ---- a byte as eight bits ----

  function OfBits(b: bv8): byte { b as int }

  lemma NextByte(b: bv8)
    requires b != 255
    ensures OfBits(b + 1) == OfBits(b) + 1
  {}

  lemma EndBytes()
    ensures OfBits(0) == 0 && OfBits(255) == 255
  {}

  lemma OfBitsInjective(a: bv8, b: bv8)
    requires OfBits(a) == OfBits(b)
    ensures a == b
  {}

  /** The bits of the byte n, counted up from 0. */
  function ToBits(n: byte): (b: bv8)
    ensures OfBits(b) == n
  {
    hide OfBits;
    EndBytes();
    if n == 0 then 0 else NextByte(ToBits(n - 1)); ToBits(n - 1) + 1
  }

  lemma BitsOfByte(b: bv8)
    ensures ToBits(OfBits(b)) == b
  {
    hide OfBits, ToBits;
    OfBitsInjective(ToBits(OfBits(b)), b);
  }

  // ---- one bit of a byte ----

  function Mask8(k: nat): bv8
    requires k < 8
  { (1 as bv8) << k }

  function And8(x: bv8, a: bv8): bv8 { x & a }

  function Mix8(x: bv8, a: bv8, val: bool): bv8 { if val then x | a else x & !a }

  predicate Test8(x: byte, k: nat)
    requires k < 8
  { And8(ToBits(x), Mask8(k)) != 0 }

  /** map[i/8] |= 1 << k and map[i/8] &= ~(1 << k). */
  function Put8(x: byte, k: nat, val: bool): byte
    requires k < 8
  { OfBits(Mix8(ToBits(x), Mask8(k), val)) }

  /** 2 to the k. */
  function Weight(k: nat): (w: nat)
    ensures w > 0
  { if k == 0 then 1 else 2 * Weight(k - 1) }

  lemma ShiftHalves(b: bv8)
    ensures OfBits(b >> 1) == OfBits(b) / 2 && (And8(b, 1) != 0 <==> OfBits(b) % 2 == 1)
  {}

  function Shifted(b: bv8, k: nat): bv8
    requires k < 8
  { b >> k }

  lemma ShiftedOnce(b: bv8, k: nat)
    requires k < 8
    ensures Shifted(b, 0) == b && (And8(b, Mask8(k)) != 0 <==> And8(Shifted(b, k), 1) != 0)
    ensures k > 0 ==> Shifted(b, k) == Shifted(b >> 1, k - 1)
  {
    assert k == 0 || k == 1 || k == 2 || k == 3 || k == 4 || k == 5 || k == 6 || k == 7;
  }

  /** The j-th binary digit of a number, the least significant first. */
  function BinaryDigit(x: nat, j: nat): nat
    decreases j
  { if j == 0 then x % 2 else BinaryDigit(x / 2, j - 1) }

  lemma {:induction false} ShiftDigit(b: bv8, k: nat)
    requires k < 8
    ensures OfBits(Shifted(b, k)) % 2 == BinaryDigit(OfBits(b), k)
    decreases k
  {
    hide OfBits, Shifted, And8, Mask8;
    ShiftedOnce(b, k);
    ShiftHalves(b);
    if k > 0 { ShiftDigit(b >> 1, k - 1); }
  }

  /** Bit k of a byte is its k-th binary digit. */
  lemma BitIsDigit(x: byte, k: nat)
    requires k < 8
    ensures Test8(x, k) <==> BinaryDigit(x, k) == 1
  {
    hide OfBits, Shifted, And8, Mask8, ToBits, BinaryDigit;
    ShiftedOnce(ToBits(x), k);
    ShiftDigit(ToBits(x), k);
    ShiftHalves(Shifted(ToBits(x), k));
  }

  /** The digits of two numbers one above the other. */
  lemma {:induction false} DigitsJoin(k: nat, high: nat, low: nat, j: nat)
    requires low < Weight(k)
    ensures BinaryDigit(Weight(k) * high + low, j) == if j < k then BinaryDigit(low, j) else BinaryDigit(high, j - k)
    decreases k
  {
    if k > 0 {
      var t := Weight(k - 1) * high;
      assert Weight(k) * high + low == 2 * t + low;
      assert (2 * t + low) / 2 == t + low / 2;
      if j > 0 { DigitsJoin(k - 1, high, low / 2, j - 1); }
    }
  }

  lemma {:induction false} DigitsEnd(k: nat, low: nat, j: nat)
    requires low < Weight(k) && j >= k
    ensures BinaryDigit(low, j) == 0
    decreases j
  {
    if k > 0 {
      DigitsEnd(k - 1, low / 2, j - 1);
    } else if j > 0 {
      DigitsEnd(0, 0, j - 1);
    }
  }

  lemma ByteMasks(k: nat, j: nat)
    requires k < 8 && j < 8
    ensures Mask8(k) != 0 && (k != j ==> And8(Mask8(k), Mask8(j)) == 0)
  {
    assert k == 0 || k == 1 || k == 2 || k == 3 || k == 4 || k == 5 || k == 6 || k == 7;
    assert j == 0 || j == 1 || j == 2 || j == 3 || j == 4 || j == 5 || j == 6 || j == 7;
  }

  lemma Mix8LeavesOthers(x: bv8, a: bv8, b: bv8, val: bool)
    requires And8(a, b) == 0
    ensures And8(Mix8(x, a, val), b) == And8(x, b)
  {}

  lemma Mix8Sets(x: bv8, a: bv8, val: bool)
    ensures And8(Mix8(x, a, val), a) == if val then a else 0
  {}

  lemma ByteBits(x: byte, k: nat, val: bool, j: nat)
    requires k < 8 && j < 8
    ensures Test8(Put8(x, k, val), j) <==> if j == k then val else Test8(x, j)
  {
    hide ToBits, OfBits, Mask8, And8, Mix8;
    ByteMasks(k, j);
    BitsOfByte(Mix8(ToBits(x), Mask8(k), val));
    if j == k {
      Mix8Sets(ToBits(x), Mask8(k), val);
    } else {
      Mix8LeavesOthers(ToBits(x), Mask8(k), Mask8(j), val);
    }
  }

  lemma SameBits(x: bv8, y: bv8)
    requires And8(x, Mask8(0)) != 0 <==> And8(y, Mask8(0)) != 0
    requires And8(x, Mask8(1)) != 0 <==> And8(y, Mask8(1)) != 0
    requires And8(x, Mask8(2)) != 0 <==> And8(y, Mask8(2)) != 0
    requires And8(x, Mask8(3)) != 0 <==> And8(y, Mask8(3)) != 0
    requires And8(x, Mask8(4)) != 0 <==> And8(y, Mask8(4)) != 0
    requires And8(x, Mask8(5)) != 0 <==> And8(y, Mask8(5)) != 0
    requires And8(x, Mask8(6)) != 0 <==> And8(y, Mask8(6)) != 0
    requires And8(x, Mask8(7)) != 0 <==> And8(y, Mask8(7)) != 0
    ensures x == y
  {}

  lemma SameByte(x: byte, y: byte)
    requires forall k: nat :: k < 8 ==> (Test8(x, k) <==> Test8(y, k))
    ensures x == y
  {
    hide ToBits, OfBits, Mask8, And8;
    assert Test8(x, 0) <==> Test8(y, 0);
    assert Test8(x, 1) <==> Test8(y, 1);
    assert Test8(x, 2) <==> Test8(y, 2);
    assert Test8(x, 3) <==> Test8(y, 3);
    assert Test8(x, 4) <==> Test8(y, 4);
    assert Test8(x, 5) <==> Test8(y, 5);
    assert Test8(x, 6) <==> Test8(y, 6);
    assert Test8(x, 7) <==> Test8(y, 7);
    SameBits(ToBits(x), ToBits(y));
  }

  // ---- one bit of a word ----

  function Mask32(k: nat): bv32
    requires k < 32
  { (1 as bv32) << k }

  function And32(x: bv32, a: bv32): bv32 { x & a }

  function Mix32(x: bv32, a: bv32, val: bool): bv32 { if val then x | a else x & (a ^ 0xffff_ffff) }

  predicate Test32(x: bv32, k: nat)
    requires k < 32
  { And32(x, Mask32(k)) != 0 }

  function Put32(x: bv32, k: nat, val: bool): bv32
    requires k < 32
  { Mix32(x, Mask32(k), val) }

  /** A byte mask moved to byte t of a word. */
  function Lift(m: bv8, t: nat): bv32
    requires t < 4
  {
    if t == 0 then m as bv32
    else if t == 1 then (m as bv32) << 8
    else if t == 2 then (m as bv32) << 16
    else (m as bv32) << 24
  }

  lemma LiftedMask(t: nat, k: nat)
    requires t < 4 && k < 8
    ensures Lift(Mask8(k), t) == Mask32(8 * t + k)
  {
    assert k == 0 || k == 1 || k == 2 || k == 3 || k == 4 || k == 5 || k == 6 || k == 7;
    assert t == 0 || t == 1 || t == 2 || t == 3;
  }

  lemma LiftsApart(m: bv8, s: nat, n: bv8, t: nat)
    requires s < 4 && t < 4
    ensures s != t || And8(m, n) == 0 ==> And32(Lift(m, s), Lift(n, t)) == 0
    ensures m != 0 ==> Lift(m, s) != 0
  {}

  lemma MasksApart(k: nat, j: nat)
    requires k < 32 && j < 32
    ensures Mask32(k) != 0 && (k != j ==> And32(Mask32(k), Mask32(j)) == 0)
  {
    hide Mask8, Mask32, Lift, And8, And32;
    LiftedMask(k / 8, k % 8);
    LiftedMask(j / 8, j % 8);
    ByteMasks(k % 8, j % 8);
    LiftsApart(Mask8(k % 8), k / 8, Mask8(j % 8), j / 8);
  }

  lemma MixLeavesOthers(x: bv32, a: bv32, b: bv32, val: bool)
    requires And32(a, b) == 0
    ensures And32(Mix32(x, a, val), b) == And32(x, b)
  {}

  lemma MixSets(x: bv32, a: bv32, val: bool)
    ensures And32(Mix32(x, a, val), a) == if val then a else 0
  {}

  lemma PutThenTest(x: bv32, k: nat, val: bool, j: nat)
    requires k < 32 && j < 32
    ensures Test32(Put32(x, k, val), j) == if j == k then val else Test32(x, j)
  {
    hide Mask32, And32, Mix32;
    MasksApart(k, j);
    if j == k {
      MixSets(x, Mask32(k), val);
    } else {
      MixLeavesOthers(x, Mask32(k), Mask32(j), val);
    }
  }

  /** Byte t of a word as the image file stores it. */
  function BitsOfWord(w: bv32, t: nat): bv8
    requires t < 4
  {
    if t == 0 then (w & 0xff) as bv8
    else if t == 1 then ((w >> 8) & 0xff) as bv8
    else if t == 2 then ((w >> 16) & 0xff) as bv8
    else ((w >> 24) & 0xff) as bv8
  }

  function ByteOfWord(w: bv32, t: nat): byte
    requires t < 4
  { OfBits(BitsOfWord(w, t)) }

  lemma MaskedByte0(w: bv32, m: bv8)
    ensures And8(BitsOfWord(w, 0), m) != 0 <==> And32(w, Lift(m, 0)) != 0
  {}

  lemma MaskedByte1(w: bv32, m: bv8)
    ensures And8(BitsOfWord(w, 1), m) != 0 <==> And32(w, Lift(m, 1)) != 0
  {}

  lemma MaskedByte2(w: bv32, m: bv8)
    ensures And8(BitsOfWord(w, 2), m) != 0 <==> And32(w, Lift(m, 2)) != 0
  {}

  lemma MaskedByte3(w: bv32, m: bv8)
    ensures And8(BitsOfWord(w, 3), m) != 0 <==> And32(w, Lift(m, 3)) != 0
  {}

  lemma BitOfWord(w: bv32, t: nat, k: nat)
    requires t < 4 && k < 8
    ensures Test8(ByteOfWord(w, t), k) <==> Test32(w, 8 * t + k)
  {
    hide ToBits, OfBits, BitsOfWord, Mask8, Mask32, Lift, And8, And32;
    BitsOfByte(BitsOfWord(w, t));
    MaskedByte0(w, Mask8(k)); MaskedByte1(w, Mask8(k)); MaskedByte2(w, Mask8(k)); MaskedByte3(w, Mask8(k));
    assert t == 0 || t == 1 || t == 2 || t == 3;
    LiftedMask(t, k);
  }
}
