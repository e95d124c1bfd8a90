/** The heads of one round of blob packing: three bytes spread over the low six bits of four
    field-element heads, as arithmetic on bytes and as the bit operations that compute it. */
module FieldElements {
  import opened Prelude

  /** Head of element `j` for the three bytes a round spreads over its heads. */
  function Head(j: nat, x: Byte, y: Byte, z: Byte): Byte
    requires j < 4
  {
    if j == 0 then x % 64
    else if j == 1 then y % 16 + x / 64 * 16
    else if j == 2 then z % 64
    else y / 16 + z / 64 * 16
  }

  predicate FieldElement(head: Byte) { head < 64 }

  function JoinX(e0: Byte, e1: Byte): Byte { e0 % 64 + e1 / 16 % 4 * 64 }

  function JoinY(e1: Byte, e3: Byte): Byte { e1 % 16 + e3 % 16 * 16 }

  function JoinZ(e2: Byte, e3: Byte): Byte { e2 % 64 + e3 / 16 % 4 * 64 }

  lemma Split16(low: nat, high: nat)
    requires low < 16 && high < 16
    ensures (low + high * 16) % 16 == low && (low + high * 16) / 16 == high
  {
  }

  lemma Split64(low: nat, high: nat)
    requires low < 64 && high < 4
    ensures (low + high * 64) % 64 == low && (low + high * 64) / 64 == high
  {
  }

  lemma JoinHeads(x: Byte, y: Byte, z: Byte)
    ensures JoinX(Head(0, x, y, z), Head(1, x, y, z)) == x
    ensures JoinY(Head(1, x, y, z), Head(3, x, y, z)) == y
    ensures JoinZ(Head(2, x, y, z), Head(3, x, y, z)) == z
    ensures forall j :: 0 <= j < 4 ==> FieldElement(Head(j, x, y, z))
  {
    Split16(y % 16, x / 64);
    Split16(y / 16, z / 64);
  }

  lemma HeadParts(x: Byte, y: Byte, z: Byte)
    ensures Head(0, x, y, z) == x % 64 && Head(1, x, y, z) == y % 16 + x / 64 * 16
    ensures Head(2, x, y, z) == z % 64 && Head(3, x, y, z) == y / 16 + z / 64 * 16
  {
  }

  /** A field element head by its low four and its high two bits. */
  lemma Parts(e: Byte)
    requires FieldElement(e)
    ensures e % 64 == e && e / 16 < 4 && e / 16 % 4 == e / 16 && e % 16 < 16 && e % 16 + e / 16 * 16 == e
  {
  }

  lemma JoinParts(e0: Byte, e1: Byte, e3: Byte)
    requires FieldElement(e0) && FieldElement(e1) && FieldElement(e3)
    ensures JoinX(e0, e1) == JoinZ(e0, e1) == e0 + e1 / 16 * 64 && JoinY(e1, e3) == e1 % 16 + e3 % 16 * 16
  {
    Parts(e0);
    Parts(e1);
  }

  lemma HeadJoins(e0: Byte, e1: Byte, e2: Byte, e3: Byte)
    requires FieldElement(e0) && FieldElement(e1) && FieldElement(e2) && FieldElement(e3)
    ensures var x, y, z := JoinX(e0, e1), JoinY(e1, e3), JoinZ(e2, e3);
            Head(0, x, y, z) == e0 && Head(1, x, y, z) == e1 && Head(2, x, y, z) == e2 && Head(3, x, y, z) == e3
  {
    hide Head, JoinX, JoinY, JoinZ;
    HeadParts(JoinX(e0, e1), JoinY(e1, e3), JoinZ(e2, e3));
    JoinParts(e0, e1, e3);
    JoinParts(e2, e3, e1);
    Parts(e1);
    Parts(e3);
    Split64(e0, e1 / 16);
    Split64(e2, e3 / 16);
    Split16(e1 % 16, e3 % 16);
  }

  lemma ZeroHeads(j: nat, zero: Byte)
    requires zero == 0 && j < 4
    ensures FieldElement(zero) && Head(j, zero, zero, zero) == 0
  {
  }

  lemma ZeroJoins(zero: Byte)
    requires zero == 0
    ensures JoinX(zero, zero) == 0 && JoinY(zero, zero) == 0 && JoinZ(zero, zero) == 0
  {
    hide Head, JoinX, JoinY, JoinZ;
    JoinHeads(0, 0, 0);
    ZeroHeads(0, 0);
    ZeroHeads(1, 0);
    ZeroHeads(2, 0);
    ZeroHeads(3, 0);
  }

  lemma TopBits(e: bv8)
    ensures e & 0xc0 == 0 <==> FieldElement(e as int)
  {
  }

  lemma LowSix(e: bv8)
    ensures (e & 63) as int == (e as int) % 64
  {
  }

  lemma LowFour(e: bv8)
    ensures (e & 15) as int == (e as int) % 16
  {
  }

  lemma MiddleUp(e: bv8)
    ensures ((e & 48) << 2) as int == (e as int) / 16 % 4 * 64
  {
  }

  lemma LowUp(e: bv8)
    ensures ((e & 15) << 4) as int == (e as int) % 16 * 16
  {
  }

  lemma Or(a: bv8, b: bv8)
    requires a & b == 0
    ensures (a | b) as int == a as int + b as int
  {
  }

  /** `JoinX` and `JoinZ` are what the decoder's masks and shifts compute... */
  lemma JoinSixBits(e0: bv8, e1: bv8)
    ensures ((e0 & 63) | ((e1 & 48) << 2)) as int == JoinX(e0 as int, e1 as int) == JoinZ(e0 as int, e1 as int)
  {
    LowSix(e0);
    MiddleUp(e1);
    Or(e0 & 63, (e1 & 48) << 2);
  }

  /** ...and so is `JoinY`. */
  lemma JoinFourBits(e1: bv8, e3: bv8)
    ensures ((e1 & 15) | ((e3 & 15) << 4)) as int == JoinY(e1 as int, e3 as int)
  {
    LowFour(e1);
    LowUp(e3);
    Or(e1 & 15, (e3 & 15) << 4);
  }
}
