/** Single bits of a byte, and ssd1306_rotate_byte. */
module Bits {

  function Mask(k: nat): bv8
    requires k < 8
  {
    1 << k
  }

  predicate Bit(b: bv8, k: nat)
    requires k < 8
  {
    b & Mask(k) != 0
  }

  lemma Masks()
    ensures Mask(0) == 1 && Mask(1) == 2 && Mask(2) == 4 && Mask(3) == 8
    ensures Mask(4) == 16 && Mask(5) == 32 && Mask(6) == 64 && Mask(7) == 128
  {
  }

  lemma MaskBit(k: nat, j: nat)
    requires k < 8 && j < 8
    ensures Bit(Mask(k), j) <==> j == k
  {
  }

  /** A byte is its eight bits. */
  lemma SameBits(a: bv8, b: bv8)
    requires forall k :: 0 <= k < 8 ==> (Bit(a, k) <==> Bit(b, k))
    ensures a == b
  {
    Masks();
    assert Bit(a, 0) == Bit(b, 0) && Bit(a, 1) == Bit(b, 1) && Bit(a, 2) == Bit(b, 2) && Bit(a, 3) == Bit(b, 3);
    assert Bit(a, 4) == Bit(b, 4) && Bit(a, 5) == Bit(b, 5) && Bit(a, 6) == Bit(b, 6) && Bit(a, 7) == Bit(b, 7);
  }

  lemma OrBit(a: bv8, b: bv8, k: nat)
    requires k < 8
    ensures Bit(a | b, k) <==> Bit(a, k) || Bit(b, k)
  {
  }

  lemma AndNotBit(a: bv8, b: bv8, k: nat)
    requires k < 8
    ensures Bit(a & !b, k) <==> Bit(a, k) && !Bit(b, k)
  {
  }

  lemma ShiftRightBit(b: bv8, k: nat)
    requires k < 8
    ensures Bit(b >> 1, k) <==> k < 7 && Bit(b, k + 1)
  {
  }

  /** The step of the rotation: the lowest bit of `c` is pushed onto `r` from the right. */
  lemma PushBit(r: bv8, c: bv8, k: nat)
    requires k < 8
    ensures Bit((r << 1) + (c & 1), k) <==> if k == 0 then Bit(c, 0) else Bit(r, k - 1)
  {
  }

  /** A byte moved up one row, taking in the lowest bit of the byte below it. */
  lemma UpBit(b: bv8, below: bv8, k: nat)
    requires k < 8
    ensures Bit((b >> 1) | ((below & 1) << 7), k) <==> if k < 7 then Bit(b, k + 1) else Bit(below, 0)
  {
  }

  /** A byte moved down one row, taking in the highest bit of the byte above it. */
  lemma DownBit(b: bv8, above: bv8, k: nat)
    requires k < 8
    ensures Bit((b << 1) | ((above & 0x80) >> 7), k) <==> if k > 0 then Bit(b, k - 1) else Bit(above, 7)
  {
  }

  /** ssd1306_rotate_byte reverses the bits. */
  method RotateByte(ch1: bv8) returns (ch2: bv8)
    ensures forall k :: 0 <= k < 8 ==> (Bit(ch2, k) <==> Bit(ch1, 7 - k))
  {
    ch2 := 0;
    var c := ch1;
    for j := 0 to 8
      invariant forall k :: 0 <= k < 8 ==> (Bit(c, k) <==> k + j < 8 && Bit(ch1, k + j))
      invariant forall k :: 0 <= k < 8 ==> (Bit(ch2, k) <==> k < j && Bit(ch1, j - 1 - k))
    {
      ghost var r0, c0 := ch2, c;
      ch2 := (ch2 << 1) + (c & 1);
      c := c >> 1;
      forall k | 0 <= k < 8
        ensures Bit(c, k) <==> k < 7 && Bit(c0, k + 1)
        ensures Bit(ch2, k) <==> if k == 0 then Bit(c0, 0) else Bit(r0, k - 1)
      {
        ShiftRightBit(c0, k);
        PushBit(r0, c0, k);
      }
    }
  }
}
