/** Bit operations on bytes, as the machine does them. */
module Words {

  /** The number a byte-sized word stands for. */
  function Unsigned(a: bv8): (n: nat)
    ensures n < 256
  {
    a as int
  }

  /** A number below 256 is what its word stands for. */
  lemma WordAndBack(n: int)
    requires 0 <= n < 256
    ensures (n as bv8) as int == n
  {
    assert n == n % 256;
  }

  lemma LowBit(a: bv8)
    ensures a as int == 2 * ((a >> 1) as int) + (a & 1) as int
    ensures (a & 1) as int == a as int % 2
  {
  }

  lemma ShiftHalves(a: bv8)
    ensures Unsigned(a >> 1) == Unsigned(a) / 2
  {
    LowBit(a);
  }

  lemma ShiftedXor(a: bv8, b: bv8)
    ensures (a ^ b) >> 1 == (a >> 1) ^ (b >> 1)
  {
  }

  lemma LowBitsDiffer(a: bv8, b: bv8)
    ensures ((a ^ b) & 1) as int == ((a & 1) as int + (b & 1) as int) % 2
  {
    assert a & 1 == 0 || a & 1 == 1;
    assert b & 1 == 0 || b & 1 == 1;
    assert (a ^ b) & 1 == (a & 1) ^ (b & 1);
  }

  lemma BitwiseZero(a: bv8, b: bv8)
    requires Unsigned(a) == 0 && Unsigned(b) == 0
    ensures Unsigned(a ^ b) == 0
  {
    assert a == 0 && b == 0;
    assert a ^ b == 0;
  }

  lemma WordOrder(a: bv8, b: bv8)
    ensures a < b <==> Unsigned(a) < Unsigned(b)
  {
  }

  /** A single bit with nothing of `b` above it: if `b` lacks that bit too, the same holds
      of the next lower bit. */
  lemma MaskStep(b: bv8, mask: bv8)
    requires b != 0 && mask != 0 && mask & (mask - 1) == 0 && b <= mask + (mask - 1) && b & mask == 0
    ensures mask != 1 && b < mask
    ensures var next := mask >> 1; next != 0 && next & (next - 1) == 0 && b <= next + (next - 1)
    ensures mask & 1 == 0
  {
  }

  lemma MaskHit(b: bv8, mask: bv8)
    requires b & mask != 0 && mask & (mask - 1) == 0
    ensures mask <= b
  {
  }
}
