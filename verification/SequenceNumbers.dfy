/** Fixed-width integers and TCP sequence numbers modulo 2^32 (the SEQ_* macros of tcp_fsm.c). */
module SequenceNumbers {

  const MODULUS: int := 0x1_0000_0000
  const HALF: int := 0x8000_0000

  type byte = x: int | 0 <= x < 0x100
  type u16 = x: int | 0 <= x < 0x1_0000
  type u32 = x: int | 0 <= x < 0x1_0000_0000

  /** Unsigned 32-bit truncation. */
  function Wrap(x: int): u32 { x % MODULUS }

  /** The cast `(int32_t)u`. */
  function Signed(u: u32): int { if u < HALF then u else u - MODULUS }

  predicate SeqGt(a: u32, b: u32) { Signed(Wrap(a - b)) > 0 }

  lemma WrapDiff(x: int, y: int)
    ensures Wrap(Wrap(x) - Wrap(y)) == Wrap(x - y)
  {
    var d := (x - x % MODULUS) / MODULUS - (y - y % MODULUS) / MODULUS;
    assert x - y == Wrap(x) - Wrap(y) + d * MODULUS;
    WrapShift(Wrap(x) - Wrap(y), d);
  }

  lemma WrapSum(x: int, y: int)
    ensures Wrap(Wrap(x) + y) == Wrap(x + y)
  {
    var d := (x - x % MODULUS) / MODULUS;
    assert x + y == Wrap(x) + y + d * MODULUS;
    WrapShift(Wrap(x) + y, d);
  }

  lemma WrapSmall(x: int)
    requires 0 <= x < MODULUS
    ensures Wrap(x) == x
  {
  }

  /** The offset of a sequence number from its base is exact below the modulus. */
  lemma WrapOffset(base: u32, o: nat)
    requires o < MODULUS
    ensures Wrap(Wrap(base + o) - base) == o
  {
    WrapDiff(base + o, base);
  }

  lemma WrapBack(base: u32, x: u32)
    ensures Wrap(base + Wrap(x - base)) == x
  {
    WrapSum(x - base, base);
  }

  lemma {:induction false} WrapShift(x: int, d: int)
    ensures Wrap(x + d * MODULUS) == Wrap(x)
  {
    assert x + d * MODULUS == (x / MODULUS + d) * MODULUS + x % MODULUS;
  }

  /**
   * SEQ_GT on two sequence numbers at unbounded positions x and y: it tests
   * whether x is ahead of y by less than half the sequence space, modulo the
   * whole space, and so agrees with the unbounded order exactly when the
   * distance behind does not fall in the upper half.
   */
  lemma SeqGtExact(origin: int, x: int, y: int)
    ensures SeqGt(Wrap(origin + x), Wrap(origin + y)) <==> 0 < Wrap(x - y) < HALF
    ensures -HALF <= x - y < HALF ==> (SeqGt(Wrap(origin + x), Wrap(origin + y)) <==> x > y)
  {
    WrapDiff(origin + x, origin + y);
  }

  /** Equality of sequence numbers is equality of positions modulo the sequence space. */
  lemma SeqEqExact(origin: int, x: int, y: int)
    ensures Wrap(origin + x) == Wrap(origin + y) <==> Wrap(x - y) == 0
    ensures -MODULUS < x - y < MODULUS ==> (Wrap(origin + x) == Wrap(origin + y) <==> x == y)
  {
    WrapDiff(origin + x, origin + y);
  }
}
