/** Powers of two and the bit-smearing rounding of tgen_next_pow2_u64 (util.c). */
module Powers {

  function Pow2(k: nat): (p: nat)
    ensures p >= 1
  {
    if k == 0 then 1 else 2 * Pow2(k - 1)
  }

  predicate Bit(x: nat, i: nat)
    decreases i
  {
    if i == 0 then x % 2 == 1 else Bit(x / 2, i - 1)
  }

  function ShiftRight(x: nat, m: nat): nat
    decreases m
  {
    if m == 0 then x else ShiftRight(x / 2, m - 1)
  }

  function BitOr(a: nat, b: nat): nat
    decreases a + b
  {
    if a == 0 then b else if b == 0 then a
    else 2 * BitOr(a / 2, b / 2) + (if a % 2 == 1 || b % 2 == 1 then 1 else 0)
  }

  lemma {:induction false} ZeroBits(i: nat)
    ensures !Bit(0, i)
  {
    if i > 0 { ZeroBits(i - 1); }
  }

  lemma {:induction false} OrBits(a: nat, b: nat, i: nat)
    ensures Bit(BitOr(a, b), i) <==> Bit(a, i) || Bit(b, i)
    decreases i
  {
    ZeroBits(i);
    if a != 0 && b != 0 && i > 0 {
      assert BitOr(a, b) / 2 == BitOr(a / 2, b / 2);
      OrBits(a / 2, b / 2, i - 1);
    }
  }

  lemma {:induction false} ShiftBits(x: nat, m: nat, i: nat)
    ensures Bit(ShiftRight(x, m), i) <==> Bit(x, i + m)
    decreases m
  {
    if m > 0 { ShiftBits(x / 2, m - 1, i); }
  }

  lemma {:induction false} NoBits(x: nat)
    requires forall i :: !Bit(x, i)
    ensures x == 0
  {
    if x != 0 {
      forall i: nat ensures !Bit(x / 2, i) { assert !Bit(x, i + 1); }
      assert !Bit(x, 0);
      NoBits(x / 2);
    }
  }

  lemma {:induction false} AllOnes(x: nat, k: nat)
    requires forall i :: 0 <= i <= k ==> Bit(x, i)
    requires forall i :: i > k ==> !Bit(x, i)
    ensures x == Pow2(k + 1) - 1
    decreases k
  {
    assert Bit(x, 0);
    forall i: nat ensures Bit(x / 2, i) <==> i < k { assert Bit(x, i + 1) <==> Bit(x / 2, i); }
    if k == 0 { NoBits(x / 2); } else { AllOnes(x / 2, k - 1); }
  }

  lemma {:induction false} TopBit(x: nat) returns (k: nat)
    requires x > 0
    ensures Pow2(k) <= x < Pow2(k + 1) && Bit(x, k) && forall i :: i > k ==> !Bit(x, i)
  {
    if x == 1 {
      k := 0;
      forall i: nat | i > 0 ensures !Bit(x, i) { ZeroBits(i - 1); }
    } else {
      var j := TopBit(x / 2);
      k := j + 1;
      forall i: nat | i > k ensures !Bit(x, i) { assert !Bit(x / 2, i - 1); }
    }
  }

  /** Bits k-m+1..k are set and none above k: m leading ones. */
  ghost predicate Leading(x: nat, k: nat, m: nat) {
    && (forall i :: 0 <= i <= k && k < i + m ==> Bit(x, i))
    && (forall i :: i > k ==> !Bit(x, i))
  }

  lemma SmearDoubles(x: nat, k: nat, m: nat)
    requires Leading(x, k, m)
    ensures Leading(Smear(x, m), k, 2 * m)
  {
    var y := Smear(x, m);
    forall i: nat ensures Bit(y, i) <==> Bit(x, i) || Bit(x, i + m) {
      OrBits(x, ShiftRight(x, m), i);
      ShiftBits(x, m, i);
    }
    forall i: nat | i <= k && k < i + 2 * m ensures Bit(y, i) {
      if k >= i + m { assert Bit(x, i + m); } else { assert Bit(x, i); }
    }
    forall i: nat | i > k ensures !Bit(y, i) {
      assert !Bit(x, i) && !Bit(x, i + m);
    }
  }

  function Smear(x: nat, m: nat): nat { BitOr(x, ShiftRight(x, m)) }

  /** The six smearing steps of a number with top bit k set every bit up to k. */
  lemma SmearFills(x: nat, k: nat)
    requires x == 0 || Leading(x, k, 1)
    ensures var y := Smear(Smear(Smear(Smear(Smear(Smear(x, 1), 2), 4), 8), 16), 32);
            if x == 0 then y == 0 else Leading(y, k, 64)
  {
    hide BitOr, ShiftRight, Bit;
    if x == 0 {
      assert forall m :: Smear(0, m) == 0 by {
        forall m: nat ensures Smear(0, m) == 0 { SmearZero(m); }
      }
    } else {
      var x1 := Smear(x, 1);
      SmearDoubles(x, k, 1);
      var x2 := Smear(x1, 2);
      SmearDoubles(x1, k, 2);
      var x3 := Smear(x2, 4);
      SmearDoubles(x2, k, 4);
      var x4 := Smear(x3, 8);
      SmearDoubles(x3, k, 8);
      var x5 := Smear(x4, 16);
      SmearDoubles(x4, k, 16);
      SmearDoubles(x5, k, 32);
    }
  }

  lemma {:induction false} SmearZero(m: nat)
    ensures Smear(0, m) == 0
  {
    if m > 0 { SmearZero(m - 1); }
  }

  lemma {:induction false} Pow2Monotone(a: nat, b: nat)
    requires a <= b
    ensures Pow2(a) <= Pow2(b)
    decreases b
  {
    if a < b { Pow2Monotone(a, b - 1); }
  }

  lemma {:induction false} Pow2Sum(a: nat, b: nat)
    ensures Pow2(a + b) == Pow2(a) * Pow2(b)
    decreases a
  {
    if a > 0 {
      Pow2Sum(a - 1, b);
      assert a - 1 + b == a + b - 1;
    }
  }

  lemma Pow64()
    ensures Pow2(63) == 0x8000_0000_0000_0000 && Pow2(64) == 0x1_0000_0000_0000_0000
  {
    Pow32();
    assert Pow2(64) == 2 * Pow2(63);
    hide Pow2;
    Pow2Sum(32, 32);
  }

  lemma Pow32()
    ensures Pow2(31) == 0x8000_0000 && Pow2(32) == 0x1_0000_0000
  {
    Pow16();
    assert Pow2(32) == 2 * Pow2(31);
    hide Pow2;
    Pow2Sum(16, 16);
  }

  lemma Pow16()
    ensures Pow2(16) == 0x1_0000
  {
    assert Pow2(4) == 16;
    hide Pow2;
    Pow2Sum(4, 4);
    Pow2Sum(8, 8);
  }

  ghost predicate IsLeastPow2(r: nat, v: nat) {
    exists k: nat :: r == Pow2(k) && v <= r && (k == 0 || Pow2(k - 1) < v)
  }

  /**
   * tgen_next_pow2_u64: the least power of two at least v, for every v up to
   * 2^63; above that the 64-bit sum wraps to 0.
   */
  method NextPow2(v: nat) returns (r: nat)
    requires v < 0x1_0000_0000_0000_0000
    ensures v <= 0x8000_0000_0000_0000 ==> IsLeastPow2(r, v)
    ensures v > 0x8000_0000_0000_0000 ==> r == 0
  {
    hide *;
    if v == 0 {
      ZeroRounds();
      return 1;
    }
    var x := v - 1;
    x := Smear(x, 1);
    x := Smear(x, 2);
    x := Smear(x, 4);
    x := Smear(x, 8);
    x := Smear(x, 16);
    x := Smear(x, 32);
    r := (x + 1) % 0x1_0000_0000_0000_0000;
    SmearRounds(v, x);
  }

  lemma ZeroRounds()
    ensures IsLeastPow2(1, 0) && IsLeastPow2(1, 1)
  {
    assert Pow2(0) == 1;
  }

  lemma SmearRounds(v: nat, x: nat)
    requires 0 < v < 0x1_0000_0000_0000_0000
    requires x == Smear(Smear(Smear(Smear(Smear(Smear(v - 1, 1), 2), 4), 8), 16), 32)
    ensures var r := (x + 1) % 0x1_0000_0000_0000_0000;
            && (v <= 0x8000_0000_0000_0000 ==> IsLeastPow2(r, v))
            && (v > 0x8000_0000_0000_0000 ==> r == 0)
  {
    hide *;
    if v == 1 {
      SmearFills(0, 0);
      ZeroRounds();
    } else {
      var k := SmearOnes(v - 1);
      TopBelow64(v - 1, k);
      RoundsUp(v, k);
      assert x + 1 == Pow2(k + 1);
    }
  }

  /** Smearing a number with top bit k gives 2^(k+1) - 1. */
  lemma SmearOnes(x: nat) returns (k: nat)
    requires x > 0
    ensures Pow2(k) <= x < Pow2(k + 1)
    ensures k <= 63 ==> Smear(Smear(Smear(Smear(Smear(Smear(x, 1), 2), 4), 8), 16), 32) == Pow2(k + 1) - 1
  {
    k := TopBit(x);
    SmearFills(x, k);
    hide Smear, Bit, Pow2;
    if k <= 63 { AllOnes(Smear(Smear(Smear(Smear(Smear(Smear(x, 1), 2), 4), 8), 16), 32), k); }
  }

  lemma TopBelow64(x: nat, k: nat)
    requires Pow2(k) <= x < 0x1_0000_0000_0000_0000
    ensures k <= 63
  {
    if k >= 64 { AtLeast64(k); }
  }

  lemma AtLeast64(k: nat)
    requires k >= 64
    ensures Pow2(k) >= 0x1_0000_0000_0000_0000
  {
    Pow64();
    Pow2Monotone(64, k);
  }

  lemma RoundsUp(v: nat, k: nat)
    requires Pow2(k) < v <= Pow2(k + 1) && k <= 63
    ensures v <= 0x8000_0000_0000_0000 ==> Pow2(k + 1) < 0x1_0000_0000_0000_0000 && IsLeastPow2(Pow2(k + 1), v)
    ensures v > 0x8000_0000_0000_0000 ==> Pow2(k + 1) == 0x1_0000_0000_0000_0000
  {
    Pow64();
    if k < 63 {
      Pow2Monotone(k + 1, 63);
      assert Pow2(k + 1 - 1) < v;
    }
  }
}
