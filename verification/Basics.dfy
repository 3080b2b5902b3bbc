/** What several components share: options, minima, sequence and quotient facts. */
module Basics {

  datatype Option<T> = None | Some(value: T)

  function Min(a: int, b: int): int { if a < b then a else b }

  function Max(a: int, b: int): int { if a > b then a else b }

  lemma Assoc<T>(a: seq<T>, b: seq<T>, c: seq<T>)
    ensures a + b + c == a + (b + c)
  {
  }

  lemma MulMonotone(a: int, b: int, k: nat)
    requires a <= b
    ensures a * k <= b * k
  {
  }

  lemma MulGap(a: nat, b: nat, d: nat)
    requires a < b
    ensures a * d + d <= b * d
  {
    assert (b - a - 1) * d >= 0;
    assert b * d == a * d + (b - a - 1) * d + d;
  }

  lemma QuotientWithin(x: nat, d: nat)
    requires d > 0
    ensures x / d * d <= x < x / d * d + d
  {
  }

  lemma QuotientUnique(x: nat, d: nat, q: nat, r: nat)
    requires r < d && x == q * d + r
    ensures x / d == q && x % d == r
  {
    var p := x / d;
    QuotientWithin(x, d);
    if p < q {
      MulGap(p, q, d);
    } else if q < p {
      MulGap(q, p, d);
    }
  }

  lemma QuotientAtLeast(n: nat, a: nat, q: nat)
    requires 0 < a && q * a <= n
    ensures q <= n / a
  {
    QuotientWithin(n, a);
    if n / a < q { MulGap(n / a, q, a); }
  }

  lemma QuotientAtMost(n: nat, a: nat, m: nat)
    requires 0 < a && n <= m * a
    ensures n / a <= m
  {
    QuotientWithin(n, a);
    if m < n / a { MulGap(m, n / a, a); }
  }

  lemma QuotientAntitone(n: nat, a: nat, b: nat)
    requires 0 < a <= b
    ensures n / b <= n / a
  {
    var q := n / b;
    QuotientWithin(n, b);
    MulMonotone(a, b, q);
    QuotientAtLeast(n, a, q);
  }

  lemma CancelFactor(q: nat, b: nat, d: nat)
    requires d > 0 && q * d <= b * d
    ensures q <= b
  {
    if b < q { MulGap(b, q, d); }
  }
}
