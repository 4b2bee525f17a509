/** The few facts about products and quotients that the proofs need stated. */
module Arith {

  function Min(a: int, b: int): int {
    if a <= b then a else b
  }

  function Max(a: int, b: int): int {
    if a >= b then a else b
  }

  function Pow2(k: nat): (p: nat)
    ensures p > 0
  {
    if k == 0 then 1 else 2 * Pow2(k - 1)
  }

  function CeilDiv(x: nat, n: nat): nat
    requires n > 0
  {
    (x + n - 1) / n
  }

  lemma {:induction false} MulSign(d: int, k: int)
    requires d > 0
    ensures k >= 1 ==> d * k >= d
    ensures k <= -1 ==> d * k <= -d
  {
    if k >= 1 { assert d * k == d + d * (k - 1) && d * (k - 1) >= 0; }
    if k <= -1 { assert d * k == -d + d * (k + 1) && d * (k + 1) <= 0; }
  }

  /** Quotient and remainder are determined. */
  lemma {:induction false} DivUnique(x: int, d: int, q: int, r: int)
    requires d > 0 && x == q * d + r && 0 <= r < d
    ensures x / d == q && x % d == r
  {
    var k := x / d - q;
    assert x == d * (x / d) + x % d;
    assert d * k == d * (x / d) - d * q;
    MulSign(d, k);
  }

  lemma {:induction false} Quotient(x: nat, d: nat)
    requires d > 0
    ensures x / d * d <= x < x / d * d + d
  {
    assert x == d * (x / d) + x % d;
  }

  lemma {:induction false} MulMonotone(a: int, b: int, c: int)
    requires a <= b && c >= 0
    ensures a * c <= b * c
  {
    assert (b - a) * c >= 0;
  }

  lemma {:induction false} ProductMonotone(a: nat, b: nat, c: nat, d: nat)
    requires a <= b && c <= d
    ensures a * c <= b * d
  {
    MulMonotone(a, b, c);
    MulMonotone(c, d, b);
  }

  /** Where rank `r`'s chunk starts when every rank holds `w` entries. */
  function RankOffset(w: nat, r: nat): nat {
    if r == 0 then 0 else RankOffset(w, r - 1) + w
  }

  lemma {:induction false} RankOffsetIsMultiple(w: nat, r: nat)
    ensures RankOffset(w, r) == w * r
    decreases r
  {
    if r == 0 {
    } else {
      RankOffsetIsMultiple(w, r - 1);
      assert w * (r - 1) + w == w * r;
    }
  }
}
