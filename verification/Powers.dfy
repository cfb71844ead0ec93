/** Powers of two and the division facts the address and retry proofs share. */
module Powers {

  function Pow2(n: nat): (r: nat)
    ensures r >= 1
  {
    if n == 0 then 1 else 2 * Pow2(n - 1)
  }

  lemma {:induction false} Pow2Monotone(m: nat, n: nat)
    requires m <= n
    ensures Pow2(m) <= Pow2(n)
  {
    if m < n { Pow2Monotone(m, n - 1); }
  }

  lemma {:induction false} Pow2Sum(m: nat, n: nat)
    ensures Pow2(m + n) == Pow2(m) * Pow2(n)
  {
    if m > 0 {
      Pow2Sum(m - 1, n);
      assert Pow2(m + n) == 2 * Pow2(m - 1 + n);
    }
  }

  lemma MulGrows(d: int, e: int)
    requires d > 0
    ensures e >= 1 ==> d * e >= d
    ensures e <= -1 ==> d * e <= -d
  {
  }

  lemma DivUnique(x: int, d: int, q: int, r: int)
    requires x == d * q + r && 0 <= r < d
    ensures x / d == q
  {
    var e := x / d - q;
    assert d * (x / d) + x % d == x;
    assert d * e == d * (x / d) - d * q;
    MulGrows(d, e);
  }

  lemma MulAssociates(a: int, b: int, c: int, d: int)
    ensures a * (b * c + d) == (a * b) * c + a * d
  {
  }

  lemma MulNonNegative(a: int, x: int)
    requires a >= 0 && x >= 0
    ensures a * x >= 0
  {
  }

  lemma MulOverSum(a: int, x: int, y: int)
    ensures a * (x + y + 1) == a * x + a * y + a
  {
  }

  lemma MixedRadixBound(a: int, b: int, x: int, y: int)
    requires 0 <= x < b && 0 <= y < a
    ensures 0 <= a * x + y < a * b
  {
    var rest := b - 1 - x;
    MulNonNegative(a, x);
    MulNonNegative(a, rest);
    assert b == x + rest + 1;
    MulOverSum(a, x, rest);
  }

  lemma DivDiv(x: nat, a: nat, b: nat)
    requires a > 0 && b > 0
    ensures a * b > 0 && x / (a * b) == (x / a) / b
  {
    var q, r := x / a, x % a;
    var q2, r2 := q / b, q % b;
    MulAssociates(a, b, q2, r2);
    MixedRadixBound(a, b, r2, r);
    DivUnique(x, a * b, q2, a * r2 + r);
  }
}
