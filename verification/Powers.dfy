/** Powers of two, their logarithm, and rounding up to blocks. */
module Powers {

  function Pow2(k: nat): (r: nat)
    ensures r > 0
  {
    if k == 0 then 1 else 2 * Pow2(k - 1)
  }

  lemma {:induction false} Pow2Mono(a: nat, b: nat)
    requires a <= b
    ensures Pow2(a) <= Pow2(b)
    decreases b
  {
    if a < b { Pow2Mono(a, b - 1); }
  }

  lemma {:induction false} Pow2Add(a: nat, b: nat)
    ensures Pow2(a + b) == Pow2(a) * Pow2(b)
  {
    if a > 0 {
      Pow2Add(a - 1, b);
      assert Pow2(a + b) == 2 * Pow2(a - 1 + b);
      assert 2 * (Pow2(a - 1) * Pow2(b)) == (2 * Pow2(a - 1)) * Pow2(b);
    }
  }

  lemma {:induction false} Pow2Grows(k: nat)
    ensures k < Pow2(k)
  {
    if k > 0 { Pow2Grows(k - 1); }
  }

  /** Position of the highest set bit, as the leading-zero count gives it. */
  function Log2(n: nat): (k: nat)
    requires n > 0
    ensures Pow2(k) <= n < Pow2(k + 1)
  {
    if n == 1 then 0 else 1 + Log2(n / 2)
  }

  lemma {:induction false} Log2Mono(a: nat, b: nat)
    requires 0 < a <= b
    ensures Log2(a) <= Log2(b)
  {
    if Log2(b) < Log2(a) { Pow2Mono(Log2(b) + 1, Log2(a)); }
  }

  lemma Log2Less(n: nat, k: nat)
    requires n > 0
    ensures n < Pow2(k) <==> Log2(n) < k
  {
    if Log2(n) < k { Pow2Mono(Log2(n) + 1, k); } else { Pow2Mono(k, Log2(n)); }
  }

  function Max(a: nat, b: nat): nat { if a < b then b else a }

  function Min(a: nat, b: nat): nat { if a < b then a else b }

  // ---------------------------------------------------------------- products and quotients

  lemma MulBoth(a: nat, b: nat, c: nat, d: nat)
    requires a <= c && b <= d
    ensures a * b <= c * d
  {
    MulMono(a, c, b);
    MulMono(b, d, c);
    assert b * c == c * b && d * c == c * d;
  }

  /** Comparing a quotient with q is comparing the dividend with q times the divisor. */
  lemma QuotientCompare(n: nat, d: nat, q: nat)
    requires d > 0
    ensures n / d >= q <==> n >= q * d
    ensures n / d >= 0
  {
    var m := n / d;
    assert n == m * d + n % d;
    if m >= q { MulMono(q, m, d); } else { MulLess(m, q, d); }
  }

  // ---------------------------------------------------------------- blocks

  /** Number of blocks of size B needed for p elements; times B, it is p aligned to the next block. */
  function Blocks(p: nat, B: nat): (q: nat)
    requires B > 0
    ensures (q * B) - B < p <= q * B
  {
    var q := (p + B - 1) / B;
    assert (p + B - 1) == q * B + (p + B - 1) % B;
    q
  }

  lemma MulMono(a: int, b: int, B: nat)
    requires a <= b
    ensures a * B <= b * B
  {
    assert (b - a) * B >= 0;
  }

  lemma MulLess(a: int, b: int, B: nat)
    requires a < b
    ensures a * B + B <= b * B
  {
    MulMono(a + 1, b, B);
  }

  lemma BlocksUnique(p: nat, q: nat, B: nat)
    requires B > 0 && (q * B) - B < p <= q * B
    ensures Blocks(p, B) == q
  {
    var r := Blocks(p, B);
    if r < q { MulLess(r, q, B); }
    if q < r { MulLess(q, r, B); }
  }

  lemma BlocksMono(p: nat, r: nat, B: nat)
    requires B > 0 && p <= r
    ensures Blocks(p, B) <= Blocks(r, B)
  {
    if Blocks(r, B) < Blocks(p, B) { MulLess(Blocks(r, B), Blocks(p, B), B); }
  }
}
