/** Facts about products and remainders that the solver does not find on its own. */
module Arith {

  /** The division identity. */
  lemma DivMod(a: int, b: int)
    requires b > 0
    ensures a == (a / b) * b + a % b
  {
  }

  /** How a product compares with its second factor. */
  lemma Sign(q: int, d: int)
    requires d > 0
    ensures q <= 0 ==> q * d <= 0
    ensures q >= 1 ==> q * d >= d
    ensures q <= -1 ==> q * d <= -d
  {
  }

  /** A multiple of `d` strictly between `-d` and `d` is zero. */
  lemma SmallMultiple(q: int, d: nat)
    requires d > 0 && -(d as int) < q * d < d
    ensures q == 0
  {
    Sign(q, d);
  }

  lemma ModUnique(p: int, q: int, r: nat, g: nat)
    requires g > 0 && r < g && p == q * g + r
    ensures p % g == r
  {
    DivMod(p, g);
    assert (p / g - q) * g == r - p % g;
    SmallMultiple(p / g - q, g);
  }

  lemma Spread(a: int, b: int, c: int)
    ensures (a + b) * c == a * c + b * c
  {
  }

  lemma Regroup(a: int, b: int, c: int)
    ensures a * (b * c) == (a * b) * c
  {
  }
}
