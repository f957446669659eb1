/** Facts about products, quotients and powers of two that several chips need. */
module Arith {

  function Min(x: int, y: int): int {
    if x < y then x else y
  }

  function Max(x: int, y: int): int {
    if x < y then y else x
  }

  function Abs(x: int): nat {
    if x < 0 then -x else x
  }

  lemma Multiple(d: int, u: int)
    requires u > 0
    ensures d >= 2 ==> d * u >= 2 * u
    ensures d == 1 ==> d * u == u
    ensures d == 0 ==> d * u == 0
    ensures d <= -1 ==> d * u <= -u
  {
    if d >= 2 {
      assert (d - 2) * u >= 0;
    } else if d <= -1 {
      assert (-1 - d) * u >= 0;
    }
  }

  lemma DivModIs(y: int, u: int, q: int, t: int)
    requires u > 0 && 0 <= t < u && y == q * u + t
    ensures y / u == q && y % u == t
  {
    var d := y / u - q;
    assert d * u == t - y % u;
    Multiple(d, u);
  }

  lemma DivMod(y: int, u: int)
    requires u > 0
    ensures y == y / u * u + y % u && 0 <= y % u < u
    ensures y >= 0 ==> y / u >= 0
  {
  }

  lemma HalfOfQuotient(a: int, p: int)
    requires p > 0
    ensures a / p / 2 == a / (2 * p)
  {
    var q, t := a / p, a % p;
    var h, b := q / 2, q % 2;
    assert q * p == h * (2 * p) + b * p by {
      assert (2 * h + b) * p == 2 * (h * p) + b * p;
      assert h * (2 * p) == 2 * (h * p);
    }
    Multiple(b, p);
    DivModIs(a, 2 * p, h, b * p + t);
  }

  lemma AddMod(x: int, d: int, u: int)
    requires u > 0
    ensures (x % u + d) % u == (x + d) % u
  {
    var q, q' := x / u, (x + d) / u;
    assert x % u + d == (q' - q) * u + (x + d) % u by {
      assert (q' - q) * u == q' * u - q * u;
    }
    DivModIs(x % u + d, u, q' - q, (x + d) % u);
  }

  lemma ProductBound(x: int, y: int, m: int, n: int)
    requires 0 <= x <= m && 0 <= y <= n
    ensures 0 <= x * y <= m * n
  {
    assert 0 <= x * (n - y) && 0 <= (m - x) * n;
  }

  lemma Distribute(x: int, u: int)
    ensures (x + 1) * u == x * u + u
  {
  }

  lemma MulAssoc(a: int, b: int, c: int)
    ensures (a * b) * c == a * (b * c)
  {
  }

  function Pow2(n: nat): (r: int)
    ensures r > 0
  {
    if n == 0 then 1 else 2 * Pow2(n - 1)
  }

  lemma {:induction false} Pow2Add(m: nat, n: nat)
    ensures Pow2(m + n) == Pow2(m) * Pow2(n)
  {
    if m > 0 {
      Pow2Add(m - 1, n);
      MulAssoc(2, Pow2(m - 1), Pow2(n));
    }
  }

  lemma {:induction false} Pow2Monotone(m: nat, n: nat)
    requires m <= n
    ensures Pow2(m) <= Pow2(n)
  {
    if m < n {
      Pow2Monotone(m, n - 1);
    }
  }

  lemma Pow2At15()
    ensures Pow2(15) == 0x8000
  {
    assert Pow2(5) == 32;
    Pow2Add(5, 5);
    Pow2Add(10, 5);
  }

  lemma Pow2At24()
    ensures Pow2(24) == 0x100_0000
  {
    assert Pow2(8) == 256;
    Pow2Add(8, 8);
    Pow2Add(16, 8);
  }
}
