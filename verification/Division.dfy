/**
 * Runs of the DSP56001 DIV instruction.  One DIV produces one quotient bit by a non-restoring step;
 * repeated DIV is integer division.
 */
module Division {
  import opened Arith
  import opened Accumulator

  /** One DIV: shift left, add or subtract the divisor by the signs, and put the old carry into bit 0. */
  ghost function DivStep(a: int, s: int, c: bool): int {
    Wrap(if (a < 0) != (s < 0) then 2 * a + s * W24 else 2 * a - s * W24) + (if c then 1 else 0)
  }

  /** Accumulator and carry; the carry is the complement of the sign of the last result. */
  datatype DivState = DivState(a: int, c: bool)

  ghost function DivRun(d: int, s: int, n: nat): DivState {
    if n == 0 then DivState(d, false)
    else
      var p := DivRun(d, s, n - 1);
      var a := DivStep(p.a, s, p.c);
      DivState(a, a >= 0)
  }

  /** What the n quotient bits of a negative dividend stand above its quotient. */
  ghost function Bias(d: int, n: nat): int
    requires n >= 1
  {
    if d < 0 then Pow2(n - 1) else 0
  }

  /**
   * After n steps the accumulator is a partial remainder, a multiple of 2^n, plus n quotient bits.
   * The quotient and the remainder satisfy the non-restoring division equation.
   */
  ghost predicate Divided(d: int, s: int, n: nat, st: DivState, rest: int, q: int)
    requires n >= 1
  {
    var m := s * W24;
    && st.a == rest + q && st.c == (rest >= 0)
    && 0 <= q < Pow2(n)
    && -m <= rest < m
    && rest % Pow2(n) == 0
    && Pow2(n) * d == m * (2 * (q - Bias(d, n)) + 1) + rest
  }

  /** A negative multiple of 2^n stays negative when fewer than 2^n units are added. */
  lemma SignOfSum(rest: int, q: int, p: int)
    requires p > 0 && rest % p == 0 && 0 <= q < p
    ensures rest < 0 <==> rest + q < 0
  {
    var k := rest / p;
    assert rest == k * p;
    Multiple(k, p);
  }

  lemma EvenMultiple(rest: int, m: int, p: int)
    requires p > 0 && rest % p == 0 && m % (2 * p) == 0
    ensures (2 * rest - m) % (2 * p) == 0 && (2 * rest + m) % (2 * p) == 0
  {
    var k, j := rest / p, m / (2 * p);
    assert rest == k * p && m == j * (2 * p);
    assert 2 * rest - m == (k - j) * (2 * p) + 0 by { assert (k - j) * (2 * p) == 2 * (k * p) - j * (2 * p); }
    assert 2 * rest + m == (k + j) * (2 * p) + 0 by { assert (k + j) * (2 * p) == 2 * (k * p) + j * (2 * p); }
    DivModIs(2 * rest - m, 2 * p, k - j, 0);
    DivModIs(2 * rest + m, 2 * p, k + j, 0);
  }

  lemma Regroup(s: int, p: int, k: int)
    ensures s * (p * k) == (s * k) * p
  {
  }

  /** The divisor stands 24 bits up, so up to 24 shifts keep it a multiple of the shifted unit. */
  lemma DivisorMultiple(s: int, n: nat)
    requires n <= 24
    ensures (s * W24) % Pow2(n) == 0
  {
    var p, k := Pow2(n), Pow2(24 - n);
    Pow2Add(n, 24 - n);
    Pow2At24();
    Regroup(s, p, k);
    DivModIs(s * W24, p, s * k, 0);
  }

  /** The division equation, doubled. */
  lemma EquationStep(d: int, m: int, p: int, rest: int, q: int)
    requires p * d == m * (2 * q + 1) + rest
    ensures (2 * p) * d == m * (2 * (2 * q + 1) + 1) + (2 * rest - m)
    ensures (2 * p) * d == m * (2 * (2 * q) + 1) + (2 * rest + m)
  {
    var mq := m * q;
    assert m * (2 * q + 1) == 2 * mq + m;
    assert m * (2 * (2 * q + 1) + 1) == 4 * mq + 3 * m;
    assert m * (2 * (2 * q) + 1) == 4 * mq + m;
    assert (2 * p) * d == 2 * (p * d);
  }

  /** The next value of the accumulator, as remainder and quotient bits; nothing wraps. */
  lemma StepValue(s: int, st: DivState, rest: int, q: int)
    requires 0 < s <= W23 && st.a == rest + q && st.c == (rest >= 0)
    requires 0 <= q < W24 && -(s * W24) <= rest < s * W24
    requires rest < 0 <==> st.a < 0
    ensures DivStep(st.a, s, st.c) ==
            if rest >= 0 then (2 * rest - s * W24) + (2 * q + 1) else (2 * rest + s * W24) + 2 * q
  {
  }

  /** One more step of a division in progress. */
  lemma DividedStep(d: int, s: int, n: nat, st: DivState, rest: int, q: int) returns (rest': int, q': int)
    requires 0 < s <= W23 && 1 <= n < 24 && Divided(d, s, n, st, rest, q)
    ensures var a := DivStep(st.a, s, st.c); Divided(d, s, n + 1, DivState(a, a >= 0), rest', q')
  {
    var m, p := s * W24, Pow2(n);
    Pow2Monotone(n, 24);
    Pow2At24();
    SignOfSum(rest, q, p);
    StepValue(s, st, rest, q);
    DivisorMultiple(s, n + 1);
    EvenMultiple(rest, m, p);
    EquationStep(d, m, p, rest, q - Bias(d, n));
    if rest >= 0 {
      rest', q' := 2 * rest - m, 2 * q + 1;
    } else {
      rest', q' := 2 * rest + m, 2 * q;
    }
    SignOfSum(rest', q', 2 * p);
  }

  lemma FirstStep(d: int, s: int) returns (rest: int, q: int)
    requires 0 < s <= W23 && -(s * W24) <= d < s * W24
    ensures Divided(d, s, 1, DivRun(d, s, 1), rest, q)
  {
    rest, q := if d < 0 then 2 * d + s * W24 else 2 * d - s * W24, 0;
    assert DivRun(d, s, 0) == DivState(d, false);
    assert Pow2(0) == 1 && Pow2(1) == 2;
  }

  lemma {:induction false} DividedRun(d: int, s: int, n: nat) returns (rest: int, q: int)
    requires 0 < s <= W23 && -(s * W24) <= d < s * W24 && 1 <= n <= 24
    ensures Divided(d, s, n, DivRun(d, s, n), rest, q)
  {
    if n == 1 {
      rest, q := FirstStep(d, s);
    } else {
      rest, q := DividedRun(d, s, n - 1);
      rest, q := DividedStep(d, s, n - 1, DivRun(d, s, n - 1), rest, q);
    }
  }

  /** The sign of the divisor does not matter. */
  lemma {:induction false} DivRunOfMagnitude(d: int, s: int, n: nat)
    requires s != 0
    ensures DivRun(d, s, n) == DivRun(d, -s, n)
  {
    if n > 0 {
      DivRunOfMagnitude(d, s, n - 1);
      var p := DivRun(d, s, n - 1);
      assert DivStep(p.a, s, p.c) == DivStep(p.a, -s, p.c);
    }
  }

  lemma LowBits(rest: int, q: int, p: int)
    requires p > 0 && rest % p == 0 && 0 <= q < p
    ensures (rest + q) % p == q
  {
    DivModIs(rest + q, p, rest / p, q);
  }

  /** The equation and the range of the remainder leave one quotient. */
  lemma QuotientOf(d: int, m: int, h: int, rest: int, q: int)
    requires m > 0 && (2 * h) * d == m * (2 * q + 1) + rest && -m <= rest < m
    ensures h * d / m == q && 2 * (h * d % m) == rest + m
  {
    var r := h * d - q * m;
    assert 2 * r == rest + m by {
      assert m * (2 * q + 1) == 2 * (q * m) + m;
      assert (2 * h) * d == 2 * (h * d);
    }
    DivModIs(h * d, m, q, r);
  }

  /**
   * The low n bits are the quotient floor(2^(n-1) d / m), with 2^(n-1) added for a negative dividend; what is above
   * them is the partial remainder, from which the true remainder follows; the carry is the complement of its sign.
   */
  ghost predicate IsDivision(d: int, m: int, n: nat, st: DivState)
    requires m > 0 && n >= 1
  {
    var bits := st.a % Pow2(n);
    var q, rest := bits - Bias(d, n), st.a - bits;
    && q == Pow2(n - 1) * d / m
    && rest == 2 * (Pow2(n - 1) * d % m) - m
    && Pow2(n) * d == m * (2 * q + 1) + rest
    && -m <= rest < m
    && st.c == (rest >= 0)
  }

  lemma DividesByMagnitude(d: int, s: int, n: nat)
    requires 0 < s <= W23 && -(s * W24) <= d < s * W24 && 1 <= n <= 24
    ensures IsDivision(d, s * W24, n, DivRun(d, s, n))
  {
    var rest, q := DividedRun(d, s, n);
    LowBits(rest, q, Pow2(n));
    QuotientOf(d, s * W24, Pow2(n - 1), rest, q - Bias(d, n));
  }

  /** n DIV instructions divide any dividend -m <= d < m by any divisor of 24 bits, m its magnitude 24 bits up. */
  lemma RepeatedDivDivides(d: int, s: int, n: nat)
    requires -W23 <= s < W23 && s != 0 && -(Abs(s) * W24) <= d < Abs(s) * W24 && 1 <= n <= 24
    ensures IsDivision(d, Abs(s) * W24, n, DivRun(d, s, n))
  {
    DividesByMagnitude(d, Abs(s), n);
    DivRunOfMagnitude(d, s, n);
  }
}
