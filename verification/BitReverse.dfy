/** Bit reversal and reverse-carry addition, the arithmetic behind the DSP56001 bit-reversed address mode. */
module BitReverse {
  import opened Arith

  /** The low k bits of x in reverse order. */
  ghost function Rev(k: nat, x: int): int
    requires x >= 0
  {
    if k == 0 then 0 else x % 2 * Pow2(k - 1) + Rev(k - 1, x / 2)
  }

  lemma {:induction false} RevRange(k: nat, x: int)
    requires x >= 0
    ensures 0 <= Rev(k, x) < Pow2(k)
  {
    if k > 0 {
      RevRange(k - 1, x / 2);
      Multiple(x % 2, Pow2(k - 1));
    }
  }

  lemma HalfOfConcat(hi: int, p: int, lo: int)
    ensures (hi * (2 * p) + lo) / 2 == hi * p + lo / 2 && (hi * (2 * p) + lo) % 2 == lo % 2
  {
    var hp := hi * p;
    assert hi * (2 * p) == 2 * hp;
    DivModIs(2 * hp + lo, 2, hp + lo / 2, lo % 2);
  }

  lemma Factor(b: int, p: int, r: int, q: int)
    ensures (b * p + r) * q == b * (p * q) + r * q
  {
    MulAssoc(b, p, q);
  }

  /** Reversing the concatenation of a low field of k bits and a high field of m bits swaps the fields. */
  lemma {:induction false} RevConcat(k: nat, m: nat, lo: int, hi: int)
    requires 0 <= lo < Pow2(k) && hi >= 0
    ensures hi * Pow2(k) + lo >= 0
    ensures Rev(k + m, hi * Pow2(k) + lo) == Rev(k, lo) * Pow2(m) + Rev(m, hi)
    decreases k
  {
    ProductBound(hi, Pow2(k), hi, Pow2(k));
    if k == 0 {
      assert hi * Pow2(0) == hi;
    } else {
      HalfOfConcat(hi, Pow2(k - 1), lo);
      RevConcat(k - 1, m, lo / 2, hi);
      Pow2Add(k - 1, m);
      Factor(lo % 2, Pow2(k - 1), Rev(k - 1, lo / 2), Pow2(m));
    }
  }

  lemma LowBitsOfHalf(x: int, p: int)
    requires p > 0
    ensures x % (2 * p) == x / 2 % p * 2 + x % 2
  {
    var h := x / 2;
    var q, t := h / p, h % p;
    assert q * (2 * p) == 2 * (q * p);
    DivModIs(x, 2 * p, q, t * 2 + x % 2);
  }

  /** Reversing twice gives the low k bits back. */
  lemma {:induction false} RevTwice(k: nat, x: int)
    requires x >= 0
    ensures Rev(k, x) >= 0 && Rev(k, Rev(k, x)) == x % Pow2(k)
  {
    RevRange(k, x);
    if k > 0 {
      var h, b := x / 2, x % 2;
      RevRange(k - 1, h);
      RevConcat(k - 1, 1, Rev(k - 1, h), b);
      RevTwice(k - 1, h);
      LowBitsOfHalf(x, Pow2(k - 1));
      assert Pow2(0) == 1 && Rev(0, b / 2) == 0 && Rev(1, b) == b;
      assert Pow2(1) == 2;
    }
  }

  /** Rev is a bijection on k-bit numbers. */
  lemma RevInjective(k: nat, x: int, y: int)
    requires 0 <= x < Pow2(k) && 0 <= y < Pow2(k) && Rev(k, x) == Rev(k, y)
    ensures x == y
  {
    RevTwice(k, x);
    RevTwice(k, y);
    DivModIs(x, Pow2(k), 0, x);
    DivModIs(y, Pow2(k), 0, y);
  }

  /** The same for a number given as a whole. */
  lemma RevSplit(k: nat, m: nat, r: int)
    requires r >= 0
    ensures r / Pow2(k) >= 0 && Rev(k + m, r) == Rev(k, r % Pow2(k)) * Pow2(m) + Rev(m, r / Pow2(k))
  {
    var hi, lo := r / Pow2(k), r % Pow2(k);
    DivMod(r, Pow2(k));
    RevConcat(k, m, lo, hi);
  }

  /** Rev only sees the low k bits. */
  lemma RevOfLowBits(k: nat, r: int)
    requires r >= 0
    ensures Rev(k, r) == Rev(k, r % Pow2(k))
  {
    RevSplit(k, 0, r);
    assert Pow2(0) == 1;
  }

  lemma {:induction false} RevZero(k: nat)
    ensures Rev(k, 0) == 0
  {
    if k > 0 {
      RevZero(k - 1);
    }
  }

  lemma RevOne(m: nat)
    ensures Rev(m + 1, 1) == Pow2(m)
  {
    RevZero(m);
  }

  /** A single bit is moved to its mirror position. */
  lemma RevOfPow2(k: nat, m: nat, w: nat)
    requires w == k + (m + 1)
    ensures Rev(w, Pow2(k)) == Pow2(m)
  {
    RevConcat(k, m + 1, 0, 1);
    RevZero(k);
    RevOne(m);
  }

  // ---------------------------------------------------------------- the address update

  /** Addition of w-bit numbers with the carry running from the top bit down. */
  ghost function ReverseCarryAdd(w: nat, r: int, n: int): int
    requires r >= 0 && n >= 0
  {
    RevRange(w, r);
    RevRange(w, n);
    Rev(w, (Rev(w, r) + Rev(w, n)) % Pow2(w))
  }

  /** The update of Rn on k bits: reverse them, add one, reverse them back; the bits above stay. */
  ghost function BitReversed(r: int, k: nat): int
    requires r >= 0
  {
    RevRange(k, r);
    r - r % Pow2(k) + Rev(k, (Rev(k, r) + 1) % Pow2(k))
  }

  /** Adding one to the high field of a number below p * q, dropping the carry out. */
  lemma AddToHighField(y: int, z: int, p: int, q: int)
    requires p > 0 && 0 <= y && 0 <= z < q
    ensures (y * q + z + q) % (p * q) == (y + 1) % p * q + z
  {
    var c, w := (y + 1) / p, (y + 1) % p;
    Factor(c, p, w, q);
    ProductBound(w + 1, q, p, q);
    ProductBound(w, q, w, q);
    Distribute(w, q);
    Distribute(y, q);
    DivModIs(y * q + z + q, p * q, c, w * q + z);
  }

  lemma HighFieldRange(r: int, p: int, q: int)
    requires p > 0 && q > 0 && 0 <= r < p * q
    ensures 0 <= r / p < q
  {
    var hi := r / p;
    if hi >= q {
      ProductBound(p, q, p, hi);
    }
  }

  /** For Nn = 2^(k-1) the emulated update is reverse-carry addition. */
  lemma BitReversedIsReverseCarry(r: int, k: nat, m: nat)
    requires 0 <= r < Pow2(k + m) && 1 <= k
    ensures BitReversed(r, k) == ReverseCarryAdd(k + m, r, Pow2(k - 1))
  {
    var p, q := Pow2(k), Pow2(m);
    var hi, lo := r / p, r % p;
    Pow2Add(k, m);
    HighFieldRange(r, p, q);
    RevRange(k, lo);
    RevRange(m, hi);
    var x, z := Rev(k, lo), Rev(m, hi);
    var y := (x + 1) % p;
    assert Rev(k + m, r) == x * q + z by { RevSplit(k, m, r); }
    assert Rev(k + m, Pow2(k - 1)) == q by { RevOfPow2(k - 1, m, k + m); }
    assert (x * q + z + q) % Pow2(k + m) == y * q + z by { AddToHighField(x, z, p, q); }
    assert Rev(k + m, y * q + z) == Rev(m, z) * p + Rev(k, y) by {
      RevConcat(m, k, z, y);
      assert m + k == k + m;
    }
    assert Rev(m, z) == hi by {
      RevTwice(m, hi);
      DivModIs(hi, q, 0, hi);
    }
    assert Rev(k, r) == x by { RevOfLowBits(k, r); }
    DivMod(r, p);
  }

  // ---------------------------------------------------------------- exactly when the update is right

  /** The position of the lowest set bit of n among its low bits, or how many were looked at. */
  ghost function TrailingZeros(n: int, bits: nat): nat
    requires n >= 0
  {
    if bits == 0 || n % 2 == 1 then 0 else 1 + TrailingZeros(n / 2, bits - 1)
  }

  lemma {:induction false} TrailingZerosOf(n: int, bits: nat)
    requires n >= 0
    ensures TrailingZeros(n, bits) <= bits
    ensures 0 < n < Pow2(bits) ==> TrailingZeros(n, bits) < bits
    ensures n == 0 ==> TrailingZeros(n, bits) == bits
  {
    if bits > 0 && n % 2 == 0 {
      TrailingZerosOf(n / 2, bits - 1);
    }
  }

  lemma {:induction false} ZerosOfPow2(k: nat, bits: nat)
    requires k < bits
    ensures TrailingZeros(Pow2(k), bits) == k
    decreases k
  {
    if k > 0 {
      DivModIs(Pow2(k), 2, Pow2(k - 1), 0);
      ZerosOfPow2(k - 1, bits - 1);
    }
  }

  lemma SumsDiffer(x: int, y: int, z: int, p: int)
    requires 0 <= y < p && 0 <= z < p && (x + y) % p == (x + z) % p
    ensures y == z
  {
    DivMod(x + y, p);
    DivMod(x + z, p);
    var d := (x + y) / p - (x + z) / p;
    assert d * p == (x + y) / p * p - (x + z) / p * p;
    Multiple(d, p);
  }

  /** Reverse-carry addition from the same register tells different Nn apart. */
  lemma ReverseCarryInjective(w: nat, r: int, n: int, n': int)
    requires r >= 0 && 0 <= n < Pow2(w) && 0 <= n' < Pow2(w)
    requires ReverseCarryAdd(w, r, n) == ReverseCarryAdd(w, r, n')
    ensures n == n'
  {
    RevRange(w, r);
    RevRange(w, n);
    RevRange(w, n');
    var x, x' := (Rev(w, r) + Rev(w, n)) % Pow2(w), (Rev(w, r) + Rev(w, n')) % Pow2(w);
    RevInjective(w, x, x');
    SumsDiffer(Rev(w, r), Rev(w, n), Rev(w, n'), Pow2(w));
    RevInjective(w, n, n');
  }

  /** The update always moves the register. */
  lemma BitReversedMoves(r: int, k: nat)
    requires r >= 0 && k >= 1
    ensures BitReversed(r, k) != r
  {
    var p, x := Pow2(k), Rev(k, r);
    RevRange(k, r);
    var y := (x + 1) % p;
    if BitReversed(r, k) == r {
      RevTwice(k, y);
      DivModIs(y, p, 0, y);
      RevOfLowBits(k, r);
      assert y == x;
      SumsDiffer(x, 1, 0, p);
      assert false;
    }
  }

  lemma AddingZero(w: nat, r: int)
    requires 0 <= r < Pow2(w)
    ensures ReverseCarryAdd(w, r, 0) == r
  {
    RevZero(w);
    RevRange(w, r);
    DivModIs(Rev(w, r), Pow2(w), 0, Rev(w, r));
    RevTwice(w, r);
    DivModIs(r, Pow2(w), 0, r);
  }

  /**
   * The emulated update looks only at the lowest set bit of Nn.  It is reverse-carry addition of Nn exactly
   * when Nn is a power of two.
   */
  lemma BitReverseExact(r: int, n: int)
    requires 0 <= r < Pow2(16) && 0 <= n < Pow2(16)
    ensures BitReversed(r, TrailingZeros(n, 16) + 1) == ReverseCarryAdd(16, r, n) <==> exists j: nat :: n == Pow2(j)
  {
    var j := TrailingZeros(n, 16);
    TrailingZerosOf(n, 16);
    if n == 0 {
      AddingZero(16, r);
      BitReversedMoves(r, 17);
    } else {
      forall k: nat | n == Pow2(k) ensures k == j {
        if k < 16 {
          ZerosOfPow2(k, 16);
        } else {
          Pow2Monotone(16, k);
        }
      }
      BitReversedIsReverseCarry(r, j + 1, 15 - j);
      Pow2Monotone(j + 1, 16);
      if BitReversed(r, j + 1) == ReverseCarryAdd(16, r, n) {
        ReverseCarryInjective(16, r, n, Pow2(j));
      }
    }
  }

  /** With Nn = 3 the register 0 goes to 1, not to the reversed sum. */
  lemma SecondBitIsIgnored()
    ensures BitReversed(0, TrailingZeros(3, 16) + 1) != ReverseCarryAdd(16, 0, 3)
  {
    BitReverseExact(0, 3);
    forall j: nat ensures Pow2(j) != 3 {
      if j >= 2 {
        Pow2Monotone(2, j);
      }
    }
  }

  // ---------------------------------------------------------------- whole runs

  ghost function BitReversedRun(r: int, k: nat, j: nat): int
    requires r >= 0
    ensures BitReversedRun(r, k, j) >= 0
  {
    if j == 0 then r else
      var x := BitReversedRun(r, k, j - 1);
      RevRange(k, x);
      DivMod(x, Pow2(k));
      RevRange(k, (Rev(k, x) + 1) % Pow2(k));
      ProductBound(x / Pow2(k), Pow2(k), x / Pow2(k), Pow2(k));
      BitReversed(x, k)
  }

  lemma LowField(x: int, hi: int, z: int, y: int, k: nat)
    requires 0 <= y < Pow2(k) && x >= 0 && x == hi * Pow2(k) + z && z == Rev(k, y)
    ensures x % Pow2(k) == z && Rev(k, x) == y
  {
    RevRange(k, y);
    DivModIs(x, Pow2(k), hi, z);
    RevOfLowBits(k, x);
    RevTwice(k, y);
    DivModIs(y, Pow2(k), 0, y);
  }

  /** An update of a register whose low field is the reverse of y makes it the reverse of y + 1. */
  lemma OneUpdate(x: int, hi: int, y: int, k: nat)
    requires 0 <= y < Pow2(k) && x >= 0 && x == hi * Pow2(k) + Rev(k, y)
    ensures BitReversed(x, k) == x - Rev(k, y) + Rev(k, (y + 1) % Pow2(k))
  {
    LowField(x, hi, Rev(k, y), y, k);
  }

  /** Step j of a run: the bits above k never change, the low bits count up in reverse order. */
  lemma {:induction false} RunAt(r: int, k: nat, j: nat)
    requires r >= 0
    ensures Rev(k, r) >= 0
    ensures BitReversedRun(r, k, j) == r / Pow2(k) * Pow2(k) + Rev(k, (Rev(k, r) + j) % Pow2(k))
  {
    var p, x0 := Pow2(k), Rev(k, r);
    RevRange(k, r);
    if j == 0 {
      DivModIs(x0, p, 0, x0);
      RevTwice(k, r);
      DivMod(r, p);
    } else {
      RunAt(r, k, j - 1);
      DivMod(r, p);
      OneUpdate(BitReversedRun(r, k, j - 1), r / p, (x0 + (j - 1)) % p, k);
      AddMod(x0 + (j - 1), 1, p);
    }
  }

  /**
   * From the base of a block of 2^k addresses, 2^k updates visit every address of the block exactly once:
   * step j is at base + Rev(k, j), and the address at offset o is reached at step Rev(k, o).
   */
  lemma BlockVisitedOnce(base: int, k: nat, j: nat, o: int)
    requires base >= 0 && base % Pow2(k) == 0 && j < Pow2(k) && 0 <= o < Pow2(k)
    ensures BitReversedRun(base, k, j) == base + Rev(k, j)
    ensures BitReversedRun(base, k, j) == base + o <==> j == Rev(k, o)
  {
    RunAt(base, k, j);
    RevOfLowBits(k, base);
    RevZero(k);
    DivMod(base, Pow2(k));
    DivModIs(j, Pow2(k), 0, j);
    RevTwice(k, o);
    DivModIs(o, Pow2(k), 0, o);
    RevRange(k, o);
    if Rev(k, j) == o {
      RevInjective(k, j, Rev(k, o));
    }
  }
}
