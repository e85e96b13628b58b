/** Machine words: `size_t` and `uintptr_t` as naturals below 2^64, with wrap-around written out,
    and the bitwise operators defined digit by digit. */
module Words {

  const WORD: nat := 0x1_0000_0000_0000_0000

  type Word = x: nat | x < WORD

  /** `x + y`, wrapping around once past the last word. */
  function Add(x: Word, y: Word): Word { if x + y < WORD then x + y else x + y - WORD }

  /** `x - y`, borrowing from 2^64. */
  function Sub(x: Word, y: Word): Word { if y <= x then x - y else x + WORD - y }

  /** `~x` */
  function Not(x: Word): Word { WORD - 1 - x }

  /** `x & y`, one binary digit at a time. */
  function And(x: nat, y: nat): (r: nat)
    ensures r <= x && r <= y
  {
    if x == 0 || y == 0 then 0
    else 2 * And(x / 2, y / 2) + (if x % 2 == 1 && y % 2 == 1 then 1 else 0)
  }

  /** The sum and the difference are the machine's: exact modulo 2^64. */
  lemma WrapsAround(x: Word, y: Word)
    ensures Add(x, y) == (x + y) % 0x1_0000_0000_0000_0000
    ensures Sub(x, y) == (x - y) % 0x1_0000_0000_0000_0000
  {
  }

  /** The i-th binary digit. */
  predicate Bit(x: nat, i: nat) { if i == 0 then x % 2 == 1 else Bit(x / 2, i - 1) }

  /** And is the bitwise one. */
  lemma {:induction false} AndBits(x: nat, y: nat, i: nat)
    ensures Bit(And(x, y), i) <==> Bit(x, i) && Bit(y, i)
    decreases i
  {
    AndHalves(x, y);
    if i > 0 {
      AndBits(x / 2, y / 2, i - 1);
    }
  }

  lemma AndHalves(x: nat, y: nat)
    ensures And(x, y) / 2 == And(x / 2, y / 2)
    ensures And(x, y) % 2 == if x % 2 == 1 && y % 2 == 1 then 1 else 0
  {
  }

  function Pow2(k: nat): (p: nat)
    ensures p >= 1
  {
    if k == 0 then 1 else 2 * Pow2(k - 1)
  }

  /** k times 16, by repeated addition, so that reasoning about alignment needs no multiplication. */
  function Sixteens(k: nat): nat { if k == 0 then 0 else 16 + Sixteens(k - 1) }

  lemma {:induction false} SixteensIs(k: nat)
    ensures Sixteens(k) == 16 * k
  {
    if k > 0 {
      SixteensIs(k - 1);
    }
  }

  /** A multiple of 16. */
  ghost predicate Aligned(a: nat) {
    exists k: nat :: a == Sixteens(k)
  }

  lemma AlignedIsMod(a: nat)
    ensures Aligned(a) <==> a % 16 == 0
  {
    SixteensIs(a / 16);
    if k: nat :| a == Sixteens(k) {
      SixteensIs(k);
    }
  }

  lemma AlignedConstants()
    ensures Aligned(0) && Aligned(16)
  {
    AlignedIsMod(0);
    AlignedIsMod(16);
  }

  lemma AlignedSum(a: nat, b: nat)
    requires Aligned(a) && Aligned(b)
    ensures Aligned(a + b)
  {
    AlignedIsMod(a);
    AlignedIsMod(b);
    AlignedIsMod(a + b);
  }

  lemma AlignedDifference(a: nat, b: nat)
    requires Aligned(a) && Aligned(b) && a <= b
    ensures Aligned(b - a)
    ensures a < b ==> a + 16 <= b
  {
    AlignedIsMod(a);
    AlignedIsMod(b);
    AlignedIsMod(b - a);
  }

  /** The least multiple of 16 that is at least x. */
  function RoundUp(x: nat): (r: nat)
    ensures x <= r < x + 16 && Aligned(r)
  {
    SixteensIs((x + 15) / 16);
    (x + 15) / 16 * 16
  }

  lemma MulAtLeast(n: int, d: int)
    requires d > 0
    ensures n >= 1 ==> n * d >= d
    ensures n <= -1 ==> n * d <= -d
  {
  }

  lemma ModUnique(x: int, d: int, q: int, r: int)
    requires d > 0 && 0 <= r < d && x == q * d + r
    ensures x / d == q && x % d == r
  {
    var n := x / d - q;
    assert n * d == r - x % d by {
      assert x == d * (x / d) + x % d;
    }
    MulAtLeast(n, d);
  }

  /** Halving commutes with reduction modulo an even number. */
  lemma ModDouble(x: nat, p: nat)
    requires p >= 1
    ensures x % (2 * p) == 2 * (x / 2 % p) + x % 2
  {
    var h := x / 2;
    var q, r := h / p, h % p;
    assert h == p * q + r;
    assert x == 2 * (p * q + r) + x % 2;
    assert x == q * (2 * p) + (2 * r + x % 2) by {
      assert 2 * (p * q) == q * (2 * p);
    }
    ModUnique(x, 2 * p, q, 2 * r + x % 2);
  }

  lemma {:induction false} Pow2Monotone(j: nat, k: nat)
    requires j <= k
    ensures Pow2(j) <= Pow2(k)
    ensures Pow2(k) % Pow2(j) == 0
    decreases k
  {
    if j < k {
      Pow2Monotone(j, k - 1);
      var q := Pow2(k - 1) / Pow2(j);
      assert Pow2(k - 1) == Pow2(j) * q;
      assert Pow2(k) == (2 * q) * Pow2(j) + 0 by {
        assert 2 * (Pow2(j) * q) == (2 * q) * Pow2(j);
      }
      ModUnique(Pow2(k), Pow2(j), 2 * q, 0);
    } else {
      ModUnique(Pow2(k), Pow2(j), 1, 0);
    }
  }

  /** The width of a word, as an exponent that proofs need not unroll. */
  lemma WordWidth() returns (n: nat)
    ensures n >= 64 && Pow2(n) == WORD
  {
    n := 64;
    Pow2Is64();
  }

  lemma Pow2Is64()
    ensures Pow2(64) == WORD
  {
    assert Pow2(8) == 0x100;
    assert Pow2(16) == 0x1_0000;
    assert Pow2(24) == 0x100_0000;
    assert Pow2(32) == 0x1_0000_0000;
    assert Pow2(40) == 0x100_0000_0000;
    assert Pow2(48) == 0x1_0000_0000_0000;
    assert Pow2(56) == 0x100_0000_0000_0000;
  }

  /** The number in the low k bits of x. */
  function Low(x: nat, k: nat): nat {
    if k == 0 then 0 else 2 * Low(x / 2, k - 1) + x % 2
  }

  lemma {:induction false} LowIsMod(x: nat, k: nat)
    ensures Low(x, k) == x % Pow2(k)
  {
    if k == 0 {
      ModUnique(x, 1, x, 0);
    } else {
      LowIsMod(x / 2, k - 1);
      ModDouble(x, Pow2(k - 1));
    }
  }

  lemma {:induction false} MaskLow(x: nat, k: nat)
    ensures And(x, Pow2(k) - 1) == Low(x, k)
  {
    if k > 0 {
      MaskLow(x / 2, k - 1);
      var y := Pow2(k) - 1;
      assert y / 2 == Pow2(k - 1) - 1 && y % 2 == 1;
      if x == 0 {
        assert And(0, Pow2(k - 1) - 1) == 0;
      }
    }
  }

  lemma {:induction false} AllOnes(x: nat, n: nat)
    requires x < Pow2(n)
    ensures And(x, Pow2(n) - 1) == x
  {
    if n > 0 {
      AllOnes(x / 2, n - 1);
      var y := Pow2(n) - 1;
      assert y / 2 == Pow2(n - 1) - 1 && y % 2 == 1;
    }
  }

  lemma EvenAnd(x: nat, y: nat)
    ensures And(x, 2 * y) == 2 * And(x / 2, y)
  {
    assert 2 * y / 2 == y && 2 * y % 2 == 0;
  }

  lemma MaskOneHigher(x: nat, y: nat, z: nat, low: nat)
    requires z == 2 * y && And(x / 2, y) == x / 2 - low
    ensures And(x, z) == x - (2 * low + x % 2)
  {
    EvenAnd(x, y);
  }

  /** n binary digits: ones, and k zeros at the low end. */
  function Mask(k: nat, n: nat): nat
    requires k <= n
  {
    if k == 0 then Pow2(n) - 1 else 2 * Mask(k - 1, n - 1)
  }

  lemma {:induction false} MaskIsDifference(k: nat, n: nat)
    requires k <= n
    ensures Mask(k, n) == Pow2(n) - Pow2(k)
  {
    if k > 0 {
      MaskIsDifference(k - 1, n - 1);
    }
  }

  lemma {:induction false} MaskHigh(x: nat, k: nat, n: nat)
    requires k <= n && x < Pow2(n)
    ensures And(x, Mask(k, n)) == x - Low(x, k)
    decreases k
  {
    if k == 0 {
      AllOnes(x, n);
    } else {
      MaskHigh(x / 2, k - 1, n - 1);
      MaskOneHigher(x, Mask(k - 1, n - 1), Mask(k, n), Low(x / 2, k - 1));
    }
  }

  /** Masking with 2^k - 1 keeps the remainder. */
  lemma AndLowMask(x: nat, k: nat)
    ensures And(x, Pow2(k) - 1) == x % Pow2(k)
  {
    MaskLow(x, k);
    LowIsMod(x, k);
  }

  /** Masking with the complement of 2^k - 1 inside n bits removes the remainder. */
  lemma AndHighMask(x: nat, k: nat, n: nat)
    requires k <= n && x < Pow2(n)
    ensures Pow2(k) <= Pow2(n) && And(x, Pow2(n) - Pow2(k)) == x - x % Pow2(k)
  {
    Pow2Monotone(k, n);
    MaskHigh(x, k, n);
    MaskIsDifference(k, n);
    LowIsMod(x, k);
  }
}
