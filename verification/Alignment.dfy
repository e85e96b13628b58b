/** The alignment macros and `is_power_of_2`, on 64-bit words. */
module Alignment {
  import opened Words

  function AlignMask(alignment: Word): Word { Sub(alignment, 1) }

  function AlignDown(size: Word, alignment: Word): Word { And(size, Not(AlignMask(alignment))) }

  function AlignUp(size: Word, alignment: Word): Word { AlignDown(Add(size, AlignMask(alignment)), alignment) }

  predicate IsAligned(size: Word, alignment: Word) { And(size, AlignMask(alignment)) == 0 }

  predicate IsPowerOf2(x: Word) { x != 0 && And(x, x - 1) == 0 }

  ghost predicate GreatestMultipleBelow(r: nat, size: nat, a: nat)
    requires a > 0
  {
    r % a == 0 && r <= size && forall m: nat :: m % a == 0 && m <= size ==> m <= r
  }

  ghost predicate LeastMultipleAbove(r: nat, size: nat, a: nat)
    requires a > 0
  {
    r % a == 0 && size <= r && forall m: nat :: m % a == 0 && size <= m ==> r <= m
  }

  lemma MultiplesApart(m: nat, r: nat, a: nat)
    requires a > 0 && m % a == 0 && r % a == 0 && r < m
    ensures r + a <= m
  {
    var i, j := m / a, r / a;
    assert m == a * i && r == a * j;
    assert i > j;
    assert a * (j + 1) == a * j + a;
  }

  lemma MultipleOf(q: nat, a: nat)
    requires a > 0
    ensures (a * q) % a == 0
  {
    ModUnique(a * q, a, q, 0);
  }

  /** `x - x % a` is the greatest multiple of `a` not above `x`. */
  lemma DropRemainder(x: nat, a: nat)
    requires a > 0
    ensures x % a <= x && GreatestMultipleBelow(x - x % a, x, a)
  {
    var r := x - x % a;
    assert r == a * (x / a);
    MultipleOf(x / a, a);
    forall m: nat | m % a == 0 && m <= x ensures m <= r {
      if m > r {
        MultiplesApart(m, r, a);
      }
    }
  }

  /** Every power-of-two alignment below 2^64: the mask is the remainder's complement. */
  lemma AlignDownIs(size: Word, k: nat)
    requires k < 64
    ensures 1 <= Pow2(k) < WORD
    ensures AlignMask(Pow2(k)) == Pow2(k) - 1
    ensures AlignDown(size, Pow2(k)) == size - size % Pow2(k)
  {
    var n := WordWidth();
    Pow2Monotone(k + 1, n);
    assert Pow2(k + 1) == 2 * Pow2(k);
    assert AlignMask(Pow2(k)) == Pow2(k) - 1;
    AndHighMask(size, k, n);
  }

  /** The masked `align_down` is the greatest multiple that is not above the size. */
  lemma AlignDownGreatest(size: Word, k: nat)
    requires k < 64
    ensures 0 < Pow2(k) < WORD && GreatestMultipleBelow(AlignDown(size, Pow2(k)), size, Pow2(k))
  {
    AlignDownIs(size, k);
    DropRemainder(size, Pow2(k));
  }

  /** The masked `is_aligned` is divisibility. */
  lemma IsAlignedIsDivisibility(size: Word, k: nat)
    requires k < 64
    ensures 0 < Pow2(k) < WORD && (IsAligned(size, Pow2(k)) <==> size % Pow2(k) == 0)
  {
    AlignDownIs(size, k);
    AndLowMask(size, k);
  }

  /** The masked `align_up` is the least multiple not below the size exactly when the size is at most
      2^64 minus the alignment; above that it wraps to 0. */
  lemma AlignUpLeast(size: Word, k: nat)
    requires k < 64
    ensures 0 < Pow2(k) < WORD
    ensures size <= WORD - Pow2(k) <==> LeastMultipleAbove(AlignUp(size, Pow2(k)), size, Pow2(k))
    ensures size > WORD - Pow2(k) ==> AlignUp(size, Pow2(k)) == 0
  {
    var a := Pow2(k);
    AlignDownIs(size, k);
    var bumped := Add(size, a - 1);
    AlignDownIs(bumped, k);
    if size <= WORD - a {
      assert bumped == size + a - 1;
      var r := bumped - bumped % a;
      DropRemainder(bumped, a);
      forall m: nat | m % a == 0 && size <= m ensures r <= m {
        if m < r {
          MultiplesApart(r, m, a);
        }
      }
    } else {
      assert bumped == size + a - 1 - WORD;
      assert bumped < a;
      ModUnique(bumped, a, 0, bumped);
    }
  }

  lemma MultipleOfMultiple(x: nat, b: nat, a: nat)
    requires a > 0 && b > 0 && x % b == 0 && b % a == 0
    ensures x % a == 0
  {
    var q, t := x / b, b / a;
    assert x == b * q && b == a * t;
    assert x == (t * q) * a + 0 by {
      assert (a * t) * q == (t * q) * a;
    }
    ModUnique(x, a, t * q, 0);
  }

  lemma ComposeFitting(size: Word, j: nat, k: nat)
    requires j <= k < 64 && size <= WORD - Pow2(k)
    ensures 0 < Pow2(j) < WORD && 0 < Pow2(k) < WORD
    ensures AlignUp(AlignUp(size, Pow2(j)), Pow2(k)) == AlignUp(size, Pow2(k))
  {
    var a, b := Pow2(j), Pow2(k);
    Pow2Monotone(j, k);
    AlignUpLeast(size, j);
    AlignUpLeast(size, k);
    var inner, outer := AlignUp(size, a), AlignUp(size, b);
    // a multiple of b is a multiple of a, so the a-multiple lies between the size and the b-multiple
    MultipleOfMultiple(outer, b, a);
    assert size <= inner <= outer;
    // and the b-multiple is still a word
    var n := WordWidth();
    Pow2Monotone(k, n);
    MultiplesApart(WORD, outer, b);
    AlignUpLeast(inner, k);
  }

  lemma ComposeWrapping(size: Word, j: nat, k: nat)
    requires j <= k < 64 && size > WORD - Pow2(k)
    ensures 0 < Pow2(j) < WORD && 0 < Pow2(k) < WORD
    ensures AlignUp(AlignUp(size, Pow2(j)), Pow2(k)) == 0 == AlignUp(size, Pow2(k))
  {
    AlignUpLeast(size, j);
    AlignUpLeast(size, k);
    var inner := AlignUp(size, Pow2(j));
    if inner == 0 {
      ZeroAligned(k);
    } else {
      AlignUpLeast(inner, k);
    }
  }

  lemma ZeroAligned(k: nat)
    requires k < 64
    ensures 0 < Pow2(k) < WORD && AlignUp(0, Pow2(k)) == 0
  {
    AlignUpLeast(0, k);
    ModUnique(0, Pow2(k), 0, 0);
  }

  /** Aligning to a power of two and then to a larger one is aligning to the larger one; sizes that wrap to 0
      included. */
  lemma AlignUpCompose(size: Word, j: nat, k: nat)
    requires j <= k < 64
    ensures 0 < Pow2(j) < WORD && 0 < Pow2(k) < WORD
    ensures AlignUp(AlignUp(size, Pow2(j)), Pow2(k)) == AlignUp(size, Pow2(k))
  {
    if size <= WORD - Pow2(k) {
      ComposeFitting(size, j, k);
    } else {
      ComposeWrapping(size, j, k);
    }
  }

  lemma {:induction false} PowerOf2HasNoCommonDigit(k: nat)
    ensures And(Pow2(k), Pow2(k) - 1) == 0
  {
    AndLowMask(Pow2(k), k);
    ModUnique(Pow2(k), Pow2(k), 1, 0);
  }

  /** Halving: an even x and its predecessor have the digits of x/2 and its predecessor above the last digit. */
  lemma {:induction false} NoCommonDigitIsPowerOf2(x: nat) returns (k: nat)
    requires x > 0 && And(x, x - 1) == 0
    ensures x == Pow2(k)
    decreases x
  {
    if x == 1 {
      k := 0;
    } else if x % 2 == 1 {
      // an odd x above 1 shares its leading digits with x - 1
      var h := x / 2;
      assert (x - 1) / 2 == h;
      AndSelf(h);
      assert false;
    } else {
      assert (x - 1) / 2 == x / 2 - 1;
      var j := NoCommonDigitIsPowerOf2(x / 2);
      k := j + 1;
    }
  }

  lemma {:induction false} AndSelf(x: nat)
    ensures And(x, x) == x
  {
    if x > 0 {
      AndSelf(x / 2);
    }
  }

  lemma IsPowerOf2Exact(x: Word)
    ensures IsPowerOf2(x) <==> exists k: nat :: x == Pow2(k)
  {
    if IsPowerOf2(x) {
      var k := NoCommonDigitIsPowerOf2(x);
      assert x == Pow2(k);
    }
    if exists k: nat :: x == Pow2(k) {
      var k: nat :| x == Pow2(k);
      PowerOf2HasNoCommonDigit(k);
    }
  }
}
