// Unsigned machine words as natural numbers: shifts, bitwise operators,
// single-bit tests and population counts.
module Bits {
  const I16_MAX: nat := 0x7FFF
  const I32_MAX: nat := 0x7FFF_FFFF
  const U32_MAX: nat := 0xFFFF_FFFF
  const U64_MAX: nat := 0xFFFF_FFFF_FFFF_FFFF

  type u64 = x: int | 0 <= x <= U64_MAX

  function Shl(x: nat, k: nat): nat
  {
    if k == 0 then x else 2 * Shl(x, k - 1)
  }

  function Shr(x: nat, k: nat): nat
  {
    if k == 0 then x else Shr(x / 2, k - 1)
  }

  // The k low bits of x.
  function Low(x: nat, k: nat): nat
  {
    if k == 0 then 0 else x % 2 + 2 * Low(x / 2, k - 1)
  }

  function Pow2(k: nat): nat
  {
    Shl(1, k)
  }

  // A run of k one bits.
  function Ones(k: nat): nat
  {
    if k == 0 then 0 else 1 + 2 * Ones(k - 1)
  }

  function BitAnd(x: nat, y: nat): nat
  {
    if x == 0 || y == 0 then 0
    else (if x % 2 == 1 && y % 2 == 1 then 1 else 0) + 2 * BitAnd(x / 2, y / 2)
  }

  function BitOr(x: nat, y: nat): nat
    decreases x + y
  {
    if x == 0 && y == 0 then 0
    else (if x % 2 == 1 || y % 2 == 1 then 1 else 0) + 2 * BitOr(x / 2, y / 2)
  }

  // The bit of weight 2^i.
  predicate Bit(m: nat, i: nat)
  {
    if i == 0 then m % 2 == 1 else Bit(m / 2, i - 1)
  }

  // The number of set bits.
  function CountOnes(m: nat): nat
  {
    if m == 0 then 0 else m % 2 + CountOnes(m / 2)
  }

  lemma {:induction false} ShlHalves(x: nat, k: nat)
    requires k > 0
    ensures Shl(x, k) % 2 == 0 && Shl(x, k) / 2 == Shl(x, k - 1)
  {
  }

  lemma {:induction false} ShlComposes(x: nat, j: nat, k: nat)
    ensures Shl(Shl(x, j), k) == Shl(x, j + k)
  {
    if k > 0 {
      ShlComposes(x, j, k - 1);
    }
  }

  lemma {:induction false} ShlMonotone(x: nat, y: nat, k: nat)
    ensures x <= y <==> Shl(x, k) <= Shl(y, k)
  {
    if k > 0 {
      ShlMonotone(x, y, k - 1);
    }
  }

  lemma {:induction false} ShlIsMultiplication(x: nat, k: nat)
    ensures Shl(x, k) == x * Pow2(k)
  {
    if k > 0 {
      ShlIsMultiplication(x, k - 1);
      assert x * (2 * Pow2(k - 1)) == 2 * (x * Pow2(k - 1));
    }
  }

  // Every word splits into a shifted quotient and its low bits.
  lemma {:induction false} Split(x: nat, k: nat)
    ensures x == Shl(Shr(x, k), k) + Low(x, k)
    ensures Low(x, k) < Pow2(k)
  {
    if k > 0 {
      Split(x / 2, k - 1);
    }
  }

  lemma {:induction false} OnesIsPow2(k: nat)
    ensures Ones(k) + 1 == Pow2(k)
  {
    if k > 0 {
      OnesIsPow2(k - 1);
    }
  }

  lemma {:induction false} OnesSplit(j: nat, k: nat)
    ensures Ones(j + k) == Shl(Ones(j), k) + Ones(k)
  {
    if k > 0 {
      OnesSplit(j, k - 1);
    }
  }

  lemma OnesDouble(k: nat, p: nat)
    requires Pow2(k) == p
    ensures Ones(k) == p - 1 && Pow2(k + k) == p * p
  {
    OnesIsPow2(k);
    ShlComposes(1, k, k);
    ShlIsMultiplication(p, k);
  }

  lemma Ones64()
    ensures Ones(64) == U64_MAX
  {
    assert Pow2(4) == 16;
    OnesDouble(4, 16);
    OnesDouble(8, 0x100);
    OnesDouble(16, 0x1_0000);
    OnesDouble(32, 0x1_0000_0000);
    OnesDouble(64, 0x1_0000_0000_0000_0000);
  }

  lemma {:induction false} OrZero(x: nat)
    ensures BitOr(x, 0) == x
  {
    if x > 0 {
      OrZero(x / 2);
    }
  }

  // Combining a shifted field with low bits it does not touch is addition.
  lemma {:induction false} OrOfDisjointFields(x: nat, y: nat, k: nat)
    requires y < Pow2(k)
    ensures BitOr(Shl(x, k), y) == Shl(x, k) + y
  {
    if k == 0 {
      OrZero(x);
    } else {
      OrOfDisjointFields(x, y / 2, k - 1);
    }
  }

  // Masking with a run of j ones starting at bit k keeps exactly that field.
  lemma {:induction false} AndField(m: nat, j: nat, k: nat)
    ensures BitAnd(m, Shl(Ones(j), k)) == Shl(Low(Shr(m, k), j), k)
  {
    if k > 0 {
      AndField(m / 2, j, k - 1);
      ShlHalves(Ones(j), k);
    } else if j > 0 {
      AndField(m / 2, j - 1, 0);
      assert Shl(Ones(j), 0) / 2 == Ones(j - 1);
    }
  }

  lemma {:induction false} LowOfSmall(x: nat, k: nat)
    requires x < Pow2(k)
    ensures Low(x, k) == x && Shr(x, k) == 0
  {
    if k > 0 {
      LowOfSmall(x / 2, k - 1);
    }
  }

  lemma {:induction false} FieldsOfSum(x: nat, y: nat, k: nat)
    requires y < Pow2(k)
    ensures Shr(Shl(x, k) + y, k) == x && Low(Shl(x, k) + y, k) == y
  {
    if k > 0 {
      FieldsOfSum(x, y / 2, k - 1);
      assert (Shl(x, k) + y) / 2 == Shl(x, k - 1) + y / 2;
    }
  }

  lemma {:induction false} BitOfShift(m: nat, i: nat)
    ensures Bit(m, i) <==> Low(Shr(m, i), 1) == 1
  {
    if i > 0 {
      BitOfShift(m / 2, i - 1);
    }
  }

  // The idiom `mask & (1 << i) != 0` is the bit test.
  lemma BitTest(m: nat, i: nat)
    ensures BitAnd(m, Shl(1, i)) != 0 <==> Bit(m, i)
  {
    assert Ones(1) == 1;
    AndField(m, 1, i);
    BitOfShift(m, i);
    ShlMonotone(1, Low(Shr(m, i), 1), i);
    ShlMonotone(0, 0, i);
    ShlZero(i);
    ShlMonotone(1, 0, i);
  }

  lemma {:induction false} ShlZero(k: nat)
    ensures Shl(0, k) == 0
  {
    if k > 0 {
      ShlZero(k - 1);
    }
  }

  function BitsBelow(m: nat, n: nat): set<nat>
  {
    set b: nat | b < n && Bit(m, b)
  }

  function Successors(s: set<nat>): (t: set<nat>)
    ensures forall b: nat :: b in t <==> b > 0 && b - 1 in s
  {
    set b: nat | b in s :: b + 1
  }

  // The population count of an n-bit word is the size of its set of bit positions.
  lemma {:induction false} CountOnesIsCardinality(m: nat, n: nat)
    requires m < Pow2(n)
    ensures |BitsBelow(m, n)| == CountOnes(m) <= n
  {
    if n == 0 {
      assert BitsBelow(m, 0) == {};
    } else {
      CountOnesIsCardinality(m / 2, n - 1);
      BitsSplit(m, n);
      SuccessorsSize(BitsBelow(m / 2, n - 1));
    }
  }

  lemma BitsSplit(m: nat, n: nat)
    requires n > 0
    ensures |BitsBelow(m, n)| == m % 2 + |Successors(BitsBelow(m / 2, n - 1))|
  {
    var later := Successors(BitsBelow(m / 2, n - 1));
    var low: set<nat> := if m % 2 == 1 then {0} else {};
    assert BitsBelow(m, n) == low + later;
    assert low !! later;
    assert |low + later| == |low| + |later|;
  }

  lemma {:induction false} SuccessorsSize(s: set<nat>)
    ensures |Successors(s)| == |s|
  {
    if s != {} {
      var x :| x in s;
      SuccessorsSize(s - {x});
      assert Successors(s) == Successors(s - {x}) + {x + 1};
    }
  }
}
