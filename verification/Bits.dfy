/** Alignment by bit masks on 64-bit words, and the arithmetic it stands for. */
module Bits {

  const TWO64: nat := 0x1_0000_0000_0000_0000

  function Pow2(k: nat): (r: nat)
    ensures r > 0
  {
    if k == 0 then 1 else 2 * Pow2(k - 1)
  }

  predicate IsPow2(a: nat) { exists k: nat :: k <= a && a == Pow2(k) }

  /** Bitwise and. */
  function And(a: nat, b: nat): nat {
    if a == 0 || b == 0 then 0 else 2 * And(a / 2, b / 2) + (if a % 2 == 1 && b % 2 == 1 then 1 else 0)
  }

  /** 64-bit wrapping subtraction and complement. */
  function Sub64(a: nat, b: nat): nat { (a - b) % TWO64 }

  function Not64(a: nat): nat
    requires a < TWO64
  {
    TWO64 - 1 - a
  }

  function AlignDown(pos: nat, align: nat): nat { And(pos, Not64(Sub64(align, 1))) }

  function AlignUp(pos: nat, align: nat): nat
    requires pos + align >= 1
  {
    And((pos + align - 1) % TWO64, Not64(Sub64(align, 1)))
  }

  predicate IsAligned(pos: nat, align: nat) { And(pos, Sub64(align, 1)) == 0 }

  lemma {:induction false} Pow2Sum(a: nat, b: nat)
    ensures Pow2(a + b) == Pow2(a) * Pow2(b)
  {
    if a > 0 { Pow2Sum(a - 1, b); }
  }

  lemma {:induction false} Pow2Grows(a: nat, b: nat)
    requires a < b
    ensures 2 * Pow2(a) <= Pow2(b)
    decreases b
  {
    if a < b - 1 { Pow2Grows(a, b - 1); }
  }

  lemma {:induction false} Pow2Exceeds(k: nat)
    ensures k < Pow2(k)
  {
    if k > 0 { Pow2Exceeds(k - 1); }
  }

  lemma Pow2Is64()
    ensures Pow2(64) == TWO64 && Pow2(30) == 0x4000_0000
  {
    assert Pow2(8) == 256;
    Pow2Sum(8, 8);
    Pow2Sum(16, 16);
    Pow2Sum(32, 32);
    assert Pow2(6) == 64;
    Pow2Sum(16, 8);
    Pow2Sum(24, 6);
  }

  lemma HalfMod(a: nat, m: nat)
    requires m > 0
    ensures a % (2 * m) == 2 * (a / 2 % m) + a % 2
  {
    var q, r := a / 2 / m, a / 2 % m;
    assert a / 2 == q * m + r;
    assert a == 2 * (q * m + r) + a % 2 == q * (2 * m) + (2 * r + a % 2);
    ModUnique(a, 2 * m, q, 2 * r + a % 2);
  }

  lemma MulFar(d: int, m: nat)
    ensures d > 0 ==> d * m >= m
    ensures d < 0 ==> d * m <= 0 - m
  {}

  lemma ModUnique(a: nat, m: nat, q: nat, r: nat)
    requires m > 0 && a == q * m + r && r < m
    ensures a % m == r && a / m == q
  {
    assert a == a / m * m + a % m;
    assert (a / m - q) * m == r - a % m;
    MulFar(a / m - q, m);
  }

  /** And with 2^k - 1 is the remainder. */
  lemma {:induction false} AndLowMask(a: nat, k: nat)
    ensures And(a, Pow2(k) - 1) == a % Pow2(k)
    decreases k
  {
    if k > 0 {
      AndLowMask(a / 2, k - 1);
      HalfMod(a, Pow2(k - 1));
      assert (Pow2(k) - 1) / 2 == Pow2(k - 1) - 1 && (Pow2(k) - 1) % 2 == 1;
      if a == 0 { assert a % Pow2(k) == 0; }
    }
  }

  lemma AndEven(a: nat, b: nat, half: nat)
    requires b == 2 * half
    ensures And(a, b) == 2 * And(a / 2, half)
  {
    assert b / 2 == half && b % 2 == 0;
  }

  /** And with 2^w - 2^k clears the low k bits of a w-bit word. */
  lemma {:induction false} AndHighMask(a: nat, k: nat, w: nat, mask: nat)
    requires k <= w && a < Pow2(w) && mask == Pow2(w) - Pow2(k)
    ensures And(a, mask) == a - a % Pow2(k)
    decreases k
  {
    if k == 0 {
      AndLowMask(a, w);
      ModUnique(a, Pow2(w), 0, a);
    } else {
      var half := Pow2(w - 1) - Pow2(k - 1);
      assert mask == 2 * half;
      Pow2Order(k - 1, w - 1);
      AndHighMask(a / 2, k - 1, w - 1, half);
      AndEven(a, mask, half);
      HalfMod(a, Pow2(k - 1));
    }
  }

  lemma Pow2Order(a: nat, b: nat)
    ensures a < b ==> Pow2(a) < Pow2(b)
    ensures a > b ==> Pow2(a) > Pow2(b)
  {
    if a < b { Pow2Grows(a, b); } else if b < a { Pow2Grows(b, a); }
  }

  lemma Width() returns (w: nat)
    ensures Pow2(w) == TWO64
  {
    w := 64;
    Pow2Is64();
  }

  /** The complement of the low mask is the high mask. */
  lemma HighMask(k: nat, w: nat)
    requires Pow2(k) < TWO64 && Pow2(w) == TWO64
    ensures Not64(Sub64(Pow2(k), 1)) == Pow2(w) - Pow2(k)
  {}

  lemma DownIsFloor(pos: nat, k: nat)
    requires pos < TWO64 && Pow2(k) < TWO64
    ensures AlignDown(pos, Pow2(k)) == pos - pos % Pow2(k)
    ensures AlignDown(pos, Pow2(k)) % Pow2(k) == 0
  {
    var w := Width();
    Pow2Order(k, w);
    HighMask(k, w);
    AndHighMask(pos, k, w, Pow2(w) - Pow2(k));
    MultipleOfPow2(pos, Pow2(k));
  }

  lemma LowMask(k: nat)
    requires Pow2(k) < TWO64
    ensures Sub64(Pow2(k), 1) == Pow2(k) - 1
  {
    ModUnique(Pow2(k) - 1, TWO64, 0, Pow2(k) - 1);
  }

  lemma AlignedIsMultiple(pos: nat, k: nat)
    requires Pow2(k) < TWO64
    ensures IsAligned(pos, Pow2(k)) <==> pos % Pow2(k) == 0
  {
    LowMask(k);
    AndLowMask(pos, k);
  }

  /** The mask rounds up, unless there is no multiple between `pos` and 2^64: then it gives 0. */
  lemma UpIsCeiling(pos: nat, k: nat)
    requires Pow2(k) < TWO64 && pos < TWO64
    ensures AlignUp(pos, Pow2(k)) % Pow2(k) == 0 && AlignUp(pos, Pow2(k)) < TWO64
    ensures pos + Pow2(k) - 1 < TWO64 ==> pos <= AlignUp(pos, Pow2(k)) < pos + Pow2(k)
    ensures pos + Pow2(k) - 1 >= TWO64 ==> AlignUp(pos, Pow2(k)) == 0
  {
    var sum := (pos + Pow2(k) - 1) % TWO64;
    DownIsFloor(sum, k);
    RoundUp(pos, Pow2(k), sum, sum % Pow2(k));
  }

  lemma RoundUp(pos: nat, m: nat, sum: nat, rest: nat)
    requires 0 < m < TWO64 && pos < TWO64 && sum == (pos + m - 1) % TWO64 && rest == sum % m
    ensures pos + m - 1 < TWO64 ==> pos <= sum - rest < pos + m
    ensures pos + m - 1 >= TWO64 ==> sum == rest
  {
    if pos + m - 1 < TWO64 {
      ModUnique(pos + m - 1, TWO64, 0, pos + m - 1);
    } else {
      ModUnique(pos + m - 1, TWO64, 1, pos + m - 1 - TWO64);
      ModUnique(sum, m, 0, sum);
    }
  }

  lemma MultipleOfPow2(a: nat, m: nat)
    requires m > 0
    ensures (a - a % m) % m == 0
  {
    assert a - a % m == a / m * m + 0;
    ModUnique(a - a % m, m, a / m, 0);
  }
}
