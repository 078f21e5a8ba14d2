// Bitwise operators on unbounded words, and the two bit tricks the queue
// relies on: rounding a capacity up to a power of two, and masking an index.

module Bits {

  function Pow2(n: nat): (p: nat)
    ensures p >= 1
  {
    if n == 0 then 1 else 2 * Pow2(n - 1)
  }

  function And(x: nat, y: nat): (r: nat)
    ensures r <= x
  {
    if x == 0 || y == 0 then 0
    else 2 * And(x / 2, y / 2) + (if x % 2 == 1 && y % 2 == 1 then 1 else 0)
  }

  function Or(x: nat, y: nat): nat
    decreases x + y
  {
    if x == 0 then y else if y == 0 then x
    else 2 * Or(x / 2, y / 2) + (if x % 2 == 1 || y % 2 == 1 then 1 else 0)
  }

  function Shr(x: nat, n: nat): nat
    decreases n
  {
    if n == 0 then x else Shr(x / 2, n - 1)
  }

  function Shl(x: nat, n: nat): nat {
    x * Pow2(n)
  }

  ghost predicate IsPow2(x: nat) {
    exists n: nat :: x == Pow2(n)
  }

  // ---------------------------------------------------------------------
  // Powers of two and halving

  lemma {:induction false} Pow2Add(m: nat, n: nat)
    ensures Pow2(m + n) == Pow2(m) * Pow2(n)
  {
    if m > 0 {
      Pow2Add(m - 1, n);
      calc {
        Pow2(m + n);
        2 * (Pow2(m - 1) * Pow2(n));
        (2 * Pow2(m - 1)) * Pow2(n);
      }
    }
  }

  lemma {:induction false} Pow2Monotonic(m: nat, n: nat)
    requires m <= n
    ensures Pow2(m) <= Pow2(n)
  {
    if m < n {
      Pow2Monotonic(m, n - 1);
    }
  }

  lemma {:induction false} MulMonotonic(d: int, x: int, y: int)
    requires 0 <= d && x <= y
    ensures d * x <= d * y
  {
  }

  lemma {:induction false} SmallMultiple(d: int, z: int)
    requires -d < d * z < d
    ensures z == 0
  {
    if z >= 1 {
      MulMonotonic(d, 1, z);
    } else if z <= -1 {
      MulMonotonic(d, z, -1);
    }
  }

  // Division with remainder is unique.
  lemma {:induction false} QuotientUnique(x: nat, d: nat, q: nat, r: nat)
    requires r < d
    requires x == d * q + r
    ensures x / d == q && x % d == r
  {
    var q', r' := x / d, x % d;
    assert d * (q - q') == r' - r;
    SmallMultiple(d, q - q');
  }

  // ---------------------------------------------------------------------
  // Masks

  // Masking with 2^n - 1 keeps the remainder modulo 2^n.
  lemma {:induction false} MaskIsRemainder(x: nat, n: nat)
    ensures And(x, Pow2(n) - 1) == x % Pow2(n)
  {
    if n > 0 {
      MaskIsRemainder(x / 2, n - 1);
      var p := Pow2(n - 1);
      assert (Pow2(n) - 1) / 2 == p - 1;
      RemainderDoubles(x, p);
    }
  }

  lemma {:induction false} RemainderDoubles(x: nat, p: nat)
    requires p > 0
    ensures x % (2 * p) == 2 * (x / 2 % p) + x % 2
  {
    var h := x / 2;
    var q, r := h / p, h % p;
    assert h == p * q + r;
    assert 2 * (p * q) == (2 * p) * q;
    QuotientUnique(x, 2 * p, q, 2 * r + x % 2);
  }

  lemma {:induction false} ShrAnd(x: nat, y: nat, n: nat)
    ensures Shr(And(x, y), n) == And(Shr(x, n), Shr(y, n))
    decreases n
  {
    if n > 0 {
      assert And(x, y) / 2 == And(x / 2, y / 2);
      ShrAnd(x / 2, y / 2, n - 1);
    }
  }

  lemma {:induction false} ShrIsQuotient(x: nat, n: nat)
    ensures Shr(x, n) == x / Pow2(n)
    decreases n
  {
    if n > 0 {
      ShrIsQuotient(x / 2, n - 1);
      QuotientDoubles(x, Pow2(n - 1));
    }
  }

  lemma QuotientDoubles(x: nat, p: nat)
    requires p > 0
    ensures x / (2 * p) == x / 2 / p
  {
    var q, r := x / 2 / p, x / 2 % p;
    assert x / 2 == p * q + r;
    assert 2 * (p * q) == (2 * p) * q;
    QuotientUnique(x, 2 * p, q, 2 * r + x % 2);
  }

  // A field of n bits, taken out of x.
  lemma FieldIsRemainder(x: nat, n: nat, low: nat)
    ensures Shr(And(x, Shl(Pow2(n) - 1, low)), low) == x / Pow2(low) % Pow2(n)
  {
    var mask := Pow2(n) - 1;
    ShrAnd(x, Shl(mask, low), low);
    ShrIsQuotient(x, low);
    ShrIsQuotient(Shl(mask, low), low);
    QuotientUnique(Shl(mask, low), Pow2(low), mask, 0);
    MaskIsRemainder(x / Pow2(low), n);
  }

  // Ored into the bits a shift has cleared, a value is added.
  lemma {:induction false} OrIsSum(x: nat, n: nat, y: nat)
    requires y < Pow2(n)
    ensures Or(Shl(x, n), y) == Shl(x, n) + y
    decreases n
  {
    if n > 0 {
      ShlDoubles(x, n);
      OrIsSum(x, n - 1, y / 2);
      OrUnfold(Shl(x, n), y);
    }
  }

  lemma ShlDoubles(x: nat, n: nat)
    requires n > 0
    ensures Shl(x, n) == 2 * Shl(x, n - 1)
  {
    var p := Pow2(n - 1);
    assert x * (2 * p) == 2 * (x * p);
  }

  lemma {:induction false} OrUnfold(x: nat, y: nat)
    ensures Or(x, y) == 2 * Or(x / 2, y / 2) + (if x % 2 == 1 || y % 2 == 1 then 1 else 0)
  {
    assert Or(0, y / 2) == y / 2 && Or(x / 2, 0) == x / 2;
  }

  // ---------------------------------------------------------------------
  // Bit smearing

  function Min(x: nat, y: nat): nat {
    if x <= y then x else y
  }

  lemma {:induction false} ShrTwice(x: nat, m: nat, n: nat)
    ensures Shr(Shr(x, m), n) == Shr(x, m + n)
    decreases m
  {
    if m > 0 {
      ShrTwice(x / 2, m - 1, n);
    }
  }

  lemma {:induction false} ShrOr(x: nat, y: nat, n: nat)
    ensures Shr(Or(x, y), n) == Or(Shr(x, n), Shr(y, n))
    decreases n
  {
    if n > 0 {
      assert Or(x, y) / 2 == Or(x / 2, y / 2);
      ShrOr(x / 2, y / 2, n - 1);
    }
  }

  lemma {:induction false} ShrVanishes(x: nat, n: nat)
    requires x < Pow2(n)
    ensures Shr(x, n) == 0
    decreases n
  {
    if n > 0 {
      ShrVanishes(x / 2, n - 1);
    }
  }

  lemma {:induction false} ShrAllOnes(s: nat, n: nat)
    requires n <= s
    ensures Shr(Pow2(s) - 1, n) == Pow2(s - n) - 1
    decreases n
  {
    if n > 0 {
      assert (Pow2(s) - 1) / 2 == Pow2(s - 1) - 1;
      ShrAllOnes(s - 1, n - 1);
    }
  }

  // Ones above position n, then n ones ored in: ones throughout.
  lemma {:induction false} OrLowOnes(x: nat, n: nat, s: nat)
    requires Shr(x, n) == Pow2(s) - 1
    ensures Or(x, Pow2(n) - 1) == Pow2(n + s) - 1
    decreases n
  {
    if n > 0 {
      OrLowOnes(x / 2, n - 1, s);
      assert (Pow2(n) - 1) / 2 == Pow2(n - 1) - 1;
      assert Or(x, Pow2(n) - 1) == 2 * Or(x / 2, Pow2(n - 1) - 1) + 1;
    }
  }

  // v has k+1 significant bits and the first s of them are ones.
  ghost predicate LeadingOnes(v: nat, k: nat, s: nat) {
    s <= k + 1 && Shr(v, k + 1 - s) == Pow2(s) - 1
  }

  // One step v |= v >> s doubles the run of leading ones ...
  lemma {:induction false} SmearStep(v: nat, k: nat, s: nat)
    requires s > 0
    requires LeadingOnes(v, k, Min(s, k + 1))
    ensures LeadingOnes(Or(v, Shr(v, s)), k, Min(2 * s, k + 1))
  {
    if s >= k + 1 {
      SmearComplete(v, k, s);
    } else {
      SmearPartial(v, k, s, Min(s, k + 1 - s));
    }
  }

  // ... which already fills the whole word ...
  lemma {:induction false} SmearComplete(v: nat, k: nat, s: nat)
    requires s >= k + 1 && v == Pow2(k + 1) - 1
    ensures Or(v, Shr(v, s)) == v
  {
    Pow2Monotonic(k + 1, s);
    ShrVanishes(v, s);
  }

  // ... or grows by d more positions.
  lemma {:induction false} SmearPartial(v: nat, k: nat, s: nat, d: nat)
    requires 0 < s <= k && d == Min(s, k + 1 - s)
    requires Shr(v, k + 1 - s) == Pow2(s) - 1
    ensures Shr(Or(v, Shr(v, s)), k + 1 - s - d) == Pow2(s + d) - 1
  {
    var j := k + 1 - s;
    var rest := j - d;
    var high := Shr(v, rest);
    assert Shr(high, d) == Pow2(s) - 1 by { ShrTwice(v, rest, d); }
    var low := Shr(v, s);
    assert Shr(low, rest) == Pow2(d) - 1 by {
      ShrTwice(v, s, rest);
      ShrTwice(v, j, s - d);
      ShrAllOnes(s, s - d);
    }
    ShrOr(v, low, rest);
    OrLowOnes(high, d, s);
  }

  // The position of the highest bit of v.
  lemma {:induction false} Magnitude(v: nat, bound: nat) returns (k: nat)
    requires 0 < v < Pow2(bound)
    ensures k < bound && Pow2(k) <= v < Pow2(k + 1) && LeadingOnes(v, k, 1)
    decreases bound
  {
    if v == 1 {
      k := 0;
    } else {
      k := Magnitude(v / 2, bound - 1);
      k := k + 1;
    }
  }

  // The range of size_t.
  const WORD := 0x1_0000_0000_0000_0000

  function OrShift(v: nat, s: nat): nat {
    Or(v, Shr(v, s))
  }

  lemma SmearTwice(v: nat, k: nat, s: nat)
    requires s > 0
    requires LeadingOnes(v, k, Min(s, k + 1))
    ensures LeadingOnes(OrShift(OrShift(v, s), 2 * s), k, Min(4 * s, k + 1))
  {
    SmearStep(v, k, s);
    SmearStep(OrShift(v, s), k, 2 * s);
  }

  // Six steps fill every position below the highest bit of a 64-bit word.
  lemma Smeared(v: nat) returns (k: nat)
    requires 0 < v < Pow2(64)
    ensures k < 64 && Pow2(k) <= v < Pow2(k + 1)
    ensures OrShift(OrShift(OrShift(OrShift(OrShift(OrShift(v, 1), 2), 4), 8), 16), 32) == Pow2(k + 1) - 1
  {
    k := Magnitude(v, 64);
    SmearTwice(v, k, 1);
    var w := OrShift(OrShift(v, 1), 2);
    SmearTwice(w, k, 4);
    SmearTwice(OrShift(OrShift(w, 4), 8), k, 16);
  }

  lemma Pow2Of64()
    ensures Pow2(64) == WORD
  {
    assert Pow2(8) == 0x100;
    Pow2Add(8, 8);
    assert Pow2(16) == 0x1_0000;
    Pow2Add(16, 16);
    assert Pow2(32) == 0x1_0000_0000;
    Pow2Add(32, 32);
  }

  // The incremented word is the power of two above v, unless that is 2^64.
  lemma SmearedNext(v: nat) returns (next: nat)
    requires v < WORD
    ensures OrShift(OrShift(OrShift(OrShift(OrShift(OrShift(v, 1), 2), 4), 8), 16), 32) + 1 == next
    ensures IsPow2(next) && v < next && (next == 1 || next <= 2 * v)
    ensures if v >= WORD / 2 then next == WORD else next <= WORD / 2
  {
    Pow2Of64();
    if v == 0 {
      next := Pow2(0);
      forall s: nat ensures OrShift(0, s) == 0 {
        ShrVanishes(0, s);
      }
    } else {
      var k := Smeared(v);
      next := Pow2(k + 1);
      if k < 63 {
        Pow2Monotonic(k + 2, 64);
        assert Pow2(k + 2) == 2 * next;
      }
    }
  }

  // get_next_power_of_two, with the decrement and the increment wrapping
  // around as they do on size_t: the least power of two that is not below
  // the argument, except that 0 and everything above 2^63 yield 0.
  method NextPowerOfTwo(capacity: nat) returns (r: nat)
    requires capacity < WORD
    ensures 1 <= capacity <= WORD / 2 ==> IsPow2(r) && capacity <= r < 2 * capacity && r <= WORD / 2
    ensures capacity == 0 || capacity > WORD / 2 ==> r == 0
  {
    var v := if capacity == 0 then WORD - 1 else capacity - 1;
    ghost var next := SmearedNext(v);
    v := OrShift(v, 1);
    v := OrShift(v, 2);
    v := OrShift(v, 4);
    v := OrShift(v, 8);
    v := OrShift(v, 16);
    v := OrShift(v, 32);
    r := if v + 1 == WORD then 0 else v + 1;
  }

  // There is only one power of two in [v, 2v), so the method's result is the
  // least one at or above v.
  lemma LeastPowerOfTwo(v: nat, r: nat, p: nat)
    requires IsPow2(r) && v <= r < 2 * v
    requires IsPow2(p) && v <= p
    ensures r <= p
  {
    var m: nat :| r == Pow2(m);
    var n: nat :| p == Pow2(n);
    if n < m {
      Pow2Monotonic(n + 1, m);
    } else {
      Pow2Monotonic(m, n);
    }
  }

  // ---------------------------------------------------------------------
  // Powers of two among their neighbours, multiples and factors

  lemma {:induction false} PowerAbove(x: nat) returns (p: nat)
    requires x >= 1
    ensures IsPow2(p) && x <= p < 2 * x
  {
    if x == 1 {
      p := Pow2(0);
    } else {
      var half := PowerAbove((x + 1) / 2);
      var k: nat :| half == Pow2(k);
      p := Pow2(k + 1);
    }
  }

  lemma PowersDivide(a: nat, b: nat)
    requires IsPow2(a) && IsPow2(b) && a <= b
    ensures b % a == 0
  {
    var m: nat :| a == Pow2(m);
    var n: nat :| b == Pow2(n);
    if n < m {
      Pow2Monotonic(n + 1, m);
    } else {
      Pow2Add(m, n - m);
      QuotientUnique(b, a, Pow2(n - m), 0);
    }
  }

  lemma PowersMultiply(a: nat, b: nat)
    requires IsPow2(a) && IsPow2(b)
    ensures IsPow2(a * b)
  {
    var m: nat :| a == Pow2(m);
    var n: nat :| b == Pow2(n);
    Pow2Add(m, n);
  }

  lemma {:induction false} FactorOfPower(x: nat, y: nat, k: nat)
    requires x * y == Pow2(k)
    ensures IsPow2(x)
    decreases k
  {
    if k == 0 {
      FactorOfOne(x, y);
      assert x == Pow2(0);
    } else {
      OneIsEven(x, y, Pow2(k - 1));
      if x % 2 == 0 {
        FactorOfPower(x / 2, y, k - 1);
        var j: nat :| x / 2 == Pow2(j);
        assert x == Pow2(j + 1);
      } else {
        FactorOfPower(x, y / 2, k - 1);
      }
    }
  }

  lemma FactorOfOne(x: nat, y: nat)
    requires x * y == 1
    ensures x == 1
  {
    if x >= 2 && y >= 1 {
      MulMonotonic(x, 1, y);
    }
  }

  // One factor of an even product is even, and its half gives half of it.
  lemma OneIsEven(x: nat, y: nat, half: nat)
    requires x * y == 2 * half
    ensures if x % 2 == 0 then x / 2 * y == half else x * (y / 2) == half
  {
    if x % 2 == 0 {
      assert x == 2 * (x / 2);
      HalfOfProduct(x, x / 2, y);
    } else {
      OddPart(x, x / 2, y, half);
      HalfOfProduct(y, y / 2, x);
    }
  }

  lemma HalfOfProduct(x: nat, a: nat, y: nat)
    requires x == 2 * a
    ensures x * y == 2 * (a * y)
  {
  }

  lemma OddPart(x: nat, a: nat, y: nat, half: nat)
    requires x == 2 * a + 1 && x * y == 2 * half
    ensures y == 2 * (y / 2)
  {
    assert x * y == 2 * (a * y) + y;
  }
}
