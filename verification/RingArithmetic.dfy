// Index arithmetic of a ring: positions modulo the capacity and cache-line
// rounding, with the facts about them that need multiplication.

module RingArithmetic {
  import opened Bits

  // (n + line - 1) & ~(line - 1), where x & ~m is x without the bits x & m
  function RoundUp(n: nat, line: nat): nat
    requires line > 0
  {
    n + line - 1 - And(n + line - 1, line - 1)
  }

  // The capacity is a whole number of cache lines, and a line is a power of
  // two larger than two record headers.
  ghost predicate Geometry(cap: nat, line: nat) {
    && 16 <= line
    && IsPow2(line)
    && cap % line == 0
    && 0 < cap <= 0x8000_0000_0000_0000
  }

  lemma RoundUpBounds(n: nat, line: nat)
    requires line > 0 && IsPow2(line)
    ensures n <= RoundUp(n, line) < n + line
    ensures RoundUp(n, line) % line == 0
  {
    var x := n + line - 1;
    MaskBelow(x, line);
    LowCleared(x, line);
  }

  lemma MaskBelow(x: nat, line: nat)
    requires line > 0 && IsPow2(line)
    ensures And(x, line - 1) == x % line
  {
    var k: nat :| line == Pow2(k);
    MaskIsRemainder(x, k);
  }

  lemma LowCleared(x: nat, line: nat)
    requires line > 0
    ensures x - x % line >= 0 && (x - x % line) % line == 0
  {
    QuotientUnique(x - x % line, line, x / line, 0);
  }

  // A multiple of the line at or above n is at or above n rounded up.
  lemma RoundUpLeast(n: nat, line: nat, a: nat)
    requires line > 0 && IsPow2(line) && a % line == 0 && n <= a
    ensures RoundUp(n, line) <= a
  {
    RoundUpBounds(n, line);
    MultiplesApart(RoundUp(n, line), a, line);
  }

  // Two multiples of the line less than a line apart, the first above the
  // second, are equal.
  lemma MultiplesApart(x: nat, y: nat, line: nat)
    requires line > 0 && x % line == 0 && y % line == 0 && x < y + line
    ensures x <= y
  {
    var a, b := x / line, y / line;
    assert x == line * a && y == line * b;
    if a >= b + 1 {
      MulMonotonic(line, b + 1, a);
    } else {
      MulMonotonic(line, a, b);
    }
  }

  lemma AlignedPosition(i: nat, cap: nat, line: nat)
    requires line > 0 && cap > 0 && cap % line == 0 && i % line == 0
    ensures i % cap % line == 0
    ensures i % cap + line <= cap
  {
    var q, m := i / cap, i % cap;
    assert i == cap * q + m;
    AlignedRest(q, m, cap / line, i / line, line);
    MultiplesBelow(m, cap, line);
  }

  lemma AlignedRest(q: nat, m: nat, b: nat, a: nat, line: nat)
    requires line > 0
    requires line * a == (line * b) * q + m
    ensures m % line == 0
  {
    assert (line * b) * q == line * (b * q);
    var k := a - b * q;
    assert m == line * k;
    if k < 0 {
      MulMonotonic(line, k, -1);
    }
    QuotientUnique(m, line, k, 0);
  }

  lemma MultiplesBelow(x: nat, y: nat, line: nat)
    requires line > 0 && x % line == 0 && y % line == 0 && x < y
    ensures x + line <= y
  {
    if x + line > y {
      MultiplesApart(y, x, line);
    }
  }

  // Moving forward from i by d, either within the lap or into the next.
  lemma PositionForward(i: nat, d: nat, cap: nat)
    requires cap > 0
    ensures i % cap + d < cap ==> (i + d) % cap == i % cap + d
    ensures cap <= i % cap + d < 2 * cap ==> (i + d) % cap == i % cap + d - cap
  {
    var q, m := i / cap, i % cap;
    assert i == cap * q + m;
    if m + d < cap {
      QuotientUnique(i + d, cap, q, m + d);
    } else if m + d < 2 * cap {
      IntoNextLap(i + d, cap, q, m + d);
    }
  }

  lemma IntoNextLap(j: nat, cap: nat, q: nat, m: nat)
    requires cap > 0 && j == cap * q + m && cap <= m < 2 * cap
    ensures j % cap == m - cap
  {
    OneMore(cap, q);
    QuotientUnique(j, cap, q + 1, m - cap);
  }

  lemma OneMore(cap: nat, q: nat)
    ensures cap * (q + 1) == cap * q + cap
  {
  }

  lemma SumOfMultiples(x: nat, y: nat, d: nat)
    requires 0 < d && x % d == 0 && y % d == 0
    ensures (x + y) % d == 0
  {
    var a, b := x / d, y / d;
    assert x == d * a && y == d * b;
    assert d * (a + b) == d * a + d * b;
    QuotientUnique(x + y, d, a + b, 0);
  }

  lemma DifferenceOfMultiples(x: nat, y: nat, d: nat)
    requires 0 < d && x % d == 0 && y % d == 0 && y <= x
    ensures (x - y) % d == 0
  {
    var a, b := x / d, y / d;
    assert x == d * a && y == d * b;
    if a < b {
      MulMonotonic(d, a, b);
      QuotientUnique(x - y, d, 0, 0);
    } else {
      assert d * (a - b) == d * a - d * b;
      QuotientUnique(x - y, d, a - b, 0);
    }
  }

  // Rounding up from a multiple of the line.
  lemma RoundUpFrom(i: nat, d: nat, line: nat)
    requires IsPow2(line) && i % line == 0
    ensures RoundUp(i + d, line) == i + RoundUp(d, line)
  {
    RoundUpBounds(d, line);
    RoundUpBounds(i + d, line);
    SumOfMultiples(i, RoundUp(d, line), line);
    OneMultiple(RoundUp(i + d, line), i + RoundUp(d, line), i + d, line);
  }

  lemma OneMultiple(a: nat, b: nat, from: nat, line: nat)
    requires line > 0 && a % line == 0 && b % line == 0
    requires from <= a < from + line && from <= b < from + line
    ensures a == b
  {
    MultiplesApart(a, b, line);
    MultiplesApart(b, a, line);
  }
}
