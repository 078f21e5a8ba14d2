// bswap_fallback: shifts and masks that stand in for the compiler's byte swap
// on unsigned words of 1, 2, 4 and 8 bytes.

module ByteSwaps {
  import opened Bits
  import opened Bytes

  // What an unsigned type of so many bits keeps of a value.
  function Trunc(x: nat, bits: nat): nat {
    x % Pow2(bits)
  }

  function BswapFallback(x: nat, width: nat): nat
    requires width in {1, 2, 4, 8}
  {
    if width == 1 then x
    else if width == 2 then Or(Shr(x, 8), Trunc(Shl(x, 8), 16))
    else if width == 4 then
      var a := Or(Shr(x, 24), And(Shr(x, 8), 0xFF00));
      var b := Or(a, And(Trunc(Shl(x, 8), 32), 0xFF_0000));
      Or(b, Trunc(Shl(x, 24), 32))
    else
      var a := Or(Shr(x, 56), And(Shr(x, 40), 0xFF00));
      var b := Or(a, And(Shr(x, 24), 0xFF_0000));
      var c := Or(b, And(Shr(x, 8), 0xFF00_0000));
      var d := Or(c, And(Trunc(Shl(x, 8), 64), 0xFF_0000_0000));
      var e := Or(d, And(Trunc(Shl(x, 24), 64), 0xFF00_0000_0000));
      var f := Or(e, And(Trunc(Shl(x, 40), 64), 0xFF_0000_0000_0000));
      Or(f, Trunc(Shl(x, 56), 64))
  }

  // The eight bits of x from position n on
  function ByteAt(x: nat, n: nat): (b: nat)
    ensures b < 256
  {
    Shr(x, n) % 256
  }

  // ---------------------------------------------------------------------
  // One term of the fallback: a byte of x in its new place

  lemma {:induction false} AndShl(y: nat, m: nat, p: nat)
    ensures And(y, Shl(m, p)) == Shl(And(Shr(y, p), m), p)
    decreases p
  {
    if p > 0 {
      ShlDoubles(m, p);
      AndEven(y, Shl(m, p - 1));
      AndShl(y / 2, m, p - 1);
      ShlDoubles(And(Shr(y, p), m), p);
    }
  }

  lemma {:induction false} AndEven(y: nat, s: nat)
    ensures And(y, 2 * s) == 2 * And(y / 2, s)
  {
  }

  lemma {:induction false} ShrShl(x: nat, l: nat, p: nat)
    requires l <= p
    ensures Shr(Shl(x, l), p) == Shr(x, p - l)
    decreases l
  {
    if l > 0 {
      assert Shl(x, l) == 2 * Shl(x, l - 1);
      ShrShl(x, l - 1, p - 1);
    }
  }

  lemma ByteMask(y: nat)
    ensures And(y, 255) == y % 256
  {
    Pow2Add(4, 4);
    MaskIsRemainder(y, 8);
  }

  lemma RightTerm(x: nat, r: nat, p: nat, mask: nat)
    requires mask == Shl(255, p)
    ensures And(Shr(x, r), mask) == Shl(ByteAt(x, r + p), p)
  {
    AndShl(Shr(x, r), 255, p);
    ShrTwice(x, r, p);
    ByteMask(Shr(x, r + p));
  }

  lemma {:induction false} RemainderOfRemainder(a: nat, k: nat, i: nat)
    requires i <= k
    ensures a % Pow2(k) % Pow2(i) == a % Pow2(i)
    decreases i
  {
    if i > 0 {
      var y := a % Pow2(k);
      RemainderDoubles(a, Pow2(k - 1));
      RemainderDoubles(y, Pow2(i - 1));
      RemainderDoubles(a, Pow2(i - 1));
      assert y / 2 == a / 2 % Pow2(k - 1) && y % 2 == a % 2;
      RemainderOfRemainder(a / 2, k - 1, i - 1);
    }
  }

  lemma TruncShifted(z: nat, p: nat, bits: nat)
    requires p <= bits
    ensures Shr(Trunc(z, bits), p) == Shr(z, p) % Pow2(bits - p)
  {
    assert Trunc(z, bits) == And(z, Pow2(bits) - 1) by {
      MaskIsRemainder(z, bits);
    }
    assert Shr(And(z, Pow2(bits) - 1), p) == And(Shr(z, p), Pow2(bits - p) - 1) by {
      ShrAnd(z, Pow2(bits) - 1, p);
      ShrAllOnes(bits, p);
    }
    MaskIsRemainder(Shr(z, p), bits - p);
  }

  lemma LeftTerm(x: nat, l: nat, p: nat, bits: nat, mask: nat)
    requires mask == Shl(255, p) && l <= p && p + 8 <= bits
    ensures And(Trunc(Shl(x, l), bits), mask) == Shl(ByteAt(x, p - l), p)
  {
    var y := Trunc(Shl(x, l), bits);
    AndShl(y, 255, p);
    ByteMask(Shr(y, p));
    TruncShifted(Shl(x, l), p, bits);
    ShrShl(x, l, p);
    Pow2Add(4, 4);
    RemainderOfRemainder(Shr(x, p - l), bits - p, 8);
  }

  lemma {:induction false} ShrFits(x: nat, n: nat, m: nat)
    requires x < Pow2(n + m)
    ensures Shr(x, n) < Pow2(m)
    decreases n
  {
    if n > 0 {
      ShrFits(x / 2, n - 1, m);
    }
  }

  lemma TopTerm(x: nat, n: nat)
    requires x < Pow2(n + 8)
    ensures Shr(x, n) == Shl(ByteAt(x, n), 0)
  {
    Pow2Add(4, 4);
    ShrFits(x, n, 8);
  }

  lemma BottomTerm(x: nat, l: nat)
    ensures Trunc(Shl(x, l), l + 8) == Shl(ByteAt(x, 0), l)
  {
    Pow2Add(4, 4);
    Pow2Add(l, 8);
    var p := Pow2(l);
    var q, r := x / 256, x % 256;
    assert x == 256 * q + r;
    assert x * p == (p * 256) * q + r * p by {
      assert x * p == 256 * q * p + r * p;
    }
    assert r * p < 256 * p by { MulMonotonic(p, r + 1, 256); }
    QuotientUnique(x * p, p * 256, q, r * p);
  }

  // ---------------------------------------------------------------------
  // The terms do not overlap, so oring them adds them up.

  lemma {:induction false} OrCommutes(x: nat, y: nat)
    ensures Or(x, y) == Or(y, x)
    decreases x + y
  {
    if x > 0 && y > 0 {
      OrCommutes(x / 2, y / 2);
    }
  }

  // The j lowest bytes of the swapped word
  function SwappedLow(x: nat, width: nat, j: nat): nat
    requires j <= width
    decreases j
  {
    if j == 0 then 0 else SwappedLow(x, width, j - 1) + Shl(ByteAt(x, 8 * (width - j)), 8 * (j - 1))
  }

  lemma {:induction false} SwappedLowFits(x: nat, width: nat, j: nat)
    requires j <= width
    ensures SwappedLow(x, width, j) < Pow2(8 * j)
    decreases j
  {
    if j > 0 {
      SwappedLowFits(x, width, j - 1);
      ShlFits(ByteAt(x, 8 * (width - j)), 8 * (j - 1));
    }
  }

  lemma ShlFits(b: nat, n: nat)
    requires b < 256
    ensures Shl(b, n) + Pow2(n) <= Pow2(n + 8)
  {
    Pow2Add(4, 4);
    Pow2Add(n, 8);
    MulMonotonic(Pow2(n), b + 1, 256);
  }

  lemma OrNext(x: nat, width: nat, j: nat)
    requires j < width
    ensures Or(SwappedLow(x, width, j), Shl(ByteAt(x, 8 * (width - j - 1)), 8 * j)) == SwappedLow(x, width, j + 1)
  {
    SwappedLowFits(x, width, j);
    var low, b := SwappedLow(x, width, j), ByteAt(x, 8 * (width - j - 1));
    OrCommutes(low, Shl(b, 8 * j));
    OrIsSum(b, 8 * j, low);
  }

  lemma {:induction false} SwappedByte(x: nat, width: nat, j: nat)
    requires j < width
    ensures BigEndian(x, width)[j] == ByteAt(x, 8 * (width - 1 - j))
  {
    if j < width - 1 {
      SwappedByte(x / 256, width - 1, j);
      assert Shr(x, 8) == x / 256 by {
        Pow2Add(4, 4);
        ShrIsQuotient(x, 8);
      }
      ShrTwice(x, 8, 8 * (width - 2 - j));
    }
  }

  lemma {:induction false} LittleEndianSnoc(bs: seq<byte>, b: byte)
    ensures FromLittleEndian(bs + [b]) == FromLittleEndian(bs) + Shl(b, 8 * |bs|)
  {
    if bs == [] {
      assert bs + [b] == [b];
    } else {
      LittleEndianSnoc(bs[1..], b);
      assert (bs + [b])[1..] == bs[1..] + [b];
      Pow2Add(4, 4);
      Pow2Add(8, 8 * (|bs| - 1));
      var p := Pow2(8 * (|bs| - 1));
      assert 256 * (b * p) == b * (256 * p);
    }
  }

  lemma {:induction false} SwappedLowIsPrefix(x: nat, width: nat, j: nat)
    requires j <= width
    ensures SwappedLow(x, width, j) == FromLittleEndian(BigEndian(x, width)[..j])
    decreases j
  {
    if j > 0 {
      var bs := BigEndian(x, width);
      SwappedLowIsPrefix(x, width, j - 1);
      SwappedByte(x, width, j - 1);
      LittleEndianSnoc(bs[..j - 1], bs[j - 1]);
      assert bs[..j] == bs[..j - 1] + [bs[j - 1]];
    }
  }

  lemma SwappedLowIsSwap(x: nat, width: nat)
    ensures SwappedLow(x, width, width) == ByteSwap(x, width)
  {
    SwappedLowIsPrefix(x, width, width);
    LayoutsMirror(x, width);
    assert BigEndian(x, width)[..width] == BigEndian(x, width);
  }

  lemma Masks()
    ensures 0xFF00 == Shl(255, 8) && 0xFF_0000 == Shl(255, 16) && 0xFF00_0000 == Shl(255, 24)
    ensures 0xFF_0000_0000 == Shl(255, 32) && 0xFF00_0000_0000 == Shl(255, 40)
    ensures 0xFF_0000_0000_0000 == Shl(255, 48)
  {
  }

  // ---------------------------------------------------------------------
  // The fallback swaps the bytes of every word of each width.

  lemma FallbackSwaps2(x: nat)
    requires x < Pow2(16)
    ensures BswapFallback(x, 2) == ByteSwap(x, 2)
  {
    TopTerm(x, 8);
    OrNext(x, 2, 0);
    BottomTerm(x, 8);
    OrNext(x, 2, 1);
    SwappedLowIsSwap(x, 2);
  }

  lemma FallbackSwaps4(x: nat)
    requires x < Pow2(32)
    ensures BswapFallback(x, 4) == ByteSwap(x, 4)
  {
    Masks();
    TopTerm(x, 24);
    OrNext(x, 4, 0);
    RightTerm(x, 8, 8, 0xFF00);
    OrNext(x, 4, 1);
    LeftTerm(x, 8, 16, 32, 0xFF_0000);
    OrNext(x, 4, 2);
    BottomTerm(x, 24);
    OrNext(x, 4, 3);
    SwappedLowIsSwap(x, 4);
  }

  lemma FallbackSwaps8(x: nat)
    requires x < Pow2(64)
    ensures BswapFallback(x, 8) == ByteSwap(x, 8)
  {
    Masks();
    TopTerm(x, 56);
    OrNext(x, 8, 0);
    RightTerm(x, 40, 8, 0xFF00);
    OrNext(x, 8, 1);
    RightTerm(x, 24, 16, 0xFF_0000);
    OrNext(x, 8, 2);
    RightTerm(x, 8, 24, 0xFF00_0000);
    OrNext(x, 8, 3);
    LeftTerm(x, 8, 32, 64, 0xFF_0000_0000);
    OrNext(x, 8, 4);
    LeftTerm(x, 24, 40, 64, 0xFF00_0000_0000);
    OrNext(x, 8, 5);
    LeftTerm(x, 40, 48, 64, 0xFF_0000_0000_0000);
    OrNext(x, 8, 6);
    BottomTerm(x, 56);
    OrNext(x, 8, 7);
    SwappedLowIsSwap(x, 8);
  }

  lemma FallbackSwaps(x: nat, width: nat)
    requires width in {1, 2, 4, 8} && x < Pow2(8 * width)
    ensures BswapFallback(x, width) == ByteSwap(x, width)
  {
    if width == 1 {
      Pow2Add(4, 4);
      LittleEndianRoundTrip(x, 1);
      assert Reversed(LittleEndian(x, 1)) == LittleEndian(x, 1);
    } else if width == 2 {
      FallbackSwaps2(x);
    } else if width == 4 {
      FallbackSwaps4(x);
    } else {
      FallbackSwaps8(x);
    }
  }
}
