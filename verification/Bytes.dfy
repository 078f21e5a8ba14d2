// Bytes and unsigned words, their two layouts, and the endian wrapper of Bit.hpp.

module Bytes {
  import Bits

  type byte = x: int | 0 <= x < 256
  type u16 = x: nat | x < 0x1_0000
  type u32 = x: nat | x < 0x1_0000_0000
  type u64 = x: nat | x < 0x1_0000_0000_0000_0000

  // 256 to the power n: the number of values an n-byte word can take.
  function Pow256(n: nat): (p: nat)
    ensures p >= 1
  {
    if n == 0 then 1 else 256 * Pow256(n - 1)
  }

  // The bytes of x, least significant first.
  function LittleEndian(x: nat, width: nat): (bs: seq<byte>)
    ensures |bs| == width
  {
    if width == 0 then [] else [x % 256] + LittleEndian(x / 256, width - 1)
  }

  function FromLittleEndian(bs: seq<byte>): nat {
    if bs == [] then 0 else bs[0] + 256 * FromLittleEndian(bs[1..])
  }

  // The bytes of x, most significant first: network order.
  function BigEndian(x: nat, width: nat): (bs: seq<byte>)
    ensures |bs| == width
  {
    if width == 0 then [] else BigEndian(x / 256, width - 1) + [x % 256]
  }

  function FromBigEndian(bs: seq<byte>): nat {
    if bs == [] then 0 else 256 * FromBigEndian(bs[..|bs| - 1]) + bs[|bs| - 1]
  }

  function Reversed(bs: seq<byte>): (r: seq<byte>)
    ensures |r| == |bs|
  {
    if bs == [] then [] else Reversed(bs[1..]) + [bs[0]]
  }

  // ---------------------------------------------------------------------
  // Round trips

  lemma {:induction false} LittleEndianRoundTrip(x: nat, width: nat)
    requires x < Pow256(width)
    ensures FromLittleEndian(LittleEndian(x, width)) == x
  {
    if width > 0 {
      LittleEndianRoundTrip(x / 256, width - 1);
    }
  }

  lemma {:induction false} FromLittleEndianRoundTrip(bs: seq<byte>)
    ensures FromLittleEndian(bs) < Pow256(|bs|)
    ensures LittleEndian(FromLittleEndian(bs), |bs|) == bs
  {
    if bs != [] {
      FromLittleEndianRoundTrip(bs[1..]);
      var rest := FromLittleEndian(bs[1..]);
      LowByte(rest, bs[0]);
      assert bs == [bs[0]] + bs[1..];
    }
  }

  lemma LowByte(rest: nat, low: byte)
    ensures (256 * rest + low) % 256 == low && (256 * rest + low) / 256 == rest
  {
  }

  lemma {:induction false} BigEndianRoundTrip(x: nat, width: nat)
    requires x < Pow256(width)
    ensures FromBigEndian(BigEndian(x, width)) == x
  {
    if width > 0 {
      BigEndianRoundTrip(x / 256, width - 1);
      var bs := BigEndian(x, width);
      assert bs[..|bs| - 1] == BigEndian(x / 256, width - 1);
    }
  }

  lemma {:induction false} FromBigEndianRoundTrip(bs: seq<byte>)
    ensures FromBigEndian(bs) < Pow256(|bs|)
    ensures BigEndian(FromBigEndian(bs), |bs|) == bs
  {
    if bs != [] {
      FromBigEndianRoundTrip(bs[..|bs| - 1]);
    }
  }

  lemma {:induction false} ReversedAppend(a: seq<byte>, b: byte)
    ensures Reversed(a + [b]) == [b] + Reversed(a)
  {
    if a != [] {
      assert (a + [b])[1..] == a[1..] + [b];
      ReversedAppend(a[1..], b);
    } else {
      assert a + [b] == [b];
    }
  }

  // The two layouts are mirror images of each other.
  lemma {:induction false} LayoutsMirror(x: nat, width: nat)
    ensures Reversed(LittleEndian(x, width)) == BigEndian(x, width)
    ensures Reversed(BigEndian(x, width)) == LittleEndian(x, width)
  {
    if width > 0 {
      LayoutsMirror(x / 256, width - 1);
      ReversedAppend(BigEndian(x / 256, width - 1), x % 256);
      assert LittleEndian(x, width)[1..] == LittleEndian(x / 256, width - 1);
    }
  }

  // Byte by byte: in network order the k-th byte has the weight of the places
  // behind it, in the other layout that of the places before it.

  lemma {:induction false} BigEndianAt(x: nat, width: nat, k: nat)
    requires k < width
    ensures BigEndian(x, width)[k] == x / Pow256(width - 1 - k) % 256
  {
    if k < width - 1 {
      BigEndianAt(x / 256, width - 1, k);
      DivideTwice(x, Pow256(width - 2 - k));
    }
  }

  lemma {:induction false} LittleEndianAt(x: nat, width: nat, k: nat)
    requires k < width
    ensures LittleEndian(x, width)[k] == x / Pow256(k) % 256
  {
    if k > 0 {
      LittleEndianAt(x / 256, width - 1, k - 1);
      DivideTwice(x, Pow256(k - 1));
    }
  }

  lemma DivideTwice(x: nat, p: nat)
    requires p > 0
    ensures x / 256 / p == x / (256 * p)
  {
    var q, r := x / 256 / p, x / 256 % p;
    assert x / 256 == p * q + r;
    assert x == 256 * (p * q) + (256 * r + x % 256);
    assert 256 * (p * q) == (256 * p) * q;
    Bits.QuotientUnique(x, 256 * p, q, 256 * r + x % 256);
  }

  // ---------------------------------------------------------------------
  // The endian wrapper: a value kept in a chosen byte order inside a word
  // of the host.

  datatype Endian = Little | Big

  // What memcpy sees of a host word.
  function Image(host: Endian, x: nat, width: nat): (bs: seq<byte>)
    ensures |bs| == width
  {
    if host == Little then LittleEndian(x, width) else BigEndian(x, width)
  }

  function FromImage(host: Endian, bs: seq<byte>): nat {
    if host == Little then FromLittleEndian(bs) else FromBigEndian(bs)
  }

  // The compiler's byte swap: the word whose bytes are those of x reversed.
  function ByteSwap(x: nat, width: nat): nat {
    FromLittleEndian(Reversed(LittleEndian(x, width)))
  }

  // endian<T, order>::from_native and endian<T, order>::native
  function Reordered(host: Endian, order: Endian, x: nat, width: nat): nat {
    if host == order then x else ByteSwap(x, width)
  }

  lemma SwapIsOtherLayout(x: nat, width: nat)
    ensures ByteSwap(x, width) < Pow256(width)
    ensures LittleEndian(ByteSwap(x, width), width) == BigEndian(x, width)
    ensures BigEndian(ByteSwap(x, width), width) == LittleEndian(x, width)
  {
    LayoutsMirror(x, width);
    FromLittleEndianRoundTrip(BigEndian(x, width));
    LayoutsMirror(ByteSwap(x, width), width);
  }

  // A value written through be<T> has the same bytes on every host.
  lemma BigEndianOnEveryHost(host: Endian, x: nat, width: nat)
    ensures Image(host, Reordered(host, Big, x, width), width) == BigEndian(x, width)
  {
    SwapIsOtherLayout(x, width);
  }

  // A value read through be<T> is the network-order value on every host.
  lemma BigEndianReadOnEveryHost(host: Endian, bs: seq<byte>)
    ensures Reordered(host, Big, FromImage(host, bs), |bs|) == FromBigEndian(bs)
  {
    FromBigEndianRoundTrip(bs);
    FromLittleEndianRoundTrip(bs);
    if host == Little {
      var x := FromLittleEndian(bs);
      LayoutsMirror(x, |bs|);
      var y := FromBigEndian(bs);
      LayoutsMirror(y, |bs|);
      LittleEndianRoundTrip(y, |bs|);
    }
  }

  lemma ImageRoundTrip(host: Endian, x: nat, width: nat)
    requires x < Pow256(width)
    ensures FromImage(host, Image(host, x, width)) == x
  {
    LittleEndianRoundTrip(x, width);
    BigEndianRoundTrip(x, width);
  }
}
