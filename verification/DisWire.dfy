// The words a DIS record is made of, and a cursor over the wire: DirectSerializer
// appends to what has been written, DirectDeserializer reads at a position.

module DisWire {
  import opened Bytes
  import opened Wrappers

  // Narrowing to an 8-bit or 16-bit field: harmless when the value fits.

  function Low8(n: nat): (b: byte)
    ensures b == n <==> n < 0x100
  {
    n % 0x100
  }

  function Low16(n: nat): (x: u16)
    ensures x == n <==> n < 0x1_0000
  {
    n % 0x1_0000
  }

  // ---------------------------------------------------------------------
  // Writing: what has been written so far, with a field after it.

  function PutBytes(written: seq<byte>, bs: seq<byte>): (w: seq<byte>)
    ensures |w| == |written| + |bs|
  {
    written + bs
  }

  function PutU8(written: seq<byte>, x: byte): (w: seq<byte>)
    ensures |w| == |written| + 1
  {
    PutBytes(written, [x])
  }

  // A word in network order.
  function PutWord(written: seq<byte>, x: nat, width: nat): (w: seq<byte>)
    ensures |w| == |written| + width
  {
    PutBytes(written, BigEndian(x, width))
  }

  function PutU16(written: seq<byte>, x: u16): (w: seq<byte>)
    ensures |w| == |written| + 2
  {
    PutWord(written, x, 2)
  }

  function PutU32(written: seq<byte>, x: u32): (w: seq<byte>)
    ensures |w| == |written| + 4
  {
    PutWord(written, x, 4)
  }

  function PutU64(written: seq<byte>, x: u64): (w: seq<byte>)
    ensures |w| == |written| + 8
  {
    PutWord(written, x, 8)
  }

  // A word as the host keeps it.
  function PutHost32(host: Endian, written: seq<byte>, x: u32): (w: seq<byte>)
    ensures |w| == |written| + 4
  {
    PutBytes(written, Image(host, x, 4))
  }

  function Pad(written: seq<byte>, n: nat): (w: seq<byte>)
    ensures |w| == |written| + n
  {
    PutBytes(written, seq(n, _ => 0))
  }

  // ---------------------------------------------------------------------
  // Reading: a value, and where the next field starts.

  datatype Got<+T> = Got(value: T, next: nat)

  // The n elements of bs from pos on.
  function Window(bs: seq<byte>, n: nat, pos: nat): (r: seq<byte>)
    requires pos + n <= |bs|
    ensures |r| == n
  {
    if n == 0 then [] else Window(bs, n - 1, pos) + [bs[pos + n - 1]]
  }

  lemma {:induction false} WindowIsSlice(bs: seq<byte>, n: nat, pos: nat)
    requires pos + n <= |bs|
    ensures Window(bs, n, pos) == bs[pos..pos + n]
  {
    if n > 0 {
      WindowIsSlice(bs, n - 1, pos);
    }
  }

  function ReadBytes(bs: seq<byte>, pos: nat, n: nat): (r: Option<Got<seq<byte>>>)
    ensures r.Some? ==> |r.value.value| == n && r.value.next == pos + n <= |bs|
  {
    if pos + n <= |bs| then Some(Got(Window(bs, n, pos), pos + n)) else None
  }

  function ReadU8(bs: seq<byte>, pos: nat): (r: Option<Got<byte>>)
    ensures r.Some? ==> r.value.next == pos + 1 <= |bs|
  {
    if pos < |bs| then Some(Got(bs[pos], pos + 1)) else None
  }

  function ReadWord(bs: seq<byte>, pos: nat, width: nat): (r: Option<Got<nat>>)
    ensures r.Some? ==> r.value.next == pos + width <= |bs| && r.value.value < Pow256(width)
  {
    var w :- ReadBytes(bs, pos, width);
    FromBigEndianRoundTrip(w.value);
    Some(Got(FromBigEndian(w.value), w.next))
  }

  lemma WordSizes()
    ensures Pow256(2) == 0x1_0000 && Pow256(4) == 0x1_0000_0000 && Pow256(8) == 0x1_0000_0000_0000_0000
  {
  }

  function ReadU16(bs: seq<byte>, pos: nat): (r: Option<Got<u16>>)
    ensures r.Some? ==> r.value.next == pos + 2 <= |bs|
  {
    WordSizes();
    ReadWord(bs, pos, 2)
  }

  function ReadU32(bs: seq<byte>, pos: nat): (r: Option<Got<u32>>)
    ensures r.Some? ==> r.value.next == pos + 4 <= |bs|
  {
    WordSizes();
    ReadWord(bs, pos, 4)
  }

  function ReadU64(bs: seq<byte>, pos: nat): (r: Option<Got<u64>>)
    ensures r.Some? ==> r.value.next == pos + 8 <= |bs|
  {
    WordSizes();
    ReadWord(bs, pos, 8)
  }

  function ReadHost32(host: Endian, bs: seq<byte>, pos: nat): (r: Option<Got<u32>>)
    ensures r.Some? ==> r.value.next == pos + 4 <= |bs|
  {
    var w :- ReadBytes(bs, pos, 4);
    WordSizes();
    FromBigEndianRoundTrip(w.value);
    FromLittleEndianRoundTrip(w.value);
    Some(Got(FromImage(host, w.value), w.next))
  }

  // count records, one behind the other.
  function ReadMany<T>(read: (seq<byte>, nat) -> Option<Got<T>>, bs: seq<byte>, pos: nat, count: nat)
    : (r: Option<Got<seq<T>>>)
    ensures r.Some? ==> |r.value.value| == count
    decreases count
  {
    if count == 0 then Some(Got([], pos))
    else
      var head :- read(bs, pos);
      var tail :- ReadMany(read, bs, head.next, count - 1);
      Some(Got([head.value] + tail.value, tail.next))
  }

  // A read or a skip whose result is ignored: the cursor stays where it is
  // when the bytes are missing.
  function Skipped(bs: seq<byte>, pos: nat, n: nat): (next: nat)
    ensures next >= pos
  {
    if pos + n <= |bs| then pos + n else pos
  }

  // ---------------------------------------------------------------------
  // What was put is read back, from any bytes that start with it.

  // bs starts with w: their elements agree from i up to the end of w.
  predicate Starts(w: seq<byte>, bs: seq<byte>, i: nat := 0)
    requires i <= |w|
    decreases |w| - i
  {
    |w| <= |bs| && (i == |w| || (w[i] == bs[i] && Starts(w, bs, i + 1)))
  }

  lemma {:induction false} StartsIsPrefix(w: seq<byte>, bs: seq<byte>, i: nat := 0)
    requires i <= |w|
    ensures Starts(w, bs, i) <==> |w| <= |bs| && w[i..] == bs[i..|w|]
    decreases |w| - i
  {
    if |w| <= |bs| && i < |w| {
      StartsIsPrefix(w, bs, i + 1);
      assert w[i..] == [w[i]] + w[i + 1..];
      assert bs[i..|w|] == [bs[i]] + bs[i + 1..|w|];
    }
  }

  lemma {:induction false} StartsWhole(w: seq<byte>, bs: seq<byte>)
    ensures Starts(w, bs) <==> |w| <= |bs| && bs[..|w|] == w
  {
    StartsIsPrefix(w, bs);
    assert w[0..] == w;
  }

  lemma {:induction false} Parts(a: seq<byte>, b: seq<byte>, bs: seq<byte>)
    requires |a| + |b| <= |bs| && bs[..|a| + |b|] == a + b
    ensures bs[..|a|] == a && bs[|a|..|a| + |b|] == b
  {
    assert bs[..|a|] == bs[..|a| + |b|][..|a|];
    assert bs[|a|..|a| + |b|] == bs[..|a| + |b|][|a|..];
  }

  lemma {:induction false} BytesThere(written: seq<byte>, x: seq<byte>, bs: seq<byte>)
    requires Starts(PutBytes(written, x), bs)
    ensures |written| + |x| <= |bs| && bs[|written|..|written| + |x|] == x && Starts(written, bs)
  {
    StartsWhole(PutBytes(written, x), bs);
    Parts(written, x, bs);
    StartsWhole(written, bs);
  }

  lemma {:induction false} BytesBack(written: seq<byte>, x: seq<byte>, bs: seq<byte>)
    requires Starts(PutBytes(written, x), bs)
    ensures ReadBytes(bs, |written|, |x|) == Some(Got(x, |PutBytes(written, x)|)) && Starts(written, bs)
  {
    BytesThere(written, x, bs);
    WindowIsSlice(bs, |x|, |written|);
  }

  lemma U8Back(written: seq<byte>, x: byte, bs: seq<byte>)
    requires Starts(PutU8(written, x), bs)
    ensures ReadU8(bs, |written|) == Some(Got(x, |PutU8(written, x)|)) && Starts(written, bs)
  {
    BytesBack(written, [x], bs);
    assert PutU8(written, x)[|written|] == x;
  }

  lemma WordBack(written: seq<byte>, x: nat, width: nat, bs: seq<byte>)
    requires x < Pow256(width) && Starts(PutWord(written, x, width), bs)
    ensures ReadWord(bs, |written|, width) == Some(Got(x, |PutWord(written, x, width)|)) && Starts(written, bs)
  {
    BytesBack(written, BigEndian(x, width), bs);
    BigEndianRoundTrip(x, width);
  }

  lemma U16Back(written: seq<byte>, x: u16, bs: seq<byte>)
    requires Starts(PutU16(written, x), bs)
    ensures ReadU16(bs, |written|) == Some(Got(x, |PutU16(written, x)|)) && Starts(written, bs)
  {
    WordSizes();
    WordBack(written, x, 2, bs);
  }

  lemma U32Back(written: seq<byte>, x: u32, bs: seq<byte>)
    requires Starts(PutU32(written, x), bs)
    ensures ReadU32(bs, |written|) == Some(Got(x, |PutU32(written, x)|)) && Starts(written, bs)
  {
    WordSizes();
    WordBack(written, x, 4, bs);
  }

  lemma U64Back(written: seq<byte>, x: u64, bs: seq<byte>)
    requires Starts(PutU64(written, x), bs)
    ensures ReadU64(bs, |written|) == Some(Got(x, |PutU64(written, x)|)) && Starts(written, bs)
  {
    WordSizes();
    WordBack(written, x, 8, bs);
  }

  lemma Host32Back(host: Endian, written: seq<byte>, x: u32, bs: seq<byte>)
    requires Starts(PutHost32(host, written, x), bs)
    ensures ReadHost32(host, bs, |written|) == Some(Got(x, |PutHost32(host, written, x)|)) && Starts(written, bs)
  {
    WordSizes();
    BytesBack(written, Image(host, x, 4), bs);
    ImageRoundTrip(host, x, 4);
  }

  lemma PadBack(written: seq<byte>, n: nat, bs: seq<byte>)
    requires Starts(Pad(written, n), bs)
    ensures Skipped(bs, |written|, n) == |Pad(written, n)| && Starts(written, bs)
  {
    BytesBack(written, seq(n, _ => 0), bs);
  }

  // ---------------------------------------------------------------------
  // Runs of records

  lemma {:induction false} ManyStep<T>(read: (seq<byte>, nat) -> Option<Got<T>>, bs: seq<byte>, pos: nat, mid: nat,
                                       next: nat, xs: seq<T>)
    requires xs != [] && read(bs, pos) == Some(Got(xs[0], mid))
    requires ReadMany(read, bs, mid, |xs[1..]|) == Some(Got(xs[1..], next))
    ensures ReadMany(read, bs, pos, |xs|) == Some(Got(xs, next))
  {
    assert xs == [xs[0]] + xs[1..];
  }

  // A run is read when one more record is read behind those read so far ...
  lemma {:induction false} ManySnoc<T>(read: (seq<byte>, nat) -> Option<Got<T>>, bs: seq<byte>, pos: nat, n: nat,
                                       items: seq<T>, mid: nat)
    requires ReadMany(read, bs, pos, n) == Some(Got(items, mid))
    ensures read(bs, mid).Some? ==>
              ReadMany(read, bs, pos, n + 1)
              == Some(Got(items + [read(bs, mid).value.value], read(bs, mid).value.next))
    decreases n
  {
    if n > 0 {
      ManySnoc(read, bs, read(bs, pos).value.next, n - 1, items[1..], mid);
      if read(bs, mid).Some? {
        var x := read(bs, mid).value.value;
        assert items + [x] == [items[0]] + (items[1..] + [x]);
      }
    } else if read(bs, mid).Some? {
      assert items + [read(bs, mid).value.value] == [read(bs, mid).value.value] + [];
    }
  }

  // ... and is not when that one is missing.
  lemma {:induction false} ManyCut<T>(read: (seq<byte>, nat) -> Option<Got<T>>, bs: seq<byte>, pos: nat, n: nat,
                                      count: nat)
    requires n < count && ReadMany(read, bs, pos, n).Some? && read(bs, ReadMany(read, bs, pos, n).value.next) == None
    ensures ReadMany(read, bs, pos, count) == None
    decreases n
  {
    if n > 0 {
      ManyCut(read, bs, read(bs, pos).value.next, n - 1, count - 1);
    }
  }

  // Records of one size
  lemma {:induction false} ManyEnd<T>(read: (seq<byte>, nat) -> Option<Got<T>>, bs: seq<byte>, pos: nat, count: nat,
                                      size: nat)
    requires forall p: nat :: read(bs, p).Some? ==> read(bs, p).value.next == p + size <= |bs|
    ensures var r := ReadMany(read, bs, pos, count);
            r.Some? ==> r.value.next == pos + size * count && (count > 0 ==> r.value.next <= |bs|)
    decreases count
  {
    if count > 0 && read(bs, pos).Some? {
      ManyEnd(read, bs, pos + size, count - 1, size);
      assert pos + size + size * (count - 1) == pos + size * count;
    }
  }

  predicate All<T>(p: T -> bool, xs: seq<T>) {
    xs == [] || (p(xs[0]) && All(p, xs[1..]))
  }

  // What every record satisfies, all of them do.
  lemma {:induction false} ManyAll<T>(read: (seq<byte>, nat) -> Option<Got<T>>, p: T -> bool, bs: seq<byte>, pos: nat,
                                      count: nat)
    requires forall i: nat :: read(bs, i).Some? ==> p(read(bs, i).value.value)
    ensures ReadMany(read, bs, pos, count).Some? ==> All(p, ReadMany(read, bs, pos, count).value.value)
    decreases count
  {
    if count > 0 && read(bs, pos).Some? {
      ManyAll(read, p, bs, read(bs, pos).value.next, count - 1);
    }
  }
}
