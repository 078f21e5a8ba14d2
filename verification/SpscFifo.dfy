// First in, first out, byte for byte: what pushing and popping whole records
// does to the sequence of unread records.

module SpscFifo {
  import opened Bytes
  import opened Bits
  import opened Wrappers
  import opened RingArithmetic
  import opened SpscRing

  // ---------------------------------------------------------------------
  // The layout looks only at the bytes between its two indices.

  // The byte at index i of the endless tape that the ring is a window on.
  function ByteAt(buf: seq<byte>, cap: nat, i: nat): byte
    requires cap > 0 && |buf| == cap
  {
    buf[i % cap]
  }

  ghost predicate SameBetween(cap: nat, buf: seq<byte>, buf': seq<byte>, r: nat, w: nat)
    requires cap > 0 && |buf| == |buf'| == cap
  {
    forall i: nat :: r <= i < w ==> ByteAt(buf', cap, i) == ByteAt(buf, cap, i)
  }

  // The n bytes at position base % cap, which do not wrap, are the n bytes of
  // the tape from index base.
  lemma SliceUnchanged(cap: nat, buf: seq<byte>, buf': seq<byte>, r: nat, w: nat, base: nat, n: nat)
    requires cap > 0 && |buf| == |buf'| == cap
    requires SameBetween(cap, buf, buf', r, w)
    requires r <= base && base + n <= w && base % cap + n <= cap
    ensures buf'[base % cap..base % cap + n] == buf[base % cap..base % cap + n]
  {
    var m := base % cap;
    forall j | m <= j < m + n ensures buf'[j] == buf[j] {
      PositionForward(base, j - m, cap);
      assert ByteAt(buf', cap, base + (j - m)) == ByteAt(buf, cap, base + (j - m));
    }
  }

  lemma RecordUnchanged(cap: nat, buf: seq<byte>, buf': seq<byte>, r: nat, w: nat, base: nat, p: seq<byte>)
    requires cap > 0 && |buf| == |buf'| == cap
    requires SameBetween(cap, buf, buf', r, w)
    requires r <= base && base + HEADER + |p| <= w
    requires RecordAt(buf, base % cap, p)
    ensures RecordAt(buf', base % cap, p)
  {
    var m := base % cap;
    SliceUnchanged(cap, buf, buf', r, w, base, HEADER);
    PositionForward(base, HEADER, cap);
    if |p| > 0 {
      SliceUnchanged(cap, buf, buf', r, w, base + HEADER, |p|);
    }
  }

  // The start of the lap after index r, where a padded record lies.
  lemma NextLap(r: nat, cap: nat)
    requires cap > 0
    ensures (r + (cap - r % cap)) % cap == 0
  {
    PositionForward(r, cap - r % cap, cap);
  }

  lemma {:induction false} HoldsOrder(cap: nat, line: nat, buf: seq<byte>, r: nat, w: nat,
                                      c: seq<seq<byte>>, pads: bool)
    requires cap > 0 && line > 0 && IsPow2(line)
    requires Holds(cap, line, buf, r, w, c, pads)
    ensures r <= w
    decreases |c|
  {
    if c != [] {
      var padded, base, next := HoldsFirst(cap, line, buf, r, w, c, pads);
      HoldsOrder(cap, line, buf, next, w, c[1..], pads);
    }
  }

  // The first unread record: whether a pad precedes it, the tape index of its
  // header, and the index after it.
  lemma HoldsFirst(cap: nat, line: nat, buf: seq<byte>, r: nat, w: nat, c: seq<seq<byte>>, pads: bool)
    returns (padded: bool, base: nat, next: nat)
    requires cap > 0 && line > 0 && IsPow2(line)
    requires Holds(cap, line, buf, r, w, c, pads) && c != []
    ensures |c[0]| > 0
    ensures r <= base && base + HEADER + |c[0]| <= next
    ensures RecordAt(buf, base % cap, c[0])
    ensures Holds(cap, line, buf, next, w, c[1..], pads)
    ensures !padded ==> base == r && next == After(r, |c[0]|, line)
    ensures padded ==>
              && pads
              && PadAt(cap, buf, r, |c[0]|)
              && base == r + (cap - r % cap) && base % cap == 0
              && r + HEADER <= next
              && next == After(PadEnd(r, cap), |c[0]|, line)
  {
    var p := c[0];
    var plain := After(r, |p|, line);
    if RecordAt(buf, r % cap, p) && Holds(cap, line, buf, plain, w, c[1..], pads) {
      padded, base, next := false, r, plain;
      RoundUpBounds(r + |p| + HEADER, line);
    } else {
      padded, base, next := true, r + (cap - r % cap), After(PadEnd(r, cap), |p|, line);
      RoundUpBounds(PadEnd(r, cap) + |p| + HEADER, line);
      NextLap(r, cap);
    }
  }

  lemma {:induction false} HoldsFrame(cap: nat, line: nat, buf: seq<byte>, buf': seq<byte>, r: nat, w: nat,
                                      c: seq<seq<byte>>, pads: bool)
    requires cap > 0 && line > 0 && IsPow2(line) && |buf| == |buf'| == cap
    requires SameBetween(cap, buf, buf', r, w)
    requires Holds(cap, line, buf, r, w, c, pads)
    ensures Holds(cap, line, buf', r, w, c, pads)
    decreases |c|
  {
    if c != [] {
      var padded, next := FirstFrame(cap, line, buf, buf', r, w, c, pads);
      HoldsFrame(cap, line, buf, buf', next, w, c[1..], pads);
      HoldsCons(cap, line, buf', r, w, c, pads, padded, next);
    }
  }

  lemma FirstFrame(cap: nat, line: nat, buf: seq<byte>, buf': seq<byte>, r: nat, w: nat, c: seq<seq<byte>>, pads: bool)
    returns (padded: bool, next: nat)
    requires cap > 0 && line > 0 && IsPow2(line) && |buf| == |buf'| == cap
    requires SameBetween(cap, buf, buf', r, w)
    requires Holds(cap, line, buf, r, w, c, pads) && c != []
    ensures |c[0]| > 0 && Holds(cap, line, buf, next, w, c[1..], pads) && SameBetween(cap, buf, buf', next, w)
    ensures if padded then pads && PadAt(cap, buf', r, |c[0]|) && RecordAt(buf', 0, c[0])
                           && next == After(PadEnd(r, cap), |c[0]|, line)
            else RecordAt(buf', r % cap, c[0]) && next == After(r, |c[0]|, line)
  {
    var base;
    padded, base, next := HoldsFirst(cap, line, buf, r, w, c, pads);
    HoldsOrder(cap, line, buf, next, w, c[1..], pads);
    RecordUnchanged(cap, buf, buf', r, w, base, c[0]);
    if padded {
      SliceUnchanged(cap, buf, buf', r, w, r, HEADER);
    }
  }

  lemma HoldsCons(cap: nat, line: nat, buf: seq<byte>, r: nat, w: nat, c: seq<seq<byte>>, pads: bool,
                  padded: bool, next: nat)
    requires cap > 0 && line > 0
    requires c != [] && |c[0]| > 0
    requires Holds(cap, line, buf, next, w, c[1..], pads)
    requires if padded then pads && PadAt(cap, buf, r, |c[0]|) && RecordAt(buf, 0, c[0])
                            && next == After(PadEnd(r, cap), |c[0]|, line)
             else RecordAt(buf, r % cap, c[0]) && next == After(r, |c[0]|, line)
    ensures Holds(cap, line, buf, r, w, c, pads)
  {
  }

  // A record written at the end of the layout extends it.
  lemma {:induction false} HoldsAppend(cap: nat, line: nat, buf: seq<byte>, r: nat, w: nat, w': nat,
                                       c: seq<seq<byte>>, p: seq<byte>, pads: bool)
    requires cap > 0 && line > 0
    requires Holds(cap, line, buf, r, w, c, pads)
    requires Holds(cap, line, buf, w, w', [p], pads)
    ensures Holds(cap, line, buf, r, w', c + [p], pads)
    decreases |c|
  {
    if c == [] {
      assert c + [p] == [p];
    } else {
      assert (c + [p])[1..] == c[1..] + [p];
      var plain := After(r, |c[0]|, line);
      var padded := After(PadEnd(r, cap), |c[0]|, line);
      if RecordAt(buf, r % cap, c[0]) && Holds(cap, line, buf, plain, w, c[1..], pads) {
        HoldsAppend(cap, line, buf, plain, w, w', c[1..], p, pads);
      } else {
        HoldsAppend(cap, line, buf, padded, w, w', c[1..], p, pads);
      }
    }
  }

  // ---------------------------------------------------------------------
  // Writing beyond the unread records leaves them alone.

  // Bytes at tape indices [base, base+n) lie outside [r, w) when the two
  // ranges together span at most one lap.
  lemma PatchBeyond(cap: nat, buf: seq<byte>, r: nat, w: nat, base: nat, bs: seq<byte>)
    requires cap > 0 && |buf| == cap
    requires r <= w <= base && base + |bs| <= r + cap
    requires base % cap + |bs| <= cap
    ensures SameBetween(cap, buf, Patch(buf, base % cap, bs), r, w)
  {
    var buf' := Patch(buf, base % cap, bs);
    forall i: nat | r <= i < w ensures ByteAt(buf', cap, i) == ByteAt(buf, cap, i) {
      var m := i % cap;
      if base % cap <= m < base % cap + |bs| {
        // the patched byte at position m sits at an index between i and i + cap
        var k := m - base % cap;
        PositionForward(base, k, cap);
        SamePosition(i, base + k, cap);
        assert false;
      }
    }
  }

  // Two indices less than a lap apart have different positions.
  lemma SamePosition(i: nat, j: nat, cap: nat)
    requires cap > 0 && i <= j < i + cap && i % cap == j % cap
    ensures i == j
  {
    assert cap * (j / cap - i / cap) == j - i;
    SmallMultiple(cap, j / cap - i / cap);
  }

  // The bytes of a padded write stay clear of every unread record, and of the
  // pad marker itself, when this holds.
  predicate PadFits(q: Ring, n: nat)
    requires q.cap > 0 && q.read <= q.write
  {
    q.write - q.read + HEADER + n <= q.write % q.cap
  }

  lemma AtRestCanAcquire(q: Ring)
    requires q.AtRest()
    ensures q.CanAcquireWrite() && q.CanAcquireRead()
    ensures q.write % q.cap % q.line == 0 && q.read % q.cap % q.line == 0
    ensures q.write % q.cap + q.line <= q.cap && q.read % q.cap + q.line <= q.cap
  {
    AlignedPosition(q.write, q.cap, q.line);
    AlignedPosition(q.read, q.cap, q.line);
  }

  // The buffer after a write of p that does not pad.
  function PlainWrite(q: Ring, p: seq<byte>): (buf: seq<byte>)
    requires q.CanAcquireWrite() && !q.Pads(|p|)
    ensures |buf| == q.cap
  {
    var m := q.write % q.cap;
    Patch(Patch(q.buf, m, Header(|p|, false)), m + HEADER, p)
  }

  lemma PushPlainIs(q: Ring, p: seq<byte>)
    requires q.CanAcquireWrite()
    requires |p| > 0 && q.HasRoom(|p|) && !q.Pads(|p|)
    ensures Push(q, p) == (Accepted, q.(buf := PlainWrite(q, p), write := After(q.write, |p|, q.line)))
  {
  }

  lemma PlainWriteLayout(q: Ring, p: seq<byte>)
    requires q.CanAcquireWrite() && !q.Pads(|p|)
    ensures RecordAt(PlainWrite(q, p), q.write % q.cap, p)
  {
    var m := q.write % q.cap;
    assert PlainWrite(q, p)[m..m + HEADER] == Header(|p|, false);
  }

  lemma PlainWriteFrame(q: Ring, p: seq<byte>)
    requires q.CanAcquireWrite() && !q.Pads(|p|) && q.HasRoom(|p|)
    ensures SameBetween(q.cap, q.buf, PlainWrite(q, p), q.read, q.write)
  {
    var h := Header(|p|, false);
    var buf1 := Patch(q.buf, q.write % q.cap, h);
    PatchBeyond(q.cap, q.buf, q.read, q.write, q.write, h);
    PositionForward(q.write, HEADER, q.cap);
    if |p| > 0 {
      PatchBeyond(q.cap, buf1, q.read, q.write, q.write + HEADER, p);
    }
    forall i: nat | q.read <= i < q.write
      ensures ByteAt(PlainWrite(q, p), q.cap, i) == ByteAt(q.buf, q.cap, i)
    {
      assert ByteAt(buf1, q.cap, i) == ByteAt(q.buf, q.cap, i);
    }
  }

  // A push that does not pad appends its payload to the unread records.
  lemma PushPlain(q: Ring, c: seq<seq<byte>>, p: seq<byte>, pads: bool)
    requires Contains(q, c, pads)
    requires |p| > 0 && q.HasRoom(|p|) && !q.Pads(|p|)
    ensures q.CanAcquireWrite()
    ensures Push(q, p).0 == Accepted
    ensures Contains(Push(q, p).1, c + [p], pads)
    ensures Push(q, p).1.read == q.read
    ensures Push(q, p).1.write == After(q.write, |p|, q.line)
  {
    AtRestCanAcquire(q);
    PushPlainIs(q, p);
    PlainWriteFrame(q, p);
    PlainWriteLayout(q, p);
    var buf := PlainWrite(q, p);
    HoldsFrame(q.cap, q.line, q.buf, buf, q.read, q.write, c, pads);
    var w' := After(q.write, |p|, q.line);
    RoundUpBounds(q.write + |p| + HEADER, q.line);
    HoldsOne(q.cap, q.line, buf, q.write, w', p, pads);
    HoldsAppend(q.cap, q.line, buf, q.read, q.write, w', c, p, pads);
  }

  lemma HoldsOne(cap: nat, line: nat, buf: seq<byte>, w: nat, w': nat, p: seq<byte>, pads: bool)
    requires cap > 0 && line > 0 && |p| > 0
    requires || (RecordAt(buf, w % cap, p) && w' == After(w, |p|, line))
             || (pads && PadAt(cap, buf, w, |p|) && RecordAt(buf, 0, p) && w' == After(PadEnd(w, cap), |p|, line))
    ensures Holds(cap, line, buf, w, w', [p], pads)
  {
    assert [p] == [p] + [];
    assert Holds(cap, line, buf, w', w', [], pads);
  }

  // The buffer after a padded write of p: the pad marker at m, the record at 0.
  function PaddedWrite(q: Ring, p: seq<byte>): (buf: seq<byte>)
    requires q.CanAcquireWrite() && HEADER + |p| <= q.cap
    ensures |buf| == q.cap
  {
    var m := q.write % q.cap;
    var buf1 := Patch(q.buf, m, Header(q.cap - m + HEADER, true));
    Patch(Patch(buf1, 0, Header(|p|, false)), HEADER, p)
  }

  lemma PushPaddedIs(q: Ring, p: seq<byte>)
    requires q.CanAcquireWrite()
    requires |p| > 0 && q.HasRoom(|p|) && q.Pads(|p|)
    ensures Push(q, p) == (Accepted, q.(buf := PaddedWrite(q, p),
                                        write := After(PadEnd(q.write, q.cap), |p|, q.line)))
  {
  }

  // The padded write lays out one pad marker and one record ...
  lemma PaddedWriteLayout(q: Ring, p: seq<byte>)
    requires q.CanAcquireWrite() && HEADER + |p| <= q.write % q.cap
    ensures PadAt(q.cap, PaddedWrite(q, p), q.write, |p|)
    ensures RecordAt(PaddedWrite(q, p), 0, p)
  {
    var m := q.write % q.cap;
    var buf := PaddedWrite(q, p);
    var pad := Header(q.cap - m + HEADER, true);
    assert buf[m..m + HEADER] == pad;
    assert buf[..HEADER] == Header(|p|, false);
  }

  lemma SameThrough(cap: nat, a: seq<byte>, b: seq<byte>, c: seq<byte>, r: nat, w: nat)
    requires cap > 0 && |a| == |b| == |c| == cap
    requires SameBetween(cap, a, b, r, w) && SameBetween(cap, b, c, r, w)
    ensures SameBetween(cap, a, c, r, w)
  {
    forall i: nat | r <= i < w ensures ByteAt(c, cap, i) == ByteAt(a, cap, i) {
      assert ByteAt(b, cap, i) == ByteAt(a, cap, i);
    }
  }

  // ... and touches no unread byte.
  lemma PaddedWriteFrame(q: Ring, p: seq<byte>)
    requires q.CanAcquireWrite() && PadFits(q, |p|)
    ensures SameBetween(q.cap, q.buf, PaddedWrite(q, p), q.read, q.write)
  {
    var m := q.write % q.cap;
    var lap := q.write + (q.cap - m);
    NextLap(q.write, q.cap);
    var pad := Header(q.cap - m + HEADER, true);
    var buf1 := Patch(q.buf, m, pad);
    PatchBeyond(q.cap, q.buf, q.read, q.write, q.write, pad);
    var h := Header(|p|, false);
    var buf2 := Patch(buf1, 0, h);
    PatchBeyond(q.cap, buf1, q.read, q.write, lap, h);
    PositionForward(lap, HEADER, q.cap);
    PatchBeyond(q.cap, buf2, q.read, q.write, lap + HEADER, p);
    SameThrough(q.cap, q.buf, buf1, buf2, q.read, q.write);
    SameThrough(q.cap, q.buf, buf2, PaddedWrite(q, p), q.read, q.write);
  }

  // A push that pads does so too when the pad fits.
  lemma PushPadded(q: Ring, c: seq<seq<byte>>, p: seq<byte>)
    requires Contains(q, c, true)
    requires |p| > 0 && q.HasRoom(|p|) && q.Pads(|p|)
    requires PadFits(q, |p|)
    ensures q.CanAcquireWrite()
    ensures Push(q, p).0 == Accepted
    ensures Contains(Push(q, p).1, c + [p], true)
    ensures Push(q, p).1.read == q.read
    ensures Push(q, p).1.write == After(PadEnd(q.write, q.cap), |p|, q.line)
  {
    AtRestCanAcquire(q);
    PushPaddedIs(q, p);
    PaddedWriteFrame(q, p);
    PaddedWriteLayout(q, p);
    var buf := PaddedWrite(q, p);
    HoldsFrame(q.cap, q.line, q.buf, buf, q.read, q.write, c, true);
    var w' := After(PadEnd(q.write, q.cap), |p|, q.line);
    RoundUpBounds(PadEnd(q.write, q.cap) + |p| + HEADER, q.line);
    HoldsOne(q.cap, q.line, buf, q.write, w', p, true);
    HoldsAppend(q.cap, q.line, buf, q.read, q.write, w', c, p, true);
  }

  // Every accepted push appends its payload, provided its pad fits.
  lemma PushAppends(q: Ring, c: seq<seq<byte>>, p: seq<byte>)
    requires Contains(q, c, true)
    requires |p| > 0 && q.HasRoom(|p|) && (q.Pads(|p|) ==> PadFits(q, |p|))
    ensures q.CanAcquireWrite()
    ensures Push(q, p).0 == Accepted
    ensures Contains(Push(q, p).1, c + [p], true)
    ensures Push(q, p).1.read == q.read
  {
    if q.Pads(|p|) {
      PushPadded(q, c, p);
    } else {
      PushPlain(q, c, p, true);
    }
  }

  // ---------------------------------------------------------------------
  // Popping

  lemma PopPlain(q: Ring, p: seq<byte>)
    requires q.CanAcquireRead() && q.cap <= MAX_SIZE && q.read < q.write
    requires |p| > 0 && RecordAt(q.buf, q.read % q.cap, p)
    ensures Pop(q) == (Accepted, q.(read := After(q.read, |p|, q.line)), Some(p))
  {
    HeaderRoundTrip(|p|, false);
  }

  lemma PopPadded(q: Ring, p: seq<byte>)
    requires q.CanAcquireRead() && q.cap <= MAX_SIZE && q.read < q.write
    requires |p| > 0 && PadAt(q.cap, q.buf, q.read, |p|) && RecordAt(q.buf, 0, p)
    ensures Pop(q) == (Accepted, q.(read := After(PadEnd(q.read, q.cap), |p|, q.line)), Some(p))
  {
    HeaderRoundTrip(q.cap - q.read % q.cap + HEADER, true);
    HeaderRoundTrip(|p|, false);
    assert q.buf[..HEADER] == Header(|p|, false);
  }

  // A pop returns the oldest unread payload and nothing else changes. (That
  // the reader's index then is the one the writer had after committing that
  // payload is SpscIndices' subject.)
  lemma PopHead(q: Ring, c: seq<seq<byte>>, pads: bool)
    requires Contains(q, c, pads)
    ensures q.CanAcquireRead()
    ensures c == [] ==> Pop(q) == (Empty, q, None)
    ensures c != [] ==>
              && Pop(q).0 == Accepted
              && Pop(q).2 == Some(c[0])
              && Pop(q).1 == q.(read := Pop(q).1.read)
              && Contains(Pop(q).1, c[1..], pads)
  {
    AtRestCanAcquire(q);
    if c != [] {
      var padded, base, next := HoldsFirst(q.cap, q.line, q.buf, q.read, q.write, c, pads);
      HoldsOrder(q.cap, q.line, q.buf, next, q.write, c[1..], pads);
      ContainsRest(q, c, pads, padded, next);
      if padded {
        PopPadded(q, c[0]);
      } else {
        PopPlain(q, c[0]);
      }
    }
  }

  lemma ContainsRest(q: Ring, c: seq<seq<byte>>, pads: bool, padded: bool, next: nat)
    requires Contains(q, c, pads) && c != [] && q.read <= next <= q.write
    requires Holds(q.cap, q.line, q.buf, next, q.write, c[1..], pads)
    requires next == After(if padded then PadEnd(q.read, q.cap) else q.read, |c[0]|, q.line)
    ensures Contains(q.(read := next), c[1..], pads)
  {
    RoundUpBounds((if padded then PadEnd(q.read, q.cap) else q.read) + |c[0]| + HEADER, q.line);
  }

  lemma AlignedPositive(m: nat, line: nat)
    requires line >= 16 && m % line == 0 && m > 0
    ensures m >= 16
  {
    MultiplesBelow(0, m, line);
  }
}
