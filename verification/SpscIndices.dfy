// The reader's index follows the writer's: after the n-th record, pad skip and
// rounding included, it is what the writer's was after committing that record.

module SpscIndices {
  import opened Bytes
  import opened Bits
  import opened Wrappers
  import opened RingArithmetic
  import opened SpscRing
  import opened SpscFifo
  import opened SpscRuns

  // Whether a reader at position at finds a pad marker there.
  predicate PaddedAt(buf: seq<byte>, at: nat) {
    at + HEADER <= |buf| && HeaderPadded(buf[at..at + HEADER])
  }

  // The index after each of the records c, the first of which starts at r.
  function Ends(cap: nat, line: nat, buf: seq<byte>, r: nat, c: seq<seq<byte>>): (ends: seq<nat>)
    requires cap > 0 && line > 0
    ensures |ends| == |c|
    decreases |c|
  {
    if c == [] then []
    else
      var next := After(if PaddedAt(buf, r % cap) then PadEnd(r, cap) else r, |c[0]|, line);
      [next] + Ends(cap, line, buf, next, c[1..])
  }

  // The first record as HoldsFirst finds it is the one a reader would find.
  lemma EndsFirst(cap: nat, line: nat, buf: seq<byte>, r: nat, w: nat, c: seq<seq<byte>>, pads: bool)
    returns (padded: bool, base: nat, next: nat)
    requires 0 < cap <= MAX_SIZE && |buf| == cap && line > 0 && IsPow2(line)
    requires Holds(cap, line, buf, r, w, c, pads) && c != []
    ensures padded == PaddedAt(buf, r % cap)
    ensures next == After(if padded then PadEnd(r, cap) else r, |c[0]|, line)
    ensures Holds(cap, line, buf, next, w, c[1..], pads)
    ensures |c[0]| > 0 && r <= base && base + HEADER + |c[0]| <= next <= w && r + HEADER <= next
    ensures if padded then PadAt(cap, buf, r, |c[0]|) && RecordAt(buf, 0, c[0]) else RecordAt(buf, r % cap, c[0])
  {
    padded, base, next := HoldsFirst(cap, line, buf, r, w, c, pads);
    HoldsOrder(cap, line, buf, next, w, c[1..], pads);
    if padded {
      HeaderRoundTrip(cap - r % cap + HEADER, true);
    } else {
      HeaderRoundTrip(|c[0]|, false);
    }
  }

  // Bytes beyond the unread records do not matter,
  lemma {:induction false} EndsFrame(cap: nat, line: nat, buf: seq<byte>, buf': seq<byte>, r: nat, w: nat,
                                     c: seq<seq<byte>>, pads: bool)
    requires 0 < cap <= MAX_SIZE && |buf| == |buf'| == cap && line > 0 && IsPow2(line)
    requires SameBetween(cap, buf, buf', r, w) && Holds(cap, line, buf, r, w, c, pads)
    ensures Ends(cap, line, buf', r, c) == Ends(cap, line, buf, r, c)
    decreases |c|
  {
    if c != [] {
      var padded, base, next := EndsFirst(cap, line, buf, r, w, c, pads);
      SliceUnchanged(cap, buf, buf', r, w, r, HEADER);
      EndsFrame(cap, line, buf, buf', next, w, c[1..], pads);
    }
  }

  // and a record at their end comes last.
  lemma {:induction false} EndsAppend(cap: nat, line: nat, buf: seq<byte>, r: nat, w: nat, c: seq<seq<byte>>,
                                      p: seq<byte>, pads: bool)
    requires 0 < cap <= MAX_SIZE && |buf| == cap && line > 0 && IsPow2(line)
    requires Holds(cap, line, buf, r, w, c, pads)
    ensures Ends(cap, line, buf, r, c + [p]) == Ends(cap, line, buf, r, c) + Ends(cap, line, buf, w, [p])
    decreases |c|
  {
    if c == [] {
      assert c + [p] == [p];
    } else {
      var padded, base, next := EndsFirst(cap, line, buf, r, w, c, pads);
      EndsAppend(cap, line, buf, next, w, c[1..], p, pads);
      assert (c + [p])[1..] == c[1..] + [p];
    }
  }

  ghost function RingEnds(q: Ring, c: seq<seq<byte>>): (ends: seq<nat>)
    requires q.AtRest()
    ensures |ends| == |c|
  {
    Ends(q.cap, q.line, q.buf, q.read, c)
  }

  lemma LastEnd(cap: nat, line: nat, buf: seq<byte>, w: nat, p: seq<byte>, padded: bool)
    requires 0 < cap <= MAX_SIZE && |buf| == cap && line > 0 && w % cap + HEADER <= cap && |p| > 0
    requires if padded then PadAt(cap, buf, w, |p|) else RecordAt(buf, w % cap, p)
    ensures Ends(cap, line, buf, w, [p]) == [After(if padded then PadEnd(w, cap) else w, |p|, line)]
  {
    if padded {
      HeaderRoundTrip(cap - w % cap + HEADER, true);
    } else {
      HeaderRoundTrip(|p|, false);
    }
  }

  // A write beyond the unread records, of a record that is read back there.
  lemma WriteEnds(q: Ring, c: seq<seq<byte>>, p: seq<byte>, buf: seq<byte>, padded: bool)
    requires Contains(q, c, true) && |buf| == q.cap && q.write % q.cap + HEADER <= q.cap && |p| > 0
    requires SameBetween(q.cap, q.buf, buf, q.read, q.write)
    requires if padded then PadAt(q.cap, buf, q.write, |p|) else RecordAt(buf, q.write % q.cap, p)
    ensures Ends(q.cap, q.line, buf, q.read, c + [p])
            == RingEnds(q, c) + [After(if padded then PadEnd(q.write, q.cap) else q.write, |p|, q.line)]
  {
    HoldsFrame(q.cap, q.line, q.buf, buf, q.read, q.write, c, true);
    EndsFrame(q.cap, q.line, q.buf, buf, q.read, q.write, c, true);
    EndsAppend(q.cap, q.line, buf, q.read, q.write, c, p, true);
    LastEnd(q.cap, q.line, buf, q.write, p, padded);
  }

  lemma PushEnds(q: Ring, c: seq<seq<byte>>, p: seq<byte>)
    requires Contains(q, c, true)
    requires |p| > 0 && q.HasRoom(|p|) && (q.Pads(|p|) ==> PadFits(q, |p|))
    ensures q.CanAcquireWrite() && Push(q, p).1.AtRest()
    ensures RingEnds(Push(q, p).1, c + [p]) == RingEnds(q, c) + [Push(q, p).1.write]
  {
    AtRestCanAcquire(q);
    PushAppends(q, c, p);
    if q.Pads(|p|) {
      PushPaddedIs(q, p);
      PaddedWriteFrame(q, p);
      PaddedWriteLayout(q, p);
      WriteEnds(q, c, p, PaddedWrite(q, p), true);
    } else {
      PushPlainIs(q, p);
      PlainWriteFrame(q, p);
      PlainWriteLayout(q, p);
      WriteEnds(q, c, p, PlainWrite(q, p), false);
    }
  }

  lemma PopEnds(q: Ring, c: seq<seq<byte>>)
    requires Contains(q, c, true) && c != []
    ensures q.CanAcquireRead() && Pop(q).1.AtRest()
    ensures RingEnds(q, c) == [Pop(q).1.read] + RingEnds(Pop(q).1, c[1..])
  {
    PopHead(q, c, true);
    var padded, base, next := EndsFirst(q.cap, q.line, q.buf, q.read, q.write, c, true);
    if padded {
      PopPadded(q, c[0]);
    } else {
      PopPlain(q, c[0]);
    }
  }

  lemma StepEnds(q: Ring, c: seq<seq<byte>>, op: Op) returns (left: seq<seq<byte>>)
    requires Contains(q, c, true) && CanStep(q, op)
    requires op.PushOp? ==> Fits(q, op.payload)
    ensures Contains(Step(q, op).ring, left, true)
    ensures RingEnds(q, c) + Step(q, op).writeEnds == Step(q, op).readEnds + RingEnds(Step(q, op).ring, left)
  {
    match op
    case PushOp(p) =>
      if q.HasRoom(|p|) {
        left := c + [p];
        PushAppends(q, c, p);
        PushEnds(q, c, p);
      } else {
        left := c;
      }
    case PopOp =>
      PopHead(q, c, true);
      if c == [] {
        left := c;
      } else {
        left := c[1..];
        PopEnds(q, c);
      }
  }

  lemma {:induction false} RunEnds(q: Ring, c: seq<seq<byte>>, ops: seq<Op>) returns (left: seq<seq<byte>>)
    requires Contains(q, c, true) && Disciplined(q, ops)
    ensures Contains(Run(q, ops).ring, left, true)
    ensures RingEnds(q, c) + Run(q, ops).writeEnds == Run(q, ops).readEnds + RingEnds(Run(q, ops).ring, left)
    decreases |ops|
  {
    if ops == [] {
      left := c;
    } else {
      var first := Step(q, ops[0]);
      var mid := StepEnds(q, c, ops[0]);
      left := RunEnds(first.ring, mid, ops[1..]);
      var rest := Run(first.ring, ops[1..]);
      Telescope(RingEnds(q, c), first.writeEnds, first.readEnds, RingEnds(first.ring, mid), rest.writeEnds,
                rest.readEnds, RingEnds(rest.ring, left));
    }
  }

  // Over every run from an empty ring the read indices after the records
  // delivered are, one by one, the write indices after the records accepted.
  lemma ReaderFollowsWriter(q: Ring, ops: seq<Op>)
    requires Contains(q, [], true) && Disciplined(q, ops)
    ensures var run := Run(q, ops);
            && |run.writeEnds| == |run.accepted| && |run.readEnds| == |run.delivered|
            && run.readEnds <= run.writeEnds
  {
    var left := RunEnds(q, [], ops);
    var run := Run(q, ops);
    assert run.writeEnds == run.readEnds + RingEnds(run.ring, left);
    OneEach(q, ops);
  }

  lemma {:induction false} OneEach(q: Ring, ops: seq<Op>)
    requires Disciplined(q, ops)
    ensures |Run(q, ops).writeEnds| == |Run(q, ops).accepted| && |Run(q, ops).readEnds| == |Run(q, ops).delivered|
    decreases |ops|
  {
    if ops != [] {
      OneEach(Step(q, ops[0]).ring, ops[1..]);
    }
  }
}
