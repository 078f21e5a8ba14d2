// Messages of one fixed size: what SPSCMessageQueue adds to the ring.

module SpscMessages {
  import opened Bytes
  import opened Bits
  import opened Wrappers
  import opened RingArithmetic
  import opened SpscRing
  import opened SpscFifo
  import opened SpscRuns

  // ---------------------------------------------------------------------
  // Every pad of a fixed-size message fits.

  // The ring holds messages of n bytes, and the reader stands at the start of
  // a lap or at least one message into it.
  ghost predicate Messages(q: Ring, c: seq<seq<byte>>, n: nat) {
    && n > 0
    && Contains(q, c, true)
    && (forall p :: p in c ==> |p| == n)
    && Boundary(q.read, q.cap, n)
  }

  predicate Boundary(i: nat, cap: nat, n: nat)
    requires cap > 0
  {
    i % cap == 0 || i % cap >= n + HEADER
  }

  lemma AfterIsBoundary(i: nat, n: nat, cap: nat, line: nat)
    requires Geometry(cap, line) && i % cap + n + HEADER <= cap
    ensures Boundary(After(i, n, line), cap, n)
  {
    RoundUpWithin(i, n + HEADER, cap, line);
  }

  // Rounding up within a lap stays within the lap, or reaches the next one.
  lemma RoundUpWithin(i: nat, d: nat, cap: nat, line: nat)
    requires Geometry(cap, line) && i % cap + d <= cap
    ensures RoundUp(i + d, line) % cap == 0 || RoundUp(i + d, line) % cap >= i % cap + d
  {
    RoundUpBounds(i + d, line);
    LapIsAligned(i, cap, line);
    RoundUpLeast(i + d, line, i - i % cap + cap);
    WithinLap(i, i % cap, d, cap, RoundUp(i + d, line));
  }

  // From the start of a lap, going at most a lap forward.
  lemma WithinLap(i: nat, m: nat, d: nat, cap: nat, j: nat)
    requires cap > 0 && m == i % cap && i + d <= j <= i - m + cap
    ensures j % cap == 0 || j % cap >= m + d
  {
    var start, ahead := i - m, j - (i - m);
    LapIsZero(i, cap);
    assert start % cap == 0 && j == start + ahead && m + d <= ahead <= cap;
    PositionFromZero(start, ahead, cap);
  }

  lemma PositionFromZero(start: nat, ahead: nat, cap: nat)
    requires cap > 0 && start % cap == 0 && ahead <= cap
    ensures (start + ahead) % cap == if ahead == cap then 0 else ahead
  {
    PositionForward(start, ahead, cap);
  }

  lemma LapIsZero(i: nat, cap: nat)
    requires cap > 0
    ensures (i - i % cap) % cap == 0
  {
    QuotientUnique(i - i % cap, cap, i / cap, 0);
  }

  lemma LapIsAligned(i: nat, cap: nat, line: nat)
    requires line > 0 && cap > 0 && cap % line == 0
    ensures (i - i % cap + cap) % line == 0
  {
    var q := i / cap;
    var b := cap / line;
    assert cap == line * b;
    assert cap * (q + 1) == line * (b * (q + 1)) by {
      assert (line * b) * (q + 1) == line * (b * (q + 1));
    }
    assert i - i % cap + cap == cap * (q + 1);
    QuotientUnique(cap * (q + 1), line, b * (q + 1), 0);
  }

  // Whenever a message needs a pad and is accepted, the pad fits: the reader
  // is past the message at the start of this lap.
  lemma MessagePadFits(q: Ring, c: seq<seq<byte>>, n: nat)
    requires Messages(q, c, n)
    requires q.HasRoom(n) && q.Pads(n)
    ensures PadFits(q, n)
  {
    AtRestCanAcquire(q);
    PaddingReader(q, n);
  }

  lemma PushMessage(q: Ring, c: seq<seq<byte>>, p: seq<byte>)
    requires Messages(q, c, |p|)
    ensures q.CanAcquireWrite()
    ensures q.HasRoom(|p|) ==> Push(q, p).0 == Accepted && Messages(Push(q, p).1, c + [p], |p|)
    ensures Push(q, p).0 == TooBig <==> |p| > q.cap
    ensures Push(q, p).0 == Full <==> |p| <= q.cap && q.write - q.read + 8 + |p| >= q.cap
    ensures !q.HasRoom(|p|) ==> Push(q, p).0 != Accepted && Push(q, p).1 == q
  {
    AtRestCanAcquire(q);
    WriteRefused(q, |p|);
    if q.HasRoom(|p|) {
      if q.Pads(|p|) {
        MessagePadFits(q, c, |p|);
      }
      PushAppends(q, c, p);
    }
  }

  lemma PopMessage(q: Ring, c: seq<seq<byte>>, n: nat)
    requires Messages(q, c, n)
    ensures q.CanAcquireRead()
    ensures c == [] ==> Pop(q) == (Empty, q, None)
    ensures c != [] ==> Pop(q).0 == Accepted && Pop(q).2 == Some(c[0]) && Messages(Pop(q).1, c[1..], n)
  {
    PopHead(q, c, true);
    if c != [] {
      assert c[0] in c;
      AtRestCanAcquire(q);
      var padded, base, next := HoldsFirst(q.cap, q.line, q.buf, q.read, q.write, c, true);
      HoldsOrder(q.cap, q.line, q.buf, next, q.write, c[1..], true);
      if padded {
        PopPadded(q, c[0]);
        PadEndBoundary(q.read, n, q.cap, q.line);
      } else {
        PopPlain(q, c[0]);
        AfterIsBoundary(q.read, n, q.cap, q.line);
      }
      forall p | p in c[1..] ensures |p| == n {
        assert p in c;
      }
    }
  }

  // The index after a padded message is a boundary too.
  lemma PadEndBoundary(i: nat, n: nat, cap: nat, line: nat)
    requires Geometry(cap, line) && i % line == 0 && n + HEADER <= i % cap
    ensures Boundary(After(PadEnd(i, cap), n, line), cap, n)
  {
    var lap := i + (cap - i % cap);
    NextLap(i, cap);
    AlignedPosition(i, cap, line);
    RoundUpWithin(lap, n + 3 * HEADER, cap, line);
  }

  // ---------------------------------------------------------------------
  // Runs

  ghost predicate PushesOnly(ops: seq<Op>, n: nat) {
    forall op :: op in ops && op.PushOp? ==> |op.payload| == n
  }

  // A run of messages of one size never meets a pad that does not fit, so it
  // is first in, first out with no condition on the state of the queue.
  lemma {:induction false} MessageRunIsDisciplined(q: Ring, c: seq<seq<byte>>, n: nat, ops: seq<Op>)
    requires Messages(q, c, n) && PushesOnly(ops, n)
    ensures Disciplined(q, ops)
    decreases |ops|
  {
    if ops != [] {
      assert ops[0] in ops;
      assert PushesOnly(ops[1..], n) by {
        forall op | op in ops[1..] ensures op in ops {
        }
      }
      match ops[0]
      case PushOp(p) =>
        PushMessage(q, c, p);
        if q.HasRoom(n) {
          if q.Pads(n) {
            MessagePadFits(q, c, n);
          }
          MessageRunIsDisciplined(Push(q, p).1, c + [p], n, ops[1..]);
        } else {
          MessageRunIsDisciplined(q, c, n, ops[1..]);
        }
      case PopOp =>
        PopMessage(q, c, n);
        MessageRunIsDisciplined(Pop(q).1, if c == [] then c else c[1..], n, ops[1..]);
    }
  }

  lemma MessageRunFifo(q: Ring, n: nat, ops: seq<Op>) returns (left: seq<seq<byte>>)
    requires Messages(q, [], n) && PushesOnly(ops, n)
    ensures Disciplined(q, ops)
    ensures AllSome(Run(q, ops).accepted) == Run(q, ops).delivered + AllSome(left)
    ensures Contains(Run(q, ops).ring, left, true)
  {
    MessageRunIsDisciplined(q, [], n, ops);
    left := RunFifo(q, [], ops);
  }

  // ---------------------------------------------------------------------
  // How many messages fit

  ghost predicate AllSized(ps: seq<seq<byte>>, n: nat) {
    forall p :: p in ps ==> |p| == n
  }

  predicate AcceptsAll(q: Ring, ps: seq<seq<byte>>)
    decreases |ps|
  {
    ps != [] ==>
      && q.CanAcquireWrite()
      && Push(q, ps[0]).0 == Accepted
      && AcceptsAll(Push(q, ps[0]).1, ps[1..])
  }

  // Messages that fit in a line with their header, at any position of the
  // indices: exactly as many are accepted as there are free lines, less one
  // when message and header fill a line completely.
  lemma LineMessagesExact(q: Ring, n: nat, ps: seq<seq<byte>>)
    requires q.AtRest() && AllSized(ps, n)
    requires 0 < n && n + HEADER <= q.line
    ensures AcceptsAll(q, ps) <==>
            ps == [] || q.write - q.read + (|ps| - 1) * q.line + n + HEADER < q.cap
  {
    LineMessages(q, n, ps);
    if ps != [] {
      LinesIsProduct(|ps| - 1, q.line);
    }
  }

  function Lines(k: nat, line: nat): nat {
    if k == 0 then 0 else line + Lines(k - 1, line)
  }

  lemma {:induction false} LinesIsProduct(k: nat, line: nat)
    ensures Lines(k, line) == k * line
  {
    if k > 0 {
      LinesIsProduct(k - 1, line);
      assert k * line == (k - 1) * line + line;
    }
  }

  lemma {:induction false} LineMessages(q: Ring, n: nat, ps: seq<seq<byte>>)
    requires q.AtRest() && AllSized(ps, n)
    requires 0 < n && n + HEADER <= q.line
    ensures AcceptsAll(q, ps) <==>
            ps == [] || q.write - q.read + Lines(|ps| - 1, q.line) + n + HEADER < q.cap
    decreases |ps|
  {
    if ps != [] {
      assert ps[0] in ps;
      var accepted, q1 := PushLine(q, ps);
      if accepted {
        forall p' | p' in ps[1..] ensures p' in ps {
        }
        LineMessages(q1, n, ps[1..]);
      }
    }
  }

  // One push: refused, or the index moves on by a line.
  lemma PushLine(q: Ring, ps: seq<seq<byte>>) returns (accepted: bool, q1: Ring)
    requires q.AtRest() && ps != []
    requires 0 < |ps[0]| && |ps[0]| + HEADER <= q.line
    ensures accepted <==> q.write - q.read + |ps[0]| + HEADER < q.cap
    ensures AcceptsAll(q, ps) <==> accepted && AcceptsAll(q1, ps[1..])
    ensures accepted ==> q1.AtRest() && q1 == q.(buf := q1.buf, write := q.write + q.line)
  {
    AtRestCanAcquire(q);
    var p := ps[0];
    accepted := q.HasRoom(|p|);
    q1 := Push(q, p).1;
    if accepted {
      LineAccepted(q, p);
    }
  }

  lemma LineAccepted(q: Ring, p: seq<byte>)
    requires q.AtRest() && 0 < |p| && |p| + HEADER <= q.line && q.HasRoom(|p|)
    ensures q.CanAcquireWrite()
    ensures var q1 := Push(q, p).1;
            q1.AtRest() && q1 == q.(buf := q1.buf, write := q.write + q.line)
  {
    AtRestCanAcquire(q);
    PushPlainIs(q, p);
    LineStep(q.write, |p|, q.line);
    RoundUpBounds(q.write + |p| + HEADER, q.line);
  }

  lemma LineStep(i: nat, n: nat, line: nat)
    requires line > 0 && IsPow2(line) && i % line == 0 && 0 < n && n + HEADER <= line
    ensures After(i, n, line) == i + line
  {
    RoundUpBounds(i + n + HEADER, line);
    var k := i / line;
    QuotientUnique(i + line, line, k + 1, 0);
    RoundUpLeast(i + n + HEADER, line, i + line);
    MultiplesApart(i + line, After(i, n, line), line);
  }
}
