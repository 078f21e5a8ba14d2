// Whole runs of pushes and pops, and exactly which padded writes are safe.

module SpscRuns {
  import opened Bytes
  import opened Bits
  import opened Wrappers
  import opened RingArithmetic
  import opened SpscRing
  import opened SpscFifo

  // ---------------------------------------------------------------------
  // Every run of pushes and pops in which each padded write fits.

  datatype Op = PushOp(payload: seq<byte>) | PopOp

  // What a call or a run does: the ring it ends in, the payloads the queue
  // accepted with the write index after each, and the payloads it delivered
  // with the read index after each.
  datatype Outcome = Outcome(ring: Ring, accepted: seq<seq<byte>>, writeEnds: seq<nat>,
                             delivered: seq<Option<seq<byte>>>, readEnds: seq<nat>)

  predicate CanStep(q: Ring, op: Op) {
    match op
    case PushOp(_) => q.CanAcquireWrite()
    case PopOp => q.CanAcquireRead()
  }

  function Step(q: Ring, op: Op): Outcome
    requires CanStep(q, op)
  {
    match op
    case PushOp(p) =>
      var (e, q1) := Push(q, p);
      if e == Accepted then Outcome(q1, [p], [q1.write], [], []) else Outcome(q1, [], [], [], [])
    case PopOp =>
      var (e, q1, got) := Pop(q);
      if e == Accepted then Outcome(q1, [], [], [got], [q1.read]) else Outcome(q1, [], [], [], [])
  }

  // No call finds an index out of bounds, and each push is of a non-empty
  // payload whose pad, if it needs one, fits.
  predicate Disciplined(q: Ring, ops: seq<Op>)
    decreases |ops|
  {
    ops != [] ==>
      && CanStep(q, ops[0])
      && (ops[0].PushOp? ==> Fits(q, ops[0].payload))
      && Disciplined(Step(q, ops[0]).ring, ops[1..])
  }

  predicate Fits(q: Ring, p: seq<byte>)
    requires q.CanAcquireWrite()
  {
    |p| > 0 && (q.HasRoom(|p|) && q.Pads(|p|) ==> PadFits(q, |p|))
  }

  function Run(q: Ring, ops: seq<Op>): Outcome
    requires Disciplined(q, ops)
    decreases |ops|
  {
    if ops == [] then Outcome(q, [], [], [], [])
    else
      var first := Step(q, ops[0]);
      var rest := Run(first.ring, ops[1..]);
      Outcome(rest.ring, first.accepted + rest.accepted, first.writeEnds + rest.writeEnds,
              first.delivered + rest.delivered, first.readEnds + rest.readEnds)
  }

  function AllSome(c: seq<seq<byte>>): seq<Option<seq<byte>>> {
    if c == [] then [] else [Some(c[0])] + AllSome(c[1..])
  }

  lemma {:induction false} AllSomeAppend(a: seq<seq<byte>>, b: seq<seq<byte>>)
    ensures AllSome(a + b) == AllSome(a) + AllSome(b)
  {
    if a == [] {
      assert a + b == b;
    } else {
      assert (a + b)[1..] == a[1..] + b;
      AllSomeAppend(a[1..], b);
    }
  }

  lemma StepFifo(q: Ring, c: seq<seq<byte>>, op: Op) returns (left: seq<seq<byte>>)
    requires Contains(q, c, true) && CanStep(q, op)
    requires op.PushOp? ==> Fits(q, op.payload)
    ensures Contains(Step(q, op).ring, left, true)
    ensures AllSome(c) + AllSome(Step(q, op).accepted) == Step(q, op).delivered + AllSome(left)
  {
    match op
    case PushOp(p) =>
      if q.HasRoom(|p|) {
        left := c + [p];
        PushAppends(q, c, p);
        AllSomeAppend(c, [p]);
      } else {
        left := c;
      }
    case PopOp =>
      PopHead(q, c, true);
      left := if c == [] then c else c[1..];
  }

  // First in, first out over the whole run: what was unread at the start,
  // followed by what was accepted, is what was delivered, followed by what is
  // unread at the end.
  lemma {:induction false} RunFifo(q: Ring, c: seq<seq<byte>>, ops: seq<Op>) returns (left: seq<seq<byte>>)
    requires Contains(q, c, true) && Disciplined(q, ops)
    ensures Contains(Run(q, ops).ring, left, true)
    ensures AllSome(c) + AllSome(Run(q, ops).accepted) == Run(q, ops).delivered + AllSome(left)
    decreases |ops|
  {
    if ops == [] {
      left := c;
    } else {
      var first := Step(q, ops[0]);
      var mid := StepFifo(q, c, ops[0]);
      left := RunFifo(first.ring, mid, ops[1..]);
      var rest := Run(first.ring, ops[1..]);
      AllSomeAppend(first.accepted, rest.accepted);
      Telescope(AllSome(c), AllSome(first.accepted), first.delivered, AllSome(mid),
                AllSome(rest.accepted), rest.delivered, AllSome(left));
    }
  }

  lemma Telescope<T>(start: seq<T>, in1: seq<T>, out1: seq<T>, mid: seq<T>, in2: seq<T>, out2: seq<T>, end: seq<T>)
    requires start + in1 == out1 + mid
    requires mid + in2 == out2 + end
    ensures start + (in1 + in2) == out1 + out2 + end
  {
    calc {
      start + (in1 + in2);
      start + in1 + in2;
      out1 + mid + in2;
      out1 + (mid + in2);
      out1 + (out2 + end);
      out1 + out2 + end;
    }
  }

  // ---------------------------------------------------------------------
  // A padded write is safe exactly when it fits.

  // Popping the ring gives exactly c, and then nothing.
  ghost predicate Drains(q: Ring, c: seq<seq<byte>>)
    decreases |c|
  {
    && q.CanAcquireRead()
    && if c == [] then Pop(q).0 == Empty
       else Pop(q).0 == Accepted && Pop(q).2 == Some(c[0]) && Drains(Pop(q).1, c[1..])
  }

  lemma {:induction false} ContainsDrains(q: Ring, c: seq<seq<byte>>, pads: bool)
    requires Contains(q, c, pads)
    ensures Drains(q, c)
    decreases |c|
  {
    PopHead(q, c, pads);
    if c != [] {
      ContainsDrains(Pop(q).1, c[1..], pads);
    }
  }

  // A write that pads while the queue has room finds the reader in its own
  // lap, behind it.
  lemma PaddingReader(q: Ring, n: nat)
    requires q.CanAcquireWrite() && q.HasRoom(n) && q.Pads(n)
    ensures q.write - q.read < q.write % q.cap
    ensures q.read % q.cap == q.write % q.cap - (q.write - q.read)
  {
    var d := q.write - q.read;
    QuotientUnique(q.read, q.cap, q.write / q.cap, q.write % q.cap - d);
  }

  // The record at the reader's index is then not a padded one.
  lemma FirstIsPlain(q: Ring, c: seq<seq<byte>>, n: nat)
    requires Contains(q, c, true) && c != []
    requires q.CanAcquireWrite() && q.HasRoom(n) && q.Pads(n)
    ensures RecordAt(q.buf, q.read % q.cap, c[0])
  {
    PaddingReader(q, n);
    var padded, base, next := HoldsFirst(q.cap, q.line, q.buf, q.read, q.write, c, true);
    HoldsOrder(q.cap, q.line, q.buf, next, q.write, c[1..], true);
  }

  lemma FirstByte(h: seq<byte>)
    requires h != []
    ensures FromLittleEndian(h) % 256 == h[0]
  {
  }

  // A header whose first byte is even announces a record, not a pad.
  lemma EvenHeader(q: Ring)
    requires q.CanAcquireRead() && q.read < q.write
    requires q.buf[q.read % q.cap] % 2 == 0
    ensures var m := q.read % q.cap;
            var h := q.buf[m..m + HEADER];
            && FromLittleEndian(h) == 2 * HeaderSize(h)
            && AcquireRead(q) == (Accepted, q, Slot(m + HEADER, HeaderSize(h)))
  {
  }

  // A payload that runs over the header at the reader's index, and makes the
  // first byte of that header b.
  lemma Overrun(q: Ring, n: nat, b: byte)
    requires q.CanAcquireWrite() && q.CanAcquireRead() && IsPow2(q.line) && q.read % q.cap >= HEADER
    requires n > 0 && q.HasRoom(n) && q.Pads(n) && !PadFits(q, n)
    ensures var q' := Push(q, seq(n, _ => b)).1;
            && q'.cap == q.cap && q'.read == q.read && q'.read < q'.write
            && q'.CanAcquireRead()
            && q'.buf[q.read % q.cap] == b
  {
    PaddingReader(q, n);
    var p := seq(n, _ => b);
    PushPaddedIs(q, p);
    RoundUpBounds(PadEnd(q.write, q.cap) + |p| + HEADER, q.line);
    OverrunHeader(q, p);
  }

  lemma OverrunHeader(q: Ring, p: seq<byte>)
    requires q.CanAcquireWrite() && HEADER <= q.read % q.cap < HEADER + |p| <= q.cap
    ensures PaddedWrite(q, p)[q.read % q.cap] == p[q.read % q.cap - HEADER]
  {
  }

  // Such a payload exists for every padded write that does not fit, and the
  // reader then does not get the oldest unread payload: not when the overrun
  // header is that of an unread record,
  lemma MisfitGarbles(q: Ring, first: seq<byte>, n: nat) returns (p: seq<byte>)
    requires q.CanAcquireWrite() && q.CanAcquireRead() && IsPow2(q.line)
    requires q.read % q.cap >= HEADER && q.cap <= MAX_SIZE
    requires n > 0 && q.HasRoom(n) && q.Pads(n) && !PadFits(q, n)
    requires RecordAt(q.buf, q.read % q.cap, first)
    ensures |p| == n
    ensures Push(q, p).1.CanAcquireRead() && Pop(Push(q, p).1).2 != Some(first)
  {
    var b: byte := if Header(|first|, false)[0] == 0 then 2 else 0;
    p := seq(n, _ => b);
    Overrun(q, n, b);
    OtherHeader(Push(q, p).1, first);
  }

  lemma OtherHeader(q: Ring, p: seq<byte>)
    requires q.CanAcquireRead() && q.read < q.write
    requires q.buf[q.read % q.cap] % 2 == 0 && |p| < MAX_SIZE
    requires q.buf[q.read % q.cap] != Header(|p|, false)[0]
    ensures Pop(q).2 != Some(p)
  {
    EvenHeader(q);
    OtherSize(q.buf[q.read % q.cap..q.read % q.cap + HEADER], |p|);
  }

  lemma OtherSize(h: seq<byte>, n: nat)
    requires |h| == HEADER && h[0] % 2 == 0 && n < MAX_SIZE && h[0] != Header(n, false)[0]
    ensures HeaderSize(h) != n
  {
    FirstByte(h);
    FirstByte(Header(n, false));
    HeaderRoundTrip(n, false);
  }

  // and not when it is the new pad marker itself.
  lemma MisfitBreaksPad(q: Ring, n: nat) returns (p: seq<byte>)
    requires q.CanAcquireWrite() && q.read == q.write && IsPow2(q.line) && q.read % q.cap >= HEADER
    requires n > 0 && q.HasRoom(n) && q.Pads(n) && !PadFits(q, n)
    ensures |p| == n
    ensures Push(q, p).1.CanAcquireRead() && Pop(Push(q, p).1).2 != Some(p)
  {
    p := seq(n, _ => 0);
    Overrun(q, n, 0);
    EvenHeader(Push(q, p).1);
  }

  lemma MisfitLoses(q: Ring, c: seq<seq<byte>>, n: nat) returns (p: seq<byte>)
    requires Contains(q, c, true)
    requires q.CanAcquireWrite() && n > 0 && q.HasRoom(n) && q.Pads(n) && !PadFits(q, n)
    ensures |p| == n && !Drains(Push(q, p).1, c + [p])
  {
    AtRestCanAcquire(q);
    PaddingReader(q, n);
    AlignedPositive(q.read % q.cap, q.line);
    if c == [] {
      p := MisfitBreaksPad(q, n);
      assert (c + [p])[0] == p;
    } else {
      FirstIsPlain(q, c, n);
      p := MisfitGarbles(q, c[0], n);
      assert (c + [p])[0] == c[0];
    }
  }

  // The Full test does not count the pad. A write that pads keeps every unread
  // payload, whatever its own bytes are, if and only if the pad fits.
  lemma PaddedWriteExact(q: Ring, c: seq<seq<byte>>, n: nat)
    requires Contains(q, c, true)
    requires q.CanAcquireWrite() && n > 0 && q.HasRoom(n) && q.Pads(n)
    ensures (forall p: seq<byte> :: |p| == n ==> Drains(Push(q, p).1, c + [p])) <==> PadFits(q, n)
  {
    if PadFits(q, n) {
      forall p: seq<byte> | |p| == n ensures Drains(Push(q, p).1, c + [p]) {
        PushAppends(q, c, p);
        ContainsDrains(Push(q, p).1, c + [p], true);
      }
    } else {
      var p := MisfitLoses(q, c, n);
    }
  }

  // ---------------------------------------------------------------------
  // Write-then-read pairs

  // Each payload is pushed onto an empty ring and popped again.
  ghost predicate EchoesAll(q: Ring, ps: seq<seq<byte>>)
    decreases |ps|
  {
    ps != [] ==>
      && q.CanAcquireWrite()
      && Push(q, ps[0]).0 == Accepted
      && var q1 := Push(q, ps[0]).1;
      && q1.CanAcquireRead()
      && Pop(q1).0 == Accepted
      && Pop(q1).2 == Some(ps[0])
      && EchoesAll(Pop(q1).1, ps[1..])
  }

  // However many laps it takes, no write-then-read pair of at most half the
  // capacity is refused or garbled.
  lemma {:induction false} PairsNeverFail(q: Ring, ps: seq<seq<byte>>)
    requires Contains(q, [], true)
    requires forall p :: p in ps ==> |p| > 0 && 2 * (|p| + HEADER) <= q.cap
    ensures EchoesAll(q, ps)
    decreases |ps|
  {
    if ps != [] {
      var p := ps[0];
      assert p in ps;
      AtRestCanAcquire(q);
      PushAppends(q, [], p);
      var q1 := Push(q, p).1;
      assert [] + [p] == [p];
      PopHead(q1, [p], true);
      var one: seq<seq<byte>> := [p];
      assert one[1..] == [];
      PairsNeverFail(Pop(q1).1, ps[1..]);
    }
  }
}
