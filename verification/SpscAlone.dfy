// The machine of atomic steps with one thread at a time: it takes the ring
// where the queue's calls take it, for whole runs of pushes and pops.

module SpscAlone {
  import opened Bytes
  import opened Bits
  import opened Wrappers
  import opened RingArithmetic
  import opened SpscRing
  import opened SpscFifo
  import R = SpscRuns
  import opened SpscThreads
  import opened SpscRace

  // A schedule that acquires at most p for the producer.
  predicate AcquiresOnly(schedule: seq<Action>, p: seq<byte>) {
    forall a :: a in schedule && a.ProducerAcquire? ==> a.p == p
  }

  // ---------------------------------------------------------------------
  // The producer

  // Writing a record to its end.
  lemma {:induction false} Fill(s: System) returns (schedule: seq<Action>, t: System)
    requires WellFormed(s) && s.producer.Filling?
    requires s.producer.k <= |s.producer.rec| && s.producer.at + |s.producer.rec| <= s.ring.cap
    ensures NoAcquire(schedule) && CanRun(s, schedule) && Run(s, schedule) == t
    ensures t.ring.buf
            == Patch(s.ring.buf, s.producer.at + s.producer.k, s.producer.rec[s.producer.k..])
    ensures t == s.(ring := s.ring.(buf := t.ring.buf),
                    producer := Filling(s.producer.at, s.producer.rec, |s.producer.rec|, s.producer.seen))
    decreases |s.producer.rec| - s.producer.k
  {
    var Filling(at, rec, k, seen) := s.producer;
    if k == |rec| {
      schedule, t := [], s;
      assert rec[k..] == [];
      PatchNothing(s.ring.buf, at + k);
    } else {
      var rest;
      rest, t := Fill(Next(s, ProducerWrite));
      schedule := [ProducerWrite] + rest;
      StepThenRun(s, ProducerWrite, rest);
      PatchOneMore(s.ring.buf, at + k, rec[k..]);
      assert rec[k..][1..] == rec[k + 1..];
    }
  }

  // Writing a record and committing it.
  lemma FillAndCommit(s: System, p: seq<byte>) returns (schedule: seq<Action>, t: System)
    requires WellFormed(s) && |p| > 0 && s.producer.Filling? && s.producer.rec == Record(p) && s.producer.k == 0
    requires s.producer.at + HEADER + |p| <= s.ring.cap
    ensures NoAcquire(schedule) && CanRun(s, schedule) && Run(s, schedule) == t
    ensures var q, at := s.ring, s.producer.at;
            t == s.(ring := q.(buf := Patch(Patch(q.buf, at, Header(|p|, false)), at + HEADER, p),
                               write := After(q.write, |p|, q.line)),
                    producer := Ready(s.producer.seen),
                    committed := s.committed + [p])
  {
    var fill, u := Fill(s);
    assert Record(p)[0..] == Record(p);
    PatchRecord(s.ring.buf, s.producer.at, p);
    RunOne(u, ProducerCommit);
    t := CommitIs(u, p);
    RunAppend(s, fill, [ProducerCommit]);
    schedule := fill + [ProducerCommit];
  }

  lemma CommitIs(s: System, p: seq<byte>) returns (t: System)
    requires WellFormed(s) && |p| > 0 && s.producer.Filling? && s.producer.rec == Record(p)
    requires s.producer.k == |Record(p)|
    ensures Enabled(s, ProducerCommit) && Next(s, ProducerCommit) == t
    ensures t == s.(ring := s.ring.(write := After(s.ring.write, |p|, s.ring.line)),
                    producer := Ready(s.producer.seen),
                    committed := s.committed + [p])
  {
    assert Record(p)[HEADER..] == p;
    t := Next(s, ProducerCommit);
  }

  lemma PatchRecord(buf: seq<byte>, at: nat, p: seq<byte>)
    requires at + HEADER + |p| <= |buf|
    ensures Patch(buf, at, Record(p)) == Patch(Patch(buf, at, Header(|p|, false)), at + HEADER, p)
  {
  }

  // What is left after a push by the producer alone.
  function Pushed(s: System, p: seq<byte>): System
    requires s.ring.CanAcquireWrite()
  {
    var (error, q) := Push(s.ring, p);
    s.(ring := q, producer := Ready(s.ring.read),
       committed := if error == Accepted then s.committed + [p] else s.committed)
  }

  // The producer, loading the reader's index as it is, does what acquire, copy
  // and commit do, refusals and pads included.
  lemma ProducerAlone(s: System, p: seq<byte>) returns (schedule: seq<Action>)
    requires s.ring.AtRest() && |p| > 0 && s.producer.Ready? && s.producer.seen <= s.ring.read
    ensures WellFormed(s) && s.ring.CanAcquireWrite()
    ensures AcquiresOnly(schedule, p) && CanRun(s, schedule) && Run(s, schedule) == Pushed(s, p)
  {
    AtRestCanAcquire(s.ring);
    var acquire := ProducerAcquire(p, s.ring.read);
    RunOne(s, acquire);
    if !s.ring.HasRoom(|p|) {
      schedule := [acquire];
    } else {
      var rest := AcceptedAlone(s, p);
      RunAppend(s, [acquire], rest);
      schedule := [acquire] + rest;
    }
  }

  lemma AcceptedAlone(s: System, p: seq<byte>) returns (rest: seq<Action>)
    requires s.ring.AtRest() && |p| > 0 && s.producer.Ready? && s.producer.seen <= s.ring.read
    requires s.ring.CanAcquireWrite() && s.ring.HasRoom(|p|)
    ensures WellFormed(s) && Enabled(s, ProducerAcquire(p, s.ring.read))
    ensures var t := Next(s, ProducerAcquire(p, s.ring.read));
            NoAcquire(rest) && CanRun(t, rest) && Run(t, rest) == Pushed(s, p)
  {
    if s.ring.Pads(|p|) {
      PushPaddedIs(s.ring, p);
      rest := MarkAndFill(Next(s, ProducerAcquire(p, s.ring.read)), p);
    } else {
      PushPlainIs(s.ring, p);
      var end;
      rest, end := FillAndCommit(Next(s, ProducerAcquire(p, s.ring.read)), p);
    }
  }

  // Writing and publishing the pad marker, then the record at the start.
  lemma MarkAndFill(s: System, p: seq<byte>) returns (schedule: seq<Action>)
    requires WellFormed(s) && s.ring.CanAcquireWrite() && |p| > 0 && HEADER + |p| <= s.ring.cap
    requires s.producer.Marking? && s.producer.p == p && s.producer.k == 0
    ensures NoAcquire(schedule) && CanRun(s, schedule)
    ensures Run(s, schedule) == s.(ring := s.ring.(buf := PaddedWrite(s.ring, p),
                                                   write := After(PadEnd(s.ring.write, s.ring.cap), |p|, s.ring.line)),
                                   producer := Ready(s.producer.seen),
                                   committed := s.committed + [p])
  {
    var publish := PublishPad(s);
    var fill, end := FillAndCommit(Run(s, publish), p);
    RunAppend(s, publish, fill);
    schedule := publish + fill;
  }

  // ---------------------------------------------------------------------
  // The consumer

  function Popped(s: System): System
    requires s.ring.CanAcquireRead()
  {
    var (error, q, got) := Pop(s.ring);
    s.(ring := q, consumer := Watching(s.ring.write),
       delivered := if error == Accepted && got.Some? then s.delivered + [got.value] else s.delivered)
  }

  // The consumer, loading the writer's index as it is, does what acquire, copy
  // and commit do, pad skip included.
  lemma ConsumerAlone(s: System, c: seq<seq<byte>>) returns (schedule: seq<Action>)
    requires Contains(s.ring, c, true) && s.consumer.Watching? && s.consumer.seen <= s.ring.write
    ensures WellFormed(s) && s.ring.CanAcquireRead()
    ensures NoAcquire(schedule) && CanRun(s, schedule) && Run(s, schedule) == Popped(s)
  {
    var q := s.ring;
    AtRestCanAcquire(q);
    PopHead(q, c, true);
    if c == [] {
      RunOne(s, ConsumerAcquire(q.write));
      schedule := [ConsumerAcquire(q.write)];
    } else {
      var padded, base, next := HoldsFirst(q.cap, q.line, q.buf, q.read, q.write, c, true);
      HoldsOrder(q.cap, q.line, q.buf, next, q.write, c[1..], true);
      if padded {
        schedule := PaddedAlone(s, c[0]);
        PopPadded(q, c[0]);
      } else {
        var t;
        schedule, t := ConsumeRecord(s, c[0]);
        PopPlain(q, c[0]);
      }
    }
  }

  // Through the pad marker to the record at the start of the buffer.
  lemma PaddedAlone(s: System, p: seq<byte>) returns (schedule: seq<Action>)
    requires WellFormed(s) && s.ring.cap <= MAX_SIZE && s.ring.read < s.ring.write
    requires s.consumer.Watching? && s.consumer.seen <= s.ring.write
    requires |p| > 0 && PadAt(s.ring.cap, s.ring.buf, s.ring.read, |p|) && RecordAt(s.ring.buf, 0, p)
    ensures NoAcquire(schedule) && CanRun(s, schedule)
    ensures Run(s, schedule) == s.(ring := s.ring.(read := After(PadEnd(s.ring.read, s.ring.cap), |p|, s.ring.line)),
                                   consumer := Watching(s.ring.write),
                                   delivered := s.delivered + [p])
  {
    var skip, t := SkipPad(s, |p|);
    var finish := FinishSkipped(t, p);
    RunAppend(s, skip, finish);
    schedule := skip + finish;
  }

  lemma FinishSkipped(s: System, p: seq<byte>) returns (schedule: seq<Action>)
    requires WellFormed(s) && s.ring.cap <= MAX_SIZE && |p| > 0 && RecordAt(s.ring.buf, 0, p)
    requires s.consumer == Reading(0, [], true, s.consumer.seen)
    ensures NoAcquire(schedule) && CanRun(s, schedule)
    ensures Run(s, schedule) == s.(ring := s.ring.(read := After(s.ring.read, |p|, s.ring.line)),
                                   consumer := Watching(s.consumer.seen),
                                   delivered := s.delivered + [p])
  {
    var rec := Record(p);
    WholeRecord(s.ring.buf, 0, p);
    HeaderTells(rec, p);
    schedule := ReadOn(s, rec);
    var u := Run(s, schedule);
    assert rec[HEADER..] == p;
    RunOne(u, ConsumerCommit);
    RunAppend(s, schedule, [ConsumerCommit]);
    schedule := schedule + [ConsumerCommit];
  }

  // ---------------------------------------------------------------------
  // Runs

  // Between two calls, with nothing seen of the other side that is not so.
  predicate Idle(s: System) {
    && s.producer.Ready? && s.producer.seen <= s.ring.read
    && s.consumer.Watching? && s.consumer.seen <= s.ring.write
  }

  // The indices only move forward.

  lemma PushForward(q: Ring, p: seq<byte>)
    requires q.AtRest() && q.CanAcquireWrite() && |p| > 0
    ensures q.read == Push(q, p).1.read && q.write <= Push(q, p).1.write
  {
    if q.HasRoom(|p|) && q.Pads(|p|) {
      PushPaddedIs(q, p);
      RoundUpBounds(PadEnd(q.write, q.cap) + |p| + HEADER, q.line);
    } else if q.HasRoom(|p|) {
      PushPlainIs(q, p);
      RoundUpBounds(q.write + |p| + HEADER, q.line);
    }
  }

  lemma PopForward(q: Ring, c: seq<seq<byte>>)
    requires Contains(q, c, true) && q.CanAcquireRead()
    ensures q.read <= Pop(q).1.read && q.write == Pop(q).1.write
  {
    PopHead(q, c, true);
    if c != [] {
      var padded, base, next := HoldsFirst(q.cap, q.line, q.buf, q.read, q.write, c, true);
      HoldsOrder(q.cap, q.line, q.buf, next, q.write, c[1..], true);
      if padded {
        PopPadded(q, c[0]);
      } else {
        PopPlain(q, c[0]);
      }
    }
  }

  // The schedule takes the machine from s to t with the outcome of these calls.
  ghost predicate Follows(s: System, schedule: seq<Action>, t: System, run: R.Outcome) {
    && WellFormed(s) && CanRun(s, schedule) && Run(s, schedule) == t && Idle(t)
    && t.ring == run.ring
    && t.committed == s.committed + run.accepted
    && R.AllSome(t.delivered) == R.AllSome(s.delivered) + run.delivered
  }

  lemma FollowsTwice(s: System, a: seq<Action>, t: System, first: R.Outcome, b: seq<Action>, u: System,
                     rest: R.Outcome, run: R.Outcome)
    requires Follows(s, a, t, first) && Follows(t, b, u, rest) && run.ring == rest.ring
    requires run.accepted == first.accepted + rest.accepted && run.delivered == first.delivered + rest.delivered
    ensures Follows(s, a + b, u, run)
  {
    RunAppend(s, a, b);
    Regroup(s.committed, first.accepted, rest.accepted);
    Regroup(R.AllSome(s.delivered), first.delivered, rest.delivered);
  }

  lemma Regroup<T>(a: seq<T>, b: seq<T>, c: seq<T>)
    ensures a + b + c == a + (b + c)
  {
  }

  lemma StepAlone(s: System, c: seq<seq<byte>>, op: R.Op)
    returns (schedule: seq<Action>, t: System, left: seq<seq<byte>>)
    requires Contains(s.ring, c, true) && Idle(s) && R.CanStep(s.ring, op)
    requires op.PushOp? ==> R.Fits(s.ring, op.payload)
    ensures Contains(t.ring, left, true) && Follows(s, schedule, t, R.Step(s.ring, op))
  {
    AtRestCanAcquire(s.ring);
    left := R.StepFifo(s.ring, c, op);
    match op
    case PushOp(p) =>
      PushForward(s.ring, p);
      schedule := ProducerAlone(s, p);
      t := Pushed(s, p);
      if s.ring.HasRoom(|p|) {
        PushAppends(s.ring, c, p);
      }
    case PopOp =>
      PopForward(s.ring, c);
      schedule := ConsumerAlone(s, c);
      t := Popped(s);
      PopHead(s.ring, c, true);
      if c != [] {
        R.AllSomeAppend(s.delivered, [c[0]]);
      }
  }

  // Every run of the queue's calls is a run of the machine: there is a schedule
  // that ends in the ring of the run, with the payloads accepted committed and
  // those delivered, in their order.
  lemma {:induction false} RunAlone(s: System, c: seq<seq<byte>>, ops: seq<R.Op>)
    returns (schedule: seq<Action>, t: System)
    requires Contains(s.ring, c, true) && Idle(s) && R.Disciplined(s.ring, ops)
    ensures Follows(s, schedule, t, R.Run(s.ring, ops))
    decreases |ops|
  {
    if ops == [] {
      schedule, t := [], s;
    } else {
      var first, mid, left := StepAlone(s, c, ops[0]);
      var rest;
      rest, t := RunAlone(mid, left, ops[1..]);
      FollowsTwice(s, first, mid, R.Step(s.ring, ops[0]), rest, t, R.Run(mid.ring, ops[1..]), R.Run(s.ring, ops));
      schedule := first + rest;
    }
  }
}
