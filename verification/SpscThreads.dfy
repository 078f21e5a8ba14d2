// One producer thread and one consumer thread on the ring, interleaved byte
// by byte. Each load of the other side's index may return any value between
// the last one it returned and the current one; the payload and the headers
// are plain memory, written and read one byte at a time.

module SpscThreads {
  import opened Bytes
  import opened Bits
  import opened RingArithmetic
  import opened SpscRing
  import opened SpscFifo

  datatype Producer =
    // before acquire_write; seen is the last read index it loaded
    | Ready(seen: nat)
    // writing the pad marker, k bytes done; p is the payload to come
    | Marking(p: seq<byte>, k: nat, seen: nat)
    // writing the header and payload rec at position at, k bytes done
    | Filling(at: nat, rec: seq<byte>, k: nat, seen: nat)

  datatype Consumer =
    // before acquire_read; seen is the last write index it loaded
    | Watching(seen: nat)
    // reading the record at position at; acc is what it has read of it, and
    // skipped says that a pad marker led here
    | Reading(at: nat, acc: seq<byte>, skipped: bool, seen: nat)

  datatype System = System(
    ring: Ring,
    producer: Producer,
    consumer: Consumer,
    committed: seq<seq<byte>>, // payloads committed so far
    delivered: seq<seq<byte>>) // payloads read and released so far

  datatype Action =
    | ProducerAcquire(p: seq<byte>, r: nat) // loads r from the read index
    | ProducerWrite
    | ProducerPublishPad
    | ProducerCommit
    | ConsumerAcquire(w: nat) // loads w from the write index
    | ConsumerRead
    | ConsumerSkipPad
    | ConsumerCommit

  predicate WellFormed(s: System) {
    s.ring.cap > 0 && s.ring.line > 0 && |s.ring.buf| == s.ring.cap
  }

  function Record(p: seq<byte>): seq<byte> {
    Header(|p|, false) + p
  }

  function PadMarker(q: Ring): (h: seq<byte>)
    requires q.cap > 0
    ensures |h| == HEADER
  {
    Header(q.cap - q.write % q.cap + HEADER, true)
  }

  // The Full test as the producer makes it, with a possibly stale read index.
  predicate Accepts(q: Ring, n: nat, r: nat) {
    n <= q.cap && q.write - r + n + HEADER < q.cap
  }

  // Whether the consumer has read all of the record it was given a slot for.
  predicate HeaderRead(c: Consumer) {
    c.Reading? && |c.acc| >= HEADER
  }

  predicate AtPad(c: Consumer) {
    HeaderRead(c) && !c.skipped && HeaderPadded(c.acc[..HEADER])
  }

  predicate Finished(c: Consumer) {
    HeaderRead(c) && !AtPad(c) && |c.acc| == HEADER + HeaderSize(c.acc[..HEADER])
  }

  predicate Enabled(s: System, a: Action)
    requires WellFormed(s)
  {
    var q := s.ring;
    match a
    case ProducerAcquire(p, r) =>
      s.producer.Ready? && |p| > 0 && s.producer.seen <= r <= q.read && q.read <= q.write
    case ProducerWrite =>
      || (s.producer.Marking? && s.producer.k < HEADER && q.write % q.cap + s.producer.k < q.cap)
      || (s.producer.Filling? && s.producer.k < |s.producer.rec| && s.producer.at + s.producer.k < q.cap)
    case ProducerPublishPad =>
      s.producer.Marking? && s.producer.k == HEADER
    case ProducerCommit =>
      s.producer.Filling? && s.producer.k == |s.producer.rec| > HEADER
    case ConsumerAcquire(w) =>
      s.consumer.Watching? && s.consumer.seen <= w <= q.write
    case ConsumerRead =>
      && s.consumer.Reading?
      && !AtPad(s.consumer)
      && !Finished(s.consumer)
      && s.consumer.at + |s.consumer.acc| < q.cap
    case ConsumerSkipPad =>
      AtPad(s.consumer)
    case ConsumerCommit =>
      Finished(s.consumer)
  }

  function Next(s: System, a: Action): (t: System)
    requires WellFormed(s) && Enabled(s, a)
    ensures WellFormed(t)
  {
    var q := s.ring;
    match a
    case ProducerAcquire(p, r) =>
      if !Accepts(q, |p|, r) then s.(producer := Ready(r))
      else if q.Pads(|p|) then s.(producer := Marking(p, 0, r))
      else s.(producer := Filling(q.write % q.cap, Record(p), 0, r))
    case ProducerWrite => (
      match s.producer
      case Marking(p, k, seen) =>
        s.(ring := q.(buf := q.buf[q.write % q.cap + k := PadMarker(q)[k]]), producer := Marking(p, k + 1, seen))
      case Filling(at, rec, k, seen) =>
        s.(ring := q.(buf := q.buf[at + k := rec[k]]), producer := Filling(at, rec, k + 1, seen))
    )
    case ProducerPublishPad =>
      s.(ring := q.(write := PadEnd(q.write, q.cap)),
         producer := Filling(0, Record(s.producer.p), 0, s.producer.seen))
    case ProducerCommit =>
      s.(ring := q.(write := RoundUp(q.write + |s.producer.rec|, q.line)),
         producer := Ready(s.producer.seen),
         committed := s.committed + [s.producer.rec[HEADER..]])
    case ConsumerAcquire(w) =>
      if q.read >= w then s.(consumer := Watching(w))
      else s.(consumer := Reading(q.read % q.cap, [], false, w))
    case ConsumerRead =>
      var Reading(at, acc, skipped, seen) := s.consumer;
      s.(consumer := Reading(at, acc + [q.buf[at + |acc|]], skipped, seen))
    case ConsumerSkipPad =>
      s.(ring := q.(read := q.read + HeaderSize(s.consumer.acc[..HEADER]) + HEADER),
         consumer := Reading(0, [], true, s.consumer.seen))
    case ConsumerCommit =>
      var payload := s.consumer.acc[HEADER..];
      s.(ring := if payload == [] then q else q.(read := RoundUp(q.read + |s.consumer.acc|, q.line)),
         consumer := Watching(s.consumer.seen),
         delivered := s.delivered + [payload])
  }

  // A run: the actions of both threads in some order.
  predicate CanRun(s: System, schedule: seq<Action>)
    requires WellFormed(s)
    decreases |schedule|
  {
    schedule != [] ==> Enabled(s, schedule[0]) && CanRun(Next(s, schedule[0]), schedule[1..])
  }

  function Run(s: System, schedule: seq<Action>): (t: System)
    requires WellFormed(s) && CanRun(s, schedule)
    ensures WellFormed(t)
    decreases |schedule|
  {
    if schedule == [] then s else Run(Next(s, schedule[0]), schedule[1..])
  }

  // The action is an acquire_write that takes the pad branch.
  predicate StartsPad(s: System, a: Action)
    requires WellFormed(s)
  {
    a.ProducerAcquire? && Accepts(s.ring, |a.p|, a.r) && s.ring.Pads(|a.p|)
  }

  predicate NeverPads(s: System, schedule: seq<Action>)
    requires WellFormed(s) && CanRun(s, schedule)
    decreases |schedule|
  {
    schedule != [] ==> !StartsPad(s, schedule[0]) && NeverPads(Next(s, schedule[0]), schedule[1..])
  }

  // ---------------------------------------------------------------------
  // What every run keeps

  // Everything delivered was committed, in order and byte for byte, and a
  // slot given to the consumer is one for a committed record.
  predicate Sound(s: System) {
    && |s.delivered| + (if s.consumer.Reading? then 1 else 0) <= |s.committed|
    && s.delivered == s.committed[..|s.delivered|]
  }

  function Unread(s: System): seq<seq<byte>>
    requires |s.delivered| <= |s.committed|
  {
    s.committed[|s.delivered|..]
  }

  ghost predicate Inv(s: System) {
    && WellFormed(s)
    && Sound(s)
    && s.ring.AtRest()
    && Holds(s.ring.cap, s.ring.line, s.ring.buf, s.ring.read, s.ring.write, Unread(s), false)
    && ProducerInv(s)
    && ConsumerInv(s)
  }

  predicate ProducerInv(s: System)
    requires WellFormed(s)
  {
    var q := s.ring;
    s.producer.seen <= q.read &&
    match s.producer
    case Ready(_) => true
    case Marking(_, _, _) => false
    case Filling(at, rec, k, _) =>
      && at == q.write % q.cap
      && at + |rec| <= q.cap
      && q.write - q.read + |rec| < q.cap
      && k <= |rec|
      && q.buf[at..at + k] == rec[..k]
      && |rec| > HEADER
      && rec == Record(rec[HEADER..])
  }

  predicate ConsumerInv(s: System)
    requires WellFormed(s) && Sound(s)
  {
    var q := s.ring;
    s.consumer.seen <= q.write &&
    match s.consumer
    case Watching(_) => true
    case Reading(at, acc, skipped, _) =>
      && !skipped
      && at == q.read % q.cap
      && acc <= Record(Unread(s)[0])
  }

  lemma InitialInv(q: Ring)
    requires q.AtRest() && q.read == q.write
    ensures Inv(System(q, Ready(q.read), Watching(q.write), [], []))
  {
  }

  // ---------------------------------------------------------------------
  // Each action keeps the invariant unless it starts a pad.

  lemma AcquireWriteStep(s: System, a: Action)
    requires Inv(s) && a.ProducerAcquire? && Enabled(s, a) && !StartsPad(s, a)
    ensures Inv(Next(s, a))
  {
    AtRestCanAcquire(s.ring);
    var rec := Record(a.p);
    assert rec[HEADER..] == a.p;
  }

  // A byte written beyond the unread records, less than a lap from the
  // reader, is not one the consumer may still read.
  lemma WriteByteFrame(q: Ring, k: nat, b: byte, c: seq<seq<byte>>)
    requires q.AtRest() && q.write % q.cap + k < q.cap && q.write + k < q.read + q.cap
    requires Holds(q.cap, q.line, q.buf, q.read, q.write, c, false)
    ensures Holds(q.cap, q.line, q.buf[q.write % q.cap + k := b], q.read, q.write, c, false)
  {
    var m := q.write % q.cap + k;
    var buf := q.buf[m := b];
    PositionForward(q.write, k, q.cap);
    PatchBeyond(q.cap, q.buf, q.read, q.write, q.write + k, [b]);
    assert buf == Patch(q.buf, m, [b]);
    HoldsFrame(q.cap, q.line, q.buf, buf, q.read, q.write, c, false);
  }

  lemma OneMoreWritten(buf: seq<byte>, at: nat, rec: seq<byte>, k: nat)
    requires k < |rec| && at + |rec| <= |buf|
    requires buf[at..at + k] == rec[..k]
    ensures buf[at + k := rec[k]][at..at + k + 1] == rec[..k + 1]
  {
    var buf' := buf[at + k := rec[k]];
    assert buf'[at..at + k + 1] == buf'[at..at + k] + [rec[k]];
    assert buf'[at..at + k] == buf[at..at + k];
  }

  lemma WriteStep(s: System, a: Action)
    requires Inv(s) && a.ProducerWrite? && Enabled(s, a)
    ensures Inv(Next(s, a))
  {
    var Filling(at, rec, k, seen) := s.producer;
    WriteByteFrame(s.ring, k, rec[k], Unread(s));
    OneMoreWritten(s.ring.buf, at, rec, k);
  }

  lemma WholeRecord(buf: seq<byte>, at: nat, p: seq<byte>)
    requires at + HEADER + |p| <= |buf|
    ensures RecordAt(buf, at, p) <==> buf[at..at + HEADER + |p|] == Record(p)
  {
    var all := buf[at..at + HEADER + |p|];
    assert all == buf[at..at + HEADER] + buf[at + HEADER..at + HEADER + |p|];
    if all == Record(p) {
      assert all[..HEADER] == buf[at..at + HEADER];
      assert all[HEADER..] == buf[at + HEADER..at + HEADER + |p|];
    }
  }

  lemma CommitWriteStep(s: System, a: Action)
    requires Inv(s) && a.ProducerCommit? && Enabled(s, a)
    ensures Inv(Next(s, a))
  {
    var q := s.ring;
    var Filling(at, rec, k, seen) := s.producer;
    var p := rec[HEADER..];
    WholeRecord(q.buf, at, p);
    CommitHolds(q, Unread(s), p);
    CommittedGrows(s.committed, s.delivered, p);
  }

  lemma CommitHolds(q: Ring, c: seq<seq<byte>>, p: seq<byte>)
    requires q.AtRest() && |p| > 0 && RecordAt(q.buf, q.write % q.cap, p)
    requires Holds(q.cap, q.line, q.buf, q.read, q.write, c, false)
    ensures q.(write := After(q.write, |p|, q.line)).AtRest()
    ensures q.write < After(q.write, |p|, q.line)
    ensures Holds(q.cap, q.line, q.buf, q.read, After(q.write, |p|, q.line), c + [p], false)
  {
    var w' := After(q.write, |p|, q.line);
    RoundUpBounds(q.write + |p| + HEADER, q.line);
    HoldsOne(q.cap, q.line, q.buf, q.write, w', p, false);
    HoldsAppend(q.cap, q.line, q.buf, q.read, q.write, w', c, p, false);
  }

  lemma CommittedGrows(committed: seq<seq<byte>>, delivered: seq<seq<byte>>, p: seq<byte>)
    requires |delivered| <= |committed| && delivered == committed[..|delivered|]
    ensures (committed + [p])[|delivered|..] == committed[|delivered|..] + [p]
    ensures delivered == (committed + [p])[..|delivered|]
  {
  }

  lemma AcquireReadStep(s: System, a: Action)
    requires Inv(s) && a.ConsumerAcquire? && Enabled(s, a)
    ensures Inv(Next(s, a))
  {
  }

  // The record under the consumer's hands is the oldest unread one.
  lemma UnderRead(s: System)
    requires Inv(s) && s.consumer.Reading?
    ensures Unread(s) != []
    ensures var p := Unread(s)[0];
            && 0 < |p| < MAX_SIZE
            && RecordAt(s.ring.buf, s.consumer.at, p)
            && s.ring.buf[s.consumer.at..s.consumer.at + |Record(p)|] == Record(p)
            && Holds(s.ring.cap, s.ring.line, s.ring.buf, After(s.ring.read, |p|, s.ring.line), s.ring.write,
                     Unread(s)[1..], false)
  {
    var q := s.ring;
    var padded, base, next := HoldsFirst(q.cap, q.line, q.buf, q.read, q.write, Unread(s), false);
    WholeRecord(q.buf, s.consumer.at, Unread(s)[0]);
  }

  // What has been read of a record tells, as soon as its header is complete,
  // that it is no pad and how long it is.
  lemma HeaderTells(acc: seq<byte>, p: seq<byte>)
    requires acc <= Record(p) && |acc| >= HEADER && |p| < MAX_SIZE
    ensures acc[..HEADER] == Header(|p|, false)
    ensures HeaderSize(acc[..HEADER]) == |p| && !HeaderPadded(acc[..HEADER])
  {
    assert Record(p)[..HEADER] == Header(|p|, false);
    HeaderRoundTrip(|p|, false);
  }

  lemma ReadStep(s: System, a: Action)
    requires Inv(s) && a.ConsumerRead? && Enabled(s, a)
    ensures Inv(Next(s, a))
  {
    UnderRead(s);
    var Reading(at, acc, skipped, seen) := s.consumer;
    if |acc| >= HEADER {
      HeaderTells(acc, Unread(s)[0]);
    }
    OneMoreRead(s.ring.buf, at, Record(Unread(s)[0]), acc);
  }

  lemma OneMoreRead(buf: seq<byte>, at: nat, rec: seq<byte>, acc: seq<byte>)
    requires at + |rec| <= |buf| && buf[at..at + |rec|] == rec
    requires acc <= rec && |acc| < |rec|
    ensures acc + [buf[at + |acc|]] <= rec
  {
    assert buf[at..at + |rec|][|acc|] == buf[at + |acc|];
  }

  lemma NoSkipStep(s: System)
    requires Inv(s)
    ensures !AtPad(s.consumer)
  {
    if s.consumer.Reading? && |s.consumer.acc| >= HEADER {
      UnderRead(s);
      HeaderTells(s.consumer.acc, Unread(s)[0]);
    }
  }

  // What has been read when as many bytes as the header says are there.
  lemma WholeRead(acc: seq<byte>, p: seq<byte>)
    requires acc <= Record(p) && |acc| >= HEADER && |p| < MAX_SIZE && |acc| == HEADER + HeaderSize(acc[..HEADER])
    ensures acc == Record(p) && acc[HEADER..] == p
  {
    HeaderTells(acc, p);
  }

  lemma CommitReadStep(s: System, a: Action)
    requires Inv(s) && a.ConsumerCommit? && Enabled(s, a)
    ensures Inv(Next(s, a))
  {
    UnderRead(s);
    WholeRead(s.consumer.acc, Unread(s)[0]);
    ReleaseHolds(s.ring, Unread(s));
    DeliveredGrows(s.committed, s.delivered);
  }

  lemma ReleaseHolds(q: Ring, c: seq<seq<byte>>)
    requires q.AtRest() && c != []
    requires Holds(q.cap, q.line, q.buf, After(q.read, |c[0]|, q.line), q.write, c[1..], false)
    ensures q.read <= After(q.read, |c[0]|, q.line)
    ensures q.(read := After(q.read, |c[0]|, q.line)).AtRest()
  {
    RoundUpBounds(q.read + |c[0]| + HEADER, q.line);
    HoldsOrder(q.cap, q.line, q.buf, After(q.read, |c[0]|, q.line), q.write, c[1..], false);
  }

  lemma DeliveredGrows(committed: seq<seq<byte>>, delivered: seq<seq<byte>>)
    requires |delivered| < |committed| && delivered == committed[..|delivered|]
    ensures var d := delivered + [committed[|delivered|..][0]];
            && d == committed[..|d|]
            && committed[|d|..] == committed[|delivered|..][1..]
  {
  }

  lemma StepKeepsInv(s: System, a: Action)
    requires Inv(s) && Enabled(s, a) && !StartsPad(s, a)
    ensures Inv(Next(s, a))
  {
    match a
    case ProducerAcquire(_, _) => AcquireWriteStep(s, a);
    case ProducerWrite => WriteStep(s, a);
    case ProducerPublishPad =>
    case ProducerCommit => CommitWriteStep(s, a);
    case ConsumerAcquire(_) => AcquireReadStep(s, a);
    case ConsumerRead => ReadStep(s, a);
    case ConsumerSkipPad => NoSkipStep(s);
    case ConsumerCommit => CommitReadStep(s, a);
  }

  // Under every interleaving, as long as no write pads: whatever has been
  // delivered is a prefix of what was committed, every slot the consumer
  // holds is for a committed record, and what it has read of it so far is
  // what was committed there.
  lemma {:induction false} RunsWithoutPadsAreSafe(s: System, schedule: seq<Action>)
    requires Inv(s) && CanRun(s, schedule) && NeverPads(s, schedule)
    ensures Inv(Run(s, schedule)) && Sound(Run(s, schedule))
    decreases |schedule|
  {
    if schedule != [] {
      StepKeepsInv(s, schedule[0]);
      RunsWithoutPadsAreSafe(Next(s, schedule[0]), schedule[1..]);
    }
  }

  // ---------------------------------------------------------------------
  // Uses that never pad

  // Records whose header and payload fit in one cache line never pad, so a
  // queue used for such records alone is safe under every interleaving.
  lemma {:induction false} LineRecordsAreSafe(s: System, schedule: seq<Action>)
    requires Inv(s) && CanRun(s, schedule)
    requires forall a :: a in schedule && a.ProducerAcquire? ==> |a.p| + HEADER <= s.ring.line
    ensures NeverPads(s, schedule)
    ensures Inv(Run(s, schedule)) && Sound(Run(s, schedule))
    decreases |schedule|
  {
    if schedule != [] {
      var a := schedule[0];
      assert a in schedule;
      AtRestCanAcquire(s.ring);
      StepKeepsInv(s, a);
      LineRecordsAreSafe(Next(s, a), schedule[1..]);
    }
  }

  // So do records that all take the same number of lines, when that number
  // divides the capacity.
  ghost predicate Strides(s: System, stride: nat) {
    && Inv(s)
    && 0 < stride && s.ring.cap % stride == 0 && s.ring.write % stride == 0
    && (s.producer.Filling? ==> RoundUp(|s.producer.rec|, s.ring.line) == stride)
  }

  predicate StrideAction(a: Action, line: nat, stride: nat)
    requires line > 0
  {
    a.ProducerAcquire? ==> RoundUp(|a.p| + HEADER, line) == stride
  }

  lemma StepKeepsStride(s: System, a: Action, stride: nat)
    requires Strides(s, stride) && Enabled(s, a) && StrideAction(a, s.ring.line, stride)
    ensures !StartsPad(s, a)
    ensures Strides(Next(s, a), stride) && Next(s, a).ring.line == s.ring.line
  {
    AlignedPosition(s.ring.write, s.ring.cap, stride);
    if a.ProducerAcquire? {
      RoundUpBounds(|a.p| + HEADER, s.ring.line);
    } else if a.ProducerCommit? {
      StrideStep(s.ring.write, |s.producer.rec|, s.ring.line, stride);
    }
    StepKeepsInv(s, a);
  }

  lemma {:induction false} FixedStrideIsSafe(s: System, schedule: seq<Action>, stride: nat)
    requires Strides(s, stride) && CanRun(s, schedule)
    requires forall a :: a in schedule ==> StrideAction(a, s.ring.line, stride)
    ensures NeverPads(s, schedule)
    ensures Inv(Run(s, schedule)) && Sound(Run(s, schedule))
    decreases |schedule|
  {
    if schedule != [] {
      var a := schedule[0];
      assert a in schedule;
      StepKeepsStride(s, a, stride);
      FixedStrideIsSafe(Next(s, a), schedule[1..], stride);
    }
  }

  lemma StrideStep(i: nat, d: nat, line: nat, stride: nat)
    requires 16 <= line && IsPow2(line) && 0 < stride && i % line == 0 && i % stride == 0
    requires RoundUp(d, line) == stride
    ensures RoundUp(i + d, line) % stride == 0
  {
    RoundUpFrom(i, d, line);
    SumOfMultiples(i, stride, stride);
  }
}
