// States in which a padded write goes wrong, reached from a new queue.

module SpscWitness {
  import opened Bytes
  import opened Bits
  import opened Wrappers
  import opened RingArithmetic
  import opened SpscRing
  import opened SpscFifo
  import opened SpscRuns
  import opened SpscMessages
  import opened SpscPromise
  import T = SpscThreads
  import R = SpscRace
  import A = SpscAlone

  // A ring as the constructor makes it for 256 bytes, with whatever its buffer
  // holds, where cache lines have 64.
  predicate New256(q: Ring) {
    q.cap == |q.buf| == 256 && q.line == 64 && q.read == q.write == 0
  }

  lemma New256AtRest(q: Ring)
    requires New256(q)
    ensures q.AtRest() && Messages(q, [], 56)
  {
    Pow2Add(4, 4);
    assert Pow2(6) == 64;
  }

  // Two records of 56 bytes come and go. The queue is then empty with both
  // indices at 128, accepts 150 bytes, and pads them over its own pad marker:
  // there is a payload that does not come back.
  lemma MisfitIsReached(q: Ring) returns (ops: seq<Op>, p: seq<byte>)
    requires New256(q)
    ensures Contains(q, [], true) && Disciplined(q, ops)
    ensures var u := Run(q, ops).ring;
            && Contains(u, [], true) && u.read == u.write == 128 && u.CanAcquireWrite()
            && |p| == 150 && u.HasRoom(150) && u.Pads(150) && !PadFits(u, 150)
            && !Drains(Push(u, p).1, [p])
  {
    New256AtRest(q);
    var small := seq(56, _ => 0);
    ops := Pairs(2, small);
    assert Lines(2, 64) == 128;
    LapFrom(q, small, 2, 64, 128);
    var u := Run(q, ops).ring;
    AtRestCanAcquire(u);
    p := MisfitLoses(u, [], 150);
    assert [] + [p] == [p];
  }

  // ---------------------------------------------------------------------
  // The same in the machine of atomic steps

  predicate LineOnly(schedule: seq<T.Action>, line: nat) {
    forall a :: a in schedule && a.ProducerAcquire? ==> |a.p| + HEADER <= line
  }

  lemma Produce(s: T.System, p: seq<byte>) returns (schedule: seq<T.Action>, t: T.System)
    requires T.Inv(s) && s.producer.Ready? && s.ring.read == s.ring.write
    requires 0 < |p| && |p| + HEADER <= s.ring.line < s.ring.cap
    ensures LineOnly(schedule, s.ring.line) && T.CanRun(s, schedule) && T.Run(s, schedule) == t
    ensures t == s.(ring := s.ring.(buf := t.ring.buf, write := After(s.ring.write, |p|, s.ring.line)),
                    producer := T.Ready(s.ring.read), committed := s.committed + [p])
  {
    AtRestCanAcquire(s.ring);
    schedule := A.ProducerAlone(s, p);
    t := A.Pushed(s, p);
    PushPlainIs(s.ring, p);
  }

  lemma NothingUnread(s: T.System)
    requires T.Inv(s) && s.ring.read == s.ring.write
    ensures T.Unread(s) == []
  {
    var q := s.ring;
    if T.Unread(s) != [] {
      var padded, base, next := HoldsFirst(q.cap, q.line, q.buf, q.read, q.write, T.Unread(s), false);
      HoldsOrder(q.cap, q.line, q.buf, next, q.write, T.Unread(s)[1..], false);
    }
  }

  // A record of at most a line is committed, read and released.
  lemma Round(s: T.System, p: seq<byte>) returns (schedule: seq<T.Action>, t: T.System)
    requires T.Inv(s) && s.producer.Ready? && s.consumer.Watching? && s.ring.read == s.ring.write
    requires 0 < |p| && |p| + HEADER <= s.ring.line < s.ring.cap
    ensures LineOnly(schedule, s.ring.line) && T.CanRun(s, schedule) && T.Run(s, schedule) == t
    ensures T.Inv(t) && t.producer.Ready? && t.consumer.Watching?
    ensures t.ring == s.ring.(buf := t.ring.buf, read := t.ring.read, write := t.ring.write)
    ensures t.ring.read == t.ring.write == s.ring.write + s.ring.line
  {
    var produce, u := Produce(s, p);
    T.LineRecordsAreSafe(s, produce);
    NothingUnread(s);
    assert T.Unread(u) == [p];
    LineStep(s.ring.write, |p|, s.ring.line);
    var q := u.ring;
    var padded, base, next := HoldsFirst(q.cap, q.line, q.buf, q.read, q.write, [p], false);
    var consume;
    consume, t := R.ConsumeRecord(u, p);
    R.RunAppend(s, produce, consume);
    schedule := produce + consume;
    T.LineRecordsAreSafe(s, schedule);
  }

  lemma TwoRounds(s: T.System, p: seq<byte>) returns (schedule: seq<T.Action>, t: T.System)
    requires T.Inv(s) && s.producer.Ready? && s.consumer.Watching? && s.ring.read == s.ring.write
    requires 0 < |p| && |p| + HEADER <= s.ring.line < s.ring.cap
    ensures T.CanRun(s, schedule) && T.NeverPads(s, schedule) && T.Run(s, schedule) == t
    ensures T.Inv(t) && t.producer.Ready?
    ensures t.ring == s.ring.(buf := t.ring.buf, read := t.ring.read, write := t.ring.write)
    ensures t.ring.read == t.ring.write == s.ring.write + 2 * s.ring.line
  {
    var first, mid := Round(s, p);
    var second;
    second, t := Round(mid, p);
    R.RunAppend(s, first, second);
    schedule := first + second;
    T.LineRecordsAreSafe(s, schedule);
  }

  // After two rounds of 56 bytes an acquire of 150 starts a pad, and so, by
  // PadRaces, a run that ends in an uncommitted record.
  lemma PadIsReached(q: Ring) returns (schedule: seq<T.Action>, a: T.Action)
    requires New256(q)
    ensures var s := T.System(q, T.Ready(0), T.Watching(0), [], []);
            && T.Inv(s) && T.CanRun(s, schedule) && T.NeverPads(s, schedule)
            && var u := T.Run(s, schedule);
            && T.Inv(u) && T.Enabled(u, a) && T.StartsPad(u, a) && |a.p| == 150
  {
    New256AtRest(q);
    T.InitialInv(q);
    var u;
    schedule, u := TwoRounds(T.System(q, T.Ready(0), T.Watching(0), [], []), seq(56, _ => 0));
    a := T.ProducerAcquire(seq(150, _ => 0), 128);
  }
}
