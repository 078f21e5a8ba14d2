// What goes wrong, under interleaving, when a write pads: the pad marker is
// published before the record behind it is written.

module SpscRace {
  import opened Bytes
  import opened Bits
  import opened RingArithmetic
  import opened SpscRing
  import opened SpscFifo
  import opened SpscThreads

  lemma {:induction false} RunAppend(s: System, a: seq<Action>, b: seq<Action>)
    requires WellFormed(s) && CanRun(s, a) && CanRun(Run(s, a), b)
    ensures CanRun(s, a + b) && Run(s, a + b) == Run(Run(s, a), b)
    decreases |a|
  {
    if a == [] {
      assert a + b == b;
    } else {
      assert (a + b)[1..] == a[1..] + b;
      RunAppend(Next(s, a[0]), a[1..], b);
    }
  }

  lemma RunOne(s: System, a: Action)
    requires WellFormed(s) && Enabled(s, a)
    ensures CanRun(s, [a]) && Run(s, [a]) == Next(s, a)
  {
  }

  predicate NoAcquire(schedule: seq<Action>) {
    forall a :: a in schedule ==> !a.ProducerAcquire?
  }

  lemma {:induction false} NoAcquireNeverPads(s: System, schedule: seq<Action>)
    requires WellFormed(s) && CanRun(s, schedule) && NoAcquire(schedule)
    ensures NeverPads(s, schedule)
    decreases |schedule|
  {
    if schedule != [] {
      assert schedule[0] in schedule;
      NoAcquireNeverPads(Next(s, schedule[0]), schedule[1..]);
    }
  }

  // ---------------------------------------------------------------------
  // The producer alone: writing and publishing the pad marker

  // One byte of it.
  lemma MarkOne(s: System, marker: seq<byte>) returns (t: System)
    requires WellFormed(s) && s.producer.Marking? && s.producer.k < HEADER && marker == PadMarker(s.ring)
    requires s.ring.write % s.ring.cap + HEADER <= s.ring.cap
    ensures Enabled(s, ProducerWrite) && Next(s, ProducerWrite) == t && WellFormed(t)
    ensures t == s.(ring := s.ring.(buf := t.ring.buf),
                    producer := Marking(s.producer.p, s.producer.k + 1, s.producer.seen))
    ensures var at := s.ring.write % s.ring.cap + s.producer.k;
            |t.ring.buf| == |s.ring.buf| &&
            Patch(t.ring.buf, at + 1, marker[s.producer.k + 1..]) == Patch(s.ring.buf, at, marker[s.producer.k..])
  {
    var k := s.producer.k;
    t := Next(s, ProducerWrite);
    PatchOneMore(s.ring.buf, s.ring.write % s.ring.cap + k, marker[k..]);
    assert marker[k..][1..] == marker[k + 1..];
  }

  lemma {:induction false} WriteMarker(s: System, marker: seq<byte>) returns (schedule: seq<Action>, t: System)
    requires WellFormed(s) && s.producer.Marking? && s.producer.k <= HEADER && marker == PadMarker(s.ring)
    requires s.ring.write % s.ring.cap + HEADER <= s.ring.cap
    ensures NoAcquire(schedule) && CanRun(s, schedule) && Run(s, schedule) == t
    ensures t.ring.buf == Patch(s.ring.buf, s.ring.write % s.ring.cap + s.producer.k, marker[s.producer.k..])
    ensures t == s.(ring := s.ring.(buf := t.ring.buf),
                    producer := Marking(s.producer.p, HEADER, s.producer.seen))
    decreases HEADER - s.producer.k
  {
    var k := s.producer.k;
    if k == HEADER {
      schedule, t := [], s;
      assert marker[k..] == [];
      PatchNothing(s.ring.buf, s.ring.write % s.ring.cap + k);
    } else {
      var s1 := MarkOne(s, marker);
      var rest;
      rest, t := WriteMarker(s1, marker);
      schedule := [ProducerWrite] + rest;
      StepThenRun(s, ProducerWrite, rest);
    }
  }

  lemma StepThenRun(s: System, a: Action, rest: seq<Action>)
    requires WellFormed(s) && Enabled(s, a) && CanRun(Next(s, a), rest)
    ensures CanRun(s, [a] + rest) && Run(s, [a] + rest) == Run(Next(s, a), rest)
    ensures NoAcquire(rest) && !a.ProducerAcquire? ==> NoAcquire([a] + rest)
  {
    assert ([a] + rest)[1..] == rest;
  }

  lemma PatchNothing(buf: seq<byte>, at: nat)
    requires at <= |buf|
    ensures Patch(buf, at, []) == buf
  {
  }

  lemma PatchOneMore(buf: seq<byte>, at: nat, bs: seq<byte>)
    requires bs != [] && at + |bs| <= |buf|
    ensures Patch(buf[at := bs[0]], at + 1, bs[1..]) == Patch(buf, at, bs)
  {
  }

  lemma PublishPad(s: System) returns (schedule: seq<Action>)
    requires WellFormed(s) && s.producer.Marking? && s.producer.k == 0
    requires s.ring.write % s.ring.cap + HEADER <= s.ring.cap
    ensures NoAcquire(schedule) && CanRun(s, schedule)
    ensures var q := s.ring;
            Run(s, schedule) == s.(
              ring := q.(buf := Patch(q.buf, q.write % q.cap, PadMarker(q)), write := PadEnd(q.write, q.cap)),
              producer := Filling(0, Record(s.producer.p), 0, s.producer.seen))
  {
    var q := s.ring;
    var t;
    schedule, t := WriteMarker(s, PadMarker(q));
    assert PadMarker(q)[0..] == PadMarker(q);
    RunOne(t, ProducerPublishPad);
    RunAppend(s, schedule, [ProducerPublishPad]);
    schedule := schedule + [ProducerPublishPad];
  }

  // ---------------------------------------------------------------------
  // The consumer alone: reading everything there is

  // rec is a record with its header, or a header alone.
  predicate Readable(rec: seq<byte>, skipped: bool) {
    && |rec| >= HEADER
    && (|rec| > HEADER ==>
          HeaderSize(rec[..HEADER]) == |rec| - HEADER && (skipped || !HeaderPadded(rec[..HEADER])))
  }

  lemma {:induction false} ReadOn(s: System, rec: seq<byte>) returns (schedule: seq<Action>)
    requires WellFormed(s) && s.consumer.Reading? && Readable(rec, s.consumer.skipped)
    requires s.consumer.at + |rec| <= s.ring.cap
    requires s.ring.buf[s.consumer.at..s.consumer.at + |rec|] == rec
    requires s.consumer.acc <= rec
    ensures NoAcquire(schedule) && CanRun(s, schedule)
    ensures Run(s, schedule) == s.(consumer := Reading(s.consumer.at, rec, s.consumer.skipped, s.consumer.seen))
    decreases |rec| - |s.consumer.acc|
  {
    var acc := s.consumer.acc;
    if acc == rec {
      schedule := [];
    } else {
      if |acc| >= HEADER {
        assert acc[..HEADER] == rec[..HEADER];
      }
      OneMoreRead(s.ring.buf, s.consumer.at, rec, acc);
      var rest := ReadOn(Next(s, ConsumerRead), rec);
      schedule := [ConsumerRead] + rest;
      assert schedule[1..] == rest;
    }
  }

  // The consumer gets from s to t with the producer standing still.
  ghost predicate Consumes(s: System, schedule: seq<Action>, t: System, w: nat, c: seq<seq<byte>>) {
    && WellFormed(s)
    && NoAcquire(schedule) && CanRun(s, schedule) && Run(s, schedule) == t
    && t.ring == s.ring.(read := w)
    && t.producer == s.producer
    && t.committed == s.committed
    && t.delivered == s.delivered + c
  }

  lemma ConsumesTwice(s: System, a: seq<Action>, t: System, v: nat, b: seq<Action>, u: System, w: nat,
                      c: seq<seq<byte>>)
    requires c != [] && Consumes(s, a, t, v, [c[0]]) && Consumes(t, b, u, w, c[1..])
    ensures Consumes(s, a + b, u, w, c)
  {
    RunAppend(s, a, b);
    assert s.delivered + [c[0]] + c[1..] == s.delivered + c;
  }

  // Reading to the end of the record the consumer is on, and releasing it.
  lemma FinishRecord(s: System, p: seq<byte>) returns (schedule: seq<Action>, t: System)
    requires WellFormed(s) && s.ring.cap <= MAX_SIZE
    requires s.consumer.Reading? && !s.consumer.skipped && s.consumer.at == s.ring.read % s.ring.cap
    requires 0 < |p| && RecordAt(s.ring.buf, s.consumer.at, p) && s.consumer.acc <= Record(p)
    ensures Consumes(s, schedule, t, After(s.ring.read, |p|, s.ring.line), [p])
    ensures t.consumer == Watching(s.consumer.seen)
  {
    var rec := Record(p);
    WholeRecord(s.ring.buf, s.consumer.at, p);
    HeaderTells(rec, p);
    var readAll := ReadOn(s, rec);
    var u := Run(s, readAll);
    assert rec[HEADER..] == p;
    RunOne(u, ConsumerCommit);
    t := Next(u, ConsumerCommit);
    RunAppend(s, readAll, [ConsumerCommit]);
    schedule := readAll + [ConsumerCommit];
  }

  lemma ConsumeRecord(s: System, p: seq<byte>) returns (schedule: seq<Action>, t: System)
    requires WellFormed(s) && s.ring.cap <= MAX_SIZE
    requires s.consumer.Watching? && s.consumer.seen <= s.ring.write && s.ring.read < s.ring.write
    requires 0 < |p| && RecordAt(s.ring.buf, s.ring.read % s.ring.cap, p)
    ensures Consumes(s, schedule, t, After(s.ring.read, |p|, s.ring.line), [p])
    ensures t.consumer == Watching(s.ring.write)
  {
    var a := ConsumerAcquire(s.ring.write);
    RunOne(s, a);
    var rest;
    rest, t := FinishRecord(Next(s, a), p);
    RunAppend(s, [a], rest);
    schedule := [a] + rest;
  }

  // Reading every record up to index w.
  lemma {:induction false} ConsumeAll(s: System, w: nat, c: seq<seq<byte>>)
    returns (schedule: seq<Action>, t: System)
    requires WellFormed(s) && s.ring.cap <= MAX_SIZE && IsPow2(s.ring.line)
    requires s.consumer.Watching? && s.consumer.seen <= s.ring.write && w <= s.ring.write
    requires Holds(s.ring.cap, s.ring.line, s.ring.buf, s.ring.read, w, c, false)
    ensures Consumes(s, schedule, t, w, c)
    ensures t.consumer.Watching? && t.consumer.seen <= s.ring.write
    decreases |c|
  {
    if c == [] {
      schedule, t := [], s;
    } else {
      var padded, base, next := HoldsFirst(s.ring.cap, s.ring.line, s.ring.buf, s.ring.read, w, c, false);
      HoldsOrder(s.ring.cap, s.ring.line, s.ring.buf, next, w, c[1..], false);
      var first, t1 := ConsumeRecord(s, c[0]);
      var rest;
      rest, t := ConsumeAll(t1, w, c[1..]);
      schedule := first + rest;
      ConsumesTwice(s, first, t1, next, rest, t, w, c);
    }
  }

  // ---------------------------------------------------------------------
  // The race

  // The consumer gets through the records c and then holds one more slot.
  ghost predicate Outruns(s: System, schedule: seq<Action>, c: seq<seq<byte>>) {
    && WellFormed(s)
    && NoAcquire(schedule) && CanRun(s, schedule)
    && Run(s, schedule).consumer.Reading?
    && Run(s, schedule).committed == s.committed
    && Run(s, schedule).delivered == s.delivered + c
  }

  lemma OutrunsLater(s: System, a: seq<Action>, t: System, v: nat, d: seq<seq<byte>>, b: seq<Action>,
                     c: seq<seq<byte>>)
    requires Consumes(s, a, t, v, d) && Outruns(t, b, c)
    ensures Outruns(s, a + b, d + c)
  {
    RunAppend(s, a, b);
    assert s.delivered + d + c == s.delivered + (d + c);
  }

  // The consumer meets a published pad marker, skips it, and holds a slot.
  lemma SkipPad(s: System, n: nat) returns (schedule: seq<Action>, t: System)
    requires WellFormed(s) && s.ring.cap <= MAX_SIZE && s.ring.read < s.ring.write
    requires s.consumer.Watching? && s.consumer.seen <= s.ring.write
    requires n > 0 && PadAt(s.ring.cap, s.ring.buf, s.ring.read, n)
    ensures NoAcquire(schedule) && CanRun(s, schedule) && Run(s, schedule) == t
    ensures t == s.(ring := s.ring.(read := PadEnd(s.ring.read, s.ring.cap)),
                    consumer := Reading(0, [], true, s.ring.write))
  {
    var q := s.ring;
    var a := ConsumerAcquire(q.write);
    RunOne(s, a);
    var first := Next(s, a);
    var m := q.read % q.cap;
    var marker := Header(q.cap - m + HEADER, true);
    HeaderRoundTrip(q.cap - m + HEADER, true);
    var readAll := ReadOn(first, marker);
    var u := Run(first, readAll);
    assert marker[..HEADER] == marker;
    RunOne(u, ConsumerSkipPad);
    t := Next(u, ConsumerSkipPad);
    RunAppend(first, readAll, [ConsumerSkipPad]);
    RunAppend(s, [a], readAll + [ConsumerSkipPad]);
    schedule := [a] + (readAll + [ConsumerSkipPad]);
  }

  lemma FollowPad(s: System, n: nat) returns (schedule: seq<Action>)
    requires WellFormed(s) && s.ring.cap <= MAX_SIZE && s.ring.read < s.ring.write
    requires s.consumer.Watching? && s.consumer.seen <= s.ring.write
    requires n > 0 && PadAt(s.ring.cap, s.ring.buf, s.ring.read, n)
    ensures Outruns(s, schedule, [])
  {
    var t;
    schedule, t := SkipPad(s, n);
  }

  // With the pad published and nothing else written, the consumer can read
  // every committed record and then be given a slot for one that is not,
  lemma IdleConsumerOutruns(s: System, w: nat, c: seq<seq<byte>>, n: nat) returns (schedule: seq<Action>)
    requires WellFormed(s) && s.ring.cap <= MAX_SIZE && IsPow2(s.ring.line)
    requires s.consumer.Watching? && s.consumer.seen <= s.ring.write && w < s.ring.write
    requires Holds(s.ring.cap, s.ring.line, s.ring.buf, s.ring.read, w, c, false)
    requires n > 0 && PadAt(s.ring.cap, s.ring.buf, w, n)
    ensures Outruns(s, schedule, c)
  {
    var all, t := ConsumeAll(s, w, c);
    var pad := FollowPad(t, n);
    OutrunsLater(s, all, t, w, c, pad, []);
    assert c + [] == c;
    schedule := all + pad;
  }

  // also when it is in the middle of one.
  lemma BusyConsumerOutruns(s: System, w: nat, c: seq<seq<byte>>, n: nat) returns (schedule: seq<Action>)
    requires WellFormed(s) && s.ring.cap <= MAX_SIZE && IsPow2(s.ring.line)
    requires s.consumer.seen <= s.ring.write && w < s.ring.write
    requires Holds(s.ring.cap, s.ring.line, s.ring.buf, s.ring.read, w, c, false)
    requires n > 0 && PadAt(s.ring.cap, s.ring.buf, w, n)
    requires && s.consumer.Reading? && c != []
             && !s.consumer.skipped && s.consumer.at == s.ring.read % s.ring.cap
             && s.consumer.acc <= Record(c[0])
    ensures Outruns(s, schedule, c)
  {
    var padded, base, next := HoldsFirst(s.ring.cap, s.ring.line, s.ring.buf, s.ring.read, w, c, false);
    var first, t := FinishRecord(s, c[0]);
    var rest := IdleConsumerOutruns(t, w, c[1..], n);
    OutrunsLater(s, first, t, next, [c[0]], rest, c[1..]);
    assert [c[0]] + c[1..] == c;
    schedule := first + rest;
  }

  // The published marker lies beyond the unread records, which are still
  // readable.
  lemma MarkerKeepsUnread(q: Ring, c: seq<seq<byte>>)
    requires q.AtRest() && Holds(q.cap, q.line, q.buf, q.read, q.write, c, false)
    requires q.write - q.read + HEADER < q.cap && q.write % q.cap > 0
    ensures q.write % q.cap + HEADER <= q.cap
    ensures var buf := Patch(q.buf, q.write % q.cap, PadMarker(q));
            && Holds(q.cap, q.line, buf, q.read, q.write, c, false)
            && PadAt(q.cap, buf, q.write, 1)
  {
    AtRestCanAcquire(q);
    AlignedPositive(q.write % q.cap, q.line);
    PatchBeyond(q.cap, q.buf, q.read, q.write, q.write, PadMarker(q));
    HoldsFrame(q.cap, q.line, q.buf, Patch(q.buf, q.write % q.cap, PadMarker(q)), q.read, q.write, c, false);
  }

  lemma StartPad(s: System, a: Action) returns (schedule: seq<Action>)
    requires Inv(s) && Enabled(s, a) && StartsPad(s, a)
    ensures NoAcquire(schedule) && CanRun(Next(s, a), schedule)
    ensures var q, u := s.ring, Run(Next(s, a), schedule);
            && u == s.(ring := q.(buf := u.ring.buf, write := u.ring.write), producer := u.producer)
            && u.ring.write > q.write
            && Holds(q.cap, q.line, u.ring.buf, q.read, q.write, Unread(s), false)
            && PadAt(q.cap, u.ring.buf, q.write, 1)
  {
    var q := s.ring;
    AtRestCanAcquire(q);
    MarkerKeepsUnread(q, Unread(s));
    schedule := PublishPad(Next(s, a));
  }

  // From any state that a run without pads reaches, a write that starts a pad
  // has a continuation, itself without further pads, in which the consumer
  // holds a slot for a record that was never committed.
  lemma PadRaces(s: System, a: Action) returns (rest: seq<Action>)
    requires Inv(s) && Enabled(s, a) && StartsPad(s, a)
    ensures CanRun(Next(s, a), rest) && NeverPads(Next(s, a), rest)
    ensures !Sound(Run(Next(s, a), rest))
  {
    var publish := StartPad(s, a);
    var t := Next(s, a);
    var outrun := AfterPad(s, Run(t, publish));
    RunAppend(t, publish, outrun);
    rest := publish + outrun;
    NoAcquireNeverPads(t, rest);
  }

  lemma AfterPad(s: System, u: System) returns (schedule: seq<Action>)
    requires Inv(s) && WellFormed(u)
    requires u == s.(ring := s.ring.(buf := u.ring.buf, write := u.ring.write), producer := u.producer)
    requires u.ring.write > s.ring.write
    requires Holds(s.ring.cap, s.ring.line, u.ring.buf, s.ring.read, s.ring.write, Unread(s), false)
    requires PadAt(s.ring.cap, u.ring.buf, s.ring.write, 1)
    ensures WellFormed(u) && NoAcquire(schedule) && CanRun(u, schedule) && !Sound(Run(u, schedule))
  {
    if s.consumer.Watching? {
      schedule := IdleConsumerOutruns(u, s.ring.write, Unread(s), 1);
    } else {
      schedule := BusyConsumerOutruns(u, s.ring.write, Unread(s), 1);
    }
    assert s.delivered + Unread(s) == s.committed;
  }

  // So an accepted write keeps every continuation sound exactly when it does
  // not pad.
  lemma PadExact(s: System, a: Action)
    requires Inv(s) && a.ProducerAcquire? && Enabled(s, a) && Accepts(s.ring, |a.p|, a.r)
    ensures (forall rest: seq<Action> :: CanRun(Next(s, a), rest) && NeverPads(Next(s, a), rest)
                                         ==> Sound(Run(Next(s, a), rest)))
            <==> !s.ring.Pads(|a.p|)
  {
    if s.ring.Pads(|a.p|) {
      var rest := PadRaces(s, a);
    } else {
      StepKeepsInv(s, a);
      forall rest: seq<Action> | CanRun(Next(s, a), rest) && NeverPads(Next(s, a), rest)
        ensures Sound(Run(Next(s, a), rest))
      {
        RunsWithoutPadsAreSafe(Next(s, a), rest);
      }
    }
  }
}
