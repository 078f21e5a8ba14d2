// "At least capacity messages can fit": for which sizes a message queue takes
// as many messages as it was asked for, and from which positions.

module SpscPromise {
  import opened Bytes
  import opened Bits
  import opened Wrappers
  import opened RingArithmetic
  import opened SpscRing
  import opened SpscFifo
  import opened SpscRuns
  import opened SpscMessages

  // SPSCMessageQueue::read_size
  function ReadSize(n: nat, line: nat): nat
    requires line > 0
  {
    if n > line then n + (line - n % line) else line
  }

  // A ring as the constructor makes it for a requested number of messages.
  ghost predicate FreshFor(q: Ring, count: nat, n: nat, line: nat) {
    && q.read == q.write == 0
    && q.line == line
    && q.AtRest()
    && count > 0
    && IsQueueCapacity(q.cap, count * ReadSize(n, line), line)
  }

  ghost predicate IsQueueCapacity(cap: nat, requested: nat, line: nat) {
    exists p: nat :: IsPow2(p) && requested <= p < 2 * requested && cap == if p < line then line else p
  }

  // A message starts in the last cache line of its read_size or before.
  lemma ReadSizeAligned(n: nat, line: nat)
    requires line > 0
    ensures ReadSize(n, line) % line == 0 && ReadSize(n, line) >= line
    ensures n > 0 ==> ReadSize(n, line) - line < n + HEADER
    ensures n <= ReadSize(n, line) <= n + line
  {
    if n > line {
      var k := n / line;
      assert ReadSize(n, line) == line * (k + 1);
      QuotientUnique(line * (k + 1), line, k + 1, 0);
    } else {
      QuotientUnique(line, line, 1, 0);
    }
  }

  // read_size is one cache line, or for larger messages the least multiple of
  // the line above the message: a message that is such a multiple itself gets
  // a line more.
  lemma ReadSizeLeast(n: nat, line: nat)
    requires line > 0
    ensures n <= line ==> ReadSize(n, line) == line
    ensures n > line ==>
              && ReadSize(n, line) % line == 0 && n < ReadSize(n, line)
              && forall m: nat :: m % line == 0 && n < m ==> ReadSize(n, line) <= m
  {
    ReadSizeAligned(n, line);
    if n > line {
      forall m: nat | m % line == 0 && n < m ensures ReadSize(n, line) <= m {
        MultiplesApart(ReadSize(n, line), m, line);
      }
    }
  }

  // How many cache lines read_size has, and what it leaves beside a message.

  function LinesOf(n: nat, line: nat): nat
    requires line > 0
  {
    if n > line then n / line + 1 else 1
  }

  function Beside(n: nat, line: nat): nat
    requires line > 0
  {
    if n > line then line - n % line else line - n
  }

  lemma ReadSizeIs(n: nat, line: nat)
    requires line > 0
    ensures ReadSize(n, line) == n + Beside(n, line)
    ensures ReadSize(n, line) / line == LinesOf(n, line)
  {
    if n > line {
      var k := n / line;
      assert ReadSize(n, line) == line * (k + 1);
      QuotientUnique(line * (k + 1), line, k + 1, 0);
    } else {
      QuotientUnique(line, line, 1, 0);
    }
  }

  // The sizes whose messages all take read_size bytes of index, pads included,
  // or never pad.
  ghost predicate Steady(n: nat, line: nat)
    requires line > 0
  {
    24 <= Beside(n, line) || (8 < Beside(n, line) && IsPow2(LinesOf(n, line)))
  }

  lemma SteadyMeans(n: nat, line: nat)
    requires line > 0
    ensures var size := ReadSize(n, line);
            Steady(n, line) <==> n + 3 * HEADER <= size || (IsPow2(size / line) && n + HEADER < size)
  {
    ReadSizeIs(n, line);
  }

  // Messages of a multiple of the line are steady, lines being of 32 bytes or
  // more.
  lemma MultiplesAreSteady(k: nat, line: nat)
    requires k > 1 && 32 <= line
    ensures Steady(k * line, line)
  {
    QuotientUnique(k * line, line, k, 0);
    MulMonotonic(line, 2, k);
  }

  // ---------------------------------------------------------------------
  // Indices that move on by read_size

  lemma RoundStep(i: nat, d: nat, line: nat, size: nat)
    requires line > 0 && IsPow2(line) && i % line == 0 && size % line == 0
    requires line <= size && size - line < d <= size
    ensures RoundUp(i + d, line) == i + size
  {
    RoundUpBounds(i + d, line);
    SumOfMultiples(i, size, line);
    RoundUpLeast(i + d, line, i + size);
    MultiplesApart(i + size, RoundUp(i + d, line), line);
  }

  // A message that does not wrap leaves its whole read_size before the end.
  lemma PlainStep(i: nat, n: nat, cap: nat, line: nat, size: nat)
    requires Geometry(cap, line) && i % line == 0 && size % line == 0 && line <= size
    requires size - line < n + HEADER <= size
    requires i % cap % size == 0 && i % cap + n + HEADER <= cap
    ensures After(i, n, line) == i + size
    ensures i % cap + size <= cap
    ensures (i + size) % cap == (if i % cap + size == cap then 0 else i % cap + size)
    ensures (i + size) % cap % size == 0
  {
    RoundStep(i, n + HEADER, line, size);
    AlignedPosition(i, cap, line);
    SumOfMultiples(i % cap, size, line);
    DifferenceOfMultiples(i % cap + size, line, line);
    MultiplesBelow(i % cap + size - line, cap, line);
    PositionForward(i, size, cap);
    SumOfMultiples(i % cap, size, size);
  }

  // A message that pads stands behind the last whole read_size of the lap, and
  // ends a read_size into the next one.
  lemma PadStep(i: nat, n: nat, cap: nat, line: nat, size: nat)
    requires Geometry(cap, line) && i % line == 0 && size % line == 0 && line <= size <= cap
    requires size - line < n + HEADER && n + 3 * HEADER <= size
    requires i % cap % size == 0 && i % cap + n + HEADER > cap
    ensures After(PadEnd(i, cap), n, line) == i - i % cap + cap + size
    ensures i % cap == cap - cap % size
    ensures (i - i % cap + cap + size) % cap == if size == cap then 0 else size
  {
    var m, lap := i % cap, i - i % cap + cap;
    LapIsAligned(i, cap, line);
    RoundStep(lap, n + 3 * HEADER, line, size);
    LastStep(m, n, cap, size);
    NextLap(i, cap);
    PositionForward(lap, size, cap);
  }

  lemma LastStep(m: nat, n: nat, cap: nat, size: nat)
    requires 0 < size && m % size == 0 && m < cap < m + n + HEADER && n + HEADER <= size
    ensures m == cap - cap % size
  {
    var t := cap - cap % size;
    LowCleared(cap, size);
    MultiplesApart(t, m, size);
    MultiplesApart(m, t, size);
  }

  // A ring whose writer moves on by read_size, or by that from the next lap.
  ghost predicate Stepped(q: Ring, n: nat) {
    && q.AtRest() && n > 0
    && var size := ReadSize(n, q.line);
    && size <= q.cap && n + HEADER < size
    && (q.cap % size == 0 || n + 3 * HEADER <= size)
    && q.write % q.cap % size == 0
  }

  lemma PlainPushSteps(q: Ring, p: seq<byte>)
    requires Stepped(q, |p|) && q.HasRoom(|p|) && !q.Pads(|p|) && q.CanAcquireWrite()
    ensures var q1, size := Push(q, p).1, ReadSize(|p|, q.line);
            && Push(q, p).0 == Accepted && Stepped(q1, |p|) && q1 == q.(buf := q1.buf, write := q.write + size)
            && q1.write % q.cap <= q.write % q.cap + size
  {
    var n, size := |p|, ReadSize(|p|, q.line);
    ReadSizeAligned(n, q.line);
    PushPlainIs(q, p);
    PlainStep(q.write, n, q.cap, q.line, size);
    RoundUpBounds(q.write + n + HEADER, q.line);
  }

  lemma PaddedPushSteps(q: Ring, p: seq<byte>)
    requires Stepped(q, |p|) && q.HasRoom(|p|) && q.Pads(|p|) && q.CanAcquireWrite()
    ensures var q1, m, size := Push(q, p).1, q.write % q.cap, ReadSize(|p|, q.line);
            && Push(q, p).0 == Accepted && Stepped(q1, |p|)
            && q1 == q.(buf := q1.buf, write := q.write - m + q.cap + size)
            && q1.write % q.cap <= size && m == q.cap - q.cap % size
  {
    var n, size := |p|, ReadSize(|p|, q.line);
    ReadSizeAligned(n, q.line);
    PadsNotWhole(q, n, size);
    PushPaddedIs(q, p);
    PadStep(q.write, n, q.cap, q.line, size);
    RoundUpBounds(PadEnd(q.write, q.cap) + n + HEADER, q.line);
    QuotientUnique(size, size, 1, 0);
  }

  lemma PushSteps(q: Ring, p: seq<byte>)
    requires Stepped(q, |p|) && q.HasRoom(|p|)
    ensures q.CanAcquireWrite() && Push(q, p).0 == Accepted
    ensures var q1, m, size := Push(q, p).1, q.write % q.cap, ReadSize(|p|, q.line);
            && Stepped(q1, |p|) && q1 == q.(buf := q1.buf, write := q1.write)
            && q1.write == (if q.Pads(|p|) then q.write - m + q.cap else q.write) + size
            && q1.write % q.cap <= (if q.Pads(|p|) then size else m + size)
            && (q.Pads(|p|) ==> m == q.cap - q.cap % size)
  {
    AtRestCanAcquire(q);
    if q.Pads(|p|) {
      PaddedPushSteps(q, p);
    } else {
      PlainPushSteps(q, p);
    }
  }

  // A capacity of whole steps has no pads.
  lemma PadsNotWhole(q: Ring, n: nat, size: nat)
    requires q.cap > 0 && size > 0 && q.write % q.cap % size == 0 && n + HEADER < size && q.Pads(n)
    ensures q.cap % size != 0
  {
    if q.cap % size == 0 {
      MultiplesBelow(q.write % q.cap, q.cap, size);
    }
  }

  // ---------------------------------------------------------------------
  // Steady sizes: the promise is kept wherever the indices are.

  // Room for k messages, the writer being in the reader's next lap or the
  // rest of the capacity being left for a pad.
  ghost predicate Budget(q: Ring, n: nat, k: nat)
    requires q.cap > 0 && q.line > 0 && q.read <= q.write
  {
    var size := ReadSize(n, q.line);
    var need := q.write - q.read + Lines(k, size);
    need <= q.cap && (q.write - q.read >= q.write % q.cap || need <= q.cap - q.cap % size)
  }

  lemma StepBudget(q: Ring, p: seq<byte>, k: nat)
    requires Stepped(q, |p|) && k > 0 && Budget(q, |p|, k)
    ensures q.CanAcquireWrite() && Push(q, p).0 == Accepted
    ensures Stepped(Push(q, p).1, |p|) && Budget(Push(q, p).1, |p|, k - 1)
    ensures Push(q, p).1.line == q.line
  {
    PushSteps(q, p);
    if q.Pads(|p|) {
      AtRestCanAcquire(q);
      PaddingReader(q, |p|);
    }
  }

  lemma {:induction false} AcceptsSteps(q: Ring, n: nat, ps: seq<seq<byte>>)
    requires Stepped(q, n) && AllSized(ps, n) && Budget(q, n, |ps|)
    ensures AcceptsAll(q, ps)
    decreases |ps|
  {
    if ps != [] {
      SizedRest(ps, n);
      StepBudget(q, ps[0], |ps|);
      AcceptsSteps(Push(q, ps[0]).1, n, ps[1..]);
    }
  }

  // Every run of messages of the size leaves the ring stepped.
  lemma {:induction false} SteppedRun(q: Ring, c: seq<seq<byte>>, n: nat, ops: seq<Op>)
    requires Messages(q, c, n) && Stepped(q, n) && PushesOnly(ops, n)
    ensures Disciplined(q, ops)
    ensures var q1 := Run(q, ops).ring;
            Stepped(q1, n) && q1.cap == q.cap && q1.line == q.line
    decreases |ops|
  {
    if ops != [] {
      MessageRunIsDisciplined(q, c, n, ops);
      assert PushesOnly(ops[1..], n) by {
        forall op | op in ops[1..] ensures op in ops {
        }
      }
      var c1 := SteppedOp(q, c, n, ops[0]);
      SteppedRun(SpscRuns.Step(q, ops[0]).ring, c1, n, ops[1..]);
    }
  }

  lemma SteppedOp(q: Ring, c: seq<seq<byte>>, n: nat, op: Op) returns (c1: seq<seq<byte>>)
    requires Messages(q, c, n) && Stepped(q, n) && (op.PushOp? ==> |op.payload| == n)
    requires CanStep(q, op)
    ensures var q1 := SpscRuns.Step(q, op).ring;
            Messages(q1, c1, n) && Stepped(q1, n) && q1.cap == q.cap && q1.line == q.line
  {
    match op
    case PushOp(p) =>
      PushMessage(q, c, p);
      if q.HasRoom(n) {
        PushSteps(q, p);
        c1 := c + [p];
      } else {
        c1 := c;
      }
    case PopOp =>
      PopMessage(q, c, n);
      PopHead(q, c, true);
      c1 := if c == [] then c else c[1..];
  }

  lemma CapacityIsEnough(cap: nat, requested: nat, line: nat)
    requires IsQueueCapacity(cap, requested, line) && IsPow2(line)
    ensures requested <= cap && IsPow2(cap)
  {
  }

  lemma FreshCapacity(q: Ring, count: nat, n: nat, line: nat)
    requires 0 < n && FreshFor(q, count, n, line) && IsPow2(line)
    ensures ReadSize(n, line) <= Lines(count, ReadSize(n, line)) <= q.cap && IsPow2(q.cap)
    ensures q.read == q.write == 0 && q.AtRest() && q.line == line
  {
    var size := ReadSize(n, line);
    LinesIsProduct(count, size);
    CapacityIsEnough(q.cap, Lines(count, size), line);
  }

  lemma FreshIsStepped(q: Ring, count: nat, n: nat, line: nat)
    requires 0 < n && FreshFor(q, count, n, line) && Steady(n, line) && IsPow2(line)
    ensures Stepped(q, n) && Messages(q, [], n) && Budget(q, n, count)
  {
    FreshCapacity(q, count, n, line);
    StartIsStepped(q, count, n, line);
  }

  lemma StartIsStepped(q: Ring, count: nat, n: nat, line: nat)
    requires 0 < n && q.AtRest() && q.read == q.write == 0 && q.line == line && IsPow2(q.cap) && IsPow2(line)
    requires ReadSize(n, line) <= Lines(count, ReadSize(n, line)) <= q.cap && Steady(n, line)
    ensures Stepped(q, n) && Messages(q, [], n) && Budget(q, n, count)
  {
    SteadySize(n, line, q.cap);
    StartsLap(q.cap, ReadSize(n, line));
  }

  lemma StartsLap(cap: nat, size: nat)
    requires cap > 0 && size > 0
    ensures 0 % cap == 0 && 0 % cap % size == 0
  {
  }

  lemma SteadySize(n: nat, line: nat, cap: nat)
    requires line > 0 && Steady(n, line) && IsPow2(line) && IsPow2(cap) && ReadSize(n, line) <= cap
    ensures var size := ReadSize(n, line);
            && 0 < size && n + HEADER < size
            && (cap % size == 0 || n + 3 * HEADER <= size)
  {
    var size := ReadSize(n, line);
    ReadSizeAligned(n, line);
    SteadyMeans(n, line);
    if n + 3 * HEADER > size {
      SizeIsPower(size, line);
      PowersDivide(size, cap);
    }
  }

  lemma SizeIsPower(size: nat, line: nat)
    requires line > 0 && size % line == 0 && IsPow2(line) && IsPow2(size / line)
    ensures IsPow2(size)
  {
    PowersMultiply(line, size / line);
  }

  lemma FreshBudget(cap: nat, count: nat, size: nat)
    requires size > 0 && Lines(count, size) <= cap
    ensures Lines(count, size) <= cap - cap % size
  {
    LinesAreWhole(count, size);
    LowCleared(cap, size);
    MultiplesApart(Lines(count, size), cap - cap % size, size);
  }

  // What the promise says of a queue made for the messages ps, after the run
  // ops and once it is empty again.
  ghost predicate Keeps(q: Ring, ops: seq<Op>, ps: seq<seq<byte>>) {
    && Disciplined(q, ops)
    && var used := Run(q, ops).ring;
    && (used.read == used.write ==> AcceptsAll(used, ps))
  }

  lemma PromiseKept(q: Ring, ops: seq<Op>, ps: seq<seq<byte>>, n: nat, line: nat)
    requires 0 < n && IsPow2(line) && FreshFor(q, |ps|, n, line) && PushesOnly(ops, n) && AllSized(ps, n)
    requires Steady(n, line)
    ensures Keeps(q, ops, ps)
  {
    FreshIsStepped(q, |ps|, n, line);
    SteppedRun(q, [], n, ops);
    var used := Run(q, ops).ring;
    if used.read == used.write {
      FreshCapacity(q, |ps|, n, line);
      FreshBudget(q.cap, |ps|, ReadSize(n, line));
      AcceptsSteps(used, n, ps);
    }
  }

  // ---------------------------------------------------------------------
  // Other sizes: somewhere it is broken.

  // Every accepted message takes at least its own lines.
  lemma TakesLines(i: nat, j: nat, d: nat, line: nat)
    requires line > 0 && IsPow2(line) && i % line == 0 && j % line == 0 && i + d <= j
    ensures i + RoundUp(d, line) <= j
  {
    DifferenceOfMultiples(j, i, line);
    RoundUpLeast(d, line, j - i);
  }

  lemma PushTakes(q: Ring, ps: seq<seq<byte>>) returns (q1: Ring)
    requires ps != [] && q.AtRest() && |ps[0]| > 0 && q.HasRoom(|ps[0]|)
    ensures q1.AtRest() && q1 == q.(buf := q1.buf, write := q1.write)
    ensures q1.write >= q.write + RoundUp(|ps[0]| + HEADER, q.line)
    ensures AcceptsAll(q, ps) ==> AcceptsAll(q1, ps[1..])
  {
    var p := ps[0];
    AtRestCanAcquire(q);
    var start := if q.Pads(|p|) then PadEnd(q.write, q.cap) else q.write;
    if q.Pads(|p|) {
      PushPaddedIs(q, p);
    } else {
      PushPlainIs(q, p);
    }
    q1 := Push(q, p).1;
    RoundUpBounds(start + |p| + HEADER, q.line);
    TakesLines(q.write, After(start, |p|, q.line), |p| + HEADER, q.line);
  }

  lemma {:induction false} NotEnough(q: Ring, n: nat, ps: seq<seq<byte>>)
    requires q.AtRest() && n > 0 && ps != [] && AllSized(ps, n)
    requires q.write - q.read + Lines(|ps| - 1, RoundUp(n + HEADER, q.line)) + n + HEADER >= q.cap
    ensures !AcceptsAll(q, ps)
    decreases |ps|
  {
    SizedRest(ps, n);
    if !q.HasRoom(n) {
      AtRestCanAcquire(q);
    } else {
      var q1 := PushTakes(q, ps);
      if |ps| > 1 {
        NotEnough(q1, n, ps[1..]);
      }
    }
  }

  function NewRing(cap: nat, line: nat): Ring {
    Ring(cap, line, seq(cap, _ => 0), 0, 0)
  }

  function Copies(p: seq<byte>, count: nat): (ps: seq<seq<byte>>)
    ensures |ps| == count
  {
    seq(count, _ => p)
  }

  // Asked for as many messages as fit a power of two, the constructor makes a
  // ring of that capacity.
  lemma NewIsFreshFor(cap: nat, n: nat, line: nat)
    requires 0 < n && 16 <= line && IsPow2(line) && IsPow2(cap) && ReadSize(n, line) <= cap <= MAX_SIZE
    ensures var count := cap / ReadSize(n, line);
            count > 0 && FreshFor(NewRing(cap, line), count, n, line) && Messages(NewRing(cap, line), [], n)
  {
    var size := ReadSize(n, line);
    ReadSizeAligned(n, line);
    Quotient(cap, size);
    PowersDivide(line, cap);
    QuotientUnique(0, line, 0, 0);
    QuotientUnique(0, cap, 0, 0);
  }

  lemma Quotient(cap: nat, size: nat)
    requires 0 < size <= cap
    ensures cap / size > 0 && cap / size * size <= cap < 2 * (cap / size * size)
    ensures cap == Lines(cap / size, size) + cap % size
  {
    var count := cap / size;
    assert cap == size * count + cap % size;
    assert size * count == count * size;
    LinesIsProduct(count, size);
    if count >= 1 {
      MulMonotonic(size, 1, count);
    }
  }

  // Message and header do not fit below a whole number of lines that is a
  // power of two: a queue asked for one message has just these lines.
  lemma OneBreaks(n: nat, line: nat)
    requires 0 < n && 16 <= line && IsPow2(line)
    requires IsPow2(ReadSize(n, line) / line) && ReadSize(n, line) <= n + HEADER && ReadSize(n, line) <= MAX_SIZE
    ensures var q, ps := NewRing(ReadSize(n, line), line), Copies(seq(n, _ => 0), 1);
            FreshFor(q, |ps|, n, line) && AllSized(ps, n) && !AcceptsAll(q, ps)
  {
    var size := ReadSize(n, line);
    ReadSizeAligned(n, line);
    PowersMultiply(line, size / line);
    NewIsFreshFor(size, n, line);
    QuotientUnique(size, size, 1, 0);
    NotEnough(NewRing(size, line), n, Copies(seq(n, _ => 0), 1));
  }

  // Message and header take a line more than read_size says: enough of them
  // take more lines than the capacity has to spare.
  lemma ManyBreak(n: nat, line: nat, cap: nat, count: nat)
    requires 0 < n && 16 <= line && IsPow2(line) && IsPow2(cap) && cap <= MAX_SIZE
    requires ReadSize(n, line) < n + HEADER && ReadSize(n, line) <= cap && count == cap / ReadSize(n, line)
    requires ReadSize(n, line) <= Lines(count, line)
    ensures var q, ps := NewRing(cap, line), Copies(seq(n, _ => 0), count);
            FreshFor(q, |ps|, n, line) && AllSized(ps, n) && !AcceptsAll(q, ps)
  {
    NewIsFreshFor(cap, n, line);
    LinesRunOut(n, line, cap, count);
    NotEnough(NewRing(cap, line), n, Copies(seq(n, _ => 0), count));
  }

  lemma LinesRunOut(n: nat, line: nat, cap: nat, count: nat)
    requires 0 < n && 16 <= line && IsPow2(line) && IsPow2(cap)
    requires ReadSize(n, line) < n + HEADER && ReadSize(n, line) <= cap && count == cap / ReadSize(n, line)
    requires ReadSize(n, line) <= Lines(count, line)
    ensures count > 0 && Lines(count - 1, RoundUp(n + HEADER, line)) + n + HEADER >= cap
  {
    var size, taken := ReadSize(n, line), RoundUp(n + HEADER, line);
    ReadSizeAligned(n, line);
    PowersDivide(line, cap);
    AlignedPosition(cap, size, line);
    Quotient(cap, size);
    LineMore(n + HEADER, size, line);
    LinesOver(cap, size, cap % size, line, count, taken, n + HEADER);
  }

  lemma LineMore(d: nat, size: nat, line: nat)
    requires line > 0 && IsPow2(line) && size % line == 0 && size < d
    ensures size + line <= RoundUp(d, line)
  {
    RoundUpBounds(d, line);
    MultiplesBelow(size, RoundUp(d, line), line);
  }

  lemma LinesOver(cap: nat, size: nat, rest: nat, line: nat, count: nat, taken: nat, d: nat)
    requires count > 0 && cap == Lines(count, size) + rest && rest + line <= size
    requires size <= Lines(count, line) && size + line <= taken && size < d
    ensures Lines(count - 1, taken) + d >= cap
  {
    LinesGrow(count - 1, size, line, taken);
  }

  lemma Quotients(cap: nat, size: nat, lines: nat)
    requires size > 0 && size * lines <= cap
    ensures lines <= cap / size
  {
    var count := cap / size;
    assert cap == size * count + cap % size;
    if count + 1 <= lines {
      MulMonotonic(size, count + 1, lines);
    }
  }

  lemma {:induction false} LinesGrow(k: nat, a: nat, b: nat, c: nat)
    requires a + b <= c
    ensures Lines(k, a) + Lines(k, b) <= Lines(k, c)
  {
    if k > 0 {
      LinesGrow(k - 1, a, b, c);
    }
  }

  // ---------------------------------------------------------------------
  // A pad takes a line more than read_size says: after as many messages as
  // fit the lap have come and gone, the next ones do not all fit.

  function Pairs(k: nat, p: seq<byte>): seq<Op> {
    if k == 0 then [] else [PushOp(p)] + ([PopOp] + Pairs(k - 1, p))
  }

  lemma {:induction false} PairsOnly(k: nat, p: seq<byte>)
    ensures PushesOnly(Pairs(k, p), |p|)
  {
    if k > 0 {
      PairsOnly(k - 1, p);
      forall op | op in Pairs(k, p) && op.PushOp? ensures |op.payload| == |p| {
        assert op == PushOp(p) || op == PopOp || op in Pairs(k - 1, p);
      }
    }
  }

  ghost predicate Empty(q: Ring, n: nat, cap: nat, line: nat, index: nat) {
    Messages(q, [], n) && q.cap == cap && q.line == line && q.write == q.read == index
  }

  // The run ops leaves an empty ring with both indices at index.
  ghost predicate Reaches(q: Ring, ops: seq<Op>, n: nat, cap: nat, line: nat, index: nat)
    decreases |ops|
  {
    if ops == [] then Empty(q, n, cap, line, index)
    else
      && CanStep(q, ops[0])
      && (ops[0].PushOp? ==> Fits(q, ops[0].payload))
      && Reaches(Step(q, ops[0]).ring, ops[1..], n, cap, line, index)
  }

  lemma {:induction false} ReachesIs(q: Ring, ops: seq<Op>, n: nat, cap: nat, line: nat, index: nat)
    requires Reaches(q, ops, n, cap, line, index)
    ensures Disciplined(q, ops) && Empty(Run(q, ops).ring, n, cap, line, index)
    decreases |ops|
  {
    if ops != [] {
      ReachesIs(Step(q, ops[0]).ring, ops[1..], n, cap, line, index);
    }
  }

  lemma {:induction false} ReachesAfter(q: Ring, q1: Ring, op: Op, rest: seq<Op>, n: nat, cap: nat, line: nat,
                                        index: nat)
    requires CanStep(q, op) && (op.PushOp? ==> Fits(q, op.payload)) && Step(q, op).ring == q1
    requires Reaches(q1, rest, n, cap, line, index)
    ensures Reaches(q, [op] + rest, n, cap, line, index)
  {
    assert ([op] + rest)[1..] == rest;
  }

  // A message pushed onto an empty ring and popped again. The ring it leaves
  // stands for this one in any run that goes on from there.

  lemma PairPush(q: Ring, p: seq<byte>, size: nat)
    requires Empty(q, |p|, q.cap, q.line, q.write)
    requires size % q.line == 0 && q.line <= size && size - q.line < |p| + HEADER <= size < q.cap
    requires q.write + size <= q.cap
    ensures q.CanAcquireWrite() && Fits(q, p)
    ensures Messages(Push(q, p).1, [p], |p|)
    ensures Push(q, p).1 == q.(buf := Push(q, p).1.buf, write := q.write + size)
  {
    AtRestCanAcquire(q);
    SmallDivision(q.write, q.cap);
    PushMessage(q, [], p);
    PushPlainIs(q, p);
    RoundStep(q.write, |p| + HEADER, q.line, size);
    assert [] + [p] == [p];
  }

  lemma PairPushed(q: Ring, p: seq<byte>, size: nat, rest: seq<Op>, index: nat) returns (q1: Ring)
    requires Empty(q, |p|, q.cap, q.line, q.write)
    requires size % q.line == 0 && q.line <= size && size - q.line < |p| + HEADER <= size < q.cap
    requires q.write + size <= q.cap
    ensures Messages(q1, [p], |p|) && q1 == q.(buf := q1.buf, write := q.write + size)
    ensures Reaches(q1, rest, |p|, q.cap, q.line, index) ==>
              Reaches(q, [PushOp(p)] + rest, |p|, q.cap, q.line, index)
  {
    PairPush(q, p, size);
    q1 := Push(q, p).1;
    if Reaches(q1, rest, |p|, q.cap, q.line, index) {
      ReachesAfter(q, q1, PushOp(p), rest, |p|, q.cap, q.line, index);
    }
  }

  lemma PairPopped(q: Ring, p: seq<byte>, rest: seq<Op>, index: nat) returns (q1: Ring)
    requires Messages(q, [p], |p|)
    ensures Empty(q1, |p|, q.cap, q.line, q.write)
    ensures Reaches(q1, rest, |p|, q.cap, q.line, index) ==> Reaches(q, [PopOp] + rest, |p|, q.cap, q.line, index)
  {
    var one: seq<seq<byte>> := [p];
    assert one[1..] == [];
    PopMessage(q, one, |p|);
    PopHead(q, one, true);
    q1 := Pop(q).1;
    if Reaches(q1, rest, |p|, q.cap, q.line, index) {
      ReachesAfter(q, q1, PopOp, rest, |p|, q.cap, q.line, index);
    }
  }

  lemma PairStep(q: Ring, p: seq<byte>, size: nat, rest: seq<Op>, index: nat) returns (q1: Ring)
    requires Empty(q, |p|, q.cap, q.line, q.write)
    requires size % q.line == 0 && q.line <= size && size - q.line < |p| + HEADER <= size < q.cap
    requires q.write + size <= q.cap
    ensures Empty(q1, |p|, q.cap, q.line, q.write + size)
    ensures Reaches(q1, rest, |p|, q.cap, q.line, index) ==>
              Reaches(q, [PushOp(p)] + ([PopOp] + rest), |p|, q.cap, q.line, index)
  {
    var mid := PairPushed(q, p, size, [PopOp] + rest, index);
    q1 := PairPopped(mid, p, rest, index);
  }

  lemma {:induction false} PairsReach(q: Ring, p: seq<byte>, k: nat, size: nat, index: nat)
    requires Empty(q, |p|, q.cap, q.line, q.write)
    requires size % q.line == 0 && q.line <= size && size - q.line < |p| + HEADER <= size < q.cap
    requires q.write + Lines(k, size) == index <= q.cap
    ensures Reaches(q, Pairs(k, p), |p|, q.cap, q.line, index)
    decreases k
  {
    if k == 0 {
      assert index == q.write;
    } else {
      var q1 := PairStep(q, p, size, Pairs(k - 1, p), index);
      PairsReach(q1, p, k - 1, size, index);
    }
  }

  // What the sizes in question come to.
  ghost predicate Tight(n: nat, line: nat, size: nat, rest: nat)
    requires line > 0
  {
    && n > 0 && size % line == 0 && 0 < rest <= size - line < n + HEADER <= size < n + 3 * HEADER
  }

  // The first message then pads, and is worth a line more.
  lemma LastPads(q: Ring, ps: seq<seq<byte>>, size: nat, rest: nat) returns (q1: Ring)
    requires ps != [] && q.AtRest() && q.read == q.write && Tight(|ps[0]|, q.line, size, rest)
    requires q.write + rest == q.cap && size < q.cap
    ensures q1.AtRest() && q1.line == q.line && q1.cap == q.cap && q1.write - q1.read >= rest + size + q.line
    ensures AcceptsAll(q, ps) ==> AcceptsAll(q1, ps[1..])
  {
    var n := |ps[0]|;
    AtRestCanAcquire(q);
    SmallDivision(q.write, q.cap);
    PushPaddedIs(q, ps[0]);
    q1 := Push(q, ps[0]).1;
    RoundUpBounds(q.cap + n + 3 * HEADER, q.line);
    TakesLines(q.cap, RoundUp(q.cap + n + 3 * HEADER, q.line), n + 3 * HEADER, q.line);
    LineMore(n + 3 * HEADER, size, q.line);
  }

  lemma StillBreaks(q: Ring, n: nat, ps: seq<seq<byte>>, size: nat, rest: nat)
    requires q.AtRest() && n > 0 && |ps| > 0 && AllSized(ps, n)
    requires size % q.line == 0 && q.line <= size && size - q.line < n + HEADER && size < n + 3 * HEADER
    requires q.write - q.read >= rest + size + q.line && q.cap == Lines(|ps| + 1, size) + rest
    ensures !AcceptsAll(q, ps)
  {
    var taken := RoundUp(n + HEADER, q.line);
    DifferenceOfMultiples(size, q.line, q.line);
    LineMore(n + HEADER, size - q.line, q.line);
    LinesGrow(|ps| - 1, size, 0, taken);
    assert Lines(|ps| + 1, size) == 2 * size + Lines(|ps| - 1, size);
    NotEnough(q, n, ps);
  }

  lemma TightFacts(n: nat, line: nat, cap: nat)
    requires 0 < n && 16 <= line && IsPow2(line) && IsPow2(cap)
    requires n + HEADER <= ReadSize(n, line) < n + 3 * HEADER
    requires 2 * ReadSize(n, line) <= cap && cap % ReadSize(n, line) != 0
    ensures var size := ReadSize(n, line);
            && Tight(n, line, size, cap % size) && cap / size >= 2
            && cap == Lines(cap / size, size) + cap % size
  {
    var size := ReadSize(n, line);
    ReadSizeAligned(n, line);
    Quotient(cap, size);
    Quotients(cap, size, 2);
    PowersDivide(line, cap);
    AlignedPosition(cap, size, line);
  }

  lemma LapReached(n: nat, line: nat, cap: nat) returns (ops: seq<Op>)
    requires 0 < n && 16 <= line && IsPow2(line) && IsPow2(cap) && cap <= MAX_SIZE
    requires n + HEADER <= ReadSize(n, line) < n + 3 * HEADER
    requires 2 * ReadSize(n, line) <= cap && cap % ReadSize(n, line) != 0
    ensures PushesOnly(ops, n) && Disciplined(NewRing(cap, line), ops)
    ensures Empty(Run(NewRing(cap, line), ops).ring, n, cap, line, cap - cap % ReadSize(n, line))
  {
    var q, size, p := NewRing(cap, line), ReadSize(n, line), seq(n, _ => 0);
    NewIsFreshFor(cap, n, line);
    TightFacts(n, line, cap);
    ops := Pairs(cap / size, p);
    LapFrom(q, p, cap / size, size, cap - cap % size);
  }

  lemma LapFrom(q: Ring, p: seq<byte>, k: nat, size: nat, index: nat)
    requires Empty(q, |p|, q.cap, q.line, q.write)
    requires size % q.line == 0 && q.line <= size && size - q.line < |p| + HEADER <= size < q.cap
    requires q.write + Lines(k, size) == index <= q.cap
    ensures PushesOnly(Pairs(k, p), |p|) && Disciplined(q, Pairs(k, p))
    ensures Empty(Run(q, Pairs(k, p)).ring, |p|, q.cap, q.line, index)
  {
    PairsOnly(k, p);
    PairsReach(q, p, k, size, index);
    ReachesIs(q, Pairs(k, p), |p|, q.cap, q.line, index);
  }

  lemma PadBreaks(n: nat, line: nat, cap: nat) returns (ops: seq<Op>, ps: seq<seq<byte>>)
    requires 0 < n && 16 <= line && IsPow2(line) && IsPow2(cap) && cap <= MAX_SIZE
    requires n + HEADER <= ReadSize(n, line) < n + 3 * HEADER
    requires 2 * ReadSize(n, line) <= cap && cap % ReadSize(n, line) != 0
    ensures |ps| == cap / ReadSize(n, line) && FreshFor(NewRing(cap, line), |ps|, n, line)
    ensures PushesOnly(ops, n) && AllSized(ps, n) && Disciplined(NewRing(cap, line), ops)
    ensures var used := Run(NewRing(cap, line), ops).ring;
            && used.read == used.write == cap - cap % ReadSize(n, line)
            && !AcceptsAll(used, ps)
  {
    var size := ReadSize(n, line);
    NewIsFreshFor(cap, n, line);
    TightFacts(n, line, cap);
    ps := Copies(seq(n, _ => 0), cap / size);
    ops := LapReached(n, line, cap);
    PadThenMore(Run(NewRing(cap, line), ops).ring, n, ps, size, cap % size);
  }

  lemma PadThenMore(q: Ring, n: nat, ps: seq<seq<byte>>, size: nat, rest: nat)
    requires q.AtRest() && q.read == q.write && Tight(n, q.line, size, rest)
    requires |ps| >= 2 && AllSized(ps, n)
    requires q.write == Lines(|ps|, size) && q.write + rest == q.cap && size < q.cap
    ensures !AcceptsAll(q, ps)
  {
    SizedRest(ps, n);
    var q1 := LastPads(q, ps, size, rest);
    StillBreaks(q1, n, ps[1..], size, rest);
  }

  lemma SizedRest(ps: seq<seq<byte>>, n: nat)
    requires AllSized(ps, n) && ps != []
    ensures |ps[0]| == n && AllSized(ps[1..], n)
  {
    assert ps[0] in ps;
    forall p | p in ps[1..] ensures p in ps {
    }
  }

  lemma SmallDivision(x: nat, d: nat)
    requires x < d
    ensures x % d == x
  {
  }

  // ---------------------------------------------------------------------
  // Exactly when the promise is kept

  // A cache line, and a message small enough for the requests below to fit a
  // size_t: at most 4 GiB, if it is larger than a line.
  ghost predicate Sizes(n: nat, line: nat) {
    0 < n && 16 <= line <= MAX_SIZE && IsPow2(line) && (n <= line || n <= 0x1_0000_0000)
  }

  lemma LargeSizes(n: nat, line: nat)
    requires Sizes(n, line) && !IsPow2(ReadSize(n, line) / line)
    ensures var size := ReadSize(n, line);
            line < size <= 0x2_0000_0000 && size * (size / line) <= MAX_SIZE / 2 && size == line * (size / line)
  {
    var size := ReadSize(n, line);
    ReadSizeAligned(n, line);
    OneLine(n, line);
    var lines := size / line;
    assert size == line * lines;
    MulMonotonic(lines, 16, line);
    MulMonotonic(size, lines, 0x2000_0000);
  }

  lemma OneLine(n: nat, line: nat)
    requires line > 0
    ensures n <= line ==> IsPow2(ReadSize(n, line) / line)
  {
    QuotientUnique(line, line, 1, 0);
    assert Pow2(0) == 1;
  }

  // A power of two is not a multiple of a size that is none.
  lemma NotWhole(n: nat, line: nat, cap: nat)
    requires Sizes(n, line) && !IsPow2(ReadSize(n, line) / line) && IsPow2(cap)
    ensures cap % ReadSize(n, line) != 0
  {
    var size := ReadSize(n, line);
    LargeSizes(n, line);
    if cap % size == 0 {
      var k: nat :| cap == Pow2(k);
      assert size * (cap / size) == cap;
      FactorOfPower(size, cap / size, k);
      var j: nat :| size == Pow2(j);
      assert size / line * line == size;
      FactorOfPower(size / line, line, j);
    }
  }

  // Wherever runs of pushes and pops leave the indices of a new queue: it then
  // takes as many messages as it was made for, whatever that number, if and
  // only if the size is steady.
  lemma PromiseExact(n: nat, line: nat)
    requires Sizes(n, line)
    ensures (forall q, ops, ps :: FreshFor(q, |ps|, n, line) && PushesOnly(ops, n) && AllSized(ps, n) ==>
                                    Keeps(q, ops, ps))
            <==> Steady(n, line)
  {
    if Steady(n, line) {
      forall q, ops, ps | FreshFor(q, |ps|, n, line) && PushesOnly(ops, n) && AllSized(ps, n)
        ensures Keeps(q, ops, ps)
      {
        PromiseKept(q, ops, ps, n, line);
      }
    } else {
      var q, ops, ps := UnsteadyBreaks(n, line);
    }
  }

  lemma UnsteadyBreaks(n: nat, line: nat) returns (q: Ring, ops: seq<Op>, ps: seq<seq<byte>>)
    requires Sizes(n, line) && !Steady(n, line)
    ensures FreshFor(q, |ps|, n, line) && PushesOnly(ops, n) && AllSized(ps, n) && !Keeps(q, ops, ps)
  {
    var size := ReadSize(n, line);
    SteadyMeans(n, line);
    NewSteadyMeans(n, line);
    if size < n + HEADER || IsPow2(size / line) {
      ops := [];
      q, ps := NewBreaks(n, line);
    } else {
      LargeSizes(n, line);
      var cap := PowerAbove(2 * size);
      NotWhole(n, line, cap);
      q := NewRing(cap, line);
      ops, ps := PadBreaks(n, line, cap);
    }
  }

  // A new queue whose messages do not all fit.
  lemma NewBreaks(n: nat, line: nat) returns (q: Ring, ps: seq<seq<byte>>)
    requires Sizes(n, line) && !NewSteady(n, line)
    ensures FreshFor(q, |ps|, n, line) && AllSized(ps, n) && q.read == q.write && !AcceptsAll(q, ps)
  {
    var size := ReadSize(n, line);
    ReadSizeAligned(n, line);
    NewSteadyMeans(n, line);
    if IsPow2(size / line) {
      q, ps := NewRing(size, line), Copies(seq(n, _ => 0), 1);
      OneBreaks(n, line);
    } else {
      LargeSizes(n, line);
      MulMonotonic(size, 1, size / line);
      var cap := PowerAbove(size * (size / line));
      Quotients(cap, size, size / line);
      LinesIsProduct(cap / size, line);
      MulMonotonic(line, size / line, cap / size);
      q, ps := NewRing(cap, line), Copies(seq(n, _ => 0), cap / size);
      ManyBreak(n, line, cap, cap / size);
    }
  }

  // The sizes for which a queue keeps the promise while it is new.
  ghost predicate NewSteady(n: nat, line: nat)
    requires line > 0
  {
    8 < Beside(n, line) || (8 == Beside(n, line) && !IsPow2(LinesOf(n, line)))
  }

  lemma NewSteadyMeans(n: nat, line: nat)
    requires line > 0
    ensures var size := ReadSize(n, line);
            NewSteady(n, line) <==> n + HEADER < size || (n + HEADER == size && !IsPow2(size / line))
  {
    ReadSizeIs(n, line);
  }

  lemma AcceptNext(q: Ring, size: nat, ps: seq<seq<byte>>) returns (q1: Ring)
    requires q.AtRest() && q.read == 0 && ps != [] && |ps[0]| > 0
    requires size % q.line == 0 && q.line <= size && size - q.line < |ps[0]| + HEADER <= size
    requires q.write + size <= q.cap && q.write + |ps[0]| + HEADER < q.cap
    ensures q1.AtRest() && q1 == q.(buf := q1.buf, write := q.write + size)
    ensures AcceptsAll(q1, ps[1..]) ==> AcceptsAll(q, ps)
  {
    var n := |ps[0]|;
    AtRestCanAcquire(q);
    SmallDivision(q.write, q.cap);
    PushPlainIs(q, ps[0]);
    RoundStep(q.write, n + HEADER, q.line, size);
    RoundUpBounds(q.write + n + HEADER, q.line);
    q1 := Push(q, ps[0]).1;
  }

  lemma {:induction false} AcceptsFromStart(q: Ring, n: nat, size: nat, ps: seq<seq<byte>>)
    requires q.AtRest() && 0 < n && AllSized(ps, n) && q.read == 0
    requires size % q.line == 0 && q.line <= size && size - q.line < n + HEADER <= size
    requires q.write + Lines(|ps|, size) <= q.cap
    requires ps != [] ==> q.write + Lines(|ps| - 1, size) + n + HEADER < q.cap
    ensures AcceptsAll(q, ps)
    decreases |ps|
  {
    if ps != [] {
      SizedRest(ps, n);
      var q1 := AcceptNext(q, size, ps);
      AcceptsFromStart(q1, n, size, ps[1..]);
    }
  }

  lemma NewPromiseKept(q: Ring, ps: seq<seq<byte>>, n: nat, line: nat)
    requires Sizes(n, line) && FreshFor(q, |ps|, n, line) && AllSized(ps, n) && NewSteady(n, line)
    ensures AcceptsAll(q, ps)
  {
    var size := ReadSize(n, line);
    ReadSizeAligned(n, line);
    NewSteadyMeans(n, line);
    FreshCapacity(q, |ps|, n, line);
    if n + HEADER == size {
      NotWhole(n, line, q.cap);
      LinesAreWhole(|ps|, size);
    }
    AcceptsFromStart(q, n, size, ps);
  }

  lemma LinesAreWhole(k: nat, line: nat)
    requires line > 0
    ensures Lines(k, line) % line == 0
  {
    LinesIsProduct(k, line);
    QuotientUnique(k * line, line, k, 0);
  }

  // A queue whose indices have not moved yet keeps it for a few sizes more.
  lemma NewPromiseExact(n: nat, line: nat)
    requires Sizes(n, line)
    ensures (forall q, ps :: FreshFor(q, |ps|, n, line) && AllSized(ps, n) ==> AcceptsAll(q, ps))
            <==> NewSteady(n, line)
  {
    if NewSteady(n, line) {
      forall q, ps | FreshFor(q, |ps|, n, line) && AllSized(ps, n) ensures AcceptsAll(q, ps) {
        NewPromiseKept(q, ps, n, line);
      }
    } else {
      var q, ps := NewBreaks(n, line);
    }
  }

  // A queue asked for two messages of 170 bytes: after two have come and gone,
  // the next two do not fit, although a header fits beside each of them.
  lemma BrokenAt170() returns (q: Ring, ops: seq<Op>, ps: seq<seq<byte>>)
    ensures FreshFor(q, 2, 170, 64) && q.cap == 512 && PushesOnly(ops, 170)
    ensures Disciplined(q, ops) && Run(q, ops).ring.read == Run(q, ops).ring.write == 384
    ensures |ps| == 2 && AllSized(ps, 170) && !AcceptsAll(Run(q, ops).ring, ps)
    ensures 170 + HEADER < ReadSize(170, 64) == 192
  {
    Pow2Add(4, 4);
    assert Pow2(6) == 64 && Pow2(9) == 512;
    q := NewRing(512, 64);
    ops, ps := PadBreaks(170, 64, 512);
  }
}
