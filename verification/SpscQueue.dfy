// The queue classes: SPSCQueue over a byte buffer, with masked indices, and
// SPSCMessageQueue on top of it.

module SpscQueues {
  import opened Bytes
  import opened Bits
  import opened Wrappers
  import opened RingArithmetic
  import opened SpscRing
  import opened SpscFifo
  import opened SpscRuns
  import opened SpscMessages
  import opened SpscPromise

  class SpscQueue {
    const line: nat // kCacheLineSize
    const capacity: nat
    const buffer: array<byte>
    var readIndex: nat
    var writeIndex: nat

    ghost predicate Valid()
      reads this, buffer
    {
      && buffer.Length == capacity
      && IsPow2(capacity) && 0 < capacity
      && IsPow2(line) && 16 <= line
    }

    // The value of the queue, as the ring that SpscRing's functions act on.
    ghost function State(): Ring
      reads this, buffer
    {
      Ring(capacity, line, buffer[..], readIndex, writeIndex)
    }

    // A request of 0 and one above 2^63 both wrap to a capacity of one line.
    constructor (requested: nat, line: nat)
      requires requested < WORD
      requires IsPow2(line) && 16 <= line <= MAX_SIZE
      ensures Valid() && fresh(buffer)
      ensures State().AtRest() && readIndex == writeIndex == 0 && this.line == line
      ensures 1 <= requested <= MAX_SIZE ==> IsQueueCapacity(capacity, requested, line)
      ensures requested == 0 || requested > MAX_SIZE ==> capacity == line
    {
      var p := NextPowerOfTwo(requested);
      var cap := if line < p then p else line;
      LargerDivides(line, p, cap);
      this.line := line;
      capacity := cap;
      buffer := new byte[cap](_ => 0);
      readIndex, writeIndex := 0, 0;
      new;
      NewAtRest(State());
    }

    // memcpy into the buffer
    method CopyIn(at: nat, bs: seq<byte>)
      requires Valid() && at + |bs| <= buffer.Length
      modifies buffer
      ensures State() == old(State()).(buf := Patch(old(buffer[..]), at, bs))
    {
      var i := 0;
      while i < |bs|
        invariant i <= |bs|
        invariant buffer[..] == Patch(old(buffer[..]), at, bs[..i])
      {
        buffer[at + i] := bs[i];
        i := i + 1;
      }
      assert bs[..i] == bs;
    }

    method AcquireWrite(size: nat) returns (error: Error, slot: Slot)
      requires Valid() && State().CanAcquireWrite()
      modifies this`writeIndex, buffer
      ensures Valid()
      ensures (error, State(), slot) == SpscRing.AcquireWrite(old(State()), size)
      ensures error == TooBig <==> size > capacity
      ensures error == Full <==> size <= capacity && old(writeIndex - readIndex) + 8 + size >= capacity
      ensures error != Accepted ==> State() == old(State()) && slot == NO_SLOT
    {
      if size > capacity {
        return TooBig, NO_SLOT;
      }
      MaskBelow(writeIndex, capacity);
      var modIndex := And(writeIndex, capacity - 1);
      var padSize := 0;
      var required := size + HEADER;
      if modIndex + required > capacity {
        padSize := capacity - modIndex + HEADER;
      }
      if writeIndex - readIndex + required >= capacity {
        return Full, NO_SLOT;
      }
      if padSize > 0 {
        CopyIn(modIndex, Header(padSize, true));
        modIndex := 0;
        writeIndex := writeIndex + padSize + HEADER;
      }
      CopyIn(modIndex, Header(size, false));
      return Accepted, Slot(modIndex + HEADER, size);
    }

    method AcquireRead() returns (error: Error, slot: Slot)
      requires Valid() && State().CanAcquireRead()
      modifies this`readIndex
      ensures Valid()
      ensures (error, State(), slot) == SpscRing.AcquireRead(old(State()))
      ensures error == Empty <==> writeIndex <= old(readIndex)
      ensures error == Empty ==> State() == old(State()) && slot == NO_SLOT
    {
      MaskBelow(readIndex, capacity);
      var modIndex := And(readIndex, capacity - 1);
      if readIndex >= writeIndex {
        return Empty, NO_SLOT;
      }
      var header := buffer[modIndex..modIndex + HEADER];
      if HeaderPadded(header) {
        modIndex := 0;
        readIndex := readIndex + HeaderSize(header) + HEADER;
        header := buffer[..HEADER];
      }
      return Accepted, Slot(modIndex + HEADER, HeaderSize(header));
    }

    method CommitWrite(slot: Slot)
      requires Valid()
      modifies this`writeIndex
      ensures Valid() && State() == SpscRing.CommitWrite(old(State()), slot)
      ensures slot.data == 0 || slot.size == 0 ==> writeIndex == old(writeIndex)
      ensures slot.data > 0 && slot.size > 0 ==>
                writeIndex % line == 0 && 0 <= writeIndex - old(writeIndex) - slot.size - 8 < line
    {
      if slot.data == 0 || slot.size == 0 {
        return;
      }
      var newIndex := writeIndex + slot.size + HEADER;
      RoundUpBounds(newIndex, line);
      writeIndex := newIndex + line - 1 - And(newIndex + line - 1, line - 1);
    }

    method CommitRead(slot: Slot)
      requires Valid()
      modifies this`readIndex
      ensures Valid() && State() == SpscRing.CommitRead(old(State()), slot)
      ensures slot.data == 0 || slot.size == 0 ==> readIndex == old(readIndex)
      ensures slot.data > 0 && slot.size > 0 ==>
                readIndex % line == 0 && 0 <= readIndex - old(readIndex) - slot.size - 8 < line
    {
      if slot.data == 0 || slot.size == 0 {
        return;
      }
      var newIndex := readIndex + slot.size + HEADER;
      RoundUpBounds(newIndex, line);
      readIndex := newIndex + line - 1 - And(newIndex + line - 1, line - 1);
    }

    method IsEmpty() returns (empty: bool)
      ensures empty <==> readIndex == writeIndex
    {
      empty := readIndex == writeIndex;
    }
  }

  // std::max(kCacheLineSize, p) for two powers of two, or p wrapped to zero.
  lemma LargerDivides(line: nat, p: nat, cap: nat)
    requires IsPow2(line) && 16 <= line <= MAX_SIZE
    requires p == 0 || (IsPow2(p) && p <= MAX_SIZE)
    requires cap == if line < p then p else line
    ensures Geometry(cap, line) && IsPow2(cap)
  {
    PowersDivide(line, cap);
  }

  lemma NewAtRest(q: Ring)
    requires Geometry(q.cap, q.line) && |q.buf| == q.cap && q.read == q.write == 0
    ensures q.AtRest()
    ensures forall n :: n > 0 ==> Messages(q, [], n)
  {
  }

  // A request that does not wrap is the one the queue was made for.
  lemma NewIsFresh(q: Ring, count: nat, n: nat, line: nat, bytes: nat)
    requires 0 < line && bytes == count * ReadSize(n, line) % WORD
    requires q.AtRest() && q.read == q.write == 0 && q.line == line
    requires 1 <= bytes <= MAX_SIZE ==> IsQueueCapacity(q.cap, bytes, line)
    ensures 0 < count * ReadSize(n, line) <= MAX_SIZE ==> FreshFor(q, count, n, line)
  {
    PositiveFactor(count, ReadSize(n, line));
  }

  lemma PositiveFactor(count: nat, size: nat)
    ensures count * size > 0 ==> count > 0
  {
  }

  // Messages are the object representations of a type of messageSize bytes.
  class SpscMessageQueue {
    const messageSize: nat // sizeof(T)
    const queue: SpscQueue
    ghost var unread: seq<seq<byte>>

    ghost predicate Valid()
      reads this, queue, queue.buffer
    {
      && queue.Valid()
      && Messages(queue.State(), unread, messageSize)
    }

    // A queue asked for `count` messages, the size of which wraps around like
    // any size_t; how many it takes is PromiseExact's subject.
    constructor (count: nat, messageSize: nat, line: nat)
      requires 0 < messageSize
      requires IsPow2(line) && 16 <= line <= MAX_SIZE
      ensures Valid() && fresh(queue) && fresh(queue.buffer)
      ensures unread == [] && this.messageSize == messageSize
      ensures 0 < count * ReadSize(messageSize, line) <= MAX_SIZE ==>
                FreshFor(queue.State(), count, messageSize, line)
    {
      var bytes := count * ReadSize(messageSize, line) % WORD;
      this.messageSize := messageSize;
      queue := new SpscQueue(bytes, line);
      unread := [];
      new;
      NewIsFresh(queue.State(), count, messageSize, line, bytes);
      NewAtRest(queue.State());
    }

    // Never blocks. A message beyond the capacity is TooBig, another one Full
    // when it and its header would fill the queue; both fail without effect.
    // Otherwise the message is appended.
    method TryPush(value: seq<byte>) returns (error: Error)
      requires Valid() && |value| == messageSize
      modifies this`unread, queue`writeIndex, queue.buffer
      ensures Valid()
      ensures error == TooBig <==> messageSize > queue.capacity
      ensures error == Full <==> messageSize <= queue.capacity
                                 && old(queue.writeIndex - queue.readIndex) + 8 + messageSize >= queue.capacity
      ensures error == TooBig || error == Full || error == Accepted
      ensures error == Accepted ==> unread == old(unread) + [value]
      ensures error != Accepted ==> unread == old(unread) && queue.State() == old(queue.State())
    {
      PushMessage(queue.State(), unread, value);
      var slot;
      error, slot := queue.AcquireWrite(messageSize);
      if error != Accepted {
        return;
      }
      queue.CopyIn(slot.data, value);
      queue.CommitWrite(slot);
      unread := unread + [value];
    }

    // Takes the oldest message that was pushed and not yet popped.
    method TryPop() returns (error: Error, value: Option<seq<byte>>)
      requires Valid()
      modifies this`unread, queue`readIndex
      ensures Valid()
      ensures old(unread) == [] ==> error == Empty && value == None && unread == []
      ensures old(unread) != [] ==>
                error == Accepted && value == Some(old(unread)[0]) && unread == old(unread)[1..]
    {
      PopMessage(queue.State(), unread, messageSize);
      var slot;
      error, slot := queue.AcquireRead();
      if error != Accepted {
        return error, None;
      }
      value := Some(queue.buffer[slot.data..slot.data + slot.size]);
      queue.CommitRead(slot);
      unread := unread[1..];
    }

    method IsEmpty() returns (empty: bool)
      requires Valid()
      ensures empty <==> unread == []
    {
      empty := queue.IsEmpty();
      if unread != [] {
        var padded, base, next := HoldsFirst(queue.capacity, queue.line, queue.buffer[..], queue.readIndex,
                                             queue.writeIndex, unread, true);
        HoldsOrder(queue.capacity, queue.line, queue.buffer[..], next, queue.writeIndex, unread[1..], true);
      }
    }
  }
}
