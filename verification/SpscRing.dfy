// The byte ring of SPSCQueue.cpp as a value: what each of the four queue
// calls does to the buffer and to the two indices, and the layout of the
// records that lie unread between them.

module SpscRing {
  import opened Bytes
  import opened Bits
  import opened Wrappers
  import opened RingArithmetic

  const HEADER := 8 // sizeof(QueueSlotHeader)

  datatype Error = Accepted | Full | Empty | TooBig

  // A slot handed to the caller: where its payload lies in the buffer, and
  // how long it is. A slot whose data pointer is null has data == 0.
  datatype Slot = Slot(data: nat, size: nat) {
    predicate Null() {
      data == 0 || size == 0
    }
  }

  const NO_SLOT := Slot(0, 0)

  // line is kCacheLineSize; read and write are the two monotone indices.
  datatype Ring = Ring(cap: nat, line: nat, buf: seq<byte>, read: nat, write: nat) {

    // The shape of a ring that no call has left half-way.
    ghost predicate AtRest() {
      && Geometry(cap, line)
      && |buf| == cap
      && read <= write
      && read % line == 0
      && write % line == 0
    }

    predicate CanAcquireWrite() {
      && cap == |buf| && 0 < line && 0 < cap
      && read <= write
      && write % cap + HEADER <= cap
    }

    predicate CanAcquireRead() {
      && cap == |buf| && 0 < line && 0 < cap
      && read % cap + HEADER <= cap
    }

    // mod_index + required_bytes > capacity_
    predicate Pads(size: nat)
      requires cap > 0
    {
      write % cap + HEADER + size > cap
    }

    // The condition under which a write is not refused.
    predicate HasRoom(size: nat) {
      size <= cap && write - read + HEADER + size < cap
    }
  }

  // ---------------------------------------------------------------------
  // Record headers: one pad bit below a 63-bit size, in a 64-bit word.

  const MAX_SIZE := 0x8000_0000_0000_0000

  function Header(size: nat, padded: bool): (h: seq<byte>)
    ensures |h| == HEADER
  {
    LittleEndian(2 * size + (if padded then 1 else 0), HEADER)
  }

  function HeaderSize(h: seq<byte>): nat {
    FromLittleEndian(h) / 2
  }

  predicate HeaderPadded(h: seq<byte>) {
    FromLittleEndian(h) % 2 == 1
  }

  lemma HeaderRoundTrip(size: nat, padded: bool)
    requires size < MAX_SIZE
    ensures HeaderSize(Header(size, padded)) == size
    ensures HeaderPadded(Header(size, padded)) == padded
  {
    assert Pow256(8) == 2 * MAX_SIZE;
    LittleEndianRoundTrip(2 * size + (if padded then 1 else 0), HEADER);
  }

  // ---------------------------------------------------------------------
  // The four calls

  // memcpy of bs into buf at position at
  function Patch(buf: seq<byte>, at: nat, bs: seq<byte>): (r: seq<byte>)
    requires at + |bs| <= |buf|
    ensures |r| == |buf|
    ensures r[at..at + |bs|] == bs
    ensures forall i :: 0 <= i < |buf| && !(at <= i < at + |bs|) ==> r[i] == buf[i]
    ensures forall i :: at <= i < at + |bs| ==> r[i] == bs[i - at]
  {
    buf[..at] + bs + buf[at + |bs|..]
  }

  function AcquireWrite(q: Ring, size: nat): (Error, Ring, Slot)
    requires q.CanAcquireWrite()
  {
    if size > q.cap then (TooBig, q, NO_SLOT)
    else
      var m := q.write % q.cap;
      if q.write - q.read + (size + HEADER) >= q.cap then (Full, q, NO_SLOT)
      else if q.Pads(size) then
        var pad := q.cap - m + HEADER;
        var buf := Patch(q.buf, m, Header(pad, true));
        (Accepted,
         q.(buf := Patch(buf, 0, Header(size, false)), write := q.write + pad + HEADER),
         Slot(HEADER, size))
      else
        (Accepted, q.(buf := Patch(q.buf, m, Header(size, false))), Slot(m + HEADER, size))
  }

  // What an acquire answers: a request beyond the capacity is TooBig, another
  // one Full as long as it and its header do not leave the ring short of full,
  // and neither changes anything.
  lemma WriteRefused(q: Ring, size: nat)
    requires q.CanAcquireWrite()
    ensures var (error, q1, slot) := AcquireWrite(q, size);
            && (error == TooBig <==> size > q.cap)
            && (error == Full <==> size <= q.cap && q.write - q.read + 8 + size >= q.cap)
            && (error == TooBig || error == Full || error == Accepted)
            && (error != Accepted ==> q1 == q && slot == NO_SLOT)
  {
  }

  // An accepted one gets the bytes behind its header: at the write index, or
  // at the start of the buffer when that is where they fit.
  lemma WriteGranted(q: Ring, size: nat)
    requires q.CanAcquireWrite() && size <= q.cap && q.write - q.read + 8 + size < q.cap
    ensures var (error, q1, slot) := AcquireWrite(q, size);
            var m := q.write % q.cap;
            && error == Accepted
            && slot == Slot(if m + 8 + size <= q.cap then m + 8 else 8, size)
            && q1 == q.(buf := q1.buf, write := q1.write)
            && q1.write == if m + 8 + size <= q.cap then q.write else q.write + (q.cap - m) + 16
  {
  }

  function CommitWrite(q: Ring, slot: Slot): Ring
    requires q.line > 0
  {
    if slot.Null() then q
    else q.(write := RoundUp(q.write + slot.size + HEADER, q.line))
  }

  function AcquireRead(q: Ring): (Error, Ring, Slot)
    requires q.CanAcquireRead()
  {
    var m := q.read % q.cap;
    if q.read >= q.write then (Empty, q, NO_SLOT)
    else
      var h := q.buf[m..m + HEADER];
      if HeaderPadded(h) then
        var h0 := q.buf[..HEADER];
        (Accepted, q.(read := q.read + HeaderSize(h) + HEADER), Slot(HEADER, HeaderSize(h0)))
      else
        (Accepted, q, Slot(m + HEADER, HeaderSize(h)))
  }

  // A read is Empty exactly when the writer is not ahead.
  lemma ReadRefused(q: Ring)
    requires q.CanAcquireRead()
    ensures var (error, q1, slot) := AcquireRead(q);
            && (error == Empty <==> q.write <= q.read)
            && (error == Empty || error == Accepted)
            && (error == Empty ==> q1 == q && slot == NO_SLOT)
  {
  }

  function CommitRead(q: Ring, slot: Slot): Ring
    requires q.line > 0
  {
    if slot.Null() then q
    else q.(read := RoundUp(q.read + slot.size + HEADER, q.line))
  }

  // ---------------------------------------------------------------------
  // The two uses the queue is made for: acquire, copy, commit.

  function Push(q: Ring, p: seq<byte>): (Error, Ring)
    requires q.CanAcquireWrite()
  {
    var (e, q1, slot) := AcquireWrite(q, |p|);
    if e != Accepted then (e, q1)
    else (Accepted, CommitWrite(q1.(buf := Patch(q1.buf, slot.data, p)), slot))
  }

  // The bytes a slot denotes, if it lies inside the buffer at all.
  function Payload(q: Ring, slot: Slot): Option<seq<byte>> {
    if slot.data + slot.size <= |q.buf| then Some(q.buf[slot.data..slot.data + slot.size]) else None
  }

  function Pop(q: Ring): (Error, Ring, Option<seq<byte>>)
    requires q.CanAcquireRead()
  {
    var (e, q1, slot) := AcquireRead(q);
    if e != Accepted then (e, q1, None)
    else (Accepted, CommitRead(q1, slot), Payload(q1, slot))
  }

  // ---------------------------------------------------------------------
  // Layout of the unread records

  // A record header followed by its payload, at position at.
  predicate RecordAt(buf: seq<byte>, at: nat, p: seq<byte>) {
    && at + HEADER + |p| <= |buf|
    && buf[at..at + HEADER] == Header(|p|, false)
    && buf[at + HEADER..at + HEADER + |p|] == p
  }

  // The index after a record of n bytes that starts at index i, without and
  // with a pad before it.
  function After(i: nat, n: nat, line: nat): nat
    requires line > 0
  {
    RoundUp(i + n + HEADER, line)
  }

  function PadEnd(i: nat, cap: nat): (j: nat)
    requires cap > 0
    ensures j > i
  {
    i + (cap - i % cap + HEADER) + HEADER
  }

  // From index r to index w the buffer holds exactly the records c, pad
  // markers included when pads allows them.
  ghost predicate Holds(cap: nat, line: nat, buf: seq<byte>, r: nat, w: nat, c: seq<seq<byte>>, pads: bool)
    requires cap > 0 && line > 0
    decreases |c|
  {
    if c == [] then r == w
    else
      && |c[0]| > 0
      && (|| (&& RecordAt(buf, r % cap, c[0])
              && Holds(cap, line, buf, After(r, |c[0]|, line), w, c[1..], pads))
          || (&& pads
              && PadAt(cap, buf, r, |c[0]|)
              && RecordAt(buf, 0, c[0])
              && Holds(cap, line, buf, After(PadEnd(r, cap), |c[0]|, line), w, c[1..], pads)))
  }

  // A pad marker at index r, beyond the n-byte record at the start of the
  // buffer that it announces.
  predicate PadAt(cap: nat, buf: seq<byte>, r: nat, n: nat)
    requires cap > 0
  {
    var m := r % cap;
    && n + HEADER <= m
    && m + HEADER <= |buf|
    && buf[m..m + HEADER] == Header(cap - m + HEADER, true)
  }

  // The ring at rest holds the records c.
  ghost predicate Contains(q: Ring, c: seq<seq<byte>>, pads: bool) {
    && q.AtRest()
    && Holds(q.cap, q.line, q.buf, q.read, q.write, c, pads)
  }
}
