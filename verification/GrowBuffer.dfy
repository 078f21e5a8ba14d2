// Buffer: a growing array. However the capacity policy rounds, the contents
// survive; what growing costs depends on the policy.

module GrowBuffers {
  import opened Bits

  datatype Policy = Exact | FiftyPercent | PowerOfTwo | CacheAligned(line: nat)

  // std::bit_ceil
  function BitCeil(n: nat): (p: nat)
    ensures p >= 1 && n <= p && (n >= 1 ==> p < 2 * n)
  {
    if n <= 1 then 1 else 2 * BitCeil((n + 1) / 2)
  }

  lemma {:induction false} BitCeilLeast(n: nat)
    ensures IsPow2(BitCeil(n))
    ensures forall p :: IsPow2(p) && n <= p ==> BitCeil(n) <= p
  {
    var k := BitCeilExponent(n);
    forall p | IsPow2(p) && n <= p ensures BitCeil(n) <= p {
      if n >= 1 {
        LeastPowerOfTwo(n, BitCeil(n), p);
      }
    }
  }

  lemma {:induction false} BitCeilExponent(n: nat) returns (k: nat)
    ensures BitCeil(n) == Pow2(k)
  {
    if n <= 1 {
      k := 0;
    } else {
      k := BitCeilExponent((n + 1) / 2);
      k := k + 1;
    }
  }

  // adjust_capacity, with the factor of FiftyPercent read as exactly 3/2
  function AdjustCapacity(policy: Policy, requested: nat): (capacity: nat)
    requires policy.CacheAligned? ==> policy.line > 0
    ensures capacity >= requested
  {
    match policy
    case Exact => requested
    case FiftyPercent =>
      var grown := (3 * requested + 1) / 2;
      if grown > requested then grown else requested
    case PowerOfTwo => BitCeil(requested)
    case CacheAligned(line) =>
      LineAbove(requested, line);
      (requested + line - 1) / line * line
  }

  // The capacities a policy allows for a request; it takes the least of them.
  ghost predicate Allows(policy: Policy, requested: nat, c: nat) {
    match policy
    case Exact => c >= requested
    case FiftyPercent => 2 * c >= 3 * requested
    case PowerOfTwo => IsPow2(c) && c >= requested
    case CacheAligned(line) => line > 0 && c % line == 0 && c >= requested
  }

  lemma AdjustCapacityLeast(policy: Policy, requested: nat)
    requires policy.CacheAligned? ==> policy.line > 0
    ensures Allows(policy, requested, AdjustCapacity(policy, requested))
    ensures forall c :: Allows(policy, requested, c) ==> AdjustCapacity(policy, requested) <= c
  {
    match policy
    case PowerOfTwo => BitCeilLeast(requested);
    case CacheAligned(line) =>
      forall c | Allows(policy, requested, c) ensures AdjustCapacity(policy, requested) <= c {
        LineAboveLeast(requested, line, c);
      }
      LineAboveLeast(requested, line, 0);
    case _ =>
  }

  lemma LineAboveLeast(x: nat, line: nat, c: nat)
    requires line > 0
    ensures (x + line - 1) / line * line % line == 0
    ensures c % line == 0 && c >= x ==> (x + line - 1) / line * line <= c
  {
    var k := (x + line - 1) / line;
    QuotientUnique(line * k, line, k, 0);
    if c % line == 0 && c >= x {
      var j := c / line;
      assert c == line * j;
      assert x + line - 1 >= line * k;
      if j < k {
        MulMonotonic(line, j + 1, k);
      } else {
        MulMonotonic(line, k, j);
      }
    }
  }

  lemma LineAbove(x: nat, line: nat)
    requires line > 0
    ensures (x + line - 1) / line * line >= x
  {
  }

  // ---------------------------------------------------------------------
  // What growing costs: the elements moved so far, against the pushes.

  datatype Meter = Meter(size: nat, capacity: nat, moved: nat, pushes: nat)

  const UNUSED := Meter(0, 0, 0, 0)

  function Pushed(policy: Policy, m: Meter): (r: Meter)
    requires policy.CacheAligned? ==> policy.line > 0
  {
    if m.size + 1 > m.capacity then
      Meter(m.size + 1, AdjustCapacity(policy, m.size + 1), m.moved + m.size, m.pushes + 1)
    else
      m.(size := m.size + 1, pushes := m.pushes + 1)
  }

  function Shrunk(m: Meter, less: nat): Meter
    requires less <= m.size
  {
    m.(size := m.size - less)
  }

  // What holds in every run of pushes and removals from an unused buffer. A
  // policy that grows by a factor keeps the moves below twice its capacity, or
  // below its capacity, and that in proportion to the pushes.
  ghost predicate Paid(policy: Policy, m: Meter) {
    && m.size <= m.capacity && m.size <= m.pushes
    && (policy == FiftyPercent ==>
          (m.moved == 0 || m.moved + 3 <= 2 * m.capacity) && 2 * m.capacity <= 3 * m.pushes + 1)
    && (policy == PowerOfTwo ==>
          if m.capacity == 0 then m.moved == 0
          else IsPow2(m.capacity) && m.moved < m.capacity < 2 * m.pushes)
  }

  // At most three moves a push when growing by half, two when doubling.
  lemma PaidBounds(policy: Policy, m: Meter)
    requires Paid(policy, m)
    ensures policy == FiftyPercent ==> m.moved <= 3 * m.pushes
    ensures policy == PowerOfTwo ==> m.moved <= 2 * m.pushes
  {
  }

  lemma PushPaid(policy: Policy, m: Meter)
    requires policy.CacheAligned? ==> policy.line > 0
    requires Paid(policy, m)
    ensures Paid(policy, Pushed(policy, m))
  {
    if policy == PowerOfTwo && m.size + 1 > m.capacity {
      GrownByDoubling(m);
    }
  }

  lemma GrownByDoubling(m: Meter)
    requires Paid(PowerOfTwo, m) && m.size + 1 > m.capacity
    ensures Paid(PowerOfTwo, Pushed(PowerOfTwo, m))
  {
    BitCeilLeast(m.size + 1);
    if m.capacity > 0 {
      var k :| m.capacity == Pow2(k);
      AboveIsDouble(k);
      assert Pushed(PowerOfTwo, m).capacity == 2 * m.capacity;
    }
  }

  lemma {:induction false} AboveIsDouble(k: nat)
    ensures BitCeil(Pow2(k) + 1) == 2 * Pow2(k)
  {
    if k > 0 {
      AboveIsDouble(k - 1);
    }
  }

  lemma ShrinkPaid(policy: Policy, m: Meter, less: nat)
    requires less <= m.size && Paid(policy, m)
    ensures Paid(policy, Shrunk(m, less))
  {
  }

  // A call: a push, or the removal of some elements by pop_back or erase.
  datatype Op = Push | Remove(count: nat)

  predicate CanRun(policy: Policy, m: Meter, ops: seq<Op>)
    requires policy.CacheAligned? ==> policy.line > 0
    decreases |ops|
  {
    ops != [] ==>
      && (ops[0].Remove? ==> ops[0].count <= m.size)
      && CanRun(policy, Step(policy, m, ops[0]), ops[1..])
  }

  function Step(policy: Policy, m: Meter, op: Op): Meter
    requires policy.CacheAligned? ==> policy.line > 0
    requires op.Remove? ==> op.count <= m.size
  {
    match op
    case Push => Pushed(policy, m)
    case Remove(count) => Shrunk(m, count)
  }

  function Run(policy: Policy, m: Meter, ops: seq<Op>): Meter
    requires policy.CacheAligned? ==> policy.line > 0
    requires CanRun(policy, m, ops)
    decreases |ops|
  {
    if ops == [] then m else Run(policy, Step(policy, m, ops[0]), ops[1..])
  }

  function Pushes(ops: seq<Op>): nat {
    if ops == [] then 0 else (if ops[0].Push? then 1 else 0) + Pushes(ops[1..])
  }

  lemma {:induction false} RunPaid(policy: Policy, m: Meter, ops: seq<Op>)
    requires policy.CacheAligned? ==> policy.line > 0
    requires Paid(policy, m) && CanRun(policy, m, ops)
    ensures Paid(policy, Run(policy, m, ops))
    ensures Run(policy, m, ops).pushes == m.pushes + Pushes(ops)
    decreases |ops|
  {
    if ops != [] {
      match ops[0] {
        case Push => PushPaid(policy, m);
        case Remove(count) => ShrinkPaid(policy, m, count);
      }
      RunPaid(policy, Step(policy, m, ops[0]), ops[1..]);
    }
  }

  // Over every run from an unused buffer: the size stays within the capacity,
  // and at most three elements are moved for each push when growing by half,
  // two when doubling.
  lemma RunBounds(policy: Policy, ops: seq<Op>)
    requires policy.CacheAligned? ==> policy.line > 0
    requires CanRun(policy, UNUSED, ops)
    ensures var m := Run(policy, UNUSED, ops);
            && m.size <= m.capacity
            && (policy == FiftyPercent ==> m.moved <= 3 * Pushes(ops))
            && (policy == PowerOfTwo ==> m.moved <= 2 * Pushes(ops))
  {
    RunPaid(policy, UNUSED, ops);
    PaidBounds(policy, Run(policy, UNUSED, ops));
  }

  function PushRun(policy: Policy, n: nat): Meter
    requires policy.CacheAligned? ==> policy.line > 0
  {
    if n == 0 then UNUSED else Pushed(policy, PushRun(policy, n - 1))
  }

  // Without slack every push moves everything.
  lemma {:induction false} ExactIsQuadratic(n: nat)
    ensures var m := PushRun(Exact, n);
            m.size == m.capacity == m.pushes == n && 2 * m.moved == n * (n - 1)
  {
    if n > 0 {
      ExactIsQuadratic(n - 1);
      assert n * (n - 1) == (n - 1) * (n - 2) + 2 * (n - 1);
    }
  }

  // ---------------------------------------------------------------------

  class Buffer<T(0)> {
    const policy: Policy
    var buf: array<T>
    var size: nat
    ghost var moved: nat
    ghost var pushes: nat

    ghost function Used(): Meter
      reads this
    {
      Meter(size, buf.Length, moved, pushes)
    }

    ghost predicate Valid()
      reads this, buf
    {
      (policy.CacheAligned? ==> policy.line > 0) && Paid(policy, Used())
    }

    ghost function Contents(): (s: seq<T>)
      requires Valid()
      reads this, buf
      ensures |s| == size
    {
      buf[..size]
    }

    constructor (policy: Policy)
      requires policy.CacheAligned? ==> policy.line > 0
      ensures Valid() && fresh(buf) && this.policy == policy
      ensures Contents() == [] && Used() == UNUSED
    {
      this.policy := policy;
      buf, size, moved, pushes := new T[0], 0, 0, 0;
    }

    // The elements are moved to storage of the adjusted capacity.
    method Reallocate(requested: nat)
      requires policy.CacheAligned? ==> policy.line > 0
      requires size <= buf.Length && size <= requested
      modifies this
      ensures size == old(size) && pushes == old(pushes) && moved == old(moved) + size
      ensures fresh(buf) && buf.Length == AdjustCapacity(policy, requested)
      ensures buf[..size] == old(buf[..size])
    {
      var newBuf := new T[AdjustCapacity(policy, requested)];
      for i := 0 to size
        invariant size == old(size) && buf == old(buf) && pushes == old(pushes) && moved == old(moved) + i
        invariant newBuf[..i] == buf[..i]
      {
        newBuf[i] := buf[i];
        moved := moved + 1;
      }
      buf := newBuf;
    }

    method PushBack(value: T)
      requires Valid()
      modifies this, buf
      ensures Valid() && (buf == old(buf) || fresh(buf))
      ensures Contents() == old(Contents()) + [value]
      ensures Used() == Pushed(policy, old(Used()))
    {
      ghost var m, before := Used(), buf[..size];
      PushPaid(policy, m);
      if size + 1 > buf.Length {
        Reallocate(size + 1);
      }
      assert buf[..size] == before;
      buf[size] := value;
      size := size + 1;
      pushes := pushes + 1;
      assert Used() == Pushed(policy, m);
      assert buf[..size] == before + [value];
    }

    method PopBack() returns (value: T)
      requires Valid() && size > 0
      modifies this
      ensures Valid() && buf == old(buf)
      ensures old(Contents()) == Contents() + [value]
      ensures Used() == Shrunk(old(Used()), 1)
    {
      ShrinkPaid(policy, Used(), 1);
      value := buf[size - 1];
      size := size - 1;
    }

    // The elements behind the gap are shifted down, one by one.
    method Erase(first: nat, last: nat)
      requires Valid() && first < size && first <= last <= size
      modifies this, buf
      ensures Valid() && buf == old(buf)
      ensures Contents() == old(Contents())[..first] + old(Contents())[last..]
      ensures Used() == Shrunk(old(Used()), last - first)
    {
      ShrinkPaid(policy, Used(), last - first);
      ghost var before := buf[..size];
      var dest, src := first, last;
      while src != size
        invariant first <= dest && last <= src <= size && dest - first == src - last
        invariant buf == old(buf) && Used() == old(Used())
        invariant forall i :: 0 <= i < first ==> buf[i] == before[i]
        invariant forall i :: first <= i < dest ==> buf[i] == before[i + (last - first)]
        invariant forall i :: src <= i < size ==> buf[i] == before[i]
      {
        buf[dest] := buf[src];
        src, dest := src + 1, dest + 1;
      }
      Shifted(before, buf[..dest], first, last);
      size := size - (last - first);
    }
  }

  lemma Shifted<T>(before: seq<T>, after: seq<T>, first: nat, last: nat)
    requires first <= last <= |before| && |after| == |before| - (last - first)
    requires forall i :: 0 <= i < first ==> after[i] == before[i]
    requires forall i :: first <= i < |after| ==> after[i] == before[i + (last - first)]
    ensures after == before[..first] + before[last..]
  {
  }
}
