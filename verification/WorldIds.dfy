// The id bookkeeping of StaticWorld: live entities, a stack of dead ids, and a
// generation counter for every id.

module WorldIds {
  import opened Bytes
  import opened Entities

  const WRAP := 0x1_0000_0000

  datatype Ids = Ids(entities: seq<Entity>, dead: seq<u32>, generations: seq<u32>)

  // add_entity: the id freed last, under the old value of its counter, or a
  // new id under generation 0.
  function Issued(w: Ids): (e: Entity)
    requires w.dead != [] ==> w.dead[|w.dead| - 1] < |w.generations|
    requires w.dead == [] ==> |w.entities| < WRAP
  {
    if w.dead != [] then
      var id := w.dead[|w.dead| - 1];
      Entity(id, w.generations[id])
    else Entity(|w.entities|, 0)
  }

  function Added(w: Ids): Ids
    requires w.dead != [] ==> w.dead[|w.dead| - 1] < |w.generations|
    requires w.dead == [] ==> |w.entities| < WRAP
  {
    var e := Issued(w);
    if w.dead != [] then
      Ids(w.entities + [e], w.dead[..|w.dead| - 1], w.generations[e.id := (w.generations[e.id] + 1) % WRAP])
    else Ids(w.entities + [e], [], w.generations + [0])
  }

  // remove_entity looks for the id alone.
  function Position(entities: seq<Entity>, id: u32): (k: nat)
    ensures k <= |entities|
    ensures k < |entities| ==> entities[k].id == id
    ensures forall i :: 0 <= i < k ==> entities[i].id != id
  {
    if entities == [] || entities[0].id == id then 0 else 1 + Position(entities[1..], id)
  }

  function Removed(w: Ids, id: u32): Ids
    requires Position(w.entities, id) < |w.entities|
  {
    var k := Position(w.entities, id);
    Ids(w.entities[..k] + w.entities[k + 1..], w.dead + [id], w.generations)
  }

  // ---------------------------------------------------------------------
  // Live and dead ids

  // How many of the entities have this id, and how often it is on the stack.

  function Live(entities: seq<Entity>, id: u32): nat {
    if entities == [] then 0
    else Live(entities[..|entities| - 1], id) + if entities[|entities| - 1].id == id then 1 else 0
  }

  function Dead(dead: seq<u32>, id: u32): nat {
    if dead == [] then 0
    else Dead(dead[..|dead| - 1], id) + if dead[|dead| - 1] == id then 1 else 0
  }

  // Each id that has a counter is live once or dead once and not both; there
  // are no other ids.
  ghost predicate Partition(w: Ids) {
    && |w.entities| + |w.dead| == |w.generations| <= WRAP
    && forall id: u32 :: Live(w.entities, id) + Dead(w.dead, id) == if id < |w.generations| then 1 else 0
  }

  lemma {:induction false} LiveWithout(entities: seq<Entity>, k: nat, id: u32)
    requires k < |entities|
    ensures Live(entities, id)
            == Live(entities[..k] + entities[k + 1..], id) + if entities[k].id == id then 1 else 0
  {
    var n := |entities| - 1;
    var rest := entities[..k] + entities[k + 1..];
    if k < n {
      LiveWithout(entities[..n], k, id);
      assert rest[..n - 1] == entities[..n][..k] + entities[..n][k + 1..];
    } else {
      assert rest == entities[..n];
    }
  }

  lemma {:induction false} LivePositive(entities: seq<Entity>, k: nat)
    requires k < |entities|
    ensures Live(entities, entities[k].id) > 0
  {
    LiveWithout(entities, k, entities[k].id);
  }

  // No two live entities share an id.
  lemma LiveDistinct(w: Ids, i: nat, j: nat)
    requires Partition(w) && i < j < |w.entities|
    ensures w.entities[i].id != w.entities[j].id
  {
    LiveWithout(w.entities, j, w.entities[j].id);
    LivePositive(w.entities[..j] + w.entities[j + 1..], i);
  }

  // The id at the top of the stack has a counter.
  lemma TopCounted(w: Ids)
    requires Partition(w) && w.dead != []
    ensures w.dead[|w.dead| - 1] < |w.generations|
  {
    assert Dead(w.dead, w.dead[|w.dead| - 1]) > 0;
  }

  // A new entity gets an id that no live entity has.
  lemma {:induction false} AddKeepsPartition(w: Ids)
    requires Partition(w) && (w.dead == [] ==> |w.entities| < WRAP)
    ensures w.dead != [] ==> w.dead[|w.dead| - 1] < |w.generations|
    ensures Partition(Added(w)) && Live(w.entities, Issued(w).id) == 0
  {
    if w.dead != [] {
      TopCounted(w);
    }
    var w' := Added(w);
    assert w'.entities[..|w.entities|] == w.entities;
    forall id: u32 ensures Live(w'.entities, id) + Dead(w'.dead, id) == if id < |w'.generations| then 1 else 0 {
      assert Live(w.entities, id) + Dead(w.dead, id) == if id < |w.generations| then 1 else 0;
    }
  }

  lemma {:induction false} RemoveKeepsPartition(w: Ids, id: u32)
    requires Partition(w) && Position(w.entities, id) < |w.entities|
    ensures Partition(Removed(w, id))
  {
    var w' := Removed(w, id);
    assert w'.dead[..|w.dead|] == w.dead;
    forall x: u32 ensures Live(w'.entities, x) + Dead(w'.dead, x) == if x < |w'.generations| then 1 else 0 {
      LiveWithout(w.entities, Position(w.entities, id), x);
    }
  }

  // ---------------------------------------------------------------------
  // Runs

  datatype Op = Add | Remove(id: u32)

  // remove_entity demands a live entity, and there are 2^32 ids.
  predicate CanStep(w: Ids, op: Op) {
    match op
    case Add => w.dead == [] ==> |w.generations| < WRAP
    case Remove(id) => Position(w.entities, id) < |w.entities|
  }

  ghost predicate Enabled(w: Ids, ops: seq<Op>)
    requires Partition(w)
    decreases |ops|
  {
    ops == [] || (CanStep(w, ops[0]) && Enabled(Step(w, ops[0]), ops[1..]))
  }

  ghost function Step(w: Ids, op: Op): (r: Ids)
    requires Partition(w) && CanStep(w, op)
    ensures Partition(r)
  {
    match op
    case Add => AddKeepsPartition(w); Added(w)
    case Remove(id) => RemoveKeepsPartition(w, id); Removed(w, id)
  }

  const EMPTY := Ids([], [], [])

  ghost function Run(w: Ids, ops: seq<Op>): (r: Ids)
    requires Partition(w) && Enabled(w, ops)
    ensures Partition(r)
    decreases |ops|
  {
    if ops == [] then w else Run(Step(w, ops[0]), ops[1..])
  }

  // The handle a step returns, and those that a run returns.
  ghost function Handle(w: Ids, op: Op): seq<Entity>
    requires Partition(w) && CanStep(w, op)
  {
    if op.Add? then AddKeepsPartition(w); [Issued(w)] else []
  }

  ghost function Log(w: Ids, ops: seq<Op>, log: seq<Entity>): seq<Entity>
    requires Partition(w) && Enabled(w, ops)
    decreases |ops|
  {
    if ops == [] then log else Log(Step(w, ops[0]), ops[1..], log + Handle(w, ops[0]))
  }

  ghost function Handles(ops: seq<Op>): seq<Entity>
    requires Enabled(EMPTY, ops)
  {
    Log(EMPTY, ops, [])
  }

  // The generation under which an id is issued for the (k+1)-st time: the
  // counter starts at 0 and is handed out before it moves on.
  function Generation(k: nat): u32 {
    if k == 0 then 0 else (k - 1) % WRAP
  }

  // Every handle has the generation of its turn.
  predicate Turns(log: seq<Entity>) {
    log == [] ||
    var front, e := log[..|log| - 1], log[|log| - 1];
    Turns(front) && e.generation == Generation(Live(front, e.id))
  }

  // The counter of an id says how often it has been issued.
  predicate Counted(generations: seq<u32>, id: u32, issues: nat) {
    if id < |generations| then issues > 0 && generations[id] == (issues - 1) % WRAP else issues == 0
  }

  ghost predicate History(w: Ids, log: seq<Entity>) {
    Turns(log) && forall id: u32 :: Counted(w.generations, id, Live(log, id))
  }

  lemma {:induction false} StepKeepsHistory(w: Ids, log: seq<Entity>, op: Op)
    requires Partition(w) && CanStep(w, op) && History(w, log)
    ensures History(Step(w, op), log + Handle(w, op))
  {
    if op.Add? {
      AddKeepsPartition(w);
      IssueKeepsHistory(w, log);
    } else {
      assert log + [] == log;
    }
  }

  lemma {:induction false} IssueKeepsHistory(w: Ids, log: seq<Entity>)
    requires w.dead == [] ==> |w.entities| == |w.generations| < WRAP
    requires w.dead != [] ==> w.dead[|w.dead| - 1] < |w.generations|
    requires History(w, log)
    ensures History(Added(w), log + [Issued(w)])
  {
  }

  lemma {:induction false} RunKeepsHistory(w: Ids, ops: seq<Op>, log: seq<Entity>)
    requires Partition(w) && Enabled(w, ops) && History(w, log)
    ensures History(Run(w, ops), Log(w, ops, log))
    decreases |ops|
  {
    if ops != [] {
      StepKeepsHistory(w, log, ops[0]);
      RunKeepsHistory(Step(w, ops[0]), ops[1..], log + Handle(w, ops[0]));
    }
  }

  lemma {:induction false} TurnAt(log: seq<Entity>, i: nat)
    requires Turns(log) && i < |log|
    ensures log[i].generation == Generation(Live(log[..i], log[i].id))
  {
    var front := log[..|log| - 1];
    if i < |front| {
      TurnAt(front, i);
      assert front[..i] == log[..i];
    }
  }

  // In every run from an empty world, the generation of a handle is that of
  // its turn.
  lemma HandleGenerations(ops: seq<Op>, i: nat)
    requires Enabled(EMPTY, ops) && i < |Handles(ops)|
    ensures Turns(Handles(ops))
    ensures Handles(ops)[i].generation == Generation(Live(Handles(ops)[..i], Handles(ops)[i].id))
  {
    RunKeepsHistory(EMPTY, ops, []);
    TurnAt(Handles(ops), i);
  }

  lemma {:induction false} TurnsGrow(hs: seq<Entity>, i: nat, j: nat)
    requires i < j <= |hs|
    ensures Live(hs[..i], hs[i].id) < Live(hs[..j], hs[i].id)
    decreases j
  {
    assert hs[..j][..j - 1] == hs[..j - 1];
    if i < j - 1 {
      TurnsGrow(hs, i, j - 1);
    }
  }

  // Two turns with one generation: the first two, and those that lie a
  // multiple of 2^32 apart.
  predicate Indistinct(a: nat, b: nat)
    requires a < b
  {
    if a == 0 then (b - 1) % WRAP == 0 else (b - a) % WRAP == 0
  }

  // So two handles of a run to the same id are told apart, but for these.
  lemma HandlesRepeat(ops: seq<Op>, i: nat, j: nat)
    requires Enabled(EMPTY, ops) && i < j < |Handles(ops)| && Handles(ops)[i].id == Handles(ops)[j].id
    ensures var hs := Handles(ops);
            var a, b := Live(hs[..i], hs[i].id), Live(hs[..j], hs[j].id);
            && a < b
            && (hs[i] == hs[j] <==> Indistinct(a, b))
  {
    HandleGenerations(ops, i);
    TurnsRepeat(Handles(ops), i, j);
  }

  lemma TurnsRepeat(hs: seq<Entity>, i: nat, j: nat)
    requires Turns(hs) && i < j < |hs| && hs[i].id == hs[j].id
    ensures var a, b := Live(hs[..i], hs[i].id), Live(hs[..j], hs[j].id);
            && a < b
            && (hs[i] == hs[j] <==> Indistinct(a, b))
  {
    TurnAt(hs, i);
    TurnAt(hs, j);
    var a, b := Live(hs[..i], hs[i].id), Live(hs[..j], hs[j].id);
    assert a < b by {
      TurnsGrow(hs, i, j);
    }
    SameRemainder(a, b);
  }

  lemma SameRemainder(a: nat, b: nat)
    requires a < b
    ensures Generation(a) == Generation(b) <==> Indistinct(a, b)
  {
  }

  // The generations of the handles that reuse an id grow from one to the next,
  // until the counter wraps.
  lemma ReusesGrow(ops: seq<Op>, i: nat, j: nat)
    requires Enabled(EMPTY, ops) && i < j < |Handles(ops)| && Handles(ops)[i].id == Handles(ops)[j].id
    requires var hs := Handles(ops);
             0 < Live(hs[..i], hs[i].id) && Live(hs[..j], hs[j].id) <= WRAP
    ensures Handles(ops)[i].generation < Handles(ops)[j].generation
  {
    HandleGenerations(ops, i);
    HandleGenerations(ops, j);
    TurnsGrow(Handles(ops), i, j);
  }

  // The first two turns are one handle indeed: add an entity, remove it and
  // add another.
  lemma FirstReuseRepeats()
    ensures Enabled(EMPTY, [Add]) && Handles([Add]) == [Entity(0, 0)]
    ensures Enabled(EMPTY, [Add, Remove(0)]) && Run(EMPTY, [Add, Remove(0)]) == Ids([], [0], [0])
    ensures Enabled(EMPTY, [Add, Remove(0), Add]) && Handles([Add, Remove(0), Add]) == [Entity(0, 0), Entity(0, 0)]
  {
    FirstSteps();
    assert [Remove(0), Add][1..] == [Add] && [Add, Remove(0), Add][1..] == [Remove(0), Add];
    assert [Add, Remove(0)][1..] == [Remove(0)];
  }

  lemma FirstSteps()
    ensures CanStep(EMPTY, Add) && Step(EMPTY, Add) == Ids([Entity(0, 0)], [], [0])
    ensures Enabled(EMPTY, [Add]) && Log(EMPTY, [Add], []) == [Entity(0, 0)]
    ensures var live, freed := Step(EMPTY, Add), Ids([], [0], [0]);
            && CanStep(live, Remove(0)) && Step(live, Remove(0)) == freed
            && Enabled(live, [Remove(0)]) && Run(live, [Remove(0)]) == freed
            && CanStep(freed, Add)
            && Enabled(freed, [Add]) && Log(freed, [Add], [Entity(0, 0)]) == [Entity(0, 0), Entity(0, 0)]
  {
    AddKeepsPartition(EMPTY);
    OneStep(EMPTY, Add, []);
    var live := Ids([Entity(0, 0)], [], [0]);
    OneRemoved(live);
    OneReused(Ids([], [0], [0]));
  }

  lemma OneRemoved(live: Ids)
    requires live == Ids([Entity(0, 0)], [], [0]) && Partition(live)
    ensures CanStep(live, Remove(0)) && Step(live, Remove(0)) == Ids([], [0], [0])
    ensures Enabled(live, [Remove(0)]) && Run(live, [Remove(0)]) == Ids([], [0], [0])
  {
    RemoveKeepsPartition(live, 0);
    OneStep(live, Remove(0), []);
  }

  lemma OneReused(freed: Ids)
    requires freed == Ids([], [0], [0]) && Partition(freed)
    ensures CanStep(freed, Add) && Enabled(freed, [Add])
    ensures Log(freed, [Add], [Entity(0, 0)]) == [Entity(0, 0), Entity(0, 0)]
  {
    AddKeepsPartition(freed);
    OneStep(freed, Add, [Entity(0, 0)]);
  }

  lemma OneStep(w: Ids, op: Op, log: seq<Entity>)
    requires Partition(w) && CanStep(w, op)
    ensures Enabled(w, [op]) && Run(w, [op]) == Step(w, op) && Log(w, [op], log) == log + Handle(w, op)
  {
    assert [op][1..] == [];
  }

  // ---------------------------------------------------------------------
  // Which id is reused

  lemma {:induction false} LogSnoc(w: Ids, ops: seq<Op>, op: Op, log: seq<Entity>)
    requires Partition(w) && Enabled(w, ops + [op])
    ensures Enabled(w, ops) && CanStep(Run(w, ops), op)
    ensures Log(w, ops + [op], log) == Log(w, ops, log) + Handle(Run(w, ops), op)
    decreases |ops|
  {
    var all := ops + [op];
    if ops == [] {
      assert all == [op] && all[1..] == [];
    } else {
      assert all[0] == ops[0] && all[1..] == ops[1..] + [op];
      LogSnoc(Step(w, ops[0]), ops[1..], op, log + Handle(w, ops[0]));
    }
  }

  lemma RunSnoc(ops: seq<Op>, op: Op)
    requires Enabled(EMPTY, ops + [op])
    ensures Enabled(EMPTY, ops) && CanStep(Run(EMPTY, ops), op)
    ensures Run(EMPTY, ops + [op]) == Step(Run(EMPTY, ops), op)
  {
    RunFromSnoc(EMPTY, ops, op);
  }

  lemma {:induction false} RunFromSnoc(w: Ids, ops: seq<Op>, op: Op)
    requires Partition(w) && Enabled(w, ops + [op])
    ensures Enabled(w, ops) && CanStep(Run(w, ops), op)
    ensures Run(w, ops + [op]) == Step(Run(w, ops), op)
    decreases |ops|
  {
    var all := ops + [op];
    if ops == [] {
      assert all == [op] && all[1..] == [];
    } else {
      assert all[0] == ops[0] && all[1..] == ops[1..] + [op];
      RunFromSnoc(Step(w, ops[0]), ops[1..], op);
    }
  }

  lemma RunFront(ops: seq<Op>)
    requires ops != [] && Enabled(EMPTY, ops)
    ensures var front, last := ops[..|ops| - 1], ops[|ops| - 1];
            && Enabled(EMPTY, front) && CanStep(Run(EMPTY, front), last)
            && Run(EMPTY, ops) == Step(Run(EMPTY, front), last)
  {
    var front, last := ops[..|ops| - 1], ops[|ops| - 1];
    assert front + [last] == ops;
    RunSnoc(front, last);
  }

  // The handles issued from the k-th step on.
  ghost function IssuedSince(ops: seq<Op>, k: nat): seq<Entity>
    requires Enabled(EMPTY, ops)
    decreases |ops|
  {
    if |ops| <= k then []
    else
      RunFront(ops);
      var front := ops[..|ops| - 1];
      IssuedSince(front, k) + Handle(Run(EMPTY, front), ops[|ops| - 1])
  }

  // The k-th step removed an id that has not been issued since.
  ghost predicate Free(ops: seq<Op>, k: nat)
    requires Enabled(EMPTY, ops)
  {
    k < |ops| && ops[k].Remove? && forall e :: e in IssuedSince(ops, k + 1) ==> e.id != ops[k].id
  }

  ghost function FreeSteps(ops: seq<Op>): iset<nat>
    requires Enabled(EMPTY, ops)
  {
    iset k: nat | Free(ops, k)
  }

  // The stack of dead ids holds those removed in the free steps, the one
  // removed last on top.
  ghost predicate Stacked(free: iset<nat>, ops: seq<Op>, dead: seq<u32>, at: seq<nat>) {
    && |at| == |dead|
    && (forall i :: 0 <= i < |at| ==> at[i] < |ops| && ops[at[i]] == Remove(dead[i]) && at[i] in free)
    && (forall i, j :: 0 <= i < j < |at| ==> at[i] < at[j])
    && (forall k :: k in free ==> k in at)
  }

  lemma FreeSnoc(ops: seq<Op>, op: Op, k: nat)
    requires Enabled(EMPTY, ops + [op]) && Enabled(EMPTY, ops) && CanStep(Run(EMPTY, ops), op)
    ensures k < |ops| ==>
              (Free(ops + [op], k) <==>
               Free(ops, k) && forall e :: e in Handle(Run(EMPTY, ops), op) ==> e.id != ops[k].id)
    ensures k == |ops| ==> (Free(ops + [op], k) <==> op.Remove?)
  {
    var all := ops + [op];
    RunFront(all);
    assert all[..|all| - 1] == ops;
    if k < |ops| {
      assert IssuedSince(all, k + 1) == IssuedSince(ops, k + 1) + Handle(Run(EMPTY, ops), op);
    }
  }

  lemma {:induction false} DeadDistinct(w: Ids, i: nat, j: nat)
    requires Partition(w) && i < j < |w.dead|
    ensures w.dead[i] != w.dead[j]
  {
    var id := w.dead[j];
    assert Live(w.entities, id) + Dead(w.dead, id) == if id < |w.generations| then 1 else 0;
    DeadCount(w.dead, i, j);
  }

  lemma {:induction false} DeadCount(dead: seq<u32>, i: nat, j: nat)
    requires i < j < |dead|
    ensures dead[i] == dead[j] ==> Dead(dead, dead[j]) >= 2
    decreases |dead|
  {
    var front := dead[..|dead| - 1];
    if j == |dead| - 1 {
      DeadOnce(front, i);
    } else {
      DeadCount(front, i, j);
    }
  }

  lemma {:induction false} DeadOnce(dead: seq<u32>, i: nat)
    requires i < |dead|
    ensures Dead(dead, dead[i]) >= 1
    decreases |dead|
  {
    if i < |dead| - 1 {
      DeadOnce(dead[..|dead| - 1], i);
    }
  }

  lemma {:induction false} StackOf(ops: seq<Op>) returns (at: seq<nat>)
    requires Enabled(EMPTY, ops)
    ensures Stacked(FreeSteps(ops), ops, Run(EMPTY, ops).dead, at)
    decreases |ops|
  {
    if ops == [] {
      at := [];
    } else {
      var front, last := ops[..|ops| - 1], ops[|ops| - 1];
      RunFront(ops);
      assert front + [last] == ops;
      at := StackOf(front);
      if last.Add? {
        at := StackAdd(front, at);
      } else {
        at := StackRemove(front, last.id, at);
      }
    }
  }

  lemma {:induction false} StackRemove(ops: seq<Op>, id: u32, at: seq<nat>) returns (after: seq<nat>)
    requires Enabled(EMPTY, ops) && CanStep(Run(EMPTY, ops), Remove(id)) && Enabled(EMPTY, ops + [Remove(id)])
    requires Stacked(FreeSteps(ops), ops, Run(EMPTY, ops).dead, at)
    ensures Stacked(FreeSteps(ops + [Remove(id)]), ops + [Remove(id)], Run(EMPTY, ops).dead + [id], after)
  {
    var all := ops + [Remove(id)];
    after := at + [|ops|];
    forall k: nat ensures Free(all, k) <==> k == |ops| || Free(ops, k) {
      FreeSnoc(ops, Remove(id), k);
    }
  }

  lemma {:induction false} FreeAfterAdd(ops: seq<Op>)
    requires Enabled(EMPTY, ops) && CanStep(Run(EMPTY, ops), Add) && Enabled(EMPTY, ops + [Add])
    ensures Handle(Run(EMPTY, ops), Add) != []
    ensures var id := Handle(Run(EMPTY, ops), Add)[0].id;
            forall k: nat :: Free(ops + [Add], k) <==> Free(ops, k) && ops[k].id != id
  {
    var id := Handle(Run(EMPTY, ops), Add)[0].id;
    forall k: nat ensures Free(ops + [Add], k) <==> Free(ops, k) && ops[k].id != id {
      FreeSnoc(ops, Add, k);
    }
  }

  lemma {:induction false} TopDistinct(w: Ids)
    requires Partition(w) && w.dead != []
    ensures forall i :: 0 <= i < |w.dead| - 1 ==> w.dead[i] != w.dead[|w.dead| - 1]
  {
    forall i | 0 <= i < |w.dead| - 1 ensures w.dead[i] != w.dead[|w.dead| - 1] {
      DeadDistinct(w, i, |w.dead| - 1);
    }
  }

  // What an add does to the stack, and which id it issues.
  lemma {:induction false} AddTakes(w: Ids) returns (id: u32, dead: seq<u32>)
    requires Partition(w) && CanStep(w, Add)
    ensures dead == Step(w, Add).dead && Handle(w, Add) != [] && Handle(w, Add)[0].id == id
    ensures w.dead == [] ==> dead == []
    ensures w.dead != [] ==> id == w.dead[|w.dead| - 1] && dead == w.dead[..|w.dead| - 1]
  {
    AddKeepsPartition(w);
    id, dead := Issued(w).id, Added(w).dead;
  }

  lemma {:induction false} StackAdd(ops: seq<Op>, at: seq<nat>) returns (after: seq<nat>)
    requires Enabled(EMPTY, ops) && CanStep(Run(EMPTY, ops), Add) && Enabled(EMPTY, ops + [Add])
    requires Stacked(FreeSteps(ops), ops, Run(EMPTY, ops).dead, at)
    ensures Stacked(FreeSteps(ops + [Add]), ops + [Add], Step(Run(EMPTY, ops), Add).dead, after)
  {
    var stack := Run(EMPTY, ops).dead;
    var id, dead := AddTakes(Run(EMPTY, ops));
    FreeAfterAdd(ops);
    if stack == [] {
      after := [];
    } else {
      TopDistinct(Run(EMPTY, ops));
      after := at[..|stack| - 1];
      Popped(FreeSteps(ops), FreeSteps(ops + [Add]), ops, ops + [Add], stack, at);
    }
  }

  // The top of the stack has been issued.
  lemma {:induction false} Popped(free: iset<nat>, left: iset<nat>, ops: seq<Op>, all: seq<Op>, dead: seq<u32>,
                                  at: seq<nat>)
    requires at != [] && Stacked(free, ops, dead, at) && ops <= all
    requires forall k :: k in left <==> k in free && ops[k].id != dead[|dead| - 1]
    requires forall i :: 0 <= i < |dead| - 1 ==> dead[i] != dead[|dead| - 1]
    ensures Stacked(left, all, dead[..|dead| - 1], at[..|dead| - 1])
  {
    var rest := at[..|dead| - 1];
    forall k | k in left ensures k in rest {
      var i :| 0 <= i < |at| && at[i] == k;
      assert rest[i] == k;
    }
  }

  ghost predicate NewestFree(ops: seq<Op>, k: nat)
    requires Enabled(EMPTY, ops)
  {
    Free(ops, k) && forall j: nat :: Free(ops, j) ==> j <= k
  }

  // In every run the id that is reused is the one removed last among those not
  // issued since; when there is none, the id is new.
  lemma {:induction false} NewestReused(ops: seq<Op>)
    requires Enabled(EMPTY, ops + [Add])
    ensures Enabled(EMPTY, ops) && CanStep(Run(EMPTY, ops), Add)
    ensures var id := Handle(Run(EMPTY, ops), Add)[0].id;
            if exists k: nat :: Free(ops, k) then exists k: nat :: NewestFree(ops, k) && ops[k] == Remove(id)
            else forall e :: e in Handles(ops) ==> e.id != id
  {
    RunSnoc(ops, Add);
    var at := StackOf(ops);
    var id, dead := AddTakes(Run(EMPTY, ops));
    if at != [] {
      TopIsNewest(ops, at);
    } else {
      NoneFree(ops);
      NewIdUnused(ops);
    }
  }

  lemma {:induction false} TopIsNewest(ops: seq<Op>, at: seq<nat>)
    requires Enabled(EMPTY, ops) && Stacked(FreeSteps(ops), ops, Run(EMPTY, ops).dead, at) && at != []
    ensures var k, dead := at[|at| - 1], Run(EMPTY, ops).dead;
            NewestFree(ops, k) && dead != [] && ops[k] == Remove(dead[|dead| - 1])
  {
    var k := at[|at| - 1];
    assert k in FreeSteps(ops);
    forall j: nat | Free(ops, j) ensures j <= k {
      assert j in FreeSteps(ops);
      var i :| 0 <= i < |at| && at[i] == j;
    }
  }

  lemma {:induction false} NoneFree(ops: seq<Op>)
    requires Enabled(EMPTY, ops) && Stacked(FreeSteps(ops), ops, Run(EMPTY, ops).dead, [])
    ensures Run(EMPTY, ops).dead == [] && forall k: nat :: !Free(ops, k)
  {
    forall k: nat ensures !Free(ops, k) {
      assert k !in FreeSteps(ops);
    }
  }

  lemma {:induction false} NewIdUnused(ops: seq<Op>)
    requires Enabled(EMPTY, ops) && CanStep(Run(EMPTY, ops), Add) && Run(EMPTY, ops).dead == []
    ensures forall e :: e in Handles(ops) ==> e.id != Handle(Run(EMPTY, ops), Add)[0].id
  {
    var w := Run(EMPTY, ops);
    RunKeepsHistory(EMPTY, ops, []);
    assert Counted(w.generations, Issued(w).id, Live(Handles(ops), Issued(w).id));
    NeverIssued(Handles(ops), Issued(w).id);
  }

  lemma NeverIssued(log: seq<Entity>, id: u32)
    requires Live(log, id) == 0
    ensures forall e :: e in log ==> e.id != id
  {
    forall i | 0 <= i < |log| ensures log[i].id != id {
      LivePositive(log, i);
    }
  }

  // ---------------------------------------------------------------------

  class World {
    var entities: seq<Entity>
    var deadEntities: seq<u32>
    var generations: seq<u32>

    ghost function State(): Ids
      reads this
    {
      Ids(entities, deadEntities, generations)
    }

    constructor ()
      ensures State() == EMPTY && Partition(State())
    {
      entities, deadEntities, generations := [], [], [];
    }

    method AddEntity() returns (e: Entity)
      requires Partition(State()) && CanStep(State(), Add)
      modifies this
      ensures Partition(State()) && State() == old(Step(State(), Add))
      ensures [e] == old(Handle(State(), Add))
      ensures Live(old(entities), e.id) == 0
    {
      AddKeepsPartition(State());
      if deadEntities != [] {
        var id := deadEntities[|deadEntities| - 1];
        deadEntities := deadEntities[..|deadEntities| - 1];
        e := Entity(id, generations[id]);
        generations := generations[id := (generations[id] + 1) % WRAP];
      } else {
        e := Entity(|entities|, 0);
        generations := generations + [0];
      }
      entities := entities + [e];
    }

    method Find(id: u32) returns (k: nat)
      ensures k == Position(entities, id)
    {
      k := 0;
      while k < |entities| && entities[k].id != id
        invariant k <= |entities| && Position(entities, id) == k + Position(entities[k..], id)
      {
        assert entities[k..][1..] == entities[k + 1..];
        k := k + 1;
      }
    }

    // The entity is looked up by its id: a handle of an earlier generation
    // removes the one that now has it.
    method RemoveEntity(e: Entity)
      requires Partition(State()) && CanStep(State(), Remove(e.id))
      modifies this
      ensures Partition(State()) && State() == old(Step(State(), Remove(e.id)))
    {
      RemoveKeepsPartition(State(), e.id);
      var k := Find(e.id);
      deadEntities := deadEntities + [e.id];
      entities := entities[..k] + entities[k + 1..];
    }

    method HasEntity(e: Entity) returns (r: bool)
      ensures r <==> Live(entities, e.id) > 0
    {
      var k := Find(e.id);
      r := k < |entities|;
      LiveIffFound(entities, e.id);
    }
  }

  lemma {:induction false} LiveIffFound(entities: seq<Entity>, id: u32)
    ensures Live(entities, id) > 0 <==> Position(entities, id) < |entities|
  {
    var k := Position(entities, id);
    if k < |entities| {
      LivePositive(entities, k);
    } else {
      NotLive(entities, id);
    }
  }

  lemma {:induction false} NotLive(entities: seq<Entity>, id: u32)
    requires forall i :: 0 <= i < |entities| ==> entities[i].id != id
    ensures Live(entities, id) == 0
  {
    if entities != [] {
      NotLive(entities[..|entities| - 1], id);
    }
  }
}
