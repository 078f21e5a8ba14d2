// SparseSet: an array of components, an index from ids into it, and the
// entities in the order of the components. Together they are a map.

module SparseSets {
  import opened Wrappers
  import opened Bytes
  import opened Entities

  // The largest size_t, which marks an absent id.
  const NONE := 0xFFFF_FFFF_FFFF_FFFF

  datatype Slot<+C> = Slot(generation: u32, component: C)

  // ---------------------------------------------------------------------
  // The map, operation by operation

  datatype Op<+C> = Insert(entity: Entity, component: C) | Remove(entity: Entity)

  // Inserting again keeps the generation that came first.
  function Inserted<C>(m: map<u32, Slot<C>>, e: Entity, c: C): map<u32, Slot<C>> {
    m[e.id := Slot(if e.id in m then m[e.id].generation else e.generation, c)]
  }

  function Step<C>(m: map<u32, Slot<C>>, op: Op<C>): map<u32, Slot<C>> {
    match op
    case Insert(e, c) => Inserted(m, e, c)
    case Remove(e) => m - {e.id}
  }

  function Run<C>(ops: seq<Op<C>>): map<u32, Slot<C>> {
    if ops == [] then map[] else Step(Run(ops[..|ops| - 1]), ops[|ops| - 1])
  }

  // The inserts of id since it was last removed.
  function Inserts<C>(ops: seq<Op<C>>, id: u32): (ins: seq<Op<C>>)
    ensures forall i :: 0 <= i < |ins| ==> ins[i].Insert? && ins[i].entity.id == id
  {
    if ops == [] then []
    else
      var rest, last := Inserts(ops[..|ops| - 1], id), ops[|ops| - 1];
      if last.entity.id != id then rest else if last.Insert? then rest + [last] else []
  }

  // After any run an id is present exactly when it has been inserted since it
  // was last removed; it carries the generation it was first inserted with,
  // and the component it was last inserted with.
  lemma {:induction false} RunIsHistory<C>(ops: seq<Op<C>>, id: u32)
    ensures var ins := Inserts(ops, id);
            if ins == [] then id !in Run(ops)
            else id in Run(ops) && Run(ops)[id] == Slot(ins[0].entity.generation, ins[|ins| - 1].component)
  {
    if ops != [] {
      RunIsHistory(ops[..|ops| - 1], id);
    }
  }

  // ---------------------------------------------------------------------
  // The three arrays

  predicate Agree<C>(dense: seq<C>, sparse: seq<nat>, entities: seq<Entity>) {
    && |dense| == |entities|
    && (forall id :: 0 <= id < |sparse| && sparse[id] != NONE ==> Indexed(sparse, entities, id))
    && (forall k :: 0 <= k < |entities| ==> Listed(sparse, entities, k))
  }

  // sparse and entities are inverse to each other.
  predicate Indexed(sparse: seq<nat>, entities: seq<Entity>, id: nat)
    requires id < |sparse|
  {
    sparse[id] < |entities| && entities[sparse[id]].id == id
  }

  predicate Listed(sparse: seq<nat>, entities: seq<Entity>, k: nat)
    requires k < |entities|
  {
    entities[k].id < |sparse| && sparse[entities[k].id] == k
  }

  // So there are no more components than ids: dropping the last entity and
  // its id leaves fewer of both.
  lemma {:induction false} NoMoreThanIds(sparse: seq<nat>, entities: seq<Entity>, ids: set<nat>)
    requires forall k :: 0 <= k < |entities| ==> entities[k].id in ids && Listed(sparse, entities, k)
    ensures |entities| <= |ids|
  {
    if entities != [] {
      var n := |entities| - 1;
      var front := entities[..n];
      forall k | 0 <= k < n ensures front[k].id in ids - {entities[n].id} && Listed(sparse, front, k) {
        assert Listed(sparse, entities, k) && Listed(sparse, entities, n);
      }
      NoMoreThanIds(sparse, front, ids - {entities[n].id});
    }
  }

  function UpTo(n: nat): (s: set<nat>)
    ensures |s| == n && forall i: nat :: i in s <==> i < n
  {
    if n == 0 then {} else UpTo(n - 1) + {n - 1}
  }

  lemma RoomForOne<C>(dense: seq<C>, sparse: seq<nat>, entities: seq<Entity>)
    requires Agree(dense, sparse, entities)
    ensures |dense| <= |sparse|
  {
    var ids := UpTo(|sparse|);
    forall k | 0 <= k < |entities| ensures entities[k].id in ids {
      assert Listed(sparse, entities, k);
    }
    NoMoreThanIds(sparse, entities, ids);
  }

  ghost function Contents<C>(dense: seq<C>, sparse: seq<nat>, entities: seq<Entity>): map<u32, Slot<C>>
    requires Agree(dense, sparse, entities)
  {
    map id: u32 | id < |sparse| && sparse[id] != NONE && Indexed(sparse, entities, id)
      :: Slot(entities[sparse[id]].generation, dense[sparse[id]])
  }

  // ---------------------------------------------------------------------
  // The operations keep the inverse and change the map as they should.

  lemma InsertNew<C>(dense: seq<C>, sparse: seq<nat>, entities: seq<Entity>, e: Entity, c: C)
    requires Agree(dense, sparse, entities)
    requires e.id < |sparse| < NONE && sparse[e.id] == NONE
    ensures var d, s, es := dense + [c], sparse[e.id := |dense|], entities + [e];
            Agree(d, s, es) && Contents(d, s, es) == Inserted(Contents(dense, sparse, entities), e, c)
  {
    RoomForOne(dense, sparse, entities);
    var d, s, es := dense + [c], sparse[e.id := |dense|], entities + [e];
    forall k | 0 <= k < |es| ensures Listed(s, es, k) {
      assert k < |entities| ==> Listed(sparse, entities, k);
    }
    forall id | 0 <= id < |s| && s[id] != NONE ensures Indexed(s, es, id) {
      assert id != e.id ==> Indexed(sparse, entities, id);
    }
  }

  lemma InsertAgain<C>(dense: seq<C>, sparse: seq<nat>, entities: seq<Entity>, e: Entity, c: C)
    requires Agree(dense, sparse, entities)
    requires e.id < |sparse| && sparse[e.id] != NONE
    ensures Indexed(sparse, entities, e.id)
    ensures var d := dense[sparse[e.id] := c];
            && Agree(d, sparse, entities)
            && Contents(d, sparse, entities) == Inserted(Contents(dense, sparse, entities), e, c)
  {
  }

  // The last component takes the place of the removed one.
  function SwappedOut<T>(xs: seq<T>, k: nat): (r: seq<T>)
    requires k < |xs|
    ensures |r| == |xs| - 1
    ensures forall i :: 0 <= i < |r| ==> r[i] == xs[if i == k then |xs| - 1 else i]
  {
    xs[k := xs[|xs| - 1]][..|xs| - 1]
  }

  lemma SwapRemove<C>(dense: seq<C>, sparse: seq<nat>, entities: seq<Entity>, id: u32)
    requires Agree(dense, sparse, entities)
    requires id < |sparse| < NONE && sparse[id] != NONE
    ensures Indexed(sparse, entities, id) && Listed(sparse, entities, |entities| - 1)
    ensures var k, last := sparse[id], entities[|entities| - 1];
            var d, es, s := SwappedOut(dense, k), SwappedOut(entities, k), sparse[last.id := k][id := NONE];
            Agree(d, s, es) && Contents(d, s, es) == Contents(dense, sparse, entities) - {id}
  {
    assert Indexed(sparse, entities, id) && Listed(sparse, entities, |entities| - 1);
    var k, last := sparse[id], entities[|entities| - 1];
    var d, es, s := SwappedOut(dense, k), SwappedOut(entities, k), sparse[last.id := k][id := NONE];
    RoomForOne(dense, sparse, entities);
    forall j | 0 <= j < |es| ensures Listed(s, es, j) {
      assert Listed(sparse, entities, j);
    }
    forall i | 0 <= i < |s| && s[i] != NONE ensures Indexed(s, es, i) && d[s[i]] == dense[sparse[i]]
                                                    && es[s[i]] == entities[sparse[i]] {
      assert Indexed(sparse, entities, i);
    }
  }

  // ---------------------------------------------------------------------

  class SparseSet<C> {
    var dense: seq<C>
    var sparse: seq<nat>
    var entities: seq<Entity>

    ghost predicate Valid()
      reads this
    {
      |sparse| < NONE && Agree(dense, sparse, entities)
    }

    ghost function Map(): map<u32, Slot<C>>
      requires Valid()
      reads this
    {
      Contents(dense, sparse, entities)
    }

    constructor (n: nat)
      requires n < NONE
      ensures Valid() && |sparse| == n && Map() == map[]
    {
      dense, entities := [], [];
      sparse := seq(n, _ => NONE);
    }

    method Insert(e: Entity, c: C)
      requires Valid() && e.id < |sparse|
      modifies this
      ensures Valid() && |sparse| == old(|sparse|)
      ensures Map() == Inserted(old(Map()), e, c)
      ensures entities == if e.id in old(Map()) then old(entities) else old(entities) + [e]
    {
      if sparse[e.id] == NONE {
        InsertNew(dense, sparse, entities, e, c);
        sparse := sparse[e.id := |dense|];
        dense := dense + [c];
        entities := entities + [e];
      } else {
        InsertAgain(dense, sparse, entities, e, c);
        dense := dense[sparse[e.id] := c];
      }
    }

    // A component is found under its generation only ...
    method At(e: Entity) returns (r: Option<C>)
      requires Valid() && e.id < |sparse|
      ensures r == if e.id in Map() && Map()[e.id].generation == e.generation then Some(Map()[e.id].component)
                   else None
    {
      if sparse[e.id] != NONE {
        assert Indexed(sparse, entities, e.id);
        if entities[sparse[e.id]].generation != e.generation {
          return None;
        }
        r := Some(dense[sparse[e.id]]);
      } else {
        r := None;
      }
    }

    // ... but its id is contained whatever the generation,
    method Contains(e: Entity) returns (r: bool)
      requires Valid() && e.id < |sparse|
      ensures r <==> e.id in Map()
    {
      assert sparse[e.id] != NONE ==> Indexed(sparse, entities, e.id);
      r := sparse[e.id] != NONE;
    }

    // and removed whatever the generation.
    method Remove(e: Entity)
      requires Valid()
      modifies this
      ensures Valid() && |sparse| == old(|sparse|)
      ensures Map() == old(Map()) - {e.id}
      ensures entities == if e.id in old(Map()) then old(SwappedOut(entities, sparse[e.id])) else old(entities)
    {
      if e.id >= |sparse| || sparse[e.id] == NONE || dense == [] {
        assert e.id < |sparse| && sparse[e.id] != NONE ==> Indexed(sparse, entities, e.id);
        return;
      }
      SwapRemove(dense, sparse, entities, e.id);
      ghost var d, es := SwappedOut(dense, sparse[e.id]), SwappedOut(entities, sparse[e.id]);
      ghost var s := sparse[entities[|entities| - 1].id := sparse[e.id]][e.id := NONE];
      dense := dense[sparse[e.id] := dense[|dense| - 1]];
      var last := entities[|entities| - 1];
      sparse := sparse[last.id := sparse[e.id]];
      entities := entities[sparse[e.id] := last];
      sparse := sparse[e.id := NONE];
      dense := dense[..|dense| - 1];
      entities := entities[..|entities| - 1];
      assert dense == d && sparse == s && entities == es;
    }
  }
}
