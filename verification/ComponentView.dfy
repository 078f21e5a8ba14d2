// View: iteration over the entities that have a component in every one of
// several sparse sets, driven by the smallest of them.

module ComponentViews {
  import opened Wrappers
  import opened Bytes
  import opened Entities
  import opened SparseSets

  // What the sets hold, set by set, for the duration of an iteration.
  type Maps<C> = seq<map<u32, Slot<C>>>

  predicate InAll<C>(sets: Maps<C>, id: u32) {
    forall i :: 0 <= i < |sets| ==> id in sets[i]
  }

  // The next entity, from position i on, that is in all sets.
  function NextMatch<C>(sets: Maps<C>, entities: seq<Entity>, i: nat): (n: nat)
    requires i <= |entities|
    ensures i <= n <= |entities|
    decreases |entities| - i
  {
    if i == |entities| || InAll(sets, entities[i].id) then i else NextMatch(sets, entities, i + 1)
  }

  // What a loop from begin() to end() visits, from position i on.
  function Visited<C>(sets: Maps<C>, entities: seq<Entity>, i: nat): seq<Entity>
    requires i <= |entities|
    decreases |entities| - i
  {
    var n := NextMatch(sets, entities, i);
    if n == |entities| then [] else [entities[n]] + Visited(sets, entities, n + 1)
  }

  predicate HasId(entities: seq<Entity>, id: u32) {
    entities != [] && (entities[0].id == id || HasId(entities[1..], id))
  }

  predicate DistinctIds(entities: seq<Entity>) {
    entities == [] || (!HasId(entities[1..], entities[0].id) && DistinctIds(entities[1..]))
  }

  lemma {:induction false} HasIdAt(entities: seq<Entity>, id: u32)
    ensures HasId(entities, id) <==> exists i :: 0 <= i < |entities| && entities[i].id == id
  {
    if entities != [] {
      HasIdAt(entities[1..], id);
      assert entities == [entities[0]] + entities[1..];
    }
  }

  lemma {:induction false} DistinctIdsAt(entities: seq<Entity>)
    ensures DistinctIds(entities) <==>
            forall i, j :: 0 <= i < j < |entities| ==> entities[i].id != entities[j].id
  {
    if entities != [] {
      var rest := entities[1..];
      HasIdAt(rest, entities[0].id);
      DistinctIdsAt(rest);
      assert forall i :: 0 <= i < |rest| ==> rest[i] == entities[i + 1];
      if DistinctIds(entities) {
        forall i, j | 0 <= i < j < |entities| ensures entities[i].id != entities[j].id {
          assert entities[j] == rest[j - 1];
          assert i > 0 ==> entities[i] == rest[i - 1];
        }
      }
    }
  }

  // The entities a set lists: one for each id, with the generation it is
  // stored under.
  predicate Lists<C>(entities: seq<Entity>, m: map<u32, Slot<C>>) {
    && DistinctIds(entities)
    && (forall i :: 0 <= i < |entities| ==>
          entities[i].id in m && m[entities[i].id].generation == entities[i].generation)
    && (forall id :: id in m ==> HasId(entities, id))
  }

  // ---------------------------------------------------------------------

  lemma {:induction false} NextMatchSkips<C>(sets: Maps<C>, entities: seq<Entity>, i: nat)
    requires i <= |entities|
    ensures var n := NextMatch(sets, entities, i);
            && (n < |entities| ==> InAll(sets, entities[n].id))
            && forall e :: e in entities[i..n] ==> !InAll(sets, e.id)
    decreases |entities| - i
  {
    if i < |entities| && !InAll(sets, entities[i].id) {
      NextMatchSkips(sets, entities, i + 1);
      var n := NextMatch(sets, entities, i);
      assert entities[i..n] == [entities[i]] + entities[i + 1..n];
    }
  }

  // Every entity in all sets is visited, in the order of the driving set, and
  // no other.
  lemma {:induction false} VisitedIs<C>(sets: Maps<C>, entities: seq<Entity>, i: nat)
    requires i <= |entities|
    ensures forall e :: e in Visited(sets, entities, i) <==> e in entities[i..] && InAll(sets, e.id)
    ensures |Visited(sets, entities, i)| <= |entities| - i
    decreases |entities| - i
  {
    var n := NextMatch(sets, entities, i);
    NextMatchSkips(sets, entities, i);
    if n == |entities| {
      assert entities[i..n] == entities[i..];
    } else {
      assert entities[i..] == entities[i..n] + [entities[n]] + entities[n + 1..];
      VisitedIs(sets, entities, n + 1);
    }
  }

  // The entities in all sets, in their order.
  function Matching<C>(sets: Maps<C>, entities: seq<Entity>): seq<Entity> {
    if entities == [] then []
    else if InAll(sets, entities[0].id) then [entities[0]] + Matching(sets, entities[1..])
    else Matching(sets, entities[1..])
  }

  lemma {:induction false} VisitedInOrder<C>(sets: Maps<C>, entities: seq<Entity>, i: nat)
    requires i <= |entities|
    ensures Visited(sets, entities, i) == Matching(sets, entities[i..])
    decreases |entities| - i
  {
    if i < |entities| {
      assert entities[i..][0] == entities[i] && entities[i..][1..] == entities[i + 1..];
      VisitedInOrder(sets, entities, i + 1);
      if !InAll(sets, entities[i].id) {
        assert NextMatch(sets, entities, i) == NextMatch(sets, entities, i + 1);
      }
    }
  }

  lemma {:induction false} VisitedOnce<C>(sets: Maps<C>, entities: seq<Entity>, i: nat)
    requires i <= |entities| && DistinctIds(entities)
    ensures DistinctIds(Visited(sets, entities, i))
    decreases |entities| - i
  {
    var n := NextMatch(sets, entities, i);
    if n < |entities| {
      VisitedOnce(sets, entities, n + 1);
      VisitedIs(sets, entities, n + 1);
      DistinctIdsAt(entities);
      var rest := Visited(sets, entities, n + 1);
      HasIdAt(rest, entities[n].id);
      forall k | 0 <= k < |rest| ensures rest[k].id != entities[n].id {
        assert rest[k] in entities[n + 1..];
      }
      assert ([entities[n]] + rest)[1..] == rest;
    }
  }

  // Exactly the ids in all sets, each once.
  ghost predicate IsIntersection<C>(sets: Maps<C>, visited: seq<Entity>) {
    && DistinctIds(visited)
    && forall id :: InAll(sets, id) <==> HasId(visited, id)
  }

  // An iteration driven by a listing of any one of the sets visits exactly the
  // ids that are in all of them, each once.
  lemma VisitsIntersection<C>(sets: Maps<C>, driver: nat, entities: seq<Entity>)
    requires driver < |sets| && Lists(entities, sets[driver])
    ensures IsIntersection(sets, Visited(sets, entities, 0))
  {
    var v := Visited(sets, entities, 0);
    VisitedIs(sets, entities, 0);
    VisitedOnce(sets, entities, 0);
    forall id ensures InAll(sets, id) <==> HasId(v, id) {
      HasIdAt(entities, id);
      HasIdAt(v, id);
      if InAll(sets, id) {
        var j :| 0 <= j < |entities| && entities[j].id == id;
        assert entities[j] in v;
      }
      if k :| 0 <= k < |v| && v[k].id == id {
        assert v[k] in v;
      }
    }
  }

  // The sets store the ids they share under one generation.
  predicate GenerationsAgree<C>(sets: Maps<C>) {
    forall id, i, j :: InAll(sets, id) && 0 <= i < |sets| && 0 <= j < |sets| ==>
                         sets[i][id].generation == sets[j][id].generation
  }

  // What at answers.
  function Lookup<C>(m: map<u32, Slot<C>>, e: Entity): Option<C> {
    if e.id in m && m[e.id].generation == e.generation then Some(m[e.id].component) else None
  }

  predicate Dereferences<C>(sets: Maps<C>, e: Entity) {
    forall i :: 0 <= i < |sets| ==> Lookup(sets[i], e).Some?
  }

  lemma DereferencesAgree<C>(sets: Maps<C>, driver: nat, entities: seq<Entity>, id: u32, i: nat, j: nat)
    requires driver < |sets| && Lists(entities, sets[driver])
    requires forall e :: e in Visited(sets, entities, 0) ==> Dereferences(sets, e)
    requires InAll(sets, id) && i < |sets| && j < |sets|
    ensures sets[i][id].generation == sets[j][id].generation
  {
    VisitsIntersection(sets, driver, entities);
    var v := Visited(sets, entities, 0);
    HasIdAt(v, id);
    var k :| 0 <= k < |v| && v[k].id == id;
    assert Dereferences(sets, v[k]);
    assert Lookup(sets[i], v[k]).Some? && Lookup(sets[j], v[k]).Some?;
  }

  // Every position of the iterator can be dereferenced exactly when the sets
  // agree on the generation of the ids they share.
  lemma DereferenceExact<C>(sets: Maps<C>, driver: nat, entities: seq<Entity>)
    requires driver < |sets| && Lists(entities, sets[driver])
    ensures (forall e :: e in Visited(sets, entities, 0) ==> Dereferences(sets, e)) <==> GenerationsAgree(sets)
  {
    if forall e :: e in Visited(sets, entities, 0) ==> Dereferences(sets, e) {
      forall id, i, j | InAll(sets, id) && 0 <= i < |sets| && 0 <= j < |sets|
        ensures sets[i][id].generation == sets[j][id].generation
      {
        DereferencesAgree(sets, driver, entities, id, i, j);
      }
    }
    if GenerationsAgree(sets) {
      VisitedIs(sets, entities, 0);
      forall e | e in Visited(sets, entities, 0) ensures Dereferences(sets, e) {
        forall i | 0 <= i < |sets| ensures Lookup(sets[i], e).Some? {
          assert sets[i][e.id].generation == sets[driver][e.id].generation;
        }
      }
    }
  }

  // ---------------------------------------------------------------------
  // A loop over a view

  // At position i, a match or the end, these entities have been visited.
  predicate Seen<C>(sets: Maps<C>, entities: seq<Entity>, i: nat, visited: seq<Entity>) {
    && i <= |entities|
    && i == NextMatch(sets, entities, i)
    && visited + Visited(sets, entities, i) == Visited(sets, entities, 0)
  }

  // Nothing is visited between a position and the next match.
  lemma VisitedFromMatch<C>(sets: Maps<C>, entities: seq<Entity>, i: nat)
    requires i <= |entities|
    ensures var n := NextMatch(sets, entities, i);
            n == NextMatch(sets, entities, n) && Visited(sets, entities, i) == Visited(sets, entities, n)
  {
    NextMatchSkips(sets, entities, i);
  }

  lemma SeenNone<C>(sets: Maps<C>, entities: seq<Entity>)
    ensures Seen(sets, entities, NextMatch(sets, entities, 0), [])
  {
    VisitedFromMatch(sets, entities, 0);
  }

  lemma SeenMore<C>(sets: Maps<C>, entities: seq<Entity>, i: nat, visited: seq<Entity>)
    requires Seen(sets, entities, i, visited) && i < |entities|
    ensures Seen(sets, entities, NextMatch(sets, entities, i + 1), visited + [entities[i]])
  {
    VisitedFromMatch(sets, entities, i + 1);
    var rest := Visited(sets, entities, i + 1);
    assert visited + ([entities[i]] + rest) == visited + [entities[i]] + rest;
  }

  // What the iterator is dereferenced to at each of them.
  ghost predicate LookedUp<C>(sets: Maps<C>, visited: seq<Entity>, found: seq<seq<Option<C>>>) {
    |visited| == |found| && forall k :: 0 <= k < |found| ==> LookedUpAt(sets, visited[k], found[k])
  }

  ghost predicate LookedUpAt<C>(sets: Maps<C>, e: Entity, found: seq<Option<C>>) {
    |found| == |sets| && forall i :: 0 <= i < |sets| ==> found[i] == Lookup(sets[i], e)
  }

  lemma LookedUpMore<C>(sets: Maps<C>, visited: seq<Entity>, found: seq<seq<Option<C>>>, e: Entity,
                        components: seq<Option<C>>)
    requires LookedUp(sets, visited, found) && LookedUpAt(sets, e, components)
    ensures LookedUp(sets, visited + [e], found + [components])
  {
  }

  // ---------------------------------------------------------------------
  // The iterator and the view

  // Sets of one capacity n
  ghost predicate AllValid<C(!new)>(sets: seq<SparseSet<C>>, n: nat)
    reads sets
  {
    forall s :: s in sets ==> s.Valid() && |s.sparse| == n
  }

  ghost function MapsOf<C(!new)>(sets: seq<SparseSet<C>>, n: nat): (m: Maps<C>)
    requires AllValid(sets, n)
    reads sets
    ensures |m| == |sets| && forall i :: 0 <= i < |sets| ==> m[i] == sets[i].Map()
  {
    if sets == [] then [] else [sets[0].Map()] + MapsOf(sets[1..], n)
  }

  // A set lists its own ids.
  lemma SetLists<C>(s: SparseSet<C>)
    requires s.Valid()
    ensures Lists(s.entities, s.Map()) && |s.entities| < NONE
  {
    RoomForOne(s.dense, s.sparse, s.entities);
    DistinctIdsAt(s.entities);
    forall i | 0 <= i < |s.entities|
      ensures Listed(s.sparse, s.entities, i) && Indexed(s.sparse, s.entities, s.entities[i].id)
    {
      assert Listed(s.sparse, s.entities, i);
    }
    forall id | id in s.Map() ensures HasId(s.entities, id) {
      assert s.entities[s.sparse[id]].id == id;
      HasIdAt(s.entities, id);
    }
  }

  class Iterator<C(!new)> {
    const sets: seq<SparseSet<C>>
    const entities: seq<Entity> // the listing of the set that drives the iteration
    var pos: nat

    ghost predicate Valid(n: nat)
      reads this, sets
    {
      && AllValid(sets, n) && pos <= |entities|
      && forall e :: e in entities ==> e.id < n
    }

    static method ContainedInAll(sets: seq<SparseSet<C>>, e: Entity, ghost n: nat) returns (r: bool)
      requires AllValid(sets, n) && e.id < n
      ensures r <==> InAll(MapsOf(sets, n), e.id)
    {
      r := true;
      for i := 0 to |sets|
        invariant r <==> forall k :: 0 <= k < i ==> e.id in sets[k].Map()
      {
        if r {
          r := sets[i].Contains(e);
        }
      }
    }

    constructor (sets: seq<SparseSet<C>>, entities: seq<Entity>, start: nat, ghost n: nat)
      requires AllValid(sets, n) && start <= |entities| && forall e :: e in entities ==> e.id < n
      ensures this.sets == sets && this.entities == entities && Valid(n)
      ensures pos == NextMatch(MapsOf(sets, n), entities, start)
    {
      this.sets, this.entities, pos := sets, entities, start;
      new;
      pos := Scan(sets, entities, start, n);
    }

    // operator++
    method Advance(ghost n: nat)
      requires Valid(n) && pos < |entities|
      modifies this
      ensures Valid(n) && pos == NextMatch(MapsOf(sets, n), entities, old(pos) + 1)
    {
      pos := Scan(sets, entities, pos + 1, n);
    }

    // The loop of both: on to the next entity that all sets contain.
    static method Scan(sets: seq<SparseSet<C>>, entities: seq<Entity>, start: nat, ghost n: nat) returns (i: nat)
      requires AllValid(sets, n) && start <= |entities| && forall e :: e in entities ==> e.id < n
      ensures i == NextMatch(MapsOf(sets, n), entities, start)
    {
      ghost var maps := MapsOf(sets, n);
      i := start;
      while i != |entities|
        invariant i <= |entities| && NextMatch(maps, entities, start) == NextMatch(maps, entities, i)
        decreases |entities| - i
      {
        var found := ContainedInAll(sets, entities[i], n);
        if found {
          return;
        }
        i := i + 1;
      }
    }

    // operator*: the component of every set, looked up under the entity of the
    // driving set.
    method Dereference(ghost n: nat) returns (r: seq<Option<C>>)
      requires Valid(n) && pos < |entities|
      ensures |r| == |sets| && forall i :: 0 <= i < |sets| ==> r[i] == Lookup(sets[i].Map(), entities[pos])
    {
      r := [];
      for i := 0 to |sets|
        invariant |r| == i && forall k :: 0 <= k < i ==> r[k] == Lookup(sets[k].Map(), entities[pos])
      {
        var c := sets[i].At(entities[pos]);
        r := r + [c];
      }
    }
  }

  class View<C(!new)> {
    const sets: seq<SparseSet<C>>

    constructor (sets: seq<SparseSet<C>>)
      requires sets != []
      ensures this.sets == sets
    {
      this.sets := sets;
    }

    // The first of the smallest sets
    method FindSmallest(ghost n: nat) returns (driver: nat)
      requires AllValid(sets, n) && sets != []
      ensures driver < |sets|
      ensures forall i :: 0 <= i < |sets| ==> |sets[driver].entities| <= |sets[i].entities|
      ensures forall i :: 0 <= i < driver ==> |sets[driver].entities| < |sets[i].entities|
    {
      var smallest := NONE;
      driver := 0;
      for i := 0 to |sets|
        invariant driver < |sets| && (i > 0 ==> driver < i && smallest == |sets[driver].entities|)
        invariant i == 0 ==> smallest == NONE && driver == 0
        invariant forall k :: 0 <= k < i ==> smallest <= |sets[k].entities|
        invariant forall k :: 0 <= k < driver ==> smallest < |sets[k].entities|
      {
        SetLists(sets[i]);
        if |sets[i].dense| < smallest {
          smallest := |sets[i].dense|;
          driver := i;
        }
      }
    }

    // begin and end: the iteration from one to the other visits exactly the ids
    // in all sets, each once, in at most as many steps as the smallest set has
    // entities.
    method Begin(ghost n: nat) returns (it: Iterator<C>, ghost driver: nat)
      requires AllValid(sets, n) && sets != []
      ensures fresh(it) && it.Valid(n) && it.sets == sets
      ensures driver < |sets| && it.entities == sets[driver].entities
      ensures forall i :: 0 <= i < |sets| ==> |it.entities| <= |sets[i].entities|
      ensures it.pos == NextMatch(MapsOf(sets, n), it.entities, 0)
      ensures Lists(it.entities, MapsOf(sets, n)[driver])
    {
      var k := FindSmallest(n);
      driver := k;
      SetLists(sets[k]);
      ListedIds(sets[k]);
      it := new Iterator(sets, sets[k].entities, 0, n);
    }

    method End(ghost n: nat) returns (it: Iterator<C>, ghost driver: nat)
      requires AllValid(sets, n) && sets != []
      ensures fresh(it) && it.Valid(n) && it.sets == sets
      ensures driver < |sets| && it.entities == sets[driver].entities
      ensures forall i :: 0 <= i < |sets| ==> |it.entities| <= |sets[i].entities|
      ensures it.pos == |it.entities|
    {
      var k := FindSmallest(n);
      driver := k;
      ListedIds(sets[k]);
      it := new Iterator(sets, sets[k].entities, |sets[k].entities|, n);
    }

    // A range-based for over the view: the entities at the positions of the
    // iterator, and what it is dereferenced to there.
    method Collect(ghost n: nat) returns (visited: seq<Entity>, found: seq<seq<Option<C>>>, ghost driver: nat)
      requires AllValid(sets, n) && sets != []
      ensures driver < |sets| && visited == Matching(MapsOf(sets, n), sets[driver].entities)
      ensures IsIntersection(MapsOf(sets, n), visited)
      ensures LookedUp(MapsOf(sets, n), visited, found)
    {
      var it, last;
      it, last, driver := Range(n);
      VisitsIntersection(MapsOf(sets, n), driver, it.entities);
      VisitedInOrder(MapsOf(sets, n), it.entities, 0);
      assert it.entities[0..] == it.entities;
      visited, found := Walk(it, last, n);
    }

    method Range(ghost n: nat) returns (it: Iterator<C>, last: Iterator<C>, ghost driver: nat)
      requires AllValid(sets, n) && sets != []
      ensures fresh(it) && fresh(last) && it != last && it.Valid(n) && it.sets == sets
      ensures driver < |sets| && it.entities == sets[driver].entities
      ensures it.pos == NextMatch(MapsOf(sets, n), it.entities, 0) && last.pos == |it.entities|
      ensures Lists(it.entities, MapsOf(sets, n)[driver])
    {
      it, driver := Begin(n);
      ghost var other;
      last, other := End(n);
    }

    static method Walk(it: Iterator<C>, last: Iterator<C>, ghost n: nat)
      returns (visited: seq<Entity>, found: seq<seq<Option<C>>>)
      requires it.Valid(n) && it.pos == NextMatch(MapsOf(it.sets, n), it.entities, 0)
      requires last.pos == |it.entities| && it != last
      modifies it
      ensures visited == Visited(old(MapsOf(it.sets, n)), it.entities, 0)
      ensures LookedUp(old(MapsOf(it.sets, n)), visited, found)
    {
      ghost var maps := MapsOf(it.sets, n);
      visited, found := [], [];
      SeenNone(maps, it.entities);
      while it.pos != last.pos
        invariant it.Valid(n) && MapsOf(it.sets, n) == maps
        invariant Seen(maps, it.entities, it.pos, visited)
        invariant LookedUp(maps, visited, found)
        decreases |it.entities| - it.pos
      {
        var components := it.Dereference(n);
        SeenMore(maps, it.entities, it.pos, visited);
        LookedUpMore(maps, visited, found, it.entities[it.pos], components);
        visited, found := visited + [it.entities[it.pos]], found + [components];
        it.Advance(n);
      }
      assert visited + [] == visited;
    }
  }

  lemma ListedIds<C>(s: SparseSet<C>)
    requires s.Valid()
    ensures forall e :: e in s.entities ==> e.id < |s.sparse|
  {
    forall e | e in s.entities ensures e.id < |s.sparse| {
      var k :| 0 <= k < |s.entities| && s.entities[k] == e;
      assert Listed(s.sparse, s.entities, k);
    }
  }
}
