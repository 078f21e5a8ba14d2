// Components of entities that are gone: remove_entity leaves the component
// sets as they are, so what a new entity finds there depends on its handle.

module FreshEntities {
  import opened Wrappers
  import opened Bytes
  import opened Entities
  import opened WorldIds
  import SparseSets
  import opened ComponentViews

  // What a client does with a world and one of its component sets; an entity
  // is named by the turn in which it was issued.
  datatype Act<+C> = World(op: Op) | AddComponent(turn: nat, component: C) | RemoveComponent(turn: nat)

  function WorldOps<C>(acts: seq<Act<C>>): seq<Op> {
    if acts == [] then []
    else
      var front, last := WorldOps(acts[..|acts| - 1]), acts[|acts| - 1];
      if last.World? then front + [last.op] else front
  }

  // Components are added to and removed from entities that have been issued,
  // dead ones included.
  ghost predicate Enables<C>(acts: seq<Act<C>>) {
    && Enabled(EMPTY, WorldOps(acts))
    && (acts != [] ==>
          && Enables(acts[..|acts| - 1])
          && var last := acts[|acts| - 1];
             last.World? || last.turn < |Handles(WorldOps(acts[..|acts| - 1]))|)
  }

  // What an act does to the set.
  ghost function SetOp<C>(act: Act<C>, hs: seq<Entity>): seq<SparseSets.Op<C>>
    requires act.World? || act.turn < |hs|
  {
    match act
    case World(_) => []
    case AddComponent(turn, c) => [SparseSets.Insert(hs[turn], c)]
    case RemoveComponent(turn) => [SparseSets.Remove(hs[turn])]
  }

  ghost function SetOps<C>(acts: seq<Act<C>>): seq<SparseSets.Op<C>>
    requires Enables(acts)
  {
    if acts == [] then []
    else
      var front := acts[..|acts| - 1];
      SetOps(front) + SetOp(acts[|acts| - 1], Handles(WorldOps(front)))
  }

  // The set knows issued entities only.
  lemma {:induction false} EntitiesIssued<C>(acts: seq<Act<C>>)
    requires Enables(acts)
    ensures forall op :: op in SetOps(acts) ==> op.entity in Handles(WorldOps(acts))
  {
    if acts != [] {
      var front, last := acts[..|acts| - 1], acts[|acts| - 1];
      EntitiesIssued(front);
      if last.World? {
        LogSnoc(EMPTY, WorldOps(front), last.op, []);
      }
    }
  }

  lemma {:induction false} InsertsAmong<C>(ops: seq<SparseSets.Op<C>>, id: u32)
    ensures forall op :: op in SparseSets.Inserts(ops, id) ==> op in ops
  {
    if ops != [] {
      InsertsAmong(ops[..|ops| - 1], id);
    }
  }

  // The entity issued next, and its turn among those with its id.

  ghost function Next<C>(acts: seq<Act<C>>): Entity
    requires Enables(acts) && Enabled(EMPTY, WorldOps(acts) + [Add])
  {
    LogSnoc(EMPTY, WorldOps(acts), Add, []);
    Handle(Run(EMPTY, WorldOps(acts)), Add)[0]
  }

  ghost function Turn<C>(acts: seq<Act<C>>): nat
    requires Enables(acts) && Enabled(EMPTY, WorldOps(acts) + [Add])
  {
    Live(Handles(WorldOps(acts)), Next(acts).id)
  }

  // An earlier turn of an id, with the same generation as the turn given.
  predicate SameHandleAt(hs: seq<Entity>, i: nat, id: u32, turn: nat)
    requires i < |hs|
  {
    hs[i].id == id && Live(hs[..i], id) < turn && Indistinct(Live(hs[..i], id), turn)
  }

  // In every run, a fresh entity finds a component exactly when there is one
  // whose first owner, since the last removal, had an equal handle.
  lemma FreshFinds<C>(acts: seq<Act<C>>)
    requires Enables(acts) && Enabled(EMPTY, WorldOps(acts) + [Add])
    ensures var hs, e, ops := Handles(WorldOps(acts)), Next(acts), SetOps(acts);
            var ins := SparseSets.Inserts(ops, e.id);
            Lookup(SparseSets.Run(ops), e).Some? <==>
            ins != [] && exists i :: 0 <= i < |hs| && hs[i] == ins[0].entity && SameHandleAt(hs, i, e.id, Turn(acts))
  {
    var hs, e, ops := Handles(WorldOps(acts)), Next(acts), SetOps(acts);
    var ins := SparseSets.Inserts(ops, e.id);
    SparseSets.RunIsHistory(ops, e.id);
    if ins != [] {
      var j := FirstOwner(acts, e.id);
      assert hs[j] == ins[0].entity;
      forall i | 0 <= i < |hs| && hs[i] == ins[0].entity
        ensures SameHandleAt(hs, i, e.id, Turn(acts)) <==> ins[0].entity == e
      {
        NextRepeats(acts, i);
      }
    }
  }

  lemma FirstOwner<C>(acts: seq<Act<C>>, id: u32) returns (i: nat)
    requires Enables(acts) && SparseSets.Inserts(SetOps(acts), id) != []
    ensures i < |Handles(WorldOps(acts))|
    ensures Handles(WorldOps(acts))[i] == SparseSets.Inserts(SetOps(acts), id)[0].entity
  {
    var ins, hs := SparseSets.Inserts(SetOps(acts), id), Handles(WorldOps(acts));
    InsertsAmong(SetOps(acts), id);
    EntitiesIssued(acts);
    assert ins[0] in ins;
    i :| 0 <= i < |hs| && hs[i] == ins[0].entity;
  }

  lemma NextRepeats<C>(acts: seq<Act<C>>, i: nat)
    requires Enables(acts) && Enabled(EMPTY, WorldOps(acts) + [Add])
    requires i < |Handles(WorldOps(acts))| && Handles(WorldOps(acts))[i].id == Next(acts).id
    ensures var a := Live(Handles(WorldOps(acts))[..i], Next(acts).id);
            && a < Turn(acts)
            && (Handles(WorldOps(acts))[i] == Next(acts) <==> Indistinct(a, Turn(acts)))
  {
    var ops, hs, e := WorldOps(acts), Handles(WorldOps(acts)), Next(acts);
    LogSnoc(EMPTY, ops, Add, []);
    assert Handles(ops + [Add]) == hs + [e];
    HandlesRepeat(ops + [Add], i, |hs|);
    assert (hs + [e])[..i] == hs[..i] && (hs + [e])[..|hs|] == hs;
  }

  // Until the counter wraps: exactly on the first reuse of its id, when a
  // component of the first owner has been left behind.
  lemma FreshExact<C>(acts: seq<Act<C>>)
    requires Enables(acts) && Enabled(EMPTY, WorldOps(acts) + [Add]) && Turn(acts) <= WRAP
    ensures var e, ops := Next(acts), SetOps(acts);
            var ins := SparseSets.Inserts(ops, e.id);
            Lookup(SparseSets.Run(ops), e) ==
            if Turn(acts) == 1 && ins != [] then Some(ins[|ins| - 1].component) else None
  {
    var e, ops := Next(acts), SetOps(acts);
    SparseSets.RunIsHistory(ops, e.id);
    if SparseSets.Inserts(ops, e.id) != [] {
      OwnedByFirst(acts);
    }
  }

  lemma OwnedByFirst<C>(acts: seq<Act<C>>)
    requires Enables(acts) && Enabled(EMPTY, WorldOps(acts) + [Add]) && Turn(acts) <= WRAP
    requires SparseSets.Inserts(SetOps(acts), Next(acts).id) != []
    ensures SparseSets.Inserts(SetOps(acts), Next(acts).id)[0].entity == Next(acts) <==> Turn(acts) == 1
  {
    var i := FirstOwner(acts, Next(acts).id);
    NextRepeats(acts, i);
    OnlyFirstTwo(Live(Handles(WorldOps(acts))[..i], Next(acts).id), Turn(acts));
  }

  lemma OnlyFirstTwo(a: nat, b: nat)
    requires a < b <= WRAP
    ensures Indistinct(a, b) <==> b == 1
  {
  }

  // An entity is removed with its component left in the set.
  function OneLife<C>(c: C): seq<Act<C>> {
    [World(Add), AddComponent(0, c), World(Remove(0))]
  }

  lemma OneMoreAct<C>(acts: seq<Act<C>>, act: Act<C>, ops: seq<Op>, hs: seq<Entity>)
    requires Enables(acts) && ops == WorldOps(acts) && hs == Handles(ops)
    requires if act.World? then Enabled(EMPTY, ops + [act.op]) else act.turn < |hs|
    ensures Enables(acts + [act]) && WorldOps(acts + [act]) == if act.World? then ops + [act.op] else ops
    ensures SetOps(acts + [act]) == SetOps(acts) + SetOp(act, hs)
  {
    assert (acts + [act])[..|acts|] == acts;
  }

  lemma OneLifeOps() returns (one: seq<Op>, both: seq<Op>)
    ensures one == [Add] && both == [Add] + [Remove(0)]
    ensures Enabled(EMPTY, one) && Handles(one) == [Entity(0, 0)] && Enabled(EMPTY, both)
  {
    FirstReuseRepeats();
    one, both := [Add], [Add, Remove(0)];
  }

  lemma FirstAct<C>() returns (acts: seq<Act<C>>)
    ensures acts == [World(Add)] && Enables(acts) && WorldOps(acts) == [Add] && SetOps(acts) == []
  {
    var one, _ := OneLifeOps();
    acts := [World(Add)];
    assert acts[..0] == [] && [] + one == one;
  }

  lemma ComponentAdded<C>(c: C) returns (acts: seq<Act<C>>)
    ensures acts == [World(Add), AddComponent(0, c)] && Enables(acts) && WorldOps(acts) == [Add]
    ensures SetOps(acts) == [SparseSets.Insert(Entity(0, 0), c)]
  {
    var one, _ := OneLifeOps();
    var first := FirstAct<C>();
    acts := first + [AddComponent(0, c)];
    OneMoreAct(first, AddComponent(0, c), one, [Entity(0, 0)]);
  }

  lemma ComponentStays<C>(c: C)
    ensures Enables(OneLife(c)) && WorldOps(OneLife(c)) == [Add, Remove(0)]
    ensures SetOps(OneLife(c)) == [SparseSets.Insert(Entity(0, 0), c)]
  {
    var one, both := OneLifeOps();
    var acts := ComponentAdded(c);
    OneMoreAct(acts, World(Remove(0)), one, [Entity(0, 0)]);
    assert acts + [World(Remove(0))] == OneLife(c);
  }

  // The next one to get its id has the component from the start.
  lemma FirstReuseInherits<C>(c: C)
    ensures var acts := OneLife(c);
            && Enables(acts) && Enabled(EMPTY, WorldOps(acts) + [Add])
            && Run(EMPTY, WorldOps(acts)).entities == []
            && Lookup(SparseSets.Run(SetOps(acts)), Next(acts)) == Some(c)
  {
    ComponentStays(c);
    NextIsFirst();
    var ops: seq<SparseSets.Op<C>> := [SparseSets.Insert(Entity(0, 0), c)];
    assert ops[..0] == [];
    assert SparseSets.Run(ops) == map[0 := SparseSets.Slot(0, c)];
  }

  lemma NextIsFirst()
    ensures var ops := [Add, Remove(0)];
            && Enabled(EMPTY, ops) && Enabled(EMPTY, ops + [Add])
            && Run(EMPTY, ops).entities == [] && CanStep(Run(EMPTY, ops), Add)
            && Handle(Run(EMPTY, ops), Add) == [Entity(0, 0)]
  {
    FirstReuseRepeats();
    assert [Add, Remove(0)] + [Add] == [Add, Remove(0), Add];
    assert Issued(Ids([], [0], [0])) == Entity(0, 0);
  }
}
