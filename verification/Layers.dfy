// A layer of systems, each confined to the components of its view: while the
// views are compatible, the order in which the systems run does not show.

module Layers {
  import opened ViewTraits

  // The data of every component type
  type Store<T, V> = map<T, V>

  datatype System<!T, !V> = System(view: ViewType<T>, update: Store<T, V> -> Store<T, V>)

  predicate Mutable<T(==)>(view: ViewType<T>, t: T) {
    Uses(view, t, false) > 0
  }

  predicate Accessed<T(==)>(view: ViewType<T>, t: T) {
    Uses(view, t, false) > 0 || Uses(view, t, true) > 0
  }

  ghost predicate SameView<T(!new), V(!new)>(view: ViewType<T>, a: Store<T, V>, b: Store<T, V>) {
    a.Keys == b.Keys && forall t :: t in a && Accessed(view, t) ==> a[t] == b[t]
  }

  // A system changes no component that its view has not mutable, and what it
  // makes of those depends on nothing outside its view.
  ghost predicate Confined<T(!new), V(!new)>(sys: System<T, V>) {
    && (forall s :: sys.update(s).Keys == s.Keys)
    && (forall s, t :: t in s && !Mutable(sys.view, t) ==> sys.update(s)[t] == s[t])
    && (forall a, b :: SameView(sys.view, a, b) ==>
          forall t :: t in a && Mutable(sys.view, t) ==> sys.update(a)[t] == sys.update(b)[t])
  }

  function Views<T, V>(systems: seq<System<T, V>>): (views: seq<ViewType<T>>)
    ensures |views| == |systems|
  {
    if systems == [] then [] else [systems[0].view] + Views(systems[1..])
  }

  predicate Indices<T, V>(systems: seq<System<T, V>>, order: seq<nat>) {
    forall k :: 0 <= k < |order| ==> order[k] < |systems|
  }

  // The systems, run one after the other.
  function Run<T, V>(systems: seq<System<T, V>>, order: seq<nat>, s: Store<T, V>): Store<T, V>
    requires Indices(systems, order)
  {
    if order == [] then s else Run(systems, order[1..], systems[order[0]].update(s))
  }

  // ---------------------------------------------------------------------

  // Neither view touches what the other may change.
  ghost predicate Compatible<T(!new)>(v: ViewType<T>, w: ViewType<T>) {
    forall t :: !(Mutable(v, t) && Accessed(w, t)) && !(Mutable(w, t) && Accessed(v, t))
  }

  lemma {:induction false} UsesOfTwo<T>(views: seq<ViewType<T>>, i: nat, j: nat, t: T, isConst: bool)
    requires i < j < |views|
    ensures AllUses(views, t, isConst) >= Uses(views[i], t, isConst) + Uses(views[j], t, isConst)
    decreases |views|
  {
    if i == 0 {
      UsesOfOne(views[1..], j - 1, t, isConst);
    } else {
      UsesOfTwo(views[1..], i - 1, j - 1, t, isConst);
    }
  }

  lemma {:induction false} UsesOfOne<T>(views: seq<ViewType<T>>, i: nat, t: T, isConst: bool)
    requires i < |views|
    ensures AllUses(views, t, isConst) >= Uses(views[i], t, isConst)
    decreases |views|
  {
    if i > 0 {
      UsesOfOne(views[1..], i - 1, t, isConst);
    }
  }

  lemma CompatibleInLayer<T(!new)>(views: seq<ViewType<T>>, i: nat, j: nat)
    requires !IncompatibleViews(views) && i < j < |views|
    ensures Compatible(views[i], views[j])
  {
    IncompatibleExact(views);
    forall t
      ensures !(Mutable(views[i], t) && Accessed(views[j], t)) && !(Mutable(views[j], t) && Accessed(views[i], t))
    {
      UsesOfTwo(views, i, j, t, false);
      UsesOfTwo(views, i, j, t, true);
      assert !Conflict(views, t);
    }
  }

  lemma SecondUnseen<T(!new), V(!new)>(a: System<T, V>, b: System<T, V>, s: Store<T, V>, t: T)
    requires Confined(a) && Confined(b) && Compatible(a.view, b.view)
    requires t in s && Mutable(a.view, t)
    ensures b.update(a.update(s))[t] == a.update(b.update(s))[t]
  {
    assert SameView(a.view, s, b.update(s));
  }

  lemma Commute<T(!new), V(!new)>(a: System<T, V>, b: System<T, V>, s: Store<T, V>)
    requires Confined(a) && Confined(b) && Compatible(a.view, b.view)
    ensures b.update(a.update(s)) == a.update(b.update(s))
  {
    forall t | t in s ensures b.update(a.update(s))[t] == a.update(b.update(s))[t] {
      if Mutable(a.view, t) {
        SecondUnseen(a, b, s, t);
      } else if Mutable(b.view, t) {
        SecondUnseen(b, a, s, t);
      }
    }
  }

  ghost predicate AllConfined<T(!new), V(!new)>(systems: seq<System<T, V>>) {
    systems == [] || (Confined(systems[0]) && AllConfined(systems[1..]))
  }

  lemma {:induction false} AllConfinedIs<T(!new), V(!new)>(systems: seq<System<T, V>>)
    ensures AllConfined(systems) <==> forall i :: 0 <= i < |systems| ==> Confined(systems[i])
  {
    if systems != [] {
      AllConfinedIs(systems[1..]);
      assert systems == [systems[0]] + systems[1..];
    }
  }

  lemma {:induction false} ConfinedAt<T(!new), V(!new)>(systems: seq<System<T, V>>, i: nat)
    requires AllConfined(systems) && i < |systems|
    ensures Confined(systems[i])
  {
    if i > 0 {
      ConfinedAt(systems[1..], i - 1);
    }
  }

  ghost predicate Layer<T(!new), V(!new)>(systems: seq<System<T, V>>) {
    && AllConfined(systems)
    && (forall i, j :: 0 <= i < j < |systems| ==> Compatible(systems[i].view, systems[j].view))
  }

  predicate Distinct(order: seq<nat>) {
    forall i, j :: 0 <= i < j < |order| ==> order[i] != order[j]
  }

  function Without(order: seq<nat>, k: nat): seq<nat>
    requires k < |order|
  {
    order[..k] + order[k + 1..]
  }

  // A system can be moved to the front.
  lemma {:induction false} MoveToFront<T(!new), V(!new)>(systems: seq<System<T, V>>, order: seq<nat>, k: nat,
                                                        s: Store<T, V>)
    requires Layer(systems) && Indices(systems, order) && Distinct(order) && k < |order|
    ensures Run(systems, order, s) == Run(systems, Without(order, k), systems[order[k]].update(s))
    decreases k
  {
    if k == 0 {
      assert Without(order, 0) == order[1..];
    } else {
      MoveToFront(systems, order[1..], k - 1, systems[order[0]].update(s));
      WithoutLater(order, k);
      SwapTwo(systems, order[0], order[k], s);
    }
  }

  lemma WithoutLater(order: seq<nat>, k: nat)
    requires 0 < k < |order|
    ensures Without(order, k) == [order[0]] + Without(order[1..], k - 1)
  {
  }

  lemma SwapTwo<T(!new), V(!new)>(systems: seq<System<T, V>>, a: nat, b: nat, s: Store<T, V>)
    requires Layer(systems) && a < |systems| && b < |systems| && a != b
    ensures systems[b].update(systems[a].update(s)) == systems[a].update(systems[b].update(s))
  {
    ConfinedAt(systems, a);
    ConfinedAt(systems, b);
    if a < b {
      Commute(systems[a], systems[b], s);
    } else {
      Commute(systems[b], systems[a], s);
    }
  }

  lemma SameRest(p: seq<nat>, q: seq<nat>, k: nat)
    requires p != [] && k < |q| && q[k] == p[0] && Distinct(p) && Distinct(q)
    requires forall i: nat :: i in p <==> i in q
    ensures forall i: nat :: i in p[1..] <==> i in Without(q, k)
  {
    assert p == [p[0]] + p[1..];
    assert q == q[..k] + [q[k]] + q[k + 1..];
    forall i: nat ensures i in p[1..] <==> i in Without(q, k) {
      assert i in p <==> i == p[0] || i in p[1..];
      assert i in q <==> i == q[k] || i in Without(q, k);
    }
  }

  lemma OnlyEmpty(q: seq<nat>)
    ensures q == [] || exists i: nat :: i in q
  {
    if q != [] {
      assert q[0] in q;
    }
  }

  // All orders of a layer leave the same data.
  lemma {:induction false} OrderDoesNotShow<T(!new), V(!new)>(systems: seq<System<T, V>>, p: seq<nat>, q: seq<nat>,
                                                             s: Store<T, V>)
    requires Layer(systems) && Indices(systems, p) && Indices(systems, q)
    requires Distinct(p) && Distinct(q) && forall i: nat :: i in p <==> i in q
    ensures Run(systems, p, s) == Run(systems, q, s)
    decreases |p|
  {
    if p == [] {
      OnlyEmpty(q);
    } else {
      assert p[0] in q;
      var k :| 0 <= k < |q| && q[k] == p[0];
      MoveToFront(systems, q, k, s);
      var rest := Without(q, k);
      SameRest(p, q, k);
      OrderDoesNotShow(systems, p[1..], rest, systems[p[0]].update(s));
    }
  }

  // Each listed system has run once on the data it was given: what it may
  // change is what it makes of that, and nothing else is changed.
  ghost predicate RanOnce<T(!new), V(!new)>(systems: seq<System<T, V>>, order: seq<nat>, s: Store<T, V>, r: Store<T, V>)
    requires Indices(systems, order)
  {
    && r.Keys == s.Keys
    && (forall k, t :: 0 <= k < |order| && t in s && Mutable(systems[order[k]].view, t) ==>
                         t in systems[order[k]].update(s) && r[t] == systems[order[k]].update(s)[t])
    && (forall t :: t in s && Untouched(systems, order, t) ==> r[t] == s[t])
  }

  predicate Untouched<T, V>(systems: seq<System<T, V>>, order: seq<nat>, t: T)
    requires Indices(systems, order)
  {
    forall k :: 0 <= k < |order| ==> !Mutable(systems[order[k]].view, t)
  }

  lemma TwoOfLayer<T(!new), V(!new)>(systems: seq<System<T, V>>, a: nat, b: nat, t: T)
    requires Layer(systems) && a < |systems| && b < |systems| && a != b && Mutable(systems[a].view, t)
    ensures !Accessed(systems[b].view, t)
  {
    assert if a < b then Compatible(systems[a].view, systems[b].view) else Compatible(systems[b].view, systems[a].view);
  }

  // What runs before a system does not change what it makes of the data.
  lemma FirstUnseen<T(!new), V(!new)>(systems: seq<System<T, V>>, a: nat, b: nat, s: Store<T, V>, t: T)
    requires Layer(systems) && a < |systems| && b < |systems| && a != b
    requires t in s && Mutable(systems[b].view, t)
    ensures systems[a].update(s).Keys == s.Keys && systems[b].update(s).Keys == s.Keys
    ensures systems[b].update(systems[a].update(s)).Keys == s.Keys
    ensures systems[b].update(systems[a].update(s))[t] == systems[b].update(s)[t]
  {
    var s1 := systems[a].update(s);
    ConfinedAt(systems, a);
    ConfinedAt(systems, b);
    assert SameView(systems[b].view, s1, s) by {
      forall u | u in s && Accessed(systems[b].view, u) ensures s1[u] == s[u] {
        if Mutable(systems[a].view, u) {
          TwoOfLayer(systems, a, b, u);
        }
      }
    }
  }

  lemma OneSystem<T(!new), V(!new)>(systems: seq<System<T, V>>, a: nat, s: Store<T, V>, t: T)
    requires Layer(systems) && a < |systems| && t in s
    ensures t in systems[a].update(s)
    ensures !Mutable(systems[a].view, t) ==> systems[a].update(s)[t] == s[t]
  {
    ConfinedAt(systems, a);
  }

  lemma {:induction false} KeysKept<T(!new), V(!new)>(systems: seq<System<T, V>>, order: seq<nat>, s: Store<T, V>)
    requires Layer(systems) && Indices(systems, order)
    ensures Run(systems, order, s).Keys == s.Keys
    decreases |order|
  {
    if order != [] {
      ConfinedAt(systems, order[0]);
      KeysKept(systems, order[1..], systems[order[0]].update(s));
    }
  }

  lemma {:induction false} UntouchedStays<T(!new), V(!new)>(systems: seq<System<T, V>>, order: seq<nat>,
                                                           s: Store<T, V>, t: T)
    requires Layer(systems) && Indices(systems, order) && t in s && Untouched(systems, order, t)
    ensures t in Run(systems, order, s) && Run(systems, order, s)[t] == s[t]
    decreases |order|
  {
    if order != [] {
      OneSystem(systems, order[0], s, t);
      assert !Mutable(systems[order[0]].view, t);
      UntouchedStays(systems, order[1..], systems[order[0]].update(s), t);
    }
  }

  lemma {:induction false} MadeOnce<T(!new), V(!new)>(systems: seq<System<T, V>>, order: seq<nat>, s: Store<T, V>,
                                                     k: nat, t: T)
    requires Layer(systems) && Indices(systems, order) && Distinct(order)
    requires k < |order| && t in s && Mutable(systems[order[k]].view, t)
    ensures t in Run(systems, order, s) && t in systems[order[k]].update(s)
    ensures Run(systems, order, s)[t] == systems[order[k]].update(s)[t]
    decreases |order|
  {
    var a, rest := order[0], order[1..];
    OneSystem(systems, a, s, t);
    if k > 0 {
      MadeOnce(systems, rest, systems[a].update(s), k - 1, t);
      FirstUnseen(systems, a, order[k], s, t);
    } else {
      forall j | 0 <= j < |rest| ensures !Mutable(systems[rest[j]].view, t) {
        TwoOfLayer(systems, a, rest[j], t);
      }
      UntouchedStays(systems, rest, systems[a].update(s), t);
    }
  }

  lemma {:induction false} RunsEach<T(!new), V(!new)>(systems: seq<System<T, V>>, order: seq<nat>, s: Store<T, V>)
    requires Layer(systems) && Indices(systems, order) && Distinct(order)
    ensures RanOnce(systems, order, s, Run(systems, order, s))
  {
    KeysKept(systems, order, s);
    forall k, t | 0 <= k < |order| && t in s && Mutable(systems[order[k]].view, t)
      ensures t in systems[order[k]].update(s)
      ensures Run(systems, order, s)[t] == systems[order[k]].update(s)[t]
    {
      MadeOnce(systems, order, s, k, t);
    }
    forall t | t in s && Untouched(systems, order, t) ensures Run(systems, order, s)[t] == s[t] {
      UntouchedStays(systems, order, s, t);
    }
  }

  // The check of the type lists is what this takes.
  lemma CompatibleViewsSuffice<T(!new), V(!new)>(systems: seq<System<T, V>>, p: seq<nat>, q: seq<nat>, s: Store<T, V>)
    requires forall i :: 0 <= i < |systems| ==> Confined(systems[i])
    requires !IncompatibleViews(Views(systems))
    requires Indices(systems, p) && Indices(systems, q)
    requires Distinct(p) && Distinct(q) && forall i: nat :: i in p <==> i in q
    ensures Run(systems, p, s) == Run(systems, q, s)
    ensures RanOnce(systems, p, s, Run(systems, p, s))
  {
    forall i, j | 0 <= i < j < |systems| ensures Compatible(systems[i].view, systems[j].view) {
      ViewOf(systems, i);
      ViewOf(systems, j);
      CompatibleInLayer(Views(systems), i, j);
    }
    AllConfinedIs(systems);
    OrderDoesNotShow(systems, p, q, s);
    RunsEach(systems, p, s);
  }

  lemma {:induction false} ViewOf<T, V>(systems: seq<System<T, V>>, i: nat)
    requires i < |systems|
    ensures Views(systems)[i] == systems[i].view
  {
    if i > 0 {
      ViewOf(systems[1..], i - 1);
    }
  }
}
