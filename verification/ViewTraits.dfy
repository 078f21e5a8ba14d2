// The type-list functions that decide whether systems may share a layer. A
// view is the list of its component types, each const or not.

module ViewTraits {

  // T or const T
  datatype Access<T> = Access(component: T, isConst: bool)

  type ViewType<T> = seq<Access<T>>

  // ---------------------------------------------------------------------
  // The list functions, accumulators and all

  function Filter<T>(list: ViewType<T>, isConst: bool, acc: ViewType<T>): ViewType<T> {
    if list == [] then acc
    else if list[0].isConst == isConst then Filter(list[1..], isConst, [list[0]] + acc)
    else Filter(list[1..], isConst, acc)
  }

  function StripConst<T>(list: ViewType<T>): (r: seq<T>)
    ensures |r| == |list|
  {
    if list == [] then [] else [list[0].component] + StripConst(list[1..])
  }

  function ConstComponents<T>(view: ViewType<T>): seq<T> {
    StripConst(Filter(view, true, []))
  }

  function MutComponents<T>(view: ViewType<T>): seq<T> {
    StripConst(Filter(view, false, []))
  }

  function TypeIn<T(==)>(t: T, list: seq<T>): bool {
    list != [] && (t == list[0] || TypeIn(t, list[1..]))
  }

  function Intersection<T(==)>(a: seq<T>, b: seq<T>, acc: seq<T>): seq<T> {
    if a == [] then acc
    else if TypeIn(a[0], b) then Intersection(a[1..], b, acc + [a[0]])
    else Intersection(a[1..], b, acc)
  }

  function ContainsDuplicates<T(==)>(list: seq<T>): bool {
    list != [] && (TypeIn(list[0], list[1..]) || ContainsDuplicates(list[1..]))
  }

  function AllMut<T>(views: seq<ViewType<T>>): seq<T> {
    if views == [] then [] else MutComponents(views[0]) + AllMut(views[1..])
  }

  function AllConst<T>(views: seq<ViewType<T>>): seq<T> {
    if views == [] then [] else ConstComponents(views[0]) + AllConst(views[1..])
  }

  function IncompatibleViews<T(==)>(views: seq<ViewType<T>>): bool {
    Intersection(AllMut(views), AllConst(views), []) != [] || ContainsDuplicates(AllMut(views))
  }

  // ---------------------------------------------------------------------
  // How often a component is accessed in a given way

  function Uses<T(==)>(view: ViewType<T>, t: T, isConst: bool): nat {
    if view == [] then 0
    else (if view[0] == Access(t, isConst) then 1 else 0) + Uses(view[1..], t, isConst)
  }

  function AllUses<T(==)>(views: seq<ViewType<T>>, t: T, isConst: bool): nat {
    if views == [] then 0 else Uses(views[0], t, isConst) + AllUses(views[1..], t, isConst)
  }

  function Count<T(==)>(list: seq<T>, t: T): nat {
    if list == [] then 0 else (if list[0] == t then 1 else 0) + Count(list[1..], t)
  }

  lemma {:induction false} CountAppend<T>(a: seq<T>, b: seq<T>, t: T)
    ensures Count(a + b, t) == Count(a, t) + Count(b, t)
  {
    if a == [] {
      assert a + b == b;
    } else {
      assert (a + b)[1..] == a[1..] + b;
      CountAppend(a[1..], b, t);
    }
  }

  lemma {:induction false} FilterCounts<T>(list: ViewType<T>, isConst: bool, acc: ViewType<T>, t: T)
    ensures Count(StripConst(Filter(list, isConst, acc)), t) == Uses(list, t, isConst) + Count(StripConst(acc), t)
    decreases |list|
  {
    if list != [] {
      if list[0].isConst == isConst {
        FilterCounts(list[1..], isConst, [list[0]] + acc, t);
        assert ([list[0]] + acc)[1..] == acc;
      } else {
        FilterCounts(list[1..], isConst, acc, t);
      }
    }
  }

  lemma {:induction false} AllMutCounts<T>(views: seq<ViewType<T>>, t: T)
    ensures Count(AllMut(views), t) == AllUses(views, t, false)
  {
    if views != [] {
      FilterCounts(views[0], false, [], t);
      CountAppend(MutComponents(views[0]), AllMut(views[1..]), t);
      AllMutCounts(views[1..], t);
    }
  }

  lemma {:induction false} AllConstCounts<T>(views: seq<ViewType<T>>, t: T)
    ensures Count(AllConst(views), t) == AllUses(views, t, true)
  {
    if views != [] {
      FilterCounts(views[0], true, [], t);
      CountAppend(ConstComponents(views[0]), AllConst(views[1..]), t);
      AllConstCounts(views[1..], t);
    }
  }

  lemma {:induction false} TypeInCounts<T>(t: T, list: seq<T>)
    ensures TypeIn(t, list) <==> Count(list, t) > 0
  {
    if list != [] {
      TypeInCounts(t, list[1..]);
    }
  }

  lemma {:induction false} DuplicateIsCounted<T>(list: seq<T>) returns (t: T)
    requires ContainsDuplicates(list)
    ensures Count(list, t) > 1
  {
    if TypeIn(list[0], list[1..]) {
      t := list[0];
      TypeInCounts(t, list[1..]);
    } else {
      t := DuplicateIsCounted(list[1..]);
    }
  }

  lemma {:induction false} CountedIsDuplicate<T>(list: seq<T>, t: T)
    requires Count(list, t) > 1
    ensures ContainsDuplicates(list)
  {
    if list[0] == t {
      TypeInCounts(t, list[1..]);
    } else {
      CountedIsDuplicate(list[1..], t);
    }
  }

  lemma {:induction false} SharedIsCounted<T>(a: seq<T>, b: seq<T>) returns (t: T)
    requires Intersection(a, b, []) != []
    ensures Count(a, t) > 0 && Count(b, t) > 0
    decreases |a|
  {
    TypeInCounts(a[0], b);
    if TypeIn(a[0], b) {
      t := a[0];
    } else {
      t := SharedIsCounted(a[1..], b);
    }
  }

  lemma {:induction false} CountedIsShared<T>(a: seq<T>, b: seq<T>, acc: seq<T>, t: T)
    requires acc != [] || (Count(a, t) > 0 && Count(b, t) > 0)
    ensures Intersection(a, b, acc) != []
    decreases |a|
  {
    if a != [] {
      TypeInCounts(a[0], b);
      CountedIsShared(a[1..], b, if TypeIn(a[0], b) then acc + [a[0]] else acc, t);
    }
  }

  // A component that is mutable in two places, or mutable in one and const in
  // another.
  predicate Conflict<T(==)>(views: seq<ViewType<T>>, t: T) {
    AllUses(views, t, false) > 1 || (AllUses(views, t, false) > 0 && AllUses(views, t, true) > 0)
  }

  // Views are incompatible exactly when there is one.
  lemma IncompatibleExact<T(!new)>(views: seq<ViewType<T>>)
    ensures IncompatibleViews(views) <==> exists t :: Conflict(views, t)
  {
    if IncompatibleViews(views) {
      var t := ConflictOf(views);
    }
    if t :| Conflict(views, t) {
      ConflictShows(views, t);
    }
  }

  lemma ConflictOf<T>(views: seq<ViewType<T>>) returns (t: T)
    requires IncompatibleViews(views)
    ensures Conflict(views, t)
  {
    if ContainsDuplicates(AllMut(views)) {
      t := DuplicateIsCounted(AllMut(views));
    } else {
      t := SharedIsCounted(AllMut(views), AllConst(views));
    }
    AllMutCounts(views, t);
    AllConstCounts(views, t);
  }

  lemma ConflictShows<T>(views: seq<ViewType<T>>, t: T)
    requires Conflict(views, t)
    ensures IncompatibleViews(views)
  {
    AllMutCounts(views, t);
    AllConstCounts(views, t);
    if AllUses(views, t, false) > 1 {
      CountedIsDuplicate(AllMut(views), t);
    } else {
      CountedIsShared(AllMut(views), AllConst(views), [], t);
    }
  }
}
