/** Listener registrations and the stable sort by priority that orders them. */
module Registrations {
  import opened Outcomes

  /** A callable; some callables have no name. */
  datatype Listener = Listener(id: nat, named: bool)

  datatype Registration = Registration(
    listener: Listener,
    priority: int,
    queueable: bool,
    queueName: string,
    asyncListener: bool,
    once: bool,
    pattern: Option<string>)

  type Regs = seq<Registration>

  /** Puts r behind everything of at least its priority. */
  function Insert(sorted: Regs, r: Registration): Regs {
    if sorted == [] then [r]
    else if sorted[0].priority >= r.priority then [sorted[0]] + Insert(sorted[1..], r)
    else [r] + sorted
  }

  /** Highest priority first; equal priorities keep their order. */
  function StableSort(regs: Regs): Regs {
    if regs == [] then [] else Insert(StableSort(regs[..|regs| - 1]), regs[|regs| - 1])
  }

  ghost predicate IsDescending(regs: Regs) {
    forall i, j :: 0 <= i <= j < |regs| ==> regs[i].priority >= regs[j].priority
  }

  function AtPriority(regs: Regs, p: int): Regs {
    if regs == [] then []
    else if regs[0].priority == p then [regs[0]] + AtPriority(regs[1..], p)
    else AtPriority(regs[1..], p)
  }

  /** What a stable sort is: descending, and each priority's registrations in their old order. */
  ghost predicate IsSorting(regs: Regs, sorted: Regs) {
    IsDescending(sorted) && forall p :: AtPriority(sorted, p) == AtPriority(regs, p)
  }

  lemma {:induction false} AtPriorityAppend(a: Regs, b: Regs, p: int)
    ensures AtPriority(a + b, p) == AtPriority(a, p) + AtPriority(b, p)
  {
    if a == [] {
      assert a + b == b;
    } else {
      assert (a + b)[1..] == a[1..] + b;
      AtPriorityAppend(a[1..], b, p);
    }
  }

  lemma AtPrioritySnoc(init: Regs, last: Registration, p: int)
    ensures AtPriority(init + [last], p) == if last.priority == p then AtPriority(init, p) + [last] else AtPriority(init, p)
  {
    AtPriorityAppend(init, [last], p);
    assert [last][1..] == [];
  }

  lemma {:induction false} AtPriorityAbsent(regs: Regs, p: int)
    requires forall i :: 0 <= i < |regs| ==> regs[i].priority != p
    ensures AtPriority(regs, p) == []
  {
    if regs != [] {
      AtPriorityAbsent(regs[1..], p);
    }
  }

  lemma {:induction false} AtPriorityMember(regs: Regs, r: Registration)
    ensures r in AtPriority(regs, r.priority) <==> r in regs
    ensures forall p, x :: x in AtPriority(regs, p) ==> x in regs && x.priority == p
  {
    if regs != [] {
      AtPriorityMember(regs[1..], r);
      assert regs == [regs[0]] + regs[1..];
    }
  }

  lemma {:induction false} InsertDescends(sorted: Regs, r: Registration)
    requires IsDescending(sorted)
    ensures IsDescending(Insert(sorted, r))
    ensures forall x :: x in Insert(sorted, r) ==> x == r || x in sorted
  {
    if sorted != [] && sorted[0].priority >= r.priority {
      InsertDescends(sorted[1..], r);
      var rest := Insert(sorted[1..], r);
      assert forall i :: 0 <= i < |rest| ==> rest[i] in rest;
    }
  }

  lemma {:induction false} InsertAtPriority(sorted: Regs, r: Registration, p: int)
    requires IsDescending(sorted)
    ensures AtPriority(Insert(sorted, r), p) == AtPriority(sorted + [r], p)
  {
    AtPrioritySnoc(sorted, r, p);
    if sorted != [] && sorted[0].priority >= r.priority {
      InsertAtPriority(sorted[1..], r, p);
      AtPrioritySnoc(sorted[1..], r, p);
      AtPriorityCons(sorted[0], Insert(sorted[1..], r), p);
    } else {
      AtPriorityCons(r, sorted, p);
      if p == r.priority {
        AtPriorityAbsent(sorted, p);
      }
    }
  }

  lemma {:induction false} StableSortSorts(regs: Regs)
    ensures IsSorting(regs, StableSort(regs))
  {
    if regs != [] {
      var init, last := regs[..|regs| - 1], regs[|regs| - 1];
      StableSortSorts(init);
      InsertDescends(StableSort(init), last);
      forall p
        ensures AtPriority(StableSort(regs), p) == AtPriority(regs, p)
      {
        assert regs == init + [last];
        InsertAtPriority(StableSort(init), last, p);
        AtPrioritySnoc(StableSort(init), last, p);
        AtPrioritySnoc(init, last, p);
      }
    }
  }

  lemma AtPriorityNonEmpty(regs: Regs, i: nat)
    requires i < |regs|
    ensures AtPriority(regs, regs[i].priority) != []
  {
    AtPriorityMember(regs, regs[i]);
  }

  lemma AtPriorityHas(regs: Regs, p: int) returns (i: nat)
    requires AtPriority(regs, p) != []
    ensures i < |regs| && regs[i].priority == p
  {
    var x := AtPriority(regs, p)[0];
    AtPriorityMember(regs, x);
    assert x in AtPriority(regs, p);
    i :| 0 <= i < |regs| && regs[i] == x;
  }

  lemma AtPriorityTail(regs: Regs, p: int)
    requires regs != []
    ensures AtPriority(regs[1..], p) == AtPriority(regs, p)[if regs[0].priority == p then 1 else 0..]
  {
  }

  /** Two descending lists that agree at every priority begin alike. */
  lemma SortingBeginsAlike(a: Regs, b: Regs)
    requires IsDescending(a) && IsDescending(b) && a != []
    requires forall p :: AtPriority(a, p) == AtPriority(b, p)
    ensures b != [] && a[0] == b[0]
  {
    var p := a[0].priority;
    AtPriorityNonEmpty(a, 0);
    assert AtPriority(a, p) == AtPriority(b, p);
    var i := AtPriorityHas(b, p);
    AtPriorityNonEmpty(b, 0);
    assert AtPriority(a, b[0].priority) == AtPriority(b, b[0].priority);
    var j := AtPriorityHas(a, b[0].priority);
    assert b[0].priority == p;
    assert a[0] == AtPriority(a, p)[0] == AtPriority(b, p)[0] == b[0];
  }

  /** The stable sort is the only one. */
  lemma {:induction false} SortingIsUnique(a: Regs, b: Regs)
    requires IsDescending(a) && IsDescending(b) && forall p :: AtPriority(a, p) == AtPriority(b, p)
    ensures a == b
  {
    if a == [] {
      if b != [] {
        AtPriorityNonEmpty(b, 0);
      }
    } else {
      SortingBeginsAlike(a, b);
      forall q
        ensures AtPriority(a[1..], q) == AtPriority(b[1..], q)
      {
        AtPriorityTail(a, q);
        AtPriorityTail(b, q);
        assert AtPriority(a, q) == AtPriority(b, q);
      }
      SortingIsUnique(a[1..], b[1..]);
    }
  }

  lemma SortsToSame(a: Regs, sorted: Regs)
    requires IsSorting(a, sorted)
    ensures StableSort(a) == sorted
  {
    StableSortSorts(a);
    SortingIsUnique(StableSort(a), sorted);
  }

  /** Sorting what is sorted plus more gives what sorting everything gives. */
  lemma SortOfSorted(a: Regs, b: Regs)
    ensures StableSort(StableSort(a) + b) == StableSort(a + b)
  {
    StableSortSorts(a);
    StableSortSorts(a + b);
    forall p
      ensures AtPriority(StableSort(a + b), p) == AtPriority(StableSort(a) + b, p)
    {
      AtPriorityAppend(a, b, p);
      AtPriorityAppend(StableSort(a), b, p);
    }
    SortsToSame(StableSort(a) + b, StableSort(a + b));
  }

  // ---- Selections that commute with sorting ------------------------------

  /** The registrations without those of one listener. */
  function Dropping(regs: Regs, listener: Listener): Regs {
    if regs == [] then []
    else if regs[0].listener == listener then Dropping(regs[1..], listener)
    else [regs[0]] + Dropping(regs[1..], listener)
  }

  /** Removes the first registration equal to r, if there is one. */
  function RemoveFirst(regs: Regs, r: Registration): Regs {
    if regs == [] then []
    else if regs[0] == r then regs[1..]
    else [regs[0]] + RemoveFirst(regs[1..], r)
  }

  /** Keeps one of equal registrations, at its first place. */
  function FirstOccurrences(regs: Regs): Regs {
    if regs == [] then []
    else
      var init, last := FirstOccurrences(regs[..|regs| - 1]), regs[|regs| - 1];
      if last in regs[..|regs| - 1] then init else init + [last]
  }

  function Selected(regs: Regs, keep: Registration -> bool): Regs {
    if regs == [] then []
    else if keep(regs[0]) then [regs[0]] + Selected(regs[1..], keep)
    else Selected(regs[1..], keep)
  }

  lemma {:induction false} SelectedAppend(a: Regs, b: Regs, keep: Registration -> bool)
    ensures Selected(a + b, keep) == Selected(a, keep) + Selected(b, keep)
  {
    if a == [] {
      assert a + b == b;
    } else {
      assert (a + b)[1..] == a[1..] + b;
      SelectedAppend(a[1..], b, keep);
    }
  }

  /** Of equal registrations, one is kept. */
  lemma {:induction false} FirstOccurrencesCount(regs: Regs)
    ensures forall r :: multiset(FirstOccurrences(regs))[r] == if r in regs then 1 else 0
  {
    if regs != [] {
      FirstOccurrencesCount(regs[..|regs| - 1]);
      assert regs == regs[..|regs| - 1] + [regs[|regs| - 1]];
    }
  }

  lemma {:induction false} SelectedMember(regs: Regs, keep: Registration -> bool)
    ensures forall x :: x in Selected(regs, keep) <==> x in regs && keep(x)
  {
    if regs != [] {
      SelectedMember(regs[1..], keep);
      assert regs == [regs[0]] + regs[1..];
    }
  }

  lemma {:induction false} DroppingIsSelected(regs: Regs, listener: Listener)
    ensures Dropping(regs, listener) == Selected(regs, (r: Registration) => r.listener != listener)
  {
    if regs != [] {
      DroppingIsSelected(regs[1..], listener);
    }
  }

  lemma {:induction false} SelectedAtPriority(regs: Regs, keep: Registration -> bool, p: int)
    ensures AtPriority(Selected(regs, keep), p) == Selected(AtPriority(regs, p), keep)
  {
    if regs != [] {
      var h: Regs := if keep(regs[0]) then [regs[0]] else [];
      var g: Regs := if regs[0].priority == p then [regs[0]] else [];
      SelectedAtPriority(regs[1..], keep, p);
      AtPriorityAppend(h, Selected(regs[1..], keep), p);
      SelectedAppend(g, AtPriority(regs[1..], p), keep);
      assert [regs[0]][1..] == [];
    }
  }

  lemma {:induction false} SelectedDescends(regs: Regs, keep: Registration -> bool)
    requires IsDescending(regs)
    ensures IsDescending(Selected(regs, keep))
  {
    if regs != [] {
      SelectedDescends(regs[1..], keep);
      SelectedMember(regs[1..], keep);
      var rest := Selected(regs[1..], keep);
      assert forall i :: 0 <= i < |rest| ==> rest[i] in regs[1..];
    }
  }

  lemma SelectedOfSorted(regs: Regs, keep: Registration -> bool)
    ensures Selected(StableSort(regs), keep) == StableSort(Selected(regs, keep))
  {
    StableSortSorts(regs);
    SelectedDescends(StableSort(regs), keep);
    forall p
      ensures AtPriority(Selected(StableSort(regs), keep), p) == AtPriority(Selected(regs, keep), p)
    {
      SelectedAtPriority(StableSort(regs), keep, p);
      SelectedAtPriority(regs, keep, p);
    }
    SortsToSame(Selected(regs, keep), Selected(StableSort(regs), keep));
  }

  lemma {:induction false} RemoveFirstAtPriority(regs: Regs, r: Registration, p: int)
    ensures AtPriority(RemoveFirst(regs, r), p) == if p == r.priority then RemoveFirst(AtPriority(regs, p), r) else AtPriority(regs, p)
  {
    if regs != [] && regs[0] != r {
      RemoveFirstAtPriority(regs[1..], r, p);
      AtPriorityCons(regs[0], regs[1..], p);
      AtPriorityCons(regs[0], RemoveFirst(regs[1..], r), p);
      RemoveFirstCons(regs[0], AtPriority(regs[1..], p), r);
      assert regs == [regs[0]] + regs[1..];
    } else if regs != [] {
      AtPriorityCons(regs[0], regs[1..], p);
      RemoveFirstCons(regs[0], AtPriority(regs[1..], p), r);
      assert regs == [regs[0]] + regs[1..];
    }
  }

  lemma AtPriorityCons(x: Registration, rest: Regs, p: int)
    ensures AtPriority([x] + rest, p) == if x.priority == p then [x] + AtPriority(rest, p) else AtPriority(rest, p)
  {
    assert ([x] + rest)[1..] == rest;
  }

  lemma RemoveFirstCons(x: Registration, rest: Regs, r: Registration)
    ensures RemoveFirst([x] + rest, r) == if x == r then rest else [x] + RemoveFirst(rest, r)
  {
    assert ([x] + rest)[1..] == rest;
  }

  lemma {:induction false} RemoveFirstDescends(regs: Regs, r: Registration)
    requires IsDescending(regs)
    ensures IsDescending(RemoveFirst(regs, r))
    ensures forall x :: x in RemoveFirst(regs, r) ==> x in regs
  {
    if regs != [] && regs[0] != r {
      RemoveFirstDescends(regs[1..], r);
      var rest := RemoveFirst(regs[1..], r);
      assert forall i :: 0 <= i < |rest| ==> rest[i] in rest && rest[i] in regs[1..];
    }
  }

  lemma RemoveFirstOfSorted(regs: Regs, r: Registration)
    ensures RemoveFirst(StableSort(regs), r) == StableSort(RemoveFirst(regs, r))
  {
    StableSortSorts(regs);
    RemoveFirstDescends(StableSort(regs), r);
    forall p
      ensures AtPriority(RemoveFirst(StableSort(regs), r), p) == AtPriority(RemoveFirst(regs, r), p)
    {
      RemoveFirstAtPriority(StableSort(regs), r, p);
      RemoveFirstAtPriority(regs, r, p);
    }
    SortsToSame(RemoveFirst(regs, r), RemoveFirst(StableSort(regs), r));
  }

  lemma {:induction false} FirstOccurrencesMember(regs: Regs)
    ensures forall x :: x in FirstOccurrences(regs) <==> x in regs
  {
    if regs != [] {
      FirstOccurrencesMember(regs[..|regs| - 1]);
      assert regs == regs[..|regs| - 1] + [regs[|regs| - 1]];
    }
  }

  lemma {:induction false} FirstOccurrencesAtPriority(regs: Regs, p: int)
    ensures AtPriority(FirstOccurrences(regs), p) == FirstOccurrences(AtPriority(regs, p))
  {
    if regs != [] {
      var init, last := regs[..|regs| - 1], regs[|regs| - 1];
      assert regs == init + [last];
      FirstOccurrencesAtPriority(init, p);
      FirstOccurrencesSnoc(init, last);
      AtPrioritySnoc(init, last, p);
      AtPrioritySnoc(FirstOccurrences(init), last, p);
      AtPriorityMember(init, last);
      FirstOccurrencesSnoc(AtPriority(init, p), last);
    }
  }

  lemma FirstOccurrencesSnoc(init: Regs, last: Registration)
    ensures FirstOccurrences(init + [last]) == if last in init then FirstOccurrences(init) else FirstOccurrences(init) + [last]
  {
    assert (init + [last])[..|init + [last]| - 1] == init;
  }

  /** Choosing from two sorted lists and sorting the choice gives what choosing from the unsorted
      lists and sorting gives: the first list whole, and of the second one of each that qualifies. */
  lemma SortOfChoice(a: Regs, b: Regs, keep: Registration -> bool)
    ensures StableSort(StableSort(a) + FirstOccurrences(Selected(StableSort(b), keep)))
            == StableSort(a + FirstOccurrences(Selected(b, keep)))
  {
    var chosen, plain := FirstOccurrences(Selected(StableSort(b), keep)), FirstOccurrences(Selected(b, keep));
    StableSortSorts(a);
    StableSortSorts(b);
    StableSortSorts(a + plain);
    forall p
      ensures AtPriority(StableSort(a + plain), p) == AtPriority(StableSort(a) + chosen, p)
    {
      AtPriorityAppend(a, plain, p);
      AtPriorityAppend(StableSort(a), chosen, p);
      FirstOccurrencesAtPriority(Selected(StableSort(b), keep), p);
      FirstOccurrencesAtPriority(Selected(b, keep), p);
      SelectedAtPriority(StableSort(b), keep, p);
      SelectedAtPriority(b, keep, p);
    }
    SortsToSame(StableSort(a) + chosen, StableSort(a + plain));
  }
}
