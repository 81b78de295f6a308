/** The check of the providers' `depends` lists made before registration. */
module Providers {
  import opened Digraph
  import opened Outcomes

  type Name = string

  datatype Provider = Provider(name: Name, depends: seq<Name>)

  datatype CircularProviderError = CircularProviderError(chain: seq<Name>, cycleStart: Name)

  /** Classes by name; a later class of the same name replaces an earlier one. */
  function NameMap(providers: seq<Provider>): map<Name, Provider> {
    if providers == [] then map[]
    else
      var last := providers[|providers| - 1];
      NameMap(providers[..|providers| - 1])[last.name := last]
  }

  /** The edges of the dependency graph. A name without a class depends on nothing. */
  function DependsOn(nameMap: map<Name, Provider>): Name -> set<Name> {
    x => if x in nameMap then Elems(nameMap[x].depends) else {}
  }

  /** The depth-first search with the two sets its recursive closure shares. */
  class Search {
    const nameMap: map<Name, Provider>
    var visited: set<Name>
    var stack: set<Name>
    /** Names in the order in which their visits ended. */
    ghost var finished: seq<Name>

    constructor (nameMap: map<Name, Provider>)
      ensures this.nameMap == nameMap
      ensures visited == {} && stack == {} && finished == []
    {
      this.nameMap := nameMap;
      visited, stack, finished := {}, {}, [];
    }

    /** What every call keeps: the ended visits form a topological order. */
    ghost predicate Valid()
      reads this
    {
      && stack <= visited
      && Elems(finished) == visited - stack
      && IsTopological(DependsOn(nameMap), finished)
    }

    method Dfs(name: Name, path: seq<Name>, ghost names: set<Name>) returns (r: Option<CircularProviderError>)
      requires Valid()
      requires Elems(path) == stack
      requires IsPath(DependsOn(nameMap), path + [name])
      requires IsClosed(DependsOn(nameMap), names) && visited <= names && name in names
      modifies this
      ensures r.None? ==>
                && Valid() && stack == old(stack) && name !in stack
                && old(visited) + {name} <= visited <= names
                && old(finished) <= finished
      ensures r.Some? ==>
                && path <= r.value.chain && (path + [name])[0] == (r.value.chain + [r.value.cycleStart])[0]
                && IsPath(DependsOn(nameMap), r.value.chain + [r.value.cycleStart])
                && r.value.cycleStart in r.value.chain
      decreases names - visited
    {
      if name in stack {
        return Some(CircularProviderError(path, name));
      }
      if name in visited {
        return None;
      }
      visited := visited + {name};
      stack := stack + {name};
      if name in nameMap {
        var depends := nameMap[name].depends;
        for i := 0 to |depends|
          invariant Valid() && stack == old(stack) + {name}
          invariant old(visited) + {name} <= visited <= names
          invariant old(finished) <= finished
          invariant Elems(depends[..i]) <= Elems(finished)
        {
          assert depends[i] in DependsOn(nameMap)(name);
          ExtendPath(DependsOn(nameMap), path + [name], depends[i]);
          ElemsAppend(path, [name]);
          ghost var before := finished;
          r := Dfs(depends[i], path + [name], names);
          if r.Some? {
            return;
          }
          ElemsPrefix(before, finished);
          ElemsAppend(depends[..i], [depends[i]]);
          assert depends[..i + 1] == depends[..i] + [depends[i]];
        }
        assert depends[..|depends|] == depends;
      }
      assert DependsOn(nameMap)(name) <= Elems(finished);
      stack := stack - {name};
      ElemsAppend(finished, [name]);
      TopologicalAppend(DependsOn(nameMap), finished, name);
      finished := finished + [name];
      r := None;
    }
  }

  method BuildNameMap(providers: seq<Provider>) returns (nameMap: map<Name, Provider>)
    ensures nameMap == NameMap(providers)
    ensures forall name :: name in nameMap ==> exists i: nat :: IsLast(providers, i, name) && nameMap[name] == providers[i]
    ensures forall p :: p in providers ==> p.name in nameMap
  {
    nameMap := map[];
    for i := 0 to |providers|
      invariant nameMap == NameMap(providers[..i])
    {
      assert providers[..i + 1][..i] == providers[..i];
      nameMap := nameMap[providers[i].name := providers[i]];
    }
    assert providers[..|providers|] == providers;
    forall name | name in nameMap
      ensures exists i: nat :: IsLast(providers, i, name) && nameMap[name] == providers[i]
    {
      var i := LastWins(providers, name);
    }
    forall p | p in providers
      ensures p.name in nameMap
    {
      DeclaredIsMapped(providers, p);
    }
  }

  /** Provider i is the last one of this name. */
  ghost predicate IsLast(providers: seq<Provider>, i: nat, name: Name) {
    i < |providers| && providers[i].name == name && forall j :: i < j < |providers| ==> providers[j].name != name
  }

  lemma {:induction false} LastWins(providers: seq<Provider>, name: Name) returns (i: nat)
    requires name in NameMap(providers)
    ensures IsLast(providers, i, name) && NameMap(providers)[name] == providers[i]
  {
    var last := |providers| - 1;
    if providers[last].name == name {
      i := last;
    } else {
      i := LastWins(providers[..last], name);
      assert forall j :: i < j < last ==> providers[j] == providers[..last][j];
    }
  }

  lemma {:induction false} DeclaredIsMapped(providers: seq<Provider>, p: Provider)
    requires p in providers
    ensures p.name in NameMap(providers)
  {
    var last := |providers| - 1;
    if providers[last] != p {
      assert providers == providers[..last] + [providers[last]];
      DeclaredIsMapped(providers[..last], p);
    }
  }

  /** Some declared provider leads to a cycle of `depends` edges. */
  ghost predicate HasCycle(providers: seq<Provider>) {
    exists p :: p in providers && ReachesCycle(DependsOn(NameMap(providers)), p.name)
  }

  /** The error shows a walk along `depends` edges, starting at a declared provider, whose end
      already occurs in it. */
  ghost predicate IsRealCycle(providers: seq<Provider>, e: CircularProviderError) {
    && IsPath(DependsOn(NameMap(providers)), e.chain + [e.cycleStart])
    && e.cycleStart in e.chain
    && exists p :: p in providers && p.name == e.chain[0]
  }

  /** The last provider that is declared as x lists y among those it depends on. */
  ghost predicate Lists(providers: seq<Provider>, x: Name, y: Name) {
    exists i: nat :: IsLast(providers, i, x) && y in providers[i].depends
  }

  lemma DependsOnLast(providers: seq<Provider>, x: Name, y: Name)
    ensures y in DependsOn(NameMap(providers))(x) <==>
            exists i :: 0 <= i < |providers| && providers[i].name == x && y in providers[i].depends
                        && forall j :: i < j < |providers| ==> providers[j].name != x
  {
    if x in NameMap(providers) {
      var i := LastWins(providers, x);
      assert forall j :: 0 <= j < |providers| && providers[j].name == x && (forall k :: j < k < |providers| ==> providers[k].name != x) ==> j == i;
    } else {
      forall i | 0 <= i < |providers| && providers[i].name == x
        ensures false
      {
        DeclaredIsMapped(providers, providers[i]);
      }
    }
  }

  /** A walk that starts at a declared name, goes from each name to one that the last provider of that
      name depends on, and comes back to a name it met. */
  ghost predicate IsClosingWalk(providers: seq<Provider>, walk: seq<Name>) {
    && |walk| > 1 && (exists p :: p in providers && p.name == walk[0])
    && (forall k :: 0 <= k < |walk| - 1 ==> Lists(providers, walk[k], walk[k + 1]))
    && exists k :: 0 <= k < |walk| - 1 && walk[k] == walk[|walk| - 1]
  }

  lemma HasCycleExactly(providers: seq<Provider>)
    ensures HasCycle(providers) <==> exists walk :: IsClosingWalk(providers, walk)
  {
    if HasCycle(providers) {
      var p :| p in providers && ReachesCycle(DependsOn(NameMap(providers)), p.name);
      var walk :| IsPathFrom(DependsOn(NameMap(providers)), p.name, walk) && Closes(walk);
      WalkExactly(providers, walk);
    }
    if walk :| IsClosingWalk(providers, walk) {
      WalkExactly(providers, walk);
      var p :| p in providers && p.name == walk[0];
      assert IsPathFrom(DependsOn(NameMap(providers)), p.name, walk);
    }
  }

  lemma WalkExactly(providers: seq<Provider>, walk: seq<Name>)
    ensures IsClosingWalk(providers, walk) <==>
              walk != [] && (exists p :: p in providers && p.name == walk[0]) && IsPath(DependsOn(NameMap(providers)), walk) && Closes(walk)
  {
    hide DependsOn, NameMap, Lists;
    forall k | 0 <= k < |walk| - 1
      ensures walk[k + 1] in DependsOn(NameMap(providers))(walk[k]) <==> Lists(providers, walk[k], walk[k + 1])
    {
      ListsExactly(providers, walk[k], walk[k + 1]);
    }
    if |walk| > 1 {
      assert forall k :: 0 <= k < |walk| - 1 ==> walk[..|walk| - 1][k] == walk[k];
    }
  }

  lemma ListsExactly(providers: seq<Provider>, x: Name, y: Name)
    ensures y in DependsOn(NameMap(providers))(x) <==> Lists(providers, x, y)
  {
    DependsOnLast(providers, x, y);
    if i :| 0 <= i < |providers| && providers[i].name == x && y in providers[i].depends
            && forall j :: i < j < |providers| ==> providers[j].name != x {
      assert IsLast(providers, i, x);
    }
  }

  lemma RealCycleMeansHasCycle(providers: seq<Provider>, e: CircularProviderError)
    requires IsRealCycle(providers, e)
    ensures HasCycle(providers)
  {
    var cycle := e.chain + [e.cycleStart];
    var p :| p in providers && p.name == e.chain[0];
    assert cycle[..|cycle| - 1] == e.chain;
    assert IsPathFrom(DependsOn(NameMap(providers)), p.name, cycle) && Closes(cycle);
  }

  /** An order that lists every provider after all it depends on. */
  ghost predicate IsDependencyOrder(providers: seq<Provider>, order: seq<Name>) {
    && IsTopological(DependsOn(NameMap(providers)), order)
    && forall p :: p in providers ==> p.name in order
  }

  lemma OrderMeansNoCycle(providers: seq<Provider>, order: seq<Name>)
    requires IsDependencyOrder(providers, order)
    ensures !HasCycle(providers)
  {
    forall p | p in providers
      ensures !ReachesCycle(DependsOn(NameMap(providers)), p.name)
    {
      TopologicalMeansAcyclic(DependsOn(NameMap(providers)), order, p.name);
    }
  }

  ghost function AllNames(providers: seq<Provider>): (names: set<Name>)
    ensures IsClosed(DependsOn(NameMap(providers)), names)
    ensures forall p :: p in providers ==> p.name in names
  {
    (set p | p in providers :: p.name) + (set p, d | p in NameMap(providers).Values && d in p.depends :: d)
  }

  /** The loop over all classes. A later visit starts from the names already visited. */
  method VisitAll(nameMap: map<Name, Provider>, providers: seq<Provider>, ghost names: set<Name>)
    returns (r: Option<CircularProviderError>, ghost order: seq<Name>)
    requires IsClosed(DependsOn(nameMap), names) && forall p :: p in providers ==> p.name in names
    ensures r.None? ==>
              && IsTopological(DependsOn(nameMap), order)
              && forall p :: p in providers ==> p.name in order
    ensures r.Some? ==>
              && IsPath(DependsOn(nameMap), r.value.chain + [r.value.cycleStart])
              && r.value.cycleStart in r.value.chain
              && exists p :: p in providers && p.name == r.value.chain[0]
  {
    var search := new Search(nameMap);
    for i := 0 to |providers|
      invariant search.Valid() && search.stack == {} && search.nameMap == nameMap
      invariant search.visited <= names
      invariant forall j :: 0 <= j < i ==> providers[j].name in search.visited
    {
      r := search.Dfs(providers[i].name, [], names);
      if r.Some? {
        order := [];
        assert providers[i] in providers && providers[i].name == r.value.chain[0];
        return;
      }
    }
    order := search.finished;
    assert Elems(order) == search.visited;
    r := None;
  }

  /** Accepts exactly the provider lists from which no `depends` cycle can be reached; a
      rejection names a real cycle, and an acceptance has an order that respects every edge. */
  method ValidateProviderDependencies(providers: seq<Provider>)
    returns (r: Option<CircularProviderError>, ghost order: seq<Name>)
    ensures r.Some? <==> HasCycle(providers)
    ensures r.Some? ==> IsRealCycle(providers, r.value)
    ensures r.None? ==> IsDependencyOrder(providers, order)
  {
    var nameMap := BuildNameMap(providers);
    r, order := VisitAll(nameMap, providers, AllNames(providers));
    if r.Some? {
      RealCycleMeansHasCycle(providers, r.value);
    } else {
      OrderMeansNoCycle(providers, order);
    }
  }
}
