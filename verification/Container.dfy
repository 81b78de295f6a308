/** The service container: recursive resolution with a build stack, a singleton cache, a scoped
    cache, contextual redirects and extenders. */
module Ioc {
  import opened Digraph
  import opened Outcomes
  import opened Resolution

  datatype Error =
    | CircularDependency(chain: seq<Name>)
    | Raised(maker: string)

  type Made = Result<Object, Error>

  /** A new object was given a part by asking for this name. */
  datatype Wire = Wire(whole: Object, name: Name, part: Object)

  /** The parts of the container that resolving changes. `completions` counts, for each singleton, how
      often its right-hand side ran to its end, and `spoiled` how often an extender failed after that;
      `wires` records which objects are parts of which. */
  datatype Caches = Caches(
    instances: map<Name, Object>,
    scoped: map<Name, Object>,
    nextId: nat,
    completions: multiset<Name>,
    spoiled: multiset<Name>,
    wires: set<Wire>)

  type Contextual = map<Name, map<Name, Concrete>>

  /** A string that is empty counts as no redirect at all. */
  predicate IsTruthy(con: Concrete) {
    con != Redirect("")
  }

  /** The redirect for k of the innermost name on the stack that has one. */
  function InnermostRedirect(contextual: Contextual, stack: seq<Name>, k: Name): Option<Concrete> {
    if stack == [] then None
    else
      var top := stack[|stack| - 1];
      if top in contextual && k in contextual[top] then Some(contextual[top][k])
      else InnermostRedirect(contextual, stack[..|stack| - 1], k)
  }

  /** A request for k is answered by a redirect. */
  predicate IsRedirected(contextual: Contextual, stack: seq<Name>, k: Name) {
    var r := InnermostRedirect(contextual, stack, k);
    r.Some? && IsTruthy(r.value)
  }

  /** The innermost name on the stack that has a redirect for k decides; an empty name is no redirect. */
  lemma {:induction false} InnermostWins(contextual: Contextual, stack: seq<Name>, k: Name, con: Concrete)
    ensures InnermostRedirect(contextual, stack, k) == Some(con) <==>
              exists i :: 0 <= i < |stack| && stack[i] in contextual && k in contextual[stack[i]] && contextual[stack[i]][k] == con
                          && forall j :: i < j < |stack| ==> !(stack[j] in contextual && k in contextual[stack[j]])
    ensures InnermostRedirect(contextual, stack, k) == Some(con) ==> (IsRedirected(contextual, stack, k) <==> con != Redirect(""))
    ensures InnermostRedirect(contextual, stack, k).None? ==>
              !IsRedirected(contextual, stack, k) && forall j :: 0 <= j < |stack| ==> !(stack[j] in contextual && k in contextual[stack[j]])
    decreases |stack|
  {
    if stack != [] {
      var n := |stack| - 1;
      InnermostWins(contextual, stack[..n], k, con);
      assert forall j :: 0 <= j < n ==> stack[..n][j] == stack[j];
      if !(stack[n] in contextual && k in contextual[stack[n]]) && InnermostRedirect(contextual, stack, k) == Some(con) {
        var i :| 0 <= i < n && stack[..n][i] in contextual && k in contextual[stack[..n][i]] && contextual[stack[..n][i]][k] == con
          && forall j :: i < j < n ==> !(stack[..n][j] in contextual && k in contextual[stack[..n][j]]);
        assert stack[i] == stack[..n][i];
      }
    }
  }

  /** What a request for k asks for on the same stack: a redirect is followed without pushing a name. A
      name on the stack is refused before its redirect is looked up. */
  function RedirectDeps(c: Config, contextual: Contextual, stack: seq<Name>, k: Name): seq<Name> {
    if k in stack then []
    else
      match InnermostRedirect(contextual, stack, k)
      case None => []
      case Some(con) => if IsTruthy(con) then CoreDeps(c, con) else []
  }

  /** The graph in which redirects are followed while the stack stays the same. */
  function RedirectNext(c: Config, contextual: Contextual, stack: seq<Name>): Name -> set<Name> {
    k => Keys(c, RedirectDeps(c, contextual, stack, k))
  }

  /** A name is asked for while this stack is being built. */
  datatype Visit = Visit(stack: seq<Name>, name: Name)

  /** What a visit asks for, if nothing is cached and nothing fails: a redirect is followed on the same
      stack, and any other name is pushed. */
  function VisitNext(c: Config, contextual: Contextual): Visit -> set<Visit> {
    (v: Visit) =>
      if v.name in v.stack then {}
      else if IsRedirected(contextual, v.stack, v.name) then
        set y | y in Keys(c, RedirectDeps(c, contextual, v.stack, v.name)) :: Visit(v.stack, y)
      else
        set y | y in Keys(c, Deps(c, v.name)) :: Visit(v.stack + [v.name], y)
  }

  /** A request for one of the wanted names can ask for x on this stack. */
  ghost predicate IsReached(c: Config, contextual: Contextual, wanted: set<Name>, stack: seq<Name>, x: Name) {
    exists k :: k in wanted && Reaches(VisitNext(c, contextual), Visit([], k), Visit(stack, x))
  }

  ghost predicate IsStack(stack: seq<Name>, names: set<Name>) {
    NoDuplicates(stack) && Elems(stack) <= names
  }

  /** How a caller looks at the container while it resolves: the graph of its bindings, whether no
      contextual binding exists, a finite set of names that building stays in, what may be asked for on
      which stack, and for each stack a ranking of the names, with a bound. */
  datatype Plan = Plan(g: Graph, contextual: Contextual, plain: bool, names: set<Name>, visited: (seq<Name>, Name) -> bool,
                       rank: (seq<Name>, Name) -> nat, bound: seq<Name> -> nat) {
    /** Building stays in `names`, and on each stack redirects lead to names of smaller rank. */
    ghost predicate Fits() {
      && (forall s, x :: visited(s, x) ==> IsStack(s, names) && x in names && rank(s, x) < bound(s))
      && (forall s, x :: visited(s, x) && x !in s ==> FitsAt(s, x))
      && (plain ==> contextual == map[])
    }

    ghost predicate FitsAt(s: seq<Name>, x: Name) {
      if IsRedirected(contextual, s, x) then MayMake(s, RedirectDeps(g.config, contextual, s, x), rank(s, x))
      else MayMake(s + [x], Deps(g.config, x), bound(s + [x]))
    }

    /** On this stack the names may be made where ranks below the limit are in order. */
    ghost predicate MayMake(stack: seq<Name>, deps: seq<Name>, limit: nat) {
      forall y :: y in Keys(g.config, deps) ==> visited(stack, y) && rank(stack, y) < limit
    }

    /** Without contextual bindings, the names are dependencies of the top of the stack. */
    ghost predicate Follow(stack: seq<Name>, deps: seq<Name>) {
      plain ==> forall y :: y in Keys(g.config, deps) ==> Continues(Succ(g), stack, y)
    }
  }

  type View = v: Plan | v.Fits()
    witness Plan(Graph(Config(map[], map[], map[]), map[]), map[], true, {}, (_, _) => false, (_, _) => 0, _ => 1)

  function Trees(objs: seq<Object>): seq<Tree> {
    seq(|objs|, i requires 0 <= i < |objs| => objs[i].tree)
  }

  // ---- What resolving may do to the caches -----------------------------

  ghost predicate Extends(m: map<Name, Object>, n: map<Name, Object>) {
    forall x :: x in m ==> x in n && n[x] == m[x]
  }

  predicate IsSingle(bindings: map<Name, Binding>, x: Name) {
    x in bindings && bindings[x].bindingType == SINGLETON
  }

  /** A right-hand side ran to its end once for each singleton that became cached, and once for each time
      an extender failed afterwards. */
  ghost predicate Completed(bindings: map<Name, Binding>, stack: seq<Name>, s: Caches, t: Caches) {
    && (forall x :: t.completions[x] + s.spoiled[x] ==
                    s.completions[x] + t.spoiled[x] + if x in t.instances && x !in s.instances then 1 else 0)
    && (forall x {:trigger t.spoiled[x]} :: s.spoiled[x] <= t.spoiled[x] && (s.spoiled[x] < t.spoiled[x] ==> IsSingle(bindings, x) && x !in stack))
  }

  /** An object that was given for x is still the one to be given, if x is a singleton. */
  ghost predicate IsCurrent(bindings: map<Name, Binding>, s: Caches, x: Name, obj: Object) {
    x in bindings && bindings[x].bindingType == SINGLETON ==> Lookup(s, x) == Some(obj)
  }

  /** The objects made from s to t are new, and the singletons among their parts are the cached ones. */
  ghost predicate Wired(bindings: map<Name, Binding>, s: Caches, t: Caches) {
    && s.wires <= t.wires
    && forall w :: w in t.wires ==> w in s.wires || (s.nextId <= w.whole.id < t.nextId && IsCurrent(bindings, t, w.name, w.part))
  }

  /** So are all that were given for these names, except for those redirected. */
  ghost predicate AreCurrent(c: Config, contextual: Contextual, stack: seq<Name>, s: Caches, deps: seq<Name>, objs: seq<Object>) {
    && |deps| == |objs|
    && forall i :: 0 <= i < |deps| && !IsRedirected(contextual, stack, Key(c, deps[i])) ==>
         IsCurrent(c.bindings, s, Key(c, deps[i]), objs[i])
  }

  /** From s to t nothing cached was lost or replaced, and only singletons (in `instances`) and
      scoped names (in `scoped`) off the stack were added. */
  ghost predicate Added(bindings: map<Name, Binding>, stack: seq<Name>, s: Caches, t: Caches) {
    && Extends(s.instances, t.instances) && Extends(s.scoped, t.scoped)
    && (forall x :: x in t.instances ==>
          x in s.instances || (x in bindings && bindings[x].bindingType == SINGLETON && x !in stack && x !in s.scoped))
    && (forall x :: x in t.scoped ==>
          x in s.scoped || (x in bindings && bindings[x].bindingType == SCOPED && x !in stack))
  }

  /** What making names does to the caches. */
  ghost predicate Grown(bindings: map<Name, Binding>, stack: seq<Name>, s: Caches, t: Caches) {
    s.nextId <= t.nextId && Added(bindings, stack, s, t) && Completed(bindings, stack, s, t) && Wired(bindings, s, t)
  }

  lemma GrownReflexive(bindings: map<Name, Binding>, stack: seq<Name>, s: Caches)
    ensures Grown(bindings, stack, s, s)
  {
  }

  lemma GrownOnly(bindings: map<Name, Binding>, stack: seq<Name>, s: Caches, t: Caches)
    requires Grown(bindings, stack, s, t)
    ensures s.wires <= t.wires && s.nextId <= t.nextId
  {
  }

  lemma GrownBelow(bindings: map<Name, Binding>, below: seq<Name>, x: Name, s: Caches, t: Caches)
    requires Grown(bindings, below + [x], s, t)
    ensures Grown(bindings, below, s, t)
  {
    assert forall y :: y !in below + [x] ==> y !in below;
  }

  lemma GrownTransitive(bindings: map<Name, Binding>, stack: seq<Name>, s: Caches, t: Caches, u: Caches)
    requires Grown(bindings, stack, s, t) && Grown(bindings, stack, t, u)
    ensures Grown(bindings, stack, s, u)
    ensures s.nextId <= t.nextId <= u.nextId && s.wires <= t.wires <= u.wires
  {
  }

  /** The cached object for x; the singleton cache is asked first. */
  ghost function Lookup(s: Caches, x: Name): Option<Object> {
    if x in s.instances then Some(s.instances[x])
    else if x in s.scoped then Some(s.scoped[x])
    else None
  }

  ghost predicate IsKept(bindings: map<Name, Binding>, x: Name) {
    x in bindings && (bindings[x].bindingType == SINGLETON || bindings[x].bindingType == SCOPED)
  }

  /** A singleton or scoped name is cached once made, and what is cached is what was returned. */
  ghost predicate IsShared(bindings: map<Name, Binding>, s: Caches, x: Name, obj: Object) {
    && (IsKept(bindings, x) ==> Lookup(s, x).Some?)
    && (Lookup(s, x).Some? ==> Lookup(s, x).value == obj)
  }

  /** The object of x does not exist before x is built. */
  predicate MakesNew(c: Config, x: Name) {
    ConcreteOf(c, x).Factory? || ConcreteOf(c, x).Class? || ExtendersOf(c, x) != []
  }

  /** The parts that an object is given for the names it asks for, except those that are redirected. */
  ghost function WiresOf(c: Config, contextual: Contextual, stack: seq<Name>, deps: seq<Name>, whole: Object, parts: seq<Object>): set<Wire> {
    set i | 0 <= i < |deps| && i < |parts| && !IsRedirected(contextual, stack, Key(c, deps[i])) :: Wire(whole, Key(c, deps[i]), parts[i])
  }

  /** The object consists of these first parts and of a recorded one for each dependency. */
  ghost predicate IsMadeOf(c: Config, contextual: Contextual, stack: seq<Name>, maker: string, first: seq<Object>, deps: seq<Name>,
      obj: Object, wires: set<Wire>) {
    exists parts :: |parts| == |deps| && obj.tree == Tree(maker, Trees(first + parts)) && WiresOf(c, contextual, stack, deps, obj, parts) <= wires
  }

  /** The object that x makes: that of its last extender, or else that of its right-hand side. */
  ghost predicate IsWhole(c: Config, contextual: Contextual, stack: seq<Name>, x: Name, obj: Object, wires: set<Wire>) {
    var exts, con := ExtendersOf(c, x), ConcreteOf(c, x);
    if exts == [] then IsMadeOf(c, contextual, stack, Label(con), [], CoreDeps(c, con), obj, wires)
    else exists core :: IsMadeOf(c, contextual, stack, exts[|exts| - 1].maker, [core], exts[|exts| - 1].deps, obj, wires)
  }

  /** What was not cached is a new object made of recorded parts, unless it is passed on from another
      name or given. */
  ghost predicate IsNewObject(c: Config, contextual: Contextual, stack: seq<Name>, s: Caches, t: Caches, x: Name, obj: Object) {
    Lookup(s, x).None? && MakesNew(c, x) ==>
      s.nextId <= obj.id < t.nextId && IsWhole(c, contextual, stack + [x], x, obj, t.wires)
  }

  /** What is cached is returned and nothing changes; the singleton cache is asked first. */
  ghost predicate ReturnsCached(s: Caches, t: Caches, x: Name, r: Made) {
    && (x in s.instances ==> r == Success(s.instances[x]) && t == s)
    && (x !in s.instances && x in s.scoped ==> r == Success(s.scoped[x]) && t == s)
  }

  /** What a right-hand side gives: the given object; a new one made of recorded parts; or, if it leads to a
      singleton, the cached one. A factory that raises gives nothing. */
  ghost predicate IsMadeBy(c: Config, contextual: Contextual, stack: seq<Name>, con: Concrete, s: Caches, t: Caches, r: Made) {
    match con
    case Value(obj) => r == Success(obj)
    case Redirect(target) =>
      r.Success? && !IsRedirected(contextual, stack, Key(c, target)) ==> IsCurrent(c.bindings, t, Key(c, target), r.value)
    case Factory(maker, deps, raises) =>
      && (raises ==> r.Failure?)
      && (r.Success? ==> s.nextId <= r.value.id < t.nextId && IsMadeOf(c, contextual, stack, maker, [], deps, r.value, t.wires))
    case Class(maker, params) =>
      r.Success? ==>
        s.nextId <= r.value.id < t.nextId && IsMadeOf(c, contextual, stack, maker, [], InjectedParams(c, params), r.value, t.wires)
  }

  /** The caches after the right-hand side of x ran to its end, and its extenders too or not. */
  ghost function Counted(bindings: map<Name, Binding>, s: Caches, x: Name, ok: bool): Caches {
    if !IsSingle(bindings, x) then s
    else s.(completions := s.completions + multiset{x}, spoiled := if ok then s.spoiled else s.spoiled + multiset{x})
  }

  /** The caches after a successful build of x. */
  ghost function Stored(bindings: map<Name, Binding>, s: Caches, x: Name, obj: Object): Caches {
    if x !in bindings then s
    else match bindings[x].bindingType
      case SINGLETON => s.(instances := s.instances[x := obj])
      case SCOPED => s.(scoped := s.scoped[x := obj])
      case _ => s
  }

  lemma StoredIsShared(bindings: map<Name, Binding>, below: seq<Name>, s: Caches, t: Caches, x: Name, obj: Object)
    requires Grown(bindings, below + [x], s, t) && Lookup(s, x).None? && x !in below
    ensures Grown(bindings, below, s, Stored(bindings, Counted(bindings, t, x, true), x, obj))
    ensures IsShared(bindings, Stored(bindings, Counted(bindings, t, x, true), x, obj), x, obj)
  {
    FailedIsNotKept(bindings, below + [x], x, s, t);
    GrownBelow(bindings, below, x, s, t);
    StoredGrows(bindings, below, s, t, x, obj);
    hide Grown;
  }

  lemma StoredGrows(bindings: map<Name, Binding>, below: seq<Name>, s: Caches, t: Caches, x: Name, obj: Object)
    requires Grown(bindings, below, s, t) && Lookup(t, x).None? && x !in below
    ensures Grown(bindings, below, s, Stored(bindings, Counted(bindings, t, x, true), x, obj))
  {
    StoredCompletes(bindings, below, s, t, x, obj);
    StoredAdds(bindings, below, s, t, x, obj);
    StoredWires(bindings, s, t, x, obj);
  }

  lemma StoredCompletes(bindings: map<Name, Binding>, below: seq<Name>, s: Caches, t: Caches, x: Name, obj: Object)
    requires Completed(bindings, below, s, t) && Extends(s.instances, t.instances) && x !in t.instances
    ensures Completed(bindings, below, s, Stored(bindings, Counted(bindings, t, x, true), x, obj))
  {
  }

  lemma StoredAdds(bindings: map<Name, Binding>, below: seq<Name>, s: Caches, t: Caches, x: Name, obj: Object)
    requires Added(bindings, below, s, t) && Lookup(t, x).None? && x !in below
    ensures Added(bindings, below, s, Stored(bindings, Counted(bindings, t, x, true), x, obj))
  {
  }

  lemma StoredWires(bindings: map<Name, Binding>, s: Caches, t: Caches, x: Name, obj: Object)
    requires Wired(bindings, s, t) && Lookup(t, x).None?
    ensures Wired(bindings, s, Stored(bindings, Counted(bindings, t, x, true), x, obj))
  {
  }

  /** A failure after the right-hand side of x ran to its end. */
  lemma SpoiledGrows(bindings: map<Name, Binding>, below: seq<Name>, s: Caches, t: Caches, x: Name)
    requires Grown(bindings, below, s, t) && x !in below
    ensures Grown(bindings, below, s, Counted(bindings, t, x, false))
  {
  }

  /** Growth does not depend on how often x completed before. */
  lemma GrownUncounted(bindings: map<Name, Binding>, stack: seq<Name>, s: Caches, t: Caches, x: Name) returns (quiet: Caches)
    requires Grown(bindings, stack, Counted(bindings, s, x, true), t)
    ensures Grown(bindings, stack, s, quiet) && t == Counted(bindings, quiet, x, true)
    ensures Counted(bindings, quiet, x, false) == if IsSingle(bindings, x) then t.(spoiled := t.spoiled + multiset{x}) else t
  {
    quiet := t;
    if IsSingle(bindings, x) {
      hide Added, Wired, Completed;
      var completions := UncountedCompletes(bindings, stack, s, t, x);
      quiet := t.(completions := completions);
      UncountedParts(bindings, stack, s, t, x, completions);
    }
  }

  lemma UncountedCompletes(bindings: map<Name, Binding>, stack: seq<Name>, s: Caches, t: Caches, x: Name) returns (completions: multiset<Name>)
    requires Completed(bindings, stack, Counted(bindings, s, x, true), t) && IsSingle(bindings, x)
    ensures Completed(bindings, stack, s, t.(completions := completions)) && completions + multiset{x} == t.completions
  {
    var counted := s.completions + multiset{x};
    completions := t.completions - multiset{x};
    assert t.completions[x] + s.spoiled[x] >= counted[x] + t.spoiled[x];
    assert completions + multiset{x} == t.completions;
  }

  lemma UncountedParts(bindings: map<Name, Binding>, stack: seq<Name>, s: Caches, t: Caches, x: Name, completions: multiset<Name>)
    requires Added(bindings, stack, Counted(bindings, s, x, true), t) && Wired(bindings, Counted(bindings, s, x, true), t)
    ensures Added(bindings, stack, s, t.(completions := completions)) && Wired(bindings, s, t.(completions := completions))
  {
  }

  // ---- Factories that run to their end in vain -----------------------------

  /** The right-hand side of x can be given its dependencies and does not raise. */
  ghost predicate CoreBuilds(g: Graph, x: Name) {
    !CoreRaises(g.config, ConcreteOf(g.config, x)) && !SomeUnbuildable(g, CoreDeps(g.config, ConcreteOf(g.config, x)))
  }

  /** Some extender raises, or cannot be given a dependency. */
  ghost predicate ExtendersBreak(g: Graph, exts: seq<Extender>) {
    exists i :: 0 <= i < |exts| && (exts[i].raises || SomeUnbuildable(g, exts[i].deps))
  }

  /** Each time x is made anew, its right-hand side runs to its end and then an extender fails. */
  ghost predicate IsSpoiling(g: Graph, x: Name) {
    x !in g.base && CoreBuilds(g, x) && ExtendersBreak(g, ExtendersOf(g.config, x))
  }

  /** At most `limit` times each an extender failed after a right-hand side had run to its end, and only
      for names of which that is to be expected. */
  ghost predicate SpoilsOnly(g: Graph, plain: bool, s: multiset<Name>, t: multiset<Name>, limit: nat) {
    forall x :: s[x] <= t[x] <= s[x] + limit && (s[x] < t[x] ==> ExtendersOf(g.config, x) != [] && (plain ==> IsSpoiling(g, x)))
  }

  lemma SpoilsNothing(g: Graph, plain: bool, s: multiset<Name>)
    ensures SpoilsOnly(g, plain, s, s, 0)
  {
  }

  lemma SpoilsWithin(g: Graph, plain: bool, s: multiset<Name>, t: multiset<Name>)
    requires SpoilsOnly(g, plain, s, t, 0)
    ensures SpoilsOnly(g, plain, s, t, 1)
  {
  }

  lemma SpoilsThen(g: Graph, plain: bool, s: multiset<Name>, t: multiset<Name>, u: multiset<Name>, a: nat, b: nat)
    requires SpoilsOnly(g, plain, s, t, a) && SpoilsOnly(g, plain, t, u, b)
    ensures SpoilsOnly(g, plain, s, u, a + b)
  {
  }

  /** An extender of x itself failed. */
  lemma SpoilsItself(g: Graph, plain: bool, s: multiset<Name>, t: multiset<Name>, x: Name)
    requires SpoilsOnly(g, plain, s, t, 1) && s[x] == t[x] && ExtendersOf(g.config, x) != [] && (plain ==> IsSpoiling(g, x))
    ensures SpoilsOnly(g, plain, s, t + multiset{x}, 1)
  {
  }

  /** If that is to be expected of x, it happens. */
  ghost predicate SpoilsIfExpected(g: Graph, bindings: map<Name, Binding>, s: Caches, t: Caches, x: Name) {
    Lookup(s, x).None? && IsSingle(bindings, x) && IsSpoiling(g, x) ==> s.spoiled[x] < t.spoiled[x]
  }

  lemma SpoilingIsUnbuildable(g: Graph, x: Name)
    requires IsSpoiling(g, x)
    ensures !Buildable(g, x)
  {
    var exts := ExtendersOf(g.config, x);
    var i :| 0 <= i < |exts| && (exts[i].raises || SomeUnbuildable(g, exts[i].deps));
    DepsOfExtender(exts, i);
    UnbuildablePart(g, x, exts[i].deps);
  }

  lemma CoreYieldsBuilds(g: Graph, x: Name, t: Tree)
    requires YieldsConcrete(g, ConcreteOf(g.config, x), t)
    ensures CoreBuilds(g, x)
  {
    var con := ConcreteOf(g.config, x);
    var n: nat :| EvalConcrete(g, n, con) == Some(t);
    EvalNamesDefined(g, n, CoreDeps(g.config, con));
    forall d | d in CoreDeps(g.config, con)
      ensures Buildable(g, Key(g.config, d))
    {
      EvalDefined(g, n, Key(g.config, d));
    }
  }

  lemma FailingExtendersBreak(g: Graph, stack: seq<Name>, exts: seq<Extender>, e: Error)
    requires SomeExtenderFails(g, stack, exts, e)
    ensures ExtendersBreak(g, exts)
  {
  }

  lemma BuiltAnew(c: Config, contextual: Contextual, below: seq<Name>, s: Caches, quiet: Caches, t: Caches, x: Name, obj: Object)
    requires Grown(c.bindings, below + [x], s, quiet) && Lookup(s, x).None? && x !in below && t == Counted(c.bindings, quiet, x, true)
    requires MakesNew(c, x) ==> s.nextId <= obj.id < t.nextId && IsWhole(c, contextual, below + [x], x, obj, t.wires)
    ensures var u := Stored(c.bindings, t, x, obj);
      && Grown(c.bindings, below, s, u) && IsShared(c.bindings, u, x, obj)
      && IsNewObject(c, contextual, below, s, u, x, obj)
      && u.spoiled == t.spoiled
  {
    StoredIsShared(c.bindings, below, s, quiet, x, obj);
    hide Grown, IsWhole, IsShared;
  }

  lemma FailedAnew(bindings: map<Name, Binding>, below: seq<Name>, s: Caches, quiet: Caches, t: Caches, x: Name, built: bool)
    requires Grown(bindings, below + [x], s, quiet) && Lookup(s, x).None? && x !in below
    requires t == if built then Counted(bindings, quiet, x, false) else quiet
    ensures Grown(bindings, below, s, t) && Lookup(t, x).None?
    ensures built && IsSingle(bindings, x) ==> s.spoiled[x] < t.spoiled[x]
  {
    GrownBelow(bindings, below, x, s, quiet);
    SpoiledGrows(bindings, below, s, quiet, x);
    FailedIsNotKept(bindings, below + [x], x, s, quiet);
    SpoiledGrew(bindings, below, s, quiet, x);
    hide Grown;
  }

  lemma SpoiledGrew(bindings: map<Name, Binding>, stack: seq<Name>, s: Caches, t: Caches, x: Name)
    requires Grown(bindings, stack, s, t)
    ensures s.spoiled[x] <= t.spoiled[x]
  {
  }

  /** While x is on the stack, nothing keeps an object for it. */
  lemma FailedIsNotKept(bindings: map<Name, Binding>, stack: seq<Name>, x: Name, s: Caches, t: Caches)
    requires Grown(bindings, stack, s, t) && x in stack && Lookup(s, x).None?
    ensures Lookup(t, x).None?
  {
  }

  lemma StoredIsCoherent(g: Graph, bindings: map<Name, Binding>, s: Caches, x: Name, obj: Object)
    requires Coherent(g, s) && Yields(g, x, obj.tree)
    ensures Coherent(g, Stored(bindings, s, x, obj))
  {
  }

  ghost predicate AllTrue(g: Graph, m: map<Name, Object>, hiding: map<Name, Object>) {
    forall x {:trigger Yields(g, x, m[x].tree)} :: x in m ==> x in hiding || Yields(g, x, m[x].tree)
  }

  /** Every cached object that a request can see is the one the cache-free evaluator builds, and what is
      given from outside is cached. */
  ghost predicate Coherent(g: Graph, s: Caches) {
    && (forall x :: x in g.base ==> x in s.instances || x in s.scoped)
    && AllTrue(g, s.instances, map[]) && AllTrue(g, s.scoped, s.instances)
  }

  /** A reported cycle is a walk along real dependencies that extends the stack and closes. */
  ghost predicate IsCycleError(g: Graph, stack: seq<Name>, e: Error) {
    e.CircularDependency? ==> stack <= e.chain && IsPath(Succ(g), e.chain) && Closes(e.chain)
  }

  function Resolved(g: Graph, deps: seq<Name>): seq<Name> {
    seq(|deps|, i requires 0 <= i < |deps| => Key(g.config, deps[i]))
  }

  /** Any other error is raised by a name that one of xs reaches. */
  ghost predicate IsRaiseError(g: Graph, xs: seq<Name>, e: Error) {
    e.Raised? ==> exists x :: x in xs && ReachesRaise(g, x, e.maker)
  }

  ghost predicate SomeUnbuildable(g: Graph, deps: seq<Name>) {
    exists d :: d in deps && !Buildable(g, Key(g.config, d))
  }

  /** Why a right-hand side failed: it raises itself, or a dependency failed. */
  ghost predicate ConcreteFails(g: Graph, stack: seq<Name>, con: Concrete, e: Error) {
    && (CoreRaises(g.config, con) || SomeUnbuildable(g, CoreDeps(g.config, con)))
    && IsCycleError(g, stack, e)
    && ((CoreRaises(g.config, con) && e == Raised(Label(con))) || IsRaiseError(g, Resolved(g, CoreDeps(g.config, con)), e))
  }

  /** Why an extender failed. */
  ghost predicate ExtenderFails(g: Graph, stack: seq<Name>, x: Extender, e: Error) {
    && (x.raises || SomeUnbuildable(g, x.deps))
    && IsCycleError(g, stack, e)
    && ((x.raises && e == Raised(x.maker)) || IsRaiseError(g, Resolved(g, x.deps), e))
  }

  ghost predicate SomeExtenderFails(g: Graph, stack: seq<Name>, exts: seq<Extender>, e: Error) {
    exists i :: 0 <= i < |exts| && ExtenderFails(g, stack, exts[i], e)
  }

  /** The answer of the cache-free evaluator: the same tree if it builds x, an error if not. */
  ghost predicate IsAnswer(g: Graph, stack: seq<Name>, x: Name, r: Made) {
    match r
    case Success(obj) => Yields(g, x, obj.tree)
    case Failure(e) =>
      && !Buildable(g, x)
      && IsCycleError(g, stack + [x], e) && IsRaiseError(g, [x], e)
  }

  /** The answer for a list of names, resolved in order until one fails. */
  ghost predicate AreAnswers(g: Graph, stack: seq<Name>, deps: seq<Name>, r: Result<seq<Object>, Error>) {
    match r
    case Success(objs) => YieldsNames(g, deps, Trees(objs))
    case Failure(e) =>
      && SomeUnbuildable(g, deps)
      && IsCycleError(g, stack, e) && IsRaiseError(g, Resolved(g, deps), e)
  }

  // ---- Runs of makes and nested scopes ---------------------------------

  datatype Command = Request(name: Name) | Scope(body: seq<Command>)

  /** What one command of a run gave: an answer, or the outcomes inside a scope together with the
      scoped cache the scope ended with. */
  datatype Outcome = Answer(made: Made) | Inside(scoped: map<Name, Object>, outcomes: seq<Outcome>)

  /** What the scoped cache holds is still bound as scoped. */
  ghost predicate Tidy(bindings: map<Name, Binding>, s: Caches) {
    forall x :: x in s.scoped ==> x in bindings && bindings[x].bindingType == SCOPED
  }

  /** Every answer of a run that ends in t is the answer of the cache-free evaluator, and every
      singleton or scoped object answered is the one still cached at the end of the run or of its
      scope. */
  ghost predicate IsFaithful(g: Graph, plain: bool, t: Caches, cmds: seq<Command>, outs: seq<Outcome>)
    decreases cmds
  {
    && Tidy(g.config.bindings, t)
    && |cmds| == |outs|
    && forall i :: 0 <= i < |cmds| ==>
         match cmds[i]
         case Request(a) =>
           && outs[i].Answer? && (plain ==> IsAnswer(g, [], Key(g.config, a), outs[i].made))
           && (outs[i].made.Success? ==> IsShared(g.config.bindings, t, Key(g.config, a), outs[i].made.value))
         case Scope(body) =>
           outs[i].Inside? && IsFaithful(g, plain, t.(scoped := outs[i].scoped), body, outs[i].outcomes)
  }

  lemma TidyStays(bindings: map<Name, Binding>, s: Caches, t: Caches)
    requires Tidy(bindings, s) && Grown(bindings, [], s, t)
    ensures Tidy(bindings, t)
  {
  }

  lemma SharedStays(bindings: map<Name, Binding>, s: Caches, t: Caches, x: Name, obj: Object)
    requires Tidy(bindings, s) && Grown(bindings, [], s, t) && IsShared(bindings, s, x, obj)
    ensures IsShared(bindings, t, x, obj)
  {
  }

  /** Later growth of the caches takes no answer of an earlier run back. */
  lemma {:induction false} FaithfulStays(g: Graph, plain: bool, s: Caches, t: Caches, cmds: seq<Command>, outs: seq<Outcome>)
    requires IsFaithful(g, plain, s, cmds, outs) && Grown(g.config.bindings, [], s, t)
    ensures IsFaithful(g, plain, t, cmds, outs)
    decreases cmds
  {
    TidyStays(g.config.bindings, s, t);
    forall i | 0 <= i < |cmds|
      ensures
        match cmds[i]
        case Request(a) =>
          outs[i].made.Success? ==> IsShared(g.config.bindings, t, Key(g.config, a), outs[i].made.value)
        case Scope(body) =>
          IsFaithful(g, plain, t.(scoped := outs[i].scoped), body, outs[i].outcomes)
    {
      match cmds[i]
      case Request(a) =>
        if outs[i].made.Success? {
          SharedStays(g.config.bindings, s, t, Key(g.config, a), outs[i].made.value);
        }
      case Scope(body) =>
        var s', t' := s.(scoped := outs[i].scoped), t.(scoped := outs[i].scoped);
        FaithfulStays(g, plain, s', t', body, outs[i].outcomes);
    }
  }

  /** Without contextual bindings: what is given from outside are instances, and every visible object is
      the one the cache-free evaluator builds. */
  ghost predicate IsPlainly(plain: bool, g: Graph, s: Caches) {
    plain ==> Coherent(g, s) && g.base.Keys <= s.instances.Keys
  }

  lemma ScopeBegins(plain: bool, g: Graph, bindings: map<Name, Binding>, s: Caches)
    requires IsPlainly(plain, g, s) && Tidy(bindings, s)
    ensures IsPlainly(plain, g, s.(scoped := map[])) && Tidy(bindings, s.(scoped := map[]))
  {
  }

  /** The caches grow through a scope as if it were not there. */
  lemma ScopeEnds(plain: bool, g: Graph, bindings: map<Name, Binding>, s: Caches, t: Caches)
    requires IsPlainly(plain, g, s) && Tidy(bindings, s) && IsPlainly(plain, g, t) && Tidy(bindings, t)
    requires Grown(bindings, [], s.(scoped := map[]), t)
    ensures Grown(bindings, [], s, t.(scoped := s.scoped))
    ensures IsPlainly(plain, g, t.(scoped := s.scoped)) && Tidy(bindings, t.(scoped := s.scoped))
  {
  }

  /** How many requests of a run failed, at any depth of scopes. */
  function Failures(outs: seq<Outcome>): nat
    decreases outs
  {
    if outs == [] then 0
    else
      var last := outs[|outs| - 1];
      Failures(outs[..|outs| - 1]) + match last
        case Answer(made) => (if made.Success? then 0 else 1)
        case Inside(_, inner) => Failures(inner)
  }

  lemma FailuresOfOne(out: Outcome)
    ensures Failures([out]) == match out
      case Answer(made) => (if made.Success? then 0 else 1)
      case Inside(_, inner) => Failures(inner)
  {
    assert [out][..0] == [];
  }

  /** If x is a singleton whose extenders do not break after its right-hand side ran to its end, that
      happens at most once in a run, and not at all if x was cached before. */
  lemma CompletesAtMostOnce(g: Graph, s: Caches, t: Caches, x: Name, limit: nat)
    requires Grown(g.config.bindings, [], s, t) && SpoilsOnly(g, true, s.spoiled, t.spoiled, limit) && !IsSpoiling(g, x)
    ensures t.completions[x] == s.completions[x] + if x in t.instances && x !in s.instances then 1 else 0
  {
    assert s.spoiled[x] == t.spoiled[x];
  }

  /** One request for a singleton that is not cached lets its right-hand side run to its end and keeps
      nothing exactly if its extenders break; only then can that happen a second time. */
  lemma RunsInVainExactly(g: Graph, s: Caches, t: Caches, x: Name, r: Made)
    requires Grown(g.config.bindings, [], s, t) && IsSingle(g.config.bindings, x) && Lookup(s, x).None?
    requires IsAnswer(g, [], x, r) && (r.Failure? ==> Lookup(t, x).None?)
    requires SpoilsOnly(g, true, s.spoiled, t.spoiled, 1) && SpoilsIfExpected(g, g.config.bindings, s, t, x)
    ensures s.completions[x] < t.completions[x] && Lookup(t, x).None? <==> IsSpoiling(g, x)
  {
    hide Added, Wired, IsSpoiling, IsAnswer;
    SpoilingFails(g, [], x, r);
  }

  /** Some command of the run, at any depth of scopes, asked for a and was given obj. */
  ghost predicate WasGiven(cmds: seq<Command>, outs: seq<Outcome>, a: Name, obj: Object)
    decreases cmds
  {
    |cmds| == |outs| &&
    exists i :: 0 <= i < |cmds| &&
      match cmds[i]
      case Request(name) => name == a && outs[i] == Answer(Success(obj))
      case Scope(body) => outs[i].Inside? && WasGiven(body, outs[i].outcomes, a, obj)
  }

  /** A singleton that was given anywhere in a run is the instance cached at its end. */
  lemma {:induction false} SingletonGivenIsCached(g: Graph, plain: bool, t: Caches, cmds: seq<Command>, outs: seq<Outcome>,
      a: Name, obj: Object)
    requires IsFaithful(g, plain, t, cmds, outs) && WasGiven(cmds, outs, a, obj)
    requires Key(g.config, a) in g.config.bindings
    requires g.config.bindings[Key(g.config, a)].bindingType == SINGLETON
    ensures Key(g.config, a) in t.instances && t.instances[Key(g.config, a)] == obj
    decreases cmds
  {
    var i :| 0 <= i < |cmds| &&
      match cmds[i]
      case Request(name) => name == a && outs[i] == Answer(Success(obj))
      case Scope(body) => outs[i].Inside? && WasGiven(body, outs[i].outcomes, a, obj);
    if cmds[i].Scope? {
      SingletonGivenIsCached(g, plain, t.(scoped := outs[i].scoped), cmds[i].body, outs[i].outcomes, a, obj);
    }
  }

  /** All requests of a run for one singleton, directly or through aliases, inside or outside of
      scopes, are given one and the same object. */
  lemma SingletonIdentity(g: Graph, plain: bool, t: Caches, cmds: seq<Command>, outs: seq<Outcome>,
      a: Name, b: Name, obj: Object, other: Object)
    requires IsFaithful(g, plain, t, cmds, outs) && Key(g.config, a) == Key(g.config, b)
    requires WasGiven(cmds, outs, a, obj) && WasGiven(cmds, outs, b, other)
    requires Key(g.config, a) in g.config.bindings
    requires g.config.bindings[Key(g.config, a)].bindingType == SINGLETON
    ensures obj == other
  {
    SingletonGivenIsCached(g, plain, t, cmds, outs, a, obj);
    SingletonGivenIsCached(g, plain, t, cmds, outs, b, other);
  }

  /** Within one scope, all requests for a scoped name are given one and the same object. */
  lemma ScopedIdentity(g: Graph, plain: bool, t: Caches, cmds: seq<Command>, outs: seq<Outcome>, i: nat, j: nat)
    requires IsFaithful(g, plain, t, cmds, outs) && i < |cmds| && j < |cmds|
    requires cmds[i].Request? && cmds[j].Request?
    requires Key(g.config, cmds[i].name) == Key(g.config, cmds[j].name)
    requires IsKept(g.config.bindings, Key(g.config, cmds[i].name))
    requires outs[i].made.Success? && outs[j].made.Success?
    ensures outs[i].made.value == outs[j].made.value
  {
  }

  /** Wires lead to objects that were counted. */
  ghost predicate IsNumbered(s: Caches) {
    forall w :: w in s.wires ==> w.whole.id < s.nextId
  }

  /** A service that was not extended and was made anew from s to t, and that asks for a singleton under
      its own name, holds the singleton that is cached at the end u of the run. */
  lemma ServiceHoldsSingleton(c: Config, contextual: Contextual, stack: seq<Name>, s: Caches, t: Caches, u: Caches,
      x: Name, obj: Object, i: nat)
    requires IsNumbered(s) && Grown(c.bindings, stack, s, t) && Grown(c.bindings, stack, t, u)
    requires IsNewObject(c, contextual, stack, s, t, x, obj) && Lookup(s, x).None? && MakesNew(c, x) && ExtendersOf(c, x) == []
    requires i < |CoreDeps(c, ConcreteOf(c, x))|
    requires IsOwnSingleton(c, contextual, stack + [x], CoreDeps(c, ConcreteOf(c, x))[i])
    ensures HoldsCached(u, obj, i, Key(c, CoreDeps(c, ConcreteOf(c, x))[i]))
  {
    hide Grown, IsNumbered, IsOwnSingleton, HoldsCached, InnermostRedirect, IsMadeOf, Lookup, Label;
    var con := ConcreteOf(c, x);
    SingletonPartIsCached(c, contextual, stack + [x], stack, s, t, u, Label(con), [], CoreDeps(c, con), obj, i);
  }

  /** The name leads to a singleton and is not redirected. */
  ghost predicate IsOwnSingleton(c: Config, contextual: Contextual, stack: seq<Name>, d: Name) {
    var k := Key(c, d);
    k in c.bindings && c.bindings[k].bindingType == SINGLETON && !IsRedirected(contextual, stack, k)
  }

  /** The part at this place was given for k and is the object cached for k, and no other object was given
      for k. */
  ghost predicate HoldsCached(u: Caches, obj: Object, place: nat, k: Name) {
    && Lookup(u, k).Some? && Wire(obj, k, Lookup(u, k).value) in u.wires
    && place < |obj.tree.parts| && obj.tree.parts[place] == Lookup(u, k).value.tree
    && forall p :: Wire(obj, k, p) in u.wires ==> p == Lookup(u, k).value
  }

  /** The same for every object that a right-hand side or an extender made. */
  lemma SingletonPartIsCached(c: Config, contextual: Contextual, stack: seq<Name>, below: seq<Name>, s: Caches, t: Caches, u: Caches,
      maker: string, first: seq<Object>, deps: seq<Name>, obj: Object, i: nat)
    requires IsNumbered(s) && Grown(c.bindings, below, s, t) && Grown(c.bindings, below, t, u) && s.nextId <= obj.id
    requires IsMadeOf(c, contextual, stack, maker, first, deps, obj, t.wires)
    requires i < |deps| && IsOwnSingleton(c, contextual, stack, deps[i])
    ensures HoldsCached(u, obj, |first| + i, Key(c, deps[i]))
  {
    var part := PartIsRecorded(c, contextual, stack, maker, first, deps, obj, t.wires, i);
    GrownTransitive(c.bindings, below, s, t, u);
    NewWiresAreCurrent(c.bindings, below, s, u, obj);
    hide Grown, IsMadeOf, Lookup, InnermostRedirect;
  }

  lemma PartIsRecorded(c: Config, contextual: Contextual, stack: seq<Name>, maker: string, first: seq<Object>, deps: seq<Name>,
      obj: Object, wires: set<Wire>, i: nat) returns (part: Object)
    requires IsMadeOf(c, contextual, stack, maker, first, deps, obj, wires)
    requires i < |deps| && !IsRedirected(contextual, stack, Key(c, deps[i]))
    ensures Wire(obj, Key(c, deps[i]), part) in wires
    ensures |first| + i < |obj.tree.parts| && obj.tree.parts[|first| + i] == part.tree
  {
    var parts :| |parts| == |deps| && obj.tree == Tree(maker, Trees(first + parts)) && WiresOf(c, contextual, stack, deps, obj, parts) <= wires;
    part := parts[i];
    assert (first + parts)[|first| + i] == part;
    assert Wire(obj, Key(c, deps[i]), part) in WiresOf(c, contextual, stack, deps, obj, parts);
  }

  lemma NewWiresAreCurrent(bindings: map<Name, Binding>, stack: seq<Name>, s: Caches, u: Caches, obj: Object)
    requires IsNumbered(s) && Grown(bindings, stack, s, u) && s.nextId <= obj.id
    ensures forall k, p :: Wire(obj, k, p) in u.wires ==> IsCurrent(bindings, u, k, p)
  {
  }

  /** Everything a run asks for may be visited. */
  ghost predicate Covers(v: View, cmds: seq<Command>)
    decreases cmds
  {
    forall i :: 0 <= i < |cmds| ==>
      match cmds[i]
      case Request(a) => v.visited([], Key(v.g.config, a))
      case Scope(body) => Covers(v, body)
  }

  class Container {
    var bindings: map<Name, Binding>
    var instances: map<Name, Object>
    var scopedInstances: map<Name, Object>
    var aliases: map<Name, Name>
    var contextual: Contextual
    var extenders: map<Name, seq<Extender>>
    /** The names with rebinding callbacks. */
    var rebindings: set<Name>
    var buildStack: seq<Name>
    var nextId: nat
    ghost var completions: multiset<Name>
    ghost var spoiled: multiset<Name>
    ghost var wires: set<Wire>

    constructor ()
      ensures bindings == map[] && aliases == map[] && contextual == map[] && extenders == map[]
      ensures Snapshot() == Caches(map[], map[], 0, multiset{}, multiset{}, {}) && buildStack == []
    {
      bindings, instances, scopedInstances, aliases := map[], map[], map[], map[];
      contextual, extenders, rebindings, buildStack := map[], map[], {}, [];
      nextId, completions, spoiled, wires := 0, multiset{}, multiset{}, {};
    }

    ghost function Snapshot(): Caches
      reads this
    {
      Caches(instances, scopedInstances, nextId, completions, spoiled, wires)
    }

    /** Transient, singleton and scoped registration. Objects cached under the name stay cached. */
    method Bind(abs: Name, concrete: Option<Concrete>, kind: BindingType)
      requires kind != INSTANCE
      modifies this`bindings
      ensures bindings == old(bindings)[abs := Binding(if concrete.Some? then concrete.value else Redirect(abs), kind)]
    {
      bindings := bindings[abs := Binding(if concrete.None? then Redirect(abs) else concrete.value, kind)];
    }

    method Instance(abs: Name, obj: Object)
      modifies this`bindings, this`instances
      ensures bindings == old(bindings)[abs := Binding(Value(obj), INSTANCE)]
      ensures instances == old(instances)[abs := obj]
    {
      bindings := bindings[abs := Binding(Value(obj), INSTANCE)];
      instances := instances[abs := obj];
    }

    /** Replaces the binding and drops the cached instance of this name, and of no other. */
    method Override(abs: Name, concrete: Concrete)
      modifies this`bindings, this`instances
      ensures bindings == old(bindings)[abs := Binding(concrete, TRANSIENT)]
      ensures instances == old(instances) - {abs}
    {
      if abs in instances {
        instances := instances - {abs};
      }
      bindings := bindings[abs := Binding(concrete, TRANSIENT)];
    }

    /** Removes the binding, the cached instance and the aliases of this name. */
    method Forget(abs: Name)
      modifies this`bindings, this`instances, this`aliases
      ensures bindings == old(bindings) - {abs} && instances == old(instances) - {abs}
      ensures aliases == map k | k in old(aliases) && old(aliases)[k] != abs :: old(aliases)[k]
    {
      bindings := bindings - {abs};
      instances := instances - {abs};
      aliases := map k | k in aliases && aliases[k] != abs :: aliases[k];
    }

    method Alias(abs: Name, name: Name)
      modifies this`aliases
      ensures aliases == old(aliases)[name := abs]
    {
      aliases := aliases[name := abs];
    }

    method AddContextual(abs: Name, needs: Name, concrete: Concrete)
      modifies this`contextual
      ensures contextual == old(contextual)[abs := (if abs in old(contextual) then old(contextual)[abs] else map[])[needs := concrete]]
    {
      if abs !in contextual {
        contextual := contextual[abs := map[]];
      }
      contextual := contextual[abs := contextual[abs][needs := concrete]];
    }

    method Extend(abs: Name, e: Extender)
      modifies this`extenders
      ensures extenders == old(extenders)[abs := (if abs in old(extenders) then old(extenders)[abs] else []) + [e]]
    {
      extenders := extenders[abs := (if abs in extenders then extenders[abs] else []) + [e]];
    }

    method Rebinding(abs: Name)
      modifies this`rebindings
      ensures rebindings == old(rebindings) + {abs}
    {
      rebindings := rebindings + {abs};
    }

    /** Forgets everything except the rebinding callbacks and what is being built. */
    method Flush()
      modifies this`bindings, this`instances, this`scopedInstances, this`aliases, this`contextual, this`extenders
      ensures bindings == map[] && instances == map[] && scopedInstances == map[]
      ensures aliases == map[] && contextual == map[] && extenders == map[]
    {
      bindings, instances, scopedInstances := map[], map[], map[];
      aliases, contextual, extenders := map[], map[], map[];
    }

    ghost function Configuration(): Config
      reads this
    {
      Config(bindings, aliases, extenders)
    }

    ghost predicate Ready(v: View)
      reads this
    {
      && v.g.config == Configuration() && v.contextual == contextual
      && IsStack(buildStack, v.names)
      && (v.plain ==> Coherent(v.g, Snapshot()))
    }

    /** The same, once the cached instance of this name is gone. */
    ghost predicate ReadyWithout(v: View, abs: Name)
      reads this
    {
      && v.g.config == Configuration() && v.contextual == contextual
      && IsStack(buildStack, v.names)
      && (v.plain ==> Coherent(v.g, Snapshot().(instances := instances - {abs})))
    }

    /** Names not yet being built. */
    ghost function Room(v: View): set<Name>
      reads this
    {
      v.names - Elems(buildStack)
    }

    method ContextualConcrete(x: Name) returns (r: Option<Concrete>)
      ensures r == InnermostRedirect(contextual, buildStack, x) && (contextual == map[] ==> r.None?)
    {
      InnermostIsGiven(contextual, buildStack, x);
      var i := |buildStack|;
      assert buildStack[..i] == buildStack;
      while i > 0
        invariant 0 <= i <= |buildStack|
        invariant InnermostRedirect(contextual, buildStack, x) == InnermostRedirect(contextual, buildStack[..i], x)
      {
        i := i - 1;
        assert buildStack[..i + 1][..i] == buildStack[..i];
        if buildStack[i] in contextual && x in contextual[buildStack[i]] {
          return Some(contextual[buildStack[i]][x]);
        }
      }
      r := None;
    }

    // ---- Resolution ----------------------------------------------------

    method Make(a: Name, ghost v: View) returns (r: Made)
      requires Ready(v) && v.visited(buildStack, Key(Configuration(), a))
      requires v.plain ==> Continues(Succ(v.g), buildStack, Key(Configuration(), a))
      modifies this`instances, this`scopedInstances, this`buildStack, this`nextId, this`completions, this`spoiled, this`wires
      ensures buildStack == old(buildStack)
      ensures Ready(v)
      ensures Grown(bindings, buildStack, old(Snapshot()), Snapshot())
      ensures v.plain ==> IsAnswer(v.g, buildStack, Key(Configuration(), a), r)
      ensures r.Success? && !IsRedirected(contextual, buildStack, Key(Configuration(), a)) ==>
                && IsShared(bindings, Snapshot(), Key(Configuration(), a), r.value)
                && IsNewObject(Configuration(), contextual, buildStack, old(Snapshot()), Snapshot(), Key(Configuration(), a), r.value)
      ensures r.Failure? && buildStack == [] ==> Lookup(Snapshot(), Key(Configuration(), a)).None?
      ensures SpoilsOnly(v.g, v.plain, old(spoiled), spoiled, if r.Success? then 0 else 1)
      ensures v.plain && Key(Configuration(), a) !in buildStack ==> SpoilsIfExpected(v.g, bindings, old(Snapshot()), Snapshot(), Key(Configuration(), a))
      ensures Key(Configuration(), a) !in buildStack && !IsRedirected(contextual, buildStack, Key(Configuration(), a)) ==>
                ReturnsCached(old(Snapshot()), Snapshot(), Key(Configuration(), a), r)
      ensures Key(Configuration(), a) !in buildStack && IsRedirected(contextual, buildStack, Key(Configuration(), a)) ==>
                IsMadeBy(Configuration(), contextual, buildStack,
                         InnermostRedirect(contextual, buildStack, Key(Configuration(), a)).value, old(Snapshot()), Snapshot(), r)
      decreases Room(v), v.rank(buildStack, Key(Configuration(), a)), 2
    {
      var key := if a in aliases then aliases[a] else a;
      if key in buildStack {
        if v.plain {
          RepeatOnStack(v.g, buildStack, key);
        }
        return Failure(CircularDependency(buildStack + [key]));
      }
      if buildStack != [] {
        var redirect := ContextualConcrete(key);
        if redirect.Some? && IsTruthy(redirect.value) {
          r := Build(redirect.value, v, v.rank(buildStack, key));
          return;
        }
      }
      r := ResolveOnStack(key, v);
    }

    /** Resolves a name that is not on the stack, keeping it there meanwhile. */
    method ResolveOnStack(key: Name, ghost v: View) returns (r: Made)
      requires Ready(v) && v.visited(buildStack, key) && key !in buildStack && !IsRedirected(contextual, buildStack, key)
      requires v.plain ==> Continues(Succ(v.g), buildStack, key)
      modifies this`instances, this`scopedInstances, this`buildStack, this`nextId, this`completions, this`spoiled, this`wires
      ensures buildStack == old(buildStack)
      ensures Ready(v)
      ensures Grown(bindings, buildStack, old(Snapshot()), Snapshot())
      ensures v.plain ==> IsAnswer(v.g, buildStack, key, r)
      ensures r.Success? ==> IsShared(bindings, Snapshot(), key, r.value)
      ensures r.Success? ==> IsNewObject(Configuration(), contextual, buildStack, old(Snapshot()), Snapshot(), key, r.value)
      ensures r.Failure? ==> Lookup(Snapshot(), key).None?
      ensures SpoilsOnly(v.g, v.plain, old(spoiled), spoiled, if r.Success? then 0 else 1)
      ensures v.plain ==> SpoilsIfExpected(v.g, bindings, old(Snapshot()), Snapshot(), key)
      ensures ReturnsCached(old(Snapshot()), Snapshot(), key, r)
      decreases Room(v), v.rank(buildStack, key), 1
    {
      hide Coherent, Grown, IsAnswer, IsShared, IsNewObject, IsStack, Lookup, ReturnsCached;
      ghost var below := buildStack;
      if v.plain {
        ContinuesIsPath(Succ(v.g), buildStack, key);
      }
      PushIsStack(v.names, buildStack, key);
      buildStack := buildStack + [key];
      assert buildStack[..|buildStack| - 1] == below;
      r := Resolve(key, v);
      buildStack := buildStack[..|buildStack| - 1];
      assert buildStack == below;
    }

    /** Builds the name on top of the stack, or finds it in a cache. */
    method Resolve(x: Name, ghost v: View) returns (r: Made)
      requires Ready(v) && buildStack != [] && buildStack[|buildStack| - 1] == x
      requires v.MayMake(buildStack, Deps(v.g.config, x), v.bound(buildStack))
      requires v.plain ==> IsPath(Succ(v.g), buildStack)
      modifies this`instances, this`scopedInstances, this`buildStack, this`nextId, this`completions, this`spoiled, this`wires
      ensures buildStack == old(buildStack)
      ensures Ready(v)
      ensures Grown(bindings, buildStack[..|buildStack| - 1], old(Snapshot()), Snapshot())
      ensures v.plain ==> IsAnswer(v.g, buildStack[..|buildStack| - 1], x, r)
      ensures r.Success? ==> IsShared(bindings, Snapshot(), x, r.value)
      ensures r.Success? ==> IsNewObject(Configuration(), contextual, buildStack[..|buildStack| - 1], old(Snapshot()), Snapshot(), x, r.value)
      ensures r.Failure? ==> Lookup(Snapshot(), x).None?
      ensures SpoilsOnly(v.g, v.plain, old(spoiled), spoiled, if r.Success? then 0 else 1)
      ensures v.plain ==> SpoilsIfExpected(v.g, bindings, old(Snapshot()), Snapshot(), x)
      ensures ReturnsCached(old(Snapshot()), Snapshot(), x, r)
      decreases Room(v), v.bound(buildStack), 5
    {
      hide Coherent, Grown, IsAnswer, IsWhole, SpoilsOnly, IsSpoiling, Counted, Stored, IsShared, IsNewObject, IsPath, MakesNew, Deps;
      hide Plan.Fits, Plan.FitsAt, Plan.MayMake, Plan.Follow;
      SpoilsNothing(v.g, v.plain, spoiled);
      ghost var below, start := buildStack[..|buildStack| - 1], Snapshot();
      GrownReflexive(bindings, below, start);
      if Lookup(start, x).Some? {
        CachedIsShared(Configuration(), contextual, below, start, x);
        if v.plain {
          CachedIsAnswer(v.g, below, start, x);
        }
      }
      assert below + [x] == buildStack;
      if x in instances {
        return Success(instances[x]);
      }
      if x in scopedInstances {
        return Success(scopedInstances[x]);
      }
      ghost var built: bool;
      ghost var quiet: Caches;
      r, built, quiet := Construct(x, v);
      if r.Success? {
        BuiltAnew(Configuration(), contextual, below, start, quiet, Snapshot(), x, r.value);
        if v.plain {
          AnswerYields(v.g, below, x, r.value);
          StoredIsCoherent(v.g, bindings, Snapshot(), x, r.value);
          SpoilingFails(v.g, below, x, r);
        }
        Store(x, r.value);
      } else {
        FailedAnew(bindings, below, start, quiet, Snapshot(), x, built);
      }
    }

    /** Keeps a newly built singleton or scoped object. */
    method Store(x: Name, obj: Object)
      modifies this`instances, this`scopedInstances
      ensures Snapshot() == Stored(bindings, old(Snapshot()), x, obj)
    {
      if x in bindings {
        match bindings[x].bindingType {
          case SINGLETON =>
            instances := instances[x := obj];
          case SCOPED =>
            scopedInstances := scopedInstances[x := obj];
          case _ =>
        }
      }
    }

    /** Builds the uncached name on top of the stack and applies its extenders. */
    method Construct(x: Name, ghost v: View) returns (r: Made, ghost built: bool, ghost quiet: Caches)
      requires Ready(v) && buildStack != [] && buildStack[|buildStack| - 1] == x && Lookup(Snapshot(), x).None?
      requires v.MayMake(buildStack, Deps(v.g.config, x), v.bound(buildStack))
      requires v.plain ==> IsPath(Succ(v.g), buildStack)
      modifies this`instances, this`scopedInstances, this`buildStack, this`nextId, this`completions, this`spoiled, this`wires
      ensures buildStack == old(buildStack)
      ensures Ready(v)
      ensures Grown(bindings, buildStack, old(Snapshot()), quiet) && (r.Success? ==> built)
      ensures Snapshot() == if built then Counted(bindings, quiet, x, r.Success?) else quiet
      ensures v.plain ==> IsAnswer(v.g, buildStack[..|buildStack| - 1], x, r)
      ensures r.Success? && MakesNew(Configuration(), x) ==>
                old(nextId) <= r.value.id < nextId && IsWhole(Configuration(), contextual, buildStack, x, r.value, wires)
      ensures SpoilsOnly(v.g, v.plain, old(spoiled), spoiled, if r.Success? then 0 else 1)
      ensures v.plain && IsSingle(bindings, x) && IsSpoiling(v.g, x) ==> built && r.Failure?
      decreases Room(v), v.bound(buildStack), 4
    {
      hide Coherent, IsStack, IsAnswer, ConcreteFails, SomeExtenderFails, Lookup, Grown, IsMadeOf, IsWhole, YieldsConcrete, YieldsExtended;
      hide SpoilsOnly, IsSpoiling, CoreBuilds, Buildable, Counted, Plan.Fits, Plan.FitsAt, Plan.MayMake, Plan.Follow, ExtendersOf, Deps;
      hide ConcreteOf, CoreDeps, ExtenderDeps, IsPath, Continues, Key;
      var config := Config(bindings, aliases, extenders);
      DepsOfTop(v, buildStack, Snapshot(), x);
      r := Build(ConcreteOf(config, x), v, v.bound(buildStack));
      ghost var middle := Snapshot();
      built, quiet := r.Success?, middle;
      if r.Failure? {
        if v.plain {
          CoreFailureIsAnswer(v.g, buildStack, x, r.error);
        }
        return;
      }
      ghost var core := r.value;
      r, quiet := ExtendBuilt(x, r.value, v);
      GrownTransitive(bindings, buildStack, old(Snapshot()), middle, quiet);
      SpoilsThen(v.g, v.plain, old(spoiled), middle.spoiled, spoiled, 0, if r.Success? then 0 else 1);
      if r.Success? && MakesNew(config, x) && ExtendersOf(config, x) == [] {
        CoreIsWhole(config, contextual, buildStack, x, core, middle.wires, wires);
      }
    }

    /** Counts that the right-hand side of the name on top of the stack ran to its end, and applies the
        extenders to its result. */
    method ExtendBuilt(x: Name, core: Object, ghost v: View) returns (r: Made, ghost quiet: Caches)
      requires Ready(v) && buildStack != [] && buildStack[|buildStack| - 1] == x
      requires v.MayMake(buildStack, ExtenderDeps(ExtendersOf(v.g.config, x)), v.bound(buildStack)) && v.Follow(buildStack, ExtenderDeps(ExtendersOf(v.g.config, x)))
      requires v.plain ==> YieldsConcrete(v.g, ConcreteOf(v.g.config, x), core.tree) && x !in v.g.base
      modifies this`instances, this`scopedInstances, this`buildStack, this`nextId, this`completions, this`spoiled, this`wires
      ensures buildStack == old(buildStack)
      ensures Ready(v)
      ensures Grown(bindings, buildStack, old(Snapshot()), quiet) && Snapshot() == Counted(bindings, quiet, x, r.Success?)
      ensures v.plain ==> IsAnswer(v.g, buildStack[..|buildStack| - 1], x, r) && (r.Failure? <==> IsSpoiling(v.g, x))
      ensures old(nextId) <= nextId && old(wires) <= wires
      ensures r.Success? ==> if ExtendersOf(Configuration(), x) == [] then r.value == core
                else old(nextId) <= r.value.id < nextId && IsWhole(Configuration(), contextual, buildStack, x, r.value, wires)
      ensures SpoilsOnly(v.g, v.plain, old(spoiled), spoiled, if r.Success? then 0 else 1)
      decreases Room(v), v.bound(buildStack), 3
    {
      hide Coherent, IsStack, IsAnswer, ConcreteFails, SomeExtenderFails, Lookup, Grown, IsMadeOf, IsWhole, YieldsConcrete, YieldsExtended;
      hide SpoilsOnly, IsSpoiling, CoreBuilds, Buildable, ConcreteOf, CoreDeps, ExtenderDeps, IsPath, Continues, Key, Plan.Fits, Plan.FitsAt;
      ghost var middle := Snapshot();
      if IsSingle(bindings, x) {
        completions := completions + multiset{x};
      }
      assert Snapshot() == Counted(bindings, middle, x, true);
      CountedIsCoherent(v, middle, Snapshot());
      r := Success(core);
      GrownReflexive(bindings, buildStack, Snapshot());
      SpoilsNothing(v.g, v.plain, spoiled);
      if x in bindings {
        r := ApplyExtenders(x, core, v);
      }
      ghost var end := Snapshot();
      quiet := BuildIsCounted(bindings, buildStack, middle, end, x);
      if v.plain {
        ConstructedIsAnswer(v.g, buildStack, x, core, r);
      }
      if r.Failure? {
        SpoilsItself(v.g, v.plain, old(spoiled), spoiled, x);
        if IsSingle(bindings, x) {
          spoiled := spoiled + multiset{x};
        }
        CountedIsCoherent(v, end, Snapshot());
      }
    }

    /** Runs the right-hand side of a binding or of a redirect. */
    method Build(con: Concrete, ghost v: View, ghost limit: nat) returns (r: Made)
      requires Ready(v) && v.MayMake(buildStack, CoreDeps(v.g.config, con), limit) && v.Follow(buildStack, CoreDeps(v.g.config, con))
      modifies this`instances, this`scopedInstances, this`buildStack, this`nextId, this`completions, this`spoiled, this`wires
      ensures buildStack == old(buildStack)
      ensures Ready(v)
      ensures Grown(bindings, buildStack, old(Snapshot()), Snapshot())
      ensures r.Success? && (con.Factory? || con.Class?) ==>
                && old(nextId) <= r.value.id < nextId
                && IsMadeOf(Configuration(), contextual, buildStack, Label(con), [], CoreDeps(Configuration(), con), r.value, wires)
      ensures v.plain && r.Success? ==> YieldsConcrete(v.g, con, r.value.tree)
      ensures v.plain && r.Failure? ==> ConcreteFails(v.g, buildStack, con, r.error)
      ensures SpoilsOnly(v.g, v.plain, old(spoiled), spoiled, if r.Success? then 0 else 1)
      ensures IsMadeBy(Configuration(), contextual, buildStack, con, old(Snapshot()), Snapshot(), r)
      decreases Room(v), limit, 1
    {
      hide Coherent, Grown, IsMadeOf, AreCurrent, IsStack, IsRaiseError, SpoilsOnly, Plan.Fits, Plan.FitsAt;
      var config := Config(bindings, aliases, extenders);
      var made := MakeAll(CoreDeps(config, con), v, limit);
      ghost var middle := Snapshot();
      GrownOnly(bindings, buildStack, old(Snapshot()), middle);
      if made.Failure? {
        return Failure(made.error);
      }
      if CoreRaises(config, con) {
        SpoilsWithin(v.g, v.plain, old(spoiled), spoiled);
        return Failure(Raised(Label(con)));
      }
      match con {
        case Redirect(target) =>
          r := Success(made.value[0]);
          OneIsCurrent(config, contextual, buildStack, Snapshot(), target, made.value);
        case Value(obj) => r := Success(obj);
        case _ =>
          var obj := Object(nextId, Tree(Label(con), Trees(made.value)));
          assert [] + made.value == made.value;
          Finish(obj, [], CoreDeps(config, con), made.value, v);
          GrownTransitive(bindings, buildStack, old(Snapshot()), middle, Snapshot());
          r := Success(obj);
      }
      if v.plain {
        YieldsConcreteFromNames(v.g, con, Trees(made.value), r.value.tree);
      }
    }

    /** Counts a new object and records its parts. */
    method Finish(obj: Object, ghost first: seq<Object>, ghost deps: seq<Name>, ghost parts: seq<Object>, ghost v: View)
      requires Ready(v) && AreCurrent(Configuration(), contextual, buildStack, Snapshot(), deps, parts)
      requires obj.id == nextId && obj.tree.parts == Trees(first + parts)
      modifies this`nextId, this`wires
      ensures Ready(v) && nextId == old(nextId) + 1
      ensures Grown(bindings, buildStack, old(Snapshot()), Snapshot())
      ensures IsMadeOf(Configuration(), contextual, buildStack, obj.tree.maker, first, deps, obj, wires)
    {
      hide IsStack;
      ghost var given := WiresOf(Configuration(), contextual, buildStack, deps, obj, parts);
      wires := wires + given;
      nextId := nextId + 1;
      assert WiresOf(Configuration(), contextual, buildStack, deps, obj, parts) <= wires;
    }

    method MakeAll(deps: seq<Name>, ghost v: View, ghost limit: nat) returns (r: Result<seq<Object>, Error>)
      requires Ready(v) && v.MayMake(buildStack, deps, limit) && v.Follow(buildStack, deps)
      modifies this`instances, this`scopedInstances, this`buildStack, this`nextId, this`completions, this`spoiled, this`wires
      ensures buildStack == old(buildStack)
      ensures Ready(v)
      ensures Grown(bindings, buildStack, old(Snapshot()), Snapshot())
      ensures r.Success? ==> |r.value| == |deps| && AreCurrent(Configuration(), contextual, buildStack, Snapshot(), deps, r.value)
      ensures v.plain ==> AreAnswers(v.g, buildStack, deps, r)
      ensures SpoilsOnly(v.g, v.plain, old(spoiled), spoiled, if r.Success? then 0 else 1)
      ensures deps == [] ==> r.Success?
      decreases Room(v), limit, 0
    {
      hide Coherent, Grown, IsAnswer, SomeUnbuildable, IsRaiseError, IsCycleError, SpoilsOnly, SpoilsIfExpected, AreCurrent, YieldsNames;
      hide Plan.Fits, Plan.FitsAt, Plan.MayMake, Plan.Follow, Key, Trees, IsShared, IsNewObject, IsRedirected, IsStack, Lookup, Continues;
      hide AreAnswers, ReturnsCached, IsMadeBy;
      ghost var start := Snapshot();
      SpoilsNothing(v.g, v.plain, spoiled);
      GrownReflexive(bindings, buildStack, start);
      NothingYet(v.g, contextual, buildStack, start, deps);
      var objs: seq<Object> := [];
      for i := 0 to |deps|
        invariant buildStack == old(buildStack) && Ready(v)
        invariant Grown(bindings, buildStack, start, Snapshot())
        invariant SpoilsOnly(v.g, v.plain, start.spoiled, spoiled, 0)
        invariant |objs| == i && AreCurrent(Configuration(), contextual, buildStack, Snapshot(), deps[..i], objs)
        invariant v.plain ==> YieldsNames(v.g, deps[..i], Trees(objs))
      {
        ghost var before := Snapshot();
        MayMakeEach(v, buildStack, deps, limit, i);
        var next := Make(deps[i], v);
        SpoilsThen(v.g, v.plain, start.spoiled, before.spoiled, spoiled, 0, if next.Success? then 0 else 1);
        GrownTransitive(bindings, buildStack, start, before, Snapshot());
        if next.Failure? {
          if v.plain {
            DepFails(v.g, buildStack, deps, i, next.error);
          }
          return Failure(next.error);
        }
        if v.plain {
          AnswerYields(v.g, buildStack, Key(v.g.config, deps[i]), next.value);
          YieldsNextName(v.g, deps, i, objs, next.value);
        }
        NextIsCurrent(Configuration(), contextual, buildStack, before, Snapshot(), deps, i, objs, next.value);
        objs := objs + [next.value];
      }
      assert deps[..|deps|] == deps;
      if v.plain {
        AllAreAnswers(v.g, buildStack, deps, objs);
      }
      r := Success(objs);
    }

    method ApplyExtender(e: Extender, obj: Object, ghost v: View) returns (r: Made, ghost parts: seq<Tree>)
      requires Ready(v) && v.MayMake(buildStack, e.deps, v.bound(buildStack)) && v.Follow(buildStack, e.deps)
      modifies this`instances, this`scopedInstances, this`buildStack, this`nextId, this`completions, this`spoiled, this`wires
      ensures buildStack == old(buildStack)
      ensures Ready(v)
      ensures Grown(bindings, buildStack, old(Snapshot()), Snapshot())
      ensures r.Success? ==> IsMadeOf(Configuration(), contextual, buildStack, e.maker, [obj], e.deps, r.value, wires)
      ensures r.Success? ==> !e.raises && old(nextId) <= r.value.id < nextId && r.value.tree == Tree(e.maker, [obj.tree] + parts)
      ensures v.plain && r.Success? ==> YieldsNames(v.g, e.deps, parts)
      ensures v.plain && r.Failure? ==> ExtenderFails(v.g, buildStack, e, r.error)
      ensures SpoilsOnly(v.g, v.plain, old(spoiled), spoiled, if r.Success? then 0 else 1)
      decreases Room(v), v.bound(buildStack), 1
    {
      hide Coherent, Grown, IsMadeOf, AreCurrent, IsStack, IsRaiseError, SpoilsOnly, Plan.Fits, Plan.FitsAt;
      parts := [];
      var made := MakeAll(e.deps, v, v.bound(buildStack));
      ghost var middle := Snapshot();
      GrownOnly(bindings, buildStack, old(Snapshot()), middle);
      if made.Failure? {
        return Failure(made.error), parts;
      }
      if e.raises {
        SpoilsWithin(v.g, v.plain, old(spoiled), spoiled);
        return Failure(Raised(e.maker)), parts;
      }
      parts := Trees(made.value);
      var whole := Object(nextId, Tree(e.maker, [obj.tree] + Trees(made.value)));
      assert Trees([obj] + made.value) == whole.tree.parts;
      Finish(whole, [obj], e.deps, made.value, v);
      GrownTransitive(bindings, buildStack, old(Snapshot()), middle, Snapshot());
      r := Success(whole);
    }

    /** Wraps a new object by the extenders of x, in order of registration. */
    method ApplyExtenders(x: Name, obj: Object, ghost v: View) returns (r: Made)
      requires Ready(v) && x in bindings
      requires v.MayMake(buildStack, ExtenderDeps(ExtendersOf(v.g.config, x)), v.bound(buildStack)) && v.Follow(buildStack, ExtenderDeps(ExtendersOf(v.g.config, x)))
      modifies this`instances, this`scopedInstances, this`buildStack, this`nextId, this`completions, this`spoiled, this`wires
      ensures buildStack == old(buildStack)
      ensures Ready(v)
      ensures Grown(bindings, buildStack, old(Snapshot()), Snapshot())
      ensures r.Success? && ExtendersOf(Configuration(), x) == [] ==> r.value == obj
      ensures r.Success? && ExtendersOf(Configuration(), x) != [] ==>
                old(nextId) <= r.value.id < nextId && IsWhole(Configuration(), contextual, buildStack, x, r.value, wires)
      ensures v.plain && r.Success? ==> YieldsExtended(v.g, ExtendersOf(v.g.config, x), obj.tree, r.value.tree)
      ensures v.plain && r.Failure? ==> SomeExtenderFails(v.g, buildStack, ExtendersOf(v.g.config, x), r.error)
      ensures SpoilsOnly(v.g, v.plain, old(spoiled), spoiled, if r.Success? then 0 else 1)
      ensures r.Failure? ==> ExtendersOf(Configuration(), x) != []
      decreases Room(v), v.bound(buildStack), 2
    {
      hide Coherent, ExtenderFails, Grown, IsMadeOf, IsStack, SpoilsOnly, Plan.Fits, Plan.FitsAt;
      SpoilsNothing(v.g, v.plain, spoiled);
      var exts := if x in extenders then extenders[x] else [];
      var instance := obj;
      ghost var start := Snapshot();
      GrownReflexive(bindings, buildStack, start);
      assert EvalExtenders(v.g, 0, exts[..0], obj.tree) == Some(obj.tree);
      for i := 0 to |exts|
        invariant buildStack == old(buildStack) && Ready(v)
        invariant Grown(bindings, buildStack, start, Snapshot())
        invariant SpoilsOnly(v.g, v.plain, old(spoiled), spoiled, 0)
        invariant if i == 0 then instance == obj else old(nextId) <= instance.id < nextId
        invariant i > 0 ==> exists core :: IsMadeOf(Configuration(), contextual, buildStack, exts[i - 1].maker, [core], exts[i - 1].deps, instance, wires)
        invariant v.plain ==> YieldsExtended(v.g, exts[..i], obj.tree, instance.tree)
      {
        ghost var before := Snapshot();
        DepsOfExtender(exts, i);
        ghost var parts: seq<Tree>;
        r, parts := ApplyExtender(exts[i], instance, v);
        SpoilsThen(v.g, v.plain, old(spoiled), before.spoiled, spoiled, 0, if r.Success? then 0 else 1);
        GrownTransitive(bindings, buildStack, start, before, Snapshot());
        GrownOnly(bindings, buildStack, start, before);
        if r.Failure? {
          return;
        }
        if v.plain {
          assert exts[..i] + [exts[i]] == exts[..i + 1];
          YieldsExtendedAppend(v.g, exts[..i], obj.tree, instance.tree, exts[i], parts);
        }
        instance := r.value;
      }
      assert exts[..|exts|] == exts;
      r := Success(instance);
    }

    /** Drops the cached instance; a name with rebinding callbacks is made again at once, as if it had
        never been cached. */
    method Fresh(abs: Name, ghost v: View) returns (r: Option<Made>)
      requires abs in rebindings ==> ReadyWithout(v, abs) && v.visited(buildStack, Key(Configuration(), abs))
      requires abs in rebindings && v.plain ==> Continues(Succ(v.g), buildStack, Key(Configuration(), abs))
      modifies this`instances, this`scopedInstances, this`buildStack, this`nextId, this`completions, this`spoiled, this`wires
      ensures buildStack == old(buildStack) && (abs in rebindings ==> Ready(v))
      ensures r.Some? <==> abs in rebindings
      ensures var dropped := old(Snapshot()).(instances := old(instances) - {abs});
        && (r.None? ==> Snapshot() == dropped)
        && (r.Some? ==> Grown(bindings, buildStack, dropped, Snapshot()))
        && (r.Some? && r.value.Success? && !IsRedirected(contextual, buildStack, Key(Configuration(), abs)) ==>
              && IsShared(bindings, Snapshot(), Key(Configuration(), abs), r.value.value)
              && IsNewObject(Configuration(), contextual, buildStack, dropped, Snapshot(), Key(Configuration(), abs), r.value.value))
        && (r.Some? && buildStack == [] ==> ReturnsCached(dropped, Snapshot(), Key(Configuration(), abs), r.value))
      ensures r.Some? && v.plain ==> IsAnswer(v.g, buildStack, Key(Configuration(), abs), r.value)
      ensures SpoilsOnly(v.g, v.plain, old(spoiled), spoiled, if r.Some? && r.value.Failure? then 1 else 0)
    {
      ghost var start := Snapshot();
      if abs in instances {
        instances := instances - {abs};
      }
      assert Snapshot() == start.(instances := start.instances - {abs});
      r := None;
      if abs in rebindings {
        var made := Make(abs, v);
        r := Some(made);
      }
    }

    // ---- Scopes --------------------------------------------------------

    /** Runs the commands in a scope of their own and restores the enclosing scoped cache. */
    method RunScope(cmds: seq<Command>, ghost v: View) returns (scoped: map<Name, Object>, outs: seq<Outcome>)
      requires CanRun(cmds, v)
      modifies this`instances, this`scopedInstances, this`buildStack, this`nextId, this`completions, this`spoiled, this`wires
      ensures CanRun([], v)
      ensures scopedInstances == old(scopedInstances)
      ensures Grown(bindings, [], old(Snapshot()), Snapshot())
      ensures IsFaithful(v.g, v.plain, Snapshot().(scoped := scoped), cmds, outs)
      ensures SpoilsOnly(v.g, v.plain, old(spoiled), spoiled, Failures(outs))
      decreases cmds, 2
    {
      hide Coherent, IsPlainly, Grown, Tidy, IsFaithful, Covers, SpoilsOnly, Failures;
      ghost var start := Snapshot();
      var previous := scopedInstances;
      scopedInstances := map[];
      ScopeBegins(v.plain, v.g, bindings, start);
      outs := Run(cmds, v);
      scoped := scopedInstances;
      ghost var end := Snapshot();
      scopedInstances := previous;
      ScopeEnds(v.plain, v.g, bindings, start, end);
      assert Snapshot().(scoped := scoped) == end && Snapshot() == end.(scoped := start.scoped);
    }

    method Run(cmds: seq<Command>, ghost v: View) returns (outs: seq<Outcome>)
      requires CanRun(cmds, v)
      modifies this`instances, this`scopedInstances, this`buildStack, this`nextId, this`completions, this`spoiled, this`wires
      ensures CanRun([], v)
      ensures Grown(bindings, [], old(Snapshot()), Snapshot())
      ensures IsFaithful(v.g, v.plain, Snapshot(), cmds, outs)
      ensures SpoilsOnly(v.g, v.plain, old(spoiled), spoiled, Failures(outs))
      decreases cmds, 1
    {
      hide Coherent, Grown, Tidy, SpoilsOnly, Plan.Fits, Plan.FitsAt, IsAnswer, IsShared;
      ghost var start := Snapshot();
      SpoilsNothing(v.g, v.plain, spoiled);
      GrownReflexive(bindings, [], start);
      outs := [];
      assert Failures(outs) == 0 && IsFaithful(v.g, v.plain, Snapshot(), cmds[..0], outs) && Covers(v, []);
      hide Failures, IsFaithful, IsPlainly, Covers;
      for i := 0 to |cmds|
        invariant CanRun([], v)
        invariant Grown(bindings, [], start, Snapshot())
        invariant IsFaithful(v.g, v.plain, Snapshot(), cmds[..i], outs)
        invariant SpoilsOnly(v.g, v.plain, start.spoiled, spoiled, Failures(outs))
      {
        ghost var before := Snapshot();
        CoversEach(v, cmds, i);
        var out := RunCommand(cmds[i], v);
        SpoilsThen(v.g, v.plain, start.spoiled, before.spoiled, spoiled, Failures(outs), Failures([out]));
        FailuresNext(outs, out);
        GrownTransitive(bindings, [], start, before, Snapshot());
        FaithfulNext(v.g, v.plain, before, Snapshot(), cmds, i, outs, out);
        outs := outs + [out];
      }
      assert cmds[..|cmds|] == cmds;
    }

    method RunCommand(cmd: Command, ghost v: View) returns (out: Outcome)
      requires CanRun([cmd], v)
      modifies this`instances, this`scopedInstances, this`buildStack, this`nextId, this`completions, this`spoiled, this`wires
      ensures CanRun([], v)
      ensures Grown(bindings, [], old(Snapshot()), Snapshot())
      ensures IsFaithful(v.g, v.plain, Snapshot(), [cmd], [out])
      ensures SpoilsOnly(v.g, v.plain, old(spoiled), spoiled, Failures([out]))
      decreases cmd
    {
      ghost var start := Snapshot();
      hide SpoilsOnly;
      assert [cmd][0] == cmd && Elems(buildStack) == {};
      match cmd {
        case Request(a) =>
          var made := Make(a, v);
          out := Answer(made);
        case Scope(body) =>
          var scoped, inner := RunScope(body, v);
          out := Inside(scoped, inner);
      }
      FailuresOfOne(out);
      TidyStays(bindings, start, Snapshot());
    }

    /** A caller that tries again and again: if the extenders of a singleton break after its right-hand
        side ran to its end, that happens every time. */
    method MakeRepeatedly(a: Name, n: nat, ghost v: View)
      requires Ready(v) && buildStack == [] && v.plain && v.visited([], Key(Configuration(), a))
      requires Lookup(Snapshot(), Key(Configuration(), a)).None?
      requires IsSingle(bindings, Key(Configuration(), a)) && IsSpoiling(v.g, Key(Configuration(), a))
      modifies this`instances, this`scopedInstances, this`buildStack, this`nextId, this`completions, this`spoiled, this`wires
      ensures completions[Key(Configuration(), a)] == old(completions)[Key(Configuration(), a)] + n
      ensures Lookup(Snapshot(), Key(Configuration(), a)).None?
    {
      hide Coherent, Grown, IsAnswer, IsShared, IsNewObject, IsSpoiling;
      ghost var x := Key(Configuration(), a);
      for i := 0 to n
        invariant buildStack == [] && Ready(v) && Lookup(Snapshot(), x).None?
        invariant completions[x] == old(completions)[x] + i
      {
        ghost var before := Snapshot();
        var made := Make(a, v);
        SpoilingFails(v.g, [], x, made);
        SpoiledCompletes(bindings, before, Snapshot(), x);
      }
    }

    /** Nothing is being built, and the view fits the container and covers all names asked for. */
    ghost predicate CanRun(cmds: seq<Command>, v: View)
      reads this
    {
      && v.g.config == Configuration() && v.contextual == contextual && buildStack == []
      && Tidy(bindings, Snapshot()) && IsPlainly(v.plain, v.g, Snapshot())
      && Covers(v, cmds)
    }
  }

  lemma MayMakeEach(v: View, stack: seq<Name>, deps: seq<Name>, limit: nat, i: nat)
    requires v.MayMake(stack, deps, limit) && v.Follow(stack, deps) && i < |deps|
    ensures var y := Key(v.g.config, deps[i]);
      v.visited(stack, y) && v.rank(stack, y) < limit && (v.plain ==> Continues(Succ(v.g), stack, y))
  {
    assert Key(v.g.config, deps[i]) in Keys(v.g.config, deps);
  }

  lemma NothingYet(g: Graph, contextual: Contextual, stack: seq<Name>, s: Caches, deps: seq<Name>)
    ensures AreCurrent(g.config, contextual, stack, s, deps[..0], [])
    ensures YieldsNames(g, deps[..0], Trees([]))
  {
    assert Trees([]) == [] && EvalNames(g, 0, deps[..0]) == Some([]);
  }

  lemma YieldsNextName(g: Graph, deps: seq<Name>, i: nat, objs: seq<Object>, next: Object)
    requires i < |deps| && YieldsNames(g, deps[..i], Trees(objs)) && Yields(g, Key(g.config, deps[i]), next.tree)
    ensures YieldsNames(g, deps[..i + 1], Trees(objs + [next]))
  {
    YieldsNamesAppend(g, deps[..i], Trees(objs), deps[i], next.tree);
    assert deps[..i] + [deps[i]] == deps[..i + 1];
    assert Trees(objs) + [next.tree] == Trees(objs + [next]);
  }

  /** A singleton that was given stays the one to be given. */
  lemma CurrentStays(bindings: map<Name, Binding>, stack: seq<Name>, s: Caches, t: Caches, x: Name, obj: Object)
    requires Grown(bindings, stack, s, t) && IsCurrent(bindings, s, x, obj)
    ensures IsCurrent(bindings, t, x, obj)
  {
  }

  lemma OneIsCurrent(c: Config, contextual: Contextual, stack: seq<Name>, s: Caches, d: Name, objs: seq<Object>)
    requires AreCurrent(c, contextual, stack, s, [d], objs)
    ensures !IsRedirected(contextual, stack, Key(c, d)) ==> IsCurrent(c.bindings, s, Key(c, d), objs[0])
  {
    assert [d][0] == d;
  }

  lemma NextIsCurrent(c: Config, contextual: Contextual, stack: seq<Name>, s: Caches, t: Caches,
      deps: seq<Name>, i: nat, objs: seq<Object>, next: Object)
    requires i < |deps| && Grown(c.bindings, stack, s, t) && AreCurrent(c, contextual, stack, s, deps[..i], objs)
    requires !IsRedirected(contextual, stack, Key(c, deps[i])) ==> IsShared(c.bindings, t, Key(c, deps[i]), next)
    ensures AreCurrent(c, contextual, stack, t, deps[..i + 1], objs + [next])
  {
    hide Grown, Lookup;
    forall j | 0 <= j <= i && !IsRedirected(contextual, stack, Key(c, deps[j]))
      ensures IsCurrent(c.bindings, t, Key(c, deps[j]), (objs + [next])[j])
    {
      if j < i {
        assert deps[..i][j] == deps[j];
        CurrentStays(c.bindings, stack, s, t, Key(c, deps[j]), objs[j]);
      }
    }
  }

  lemma PushIsStack(names: set<Name>, stack: seq<Name>, x: Name)
    requires IsStack(stack, names) && x in names && x !in stack
    ensures IsStack(stack + [x], names) && names - Elems(stack + [x]) < names - Elems(stack)
  {
    ElemsAppend(stack, [x]);
    assert x in Elems(stack + [x]) && x !in Elems(stack);
  }

  lemma CountedIsCoherent(v: View, s: Caches, t: Caches)
    requires s.instances == t.instances && s.scoped == t.scoped
    ensures Coherent(v.g, s) ==> Coherent(v.g, t)
  {
  }

  /** The caches after x's right-hand side, and after its extenders. */
  lemma BuildIsCounted(bindings: map<Name, Binding>, stack: seq<Name>, s: Caches, end: Caches, x: Name) returns (quiet: Caches)
    requires Grown(bindings, stack, Counted(bindings, s, x, true), end) && x in stack
    ensures Grown(bindings, stack, s, quiet) && end == Counted(bindings, quiet, x, true)
    ensures Counted(bindings, quiet, x, false) == if IsSingle(bindings, x) then end.(spoiled := end.spoiled + multiset{x}) else end
    ensures s.spoiled[x] == end.spoiled[x] && s.nextId <= end.nextId && s.wires <= end.wires
  {
    GrownOnly(bindings, stack, Counted(bindings, s, x, true), end);
    quiet := GrownUncounted(bindings, stack, s, end, x);
    SpoiledOffStack(bindings, stack, s, quiet, x);
    hide Grown;
  }

  lemma SpoiledOffStack(bindings: map<Name, Binding>, stack: seq<Name>, s: Caches, t: Caches, x: Name)
    requires Grown(bindings, stack, s, t) && x in stack
    ensures s.spoiled[x] == t.spoiled[x]
  {
  }

  lemma SpoilingFails(g: Graph, stack: seq<Name>, x: Name, r: Made)
    requires IsAnswer(g, stack, x, r)
    ensures IsSpoiling(g, x) ==> r.Failure?
  {
    if IsSpoiling(g, x) {
      SpoilingIsUnbuildable(g, x);
      YieldsExactlyBuildable(g, x);
    }
  }

  lemma CachedIsShared(c: Config, contextual: Contextual, stack: seq<Name>, s: Caches, x: Name)
    requires Lookup(s, x).Some?
    ensures IsShared(c.bindings, s, x, Lookup(s, x).value)
    ensures IsNewObject(c, contextual, stack, s, s, x, Lookup(s, x).value)
  {
  }

  lemma CachedIsAnswer(g: Graph, stack: seq<Name>, s: Caches, x: Name)
    requires Coherent(g, s) && Lookup(s, x).Some?
    ensures IsAnswer(g, stack, x, Success(Lookup(s, x).value))
  {
  }

  lemma CoreIsWhole(c: Config, contextual: Contextual, stack: seq<Name>, x: Name, obj: Object, s: set<Wire>, t: set<Wire>)
    requires var con := ConcreteOf(c, x); IsMadeOf(c, contextual, stack, Label(con), [], CoreDeps(c, con), obj, s)
    requires ExtendersOf(c, x) == [] && s <= t
    ensures IsWhole(c, contextual, stack, x, obj, t)
  {
    var con := ConcreteOf(c, x);
    var parts :| |parts| == |CoreDeps(c, con)| && obj.tree == Tree(Label(con), Trees([] + parts))
      && WiresOf(c, contextual, stack, CoreDeps(c, con), obj, parts) <= s;
    assert WiresOf(c, contextual, stack, CoreDeps(c, con), obj, parts) <= t;
  }

  /** What the name on top of the stack asks for may be made next. */
  lemma DepsOfTop(v: View, stack: seq<Name>, s: Caches, x: Name)
    requires stack != [] && stack[|stack| - 1] == x && v.MayMake(stack, Deps(v.g.config, x), v.bound(stack))
    requires v.plain ==> IsPath(Succ(v.g), stack) && Coherent(v.g, s) && Lookup(s, x).None?
    ensures v.plain ==> x !in v.g.base
    ensures v.MayMake(stack, CoreDeps(v.g.config, ConcreteOf(v.g.config, x)), v.bound(stack))
    ensures v.MayMake(stack, ExtenderDeps(ExtendersOf(v.g.config, x)), v.bound(stack))
    ensures v.Follow(stack, CoreDeps(v.g.config, ConcreteOf(v.g.config, x)))
    ensures v.Follow(stack, ExtenderDeps(ExtendersOf(v.g.config, x)))
  {
    var c := v.g.config;
    var core, ext := CoreDeps(c, ConcreteOf(c, x)), ExtenderDeps(ExtendersOf(c, x));
    assert Deps(c, x) == core + ext;
    assert Keys(c, core) <= Keys(c, Deps(c, x)) && Keys(c, ext) <= Keys(c, Deps(c, x));
  }

  lemma CoreFailureIsAnswer(g: Graph, stack: seq<Name>, x: Name, e: Error)
    requires stack != [] && stack[|stack| - 1] == x && x !in g.base && ConcreteFails(g, stack, ConcreteOf(g.config, x), e)
    ensures IsAnswer(g, stack[..|stack| - 1], x, Failure(e)) && !IsSpoiling(g, x)
  {
    PartFails(g, stack, x, e);
  }

  /** What the extenders of x make of the result of its right-hand side is the answer for x: it is a
      failure exactly if an extender breaks. */
  lemma ConstructedIsAnswer(g: Graph, stack: seq<Name>, x: Name, core: Object, r: Made)
    requires stack != [] && stack[|stack| - 1] == x && x !in g.base
    requires YieldsConcrete(g, ConcreteOf(g.config, x), core.tree)
    requires if x !in g.config.bindings then r == Success(core)
             else if r.Failure? then SomeExtenderFails(g, stack, ExtendersOf(g.config, x), r.error)
             else YieldsExtended(g, ExtendersOf(g.config, x), core.tree, r.value.tree)
    ensures IsAnswer(g, stack[..|stack| - 1], x, r) && (r.Failure? <==> IsSpoiling(g, x))
  {
    hide ConcreteFails, SomeExtenderFails, YieldsConcrete;
    CoreYieldsBuilds(g, x, core.tree);
    if r.Failure? {
      PartFails(g, stack, x, r.error);
      FailingExtendersBreak(g, stack, ExtendersOf(g.config, x), r.error);
    } else {
      assert EvalExtenders(g, 0, [], r.value.tree) == Some(r.value.tree);
      YieldsFromParts(g, x, core.tree, r.value.tree);
      SpoilingFails(g, stack[..|stack| - 1], x, r);
    }
  }

  lemma AnswerYields(g: Graph, stack: seq<Name>, x: Name, obj: Object)
    requires IsAnswer(g, stack, x, Success(obj))
    ensures Yields(g, x, obj.tree)
  {
  }

  lemma AllAreAnswers(g: Graph, stack: seq<Name>, deps: seq<Name>, objs: seq<Object>)
    requires YieldsNames(g, deps, Trees(objs))
    ensures AreAnswers(g, stack, deps, Success(objs))
  {
  }

  /** A dependency that fails makes its list fail the same way. */
  lemma DepFails(g: Graph, stack: seq<Name>, deps: seq<Name>, i: nat, e: Error)
    requires i < |deps| && IsAnswer(g, stack, Key(g.config, deps[i]), Failure(e))
    ensures AreAnswers(g, stack, deps, Failure(e))
  {
    assert deps[i] in deps && Resolved(g, deps)[i] == Key(g.config, deps[i]);
    assert Resolved(g, deps)[i] in Resolved(g, deps);
    assert stack <= stack + [Key(g.config, deps[i])];
  }

  /** What one of x's parts reaches, x reaches. */
  lemma RaiseOfPart(g: Graph, x: Name, deps: seq<Name>, e: Error)
    requires x !in g.base && IsRaiseError(g, Resolved(g, deps), e) && forall d :: d in deps ==> d in Deps(g.config, x)
    ensures IsRaiseError(g, [x], e)
  {
    if e.Raised? {
      var y :| y in Resolved(g, deps) && ReachesRaise(g, y, e.maker);
      var i :| 0 <= i < |deps| && Resolved(g, deps)[i] == y;
      assert deps[i] in deps;
      RaisesBelow(g, x, deps[i], e.maker);
      assert x in [x];
    }
  }

  /** If a right-hand side or an extender of x fails, that is the answer for x. */
  lemma PartFails(g: Graph, stack: seq<Name>, x: Name, e: Error)
    requires stack != [] && stack[|stack| - 1] == x && x !in g.base
    requires ConcreteFails(g, stack, ConcreteOf(g.config, x), e) || SomeExtenderFails(g, stack, ExtendersOf(g.config, x), e)
    ensures IsAnswer(g, stack[..|stack| - 1], x, Failure(e))
  {
    hide ConcreteFails, SomeExtenderFails, Buildable, IsRaiseError, IsCycleError, ConcreteOf, ExtendersOf;
    assert stack[..|stack| - 1] + [x] == stack;
    if ConcreteFails(g, stack, ConcreteOf(g.config, x), e) {
      CoreFails(g, stack, x, e);
    } else {
      ExtenderPartFails(g, stack, x, e);
    }
  }

  lemma CoreFails(g: Graph, stack: seq<Name>, x: Name, e: Error)
    requires x !in g.base && ConcreteFails(g, stack, ConcreteOf(g.config, x), e)
    ensures !Buildable(g, x) && IsCycleError(g, stack, e) && IsRaiseError(g, [x], e)
  {
    var con := ConcreteOf(g.config, x);
    var core := CoreDeps(g.config, con);
    UnbuildablePart(g, x, core);
    if CoreRaises(g.config, con) && e == Raised(Label(con)) {
      RaisesItself(g, x, e.maker);
      assert x in [x];
    } else {
      RaiseOfPart(g, x, core, e);
    }
  }

  lemma ExtenderPartFails(g: Graph, stack: seq<Name>, x: Name, e: Error)
    requires x !in g.base && SomeExtenderFails(g, stack, ExtendersOf(g.config, x), e)
    ensures !Buildable(g, x) && IsCycleError(g, stack, e) && IsRaiseError(g, [x], e)
  {
    var exts := ExtendersOf(g.config, x);
    var i :| 0 <= i < |exts| && ExtenderFails(g, stack, exts[i], e);
    DepsOfExtender(exts, i);
    UnbuildablePart(g, x, exts[i].deps);
    if exts[i].raises && e == Raised(exts[i].maker) {
      RaisesItself(g, x, e.maker);
      assert x in [x];
    } else {
      RaiseOfPart(g, x, exts[i].deps, e);
    }
  }

  lemma UnbuildablePart(g: Graph, x: Name, deps: seq<Name>)
    requires x !in g.base && forall d :: d in deps ==> d in Deps(g.config, x)
    ensures Raises(g.config, x) || SomeUnbuildable(g, deps) ==> !Buildable(g, x)
  {
    DepsAndSucc(g, x);
    FailsExactly(Succ(g), Bad(g), x);
  }

  lemma RepeatOnStack(g: Graph, stack: seq<Name>, x: Name)
    requires Continues(Succ(g), stack, x) && x in stack
    ensures IsAnswer(g, stack, x, Failure(CircularDependency(stack + [x])))
  {
    var p := stack + [x];
    ContinuesIsPath(Succ(g), stack, x);
    assert p[..|p| - 1] == stack;
    ClosedPathFails(Succ(g), Bad(g), p);
  }

  lemma CoversEach(v: View, cmds: seq<Command>, i: nat)
    requires Covers(v, cmds) && i < |cmds|
    ensures Covers(v, [cmds[i]])
  {
    assert cmds[i] == [cmds[i]][0];
  }

  lemma SpoiledCompletes(bindings: map<Name, Binding>, s: Caches, t: Caches, x: Name)
    requires Grown(bindings, [], s, t) && Lookup(t, x).None? && t.spoiled[x] == s.spoiled[x] + 1
    ensures t.completions[x] == s.completions[x] + 1
  {
  }

  lemma FailuresNext(outs: seq<Outcome>, out: Outcome)
    ensures Failures(outs + [out]) == Failures(outs) + Failures([out])
  {
    FailuresOfOne(out);
    assert (outs + [out])[..|outs|] == outs;
  }

  lemma FaithfulNext(g: Graph, plain: bool, s: Caches, t: Caches, cmds: seq<Command>, i: nat, outs: seq<Outcome>, out: Outcome)
    requires i < |cmds| && IsFaithful(g, plain, s, cmds[..i], outs) && Grown(g.config.bindings, [], s, t)
    requires IsFaithful(g, plain, t, [cmds[i]], [out])
    ensures IsFaithful(g, plain, t, cmds[..i + 1], outs + [out])
  {
    hide Grown, IsFaithful;
    FaithfulStays(g, plain, s, t, cmds[..i], outs);
    FaithfulAppend(g, plain, t, cmds[..i], outs, cmds[i], out);
    assert cmds[..i] + [cmds[i]] == cmds[..i + 1];
  }

  lemma FaithfulAppend(g: Graph, plain: bool, t: Caches, cmds: seq<Command>, outs: seq<Outcome>, cmd: Command, out: Outcome)
    requires IsFaithful(g, plain, t, cmds, outs) && IsFaithful(g, plain, t, [cmd], [out])
    ensures IsFaithful(g, plain, t, cmds + [cmd], outs + [out])
  {
  }

  lemma {:induction false} DepsOfExtender(exts: seq<Extender>, i: nat)
    requires i < |exts|
    ensures forall d :: d in exts[i].deps ==> d in ExtenderDeps(exts)
  {
    if i > 0 {
      DepsOfExtender(exts[1..], i - 1);
    }
  }

  /** With an empty stack, `make` returns normally if and only if no walk along dependencies closes a
      cycle or meets a name whose own building raises. */
  lemma SucceedsExactlyWithoutFault(g: Graph, x: Name, r: Made)
    requires IsAnswer(g, [], x, r)
    ensures r.Success? <==> !exists p :: IsFault(Succ(g), Bad(g), x, p)
  {
    BuildableExactly(g, x);
    YieldsExactlyBuildable(g, x);
  }

  /** If no name that x reaches raises, `make` fails exactly if a cycle is reached, and then with a
      circular dependency error. */
  lemma FailsExactlyByCycle(g: Graph, x: Name, r: Made)
    requires IsAnswer(g, [], x, r) && forall y :: Reaches(Succ(g), x, y) ==> !Bad(g)(y)
    ensures r.Failure? <==> ReachesCycle(Succ(g), x)
    ensures r.Failure? ==> r.error.CircularDependency?
  {
    SucceedsExactlyWithoutFault(g, x, r);
    if p :| IsPathFrom(Succ(g), x, p) && Closes(p) {
      assert IsFault(Succ(g), Bad(g), x, p);
    }
    if p :| IsFault(Succ(g), Bad(g), x, p) {
      assert Reaches(Succ(g), x, p[|p| - 1]);
    }
    if r.Failure? && r.error.Raised? {
      RaiseIsBad(g, x, r.error.maker);
    }
  }

  lemma RaiseIsBad(g: Graph, x: Name, maker: string)
    requires ReachesRaise(g, x, maker)
    ensures exists y :: Reaches(Succ(g), x, y) && Bad(g)(y)
  {
  }

  /** A name that is not known ends in a circular dependency error. */
  lemma UnknownFailsByCycle(g: Graph, x: Name, r: Made)
    requires IsAnswer(g, [], x, r) && !IsKnown(g, x)
    ensures r.Failure? && r.error.CircularDependency?
  {
    UnknownIsItsOwnDependency(g, x);
    forall y | Reaches(Succ(g), x, y)
      ensures y == x
    {
      var p :| IsPathFrom(Succ(g), x, p) && p[|p| - 1] == y;
      StaysAt(g, x, p, |p| - 1);
    }
    YieldsExactlyBuildable(g, x);
    FailsExactlyByCycle(g, x, r);
  }

  lemma {:induction false} StaysAt(g: Graph, x: Name, p: seq<Name>, i: nat)
    requires Succ(g)(x) == {x} && IsPathFrom(Succ(g), x, p) && i < |p|
    ensures p[i] == x
  {
    if i > 0 {
      StaysAt(g, x, p, i - 1);
      assert p[i - 1 + 1] in Succ(g)(p[i - 1]);
    }
  }

  /** The same request has the same tree whenever it is answered, whatever was cached meanwhile. */
  lemma AnswersAgree(g: Graph, x: Name, r: Made, q: Made)
    ensures IsAnswer(g, [], x, r) && IsAnswer(g, [], x, q) ==>
              (r.Success? <==> q.Success?) && (r.Success? ==> r.value.tree == q.value.tree)
  {
    YieldsExactlyBuildable(g, x);
    if IsAnswer(g, [], x, r) && IsAnswer(g, [], x, q) && r.Success? && q.Success? {
      YieldsUnique(g, x, r.value.tree, q.value.tree);
    }
  }

  // ---- When following redirects ends --------------------------------------------------

  /** Everything the redirects ask for, and what that leads to, is in the set. */
  ghost predicate IsHome(c: Config, contextual: Contextual, names: set<Name>) {
    && (forall x :: x in names ==> Keys(c, Deps(c, x)) <= names)
    && (forall s, k :: Keys(c, RedirectDeps(c, contextual, s, k)) <= names)
  }

  /** On no stack that a request for the wanted names can reach does a walk along redirects close. */
  ghost predicate RedirectsEnd(c: Config, contextual: Contextual, wanted: set<Name>) {
    forall s, k :: IsReached(c, contextual, wanted, s, k) ==> !ReachesCycle(RedirectNext(c, contextual, s), k)
  }

  /** On one stack, following redirects from k ends within some number of steps exactly if no walk along
      them closes; otherwise no number of steps suffices. */
  lemma FollowingEndsExactly(c: Config, contextual: Contextual, names: set<Name>, s: seq<Name>, k: Name)
    requires IsHome(c, contextual, names) && k in names
    ensures (exists n: nat :: Sound(RedirectNext(c, contextual, s), Never(), n, k)) <==>
            !ReachesCycle(RedirectNext(c, contextual, s), k)
  {
    var next := RedirectNext(c, contextual, s);
    HomeIsClosed(c, contextual, names, s);
    EndsExactly(next, names, k);
    if !Fails(next, Never(), k) {
      var n: nat :| Sound(next, Never(), n, k);
      assert Sound(RedirectNext(c, contextual, s), Never(), n, k);
    }
  }

  lemma HomeIsClosed(c: Config, contextual: Contextual, names: set<Name>, s: seq<Name>)
    requires IsHome(c, contextual, names)
    ensures IsClosed(RedirectNext(c, contextual, s), names)
  {
  }

  ghost function RankOf(c: Config, contextual: Contextual): (seq<Name>, Name) -> nat {
    (s: seq<Name>, k: Name) => Depth(RedirectNext(c, contextual, s), Never(), k)
  }

  /** A bound on the ranks of a finite set of names. */
  ghost function BoundOf(rank: (seq<Name>, Name) -> nat, names: set<Name>): seq<Name> -> nat {
    (s: seq<Name>) => Above(x => rank(s, x), names)
  }

  ghost function Above(rank: Name -> nat, names: set<Name>): (n: nat)
    ensures forall x :: x in names ==> rank(x) < n
  {
    if names == {} then 0
    else
      var x :| x in names;
      var n := Above(rank, names - {x});
      if rank(x) < n then n else rank(x) + 1
  }

  ghost function PlanOf(g: Graph, contextual: Contextual, plain: bool, names: set<Name>, wanted: set<Name>): Plan {
    Plan(g, contextual, plain, names, (s: seq<Name>, x: Name) => IsReached(g.config, contextual, wanted, s, x),
      RankOf(g.config, contextual), BoundOf(RankOf(g.config, contextual), names))
  }

  /** A plan for everything that requests for the wanted names can reach. */
  ghost predicate IsPlanFor(plan: Plan, g: Graph, contextual: Contextual, wanted: set<Name>) {
    && plan.Fits() && plan.g == g && plan.contextual == contextual
    && forall k :: k in wanted ==> plan.visited([], k)
  }

  /** Requests have a fitting plan exactly if on no stack that they can reach a walk along redirects
      closes. */
  lemma FitsExactly(g: Graph, contextual: Contextual, wanted: set<Name>)
    ensures (exists plan: Plan :: IsPlanFor(plan, g, contextual, wanted)) <==> RedirectsEnd(g.config, contextual, wanted)
  {
    var names := HomeExists(g, contextual, wanted);
    if RedirectsEnd(g.config, contextual, wanted) {
      PlanFits(g, contextual, false, names, wanted);
      assert IsPlanFor(PlanOf(g, contextual, false, names, wanted), g, contextual, wanted);
    }
    if plan: Plan :| IsPlanFor(plan, g, contextual, wanted) {
      forall s, k | IsReached(g.config, contextual, wanted, s, k)
        ensures !ReachesCycle(RedirectNext(g.config, contextual, s), k)
      {
        ReachedIsVisited(plan, wanted, s, k);
        ReachedStays(g.config, contextual, names, wanted, s, k);
        FittingMeansEnding(plan, s, k);
        FollowingEndsExactly(g.config, contextual, names, s, k);
      }
    }
  }

  /** What a plan covers is closed under asking. */
  lemma VisitedNext(plan: Plan, v: Visit, w: Visit)
    requires plan.Fits() && plan.visited(v.stack, v.name) && w in VisitNext(plan.g.config, plan.contextual)(v)
    ensures plan.visited(w.stack, w.name)
  {
    assert plan.FitsAt(v.stack, v.name);
  }

  lemma ReachedIsVisited(plan: Plan, wanted: set<Name>, s: seq<Name>, x: Name)
    requires plan.Fits() && (forall k :: k in wanted ==> plan.visited([], k))
    requires IsReached(plan.g.config, plan.contextual, wanted, s, x)
    ensures plan.visited(s, x)
  {
    var next := VisitNext(plan.g.config, plan.contextual);
    var k :| k in wanted && Reaches(next, Visit([], k), Visit(s, x));
    var p :| IsPathFrom(next, Visit([], k), p) && p[|p| - 1] == Visit(s, x);
    VisitedAlong(plan, p, |p| - 1);
  }

  lemma {:induction false} VisitedAlong(plan: Plan, p: seq<Visit>, i: nat)
    requires plan.Fits() && IsPath(VisitNext(plan.g.config, plan.contextual), p) && i < |p| && plan.visited(p[0].stack, p[0].name)
    ensures plan.visited(p[i].stack, p[i].name)
  {
    if i > 0 {
      hide Plan.Fits;
      VisitedAlong(plan, p, i - 1);
      assert p[i - 1 + 1] in VisitNext(plan.g.config, plan.contextual)(p[i - 1]);
      VisitedNext(plan, p[i - 1], p[i]);
    }
  }

  /** Requests stay in a set of names that is closed under asking, and push no name twice. */
  lemma ReachedStays(c: Config, contextual: Contextual, names: set<Name>, wanted: set<Name>, s: seq<Name>, x: Name)
    requires IsHome(c, contextual, names) && wanted <= names && IsReached(c, contextual, wanted, s, x)
    ensures IsStack(s, names) && x in names
  {
    var next := VisitNext(c, contextual);
    var k :| k in wanted && Reaches(next, Visit([], k), Visit(s, x));
    var p :| IsPathFrom(next, Visit([], k), p) && p[|p| - 1] == Visit(s, x);
    StaysAlong(c, contextual, names, p, |p| - 1);
  }

  lemma {:induction false} StaysAlong(c: Config, contextual: Contextual, names: set<Name>, p: seq<Visit>, i: nat)
    requires IsHome(c, contextual, names) && IsPath(VisitNext(c, contextual), p) && i < |p|
    requires p[0].stack == [] && p[0].name in names
    ensures IsStack(p[i].stack, names) && p[i].name in names
  {
    if i > 0 {
      StaysAlong(c, contextual, names, p, i - 1);
      assert p[i - 1 + 1] in VisitNext(c, contextual)(p[i - 1]);
      StaysNext(c, contextual, names, p[i - 1], p[i]);
    }
  }

  lemma StaysNext(c: Config, contextual: Contextual, names: set<Name>, v: Visit, w: Visit)
    requires IsHome(c, contextual, names) && IsStack(v.stack, names) && v.name in names && w in VisitNext(c, contextual)(v)
    ensures IsStack(w.stack, names) && w.name in names
  {
    if !IsRedirected(contextual, v.stack, v.name) {
      PushIsStack(names, v.stack, v.name);
    }
  }

  lemma FittingMeansEnding(plan: Plan, s: seq<Name>, k: Name)
    requires plan.Fits() && plan.visited(s, k)
    ensures exists n: nat :: Sound(RedirectNext(plan.g.config, plan.contextual, s), Never(), n, k)
  {
    var next, rank := RedirectNext(plan.g.config, plan.contextual, s), (x: Name) => plan.rank(s, x);
    var nodes := set y | y in plan.names && plan.visited(s, y);
    forall y, z | y in nodes && z in next(y)
      ensures z in nodes && rank(z) < rank(y)
    {
      assert plan.FitsAt(s, y);
    }
    RankMeansSound(next, rank, nodes, k, rank(k) + 1);
  }

  lemma PlanFits(g: Graph, contextual: Contextual, plain: bool, names: set<Name>, wanted: set<Name>)
    requires IsHome(g.config, contextual, names) && wanted <= names && RedirectsEnd(g.config, contextual, wanted)
    requires plain ==> contextual == map[]
    ensures IsPlanFor(PlanOf(g, contextual, plain, names, wanted), g, contextual, wanted)
  {
    var plan := PlanOf(g, contextual, plain, names, wanted);
    forall s, x | plan.visited(s, x)
      ensures IsStack(s, names) && x in names && plan.rank(s, x) < plan.bound(s)
      ensures x !in s ==> plan.FitsAt(s, x)
    {
      ReachedStays(g.config, contextual, names, wanted, s, x);
      RankIsBounded(plan, s, x);
      if x !in s {
        PlanFitsAt(g, contextual, plain, names, wanted, s, x);
      }
    }
    forall k | k in wanted
      ensures plan.visited([], k)
    {
      ReachesSelf(VisitNext(g.config, contextual), Visit([], k));
    }
  }

  lemma RankIsBounded(plan: Plan, s: seq<Name>, x: Name)
    requires x in plan.names && plan.bound == BoundOf(plan.rank, plan.names)
    ensures plan.rank(s, x) < plan.bound(s)
  {
    var rank := plan.rank;
    assert Above(y => rank(s, y), plan.names) == plan.bound(s);
  }

  lemma PlanFitsAt(g: Graph, contextual: Contextual, plain: bool, names: set<Name>, wanted: set<Name>, s: seq<Name>, x: Name)
    requires IsHome(g.config, contextual, names) && wanted <= names && RedirectsEnd(g.config, contextual, wanted)
    requires IsReached(g.config, contextual, wanted, s, x) && x !in s
    ensures PlanOf(g, contextual, plain, names, wanted).FitsAt(s, x)
  {
    var c, plan := g.config, PlanOf(g, contextual, plain, names, wanted);
    ReachedStays(c, contextual, names, wanted, s, x);
    forall w | w in VisitNext(c, contextual)(Visit(s, x))
      ensures plan.visited(w.stack, w.name) && plan.rank(w.stack, w.name) < plan.bound(w.stack)
    {
      ReachedNext(c, contextual, wanted, Visit(s, x), w);
      ReachedStays(c, contextual, names, wanted, w.stack, w.name);
      RankIsBounded(plan, w.stack, w.name);
    }
    if IsRedirected(contextual, s, x) {
      FollowingEndsExactly(c, contextual, names, s, x);
      forall y | y in RedirectNext(c, contextual, s)(x)
        ensures plan.visited(s, y) && plan.rank(s, y) < plan.rank(s, x)
      {
        assert Visit(s, y) in VisitNext(c, contextual)(Visit(s, x));
        DepthDecreases(RedirectNext(c, contextual, s), Never(), x, y);
      }
    } else {
      forall y | y in Keys(c, Deps(c, x))
        ensures plan.visited(s + [x], y) && plan.rank(s + [x], y) < plan.bound(s + [x])
      {
        assert Visit(s + [x], y) in VisitNext(c, contextual)(Visit(s, x));
      }
    }
  }

  lemma ReachedNext(c: Config, contextual: Contextual, wanted: set<Name>, v: Visit, w: Visit)
    requires IsReached(c, contextual, wanted, v.stack, v.name) && w in VisitNext(c, contextual)(v)
    ensures IsReached(c, contextual, wanted, w.stack, w.name)
  {
    var k :| k in wanted && Reaches(VisitNext(c, contextual), Visit([], k), Visit(v.stack, v.name));
    assert Visit(v.stack, v.name) == v && Visit(w.stack, w.name) == w;
    ReachesNext(VisitNext(c, contextual), Visit([], k), v, w);
  }

  /** All names the contextual bindings ask for. */
  ghost function RedirectTargets(c: Config, contextual: Contextual): set<Name> {
    set w, k, d | w in contextual && k in contextual[w] && d in CoreDeps(c, contextual[w][k]) :: d
  }

  lemma HomeExists(g: Graph, contextual: Contextual, wanted: set<Name>) returns (names: set<Name>)
    ensures wanted <= names && IsHome(g.config, contextual, names)
  {
    var c := g.config;
    names := NamesAround(g, wanted + RedirectTargets(c, contextual));
    forall s, k
      ensures Keys(c, RedirectDeps(c, contextual, s, k)) <= names
    {
      InnermostIsGiven(contextual, s, k);
      forall d | d in RedirectDeps(c, contextual, s, k)
        ensures Key(c, d) in names
      {
        assert d in RedirectTargets(c, contextual);
      }
    }
  }

  lemma {:induction false} InnermostIsGiven(contextual: Contextual, s: seq<Name>, k: Name)
    ensures InnermostRedirect(contextual, s, k).Some? ==>
              exists w :: w in contextual && w in s && k in contextual[w] && InnermostRedirect(contextual, s, k).value == contextual[w][k]
  {
    if s != [] {
      var top, rest := s[|s| - 1], s[..|s| - 1];
      InnermostIsGiven(contextual, rest, k);
      assert s == rest + [top];
    }
  }

  /** Requests whose redirects end have a view. */
  lemma ViewExists(g: Graph, contextual: Contextual, wanted: set<Name>) returns (v: View)
    requires RedirectsEnd(g.config, contextual, wanted)
    ensures v.g == g && v.contextual == contextual && (v.plain <==> contextual == map[])
    ensures forall k :: k in wanted ==> v.visited([], k)
  {
    var names := HomeExists(g, contextual, wanted);
    PlanFits(g, contextual, contextual == map[], names, wanted);
    v := PlanOf(g, contextual, contextual == map[], names, wanted);
  }

  lemma HasSuccessor(succ: Name -> set<Name>, p: seq<Name>)
    requires IsPath(succ, p) && |p| > 1
    ensures succ(p[0]) != {}
  {
    assert p[0 + 1] in succ(p[0]);
  }

  lemma WithoutEdgesNoCycle(succ: Name -> set<Name>, k: Name)
    requires forall x :: succ(x) == {}
    ensures !ReachesCycle(succ, k)
  {
    forall p | IsPathFrom(succ, k, p)
      ensures !Closes(p)
    {
      if |p| > 1 {
        HasSuccessor(succ, p);
      }
    }
  }

  /** Without contextual bindings nothing is redirected, so every request has a view. */
  lemma PlainRedirectsEnd(c: Config, wanted: set<Name>)
    ensures RedirectsEnd(c, map[], wanted)
  {
    forall s, k
      ensures !ReachesCycle(RedirectNext(c, map[], s), k)
    {
      UnredirectedStackEnds(c, map[], s, k);
    }
  }

  lemma UnredirectedStackEnds(c: Config, contextual: Contextual, s: seq<Name>, k: Name)
    requires forall w :: w in s ==> w !in contextual
    ensures !ReachesCycle(RedirectNext(c, contextual, s), k)
  {
    forall x
      ensures RedirectNext(c, contextual, s)(x) == {}
    {
      InnermostIsGiven(contextual, s, x);
    }
    WithoutEdgesNoCycle(RedirectNext(c, contextual, s), k);
  }

  /** Redirects for names that a request does not build do no harm, whatever they are. */
  lemma UnreachedRedirectsEnd(c: Config, contextual: Contextual, wanted: set<Name>)
    requires forall s, x, w :: IsReached(c, contextual, wanted, s, x) && w in s ==> w !in contextual
    ensures RedirectsEnd(c, contextual, wanted)
  {
    forall s, k | IsReached(c, contextual, wanted, s, k)
      ensures !ReachesCycle(RedirectNext(c, contextual, s), k)
    {
      UnredirectedStackEnds(c, contextual, s, k);
    }
  }

  /** A redirect of a name to itself, looked up while another name that needs it is built, is followed for
      ever: no number of steps suffices, and a request for the other name has no fitting plan. */
  lemma SelfRedirectNeverEnds(g: Graph, w: Name, k: Name)
    requires k !in g.config.aliases && w != k && k != "" && k in Deps(g.config, w)
    ensures var contextual := map[w := map[k := Redirect(k)]];
      && (forall n: nat :: !Sound(RedirectNext(g.config, contextual, [w]), Never(), n, k))
      && !exists plan: Plan :: IsPlanFor(plan, g, contextual, {w})
  {
    var c, contextual := g.config, map[w := map[k := Redirect(k)]];
    SelfRedirectCloses(c, w, k);
    hide Fails, Sound;
    ReachesSelf(VisitNext(c, contextual), Visit([], w));
    assert [] + [w] == [w] && !IsRedirected(contextual, [], w);
    assert Visit([w], k) in VisitNext(c, contextual)(Visit([], w));
    ReachesNext(VisitNext(c, contextual), Visit([], w), Visit([], w), Visit([w], k));
    assert IsReached(c, contextual, {w}, [w], k);
    FitsExactly(g, contextual, {w});
  }

  lemma SelfRedirectCloses(c: Config, w: Name, k: Name)
    requires k !in c.aliases && w != k && k != ""
    ensures var next := RedirectNext(c, map[w := map[k := Redirect(k)]], [w]);
      ReachesCycle(next, k) && forall n: nat :: !Sound(next, Never(), n, k)
  {
    var contextual := map[w := map[k := Redirect(k)]];
    var next := RedirectNext(c, contextual, [w]);
    assert InnermostRedirect(contextual, [w], k) == Some(Redirect(k));
    assert RedirectDeps(c, contextual, [w], k) == [k];
    assert k in [k] && Key(c, k) == k && k in next(k);
    var p := [k, k];
    assert p[..1] == [k] && IsPath(next, p) && Closes(p);
    ClosedPathFails(next, Never(), p);
    assert IsPathFrom(next, k, p);
  }

  /** The same redirect of a name while it is built itself is never followed. */
  lemma OwnRedirectEnds(c: Config, k: Name, wanted: set<Name>)
    ensures RedirectsEnd(c, map[k := map[k := Redirect(k)]], wanted)
  {
    var contextual := map[k := map[k := Redirect(k)]];
    forall s, x
      ensures !ReachesCycle(RedirectNext(c, contextual, s), x)
    {
      forall y
        ensures RedirectNext(c, contextual, s)(y) == {}
      {
        InnermostIsGiven(contextual, s, y);
      }
      WithoutEdgesNoCycle(RedirectNext(c, contextual, s), x);
    }
  }
}
