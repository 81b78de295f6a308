/** What the container's bindings mean: the names each name asks for, and the object tree a
    container without any cache would build for it. */
module Resolution {
  import opened Digraph
  import opened Outcomes

  type Name = string

  /** How an object was made: the factory, class or extender that made it and the objects it was
      given, or just a name for an object made elsewhere. */
  datatype Tree = Tree(maker: string, parts: seq<Tree>)

  datatype Object = Object(id: nat, tree: Tree)

  datatype Param = Annotated(typeName: Name, hasDefault: bool) | Unannotated(hasDefault: bool)

  /** The right-hand side of a binding. A factory makes its dependencies in order, then either
      returns a new object or raises. */
  datatype Concrete =
    | Redirect(target: Name)
    | Factory(maker: string, deps: seq<Name>, raises: bool)
    | Class(maker: string, params: seq<Param>)
    | Value(obj: Object)

  /** Makes its dependencies, then wraps the instance in a new object or raises. */
  datatype Extender = Extender(maker: string, deps: seq<Name>, raises: bool)

  datatype BindingType = TRANSIENT | SINGLETON | SCOPED | INSTANCE

  datatype Binding = Binding(concrete: Concrete, bindingType: BindingType)

  datatype Config = Config(
    bindings: map<Name, Binding>,
    aliases: map<Name, Name>,
    extenders: map<Name, seq<Extender>>)

  /** A configuration together with the names whose objects are given from outside. */
  datatype Graph = Graph(config: Config, base: map<Name, Tree>)

  /** One alias step, as every `make` takes first. */
  function Key(c: Config, a: Name): Name {
    if a in c.aliases then c.aliases[a] else a
  }

  function Keys(c: Config, deps: seq<Name>): set<Name> {
    set d | d in deps :: Key(c, d)
  }

  predicate IsBound(c: Config, a: Name) {
    a in c.bindings || a in c.aliases
  }

  /** The constructor parameters that are resolved from the container. */
  function InjectedParams(c: Config, params: seq<Param>): seq<Name> {
    if params == [] then []
    else
      var rest := InjectedParams(c, params[1..]);
      if params[0].Annotated? && IsBound(c, params[0].typeName) then [params[0].typeName] + rest else rest
  }

  /** A parameter that is neither injected nor defaulted makes the constructor call fail. */
  predicate HasMissingParam(c: Config, params: seq<Param>) {
    exists p :: p in params && !p.hasDefault && !(p.Annotated? && IsBound(c, p.typeName))
  }

  function CoreDeps(c: Config, con: Concrete): seq<Name> {
    match con
    case Redirect(target) => [target]
    case Factory(_, deps, _) => deps
    case Class(_, params) => InjectedParams(c, params)
    case Value(_) => []
  }

  predicate CoreRaises(c: Config, con: Concrete) {
    match con
    case Redirect(_) => false
    case Factory(_, _, raises) => raises
    case Class(_, params) => HasMissingParam(c, params)
    case Value(_) => false
  }

  /** An unbound name is built as the string it is, which makes it again. */
  function ConcreteOf(c: Config, x: Name): Concrete {
    if x in c.bindings then c.bindings[x].concrete else Redirect(x)
  }

  /** Extenders apply to bound names only. */
  function ExtendersOf(c: Config, x: Name): seq<Extender> {
    if x in c.bindings && x in c.extenders then c.extenders[x] else []
  }

  function ExtenderDeps(exts: seq<Extender>): seq<Name> {
    if exts == [] then [] else exts[0].deps + ExtenderDeps(exts[1..])
  }

  /** Every name that building x passes to `make`. */
  function Deps(c: Config, x: Name): seq<Name> {
    CoreDeps(c, ConcreteOf(c, x)) + ExtenderDeps(ExtendersOf(c, x))
  }

  predicate Raises(c: Config, x: Name) {
    CoreRaises(c, ConcreteOf(c, x)) || exists e :: e in ExtendersOf(c, x) && e.raises
  }

  /** The dependency graph between resolved names. */
  function Succ(g: Graph): Name -> set<Name> {
    x => if x in g.base then {} else Keys(g.config, Deps(g.config, x))
  }

  /** Names whose own building raises, whatever they are given. */
  function Bad(g: Graph): Name -> bool {
    x => x !in g.base && Raises(g.config, x)
  }

  // ---- The evaluator without caches -----------------------------------

  /** The tree built from the trees of the dependencies. */
  function Assemble(con: Concrete, trees: seq<Tree>): Option<Tree> {
    match con
    case Redirect(_) => if trees == [] then None else Some(trees[0])
    case Factory(maker, _, _) => Some(Tree(maker, trees))
    case Class(maker, _) => Some(Tree(maker, trees))
    case Value(obj) => Some(obj.tree)
  }

  /** The tree of x, when nested at most n deep. */
  ghost function Eval(g: Graph, n: nat, x: Name): Option<Tree>
    decreases n, 0
  {
    if n == 0 then None
    else if x in g.base then Some(g.base[x])
    else
      var core := EvalConcrete(g, n - 1, ConcreteOf(g.config, x));
      if core.None? then None else EvalExtenders(g, n - 1, ExtendersOf(g.config, x), core.value)
  }

  ghost function EvalNames(g: Graph, n: nat, deps: seq<Name>): Option<seq<Tree>>
    decreases n, 1, |deps|
  {
    if deps == [] then Some([])
    else
      var last := |deps| - 1;
      var init, t := EvalNames(g, n, deps[..last]), Eval(g, n, Key(g.config, deps[last]));
      if init.None? || t.None? then None else Some(init.value + [t.value])
  }

  ghost function EvalConcrete(g: Graph, n: nat, con: Concrete): Option<Tree>
    decreases n, 2
  {
    var parts := EvalNames(g, n, CoreDeps(g.config, con));
    if parts.None? || CoreRaises(g.config, con) then None else Assemble(con, parts.value)
  }

  ghost function EvalExtenders(g: Graph, n: nat, exts: seq<Extender>, t: Tree): Option<Tree>
    decreases n, 2, |exts|
  {
    if exts == [] then Some(t)
    else
      var last := |exts| - 1;
      var inner := EvalExtenders(g, n, exts[..last], t);
      var parts := EvalNames(g, n, exts[last].deps);
      if inner.None? || parts.None? || exts[last].raises then None
      else Some(Tree(exts[last].maker, [inner.value] + parts.value))
  }

  /** The cache-free evaluator builds t for x. */
  ghost predicate Yields(g: Graph, x: Name, t: Tree) {
    exists n: nat :: Eval(g, n, x) == Some(t)
  }

  ghost predicate YieldsNames(g: Graph, deps: seq<Name>, trees: seq<Tree>) {
    exists n: nat :: EvalNames(g, n, deps) == Some(trees)
  }

  ghost predicate YieldsConcrete(g: Graph, con: Concrete, t: Tree) {
    exists n: nat :: EvalConcrete(g, n, con) == Some(t)
  }

  ghost predicate YieldsExtended(g: Graph, exts: seq<Extender>, t0: Tree, t: Tree) {
    exists n: nat :: EvalExtenders(g, n, exts, t0) == Some(t)
  }

  // ---- The depth bound does not matter --------------------------------

  lemma {:induction false} EvalMono(g: Graph, n: nat, m: nat, x: Name)
    requires n <= m && Eval(g, n, x).Some?
    ensures Eval(g, m, x) == Eval(g, n, x)
    decreases n, 0
  {
    if x !in g.base {
      EvalConcreteMono(g, n - 1, m - 1, ConcreteOf(g.config, x));
      EvalExtendersMono(g, n - 1, m - 1, ExtendersOf(g.config, x),
        EvalConcrete(g, n - 1, ConcreteOf(g.config, x)).value);
    }
  }

  lemma {:induction false} EvalNamesMono(g: Graph, n: nat, m: nat, deps: seq<Name>)
    requires n <= m && EvalNames(g, n, deps).Some?
    ensures EvalNames(g, m, deps) == EvalNames(g, n, deps)
    decreases n, 1, |deps|
  {
    if deps != [] {
      EvalNamesMono(g, n, m, deps[..|deps| - 1]);
      EvalMono(g, n, m, Key(g.config, deps[|deps| - 1]));
    }
  }

  lemma {:induction false} EvalConcreteMono(g: Graph, n: nat, m: nat, con: Concrete)
    requires n <= m && EvalConcrete(g, n, con).Some?
    ensures EvalConcrete(g, m, con) == EvalConcrete(g, n, con)
    decreases n, 2
  {
    EvalNamesMono(g, n, m, CoreDeps(g.config, con));
  }

  lemma {:induction false} EvalExtendersMono(g: Graph, n: nat, m: nat, exts: seq<Extender>, t: Tree)
    requires n <= m && EvalExtenders(g, n, exts, t).Some?
    ensures EvalExtenders(g, m, exts, t) == EvalExtenders(g, n, exts, t)
    decreases n, 2, |exts|
  {
    if exts != [] {
      EvalExtendersMono(g, n, m, exts[..|exts| - 1], t);
      EvalNamesMono(g, n, m, exts[|exts| - 1].deps);
    }
  }

  /** A name has at most one cache-free tree. */
  lemma YieldsUnique(g: Graph, x: Name, t: Tree, u: Tree)
    requires Yields(g, x, t) && Yields(g, x, u)
    ensures t == u
  {
    var n: nat :| Eval(g, n, x) == Some(t);
    var m: nat :| Eval(g, m, x) == Some(u);
    EvalMono(g, n, n + m, x);
    EvalMono(g, m, n + m, x);
  }

  // ---- Putting evaluations together -----------------------------------

  lemma YieldsNamesAppend(g: Graph, deps: seq<Name>, trees: seq<Tree>, d: Name, t: Tree)
    requires YieldsNames(g, deps, trees) && Yields(g, Key(g.config, d), t)
    ensures YieldsNames(g, deps + [d], trees + [t])
  {
    var n: nat :| EvalNames(g, n, deps) == Some(trees);
    var m: nat :| Eval(g, m, Key(g.config, d)) == Some(t);
    EvalNamesMono(g, n, n + m, deps);
    EvalMono(g, m, n + m, Key(g.config, d));
    assert (deps + [d])[..|deps|] == deps;
    assert EvalNames(g, n + m, deps + [d]) == Some(trees + [t]);
  }

  lemma YieldsConcreteFromNames(g: Graph, con: Concrete, trees: seq<Tree>, t: Tree)
    requires YieldsNames(g, CoreDeps(g.config, con), trees) && !CoreRaises(g.config, con)
    requires Assemble(con, trees) == Some(t)
    ensures YieldsConcrete(g, con, t)
  {
    var n: nat :| EvalNames(g, n, CoreDeps(g.config, con)) == Some(trees);
    assert EvalConcrete(g, n, con) == Some(t);
  }

  lemma YieldsExtendedAppend(g: Graph, exts: seq<Extender>, t0: Tree, t: Tree, e: Extender, trees: seq<Tree>)
    requires YieldsExtended(g, exts, t0, t) && YieldsNames(g, e.deps, trees) && !e.raises
    ensures YieldsExtended(g, exts + [e], t0, Tree(e.maker, [t] + trees))
  {
    var n: nat :| EvalExtenders(g, n, exts, t0) == Some(t);
    var m: nat :| EvalNames(g, m, e.deps) == Some(trees);
    EvalExtendersMono(g, n, n + m, exts, t0);
    EvalNamesMono(g, m, n + m, e.deps);
    assert (exts + [e])[..|exts|] == exts;
    assert EvalExtenders(g, n + m, exts + [e], t0) == Some(Tree(e.maker, [t] + trees));
  }

  lemma YieldsFromParts(g: Graph, x: Name, t0: Tree, t: Tree)
    requires x !in g.base
    requires YieldsConcrete(g, ConcreteOf(g.config, x), t0)
    requires YieldsExtended(g, ExtendersOf(g.config, x), t0, t)
    ensures Yields(g, x, t)
  {
    var con, exts := ConcreteOf(g.config, x), ExtendersOf(g.config, x);
    var n: nat :| EvalConcrete(g, n, con) == Some(t0);
    var m: nat :| EvalExtenders(g, m, exts, t0) == Some(t);
    EvalConcreteMono(g, n, n + m, con);
    EvalExtendersMono(g, m, n + m, exts, t0);
    assert Eval(g, n + m + 1, x) == Some(t);
  }

  // ---- The evaluator succeeds exactly on what can be built -------------

  lemma {:induction false} EvalNamesDefined(g: Graph, n: nat, deps: seq<Name>)
    ensures EvalNames(g, n, deps).Some? <==> forall d :: d in deps ==> Eval(g, n, Key(g.config, d)).Some?
    ensures EvalNames(g, n, deps).Some? ==> |EvalNames(g, n, deps).value| == |deps|
    decreases |deps|
  {
    if deps != [] {
      var last := |deps| - 1;
      assert deps == deps[..last] + [deps[last]];
      EvalNamesDefined(g, n, deps[..last]);
    }
  }

  lemma {:induction false} ExtenderDepsAppend(exts: seq<Extender>, e: Extender)
    ensures ExtenderDeps(exts + [e]) == ExtenderDeps(exts) + e.deps
  {
    if exts == [] {
      assert ExtenderDeps([e]) == e.deps + ExtenderDeps([]);
    } else {
      assert (exts + [e])[1..] == exts[1..] + [e];
      ExtenderDepsAppend(exts[1..], e);
    }
  }

  lemma {:induction false} EvalExtendersDefined(g: Graph, n: nat, exts: seq<Extender>, t: Tree)
    ensures EvalExtenders(g, n, exts, t).Some? <==>
            && (forall e :: e in exts ==> !e.raises)
            && (forall d :: d in ExtenderDeps(exts) ==> Eval(g, n, Key(g.config, d)).Some?)
    decreases |exts|
  {
    if exts != [] {
      var last := |exts| - 1;
      assert exts == exts[..last] + [exts[last]];
      EvalExtendersDefined(g, n, exts[..last], t);
      ExtenderDepsAppend(exts[..last], exts[last]);
      EvalNamesDefined(g, n, exts[last].deps);
    }
  }

  ghost predicate Buildable(g: Graph, x: Name) {
    !Fails(Succ(g), Bad(g), x)
  }

  lemma DepsAndSucc(g: Graph, x: Name)
    requires x !in g.base
    ensures forall d :: d in Deps(g.config, x) ==> Key(g.config, d) in Succ(g)(x)
    ensures forall y :: y in Succ(g)(x) ==> exists d :: d in Deps(g.config, x) && Key(g.config, d) == y
  {
  }

  lemma EvalParts(g: Graph, n: nat, x: Name)
    requires n > 0 && x !in g.base
    ensures Eval(g, n, x).Some? <==>
            !Raises(g.config, x) && forall d :: d in Deps(g.config, x) ==> Eval(g, n - 1, Key(g.config, d)).Some?
  {
    var c, con, exts := g.config, ConcreteOf(g.config, x), ExtendersOf(g.config, x);
    EvalNamesDefined(g, n - 1, CoreDeps(c, con));
    if EvalConcrete(g, n - 1, con).Some? {
      EvalExtendersDefined(g, n - 1, exts, EvalConcrete(g, n - 1, con).value);
    }
  }

  /** One level of evaluation succeeds when nothing raises and all dependencies are evaluated. */
  lemma EvalStep(g: Graph, n: nat, x: Name)
    requires n > 0
    ensures Eval(g, n, x).Some? <==> !Bad(g)(x) && forall y :: y in Succ(g)(x) ==> Eval(g, n - 1, y).Some?
  {
    if x !in g.base {
      EvalParts(g, n, x);
      DepsAndSucc(g, x);
    }
  }

  lemma {:induction false} EvalDefined(g: Graph, n: nat, x: Name)
    ensures Eval(g, n, x).Some? <==> Sound(Succ(g), Bad(g), n, x)
    decreases n
  {
    hide Eval, Sound, Succ, Bad;
    NothingAtZero(g, x);
    if n > 0 {
      forall y | y in Succ(g)(x)
        ensures EvalsAsSound(g, n - 1, y)
      {
        EvalDefined(g, n - 1, y);
      }
      EvalsAsSoundStep(g, n, x);
    }
  }

  lemma NothingAtZero(g: Graph, x: Name)
    ensures EvalsAsSound(g, 0, x)
  {
  }

  ghost predicate EvalsAsSound(g: Graph, n: nat, x: Name) {
    Eval(g, n, x).Some? <==> Sound(Succ(g), Bad(g), n, x)
  }

  lemma EvalsAsSoundStep(g: Graph, n: nat, x: Name)
    requires n > 0 && forall y :: y in Succ(g)(x) ==> EvalsAsSound(g, n - 1, y)
    ensures EvalsAsSound(g, n, x)
  {
    hide Eval, Sound, Succ, Bad;
    EvalStep(g, n, x);
    SoundStep(Succ(g), Bad(g), n, x);
  }

  lemma YieldsExactlyBuildable(g: Graph, x: Name)
    ensures (exists t :: Yields(g, x, t)) <==> Buildable(g, x)
  {
    if t :| Yields(g, x, t) {
      var n: nat :| Eval(g, n, x) == Some(t);
      EvalDefined(g, n, x);
    }
    if Buildable(g, x) {
      var n: nat :| Sound(Succ(g), Bad(g), n, x);
      EvalDefined(g, n, x);
      assert Yields(g, x, Eval(g, n, x).value);
    }
  }

  /** Building some names stays in a finite set: those names, and all that the configuration mentions. */
  lemma NamesAround(g: Graph, wanted: set<Name>) returns (names: set<Name>)
    ensures wanted <= names && IsClosed(Succ(g), names) && forall d :: d in wanted ==> Key(g.config, d) in names
    ensures forall x :: x in names ==> Keys(g.config, Deps(g.config, x)) <= names
  {
    var c := g.config;
    names := wanted + c.aliases.Values
      + (set b, d | b in c.bindings.Values && d in CoreDeps(c, b.concrete) :: d)
      + (set e, d | e in c.extenders.Values && d in ExtenderDeps(e) :: d);
    forall x, d | x in names && d in Deps(c, x)
      ensures Key(c, d) in names
    {
      if x in c.bindings && d in CoreDeps(c, ConcreteOf(c, x)) {
        assert c.bindings[x] in c.bindings.Values;
      } else if x in c.bindings {
        assert c.extenders[x] in c.extenders.Values;
      }
    }
  }

  /** The cache-free evaluator builds x if and only if no walk from x closes a cycle or ends in a
      name whose own building raises. An unbound name without an alias is its own dependency, so
      for such a name the fault is the walk [x, x]. */
  lemma BuildableExactly(g: Graph, x: Name)
    ensures (exists t :: Yields(g, x, t)) <==> !exists p :: IsFault(Succ(g), Bad(g), x, p)
  {
    var names := NamesAround(g, {x});
    YieldsExactlyBuildable(g, x);
    FaultExactly(Succ(g), Bad(g), names, x);
  }

  // ---- What the evaluator builds, by bindings -----------------------------------------

  /** These are the trees of what the names lead to: a name with an alias leads to what it is an alias of. */
  ghost predicate AreTrees(g: Graph, deps: seq<Name>, trees: seq<Tree>) {
    && |trees| == |deps|
    && forall i :: 0 <= i < |deps| ==>
         Yields(g, if deps[i] in g.config.aliases then g.config.aliases[deps[i]] else deps[i], trees[i])
  }

  lemma {:induction false} NamesYieldExactly(g: Graph, deps: seq<Name>, trees: seq<Tree>)
    ensures YieldsNames(g, deps, trees) <==> AreTrees(g, deps, trees)
    decreases |deps|
  {
    if deps == [] {
      assert EvalNames(g, 0, deps) == Some([]);
      if YieldsNames(g, deps, trees) {
        var n: nat :| EvalNames(g, n, deps) == Some(trees);
      }
    } else if trees == [] {
      if YieldsNames(g, deps, trees) {
        LastYields(g, deps, trees);
      }
    } else {
      var last, m := |deps| - 1, |trees| - 1;
      NamesYieldExactly(g, deps[..last], trees[..m]);
      if AreTrees(g, deps, trees) {
        YieldsNamesAppend(g, deps[..last], trees[..m], deps[last], trees[m]);
        assert deps[..last] + [deps[last]] == deps && trees[..m] + [trees[m]] == trees;
      }
      if YieldsNames(g, deps, trees) {
        LastYields(g, deps, trees);
      }
    }
  }

  lemma LastYields(g: Graph, deps: seq<Name>, trees: seq<Tree>)
    requires deps != [] && YieldsNames(g, deps, trees)
    ensures |trees| > 0 && YieldsNames(g, deps[..|deps| - 1], trees[..|trees| - 1])
    ensures Yields(g, Key(g.config, deps[|deps| - 1]), trees[|trees| - 1])
  {
    var n: nat :| EvalNames(g, n, deps) == Some(trees);
    var init, last := EvalNames(g, n, deps[..|deps| - 1]), Eval(g, n, Key(g.config, deps[|deps| - 1]));
    assert trees == init.value + [last.value];
    assert trees[..|trees| - 1] == init.value && init == Some(trees[..|trees| - 1]);
    assert last == Some(trees[|trees| - 1]);
  }

  /** What a right-hand side builds. A class gets those of its parameters that are annotated with a name
      that is bound or an alias; the others need defaults. */
  lemma ConcreteYieldsExactly(g: Graph, con: Concrete, t: Tree)
    ensures YieldsConcrete(g, con, t) <==>
            match con
            case Redirect(target) => Yields(g, if target in g.config.aliases then g.config.aliases[target] else target, t)
            case Value(obj) => t == obj.tree
            case Factory(maker, deps, raises) => !raises && t.maker == maker && AreTrees(g, deps, t.parts)
            case Class(maker, params) =>
              && (forall p :: p in params ==>
                    p.hasDefault || (p.Annotated? && (p.typeName in g.config.bindings || p.typeName in g.config.aliases)))
              && t.maker == maker && AreTrees(g, InjectedParams(g.config, params), t.parts)
  {
    AssembledExactly(g, con, t);
    match con {
      case Redirect(target) => OneTree(g, target, t);
      case Value(_) =>
        NamesYieldExactly(g, [], []);
        assert YieldsNames(g, CoreDeps(g.config, con), []) && (Assemble(con, []) == Some(t) <==> t == con.obj.tree);
      case Factory(maker, deps, _) => MakerTree(g, con, deps, maker, t);
      case Class(maker, params) => MakerTree(g, con, InjectedParams(g.config, params), maker, t);
    }
  }

  lemma OneTree(g: Graph, target: Name, t: Tree)
    ensures (exists trees :: YieldsNames(g, [target], trees) && Assemble(Redirect(target), trees) == Some(t)) <==>
            Yields(g, if target in g.config.aliases then g.config.aliases[target] else target, t)
  {
    NamesYieldExactly(g, [target], [t]);
    assert [t][0] == t && [target][0] == target;
    if trees :| YieldsNames(g, [target], trees) && Assemble(Redirect(target), trees) == Some(t) {
      NamesYieldExactly(g, [target], trees);
    }
  }

  lemma MakerTree(g: Graph, con: Concrete, deps: seq<Name>, maker: string, t: Tree)
    requires (con.Factory? && con.maker == maker) || (con.Class? && con.maker == maker)
    ensures (exists trees :: YieldsNames(g, deps, trees) && Assemble(con, trees) == Some(t)) <==> t.maker == maker && AreTrees(g, deps, t.parts)
  {
    NamesYieldExactly(g, deps, t.parts);
    if trees :| YieldsNames(g, deps, trees) && Assemble(con, trees) == Some(t) {
      assert trees == t.parts;
    }
    assert t.maker == maker ==> Assemble(con, t.parts) == Some(t);
  }

  lemma AssembledExactly(g: Graph, con: Concrete, t: Tree)
    ensures YieldsConcrete(g, con, t) <==>
            !CoreRaises(g.config, con) && exists trees :: YieldsNames(g, CoreDeps(g.config, con), trees) && Assemble(con, trees) == Some(t)
  {
    if YieldsConcrete(g, con, t) {
      var n: nat :| EvalConcrete(g, n, con) == Some(t);
      assert YieldsNames(g, CoreDeps(g.config, con), EvalNames(g, n, CoreDeps(g.config, con)).value);
    }
    if trees :| YieldsNames(g, CoreDeps(g.config, con), trees) && Assemble(con, trees) == Some(t) && !CoreRaises(g.config, con) {
      YieldsConcreteFromNames(g, con, trees, t);
    }
  }

  /** The parameters that are injected, in order. */
  lemma InjectedParamsExactly(c: Config, p: Param, rest: seq<Param>)
    ensures InjectedParams(c, []) == []
    ensures InjectedParams(c, [p] + rest) ==
            (if p.Annotated? && (p.typeName in c.bindings || p.typeName in c.aliases) then [p.typeName] else []) + InjectedParams(c, rest)
  {
    assert ([p] + rest)[1..] == rest;
  }

  /** One extender makes this tree of that one: it wraps it, with the trees of what it asks for. */
  ghost predicate Wraps(g: Graph, e: Extender, inner: Tree, t: Tree) {
    !e.raises && t.maker == e.maker && t.parts != [] && t.parts[0] == inner && AreTrees(g, e.deps, t.parts[1..])
  }

  /** The trees from the right-hand side's to that of the last extender. */
  ghost predicate AreStages(g: Graph, exts: seq<Extender>, stages: seq<Tree>) {
    |stages| == |exts| + 1 && forall k :: 0 <= k < |exts| ==> Wraps(g, exts[k], stages[k], stages[k + 1])
  }

  lemma ExtendedYieldsExactly(g: Graph, exts: seq<Extender>, t0: Tree, t: Tree)
    ensures YieldsExtended(g, exts, t0, t) <==>
            exists stages :: AreStages(g, exts, stages) && stages[0] == t0 && stages[|exts|] == t
  {
    if YieldsExtended(g, exts, t0, t) {
      var stages := StagesOf(g, exts, t0, t);
    }
    if stages :| AreStages(g, exts, stages) && stages[0] == t0 && stages[|exts|] == t {
      StagesYield(g, exts, stages);
    }
  }

  lemma {:induction false} StagesOf(g: Graph, exts: seq<Extender>, t0: Tree, t: Tree) returns (stages: seq<Tree>)
    requires YieldsExtended(g, exts, t0, t)
    ensures AreStages(g, exts, stages) && stages[0] == t0 && stages[|exts|] == t
    decreases |exts|
  {
    if exts == [] {
      stages := [t0];
    } else {
      var n := |exts| - 1;
      var inner := LastWraps(g, exts, t0, t);
      var earlier := StagesOf(g, exts[..n], t0, inner);
      hide Wraps, YieldsExtended;
      stages := earlier + [t];
      forall k | 0 <= k < |exts|
        ensures Wraps(g, exts[k], stages[k], stages[k + 1])
      {
        if k < n {
          assert Wraps(g, exts[..n][k], earlier[k], earlier[k + 1]);
        }
      }
    }
  }

  lemma {:induction false} StagesYield(g: Graph, exts: seq<Extender>, stages: seq<Tree>)
    requires AreStages(g, exts, stages)
    ensures YieldsExtended(g, exts, stages[0], stages[|exts|])
    decreases |exts|
  {
    if exts == [] {
      assert EvalExtenders(g, 0, exts, stages[0]) == Some(stages[0]);
    } else {
      hide Wraps, YieldsExtended;
      var n := |exts| - 1;
      var init, earlier := exts[..n], stages[..n + 1];
      forall k | 0 <= k < n
        ensures Wraps(g, init[k], earlier[k], earlier[k + 1])
      {
        assert Wraps(g, exts[k], stages[k], stages[k + 1]);
      }
      StagesYield(g, init, earlier);
      assert Wraps(g, exts[n], stages[n], stages[n + 1]);
      WrappedYields(g, init, exts[n], stages[0], stages[n], stages[n + 1]);
      assert init + [exts[n]] == exts;
    }
  }

  lemma LastWraps(g: Graph, exts: seq<Extender>, t0: Tree, t: Tree) returns (inner: Tree)
    requires exts != [] && YieldsExtended(g, exts, t0, t)
    ensures YieldsExtended(g, exts[..|exts| - 1], t0, inner) && Wraps(g, exts[|exts| - 1], inner, t)
  {
    var n: nat :| EvalExtenders(g, n, exts, t0) == Some(t);
    var last := exts[|exts| - 1];
    inner := EvalExtenders(g, n, exts[..|exts| - 1], t0).value;
    assert t.parts[1..] == EvalNames(g, n, last.deps).value;
    assert YieldsNames(g, last.deps, t.parts[1..]);
    NamesYieldExactly(g, last.deps, t.parts[1..]);
  }

  lemma WrappedYields(g: Graph, init: seq<Extender>, last: Extender, t0: Tree, inner: Tree, t: Tree)
    requires YieldsExtended(g, init, t0, inner) && Wraps(g, last, inner, t)
    ensures YieldsExtended(g, init + [last], t0, t)
  {
    NamesYieldExactly(g, last.deps, t.parts[1..]);
    YieldsExtendedAppend(g, init, t0, inner, last, t.parts[1..]);
    assert t.parts == [inner] + t.parts[1..];
  }

  /** What is built for x: what is given; for an alias that is not bound, what it leads to; for a bound name
      the right-hand side, extended by all extenders of the name in order. */
  lemma YieldsExactly(g: Graph, x: Name, t: Tree)
    ensures x in g.base ==> (Yields(g, x, t) <==> t == g.base[x])
    ensures x !in g.base && x !in g.config.bindings ==>
              (Yields(g, x, t) <==> x in g.config.aliases && Yields(g, g.config.aliases[x], t))
    ensures x !in g.base && x in g.config.bindings ==>
              (Yields(g, x, t) <==>
               exists core :: YieldsConcrete(g, g.config.bindings[x].concrete, core)
                              && YieldsExtended(g, if x in g.config.extenders then g.config.extenders[x] else [], core, t))
  {
    if x in g.base {
      assert Eval(g, 1, x) == Some(g.base[x]);
    } else {
      var con, exts := ConcreteOf(g.config, x), ExtendersOf(g.config, x);
      PartsYieldExactly(g, x, t);
      if x !in g.config.bindings {
        UnboundYields(g, x, t);
      }
    }
  }

  lemma PartsYieldExactly(g: Graph, x: Name, t: Tree)
    requires x !in g.base
    ensures Yields(g, x, t) <==>
            exists core :: YieldsConcrete(g, ConcreteOf(g.config, x), core) && YieldsExtended(g, ExtendersOf(g.config, x), core, t)
  {
    if Yields(g, x, t) {
      var n: nat :| Eval(g, n, x) == Some(t);
      var core := EvalConcrete(g, n - 1, ConcreteOf(g.config, x)).value;
      assert EvalExtenders(g, n - 1, ExtendersOf(g.config, x), core) == Some(t);
      assert YieldsConcrete(g, ConcreteOf(g.config, x), core) && YieldsExtended(g, ExtendersOf(g.config, x), core, t);
    }
    if core :| YieldsConcrete(g, ConcreteOf(g.config, x), core) && YieldsExtended(g, ExtendersOf(g.config, x), core, t) {
      YieldsFromParts(g, x, core, t);
    }
  }

  lemma UnboundYields(g: Graph, x: Name, t: Tree)
    requires x !in g.base && x !in g.config.bindings
    ensures Yields(g, x, t) <==> x in g.config.aliases && Yields(g, g.config.aliases[x], t)
  {
    PartsYieldExactly(g, x, t);
    ConcreteYieldsExactly(g, Redirect(x), t);
    assert EvalExtenders(g, 0, [], t) == Some(t);
    assert YieldsExtended(g, [], t, t) && ConcreteOf(g.config, x) == Redirect(x) && ExtendersOf(g.config, x) == [];
    if core :| YieldsConcrete(g, Redirect(x), core) && YieldsExtended(g, [], core, t) {
      var n: nat :| EvalExtenders(g, n, [], core) == Some(t);
    }
    if x !in g.config.aliases {
      UnknownIsItsOwnDependency(g, x);
      YieldsExactlyBuildable(g, x);
    }
  }

  // ---- Why building fails ----------------------------------------------------

  function Label(con: Concrete): string {
    match con
    case Redirect(target) => target
    case Factory(maker, _, _) => maker
    case Class(maker, _) => maker
    case Value(obj) => obj.tree.maker
  }

  /** The building of x itself raises, by this maker. */
  ghost predicate RaisesAs(g: Graph, x: Name, maker: string) {
    && x !in g.base
    && ((CoreRaises(g.config, ConcreteOf(g.config, x)) && maker == Label(ConcreteOf(g.config, x)))
        || exists e :: e in ExtendersOf(g.config, x) && e.raises && maker == e.maker)
  }

  /** Building x makes, at some depth, a name whose own building raises by this maker. */
  ghost predicate ReachesRaise(g: Graph, x: Name, maker: string) {
    exists y :: Reaches(Succ(g), x, y) && RaisesAs(g, y, maker)
  }

  lemma RaisesItself(g: Graph, x: Name, maker: string)
    requires RaisesAs(g, x, maker)
    ensures ReachesRaise(g, x, maker)
  {
    ReachesSelf(Succ(g), x);
  }

  lemma RaisesBelow(g: Graph, x: Name, d: Name, maker: string)
    requires x !in g.base && d in Deps(g.config, x) && ReachesRaise(g, Key(g.config, d), maker)
    ensures ReachesRaise(g, x, maker)
  {
    DepsAndSucc(g, x);
    var y :| Reaches(Succ(g), Key(g.config, d), y) && RaisesAs(g, y, maker);
    ReachesThrough(Succ(g), x, Key(g.config, d), y);
  }

  /** The name is given, or bound, or an alias that leads on to another name. */
  predicate IsKnown(g: Graph, x: Name) {
    x in g.base || x in g.config.bindings || (x in g.config.aliases && g.config.aliases[x] != x)
  }

  ghost predicate AllKnown(g: Graph, p: seq<Name>) {
    forall i :: 0 <= i < |p| ==> IsKnown(g, p[i])
  }

  /** Building x reaches only names that are known and do not raise. */
  ghost predicate ReachesOnlySound(g: Graph, x: Name) {
    forall y :: Reaches(Succ(g), x, y) ==> IsKnown(g, y) && !Bad(g)(y)
  }

  lemma UnknownIsItsOwnDependency(g: Graph, x: Name)
    requires !IsKnown(g, x)
    ensures Succ(g)(x) == {x} && !Buildable(g, x)
  {
    assert Deps(g.config, x) == [x];
    assert x in [x] && forall d :: d in [x] ==> d == x;
    assert Keys(g.config, [x]) == {Key(g.config, x)} == {x};
    var p := [x, x];
    assert p[..1] == [x] && IsPath(Succ(g), p) && Closes(p);
    ClosedPathFails(Succ(g), Bad(g), p);
  }

  /** A name can be built exactly if every name it reaches is known and none of them raises, and no
      cycle among known names is reached. */
  lemma BuildableByBindings(g: Graph, x: Name)
    ensures Buildable(g, x) <==>
            ReachesOnlySound(g, x) && !exists p :: IsPathFrom(Succ(g), x, p) && Closes(p) && AllKnown(g, p)
  {
    hide Buildable, Succ, Bad;
    BuildableExactly(g, x);
    YieldsExactlyBuildable(g, x);
    if Buildable(g, x) {
      forall y | Reaches(Succ(g), x, y)
        ensures IsKnown(g, y) && !Bad(g)(y)
      {
        ReachedIsSound(g, x, y);
      }
      if p :| IsPathFrom(Succ(g), x, p) && Closes(p) && AllKnown(g, p) {
        ClosingIsFault(g, x, p);
      }
    } else {
      var p :| IsFault(Succ(g), Bad(g), x, p);
      FaultRefutes(g, x, p);
    }
  }

  lemma FaultRefutes(g: Graph, x: Name, p: seq<Name>)
    requires IsFault(Succ(g), Bad(g), x, p)
    ensures ReachesOnlySound(g, x) ==> Closes(p) && AllKnown(g, p)
  {
    assert Reaches(Succ(g), x, p[|p| - 1]);
    forall i | 0 <= i < |p|
      ensures Reaches(Succ(g), x, p[i])
    {
      assert IsPathFrom(Succ(g), x, p[..i + 1]);
    }
  }

  lemma ClosingIsFault(g: Graph, x: Name, p: seq<Name>)
    requires IsPathFrom(Succ(g), x, p) && Closes(p)
    ensures exists q :: IsFault(Succ(g), Bad(g), x, q)
  {
    assert IsFault(Succ(g), Bad(g), x, p);
  }

  lemma ReachedIsSound(g: Graph, x: Name, y: Name)
    requires Buildable(g, x) && Reaches(Succ(g), x, y)
    ensures IsKnown(g, y) && !Bad(g)(y)
  {
    var p :| IsPathFrom(Succ(g), x, p) && p[|p| - 1] == y;
    var n: nat :| Sound(Succ(g), Bad(g), n, x);
    SoundAlongPath(Succ(g), Bad(g), n, p, |p| - 1);
    if !IsKnown(g, y) {
      UnknownIsItsOwnDependency(g, y);
    }
  }
}
