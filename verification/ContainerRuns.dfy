/** Runs in which callers ask the container for names, enter scopes and change its bindings in between. */
module ContainerRuns {
  import opened Digraph
  import opened Ioc
  import opened Outcomes
  import opened Resolution

  /** All that callers configure. */
  datatype Setup = Setup(config: Config, contextual: Contextual, rebindings: set<Name>)

  datatype Whole = Whole(setup: Setup, caches: Caches)

  type BindKind = k: BindingType | k != INSTANCE witness TRANSIENT

  datatype Action =
    | Ask(name: Name)
    | Enter(body: seq<Action>)
    | Bind(abs: Name, concrete: Option<Concrete>, kind: BindKind)
    | Instance(abs: Name, obj: Object)
    | Override(abs: Name, con: Concrete)
    | Forget(abs: Name)
    | Fresh(abs: Name)
    | Alias(abs: Name, name: Name)
    | AddContextual(abs: Name, needs: Name, con: Concrete)
    | Extend(abs: Name, e: Extender)
    | Rebinding(abs: Name)
    | Flush

  /** What an action gave: an answer for a resolved name, the replies inside a scope, or nothing. */
  datatype Reply = Answered(key: Name, made: Made) | FromScope(replies: seq<Reply>) | Done

  // ---- What actions do to the setup -----------------------------------------

  function Changed(u: Setup, a: Action): Setup
    decreases a
  {
    match a
    case Ask(_) => u
    case Enter(body) => ChangedAll(u, body)
    case Bind(abs, concrete, kind) =>
      u.(config := u.config.(bindings :=
        u.config.bindings[abs := Binding(if concrete.Some? then concrete.value else Redirect(abs), kind)]))
    case Instance(abs, obj) => u.(config := u.config.(bindings := u.config.bindings[abs := Binding(Value(obj), INSTANCE)]))
    case Override(abs, con) => u.(config := u.config.(bindings := u.config.bindings[abs := Binding(con, TRANSIENT)]))
    case Forget(abs) =>
      u.(config := u.config.(bindings := u.config.bindings - {abs},
                             aliases := map k | k in u.config.aliases && u.config.aliases[k] != abs :: u.config.aliases[k]))
    case Fresh(_) => u
    case Alias(abs, name) => u.(config := u.config.(aliases := u.config.aliases[name := abs]))
    case AddContextual(abs, needs, con) =>
      u.(contextual := u.contextual[abs := (if abs in u.contextual then u.contextual[abs] else map[])[needs := con]])
    case Extend(abs, e) =>
      u.(config := u.config.(extenders :=
        u.config.extenders[abs := (if abs in u.config.extenders then u.config.extenders[abs] else []) + [e]]))
    case Rebinding(abs) => u.(rebindings := u.rebindings + {abs})
    case Flush => Setup(Config(map[], map[], map[]), map[], u.rebindings)
  }

  function ChangedAll(u: Setup, acts: seq<Action>): Setup
    decreases acts
  {
    if acts == [] then u else Changed(ChangedAll(u, acts[..|acts| - 1]), acts[|acts| - 1])
  }

  /** When names are made, following redirects ends. */
  ghost predicate CanDo(u: Setup, a: Action)
    decreases a
  {
    match a
    case Ask(name) => RedirectsEnd(u.config, u.contextual, {Key(u.config, name)})
    case Fresh(abs) => abs in u.rebindings ==> RedirectsEnd(u.config, u.contextual, {Key(u.config, abs)})
    case Enter(body) => CanDoAll(u, body)
    case _ => true
  }

  ghost predicate CanDoAll(u: Setup, acts: seq<Action>)
    decreases acts
  {
    forall i :: 0 <= i < |acts| ==> CanDo(ChangedAll(u, acts[..i]), acts[i])
  }

  /** What each configuring action does to the setup. */
  lemma ChangesExactly(u: Setup, a: Action)
    ensures a.Ask? || a.Fresh? ==> Changed(u, a) == u
    ensures a.Bind? ==> Changed(u, a) == u.(config := u.config.(bindings := u.config.bindings[a.abs :=
              Binding(if a.concrete.None? then Redirect(a.abs) else a.concrete.value, a.kind)]))
    ensures a.Override? ==> Changed(u, a).config.bindings == u.config.bindings[a.abs := Binding(a.con, TRANSIENT)]
    ensures a.Instance? ==> Changed(u, a).config.bindings == u.config.bindings[a.abs := Binding(Value(a.obj), INSTANCE)]
    ensures a.Forget? ==> Changed(u, a).config.bindings == u.config.bindings - {a.abs}
                          && (forall k :: k in Changed(u, a).config.aliases <==> k in u.config.aliases && u.config.aliases[k] != a.abs)
                          && forall k :: k in Changed(u, a).config.aliases ==> Changed(u, a).config.aliases[k] == u.config.aliases[k]
    ensures a.Extend? ==> Changed(u, a).config.extenders == u.config.extenders[a.abs :=
              (if a.abs in u.config.extenders then u.config.extenders[a.abs] else []) + [a.e]]
    ensures a.AddContextual? ==> a.abs in Changed(u, a).contextual && a.needs in Changed(u, a).contextual[a.abs]
                                 && Changed(u, a).contextual[a.abs][a.needs] == a.con
    ensures a.Alias? ==> Changed(u, a) == u.(config := u.config.(aliases := u.config.aliases[a.name := a.abs]))
  {
  }

  // ---- What a run keeps of a singleton -----------------------------------------

  /** The action drops, replaces or rebinds x itself. Binding x as a singleton again does not. */
  predicate Resets(a: Action, x: Name)
    decreases a
  {
    match a
    case Bind(abs, _, kind) => abs == x && kind != SINGLETON
    case Instance(abs, _) => abs == x
    case Override(abs, _) => abs == x
    case Forget(abs) => abs == x
    case Fresh(abs) => abs == x
    case Flush => true
    case Enter(body) => exists i :: 0 <= i < |body| && Resets(body[i], x)
    case _ => false
  }

  /** An action resets x exactly if it flushes, makes it again, or binds, replaces or forgets it other than
      by binding it as a singleton; a scope does so if an action in it does. */
  lemma ResetsExactly(a: Action, x: Name)
    ensures !a.Enter? ==>
              (Resets(a, x) <==>
               a.Flush? || ((a.Fresh? || a.Instance? || a.Override? || a.Forget? || (a.Bind? && a.kind != SINGLETON)) && a.abs == x))
    ensures a.Enter? ==> (Resets(a, x) <==> exists i :: 0 <= i < |a.body| && Resets(a.body[i], x))
  {
  }

  ghost predicate IsSingleton(w: Whole, x: Name) {
    && x in w.setup.config.bindings && w.setup.config.bindings[x].bindingType == SINGLETON
    && x !in w.caches.scoped
  }

  ghost predicate IsCached(s: Caches, x: Name, obj: Object) {
    x in s.instances && s.instances[x] == obj
  }

  /** Every answer given for x is the instance cached for it. */
  ghost predicate AllSame(replies: seq<Reply>, x: Name, s: Caches)
    decreases replies
  {
    forall i :: 0 <= i < |replies| ==>
      match replies[i]
      case Answered(key, made) => key == x && made.Success? ==> IsCached(s, x, made.value)
      case FromScope(inner) => AllSame(inner, x, s)
      case Done => true
  }

  /** The cached instance stays, a factory run completed exactly if an instance was added or an extender
      failed afterwards, and new objects that asked for x were given the instance. */
  ghost predicate Continued(s: Caches, t: Caches, x: Name) {
    && (x in s.instances ==> IsCached(t, x, s.instances[x]))
    && t.completions[x] + s.spoiled[x] == s.completions[x] + t.spoiled[x] + (if x in t.instances && x !in s.instances then 1 else 0)
    && s.spoiled[x] <= t.spoiled[x]
    && s.wires <= t.wires
    && forall w :: w in t.wires && w.name == x ==> w in s.wires || IsCached(t, x, w.part)
  }

  predicate Adds(a: Action, x: Name)
    decreases a
  {
    match a
    case Extend(abs, _) => abs == x
    case Enter(body) => exists i :: 0 <= i < |body| && Adds(body[i], x)
    case _ => false
  }

  predicate HasExtenders(u: Setup, x: Name) {
    x in u.config.extenders && u.config.extenders[x] != []
  }

  /** x has no extenders and is given none. */
  ghost predicate StaysBare(w: Whole, acts: seq<Action>, x: Name) {
    !HasExtenders(w.setup, x) && forall i :: 0 <= i < |acts| ==> !Adds(acts[i], x)
  }

  /** How many requests failed, at any depth of scopes. */
  function FailedReplies(replies: seq<Reply>): nat
    decreases replies
  {
    if replies == [] then 0 else FailedReplies(replies[..|replies| - 1]) + FailedIn(replies[|replies| - 1])
  }

  function FailedIn(reply: Reply): nat
    decreases reply
  {
    match reply
    case Answered(_, made) => if made.Success? then 0 else 1
    case FromScope(inner) => FailedReplies(inner)
    case Done => 0
  }

  lemma FailedOne(reply: Reply)
    ensures FailedReplies([reply]) == FailedIn(reply)
  {
    assert [reply][..0] == [];
  }

  lemma FailedNext(replies: seq<Reply>, reply: Reply)
    ensures FailedReplies(replies + [reply]) == FailedReplies(replies) + FailedReplies([reply])
  {
    FailedOne(reply);
    assert (replies + [reply])[..|replies|] == replies;
  }

  /** Extenders of x failed after its factory completed in no more requests than failed, and in none if x
      has no extenders. */
  ghost predicate SpoilsFew(w: Whole, acts: seq<Action>, replies: seq<Reply>, v: Whole, x: Name) {
    && v.caches.spoiled[x] <= w.caches.spoiled[x] + FailedReplies(replies)
    && (StaysBare(w, acts, x) ==> !HasExtenders(v.setup, x) && v.caches.spoiled[x] == w.caches.spoiled[x])
  }

  ghost predicate Keeps(w: Whole, acts: seq<Action>, replies: seq<Reply>, v: Whole, x: Name) {
    IsSingleton(w, x) && (forall i :: 0 <= i < |acts| ==> !Resets(acts[i], x)) ==>
      && IsSingleton(v, x) && Continued(w.caches, v.caches, x) && AllSame(replies, x, v.caches)
      && SpoilsFew(w, acts, replies, v, x)
  }

  lemma {:induction false} SameStays(replies: seq<Reply>, x: Name, s: Caches, t: Caches)
    requires AllSame(replies, x, s) && Continued(s, t, x)
    ensures AllSame(replies, x, t)
    decreases replies
  {
    forall i | 0 <= i < |replies| && replies[i].FromScope?
      ensures AllSame(replies[i].replies, x, t)
    {
      SameStays(replies[i].replies, x, s, t);
    }
  }

  lemma KeepsNext(w: Whole, acts: seq<Action>, replies: seq<Reply>, v: Whole, a: Action, reply: Reply, u: Whole, x: Name)
    requires Keeps(w, acts, replies, v, x) && Keeps(v, [a], [reply], u, x)
    ensures Keeps(w, acts + [a], replies + [reply], u, x)
  {
    var all := acts + [a];
    if IsSingleton(w, x) && (forall i :: 0 <= i < |all| ==> !Resets(all[i], x)) {
      assert forall i :: 0 <= i < |acts| ==> acts[i] == all[i];
      assert all[|acts|] == a;
      SameStays(replies, x, v.caches, u.caches);
      SameAppend(replies, reply, x, u.caches);
      SpoilsFewNext(w, acts, replies, v, a, reply, u, x);
      hide AllSame, SpoilsFew;
    }
  }

  lemma SameAppend(replies: seq<Reply>, reply: Reply, x: Name, s: Caches)
    requires AllSame(replies, x, s) && AllSame([reply], x, s)
    ensures AllSame(replies + [reply], x, s)
  {
    assert [reply][0] == reply;
  }

  lemma SpoilsFewNext(w: Whole, acts: seq<Action>, replies: seq<Reply>, v: Whole, a: Action, reply: Reply, u: Whole, x: Name)
    requires SpoilsFew(w, acts, replies, v, x) && SpoilsFew(v, [a], [reply], u, x)
    ensures SpoilsFew(w, acts + [a], replies + [reply], u, x)
  {
    FailedNext(replies, reply);
    hide FailedReplies;
    var all := acts + [a];
    assert forall i :: 0 <= i < |acts| ==> acts[i] == all[i];
    assert all[|acts|] == a;
  }

  // ---- What a run keeps of a scoped name ------------------------------------------

  /** The action drops, replaces or rebinds the scoped name x. */
  predicate Rebinds(a: Action, x: Name)
    decreases a
  {
    match a
    case Bind(abs, _, kind) => abs == x && kind != SCOPED
    case Instance(abs, _) => abs == x
    case Override(abs, _) => abs == x
    case Forget(abs) => abs == x
    case Flush => true
    case Enter(body) => exists i :: 0 <= i < |body| && Rebinds(body[i], x)
    case _ => false
  }

  ghost predicate IsScopedName(w: Whole, x: Name) {
    && x in w.setup.config.bindings && w.setup.config.bindings[x].bindingType == SCOPED
    && x !in w.caches.instances
  }

  predicate Gave(reply: Reply, x: Name, obj: Object) {
    reply == Answered(x, Success(obj))
  }

  /** In the scope of these replies, and in each scope inside, all answers for x are one object. */
  ghost predicate OnePerScope(replies: seq<Reply>, x: Name)
    decreases replies
  {
    && (forall i, j, a, b :: 0 <= i < |replies| && 0 <= j < |replies| && Gave(replies[i], x, a) && Gave(replies[j], x, b) ==> a == b)
    && forall i :: 0 <= i < |replies| && replies[i].FromScope? ==> OnePerScope(replies[i].replies, x)
  }

  /** The object cached for x in the current scope stays, every answer of this scope is that object, and
      each scope inside has one of its own. */
  ghost predicate KeepsScoped(w: Whole, acts: seq<Action>, replies: seq<Reply>, v: Whole, x: Name) {
    IsScopedName(w, x) && (forall i :: 0 <= i < |acts| ==> !Rebinds(acts[i], x)) ==>
      && IsScopedName(v, x)
      && (x in w.caches.scoped ==> IsInScope(v.caches, x, w.caches.scoped[x]))
      && (forall i, obj :: 0 <= i < |replies| && Gave(replies[i], x, obj) ==> IsInScope(v.caches, x, obj))
      && OnePerScope(replies, x)
  }

  ghost predicate IsInScope(s: Caches, x: Name, obj: Object) {
    x in s.scoped && s.scoped[x] == obj
  }

  lemma KeepsScopedNext(w: Whole, acts: seq<Action>, replies: seq<Reply>, v: Whole, a: Action, reply: Reply, u: Whole, x: Name)
    requires KeepsScoped(w, acts, replies, v, x) && KeepsScoped(v, [a], [reply], u, x)
    ensures KeepsScoped(w, acts + [a], replies + [reply], u, x)
  {
    var all, given := acts + [a], replies + [reply];
    if IsScopedName(w, x) && forall i :: 0 <= i < |all| ==> !Rebinds(all[i], x) {
      assert forall i :: 0 <= i < |acts| ==> acts[i] == all[i];
      assert all[|acts|] == a && [a][0] == a && [reply][0] == reply;
      assert IsScopedName(v, x) && IsScopedName(u, x);
      forall i, obj | 0 <= i < |given| && Gave(given[i], x, obj)
        ensures IsInScope(u.caches, x, obj)
      {
        if i < |replies| {
          assert Gave(replies[i], x, obj) && IsInScope(v.caches, x, obj);
        } else {
          assert Gave([reply][0], x, obj);
        }
      }
      forall i | 0 <= i < |given| && given[i].FromScope?
        ensures OnePerScope(given[i].replies, x)
      {
        assert i < |replies| ==> given[i] == replies[i];
        assert i == |replies| ==> given[i] == [reply][0];
      }
      forall i, j, o, p | 0 <= i < |given| && 0 <= j < |given| && Gave(given[i], x, o) && Gave(given[j], x, p)
        ensures o == p
      {
        assert IsInScope(u.caches, x, o) && IsInScope(u.caches, x, p);
      }
      assert x in w.caches.scoped ==> IsInScope(v.caches, x, w.caches.scoped[x]);
    }
  }

  /** What resolving does to the caches, seen from one scoped name. */
  lemma GrownKeepsScoped(w: Whole, a: Action, reply: Reply, v: Whole, x: Name)
    requires (a.Ask? || a.Fresh?) && !reply.FromScope? && v.setup == w.setup
    requires exists s: Caches :: s.scoped == w.caches.scoped && s.instances.Keys <= w.caches.instances.Keys &&
               Grown(w.setup.config.bindings, [], s, v.caches)
    requires reply.Answered? && reply.made.Success? ==> IsShared(v.setup.config.bindings, v.caches, reply.key, reply.made.value)
    ensures KeepsScoped(w, [a], [reply], v, x)
  {
    if IsScopedName(w, x) {
      var s: Caches :| s.scoped == w.caches.scoped && s.instances.Keys <= w.caches.instances.Keys &&
        Grown(w.setup.config.bindings, [], s, v.caches);
      assert x !in v.caches.instances;
    }
  }

  ghost predicate KeepsAll(w: Whole, acts: seq<Action>, replies: seq<Reply>, v: Whole) {
    (forall x :: Keeps(w, acts, replies, v, x) && KeepsScoped(w, acts, replies, v, x)) && (IsNumbered(w.caches) ==> IsNumbered(v.caches))
  }

  /** What resolving does to the caches, seen from one singleton. */
  lemma GrownContinues(bindings: map<Name, Binding>, s: Caches, t: Caches, x: Name)
    requires Grown(bindings, [], s, t) && x in bindings && bindings[x].bindingType == SINGLETON && x !in s.scoped
    ensures Continued(s, t, x) && x !in t.scoped
  {
  }

  // ---- Requests with nothing being built ----------------------------------------

  /** The trees of everything a request can see in the caches. */
  ghost function CachedTrees(s: Caches): map<Name, Tree> {
    map x | x in s.instances.Keys + s.scoped.Keys :: (if x in s.instances then s.instances[x] else s.scoped[x]).tree
  }

  /** Seen from the caches as they are now, everything cached is true. */
  lemma CachedIsCoherent(c: Config, s: Caches)
    ensures Coherent(Graph(c, CachedTrees(s)), s)
  {
    var g := Graph(c, CachedTrees(s));
    forall x | x in g.base
      ensures Yields(g, x, g.base[x])
    {
      assert Eval(g, 1, x) == Some(g.base[x]);
    }
    assert forall x :: x in s.instances ==> x in g.base && g.base[x] == s.instances[x].tree;
    assert forall x :: x in s.scoped && x !in s.instances ==> x in g.base && g.base[x] == s.scoped[x].tree;
  }

  ghost function SetupOf(c: Container): Setup
    reads c
  {
    Setup(c.Configuration(), c.contextual, c.rebindings)
  }

  ghost function WholeOf(c: Container): Whole
    reads c
  {
    Whole(SetupOf(c), c.Snapshot())
  }

  /** A request with nothing being built. Without contextual bindings, it gives what the cache-free
      evaluator gives from what is cached. */
  method Request(c: Container, a: Name) returns (key: Name, made: Made)
    requires c.buildStack == [] && RedirectsEnd(c.Configuration(), c.contextual, {Key(c.Configuration(), a)})
    modifies c`instances, c`scopedInstances, c`buildStack, c`nextId, c`completions, c`spoiled, c`wires
    ensures c.buildStack == [] && key == Key(c.Configuration(), a)
    ensures key == if a in c.aliases then c.aliases[a] else a
    ensures ReturnsCached(old(c.Snapshot()), c.Snapshot(), key, made)
    ensures key in old(c.instances) ==> made == Success(old(c.instances)[key]) && c.Snapshot() == old(c.Snapshot())
    ensures key !in old(c.instances) && key in old(c.scopedInstances) ==>
              made == Success(old(c.scopedInstances)[key]) && c.Snapshot() == old(c.Snapshot())
    ensures Grown(c.bindings, [], old(c.Snapshot()), c.Snapshot())
    ensures made.Success? ==> IsShared(c.bindings, c.Snapshot(), key, made.value)
    ensures made.Success? ==> IsNewObject(c.Configuration(), c.contextual, [], old(c.Snapshot()), c.Snapshot(), key, made.value)
    ensures made.Failure? ==> Lookup(c.Snapshot(), key).None?
    ensures SpoilsOnly(Graph(c.Configuration(), CachedTrees(old(c.Snapshot()))), c.contextual == map[], old(c.spoiled), c.spoiled,
              if made.Success? then 0 else 1)
    ensures c.contextual == map[] ==> SpoilsIfExpected(Graph(c.Configuration(), CachedTrees(old(c.Snapshot()))), c.bindings,
              old(c.Snapshot()), c.Snapshot(), key)
    ensures c.contextual == map[] ==> IsAnswer(Graph(c.Configuration(), CachedTrees(old(c.Snapshot()))), [], key, made)
  {
    ghost var g := Graph(c.Configuration(), CachedTrees(c.Snapshot()));
    CachedIsCoherent(c.Configuration(), c.Snapshot());
    ghost var v := ViewExists(g, c.contextual, {Key(c.Configuration(), a)});
    assert IsStack([], v.names) && Key(c.Configuration(), a) in {Key(c.Configuration(), a)};
    hide Coherent, Grown, IsShared, IsNewObject, IsAnswer, RedirectsEnd, SpoilsOnly, SpoilsIfExpected, IsMadeBy;
    key := if a in c.aliases then c.aliases[a] else a;
    made := c.Make(a, v);
  }

  // ---- Requests through aliases ----------------------------------------------------

  /** After `alias`, a request by the alias is a request for what it leads to: without contextual bindings
      both have the same outcome and the same tree, and for a cached name or a singleton the same object. */
  method RequestThroughAlias(c: Container, abs: Name, name: Name) returns (viaAlias: Made, direct: Made)
    requires c.buildStack == [] && name != abs && abs !in c.aliases
    requires RedirectsEnd(c.Configuration().(aliases := c.aliases[name := abs]), c.contextual, {abs})
    modifies c
    ensures c.aliases == old(c.aliases)[name := abs] && c.bindings == old(c.bindings) && c.extenders == old(c.extenders)
    ensures c.contextual == old(c.contextual) && c.buildStack == []
    ensures c.contextual == map[] ==>
              (viaAlias.Success? <==> direct.Success?) && (direct.Success? ==> viaAlias.Success? && viaAlias.value.tree == direct.value.tree)
    ensures abs in old(c.instances) ==> viaAlias == direct == Success(old(c.instances)[abs])
    ensures abs in c.bindings && (c.bindings[abs].bindingType == SINGLETON || c.bindings[abs].bindingType == SCOPED) && viaAlias.Success? ==>
              direct == viaAlias
  {
    c.Alias(abs, name);
    ghost var g := Graph(c.Configuration(), CachedTrees(c.Snapshot()));
    CachedIsCoherent(c.Configuration(), c.Snapshot());
    ghost var v := ViewExists(g, c.contextual, {abs});
    assert IsStack([], v.names) && abs in {abs};
    hide Coherent, Grown, IsNewObject, IsAnswer, RedirectsEnd, SpoilsOnly, SpoilsIfExpected;
    viaAlias := c.Make(name, v);
    direct := c.Make(abs, v);
    if v.plain {
      AnswersAgree(v.g, abs, viaAlias, direct);
    }
  }

  // ---- Performing actions ----------------------------------------------------------

  predicate IsConfiguring(a: Action) {
    !a.Ask? && !a.Enter? && !a.Fresh?
  }

  /** What an action that only configures does to the caches. */
  function CachesAfter(s: Caches, a: Action): Caches {
    match a
    case Instance(abs, obj) => s.(instances := s.instances[abs := obj])
    case Override(abs, _) => s.(instances := s.instances - {abs})
    case Forget(abs) => s.(instances := s.instances - {abs})
    case Flush => s.(instances := map[], scoped := map[])
    case _ => s
  }

  method Configure(c: Container, a: Action)
    requires IsConfiguring(a)
    modifies c
    ensures SetupOf(c) == Changed(old(SetupOf(c)), a) && c.Snapshot() == CachesAfter(old(c.Snapshot()), a)
    ensures c.buildStack == old(c.buildStack)
  {
    if IsLinking(a) {
      ConfigureLinks(c, a);
      return;
    }
    match a {
      case Bind(abs, concrete, kind) => c.Bind(abs, concrete, kind);
      case Instance(abs, obj) => c.Instance(abs, obj);
      case Override(abs, con) => c.Override(abs, con);
      case Forget(abs) => c.Forget(abs);
    }
  }

  predicate IsLinking(a: Action) {
    a.Alias? || a.AddContextual? || a.Extend? || a.Rebinding? || a.Flush?
  }

  method ConfigureLinks(c: Container, a: Action)
    requires IsLinking(a)
    modifies c
    ensures SetupOf(c) == Changed(old(SetupOf(c)), a) && c.Snapshot() == CachesAfter(old(c.Snapshot()), a)
    ensures c.buildStack == old(c.buildStack)
  {
    ghost var s := c.Snapshot();
    match a {
      case Alias(abs, name) => c.Alias(abs, name);
      case AddContextual(abs, needs, con) => c.AddContextual(abs, needs, con);
      case Extend(abs, e) => c.Extend(abs, e);
      case Rebinding(abs) => c.Rebinding(abs);
      case Flush => c.Flush();
    }
    assert c.Snapshot() == if a.Flush? then s.(instances := map[], scoped := map[]) else s;
  }

  lemma ConfiguredKeeps(w: Whole, a: Action, v: Whole)
    requires IsConfiguring(a) && v.setup == Changed(w.setup, a) && v.caches == CachesAfter(w.caches, a)
    ensures KeepsAll(w, [a], [Done], v)
  {
    assert [a][0] == a && [Done][0] == Done;
    FailedOne(Done);
  }

  lemma AskedKeeps(w: Whole, a: Action, key: Name, made: Made, v: Whole, g: Graph, plain: bool)
    requires a.Ask? && v.setup == w.setup && Grown(w.setup.config.bindings, [], w.caches, v.caches)
    requires made.Success? ==> IsShared(v.setup.config.bindings, v.caches, key, made.value)
    requires g.config == w.setup.config && SpoilsOnly(g, plain, w.caches.spoiled, v.caches.spoiled, if made.Success? then 0 else 1)
    ensures KeepsAll(w, [a], [Answered(key, made)], v)
  {
    forall x
      ensures Keeps(w, [a], [Answered(key, made)], v, x) && KeepsScoped(w, [a], [Answered(key, made)], v, x)
    {
      GrownKeepsScoped(w, a, Answered(key, made), v, x);
      if IsSingleton(w, x) {
        GrownContinues(w.setup.config.bindings, w.caches, v.caches, x);
        FailedOne(Answered(key, made));
      }
    }
  }

  /** The answer to a request for this name from these caches: what is cached, or without contextual bindings
      what the cache-free evaluator gives from it. */
  ghost predicate IsReply(w: Whole, name: Name, s: Caches, t: Caches, reply: Reply) {
    && reply.Answered? && reply.key == (if name in w.setup.config.aliases then w.setup.config.aliases[name] else name)
    && ReturnsCached(s, t, reply.key, reply.made)
    && (w.setup.contextual == map[] ==> IsAnswer(Graph(w.setup.config, CachedTrees(s)), [], reply.key, reply.made))
  }

  /** What one action does to everything, and what it replies. */
  ghost predicate IsStep(w: Whole, a: Action, reply: Reply, v: Whole)
    decreases a
  {
    v.setup == Changed(w.setup, a) &&
    match a
    case Ask(name) => IsReply(w, name, w.caches, v.caches, reply)
    case Fresh(abs) =>
      var dropped := w.caches.(instances := w.caches.instances - {abs});
      if abs in w.setup.rebindings then IsReply(w, abs, dropped, v.caches, reply) else reply == Done && v.caches == dropped
    case Enter(body) =>
      reply.FromScope? && exists wholes: seq<Whole> ::
        && AreSteps(w.(caches := w.caches.(scoped := map[])), body, reply.replies, wholes)
        && v.caches == wholes[|body|].caches.(scoped := w.caches.scoped)
    case _ => reply == Done && v.caches == CachesAfter(w.caches, a)
  }

  /** A run goes through these states, one action after the other. */
  ghost predicate AreSteps(w: Whole, acts: seq<Action>, replies: seq<Reply>, wholes: seq<Whole>)
    decreases acts
  {
    && |replies| == |acts| && |wholes| == |acts| + 1 && wholes[0] == w
    && forall i :: 0 <= i < |acts| ==> IsStep(wholes[i], acts[i], replies[i], wholes[i + 1])
  }

  lemma StepsNext(w: Whole, acts: seq<Action>, i: nat, replies: seq<Reply>, wholes: seq<Whole>, reply: Reply, v: Whole)
    requires i < |acts| && AreSteps(w, acts[..i], replies, wholes) && IsStep(wholes[i], acts[i], reply, v)
    ensures AreSteps(w, acts[..i + 1], replies + [reply], wholes + [v])
  {
    hide IsStep;
    var more, given, states := acts[..i + 1], replies + [reply], wholes + [v];
    forall j | 0 <= j < |more|
      ensures IsStep(states[j], more[j], given[j], states[j + 1])
    {
      if j < i {
        assert IsStep(wholes[j], acts[..i][j], replies[j], wholes[j + 1]);
      }
    }
  }

  lemma EnteredStep(w: Whole, body: seq<Action>, replies: seq<Reply>, wholes: seq<Whole>, v: Whole)
    requires AreSteps(w.(caches := w.caches.(scoped := map[])), body, replies, wholes)
    requires v.setup == Changed(w.setup, Enter(body)) && v.caches == wholes[|body|].caches.(scoped := w.caches.scoped)
    ensures IsStep(w, Enter(body), FromScope(replies), v)
  {
  }

  /** Drops a cached instance, and makes it again if it has rebinding callbacks. */
  method Refresh(c: Container, abs: Name) returns (reply: Reply)
    requires c.buildStack == [] && CanDo(SetupOf(c), Action.Fresh(abs))
    modifies c
    ensures c.buildStack == [] && SetupOf(c) == old(SetupOf(c))
    ensures KeepsAll(old(WholeOf(c)), [Action.Fresh(abs)], [reply], WholeOf(c))
    ensures IsStep(old(WholeOf(c)), Action.Fresh(abs), reply, WholeOf(c))
  {
    ghost var w := WholeOf(c);
    ghost var dropped := w.caches.(instances := w.caches.instances - {abs});
    ghost var v := AnyView(c, dropped, abs);
    var made := c.Fresh(abs, v);
    hide Grown, IsShared, Keeps, KeepsAll, Changed;
    reply := if made.Some? then Answered(if abs in c.aliases then c.aliases[abs] else abs, made.value) else Done;
    FreshKeeps(w, abs, Key(c.Configuration(), abs), made, WholeOf(c), v.g, v.plain);
  }

  /** A view for making a name again after its instance was dropped. */
  lemma AnyView(c: Container, s: Caches, abs: Name) returns (v: View)
    requires c.buildStack == [] && CanDo(SetupOf(c), Action.Fresh(abs)) && s == c.Snapshot().(instances := c.instances - {abs})
    ensures v.g.config == c.Configuration()
    ensures abs in c.rebindings ==> v.g == Graph(c.Configuration(), CachedTrees(s)) && (v.plain <==> c.contextual == map[])
    ensures abs in c.rebindings ==> c.ReadyWithout(v, abs) && v.visited(c.buildStack, Key(c.Configuration(), abs))
  {
    if abs in c.rebindings {
      var g := Graph(c.Configuration(), CachedTrees(s));
      CachedIsCoherent(c.Configuration(), s);
      v := ViewExists(g, c.contextual, {Key(c.Configuration(), abs)});
      assert Key(c.Configuration(), abs) in {Key(c.Configuration(), abs)};
    } else {
      PlainRedirectsEnd(c.Configuration(), {});
      v := ViewExists(Graph(c.Configuration(), map[]), map[], {});
    }
  }

  lemma FreshKeeps(w: Whole, abs: Name, key: Name, made: Option<Made>, v: Whole, g: Graph, plain: bool)
    requires g.config == w.setup.config
    requires SpoilsOnly(g, plain, w.caches.spoiled, v.caches.spoiled, if made.Some? && made.value.Failure? then 1 else 0)
    requires v.setup == w.setup
    requires var dropped := w.caches.(instances := w.caches.instances - {abs});
      && (made.None? ==> v.caches == dropped)
      && (made.Some? ==> Grown(w.setup.config.bindings, [], dropped, v.caches))
      && (made.Some? && made.value.Success? ==> IsShared(v.setup.config.bindings, v.caches, key, made.value.value))
    ensures KeepsAll(w, [Action.Fresh(abs)], [if made.Some? then Answered(key, made.value) else Done], v)
  {
    var dropped, reply := w.caches.(instances := w.caches.instances - {abs}), if made.Some? then Answered(key, made.value) else Done;
    forall x
      ensures Keeps(w, [Action.Fresh(abs)], [reply], v, x) && KeepsScoped(w, [Action.Fresh(abs)], [reply], v, x)
    {
      if made.None? {
        GrownReflexive(w.setup.config.bindings, [], dropped);
      }
      GrownKeepsScoped(w, Action.Fresh(abs), reply, v, x);
      if IsSingleton(w, x) && x != abs && made.Some? {
        GrownContinues(w.setup.config.bindings, dropped, v.caches, x);
      }
      assert Resets([Action.Fresh(abs)][0], x) <==> x == abs;
      FailedOne(reply);
    }
  }

  lemma ScopeKeeps(w: Whole, body: seq<Action>, replies: seq<Reply>, inner: Whole)
    requires KeepsAll(w.(caches := w.caches.(scoped := map[])), body, replies, inner)
    ensures KeepsAll(w, [Enter(body)], [FromScope(replies)], inner.(caches := inner.caches.(scoped := w.caches.scoped)))
  {
    var begun, v := w.(caches := w.caches.(scoped := map[])), inner.(caches := inner.caches.(scoped := w.caches.scoped));
    forall x
      ensures Keeps(w, [Enter(body)], [FromScope(replies)], v, x) && KeepsScoped(w, [Enter(body)], [FromScope(replies)], v, x)
    {
      assert KeepsScoped(begun, body, replies, inner, x);
      assert Rebinds([Enter(body)][0], x) <==> exists i :: 0 <= i < |body| && Rebinds(body[i], x);
      assert Keeps(begun, body, replies, inner, x);
      assert Resets([Enter(body)][0], x) <==> exists i :: 0 <= i < |body| && Resets(body[i], x);
      if IsSingleton(w, x) && !Resets(Enter(body), x) {
        SameHolds(replies, x, inner.caches, v.caches);
        FailedOne(FromScope(replies));
        assert Adds([Enter(body)][0], x) <==> exists i :: 0 <= i < |body| && Adds(body[i], x);
      }
    }
  }

  lemma SameHolds(replies: seq<Reply>, x: Name, s: Caches, t: Caches)
    requires AllSame(replies, x, s) && s.instances == t.instances
    ensures AllSame([FromScope(replies)], x, t)
  {
    if AllSame(replies, x, s) {
      SameByInstances(replies, x, s, t);
    }
    assert [FromScope(replies)][0] == FromScope(replies);
  }

  lemma {:induction false} SameByInstances(replies: seq<Reply>, x: Name, s: Caches, t: Caches)
    requires AllSame(replies, x, s) && s.instances == t.instances
    ensures AllSame(replies, x, t)
    decreases replies
  {
    forall i | 0 <= i < |replies| && replies[i].FromScope?
      ensures AllSame(replies[i].replies, x, t)
    {
      SameByInstances(replies[i].replies, x, s, t);
    }
  }

  lemma NothingKeeps(w: Whole)
    ensures KeepsAll(w, [], [], w)
  {
  }

  /** One action, with nothing being built. */
  method PerformOne(c: Container, a: Action) returns (reply: Reply)
    requires c.buildStack == [] && CanDo(SetupOf(c), a)
    modifies c
    ensures c.buildStack == [] && SetupOf(c) == Changed(old(SetupOf(c)), a)
    ensures KeepsAll(old(WholeOf(c)), [a], [reply], WholeOf(c)) && IsStep(old(WholeOf(c)), a, reply, WholeOf(c))
    decreases a
  {
    hide KeepsAll, Grown, IsShared, CachesAfter, RedirectsEnd, AreSteps, IsNewObject, IsAnswer, SpoilsOnly, SpoilsIfExpected;
    ghost var w := WholeOf(c);
    match a {
      case Ask(name) =>
        var key, made := Request(c, name);
        reply := Answered(key, made);
        AskedKeeps(w, a, key, made, WholeOf(c), Graph(w.setup.config, CachedTrees(w.caches)), w.setup.contextual == map[]);
      case Fresh(abs) =>
        reply := Refresh(c, abs);
      case Enter(body) =>
        var previous := c.scopedInstances;
        c.scopedInstances := map[];
        ghost var wholes;
        var replies;
        replies, wholes := Perform(c, body);
        ghost var inner := WholeOf(c);
        c.scopedInstances := previous;
        reply := FromScope(replies);
        ScopeKeeps(w, body, replies, inner);
        EnteredStep(w, body, replies, wholes, WholeOf(c));
      case _ =>
        Configure(c, a);
        reply := Done;
        ConfiguredKeeps(w, a, WholeOf(c));
    }
  }

  /** A run of actions. A singleton that none of them resets keeps its instance, its factory completes at
      most once and once more for each request in which an extender failed, and all answers for it, direct or
      through aliases, in scopes or outside, are that one instance, whatever else is bound, overridden, made
      again or forgotten in between. */
  method Perform(c: Container, acts: seq<Action>) returns (replies: seq<Reply>, ghost wholes: seq<Whole>)
    requires c.buildStack == [] && CanDoAll(SetupOf(c), acts)
    modifies c
    ensures c.buildStack == [] && SetupOf(c) == ChangedAll(old(SetupOf(c)), acts)
    ensures KeepsAll(old(WholeOf(c)), acts, replies, WholeOf(c))
    ensures AreSteps(old(WholeOf(c)), acts, replies, wholes) && wholes[|acts|] == WholeOf(c)
    decreases acts
  {
    hide KeepsAll, CanDo, Changed, IsStep;
    ghost var w := WholeOf(c);
    replies, wholes := [], [w];
    NothingKeeps(w);
    for i := 0 to |acts|
      invariant c.buildStack == [] && SetupOf(c) == ChangedAll(w.setup, acts[..i])
      invariant KeepsAll(w, acts[..i], replies, WholeOf(c))
      invariant AreSteps(w, acts[..i], replies, wholes) && wholes[i] == WholeOf(c)
    {
      ghost var before := WholeOf(c);
      var reply := PerformOne(c, acts[i]);
      KeepsAllNext(w, acts[..i], replies, before, acts[i], reply, WholeOf(c));
      assert acts[..i + 1][..i] == acts[..i] && acts[..i] + [acts[i]] == acts[..i + 1];
      StepsNext(w, acts, i, replies, wholes, reply, WholeOf(c));
      replies, wholes := replies + [reply], wholes + [WholeOf(c)];
    }
    assert acts[..|acts|] == acts;
  }

  lemma KeepsAllNext(w: Whole, acts: seq<Action>, replies: seq<Reply>, v: Whole, a: Action, reply: Reply, u: Whole)
    requires KeepsAll(w, acts, replies, v) && KeepsAll(v, [a], [reply], u)
    ensures KeepsAll(w, acts + [a], replies + [reply], u)
  {
    hide Keeps, KeepsScoped;
    forall x
      ensures Keeps(w, acts + [a], replies + [reply], u, x) && KeepsScoped(w, acts + [a], replies + [reply], u, x)
    {
      assert Keeps(w, acts, replies, v, x) && Keeps(v, [a], [reply], u, x);
      assert KeepsScoped(w, acts, replies, v, x) && KeepsScoped(v, [a], [reply], u, x);
      KeepsScopedNext(w, acts, replies, v, a, reply, u, x);
      KeepsNext(w, acts, replies, v, a, reply, u, x);
    }
  }

  // ---- What this means for a whole run ----------------------------------------------

  /** Some reply, at any depth of scopes, gave obj for x. */
  ghost predicate WasAnswered(replies: seq<Reply>, x: Name, obj: Object)
    decreases replies
  {
    exists i :: 0 <= i < |replies| &&
      match replies[i]
      case Answered(key, made) => key == x && made == Success(obj)
      case FromScope(inner) => WasAnswered(inner, x, obj)
      case Done => false
  }

  lemma {:induction false} GivenIsCached(replies: seq<Reply>, x: Name, obj: Object, s: Caches)
    requires AllSame(replies, x, s) && WasAnswered(replies, x, obj)
    ensures IsCached(s, x, obj)
    decreases replies
  {
    var i :| 0 <= i < |replies| &&
      match replies[i]
      case Answered(key, made) => key == x && made == Success(obj)
      case FromScope(inner) => WasAnswered(inner, x, obj)
      case Done => false;
    if replies[i].FromScope? {
      GivenIsCached(replies[i].replies, x, obj, s);
    }
  }

  /** Between resets of a singleton, its factory completes once if it becomes cached, and once more for each
      request in which an extender of it failed afterwards; all answers for it, and the parts that new objects were given for it, are one object, the
      cached one. */
  lemma SingletonOverRun(w: Whole, acts: seq<Action>, replies: seq<Reply>, v: Whole, x: Name, obj: Object, other: Object)
    requires KeepsAll(w, acts, replies, v) && IsSingleton(w, x) && forall i :: 0 <= i < |acts| ==> !Resets(acts[i], x)
    ensures v.caches.completions[x] + w.caches.spoiled[x] ==
              w.caches.completions[x] + v.caches.spoiled[x] + if x in v.caches.instances && x !in w.caches.instances then 1 else 0
    ensures w.caches.spoiled[x] <= v.caches.spoiled[x] <= w.caches.spoiled[x] + FailedReplies(replies)
    ensures StaysBare(w, acts, x) ==> v.caches.spoiled[x] == w.caches.spoiled[x]
    ensures WasAnswered(replies, x, obj) && WasAnswered(replies, x, other) ==> obj == other
    ensures WasAnswered(replies, x, obj) && x in w.caches.instances ==> obj == w.caches.instances[x]
    ensures forall wire :: wire in v.caches.wires && wire.name == x ==> wire in w.caches.wires || IsCached(v.caches, x, wire.part)
    ensures WasAnswered(replies, x, obj) ==> IsCached(v.caches, x, obj)
  {
    assert Keeps(w, acts, replies, v, x);
    if WasAnswered(replies, x, obj) {
      GivenIsCached(replies, x, obj, v.caches);
    }
    if WasAnswered(replies, x, other) {
      GivenIsCached(replies, x, other, v.caches);
    }
  }

  /** A scoped name that no action rebinds is given as one object in each scope of a run, whatever else is
      bound, overridden or forgotten in between. */
  lemma ScopedOverRun(w: Whole, acts: seq<Action>, replies: seq<Reply>, v: Whole, x: Name)
    requires KeepsAll(w, acts, replies, v) && IsScopedName(w, x) && forall i :: 0 <= i < |acts| ==> !Rebinds(acts[i], x)
    ensures OnePerScope(replies, x)
    ensures forall i, obj :: 0 <= i < |replies| && Gave(replies[i], x, obj) ==> IsInScope(v.caches, x, obj)
    ensures x in w.caches.scoped ==> IsInScope(v.caches, x, w.caches.scoped[x])
  {
    assert KeepsScoped(w, acts, replies, v, x);
  }

  // ---- A factory that completes twice ------------------------------------------------

  function SpoiledConfig(): Config {
    Config(map["x" := Binding(Factory("f", [], false), SINGLETON)], map[], map["x" := [Extender("e", [], true)]])
  }

  lemma SpoiledConfigSpoils(base: map<Name, Tree>)
    requires "x" !in base
    ensures IsSpoiling(Graph(SpoiledConfig(), base), "x")
  {
    var g := Graph(SpoiledConfig(), base);
    assert CoreDeps(g.config, ConcreteOf(g.config, "x")) == [] && CoreBuilds(g, "x");
    assert ExtendersOf(g.config, "x")[0].raises && ExtendersBreak(g, ExtendersOf(g.config, "x"));
  }

  /** A singleton whose extender raises: both requests fail, and the factory runs to its end in both. */
  method SingletonFactoryRunsTwice() returns (first: Made, second: Made, c: Container)
    ensures first.Failure? && second.Failure?
    ensures c.completions["x"] == 2 && "x" !in c.instances
  {
    c := new Container();
    c.Bind("x", Option.Some(Factory("f", [], false)), SINGLETON);
    c.Extend("x", Extender("e", [], true));
    assert [] + [Extender("e", [], true)] == [Extender("e", [], true)];
    assert c.bindings == SpoiledConfig().bindings && c.extenders == SpoiledConfig().extenders;
    first := SpoiledRequest(c);
    second := SpoiledRequest(c);
  }

  method SpoiledRequest(c: Container) returns (made: Made)
    requires c.buildStack == [] && c.contextual == map[] && c.Configuration() == SpoiledConfig()
    requires "x" !in c.instances && "x" !in c.scopedInstances
    modifies c`instances, c`scopedInstances, c`buildStack, c`nextId, c`completions, c`spoiled, c`wires
    ensures c.buildStack == [] && "x" !in c.instances && "x" !in c.scopedInstances
    ensures made.Failure? && c.completions["x"] == old(c.completions)["x"] + 1
  {
    hide Grown, IsShared, IsNewObject, IsSpoiling, RedirectsEnd, IsAnswer;
    ghost var before := c.Snapshot();
    ghost var g := Graph(SpoiledConfig(), CachedTrees(before));
    SpoiledConfigSpoils(g.base);
    PlainRedirectsEnd(c.Configuration(), {"x"});
    var key;
    key, made := Request(c, "x");
    SpoilingFails(g, [], "x", made);
    SpoiledCompletes(c.bindings, before, c.Snapshot(), "x");
  }
}
