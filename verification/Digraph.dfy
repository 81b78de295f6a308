/** Paths in a finite or infinite directed graph given by its successor function.
    Shared by the container (what building a name asks for next) and by the
    provider check (the `depends` lists). */
module Digraph {

  /** p is a non-empty walk along edges. */
  ghost predicate IsPath<T(!new)>(succ: T -> set<T>, p: seq<T>) {
    |p| > 0 && forall i :: 0 <= i < |p| - 1 ==> p[i + 1] in succ(p[i])
  }

  /** The last node of p already occurs earlier in p. */
  ghost predicate Closes<T>(p: seq<T>) {
    |p| > 0 && p[|p| - 1] in p[..|p| - 1]
  }

  ghost predicate IsPathFrom<T(!new)>(succ: T -> set<T>, x: T, p: seq<T>) {
    IsPath(succ, p) && p[0] == x
  }

  ghost predicate ReachesCycle<T(!new)>(succ: T -> set<T>, x: T) {
    exists p :: IsPathFrom(succ, x, p) && Closes(p)
  }

  ghost predicate NoDuplicates<T>(s: seq<T>) {
    forall i, j :: 0 <= i < j < |s| ==> s[i] != s[j]
  }

  function Elems<T>(s: seq<T>): set<T> {
    set x | x in s
  }

  /** Every successor of a node in the order stands strictly before it. */
  ghost predicate IsTopological<T(!new)>(succ: T -> set<T>, order: seq<T>) {
    forall i :: 0 <= i < |order| ==> succ(order[i]) <= Elems(order[..i])
  }

  lemma ElemsAppend<T>(s: seq<T>, t: seq<T>)
    ensures Elems(s + t) == Elems(s) + Elems(t)
  {
  }

  lemma ElemsPrefix<T>(s: seq<T>, t: seq<T>)
    requires s <= t
    ensures Elems(s) <= Elems(t)
  {
    assert forall x :: x in s ==> x in t[..|s|];
  }

  lemma ExtendPath<T(!new)>(succ: T -> set<T>, p: seq<T>, y: T)
    requires IsPath(succ, p) && y in succ(p[|p| - 1])
    ensures IsPath(succ, p + [y])
  {
  }

  lemma TopologicalAppend<T(!new)>(succ: T -> set<T>, order: seq<T>, x: T)
    requires IsTopological(succ, order) && succ(x) <= Elems(order)
    ensures IsTopological(succ, order + [x])
  {
    forall i | 0 <= i < |order + [x]|
      ensures succ((order + [x])[i]) <= Elems((order + [x])[..i])
    {
      assert (order + [x])[..i] == if i < |order| then order[..i] else order;
    }
  }

  /** A walk that starts at position k of a topological order only moves to smaller positions. */
  lemma {:induction false} PathDescends<T(!new)>(succ: T -> set<T>, order: seq<T>, p: seq<T>, k: nat, i: nat)
    requires IsTopological(succ, order) && IsPath(succ, p)
    requires k < |order| && order[k] == p[0] && 0 < i < |p|
    ensures exists j :: 0 <= j < k && order[j] == p[i]
    decreases i
  {
    if i == 1 {
      assert p[1] in Elems(order[..k]);
    } else {
      PathDescends(succ, order, p, k, i - 1);
      var j :| 0 <= j < k && order[j] == p[i - 1];
      assert p[i - 1 + 1] in Elems(order[..j]);
    }
  }

  /** Nothing listed in a topological order lies on, or leads to, a cycle. */
  lemma TopologicalMeansAcyclic<T(!new)>(succ: T -> set<T>, order: seq<T>, x: T)
    requires IsTopological(succ, order) && x in order
    ensures !ReachesCycle(succ, x)
  {
    forall p | IsPathFrom(succ, x, p)
      ensures !Closes(p)
    {
      if Closes(p) {
        var last := |p| - 1;
        var i :| 0 <= i < last && p[i] == p[last];
        var k := FirstPosition(succ, order, p, i);
        PathDescends(succ, order, p[i..], k, last - i);
        assert false;
      }
    }
  }

  /** The least position in the order of the node p[i] of a path starting in the order. */
  lemma FirstPosition<T(!new)>(succ: T -> set<T>, order: seq<T>, p: seq<T>, i: nat) returns (k: nat)
    requires IsTopological(succ, order) && IsPath(succ, p) && p[0] in order && i < |p|
    ensures k < |order| && order[k] == p[i] && forall j :: 0 <= j < k ==> order[j] != p[i]
  {
    var start :| 0 <= start < |order| && order[start] == p[0];
    k := start;
    if i > 0 {
      PathDescends(succ, order, p, start, i);
      k :| 0 <= k < start && order[k] == p[i];
    }
    while exists j :: 0 <= j < k && order[j] == p[i]
      invariant k < |order| && order[k] == p[i]
      decreases k
    {
      var j :| 0 <= j < k && order[j] == p[i];
      k := j;
    }
  }

  /** y may follow the walk p, or p has not begun. */
  ghost predicate Continues<T(!new)>(succ: T -> set<T>, p: seq<T>, y: T) {
    p == [] || (IsPath(succ, p) && y in succ(p[|p| - 1]))
  }

  lemma ContinuesIsPath<T(!new)>(succ: T -> set<T>, p: seq<T>, y: T)
    requires Continues(succ, p, y)
    ensures IsPath(succ, p + [y])
  {
  }

  lemma SubPath<T(!new)>(succ: T -> set<T>, p: seq<T>, i: nat)
    requires IsPath(succ, p) && i < |p|
    ensures IsPath(succ, p[i..])
  {
    forall k | 0 <= k < |p[i..]| - 1
      ensures p[i..][k + 1] in succ(p[i..][k])
    {
      assert p[i + k + 1] in succ(p[i + k]);
    }
  }

  // ---- Well-founded nodes ----------------------------------------------

  /** Within n steps from x the graph ends, and no node met on the way is bad. */
  ghost predicate Sound<T(!new)>(succ: T -> set<T>, bad: T -> bool, n: nat, x: T) {
    n > 0 && !bad(x) && forall y :: y in succ(x) ==> Sound(succ, bad, n - 1, y)
  }

  /** The nodes from which the graph ends within n steps, one level at a time. */
  lemma SoundStep<T(!new)>(succ: T -> set<T>, bad: T -> bool, n: nat, x: T)
    requires n > 0
    ensures Sound(succ, bad, n, x) <==> !bad(x) && forall y :: y in succ(x) ==> Sound(succ, bad, n - 1, y)
  {
  }

  /** No bound suffices. */
  ghost predicate Fails<T(!new)>(succ: T -> set<T>, bad: T -> bool, x: T) {
    forall n: nat :: !Sound(succ, bad, n, x)
  }

  lemma {:induction false} SoundMono<T(!new)>(succ: T -> set<T>, bad: T -> bool, n: nat, m: nat, x: T)
    requires n <= m && Sound(succ, bad, n, x)
    ensures Sound(succ, bad, m, x)
  {
    forall y | y in succ(x)
      ensures Sound(succ, bad, m - 1, y)
    {
      SoundMono(succ, bad, n - 1, m - 1, y);
    }
  }

  lemma {:induction false} CommonDepth<T(!new)>(succ: T -> set<T>, bad: T -> bool, ys: set<T>) returns (n: nat)
    requires forall y :: y in ys ==> !Fails(succ, bad, y)
    ensures forall y :: y in ys ==> Sound(succ, bad, n, y)
  {
    n := 0;
    if ys != {} {
      var y :| y in ys;
      var k := CommonDepth(succ, bad, ys - {y});
      var m: nat :| Sound(succ, bad, m, y);
      n := k + m;
      forall z | z in ys
        ensures Sound(succ, bad, n, z)
      {
        SoundMono(succ, bad, if z == y then m else k, n, z);
      }
    }
  }

  /** A node fails exactly when it is bad or one of its successors fails. */
  lemma FailsExactly<T(!new)>(succ: T -> set<T>, bad: T -> bool, x: T)
    ensures Fails(succ, bad, x) <==> bad(x) || exists y :: y in succ(x) && Fails(succ, bad, y)
  {
    if !bad(x) && forall y :: y in succ(x) ==> !Fails(succ, bad, y) {
      var n := CommonDepth(succ, bad, succ(x));
      assert Sound(succ, bad, n + 1, x);
    } else {
      forall n: nat
        ensures !Sound(succ, bad, n, x)
      {
      }
    }
  }

  lemma {:induction false} SoundAlongPath<T(!new)>(succ: T -> set<T>, bad: T -> bool, n: nat, p: seq<T>, i: nat)
    requires IsPath(succ, p) && i < |p| && Sound(succ, bad, n, p[0])
    ensures i < n && Sound(succ, bad, n - i, p[i])
    decreases i
  {
    if i > 0 {
      SoundAlongPath(succ, bad, n, p, i - 1);
      assert p[i - 1 + 1] in succ(p[i - 1]);
    }
  }

  lemma {:induction false} LoopIsUnsound<T(!new)>(succ: T -> set<T>, bad: T -> bool, n: nat, p: seq<T>)
    requires IsPath(succ, p) && |p| > 1 && p[0] == p[|p| - 1]
    ensures !Sound(succ, bad, n, p[0])
    decreases n
  {
    if Sound(succ, bad, n, p[0]) {
      SoundAlongPath(succ, bad, n, p, |p| - 1);
      LoopIsUnsound(succ, bad, n - |p| + 1, p);
    }
  }

  /** Both ends of a walk that closes a cycle fail. */
  lemma ClosedPathFails<T(!new)>(succ: T -> set<T>, bad: T -> bool, p: seq<T>)
    requires IsPath(succ, p) && Closes(p)
    ensures Fails(succ, bad, p[|p| - 1]) && Fails(succ, bad, p[0])
  {
    var last := |p| - 1;
    var i :| 0 <= i < last && p[i] == p[last];
    SubPath(succ, p, i);
    forall n: nat
      ensures !Sound(succ, bad, n, p[last])
    {
      LoopIsUnsound(succ, bad, n, p[i..]);
    }
    forall n: nat
      ensures !Sound(succ, bad, n, p[0])
    {
      if Sound(succ, bad, n, p[0]) {
        SoundAlongPath(succ, bad, n, p, last);
      }
    }
  }

  /** A walk from x that closes a cycle or ends in a bad node. */
  ghost predicate IsFault<T(!new)>(succ: T -> set<T>, bad: T -> bool, x: T, p: seq<T>) {
    IsPathFrom(succ, x, p) && (Closes(p) || bad(p[|p| - 1]))
  }

  ghost predicate IsClosed<T(!new)>(succ: T -> set<T>, nodes: set<T>) {
    forall x :: x in nodes ==> succ(x) <= nodes
  }

  /** In a finite graph, following failing successors ends in a fault. */
  lemma {:induction false} FindFault<T(!new)>(succ: T -> set<T>, bad: T -> bool, nodes: set<T>, p: seq<T>)
    returns (q: seq<T>)
    requires IsClosed(succ, nodes) && IsPath(succ, p) && Elems(p) <= nodes
    requires Fails(succ, bad, p[|p| - 1])
    ensures IsFault(succ, bad, p[0], q)
    decreases nodes - Elems(p)
  {
    var x := p[|p| - 1];
    FailsExactly(succ, bad, x);
    if bad(x) {
      q := p;
    } else {
      var y :| y in succ(x) && Fails(succ, bad, y);
      q := p + [y];
      ExtendPath(succ, p, y);
      ElemsAppend(p, [y]);
      if y in p {
        assert q[..|q| - 1] == p;
      } else {
        assert y in Elems(q) && y !in Elems(p);
        q := FindFault(succ, bad, nodes, q);
      }
    }
  }

  /** In a finite graph a node fails if and only if it leads to a cycle or to a bad node. */
  lemma FaultExactly<T(!new)>(succ: T -> set<T>, bad: T -> bool, nodes: set<T>, x: T)
    requires IsClosed(succ, nodes) && x in nodes
    ensures Fails(succ, bad, x) <==> exists p :: IsFault(succ, bad, x, p)
  {
    if Fails(succ, bad, x) {
      var p := FindFault(succ, bad, nodes, [x]);
      assert IsFault(succ, bad, x, p);
    } else {
      var n: nat :| Sound(succ, bad, n, x);
      forall p
        ensures !IsFault(succ, bad, x, p)
      {
        if IsPathFrom(succ, x, p) {
          if Closes(p) {
            ClosedPathFails(succ, bad, p);
          } else {
            SoundAlongPath(succ, bad, n, p, |p| - 1);
          }
        }
      }
    }
  }

  // ---- Reachability ------------------------------------------------------

  ghost predicate Reaches<T(!new)>(succ: T -> set<T>, x: T, y: T) {
    exists p :: IsPathFrom(succ, x, p) && p[|p| - 1] == y
  }

  lemma ReachesSelf<T(!new)>(succ: T -> set<T>, x: T)
    ensures Reaches(succ, x, x)
  {
    assert IsPathFrom(succ, x, [x]);
  }

  lemma ReachesThrough<T(!new)>(succ: T -> set<T>, x: T, y: T, z: T)
    requires y in succ(x) && Reaches(succ, y, z)
    ensures Reaches(succ, x, z)
  {
    var p :| IsPathFrom(succ, y, p) && p[|p| - 1] == z;
    var q := [x] + p;
    assert forall i :: 0 < i < |q| ==> q[i] == p[i - 1];
    assert IsPathFrom(succ, x, q);
  }

  lemma ReachesNext<T(!new)>(succ: T -> set<T>, x: T, y: T, z: T)
    requires Reaches(succ, x, y) && z in succ(y)
    ensures Reaches(succ, x, z)
  {
    var p :| IsPathFrom(succ, x, p) && p[|p| - 1] == y;
    ExtendPath(succ, p, z);
    assert IsPathFrom(succ, x, p + [z]);
  }

  // ---- Depths ------------------------------------------------------------

  ghost function LeastSound<T(!new)>(succ: T -> set<T>, bad: T -> bool, n: nat, x: T): (d: nat)
    requires Sound(succ, bad, n, x)
    ensures Sound(succ, bad, d, x) && forall m: nat :: m < d ==> !Sound(succ, bad, m, x)
  {
    if exists m: nat :: m < n && Sound(succ, bad, m, x) then
      var m: nat :| m < n && Sound(succ, bad, m, x);
      LeastSound(succ, bad, m, x)
    else n
  }

  /** The number of steps within which the graph ends from x, if it does. */
  ghost function Depth<T(!new)>(succ: T -> set<T>, bad: T -> bool, x: T): (d: nat)
    ensures !Fails(succ, bad, x) ==> Sound(succ, bad, d, x) && forall m: nat :: m < d ==> !Sound(succ, bad, m, x)
  {
    if Fails(succ, bad, x) then 0
    else
      var n: nat :| Sound(succ, bad, n, x);
      LeastSound(succ, bad, n, x)
  }

  /** Successors have smaller depths. */
  lemma DepthDecreases<T(!new)>(succ: T -> set<T>, bad: T -> bool, x: T, y: T)
    requires !Fails(succ, bad, x) && y in succ(x)
    ensures !Fails(succ, bad, y) && Depth(succ, bad, y) < Depth(succ, bad, x)
  {
    var d := Depth(succ, bad, x);
    assert Sound(succ, bad, d - 1, y);
  }

  /** No node is bad. */
  function Never<T>(): T -> bool {
    _ => false
  }

  /** The graph ends from x exactly if no walk from x closes. */
  lemma EndsExactly<T(!new)>(succ: T -> set<T>, nodes: set<T>, x: T)
    requires IsClosed(succ, nodes) && x in nodes
    ensures Fails(succ, Never(), x) <==> ReachesCycle(succ, x)
  {
    FaultExactly(succ, Never(), nodes, x);
    if p :| IsFault(succ, Never(), x, p) {
      assert IsPathFrom(succ, x, p) && Closes(p);
    }
    if p :| IsPathFrom(succ, x, p) && Closes(p) {
      assert IsFault(succ, Never(), x, p);
    }
  }

  /** Ranks that decrease along edges rule cycles out. */
  lemma {:induction false} RankMeansSound<T(!new)>(succ: T -> set<T>, rank: T -> nat, nodes: set<T>, x: T, n: nat)
    requires x in nodes && rank(x) < n
    requires forall y, z :: y in nodes && z in succ(y) ==> z in nodes && rank(z) < rank(y)
    ensures Sound(succ, Never(), n, x)
    decreases n
  {
    forall y | y in succ(x)
      ensures Sound(succ, Never(), n - 1, y)
    {
      RankMeansSound(succ, rank, nodes, y, n - 1);
    }
  }
}
