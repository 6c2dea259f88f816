/** Directed graphs over the positions of an object list, as the dependency
    resolver builds them: g[i] is the set of positions that must come after i. */
module Digraph {

  type Edges = seq<set<nat>>

  ghost predicate WellFormed(g: Edges) {
    forall i, j :: 0 <= i < |g| && j in g[i] ==> j < |g|
  }

  ghost predicate Distinct<T>(s: seq<T>) {
    forall i, j :: 0 <= i < j < |s| ==> s[i] != s[j]
  }

  ghost predicate InRange(s: seq<nat>, n: nat) {
    forall k :: 0 <= k < |s| ==> s[k] < n
  }

  function Elements<T(!new)>(s: seq<T>): (e: set<T>)
    ensures forall x :: x in e <==> x in s
  {
    set x | x in s
  }

  /** A walk takes an edge at each step. */
  ghost predicate IsWalk(g: Edges, p: seq<nat>) {
    && InRange(p, |g|)
    && forall k :: 0 <= k < |p| - 1 ==> p[k + 1] in g[p[k]]
  }

  /** A closed path: a non-empty walk whose last node has an edge to its first. */
  ghost predicate IsCycle(g: Edges, c: seq<nat>) {
    && 0 < |c|
    && IsWalk(g, c)
    && c[0] in g[c[|c| - 1]]
  }

  ghost predicate Acyclic(g: Edges) {
    forall c: seq<nat> :: !IsCycle(g, c)
  }

  /** order lists every position exactly once. */
  ghost predicate IsOrder(order: seq<nat>, n: nat) {
    && |order| == n
    && Distinct(order)
    && InRange(order, n)
  }

  /** Every edge points forward in the order. */
  ghost predicate Respects(g: Edges, order: seq<nat>) {
    forall a, b :: 0 <= a < |order| && 0 <= b < |order| && order[a] < |g| && order[b] in g[order[a]] ==> a < b
  }

  function Preds(g: Edges, j: nat): (p: set<nat>)
    ensures forall i: nat :: i in p <==> i < |g| && j in g[i]
  {
    set i: nat | i < |g| && j in g[i]
  }

  /** Every node of the set has a predecessor in the set. */
  ghost predicate FedFromWithin(g: Edges, s: set<nat>) {
    forall v :: v in s ==> v < |g| && Preds(g, v) * s != {}
  }

  // ----- counting

  lemma DistinctCardinality<T(!new)>(s: seq<T>)
    requires Distinct(s)
    ensures |Elements(s)| == |s|
  {
    if s != [] {
      var front := s[..|s| - 1];
      DistinctCardinality(front);
      assert Elements(s) == Elements(front) + {s[|s| - 1]};
    }
  }

  /** The first n positions. */
  function Below(n: nat): (r: set<nat>)
    ensures forall x: nat :: x in r <==> x < n
    ensures |r| == n
  {
    if n == 0 then {} else Below(n - 1) + {n - 1}
  }

  lemma SubsetCardinality<T>(a: set<T>, b: set<T>)
    requires a <= b
    ensures |a| <= |b|
    ensures |a| == |b| ==> a == b
  {
    assert b == a + (b - a);
    assert |b| == |a| + |b - a|;
  }

  lemma DistinctBound(s: seq<nat>, n: nat)
    requires Distinct(s) && InRange(s, n)
    ensures |s| <= n
    ensures |s| == n ==> forall v: nat :: v < n ==> v in s
  {
    DistinctCardinality(s);
    SubsetCardinality(Elements(s), Below(n));
  }

  /** More entries than values: two entries agree. */
  lemma Pigeonhole(s: seq<nat>, n: nat) returns (i: nat, j: nat)
    requires InRange(s, n) && n < |s|
    ensures i < j < |s| && s[i] == s[j]
  {
    if Distinct(s) {
      DistinctBound(s, n);
    }
    i, j :| 0 <= i < j < |s| && s[i] == s[j];
  }

  // ----- orders and cycles

  /** A graph with an order that respects it has no closed path. */
  lemma OrderedIsAcyclic(g: Edges, order: seq<nat>)
    requires WellFormed(g) && IsOrder(order, |g|) && Respects(g, order)
    ensures Acyclic(g)
  {
    forall c: seq<nat> ensures !IsCycle(g, c) {
      if IsCycle(g, c) {
        var ends := WalkClimbs(g, order, c);
      }
    }
  }

  /** Positions of the first and last node of a walk, in an order that respects the graph. */
  lemma WalkClimbs(g: Edges, order: seq<nat>, p: seq<nat>) returns (ends: (nat, nat))
    requires WellFormed(g) && IsOrder(order, |g|) && Respects(g, order)
    requires 0 < |p| && IsWalk(g, p)
    ensures ends.0 <= ends.1 < |order|
    ensures order[ends.0] == p[0] && order[ends.1] == p[|p| - 1]
    decreases |p|
  {
    DistinctBound(order, |g|);
    if |p| == 1 {
      assert p[0] in order;
      var a :| 0 <= a < |order| && order[a] == p[0];
      ends := (a, a);
    } else {
      var front := p[..|p| - 1];
      assert IsWalk(g, front);
      var e := WalkClimbs(g, order, front);
      assert p[|p| - 1] in order;
      var b :| 0 <= b < |order| && order[b] == p[|p| - 1];
      assert p[|p| - 1] in g[p[|p| - 2]];
      ends := (e.0, b);
    }
  }

  /** A non-empty set fed only from within contains a closed path. */
  lemma StuckHasCycle(g: Edges, stuck: set<nat>) returns (c: seq<nat>)
    requires WellFormed(g) && stuck != {} && FedFromWithin(g, stuck)
    ensures IsCycle(g, c)
  {
    var w := BackWalk(g, stuck, |g| + 1);
    var i, j := Pigeonhole(w, |g|);
    c := w[i..j];
    assert w[j] in g[w[j - 1]];
  }

  lemma WalkExtends(g: Edges, u: nat, rest: seq<nat>)
    requires IsWalk(g, rest) && rest != [] && u < |g| && rest[0] in g[u]
    ensures IsWalk(g, [u] + rest)
  {
    var w := [u] + rest;
    assert forall k :: 0 < k < |w| ==> w[k] == rest[k - 1];
  }

  lemma BackWalk(g: Edges, stuck: set<nat>, len: nat) returns (w: seq<nat>)
    requires WellFormed(g) && 0 < len && stuck != {} && FedFromWithin(g, stuck)
    ensures |w| == len && IsWalk(g, w) && w[0] in stuck
  {
    if len == 1 {
      var v :| v in stuck;
      w := [v];
    } else {
      var rest := BackWalk(g, stuck, len - 1);
      var u :| u in Preds(g, rest[0]) * stuck;
      w := [u] + rest;
      WalkExtends(g, u, rest);
    }
  }

  /** A cycle stays a cycle in any graph with at least its edges. */
  lemma FewerEdgesKeepAcyclic(small: Edges, big: Edges)
    requires |small| == |big| && forall i :: 0 <= i < |small| ==> small[i] <= big[i]
    requires Acyclic(big)
    ensures Acyclic(small)
  {
    forall c: seq<nat> ensures !IsCycle(small, c) {
      assert !IsCycle(big, c);
    }
  }
}
