/** Kahn's algorithm as the dependency resolver runs it: in-degree counters, a
    first-in-first-out queue, and each batch of newly ready positions appended
    in ascending order. Its result is compared with a reference order that
    keeps no counters at all. */
module Kahn {
  import opened Digraph

  // ----- the reference order

  /** The members of s below n, ascending. */
  function Ascending(s: set<nat>, n: nat): (r: seq<nat>) {
    if n == 0 then []
    else Ascending(s, n - 1) + if n - 1 in s then [n - 1] else []
  }

  ghost predicate StrictlyAscending(s: seq<nat>) {
    forall i, j :: 0 <= i < j < |s| ==> s[i] < s[j]
  }

  lemma AscendingLists(s: set<nat>, n: nat)
    ensures StrictlyAscending(Ascending(s, n)) && InRange(Ascending(s, n), n)
    ensures forall v: nat :: v in Ascending(s, n) <==> v in s && v < n
  {
    if n > 0 {
      AscendingLists(s, n - 1);
    }
  }

  /** Positions released by cur: successors all of whose predecessors are placed. */
  function Released(g: Edges, done: seq<nat>, cur: nat): (s: set<nat>) {
    set j: nat | j < |g| && cur in Preds(g, j) && Preds(g, j) <= Elements(done) + {cur}
  }

  /** What holds between two rounds: done and queue together list, without
      repetition, exactly the positions whose predecessors are all in done. */
  ghost predicate Between(g: Edges, done: seq<nat>, queue: seq<nat>) {
    && WellFormed(g)
    && Listed(g, done) && Listed(g, queue)
    && (forall v: nat :: v in done ==> v !in queue)
    && (forall v: nat :: v < |g| ==> (v in done || v in queue <==> Placeable(g, done, v)))
    && PredsFirst(g, done)
  }

  ghost predicate Listed(g: Edges, s: seq<nat>) {
    Distinct(s) && InRange(s, |g|)
  }

  ghost predicate Placeable(g: Edges, done: seq<nat>, v: nat) {
    Preds(g, v) <= Elements(done)
  }

  ghost predicate PredsFirst(g: Edges, done: seq<nat>) {
    forall k :: 0 <= k < |done| ==> Placeable(g, done[..k], done[k])
  }

  function NextQueue(g: Edges, done: seq<nat>, queue: seq<nat>): seq<nat>
    requires queue != []
  {
    queue[1..] + Ascending(Released(g, done, queue[0]), |g|)
  }

  lemma NextBetween(g: Edges, done: seq<nat>, queue: seq<nat>)
    requires Between(g, done, queue) && queue != []
    ensures Between(g, done + [queue[0]], NextQueue(g, done, queue))
    ensures |done| < |g|
  {
    var cur := queue[0];
    var batch := Ascending(Released(g, done, cur), |g|);
    AscendingLists(Released(g, done, cur), |g|);
    NextListed(g, done, queue, batch);
    DistinctBound(done + [cur], |g|);
    var queue' := NextQueue(g, done, queue);
    forall v: nat | v < |g|
      ensures v in done + [cur] || v in queue' <==> Placeable(g, done + [cur], v)
    {
      assert Elements(done + [cur]) == Elements(done) + {cur};
      assert v in queue <==> v == cur || v in queue[1..];
      if !(v in done || v in queue) && Placeable(g, done + [cur], v) {
        assert cur in Preds(g, v);
        assert v in Released(g, done, cur);
      }
    }
    forall k | 0 <= k < |done + [cur]| ensures Placeable(g, (done + [cur])[..k], (done + [cur])[k]) {
      assert (done + [cur])[..k] == done[..k];
      if k == |done| {
        assert done[..k] == done && cur in queue;
      }
    }
  }

  lemma NextListed(g: Edges, done: seq<nat>, queue: seq<nat>, batch: seq<nat>)
    requires Between(g, done, queue) && queue != []
    requires StrictlyAscending(batch) && InRange(batch, |g|)
    requires forall v: nat :: v in batch ==> v in Released(g, done, queue[0])
    ensures Listed(g, done + [queue[0]]) && Listed(g, queue[1..] + batch)
    ensures forall v: nat :: v in done + [queue[0]] ==> v !in queue[1..] + batch
  {
    var cur := queue[0];
    assert cur in queue && cur < |g| && Placeable(g, done, cur);
    forall v: nat | v in batch ensures v !in done && v !in queue {
      assert cur in Preds(g, v) && cur !in done;
      assert !Placeable(g, done, v);
    }
    forall i | 0 <= i < |queue| - 1 ensures queue[1..][i] in queue && queue[1..][i] != cur {
    }
  }

  ghost function KahnFrom(g: Edges, done: seq<nat>, queue: seq<nat>): (order: seq<nat>)
    requires Between(g, done, queue)
    decreases |g| - |done|
  {
    if queue == [] then done
    else
      NextBetween(g, done, queue);
      KahnFrom(g, done + [queue[0]], NextQueue(g, done, queue))
  }

  /** Positions without predecessors. */
  function Roots(g: Edges): set<nat> {
    set v: nat | v < |g| && Preds(g, v) == {}
  }

  lemma StartBetween(g: Edges)
    requires WellFormed(g)
    ensures Between(g, [], Ascending(Roots(g), |g|))
  {
    AscendingLists(Roots(g), |g|);
  }

  /** The order Kahn's algorithm produces, as a function of the graph alone. */
  ghost function KahnOrder(g: Edges): (order: seq<nat>)
    requires WellFormed(g)
  {
    StartBetween(g);
    KahnFrom(g, [], Ascending(Roots(g), |g|))
  }

  lemma {:induction false} KahnFromEnds(g: Edges, done: seq<nat>, queue: seq<nat>)
    requires Between(g, done, queue)
    ensures Between(g, KahnFrom(g, done, queue), [])
    decreases |g| - |done|
  {
    if queue == [] {
      assert queue == [];
    } else {
      NextBetween(g, done, queue);
      KahnFromEnds(g, done + [queue[0]], NextQueue(g, done, queue));
    }
  }

  // ----- what the reference order is worth

  lemma PredsFirstRespects(g: Edges, done: seq<nat>)
    requires WellFormed(g) && Distinct(done) && InRange(done, |g|) && PredsFirst(g, done)
    ensures Respects(g, done)
  {
    forall a, b | 0 <= a < |done| && 0 <= b < |done| && done[b] in g[done[a]] ensures a < b {
      assert done[a] in Preds(g, done[b]) && Placeable(g, done[..b], done[b]);
      assert done[a] in done[..b];
    }
  }

  /** Kahn's order is complete exactly when the graph has no closed path, and
      then every edge points forward in it. */
  lemma KahnCompleteIffAcyclic(g: Edges)
    requires WellFormed(g)
    ensures |KahnOrder(g)| == |g| <==> Acyclic(g)
    ensures Acyclic(g) ==> IsOrder(KahnOrder(g), |g|) && Respects(g, KahnOrder(g))
  {
    StartBetween(g);
    var order := KahnOrder(g);
    KahnFromEnds(g, [], Ascending(Roots(g), |g|));
    DistinctBound(order, |g|);
    PredsFirstRespects(g, order);
    if |order| == |g| {
      OrderedIsAcyclic(g, order);
    } else {
      var stuck := Below(|g|) - Elements(order);
      if stuck == {} {
        SubsetCardinality(Below(|g|), Elements(order));
        DistinctCardinality(order);
        assert false;
      }
      forall v | v in stuck ensures Preds(g, v) * stuck != {} {
        assert !Placeable(g, order, v);
        var u :| u in Preds(g, v) && u !in Elements(order);
        assert u in Preds(g, v) * stuck;
      }
      var c := StuckHasCycle(g, stuck);
    }
  }

  // ----- the algorithm

  /** Ascending is the only strictly ascending listing of a set. */
  lemma {:induction false} AscendingUnique(s: seq<nat>, n: nat)
    requires StrictlyAscending(s) && InRange(s, n)
    ensures s == Ascending(Elements(s), n)
  {
    if n > 0 {
      if s != [] && s[|s| - 1] == n - 1 {
        var front := s[..|s| - 1];
        AscendingUnique(front, n - 1);
        AscendingSame(Elements(front), Elements(s), n - 1);
        assert s[|s| - 1] in Elements(s);
        assert Ascending(Elements(s), n) == front + [s[|s| - 1]];
      } else {
        assert n - 1 !in s;
        AscendingUnique(s, n - 1);
      }
    }
  }

  lemma AscendingSame(a: set<nat>, b: set<nat>, n: nat)
    requires forall v: nat :: v < n ==> (v in a <==> v in b)
    ensures Ascending(a, n) == Ascending(b, n)
  {
  }

  /** Sorts distinct positions, as sort.Ints does. */
  method SortInts(s: seq<nat>) returns (r: seq<nat>)
    requires Distinct(s)
    ensures StrictlyAscending(r) && Elements(r) == Elements(s)
  {
    r := [];
    for i := 0 to |s|
      invariant StrictlyAscending(r) && Elements(r) == Elements(s[..i])
    {
      assert s[i] !in Elements(s[..i]);
      assert Elements(s[..i + 1]) == Elements(s[..i]) + {s[i]};
      r := Insert(r, s[i]);
    }
    assert s[..|s|] == s;
  }

  method Insert(s: seq<nat>, x: nat) returns (r: seq<nat>)
    requires StrictlyAscending(s) && x !in Elements(s)
    ensures StrictlyAscending(r) && Elements(r) == Elements(s) + {x}
  {
    var k := |s|;
    while k > 0 && x < s[k - 1]
      invariant 0 <= k <= |s|
      invariant forall m :: k <= m < |s| ==> x < s[m]
    {
      k := k - 1;
    }
    InsertAt(s, k, x);
    r := s[..k] + [x] + s[k..];
  }

  lemma InsertAt(s: seq<nat>, k: nat, x: nat)
    requires StrictlyAscending(s) && k <= |s|
    requires k == 0 || s[k - 1] < x
    requires k < |s| ==> x < s[k]
    ensures StrictlyAscending(s[..k] + [x] + s[k..])
    ensures Elements(s[..k] + [x] + s[k..]) == Elements(s) + {x}
  {
    var r := s[..k] + [x] + s[k..];
    forall i, j | 0 <= i < j < |r| ensures r[i] < r[j] {
      assert r[i] == if i < k then s[i] else if i == k then x else s[i - 1];
      assert r[j] == if j < k then s[j] else if j == k then x else s[j - 1];
    }
    assert s == s[..k] + s[k..];
  }

  /** Predecessors of j among the first i positions. */
  function PredsBelow(g: Edges, i: nat, j: nat): set<nat>
    requires i <= |g|
  {
    set p: nat | p < i && j in g[p]
  }

  /** The edges out of one node, in no particular order. */
  method CountOut(edges: Edges, i: nat, inDegree: array<int>)
    requires WellFormed(edges) && i < |edges| && inDegree.Length == |edges|
    requires forall j :: 0 <= j < |edges| ==> inDegree[j] == |PredsBelow(edges, i, j)|
    modifies inDegree
    ensures forall j :: 0 <= j < |edges| ==> inDegree[j] == |PredsBelow(edges, i + 1, j)|
  {
    var todo := edges[i];
    while todo != {}
      invariant todo <= edges[i]
      invariant forall j :: 0 <= j < |edges| ==>
        inDegree[j] == |PredsBelow(edges, i, j)| + if j in edges[i] - todo then 1 else 0
    {
      var j :| j in todo;
      inDegree[j] := inDegree[j] + 1;
      todo := todo - {j};
    }
    forall j | 0 <= j < |edges|
      ensures inDegree[j] == |PredsBelow(edges, i + 1, j)|
    {
      assert PredsBelow(edges, i + 1, j) == PredsBelow(edges, i, j) + if j in edges[i] then {i} else {};
    }
  }

  method CountInDegrees(edges: Edges) returns (inDegree: array<int>)
    requires WellFormed(edges)
    ensures fresh(inDegree) && CountsWaiting(edges, [], inDegree[..])
  {
    inDegree := new int[|edges|](_ => 0);
    for i := 0 to |edges|
      invariant forall j :: 0 <= j < |edges| ==> inDegree[j] == |PredsBelow(edges, i, j)|
    {
      CountOut(edges, i, inDegree);
    }
    forall j | 0 <= j < |edges|
      ensures PredsBelow(edges, |edges|, j) == Preds(edges, j) - Elements<nat>([])
    {
    }
  }

  lemma AppendRoot(g: Edges, i: nat, counts: seq<int>)
    requires CountsWaiting(g, [], counts) && i < |g|
    ensures counts[i] == 0 ==> Ascending(Roots(g), i + 1) == Ascending(Roots(g), i) + [i]
    ensures counts[i] != 0 ==> Ascending(Roots(g), i + 1) == Ascending(Roots(g), i)
  {
    assert Preds(g, i) - Elements([]) == Preds(g, i);
    assert counts[i] == 0 <==> i in Roots(g);
    assert Ascending(Roots(g), i) + [] == Ascending(Roots(g), i);
  }

  method InitialQueue(edges: Edges, inDegree: array<int>) returns (queue: seq<nat>)
    requires WellFormed(edges) && CountsWaiting(edges, [], inDegree[..])
    ensures queue == Ascending(Roots(edges), |edges|)
  {
    queue := [];
    ghost var counts := inDegree[..];
    for i := 0 to |edges|
      invariant queue == Ascending(Roots(edges), i)
    {
      AppendRoot(edges, i, counts);
      if inDegree[i] == 0 {
        queue := queue + [i];
      }
    }
  }

  /** Kahn's loop. Go iterates edges[cur] in no particular order; the result is
      the reference order whichever order that is. */
  method TopologicalOrder(edges: Edges) returns (sorted: seq<nat>)
    requires WellFormed(edges)
    ensures sorted == KahnOrder(edges)
  {
    var n := |edges|;
    var inDegree := CountInDegrees(edges);
    var queue := InitialQueue(edges, inDegree);
    StartBetween(edges);
    sorted := [];
    while queue != []
      invariant Between(edges, sorted, queue)
      invariant KahnFrom(edges, sorted, queue) == KahnOrder(edges)
      invariant CountsWaiting(edges, sorted, inDegree[..])
      decreases n - |sorted|
    {
      var cur := queue[0];
      NextBetween(edges, sorted, queue);
      assert cur in queue;
      ghost var done, rest := sorted, queue;
      queue := queue[1..];
      sorted := sorted + [cur];
      var newlyReady := Release(edges, done, cur, inDegree);
      newlyReady := SortInts(newlyReady);
      BatchIsAscending(edges, done, cur, newlyReady);
      queue := queue + newlyReady;
    }
  }

  lemma BatchIsAscending(g: Edges, done: seq<nat>, cur: nat, batch: seq<nat>)
    requires StrictlyAscending(batch) && Elements(batch) == Released(g, done, cur)
    ensures batch == Ascending(Released(g, done, cur), |g|)
  {
    forall k | 0 <= k < |batch| ensures batch[k] < |g| {
      assert batch[k] in Elements(batch);
    }
    AscendingUnique(batch, |g|);
  }

  /** The counters hold the number of predecessors not yet placed. */
  ghost predicate CountsWaiting(g: Edges, done: seq<nat>, inDegree: seq<int>) {
    && |inDegree| == |g|
    && forall j :: 0 <= j < |g| ==> inDegree[j] == |Preds(g, j) - Elements(done)|
  }

  /** Takes cur off the in-degree counters of its successors. */
  method Release(edges: Edges, ghost done: seq<nat>, cur: nat, inDegree: array<int>) returns (newlyReady: seq<nat>)
    requires WellFormed(edges) && cur < |edges| && cur !in done
    requires CountsWaiting(edges, done, inDegree[..])
    modifies inDegree
    ensures CountsWaiting(edges, done + [cur], inDegree[..])
    ensures Distinct(newlyReady) && InRange(newlyReady, |edges|)
    ensures Elements(newlyReady) == Released(edges, done, cur)
  {
    newlyReady := [];
    var todo := edges[cur];
    MidStart(edges, done, cur, inDegree[..]);
    while todo != {}
      invariant todo <= edges[cur]
      invariant MidRelease(edges, done, cur, todo, inDegree[..])
      invariant Distinct(newlyReady) && InRange(newlyReady, |edges|)
      invariant Elements(newlyReady) == Released(edges, done, cur) - todo
    {
      var j :| j in todo;
      MidStep(edges, done, cur, todo, j, inDegree[..]);
      ghost var before := inDegree[..];
      inDegree[j] := inDegree[j] - 1;
      assert inDegree[..] == before[j := before[j] - 1];
      CollectStep(newlyReady, Released(edges, done, cur), todo, j);
      if inDegree[j] == 0 {
        newlyReady := newlyReady + [j];
      }
      todo := todo - {j};
    }
    MidEnd(edges, done, cur, inDegree[..]);
  }

  lemma CollectStep(ready: seq<nat>, released: set<nat>, todo: set<nat>, j: nat)
    requires Distinct(ready) && Elements(ready) == released - todo && j in todo
    ensures var ready' := if j in released then ready + [j] else ready;
      Distinct(ready') && Elements(ready') == released - (todo - {j})
  {
    assert j !in Elements(ready);
    assert Elements(ready + [j]) == Elements(ready) + {j};
  }

  /** Predecessors of j that its counter still counts while todo is left to visit. */
  function Waiting(g: Edges, done: seq<nat>, cur: nat, todo: set<nat>, j: nat): set<nat> {
    Preds(g, j) - Elements(done) - if j in todo then {} else {cur}
  }

  /** The counters part way through Release. */
  ghost predicate MidRelease(g: Edges, done: seq<nat>, cur: nat, todo: set<nat>, inDegree: seq<int>) {
    && |inDegree| == |g|
    && forall j :: 0 <= j < |g| ==> inDegree[j] == |Waiting(g, done, cur, todo, j)|
  }

  lemma MidStart(g: Edges, done: seq<nat>, cur: nat, inDegree: seq<int>)
    requires WellFormed(g) && cur < |g| && CountsWaiting(g, done, inDegree)
    ensures MidRelease(g, done, cur, g[cur], inDegree)
  {
    forall j: nat | j < |g| ensures Waiting(g, done, cur, g[cur], j) == Preds(g, j) - Elements(done) {
    }
  }

  lemma MidStep(g: Edges, done: seq<nat>, cur: nat, todo: set<nat>, j: nat, inDegree: seq<int>)
    requires WellFormed(g) && cur < |g| && cur !in done && todo <= g[cur] && j in todo
    requires MidRelease(g, done, cur, todo, inDegree)
    ensures j < |g| && MidRelease(g, done, cur, todo - {j}, inDegree[j := inDegree[j] - 1])
    ensures inDegree[j] == 1 <==> j in Released(g, done, cur)
  {
    WaitingDrops(g, done, cur, todo, j);
    var inDegree' := inDegree[j := inDegree[j] - 1];
    forall k | 0 <= k < |g| ensures inDegree'[k] == |Waiting(g, done, cur, todo - {j}, k)| {
      WaitingKeeps(g, done, cur, todo, j, k);
    }
  }

  lemma WaitingKeeps(g: Edges, done: seq<nat>, cur: nat, todo: set<nat>, j: nat, k: nat)
    ensures k != j ==> Waiting(g, done, cur, todo - {j}, k) == Waiting(g, done, cur, todo, k)
  {
  }

  lemma WaitingDrops(g: Edges, done: seq<nat>, cur: nat, todo: set<nat>, j: nat)
    requires cur < |g| && cur !in done && j in g[cur] && j in todo && j < |g|
    ensures |Waiting(g, done, cur, todo - {j}, j)| == |Waiting(g, done, cur, todo, j)| - 1
    ensures |Waiting(g, done, cur, todo, j)| == 1 <==> j in Released(g, done, cur)
  {
    var now, after := Waiting(g, done, cur, todo, j), Waiting(g, done, cur, todo - {j}, j);
    assert cur in now && after == now - {cur};
    assert after == Preds(g, j) - (Elements(done) + {cur});
    assert after == {} <==> Preds(g, j) <= Elements(done) + {cur};
  }

  lemma MidEnd(g: Edges, done: seq<nat>, cur: nat, inDegree: seq<int>)
    requires WellFormed(g) && cur < |g| && MidRelease(g, done, cur, {}, inDegree)
    ensures CountsWaiting(g, done + [cur], inDegree)
  {
    forall j: nat | j < |g| ensures Waiting(g, done, cur, {}, j) == Preds(g, j) - Elements(done + [cur]) {
    }
  }
}
