/** Depth-first search for a closed path, with the explicit stack and the
    three-colour marking the dependency resolver uses. */
module CycleFinder {
  import opened Digraph

  datatype Color = White | Gray | Black

  /** Closed nodes are listed after all their successors. */
  ghost predicate SuccessorsFirst(g: Edges, finished: seq<nat>) {
    forall k :: 0 <= k < |finished| ==> finished[k] < |g| && g[finished[k]] <= Elements(finished[..k])
  }

  /** What the three colours, the stack and the closed list say of each other. */
  ghost predicate Coherent(g: Edges, color: seq<Color>, stack: seq<nat>, stackPos: map<nat, nat>, finished: seq<nat>) {
    && WellFormed(g)
    && |color| == |g|
    && IsWalk(g, stack) && Distinct(stack)
    && (forall v: nat :: v < |g| ==> (color[v] == Gray <==> v in stack))
    && (forall v: nat :: v in stackPos <==> v in stack)
    && (forall k :: 0 <= k < |stack| ==> stackPos[stack[k]] == k)
    && Distinct(finished) && SuccessorsFirst(g, finished)
    && (forall v: nat :: v < |g| ==> (color[v] == Black <==> v in finished))
  }

  /** Closed nodes stay closed, and no node becomes white again. */
  ghost predicate Darkens(before: seq<Color>, after: seq<Color>) {
    && |before| == |after|
    && (forall v :: 0 <= v < |before| && before[v] == Black ==> after[v] == Black)
    && Whites(after) <= Whites(before)
  }

  ghost predicate AllBlack(color: seq<Color>, s: set<nat>) {
    forall w :: w in s ==> w < |color| && color[w] == Black
  }

  function Whites(color: seq<Color>): set<nat> {
    set v: nat | v < |color| && color[v] == White
  }

  class Search {
    const g: Edges
    const color: array<Color>
    var stack: seq<nat>
    var stackPos: map<nat, nat>
    var cycle: seq<nat>
    ghost var finished: seq<nat>

    ghost predicate Valid()
      reads this, color
    {
      Coherent(g, color[..], stack, stackPos, finished)
    }

    constructor (edges: Edges)
      requires WellFormed(edges)
      ensures Valid() && fresh(color) && g == edges
      ensures stack == [] && finished == [] && forall v :: 0 <= v < |g| ==> color[v] == White
    {
      g := edges;
      color := new Color[|edges|](_ => White);
      stack, stackPos, cycle := [], map[], [];
      finished := [];
    }

    /** Visits v and everything reachable from it. On success cycle holds a
        closed path of distinct nodes; otherwise v is closed and the stack is
        as it was. */
    method Dfs(v: nat) returns (found: bool)
      requires Valid() && v < |g| && color[v] == White
      requires stack != [] ==> v in g[stack[|stack| - 1]]
      modifies this, color
      ensures found ==> IsCycle(g, cycle) && Distinct(cycle)
      ensures !found ==> Valid() && stack == old(stack) && color[v] == Black
      ensures !found ==> Darkens(old(color[..]), color[..])
      decreases Whites(color[..])
    {
      Enter(v);
      ghost var base := stack;
      ghost var entered := color[..];
      var todo := g[v];
      while todo != {}
        invariant todo <= g[v]
        invariant Valid() && stack == base
        invariant Darkens(entered, color[..])
        invariant AllBlack(color[..], g[v] - todo)
      {
        var w :| w in todo;
        todo := todo - {w};
        if color[w] == Gray {
          GrayCloses(g, color[..], stack, stackPos, finished, w);
          cycle := stack[stackPos[w]..];
          return true;
        }
        if color[w] == White {
          ghost var before := color[..];
          var inner := Dfs(w);
          if inner {
            return true;
          }
          DarkensOn(entered, before, color[..], g[v] - todo - {w});
        }
      }
      Leave(v);
      return false;
    }

    /** Marks v gray and pushes it. */
    method Enter(v: nat)
      requires Valid() && v < |g| && color[v] == White
      requires stack != [] ==> v in g[stack[|stack| - 1]]
      modifies this, color
      ensures Valid() && stack == old(stack) + [v]
      ensures color[..] == old(color[..])[v := Gray]
      ensures Whites(color[..]) < old(Whites(color[..]))
    {
      EnterCoherent(g, color[..], stack, stackPos, finished, v);
      assert v in Whites(color[..]);
      color[v] := Gray;
      stack := stack + [v];
      stackPos := stackPos[v := |stack| - 1];
      assert color[..] == old(color[..])[v := Gray];
    }

    /** Marks the top of the stack black and pops it. */
    method Leave(v: nat)
      requires Valid() && v < |g| && stack != [] && stack[|stack| - 1] == v
      requires AllBlack(color[..], g[v])
      modifies this, color
      ensures Valid() && stack == old(stack)[..|old(stack)| - 1]
      ensures color[..] == old(color[..])[v := Black]
      ensures Whites(color[..]) == old(Whites(color[..]))
    {
      LeaveCoherent(g, color[..], stack, stackPos, finished);
      assert v in stack;
      color[v] := Black;
      stack := stack[..|stack| - 1];
      stackPos := stackPos - {v};
      finished := finished + [v];
      assert color[..] == old(color[..])[v := Black];
    }
  }

  lemma EnterCoherent(g: Edges, color: seq<Color>, stack: seq<nat>, stackPos: map<nat, nat>, finished: seq<nat>, v: nat)
    requires Coherent(g, color, stack, stackPos, finished)
    requires v < |g| && color[v] == White
    requires stack != [] ==> v in g[stack[|stack| - 1]]
    ensures Coherent(g, color[v := Gray], stack + [v], stackPos[v := |stack|], finished)
  {
    assert v !in stack && v !in finished;
  }

  lemma LeaveCoherent(g: Edges, color: seq<Color>, stack: seq<nat>, stackPos: map<nat, nat>, finished: seq<nat>)
    requires Coherent(g, color, stack, stackPos, finished)
    requires stack != []
    requires AllBlack(color, g[stack[|stack| - 1]])
    ensures var v := stack[|stack| - 1];
      Coherent(g, color[v := Black], stack[..|stack| - 1], stackPos - {v}, finished + [v])
  {
    var v := stack[|stack| - 1];
    assert v in stack && color[v] == Gray && v !in finished;
    var rest := stack[..|stack| - 1];
    assert stack == rest + [v];
    CloseNode(g, finished, v);
    forall u: nat ensures u in rest <==> u in stack && u != v {
    }
  }

  lemma CloseNode(g: Edges, finished: seq<nat>, v: nat)
    requires Distinct(finished) && SuccessorsFirst(g, finished) && v !in finished && v < |g|
    requires g[v] <= Elements(finished)
    ensures Distinct(finished + [v]) && SuccessorsFirst(g, finished + [v])
  {
    var finished' := finished + [v];
    forall k | 0 <= k < |finished'| ensures g[finished'[k]] <= Elements(finished'[..k]) {
      assert finished'[..k] == finished[..k];
      assert finished[..|finished|] == finished;
    }
  }

  lemma DarkensOn(first: seq<Color>, mid: seq<Color>, last: seq<Color>, s: set<nat>)
    requires Darkens(first, mid) && Darkens(mid, last) && AllBlack(mid, s)
    ensures Darkens(first, last) && AllBlack(last, s)
  {
  }

  /** The stack from a gray node to the top closes into a cycle along a back edge. */
  lemma GrayCloses(g: Edges, color: seq<Color>, stack: seq<nat>, stackPos: map<nat, nat>, finished: seq<nat>, w: nat)
    requires Coherent(g, color, stack, stackPos, finished)
    requires stack != [] && stack[|stack| - 1] < |g| && w in g[stack[|stack| - 1]] && w < |g| && color[w] == Gray
    ensures w in stackPos && stackPos[w] < |stack|
    ensures IsCycle(g, stack[stackPos[w]..]) && Distinct(stack[stackPos[w]..])
  {
    assert w in stack;
    var k :| 0 <= k < |stack| && stack[k] == w;
  }

  function Reverse(s: seq<nat>): (r: seq<nat>)
    ensures |r| == |s| && forall k :: 0 <= k < |s| ==> r[k] == s[|s| - 1 - k]
  {
    if s == [] then [] else Reverse(s[1..]) + [s[0]]
  }

  /** When every node is closed, the closed list read backwards respects the graph. */
  lemma AllClosedIsAcyclic(g: Edges, finished: seq<nat>)
    requires WellFormed(g) && Distinct(finished) && SuccessorsFirst(g, finished)
    requires forall v: nat :: v < |g| ==> v in finished
    ensures Acyclic(g)
  {
    var order := Reverse(finished);
    assert InRange(finished, |g|);
    DistinctBound(finished, |g|);
    SubsetCardinality(Below(|g|), Elements(finished));
    DistinctCardinality(finished);
    forall a, b | 0 <= a < |order| && 0 <= b < |order| && order[b] in g[order[a]] ensures a < b {
      var k := |g| - 1 - a;
      assert finished[k] == order[a] && order[b] in finished[..k];
      var m :| 0 <= m < k && finished[m] == order[b];
    }
    OrderedIsAcyclic(g, order);
  }

  /** Returns a closed path of distinct nodes, or nothing exactly when there is none. */
  method FindCycle(edges: Edges) returns (cycle: seq<nat>)
    requires WellFormed(edges)
    ensures cycle == [] <==> Acyclic(edges)
    ensures cycle != [] ==> IsCycle(edges, cycle) && Distinct(cycle)
  {
    var search := new Search(edges);
    for i := 0 to |edges|
      invariant search.g == edges && fresh(search) && fresh(search.color)
      invariant search.Valid() && search.stack == []
      invariant forall v: nat :: v < i ==> search.color[v] == Black
    {
      if search.color[i] == White {
        var found := search.Dfs(i);
        if found {
          return search.cycle;
        }
      }
      assert search.color[..][i] == search.color[i];
    }
    assert forall v: nat :: v < |edges| ==> search.color[..][v] == Black;
    AllClosedIsAcyclic(edges, search.finished);
    return [];
  }
}
