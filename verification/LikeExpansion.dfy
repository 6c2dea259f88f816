/** What LIKE clauses amount to, and when they amount to anything. */
module LikeExpansion {
  import opened Text
  import opened Like
  import Digraph

  // ----- what a successful resolution is

  type Declarations = map<string, Declared>
  type Expansion = map<string, Contents>

  ghost predicate SourcesUpto(d: Declared, keys: set<string>, n: nat) {
    n <= |d.likes| && forall k :: 0 <= k < n ==> SourceKey(d.schema, d.likes[k]) in keys
  }

  ghost predicate SourcesIn(d: Declared, keys: set<string>) {
    SourcesUpto(d, keys, |d.likes|)
  }

  /** The contents of the source of clause n. */
  ghost function Source(d: Declared, e: Expansion, n: nat): Contents
    requires n < |d.likes| && SourceKey(d.schema, d.likes[n]) in e
  {
    e[SourceKey(d.schema, d.likes[n])]
  }

  /** A table part way through its clauses, and how many columns were inserted so far. */
  datatype Partial = Partial(contents: Contents, offset: nat)

  ghost function Take(d: Declared, e: Expansion, n: nat): Partial
    requires SourcesUpto(d, e.Keys, n)
  {
    if n == 0 then Partial(Contents(d.columns, d.constraints), 0)
    else Copied(Take(d, e, n - 1), Source(d, e, n - 1), d.likes[n - 1])
  }

  /** What a clause inserts. */
  function InsertionOf(source: Contents, lc: LikeClause): Insertion<Column> {
    Insertion(lc.insertAt, CloneColumns(source.columns, lc.options))
  }

  /** One clause copied from its source. */
  function Copied(p: Partial, source: Contents, lc: LikeClause): Partial {
    var ins := InsertionOf(source, lc);
    Partial(Contents(Splice(p.contents.columns, ins.at + p.offset, ins.items),
                     p.contents.constraints + CloneConstraints(source.constraints, lc.options)),
            p.offset + |ins.items|)
  }

  /** Every declared table amounts to its own declaration with the resolved
      contents of its sources copied in. */
  ghost predicate IsExpansion(decls: Declarations, e: Expansion) {
    && e.Keys == decls.Keys
    && forall key {:trigger Explains(decls, e, key)} :: key in decls ==> Explains(decls, e, key)
  }

  ghost predicate Explains(decls: Declarations, e: Expansion, key: string) {
    key in decls && key in e && SourcesIn(decls[key], e.Keys) &&
      e[key] == Take(decls[key], e, |decls[key].likes|).contents
  }

  // ----- when it exists

  ghost predicate AllDeclared(decls: Declarations) {
    forall key :: key in decls ==> SourcesIn(decls[key], decls.Keys)
  }

  /** The table named by from has a clause whose source is to. */
  ghost predicate Copies(decls: Declarations, from: string, to: string) {
    from in decls && exists k ::
      0 <= k < |decls[from].likes| && SourceKey(decls[from].schema, decls[from].likes[k]) == to
  }

  ghost predicate IsChain(decls: Declarations, p: seq<string>) {
    forall i, j :: 0 <= i && j == i + 1 && j < |p| ==> Copies(decls, p[i], p[j])
  }

  ghost predicate IsCircular(decls: Declarations, p: seq<string>) {
    p != [] && IsChain(decls, p) && Copies(decls, p[|p| - 1], p[0])
  }

  ghost predicate Acyclic(decls: Declarations) {
    forall p: seq<string> :: !IsCircular(decls, p)
  }

  ghost predicate ListedBefore(done: seq<string>, at: nat, key: string) {
    exists k :: 0 <= k < at && k < |done| && done[k] == key
  }

  /** The sources of the table listed at a place are listed before it. */
  ghost predicate SourcesBefore(decls: Declarations, done: seq<string>, at: nat)
    requires at < |done|
  {
    done[at] in decls && forall to {:trigger Copies(decls, done[at], to)} :: Copies(decls, done[at], to) ==>
      ListedBefore(done, at, to)
  }

  ghost predicate SourcesFirst(decls: Declarations, done: seq<string>) {
    forall k {:trigger SourcesBefore(decls, done, k)} :: 0 <= k < |done| ==> SourcesBefore(decls, done, k)
  }

  lemma {:induction false} ChainDescends(decls: Declarations, done: seq<string>, p: seq<string>, at: nat)
    returns (end: nat)
    requires SourcesFirst(decls, done) && p != [] && IsChain(decls, p)
    requires at < |done| && done[at] == p[0]
    ensures end <= at && done[end] == p[|p| - 1]
    decreases |p|
  {
    if |p| == 1 {
      end := at;
    } else {
      assert SourcesBefore(decls, done, at) && Copies(decls, p[0], p[1]);
      var next :| 0 <= next < at && done[next] == p[1];
      end := ChainDescends(decls, done, p[1..], next);
    }
  }

  lemma OrderedIsAcyclic(decls: Declarations, done: seq<string>)
    requires SourcesFirst(decls, done) && forall key :: key in decls ==> key in done
    ensures Acyclic(decls) && AllDeclared(decls)
  {
    forall p: seq<string> ensures !IsCircular(decls, p) {
      if IsCircular(decls, p) {
        assert Copies(decls, p[|p| - 1], p[0]) && p[|p| - 1] in decls;
        var last :| 0 <= last < |done| && done[last] == p[|p| - 1];
        assert SourcesBefore(decls, done, last);
        var first :| 0 <= first < last && done[first] == p[0];
        FirstOccurrence(decls, done, p, first);
      }
    }
    forall key | key in decls ensures SourcesIn(decls[key], decls.Keys) {
      var at :| 0 <= at < |done| && done[at] == key;
      SourcesListed(decls, done, at);
      forall k | 0 <= k < |decls[key].likes| ensures SourceKey(decls[key].schema, decls[key].likes[k]) in decls {
        assert ListedBefore(done, at, SourceKey(decls[key].schema, decls[key].likes[k]));
        var j :| 0 <= j < at && done[j] == SourceKey(decls[key].schema, decls[key].likes[k]);
        assert SourcesBefore(decls, done, j);
      }
    }
  }

  /** Going round a closed chain once more lists its first key strictly earlier, for ever. */
  lemma {:induction false} FirstOccurrence(decls: Declarations, done: seq<string>, p: seq<string>, at: nat)
    requires SourcesFirst(decls, done) && IsCircular(decls, p)
    requires at < |done| && done[at] == p[0]
    ensures false
    decreases at
  {
    var end := ChainDescends(decls, done, p, at);
    assert SourcesBefore(decls, done, end) && Copies(decls, done[end], p[0]);
    var earlier :| 0 <= earlier < end && done[earlier] == p[0];
    FirstOccurrence(decls, done, p, earlier);
  }

  /** A chain of so many clauses, all of whose keys are in the set. */
  lemma {:induction false} LongChain(decls: Declarations, bad: set<string>, key: string, n: nat)
    returns (p: seq<string>)
    requires key in bad && AllCopyInto(decls, bad)
    ensures |p| == n + 1 && IsChain(decls, p) && forall k :: 0 <= k <= n ==> p[k] in bad
    decreases n
  {
    if n == 0 {
      return [key];
    }
    var front := LongChain(decls, bad, key, n - 1);
    assert CopiesInto(decls, front[n - 1], bad);
    var to :| to in bad && Copies(decls, front[n - 1], to);
    p := front + [to];
    forall i, j | 0 <= i && j == i + 1 && j < |p| ensures Copies(decls, p[i], p[j]) {
      assert j < n ==> Copies(decls, front[i], front[j]);
    }
  }

  ghost predicate CopiesInto(decls: Declarations, from: string, keys: set<string>) {
    exists to :: to in keys && Copies(decls, from, to)
  }

  ghost predicate AllCopyInto(decls: Declarations, bad: set<string>) {
    forall from {:trigger CopiesInto(decls, from, bad)} :: from in bad ==> CopiesInto(decls, from, bad)
  }

  /** Without circles, no set of tables has every one of them copy from another of the set. */
  lemma NoDescent(decls: Declarations, bad: set<string>)
    requires Acyclic(decls) && bad <= decls.Keys
    requires AllCopyInto(decls, bad)
    ensures bad == {}
  {
    if bad != {} {
      var key :| key in bad;
      var p := LongChain(decls, bad, key, |bad|);
      if Digraph.Distinct(p) {
        Digraph.DistinctCardinality(p);
        Digraph.SubsetCardinality(Digraph.Elements(p), bad);
      } else {
        var i, j :| 0 <= i < j < |p| && p[i] == p[j];
        Circle(decls, p, i, j);
      }
    }
  }

  lemma Circle(decls: Declarations, p: seq<string>, i: nat, j: nat)
    requires IsChain(decls, p) && i < j < |p| && p[i] == p[j]
    ensures IsCircular(decls, p[i..j])
  {
    var c := p[i..j];
    forall a, b | 0 <= a && b == a + 1 && b < |c| ensures Copies(decls, c[a], c[b]) {
      assert Copies(decls, p[i + a], p[i + b]);
    }
    assert c[|c| - 1] == p[j - 1] && c[0] == p[j] && Copies(decls, p[j - 1], p[j]);
  }

  /** A table with two different contents has a source with two different contents. */
  lemma DifferenceDescends(decls: Declarations, e: Expansion, e': Expansion, key: string) returns (to: string)
    requires IsExpansion(decls, e) && IsExpansion(decls, e') && key in decls && e[key] != e'[key]
    ensures Copies(decls, key, to) && to in decls && e[to] != e'[to]
  {
    var d := decls[key];
    assert Explains(decls, e, key) && Explains(decls, e', key);
    if forall k :: 0 <= k < |d.likes| ==> e[SourceKey(d.schema, d.likes[k])] == e'[SourceKey(d.schema, d.likes[k])] {
      SameSources(d, e, e', |d.likes|);
      assert false;
    }
    var k :| 0 <= k < |d.likes| && e[SourceKey(d.schema, d.likes[k])] != e'[SourceKey(d.schema, d.likes[k])];
    to := SourceKey(d.schema, d.likes[k]);
  }

  /** Without circles the tables can amount to one thing only, so the order in
      which they are resolved does not matter. */
  lemma ExpansionUnique(decls: Declarations, e: Expansion, e': Expansion)
    requires Acyclic(decls) && IsExpansion(decls, e) && IsExpansion(decls, e')
    ensures e == e'
  {
    var bad := set key | key in decls && e[key] != e'[key];
    forall from | from in bad ensures CopiesInto(decls, from, bad) {
      var to := DifferenceDescends(decls, e, e', from);
      assert to in bad;
    }
    NoDescent(decls, bad);
    forall key | key in decls ensures e[key] == e'[key] {
      assert key !in bad;
    }
  }

  ghost predicate AgreeOn(e: Expansion, e': Expansion, keys: seq<string>, n: nat) {
    n <= |keys| && forall k :: 0 <= k < n ==> keys[k] in e && keys[k] in e' && e[keys[k]] == e'[keys[k]]
  }

  lemma SourcesListed(decls: Declarations, done: seq<string>, at: nat)
    requires at < |done| && SourcesBefore(decls, done, at)
    ensures forall k :: 0 <= k < |decls[done[at]].likes| ==>
      ListedBefore(done, at, SourceKey(decls[done[at]].schema, decls[done[at]].likes[k]))
  {
    var d := decls[done[at]];
    forall k | 0 <= k < |d.likes| ensures ListedBefore(done, at, SourceKey(d.schema, d.likes[k])) {
      assert Copies(decls, done[at], SourceKey(d.schema, d.likes[k]));
    }
  }

  lemma SourcesAgree(decls: Declarations, done: seq<string>, at: nat, e: Expansion, e': Expansion)
    requires at < |done| && SourcesBefore(decls, done, at) && AgreeOn(e, e', done, at)
    ensures SourcesIn(decls[done[at]], e.Keys) && SourcesIn(decls[done[at]], e'.Keys)
    ensures var d := decls[done[at]]; Take(d, e, |d.likes|) == Take(d, e', |d.likes|)
  {
    var d := decls[done[at]];
    SourcesListed(decls, done, at);
    forall k | 0 <= k < |d.likes|
      ensures var s := SourceKey(d.schema, d.likes[k]); s in e && s in e' && e[s] == e'[s]
    {
      assert ListedBefore(done, at, SourceKey(d.schema, d.likes[k]));
    }
    SameSources(d, e, e', |d.likes|);
  }

  lemma {:induction false} SameSources(d: Declared, e: Expansion, e': Expansion, n: nat)
    requires SourcesUpto(d, e.Keys, n) && SourcesUpto(d, e'.Keys, n)
    requires forall k :: 0 <= k < n ==> e[SourceKey(d.schema, d.likes[k])] == e'[SourceKey(d.schema, d.likes[k])]
    ensures Take(d, e, n) == Take(d, e', n)
  {
    if n > 0 {
      SameSources(d, e, e', n - 1);
    }
  }

  // ----- what resolved contents look like

  /** What the first n clauses of a table insert, given the contents of their sources. */
  ghost function Insertions(d: Declared, e: Expansion, n: nat): seq<Insertion<Column>>
    requires SourcesUpto(d, e.Keys, n)
  {
    if n == 0 then []
    else Insertions(d, e, n - 1) + [InsertionOf(Source(d, e, n - 1), d.likes[n - 1])]
  }

  /** The constraints the first n clauses append, in clause order. */
  ghost function Clones(d: Declared, e: Expansion, n: nat): seq<Constraint>
    requires SourcesUpto(d, e.Keys, n)
  {
    if n == 0 then []
    else Clones(d, e, n - 1) + CloneConstraints(Source(d, e, n - 1).constraints, d.likes[n - 1].options)
  }

  /** Copying clause after clause splices the insertions in and appends the clones. */
  lemma {:induction false} TakeSplices(d: Declared, e: Expansion, n: nat)
    requires SourcesUpto(d, e.Keys, n)
    ensures Take(d, e, n).contents.columns == SpliceAll(d.columns, Insertions(d, e, n))
    ensures Take(d, e, n).contents.constraints == d.constraints + Clones(d, e, n)
    ensures Take(d, e, n).offset == Inserted(Insertions(d, e, n))
  {
    if n > 0 {
      TakeSplices(d, e, n - 1);
      CopiedSplices(d.columns, d.constraints, Insertions(d, e, n - 1), Clones(d, e, n - 1), Take(d, e, n - 1),
                    Source(d, e, n - 1), d.likes[n - 1]);
    }
  }

  lemma CopiedSplices(cols: seq<Column>, base: seq<Constraint>, before: seq<Insertion<Column>>, clones: seq<Constraint>,
                      p: Partial, source: Contents, lc: LikeClause)
    requires p == Partial(Contents(SpliceAll(cols, before), base + clones), Inserted(before))
    ensures Copied(p, source, lc).contents.columns == SpliceAll(cols, before + [InsertionOf(source, lc)])
    ensures Copied(p, source, lc).contents.constraints ==
      base + (clones + CloneConstraints(source.constraints, lc.options))
    ensures Copied(p, source, lc).offset == Inserted(before + [InsertionOf(source, lc)])
  {
    SpliceNext(cols, before, InsertionOf(source, lc));
    var more := CloneConstraints(source.constraints, lc.options);
    assert base + clones + more == base + (clones + more);
  }

  lemma SpliceNext<T>(cols: seq<T>, before: seq<Insertion<T>>, ins: Insertion<T>)
    ensures SpliceAll(cols, before + [ins]) == Splice(SpliceAll(cols, before), ins.at + Inserted(before), ins.items)
    ensures Inserted(before + [ins]) == Inserted(before) + |ins.items|
  {
    assert (before + [ins])[..|before|] == before;
  }

  /** Clauses stand within the declared columns, in order. */
  ghost predicate InPlace(d: Declared) {
    && (forall k :: 0 <= k < |d.likes| ==> d.likes[k].insertAt <= |d.columns|)
    && (forall j, k :: 0 <= j < k < |d.likes| ==> d.likes[j].insertAt <= d.likes[k].insertAt)
  }

  lemma {:induction false} InPlaceInsertions(d: Declared, e: Expansion, n: nat)
    requires SourcesUpto(d, e.Keys, n) && InPlace(d)
    ensures |Insertions(d, e, n)| == n && WellPlaced(d.columns, Insertions(d, e, n))
    ensures forall k :: 0 <= k < n ==> Insertions(d, e, n)[k].at == d.likes[k].insertAt
  {
    if n > 0 {
      InPlaceInsertions(d, e, n - 1);
    }
  }

  /** In a resolution every table holds its own columns with the copies of each
      clause standing where the clause stood, and its own constraints followed
      by the copied ones. */
  lemma ResolvedIsWoven(decls: Declarations, e: Expansion, key: string)
    requires IsExpansion(decls, e) && key in decls && InPlace(decls[key])
    ensures SourcesIn(decls[key], e.Keys)
    ensures
      var d := decls[key];
      var ins := Insertions(d, e, |d.likes|);
      WellPlaced(d.columns, ins) && e[key] == Contents(Weave(d.columns, ins), d.constraints + Clones(d, e, |d.likes|))
  {
    var d := decls[key];
    assert Explains(decls, e, key);
    TakeSplices(d, e, |d.likes|);
    InPlaceInsertions(d, e, |d.likes|);
    SpliceAllIsWeave(d.columns, Insertions(d, e, |d.likes|));
  }
}
