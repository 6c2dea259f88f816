/** What reaches a table through chains of LIKE clauses, and that nothing else does. */
module LikeChains {
  import opened Text
  import opened Like
  import opened LikeExpansion

  /** The table from has a clause with these options, whose source is to. */
  ghost predicate CopiesWith(decls: Declarations, from: string, to: string, options: bv32) {
    && from in decls
    && exists k {:trigger decls[from].likes[k]} ::
         0 <= k < |decls[from].likes| &&
           SourceKey(decls[from].schema, decls[from].likes[k]) == to && decls[from].likes[k].options == options
  }

  /** Each table has a clause with the options of the hop, whose source is the table before it. */
  ghost predicate IsPath(decls: Declarations, keys: seq<string>, hops: seq<bv32>) {
    && |keys| == |hops| + 1 && keys[0] in decls
    && forall h, g :: 0 <= h && g == h + 1 && h < |hops| ==> CopiesWith(decls, keys[g], keys[h], hops[h])
  }

  lemma PathGrows(decls: Declarations, keys: seq<string>, hops: seq<bv32>, key: string, options: bv32)
    requires IsPath(decls, keys, hops) && CopiesWith(decls, key, keys[|hops|], options)
    ensures IsPath(decls, keys + [key], hops + [options])
  {
    var ks, hs := keys + [key], hops + [options];
    forall h, g | 0 <= h && g == h + 1 && h < |hs| ensures CopiesWith(decls, ks[g], ks[h], hs[h]) {
      assert h < |hops| ==> CopiesWith(decls, keys[g], keys[h], hops[h]);
    }
  }

  lemma PathFront(decls: Declarations, keys: seq<string>, hops: seq<bv32>)
    requires IsPath(decls, keys, hops) && hops != []
    ensures IsPath(decls, keys[..|hops|], hops[..|hops| - 1])
    ensures CopiesWith(decls, keys[|hops|], keys[|hops| - 1], hops[|hops| - 1])
  {
  }

  // ----- one clause

  lemma SpliceMembers<T>(cols: seq<T>, at: nat, ins: seq<T>)
    ensures forall x :: x in Splice(cols, at, ins) <==> x in cols || x in ins
  {
    var k := if at > |cols| then |cols| else at;
    assert cols == cols[..k] + cols[k..];
  }

  /** The contents of a table are its own and the copies of each source's. */
  ghost predicate ColumnFrom(d: Declared, e: Expansion, n: nat, col: Column)
    requires SourcesUpto(d, e.Keys, n)
  {
    || col in d.columns
    || exists k, c {:trigger CloneColumn(c, d.likes[k].options)} ::
      0 <= k < n && c in Source(d, e, k).columns && col == CloneColumn(c, d.likes[k].options)
  }

  lemma {:induction false} TakeColumns(d: Declared, e: Expansion, n: nat, col: Column)
    requires SourcesUpto(d, e.Keys, n)
    ensures col in Take(d, e, n).contents.columns <==> ColumnFrom(d, e, n, col)
  {
    if n > 0 {
      TakeColumns(d, e, n - 1, col);
      var p, source, lc := Take(d, e, n - 1), Source(d, e, n - 1), d.likes[n - 1];
      SpliceMembers(p.contents.columns, lc.insertAt + p.offset, CloneColumns(source.columns, lc.options));
      CloneColumnMembers(source.columns, lc.options);
    }
  }

  ghost predicate ConstraintFrom(d: Declared, e: Expansion, n: nat, con: Constraint)
    requires SourcesUpto(d, e.Keys, n)
  {
    || con in d.constraints
    || exists k, c {:trigger CloneConstraint(c, d.likes[k].options)} ::
         0 <= k < n && c in Source(d, e, k).constraints &&
           CopiedBy(c, d.likes[k].options) && con == CloneConstraint(c, d.likes[k].options)
  }

  lemma {:induction false} TakeConstraints(d: Declared, e: Expansion, n: nat, con: Constraint)
    requires SourcesUpto(d, e.Keys, n)
    ensures con in Take(d, e, n).contents.constraints <==> ConstraintFrom(d, e, n, con)
  {
    if n > 0 {
      TakeConstraints(d, e, n - 1, con);
      CloneMembers(Source(d, e, n - 1).constraints, d.likes[n - 1].options);
    }
  }

  // ----- chains

  /** A column reaches every table at the end of a chain, changed as each hop changes it. */
  lemma {:induction false} ColumnArrives(decls: Declarations, e: Expansion, keys: seq<string>, hops: seq<bv32>,
      c: Column)
    requires IsExpansion(decls, e) && IsPath(decls, keys, hops) && c in decls[keys[0]].columns
    ensures keys[|hops|] in e && ChainColumn(c, hops) in e[keys[|hops|]].columns
    decreases |hops|
  {
    var n := |hops|;
    if n > 0 {
      PathFront(decls, keys, hops);
      ColumnArrives(decls, e, keys[..n], hops[..n - 1], c);
    }
    var d := decls[keys[n]];
    assert Explains(decls, e, keys[n]);
    TakeColumns(d, e, |d.likes|, ChainColumn(c, hops));
  }

  /** A constraint that every hop copies does too. */
  lemma {:induction false} ConstraintArrives(decls: Declarations, e: Expansion, keys: seq<string>, hops: seq<bv32>,
      c: Constraint)
    requires IsExpansion(decls, e) &&
      IsPath(decls, keys, hops) && c in decls[keys[0]].constraints && CopiedByEvery(c, hops)
    ensures keys[|hops|] in e && ChainConstraint(c, hops) in e[keys[|hops|]].constraints
    decreases |hops|
  {
    var n := |hops|;
    if n > 0 {
      PathFront(decls, keys, hops);
      ConstraintArrives(decls, e, keys[..n], hops[..n - 1], c);
      ChainConstraintCopies(c, hops[..n - 1]);
      assert CopiedBy(ChainConstraint(c, hops[..n - 1]), hops[n - 1]);
    }
    var d := decls[keys[n]];
    assert Explains(decls, e, keys[n]);
    TakeConstraints(d, e, |d.likes|, ChainConstraint(c, hops));
  }

  // ----- nothing else

  /** The column is a declared one at the end of a chain of clauses. */
  ghost predicate ColumnOrigin(decls: Declarations, key: string, col: Column) {
    exists keys, hops, c {:trigger ReachesColumn(decls, keys, hops, c, key, col)} ::
      ReachesColumn(decls, keys, hops, c, key, col)
  }

  ghost predicate ReachesColumn(decls: Declarations, keys: seq<string>, hops: seq<bv32>, c: Column, key: string,
                                col: Column) {
    IsPath(decls, keys, hops) && keys[|hops|] == key && c in decls[keys[0]].columns && col == ChainColumn(c, hops)
  }

  ghost predicate AllColumnsOriginate(decls: Declarations, e: Expansion, key: string)
    requires key in e
  {
    forall col :: col in e[key].columns ==> ColumnOrigin(decls, key, col)
  }

  lemma OriginGrows(decls: Declarations, key: string, to: string, options: bv32, c: Column)
    requires CopiesWith(decls, key, to, options) && ColumnOrigin(decls, to, c)
    ensures ColumnOrigin(decls, key, CloneColumn(c, options))
  {
    var keys, hops, first :| ReachesColumn(decls, keys, hops, first, to, c);
    PathGrows(decls, keys, hops, key, options);
    assert (hops + [options])[..|hops|] == hops;
    assert ReachesColumn(decls, keys + [key], hops + [options], first, key, CloneColumn(c, options));
  }

  lemma OwnColumn(decls: Declarations, key: string, c: Column)
    requires key in decls && c in decls[key].columns
    ensures ColumnOrigin(decls, key, c)
  {
    assert ReachesColumn(decls, [key], [], c, key, c);
  }

  /** A column from nowhere came from a source that has one too. */
  lemma StrangerDescends(decls: Declarations, e: Expansion, key: string) returns (to: string)
    requires IsExpansion(decls, e) && key in decls && !AllColumnsOriginate(decls, e, key)
    ensures Copies(decls, key, to) && to in decls && !AllColumnsOriginate(decls, e, to)
  {
    var d := decls[key];
    var col :| col in e[key].columns && !ColumnOrigin(decls, key, col);
    assert Explains(decls, e, key);
    TakeColumns(d, e, |d.likes|, col);
    if col in d.columns {
      OwnColumn(decls, key, col);
      assert false;
    }
    var k, c :| 0 <= k < |d.likes| && c in Source(d, e, k).columns && col == CloneColumn(c, d.likes[k].options);
    to := SourceKey(d.schema, d.likes[k]);
    assert CopiesWith(decls, key, to, d.likes[k].options);
    if ColumnOrigin(decls, to, c) {
      OriginGrows(decls, key, to, d.likes[k].options, c);
      assert false;
    }
  }

  /** Without circles, every column of a resolved table is a declared one that a
      chain of clauses brought there, changed as each hop changes it. */
  lemma ColumnsOriginate(decls: Declarations, e: Expansion, key: string, col: Column)
    requires IsExpansion(decls, e) && Acyclic(decls) && key in decls && col in e[key].columns
    ensures ColumnOrigin(decls, key, col)
  {
    var bad := set k | k in decls && !AllColumnsOriginate(decls, e, k);
    forall from | from in bad ensures CopiesInto(decls, from, bad) {
      var to := StrangerDescends(decls, e, from);
      assert to in bad;
    }
    NoDescent(decls, bad);
    assert key !in bad;
  }
}
