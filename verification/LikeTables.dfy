/** The tables that a resolution of LIKE clauses rewrites in place. */
module LikeTables {
  import opened Text
  import opened Like
  import opened LikeExpansion

  /** Copies source columns one by one. */
  method CopyColumns(source: seq<Column>, options: bv32) returns (out: seq<Column>)
    ensures out == CloneColumns(source, options)
  {
    out := [];
    for i := 0 to |source|
      invariant out == CloneColumns(source[..i], options)
    {
      assert source[..i + 1][..i] == source[..i];
      out := out + [CloneColumn(source[i], options)];
    }
    assert source[..|source|] == source;
  }

  /** Copies the constraints the options ask for. */
  method CopyConstraints(source: seq<Constraint>, options: bv32) returns (out: seq<Constraint>)
    ensures out == CloneConstraints(source, options)
  {
    out := [];
    for i := 0 to |source|
      invariant out == CloneConstraints(source[..i], options)
    {
      CloneNext(source, i, options);
      if CopiedBy(source[i], options) {
        out := out + [CloneConstraint(source[i], options)];
      }
    }
    assert source[..|source|] == source;
  }

  lemma CloneNext(cs: seq<Constraint>, i: nat, options: bv32)
    requires i < |cs|
    ensures CopiedBy(cs[i], options) ==>
      CloneConstraints(cs[..i + 1], options) == CloneConstraints(cs[..i], options) + [CloneConstraint(cs[i], options)]
    ensures !CopiedBy(cs[i], options) ==> CloneConstraints(cs[..i + 1], options) == CloneConstraints(cs[..i], options)
  {
    assert cs[..i + 1][..i] == cs[..i];
  }

  class Table {
    const schema: string
    const name: string
    var columns: seq<Column>
    var constraints: seq<Constraint>
    var likeClauses: seq<LikeClause>

    function Key(): string {
      QualName(schema, name)
    }

    function Now(): Contents
      reads this
    {
      Contents(columns, constraints)
    }

    function Declaration(): Declared
      reads this
    {
      Declared(schema, columns, constraints, likeClauses)
    }

    /** Splices the columns copied from a source in and appends the constraints. */
    method Copy(src: Table, lc: LikeClause, offset: nat) returns (offset': nat)
      modifies this
      ensures likeClauses == old(likeClauses)
      ensures Partial(Now(), offset') == Copied(Partial(old(Now()), offset), old(src.Now()), lc)
    {
      var insertAt := lc.insertAt + offset;
      var newCols := CopyColumns(src.columns, lc.options);
      var newConstraints := CopyConstraints(src.constraints, lc.options);
      columns := Splice(columns, insertAt, newCols);
      offset' := offset + |newCols|;
      constraints := constraints + newConstraints;
    }
  }

  /** Tables by qualified name; a repeated name stands for its last holder. */
  function TablesByName(objects: seq<Table>): (ts: map<string, Table>)
    ensures forall key :: key in ts ==> ts[key].Key() == key
  {
    if objects == [] then map[]
    else TablesByName(objects[..|objects| - 1])[objects[|objects| - 1].Key() := objects[|objects| - 1]]
  }

  ghost function DeclarationsOf(ts: map<string, Table>): Declarations
    reads ts.Values
  {
    map key | key in ts :: ts[key].Declaration()
  }

  ghost function ContentsOf(ts: map<string, Table>): Expansion
    reads ts.Values
  {
    map key | key in ts :: ts[key].Now()
  }

  ghost predicate OwnKeys(tables: map<string, Table>) {
    forall key {:trigger tables[key].Key()} :: key in tables ==> tables[key].Key() == key
  }

  /** Tables stand under their own keys, and those already resolved have no clauses left. */
  ghost predicate Fits(tables: map<string, Table>, decls: Declarations, resolved: set<string>)
    reads tables.Values
  {
    && OwnKeys(tables)
    && decls.Keys == tables.Keys
    && (forall key :: key in tables ==> tables[key].schema == decls[key].schema)
    && (forall key :: key in tables ==> tables[key].likeClauses == if key in resolved then [] else decls[key].likes)
  }

  /** Writing one table changes the contents under its key only. */
  twostate lemma OnlyItsContents(tables: map<string, Table>, new key: string)
    requires OwnKeys(tables) && key in tables
    requires forall x :: x in tables.Values && x != tables[key] ==> unchanged(x)
    ensures ContentsOf(tables) == old(ContentsOf(tables))[key := tables[key].Now()]
  {
    forall k | k in tables && k != key
      ensures tables[k].Now() == old(tables[k].Now())
    {
      assert tables[k].Key() == k && tables[key].Key() == key;
      assert tables[k] in tables.Values && tables[k] != tables[key];
    }
  }

  twostate lemma SameTables(tables: map<string, Table>)
    requires forall x :: x in tables.Values ==> unchanged(x)
    ensures ContentsOf(tables) == old(ContentsOf(tables))
  {
  }

  /** ... and the clauses of that table at most. */
  twostate lemma FitsOthers(tables: map<string, Table>, new decls: Declarations, new resolved: set<string>,
                            new resolved': set<string>, new key: string)
    requires old(Fits(tables, decls, resolved)) && key in tables
    requires forall x :: x in tables.Values && x != tables[key] ==> unchanged(x)
    requires (resolved' == resolved && tables[key].likeClauses == old(tables[key].likeClauses)) ||
      (resolved' == resolved + {key} && tables[key].likeClauses == [])
    ensures Fits(tables, decls, resolved')
  {
    forall k | k in tables && k != key
      ensures tables[k].likeClauses == old(tables[k].likeClauses)
    {
      assert tables[k].Key() == k && tables[key].Key() == key;
      assert tables[k] in tables.Values && tables[k] != tables[key];
    }
  }
}
