/** The dependency edges the resolver derives from a list of declared objects,
    and what deferring foreign keys does to them. Everything here is a function
    of the objects' recorded contents; Resolver runs it over live tables. */
module Dependencies {
  import opened Text
  import opened Digraph
  import opened ForeignKeyText

  datatype Constraint = Constraint(name: string, kind: string, expr: string, deferrable: bool)
  {
    predicate IsForeignKey() {
      kind == "FOREIGN KEY"
    }
  }

  datatype TypeRef = TypeRef(schema: string, name: string)

  /** The contents of an object. others holds the index keys an object refers to
      by means that never report a missing target: trigger functions, bodies,
      queries, operator families and the like. */
  datatype ObjRec =
    | TableRec(schema: string, name: string, columnTypes: seq<TypeRef>, inherits: seq<string>,
               others: set<string>, constraints: seq<Constraint>)
    | SchemaRec(name: string)
    | OtherRec(qualName: string, schema: string, others: set<string>)

  function QualName(schema: string, name: string): string {
    if schema == "" then name else schema + "." + name
  }

  function QualifiedName(o: ObjRec): string {
    match o
    case TableRec(schema, name, _, _, _, _) => QualName(schema, name)
    case SchemaRec(name) => name
    case OtherRec(qualName, _, _) => qualName
  }

  /** Position by qualified name; a repeated name stands for its last holder. */
  function IndexOf(objs: seq<ObjRec>): (idx: map<string, nat>)
    ensures forall k :: k in idx ==> idx[k] < |objs|
  {
    if objs == [] then map[]
    else IndexOf(objs[..|objs| - 1])[QualifiedName(objs[|objs| - 1]) := |objs| - 1]
  }

  function SchemaNames(objs: seq<ObjRec>): set<string> {
    set i | 0 <= i < |objs| && objs[i].SchemaRec? :: objs[i].name
  }

  // ----- keys an object refers to

  function TypeKey(t: TypeRef, ownSchema: string): Option<string> {
    if t.schema == "pg_catalog" then None
    else if t.schema == "" then if ownSchema == "" then None else Some(ownSchema + "." + t.name)
    else Some(t.schema + "." + t.name)
  }

  predicate TypeUnresolved(keys: set<string>, schemas: set<string>, t: TypeRef) {
    && t.schema != "pg_catalog" && t.schema != ""
    && t.schema + "." + t.name !in keys
    && t.schema in schemas
  }

  /** Looks a table reference up, an unqualified one also in the referring
      table's own schema. */
  function ResolveTarget(keys: set<string>, refSchema: string, refTable: string, ownSchema: string): (r: Option<string>)
    ensures r.Some? ==> r.value in keys
  {
    if refSchema != "" then
      if refSchema + "." + refTable in keys then Some(refSchema + "." + refTable) else None
    else if refTable in keys then Some(refTable)
    else if ownSchema != "" && ownSchema + "." + refTable in keys then Some(ownSchema + "." + refTable)
    else None
  }

  predicate TargetUnresolved(keys: set<string>, schemas: set<string>, refSchema: string, refTable: string,
                             ownSchema: string) {
    && ResolveTarget(keys, refSchema, refTable, ownSchema).None?
    && var effective := if refSchema == "" then ownSchema else refSchema;
       effective == "" || effective in schemas
  }

  function ParentParts(ref: string): (string, string) {
    match Cut(ref, '.')
    case Some((schema, table)) => (schema, table)
    case None => ("", ref)
  }

  function ParentKey(keys: set<string>, ref: string, ownSchema: string): Option<string> {
    ResolveTarget(keys, ParentParts(ref).0, ParentParts(ref).1, ownSchema)
  }

  predicate ParentUnresolved(keys: set<string>, schemas: set<string>, ref: string, ownSchema: string) {
    TargetUnresolved(keys, schemas, ParentParts(ref).0, ParentParts(ref).1, ownSchema)
  }

  /** The key a constraint makes its table depend on. */
  function ForeignKeyTarget(keys: set<string>, c: Constraint, ownSchema: string): (r: Option<string>)
    ensures r.Some? ==> r.value in keys && c.IsForeignKey()
  {
    if !c.IsForeignKey() then None
    else
      var (refSchema, refTable) := ExtractRefParts(c.expr);
      if refTable == "" then None else ResolveTarget(keys, refSchema, refTable, ownSchema)
  }

  predicate ForeignKeyUnresolved(keys: set<string>, schemas: set<string>, c: Constraint, ownSchema: string) {
    && c.IsForeignKey()
    && ExtractRefParts(c.expr).1 != ""
    && TargetUnresolved(keys, schemas, ExtractRefParts(c.expr).0, ExtractRefParts(c.expr).1, ownSchema)
  }

  function TypeKeys(types: seq<TypeRef>, ownSchema: string): set<string> {
    set i | 0 <= i < |types| && TypeKey(types[i], ownSchema).Some? :: TypeKey(types[i], ownSchema).value
  }

  function ParentKeys(keys: set<string>, inherits: seq<string>, ownSchema: string): set<string> {
    set i | 0 <= i < |inherits| && ParentKey(keys, inherits[i], ownSchema).Some? ::
      ParentKey(keys, inherits[i], ownSchema).value
  }

  function ForeignKeyKeys(keys: set<string>, cs: seq<Constraint>, ownSchema: string): set<string> {
    set i | 0 <= i < |cs| && ForeignKeyTarget(keys, cs[i], ownSchema).Some? ::
      ForeignKeyTarget(keys, cs[i], ownSchema).value
  }

  function SchemaKeys(schema: string): set<string> {
    if schema == "" then {} else {schema}
  }

  /** Keys an object refers to other than through foreign keys. */
  function FixedKeys(keys: set<string>, o: ObjRec): set<string> {
    match o
    case TableRec(schema, _, columnTypes, inherits, others, _) =>
      SchemaKeys(schema) + TypeKeys(columnTypes, schema) + ParentKeys(keys, inherits, schema) + others
    case SchemaRec(_) => {}
    case OtherRec(_, schema, others) => SchemaKeys(schema) + others
  }

  function ReferredKeys(keys: set<string>, o: ObjRec): set<string> {
    FixedKeys(keys, o) + if o.TableRec? then ForeignKeyKeys(keys, o.constraints, o.schema) else {}
  }

  predicate HasUnresolved(keys: set<string>, schemas: set<string>, o: ObjRec) {
    && o.TableRec?
    && (|| (exists i :: 0 <= i < |o.columnTypes| && TypeUnresolved(keys, schemas, o.columnTypes[i]))
        || (exists i :: 0 <= i < |o.inherits| && ParentUnresolved(keys, schemas, o.inherits[i], o.schema))
        || (exists i :: 0 <= i < |o.constraints| && ForeignKeyUnresolved(keys, schemas, o.constraints[i], o.schema)))
  }

  /** References into schemas declared in source must resolve. */
  predicate AnyUnresolved(objs: seq<ObjRec>) {
    exists i :: 0 <= i < |objs| && HasUnresolved(IndexOf(objs).Keys, SchemaNames(objs), objs[i])
  }

  /** Positions of the declared objects among some keys. */
  function Positions(idx: map<string, nat>, keys: set<string>): set<nat> {
    set k | k in keys && k in idx :: idx[k]
  }

  /** Edges to the first k objects: EdgesTo(objs, |objs|)[j] lists who must come after j. */
  function EdgesTo(objs: seq<ObjRec>, k: nat): (g: Edges)
    requires k <= |objs|
    ensures |g| == |objs|
  {
    seq(|objs|, j => set i: nat | i < k && i != j && j in DependsOn(objs, i))
  }

  function DependsOn(objs: seq<ObjRec>, i: nat): (deps: set<nat>)
    requires i < |objs|
    ensures forall d :: d in deps ==> d < |objs|
  {
    Positions(IndexOf(objs), ReferredKeys(IndexOf(objs).Keys, objs[i]))
  }

  function EdgesOf(objs: seq<ObjRec>): (g: Edges)
    ensures |g| == |objs| && WellFormed(g)
  {
    EdgesTo(objs, |objs|)
  }

  lemma EdgeAt(objs: seq<ObjRec>, j: nat, i: nat)
    requires j < |objs|
    ensures i in EdgesOf(objs)[j] <==> i < |objs| && i != j && j in DependsOn(objs, i)
  {
  }

  /** The reasons an object has for naming a key: its schema, the type of a
      column, a parent, the target of a foreign key, or another reference. */
  ghost predicate Refers(keys: set<string>, o: ObjRec, key: string) {
    match o
    case TableRec(schema, _, columnTypes, inherits, others, constraints) =>
      || (key == schema && schema != "")
      || (exists t :: t in columnTypes && TypeKey(t, schema) == Some(key))
      || (exists ref :: ref in inherits && ParentKey(keys, ref, schema) == Some(key))
      || (exists c :: c in constraints && ForeignKeyTarget(keys, c, schema) == Some(key))
      || key in others
    case SchemaRec(_) => false
    case OtherRec(_, schema, others) => (key == schema && schema != "") || key in others
  }

  ghost predicate RefersTo(idx: map<string, nat>, o: ObjRec, j: nat) {
    exists key :: key in idx && idx[key] == j && Refers(idx.Keys, o, key)
  }

  lemma ReferredMeans(keys: set<string>, o: ObjRec, key: string)
    ensures key in ReferredKeys(keys, o) <==> Refers(keys, o, key)
  {
    if o.TableRec? {
      assert key in TypeKeys(o.columnTypes, o.schema) <==>
        exists t :: t in o.columnTypes && TypeKey(t, o.schema) == Some(key);
      assert key in ParentKeys(keys, o.inherits, o.schema) <==>
        exists ref :: ref in o.inherits && ParentKey(keys, ref, o.schema) == Some(key);
      assert key in ForeignKeyKeys(keys, o.constraints, o.schema) <==>
        exists c :: c in o.constraints && ForeignKeyTarget(keys, c, o.schema) == Some(key);
    }
  }

  lemma PositionMeans(idx: map<string, nat>, o: ObjRec, j: nat)
    ensures j in Positions(idx, ReferredKeys(idx.Keys, o)) <==> RefersTo(idx, o, j)
  {
    if j in Positions(idx, ReferredKeys(idx.Keys, o)) {
      var key :| key in ReferredKeys(idx.Keys, o) && key in idx && idx[key] == j;
      ReferredMeans(idx.Keys, o, key);
    }
    if key :| key in idx && idx[key] == j && Refers(idx.Keys, o, key) {
      ReferredMeans(idx.Keys, o, key);
    }
  }

  /** An edge from j to i is there exactly when i has a reason to name the key
      whose holder j is, and is not itself j. */
  lemma EdgeMeaning(objs: seq<ObjRec>, j: nat, i: nat)
    requires j < |objs|
    ensures i in EdgesOf(objs)[j] <==> i < |objs| && i != j && RefersTo(IndexOf(objs), objs[i], j)
  {
    EdgeAt(objs, j, i);
    if i < |objs| {
      PositionMeans(IndexOf(objs), objs[i], j);
    }
  }

  // ----- deferral

  /** The key under which both the deferral test and the strip loop look a
      foreign key's target up: no own-schema fallback. */
  predicate ClosesWithin(idx: map<string, nat>, cycle: set<nat>, c: Constraint) {
    && c.IsForeignKey()
    && ExtractRef(c.expr) != ""
    && ExtractRef(c.expr) in idx
    && idx[ExtractRef(c.expr)] in cycle
  }

  predicate Deferred(idx: map<string, nat>, cycle: set<nat>, c: Constraint) {
    ClosesWithin(idx, cycle, c) && c.deferrable
  }

  /** A table with a foreign key inside the cycle that cannot be deferred. */
  ghost predicate Refuses(idx: map<string, nat>, cycle: set<nat>, o: ObjRec) {
    o.TableRec? && exists c :: c in o.constraints && ClosesWithin(idx, cycle, c) && !c.deferrable
  }

  /** A table with a foreign key inside the cycle that can be deferred. */
  ghost predicate Offers(idx: map<string, nat>, cycle: set<nat>, o: ObjRec) {
    o.TableRec? && exists c :: c in o.constraints && Deferred(idx, cycle, c)
  }

  /** At least one deferrable foreign key runs inside the cycle, and none that is not deferrable. */
  ghost predicate CanDefer(objs: seq<ObjRec>, cycle: set<nat>) {
    && (forall i :: i in cycle && i < |objs| ==> !Refuses(IndexOf(objs), cycle, objs[i]))
    && (exists i :: i in cycle && i < |objs| && Offers(IndexOf(objs), cycle, objs[i]))
  }

  function KeptConstraints(idx: map<string, nat>, cycle: set<nat>, cs: seq<Constraint>): seq<Constraint> {
    if cs == [] then []
    else KeptConstraints(idx, cycle, cs[..|cs| - 1]) + if Deferred(idx, cycle, cs[|cs| - 1]) then [] else [cs[|cs| - 1]]
  }

  function MovedConstraints(idx: map<string, nat>, cycle: set<nat>, cs: seq<Constraint>): seq<Constraint> {
    if cs == [] then []
    else MovedConstraints(idx, cycle, cs[..|cs| - 1]) + if Deferred(idx, cycle, cs[|cs| - 1]) then [cs[|cs| - 1]] else []
  }

  function StripOne(idx: map<string, nat>, cycle: set<nat>, i: nat, o: ObjRec): ObjRec {
    if i in cycle && o.TableRec? then o.(constraints := KeptConstraints(idx, cycle, o.constraints)) else o
  }

  /** The objects without the foreign keys deferred for one cycle. */
  function Strip(objs: seq<ObjRec>, cycle: set<nat>): (r: seq<ObjRec>)
    ensures |r| == |objs|
    ensures forall i :: 0 <= i < |objs| ==> r[i] == StripOne(IndexOf(objs), cycle, i, objs[i])
  {
    seq(|objs|, i requires 0 <= i < |objs| => StripOne(IndexOf(objs), cycle, i, objs[i]))
  }

  /** Equal but for a table's constraints. */
  predicate SameButConstraints(a: ObjRec, b: ObjRec) {
    if a.TableRec? && b.TableRec? then a.(constraints := b.constraints) == b else a == b
  }

  ghost predicate SameShape(a: seq<ObjRec>, b: seq<ObjRec>) {
    |a| == |b| && forall i :: 0 <= i < |a| ==> SameButConstraints(a[i], b[i])
  }

  lemma SameShapeSameIndex(a: seq<ObjRec>, b: seq<ObjRec>)
    requires SameShape(a, b)
    ensures IndexOf(a) == IndexOf(b) && SchemaNames(a) == SchemaNames(b)
  {
    if a != [] {
      SameShapeSameIndex(a[..|a| - 1], b[..|b| - 1]);
      assert SameButConstraints(a[|a| - 1], b[|b| - 1]);
    }
    forall i | 0 <= i < |a| ensures a[i].SchemaRec? == b[i].SchemaRec? && (a[i].SchemaRec? ==> a[i].name == b[i].name) {
      assert SameButConstraints(a[i], b[i]);
    }
    assert SchemaNames(a) == SchemaNames(b);
  }

  // ----- stripping keeps order, loses nothing, and makes progress

  /** a is b with some members left out. */
  ghost predicate Subsequence<T>(a: seq<T>, b: seq<T>)
    decreases |b|
  {
    || a == []
    || (b != [] && Subsequence(a, b[..|b| - 1]))
    || (b != [] && a[|a| - 1] == b[|b| - 1] && Subsequence(a[..|a| - 1], b[..|b| - 1]))
  }

  lemma {:induction false} SubsequenceSelf<T>(a: seq<T>)
    ensures Subsequence(a, a)
  {
    if a != [] {
      SubsequenceSelf(a[..|a| - 1]);
    }
  }

  lemma {:induction false} SubsequenceTrans<T>(a: seq<T>, b: seq<T>, c: seq<T>)
    requires Subsequence(a, b) && Subsequence(b, c)
    ensures Subsequence(a, c)
    decreases |c|
  {
    if a != [] {
      assert b != [] && c != [];
      var c' := c[..|c| - 1];
      if Subsequence(b, c') {
        SubsequenceTrans(a, b, c');
      } else if Subsequence(a, b[..|b| - 1]) {
        SubsequenceTrans(a, b[..|b| - 1], c');
      } else {
        SubsequenceTrans(a[..|a| - 1], b[..|b| - 1], c');
      }
    }
  }

  lemma {:induction false} SubsequenceMembers<T>(a: seq<T>, b: seq<T>)
    requires Subsequence(a, b)
    ensures forall x :: x in a ==> x in b
    decreases |b|
  {
    if a != [] {
      if Subsequence(a, b[..|b| - 1]) {
        SubsequenceMembers(a, b[..|b| - 1]);
      } else {
        SubsequenceMembers(a[..|a| - 1], b[..|b| - 1]);
        assert a == a[..|a| - 1] + [a[|a| - 1]];
      }
    }
  }

  lemma {:induction false} KeptSubsequence(idx: map<string, nat>, cycle: set<nat>, cs: seq<Constraint>)
    ensures Subsequence(KeptConstraints(idx, cycle, cs), cs)
  {
    if cs != [] {
      var front, last := cs[..|cs| - 1], cs[|cs| - 1];
      KeptSubsequence(idx, cycle, front);
      var kept := KeptConstraints(idx, cycle, cs);
      if !Deferred(idx, cycle, last) {
        assert kept[..|kept| - 1] == KeptConstraints(idx, cycle, front);
      } else {
        assert kept == KeptConstraints(idx, cycle, front);
      }
    }
  }

  lemma {:induction false} StripSplits(idx: map<string, nat>, cycle: set<nat>, cs: seq<Constraint>)
    ensures multiset(cs) == multiset(KeptConstraints(idx, cycle, cs)) + multiset(MovedConstraints(idx, cycle, cs))
  {
    if cs != [] {
      var front, last := cs[..|cs| - 1], cs[|cs| - 1];
      StripSplits(idx, cycle, front);
      assert cs == front + [last];
      AddToEither(front, KeptConstraints(idx, cycle, front), MovedConstraints(idx, cycle, front), last);
    }
  }

  lemma AddToEither<T>(all: seq<T>, a: seq<T>, b: seq<T>, x: T)
    requires multiset(all) == multiset(a) + multiset(b)
    ensures multiset(all + [x]) == multiset(a + [x]) + multiset(b + [])
    ensures multiset(all + [x]) == multiset(a + []) + multiset(b + [x])
  {
    assert a + [] == a && b + [] == b;
  }

  lemma {:induction false} MovedMembers(idx: map<string, nat>, cycle: set<nat>, cs: seq<Constraint>)
    ensures forall c :: c in MovedConstraints(idx, cycle, cs) <==> c in cs && Deferred(idx, cycle, c)
  {
    if cs != [] {
      MovedMembers(idx, cycle, cs[..|cs| - 1]);
      assert cs == cs[..|cs| - 1] + [cs[|cs| - 1]];
    }
  }

  /** How many constraints are deferrable foreign keys. */
  function DeferrableIn(cs: seq<Constraint>): nat {
    if cs == [] then 0
    else DeferrableIn(cs[..|cs| - 1]) + if cs[|cs| - 1].IsForeignKey() && cs[|cs| - 1].deferrable then 1 else 0
  }

  function DeferrableCount(objs: seq<ObjRec>): nat {
    if objs == [] then 0
    else DeferrableCount(objs[..|objs| - 1]) + DeferrableOf(objs[|objs| - 1])
  }

  function DeferrableOf(o: ObjRec): nat {
    if o.TableRec? then DeferrableIn(o.constraints) else 0
  }

  lemma {:induction false} StripCounts(idx: map<string, nat>, cycle: set<nat>, cs: seq<Constraint>)
    ensures DeferrableIn(cs) == DeferrableIn(KeptConstraints(idx, cycle, cs)) + |MovedConstraints(idx, cycle, cs)|
  {
    if cs != [] {
      StripCounts(idx, cycle, cs[..|cs| - 1]);
      var kept := KeptConstraints(idx, cycle, cs);
      if !Deferred(idx, cycle, cs[|cs| - 1]) {
        assert kept[..|kept| - 1] == KeptConstraints(idx, cycle, cs[..|cs| - 1]);
      } else {
        assert kept == KeptConstraints(idx, cycle, cs[..|cs| - 1]);
      }
    }
  }

  lemma {:induction false} CountPointwise(a: seq<ObjRec>, b: seq<ObjRec>, at: nat)
    requires |a| == |b| && forall i :: 0 <= i < |a| ==> DeferrableOf(a[i]) <= DeferrableOf(b[i])
    ensures DeferrableCount(a) <= DeferrableCount(b)
    ensures at < |a| && DeferrableOf(a[at]) < DeferrableOf(b[at]) ==> DeferrableCount(a) < DeferrableCount(b)
  {
    if a != [] {
      CountPointwise(a[..|a| - 1], b[..|b| - 1], at);
    }
  }

  /** Whenever the deferral test passes, the strip loop removes something:
      recursion on the stripped objects is on strictly fewer deferrable keys. */
  lemma DeferralMakesProgress(objs: seq<ObjRec>, cycle: set<nat>)
    requires CanDefer(objs, cycle)
    ensures DeferrableCount(Strip(objs, cycle)) < DeferrableCount(objs)
    ensures exists i ::
      i in cycle && i < |objs| && objs[i].TableRec? && MovedConstraints(IndexOf(objs), cycle, objs[i].constraints) != []
  {
    var idx := IndexOf(objs);
    var i :| i in cycle && i < |objs| && Offers(idx, cycle, objs[i]);
    MovedMembers(idx, cycle, objs[i].constraints);
    forall m | 0 <= m < |objs| ensures DeferrableOf(Strip(objs, cycle)[m]) <= DeferrableOf(objs[m]) {
      if objs[m].TableRec? {
        StripCounts(idx, cycle, objs[m].constraints);
      }
    }
    StripCounts(idx, cycle, objs[i].constraints);
    CountPointwise(Strip(objs, cycle), objs, i);
  }

  // ----- which edges deferral can drop

  /** residual is objs with some constraints left out of some tables. */
  ghost predicate Residual(objs: seq<ObjRec>, residual: seq<ObjRec>) {
    && SameShape(objs, residual)
    && forall i :: 0 <= i < |objs| && objs[i].TableRec? ==> Subsequence(residual[i].constraints, objs[i].constraints)
  }

  lemma ResidualStrip(objs: seq<ObjRec>, cycle: set<nat>)
    ensures Residual(objs, Strip(objs, cycle))
  {
    forall i | 0 <= i < |objs| && objs[i].TableRec?
      ensures Subsequence(Strip(objs, cycle)[i].constraints, objs[i].constraints)
    {
      KeptSubsequence(IndexOf(objs), cycle, objs[i].constraints);
      SubsequenceSelf(objs[i].constraints);
    }
  }

  lemma ResidualSelf(objs: seq<ObjRec>)
    ensures Residual(objs, objs)
  {
    forall i | 0 <= i < |objs| && objs[i].TableRec? ensures Subsequence(objs[i].constraints, objs[i].constraints) {
      SubsequenceSelf(objs[i].constraints);
    }
  }

  lemma ResidualTrans(a: seq<ObjRec>, b: seq<ObjRec>, c: seq<ObjRec>)
    requires Residual(a, b) && Residual(b, c)
    ensures Residual(a, c)
  {
    forall i | 0 <= i < |a|
      ensures SameButConstraints(a[i], c[i])
      ensures a[i].TableRec? ==> Subsequence(c[i].constraints, a[i].constraints)
    {
      assert SameButConstraints(a[i], b[i]) && SameButConstraints(b[i], c[i]);
      if a[i].TableRec? {
        SubsequenceTrans(c[i].constraints, b[i].constraints, a[i].constraints);
      }
    }
  }

  /** Leaving constraints out can only leave references unresolved less often. */
  lemma ResidualResolved(objs: seq<ObjRec>, residual: seq<ObjRec>)
    requires Residual(objs, residual) && !AnyUnresolved(objs)
    ensures !AnyUnresolved(residual)
  {
    SameShapeSameIndex(objs, residual);
    var keys, schemas := IndexOf(objs).Keys, SchemaNames(objs);
    forall i | 0 <= i < |residual| ensures !HasUnresolved(keys, schemas, residual[i]) {
      assert SameButConstraints(objs[i], residual[i]) && !HasUnresolved(keys, schemas, objs[i]);
      if residual[i].TableRec? {
        SubsequenceMembers(residual[i].constraints, objs[i].constraints);
        forall k | 0 <= k < |residual[i].constraints|
          ensures !ForeignKeyUnresolved(keys, schemas, residual[i].constraints[k], objs[i].schema)
        {
          assert residual[i].constraints[k] in objs[i].constraints;
        }
      }
    }
  }

  lemma PositionsSplit(idx: map<string, nat>, keys: set<string>, o: ObjRec)
    ensures Positions(idx, ReferredKeys(keys, o)) ==
      Positions(idx, FixedKeys(keys, o)) + if o.TableRec? then Positions(idx, ForeignKeyKeys(keys, o.constraints, o.schema)) else {}
  {
  }

  // ----- where the deferral test and the edges disagree

  /** A bare name that only the referring table's own schema explains. */
  predicate BareInOwnSchema(idx: map<string, nat>, c: Constraint, ownSchema: string) {
    var (refSchema, refTable) := ExtractRefParts(c.expr);
    refTable != "" && refSchema == "" && refTable !in idx && ownSchema != "" && ownSchema + "." + refTable in idx
  }

  /** Edges fall back to the table's own schema; deferral does not. The two
      lookups agree exactly unless a bare name is found only there. */
  lemma DeferralLookupAgrees(idx: map<string, nat>, c: Constraint, ownSchema: string)
    requires c.IsForeignKey()
    ensures
      var edge := ForeignKeyTarget(idx.Keys, c, ownSchema);
      var raw := if ExtractRef(c.expr) != "" && ExtractRef(c.expr) in idx then Some(ExtractRef(c.expr)) else None;
      edge == raw <==> !BareInOwnSchema(idx, c, ownSchema)
  {
  }
}
