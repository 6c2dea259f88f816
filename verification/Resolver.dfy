/** The dependency resolver over live table objects: edges, Kahn's order, cycle
    search, and the deferral of foreign keys with recursion on the stripped
    objects. Only the constraint list of a table ever changes. */
module Resolver {
  import opened Text
  import opened Digraph
  import opened ForeignKeyText
  import opened Dependencies
  import opened Deferral
  import opened DeferralRounds
  import Kahn
  import CycleFinder

  class Table {
    const schema: string
    const name: string
    const columnTypes: seq<TypeRef>
    const inherits: seq<string>
    const others: set<string>
    var constraints: seq<Constraint>

    constructor Copy(t: Table, constraints: seq<Constraint>)
      ensures schema == t.schema && name == t.name
      ensures SameButConstraints(Rec(), t.Rec()) && this.constraints == constraints
    {
      schema, name, columnTypes, inherits, others := t.schema, t.name, t.columnTypes, t.inherits, t.others;
      this.constraints := constraints;
    }

    function Rec(): (r: ObjRec)
      reads this
      ensures r.TableRec?
    {
      TableRec(schema, name, columnTypes, inherits, others, constraints)
    }
  }

  /** A declared object: tables are shared records, every other kind is only read. */
  datatype IRObject =
    | TableObject(table: Table)
    | PlainObject(plain: PlainRec)

  type PlainRec = o: ObjRec | !o.TableRec? witness SchemaRec("")

  function Footprint(o: IRObject): set<Table> {
    if o.TableObject? then {o.table} else {}
  }

  function Tables(objs: seq<IRObject>): (ts: set<Table>)
    ensures forall i :: 0 <= i < |objs| && objs[i].TableObject? ==> objs[i].table in ts
  {
    set i | 0 <= i < |objs| && objs[i].TableObject? :: objs[i].table
  }

  function RecOf(o: IRObject): ObjRec
    reads Footprint(o)
  {
    if o.TableObject? then o.table.Rec() else o.plain
  }

  function Recs(objs: seq<IRObject>): (r: seq<ObjRec>)
    reads Tables(objs)
    ensures |r| == |objs| && forall i :: 0 <= i < |objs| ==> r[i] == RecOf(objs[i])
  {
    if objs == [] then []
    else
      assert Tables(objs[..|objs| - 1]) <= Tables(objs);
      Recs(objs[..|objs| - 1]) + [RecOf(objs[|objs| - 1])]
  }

  lemma RecsAppend(objs: seq<IRObject>, o: IRObject, target: seq<ObjRec>, i: nat)
    requires i < |target| && Recs(objs) == target[..i] && RecOf(o) == target[i]
    ensures Recs(objs + [o]) == target[..i + 1]
  {
    assert (objs + [o])[..|objs|] == objs;
    assert target[..i + 1] == target[..i] + [target[i]];
  }

  /** No two tables share schema and name. */
  ghost predicate UniqueTables(objs: seq<IRObject>) {
    forall i, j {:trigger Namesakes(objs[i], objs[j])} :: 0 <= i < j < |objs| ==> !Namesakes(objs[i], objs[j])
  }

  ghost predicate Namesakes(a: IRObject, b: IRObject) {
    a.TableObject? && b.TableObject? && a.table.schema == b.table.schema && a.table.name == b.table.name
  }

  datatype Outcome =
    | Sorted(objects: seq<IRObject>)
    | UnresolvedReferences
    | CircularDependency(members: seq<string>)

  // ----- building the edges

  method BuildIndex(objects: seq<IRObject>, ghost recs: seq<ObjRec>) returns (idx: map<string, nat>)
    requires recs == Recs(objects)
    ensures idx == IndexOf(recs)
  {
    idx := map[];
    for i := 0 to |objects|
      invariant idx == IndexOf(recs[..i])
    {
      idx := idx[QualifiedName(RecOf(objects[i])) := i];
      assert recs[..i + 1][..i] == recs[..i];
    }
    assert recs[..|objects|] == recs;
  }

  method CollectSchemas(objects: seq<IRObject>, ghost recs: seq<ObjRec>) returns (schemas: set<string>)
    requires recs == Recs(objects)
    ensures schemas == SchemaNames(recs)
  {
    schemas := {};
    for i := 0 to |objects|
      invariant schemas == SchemaNames(recs[..i])
    {
      SchemaNamesStep(recs, i);
      if objects[i].PlainObject? && objects[i].plain.SchemaRec? {
        schemas := schemas + {objects[i].plain.name};
      }
    }
    assert recs[..|objects|] == recs;
  }

  lemma SchemaNamesStep(recs: seq<ObjRec>, i: nat)
    requires i < |recs|
    ensures SchemaNames(recs[..i + 1]) == SchemaNames(recs[..i]) + if recs[i].SchemaRec? then {recs[i].name} else {}
  {
    var a, b := recs[..i + 1], recs[..i];
    forall x ensures x in SchemaNames(a) <==> x in SchemaNames(b) || (recs[i].SchemaRec? && x == recs[i].name) {
      if x in SchemaNames(a) {
        var k :| 0 <= k < |a| && a[k].SchemaRec? && a[k].name == x;
        assert k < i ==> b[k] == a[k];
      }
      if x in SchemaNames(b) {
        var k :| 0 <= k < |b| && b[k].SchemaRec? && b[k].name == x;
        assert a[k] == b[k];
      }
      assert a[i] == recs[i];
    }
  }

  /** The keys a table refers to, and whether one of them had to resolve and did not. */
  method TableReferences(t: Table, keys: set<string>, schemas: set<string>) returns (referred: set<string>, bad: bool)
    ensures referred == ReferredKeys(keys, t.Rec())
    ensures bad == HasUnresolved(keys, schemas, t.Rec())
  {
    var types, badType := TypeReferences(t.columnTypes, t.schema, keys, schemas);
    var parents, badParent := ParentReferences(t.inherits, t.schema, keys, schemas);
    var targets, badTarget := ForeignKeyReferences(t.constraints, t.schema, keys, schemas);
    referred := SchemaKeys(t.schema) + types + parents + t.others + targets;
    bad := badType || badParent || badTarget;
  }

  method TypeReferences(types: seq<TypeRef>, schema: string, keys: set<string>, schemas: set<string>)
    returns (referred: set<string>, bad: bool)
    ensures referred == TypeKeys(types, schema)
    ensures bad <==> exists i :: 0 <= i < |types| && TypeUnresolved(keys, schemas, types[i])
  {
    referred, bad := {}, false;
    for i := 0 to |types|
      invariant referred == set k | 0 <= k < i && TypeKey(types[k], schema).Some? :: TypeKey(types[k], schema).value
      invariant bad <==> exists k :: 0 <= k < i && TypeUnresolved(keys, schemas, types[k])
    {
      match TypeKey(types[i], schema) {
        case Some(key) => referred := referred + {key};
        case None =>
      }
      if TypeUnresolved(keys, schemas, types[i]) {
        bad := true;
      }
    }
  }

  method ParentReferences(inherits: seq<string>, schema: string, keys: set<string>, schemas: set<string>)
    returns (referred: set<string>, bad: bool)
    ensures referred == ParentKeys(keys, inherits, schema)
    ensures bad <==> exists i :: 0 <= i < |inherits| && ParentUnresolved(keys, schemas, inherits[i], schema)
  {
    referred, bad := {}, false;
    for i := 0 to |inherits|
      invariant referred ==
        set k | 0 <= k < i && ParentKey(keys, inherits[k], schema).Some? :: ParentKey(keys, inherits[k], schema).value
      invariant bad <==> exists k :: 0 <= k < i && ParentUnresolved(keys, schemas, inherits[k], schema)
    {
      match ParentKey(keys, inherits[i], schema) {
        case Some(key) => referred := referred + {key};
        case None =>
      }
      if ParentUnresolved(keys, schemas, inherits[i], schema) {
        bad := true;
      }
    }
  }

  method ForeignKeyReferences(cs: seq<Constraint>, schema: string, keys: set<string>, schemas: set<string>)
    returns (referred: set<string>, bad: bool)
    ensures referred == ForeignKeyKeys(keys, cs, schema)
    ensures bad <==> exists i :: 0 <= i < |cs| && ForeignKeyUnresolved(keys, schemas, cs[i], schema)
  {
    referred, bad := {}, false;
    for i := 0 to |cs|
      invariant referred == ForeignKeyKeys(keys, cs[..i], schema)
      invariant bad == AnyForeignKeyUnresolved(keys, schemas, cs[..i], schema)
    {
      ForeignKeyKeysStep(keys, cs, i, schema);
      AnyForeignKeyStep(keys, schemas, cs, i, schema);
      var target := ForeignKeyTarget(keys, cs[i], schema);
      if target.Some? {
        referred := referred + {target.value};
      }
      if ForeignKeyUnresolved(keys, schemas, cs[i], schema) {
        bad := true;
      }
    }
    assert cs[..|cs|] == cs;
  }

  ghost predicate AnyForeignKeyUnresolved(keys: set<string>, schemas: set<string>, cs: seq<Constraint>,
      schema: string) {
    exists i :: 0 <= i < |cs| && ForeignKeyUnresolved(keys, schemas, cs[i], schema)
  }

  lemma AnyForeignKeyStep(keys: set<string>, schemas: set<string>, cs: seq<Constraint>, i: nat, schema: string)
    requires i < |cs|
    ensures AnyForeignKeyUnresolved(keys, schemas, cs[..i + 1], schema) <==>
      AnyForeignKeyUnresolved(keys, schemas, cs[..i], schema) || ForeignKeyUnresolved(keys, schemas, cs[i], schema)
  {
    assert cs[..i + 1] == cs[..i] + [cs[i]];
    AnyForeignKeyAppended(keys, schemas, cs[..i], cs[i], schema);
  }

  lemma AnyForeignKeyAppended(keys: set<string>, schemas: set<string>, front: seq<Constraint>, c: Constraint,
                              schema: string)
    ensures AnyForeignKeyUnresolved(keys, schemas, front + [c], schema) <==>
      AnyForeignKeyUnresolved(keys, schemas, front, schema) || ForeignKeyUnresolved(keys, schemas, c, schema)
  {
    if AnyForeignKeyUnresolved(keys, schemas, front, schema) {
      var k :| 0 <= k < |front| && ForeignKeyUnresolved(keys, schemas, front[k], schema);
      assert (front + [c])[k] == front[k];
    }
    assert (front + [c])[|front|] == c;
  }

  lemma ForeignKeyKeysStep(keys: set<string>, cs: seq<Constraint>, i: nat, schema: string)
    requires i < |cs|
    ensures ForeignKeyKeys(keys, cs[..i + 1], schema) == ForeignKeyKeys(keys, cs[..i], schema) +
      match ForeignKeyTarget(keys, cs[i], schema) case Some(key) => {key} case None => {}
  {
    var front, target := cs[..i], ForeignKeyTarget(keys, cs[i], schema);
    assert cs[..i + 1] == front + [cs[i]];
    forall x ensures x in ForeignKeyKeys(keys, front + [cs[i]], schema) <==>
      x in ForeignKeyKeys(keys, front, schema) || target == Some(x)
    {
      if target == Some(x) {
        assert (front + [cs[i]])[i] == cs[i];
      }
      if x in ForeignKeyKeys(keys, front, schema) {
        var k :| 0 <= k < |front| && ForeignKeyTarget(keys, front[k], schema) == Some(x);
        assert (front + [cs[i]])[k] == front[k];
      }
    }
  }

  /** All edges, and whether any reference that must resolve does not. */
  method BuildEdges(objects: seq<IRObject>, ghost recs: seq<ObjRec>, idx: map<string, nat>, schemas: set<string>)
    returns (edges: Edges, bad: bool)
    requires recs == Recs(objects) && idx == IndexOf(recs) && schemas == SchemaNames(recs)
    ensures edges == EdgesOf(recs)
    ensures bad == AnyUnresolved(recs)
  {
    edges, bad := seq(|objects|, _ => {}), false;
    assert forall j :: 0 <= j < |objects| ==> EdgesTo(recs, 0)[j] == {};
    for i := 0 to |objects|
      invariant edges == EdgesTo(recs, i)
      invariant bad <==> exists k :: 0 <= k < i && HasUnresolved(idx.Keys, schemas, recs[k])
    {
      var referred, badHere := References(objects[i], recs[i], idx.Keys, schemas);
      bad := bad || badHere;
      edges := DependOnAll(recs, edges, i, Positions(idx, referred));
    }
  }

  method References(obj: IRObject, ghost rec: ObjRec, keys: set<string>, schemas: set<string>)
    returns (referred: set<string>, bad: bool)
    requires rec == RecOf(obj)
    ensures referred == ReferredKeys(keys, rec) && bad == HasUnresolved(keys, schemas, rec)
  {
    if obj.TableObject? {
      referred, bad := TableReferences(obj.table, keys, schemas);
    } else {
      referred, bad := ReferredKeys(keys, obj.plain), false;
    }
  }

  /** Adds an edge to i from each position it depends on, itself left out. */
  method DependOnAll(ghost recs: seq<ObjRec>, edges: Edges, i: nat, deps: set<nat>) returns (edges': Edges)
    requires i < |recs| && edges == EdgesTo(recs, i) && deps == DependsOn(recs, i)
    ensures edges' == EdgesTo(recs, i + 1)
  {
    edges' := edges;
    var todo := deps;
    while todo != {}
      invariant todo <= deps
      invariant |edges'| == |recs|
      invariant forall j :: 0 <= j < |recs| ==> edges'[j] == edges[j] + if j in deps - todo && j != i then {i} else {}
    {
      var d :| d in todo;
      if d != i {
        edges' := edges'[d := edges'[d] + {i}];
      }
      todo := todo - {d};
    }
    forall j: nat | j < |recs| ensures edges'[j] == EdgesTo(recs, i + 1)[j] {
    }
  }

  // ----- the deferral test

  /** Whether the cycle is closed by deferrable foreign keys only, and by one at least. */
  method DecideDeferral(objects: seq<IRObject>, ghost recs: seq<ObjRec>, cycle: seq<nat>, idx: map<string, nat>)
    returns (ok: bool)
    requires recs == Recs(objects) && idx == IndexOf(recs) && InRange(cycle, |objects|)
    ensures ok <==> CanDefer(recs, Elements(cycle))
  {
    var cycleSet := Elements(cycle);
    var found := false;
    ghost var verdicts := [];
    for a := 0 to |cycle|
      invariant Judged(recs, cycle, verdicts) && |verdicts| == a
      invariant Refused !in verdicts && (found <==> Deferrable in verdicts)
    {
      var verdict := JudgeObject(objects[cycle[a]], recs[cycle[a]], idx, cycleSet);
      JudgedAppend(recs, cycle, verdicts, verdict);
      verdicts := verdicts + [verdict];
      if verdict == Refused {
        RefusalDecides(recs, cycle, verdicts);
        return false;
      }
      found := found || verdict == Deferrable;
    }
    VerdictsDecide(recs, cycle, verdicts);
    return found;
  }

  /** The verdict on one object. */
  ghost function JudgeOf(idx: map<string, nat>, cycle: set<nat>, o: ObjRec): Verdict {
    if Refuses(idx, cycle, o) then Refused else if Offers(idx, cycle, o) then Deferrable else NoneInside
  }

  /** The verdicts on the first members of a cycle. */
  ghost predicate Judged(recs: seq<ObjRec>, cycle: seq<nat>, verdicts: seq<Verdict>) {
    && InRange(cycle, |recs|) && |verdicts| <= |cycle|
    && forall b :: 0 <= b < |verdicts| ==> verdicts[b] == JudgeOf(IndexOf(recs), Elements(cycle), recs[cycle[b]])
  }

  lemma JudgedAppend(recs: seq<ObjRec>, cycle: seq<nat>, verdicts: seq<Verdict>, v: Verdict)
    requires Judged(recs, cycle, verdicts) && |verdicts| < |cycle|
    requires v == JudgeOf(IndexOf(recs), Elements(cycle), recs[cycle[|verdicts|]])
    ensures Judged(recs, cycle, verdicts + [v])
    ensures forall x :: x in verdicts + [v] <==> x in verdicts || x == v
  {
  }

  lemma RefusalDecides(recs: seq<ObjRec>, cycle: seq<nat>, verdicts: seq<Verdict>)
    requires Judged(recs, cycle, verdicts) && Refused in verdicts
    ensures !CanDefer(recs, Elements(cycle))
  {
    var b :| 0 <= b < |verdicts| && verdicts[b] == Refused;
    assert cycle[b] in Elements(cycle);
  }

  lemma VerdictsDecide(recs: seq<ObjRec>, cycle: seq<nat>, verdicts: seq<Verdict>)
    requires Judged(recs, cycle, verdicts) && |verdicts| == |cycle| && Refused !in verdicts
    ensures CanDefer(recs, Elements(cycle)) <==> Deferrable in verdicts
  {
    forall i | i in Elements(cycle) ensures !Refuses(IndexOf(recs), Elements(cycle), recs[i]) {
      var b :| 0 <= b < |cycle| && cycle[b] == i;
      assert verdicts[b] in verdicts;
    }
    if Deferrable in verdicts {
      var b :| 0 <= b < |verdicts| && verdicts[b] == Deferrable;
      assert cycle[b] in Elements(cycle);
    }
    if CanDefer(recs, Elements(cycle)) {
      var i :| i in Elements(cycle) && i < |recs| && Offers(IndexOf(recs), Elements(cycle), recs[i]);
      var b :| 0 <= b < |cycle| && cycle[b] == i;
      assert verdicts[b] == Deferrable;
    }
  }

  /** The verdict on one member of a cycle; only tables have foreign keys. */
  method JudgeObject(obj: IRObject, ghost rec: ObjRec, idx: map<string, nat>, cycle: set<nat>) returns (v: Verdict)
    requires rec == RecOf(obj)
    ensures v == JudgeOf(idx, cycle, rec)
  {
    if obj.TableObject? {
      v := JudgeConstraints(obj.table.constraints, idx, cycle);
    } else {
      v := NoneInside;
    }
  }

  datatype Verdict = NoneInside | Deferrable | Refused

  method JudgeConstraints(cs: seq<Constraint>, idx: map<string, nat>, cycle: set<nat>) returns (v: Verdict)
    ensures v == Refused <==> exists c :: c in cs && ClosesWithin(idx, cycle, c) && !c.deferrable
    ensures v == Deferrable ==> exists c :: c in cs && Deferred(idx, cycle, c)
    ensures v == NoneInside ==> forall c :: c in cs ==> !ClosesWithin(idx, cycle, c)
  {
    v := NoneInside;
    for i := 0 to |cs|
      invariant v != Refused
      invariant forall c :: c in cs[..i] && ClosesWithin(idx, cycle, c) ==> c.deferrable
      invariant v == Deferrable ==> exists c :: c in cs[..i] && Deferred(idx, cycle, c)
      invariant v == NoneInside ==> forall c :: c in cs[..i] ==> !ClosesWithin(idx, cycle, c)
    {
      assert cs[..i + 1] == cs[..i] + [cs[i]] && cs[i] in cs[..i + 1];
      if ClosesWithin(idx, cycle, cs[i]) {
        if !cs[i].deferrable {
          return Refused;
        }
        assert Deferred(idx, cycle, cs[i]);
        v := Deferrable;
      }
    }
    assert cs[..|cs|] == cs;
  }

  // ----- stripping and re-attaching

  method SplitConstraints(t: Table, idx: map<string, nat>, cycle: set<nat>)
    returns (keep: seq<Constraint>, deferred: seq<DeferredKey>)
    ensures keep == KeptConstraints(idx, cycle, t.constraints)
    ensures deferred == Tagged(t.schema, t.name, MovedConstraints(idx, cycle, t.constraints))
  {
    keep, deferred := [], [];
    var cs := t.constraints;
    for i := 0 to |cs|
      invariant keep == KeptConstraints(idx, cycle, cs[..i])
      invariant deferred == Tagged(t.schema, t.name, MovedConstraints(idx, cycle, cs[..i]))
    {
      var cst := cs[i];
      SplitNext(idx, cycle, t.schema, t.name, cs, i);
      if Deferred(idx, cycle, cst) {
        deferred := deferred + [DeferredKey(t.schema, t.name, cst)];
      } else {
        keep := keep + [cst];
      }
    }
    assert cs[..|cs|] == cs;
  }

  lemma SplitNext(idx: map<string, nat>, cycle: set<nat>, schema: string, name: string, cs: seq<Constraint>, i: nat)
    requires i < |cs|
    ensures Deferred(idx, cycle, cs[i]) ==>
      && KeptConstraints(idx, cycle, cs[..i + 1]) == KeptConstraints(idx, cycle, cs[..i])
      && Tagged(schema, name, MovedConstraints(idx, cycle, cs[..i + 1])) ==
           Tagged(schema, name, MovedConstraints(idx, cycle, cs[..i])) + [DeferredKey(schema, name, cs[i])]
    ensures !Deferred(idx, cycle, cs[i]) ==>
      && KeptConstraints(idx, cycle, cs[..i + 1]) == KeptConstraints(idx, cycle, cs[..i]) + [cs[i]]
      && MovedConstraints(idx, cycle, cs[..i + 1]) == MovedConstraints(idx, cycle, cs[..i])
  {
    assert cs[..i + 1][..i] == cs[..i];
    var moved := MovedConstraints(idx, cycle, cs[..i]);
    TaggedAppend(schema, name, moved, cs[i]);
    assert moved + [] == moved;
  }

  /** The first objects after stripping: tables of the cycle are replaced by
      copies of the same name, everything else is kept. */
  ghost predicate StrippedCopy(objects: seq<IRObject>, modified: seq<IRObject>, cycle: set<nat>, copies: set<Table>) {
    && |modified| <= |objects|
    && forall i {:trigger StripsTo(objects[i], modified[i], i in cycle, copies)} :: 0 <= i < |modified| ==>
      StripsTo(objects[i], modified[i], i in cycle, copies)
  }

  ghost predicate StripsTo(a: IRObject, b: IRObject, inCycle: bool, copies: set<Table>) {
    if inCycle && a.TableObject? then SameIdentity(a, b) && b.table in copies else b == a
  }

  lemma StrippedAppend(objects: seq<IRObject>, modified: seq<IRObject>, cycle: set<nat>, copies: set<Table>,
                       m: IRObject, copied: set<Table>)
    requires StrippedCopy(objects, modified, cycle, copies) && |modified| < |objects|
    requires StripsTo(objects[|modified|], m, |modified| in cycle, copied)
    ensures StrippedCopy(objects, modified + [m], cycle, copies + copied)
  {
    forall i | 0 <= i <= |modified| ensures StripsTo(objects[i], (modified + [m])[i], i in cycle, copies + copied) {
      assert i < |modified| ==> StripsTo(objects[i], modified[i], i in cycle, copies);
    }
  }

  /** The same plain object, or two tables of the same schema and name. */
  predicate SameIdentity(a: IRObject, b: IRObject) {
    if a.TableObject? && b.TableObject? then a.table.schema == b.table.schema && a.table.name == b.table.name else a == b
  }

  method StripObject(obj: IRObject, ghost rec: ObjRec, idx: map<string, nat>, cycle: set<nat>, i: nat)
    returns (stripped: IRObject, moved: seq<DeferredKey>, ghost copies: set<Table>)
    requires rec == RecOf(obj)
    ensures RecOf(stripped) == StripOne(idx, cycle, i, rec) &&
      StripsTo(obj, stripped, i in cycle, copies) && fresh(copies)
    ensures moved == DeferredAt(idx, cycle, i, rec)
  {
    stripped, moved, copies := obj, [], {};
    if i in cycle && obj.TableObject? {
      var tbl := obj.table;
      var keep;
      keep, moved := SplitConstraints(tbl, idx, cycle);
      var tblCopy := new Table.Copy(tbl, keep);
      stripped, copies := TableObject(tblCopy), {tblCopy};
    }
  }

  /** The first objects stripped, their moved keys recorded. */
  ghost predicate StrippedSoFar(objects: seq<IRObject>, recs: seq<ObjRec>, cycle: set<nat>,
                                modified: seq<IRObject>, deferred: seq<DeferredKey>, copies: set<Table>)
    reads Tables(modified)
  {
    && |recs| == |objects| && |modified| <= |objects| && StrippedCopy(objects, modified, cycle, copies)
    && Recs(modified) == Strip(recs, cycle)[..|modified|]
    && deferred == DeferredFrom(recs, IndexOf(recs), cycle, |modified|)
  }

  /** The next object stripped, after those before it. */
  method StripNext(objects: seq<IRObject>, ghost recs: seq<ObjRec>, idx: map<string, nat>, cycle: set<nat>,
                   modified: seq<IRObject>, deferred: seq<DeferredKey>, ghost copies: set<Table>)
    returns (stripped: IRObject, moved: seq<DeferredKey>, ghost copied: set<Table>)
    requires recs == Recs(objects) && idx == IndexOf(recs) && |modified| < |objects|
    requires StrippedSoFar(objects, recs, cycle, modified, deferred, copies)
    ensures StrippedSoFar(objects, recs, cycle, modified + [stripped], deferred + moved, copies + copied) && fresh(copied)
  {
    var i := |modified|;
    ghost var target := Strip(recs, cycle);
    stripped, moved, copied := StripObject(objects[i], recs[i], idx, cycle, i);
    KeepsInput(modified, target[..i]);
    RecsAppend(modified, stripped, target, i);
    StrippedAppend(objects, modified, cycle, copies, stripped, copied);
    DeferredNext(recs, idx, cycle, i);
  }

  /** Takes the deferrable foreign keys inside the cycle off copies of its tables. */
  method StripCycle(objects: seq<IRObject>, ghost recs: seq<ObjRec>, idx: map<string, nat>, cycle: set<nat>)
    returns (modified: seq<IRObject>, deferred: seq<DeferredKey>, removedAny: bool, ghost copies: set<Table>)
    requires recs == Recs(objects) && idx == IndexOf(recs)
    ensures |modified| == |objects| && StrippedCopy(objects, modified, cycle, copies) && fresh(copies)
    ensures Recs(modified) == Strip(recs, cycle)
    ensures deferred == DeferredFrom(recs, idx, cycle, |objects|)
    ensures removedAny <==> deferred != []
  {
    modified, deferred, removedAny, copies := [], [], false, {};
    NothingStripped(objects, recs, cycle);
    for i := 0 to |objects|
      invariant |modified| == i && StrippedSoFar(objects, recs, cycle, modified, deferred, copies) && fresh(copies)
      invariant removedAny <==> deferred != []
    {
      var stripped, moved;
      ghost var copied;
      stripped, moved, copied := StripNext(objects, recs, idx, cycle, modified, deferred, copies);
      FreshUnion(copies, copied);
      removedAny := removedAny || moved != [];
      modified, deferred, copies := modified + [stripped], deferred + moved, copies + copied;
    }
    AllStripped(objects, recs, cycle, modified, deferred, copies);
  }

  lemma NothingStripped(objects: seq<IRObject>, recs: seq<ObjRec>, cycle: set<nat>)
    requires |recs| == |objects|
    ensures StrippedSoFar(objects, recs, cycle, [], [], {})
  {
  }

  lemma AllStripped(objects: seq<IRObject>, recs: seq<ObjRec>, cycle: set<nat>,
                    modified: seq<IRObject>, deferred: seq<DeferredKey>, copies: set<Table>)
    requires StrippedSoFar(objects, recs, cycle, modified, deferred, copies) && |modified| == |objects|
    ensures StrippedCopy(objects, modified, cycle, copies) && Recs(modified) == Strip(recs, cycle)
    ensures deferred == DeferredFrom(recs, IndexOf(recs), cycle, |objects|)
  {
    assert Strip(recs, cycle)[..|objects|] == Strip(recs, cycle);
  }

  /** Puts one deferred key back on the first table of its name. */
  method ReattachOne(resorted: seq<IRObject>, d: DeferredKey)
    modifies Tables(resorted)
    ensures UniqueTables(resorted) ==> Recs(resorted) == Attach(old(Recs(resorted)), [d])
  {
    for k := 0 to |resorted|
      invariant forall t :: t in Tables(resorted) ==> t.constraints == old(t.constraints)
      invariant forall m :: 0 <= m < k && resorted[m].TableObject? ==>
        !(resorted[m].table.schema == d.schema && resorted[m].table.name == d.name)
    {
      if resorted[k].TableObject? && resorted[k].table.schema == d.schema && resorted[k].table.name == d.name {
        var t := resorted[k].table;
        ghost var before := Recs(resorted);
        t.constraints := t.constraints + [d.fk];
        if UniqueTables(resorted) {
          AttachedOnce(resorted, before, k, d);
        }
        return;
      }
    }
    forall m | 0 <= m < |resorted| ensures RecOf(resorted[m]) == AttachOne([d], old(RecOf(resorted[m]))) {
      AttachSingle(RecOf(resorted[m]), d);
    }
  }

  lemma AttachedOnce(objs: seq<IRObject>, before: seq<ObjRec>, k: nat, d: DeferredKey)
    requires UniqueTables(objs) && |before| == |objs| && k < |objs| && objs[k].TableObject?
    requires objs[k].table.schema == d.schema && objs[k].table.name == d.name
    requires before[k].TableRec? && RecOf(objs[k]) == before[k].(constraints := before[k].constraints + [d.fk])
    requires forall m :: 0 <= m < |objs| && objs[m] != objs[k] ==> RecOf(objs[m]) == before[m]
    ensures Recs(objs) == Attach(before, [d])
  {
    forall m | 0 <= m < |objs| ensures RecOf(objs[m]) == AttachOne([d], before[m]) {
      AttachSingle(before[m], d);
      if m != k {
        UniqueNames(objs, k, m);
      }
    }
  }

  lemma UniqueNames(objs: seq<IRObject>, k: nat, m: nat)
    requires UniqueTables(objs) && k < |objs| && m < |objs| && k != m && objs[k].TableObject?
    ensures objs[m] != objs[k]
    ensures objs[m].TableObject? ==>
      !(objs[m].table.schema == objs[k].table.schema && objs[m].table.name == objs[k].table.name)
  {
    assert k < m ==> !Namesakes(objs[k], objs[m]);
    assert m < k ==> !Namesakes(objs[m], objs[k]);
  }

  method Reattach(resorted: seq<IRObject>, deferred: seq<DeferredKey>)
    modifies Tables(resorted)
    ensures UniqueTables(resorted) ==> Recs(resorted) == Attach(old(Recs(resorted)), deferred)
  {
    ghost var was := Recs(resorted);
    AttachNothing(was);
    for i := 0 to |deferred|
      invariant UniqueTables(resorted) ==> Recs(resorted) == Attach(was, deferred[..i])
    {
      AttachNext(was, deferred[..i], deferred[i]);
      ReattachOne(resorted, deferred[i]);
      assert deferred[..i + 1] == deferred[..i] + [deferred[i]];
    }
    assert deferred[..|deferred|] == deferred;
  }

  // ----- the resolver

  /** What a successful run decided: the order of the input positions, the cycles
      it broke, the contents whose edges that order is about, whether the input order was
      returned because the stripped objects could not be ordered, and the
      contents of the objects as listed. */
  datatype Plan = Plan(order: seq<nat>, cycles: seq<seq<nat>>, residual: seq<ObjRec>, fellBack: bool, result: seq<ObjRec>)

  function Identity(n: nat): (r: seq<nat>)
    ensures |r| == n && forall k :: 0 <= k < n ==> r[k] == k
  {
    seq(n, k => k)
  }

  /** The plan orders every position once. Only keys of deferrable cycles were
      taken off, and the order respects every edge that is left, unless those
      edges still close a cycle that cannot be deferred: then the input order stands. */
  ghost predicate OrderedBy(recs: seq<ObjRec>, plan: Plan) {
    && AreRounds(recs, plan.cycles) && plan.residual == AfterRounds(recs, plan.cycles)
    && IsOrder(plan.order, |recs|)
    && if plan.fellBack
       then plan.order == Identity(|recs|) && UndeferrableCycle(plan.residual)
       else Respects(EdgesOf(plan.residual), plan.order)
  }

  /** A bad reference is the only reason to report one, a cycle that cannot be
      deferred the only reason to report that, and a sorted list breaks a cycle
      exactly when there is one. */
  ghost predicate Decided(recs: seq<ObjRec>, out: Outcome, plan: Plan) {
    && (out.UnresolvedReferences? <==> AnyUnresolved(recs))
    && (out.CircularDependency? ==> UndeferrableCycle(recs))
    && (out.Sorted? ==> OrderedBy(recs, plan) && (plan.cycles == [] <==> Acyclic(EdgesOf(recs))))
  }

  /** No object gains or loses a constraint, and what was ordered is what each
      table's constraints start with. */
  ghost predicate ConservedBy(recs: seq<ObjRec>, plan: Plan) {
    && ConservedAll(recs, plan.order, plan.result)
    && (!plan.fellBack ==> StartsWithKept(plan.residual, plan.order, plan.result))
  }

  /** The objects in the given order, some tables replaced by copies of the same name. */
  ghost predicate ListsInOrder(objects: seq<IRObject>, order: seq<nat>, result: seq<IRObject>, copies: set<Table>) {
    && InRange(order, |objects|) && |result| == |order|
    && forall k {:trigger SameOrCopy(objects[order[k]], result[k], copies)} :: 0 <= k < |order| ==>
      SameOrCopy(objects[order[k]], result[k], copies)
  }

  ghost predicate SameOrCopy(a: IRObject, b: IRObject, copies: set<Table>) {
    b == a || (b.TableObject? && SameIdentity(a, b) && b.table in copies)
  }

  /** No table's constraints differ from what they were. */
  twostate predicate ConstraintsUnchanged(ts: set<Table>)
    reads ts
  {
    forall t :: t in ts ==> t.constraints == old(t.constraints)
  }

  method ListInOrder(objects: seq<IRObject>, order: seq<nat>) returns (listed: seq<IRObject>)
    requires InRange(order, |objects|)
    ensures |listed| == |order| && forall k :: 0 <= k < |order| ==> listed[k] == objects[order[k]]
  {
    listed := [];
    for i := 0 to |order|
      invariant |listed| == i && forall k :: 0 <= k < i ==> listed[k] == objects[order[k]]
    {
      listed := listed + [objects[order[i]]];
    }
  }

  method NamesOf(objects: seq<IRObject>, cycle: seq<nat>) returns (members: seq<string>)
    requires InRange(cycle, |objects|)
    ensures |members| == |cycle| && forall k :: 0 <= k < |cycle| ==>
      members[k] == QualifiedName(RecOf(objects[cycle[k]]))
  {
    members := [];
    for i := 0 to |cycle|
      invariant |members| == i && forall k :: 0 <= k < i ==> members[k] == QualifiedName(RecOf(objects[cycle[k]]))
    {
      members := members + [QualifiedName(RecOf(objects[cycle[i]]))];
    }
  }

  /** The outcome when Kahn's order is complete. */
  method ListSorted(objects: seq<IRObject>, ghost recs: seq<ObjRec>, order: seq<nat>)
    returns (out: Outcome, ghost plan: Plan)
    requires recs == Recs(objects) && IsOrder(order, |objects|) && Respects(EdgesOf(recs), order)
    ensures out.Sorted? && plan == Plan(order, [], recs, false, Recs(out.objects))
    ensures OrderedBy(recs, plan) && ConservedBy(recs, plan) && ListsInOrder(objects, order, out.objects, {})
  {
    var listed := ListInOrder(objects, order);
    plan := Plan(order, [], recs, false, Recs(listed));
    NoRounds(recs);
    ConservedSelf(recs, order, Recs(listed));
    out := Sorted(listed);
  }

  /** The edges and as much of an order as Kahn's loop finds. */
  method FirstPass(objects: seq<IRObject>, ghost recs: seq<ObjRec>)
    returns (idx: map<string, nat>, edges: Edges, bad: bool, order: seq<nat>)
    requires recs == Recs(objects)
    ensures idx == IndexOf(recs) && edges == EdgesOf(recs) && bad == AnyUnresolved(recs)
    ensures order == Kahn.KahnOrder(EdgesOf(recs)) && (|order| == |objects| <==> Acyclic(EdgesOf(recs)))
    ensures Acyclic(EdgesOf(recs)) ==> IsOrder(order, |objects|) && Respects(EdgesOf(recs), order)
  {
    idx := BuildIndex(objects, recs);
    var schemas := CollectSchemas(objects, recs);
    edges, bad := BuildEdges(objects, recs, idx, schemas);
    order := Kahn.TopologicalOrder(edges);
    Kahn.KahnCompleteIffAcyclic(edges);
  }

  /** A cycle, when there is one, and whether it can be deferred. */
  method ExamineCycle(objects: seq<IRObject>, ghost recs: seq<ObjRec>, idx: map<string, nat>, edges: Edges)
    returns (cycle: seq<nat>, deferrable: bool)
    requires recs == Recs(objects) && idx == IndexOf(recs) && edges == EdgesOf(recs) && !Acyclic(edges)
    ensures IsCycle(edges, cycle) && Distinct(cycle) && InRange(cycle, |objects|)
    ensures deferrable <==> CanDefer(recs, Elements(cycle))
    ensures !deferrable ==> UndeferrableCycle(recs)
  {
    cycle := CycleFinder.FindCycle(edges);
    deferrable := DecideDeferral(objects, recs, cycle, idx);
  }

  /** Orders the objects so that each comes after everything it depends on,
      deferring foreign keys that close a cycle. */
  method Sort(objects: seq<IRObject>, ghost recs: seq<ObjRec>)
    returns (out: Outcome, ghost plan: Plan, ghost copies: set<Table>)
    requires recs == Recs(objects)
    modifies Tables(objects)
    ensures Decided(recs, out, plan)
    ensures Acyclic(EdgesOf(recs)) && !out.UnresolvedReferences? ==>
      out.Sorted? && !plan.fellBack && plan.residual == recs && plan.order == Kahn.KahnOrder(EdgesOf(plan.residual))
    ensures out.Sorted? ==> plan.result == Recs(out.objects)
    ensures out.Sorted? && UniqueTables(objects) ==> ConservedBy(recs, plan)
    ensures out.Sorted? ==> ListsInOrder(objects, plan.order, out.objects, copies) && fresh(copies)
    ensures !out.Sorted? || UniqueTables(objects) ==> ConstraintsUnchanged(Tables(objects))
    decreases DeferrableCount(recs), 1
  {
    plan, copies := Plan([], [], [], false, []), {};
    var idx, edges, bad, order := FirstPass(objects, recs);
    assert ConstraintsUnchanged(Tables(objects));
    if bad {
      return UnresolvedReferences, plan, copies;
    }
    if |order| == |objects| {
      out, plan := ListSorted(objects, recs, order);
      return;
    }
    var cycle, deferrable := ExamineCycle(objects, recs, idx, edges);
    assert ConstraintsUnchanged(Tables(objects)) && Recs(objects) == recs;
    if deferrable {
      out, plan, copies := SortStripped(objects, recs, idx, cycle);
    } else {
      var members := NamesOf(objects, cycle);
      out := CircularDependency(members);
    }
  }

  /** Takes the deferrable keys inside the cycle off, orders what is left, and
      puts them back; input order if what is left cannot be ordered either. */
  method SortStripped(objects: seq<IRObject>, ghost recs: seq<ObjRec>, idx: map<string, nat>, cycle: seq<nat>)
    returns (out: Outcome, ghost plan: Plan, ghost copies: set<Table>)
    requires recs == Recs(objects) && idx == IndexOf(recs) && InRange(cycle, |objects|)
    requires DeferrableCycle(recs, cycle) && !AnyUnresolved(recs)
    modifies Tables(objects)
    ensures out.Sorted? && OrderedBy(recs, plan) && plan.result == Recs(out.objects) && plan.cycles != []
    ensures UniqueTables(objects) ==> ConservedBy(recs, plan)
    ensures ListsInOrder(objects, plan.order, out.objects, copies) && fresh(copies)
    ensures UniqueTables(objects) ==> ConstraintsUnchanged(Tables(objects))
    decreases DeferrableCount(recs), 0
  {
    var cycleSet := Elements(cycle);
    var modified, deferred, removedAny;
    ghost var made;
    modified, deferred, removedAny, made := StripCycle(objects, recs, idx, cycleSet);
    assert ConstraintsUnchanged(Tables(objects)) && Recs(objects) == recs;
    KeysWereDeferred(recs, cycleSet);
    if !removedAny {
      // The deferral test has passed, so a key was removed.
      assert false;
    }
    StrippedTables(objects, modified, cycleSet, made);
    ghost var more;
    out, plan, more := SortModified(objects, recs, cycle, modified, made, deferred);
    assert fresh(made);
    assert fresh(more);
    FreshUnion(made, more);
    copies := made + more;
  }

  twostate lemma FreshUnion(new a: set<Table>, new b: set<Table>)
    requires fresh(a) && fresh(b)
    ensures fresh(a + b)
  {
  }

  /** The part of SortStripped after the keys are off. */
  method SortModified(objects: seq<IRObject>, ghost recs: seq<ObjRec>, ghost round: seq<nat>,
                      modified: seq<IRObject>, ghost made: set<Table>, deferred: seq<DeferredKey>)
    returns (out: Outcome, ghost plan: Plan, ghost more: set<Table>)
    requires recs == Recs(objects) && !AnyUnresolved(recs) && DeferrableCycle(recs, round)
    requires |modified| == |objects| &&
      StrippedCopy(objects, modified, Elements(round), made) && Recs(modified) == Strip(recs, Elements(round))
    requires made !! Tables(objects) && Tables(modified) <= Tables(objects) + made
    requires deferred == DeferredFrom(recs, IndexOf(recs), Elements(round), |recs|)
    requires DeferrableCount(Strip(recs, Elements(round))) < DeferrableCount(recs)
    modifies Tables(objects), made
    ensures out.Sorted? && OrderedBy(recs, plan) && plan.result == Recs(out.objects) && plan.cycles != []
    ensures UniqueTables(objects) ==> ConservedBy(recs, plan)
    ensures ListsInOrder(objects, plan.order, out.objects, made + more) && fresh(more)
    ensures UniqueTables(objects) ==> ConstraintsUnchanged(Tables(objects))
    decreases DeferrableCount(Strip(recs, Elements(round))), 2
  {
    RecsNames(objects, recs);
    StrippedResolves(recs, Elements(round));
    if UniqueTables(objects) {
      StrippedUnique(objects, modified, Elements(round), made);
    }
    out, plan, more := Sort(modified, Strip(recs, Elements(round)));
    assert !out.Sorted? || UniqueTables(objects) ==> ConstraintsUnchanged(Tables(objects));
    if out.Sorted? {
      ListedThroughCopies(objects, modified, Elements(round), made, plan.order, out.objects, more);
      plan := RestoreKeys(objects, recs, round, modified, made, plan, out.objects, more, deferred);
    } else {
      KeepsInput(objects, recs);
      out, plan, more := KeepInput(objects, recs, round, made);
    }
  }

  /** The input, in its own order. */
  method KeepInput(objects: seq<IRObject>, ghost recs: seq<ObjRec>, ghost round: seq<nat>, ghost made: set<Table>)
    returns (out: Outcome, ghost plan: Plan, ghost more: set<Table>)
    requires recs == Recs(objects) && DeferrableCycle(recs, round) && UndeferrableCycle(Strip(recs, Elements(round)))
    ensures out.Sorted? && plan.cycles != [] &&
      OrderedBy(recs, plan) && plan.result == Recs(out.objects) && ConservedBy(recs, plan)
    ensures ListsInOrder(objects, plan.order, out.objects, made + more) && more == {}
  {
    out, more := Sorted(objects), {};
    plan := Plan(Identity(|recs|), [round] + [], Strip(recs, Elements(round)), true, recs);
    FallsBackInOrder(recs, round, plan);
    InputConserved(recs, plan);
    InputListed(objects, made + more);
  }

  lemma StrippedResolves(recs: seq<ObjRec>, cycle: set<nat>)
    requires !AnyUnresolved(recs)
    ensures Residual(recs, Strip(recs, cycle)) && !AnyUnresolved(Strip(recs, cycle))
  {
    ResidualStrip(recs, cycle);
    ResidualResolved(recs, Strip(recs, cycle));
  }

  lemma RecsNames(objects: seq<IRObject>, recs: seq<ObjRec>)
    requires recs == Recs(objects)
    ensures NamesAgree(objects, recs)
  {
  }

  /** Tables that a failed run could not change leave the contents as they were. */
  twostate lemma KeepsInput(objects: seq<IRObject>, new recs: seq<ObjRec>)
    requires recs == old(Recs(objects))
    requires forall t :: t in Tables(objects) ==> t.constraints == old(t.constraints)
    ensures Recs(objects) == recs
  {
    forall i | 0 <= i < |objects| ensures RecOf(objects[i]) == recs[i] {
      assert objects[i].TableObject? ==> objects[i].table in Tables(objects);
    }
  }

  lemma InputConserved(recs: seq<ObjRec>, plan: Plan)
    requires plan.order == Identity(|recs|) && plan.fellBack && plan.result == recs
    ensures ConservedBy(recs, plan)
  {
    ConservedSelf(recs, Identity(|recs|), recs);
  }

  lemma InputListed(objects: seq<IRObject>, copies: set<Table>)
    ensures ListsInOrder(objects, Identity(|objects|), objects, copies)
  {
  }

  /** The plan when the input order is returned. */
  lemma FallsBackInOrder(recs: seq<ObjRec>, round: seq<nat>, plan: Plan)
    requires DeferrableCycle(recs, round) && UndeferrableCycle(Strip(recs, Elements(round)))
    requires plan == Plan(Identity(|recs|), [round] + [], Strip(recs, Elements(round)), true, recs)
    ensures OrderedBy(recs, plan)
  {
    NoRounds(Strip(recs, Elements(round)));
    FirstRound(recs, round, []);
  }

  lemma StrippedTables(objects: seq<IRObject>, modified: seq<IRObject>, cycle: set<nat>, copies: set<Table>)
    requires |modified| == |objects| && StrippedCopy(objects, modified, cycle, copies)
    ensures Tables(modified) <= Tables(objects) + copies
  {
    forall i | 0 <= i < |modified| && modified[i].TableObject? ensures modified[i].table in Tables(objects) + copies {
      assert StripsTo(objects[i], modified[i], i in cycle, copies);
    }
  }

  lemma ListedThroughCopies(objects: seq<IRObject>, modified: seq<IRObject>, cycle: set<nat>, copies: set<Table>,
                            order: seq<nat>, result: seq<IRObject>, more: set<Table>)
    requires |modified| == |objects| && StrippedCopy(objects, modified, cycle, copies)
    requires ListsInOrder(modified, order, result, more)
    ensures ListsInOrder(objects, order, result, copies + more)
    ensures Tables(result) <= Tables(objects) + copies + more
  {
    forall k | 0 <= k < |order| ensures SameOrCopy(objects[order[k]], result[k], copies + more) {
      assert SameOrCopy(modified[order[k]], result[k], more);
      assert StripsTo(objects[order[k]], modified[order[k]], order[k] in cycle, copies);
    }
    forall k | 0 <= k < |result| && result[k].TableObject? ensures result[k].table in Tables(objects) + copies + more {
      assert SameOrCopy(objects[order[k]], result[k], copies + more);
    }
  }

  /** Re-attaches the deferred keys. Tables of the caller are never the ones to get them. */
  method RestoreKeys(ghost objects: seq<IRObject>, ghost recs: seq<ObjRec>, ghost round: seq<nat>,
                     ghost modified: seq<IRObject>, ghost made: set<Table>, ghost inner: Plan,
                     resorted: seq<IRObject>, ghost more: set<Table>, deferred: seq<DeferredKey>)
    returns (ghost plan: Plan)
    requires |recs| == |objects| && NamesAgree(objects, recs) && DeferrableCycle(recs, round)
    requires |modified| == |objects| &&
      StrippedCopy(objects, modified, Elements(round), made) && made !! Tables(objects)
    requires ListsInOrder(modified, inner.order, resorted, more) && more !! Tables(objects)
    requires deferred == DeferredFrom(recs, IndexOf(recs), Elements(round), |recs|)
    requires OrderedBy(Strip(recs, Elements(round)), inner) && inner.result == Recs(resorted)
    requires UniqueTables(modified) ==> ConservedBy(Strip(recs, Elements(round)), inner)
    modifies Tables(resorted)
    ensures plan.order == inner.order && plan.cycles != [] && OrderedBy(recs, plan) && plan.result == Recs(resorted)
    ensures UniqueTables(objects) ==> ConservedBy(recs, plan)
    ensures UniqueTables(objects) ==> ConstraintsUnchanged(Tables(objects))
  {
    if UniqueTables(objects) {
      StrippedUnique(objects, modified, Elements(round), made);
      UniqueListed(modified, inner.order, resorted, more);
    }
    Reattach(resorted, deferred);
    plan := inner.(result := Recs(resorted), cycles := [round] + inner.cycles);
    RestoredOrder(recs, round, inner, plan);
    if UniqueTables(objects) {
      UniqueNamesInRecs(objects, recs);
      RestoredConserved(recs, round, inner, deferred, plan);
      CallersGetNone(objects, recs, Elements(round), modified, made, inner.order, resorted, more, deferred);
      forall t | t in Tables(objects) ensures t.constraints == old(t.constraints) {
        if t in Tables(resorted) {
          var k :| 0 <= k < |resorted| && resorted[k].TableObject? && resorted[k].table == t;
          assert GetsNone(objects, resorted[k], deferred);
          assert RecOf(resorted[k]) == AttachOne(deferred, inner.result[k]);
        }
      }
    }
  }

  lemma RestoredOrder(recs: seq<ObjRec>, round: seq<nat>, inner: Plan, plan: Plan)
    requires DeferrableCycle(recs, round) && OrderedBy(Strip(recs, Elements(round)), inner)
    requires plan == inner.(result := plan.result, cycles := [round] + inner.cycles)
    ensures OrderedBy(recs, plan) && plan.cycles != []
  {
    FirstRound(recs, round, inner.cycles);
  }

  lemma RestoredConserved(recs: seq<ObjRec>, round: seq<nat>, inner: Plan, deferred: seq<DeferredKey>, plan: Plan)
    requires UniqueTableRecs(recs) && ConservedBy(Strip(recs, Elements(round)), inner)
    requires deferred == DeferredFrom(recs, IndexOf(recs), Elements(round), |recs|)
    requires plan == inner.(result := Attach(inner.result, deferred), cycles := plan.cycles)
    ensures ConservedBy(recs, plan)
  {
    ReattachConserves(recs, Elements(round), inner.order, inner.result);
    if !inner.fellBack {
      AttachKeepsStart(inner.residual, inner.order, inner.result, deferred);
    }
  }

  lemma UniqueListed(objects: seq<IRObject>, order: seq<nat>, result: seq<IRObject>, copies: set<Table>)
    requires UniqueTables(objects) && Distinct(order) && ListsInOrder(objects, order, result, copies)
    ensures UniqueTables(result)
  {
    forall k | 0 <= k < |order| ensures SameIdentity(objects[order[k]], result[k]) {
      assert SameOrCopy(objects[order[k]], result[k], copies);
    }
    UniqueListing(objects, order, result);
  }

  lemma StrippedUnique(objects: seq<IRObject>, modified: seq<IRObject>, cycle: set<nat>, copies: set<Table>)
    requires UniqueTables(objects) && |modified| == |objects| && StrippedCopy(objects, modified, cycle, copies)
    ensures UniqueTables(modified)
  {
    forall k | 0 <= k < |objects| ensures SameIdentity(objects[Identity(|objects|)[k]], modified[k]) {
      assert StripsTo(objects[k], modified[k], k in cycle, copies);
    }
    UniqueListing(objects, Identity(|objects|), modified);
  }

  /** A table of the caller's with nothing to be attached to it, or no such table. */
  ghost predicate GetsNone(objects: seq<IRObject>, o: IRObject, deferred: seq<DeferredKey>) {
    o.TableObject? && o.table in Tables(objects) ==> AttachedTo(deferred, o.table.schema, o.table.name) == []
  }

  lemma CallersGetNone(objects: seq<IRObject>, recs: seq<ObjRec>, cycle: set<nat>,
                       modified: seq<IRObject>, copies: set<Table>,
                       order: seq<nat>, result: seq<IRObject>, more: set<Table>, deferred: seq<DeferredKey>)
    requires NamesAgree(objects, recs) && UniqueTableRecs(recs)
    requires |modified| == |objects| && StrippedCopy(objects, modified, cycle, copies) && copies !! Tables(objects)
    requires ListsInOrder(modified, order, result, more) && more !! Tables(objects)
    requires deferred == DeferredFrom(recs, IndexOf(recs), cycle, |recs|)
    ensures forall k {:trigger GetsNone(objects, result[k], deferred)} :: 0 <= k < |result| ==>
      GetsNone(objects, result[k], deferred)
  {
    forall k | 0 <= k < |result| ensures GetsNone(objects, result[k], deferred) {
      assert SameOrCopy(modified[order[k]], result[k], more);
      if result[k].TableObject? && result[k].table in Tables(objects) {
        CallersGetNothing(objects, recs, cycle, modified, copies, order[k], result[k], more, deferred);
      }
    }
  }

  /** A table of the caller that is still listed was not stripped, so no
      deferred key bears its name. */
  lemma CallersGetNothing(objects: seq<IRObject>, recs: seq<ObjRec>, cycle: set<nat>,
                          modified: seq<IRObject>, copies: set<Table>,
                          i: nat, o: IRObject, more: set<Table>, deferred: seq<DeferredKey>)
    requires NamesAgree(objects, recs) && UniqueTableRecs(recs)
    requires |modified| == |objects| && StrippedCopy(objects, modified, cycle, copies) && copies !! Tables(objects)
    requires i < |objects| && SameOrCopy(modified[i], o, more) && more !! Tables(objects)
    requires deferred == DeferredFrom(recs, IndexOf(recs), cycle, |recs|)
    requires o.TableObject? && o.table in Tables(objects)
    ensures AttachedTo(deferred, o.table.schema, o.table.name) == []
  {
    assert o == modified[i];
    assert StripsTo(objects[i], modified[i], i in cycle, copies);
    assert i !in cycle && objects[i] == o;
    GetsOwnBack(recs, IndexOf(recs), cycle, i);
  }

  ghost predicate NamesAgree(objects: seq<IRObject>, recs: seq<ObjRec>) {
    && |recs| == |objects|
    && forall i :: 0 <= i < |objects| ==>
         if objects[i].TableObject?
         then recs[i].TableRec? && recs[i].schema == objects[i].table.schema && recs[i].name == objects[i].table.name
         else !recs[i].TableRec?
  }

  lemma KeysWereDeferred(recs: seq<ObjRec>, cycle: set<nat>)
    requires CanDefer(recs, cycle)
    ensures DeferredFrom(recs, IndexOf(recs), cycle, |recs|) != []
    ensures DeferrableCount(Strip(recs, cycle)) < DeferrableCount(recs)
  {
    DeferralMakesProgress(recs, cycle);
    var i :| i in cycle && i < |recs| &&
      recs[i].TableRec? && MovedConstraints(IndexOf(recs), cycle, recs[i].constraints) != [];
    SomethingDeferred(recs, IndexOf(recs), cycle, i);
  }

  lemma UniqueNamesInRecs(objects: seq<IRObject>, recs: seq<ObjRec>)
    requires UniqueTables(objects) && NamesAgree(objects, recs)
    ensures UniqueTableRecs(recs)
  {
    forall i, j | 0 <= i < j < |recs| && recs[i].TableRec? && recs[j].TableRec?
      ensures !(recs[i].schema == recs[j].schema && recs[i].name == recs[j].name)
    {
      UniqueNames(objects, i, j);
    }
  }

  /** Listing objects of unique names in some order keeps the names unique. */
  lemma UniqueListing(objects: seq<IRObject>, order: seq<nat>, result: seq<IRObject>)
    requires UniqueTables(objects) && Distinct(order) && InRange(order, |objects|) && |result| == |order|
    requires forall k :: 0 <= k < |order| ==> SameIdentity(objects[order[k]], result[k])
    ensures UniqueTables(result)
  {
    forall i, j | 0 <= i < j < |result| && result[i].TableObject? && result[j].TableObject?
      ensures !Namesakes(result[i], result[j])
    {
      assert SameIdentity(objects[order[i]], result[i]) && SameIdentity(objects[order[j]], result[j]);
      UniqueNames(objects, order[i], order[j]);
    }
  }
}
