/** What the resolver's outcome means for a reader of the sorted list, and which
    inputs are refused. */
module ResolverGuarantees {
  import opened Text
  import opened Digraph
  import opened ForeignKeyText
  import opened Dependencies
  import opened DeferralRounds
  import opened Resolver

  // ----- the order

  /** The constraint, on the i-th object, is a foreign key to the j-th. */
  ghost predicate KeyTo(objs: seq<ObjRec>, i: nat, c: Constraint, j: nat)
    requires i < |objs|
  {
    && objs[i].TableRec? && c in objs[i].constraints
    && var target := ForeignKeyTarget(IndexOf(objs).Keys, c, objs[i].schema);
       target.Some? && target.value in IndexOf(objs) && IndexOf(objs)[target.value] == j
  }

  lemma KeyIsEdge(objs: seq<ObjRec>, i: nat, c: Constraint, j: nat)
    requires i < |objs| && KeyTo(objs, i, c, j) && i != j
    ensures j < |objs| && i in EdgesOf(objs)[j]
  {
    var keys, cs := IndexOf(objs).Keys, objs[i].constraints;
    var k :| 0 <= k < |cs| && cs[k] == c;
    assert ForeignKeyTarget(keys, cs[k], objs[i].schema).value in ForeignKeyKeys(keys, cs, objs[i].schema);
    EdgeAt(objs, j, i);
  }

  lemma FixedIsEdge(objs: seq<ObjRec>, i: nat, j: nat)
    requires i < |objs| && j in Positions(IndexOf(objs), FixedKeys(IndexOf(objs).Keys, objs[i])) && i != j
    ensures j < |objs| && i in EdgesOf(objs)[j]
  {
    PositionsSplit(IndexOf(objs), IndexOf(objs).Keys, objs[i]);
    EdgeAt(objs, j, i);
  }

  /** Schemas, column types, parents and every other reference that is not a
      foreign key are never given up. */
  lemma FixedDependenciesComeFirst(recs: seq<ObjRec>, plan: Plan, a: nat, b: nat)
    requires OrderedBy(recs, plan) && !plan.fellBack
    requires a < |plan.order| && b < |plan.order| && plan.order[a] != plan.order[b]
    requires plan.order[a] in Positions(IndexOf(recs), FixedKeys(IndexOf(recs).Keys, recs[plan.order[b]]))
    ensures a < b
  {
    RoundsLeaveResidual(recs, plan.cycles);
    SameShapeSameIndex(recs, plan.residual);
    assert SameButConstraints(recs[plan.order[b]], plan.residual[plan.order[b]]);
    FixedIsEdge(plan.residual, plan.order[b], plan.order[a]);
  }

  /** The target of a foreign key comes before its table, whatever the rounds of
      deferral took off, unless the key is itself deferrable and closed a cycle
      that a round broke. */
  lemma KeptTargetsComeFirst(recs: seq<ObjRec>, plan: Plan, a: nat, b: nat, c: Constraint)
    requires OrderedBy(recs, plan) && !plan.fellBack
    requires a < |plan.order| && b < |plan.order| && plan.order[a] != plan.order[b]
    requires KeyTo(recs, plan.order[b], c, plan.order[a]) && !ClosesRound(recs, plan.cycles, plan.order[b], c)
    ensures a < b
  {
    RoundsLeaveResidual(recs, plan.cycles);
    SameShapeSameIndex(recs, plan.residual);
    MissingClosedRound(recs, plan.cycles, plan.order[b], c);
    assert SameButConstraints(recs[plan.order[b]], plan.residual[plan.order[b]]);
    KeyIsEdge(plan.residual, plan.order[b], c, plan.order[a]);
  }

  /** So do the targets of all foreign keys that are not deferrable. */
  lemma NonDeferrableTargetsComeFirst(recs: seq<ObjRec>, plan: Plan, a: nat, b: nat, c: Constraint)
    requires OrderedBy(recs, plan) && !plan.fellBack
    requires a < |plan.order| && b < |plan.order| && plan.order[a] != plan.order[b]
    requires KeyTo(recs, plan.order[b], c, plan.order[a]) && !c.deferrable
    ensures a < b
  {
    KeptTargetsComeFirst(recs, plan, a, b, c);
  }

  /** j is a target of i's foreign keys alone, and each of these was deferred. */
  ghost predicate OnlyThroughDeferred(objs: seq<ObjRec>, cycles: seq<seq<nat>>, j: nat, i: nat)
    requires i < |objs|
  {
    && j !in Positions(IndexOf(objs), FixedKeys(IndexOf(objs).Keys, objs[i]))
    && forall c {:trigger KeyTo(objs, i, c, j)} :: KeyTo(objs, i, c, j) ==> ClosesRound(objs, cycles, i, c)
  }

  /** Without the fallback, an object comes after everything it depends on,
      unless the dependency exists only through foreign keys that were deferred. */
  lemma DependenciesComeFirst(recs: seq<ObjRec>, plan: Plan, a: nat, b: nat)
    requires OrderedBy(recs, plan) && !plan.fellBack
    requires a < |plan.order| && b < |plan.order| && plan.order[a] != plan.order[b]
    requires plan.order[a] in DependsOn(recs, plan.order[b])
    ensures a < b || OnlyThroughDeferred(recs, plan.cycles, plan.order[a], plan.order[b])
  {
    if !OnlyThroughDeferred(recs, plan.cycles, plan.order[a], plan.order[b]) {
      if plan.order[a] in Positions(IndexOf(recs), FixedKeys(IndexOf(recs).Keys, recs[plan.order[b]])) {
        FixedDependenciesComeFirst(recs, plan, a, b);
      } else {
        var c :| KeyTo(recs, plan.order[b], c, plan.order[a]) && !ClosesRound(recs, plan.cycles, plan.order[b], c);
        KeptTargetsComeFirst(recs, plan, a, b, c);
      }
    }
  }

  /** The fallback is taken exactly when no order at all could put every
      remaining dependency first. */
  lemma FallbackIffUnorderable(recs: seq<ObjRec>, plan: Plan)
    requires OrderedBy(recs, plan)
    ensures plan.fellBack <==> forall order :: IsOrder(order, |recs|) ==> !Respects(EdgesOf(plan.residual), order)
  {
    RoundsLeaveResidual(recs, plan.cycles);
    forall order | IsOrder(order, |recs|) && Respects(EdgesOf(plan.residual), order) ensures !plan.fellBack {
      OrderedIsAcyclic(EdgesOf(plan.residual), order);
    }
    assert !plan.fellBack ==> IsOrder(plan.order, |recs|) && Respects(EdgesOf(plan.residual), plan.order);
  }

  // ----- which inputs are sorted and which are refused

  /** If no cycle may be deferred, a cyclic input is refused. */
  lemma NothingDeferrableIsRefused(recs: seq<ObjRec>, out: Outcome, plan: Plan)
    requires Decided(recs, out, plan) && !AnyUnresolved(recs)
    requires forall cycle: seq<nat> :: !DeferrableCycle(recs, cycle)
    ensures out.CircularDependency? <==> !Acyclic(EdgesOf(recs))
  {
    assert plan.cycles != [] ==> !DeferrableCycle(recs, plan.cycles[0]);
  }

  /** If every cycle may be deferred, the input is sorted. */
  lemma AllDeferrableIsSorted(recs: seq<ObjRec>, out: Outcome, plan: Plan)
    requires Decided(recs, out, plan) && !AnyUnresolved(recs) && !UndeferrableCycle(recs)
    ensures out.Sorted?
  {
  }

  /** No foreign key is written as the index spells any object. */
  ghost predicate NoneSpelled(objs: seq<ObjRec>) {
    forall i {:trigger objs[i]} :: 0 <= i < |objs| && objs[i].TableRec? ==>
      forall c :: c in objs[i].constraints && c.IsForeignKey() ==> ExtractRef(c.expr) !in IndexOf(objs)
  }

  /** Then deferrability does not matter: every cycle is refused. */
  lemma UnspelledIsRefused(recs: seq<ObjRec>, out: Outcome, plan: Plan)
    requires Decided(recs, out, plan) && !AnyUnresolved(recs) && NoneSpelled(recs)
    ensures out.CircularDependency? <==> !Acyclic(EdgesOf(recs))
  {
    forall cycle: seq<nat> ensures !DeferrableCycle(recs, cycle) {
      forall i | i in Elements(cycle) && i < |recs| ensures !Offers(IndexOf(recs), Elements(cycle), recs[i]) {
        assert recs[i].TableRec? ==>
          forall c :: c in recs[i].constraints && c.IsForeignKey() ==> ExtractRef(c.expr) !in IndexOf(recs);
      }
    }
    NothingDeferrableIsRefused(recs, out, plan);
  }

  // ----- an unqualified cycle that is not deferred

  /** The text of a deferrable key to a table named without its schema. */
  function BareKey(target: string): string {
    KeyText("\"id\"", "", target, " DEFERRABLE")
  }

  lemma UnqualifiedTarget(table: string)
    requires Readable("", table) && table != ""
    ensures ExtractRefParts(BareKey(table)) == ("", table) && ExtractRef(BareKey(table)) == table
  {
    KeyReadsIff("\"id\"", "", table, " DEFERRABLE");
  }

  function ReferringTable(name: string, target: string): ObjRec {
    TableRec("s", name, [], [], {}, [Constraint("", "FOREIGN KEY", BareKey(target), true)])
  }

  /** Two tables of one schema that refer to each other by bare name through
      deferrable keys: no reference is unresolved, and yet they are refused. */
  lemma UnqualifiedCycleIsRefused(out: Outcome, plan: Plan)
    requires Decided([ReferringTable("a", "b"), ReferringTable("b", "a")], out, plan)
    ensures out.CircularDependency?
  {
    UnqualifiedEdges();
    UnqualifiedUnspelled();
    UnspelledIsRefused([ReferringTable("a", "b"), ReferringTable("b", "a")], out, plan);
  }

  lemma UnqualifiedUnspelled()
    ensures NoneSpelled([ReferringTable("a", "b"), ReferringTable("b", "a")])
  {
    UnqualifiedIndex();
    UnqualifiedTarget("a");
    UnqualifiedTarget("b");
  }

  lemma UnqualifiedEdges()
    ensures
      var objs := [ReferringTable("a", "b"), ReferringTable("b", "a")];
      IsCycle(EdgesOf(objs), [0, 1]) && !AnyUnresolved(objs)
  {
    var objs := [ReferringTable("a", "b"), ReferringTable("b", "a")];
    UnqualifiedIndex();
    BareTarget(objs, 0, "b", 1);
    BareTarget(objs, 1, "a", 0);
    EdgeAt(objs, 0, 1);
    EdgeAt(objs, 1, 0);
  }

  lemma UnqualifiedIndex()
    ensures IndexOf([ReferringTable("a", "b"), ReferringTable("b", "a")]) == map["s." + "a" := 0, "s." + "b" := 1]
    ensures "s." + "a" != "s." + "b"
    ensures "a" !in IndexOf([ReferringTable("a", "b"), ReferringTable("b", "a")])
    ensures "b" !in IndexOf([ReferringTable("a", "b"), ReferringTable("b", "a")])
  {
    TwoTableIndex(ReferringTable("a", "b"), ReferringTable("b", "a"));
    assert QualName("s", "a") == "s." + "a" && QualName("s", "b") == "s." + "b";
    assert "s." + "a" != "s." + "b" by {
      assert ("s." + "a")[2] == 'a' && ("s." + "b")[2] == 'b';
    }
    assert |"s." + "a"| == 3 && |"s." + "b"| == 3;
  }

  lemma TwoTableIndex(a: ObjRec, b: ObjRec)
    ensures IndexOf([a, b]) == map[QualifiedName(a) := 0, QualifiedName(b) := 1]
  {
    assert [a, b][..1] == [a];
    assert [a][..0] == [];
  }

  lemma BareTarget(objs: seq<ObjRec>, i: nat, target: string, j: nat)
    requires i < |objs| && j < |objs| && objs[i].TableRec? && objs[i].schema == "s"
    requires objs[i].constraints == [Constraint("", "FOREIGN KEY", BareKey(target), true)]
    requires Readable("", target) && target != ""
    requires target !in IndexOf(objs) && "s." + target in IndexOf(objs) && IndexOf(objs)["s." + target] == j
    ensures j in DependsOn(objs, i)
    ensures forall schemas :: !ForeignKeyUnresolved(IndexOf(objs).Keys, schemas, objs[i].constraints[0], "s")
  {
    var keys := IndexOf(objs).Keys;
    UnqualifiedTarget(target);
    assert "s" + "." == "s.";
    assert "s." + target in keys;
    assert ForeignKeyTarget(keys, objs[i].constraints[0], "s") == Some("s." + target);
    assert "s." + target in ForeignKeyKeys(keys, objs[i].constraints, "s");
  }
}
