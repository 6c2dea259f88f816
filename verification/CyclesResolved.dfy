/** Which cycles deferral resolves: exactly those that need a key which is never taken off. */
module CyclesResolved {
  import opened Text
  import opened Digraph
  import opened ForeignKeyText
  import opened Dependencies
  import opened DeferralRounds
  import opened Resolver
  import opened ResolverGuarantees

  // ----- keys that deferral never takes off

  /** A foreign key that is not deferrable, or whose target only the table's own schema explains. */
  predicate Stuck(idx: map<string, nat>, ownSchema: string, c: Constraint) {
    c.IsForeignKey() && (!c.deferrable || BareInOwnSchema(idx, c, ownSchema))
  }

  function StuckIn(idx: map<string, nat>, ownSchema: string, cs: seq<Constraint>): seq<Constraint> {
    if cs == [] then []
    else StuckIn(idx, ownSchema, cs[..|cs| - 1]) + if Stuck(idx, ownSchema, cs[|cs| - 1]) then [cs[|cs| - 1]] else []
  }

  function StuckOne(idx: map<string, nat>, o: ObjRec): ObjRec {
    if o.TableRec? then o.(constraints := StuckIn(idx, o.schema, o.constraints)) else o
  }

  /** The objects with no other constraints than those keys. */
  function OnlyStuck(objs: seq<ObjRec>): (r: seq<ObjRec>)
    ensures |r| == |objs| && forall i :: 0 <= i < |objs| ==> r[i] == StuckOne(IndexOf(objs), objs[i])
  {
    seq(|objs|, i requires 0 <= i < |objs| => StuckOne(IndexOf(objs), objs[i]))
  }

  lemma {:induction false} StuckMembers(idx: map<string, nat>, ownSchema: string, cs: seq<Constraint>)
    ensures forall c :: c in StuckIn(idx, ownSchema, cs) <==> c in cs && Stuck(idx, ownSchema, c)
  {
    if cs != [] {
      StuckMembers(idx, ownSchema, cs[..|cs| - 1]);
      assert cs == cs[..|cs| - 1] + [cs[|cs| - 1]];
    }
  }

  lemma DeferredIsNotStuck(idx: map<string, nat>, cycle: set<nat>, ownSchema: string, c: Constraint)
    requires Deferred(idx, cycle, c)
    ensures !Stuck(idx, ownSchema, c)
  {
  }

  lemma {:induction false} KeptStuck(idx: map<string, nat>, cycle: set<nat>, ownSchema: string, cs: seq<Constraint>)
    ensures StuckIn(idx, ownSchema, KeptConstraints(idx, cycle, cs)) == StuckIn(idx, ownSchema, cs)
  {
    if cs != [] {
      var front, last := cs[..|cs| - 1], cs[|cs| - 1];
      KeptStuck(idx, cycle, ownSchema, front);
      var kept := KeptConstraints(idx, cycle, front);
      if Deferred(idx, cycle, last) {
        DeferredIsNotStuck(idx, cycle, ownSchema, last);
        OnEmpty(kept);
      } else {
        assert (kept + [last])[..|kept|] == kept;
      }
    }
  }

  lemma StripKeepsStuck(objs: seq<ObjRec>, cycle: set<nat>)
    ensures OnlyStuck(Strip(objs, cycle)) == OnlyStuck(objs)
  {
    ResidualStrip(objs, cycle);
    SameShapeSameIndex(objs, Strip(objs, cycle));
    forall i | 0 <= i < |objs| ensures OnlyStuck(Strip(objs, cycle))[i] == OnlyStuck(objs)[i] {
      if objs[i].TableRec? {
        KeptStuck(IndexOf(objs), cycle, objs[i].schema, objs[i].constraints);
      }
    }
  }

  /** No round changes them. */
  lemma {:induction false} RoundsKeepStuck(objs: seq<ObjRec>, cycles: seq<seq<nat>>)
    ensures OnlyStuck(AfterRounds(objs, cycles)) == OnlyStuck(objs)
    decreases |cycles|
  {
    if cycles != [] {
      StripKeepsStuck(objs, Elements(cycles[0]));
      RoundsKeepStuck(Strip(objs, Elements(cycles[0])), cycles[1..]);
    }
  }

  // ----- their edges

  lemma StuckShape(objs: seq<ObjRec>)
    ensures SameShape(objs, OnlyStuck(objs)) && IndexOf(OnlyStuck(objs)) == IndexOf(objs)
  {
    SameShapeSameIndex(objs, OnlyStuck(objs));
  }

  lemma StuckKeyIsKey(objs: seq<ObjRec>, i: nat, c: Constraint, j: nat)
    requires i < |objs|
    ensures KeyTo(OnlyStuck(objs), i, c, j) <==>
      KeyTo(objs, i, c, j) && Stuck(IndexOf(objs), objs[i].schema, c)
  {
    StuckShape(objs);
    if objs[i].TableRec? {
      StuckMembers(IndexOf(objs), objs[i].schema, objs[i].constraints);
    }
  }

  /** An edge is due to a foreign key or to another reference. */
  lemma EdgeCause(objs: seq<ObjRec>, j: nat, i: nat) returns (c: Constraint)
    requires j < |objs| && i in EdgesOf(objs)[j]
    ensures i < |objs| && i != j
    ensures KeyTo(objs, i, c, j) || j in Positions(IndexOf(objs), FixedKeys(IndexOf(objs).Keys, objs[i]))
  {
    var idx := IndexOf(objs);
    EdgeAt(objs, j, i);
    PositionsSplit(idx, idx.Keys, objs[i]);
    c := Constraint("", "", "", false);
    if j !in Positions(idx, FixedKeys(idx.Keys, objs[i])) {
      var key :| key in ForeignKeyKeys(idx.Keys, objs[i].constraints, objs[i].schema) && key in idx && idx[key] == j;
      var k :| 0 <= k < |objs[i].constraints| &&
        ForeignKeyTarget(idx.Keys, objs[i].constraints[k], objs[i].schema) == Some(key);
      c := objs[i].constraints[k];
    }
  }

  lemma SameFixed(objs: seq<ObjRec>, i: nat)
    requires i < |objs|
    ensures FixedKeys(IndexOf(OnlyStuck(objs)).Keys, OnlyStuck(objs)[i]) == FixedKeys(IndexOf(objs).Keys, objs[i])
    ensures IndexOf(OnlyStuck(objs)) == IndexOf(objs)
  {
    StuckShape(objs);
  }

  lemma StuckHasFewerEdges(objs: seq<ObjRec>)
    ensures forall j :: 0 <= j < |objs| ==> EdgesOf(OnlyStuck(objs))[j] <= EdgesOf(objs)[j]
  {
    forall j: nat, i: nat | j < |objs| && i in EdgesOf(OnlyStuck(objs))[j] ensures i in EdgesOf(objs)[j] {
      var c := EdgeCause(OnlyStuck(objs), j, i);
      SameFixed(objs, i);
      if KeyTo(OnlyStuck(objs), i, c, j) {
        StuckKeyIsKey(objs, i, c, j);
        KeyIsEdge(objs, i, c, j);
      } else {
        FixedIsEdge(objs, i, j);
      }
    }
  }

  /** Every other edge is that of a deferrable key whose target is spelled as the index has it. */
  lemma EdgeThroughFreeKey(objs: seq<ObjRec>, j: nat, i: nat) returns (c: Constraint)
    requires j < |objs| && i in EdgesOf(objs)[j] && i !in EdgesOf(OnlyStuck(objs))[j]
    ensures i < |objs| && KeyTo(objs, i, c, j) && !Stuck(IndexOf(objs), objs[i].schema, c)
  {
    c := EdgeCause(objs, j, i);
    SameFixed(objs, i);
    if j in Positions(IndexOf(objs), FixedKeys(IndexOf(objs).Keys, objs[i])) {
      FixedIsEdge(OnlyStuck(objs), i, j);
      assert false;
    }
    if Stuck(IndexOf(objs), objs[i].schema, c) {
      StuckKeyIsKey(objs, i, c, j);
      KeyIsEdge(OnlyStuck(objs), i, c, j);
      assert false;
    }
  }

  /** A cycle of one graph that is none of another has an edge that the other lacks. */
  lemma CycleLeaves(g: Edges, h: Edges, cycle: seq<nat>) returns (j: nat, i: nat)
    requires |g| == |h| && IsCycle(g, cycle) && !IsCycle(h, cycle)
    ensures j in cycle && i in cycle && j < |g| && i in g[j] && i !in h[j]
  {
    var n := |cycle|;
    if cycle[0] !in h[cycle[n - 1]] {
      return cycle[n - 1], cycle[0];
    }
    assert !IsWalk(h, cycle);
    var k :| 0 <= k < n - 1 && cycle[k + 1] !in h[cycle[k]];
    return cycle[k], cycle[k + 1];
  }

  lemma FreeKeyOffers(objs: seq<ObjRec>, j: nat, i: nat, cycle: set<nat>)
    requires j < |objs| && i in EdgesOf(objs)[j] && i !in EdgesOf(OnlyStuck(objs))[j] && j in cycle
    ensures i < |objs| && Offers(IndexOf(objs), cycle, objs[i])
  {
    var c := EdgeThroughFreeKey(objs, j, i);
    FreeKeyIsDeferred(objs, i, c, j, cycle);
  }

  /** So a cycle that they do not close by themselves offers a key to be deferred. */
  lemma CycleOffers(objs: seq<ObjRec>, cycle: seq<nat>) returns (i: nat)
    requires IsCycle(EdgesOf(objs), cycle) && Acyclic(EdgesOf(OnlyStuck(objs)))
    ensures i in Elements(cycle) && i < |objs| && Offers(IndexOf(objs), Elements(cycle), objs[i])
  {
    var j;
    j, i := CycleLeaves(EdgesOf(objs), EdgesOf(OnlyStuck(objs)), cycle);
    FreeKeyOffers(objs, j, i, Elements(cycle));
  }

  lemma FreeKeyIsDeferred(objs: seq<ObjRec>, i: nat, c: Constraint, j: nat, cycle: set<nat>)
    requires i < |objs| && KeyTo(objs, i, c, j) && !Stuck(IndexOf(objs), objs[i].schema, c) && j in cycle
    ensures Deferred(IndexOf(objs), cycle, c)
  {
    DeferralLookupAgrees(IndexOf(objs), c, objs[i].schema);
  }

  // ----- what is resolved

  /** No key that is not deferrable is written, as the index spells its target,
      between two objects of a cycle. */
  ghost predicate NoneRefuses(objs: seq<ObjRec>) {
    forall cycle: seq<nat>, i: nat {:trigger Refuses(IndexOf(objs), Elements(cycle), objs[i])} ::
      IsCycle(EdgesOf(objs), cycle) && Distinct(cycle) && i in cycle && i < |objs| ==>
        !Refuses(IndexOf(objs), Elements(cycle), objs[i])
  }

  lemma EveryCycleDefers(objs: seq<ObjRec>)
    requires NoneRefuses(objs) && Acyclic(EdgesOf(OnlyStuck(objs)))
    ensures !UndeferrableCycle(objs)
  {
    forall cycle: seq<nat> | IsCycle(EdgesOf(objs), cycle) && Distinct(cycle) ensures CanDefer(objs, Elements(cycle)) {
      var _ := CycleOffers(objs, cycle);
      forall i | i in Elements(cycle) && i < |objs| ensures !Refuses(IndexOf(objs), Elements(cycle), objs[i]) {
        assert i in cycle;
      }
    }
  }

  lemma ResidualHasFewerEdges(objs: seq<ObjRec>, residual: seq<ObjRec>)
    requires Residual(objs, residual)
    ensures |residual| == |objs| && forall j :: 0 <= j < |objs| ==> EdgesOf(residual)[j] <= EdgesOf(objs)[j]
  {
    SameShapeSameIndex(objs, residual);
    forall j: nat, i: nat | j < |objs| && i in EdgesOf(residual)[j] ensures i in EdgesOf(objs)[j] {
      var c := EdgeCause(residual, j, i);
      assert SameButConstraints(objs[i], residual[i]);
      if KeyTo(residual, i, c, j) {
        SubsequenceMembers(residual[i].constraints, objs[i].constraints);
        KeyIsEdge(objs, i, c, j);
      } else {
        FixedIsEdge(objs, i, j);
      }
    }
  }

  lemma RoundsRefuseNone(objs: seq<ObjRec>, residual: seq<ObjRec>)
    requires Residual(objs, residual) && NoneRefuses(objs)
    ensures NoneRefuses(residual)
  {
    ResidualHasFewerEdges(objs, residual);
    SameShapeSameIndex(objs, residual);
    forall cycle: seq<nat>, i: nat |
      IsCycle(EdgesOf(residual), cycle) && Distinct(cycle) && i in cycle && i < |residual|
      ensures !Refuses(IndexOf(residual), Elements(cycle), residual[i])
    {
      assert IsCycle(EdgesOf(objs), cycle);
      assert !Refuses(IndexOf(objs), Elements(cycle), objs[i]) && SameButConstraints(objs[i], residual[i]);
      if residual[i].TableRec? {
        SubsequenceMembers(residual[i].constraints, objs[i].constraints);
      }
    }
  }

  /** Whatever the input, a cycle that the keys never taken off close, with the
      other references, is never resolved. */
  lemma StuckCycleIsNotResolved(recs: seq<ObjRec>, out: Outcome, plan: Plan)
    requires Decided(recs, out, plan) && !Acyclic(EdgesOf(OnlyStuck(recs)))
    ensures !out.Sorted? || plan.fellBack
  {
    if out.Sorted? && !plan.fellBack {
      RoundsLeaveResidual(recs, plan.cycles);
      RoundsKeepStuck(recs, plan.cycles);
      OrderedIsAcyclic(EdgesOf(plan.residual), plan.order);
      StuckHasFewerEdges(plan.residual);
      FewerEdgesKeepAcyclic(EdgesOf(OnlyStuck(plan.residual)), EdgesOf(plan.residual));
    }
  }

  /** When no cycle runs through a key that is not deferrable, that is the only
      obstacle: the input is sorted without the fallback if and only if its
      references resolve and the keys never taken off close no cycle. */
  lemma DeferrableCyclesResolveIff(recs: seq<ObjRec>, out: Outcome, plan: Plan)
    requires Decided(recs, out, plan) && NoneRefuses(recs)
    ensures out.Sorted? && !plan.fellBack <==> !AnyUnresolved(recs) && Acyclic(EdgesOf(OnlyStuck(recs)))
  {
    if !Acyclic(EdgesOf(OnlyStuck(recs))) {
      StuckCycleIsNotResolved(recs, out, plan);
    } else if !AnyUnresolved(recs) {
      EveryCycleDefers(recs);
      AllDeferrableIsSorted(recs, out, plan);
      var residual := AfterRounds(recs, plan.cycles);
      RoundsLeaveResidual(recs, plan.cycles);
      RoundsKeepStuck(recs, plan.cycles);
      RoundsRefuseNone(recs, residual);
      EveryCycleDefers(residual);
    }
  }

  ghost predicate AllDeferrable(objs: seq<ObjRec>) {
    forall i {:trigger objs[i]} :: 0 <= i < |objs| && objs[i].TableRec? ==>
      forall c :: c in objs[i].constraints && c.IsForeignKey() ==> c.deferrable
  }

  /** In particular when every foreign key is deferrable, however its target is written. */
  lemma AllDeferrableResolveIff(recs: seq<ObjRec>, out: Outcome, plan: Plan)
    requires Decided(recs, out, plan) && AllDeferrable(recs)
    ensures out.Sorted? && !plan.fellBack <==> !AnyUnresolved(recs) && Acyclic(EdgesOf(OnlyStuck(recs)))
  {
    assert NoneRefuses(recs) by {
      forall cycle: set<nat>, i | 0 <= i < |recs| ensures !Refuses(IndexOf(recs), cycle, recs[i]) {
        assert recs[i].TableRec? ==> forall c :: c in recs[i].constraints && c.IsForeignKey() ==> c.deferrable;
      }
    }
    DeferrableCyclesResolveIff(recs, out, plan);
  }

  // ----- when every target is spelled as the index has it

  ghost predicate AllSpelled(objs: seq<ObjRec>) {
    forall i {:trigger objs[i]} :: 0 <= i < |objs| && objs[i].TableRec? ==>
      forall c :: c in objs[i].constraints && c.IsForeignKey() ==> !BareInOwnSchema(IndexOf(objs), c, objs[i].schema)
  }

  /** The objects without any constraint, so that only the other references are left. */
  function Bare(objs: seq<ObjRec>): (r: seq<ObjRec>)
    ensures |r| == |objs|
  {
    seq(|objs|, i requires 0 <= i < |objs| => if objs[i].TableRec? then objs[i].(constraints := []) else objs[i])
  }

  lemma NothingStuck(objs: seq<ObjRec>)
    requires AllDeferrable(objs) && AllSpelled(objs)
    ensures OnlyStuck(objs) == Bare(objs)
  {
    forall i | 0 <= i < |objs| ensures OnlyStuck(objs)[i] == Bare(objs)[i] {
      if objs[i].TableRec? {
        StuckMembers(IndexOf(objs), objs[i].schema, objs[i].constraints);
        var stuck := StuckIn(IndexOf(objs), objs[i].schema, objs[i].constraints);
        assert stuck != [] ==> stuck[0] in stuck;
      }
    }
  }

  /** Then the promise is kept: only the other references can close a cycle. */
  lemma SpelledCyclesResolveIff(recs: seq<ObjRec>, out: Outcome, plan: Plan)
    requires Decided(recs, out, plan) && AllDeferrable(recs) && AllSpelled(recs)
    ensures out.Sorted? && !plan.fellBack <==> !AnyUnresolved(recs) && Acyclic(EdgesOf(Bare(recs)))
  {
    NothingStuck(recs);
    AllDeferrableResolveIff(recs, out, plan);
  }
}
