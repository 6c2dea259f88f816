/** What happens to the constraints that deferral takes off: they are put back at
    the end of the table of the same name, so that no table gains or loses one. */
module Deferral {
  import opened Digraph
  import opened Dependencies

  /** A foreign key taken off a table, with the name it is to be found under again. */
  datatype DeferredKey = DeferredKey(schema: string, name: string, fk: Constraint)

  function Tagged(schema: string, name: string, moved: seq<Constraint>): seq<DeferredKey> {
    if moved == [] then []
    else Tagged(schema, name, moved[..|moved| - 1]) + [DeferredKey(schema, name, moved[|moved| - 1])]
  }

  /** The keys deferred from the object at position i. */
  function DeferredAt(idx: map<string, nat>, cycle: set<nat>, i: nat, o: ObjRec): seq<DeferredKey> {
    if i in cycle && o.TableRec? then Tagged(o.schema, o.name, MovedConstraints(idx, cycle, o.constraints)) else []
  }

  function Chunks(recs: seq<ObjRec>, idx: map<string, nat>, cycle: set<nat>, upto: nat): (r: seq<seq<DeferredKey>>)
    requires upto <= |recs|
    ensures |r| == upto && forall j :: 0 <= j < upto ==> r[j] == DeferredAt(idx, cycle, j, recs[j])
  {
    seq(upto, j requires 0 <= j < upto => DeferredAt(idx, cycle, j, recs[j]))
  }

  function Flatten(chunks: seq<seq<DeferredKey>>): seq<DeferredKey> {
    if chunks == [] then [] else Flatten(chunks[..|chunks| - 1]) + chunks[|chunks| - 1]
  }

  /** The keys deferred from the first objects, in declaration order. */
  function DeferredFrom(recs: seq<ObjRec>, idx: map<string, nat>, cycle: set<nat>, upto: nat): seq<DeferredKey>
    requires upto <= |recs|
  {
    Flatten(Chunks(recs, idx, cycle, upto))
  }

  lemma DeferredNext(recs: seq<ObjRec>, idx: map<string, nat>, cycle: set<nat>, i: nat)
    requires i < |recs|
    ensures DeferredFrom(recs, idx, cycle, i + 1) ==
      DeferredFrom(recs, idx, cycle, i) + DeferredAt(idx, cycle, i, recs[i])
  {
    var chunks := Chunks(recs, idx, cycle, i + 1);
    assert chunks[..i] == Chunks(recs, idx, cycle, i);
  }

  lemma TaggedAppend(schema: string, name: string, moved: seq<Constraint>, c: Constraint)
    ensures Tagged(schema, name, moved + [c]) == Tagged(schema, name, moved) + [DeferredKey(schema, name, c)]
  {
    assert (moved + [c])[..|moved|] == moved;
  }

  /** The deferred keys that go back to the table of a given name, in order. */
  function AttachedTo(deferred: seq<DeferredKey>, schema: string, name: string): seq<Constraint> {
    if deferred == [] then []
    else
      var last := deferred[|deferred| - 1];
      AttachedTo(deferred[..|deferred| - 1], schema, name) + if last.schema == schema && last.name == name then [last.fk] else []
  }

  function AttachOne(deferred: seq<DeferredKey>, o: ObjRec): ObjRec {
    if o.TableRec? then o.(constraints := o.constraints + AttachedTo(deferred, o.schema, o.name)) else o
  }

  function Attach(recs: seq<ObjRec>, deferred: seq<DeferredKey>): (r: seq<ObjRec>)
    ensures |r| == |recs| && forall i :: 0 <= i < |recs| ==> r[i] == AttachOne(deferred, recs[i])
  {
    seq(|recs|, i requires 0 <= i < |recs| => AttachOne(deferred, recs[i]))
  }

  lemma AttachNothing(recs: seq<ObjRec>)
    ensures Attach(recs, []) == recs
  {
    forall i | 0 <= i < |recs| ensures AttachOne([], recs[i]) == recs[i] {
      assert recs[i].TableRec? ==> recs[i].constraints + [] == recs[i].constraints;
    }
  }

  lemma AttachSingle(o: ObjRec, d: DeferredKey)
    ensures AttachOne([d], o) ==
      if o.TableRec? && o.schema == d.schema && o.name == d.name then o.(constraints := o.constraints + [d.fk]) else o
  {
    assert [d][..0] == [];
    if o.TableRec? {
      assert o.constraints + [] == o.constraints;
      assert AttachedTo([d], o.schema, o.name) == if d.schema == o.schema && d.name == o.name then [d.fk] else [];
    }
  }

  lemma AttachNext(recs: seq<ObjRec>, deferred: seq<DeferredKey>, d: DeferredKey)
    ensures Attach(Attach(recs, deferred), [d]) == Attach(recs, deferred + [d])
  {
    assert (deferred + [d])[..|deferred|] == deferred;
    forall i | 0 <= i < |recs| ensures AttachOne([d], AttachOne(deferred, recs[i])) == AttachOne(deferred + [d], recs[i]) {
      if recs[i].TableRec? {
        var o := recs[i];
        var here := if d.schema == o.schema && d.name == o.name then [d.fk] else [];
        assert [d][..0] == [];
        assert AttachedTo([d], o.schema, o.name) == [] + here == here;
        assert o.constraints + AttachedTo(deferred, o.schema, o.name) + here ==
          o.constraints + (AttachedTo(deferred, o.schema, o.name) + here);
      }
    }
  }

  /** No two tables share schema and name. */
  ghost predicate UniqueTableRecs(recs: seq<ObjRec>) {
    forall i, j :: 0 <= i < j < |recs| && recs[i].TableRec? && recs[j].TableRec? ==>
      !(recs[i].schema == recs[j].schema && recs[i].name == recs[j].name)
  }

  lemma {:induction false} AttachedConcat(a: seq<DeferredKey>, b: seq<DeferredKey>, schema: string, name: string)
    ensures AttachedTo(a + b, schema, name) == AttachedTo(a, schema, name) + AttachedTo(b, schema, name)
    decreases |b|
  {
    if b == [] {
      assert a + b == a;
    } else {
      assert (a + b)[..|a + b| - 1] == a + b[..|b| - 1];
      AttachedConcat(a, b[..|b| - 1], schema, name);
    }
  }

  lemma {:induction false} AttachedTagged(moved: seq<Constraint>, schema: string, name: string, s: string, n: string)
    ensures AttachedTo(Tagged(schema, name, moved), s, n) == if schema == s && name == n then moved else []
  {
    if moved != [] {
      AttachedTagged(moved[..|moved| - 1], schema, name, s, n);
      var tags := Tagged(schema, name, moved);
      assert tags[..|tags| - 1] == Tagged(schema, name, moved[..|moved| - 1]);
    }
  }

  lemma DifferentNames(recs: seq<ObjRec>, i: nat, j: nat)
    requires UniqueTableRecs(recs) && i < |recs| && j < |recs| && i != j && recs[i].TableRec? && recs[j].TableRec?
    ensures !(recs[i].schema == recs[j].schema && recs[i].name == recs[j].name)
  {
    if j < i {
      assert !(recs[j].schema == recs[i].schema && recs[j].name == recs[i].name);
    }
  }

  lemma AttachedAt(idx: map<string, nat>, cycle: set<nat>, j: nat, o: ObjRec, schema: string, name: string)
    ensures AttachedTo(DeferredAt(idx, cycle, j, o), schema, name) ==
      if j in cycle && o.TableRec? && o.schema == schema && o.name == name then MovedConstraints(idx, cycle, o.constraints) else []
  {
    if j in cycle && o.TableRec? {
      AttachedTagged(MovedConstraints(idx, cycle, o.constraints), o.schema, o.name, schema, name);
    }
  }

  /** When only one chunk holds keys of a name, those are all there are. */
  lemma {:induction false} OneChunkOnly(chunks: seq<seq<DeferredKey>>, i: nat, schema: string, name: string)
    requires forall j :: 0 <= j < |chunks| && j != i ==> AttachedTo(chunks[j], schema, name) == []
    ensures AttachedTo(Flatten(chunks), schema, name) == if i < |chunks| then AttachedTo(chunks[i], schema, name) else []
  {
    if chunks != [] {
      var front, last := chunks[..|chunks| - 1], chunks[|chunks| - 1];
      OneChunkOnly(front, i, schema, name);
      AttachedConcat(Flatten(front), last, schema, name);
    }
  }

  lemma OthersKeys(recs: seq<ObjRec>, idx: map<string, nat>, cycle: set<nat>, i: nat, j: nat)
    requires UniqueTableRecs(recs) && i < |recs| && j < |recs| && i != j && recs[i].TableRec?
    ensures AttachedTo(DeferredAt(idx, cycle, j, recs[j]), recs[i].schema, recs[i].name) == []
  {
    AttachedAt(idx, cycle, j, recs[j], recs[i].schema, recs[i].name);
    if recs[j].TableRec? {
      DifferentNames(recs, i, j);
    }
  }

  /** Each table gets back exactly what was taken off it. */
  lemma GetsOwnBack(recs: seq<ObjRec>, idx: map<string, nat>, cycle: set<nat>, i: nat)
    requires UniqueTableRecs(recs) && i < |recs| && recs[i].TableRec?
    ensures AttachedTo(DeferredFrom(recs, idx, cycle, |recs|), recs[i].schema, recs[i].name) ==
      if i in cycle then MovedConstraints(idx, cycle, recs[i].constraints) else []
  {
    var chunks := Chunks(recs, idx, cycle, |recs|);
    forall j | 0 <= j < |recs| && j != i ensures AttachedTo(chunks[j], recs[i].schema, recs[i].name) == [] {
      OthersKeys(recs, idx, cycle, i, j);
    }
    OneChunkOnly(chunks, i, recs[i].schema, recs[i].name);
    AttachedAt(idx, cycle, i, recs[i], recs[i].schema, recs[i].name);
  }

  // ----- conservation

  ghost predicate DeferrableKeys(cs: seq<Constraint>) {
    forall k :: 0 <= k < |cs| ==> cs[k].IsForeignKey() && cs[k].deferrable
  }

  /** after has exactly the constraints of before, in the same order but for
      deferrable foreign keys moved to the end. */
  ghost predicate MovedToEnd(before: seq<Constraint>, after: seq<Constraint>) {
    && multiset(after) == multiset(before)
    && exists cut: nat :: KeepsUpTo(before, after, cut)
  }

  ghost predicate KeepsUpTo(before: seq<Constraint>, after: seq<Constraint>, cut: nat) {
    cut <= |after| && Subsequence(after[..cut], before) && DeferrableKeys(after[cut..])
  }

  ghost predicate Conserved(before: ObjRec, after: ObjRec) {
    && SameButConstraints(before, after)
    && (before.TableRec? ==> MovedToEnd(before.constraints, after.constraints))
  }

  /** Listed in the given order, every object is there with all its constraints. */
  ghost predicate ConservedAll(recs: seq<ObjRec>, order: seq<nat>, result: seq<ObjRec>) {
    && InRange(order, |recs|) && |result| == |order|
    && forall k :: 0 <= k < |order| ==> Conserved(recs[order[k]], result[k])
  }

  /** Every table starts with the constraints it kept. */
  ghost predicate StartsWithKept(residual: seq<ObjRec>, order: seq<nat>, result: seq<ObjRec>) {
    && InRange(order, |residual|) && |result| == |order|
    && forall k :: 0 <= k < |order| && residual[order[k]].TableRec? && result[k].TableRec? ==>
         residual[order[k]].constraints <= result[k].constraints
  }

  lemma ConservedSelf(recs: seq<ObjRec>, order: seq<nat>, result: seq<ObjRec>)
    requires InRange(order, |recs|) && |result| == |order|
    requires forall k :: 0 <= k < |order| ==> result[k] == recs[order[k]]
    ensures ConservedAll(recs, order, result) && StartsWithKept(recs, order, result)
  {
    forall k | 0 <= k < |order| ensures Conserved(recs[order[k]], result[k]) {
      if result[k].TableRec? {
        var cs := result[k].constraints;
        SubsequenceSelf(cs);
        assert cs[..|cs|] == cs;
        assert KeepsUpTo(cs, cs, |cs|);
      }
    }
  }

  lemma MovedBack(cs: seq<Constraint>, kept: seq<Constraint>, moved: seq<Constraint>, mid: seq<Constraint>)
    requires Subsequence(kept, cs) && multiset(cs) == multiset(kept) + multiset(moved) && DeferrableKeys(moved)
    requires MovedToEnd(kept, mid)
    ensures MovedToEnd(cs, mid + moved)
  {
    var cut: nat :| KeepsUpTo(kept, mid, cut);
    SubsequenceTrans(mid[..cut], kept, cs);
    KeepsLonger(cs, mid, moved, cut);
  }

  lemma KeepsLonger(cs: seq<Constraint>, mid: seq<Constraint>, moved: seq<Constraint>, cut: nat)
    requires KeepsUpTo(cs, mid, cut) && DeferrableKeys(moved)
    ensures KeepsUpTo(cs, mid + moved, cut)
  {
    var after := mid + moved;
    assert after[..cut] == mid[..cut];
    assert after[cut..] == mid[cut..] + moved;
  }

  lemma MovedAreDeferrable(idx: map<string, nat>, cycle: set<nat>, cs: seq<Constraint>)
    ensures DeferrableKeys(MovedConstraints(idx, cycle, cs))
  {
    MovedMembers(idx, cycle, cs);
    var moved := MovedConstraints(idx, cycle, cs);
    forall k | 0 <= k < |moved| ensures moved[k].IsForeignKey() && moved[k].deferrable {
      assert moved[k] in moved && Deferred(idx, cycle, moved[k]);
    }
  }

  lemma UnmovedBack(cs: seq<Constraint>)
    ensures cs + [] == cs
  {
  }

  /** Re-attaching the deferred keys to a conserved listing of the stripped
      objects gives a conserved listing of the objects themselves. */
  lemma ReattachConserves(recs: seq<ObjRec>, cycle: set<nat>, order: seq<nat>, mid: seq<ObjRec>)
    requires UniqueTableRecs(recs) && ConservedAll(Strip(recs, cycle), order, mid)
    ensures ConservedAll(recs, order, Attach(mid, DeferredFrom(recs, IndexOf(recs), cycle, |recs|)))
  {
    var idx := IndexOf(recs);
    var deferred := DeferredFrom(recs, idx, cycle, |recs|);
    forall k | 0 <= k < |order| ensures Conserved(recs[order[k]], AttachOne(deferred, mid[k])) {
      var i := order[k];
      assert Conserved(Strip(recs, cycle)[i], mid[k]) && SameButConstraints(StripOne(idx, cycle, i, recs[i]), mid[k]);
      if recs[i].TableRec? {
        GetsOwnBack(recs, idx, cycle, i);
        if i in cycle {
          var cs := recs[i].constraints;
          KeptSubsequence(idx, cycle, cs);
          StripSplits(idx, cycle, cs);
          MovedAreDeferrable(idx, cycle, cs);
          MovedBack(cs, KeptConstraints(idx, cycle, cs), MovedConstraints(idx, cycle, cs), mid[k].constraints);
        } else {
          UnmovedBack(mid[k].constraints);
        }
      }
    }
  }

  lemma AttachKeepsStart(residual: seq<ObjRec>, order: seq<nat>, mid: seq<ObjRec>, deferred: seq<DeferredKey>)
    requires StartsWithKept(residual, order, mid)
    ensures StartsWithKept(residual, order, Attach(mid, deferred))
  {
  }

  lemma {:induction false} FlattenNonEmpty(chunks: seq<seq<DeferredKey>>, i: nat)
    requires i < |chunks| && chunks[i] != []
    ensures Flatten(chunks) != []
  {
    if i < |chunks| - 1 {
      FlattenNonEmpty(chunks[..|chunks| - 1], i);
    }
  }

  /** A stripped table leaves a trace in the list of deferred keys. */
  lemma SomethingDeferred(recs: seq<ObjRec>, idx: map<string, nat>, cycle: set<nat>, i: nat)
    requires i < |recs| && i in cycle && recs[i].TableRec?
    requires MovedConstraints(idx, cycle, recs[i].constraints) != []
    ensures DeferredFrom(recs, idx, cycle, |recs|) != []
  {
    assert Tagged(recs[i].schema, recs[i].name, MovedConstraints(idx, cycle, recs[i].constraints)) != [];
    FlattenNonEmpty(Chunks(recs, idx, cycle, |recs|), i);
  }
}
