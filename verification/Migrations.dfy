/** Migrations: the statements of a change, and those that may run in a transaction. */
module Migrations {
  import opened StableSort

  datatype Safety = Safe | Caution | Destructive | Manual

  /** One step of a migration. A secret-bearing step's sql only refers to its secret. */
  datatype DiffOp = DiffOp(sql: string, safety: Safety, transactional: bool, secretBearing: bool)

  datatype Migration = Migration(transactional: seq<DiffOp>, nonTransactional: seq<DiffOp>)

  /** The steps that a condition holds of, in order. */
  function Select(ops: seq<DiffOp>, keep: DiffOp -> bool): seq<DiffOp> {
    if ops == [] then []
    else Select(ops[..|ops| - 1], keep) + if keep(ops[|ops| - 1]) then [ops[|ops| - 1]] else []
  }

  predicate RunsInTransaction(op: DiffOp) {
    op.transactional
  }

  predicate RunsAlone(op: DiffOp) {
    !op.transactional
  }

  function Emitted(ops: seq<DiffOp>): Migration {
    Migration(Select(ops, RunsInTransaction), Select(ops, RunsAlone))
  }

  lemma SelectNext(ops: seq<DiffOp>, i: nat, keep: DiffOp -> bool)
    requires i < |ops|
    ensures Select(ops[..i + 1], keep) == Select(ops[..i], keep) + if keep(ops[i]) then [ops[i]] else []
  {
    assert ops[..i + 1][..i] == ops[..i];
  }

  method Emit(ops: seq<DiffOp>) returns (m: Migration)
    ensures m == Emitted(ops)
  {
    m := Migration([], []);
    for i := 0 to |ops|
      invariant m == Emitted(ops[..i])
    {
      SelectNext(ops, i, RunsInTransaction);
      SelectNext(ops, i, RunsAlone);
      if ops[i].transactional {
        m := m.(transactional := m.transactional + [ops[i]]);
      } else {
        m := m.(nonTransactional := m.nonTransactional + [ops[i]]);
      }
    }
    assert ops[..|ops|] == ops;
  }

  // ----- the order in which a migration runs

  function RunOrder(m: Migration): seq<DiffOp> {
    m.transactional + m.nonTransactional
  }

  function Phase(op: DiffOp): int {
    if op.transactional then 0 else 1
  }

  lemma {:induction false} SelectMembers(ops: seq<DiffOp>, keep: DiffOp -> bool)
    ensures forall op :: op in Select(ops, keep) <==> op in ops && keep(op)
  {
    if ops != [] {
      SelectMembers(ops[..|ops| - 1], keep);
      assert ops == ops[..|ops| - 1] + [ops[|ops| - 1]];
    }
  }

  lemma {:induction false} SelectOfPhase(ops: seq<DiffOp>, k: int)
    ensures OfKey(ops, Phase, k) == if k == 0 then Select(ops, RunsInTransaction) else if k == 1 then Select(ops, RunsAlone) else []
  {
    if ops != [] {
      var front, last := ops[..|ops| - 1], ops[|ops| - 1];
      SelectOfPhase(front, k);
      OfKeyNext(front, last, k);
      assert front + [last] == ops;
    }
  }

  lemma {:induction false} OfKeyNext(ops: seq<DiffOp>, op: DiffOp, k: int)
    ensures OfKey(ops + [op], Phase, k) == OfKey(ops, Phase, k) + IfOfKey(op, Phase, k)
  {
    if ops == [] {
      assert ops + [op] == [op] && [op][1..] == [];
    } else {
      assert (ops + [op])[1..] == ops[1..] + [op];
      OfKeyNext(ops[1..], op, k);
    }
  }

  lemma {:induction false} OfKeyJoin(a: seq<DiffOp>, b: seq<DiffOp>, k: int)
    ensures OfKey(a + b, Phase, k) == OfKey(a, Phase, k) + OfKey(b, Phase, k)
  {
    if a == [] {
      assert a + b == b;
    } else {
      assert (a + b)[1..] == a[1..] + b;
      OfKeyJoin(a[1..], b, k);
    }
  }

  lemma {:induction false} AllOfPhase(ops: seq<DiffOp>, k: int)
    requires forall i :: 0 <= i < |ops| ==> Phase(ops[i]) == k
    ensures OfKey(ops, Phase, k) == ops
  {
    if ops != [] {
      AllOfPhase(ops[1..], k);
      assert [ops[0]] + ops[1..] == ops;
    }
  }

  lemma EmittedOfPhase(ops: seq<DiffOp>, k: int)
    ensures OfKey(RunOrder(Emitted(ops)), Phase, k) == OfKey(ops, Phase, k)
  {
    var m := Emitted(ops);
    PhasesOf(ops);
    OfKeyJoin(m.transactional, m.nonTransactional, k);
    SelectOfPhase(ops, k);
    if k == 0 {
      AllOfPhase(m.transactional, 0);
      NoneOfKey(m.nonTransactional, Phase, 0);
    } else {
      NoneOfKey(m.transactional, Phase, k);
      if k == 1 {
        AllOfPhase(m.nonTransactional, 1);
      } else {
        NoneOfKey(m.nonTransactional, Phase, k);
      }
    }
  }

  lemma PhasesOf(ops: seq<DiffOp>)
    ensures forall i :: 0 <= i < |Emitted(ops).transactional| ==> Phase(Emitted(ops).transactional[i]) == 0
    ensures forall i :: 0 <= i < |Emitted(ops).nonTransactional| ==> Phase(Emitted(ops).nonTransactional[i]) == 1
  {
    var m := Emitted(ops);
    SelectMembers(ops, RunsInTransaction);
    SelectMembers(ops, RunsAlone);
    forall i | 0 <= i < |m.transactional| ensures Phase(m.transactional[i]) == 0 {
      assert m.transactional[i] in m.transactional;
    }
    forall i | 0 <= i < |m.nonTransactional| ensures Phase(m.nonTransactional[i]) == 1 {
      assert m.nonTransactional[i] in m.nonTransactional;
    }
  }

  /** A migration runs the steps stably sorted by whether they need to run alone:
      none is lost or repeated, and otherwise they keep their order. */
  lemma EmittedIsStable(ops: seq<DiffOp>)
    ensures RunOrder(Emitted(ops)) == SortBy(ops, Phase)
    ensures multiset(RunOrder(Emitted(ops))) == multiset(ops)
  {
    var a, b := RunOrder(Emitted(ops)), SortBy(ops, Phase);
    PhasesOf(ops);
    SortByIsStable(ops, Phase, 0);
    forall k ensures OfKey(a, Phase, k) == OfKey(b, Phase, k) {
      EmittedOfPhase(ops, k);
      SortByIsStable(ops, Phase, k);
    }
    StableSortUnique(a, b, Phase);
  }

  // ----- instructions

  /** A step that only says what the operator has to do. */
  predicate IsInstruction(op: DiffOp) {
    op.safety == Manual && op.sql != "" && op.sql[0] == '-'
  }

  predicate IsExecutable(op: DiffOp) {
    !IsInstruction(op)
  }

  lemma {:induction false} SelectsCommute(ops: seq<DiffOp>, p: DiffOp -> bool, q: DiffOp -> bool)
    ensures Select(Select(ops, p), q) == Select(Select(ops, q), p)
  {
    if ops != [] {
      var front, last := ops[..|ops| - 1], ops[|ops| - 1];
      SelectsCommute(front, p, q);
      SelectAppended(Select(front, p), last, q);
      SelectAppended(Select(front, q), last, p);
      assert Select(front, p) + [] == Select(front, p) && Select(front, q) + [] == Select(front, q);
    }
  }

  lemma SelectAppended(ops: seq<DiffOp>, op: DiffOp, keep: DiffOp -> bool)
    ensures Select(ops + [op], keep) == Select(ops, keep) + if keep(op) then [op] else []
  {
    assert (ops + [op])[..|ops|] == ops;
  }

  lemma {:induction false} SelectJoin(a: seq<DiffOp>, b: seq<DiffOp>, keep: DiffOp -> bool)
    ensures Select(a + b, keep) == Select(a, keep) + Select(b, keep)
  {
    if b == [] {
      assert a + b == a;
    } else {
      var front, last := b[..|b| - 1], b[|b| - 1];
      SelectJoin(a, front, keep);
      SelectAppended(a + front, last, keep);
      assert a + front + [last] == a + b;
    }
  }

  /** What is executed is what was planned, without the instructions. */
  lemma ExecutedIsPlanned(ops: seq<DiffOp>)
    ensures Emitted(Select(ops, IsExecutable))
      == Migration(Select(Emitted(ops).transactional, IsExecutable), Select(Emitted(ops).nonTransactional, IsExecutable))
  {
    SelectsCommute(ops, RunsInTransaction, IsExecutable);
    SelectsCommute(ops, RunsAlone, IsExecutable);
  }
}
