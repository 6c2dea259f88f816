/** Running a migration over a connection on which any call may fail. */
module Executor {
  import opened Text
  import opened Migrations

  /** What is sent to the server for a step. */
  datatype Statement = Statement(op: DiffOp, text: string)

  datatype Failure = BeginFailed | StatementFailed(sql: string) | CommitFailed

  /** What the server has been sent, what has taken effect, and what will when the
      open transaction is committed. */
  datatype ServerState = ServerState(sent: seq<Statement>, committed: seq<Statement>, pending: seq<Statement>, inTransaction: bool)

  /** More statements sent, and some of them run. */
  function After(was: ServerState, sent: seq<Statement>, ran: seq<Statement>): ServerState {
    if was.inTransaction then was.(sent := was.sent + sent, pending := was.pending + ran)
    else was.(sent := was.sent + sent, committed := was.committed + ran)
  }

  lemma AfterAfter(was: ServerState, sent: seq<Statement>, ran: seq<Statement>, sent': seq<Statement>,
                   ran': seq<Statement>)
    ensures After(After(was, sent, ran), sent', ran') == After(was, sent + sent', ran + ran')
  {
    Assoc(was.sent, sent, sent');
    Assoc(was.pending, ran, ran');
    Assoc(was.committed, ran, ran');
  }

  lemma AfterNothing(was: ServerState)
    ensures After(was, [], []) == was
  {
    OnEmpty(was.sent);
    OnEmpty(was.pending);
    OnEmpty(was.committed);
  }

  /** The database as one connection changes it. */
  class Connection {
    const fails: nat -> bool
    var calls: nat
    var sent: seq<Statement>
    var committed: seq<Statement>
    var inTransaction: bool
    var pending: seq<Statement>

    ghost function State(): ServerState
      reads this
    {
      ServerState(sent, committed, pending, inTransaction)
    }

    constructor (fails: nat -> bool)
      ensures this.fails == fails && calls == 0 && State() == ServerState([], [], [], false)
    {
      this.fails := fails;
      calls, sent, committed, inTransaction, pending := 0, [], [], false, [];
    }

    method Begin() returns (ok: bool)
      requires !inTransaction
      modifies this
      ensures calls == old(calls) + 1 && ok == !fails(old(calls))
      ensures State() == old(State()).(inTransaction := ok, pending := [])
    {
      ok := !fails(calls);
      calls, inTransaction, pending := calls + 1, ok, [];
    }

    /** Runs a statement; within a transaction it takes effect when that is committed. */
    method Exec(st: Statement) returns (ok: bool)
      modifies this
      ensures calls == old(calls) + 1 && ok == !fails(old(calls))
      ensures State() == After(old(State()), [st], if ok then [st] else [])
    {
      ok := !fails(calls);
      OnEmpty(pending);
      OnEmpty(committed);
      calls, sent := calls + 1, sent + [st];
      if ok && inTransaction {
        pending := pending + [st];
      } else if ok {
        committed := committed + [st];
      }
    }

    method Rollback()
      modifies this
      ensures calls == old(calls) && State() == old(State()).(inTransaction := false, pending := [])
    {
      inTransaction, pending := false, [];
    }

    /** A commit that fails leaves the transaction rolled back. */
    method Commit() returns (ok: bool)
      requires inTransaction
      modifies this
      ensures calls == old(calls) + 1 && ok == !fails(old(calls))
      ensures State() == ServerState(old(sent), if ok then old(committed) + old(pending) else old(committed), [], false)
    {
      ok := !fails(calls);
      if ok {
        committed := committed + pending;
      }
      calls, inTransaction, pending := calls + 1, false, [];
    }
  }

  // ----- secrets

  type Resolver = string -> Option<string>

  /** The text that runs for a step: its secret is put in, if it has one and that resolves. */
  function TextOf(op: DiffOp, registered: Option<Resolver>): Option<string> {
    if !op.secretBearing then Some(op.sql)
    else if registered.None? then None
    else registered.value(op.sql)
  }

  /** Looks the resolver up when the first secret is met, and not again. */
  class SecretAccess {
    const registered: Option<Resolver>
    var resolver: Option<Resolver>
    var resolverLoaded: bool
    var lookups: nat

    ghost predicate Valid()
      reads this
    {
      if resolverLoaded then resolver == registered && lookups == 1 else lookups == 0
    }

    constructor (registered: Option<Resolver>)
      ensures Valid() && this.registered == registered && !resolverLoaded
    {
      this.registered, resolver, resolverLoaded, lookups := registered, None, false, 0;
    }

    method ExecText(op: DiffOp) returns (r: Option<string>)
      requires Valid()
      modifies this
      ensures Valid() && r == TextOf(op, registered)
      ensures resolverLoaded == (old(resolverLoaded) || op.secretBearing)
    {
      if !op.secretBearing {
        return Some(op.sql);
      }
      if !resolverLoaded {
        resolver, resolverLoaded, lookups := registered, true, lookups + 1;
      }
      if resolver.None? {
        return None;
      }
      r := resolver.value(op.sql);
    }
  }

  // ----- what a run does

  predicate Ready(ops: seq<DiffOp>, registered: Option<Resolver>) {
    forall i :: 0 <= i < |ops| ==> TextOf(ops[i], registered).Some?
  }

  function StatementOf(op: DiffOp, registered: Option<Resolver>): Statement {
    var text := TextOf(op, registered);
    Statement(op, if text.Some? then text.value else "")
  }

  function Statements(ops: seq<DiffOp>, registered: Option<Resolver>): (r: seq<Statement>)
    ensures |r| == |ops|
  {
    if ops == [] then [] else [StatementOf(ops[0], registered)] + Statements(ops[1..], registered)
  }

  lemma {:induction false} StatementsAt(ops: seq<DiffOp>, registered: Option<Resolver>, i: nat)
    requires i < |ops|
    ensures Statements(ops, registered)[i] == StatementOf(ops[i], registered)
  {
    if i > 0 {
      StatementsAt(ops[1..], registered, i - 1);
    }
  }

  ghost predicate NoneFail(fails: nat -> bool, from: nat, to: nat) {
    forall i {:trigger fails(i)} :: from <= i < to ==> !fails(i)
  }

  lemma StatementsNext(ops: seq<DiffOp>, i: nat, registered: Option<Resolver>)
    requires i < |ops|
    ensures Statements(ops[..i + 1], registered) == Statements(ops[..i], registered) + [StatementOf(ops[i], registered)]
  {
    assert ops[..i + 1] == ops[..i] + [ops[i]];
    StatementsConcat(ops[..i], [ops[i]], registered);
    assert [ops[i]][1..] == [];
  }

  lemma {:induction false} StatementsConcat(a: seq<DiffOp>, b: seq<DiffOp>, registered: Option<Resolver>)
    ensures Statements(a + b, registered) == Statements(a, registered) + Statements(b, registered)
  {
    if a == [] {
      OnEmpty(b);
      OnEmpty(Statements(b, registered));
    } else {
      StatementsConcat(a[1..], b, registered);
      assert (a + b)[1..] == a[1..] + b;
      Assoc([StatementOf(a[0], registered)], Statements(a[1..], registered), Statements(b, registered));
    }
  }

  method RunOne(op: DiffOp, conn: Connection, secrets: SecretAccess) returns (ok: bool, ghost tried: bool)
    requires secrets.Valid()
    modifies conn, secrets
    ensures secrets.Valid() && (ok <==> TextOf(op, secrets.registered).Some? && !conn.fails(old(conn.calls)))
    ensures ok ==> tried && conn.calls == old(conn.calls) + 1
    ensures var st := StatementOf(op, secrets.registered);
      conn.State() == After(old(conn.State()), if tried then [st] else [], if ok then [st] else [])
  {
    var text := secrets.ExecText(op);
    if text.None? {
      AfterNothing(conn.State());
      return false, false;
    }
    tried := true;
    ok := conn.Exec(Statement(op, text.value));
  }

  /** The state after the first steps, some of them sent and some of those run. */
  ghost function AfterSteps(was: ServerState, ops: seq<DiffOp>, tried: nat, done: nat,
                            registered: Option<Resolver>): ServerState
    requires tried <= |ops| && done <= |ops|
  {
    After(was, Statements(ops[..tried], registered), Statements(ops[..done], registered))
  }

  lemma NoSteps(was: ServerState, ops: seq<DiffOp>, registered: Option<Resolver>)
    ensures AfterSteps(was, ops, 0, 0, registered) == was
  {
    AfterNothing(was);
  }

  lemma OneMore(was: ServerState, ops: seq<DiffOp>, i: nat, tried: bool, ok: bool, registered: Option<Resolver>)
    requires i < |ops|
    ensures var st := StatementOf(ops[i], registered);
      After(AfterSteps(was, ops, i, i, registered), if tried then [st] else [], if ok then [st] else [])
        == AfterSteps(was, ops, if tried then i + 1 else i, if ok then i + 1 else i, registered)
  {
    var st, so := StatementOf(ops[i], registered), Statements(ops[..i], registered);
    AfterAfter(was, so, so, if tried then [st] else [], if ok then [st] else []);
    StatementsNext(ops, i, registered);
    OnEmpty(so);
  }

  /** Runs the steps one by one until one fails: those before it have been done,
      it may have been sent, and nothing after it has. */
  method RunAll(ops: seq<DiffOp>, conn: Connection, secrets: SecretAccess)
    returns (err: Option<Failure>, ghost done: nat, ghost tried: nat)
    requires secrets.Valid()
    modifies conn, secrets
    ensures secrets.Valid() && done <= tried <= |ops| && tried <= done + 1
    ensures err.None? ==> done == |ops| && conn.calls == old(conn.calls) + |ops|
    ensures err.None? <==>
      Ready(ops, secrets.registered) && NoneFail(conn.fails, old(conn.calls), old(conn.calls) + |ops|)
    ensures err.Some? ==> done < |ops| && err == Some(StatementFailed(ops[done].sql))
    ensures conn.State() == AfterSteps(old(conn.State()), ops, tried, done, secrets.registered)
  {
    err, done, tried := None, 0, 0;
    ghost var was, from := conn.State(), conn.calls;
    NoSteps(was, ops, secrets.registered);
    for i := 0 to |ops|
      invariant secrets.Valid() && done == tried == i && err.None?
      invariant conn.calls == from + i && Ready(ops[..i], secrets.registered) && NoneFail(conn.fails, from, from + i)
      invariant conn.State() == AfterSteps(was, ops, i, i, secrets.registered)
    {
      var ok;
      ghost var sent;
      ok, sent := RunOne(ops[i], conn, secrets);
      OneMore(was, ops, i, sent, ok, secrets.registered);
      StillReady(ops, i, secrets.registered);
      if !ok {
        tried := if sent then i + 1 else i;
        err := Some(StatementFailed(ops[i].sql));
        return;
      }
      done, tried := i + 1, i + 1;
    }
    assert ops[..|ops|] == ops;
  }

  lemma StillReady(ops: seq<DiffOp>, i: nat, registered: Option<Resolver>)
    requires i < |ops|
    ensures Ready(ops[..i + 1], registered) <==> Ready(ops[..i], registered) && TextOf(ops[i], registered).Some?
    ensures Ready(ops, registered) ==> TextOf(ops[i], registered).Some?
  {
    assert ops[..i + 1] == ops[..i] + [ops[i]];
    StatementsJoin(ops[..i], [ops[i]], registered);
    assert Ready([ops[i]], registered) ==> TextOf([ops[i]][0], registered).Some?;
  }

  // ----- the executor

  lemma StatementsJoin(a: seq<DiffOp>, b: seq<DiffOp>, registered: Option<Resolver>)
    ensures Statements(a + b, registered) == Statements(a, registered) + Statements(b, registered)
    ensures Ready(a + b, registered) <==> Ready(a, registered) && Ready(b, registered)
  {
    StatementsConcat(a, b, registered);
    if Ready(a + b, registered) {
      forall i | 0 <= i < |b| ensures TextOf(b[i], registered).Some? {
        assert (a + b)[|a| + i] == b[i];
      }
      forall i | 0 <= i < |a| ensures TextOf(a[i], registered).Some? {
        assert (a + b)[i] == a[i];
      }
    }
  }

  /** The first steps of a migration, when they reach past its transaction. */
  lemma PastTransaction(m: Migration, k: nat, was: seq<Statement>, registered: Option<Resolver>)
    requires k <= |m.nonTransactional|
    ensures was + Statements(m.transactional, registered) + Statements(m.nonTransactional[..k], registered)
      == was + Statements(RunOrder(m)[..|m.transactional| + k], registered)
  {
    assert RunOrder(m)[..|m.transactional| + k] == m.transactional + m.nonTransactional[..k];
    StatementsConcat(m.transactional, m.nonTransactional[..k], registered);
    Assoc(was, Statements(m.transactional, registered), Statements(m.nonTransactional[..k], registered));
  }

  lemma NoneFailJoin(fails: nat -> bool, from: nat, mid: nat, to: nat)
    requires from <= mid <= to
    ensures NoneFail(fails, from, to) <==> NoneFail(fails, from, mid) && NoneFail(fails, mid, to)
  {
  }

  /** And when they do not: none of them done, some of them sent. */
  lemma InTransaction(m: Migration, k: nat, was: seq<Statement>, sent: seq<Statement>, registered: Option<Resolver>)
    requires k <= |m.transactional|
    ensures sent + Statements(m.transactional[..k], registered) == sent + Statements(RunOrder(m)[..k], registered)
    ensures was + Statements(RunOrder(m)[..0], registered) == was
  {
    assert RunOrder(m)[..k] == m.transactional[..k];
    OnEmpty(was);
  }

  /** How many calls to the server a transaction without failures makes; without steps there is none. */
  function CallsIn(ops: seq<DiffOp>): nat {
    if ops == [] then 0 else |ops| + 2
  }

  /** And a whole run. */
  function CallsFor(m: Migration): nat {
    CallsIn(m.transactional) + |m.nonTransactional|
  }

  /** A call before and a call after n others. */
  lemma NoneFailAround(fails: nat -> bool, from: nat, n: nat)
    ensures NoneFail(fails, from, from + n + 2) <==>
      !fails(from) && NoneFail(fails, from + 1, from + 1 + n) && !fails(from + n + 1)
  {
  }

  /** All the steps take effect, or none does. */
  method RunTransaction(ops: seq<DiffOp>, conn: Connection, secrets: SecretAccess)
    returns (err: Option<Failure>, ghost tried: nat)
    requires !conn.inTransaction && secrets.Valid()
    modifies conn, secrets
    ensures secrets.Valid() && !conn.inTransaction && tried <= |ops|
    ensures err.None? ==> tried == |ops| && conn.calls == old(conn.calls) + CallsIn(ops)
    ensures err.None? <==>
      Ready(ops, secrets.registered) && NoneFail(conn.fails, old(conn.calls), old(conn.calls) + CallsIn(ops))
    ensures conn.committed == if err.None? then old(conn.committed) + Statements(ops, secrets.registered) else old(conn.committed)
    ensures conn.sent == old(conn.sent) + Statements(ops[..tried], secrets.registered)
  {
    NoneFailAround(conn.fails, conn.calls, |ops|);
    OnEmpty(conn.sent);
    OnEmpty(conn.committed);
    OnEmpty(Statements(ops, secrets.registered));
    if ops == [] {
      return None, 0;
    }
    var ok := conn.Begin();
    if !ok {
      return Some(BeginFailed), 0;
    }
    ghost var done;
    err, done, tried := RunAll(ops, conn, secrets);
    if err.Some? {
      conn.Rollback();
      return;
    }
    assert ops[..|ops|] == ops;
    ok := conn.Commit();
    if !ok {
      err := Some(CommitFailed);
    }
  }

  /** How far a run got: it succeeds if and only if every text resolves and no
      call fails, and then everything is done. A run that fails has done nothing
      and tried no more than the transaction, or has done the transaction whole and
      stopped at a later step. */
  ghost predicate GotThrough(m: Migration, fails: nat -> bool, from: nat, registered: Option<Resolver>,
                             err: Option<Failure>, done: nat, tried: nat) {
    && done <= tried <= |RunOrder(m)|
    && (err.None? <==> Ready(RunOrder(m), registered) && NoneFail(fails, from, from + CallsFor(m)))
    && (err.None? ==> done == |RunOrder(m)|)
    && (err.Some? ==> (done == 0 && tried <= |m.transactional|) || (|m.transactional| <= done < |RunOrder(m)| && tried <= done + 1))
  }

  lemma TransactionFailed(m: Migration, fails: nat -> bool, from: nat, registered: Option<Resolver>, err: Failure,
                          tried: nat)
    requires tried <= |m.transactional|
    requires !(Ready(m.transactional, registered) && NoneFail(fails, from, from + CallsIn(m.transactional)))
    ensures GotThrough(m, fails, from, registered, Some(err), 0, tried)
  {
    StatementsJoin(m.transactional, m.nonTransactional, registered);
    NoneFailJoin(fails, from, from + CallsIn(m.transactional), from + CallsFor(m));
  }

  lemma TransactionDone(m: Migration, fails: nat -> bool, from: nat, mid: nat, registered: Option<Resolver>,
                        err: Option<Failure>, more: nat, sent: nat)
    requires mid == from + CallsIn(m.transactional)
    requires Ready(m.transactional, registered) && NoneFail(fails, from, mid)
    requires more <= sent <= |m.nonTransactional| && sent <= more + 1
    requires err.None? <==> Ready(m.nonTransactional, registered) && NoneFail(fails, mid, mid + |m.nonTransactional|)
    requires if err.None? then more == |m.nonTransactional| else more < |m.nonTransactional|
    ensures GotThrough(m, fails, from, registered, err, |m.transactional| + more, |m.transactional| + sent)
  {
    StatementsJoin(m.transactional, m.nonTransactional, registered);
    NoneFailJoin(fails, from, mid, from + CallsFor(m));
  }

  /** Runs the steps after a transaction that has been done whole. */
  method RunRest(m: Migration, conn: Connection, secrets: SecretAccess,
                 ghost from: nat, ghost committed: seq<Statement>, ghost sent: seq<Statement>)
    returns (err: Option<Failure>, ghost done: nat, ghost tried: nat)
    requires !conn.inTransaction && secrets.Valid() && Ready(m.transactional, secrets.registered)
    requires conn.calls == from + CallsIn(m.transactional) && NoneFail(conn.fails, from, conn.calls)
    requires conn.committed == committed + Statements(m.transactional, secrets.registered)
    requires conn.sent == sent + Statements(m.transactional, secrets.registered)
    modifies conn, secrets
    ensures !conn.inTransaction
    ensures GotThrough(m, conn.fails, from, secrets.registered, err, done, tried)
    ensures conn.committed == committed + Statements(RunOrder(m)[..done], secrets.registered)
    ensures conn.sent == sent + Statements(RunOrder(m)[..tried], secrets.registered)
  {
    ghost var mid, more, tries := conn.calls, 0, 0;
    err, more, tries := RunAll(m.nonTransactional, conn, secrets);
    TransactionDone(m, conn.fails, from, mid, secrets.registered, err, more, tries);
    done, tried := |m.transactional| + more, |m.transactional| + tries;
    PastTransaction(m, more, committed, secrets.registered);
    PastTransaction(m, tries, sent, secrets.registered);
  }

  /** Runs the transaction, if there is one, and then the other steps. */
  method Apply(m: Migration, conn: Connection, registered: Option<Resolver>)
    returns (err: Option<Failure>, ghost done: nat, ghost tried: nat)
    requires !conn.inTransaction
    modifies conn
    ensures !conn.inTransaction
    ensures GotThrough(m, conn.fails, old(conn.calls), registered, err, done, tried)
    ensures conn.committed == old(conn.committed) + Statements(RunOrder(m)[..done], registered)
    ensures conn.sent == old(conn.sent) + Statements(RunOrder(m)[..tried], registered)
  {
    var secrets := new SecretAccess(registered);
    ghost var from, committed, sent := conn.calls, conn.committed, conn.sent;
    err, tried := RunTransaction(m.transactional, conn, secrets);
    if err.Some? {
      TransactionFailed(m, conn.fails, from, registered, err.value, tried);
      InTransaction(m, tried, committed, sent, registered);
      done := 0;
      return;
    }
    assert m.transactional[..|m.transactional|] == m.transactional;
    err, done, tried := RunRest(m, conn, secrets, from, committed, sent);
  }
}
