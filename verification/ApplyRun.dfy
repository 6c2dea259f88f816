/** The apply command for one database: the gates a migration passes before it
    is run, and what is recorded afterwards. */
module ApplyRun {
  import opened Text
  import opened Migrations
  import opened Executor
  import opened StableSort

  datatype Options = Options(
    yes: bool,
    allowDestructive: bool,
    approvePartitionRebuild: bool,
    dryRun: bool,
    noSnapshot: bool,
    strict: bool)

  datatype Diagnostic = Diagnostic(rule: string, isError: bool)

  /** What the rest of the program and the operator answer; None and false stand for errors. */
  datatype Surroundings = Surroundings(
    diagnostics: Option<seq<Diagnostic>>,
    snapshotLoads: bool,
    difference: Option<seq<DiffOp>>,
    printsPlan: bool,
    operatorAgrees: bool,
    hasConnection: bool,
    connectionResolves: bool,
    connects: bool,
    ownsRoles: bool,
    archives: bool,
    buildsSnapshot: bool,
    savesSnapshot: bool)

  datatype Outcome =
    | UpToDate | DryRun | Aborted | Applied
    | NotCompiled | LintErrors | NoSnapshot | NoDifference | HasDestructive(sql: string) | NeedsManualSteps(sql: string)
    | NotPrinted | NoConnection | SecretUnresolved | NotConnected | NotMember
    | Failed(failure: Failure) | SnapshotNotBuilt | SnapshotNotSaved

  /** What a run records besides the database: the migration file and the snapshot. */
  class Records {
    var archived: Option<Migration>
    var snapshotSaved: bool

    constructor ()
      ensures archived == None && !snapshotSaved
    {
      archived, snapshotSaved := None, false;
    }
  }

  /** Warnings count as errors under strict. */
  method PromoteDiagnostics(diags: seq<Diagnostic>, strict: bool) returns (hasErrors: bool)
    ensures hasErrors <==> (exists i :: 0 <= i < |diags| && diags[i].isError) || (strict && diags != [])
  {
    var promoted := diags;
    if strict {
      for i := 0 to |diags|
        invariant |promoted| == |diags|
        invariant forall j :: 0 <= j < |diags| ==> promoted[j] == if j < i then diags[j].(isError := true) else diags[j]
      {
        promoted := promoted[i := promoted[i].(isError := true)];
      }
    }
    hasErrors := false;
    for i := 0 to |promoted|
      invariant hasErrors <==> exists j :: 0 <= j < i && promoted[j].isError
    {
      if promoted[i].isError {
        hasErrors := true;
      }
    }
    assert strict && diags != [] ==> promoted[0].isError;
  }

  predicate IsDestructive(op: DiffOp) {
    op.safety == Destructive
  }

  method FirstDestructive(ops: seq<DiffOp>) returns (r: Option<DiffOp>)
    ensures r.None? <==> forall op :: op in ops ==> !IsDestructive(op)
    ensures r.Some? ==> r.value in ops && IsDestructive(r.value)
  {
    for i := 0 to |ops|
      invariant forall j :: 0 <= j < i ==> !IsDestructive(ops[j])
    {
      if IsDestructive(ops[i]) {
        return Some(ops[i]);
      }
    }
    forall op | op in ops ensures !IsDestructive(op) {
      var j :| 0 <= j < |ops| && ops[j] == op;
    }
    return None;
  }

  method SeparateInstructions(ops: seq<DiffOp>) returns (instructions: seq<DiffOp>, executable: seq<DiffOp>)
    ensures instructions == Select(ops, IsInstruction) && executable == Select(ops, IsExecutable)
  {
    instructions, executable := [], [];
    for i := 0 to |ops|
      invariant instructions == Select(ops[..i], IsInstruction) && executable == Select(ops[..i], IsExecutable)
    {
      SelectNext(ops, i, IsInstruction);
      SelectNext(ops, i, IsExecutable);
      if IsInstruction(ops[i]) {
        instructions := instructions + [ops[i]];
      } else {
        executable := executable + [ops[i]];
      }
    }
    assert ops[..|ops|] == ops;
  }

  /** The migration may be run: nothing in it is forbidden by the options. */
  ghost predicate Permitted(ops: seq<DiffOp>, opts: Options) {
    && (opts.allowDestructive || forall op :: op in ops ==> !IsDestructive(op))
    && (opts.approvePartitionRebuild || forall op :: op in ops ==> !IsInstruction(op))
  }

  /** Everything that is asked before the database is touched was answered so that it may be. */
  ghost predicate GatesPassed(s: Surroundings, opts: Options) {
    && s.diagnostics.Some? && s.snapshotLoads && s.difference.Some? && s.difference.value != []
    && !(exists i :: 0 <= i < |s.diagnostics.value| && s.diagnostics.value[i].isError)
    && !(opts.strict && s.diagnostics.value != [])
    && Permitted(s.difference.value, opts) && s.printsPlan && !opts.dryRun
    && (opts.yes || s.operatorAgrees) && s.hasConnection && s.connectionResolves && s.connects && s.ownsRoles
  }

  /** The steps a run executes, in their order. */
  function Plan(ops: seq<DiffOp>): seq<DiffOp> {
    RunOrder(Emitted(Select(ops, IsExecutable)))
  }

  /** They are the steps that are no instructions, stably sorted by whether they need
      to run alone, and they are the archived plan without its instructions. */
  lemma PlanIsStable(ops: seq<DiffOp>)
    ensures Plan(ops) == SortBy(Select(ops, IsExecutable), Phase)
    ensures Plan(ops) == Select(RunOrder(Emitted(ops)), IsExecutable)
  {
    EmittedIsStable(Select(ops, IsExecutable));
    ExecutedIsPlanned(ops);
    SelectJoin(Emitted(ops).transactional, Emitted(ops).nonTransactional, IsExecutable);
  }

  /** No error ended the run before it touched the database. */
  predicate Started(o: Outcome) {
    o.Applied? || o.Failed? || o.SnapshotNotBuilt? || o.SnapshotNotSaved?
  }

  /** The gates, in the order they are asked: what stops the run, or the steps to execute. */
  method PassGates(s: Surroundings, opts: Options)
    returns (stop: Option<Outcome>, plan: Migration, executable: seq<DiffOp>)
    ensures stop.None? <==> GatesPassed(s, opts)
    ensures stop.Some? ==> !Started(stop.value)
    ensures stop.None? ==> plan == Emitted(s.difference.value) && executable == Select(s.difference.value, IsExecutable)
  {
    plan, executable := Migration([], []), [];
    if s.diagnostics.None? {
      return Some(NotCompiled), plan, executable;
    }
    var hasErrors := PromoteDiagnostics(s.diagnostics.value, opts.strict);
    if hasErrors {
      return Some(LintErrors), plan, executable;
    }
    if !s.snapshotLoads {
      return Some(NoSnapshot), plan, executable;
    }
    if s.difference.None? {
      return Some(NoDifference), plan, executable;
    }
    var ops := s.difference.value;
    if |ops| == 0 {
      return Some(UpToDate), plan, executable;
    }
    var stopped;
    stopped, executable := CheckSteps(ops, opts);
    if stopped.Some? {
      return stopped, plan, executable;
    }
    plan := Emit(ops);
    if !s.printsPlan {
      return Some(NotPrinted), plan, executable;
    }
    if opts.dryRun {
      return Some(DryRun), plan, executable;
    }
    if !opts.yes && !s.operatorAgrees {
      return Some(Aborted), plan, executable;
    }
    if !s.hasConnection {
      return Some(NoConnection), plan, executable;
    }
    if !s.connectionResolves {
      return Some(SecretUnresolved), plan, executable;
    }
    if !s.connects {
      return Some(NotConnected), plan, executable;
    }
    if !s.ownsRoles {
      return Some(NotMember), plan, executable;
    }
    stop := None;
  }

  /** Destructive steps and manual ones each need their option. */
  method CheckSteps(ops: seq<DiffOp>, opts: Options) returns (stop: Option<Outcome>, executable: seq<DiffOp>)
    ensures stop.None? <==> Permitted(ops, opts)
    ensures stop.Some? ==> !Started(stop.value)
    ensures stop.None? ==> executable == Select(ops, IsExecutable)
  {
    executable := [];
    if !opts.allowDestructive {
      var destructive := FirstDestructive(ops);
      if destructive.Some? {
        return Some(HasDestructive(destructive.value.sql)), executable;
      }
    }
    var instructions;
    instructions, executable := SeparateInstructions(ops);
    SelectMembers(ops, IsInstruction);
    assert |instructions| > 0 ==> instructions[0] in instructions;
    if |instructions| > 0 && !opts.approvePartitionRebuild {
      return Some(NeedsManualSteps(instructions[0].sql)), executable;
    }
    stop := None;
  }

  /** A step was sent only if it is one of the steps, is no instruction, and is
      destructive only when that is allowed. */
  ghost predicate MayRun(st: Statement, s: Surroundings, opts: Options) {
    && GatesPassed(s, opts) && st.op in s.difference.value && !IsInstruction(st.op)
    && (IsDestructive(st.op) ==> opts.allowDestructive)
  }

  lemma SentMayRun(s: Surroundings, opts: Options, tried: nat, registered: Option<Resolver>, i: nat)
    requires GatesPassed(s, opts) && tried <= |Plan(s.difference.value)| && i < tried
    ensures MayRun(Statements(Plan(s.difference.value)[..tried], registered)[i], s, opts)
  {
    var ops := s.difference.value;
    var executable := Select(ops, IsExecutable);
    var op := Plan(ops)[i];
    StatementsAt(Plan(ops)[..tried], registered, i);
    SelectMembers(executable, RunsInTransaction);
    SelectMembers(executable, RunsAlone);
    SelectMembers(ops, IsExecutable);
    assert op in RunOrder(Emitted(executable));
  }

  lemma AllMayRun(s: Surroundings, opts: Options, was: seq<Statement>, sent: seq<Statement>, tried: nat,
                  registered: Option<Resolver>)
    requires GatesPassed(s, opts) && tried <= |Plan(s.difference.value)|
    requires sent == was + Statements(Plan(s.difference.value)[..tried], registered)
    ensures forall i :: |was| <= i < |sent| ==> MayRun(sent[i], s, opts)
  {
    forall i | |was| <= i < |sent| ensures MayRun(sent[i], s, opts) {
      SentMayRun(s, opts, tried, registered, i - |was|);
    }
  }

  /** Keeps the plan and the snapshot of a run that went through. */
  method Record(s: Surroundings, opts: Options, plan: Migration, records: Records) returns (outcome: Outcome)
    requires records.archived.None? && !records.snapshotSaved
    modifies records
    ensures outcome.Applied? || outcome.SnapshotNotBuilt? || outcome.SnapshotNotSaved?
    ensures outcome.Applied? <==> opts.noSnapshot || (s.buildsSnapshot && s.savesSnapshot)
    ensures records.archived == if s.archives then Some(plan) else None
    ensures records.snapshotSaved <==> outcome.Applied? && !opts.noSnapshot
  {
    if s.archives {
      records.archived := Some(plan);
    }
    if !opts.noSnapshot {
      if !s.buildsSnapshot {
        return SnapshotNotBuilt;
      }
      if !s.savesSnapshot {
        return SnapshotNotSaved;
      }
      records.snapshotSaved := true;
    }
    outcome := Applied;
  }

  /** Runs the migration of one database. */
  method RunApply(s: Surroundings, opts: Options, conn: Connection, records: Records, registered: Option<Resolver>)
    returns (outcome: Outcome, ghost done: nat, ghost tried: nat)
    requires !conn.inTransaction && records.archived.None? && !records.snapshotSaved
    modifies conn, records
    ensures !conn.inTransaction
    ensures Started(outcome) <==> GatesPassed(s, opts)
    ensures !Started(outcome) ==>
      conn.sent == old(conn.sent) && conn.committed == old(conn.committed) && records.archived.None?
    // what was done and what was sent
    ensures Started(outcome) ==> done <= tried <= |Plan(s.difference.value)|
    ensures Started(outcome) ==>
      && conn.committed == old(conn.committed) + Statements(Plan(s.difference.value)[..done], registered)
      && conn.sent == old(conn.sent) + Statements(Plan(s.difference.value)[..tried], registered)
    ensures Started(outcome) ==>
      GotThrough(Emitted(Select(s.difference.value, IsExecutable)), conn.fails, old(conn.calls), registered,
                 if outcome.Failed? then Some(outcome.failure) else None, done, tried)
    ensures forall i :: |old(conn.sent)| <= i < |conn.sent| ==> MayRun(conn.sent[i], s, opts)
    // what is recorded
    ensures Started(outcome) && !outcome.Failed? ==> done == |Plan(s.difference.value)|
    ensures records.archived.Some? ==>
      Started(outcome) && !outcome.Failed? && records.archived.value == Emitted(s.difference.value)
    ensures records.snapshotSaved <==> outcome.Applied? && !opts.noSnapshot
  {
    done, tried := 0, 0;
    var stop, plan, executable := PassGates(s, opts);
    if stop.Some? {
      return stop.value, 0, 0;
    }
    ghost var sent := conn.sent;
    var migration := Emit(executable);
    var err;
    err, done, tried := Apply(migration, conn, registered);
    AllMayRun(s, opts, sent, conn.sent, tried, registered);
    if err.Some? {
      outcome := Failed(err.value);
      return;
    }
    outcome := Record(s, opts, plan, records);
  }
}
