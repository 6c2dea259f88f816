/** Deferral in rounds: each round takes the deferrable keys of one cycle off the
    objects that the rounds before it left. */
module DeferralRounds {
  import opened Digraph
  import opened Dependencies

  /** A real cycle, without repetitions, that deferral may break. */
  ghost predicate DeferrableCycle(objs: seq<ObjRec>, cycle: seq<nat>) {
    IsCycle(EdgesOf(objs), cycle) && Distinct(cycle) && CanDefer(objs, Elements(cycle))
  }

  /** A real cycle that deferral must not touch. */
  ghost predicate UndeferrableCycle(objs: seq<ObjRec>) {
    exists cycle: seq<nat> :: IsCycle(EdgesOf(objs), cycle) && Distinct(cycle) && !CanDefer(objs, Elements(cycle))
  }

  ghost predicate AreRounds(objs: seq<ObjRec>, cycles: seq<seq<nat>>)
    decreases |cycles|
  {
    cycles != [] ==> DeferrableCycle(objs, cycles[0]) && AreRounds(Strip(objs, Elements(cycles[0])), cycles[1..])
  }

  /** What the rounds leave. */
  ghost function AfterRounds(objs: seq<ObjRec>, cycles: seq<seq<nat>>): seq<ObjRec>
    decreases |cycles|
  {
    if cycles == [] then objs else AfterRounds(Strip(objs, Elements(cycles[0])), cycles[1..])
  }

  lemma NoRounds(objs: seq<ObjRec>)
    ensures AreRounds(objs, []) && AfterRounds(objs, []) == objs
  {
  }

  lemma FirstRound(objs: seq<ObjRec>, cycle: seq<nat>, later: seq<seq<nat>>)
    requires DeferrableCycle(objs, cycle) && AreRounds(Strip(objs, Elements(cycle)), later)
    ensures AreRounds(objs, [cycle] + later)
    ensures AfterRounds(objs, [cycle] + later) == AfterRounds(Strip(objs, Elements(cycle)), later)
  {
    assert ([cycle] + later)[1..] == later;
  }

  lemma {:induction false} RoundsLeaveResidual(objs: seq<ObjRec>, cycles: seq<seq<nat>>)
    ensures Residual(objs, AfterRounds(objs, cycles))
    decreases |cycles|
  {
    if cycles == [] {
      ResidualSelf(objs);
    } else {
      var next := Strip(objs, Elements(cycles[0]));
      ResidualStrip(objs, Elements(cycles[0]));
      RoundsLeaveResidual(next, cycles[1..]);
      ResidualTrans(objs, next, AfterRounds(next, cycles[1..]));
    }
  }

  /** A deferrable foreign key of i that runs inside the cycle of some round, i being in it too. */
  ghost predicate ClosesRound(objs: seq<ObjRec>, cycles: seq<seq<nat>>, i: nat, c: Constraint) {
    exists r {:trigger cycles[r]} ::
      0 <= r < |cycles| && i in cycles[r] && Deferred(IndexOf(objs), Elements(cycles[r]), c)
  }

  lemma RoundSplit(objs: seq<ObjRec>, cycle: set<nat>, i: nat) returns (moved: multiset<Constraint>)
    requires i < |objs| && objs[i].TableRec?
    ensures Strip(objs, cycle)[i].TableRec? && IndexOf(Strip(objs, cycle)) == IndexOf(objs)
    ensures multiset(objs[i].constraints) == multiset(Strip(objs, cycle)[i].constraints) + moved
    ensures forall c :: c in moved ==> i in cycle && Deferred(IndexOf(objs), cycle, c)
  {
    var cs := objs[i].constraints;
    ResidualStrip(objs, cycle);
    SameShapeSameIndex(objs, Strip(objs, cycle));
    StripSplits(IndexOf(objs), cycle, cs);
    MovedMembers(IndexOf(objs), cycle, cs);
    moved := if i in cycle then multiset(MovedConstraints(IndexOf(objs), cycle, cs)) else multiset{};
  }

  lemma LaterRound(objs: seq<ObjRec>, cycles: seq<seq<nat>>, i: nat, c: Constraint)
    requires cycles != [] && IndexOf(Strip(objs, Elements(cycles[0]))) == IndexOf(objs)
    requires ClosesRound(Strip(objs, Elements(cycles[0])), cycles[1..], i, c)
    ensures ClosesRound(objs, cycles, i, c)
  {
    var r :| 0 <= r < |cycles[1..]| && i in cycles[1..][r] && Deferred(IndexOf(objs), Elements(cycles[1..][r]), c);
    assert cycles[r + 1] == cycles[1..][r];
  }

  /** The constraints of a table are those that are left and those that the rounds
      took off, and these are all deferrable and closed a round's cycle. */
  lemma {:induction false} RoundsSplit(objs: seq<ObjRec>, cycles: seq<seq<nat>>, i: nat)
    returns (left: multiset<Constraint>)
    requires i < |objs| && objs[i].TableRec?
    ensures |AfterRounds(objs, cycles)| == |objs| && AfterRounds(objs, cycles)[i].TableRec?
    ensures multiset(objs[i].constraints) == multiset(AfterRounds(objs, cycles)[i].constraints) + left
    ensures forall c :: c in left ==> ClosesRound(objs, cycles, i, c)
    decreases |cycles|
  {
    if cycles == [] {
      return multiset{};
    }
    var moved := RoundSplit(objs, Elements(cycles[0]), i);
    var later := RoundsSplit(Strip(objs, Elements(cycles[0])), cycles[1..], i);
    left := later + moved;
    forall c | c in left ensures ClosesRound(objs, cycles, i, c) {
      if c in later {
        LaterRound(objs, cycles, i, c);
      }
    }
  }

  /** Only deferrable keys that closed a round's cycle can be missing in the end. */
  lemma MissingClosedRound(objs: seq<ObjRec>, cycles: seq<seq<nat>>, i: nat, c: Constraint)
    requires i < |objs| && objs[i].TableRec? && c in objs[i].constraints && !ClosesRound(objs, cycles, i, c)
    ensures |AfterRounds(objs, cycles)| == |objs| && AfterRounds(objs, cycles)[i].TableRec?
    ensures c in AfterRounds(objs, cycles)[i].constraints
  {
    var left := RoundsSplit(objs, cycles, i);
    assert c in multiset(objs[i].constraints);
    assert c in multiset(AfterRounds(objs, cycles)[i].constraints);
  }
}
