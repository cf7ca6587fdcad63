/** A cancel or an interruption can land between a claim and the dispatch's closing write, which
    is unconditional (`executions.py`, `dispatch`). This is exactly when a finished run comes
    back, and what it does to the limits. */
module RunRevival {
  import opened Wrappers
  import opened Executions
  import opened RunProtocol
  import opened RunQuota

  /** A dispatch writes a different status onto a row that has ended. */
  predicate Overwrites(s: State, step: Step) {
    match step
    case Finish(w, e, landed, ref, hearing, at) =>
      && e in s.rows && s.rows[e].status.IsTerminal()
      && hearing != Failure && !(hearing.Rejection? && s.rows[e].status == FailedToStart)
    case _ => false
  }

  /** Every row that has ended keeps its status. */
  ghost predicate EndingsKept(before: Rows, after: Rows) {
    forall e :: e in before && before[e].status.IsTerminal() ==> e in after && after[e].status == before[e].status
  }

  lemma TxnStepKeepsRows(cfg: Config, s: State, step: Step, s': State)
    requires IdsKnown(s) && !IsRowStep(step) && Apply(cfg, s, step) == Some(s')
    ensures forall e :: e in s.rows ==> e in s'.rows && s'.rows[e] == s.rows[e]
  {
  }

  /** A step keeps all endings exactly when it is no dispatch write onto an ended row. */
  lemma StepKeepsEndingsIff(cfg: Config, s: State, step: Step, s': State)
    requires IdsKnown(s) && Apply(cfg, s, step) == Some(s')
    ensures EndingsKept(s.rows, s'.rows) <==> !Overwrites(s, step)
  {
    if IsRowStep(step) {
      RowStepWrites(cfg, s, step, s');
      forall e | e in s.rows && s.rows[e].status.IsTerminal()
        ensures s'.rows[e].status == s.rows[e].status <==> !(Overwrites(s, step) && e == step.e)
      {
        EndedRowAfter(cfg, s, step, s', e);
      }
    } else {
      TxnStepKeepsRows(cfg, s, step, s');
    }
  }

  lemma EndedRowAfter(cfg: Config, s: State, step: Step, s': State, e: nat)
    requires IsRowStep(step) && Apply(cfg, s, step) == Some(s') && e in s.rows && s.rows[e].status.IsTerminal()
    ensures s'.rows[e].status == s.rows[e].status <==> !(Overwrites(s, step) && e == step.e)
  {
  }

  /** Over a whole run, finished executions stay finished exactly when no dispatch wrote onto a
      finished row. */
  lemma RunKeepsEndingsIff(cfg: Config, steps: seq<Step>)
    requires RunOf(cfg, steps).Some?
    ensures (forall i, j :: 0 <= i <= j <= |steps| && RunOf(cfg, steps[..i]).Some? && RunOf(cfg, steps[..j]).Some? ==>
               EndingsKept(RunOf(cfg, steps[..i]).value.rows, RunOf(cfg, steps[..j]).value.rows))
      <==> (forall i :: 0 <= i < |steps| && RunOf(cfg, steps[..i]).Some? ==> !Overwrites(RunOf(cfg, steps[..i]).value, steps[i]))
  {
    forall i | 0 <= i <= |steps| ensures RunOf(cfg, steps[..i]).Some? {
      PrefixRuns(cfg, steps, i);
    }
    if forall i :: 0 <= i < |steps| && RunOf(cfg, steps[..i]).Some? ==> !Overwrites(RunOf(cfg, steps[..i]).value, steps[i]) {
      forall i, j | 0 <= i <= j <= |steps|
        ensures EndingsKept(RunOf(cfg, steps[..i]).value.rows, RunOf(cfg, steps[..j]).value.rows)
      {
        EndingsKeptBetween(cfg, steps, i, j);
      }
    }
    if i :| 0 <= i < |steps| && Overwrites(RunOf(cfg, steps[..i]).value, steps[i]) {
      NextState(cfg, steps, i);
      ReachableOrderly(cfg, steps[..i]);
      StepKeepsEndingsIff(cfg, RunOf(cfg, steps[..i]).value, steps[i], RunOf(cfg, steps[..i + 1]).value);
    }
  }

  lemma {:induction false} PrefixRuns(cfg: Config, steps: seq<Step>, i: nat)
    requires RunOf(cfg, steps).Some? && i <= |steps|
    ensures RunOf(cfg, steps[..i]).Some?
  {
    if i == |steps| {
      assert steps[..i] == steps;
    } else {
      var n := |steps| - 1;
      assert steps[..n][..i] == steps[..i];
      PrefixRuns(cfg, steps[..n], i);
    }
  }

  lemma NextState(cfg: Config, steps: seq<Step>, i: nat)
    requires RunOf(cfg, steps).Some? && i < |steps|
    ensures RunOf(cfg, steps[..i]).Some? && RunOf(cfg, steps[..i + 1]).Some?
    ensures Apply(cfg, RunOf(cfg, steps[..i]).value, steps[i]) == RunOf(cfg, steps[..i + 1])
  {
    PrefixRuns(cfg, steps, i);
    PrefixRuns(cfg, steps, i + 1);
    assert steps[..i + 1][..i] == steps[..i];
  }

  lemma {:induction false} EndingsKeptBetween(cfg: Config, steps: seq<Step>, i: nat, j: nat)
    requires RunOf(cfg, steps).Some? && i <= j <= |steps|
    requires forall k :: 0 <= k < |steps| && RunOf(cfg, steps[..k]).Some? ==> !Overwrites(RunOf(cfg, steps[..k]).value, steps[k])
    ensures RunOf(cfg, steps[..i]).Some? && RunOf(cfg, steps[..j]).Some?
    ensures EndingsKept(RunOf(cfg, steps[..i]).value.rows, RunOf(cfg, steps[..j]).value.rows)
    decreases j
  {
    PrefixRuns(cfg, steps, j);
    if i < j {
      EndingsKeptBetween(cfg, steps, i, j - 1);
      EndingsKeptAt(cfg, steps, j - 1);
      EndingsKeptOn(RunOf(cfg, steps[..i]).value.rows, RunOf(cfg, steps[..j - 1]).value.rows, RunOf(cfg, steps[..j]).value.rows);
    }
  }

  lemma EndingsKeptAt(cfg: Config, steps: seq<Step>, k: nat)
    requires RunOf(cfg, steps).Some? && k < |steps|
    requires RunOf(cfg, steps[..k]).Some? ==> !Overwrites(RunOf(cfg, steps[..k]).value, steps[k])
    ensures RunOf(cfg, steps[..k]).Some? && RunOf(cfg, steps[..k + 1]).Some?
    ensures EndingsKept(RunOf(cfg, steps[..k]).value.rows, RunOf(cfg, steps[..k + 1]).value.rows)
  {
    NextState(cfg, steps, k);
    ReachableOrderly(cfg, steps[..k]);
    StepKeepsEndingsIff(cfg, RunOf(cfg, steps[..k]).value, steps[k], RunOf(cfg, steps[..k + 1]).value);
  }

  lemma EndingsKeptOn(a: Rows, b: Rows, c: Rows)
    requires EndingsKept(a, b) && EndingsKept(b, c)
    ensures EndingsKept(a, c)
  {
  }

  // ---- what a revival does to the limits ----

  lemma RevivedCounts(before: Rows, after: Rows, e: nat, ws: string, wf: string)
    requires e in before && e in after && after == before[e := after[e]] && SameIdentity(before[e], after[e])
    requires !before[e].status.IsActive() && after[e].status.IsActive()
    ensures e !in ActiveIn(before, ws, wf) && e !in ActiveInWorkspace(before, ws)
    ensures ActiveIn(after, ws, wf) ==
      ActiveIn(before, ws, wf) + (if before[e].workspace == ws && before[e].workflow == wf then {e} else {})
    ensures ActiveInWorkspace(after, ws) == ActiveInWorkspace(before, ws) + (if before[e].workspace == ws then {e} else {})
  {
  }

  /** A revival keeps the limits exactly when there is room for one more run of that workflow. */
  lemma RevivalKeepsLimitsIff(cfg: Config, s: State, step: Step, s': State, req: Request)
    requires WithinLimits(cfg, s.rows) && Revives(s, step) && Apply(cfg, s, step) == Some(s')
    requires req.workspace == s.rows[step.e].workspace && req.workflow == s.rows[step.e].workflow
    ensures WithinLimits(cfg, s'.rows) <==> HasRoom(cfg, s.rows, req)
  {
    var e := step.e;
    StatusPartition(s.rows[e].status);
    assert s'.rows == s.rows[e := s'.rows[e]] && s'.rows[e].status.IsActive();
    RevivedCounts(s.rows, s'.rows, e, req.workspace, req.workflow);
    if HasRoom(cfg, s.rows, req) {
      forall ws, wf ensures |ActiveIn(s'.rows, ws, wf)| <= cfg.perWorkflow && |ActiveInWorkspace(s'.rows, ws)| <= cfg.ceiling(ws) {
        RevivedCounts(s.rows, s'.rows, e, ws, wf);
        assert |ActiveIn(s.rows, ws, wf)| <= cfg.perWorkflow && |ActiveInWorkspace(s.rows, ws)| <= cfg.ceiling(ws);
      }
      forall ws ensures |ActiveInWorkspace(s'.rows, ws)| <= cfg.ceiling(ws) {
        assert |ActiveIn(s'.rows, ws, "")| <= cfg.perWorkflow && |ActiveInWorkspace(s'.rows, ws)| <= cfg.ceiling(ws);
      }
    }
  }

  // ---- a run that breaks the limit ----

  lemma RunThen(cfg: Config, steps: seq<Step>, step: Step, s: State, s': State)
    requires RunOf(cfg, steps) == Some(s) && Apply(cfg, s, step) == Some(s')
    ensures RunOf(cfg, steps + [step]) == Some(s')
  {
  }

  function CallSteps(t: nat, req: Request): seq<Step> {
    [Begin(t), Lookup(t, req), Lock(t), Check(t), Insert(t), Commit(t)]
  }

  /** A lone transaction that has counted. */
  function Counting(cfg: Config, s: State, t: nat, req: Request): State {
    s.(txns := map[t := Txn(Counted(req), map[], {cfg.lockOf(req.workspace)}, [])])
  }

  lemma LoneCallCounts(cfg: Config, steps: seq<Step>, s: State, t: nat, req: Request)
    requires RunOf(cfg, steps) == Some(s) && s.txns == map[] && req.key == None && HasRoom(cfg, s.rows, req)
    ensures RunOf(cfg, steps + [Begin(t)] + [Lookup(t, req)] + [Lock(t)] + [Check(t)]) == Some(Counting(cfg, s, t, req))
  {
    var s1 := s.(txns := s.txns[t := Txn(Idle, map[], {}, [])]);
    var s2 := Moved(s1, t, LookedUp(req));
    var s3 := s2.(txns := s2.txns[t := s2.txns[t].(phase := Locked(req), locks := s2.txns[t].locks + {cfg.lockOf(req.workspace)})]);
    var s4 := Moved(s3, t, Counted(req));
    assert s3.Visible(t) == s.rows;
    assert s4.txns == Counting(cfg, s, t, req).txns;
    RunThen(cfg, steps, Begin(t), s, s1);
    RunThen(cfg, steps + [Begin(t)], Lookup(t, req), s1, s2);
    RunThen(cfg, steps + [Begin(t)] + [Lookup(t, req)], Lock(t), s2, s3);
    RunThen(cfg, steps + [Begin(t)] + [Lookup(t, req)] + [Lock(t)], Check(t), s3, s4);
  }

  lemma LoneInsertCommits(cfg: Config, steps: seq<Step>, s: State, t: nat, req: Request)
    requires RunOf(cfg, steps) == Some(Counting(cfg, s, t, req)) && s.txns == map[] && req.key == None && req.valid
    ensures RunOf(cfg, steps + [Insert(t)] + [Commit(t)]) == Some(s.(
      rows := s.rows[s.nextId := FreshRow(req.workspace, req.workflow, None, req.at)],
      nextId := s.nextId + 1,
      results := s.results + [Returned(req, s.nextId)]))
  {
    var s4 := Counting(cfg, s, t, req);
    var s5 := DoInsert(s4, t).value;
    assert s5.txns[t].pending == map[s.nextId := FreshRow(req.workspace, req.workflow, None, req.at)];
    assert s5.txns[t].answers == [Returned(req, s.nextId)];
    var s6 := DoCommit(s5, t).value;
    assert s6.txns == map[];
    assert s6.rows == s.rows[s.nextId := FreshRow(req.workspace, req.workflow, None, req.at)];
    RunThen(cfg, steps, Insert(t), s4, s5);
    RunThen(cfg, steps + [Insert(t)], Commit(t), s5, s6);
  }

  /** A call without a key, run alone where there is room, commits one queued row. */
  lemma LoneCallInserts(cfg: Config, steps: seq<Step>, s: State, t: nat, req: Request)
    requires RunOf(cfg, steps) == Some(s) && s.txns == map[] && req.key == None && req.valid && HasRoom(cfg, s.rows, req)
    ensures RunOf(cfg, steps + CallSteps(t, req)) == Some(s.(
      rows := s.rows[s.nextId := FreshRow(req.workspace, req.workflow, None, req.at)],
      nextId := s.nextId + 1,
      results := s.results + [Returned(req, s.nextId)]))
  {
    LoneCallCounts(cfg, steps, s, t, req);
    LoneInsertCommits(cfg, steps + [Begin(t)] + [Lookup(t, req)] + [Lock(t)] + [Check(t)], s, t, req);
    assert steps + CallSteps(t, req) ==
      steps + [Begin(t)] + [Lookup(t, req)] + [Lock(t)] + [Check(t)] + [Insert(t)] + [Commit(t)];
  }

  /** Claimed, then cancelled before the dispatch wrote anything. */
  function Ended(row: Row): Row {
    CancelledByUser(Claimed(row), Unreachable, 1)
  }

  lemma ClaimThenCancel(cfg: Config, steps: seq<Step>, s: State, row: Row)
    requires RunOf(cfg, steps) == Some(s) && 0 in s.rows && s.rows[0] == row && row.status == Queued && row.engineRef.None?
    ensures RunOf(cfg, steps + [Claim(7, 0), Step.Cancel(0, Unreachable, 1)]) ==
      Some(s.(rows := s.rows[0 := Ended(row)], hands := s.hands[7 := s.Hand(7) + {0}]))
    ensures Ended(row).status == Cancelled && SameIdentity(Ended(row), row)
  {
    var claim, cancel := Claim(7, 0), Step.Cancel(0, Unreachable, 1);
    var s1 := s.(rows := s.rows[0 := Claimed(row)], hands := s.hands[7 := s.Hand(7) + {0}]);
    var s2 := s.(rows := s.rows[0 := Ended(row)], hands := s.hands[7 := s.Hand(7) + {0}]);
    assert s1.rows[0 := Ended(row)] == s2.rows;
    RunThen(cfg, steps, claim, s, s1);
    RunThen(cfg, steps + [claim], cancel, s1, s2);
    assert steps + [claim, cancel] == steps + [claim] + [cancel];
  }

  /** The engine took the run, and the dispatch writes RUNNING. */
  const ACCEPT := Finish(7, 0, true, "r", Heard, 2)

  /** With one run allowed per workflow: run 0 is claimed, cancelled before its dispatch ends, run 1
      is admitted in its place, and the RUNNING write of the dispatch then brings run 0 back. */
  lemma CancelledRunComesBack(cfg: Config, req: Request) returns (steps: seq<Step>)
    requires cfg.perWorkflow == 1 && cfg.ceiling(req.workspace) >= 1 && req.key == None && req.valid
    ensures RunOf(cfg, steps).Some?
    ensures ActiveIn(RunOf(cfg, steps).value.rows, req.workspace, req.workflow) == {0, 1}
  {
    var row := FreshRow(req.workspace, req.workflow, None, req.at);
    assert ActiveIn(EMPTY.rows, req.workspace, req.workflow) == {} && ActiveInWorkspace(EMPTY.rows, req.workspace) == {};
    LoneCallInserts(cfg, [], EMPTY, 0, req);
    var first := [] + CallSteps(0, req);
    var s1 := RunOf(cfg, first).value;
    ClaimThenCancel(cfg, first, s1, row);
    var second := first + [Claim(7, 0), Step.Cancel(0, Unreachable, 1)];
    var s2 := RunOf(cfg, second).value;
    assert s2.rows == map[0 := Ended(row)];
    assert ActiveIn(s2.rows, req.workspace, req.workflow) == {} && ActiveInWorkspace(s2.rows, req.workspace) == {};
    LoneCallInserts(cfg, second, s2, 1, req);
    steps := second + CallSteps(1, req) + [ACCEPT];
    ReviveLast(cfg, second + CallSteps(1, req), RunOf(cfg, second + CallSteps(1, req)).value, row, req);
  }

  lemma ReviveLast(cfg: Config, steps: seq<Step>, s: State, row: Row, req: Request)
    requires RunOf(cfg, steps) == Some(s) && 0 in s.Hand(7)
    requires row == FreshRow(req.workspace, req.workflow, None, req.at) && s.rows == map[0 := Ended(row), 1 := row]
    ensures RunOf(cfg, steps + [ACCEPT]).Some?
    ensures ActiveIn(RunOf(cfg, steps + [ACCEPT]).value.rows, req.workspace, req.workflow) == {0, 1}
  {
    var s' := DoFinish(s, 7, 0, true, "r", Heard, 2).value;
    RunThen(cfg, steps, ACCEPT, s, s');
  }
}
