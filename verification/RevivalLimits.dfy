/** When a finished run that comes back breaks the concurrency limits, now or later
    (`executions.py`, `dispatch` and `create`). */
module RevivalLimits {
  import opened Wrappers
  import opened Executions
  import opened RunProtocol
  import opened RunQuota
  import opened RunRevival
  import opened Sets

  // ---- continuations ----

  ghost function RunFrom(cfg: Config, s: State, steps: seq<Step>): Option<State> {
    if steps == [] then Some(s) else
      var before := RunFrom(cfg, s, steps[..|steps| - 1]);
      if before.None? then None else Apply(cfg, before.value, steps[|steps| - 1])
  }

  ghost predicate NoRevivalFrom(cfg: Config, s: State, steps: seq<Step>) {
    forall i :: 0 <= i < |steps| && RunFrom(cfg, s, steps[..i]).Some? ==> !Revives(RunFrom(cfg, s, steps[..i]).value, steps[i])
  }

  ghost predicate IsContinuation(cfg: Config, s: State, steps: seq<Step>, last: State) {
    RunFrom(cfg, s, steps) == Some(last) && NoRevivalFrom(cfg, s, steps)
  }

  /** Some steps without a revival lead there. */
  ghost predicate Leads(cfg: Config, s: State, last: State) {
    exists steps :: IsContinuation(cfg, s, steps, last)
  }

  /** Whatever happens next short of another revival, the committed runs are within the limits. */
  ghost predicate StaysWithin(cfg: Config, s: State) {
    forall last :: Leads(cfg, s, last) ==> WithinLimits(cfg, last.rows)
  }

  lemma LeadsToItself(cfg: Config, s: State)
    ensures Leads(cfg, s, s)
  {
    assert IsContinuation(cfg, s, [], s);
  }

  lemma LeadsOn(cfg: Config, s: State, mid: State, step: Step, next: State)
    requires Leads(cfg, s, mid) && Apply(cfg, mid, step) == Some(next) && !Revives(mid, step)
    ensures Leads(cfg, s, next)
  {
    var steps :| IsContinuation(cfg, s, steps, mid);
    var longer := steps + [step];
    assert longer[..|steps|] == steps;
    assert forall i :: 0 <= i < |steps| ==> longer[..i] == steps[..i];
    assert IsContinuation(cfg, s, longer, next);
  }

  /** The limits' invariant lasts through every continuation. */
  lemma {:induction false} QuotaLasts(cfg: Config, s: State, steps: seq<Step>, last: State)
    requires Orderly(cfg, s) && QuotaKept(cfg, s) && IsContinuation(cfg, s, steps, last)
    ensures Orderly(cfg, last) && QuotaKept(cfg, last)
    decreases |steps|
  {
    if steps != [] {
      var n := |steps| - 1;
      var mid := RunFrom(cfg, s, steps[..n]).value;
      assert forall i :: 0 <= i <= n ==> steps[..n][..i] == steps[..i];
      QuotaLasts(cfg, s, steps[..n], mid);
      StepKeepsOrder(cfg, mid, steps[n], last);
      StepKeepsQuota(cfg, mid, steps[n], last);
    }
  }

  // ---- every open transaction can land ----

  /** All of these rows, as they are. */
  ghost predicate Holds(rows: Rows, view: Rows) {
    forall e :: e in view ==> e in rows && rows[e] == view[e]
  }

  /** The rows `t` sees are committed, and the one it was about to insert with them. */
  ghost predicate Landed(s: State, t: nat, last: State)
    requires t in s.txns
  {
    && Holds(last.rows, s.Visible(t))
    && (CanInsert(s, t) ==>
          var req := s.txns[t].phase.req;
          && s.nextId in last.rows && last.rows[s.nextId] == FreshRow(req.workspace, req.workflow, req.key, req.at))
  }

  lemma LandIdle(cfg: Config, from: State, s: State, t: nat) returns (last: State)
    requires Leads(cfg, from, s) && t in s.txns && s.txns[t].phase == Idle
    ensures Leads(cfg, from, last) && last.rows == s.Visible(t)
  {
    last := DoCommit(s, t).value;
    LeadsOn(cfg, from, s, Commit(t), last);
  }

  /** A lock holder is alone in its workspace, so no other insert can hold its key. */
  lemma NoRivalKey(cfg: Config, s: State, t: nat, u: nat, req: Request)
    requires Orderly(cfg, s) && t in s.txns && u in s.txns && t != u && cfg.lockOf(req.workspace) in s.txns[t].locks
    ensures FindKey(s.txns[u].pending, req).None?
  {
    var found := FindKey(s.txns[u].pending, req);
    if found.Some? {
      PendingIsLocked(cfg, s, u, found.value);
      LockIsExclusive(cfg, s, t, u, cfg.lockOf(req.workspace));
    }
  }

  /** What the insert of a counted call does: a row if it can, else an answer, unless the key is empty. */
  lemma InsertGoesOn(cfg: Config, s: State, t: nat) returns (next: State)
    requires Orderly(cfg, s) && t in s.txns && s.txns[t].phase.Counted?
    requires CanInsert(s, t) || s.txns[t].phase.req.key != Some("")
    ensures DoInsert(s, t) == Some(next) && t in next.txns && next.txns[t].phase == Idle
    ensures CanInsert(s, t) ==> next.nextId != s.nextId
    ensures !CanInsert(s, t) ==> next.Visible(t) == s.Visible(t)
  {
    var req := s.txns[t].phase.req;
    forall u | u in s.txns && u != t ensures FindKey(s.txns[u].pending, req).None? {
      NoRivalKey(cfg, s, t, u, req);
    }
    next := DoInsert(s, t).value;
  }

  lemma LandCounted(cfg: Config, from: State, s: State, t: nat) returns (last: State)
    requires Leads(cfg, from, s) && Orderly(cfg, s) && t in s.txns && s.txns[t].phase.Counted?
    requires CanInsert(s, t) || s.txns[t].phase.req.key != Some("")
    ensures Leads(cfg, from, last) && Landed(s, t, last)
  {
    var next := InsertGoesOn(cfg, s, t);
    LeadsOn(cfg, from, s, Insert(t), next);
    last := LandIdle(cfg, from, next, t);
    if CanInsert(s, t) {
      VisibleAfterInsert(s, t, next);
    }
  }

  /** A check either counts the call or answers it. */
  lemma CheckGoesOn(cfg: Config, s: State, t: nat) returns (next: State)
    requires t in s.txns && s.txns[t].phase.Locked?
    ensures DoCheck(cfg, s, t) == Some(next) && t in next.txns && next.Visible(t) == s.Visible(t)
    ensures next.txns[t].phase == Idle || next.txns[t].phase == Counted(s.txns[t].phase.req)
  {
    next := DoCheck(cfg, s, t).value;
  }

  lemma LandLocked(cfg: Config, from: State, s: State, t: nat) returns (last: State)
    requires Leads(cfg, from, s) && Orderly(cfg, s) && t in s.txns && s.txns[t].phase.Locked?
    requires s.txns[t].phase.req.key != Some("")
    ensures Leads(cfg, from, last) && Holds(last.rows, s.Visible(t))
  {
    var next := CheckGoesOn(cfg, s, t);
    StepKeepsOrder(cfg, s, Check(t), next);
    LeadsOn(cfg, from, s, Check(t), next);
    if next.txns[t].phase.Counted? {
      last := LandCounted(cfg, from, next, t);
    } else {
      last := LandIdle(cfg, from, next, t);
    }
  }

  /** Whoever holds the lock `t` waits for can give up. */
  lemma LockBecomesFree(cfg: Config, from: State, s: State, t: nat, lock: int) returns (free: State)
    requires Leads(cfg, from, s) && Orderly(cfg, s) && t in s.txns
    ensures Leads(cfg, from, free) && Orderly(cfg, free) && t in free.txns && free.txns[t] == s.txns[t] && free.rows == s.rows
    ensures forall u :: u in free.txns && u != t ==> lock !in free.txns[u].locks
  {
    if u :| u in s.txns && u != t && lock in s.txns[u].locks {
      free := s.(txns := s.txns - {u});
      EndKeepsOrder(cfg, s, u, free);
      LeadsOn(cfg, from, s, Abort(u), free);
      forall v | v in free.txns && v != t ensures lock !in free.txns[v].locks {
        LockIsExclusive(cfg, s, u, v, lock);
      }
    } else {
      free := s;
    }
  }

  lemma LandLookedUp(cfg: Config, from: State, s: State, t: nat) returns (last: State)
    requires Leads(cfg, from, s) && Orderly(cfg, s) && t in s.txns && s.txns[t].phase.LookedUp?
    requires s.txns[t].phase.req.key != Some("")
    ensures Leads(cfg, from, last) && Holds(last.rows, s.Visible(t))
  {
    var free := LockBecomesFree(cfg, from, s, t, cfg.lockOf(s.txns[t].phase.req.workspace));
    var next := DoLock(cfg, free, t).value;
    LockKeepsOrder(cfg, free, t, next);
    LeadsOn(cfg, from, free, Lock(t), next);
    assert next.Visible(t) == s.Visible(t);
    last := LandLocked(cfg, from, next, t);
  }

  /** Its call, if it is in one, is not under an empty key, on which the unique index would poison it. */
  predicate NotBlank(s: State, t: nat)
    requires t in s.txns
  {
    match s.txns[t].phase
    case Idle => true
    case Poisoned => false
    case LookedUp(req) => req.key != Some("")
    case Locked(req) => req.key != Some("")
    case Counted(req) => req.key != Some("")
  }

  lemma Lands(cfg: Config, s: State, t: nat) returns (last: State)
    requires Orderly(cfg, s) && t in s.txns && (NotBlank(s, t) || CanInsert(s, t))
    ensures Leads(cfg, s, last) && Landed(s, t, last)
  {
    LeadsToItself(cfg, s);
    match s.txns[t].phase {
      case Idle => last := LandIdle(cfg, s, s, t);
      case LookedUp(_) => last := LandLookedUp(cfg, s, s, t);
      case Locked(_) => last := LandLocked(cfg, s, s, t);
      case Counted(_) => last := LandCounted(cfg, s, s, t);
    }
  }

  // ---- room ----

  predicate RoomFor(cfg: Config, rows: Rows, ws: string, wf: string, n: nat) {
    |ActiveIn(rows, ws, wf)| + n <= cfg.perWorkflow && |ActiveInWorkspace(rows, ws)| + n <= cfg.ceiling(ws)
  }

  /** Room for one more run of this workflow in what `t` would commit, beside the run it may be
      about to insert. */
  ghost predicate RoomBeside(cfg: Config, s: State, t: nat, ws: string, wf: string)
    requires t in s.txns
  {
    && RoomFor(cfg, s.Visible(t), ws, wf, 1)
    && (CanInsert(s, t) && s.txns[t].phase.req.workspace == ws ==>
          && |ActiveInWorkspace(s.Visible(t), ws)| + 2 <= cfg.ceiling(ws)
          && (s.txns[t].phase.req.workflow == wf ==> |ActiveIn(s.Visible(t), ws, wf)| + 2 <= cfg.perWorkflow))
  }

  /** Room for one more run in the committed table and beside every open transaction. */
  ghost predicate RoomToRevive(cfg: Config, s: State, ws: string, wf: string) {
    RoomFor(cfg, s.rows, ws, wf, 1) && forall t :: t in s.txns ==> RoomBeside(cfg, s, t, ws, wf)
  }

  /** A transaction that has rows to commit is in no call under an empty key. The one caller that
      makes several calls in a transaction, the scheduler's tick, passes no key. */
  predicate BlankKeysAlone(s: State) {
    forall t :: t in s.txns && !NotBlank(s, t) ==> s.txns[t].pending == map[]
  }

  /** One row of the table turns active again and nothing else changes. */
  ghost predicate Revived(s: State, e: nat, s': State) {
    && e in s.rows && e in s'.rows && s' == s.(rows := s.rows[e := s'.rows[e]], hands := s'.hands, engine := s'.engine)
    && SameIdentity(s.rows[e], s'.rows[e]) && !s.rows[e].status.IsActive() && s'.rows[e].status.IsActive()
  }

  lemma RevivalIsThat(cfg: Config, s: State, step: Step, s': State)
    requires Revives(s, step) && Apply(cfg, s, step) == Some(s')
    ensures Revived(s, step.e, s')
  {
    StatusPartition(s.rows[step.e].status);
  }

  /** What `t` sees after the revival. */
  lemma RevivedView(s: State, e: nat, s': State, t: nat)
    requires IdsKnown(s) && Revived(s, e, s') && t in s.txns
    ensures s'.Visible(t) == s.Visible(t)[e := s'.rows[e]] && e in s.Visible(t) && s.Visible(t)[e] == s.rows[e]
    ensures KeepsIdentities(s.Visible(t), s'.Visible(t)) && KeepsIdentities(s'.Visible(t), s.Visible(t))
  {
  }

  lemma CanInsertStays(s: State, e: nat, s': State, t: nat)
    requires IdsKnown(s) && Revived(s, e, s') && t in s.txns
    ensures CanInsert(s', t) <==> CanInsert(s, t)
  {
    RevivedView(s, e, s', t);
    if s.txns[t].phase.Counted? {
      var req := s.txns[t].phase.req;
      if FindKey(s.Visible(t), req).None? {
        FoundStaysFound(s'.Visible(t), s.Visible(t), req);
      }
      if FindKey(s'.Visible(t), req).None? {
        FoundStaysFound(s.Visible(t), s'.Visible(t), req);
      }
    }
  }

  // ---- enough room keeps every later state within the limits ----

  lemma RoomKeepsTable(cfg: Config, before: Rows, e: nat, row: Row)
    requires WithinLimits(cfg, before) && e in before && SameIdentity(before[e], row)
    requires !before[e].status.IsActive() && row.status.IsActive()
    requires RoomFor(cfg, before, before[e].workspace, before[e].workflow, 1)
    ensures WithinLimits(cfg, before[e := row])
  {
    var after := before[e := row];
    forall ws, wf ensures |ActiveIn(after, ws, wf)| <= cfg.perWorkflow && |ActiveInWorkspace(after, ws)| <= cfg.ceiling(ws) {
      RevivedCounts(before, after, e, ws, wf);
      assert |ActiveIn(before, ws, wf)| <= cfg.perWorkflow && |ActiveInWorkspace(before, ws)| <= cfg.ceiling(ws);
    }
    forall ws ensures |ActiveInWorkspace(after, ws)| <= cfg.ceiling(ws) {
      assert |ActiveIn(after, ws, "")| <= cfg.perWorkflow && |ActiveInWorkspace(after, ws)| <= cfg.ceiling(ws);
    }
  }

  lemma RoomKeepsTxn(cfg: Config, s: State, e: nat, s': State, t: nat)
    requires IdsKnown(s) && QuotaKept(cfg, s) && Revived(s, e, s') && t in s.txns
    requires RoomBeside(cfg, s, t, s.rows[e].workspace, s.rows[e].workflow)
    ensures WithinLimits(cfg, s'.Visible(t)) && RoomKept(cfg, s', t)
  {
    RevivedView(s, e, s', t);
    RoomKeepsTable(cfg, s.Visible(t), e, s'.rows[e]);
    CanInsertStays(s, e, s', t);
    if CanInsert(s, t) {
      var req := s.txns[t].phase.req;
      assert RoomKept(cfg, s, t);
      RevivedCounts(s.Visible(t), s'.Visible(t), e, req.workspace, req.workflow);
    }
  }

  lemma RoomKeepsQuota(cfg: Config, s: State, e: nat, s': State)
    requires IdsKnown(s) && QuotaKept(cfg, s) && Revived(s, e, s')
    requires RoomToRevive(cfg, s, s.rows[e].workspace, s.rows[e].workflow)
    ensures QuotaKept(cfg, s')
  {
    RoomKeepsTable(cfg, s.rows, e, s'.rows[e]);
    forall t | t in s'.txns ensures WithinLimits(cfg, s'.Visible(t)) && RoomKept(cfg, s', t) {
      RoomKeepsTxn(cfg, s, e, s', t);
    }
  }

  // ---- too little room is used up by what is already under way ----

  lemma HoldsCounts(rows: Rows, view: Rows, ws: string, wf: string)
    requires Holds(rows, view)
    ensures |ActiveIn(view, ws, wf)| <= |ActiveIn(rows, ws, wf)|
    ensures |ActiveInWorkspace(view, ws)| <= |ActiveInWorkspace(rows, ws)|
  {
    SubsetSize(ActiveIn(view, ws, wf), ActiveIn(rows, ws, wf));
    SubsetSize(ActiveInWorkspace(view, ws), ActiveInWorkspace(rows, ws));
  }

  lemma RevivedRoom(cfg: Config, before: Rows, e: nat, row: Row, rows: Rows)
    requires e in before && SameIdentity(before[e], row) && !before[e].status.IsActive() && row.status.IsActive()
    requires WithinLimits(cfg, rows) && Holds(rows, before[e := row])
    ensures RoomFor(cfg, before, before[e].workspace, before[e].workflow, 1)
  {
    var ws, wf := before[e].workspace, before[e].workflow;
    RevivedCounts(before, before[e := row], e, ws, wf);
    HoldsCounts(rows, before[e := row], ws, wf);
  }

  lemma InsertedRoom(cfg: Config, before: Rows, e: nat, row: Row, id: nat, req: Request, rows: Rows)
    requires e in before && SameIdentity(before[e], row) && !before[e].status.IsActive() && row.status.IsActive()
    requires WithinLimits(cfg, rows) && id !in before && req.workspace == before[e].workspace
    requires Holds(rows, before[e := row][id := FreshRow(req.workspace, req.workflow, req.key, req.at)])
    ensures |ActiveInWorkspace(before, req.workspace)| + 2 <= cfg.ceiling(req.workspace)
    ensures req.workflow == before[e].workflow ==> |ActiveIn(before, req.workspace, req.workflow)| + 2 <= cfg.perWorkflow
  {
    var ws, wf := before[e].workspace, before[e].workflow;
    RevivedCounts(before, before[e := row], e, ws, wf);
    NewRowCounts(before[e := row], req, id, ws, wf);
    HoldsCounts(rows, before[e := row][id := FreshRow(req.workspace, req.workflow, req.key, req.at)], ws, wf);
  }

  lemma LandedViewNeedsRoom(cfg: Config, s: State, e: nat, s': State, t: nat, last: State)
    requires IdsKnown(s) && Revived(s, e, s') && t in s.txns
    requires Holds(last.rows, s'.Visible(t)) && WithinLimits(cfg, last.rows)
    ensures RoomFor(cfg, s.Visible(t), s.rows[e].workspace, s.rows[e].workflow, 1)
  {
    RevivedView(s, e, s', t);
    RevivedRoom(cfg, s.Visible(t), e, s'.rows[e], last.rows);
  }

  lemma LandedInsertNeedsRoom(cfg: Config, s: State, e: nat, s': State, t: nat, last: State)
    requires IdsKnown(s) && Revived(s, e, s') && t in s.txns && CanInsert(s', t) && Landed(s', t, last)
    requires WithinLimits(cfg, last.rows) && s.txns[t].phase.req.workspace == s.rows[e].workspace
    ensures |ActiveInWorkspace(s.Visible(t), s.rows[e].workspace)| + 2 <= cfg.ceiling(s.rows[e].workspace)
    ensures s.txns[t].phase.req.workflow == s.rows[e].workflow ==>
      |ActiveIn(s.Visible(t), s.rows[e].workspace, s.rows[e].workflow)| + 2 <= cfg.perWorkflow
  {
    RevivedView(s, e, s', t);
    InsertedRoom(cfg, s.Visible(t), e, s'.rows[e], s.nextId, s.txns[t].phase.req, last.rows);
  }

  lemma LandingNeedsRoom(cfg: Config, s: State, e: nat, s': State, t: nat)
    requires Orderly(cfg, s) && Orderly(cfg, s') && Revived(s, e, s') && t in s.txns && StaysWithin(cfg, s')
    requires NotBlank(s, t) || CanInsert(s, t)
    ensures RoomBeside(cfg, s, t, s.rows[e].workspace, s.rows[e].workflow)
  {
    CanInsertStays(s, e, s', t);
    var last := Lands(cfg, s', t);
    LandedViewNeedsRoom(cfg, s, e, s', t, last);
    if CanInsert(s, t) && s.txns[t].phase.req.workspace == s.rows[e].workspace {
      LandedInsertNeedsRoom(cfg, s, e, s', t, last);
    }
  }

  /** A transaction with nothing of its own shows the table. */
  lemma TableNeedsRoom(cfg: Config, s: State, t: nat, ws: string, wf: string)
    requires t in s.txns && s.txns[t].pending == map[] && !CanInsert(s, t) && RoomFor(cfg, s.rows, ws, wf, 1)
    ensures RoomBeside(cfg, s, t, ws, wf)
  {
    assert s.Visible(t) == s.rows;
  }

  lemma SafetyNeedsRoom(cfg: Config, s: State, e: nat, s': State)
    requires Orderly(cfg, s) && Orderly(cfg, s') && Revived(s, e, s') && BlankKeysAlone(s) && StaysWithin(cfg, s')
    ensures RoomToRevive(cfg, s, s.rows[e].workspace, s.rows[e].workflow)
  {
    LeadsToItself(cfg, s');
    RevivedRoom(cfg, s.rows, e, s'.rows[e], s'.rows);
    forall t | t in s.txns ensures RoomBeside(cfg, s, t, s.rows[e].workspace, s.rows[e].workflow) {
      if NotBlank(s, t) || CanInsert(s, t) {
        LandingNeedsRoom(cfg, s, e, s', t);
      } else {
        TableNeedsRoom(cfg, s, t, s.rows[e].workspace, s.rows[e].workflow);
      }
    }
  }

  /** A revival is followed only by states within the limits, over every continuation without
      another revival, exactly when the committed table and everything open transactions are about
      to commit had room for one more run of that workflow. */
  lemma RevivalStaysWithinIff(cfg: Config, s: State, step: Step, s': State)
    requires Orderly(cfg, s) && QuotaKept(cfg, s) && BlankKeysAlone(s)
    requires Revives(s, step) && Apply(cfg, s, step) == Some(s')
    ensures StaysWithin(cfg, s') <==> RoomToRevive(cfg, s, s.rows[step.e].workspace, s.rows[step.e].workflow)
  {
    RevivalIsThat(cfg, s, step, s');
    StepKeepsOrder(cfg, s, step, s');
    if RoomToRevive(cfg, s, s.rows[step.e].workspace, s.rows[step.e].workflow) {
      RoomKeepsQuota(cfg, s, step.e, s');
      forall last | Leads(cfg, s', last) ensures WithinLimits(cfg, last.rows) {
        var steps :| IsContinuation(cfg, s', steps, last);
        QuotaLasts(cfg, s', steps, last);
      }
    }
    if StaysWithin(cfg, s') {
      SafetyNeedsRoom(cfg, s, step.e, s');
    }
  }

  // ---- whole runs ----

  /** A call under an empty key is made in a transaction that has no row to commit yet. */
  predicate CallsBlankAlone(s: State, step: Step) {
    step.Lookup? && step.req.key == Some("") && step.t in s.txns ==> s.txns[step.t].pending == map[]
  }

  lemma PhaseKeepsBlankAlone(s: State, t: nat, s': State)
    requires BlankKeysAlone(s) && OnlyPhase(s, t, s')
    requires !NotBlank(s', t) ==> !NotBlank(s, t) || s.txns[t].pending == map[]
    ensures BlankKeysAlone(s')
  {
  }

  lemma CallKeepsBlankAlone(cfg: Config, s: State, step: Step, s': State)
    requires BlankKeysAlone(s) && CallsBlankAlone(s, step) && Apply(cfg, s, step) == Some(s')
    requires step.Lookup? || step.Check? || (step.Insert? && s'.nextId == s.nextId)
    ensures BlankKeysAlone(s')
  {
    CallStepMovesPhase(cfg, s, step, s');
    PhaseKeepsBlankAlone(s, step.t, s');
  }

  lemma StepKeepsBlankAlone(cfg: Config, s: State, step: Step, s': State)
    requires BlankKeysAlone(s) && CallsBlankAlone(s, step) && Apply(cfg, s, step) == Some(s')
    ensures BlankKeysAlone(s')
  {
    if IsRowStep(step) {
      RowStepWrites(cfg, s, step, s');
    } else if step.Lookup? || step.Check? || (step.Insert? && s'.nextId == s.nextId) {
      CallKeepsBlankAlone(cfg, s, step, s');
    } else if step.Insert? {
      InsertAddsRow(s, step.t, s');
    }
  }

  ghost predicate BlankCallsAlone(cfg: Config, steps: seq<Step>) {
    forall i :: 0 <= i < |steps| && RunOf(cfg, steps[..i]).Some? ==> CallsBlankAlone(RunOf(cfg, steps[..i]).value, steps[i])
  }

  lemma {:induction false} ReachableBlankAlone(cfg: Config, steps: seq<Step>)
    requires RunOf(cfg, steps).Some? && BlankCallsAlone(cfg, steps)
    ensures BlankKeysAlone(RunOf(cfg, steps).value)
  {
    if steps != [] {
      var n := |steps| - 1;
      assert forall i :: 0 <= i <= n ==> steps[..n][..i] == steps[..i];
      ReachableBlankAlone(cfg, steps[..n]);
      StepKeepsBlankAlone(cfg, RunOf(cfg, steps[..n]).value, steps[n], RunOf(cfg, steps).value);
    }
  }

  /** The same for the first revival of any run of the protocol. */
  lemma FirstRevivalStaysWithinIff(cfg: Config, steps: seq<Step>, step: Step, s': State)
    requires RunOf(cfg, steps).Some? && RevivalFree(cfg, steps) && BlankCallsAlone(cfg, steps)
    requires Revives(RunOf(cfg, steps).value, step) && Apply(cfg, RunOf(cfg, steps).value, step) == Some(s')
    ensures var s := RunOf(cfg, steps).value;
      StaysWithin(cfg, s') <==> RoomToRevive(cfg, s, s.rows[step.e].workspace, s.rows[step.e].workflow)
  {
    ReachableOrderly(cfg, steps);
    ReachableQuota(cfg, steps);
    ReachableBlankAlone(cfg, steps);
    RevivalStaysWithinIff(cfg, RunOf(cfg, steps).value, step, s');
  }
}
