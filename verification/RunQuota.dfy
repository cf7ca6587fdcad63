/** The concurrency limits over every interleaving (`executions.py`, `_check_concurrency` under
    the advisory lock). */
module RunQuota {
  import opened Wrappers
  import opened Executions
  import opened RunProtocol
  import opened Sets

  // ---- bookkeeping every reachable state keeps ----

  ghost predicate IdsKnown(s: State) {
    && (forall e :: e in s.rows ==> e < s.nextId)
    && (forall t, e :: t in s.txns && e in s.txns[t].pending ==> e < s.nextId && e !in s.rows)
    && (forall t, u, e :: t in s.txns && u in s.txns && t != u && e in s.txns[t].pending ==> e !in s.txns[u].pending)
  }

  ghost predicate LocksHeld(cfg: Config, s: State) {
    && (forall t, u, k :: t in s.txns && u in s.txns && t != u && k in s.txns[t].locks ==> k !in s.txns[u].locks)
    && (forall t, e :: t in s.txns && e in s.txns[t].pending ==> cfg.lockOf(s.txns[t].pending[e].workspace) in s.txns[t].locks)
    && (forall t :: t in s.txns && (s.txns[t].phase.Locked? || s.txns[t].phase.Counted?) ==>
          cfg.lockOf(s.txns[t].phase.req.workspace) in s.txns[t].locks)
  }

  ghost predicate Orderly(cfg: Config, s: State) {
    IdsKnown(s) && LocksHeld(cfg, s)
  }

  predicate SameIdentity(a: Row, b: Row) {
    a.workspace == b.workspace && a.workflow == b.workflow && a.idempotencyKey == b.idempotencyKey
  }

  /** Steps on committed rows: the worker's, the reconciler's and the user's cancel. */
  predicate IsRowStep(step: Step) {
    step.Claim? || step.Mark? || step.Finish? || step.Drop? || step.Cancel? || step.Reconcile?
  }

  /** A row step writes statuses and engine facts only. */
  lemma RowStepWrites(cfg: Config, s: State, step: Step, s': State)
    requires IsRowStep(step) && Apply(cfg, s, step) == Some(s')
    ensures s'.txns == s.txns && s'.nextId == s.nextId && s'.results == s.results && s'.rows.Keys == s.rows.Keys
    ensures forall e :: e in s.rows ==> SameIdentity(s.rows[e], s'.rows[e])
  {
  }

  /** Without a revival no row step makes a row active. */
  lemma RowStepSettles(cfg: Config, s: State, step: Step, s': State, e: nat)
    requires IsRowStep(step) && Apply(cfg, s, step) == Some(s') && e in s.rows
    requires !Revives(s, step)
    ensures s'.rows[e].status.IsActive() ==> s.rows[e].status.IsActive()
  {
    StatusPartition(s.rows[e].status);
  }

  /** Only the transaction `t` changed, and neither its rows nor its locks did. */
  ghost predicate OnlyPhase(s: State, t: nat, s': State) {
    && t in s.txns && s'.rows == s.rows && s'.nextId == s.nextId && s'.hands == s.hands && s'.engine == s.engine
    && s'.txns.Keys == s.txns.Keys && (forall u :: u in s.txns && u != t ==> s'.txns[u] == s.txns[u])
    && s'.txns[t].pending == s.txns[t].pending && s'.txns[t].locks == s.txns[t].locks
    && (s'.txns[t].phase.Counted? || s'.txns[t].phase.Locked? ==> s.txns[t].phase.Locked? && s'.txns[t].phase.req == s.txns[t].phase.req)
  }

  lemma ReplyMovesPhase(s: State, t: nat, answer: Answer)
    requires t in s.txns
    ensures OnlyPhase(s, t, Replied(s, t, answer)) && Replied(s, t, answer).txns[t].phase.Idle?
  {
  }

  lemma MoveMovesPhase(s: State, t: nat, phase: Phase)
    requires t in s.txns
    requires phase.Counted? || phase.Locked? ==> s.txns[t].phase.Locked? && s.txns[t].phase.req == phase.req
    ensures OnlyPhase(s, t, Moved(s, t, phase)) && Moved(s, t, phase).txns[t].phase == phase
  {
  }

  lemma LookupMovesPhase(s: State, t: nat, req: Request, s': State)
    requires DoLookup(s, t, req) == Some(s')
    ensures OnlyPhase(s, t, s') && !s'.txns[t].phase.Counted?
  {
    MoveMovesPhase(s, t, LookedUp(req));
    if s' != Moved(s, t, LookedUp(req)) {
      ReplyMovesPhase(s, t, Returned(req, FindKey(s.Visible(t), req).value));
    }
  }

  lemma CheckMovesPhase(cfg: Config, s: State, t: nat, s': State)
    requires DoCheck(cfg, s, t) == Some(s')
    ensures OnlyPhase(s, t, s') && (s'.txns[t].phase.Counted? ==> HasRoom(cfg, s.Visible(t), s'.txns[t].phase.req))
  {
    var req := s.txns[t].phase.req;
    MoveMovesPhase(s, t, Counted(req));
    ReplyMovesPhase(s, t, Raised(req));
    if s' != Moved(s, t, Counted(req)) && s' != Replied(s, t, Raised(req)) {
      ReplyMovesPhase(s, t, Returned(req, FindKey(s.Visible(t), req).value));
    }
  }

  /** An insert that adds no row answers or gives up. */
  lemma BareInsertReplies(s: State, t: nat, s': State)
    requires DoInsert(s, t) == Some(s') && s'.nextId == s.nextId
    ensures t in s.txns && (s' == Moved(s, t, Poisoned) || exists answer :: s' == Replied(s, t, answer))
  {
  }

  lemma BareInsertMovesPhase(s: State, t: nat, s': State)
    requires DoInsert(s, t) == Some(s') && s'.nextId == s.nextId
    ensures OnlyPhase(s, t, s') && !s'.txns[t].phase.Counted?
  {
    BareInsertReplies(s, t, s');
    if s' == Moved(s, t, Poisoned) {
      MoveMovesPhase(s, t, Poisoned);
    } else {
      var answer :| s' == Replied(s, t, answer);
      ReplyMovesPhase(s, t, answer);
    }
  }

  /** The steps of a call that neither lock nor insert only move its phase. */
  lemma CallStepMovesPhase(cfg: Config, s: State, step: Step, s': State)
    requires step.Lookup? || step.Check? || step.Insert?
    requires Apply(cfg, s, step) == Some(s') && s'.nextId == s.nextId
    ensures OnlyPhase(s, step.t, s')
    ensures s'.txns[step.t].phase.Counted? ==> HasRoom(cfg, s.Visible(step.t), s'.txns[step.t].phase.req)
  {
    match step {
      case Lookup(t, req) => LookupMovesPhase(s, t, req, s');
      case Check(t) => CheckMovesPhase(cfg, s, t, s');
      case Insert(t) => BareInsertMovesPhase(s, t, s');
    }
  }

  lemma PhaseKeepsIds(s: State, t: nat, s': State)
    requires IdsKnown(s) && OnlyPhase(s, t, s')
    ensures IdsKnown(s')
  {
    forall u | u in s'.txns ensures s'.txns[u].pending == s.txns[u].pending {
    }
  }

  lemma PhaseKeepsLocks(cfg: Config, s: State, t: nat, s': State)
    requires LocksHeld(cfg, s) && OnlyPhase(s, t, s')
    ensures LocksHeld(cfg, s')
  {
    forall u | u in s'.txns ensures s'.txns[u].pending == s.txns[u].pending && s'.txns[u].locks == s.txns[u].locks {
    }
  }

  lemma PhaseKeepsOrder(cfg: Config, s: State, t: nat, s': State)
    requires Orderly(cfg, s) && OnlyPhase(s, t, s')
    ensures Orderly(cfg, s')
  {
    PhaseKeepsIds(s, t, s');
    PhaseKeepsLocks(cfg, s, t, s');
  }

  lemma LockKeepsOrder(cfg: Config, s: State, t: nat, s': State)
    requires Orderly(cfg, s) && DoLock(cfg, s, t) == Some(s')
    ensures Orderly(cfg, s')
  {
    forall u, v, e | u in s'.txns && v in s'.txns && u != v && e in s'.txns[u].pending ensures e !in s'.txns[v].pending {
      assert e in s.txns[u].pending;
    }
    forall u, v, k | u in s'.txns && v in s'.txns && u != v && k in s'.txns[u].locks ensures k !in s'.txns[v].locks {
      if k in s.txns[u].locks {
        assert k !in s.txns[v].locks;
      }
    }
  }

  /** What a fresh insert does to its transaction. */
  lemma InsertAddsRow(s: State, t: nat, s': State)
    requires DoInsert(s, t) == Some(s') && s'.nextId != s.nextId
    ensures t in s.txns && s.txns[t].phase.Counted? && s'.rows == s.rows && s'.nextId == s.nextId + 1
    ensures s'.results == s.results && s'.txns.Keys == s.txns.Keys
    ensures s'.txns[t].phase == Idle && s'.txns[t].locks == s.txns[t].locks
    ensures forall u :: u in s.txns && u != t ==> s'.txns[u] == s.txns[u]
    ensures var req := s.txns[t].phase.req;
      && FindKey(s.Visible(t), req).None?
      && s'.txns[t].pending == s.txns[t].pending[s.nextId := FreshRow(req.workspace, req.workflow, req.key, req.at)]
      && s'.txns[t].answers == s.txns[t].answers + [Returned(req, s.nextId)]
  {
  }

  /** Transaction `t` gained one row under a new id, in a workspace it has locked. */
  ghost predicate OneRowAdded(cfg: Config, s: State, t: nat, s': State) {
    && t in s.txns && s'.rows == s.rows && s'.nextId == s.nextId + 1 && s'.txns.Keys == s.txns.Keys
    && (forall u :: u in s.txns && u != t ==> s'.txns[u] == s.txns[u])
    && s'.txns[t].locks == s.txns[t].locks && s'.txns[t].phase == Idle
    && s.nextId in s'.txns[t].pending
    && s'.txns[t].pending == s.txns[t].pending[s.nextId := s'.txns[t].pending[s.nextId]]
    && cfg.lockOf(s'.txns[t].pending[s.nextId].workspace) in s.txns[t].locks
  }

  lemma AddedRowKeepsIds(cfg: Config, s: State, t: nat, s': State)
    requires IdsKnown(s) && OneRowAdded(cfg, s, t, s')
    ensures IdsKnown(s')
  {
    forall u, v, e | u in s'.txns && v in s'.txns && u != v && e in s'.txns[u].pending ensures e !in s'.txns[v].pending {
      if e != s.nextId {
        assert e in s.txns[u].pending;
      }
    }
  }

  lemma AddedRowKeepsLocks(cfg: Config, s: State, t: nat, s': State)
    requires LocksHeld(cfg, s) && OneRowAdded(cfg, s, t, s')
    ensures LocksHeld(cfg, s')
  {
  }

  lemma InsertKeepsOrder(cfg: Config, s: State, t: nat, s': State)
    requires Orderly(cfg, s) && DoInsert(s, t) == Some(s') && s'.nextId != s.nextId
    ensures Orderly(cfg, s')
  {
    InsertAddsRow(s, t, s');
    AddedRowKeepsIds(cfg, s, t, s');
    AddedRowKeepsLocks(cfg, s, t, s');
  }

  lemma EndKeepsOrder(cfg: Config, s: State, t: nat, s': State)
    requires Orderly(cfg, s) && t in s.txns && s'.txns == s.txns - {t} && s'.nextId == s.nextId
    requires s'.rows == s.rows || s'.rows == s.rows + s.txns[t].pending
    ensures Orderly(cfg, s')
  {
    forall u, v, k | u in s'.txns && v in s'.txns && u != v && k in s'.txns[u].locks ensures k !in s'.txns[v].locks {
      assert k in s.txns[u].locks;
    }
    forall u, e | u in s'.txns && e in s'.txns[u].pending ensures e < s'.nextId && e !in s'.rows {
      assert e in s.txns[u].pending;
    }
  }

  lemma BeginKeepsOrder(cfg: Config, s: State, t: nat)
    requires Orderly(cfg, s) && t !in s.txns
    ensures Orderly(cfg, s.(txns := s.txns[t := Txn(Idle, map[], {}, [])]))
  {
  }

  lemma RowStepKeepsOrder(cfg: Config, s: State, s': State)
    requires Orderly(cfg, s) && s'.txns == s.txns && s'.nextId == s.nextId && s'.rows.Keys == s.rows.Keys
    ensures Orderly(cfg, s')
  {
    forall u, v, k | u in s'.txns && v in s'.txns && u != v && k in s'.txns[u].locks ensures k !in s'.txns[v].locks {
      assert k in s.txns[u].locks;
    }
    forall u, v, e | u in s'.txns && v in s'.txns && u != v && e in s'.txns[u].pending ensures e !in s'.txns[v].pending {
      assert e in s.txns[u].pending;
    }
    forall u, e | u in s'.txns && e in s'.txns[u].pending ensures e < s'.nextId && e !in s'.rows {
      assert e in s.txns[u].pending;
    }
  }

  lemma StepKeepsOrder(cfg: Config, s: State, step: Step, s': State)
    requires Orderly(cfg, s) && Apply(cfg, s, step) == Some(s')
    ensures Orderly(cfg, s')
  {
    match step
    case Begin(t) => BeginKeepsOrder(cfg, s, t);
    case Lock(t) => LockKeepsOrder(cfg, s, t, s');
    case Commit(t) => EndKeepsOrder(cfg, s, t, s');
    case Abort(t) => EndKeepsOrder(cfg, s, t, s');
    case Lookup(t, req) =>
      LookupMovesPhase(s, t, req, s');
      PhaseKeepsOrder(cfg, s, t, s');
    case Check(t) =>
      CheckMovesPhase(cfg, s, t, s');
      PhaseKeepsOrder(cfg, s, t, s');
    case Insert(t) => AnyInsertKeepsOrder(cfg, s, t, s');
    case _ =>
      RowStepWrites(cfg, s, step, s');
      RowStepKeepsOrder(cfg, s, s');
  }

  lemma AnyInsertKeepsOrder(cfg: Config, s: State, t: nat, s': State)
    requires Orderly(cfg, s) && DoInsert(s, t) == Some(s')
    ensures Orderly(cfg, s')
  {
    if s'.nextId != s.nextId {
      InsertKeepsOrder(cfg, s, t, s');
    } else {
      BareInsertMovesPhase(s, t, s');
      PhaseKeepsOrder(cfg, s, t, s');
    }
  }

  // ---- the limits ----

  ghost predicate WithinLimits(cfg: Config, rows: Rows) {
    && (forall ws, wf :: |ActiveIn(rows, ws, wf)| <= cfg.perWorkflow)
    && (forall ws :: |ActiveInWorkspace(rows, ws)| <= cfg.ceiling(ws))
  }

  /** The transaction has counted, and nothing but the limits stands between it and a new row. */
  ghost predicate CanInsert(s: State, t: nat)
    requires t in s.txns
  {
    s.txns[t].phase.Counted? && s.txns[t].phase.req.valid && FindKey(s.Visible(t), s.txns[t].phase.req).None?
  }

  ghost predicate RoomKept(cfg: Config, s: State, t: nat)
    requires t in s.txns
  {
    CanInsert(s, t) ==> HasRoom(cfg, s.Visible(t), s.txns[t].phase.req)
  }

  /** Committed rows are within the limits, and so is what every open transaction would add;
      a transaction that can insert still has room. */
  ghost predicate QuotaKept(cfg: Config, s: State) {
    && WithinLimits(cfg, s.rows)
    && (forall t :: t in s.txns ==> WithinLimits(cfg, s.Visible(t)))
    && (forall t :: t in s.txns ==> RoomKept(cfg, s, t))
  }

  /** No row is lost and none changes what it is a run of. */
  ghost predicate KeepsIdentities(before: Rows, after: Rows) {
    forall e :: e in before ==> e in after && SameIdentity(before[e], after[e])
  }

  lemma FoundStaysFound(before: Rows, after: Rows, req: Request)
    requires KeepsIdentities(before, after) && FindKey(after, req).None?
    ensures FindKey(before, req).None?
  {
    var found := FindKey(before, req);
    assert found.Some? ==> Bears(after[found.value], req.workspace, req.workflow, req.key.value);
  }

  /** The two tables hold the same rows of one workspace. */
  ghost predicate AgreeOn(a: Rows, b: Rows, ws: string) {
    forall e :: (e in a && a[e].workspace == ws <==> e in b && b[e].workspace == ws)
      && (e in a && e in b && a[e].workspace == ws ==> a[e] == b[e])
  }

  lemma AgreementCounts(a: Rows, b: Rows, ws: string)
    requires AgreeOn(a, b, ws)
    ensures forall wf :: ActiveIn(a, ws, wf) == ActiveIn(b, ws, wf)
    ensures ActiveInWorkspace(a, ws) == ActiveInWorkspace(b, ws)
  {
  }

  /** Rows only leave the active set. */
  ghost predicate OnlySettles(before: Rows, after: Rows) {
    && after.Keys == before.Keys
    && (forall e :: e in before ==> SameIdentity(before[e], after[e]))
    && (forall e :: e in before && after[e].status.IsActive() ==> before[e].status.IsActive())
  }

  lemma SettlingKeepsLimits(cfg: Config, before: Rows, after: Rows)
    requires OnlySettles(before, after)
    ensures WithinLimits(cfg, before) ==> WithinLimits(cfg, after)
    ensures forall req :: HasRoom(cfg, before, req) ==> HasRoom(cfg, after, req)
  {
    forall ws, wf ensures |ActiveIn(after, ws, wf)| <= |ActiveIn(before, ws, wf)| {
      SubsetSize(ActiveIn(after, ws, wf), ActiveIn(before, ws, wf));
    }
    forall ws ensures |ActiveInWorkspace(after, ws)| <= |ActiveInWorkspace(before, ws)| {
      SubsetSize(ActiveInWorkspace(after, ws), ActiveInWorkspace(before, ws));
    }
  }

  lemma SettlingShows(s: State, s': State, t: nat)
    requires IdsKnown(s) && t in s.txns && s'.txns == s.txns && OnlySettles(s.rows, s'.rows)
    ensures OnlySettles(s.Visible(t), s'.Visible(t))
  {
  }

  lemma SettlingKeepsQuota(cfg: Config, s: State, s': State)
    requires IdsKnown(s) && QuotaKept(cfg, s) && s'.txns == s.txns && OnlySettles(s.rows, s'.rows)
    ensures QuotaKept(cfg, s')
  {
    SettlingKeepsLimits(cfg, s.rows, s'.rows);
    forall t | t in s.txns ensures WithinLimits(cfg, s'.Visible(t)) && RoomKept(cfg, s', t) {
      SettlingShows(s, s', t);
      SettlingKeepsLimits(cfg, s.Visible(t), s'.Visible(t));
      if CanInsert(s', t) {
        FoundStaysFound(s.Visible(t), s'.Visible(t), s.txns[t].phase.req);
        assert RoomKept(cfg, s, t);
      }
    }
  }

  lemma RowStepKeepsQuota(cfg: Config, s: State, step: Step, s': State)
    requires Orderly(cfg, s) && QuotaKept(cfg, s)
    requires IsRowStep(step) && Apply(cfg, s, step) == Some(s') && !Revives(s, step)
    ensures QuotaKept(cfg, s')
  {
    RowStepWrites(cfg, s, step, s');
    forall e | e in s.rows ensures s'.rows[e].status.IsActive() ==> s.rows[e].status.IsActive() {
      RowStepSettles(cfg, s, step, s', e);
    }
    SettlingKeepsQuota(cfg, s, s');
  }

  /** A new queued row is active in its own workflow and nowhere else. */
  lemma NewRowCounts(rows: Rows, req: Request, id: nat, ws: string, wf: string)
    requires id !in rows
    ensures var after := rows[id := FreshRow(req.workspace, req.workflow, req.key, req.at)];
      && ActiveIn(after, ws, wf) == ActiveIn(rows, ws, wf) + (if ws == req.workspace && wf == req.workflow then {id} else {})
      && ActiveInWorkspace(after, ws) == ActiveInWorkspace(rows, ws) + (if ws == req.workspace then {id} else {})
  {
  }

  /** A counted insert adds one row where there was room for one. */
  lemma InsertKeepsLimits(cfg: Config, rows: Rows, req: Request, id: nat)
    requires WithinLimits(cfg, rows) && HasRoom(cfg, rows, req) && id !in rows
    ensures WithinLimits(cfg, rows[id := FreshRow(req.workspace, req.workflow, req.key, req.at)])
  {
    var after := rows[id := FreshRow(req.workspace, req.workflow, req.key, req.at)];
    forall ws, wf ensures |ActiveIn(after, ws, wf)| <= cfg.perWorkflow && |ActiveInWorkspace(after, ws)| <= cfg.ceiling(ws) {
      NewRowCounts(rows, req, id, ws, wf);
      assert |ActiveIn(rows, ws, wf)| <= cfg.perWorkflow && |ActiveInWorkspace(rows, ws)| <= cfg.ceiling(ws);
    }
    forall ws ensures |ActiveInWorkspace(after, ws)| <= cfg.ceiling(ws) {
      assert |ActiveIn(after, ws, "")| <= cfg.perWorkflow && |ActiveInWorkspace(after, ws)| <= cfg.ceiling(ws);
    }
  }

  lemma PendingIsLocked(cfg: Config, s: State, t: nat, e: nat)
    requires LocksHeld(cfg, s) && t in s.txns && e in s.txns[t].pending
    ensures cfg.lockOf(s.txns[t].pending[e].workspace) in s.txns[t].locks
  {
  }

  lemma LockIsExclusive(cfg: Config, s: State, t: nat, u: nat, k: int)
    requires LocksHeld(cfg, s) && t in s.txns && u in s.txns && t != u && k in s.txns[t].locks
    ensures k !in s.txns[u].locks
  {
  }

  /** One transaction's commit is invisible to the workspaces it holds no lock on. */
  lemma CommitAgrees(cfg: Config, s: State, t: nat, u: nat, ws: string)
    requires Orderly(cfg, s) && t in s.txns && u in s.txns && t != u
    ensures cfg.lockOf(ws) in s.txns[u].locks ==>
      AgreeOn(s.rows + s.txns[t].pending + s.txns[u].pending, s.Visible(u), ws)
    ensures cfg.lockOf(ws) !in s.txns[u].locks ==>
      AgreeOn(s.rows + s.txns[t].pending + s.txns[u].pending, s.Visible(t), ws)
  {
    forall e | e in s.txns[t].pending && s.txns[t].pending[e].workspace == ws ensures cfg.lockOf(ws) !in s.txns[u].locks {
      PendingIsLocked(cfg, s, t, e);
      LockIsExclusive(cfg, s, t, u, cfg.lockOf(s.txns[t].pending[e].workspace));
    }
    forall e | e in s.txns[u].pending && s.txns[u].pending[e].workspace == ws ensures cfg.lockOf(ws) in s.txns[u].locks {
      PendingIsLocked(cfg, s, u, e);
    }
    forall e | e in s.txns[t].pending ensures e !in s.txns[u].pending && e !in s.rows {
    }
  }

  lemma CommitKeepsCounts(cfg: Config, s: State, t: nat, u: nat, ws: string, wf: string)
    requires Orderly(cfg, s) && QuotaKept(cfg, s) && t in s.txns && u in s.txns && t != u
    ensures var rows := s.rows + s.txns[t].pending + s.txns[u].pending;
      && |ActiveIn(rows, ws, wf)| <= cfg.perWorkflow && |ActiveInWorkspace(rows, ws)| <= cfg.ceiling(ws)
  {
    CommitAgrees(cfg, s, t, u, ws);
    var rows := s.rows + s.txns[t].pending + s.txns[u].pending;
    var like := if cfg.lockOf(ws) in s.txns[u].locks then s.Visible(u) else s.Visible(t);
    AgreementCounts(rows, like, ws);
    assert WithinLimits(cfg, like);
    assert ActiveIn(rows, ws, wf) == ActiveIn(like, ws, wf);
  }

  lemma CommitShowsMore(s: State, t: nat, u: nat)
    requires IdsKnown(s) && t in s.txns && u in s.txns && t != u
    ensures KeepsIdentities(s.Visible(u), s.rows + s.txns[t].pending + s.txns[u].pending)
  {
  }

  lemma CommitKeepsRoom(cfg: Config, s: State, t: nat, u: nat)
    requires Orderly(cfg, s) && QuotaKept(cfg, s) && t in s.txns && u in s.txns && t != u
    requires s.txns[u].phase.Counted? && s.txns[u].phase.req.valid
    requires FindKey(s.rows + s.txns[t].pending + s.txns[u].pending, s.txns[u].phase.req).None?
    ensures HasRoom(cfg, s.rows + s.txns[t].pending + s.txns[u].pending, s.txns[u].phase.req)
  {
    CommitShowsMore(s, t, u);
    FoundStaysFound(s.Visible(u), s.rows + s.txns[t].pending + s.txns[u].pending, s.txns[u].phase.req);
    assert RoomKept(cfg, s, u);
    var ws := s.txns[u].phase.req.workspace;
    CommitAgrees(cfg, s, t, u, ws);
    AgreementCounts(s.rows + s.txns[t].pending + s.txns[u].pending, s.Visible(u), ws);
    assert ActiveIn(s.rows + s.txns[t].pending + s.txns[u].pending, ws, s.txns[u].phase.req.workflow)
      == ActiveIn(s.Visible(u), ws, s.txns[u].phase.req.workflow);
  }

  lemma CommitKeepsLimits(cfg: Config, s: State, t: nat, u: nat)
    requires Orderly(cfg, s) && QuotaKept(cfg, s) && t in s.txns && u in s.txns && t != u
    ensures WithinLimits(cfg, s.rows + s.txns[t].pending + s.txns[u].pending)
  {
    var rows := s.rows + s.txns[t].pending + s.txns[u].pending;
    forall ws, wf ensures |ActiveIn(rows, ws, wf)| <= cfg.perWorkflow && |ActiveInWorkspace(rows, ws)| <= cfg.ceiling(ws) {
      CommitKeepsCounts(cfg, s, t, u, ws, wf);
    }
    forall ws ensures |ActiveInWorkspace(rows, ws)| <= cfg.ceiling(ws) {
      CommitKeepsCounts(cfg, s, t, u, ws, "");
    }
  }

  lemma CommitKeepsOther(cfg: Config, s: State, t: nat, s': State, u: nat)
    requires Orderly(cfg, s) && QuotaKept(cfg, s) && DoCommit(s, t) == Some(s') && u in s'.txns
    ensures WithinLimits(cfg, s'.Visible(u)) && RoomKept(cfg, s', u)
  {
    assert s'.Visible(u) == s.rows + s.txns[t].pending + s.txns[u].pending;
    CommitKeepsLimits(cfg, s, t, u);
    if CanInsert(s', u) {
      CommitKeepsRoom(cfg, s, t, u);
    }
  }

  lemma CommitKeepsQuota(cfg: Config, s: State, t: nat, s': State)
    requires Orderly(cfg, s) && QuotaKept(cfg, s) && DoCommit(s, t) == Some(s')
    ensures QuotaKept(cfg, s')
  {
    assert s'.rows == s.Visible(t);
    forall u | u in s'.txns ensures WithinLimits(cfg, s'.Visible(u)) && RoomKept(cfg, s', u) {
      CommitKeepsOther(cfg, s, t, s', u);
    }
  }

  /** The transactions other than `t`, and the committed rows, look as they did. */
  lemma OthersSeeTheSame(cfg: Config, s: State, t: nat, s': State)
    requires QuotaKept(cfg, s) && t in s.txns && s'.rows == s.rows && s'.txns.Keys == s.txns.Keys
    requires forall u :: u in s.txns && u != t ==> s'.txns[u].pending == s.txns[u].pending && s'.txns[u].phase == s.txns[u].phase
    requires WithinLimits(cfg, s'.Visible(t))
    requires RoomKept(cfg, s', t)
    ensures QuotaKept(cfg, s')
  {
    forall u | u in s'.txns && u != t
      ensures WithinLimits(cfg, s'.Visible(u)) && RoomKept(cfg, s', u)
    {
      assert s'.Visible(u) == s.Visible(u);
      assert RoomKept(cfg, s, u);
      assert WithinLimits(cfg, s.Visible(u));
    }
  }

  lemma VisibleAfterInsert(s: State, t: nat, s': State)
    requires IdsKnown(s) && DoInsert(s, t) == Some(s') && s'.nextId != s.nextId
    ensures var req := s.txns[t].phase.req;
      && s.nextId !in s.Visible(t)
      && s'.Visible(t) == s.Visible(t)[s.nextId := FreshRow(req.workspace, req.workflow, req.key, req.at)]
  {
    InsertAddsRow(s, t, s');
  }

  lemma InsertedWithinLimits(cfg: Config, s: State, t: nat, s': State)
    requires IdsKnown(s) && DoInsert(s, t) == Some(s') && s'.nextId != s.nextId
    requires WithinLimits(cfg, s.Visible(t)) && HasRoom(cfg, s.Visible(t), s.txns[t].phase.req)
    ensures WithinLimits(cfg, s'.Visible(t))
  {
    VisibleAfterInsert(s, t, s');
    var rows, req := s.Visible(t), s.txns[t].phase.req;
    InsertKeepsLimits(cfg, rows, req, s.nextId);
  }

  lemma InsertKeepsQuota(cfg: Config, s: State, t: nat, s': State)
    requires IdsKnown(s) && QuotaKept(cfg, s) && DoInsert(s, t) == Some(s') && s'.nextId != s.nextId
    ensures QuotaKept(cfg, s')
  {
    InsertAddsRow(s, t, s');
    InsertedWithinLimits(cfg, s, t, s');
    OthersSeeTheSame(cfg, s, t, s');
  }

  lemma BeginKeepsQuota(cfg: Config, s: State, t: nat, s': State)
    requires QuotaKept(cfg, s) && t !in s.txns && s' == s.(txns := s.txns[t := Txn(Idle, map[], {}, [])])
    ensures QuotaKept(cfg, s')
  {
    assert s'.Visible(t) == s.rows;
    forall u | u in s.txns
      ensures WithinLimits(cfg, s'.Visible(u)) && RoomKept(cfg, s', u)
    {
      assert s'.Visible(u) == s.Visible(u);
      assert RoomKept(cfg, s, u);
    }
  }

  lemma AbortKeepsQuota(cfg: Config, s: State, t: nat, s': State)
    requires QuotaKept(cfg, s) && t in s.txns && s' == s.(txns := s.txns - {t})
    ensures QuotaKept(cfg, s')
  {
  }

  lemma PhaseKeepsQuota(cfg: Config, s: State, t: nat, s': State)
    requires QuotaKept(cfg, s) && OnlyPhase(s, t, s')
    requires s'.txns[t].phase.Counted? ==> HasRoom(cfg, s.Visible(t), s'.txns[t].phase.req)
    ensures QuotaKept(cfg, s')
  {
    assert s'.Visible(t) == s.Visible(t);
    OthersSeeTheSame(cfg, s, t, s');
  }

  lemma LockKeepsQuota(cfg: Config, s: State, t: nat, s': State)
    requires QuotaKept(cfg, s) && DoLock(cfg, s, t) == Some(s')
    ensures QuotaKept(cfg, s')
  {
  }

  lemma AnyInsertKeepsQuota(cfg: Config, s: State, t: nat, s': State)
    requires Orderly(cfg, s) && QuotaKept(cfg, s) && DoInsert(s, t) == Some(s')
    ensures QuotaKept(cfg, s')
  {
    if s'.nextId != s.nextId {
      InsertKeepsQuota(cfg, s, t, s');
    } else {
      BareInsertMovesPhase(s, t, s');
      PhaseKeepsQuota(cfg, s, t, s');
    }
  }

  lemma TxnStepKeepsQuota(cfg: Config, s: State, step: Step, s': State)
    requires Orderly(cfg, s) && QuotaKept(cfg, s)
    requires !IsRowStep(step) && Apply(cfg, s, step) == Some(s')
    ensures QuotaKept(cfg, s')
  {
    match step
    case Begin(t) => BeginKeepsQuota(cfg, s, t, s');
    case Abort(t) => AbortKeepsQuota(cfg, s, t, s');
    case Commit(t) => CommitKeepsQuota(cfg, s, t, s');
    case Lock(t) => LockKeepsQuota(cfg, s, t, s');
    case Insert(t) => AnyInsertKeepsQuota(cfg, s, t, s');
    case Lookup(t, req) =>
      LookupMovesPhase(s, t, req, s');
      PhaseKeepsQuota(cfg, s, t, s');
    case Check(t) =>
      CheckMovesPhase(cfg, s, t, s');
      PhaseKeepsQuota(cfg, s, t, s');
  }

  lemma StepKeepsQuota(cfg: Config, s: State, step: Step, s': State)
    requires Orderly(cfg, s) && QuotaKept(cfg, s) && Apply(cfg, s, step) == Some(s') && !Revives(s, step)
    ensures QuotaKept(cfg, s')
  {
    if IsRowStep(step) {
      RowStepKeepsQuota(cfg, s, step, s');
    } else {
      TxnStepKeepsQuota(cfg, s, step, s');
    }
  }

  // ---- whole runs ----

  ghost predicate RevivalFree(cfg: Config, steps: seq<Step>) {
    forall i :: 0 <= i < |steps| && RunOf(cfg, steps[..i]).Some? ==> !Revives(RunOf(cfg, steps[..i]).value, steps[i])
  }

  lemma {:induction false} ReachableOrderly(cfg: Config, steps: seq<Step>)
    requires RunOf(cfg, steps).Some?
    ensures Orderly(cfg, RunOf(cfg, steps).value)
  {
    if steps != [] {
      var n := |steps| - 1;
      ReachableOrderly(cfg, steps[..n]);
      StepKeepsOrder(cfg, RunOf(cfg, steps[..n]).value, steps[n], RunOf(cfg, steps).value);
    }
  }

  lemma {:induction false} ReachableQuota(cfg: Config, steps: seq<Step>)
    requires RunOf(cfg, steps).Some? && RevivalFree(cfg, steps)
    ensures QuotaKept(cfg, RunOf(cfg, steps).value)
  {
    if steps == [] {
      assert forall ws, wf :: ActiveIn(EMPTY.rows, ws, wf) == {};
      assert forall ws :: ActiveInWorkspace(EMPTY.rows, ws) == {};
    } else {
      var n := |steps| - 1;
      var s, s' := RunOf(cfg, steps[..n]).value, RunOf(cfg, steps).value;
      assert forall i :: 0 <= i <= n ==> steps[..n][..i] == steps[..i];
      ReachableOrderly(cfg, steps[..n]);
      ReachableQuota(cfg, steps[..n]);
      StepKeepsQuota(cfg, s, steps[n], s');
    }
  }

  /** No interleaving without a revival commits more active runs than either limit allows. */
  lemma LimitsHold(cfg: Config, steps: seq<Step>, ws: string, wf: string)
    requires RunOf(cfg, steps).Some? && RevivalFree(cfg, steps)
    ensures |ActiveIn(RunOf(cfg, steps).value.rows, ws, wf)| <= cfg.perWorkflow
    ensures |ActiveInWorkspace(RunOf(cfg, steps).value.rows, ws)| <= cfg.ceiling(ws)
  {
    ReachableQuota(cfg, steps);
  }
}
