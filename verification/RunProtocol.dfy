/** The run saga as interleaved steps (`executions.py`, `worker.py`): `create` split at its
    lookup, lock, count, insert and commit; the worker's claim in a transaction of its own; and
    cancels and reconciles free to land between a claim and the dispatch that follows it. */
module RunProtocol {
  import opened Wrappers
  import opened Executions

  type Rows = map<nat, Row>

  datatype Config = Config(perWorkflow: nat, ceiling: string -> nat, lockOf: string -> int)

  /** A call of `create`; `valid` says whether an artefact to run exists and validates. */
  datatype Request = Request(workspace: string, workflow: string, key: Option<string>, valid: bool, at: int)
  {
    /** `if idempotency_key:` — an empty key counts as none. */
    predicate Keyed() {
      key.Some? && key.value != ""
    }
  }

  datatype Phase = Idle | LookedUp(req: Request) | Locked(req: Request) | Counted(req: Request) | Poisoned

  datatype Answer = Returned(req: Request, id: nat) | Raised(req: Request)

  datatype Txn = Txn(phase: Phase, pending: Rows, locks: set<int>, answers: seq<Answer>)

  /** One run the engine started, under the execution id as idempotency key. */
  datatype Started = Started(execution: nat, ref: string)

  datatype State = State(
    rows: Rows,
    txns: map<nat, Txn>,
    nextId: nat,
    hands: map<nat, set<nat>>,
    engine: seq<Started>,
    results: seq<Answer>)
  {
    function Visible(t: nat): Rows
      requires t in txns
    {
      rows + txns[t].pending
    }

    function Hand(w: nat): set<nat> {
      if w in hands then hands[w] else {}
    }
  }

  const EMPTY := State(map[], map[], 0, map[], [], [])

  /** What a worker hears back from the engine; `Heard` needs the request to have landed. */
  datatype Hearing = Heard | Silence | Rejection(code: string) | Failure

  datatype Step =
    | Begin(t: nat)
    | Lookup(t: nat, req: Request)
    | Lock(t: nat)
    | Check(t: nat)
    | Insert(t: nat)
    | Commit(t: nat)
    | Abort(t: nat)
    | Claim(w: nat, e: nat)
    | Mark(w: nat, e: nat, at: int)
    | Finish(w: nat, e: nat, landed: bool, ref: string, hearing: Hearing, at: int)
    | Drop(w: nat, e: nat)
    | Cancel(e: nat, reply: Reply, at: int)
    | Reconcile(e: nat, reply: Reply, at: int, staleAfter: int)

  // ---- queries ----

  predicate Bears(r: Row, workspace: string, workflow: string, key: string) {
    r.workspace == workspace && r.workflow == workflow && r.idempotencyKey == Some(key)
  }

  ghost function FindKey(rows: Rows, req: Request): (found: Option<nat>)
    ensures found.Some? ==> req.key.Some? && found.value in rows
    ensures found.Some? ==> Bears(rows[found.value], req.workspace, req.workflow, req.key.value)
    ensures found.None? && req.key.Some? ==> forall e :: e in rows ==> !Bears(rows[e], req.workspace, req.workflow, req.key.value)
  {
    if req.key.Some? && exists e :: e in rows && Bears(rows[e], req.workspace, req.workflow, req.key.value) then
      var e :| e in rows && Bears(rows[e], req.workspace, req.workflow, req.key.value);
      Some(e)
    else None
  }

  function ActiveIn(rows: Rows, workspace: string, workflow: string): set<nat> {
    set e | e in rows && rows[e].workspace == workspace && rows[e].workflow == workflow && rows[e].status.IsActive()
  }

  function ActiveInWorkspace(rows: Rows, workspace: string): set<nat> {
    set e | e in rows && rows[e].workspace == workspace && rows[e].status.IsActive()
  }

  predicate HasRoom(cfg: Config, rows: Rows, req: Request) {
    && |ActiveIn(rows, req.workspace, req.workflow)| < cfg.perWorkflow
    && |ActiveInWorkspace(rows, req.workspace)| < cfg.ceiling(req.workspace)
  }

  function RefOf(engine: seq<Started>, e: nat): Option<string> {
    if engine == [] then None
    else if engine[0].execution == e then Some(engine[0].ref)
    else RefOf(engine[1..], e)
  }

  /** The first writes of a dispatch reach the table as a time alone: the worker's object was
      DISPATCHING since the claim, so its status column counts as unchanged. */
  function SeenByDispatch(r: Row, now: int): Row {
    r.(lastSeenAt := Some(now))
  }

  // ---- steps; None means the step cannot happen here ----

  function Replied(s: State, t: nat, answer: Answer): State
    requires t in s.txns
  {
    s.(txns := s.txns[t := s.txns[t].(phase := Idle, answers := s.txns[t].answers + [answer])])
  }

  function Moved(s: State, t: nat, phase: Phase): State
    requires t in s.txns
  {
    s.(txns := s.txns[t := s.txns[t].(phase := phase)])
  }

  ghost function DoLookup(s: State, t: nat, req: Request): Option<State> {
    if t !in s.txns || s.txns[t].phase != Idle then None
    else if req.Keyed() && FindKey(s.Visible(t), req).Some? then
      Some(Replied(s, t, Returned(req, FindKey(s.Visible(t), req).value)))
    else Some(Moved(s, t, LookedUp(req)))
  }

  function DoLock(cfg: Config, s: State, t: nat): Option<State> {
    if t !in s.txns || !s.txns[t].phase.LookedUp? then None else
      var req := s.txns[t].phase.req;
      var lock := cfg.lockOf(req.workspace);
      if exists u :: u in s.txns && u != t && lock in s.txns[u].locks then None
      else Some(s.(txns := s.txns[t := s.txns[t].(phase := Locked(req), locks := s.txns[t].locks + {lock})]))
  }

  /** A refusal is replaced by the key's row when there is one by now. */
  ghost function DoCheck(cfg: Config, s: State, t: nat): Option<State> {
    if t !in s.txns || !s.txns[t].phase.Locked? then None else
      var req := s.txns[t].phase.req;
      if HasRoom(cfg, s.Visible(t), req) then Some(Moved(s, t, Counted(req)))
      else if req.Keyed() && FindKey(s.Visible(t), req).Some? then
        Some(Replied(s, t, Returned(req, FindKey(s.Visible(t), req).value)))
      else Some(Replied(s, t, Raised(req)))
  }

  /** The unique index waits for other open transactions and refuses a visible duplicate. */
  ghost function DoInsert(s: State, t: nat): Option<State> {
    if t !in s.txns || !s.txns[t].phase.Counted? then None else
      var req := s.txns[t].phase.req;
      if !req.valid then Some(Replied(s, t, Raised(req)))
      else if exists u :: u in s.txns && u != t && FindKey(s.txns[u].pending, req).Some? then None
      else if FindKey(s.Visible(t), req).Some? then
        if req.Keyed() then Some(Replied(s, t, Returned(req, FindKey(s.Visible(t), req).value)))
        else Some(Moved(s, t, Poisoned))
      else
        var row := FreshRow(req.workspace, req.workflow, req.key, req.at);
        var txn := s.txns[t].(
          phase := Idle,
          pending := s.txns[t].pending[s.nextId := row],
          answers := s.txns[t].answers + [Returned(req, s.nextId)]);
        Some(s.(txns := s.txns[t := txn], nextId := s.nextId + 1))
  }

  function DoCommit(s: State, t: nat): Option<State> {
    if t !in s.txns || s.txns[t].phase != Idle then None
    else Some(s.(rows := s.rows + s.txns[t].pending, txns := s.txns - {t}, results := s.results + s.txns[t].answers))
  }

  function DoFinish(s: State, w: nat, e: nat, landed: bool, ref: string, hearing: Hearing, at: int): Option<State> {
    if e !in s.Hand(w) || e !in s.rows || (hearing == Heard && !landed) then None else
      var engine := if landed && RefOf(s.engine, e).None? then s.engine + [Started(e, ref)] else s.engine;
      var outcome := match hearing
        case Heard => Accepted(RefOf(engine, e).GetOr(ref))
        case Silence => EngineDown
        case Rejection(code) => Refused(code)
        case Failure => Broken;
      Some(s.(
        rows := s.rows[e := DispatchFinished(s.rows[e], outcome, at)],
        hands := s.hands[w := s.Hand(w) - {e}],
        engine := engine))
  }

  ghost function Apply(cfg: Config, s: State, step: Step): Option<State> {
    match step
    case Begin(t) => if t in s.txns then None else Some(s.(txns := s.txns[t := Txn(Idle, map[], {}, [])]))
    case Lookup(t, req) => DoLookup(s, t, req)
    case Lock(t) => DoLock(cfg, s, t)
    case Check(t) => DoCheck(cfg, s, t)
    case Insert(t) => DoInsert(s, t)
    case Commit(t) => DoCommit(s, t)
    case Abort(t) => if t in s.txns then Some(s.(txns := s.txns - {t})) else None
    case Claim(w, e) =>
      if e !in s.rows || s.rows[e].status != Queued then None
      else Some(s.(rows := s.rows[e := Claimed(s.rows[e])], hands := s.hands[w := s.Hand(w) + {e}]))
    case Mark(w, e, at) =>
      if e !in s.Hand(w) || e !in s.rows then None
      else Some(s.(rows := s.rows[e := SeenByDispatch(s.rows[e], at)]))
    case Finish(w, e, landed, ref, hearing, at) => DoFinish(s, w, e, landed, ref, hearing, at)
    case Drop(w, e) =>
      if e !in s.Hand(w) then None else Some(s.(hands := s.hands[w := s.Hand(w) - {e}]))
    case Cancel(e, reply, at) =>
      if e !in s.rows then None else Some(s.(rows := s.rows[e := CancelledByUser(s.rows[e], reply, at)]))
    case Reconcile(e, reply, at, staleAfter) =>
      if e !in s.rows || !IsUnresolved(s.rows[e]) then None
      else Some(s.(rows := s.rows[e := Reconciled(s.rows[e], reply, at, staleAfter)]))
  }

  ghost function RunOf(cfg: Config, steps: seq<Step>): Option<State> {
    if steps == [] then Some(EMPTY) else
      var before := RunOf(cfg, steps[..|steps| - 1]);
      if before.None? then None else Apply(cfg, before.value, steps[|steps| - 1])
  }

  /** Every answer the engine gives about a run is `RUNNING` or an ending. */
  predicate HonestEngine(step: Step) {
    (step.Cancel? || step.Reconcile?) ==> Honest(step.reply)
  }

  /** A dispatch's closing write puts an active status onto a row that has already ended. */
  predicate Revives(s: State, step: Step) {
    match step
    case Finish(w, e, landed, ref, hearing, at) =>
      e in s.rows && s.rows[e].status.IsTerminal() && (hearing == Heard || hearing == Silence)
    case _ => false
  }
}
