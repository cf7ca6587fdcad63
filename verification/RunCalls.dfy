/** What each step of a call of `create` decides, by what it sees of the table, and why a call is
    refused (`executions.py`). */
module RunCalls {
  import opened Wrappers
  import opened Executions
  import opened RunProtocol

  /** One of the two counts has reached its limit; a run is active until it has
      ended, also while a cancel is asked for. */
  predicate IsFull(cfg: Config, rows: Rows, req: Request) {
    || |set e | e in rows && rows[e].workspace == req.workspace && rows[e].workflow == req.workflow
          && rows[e].status in {Queued, Dispatching, Running, CancelRequested}| >= cfg.perWorkflow
    || |set e | e in rows && rows[e].workspace == req.workspace
          && rows[e].status in {Queued, Dispatching, Running, CancelRequested}| >= cfg.ceiling(req.workspace)
  }

  /** The row a replay under this call's key would return; an empty key asks for none. */
  predicate Answers(rows: Rows, req: Request, e: nat) {
    && req.key.Some? && req.key.value != ""
    && e in rows && rows[e].workspace == req.workspace && rows[e].workflow == req.workflow
    && rows[e].idempotencyKey == req.key
  }

  lemma FullIffNoRoom(cfg: Config, rows: Rows, req: Request)
    ensures IsFull(cfg, rows, req) <==> !HasRoom(cfg, rows, req)
  {
    var here := set e | e in rows && rows[e].workspace == req.workspace && rows[e].workflow == req.workflow
      && rows[e].status in {Queued, Dispatching, Running, CancelRequested};
    var there := set e | e in rows && rows[e].workspace == req.workspace && rows[e].status in {Queued, Dispatching, Running, CancelRequested};
    assert here == ActiveIn(rows, req.workspace, req.workflow);
    assert there == ActiveInWorkspace(rows, req.workspace);
  }

  lemma FoundIffAnswers(rows: Rows, req: Request)
    ensures req.Keyed() && FindKey(rows, req).Some? <==> exists e :: Answers(rows, req, e)
    ensures req.Keyed() && FindKey(rows, req).Some? ==> Answers(rows, req, FindKey(rows, req).value)
  {
    if e :| Answers(rows, req, e) {
      assert Bears(rows[e], req.workspace, req.workflow, req.key.value);
    }
    assert req.Keyed() && FindKey(rows, req).Some? ==> Answers(rows, req, FindKey(rows, req).value);
  }

  /** The transaction gave this answer and its call is over. */
  ghost predicate Gave(s: State, t: nat, answer: Answer, s': State) {
    t in s.txns && s' == s.(txns := s.txns[t := s.txns[t].(phase := Idle, answers := s.txns[t].answers + [answer])])
  }

  ghost predicate PassedOn(s: State, t: nat, phase: Phase, s': State) {
    t in s.txns && s' == s.(txns := s.txns[t := s.txns[t].(phase := phase)])
  }

  /** A call under a key whose run is in sight is answered with that run; any other goes on. */
  lemma LookupDecides(cfg: Config, s: State, t: nat, req: Request)
    requires t in s.txns && s.txns[t].phase == Idle
    ensures Apply(cfg, s, Lookup(t, req)).Some?
    ensures var s' := Apply(cfg, s, Lookup(t, req)).value;
      var rows := s.rows + s.txns[t].pending;
      if exists e :: Answers(rows, req, e) then exists e :: Answers(rows, req, e) && Gave(s, t, Returned(req, e), s')
      else PassedOn(s, t, LookedUp(req), s')
  {
    FoundIffAnswers(s.Visible(t), req);
  }

  /** The lock waits for exactly the other open transactions that hold the workspace's. */
  lemma LockDecides(cfg: Config, s: State, t: nat, req: Request)
    requires t in s.txns && s.txns[t].phase == LookedUp(req)
    ensures var lock := cfg.lockOf(req.workspace);
      var s' := Apply(cfg, s, Lock(t));
      && (s'.None? <==> exists u :: u in s.txns && u != t && lock in s.txns[u].locks)
      && (s'.Some? ==>
            s'.value == s.(txns := s.txns[t := s.txns[t].(phase := Locked(req), locks := s.txns[t].locks + {lock})]))
  {
  }

  /** The check never blocks: below both limits the call goes on; at a limit it is answered with a row
      of its own key when it sees one, and refused when it sees none. */
  lemma CheckDecides(cfg: Config, s: State, t: nat, req: Request)
    requires t in s.txns && s.txns[t].phase == Locked(req)
    ensures DoCheck(cfg, s, t).Some?
    ensures var s' := DoCheck(cfg, s, t).value;
      var rows := s.rows + s.txns[t].pending;
      && (!IsFull(cfg, rows, req) ==> PassedOn(s, t, Counted(req), s'))
      && (IsFull(cfg, rows, req) && (exists e :: Answers(rows, req, e)) ==>
            exists e :: Answers(rows, req, e) && Gave(s, t, Returned(req, e), s'))
      && (IsFull(cfg, rows, req) && !(exists e :: Answers(rows, req, e)) ==> Gave(s, t, Raised(req), s'))
  {
    var rows := s.Visible(t);
    FullIffNoRoom(cfg, rows, req);
    FoundIffAnswers(rows, req);
  }

  /** A row of the same workspace and workflow under the same key; here an empty key is a key. */
  predicate Collides(rows: Rows, req: Request, e: nat) {
    && req.key.Some? && e in rows && rows[e].workspace == req.workspace && rows[e].workflow == req.workflow
    && rows[e].idempotencyKey == req.key
  }

  lemma FoundIffCollides(rows: Rows, req: Request)
    ensures FindKey(rows, req).Some? <==> exists e :: Collides(rows, req, e)
    ensures FindKey(rows, req).Some? ==> Collides(rows, req, FindKey(rows, req).value)
  {
    if e :| Collides(rows, req, e) {
      assert Bears(rows[e], req.workspace, req.workflow, req.key.value);
    }
    assert FindKey(rows, req).Some? ==> Collides(rows, req, FindKey(rows, req).value);
  }

  /** The insert waits for an open rival under the key. */
  lemma InsertWaitsIff(cfg: Config, s: State, t: nat, req: Request)
    requires t in s.txns && s.txns[t].phase == Counted(req)
    ensures Apply(cfg, s, Insert(t)).None? <==>
      req.valid && exists u, e :: u in s.txns && u != t && Collides(s.txns[u].pending, req, e)
  {
    forall u | u in s.txns
      ensures FindKey(s.txns[u].pending, req).Some? <==> exists e :: Collides(s.txns[u].pending, req, e)
    {
      FoundIffCollides(s.txns[u].pending, req);
    }
  }

  /** With nothing valid to run it is refused. A run in sight under the key is handed back, or, under
      an empty key, poisons the transaction. Otherwise one queued row is added under a new id. */
  lemma InsertDecides(cfg: Config, s: State, t: nat, req: Request)
    requires t in s.txns && s.txns[t].phase == Counted(req) && Apply(cfg, s, Insert(t)).Some?
    ensures var s' := Apply(cfg, s, Insert(t)).value;
      var rows := s.rows + s.txns[t].pending;
      if !req.valid then Gave(s, t, Raised(req), s')
      else if exists e :: Collides(rows, req, e) then
        if req.key == Some("") then PassedOn(s, t, Poisoned, s')
        else exists e :: Collides(rows, req, e) && Gave(s, t, Returned(req, e), s')
      else Added(s, t, req, s')
  {
    FoundIffCollides(s.Visible(t), req);
  }

  predicate Added(s: State, t: nat, req: Request, s': State)
    requires t in s.txns
  {
    var row := Row(req.workspace, req.workflow, req.key, Queued, None, req.at, None, None, None, None, None, [], []);
    s' == s.(
      nextId := s.nextId + 1,
      txns := s.txns[t := s.txns[t].(
        phase := Idle,
        pending := s.txns[t].pending[s.nextId := row],
        answers := s.txns[t].answers + [Returned(req, s.nextId)])])
  }

  /** In `s` this step refuses the call for a reason the code gives: a full table and no run under the
      call's key to hand back, or, below both limits, nothing valid to run. */
  ghost predicate Refuses(cfg: Config, s: State, step: Step, req: Request) {
    || (&& step.Check? && step.t in s.txns && s.txns[step.t].phase == Locked(req)
        && IsFull(cfg, s.rows + s.txns[step.t].pending, req)
        && !exists e :: Answers(s.rows + s.txns[step.t].pending, req, e))
    || (step.Insert? && step.t in s.txns && s.txns[step.t].phase == Counted(req) && !req.valid)
  }

  /** The refusal is on record, for the caller or in a transaction still open. */
  predicate Recorded(s: State, req: Request) {
    Raised(req) in s.results || exists t :: t in s.txns && Raised(req) in s.txns[t].answers
  }

  lemma CheckRefusal(cfg: Config, s: State, t: nat, s': State, req: Request)
    requires DoCheck(cfg, s, t) == Some(s') && Recorded(s', req) && !Recorded(s, req)
    ensures Refuses(cfg, s, Check(t), req)
  {
    var asked := s.txns[t].phase.req;
    CheckDecides(cfg, s, t, asked);
    assert Raised(req) in s'.txns[t].answers by {
      var u :| u in s'.txns && Raised(req) in s'.txns[u].answers;
    }
    assert Raised(req) !in s.txns[t].answers;
  }

  lemma InsertRefusal(cfg: Config, s: State, t: nat, s': State, req: Request)
    requires DoInsert(s, t) == Some(s') && Recorded(s', req) && !Recorded(s, req)
    ensures Refuses(cfg, s, Insert(t), req)
  {
    var asked := s.txns[t].phase.req;
    assert Raised(req) in s'.txns[t].answers by {
      var u :| u in s'.txns && Raised(req) in s'.txns[u].answers;
    }
    assert Raised(req) !in s.txns[t].answers;
  }

  lemma OtherStepsRefuseNone(cfg: Config, s: State, step: Step, s': State, req: Request)
    requires Apply(cfg, s, step) == Some(s') && Recorded(s', req) && !step.Check? && !step.Insert?
    ensures Recorded(s, req)
  {
    if Raised(req) !in s'.results {
      var u :| u in s'.txns && Raised(req) in s'.txns[u].answers;
      assert u in s.txns && Raised(req) in s.txns[u].answers;
    }
  }

  lemma NewRefusal(cfg: Config, s: State, step: Step, s': State, req: Request)
    requires Apply(cfg, s, step) == Some(s') && Recorded(s', req) && !Recorded(s, req)
    ensures Refuses(cfg, s, step, req)
  {
    if step.Check? {
      CheckRefusal(cfg, s, step.t, s', req);
    } else if step.Insert? {
      InsertRefusal(cfg, s, step.t, s', req);
    } else {
      OtherStepsRefuseNone(cfg, s, step, s', req);
    }
  }

  /** No call is refused without cause: every refusal any interleaving leaves on record was given at a
      step of it that found a limit reached and no run under the key, or nothing valid to run. */
  lemma {:induction false} RefusalHasCause(cfg: Config, steps: seq<Step>, req: Request) returns (i: nat)
    requires RunOf(cfg, steps).Some? && Recorded(RunOf(cfg, steps).value, req)
    ensures i < |steps| && RunOf(cfg, steps[..i]).Some?
    ensures Refuses(cfg, RunOf(cfg, steps[..i]).value, steps[i], req)
  {
    var n := |steps| - 1;
    assert steps != [];
    var before := RunOf(cfg, steps[..n]).value;
    if Recorded(before, req) {
      i := RefusalHasCause(cfg, steps[..n], req);
      assert steps[..n][..i] == steps[..i];
    } else {
      NewRefusal(cfg, before, steps[n], RunOf(cfg, steps).value, req);
      i := n;
    }
  }
}
