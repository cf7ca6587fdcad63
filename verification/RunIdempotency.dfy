/** Idempotency keys over every interleaving of `create` (`executions.py`, the partial unique
    index of `models/execution.py`). */
module RunIdempotency {
  import opened Wrappers
  import opened Executions
  import opened RunProtocol
  import opened RunQuota

  /** Row `e` exists, committed or pending in some open transaction. */
  ghost predicate Holds(s: State, e: nat, r: Row) {
    || (e in s.rows && s.rows[e] == r)
    || (exists t :: t in s.txns && e in s.txns[t].pending && s.txns[t].pending[e] == r)
  }

  ghost predicate KeysUnique(s: State) {
    forall e, r, f, q :: Holds(s, e, r) && Holds(s, f, q) && r.idempotencyKey.Some? && SameIdentity(r, q) ==> e == f
  }

  /** The answer names a row of the request's workflow, under the request's key if it has one. */
  predicate Names(rows: Rows, answer: Answer) {
    answer.Returned? ==>
      && answer.id in rows
      && rows[answer.id].workspace == answer.req.workspace && rows[answer.id].workflow == answer.req.workflow
      && (answer.req.Keyed() ==> rows[answer.id].idempotencyKey == answer.req.key)
  }

  ghost predicate AnswersTrue(s: State) {
    && (forall i :: 0 <= i < |s.results| ==> Names(s.rows, s.results[i]))
    && (forall t, i :: t in s.txns && 0 <= i < |s.txns[t].answers| ==> Names(s.Visible(t), s.txns[t].answers[i]))
  }

  // ---- uniqueness ----

  /** Whatever exists after a step existed before it with the same identity, or was just inserted. */
  lemma StepOrigins(cfg: Config, s: State, step: Step, s': State, e: nat, r: Row) returns (was: Row)
    requires Apply(cfg, s, step) == Some(s') && Holds(s', e, r)
    ensures SameIdentity(was, r)
    ensures Holds(s, e, was)
      || (step.Insert? && s'.nextId != s.nextId && e == s.nextId && DoInsert(s, step.t) == Some(s')
          && was == s'.txns[step.t].pending[e])
  {
    was := r;
    if IsRowStep(step) {
      RowStepWrites(cfg, s, step, s');
      if e in s'.rows && s'.rows[e] == r {
        was := s.rows[e];
      }
    } else if step.Insert? && s'.nextId != s.nextId {
      InsertAddsRow(s, step.t, s');
    } else if step.Lookup? || step.Check? || step.Insert? {
      CallStepMovesPhase(cfg, s, step, s');
    }
  }

  /** An inserted row's key is borne by nothing that existed. */
  lemma InsertedKeyIsNew(s: State, t: nat, s': State, f: nat, q: Row)
    requires IdsKnown(s) && DoInsert(s, t) == Some(s') && s'.nextId != s.nextId && Holds(s, f, q)
    ensures var r := s'.txns[t].pending[s.nextId]; r.idempotencyKey.Some? ==> !SameIdentity(r, q)
  {
    InsertAddsRow(s, t, s');
    var req := s.txns[t].phase.req;
    if f in s.rows && s.rows[f] == q {
      assert s.Visible(t)[f] == q;
    } else {
      var u :| u in s.txns && f in s.txns[u].pending && s.txns[u].pending[f] == q;
      if u == t {
        assert s.Visible(t)[f] == q;
      } else {
        assert FindKey(s.txns[u].pending, req).None?;
      }
    }
  }

  lemma StepKeepsKeysUnique(cfg: Config, s: State, step: Step, s': State)
    requires IdsKnown(s) && KeysUnique(s) && Apply(cfg, s, step) == Some(s')
    ensures KeysUnique(s')
  {
    forall e, r, f, q | Holds(s', e, r) && Holds(s', f, q) && r.idempotencyKey.Some? && SameIdentity(r, q) ensures e == f {
      var was := StepOrigins(cfg, s, step, s', e, r);
      var other := StepOrigins(cfg, s, step, s', f, q);
      if Holds(s, e, was) && !Holds(s, f, other) {
        InsertedKeyIsNew(s, step.t, s', e, was);
      } else if !Holds(s, e, was) && Holds(s, f, other) {
        InsertedKeyIsNew(s, step.t, s', f, other);
      }
    }
  }

  // ---- answers ----

  /** Transaction `t` may have answered, with an answer that is true of what it sees. */
  ghost predicate AnsweredTruly(s: State, t: nat, s': State) {
    && t in s.txns && s'.rows == s.rows && s'.results == s.results && s'.txns.Keys == s.txns.Keys
    && (forall u :: u in s.txns && u != t ==> s'.txns[u] == s.txns[u])
    && s'.txns[t].pending == s.txns[t].pending
    && (s'.txns[t].answers == s.txns[t].answers || exists a ::
          s'.txns[t].answers == s.txns[t].answers + [a] && Names(s.Visible(t), a))
  }

  lemma ReplyAnswersTruly(s: State, t: nat, answer: Answer)
    requires t in s.txns && Names(s.Visible(t), answer)
    ensures AnsweredTruly(s, t, Replied(s, t, answer))
  {
  }

  lemma LookupAnswersTruly(s: State, t: nat, req: Request, s': State)
    requires DoLookup(s, t, req) == Some(s')
    ensures AnsweredTruly(s, t, s')
  {
    if s' != Moved(s, t, LookedUp(req)) {
      ReplyAnswersTruly(s, t, Returned(req, FindKey(s.Visible(t), req).value));
    }
  }

  lemma CheckAnswersTruly(cfg: Config, s: State, t: nat, s': State)
    requires DoCheck(cfg, s, t) == Some(s')
    ensures AnsweredTruly(s, t, s')
  {
    var req := s.txns[t].phase.req;
    ReplyAnswersTruly(s, t, Raised(req));
    if s' != Moved(s, t, Counted(req)) && s' != Replied(s, t, Raised(req)) {
      ReplyAnswersTruly(s, t, Returned(req, FindKey(s.Visible(t), req).value));
    }
  }

  lemma BareInsertAnswersTruly(s: State, t: nat, s': State)
    requires DoInsert(s, t) == Some(s') && s'.nextId == s.nextId
    ensures AnsweredTruly(s, t, s')
  {
    var req := s.txns[t].phase.req;
    ReplyAnswersTruly(s, t, Raised(req));
    if s' != Moved(s, t, Poisoned) && s' != Replied(s, t, Raised(req)) {
      ReplyAnswersTruly(s, t, Returned(req, FindKey(s.Visible(t), req).value));
    }
  }

  lemma TrulyAnsweredStaysTrue(s: State, t: nat, s': State)
    requires AnswersTrue(s) && AnsweredTruly(s, t, s')
    ensures AnswersTrue(s')
  {
  }

  lemma InsertKeepsAnswers(s: State, t: nat, s': State)
    requires IdsKnown(s) && AnswersTrue(s) && DoInsert(s, t) == Some(s') && s'.nextId != s.nextId
    ensures AnswersTrue(s')
  {
    InsertAddsRow(s, t, s');
    VisibleAfterInsert(s, t, s');
    InsertedAnswersTrue(s, t, s', Returned(s.txns[t].phase.req, s.nextId));
  }

  lemma InsertedAnswersTrue(s: State, t: nat, s': State, answer: Answer)
    requires AnswersTrue(s) && t in s.txns && s'.rows == s.rows && s'.results == s.results && s'.txns.Keys == s.txns.Keys
    requires forall u :: u in s.txns && u != t ==> s'.txns[u] == s.txns[u]
    requires s'.txns[t].answers == s.txns[t].answers + [answer] && Names(s'.Visible(t), answer)
    requires forall e :: e in s.Visible(t) ==> e in s'.Visible(t) && s'.Visible(t)[e] == s.Visible(t)[e]
    ensures AnswersTrue(s')
  {
  }

  /** Answers stay true when transactions are only opened, locked or dropped, and when committed
      rows keep their identity. */
  lemma QuietStepKeepsAnswers(s: State, s': State)
    requires AnswersTrue(s) && s'.results == s.results && s'.rows.Keys == s.rows.Keys
    requires forall e :: e in s.rows ==> SameIdentity(s.rows[e], s'.rows[e])
    requires forall t :: t in s'.txns && s'.txns[t].answers != [] ==>
      t in s.txns && s'.txns[t].answers == s.txns[t].answers && s'.txns[t].pending == s.txns[t].pending
    ensures AnswersTrue(s')
  {
  }

  lemma StepKeepsAnswers(cfg: Config, s: State, step: Step, s': State)
    requires IdsKnown(s) && AnswersTrue(s) && Apply(cfg, s, step) == Some(s')
    ensures AnswersTrue(s')
  {
    match step
    case Begin(_) => QuietStepKeepsAnswers(s, s');
    case Lock(_) => QuietStepKeepsAnswers(s, s');
    case Abort(_) => QuietStepKeepsAnswers(s, s');
    case Commit(t) => CommitKeepsAnswers(s, t, s');
    case Lookup(t, req) =>
      LookupAnswersTruly(s, t, req, s');
      TrulyAnsweredStaysTrue(s, t, s');
    case Check(t) =>
      CheckAnswersTruly(cfg, s, t, s');
      TrulyAnsweredStaysTrue(s, t, s');
    case Insert(t) =>
      if s'.nextId != s.nextId {
        InsertKeepsAnswers(s, t, s');
      } else {
        BareInsertAnswersTruly(s, t, s');
        TrulyAnsweredStaysTrue(s, t, s');
      }
    case _ =>
      RowStepWrites(cfg, s, step, s');
      QuietStepKeepsAnswers(s, s');
  }

  lemma CommitKeepsAnswers(s: State, t: nat, s': State)
    requires IdsKnown(s) && AnswersTrue(s) && DoCommit(s, t) == Some(s')
    ensures AnswersTrue(s')
  {
  }

  // ---- whole runs ----

  lemma {:induction false} ReachableKeys(cfg: Config, steps: seq<Step>)
    requires RunOf(cfg, steps).Some?
    ensures KeysUnique(RunOf(cfg, steps).value) && AnswersTrue(RunOf(cfg, steps).value)
  {
    if steps != [] {
      var n := |steps| - 1;
      var s, s' := RunOf(cfg, steps[..n]).value, RunOf(cfg, steps).value;
      ReachableOrderly(cfg, steps[..n]);
      ReachableKeys(cfg, steps[..n]);
      StepKeepsKeysUnique(cfg, s, steps[n], s');
      StepKeepsAnswers(cfg, s, steps[n], s');
    }
  }

  /** At most one committed row per workspace, workflow and key. */
  lemma OneRowPerKey(cfg: Config, steps: seq<Step>, e: nat, f: nat)
    requires RunOf(cfg, steps).Some?
    requires var rows := RunOf(cfg, steps).value.rows;
      e in rows && f in rows && rows[e].idempotencyKey.Some? && SameIdentity(rows[e], rows[f])
    ensures e == f
  {
    ReachableKeys(cfg, steps);
    var s := RunOf(cfg, steps).value;
    assert Holds(s, e, s.rows[e]) && Holds(s, f, s.rows[f]);
  }

  /** Two committed answers under one key name the same row, and it is the key's row. */
  lemma KeyedCallsAgree(cfg: Config, steps: seq<Step>, i: nat, j: nat)
    requires RunOf(cfg, steps).Some? && i < |RunOf(cfg, steps).value.results| && j < |RunOf(cfg, steps).value.results|
    requires var a, b := RunOf(cfg, steps).value.results[i], RunOf(cfg, steps).value.results[j];
      && a.Returned? && b.Returned? && a.req.Keyed()
      && a.req.workspace == b.req.workspace && a.req.workflow == b.req.workflow && a.req.key == b.req.key
    ensures var s := RunOf(cfg, steps).value; var a := s.results[i];
      && s.results[j].id == a.id && a.id in s.rows
      && Bears(s.rows[a.id], a.req.workspace, a.req.workflow, a.req.key.value)
  {
    ReachableKeys(cfg, steps);
    var s := RunOf(cfg, steps).value;
    assert Names(s.rows, s.results[i]) && Names(s.rows, s.results[j]);
    OneRowPerKey(cfg, steps, s.results[i].id, s.results[j].id);
  }

  /** What the key of a committed row makes `create` do, at each step that could refuse it. */
  lemma CommittedKeyIsFound(cfg: Config, steps: seq<Step>, t: nat, req: Request, e: nat)
    requires RunOf(cfg, steps).Some? && t in RunOf(cfg, steps).value.txns && req.Keyed()
    requires e in RunOf(cfg, steps).value.rows
    requires Bears(RunOf(cfg, steps).value.rows[e], req.workspace, req.workflow, req.key.value)
    ensures FindKey(RunOf(cfg, steps).value.Visible(t), req) == Some(e)
  {
    var s := RunOf(cfg, steps).value;
    ReachableOrderly(cfg, steps);
    ReachableKeys(cfg, steps);
    assert e in s.Visible(t) && s.Visible(t)[e] == s.rows[e];
    var found := FindKey(s.Visible(t), req);
    assert Holds(s, e, s.rows[e]) && Holds(s, found.value, s.Visible(t)[found.value]);
  }

  /** A call whose key is already committed is answered by the lookup: with that row, with
      nothing inserted, and without asking for the lock or the count, however full the limits. */
  lemma ReplayIsAnsweredAtOnce(cfg: Config, steps: seq<Step>, t: nat, req: Request, e: nat)
    requires RunOf(cfg, steps).Some? && t in RunOf(cfg, steps).value.txns && RunOf(cfg, steps).value.txns[t].phase == Idle
    requires req.Keyed() && e in RunOf(cfg, steps).value.rows
    requires Bears(RunOf(cfg, steps).value.rows[e], req.workspace, req.workflow, req.key.value)
    ensures Apply(cfg, RunOf(cfg, steps).value, Lookup(t, req)) ==
      Some(Replied(RunOf(cfg, steps).value, t, Returned(req, e)))
  {
    CommittedKeyIsFound(cfg, steps, t, req, e);
  }

  /** A call already past its lookup when the key commits is never refused and never inserts:
      whatever the check or the insert does next, it returns that row or moves on to the insert. */
  lemma LateReplayIsNeverRefused(cfg: Config, steps: seq<Step>, t: nat, e: nat)
    requires RunOf(cfg, steps).Some? && t in RunOf(cfg, steps).value.txns
    requires var phase := RunOf(cfg, steps).value.txns[t].phase;
      (phase.Locked? || phase.Counted?) && phase.req.Keyed() && phase.req.valid
    requires e in RunOf(cfg, steps).value.rows
    requires var req := RunOf(cfg, steps).value.txns[t].phase.req;
      Bears(RunOf(cfg, steps).value.rows[e], req.workspace, req.workflow, req.key.value)
    ensures var s := RunOf(cfg, steps).value; var req := s.txns[t].phase.req;
      && (s.txns[t].phase.Locked? ==>
            Apply(cfg, s, Check(t)) in {Some(Replied(s, t, Returned(req, e))), Some(Moved(s, t, Counted(req)))})
      && (s.txns[t].phase.Counted? ==>
            Apply(cfg, s, Insert(t)) == Some(Replied(s, t, Returned(req, e))))
  {
    var s := RunOf(cfg, steps).value;
    var req := s.txns[t].phase.req;
    CommittedKeyIsFound(cfg, steps, t, req, e);
    if s.txns[t].phase.Counted? {
      ReachableKeys(cfg, steps);
      ReachableOrderly(cfg, steps);
      forall u | u in s.txns && u != t ensures FindKey(s.txns[u].pending, req).None? {
        var found := FindKey(s.txns[u].pending, req);
        if found.Some? {
          assert Holds(s, e, s.rows[e]) && Holds(s, found.value, s.txns[u].pending[found.value]);
        }
      }
    }
  }
}
