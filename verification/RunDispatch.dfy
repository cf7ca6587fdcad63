/** Claims, dispatches and what can land between them (`worker.py` `dispatch_loop`,
    `executions.py` `dispatch` and `claim_queued`, `engine/base.py` `execute`). */
module RunDispatch {
  import opened Wrappers
  import opened Executions
  import opened RunProtocol
  import opened RunQuota

  // ---- one worker, one engine run ----

  /** A held row is committed, held once, and cannot be claimed again. */
  ghost predicate HandsApart(s: State) {
    && (forall w, v, e :: w != v && e in s.Hand(w) ==> e !in s.Hand(v))
    && (forall w, e :: e in s.Hand(w) ==> e in s.rows && s.rows[e].status != Queued)
  }

  predicate StartedOnce(engine: seq<Started>) {
    forall i, j :: 0 <= i < j < |engine| ==> engine[i].execution != engine[j].execution
  }

  /** The engine log has one run per execution, and a row's reference is that run's. */
  ghost predicate RefsTrue(s: State) {
    && StartedOnce(s.engine)
    && (forall e :: e in s.rows && s.rows[e].engineRef.Some? ==> RefOf(s.engine, e) == s.rows[e].engineRef)
    && (forall t, e :: t in s.txns && e in s.txns[t].pending ==> s.txns[t].pending[e].engineRef.None?)
  }

  lemma {:induction false} RefOfAppend(engine: seq<Started>, x: Started, e: nat)
    ensures RefOf(engine + [x], e) ==
      if RefOf(engine, e).Some? then RefOf(engine, e) else if x.execution == e then Some(x.ref) else None
  {
    if engine == [] {
      assert engine + [x] == [x];
    } else {
      assert (engine + [x])[1..] == engine[1..] + [x];
      RefOfAppend(engine[1..], x, e);
    }
  }

  lemma {:induction false} RefOfMember(engine: seq<Started>, i: nat)
    requires i < |engine|
    ensures RefOf(engine, engine[i].execution).Some?
  {
    if engine[0].execution != engine[i].execution {
      RefOfMember(engine[1..], i - 1);
    }
  }

  /** The row a step writes, when it is a row step. */
  lemma RowStepTouchesOne(cfg: Config, s: State, step: Step, s': State)
    requires IsRowStep(step) && Apply(cfg, s, step) == Some(s')
    ensures forall e :: e in s.rows && e != step.e ==> s'.rows[e] == s.rows[e]
  {
  }

  /** The hands a row step leaves. */
  lemma HandAfter(cfg: Config, s: State, step: Step, s': State, w: nat)
    requires IsRowStep(step) && Apply(cfg, s, step) == Some(s')
    ensures s'.Hand(w) ==
      if step.Claim? && step.w == w then s.Hand(w) + {step.e}
      else if (step.Finish? || step.Drop?) && step.w == w then s.Hand(w) - {step.e}
      else s.Hand(w)
    ensures step.Finish? || step.Drop? || step.Mark? ==> step.e in s.Hand(step.w)
    ensures step.Claim? ==> step.e in s.rows && s.rows[step.e].status == Queued
  {
  }

  /** What a claim and the two writes of a dispatch leave on the committed row: the claim a status, the
      first write a time alone, and the last the engine's run when it was heard, the queue when it was silent, an ending when it refused, and
      nothing after any other failure. */
  lemma DispatchWrites(cfg: Config, s: State, step: Step, s': State)
    requires (step.Claim? || step.Mark? || step.Finish?) && Apply(cfg, s, step) == Some(s')
    ensures step.e in s.rows && s'.rows.Keys == s.rows.Keys
    ensures var r, r' := s.rows[step.e], s'.rows[step.e];
      && (step.Claim? ==> r.status == Queued && r' == r.(status := Dispatching))
      && (step.Mark? ==> r' == r.(lastSeenAt := Some(step.at)))
      && (step.Finish? && step.hearing.Heard? ==>
            && r'.status == Running && r'.engineRef == RefOf(s'.engine, step.e) && r'.engineRef.Some?
            && r'.startedAt == (if r.startedAt.Some? then r.startedAt else Some(step.at)) && r'.endedAt == r.endedAt)
      && (step.Finish? && step.hearing.Silence? ==> r' == r.(status := Queued, errorCode := Some("ENGINE_UNAVAILABLE")))
      && (step.Finish? && step.hearing.Rejection? ==>
            r' == r.(status := FailedToStart, errorCode := Some(step.hearing.code), endedAt := Some(step.at)))
      && (step.Finish? && step.hearing.Failure? ==> r' == r)
  {
    if step.Finish? && step.landed && RefOf(s.engine, step.e).None? {
      RefOfAppend(s.engine, Started(step.e, step.ref), step.e);
    }
  }

  /** The engine starts a run exactly when a request lands for an execution it has none for. */
  lemma EngineStartsIff(cfg: Config, s: State, step: Step, s': State)
    requires Apply(cfg, s, step) == Some(s')
    ensures s'.engine ==
      if step.Finish? && step.landed && (forall i :: 0 <= i < |s.engine| ==> s.engine[i].execution != step.e)
      then s.engine + [Started(step.e, step.ref)] else s.engine
  {
    if step.Finish? {
      RefOfNone(s.engine, step.e);
    }
  }

  lemma {:induction false} RefOfNone(engine: seq<Started>, e: nat)
    ensures RefOf(engine, e).None? <==> forall i :: 0 <= i < |engine| ==> engine[i].execution != e
  {
    if engine != [] {
      RefOfNone(engine[1..], e);
      assert forall i :: 0 < i < |engine| ==> engine[i] == engine[1..][i - 1];
    }
  }

  /** The steps of a call leave hands, engine and committed rows alone, except that a commit adds rows. */
  lemma TxnStepAdds(cfg: Config, s: State, step: Step, s': State)
    requires IdsKnown(s) && !IsRowStep(step) && Apply(cfg, s, step) == Some(s')
    ensures s'.hands == s.hands && s'.engine == s.engine
    ensures forall e :: e in s.rows ==> e in s'.rows && s'.rows[e] == s.rows[e]
    ensures forall e :: e in s'.rows && e !in s.rows ==>
      step.Commit? && e in s.txns[step.t].pending && s'.rows[e] == s.txns[step.t].pending[e]
  {
    match step
    case Lookup(t, req) => LookupMovesPhase(s, t, req, s');
    case Check(t) => CheckMovesPhase(cfg, s, t, s');
    case Insert(t) => InsertLeavesRest(s, t, s');
    case _ =>
  }

  lemma InsertLeavesRest(s: State, t: nat, s': State)
    requires DoInsert(s, t) == Some(s')
    ensures s'.rows == s.rows && s'.hands == s.hands && s'.engine == s.engine
  {
  }

  lemma StepKeepsHands(cfg: Config, s: State, step: Step, s': State)
    requires HandsApart(s) && IdsKnown(s) && Apply(cfg, s, step) == Some(s') && HonestEngine(step)
    ensures HandsApart(s')
  {
    if IsRowStep(step) {
      forall w, e | e in s'.Hand(w) ensures e in s'.rows && s'.rows[e].status != Queued {
        HeldRowStaysClaimed(cfg, s, step, s', w, e);
      }
      forall w, v, e | w != v && e in s'.Hand(w) ensures e !in s'.Hand(v) {
        HeldRowStaysApart(cfg, s, step, s', w, v, e);
      }
    } else {
      TxnStepAdds(cfg, s, step, s');
      forall w ensures s'.Hand(w) == s.Hand(w) {
      }
    }
  }

  lemma HeldRowStaysClaimed(cfg: Config, s: State, step: Step, s': State, w: nat, e: nat)
    requires HandsApart(s) && IsRowStep(step) && Apply(cfg, s, step) == Some(s') && HonestEngine(step) && e in s'.Hand(w)
    ensures e in s'.rows && s'.rows[e].status != Queued
  {
    RowStepTouchesOne(cfg, s, step, s');
    HandAfter(cfg, s, step, s', w);
    assert e in s.Hand(w) && step.Finish? ==> step.e != e;
    assert e in s.Hand(w) ==> e in s.rows && s.rows[e].status != Queued;
  }

  lemma HeldRowStaysApart(cfg: Config, s: State, step: Step, s': State, w: nat, v: nat, e: nat)
    requires HandsApart(s) && IsRowStep(step) && Apply(cfg, s, step) == Some(s') && w != v && e in s'.Hand(w)
    ensures e !in s'.Hand(v)
  {
    HandAfter(cfg, s, step, s', w);
    HandAfter(cfg, s, step, s', v);
    assert e in s.Hand(w) ==> e !in s.Hand(v);
    assert step.Claim? ==> step.e !in s.Hand(w) && step.e !in s.Hand(v);
  }

  lemma RowStepKeepsRefs(cfg: Config, s: State, step: Step, s': State)
    requires IsRowStep(step) && !step.Finish? && Apply(cfg, s, step) == Some(s')
    ensures s'.engine == s.engine && s'.txns == s.txns && s'.rows.Keys == s.rows.Keys
    ensures forall e :: e in s.rows ==> s'.rows[e].engineRef == s.rows[e].engineRef
  {
  }

  /** Pending rows carry no reference yet. */
  lemma TxnStepPending(cfg: Config, s: State, step: Step, s': State, t: nat, e: nat)
    requires !IsRowStep(step) && Apply(cfg, s, step) == Some(s') && t in s'.txns && e in s'.txns[t].pending
    ensures s'.txns[t].pending[e].engineRef.None?
      || (t in s.txns && e in s.txns[t].pending && s'.txns[t].pending[e] == s.txns[t].pending[e])
  {
    if step.Insert? && s'.nextId != s.nextId {
      InsertAddsRow(s, step.t, s');
    } else if step.Lookup? || step.Check? || step.Insert? {
      CallStepMovesPhase(cfg, s, step, s');
    }
  }

  lemma StepKeepsRefs(cfg: Config, s: State, step: Step, s': State)
    requires RefsTrue(s) && IdsKnown(s) && Apply(cfg, s, step) == Some(s')
    ensures RefsTrue(s')
    ensures forall e :: e in s.rows && s.rows[e].engineRef.Some? ==> e in s'.rows && s'.rows[e].engineRef == s.rows[e].engineRef
  {
    if step.Finish? {
      FinishKeepsRefs(s, step.w, step.e, step.landed, step.ref, step.hearing, step.at, s');
    } else if IsRowStep(step) {
      RowStepKeepsRefs(cfg, s, step, s');
    } else {
      TxnStepAdds(cfg, s, step, s');
      forall t, e | t in s'.txns && e in s'.txns[t].pending ensures s'.txns[t].pending[e].engineRef.None? {
        TxnStepPending(cfg, s, step, s', t, e);
      }
    }
  }

  lemma FinishKeepsRefs(s: State, w: nat, e: nat, landed: bool, ref: string, hearing: Hearing, at: int, s': State)
    requires RefsTrue(s) && DoFinish(s, w, e, landed, ref, hearing, at) == Some(s')
    ensures RefsTrue(s')
    ensures forall f :: f in s.rows && s.rows[f].engineRef.Some? ==> f in s'.rows && s'.rows[f].engineRef == s.rows[f].engineRef
  {
    if landed && RefOf(s.engine, e).None? {
      forall f
        ensures RefOf(s'.engine, f) ==
          (if RefOf(s.engine, f).Some? then RefOf(s.engine, f) else if e == f then Some(ref) else None)
      {
        RefOfAppend(s.engine, Started(e, ref), f);
      }
      forall i | 0 <= i < |s.engine| ensures s.engine[i].execution != e {
        RefOfMember(s.engine, i);
      }
    }
  }

  lemma {:induction false} ReachableDispatch(cfg: Config, steps: seq<Step>)
    requires RunOf(cfg, steps).Some? && forall i :: 0 <= i < |steps| ==> HonestEngine(steps[i])
    ensures HandsApart(RunOf(cfg, steps).value) && RefsTrue(RunOf(cfg, steps).value)
  {
    if steps != [] {
      var n := |steps| - 1;
      var s, s' := RunOf(cfg, steps[..n]).value, RunOf(cfg, steps).value;
      ReachableOrderly(cfg, steps[..n]);
      ReachableDispatch(cfg, steps[..n]);
      StepKeepsHands(cfg, s, steps[n], s');
      StepKeepsRefs(cfg, s, steps[n], s');
    }
  }

  /** With any number of workers, and cancels and reconciles anywhere: no execution is in two
      hands, and however often it is dispatched the engine runs it at most once, under the one
      reference its row can carry. */
  lemma OneHandOneRun(cfg: Config, steps: seq<Step>, w: nat, v: nat, e: nat)
    requires RunOf(cfg, steps).Some? && forall i :: 0 <= i < |steps| ==> HonestEngine(steps[i])
    ensures var s := RunOf(cfg, steps).value;
      && (e in s.Hand(w) && e in s.Hand(v) ==> w == v)
      && (forall i, j ::
            0 <= i < |s.engine| && 0 <= j < |s.engine| && s.engine[i].execution == e == s.engine[j].execution ==> i == j)
      && (e in s.rows && s.rows[e].engineRef.Some? ==> Started(e, s.rows[e].engineRef.value) in s.engine)
  {
    ReachableDispatch(cfg, steps);
    var s := RunOf(cfg, steps).value;
    if e in s.rows && s.rows[e].engineRef.Some? {
      RefOfIsLogged(s.engine, e);
    }
  }

  lemma {:induction false} RefOfIsLogged(engine: seq<Started>, e: nat)
    requires RefOf(engine, e).Some?
    ensures Started(e, RefOf(engine, e).value) in engine
  {
    if engine[0].execution != e {
      RefOfIsLogged(engine[1..], e);
    }
  }

  /** An engine reference, once set, is the same in every later state. */
  lemma {:induction false} RefNeverChanges(cfg: Config, steps: seq<Step>, i: nat, e: nat)
    requires RunOf(cfg, steps).Some? && i <= |steps| && RunOf(cfg, steps[..i]).Some?
    requires forall k :: 0 <= k < |steps| ==> HonestEngine(steps[k])
    requires e in RunOf(cfg, steps[..i]).value.rows && RunOf(cfg, steps[..i]).value.rows[e].engineRef.Some?
    ensures e in RunOf(cfg, steps).value.rows
    ensures RunOf(cfg, steps).value.rows[e].engineRef == RunOf(cfg, steps[..i]).value.rows[e].engineRef
    decreases |steps|
  {
    var n := |steps| - 1;
    if i == |steps| {
      assert steps[..i] == steps;
    } else {
      assert steps[..n][..i] == steps[..i];
      RefNeverChanges(cfg, steps[..n], i, e);
      ReachableOrderly(cfg, steps[..n]);
      ReachableDispatch(cfg, steps[..n]);
      StepKeepsRefs(cfg, RunOf(cfg, steps[..n]).value, steps[n], RunOf(cfg, steps).value);
    }
  }
}
