/** One execution row and the service calls that change it (`executions.py`, `worker.py`,
    `enums.py`).

    The functions say what each call leaves on the row; the class performs the calls step by
    step and is proved to leave exactly that. */
module Executions {
  import opened Wrappers

  datatype Status =
    | Queued | Dispatching | Running | CancelRequested
    | Succeeded | Failed | Cancelled | TimedOut | FailedToStart | EngineInterrupted
  {
    predicate IsTerminal() {
      this in {Succeeded, Failed, Cancelled, TimedOut, FailedToStart, EngineInterrupted}
    }

    predicate IsActive() {
      this in {Queued, Dispatching, Running, CancelRequested}
    }
  }

  datatype Row = Row(
    workspace: string,
    workflow: string,
    idempotencyKey: Option<string>,
    status: Status,
    engineRef: Option<string>,
    queuedAt: int,
    startedAt: Option<int>,
    endedAt: Option<int>,
    lastSeenAt: Option<int>,
    durationMs: Option<int>,
    errorCode: Option<string>,
    nodeResults: seq<string>,
    logLines: seq<string>)

  function FreshRow(workspace: string, workflow: string, key: Option<string>, now: int): Row {
    Row(workspace, workflow, key, Queued, None, now, None, None, None, None, None, [], [])
  }

  /** How the engine answered a dispatch. `Broken` is any failure outside the two handled ones. */
  datatype DispatchOutcome = Accepted(ref: string) | EngineDown | Refused(code: string) | Broken

  datatype EngineStatus = EngineStatus(
    status: Status,
    startedAt: Option<int>,
    endedAt: Option<int>,
    durationMs: Option<int>,
    errorCode: Option<string>,
    nodeResults: seq<string>,
    logLines: seq<string>)

  /** How the engine answered a question about a run. */
  datatype Reply = Unreachable | UnknownRun | OtherError | Reported(report: EngineStatus)

  function OrElse<T>(a: Option<T>, b: Option<T>): Option<T> {
    if a.Some? then a else b
  }

  // ---- what each call leaves on the row ----

  function Claimed(r: Row): Row {
    r.(status := Dispatching)
  }

  function MarkedDispatching(r: Row, now: int): Row {
    r.(status := Dispatching, lastSeenAt := Some(now))
  }

  function DispatchFinished(r: Row, outcome: DispatchOutcome, now: int): Row {
    match outcome
    case Accepted(ref) =>
      r.(engineRef := Some(ref), status := Running,
         startedAt := OrElse(r.startedAt, Some(now)), lastSeenAt := Some(now))
    case EngineDown => r.(status := Queued, errorCode := Some("ENGINE_UNAVAILABLE"))
    case Refused(code) => r.(status := FailedToStart, errorCode := Some(code), endedAt := Some(now))
    case Broken => r
  }

  function Ingested(r: Row, report: EngineStatus, now: int): Row {
    var seen := r.(lastSeenAt := Some(now));
    if report.status == Running then
      if r.status == Dispatching then seen.(status := Running, startedAt := OrElse(r.startedAt, Some(now))) else seen
    else
      seen.(nodeResults := report.nodeResults, logLines := report.logLines,
            status := report.status,
            startedAt := OrElse(report.startedAt, r.startedAt),
            endedAt := OrElse(report.endedAt, Some(now)),
            durationMs := report.durationMs, errorCode := report.errorCode)
  }

  function Interrupted(r: Row, now: int): Row {
    r.(status := EngineInterrupted, errorCode := Some("ENGINE_INTERRUPTED"), endedAt := Some(now),
       durationMs := if r.startedAt.Some? then Some((now - r.startedAt.value) * 1000) else r.durationMs)
  }

  /** `None` when the call raises, which rolls the row back. */
  function Polled(r: Row, reply: Reply, now: int): Option<Row> {
    if r.engineRef.None? then Some(r) else
      match reply
      case Unreachable => Some(r)
      case UnknownRun => Some(Interrupted(r, now))
      case OtherError => None
      case Reported(report) => Some(Ingested(r, report, now))
  }

  predicate IsStale(r: Row, now: int, staleAfter: int) {
    now - r.lastSeenAt.GetOr(r.queuedAt) > staleAfter
  }

  function InterruptedIfStale(r: Row, now: int, staleAfter: int): Row {
    if r.status.IsTerminal() || !IsStale(r, now, staleAfter) then r
    else if r.engineRef.None? then
      r.(status := FailedToStart, errorCode := Some("ENGINE_UNAVAILABLE"), endedAt := Some(now))
    else Interrupted(r, now)
  }

  /** One row of a reconcile pass: poll, then give up on it if it has been silent too long. */
  function Reconciled(r: Row, reply: Reply, now: int, staleAfter: int): Row {
    match Polled(r, reply, now)
    case None => r
    case Some(polled) => InterruptedIfStale(polled, now, staleAfter)
  }

  function CancelledByUser(r: Row, reply: Reply, now: int): Row {
    if r.status.IsTerminal() then r
    else if r.engineRef.None? then r.(status := Cancelled, endedAt := Some(now))
    else
      var requested := r.(status := CancelRequested);
      match reply
      case Unreachable => requested
      case UnknownRun => r
      case OtherError => r
      case Reported(report) => Ingested(requested, report, now)
  }

  // ---- the calls ----

  class Execution {
    const workspace: string
    const workflow: string
    const idempotencyKey: Option<string>
    const queuedAt: int
    var status: Status
    var engineRef: Option<string>
    var startedAt: Option<int>
    var endedAt: Option<int>
    var lastSeenAt: Option<int>
    var durationMs: Option<int>
    var errorCode: Option<string>
    var nodeResults: seq<string>
    var logLines: seq<string>

    constructor (workspace: string, workflow: string, key: Option<string>, now: int)
      ensures Snapshot() == FreshRow(workspace, workflow, key, now)
      ensures this.workspace == workspace && this.workflow == workflow && idempotencyKey == key && queuedAt == now
      ensures status == Queued && engineRef.None? && startedAt.None? && endedAt.None? && lastSeenAt.None?
      ensures durationMs.None? && errorCode.None? && nodeResults == [] && logLines == []
    {
      this.workspace, this.workflow, this.idempotencyKey, this.queuedAt := workspace, workflow, key, now;
      status, engineRef, startedAt, endedAt, lastSeenAt := Queued, None, None, None, None;
      durationMs, errorCode, nodeResults, logLines := None, None, [], [];
    }

    function Snapshot(): Row
      reads this
    {
      Row(workspace, workflow, idempotencyKey, status, engineRef, queuedAt, startedAt, endedAt,
        lastSeenAt, durationMs, errorCode, nodeResults, logLines)
    }

    method MarkDispatching(now: int)
      modifies this
      ensures Snapshot() == MarkedDispatching(old(Snapshot()), now)
      ensures status == Dispatching && lastSeenAt == Some(now)
      ensures engineRef == old(engineRef) && startedAt == old(startedAt) && endedAt == old(endedAt)
      ensures old(Coherent(Snapshot())) ==>
        (Coherent(Snapshot()) <==> !old(status).IsTerminal() && old(engineRef).None?)
    {
      status := Dispatching;
      lastSeenAt := Some(now);
    }

    /** The part of `dispatch` after the engine has answered. */
    method FinishDispatch(outcome: DispatchOutcome, now: int)
      modifies this
      ensures Snapshot() == DispatchFinished(old(Snapshot()), outcome, now)
      ensures outcome.Accepted? ==>
        && status == Running && engineRef == Some(outcome.ref) && lastSeenAt == Some(now) && endedAt == old(endedAt)
        && startedAt == (if old(startedAt).Some? then old(startedAt) else Some(now))
      ensures outcome.Refused? ==> status == FailedToStart && errorCode == Some(outcome.code) && endedAt == Some(now)
      ensures outcome.EngineDown? ==> status == Queued && errorCode == Some("ENGINE_UNAVAILABLE") && endedAt == old(endedAt)
      ensures !outcome.Accepted? ==> engineRef == old(engineRef) && startedAt == old(startedAt)
      ensures old(Coherent(Snapshot())) && old(status) == Dispatching ==>
        && Coherent(Snapshot())
        && (status.IsTerminal() <==> outcome.Refused?) && (engineRef.Some? <==> outcome.Accepted?)
        && (status == Queued <==> outcome.EngineDown?)
    {
      match outcome {
        case EngineDown =>
          status := Queued;
          errorCode := Some("ENGINE_UNAVAILABLE");
        case Refused(code) =>
          status := FailedToStart;
          errorCode := Some(code);
          endedAt := Some(now);
        case Accepted(ref) =>
          engineRef := Some(ref);
          status := Running;
          if startedAt.None? {
            startedAt := Some(now);
          }
          lastSeenAt := Some(now);
        case Broken =>
      }
    }

    method MarkInterrupted(now: int)
      modifies this
      ensures Snapshot() == Interrupted(old(Snapshot()), now)
      ensures Coherent(Snapshot()) && status == EngineInterrupted && endedAt == Some(now)
      ensures errorCode == Some("ENGINE_INTERRUPTED") && startedAt == old(startedAt)
      ensures durationMs == if startedAt.Some? then Some((now - startedAt.value) * 1000) else old(durationMs)
      ensures engineRef == old(engineRef) && nodeResults == old(nodeResults) && logLines == old(logLines)
    {
      status := EngineInterrupted;
      errorCode := Some("ENGINE_INTERRUPTED");
      endedAt := Some(now);
      if startedAt.Some? {
        durationMs := Some((now - startedAt.value) * 1000);
      }
    }

    /** Earlier node results are deleted, and the reported ones added one by one. */
    method ReplaceNodeResults(results: seq<string>)
      modifies this`nodeResults
      ensures nodeResults == results
    {
      nodeResults := [];
      for i := 0 to |results|
        invariant nodeResults == results[..i]
      {
        nodeResults := nodeResults + [results[i]];
      }
    }

    method ReplaceLogLines(lines: seq<string>)
      modifies this`logLines
      ensures logLines == lines
    {
      logLines := [];
      for i := 0 to |lines|
        invariant logLines == lines[..i]
      {
        logLines := logLines + [lines[i]];
      }
    }

    method Ingest(report: EngineStatus, now: int)
      modifies this
      ensures Snapshot() == Ingested(old(Snapshot()), report, now)
      ensures lastSeenAt == Some(now) && engineRef == old(engineRef)
      ensures report.status == Running ==>
        && status == (if old(status) == Dispatching then Running else old(status))
        && startedAt == (if old(status) == Dispatching && old(startedAt).None? then Some(now) else old(startedAt))
        && endedAt == old(endedAt) && durationMs == old(durationMs) && errorCode == old(errorCode)
        && nodeResults == old(nodeResults) && logLines == old(logLines)
      ensures report.status != Running ==>
        && status == report.status && nodeResults == report.nodeResults && logLines == report.logLines
        && durationMs == report.durationMs && errorCode == report.errorCode
        && startedAt == (if report.startedAt.Some? then report.startedAt else old(startedAt))
        && endedAt == (if report.endedAt.Some? then report.endedAt else Some(now))
    {
      lastSeenAt := Some(now);
      if report.status == Running {
        if status == Dispatching {
          status := Running;
          if startedAt.None? {
            startedAt := Some(now);
          }
        }
        return;
      }
      ReplaceNodeResults(report.nodeResults);
      ReplaceLogLines(report.logLines);
      status := report.status;
      startedAt := OrElse(report.startedAt, startedAt);
      endedAt := OrElse(report.endedAt, Some(now));
      durationMs := report.durationMs;
      errorCode := report.errorCode;
    }

    method Poll(reply: Reply, now: int) returns (raised: bool)
      modifies this
      ensures raised <==> Polled(old(Snapshot()), reply, now).None?
      ensures raised ==> Snapshot() == old(Snapshot())
      ensures !raised ==> Polled(old(Snapshot()), reply, now) == Some(Snapshot())
      ensures raised <==> engineRef.Some? && reply.OtherError?
      ensures engineRef.None? || reply.Unreachable? ==> Snapshot() == old(Snapshot())
      ensures engineRef.Some? && reply.UnknownRun? ==> status == EngineInterrupted && endedAt == Some(now)
      ensures engineRef.Some? && reply.Reported? ==> lastSeenAt == Some(now)
      ensures engineRef.Some? && reply.Reported? && reply.report.status != Running ==> status == reply.report.status
    {
      raised := false;
      if engineRef.None? {
        return;
      }
      match reply {
        case Unreachable =>
        case UnknownRun => MarkInterrupted(now);
        case OtherError => raised := true;
        case Reported(report) => Ingest(report, now);
      }
    }

    method InterruptIfStale(now: int, staleAfter: int)
      modifies this
      ensures Snapshot() == InterruptedIfStale(old(Snapshot()), now, staleAfter)
      ensures Snapshot() != old(Snapshot()) <==>
        !old(status).IsTerminal() && now - (if old(lastSeenAt).Some? then old(lastSeenAt).value else queuedAt) > staleAfter
      ensures old(Coherent(Snapshot())) ==> Coherent(Snapshot())
      ensures status != old(status) ==> status.IsTerminal() && (status == FailedToStart <==> engineRef.None?)
      ensures engineRef == old(engineRef)
      ensures status != old(status) ==>
        && endedAt == Some(now)
        && errorCode == Some(if engineRef.Some? then "ENGINE_INTERRUPTED" else "ENGINE_UNAVAILABLE")
    {
      if status.IsTerminal() {
        return;
      }
      var reference := if lastSeenAt.Some? then lastSeenAt.value else queuedAt;
      if now - reference <= staleAfter {
        return;
      }
      if engineRef.None? {
        status := FailedToStart;
        errorCode := Some("ENGINE_UNAVAILABLE");
        endedAt := Some(now);
        return;
      }
      MarkInterrupted(now);
    }

    /** The body of the reconcile loop for one row. */
    method Reconcile(reply: Reply, now: int, staleAfter: int)
      modifies this
      ensures Snapshot() == Reconciled(old(Snapshot()), reply, now, staleAfter)
      ensures engineRef == old(engineRef)
      ensures engineRef.Some? && reply.OtherError? ==> Snapshot() == old(Snapshot())
      ensures engineRef.Some? && reply.UnknownRun? ==> status == EngineInterrupted && endedAt == Some(now)
      ensures engineRef.None? || reply.Unreachable? ==>
        (Snapshot() != old(Snapshot()) <==>
          !old(status).IsTerminal() && now - (if old(lastSeenAt).Some? then old(lastSeenAt).value else queuedAt) > staleAfter)
      ensures engineRef.Some? && reply.Reported? && reply.report.status.IsTerminal() ==> status == reply.report.status
    {
      var raised := false;
      if engineRef.Some? {
        raised := Poll(reply, now);
      }
      if !raised {
        InterruptIfStale(now, staleAfter);
      }
    }

    method Cancel(reply: Reply, now: int)
      modifies this
      ensures Snapshot() == CancelledByUser(old(Snapshot()), reply, now)
      ensures engineRef == old(engineRef)
      ensures !old(status).IsTerminal() && engineRef.None? ==> status == Cancelled && endedAt == Some(now)
      ensures !old(status).IsTerminal() && engineRef.Some? && reply.Unreachable? ==>
        status == CancelRequested && endedAt == old(endedAt)
      ensures old(status).IsTerminal() || (engineRef.Some? && (reply.UnknownRun? || reply.OtherError?)) ==>
        Snapshot() == old(Snapshot())
      ensures !old(status).IsTerminal() && engineRef.Some? && reply.Reported? ==>
        lastSeenAt == Some(now) && status == if reply.report.status == Running then CancelRequested else reply.report.status
    {
      if status.IsTerminal() {
        return;
      }
      var before := status;
      status := CancelRequested;
      if engineRef.Some? {
        match reply {
          case Unreachable =>
          case UnknownRun => status := before;  // the request fails and its session rolls back
          case OtherError => status := before;
          case Reported(report) => Ingest(report, now);
        }
      } else {
        status := Cancelled;
        endedAt := Some(now);
      }
    }
  }

  // ---- whole runs of one row ----

  /** What every row keeps when each call is one atomic step. */
  predicate Coherent(r: Row) {
    && (r.status.IsTerminal() <==> r.endedAt.Some?)
    && (r.status == Running ==> r.engineRef.Some? && r.startedAt.Some?)
    && (r.status == CancelRequested ==> r.engineRef.Some?)
    && (r.status == Queued || r.status == Dispatching ==> r.engineRef.None?)
  }

  /** The engine's side of the contract: it reports a run as running or as finished. */
  predicate Honest(reply: Reply) {
    reply.Reported? ==> reply.report.status == Running || reply.report.status.IsTerminal()
  }

  datatype RowStep =
    | ClaimAndDispatch(outcome: DispatchOutcome, marked: bool, markedAt: int, at: int)
    | Reconcile(reply: Reply, at: int, staleAfter: int)
    | Cancel(reply: Reply, at: int)
  {
    predicate IsHonest() {
      !ClaimAndDispatch? ==> Honest(reply)
    }
  }

  predicate IsUnresolved(r: Row) {
    r.status in {Dispatching, Running, CancelRequested}
  }

  /** A step on the row; the claim query and the reconcile query skip rows they do not select.
      A dispatch that fails before its first commit leaves only the claim. */
  function RowAfter(r: Row, step: RowStep): Row {
    match step
    case ClaimAndDispatch(outcome, marked, markedAt, at) =>
      if r.status != Queued then r
      else if !marked then Claimed(r)
      else DispatchFinished(MarkedDispatching(Claimed(r), markedAt), outcome, at)
    case Reconcile(reply, at, staleAfter) =>
      if IsUnresolved(r) then Reconciled(r, reply, at, staleAfter) else r
    case Cancel(reply, at) => CancelledByUser(r, reply, at)
  }

  function RowAfterAll(r: Row, steps: seq<RowStep>): Row {
    if steps == [] then r else RowAfter(RowAfterAll(r, steps[..|steps| - 1]), steps[|steps| - 1])
  }

  lemma StatusPartition(s: Status)
    ensures s.IsTerminal() != s.IsActive()
  {
  }

  /** The reconcile query takes the claimed rows that have not ended. */
  lemma UnresolvedIsClaimed(r: Row)
    ensures IsUnresolved(r) <==> !r.status.IsTerminal() && r.status != Queued
  {
  }

  lemma StepKeepsRow(r: Row, step: RowStep)
    requires Coherent(r) && step.IsHonest()
    ensures Coherent(RowAfter(r, step))
    ensures r.status.IsTerminal() ==> RowAfter(r, step) == r
    ensures r.engineRef.Some? ==> RowAfter(r, step).engineRef == r.engineRef
  {
  }

  /** Over every run of one row: it stays coherent, a terminal row never changes again, and an
      engine reference is never replaced. */
  lemma {:induction false} RunKeepsRow(
    workspace: string, workflow: string, key: Option<string>, now: int, steps: seq<RowStep>, i: nat)
    requires i <= |steps| && forall k :: 0 <= k < |steps| ==> steps[k].IsHonest()
    ensures var born := FreshRow(workspace, workflow, key, now);
      var early, late := RowAfterAll(born, steps[..i]), RowAfterAll(born, steps);
      && Coherent(late)
      && (early.status.IsTerminal() ==> late == early)
      && (early.engineRef.Some? ==> late.engineRef == early.engineRef)
    decreases |steps|
  {
    var born := FreshRow(workspace, workflow, key, now);
    var n := |steps|;
    if n > 0 {
      var front := steps[..n - 1];
      if i < n {
        assert front[..i] == steps[..i];
        RunKeepsRow(workspace, workflow, key, now, front, i);
      } else {
        assert steps[..i] == steps;
        RunKeepsRow(workspace, workflow, key, now, front, n - 1);
      }
      StepKeepsRow(RowAfterAll(born, front), steps[n - 1]);
    }
  }

  /** Exactly when a poll answer keeps an unresolved row coherent: the engine must report it
      running or finished. Any other reported status is stored as if it ended the run. */
  lemma IngestCoherentIffHonest(r: Row, report: EngineStatus, now: int)
    requires Coherent(r) && IsUnresolved(r) && r.engineRef.Some?
    ensures Coherent(Ingested(r, report, now)) <==> Honest(Reported(report))
  {
  }

  /** Ingesting the same final report twice changes nothing but the time it was last seen. */
  lemma IngestTwice(r: Row, report: EngineStatus, first: int, second: int)
    requires report.status.IsTerminal() && report.endedAt.Some?
    ensures Ingested(Ingested(r, report, first), report, second) == Ingested(r, report, second)
  {
  }

  // ---- why a row ended ----

  /** The columns that only creating a row writes. */
  predicate SameOrigin(a: Row, b: Row) {
    && a.workspace == b.workspace && a.workflow == b.workflow && a.idempotencyKey == b.idempotencyKey
    && a.queuedAt == b.queuedAt
  }

  /** `t` is `r` with this final report stored on it. */
  predicate Stores(r: Row, reply: Reply, now: int, t: Row) {
    && r.engineRef.Some? && reply.Reported? && reply.report.status != Running
    && t.status == reply.report.status && t.nodeResults == reply.report.nodeResults && t.logLines == reply.report.logLines
    && t.durationMs == reply.report.durationMs && t.errorCode == reply.report.errorCode
    && t.startedAt == (if reply.report.startedAt.Some? then reply.report.startedAt else r.startedAt)
    && t.endedAt == (if reply.report.endedAt.Some? then reply.report.endedAt else Some(now))
  }

  /** The engine refused the run. */
  predicate RefusedBy(r: Row, step: RowStep, t: Row) {
    && step.ClaimAndDispatch? && r.status == Queued && step.marked && step.outcome.Refused?
    && t.status == FailedToStart && t.errorCode == Some(step.outcome.code) && t.endedAt == Some(step.at)
  }

  /** A user cancelled a run that the engine never had. */
  predicate CancelledBy(r: Row, step: RowStep, t: Row) {
    step.Cancel? && r.engineRef.None? && t.status == Cancelled && t.endedAt == Some(step.at)
  }

  /** The engine had ended the run when a poll or a cancel asked. */
  predicate ReportedBy(r: Row, step: RowStep, t: Row) {
    !step.ClaimAndDispatch? && Stores(r, step.reply, step.at, t)
  }

  /** When the engine last answered about this row, with this reply to a poll. */
  function LastHeard(r: Row, reply: Reply, now: int): int {
    if r.engineRef.Some? && reply.Reported? then now
    else if r.lastSeenAt.Some? then r.lastSeenAt.value
    else r.queuedAt
  }

  /** The engine no longer knows the run, or has been silent too long. */
  predicate LostBy(r: Row, step: RowStep, t: Row) {
    && step.Reconcile? && !ReportedBy(r, step, t)
    && t.status == (if r.engineRef.Some? then EngineInterrupted else FailedToStart)
    && t.errorCode == Some(if r.engineRef.Some? then "ENGINE_INTERRUPTED" else "ENGINE_UNAVAILABLE")
    && t.endedAt == Some(step.at)
    && ((r.engineRef.Some? && step.reply.UnknownRun?) || step.at - LastHeard(r, step.reply, step.at) > step.staleAfter)
  }

  predicate EndedBy(r: Row, step: RowStep, t: Row) {
    && !r.status.IsTerminal() && SameOrigin(r, t) && r.engineRef == t.engineRef
    && (RefusedBy(r, step, t) || CancelledBy(r, step, t) || ReportedBy(r, step, t) || LostBy(r, step, t))
  }

  lemma DispatchEndsForCause(r: Row, step: RowStep)
    requires step.ClaimAndDispatch? && !r.status.IsTerminal() && RowAfter(r, step).status.IsTerminal()
    ensures EndedBy(r, step, RowAfter(r, step))
  {
  }

  lemma CancelEndsForCause(r: Row, step: RowStep)
    requires step.Cancel? && !r.status.IsTerminal() && RowAfter(r, step).status.IsTerminal()
    ensures EndedBy(r, step, RowAfter(r, step))
  {
  }

  lemma ReconcileEndsForCause(r: Row, step: RowStep)
    requires step.Reconcile? && !r.status.IsTerminal() && RowAfter(r, step).status.IsTerminal()
    ensures EndedBy(r, step, RowAfter(r, step))
  {
  }

  lemma StepEndsForCause(r: Row, step: RowStep)
    requires !r.status.IsTerminal() && RowAfter(r, step).status.IsTerminal()
    ensures EndedBy(r, step, RowAfter(r, step))
  {
    match step
    case ClaimAndDispatch(_, _, _, _) => DispatchEndsForCause(r, step);
    case Cancel(_, _) => CancelEndsForCause(r, step);
    case Reconcile(_, _, _) => ReconcileEndsForCause(r, step);
  }

  /** Every ended row was ended by one step of its run, for that step's cause, and is still as that
      step left it. */
  lemma {:induction false} EndingHasCause(
    workspace: string, workflow: string, key: Option<string>, now: int, steps: seq<RowStep>) returns (i: nat)
    requires forall k :: 0 <= k < |steps| ==> steps[k].IsHonest()
    requires RowAfterAll(FreshRow(workspace, workflow, key, now), steps).status.IsTerminal()
    ensures i < |steps|
    ensures var born := FreshRow(workspace, workflow, key, now);
      EndedBy(RowAfterAll(born, steps[..i]), steps[i], RowAfterAll(born, steps))
    decreases |steps|
  {
    var born := FreshRow(workspace, workflow, key, now);
    var n := |steps| - 1;
    var before := RowAfterAll(born, steps[..n]);
    if before.status.IsTerminal() {
      i := EndingHasCause(workspace, workflow, key, now, steps[..n]);
      assert steps[..n][..i] == steps[..i];
      RunKeepsRow(workspace, workflow, key, now, steps[..n], n);
      StepKeepsRow(before, steps[n]);
    } else {
      i := n;
      StepEndsForCause(before, steps[n]);
    }
  }

  /** So a run is shown as succeeded, failed or timed out only when the engine reported just that,
      with the results and log it reported. */
  lemma OutcomeWasReported(
    workspace: string, workflow: string, key: Option<string>, now: int, steps: seq<RowStep>) returns (i: nat)
    requires forall k :: 0 <= k < |steps| ==> steps[k].IsHonest()
    requires RowAfterAll(FreshRow(workspace, workflow, key, now), steps).status in {Succeeded, Failed, TimedOut}
    ensures i < |steps| && !steps[i].ClaimAndDispatch? && steps[i].reply.Reported?
    ensures var late, report := RowAfterAll(FreshRow(workspace, workflow, key, now), steps), steps[i].reply.report;
      && late.status == report.status && late.nodeResults == report.nodeResults && late.logLines == report.logLines
      && late.durationMs == report.durationMs && late.errorCode == report.errorCode
  {
    i := EndingHasCause(workspace, workflow, key, now, steps);
  }
}
