/** The reconcile pass over the table of executions (`worker.py`, `active_executions`) and how
    many passes a silent engine leaves work for. */
module Reconciler {
  import opened Wrappers
  import opened Executions
  import opened Sets

  /** `active_executions`' default limit. */
  const BATCH_LIMIT: nat := 200

  type Table = map<nat, Row>

  function UnresolvedIds(rows: Table): set<nat> {
    set e | e in rows && IsUnresolved(rows[e])
  }

  /** What the query returns: the oldest unresolved rows, at most `limit` of them. */
  predicate IsOldestBatch(rows: Table, picked: seq<nat>, limit: nat) {
    && Distinct(picked)
    && (forall e :: e in picked ==> e in UnresolvedIds(rows))
    && |picked| == (if |UnresolvedIds(rows)| < limit then |UnresolvedIds(rows)| else limit)
    && (forall e, f :: e in picked && f in UnresolvedIds(rows) && f !in picked ==> rows[e].queuedAt <= rows[f].queuedAt)
  }

  /** The table after the picked rows are handled one by one with these engine answers. */
  function PassResult(rows: Table, picked: seq<nat>, answers: map<nat, Reply>, now: int, staleAfter: int): Table {
    map e | e in rows ::
      if e in picked then Reconciled(rows[e], if e in answers then answers[e] else Unreachable, now, staleAfter)
      else rows[e]
  }

  /** The pass so far with one more row handled. */
  lemma PassResultNext(rows: Table, picked: seq<nat>, answers: map<nat, Reply>, now: int, staleAfter: int, i: nat)
    requires i < |picked| && Distinct(picked) && picked[i] in rows
    ensures var e := picked[i];
      var sofar := PassResult(rows, picked[..i], answers, now, staleAfter);
      && sofar[e] == rows[e]
      && PassResult(rows, picked[..i + 1], answers, now, staleAfter)
         == sofar[e := Reconciled(rows[e], if e in answers then answers[e] else Unreachable, now, staleAfter)]
  {
  }

  class ExecutionTable {
    var rows: Table

    constructor (rows: Table)
      ensures this.rows == rows
    {
      this.rows := rows;
    }

    /** One pass of the loop; each row is committed on its own. */
    method ReconcilePass(picked: seq<nat>, answers: map<nat, Reply>, now: int, staleAfter: int)
      requires IsOldestBatch(rows, picked, BATCH_LIMIT)
      modifies this
      ensures rows == PassResult(old(rows), picked, answers, now, staleAfter)
    {
      for i := 0 to |picked|
        invariant rows == PassResult(old(rows), picked[..i], answers, now, staleAfter)
      {
        var e := picked[i];
        assert e in UnresolvedIds(old(rows));
        PassResultNext(old(rows), picked, answers, now, staleAfter, i);
        var reply := if e in answers then answers[e] else Unreachable;
        var polled := Polled(rows[e], reply, now);
        if polled.Some? {
          rows := rows[e := InterruptedIfStale(polled.value, now, staleAfter)];
        }
      }
      assert picked[..|picked|] == picked;
    }
  }

  // ---- a silent engine ----

  function SilentPass(rows: Table, picked: seq<nat>, now: int, staleAfter: int): Table {
    PassResult(rows, picked, map[], now, staleAfter)
  }

  /** With the engine silent, a pass ends exactly the stale rows it picks and touches no other. */
  lemma SilentPassEnds(rows: Table, picked: seq<nat>, now: int, staleAfter: int, e: nat)
    requires IsOldestBatch(rows, picked, BATCH_LIMIT) && e in rows
    ensures var after := SilentPass(rows, picked, now, staleAfter)[e];
      && (after != rows[e] <==> e in picked && IsStale(rows[e], now, staleAfter))
      && (after != rows[e] ==> after.status == (if rows[e].engineRef.Some? then EngineInterrupted else FailedToStart))
  {
  }

  predicate AllStale(rows: Table, now: int, staleAfter: int) {
    forall e :: e in UnresolvedIds(rows) ==> IsStale(rows[e], now, staleAfter)
  }

  /** Passes in a row, each over the oldest batch of what the one before left. */
  predicate ArePasses(rows: Table, batches: seq<seq<nat>>, times: seq<int>, staleAfter: int)
    requires |batches| == |times|
  {
    batches == [] ||
    (&& IsOldestBatch(rows, batches[0], BATCH_LIMIT)
     && ArePasses(SilentPass(rows, batches[0], times[0], staleAfter), batches[1..], times[1..], staleAfter))
  }

  function AfterPasses(rows: Table, batches: seq<seq<nat>>, times: seq<int>, staleAfter: int): Table
    requires |batches| == |times|
  {
    if batches == [] then rows
    else AfterPasses(SilentPass(rows, batches[0], times[0], staleAfter), batches[1..], times[1..], staleAfter)
  }

  /** One pass removes a full batch, or everything. */
  lemma PassShrinks(rows: Table, picked: seq<nat>, now: int, staleAfter: int)
    requires IsOldestBatch(rows, picked, BATCH_LIMIT) && AllStale(rows, now, staleAfter)
    ensures UnresolvedIds(SilentPass(rows, picked, now, staleAfter)) == UnresolvedIds(rows) - Members(picked)
    ensures |UnresolvedIds(SilentPass(rows, picked, now, staleAfter))| == |UnresolvedIds(rows)| - |picked|
  {
    var after := SilentPass(rows, picked, now, staleAfter);
    forall e | e in rows ensures e in UnresolvedIds(after) <==> e in UnresolvedIds(rows) && e !in picked {
      SilentPassEnds(rows, picked, now, staleAfter, e);
      assert e in picked ==> e in UnresolvedIds(rows);
    }
    DistinctSize(picked);
    assert Members(picked) <= UnresolvedIds(rows);
    assert UnresolvedIds(after) == UnresolvedIds(rows) - Members(picked);
  }

  /** Every one of k stale rows is finished after ceil(k/200) passes; sooner passes leave exactly
      k minus 200 per pass. */
  lemma {:induction false} SilenceEndsAllRuns(rows: Table, batches: seq<seq<nat>>, times: seq<int>, since: int, staleAfter: int)
    requires |batches| == |times| && ArePasses(rows, batches, times, staleAfter)
    requires AllStale(rows, since, staleAfter) && forall i :: 0 <= i < |times| ==> since <= times[i]
    ensures var k, left := |UnresolvedIds(rows)|, |UnresolvedIds(AfterPasses(rows, batches, times, staleAfter))|;
      left == (if k <= 200 * |batches| then 0 else k - 200 * |batches|)
    ensures forall e :: e in UnresolvedIds(rows) && e !in UnresolvedIds(AfterPasses(rows, batches, times, staleAfter)) ==>
      e in AfterPasses(rows, batches, times, staleAfter) && AfterPasses(rows, batches, times, staleAfter)[e].status.IsTerminal()
    decreases |batches|
  {
    if batches != [] {
      var next := SilentPass(rows, batches[0], times[0], staleAfter);
      PassShrinks(rows, batches[0], times[0], staleAfter);
      forall e | e in UnresolvedIds(next) ensures IsStale(next[e], since, staleAfter) {
        SilentPassEnds(rows, batches[0], times[0], staleAfter, e);
      }
      SilenceEndsAllRuns(next, batches[1..], times[1..], since, staleAfter);
      SettledStays(next, batches[1..], times[1..], staleAfter);
      forall e | e in UnresolvedIds(rows) && e !in UnresolvedIds(next) ensures next[e].status.IsTerminal() {
        SilentPassEnds(rows, batches[0], times[0], staleAfter, e);
      }
    }
  }

  /** Rows a pass does not select stay as they are. */
  lemma {:induction false} SettledStays(rows: Table, batches: seq<seq<nat>>, times: seq<int>, staleAfter: int)
    requires |batches| == |times| && ArePasses(rows, batches, times, staleAfter)
    ensures var after := AfterPasses(rows, batches, times, staleAfter);
      after.Keys == rows.Keys && forall e :: e in rows && e !in UnresolvedIds(rows) ==> after[e] == rows[e]
    decreases |batches|
  {
    if batches != [] {
      var next := SilentPass(rows, batches[0], times[0], staleAfter);
      forall e | e in rows && e !in UnresolvedIds(rows) ensures next[e] == rows[e] {
        assert e !in batches[0];
      }
      SettledStays(next, batches[1..], times[1..], staleAfter);
    }
  }

  // ---- who a single pass reaches ----

  function QueuedBefore(rows: Table, e: nat): set<nat>
    requires e in rows
  {
    set f | f in UnresolvedIds(rows) && rows[f].queuedAt < rows[e].queuedAt
  }

  /** With distinct queue times, a silent pass ends a stale unresolved row exactly when fewer
      than 200 unresolved rows were queued before it: fresh rows in front of it can starve it. */
  lemma StaleRowEndsIffNearFront(rows: Table, picked: seq<nat>, now: int, staleAfter: int, e: nat)
    requires IsOldestBatch(rows, picked, BATCH_LIMIT)
    requires e in UnresolvedIds(rows) && IsStale(rows[e], now, staleAfter)
    requires forall f, g ::
      f in UnresolvedIds(rows) && g in UnresolvedIds(rows) && f != g ==> rows[f].queuedAt != rows[g].queuedAt
    ensures SilentPass(rows, picked, now, staleAfter)[e].status.IsTerminal() <==> |QueuedBefore(rows, e)| < BATCH_LIMIT
  {
    SilentPassEnds(rows, picked, now, staleAfter, e);
    var before := QueuedBefore(rows, e);
    if e in picked {
      PickedAfterOlder(rows, picked, e, before);
    } else {
      assert Members(picked) <= before;
      PassedOver(rows, picked, e, before);
    }
  }

  /** A picked row and everything queued before it fit one batch. */
  lemma PickedAfterOlder(rows: Table, picked: seq<nat>, e: nat, older: set<nat>)
    requires IsOldestBatch(rows, picked, BATCH_LIMIT) && e in picked
    requires forall f :: f in older ==> f in UnresolvedIds(rows) && rows[f].queuedAt < rows[e].queuedAt
    ensures |older| < BATCH_LIMIT
  {
    DistinctSize(picked);
    assert older + {e} <= Members(picked);
    SubsetSize(older + {e}, Members(picked));
  }

  /** A row is passed over only for a full batch. */
  lemma PassedOver(rows: Table, picked: seq<nat>, e: nat, others: set<nat>)
    requires IsOldestBatch(rows, picked, BATCH_LIMIT) && e in UnresolvedIds(rows) && e !in picked
    requires Members(picked) <= others
    ensures |picked| == BATCH_LIMIT <= |others|
  {
    DistinctSize(picked);
    SubsetSize(Members(picked), others);
    assert Members(picked) + {e} <= UnresolvedIds(rows);
    SubsetSize(Members(picked) + {e}, UnresolvedIds(rows));
  }
}
