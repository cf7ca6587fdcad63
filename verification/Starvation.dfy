/** Silent passes when only some of the unresolved rows are stale: how many end, and which stale
    rows never do (`worker.py`, `reconcile_loop` and `_interrupt_if_stale`; `executions.py`,
    `active_executions`). */
module Starvation {
  import opened Wrappers
  import opened Executions
  import opened Reconciler
  import opened Sets

  /** At each pass exactly these unresolved rows are stale. */
  predicate StaleThroughout(rows: Table, times: seq<int>, staleAfter: int, stale: set<nat>) {
    forall i, e :: 0 <= i < |times| && e in UnresolvedIds(rows) ==>
      (IsStale(rows[e], times[i], staleAfter) <==> e in stale)
  }

  function Waiting(rows: Table, stale: set<nat>): set<nat> {
    UnresolvedIds(rows) * stale
  }

  function Fresh(rows: Table, stale: set<nat>): set<nat> {
    UnresolvedIds(rows) - stale
  }

  /** One pass ends the stale rows it picked and nothing else. */
  lemma PassEndsPickedStale(
    rows: Table, picked: seq<nat>, times: seq<int>, staleAfter: int, stale: set<nat>)
    requires IsOldestBatch(rows, picked, BATCH_LIMIT) && times != [] && StaleThroughout(rows, times, staleAfter, stale)
    ensures var after := SilentPass(rows, picked, times[0], staleAfter);
      && UnresolvedIds(after) == UnresolvedIds(rows) - Members(picked) * stale
      && (forall e :: e in UnresolvedIds(after) ==> after[e] == rows[e])
      && StaleThroughout(after, times[1..], staleAfter, stale)
      && (forall e :: e in Members(picked) * stale ==> e in after && after[e].status.IsTerminal())
      && Waiting(after, stale) == Waiting(rows, stale) - Members(picked) * stale
      && Fresh(after, stale) == Fresh(rows, stale)
  {
    var after := SilentPass(rows, picked, times[0], staleAfter);
    forall e | e in rows
      ensures e in Members(picked) * stale ==> after[e].status.IsTerminal()
      ensures e in UnresolvedIds(rows) && e !in Members(picked) * stale ==> after[e] == rows[e]
      ensures e !in UnresolvedIds(rows) ==> after[e] == rows[e]
    {
      SilentPassEnds(rows, picked, times[0], staleAfter, e);
      assert e in picked ==> e in UnresolvedIds(rows);
    }
    assert UnresolvedIds(after) == UnresolvedIds(rows) - Members(picked) * stale;
    forall i, e | 0 <= i < |times[1..]| && e in UnresolvedIds(after)
      ensures IsStale(after[e], times[1..][i], staleAfter) <==> e in stale
    {
      assert times[1..][i] == times[i + 1];
    }
  }

  lemma PassKeepsFresh(rows: Table, picked: seq<nat>, times: seq<int>, staleAfter: int, stale: set<nat>)
    requires IsOldestBatch(rows, picked, BATCH_LIMIT) && times != [] && StaleThroughout(rows, times, staleAfter, stale)
    ensures var after := SilentPass(rows, picked, times[0], staleAfter);
      StaleThroughout(after, times[1..], staleAfter, stale) && Fresh(after, stale) == Fresh(rows, stale)
  {
    PassEndsPickedStale(rows, picked, times, staleAfter, stale);
  }

  // ---- how many end ----

  /** With fewer than 200 fresh rows, a pass ends all the stale rows or at least 200 less the fresh ones. */
  lemma PassEndsMany(rows: Table, picked: seq<nat>, stale: set<nat>)
    requires IsOldestBatch(rows, picked, BATCH_LIMIT) && |Fresh(rows, stale)| < BATCH_LIMIT
    ensures var ended := Members(picked) * stale;
      && ended <= Waiting(rows, stale)
      && (ended == Waiting(rows, stale) || |ended| >= BATCH_LIMIT - |Fresh(rows, stale)|)
  {
    var chosen := Members(picked);
    DistinctSize(picked);
    assert chosen <= UnresolvedIds(rows);
    if |picked| < BATCH_LIMIT {
      SubsetOfSameSize(chosen, UnresolvedIds(rows));
    } else {
      assert chosen == chosen * stale + (chosen - stale);
      DisjointSize(chosen * stale, chosen - stale);
      SubsetSize(chosen - stale, Fresh(rows, stale));
    }
  }

  lemma TakeMany(all: set<nat>, taken: set<nat>, room: nat)
    requires taken <= all && (taken == all || |taken| >= room)
    ensures all - taken == {} || |all - taken| <= |all| - room
  {
    DisjointSize(all - taken, taken);
    assert all - taken + taken == all;
  }

  lemma PassLeaves(rows: Table, picked: seq<nat>, times: seq<int>, staleAfter: int, stale: set<nat>)
    requires IsOldestBatch(rows, picked, BATCH_LIMIT) && times != [] && StaleThroughout(rows, times, staleAfter, stale)
    requires |Fresh(rows, stale)| < BATCH_LIMIT
    ensures var left := Waiting(SilentPass(rows, picked, times[0], staleAfter), stale);
      && left <= Waiting(rows, stale)
      && (left == {} || |left| <= |Waiting(rows, stale)| - (BATCH_LIMIT - |Fresh(rows, stale)|))
  {
    PassEndsPickedStale(rows, picked, times, staleAfter, stale);
    PassEndsMany(rows, picked, stale);
    TakeMany(Waiting(rows, stale), Members(picked) * stale, BATCH_LIMIT - |Fresh(rows, stale)|);
  }

  /** How many rows `n` passes end when each ends `room`. */
  function EndedBy(room: nat, n: nat): nat {
    if n == 0 then 0 else room + EndedBy(room, n - 1)
  }

  lemma {:induction false} EndedByIsProduct(room: nat, n: nat)
    ensures EndedBy(room, n) == room * n
  {
    if n > 0 {
      EndedByIsProduct(room, n - 1);
      assert room * n == room * (n - 1) + room;
    }
  }

  /** Of `all` rows at most these are left after `n` passes that have room for `room` of them. */
  predicate LeavesAtMost(all: set<nat>, left: set<nat>, room: nat, n: nat) {
    left <= all && (left == {} || |left| <= |all| - EndedBy(room, n))
  }

  /** One pass and then `n` more. */
  lemma PassesLeave(all: set<nat>, once: set<nat>, left: set<nat>, room: nat, n: nat)
    requires once <= all && (once == {} || |once| <= |all| - room) && LeavesAtMost(once, left, room, n)
    ensures LeavesAtMost(all, left, room, n + 1)
  {
  }

  lemma {:induction false} PassesLeaveFew(
    rows: Table, batches: seq<seq<nat>>, times: seq<int>, staleAfter: int, stale: set<nat>, room: nat)
    requires |batches| == |times| && ArePasses(rows, batches, times, staleAfter)
    requires StaleThroughout(rows, times, staleAfter, stale) && |Fresh(rows, stale)| + room == BATCH_LIMIT && room > 0
    ensures LeavesAtMost(
      Waiting(rows, stale), Waiting(AfterPasses(rows, batches, times, staleAfter), stale), room, |batches|)
    decreases |batches|
  {
    if batches != [] {
      var next := SilentPass(rows, batches[0], times[0], staleAfter);
      var last := AfterPasses(rows, batches, times, staleAfter);
      assert last == AfterPasses(next, batches[1..], times[1..], staleAfter);
      PassKeepsFresh(rows, batches[0], times, staleAfter, stale);
      PassLeaves(rows, batches[0], times, staleAfter, stale);
      PassesLeaveFew(next, batches[1..], times[1..], staleAfter, stale, room);
      PassesLeave(Waiting(rows, stale), Waiting(next, stale), Waiting(last, stale), room, |batches| - 1);
    }
  }

  /** Among k stale rows and F < 200 fresh ones, at most k - n (200 - F) are left after n passes, so
      all are finished after ceil(k / (200 - F)). */
  lemma SilenceEndsStaleRuns(
    rows: Table, batches: seq<seq<nat>>, times: seq<int>, staleAfter: int, stale: set<nat>)
    requires |batches| == |times| && ArePasses(rows, batches, times, staleAfter)
    requires StaleThroughout(rows, times, staleAfter, stale) && |Fresh(rows, stale)| < BATCH_LIMIT
    ensures var left := Waiting(AfterPasses(rows, batches, times, staleAfter), stale);
      && left <= Waiting(rows, stale)
      && (left == {} || |left| <= |Waiting(rows, stale)| - (BATCH_LIMIT - |Fresh(rows, stale)|) * |batches|)
  {
    PassesLeaveFew(rows, batches, times, staleAfter, stale, BATCH_LIMIT - |Fresh(rows, stale)|);
    EndedByIsProduct(BATCH_LIMIT - |Fresh(rows, stale)|, |batches|);
  }

  // ---- which end ----

  function FreshBefore(rows: Table, e: nat, stale: set<nat>): set<nat>
    requires e in rows
  {
    set f | f in Fresh(rows, stale) && rows[f].queuedAt < rows[e].queuedAt
  }

  /** As far ahead as a tie can put them. */
  function FreshUpTo(rows: Table, e: nat, stale: set<nat>): set<nat>
    requires e in rows
  {
    set f | f in Fresh(rows, stale) && rows[f].queuedAt <= rows[e].queuedAt
  }

  function OthersUpTo(rows: Table, e: nat, stale: set<nat>): set<nat>
    requires e in rows
  {
    set f | f in Waiting(rows, stale) && f != e && rows[f].queuedAt <= rows[e].queuedAt
  }

  lemma PassKeepsAhead(rows: Table, picked: seq<nat>, times: seq<int>, staleAfter: int, stale: set<nat>, e: nat)
    requires IsOldestBatch(rows, picked, BATCH_LIMIT) && times != [] && StaleThroughout(rows, times, staleAfter, stale)
    requires e in Waiting(rows, stale) && e !in picked
    ensures var after := SilentPass(rows, picked, times[0], staleAfter);
      && e in Waiting(after, stale) && after[e] == rows[e]
      && FreshBefore(after, e, stale) == FreshBefore(rows, e, stale)
      && FreshUpTo(after, e, stale) == FreshUpTo(rows, e, stale)
      && OthersUpTo(after, e, stale) == OthersUpTo(rows, e, stale) - Members(picked) * stale
  {
    PassEndsPickedStale(rows, picked, times, staleAfter, stale);
  }

  /** Passed over with fewer than 200 fresh rows ahead, a stale row has one stale row fewer ahead. */
  lemma PassedOverGains(rows: Table, picked: seq<nat>, stale: set<nat>, e: nat)
    requires IsOldestBatch(rows, picked, BATCH_LIMIT) && e in Waiting(rows, stale) && e !in picked
    requires |FreshUpTo(rows, e, stale)| < BATCH_LIMIT
    ensures |OthersUpTo(rows, e, stale) - Members(picked) * stale| < |OthersUpTo(rows, e, stale)|
  {
    var chosen, others := Members(picked), OthersUpTo(rows, e, stale);
    assert chosen <= FreshUpTo(rows, e, stale) + others;
    PassedOver(rows, picked, e, FreshUpTo(rows, e, stale) + others);
    DistinctSize(picked);
    if chosen * stale == {} {
      assert chosen <= FreshUpTo(rows, e, stale);
      SubsetSize(chosen, FreshUpTo(rows, e, stale));
    }
    var f :| f in chosen * stale;
    assert f in others;
    SubsetSize(others - chosen * stale, others - {f});
  }

  lemma {:induction false} NearRowEnds(
    rows: Table, batches: seq<seq<nat>>, times: seq<int>, staleAfter: int, stale: set<nat>, e: nat)
    requires |batches| == |times| && ArePasses(rows, batches, times, staleAfter)
    requires StaleThroughout(rows, times, staleAfter, stale) && e in Waiting(rows, stale)
    requires |FreshUpTo(rows, e, stale)| < BATCH_LIMIT && |batches| > |OthersUpTo(rows, e, stale)|
    ensures e in AfterPasses(rows, batches, times, staleAfter)
    ensures AfterPasses(rows, batches, times, staleAfter)[e].status.IsTerminal()
    decreases |batches|
  {
    var next := SilentPass(rows, batches[0], times[0], staleAfter);
    PassEndsPickedStale(rows, batches[0], times, staleAfter, stale);
    if e in batches[0] {
      SettledStays(next, batches[1..], times[1..], staleAfter);
    } else {
      PassKeepsAhead(rows, batches[0], times, staleAfter, stale, e);
      PassedOverGains(rows, batches[0], stale, e);
      NearRowEnds(next, batches[1..], times[1..], staleAfter, stale, e);
    }
  }

  /** Behind 200 fresh rows a stale row is never even looked at. */
  lemma {:induction false} FarRowStarves(
    rows: Table, batches: seq<seq<nat>>, times: seq<int>, staleAfter: int, stale: set<nat>, e: nat)
    requires |batches| == |times| && ArePasses(rows, batches, times, staleAfter)
    requires StaleThroughout(rows, times, staleAfter, stale) && e in Waiting(rows, stale)
    requires |FreshBefore(rows, e, stale)| >= BATCH_LIMIT
    ensures e in UnresolvedIds(AfterPasses(rows, batches, times, staleAfter))
    decreases |batches|
  {
    if batches != [] {
      if e in batches[0] {
        PickedAfterOlder(rows, batches[0], e, FreshBefore(rows, e, stale));
      }
      PassKeepsAhead(rows, batches[0], times, staleAfter, stale, e);
      FarRowStarves(SilentPass(rows, batches[0], times[0], staleAfter), batches[1..], times[1..], staleAfter, stale, e);
    }
  }

  /** Over as many passes as there are unresolved rows, or more, a stale row ends exactly when fewer
      than 200 fresh unresolved rows were queued before it; no fresh row shares its queue time. */
  lemma StaleRowEndsIff(
    rows: Table, batches: seq<seq<nat>>, times: seq<int>, staleAfter: int, stale: set<nat>, e: nat)
    requires |batches| == |times| && ArePasses(rows, batches, times, staleAfter)
    requires StaleThroughout(rows, times, staleAfter, stale) && e in Waiting(rows, stale)
    requires |batches| >= |UnresolvedIds(rows)|
    requires forall f :: f in Fresh(rows, stale) ==> rows[f].queuedAt != rows[e].queuedAt
    ensures var after := AfterPasses(rows, batches, times, staleAfter);
      e in after && (after[e].status.IsTerminal() <==> |FreshBefore(rows, e, stale)| < BATCH_LIMIT)
  {
    if |FreshBefore(rows, e, stale)| < BATCH_LIMIT {
      assert FreshUpTo(rows, e, stale) == FreshBefore(rows, e, stale);
      SubsetSize(OthersUpTo(rows, e, stale) + {e}, UnresolvedIds(rows));
      NearRowEnds(rows, batches, times, staleAfter, stale, e);
    } else {
      FarRowStarves(rows, batches, times, staleAfter, stale, e);
    }
  }

  // ---- two hundred fresh rows ----

  predicate Below(e: nat, n: nat) {
    e < n
  }

  function UpTo(n: nat): set<nat> {
    set e: nat | e < n && Below(e, n)
  }

  /** Row 200 was last seen at time zero, the 200 rows queued before it only now. */
  function CrowdedTable(now: int): Table {
    map e | e in UpTo(201) ::
      FreshRow("ws", "wf", None, e).(
        status := Running, engineRef := Some("r"), startedAt := Some(0), lastSeenAt := Some(if e < 200 then now else 0))
  }

  lemma {:induction false} UpToSize(n: nat)
    ensures |UpTo(n)| == n
  {
    if n == 0 {
      assert UpTo(0) == {};
    } else {
      UpToSize(n - 1);
      assert UpTo(n) == UpTo(n - 1) + {n - 1};
    }
  }

  /** Seen long ago, row 200 stays unresolved through any number of passes made now. */
  lemma TwoHundredFreshRowsStarve(batches: seq<seq<nat>>, times: seq<int>, now: int, staleAfter: nat)
    requires now > staleAfter && |batches| == |times| && forall i :: 0 <= i < |times| ==> times[i] == now
    requires ArePasses(CrowdedTable(now), batches, times, staleAfter)
    ensures 200 in UnresolvedIds(AfterPasses(CrowdedTable(now), batches, times, staleAfter))
    ensures IsStale(CrowdedTable(now)[200], now, staleAfter)
  {
    var rows := CrowdedTable(now);
    assert FreshBefore(rows, 200, {200}) == UpTo(200);
    UpToSize(200);
    FarRowStarves(rows, batches, times, staleAfter, {200}, 200);
  }
}
