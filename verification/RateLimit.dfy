/** The fixed-window limiter (`rate_limit.py`) and the full request log it stands for. */
module RateLimit {

  /** One row of `rate_limit_buckets`. */
  datatype Bucket = Bucket(windowStart: int, hits: nat, updatedAt: int)

  type Buckets = map<string, Bucket>

  /** Times and windows are in the same whole unit. */
  function WindowStart(window: int, now: int): int
    requires window > 0
  {
    now / window * window
  }

  /** `bucket_key[:200]`. */
  function Cut(key: string): string {
    if |key| <= 200 then key else key[..200]
  }

  /** Two keys count in one bucket exactly when they are the same, or both have 200 characters or
      more and agree on the first 200. */
  lemma BucketSharedIff(a: string, b: string)
    ensures Cut(a) == Cut(b) <==>
      a == b || (|a| >= 200 && |b| >= 200 && forall i :: 0 <= i < 200 ==> a[i] == b[i])
  {
    assert |a| >= 200 ==> a[..200] == Cut(a);
    assert |b| >= 200 ==> b[..200] == Cut(b);
    if |a| >= 200 && |b| >= 200 {
      assert forall i :: 0 <= i < 200 ==> a[i] == a[..200][i] && b[i] == b[..200][i];
    }
  }

  /** A window starts at a multiple of its length and holds the moment it was asked for. */
  lemma WindowHoldsNow(window: int, now: int)
    requires window > 0
    ensures WindowStart(window, now) <= now < WindowStart(window, now) + window
    ensures exists n: int :: WindowStart(window, now) == Times(n, window)
  {
    assert now == now / window * window + now % window;
    assert WindowStart(window, now) == Times(now / window, window);
  }

  function Times(n: int, window: int): int {
    n * window
  }

  function AfterHit(buckets: Buckets, key: string, window: int, now: int): Buckets
    requires window > 0
  {
    var k, start := Cut(key), WindowStart(window, now);
    var hits := if k in buckets && buckets[k].windowStart == start then buckets[k].hits + 1 else 1;
    buckets[k := Bucket(start, hits, now)]
  }

  function AfterPrune(buckets: Buckets, now: int, age: int): Buckets {
    map k | k in buckets && !(buckets[k].updatedAt < now - age) :: buckets[k]
  }

  class Limiter {
    var buckets: Buckets

    constructor ()
      ensures buckets == map[]
    {
      buckets := map[];
    }

    /** The `_HIT` upsert; the count is kept whether or not the request is allowed. */
    method Hit(key: string, limit: int, window: int, now: int) returns (allowed: bool, hits: nat)
      requires window > 0
      modifies this
      ensures buckets == AfterHit(old(buckets), key, window, now)
      ensures hits == buckets[Cut(key)].hits && (allowed <==> hits <= limit)
      ensures buckets[Cut(key)].updatedAt == now
      ensures buckets[Cut(key)].windowStart <= now < buckets[Cut(key)].windowStart + window
      ensures forall k :: k != Cut(key) ==> (k in buckets <==> k in old(buckets)) && (k in buckets ==> buckets[k] == old(buckets)[k])
    {
      var k, start := Cut(key), WindowStart(window, now);
      WindowHoldsNow(window, now);
      if k !in buckets {
        buckets := buckets[k := Bucket(start, 1, now)];
      } else if buckets[k].windowStart == start {
        buckets := buckets[k := Bucket(start, buckets[k].hits + 1, now)];
      } else {
        buckets := buckets[k := Bucket(start, 1, now)];
      }
      hits := buckets[k].hits;
      allowed := hits <= limit;
    }

    method Prune(now: int, age: int) returns (removed: nat)
      modifies this
      ensures buckets == AfterPrune(old(buckets), now, age)
      ensures removed == |old(buckets)| - |buckets|
      ensures forall k :: k in buckets <==> k in old(buckets) && old(buckets)[k].updatedAt >= now - age
      ensures forall k :: k in buckets ==> buckets[k] == old(buckets)[k]
    {
      var left := buckets.Keys;
      removed := 0;
      while left != {}
        invariant left <= buckets.Keys <= old(buckets).Keys
        invariant forall k :: k in buckets ==> buckets[k] == old(buckets)[k]
        invariant forall k :: k in old(buckets) && k !in left ==>
          (k in buckets <==> !(old(buckets)[k].updatedAt < now - age))
        invariant removed == |old(buckets)| - |buckets|
        decreases left
      {
        var k :| k in left;
        left := left - {k};
        if buckets[k].updatedAt < now - age {
          assert (buckets - {k}).Keys == buckets.Keys - {k};
          buckets := buckets - {k};
          removed := removed + 1;
        }
      }
    }
  }

  // ---- the request log ----

  datatype Op = HitOp(key: string, now: int) | PruneOp(now: int)

  /** Window and limit of every key, and the age at which pruning starts. */
  datatype Policy = Policy(window: string -> int, limit: string -> nat, age: int) {
    ghost predicate Valid() {
      forall k :: 0 < window(k)
    }
  }

  ghost function Run(p: Policy, ops: seq<Op>): Buckets
    requires p.Valid()
  {
    if ops == [] then map[] else
      var before := Run(p, ops[..|ops| - 1]);
      match ops[|ops| - 1]
      case HitOp(key, now) => AfterHit(before, key, p.window(Cut(key)), now)
      case PruneOp(now) => AfterPrune(before, now, p.age)
  }

  /** This op is a request on `k` in the window that starts at `start`. */
  ghost predicate Falls(p: Policy, op: Op, k: string, start: int)
    requires p.Valid()
  {
    op.HitOp? && Cut(op.key) == k && WindowStart(p.window(k), op.now) == start
  }

  /** How many requests on `k` the log holds in one window. */
  ghost function InWindow(p: Policy, ops: seq<Op>, k: string, start: int): nat
    requires p.Valid()
  {
    if ops == [] then 0
    else InWindow(p, ops[..|ops| - 1], k, start) + (if Falls(p, ops[|ops| - 1], k, start) then 1 else 0)
  }

  predicate Ordered(ops: seq<Op>) {
    forall i, j :: 0 <= i < j < |ops| ==> ops[i].now <= ops[j].now
  }

  lemma ScaleOrder(a: int, b: int, window: int)
    requires window > 0
    ensures a <= b ==> a * window <= b * window
  {
  }

  lemma WindowOrder(window: int, a: int, b: int)
    requires window > 0 && a <= b
    ensures WindowStart(window, a) <= WindowStart(window, b)
    ensures a <= b - window ==> WindowStart(window, a) < WindowStart(window, b)
  {
    var q, r := a / window, b / window;
    assert a == q * window + a % window && b == r * window + b % window;
    assert (r + 1) * window == r * window + window && (q + 1) * window == q * window + window;
    ScaleOrder(r + 1, q, window);
    ScaleOrder(r, q, window);
    ScaleOrder(q, r, window);
    ScaleOrder(q + 1, r, window);
  }

  /** The stored bucket, read against the log at any time not before `now`. */
  ghost predicate Refines(p: Policy, ops: seq<Op>, k: string, now: int)
    requires p.Valid()
  {
    var buckets := Run(p, ops);
    && (k in buckets ==>
          buckets[k].windowStart == WindowStart(p.window(k), buckets[k].updatedAt) && buckets[k].updatedAt <= now)
    && (forall start :: start >= WindowStart(p.window(k), now) ==>
          InWindow(p, ops, k, start) == if k in buckets && buckets[k].windowStart == start then buckets[k].hits else 0)
  }

  lemma LaterStillRefines(p: Policy, ops: seq<Op>, k: string, now: int, later: int)
    requires p.Valid() && Refines(p, ops, k, now) && now <= later
    ensures Refines(p, ops, k, later)
  {
    WindowOrder(p.window(k), now, later);
  }

  lemma PruneRefines(p: Policy, ops: seq<Op>, k: string, now: int)
    requires p.Valid() && p.window(k) <= p.age + 1 && Refines(p, ops, k, now)
    ensures Refines(p, ops + [PruneOp(now)], k, now)
  {
  }

  lemma HitRefines(p: Policy, ops: seq<Op>, k: string, key: string, now: int)
    requires p.Valid() && Refines(p, ops, k, now)
    ensures Refines(p, ops + [HitOp(key, now)], k, now)
  {
    var longer := ops + [HitOp(key, now)];
    assert longer[..|ops|] == ops;
    var before := Run(p, ops);
    if k in before {
      WindowOrder(p.window(k), before[k].updatedAt, now);
    }
    forall start
      ensures InWindow(p, longer, k, start) == InWindow(p, ops, k, start) + (if Falls(p, HitOp(key, now), k, start) then 1 else 0)
    {
    }
  }

  lemma {:induction false} RunRefines(p: Policy, ops: seq<Op>, k: string, now: int)
    requires p.Valid() && p.window(k) <= p.age + 1 && Ordered(ops)
    requires forall i :: 0 <= i < |ops| ==> ops[i].now <= now
    ensures Refines(p, ops, k, now)
  {
    if ops != [] {
      var n := |ops| - 1;
      RunRefines(p, ops[..n], k, ops[n].now);
      assert ops == ops[..n] + [ops[n]];
      if ops[n].HitOp? {
        HitRefines(p, ops[..n], k, ops[n].key, ops[n].now);
      } else {
        PruneRefines(p, ops[..n], k, ops[n].now);
      }
      LaterStillRefines(p, ops, k, ops[n].now, now);
    }
  }

  /** The count a request is answered with. */
  ghost function HitsAt(p: Policy, ops: seq<Op>, i: nat): nat
    requires p.Valid() && i < |ops| && ops[i].HitOp?
  {
    AfterHit(Run(p, ops[..i]), ops[i].key, p.window(Cut(ops[i].key)), ops[i].now)[Cut(ops[i].key)].hits
  }

  ghost predicate Allowed(p: Policy, ops: seq<Op>, i: nat)
    requires p.Valid() && i < |ops| && ops[i].HitOp?
  {
    HitsAt(p, ops, i) <= p.limit(Cut(ops[i].key))
  }

  /** Every answer is the number of requests the log holds in the current window so far. */
  lemma HitsCountTheLog(p: Policy, ops: seq<Op>, i: nat)
    requires p.Valid() && Ordered(ops) && i < |ops| && ops[i].HitOp? && p.window(Cut(ops[i].key)) <= p.age + 1
    ensures var k := Cut(ops[i].key);
      HitsAt(p, ops, i) == InWindow(p, ops[..i], k, WindowStart(p.window(k), ops[i].now)) + 1
  {
    RunRefines(p, ops[..i], Cut(ops[i].key), ops[i].now);
  }

  // ---- what is admitted ----

  /** How many requests of one window were allowed. */
  ghost function Admitted(p: Policy, ops: seq<Op>, k: string, start: int): nat
    requires p.Valid()
  {
    if ops == [] then 0 else
      var n := |ops| - 1;
      Admitted(p, ops[..n], k, start) + (if Falls(p, ops[n], k, start) && Allowed(p, ops, n) then 1 else 0)
  }

  /** Each window admits exactly its first `limit` requests. */
  lemma {:induction false} WindowAdmitsItsFirst(p: Policy, ops: seq<Op>, k: string, start: int)
    requires p.Valid() && Ordered(ops) && p.window(k) <= p.age + 1
    ensures Admitted(p, ops, k, start) ==
      if InWindow(p, ops, k, start) <= p.limit(k) then InWindow(p, ops, k, start) else p.limit(k)
    ensures forall i :: 0 <= i < |ops| && Falls(p, ops[i], k, start) ==>
      (Allowed(p, ops, i) <==> InWindow(p, ops[..i], k, start) < p.limit(k))
  {
    if ops != [] {
      var n := |ops| - 1;
      WindowAdmitsItsFirst(p, ops[..n], k, start);
      forall i | 0 <= i < |ops| && Falls(p, ops[i], k, start)
        ensures Allowed(p, ops, i) <==> InWindow(p, ops[..i], k, start) < p.limit(k)
      {
        HitsCountTheLog(p, ops, i);
      }
      assert ops[..n] == ops[..n];
    }
  }

  /** How many requests on `k` were allowed at times in `[from, from + window)`. */
  ghost function AdmittedSpan(p: Policy, ops: seq<Op>, k: string, from: int): nat
    requires p.Valid()
  {
    if ops == [] then 0 else
      var n := |ops| - 1;
      var op := ops[n];
      AdmittedSpan(p, ops[..n], k, from) +
      (if op.HitOp? && Cut(op.key) == k && from <= op.now < from + p.window(k) && Allowed(p, ops, n) then 1 else 0)
  }

  lemma QuotientBelow(window: int, t: int, q: int)
    requires window > 0 && t < q * window
    ensures t / window < q
  {
  }

  lemma QuotientAbove(window: int, t: int, q: int)
    requires window > 0 && q * window <= t
    ensures q <= t / window
  {
    ScaleOrder(t / window + 1, q, window);
    assert t == t / window * window + t % window;
  }

  lemma SpanTouchesTwoWindows(window: int, from: int, t: int)
    requires window > 0 && from <= t < from + window
    ensures WindowStart(window, t) == WindowStart(window, from) || WindowStart(window, t) == WindowStart(window, from) + window
  {
    var q := from / window;
    assert from == q * window + from % window && (q + 2) * window == q * window + 2 * window;
    QuotientAbove(window, t, q);
    QuotientBelow(window, t, q + 2);
    assert t / window == q || t / window == q + 1;
    assert (q + 1) * window == q * window + window;
  }

  lemma {:induction false} SpanWithinTwoWindows(p: Policy, ops: seq<Op>, k: string, from: int)
    requires p.Valid()
    ensures var start := WindowStart(p.window(k), from);
      AdmittedSpan(p, ops, k, from) <= Admitted(p, ops, k, start) + Admitted(p, ops, k, start + p.window(k))
  {
    if ops != [] {
      var n := |ops| - 1;
      SpanWithinTwoWindows(p, ops[..n], k, from);
      if ops[n].HitOp? && from <= ops[n].now < from + p.window(k) {
        SpanTouchesTwoWindows(p.window(k), from, ops[n].now);
      }
    }
  }

  /** No half-open span one window long admits more than twice the limit. */
  lemma SpanAdmitsAtMostTwice(p: Policy, ops: seq<Op>, k: string, from: int)
    requires p.Valid() && Ordered(ops) && p.window(k) <= p.age + 1
    ensures AdmittedSpan(p, ops, k, from) <= 2 * p.limit(k)
  {
    var start := WindowStart(p.window(k), from);
    SpanWithinTwoWindows(p, ops, k, from);
    WindowAdmitsItsFirst(p, ops, k, start);
    WindowAdmitsItsFirst(p, ops, k, start + p.window(k));
  }

  // ---- pruning ----

  function Requests(ops: seq<Op>): seq<Op> {
    if ops == [] then [] else
      var n := |ops| - 1;
      Requests(ops[..n]) + (if ops[n].HitOp? then [ops[n]] else [])
  }

  lemma {:induction false} RequestsKeepLog(p: Policy, ops: seq<Op>, k: string, start: int)
    requires p.Valid()
    ensures InWindow(p, Requests(ops), k, start) == InWindow(p, ops, k, start)
  {
    if ops != [] {
      var n := |ops| - 1;
      RequestsKeepLog(p, ops[..n], k, start);
      if ops[n].HitOp? {
        var kept := Requests(ops);
        assert kept[..|kept| - 1] == Requests(ops[..n]);
      } else {
        assert Requests(ops) == Requests(ops[..n]);
      }
    }
  }

  lemma {:induction false} RequestsOrdered(ops: seq<Op>, now: int)
    requires Ordered(ops) && forall i :: 0 <= i < |ops| ==> ops[i].now <= now
    ensures Ordered(Requests(ops)) && forall i :: 0 <= i < |Requests(ops)| ==> Requests(ops)[i].now <= now
  {
    if ops != [] {
      var n := |ops| - 1;
      RequestsOrdered(ops[..n], ops[n].now);
    }
  }

  predicate NoneLater(ops: seq<Op>, now: int) {
    Ordered(ops) && forall i :: 0 <= i < |ops| ==> ops[i].now <= now
  }

  /** A request after `ops` gets the answer it would get with every prune left out. */
  ghost predicate PruneUnseen(p: Policy, ops: seq<Op>, key: string, now: int)
    requires p.Valid()
  {
    HitsAt(p, ops + [HitOp(key, now)], |ops|) == HitsAt(p, Requests(ops) + [HitOp(key, now)], |Requests(ops)|)
  }

  /** A request counts the requests its window has seen so far. */
  lemma RequestCounts(p: Policy, ops: seq<Op>, key: string, now: int)
    requires p.Valid() && NoneLater(ops, now) && p.window(Cut(key)) <= p.age + 1
    ensures var k := Cut(key);
      HitsAt(p, ops + [HitOp(key, now)], |ops|) == InWindow(p, ops, k, WindowStart(p.window(k), now)) + 1
  {
    var longer := ops + [HitOp(key, now)];
    assert longer[..|ops|] == ops && longer[|ops|] == HitOp(key, now);
    HitsCountTheLog(p, longer, |ops|);
  }

  lemma PruneChangesNoDecision(p: Policy, ops: seq<Op>, key: string, now: int)
    requires p.Valid() && NoneLater(ops, now) && p.window(Cut(key)) <= p.age + 1
    ensures PruneUnseen(p, ops, key, now)
  {
    RequestsOrdered(ops, now);
    RequestsKeepLog(p, ops, Cut(key), WindowStart(p.window(Cut(key)), now));
    RequestCounts(p, ops, key, now);
    RequestCounts(p, Requests(ops), key, now);
  }

  /** One prune between two requests of one window: the second is answered 1 instead of 2. */
  lemma PruneForgets(p: Policy, key: string) returns (ops: seq<Op>, now: int)
    requires p.Valid() && p.window(Cut(key)) > p.age + 1
    ensures NoneLater(ops, now)
    ensures HitsAt(p, ops + [HitOp(key, now)], |ops|) == 1
    ensures HitsAt(p, Requests(ops) + [HitOp(key, now)], |Requests(ops)|) == 2
  {
    now := if p.age < 0 then 0 else p.age + 1;
    var k := Cut(key);
    var hit, again := HitOp(key, 0), HitOp(key, now);
    ops := [hit, PruneOp(now)];
    assert ops[..1] == [hit] && [hit][..0] == [];
    assert (ops + [again])[..2] == ops && [hit, again][..1] == [hit];
    assert WindowStart(p.window(k), 0) == 0 && WindowStart(p.window(k), now) == 0;
    assert Run(p, [hit]) == map[k := Bucket(0, 1, 0)];
    assert Run(p, ops) == map[];
    assert Requests([]) == [];
    assert Requests([hit]) == [hit] by {
      assert [hit][..|[hit]| - 1] == [];
    }
    assert Requests(ops) == [hit] by {
      assert ops[..|ops| - 1] == [hit];
    }
    assert Requests(ops) + [again] == [hit, again];
  }

  /** Pruning never changes an answer on a key exactly when its window is at most one unit longer
      than the prune age. */
  lemma PruneHarmlessIff(p: Policy, key: string)
    requires p.Valid()
    ensures (forall ops, now :: NoneLater(ops, now) ==> PruneUnseen(p, ops, key, now)) <==> p.window(Cut(key)) <= p.age + 1
  {
    if p.window(Cut(key)) <= p.age + 1 {
      forall ops, now | NoneLater(ops, now) ensures PruneUnseen(p, ops, key, now) {
        PruneChangesNoDecision(p, ops, key, now);
      }
    } else {
      var ops, now := PruneForgets(p, key);
      assert !PruneUnseen(p, ops, key, now);
    }
  }
}
