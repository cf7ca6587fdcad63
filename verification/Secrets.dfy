/** The envelope-encrypted secret store and its key rotation (`secrets.py`).

    Encryption is symbolic: a token opens under the key that sealed it and under no other. */
module Secrets {
  import opened Wrappers

  type Key = string

  /** A Fernet token, or text that is none. */
  datatype Token = Sealed(key: Key, content: string) | Garbage(text: string)

  function Encrypt(key: Key, content: string): Token {
    Sealed(key, content)
  }

  /** `None` is `InvalidToken`. */
  function Decrypt(key: Key, token: Token): Option<string> {
    if token.Sealed? && token.key == key then Some(token.content) else None
  }

  datatype SecretRecord = SecretRecord(reference: string, wrapped: Token, ciphertext: Token, version: nat)

  /** The payload text of a record under a key-encryption key; `None` raises. */
  function Open(kek: Key, r: SecretRecord): Option<string> {
    match Decrypt(kek, r.wrapped)
    case None => None
    case Some(dataKey) => Decrypt(dataKey, r.ciphertext)
  }

  function Rewrapped(r: SecretRecord, oldKey: Key, newKey: Key): SecretRecord {
    match Decrypt(oldKey, r.wrapped)
    case None => r
    case Some(dataKey) => r.(wrapped := Encrypt(newKey, dataKey))
  }

  /** The table with its first `n` records rewrapped: what a rotation stopped there has committed. */
  function RewrappedTo(records: seq<SecretRecord>, n: nat, oldKey: Key, newKey: Key): (r: seq<SecretRecord>)
    requires n <= |records|
    ensures |r| == |records|
    ensures forall i :: 0 <= i < |r| ==> r[i] == if i < n then Rewrapped(records[i], oldKey, newKey) else records[i]
  {
    seq(|records|, i requires 0 <= i < |records| => if i < n then Rewrapped(records[i], oldKey, newKey) else records[i])
  }

  /** Record `i` now holds the payload, one version on; every other record is as it was. */
  predicate WroteAt(
    before: seq<SecretRecord>, after: seq<SecretRecord>, kek: Key, reference: string, payload: string, i: nat)
  {
    && i < |after| && after[i].reference == reference && Open(kek, after[i]) == Some(payload)
    && |after| == (if i < |before| then |before| else i + 1)
    && after[i].version == (if i < |before| then before[i].version + 1 else 1)
    && (i < |before| ==> before[i].reference == reference)
    && i <= |before| && forall k :: 0 <= k < |before| && k != i ==> after[k] == before[k]
  }

  /** The committed counts of a rotation in pages of `batch` over `n` records. */
  predicate CommitPoints(commits: seq<nat>, batch: nat, n: nat) {
    commits == [] ||
    var earlier := commits[..|commits| - 1];
    var from := Reached(earlier);
    CommitPoints(earlier, batch, n) && from < n && commits[|commits| - 1] == (if n - from < batch then n else from + batch)
  }

  function Reached(commits: seq<nat>): nat {
    if commits == [] then 0 else commits[|commits| - 1]
  }

  predicate OpensUnder(key: Key, r: SecretRecord) {
    Decrypt(key, r.wrapped).Some?
  }

  function CountOpening(key: Key, records: seq<SecretRecord>): nat {
    if records == [] then 0
    else CountOpening(key, records[..|records| - 1]) + (if OpensUnder(key, records[|records| - 1]) then 1 else 0)
  }

  /** The data key of the record at `i` is sealed under the key. */
  predicate IsSealedAt(key: Key, records: seq<SecretRecord>, i: int) {
    0 <= i < |records| && records[i].wrapped.Sealed? && records[i].wrapped.key == key
  }

  function SealedAt(key: Key, records: seq<SecretRecord>): set<int> {
    set i | 0 <= i < |records| && IsSealedAt(key, records, i)
  }

  /** The count is the number of places whose data key is sealed under the key. */
  lemma {:induction false} CountsSealed(key: Key, records: seq<SecretRecord>)
    ensures CountOpening(key, records) == |SealedAt(key, records)|
  {
    if records != [] {
      var n := |records| - 1;
      CountsSealed(key, records[..n]);
      assert forall i :: 0 <= i < n ==> (IsSealedAt(key, records, i) <==> IsSealedAt(key, records[..n], i));
      assert SealedAt(key, records) == SealedAt(key, records[..n]) + (if IsSealedAt(key, records, n) then {n} else {});
    }
  }

  /** A rotation of `original` that has done its first `offset` records, and counted them. */
  predicate IsRotation(
    original: seq<SecretRecord>, records: seq<SecretRecord>, oldKey: Key, newKey: Key, offset: nat, rotated: nat, skipped: nat)
  {
    && offset <= |original| && records == RewrappedTo(original, offset, oldKey, newKey)
    && rotated == CountOpening(oldKey, original[..offset]) && rotated + skipped == offset
  }

  /** What is in the table after these commits. */
  predicate IsCommitted(
    original: seq<SecretRecord>, records: seq<SecretRecord>, oldKey: Key, newKey: Key, batch: nat, commits: seq<nat>,
    rotated: nat, skipped: nat)
  {
    CommitPoints(commits, batch, |original|)
    && IsRotation(original, records, oldKey, newKey, Reached(commits), rotated, skipped)
  }

  class SecretStore {
    /** The table in id order. */
    var records: seq<SecretRecord>
    const kek: Key

    constructor (kek: Key, records: seq<SecretRecord>)
      ensures this.kek == kek && this.records == records
    {
      this.kek, this.records := kek, records;
    }

    ghost predicate RefsDistinct()
      reads this
    {
      forall i, j :: 0 <= i < j < |records| ==> records[i].reference != records[j].reference
    }

    method Find(reference: string) returns (at: Option<nat>)
      ensures at.Some? ==> at.value < |records| && records[at.value].reference == reference
      ensures at.None? ==> forall i :: 0 <= i < |records| ==> records[i].reference != reference
    {
      for i := 0 to |records|
        invariant forall k :: 0 <= k < i ==> records[k].reference != reference
      {
        if records[i].reference == reference {
          return Some(i);
        }
      }
      at := None;
    }

    /** Stores a payload under a fresh data key, replacing what the reference held. */
    method Write(reference: string, payload: string, dataKey: Key)
      requires RefsDistinct()
      modifies this
      ensures RefsDistinct()
      ensures exists i :: WroteAt(old(records), records, kek, reference, payload, i)
    {
      var ciphertext := Encrypt(dataKey, payload);
      var wrapped := Encrypt(kek, dataKey);
      var at := Find(reference);
      if at.Some? {
        var i := at.value;
        records := records[i := records[i].(wrapped := wrapped, ciphertext := ciphertext, version := records[i].version + 1)];
        assert WroteAt(old(records), records, kek, reference, payload, i);
      } else {
        records := records + [SecretRecord(reference, wrapped, ciphertext, 1)];
        assert WroteAt(old(records), records, kek, reference, payload, |old(records)|);
      }
    }

    /** A missing record reads as the empty object. */
    method Read(reference: string) returns (payload: Option<string>)
      requires RefsDistinct()
      ensures (forall i :: 0 <= i < |records| ==> records[i].reference != reference) ==> payload == Some("{}")
      ensures forall i :: 0 <= i < |records| && records[i].reference == reference ==> payload == Open(kek, records[i])
    {
      var at := Find(reference);
      if at.None? {
        return Some("{}");
      }
      payload := Open(kek, records[at.value]);
    }

    /** One page of the rotation: `offset`, `limit`, one commit. */
    method RewrapPage(oldKey: Key, newKey: Key, offset: nat, size: nat) returns (rotated: nat, skipped: nat)
      requires offset + size <= |records|
      modifies this
      ensures |records| == |old(records)|
      ensures forall i :: 0 <= i < |records| ==>
        records[i] == if offset <= i < offset + size then Rewrapped(old(records)[i], oldKey, newKey) else old(records)[i]
      ensures rotated == CountOpening(oldKey, old(records)[offset..offset + size]) && rotated + skipped == size
    {
      rotated, skipped := 0, 0;
      for k := 0 to size
        invariant |records| == |old(records)|
        invariant forall i :: 0 <= i < |records| ==>
          records[i] == if offset <= i < offset + k then Rewrapped(old(records)[i], oldKey, newKey) else old(records)[i]
        invariant rotated == CountOpening(oldKey, old(records)[offset..offset + k]) && rotated + skipped == k
      {
        var at := offset + k;
        assert old(records)[offset..at + 1][..k] == old(records)[offset..at];
        var dataKey := Decrypt(oldKey, records[at].wrapped);
        if dataKey.None? {
          skipped := skipped + 1;
        } else {
          records := records[at := records[at].(wrapped := Encrypt(newKey, dataKey.value))];
          rotated := rotated + 1;
        }
      }
    }

    /** A page on top of a rotation that has done `offset` records of `original`. */
    method RewrapNext(
      ghost original: seq<SecretRecord>, oldKey: Key, newKey: Key, offset: nat, size: nat, rotated: nat, skipped: nat)
      returns (rotatedNow: nat, skippedNow: nat)
      requires offset + size <= |original| && IsRotation(original, records, oldKey, newKey, offset, rotated, skipped)
      modifies this
      ensures IsRotation(original, records, oldKey, newKey, offset + size, rotatedNow, skippedNow)
    {
      assert records[offset..offset + size] == original[offset..offset + size];
      var done, left := RewrapPage(oldKey, newKey, offset, size);
      CountSplit(oldKey, original[..offset], original[offset..offset + size]);
      assert original[..offset] + original[offset..offset + size] == original[..offset + size];
      rotatedNow, skippedNow := rotated + done, skipped + left;
    }

    /** One page and its commit. */
    method CommitNext(
      ghost original: seq<SecretRecord>, oldKey: Key, newKey: Key, batch: nat, ghost commits: seq<nat>,
      offset: nat, size: nat, rotated: nat, skipped: nat)
      returns (rotatedNow: nat, skippedNow: nat)
      requires IsCommitted(original, records, oldKey, newKey, batch, commits, rotated, skipped)
      requires offset == Reached(commits) < |original|
      requires size == if |original| - offset < batch then |original| - offset else batch
      modifies this
      ensures IsCommitted(original, records, oldKey, newKey, batch, commits + [offset + size], rotatedNow, skippedNow)
    {
      rotatedNow, skippedNow := RewrapNext(original, oldKey, newKey, offset, size, rotated, skipped);
      NextCommitPoint(commits, batch, |original|, offset + size);
    }

    /** The full rotation, which dies right after `crashAfter` commits when it gets that far.
        `commits` lists how many records were done at each commit; work on a page that is not
        committed is lost. A page size of zero reads no page. */
    method RewrapAll(oldKey: Key, newKey: Key, batch: nat, crashAfter: Option<nat>)
      returns (rotated: nat, skipped: nat, ghost commits: seq<nat>)
      modifies this
      ensures CommitPoints(commits, batch, |old(records)|) && Reached(commits) <= |old(records)|
      ensures records == RewrappedTo(old(records), Reached(commits), oldKey, newKey)
      ensures rotated == CountOpening(oldKey, old(records)[..Reached(commits)])
      ensures rotated + skipped == Reached(commits)
      ensures crashAfter.Some? ==> |commits| <= crashAfter.value
      ensures batch > 0 && (crashAfter.None? || |commits| < crashAfter.value) ==> Reached(commits) == |old(records)|
    {
      ghost var original := records;
      rotated, skipped, commits := 0, 0, [];
      var offset, pages := 0, 0;
      while true
        invariant offset <= |records| == |original| && (batch == 0 ==> offset == 0)
        invariant IsCommitted(original, records, oldKey, newKey, batch, commits, rotated, skipped)
        invariant offset == Reached(commits)
        invariant pages == |commits| && (crashAfter.Some? ==> pages <= crashAfter.value)
        decreases |records| - offset
      {
        var size := if |records| - offset < batch then |records| - offset else batch;
        if size == 0 || crashAfter == Some(pages) {
          break;
        }
        rotated, skipped := CommitNext(original, oldKey, newKey, batch, commits, offset, size, rotated, skipped);
        offset, pages := offset + size, pages + 1;
        commits := commits + [offset];
      }
    }

    /** Rotations that die one after the other, then one that does not: the table is the one a
        single uninterrupted rotation leaves. */
    method RewrapUntilDone(oldKey: Key, newKey: Key, batch: nat, crashes: seq<nat>)
      requires batch > 0
      modifies this
      ensures records == RewrappedTo(old(records), |old(records)|, oldKey, newKey)
    {
      ghost var original, stops := records, [];
      for i := 0 to |crashes|
        invariant (forall k :: 0 <= k < |stops| ==> stops[k] <= |original|)
        invariant records == AfterInterruptions(original, stops, oldKey, newKey)
      {
        var _, _, commits := RewrapAll(oldKey, newKey, batch, Some(crashes[i]));
        assert (stops + [Reached(commits)])[..|stops|] == stops;
        stops := stops + [Reached(commits)];
      }
      var _, _, _ := RewrapAll(oldKey, newKey, batch, None);
      InterruptionsDoNotMatter(original, stops, oldKey, newKey);
    }
  }

  lemma NextCommitPoint(commits: seq<nat>, batch: nat, n: nat, next: nat)
    requires CommitPoints(commits, batch, n) && Reached(commits) < n
    requires next == if n - Reached(commits) < batch then n else Reached(commits) + batch
    ensures CommitPoints(commits + [next], batch, n)
  {
  }

  lemma {:induction false} CountSplit(key: Key, a: seq<SecretRecord>, b: seq<SecretRecord>)
    ensures CountOpening(key, a + b) == CountOpening(key, a) + CountOpening(key, b)
    decreases |b|
  {
    if b == [] {
      assert a + b == a;
    } else {
      assert (a + b)[..|a + b| - 1] == a + b[..|b| - 1];
      CountSplit(key, a, b[..|b| - 1]);
    }
  }

  // ---- interrupted rotations ----

  /** The table after rotations that stopped after these many records each. */
  function AfterInterruptions(records: seq<SecretRecord>, stops: seq<nat>, oldKey: Key, newKey: Key): (r: seq<SecretRecord>)
    requires forall k :: 0 <= k < |stops| ==> stops[k] <= |records|
    ensures |r| == |records|
  {
    if stops == [] then records
    else RewrappedTo(AfterInterruptions(records, stops[..|stops| - 1], oldKey, newKey), stops[|stops| - 1], oldKey, newKey)
  }

  lemma RewrapTwice(r: SecretRecord, oldKey: Key, newKey: Key)
    ensures Rewrapped(Rewrapped(r, oldKey, newKey), oldKey, newKey) == Rewrapped(r, oldKey, newKey)
  {
  }

  lemma {:induction false} InterruptedRecord(records: seq<SecretRecord>, stops: seq<nat>, oldKey: Key, newKey: Key, i: nat)
    requires i < |records| && forall k :: 0 <= k < |stops| ==> stops[k] <= |records|
    ensures var r := AfterInterruptions(records, stops, oldKey, newKey)[i];
      r == records[i] || r == Rewrapped(records[i], oldKey, newKey)
  {
    if stops != [] {
      InterruptedRecord(records, stops[..|stops| - 1], oldKey, newKey, i);
      RewrapTwice(records[i], oldKey, newKey);
    }
  }

  /** However many rotations were interrupted, one that completes leaves the table a single
      uninterrupted rotation would have left. */
  lemma {:induction false} InterruptionsDoNotMatter(records: seq<SecretRecord>, stops: seq<nat>, oldKey: Key, newKey: Key)
    requires forall k :: 0 <= k < |stops| ==> stops[k] <= |records|
    ensures RewrappedTo(AfterInterruptions(records, stops, oldKey, newKey), |records|, oldKey, newKey)
      == RewrappedTo(records, |records|, oldKey, newKey)
  {
    var mixed := AfterInterruptions(records, stops, oldKey, newKey);
    forall i | 0 <= i < |records|
      ensures Rewrapped(mixed[i], oldKey, newKey) == Rewrapped(records[i], oldKey, newKey)
    {
      InterruptedRecord(records, stops, oldKey, newKey, i);
      RewrapTwice(records[i], oldKey, newKey);
    }
  }

  /** After that, every record the old key opened opens under the new one to the same payload, a
      record under a third key is untouched, and no ciphertext has changed. */
  lemma {:induction false} RotationKeepsPayloads(records: seq<SecretRecord>, stops: seq<nat>, oldKey: Key, newKey: Key, i: nat)
    requires i < |records| && forall k :: 0 <= k < |stops| ==> stops[k] <= |records|
    ensures var after := RewrappedTo(AfterInterruptions(records, stops, oldKey, newKey), |records|, oldKey, newKey)[i];
      && after.ciphertext == records[i].ciphertext && after.reference == records[i].reference
      && (OpensUnder(oldKey, records[i]) ==> OpensUnder(newKey, after) && Open(newKey, after) == Open(oldKey, records[i]))
      && (!OpensUnder(oldKey, records[i]) ==> after == records[i])
      && (oldKey != newKey ==> !OpensUnder(oldKey, after))
  {
    InterruptionsDoNotMatter(records, stops, oldKey, newKey);
  }

  /** A second complete run with distinct keys finds nothing left to rotate. */
  lemma {:induction false} RerunRotatesNothing(records: seq<SecretRecord>, oldKey: Key, newKey: Key)
    requires oldKey != newKey
    ensures CountOpening(oldKey, RewrappedTo(records, |records|, oldKey, newKey)) == 0
  {
    if records != [] {
      var n := |records| - 1;
      RerunRotatesNothing(records[..n], oldKey, newKey);
      assert RewrappedTo(records, |records|, oldKey, newKey)[..n] == RewrappedTo(records[..n], n, oldKey, newKey);
    }
  }
}
