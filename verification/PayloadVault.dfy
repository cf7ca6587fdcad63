/** The sealed start payload and the chain of retries (`payload_vault.py`; `executions.py`
    `create`, `_payload_for_engine`, `retry`). JSON text encoding is a parameter,
    assumed faithful; `JsonText` shows that a faithful one exists. */
module PayloadVault {
  import opened Wrappers
  import opened Json
  import opened JsonText
  import opened Redaction
  import opened Secrets

  /** `None` stays unsealed. */
  function Seal(codec: Codec, key: Key, payload: Json): Option<Token> {
    if payload == Null then None else Some(Encrypt(key, codec.dumps(payload)))
  }

  /** The original payload; null when there is nothing to open, the key is another one, or the
      content is no JSON. */
  function Unseal(codec: Codec, key: Key, sealed: Option<Token>): Json {
    if sealed.None? then Null else
      match Decrypt(key, sealed.value)
      case None => Null
      case Some(raw) => codec.loads(raw).GetOr(Null)
  }

  /** The two payload columns of an execution row. */
  datatype PayloadColumns = PayloadColumns(preview: Json, sealed: Option<Token>)

  function Stored(codec: Codec, key: Key, payload: Json): PayloadColumns {
    PayloadColumns(if payload == Null then Null else Redact(payload, 0), Seal(codec, key, payload))
  }

  function OrEmpty(payload: Json): Json {
    if payload == Null then Object(map[]) else payload
  }

  /** `_payload_for_engine`. */
  function ForEngine(codec: Codec, key: Key, row: PayloadColumns): Json {
    var original := Unseal(codec, key, row.sealed);
    if row.sealed.Some? && original != Null then original else OrEmpty(row.preview)
  }

  /** The row after `n` retries, each created from what its predecessor would hand the engine. */
  function Retried(codec: Codec, key: Key, row: PayloadColumns, n: nat): PayloadColumns {
    if n == 0 then row else Stored(codec, key, ForEngine(codec, key, Retried(codec, key, row, n - 1)))
  }

  lemma StoredOpens(codec: Codec, key: Key, payload: Json)
    requires codec.Faithful()
    ensures ForEngine(codec, key, Stored(codec, key, payload)) == OrEmpty(payload)
  {
  }

  /** A payload is sealed whole under the service's key, null is not sealed, and the column a user can
      read holds the redacted form alone. */
  lemma StoredColumns(codec: Codec, key: Key, later: Key, payload: Json)
    requires codec.Faithful()
    ensures var row := Stored(codec, key, payload);
      && (row.sealed.None? <==> payload == Null)
      && (payload != Null ==> Unseal(codec, later, row.sealed) == if later == key then payload else Null)
      && (payload != Null ==> row.preview == Redact(payload, 0) && IsSafe(row.preview, 0))
      && (payload == Null ==> row.preview == Null)
  {
    RedactIsSafe(payload, 0);
  }

  /** With the key unchanged, a run and every retry of it hand the engine exactly the caller's
      payload, whatever the preview column shows. */
  lemma {:induction false} RetriesKeepPayload(codec: Codec, key: Key, payload: Json, n: nat)
    requires codec.Faithful()
    ensures ForEngine(codec, key, Retried(codec, key, Stored(codec, key, payload), n)) == OrEmpty(payload)
  {
    if n == 0 {
      StoredOpens(codec, key, payload);
    } else {
      RetriesKeepPayload(codec, key, payload, n - 1);
      StoredOpens(codec, key, OrEmpty(payload));
    }
  }

  /** A run dispatched under any key gets the caller's payload exactly when the key is the one it
      was sealed under or redaction would have changed nothing. */
  lemma PayloadSurvivesIff(codec: Codec, key: Key, later: Key, payload: Json)
    requires codec.Faithful()
    ensures ForEngine(codec, later, Stored(codec, key, payload)) == OrEmpty(payload) <==>
      payload == Null || later == key || Redact(payload, 0) == payload
  {
  }

}
