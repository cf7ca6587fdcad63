/** Redaction and previews of payloads (`redaction.py`). Lower-casing is ASCII; the size of an
    encoded preview is a parameter. */
module Redaction {
  import opened Json

  const MASK := "********"
  const DEPTH_LIMIT_TEXT := "<depth limit>"
  const TRUNCATED_SUFFIX := "\U{2026}<truncated>"
  const MAX_DEPTH := 8
  const MAX_ITEMS := 50
  const MAX_STRING := 4096

  const SENSITIVE_KEY_HINTS := [
    "password", "passwd", "secret", "token", "credential", "api_key", "apikey",
    "api-key", "authorization", "auth", "private_key", "client_secret",
    "access_key", "passphrase", "cookie", "set-cookie", "session",
    "x-api-key", "signature", "bearer"]

  const DROP_HEADERS := ["authorization", "proxy-authorization", "cookie", "set-cookie"]

  function LowerChar(c: char): char {
    if 'A' <= c <= 'Z' then c - 'A' + 'a' else c
  }

  function Lower(s: string): string {
    seq(|s|, i requires 0 <= i < |s| => LowerChar(s[i]))
  }

  predicate Contains(s: string, hint: string) {
    hint <= s || (s != "" && Contains(s[1..], hint))
  }

  predicate IsSensitive(key: string) {
    exists h :: h in SENSITIVE_KEY_HINTS && Contains(Lower(key), h)
  }

  predicate IsDropped(key: string) {
    Lower(key) in DROP_HEADERS
  }

  function Shorten(s: string): string {
    if |s| > MAX_STRING then s[..MAX_STRING] + TRUNCATED_SUFFIX else s
  }

  function Capped(n: nat): nat {
    if n < MAX_ITEMS then n else MAX_ITEMS
  }

  /** `redact(value, depth=depth)`. */
  function Redact(v: Json, depth: nat): Json {
    if depth > MAX_DEPTH then Text(DEPTH_LIMIT_TEXT) else
      match v
      case Object(fields) =>
        Object(map k | k in fields && !IsDropped(k) :: if IsSensitive(k) then Text(MASK) else Redact(fields[k], depth + 1))
      case Array(items) =>
        Array(seq(Capped(|items|), i requires 0 <= i < Capped(|items|) => Redact(items[i], depth + 1)))
      case Text(s) => Text(Shorten(s))
      case _ => v
  }

  lemma {:induction false} RedactIdempotent(v: Json, depth: nat)
    ensures Redact(Redact(v, depth), depth) == Redact(v, depth)
    decreases v
  {
    if depth <= MAX_DEPTH {
      var once := Redact(v, depth);
      match v
      case Object(fields) =>
        forall k | k in once.fields ensures Redact(once, depth).fields[k] == once.fields[k] {
          RedactIdempotent(fields[k], depth + 1);
        }
        assert Redact(once, depth).fields == once.fields;
      case Array(items) =>
        forall i | 0 <= i < |once.items| ensures Redact(once, depth).items[i] == once.items[i] {
          RedactIdempotent(items[i], depth + 1);
        }
        assert Redact(once, depth).items == once.items;
      case _ =>
    }
  }

  /** Nested at most to the depth limit, short lists, short strings, and nothing under a
      sensitive key but the mask. */
  predicate IsSafe(v: Json, depth: nat) {
    match v
    case Object(fields) =>
      && depth <= MAX_DEPTH
      && (forall k :: k in fields ==> !IsDropped(k) && (IsSensitive(k) ==> fields[k] == Text(MASK)))
      && (forall k :: k in fields ==> IsSafe(fields[k], depth + 1))
    case Array(items) =>
      depth <= MAX_DEPTH && |items| <= MAX_ITEMS && forall i :: 0 <= i < |items| ==> IsSafe(items[i], depth + 1)
    case Text(s) => |s| <= MAX_STRING + |TRUNCATED_SUFFIX|
    case _ => true
  }

  lemma {:induction false} RedactIsSafe(v: Json, depth: nat)
    ensures IsSafe(Redact(v, depth), depth)
    decreases v
  {
    if depth > MAX_DEPTH || (!v.Object? && !v.Array?) {
      LeafIsSafe(v, depth);
    } else if v.Object? {
      forall k | k in v.fields ensures IsSafe(Redact(v.fields[k], depth + 1), depth + 1) {
        RedactIsSafe(v.fields[k], depth + 1);
      }
      ObjectIsSafe(v.fields, depth);
    } else {
      forall i | 0 <= i < |v.items| ensures IsSafe(Redact(v.items[i], depth + 1), depth + 1) {
        RedactIsSafe(v.items[i], depth + 1);
      }
      ArrayIsSafe(v.items, depth);
    }
  }

  lemma LeafIsSafe(v: Json, depth: nat)
    requires depth > MAX_DEPTH || (!v.Object? && !v.Array?)
    ensures IsSafe(Redact(v, depth), depth)
  {
  }

  lemma ArrayIsSafe(items: seq<Json>, depth: nat)
    requires depth <= MAX_DEPTH && forall i :: 0 <= i < |items| ==> IsSafe(Redact(items[i], depth + 1), depth + 1)
    ensures IsSafe(Redact(Array(items), depth), depth)
  {
  }

  lemma ObjectIsSafe(fields: map<string, Json>, depth: nat)
    requires depth <= MAX_DEPTH && forall k :: k in fields ==> IsSafe(Redact(fields[k], depth + 1), depth + 1)
    ensures IsSafe(Redact(Object(fields), depth), depth)
  {
  }

  /** Payloads that differ only where redaction looks away: under sensitive or dropped keys, past
      the fiftieth item, past the string cut, or below the depth limit. */
  ghost predicate Indistinct(a: Json, b: Json, depth: nat) {
    depth > MAX_DEPTH ||
    (match (a, b)
     case (Object(f), Object(g)) =>
       && (forall k :: !IsDropped(k) ==> (k in f <==> k in g))
       && (forall k :: k in f && k in g && !IsDropped(k) && !IsSensitive(k) ==> Indistinct(f[k], g[k], depth + 1))
     case (Array(xs), Array(ys)) =>
       && Capped(|xs|) == Capped(|ys|)
       && (forall i :: 0 <= i < Capped(|xs|) ==> Indistinct(xs[i], ys[i], depth + 1))
     case (Text(s), Text(t)) =>
       s == t || (|s| > MAX_STRING && |t| > MAX_STRING && s[..MAX_STRING] == t[..MAX_STRING])
     case _ => a == b)
  }

  lemma ShortenEqual(s: string, t: string)
    ensures Shorten(s) == Shorten(t) <==>
      s == t || (|s| > MAX_STRING && |t| > MAX_STRING && s[..MAX_STRING] == t[..MAX_STRING])
  {
  }

  /** Redaction tells two payloads apart exactly when they are not indistinct: nothing under a
      sensitive key shows, and nothing else is lost. */
  lemma {:induction false} RedactEqualIffIndistinct(a: Json, b: Json, depth: nat)
    ensures Redact(a, depth) == Redact(b, depth) <==> Indistinct(a, b, depth)
    decreases a
  {
    if depth <= MAX_DEPTH {
      match (a, b) {
        case (Object(f), Object(g)) => RedactObjects(f, g, depth) by {
          forall k | k in f && k in g
            ensures Redact(f[k], depth + 1) == Redact(g[k], depth + 1) <==> Indistinct(f[k], g[k], depth + 1)
          {
            RedactEqualIffIndistinct(f[k], g[k], depth + 1);
          }
        }
        case (Array(xs), Array(ys)) =>
          forall i | 0 <= i < |xs| && i < |ys|
            ensures Redact(xs[i], depth + 1) == Redact(ys[i], depth + 1) <==> Indistinct(xs[i], ys[i], depth + 1)
          {
            RedactEqualIffIndistinct(xs[i], ys[i], depth + 1);
          }
          RedactArrays(xs, ys, depth);
        case (Text(s), Text(t)) => ShortenEqual(s, t);
        case _ =>
      }
    }
  }

  lemma RedactObjects(f: map<string, Json>, g: map<string, Json>, depth: nat)
    requires depth <= MAX_DEPTH
    requires forall k :: k in f && k in g ==>
      (Redact(f[k], depth + 1) == Redact(g[k], depth + 1) <==> Indistinct(f[k], g[k], depth + 1))
    ensures Redact(Object(f), depth) == Redact(Object(g), depth) <==> Indistinct(Object(f), Object(g), depth)
  {
    var rf, rg := Redact(Object(f), depth).fields, Redact(Object(g), depth).fields;
    if Indistinct(Object(f), Object(g), depth) {
      assert rf.Keys == rg.Keys;
      assert rf == rg;
    }
    if rf == rg {
      forall k | !IsDropped(k) ensures k in f <==> k in g {
        assert k in rf <==> k in rg;
      }
      forall k | k in f && k in g && !IsDropped(k) && !IsSensitive(k) ensures Indistinct(f[k], g[k], depth + 1) {
        assert rf[k] == rg[k];
      }
    }
  }

  lemma RedactArrays(xs: seq<Json>, ys: seq<Json>, depth: nat)
    requires depth <= MAX_DEPTH
    requires forall i :: 0 <= i < |xs| && i < |ys| ==>
      (Redact(xs[i], depth + 1) == Redact(ys[i], depth + 1) <==> Indistinct(xs[i], ys[i], depth + 1))
    ensures Redact(Array(xs), depth) == Redact(Array(ys), depth) <==> Indistinct(Array(xs), Array(ys), depth)
  {
    var rx, ry := Redact(Array(xs), depth).items, Redact(Array(ys), depth).items;
    if Indistinct(Array(xs), Array(ys), depth) {
      assert rx == ry;
    }
    if rx == ry {
      forall i | 0 <= i < Capped(|xs|) ensures Indistinct(xs[i], ys[i], depth + 1) {
        assert rx[i] == ry[i];
      }
    }
  }

  // ---- what redaction leaves alone ----

  /** `d` is the lower case of `c`. */
  predicate Folds(c: char, d: char) {
    if 'A' <= c <= 'Z' then d == (c - 'A') + 'a' else d == c
  }

  /** The hint stands in the key at `i`, in any case. */
  predicate StandsAt(key: string, hint: string, i: int) {
    0 <= i <= |key| - |hint| && forall j :: 0 <= j < |hint| ==> Folds(key[i + j], hint[j])
  }

  predicate OccursAt(s: string, hint: string, i: int) {
    0 <= i <= |s| - |hint| && s[i..i + |hint|] == hint
  }

  lemma {:induction false} ContainsMeans(s: string, hint: string)
    ensures Contains(s, hint) <==> exists i :: OccursAt(s, hint, i)
  {
    assert hint <= s <==> OccursAt(s, hint, 0);
    if s != [] {
      ContainsMeans(s[1..], hint);
      forall i | i > 0 ensures OccursAt(s, hint, i) <==> OccursAt(s[1..], hint, i - 1) {
        if i <= |s| - |hint| {
          assert s[1..][i - 1..i - 1 + |hint|] == s[i..i + |hint|];
        }
      }
      if i :| OccursAt(s[1..], hint, i) {
        assert OccursAt(s, hint, i + 1);
      }
    }
  }

  /** A key is sensitive exactly when one of the hints stands in it somewhere, in any case. */
  lemma SensitiveMeans(key: string)
    ensures IsSensitive(key) <==> exists h, i :: h in SENSITIVE_KEY_HINTS && StandsAt(key, h, i)
  {
    forall h ensures Contains(Lower(key), h) <==> exists i :: StandsAt(key, h, i) {
      ContainsMeans(Lower(key), h);
      forall i ensures OccursAt(Lower(key), h, i) <==> StandsAt(key, h, i) {
        LowerAt(key, h, i);
      }
      if i :| StandsAt(key, h, i) {
        assert OccursAt(Lower(key), h, i);
      }
    }
  }

  lemma LowerAt(key: string, hint: string, i: int)
    ensures OccursAt(Lower(key), hint, i) <==> StandsAt(key, hint, i)
  {
    if 0 <= i <= |key| - |hint| {
      var part := Lower(key)[i..i + |hint|];
      assert forall j :: 0 <= j < |hint| ==> part[j] == LowerChar(key[i + j]);
      assert forall j :: 0 <= j < |hint| ==> (part[j] == hint[j] <==> Folds(key[i + j], hint[j]));
    }
  }

  /** A key is dropped exactly when it is one of the four header names, in any case. */
  lemma DroppedMeans(key: string)
    ensures IsDropped(key) <==> exists h :: h in DROP_HEADERS && |h| == |key| && StandsAt(key, h, 0)
  {
    forall h ensures Lower(key) == h <==> |h| == |key| && StandsAt(key, h, 0) {
      LowerAt(key, h, 0);
      assert |h| == |key| ==> Lower(key)[0..|h|] == Lower(key);
    }
  }

  /** A payload without dropped keys, with the mask under every sensitive one, at most eight levels
      deep, and with lists and texts within their bounds; what redaction itself writes counts too. */
  predicate IsPlain(v: Json, depth: nat) {
    if depth > 8 then v == Text(DEPTH_LIMIT_TEXT) else
      match v
      case Object(fields) =>
        && (forall k :: k in fields ==> !IsDropped(k))
        && (forall k :: k in fields && IsSensitive(k) ==> fields[k] == Text("********"))
        && (forall k :: k in fields && !IsSensitive(k) ==> IsPlain(fields[k], depth + 1))
      case Array(items) => |items| <= 50 && forall i :: 0 <= i < |items| ==> IsPlain(items[i], depth + 1)
      case Text(s) => |s| <= 4096 || (|s| == 4096 + |TRUNCATED_SUFFIX| && s[4096..] == TRUNCATED_SUFFIX)
      case _ => true
  }

  /** Redaction leaves a payload as it is exactly when the payload is plain; so everything it stores is. */
  lemma {:induction false} RedactUnchangedIff(v: Json, depth: nat)
    ensures Redact(v, depth) == v <==> IsPlain(v, depth)
    decreases v
  {
    if depth <= MAX_DEPTH {
      match v
      case Object(fields) =>
        forall k | k in fields ensures Redact(fields[k], depth + 1) == fields[k] <==> IsPlain(fields[k], depth + 1) {
          RedactUnchangedIff(fields[k], depth + 1);
        }
        UnchangedObject(fields, depth);
      case Array(items) =>
        forall i | 0 <= i < |items| ensures Redact(items[i], depth + 1) == items[i] <==> IsPlain(items[i], depth + 1) {
          RedactUnchangedIff(items[i], depth + 1);
        }
        UnchangedArray(items, depth);
      case Text(s) => UnchangedText(s);
      case _ =>
    }
  }

  lemma UnchangedText(s: string)
    ensures Shorten(s) == s <==> |s| <= 4096 || (|s| == 4096 + |TRUNCATED_SUFFIX| && s[4096..] == TRUNCATED_SUFFIX)
  {
    if |s| > MAX_STRING {
      assert s == s[..MAX_STRING] + s[MAX_STRING..];
      assert Shorten(s)[MAX_STRING..] == TRUNCATED_SUFFIX;
    }
  }

  lemma UnchangedObject(fields: map<string, Json>, depth: nat)
    requires depth <= MAX_DEPTH
    requires forall k :: k in fields ==> (Redact(fields[k], depth + 1) == fields[k] <==> IsPlain(fields[k], depth + 1))
    ensures Redact(Object(fields), depth) == Object(fields) <==> IsPlain(Object(fields), depth)
  {
    var kept := Redact(Object(fields), depth).fields;
    if kept == fields {
      forall k | k in fields ensures !IsDropped(k) && (if IsSensitive(k) then fields[k] == Text(MASK) else IsPlain(fields[k], depth + 1)) {
        assert k in kept && kept[k] == fields[k];
      }
    }
    if IsPlain(Object(fields), depth) {
      assert kept.Keys == fields.Keys;
      assert forall k :: k in fields ==> kept[k] == fields[k];
    }
  }

  lemma UnchangedArray(items: seq<Json>, depth: nat)
    requires depth <= MAX_DEPTH
    requires forall i :: 0 <= i < |items| ==> (Redact(items[i], depth + 1) == items[i] <==> IsPlain(items[i], depth + 1))
    ensures Redact(Array(items), depth) == Array(items) <==> IsPlain(Array(items), depth)
  {
    var kept := Redact(Array(items), depth).items;
    if kept == items {
      forall i | 0 <= i < |items| ensures IsPlain(items[i], depth + 1) {
        assert kept[i] == items[i];
      }
    }
    if IsPlain(Array(items), depth) {
      assert forall i :: 0 <= i < |items| ==> kept[i] == items[i];
      assert kept == items;
    }
  }

  // ---- previews ----

  datatype Preview = Preview(items: seq<Json>, itemCount: nat, noted: bool)

  function AsSequence(items: Json): seq<Json> {
    if items.Array? then items.items else [items]
  }

  function RedactAll(items: seq<Json>): seq<Json> {
    seq(|items|, i requires 0 <= i < |items| => Redact(items[i], 0))
  }

  function Least(a: nat, b: nat): nat {
    if a < b then a else b
  }

  /** The stored preview of a node's output. `size(items, count)` is the length of the encoding
      without the note; `noted` is the PREVIEW_TRUNCATED_BY_SIZE mark. */
  method MakePreview(items: Json, maxItems: nat, maxBytes: int, size: (seq<Json>, nat) -> nat)
    returns (p: Preview, truncated: bool)
    ensures items.Null? ==> p == Preview([], 0, false) && !truncated
    ensures !items.Null? ==>
      var all := AsSequence(items); var cap := Least(|all|, maxItems); var kept := |p.items|;
      && p.itemCount == |all|
      && kept <= cap && p.items == RedactAll(all)[..kept]
      && (kept > 0 ==> size(p.items, |all|) <= maxBytes)
      && (forall j :: kept < j <= cap ==> size(RedactAll(all)[..j], |all|) > maxBytes)
      && (p.noted <==> size(RedactAll(all)[..cap], |all|) > maxBytes)
      && (truncated <==> p.noted || |all| > maxItems)
      && (!truncated ==> kept == |all|)
  {
    if items.Null? {
      return Preview([], 0, false), false;
    }
    var all := AsSequence(items);
    var total := |all|;
    var cap := Least(total, maxItems);
    var kept := RedactAll(all[..cap]);
    truncated := total > maxItems;
    ghost var full := RedactAll(all);
    assert kept == full[..cap];
    if size(kept, total) <= maxBytes {
      return Preview(kept, total, false), truncated;
    }
    while kept != [] && size(kept, total) > maxBytes
      invariant |kept| <= cap && kept == full[..|kept|]
      invariant forall j :: |kept| < j <= cap ==> size(full[..j], total) > maxBytes
      decreases |kept|
    {
      kept := kept[..|kept| - 1];
    }
    p, truncated := Preview(kept, total, true), true;
  }
}
