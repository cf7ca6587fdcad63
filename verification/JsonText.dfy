/** JSON text as a codec, and that a faithful one exists: assuming one is no empty assumption. */
module JsonText {
  import opened Wrappers
  import opened Json

  datatype Codec = Codec(dumps: Json -> string, loads: string -> Option<Json>) {
    /** Decoding undoes encoding. */
    ghost predicate Faithful() {
      forall j :: loads(dumps(j)) == Some(j)
    }
  }

  lemma FaithfulIsInjective(codec: Codec, a: Json, b: Json)
    requires codec.Faithful()
    ensures codec.dumps(a) == codec.dumps(b) ==> a == b
  {
    assert codec.loads(codec.dumps(a)) == Some(a) && codec.loads(codec.dumps(b)) == Some(b);
  }

  // ---- one prefix-free encoding ----

  function Tally(n: nat): string {
    if n == 0 then "." else "|" + Tally(n - 1)
  }

  function Marked(s: string): string {
    Tally(|s|) + s
  }

  function IntText(i: int): string {
    if i < 0 then "-" + Tally(-i) else "+" + Tally(i)
  }

  ghost function Encode(j: Json): (s: string)
    ensures s != ""
    decreases j, 1, 0
  {
    match j
    case Null => "n"
    case Bool(flag) => if flag then "t" else "f"
    case Number(mantissa, exponent) => "#" + (IntText(mantissa) + IntText(exponent))
    case Text(text) => "'" + Marked(text)
    case Array(items) => "[" + (Tally(|items|) + EncodeItems(j, |items|))
    case Object(fields) => "{" + (Tally(|fields|) + EncodeFields(j, fields.Keys))
  }

  ghost function EncodeItems(j: Json, n: nat): string
    requires j.Array? && n <= |j.items|
    decreases j, 0, n
  {
    if n == 0 then "" else EncodeItems(j, n - 1) + Encode(j.items[n - 1])
  }

  /** The fields in some order that depends on the keys alone. */
  ghost function EncodeFields(j: Json, keys: set<string>): string
    requires j.Object? && keys <= j.fields.Keys
    decreases j, 0, |keys|
  {
    if keys == {} then "" else
      var k :| k in keys;
      Marked(k) + (Encode(j.fields[k]) + EncodeFields(j, keys - {k}))
  }

  lemma {:induction false} TallyPrefix(m: nat, n: nat, x: string, y: string)
    requires Tally(m) + x == Tally(n) + y
    ensures m == n && x == y
  {
    var s, t := Tally(m) + x, Tally(n) + y;
    assert s[0] == Tally(m)[0] && t[0] == Tally(n)[0];
    if m > 0 && n > 0 {
      assert s[1..] == Tally(m - 1) + x && t[1..] == Tally(n - 1) + y;
      TallyPrefix(m - 1, n - 1, x, y);
    } else {
      assert s[1..] == x && t[1..] == y;
    }
  }

  lemma MarkedPrefix(s: string, t: string, x: string, y: string)
    requires Marked(s) + x == Marked(t) + y
    ensures s == t && x == y
  {
    assert Marked(s) + x == Tally(|s|) + (s + x) && Marked(t) + y == Tally(|t|) + (t + y);
    TallyPrefix(|s|, |t|, s + x, t + y);
    assert s == (s + x)[..|s|] && t == (t + y)[..|t|];
    assert x == (s + x)[|s|..] && y == (t + y)[|t|..];
  }

  function Size(i: int): nat {
    if i < 0 then -i else i
  }

  lemma IntTextTail(i: int)
    ensures IntText(i)[0] == (if i < 0 then '-' else '+') && IntText(i)[1..] == Tally(Size(i))
  {
    assert IntText(i) == (if i < 0 then "-" else "+") + Tally(Size(i));
  }

  lemma IntTextPrefix(i: int, k: int, x: string, y: string)
    requires IntText(i) + x == IntText(k) + y
    ensures i == k && x == y
  {
    IntTextTail(i);
    IntTextTail(k);
    var p, q := IntText(i), IntText(k);
    assert (p + x)[0] == p[0] && (q + y)[0] == q[0];
    assert (p + x)[1..] == p[1..] + x && (q + y)[1..] == q[1..] + y;
    TallyPrefix(Size(i), Size(k), x, y);
  }

  lemma NumberPrefix(a: Json, b: Json, x: string, y: string)
    requires a.Number? && b.Number? && Encode(a) + x == Encode(b) + y
    ensures a == b && x == y
  {
    var s, t := Encode(a) + x, Encode(b) + y;
    assert s[1..] == IntText(a.mantissa) + (IntText(a.exponent) + x);
    assert t[1..] == IntText(b.mantissa) + (IntText(b.exponent) + y);
    IntTextPrefix(a.mantissa, b.mantissa, IntText(a.exponent) + x, IntText(b.exponent) + y);
    IntTextPrefix(a.exponent, b.exponent, x, y);
  }

  lemma SameTag(a: Json, b: Json, x: string, y: string)
    requires Encode(a) + x == Encode(b) + y
    ensures a.Null? == b.Null? && a.Bool? == b.Bool? && a.Number? == b.Number?
    ensures a.Text? == b.Text? && a.Array? == b.Array? && a.Object? == b.Object?
    ensures Encode(a)[0] == Encode(b)[0]
    ensures Encode(a)[1..] + x == Encode(b)[1..] + y
  {
    var s, t := Encode(a) + x, Encode(b) + y;
    assert s[0] == Encode(a)[0] && t[0] == Encode(b)[0];
    assert s[1..] == Encode(a)[1..] + x && t[1..] == Encode(b)[1..] + y;
  }

  lemma LeafPrefix(a: Json, b: Json, x: string, y: string)
    requires (a.Null? && b.Null?) || (a.Bool? && b.Bool?)
    requires Encode(a)[0] == Encode(b)[0] && Encode(a)[1..] + x == Encode(b)[1..] + y
    ensures a == b && x == y
  {
    assert Encode(a)[1..] + x == x && Encode(b)[1..] + y == y;
  }

  lemma Regroup(a: string, b: string, c: string)
    ensures (a + b) + c == a + (b + c)
  {
  }

  /** The field an encoding of these fields starts with. */
  lemma FirstField(j: Json, keys: set<string>) returns (k: string)
    requires j.Object? && keys <= j.fields.Keys && keys != {}
    ensures k in keys && EncodeFields(j, keys) == Marked(k) + (Encode(j.fields[k]) + EncodeFields(j, keys - {k}))
  {
    k :| k in keys && EncodeFields(j, keys) == Marked(k) + (Encode(j.fields[k]) + EncodeFields(j, keys - {k}));
  }

  lemma {:induction false} ItemsPrefix(a: Json, b: Json, n: nat, x: string, y: string)
    requires a.Array? && b.Array? && n <= |a.items| && n <= |b.items|
    requires EncodeItems(a, n) + x == EncodeItems(b, n) + y
    ensures a.items[..n] == b.items[..n] && x == y
    decreases a, 0, n
  {
    if n > 0 {
      var p, q := Encode(a.items[n - 1]), Encode(b.items[n - 1]);
      Regroup(EncodeItems(a, n - 1), p, x);
      Regroup(EncodeItems(b, n - 1), q, y);
      ItemsPrefix(a, b, n - 1, p + x, q + y);
      EncodePrefix(a.items[n - 1], b.items[n - 1], x, y);
      assert a.items[..n] == a.items[..n - 1] + [a.items[n - 1]] && b.items[..n] == b.items[..n - 1] + [b.items[n - 1]];
    } else {
      assert EncodeItems(a, n) + x == x && EncodeItems(b, n) + y == y;
    }
  }

  lemma {:induction false} FieldsPrefix(a: Json, b: Json, ka: set<string>, kb: set<string>, x: string, y: string)
    requires a.Object? && b.Object? && ka <= a.fields.Keys && kb <= b.fields.Keys && |ka| == |kb|
    requires EncodeFields(a, ka) + x == EncodeFields(b, kb) + y
    ensures ka == kb && (forall k :: k in ka ==> a.fields[k] == b.fields[k]) && x == y
    decreases a, 0, |ka|
  {
    if ka != {} {
      var k := FirstField(a, ka);
      var l := FirstField(b, kb);
      var p, q := EncodeFields(a, ka - {k}), EncodeFields(b, kb - {l});
      Regroup(Marked(k), Encode(a.fields[k]) + p, x);
      Regroup(Encode(a.fields[k]), p, x);
      Regroup(Marked(l), Encode(b.fields[l]) + q, y);
      Regroup(Encode(b.fields[l]), q, y);
      MarkedPrefix(k, l, Encode(a.fields[k]) + (p + x), Encode(b.fields[l]) + (q + y));
      EncodePrefix(a.fields[k], b.fields[l], p + x, q + y);
      FieldsPrefix(a, b, ka - {k}, kb - {l}, x, y);
      assert ka == (ka - {k}) + {k} && kb == (kb - {l}) + {l};
    } else {
      assert EncodeFields(a, ka) + x == x && EncodeFields(b, kb) + y == y;
    }
  }

  /** No encoding is a prefix of another one. */
  lemma {:induction false} EncodePrefix(a: Json, b: Json, x: string, y: string)
    requires Encode(a) + x == Encode(b) + y
    ensures a == b && x == y
    decreases a, 1, 0
  {
    SameTag(a, b, x, y);
    match a {
      case Null => LeafPrefix(a, b, x, y);
      case Bool(_) => LeafPrefix(a, b, x, y);
      case Number(_, _) => NumberPrefix(a, b, x, y);
      case Text(text) => MarkedPrefix(text, b.text, x, y);
      case Array(items) =>
        var n := |b.items|;
        Regroup(Tally(|items|), EncodeItems(a, |items|), x);
        Regroup(Tally(n), EncodeItems(b, n), y);
        TallyPrefix(|items|, n, EncodeItems(a, |items|) + x, EncodeItems(b, n) + y);
        ItemsPrefix(a, b, n, x, y);
        assert items[..n] == items && b.items[..n] == b.items;
      case Object(fields) =>
        var other := b.fields;
        Regroup(Tally(|fields|), EncodeFields(a, fields.Keys), x);
        Regroup(Tally(|other|), EncodeFields(b, other.Keys), y);
        TallyPrefix(|fields|, |other|, EncodeFields(a, fields.Keys) + x, EncodeFields(b, other.Keys) + y);
        FieldsPrefix(a, b, fields.Keys, other.Keys, x, y);
        assert fields == other;
    }
  }

  ghost function Decode(s: string): Option<Json> {
    if exists j :: Encode(j) == s then
      var j :| Encode(j) == s;
      Some(j)
    else None
  }

  lemma DecodeEncoded(j: Json)
    ensures Decode(Encode(j)) == Some(j)
  {
    var other :| Decode(Encode(j)) == Some(other) && Encode(other) == Encode(j);
    assert Encode(other) + "" == Encode(j) + "";
    EncodePrefix(other, j, "", "");
  }

  /** There is a faithful codec. */
  lemma FaithfulCodecExists() returns (codec: Codec)
    ensures codec.Faithful()
  {
    codec := Codec(j => Encode(j), s => Decode(s));
    forall j ensures codec.loads(codec.dumps(j)) == Some(j) {
      DecodeEncoded(j);
    }
  }
}
