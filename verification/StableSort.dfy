/** Stable sorting by a string key, and what determines its result. */
module StableSort {

  /** Code-point order on strings, as Python compares them. */
  predicate StringLe(a: string, b: string) {
    a == "" || (b != "" && (a[0] < b[0] || (a[0] == b[0] && StringLe(a[1..], b[1..]))))
  }

  /** The first difference decides; a text comes after its own beginnings. */
  predicate DiffersBelow(a: string, b: string, i: int) {
    0 <= i < |a| && i < |b| && a[..i] == b[..i] && a[i] < b[i]
  }

  lemma {:induction false} StringLeMeans(a: string, b: string)
    ensures StringLe(a, b) <==> a <= b || exists i :: DiffersBelow(a, b, i)
  {
    if a != "" && b != "" {
      if a[0] == b[0] {
        StringLeMeans(a[1..], b[1..]);
        if i :| DiffersBelow(a[1..], b[1..], i) {
          assert a[..i + 1] == [a[0]] + a[1..][..i] && b[..i + 1] == [b[0]] + b[1..][..i];
          assert DiffersBelow(a, b, i + 1);
        }
        if i :| DiffersBelow(a, b, i) {
          assert i > 0;
          assert a[1..][..i - 1] == a[..i][1..] && b[1..][..i - 1] == b[..i][1..];
          assert DiffersBelow(a[1..], b[1..], i - 1);
        }
        assert a <= b <==> a[1..] <= b[1..];
      } else if a[0] < b[0] {
        assert DiffersBelow(a, b, 0);
      } else {
        assert forall i :: 0 < i < |a| && i < |b| ==> a[..i][0] != b[..i][0];
      }
    }
  }

  lemma {:induction false} StringLeTotal(a: string, b: string)
    ensures StringLe(a, b) || StringLe(b, a)
    ensures StringLe(a, b) && StringLe(b, a) ==> a == b
  {
    if a != "" && b != "" && a[0] == b[0] {
      StringLeTotal(a[1..], b[1..]);
      assert a == [a[0]] + a[1..] && b == [b[0]] + b[1..];
    }
  }

  lemma {:induction false} StringLeTransitive(a: string, b: string, c: string)
    requires StringLe(a, b) && StringLe(b, c)
    ensures StringLe(a, c)
  {
    if a != "" && a[0] == b[0] == c[0] {
      StringLeTransitive(a[1..], b[1..], c[1..]);
    }
  }

  predicate SortedBy<T>(key: T -> string, s: seq<T>) {
    forall i, j :: 0 <= i < j < |s| ==> StringLe(key(s[i]), key(s[j]))
  }

  /** The elements with one key, in order. */
  function WithKey<T>(key: T -> string, s: seq<T>, k: string): seq<T> {
    if s == [] then [] else
      var last := s[|s| - 1];
      WithKey(key, s[..|s| - 1], k) + (if key(last) == k then [last] else [])
  }

  /** The two sequences hold the same elements under every key, in the same order. */
  ghost predicate SameByKey<T>(key: T -> string, s: seq<T>, t: seq<T>) {
    forall k :: WithKey(key, s, k) == WithKey(key, t, k)
  }

  /** Puts `x` after every element whose key is not greater. */
  function Insert<T>(key: T -> string, s: seq<T>, x: T): seq<T> {
    if s == [] || StringLe(key(s[|s| - 1]), key(x)) then s + [x]
    else Insert(key, s[..|s| - 1], x) + [s[|s| - 1]]
  }

  /** Python's `sorted(s, key=key)`. */
  function Sorted<T>(key: T -> string, s: seq<T>): seq<T> {
    if s == [] then [] else Insert(key, Sorted(key, s[..|s| - 1]), s[|s| - 1])
  }

  lemma {:induction false} WithKeyConcat<T>(key: T -> string, a: seq<T>, b: seq<T>, k: string)
    ensures WithKey(key, a + b, k) == WithKey(key, a, k) + WithKey(key, b, k)
    decreases |b|
  {
    if b == [] {
      assert a + b == a;
    } else {
      var n := |b| - 1;
      assert (a + b)[..|a + b| - 1] == a + b[..n];
      WithKeyConcat(key, a, b[..n], k);
    }
  }

  lemma {:induction false} WithKeyMembers<T>(key: T -> string, s: seq<T>, k: string)
    ensures forall x :: x in WithKey(key, s, k) <==> x in s && key(x) == k
  {
    if s != [] {
      var n := |s| - 1;
      WithKeyMembers(key, s[..n], k);
      assert s == s[..n] + [s[n]];
    }
  }

  lemma {:induction false} InsertAdds<T>(key: T -> string, s: seq<T>, x: T)
    ensures multiset(Insert(key, s, x)) == multiset(s) + multiset{x}
  {
    if s != [] && !StringLe(key(s[|s| - 1]), key(x)) {
      InsertAdds(key, s[..|s| - 1], x);
      assert s == s[..|s| - 1] + [s[|s| - 1]];
    }
  }

  lemma {:induction false} InsertSorts<T>(key: T -> string, s: seq<T>, x: T)
    requires SortedBy(key, s)
    ensures SortedBy(key, Insert(key, s, x))
  {
    if s != [] {
      var n := |s| - 1;
      StringLeTotal(key(s[n]), key(x));
      if StringLe(key(s[n]), key(x)) {
        forall i | 0 <= i < n ensures StringLe(key(s[i]), key(x)) {
          StringLeTransitive(key(s[i]), key(s[n]), key(x));
        }
      } else {
        InsertSorts(key, s[..n], x);
        InsertAdds(key, s[..n], x);
        var front := Insert(key, s[..n], x);
        forall i | 0 <= i < |front| ensures StringLe(key(front[i]), key(s[n])) {
          assert front[i] in multiset(front);
          if front[i] != x {
            var j :| 0 <= j < n && s[..n][j] == front[i];
            assert StringLe(key(s[j]), key(s[n]));
          }
        }
      }
    }
  }

  lemma {:induction false} InsertKeepsKeys<T>(key: T -> string, s: seq<T>, x: T, k: string)
    requires SortedBy(key, s)
    ensures WithKey(key, Insert(key, s, x), k) == WithKey(key, s, k) + (if key(x) == k then [x] else [])
  {
    if s == [] {
      assert Insert(key, s, x) == [x];
    } else {
      var n := |s| - 1;
      if StringLe(key(s[n]), key(x)) {
        assert (s + [x])[..|s|] == s;
      } else {
        StringLeTotal(key(s[n]), key(s[n]));
        InsertKeepsKeys(key, s[..n], x, k);
        var front := Insert(key, s[..n], x);
        assert (front + [s[n]])[..|front|] == front;
        if key(x) == k && key(s[n]) == k {
          assert false;
        }
      }
    }
  }

  lemma {:induction false} SortedIsStableSort<T>(key: T -> string, s: seq<T>)
    ensures SortedBy(key, Sorted(key, s)) && SameByKey(key, Sorted(key, s), s)
  {
    if s != [] {
      SortedIsStableSort(key, s[..|s| - 1]);
      var front := Sorted(key, s[..|s| - 1]);
      InsertSorts(key, front, s[|s| - 1]);
      forall k ensures WithKey(key, Sorted(key, s), k) == WithKey(key, s, k) {
        InsertKeepsKeys(key, front, s[|s| - 1], k);
        assert WithKey(key, front, k) == WithKey(key, s[..|s| - 1], k);
      }
    }
  }

  /** The greatest key of one sorted sequence occurs in the other. */
  lemma LastKeyBounds<T>(key: T -> string, s: seq<T>, t: seq<T>)
    requires SortedBy(key, t) && SameByKey(key, s, t) && s != []
    ensures t != [] && StringLe(key(s[|s| - 1]), key(t[|t| - 1]))
  {
    var x := s[|s| - 1];
    WithKeyMembers(key, s, key(x));
    WithKeyMembers(key, t, key(x));
    assert WithKey(key, s, key(x)) == WithKey(key, t, key(x));
    assert x in t;
    var i :| 0 <= i < |t| && t[i] == x;
    StringLeTotal(key(x), key(x));
  }

  lemma SameByKeyLength<T>(key: T -> string, s: seq<T>, t: seq<T>)
    requires SameByKey(key, s, t)
    ensures s == [] <==> t == []
  {
    assert s != [] ==> WithKey(key, s, key(s[|s| - 1])) != [] && WithKey(key, t, key(s[|s| - 1])) != [];
    assert t != [] ==> WithKey(key, t, key(t[|t| - 1])) != [] && WithKey(key, s, key(t[|t| - 1])) != [];
  }

  /** A sorted sequence is determined by its contents under each key. */
  lemma {:induction false} SortedUnique<T>(key: T -> string, s: seq<T>, t: seq<T>)
    requires SortedBy(key, s) && SortedBy(key, t) && SameByKey(key, s, t)
    ensures s == t
  {
    SameByKeyLength(key, s, t);
    if s != [] {
      LastKeyBounds(key, s, t);
      assert forall k :: WithKey(key, t, k) == WithKey(key, s, k);
      LastKeyBounds(key, t, s);
      var m, n := |s| - 1, |t| - 1;
      StringLeTotal(key(s[m]), key(t[n]));
      var k := key(s[m]);
      assert WithKey(key, s, k) == WithKey(key, t, k);
      assert WithKey(key, s, k)[|WithKey(key, s, k)| - 1] == s[m];
      assert WithKey(key, t, k)[|WithKey(key, t, k)| - 1] == t[n];
      forall q ensures WithKey(key, s[..m], q) == WithKey(key, t[..n], q) {
        var all := WithKey(key, s, q);
        assert all == WithKey(key, t, q);
        assert WithKey(key, s[..m], q) == if q == k then all[..|all| - 1] else all;
        assert WithKey(key, t[..n], q) == if q == k then all[..|all| - 1] else all;
      }
      SortedUnique(key, s[..m], t[..n]);
      assert s == s[..m] + [s[m]] && t == t[..n] + [t[n]];
    }
  }

  /** Two sequences sort to the same result exactly when they agree under every key. */
  lemma SortedEqual<T>(key: T -> string, s: seq<T>, t: seq<T>)
    ensures Sorted(key, s) == Sorted(key, t) <==> SameByKey(key, s, t)
  {
    SortedIsStableSort(key, s);
    SortedIsStableSort(key, t);
    if SameByKey(key, s, t) {
      forall k ensures WithKey(key, Sorted(key, s), k) == WithKey(key, Sorted(key, t), k) {
        assert WithKey(key, s, k) == WithKey(key, t, k);
      }
      SortedUnique(key, Sorted(key, s), Sorted(key, t));
    }
    if Sorted(key, s) == Sorted(key, t) {
      forall k ensures WithKey(key, s, k) == WithKey(key, t, k) {
        assert WithKey(key, Sorted(key, s), k) == WithKey(key, s, k);
      }
    }
  }

  // ---- keys that identify their elements ----

  ghost predicate Injective<T(!new), U>(f: T -> U) {
    forall x, y :: f(x) == f(y) ==> x == y
  }

  lemma {:induction false} WithKeyCounts<T(!new)>(key: T -> string, s: seq<T>, x: T)
    requires Injective(key)
    ensures WithKey(key, s, key(x)) == seq(multiset(s)[x], _ => x)
  {
    if s != [] {
      var n := |s| - 1;
      WithKeyCounts(key, s[..n], x);
      assert s == s[..n] + [s[n]];
    }
  }

  lemma Memberless<T>(s: seq<T>)
    ensures (forall x :: x !in s) ==> s == []
  {
    assert s == [] || s[0] in s;
  }

  /** Under an injective key, agreeing under every key means being the same multiset. */
  lemma SameByInjectiveKey<T(!new)>(key: T -> string, s: seq<T>, t: seq<T>)
    requires Injective(key)
    ensures SameByKey(key, s, t) <==> multiset(s) == multiset(t)
  {
    if multiset(s) == multiset(t) {
      forall k ensures WithKey(key, s, k) == WithKey(key, t, k) {
        if x :| x in s && key(x) == k {
          WithKeyCounts(key, s, x);
          WithKeyCounts(key, t, x);
        } else {
          WithKeyMembers(key, s, k);
          WithKeyMembers(key, t, k);
          assert forall x :: x in t ==> x in multiset(s);
          Memberless(WithKey(key, s, k));
          Memberless(WithKey(key, t, k));
        }
      }
    }
    if SameByKey(key, s, t) {
      forall x ensures multiset(s)[x] == multiset(t)[x] {
        WithKeyCounts(key, s, x);
        WithKeyCounts(key, t, x);
        assert WithKey(key, s, key(x)) == WithKey(key, t, key(x));
      }
    }
  }
}
