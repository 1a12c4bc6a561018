/** Python's `sorted(xs, key=...)` with a string key: a stable sort under the
    lexicographic code-point order of `str`. */
module Sorting {

  /** Python's `a <= b` on `str`. */
  predicate LexLe(a: string, b: string) {
    a == [] || (b != [] && (a[0] < b[0] || (a[0] == b[0] && LexLe(a[1..], b[1..]))))
  }

  predicate LexLt(a: string, b: string) {
    LexLe(a, b) && a != b
  }

  lemma LexLeReflexive(a: string)
    ensures LexLe(a, a)
  {
  }

  lemma {:induction false} LexLeTotal(a: string, b: string)
    ensures LexLe(a, b) || LexLe(b, a)
  {
    if a != [] && b != [] && a[0] == b[0] {
      LexLeTotal(a[1..], b[1..]);
    }
  }

  lemma {:induction false} LexLeTransitive(a: string, b: string, c: string)
    requires LexLe(a, b) && LexLe(b, c)
    ensures LexLe(a, c)
  {
    if a != [] && b != [] && c != [] && a[0] == b[0] == c[0] {
      LexLeTransitive(a[1..], b[1..], c[1..]);
    }
  }

  lemma {:induction false} LexLeAntisymmetric(a: string, b: string)
    requires LexLe(a, b) && LexLe(b, a)
    ensures a == b
  {
    if a != [] && b != [] {
      LexLeAntisymmetric(a[1..], b[1..]);
      assert a == [a[0]] + a[1..];
      assert b == [b[0]] + b[1..];
    }
  }

  predicate SortedBy<T>(s: seq<T>, key: T -> string) {
    forall i, j :: 0 <= i < j < |s| ==> LexLe(key(s[i]), key(s[j]))
  }

  /** The elements of `s` whose key is `k`, in their order in `s`. */
  function WithKey<T>(s: seq<T>, key: T -> string, k: string): seq<T> {
    if s == [] then [] else (if key(s[0]) == k then [s[0]] else []) + WithKey(s[1..], key, k)
  }

  /** Places `x` after every element whose key is not greater than its own. */
  function Insert<T>(x: T, s: seq<T>, key: T -> string): seq<T> {
    if s == [] then [x]
    else if LexLt(key(x), key(s[0])) then [x] + s
    else [s[0]] + Insert(x, s[1..], key)
  }

  /** Insertion sort, taking the elements from left to right. */
  function SortBy<T>(s: seq<T>, key: T -> string): seq<T> {
    if s == [] then [] else Insert(s[|s| - 1], SortBy(s[..|s| - 1], key), key)
  }

  /** `SortBy` is a stable sort: the result is ordered by key, is a
      permutation of the input, and keeps the input order among equal keys. */
  lemma {:induction false} SortByCorrect<T>(s: seq<T>, key: T -> string)
    ensures SortedBy(SortBy(s, key), key)
    ensures multiset(SortBy(s, key)) == multiset(s)
    ensures forall k :: WithKey(SortBy(s, key), key, k) == WithKey(s, key, k)
  {
    if s != [] {
      var init, x := s[..|s| - 1], s[|s| - 1];
      assert s == init + [x];
      SortByCorrect(init, key);
      var t := SortBy(init, key);
      InsertSorted(x, t, key);
      InsertMultiset(x, t, key);
      forall k
        ensures WithKey(SortBy(s, key), key, k) == WithKey(s, key, k)
      {
        InsertWithKey(x, t, key, k);
        WithKeyAppend(init, [x], key, k);
      }
    }
  }

  lemma {:induction false} InsertMultiset<T>(x: T, s: seq<T>, key: T -> string)
    ensures multiset(Insert(x, s, key)) == multiset(s) + multiset{x}
  {
    if s != [] && !LexLt(key(x), key(s[0])) {
      InsertMultiset(x, s[1..], key);
      assert s == [s[0]] + s[1..];
    }
  }

  lemma {:induction false} InsertSorted<T>(x: T, s: seq<T>, key: T -> string)
    requires SortedBy(s, key)
    ensures SortedBy(Insert(x, s, key), key)
  {
    if s == [] {
    } else if LexLt(key(x), key(s[0])) {
      forall j | 0 < j < |s| ensures LexLe(key(x), key(s[j])) {
        LexLeTransitive(key(x), key(s[0]), key(s[j]));
      }
    } else {
      LexLeTotal(key(x), key(s[0]));
      assert LexLe(key(s[0]), key(x));
      var rest := Insert(x, s[1..], key);
      InsertSorted(x, s[1..], key);
      InsertMultiset(x, s[1..], key);
      forall j | 0 <= j < |rest| ensures LexLe(key(s[0]), key(rest[j])) {
        assert rest[j] in multiset(rest);
        if rest[j] != x {
          assert rest[j] in multiset(s[1..]);
          var m :| 0 <= m < |s[1..]| && s[1..][m] == rest[j];
          assert s[m + 1] == rest[j];
        }
      }
    }
  }

  lemma {:induction false} InsertWithKey<T>(x: T, s: seq<T>, key: T -> string, k: string)
    requires SortedBy(s, key)
    ensures WithKey(Insert(x, s, key), key, k)
         == WithKey(s, key, k) + (if key(x) == k then [x] else [])
  {
    if s == [] {
    } else if LexLt(key(x), key(s[0])) {
      if key(x) == k {
        NoneWithKey(s, key, k);
      }
    } else {
      var rest := Insert(x, s[1..], key);
      var r := [s[0]] + rest;
      assert r[0] == s[0] && r[1..] == rest;
      var head := if key(s[0]) == k then [s[0]] else [];
      assert WithKey(r, key, k) == head + WithKey(rest, key, k);
      assert WithKey(s, key, k) == head + WithKey(s[1..], key, k);
      assert SortedBy(s[1..], key);
      InsertWithKey(x, s[1..], key, k);
    }
  }

  /** In a sorted sequence whose first key is above `k`, no key equals `k`. */
  lemma NoneWithKey<T>(s: seq<T>, key: T -> string, k: string)
    requires SortedBy(s, key) && s != [] && LexLt(k, key(s[0]))
    ensures WithKey(s, key, k) == []
  {
    forall j | 0 <= j < |s| ensures key(s[j]) != k {
      if key(s[j]) == k {
        LexLeAntisymmetric(k, key(s[0]));
      }
    }
    NoKeyNoElements(s, key, k);
  }

  lemma {:induction false} NoKeyNoElements<T>(s: seq<T>, key: T -> string, k: string)
    requires forall j :: 0 <= j < |s| ==> key(s[j]) != k
    ensures WithKey(s, key, k) == []
  {
    if s != [] {
      NoKeyNoElements(s[1..], key, k);
    }
  }

  lemma {:induction false} WithKeyAppend<T>(a: seq<T>, b: seq<T>, key: T -> string, k: string)
    ensures WithKey(a + b, key, k) == WithKey(a, key, k) + WithKey(b, key, k)
  {
    if a == [] {
      assert a + b == b;
    } else {
      var h := if key(a[0]) == k then [a[0]] else [];
      assert (a + b)[0] == a[0] && (a + b)[1..] == a[1..] + b;
      assert WithKey(a + b, key, k) == h + WithKey(a[1..] + b, key, k);
      WithKeyAppend(a[1..], b, key, k);
      assert WithKey(a, key, k) == h + WithKey(a[1..], key, k);
      assert h + (WithKey(a[1..], key, k) + WithKey(b, key, k)) == (h + WithKey(a[1..], key, k)) + WithKey(b, key, k);
    }
  }
}
