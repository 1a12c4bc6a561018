/** String operations of Python's `str` used by the tools, over `seq<char>`. */
module Strings {

  predicate StartsWith(s: string, prefix: string) {
    |prefix| <= |s| && s[..|prefix|] == prefix
  }

  predicate EndsWith(s: string, suffix: string) {
    |suffix| <= |s| && s[|s| - |suffix|..] == suffix
  }

  /** Position of the first `c` in `s`, or `|s|` when `s` has none. */
  function IndexOf(s: string, c: char): (i: nat)
    ensures i <= |s|
    ensures i < |s| ==> s[i] == c
    ensures forall k :: 0 <= k < i ==> s[k] != c
  {
    if s == [] then 0 else if s[0] == c then 0 else 1 + IndexOf(s[1..], c)
  }

  /** Python's `s.rfind(c)`: position of the last `c`, or -1. */
  function LastIndexOf(s: string, c: char): (i: int)
    ensures -1 <= i < |s|
    ensures i >= 0 ==> s[i] == c
    ensures forall k :: i < k < |s| ==> s[k] != c
  {
    if s == [] then -1
    else if s[|s| - 1] == c then |s| - 1
    else LastIndexOf(s[..|s| - 1], c)
  }

  /** Python's `s.split(c)` for a one-character separator. */
  function Split(s: string, c: char): (parts: seq<string>)
    ensures |parts| >= 1
    ensures forall i :: 0 <= i < |parts| ==> c !in parts[i]
    decreases |s|
  {
    var i := IndexOf(s, c);
    if i == |s| then [s] else [s[..i]] + Split(s[i + 1..], c)
  }

  /** Python's `c.join(parts)`. */
  function JoinWith(parts: seq<string>, c: char): string
    requires |parts| >= 1
  {
    if |parts| == 1 then parts[0] else parts[0] + [c] + JoinWith(parts[1..], c)
  }

  /** Splitting and joining again gives back the string. */
  lemma {:induction false} SplitThenJoin(s: string, c: char)
    ensures JoinWith(Split(s, c), c) == s
    decreases |s|
  {
    var i := IndexOf(s, c);
    if i < |s| {
      var rest := s[i + 1..];
      SplitThenJoin(rest, c);
      SplitAtFirst(s, c, i);
      var parts := Split(s, c);
      assert parts[0] == s[..i] && parts[1..] == Split(rest, c);
      JoinCons(parts, c);
      Reassemble(s, c, i);
    }
  }

  /** Splitting at the first separator. */
  lemma SplitAtFirst(s: string, c: char, i: nat)
    requires i == IndexOf(s, c) && i < |s|
    ensures Split(s, c) == [s[..i]] + Split(s[i + 1..], c)
  {
  }

  lemma JoinCons(parts: seq<string>, c: char)
    requires |parts| > 1
    ensures JoinWith(parts, c) == parts[0] + [c] + JoinWith(parts[1..], c)
  {
  }

  lemma Reassemble(s: string, c: char, i: nat)
    requires i < |s| && s[i] == c
    ensures s == s[..i] + [c] + s[i + 1..]
  {
  }

  /** Joining separator-free parts and splitting again gives back the parts. */
  lemma {:induction false} JoinThenSplit(parts: seq<string>, c: char)
    requires |parts| >= 1
    requires forall i :: 0 <= i < |parts| ==> c !in parts[i]
    ensures Split(JoinWith(parts, c), c) == parts
  {
    var p := parts[0];
    assert c !in p;
    if |parts| == 1 {
      IndexOfAbsent(p, c);
    } else {
      var s := JoinWith(parts, c);
      var rest := JoinWith(parts[1..], c);
      assert s == p + [c] + rest;
      IndexOfAfterPrefix(p, rest, c);
      assert s[..|p|] == p;
      assert s[|p| + 1..] == rest;
      JoinThenSplit(parts[1..], c);
    }
  }

  lemma IndexOfAbsent(s: string, c: char)
    requires c !in s
    ensures IndexOf(s, c) == |s|
  {
  }

  lemma IndexOfAfterPrefix(p: string, rest: string, c: char)
    requires c !in p
    ensures IndexOf(p + [c] + rest, c) == |p|
  {
    var s := p + [c] + rest;
    assert s[|p|] == c;
    assert forall k :: 0 <= k < |p| ==> s[k] == p[k];
  }

  /** Python's `s.split(c)[0]`: the part of `s` before its first `c`. */
  function BeforeFirst(s: string, c: char): (r: string)
    ensures r == Split(s, c)[0]
    ensures r == s[..IndexOf(s, c)]
    ensures c !in r
    ensures |r| < |s| ==> s[|r|] == c
  {
    Split(s, c)[0]
  }

  /** Python's `s.split(c)[-1]`: the part of `s` after its last `c` (all of `s` if none). */
  function AfterLast(s: string, c: char): (r: string)
    ensures var parts := Split(s, c); r == parts[|parts| - 1]
    ensures r == s[LastIndexOf(s, c) + 1..]
    ensures c !in r
  {
    SplitLast(s, c);
    var parts := Split(s, c);
    parts[|parts| - 1]
  }

  lemma SplitLast(s: string, c: char)
    ensures var parts := Split(s, c); parts[|parts| - 1] == s[LastIndexOf(s, c) + 1..]
  {
    var k := LastIndexOf(s, c);
    if k >= 0 {
      var a, b := s[..k], s[k + 1..];
      Reassemble(s, c, k);
      SplitSnoc(a, b, c);
    } else {
      assert c !in s;
      IndexOfAbsent(s, c);
      IndexOfAbsentSplit(s, c);
      assert s[0..] == s;
    }
  }

  /** A separator followed by a separator-free tail adds that tail as the last part. */
  lemma {:induction false} SplitSnoc(a: string, b: string, c: char)
    requires c !in b
    ensures Split(a + [c] + b, c) == Split(a, c) + [b]
    decreases |a|
  {
    var i := IndexOf(a, c);
    if i == |a| {
      SplitSnocNoSep(a, b, c);
    } else {
      var t := a[i + 1..];
      SplitSnoc(t, b, c);
      SplitSnocStep(a, b, c, i);
    }
  }

  lemma SplitSnocNoSep(a: string, b: string, c: char)
    requires c !in a && c !in b
    ensures Split(a + [c] + b, c) == [a, b]
  {
    var s := a + [c] + b;
    IndexOfAfterPrefix(a, b, c);
    SplitAtFirst(s, c, |a|);
    assert s[..|a|] == a && s[|a| + 1..] == b;
    IndexOfAbsent(b, c);
    IndexOfAbsentSplit(b, c);
  }

  lemma SplitSnocStep(a: string, b: string, c: char, i: nat)
    requires i == IndexOf(a, c) && i < |a|
    requires var t := a[i + 1..]; Split(t + [c] + b, c) == Split(t, c) + [b]
    ensures Split(a + [c] + b, c) == Split(a, c) + [b]
  {
    var x := [c] + b;
    var t := a[i + 1..];
    assert a + [c] + b == a + x;
    assert t + [c] + b == t + x;
    SplitAppend(a, x, c, i);
    SplitAtFirst(a, c, i);
  }

  lemma SplitAppend(a: string, x: string, c: char, i: nat)
    requires i == IndexOf(a, c) && i < |a|
    ensures Split(a + x, c) == [a[..i]] + Split(a[i + 1..] + x, c)
  {
    IndexOfPrefix(a, x, c);
    ConcatSlices(a, x, i);
    SplitAtFirst(a + x, c, i);
  }

  lemma ConcatSlices(a: string, x: string, i: nat)
    requires i < |a|
    ensures (a + x)[..i] == a[..i] && (a + x)[i + 1..] == a[i + 1..] + x
  {
  }

  /** The first `c` of `a` stays the first one when anything is appended. */
  lemma IndexOfPrefix(a: string, x: string, c: char)
    requires IndexOf(a, c) < |a|
    ensures IndexOf(a + x, c) == IndexOf(a, c)
  {
    var i := IndexOf(a, c);
    var s := a + x;
    assert s[i] == a[i];
    assert forall k :: 0 <= k < i ==> s[k] == a[k];
    IndexOfUnique(s, c, i);
  }

  /** The properties of IndexOf determine it. */
  lemma IndexOfUnique(s: string, c: char, i: nat)
    requires i <= |s|
    requires i < |s| ==> s[i] == c
    requires forall k :: 0 <= k < i ==> s[k] != c
    ensures IndexOf(s, c) == i
  {
  }

  lemma IndexOfAbsentSplit(s: string, c: char)
    requires IndexOf(s, c) == |s|
    ensures Split(s, c) == [s]
  {
  }

  lemma LastIndexOfAbsent(s: string, c: char)
    requires c !in s
    ensures LastIndexOf(s, c) == -1
  {
    if s != [] {
      assert c !in s[..|s| - 1];
      LastIndexOfAbsent(s[..|s| - 1], c);
    }
  }

  /** The properties of LastIndexOf determine it. */
  lemma LastIndexOfUnique(s: string, c: char, k: int)
    requires -1 <= k < |s|
    requires k >= 0 ==> s[k] == c
    requires forall m :: k < m < |s| ==> s[m] != c
    ensures LastIndexOf(s, c) == k
  {
  }

  /** Python's `str(n)` for a non-negative integer. */
  function NatToString(n: nat): (s: string)
    ensures |s| >= 1
    ensures forall i :: 0 <= i < |s| ==> '0' <= s[i] <= '9'
    ensures s[0] == '0' ==> n == 0
  {
    if n < 10 then [DigitChar(n)] else NatToString(n / 10) + [DigitChar(n % 10)]
  }

  function DigitChar(d: nat): (c: char)
    requires d < 10
    ensures '0' <= c <= '9'
  {
    ('0' as int + d) as char
  }

  /** Reads back a string of decimal digits. */
  function ParseDigits(s: string): nat
    requires forall i :: 0 <= i < |s| ==> '0' <= s[i] <= '9'
  {
    if s == [] then 0 else ParseDigits(s[..|s| - 1]) * 10 + (s[|s| - 1] as int - '0' as int)
  }

  /** `str(n)` is the decimal numeral of `n`: reading it back gives `n`. */
  lemma {:induction false} NatToStringParses(n: nat)
    ensures ParseDigits(NatToString(n)) == n
  {
    if n >= 10 {
      var s := NatToString(n);
      assert s[..|s| - 1] == NatToString(n / 10);
      NatToStringParses(n / 10);
    }
  }

  /** Python's `str.upper` on one character, for the characters whose upper
      case is an ASCII letter: `a`..`z` and the dotless i (U+0131). */
  function UpperChar(c: char): char {
    if 'a' <= c <= 'z' then (c as int - 32) as char
    else if c == 'ı' then 'I'
    else c
  }

  function Upper(s: string): (r: string)
    ensures |r| == |s|
    ensures forall i :: 0 <= i < |s| ==> r[i] == UpperChar(s[i])
  {
    if s == [] then [] else [UpperChar(s[0])] + Upper(s[1..])
  }

  /** Python's `s * n`. */
  function Repeat(c: char, n: nat): (r: string)
    ensures |r| == n
    ensures forall i :: 0 <= i < n ==> r[i] == c
  {
    if n == 0 then [] else [c] + Repeat(c, n - 1)
  }
}
