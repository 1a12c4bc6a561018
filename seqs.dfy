/** Generic facts about sequences: de-duplication, flattening, sums. */
module Seqs {

  /** No element occurs twice. */
  predicate NoDup<T(==)>(s: seq<T>) {
    forall i, j :: 0 <= i < j < |s| ==> s[i] != s[j]
  }

  /** Keeps the first occurrence of every element, in order of first occurrence. */
  function Dedup<T(==)>(s: seq<T>): (r: seq<T>)
    ensures NoDup(r)
    ensures forall i :: 0 <= i < |s| ==> s[i] in r
    ensures forall i :: 0 <= i < |r| ==> r[i] in s
    ensures |r| <= |s|
  {
    if s == [] then []
    else
      var rest := Dedup(s[..|s| - 1]);
      if s[|s| - 1] in rest then rest else rest + [s[|s| - 1]]
  }

  /** Python's nested comprehension `[x for xs in ss for x in xs]`. */
  function Flatten<T>(ss: seq<seq<T>>): (r: seq<T>)
    ensures forall i, j :: 0 <= i < |ss| && 0 <= j < |ss[i]| ==> ss[i][j] in r
    ensures forall k :: 0 <= k < |r| ==> exists i :: 0 <= i < |ss| && r[k] in ss[i]
  {
    if ss == [] then [] else ss[0] + Flatten(ss[1..])
  }

  lemma ConcatAssociative<T>(x: seq<T>, y: seq<T>, z: seq<T>)
    ensures x + (y + z) == (x + y) + z
  {
  }

  /** Python's `sum` of a list of non-negative integers. */
  function Sum(s: seq<nat>): nat {
    if s == [] then 0 else s[0] + Sum(s[1..])
  }

  lemma {:induction false} SumAppend(s: seq<nat>, t: seq<nat>)
    ensures Sum(s + t) == Sum(s) + Sum(t)
  {
    if s != [] {
      assert (s + t)[1..] == s[1..] + t;
      SumAppend(s[1..], t);
    } else {
      assert s + t == t;
    }
  }
}
