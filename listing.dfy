/** The archive listing tables that `unwad -l` and `unpak -l` hand to
    `tabulate`: rows, a footer with the total size and the file count,
    and a separator row just before the footer. Rendering is not modelled. */
module Listing {
  import opened Strings
  import opened Seqs

  /** One table cell: a number or a text. */
  datatype Cell = Num(n: int) | Text(s: string)

  /** The width of the separator under a column:
      `max(len(str(total)), len(header) + 2)`. */
  function SeparatorWidth(total: nat, header: string): (w: nat)
    ensures w >= |NatToString(total)| && w >= |header| + 2
    ensures w == |NatToString(total)| || w == |header| + 2
  {
    var digits := |NatToString(total)|;
    if digits >= |header| + 2 then digits else |header| + 2
  }

  /** The separator loop: one run of dashes per header, in header order. */
  method BuildSeparator(headers: seq<string>, total: nat) returns (separator: seq<Cell>)
    ensures |separator| == |headers|
    ensures forall i :: 0 <= i < |headers| ==> separator[i] == Text(Repeat('-', SeparatorWidth(total, headers[i])))
  {
    separator := [];
    for i := 0 to |headers|
      invariant |separator| == i
      invariant forall j :: 0 <= j < i ==> separator[j] == Text(Repeat('-', SeparatorWidth(total, headers[j])))
    {
      var t := SeparatorWidth(total, headers[i]);
      separator := separator + [Text(Repeat('-', t))];
    }
  }

  /** `table.insert(-1, x)`: x goes just before the last row. */
  function InsertBeforeLast<T>(table: seq<T>, x: T): (r: seq<T>)
    ensures |r| == |table| + 1
    ensures table == [] ==> r == [x]
    ensures table != [] ==>
              r[..|table| - 1] == table[..|table| - 1] && r[|table| - 1] == x && r[|table|] == table[|table| - 1]
  {
    if table == [] then [x] else table[..|table| - 1] + [x] + [table[|table| - 1]]
  }

  /** `f'{count} file'` followed by "s" when `plural` holds. */
  function CountLabel(count: nat, plural: bool): (text: string)
    ensures StartsWith(text, NatToString(count) + " file")
    ensures |text| == |NatToString(count)| + 5 + (if plural then 1 else 0)
    ensures text[|text| - 1] == 's' <==> plural
  {
    NatToString(count) + " file" + (if plural then "s" else "")
  }

  function Map<T>(s: seq<T>, f: T -> nat): (r: seq<nat>)
    ensures |r| == |s| && forall i :: 0 <= i < |s| ==> r[i] == f(s[i])
  {
    seq(|s|, i requires 0 <= i < |s| => f(s[i]))
  }

  /** The footer total does not depend on the order of the entries. */
  lemma {:induction false} TotalOfPermutation<T>(a: seq<T>, b: seq<T>, f: T -> nat)
    requires multiset(a) == multiset(b)
    ensures Sum(Map(a, f)) == Sum(Map(b, f))
    decreases |a|
  {
    if a == [] {
      assert |multiset(b)| == 0;
    } else {
      var x, t := a[0], a[1..];
      assert a == [x] + t;
      assert x in multiset(a);
      var j :| 0 <= j < |b| && b[j] == x;
      var c := b[..j] + b[j + 1..];
      RemoveOne(b, j, f);
      assert multiset(t) == multiset(a) - multiset{x};
      assert multiset(t) == multiset(c);
      TotalOfPermutation(t, c, f);
      MapAppend([x], t, f);
      assert Sum(Map([x], f)) == f(x);
    }
  }

  lemma RemoveOne<T>(b: seq<T>, j: nat, f: T -> nat)
    requires j < |b|
    ensures multiset(b[..j] + b[j + 1..]) == multiset(b) - multiset{b[j]}
    ensures Sum(Map(b, f)) == f(b[j]) + Sum(Map(b[..j] + b[j + 1..], f))
  {
    assert b == b[..j] + [b[j]] + b[j + 1..];
    MapAppend(b[..j] + [b[j]], b[j + 1..], f);
    MapAppend(b[..j], [b[j]], f);
    MapAppend(b[..j], b[j + 1..], f);
  }

  lemma MapAppend<T>(a: seq<T>, b: seq<T>, f: T -> nat)
    ensures Sum(Map(a + b, f)) == Sum(Map(a, f)) + Sum(Map(b, f))
  {
    assert Map(a + b, f) == Map(a, f) + Map(b, f);
    SumAppend(Map(a, f), Map(b, f));
  }
}
