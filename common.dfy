/** Shared helpers of the tools: sanitising lines read from a pipe
    (`read_from_stdin`) and path expansion of parsed arguments
    (`ResolvePathAction`). */
module Common {
  import opened Results
  import opened Seqs

  const Esc: char := '\U{1B}'

  // The pattern compiled as `ansi_escape` matches the control sequences of
  // section 5.4 of ECMA-48 in their 7-bit form: ESC, '[', parameter bytes
  // 0x30-0x3F, intermediate bytes 0x20-0x2F, one final byte 0x40-0x7E.

  predicate IsParameter(c: char) { '0' <= c <= '?' }
  predicate IsIntermediate(c: char) { ' ' <= c <= '/' }
  predicate IsFinal(c: char) { '@' <= c <= '~' }

  /** The reference definition: `t` is one control sequence, as a whole. */
  predicate IsCsi(t: string) {
    |t| >= 3 && t[0] == Esc && t[1] == '[' && IsFinal(t[|t| - 1]) &&
    exists p :: 2 <= p <= |t| - 1 && Params(t, p) && Intermediates(t, p)
  }

  /** Bytes 2 up to p of `t` are parameter bytes. */
  predicate Params(t: string, p: int)
    requires 2 <= p <= |t|
  {
    forall k :: 2 <= k < p ==> IsParameter(t[k])
  }

  /** Bytes p up to the last of `t` are intermediate bytes. */
  predicate Intermediates(t: string, p: int)
    requires 0 <= p <= |t| && |t| >= 1
  {
    forall k :: p <= k < |t| - 1 ==> IsIntermediate(t[k])
  }

  /** How many characters from position i satisfy the class, in a row. */
  function ParamRun(s: string, i: nat): (n: nat)
    requires i <= |s|
    ensures i + n <= |s|
    ensures forall k :: i <= k < i + n ==> IsParameter(s[k])
    ensures i + n < |s| ==> !IsParameter(s[i + n])
    decreases |s| - i
  {
    if i < |s| && IsParameter(s[i]) then 1 + ParamRun(s, i + 1) else 0
  }

  function IntermediateRun(s: string, i: nat): (n: nat)
    requires i <= |s|
    ensures i + n <= |s|
    ensures forall k :: i <= k < i + n ==> IsIntermediate(s[k])
    ensures i + n < |s| ==> !IsIntermediate(s[i + n])
    decreases |s| - i
  {
    if i < |s| && IsIntermediate(s[i]) then 1 + IntermediateRun(s, i + 1) else 0
  }

  /** The length of the match of `ansi_escape` at the start of `s`, if any:
      the parameter and intermediate runs are taken whole, then a final
      byte must follow. */
  function CsiLength(s: string): (r: Option<nat>)
    ensures r.Some? ==> 3 <= r.value <= |s|
  {
    if |s| >= 2 && s[0] == Esc && s[1] == '[' then
      var p := 2 + ParamRun(s, 2);
      var q := p + IntermediateRun(s, p);
      if q < |s| && IsFinal(s[q]) then Some(q + 1) else None
    else None
  }

  /** The computed match is a control sequence, and it is the only prefix
      of `s` that is one: the three byte classes are disjoint, so however
      the pattern backtracks it can match only this prefix. */
  lemma CsiLengthSpec(s: string)
    ensures CsiLength(s).Some? ==> IsCsi(s[..CsiLength(s).value])
    ensures forall n :: 0 <= n <= |s| && IsCsi(s[..n]) ==> CsiLength(s) == Some(n)
  {
    if CsiLength(s).Some? {
      var t := s[..CsiLength(s).value];
      var p := 2 + ParamRun(s, 2);
      assert Params(t, p) && Intermediates(t, p);
    }
    forall n | 0 <= n <= |s| && IsCsi(s[..n])
      ensures CsiLength(s) == Some(n)
    {
      CsiPrefixIsTheMatch(s, n);
    }
  }

  lemma CsiPrefixIsTheMatch(s: string, n: nat)
    requires n <= |s| && IsCsi(s[..n])
    ensures CsiLength(s) == Some(n)
  {
    var t := s[..n];
    var p :| 2 <= p <= |t| - 1 && Params(t, p) && Intermediates(t, p);
    assert t[p] == s[p] && !IsParameter(s[p]);
    ParamRunStops(s, 2, p);
    assert t[n - 1] == s[n - 1] && !IsIntermediate(s[n - 1]);
    IntermediateRunStops(s, p, n - 1);
  }

  lemma {:induction false} ParamRunStops(s: string, i: nat, p: nat)
    requires i <= p < |s|
    requires forall k :: i <= k < p ==> IsParameter(s[k])
    requires !IsParameter(s[p])
    ensures ParamRun(s, i) == p - i
    decreases p - i
  {
    if i < p {
      ParamRunStops(s, i + 1, p);
    }
  }

  lemma {:induction false} IntermediateRunStops(s: string, i: nat, p: nat)
    requires i <= p < |s|
    requires forall k :: i <= k < p ==> IsIntermediate(s[k])
    requires !IsIntermediate(s[p])
    ensures IntermediateRun(s, i) == p - i
    decreases p - i
  {
    if i < p {
      IntermediateRunStops(s, i + 1, p);
    }
  }

  /** `ansi_escape.sub('', t)`: scanning from the left, each match is
      dropped and the scan resumes after it; other characters are kept. */
  function RemoveCsi(s: string): (r: string)
    ensures |r| <= |s|
    decreases |s|
  {
    if s == [] then []
    else match CsiLength(s)
      case Some(n) => RemoveCsi(s[n..])
      case None => [s[0]] + RemoveCsi(s[1..])
  }

  /** The removal only drops characters: each survivor comes from the input. */
  lemma {:induction false} RemoveCsiKeepsCharacters(s: string)
    ensures multiset(RemoveCsi(s)) <= multiset(s)
    decreases |s|
  {
    if s != [] {
      match CsiLength(s)
      case Some(n) =>
        assert s == s[..n] + s[n..];
        RemoveCsiKeepsCharacters(s[n..]);
      case None =>
        assert s == [s[0]] + s[1..];
        RemoveCsiKeepsCharacters(s[1..]);
    }
  }

  /** Text without an ESC is unchanged. */
  lemma {:induction false} RemoveCsiNoEscape(s: string)
    requires Esc !in s
    ensures RemoveCsi(s) == s
  {
    if s != [] {
      assert s[0] != Esc;
      assert Esc !in s[1..];
      RemoveCsiNoEscape(s[1..]);
      assert s == [s[0]] + s[1..];
    }
  }

  /** A control sequence after ESC-free text is removed, and nothing else of
      that text: `RemoveCsi(a + t + b) == a + RemoveCsi(b)`. */
  lemma RemoveCsiDropsSequence(a: string, t: string, b: string)
    requires Esc !in a && IsCsi(t)
    ensures RemoveCsi(a + t + b) == a + RemoveCsi(b)
  {
    RemoveCsiKeepsPrefix(a, t + b);
    RemoveCsiDropsFirst(t, b);
    assert a + (t + b) == a + t + b;
  }

  /** ESC-free text in front is kept as it is. */
  lemma {:induction false} RemoveCsiKeepsPrefix(a: string, x: string)
    requires Esc !in a
    ensures RemoveCsi(a + x) == a + RemoveCsi(x)
    decreases |a|
  {
    if a == [] {
      assert a + x == x;
    } else {
      RemoveCsiKeepsHead(a, x);
      assert Esc !in a[1..];
      RemoveCsiKeepsPrefix(a[1..], x);
      assert [a[0]] + (a[1..] + RemoveCsi(x)) == a + RemoveCsi(x);
    }
  }

  lemma RemoveCsiKeepsHead(a: string, rest: string)
    requires a != [] && a[0] != Esc
    ensures RemoveCsi(a + rest) == [a[0]] + RemoveCsi(a[1..] + rest)
  {
    var s := a + rest;
    RemoveCsiKeepsFirst(s);
    assert s[1..] == a[1..] + rest;
  }

  /** A control sequence at the start is dropped whole. */
  lemma RemoveCsiDropsFirst(t: string, b: string)
    requires IsCsi(t)
    ensures RemoveCsi(t + b) == RemoveCsi(b)
  {
    var s := t + b;
    assert s[..|t|] == t;
    CsiPrefixIsTheMatch(s, |t|);
    assert s[|t|..] == b;
  }

  /** A first character other than ESC is kept. */
  lemma RemoveCsiKeepsFirst(s: string)
    requires s != [] && s[0] != Esc
    ensures RemoveCsi(s) == [s[0]] + RemoveCsi(s[1..])
  {
    assert CsiLength(s).None?;
  }

  /** The removal is a single pass: a sequence split by another sequence
      comes back together. "ESC ESC [ m [ m" leaves "ESC [ m". */
  lemma RemoveCsiSinglePass()
    ensures RemoveCsi([Esc, Esc, '[', 'm', '[', 'm']) == [Esc, '[', 'm']
    ensures IsCsi([Esc, '[', 'm'])
  {
    var s := [Esc, Esc, '[', 'm', '[', 'm'];
    assert CsiLength(s).None?;
    assert RemoveCsi(s) == [Esc] + RemoveCsi(s[1..]);
    ShortestCsi(s[1..]);
    assert s[1..][3..] == ['[', 'm'];
    RemoveCsiNoEscape(['[', 'm']);
    ShortestCsiIsCsi('m');
  }

  /** ESC '[' and a final byte: the shortest control sequence. */
  lemma ShortestCsi(s: string)
    requires |s| >= 3 && s[0] == Esc && s[1] == '[' && IsFinal(s[2])
    ensures CsiLength(s) == Some(3)
    ensures RemoveCsi(s) == RemoveCsi(s[3..])
  {
    assert ParamRun(s, 2) == 0;
    assert IntermediateRun(s, 2) == 0;
  }

  lemma ShortestCsiIsCsi(f: char)
    requires IsFinal(f)
    ensures IsCsi([Esc, '[', f])
  {
    assert Params([Esc, '[', f], 2) && Intermediates([Esc, '[', f], 2);
  }

  /** The number of leading newlines of `s`. */
  function LeadingNewlines(s: string): (i: nat)
    ensures i <= |s|
    ensures forall k :: 0 <= k < i ==> s[k] == '\n'
    ensures i < |s| ==> s[i] != '\n'
  {
    if s != [] && s[0] == '\n' then 1 + LeadingNewlines(s[1..]) else 0
  }

  /** The number of trailing newlines of `s`. */
  function TrailingNewlines(s: string): (n: nat)
    ensures n <= |s|
    ensures forall k :: |s| - n <= k < |s| ==> s[k] == '\n'
    ensures n < |s| ==> s[|s| - n - 1] != '\n'
  {
    if s != [] && s[|s| - 1] == '\n' then 1 + TrailingNewlines(s[..|s| - 1]) else 0
  }

  /** `t.strip('\n')`: leading and trailing newlines removed, nothing else. */
  function StripNewlines(s: string): (r: string)
    ensures var i := LeadingNewlines(s);
            i + |r| <= |s| && r == s[i..i + |r|] &&
            forall k :: i + |r| <= k < |s| ==> s[k] == '\n'
    ensures r != [] ==> r[0] != '\n' && r[|r| - 1] != '\n'
    ensures r == [] <==> forall k :: 0 <= k < |s| ==> s[k] == '\n'
  {
    var i := LeadingNewlines(s);
    var rest := s[i..];
    rest[..|rest| - TrailingNewlines(rest)]
  }

  /** Text without a newline is not changed by the strip. */
  lemma StripNoNewline(s: string)
    requires '\n' !in s
    ensures StripNewlines(s) == s
  {
    assert LeadingNewlines(s) == 0;
    assert s[0..] == s;
    if s != [] { assert s[|s| - 1] in s; }
    assert TrailingNewlines(s) == 0;
  }

  /** One sanitised line: newlines stripped first, then escapes removed. */
  function Sanitize(line: string): string {
    RemoveCsi(StripNewlines(line))
  }

  /** The lines `read_from_stdin` returns, in order, with empty ones dropped. */
  function SanitizeAll(lines: seq<string>): (r: seq<string>)
    ensures |r| <= |lines|
    ensures forall i :: 0 <= i < |r| ==> r[i] != []
    ensures forall i :: 0 <= i < |r| ==> exists j :: 0 <= j < |lines| && r[i] == Sanitize(lines[j])
  {
    if lines == [] then []
    else
      var t := Sanitize(lines[0]);
      var rest := SanitizeAll(lines[1..]);
      assert forall i :: 0 <= i < |rest| ==> exists j :: 1 <= j < |lines| && rest[i] == Sanitize(lines[j]);
      (if t == [] then [] else [t]) + rest
  }

  /** The sanitised lines of a pipe read in two parts are those of the
      first part followed by those of the second: order is kept. */
  lemma {:induction false} SanitizeAllAppend(a: seq<string>, b: seq<string>)
    ensures SanitizeAll(a + b) == SanitizeAll(a) + SanitizeAll(b)
  {
    if a == [] {
      assert a + b == b;
    } else {
      var head := if Sanitize(a[0]) == [] then [] else [Sanitize(a[0])];
      assert (a + b)[0] == a[0];
      assert (a + b)[1..] == a[1..] + b;
      SanitizeAllCons(a + b);
      SanitizeAllCons(a);
      SanitizeAllAppend(a[1..], b);
      ConcatAssociative(head, SanitizeAll(a[1..]), SanitizeAll(b));
    }
  }

  lemma SanitizeAllCons(lines: seq<string>)
    requires lines != []
    ensures SanitizeAll(lines) == (if Sanitize(lines[0]) == [] then [] else [Sanitize(lines[0])]) + SanitizeAll(lines[1..])
  {
  }

  /** One more line read adds its sanitised form, unless that is empty. */
  lemma SanitizeAllSnoc(lines: seq<string>, line: string)
    ensures SanitizeAll(lines + [line]) == SanitizeAll(lines) + (if Sanitize(line) == [] then [] else [Sanitize(line)])
  {
    SanitizeAllAppend(lines, [line]);
    assert [line][1..] == [];
  }

  /** `read_from_stdin`: nothing when stdin is a terminal; otherwise the
      sanitised, non-empty lines of the pipe. */
  function ReadFromStdin(isTty: bool, lines: seq<string>): (r: Option<seq<string>>)
    ensures isTty <==> r.None?
    ensures r.Some? ==> r.value == SanitizeAll(lines)
  {
    if isTty then None else Some(SanitizeAll(lines))
  }

  /** Plain lines — no ESC, no newline, none empty — pass through unchanged. */
  lemma {:induction false} PlainLinesUnchanged(lines: seq<string>)
    requires forall i :: 0 <= i < |lines| ==> lines[i] != [] && Esc !in lines[i] && '\n' !in lines[i]
    ensures SanitizeAll(lines) == lines
  {
    if lines != [] {
      StripNoNewline(lines[0]);
      RemoveCsiNoEscape(lines[0]);
      PlainLinesUnchanged(lines[1..]);
      assert lines == [lines[0]] + lines[1..];
    }
  }

  /** The strip happens before escape removal, so a newline hidden behind an
      escape survives: "a\n" followed by "ESC [ m" yields "a\n". */
  lemma StripBeforeRemove()
    ensures Sanitize(['a', '\n', Esc, '[', 'm']) == ['a', '\n']
    ensures StripNewlines(RemoveCsi(['a', '\n', Esc, '[', 'm'])) == ['a']
  {
    var s := ['a', '\n', Esc, '[', 'm'];
    StripNoNewlineAtEnds(s);
    assert CsiLength(s).None?;
    assert RemoveCsi(s) == ['a'] + RemoveCsi(s[1..]);
    assert CsiLength(s[1..]).None?;
    assert RemoveCsi(s[1..]) == ['\n'] + RemoveCsi(s[2..]);
    ShortestCsi(s[2..]);
    assert s[2..][3..] == [];
    assert RemoveCsi(s) == ['a', '\n'];
    var t := ['a', '\n'];
    assert LeadingNewlines(t) == 0 && t[0..] == t;
    assert t[..1] == ['a'] && TrailingNewlines(t[..1]) == 0;
    assert TrailingNewlines(t) == 1;
  }

  lemma StripNoNewlineAtEnds(s: string)
    requires s != [] && s[0] != '\n' && s[|s| - 1] != '\n'
    ensures StripNewlines(s) == s
  {
    assert LeadingNewlines(s) == 0;
    assert s[0..] == s;
    assert TrailingNewlines(s) == 0;
  }

  /** A parsed argument value: one string or a list of them. */
  datatype ArgValue = One(value: string) | Many(values: seq<string>)

  /** `ResolvePathAction`: `expand` (`os.path.expanduser`) applied to the
      value, or to each value of a list; the shape is kept. */
  function ResolvePaths(v: ArgValue, expand: string -> string): (r: ArgValue)
    ensures r.One? <==> v.One?
    ensures v.One? ==> r.value == expand(v.value)
    ensures v.Many? ==> |r.values| == |v.values| &&
                        forall i :: 0 <= i < |v.values| ==> r.values[i] == expand(v.values[i])
  {
    match v
    case One(s) => One(expand(s))
    case Many(ss) => Many(seq(|ss|, i requires 0 <= i < |ss| => expand(ss[i])))
  }
}
