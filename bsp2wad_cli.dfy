/** The `bsp2wad` command: collect the miptextures of the listed BSP files,
    de-duplicated by name across files, and write them to one WAD. */
module Bsp2WadCli {
  import opened Results
  import opened Paths
  import opened VgioRecords
  import opened WadCli

  function Names(mips: seq<Miptexture>): (ns: seq<string>)
    ensures |ns| == |mips| && forall i :: 0 <= i < |mips| ==> ns[i] == mips[i].name
  {
    seq(|mips|, i requires 0 <= i < |mips| => mips[i].name)
  }

  /** What one BSP file adds: its miptextures in order, without the empty
      slots and without those whose name is already among `kept`, the list
      as it stood before this file. */
  function FromFile(kept: seq<Miptexture>, mips: seq<Option<Miptexture>>): (r: seq<Miptexture>)
    ensures |r| <= |mips|
    ensures forall i :: 0 <= i < |r| ==> r[i].name !in Names(kept) && Some(r[i]) in mips
    ensures forall i :: 0 <= i < |mips| && mips[i].Some? && mips[i].value.name !in Names(kept) ==> mips[i].value in r
  {
    if mips == [] then []
    else
      var rest := FromFile(kept, mips[1..]);
      assert forall i :: 1 <= i < |mips| ==> mips[i] == mips[1..][i - 1];
      (if mips[0].Some? && mips[0].value.name !in Names(kept) then [mips[0].value] else []) + rest
  }

  /** The miptextures collected from the inputs in order; None stands for
      an input that is not a BSP file. */
  function Collected(inputs: seq<Option<seq<Option<Miptexture>>>>): seq<Miptexture> {
    if inputs == [] then []
    else
      var kept := Collected(inputs[..|inputs| - 1]);
      match inputs[|inputs| - 1]
      case None => kept
      case Some(mips) => kept + FromFile(kept, mips)
  }

  /** The accumulation loop over the inputs. */
  method Collect(inputs: seq<Option<seq<Option<Miptexture>>>>) returns (miptextures: seq<Miptexture>)
    ensures miptextures == Collected(inputs)
  {
    miptextures := [];
    for i := 0 to |inputs|
      invariant miptextures == Collected(inputs[..i])
    {
      assert inputs[..i + 1][..i] == inputs[..i];
      if inputs[i].None? {
        continue;
      }
      var mips := inputs[i].value;
      var added := [];
      for j := 0 to |mips|
        invariant added == FromFile(miptextures, mips[..j])
      {
        FromFileSnoc(miptextures, mips[..j], mips[j]);
        assert mips[..j + 1] == mips[..j] + [mips[j]];
        if mips[j].Some? && mips[j].value.name !in Names(miptextures) {
          added := added + [mips[j].value];
        }
      }
      assert mips[..|mips|] == mips;
      miptextures := miptextures + added;
    }
    assert inputs[..|inputs|] == inputs;
  }

  lemma {:induction false} FromFileSnoc(kept: seq<Miptexture>, mips: seq<Option<Miptexture>>, m: Option<Miptexture>)
    ensures FromFile(kept, mips + [m]) ==
            FromFile(kept, mips) + (if m.Some? && m.value.name !in Names(kept) then [m.value] else [])
  {
    if mips == [] {
      assert [] + [m] == [m];
    } else {
      assert (mips + [m])[1..] == mips[1..] + [m];
      FromFileSnoc(kept, mips[1..], m);
    }
  }

  /** An input that is not a BSP file contributes nothing. */
  lemma SkippedInput(inputs: seq<Option<seq<Option<Miptexture>>>>)
    ensures Collected(inputs + [None]) == Collected(inputs)
  {
    assert (inputs + [None])[..|inputs|] == inputs;
  }

  /** Earlier files' results are kept as they are: collecting a prefix of
      the inputs gives a prefix of the result. */
  lemma {:induction false} CollectedPrefix(inputs: seq<Option<seq<Option<Miptexture>>>>, n: nat)
    requires n <= |inputs|
    ensures var whole := Collected(inputs);
            var part := Collected(inputs[..n]);
            |part| <= |whole| && whole[..|part|] == part
    decreases |inputs| - n
  {
    if n < |inputs| {
      var m := |inputs| - 1;
      assert inputs[..m][..n] == inputs[..n];
      CollectedPrefix(inputs[..m], n);
      assert inputs[..m] == inputs[..|inputs| - 1];
    } else {
      assert inputs[..n] == inputs;
    }
  }

  /** A name kept from an earlier file is never taken again from a later one. */
  lemma LaterFilesSkipKeptNames(inputs: seq<Option<seq<Option<Miptexture>>>>, mips: seq<Option<Miptexture>>, i: nat)
    requires i < |Collected(inputs)|
    ensures var kept := Collected(inputs);
            forall j :: |kept| <= j < |Collected(inputs + [Some(mips)])| ==>
              Collected(inputs + [Some(mips)])[j].name != kept[i].name
  {
    var kept := Collected(inputs);
    assert (inputs + [Some(mips)])[..|inputs|] == inputs;
    var added := FromFile(kept, mips);
    assert Collected(inputs + [Some(mips)]) == kept + added;
    assert kept[i].name in Names(kept);
  }

  /** Two miptextures of one file with the same name are both kept, since
      the filter only looks at what earlier files contributed. */
  lemma SameFileDuplicatesKept(a: Miptexture, b: Miptexture)
    requires a.name == b.name
    ensures Collected([Some([Some(a), Some(b)])]) == [a, b]
  {
    var inputs := [Some([Some(a), Some(b)])];
    assert inputs[..0] == [];
    assert Names([]) == [];
    var mips := [Some(a), Some(b)];
    assert mips[1..] == [Some(b)];
    assert [Some(b)][1..] == [];
    assert FromFile([], [Some(b)]) == [b] + FromFile([], []);
    assert FromFile([], mips) == [a] + FromFile([], [Some(b)]);
    assert Collected(inputs) == Collected([]) + FromFile([], mips);
  }

  /** `wad_name` when `-d` is left at the working directory: the stem of
      the (last) file for a one-entry list, `out.wad` otherwise. */
  function DefaultWadName(list: seq<string>): (name: string)
    requires |list| >= 1
    ensures |list| == 1 ==> name == Stem(list[0]) + ".wad"
    ensures |list| != 1 ==> name == "out.wad"
  {
    if |list| == 1 then Stem(list[|list| - 1]) + ".wad" else "out.wad"
  }

  /** The archive path: the default name in the directory of the last
      listed file, unless `-d` names another path. */
  function WadDest(list: seq<string>, dest: string, cwd: string): (d: string)
    requires |list| >= 1
    ensures dest != cwd ==> d == dest
    ensures dest == cwd ==> d == Join(Dirname(list[|list| - 1]), DefaultWadName(list)) && Basename(d) == DefaultWadName(list)
  {
    if dest == cwd then
      JoinBasename(Dirname(list[|list| - 1]), DefaultWadName(list));
      Join(Dirname(list[|list| - 1]), DefaultWadName(list))
    else dest
  }

  /** The entries written, one per collected miptexture, in order. */
  method WriteEntries(mips: seq<Miptexture>, quiet: bool) returns (entries: seq<(WadInfo, Miptexture)>, messages: seq<string>)
    ensures |entries| == |mips|
    ensures forall i :: 0 <= i < |mips| ==> entries[i] == (MiptexInfo(mips[i]), mips[i])
    ensures quiet ==> messages == []
    ensures !quiet ==> |messages| == |mips| && forall i :: 0 <= i < |mips| ==> messages[i] == " adding: " + mips[i].name
  {
    entries := [];
    messages := [];
    for i := 0 to |mips|
      invariant |entries| == i
      invariant forall k :: 0 <= k < i ==> entries[k] == (MiptexInfo(mips[k]), mips[k])
      invariant quiet ==> messages == []
      invariant !quiet ==> |messages| == i && forall k :: 0 <= k < i ==> messages[k] == " adding: " + mips[k].name
    {
      var info := WadInfo(mips[i].name, 40 + |mips[i].pixels|, 40 + |mips[i].pixels|, NoCompression, MiptexType);
      if !quiet {
        messages := messages + [" adding: " + info.filename];
      }
      entries := entries + [(info, mips[i])];
    }
  }

  const CannotOpenPrefix := "bsp2wad: cannot find or open "

  /** The stderr lines for the inputs that are not BSP files, in list
      order: one per such input, naming it. */
  function ErrorLines(files: seq<string>, open: string -> Option<seq<Option<Miptexture>>>): (lines: seq<string>)
    ensures |lines| == |files| - |set k | 0 <= k < |files| && open(files[k]).Some?|
    ensures forall i :: 0 <= i < |lines| ==>
              exists j :: 0 <= j < |files| && open(files[j]).None? && lines[i] == CannotOpenPrefix + files[j]
  {
    if files == [] then []
    else
      var n := |files| - 1;
      var front := ErrorLines(files[..n], open);
      assert forall j :: 0 <= j < n ==> files[..n][j] == files[j];
      SetStep(files, open, n);
      assert (set k | 0 <= k < n && open(files[..n][k]).Some?) == (set k | 0 <= k < n && open(files[k]).Some?);
      front + (if open(files[n]).None? then [CannotOpenPrefix + files[n]] else [])
  }

  datatype Bsp2WadOutcome = Bsp2WadOutcome(errors: seq<string>, dest: string, entries: seq<(WadInfo, Miptexture)>, messages: seq<string>, exitCode: int)

  const MissingList := "bsp2wad error: the following arguments are required: list"

  /** A whole run. `open(f)` is the miptexture table of BSP file `f`, or
      None when `f` is not a BSP file. */
  method Run(list: Option<seq<string>>, dest: string, cwd: string, quiet: bool,
             open: string -> Option<seq<Option<Miptexture>>>) returns (r: Bsp2WadOutcome)
    ensures (list.None? || list.value == []) ==> r == Bsp2WadOutcome([MissingList], dest, [], [], 1)
    ensures list.Some? && list.value != [] ==>
              var files := list.value;
              var inputs := seq(|files|, i requires 0 <= i < |files| => open(files[i]));
              var mips := Collected(inputs);
              r.exitCode == 0 && r.dest == WadDest(files, dest, cwd) &&
              |r.entries| == |mips| &&
              (forall i :: 0 <= i < |mips| ==> r.entries[i] == (MiptexInfo(mips[i]), mips[i])) &&
              r.errors == ErrorLines(files, open) &&
              (quiet <==> r.messages == []) &&
              (!quiet ==> (|r.messages| == |mips| + 1 && r.messages[0] == "Archive: " + Basename(r.dest) &&
                           forall i :: 0 <= i < |mips| ==> r.messages[i + 1] == " adding: " + mips[i].name))
  {
    if list.None? || list.value == [] {
      return Bsp2WadOutcome([MissingList], dest, [], [], 1);
    }
    var files := list.value;
    var inputs := seq(|files|, i requires 0 <= i < |files| => open(files[i]));
    var errors := [];
    for i := 0 to |files|
      invariant errors == ErrorLines(files[..i], open)
    {
      assert files[..i + 1][..i] == files[..i];
      if open(files[i]).None? {
        errors := errors + [CannotOpenPrefix + files[i]];
      }
    }
    assert files[..|files|] == files;
    var mips := Collect(inputs);
    var wadPath := WadDest(files, dest, cwd);
    var entries, added := WriteEntries(mips, quiet);
    var messages := if quiet then [] else ["Archive: " + Basename(wadPath)] + added;
    return Bsp2WadOutcome(errors, wadPath, entries, messages, 0);
  }

  lemma SetStep(files: seq<string>, open: string -> Option<seq<Option<Miptexture>>>, i: nat)
    requires i < |files|
    ensures |set k | 0 <= k < i + 1 && open(files[k]).Some?| ==
            |set k | 0 <= k < i && open(files[k]).Some?| + (if open(files[i]).Some? then 1 else 0)
  {
    var a := set k | 0 <= k < i && open(files[k]).Some?;
    var b := set k | 0 <= k < i + 1 && open(files[k]).Some?;
    if open(files[i]).Some? {
      assert b == a + {i};
    } else {
      assert b == a;
    }
  }
}
