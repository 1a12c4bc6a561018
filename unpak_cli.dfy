/** The `unpak` command: list a PAK archive's entries, or extract them in
    filename order. */
module UnpakCli {
  import opened Results
  import opened Strings
  import opened Seqs
  import opened Paths
  import opened Sorting
  import opened VgioRecords
  import opened Listing

  const PakHeaders: seq<string> := ["Length", "Name"]

  function Filename(i: PakInfo): string { i.filename }

  function Size(i: PakInfo): nat { i.fileSize }

  function Rows(infos: seq<PakInfo>): (rows: seq<seq<Cell>>)
    ensures |rows| == |infos| && forall i :: 0 <= i < |infos| ==> rows[i] == [Num(infos[i].fileSize), Text(infos[i].filename)]
  {
    seq(|infos|, i requires 0 <= i < |infos| => [Num(infos[i].fileSize), Text(infos[i].filename)])
  }

  /** The footer: total size and "N file", which here takes an "s" exactly
      when there is one entry (the reverse of English, as written). */
  function Footer(infos: seq<PakInfo>): seq<Cell> {
    [Num(Sum(Map(infos, Size))), Text(CountLabel(|infos|, |infos| == 1))]
  }

  /** The quirk spelled out: one entry reads "1 files", two read "2 file". */
  lemma PluralQuirk(a: PakInfo, b: PakInfo)
    ensures Footer([a])[1] == Text("1 files")
    ensures Footer([a, b])[1] == Text("2 file")
  {
    assert NatToString(1) == "1";
    assert NatToString(2) == "2";
  }

  /** The whole `-l` table of `infos`: the rows in filename order, the
      separator of one dash run per column, then the footer. */
  predicate IsListing(infos: seq<PakInfo>, table: seq<seq<Cell>>) {
    var total := Sum(Map(infos, Size));
    |table| == |infos| + 2 &&
    table[..|infos|] == Rows(SortBy(infos, Filename)) &&
    table[|infos| + 1] == Footer(infos) &&
    |table[|infos|]| == 2 &&
    forall c :: 0 <= c < 2 ==> table[|infos|][c] == Text(Repeat('-', SeparatorWidth(total, PakHeaders[c])))
  }

  /** The listing fixes every cell: two tables of the same entries that
      both meet it are equal. */
  lemma ListingUnique(infos: seq<PakInfo>, a: seq<seq<Cell>>, b: seq<seq<Cell>>)
    requires IsListing(infos, a) && IsListing(infos, b)
    ensures a == b
  {
    var n := |infos|;
    assert a[n] == b[n];
    forall i | 0 <= i < |a|
      ensures a[i] == b[i]
    {
      if i < n {
        assert a[i] == a[..n][i] && b[i] == b[..n][i];
      }
    }
  }

  /** The `-l` table: the rows in filename order, the separator, the footer. */
  method ListTable(infos: seq<PakInfo>) returns (table: seq<seq<Cell>>)
    ensures |table| == |infos| + 2
    ensures table[..|infos|] == Rows(SortBy(infos, Filename))
    ensures table[|infos| + 1] == Footer(infos)
    ensures var total := Sum(Map(infos, Size));
            |table[|infos|]| == 2 &&
            forall c :: 0 <= c < 2 ==> table[|infos|][c] == Text(Repeat('-', SeparatorWidth(total, PakHeaders[c])))
    ensures IsListing(infos, table)
  {
    var sorted := SortBy(infos, Filename);
    SortByCorrect(infos, Filename);
    assert |sorted| == |multiset(sorted)| == |multiset(infos)| == |infos|;
    TotalOfPermutation(sorted, infos, Size);
    var rows := Rows(sorted);
    var length := Sum(Map(sorted, Size));
    var separator := BuildSeparator(PakHeaders, length);
    table := InsertBeforeLast(rows + [Footer(sorted)], separator);
    assert Footer(sorted) == Footer(infos);
    assert (rows + [Footer(sorted)])[..|rows|] == rows;
  }

  /** One extraction: the entry, the path announced, and whether
      `extract` raised (the loop reports that and goes on). */
  datatype Extracted = Extracted(filename: string, path: string, ok: bool)

  const CannotOpenPrefix := "unpak: cannot find or open "

  /** The lines printed while extracting: one per entry in filename order,
      none when quiet. */
  function ExtractingLines(sorted: seq<PakInfo>, dest: string, quiet: bool): (lines: seq<string>)
    ensures quiet ==> lines == []
    ensures !quiet ==> (|lines| == |sorted| &&
              forall i :: 0 <= i < |sorted| ==> lines[i] == " extracting: " + Join(dest, sorted[i].filename))
  {
    if quiet then [] else seq(|sorted|, i requires 0 <= i < |sorted| => " extracting: " + Join(dest, sorted[i].filename))
  }

  /** A whole run. `items` is the archive's directory (None when the file
      is not a PAK file); `extracts(i)` says whether extracting i succeeds. */
  method Run(file: string, items: Option<seq<PakInfo>>, list: bool, dest: string, quiet: bool,
             extracts: PakInfo -> bool) returns (table: Option<seq<seq<Cell>>>, done: seq<Extracted>, messages: seq<string>, exitCode: int)
    ensures items.None? ==> table.None? && done == [] && messages == [CannotOpenPrefix + file] && exitCode == 1
    ensures items.Some? && list ==>
              table.Some? && IsListing(items.value, table.value) && done == [] &&
              messages == ["Archive: " + Basename(file)] && exitCode == 0
    ensures items.Some? && !list ==>
              var sorted := SortBy(items.value, Filename);
              table.None? && exitCode == 0 && |done| == |sorted| &&
              messages == ExtractingLines(sorted, dest, quiet) &&
              forall i :: 0 <= i < |sorted| ==>
                done[i] == Extracted(sorted[i].filename, Join(dest, sorted[i].filename), extracts(sorted[i]))
  {
    table, done, messages := None, [], [];
    if items.None? {
      return None, [], [CannotOpenPrefix + file], 1;
    }
    var infos := items.value;
    if list {
      var t := ListTable(infos);
      return Some(t), [], ["Archive: " + Basename(file)], 0;
    }
    var sorted := SortBy(infos, Filename);
    for i := 0 to |sorted|
      invariant |done| == i
      invariant forall k :: 0 <= k < i ==>
                  done[k] == Extracted(sorted[k].filename, Join(dest, sorted[k].filename), extracts(sorted[k]))
      invariant messages == ExtractingLines(sorted[..i], dest, quiet)
    {
      var fullpath := Join(dest, sorted[i].filename);
      if !quiet {
        messages := messages + [" extracting: " + fullpath];
      }
      done := done + [Extracted(sorted[i].filename, fullpath, extracts(sorted[i]))];
    }
    assert sorted[..|sorted|] == sorted;
    exitCode := 0;
  }

  /** Extraction visits every entry exactly once, in filename order. */
  lemma ExtractionOrder(infos: seq<PakInfo>)
    ensures var sorted := SortBy(infos, Filename);
            multiset(sorted) == multiset(infos) &&
            forall i, j :: 0 <= i < j < |sorted| ==> LexLe(sorted[i].filename, sorted[j].filename)
  {
    SortByCorrect(infos, Filename);
  }
}
