/** The `unwad` command: list a WAD archive's entries, or extract them,
    converting pictures and miptextures to image files. */
module UnwadCli {
  import opened Results
  import opened Strings
  import opened Seqs
  import opened Paths
  import opened Sorting
  import opened VgioRecords
  import opened Listing
  import opened WadCli

  /** `lump_type`: the name of a known lump type code, the code itself otherwise. */
  function LumpTypeName(num: int): (c: Cell)
    ensures c.Text? <==> num in {NoneType, LabelType, LumpType, QtexType, QpicType, SoundType, MiptexType}
    ensures c.Num? ==> c.n == num
    ensures num == MiptexType ==> c == Text("MIPTEX")
    ensures num == QpicType ==> c == Text("QPIC")
  {
    if num == 0 then Text("NONE")
    else if num == 1 then Text("LABEL")
    else if num == 64 then Text("LUMP")
    else if num == 65 then Text("QTEX")
    else if num == 66 then Text("QPIC")
    else if num == 67 then Text("SOUND")
    else if num == 68 then Text("MIPTEX")
    else Num(num)
  }

  /** Distinct codes get distinct cells, so the column loses nothing. */
  lemma LumpTypeNameInjective(a: int, b: int)
    requires LumpTypeName(a) == LumpTypeName(b)
    ensures a == b
  {
  }

  const WadHeaders: seq<string> := ["Length", "Type", "Name"]

  function Filename(i: WadInfo): string { i.filename }

  function Row(i: WadInfo): seq<Cell> {
    [Num(i.fileSize), LumpTypeName(i.lumpType), Text(i.filename)]
  }

  function Rows(infos: seq<WadInfo>): (rows: seq<seq<Cell>>)
    ensures |rows| == |infos| && forall i :: 0 <= i < |infos| ==> rows[i] == Row(infos[i])
  {
    seq(|infos|, i requires 0 <= i < |infos| => Row(infos[i]))
  }

  /** The footer: total size, an empty type cell, and "N file" with an "s"
      only for more than one entry. */
  function Footer(infos: seq<WadInfo>): seq<Cell> {
    [Num(Sum(Map(infos, Size))), Text(""), Text(CountLabel(|infos|, |infos| > 1))]
  }

  /** The whole `-l` table of `infos`: the rows in filename order, the
      separator of one dash run per column, then the footer. */
  predicate IsListing(infos: seq<WadInfo>, table: seq<seq<Cell>>) {
    var total := Sum(Map(infos, Size));
    |table| == |infos| + 2 &&
    table[..|infos|] == Rows(SortBy(infos, Filename)) &&
    table[|infos| + 1] == Footer(infos) &&
    |table[|infos|]| == 3 &&
    forall c :: 0 <= c < 3 ==> table[|infos|][c] == Text(Repeat('-', SeparatorWidth(total, WadHeaders[c])))
  }

  /** The listing fixes every cell: two tables of the same entries that
      both meet it are equal. */
  lemma ListingUnique(infos: seq<WadInfo>, a: seq<seq<Cell>>, b: seq<seq<Cell>>)
    requires IsListing(infos, a) && IsListing(infos, b)
    ensures a == b
  {
    var n := |infos|;
    assert a[n] == b[n];
    forall i | 0 <= i < |a|
      ensures a[i] == b[i]
    {
      if i < n {
        assert a[i] == a[..n][i] && b[i] == b[..n][i];
      }
    }
  }

  /** The `-l` table: one row per entry in filename order, then the
      separator, then the footer. */
  method ListTable(infos: seq<WadInfo>) returns (table: seq<seq<Cell>>)
    ensures var sorted := SortBy(infos, Filename);
            |table| == |infos| + 2 &&
            table[..|infos|] == Rows(sorted) &&
            table[|infos| + 1] == Footer(infos)
    ensures var total := Sum(Map(infos, Size));
            |table[|infos|]| == 3 &&
            forall c :: 0 <= c < 3 ==> table[|infos|][c] == Text(Repeat('-', SeparatorWidth(total, WadHeaders[c])))
    ensures IsListing(infos, table)
  {
    var sorted := SortBy(infos, Filename);
    SortedSizes(infos);
    var rows := Rows(sorted);
    var length := Sum(Map(sorted, Size));
    var separator := BuildSeparator(WadHeaders, length);
    table := InsertBeforeLast(rows + [Footer(sorted)], separator);
    assert Footer(sorted) == Footer(infos);
    assert (rows + [Footer(sorted)])[..|rows|] == rows;
  }

  /** Sorting does not change the total size or the count. */
  lemma SortedSizes(infos: seq<WadInfo>)
    ensures |SortBy(infos, Filename)| == |infos|
    ensures Sum(Map(SortBy(infos, Filename), Size)) == Sum(Map(infos, Size))
  {
    SortByCorrect(infos, Filename);
    var sorted := SortBy(infos, Filename);
    assert |sorted| == |multiset(sorted)| == |multiset(infos)| == |infos|;
    TotalOfPermutation(sorted, infos, Size);
  }

  function Size(i: WadInfo): nat { i.fileSize }

  /** The rows are in filename order and hold every entry exactly as often
      as the archive does. */
  lemma ListRowsSorted(infos: seq<WadInfo>)
    ensures var rows := Rows(SortBy(infos, Filename));
            (forall i, j :: 0 <= i < j < |rows| ==> LexLe(rows[i][2].s, rows[j][2].s)) &&
            multiset(SortBy(infos, Filename)) == multiset(infos)
  {
    SortByCorrect(infos, Filename);
  }

  /** What is done with one entry during extraction. */
  datatype Extraction =
    | SaveImage(path: string, width: nat, height: nat, data: Bytes)
    | ExtractRaw(filename: string, dest: string, path: string)
    | Failed(filename: string)

  /** The lump contents an entry gives the dispatch: `lmp` is the parsed
      QPIC (None when it cannot be parsed), `raw` the entry's first
      `file_size` bytes, `mip` the parsed miptexture (None when it cannot). */
  datatype Lump = Lump(lmp: Option<Qpic>, raw: Bytes, mip: Option<Miptexture>)

  /** The converted output path: `join(dest, filename) + '.' + format`. */
  function ImagePath(dest: string, filename: string, format: string): string {
    Join(dest, filename) + "." + format
  }

  /** The decision for one entry. An unreadable QPIC raises outside any
      handler, so it ends the whole run (Err). */
  function Dispatch(item: WadInfo, lump: Lump, dest: string, format: string): (r: Result<Extraction, string>)
    ensures r.Err? <==> item.lumpType == QpicType && lump.lmp.None?
    ensures r.Err? ==> r.error == item.filename
    ensures item.lumpType == QpicType && lump.lmp.Some? ==>
              var q := lump.lmp.value;
              r == Ok(SaveImage(ImagePath(dest, item.filename, format), q.width, q.height, q.pixels))
    ensures item.lumpType != QpicType && item.lumpType != MiptexType ==>
              r == Ok(ExtractRaw(item.filename, dest, Join(dest, item.filename)))
    ensures item.lumpType == MiptexType && item.fileSize == 128 * 128 ==>
              r == Ok(SaveImage(ImagePath(dest, item.filename, format), 128, 128, lump.raw))
    ensures item.lumpType == MiptexType && item.fileSize != 128 * 128 && lump.mip.Some? ==>
              var m := lump.mip.value;
              r == Ok(SaveImage(ImagePath(dest, item.filename, format), m.width, m.height,
                                m.pixels[..if m.width * m.height <= |m.pixels| then m.width * m.height else |m.pixels|]))
    ensures item.lumpType == MiptexType && item.fileSize != 128 * 128 && lump.mip.None? ==>
              r == Ok(Failed(item.filename))
  {
    var path := ImagePath(dest, item.filename, format);
    if item.lumpType == QpicType then
      match lump.lmp
      case None => Err(item.filename)
      case Some(q) => Ok(SaveImage(path, q.width, q.height, q.pixels))
    else if item.lumpType == MiptexType then
      if item.fileSize == 128 * 128 then Ok(SaveImage(path, 128, 128, lump.raw))
      else match lump.mip
        case None => Ok(Failed(item.filename))
        case Some(m) =>
          var n := if m.width * m.height <= |m.pixels| then m.width * m.height else |m.pixels|;
          Ok(SaveImage(path, m.width, m.height, m.pixels[..n]))
    else Ok(ExtractRaw(item.filename, dest, Join(dest, item.filename)))
  }

  /** The line printed for an extraction (stdout unless it failed). */
  function ExtractionLine(e: Extraction): string {
    match e
    case SaveImage(path, _, _, _) => " extracting: " + path
    case ExtractRaw(_, _, path) => " extracting: " + path
    case Failed(filename) => " failed to extract resource: " + filename
  }

  /** The stdout lines of the extractions, in order: one per image saved
      or raw file extracted. */
  function PrintedLines(es: seq<Extraction>): (lines: seq<string>)
    ensures |lines| <= |es|
    ensures forall i :: 0 <= i < |lines| ==> exists j :: 0 <= j < |es| && !es[j].Failed? && lines[i] == ExtractionLine(es[j])
  {
    if es == [] then []
    else
      var front := PrintedLines(es[..|es| - 1]);
      var e := es[|es| - 1];
      assert forall j :: 0 <= j < |es| - 1 ==> es[..|es| - 1][j] == es[j];
      front + (if e.Failed? then [] else [ExtractionLine(e)])
  }

  /** The stderr lines of the extractions, in order: one per miptexture
      that could not be read, naming it. */
  function FailedLines(es: seq<Extraction>): (lines: seq<string>)
    ensures |lines| <= |es|
    ensures forall i :: 0 <= i < |lines| ==> exists j :: 0 <= j < |es| && es[j].Failed? && lines[i] == " failed to extract resource: " + es[j].filename
  {
    if es == [] then []
    else
      var front := FailedLines(es[..|es| - 1]);
      var e := es[|es| - 1];
      assert forall j :: 0 <= j < |es| - 1 ==> es[..|es| - 1][j] == es[j];
      front + (if e.Failed? then [ExtractionLine(e)] else [])
  }

  lemma LinesSnoc(es: seq<Extraction>, e: Extraction)
    ensures PrintedLines(es + [e]) == PrintedLines(es) + (if e.Failed? then [] else [ExtractionLine(e)])
    ensures FailedLines(es + [e]) == FailedLines(es) + (if e.Failed? then [ExtractionLine(e)] else [])
  {
    assert (es + [e])[..|es|] == es;
  }

  /** Every extraction prints exactly one line, on stdout or on stderr. */
  lemma {:induction false} OneLineEach(es: seq<Extraction>)
    ensures |PrintedLines(es)| + |FailedLines(es)| == |es|
  {
    if es != [] {
      OneLineEach(es[..|es| - 1]);
    }
  }

  /** The extraction plan for the entries in archive order, stopping at
      the first entry that ends the run. */
  function Extractions(items: seq<WadInfo>, lumps: WadInfo -> Lump, dest: string, format: string): (r: (seq<Extraction>, bool))
    decreases |items|
  {
    if items == [] then ([], true)
    else match Dispatch(items[0], lumps(items[0]), dest, format)
      case Err(_) => ([], false)
      case Ok(e) =>
        var rest := Extractions(items[1..], lumps, dest, format);
        ([e] + rest.0, rest.1)
  }

  /** Entries in archive order, one decision each, while nothing aborts. */
  lemma {:induction false} ExtractionsSpec(items: seq<WadInfo>, lumps: WadInfo -> Lump, dest: string, format: string)
    ensures var r := Extractions(items, lumps, dest, format);
            |r.0| <= |items| &&
            (forall i :: 0 <= i < |r.0| ==> Dispatch(items[i], lumps(items[i]), dest, format) == Ok(r.0[i])) &&
            (r.1 <==> forall i :: 0 <= i < |items| ==> Dispatch(items[i], lumps(items[i]), dest, format).Ok?)
    decreases |items|
  {
    if items != [] {
      ExtractionsSpec(items[1..], lumps, dest, format);
      assert forall i :: 1 <= i < |items| ==> items[1..][i - 1] == items[i];
    }
  }

  /** The extraction loop: entries in archive order until one ends the
      run; `ok` is false when one did. */
  method ExtractAll(infos: seq<WadInfo>, lumps: WadInfo -> Lump, dest: string, format: string, quiet: bool)
    returns (done: seq<Extraction>, printed: seq<string>, errors: seq<string>, ok: bool)
    ensures (done, ok) == Extractions(infos, lumps, dest, format)
    ensures printed == (if quiet then [] else PrintedLines(done))
    ensures errors == FailedLines(done)
  {
    printed, errors, done := [], [], [];
    var i := 0;
    assert infos[0..] == infos;
    ghost var plan := Extractions(infos, lumps, dest, format);
    assert done + plan.0 == plan.0;
    while i < |infos|
      invariant 0 <= i <= |infos|
      invariant var rest := Extractions(infos[i..], lumps, dest, format); plan == (done + rest.0, rest.1)
      invariant printed == (if quiet then [] else PrintedLines(done))
      invariant errors == FailedLines(done)
    {
      assert infos[i..][0] == infos[i] && infos[i..][1..] == infos[i + 1..];
      ghost var rest := Extractions(infos[i + 1..], lumps, dest, format);
      var d := Dispatch(infos[i], lumps(infos[i]), dest, format);
      if d.Err? {
        assert done + [] == done;
        return done, printed, errors, false;
      }
      var e := d.value;
      if e.Failed? {
        errors := errors + [ExtractionLine(e)];
      } else if !quiet {
        printed := printed + [ExtractionLine(e)];
      }
      LinesSnoc(done, e);
      assert (done + [e]) + rest.0 == done + ([e] + rest.0);
      done := done + [e];
      i := i + 1;
    }
    assert infos[i..] == [] && done + [] == done;
    ok := true;
  }

  datatype UnwadOutcome = UnwadOutcome(
    table: Option<seq<seq<Cell>>>,
    extractions: seq<Extraction>,
    messages: seq<string>,
    errors: seq<string>,
    exitCode: int)

  /** A whole run. `items` is the archive's directory (None when the file
      is not a WAD file); `lumps` gives each entry's parsed contents. */
  method Run(file: string, items: Option<seq<WadInfo>>, list: bool, dest: string, format: string, quiet: bool,
             lumps: WadInfo -> Lump) returns (r: UnwadOutcome)
    ensures items.None? ==> r == UnwadOutcome(None, [], [], ["unwad: cannot find or open " + file], 1)
    ensures items.Some? && list ==>
              r.table.Some? && IsListing(items.value, r.table.value) && r.extractions == [] &&
              r.messages == ["Archive: " + Basename(file)] && r.errors == [] && r.exitCode == 0
    ensures items.Some? && !list ==>
              var plan := Extractions(items.value, lumps, dest, format);
              r.table.None? && r.extractions == plan.0 && (r.exitCode == 0 <==> plan.1) &&
              r.messages == (if quiet then [] else ["Archive: " + Basename(file)] + PrintedLines(plan.0)) &&
              r.errors == FailedLines(plan.0)
  {
    if items.None? {
      return UnwadOutcome(None, [], [], ["unwad: cannot find or open " + file], 1);
    }
    var infos := items.value;
    if list {
      var table := ListTable(infos);
      return UnwadOutcome(Some(table), [], ["Archive: " + Basename(file)], [], 0);
    }
    var done, printed, errors, ok := ExtractAll(infos, lumps, dest, format, quiet);
    var messages := (if quiet then [] else ["Archive: " + Basename(file)]) + printed;
    return UnwadOutcome(None, done, messages, errors, if ok then 0 else 1);
  }
}
