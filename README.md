# quake-cli-tools in Dafny

A model of the logic under the Quake command-line tools (`bsp2svg`, `bsp2wad`,
`image2spr`, `qmount`, `spr2image`, `unpak`, `unwad`, `wad` and the `package.py`
build script), with proofs of what that logic promises. Each tool is mostly
plumbing around argument parsing, the `vgio` file-format readers and writers,
PIL, svgwrite and watchdog. The model keeps the sequential part the tools
compute themselves: the orders, counts, names, offsets, maps and flags. The
library calls become parameters or given records.

The modules follow the source files:

- `BspApi` (bsp_api.dfy) resolves a BSP file's flat tables into models, faces,
  edges and vertices, as `Bsp.open` does. It has a cache-free specification
  and a `BspResolver` class whose memo tables are maps. The class invariant
  `Valid` says every memoised entry equals what the specification gives for
  its index. Each method keeps that invariant and returns exactly its
  cache-free function's result, and `Open` returns `ResolveModels` of the
  file.
- `BspConverter` (bsp_converter.dfy) models the top-down SVG projection: the
  bounds, the sky filter, the flipped points, the padding and the viewBox.
- `Bsp2SvgCli`, `Bsp2WadCli`, `Image2SprCli`, `Spr2ImageCli`, `UnpakCli`,
  `UnwadCli` and `WadCli` model each tool's `main`: its output names, the
  archive-entry arithmetic, the listing tables and the order of its work.
- `QmountHandlers` and `QmountCli` model the mounted-PAK session. A
  `TempPakFileHandler` class keeps the `files` map and the `dirty` flag, and
  file events are a sequential list applied to it.
- `Common` models the stdin sanitising (ECMA-48 control sequence removal,
  section 5.4) and `ResolvePathAction`.
- `Package` models the dist-to-zip arcname mapping of `package.py`.
- `Results`, `Strings`, `Paths`, `Seqs`, `Sorting`, `Listing` and
  `VgioRecords` are shared helpers. They hold Option/Result, Python's string
  and path functions, a stable sort, table layout and the records the readers
  return.

Python integers are unbounded and so are Dafny's. Floor division is written
out where an operand can be negative (the sprite origin). Coordinates are
`real`.

`convert` takes only the BSP and SVG paths and projects along z only; it
has no slice clustering and no layers. A `Vertex` has no `__eq__`, so it
equals only itself; the memo table makes that the same as equality of table
indices. The surf-edge range is a Python slice, so a range running past the
table is shortened, not rejected.

## Model

| member | source | states |
|---|---|---|
| Common.ParamRun | qcli/common.py:6 | the run of parameter bytes `[0-?]*` starting at a position: all of them are parameter bytes and the byte after them is not |
| Common.IntermediateRun | qcli/common.py:6 | the run of intermediate bytes `[ -/]*` starting at a position, maximal in the same sense |
| Common.CsiLength | qcli/common.py:6 | a match at the start of the text is at least ESC, '[' and a final byte long and lies within the text |
| Common.CsiLengthSpec | qcli/common.py:6 | the computed match is a control sequence (ESC '[' parameters, intermediates, one final byte), and any prefix that is a control sequence is exactly this match, so the pattern's match is unique |
| Common.CsiPrefixIsTheMatch | qcli/common.py:6 | a prefix that is a whole control sequence is the match the pattern finds |
| Common.RemoveCsi | qcli/common.py:6-17 | `ansi_escape.sub('', t)` never lengthens the text |
| Common.RemoveCsiKeepsCharacters | qcli/common.py:17 | removal only drops characters: the output's multiset of characters is contained in the input's |
| Common.RemoveCsiNoEscape | qcli/common.py:6-17 | text containing no ESC is unchanged by escape removal |
| Common.RemoveCsiDropsSequence | qcli/common.py:6-17 | the leftmost control sequence after ESC-free text is removed whole and the text before it is kept |
| Common.RemoveCsiKeepsPrefix | qcli/common.py:17 | ESC-free text in front of anything is kept as it is |
| Common.RemoveCsiDropsFirst | qcli/common.py:17 | a control sequence at the very start is removed whole and scanning resumes after it |
| Common.RemoveCsiKeepsFirst | qcli/common.py:17 | a first character other than ESC is kept and scanning resumes at the next character |
| Common.RemoveCsiSinglePass | qcli/common.py:17 | matches are non-overlapping and found in one pass: a sequence that only forms once an inner one is removed survives |
| Common.ShortestCsi | qcli/common.py:6 | ESC '[' followed directly by a final byte is a three-character match and is removed |
| Common.LeadingNewlines | qcli/common.py:16 | the number of leading '\n' characters, maximal |
| Common.TrailingNewlines | qcli/common.py:16 | the number of trailing '\n' characters, maximal |
| Common.StripNewlines | qcli/common.py:16 | `t.strip('\n')` is the slice between the leading and the trailing newlines; the result neither starts nor ends with '\n'; it is empty exactly when the line is all newlines |
| Common.StripNoNewline | qcli/common.py:16 | a line without newlines is unchanged by the strip |
| Common.StripNoNewlineAtEnds | qcli/common.py:16 | a line that neither starts nor ends with '\n' is unchanged, even with inner newlines |
| Common.SanitizeAll | qcli/common.py:16-18 | the output has no empty strings, is no longer than the input, and each output line is a sanitised input line |
| Common.ReadFromStdin | qcli/common.py:15-20 | `read_from_stdin` gives nothing (None) exactly when stdin is a terminal, and otherwise the sanitised lines |
| Common.SanitizeAllAppend | qcli/common.py:16-18 | the sanitised lines of two consecutive parts of the input are those of the first part followed by those of the second, so input order is kept |
| Common.SanitizeAllSnoc | qcli/common.py:16-18 | one more input line adds its stripped, escape-free form at the end exactly when that is non-empty; with the empty input giving nothing, this fixes the whole output |
| Common.PlainLinesUnchanged | qcli/common.py:16-18 | non-empty lines with no ESC and no newline pass through unchanged and in order |
| Common.StripBeforeRemove | qcli/common.py:16-17 | the strip runs before the escape removal: a newline exposed only by removing an escape stays in the output, which the other order would strip |
| Common.ResolvePaths | qcli/common.py:26-31 | a list maps to a list of the same length, element by element through `expanduser`, and a single value maps to a single value |
| Strings.IndexOf | qcli/wad/cli.py:114 | the position of the first occurrence of a character, or the length when there is none: every earlier character differs |
| Strings.LastIndexOf | qcli/spr2image/cli.py:74 | `rfind`: the position of the last occurrence, or -1; every later character differs |
| Strings.Split | qcli/wad/cli.py:114 | `str.split` on one character gives at least one part and no part contains the separator |
| Strings.SplitThenJoin | qcli/wad/cli.py:114 | splitting and joining with the same separator gives back the text |
| Strings.JoinThenSplit | qcli/wad/cli.py:114 | joining separator-free parts and splitting again gives back the parts |
| Strings.BeforeFirst | qcli/wad/cli.py:114 | `s.split(c)[0]` is the prefix before the first separator; it contains none, and the next character is the separator |
| Strings.AfterLast | qcli/spr2image/cli.py:74 | `s.split(c)[-1]` is the suffix after the last separator, and it contains none |
| Strings.SplitLast | qcli/spr2image/cli.py:74 | the last part of a split is the text after the last separator |
| Strings.NatToString | qcli/unpak/cli.py:80 | `str(n)` is a non-empty run of decimal digits, with a leading '0' only for zero |
| Strings.NatToStringParses | qcli/unpak/cli.py:80 | `str(n)` is the decimal numeral of n: reading it back gives n |
| Strings.Upper | qcli/spr2image/cli.py:103 | each character whose upper case is an ASCII letter (`a`-`z` and the dotless `ı`) is mapped to it and every other character is kept, which decides the `== 'GIF'` test exactly |
| Strings.Repeat | qcli/unpak/cli.py:81 | `'-' * t` is t copies of the character |
| Paths.Basename | qcli/wad/cli.py:114 | `os.path.basename` is the suffix after the last '/', and contains no '/' |
| Paths.Stem | qcli/wad/cli.py:114 | the basename up to its first '.', with no '.' or '/' in it |
| Paths.RStripSlashes | qcli/spr2image/cli.py:67 | only trailing slashes are removed, all of them |
| Paths.JoinSplitsBack | qcli/spr2image/cli.py:67 | `dirname` and `basename` of `join(d, n)` give back d and a plain name n |
| Paths.JoinBasename | qcli/bsp2svg/cli.py:110 | the basename of `join(d, n)` is n for a plain name, whatever d is |
| Paths.RelPath | qcli/qmount/handlers.py:28 | the relative path of a path inside a directory: joined back under the directory it gives the path |
| Seqs.Dedup | qcli/bsp2svg/api.py:144 | de-duplication keeps every element, adds none and leaves no element twice |
| Seqs.Flatten | qcli/bsp2svg/api.py:144 | the nested comprehension contains exactly the elements of the inner lists |
| Seqs.SumAppend | qcli/unpak/cli.py:74 | `sum` distributes over concatenation |
| Sorting.LexLeTotal | qcli/unpak/cli.py:70 | string order is total |
| Sorting.LexLeTransitive | qcli/unpak/cli.py:70 | string order is transitive |
| Sorting.LexLeAntisymmetric | qcli/unpak/cli.py:70 | string order is antisymmetric |
| Sorting.SortByCorrect | qcli/unpak/cli.py:70 | `sorted(..., key=...)` orders by key, is a permutation, and is stable: the entries sharing a key keep their relative order |
| Sorting.InsertMultiset | qcli/unpak/cli.py:70 | inserting one element adds exactly that element |
| Sorting.InsertSorted | qcli/unpak/cli.py:70 | inserting into a sorted sequence keeps it sorted |
| Sorting.InsertWithKey | qcli/unpak/cli.py:70 | inserting places the element after every earlier element with the same key |
| Sorting.WithKeyAppend | qcli/unpak/cli.py:70 | the entries with a given key of a concatenation are those of each part, in order |
| Listing.SeparatorWidth | qcli/unpak/cli.py:80 | the separator width is `max(len(str(total)), len(header) + 2)`: at least both and equal to one of them |
| Listing.BuildSeparator | qcli/unpak/cli.py:78-81 | the separator loop gives one cell per header, in header order, each a run of '-' of that column's width |
| Listing.InsertBeforeLast | qcli/unpak/cli.py:83 | `table.insert(-1, x)` puts x just before the last row and keeps every other row in place |
| Listing.CountLabel | qcli/unpak/cli.py:76 | the label is `"{count} file"`, plus "s" exactly when the plural flag is set |
| Listing.Map | qcli/unpak/cli.py:74 | the size list has one entry per info, in order |
| Listing.TotalOfPermutation | qcli/unpak/cli.py:74 | the total does not depend on the order of the entries, so summing the sorted list gives the total of the archive |
| Listing.MapAppend | qcli/unpak/cli.py:74 | the total of a concatenation is the sum of the parts' totals |
| UnpakCli.Rows | qcli/unpak/cli.py:73 | one row `[file_size, filename]` per entry, in the given order |
| UnpakCli.PluralQuirk | qcli/unpak/cli.py:76 | the count label takes an "s" exactly when there is one entry: one entry reads "1 files" and two read "2 file" |
| UnpakCli.ListTable | qcli/unpak/cli.py:70-83 | the listing is the rows sorted by filename, then the separator (both columns `max(len(str(total)), len(header)+2)` dashes wide), then the footer with the total size of the archive and the count label |
| UnpakCli.ListingUnique | qcli/unpak/cli.py:70-83 | the listing is fixed by its description: two tables that both meet it are equal |
| UnpakCli.ExtractingLines | qcli/unpak/cli.py:92-97 | unless quiet, one ` extracting: join(dest, filename)` line per entry, in the order given; none in quiet mode |
| UnpakCli.Run | qcli/unpak/cli.py:64-105 | a non-PAK input prints `unpak: cannot find or open {file}` and exits 1 with no listing and no extraction; `-l` prints the archive name and exactly the listing above and exits 0; otherwise each entry is extracted once, in filename order, to `join(dest, filename)`, with one ` extracting: ` line per entry unless quiet; a failed extraction is recorded and the loop goes on, and the exit status is 0 |
| UnpakCli.ExtractionOrder | qcli/unpak/cli.py:92 | the extraction order visits every entry exactly as often as the archive holds it, in filename order |
| UnwadCli.LumpTypeName | qcli/unwad/cli.py:88-102 | the codes 0, 1 and 64-68 get their names (68 is MIPTEX, 66 QPIC); any other code is returned unchanged |
| UnwadCli.LumpTypeNameInjective | qcli/unwad/cli.py:98-102 | distinct codes give distinct cells |
| UnwadCli.Rows | qcli/unwad/cli.py:105 | one row `[file_size, lump_type(type), filename]` per entry, in the given order |
| UnwadCli.ListTable | qcli/unwad/cli.py:86-115 | the listing is the rows sorted by filename, then the three-cell separator, then the footer with the total size, an empty type cell and a count label with "s" only for more than one entry |
| UnwadCli.ListingUnique | qcli/unwad/cli.py:103-115 | the listing is fixed by its description: two tables that both meet it are equal |
| UnwadCli.SortedSizes | qcli/unwad/cli.py:86-107 | sorting keeps the count and the total size |
| UnwadCli.ListRowsSorted | qcli/unwad/cli.py:86-105 | the rows are in filename order and hold each entry exactly as often as the archive does |
| UnwadCli.Dispatch | qcli/unwad/cli.py:134-185 | an unparseable QPIC ends the run (the only error), naming the entry; a parsed QPIC is saved at its own width and height with its pixels; a MIPTEX lump of exactly 128·128 bytes is a raw 128×128 image; another MIPTEX lump gives its first width·height pixels, or a "failed to extract" record when it cannot be read; any other lump is extracted raw to `join(dest, filename)`; images go to `join(dest, filename) + '.' + format` |
| UnwadCli.ExtractionsSpec | qcli/unwad/cli.py:134-187 | entries are handled in archive order, one decision each, and the run completes exactly when no entry aborts it |
| UnwadCli.PrintedLines | qcli/unwad/cli.py:170-185 | at most one stdout line per extraction, each the ` extracting: ` line of an image saved or a raw file extracted |
| UnwadCli.FailedLines | qcli/unwad/cli.py:159-167 | at most one stderr line per extraction, each ` failed to extract resource: ` and the name of a miptexture that could not be read |
| UnwadCli.LinesSnoc | qcli/unwad/cli.py:134-185 | one more extraction adds its line to stdout or to stderr, after the lines of the earlier ones |
| UnwadCli.OneLineEach | qcli/unwad/cli.py:134-185 | every extraction prints exactly one line, on stdout or on stderr |
| UnwadCli.ExtractAll | qcli/unwad/cli.py:134-187 | the loop carries out the extraction plan in archive order, stops where an entry aborts the run, and prints exactly the stdout and stderr lines of the extractions done |
| UnwadCli.Run | qcli/unwad/cli.py:80-189 | a non-WAD input prints `unwad: cannot find or open {file}` and exits 1; `-l` prints the archive name and exactly the listing above and exits 0; otherwise the extractions are the plan's, in order, stdout is the archive name and the lines of the images saved and raw files extracted (nothing when quiet), stderr is one ` failed to extract resource: ` line per unreadable miptexture, and the exit status is 0 exactly when no entry aborted the run |
| WadCli.Halved | qcli/wad/cli.py:152 | `n // pow(2, i)` is the floor of n divided by 2^i |
| WadCli.MipOffsets | qcli/wad/cli.py:147-156 | the offset table has exactly four entries, starts at 40, and each next offset is the previous one plus the length of that level's bytes |
| WadCli.MiptexOf | qcli/wad/cli.py:143-156 | the miptexture carries the entry name and the image size, the offset table above, and the four levels' bytes in order |
| WadCli.MiptexInfo | qcli/wad/cli.py:162-166 | the entry is named after the miptexture, `file_size == disk_size == 40 + len(pixels)`, uncompressed, of type MIPTEX |
| WadCli.LevelVanishes | qcli/wad/cli.py:151-152 | `n // 8` is 0 exactly when n < 8, and an earlier level has size 0 only then |
| WadCli.BuildMiptexture | qcli/wad/cli.py:143-166 | the `for i in range(4)` loop fails exactly when the image is narrower or lower than 8 pixels (the resize to a width or height of 0 raises); otherwise it builds exactly that miptexture and entry: pixels grow by each level, the offset table by each level's end except the last |
| WadCli.LevelsLength | qcli/wad/cli.py:152-154 | when the resize yields w·h bytes, the pixel list is as long as the sum of the level sizes |
| WadCli.MiptexSizes | qcli/wad/cli.py:152-163 | `len(pixels)` is the sum of the four level sizes `(w // 2^i)·(h // 2^i)`, offset i is 40 plus the sizes of the levels before it, and `file_size` is 40 plus the sum |
| WadCli.Miptex64 | qcli/wad/cli.py:147-163 | a 64×64 image gives offsets 40, 4136, 5160, 5416 and a 5480-byte entry |
| WadCli.ChooseMode | qcli/wad/cli.py:88-90 | the archive is opened for appending exactly when it is an existing regular file, otherwise for writing |
| WadCli.AddOne | qcli/wad/cli.py:105-173 | a LUMP input is written as the raw file and fails exactly when that file cannot be read; a QPIC input fails exactly when the image cannot be opened, and otherwise is the opened image's width, height and pixels as a QPIC whose entry has `file_size == disk_size ==` the length of the written QPIC, no compression and the QPIC type; a miptexture input fails exactly when the image cannot be opened or is narrower or lower than 8 pixels, and is otherwise the miptexture above with the MIPTEX entry `MiptexInfo` computes for it; every entry built from an image is named by the basename before its first '.', with `disk_size == file_size` |
| WadCli.AddedFails | qcli/wad/cli.py:105-173 | when the input at position i fails, the loop's entries are exactly those written before it, and the run fails |
| WadCli.AddedGoesOn | qcli/wad/cli.py:105-173 | when the input at position i gives an entry, that entry follows the ones written before it and the loop goes on with the next input |
| WadCli.Added | qcli/wad/cli.py:105 | the loop yields at most one entry per input, and fewer entries than inputs when it stops early |
| WadCli.AddAllSpec | qcli/wad/cli.py:105-173 | the run succeeds exactly when every input can be added; the entries written are those of the inputs before the first failure, in input order, and a failure stops at the first input that cannot be added |
| WadCli.AddedPrefix | qcli/wad/cli.py:105 | the entries written are those of the first inputs, one per input, in order |
| WadCli.AddedStops | qcli/wad/cli.py:105-173 | a complete run covers every input; an incomplete one stops at an input that cannot be added |
| WadCli.Announced | qcli/wad/cli.py:76-168 | one "adding" line per input added, none in quiet mode |
| WadCli.AnnouncedCount | qcli/wad/cli.py:105-168 | the inputs with an "adding" line are those added, plus a LUMP input whose write raised, since its line is printed before the write |
| WadCli.AddFiles | qcli/wad/cli.py:105-173 | the input loop writes exactly the entries the specification gives, stops at the first input that fails, and prints one "adding" line per added input, and one for a LUMP input whose write raised, unless quiet |
| WadCli.AddFile | qcli/wad/cli.py:106-170 | one input is handled as its list type says: the raw file when it can be read, a QPIC entry, or a miptexture entry when the image is at least 8 by 8 pixels, exactly as AddOne gives it |
| WadCli.Run | qcli/wad/cli.py:73-175 | an empty or missing list is rejected with exit 1 before the archive is opened; otherwise the archive is opened in the mode above, the archive name is printed unless quiet, the entries of the inputs before the first failure are written in order, with an "adding" line for each and for a LUMP input whose write raised, and the exit status is 0 exactly when every input was added |
| Bsp2WadCli.Names | qcli/bsp2wad/cli.py:73 | the names of the kept miptextures, one per entry, in order |
| Bsp2WadCli.FromFile | qcli/bsp2wad/cli.py:73 | what one BSP file adds: only present miptextures of that file whose name is not among those kept before it, and every such one |
| Bsp2WadCli.Collect | qcli/bsp2wad/cli.py:64-73 | the accumulation loop gives exactly the collected list: each file's additions after the earlier files', in file order and in-file order |
| Bsp2WadCli.FromFileSnoc | qcli/bsp2wad/cli.py:73 | the comprehension adds one miptexture at a time, in file order, filtering against the list as it was before the file |
| Bsp2WadCli.SkippedInput | qcli/bsp2wad/cli.py:67-70 | an input that is not a BSP file contributes nothing |
| Bsp2WadCli.CollectedPrefix | qcli/bsp2wad/cli.py:73 | miptextures kept from earlier files stay in place while later files are added |
| Bsp2WadCli.LaterFilesSkipKeptNames | qcli/bsp2wad/cli.py:73 | a name kept from an earlier file is never taken again from a later file |
| Bsp2WadCli.SameFileDuplicatesKept | qcli/bsp2wad/cli.py:73 | two miptextures of one file with the same name are both kept |
| Bsp2WadCli.DefaultWadName | qcli/bsp2wad/cli.py:78-82 | the default name is `stem.wad` for a one-entry list and `out.wad` otherwise |
| Bsp2WadCli.WadDest | qcli/bsp2wad/cli.py:75-84 | when `-d` is the working directory the archive goes in the directory of the last listed file under the default name; otherwise `-d` is used as given |
| Bsp2WadCli.WriteEntries | qcli/bsp2wad/cli.py:94-111 | one MIPTEX entry per collected miptexture, in order, with `file_size == disk_size == 40 + len(pixels)`, uncompressed, and one "adding" line each unless quiet |
| Bsp2WadCli.ErrorLines | qcli/bsp2wad/cli.py:66-70 | as many error lines as inputs that are not BSP files, each `bsp2wad: cannot find or open ` and the name of such an input |
| Bsp2WadCli.Run | qcli/bsp2wad/cli.py:61-113 | an empty or missing list exits 1; otherwise stderr is exactly `bsp2wad: cannot find or open {f}` for each input f that is not a BSP file, in list order, and those inputs are skipped; the collected miptextures are written in order to the destination above; unless quiet, stdout is the archive name followed by one ` adding: {name}` line per entry; the exit status is 0 |
| BspApi.VectorIdentities | qcli/bsp2svg/api.py:7-18 | under exact arithmetic `subtract(v, v)` is the zero vector, and `cross(a, b)` is orthogonal to a and to b |
| BspApi.GetItem | qcli/bsp2svg/api.py:184-185 | `Vertex[item]` indexes `[x, y, z]` as a Python list: 0..2 and -3..-1 give the coordinates, any other index raises |
| BspApi.SurfEdgeSlice | qcli/bsp2svg/api.py:65-67 | the surf-edge range is a Python slice: never longer than `number_of_edges`, shortened only where it runs past the table, with the entries in table order |
| BspApi.FirstVertexes | qcli/bsp2svg/api.py:84-86 | one vertex per edge, element i being edge i's `vertex_0` |
| BspApi.ResolveEdgeListSpec | qcli/bsp2svg/api.py:69-81 | the loop resolves exactly when every reference names an existing edge whose two vertices exist; it then gives one Edge per reference, in order, `(vertexes[v0], vertexes[v1])` for e ≥ 0 and the swapped pair for e < 0; otherwise it raises IndexError |
| BspApi.FaceEdgesSpec | qcli/bsp2svg/api.py:62-81 | `get_edges(f)` succeeds exactly when face f exists and every entry of its surf-edge slice is a valid reference, and then gives one Edge per entry in order, picked by sign |
| BspApi.ResolveFaceSpec | qcli/bsp2svg/api.py:52-125 | `process_face(f)` succeeds exactly when its edges, plane and texture name resolve; its edges are `get_edges(f)`, its vertexes the first endpoint of each edge, its plane `planes[faces[f].plane_number]` and its texture name `miptextures[texture_infos[faces[f].texture_info].miptexture_number].name` |
| BspApi.ResolveFaceRangeSpec | qcli/bsp2svg/api.py:45-50 | `get_faces` resolves exactly when every face of the range does, and gives `process_face(i)` for each i of the range, ascending |
| BspApi.ResolveFaceRangeOk | qcli/bsp2svg/api.py:50 | the range resolves exactly when each of its faces does |
| BspApi.ResolveFaceRangeFaces | qcli/bsp2svg/api.py:50 | a resolved range holds, at position i, the face of index `first_face + i` |
| BspApi.ResolveModelSpec | qcli/bsp2svg/api.py:40-43 | `process_model` succeeds exactly when every face index of the model's range resolves, and its faces are those of the range, in order |
| BspApi.ResolveModelListSpec | qcli/bsp2svg/api.py:37-38 | the comprehension over models succeeds exactly when every model resolves, and gives one matching Model per source model, in order |
| BspApi.ResolveModelsSpec | qcli/bsp2svg/api.py:37-127 | `Bsp.open` gives one Model per source model, in order; model m's faces are `process_face(i)` for i from `first_face` to `first_face + number_of_faces - 1` |
| BspApi.ResolvedFaceCanonical | qcli/bsp2svg/api.py:76-91 | every vertex of a resolved face, and both endpoints of each of its edges, are the vertex the table gives for its index |
| BspApi.ResolvedModelsCanonical | qcli/bsp2svg/api.py:88-91 | the same holds for every face of every model `Bsp.open` returns |
| BspApi.ModelVertexesOnePerIndex | qcli/bsp2svg/api.py:141-185 | `Model.vertexes` holds every vertex of every face, and since a Vertex is equal only to itself and each index yields one cached Vertex, it holds each referenced index once |
| BspApi.ModelEdgesByOrderedPair | qcli/bsp2svg/api.py:146-169 | `Model.edges` holds every edge of every face, one per ordered endpoint pair, so an edge and its reversal are both kept |
| BspApi.ResolveFaceUnfold | qcli/bsp2svg/api.py:53-60 | `process_face` raises the first error of its lookups in source order, and the vertexes cannot fail once the edges resolved |
| BspApi.BspResolver.constructor | qcli/bsp2svg/api.py:33-35 | a fresh resolver over the decoded file has empty memo tables, which are trivially consistent |
| BspApi.BspResolver.ProcessVertex | qcli/bsp2svg/api.py:88-91 | `process_vertex(i)` gives the table's vertex i; an index already seen is served from the memo table unchanged; a success adds exactly that entry, a failure (index past the table) adds none |
| BspApi.BspResolver.GetEdges | qcli/bsp2svg/api.py:62-81 | the loop appends one Edge per surf-edge entry and returns what the specification gives; a memoised face changes no table; the memo tables stay consistent and only grow |
| BspApi.BspResolver.ProcessEdge | qcli/bsp2svg/api.py:71-79 | one iteration: the edge's two vertices, swapped for a negative reference |
| BspApi.BspResolver.GetVertexes | qcli/bsp2svg/api.py:83-86 | `get_vertexes(f)` is the first vertex of each of `get_edges(f)` |
| BspApi.BspResolver.GetPlane | qcli/bsp2svg/api.py:122-125 | `get_plane(f)` is `planes[faces[f].plane_number]`, raising for a missing index |
| BspApi.BspResolver.GetTextureName | qcli/bsp2svg/api.py:93-99 | `get_texture_name(f)` follows faces → texture_infos → miptextures, raising for a missing index or a missing miptexture |
| BspApi.BspResolver.ProcessFace | qcli/bsp2svg/api.py:52-60 | `process_face(f)` gives the specification's face; a face seen before is served from the memo table and no table changes, and a new face that resolves is added to the face table |
| BspApi.BspResolver.FaceParts | qcli/bsp2svg/api.py:54-60 | the four lookups in source order; the first that raises ends the call |
| BspApi.BspResolver.GetFaces | qcli/bsp2svg/api.py:45-50 | `get_faces` gives `process_face(f)` for each f of the range, in order |
| BspApi.BspResolver.GetModels | qcli/bsp2svg/api.py:37-43 | `get_models` gives `process_model(m)` for each source model, in order |
| BspApi.Open | qcli/bsp2svg/api.py:32-130 | `Bsp.open` with its memo tables gives exactly the models the cache-free specification gives |
| BspConverter.Trunc | qcli/bsp2svg/converter.py:19 | `int(x)` truncates toward zero |
| BspConverter.SimplifyNumber | qcli/bsp2svg/converter.py:9-19 | `simplify_number(n)` is numerically equal to n, and is an int exactly when n is integral |
| BspConverter.TruncIntegral | qcli/bsp2svg/converter.py:19 | `int(n) == n` holds exactly for integral n, negative ones included |
| BspConverter.Min | qcli/bsp2svg/converter.py:38-40 | `min` of a non-empty list is an element no greater than any other |
| BspConverter.Max | qcli/bsp2svg/converter.py:39-41 | `max` of a non-empty list is an element no smaller than any other |
| BspConverter.Xs | qcli/bsp2svg/converter.py:35 | the x of every vertex, in order |
| BspConverter.Ys | qcli/bsp2svg/converter.py:36 | the y of every vertex, in order |
| BspConverter.MapBounds | qcli/bsp2svg/converter.py:34-41 | the bounds fail exactly when there is no vertex at all; otherwise they cover every vertex of every face of every model, and each bound is reached by some vertex |
| BspConverter.Padding | qcli/bsp2svg/converter.py:43-45 | `padding = min(width // 10, height // 10)`: no greater than either and equal to one |
| BspConverter.ViewBoxOf | qcli/bsp2svg/converter.py:47-49 | the viewBox is `(min_x - padding, min_y - padding, width + 2·padding, height + 2·padding)`: the bounds grown by the padding on every side |
| BspConverter.FlipY | qcli/bsp2svg/converter.py:66 | `max_y - y + min_y` maps min_y to max_y and back, stays within the bounds and mirrors the distance to them |
| BspConverter.ProjectVertex | qcli/bsp2svg/converter.py:65-67 | a point is `(x, max_y - y + min_y)` with each coordinate simplified, numerically unchanged |
| BspConverter.Polygon | qcli/bsp2svg/converter.py:65-67 | one point per face vertex, in the face's order |
| BspConverter.NonSkyFaces | qcli/bsp2svg/converter.py:61-62 | the faces kept are faces of the list whose texture does not start with `sky` |
| BspConverter.Polygons | qcli/bsp2svg/converter.py:60-70 | one polygon per kept face, in order |
| BspConverter.Convert | qcli/bsp2svg/converter.py:31-70 | the loop gives the viewBox from the bounds and one polygon per non-sky face in face order; with no vertex it fails before any polygon |
| BspConverter.NonSkyFacesSnoc | qcli/bsp2svg/converter.py:61-62 | the filter is applied one face at a time, in order |
| BspConverter.NonSkyFacesCount | qcli/bsp2svg/converter.py:58-70 | sky faces emit no polygon and every other face exactly one: the polygon count is the face count minus the sky faces |
| BspConverter.BoundsCoverSkyFaces | qcli/bsp2svg/converter.py:34-62 | the bounds cover every vertex of every face, sky faces included, because the filter runs later |
| BspConverter.PointsInsideViewBox | qcli/bsp2svg/converter.py:43-66 | every projected point lies inside the viewBox |
| BspConverter.PaddingNonNegative | qcli/bsp2svg/converter.py:45 | the padding is never negative |
| Bsp2SvgCli.AxisName | qcli/bsp2svg/cli.py:45-53 | an axis is named by one of 'x', 'y', 'z' |
| Bsp2SvgCli.DefaultOptions | qcli/bsp2svg/cli.py:33-90 | with only the file given: dest is the working directory, projection 'z', no slicing axis, no ignore list, `-s` absent, detection parameters [1, 0.3, 64], not quiet |
| Bsp2SvgCli.SvgSuffix | qcli/bsp2svg/cli.py:108 | the suffix is `_{projection}_{slicing or projection}` whenever `-s` is given, even with no values, and empty otherwise |
| Bsp2SvgCli.SuffixHasNoSlash | qcli/bsp2svg/cli.py:108 | the suffix never holds a '/', so the SVG name is a plain file name |
| Bsp2SvgCli.SvgDest | qcli/bsp2svg/cli.py:106-110 | when `-d` is the working directory, the output is named `stem + suffix + '.svg'`, stem being the basename before its first '.'; otherwise `-d` is used as given |
| Bsp2SvgCli.DestDir | qcli/bsp2svg/cli.py:112 | the directory to create is `dirname(dest)`, or '.' when that is empty |
| Bsp2SvgCli.DefaultNames | qcli/bsp2svg/cli.py:106-110 | with default options the name is `stem.svg`, and `stem_z_z.svg` as soon as `-s` is given |
| Bsp2SvgCli.Run | qcli/bsp2svg/cli.py:102-118 | an input that is not a BSP file prints one error line and processing goes on; the destination is the one above; with the converter called on file and destination the drawing is the converter's, and the run succeeds exactly when the file opens and converts |
| Bsp2SvgCli.RunAsWritten | qcli/bsp2svg/cli.py:116 | as written, the three-argument call to `convert`, which takes two parameters (qcli/bsp2svg/converter.py line 22), raises, so every run exits 1 |
| Bsp2SvgCli.ConvertCallMismatch | qcli/bsp2svg/cli.py:116 | one well-formed map converts with the corrected call and fails as written |
| Spr2ImageCli.DefaultDest | qcli/spr2image/cli.py:65-68 | the default output is in the sprite's directory and named `stem.gif`, stem being the basename before its first '.' |
| Spr2ImageCli.Extension | qcli/spr2image/cli.py:74-75 | the extension is the text after the last '.' of the output's basename, all of it when there is none |
| Spr2ImageCli.AfterLastDot | qcli/spr2image/cli.py:75 | after a name and a dot, the extension is exactly what follows the dot |
| Spr2ImageCli.ExtensionOfName | qcli/spr2image/cli.py:74-75 | an output named `name.ext` in any directory has extension ext |
| Spr2ImageCli.IsGifCases | qcli/spr2image/cli.py:103 | GIF output is chosen for exactly the three-letter extensions that upper-case to "GIF": g, i, f in either case, the i also as a dotless ı |
| Spr2ImageCli.DefaultIsGif | qcli/spr2image/cli.py:65-103 | the default output always has extension "gif" and is written as a GIF |
| Spr2ImageCli.FrameNameInjective | qcli/spr2image/cli.py:122 | `{stem}_{i}.{ext}` names differ for different frames |
| Spr2ImageCli.FramePathsDistinct | qcli/spr2image/cli.py:119-124 | different frames are saved under different paths, so no frame overwrites another |
| Spr2ImageCli.Pictures | qcli/spr2image/cli.py:88-100 | the frame loop succeeds exactly when every frame is SINGLE, giving one picture per frame in sprite order; otherwise it fails with the frame-group message |
| Spr2ImageCli.SaveFrames | qcli/spr2image/cli.py:119-128 | for non-GIF output, frame i (from 0, in sprite order) is saved as `{stem}_{i}.{ext}` in the output's directory, under pairwise different paths |
| Spr2ImageCli.Run | qcli/spr2image/cli.py:60-130 | a non-sprite input exits 1 with an error line; any frame that is not SINGLE aborts with exit 1; GIF output saves frame 0 as the base and appends the rest in order, at 10/60 s (about 166.7 ms) per frame, looping forever, and fails on a sprite with no frames; other output saves one numbered file per frame; success exits 0 |
| Image2SprCli.SliceAssignInside | qcli/image2spr/cli.py:115 | a slice assignment of a same-length run inside the list overwrites exactly that run and keeps the length |
| Image2SprCli.SliceAssignPastEnd | qcli/image2spr/cli.py:115-118 | a slice assignment starting at or past the end of the list appends the colour instead of overwriting |
| Image2SprCli.PatchPalette | qcli/image2spr/cli.py:110-120 | the palette patch is the local slot then the global slot (when truthy and different from the local one) set to Quake's last colour; when both slots lie inside the palette, exactly the three entries of each patched slot change and the length is kept |
| Image2SprCli.PatchedSlots | qcli/image2spr/cli.py:114-118 | for slots inside the palette, entry i takes the transparent colour exactly when its slot i/3 is the truthy local index or a truthy global index different from it, and keeps its value otherwise |
| Image2SprCli.LocalSlots | qcli/image2spr/cli.py:114-115 | the local patch alone changes exactly the entries of the local slot |
| Image2SprCli.GlobalSlots | qcli/image2spr/cli.py:117-118 | the global patch, after the local one, changes exactly the entries of the global slot when it differs from the local slot |
| Image2SprCli.PatchSlot | qcli/image2spr/cli.py:115-118 | patching slot t overwrites entries 3t, 3t+1 and 3t+2 with the colour and no other entry |
| Image2SprCli.ZeroNeverPatched | qcli/image2spr/cli.py:114-117 | a transparency index of 0 is falsy, so the palette is never patched at slot 0 |
| Image2SprCli.QuakePaletteUnchanged | qcli/image2spr/cli.py:102-118 | a frame quantized onto Quake's palette with transparency 255 keeps that palette through the patch, whether or not the file's global transparency is also 255 |
| Image2SprCli.FrameImagesTaken | qcli/image2spr/cli.py:94-140 | the i-th image of a file is made from its i-th frame; all frames are taken exactly when none but the last is non-indexed, a non-indexed frame is always the last one taken, and a file with frames yields at least one image |
| Image2SprCli.MissingSkipped | qcli/image2spr/cli.py:81-84 | a source that does not exist contributes nothing to the images and leaves the remembered size as it was |
| Image2SprCli.FirstUnopenable | qcli/image2spr/cli.py:81-87 | the first source that cannot be opened: every source before it can, and it is one that cannot, unless there is none |
| Image2SprCli.MissingMessagesAppend | qcli/image2spr/cli.py:82-84 | the "cannot find or open" messages of consecutive source lists are the messages of each list, in order |
| Image2SprCli.ImagesHaveSize | qcli/image2spr/cli.py:87-144 | once some image was collected, a size was read from an existing source, so the sprite code never meets an unset `size` |
| Image2SprCli.Decompose | qcli/image2spr/cli.py:93-140 | the frame loop of one file yields exactly that file's images, stopping after the first non-indexed frame |
| Image2SprCli.FrameImage | qcli/image2spr/cli.py:95-136 | one frame becomes an image of the file's size: quantized onto Quake's palette with transparency 255 unless indexed, its palette patched, then requantized |
| Image2SprCli.FrameImagesStep | qcli/image2spr/cli.py:136-137 | after taking frame k the loop goes on to frame k+1 exactly when frame k was indexed |
| Image2SprCli.CollectImages | qcli/image2spr/cli.py:81-140 | the source loop stops at the first file that cannot be opened (`Image.open` raises) and reports whether it got through; up to there it yields all images of the existing sources in argument order, one message per missing source, and the size of the last existing source |
| Image2SprCli.SameSizeTestAlwaysFalse | qcli/image2spr/cli.py:150 | the same-size test compares a width with a whole size and so is false for every non-empty list, equal sizes included |
| Image2SprCli.MaxOf | qcli/image2spr/cli.py:154-155 | the maximum bounds every element and is one of them for a non-empty list |
| Image2SprCli.Paste | qcli/image2spr/cli.py:158-164 | a pasted canvas has exactly W times H pixels |
| Image2SprCli.RowMajor | qcli/image2spr/cli.py:158-181 | column X of row Y of a W by H canvas is pixel Y*W+X, which lies inside the canvas and maps back to (X, Y) |
| Image2SprCli.PastePixels | qcli/image2spr/cli.py:158-164 | pixel (X, Y) of the canvas shows the pasted image inside its box and the fill colour 255 elsewhere |
| Image2SprCli.PadOffsets | qcli/image2spr/cli.py:161-162 | the floor-divided offsets are non-negative and centre the image, the odd pixel of slack going to the right and bottom |
| Image2SprCli.PadImage | qcli/image2spr/cli.py:157-165 | the intended padding gives a W by H image holding W times H pixels |
| Image2SprCli.PadImageAsWritten | qcli/image2spr/cli.py:157-165 | the padding as written also gives a W by H image holding W times H pixels |
| Image2SprCli.PadAsWrittenPixels | qcli/image2spr/cli.py:161-164 | the padding as written places the image at column (H - h) / 2, row (W - w) / 2, swapping the centring offsets, and fills the rest with 255 |
| Image2SprCli.PadImagePixels | qcli/image2spr/cli.py:157-165 | the intended padding keeps every pixel of the image at its centred place and fills the rest with 255 |
| Image2SprCli.PadSameSize | qcli/image2spr/cli.py:157-165 | padding an image to its own size changes nothing |
| Image2SprCli.Normalized | qcli/image2spr/cli.py:146-167 | normalization keeps the number of images |
| Image2SprCli.EqualSizesUnchanged | qcli/image2spr/cli.py:146-167 | images of one size come out of the always-taken padding unchanged |
| Image2SprCli.Pad | qcli/image2spr/cli.py:157-167 | the padding loop pastes every image, centred, onto a canvas of the largest width and height |
| Image2SprCli.Origin | qcli/image2spr/cli.py:175 | the origin is (-w // 2, h // 2) with floor division: the x origin is the floor of -w/2 and the y origin the floor of h/2 |
| Image2SprCli.OddWidthOrigin | qcli/image2spr/cli.py:175 | an odd width rounds the x origin down: a 3 by 3 sprite has origin (-2, 1) |
| Image2SprCli.FramesOf | qcli/image2spr/cli.py:177-184 | frames are built exactly when every image holds w times h bytes, one per image in order, each of size w by h with the common origin and the image's bytes |
| Image2SprCli.SpriteOf | qcli/image2spr/cli.py:170-184 | the sprite is written exactly when every image holds w times h bytes, and then has that size, the given type, one frame per image and each frame's pixels equal to its image's |
| Image2SprCli.BuildSprite | qcli/image2spr/cli.py:170-184 | the sprite-building loop returns the sprite above, or the unpacking error at the first image of the wrong length |
| Image2SprCli.Converted | qcli/image2spr/cli.py:78-186 | the intended run exits 0 exactly when it writes a sprite, and 1 otherwise; a written sprite means every source could be opened, only the missing-file messages were printed, and it has one frame per image at the largest width and height |
| Image2SprCli.ConvertedAsWritten | qcli/image2spr/cli.py:78-186 | the run as written exits 0 exactly when it writes a sprite, and 1 otherwise; a written sprite means every source could be opened, only the missing-file messages were printed, and it has one frame per image at the size of the last existing source |
| Image2SprCli.Run | qcli/image2spr/cli.py:78-186 | the intended run of the second finding below (the canvas size): a run collects the images; a file that cannot be opened ends it with exit 1 and the messages printed so far; with no images it exits 1 with the "no usable source images" message; otherwise it pads several images to the largest size and writes the sprite at that size |
| Image2SprCli.NoUsableImages | qcli/image2spr/cli.py:81-144 | when no source exists, both the intended run and the run as written print one message per source and the "no usable source images" line, write nothing and exit with status 1 |
| Image2SprCli.UnopenableEndsRun | qcli/image2spr/cli.py:81-87 | a file that cannot be opened ends both the intended run and the run as written with exit 1, no sprite and only the messages of the sources before it; no later source is read |
| Image2SprCli.SeveralImagesWritten | qcli/image2spr/cli.py:146-184 | when every source can be opened and there are several images, the intended run always writes the sprite, exits with 0 and prints only the missing-file messages; the sprite and each of its frames have the largest width and height, with one frame per image and one shared origin |
| Image2SprCli.OneImageWritten | qcli/image2spr/cli.py:147-184 | when every source can be opened and there is a single image, it is written unpadded exactly when its data has the image's size, and the one frame is then that image |
| Image2SprCli.PasteBoxSwapped | qcli/image2spr/cli.py:161-164 | a 1 by 3 image padded to 3 by 3 shows its top pixel at column 1, row 0 with the intended box, while the box as written leaves that pixel blank |
| Image2SprCli.ColumnThenSquare | qcli/image2spr/cli.py:157-182 | a 1 by 3 column then a 3 by 3 square: both runs write a 3 by 3 sprite, and its first frame has the column's top pixel at column 1, row 0 as intended but 255 there as written |
| Image2SprCli.TwoSources | qcli/image2spr/cli.py:81-140 | two existing one-frame sources: nothing is missing or unopenable, the remembered size is the second one's, and each gives one image made from its frame |
| Image2SprCli.ColumnSquarePadded | qcli/image2spr/cli.py:146-167 | a 1 by 3 image beside a 3 by 3 one is padded, either way, to a 3 by 3 canvas of nine pixels per image |
| Image2SprCli.LastSourceSize | qcli/image2spr/cli.py:171-182 | given a 4 by 4 source then a 2 by 2 one, the run as written declares 2 by 2 frames for 4 by 4 data and fails to write the sprite, while the intended run writes a 4 by 4 sprite with two frames |
| Package.PlatformName | package.py:16 | win32 is named windows, darwin macos, and every other platform keeps its own name |
| Package.Mapped | package.py:22-34 | a normalised root with fewer than two parts contributes nothing; any other contributes one pair per file |
| Package.Lookup | package.py:21-34 | a dictionary lookup fails exactly when no pair has the key, and otherwise returns the value of a pair with that key |
| Package.KeyIndex | package.py:34 | the index found is the first pair with the key, or the length when no pair has it |
| Package.PutSpec | package.py:34 | after `d[k] = v` the keys are still unique, k maps to v and every other key keeps its value |
| Package.LookupUnique | package.py:21-34 | with unique keys the lookup returns the value of the one pair with that key |
| Package.PutAllSpec | package.py:21-34 | assigning pairs in order gives unique keys, each key mapping to the value of its last pair, and an empty dictionary exactly when there were no pairs |
| Package.ArchiveFilesSpec | package.py:21-34 | after the walk every arcname maps to the filename of the last walk entry that produced it, and the dictionary is empty exactly when the walk produced no pair |
| Package.DistRootSkipped | package.py:26-28 | files directly in `./dist` are never archived |
| Package.JoinKeepsPrefix | package.py:32-33 | joining a relative name onto a path keeps the path as a prefix |
| Package.JoinAllKeepsPrefix | package.py:32 | joining slash-free parts onto the package name keeps it as a prefix |
| Package.MappedPrefixed | package.py:30-34 | every arcname of a walk entry with slash-free file names starts with the package name |
| Package.AllMappedPrefixed | package.py:22-34 | every arcname the walk produces starts with the package name |
| Package.ArchivePrefixed | package.py:21-44 | every arcname in the archive starts with the package name, so the zip has a single top directory |
| Package.LastValueFrom | package.py:34 | a key has a last value only if some pair carries it |
| Package.LaterWins | package.py:34 | when two walk entries give the same arcname, the second one's filename is kept |
| Package.DistChild | package.py:22-24 | `./dist/x` normalises to `dist/x`, which splits into "dist" and x |
| Package.DistGrandchild | package.py:22-24 | `./dist/x/y` normalises to `dist/x/y`, which splits into "dist", x and y |
| Package.FirstLevelDropped | package.py:30-34 | the first-level directory is dropped: `dist/A/B/f` is archived as `package/B/f` with filename `dist/A/B/f` |
| Package.LaterEntryWins | package.py:22-34 | a file of the same name in two first-level directories gives one arcname, which keeps the filename from the later directory |
| Package.MappedChild | package.py:30-34 | a file in a first-level directory goes to the top of the package |
| Package.AddEntry | package.py:23-34 | the inner loop adds one walk entry's pairs to the dictionary in order, and nothing for a root of fewer than two parts |
| Package.AddFilesUnder | package.py:30-34 | the file loop assigns each file's arcname its filename, in file order |
| Package.WriteZip | package.py:42-44 | the zip receives every (arcname, filename) member in dictionary order |
| Package.Run | package.py:11-46 | with no `./dist` the script prints "No dist directory to package." and exits with 1; with nothing to archive it prints "Nothing in dist directory to package." and exits with 1; otherwise it writes `<package name>.zip` holding the archive dictionary and exits with 0 |
| QmountCli.Delivered | qcli/qmount/cli.py:106-117 | the handler receives at most the observed events, and every one it receives is an observed event that is neither a directory event nor on ignored paths only |
| QmountCli.IgnoredEventsAreDropped | qcli/qmount/cli.py:111-115 | events on directories, `.DS_Store` or `Thumbs.db` never reach the handler |
| QmountCli.LoadFilesKeys | qcli/qmount/cli.py:78-82 | the loaded map holds exactly the names of the archive's entries |
| QmountCli.LoadFilesValues | qcli/qmount/cli.py:80-82 | each name is bound to the data of the last entry with that name |
| QmountCli.Load | qcli/qmount/cli.py:74-85 | an existing archive is loaded entry by entry and the session starts clean; a missing archive starts an empty, dirty session |
| QmountCli.DeliveredUnder | qcli/qmount/cli.py:117 | the delivered events stay inside the watched directory |
| QmountCli.DirtyWhenChanged | qcli/qmount/cli.py:85-144 | the archive is rewritten exactly when it did not exist or at least one event reached the handler |
| QmountCli.WriteOut | qcli/qmount/cli.py:147-149 | the rewritten archive holds each key of `files` exactly once, with its contents, and nothing else |
| QmountCli.WatchLog | qcli/qmount/handlers.py:21-67 | the verbose output of a watch: nothing outside verbose mode, and in verbose mode one line per delivered event |
| QmountCli.WatchLogLines | qcli/qmount/handlers.py:21-67 | in verbose mode the i-th line printed is the message of the i-th delivered event |
| QmountCli.WatchLogStep | qcli/qmount/cli.py:111-117 | one more observed event adds its message to the verbose output unless it is ignored |
| QmountCli.Watch | qcli/qmount/cli.py:117-141 | the watch leaves the handler's session as the delivered events, applied in order, make it, and appends to the handler's output exactly the verbose lines of those events, in order |
| QmountCli.Deliver | qcli/qmount/cli.py:111-117 | the observer's filter: an ignored event changes neither the session nor the output; any other is dispatched, with its effect on the session and its verbose line |
| QmountCli.WatchNext | qcli/qmount/cli.py:111-117 | one turn of the watch takes the handler from the session and output of the first i observed events to those of the first i + 1 |
| QmountCli.WatchedStep | qcli/qmount/cli.py:111-117 | delivering (or dropping) event i extends both the session and the verbose output of the first i events to those of the first i + 1 |
| QmountCli.WatchStep | qcli/qmount/cli.py:111-117 | one more observed event leaves the session as it was when ignored, and applies it otherwise |
| QmountCli.ApplyAllSnoc | qcli/qmount/handlers.py:18-73 | applying one more event applies it to the session the earlier events left |
| QmountCli.Mount | qcli/qmount/cli.py:67-157 | a session prints exactly the Ctrl+C banner, the verbose lines of the delivered events in order, one blank line, and the closing message for the final dirty flag; it rewrites the archive exactly when the final session is dirty, with exactly the final files, however the watch ends |
| QmountHandlers.Store | qcli/qmount/handlers.py:30-45 | storing binds the path to the contents and leaves every other key and value alone |
| QmountHandlers.Remove | qcli/qmount/handlers.py:58 | `pop(rel, None)` removes the path, keeps every other key and value, and changes nothing when the path is absent |
| QmountHandlers.Move | qcli/qmount/handlers.py:70-73 | a move binds the destination to the source's contents, or to None when the source is absent, removes the source, and keeps every other key and value |
| QmountHandlers.Apply | qcli/qmount/handlers.py:18-73 | every event marks the session dirty |
| QmountHandlers.ApplyAll | qcli/qmount/handlers.py:18-73 | any non-empty run of events leaves the session dirty, and no events leave it as it was |
| QmountHandlers.ModifiedIsCreated | qcli/qmount/handlers.py:18-45 | a modified file and a created file have the same effect on the session |
| QmountHandlers.DeleteAbsent | qcli/qmount/handlers.py:47-58 | deleting a path the map does not hold keeps the map but marks the session dirty |
| QmountHandlers.MoveOntoItself | qcli/qmount/handlers.py:70-73 | moving a held path onto itself keeps the map |
| QmountHandlers.NewKeysAreRelative | qcli/qmount/handlers.py:28-71 | every key an event adds is one of the event's paths taken relative to the watched directory |
| QmountHandlers.Line | qcli/qmount/handlers.py:21-26 | the verbose line is the source path relative to the watched directory, a space and the verb |
| QmountHandlers.EventLine | qcli/qmount/handlers.py:21-67 | an event's verbose line is its source path relative to the watched directory, a space and the handler's verb; a move names its source |
| QmountHandlers.TempPakFileHandler.constructor | qcli/qmount/handlers.py:11-16 | the handler starts with the given directory, verbosity, files and dirty flag, and has printed nothing |
| QmountHandlers.TempPakFileHandler.Say | qcli/qmount/handlers.py:21-26 | the verbose line is printed exactly in verbose mode |
| QmountHandlers.TempPakFileHandler.OnModified | qcli/qmount/handlers.py:18-30 | a modification marks the session dirty, stores the new contents under the relative path, and prints "modified" in verbose mode |
| QmountHandlers.TempPakFileHandler.OnCreated | qcli/qmount/handlers.py:32-45 | a creation marks the session dirty, stores the contents under the relative path, and prints "created" in verbose mode |
| QmountHandlers.TempPakFileHandler.OnDeleted | qcli/qmount/handlers.py:47-58 | a deletion marks the session dirty, drops the relative path, and prints "deleted" in verbose mode |
| QmountHandlers.TempPakFileHandler.OnMoved | qcli/qmount/handlers.py:60-73 | a move marks the session dirty, moves the contents from the source's relative path to the destination's and prints "moved" in verbose mode |
| QmountHandlers.TempPakFileHandler.Dispatch | qcli/qmount/handlers.py:18-73 | an event is routed to its handler method by type, with the effect of that event on the session, and adds that event's line to the output exactly in verbose mode |

## Left out

- File and console I/O: opening, reading, writing, `os.path.exists`, `makedirs` and `expanduser`. Existence tests and file contents are parameters, and printed lines are returned as message lists.
- `vgio` and its `bsp`, `wad`, `pak`, `spr` and `lmp` readers and writers: foreign code. Their tables and info records are given sequences of records, and a file the reader rejects is a flag.
- PIL (quantize, convert, paste, resize, `frombytes`, GIF encoding), svgwrite and tabulate: foreign code. Image conversion steps are function parameters, SVG output is the list of polygons and the viewBox, and a table is its rows.
- Watchdog's observer thread and the sleep loop: concurrency. Events are a sequential list, and the end of the watch (Ctrl+C or the temporary directory vanishing) is a parameter.
- Watchdog's own ignore-pattern rule is foreign code. The model drops an event when it is a directory event or when every path it names ends in `/.DS_Store` or `/Thumbs.db`.
- `os.path.normpath`: only the removal of a leading `./`, the one form the walk of `./dist` produces. `os.path.relpath` is taken for paths below the watched directory.
- Floating-point rounding: coordinates, division and the frame duration are exact reals.
- The `int(args.type)` parse of `image2spr`: the sprite type arrives as an integer.
- Exception messages and tracebacks, among them the `wad` error line printed for a failed miptexture. Those runs end in an error result.
- The state of a partly written sprite, WAD or zip after an exception: not modelled.
- The size checks inside PIL's `frombytes` and `frombuffer`, and image-save errors in `unwad`: foreign code.
- The `bsp2svg` slicing, multi-axis and ignore options and the detection parameters. They are parsed and defaulted but never used, because `convert` does not implement them.
- `get_uvs` (qcli/bsp2svg/api.py:101-120): floating-point texture coordinates, never called.
- qcli/qmount/platforms.py: temporary volumes, unmounting and the file browser, all subprocess calls. The temporary directory is a parameter.
- qcli/pak/cli.py and setup.py are not part of this model.
- argparse configuration, help text and `Parser.error`: these only print and exit.
- `Model.vertexes` and `Model.edges` return `list(set(...))`, whose order Python does not fix. The model keeps first occurrences in face order and claims nothing about order.
- Strings.Upper: maps only the characters whose upper case is an ASCII letter; Python's full Unicode case mapping (`ß` to `SS`, `é` to `É`) is not modelled, since the one use is the comparison with `'GIF'`, and no other character has an upper case that can make a string equal to `'GIF'`.
- QmountCli.WriteOut: the archive is written in the insertion order of the `files` dict; the model keeps `files` as a `map`, which has no order, so the entries are claimed to be each key once with its value, in some order.
- QmountCli.WriteOut: a None value (a move from a path the session never held, qcli/qmount/handlers.py:70-73) is handed to vgio's `writestr`, which is not part of this model; the model writes the None as it is, where vgio would raise.
- The table indices of the decoded BSP records (`firstFace`, `firstEdge`, `planeNumber`, `textureInfo`, `miptextureNumber` and the two vertex numbers of an edge) are `nat`. Python would also accept a negative index and count it from the end of the table; records holding negative indices are not modelled.
- Windows paths: the package archive's paths are joined with `/` even when the platform name is `windows`, where `os.path.join` uses a backslash.

## Findings

| source | as written | input that shows it | evidently intended | confidence | as-written member | corrected member |
|---|---|---|---|---|---|---|
| qcli/bsp2svg/cli.py:116 | `main` calls `converter.convert(args.file, args.dest, args)`, but `convert` takes two parameters (qcli/bsp2svg/converter.py:22), so the call raises a TypeError | `bsp2svg e1m1.bsp` on any valid map | `convert(args.file, args.dest)`, which writes the SVG and exits with 0 | not executed | Bsp2SvgCli.RunAsWritten, shown by Bsp2SvgCli.ConvertCallMismatch | Bsp2SvgCli.Run |
| qcli/image2spr/cli.py:161-164 | the paste box is `(top, left)`, which PIL reads as (left, upper), so an image is placed with its offsets swapped | a 1 by 3 source followed by a 3 by 3 source, so that the last size is the canvas size and the run as written does write a sprite (Image2SprCli.ColumnThenSquare) | the box `(left, top)`, centring each image | not executed | Image2SprCli.ConvertedAsWritten through Image2SprCli.PadImageAsWritten, shown by Image2SprCli.ColumnThenSquare and Image2SprCli.PasteBoxSwapped | Image2SprCli.PadImage, proved by Image2SprCli.PadImagePixels |
| qcli/image2spr/cli.py:171-182 | the sprite and frame size come from `size`, the size of the last source opened, not from the padded canvas, so unpacking a larger canvas fails | a 4 by 4 source followed by a 2 by 2 source (Image2SprCli.LastSourceSize) | the canvas size (the largest width and height) | not executed | Image2SprCli.ConvertedAsWritten, shown by Image2SprCli.LastSourceSize | Image2SprCli.Converted, computed by Image2SprCli.Run and proved by Image2SprCli.SeveralImagesWritten |
