/** The `wad` command: add images or raw files to a WAD archive, building
    the four-level miptexture of each image in the default MIPTEX mode. */
module WadCli {
  import opened Results
  import opened Strings
  import opened Paths
  import opened VgioRecords

  function Pow2(i: nat): (r: nat)
    ensures r >= 1
  {
    if i == 0 then 1 else 2 * Pow2(i - 1)
  }

  /** An opened input already quantized to the palette: its size, its
      pixel bytes, and `resize(w, h)`, the bytes of the image resized to
      w by h (PIL is not part of this model). */
  datatype Picture = Picture(width: nat, height: nat, pixels: Bytes, resize: (nat, nat) -> Bytes)

  /** The bytes of mip level i: the image resized to `w // 2^i` by `h // 2^i`. */
  function Level(p: Picture, i: nat): Bytes {
    p.resize(Halved(p.width, i), Halved(p.height, i))
  }

  /** `n // pow(2, i)`, halving i times. */
  function Halved(n: nat, i: nat): (r: nat)
    ensures r * Pow2(i) <= n < (r + 1) * Pow2(i)
  {
    if i == 0 then n
    else
      var h := Halved(n, i - 1);
      HalveBounds(n, h, Pow2(i - 1));
      h / 2
  }

  lemma HalveBounds(n: nat, h: nat, q: nat)
    requires h * q <= n < (h + 1) * q
    ensures (h / 2) * (2 * q) <= n < (h / 2 + 1) * (2 * q)
  {
    var r := h / 2;
    assert (h / 2) * (2 * q) == (2 * r) * q;
    assert (h / 2 + 1) * (2 * q) == (2 * r + 2) * q;
    if h == 2 * r {
      assert (h + 1) * q <= (2 * r + 2) * q;
    } else {
      assert h == 2 * r + 1;
      assert 2 * r * q <= h * q;
    }
  }

  /** Levels 0 up to n - 1, concatenated. */
  function Levels(p: Picture, n: nat): Bytes {
    if n == 0 then [] else Levels(p, n - 1) + Level(p, n - 1)
  }

  /** The offset table: level i starts after the 40-byte header and the
      levels before it. */
  function MipOffsets(p: Picture): (offsets: seq<nat>)
    ensures |offsets| == 4 && offsets[0] == 40
    ensures forall i :: 0 <= i < 3 ==> offsets[i + 1] == offsets[i] + |Level(p, i)|
  {
    seq(4, k requires 0 <= k < 4 => 40 + |Levels(p, k)|)
  }

  /** The miptexture written for an image named `name`. */
  function MiptexOf(name: string, p: Picture): (mip: Miptexture)
    ensures mip.name == name && mip.width == p.width && mip.height == p.height
    ensures mip.offsets == MipOffsets(p)
    ensures mip.pixels == Level(p, 0) + Level(p, 1) + Level(p, 2) + Level(p, 3)
  {
    assert Levels(p, 1) == [] + Level(p, 0);
    assert Levels(p, 2) == Level(p, 0) + Level(p, 1);
    assert Levels(p, 3) == Level(p, 0) + Level(p, 1) + Level(p, 2);
    assert Levels(p, 4) == Level(p, 0) + Level(p, 1) + Level(p, 2) + Level(p, 3);
    Miptexture(name, p.width, p.height, MipOffsets(p), Levels(p, 4))
  }

  /** The directory entry of a miptexture: header plus pixels, uncompressed. */
  function MiptexInfo(mip: Miptexture): (info: WadInfo)
    ensures info.filename == mip.name
    ensures info.fileSize == info.diskSize == 40 + |mip.pixels|
    ensures info.compression == NoCompression && info.lumpType == MiptexType
  {
    WadInfo(mip.name, 40 + |mip.pixels|, 40 + |mip.pixels|, NoCompression, MiptexType)
  }

  /** An image narrower or lower than 8 pixels has a level of width or
      height 0, and resizing to that raises. */
  predicate TooSmall(p: Picture) {
    p.width < 8 || p.height < 8
  }

  /** Level 3 is the first to vanish: `n // 8 == 0` exactly when n < 8, and
      a level before it can only vanish when level 3 does. */
  lemma LevelVanishes(n: nat, i: nat)
    requires i <= 3
    ensures Halved(n, 3) == 0 <==> n < 8
    ensures Halved(n, i) == 0 ==> n < 8
  {
    assert Pow2(1) == 2 && Pow2(2) == 4 && Pow2(3) == 8;
  }

  /** The `for i in range(4)` loop: pixels grow by each level and the offset
      table by each level's end but the last; the resize to a level of
      width or height 0 raises, which ends the loop with None. */
  method BuildMiptexture(name: string, p: Picture) returns (r: Option<(Miptexture, WadInfo)>)
    ensures r.None? <==> TooSmall(p)
    ensures r.Some? ==> r.value.0 == MiptexOf(name, p) && r.value.1 == MiptexInfo(r.value.0)
  {
    var offsets: seq<nat> := [40];
    var pixels: Bytes := [];
    for i := 0 to 4
      invariant pixels == Levels(p, i)
      invariant |offsets| == (if i < 3 then i + 1 else 4)
      invariant forall k :: 0 <= k < |offsets| ==> offsets[k] == 40 + |Levels(p, k)|
      invariant i == 4 ==> Halved(p.width, 3) > 0 && Halved(p.height, 3) > 0
    {
      if Halved(p.width, i) == 0 || Halved(p.height, i) == 0 {
        LevelVanishes(p.width, i);
        LevelVanishes(p.height, i);
        return None;
      }
      var data := p.resize(Halved(p.width, i), Halved(p.height, i));
      pixels := pixels + data;
      if i < 3 {
        offsets := offsets + [offsets[|offsets| - 1] + |data|];
      }
    }
    LevelVanishes(p.width, 3);
    LevelVanishes(p.height, 3);
    assert offsets == MipOffsets(p);
    var mip := Miptexture(name, p.width, p.height, offsets, pixels);
    return Some((mip, WadInfo(name, 40 + |pixels|, 40 + |pixels|, NoCompression, MiptexType)));
  }

  /** The resize produces w·h palette bytes, as PIL's `tobytes` of a
      palette image does. */
  ghost predicate ExactResize(p: Picture) {
    forall w: nat, h: nat :: |p.resize(w, h)| == w * h
  }

  function LevelSize(p: Picture, i: nat): nat {
    Halved(p.width, i) * Halved(p.height, i)
  }

  function LevelSizes(p: Picture, n: nat): nat {
    if n == 0 then 0 else LevelSizes(p, n - 1) + LevelSize(p, n - 1)
  }

  /** With an exact resize, `len(pixels)` is the sum of the four level sizes
      and each offset is 40 plus the sizes of the levels before it. */
  lemma {:induction false} LevelsLength(p: Picture, n: nat)
    requires ExactResize(p)
    ensures |Levels(p, n)| == LevelSizes(p, n)
  {
    if n > 0 {
      LevelsLength(p, n - 1);
      assert |Level(p, n - 1)| == LevelSize(p, n - 1);
    }
  }

  lemma MiptexSizes(name: string, p: Picture)
    requires ExactResize(p)
    ensures var mip := MiptexOf(name, p);
            |mip.pixels| == LevelSizes(p, 4) &&
            (forall i :: 0 <= i < 4 ==> mip.offsets[i] == 40 + LevelSizes(p, i)) &&
            MiptexInfo(mip).fileSize == 40 + LevelSizes(p, 4)
  {
    LevelsLength(p, 0);
    LevelsLength(p, 1);
    LevelsLength(p, 2);
    LevelsLength(p, 3);
    LevelsLength(p, 4);
  }

  /** A 64 by 64 image: offsets 40, 4136, 5160, 5416 and a 5480-byte entry. */
  lemma Miptex64(name: string, p: Picture)
    requires ExactResize(p) && p.width == 64 && p.height == 64
    ensures MiptexOf(name, p).offsets == [40, 4136, 5160, 5416]
    ensures MiptexInfo(MiptexOf(name, p)).fileSize == 5480
  {
    MiptexSizes(name, p);
    assert Pow2(1) == 2 && Pow2(2) == 4 && Pow2(3) == 8;
    assert LevelSizes(p, 4) == 4096 + 1024 + 256 + 64;
  }

  datatype ListType = LumpList | QpicList | MiptexList

  datatype FileMode = AppendMode | WriteMode

  /** `'a'` for an existing regular file, `'w'` otherwise. */
  function ChooseMode(isRegularFile: bool): (m: FileMode)
    ensures m == AppendMode <==> isRegularFile
  {
    if isRegularFile then AppendMode else WriteMode
  }

  /** A picture as an `lmp.Lmp`. */
  datatype Qpic = Qpic(width: nat, height: nat, pixels: Bytes)

  /** What the inputs are read through: `readable` stands for the
      archive's read of a raw file, `open` for PIL's open, convert and
      quantize, `qpicSize` for the length `lmp.Lmp.write` produces. */
  datatype Imaging = Imaging(readable: string -> bool, open: string -> Option<Picture>, qpicSize: Qpic -> nat)

  /** What is handed to the archive for one input. */
  datatype Written =
    | RawFile(path: string)
    | QpicEntry(info: WadInfo, qpic: Qpic)
    | MiptexEntry(info: WadInfo, mip: Miptexture)

  /** The entry for one input, or None when the input raises: a raw file
      that cannot be read, an image that cannot be opened, or a miptexture
      image too small for its last level. */
  function AddOne(kind: ListType, file: string, env: Imaging): (r: Option<Written>)
    ensures kind == LumpList ==> (r.Some? <==> env.readable(file)) && (r.Some? ==> r.value == RawFile(file))
    ensures kind == QpicList ==> (r.None? <==> env.open(file).None?)
    ensures kind == QpicList && r.Some? ==>
              r.value.QpicEntry? &&
              r.value.qpic == Qpic(env.open(file).value.width, env.open(file).value.height, env.open(file).value.pixels) &&
              r.value.info == WadInfo(Stem(file), env.qpicSize(r.value.qpic), env.qpicSize(r.value.qpic), NoCompression, QpicType)
    ensures kind == MiptexList ==> (r.None? <==> env.open(file).None? || TooSmall(env.open(file).value))
    ensures r.Some? && !r.value.RawFile? ==> r.value.info.filename == Stem(file) && r.value.info.fileSize == r.value.info.diskSize
    ensures kind == MiptexList && r.Some? ==> r.value.MiptexEntry? && r.value.info == MiptexInfo(r.value.mip)
    ensures r.Some? && r.value.MiptexEntry? ==> r.value.mip == MiptexOf(Stem(file), env.open(file).value)
  {
    var open, qpicSize := env.open, env.qpicSize;
    match kind
    case LumpList => if env.readable(file) then Some(RawFile(file)) else None
    case QpicList =>
      (match open(file)
       case None => None
       case Some(p) =>
         var q := Qpic(p.width, p.height, p.pixels);
         Some(QpicEntry(WadInfo(Stem(file), qpicSize(q), qpicSize(q), NoCompression, QpicType), q)))
    case MiptexList =>
      (match open(file)
       case None => None
       case Some(p) =>
         if TooSmall(p) then None
         else
           var mip := MiptexOf(Stem(file), p);
           Some(MiptexEntry(MiptexInfo(mip), mip)))
  }

  datatype WadOutcome = WadOutcome(mode: Option<FileMode>, written: seq<Written>, messages: seq<string>, exitCode: int)

  const MissingList := "wad error: the following arguments are required: list"

  /** `AddOne` for a fixed kind and imaging library, as a function of the file. */
  function AddOneFor(kind: ListType, env: Imaging): string -> Option<Written> {
    file => AddOne(kind, file, env)
  }

  /** The entries `one` gives for the inputs in order, up to the first
      input it fails on, and whether there was none. */
  function Added(files: seq<string>, one: string -> Option<Written>): (r: (seq<Written>, bool))
    ensures |r.0| <= |files|
    ensures !r.1 ==> |r.0| < |files|
  {
    if files == [] then ([], true)
    else match one(files[0])
      case None => ([], false)
      case Some(w) =>
        var rest := Added(files[1..], one);
        ([w] + rest.0, rest.1)
  }

  /** The entries for the inputs in order, up to the first that fails. */
  function AddAll(kind: ListType, files: seq<string>, env: Imaging): (seq<Written>, bool) {
    Added(files, AddOneFor(kind, env))
  }

  /** The run succeeds iff every input can be added; the entries written
      are those of the inputs before the first failure, in order. */
  lemma AddAllSpec(kind: ListType, files: seq<string>, env: Imaging)
    ensures var r := AddAll(kind, files, env);
            |r.0| <= |files| &&
            (r.1 <==> forall i :: 0 <= i < |files| ==> AddOne(kind, files[i], env).Some?) &&
            (forall i :: 0 <= i < |r.0| ==> AddOne(kind, files[i], env) == Some(r.0[i])) &&
            (r.1 ==> |r.0| == |files|) &&
            (!r.1 ==> AddOne(kind, files[|r.0|], env).None?)
  {
    var one := AddOneFor(kind, env);
    AddedPrefix(files, one);
    AddedStops(files, one);
  }

  /** The entries are those of the first inputs, in order. */
  lemma {:induction false} AddedPrefix(files: seq<string>, one: string -> Option<Written>)
    ensures var r := Added(files, one);
            |r.0| <= |files| && forall i :: 0 <= i < |r.0| ==> one(files[i]) == Some(r.0[i])
  {
    if files != [] && one(files[0]).Some? {
      var r := Added(files, one);
      var tail := files[1..];
      var rest := Added(tail, one);
      AddedPrefix(tail, one);
      assert r == ([one(files[0]).value] + rest.0, rest.1);
      forall i | 1 <= i < |r.0|
        ensures one(files[i]) == Some(r.0[i])
      {
        assert tail[i - 1] == files[i];
        assert r.0[i] == rest.0[i - 1];
      }
    }
  }

  /** A complete run covers every input; an incomplete one stops at an
      input `one` fails on. */
  lemma {:induction false} AddedStops(files: seq<string>, one: string -> Option<Written>)
    ensures var r := Added(files, one);
            (r.1 ==> |r.0| == |files|) && (!r.1 ==> |r.0| < |files| && one(files[|r.0|]).None?)
  {
    if files != [] && one(files[0]).Some? {
      var r := Added(files, one);
      var tail := files[1..];
      var rest := Added(tail, one);
      AddedStops(tail, one);
      assert r == ([one(files[0]).value] + rest.0, rest.1);
      if !rest.1 {
        assert tail[|rest.0|] == files[|r.0|];
      }
    }
  }

  /** A whole `wad file list...` run: the list (None when read from a
      terminal) must be non-empty, or the run fails before the archive
      is opened; otherwise each input is added in turn and the first that
      raises ends the run with exit 1. */
  method Run(file: string, list: Option<seq<string>>, kind: ListType, quiet: bool, isRegularFile: bool,
              env: Imaging) returns (r: WadOutcome)
    ensures (list.None? || list.value == []) ==> r == WadOutcome(None, [], [MissingList], 1)
    ensures list.Some? && list.value != [] ==>
              r.mode == Some(ChooseMode(isRegularFile)) &&
              var added := AddAll(kind, list.value, env);
              r.written == added.0 && r.exitCode == (if added.1 then 0 else 1) &&
              r.messages == Header(file, quiet) + Announced(list.value[..AnnouncedCount(kind, |list.value|, added)], quiet)
  {
    if list.None? || list.value == [] {
      return WadOutcome(None, [], [MissingList], 1);
    }
    var files := list.value;
    var mode := ChooseMode(isRegularFile);
    var messages := Header(file, quiet);
    var written, added, ok := AddFiles(kind, files, quiet, env);
    return WadOutcome(Some(mode), written, messages + added, if ok then 0 else 1);
  }

  /** The archive's name, printed first unless quiet. */
  function Header(file: string, quiet: bool): seq<string> {
    if quiet then [] else ["Archive: " + Basename(file)]
  }

  /** The line announcing one input, unless quiet. */
  function Adding(file: string, quiet: bool): seq<string> {
    if quiet then [] else [AddingLine(file)]
  }

  /** How many inputs get an "adding" line: those added, and a raw file
      whose write raises, since its line is printed before the write. */
  function AnnouncedCount(kind: ListType, count: nat, added: (seq<Written>, bool)): (n: nat)
    requires |added.0| <= count && (!added.1 ==> |added.0| < count)
    ensures n <= count
    ensures n == |added.0| || (n == |added.0| + 1 && !added.1 && kind == LumpList)
  {
    if !added.1 && kind == LumpList then |added.0| + 1 else |added.0|
  }

  /** The lines announcing the given inputs, in order. */
  function Announced(files: seq<string>, quiet: bool): (lines: seq<string>)
    ensures quiet ==> lines == []
    ensures !quiet ==> |lines| == |files|
  {
    if quiet then [] else seq(|files|, k requires 0 <= k < |files| => AddingLine(files[k]))
  }

  function AddingLine(file: string): string {
    "  adding: " + file
  }

  lemma AnnouncedStep(files: seq<string>, i: nat, quiet: bool)
    requires i < |files|
    ensures Announced(files[..i + 1], quiet) == Announced(files[..i], quiet) + Adding(files[i], quiet)
  {
    if !quiet {
      var a, b := Announced(files[..i + 1], quiet), Announced(files[..i], quiet) + Adding(files[i], quiet);
      assert |a| == |b|;
      forall k | 0 <= k < |a| ensures a[k] == b[k] {
        if k < i { assert files[..i + 1][k] == files[..i][k]; }
      }
    }
  }

  /** The loop over the inputs: the entries from AddAll, and one
      "adding" line per entry unless quiet. */
  method AddFiles(kind: ListType, files: seq<string>, quiet: bool,
                  env: Imaging)
    returns (written: seq<Written>, messages: seq<string>, ok: bool)
    ensures (written, ok) == AddAll(kind, files, env)
    ensures |written| <= |files| && (!ok ==> |written| < |files|)
    ensures messages == Announced(files[..AnnouncedCount(kind, |files|, (written, ok))], quiet)
  {
    written, messages := [], [];
    assert files[..0] == [];
    ghost var one := AddOneFor(kind, env);
    var i := 0;
    assert files[0..] == files;
    assert [] + Added(files, one).0 == Added(files, one).0;
    while i < |files|
      invariant 0 <= i <= |files|
      invariant Added(files, one) == AddThen(written, Added(files[i..], one))
      invariant |written| == i && messages == Announced(files[..i], quiet)
    {
      var entry := AddInput(kind, files[i], env);
      AnnouncedStep(files, i, quiet);
      if entry.None? {
        AddedFails(files, i, one, written);
        if kind == LumpList {
          messages := messages + Adding(files[i], quiet);
        }
        return written, messages, false;
      }
      AddedGoesOn(files, i, one, written, entry.value);
      messages := messages + Adding(files[i], quiet);
      written := written + [entry.value];
      i := i + 1;
    }
    assert files[i..] == [] && files[..i] == files;
    assert written + [] == written;
    return written, messages, true;
  }

  /** The input at i fails: the entries are those before it. */
  lemma AddedFails(files: seq<string>, i: nat, one: string -> Option<Written>, done: seq<Written>)
    requires i < |files| && one(files[i]).None?
    requires Added(files, one) == AddThen(done, Added(files[i..], one))
    ensures Added(files, one) == (done, false)
  {
    AddedStep(files, i, one);
    AddThenFailed(done, Added(files[i..], one));
  }

  /** The input at i gives w: it joins the entries before it. */
  lemma AddedGoesOn(files: seq<string>, i: nat, one: string -> Option<Written>, done: seq<Written>, w: Written)
    requires i < |files| && one(files[i]) == Some(w)
    requires Added(files, one) == AddThen(done, Added(files[i..], one))
    ensures Added(files, one) == AddThen(done + [w], Added(files[i + 1..], one))
  {
    AddedStep(files, i, one);
    AddThenStep(done, w, Added(files[i + 1..], one));
  }

  lemma AddThenFailed(done: seq<Written>, rest: (seq<Written>, bool))
    requires rest == ([], false)
    ensures AddThen(done, rest) == (done, false)
  {
    assert done + [] == done;
  }

  lemma AddThenStep(done: seq<Written>, w: Written, rest: (seq<Written>, bool))
    ensures AddThen(done, ([w] + rest.0, rest.1)) == AddThen(done + [w], rest)
  {
    assert (done + [w]) + rest.0 == done + ([w] + rest.0);
  }

  /** `AddFile`, stated through `AddOneFor`. */
  method AddInput(kind: ListType, file: string, env: Imaging) returns (entry: Option<Written>)
    ensures entry == AddOneFor(kind, env)(file)
  {
    entry := AddFile(kind, file, env);
  }

  /** One input: a raw file as is, or an image opened and turned into a
      QPIC or a miptexture entry named after the file. */
  method AddFile(kind: ListType, file: string, env: Imaging) returns (entry: Option<Written>)
    ensures entry == AddOne(kind, file, env)
  {
    if kind == LumpList {
      return if env.readable(file) then Some(RawFile(file)) else None;
    }
    var picture := env.open(file);
    if picture.None? {
      return None;
    }
    var p := picture.value;
    var name := Stem(file);
    if kind == QpicList {
      var q := Qpic(p.width, p.height, p.pixels);
      return Some(QpicEntry(WadInfo(name, env.qpicSize(q), env.qpicSize(q), NoCompression, QpicType), q));
    }
    var built := BuildMiptexture(name, p);
    if built.None? {
      return None;
    }
    return Some(MiptexEntry(built.value.1, built.value.0));
  }

  lemma AddedStep(files: seq<string>, i: nat, one: string -> Option<Written>)
    requires i < |files|
    ensures var rest := Added(files[i + 1..], one);
            Added(files[i..], one) == if one(files[i]).None? then ([], false) else ([one(files[i]).value] + rest.0, rest.1)
  {
    assert files[i..][0] == files[i];
    assert files[i..][1..] == files[i + 1..];
  }

  /** `done` entries already written, followed by what the rest adds. */
  function AddThen(done: seq<Written>, rest: (seq<Written>, bool)): (seq<Written>, bool) {
    (done + rest.0, rest.1)
  }
}
