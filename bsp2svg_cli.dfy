/** The `bsp2svg` command: option defaults, the default SVG file name and
    the hand-off to the converter. */
module Bsp2SvgCli {
  import opened Results
  import opened Strings
  import opened Paths
  import opened BspApi
  import opened BspConverter

  datatype Axis = X | Y | Z

  function AxisName(a: Axis): (s: string)
    ensures |s| == 1 && s[0] in "xyz"
  {
    match a
    case X => "x"
    case Y => "y"
    case Z => "z"
  }

  /** The parsed command line. `slices` is None when `-s` is absent and
      Some(values) when it is given, possibly with no values. */
  datatype Options = Options(
    file: string,
    dest: string,
    projection: Axis,
    slicing: Option<Axis>,
    ignore: seq<string>,
    slices: Option<seq<real>>,
    detection: seq<real>,
    quiet: bool)

  /** The options for `bsp2svg file` alone, run from directory `cwd`. */
  function DefaultOptions(file: string, cwd: string): (o: Options)
    ensures o.file == file && o.dest == cwd
    ensures o.projection == Z && o.slicing.None? && o.slices.None?
    ensures o.ignore == [] && o.detection == [1.0, 0.3, 64.0] && !o.quiet
  {
    Options(file, cwd, Z, None, [], None, [1.0, 0.3, 64.0], false)
  }

  /** `_{projection}_{slicing or projection}` when `-s` is given, else empty. */
  function SvgSuffix(o: Options): (s: string)
    ensures o.slices.None? ==> s == ""
    ensures o.slices.Some? ==>
              s == "_" + AxisName(o.projection) + "_" +
                   AxisName(if o.slicing.Some? then o.slicing.value else o.projection)
  {
    if o.slices.None? then ""
    else
      var slicing := match o.slicing case Some(a) => a case None => o.projection;
      "_" + AxisName(o.projection) + "_" + AxisName(slicing)
  }

  lemma SuffixHasNoSlash(o: Options)
    ensures '/' !in SvgSuffix(o)
  {
    if o.slices.Some? {
      var p := AxisName(o.projection);
      var q := AxisName(if o.slicing.Some? then o.slicing.value else o.projection);
      assert '/' !in "_" && '/' !in p && '/' !in q;
      NoSlashInConcat("_", p, "_");
      NoSlashInConcat("_" + p + "_", q, []);
      assert "_" + p + "_" + q + [] == SvgSuffix(o);
    }
  }

  lemma NoSlashInConcat(a: string, b: string, c: string)
    requires '/' !in a && '/' !in b && '/' !in c
    ensures '/' !in a + b + c
  {
  }

  /** The SVG path used when `-d` is left at the working directory:
      `dirname(file)/stem + suffix + ".svg"`. */
  function DefaultSvgPath(o: Options): string {
    Join(Dirname(o.file), Stem(o.file) + SvgSuffix(o) + ".svg")
  }

  /** `args.dest` after validation: the default name when dest is the
      working directory, otherwise dest unchanged. */
  function SvgDest(o: Options, cwd: string): (d: string)
    ensures o.dest != cwd ==> d == o.dest
    ensures o.dest == cwd ==> Basename(d) == Stem(o.file) + SvgSuffix(o) + ".svg"
  {
    if o.dest == cwd then
      SuffixHasNoSlash(o);
      NoSlashInConcat(Stem(o.file), SvgSuffix(o), ".svg");
      JoinBasename(Dirname(o.file), Stem(o.file) + SvgSuffix(o) + ".svg");
      DefaultSvgPath(o)
    else o.dest
  }

  /** `os.path.dirname(dest) or '.'`: the directory created if missing. */
  function DestDir(dest: string): (d: string)
    ensures d != []
    ensures Dirname(dest) != [] ==> d == Dirname(dest)
  {
    if Dirname(dest) == [] then "." else Dirname(dest)
  }

  /** The file name the default path gets when the options are otherwise
      default: the suffix appears iff `-s` was given, even empty. */
  lemma DefaultNames(file: string, cwd: string, slices: Option<seq<real>>)
    ensures var o := DefaultOptions(file, cwd).(slices := slices);
            Basename(SvgDest(o, cwd)) ==
              Stem(file) + (if slices.Some? then "_z_z" else "") + ".svg"
  {
    var o := DefaultOptions(file, cwd).(slices := slices);
    if slices.Some? {
      assert AxisName(Z) == "z";
      assert "_" + "z" + "_" + "z" == "_z_z";
      assert SvgSuffix(o) == "_z_z";
    }
    assert Basename(SvgDest(o, cwd)) == Stem(o.file) + SvgSuffix(o) + ".svg";
  }

  datatype Outcome = Outcome(errors: seq<string>, dest: string, drawing: Result<Drawing, ConvertError>, exitCode: int)

  /** What a run does, with the converter called on the input and the
      destination. `isBspFile` is vgio's `is_bspfile` check; `models` is
      what `Bsp.open` yields, None when it cannot read the file. An input
      that is not a BSP file only prints an error: processing goes on, and
      the failure surfaces when the converter opens the file. */
  function Run(o: Options, cwd: string, isBspFile: bool, models: Option<seq<Model>>): (out: Outcome)
    ensures !isBspFile <==> out.errors == ["bsp2svg: cannot find or open " + o.file]
    ensures out.dest == SvgDest(o, cwd)
    ensures out.exitCode == 0 <==> models.Some? && out.drawing.Ok?
    ensures models.Some? ==> out.drawing == Converted(models.value)
  {
    var errors := if isBspFile then [] else ["bsp2svg: cannot find or open " + o.file];
    var dest := SvgDest(o, cwd);
    match models
    case None => Outcome(errors, dest, Err(EmptySequence), 1)
    case Some(ms) =>
      var d := Converted(ms);
      Outcome(errors, dest, d, if d.Ok? then 0 else 1)
  }

  /** `main` as written passes three arguments (`file`, `dest`, `args`)
      to a `convert` that takes two, so the call raises a TypeError and the
      command ends with a traceback for every input. */
  function RunAsWritten(o: Options, cwd: string, isBspFile: bool, models: Option<seq<Model>>): (out: Outcome)
    ensures out.exitCode == 1
  {
    var errors := if isBspFile then [] else ["bsp2svg: cannot find or open " + o.file];
    Outcome(errors, SvgDest(o, cwd), Err(EmptySequence), 1)
  }

  /** A well-formed map converts successfully with the corrected call and
      still fails as written. */
  lemma ConvertCallMismatch()
    ensures var o := DefaultOptions("e1m1.bsp", "/home");
            var face := Face([Vertex(0, 0.0, 0.0, 0.0)], [], Plane(Vec3(0.0, 0.0, 1.0), 0.0, 0), "wall");
            var models := Some([BspApi.Model([face])]);
            Run(o, "/home", true, models).exitCode == 0 &&
            RunAsWritten(o, "/home", true, models).exitCode == 1
  {
    var face := Face([Vertex(0, 0.0, 0.0, 0.0)], [], Plane(Vec3(0.0, 0.0, 1.0), 0.0, 0), "wall");
    var ms := [BspApi.Model([face])];
    assert ms[1..] == [];
    assert AllFaces(ms) == [face] + AllFaces([]);
    assert [face][1..] == [];
    assert FaceListVertexes([face]) == face.vertexes + FaceListVertexes([]);
    assert AllVertexes(ms) == [Vertex(0, 0.0, 0.0, 0.0)];
  }
}
