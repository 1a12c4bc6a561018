/** The `spr2image` command: write the frames of a Quake sprite as one
    animated GIF, or as one numbered image file per frame. The sprite reader
    and the image encoder are outside the model; only their inputs are. */
module Spr2ImageCli {
  import opened Results
  import opened Strings
  import opened Paths

  /** A sprite frame: a single picture, or a frame group. */
  datatype SprFrame = SprFrame(single: bool, width: nat, height: nat, pixels: seq<bv8>)

  /** A palette image made from a single frame's size and pixels. */
  datatype Picture = Picture(width: nat, height: nat, pixels: seq<bv8>)

  function PictureOf(f: SprFrame): Picture {
    Picture(f.width, f.height, f.pixels)
  }

  /** 10/60 s (about 166.7 ms) per frame, in milliseconds. */
  const DefaultDuration: real := 10.0 / 60.0 * 1000.0

  /** What is saved: one GIF holding the first frame and the rest appended
      in order, or a list of (path, picture) files. */
  datatype Saved =
    | Gif(path: string, first: Picture, rest: seq<Picture>, duration: real, loops: nat)
    | Files(files: seq<(string, Picture)>)

  datatype Outcome = Outcome(messages: seq<string>, saved: Option<Saved>, exitCode: int)

  /** The default output: the sprite's directory and its stem with ".gif". */
  function DefaultDest(file: string): (d: string)
    ensures Basename(d) == Stem(file) + ".gif"
  {
    JoinBasename(Dirname(file), Stem(file) + ".gif");
    Join(Dirname(file), Stem(file) + ".gif")
  }

  /** `-d` is taken as unset when it equals the working directory. */
  function Dest(file: string, dest: string, cwd: string): string {
    if dest == cwd then DefaultDest(file) else dest
  }

  /** The extension: the text after the last '.' of the output's basename,
      all of it when there is no '.'. */
  function Extension(dest: string): (e: string)
    ensures '.' !in e
  {
    AfterLast(Basename(dest), '.')
  }

  /** After a name and a dot, the extension is what follows the dot. */
  lemma AfterLastDot(name: string, ext: string)
    requires '.' !in ext
    ensures AfterLast(name + "." + ext, '.') == ext
  {
    var s := name + "." + ext;
    assert s[|name|] == '.';
    assert forall m :: |name| < m < |s| ==> s[m] == ext[m - |name| - 1];
    LastIndexOfUnique(s, '.', |name|);
    assert s[|name| + 1..] == ext;
  }

  /** A name given to `-d` keeps its extension. */
  lemma ExtensionOfName(dir: string, name: string, ext: string)
    requires '/' !in name && '/' !in ext && '.' !in ext
    ensures Extension(Join(dir, name + "." + ext)) == ext
  {
    JoinBasename(dir, name + "." + ext);
    AfterLastDot(name, ext);
  }

  /** GIF output is chosen by comparing the upper-cased extension with "GIF". */
  predicate IsGif(ext: string) {
    Upper(ext) == "GIF"
  }

  /** The comparison ignores case: exactly the three-letter extensions whose
      letters are g, i, f in either case, the i also as a dotless i. */
  lemma IsGifCases(ext: string)
    ensures IsGif(ext) <==>
              |ext| == 3 && ext[0] in "gG" && ext[1] in "iIı" && ext[2] in "fF"
  {
    if |ext| == 3 {
      assert Upper(ext)[0] == UpperChar(ext[0]) && Upper(ext)[1] == UpperChar(ext[1]) && Upper(ext)[2] == UpperChar(ext[2]);
      if ext[0] in "gG" && ext[1] in "iIı" && ext[2] in "fF" {
        assert Upper(ext) == "GIF";
      }
    }
  }

  /** The default output is always a GIF in the sprite's directory. */
  lemma DefaultIsGif(file: string)
    ensures Extension(DefaultDest(file)) == "gif"
    ensures IsGif(Extension(DefaultDest(file)))
  {
    var d := DefaultDest(file);
    var stem := Stem(file);
    assert Basename(d) == stem + ".gif";
    DotGif(stem);
    AfterLastDot(stem, "gif");
    assert Extension(d) == "gif";
    GifIsGif();
  }

  lemma DotGif(stem: string)
    ensures stem + ".gif" == stem + "." + "gif"
  {
    assert "." + "gif" == ".gif";
  }

  lemma GifIsGif()
    ensures IsGif("gif")
  {
    assert "gif"[1..] == "if" && "if"[1..] == "f" && "f"[1..] == [];
    assert Upper("gif") == [UpperChar('g')] + Upper("if");
  }

  /** The name of frame i for non-GIF output: `{stem}_{i}.{ext}`. */
  function FrameName(stem: string, i: nat, ext: string): string {
    stem + "_" + NatToString(i) + "." + ext
  }

  function FramePath(dest: string, i: nat, ext: string): string {
    Join(Dirname(dest), FrameName(Stem(dest), i, ext))
  }

  lemma FirstDot(stem: string, i: nat, ext: string)
    requires '.' !in stem
    ensures IndexOf(FrameName(stem, i, ext), '.') == |stem| + 1 + |NatToString(i)|
  {
    var n := FrameName(stem, i, ext);
    var k := |stem| + 1 + |NatToString(i)|;
    assert n[k] == '.';
    assert forall m :: 0 <= m < k ==> n[m] != '.' by {
      forall m | 0 <= m < k
        ensures n[m] != '.'
      {
        if m < |stem| {
          assert n[m] == stem[m];
        } else if m == |stem| {
          assert n[m] == '_';
        } else {
          assert n[m] == NatToString(i)[m - |stem| - 1];
        }
      }
    }
  }

  lemma FrameNameDigits(stem: string, i: nat, ext: string)
    ensures var n := FrameName(stem, i, ext);
            |stem| + 1 + |NatToString(i)| <= |n| &&
            n[|stem| + 1..|stem| + 1 + |NatToString(i)|] == NatToString(i)
  {
    var d := NatToString(i);
    var n := FrameName(stem, i, ext);
    assert n == (stem + "_") + d + ("." + ext);
  }

  lemma JoinInjective(d: string, a: string, b: string)
    requires !StartsWith(a, "/") && !StartsWith(b, "/")
    requires Join(d, a) == Join(d, b)
    ensures a == b
  {
    if d == [] || d[|d| - 1] == '/' {
      assert (d + a)[|d|..] == a && (d + b)[|d|..] == b;
    } else {
      assert (d + "/" + a)[|d| + 1..] == a && (d + "/" + b)[|d| + 1..] == b;
    }
  }

  /** Frame names of one stem and extension differ for different frames. */
  lemma FrameNameInjective(stem: string, i: nat, j: nat, ext: string)
    requires '.' !in stem
    requires FrameName(stem, i, ext) == FrameName(stem, j, ext)
    ensures i == j
  {
    FirstDot(stem, i, ext);
    FirstDot(stem, j, ext);
    FrameNameDigits(stem, i, ext);
    FrameNameDigits(stem, j, ext);
    NatToStringParses(i);
    NatToStringParses(j);
  }

  lemma FrameNameRelative(stem: string, i: nat, ext: string)
    requires '/' !in stem
    ensures !StartsWith(FrameName(stem, i, ext), "/")
  {
    var a := FrameName(stem, i, ext);
    if |stem| > 0 { assert a[0] == stem[0]; } else { assert a[0] == '_'; }
  }

  /** Different frames are saved under different paths. */
  lemma FramePathsDistinct(dest: string, i: nat, j: nat, ext: string)
    requires i != j
    ensures FramePath(dest, i, ext) != FramePath(dest, j, ext)
  {
    var stem := Stem(dest);
    if FramePath(dest, i, ext) == FramePath(dest, j, ext) {
      FrameNameRelative(stem, i, ext);
      FrameNameRelative(stem, j, ext);
      JoinInjective(Dirname(dest), FrameName(stem, i, ext), FrameName(stem, j, ext));
      FrameNameInjective(stem, i, j, ext);
    }
  }

  const FrameGroups := "spr2image: frame groups are not supported"

  /** The frame loop: a picture per single frame, in sprite order; the first
      frame group aborts. */
  method Pictures(frames: seq<SprFrame>) returns (r: Result<seq<Picture>, string>)
    ensures r.Ok? <==> forall i :: 0 <= i < |frames| ==> frames[i].single
    ensures r.Err? ==> r.error == FrameGroups
    ensures r.Ok? ==> |r.value| == |frames| && forall i :: 0 <= i < |frames| ==> r.value[i] == PictureOf(frames[i])
  {
    var images: seq<Picture> := [];
    for k := 0 to |frames|
      invariant |images| == k
      invariant forall i :: 0 <= i < k ==> frames[i].single && images[i] == PictureOf(frames[i])
    {
      if !frames[k].single {
        return Err(FrameGroups);
      }
      images := images + [Picture(frames[k].width, frames[k].height, frames[k].pixels)];
    }
    return Ok(images);
  }

  /** The save loop for non-GIF output: frame i goes to `FramePath(dest, i, ext)`. */
  method SaveFrames(images: seq<Picture>, dest: string, ext: string) returns (files: seq<(string, Picture)>)
    ensures |files| == |images|
    ensures forall i :: 0 <= i < |images| ==> files[i] == (FramePath(dest, i, ext), images[i])
    ensures forall i, j :: 0 <= i < j < |files| ==> files[i].0 != files[j].0
  {
    files := [];
    var directory := Dirname(dest);
    var name := Stem(dest);
    for k := 0 to |images|
      invariant |files| == k
      invariant forall i :: 0 <= i < k ==> files[i] == (FramePath(dest, i, ext), images[i])
    {
      var filename := name + "_" + NatToString(k) + "." + ext;
      files := files + [(Join(directory, filename), images[k])];
    }
    forall i, j | 0 <= i < j < |files|
      ensures files[i].0 != files[j].0
    {
      FramePathsDistinct(dest, i, j, ext);
    }
  }

  /** `main` after argument parsing. `isSprite` is the sprite-file test;
      `frames` are the sprite's frames; stdout and stderr lines are kept
      together in `messages`. */
  function Announce(file: string, quiet: bool): seq<string> {
    if quiet then [] else ["Converting: " + Basename(file)]
  }

  predicate AllSingle(frames: seq<SprFrame>) {
    forall i :: 0 <= i < |frames| ==> frames[i].single
  }

  method Run(file: string, isSprite: bool, dest: string, cwd: string, quiet: bool, frames: seq<SprFrame>)
    returns (outcome: Outcome)
    ensures !isSprite ==> outcome == Outcome(["spr2image: cannot find or open " + file], None, 1)
    ensures isSprite && !AllSingle(frames) ==>
              outcome == Outcome(Announce(file, quiet) + [FrameGroups], None, 1)
    ensures isSprite && AllSingle(frames) ==>
              outcome.messages == Announce(file, quiet) &&
              (outcome.exitCode == 0 <==> outcome.saved.Some?) &&
              (outcome.saved.None? <==> IsGif(Extension(Dest(file, dest, cwd))) && |frames| == 0)
    ensures isSprite && AllSingle(frames) && IsGif(Extension(Dest(file, dest, cwd))) && |frames| > 0 ==>
              outcome.saved.Some? && outcome.saved.value.Gif? &&
              var g := outcome.saved.value;
              g.path == Dest(file, dest, cwd) && g.first == PictureOf(frames[0]) &&
              g.duration == DefaultDuration && g.loops == 0 &&
              |g.rest| == |frames| - 1 && forall i :: 0 <= i < |g.rest| ==> g.rest[i] == PictureOf(frames[i + 1])
    ensures isSprite && AllSingle(frames) && !IsGif(Extension(Dest(file, dest, cwd))) ==>
              outcome.saved.Some? && outcome.saved.value.Files? &&
              var d := Dest(file, dest, cwd);
              var files := outcome.saved.value.files;
              |files| == |frames| &&
              forall i :: 0 <= i < |frames| ==> files[i] == (FramePath(d, i, Extension(d)), PictureOf(frames[i]))
  {
    if !isSprite {
      return Outcome(["spr2image: cannot find or open " + file], None, 1);
    }
    var d := Dest(file, dest, cwd);
    var ext := Extension(d);
    var messages := Announce(file, quiet);
    var images := Pictures(frames);
    if images.Err? {
      return Outcome(messages + [FrameGroups], None, 1);
    }
    var pictures := images.value;
    if IsGif(ext) {
      if |pictures| == 0 {
        // `images[0]` raises IndexError
        return Outcome(messages, None, 1);
      }
      var rest := pictures[1..];
      outcome := Outcome(messages, Some(Gif(d, pictures[0], rest, DefaultDuration, 0)), 0);
    } else {
      var files := SaveFrames(pictures, d, ext);
      outcome := Outcome(messages, Some(Files(files)), 0);
    }
  }
}
