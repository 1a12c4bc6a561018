/** The `image2spr` command: decompose image files into frames, bring every
    frame onto Quake's palette, pad the frames to a common canvas and lay
    them out as one sprite. What the imaging library does to pixels
    (alpha masking, quantizing) is a pair of function parameters; the palette
    patch, the padding geometry, the sizes and the frame layout are modelled. */
module Image2SprCli {
  import opened Results

  type Byte = bv8

  /** A 256-colour palette as 768 channel bytes. */
  type QuakePalette = p: seq<Byte> | |p| == 768 witness seq(768, _ => 0)

  /** The last colour of Quake's palette, the one sprites draw as transparent. */
  function LastColour(quake: QuakePalette): seq<Byte> {
    quake[765..]
  }

  /** The imaging library as far as this command uses it. */
  datatype Imaging = Imaging(
    quake: QuakePalette,
    // a frame that is not palette-indexed: its data, with alpha <= 128 set to
    // the transparent colour, quantized onto Quake's palette
    toQuake: seq<Byte> -> seq<Byte>,
    // indexed data of the given size, drawn with the given palette, converted
    // to RGB and quantized onto Quake's palette
    requantize: (nat, nat, seq<Byte>, seq<Byte>) -> seq<Byte>)

  // ---------------------------------------------------------------------
  // The palette patch

  /** Python's `l[a:b] = v`: both bounds are clamped to the list, and a
      reversed range inserts at `a`. */
  function SliceAssign<T>(l: seq<T>, a: nat, b: nat, v: seq<T>): seq<T> {
    var lo := if a <= |l| then a else |l|;
    var hi := if b <= |l| then (if b >= lo then b else lo) else |l|;
    l[..lo] + v + l[hi..]
  }

  /** Inside the list, assigning a slice of its own length overwrites
      exactly that slice. */
  lemma SliceAssignInside<T>(l: seq<T>, a: nat, v: seq<T>)
    requires a + |v| <= |l|
    ensures var r := SliceAssign(l, a, a + |v|, v);
            |r| == |l| && forall i :: 0 <= i < |l| ==> r[i] == if a <= i < a + |v| then v[i - a] else l[i]
  {
  }

  /** Past the end of the list, the assignment appends. */
  lemma SliceAssignPastEnd<T>(l: seq<T>, a: nat, b: nat, v: seq<T>)
    requires |l| <= a
    ensures SliceAssign(l, a, b, v) == l + v
  {
    assert l[..|l|] == l;
  }

  /** Python truthiness of a transparency index: `None` and 0 are false. */
  predicate Truthy(t: Option<nat>) {
    t.Some? && t.value != 0
  }

  /** The palette after both patches: the local transparency slot first,
      then the global one when it is set and differs from the local one. */
  function PatchedPalette(p: seq<Byte>, local: Option<nat>, global: Option<nat>, colour: seq<Byte>): seq<Byte> {
    var once := LocalPatched(p, local, colour);
    if Truthy(global) && global != local then SliceAssign(once, 3 * global.value, 3 * global.value + 3, colour) else once
  }

  /** The palette after the first patch, of the frame's own slot. */
  function LocalPatched(p: seq<Byte>, local: Option<nat>, colour: seq<Byte>): seq<Byte> {
    if Truthy(local) then SliceAssign(p, 3 * local.value, 3 * local.value + 3, colour) else p
  }

  /** Whether palette entry i belongs to a slot that is patched. */
  predicate Patched(i: nat, local: Option<nat>, global: Option<nat>) {
    (Truthy(local) && i / 3 == local.value) || (Truthy(global) && global != local && i / 3 == global.value)
  }

  /** The slice-assigning method, with the palette as a list reassigned in
      place. */
  method PatchPalette(palette: seq<Byte>, local: Option<nat>, global: Option<nat>, colour: seq<Byte>) returns (patched: seq<Byte>)
    requires |colour| == 3
    ensures patched == PatchedPalette(palette, local, global, colour)
    ensures (Truthy(local) ==> 3 * local.value + 3 <= |palette|) && (Truthy(global) ==> 3 * global.value + 3 <= |palette|) ==>
              |patched| == |palette| &&
              forall i :: 0 <= i < |palette| ==> patched[i] == if Patched(i, local, global) then colour[i % 3] else palette[i]
  {
    patched := palette;
    if Truthy(local) {
      patched := SliceAssign(patched, 3 * local.value, 3 * local.value + 3, colour);
    }
    if Truthy(global) && global != local {
      patched := SliceAssign(patched, 3 * global.value, 3 * global.value + 3, colour);
    }
    PatchedSlots(palette, local, global, colour);
  }

  /** For slots inside the palette, exactly the entries of the patched
      slots take the transparent colour and every other entry is kept. */
  lemma PatchedSlots(p: seq<Byte>, local: Option<nat>, global: Option<nat>, colour: seq<Byte>)
    requires |colour| == 3
    ensures var r := PatchedPalette(p, local, global, colour);
            (Truthy(local) ==> 3 * local.value + 3 <= |p|) && (Truthy(global) ==> 3 * global.value + 3 <= |p|) ==>
              |r| == |p| &&
              forall i :: 0 <= i < |p| ==> r[i] == if Patched(i, local, global) then colour[i % 3] else p[i]
  {
    if (Truthy(local) ==> 3 * local.value + 3 <= |p|) && (Truthy(global) ==> 3 * global.value + 3 <= |p|) {
      LocalSlots(p, local, colour);
      GlobalSlots(p, LocalPatched(p, local, colour), local, global, colour);
    }
  }

  lemma LocalSlots(p: seq<Byte>, local: Option<nat>, colour: seq<Byte>)
    requires |colour| == 3 && (Truthy(local) ==> 3 * local.value + 3 <= |p|)
    ensures var once := LocalPatched(p, local, colour);
            |once| == |p| &&
            forall i :: 0 <= i < |p| ==> once[i] == if Truthy(local) && i / 3 == local.value then colour[i % 3] else p[i]
  {
    if Truthy(local) {
      PatchSlot(p, local.value, colour);
    }
  }

  lemma GlobalSlots(p: seq<Byte>, once: seq<Byte>, local: Option<nat>, global: Option<nat>, colour: seq<Byte>)
    requires |colour| == 3 && (Truthy(global) ==> 3 * global.value + 3 <= |p|)
    requires once == LocalPatched(p, local, colour) && |once| == |p|
    requires forall i :: 0 <= i < |p| ==> once[i] == if Truthy(local) && i / 3 == local.value then colour[i % 3] else p[i]
    ensures var r := PatchedPalette(p, local, global, colour);
            |r| == |p| &&
            forall i :: 0 <= i < |p| ==> r[i] == if Patched(i, local, global) then colour[i % 3] else p[i]
  {
    if Truthy(global) && global != local {
      PatchSlot(once, global.value, colour);
    }
  }

  /** Patching slot t overwrites entries 3t, 3t+1, 3t+2 and no other. */
  lemma PatchSlot(p: seq<Byte>, t: nat, colour: seq<Byte>)
    requires |colour| == 3 && 3 * t + 3 <= |p|
    ensures var r := SliceAssign(p, 3 * t, 3 * t + 3, colour);
            |r| == |p| && forall i :: 0 <= i < |p| ==> r[i] == if i / 3 == t then colour[i % 3] else p[i]
  {
    SliceAssignInside(p, 3 * t, colour);
    assert forall i :: 0 <= i < |p| ==> (3 * t <= i < 3 * t + 3 <==> i / 3 == t);
    assert forall i :: 3 * t <= i < 3 * t + 3 ==> i - 3 * t == i % 3;
  }

  /** Index 0 is falsy, so a transparency of 0 is never patched. */
  lemma ZeroNeverPatched(p: seq<Byte>, colour: seq<Byte>)
    ensures PatchedPalette(p, Some(0), Some(0), colour) == p
    ensures PatchedPalette(p, None, Some(0), colour) == p
  {
  }

  /** A frame already quantized onto Quake's palette, with transparency 255,
      keeps that palette through the patch. */
  lemma QuakePaletteUnchanged(quake: QuakePalette)
    ensures PatchedPalette(quake, Some(255), None, LastColour(quake)) == quake
    ensures PatchedPalette(quake, Some(255), Some(255), LastColour(quake)) == quake
  {
    assert quake[..765] + LastColour(quake) + quake[768..] == quake;
  }

  // ---------------------------------------------------------------------
  // Sources and their frames

  /** One frame of a source file, as the imaging library presents it. */
  datatype Frame = Frame(indexed: bool, palette: seq<Byte>, transparency: Option<nat>, data: seq<Byte>)

  /** A source argument: a path that does not exist, a file the imaging
      library cannot open (`Image.open` raises and the run ends), or an
      image file whose size and global transparency are read when it is
      opened. */
  datatype Source =
    | Missing(path: string)
    | Unopenable(path: string)
    | Present(path: string, width: nat, height: nat, transparency: Option<nat>, frames: seq<Frame>)

  /** A frame ready for the sprite: a size and Quake palette indices. */
  datatype Image = Image(width: nat, height: nat, pixels: seq<Byte>)

  predicate WellFormed(img: Image) {
    |img.pixels| == img.width * img.height
  }

  /** A frame that is not indexed is first masked and quantized onto
      Quake's palette, with transparency 255. */
  function Indexed(f: Frame, im: Imaging): Frame {
    if f.indexed then f else Frame(true, im.quake, Some(255), im.toQuake(f.data))
  }

  /** The image made from one frame, at the file's size. */
  function SubImage(w: nat, h: nat, global: Option<nat>, f: Frame, im: Imaging): Image {
    var g := Indexed(f, im);
    Image(w, h, im.requantize(w, h, g.data, PatchedPalette(g.palette, g.transparency, global, LastColour(im.quake))))
  }

  /** The images one file yields. Converting a non-indexed frame replaces
      the file by a one-frame image, so the next seek ends the file: frames
      are taken up to and including the first non-indexed one. */
  function FrameImages(w: nat, h: nat, global: Option<nat>, frames: seq<Frame>, im: Imaging): seq<Image> {
    if |frames| == 0 then []
    else [SubImage(w, h, global, frames[0], im)] + (if frames[0].indexed then FrameImages(w, h, global, frames[1..], im) else [])
  }

  /** The i-th image is made from the i-th frame; every frame is taken
      exactly when no frame but the last is non-indexed, and a non-indexed
      frame is always the last one taken. */
  lemma {:induction false} FrameImagesTaken(w: nat, h: nat, global: Option<nat>, frames: seq<Frame>, im: Imaging)
    ensures var r := FrameImages(w, h, global, frames, im);
            |r| <= |frames| &&
            (forall i :: 0 <= i < |r| ==> r[i] == SubImage(w, h, global, frames[i], im)) &&
            (forall i :: 0 <= i < |r| - 1 ==> frames[i].indexed) &&
            (|r| == |frames| <==> forall i :: 0 <= i < |frames| - 1 ==> frames[i].indexed) &&
            (|frames| > 0 ==> |r| > 0)
    decreases |frames|
  {
    if |frames| > 0 && frames[0].indexed {
      FrameImagesTaken(w, h, global, frames[1..], im);
      var rest := FrameImages(w, h, global, frames[1..], im);
      assert forall i :: 1 <= i < |frames| ==> frames[1..][i - 1] == frames[i];
      if forall i :: 0 <= i < |frames| - 1 ==> frames[i].indexed {
        assert forall i :: 0 <= i < |frames[1..]| - 1 ==> frames[1..][i].indexed;
      }
    }
  }

  function SourceImages(s: Source, im: Imaging): seq<Image> {
    if !s.Present? then [] else FrameImages(s.width, s.height, s.transparency, s.frames, im)
  }

  /** The images of all sources, in argument order. */
  function AllImages(sources: seq<Source>, im: Imaging): seq<Image> {
    if |sources| == 0 then []
    else AllImages(sources[..|sources| - 1], im) + SourceImages(sources[|sources| - 1], im)
  }

  function CannotOpen(path: string): string {
    "image2spr: cannot find or open " + path
  }

  const NoImages := "image2spr: no usable source images given"

  /** One message per missing source, in argument order. */
  function MissingMessages(sources: seq<Source>): seq<string> {
    if |sources| == 0 then []
    else MissingMessages(sources[..|sources| - 1]) + (if sources[|sources| - 1].Missing? then [CannotOpen(sources[|sources| - 1].path)] else [])
  }

  /** The `size` variable after the source loop: the size of the last
      source that exists. */
  function LastSize(sources: seq<Source>): Option<(nat, nat)> {
    if |sources| == 0 then None
    else if sources[|sources| - 1].Present? then Some((sources[|sources| - 1].width, sources[|sources| - 1].height))
    else LastSize(sources[..|sources| - 1])
  }

  /** The position of the first source that cannot be opened, or the
      number of sources when every one can. */
  function FirstUnopenable(sources: seq<Source>): (n: nat)
    ensures n <= |sources|
    ensures forall i :: 0 <= i < n ==> !sources[i].Unopenable?
    ensures n < |sources| ==> sources[n].Unopenable?
  {
    if |sources| == 0 || sources[0].Unopenable? then 0
    else
      assert forall i :: 1 <= i < |sources| ==> sources[1..][i - 1] == sources[i];
      1 + FirstUnopenable(sources[1..])
  }

  predicate AllOpenable(sources: seq<Source>) {
    forall i :: 0 <= i < |sources| ==> !sources[i].Unopenable?
  }

  /** A missing source adds nothing but its message: dropping it leaves the
      images and the size as they were. */
  lemma {:induction false} MissingSkipped(before: seq<Source>, path: string, after: seq<Source>, im: Imaging)
    ensures AllImages(before + [Missing(path)] + after, im) == AllImages(before + after, im)
    ensures LastSize(before + [Missing(path)] + after) == LastSize(before + after)
    decreases |after|
  {
    var front := before + [Missing(path)];
    var w, wo := front + after, before + after;
    if |after| == 0 {
      assert w == front && wo == before;
      assert front[..|front| - 1] == before;
      assert AllImages(w, im) == AllImages(before, im) + SourceImages(Missing(path), im);
      assert LastSize(w) == LastSize(before);
    } else {
      var rest := after[..|after| - 1];
      var last := after[|after| - 1];
      MissingSkipped(before, path, rest, im);
      DropLast(front, after);
      DropLast(before, after);
      assert AllImages(w, im) == AllImages(front + rest, im) + SourceImages(last, im);
      assert AllImages(wo, im) == AllImages(before + rest, im) + SourceImages(last, im);
      assert LastSize(w) == if last.Present? then Some((last.width, last.height)) else LastSize(front + rest);
      assert LastSize(wo) == if last.Present? then Some((last.width, last.height)) else LastSize(before + rest);
    }
  }

  /** The last element of a concatenation comes from its second part. */
  lemma DropLast<T>(a: seq<T>, b: seq<T>)
    requires |b| > 0
    ensures (a + b)[..|a + b| - 1] == a + b[..|b| - 1]
    ensures (a + b)[|a + b| - 1] == b[|b| - 1]
  {
  }

  /** The messages of a concatenation are the messages of its parts. */
  lemma {:induction false} MissingMessagesAppend(a: seq<Source>, b: seq<Source>)
    ensures MissingMessages(a + b) == MissingMessages(a) + MissingMessages(b)
    decreases |b|
  {
    if |b| > 0 {
      var front := b[..|b| - 1];
      MissingMessagesAppend(a, front);
      assert (a + b)[..|a + b| - 1] == a + front;
      assert (a + b)[|a + b| - 1] == b[|b| - 1];
    } else {
      assert a + b == a;
    }
  }

  /** Images come only from existing sources, so there is then a size. */
  lemma {:induction false} ImagesHaveSize(sources: seq<Source>, im: Imaging)
    ensures |AllImages(sources, im)| > 0 ==> LastSize(sources).Some?
    decreases |sources|
  {
    if |sources| > 0 {
      ImagesHaveSize(sources[..|sources| - 1], im);
    }
  }

  /** The images of one source, frame by frame. */
  method Decompose(s: Source, im: Imaging) returns (images: seq<Image>)
    requires s.Present?
    ensures images == SourceImages(s, im)
  {
    images := [];
    var k := 0;
    while k < |s.frames|
      invariant 0 <= k <= |s.frames|
      invariant images + FrameImages(s.width, s.height, s.transparency, s.frames[k..], im)
                == FrameImages(s.width, s.height, s.transparency, s.frames, im)
    {
      var sub := FrameImage(s.width, s.height, s.transparency, s.frames[k], im);
      FrameImagesStep(s.width, s.height, s.transparency, s.frames, k, im);
      ghost var rest := FrameImages(s.width, s.height, s.transparency, s.frames[k + 1..], im);
      assert (images + [sub]) + rest == images + ([sub] + rest);
      images := images + [sub];
      if !s.frames[k].indexed {
        assert images + [] == images;
        return;
      }
      k := k + 1;
    }
    assert s.frames[k..] == [];
    assert images + [] == images;
  }

  /** One frame: converted to the Quake palette unless indexed, its
      palette patched, then requantized. */
  method FrameImage(w: nat, h: nat, global: Option<nat>, f: Frame, im: Imaging) returns (sub: Image)
    ensures sub == SubImage(w, h, global, f, im)
  {
    var g := f;
    if !g.indexed {
      g := Frame(true, im.quake, Some(255), im.toQuake(g.data));
    }
    var palette := PatchPalette(g.palette, g.transparency, global, LastColour(im.quake));
    sub := Image(w, h, im.requantize(w, h, g.data, palette));
  }

  lemma FrameImagesStep(w: nat, h: nat, global: Option<nat>, frames: seq<Frame>, k: nat, im: Imaging)
    requires k < |frames|
    ensures FrameImages(w, h, global, frames[k..], im)
            == [SubImage(w, h, global, frames[k], im)] + (if frames[k].indexed then FrameImages(w, h, global, frames[k + 1..], im) else [])
  {
    assert frames[k..][0] == frames[k];
    assert frames[k..][1..] == frames[k + 1..];
  }

  /** The source loop: skip missing files with a message, decompose the
      others, and remember the size of the last one opened; a file that
      cannot be opened ends the loop (`complete` is then false) with the
      sources before it handled. */
  method CollectImages(sources: seq<Source>, im: Imaging)
    returns (images: seq<Image>, messages: seq<string>, size: Option<(nat, nat)>, complete: bool)
    ensures complete <==> AllOpenable(sources)
    ensures var done := sources[..FirstUnopenable(sources)];
            images == AllImages(done, im) && messages == MissingMessages(done) && size == LastSize(done)
  {
    images, messages, size := [], [], None;
    for k := 0 to |sources|
      invariant k <= FirstUnopenable(sources)
      invariant images == AllImages(sources[..k], im)
      invariant messages == MissingMessages(sources[..k])
      invariant size == LastSize(sources[..k])
    {
      assert sources[..k + 1][..k] == sources[..k];
      var s := sources[k];
      if s.Unopenable? {
        return images, messages, size, false;
      }
      if s.Missing? {
        messages := messages + [CannotOpen(s.path)];
        continue;
      }
      size := Some((s.width, s.height));
      var frames := Decompose(s, im);
      images := images + frames;
    }
    assert sources[..|sources|] == sources;
    complete := true;
  }

  // ---------------------------------------------------------------------
  // Normalizing sizes

  /** The size test as written compares each size's width, an int, with the
      whole size, a tuple; Python's `==` between the two is false. */
  datatype PyValue = PyInt(n: int) | PyPair(first: int, second: int)

  function Sizes(images: seq<Image>): seq<(nat, nat)> {
    seq(|images|, i requires 0 <= i < |images| => (images[i].width, images[i].height))
  }

  predicate SameSizeTest(sizes: seq<(nat, nat)>) {
    forall i :: 0 <= i < |sizes| ==> PyInt(sizes[i].0) == PyPair(sizes[i].0, sizes[i].1)
  }

  /** The test fails for every non-empty list, equal sizes included. */
  lemma SameSizeTestAlwaysFalse(sizes: seq<(nat, nat)>)
    requires |sizes| > 0
    ensures !SameSizeTest(sizes)
  {
    assert PyInt(sizes[0].0) != PyPair(sizes[0].0, sizes[0].1);
  }

  function Widths(images: seq<Image>): seq<nat> {
    seq(|images|, i requires 0 <= i < |images| => images[i].width)
  }

  function Heights(images: seq<Image>): seq<nat> {
    seq(|images|, i requires 0 <= i < |images| => images[i].height)
  }

  /** Python's `max` of a non-empty list, 0 for the empty one. */
  function MaxOf(s: seq<nat>): (m: nat)
    ensures forall i :: 0 <= i < |s| ==> s[i] <= m
    ensures |s| > 0 ==> exists i :: 0 <= i < |s| && s[i] == m
    ensures |s| == 0 ==> m == 0
  {
    if |s| == 0 then 0
    else
      var m := MaxOf(s[..|s| - 1]);
      assert forall i :: 0 <= i < |s| - 1 ==> s[..|s| - 1][i] == s[i];
      if s[|s| - 1] > m then s[|s| - 1] else m
  }

  /** A pixel of an image at column x, row y (255 off the image). */
  function Pixel(img: Image, x: nat, y: nat): Byte {
    if x < img.width && y * img.width + x < |img.pixels| then img.pixels[y * img.width + x] else 255
  }

  /** Pixel i of a W-wide canvas filled with 255 onto which `img` is pasted
      with its top-left corner at column x0, row y0, clipped to the canvas. */
  function CanvasPixel(W: nat, img: Image, x0: nat, y0: nat, i: nat): Byte {
    if W == 0 then 255
    else
      var x := i % W;
      var y := i / W;
      if x0 <= x < x0 + img.width && y0 <= y < y0 + img.height then Pixel(img, x - x0, y - y0) else 255
  }

  function Paste(W: nat, H: nat, img: Image, x0: nat, y0: nat): (r: seq<Byte>)
    ensures |r| == W * H
  {
    seq(W * H, i requires 0 <= i < W * H => CanvasPixel(W, img, x0, y0, i))
  }

  lemma {:induction false} MulLe(a: int, b: int, c: nat)
    requires a <= b
    ensures a * c <= b * c
    decreases c
  {
    if c > 0 {
      MulLe(a, b, c - 1);
      assert a * c == a * (c - 1) + a && b * c == b * (c - 1) + b;
    }
  }

  /** Row-major indexing: column X of row Y of a W-wide canvas. */
  lemma RowMajor(W: nat, H: nat, X: nat, Y: nat)
    requires X < W && Y < H
    ensures Y * W + X < W * H
    ensures (Y * W + X) / W == Y && (Y * W + X) % W == X
  {
    MulLe(Y + 1, H, W);
    assert (Y + 1) * W == Y * W + W;
    var i := Y * W + X;
    var q, r := i / W, i % W;
    assert q * W + r == i && 0 <= r < W;
    if q > Y {
      MulLe(Y + 1, q, W);
    } else if q < Y {
      MulLe(q + 1, Y, W);
    }
  }

  /** The pasted canvas, pixel by pixel: the image inside its box, 255
      elsewhere. */
  lemma PastePixels(W: nat, H: nat, img: Image, x0: nat, y0: nat, X: nat, Y: nat)
    requires X < W && Y < H
    ensures Pixel(Image(W, H, Paste(W, H, img, x0, y0)), X, Y)
            == if x0 <= X < x0 + img.width && y0 <= Y < y0 + img.height then Pixel(img, X - x0, Y - y0) else 255
  {
    RowMajor(W, H, X, Y);
  }

  /** The intended padding: the image centred on a W by H canvas, with the
      box given as (left, upper) the way the imaging library reads it. */
  function PadImage(img: Image, W: nat, H: nat): (r: Image)
    requires img.width <= W && img.height <= H
    ensures r.width == W && r.height == H && WellFormed(r)
  {
    Image(W, H, Paste(W, H, img, (W - img.width) / 2, (H - img.height) / 2))
  }

  /** The padding as written: the box is the pair (top, left), which the
      imaging library reads as column `top`, row `left`. */
  function PadImageAsWritten(img: Image, W: nat, H: nat): (r: Image)
    requires img.width <= W && img.height <= H
    ensures r.width == W && r.height == H && WellFormed(r)
  {
    Image(W, H, Paste(W, H, img, (H - img.height) / 2, (W - img.width) / 2))
  }

  /** The padding as written puts the image's left edge at the vertical
      offset and its top edge at the horizontal one; what falls outside
      the canvas is lost. */
  lemma PadAsWrittenPixels(img: Image, W: nat, H: nat, X: nat, Y: nat)
    requires img.width <= W && img.height <= H
    requires X < W && Y < H
    ensures var left := (W - img.width) / 2;
            var top := (H - img.height) / 2;
            Pixel(PadImageAsWritten(img, W, H), X, Y)
            == if top <= X < top + img.width && left <= Y < left + img.height then Pixel(img, X - top, Y - left) else 255
  {
    PastePixels(W, H, img, (H - img.height) / 2, (W - img.width) / 2, X, Y);
  }

  /** The offsets are non-negative and centre the image, any odd pixel of
      slack going to the right and bottom. */
  lemma PadOffsets(img: Image, W: nat, H: nat)
    requires img.width <= W && img.height <= H
    ensures var left := (W - img.width) / 2;
            var top := (H - img.height) / 2;
            0 <= left && 0 <= top &&
            0 <= (W - img.width - left) - left <= 1 && 0 <= (H - img.height - top) - top <= 1
  {
  }

  /** The intended padding keeps every pixel of the image at its centred
      place and fills the rest with 255. */
  lemma PadImagePixels(img: Image, W: nat, H: nat, X: nat, Y: nat)
    requires img.width <= W && img.height <= H
    requires X < W && Y < H
    ensures var left := (W - img.width) / 2;
            var top := (H - img.height) / 2;
            Pixel(PadImage(img, W, H), X, Y)
            == if left <= X < left + img.width && top <= Y < top + img.height then Pixel(img, X - left, Y - top) else 255
  {
    PastePixels(W, H, img, (W - img.width) / 2, (H - img.height) / 2, X, Y);
  }

  /** Padding an image that already has the canvas size changes nothing. */
  lemma PadSameSize(img: Image)
    requires WellFormed(img)
    ensures PadImage(img, img.width, img.height) == img
  {
    var W, H := img.width, img.height;
    var r := PadImage(img, W, H);
    forall i | 0 <= i < W * H
      ensures r.pixels[i] == img.pixels[i]
    {
      assert W > 0;
      var X, Y := i % W, i / W;
      assert Y * W + X == i;
      assert Y < H;
    }
  }

  /** Padding every image to the canvas; `asWritten` selects the swapped box. */
  function PadAll(images: seq<Image>, W: nat, H: nat, asWritten: bool): (r: seq<Image>)
    requires forall i :: 0 <= i < |images| ==> images[i].width <= W && images[i].height <= H
  {
    seq(|images|, i requires 0 <= i < |images| =>
      if asWritten then PadImageAsWritten(images[i], W, H) else PadImage(images[i], W, H))
  }

  /** Lines 147-167: several images are always padded to the largest width
      and height, since the size test never holds. */
  function Normalized(images: seq<Image>, asWritten: bool): (r: seq<Image>)
    ensures |r| == |images|
  {
    if |images| > 1 && !SameSizeTest(Sizes(images)) then
      var W, H := MaxOf(Widths(images)), MaxOf(Heights(images));
      assert forall i :: 0 <= i < |images| ==> Widths(images)[i] == images[i].width && Heights(images)[i] == images[i].height;
      PadAll(images, W, H, asWritten)
    else images
  }

  /** Equal-size images come out of the (always taken) padding unchanged,
      so the failing size test does no harm to them. */
  lemma EqualSizesUnchanged(images: seq<Image>)
    requires forall i :: 0 <= i < |images| ==> WellFormed(images[i])
    requires forall i :: 0 <= i < |images| ==> images[i].width == images[0].width && images[i].height == images[0].height
    ensures Normalized(images, false) == images
  {
    if |images| > 1 {
      var W, H := MaxOf(Widths(images)), MaxOf(Heights(images));
      assert Widths(images)[0] == images[0].width && Heights(images)[0] == images[0].height;
      var a :| 0 <= a < |images| && Widths(images)[a] == W;
      var b :| 0 <= b < |images| && Heights(images)[b] == H;
      assert W == images[0].width && H == images[0].height;
      SameSizeTestAlwaysFalse(Sizes(images));
      forall i | 0 <= i < |images|
        ensures Normalized(images, false)[i] == images[i]
      {
        PadSameSize(images[i]);
      }
    }
  }

  /** The padding loop. */
  method Pad(images: seq<Image>, W: nat, H: nat) returns (padded: seq<Image>)
    requires forall i :: 0 <= i < |images| ==> images[i].width <= W && images[i].height <= H
    ensures padded == PadAll(images, W, H, false)
  {
    padded := [];
    for k := 0 to |images|
      invariant |padded| == k
      invariant forall i :: 0 <= i < k ==> padded[i] == PadImage(images[i], W, H)
    {
      var top := (H - images[k].height) / 2;
      var left := (W - images[k].width) / 2;
      var canvas := Image(W, H, Paste(W, H, images[k], left, top));
      padded := padded + [canvas];
    }
  }

  // ---------------------------------------------------------------------
  // The sprite

  datatype SpriteFrame = SpriteFrame(width: nat, height: nat, origin: (int, int), pixels: seq<Byte>)

  datatype Sprite = Sprite(width: nat, height: nat, frameCount: nat, spriteType: int, frames: seq<SpriteFrame>)

  /** The origin `(-w // 2, h // 2)`: unary minus binds first, and the
      division floors, so an odd width rounds the x origin down. */
  function Origin(w: nat, h: nat): (o: (int, int))
    ensures 2 * o.0 <= -(w as int) < 2 * o.0 + 2
    ensures 2 * o.1 <= h < 2 * o.1 + 2
  {
    // Dafny's division by a positive divisor floors, as Python's `//` does
    ((-(w as int)) / 2, h / 2)
  }

  lemma OddWidthOrigin()
    ensures Origin(3, 3) == (-2, 1)
  {
  }

  /** The frames, in image order, each unpacked as `w*h` bytes; the first
      image whose data is not that long raises `struct.error`. */
  function FramesOf(images: seq<Image>, w: nat, h: nat): (r: Option<seq<SpriteFrame>>)
    ensures r.Some? <==> forall i :: 0 <= i < |images| ==> |images[i].pixels| == w * h
    ensures r.Some? ==> (|r.value| == |images| &&
              forall i :: 0 <= i < |images| ==> r.value[i] == SpriteFrame(w, h, Origin(w, h), images[i].pixels))
  {
    if |images| == 0 then Some([])
    else
      var front := FramesOf(images[..|images| - 1], w, h);
      assert forall i :: 0 <= i < |images| - 1 ==> images[..|images| - 1][i] == images[i];
      var last := images[|images| - 1];
      if front.Some? && |last.pixels| == w * h then Some(front.value + [SpriteFrame(w, h, Origin(w, h), last.pixels)])
      else None
  }

  /** The sprite file: its size, the frame count, the type, the frames. */
  function SpriteOf(images: seq<Image>, w: nat, h: nat, spriteType: int): (r: Result<Sprite, string>)
    ensures r.Ok? <==> forall i :: 0 <= i < |images| ==> |images[i].pixels| == w * h
    ensures r.Ok? ==> (r.value.width == w && r.value.height == h && r.value.spriteType == spriteType &&
              r.value.frameCount == |images| == |r.value.frames| &&
              forall i :: 0 <= i < |images| ==>
                r.value.frames[i].width == w && r.value.frames[i].height == h &&
                r.value.frames[i].origin == Origin(w, h) && r.value.frames[i].pixels == images[i].pixels)
  {
    match FramesOf(images, w, h)
    case None => Err("struct.error")
    case Some(frames) => Ok(Sprite(w, h, |images|, spriteType, frames))
  }

  /** The frame loop of the `with` block. */
  method BuildSprite(images: seq<Image>, w: nat, h: nat, spriteType: int) returns (r: Result<Sprite, string>)
    ensures r == SpriteOf(images, w, h, spriteType)
  {
    var frames: seq<SpriteFrame> := [];
    for k := 0 to |images|
      invariant FramesOf(images[..k], w, h) == Some(frames)
    {
      assert images[..k + 1][..k] == images[..k];
      if |images[k].pixels| != w * h {
        assert !(forall i :: 0 <= i < |images| ==> |images[i].pixels| == w * h);
        return Err("struct.error");
      }
      frames := frames + [SpriteFrame(w, h, Origin(w, h), images[k].pixels)];
    }
    assert images[..|images|] == images;
    r := Ok(Sprite(w, h, |images|, spriteType, frames));
  }

  // ---------------------------------------------------------------------
  // A whole run

  /** The messages printed, the sprite written (None when nothing is
      written or the frame loop raises) and the exit status. */
  datatype Outcome = Outcome(messages: seq<string>, sprite: Option<Sprite>, exitCode: int)

  function Finish(messages: seq<string>, padded: seq<Image>, w: nat, h: nat, spriteType: int): Outcome {
    match SpriteOf(padded, w, h, spriteType)
    case Ok(s) => Outcome(messages, Some(s), 0)
    case Err(_) => Outcome(messages, None, 1)
  }

  /** The run as intended: centred padding and the canvas size (largest
      width and height) for the sprite and its frames. */
  function Converted(sources: seq<Source>, spriteType: int, im: Imaging): (r: Outcome)
    ensures r.sprite.Some? <==> r.exitCode == 0
    ensures r.exitCode == 0 || r.exitCode == 1
    ensures r.sprite.Some? ==>
              AllOpenable(sources) && r.messages == MissingMessages(sources) &&
              var images := AllImages(sources, im);
              |images| > 0 && r.sprite.value.frameCount == |images| &&
              r.sprite.value.width == MaxOf(Widths(images)) && r.sprite.value.height == MaxOf(Heights(images))
  {
    var n := FirstUnopenable(sources);
    if n < |sources| then Outcome(MissingMessages(sources[..n]), None, 1)
    else
    var images := AllImages(sources, im);
    var messages := MissingMessages(sources);
    if |images| == 0 then Outcome(messages + [NoImages], None, 1)
    else Finish(messages, Normalized(images, false), MaxOf(Widths(images)), MaxOf(Heights(images)), spriteType)
  }

  /** The run as written: the swapped paste box, and the sprite and frame
      size taken from `size`, the last source file opened. */
  function ConvertedAsWritten(sources: seq<Source>, spriteType: int, im: Imaging): (r: Outcome)
    ensures r.sprite.Some? <==> r.exitCode == 0
    ensures r.exitCode == 0 || r.exitCode == 1
    ensures r.sprite.Some? ==>
              AllOpenable(sources) && r.messages == MissingMessages(sources) &&
              var images := AllImages(sources, im);
              |images| > 0 && r.sprite.value.frameCount == |images| &&
              LastSize(sources) == Some((r.sprite.value.width, r.sprite.value.height))
  {
    var n := FirstUnopenable(sources);
    if n < |sources| then Outcome(MissingMessages(sources[..n]), None, 1)
    else
    var images := AllImages(sources, im);
    var messages := MissingMessages(sources);
    if |images| == 0 then Outcome(messages + [NoImages], None, 1)
    else
      ImagesHaveSize(sources, im);
      var size := LastSize(sources).value;
      Finish(messages, Normalized(images, true), size.0, size.1, spriteType)
  }

  /** `main` after argument parsing, with the intended padding and size. */
  method Run(sources: seq<Source>, spriteType: int, im: Imaging) returns (outcome: Outcome)
    ensures outcome == Converted(sources, spriteType, im)
  {
    var images, messages, size, complete := CollectImages(sources, im);
    if !complete {
      return Outcome(messages, None, 1);
    }
    assert sources[..FirstUnopenable(sources)] == sources;
    if |images| == 0 {
      return Outcome(messages + [NoImages], None, 1);
    }
    var W, H := MaxOf(Widths(images)), MaxOf(Heights(images));
    var padded := images;
    if |images| > 1 {
      var sizes := Sizes(images);
      if !SameSizeTest(sizes) {
        assert forall i :: 0 <= i < |images| ==> Widths(images)[i] == images[i].width && Heights(images)[i] == images[i].height;
        padded := Pad(images, W, H);
      }
    }
    var sprite := BuildSprite(padded, W, H, spriteType);
    match sprite {
      case Ok(s) => outcome := Outcome(messages, Some(s), 0);
      case Err(_) => outcome := Outcome(messages, None, 1);
    }
  }

  /** A file that cannot be opened ends both runs with exit 1: the
      messages of the sources before it, and no sprite; nothing after it is
      read. */
  lemma UnopenableEndsRun(before: seq<Source>, path: string, after: seq<Source>, spriteType: int, im: Imaging)
    requires AllOpenable(before)
    ensures var sources := before + [Unopenable(path)] + after;
            Converted(sources, spriteType, im) == Outcome(MissingMessages(before), None, 1) &&
            ConvertedAsWritten(sources, spriteType, im) == Outcome(MissingMessages(before), None, 1)
  {
    var sources := before + [Unopenable(path)] + after;
    assert sources[|before|].Unopenable?;
    assert forall i :: 0 <= i < |before| ==> sources[i] == before[i];
    assert FirstUnopenable(sources) == |before|;
    assert sources[..|before|] == before;
  }

  /** With no usable image the run reports it and writes nothing. */
  lemma NoUsableImages(sources: seq<Source>, spriteType: int, im: Imaging)
    requires forall i :: 0 <= i < |sources| ==> sources[i].Missing?
    ensures Converted(sources, spriteType, im) == Outcome(MissingMessages(sources) + [NoImages], None, 1)
    ensures ConvertedAsWritten(sources, spriteType, im) == Outcome(MissingMessages(sources) + [NoImages], None, 1)
  {
    NoImagesFromMissing(sources, im);
  }

  lemma {:induction false} NoImagesFromMissing(sources: seq<Source>, im: Imaging)
    requires forall i :: 0 <= i < |sources| ==> sources[i].Missing?
    ensures AllImages(sources, im) == []
    decreases |sources|
  {
    if |sources| > 0 {
      NoImagesFromMissing(sources[..|sources| - 1], im);
    }
  }

  /** Several images: the intended run always writes the sprite, with one
      frame per image, all of the canvas size and sharing one origin. */
  lemma SeveralImagesWritten(sources: seq<Source>, spriteType: int, im: Imaging)
    requires AllOpenable(sources) && |AllImages(sources, im)| > 1
    ensures var images := AllImages(sources, im);
            var o := Converted(sources, spriteType, im);
            var W, H := MaxOf(Widths(images)), MaxOf(Heights(images));
            o.exitCode == 0 && o.sprite.Some? && o.messages == MissingMessages(sources) &&
            o.sprite.value.width == W && o.sprite.value.height == H &&
            o.sprite.value.frameCount == |images| == |o.sprite.value.frames| &&
            forall i :: 0 <= i < |images| ==>
              o.sprite.value.frames[i].width == W && o.sprite.value.frames[i].height == H &&
              o.sprite.value.frames[i].origin == Origin(W, H)
  {
    var images := AllImages(sources, im);
    SameSizeTestAlwaysFalse(Sizes(images));
    var padded := Normalized(images, false);
    assert forall i :: 0 <= i < |padded| ==> |padded[i].pixels| == MaxOf(Widths(images)) * MaxOf(Heights(images));
  }

  /** One image: the intended run writes it exactly when its data has the
      image's size, and the frame is then the image. */
  lemma OneImageWritten(sources: seq<Source>, spriteType: int, im: Imaging)
    requires AllOpenable(sources) && |AllImages(sources, im)| == 1
    ensures var img := AllImages(sources, im)[0];
            var o := Converted(sources, spriteType, im);
            (o.sprite.Some? <==> WellFormed(img)) &&
            (o.sprite.Some? ==> o.exitCode == 0 && o.sprite.value.frameCount == 1 &&
                                o.sprite.value.frames[0] == SpriteFrame(img.width, img.height, Origin(img.width, img.height), img.pixels))
  {
    var images := AllImages(sources, im);
    assert Widths(images) == [images[0].width] && Heights(images) == [images[0].height];
  }

  /** The swapped box, shown on a 1 by 3 column padded to a 3 by 3 canvas
      (beside a 3 by 1 row): the intended pasting puts the column's top
      pixel at column 1, row 0; as written that place stays blank. */
  lemma PasteBoxSwapped()
    ensures var column := Image(1, 3, [7, 7, 7]);
            Pixel(PadImage(column, 3, 3), 1, 0) == 7 &&
            Pixel(PadImageAsWritten(column, 3, 3), 1, 0) == 255
  {
    var column := Image(1, 3, [7, 7, 7]);
    PastePixels(3, 3, column, 1, 0, 1, 0);
    PastePixels(3, 3, column, 0, 1, 1, 0);
  }

  /** The size taken from the last source: a 4 by 4 source then a 2 by 2
      one. As written the frames are declared 2 by 2 while the padded data
      is 4 by 4, and unpacking raises; as intended a 4 by 4 sprite with two
      frames is written. */
  lemma LastSourceSize(f: Frame, spriteType: int, im: Imaging)
    ensures var sources := [Present("big.png", 4, 4, None, [f]), Present("small.png", 2, 2, None, [f])];
            ConvertedAsWritten(sources, spriteType, im) == Outcome([], None, 1) &&
            var o := Converted(sources, spriteType, im);
            o.exitCode == 0 && o.sprite.Some? && o.sprite.value.width == 4 && o.sprite.value.height == 4 &&
            o.sprite.value.frameCount == 2
  {
    var sources := [Present("big.png", 4, 4, None, [f]), Present("small.png", 2, 2, None, [f])];
    TwoSources("big.png", 4, 4, f, "small.png", 2, 2, f, im);
    var images := AllImages(sources, im);
    assert Widths(images) == [4, 2] && Heights(images) == [4, 2];
    assert MaxOf(Widths(images)) == 4 && MaxOf(Heights(images)) == 4;
    SameSizeTestAlwaysFalse(Sizes(images));
    var written := Normalized(images, true);
    assert |written[0].pixels| == 16;
    assert !(forall i :: 0 <= i < |written| ==> |written[i].pixels| == 2 * 2);
    SeveralImagesWritten(sources, spriteType, im);
  }

  /** The swapped box over a whole run: a 1 by 3 column whose pixels are
      all 7, then a 3 by 3 square. The last source has the canvas size, so
      both runs write a 3 by 3 sprite; frame 0 has the column's top pixel
      at column 1, row 0 as intended, but has 255 there as written. */
  lemma ColumnThenSquare(f: Frame, g: Frame, spriteType: int, im: Imaging)
    requires SubImage(1, 3, None, f, im).pixels == [7, 7, 7]
    ensures var sources := [Present("column.png", 1, 3, None, [f]), Present("square.png", 3, 3, None, [g])];
            var w := ConvertedAsWritten(sources, spriteType, im);
            var o := Converted(sources, spriteType, im);
            w.exitCode == 0 && w.sprite.Some? && w.sprite.value.width == 3 && w.sprite.value.height == 3 &&
            o.exitCode == 0 && o.sprite.Some? && o.sprite.value.width == 3 && o.sprite.value.height == 3 &&
            Pixel(Image(3, 3, o.sprite.value.frames[0].pixels), 1, 0) == 7 &&
            Pixel(Image(3, 3, w.sprite.value.frames[0].pixels), 1, 0) == 255
  {
    var sources := [Present("column.png", 1, 3, None, [f]), Present("square.png", 3, 3, None, [g])];
    TwoSources("column.png", 1, 3, f, "square.png", 3, 3, g, im);
    var images := AllImages(sources, im);
    ColumnSquarePadded(images, false);
    ColumnSquarePadded(images, true);
    PasteBoxSwapped();
  }

  /** Two one-frame sources that both exist: nothing is missing or
      unopenable, the size is the second one's, and each gives one image. */
  lemma TwoSources(p1: string, w1: nat, h1: nat, f: Frame, p2: string, w2: nat, h2: nat, g: Frame, im: Imaging)
    ensures var sources := [Present(p1, w1, h1, None, [f]), Present(p2, w2, h2, None, [g])];
            FirstUnopenable(sources) == 2 && MissingMessages(sources) == [] && LastSize(sources) == Some((w2, h2)) &&
            AllImages(sources, im) == [SubImage(w1, h1, None, f, im), SubImage(w2, h2, None, g, im)]
  {
    var sources := [Present(p1, w1, h1, None, [f]), Present(p2, w2, h2, None, [g])];
    assert sources[..1] == [sources[0]] && [sources[0]][..0] == [];
    assert sources[1..][1..] == [];
    assert MissingMessages([sources[0]]) == [];
    assert FrameImages(w1, h1, None, [f], im) == [SubImage(w1, h1, None, f, im)];
    assert FrameImages(w2, h2, None, [g], im) == [SubImage(w2, h2, None, g, im)];
    assert AllImages([sources[0]], im) == [SubImage(w1, h1, None, f, im)];
  }

  /** A 1 by 3 image and a 3 by 3 one are both padded to a 3 by 3 canvas. */
  lemma ColumnSquarePadded(images: seq<Image>, asWritten: bool)
    requires |images| == 2 && images[0].width == 1 && images[0].height == 3
    requires images[1].width == 3 && images[1].height == 3
    ensures MaxOf(Widths(images)) == 3 && MaxOf(Heights(images)) == 3
    ensures var p := Normalized(images, asWritten);
            p[0] == (if asWritten then PadImageAsWritten(images[0], 3, 3) else PadImage(images[0], 3, 3)) &&
            forall i :: 0 <= i < |p| ==> |p[i].pixels| == 3 * 3
  {
    assert Widths(images) == [1, 3] && Heights(images) == [3, 3];
    SameSizeTestAlwaysFalse(Sizes(images));
  }
}
