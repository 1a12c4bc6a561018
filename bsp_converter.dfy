/** The top-down SVG conversion of a resolved BSP (`converter.convert`): map
    bounds, padding and viewBox, the sky filter and the flipped projection of
    each face's vertices. Coordinates are exact reals. */
module BspConverter {
  import opened Results
  import opened Strings
  import opened BspApi

  /** A value written to the SVG: a Python int or a float. */
  datatype Number = IntNumber(i: int) | FloatNumber(f: real)

  function NumberValue(n: Number): real {
    match n
    case IntNumber(i) => i as real
    case FloatNumber(f) => f
  }

  predicate IsIntegral(r: real) {
    r.Floor as real == r
  }

  /** Python's `int(x)` on a float: truncation toward zero. */
  function Trunc(r: real): (i: int)
    ensures r >= 0.0 ==> i as real <= r < i as real + 1.0
    ensures r < 0.0 ==> i as real - 1.0 < r <= i as real
  {
    if r >= 0.0 then r.Floor else -((-r).Floor)
  }

  /** `simplify_number`: an integral value becomes an int, any other stays a
      float; the numeric value never changes. */
  function SimplifyNumber(n: real): (r: Number)
    ensures NumberValue(r) == n
    ensures r.IntNumber? <==> IsIntegral(n)
  {
    TruncIntegral(n);
    if Trunc(n) as real == n then IntNumber(Trunc(n)) else FloatNumber(n)
  }

  /** Truncation gives back exactly the integral values. */
  lemma TruncIntegral(n: real)
    ensures Trunc(n) as real == n <==> IsIntegral(n)
  {
    var k := Trunc(n);
    if k as real == n {
      FloorOfInt(k);
    }
    if IsIntegral(n) && n < 0.0 {
      var f := n.Floor;
      assert -n == (-f) as real;
      FloorOfInt(-f);
    }
  }

  lemma FloorOfInt(k: int)
    ensures (k as real).Floor == k
  {
  }

  /** The least element of a non-empty list (Python's `min`). */
  function Min(s: seq<real>): (m: real)
    requires |s| > 0
    ensures m in s
    ensures forall i :: 0 <= i < |s| ==> m <= s[i]
  {
    if |s| == 1 then s[0] else var rest := Min(s[1..]); if s[0] <= rest then s[0] else rest
  }

  /** The greatest element of a non-empty list (Python's `max`). */
  function Max(s: seq<real>): (m: real)
    requires |s| > 0
    ensures m in s
    ensures forall i :: 0 <= i < |s| ==> s[i] <= m
  {
    if |s| == 1 then s[0] else var rest := Max(s[1..]); if s[0] >= rest then s[0] else rest
  }

  /** `[face for model in models for face in model.faces]`. */
  function AllFaces(models: seq<Model>): seq<Face> {
    if models == [] then [] else models[0].faces + AllFaces(models[1..])
  }

  /** `vs`: the vertices of every face of every model, sky faces included. */
  function AllVertexes(models: seq<Model>): seq<Vertex> {
    FaceListVertexes(AllFaces(models))
  }

  function FaceListVertexes(faces: seq<Face>): seq<Vertex> {
    if faces == [] then [] else faces[0].vertexes + FaceListVertexes(faces[1..])
  }

  datatype Bounds = Bounds(minX: real, maxX: real, minY: real, maxY: real)

  datatype ConvertError = EmptySequence

  function Xs(vs: seq<Vertex>): (r: seq<real>)
    ensures |r| == |vs| && forall i :: 0 <= i < |vs| ==> r[i] == vs[i].x
  {
    seq(|vs|, i requires 0 <= i < |vs| => vs[i].x)
  }

  function Ys(vs: seq<Vertex>): (r: seq<real>)
    ensures |r| == |vs| && forall i :: 0 <= i < |vs| ==> r[i] == vs[i].y
  {
    seq(|vs|, i requires 0 <= i < |vs| => vs[i].y)
  }

  /** The map bounds: `min`/`max` of the x and y of every vertex; with no
      vertex at all `min` of an empty list raises. */
  function MapBounds(models: seq<Model>): (r: Result<Bounds, ConvertError>)
    ensures r.Err? <==> AllVertexes(models) == []
    ensures r.Ok? ==>
              var b := r.value;
              var vs := AllVertexes(models);
              (forall i :: 0 <= i < |vs| ==> b.minX <= vs[i].x <= b.maxX && b.minY <= vs[i].y <= b.maxY)
              && (exists i :: 0 <= i < |vs| && vs[i].x == b.minX)
              && (exists i :: 0 <= i < |vs| && vs[i].x == b.maxX)
              && (exists i :: 0 <= i < |vs| && vs[i].y == b.minY)
              && (exists i :: 0 <= i < |vs| && vs[i].y == b.maxY)
  {
    var vs := AllVertexes(models);
    if vs == [] then Err(EmptySequence)
    else
      var xs, ys := Xs(vs), Ys(vs);
      Ok(Bounds(Min(xs), Max(xs), Min(ys), Max(ys)))
  }

  /** Python's `a // b` on floats with a positive divisor. */
  function FloorDiv(a: real, b: real): real
    requires b > 0.0
  {
    (a / b).Floor as real
  }

  /** `padding = min(width // 10, height // 10)`. */
  function Padding(b: Bounds): (p: real)
    ensures var w, h := b.maxX - b.minX, b.maxY - b.minY;
            p == FloorDiv(w, 10.0) || p == FloorDiv(h, 10.0)
    ensures p <= FloorDiv(b.maxX - b.minX, 10.0) && p <= FloorDiv(b.maxY - b.minY, 10.0)
  {
    var w, h := b.maxX - b.minX, b.maxY - b.minY;
    var pw, ph := FloorDiv(w, 10.0), FloorDiv(h, 10.0);
    if pw <= ph then pw else ph
  }

  datatype ViewBox = ViewBox(x: real, y: real, width: real, height: real)

  /** The viewBox: the bounds grown by the padding on every side. */
  function ViewBoxOf(b: Bounds): (v: ViewBox)
    ensures v.x + Padding(b) == b.minX && v.y + Padding(b) == b.minY
    ensures v.x + v.width == b.maxX + Padding(b) && v.y + v.height == b.maxY + Padding(b)
  {
    var p := Padding(b);
    ViewBox(b.minX - p, b.minY - p, (b.maxX - b.minX) + p * 2.0, (b.maxY - b.minY) + p * 2.0)
  }

  /** The y flip of the projection: `max_y - y + min_y`. */
  function FlipY(b: Bounds, y: real): (r: real)
    ensures y == b.minY ==> r == b.maxY
    ensures y == b.maxY ==> r == b.minY
    ensures b.minY <= y <= b.maxY ==> b.minY <= r <= b.maxY
    ensures r - b.minY == b.maxY - y
  {
    b.maxY - y + b.minY
  }

  datatype Point = Point(x: Number, y: Number)

  /** One polygon point: the vertex's `(x, max_y - y + min_y)`, simplified. */
  function ProjectVertex(b: Bounds, v: Vertex): (p: Point)
    ensures NumberValue(p.x) == v.x && NumberValue(p.y) == FlipY(b, v.y)
  {
    Point(SimplifyNumber(v.x), SimplifyNumber(FlipY(b, v.y)))
  }

  /** The polygon of one face: one point per vertex, in the face's order. */
  function Polygon(b: Bounds, face: Face): (ps: seq<Point>)
    ensures |ps| == |face.vertexes|
    ensures forall i :: 0 <= i < |ps| ==> ps[i] == ProjectVertex(b, face.vertexes[i])
  {
    seq(|face.vertexes|, i requires 0 <= i < |face.vertexes| => ProjectVertex(b, face.vertexes[i]))
  }

  predicate IsSky(face: Face) {
    StartsWith(face.textureName, "sky")
  }

  /** The faces that emit a polygon: those not textured `sky...`, in order. */
  function NonSkyFaces(faces: seq<Face>): (r: seq<Face>)
    ensures |r| <= |faces|
    ensures forall i :: 0 <= i < |r| ==> r[i] in faces && !IsSky(r[i])
  {
    if faces == [] then []
    else (if IsSky(faces[0]) then [] else [faces[0]]) + NonSkyFaces(faces[1..])
  }

  datatype Drawing = Drawing(viewBox: ViewBox, polygons: seq<seq<Point>>)

  /** The drawing `convert` produces for the given models. */
  function Converted(models: seq<Model>): Result<Drawing, ConvertError> {
    match MapBounds(models)
    case Err(x) => Err(x)
    case Ok(b) =>
      Ok(Drawing(ViewBoxOf(b), Polygons(b, NonSkyFaces(AllFaces(models)))))
  }

  /** One polygon per face, in order. */
  function Polygons(b: Bounds, faces: seq<Face>): (ps: seq<seq<Point>>)
    ensures |ps| == |faces|
    ensures forall i :: 0 <= i < |faces| ==> ps[i] == Polygon(b, faces[i])
  {
    if faces == [] then [] else [Polygon(b, faces[0])] + Polygons(b, faces[1..])
  }

  lemma PolygonsSnoc(b: Bounds, faces: seq<Face>, face: Face)
    ensures Polygons(b, faces + [face]) == Polygons(b, faces) + [Polygon(b, face)]
  {
  }

  /** `convert`: bounds first, over every vertex, then one polygon per face
      that is not sky, added to the group in face order. */
  method Convert(models: seq<Model>) returns (r: Result<Drawing, ConvertError>)
    ensures r == Converted(models)
  {
    var bounds := MapBounds(models);
    if bounds.Err? {
      return Err(bounds.error);
    }
    var b := bounds.value;
    var faces := AllFaces(models);
    var group: seq<seq<Point>> := [];
    var k := 0;
    while k < |faces|
      invariant 0 <= k <= |faces|
      invariant group == Polygons(b, NonSkyFaces(faces[..k]))
    {
      ConvertStep(b, faces, k);
      if IsSky(faces[k]) {
        k := k + 1;
        continue;
      }
      group := group + [Polygon(b, faces[k])];
      k := k + 1;
    }
    assert faces[..k] == faces;
    return Ok(Drawing(ViewBoxOf(b), group));
  }

  lemma ConvertStep(b: Bounds, faces: seq<Face>, k: nat)
    requires k < |faces|
    ensures Polygons(b, NonSkyFaces(faces[..k + 1])) ==
            Polygons(b, NonSkyFaces(faces[..k])) + (if IsSky(faces[k]) then [] else [Polygon(b, faces[k])])
  {
    assert faces[..k + 1] == faces[..k] + [faces[k]];
    NonSkyFacesSnoc(faces[..k], faces[k]);
    if !IsSky(faces[k]) {
      PolygonsSnoc(b, NonSkyFaces(faces[..k]), faces[k]);
    } else {
      assert NonSkyFaces(faces[..k]) + [] == NonSkyFaces(faces[..k]);
    }
  }

  lemma {:induction false} NonSkyFacesSnoc(faces: seq<Face>, face: Face)
    ensures NonSkyFaces(faces + [face]) == NonSkyFaces(faces) + (if IsSky(face) then [] else [face])
  {
    if faces == [] {
      assert [] + [face] == [face];
    } else {
      assert (faces + [face])[1..] == faces[1..] + [face];
      NonSkyFacesSnoc(faces[1..], face);
    }
  }

  /** Sky faces emit no polygon and every other face emits exactly one:
      the face at position i is kept iff it is not sky, and the kept faces
      are counted by the faces that are not sky. */
  lemma {:induction false} NonSkyFacesCount(faces: seq<Face>)
    ensures |NonSkyFaces(faces)| == |faces| - SkyCount(faces)
    ensures (forall i :: 0 <= i < |faces| ==> IsSky(faces[i])) ==> NonSkyFaces(faces) == []
    ensures (forall i :: 0 <= i < |faces| ==> !IsSky(faces[i])) ==> NonSkyFaces(faces) == faces
  {
    if faces != [] {
      NonSkyFacesCount(faces[1..]);
      assert faces == [faces[0]] + faces[1..];
    }
  }

  function SkyCount(faces: seq<Face>): (n: nat)
    ensures n <= |faces|
  {
    if faces == [] then 0 else (if IsSky(faces[0]) then 1 else 0) + SkyCount(faces[1..])
  }

  /** The bounds cover every vertex of every face, sky faces included,
      because the filter only runs after they are taken. */
  lemma BoundsCoverSkyFaces(models: seq<Model>, face: Face, v: Vertex)
    requires MapBounds(models).Ok?
    requires face in AllFaces(models) && v in face.vertexes
    ensures var b := MapBounds(models).value;
            b.minX <= v.x <= b.maxX && b.minY <= v.y <= b.maxY
  {
    var faces := AllFaces(models);
    var j :| 0 <= j < |faces| && faces[j] == face;
    FaceInVertexList(faces, j, v);
  }

  lemma {:induction false} FaceInVertexList(faces: seq<Face>, j: nat, v: Vertex)
    requires j < |faces| && v in faces[j].vertexes
    ensures v in FaceListVertexes(faces)
  {
    if j > 0 {
      FaceInVertexList(faces[1..], j - 1, v);
    }
  }

  /** Every point of every polygon lies inside the viewBox. */
  lemma PointsInsideViewBox(models: seq<Model>, face: Face, v: Vertex)
    requires MapBounds(models).Ok?
    requires face in AllFaces(models) && v in face.vertexes
    ensures var b := MapBounds(models).value;
            var box := ViewBoxOf(b);
            var p := ProjectVertex(b, v);
            box.x <= NumberValue(p.x) <= box.x + box.width &&
              box.y <= NumberValue(p.y) <= box.y + box.height
  {
    BoundsCoverSkyFaces(models, face, v);
    PaddingNonNegative(MapBounds(models).value);
  }

  /** The padding is never negative once the bounds are ordered. */
  lemma PaddingNonNegative(b: Bounds)
    requires b.minX <= b.maxX && b.minY <= b.maxY
    ensures Padding(b) >= 0.0
  {
    var w, h := b.maxX - b.minX, b.maxY - b.minY;
    assert w / 10.0 >= 0.0 && h / 10.0 >= 0.0;
  }
}
