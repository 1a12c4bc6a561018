/** Resolution of a BSP file's flat index tables into Models, Faces, Edges and
    Vertices (`Bsp.open` and its memoised inner resolvers). */
module BspApi {
  import opened Results
  import opened Seqs
  import opened VgioRecords

  // ---------------------------------------------------------------- vectors

  datatype Vec3 = Vec3(x: real, y: real, z: real)

  function Dot(a: Vec3, b: Vec3): real {
    a.x * b.x + a.y * b.y + a.z * b.z
  }

  function Cross(a: Vec3, b: Vec3): Vec3 {
    Vec3(a.y * b.z - a.z * b.y, a.z * b.x - a.x * b.z, a.x * b.y - a.y * b.x)
  }

  function Subtract(a: Vec3, b: Vec3): Vec3 {
    Vec3(a.x - b.x, a.y - b.y, a.z - b.z)
  }

  /** Under exact arithmetic a vector minus itself is zero, and the cross
      product is orthogonal to both of its factors. */
  lemma VectorIdentities(a: Vec3, b: Vec3)
    ensures Subtract(a, a) == Vec3(0.0, 0.0, 0.0)
    ensures Dot(a, Cross(a, b)) == 0.0
    ensures Dot(b, Cross(a, b)) == 0.0
  {
  }

  // ------------------------------------------------------- decoded tables

  datatype BspModel = BspModel(firstFace: nat, numberOfFaces: nat)
  datatype BspFace = BspFace(planeNumber: nat, firstEdge: nat, numberOfEdges: nat, textureInfo: nat)
  /** An edge table entry: the pair `vertexes` of vertex indices. */
  datatype BspEdge = BspEdge(vertex0: nat, vertex1: nat)
  datatype Plane = Plane(normal: Vec3, distance: real, planeType: int)
  datatype TextureInfo = TextureInfo(miptextureNumber: nat)

  /** The tables of a decoded BSP file; a missing miptexture is `None`. */
  datatype BspFile = BspFile(
    models: seq<BspModel>,
    faces: seq<BspFace>,
    edges: seq<BspEdge>,
    surfEdges: seq<int>,
    vertexes: seq<Vec3>,
    planes: seq<Plane>,
    textureInfos: seq<TextureInfo>,
    miptextures: seq<Option<Miptexture>>)

  /** `IndexError` for an index past a table, `NoneName` for the
      `AttributeError` of reading the name of a missing miptexture. */
  datatype ResolveError = IndexError | NoneName

  // -------------------------------------------------------- resolved graph

  /** A resolved vertex. The source's `Vertex` has no `__eq__`, so two vertices
      are equal exactly when they are the one cached object of one table index;
      the index is kept here to give the value that identity. */
  datatype Vertex = Vertex(index: nat, x: real, y: real, z: real)
  datatype Edge = Edge(vertex0: Vertex, vertex1: Vertex)
  datatype Face = Face(vertexes: seq<Vertex>, edges: seq<Edge>, plane: Plane, textureName: string)
  datatype Model = Model(faces: seq<Face>)

  /** `Vertex.__getitem__`: Python indexing of `[x, y, z]`, negative indices included. */
  function GetItem(v: Vertex, item: int): (r: Result<real, ResolveError>)
    ensures r.Ok? <==> -3 <= item < 3
    ensures item == 0 || item == -3 ==> r == Ok(v.x)
    ensures item == 1 || item == -2 ==> r == Ok(v.y)
    ensures item == 2 || item == -1 ==> r == Ok(v.z)
  {
    var xs := [v.x, v.y, v.z];
    if 0 <= item < 3 then Ok(xs[item])
    else if -3 <= item < 0 then Ok(xs[item + 3])
    else Err(IndexError)
  }

  function VertexOf(b: BspFile, i: nat): Vertex
    requires i < |b.vertexes|
  {
    Vertex(i, b.vertexes[i].x, b.vertexes[i].y, b.vertexes[i].z)
  }

  /** `process_vertex` without its cache. */
  function ResolveVertex(b: BspFile, i: nat): Result<Vertex, ResolveError> {
    if i < |b.vertexes| then Ok(VertexOf(b, i)) else Err(IndexError)
  }

  function Abs(e: int): nat {
    if e < 0 then -e else e
  }

  /** The endpoint indices a signed surf-edge picks: a negative sign swaps them. */
  function Endpoints(b: BspFile, e: int): (nat, nat)
    requires Abs(e) < |b.edges|
  {
    var pair := b.edges[Abs(e)];
    if e < 0 then (pair.vertex1, pair.vertex0) else (pair.vertex0, pair.vertex1)
  }

  /** One iteration of the loop in `get_edges`. */
  function ResolveEdge(b: BspFile, e: int): Result<Edge, ResolveError> {
    if Abs(e) >= |b.edges| then Err(IndexError)
    else
      var (i0, i1) := Endpoints(b, e);
      match ResolveVertex(b, i0)
      case Err(x) => Err(x)
      case Ok(v0) =>
        match ResolveVertex(b, i1)
        case Err(x) => Err(x)
        case Ok(v1) => Ok(Edge(v0, v1))
  }

  function ResolveEdgeList(b: BspFile, es: seq<int>): Result<seq<Edge>, ResolveError> {
    if es == [] then Ok([])
    else
      match ResolveEdge(b, es[0])
      case Err(x) => Err(x)
      case Ok(e) =>
        match ResolveEdgeList(b, es[1..])
        case Err(x) => Err(x)
        case Ok(rest) => Ok([e] + rest)
  }

  /** `surf_edges[first_edge:first_edge + number_of_edges]`: a Python slice,
      shortened where it runs past the table. */
  function SurfEdgeSlice(b: BspFile, f: BspFace): (r: seq<int>)
    ensures |r| <= f.numberOfEdges
    ensures |r| == f.numberOfEdges || f.firstEdge + |r| >= |b.surfEdges|
    ensures forall i :: 0 <= i < |r| ==>
              f.firstEdge + i < |b.surfEdges| && r[i] == b.surfEdges[f.firstEdge + i]
  {
    var n := |b.surfEdges|;
    var start := if f.firstEdge < n then f.firstEdge else n;
    var stop := if f.firstEdge + f.numberOfEdges < n then f.firstEdge + f.numberOfEdges else n;
    b.surfEdges[start..stop]
  }

  /** `get_edges(face_index)` without its cache. */
  function FaceEdges(b: BspFile, f: nat): Result<seq<Edge>, ResolveError> {
    if f >= |b.faces| then Err(IndexError) else ResolveEdgeList(b, SurfEdgeSlice(b, b.faces[f]))
  }

  function FirstVertexes(es: seq<Edge>): (vs: seq<Vertex>)
    ensures |vs| == |es|
    ensures forall i :: 0 <= i < |es| ==> vs[i] == es[i].vertex0
  {
    seq(|es|, i requires 0 <= i < |es| => es[i].vertex0)
  }

  /** `get_vertexes(face_index)` without its cache. */
  function FaceVertexes(b: BspFile, f: nat): Result<seq<Vertex>, ResolveError> {
    match FaceEdges(b, f)
    case Err(x) => Err(x)
    case Ok(es) => Ok(FirstVertexes(es))
  }

  /** `get_plane(face_index)` without its cache. */
  function FacePlane(b: BspFile, f: nat): Result<Plane, ResolveError> {
    if f >= |b.faces| || b.faces[f].planeNumber >= |b.planes| then Err(IndexError)
    else Ok(b.planes[b.faces[f].planeNumber])
  }

  /** `get_texture_name(face_index)` without its cache. */
  function FaceTextureName(b: BspFile, f: nat): Result<string, ResolveError> {
    if f >= |b.faces| || b.faces[f].textureInfo >= |b.textureInfos| then Err(IndexError)
    else
      var m := b.textureInfos[b.faces[f].textureInfo].miptextureNumber;
      if m >= |b.miptextures| then Err(IndexError)
      else if b.miptextures[m].None? then Err(NoneName)
      else Ok(b.miptextures[m].value.name)
  }

  /** `process_face(face_index)` without its cache: edges, vertexes, plane and
      texture name, resolved in that order. */
  function ResolveFace(b: BspFile, f: nat): Result<Face, ResolveError> {
    match FaceEdges(b, f)
    case Err(x) => Err(x)
    case Ok(es) =>
      match FaceVertexes(b, f)
      case Err(x) => Err(x)
      case Ok(vs) =>
        match FacePlane(b, f)
        case Err(x) => Err(x)
        case Ok(p) =>
          match FaceTextureName(b, f)
          case Err(x) => Err(x)
          case Ok(name) => Ok(Face(vs, es, p, name))
  }

  /** `[process_face(f) for f in range(lo, hi)]`. */
  function ResolveFaceRange(b: BspFile, lo: nat, hi: nat): Result<seq<Face>, ResolveError>
    decreases hi - lo
  {
    if lo >= hi then Ok([])
    else
      match ResolveFace(b, lo)
      case Err(x) => Err(x)
      case Ok(face) =>
        match ResolveFaceRange(b, lo + 1, hi)
        case Err(x) => Err(x)
        case Ok(rest) => Ok([face] + rest)
  }

  /** `process_model(bsp_model)` = `Model(get_faces(bsp_model))`. */
  function ResolveModel(b: BspFile, m: BspModel): Result<Model, ResolveError> {
    match ResolveFaceRange(b, m.firstFace, m.firstFace + m.numberOfFaces)
    case Err(x) => Err(x)
    case Ok(faces) => Ok(Model(faces))
  }

  /** `get_models()` over a suffix of the model table. */
  function ResolveModelList(b: BspFile, ms: seq<BspModel>): Result<seq<Model>, ResolveError> {
    if ms == [] then Ok([])
    else
      match ResolveModel(b, ms[0])
      case Err(x) => Err(x)
      case Ok(m) =>
        match ResolveModelList(b, ms[1..])
        case Err(x) => Err(x)
        case Ok(rest) => Ok([m] + rest)
  }

  /** The models `Bsp.open` returns, or the error it raises. */
  function ResolveModels(b: BspFile): Result<seq<Model>, ResolveError> {
    ResolveModelList(b, b.models)
  }

  // ------------------------------------------------------ model properties

  /** `Model.vertexes`: every vertex of every face, each once. The source
      returns `list(set(...))`, whose order is unspecified; this keeps the
      order of first occurrence. */
  function ModelVertexes(m: Model): seq<Vertex> {
    Dedup(Flatten(seq(|m.faces|, i requires 0 <= i < |m.faces| => m.faces[i].vertexes)))
  }

  /** `Model.edges`: every edge of every face, each ordered pair once. */
  function ModelEdges(m: Model): seq<Edge> {
    Dedup(Flatten(seq(|m.faces|, i requires 0 <= i < |m.faces| => m.faces[i].edges)))
  }

  // ------------------------------------------------- resolution properties

  /** A signed surf-edge reference can be resolved: its edge and both of the
      edge's vertices exist. */
  predicate EdgeRefValid(b: BspFile, e: int) {
    Abs(e) < |b.edges| && b.edges[Abs(e)].vertex0 < |b.vertexes| && b.edges[Abs(e)].vertex1 < |b.vertexes|
  }

  /** The edge a valid reference stands for: `(vertexes[v0], vertexes[v1])`
      for `e >= 0`, the swapped pair for `e < 0`. */
  predicate EdgeFor(b: BspFile, e: int, edge: Edge)
    requires EdgeRefValid(b, e)
  {
    var pair := b.edges[Abs(e)];
    if e >= 0 then edge == Edge(VertexOf(b, pair.vertex0), VertexOf(b, pair.vertex1))
    else edge == Edge(VertexOf(b, pair.vertex1), VertexOf(b, pair.vertex0))
  }

  lemma {:induction false} ResolveEdgeListSpec(b: BspFile, es: seq<int>)
    ensures ResolveEdgeList(b, es).Ok? <==> forall i :: 0 <= i < |es| ==> EdgeRefValid(b, es[i])
    ensures ResolveEdgeList(b, es).Ok? ==>
              var r := ResolveEdgeList(b, es).value;
              |r| == |es| && forall i :: 0 <= i < |es| ==> EdgeFor(b, es[i], r[i])
    ensures ResolveEdgeList(b, es).Err? ==> ResolveEdgeList(b, es).error == IndexError
  {
    if es != [] {
      ResolveEdgeListSpec(b, es[1..]);
      var head := ResolveEdge(b, es[0]);
      if head.Ok? && ResolveEdgeList(b, es[1..]).Ok? {
        var r := ResolveEdgeList(b, es).value;
        assert r == [head.value] + ResolveEdgeList(b, es[1..]).value;
        forall i | 0 <= i < |es| ensures EdgeFor(b, es[i], r[i]) {
          if i > 0 { assert es[i] == es[1..][i - 1]; }
        }
      }
      if !EdgeRefValid(b, es[0]) {
        assert ResolveEdgeList(b, es).Err?;
      }
      if exists i :: 1 <= i < |es| && !EdgeRefValid(b, es[i]) {
        var i :| 1 <= i < |es| && !EdgeRefValid(b, es[i]);
        assert es[1..][i - 1] == es[i];
      }
    }
  }

  /** `get_edges(f)` gives one Edge per entry of the face's surf-edge slice, in
      order, each picked by sign; it fails exactly when the face or one of
      the referenced edges or vertices is missing. */
  lemma FaceEdgesSpec(b: BspFile, f: nat)
    ensures FaceEdges(b, f).Ok? <==>
              f < |b.faces| &&
              var s := SurfEdgeSlice(b, b.faces[f]);
              forall i :: 0 <= i < |s| ==> EdgeRefValid(b, s[i])
    ensures FaceEdges(b, f).Ok? ==>
              var s := SurfEdgeSlice(b, b.faces[f]);
              var es := FaceEdges(b, f).value;
              |es| == |s| && forall i :: 0 <= i < |s| ==> EdgeFor(b, s[i], es[i])
  {
    if f < |b.faces| {
      ResolveEdgeListSpec(b, SurfEdgeSlice(b, b.faces[f]));
    }
  }

  /** `process_face(f)`: its edges are `get_edges(f)`, its vertexes the first
      endpoint of each edge, its plane `planes[faces[f].plane_number]` and its
      texture name `miptextures[texture_infos[faces[f].texture_info].miptexture_number].name`. */
  lemma ResolveFaceSpec(b: BspFile, f: nat)
    ensures ResolveFace(b, f).Ok? <==>
              FaceEdges(b, f).Ok? && FacePlane(b, f).Ok? && FaceTextureName(b, f).Ok?
    ensures ResolveFace(b, f).Ok? ==>
              var face := ResolveFace(b, f).value;
              var bf := b.faces[f];
              && face.edges == FaceEdges(b, f).value
              && |face.vertexes| == |face.edges|
              && (forall i :: 0 <= i < |face.edges| ==> face.vertexes[i] == face.edges[i].vertex0)
              && bf.planeNumber < |b.planes| && face.plane == b.planes[bf.planeNumber]
              && bf.textureInfo < |b.textureInfos|
              && var m := b.textureInfos[bf.textureInfo].miptextureNumber;
                 m < |b.miptextures| && b.miptextures[m].Some?
                 && face.textureName == b.miptextures[m].value.name
  {
  }

  lemma ResolveFaceRangeSpec(b: BspFile, lo: nat, hi: nat)
    ensures ResolveFaceRange(b, lo, hi).Ok? <==> forall k :: lo <= k < hi ==> ResolveFace(b, k).Ok?
    ensures ResolveFaceRange(b, lo, hi).Ok? ==>
              var fs := ResolveFaceRange(b, lo, hi).value;
              |fs| == (if lo <= hi then hi - lo else 0) &&
              forall i :: 0 <= i < |fs| ==> ResolveFace(b, lo + i) == Ok(fs[i])
  {
    ResolveFaceRangeOk(b, lo, hi);
    ResolveFaceRangeFaces(b, lo, hi);
  }

  /** The range resolves exactly when each of its faces does. */
  lemma {:induction false} ResolveFaceRangeOk(b: BspFile, lo: nat, hi: nat)
    ensures ResolveFaceRange(b, lo, hi).Ok? <==> forall k :: lo <= k < hi ==> ResolveFace(b, k).Ok?
    decreases hi - lo
  {
    if lo < hi {
      ResolveFaceRangeOk(b, lo + 1, hi);
      RangeStep(b, lo, hi);
    }
  }

  /** A resolved range holds the faces of its indices, in order. */
  lemma {:induction false} ResolveFaceRangeFaces(b: BspFile, lo: nat, hi: nat)
    ensures ResolveFaceRange(b, lo, hi).Ok? ==>
              var fs := ResolveFaceRange(b, lo, hi).value;
              |fs| == (if lo <= hi then hi - lo else 0) &&
              forall i :: 0 <= i < |fs| ==> ResolveFace(b, lo + i) == Ok(fs[i])
    decreases hi - lo
  {
    if lo < hi {
      ResolveFaceRangeFaces(b, lo + 1, hi);
      RangeStep(b, lo, hi);
      var one := ResolveFace(b, lo);
      var restR := ResolveFaceRange(b, lo + 1, hi);
      if one.Ok? && restR.Ok? {
        ConsIndexed(b, lo, one.value, restR.value);
      }
    }
  }

  lemma ConsIndexed(b: BspFile, lo: nat, x: Face, rest: seq<Face>)
    requires ResolveFace(b, lo) == Ok(x)
    requires forall i :: 0 <= i < |rest| ==> ResolveFace(b, lo + 1 + i) == Ok(rest[i])
    ensures forall i :: 0 <= i < |[x] + rest| ==> ResolveFace(b, lo + i) == Ok(([x] + rest)[i])
  {
    var fs := [x] + rest;
    forall i | 1 <= i < |fs| ensures ResolveFace(b, lo + i) == Ok(fs[i]) {
      assert fs[i] == rest[i - 1];
      assert lo + i == lo + 1 + (i - 1);
    }
  }

  /** One face of a non-empty range, then the rest. */
  lemma RangeStep(b: BspFile, lo: nat, hi: nat)
    requires lo < hi
    ensures ResolveFace(b, lo).Err? ==> ResolveFaceRange(b, lo, hi) == Err(ResolveFace(b, lo).error)
    ensures ResolveFace(b, lo).Ok? ==>
              ResolveFaceRange(b, lo, hi) == Prepend([ResolveFace(b, lo).value], ResolveFaceRange(b, lo + 1, hi))
  {
  }

  /** Every face index in the model's range resolves. */
  predicate FacesResolve(b: BspFile, bm: BspModel) {
    forall k :: bm.firstFace <= k < bm.firstFace + bm.numberOfFaces ==> ResolveFace(b, k).Ok?
  }

  /** The model holds `process_face(i)` for each i of the source model's range, in order. */
  predicate ModelMatches(b: BspFile, bm: BspModel, model: Model) {
    |model.faces| == bm.numberOfFaces &&
    forall i :: 0 <= i < bm.numberOfFaces ==> ResolveFace(b, bm.firstFace + i) == Ok(model.faces[i])
  }

  lemma ResolveModelSpec(b: BspFile, bm: BspModel)
    ensures ResolveModel(b, bm).Ok? <==> FacesResolve(b, bm)
    ensures ResolveModel(b, bm).Ok? ==> ModelMatches(b, bm, ResolveModel(b, bm).value)
  {
    ResolveFaceRangeSpec(b, bm.firstFace, bm.firstFace + bm.numberOfFaces);
  }

  lemma {:induction false} ResolveModelListSpec(b: BspFile, ms: seq<BspModel>)
    ensures ResolveModelList(b, ms).Ok? <==> forall m :: 0 <= m < |ms| ==> FacesResolve(b, ms[m])
    ensures ResolveModelList(b, ms).Ok? ==>
              var r := ResolveModelList(b, ms).value;
              |r| == |ms| && forall m :: 0 <= m < |ms| ==> ModelMatches(b, ms[m], r[m])
  {
    if ms != [] {
      ResolveModelListSpec(b, ms[1..]);
      ResolveModelSpec(b, ms[0]);
      var head := ResolveModel(b, ms[0]);
      var tail := ResolveModelList(b, ms[1..]);
      if head.Ok? && tail.Ok? {
        var r := ResolveModelList(b, ms).value;
        assert r == [head.value] + tail.value;
        forall m | 0 < m < |ms| ensures ModelMatches(b, ms[m], r[m]) {
          assert ms[m] == ms[1..][m - 1] && r[m] == tail.value[m - 1];
        }
      }
      if forall m :: 0 <= m < |ms| ==> FacesResolve(b, ms[m]) {
        forall m | 0 <= m < |ms[1..]| ensures FacesResolve(b, ms[1..][m]) {
          assert ms[1..][m] == ms[m + 1];
        }
      }
      if !tail.Ok? {
        var m :| 0 <= m < |ms[1..]| && !FacesResolve(b, ms[1..][m]);
        assert ms[m + 1] == ms[1..][m];
      }
    }
  }

  /** One Model per source model, in order; model m's faces are
      `process_face(i)` for i from `first_face` up to
      `first_face + number_of_faces - 1`, ascending. */
  lemma ResolveModelsSpec(b: BspFile)
    ensures ResolveModels(b).Ok? <==> forall m :: 0 <= m < |b.models| ==> FacesResolve(b, b.models[m])
    ensures ResolveModels(b).Ok? ==>
              var r := ResolveModels(b).value;
              |r| == |b.models| && forall m :: 0 <= m < |b.models| ==> ModelMatches(b, b.models[m], r[m])
  {
    ResolveModelListSpec(b, b.models);
  }

  // --------------------------------------------- identity of resolved vertices

  /** A vertex value that is the one the vertex table gives for its index. */
  predicate Canonical(b: BspFile, v: Vertex) {
    v.index < |b.vertexes| && v == VertexOf(b, v.index)
  }

  lemma ResolvedFaceCanonical(b: BspFile, f: nat)
    requires ResolveFace(b, f).Ok?
    ensures var face := ResolveFace(b, f).value;
            (forall i :: 0 <= i < |face.vertexes| ==> Canonical(b, face.vertexes[i])) &&
            (forall i :: 0 <= i < |face.edges| ==>
               Canonical(b, face.edges[i].vertex0) && Canonical(b, face.edges[i].vertex1))
  {
    FaceEdgesSpec(b, f);
    ResolveFaceSpec(b, f);
  }

  lemma ResolvedModelsCanonical(b: BspFile, m: nat, j: nat)
    requires ResolveModels(b).Ok? && m < |ResolveModels(b).value|
    requires j < |ResolveModels(b).value[m].faces|
    ensures var face := ResolveModels(b).value[m].faces[j];
            (forall i :: 0 <= i < |face.vertexes| ==> Canonical(b, face.vertexes[i])) &&
            (forall i :: 0 <= i < |face.edges| ==>
               Canonical(b, face.edges[i].vertex0) && Canonical(b, face.edges[i].vertex1))
  {
    ResolveModelsSpec(b);
    ResolvedFaceCanonical(b, b.models[m].firstFace + j);
  }

  /** Because every index resolves to one cached Vertex, `Model.vertexes`
      holds each referenced vertex index exactly once (vertices with equal
      coordinates but different indices are all kept). */
  lemma ModelVertexesOnePerIndex(b: BspFile, m: nat)
    requires ResolveModels(b).Ok? && m < |ResolveModels(b).value|
    ensures var model := ResolveModels(b).value[m];
            var vs := ModelVertexes(model);
            (forall j, i :: 0 <= j < |model.faces| && 0 <= i < |model.faces[j].vertexes| ==>
               model.faces[j].vertexes[i] in vs) &&
            (forall k :: 0 <= k < |vs| ==> Canonical(b, vs[k])) &&
            (forall k, l :: 0 <= k < l < |vs| ==> vs[k].index != vs[l].index)
  {
    var model := ResolveModels(b).value[m];
    var per := seq(|model.faces|, i requires 0 <= i < |model.faces| => model.faces[i].vertexes);
    var vs := ModelVertexes(model);
    forall k | 0 <= k < |vs| ensures Canonical(b, vs[k]) {
      assert vs[k] in Flatten(per);
      var j :| 0 <= j < |per| && vs[k] in per[j];
      ResolvedModelsCanonical(b, m, j);
    }
    forall j, i | 0 <= j < |model.faces| && 0 <= i < |model.faces[j].vertexes|
      ensures model.faces[j].vertexes[i] in vs
    {
      assert per[j][i] == model.faces[j].vertexes[i];
    }
  }

  /** `Model.edges` keeps one entry per ordered endpoint pair, so an edge and
      its reversal are both kept. */
  lemma ModelEdgesByOrderedPair(b: BspFile, m: nat)
    requires ResolveModels(b).Ok? && m < |ResolveModels(b).value|
    ensures var model := ResolveModels(b).value[m];
            var es := ModelEdges(model);
            (forall j, i :: 0 <= j < |model.faces| && 0 <= i < |model.faces[j].edges| ==>
               model.faces[j].edges[i] in es) &&
            (forall k, l :: 0 <= k < l < |es| ==>
               (es[k].vertex0.index, es[k].vertex1.index) != (es[l].vertex0.index, es[l].vertex1.index))
  {
    var model := ResolveModels(b).value[m];
    var per := seq(|model.faces|, i requires 0 <= i < |model.faces| => model.faces[i].edges);
    var es := ModelEdges(model);
    forall k | 0 <= k < |es|
      ensures Canonical(b, es[k].vertex0) && Canonical(b, es[k].vertex1)
    {
      assert es[k] in Flatten(per);
      var j :| 0 <= j < |per| && es[k] in per[j];
      ResolvedModelsCanonical(b, m, j);
    }
    forall j, i | 0 <= j < |model.faces| && 0 <= i < |model.faces[j].edges|
      ensures model.faces[j].edges[i] in es
    {
      assert per[j][i] == model.faces[j].edges[i];
    }
  }

  // ------------------------------------------------------- memoised resolver

  /** `p + xs` for a successful `r == Ok(xs)`; the error otherwise. */
  function Prepend<T>(p: seq<T>, r: Result<seq<T>, ResolveError>): Result<seq<T>, ResolveError> {
    match r
    case Ok(xs) => Ok(p + xs)
    case Err(x) => Err(x)
  }

  lemma PrependEmpty<T>(r: Result<seq<T>, ResolveError>)
    ensures Prepend([], r) == r
  {
    if r.Ok? { assert [] + r.value == r.value; }
  }

  lemma PrependPrepend<T>(p: seq<T>, x: T, r: Result<seq<T>, ResolveError>)
    ensures Prepend(p, Prepend([x], r)) == Prepend(p + [x], r)
  {
    if r.Ok? { assert p + ([x] + r.value) == (p + [x]) + r.value; }
  }

  /** One step of `get_edges`'s loop, read off `ResolveEdgeList`. */
  lemma EdgeListStep(b: BspFile, es: seq<int>, k: nat)
    requires k < |es|
    ensures ResolveEdge(b, es[k]).Err? ==> ResolveEdgeList(b, es[k..]) == Err(ResolveEdge(b, es[k]).error)
    ensures ResolveEdge(b, es[k]).Ok? ==>
              ResolveEdgeList(b, es[k..]) == Prepend([ResolveEdge(b, es[k]).value], ResolveEdgeList(b, es[k + 1..]))
  {
    assert es[k..][0] == es[k] && es[k..][1..] == es[k + 1..];
  }

  lemma ModelListStep(b: BspFile, ms: seq<BspModel>, k: nat)
    requires k < |ms|
    ensures ResolveModel(b, ms[k]).Err? ==> ResolveModelList(b, ms[k..]) == Err(ResolveModel(b, ms[k]).error)
    ensures ResolveModel(b, ms[k]).Ok? ==>
              ResolveModelList(b, ms[k..]) == Prepend([ResolveModel(b, ms[k]).value], ResolveModelList(b, ms[k + 1..]))
  {
    assert ms[k..][0] == ms[k] && ms[k..][1..] == ms[k + 1..];
  }

  /** `process_face` raises the first error among its four lookups. */
  lemma ResolveFaceUnfold(b: BspFile, f: nat)
    ensures FaceEdges(b, f).Err? ==> ResolveFace(b, f) == Err(FaceEdges(b, f).error)
    ensures FaceEdges(b, f).Ok? ==> FaceVertexes(b, f).Ok?
    ensures FaceEdges(b, f).Ok? && FaceVertexes(b, f).Ok? && FacePlane(b, f).Err? ==>
              ResolveFace(b, f) == Err(FacePlane(b, f).error)
    ensures FaceEdges(b, f).Ok? && FaceVertexes(b, f).Ok? && FacePlane(b, f).Ok? && FaceTextureName(b, f).Err? ==>
              ResolveFace(b, f) == Err(FaceTextureName(b, f).error)
    ensures FaceEdges(b, f).Ok? && FaceVertexes(b, f).Ok? && FacePlane(b, f).Ok? && FaceTextureName(b, f).Ok? ==>
              ResolveFace(b, f) == Ok(Face(FaceVertexes(b, f).value, FaceEdges(b, f).value,
                                           FacePlane(b, f).value, FaceTextureName(b, f).value))
  {
  }

  /** The state of one `Bsp.open` call: the decoded file and the `lru_cache`
      memo table of each inner resolver, as a map from argument to returned
      value. A call that raises leaves no entry, as with `lru_cache`. */
  class BspResolver {
    const file: BspFile
    var vertexCache: map<nat, Vertex>
    var edgesCache: map<nat, seq<Edge>>
    var vertexesCache: map<nat, seq<Vertex>>
    var planeCache: map<nat, Plane>
    var textureNameCache: map<nat, string>
    var faceCache: map<nat, Face>

    /** Every memoised value is the value a fresh resolution gives. */
    ghost predicate Valid()
      reads this
    {
      && (forall i :: i in vertexCache ==> ResolveVertex(file, i) == Ok(vertexCache[i]))
      && (forall f :: f in edgesCache ==> FaceEdges(file, f) == Ok(edgesCache[f]))
      && (forall f :: f in vertexesCache ==> FaceVertexes(file, f) == Ok(vertexesCache[f]))
      && (forall f :: f in planeCache ==> FacePlane(file, f) == Ok(planeCache[f]))
      && (forall f :: f in textureNameCache ==> FaceTextureName(file, f) == Ok(textureNameCache[f]))
      && (forall f :: f in faceCache ==> ResolveFace(file, f) == Ok(faceCache[f]))
    }

    /** Memo tables only gain entries. */
    twostate predicate Grows()
      reads this
    {
      && old(vertexCache).Keys <= vertexCache.Keys
      && old(edgesCache).Keys <= edgesCache.Keys
      && old(vertexesCache).Keys <= vertexesCache.Keys
      && old(planeCache).Keys <= planeCache.Keys
      && old(textureNameCache).Keys <= textureNameCache.Keys
      && old(faceCache).Keys <= faceCache.Keys
    }

    constructor (b: BspFile)
      ensures Valid() && file == b
      ensures vertexCache == map[] && edgesCache == map[] && vertexesCache == map[]
      ensures planeCache == map[] && textureNameCache == map[] && faceCache == map[]
    {
      file := b;
      vertexCache, edgesCache, vertexesCache := map[], map[], map[];
      planeCache, textureNameCache, faceCache := map[], map[], map[];
    }

    /** `process_vertex(index)`: an index already seen is served from the memo
        table, so it always yields the same Vertex. */
    method ProcessVertex(i: nat) returns (r: Result<Vertex, ResolveError>)
      requires Valid()
      modifies this`vertexCache
      ensures Valid() && Grows()
      ensures r == ResolveVertex(file, i)
      ensures i in old(vertexCache) ==> r == Ok(old(vertexCache)[i]) && vertexCache == old(vertexCache)
      ensures r.Ok? ==> vertexCache == old(vertexCache)[i := r.value]
      ensures r.Err? ==> vertexCache == old(vertexCache)
    {
      if i in vertexCache {
        return Ok(vertexCache[i]);
      }
      if i >= |file.vertexes| {
        return Err(IndexError);
      }
      var v := file.vertexes[i];
      var vertex := Vertex(i, v.x, v.y, v.z);
      vertexCache := vertexCache[i := vertex];
      return Ok(vertex);
    }

    /** `get_edges(face_index)`: one Edge per entry of the surf-edge slice,
        appended in order. */
    method GetEdges(f: nat) returns (r: Result<seq<Edge>, ResolveError>)
      requires Valid()
      modifies this`edgesCache, this`vertexCache
      ensures Valid() && Grows()
      ensures r == FaceEdges(file, f)
      ensures f in old(edgesCache) ==> edgesCache == old(edgesCache) && vertexCache == old(vertexCache)
    {
      if f in edgesCache {
        return Ok(edgesCache[f]);
      }
      if f >= |file.faces| {
        return Err(IndexError);
      }
      var es := SurfEdgeSlice(file, file.faces[f]);
      var result: seq<Edge> := [];
      var k := 0;
      assert es[k..] == es;
      PrependEmpty(ResolveEdgeList(file, es));
      while k < |es|
        invariant 0 <= k <= |es|
        invariant Valid() && Grows()
        invariant edgesCache == old(edgesCache)
        invariant ResolveEdgeList(file, es) == Prepend(result, ResolveEdgeList(file, es[k..]))
      {
        EdgeListStep(file, es, k);
        var edge := ProcessEdge(es[k]);
        if edge.Err? {
          return Err(edge.error);
        }
        PrependPrepend(result, edge.value, ResolveEdgeList(file, es[k + 1..]));
        result := result + [edge.value];
        k := k + 1;
      }
      assert es[k..] == [] && result + [] == result;
      edgesCache := edgesCache[f := result];
      return Ok(result);
    }

    /** One iteration of `get_edges`: the edge's two vertices, in the order
        the sign of the surf-edge gives. */
    method ProcessEdge(e: int) returns (r: Result<Edge, ResolveError>)
      requires Valid()
      modifies this`vertexCache
      ensures Valid() && Grows()
      ensures r == ResolveEdge(file, e)
    {
      if Abs(e) >= |file.edges| {
        return Err(IndexError);
      }
      var pair := file.edges[Abs(e)];
      var v := if e < 0 then [pair.vertex1, pair.vertex0] else [pair.vertex0, pair.vertex1];
      var v0 := ProcessVertex(v[0]);
      if v0.Err? {
        return Err(v0.error);
      }
      var v1 := ProcessVertex(v[1]);
      if v1.Err? {
        return Err(v1.error);
      }
      return Ok(Edge(v0.value, v1.value));
    }

    /** `get_vertexes(face_index)`: the first vertex of each edge. */
    method GetVertexes(f: nat) returns (r: Result<seq<Vertex>, ResolveError>)
      requires Valid()
      modifies this`vertexesCache, this`edgesCache, this`vertexCache
      ensures Valid() && Grows()
      ensures r == FaceVertexes(file, f)
    {
      if f in vertexesCache {
        return Ok(vertexesCache[f]);
      }
      var edges := GetEdges(f);
      if edges.Err? {
        return Err(edges.error);
      }
      var vs := FirstVertexes(edges.value);
      vertexesCache := vertexesCache[f := vs];
      return Ok(vs);
    }

    /** `get_plane(face_index)`. */
    method GetPlane(f: nat) returns (r: Result<Plane, ResolveError>)
      requires Valid()
      modifies this`planeCache
      ensures Valid() && Grows()
      ensures r == FacePlane(file, f)
    {
      if f in planeCache {
        return Ok(planeCache[f]);
      }
      if f >= |file.faces| || file.faces[f].planeNumber >= |file.planes| {
        return Err(IndexError);
      }
      var plane := file.planes[file.faces[f].planeNumber];
      planeCache := planeCache[f := plane];
      return Ok(plane);
    }

    /** `get_texture_name(face_index)`: faces, then texture_infos, then miptextures. */
    method GetTextureName(f: nat) returns (r: Result<string, ResolveError>)
      requires Valid()
      modifies this`textureNameCache
      ensures Valid() && Grows()
      ensures r == FaceTextureName(file, f)
    {
      if f in textureNameCache {
        return Ok(textureNameCache[f]);
      }
      if f >= |file.faces| || file.faces[f].textureInfo >= |file.textureInfos| {
        return Err(IndexError);
      }
      var m := file.textureInfos[file.faces[f].textureInfo].miptextureNumber;
      if m >= |file.miptextures| {
        return Err(IndexError);
      }
      if file.miptextures[m].None? {
        return Err(NoneName);
      }
      var name := file.miptextures[m].value.name;
      textureNameCache := textureNameCache[f := name];
      return Ok(name);
    }

    /** `process_face(face_index)`: a face seen before is served from the
        memo table and no table changes; a new face is resolved and, when it
        resolves, memoised. */
    method ProcessFace(f: nat) returns (r: Result<Face, ResolveError>)
      requires Valid()
      modifies this
      ensures Valid() && Grows()
      ensures r == ResolveFace(file, f)
      ensures f in old(faceCache) ==> r == Ok(old(faceCache)[f]) && unchanged(this)
      ensures f !in old(faceCache) && r.Ok? ==> faceCache == old(faceCache)[f := r.value]
      ensures r.Err? ==> faceCache == old(faceCache)
    {
      if f in faceCache {
        return Ok(faceCache[f]);
      }
      r := FaceParts(f);
      if r.Ok? {
        faceCache := faceCache[f := r.value];
      }
    }

    /** The four lookups of `process_face`, in the source's order; the
        first that raises ends the call. */
    method FaceParts(f: nat) returns (r: Result<Face, ResolveError>)
      requires Valid()
      modifies this`edgesCache, this`vertexCache, this`vertexesCache, this`planeCache, this`textureNameCache
      ensures Valid() && Grows()
      ensures r == ResolveFace(file, f)
    {
      ResolveFaceUnfold(file, f);
      var edges := GetEdges(f);
      if edges.Err? {
        return Err(edges.error);
      }
      // get_edges succeeded, so get_vertexes cannot fail
      var vertexes := GetVertexes(f);
      assert vertexes == FaceVertexes(file, f) && vertexes.Ok?;
      var plane := GetPlane(f);
      if plane.Err? {
        return Err(plane.error);
      }
      var name := GetTextureName(f);
      if name.Err? {
        return Err(name.error);
      }
      return Ok(Face(vertexes.value, edges.value, plane.value, name.value));
    }

    /** `get_faces(bsp_model)`: `process_face(f)` for f in
        `range(first_face, first_face + number_of_faces)`. */
    method GetFaces(bm: BspModel) returns (r: Result<seq<Face>, ResolveError>)
      requires Valid()
      modifies this
      ensures Valid() && Grows()
      ensures r == ResolveFaceRange(file, bm.firstFace, bm.firstFace + bm.numberOfFaces)
    {
      var lo, hi := bm.firstFace, bm.firstFace + bm.numberOfFaces;
      var faces: seq<Face> := [];
      var k := lo;
      PrependEmpty(ResolveFaceRange(file, lo, hi));
      while k < hi
        invariant lo <= k <= hi
        invariant Valid() && Grows()
        invariant ResolveFaceRange(file, lo, hi) == Prepend(faces, ResolveFaceRange(file, k, hi))
        decreases hi - k
      {
        var face := ProcessFace(k);
        if face.Err? {
          return Err(face.error);
        }
        PrependPrepend(faces, face.value, ResolveFaceRange(file, k + 1, hi));
        faces := faces + [face.value];
        k := k + 1;
      }
      assert faces + [] == faces;
      return Ok(faces);
    }

    /** `get_models()`: `process_model(m)` for each source model, in order. */
    method GetModels() returns (r: Result<seq<Model>, ResolveError>)
      requires Valid()
      modifies this
      ensures Valid() && Grows()
      ensures r == ResolveModels(file)
    {
      var models: seq<Model> := [];
      var k := 0;
      assert file.models[k..] == file.models;
      PrependEmpty(ResolveModelList(file, file.models));
      while k < |file.models|
        invariant 0 <= k <= |file.models|
        invariant Valid() && Grows()
        invariant ResolveModels(file) == Prepend(models, ResolveModelList(file, file.models[k..]))
      {
        ModelListStep(file, file.models, k);
        var faces := GetFaces(file.models[k]);
        if faces.Err? {
          return Err(faces.error);
        }
        PrependPrepend(models, Model(faces.value), ResolveModelList(file, file.models[k + 1..]));
        models := models + [Model(faces.value)];
        k := k + 1;
      }
      assert file.models[k..] == [] && models + [] == models;
      return Ok(models);
    }
  }

  /** `Bsp.open`: a fresh resolver over the decoded file, asked for its models. */
  method Open(b: BspFile) returns (r: Result<seq<Model>, ResolveError>)
    ensures r == ResolveModels(b)
  {
    var resolver := new BspResolver(b);
    r := resolver.GetModels();
  }
}
