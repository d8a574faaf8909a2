// Properties of the cubicmap mesh beyond what `GenMeshCubicmap` itself
// promises: which faces the whole mesh holds, where its vertices lie, what
// range its texcoords and normals take, and how each face's normal relates
// to the winding of its triangles.

module CubicmapMeshFacts {
  import opened MazeTypes
  import opened CubicmapMesh

  // ---------------------------------------------------------------------------
  // Winding and normals

  function Sub(a: Vec3, b: Vec3): Vec3 {
    Vec3(a.x - b.x, a.y - b.y, a.z - b.z)
  }

  function Cross(a: Vec3, b: Vec3): Vec3 {
    Vec3(a.y * b.z - a.z * b.y, a.z * b.x - a.x * b.z, a.x * b.y - a.y * b.x)
  }

  function Scale(s: real, v: Vec3): Vec3 {
    Vec3(s * v.x, s * v.y, s * v.z)
  }

  function Add(a: Vec3, b: Vec3): Vec3 {
    Vec3(a.x + b.x, a.y + b.y, a.z + b.z)
  }

  function Unit(b: bool): real {
    if b then 1.0 else 0.0
  }

  /** Where each corner sits in the unit cube whose lowest corner is v6. */
  function Offset(c: Corner): Vec3 {
    Vec3(Unit(c.right), Unit(c.up), Unit(c.front))
  }

  /** The cell's extent along one axis is `cubeSize`. */
  lemma CellExtent(cubeSize: real, i: nat)
    ensures cubeSize * (i as real + 0.5) == cubeSize * (i as real - 0.5) + cubeSize
  {
  }

  /** Every corner is v6 moved by cubeSize times its unit offset. */
  lemma CornerAtOffset(x: nat, z: nat, c: Corner, cubeSize: real)
    ensures CornerPos(x, z, c, cubeSize) == Add(CornerPos(x, z, V6, cubeSize), Scale(cubeSize, Offset(c)))
  {
    CellExtent(cubeSize, x);
    CellExtent(cubeSize, z);
  }

  lemma SubScaled(base: Vec3, s: real, u: Vec3, v: Vec3)
    ensures Sub(Add(base, Scale(s, v)), Add(base, Scale(s, u))) == Scale(s, Sub(v, u))
  {
    assert s * v.x - s * u.x == s * (v.x - u.x);
    assert s * v.y - s * u.y == s * (v.y - u.y);
    assert s * v.z - s * u.z == s * (v.z - u.z);
  }

  lemma EdgeAtOffset(x: nat, z: nat, a: Corner, b: Corner, cubeSize: real)
    ensures Sub(CornerPos(x, z, b, cubeSize), CornerPos(x, z, a, cubeSize)) == Scale(cubeSize, Sub(Offset(b), Offset(a)))
  {
    CornerAtOffset(x, z, a, cubeSize);
    CornerAtOffset(x, z, b, cubeSize);
    SubScaled(CornerPos(x, z, V6, cubeSize), cubeSize, Offset(a), Offset(b));
  }

  /** The corners a, b, c of triangle `t` (0 or 1) of a face, in emission order. */
  function TriangleCorners(k: FaceKind, t: nat): (Corner, Corner, Corner)
    requires t < 2
  {
    match k
    case Top => if t == 0 then (V1, V2, V3) else (V1, V3, V4)
    case Bottom => if t == 0 then (V6, V8, V7) else (V6, V5, V8)
    case Front => if t == 0 then (V2, V7, V3) else (V3, V7, V8)
    case Back => if t == 0 then (V1, V5, V6) else (V1, V4, V5)
    case Right => if t == 0 then (V3, V8, V4) else (V4, V8, V5)
    case Left => if t == 0 then (V1, V7, V2) else (V1, V6, V7)
    case Ceiling => if t == 0 then (V1, V3, V2) else (V1, V4, V3)
    case Floor => if t == 0 then (V6, V7, V8) else (V6, V8, V5)
  }

  /** The two triangles are the face's six emitted corners, three by three. */
  lemma TriangleCornersOfFace(k: FaceKind, t: nat)
    requires t < 2
    ensures var cs := FaceCorners(k);
            TriangleCorners(k, t) == (cs[3 * t], cs[3 * t + 1], cs[3 * t + 2])
  {
  }

  /** The edges b - a and c - a of each triangle on the unit cube. */
  function UnitEdges(k: FaceKind, t: nat): (Vec3, Vec3)
    requires t < 2
  {
    match k
    case Top => if t == 0 then (Vec3(0.0, 0.0, 1.0), Vec3(1.0, 0.0, 1.0)) else (Vec3(1.0, 0.0, 1.0), Vec3(1.0, 0.0, 0.0))
    case Bottom => if t == 0 then (Vec3(1.0, 0.0, 1.0), Vec3(0.0, 0.0, 1.0)) else (Vec3(1.0, 0.0, 0.0), Vec3(1.0, 0.0, 1.0))
    case Front => if t == 0 then (Vec3(0.0, -1.0, 0.0), Vec3(1.0, 0.0, 0.0)) else (Vec3(-1.0, -1.0, 0.0), Vec3(0.0, -1.0, 0.0))
    case Back => if t == 0 then (Vec3(1.0, -1.0, 0.0), Vec3(0.0, -1.0, 0.0)) else (Vec3(1.0, 0.0, 0.0), Vec3(1.0, -1.0, 0.0))
    case Right => if t == 0 then (Vec3(0.0, -1.0, 0.0), Vec3(0.0, 0.0, -1.0)) else (Vec3(0.0, -1.0, 1.0), Vec3(0.0, -1.0, 0.0))
    case Left => if t == 0 then (Vec3(0.0, -1.0, 1.0), Vec3(0.0, 0.0, 1.0)) else (Vec3(0.0, -1.0, 0.0), Vec3(0.0, -1.0, 1.0))
    case Ceiling => if t == 0 then (Vec3(1.0, 0.0, 1.0), Vec3(0.0, 0.0, 1.0)) else (Vec3(1.0, 0.0, 0.0), Vec3(1.0, 0.0, 1.0))
    case Floor => if t == 0 then (Vec3(0.0, 0.0, 1.0), Vec3(1.0, 0.0, 1.0)) else (Vec3(1.0, 0.0, 1.0), Vec3(1.0, 0.0, 0.0))
  }

  lemma UnitEdgesOfCorners(k: FaceKind, t: nat)
    requires t < 2
    ensures var abc := TriangleCorners(k, t);
            UnitEdges(k, t) == (Sub(Offset(abc.1), Offset(abc.0)), Sub(Offset(abc.2), Offset(abc.0)))
  {
    if t == 0 {
      match k {
        case Top => case Bottom => case Front => case Back =>
        case Right => case Left => case Ceiling => case Floor =>
      }
    } else {
      match k {
        case Top => case Bottom => case Front => case Back =>
        case Right => case Left => case Ceiling => case Floor =>
      }
    }
  }

  /** Both triangles of every face wind counter-clockwise around the face's
      outward normal: (b - a) x (c - a) is that normal. */
  lemma WindingMatchesNormal(k: FaceKind, t: nat)
    requires t < 2
    ensures Cross(UnitEdges(k, t).0, UnitEdges(k, t).1) == FaceNormal(k)
  {
  }

  lemma FaceVertexAt(f: Face, cubeSize: real, j: nat)
    requires j < 6
    ensures FaceVertices(f, cubeSize)[j] == CornerPos(f.x, f.z, FaceCorners(f.kind)[j], cubeSize)
  {
  }

  /** At any cell and size the triangle's edges are cubeSize times its edges
      on the unit cube, so for cubeSize > 0 its winding defines the same normal. */
  lemma TriangleEdgesScale(f: Face, cubeSize: real, t: nat)
    requires t < 2
    ensures var vs := FaceVertices(f, cubeSize);
            Sub(vs[3 * t + 1], vs[3 * t]) == Scale(cubeSize, UnitEdges(f.kind, t).0) &&
            Sub(vs[3 * t + 2], vs[3 * t]) == Scale(cubeSize, UnitEdges(f.kind, t).1)
  {
    var abc := TriangleCorners(f.kind, t);
    TriangleCornersOfFace(f.kind, t);
    UnitEdgesOfCorners(f.kind, t);
    FaceVertexAt(f, cubeSize, 3 * t);
    FaceVertexAt(f, cubeSize, 3 * t + 1);
    FaceVertexAt(f, cubeSize, 3 * t + 2);
    EdgeAtOffset(f.x, f.z, abc.0, abc.1, cubeSize);
    EdgeAtOffset(f.x, f.z, abc.0, abc.2, cubeSize);
  }

  /** As written, the face toward z+1 and the face toward z-1 get normals
      pointing into their cube: the opposite of those their triangles wind around. */
  lemma AsWrittenNormalsInward(k: FaceKind, t: nat)
    requires t < 2 && (k == Front || k == Back)
    ensures Cross(UnitEdges(k, t).0, UnitEdges(k, t).1) == Scale(-1.0, FaceNormalAsWritten(k))
    ensures FaceNormalAsWritten(k) != FaceNormal(k)
  {
    WindingMatchesNormal(k, t);
    var n := FaceNormal(k);
    assert FaceNormalAsWritten(k) == Vec3(-n.x, -n.y, -n.z);
  }

  /** For the other six kinds of face the stored normal is the outward one. */
  lemma NormalCorrectionOnlyAlongZ(k: FaceKind)
    ensures FaceNormal(k) == FaceNormalAsWritten(k) <==> k != Front && k != Back
  {
  }

  /** A single wall cell: the generated mesh holds the cube's six faces, and
      the normal stored for the first vertex of the face toward z+1 (vertex 12,
      normal component 38) has z component -1, although that face's outward
      normal points along +z. */
  lemma SingleWallFrontNormal(g: Grid)
    requires g == Grid(1, 1, [[Color(255, 255, 255, 255)]])
    ensures MeshFaces(g) == [Face(Top, 0, 0), Face(Bottom, 0, 0), Face(Front, 0, 0),
                             Face(Back, 0, 0), Face(Right, 0, 0), Face(Left, 0, 0)]
    ensures Flatten3(NormalStream(MeshFaces(g)))[38] == -1.0 && FaceNormal(Front).z == 1.0
  {
    SingleWallFaces(g);
    StoredFrontNormal(MeshFaces(g), 2);
  }

  /** Every vertex of a face toward z+1 is stored with normal z component -1. */
  lemma StoredFrontNormal(fs: seq<Face>, i: nat)
    requires i < |fs| && fs[i].kind == Front
    ensures Flatten3(NormalStream(fs))[18 * i + 2] == -1.0
  {
    var ns := NormalStream(fs);
    StoredNormal(fs, i);
    Flatten3At(ns, 6 * i);
  }

  /** The first normal stored for face i is the one the source gives its kind. */
  lemma {:induction false} StoredNormal(fs: seq<Face>, i: nat)
    requires i < |fs|
    ensures NormalStream(fs)[6 * i] == FaceNormalAsWritten(fs[i].kind)
  {
    var init, last := fs[..|fs| - 1], fs[|fs| - 1];
    assert NormalStream(fs) == NormalStream(init) + FaceNormals(last);
    if i < |init| {
      StoredNormal(init, i);
      assert init[i] == fs[i];
    }
  }

  lemma SingleWallFaces(g: Grid)
    requires g == Grid(1, 1, [[Color(255, 255, 255, 255)]])
    ensures MeshFaces(g) == [Face(Top, 0, 0), Face(Bottom, 0, 0), Face(Front, 0, 0),
                             Face(Back, 0, 0), Face(Right, 0, 0), Face(Left, 0, 0)]
  {
    assert IsPureWhite(CellColor(g, 0, 0));
    assert FrontVisible(g, 0, 0) && BackVisible(g, 0, 0) && RightVisible(g, 0, 0) && LeftVisible(g, 0, 0);
    assert SideFaces(0, 0, true, true, true, true) == [Face(Front, 0, 0), Face(Back, 0, 0), Face(Right, 0, 0), Face(Left, 0, 0)];
    var cell := CellFaces(g, 0, 0);
    assert RowFaces(g, 0, 1) == cell;
    assert MeshFaces(g) == RowFaces(g, 0, 1);
  }

  // ---------------------------------------------------------------------------
  // Which faces the mesh holds

  lemma CellFacesMember(g: Grid, x: nat, z: nat, f: Face)
    requires g.Valid() && x < g.width && z < g.height
    ensures f in CellFaces(g, x, z) <==> f.x == x && f.z == z && Emits(g, f.kind, x, z)
  {
    if f.x == x && f.z == z {
      CellFacesExact(g, x, z, f.kind);
    }
  }

  lemma RowFacesSnoc(g: Grid, z: nat, n: nat)
    requires g.Valid() && z < g.height && 0 < n <= g.width
    ensures RowFaces(g, z, n) == RowFaces(g, z, n - 1) + CellFaces(g, n - 1, z)
  {
  }

  /** Concatenation of a sequence of face sequences. */
  function Join(parts: seq<seq<Face>>): seq<Face> {
    if parts == [] then [] else Join(parts[..|parts| - 1]) + parts[|parts| - 1]
  }

  lemma {:induction false} JoinMember(parts: seq<seq<Face>>, f: Face)
    ensures f in Join(parts) <==> exists i :: 0 <= i < |parts| && f in parts[i]
  {
    if parts != [] {
      var init, last := parts[..|parts| - 1], parts[|parts| - 1];
      JoinMember(init, f);
      assert Join(parts) == Join(init) + last;
      if f in Join(parts) {
        if f in last {
          assert f in parts[|parts| - 1];
        } else {
          var i :| 0 <= i < |init| && f in init[i];
          assert f in parts[i];
        }
      }
      if i :| 0 <= i < |parts| && f in parts[i] {
        if i < |init| {
          assert f in init[i];
        } else {
          assert f in last;
        }
      }
    }
  }

  /** The faces of cells (0, z) .. (n-1, z), one sequence per cell. */
  function RowCells(g: Grid, z: nat, n: nat): (parts: seq<seq<Face>>)
    requires g.Valid() && z < g.height && n <= g.width
    ensures |parts| == n
  {
    seq(n, x requires 0 <= x < n => CellFaces(g, x, z))
  }

  lemma {:induction false} RowFacesJoin(g: Grid, z: nat, n: nat)
    requires g.Valid() && z < g.height && n <= g.width
    ensures RowFaces(g, z, n) == Join(RowCells(g, z, n))
  {
    if n > 0 {
      RowFacesJoin(g, z, n - 1);
      assert RowCells(g, z, n)[..n - 1] == RowCells(g, z, n - 1);
      RowFacesSnoc(g, z, n);
    }
  }

  /** The faces of rows 0 .. rows-1, one sequence per row. */
  function Rows(g: Grid, rows: nat): (parts: seq<seq<Face>>)
    requires g.Valid() && rows <= g.height
    ensures |parts| == rows
  {
    seq(rows, z requires 0 <= z < rows => RowFaces(g, z, g.width))
  }

  lemma {:induction false} RowsFacesJoin(g: Grid, rows: nat)
    requires g.Valid() && rows <= g.height
    ensures RowsFaces(g, rows) == Join(Rows(g, rows))
  {
    if rows > 0 {
      RowsFacesJoin(g, rows - 1);
      assert Rows(g, rows)[..rows - 1] == Rows(g, rows - 1);
    }
  }

  lemma CellFacesPos(g: Grid, x: nat, z: nat, f: Face)
    requires g.Valid() && x < g.width && z < g.height && f in CellFaces(g, x, z)
    ensures f.x == x && f.z == z
  {
  }

  /** A face lies in the mesh exactly when the cell it names contributes it. */
  lemma MeshFacesMember(g: Grid, f: Face)
    requires g.Valid()
    ensures f in MeshFaces(g) <==> f.x < g.width && f.z < g.height && f in CellFaces(g, f.x, f.z)
  {
    RowsFacesJoin(g, g.height);
    JoinMember(Rows(g, g.height), f);
    if f in MeshFaces(g) {
      var z :| 0 <= z < g.height && f in Rows(g, g.height)[z];
      RowFacesJoin(g, z, g.width);
      JoinMember(RowCells(g, z, g.width), f);
      var x :| 0 <= x < g.width && f in RowCells(g, z, g.width)[x];
      CellFacesPos(g, x, z, f);
    }
    if f.x < g.width && f.z < g.height && f in CellFaces(g, f.x, f.z) {
      RowFacesJoin(g, f.z, g.width);
      JoinMember(RowCells(g, f.z, g.width), f);
      assert f in RowCells(g, f.z, g.width)[f.x];
      assert f in Rows(g, g.height)[f.z];
    }
  }

  /** The mesh holds a face exactly when its cell lies in the map and the
      reference statement says that cell emits it. */
  lemma MeshFacesExact(g: Grid, k: FaceKind, x: nat, z: nat)
    requires g.Valid()
    ensures Face(k, x, z) in MeshFaces(g) <==> x < g.width && z < g.height && Emits(g, k, x, z)
  {
    MeshFacesMember(g, Face(k, x, z));
    if x < g.width && z < g.height {
      CellFacesMember(g, x, z, Face(k, x, z));
    }
  }

  /** Every face of the mesh lies on a cell of the map. */
  predicate FacesWithin(fs: seq<Face>, width: nat, height: nat) {
    forall i :: 0 <= i < |fs| ==> fs[i].x < width && fs[i].z < height
  }

  lemma MeshFacesWithin(g: Grid)
    requires g.Valid()
    ensures FacesWithin(MeshFaces(g), g.width, g.height)
  {
    forall i | 0 <= i < |MeshFaces(g)|
      ensures MeshFaces(g)[i].x < g.width && MeshFaces(g)[i].z < g.height
    {
      MeshFacesMember(g, MeshFaces(g)[i]);
    }
  }

  /** A map without walls or open cells yields no geometry at all. */
  lemma NoCellsNoFaces(g: Grid)
    requires g.Valid()
    requires forall x, z :: 0 <= x < g.width && 0 <= z < g.height ==>
               !IsPureWhite(g.cells[z][x]) && !IsPureBlack(g.cells[z][x])
    ensures MeshFaces(g) == []
  {
    if MeshFaces(g) != [] {
      var f := MeshFaces(g)[0];
      MeshFacesMember(g, f);
      assert false;
    }
  }

  // ---------------------------------------------------------------------------
  // Ranges of the generated data

  /** A point inside the box the map occupies: cells are cubeSize wide and
      centred on (x*cubeSize, z*cubeSize), walls are cubeSize high. */
  predicate InMapBox(v: Vec3, width: nat, height: nat, cubeSize: real) {
    -cubeSize / 2.0 <= v.x <= cubeSize * (width as real - 0.5) &&
    0.0 <= v.y <= cubeSize &&
    -cubeSize / 2.0 <= v.z <= cubeSize * (height as real - 0.5)
  }

  /** Either coordinate a cell spans along one axis lies within the map's extent. */
  lemma AxisWithin(cubeSize: real, i: nat, n: nat, high: bool)
    requires cubeSize >= 0.0 && i < n
    ensures var p := if high then cubeSize * (i as real + 0.5) else cubeSize * (i as real - 0.5);
            -cubeSize / 2.0 <= p <= cubeSize * (n as real - 0.5)
  {
    assert cubeSize * (i as real - 0.5) + cubeSize / 2.0 == cubeSize * (i as real);
    CellExtent(cubeSize, i);
    assert cubeSize * (n as real - 0.5) - cubeSize * (i as real + 0.5) == cubeSize * ((n - i - 1) as real);
    MulNonneg(cubeSize, i as real);
    MulNonneg(cubeSize, (n - i - 1) as real);
  }

  lemma CornerInBox(x: nat, z: nat, c: Corner, width: nat, height: nat, cubeSize: real)
    requires cubeSize >= 0.0 && x < width && z < height
    ensures InMapBox(CornerPos(x, z, c, cubeSize), width, height, cubeSize)
  {
    AxisWithin(cubeSize, x, width, c.right);
    AxisWithin(cubeSize, z, height, c.front);
  }

  lemma FaceVerticesInBox(f: Face, width: nat, height: nat, cubeSize: real)
    requires cubeSize >= 0.0 && f.x < width && f.z < height
    ensures forall j :: 0 <= j < 6 ==> InMapBox(FaceVertices(f, cubeSize)[j], width, height, cubeSize)
  {
    forall j | 0 <= j < 6
      ensures InMapBox(FaceVertices(f, cubeSize)[j], width, height, cubeSize)
    {
      CornerInBox(f.x, f.z, FaceCorners(f.kind)[j], width, height, cubeSize);
    }
  }

  /** Every vertex of faces lying on the map lies inside the map's box. */
  lemma {:induction false} VerticesInBox(fs: seq<Face>, width: nat, height: nat, cubeSize: real)
    requires cubeSize >= 0.0 && FacesWithin(fs, width, height)
    ensures forall i :: 0 <= i < |VertexStream(fs, cubeSize)| ==> InMapBox(VertexStream(fs, cubeSize)[i], width, height, cubeSize)
  {
    if fs != [] {
      var init, last := fs[..|fs| - 1], fs[|fs| - 1];
      VerticesInBox(init, width, height, cubeSize);
      FaceVerticesInBox(last, width, height, cubeSize);
      assert VertexStream(fs, cubeSize) == VertexStream(init, cubeSize) + FaceVertices(last, cubeSize);
    }
  }

  /** Every texcoord lies in the unit square of the atlas. */
  predicate InUnitSquare(t: Vec2) {
    0.0 <= t.x <= 1.0 && 0.0 <= t.y <= 1.0
  }

  /** Each face's atlas rectangle lies in the unit square, corners included. */
  lemma AtlasCornersInUnitSquare(k: FaceKind, p: RectCorner)
    ensures InUnitSquare(TexPoint(FaceAtlas(k), p))
  {
    match k
    case Top =>
    case Bottom =>
    case Front =>
    case Back =>
    case Right =>
    case Left =>
    case Ceiling =>
    case Floor =>
  }

  lemma FaceTexcoordsInAtlas(f: Face)
    ensures forall j :: 0 <= j < 6 ==> InUnitSquare(FaceTexcoords(f)[j])
  {
    forall j | 0 <= j < 6
      ensures InUnitSquare(FaceTexcoords(f)[j])
    {
      AtlasCornersInUnitSquare(f.kind, FaceUVCorners(f.kind)[j]);
    }
  }

  lemma {:induction false} TexcoordsInAtlas(fs: seq<Face>)
    ensures forall i :: 0 <= i < |TexcoordStream(fs)| ==> InUnitSquare(TexcoordStream(fs)[i])
  {
    if fs != [] {
      var init, last := fs[..|fs| - 1], fs[|fs| - 1];
      TexcoordsInAtlas(init);
      FaceTexcoordsInAtlas(last);
      assert TexcoordStream(fs) == TexcoordStream(init) + FaceTexcoords(last);
    }
  }

  /** Every normal is one of the six unit axis vectors. */
  predicate UnitAxis(n: Vec3) {
    n in {N1, N2, N3, N4, N5, N6}
  }

  lemma {:induction false} NormalsUnitAxes(fs: seq<Face>)
    ensures forall i :: 0 <= i < |NormalStream(fs)| ==> UnitAxis(NormalStream(fs)[i])
  {
    if fs != [] {
      var init, last := fs[..|fs| - 1], fs[|fs| - 1];
      NormalsUnitAxes(init);
      assert NormalStream(fs) == NormalStream(init) + FaceNormals(last);
    }
  }

  /** The whole generated mesh, as `GenMeshCubicmap` describes it, lies in the
      map's box with texcoords in the atlas and axis-aligned unit normals. */
  lemma MeshRanges(g: Grid, cubeSize: real)
    requires g.Valid() && cubeSize >= 0.0
    ensures var fs := MeshFaces(g);
            (forall i :: 0 <= i < |VertexStream(fs, cubeSize)| ==> InMapBox(VertexStream(fs, cubeSize)[i], g.width, g.height, cubeSize)) &&
            (forall i :: 0 <= i < |TexcoordStream(fs)| ==> InUnitSquare(TexcoordStream(fs)[i])) &&
            (forall i :: 0 <= i < |NormalStream(fs)| ==> UnitAxis(NormalStream(fs)[i]))
  {
    MeshFacesWithin(g);
    VerticesInBox(MeshFaces(g), g.width, g.height, cubeSize);
    TexcoordsInAtlas(MeshFaces(g));
    NormalsUnitAxes(MeshFaces(g));
  }
}
