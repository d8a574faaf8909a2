// `GenMeshCubicmap`: the maze mesh generated from a cubicmap image. Each pixel
// is a cell; a pure-white cell is a solid cube whose hidden side faces are
// culled, a pure-black cell is open floor with a ceiling, any other colour is
// nothing. The generator fills worst-case-sized scratch arrays face by face and
// then compacts them into flat float arrays.

module CubicmapMesh {
  import opened MazeTypes
  import opened ImageData

  // ---------------------------------------------------------------------------
  // Cube geometry and texture atlas

  /** A corner of a cell's cube, by the side it lies on along each axis:
      x + 1/2 or x - 1/2, top or ground, z + 1/2 or z - 1/2. */
  datatype Corner = Corner(right: bool, up: bool, front: bool)

  // The eight corners v1..v8 the source defines for every cell.
  const V1 := Corner(false, true, false)
  const V2 := Corner(false, true, true)
  const V3 := Corner(true, true, true)
  const V4 := Corner(true, true, false)
  const V5 := Corner(true, false, false)
  const V6 := Corner(false, false, false)
  const V7 := Corner(false, false, true)
  const V8 := Corner(true, false, true)

  /** Position of corner `c` of the cube at cell (x, z); the source sets
      w = h = h2 = cubeSize, so v1 = (w*(x-0.5), h2, h*(z-0.5)) and so on. */
  function CornerPos(x: nat, z: nat, c: Corner, cubeSize: real): Vec3 {
    var w, h, h2 := cubeSize, cubeSize, cubeSize;
    Vec3(if c.right then w * (x as real + 0.5) else w * (x as real - 0.5),
         if c.up then h2 else 0.0,
         if c.front then h * (z as real + 0.5) else h * (z as real - 0.5))
  }

  // The six face normals n1..n6.
  const N1 := Vec3(1.0, 0.0, 0.0)
  const N2 := Vec3(-1.0, 0.0, 0.0)
  const N3 := Vec3(0.0, 1.0, 0.0)
  const N4 := Vec3(0.0, -1.0, 0.0)
  const N5 := Vec3(0.0, 0.0, 1.0)
  const N6 := Vec3(0.0, 0.0, -1.0)

  /** The source's local `RectangleF`: a quadrant of the 2x2 texture atlas. */
  datatype RectF = RectF(x: real, y: real, width: real, height: real)

  const RightTexUV := RectF(0.0, 0.0, 0.5, 0.5)
  const LeftTexUV := RectF(0.5, 0.0, 0.5, 0.5)
  const FrontTexUV := RectF(0.0, 0.0, 0.5, 0.5)
  const BackTexUV := RectF(0.5, 0.0, 0.5, 0.5)
  const TopTexUV := RectF(0.0, 0.5, 0.5, 0.5)
  const BottomTexUV := RectF(0.5, 0.5, 0.5, 0.5)

  /** Which corner of an atlas rectangle a texcoord takes:
      (x, y), (x, y + height), (x + width, y + height) or (x + width, y). */
  datatype RectCorner = MinMin | MinMax | MaxMax | MaxMin

  function TexPoint(r: RectF, p: RectCorner): Vec2 {
    match p
    case MinMin => Vec2(r.x, r.y)
    case MinMax => Vec2(r.x, r.y + r.height)
    case MaxMax => Vec2(r.x + r.width, r.y + r.height)
    case MaxMin => Vec2(r.x + r.width, r.y)
  }

  /** The eight kinds of face the generator emits: the six faces of a wall cube
      and the ceiling and floor of an open cell. Front is the face toward z+1,
      Back toward z-1, Right toward x+1, Left toward x-1. */
  datatype FaceKind = Top | Bottom | Front | Back | Right | Left | Ceiling | Floor

  /** Two triangles of one kind at cell (x, z). */
  datatype Face = Face(kind: FaceKind, x: nat, z: nat)

  /** Whether corner `c` lies on the side of the cube that face kind `k` covers. */
  predicate OnSide(k: FaceKind, c: Corner) {
    match k
    case Top => c.up
    case Ceiling => c.up
    case Bottom => !c.up
    case Floor => !c.up
    case Front => c.front
    case Back => !c.front
    case Right => c.right
    case Left => !c.right
  }

  /** The six corners of each face's two triangles, in emission order. */
  function FaceCorners(k: FaceKind): (cs: seq<Corner>)
    ensures |cs| == 6
  {
    match k
    case Top => [V1, V2, V3, V1, V3, V4]
    case Bottom => [V6, V8, V7, V6, V5, V8]
    case Front => [V2, V7, V3, V3, V7, V8]
    case Back => [V1, V5, V6, V1, V4, V5]
    case Right => [V3, V8, V4, V4, V8, V5]
    case Left => [V1, V7, V2, V1, V6, V7]
    case Ceiling => [V1, V3, V2, V1, V4, V3]
    case Floor => [V6, V7, V8, V6, V8, V5]
  }

  /** The normal each face is given in the source, and so in the generated
      mesh: a unit vector along the face's own axis. The face toward z+1
      carries n6 = (0, 0, -1) and the face toward z-1 carries n5 = (0, 0, 1),
      which point into the cube rather than out of it (see
      `AsWrittenNormalsInward`). */
  function FaceNormalAsWritten(k: FaceKind): (n: Vec3)
    ensures n == N1 || n == N2 || n == N3 || n == N4 || n == N5 || n == N6
    ensures n.x != 0.0 <==> k == Right || k == Left
    ensures n.y != 0.0 <==> k == Top || k == Bottom || k == Ceiling || k == Floor
    ensures n.z != 0.0 <==> k == Front || k == Back
    ensures n.y > 0.0 <==> k == Top || k == Floor
  {
    match k
    case Top => N3
    case Bottom => N4
    case Front => N6
    case Back => N5
    case Right => N1
    case Left => N2
    case Ceiling => N4
    case Floor => N3
  }

  /** The outward normal of each face: the one its triangles' winding defines
      (`WindingMatchesNormal`). It differs from the source's only for the two
      faces along z, whose n5 and n6 are exchanged. */
  function FaceNormal(k: FaceKind): (n: Vec3)
    ensures n == N1 || n == N2 || n == N3 || n == N4 || n == N5 || n == N6
    ensures (n.x > 0.0 <==> k == Right) && (n.x < 0.0 <==> k == Left)
    ensures (n.z > 0.0 <==> k == Front) && (n.z < 0.0 <==> k == Back)
    ensures (n.y > 0.0 <==> k == Top || k == Floor) && (n.y < 0.0 <==> k == Bottom || k == Ceiling)
  {
    match k
    case Top => N3
    case Bottom => N4
    case Front => N5
    case Back => N6
    case Right => N1
    case Left => N2
    case Ceiling => N4
    case Floor => N3
  }

  /** The atlas quadrant each face samples: side faces the lower row, top,
      bottom, ceiling and floor the upper row. */
  function FaceAtlas(k: FaceKind): (r: RectF)
    ensures r.width == 0.5 && r.height == 0.5
    ensures (r.x == 0.0 || r.x == 0.5) && (r.y == 0.0 || r.y == 0.5)
    ensures r.y == 0.5 <==> k == Top || k == Bottom || k == Ceiling || k == Floor
  {
    match k
    case Top => TopTexUV
    case Bottom => BottomTexUV
    case Front => FrontTexUV
    case Back => BackTexUV
    case Right => RightTexUV
    case Left => LeftTexUV
    case Ceiling => TopTexUV
    case Floor => BottomTexUV
  }

  /** The atlas corners of each face's six texcoords, in emission order. */
  function FaceUVCorners(k: FaceKind): (ps: seq<RectCorner>)
    ensures |ps| == 6
  {
    match k
    case Top => [MinMin, MinMax, MaxMax, MinMin, MaxMax, MaxMin]
    case Bottom => [MaxMin, MinMax, MaxMax, MaxMin, MinMin, MinMax]
    case Front => [MinMin, MinMax, MaxMin, MaxMin, MinMax, MaxMax]
    case Back => [MaxMin, MinMax, MaxMax, MaxMin, MinMin, MinMax]
    case Right => [MinMin, MinMax, MaxMin, MaxMin, MinMax, MaxMax]
    case Left => [MinMin, MaxMax, MaxMin, MinMin, MinMax, MaxMax]
    case Ceiling => [MinMin, MaxMax, MinMax, MinMin, MaxMin, MaxMax]
    case Floor => [MaxMin, MaxMax, MinMax, MaxMin, MinMax, MinMin]
  }

  function FaceVertices(f: Face, cubeSize: real): (vs: seq<Vec3>)
    ensures |vs| == 6
  {
    var cs := FaceCorners(f.kind);
    [CornerPos(f.x, f.z, cs[0], cubeSize), CornerPos(f.x, f.z, cs[1], cubeSize),
     CornerPos(f.x, f.z, cs[2], cubeSize), CornerPos(f.x, f.z, cs[3], cubeSize),
     CornerPos(f.x, f.z, cs[4], cubeSize), CornerPos(f.x, f.z, cs[5], cubeSize)]
  }

  function FaceNormals(f: Face): (ns: seq<Vec3>)
    ensures |ns| == 6
  {
    var n := FaceNormalAsWritten(f.kind);
    [n, n, n, n, n, n]
  }

  function FaceTexcoords(f: Face): (ts: seq<Vec2>)
    ensures |ts| == 6
  {
    var r, ps := FaceAtlas(f.kind), FaceUVCorners(f.kind);
    [TexPoint(r, ps[0]), TexPoint(r, ps[1]), TexPoint(r, ps[2]),
     TexPoint(r, ps[3]), TexPoint(r, ps[4]), TexPoint(r, ps[5])]
  }

  /** Each corner lies half a cube either side of the cell centre
      (cubeSize * x, cubeSize * z), on the ground or at the cube's height. */
  lemma CornerPosOffsets(x: nat, z: nat, c: Corner, cubeSize: real)
    ensures var p := CornerPos(x, z, c, cubeSize);
      p.x - cubeSize * x as real == (if c.right then cubeSize / 2.0 else -cubeSize / 2.0) &&
      p.z - cubeSize * z as real == (if c.front then cubeSize / 2.0 else -cubeSize / 2.0) &&
      (p.y == 0.0 || p.y == cubeSize)
  {
  }

  /** Each face is two proper triangles on the face's own side of the cube
      that together use all four of that side's corners. */
  lemma FaceCornersCoverSide(k: FaceKind)
    ensures var cs := FaceCorners(k);
      (forall i :: 0 <= i < 6 ==> OnSide(k, cs[i])) &&
      cs[0] != cs[1] && cs[1] != cs[2] && cs[0] != cs[2] &&
      cs[3] != cs[4] && cs[4] != cs[5] && cs[3] != cs[5]
    ensures forall c :: OnSide(k, c) ==> c in FaceCorners(k)
  {
    forall c | OnSide(k, c)
      ensures c in FaceCorners(k)
    {
      CornerIsNamed(c);
    }
  }

  /** Every corner is one of v1..v8. */
  lemma CornerIsNamed(c: Corner)
    ensures c == V1 || c == V2 || c == V3 || c == V4 || c == V5 || c == V6 || c == V7 || c == V8
  {
    assert c == Corner(c.right, c.up, c.front);
  }

  /** Each face's texcoords are two proper triangles that together use all
      four corners of its atlas quadrant. */
  lemma FaceUVCornersCoverRect(k: FaceKind)
    ensures var ps := FaceUVCorners(k);
      ps[0] != ps[1] && ps[1] != ps[2] && ps[0] != ps[2] &&
      ps[3] != ps[4] && ps[4] != ps[5] && ps[3] != ps[5]
    ensures forall p: RectCorner :: p in FaceUVCorners(k)
  {
    forall p: RectCorner
      ensures p in FaceUVCorners(k)
    {
      match p
      case MinMin =>
      case MinMax =>
      case MaxMax =>
      case MaxMin =>
    }
  }

  // ---------------------------------------------------------------------------
  // The cubicmap as a grid of cells

  /** An image the generator can read: every pixel decodes (or there are none). */
  predicate ValidCubicmap(image: Image) {
    HasPixelData(image) && (KnownFormat(image.format) || PixelCount(image) == 0)
  }

  /** The index `z*width + x` of cell (x, z) in the row-major pixel buffer,
      counted as z whole rows of `width` pixels and then x more. */
  function CellIndex(width: nat, x: nat, z: nat): nat {
    if z == 0 then x else CellIndex(width, x, z - 1) + width
  }

  lemma {:induction false} CellIndexIsOffset(width: nat, x: nat, z: nat)
    ensures CellIndex(width, x, z) == z * width + x
  {
    if z > 0 {
      CellIndexIsOffset(width, x, z - 1);
      assert z * width == (z - 1) * width + width;
    }
  }

  lemma {:induction false} RowsBelow(width: nat, rows: nat, height: nat)
    requires rows <= height
    ensures rows * width <= height * width
    decreases height - rows
  {
    if rows < height {
      RowsBelow(width, rows + 1, height);
      assert (rows + 1) * width == rows * width + width;
    }
  }

  /** Every cell of a width x height map indexes the buffer of width*height pixels. */
  lemma CellIndexInRange(width: nat, height: nat, x: nat, z: nat)
    requires x < width && z < height
    ensures CellIndex(width, x, z) < width * height
  {
    CellIndexIsOffset(width, x, z);
    RowsBelow(width, z + 1, height);
    assert (z + 1) * width == z * width + width;
  }

  /** `cubicmapPixels[z*cubicmap.width + x]`. */
  function ImageCell(image: Image, x: nat, z: nat): Color
    requires ValidCubicmap(image) && x < image.width && z < image.height
  {
    CellIndexInRange(image.width, image.height, x, z);
    Pixel(image, CellIndex(image.width, x, z)).value
  }

  /** The cubicmap as the generator sees it: `cells[z][x]` is the colour of
      cell (x, z). */
  datatype Grid = Grid(width: nat, height: nat, cells: seq<seq<Color>>) {
    predicate Valid() {
      |cells| == height && forall z :: 0 <= z < |cells| ==> |cells[z]| == width
    }
  }

  /** The grid of a decodable image, row z holding pixels z*width .. z*width + width - 1. */
  function GridOf(image: Image): (g: Grid)
    requires ValidCubicmap(image)
    ensures g.Valid() && g.width == image.width && g.height == image.height
    ensures forall x, z :: 0 <= x < image.width && 0 <= z < image.height ==> g.cells[z][x] == ImageCell(image, x, z)
  {
    Grid(image.width, image.height,
         seq(image.height, z requires 0 <= z < image.height =>
           seq(image.width, x requires 0 <= x < image.width => ImageCell(image, x, z))))
  }

  function CellColor(g: Grid, x: nat, z: nat): Color
    requires g.Valid() && x < g.width && z < g.height
  {
    g.cells[z][x]
  }

  /** The colour of the neighbour of (x, z) at offset (dx, dz), or None when
      that neighbour lies outside the map. */
  function Neighbour(g: Grid, x: nat, z: nat, dx: int, dz: int): Option<Color>
    requires g.Valid()
  {
    if 0 <= x + dx < g.width && 0 <= z + dz < g.height
    then Some(CellColor(g, x + dx, z + dz))
    else None
  }

  /** A wall side is visible when its neighbour is outside the map or open. */
  predicate SideOpen(g: Grid, x: nat, z: nat, dx: int, dz: int)
    requires g.Valid()
  {
    match Neighbour(g, x, z, dx, dz)
    case None => true
    case Some(c) => IsPureBlack(c)
  }

  /** Reference statement of which faces cell (x, z) contributes. */
  predicate Emits(g: Grid, k: FaceKind, x: nat, z: nat)
    requires g.Valid() && x < g.width && z < g.height
  {
    var c := CellColor(g, x, z);
    match k
    case Top => IsPureWhite(c)
    case Bottom => IsPureWhite(c)
    case Front => IsPureWhite(c) && SideOpen(g, x, z, 0, 1)
    case Back => IsPureWhite(c) && SideOpen(g, x, z, 0, -1)
    case Right => IsPureWhite(c) && SideOpen(g, x, z, 1, 0)
    case Left => IsPureWhite(c) && SideOpen(g, x, z, -1, 0)
    case Ceiling => IsPureBlack(c)
    case Floor => IsPureBlack(c)
  }

  // The four side tests exactly as the generator writes them.

  predicate FrontVisible(g: Grid, x: nat, z: nat)
    requires g.Valid() && x < g.width && z < g.height
    ensures FrontVisible(g, x, z) <==> SideOpen(g, x, z, 0, 1)
  {
    (z < g.height - 1 && IsPureBlack(CellColor(g, x, z + 1))) || z == g.height - 1
  }

  predicate BackVisible(g: Grid, x: nat, z: nat)
    requires g.Valid() && x < g.width && z < g.height
    ensures BackVisible(g, x, z) <==> SideOpen(g, x, z, 0, -1)
  {
    (z > 0 && IsPureBlack(CellColor(g, x, z - 1))) || z == 0
  }

  predicate RightVisible(g: Grid, x: nat, z: nat)
    requires g.Valid() && x < g.width && z < g.height
    ensures RightVisible(g, x, z) <==> SideOpen(g, x, z, 1, 0)
  {
    (x < g.width - 1 && IsPureBlack(CellColor(g, x + 1, z))) || x == g.width - 1
  }

  predicate LeftVisible(g: Grid, x: nat, z: nat)
    requires g.Valid() && x < g.width && z < g.height
    ensures LeftVisible(g, x, z) <==> SideOpen(g, x, z, -1, 0)
  {
    (x > 0 && IsPureBlack(CellColor(g, x - 1, z))) || x == 0
  }

  function OptFace(b: bool, f: Face): seq<Face> {
    if b then [f] else []
  }

  /** The four side faces of a wall cube, each emitted when its test holds. */
  function SideFaces(x: nat, z: nat, front: bool, back: bool, right: bool, left: bool): seq<Face> {
    OptFace(front, Face(Front, x, z)) + OptFace(back, Face(Back, x, z))
    + OptFace(right, Face(Right, x, z)) + OptFace(left, Face(Left, x, z))
  }

  lemma SideFacesSplit(done: seq<Face>, x: nat, z: nat, front: bool, back: bool, right: bool, left: bool)
    ensures done + OptFace(front, Face(Front, x, z)) + OptFace(back, Face(Back, x, z))
            + OptFace(right, Face(Right, x, z)) + OptFace(left, Face(Left, x, z))
            == done + SideFaces(x, z, front, back, right, left)
  {
  }

  lemma WallFacesSplit(done: seq<Face>, x: nat, z: nat, front: bool, back: bool, right: bool, left: bool)
    ensures done + [Face(Top, x, z)] + [Face(Bottom, x, z)] + SideFaces(x, z, front, back, right, left)
            == done + WallFaces(x, z, front, back, right, left)
  {
  }

  /** The faces of a wall cube, given which of its four sides are visible. */
  function WallFaces(x: nat, z: nat, front: bool, back: bool, right: bool, left: bool): seq<Face> {
    [Face(Top, x, z), Face(Bottom, x, z)] + SideFaces(x, z, front, back, right, left)
  }

  /** The faces one cell contributes, in emission order. */
  function CellFaces(g: Grid, x: nat, z: nat): (fs: seq<Face>)
    requires g.Valid() && x < g.width && z < g.height
    ensures |fs| <= 6
    ensures forall f :: f in fs ==> f.x == x && f.z == z
  {
    var c := CellColor(g, x, z);
    if IsPureWhite(c) then
      WallFaces(x, z, FrontVisible(g, x, z), BackVisible(g, x, z),
                RightVisible(g, x, z), LeftVisible(g, x, z))
    else if IsPureBlack(c) then
      [Face(Ceiling, x, z), Face(Floor, x, z)]
    else
      []
  }

  lemma InWallFaces(x: nat, z: nat, front: bool, back: bool, right: bool, left: bool, k: FaceKind)
    ensures Face(k, x, z) in WallFaces(x, z, front, back, right, left) <==>
            k == Top || k == Bottom || (k == Front && front) || (k == Back && back) ||
            (k == Right && right) || (k == Left && left)
  {
    var front', back' := OptFace(front, Face(Front, x, z)), OptFace(back, Face(Back, x, z));
    var right', left' := OptFace(right, Face(Right, x, z)), OptFace(left, Face(Left, x, z));
    assert WallFaces(x, z, front, back, right, left) == [Face(Top, x, z), Face(Bottom, x, z)] + front' + back' + right' + left';
  }

  lemma WallCellFacesExact(g: Grid, x: nat, z: nat, k: FaceKind)
    requires g.Valid() && x < g.width && z < g.height && IsPureWhite(CellColor(g, x, z))
    ensures Face(k, x, z) in CellFaces(g, x, z) <==> Emits(g, k, x, z)
  {
    InWallFaces(x, z, FrontVisible(g, x, z), BackVisible(g, x, z),
                RightVisible(g, x, z), LeftVisible(g, x, z), k);
  }

  lemma OpenCellFacesExact(g: Grid, x: nat, z: nat, k: FaceKind)
    requires g.Valid() && x < g.width && z < g.height && !IsPureWhite(CellColor(g, x, z))
    ensures Face(k, x, z) in CellFaces(g, x, z) <==> Emits(g, k, x, z)
  {
    if IsPureBlack(CellColor(g, x, z)) {
      assert CellFaces(g, x, z) == [Face(Ceiling, x, z), Face(Floor, x, z)];
    } else {
      assert CellFaces(g, x, z) == [];
    }
  }

  /** A cell contributes a face exactly when the reference statement says so. */
  lemma CellFacesExact(g: Grid, x: nat, z: nat, k: FaceKind)
    requires g.Valid() && x < g.width && z < g.height
    ensures Face(k, x, z) in CellFaces(g, x, z) <==> Emits(g, k, x, z)
  {
    if IsPureWhite(CellColor(g, x, z)) {
      WallCellFacesExact(g, x, z, k);
    } else {
      OpenCellFacesExact(g, x, z, k);
    }
  }

  /** What a pure-white, a pure-black and any other cell contribute. */
  lemma CellFacesByColour(g: Grid, x: nat, z: nat)
    requires g.Valid() && x < g.width && z < g.height
    ensures var c, fs := CellColor(g, x, z), CellFaces(g, x, z);
            (IsPureWhite(c) ==> 2 <= |fs| && fs[0] == Face(Top, x, z) && fs[1] == Face(Bottom, x, z)) &&
            (IsPureBlack(c) ==> fs == [Face(Ceiling, x, z), Face(Floor, x, z)]) &&
            (!IsPureWhite(c) && !IsPureBlack(c) ==> fs == [])
  {
  }

  /** Faces of cells (0, z) .. (n-1, z). */
  function RowFaces(g: Grid, z: nat, n: nat): (fs: seq<Face>)
    requires g.Valid() && z < g.height && n <= g.width
    ensures |fs| <= 6 * n
  {
    if n == 0 then [] else RowFaces(g, z, n - 1) + CellFaces(g, n - 1, z)
  }

  /** Faces of rows 0 .. rows-1, scanned row by row. */
  function RowsFaces(g: Grid, rows: nat): (fs: seq<Face>)
    requires g.Valid() && rows <= g.height
    ensures 6 * |fs| <= RowsRoom(g.width, rows)
  {
    if rows == 0 then [] else RowsFaces(g, rows - 1) + RowFaces(g, rows - 1, g.width)
  }

  /** Every face of the generated mesh, in emission order. */
  function MeshFaces(g: Grid): seq<Face>
    requires g.Valid()
  {
    RowsFaces(g, g.height)
  }

  // ---------------------------------------------------------------------------
  // Vertex, normal and texcoord streams of a face sequence

  function VertexStream(fs: seq<Face>, cubeSize: real): (vs: seq<Vec3>)
    ensures |vs| == 6 * |fs|
  {
    if fs == [] then [] else VertexStream(fs[..|fs| - 1], cubeSize) + FaceVertices(fs[|fs| - 1], cubeSize)
  }

  function NormalStream(fs: seq<Face>): (ns: seq<Vec3>)
    ensures |ns| == 6 * |fs|
  {
    if fs == [] then [] else NormalStream(fs[..|fs| - 1]) + FaceNormals(fs[|fs| - 1])
  }

  function TexcoordStream(fs: seq<Face>): (ts: seq<Vec2>)
    ensures |ts| == 6 * |fs|
  {
    if fs == [] then [] else TexcoordStream(fs[..|fs| - 1]) + FaceTexcoords(fs[|fs| - 1])
  }

  /** Streams of a concatenation are the concatenated streams. */
  lemma {:induction false} VertexStreamAppend(a: seq<Face>, b: seq<Face>, cubeSize: real)
    ensures VertexStream(a + b, cubeSize) == VertexStream(a, cubeSize) + VertexStream(b, cubeSize)
    decreases |b|
  {
    if b != [] {
      var b' := b[..|b| - 1];
      assert (a + b)[..|a + b| - 1] == a + b';
      assert (a + b)[|a + b| - 1] == b[|b| - 1];
      VertexStreamAppend(a, b', cubeSize);
      assert VertexStream(a + b, cubeSize) == VertexStream(a + b', cubeSize) + FaceVertices(b[|b| - 1], cubeSize);
      assert VertexStream(b, cubeSize) == VertexStream(b', cubeSize) + FaceVertices(b[|b| - 1], cubeSize);
    } else {
      assert a + b == a;
    }
  }

  lemma {:induction false} NormalStreamAppend(a: seq<Face>, b: seq<Face>)
    ensures NormalStream(a + b) == NormalStream(a) + NormalStream(b)
    decreases |b|
  {
    if b != [] {
      var b' := b[..|b| - 1];
      assert (a + b)[..|a + b| - 1] == a + b';
      assert (a + b)[|a + b| - 1] == b[|b| - 1];
      NormalStreamAppend(a, b');
      assert NormalStream(a + b) == NormalStream(a + b') + FaceNormals(b[|b| - 1]);
      assert NormalStream(b) == NormalStream(b') + FaceNormals(b[|b| - 1]);
    } else {
      assert a + b == a;
    }
  }

  lemma {:induction false} TexcoordStreamAppend(a: seq<Face>, b: seq<Face>)
    ensures TexcoordStream(a + b) == TexcoordStream(a) + TexcoordStream(b)
    decreases |b|
  {
    if b != [] {
      var b' := b[..|b| - 1];
      assert (a + b)[..|a + b| - 1] == a + b';
      assert (a + b)[|a + b| - 1] == b[|b| - 1];
      TexcoordStreamAppend(a, b');
      assert TexcoordStream(a + b) == TexcoordStream(a + b') + FaceTexcoords(b[|b| - 1]);
      assert TexcoordStream(b) == TexcoordStream(b') + FaceTexcoords(b[|b| - 1]);
    } else {
      assert a + b == a;
    }
  }

  /** Appending a face appends its six entries to each stream. */
  lemma StreamsSnoc(fs: seq<Face>, f: Face, cubeSize: real)
    ensures VertexStream(fs + [f], cubeSize) == VertexStream(fs, cubeSize) + FaceVertices(f, cubeSize)
    ensures NormalStream(fs + [f]) == NormalStream(fs) + FaceNormals(f)
    ensures TexcoordStream(fs + [f]) == TexcoordStream(fs) + FaceTexcoords(f)
  {
    assert (fs + [f])[..|fs|] == fs;
  }

  /** Entry 6i + j of each stream is entry j of face i. */
  lemma {:induction false} StreamsAt(fs: seq<Face>, cubeSize: real, i: nat, j: nat)
    requires i < |fs| && j < 6
    ensures VertexStream(fs, cubeSize)[6 * i + j] == FaceVertices(fs[i], cubeSize)[j]
    ensures NormalStream(fs)[6 * i + j] == FaceNormals(fs[i])[j]
    ensures TexcoordStream(fs)[6 * i + j] == FaceTexcoords(fs[i])[j]
  {
    var init := fs[..|fs| - 1];
    if i < |init| {
      StreamsAt(init, cubeSize, i, j);
      assert init[i] == fs[i];
    }
  }

  // ---------------------------------------------------------------------------
  // Flat float arrays

  function Flatten3(s: seq<Vec3>): (r: seq<real>)
    ensures |r| == 3 * |s|
  {
    if s == [] then [] else Flatten3(s[..|s| - 1]) + [s[|s| - 1].x, s[|s| - 1].y, s[|s| - 1].z]
  }

  function Flatten2(s: seq<Vec2>): (r: seq<real>)
    ensures |r| == 2 * |s|
  {
    if s == [] then [] else Flatten2(s[..|s| - 1]) + [s[|s| - 1].x, s[|s| - 1].y]
  }

  /** Entries 3i, 3i+1, 3i+2 of a flattened array are the x, y, z of vector i. */
  lemma {:induction false} Flatten3At(s: seq<Vec3>, i: nat)
    requires i < |s|
    ensures Flatten3(s)[3 * i] == s[i].x && Flatten3(s)[3 * i + 1] == s[i].y && Flatten3(s)[3 * i + 2] == s[i].z
  {
    var init := s[..|s| - 1];
    if i < |init| {
      Flatten3At(init, i);
      assert init[i] == s[i];
    }
  }

  /** Entries 2i, 2i+1 of a flattened array are the x, y of vector i. */
  lemma {:induction false} Flatten2At(s: seq<Vec2>, i: nat)
    requires i < |s|
    ensures Flatten2(s)[2 * i] == s[i].x && Flatten2(s)[2 * i + 1] == s[i].y
  {
    var init := s[..|s| - 1];
    if i < |init| {
      Flatten2At(init, i);
      assert init[i] == s[i];
    }
  }

  // ---------------------------------------------------------------------------
  // The generator

  /** The `Mesh` struct as `GenMeshCubicmap` returns it (the GPU buffer ids,
      still zero at that point, are left out). */
  datatype Mesh = Mesh(vertexCount: nat, vertices: array<real>, texcoords: array<real>, normals: array<real>)

  /** The first `count` entries of the scratch arrays are the streams of `fs`. */
  predicate Filled(mapVertices: array<Vec3>, mapNormals: array<Vec3>, mapTexcoords: array<Vec2>,
                   count: nat, fs: seq<Face>, cubeSize: real)
    reads mapVertices, mapNormals, mapTexcoords
  {
    count == 6 * |fs| &&
    count <= mapVertices.Length && count <= mapNormals.Length && count <= mapTexcoords.Length &&
    (mapVertices[..count], mapNormals[..count], mapTexcoords[..count])
      == (VertexStream(fs, cubeSize), NormalStream(fs), TexcoordStream(fs))
  }

  /** Six consecutive stores `a[at] = vals[0]` .. `a[at + 5] = vals[5]`. */
  method WriteSix<T>(a: array<T>, at: nat, vals: seq<T>)
    requires |vals| == 6 && at + 6 <= a.Length
    modifies a
    ensures a[..at + 6] == old(a[..at]) + vals
  {
    forall j | 0 <= j < 6 {
      a[at + j] := vals[j];
    }
    assert a[..at + 6] == a[..at] + a[at..at + 6];
  }

  /** One face: six vertices, six normals and six texcoords written at the
      counter, which then advances by 6. (The source keeps one counter per
      array; all three advance together, so one stands for them here.) */
  method EmitFace(mapVertices: array<Vec3>, mapNormals: array<Vec3>, mapTexcoords: array<Vec2>,
                  counter: nat, f: Face, cubeSize: real, ghost done: seq<Face>)
    returns (counter': nat)
    requires mapVertices != mapNormals
    requires Filled(mapVertices, mapNormals, mapTexcoords, counter, done, cubeSize)
    requires counter + 6 <= mapVertices.Length && counter + 6 <= mapNormals.Length
    requires counter + 6 <= mapTexcoords.Length
    modifies mapVertices, mapNormals, mapTexcoords
    ensures counter' == counter + 6
    ensures Filled(mapVertices, mapNormals, mapTexcoords, counter', done + [f], cubeSize)
  {
    WriteSix(mapVertices, counter, FaceVertices(f, cubeSize));
    WriteSix(mapNormals, counter, FaceNormals(f));
    WriteSix(mapTexcoords, counter, FaceTexcoords(f));
    counter' := counter + 6;
    StreamsSnoc(done, f, cubeSize);
    assert mapVertices[..counter'] == VertexStream(done + [f], cubeSize);
    assert mapNormals[..counter'] == NormalStream(done + [f]);
    assert mapTexcoords[..counter'] == TexcoordStream(done + [f]);
  }

  /** The generator's pixel buffer holds the decoded image. */
  predicate HoldsPixels(cubicmapPixels: seq<Option<Color>>, image: Image)
    requires HasPixelData(image)
  {
    |cubicmapPixels| == PixelCount(image) &&
    forall i :: 0 <= i < |cubicmapPixels| ==> cubicmapPixels[i] == Pixel(image, i)
  }

  /** The generator's pixel buffer read as the grid `g`: the pixel at index
      z*width + x decodes to the colour of cell (x, z). */
  predicate HoldsGrid(cubicmapPixels: seq<Option<Color>>, g: Grid)
  {
    g.Valid() &&
    forall x, z :: 0 <= x < g.width && 0 <= z < g.height ==>
      CellIndex(g.width, x, z) < |cubicmapPixels| && cubicmapPixels[CellIndex(g.width, x, z)] == Some(g.cells[z][x])
  }

  lemma CellHeld(cubicmapPixels: seq<Option<Color>>, image: Image, x: nat, z: nat)
    requires ValidCubicmap(image) && HoldsPixels(cubicmapPixels, image)
    requires x < image.width && z < image.height
    ensures CellIndex(image.width, x, z) < |cubicmapPixels|
    ensures cubicmapPixels[CellIndex(image.width, x, z)] == Some(ImageCell(image, x, z))
  {
    CellIndexInRange(image.width, image.height, x, z);
  }

  lemma GridOfHolds(cubicmapPixels: seq<Option<Color>>, image: Image)
    requires ValidCubicmap(image) && HoldsPixels(cubicmapPixels, image)
    ensures HoldsGrid(cubicmapPixels, GridOf(image))
  {
    var g := GridOf(image);
    forall x, z | 0 <= x < g.width && 0 <= z < g.height
      ensures CellIndex(g.width, x, z) < |cubicmapPixels| && cubicmapPixels[CellIndex(g.width, x, z)] == Some(g.cells[z][x])
    {
      CellHeld(cubicmapPixels, image, x, z);
    }
  }

  /** A read of `cubicmapPixels[z*cubicmap.width + x]`. */
  function ReadCell(cubicmapPixels: seq<Option<Color>>, g: Grid, x: nat, z: nat): (c: Color)
    requires HoldsGrid(cubicmapPixels, g)
    requires x < g.width && z < g.height
    ensures c == CellColor(g, x, z)
  {
    cubicmapPixels[CellIndex(g.width, x, z)].value
  }

  /** A face guarded by one of the side tests: emitted only when `b` holds. */
  method EmitOptFace(b: bool, mapVertices: array<Vec3>, mapNormals: array<Vec3>, mapTexcoords: array<Vec2>,
                     counter: nat, f: Face, cubeSize: real, ghost done: seq<Face>)
    returns (counter': nat)
    requires mapVertices != mapNormals
    requires Filled(mapVertices, mapNormals, mapTexcoords, counter, done, cubeSize)
    requires counter + 6 <= mapVertices.Length && counter + 6 <= mapNormals.Length
    requires counter + 6 <= mapTexcoords.Length
    modifies mapVertices, mapNormals, mapTexcoords
    ensures counter' <= counter + 6
    ensures Filled(mapVertices, mapNormals, mapTexcoords, counter', done + OptFace(b, f), cubeSize)
  {
    if b {
      counter' := EmitFace(mapVertices, mapNormals, mapTexcoords, counter, f, cubeSize, done);
    } else {
      counter' := counter;
      assert done + OptFace(b, f) == done;
    }
  }

  method EmitSides(x: nat, z: nat, front: bool, back: bool, right: bool, left: bool, cubeSize: real,
                   mapVertices: array<Vec3>, mapNormals: array<Vec3>, mapTexcoords: array<Vec2>,
                   counter: nat, ghost done: seq<Face>)
    returns (counter': nat)
    requires mapVertices != mapNormals
    requires Filled(mapVertices, mapNormals, mapTexcoords, counter, done, cubeSize)
    requires counter + 24 <= mapVertices.Length && counter + 24 <= mapNormals.Length
    requires counter + 24 <= mapTexcoords.Length
    modifies mapVertices, mapNormals, mapTexcoords
    ensures Filled(mapVertices, mapNormals, mapTexcoords, counter', done + SideFaces(x, z, front, back, right, left), cubeSize)
  {
    ghost var acc1 := done + OptFace(front, Face(Front, x, z));
    counter' := EmitOptFace(front, mapVertices, mapNormals, mapTexcoords, counter, Face(Front, x, z), cubeSize, done);
    ghost var acc2 := acc1 + OptFace(back, Face(Back, x, z));
    counter' := EmitOptFace(back, mapVertices, mapNormals, mapTexcoords, counter', Face(Back, x, z), cubeSize, acc1);
    ghost var acc3 := acc2 + OptFace(right, Face(Right, x, z));
    counter' := EmitOptFace(right, mapVertices, mapNormals, mapTexcoords, counter', Face(Right, x, z), cubeSize, acc2);
    counter' := EmitOptFace(left, mapVertices, mapNormals, mapTexcoords, counter', Face(Left, x, z), cubeSize, acc3);
    SideFacesSplit(done, x, z, front, back, right, left);
  }

  /** The pure-white branch: top and bottom, then each side the four tests
      leave visible. */
  method EmitWallCell(x: nat, z: nat, front: bool, back: bool, right: bool, left: bool, cubeSize: real,
                      mapVertices: array<Vec3>, mapNormals: array<Vec3>, mapTexcoords: array<Vec2>,
                      counter: nat, ghost done: seq<Face>)
    returns (counter': nat)
    requires mapVertices != mapNormals
    requires Filled(mapVertices, mapNormals, mapTexcoords, counter, done, cubeSize)
    requires counter + 36 <= mapVertices.Length && counter + 36 <= mapNormals.Length
    requires counter + 36 <= mapTexcoords.Length
    modifies mapVertices, mapNormals, mapTexcoords
    ensures Filled(mapVertices, mapNormals, mapTexcoords, counter', done + WallFaces(x, z, front, back, right, left), cubeSize)
  {
    counter' := EmitFace(mapVertices, mapNormals, mapTexcoords, counter, Face(Top, x, z), cubeSize, done);
    ghost var acc := done + [Face(Top, x, z)];
    counter' := EmitFace(mapVertices, mapNormals, mapTexcoords, counter', Face(Bottom, x, z), cubeSize, acc);
    counter' := EmitSides(x, z, front, back, right, left, cubeSize, mapVertices, mapNormals, mapTexcoords, counter', acc + [Face(Bottom, x, z)]);
    WallFacesSplit(done, x, z, front, back, right, left);
  }

  /** The four neighbour tests of a wall cell: a side is drawn when the
      neighbour beyond it is pure black or the cell is on the map's edge. */
  method ReadSides(cubicmapPixels: seq<Option<Color>>, g: Grid, x: nat, z: nat)
    returns (front: bool, back: bool, right: bool, left: bool)
    requires HoldsGrid(cubicmapPixels, g) && x < g.width && z < g.height
    ensures front == FrontVisible(g, x, z) && back == BackVisible(g, x, z)
    ensures right == RightVisible(g, x, z) && left == LeftVisible(g, x, z)
  {
    front := (z < g.height - 1 && IsPureBlack(ReadCell(cubicmapPixels, g, x, z + 1))) || z == g.height - 1;
    back := (z > 0 && IsPureBlack(ReadCell(cubicmapPixels, g, x, z - 1))) || z == 0;
    right := (x < g.width - 1 && IsPureBlack(ReadCell(cubicmapPixels, g, x + 1, z))) || x == g.width - 1;
    left := (x > 0 && IsPureBlack(ReadCell(cubicmapPixels, g, x - 1, z))) || x == 0;
  }

  /** The body of the inner loop for cell (x, z); `g` is the grid the
      decoded pixels form. */
  method EmitCell(cubicmapPixels: seq<Option<Color>>, g: Grid, x: nat, z: nat, cubeSize: real,
                  mapVertices: array<Vec3>, mapNormals: array<Vec3>, mapTexcoords: array<Vec2>,
                  counter: nat, ghost done: seq<Face>)
    returns (counter': nat)
    requires HoldsGrid(cubicmapPixels, g) && x < g.width && z < g.height
    requires mapVertices != mapNormals
    requires Filled(mapVertices, mapNormals, mapTexcoords, counter, done, cubeSize)
    requires counter + 36 <= mapVertices.Length && counter + 36 <= mapNormals.Length
    requires counter + 36 <= mapTexcoords.Length
    modifies mapVertices, mapNormals, mapTexcoords
    ensures counter' <= counter + 36
    ensures Filled(mapVertices, mapNormals, mapTexcoords, counter', done + CellFaces(g, x, z), cubeSize)
  {
    var c := ReadCell(cubicmapPixels, g, x, z);
    if c.r == 255 && c.g == 255 && c.b == 255 {
      var front, back, right, left := ReadSides(cubicmapPixels, g, x, z);
      counter' := EmitWallCell(x, z, front, back, right, left, cubeSize, mapVertices, mapNormals, mapTexcoords, counter, done);
    } else if c.r == 0 && c.g == 0 && c.b == 0 {
      counter' := EmitFace(mapVertices, mapNormals, mapTexcoords, counter, Face(Ceiling, x, z), cubeSize, done);
      counter' := EmitFace(mapVertices, mapNormals, mapTexcoords, counter', Face(Floor, x, z), cubeSize, done + [Face(Ceiling, x, z)]);
      assert done + [Face(Ceiling, x, z)] + [Face(Floor, x, z)] == done + CellFaces(g, x, z);
    } else {
      counter' := counter;
      assert done + CellFaces(g, x, z) == done;
    }
  }

  /** The inner loop of the generator: cells (0, z) .. (width-1, z). */
  method EmitRow(cubicmapPixels: seq<Option<Color>>, g: Grid, z: nat, cubeSize: real,
                 mapVertices: array<Vec3>, mapNormals: array<Vec3>, mapTexcoords: array<Vec2>,
                 vCounter: nat)
    returns (counter: nat)
    requires HoldsGrid(cubicmapPixels, g) && z < g.height
    requires mapVertices != mapNormals
    requires mapVertices.Length == mapNormals.Length == mapTexcoords.Length
    requires vCounter + 36 * g.width <= mapVertices.Length
    requires Filled(mapVertices, mapNormals, mapTexcoords, vCounter, RowsFaces(g, z), cubeSize)
    modifies mapVertices, mapNormals, mapTexcoords
    ensures counter <= vCounter + 36 * g.width
    ensures Filled(mapVertices, mapNormals, mapTexcoords, counter, RowsFaces(g, z + 1), cubeSize)
  {
    ghost var before := RowsFaces(g, z);
    ghost var done := before;
    counter := vCounter;
    var x := 0;
    assert before + RowFaces(g, z, 0) == before;
    while x < g.width
      invariant 0 <= x <= g.width
      invariant counter <= vCounter + 36 * x
      invariant done == before + RowFaces(g, z, x)
      invariant Filled(mapVertices, mapNormals, mapTexcoords, counter, done, cubeSize)
    {
      counter := EmitCell(cubicmapPixels, g, x, z, cubeSize, mapVertices, mapNormals, mapTexcoords, counter, done);
      RowFacesStep(g, before, z, x);
      done := done + CellFaces(g, x, z);
      x := x + 1;
    }
    assert done == RowsFaces(g, z + 1);
  }

  lemma RowFacesStep(g: Grid, before: seq<Face>, z: nat, x: nat)
    requires g.Valid() && z < g.height && x < g.width
    ensures before + RowFaces(g, z, x) + CellFaces(g, x, z) == before + RowFaces(g, z, x + 1)
  {
  }

  /** Room the scratch arrays keep for `rows` more rows: 36 vertices a cell. */
  function RowsRoom(width: nat, rows: nat): nat {
    if rows == 0 then 0 else RowsRoom(width, rows - 1) + 36 * width
  }

  lemma {:induction false} RowsRoomMonotone(width: nat, rows: nat, height: nat)
    requires rows <= height
    ensures RowsRoom(width, rows) <= RowsRoom(width, height)
    decreases height - rows
  {
    if rows < height {
      RowsRoomMonotone(width, rows + 1, height);
    }
  }

  /** Before row z is emitted, the scratch arrays still have room for 36
      vertices per cell of that row. */
  lemma RowRoomLeft(g: Grid, z: nat, counter: nat)
    requires g.Valid() && z < g.height && counter == 6 * |RowsFaces(g, z)|
    ensures counter + 36 * g.width <= RowsRoom(g.width, g.height)
  {
    RowsRoomMonotone(g.width, z + 1, g.height);
  }

  /** The scratch arrays hold 12 triangles (36 vertices) for every cell. */
  lemma {:induction false} RowsRoomIsCapacity(width: nat, height: nat)
    ensures RowsRoom(width, height) == width * height * 12 * 3
  {
    if height > 0 {
      RowsRoomIsCapacity(width, height - 1);
      assert width * height * 12 * 3 == width * (height - 1) * 12 * 3 + 36 * width;
    }
  }

  /** One of the compaction loops for `Vector3` data: vector i becomes floats
      3i, 3i+1, 3i+2 of a new array of 3*count floats. */
  method CompactVec3(src: array<Vec3>, count: nat) returns (dst: array<real>)
    requires count <= src.Length
    ensures dst[..] == Flatten3(src[..count])
  {
    dst := new real[count * 3];
    var fCounter := 0;
    var i := 0;
    while i < count
      invariant 0 <= i <= count && fCounter == 3 * i
      invariant dst[..fCounter] == Flatten3(src[..i])
    {
      dst[fCounter] := src[i].x;
      dst[fCounter + 1] := src[i].y;
      dst[fCounter + 2] := src[i].z;
      assert src[..i + 1][..i] == src[..i];
      assert dst[..fCounter + 3] == dst[..fCounter] + [src[i].x, src[i].y, src[i].z];
      fCounter := fCounter + 3;
      i := i + 1;
    }
    assert dst[..] == dst[..fCounter];
  }

  /** The compaction loop for texcoords: vector i becomes floats 2i, 2i+1. */
  method CompactVec2(src: array<Vec2>, count: nat) returns (dst: array<real>)
    requires count <= src.Length
    ensures dst[..] == Flatten2(src[..count])
  {
    dst := new real[count * 2];
    var fCounter := 0;
    var i := 0;
    while i < count
      invariant 0 <= i <= count && fCounter == 2 * i
      invariant dst[..fCounter] == Flatten2(src[..i])
    {
      dst[fCounter] := src[i].x;
      dst[fCounter + 1] := src[i].y;
      assert src[..i + 1][..i] == src[..i];
      assert dst[..fCounter + 2] == dst[..fCounter] + [src[i].x, src[i].y];
      fCounter := fCounter + 2;
      i := i + 1;
    }
    assert dst[..] == dst[..fCounter];
  }

  /** The outer loop of the generator: rows 0 .. height-1 into the scratch
      arrays, which start empty and are sized for 36 vertices a cell. */
  method EmitRows(cubicmapPixels: seq<Option<Color>>, g: Grid, cubeSize: real,
                  mapVertices: array<Vec3>, mapNormals: array<Vec3>, mapTexcoords: array<Vec2>)
    returns (counter: nat)
    requires HoldsGrid(cubicmapPixels, g)
    requires mapVertices != mapNormals
    requires mapVertices.Length == mapNormals.Length == mapTexcoords.Length == RowsRoom(g.width, g.height)
    modifies mapVertices, mapNormals, mapTexcoords
    ensures Filled(mapVertices, mapNormals, mapTexcoords, counter, MeshFaces(g), cubeSize)
  {
    counter := 0;
    var z := 0;
    while z < g.height
      invariant 0 <= z <= g.height
      invariant Filled(mapVertices, mapNormals, mapTexcoords, counter, RowsFaces(g, z), cubeSize)
    {
      RowRoomLeft(g, z, counter);
      counter := EmitRow(cubicmapPixels, g, z, cubeSize, mapVertices, mapNormals, mapTexcoords, counter);
      z := z + 1;
    }
  }

  /** The first part of `GenMeshCubicmap`: decodes the image and walks it
      row by row, filling scratch arrays sized for 12 triangles per cell. */
  method FillScratch(cubicmap: Image, cubeSize: real)
    returns (mapVertices: array<Vec3>, mapNormals: array<Vec3>, mapTexcoords: array<Vec2>, vCounter: nat)
    requires ValidCubicmap(cubicmap)
    ensures fresh(mapVertices) && fresh(mapNormals) && fresh(mapTexcoords)
    ensures vCounter <= cubicmap.width * cubicmap.height * 12 * 3
    ensures Filled(mapVertices, mapNormals, mapTexcoords, vCounter, MeshFaces(GridOf(cubicmap)), cubeSize)
  {
    var pixelArray := GetImageData(cubicmap);
    // The decoded buffer is only read from here on.
    var cubicmapPixels := pixelArray[..];
    var maxTriangles := cubicmap.width * cubicmap.height * 12;

    mapVertices := new Vec3[maxTriangles * 3];
    mapTexcoords := new Vec2[maxTriangles * 3];
    mapNormals := new Vec3[maxTriangles * 3];
    RowsRoomIsCapacity(cubicmap.width, cubicmap.height);

    GridOfHolds(cubicmapPixels, cubicmap);
    vCounter := EmitRows(cubicmapPixels, GridOf(cubicmap), cubeSize, mapVertices, mapNormals, mapTexcoords);
  }

  /** `GenMeshCubicmap`: the filled scratch arrays compacted into float
      arrays holding exactly the faces of the map, in scan order. */
  method GenMeshCubicmap(cubicmap: Image, cubeSize: real) returns (mesh: Mesh)
    requires ValidCubicmap(cubicmap)
    ensures mesh.vertexCount == 6 * |MeshFaces(GridOf(cubicmap))|
    ensures mesh.vertexCount <= cubicmap.width * cubicmap.height * 12 * 3
    ensures mesh.vertices[..] == Flatten3(VertexStream(MeshFaces(GridOf(cubicmap)), cubeSize))
    ensures mesh.normals[..] == Flatten3(NormalStream(MeshFaces(GridOf(cubicmap))))
    ensures mesh.texcoords[..] == Flatten2(TexcoordStream(MeshFaces(GridOf(cubicmap))))
  {
    var mapVertices, mapNormals, mapTexcoords, vCounter := FillScratch(cubicmap, cubeSize);
    // The three counters advance together; the source keeps one per stream.
    var tcCounter, nCounter := vCounter, vCounter;

    var vertices := CompactVec3(mapVertices, vCounter);
    var normals := CompactVec3(mapNormals, nCounter);
    var texcoords := CompactVec2(mapTexcoords, tcCounter);
    mesh := Mesh(vCounter, vertices, texcoords, normals);
  }

}
