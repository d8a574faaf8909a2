// Player-versus-map collision of the maze game: the circle/rectangle test
// `CheckCollisionCircleRec` and the scan of the main loop that puts the
// camera back where it was when the player's circle touches a wall cell.

module Collision {
  import opened MazeTypes
  import opened CubicmapMesh

  /** The `Rectangle` struct: all four fields are `int`. */
  datatype Rectangle = Rectangle(x: int, y: int, width: int, height: int)

  /** C's `a/2` on `int`: the quotient truncated toward zero. */
  function HalfTowardZero(a: int): (q: int)
    ensures a >= 0 ==> 0 <= a - 2 * q <= 1
    ensures a < 0 ==> 0 <= 2 * q - a <= 1
  {
    if a >= 0 then a / 2 else -((-a) / 2)
  }

  /** C's conversion of a `float` to `int`: truncation toward zero. */
  function TruncToInt(r: real): (t: int)
    ensures r >= 0.0 ==> t as real <= r < t as real + 1.0
    ensures r < 0.0 ==> t as real - 1.0 < r <= t as real
  {
    if r >= 0.0 then r.Floor else -((-r).Floor)
  }

  // ---------------------------------------------------------------------------
  // CheckCollisionCircleRec

  /** The centre the source computes in `int`: `rec.x + rec.width/2`, which
      lies within the rectangle's extent on each axis, at most one half unit
      short of the true centre. */
  function RecCentre(rec: Rectangle): (c: (int, int))
    ensures rec.width >= 0 ==> rec.x <= c.0 <= rec.x + rec.width && 0 <= rec.width - 2 * (c.0 - rec.x) <= 1
    ensures rec.width < 0 ==> rec.x + rec.width <= c.0 <= rec.x && 0 <= 2 * (c.0 - rec.x) - rec.width <= 1
    ensures rec.height >= 0 ==> rec.y <= c.1 <= rec.y + rec.height && 0 <= rec.height - 2 * (c.1 - rec.y) <= 1
    ensures rec.height < 0 ==> rec.y + rec.height <= c.1 <= rec.y && 0 <= 2 * (c.1 - rec.y) - rec.height <= 1
  {
    (rec.x + HalfTowardZero(rec.width), rec.y + HalfTowardZero(rec.height))
  }

  function CheckCollisionCircleRec(center: Vec2, radius: real, rec: Rectangle): (hit: bool)
    ensures hit ==> Abs(center.x - RecCentre(rec).0 as real) <= rec.width as real / 2.0 + radius
    ensures hit ==> Abs(center.y - RecCentre(rec).1 as real) <= rec.height as real / 2.0 + radius
  {
    var c := RecCentre(rec);
    var dx := Abs(center.x - c.0 as real);
    var dy := Abs(center.y - c.1 as real);
    StagedTest(dx, dy, rec.width as real / 2.0, rec.height as real / 2.0, radius)
  }

  /** The comparisons of `CheckCollisionCircleRec` in their order: too far
      along either axis, then within the box's extent along either axis,
      then the squared distance to the box's corner. */
  function StagedTest(dx: real, dy: real, hw: real, hh: real, radius: real): (hit: bool)
    ensures hit ==> dx <= hw + radius && dy <= hh + radius
  {
    if dx > hw + radius then false
    else if dy > hh + radius then false
    else if dx <= hw then true
    else if dy <= hh then true
    else (dx - hw) * (dx - hw) + (dy - hh) * (dy - hh) <= radius * radius
  }

  function Clamp(v: real, lo: real, hi: real): real
    requires lo <= hi
  {
    if v < lo then lo else if v > hi then hi else v
  }

  /** Squared distance from `p` to the nearest point of the axis-aligned box
      centred on (cx, cy) with half-extents hw and hh. */
  function NearestDistSq(p: Vec2, cx: real, cy: real, hw: real, hh: real): (d: real)
    requires hw >= 0.0 && hh >= 0.0
    ensures d >= 0.0
  {
    var ex := p.x - Clamp(p.x, cx - hw, cx + hw);
    var ey := p.y - Clamp(p.y, cy - hh, cy + hh);
    Square(ex) + Square(ey)
  }

  function Square(v: real): (s: real)
    ensures s >= 0.0
  {
    v * v
  }

  /** How far a coordinate at distance `d` from the centre lies outside a
      half-extent `h`. */
  function Gap(d: real, h: real): (g: real)
    ensures g >= 0.0
  {
    if d > h then d - h else 0.0
  }

  lemma MulPos(a: real, b: real)
    requires a > 0.0 && b > 0.0
    ensures a * b > 0.0
  {
  }

  lemma SquareMono(a: real, b: real)
    requires 0.0 <= a <= b
    ensures Square(a) <= Square(b)
  {
    MulNonneg(b - a, b + a);
    assert b * b - a * a == (b - a) * (b + a);
  }

  lemma SquareStrict(a: real, b: real)
    requires 0.0 <= a < b
    ensures Square(a) < Square(b)
  {
    assert b - a > 0.0 && b + a > 0.0;
    MulPos(b - a, b + a);
    assert b * b - a * a == (b - a) * (b + a);
  }

  lemma SquareNeg(v: real)
    ensures Square(-v) == Square(v)
  {
  }

  /** Along one axis the offset to the nearest point of the box is the gap,
      up to its sign. */
  lemma ClampGap(v: real, c: real, h: real)
    requires h >= 0.0
    ensures Square(v - Clamp(v, c - h, c + h)) == Square(Gap(Abs(v - c), h))
  {
    if v < c - h {
      assert v - Clamp(v, c - h, c + h) == -Gap(Abs(v - c), h);
      SquareNeg(Gap(Abs(v - c), h));
    } else if v > c + h {
      assert v - Clamp(v, c - h, c + h) == Gap(Abs(v - c), h);
    }
  }

  /** The staged test decides whether the circle reaches the box: the
      distance from its centre to the box's nearest point is at most the
      radius. */
  lemma GapsDecide(dx: real, dy: real, hw: real, hh: real, r: real)
    requires dx >= 0.0 && dy >= 0.0 && hw >= 0.0 && hh >= 0.0 && r >= 0.0
    ensures StagedTest(dx, dy, hw, hh, r) <==> Square(Gap(dx, hw)) + Square(Gap(dy, hh)) <= Square(r)
  {
    var gx, gy := Gap(dx, hw), Gap(dy, hh);
    if dx > hw + r {
      SquareStrict(r, gx);
    } else if dy > hh + r {
      SquareStrict(r, gy);
    } else if dx <= hw {
      SquareMono(gy, r);
    } else if dy <= hh {
      SquareMono(gx, r);
    } else {
      assert gx == dx - hw && gy == dy - hh;
    }
  }

  /** For a non-negative radius and a box of non-negative size, the circle
      test holds exactly when the nearest point of the box centred on the
      (truncated) centre lies within the radius. */
  lemma CircleRecIsNearestPoint(center: Vec2, radius: real, rec: Rectangle)
    requires radius >= 0.0 && rec.width >= 0 && rec.height >= 0
    ensures var c := RecCentre(rec);
            CheckCollisionCircleRec(center, radius, rec) <==>
            NearestDistSq(center, c.0 as real, c.1 as real, rec.width as real / 2.0, rec.height as real / 2.0)
              <= Square(radius)
  {
    var c := RecCentre(rec);
    var hw, hh := rec.width as real / 2.0, rec.height as real / 2.0;
    var dx, dy := Abs(center.x - c.0 as real), Abs(center.y - c.1 as real);
    GapsDecide(dx, dy, hw, hh, radius);
    ClampGap(center.x, c.0 as real, hw);
    ClampGap(center.y, c.1 as real, hh);
  }

  // ---------------------------------------------------------------------------
  // The cells the main loop tests

  /** `mapPosition`: the map model is drawn at the origin. */
  const MapPosition := Vec3(0.0, 0.0, 0.0)

  /** `playerRadius`: the player is a circle of radius 0.1 on the floor plane. */
  const PlayerRadius: real := 0.1

  /** `playerPos`: the camera position projected on the floor plane. */
  function PlayerPos(position: Vec3): Vec2 {
    Vec2(position.x, position.z)
  }

  /** The rectangle the main loop builds for cell (x, y): float coordinates
      0.5 + x and 0.5 + y stored in `int` fields. */
  function CellRect(x: nat, y: nat): (rec: Rectangle)
    ensures rec == Rectangle(x, y, 1, 1)
  {
    Rectangle(TruncToInt(MapPosition.x + 0.5 + x as real * 1.0),
              TruncToInt(MapPosition.y + 0.5 + y as real * 1.0), 1, 1)
  }

  /** A cell's rectangle is tested as the unit square centred on (x, y),
      which is the footprint of the cube the mesh generator puts at that
      cell when cubeSize is 1. */
  lemma CellRectIsCubeFootprint(x: nat, y: nat, c: Corner)
    ensures RecCentre(CellRect(x, y)) == (x as int, y as int)
    ensures Abs(CornerPos(x, y, c, 1.0).x - x as real) == 0.5
    ensures Abs(CornerPos(x, y, c, 1.0).z - y as real) == 0.5
  {
  }

  /** The player touches cell (x, y) exactly when the nearest point of the
      cell's unit square lies within the player's radius. */
  lemma CellCollision(p: Vec2, x: nat, y: nat)
    ensures CheckCollisionCircleRec(p, PlayerRadius, CellRect(x, y)) <==>
            NearestDistSq(p, x as real, y as real, 0.5, 0.5) <= Square(PlayerRadius)
  {
    CircleRecIsNearestPoint(p, PlayerRadius, CellRect(x, y));
  }

  /** A player whose centre lies on a cell touches it. */
  lemma InsideCellCollides(p: Vec2, x: nat, y: nat)
    requires Abs(p.x - x as real) <= 0.5 && Abs(p.y - y as real) <= 0.5
    ensures CheckCollisionCircleRec(p, PlayerRadius, CellRect(x, y))
  {
  }

  /** The collider test of the main loop: only the red channel is compared. */
  predicate IsCollider(c: Color)
    ensures IsPureWhite(c) ==> IsCollider(c)
    ensures IsPureBlack(c) ==> !IsCollider(c)
  {
    c.r == 255
  }

  /** Every cell the mesh generator turns into a wall cube is a collider. */
  lemma WallCellsCollide(c: Color)
    ensures IsPureWhite(c) ==> IsCollider(c)
    ensures IsCollider(Color(255, 0, 0, 255)) && !IsPureWhite(Color(255, 0, 0, 255))
  {
  }

  /** The player at `p` touches the collider at cell (x, y). */
  predicate CellHit(g: Grid, x: nat, y: nat, p: Vec2)
    requires g.Valid() && x < g.width && y < g.height
  {
    IsCollider(g.cells[y][x]) && CheckCollisionCircleRec(p, PlayerRadius, CellRect(x, y))
  }

  /** A hit among cells (0, y) .. (n-1, y). */
  predicate RowHit(g: Grid, y: nat, n: nat, p: Vec2)
    requires g.Valid() && y < g.height && n <= g.width
  {
    n > 0 && (RowHit(g, y, n - 1, p) || CellHit(g, n - 1, y, p))
  }

  /** A hit in rows 0 .. rows-1. */
  predicate RowsHit(g: Grid, rows: nat, p: Vec2)
    requires g.Valid() && rows <= g.height
  {
    rows > 0 && (RowsHit(g, rows - 1, p) || RowHit(g, rows - 1, g.width, p))
  }

  lemma {:induction false} RowHitIff(g: Grid, y: nat, n: nat, p: Vec2)
    requires g.Valid() && y < g.height && n <= g.width
    ensures RowHit(g, y, n, p) <==> exists x :: 0 <= x < n && CellHit(g, x, y, p)
  {
    if n > 0 {
      RowHitIff(g, y, n - 1, p);
      if CellHit(g, n - 1, y, p) {
        assert exists x :: 0 <= x < n && CellHit(g, x, y, p);
      }
    }
  }

  /** The scan over `rows` rows finds a hit exactly when some collider cell
      of those rows lies within the player's radius. */
  lemma {:induction false} RowsHitIff(g: Grid, rows: nat, p: Vec2)
    requires g.Valid() && rows <= g.height
    ensures RowsHit(g, rows, p) <==>
            exists x, y :: 0 <= x < g.width && 0 <= y < rows && IsCollider(g.cells[y][x]) &&
                           NearestDistSq(p, x as real, y as real, 0.5, 0.5) <= Square(PlayerRadius)
  {
    if rows > 0 {
      var y := rows - 1;
      RowsHitIff(g, y, p);
      RowHitIff(g, y, g.width, p);
      forall x | 0 <= x < g.width
        ensures CellHit(g, x, y, p) <==>
                IsCollider(g.cells[y][x]) && NearestDistSq(p, x as real, y as real, 0.5, 0.5) <= Square(PlayerRadius)
      {
        CellCollision(p, x, y);
      }
    }
  }

  // ---------------------------------------------------------------------------
  // The scan of the main loop

  /** The scan exactly as the main loop writes it: both loops run to
      `imMap.width`. Rows from `width` on are never tested, and a map wider
      than it is high would be read past its last pixel, which the
      precondition rules out. */
  method CollisionScanAsWritten(mapPixels: seq<Option<Color>>, g: Grid, oldCamPos: Vec3, camPos: Vec3)
    returns (position: Vec3)
    requires HoldsGrid(mapPixels, g) && g.width <= g.height
    ensures position == if RowsHit(g, g.width, PlayerPos(camPos)) then oldCamPos else camPos
  {
    var playerPos := PlayerPos(camPos);
    position := camPos;
    var y := 0;
    while y < g.width
      invariant 0 <= y <= g.width
      invariant position == if RowsHit(g, y, playerPos) then oldCamPos else camPos
    {
      var x := 0;
      while x < g.width
        invariant 0 <= x <= g.width
        invariant position == if RowsHit(g, y, playerPos) || RowHit(g, y, x, playerPos) then oldCamPos else camPos
      {
        if mapPixels[CellIndex(g.width, x, y)].value.r == 255 &&
           CheckCollisionCircleRec(playerPos, PlayerRadius, CellRect(x, y)) {
          position := oldCamPos;
        }
        x := x + 1;
      }
      y := y + 1;
    }
  }

  /** The scan with the row loop bounded by `imMap.height`: every cell of
      the map is tested. */
  method CollisionScan(mapPixels: seq<Option<Color>>, g: Grid, oldCamPos: Vec3, camPos: Vec3)
    returns (position: Vec3)
    requires HoldsGrid(mapPixels, g)
    ensures position == if RowsHit(g, g.height, PlayerPos(camPos)) then oldCamPos else camPos
  {
    var playerPos := PlayerPos(camPos);
    position := camPos;
    var y := 0;
    while y < g.height
      invariant 0 <= y <= g.height
      invariant position == if RowsHit(g, y, playerPos) then oldCamPos else camPos
    {
      var x := 0;
      while x < g.width
        invariant 0 <= x <= g.width
        invariant position == if RowsHit(g, y, playerPos) || RowHit(g, y, x, playerPos) then oldCamPos else camPos
      {
        if mapPixels[CellIndex(g.width, x, y)].value.r == 255 &&
           CheckCollisionCircleRec(playerPos, PlayerRadius, CellRect(x, y)) {
          position := oldCamPos;
        }
        x := x + 1;
      }
      y := y + 1;
    }
  }

  /** The map one cell wide and two high whose second cell is a wall: a
      player standing inside that wall is not put back by the scan as
      written, and is by the scan over every row. */
  lemma ScanSkipsLowerRows()
    ensures var g := Grid(1, 2, [[Color(0, 0, 0, 255)], [Color(255, 255, 255, 255)]]);
            var p := Vec2(0.0, 1.0);
            g.Valid() && !RowsHit(g, g.width, p) && RowsHit(g, g.height, p)
  {
    var g := Grid(1, 2, [[Color(0, 0, 0, 255)], [Color(255, 255, 255, 255)]]);
    var p := Vec2(0.0, 1.0);
    InsideCellCollides(p, 0, 1);
    assert CellHit(g, 0, 1, p);
    assert RowHit(g, 1, 1, p);
    assert !CellHit(g, 0, 0, p);
  }
}
