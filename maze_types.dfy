// Value types shared by the maze game model: bytes, RGBA colours and the
// float vectors of raymath, which the model represents as exact reals.

module MazeTypes {

  /** An `unsigned char`. */
  type Byte = bv8

  /** The `Color` struct: four 8-bit channels. */
  datatype Color = Color(r: Byte, g: Byte, b: Byte, a: Byte)

  /** raymath's `Vector2` and `Vector3`; floats are modelled as reals. */
  datatype Vec2 = Vec2(x: real, y: real)
  datatype Vec3 = Vec3(x: real, y: real, z: real)

  datatype Option<T> = None | Some(value: T)

  predicate IsPureWhite(c: Color) {
    c.r == 255 && c.g == 255 && c.b == 255
  }

  predicate IsPureBlack(c: Color) {
    c.r == 0 && c.g == 0 && c.b == 0
  }

  function Abs(v: real): (r: real)
    ensures r >= 0.0 && (r == v || r == -v)
  {
    if v < 0.0 then -v else v
  }

  lemma MulNonneg(a: real, b: real)
    requires a >= 0.0 && b >= 0.0
    ensures a * b >= 0.0
  {
  }
}
