// The first-person camera's orientation state: yaw and pitch driven by the
// mouse, with the pitch clamped to 85 degrees either side of the horizon,
// and the step counter that drives the head swing while a move key is held.
// The trigonometric position and target updates are not modelled.

module CameraControl {
  import opened MazeTypes

  /** raymath's `PI` and `DEG2RAD`. */
  const Pi: real := 3.14159265358979323846
  const Deg2Rad: real := Pi / 180.0

  /** Radians per pixel of mouse movement. */
  const MouseMoveSensitivity: real := 0.003

  /** The pitch limit, 85 degrees in radians. */
  const MaxPitch: real := 85.0 * Deg2Rad

  /** The number of move keys: front, back, right, left, up, down. */
  const MoveKeyCount: nat := 6

  /** Pitch clamp: above the limit becomes the limit, below minus the limit does too. */
  function ClampPitch(pitch: real): (p: real)
    ensures -MaxPitch <= p <= MaxPitch
    ensures -MaxPitch <= pitch <= MaxPitch ==> p == pitch
    ensures pitch > MaxPitch ==> p == MaxPitch
    ensures pitch < -MaxPitch ==> p == -MaxPitch
  {
    if pitch > MaxPitch then MaxPitch
    else if pitch < -MaxPitch then -MaxPitch
    else pitch
  }

  /** Clamping twice is clamping once, and clamping never reverses the tilt. */
  lemma ClampPitchIdempotent(pitch: real)
    ensures ClampPitch(ClampPitch(pitch)) == ClampPitch(pitch)
    ensures pitch >= 0.0 ==> ClampPitch(pitch) >= 0.0
    ensures pitch <= 0.0 ==> ClampPitch(pitch) <= 0.0
  {
  }

  /** The new yaw and pitch after the mouse moved by `delta` pixels. */
  function TurnedAngle(angle: Vec2, delta: Vec2): (a: Vec2)
    ensures a.x == angle.x - delta.x * MouseMoveSensitivity
    ensures -MaxPitch <= a.y <= MaxPitch
    ensures -MaxPitch <= angle.y - delta.y * MouseMoveSensitivity <= MaxPitch ==>
      a.y == angle.y - delta.y * MouseMoveSensitivity
  {
    Vec2(angle.x + delta.x * -MouseMoveSensitivity, ClampPitch(angle.y + delta.y * -MouseMoveSensitivity))
  }

  /** Moving the mouse down turns the view down, never up, whatever the start. */
  lemma PitchFollowsMouse(angle: Vec2, delta: Vec2)
    requires -MaxPitch <= angle.y <= MaxPitch
    ensures delta.y >= 0.0 ==> TurnedAngle(angle, delta).y <= angle.y
    ensures delta.y <= 0.0 ==> TurnedAngle(angle, delta).y >= angle.y
  {
    assert delta.y >= 0.0 ==> delta.y * MouseMoveSensitivity >= 0.0;
    assert delta.y <= 0.0 ==> delta.y * MouseMoveSensitivity <= 0.0;
  }

  /** True when any of the move keys is held; the loop stops at the first one. */
  method AnyMoveKeyHeld(direction: seq<bool>) returns (isMoving: bool)
    requires |direction| == MoveKeyCount
    ensures isMoving <==> exists i :: 0 <= i < MoveKeyCount && direction[i]
  {
    isMoving := false;
    var i := 0;
    while i < MoveKeyCount
      invariant 0 <= i <= MoveKeyCount
      invariant !isMoving
      invariant forall j :: 0 <= j < i ==> !direction[j]
    {
      if direction[i] {
        isMoving := true;
        break;
      }
      i := i + 1;
    }
  }

  /** The static state `UpdateCamera` keeps between frames, and the camera angle. */
  class CameraState {
    var cameraAngle: Vec2
    var swingCounter: int
    var previousMousePosition: Vec2

    ghost predicate Valid()
      reads this
    {
      -MaxPitch <= cameraAngle.y <= MaxPitch && swingCounter >= 0
    }

    constructor ()
      ensures Valid()
      ensures cameraAngle == Vec2(0.0, 0.0) && swingCounter == 0
      ensures previousMousePosition == Vec2(0.0, 0.0)
    {
      cameraAngle := Vec2(0.0, 0.0);
      swingCounter := 0;
      previousMousePosition := Vec2(0.0, 0.0);
    }

    /**
     * One frame of the orientation update: the mouse delta since the last
     * frame turns the camera, and the swing counter advances exactly when a
     * move key is held.
     */
    method UpdateOrientation(mousePosition: Vec2, direction: seq<bool>)
      requires Valid() && |direction| == MoveKeyCount
      modifies this
      ensures Valid()
      ensures previousMousePosition == mousePosition
      ensures cameraAngle == TurnedAngle(old(cameraAngle),
        Vec2(mousePosition.x - old(previousMousePosition.x), mousePosition.y - old(previousMousePosition.y)))
      ensures (exists i :: 0 <= i < MoveKeyCount && direction[i]) ==> swingCounter == old(swingCounter) + 1
      ensures (forall i :: 0 <= i < MoveKeyCount ==> !direction[i]) ==> swingCounter == old(swingCounter)
    {
      var mousePositionDelta := Vec2(mousePosition.x - previousMousePosition.x, mousePosition.y - previousMousePosition.y);
      previousMousePosition := mousePosition;
      var isMoving := AnyMoveKeyHeld(direction);
      cameraAngle := TurnedAngle(cameraAngle, mousePositionDelta);
      if isMoving {
        swingCounter := swingCounter + 1;
      }
    }
  }
}
