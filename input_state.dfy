// The double-buffered keyboard and mouse state of the game: the window
// system's callbacks write the current state, polling copies it into the
// previous state, and a key or button is "pressed" on the frame where its
// current state becomes PRESS.

module Input {

  /** Sizes of the four state arrays. */
  const KeyCount: nat := 512
  const MouseButtonCount: nat := 3

  /** GLFW's key action codes and the escape key code. */
  const Release: int := 0
  const Press: int := 1
  const Repeat: int := 2
  const KeyEscape: int := 256

  /** A press edge: the current state is PRESS and differs from the previous. */
  predicate PressEdge(current: int, previous: int) {
    current != previous && current == Press
  }

  /** The four static state arrays and the window's close flag. */
  class InputState {
    var previousKeyState: array<int>
    var currentKeyState: array<int>
    var previousMouseState: array<int>
    var currentMouseState: array<int>
    var shouldClose: bool

    ghost predicate Valid()
      reads this
    {
      previousKeyState.Length == KeyCount && currentKeyState.Length == KeyCount &&
      previousMouseState.Length == MouseButtonCount && currentMouseState.Length == MouseButtonCount &&
      previousKeyState != currentKeyState && previousMouseState != currentMouseState
    }

    /** All four arrays start zeroed, as their static initialisers say. */
    constructor ()
      ensures Valid() && !shouldClose
      ensures fresh(previousKeyState) && fresh(currentKeyState)
      ensures fresh(previousMouseState) && fresh(currentMouseState)
      ensures forall k :: 0 <= k < KeyCount ==> currentKeyState[k] == 0 && previousKeyState[k] == 0
      ensures forall b :: 0 <= b < MouseButtonCount ==> currentMouseState[b] == 0 && previousMouseState[b] == 0
    {
      previousKeyState := new int[KeyCount](_ => 0);
      currentKeyState := new int[KeyCount](_ => 0);
      previousMouseState := new int[MouseButtonCount](_ => 0);
      currentMouseState := new int[MouseButtonCount](_ => 0);
      shouldClose := false;
    }

    /** True on the frame where `key` went down. */
    function IsKeyPressed(key: int): (pressed: bool)
      requires Valid() && 0 <= key < KeyCount
      reads this, currentKeyState, previousKeyState
      ensures pressed <==> currentKeyState[key] == Press && previousKeyState[key] != Press
    {
      PressEdge(currentKeyState[key], previousKeyState[key])
    }

    /** True on the frame where mouse `button` went down. */
    function IsMouseButtonPressed(button: int): (pressed: bool)
      requires Valid() && 0 <= button < MouseButtonCount
      reads this, currentMouseState, previousMouseState
      ensures pressed <==> currentMouseState[button] == Press && previousMouseState[button] != Press
    {
      PressEdge(currentMouseState[button], previousMouseState[button])
    }

    /**
     * Pressing escape asks the window to close and leaves the key state
     * alone; every other event stores its action as the key's current state.
     */
    method KeyCallback(key: int, action: int)
      requires Valid() && 0 <= key < KeyCount
      modifies this`shouldClose, currentKeyState
      ensures Valid()
      ensures key == KeyEscape && action == Press ==>
        shouldClose && unchanged(currentKeyState)
      ensures !(key == KeyEscape && action == Press) ==>
        shouldClose == old(shouldClose) &&
        currentKeyState[..] == old(currentKeyState[..])[key := action]
    {
      if key == KeyEscape && action == Press {
        shouldClose := true;
      } else {
        currentKeyState[key] := action;
      }
    }

    /** Stores the button's action as its current state. */
    method MouseButtonCallback(button: int, action: int)
      requires Valid() && 0 <= button < MouseButtonCount
      modifies currentMouseState
      ensures Valid()
      ensures currentMouseState[..] == old(currentMouseState[..])[button := action]
    {
      currentMouseState[button] := action;
    }

    /**
     * Copies the current key and button states into the previous ones, so
     * that until a callback fires again nothing counts as pressed.
     */
    method PollInputEvents()
      requires Valid()
      modifies previousKeyState, previousMouseState
      ensures Valid()
      ensures previousKeyState[..] == currentKeyState[..] && unchanged(currentKeyState)
      ensures previousMouseState[..] == currentMouseState[..] && unchanged(currentMouseState)
      ensures forall k :: 0 <= k < KeyCount ==> !IsKeyPressed(k)
      ensures forall b :: 0 <= b < MouseButtonCount ==> !IsMouseButtonPressed(b)
    {
      var i := 0;
      while i < KeyCount
        invariant 0 <= i <= KeyCount
        invariant forall k :: 0 <= k < i ==> previousKeyState[k] == currentKeyState[k]
        invariant unchanged(currentKeyState) && unchanged(previousMouseState)
      {
        previousKeyState[i] := currentKeyState[i];
        i := i + 1;
      }
      i := 0;
      while i < MouseButtonCount
        invariant 0 <= i <= MouseButtonCount
        invariant forall b :: 0 <= b < i ==> previousMouseState[b] == currentMouseState[b]
        invariant forall k :: 0 <= k < KeyCount ==> previousKeyState[k] == currentKeyState[k]
        invariant unchanged(currentMouseState)
      {
        previousMouseState[i] := currentMouseState[i];
        i := i + 1;
      }
    }
  }

  /**
   * One frame of a key: after polling, a PRESS event for a key other than
   * escape that was not already down is seen as a press; a RELEASE or a
   * REPEAT never is.
   */
  method PollThenKey(input: InputState, key: int, action: int) returns (pressed: bool)
    requires input.Valid() && 0 <= key < KeyCount && key != KeyEscape
    modifies input.previousKeyState, input.previousMouseState, input`shouldClose, input.currentKeyState
    ensures input.Valid()
    ensures pressed <==> action == Press && old(input.currentKeyState[key]) != Press
  {
    input.PollInputEvents();
    input.KeyCallback(key, action);
    pressed := input.IsKeyPressed(key);
  }

  /** Without a new event, a key is pressed for one frame only. */
  method PressLastsOneFrame(input: InputState, key: int) returns (before: bool, after: bool)
    requires input.Valid() && 0 <= key < KeyCount
    modifies input.previousKeyState, input.previousMouseState
    ensures before == old(input.IsKeyPressed(key)) && !after
  {
    before := input.IsKeyPressed(key);
    input.PollInputEvents();
    after := input.IsKeyPressed(key);
  }
}
