/** The pointer-input tracker: one record of pointer position, the position
    as of the previous sample, scroll offsets, three button flags and a
    dragging flag, changed by three GLFW callbacks and `endFrame` and read by
    pure accessors. The process-wide singleton becomes an explicit immutable
    `MouseState` that each of those calls maps to its successor. */
module MouseListener {
  import opened Wrappers

  /** GLFW's action codes for the button callback. */
  const GLFW_RELEASE: int := 0
  const GLFW_PRESS: int := 1

  /** Length of the button-flag array. */
  const BUTTON_COUNT: int := 3

  type Buttons = s: seq<bool> | |s| == BUTTON_COUNT witness [false, false, false]

  datatype MouseState = MouseState(
    scrollX: real, scrollY: real,
    xPos: real, yPos: real,
    lastX: real, lastY: real,
    buttonPressed: Buttons,
    dragging: bool)
  {
    /** At least one tracked button is held. */
    predicate AnyButtonDown() {
      buttonPressed[0] || buttonPressed[1] || buttonPressed[2]
    }
  }

  /** The exception an index below zero raises on the button array. */
  datatype MouseError = ArrayIndexOutOfBounds(index: int)

  /** The state the private constructor builds: everything zero, no button
      held (Java's default for a fresh boolean array), not dragging. */
  function Initial(): MouseState {
    MouseState(0.0, 0.0, 0.0, 0.0, 0.0, 0.0, [false, false, false], false)
  }

  // Accessors. Each is a pure read of the state.

  function GetX(m: MouseState): real { m.xPos }
  function GetY(m: MouseState): real { m.yPos }
  function GetDx(m: MouseState): real { m.lastX - m.xPos }
  function GetDy(m: MouseState): real { m.lastY - m.yPos }
  function GetScrollX(m: MouseState): real { m.scrollX }
  function GetScrollY(m: MouseState): real { m.scrollY }
  function IsDragging(m: MouseState): bool { m.dragging }

  /** Whether `button` is held. Only the upper bound is checked, so an index
      below zero reaches the array and throws. */
  function MouseButtonDown(m: MouseState, button: int): (r: Result<bool, MouseError>)
    ensures r.Failure? <==> button < 0
    ensures r.Failure? ==> r.error == ArrayIndexOutOfBounds(button)
    ensures 0 <= button < BUTTON_COUNT ==> r == Success(m.buttonPressed[button])
    ensures button >= BUTTON_COUNT ==> r == Success(false)
    ensures r.Success? && r.value ==> m.AnyButtonDown()
  {
    if button < BUTTON_COUNT then
      if button < 0 then Failure(ArrayIndexOutOfBounds(button))
      else Success(m.buttonPressed[button])
    else Success(false)
  }

  /** Cursor-position callback: the current position becomes the last one,
      the arguments become the current one, and dragging is recomputed as
      "some button is held", whether or not the pointer actually moved. */
  function MousePosition(m: MouseState, x: real, y: real): (r: MouseState)
    ensures r.lastX == m.xPos && r.lastY == m.yPos
    ensures GetX(r) == x && GetY(r) == y
    ensures GetDx(r) == GetX(m) - x && GetDy(r) == GetY(m) - y
    ensures IsDragging(r) <==> r.AnyButtonDown()
    ensures r.buttonPressed == m.buttonPressed
    ensures GetScrollX(r) == GetScrollX(m) && GetScrollY(r) == GetScrollY(m)
  {
    var b := m.buttonPressed;
    m.(lastX := m.xPos, lastY := m.yPos, xPos := x, yPos := y,
       dragging := b[0] || b[1] || b[2])
  }

  /** Button callback. A press sets the button's flag and leaves dragging
      alone; a release clears the flag and clears dragging even when other
      buttons stay held; an index at or above the array length is ignored;
      an index below zero throws; any other action is ignored whatever the
      index. Positions and scroll offsets never change. */
  function MouseButton(m: MouseState, button: int, action: int): (r: Result<MouseState, MouseError>)
    ensures r.Failure? <==> button < 0 && (action == GLFW_PRESS || action == GLFW_RELEASE)
    ensures r.Failure? ==> r.error == ArrayIndexOutOfBounds(button)
    ensures r.Success? ==> r.value.(buttonPressed := m.buttonPressed, dragging := m.dragging) == m
    ensures action == GLFW_PRESS && 0 <= button < BUTTON_COUNT ==>
      r.Success? && r.value.buttonPressed[button] && r.value.dragging == m.dragging
    ensures action == GLFW_RELEASE && 0 <= button < BUTTON_COUNT ==>
      r.Success? && !r.value.buttonPressed[button] && !r.value.dragging
    ensures r.Success? ==> forall i :: 0 <= i < BUTTON_COUNT && i != button ==>
      r.value.buttonPressed[i] == m.buttonPressed[i]
    ensures (action != GLFW_PRESS && action != GLFW_RELEASE) || button >= BUTTON_COUNT ==>
      r == Success(m)
  {
    if action == GLFW_PRESS then
      if button < BUTTON_COUNT then
        if button < 0 then Failure(ArrayIndexOutOfBounds(button))
        else Success(m.(buttonPressed := m.buttonPressed[button := true]))
      else Success(m)
    else if action == GLFW_RELEASE then
      if button < BUTTON_COUNT then
        if button < 0 then Failure(ArrayIndexOutOfBounds(button))
        else Success(m.(buttonPressed := m.buttonPressed[button := false], dragging := false))
      else Success(m)
    else Success(m)
  }

  /** Scroll callback: the offsets replace the stored ones (no accumulation);
      nothing else changes. */
  function MouseScroll(m: MouseState, xOffset: real, yOffset: real): (r: MouseState)
    ensures GetScrollX(r) == xOffset && GetScrollY(r) == yOffset
    ensures r.(scrollX := m.scrollX, scrollY := m.scrollY) == m
  {
    m.(scrollX := xOffset, scrollY := yOffset)
  }

  /** End of a frame: scroll offsets drop to zero and the last position
      catches up with the current one, so both deltas read zero. Position,
      buttons and dragging are kept. */
  function EndFrame(m: MouseState): (r: MouseState)
    ensures GetScrollX(r) == 0.0 && GetScrollY(r) == 0.0
    ensures GetDx(r) == 0.0 && GetDy(r) == 0.0
    ensures GetX(r) == GetX(m) && GetY(r) == GetY(m)
    ensures r.buttonPressed == m.buttonPressed && r.dragging == m.dragging
  {
    m.(scrollX := 0.0, scrollY := 0.0, lastX := m.xPos, lastY := m.yPos)
  }

  /** A fresh tracker reads zero everywhere, holds no button and is not
      dragging. */
  lemma InitialReadings()
    ensures var m := Initial();
      && GetX(m) == 0.0 && GetY(m) == 0.0 && GetDx(m) == 0.0 && GetDy(m) == 0.0
      && GetScrollX(m) == 0.0 && GetScrollY(m) == 0.0
      && !m.AnyButtonDown() && !IsDragging(m)
      && MouseButtonDown(m, 0) == Success(false)
      && MouseButtonDown(m, 1) == Success(false)
      && MouseButtonDown(m, 2) == Success(false)
  {
    var m := Initial();
    assert m.buttonPressed == [false, false, false];
    assert !m.buttonPressed[0] && !m.buttonPressed[1] && !m.buttonPressed[2];
  }

  /** The accessors observe the whole state, with values as reals: two
      states on which every accessor agrees are the same state (the last
      position is the current one plus the delta). */
  lemma AccessorsDetermineState(m: MouseState, n: MouseState)
    requires GetX(m) == GetX(n) && GetY(m) == GetY(n)
    requires GetDx(m) == GetDx(n) && GetDy(m) == GetDy(n)
    requires GetScrollX(m) == GetScrollX(n) && GetScrollY(m) == GetScrollY(n)
    requires IsDragging(m) == IsDragging(n)
    requires forall b :: 0 <= b < BUTTON_COUNT ==> MouseButtonDown(m, b) == MouseButtonDown(n, b)
    ensures m == n
  {
    assert MouseButtonDown(m, 0) == MouseButtonDown(n, 0);
    assert MouseButtonDown(m, 1) == MouseButtonDown(n, 1);
    assert MouseButtonDown(m, 2) == MouseButtonDown(n, 2);
    assert m.buttonPressed == n.buttonPressed;
  }

  /** A second scroll call hides the first: only the last offsets are
      readable, as if the first had never happened. */
  lemma ScrollOverwrites(m: MouseState, x1: real, y1: real, x2: real, y2: real)
    ensures MouseScroll(MouseScroll(m, x1, y1), x2, y2) == MouseScroll(m, x2, y2)
  {
  }

  /** Ending a frame twice is the same as ending it once. */
  lemma EndFrameIdempotent(m: MouseState)
    ensures EndFrame(EndFrame(m)) == EndFrame(m)
  {
  }

  /** Moves compose: after two moves the delta is measured from the first
      move's target to the second's, whatever the state was before. */
  lemma TwoMovesDelta(m: MouseState, x1: real, y1: real, x2: real, y2: real)
    ensures GetDx(MousePosition(MousePosition(m, x1, y1), x2, y2)) == x1 - x2
    ensures GetDy(MousePosition(MousePosition(m, x1, y1), x2, y2)) == y1 - y2
  {
  }

  /** Releasing one button stops the drag while another stays held: press 0,
      press 1, move, release 1 leaves button 0 down but dragging false. */
  lemma ReleaseStopsDragWhileOtherHeld()
    ensures
      var s1 := MouseButton(Initial(), 0, GLFW_PRESS).value;
      var s2 := MouseButton(s1, 1, GLFW_PRESS).value;
      var s3 := MousePosition(s2, 4.0, 2.0);
      var s4 := MouseButton(s3, 1, GLFW_RELEASE).value;
      IsDragging(s3) && MouseButtonDown(s4, 0) == Success(true) && !IsDragging(s4)
  {
  }

  /** Pressing a button does not by itself start a drag; the next move does. */
  lemma PressThenMoveStartsDrag(m: MouseState, button: int, x: real, y: real)
    requires 0 <= button < BUTTON_COUNT && !m.dragging
    ensures !IsDragging(MouseButton(m, button, GLFW_PRESS).value)
    ensures IsDragging(MousePosition(MouseButton(m, button, GLFW_PRESS).value, x, y))
  {
  }

  /** An end-to-end run: moves to (10,10) then (15,10) read a delta of
      (-5, 0); press 0 and a move start a drag; releasing 0 stops it; a
      scroll of (0,5) reads 5 until the frame ends. */
  lemma Scenario()
    ensures
      var a := MousePosition(MousePosition(Initial(), 10.0, 10.0), 15.0, 10.0);
      var b := MousePosition(MouseButton(a, 0, GLFW_PRESS).value, 20.0, 10.0);
      var c := MouseButton(b, 0, GLFW_RELEASE).value;
      var d := MouseScroll(c, 0.0, 5.0);
      && GetDx(a) == -5.0 && GetDy(a) == 0.0
      && IsDragging(b) && !IsDragging(c)
      && GetScrollY(d) == 5.0 && GetScrollY(EndFrame(d)) == 0.0
  {
  }
}
