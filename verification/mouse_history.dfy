/** The tracker seen from the outside: a history of calls into it (GLFW
    callbacks and `endFrame`) is replayed from the initial state, and every
    reading of the resulting state is characterised independently as "what
    the most recent relevant event says". */
module MouseHistory {
  import opened Wrappers
  import opened MouseListener

  /** One call into the tracker: a GLFW callback or `endFrame`. */
  datatype MouseEvent =
    | Moved(x: real, y: real)
    | ButtonEvent(button: int, action: int)
    | Scrolled(xOffset: real, yOffset: real)
    | FrameEnded

  /** A press or release of a negative button index: its callback throws. */
  predicate Throws(e: MouseEvent) {
    e.ButtonEvent? && e.button < 0 && (e.action == GLFW_PRESS || e.action == GLFW_RELEASE)
  }

  predicate NoneThrow(h: seq<MouseEvent>) {
    forall i :: 0 <= i < |h| ==> !Throws(h[i])
  }

  function Front(h: seq<MouseEvent>): seq<MouseEvent>
    requires h != []
  {
    h[..|h| - 1]
  }

  function Last(h: seq<MouseEvent>): MouseEvent
    requires h != []
  {
    h[|h| - 1]
  }

  /** Routes one event to its callback, or to `endFrame`. */
  function Dispatch(m: MouseState, e: MouseEvent): (r: Result<MouseState, MouseError>)
    ensures r.Failure? <==> Throws(e)
  {
    match e
    case Moved(x, y) => Success(MousePosition(m, x, y))
    case ButtonEvent(b, a) => MouseButton(m, b, a)
    case Scrolled(dx, dy) => Success(MouseScroll(m, dx, dy))
    case FrameEnded => Success(EndFrame(m))
  }

  /** The state after delivering `h` in order to a fresh tracker; the first
      throwing callback ends the run with its exception. */
  function Replay(h: seq<MouseEvent>): (r: Result<MouseState, MouseError>)
    ensures r.Success? <==> NoneThrow(h)
    decreases |h|
  {
    if h == [] then Success(Initial())
    else
      assert forall i :: 0 <= i < |h| - 1 ==> Front(h)[i] == h[i];
      var m :- Replay(Front(h));
      Dispatch(m, Last(h))
  }

  // Reference readings: each one names the most recent event that decides it.

  /** Target of the most recent move; the origin when there was none. */
  function PositionAfter(h: seq<MouseEvent>): (real, real) {
    if h == [] then (0.0, 0.0)
    else if Last(h).Moved? then (Last(h).x, Last(h).y)
    else PositionAfter(Front(h))
  }

  /** Where the pointer was just before the most recent move or frame end;
      the origin when there was neither. */
  function LastPositionAfter(h: seq<MouseEvent>): (real, real) {
    if h == [] then (0.0, 0.0)
    else if Last(h).Moved? || Last(h).FrameEnded? then PositionAfter(Front(h))
    else LastPositionAfter(Front(h))
  }

  /** Whether button `b` is held: the most recent press or release of `b`
      decides; never pressed means not held. */
  function HeldAfter(h: seq<MouseEvent>, b: int): bool {
    if h == [] then false
    else
      var e := Last(h);
      if e.ButtonEvent? && e.button == b && (e.action == GLFW_PRESS || e.action == GLFW_RELEASE)
      then e.action == GLFW_PRESS
      else HeldAfter(Front(h), b)
  }

  predicate AnyHeldAfter(h: seq<MouseEvent>) {
    HeldAfter(h, 0) || HeldAfter(h, 1) || HeldAfter(h, 2)
  }

  /** Dragging is decided by the most recent move (true when some button was
      held at the time) or in-range release (false), whichever came last. */
  function DraggingAfter(h: seq<MouseEvent>): bool {
    if h == [] then false
    else
      var e := Last(h);
      if e.Moved? then AnyHeldAfter(Front(h))
      else if e.ButtonEvent? && e.action == GLFW_RELEASE && e.button < BUTTON_COUNT then false
      else DraggingAfter(Front(h))
  }

  /** The offsets of the most recent scroll, unless a frame end came after
      it; zero when there was none. */
  function ScrollAfter(h: seq<MouseEvent>): (real, real) {
    if h == [] then (0.0, 0.0)
    else if Last(h).Scrolled? then (Last(h).xOffset, Last(h).yOffset)
    else if Last(h).FrameEnded? then (0.0, 0.0)
    else ScrollAfter(Front(h))
  }

  /** One step of a replay that throws nowhere. */
  lemma ReplayStep(h: seq<MouseEvent>)
    requires h != [] && NoneThrow(h)
    ensures NoneThrow(Front(h)) && Replay(Front(h)).Success?
    ensures Replay(h) == Dispatch(Replay(Front(h)).value, Last(h))
  {
    assert forall i :: 0 <= i < |Front(h)| ==> Front(h)[i] == h[i];
  }

  lemma {:induction false} ReplayPosition(h: seq<MouseEvent>)
    requires NoneThrow(h)
    ensures Replay(h).Success?
    ensures (GetX(Replay(h).value), GetY(Replay(h).value)) == PositionAfter(h)
    ensures (Replay(h).value.lastX, Replay(h).value.lastY) == LastPositionAfter(h)
  {
    if h != [] {
      ReplayStep(h);
      ReplayPosition(Front(h));
    }
  }

  lemma {:induction false} ReplayScroll(h: seq<MouseEvent>)
    requires NoneThrow(h)
    ensures Replay(h).Success?
    ensures (GetScrollX(Replay(h).value), GetScrollY(Replay(h).value)) == ScrollAfter(h)
  {
    if h != [] {
      ReplayStep(h);
      ReplayScroll(Front(h));
    }
  }

  lemma {:induction false} ReplayButtons(h: seq<MouseEvent>)
    requires NoneThrow(h)
    ensures Replay(h).Success?
    ensures Replay(h).value.buttonPressed == [HeldAfter(h, 0), HeldAfter(h, 1), HeldAfter(h, 2)]
  {
    if h != [] {
      ReplayStep(h);
      ReplayButtons(Front(h));
    }
  }

  lemma {:induction false} ReplayDragging(h: seq<MouseEvent>)
    requires NoneThrow(h)
    ensures Replay(h).Success?
    ensures IsDragging(Replay(h).value) == DraggingAfter(h)
  {
    if h != [] {
      ReplayStep(h);
      ReplayButtons(Front(h));
      ReplayDragging(Front(h));
    }
  }

  /** Replaying a history that throws nowhere, the accessors read the
      frame delta between the two reference positions and each button's
      most recent press-or-release. */
  lemma ReplayMatchesHistory(h: seq<MouseEvent>)
    requires NoneThrow(h)
    ensures Replay(h).Success?
    ensures GetDx(Replay(h).value) == LastPositionAfter(h).0 - PositionAfter(h).0
    ensures GetDy(Replay(h).value) == LastPositionAfter(h).1 - PositionAfter(h).1
    ensures forall b :: 0 <= b < BUTTON_COUNT ==> MouseButtonDown(Replay(h).value, b) == Success(HeldAfter(h, b))
  {
    ReplayPosition(h);
    ReplayButtons(h);
  }

  /** In every state a history can reach, dragging implies that some button
      is held (the converse fails: a press alone does not start a drag). */
  lemma {:induction false} DraggingImpliesButtonHeld(h: seq<MouseEvent>)
    requires Replay(h).Success?
    ensures IsDragging(Replay(h).value) ==> Replay(h).value.AnyButtonDown()
  {
    if h != [] {
      DraggingImpliesButtonHeld(Front(h));
    }
  }

  /** A failing replay fails with the exception of the first throwing event. */
  lemma {:induction false} ReplayStopsAtFirstThrow(h: seq<MouseEvent>, k: nat)
    requires k < |h| && Throws(h[k]) && NoneThrow(h[..k])
    ensures Replay(h) == Failure(ArrayIndexOutOfBounds(h[k].button))
    decreases |h|
  {
    if k == |h| - 1 {
      assert Front(h) == h[..k];
    } else {
      assert Front(h)[..k] == h[..k];
      ReplayStopsAtFirstThrow(Front(h), k);
    }
  }

  /** Without a frame end, a scroll pulse is never cleared: events that are
      neither scrolls nor frame ends leave the last offsets readable. */
  lemma {:induction false} ScrollPersistsWithoutEndFrame(h: seq<MouseEvent>, t: seq<MouseEvent>)
    requires NoneThrow(h + t)
    requires forall i :: 0 <= i < |t| ==> !t[i].Scrolled? && !t[i].FrameEnded?
    ensures Replay(h + t).Success? && Replay(h).Success?
    ensures GetScrollX(Replay(h + t).value) == GetScrollX(Replay(h).value)
    ensures GetScrollY(Replay(h + t).value) == GetScrollY(Replay(h).value)
    decreases |t|
  {
    assert forall i :: 0 <= i < |h| ==> (h + t)[i] == h[i];
    ReplayScroll(h + t);
    ReplayScroll(h);
    ScrollAfterIgnores(h, t);
  }

  lemma {:induction false} ScrollAfterIgnores(h: seq<MouseEvent>, t: seq<MouseEvent>)
    requires forall i :: 0 <= i < |t| ==> !t[i].Scrolled? && !t[i].FrameEnded?
    ensures ScrollAfter(h + t) == ScrollAfter(h)
    decreases |t|
  {
    if t != [] {
      assert Front(h + t) == h + t[..|t| - 1];
      assert Last(h + t) == t[|t| - 1];
      assert ScrollAfter(h + t) == ScrollAfter(h + t[..|t| - 1]);
      ScrollAfterIgnores(h, t[..|t| - 1]);
    } else {
      assert h + t == h;
    }
  }
}
