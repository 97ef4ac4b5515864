# jengine input tracker and frame loop, modelled in Dafny

jengine is a small Java/LWJGL rendering application. Apart from GPU setup it has
two pieces of sequential logic, and this project models and proves both:

- **`MouseListener`**: a process-wide record of pointer position, last position,
  scroll offsets, three button flags and a dragging flag. Three GLFW callbacks
  (cursor position, mouse button, scroll) and the `endFrame` method change it.
  Pure accessors read it. Here the singleton becomes an immutable `MouseState`,
  and each callback and `endFrame` is a pure function from one state to the
  next.
- **`Window`**: fixed configuration, the lazily created singleton, scene
  selection by index (`changeScene`) and the frame loop (`loop`). The loop is
  reduced to its control logic. The clock becomes the list of readings it
  returns. Every GL, GLFW and scene call the loop makes is recorded, in order,
  in a trace.

Files:

| file | module | contents |
|---|---|---|
| `wrappers.dfy` | `Wrappers` | `Option` (a nullable reference) and `Result` (a call that returns or throws) |
| `mouse_listener.dfy` | `MouseListener` | state, callbacks, accessors, properties of single calls |
| `mouse_history.dfy` | `MouseHistory` | replay of a history of callbacks and `endFrame` calls from the initial state; each reading characterised independently by the most recent event that decides it |
| `window.dfy` | `Window` | configuration, `get`, `changeScene` |
| `window_loop.dfy` | `WindowLoop` | the frame loop as a fold over clock readings, a closed-form reference trace, trace observations, and the loop written with its mutable locals |

Modelling choices:

- Positions, scroll offsets, colours and clock readings are `real`. The code only
  copies, compares and subtracts them.
- Button actions are GLFW's codes: `GLFW_RELEASE = 0` and `GLFW_PRESS = 1`.
- Java throws `ArrayIndexOutOfBoundsException` for a negative button index. The
  callbacks and `mouseButtonDown` only check the upper bound, so this is
  modelled as `Failure(ArrayIndexOutOfBounds(i))`.
- `changeScene` takes an extra `assertionsEnabled` flag. For an unknown index,
  `assert false` throws when the flag is true; otherwise the current scene stays.
- The loop keeps running while readings remain. Each pass consumes one reading.
  `glfwWindowShouldClose` answers "close" once the readings run out.

Quirks of the source, modelled as written:

- The loop installs scene 0 and updates it without ever calling `init`. Every
  update therefore goes to an uninitialised scene (`WindowLoop.LoopNeverInitsOrEndsFrame`).
- The loop never calls `MouseListener.endFrame`. A scroll pulse therefore stays
  readable until the next scroll (`MouseHistory.ScrollPersistsWithoutEndFrame`).
- Releasing any in-range button clears dragging, even while another button
  stays held. Pressing a button never sets dragging; only the next move does.
- A negative button index throws rather than being ignored. An action other
  than press or release is ignored for any index.
- Scroll offsets are overwritten, not accumulated.
- With assertions disabled, an unknown scene index leaves the previous scene
  installed.
- `dt` is compared with zero, not checked against the sentinel. So a clock that
  runs backwards also suppresses the next update (`WindowLoop.BackwardClockSkipsUpdate`).

## Model

| member | source | states |
|---|---|---|
| MouseListener.InitialReadings | src/main/java/jengine/MouseListener.java:10-20 | the constructed tracker (`Initial`) reads position, delta and scroll zero, reports buttons 0, 1 and 2 as not held, and is not dragging |
| MouseListener.AccessorsDetermineState | src/main/java/jengine/MouseListener.java:62-94 | getX, getY, getDx, getDy, getScrollX, getScrollY, isDragging and mouseButtonDown are side-effect-free reads that together observe the whole state: with values as reals, two states on which they all agree are equal |
| MouseListener.MousePosition | src/main/java/jengine/MouseListener.java:29-35 | the old position becomes the last one and the arguments become the current one; dx/dy read old minus new; dragging is exactly "some button held"; buttons and scroll are unchanged |
| MouseListener.MouseButton | src/main/java/jengine/MouseListener.java:37-48 | throws exactly for a press or release of a negative index; an in-range press sets only that flag and leaves dragging alone; an in-range release clears that flag and dragging; other buttons, position and scroll never change; an index of 3 or more, or any other action, changes nothing |
| MouseListener.MouseScroll | src/main/java/jengine/MouseListener.java:50-53 | the offsets read back as given; nothing else changes |
| MouseListener.EndFrame | src/main/java/jengine/MouseListener.java:55-60 | scroll reads zero, dx and dy read zero; position, buttons and dragging are kept |
| MouseListener.MouseButtonDown | src/main/java/jengine/MouseListener.java:90-94 | throws exactly for a negative index; reads the flag for 0..2; false for 3 and above; true only while some button is held |
| MouseListener.ScrollOverwrites | src/main/java/jengine/MouseListener.java:50-53 | a second scroll hides the first completely |
| MouseListener.EndFrameIdempotent | src/main/java/jengine/MouseListener.java:55-60 | ending a frame twice is ending it once |
| MouseListener.TwoMovesDelta | src/main/java/jengine/MouseListener.java:29-33 | after two moves, dx/dy are the first target minus the second, whatever came before |
| MouseListener.ReleaseStopsDragWhileOtherHeld | src/main/java/jengine/MouseListener.java:42-46 | press 0, press 1, move, release 1: button 0 is still down but dragging is false |
| MouseListener.PressThenMoveStartsDrag | src/main/java/jengine/MouseListener.java:34-41 | a press alone does not start a drag; the following move does |
| MouseListener.Scenario | src/main/java/jengine/MouseListener.java:29-76 | moves to (10,10) and (15,10) give delta (-5,0); press and move drag, release stops it; scroll (0,5) reads 5 until endFrame sets it to 0 |
| MouseHistory.Dispatch | src/main/java/jengine/MouseListener.java:29-60 | routing an event to its callback or to endFrame throws exactly for a press or release of a negative button |
| MouseHistory.Replay | src/main/java/jengine/MouseListener.java:13-60 | replaying a history from the constructed state succeeds exactly when no event in it throws |
| MouseHistory.ReplayStopsAtFirstThrow | src/main/java/jengine/MouseListener.java:38-46 | a failing replay fails with the exception of the first throwing event |
| MouseHistory.ReplayPosition | src/main/java/jengine/MouseListener.java:13-60 | current position = target of the most recent move (origin if none); last position = position just before the most recent move or endFrame |
| MouseHistory.ReplayScroll | src/main/java/jengine/MouseListener.java:50-57 | scroll offsets = those of the most recent scroll unless an endFrame followed it, else zero |
| MouseHistory.ReplayButtons | src/main/java/jengine/MouseListener.java:37-48 | each flag = whether the most recent press-or-release of that button was a press |
| MouseHistory.ReplayDragging | src/main/java/jengine/MouseListener.java:34-46 | dragging = decided by the most recent move (some button held then) or in-range release (false) |
| MouseHistory.ReplayMatchesHistory | src/main/java/jengine/MouseListener.java:70-94 | for a history that throws nowhere, getDx/getDy read the reference last position minus the reference current position, and mouseButtonDown reads whether the button's most recent press-or-release was a press |
| MouseHistory.DraggingImpliesButtonHeld | src/main/java/jengine/MouseListener.java:34-46 | in every reachable state, dragging implies some button is held |
| MouseHistory.ScrollPersistsWithoutEndFrame | src/main/java/jengine/MouseListener.java:50-60 | since the loop never ends a mouse frame, events other than scrolls keep the last scroll offsets readable indefinitely |
| Window.Get | src/main/java/jengine/Window.java:21-50 | the returned window fills the slot; a filled slot is returned as is; a fresh window is 1920x1080, titled "jengine", with clear colour (1,1,1,1) |
| Window.GetIsStable | src/main/java/jengine/Window.java:45-50 | a second get returns the same window and leaves the slot unchanged |
| Window.ChangeScene | src/main/java/jengine/Window.java:31-43 | 0 installs a fresh level-editor scene and 1 a fresh level scene; it fails exactly for other indices with assertions on; with them off, the current scene stays |
| Window.ChangeSceneSelectsByIndex | src/main/java/jengine/Window.java:31-38 | each scene's index installs exactly that scene, uninitialised, and a known index installs the scene it names |
| WindowLoop.Pass | src/main/java/jengine/Window.java:107-117 | one pass is, in order: close check answering "keep going", clear-colour with the window's colour, clear of colour and depth, the scene update with dt exactly when dt is not negative, swap, poll; no update anywhere else |
| WindowLoop.IterateFollowsClock | src/main/java/jengine/Window.java:107-121 | from any pass k on, the loop carrying beginTime and dt in locals produces the same calls as the closed form in which pass k sees reading k minus reading k-1 |
| WindowLoop.SecondPassUpdates | src/main/java/jengine/Window.java:107-121 | with readings start <= t1, the second pass is close check, clear-colour, clear, update with t1 - start, swap, poll |
| WindowLoop.Iterate | src/main/java/jengine/Window.java:107-122 | whatever the readings, the trace from a close check onward ends with the check that answers "close" |
| WindowLoop.Loop | src/main/java/jengine/Window.java:95-123 | afterwards scene 0 is active; the trace starts with capability creation and ends with the closing check |
| WindowLoop.LoopFollowsClock | src/main/java/jengine/Window.java:96-121 | the carried-locals loop equals the closed form where pass k sees dt = reading k minus reading k-1 (the sentinel on pass 0) |
| WindowLoop.PassObservations | src/main/java/jengine/Window.java:107-117 | a pass checks close first and exactly once, then updates exactly when dt is not negative, with that dt |
| WindowLoop.LoopUpdates | src/main/java/jengine/Window.java:98-121 | with a clock that never runs backwards, updates = passes - 1, and the i-th update gets reading i+1 minus reading i |
| WindowLoop.FirstPassSkipsUpdate | src/main/java/jengine/Window.java:98-117 | the first pass makes exactly close-check, clear-colour, clear, swap, poll, with no update |
| WindowLoop.LoopChecksCloseBeforeEveryPass | src/main/java/jengine/Window.java:107 | the close condition is asked once before every pass and once more, answering "keep going" n times, then "close" |
| WindowLoop.LoopNeverInitsOrEndsFrame | src/main/java/jengine/Window.java:105-122 | the trace never calls scene init or mouse endFrame; every update goes to the level-editor scene, which was never initialised |
| WindowLoop.BackwardClockSkipsUpdate | src/main/java/jengine/Window.java:111-121 | readings 0, 2, 1, 3 give three passes but a single update, of 2 |
| WindowLoop.RunLoop | src/main/java/jengine/Window.java:95-123 | the loop written with its mutable locals produces scene 0 and the same trace as the closed-form reference |

## Left out

- GLFW initialisation, window hints, window creation, callback registration, V-Sync, showing the window and shutdown (`Window.run`, `Window.init`): foreign library setup with no logic beyond the calls themselves.
- The GLFW window handle and the real `glfwWindowShouldClose`: the close signal is modelled as arriving once the given clock readings are used up, which covers every finite run.
- Which callbacks `glfwPollEvents` triggers: the poll is a trace entry. The tracker's response to any sequence of callbacks and `endFrame` calls is modelled separately by `MouseHistory.Replay`.
- The `(float)` narrowing in the accessors and float arithmetic on the clock: values are `real`.
- `LevelEditorScene` shader compilation, buffer upload and draw calls, and `LevelScene`, `Scene`, `KeyListener` and `util.Time`: these are not part of this model. Scenes are tags with an initialised flag, and the clock is an input list.
- The second clock reading before the loop (`endTime`): it is overwritten before use. `WindowLoop.RunLoop` takes it and ignores it; `WindowLoop.Loop` omits it.
- `GL.createCapabilities` and the `changeScene(0)` call inside `loop` appear as one trace entry plus the resulting active scene.
- Unboxing a null `Integer` in `changeScene` (a `NullPointerException`): the index is a plain integer.
- The `MouseListener.getInstance` and `Window.get` lazy-initialisation order and GL thread affinity: platform and concurrency concerns. The mouse state is passed explicitly.
- WindowLoop.LoopUpdates: states the exact update times only for a clock that never runs backwards. For other clocks, per-pass behaviour is given by `WindowLoop.PassObservations` and `WindowLoop.LoopFollowsClock`.
- WindowLoop.Iterate: takes the clear colour and the active scene once and keeps them for every pass, while the source reads the public colour fields and the static current scene afresh on each pass. Only callbacks fired inside `glfwPollEvents` could change them between passes; the mouse callbacks do not touch them, and `KeyListener` is not part of this model. So the claim that every update goes to the level-editor scene holds on the assumption that no key callback writes the colour or the current scene.
