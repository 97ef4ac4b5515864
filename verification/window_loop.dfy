/** `Window.loop` reduced to its control logic. The clock becomes the list of
    readings it returns, the window is asked to close once those readings
    are used up, and every GLFW, GL and scene call the loop makes is
    recorded, in order, in a trace of `Call`s. */
module WindowLoop {
  import opened Wrappers
  import opened Window

  /** `GL_COLOR_BUFFER_BIT | GL_DEPTH_BUFFER_BIT` (0x4000 | 0x0100). */
  const CLEAR_MASK: int := 0x4100

  /** Initial value of `dt`: no frame time measured yet. */
  const DT_UNKNOWN: real := -1.0

  /** The calls the loop can observably make. `SceneInit` and
      `MouseEndFrame` stand for `Scene.init` and `MouseListener.endFrame`,
      which the loop could call but does not. */
  datatype Call =
    | CreateCapabilities
    | WindowShouldClose(answer: bool)
    | ClearColor(r: real, g: real, b: real, a: real)
    | Clear(mask: int)
    | SceneInit(initScene: Scene)
    | SceneUpdate(scene: Scene, dt: real)
    | SwapBuffers
    | PollEvents
    | MouseEndFrame

  /** One pass: the close check answering "keep going", then the loop body
      when `dt` holds the last measured frame time. */
  function Pass(c: Config, scene: Scene, dt: real): (calls: seq<Call>)
    ensures |calls| == if dt >= 0.0 then 6 else 5
    ensures calls[0] == WindowShouldClose(false)
    ensures calls[1] == ClearColor(c.r, c.g, c.b, c.a) && calls[2] == Clear(CLEAR_MASK)
    ensures dt >= 0.0 ==> calls[3] == SceneUpdate(scene, dt)
    ensures calls[|calls| - 2] == SwapBuffers && calls[|calls| - 1] == PollEvents
    ensures forall i :: 0 <= i < |calls| && calls[i].SceneUpdate? ==> i == 3 && dt >= 0.0
  {
    [WindowShouldClose(false), ClearColor(c.r, c.g, c.b, c.a), Clear(CLEAR_MASK)]
    + (if dt >= 0.0 then [SceneUpdate(scene, dt)] else [])
    + [SwapBuffers, PollEvents]
  }

  /** The calls from the next close check onward, when the loop's locals
      hold `beginTime` and `dt` and the clock's remaining readings are
      `readings`: one pass per reading, then the check that answers
      "close". */
  function Iterate(c: Config, scene: Scene, beginTime: real, dt: real, readings: seq<real>): (calls: seq<Call>)
    ensures |calls| >= 1 && calls[|calls| - 1] == WindowShouldClose(true)
    decreases |readings|
  {
    if readings == [] then [WindowShouldClose(true)]
    else
      var endTime := readings[0];
      Pass(c, scene, dt) + Iterate(c, scene, endTime, endTime - beginTime, readings[1..])
  }

  /** What a run of the loop leaves behind: the active scene and the trace. */
  datatype LoopRun = LoopRun(currentScene: Option<Scene>, calls: seq<Call>)

  /** The scene `changeScene(0)` installs. */
  function EditorScene(): Scene {
    Scene(LevelEditorScene, false)
  }

  /** `Window.loop` with clock readings `start` (taken into `beginTime`) and
      then `readings`, one per pass. The second reading before the loop,
      taken into `endTime`, is overwritten before it is used and so does
      not appear. */
  function Loop(c: Config, current: Option<Scene>, start: real, readings: seq<real>): (r: LoopRun)
    ensures r.currentScene == Some(EditorScene())
    ensures |r.calls| >= 2 && r.calls[0] == CreateCapabilities
    ensures r.calls[|r.calls| - 1] == WindowShouldClose(true)
  {
    var installed := ChangeScene(current, 0, true);
    LoopRun(installed.value, [CreateCapabilities] + Iterate(c, installed.value.value, start, DT_UNKNOWN, readings))
  }

  // ---------------------------------------------------------------------
  // Reference definition: pass k sees the frame time between readings
  // k - 1 and k of the whole clock, with no carried locals.

  /** The whole clock: the reading before the loop, then one per pass. */
  function Clock(start: real, readings: seq<real>): seq<real> {
    [start] + readings
  }

  /** The `dt` that pass `k` sees: unknown on the first pass, otherwise the
      difference of the clock readings that bracket the previous pass. */
  function DtAt(clock: seq<real>, k: nat): real
    requires k < |clock|
  {
    if k == 0 then DT_UNKNOWN else clock[k] - clock[k - 1]
  }

  /** Passes `k` to `|clock| - 2` followed by the closing check. */
  function PassesFrom(c: Config, scene: Scene, clock: seq<real>, k: nat): seq<Call>
    decreases |clock| - k
  {
    if k + 1 >= |clock| then [WindowShouldClose(true)]
    else Pass(c, scene, DtAt(clock, k)) + PassesFrom(c, scene, clock, k + 1)
  }

  lemma {:induction false} IterateFollowsClock(c: Config, scene: Scene, clock: seq<real>, k: nat)
    requires k < |clock|
    ensures Iterate(c, scene, clock[k], DtAt(clock, k), clock[k + 1..]) == PassesFrom(c, scene, clock, k)
    decreases |clock| - k
  {
    if k + 1 < |clock| {
      assert clock[k + 1..][0] == clock[k + 1];
      assert clock[k + 1..][1..] == clock[k + 2..];
      IterateFollowsClock(c, scene, clock, k + 1);
    }
  }

  /** The loop's trace is capability creation followed by one pass per
      clock reading after the first, pass `k` seeing the `dt` the clock
      prescribes for it, and the final close check. */
  lemma LoopFollowsClock(c: Config, current: Option<Scene>, start: real, readings: seq<real>)
    ensures Loop(c, current, start, readings).calls
         == [CreateCapabilities] + PassesFrom(c, EditorScene(), Clock(start, readings), 0)
  {
    var clock := Clock(start, readings);
    assert clock[1..] == readings;
    IterateFollowsClock(c, EditorScene(), clock, 0);
  }

  // ---------------------------------------------------------------------
  // Observations of a trace.

  /** The `dt` of every scene update, in order. */
  function Updates(calls: seq<Call>): seq<real> {
    if calls == [] then []
    else (if calls[0].SceneUpdate? then [calls[0].dt] else []) + Updates(calls[1..])
  }

  /** The answers of every close check, in order. */
  function CloseChecks(calls: seq<Call>): seq<bool> {
    if calls == [] then []
    else (if calls[0].WindowShouldClose? then [calls[0].answer] else []) + CloseChecks(calls[1..])
  }

  lemma {:induction false} UpdatesAppend(a: seq<Call>, b: seq<Call>)
    ensures Updates(a + b) == Updates(a) + Updates(b)
    decreases |a|
  {
    if a == [] {
      assert a + b == b;
    } else {
      var head := if a[0].SceneUpdate? then [a[0].dt] else [];
      assert (a + b)[0] == a[0];
      assert (a + b)[1..] == a[1..] + b;
      assert Updates(a + b) == head + Updates(a[1..] + b);
      UpdatesAppend(a[1..], b);
      assert Updates(a) == head + Updates(a[1..]);
    }
  }

  lemma {:induction false} CloseChecksAppend(a: seq<Call>, b: seq<Call>)
    ensures CloseChecks(a + b) == CloseChecks(a) + CloseChecks(b)
    decreases |a|
  {
    if a == [] {
      assert a + b == b;
    } else {
      var head := if a[0].WindowShouldClose? then [a[0].answer] else [];
      assert (a + b)[0] == a[0];
      assert (a + b)[1..] == a[1..] + b;
      assert CloseChecks(a + b) == head + CloseChecks(a[1..] + b);
      CloseChecksAppend(a[1..], b);
      assert CloseChecks(a) == head + CloseChecks(a[1..]);
    }
  }

  lemma {:induction false} UpdatesNone(s: seq<Call>)
    requires forall i :: 0 <= i < |s| ==> !s[i].SceneUpdate?
    ensures Updates(s) == []
    decreases |s|
  {
    if s != [] {
      UpdatesNone(s[1..]);
    }
  }

  lemma {:induction false} CloseChecksNone(s: seq<Call>)
    requires forall i :: 0 <= i < |s| ==> !s[i].WindowShouldClose?
    ensures CloseChecks(s) == []
    decreases |s|
  {
    if s != [] {
      CloseChecksNone(s[1..]);
    }
  }

  /** A pass calls `update` exactly when `dt` is not negative, with that `dt`,
      and checks the close condition exactly once, first. */
  lemma PassObservations(c: Config, scene: Scene, dt: real)
    ensures Updates(Pass(c, scene, dt)) == (if dt >= 0.0 then [dt] else [])
    ensures CloseChecks(Pass(c, scene, dt)) == [false]
    ensures Pass(c, scene, dt)[0] == WindowShouldClose(false)
  {
    var before := [WindowShouldClose(false), ClearColor(c.r, c.g, c.b, c.a), Clear(CLEAR_MASK)];
    var update := if dt >= 0.0 then [SceneUpdate(scene, dt)] else [];
    var after := [SwapBuffers, PollEvents];
    var p := Pass(c, scene, dt);
    assert p == before + update + after;
    UpdatesNone(before);
    UpdatesNone(after);
    UpdatesAppend(before + update, after);
    UpdatesAppend(before, update);
    if dt >= 0.0 {
      assert update[1..] == [];
    }
    assert p == [WindowShouldClose(false)] + p[1..];
    CloseChecksNone(p[1..]);
    CloseChecksAppend([WindowShouldClose(false)], p[1..]);
    assert [WindowShouldClose(false)][1..] == [];
  }

  predicate NonDecreasing(clock: seq<real>) {
    forall i, j :: 0 <= i < j < |clock| ==> clock[i] <= clock[j]
  }

  /** The frame times of passes `k` to `|clock| - 2`, as differences of
      consecutive clock readings. */
  function FrameTimes(clock: seq<real>, k: nat): seq<real>
    requires 1 <= k <= |clock|
  {
    var n := if k + 1 <= |clock| then |clock| - 1 - k else 0;
    seq(n, i requires 0 <= i < n => clock[k + i] - clock[k + i - 1])
  }

  lemma FrameTimesCons(clock: seq<real>, k: nat)
    requires 1 <= k && k + 1 < |clock|
    ensures FrameTimes(clock, k) == [clock[k] - clock[k - 1]] + FrameTimes(clock, k + 1)
  {
    var all := FrameTimes(clock, k);
    var rest := FrameTimes(clock, k + 1);
    assert |all| == 1 + |rest|;
    forall i | 0 <= i < |all|
      ensures all[i] == ([clock[k] - clock[k - 1]] + rest)[i]
    {
      if i > 0 {
        assert ([clock[k] - clock[k - 1]] + rest)[i] == rest[i - 1];
      }
    }
  }

  /** Frame times from pass `k` on: the differences of consecutive
      readings, pass `k` being the first to update when `k >= 1`. */
  lemma {:induction false} UpdatesFrom(c: Config, scene: Scene, clock: seq<real>, k: nat)
    requires NonDecreasing(clock)
    requires 1 <= k <= |clock|
    ensures Updates(PassesFrom(c, scene, clock, k)) == FrameTimes(clock, k)
    decreases |clock| - k
  {
    var p := PassesFrom(c, scene, clock, k);
    if k + 1 >= |clock| {
      assert p == [WindowShouldClose(true)];
      assert Updates(p) == [];
    } else {
      var dt := clock[k] - clock[k - 1];
      assert clock[k - 1] <= clock[k];
      assert DtAt(clock, k) == dt;
      assert p == Pass(c, scene, dt) + PassesFrom(c, scene, clock, k + 1);
      PassObservations(c, scene, dt);
      UpdatesAppend(Pass(c, scene, dt), PassesFrom(c, scene, clock, k + 1));
      UpdatesFrom(c, scene, clock, k + 1);
      FrameTimesCons(clock, k);
    }
  }

  /** With a clock that never runs backwards, the first pass never updates
      and every later pass updates exactly once, with the time between the
      two readings before it: `updates = passes - 1`. */
  lemma LoopUpdates(c: Config, current: Option<Scene>, start: real, readings: seq<real>)
    requires NonDecreasing(Clock(start, readings))
    ensures var clock := Clock(start, readings);
      var n := if |readings| >= 1 then |readings| - 1 else 0;
      var updates := Updates(Loop(c, current, start, readings).calls);
      && |updates| == n
      && forall i :: 0 <= i < n ==> updates[i] == clock[i + 1] - clock[i]
  {
    var clock := Clock(start, readings);
    var scene := EditorScene();
    LoopFollowsClock(c, current, start, readings);
    UpdatesAppend([CreateCapabilities], PassesFrom(c, scene, clock, 0));
    assert Updates([CreateCapabilities]) == [];
    if |readings| >= 1 {
      PassObservations(c, scene, DtAt(clock, 0));
      UpdatesAppend(Pass(c, scene, DtAt(clock, 0)), PassesFrom(c, scene, clock, 1));
      UpdatesFrom(c, scene, clock, 1);
    }
  }

  /** The first pass, when there is one, makes exactly these calls and no
      scene update. */
  lemma FirstPassSkipsUpdate(c: Config, current: Option<Scene>, start: real, readings: seq<real>)
    requires |readings| >= 1
    ensures Loop(c, current, start, readings).calls[1..6]
         == [WindowShouldClose(false), ClearColor(c.r, c.g, c.b, c.a), Clear(CLEAR_MASK), SwapBuffers, PollEvents]
  {
  }

  /** A pass after the first, over a clock that has not run backwards,
      updates the scene between clearing and swapping. */
  lemma SecondPassUpdates(c: Config, current: Option<Scene>, start: real, t1: real, t2: real)
    requires start <= t1
    ensures |Loop(c, current, start, [t1, t2]).calls| >= 12
         && Loop(c, current, start, [t1, t2]).calls[6..12]
         == [WindowShouldClose(false), ClearColor(c.r, c.g, c.b, c.a), Clear(CLEAR_MASK),
             SceneUpdate(EditorScene(), t1 - start), SwapBuffers, PollEvents]
  {
    var sc := EditorScene();
    var clock := Clock(start, [t1, t2]);
    LoopFollowsClock(c, current, start, [t1, t2]);
    assert DtAt(clock, 0) == DT_UNKNOWN && DtAt(clock, 1) == t1 - start;
    var first := Pass(c, sc, DT_UNKNOWN);
    var second := Pass(c, sc, t1 - start);
    assert PassesFrom(c, sc, clock, 0) == first + (second + PassesFrom(c, sc, clock, 2));
    var calls := Loop(c, current, start, [t1, t2]).calls;
    assert calls == [CreateCapabilities] + first + second + PassesFrom(c, sc, clock, 2);
    assert |first| == 5 && |second| == 6;
    assert calls[6..12] == second;
  }

  /** The close condition is checked before every pass and once more at the
      end: one "keep going" per reading after the first, then "close". */
  lemma {:induction false} CloseChecksFrom(c: Config, scene: Scene, clock: seq<real>, k: nat)
    ensures var n := if k + 1 <= |clock| then |clock| - 1 - k else 0;
      CloseChecks(PassesFrom(c, scene, clock, k)) == seq(n, _ => false) + [true]
    decreases |clock| - k
  {
    if k + 1 >= |clock| {
      assert CloseChecks([WindowShouldClose(true)]) == [true];
    } else {
      var p := PassesFrom(c, scene, clock, k);
      var dt := DtAt(clock, k);
      var n := |clock| - 1 - k;
      var rest: seq<bool> := seq(n - 1, _ => false);
      CloseChecksFrom(c, scene, clock, k + 1);
      assert CloseChecks(p) == [false] + (rest + [true]) by {
        assert p == Pass(c, scene, dt) + PassesFrom(c, scene, clock, k + 1);
        PassObservations(c, scene, dt);
        CloseChecksAppend(Pass(c, scene, dt), PassesFrom(c, scene, clock, k + 1));
      }
      assert [false] + rest == seq(n, _ => false);
      assert [false] + (rest + [true]) == ([false] + rest) + [true];
    }
  }

  lemma LoopChecksCloseBeforeEveryPass(c: Config, current: Option<Scene>, start: real, readings: seq<real>)
    ensures CloseChecks(Loop(c, current, start, readings).calls) == seq(|readings|, _ => false) + [true]
  {
    LoopFollowsClock(c, current, start, readings);
    CloseChecksAppend([CreateCapabilities], PassesFrom(c, EditorScene(), Clock(start, readings), 0));
    assert CloseChecks([CreateCapabilities]) == [];
    CloseChecksFrom(c, EditorScene(), Clock(start, readings), 0);
  }

  /** No call the loop makes is `Scene.init` or `MouseListener.endFrame`,
      and every update goes to the scene `changeScene(0)` installed, which
      has never been initialised. */
  predicate UpdatesUninitialisedEditorOnly(calls: seq<Call>) {
    forall i :: 0 <= i < |calls| ==>
      && !calls[i].SceneInit?
      && !calls[i].MouseEndFrame?
      && (calls[i].SceneUpdate? ==> calls[i].scene == EditorScene() && !calls[i].scene.initialized)
  }

  lemma {:induction false} IterateNeverInits(c: Config, beginTime: real, dt: real, readings: seq<real>)
    ensures UpdatesUninitialisedEditorOnly(Iterate(c, EditorScene(), beginTime, dt, readings))
    decreases |readings|
  {
    if readings != [] {
      IterateNeverInits(c, readings[0], readings[0] - beginTime, readings[1..]);
    }
  }

  lemma LoopNeverInitsOrEndsFrame(c: Config, current: Option<Scene>, start: real, readings: seq<real>)
    ensures UpdatesUninitialisedEditorOnly(Loop(c, current, start, readings).calls)
  {
    IterateNeverInits(c, start, DT_UNKNOWN, readings);
  }

  /** A clock that runs backwards makes the following pass skip its update:
      readings 0, 2, 1, 3 give three passes but a single update of 2. */
  lemma BackwardClockSkipsUpdate(c: Config, current: Option<Scene>)
    ensures Updates(Loop(c, current, 0.0, [2.0, 1.0, 3.0]).calls) == [2.0]
  {
    var s := EditorScene();
    var clock := Clock(0.0, [2.0, 1.0, 3.0]);
    assert clock == [0.0, 2.0, 1.0, 3.0];
    var back := Pass(c, s, -1.0);
    var forward := Pass(c, s, 2.0);
    var p3 := PassesFrom(c, s, clock, 3);
    var p2 := PassesFrom(c, s, clock, 2);
    var p1 := PassesFrom(c, s, clock, 1);
    var p0 := PassesFrom(c, s, clock, 0);
    assert Updates(back) == [] && Updates(forward) == [2.0] by {
      PassObservations(c, s, -1.0);
      PassObservations(c, s, 2.0);
    }
    assert Updates(p3) == [] by {
      assert p3 == [WindowShouldClose(true)];
    }
    assert Updates(p2) == [] by {
      assert DtAt(clock, 2) == -1.0 && p2 == back + p3;
      UpdatesAppend(back, p3);
    }
    assert Updates(p1) == [2.0] by {
      assert DtAt(clock, 1) == 2.0 && p1 == forward + p2;
      UpdatesAppend(forward, p2);
    }
    assert Updates(p0) == [2.0] by {
      assert DtAt(clock, 0) == -1.0 && p0 == back + p1;
      UpdatesAppend(back, p1);
    }
    LoopFollowsClock(c, current, 0.0, [2.0, 1.0, 3.0]);
    UpdatesAppend([CreateCapabilities], p0);
    assert Updates([CreateCapabilities]) == [];
  }

  // ---------------------------------------------------------------------
  // The loop as written, with its mutable locals.

  /** `Window.loop` statement by statement: the clock readings are `start`
      and `initialEnd` before the loop and `readings` inside it. */
  method RunLoop(c: Config, current: Option<Scene>, start: real, initialEnd: real, readings: seq<real>)
    returns (scene: Option<Scene>, calls: seq<Call>)
    ensures scene == Some(EditorScene())
    ensures calls == [CreateCapabilities] + PassesFrom(c, EditorScene(), Clock(start, readings), 0)
  {
    var beginTime := start;
    var endTime := initialEnd;
    var dt := DT_UNKNOWN;
    calls := [CreateCapabilities];
    var installed := ChangeScene(current, 0, true);
    scene := installed.value;
    var active := scene.value;
    var i := 0;
    while i < |readings|
      invariant 0 <= i <= |readings|
      invariant i == 0 ==> dt == DT_UNKNOWN && beginTime == start
      invariant i > 0 ==> beginTime == readings[i - 1]
      invariant dt == DtAt(Clock(start, readings), i)
      invariant calls + PassesFrom(c, active, Clock(start, readings), i)
             == [CreateCapabilities] + PassesFrom(c, active, Clock(start, readings), 0)
    {
      calls := calls + [WindowShouldClose(false), ClearColor(c.r, c.g, c.b, c.a), Clear(CLEAR_MASK)];
      if dt >= 0.0 {
        calls := calls + [SceneUpdate(active, dt)];
      }
      calls := calls + [SwapBuffers, PollEvents];
      endTime := readings[i];
      dt := endTime - beginTime;
      beginTime := endTime;
      i := i + 1;
    }
    calls := calls + [WindowShouldClose(true)];
  }
}
