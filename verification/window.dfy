/** The application window's non-GPU state: its fixed configuration, the
    lazily created singleton, and the selection of the active scene by index.
    The window handle itself belongs to GLFW and is not modelled. */
module Window {
  import opened Wrappers

  /** The two concrete scenes `changeScene` knows. */
  datatype SceneKind = LevelEditorScene | LevelScene

  /** A scene object as far as the window can observe it: which scene it is
      and whether its `init` hook has run. */
  datatype Scene = Scene(kind: SceneKind, initialized: bool)

  /** Size, title and clear colour of the window. */
  datatype Config = Config(width: int, height: int, title: string, r: real, g: real, b: real, a: real)

  /** What the private constructor sets. */
  function DefaultConfig(): Config {
    Config(1920, 1080, "jengine", 1.0, 1.0, 1.0, 1.0)
  }

  /** `Window.get`: the static `instance` slot on entry, and the slot together
      with the returned window on exit. An empty slot is filled with a
      freshly constructed window; a filled one is returned as it is. */
  function Get(instance: Option<Config>): (r: (Option<Config>, Config))
    ensures r.0 == Some(r.1)
    ensures instance.Some? ==> r.1 == instance.value
    ensures instance.None? ==> r.1.width == 1920 && r.1.height == 1080 && r.1.title == "jengine"
    ensures instance.None? ==> r.1.r == 1.0 && r.1.g == 1.0 && r.1.b == 1.0 && r.1.a == 1.0
  {
    match instance
    case Some(w) => (instance, w)
    case None => (Some(DefaultConfig()), DefaultConfig())
  }

  /** A second `get` returns the same window as the first and leaves the
      slot as the first left it. */
  lemma GetIsStable(instance: Option<Config>)
    ensures Get(Get(instance).0) == Get(instance)
  {
  }

  /** The index `changeScene` uses for each scene. */
  function SceneIndex(kind: SceneKind): int {
    match kind
    case LevelEditorScene => 0
    case LevelScene => 1
  }

  /** The `AssertionError` thrown for an unknown index when assertions are on. */
  datatype SceneError = UnknownScene(index: int)

  /** `changeScene`: index 0 installs a new level-editor scene and index 1 a
      new level scene, neither initialised. Any other index reaches
      `assert false`: it throws when assertions are enabled and otherwise
      leaves the current scene in place. */
  function ChangeScene(current: Option<Scene>, index: int, assertionsEnabled: bool)
    : (r: Result<Option<Scene>, SceneError>)
    ensures index == 0 ==> r == Success(Some(Scene(LevelEditorScene, false)))
    ensures index == 1 ==> r == Success(Some(Scene(LevelScene, false)))
    ensures r.Failure? <==> index != 0 && index != 1 && assertionsEnabled
    ensures r.Failure? ==> r.error == UnknownScene(index)
    ensures index != 0 && index != 1 && !assertionsEnabled ==> r == Success(current)
  {
    if index == 0 then Success(Some(Scene(LevelEditorScene, false)))
    else if index == 1 then Success(Some(Scene(LevelScene, false)))
    else if assertionsEnabled then Failure(UnknownScene(index))
    else Success(current)
  }

  /** Indices and scenes correspond one to one: each scene's index installs
      exactly that scene, fresh, and a successful switch to a known index
      installs the scene that index names. */
  lemma ChangeSceneSelectsByIndex(current: Option<Scene>, index: int, assertionsEnabled: bool)
    ensures forall k :: ChangeScene(current, SceneIndex(k), assertionsEnabled) == Success(Some(Scene(k, false)))
    ensures (index == 0 || index == 1) ==>
      var r := ChangeScene(current, index, assertionsEnabled);
      r.Success? && r.value.Some? && SceneIndex(r.value.value.kind) == index && !r.value.value.initialized
  {
  }
}
