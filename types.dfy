/** Values shared by every part of the scene manager model: scene identities,
    touch points, the queued motion-event record, and the calls the manager
    makes on its collaborators (the current scene, the renderer and the sound
    manager), which the model records in order. */
module EngineTypes {

  datatype Option<+T> = None | Some(value: T)

  /** A scene object, known only by its identity. */
  type Scene = nat

  /** The host activity, known only by its identity. */
  type Activity = nat

  /** A touch position in screen space (android.graphics.PointF). */
  datatype Point = Point(x: int, y: int)

  /** The three kinds of event the manager ever stores in a queued record. */
  datatype Action = Down | Up | Move

  /** The queued motion-event record (SceneManager.OurMotionEvent). */
  datatype MotionEvent = MotionEvent(action: Action, pointerId: int,
                                     screenX: int, screenY: int,
                                     deltaX: int, deltaY: int)

  /** The renderer's screen-to-game coordinate conversions, which the model
      takes as given functions. */
  datatype Conversion = Conversion(x: int -> int, y: int -> int,
                                   deltaX: int -> int, deltaY: int -> int)

  /** One call the manager makes on a collaborator. */
  datatype Call =
    | SceneInstall(scene: Scene)
    | SceneUninstall(scene: Scene)
    | SceneScreenResized(scene: Scene, width: int, height: int)
    | SceneDoFrame(scene: Scene, deltaT: int)
    | SceneStandbyFrame(scene: Scene, deltaT: int)
    | ScenePointerDown(scene: Scene, pointerId: int, x: int, y: int)
    | ScenePointerMove(scene: Scene, pointerId: int, x: int, y: int, deltaX: int, deltaY: int)
    | ScenePointerUp(scene: Scene, pointerId: int, x: int, y: int)
    | SceneKeyDown(scene: Scene, keyCode: int, repeatCount: int)
    | SceneKeyUp(scene: Scene, keyCode: int)
    | RendererSurfaceCreated
    | RendererSurfaceChanged(width: int, height: int)
    | RendererReset
    | RendererStartLoadingTexs
    | RendererDoFrame
    | SoundReset
    | SoundPause
    | SoundResume

  /** The scene a call is made on; renderer and sound-manager calls have
      none. */
  function Target(c: Call): Option<Scene>
  {
    match c
    case SceneInstall(s) => Some(s)
    case SceneUninstall(s) => Some(s)
    case SceneScreenResized(s, _, _) => Some(s)
    case SceneDoFrame(s, _) => Some(s)
    case SceneStandbyFrame(s, _) => Some(s)
    case ScenePointerDown(s, _, _, _) => Some(s)
    case ScenePointerMove(s, _, _, _, _, _) => Some(s)
    case ScenePointerUp(s, _, _, _) => Some(s)
    case SceneKeyDown(s, _, _) => Some(s)
    case SceneKeyUp(s, _) => Some(s)
    case _ => None
  }

  /** Masked actions of android.view.MotionEvent. */
  const ACTION_DOWN: int := 0
  const ACTION_UP: int := 1
  const ACTION_MOVE: int := 2
  const ACTION_POINTER_DOWN: int := 5
  const ACTION_POINTER_UP: int := 6

  /** Actions and key codes of android.view.KeyEvent. */
  const KEY_ACTION_DOWN: int := 0
  const KEY_ACTION_UP: int := 1
  const KEYCODE_BACK: int := 4

  /** Concatenation regroups freely. */
  lemma ConcatAssoc<T>(a: seq<T>, b: seq<T>, c: seq<T>)
    ensures a + (b + c) == (a + b) + c
  {
  }
}
