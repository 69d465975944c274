/** Delivery of queued input to the current scene
    (SceneManager.processMotionEvent, processKeyEvent): which scene callback
    each event becomes, and that a batch is delivered in order. */
module InputDispatch {
  import opened EngineTypes

  /** The scene callback a queued motion event becomes, with its coordinates
      converted by the renderer. */
  function Callback(s: Scene, e: MotionEvent, conv: Conversion): (c: Call)
    ensures c.ScenePointerDown? <==> e.action == Down
    ensures c.ScenePointerMove? <==> e.action == Move
    ensures c.ScenePointerUp? <==> e.action == Up
    ensures c.ScenePointerDown? || c.ScenePointerMove? || c.ScenePointerUp?
    ensures c.scene == s && c.pointerId == e.pointerId
    ensures c.x == conv.x(e.screenX) && c.y == conv.y(e.screenY)
    ensures c.ScenePointerMove? ==> c.deltaX == conv.deltaX(e.deltaX) && c.deltaY == conv.deltaY(e.deltaY)
  {
    var x := conv.x(e.screenX);
    var y := conv.y(e.screenY);
    match e.action
    case Down => ScenePointerDown(s, e.pointerId, x, y)
    case Move => ScenePointerMove(s, e.pointerId, x, y, conv.deltaX(e.deltaX), conv.deltaY(e.deltaY))
    case Up => ScenePointerUp(s, e.pointerId, x, y)
  }

  /** The calls processMotionEvent makes for one event: none without a
      current scene. */
  function Dispatch(scene: Option<Scene>, e: MotionEvent, conv: Conversion): seq<Call>
  {
    match scene
    case None => []
    case Some(s) => [Callback(s, e, conv)]
  }

  /** The calls made by dispatching `es` one after the other. */
  function DispatchAll(scene: Option<Scene>, es: seq<MotionEvent>, conv: Conversion): seq<Call>
    decreases |es|
  {
    if es == [] then []
    else DispatchAll(scene, es[..|es| - 1], conv) + Dispatch(scene, es[|es| - 1], conv)
  }

  /** Without a scene every event is dropped; with one, every event is
      delivered exactly once, in queue order, to that scene. */
  lemma {:induction false} DispatchAllDelivers(scene: Option<Scene>, es: seq<MotionEvent>, conv: Conversion)
    ensures scene.None? ==> DispatchAll(scene, es, conv) == []
    ensures scene.Some? ==>
              |DispatchAll(scene, es, conv)| == |es| &&
              forall i :: 0 <= i < |es| ==> DispatchAll(scene, es, conv)[i] == Callback(scene.value, es[i], conv)
    decreases |es|
  {
    if es != [] {
      var n := |es| - 1;
      DispatchAllDelivers(scene, es[..n], conv);
      if scene.Some? {
        forall i | 0 <= i < |es|
          ensures DispatchAll(scene, es, conv)[i] == Callback(scene.value, es[i], conv)
        {
          if i < n {
            assert es[..n][i] == es[i];
          }
        }
      }
    }
  }

  /** Dispatching one more event appends its calls. */
  lemma DispatchAllSnoc(scene: Option<Scene>, es: seq<MotionEvent>, e: MotionEvent, conv: Conversion)
    ensures DispatchAll(scene, es + [e], conv) == DispatchAll(scene, es, conv) + Dispatch(scene, e, conv)
  {
    assert (es + [e])[..|es|] == es;
  }

  /** The calls processKeyEvent makes for a key event with key action
      `keyAction`: a key-down or key-up callback on the current scene, nothing
      for any other action or without a scene. */
  function KeyCalls(scene: Option<Scene>, keyCode: int, keyAction: int, repeatCount: int): (calls: seq<Call>)
    ensures |calls| <= 1
    ensures calls != [] <==> scene.Some? && (keyAction == KEY_ACTION_DOWN || keyAction == KEY_ACTION_UP)
    ensures forall c :: c in calls ==>
              (c.SceneKeyDown? || c.SceneKeyUp?) && scene.Some? && c.scene == scene.value && c.keyCode == keyCode
    ensures forall c :: c in calls ==> (c.SceneKeyDown? <==> keyAction == KEY_ACTION_DOWN)
    ensures forall c :: c in calls ==> (c.SceneKeyUp? <==> keyAction == KEY_ACTION_UP)
    ensures forall c :: c in calls && c.SceneKeyDown? ==> c.repeatCount == repeatCount
  {
    match scene
    case None => []
    case Some(s) =>
      if keyAction == KEY_ACTION_DOWN then [SceneKeyDown(s, keyCode, repeatCount)]
      else if keyAction == KEY_ACTION_UP then [SceneKeyUp(s, keyCode)]
      else []
  }

  /** onKeyDown and onKeyUp: the back key is left to the host (false);
      every other key is offered to the scene and reported handled. */
  function KeyHandled(keyCode: int): bool
  {
    keyCode != KEYCODE_BACK
  }
}
