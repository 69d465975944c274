/** Whole-frame consequences of the scene manager's contracts: what a client
    that requests scenes and drives frames can rely on. */
module EngineScenarios {
  import opened EngineTypes
  import FrameClock
  import SceneSwitch
  import InputDispatch
  import Engine

  /** The calls of one frame after any switch: the scene advances, the
      renderer draws, and the queued input is delivered. */
  function FrameTail(scene: Option<Scene>, deltaT: int, prepared: bool, soundReady: bool,
                     queued: seq<MotionEvent>, conv: Conversion): seq<Call>
  {
    SceneSwitch.AdvanceCalls(scene, deltaT, prepared, soundReady) + [RendererDoFrame]
      + InputDispatch.DispatchAll(scene, queued, conv)
  }

  /** After the switch, a frame calls into no scene but the current one. */
  lemma FrameTailTargetsCurrent(scene: Option<Scene>, deltaT: int, prepared: bool, soundReady: bool,
                                queued: seq<MotionEvent>, conv: Conversion)
    ensures forall c :: c in FrameTail(scene, deltaT, prepared, soundReady, queued, conv) ==>
              Target(c) == None || Target(c) == scene
  {
    SceneSwitch.AdvanceOnce(scene, deltaT, prepared, soundReady);
    InputDispatch.DispatchAllDelivers(scene, queued, conv);
    var d := InputDispatch.DispatchAll(scene, queued, conv);
    forall c | c in d ensures Target(c) == scene {
      var i :| 0 <= i < |d| && d[i] == c;
      assert c == InputDispatch.Callback(scene.value, queued[i], conv);
    }
  }

  /** The trace OnDrawFrame promises, regrouped as the switch followed by
      the frame's tail. */
  lemma Regroup(t0: seq<Call>, install: seq<Call>, advance: seq<Call>, dispatch: seq<Call>)
    ensures t0 + install + advance + [RendererDoFrame] + dispatch
            == t0 + (install + (advance + [RendererDoFrame] + dispatch))
  {
    var tail := advance + [RendererDoFrame] + dispatch;
    ConcatAssoc(advance, [RendererDoFrame], dispatch);
    ConcatAssoc(install, advance, [RendererDoFrame] + dispatch);
    ConcatAssoc(install + advance, [RendererDoFrame], dispatch);
    ConcatAssoc(t0, install, tail);
    ConcatAssoc(t0 + install, advance, [RendererDoFrame] + dispatch);
    ConcatAssoc(t0 + install + advance, [RendererDoFrame], dispatch);
  }

  /** The calls of a frame that installs `b` over `cur` mention `b`'s
      installation and nothing on any other scene `a` that was not current. */
  lemma SwitchFrameSparesOthers(cur: Option<Scene>, a: Scene, b: Scene, tail: seq<Call>)
    requires a != b && cur != Some(a)
    requires forall c :: c in tail ==> Target(c) == None || Target(c) == Some(b)
    ensures SceneInstall(b) in SceneSwitch.InstallCalls(cur, Some(b)) + tail
    ensures forall c :: c in SceneSwitch.InstallCalls(cur, Some(b)) + tail ==> Target(c) != Some(a)
  {
    SceneSwitch.InstallCallsExactly(cur, Some(b));
    forall c | c in SceneSwitch.InstallCalls(cur, Some(b)) ensures Target(c) != Some(a) {
      assert c.SceneUninstall? ==> cur == Some(c.scene);
      assert c.SceneInstall? ==> c.scene == b;
    }
  }

  /** Two requests before a frame: only the later scene is installed, and
      nothing is ever called on the earlier one. */
  method LastRequestWins(m: Engine.SceneManager, a: Scene, b: Scene, now: int, prepared: bool, soundReady: bool)
    requires m.Valid() && m.hasGL && a != b && m.curScene != Some(a)
    modifies m
    ensures m.Valid() && m.curScene == Some(b)
    ensures |old(m.trace)| <= |m.trace|
    ensures SceneInstall(b) in m.trace[|old(m.trace)|..]
    ensures forall c :: c in m.trace[|old(m.trace)|..] ==> Target(c) != Some(a)
  {
    ghost var t0, cur, q := m.trace, m.curScene, m.motionEventQueue;
    ghost var tick := FrameClock.Step(m.lastFrameTime, now);
    m.RequestNewScene(Some(a));
    m.RequestNewScene(Some(b));
    m.OnDrawFrame(now, prepared, soundReady);
    ghost var install := SceneSwitch.InstallCalls(cur, Some(b));
    ghost var advance := SceneSwitch.AdvanceCalls(Some(b), tick.deltaT, prepared, soundReady);
    ghost var dispatch := InputDispatch.DispatchAll(Some(b), q, m.conv);
    ghost var frame := install + FrameTail(Some(b), tick.deltaT, prepared, soundReady, q, m.conv);
    assert m.trace == t0 + install + advance + [RendererDoFrame] + dispatch;
    Regroup(t0, install, advance, dispatch);
    assert m.trace[|t0|..] == frame;
    FrameTailTargetsCurrent(Some(b), tick.deltaT, prepared, soundReady, q, m.conv);
    SwitchFrameSparesOthers(cur, a, b, FrameTail(Some(b), tick.deltaT, prepared, soundReady, q, m.conv));
  }

  /** Switching from scene `a` to scene `b`: the next frame runs the switch
      protocol in full, and from then on, this frame and the one after it,
      nothing is called on `a`. */
  method SwitchScenes(m: Engine.SceneManager, a: Scene, b: Scene,
                      now1: int, prepared1: bool, soundReady1: bool,
                      now2: int, prepared2: bool, soundReady2: bool)
    requires m.Valid() && m.hasGL && m.curScene == Some(a) && a != b
    modifies m
    ensures m.Valid() && m.curScene == Some(b)
    ensures |old(m.trace)| + 5 <= |m.trace|
    ensures m.trace[|old(m.trace)|..|old(m.trace)| + 5] ==
              [SceneUninstall(a), RendererReset, SoundReset, SceneInstall(b), RendererStartLoadingTexs]
    ensures forall c :: c in m.trace[|old(m.trace)| + 5..] ==> Target(c) != Some(a)
  {
    ghost var t0, q1 := m.trace, m.motionEventQueue;
    ghost var tick1 := FrameClock.Step(m.lastFrameTime, now1);
    m.RequestNewScene(Some(b));
    m.OnDrawFrame(now1, prepared1, soundReady1);
    ghost var install := SceneSwitch.InstallCalls(Some(a), Some(b));
    ghost var advance1 := SceneSwitch.AdvanceCalls(Some(b), tick1.deltaT, prepared1, soundReady1);
    ghost var dispatch1 := InputDispatch.DispatchAll(Some(b), q1, m.conv);
    assert m.trace == t0 + install + advance1 + [RendererDoFrame] + dispatch1;
    Regroup(t0, install, advance1, dispatch1);
    ghost var tail1 := FrameTail(Some(b), tick1.deltaT, prepared1, soundReady1, q1, m.conv);
    ghost var t1, q2 := m.trace, m.motionEventQueue;
    ghost var tick2 := FrameClock.Step(m.lastFrameTime, now2);
    m.OnDrawFrame(now2, prepared2, soundReady2);
    ghost var advance2 := SceneSwitch.AdvanceCalls(Some(b), tick2.deltaT, prepared2, soundReady2);
    ghost var dispatch2 := InputDispatch.DispatchAll(Some(b), q2, m.conv);
    assert m.trace == t1 + [] + advance2 + [RendererDoFrame] + dispatch2;
    Regroup(t1, [], advance2, dispatch2);
    ghost var tail2 := FrameTail(Some(b), tick2.deltaT, prepared2, soundReady2, q2, m.conv);
    assert [] + tail2 == tail2;
    FrameTailTargetsCurrent(Some(b), tick1.deltaT, prepared1, soundReady1, q1, m.conv);
    FrameTailTargetsCurrent(Some(b), tick2.deltaT, prepared2, soundReady2, q2, m.conv);
    TwoFramesAfterSwitch(t0, a, b, tail1, tail2);
  }

  /** Bookkeeping for SwitchScenes, on the trace as a value. */
  lemma TwoFramesAfterSwitch(t0: seq<Call>, a: Scene, b: Scene, tail1: seq<Call>, tail2: seq<Call>)
    requires a != b
    requires forall c :: c in tail1 ==> Target(c) == None || Target(c) == Some(b)
    requires forall c :: c in tail2 ==> Target(c) == None || Target(c) == Some(b)
    ensures var t := t0 + (SceneSwitch.InstallCalls(Some(a), Some(b)) + tail1) + tail2;
            && |t0| + 5 <= |t|
            && t[|t0|..|t0| + 5] == [SceneUninstall(a), RendererReset, SoundReset, SceneInstall(b), RendererStartLoadingTexs]
            && forall c :: c in t[|t0| + 5..] ==> Target(c) != Some(a)
  {
    var install := SceneSwitch.InstallCalls(Some(a), Some(b));
    assert install == [SceneUninstall(a), RendererReset, SoundReset, SceneInstall(b), RendererStartLoadingTexs];
    var t := t0 + (install + tail1) + tail2;
    assert t[|t0|..|t0| + 5] == install;
    assert t[|t0| + 5..] == tail1 + tail2;
  }
}
