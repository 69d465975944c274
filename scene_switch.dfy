/** The calls the manager makes on its collaborators when it switches scenes
    (SceneManager.installNewScene) and when it advances the current scene by
    one frame (the middle of SceneManager.onDrawFrame). */
module SceneSwitch {
  import opened EngineTypes

  /** Position of a switch call in the switch protocol: the old scene is
      uninstalled, the renderer and then the sound manager are reset, the new
      scene is installed and its textures start loading. */
  function Phase(c: Call): nat
  {
    match c
    case SceneUninstall(_) => 0
    case RendererReset => 1
    case SoundReset => 2
    case SceneInstall(_) => 3
    case _ => 4
  }

  /** The calls installNewScene makes when the current scene is `cur` and the
      pending one is `next`. */
  function InstallCalls(cur: Option<Scene>, next: Option<Scene>): seq<Call>
  {
    var teardown := if cur.Some? then [SceneUninstall(cur.value), RendererReset, SoundReset] else [];
    var setup := if next.Some? then [SceneInstall(next.value), RendererStartLoadingTexs] else [];
    teardown + setup
  }

  /** The switch protocol runs strictly in phase order, each step at most
      once. */
  lemma InstallInPhaseOrder(cur: Option<Scene>, next: Option<Scene>)
    ensures var calls := InstallCalls(cur, next);
            forall i, j :: 0 <= i < j < |calls| ==> Phase(calls[i]) < Phase(calls[j])
  {
  }

  /** The old scene is torn down, and the renderer and sound manager reset,
      exactly when there was one; the new scene is installed, and its
      textures start loading, exactly when there is one; nothing else
      happens. */
  lemma InstallCallsExactly(cur: Option<Scene>, next: Option<Scene>)
    ensures forall s: Scene :: SceneUninstall(s) in InstallCalls(cur, next) <==> cur == Some(s)
    ensures RendererReset in InstallCalls(cur, next) <==> cur.Some?
    ensures SoundReset in InstallCalls(cur, next) <==> cur.Some?
    ensures forall s: Scene :: SceneInstall(s) in InstallCalls(cur, next) <==> next == Some(s)
    ensures RendererStartLoadingTexs in InstallCalls(cur, next) <==> next.Some?
    ensures forall c :: c in InstallCalls(cur, next) ==>
              c.SceneUninstall? || c.RendererReset? || c.SoundReset? ||
              c.SceneInstall? || c.RendererStartLoadingTexs?
  {
  }

  /** The call that advances the current scene by one frame: a full frame when
      the renderer has a frame prepared and the sound manager is ready, a
      standby frame otherwise, nothing without a current scene. */
  function AdvanceCalls(cur: Option<Scene>, deltaT: int, prepared: bool, soundReady: bool): seq<Call>
  {
    match cur
    case None => []
    case Some(s) => if prepared && soundReady then [SceneDoFrame(s, deltaT)] else [SceneStandbyFrame(s, deltaT)]
  }

  /** A frame with a current scene advances it exactly once, by the measured
      delta: a full frame exactly when the renderer and the sound manager are
      both ready; a frame without one advances nothing. */
  lemma AdvanceOnce(cur: Option<Scene>, deltaT: int, prepared: bool, soundReady: bool)
    ensures cur.None? <==> AdvanceCalls(cur, deltaT, prepared, soundReady) == []
    ensures cur.Some? ==> |AdvanceCalls(cur, deltaT, prepared, soundReady)| == 1
    ensures forall c :: c in AdvanceCalls(cur, deltaT, prepared, soundReady) ==>
              (c.SceneDoFrame? <==> prepared && soundReady)
    ensures forall c :: c in AdvanceCalls(cur, deltaT, prepared, soundReady) ==>
              (c.SceneDoFrame? || c.SceneStandbyFrame?) && c.scene == cur.value && c.deltaT == deltaT
  {
  }
}
