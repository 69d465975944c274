/** Activity presence (SceneManager.onPause, onResume, onFocusChanged and
    shouldBePlaying): whether the host activity is resumed, whether it has
    window focus, the activity reference held while it is resumed, and the
    pause/resume calls made on the sound manager. */
module ActivityPresence {
  import opened EngineTypes

  datatype Presence = Presence(resumed: bool, hasFocus: bool, activity: Option<Activity>)

  /** The single derived signal: play only when resumed and focused. */
  predicate ShouldBePlaying(p: Presence)
  {
    p.resumed && p.hasFocus
  }

  datatype LifecycleEvent = Paused | Resumed(activity: Activity) | FocusChanged(focus: bool)

  /** The presence after one lifecycle event. */
  function After(p: Presence, ev: LifecycleEvent): Presence
  {
    match ev
    case Paused => p.(resumed := false, activity := None)
    case Resumed(a) => p.(resumed := true, activity := Some(a))
    case FocusChanged(f) => p.(hasFocus := f)
  }

  /** What the event demands: losing focus pauses the sound manager with no
      check that it exists. */
  predicate Permitted(hasSound: bool, ev: LifecycleEvent)
  {
    ev == FocusChanged(false) ==> hasSound
  }

  /** The sound-manager calls made on event `ev` in presence `p`, when a sound
      manager exists exactly if `hasSound`. */
  function SoundCalls(p: Presence, hasSound: bool, ev: LifecycleEvent): (calls: seq<Call>)
    requires Permitted(hasSound, ev)
    ensures |calls| <= 1
    ensures forall c :: c in calls ==> c == SoundPause || c == SoundResume
    ensures calls != [] ==> hasSound
    // sound resumes only into a state where it should be playing
    ensures SoundResume in calls ==> ShouldBePlaying(After(p, ev))
    // sound pauses only into a state where it should not be playing
    ensures SoundPause in calls ==> !ShouldBePlaying(After(p, ev))
    // losing either condition silences the sound at once
    ensures hasSound && ShouldBePlaying(p) && !ShouldBePlaying(After(p, ev)) ==> calls == [SoundPause]
    // gaining the second condition restarts it at once
    ensures hasSound && !ShouldBePlaying(p) && ShouldBePlaying(After(p, ev)) ==> calls == [SoundResume]
    // a pause, and every loss of focus, pauses the sound even when it is already silent
    ensures ev == Paused ==> calls == (if hasSound then [SoundPause] else [])
    ensures ev == FocusChanged(false) ==> calls == [SoundPause]
    // a resume or a focus gain never pauses, and resumes whenever it leaves the game playing
    ensures (ev.Resumed? || ev == FocusChanged(true)) ==> SoundPause !in calls
    ensures hasSound && !ev.Paused? && ShouldBePlaying(After(p, ev)) ==> calls == [SoundResume]
  {
    match ev
    case Paused => if hasSound then [SoundPause] else []
    case Resumed(_) => if hasSound && p.hasFocus then [SoundResume] else []
    case FocusChanged(f) =>
      if !f then [SoundPause]
      else if p.resumed && hasSound then [SoundResume]
      else []
  }

  /** The presence after a run of lifecycle events. */
  function Run(p: Presence, evs: seq<LifecycleEvent>): Presence
    decreases |evs|
  {
    if evs == [] then p else After(Run(p, evs[..|evs| - 1]), evs[|evs| - 1])
  }

  /** The last pause or resume in `evs`, if any. */
  function LastActivityEvent(evs: seq<LifecycleEvent>): Option<LifecycleEvent>
    decreases |evs|
  {
    if evs == [] then None
    else if !evs[|evs| - 1].FocusChanged? then Some(evs[|evs| - 1])
    else LastActivityEvent(evs[..|evs| - 1])
  }

  /** The focus reported by the last focus change in `evs`, if any. */
  function LastFocus(evs: seq<LifecycleEvent>): Option<bool>
    decreases |evs|
  {
    if evs == [] then None
    else if evs[|evs| - 1].FocusChanged? then Some(evs[|evs| - 1].focus)
    else LastFocus(evs[..|evs| - 1])
  }

  /** Nothing but the last pause/resume and the last focus change decides the
      presence, so whether the game should be playing is always recomputed
      from those two alone; the activity reference is held only after a
      resume that no pause has followed. */
  lemma {:induction false} RunDecidedByLastEvents(p: Presence, evs: seq<LifecycleEvent>)
    ensures Run(p, evs).resumed ==
              match LastActivityEvent(evs)
              case None => p.resumed
              case Some(e) => e.Resumed?
    ensures Run(p, evs).activity ==
              match LastActivityEvent(evs)
              case None => p.activity
              case Some(e) => if e.Resumed? then Some(e.activity) else None
    ensures Run(p, evs).hasFocus ==
              match LastFocus(evs)
              case None => p.hasFocus
              case Some(f) => f
    decreases |evs|
  {
    if evs != [] {
      RunDecidedByLastEvents(p, evs[..|evs| - 1]);
    }
  }
}
