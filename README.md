# SceneManager, modelled in Dafny

A verified model of the frame orchestrator of the Santa Tracker simple game
engine, `SceneManager`. The Android host drives it from two sides. The UI
thread delivers touch batches, key events and lifecycle events (pause,
resume, focus). The GL thread delivers surface events and one `onDrawFrame`
per frame.

The manager holds:

- the current scene and one pending scene, which is switched in at the
  start of the next frame by a fixed protocol;
- a frame clock whose sentinel value means "no frame yet";
- two presence flags, resumed and focused, that decide when sound is
  paused or resumed;
- a touch pipeline. Each batch is turned into Move events, whose deltas
  come from the last known position of each pointer, followed by an Up or
  Down event. The events wait in a queue until the next frame, which
  drains the queue into a private batch, delivers it to the current scene
  in order and recycles the records. Point records are recycled through a
  LIFO bin.

The model is one class, `Engine.SceneManager`, with the Java fields as
fields. Every method has a `modifies` frame and is proved against pure
specification functions in small modules:

| module | contents |
|---|---|
| `FrameClock` | the clock step and its sum over many frames |
| `SceneSwitch` | the switch protocol and the per-frame advance |
| `ActivityPresence` | presence flags and sound pause/resume |
| `TouchInput` | Move synthesis, Up/Down events and pointer tracking, as values |
| `InputDispatch` | scene callbacks for queued motion events and key events |
| `Pools` | the point-record invariants: no record is held twice, and none is lost |
| `EngineScenarios` | whole-frame consequences that a client can rely on |

Calls on the renderer, the sound manager and the scenes are appended to a
ghost `trace`, so their order can be stated and checked.

Some of what the code does is not what a reader would expect of a touch
and lifecycle bridge. The model states what the code does:

- A Down batch first queues a Move for every pointer, like every other
  batch. The one-finger gesture "down at (10,10), move to (15,12), up"
  therefore queues five events, not three: Move, Down, Move (5,2), Move,
  Up. `TouchInput.OneFingerGesture` states this.
- The Up and Down events carry the action pointer's id but the coordinates
  of pointer index 0 (`getX()`/`getY()`). A second finger going down is
  therefore recorded at the first finger's position.
  `TouchInput.SecondFingerRecordedAtFirst` states the consequence.
- The map is described at its declaration (line 55) as the last x, y of
  each pointer. One might expect only pointers that are down to be in it.
  In fact the Move loop records every pointer named by any batch,
  including a Move batch, and only an Up removes an entry.
  `TouchInput.TouchTracked` states this.
- Losing focus pauses the sound manager without checking that it exists.
  `Engine.SceneManager.OnFocusChanged` therefore requires a sound manager
  when focus is lost.

## Model

All source cells refer to `santa-tracker/src/main/java/com/google/android/apps/santatracker/games/simpleengine/SceneManager.java`.

| member | source | states |
|---|---|---|
| FrameClock.Step | santa-tracker/src/main/java/com/google/android/apps/santatracker/games/simpleengine/SceneManager.java:143-148 | the clock moves to `now`; a first frame (negative sentinel) gets a zero delta; a later frame gets the time elapsed since the last one, `now` minus the last frame time, which is non-negative when time does not run backwards |
| FrameClock.DeltasTelescope | santa-tracker/src/main/java/com/google/android/apps/santatracker/games/simpleengine/SceneManager.java:143-148 | over any run of frames, the modelled clock's deltas, with one time reading per frame, add up to the time from the first reference point to the last frame: no time is lost or smoothed |
| SceneSwitch.InstallInPhaseOrder | santa-tracker/src/main/java/com/google/android/apps/santatracker/games/simpleengine/SceneManager.java:84-96 | the switch calls run strictly in the order uninstall, renderer reset, sound reset, install, start loading textures, each at most once |
| SceneSwitch.InstallCallsExactly | santa-tracker/src/main/java/com/google/android/apps/santatracker/games/simpleengine/SceneManager.java:84-96 | the old scene is uninstalled, and the renderer and sound reset, exactly when there was a current scene; the new scene is installed, and its textures loaded, exactly when there is one; nothing else is called |
| SceneSwitch.AdvanceOnce | santa-tracker/src/main/java/com/google/android/apps/santatracker/games/simpleengine/SceneManager.java:143-154 | with a current scene, a frame advances it exactly once by the measured delta, with a full frame exactly when prepareFrame and isReady both hold and a standby frame otherwise; without one, nothing is advanced |
| ActivityPresence.SoundCalls | santa-tracker/src/main/java/com/google/android/apps/santatracker/games/simpleengine/SceneManager.java:98-125 | at most one call per event, always a sound pause or resume, and only when a sound manager exists; resume only into a should-be-playing state and pause only into a state that should not be playing; losing either flag pauses at once and gaining the second resumes at once; every pause (with a sound manager) and every focus loss pauses, even when sound is already silent; a resume or focus gain never pauses, and with a sound manager resumes whenever it leaves the game playing |
| ActivityPresence.RunDecidedByLastEvents | santa-tracker/src/main/java/com/google/android/apps/santatracker/games/simpleengine/SceneManager.java:98-129 | after any sequence of lifecycle events, `resumed` and the held activity depend only on the last pause or resume, and `hasFocus` only on the last focus change |
| InputDispatch.Callback | santa-tracker/src/main/java/com/google/android/apps/santatracker/games/simpleengine/SceneManager.java:333-349 | a Down, Move or Up event becomes exactly the pointer-down, pointer-move or pointer-up callback on the scene, with the pointer id and the converted position; only a move carries the converted deltas |
| InputDispatch.DispatchAllDelivers | santa-tracker/src/main/java/com/google/android/apps/santatracker/games/simpleengine/SceneManager.java:315-317 | without a current scene every event is dropped; with one, every event is delivered exactly once, in queue order, as its callback |
| InputDispatch.DispatchAllSnoc | santa-tracker/src/main/java/com/google/android/apps/santatracker/games/simpleengine/SceneManager.java:315-317 | delivering one more event appends exactly that event's calls |
| InputDispatch.KeyCalls | santa-tracker/src/main/java/com/google/android/apps/santatracker/games/simpleengine/SceneManager.java:352-367 | at most one call, made exactly when there is a scene and the key action is down or up; key-down carries the key code and repeat count, key-up the key code |
| TouchInput.MoveFor | santa-tracker/src/main/java/com/google/android/apps/santatracker/games/simpleengine/SceneManager.java:198-207 | a sample's Move carries its id and position, with a zero delta for an untracked pointer and the displacement from the tracked position otherwise |
| TouchInput.TrackAfterKeys | santa-tracker/src/main/java/com/google/android/apps/santatracker/games/simpleengine/SceneManager.java:197-211 | after the Move pass, exactly the pointers tracked before plus those of the batch are tracked |
| TouchInput.MoveEvents | santa-tracker/src/main/java/com/google/android/apps/santatracker/games/simpleengine/SceneManager.java:197-211 | one Move per sample, in scan order, each with its sample's id and position |
| TouchInput.MovePassStep | santa-tracker/src/main/java/com/google/android/apps/santatracker/games/simpleengine/SceneManager.java:197-211 | each iteration of the Move loop appends one Move, measured against the positions tracked so far, and then records the sample's position |
| TouchInput.MoveEventsAt | santa-tracker/src/main/java/com/google/android/apps/santatracker/games/simpleengine/SceneManager.java:197-211 | the i-th Move is measured against the positions tracked after the samples before it |
| TouchInput.TrackAfterLookup | santa-tracker/src/main/java/com/google/android/apps/santatracker/games/simpleengine/SceneManager.java:246-254 | after the Move pass, a pointer is tracked at its last sample in the batch, or where it was before when the batch lacks it |
| TouchInput.MoveDelta | santa-tracker/src/main/java/com/google/android/apps/santatracker/games/simpleengine/SceneManager.java:197-211 | each Move's delta is the displacement since the pointer's previous sample in the batch, or since its tracked position, or zero for a pointer seen for the first time |
| TouchInput.ActionEvents | santa-tracker/src/main/java/com/google/android/apps/santatracker/games/simpleengine/SceneManager.java:213-231 | UP/POINTER_UP queue exactly one Up and DOWN/POINTER_DOWN exactly one Down, with the action pointer's id, the coordinates of pointer index 0 and a zero delta; other actions queue nothing more |
| TouchInput.TouchTracked | santa-tracker/src/main/java/com/google/android/apps/santatracker/games/simpleengine/SceneManager.java:197-231 | an Up forgets the action pointer; a Down records it at pointer 0's position; other actions only track the samples; every other pointer the batch names ends at its last sample, and pointers the batch does not name keep their positions |
| TouchInput.FreshGestureAfterUp | santa-tracker/src/main/java/com/google/android/apps/santatracker/games/simpleengine/SceneManager.java:217-223 | after an Up for pointer P, the next batch's first Move for P has a zero delta: a fresh gesture, not stale state |
| TouchInput.OneFingerGesture | santa-tracker/src/main/java/com/google/android/apps/santatracker/games/simpleengine/SceneManager.java:189-234 | down at (10,10), move to (15,12) and up there queue Move, Down, Move(5,2), Move, Up, and leave nothing tracked |
| TouchInput.SecondFingerRecordedAtFirst | santa-tracker/src/main/java/com/google/android/apps/santatracker/games/simpleengine/SceneManager.java:224-229 | a second finger going down is tracked at the first finger's position, so its next Move, even without moving, carries the distance between the fingers |
| Pools.TakeFromBin | santa-tracker/src/main/java/com/google/android/apps/santatracker/games/simpleengine/SceneManager.java:264-268 | the last record of the bin is held by no pointer and occurs nowhere else in the bin, and removing it keeps the no-aliasing invariant |
| Pools.TakeNewPoint | santa-tracker/src/main/java/com/google/android/apps/santatracker/games/simpleengine/SceneManager.java:270 | a new record is held by nobody, and adding it keeps the invariant |
| Pools.Hold | santa-tracker/src/main/java/com/google/android/apps/santatracker/games/simpleengine/SceneManager.java:246-254 | a pointer may take a record that no other pointer holds and the bin lacks, and the invariant still holds |
| Pools.Release | santa-tracker/src/main/java/com/google/android/apps/santatracker/games/simpleengine/SceneManager.java:256-262 | dropping a pointer and putting its record into the bin keeps the invariant |
| Pools.HoldComplete | santa-tracker/src/main/java/com/google/android/apps/santatracker/games/simpleengine/SceneManager.java:246-254 | when a pointer keeps its own record, takes the bin's last one or a new one, every record is still held by a pointer or in the bin |
| Pools.ReleaseComplete | santa-tracker/src/main/java/com/google/android/apps/santatracker/games/simpleengine/SceneManager.java:256-262 | the record a forgotten pointer lets go of goes to the bin, so every record is still held by a pointer or in the bin |
| Pools.ViewWrite | santa-tracker/src/main/java/com/google/android/apps/santatracker/games/simpleengine/SceneManager.java:246-254 | writing a pointer's own record changes that pointer's position and no other |
| Pools.ViewUnaffected | santa-tracker/src/main/java/com/google/android/apps/santatracker/games/simpleengine/SceneManager.java:264-268 | zeroing a record taken from the bin changes no pointer's position |
| Pools.ViewGrow | santa-tracker/src/main/java/com/google/android/apps/santatracker/games/simpleengine/SceneManager.java:270 | creating a record changes no pointer's position |
| Pools.ViewRemove | santa-tracker/src/main/java/com/google/android/apps/santatracker/games/simpleengine/SceneManager.java:256-262 | forgetting a pointer removes its position and no other |
| Engine.SceneManager.constructor | santa-tracker/src/main/java/com/google/android/apps/santatracker/games/simpleengine/SceneManager.java:31-59 | the initial state: no scenes, clock unset, no surface or sound manager, not resumed or focused, empty queues, map and bin, and the invariant holds |
| Engine.SceneManager.OnGLSurfaceCreated | santa-tracker/src/main/java/com/google/android/apps/santatracker/games/simpleengine/SceneManager.java:68-75 | a surface exists and a sound manager exists afterwards; the renderer is told once |
| Engine.SceneManager.OnGLSurfaceChanged | santa-tracker/src/main/java/com/google/android/apps/santatracker/games/simpleengine/SceneManager.java:77-82 | the renderer and then the current scene, if any, learn the new size |
| Engine.SceneManager.InstallNewScene | santa-tracker/src/main/java/com/google/android/apps/santatracker/games/simpleengine/SceneManager.java:84-96 | the pending scene becomes current, the pending slot is empty, and the trace grows by exactly the switch protocol |
| Engine.SceneManager.OnPause | santa-tracker/src/main/java/com/google/android/apps/santatracker/games/simpleengine/SceneManager.java:98-104 | not resumed, activity dropped, focus kept, and sound paused when a sound manager exists |
| Engine.SceneManager.OnResume | santa-tracker/src/main/java/com/google/android/apps/santatracker/games/simpleengine/SceneManager.java:106-112 | resumed and holding the activity; sound resumed only when focused and a sound manager exists |
| Engine.SceneManager.OnFocusChanged | santa-tracker/src/main/java/com/google/android/apps/santatracker/games/simpleengine/SceneManager.java:118-125 | focus recorded; losing focus pauses sound, and gaining it resumes sound only while resumed with a sound manager |
| Engine.SceneManager.ShouldBePlaying | santa-tracker/src/main/java/com/google/android/apps/santatracker/games/simpleengine/SceneManager.java:127-129 | true exactly when resumed and focused, and then an activity is held |
| Engine.SceneManager.RequestNewScene | santa-tracker/src/main/java/com/google/android/apps/santatracker/games/simpleengine/SceneManager.java:167-169 | the pending slot holds the latest request, whatever was pending before |
| Engine.SceneManager.OnDrawFrame | santa-tracker/src/main/java/com/google/android/apps/santatracker/games/simpleengine/SceneManager.java:135-161 | without a surface nothing changes; otherwise any pending scene is installed first, the clock steps only while a scene is current, the scene advances, the renderer draws, and every queued event goes to the new current scene in order and is recycled; the pending slot ends empty, given that scene callbacks do not call back into the manager |
| Engine.SceneManager.AdvanceCurrentScene | santa-tracker/src/main/java/com/google/android/apps/santatracker/games/simpleengine/SceneManager.java:143-154 | the clock takes one step and the current scene advances by exactly that step's delta |
| Engine.SceneManager.OnKeyDown | santa-tracker/src/main/java/com/google/android/apps/santatracker/games/simpleengine/SceneManager.java:171-178 | the back key is reported unhandled and reaches no scene; every other key is handled and dispatched |
| Engine.SceneManager.OnKeyUp | santa-tracker/src/main/java/com/google/android/apps/santatracker/games/simpleengine/SceneManager.java:180-187 | the back key is reported unhandled and reaches no scene; every other key is handled and dispatched |
| Engine.SceneManager.ProcessKeyEvent | santa-tracker/src/main/java/com/google/android/apps/santatracker/games/simpleengine/SceneManager.java:352-367 | the trace grows by exactly the key's callback on the current scene, if any |
| Engine.SceneManager.OnTouchEvent | santa-tracker/src/main/java/com/google/android/apps/santatracker/games/simpleengine/SceneManager.java:189-234 | the queue grows by exactly the batch's Moves and its Up or Down, and the tracked positions become those `TouchTracked` gives; each queued event takes one record off the end of the recycle list, which runs empty after its last; the pool invariants hold, so no point record is lost |
| Engine.SceneManager.MovePass | santa-tracker/src/main/java/com/google/android/apps/santatracker/games/simpleengine/SceneManager.java:197-211 | one Move per pointer, in scan order, measured as `MoveEvents` gives; the tracked positions become `TrackAfter`'s; one recycled record used per Move; no point record is lost |
| Engine.SceneManager.MoveOne | santa-tracker/src/main/java/com/google/android/apps/santatracker/games/simpleengine/SceneManager.java:198-210 | the queue grows by the sample's Move measured from its tracked position, the sample's position is then recorded, and the recycle list loses its last record, if any; no point record is lost |
| Engine.SceneManager.QueueActionEvent | santa-tracker/src/main/java/com/google/android/apps/santatracker/games/simpleengine/SceneManager.java:213-231 | an Up forgets the action pointer and a Down records it at pointer 0's position, as `ActionTracked` gives; exactly the events of `ActionEvents` are queued, each taking one recycled record; no point record is lost |
| Engine.SceneManager.GetLastTouchX | santa-tracker/src/main/java/com/google/android/apps/santatracker/games/simpleengine/SceneManager.java:236-239 | the tracked x of the pointer, or the default when it is not tracked |
| Engine.SceneManager.GetLastTouchY | santa-tracker/src/main/java/com/google/android/apps/santatracker/games/simpleengine/SceneManager.java:241-244 | the tracked y of the pointer, or the default when it is not tracked |
| Engine.SceneManager.SetLastTouchCoords | santa-tracker/src/main/java/com/google/android/apps/santatracker/games/simpleengine/SceneManager.java:246-254 | the pointer is tracked at the new position and every other pointer is unchanged; a tracked pointer reuses its own record, an untracked one takes the bin's last record or, with the bin empty, a new one and the bin stays empty; no record is held twice and every record is still held by a pointer or in the bin |
| Engine.SceneManager.ForgetLastTouchCoords | santa-tracker/src/main/java/com/google/android/apps/santatracker/games/simpleengine/SceneManager.java:256-262 | the pointer is no longer tracked and every other pointer is unchanged; its record goes to the end of the bin; an untracked pointer changes nothing; no record is lost |
| Engine.SceneManager.AllocPointF | santa-tracker/src/main/java/com/google/android/apps/santatracker/games/simpleengine/SceneManager.java:264-271 | pops the bin's last record, or makes a new one, zeroes it, and returns a record that no pointer holds and the bin lacks; no tracked position changes |
| Engine.SceneManager.RecyclePointF | santa-tracker/src/main/java/com/google/android/apps/santatracker/games/simpleengine/SceneManager.java:273-275 | appends a record that nobody holds to the bin, keeping the no-aliasing invariant |
| Engine.SceneManager.QueueMotionEvent | santa-tracker/src/main/java/com/google/android/apps/santatracker/games/simpleengine/SceneManager.java:277-290 | exactly one event, with the given fields, is appended to the queue, the flag is raised, and the record comes off the end of the recycle list when there is one |
| Engine.SceneManager.ProcessMotionEvents | santa-tracker/src/main/java/com/google/android/apps/santatracker/games/simpleengine/SceneManager.java:302-326 | every queued event is delivered once, in queue order, to the current scene; afterwards the queue and the batch are empty, the flag is down, and the drained events are appended to the recycle list in order |
| Engine.SceneManager.TakeQueuedBatch | santa-tracker/src/main/java/com/google/android/apps/santatracker/games/simpleengine/SceneManager.java:306-312 | the batch receives the whole queue in order; the queue is cleared and the flag lowered |
| Engine.SceneManager.DispatchBatch | santa-tracker/src/main/java/com/google/android/apps/santatracker/games/simpleengine/SceneManager.java:315-317 | the trace grows by the batch's callbacks, in batch order |
| Engine.SceneManager.RecycleBatch | santa-tracker/src/main/java/com/google/android/apps/santatracker/games/simpleengine/SceneManager.java:320-325 | the batch is appended to the recycle list in order, then emptied |
| Engine.SceneManager.ProcessMotionEvent | santa-tracker/src/main/java/com/google/android/apps/santatracker/games/simpleengine/SceneManager.java:328-350 | the trace grows by the event's callback on the current scene, or by nothing without one |
| EngineScenarios.FrameTailTargetsCurrent | santa-tracker/src/main/java/com/google/android/apps/santatracker/games/simpleengine/SceneManager.java:143-160 | after the switch, a frame calls into no scene except the current one |
| EngineScenarios.SwitchFrameSparesOthers | santa-tracker/src/main/java/com/google/android/apps/santatracker/games/simpleengine/SceneManager.java:84-96 | a frame that installs `b` installs it and calls nothing on any other scene that was not current |
| EngineScenarios.LastRequestWins | santa-tracker/src/main/java/com/google/android/apps/santatracker/games/simpleengine/SceneManager.java:167-169 | two requests before a frame: the later scene is installed and current, and nothing is called on the earlier one |
| EngineScenarios.SwitchScenes | santa-tracker/src/main/java/com/google/android/apps/santatracker/games/simpleengine/SceneManager.java:135-161 | switching from `a` to `b` runs the five-step switch protocol, and nothing is called on `a` for the rest of that frame or in the next one |

## Left out

- Concurrency. The UI thread and the GL thread share the queue under
  `synchronized`, and `mCheckMotionEvents` is `volatile`. The model is one
  thread, and each locked region is one atomic step.
- The Renderer and SoundManager internals. Their calls are entries in the
  ghost trace. `prepareFrame()` and `isReady()` are inputs to
  `OnDrawFrame`. The four screen-coordinate conversions are given
  functions (`Conversion`).
- Floating point. Coordinates and deltas are integers, and the frame delta
  is in integer milliseconds: the `* 0.001f` scaling to seconds is not
  modelled.
- `System.currentTimeMillis()`. The source reads it up to three times per
  frame (lines 145, 147 and 148); the model reads one `now` parameter. So
  the source loses the interval between the second and third reads of
  every frame, and the first frame's delta is the interval between its
  first two reads, which need not be zero. The model's zero first delta
  and `FrameClock.DeltasTelescope` hold only for the single reading.
- The Android types. `MotionEvent` is a `TouchBatch`: the masked action,
  the action index and the pointer samples. `KeyEvent` is its action and
  repeat count. The `WeakReference<Activity>` is an optional activity id.
  `Context` and `mAppContext` are not modelled.
- Motion-event record identity. `OurMotionEvent` records are values in the
  queue, the batch and the recycle list. Reuse of a record taken from the
  recycle list is modelled, since the list shrinks by its last element.
  The aliasing of one Java object across those lists is not expressed.
  Point records do keep their identity: they are handles into an arena.
- Engine.SceneManager.OnFocusChanged: requires that a sound manager exists
  when focus is lost. The source dereferences it without a check, so
  without one it would throw; that failure is not modelled.
- Engine.SceneManager.MovePass, MoveOne and QueueActionEvent are the
  loop, its body and the switch of `onTouchEvent`, split out as methods.
- Engine.SceneManager.AdvanceCurrentScene and the three
  `ProcessMotionEvents` blocks (`TakeQueuedBatch`, `DispatchBatch`,
  `RecycleBatch`) are separate methods. In the source they are inline
  blocks of `onDrawFrame` and `processMotionEvents`.
- `Logger`, `enableDebugLog`, `getInstance`, `getActivity`,
  `getCurrentScene`, `getRenderer` and `getSoundManager`: logging, the
  singleton accessor and getters, with no behaviour to prove.
- Side effects inside the renderer's `prepareFrame()` and `doFrame()`, and
  exceptions thrown by collaborators. These are outside this class.
- Engine.SceneManager.OnDrawFrame: scene callbacks (`doFrame`,
  `doStandbyFrame`, `onPointerDown/Move/Up`, `onKeyDown/Up`) are trace
  entries that have no effect on the manager. A scene that calls back into
  it during a frame is not modelled. For example, a scene that calls
  `requestNewScene` from `doFrame` or a pointer callback (lines 150, 152,
  341-347) leaves `mNewScene` set after the frame. The ensures
  `newScene == None` relies on this.
