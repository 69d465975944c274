/** SceneManager: the object the host drives. It owns the current and the
    pending scene, the frame clock, the activity-presence flags, and the touch
    pipeline: a queue of motion-event records filled by onTouchEvent and
    drained once per frame, a recycle list of spent records, the last
    position of each pointer and a recycle bin of point records.

    Motion-event records (OurMotionEvent) are values in the queue, the
    batch being dispatched and the recycle list. Point records (PointF) live
    in an arena, `points`; a reference to one is its handle, an index into
    the arena, and the pointer map and the bin hold handles, so "a record is
    never held twice" reads as "a handle occurs at most once". Calls on the
    renderer, the sound manager and the scenes are appended to the ghost
    `trace`. */
module Engine {
  import opened EngineTypes
  import FrameClock
  import SceneSwitch
  import ActivityPresence
  import TouchInput
  import InputDispatch
  import Pools

  /** The recycle list `r` after `k` records have been taken off its end,
      one per queued event, a new record being made once it is empty. */
  function Popped(r: seq<MotionEvent>, k: nat): seq<MotionEvent>
  {
    if k <= |r| then r[..|r| - k] else []
  }

  /** Taking one more record pops the end of what is left. */
  lemma PoppedStep(r: seq<MotionEvent>, k: nat)
    ensures Popped(r, k + 1) == if Popped(r, k) == [] then [] else Popped(r, k)[..|Popped(r, k)| - 1]
  {
  }

  /** Taking `k` records and then `j` more takes `k + j`. */
  lemma PoppedAdd(r: seq<MotionEvent>, k: nat, j: nat)
    ensures Popped(Popped(r, k), j) == Popped(r, k + j)
  {
    if k + j <= |r| {
      assert r[..|r| - k][..|r| - k - j] == r[..|r| - k - j];
    }
  }

  class SceneManager {
    /** The renderer's screen-to-game coordinate conversions. */
    const conv: Conversion

    var hasSound: bool                       // mSoundManager != null
    var curScene: Option<Scene>
    var newScene: Option<Scene>
    var lastFrameTime: int
    var hasGL: bool
    var activity: Option<Activity>           // the activity while resumed
    var activityResumed: bool
    var activityHasFocus: bool

    var motionEventQueue: seq<MotionEvent>
    var motionEventRecycle: seq<MotionEvent>
    var tmpMotionEvent: seq<MotionEvent>
    var checkMotionEvents: bool

    var points: seq<Point>                   // every PointF record, by handle
    var lastTouchCoords: map<int, nat>
    var pointRecycleBin: seq<nat>

    ghost var trace: seq<Call>

    /** A point record is held by at most one pointer, at most once by the
        bin, and never by both. */
    ghost predicate PointPoolOk()
      reads this`points, this`lastTouchCoords, this`pointRecycleBin
    {
      Pools.Holders(lastTouchCoords, pointRecycleBin, |points|)
    }

    /** The invariant between calls. */
    ghost predicate Valid()
      reads this`tmpMotionEvent, this`motionEventQueue, this`checkMotionEvents
      reads this`points, this`lastTouchCoords, this`pointRecycleBin
      reads this`hasGL, this`hasSound, this`activityResumed, this`activity
    {
      && PointPoolOk()
      // every point record is held by a pointer or waits in the bin: none is lost
      && Pools.Complete(lastTouchCoords, pointRecycleBin, |points|)
      && tmpMotionEvent == []
      // the flag is raised exactly while events wait, so none is left behind
      && (checkMotionEvents <==> motionEventQueue != [])
      // a GL surface brings a sound manager with it
      && (hasGL ==> hasSound)
      && (activityResumed <==> activity.Some?)
    }

    /** The last known position of each tracked pointer. */
    ghost function Tracked(): map<int, Point>
      reads this`points, this`lastTouchCoords, this`pointRecycleBin
      requires PointPoolOk()
    {
      Pools.View(points, lastTouchCoords)
    }

    ghost function Presence(): ActivityPresence.Presence
      reads this`activityResumed, this`activityHasFocus, this`activity
    {
      ActivityPresence.Presence(activityResumed, activityHasFocus, activity)
    }

    constructor (conv: Conversion)
      ensures Valid() && this.conv == conv
      ensures curScene == None && newScene == None && lastFrameTime == FrameClock.UNSET
      ensures !hasGL && !hasSound
      ensures activity == None && !activityResumed && !activityHasFocus
      ensures motionEventQueue == [] && motionEventRecycle == [] && !checkMotionEvents
      ensures points == [] && Tracked() == map[] && pointRecycleBin == []
      ensures trace == []
    {
      this.conv := conv;
      hasSound, curScene, newScene := false, None, None;
      lastFrameTime, hasGL := FrameClock.UNSET, false;
      activity, activityResumed, activityHasFocus := None, false, false;
      motionEventQueue, motionEventRecycle, tmpMotionEvent := [], [], [];
      checkMotionEvents := false;
      points, lastTouchCoords, pointRecycleBin := [], map[], [];
      trace := [];
    }

    /** A GL surface exists from now on; the sound manager is created once. */
    method OnGLSurfaceCreated()
      requires Valid()
      modifies this`hasGL, this`hasSound, this`trace
      ensures Valid() && hasGL && hasSound
      ensures trace == old(trace) + [RendererSurfaceCreated]
    {
      hasGL := true;
      trace := trace + [RendererSurfaceCreated];
      if !hasSound {
        hasSound := true;
      }
    }

    /** The renderer, then the current scene if any, learn the new size. */
    method OnGLSurfaceChanged(width: int, height: int)
      modifies this`trace
      ensures trace == old(trace) + [RendererSurfaceChanged(width, height)] +
                       (if curScene.Some? then [SceneScreenResized(curScene.value, width, height)] else [])
    {
      trace := trace + [RendererSurfaceChanged(width, height)];
      if curScene.Some? {
        trace := trace + [SceneScreenResized(curScene.value, width, height)];
      }
    }

    /** Replaces the current scene by the pending one, running the switch
        protocol. Resetting sound needs a sound manager. */
    method InstallNewScene()
      requires Valid()
      requires curScene.Some? ==> hasSound
      modifies this`curScene, this`newScene, this`trace
      ensures Valid()
      ensures curScene == old(newScene) && newScene == None
      ensures trace == old(trace) + SceneSwitch.InstallCalls(old(curScene), old(newScene))
    {
      if curScene.Some? {
        trace := trace + [SceneUninstall(curScene.value), RendererReset, SoundReset];
      }
      curScene := newScene;
      newScene := None;
      if curScene.Some? {
        trace := trace + [SceneInstall(curScene.value), RendererStartLoadingTexs];
      }
    }

    method OnPause()
      requires Valid()
      modifies this`activityResumed, this`activity, this`trace
      ensures Valid()
      ensures Presence() == ActivityPresence.After(old(Presence()), ActivityPresence.Paused)
      ensures trace == old(trace) + ActivityPresence.SoundCalls(old(Presence()), hasSound, ActivityPresence.Paused)
    {
      activityResumed := false;
      if hasSound {
        trace := trace + [SoundPause];
      }
      activity := None;
    }

    method OnResume(a: Activity)
      requires Valid()
      modifies this`activityResumed, this`activity, this`trace
      ensures Valid()
      ensures Presence() == ActivityPresence.After(old(Presence()), ActivityPresence.Resumed(a))
      ensures trace == old(trace) + ActivityPresence.SoundCalls(old(Presence()), hasSound, ActivityPresence.Resumed(a))
    {
      activityResumed := true;
      activity := Some(a);
      if hasSound && activityHasFocus {
        trace := trace + [SoundResume];
      }
    }

    /** Losing focus pauses the sound manager without checking that one
        exists, so the caller must not lose focus before a surface exists. */
    method OnFocusChanged(focus: bool)
      requires Valid()
      requires ActivityPresence.Permitted(hasSound, ActivityPresence.FocusChanged(focus))
      modifies this`activityHasFocus, this`trace
      ensures Valid()
      ensures Presence() == ActivityPresence.After(old(Presence()), ActivityPresence.FocusChanged(focus))
      ensures trace == old(trace) + ActivityPresence.SoundCalls(old(Presence()), hasSound, ActivityPresence.FocusChanged(focus))
    {
      activityHasFocus := focus;
      if !focus {
        trace := trace + [SoundPause];
      } else if activityResumed && hasSound {
        trace := trace + [SoundResume];
      }
    }

    /** The game should play only while resumed and focused, and so only
        while an activity is held. */
    predicate ShouldBePlaying()
      reads this
      requires Valid()
      ensures ShouldBePlaying() <==> ActivityPresence.ShouldBePlaying(Presence())
      ensures ShouldBePlaying() ==> activity.Some?
    {
      activityResumed && activityHasFocus
    }

    /** Last request wins: the pending slot holds only the latest scene. */
    method RequestNewScene(s: Option<Scene>)
      modifies this`newScene
      ensures newScene == s
    {
      newScene := s;
    }

    /** One frame: without a GL surface nothing at all happens. Otherwise a
        pending scene is installed first; a current scene is advanced by the
        clock's delta (a full frame only if the renderer prepared one and the
        sound manager is ready), the clock moving only while there is a
        scene; the renderer draws; then the queued input, if any, goes to the
        (new) current scene in order and its records are recycled. */
    method OnDrawFrame(now: int, prepared: bool, soundReady: bool)
      requires Valid()
      modifies this`curScene, this`newScene, this`lastFrameTime, this`trace
      modifies this`motionEventQueue, this`tmpMotionEvent, this`motionEventRecycle, this`checkMotionEvents
      ensures Valid()
      ensures !old(hasGL) ==> unchanged(this`curScene, this`newScene, this`lastFrameTime, this`trace, this`motionEventQueue, this`tmpMotionEvent, this`motionEventRecycle, this`checkMotionEvents)
      ensures old(hasGL) ==>
                var installed := if old(newScene).Some? then old(newScene) else old(curScene);
                var tick := FrameClock.Step(old(lastFrameTime), now);
                && curScene == installed && newScene == None
                && lastFrameTime == (if installed.Some? then tick.lastFrameTime else old(lastFrameTime))
                && trace == old(trace)
                     + (if old(newScene).Some? then SceneSwitch.InstallCalls(old(curScene), old(newScene)) else [])
                     + SceneSwitch.AdvanceCalls(installed, tick.deltaT, prepared, soundReady)
                     + [RendererDoFrame]
                     + InputDispatch.DispatchAll(installed, old(motionEventQueue), conv)
                && motionEventQueue == []
                && motionEventRecycle == old(motionEventRecycle) + old(motionEventQueue)
    {
      if !hasGL {
        return;
      }
      ghost var t0, q0 := trace, motionEventQueue;
      ghost var install: seq<Call> := [];
      if newScene.Some? {
        install := SceneSwitch.InstallCalls(curScene, newScene);
        InstallNewScene();
      } else {
        assert trace == t0 + install;
      }
      ghost var t1 := trace;
      ghost var tick := FrameClock.Step(lastFrameTime, now);
      ghost var advance := SceneSwitch.AdvanceCalls(curScene, tick.deltaT, prepared, soundReady);
      if curScene.Some? {
        AdvanceCurrentScene(now, prepared, soundReady);
      } else {
        assert trace == t1 + advance;
      }
      ghost var t2 := trace;
      trace := trace + [RendererDoFrame];
      if checkMotionEvents {
        ProcessMotionEvents();
      } else {
        assert q0 == [] && trace == t2 + [RendererDoFrame] + InputDispatch.DispatchAll(curScene, q0, conv);
      }
    }

    /** The middle of a frame, with a current scene: the clock steps (a
        first frame measures from `now` itself) and the scene advances by the
        delta, by a full frame only if the renderer prepared one and the sound
        manager is ready. */
    method AdvanceCurrentScene(now: int, prepared: bool, soundReady: bool)
      requires curScene.Some?
      modifies this`lastFrameTime, this`trace
      ensures var tick := FrameClock.Step(old(lastFrameTime), now);
              && lastFrameTime == tick.lastFrameTime
              && trace == old(trace) + SceneSwitch.AdvanceCalls(curScene, tick.deltaT, prepared, soundReady)
    {
      if lastFrameTime < 0 {
        lastFrameTime := now;
      }
      var deltaT := now - lastFrameTime;
      lastFrameTime := now;
      if prepared && soundReady {
        trace := trace + [SceneDoFrame(curScene.value, deltaT)];
      } else {
        trace := trace + [SceneStandbyFrame(curScene.value, deltaT)];
      }
    }

    /** The back key is left to the host; any other key goes to the scene. */
    method OnKeyDown(keyCode: int, keyAction: int, repeatCount: int) returns (handled: bool)
      modifies this`trace
      ensures handled == InputDispatch.KeyHandled(keyCode)
      ensures trace == old(trace) +
                       (if handled then InputDispatch.KeyCalls(curScene, keyCode, keyAction, repeatCount) else [])
    {
      if keyCode == KEYCODE_BACK {
        return false;
      }
      ProcessKeyEvent(keyCode, keyAction, repeatCount);
      return true;
    }

    method OnKeyUp(keyCode: int, keyAction: int, repeatCount: int) returns (handled: bool)
      modifies this`trace
      ensures handled == InputDispatch.KeyHandled(keyCode)
      ensures trace == old(trace) +
                       (if handled then InputDispatch.KeyCalls(curScene, keyCode, keyAction, repeatCount) else [])
    {
      if keyCode == KEYCODE_BACK {
        return false;
      }
      ProcessKeyEvent(keyCode, keyAction, repeatCount);
      return true;
    }

    method ProcessKeyEvent(keyCode: int, keyAction: int, repeatCount: int)
      modifies this`trace
      ensures trace == old(trace) + InputDispatch.KeyCalls(curScene, keyCode, keyAction, repeatCount)
    {
      if curScene.None? {
        return;
      }
      if keyAction == KEY_ACTION_DOWN {
        trace := trace + [SceneKeyDown(curScene.value, keyCode, repeatCount)];
      } else if keyAction == KEY_ACTION_UP {
        trace := trace + [SceneKeyUp(curScene.value, keyCode)];
      }
    }

    /** The producer side: one Move per pointer, in scan order, measured from
        the pointer's last position, then the Up or Down event; the tracked
        positions follow. */
    method OnTouchEvent(b: TouchInput.TouchBatch) returns (consumed: bool)
      requires Valid() && TouchInput.WellFormed(b)
      modifies this`motionEventQueue, this`motionEventRecycle, this`checkMotionEvents
      modifies this`points, this`lastTouchCoords, this`pointRecycleBin
      ensures Valid() && consumed
      ensures motionEventQueue == old(motionEventQueue) + TouchInput.TouchEvents(old(Tracked()), b)
      ensures Tracked() == TouchInput.TouchTracked(old(Tracked()), b)
      // each queued event takes its record off the end of the recycle list
      ensures motionEventRecycle == Popped(old(motionEventRecycle), |TouchInput.TouchEvents(old(Tracked()), b)|)
    {
      ghost var t0, q0, r0 := Tracked(), motionEventQueue, motionEventRecycle;
      MovePass(b.pointers);
      QueueActionEvent(b);
      ConcatAssoc(q0, TouchInput.MoveEvents(t0, b.pointers), TouchInput.ActionEvents(b));
      PoppedAdd(r0, |b.pointers|, |TouchInput.ActionEvents(b)|);
      return true;
    }

    /** The loop of onTouchEvent: for each pointer in scan order, one Move
        measured from its last position, which then becomes the sample's. */
    method MovePass(ps: seq<TouchInput.PointerSample>)
      requires Valid()
      modifies this`motionEventQueue, this`motionEventRecycle, this`checkMotionEvents
      modifies this`points, this`lastTouchCoords, this`pointRecycleBin
      ensures Valid()
      ensures motionEventQueue == old(motionEventQueue) + TouchInput.MoveEvents(old(Tracked()), ps)
      ensures Tracked() == TouchInput.TrackAfter(old(Tracked()), ps)
      ensures motionEventRecycle == Popped(old(motionEventRecycle), |ps|)
    {
      ghost var t0 := Tracked();
      ghost var q0, r0 := motionEventQueue, motionEventRecycle;
      var i := 0;
      while i < |ps|
        invariant 0 <= i <= |ps|
        invariant Valid()
        invariant motionEventQueue == q0 + TouchInput.MoveEvents(t0, ps[..i])
        invariant Tracked() == TouchInput.TrackAfter(t0, ps[..i])
        invariant motionEventRecycle == Popped(r0, i)
      {
        PoppedStep(r0, i);
        TouchInput.MovePassStep(t0, ps, i);
        ConcatAssoc(q0, TouchInput.MoveEvents(t0, ps[..i]), [TouchInput.MoveFor(Tracked(), ps[i])]);
        MoveOne(ps[i]);
        i := i + 1;
      }
      assert ps[..i] == ps;
    }

    /** One turn of that loop: the Move for sample `p`, then its position
        recorded. */
    method MoveOne(p: TouchInput.PointerSample)
      requires Valid()
      modifies this`motionEventQueue, this`motionEventRecycle, this`checkMotionEvents
      modifies this`points, this`lastTouchCoords, this`pointRecycleBin
      ensures Valid()
      ensures motionEventQueue == old(motionEventQueue) + [TouchInput.MoveFor(old(Tracked()), p)]
      ensures Tracked() == old(Tracked())[p.id := Point(p.x, p.y)]
      ensures motionEventRecycle == if old(motionEventRecycle) == [] then []
                                    else old(motionEventRecycle)[..|old(motionEventRecycle)| - 1]
    {
      var deltaX := p.x - GetLastTouchX(p.id, p.x);
      var deltaY := p.y - GetLastTouchY(p.id, p.y);
      assert MotionEvent(Move, p.id, p.x, p.y, deltaX, deltaY) == TouchInput.MoveFor(Tracked(), p);
      QueueMotionEvent(Move, p.id, p.x, p.y, deltaX, deltaY);
      SetLastTouchCoords(p.id, p.x, p.y);
    }

    /** The switch of onTouchEvent: an Up forgets the action pointer, a Down
        records it, each at the coordinates of pointer index 0, and the Up or
        Down event is queued. */
    method QueueActionEvent(b: TouchInput.TouchBatch)
      requires Valid() && TouchInput.WellFormed(b)
      modifies this`motionEventQueue, this`motionEventRecycle, this`checkMotionEvents
      modifies this`points, this`lastTouchCoords, this`pointRecycleBin
      ensures Valid()
      ensures motionEventQueue == old(motionEventQueue) + TouchInput.ActionEvents(b)
      ensures Tracked() == TouchInput.ActionTracked(old(Tracked()), b)
      ensures motionEventRecycle == Popped(old(motionEventRecycle), |TouchInput.ActionEvents(b)|)
    {
      var ps := b.pointers;
      var id := ps[b.actionIndex].id;
      PoppedStep(motionEventRecycle, 0);
      if TouchInput.IsUp(b.actionMasked) {
        ForgetLastTouchCoords(id);
        QueueMotionEvent(Up, id, ps[0].x, ps[0].y, 0, 0);
      } else if TouchInput.IsDown(b.actionMasked) {
        SetLastTouchCoords(id, ps[0].x, ps[0].y);
        QueueMotionEvent(Down, id, ps[0].x, ps[0].y, 0, 0);
      }
    }

    function GetLastTouchX(pointerId: int, defaultX: int): (x: int)
      reads this
      requires PointPoolOk()
      ensures pointerId in Tracked() ==> x == Tracked()[pointerId].x
      ensures pointerId !in Tracked() ==> x == defaultX
    {
      if pointerId in lastTouchCoords then points[lastTouchCoords[pointerId]].x else defaultX
    }

    function GetLastTouchY(pointerId: int, defaultY: int): (y: int)
      reads this
      requires PointPoolOk()
      ensures pointerId in Tracked() ==> y == Tracked()[pointerId].y
      ensures pointerId !in Tracked() ==> y == defaultY
    {
      if pointerId in lastTouchCoords then points[lastTouchCoords[pointerId]].y else defaultY
    }

    /** Records the pointer's position, in its own point record if it has
        one, else in one taken from the bin (or a new one). */
    method SetLastTouchCoords(pointerId: int, x: int, y: int)
      requires Valid()
      modifies this`points, this`lastTouchCoords, this`pointRecycleBin
      ensures Valid()
      ensures Tracked() == old(Tracked())[pointerId := Point(x, y)]
      ensures pointerId in old(lastTouchCoords) ==>
                lastTouchCoords == old(lastTouchCoords) && pointRecycleBin == old(pointRecycleBin)
      ensures pointerId !in old(lastTouchCoords) && old(pointRecycleBin) != [] ==>
                var n := |old(pointRecycleBin)| - 1;
                lastTouchCoords == old(lastTouchCoords)[pointerId := old(pointRecycleBin)[n]] &&
                pointRecycleBin == old(pointRecycleBin)[..n]
      ensures pointerId !in old(lastTouchCoords) && old(pointRecycleBin) == [] ==>
                lastTouchCoords == old(lastTouchCoords)[pointerId := |old(points)|] &&
                |points| == |old(points)| + 1 && pointRecycleBin == []
    {
      ghost var m0, b0, n0 := lastTouchCoords, pointRecycleBin, |points|;
      var h: nat;
      if pointerId in lastTouchCoords {
        h := lastTouchCoords[pointerId];
      } else {
        h := AllocPointF();
      }
      Pools.Hold(lastTouchCoords, pointRecycleBin, |points|, pointerId, h);
      Pools.ViewWrite(points, lastTouchCoords, pointerId, h, Point(x, y));
      points := points[h := Point(x, y)];
      lastTouchCoords := lastTouchCoords[pointerId := h];
      Pools.HoldComplete(m0, b0, n0, pointerId, h, pointRecycleBin, |points|);
    }

    /** Drops the pointer's entry and returns its point record to the bin; a
        pointer that is not tracked is left alone. */
    method ForgetLastTouchCoords(pointerId: int)
      requires Valid()
      modifies this`lastTouchCoords, this`pointRecycleBin
      ensures Valid()
      ensures Tracked() == old(Tracked()) - {pointerId}
      ensures pointerId in old(lastTouchCoords) ==>
                lastTouchCoords == old(lastTouchCoords) - {pointerId} &&
                pointRecycleBin == old(pointRecycleBin) + [old(lastTouchCoords)[pointerId]]
      ensures pointerId !in old(lastTouchCoords) ==>
                lastTouchCoords == old(lastTouchCoords) && pointRecycleBin == old(pointRecycleBin)
    {
      if pointerId in lastTouchCoords {
        var h := lastTouchCoords[pointerId];
        Pools.Release(lastTouchCoords, pointRecycleBin, |points|, pointerId);
        Pools.ReleaseComplete(lastTouchCoords, pointRecycleBin, |points|, pointerId);
        Pools.ViewRemove(points, lastTouchCoords, pointerId);
        lastTouchCoords := lastTouchCoords - {pointerId};
        RecyclePointF(h);
      }
    }

    /** Takes the most recently recycled point record (or a new one) and
        zeroes it; the record is held by nobody. */
    method AllocPointF() returns (h: nat)
      requires PointPoolOk()
      modifies this`points, this`pointRecycleBin
      ensures PointPoolOk()
      ensures h < |points| && points[h] == Point(0, 0)
      ensures h !in pointRecycleBin && forall id :: id in lastTouchCoords ==> lastTouchCoords[id] != h
      ensures Tracked() == old(Tracked())
      ensures old(pointRecycleBin) != [] ==>
                var n := |old(pointRecycleBin)| - 1;
                h == old(pointRecycleBin)[n] && pointRecycleBin == old(pointRecycleBin)[..n] &&
                points == old(points)[h := Point(0, 0)]
      ensures old(pointRecycleBin) == [] ==>
                h == |old(points)| && pointRecycleBin == [] && points == old(points) + [Point(0, 0)]
    {
      if |pointRecycleBin| > 0 {
        var n := |pointRecycleBin| - 1;
        h := pointRecycleBin[n];
        Pools.TakeFromBin(lastTouchCoords, pointRecycleBin, |points|);
        Pools.ViewUnaffected(points, lastTouchCoords, h, Point(0, 0));
        pointRecycleBin := pointRecycleBin[..n];
        points := points[h := Point(0, 0)];
      } else {
        h := |points|;
        Pools.TakeNewPoint(lastTouchCoords, pointRecycleBin, |points|);
        Pools.ViewGrow(points, lastTouchCoords, Point(0, 0));
        points := points + [Point(0, 0)];
      }
    }

    /** Puts a point record, held by nobody, into the bin. */
    method RecyclePointF(h: nat)
      requires PointPoolOk() && h < |points|
      requires h !in pointRecycleBin && forall id :: id in lastTouchCoords ==> lastTouchCoords[id] != h
      modifies this`pointRecycleBin
      ensures PointPoolOk()
      ensures pointRecycleBin == old(pointRecycleBin) + [h]
    {
      pointRecycleBin := pointRecycleBin + [h];
    }

    /** Appends one event to the queue, in the most recently recycled record
        (or a new one), and raises the flag. */
    method QueueMotionEvent(action: Action, pointerId: int, screenX: int, screenY: int, deltaX: int, deltaY: int)
      requires Valid()
      modifies this`motionEventQueue, this`motionEventRecycle, this`checkMotionEvents
      ensures Valid() && checkMotionEvents
      ensures motionEventQueue == old(motionEventQueue) + [MotionEvent(action, pointerId, screenX, screenY, deltaX, deltaY)]
      // the record comes off the end of the recycle list when there is one
      ensures motionEventRecycle == if old(motionEventRecycle) == [] then []
                                    else old(motionEventRecycle)[..|old(motionEventRecycle)| - 1]
    {
      var e: MotionEvent;
      if |motionEventRecycle| > 0 {
        e := motionEventRecycle[|motionEventRecycle| - 1];
        motionEventRecycle := motionEventRecycle[..|motionEventRecycle| - 1];
      } else {
        // a new OurMotionEvent: every field zero, and action 0 is ACTION_DOWN
        e := MotionEvent(Down, 0, 0, 0, 0, 0);
      }
      e := e.(action := action, pointerId := pointerId, screenX := screenX, screenY := screenY,
               deltaX := deltaX, deltaY := deltaY);
      motionEventQueue := motionEventQueue + [e];
      checkMotionEvents := true;
    }

    /** The consumer side: moves the queue into the private batch and lowers
        the flag, dispatches the batch in order, then returns every record of
        it to the recycle list. */
    method ProcessMotionEvents()
      requires Valid()
      modifies this`motionEventQueue, this`tmpMotionEvent, this`motionEventRecycle, this`checkMotionEvents, this`trace
      ensures Valid()
      ensures trace == old(trace) + InputDispatch.DispatchAll(curScene, old(motionEventQueue), conv)
      ensures motionEventQueue == [] && !checkMotionEvents
      ensures motionEventRecycle == old(motionEventRecycle) + old(motionEventQueue)
    {
      TakeQueuedBatch();
      DispatchBatch();
      RecycleBatch();
    }

    /** The first block of processMotionEvents: copies the queue into the
        empty batch, clears it and lowers the flag. */
    method TakeQueuedBatch()
      requires tmpMotionEvent == []
      modifies this`motionEventQueue, this`tmpMotionEvent, this`checkMotionEvents
      ensures tmpMotionEvent == old(motionEventQueue)
      ensures motionEventQueue == [] && !checkMotionEvents
    {
      var i := 0;
      while i < |motionEventQueue|
        modifies this`tmpMotionEvent
        invariant 0 <= i <= |motionEventQueue|
        invariant tmpMotionEvent == motionEventQueue[..i]
      {
        tmpMotionEvent := tmpMotionEvent + [motionEventQueue[i]];
        i := i + 1;
      }
      assert motionEventQueue[..i] == motionEventQueue;
      motionEventQueue := [];
      checkMotionEvents := false;
    }

    /** The second block: delivers the batch to the current scene in order. */
    method DispatchBatch()
      modifies this`trace
      ensures trace == old(trace) + InputDispatch.DispatchAll(curScene, tmpMotionEvent, conv)
    {
      var i := 0;
      while i < |tmpMotionEvent|
        modifies this`trace
        invariant 0 <= i <= |tmpMotionEvent|
        invariant trace == old(trace) + InputDispatch.DispatchAll(curScene, tmpMotionEvent[..i], conv)
      {
        assert tmpMotionEvent[..i + 1] == tmpMotionEvent[..i] + [tmpMotionEvent[i]];
        InputDispatch.DispatchAllSnoc(curScene, tmpMotionEvent[..i], tmpMotionEvent[i], conv);
        ConcatAssoc(old(trace), InputDispatch.DispatchAll(curScene, tmpMotionEvent[..i], conv),
                    InputDispatch.Dispatch(curScene, tmpMotionEvent[i], conv));
        ProcessMotionEvent(tmpMotionEvent[i]);
        i := i + 1;
      }
      assert tmpMotionEvent[..i] == tmpMotionEvent;
    }

    /** The third block: appends every record of the batch to the recycle
        list and empties the batch. */
    method RecycleBatch()
      modifies this`motionEventRecycle, this`tmpMotionEvent
      ensures motionEventRecycle == old(motionEventRecycle) + old(tmpMotionEvent)
      ensures tmpMotionEvent == []
    {
      var i := 0;
      while i < |tmpMotionEvent|
        modifies this`motionEventRecycle
        invariant 0 <= i <= |tmpMotionEvent|
        invariant motionEventRecycle == old(motionEventRecycle) + tmpMotionEvent[..i]
      {
        assert tmpMotionEvent[..i + 1] == tmpMotionEvent[..i] + [tmpMotionEvent[i]];
        ConcatAssoc(old(motionEventRecycle), tmpMotionEvent[..i], [tmpMotionEvent[i]]);
        motionEventRecycle := motionEventRecycle + [tmpMotionEvent[i]];
        i := i + 1;
      }
      assert tmpMotionEvent[..i] == tmpMotionEvent;
      tmpMotionEvent := [];
    }

    /** Delivers one queued event to the current scene, if there is one. */
    method ProcessMotionEvent(e: MotionEvent)
      modifies this`trace
      ensures trace == old(trace) + InputDispatch.Dispatch(curScene, e, conv)
    {
      if curScene.None? {
        return;
      }
      var s := curScene.value;
      var x := conv.x(e.screenX);
      var y := conv.y(e.screenY);
      var deltaX := conv.deltaX(e.deltaX);
      var deltaY := conv.deltaY(e.deltaY);
      match e.action {
        case Down => trace := trace + [ScenePointerDown(s, e.pointerId, x, y)];
        case Move => trace := trace + [ScenePointerMove(s, e.pointerId, x, y, deltaX, deltaY)];
        case Up => trace := trace + [ScenePointerUp(s, e.pointerId, x, y)];
      }
    }
  }
}
