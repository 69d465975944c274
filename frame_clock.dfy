/** The frame clock of SceneManager.onDrawFrame: the time of the last frame,
    with a negative value as the "no frame yet" sentinel, and the delta handed
    to the current scene. Times and deltas are integer milliseconds. */
module FrameClock {

  /** The sentinel the manager starts with (mLastFrameTime = -1). */
  const UNSET: int := -1

  /** What one clock step yields: the delta for this frame and the new
      time of the last frame. */
  datatype Tick = Tick(deltaT: int, lastFrameTime: int)

  /** One step at time `now`: a first frame measures from `now` itself. */
  function Step(last: int, now: int): (r: Tick)
    ensures r.lastFrameTime == now
    ensures last < 0 ==> r.deltaT == 0
    // a later frame gets the time elapsed since the last one
    ensures last >= 0 ==> r.deltaT == now - last
    ensures 0 <= last <= now ==> 0 <= r.deltaT
  {
    var start := if last < 0 then now else last;
    Tick(now - start, now)
  }

  /** The sum of the deltas handed out over frames at the times `nows`. */
  function TotalDelta(last: int, nows: seq<int>): int
    decreases |nows|
  {
    if nows == [] then 0
    else
      var t := Step(last, nows[0]);
      t.deltaT + TotalDelta(t.lastFrameTime, nows[1..])
  }

  /** The clock neither smooths nor clamps nor loses time: over any run of
      frames (at non-negative times, so the sentinel is never re-entered) the
      deltas add up to the time from the first reference point to the last
      frame. */
  lemma {:induction false} DeltasTelescope(last: int, nows: seq<int>)
    requires nows != []
    requires forall i :: 0 <= i < |nows| ==> nows[i] >= 0
    ensures TotalDelta(last, nows) == nows[|nows| - 1] - (if last < 0 then nows[0] else last)
    decreases |nows|
  {
    if |nows| > 1 {
      DeltasTelescope(nows[0], nows[1..]);
    }
  }
}
