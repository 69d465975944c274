/** What SceneManager.onTouchEvent queues for one touch batch, and how it
    updates the last known position of each pointer, stated on values: the
    pointer-to-position map here is the logical content of mLastTouchCoords
    (the pooled point records themselves are in the Engine module). */
module TouchInput {
  import opened EngineTypes

  /** One pointer of a batch: its id and position (getPointerId(i), getX(i), getY(i)). */
  datatype PointerSample = PointerSample(id: int, x: int, y: int)

  /** One android.view.MotionEvent: the masked action, the index of the
      pointer the action is about, and the pointers in scan order. */
  datatype TouchBatch = TouchBatch(actionMasked: int, actionIndex: nat, pointers: seq<PointerSample>)

  /** The platform's guarantee: at least one pointer, and the action index
      names one of them. */
  predicate WellFormed(b: TouchBatch)
  {
    0 < |b.pointers| && b.actionIndex < |b.pointers|
  }

  predicate IsUp(actionMasked: int)
  {
    actionMasked == ACTION_UP || actionMasked == ACTION_POINTER_UP
  }

  predicate IsDown(actionMasked: int)
  {
    actionMasked == ACTION_DOWN || actionMasked == ACTION_POINTER_DOWN
  }

  /** Last known position of pointer `id`, or `default` when it is not
      tracked (getLastTouchX and getLastTouchY together). */
  function LastTouch(t: map<int, Point>, id: int, default: Point): Point
  {
    if id in t then t[id] else default
  }

  /** The Move event queued for sample `p` when the tracked positions are `t`. */
  function MoveFor(t: map<int, Point>, p: PointerSample): (e: MotionEvent)
    ensures e.action == Move && e.pointerId == p.id && e.screenX == p.x && e.screenY == p.y
    // an untracked pointer moves by nothing; a tracked one by its displacement
    ensures p.id !in t ==> e.deltaX == 0 && e.deltaY == 0
    ensures p.id in t ==> e.deltaX == p.x - t[p.id].x && e.deltaY == p.y - t[p.id].y
  {
    var last := LastTouch(t, p.id, Point(p.x, p.y));
    MotionEvent(Move, p.id, p.x, p.y, p.x - last.x, p.y - last.y)
  }

  /** The pointer ids of a batch. */
  function Ids(ps: seq<PointerSample>): set<int>
  {
    set i | 0 <= i < |ps| :: ps[i].id
  }

  lemma IdsSnoc(ps: seq<PointerSample>)
    requires ps != []
    ensures Ids(ps) == Ids(ps[..|ps| - 1]) + {ps[|ps| - 1].id}
  {
    var n := |ps| - 1;
    forall id | id in Ids(ps) ensures id in Ids(ps[..n]) + {ps[n].id} {
      var i :| 0 <= i < |ps| && ps[i].id == id;
      if i < n { assert ps[..n][i].id == id; }
    }
    forall id | id in Ids(ps[..n]) ensures id in Ids(ps) {
      var i :| 0 <= i < n && ps[..n][i].id == id;
      assert ps[i].id == id;
    }
  }

  /** The tracked positions after the Move pass over `ps` (setLastTouchCoords
      for each sample in scan order). */
  function TrackAfter(t: map<int, Point>, ps: seq<PointerSample>): map<int, Point>
    decreases |ps|
  {
    if ps == [] then t
    else
      var p := ps[|ps| - 1];
      TrackAfter(t, ps[..|ps| - 1])[p.id := Point(p.x, p.y)]
  }

  /** The Move pass tracks exactly the pointers tracked before and those of
      the batch. */
  lemma {:induction false} TrackAfterKeys(t: map<int, Point>, ps: seq<PointerSample>)
    ensures TrackAfter(t, ps).Keys == t.Keys + Ids(ps)
    decreases |ps|
  {
    if ps != [] {
      TrackAfterKeys(t, ps[..|ps| - 1]);
      IdsSnoc(ps);
    }
  }

  /** The Move events queued for `ps`, one per sample, in scan order. */
  function MoveEvents(t: map<int, Point>, ps: seq<PointerSample>): (es: seq<MotionEvent>)
    ensures |es| == |ps|
    ensures forall i :: 0 <= i < |ps| ==>
              es[i].action == Move && es[i].pointerId == ps[i].id &&
              es[i].screenX == ps[i].x && es[i].screenY == ps[i].y
    decreases |ps|
  {
    if ps == [] then []
    else
      var n := |ps| - 1;
      MoveEvents(t, ps[..n]) + [MoveFor(TrackAfter(t, ps[..n]), ps[n])]
  }

  /** One more sample of the Move pass: its Move is appended and its
      position tracked. */
  lemma MovePassStep(t: map<int, Point>, ps: seq<PointerSample>, i: nat)
    requires i < |ps|
    ensures MoveEvents(t, ps[..i + 1]) == MoveEvents(t, ps[..i]) + [MoveFor(TrackAfter(t, ps[..i]), ps[i])]
    ensures TrackAfter(t, ps[..i + 1]) == TrackAfter(t, ps[..i])[ps[i].id := Point(ps[i].x, ps[i].y)]
  {
    assert ps[..i + 1][..i] == ps[..i];
  }

  /** The index of the last sample of pointer `id` in `ps`, or -1. */
  function LastIndex(ps: seq<PointerSample>, id: int): (k: int)
    ensures -1 <= k < |ps|
    ensures 0 <= k ==> ps[k].id == id && forall j :: k < j < |ps| ==> ps[j].id != id
    ensures k < 0 ==> forall j :: 0 <= j < |ps| ==> ps[j].id != id
    decreases |ps|
  {
    if ps == [] then -1
    else if ps[|ps| - 1].id == id then |ps| - 1
    else LastIndex(ps[..|ps| - 1], id)
  }

  /** The i-th Move event is measured against the positions tracked after
      the samples before it. */
  lemma {:induction false} MoveEventsAt(t: map<int, Point>, ps: seq<PointerSample>, i: nat)
    requires i < |ps|
    ensures MoveEvents(t, ps)[i] == MoveFor(TrackAfter(t, ps[..i]), ps[i])
    decreases |ps|
  {
    var n := |ps| - 1;
    var front := MoveEvents(t, ps[..n]);
    assert MoveEvents(t, ps) == front + [MoveFor(TrackAfter(t, ps[..n]), ps[n])];
    if i < n {
      MoveEventsAt(t, ps[..n], i);
      assert ps[..n][..i] == ps[..i] && ps[..n][i] == ps[i];
      assert MoveEvents(t, ps)[i] == front[i];
    } else {
      assert ps[..n] == ps[..i];
    }
  }


  /** After the Move pass, a pointer's tracked position is its last sample
      in the batch, or what was tracked before when the batch lacks it. */
  lemma {:induction false} TrackAfterLookup(t: map<int, Point>, ps: seq<PointerSample>, id: int)
    ensures var k := LastIndex(ps, id);
            && (id in TrackAfter(t, ps) <==> 0 <= k || id in t)
            && (0 <= k ==> TrackAfter(t, ps)[id] == Point(ps[k].x, ps[k].y))
            && (k < 0 && id in t ==> TrackAfter(t, ps)[id] == t[id])
    decreases |ps|
  {
    if ps != [] {
      TrackAfterLookup(t, ps[..|ps| - 1], id);
    }
  }

  /** Move synthesis: each Move carries the displacement of its pointer since
      that pointer's previous sample in the batch, or since its tracked
      position when it has none, or zero for a pointer seen for the first
      time. */
  lemma MoveDelta(t: map<int, Point>, ps: seq<PointerSample>, i: nat)
    requires i < |ps|
    ensures var e := MoveEvents(t, ps)[i];
            var k := LastIndex(ps[..i], ps[i].id);
            && (0 <= k ==> e.deltaX == ps[i].x - ps[k].x && e.deltaY == ps[i].y - ps[k].y)
            && (k < 0 && ps[i].id in t ==>
                  e.deltaX == ps[i].x - t[ps[i].id].x && e.deltaY == ps[i].y - t[ps[i].id].y)
            && (k < 0 && ps[i].id !in t ==> e.deltaX == 0 && e.deltaY == 0)
  {
    MoveEventsAt(t, ps, i);
    TrackAfterLookup(t, ps[..i], ps[i].id);
  }

  /** The Up or Down event queued after the Move pass. It carries the action
      pointer's id but the coordinates of pointer index 0 (getX(), getY()). */
  function ActionEvents(b: TouchBatch): (es: seq<MotionEvent>)
    requires WellFormed(b)
    ensures |es| == if IsUp(b.actionMasked) || IsDown(b.actionMasked) then 1 else 0
    ensures forall e :: e in es ==>
              && e.pointerId == b.pointers[b.actionIndex].id
              && e.screenX == b.pointers[0].x && e.screenY == b.pointers[0].y
              && e.deltaX == 0 && e.deltaY == 0
              && (e.action == Up <==> IsUp(b.actionMasked))
              && (e.action == Down <==> IsDown(b.actionMasked))
  {
    var id := b.pointers[b.actionIndex].id;
    var p0 := b.pointers[0];
    if IsUp(b.actionMasked) then [MotionEvent(Up, id, p0.x, p0.y, 0, 0)]
    else if IsDown(b.actionMasked) then [MotionEvent(Down, id, p0.x, p0.y, 0, 0)]
    else []
  }

  /** Everything onTouchEvent queues for batch `b`: one Move per pointer in
      scan order, then the Up or Down event. */
  function TouchEvents(t: map<int, Point>, b: TouchBatch): seq<MotionEvent>
    requires WellFormed(b)
  {
    MoveEvents(t, b.pointers) + ActionEvents(b)
  }

  /** The tracked positions after onTouchEvent handles batch `b`. */
  function TouchTracked(t: map<int, Point>, b: TouchBatch): (r: map<int, Point>)
    requires WellFormed(b)
    // an Up forgets the action pointer
    ensures IsUp(b.actionMasked) ==>
              r.Keys == t.Keys + Ids(b.pointers) - {b.pointers[b.actionIndex].id}
    // a Down records it at the position of pointer index 0
    ensures IsDown(b.actionMasked) ==>
              && r.Keys == t.Keys + Ids(b.pointers)
              && r[b.pointers[b.actionIndex].id] == Point(b.pointers[0].x, b.pointers[0].y)
    // every other action only tracks the samples
    ensures !IsUp(b.actionMasked) && !IsDown(b.actionMasked) ==> r.Keys == t.Keys + Ids(b.pointers)
    // pointers the batch does not name keep their position
    ensures forall id :: id in t && id !in Ids(b.pointers) ==> id in r && r[id] == t[id]
    // every other pointer the batch names ends at its last sample
    ensures forall i :: 0 <= i < |b.pointers| &&
                        !((IsUp(b.actionMasked) || IsDown(b.actionMasked)) && b.pointers[i].id == b.pointers[b.actionIndex].id) ==>
              var k := LastIndex(b.pointers, b.pointers[i].id);
              b.pointers[i].id in r && r[b.pointers[i].id] == Point(b.pointers[k].x, b.pointers[k].y)
  {
    var m := TrackAfter(t, b.pointers);
    var id := b.pointers[b.actionIndex].id;
    TrackAfterKeys(t, b.pointers);
    assert id in Ids(b.pointers);
    forall other | other in t && other !in Ids(b.pointers) ensures m[other] == t[other] {
      TrackAfterLookup(t, b.pointers, other);
    }
    forall i | 0 <= i < |b.pointers|
      ensures var k := LastIndex(b.pointers, b.pointers[i].id);
              b.pointers[i].id in m && m[b.pointers[i].id] == Point(b.pointers[k].x, b.pointers[k].y)
    {
      TrackAfterLookup(t, b.pointers, b.pointers[i].id);
    }
    ActionTracked(m, b)
  }

  /** The tracked positions after the Up or Down step of batch `b`, when
      they were `m` after its Move pass. */
  function ActionTracked(m: map<int, Point>, b: TouchBatch): map<int, Point>
    requires WellFormed(b)
  {
    var id := b.pointers[b.actionIndex].id;
    if IsUp(b.actionMasked) then m - {id}
    else if IsDown(b.actionMasked) then m[id := Point(b.pointers[0].x, b.pointers[0].y)]
    else m
  }

  /** After an Up for pointer P, P is not tracked, so the next batch that
      names P measures its first Move from nothing: a fresh gesture with a
      zero delta. */
  lemma FreshGestureAfterUp(t: map<int, Point>, up: TouchBatch, next: TouchBatch, i: nat)
    requires WellFormed(up) && IsUp(up.actionMasked)
    requires WellFormed(next) && i < |next.pointers|
    requires next.pointers[i].id == up.pointers[up.actionIndex].id
    requires LastIndex(next.pointers[..i], next.pointers[i].id) < 0
    ensures var e := TouchEvents(TouchTracked(t, up), next)[i];
            e.action == Move && e.deltaX == 0 && e.deltaY == 0
  {
    MoveDelta(TouchTracked(t, up), next.pointers, i);
  }

  /** One finger put down at (10, 10), moved to (15, 12) and lifted there:
      each batch first queues a Move for the finger, so five events are
      queued, and afterwards the finger is no longer tracked. */
  lemma OneFingerGesture()
    ensures var t0: map<int, Point> := map[];
            var down := TouchBatch(ACTION_DOWN, 0, [PointerSample(1, 10, 10)]);
            var move := TouchBatch(ACTION_MOVE, 0, [PointerSample(1, 15, 12)]);
            var up := TouchBatch(ACTION_UP, 0, [PointerSample(1, 15, 12)]);
            var t1 := TouchTracked(t0, down);
            var t2 := TouchTracked(t1, move);
            && TouchEvents(t0, down) + TouchEvents(t1, move) + TouchEvents(t2, up) ==
                 [MotionEvent(Move, 1, 10, 10, 0, 0), MotionEvent(Down, 1, 10, 10, 0, 0),
                  MotionEvent(Move, 1, 15, 12, 5, 2),
                  MotionEvent(Move, 1, 15, 12, 0, 0), MotionEvent(Up, 1, 15, 12, 0, 0)]
            && TouchTracked(t2, up) == map[]
  {
    var t0: map<int, Point> := map[];
    var s1, s2 := PointerSample(1, 10, 10), PointerSample(1, 15, 12);
    var down := TouchBatch(ACTION_DOWN, 0, [s1]);
    var move := TouchBatch(ACTION_MOVE, 0, [s2]);
    var up := TouchBatch(ACTION_UP, 0, [s2]);
    assert [s1][..0] == [] && [s2][..0] == [];
    var t1 := TouchTracked(t0, down);
    assert t1 == map[1 := Point(10, 10)];
    var t2 := TouchTracked(t1, move);
    assert t2 == map[1 := Point(15, 12)];
    assert TouchEvents(t0, down) == [MotionEvent(Move, 1, 10, 10, 0, 0), MotionEvent(Down, 1, 10, 10, 0, 0)];
    assert TouchEvents(t1, move) == [MotionEvent(Move, 1, 15, 12, 5, 2)];
    assert TouchEvents(t2, up) == [MotionEvent(Move, 1, 15, 12, 0, 0), MotionEvent(Up, 1, 15, 12, 0, 0)];
  }

  /** A second finger going down (POINTER_DOWN, action index 1) is recorded
      at the first finger's position, because the Down branch reads getX()
      and getY() (pointer index 0). Its next Move, even without moving, then
      carries the distance between the two fingers. */
  lemma SecondFingerRecordedAtFirst(t: map<int, Point>, a: PointerSample, b: PointerSample)
    requires a.id != b.id
    ensures var down := TouchBatch(ACTION_POINTER_DOWN, 1, [a, b]);
            var still := TouchBatch(ACTION_MOVE, 0, [a, b]);
            var e := TouchEvents(TouchTracked(t, down), still)[1];
            && TouchTracked(t, down)[b.id] == Point(a.x, a.y)
            && e.pointerId == b.id && e.deltaX == b.x - a.x && e.deltaY == b.y - a.y
  {
    var down := TouchBatch(ACTION_POINTER_DOWN, 1, [a, b]);
    var still := TouchBatch(ACTION_MOVE, 0, [a, b]);
    MoveDelta(TouchTracked(t, down), still.pointers, 1);
    assert still.pointers[..1] == [a];
  }
}
