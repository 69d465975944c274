/** Recycled point records as handles into an arena. The scene manager keeps
    its point records in an arena; the pointer map and the recycle bin hold
    handles. The predicate here states that no record is held twice, and the
    lemmas show that each step the manager takes keeps it so. */
module Pools {
  import opened EngineTypes

  /** Every held point record is held by one pointer only, the bin holds
      each at most once, and no record is both held and in the bin. */
  ghost predicate Holders(m: map<int, nat>, b: seq<nat>, n: nat)
  {
    && (forall id :: id in m ==> m[id] < n)
    && (forall i :: 0 <= i < |b| ==> b[i] < n)
    && (forall id, id' :: id in m && id' in m && id != id' ==> m[id] != m[id'])
    && (forall i, j :: 0 <= i < j < |b| ==> b[i] != b[j])
    && (forall id, i :: id in m && 0 <= i < |b| ==> m[id] != b[i])
  }

  /** No record is lost: each of the `n` records is held by a pointer or
      waits in the bin. */
  ghost predicate Complete(m: map<int, nat>, b: seq<nat>, n: nat)
  {
    forall h :: 0 <= h < n ==> h in b || exists id :: id in m && m[id] == h
  }

  /** The positions held for the pointers of `m`. */
  ghost function View(points: seq<Point>, m: map<int, nat>): map<int, Point>
    requires forall id :: id in m ==> m[id] < |points|
  {
    map id | id in m :: points[m[id]]
  }

  /** allocPointF taking the last record of the bin. */
  lemma TakeFromBin(m: map<int, nat>, b: seq<nat>, n: nat)
    requires Holders(m, b, n) && b != []
    ensures var k := |b| - 1;
            && b[k] < n && b[k] !in b[..k]
            && (forall id :: id in m ==> m[id] != b[k])
            && Holders(m, b[..k], n)
  {
    var k := |b| - 1;
    forall i | 0 <= i < k ensures b[..k][i] != b[k] {
      assert b[..k][i] == b[i];
    }
  }

  /** allocPointF creating record `n`. */
  lemma TakeNewPoint(m: map<int, nat>, b: seq<nat>, n: nat)
    requires Holders(m, b, n)
    ensures n !in b && (forall id :: id in m ==> m[id] != n)
    ensures Holders(m, b, n + 1)
  {
  }

  /** setLastTouchCoords: pointer `id` holds record `h`, which nobody else
      holds and the bin does not. */
  lemma Hold(m: map<int, nat>, b: seq<nat>, n: nat, id: int, h: nat)
    requires Holders(m, b, n) && h < n && h !in b
    requires forall other :: other in m && other != id ==> m[other] != h
    ensures Holders(m[id := h], b, n)
  {
  }

  /** forgetLastTouchCoords: pointer `id` lets go of its record, which goes
      to the bin. */
  lemma Release(m: map<int, nat>, b: seq<nat>, n: nat, id: int)
    requires Holders(m, b, n) && id in m
    ensures Holders(m - {id}, b + [m[id]], n)
  {
    var h, b' := m[id], b + [m[id]];
    forall i, j | 0 <= i < j < |b'| ensures b'[i] != b'[j] {
      if j < |b| {
        assert b'[i] == b[i] && b'[j] == b[j];
      } else {
        assert b'[i] == b[i];
      }
    }
    forall other, i | other in m - {id} && 0 <= i < |b'| ensures m[other] != b'[i] {
      if i < |b| { assert b'[i] == b[i]; }
    }
  }

  /** setLastTouchCoords loses no record: pointer `id` keeps its own record
      or takes `h`, and every other record stays where it was. */
  lemma HoldComplete(m: map<int, nat>, b: seq<nat>, n: nat, id: int, h: nat, b': seq<nat>, n': nat)
    requires Complete(m, b, n)
    // its own record, the bin's last one, or a new one
    requires || (id in m && m[id] == h && b' == b && n' == n)
             || (id !in m && b == b' + [h] && n' == n)
             || (id !in m && b == b' == [] && h == n && n' == n + 1)
    ensures Complete(m[id := h], b', n')
  {
    var m' := m[id := h];
    forall k | 0 <= k < n' ensures k in b' || exists other :: other in m' && m'[other] == k {
      if k == h {
        assert m'[id] == h;
      } else if k !in b {
        var other :| other in m && m[other] == k;
        assert m'[other] == k;
      }
    }
  }

  /** forgetLastTouchCoords loses no record: the one pointer `id` lets go of
      goes to the bin. */
  lemma ReleaseComplete(m: map<int, nat>, b: seq<nat>, n: nat, id: int)
    requires Complete(m, b, n) && id in m
    ensures Complete(m - {id}, b + [m[id]], n)
  {
    forall k | 0 <= k < n && k !in b + [m[id]]
      ensures exists other :: other in m - {id} && m[other] == k
    {
      var other :| other in m && m[other] == k;
      assert other in m - {id};
    }
  }

  /** Writing record `h` changes the view of the pointer holding it and of
      no other. */
  lemma ViewWrite(points: seq<Point>, m: map<int, nat>, id: int, h: nat, p: Point)
    requires forall i :: i in m ==> m[i] < |points|
    requires h < |points|
    requires forall other :: other in m && other != id ==> m[other] != h
    ensures View(points[h := p], m[id := h]) == View(points, m)[id := p]
  {
    var l, r := View(points[h := p], m[id := h]), View(points, m)[id := p];
    assert l.Keys == r.Keys;
    forall i | i in l ensures l[i] == r[i] {
      if i != id { assert m[i] != h; }
    }
  }

  /** Writing a record nobody holds leaves the view unchanged. */
  lemma ViewUnaffected(points: seq<Point>, m: map<int, nat>, h: nat, p: Point)
    requires forall i :: i in m ==> m[i] < |points|
    requires h < |points| && forall id :: id in m ==> m[id] != h
    ensures View(points[h := p], m) == View(points, m)
  {
    var v, w := View(points, m), View(points[h := p], m);
    assert w.Keys == v.Keys;
    forall i | i in v ensures w[i] == v[i] {
      assert m[i] != h;
    }
  }

  /** Adding a record leaves the view unchanged. */
  lemma ViewGrow(points: seq<Point>, m: map<int, nat>, p: Point)
    requires forall i :: i in m ==> m[i] < |points|
    ensures View(points + [p], m) == View(points, m)
  {
    var v, g := View(points, m), View(points + [p], m);
    assert g.Keys == v.Keys;
  }

  /** Dropping a pointer from the map drops it from the view and nothing else. */
  lemma ViewRemove(points: seq<Point>, m: map<int, nat>, id: int)
    requires forall i :: i in m ==> m[i] < |points|
    ensures View(points, m - {id}) == View(points, m) - {id}
  {
    var l, r := View(points, m - {id}), View(points, m) - {id};
    assert l.Keys == r.Keys;
  }
}
