/** Which positions of a closed ring the simplification keeps (api/geojson_import.py `simplify` on a ring). */
module RingShape {
  import opened Polyline

  type Line = seq<Point>

  predicate IsClosed(ring: Line) { ring != [] && ring[0] == ring[|ring|-1] }

  /** Simplifying a stretch drops everything strictly inside it exactly when all of it is close enough to the chord. */
  lemma RdpEmpty(dist: Metric, points: seq<Point>, first: nat, last: nat, bound: real)
    requires first < last < |points| && 0.0 <= bound
    ensures Rdp(dist, points, first, last, bound) == {} <==>
            forall i | first < i < last :: dist(points[i], points[first], points[last]) <= bound
  {
    if last > first + 1 {
      var worst := Farthest(dist, points, first, last, last);
      assert worst.0 > bound ==> worst.1 in Rdp(dist, points, first, last, bound);
    }
  }

  lemma SwapEnds(a: Point, b: Point, s: real)
    ensures SamePlace(Along(b, a, 1.0 - s), Along(a, b, s))
  {
    assert b.x + (1.0 - s) * (a.x - b.x) == a.x + s * (b.x - a.x);
    assert b.y + (1.0 - s) * (a.y - b.y) == a.y + s * (b.y - a.y);
  }

  /** The same place, as far as distances are concerned. */
  predicate SamePlace(p: Point, q: Point) { p.x == q.x && p.y == q.y }

  lemma NoFartherBackwards(p: Point, a: Point, b: Point)
    ensures Dist2(p, b, a) <= Dist2(p, a, b)
  {
    NearestOnSegment(p, a, b);
    var s :| 0.0 <= s <= 1.0 && Dist2(p, a, b) == Gap2(p, Along(a, b, s));
    SwapEnds(a, b, s);
    NearestOnSegment(p, b, a);
    assert Dist2(p, b, a) <= Gap2(p, Along(b, a, 1.0 - s));
  }

  /** The distance to a segment does not depend on its direction, and is none at its ends and no more than to either. */
  lemma SegmentEnds(p: Point, a: Point, b: Point)
    ensures Dist2(p, a, b) == Dist2(p, b, a)
    ensures Dist2(p, a, b) <= Gap2(p, a)
  {
    NoFartherBackwards(p, a, b);
    NoFartherBackwards(p, b, a);
    NearestOnSegment(p, a, b);
    assert Gap2(p, Along(a, b, 0.0)) == Gap2(p, a);
  }

  /** `m` is the position farthest from the ring's start, the earliest on a tie. */
  ghost predicate IsFarthest(ring: Line, m: nat) {
    && m < |ring|
    && (forall i | 0 <= i < |ring| :: Gap2(ring[i], ring[0]) <= Gap2(ring[m], ring[0]))
    && (forall i | 0 <= i < m :: Gap2(ring[i], ring[0]) < Gap2(ring[m], ring[0]))
  }

  /** The whole ring lies within the tolerance of the segment from its start to that position. */
  ghost predicate Narrow(ring: Line, tolerance: real) {
    exists m :: IsFarthest(ring, m) && AlongSegment(ring, m, tolerance)
  }

  ghost predicate AlongSegment(ring: Line, m: nat, tolerance: real)
    requires m < |ring|
  {
    forall i | 0 <= i < |ring| :: Dist2(ring[i], ring[0], ring[m]) <= Sq(tolerance)
  }

  lemma {:induction false} FarthestIsEarliest(dist: Metric, points: seq<Point>, first: nat, upto: nat, last: nat)
    requires first < upto <= last < |points|
    ensures var r := Farthest(dist, points, first, upto, last);
            (r.1 > first ==> r.0 > 0.0) && forall i | first < i < r.1 :: dist(points[i], points[first], points[last]) < r.0
  {
    if upto > first + 1 {
      FarthestIsEarliest(dist, points, first, upto - 1, last);
    }
  }

  lemma FromStart(ring: Line, p: Point)
    requires IsClosed(ring)
    ensures Dist2(p, ring[0], ring[|ring|-1]) == Gap2(p, ring[0]) && Gap2(ring[0], ring[0]) == 0.0
  {
  }

  /** In a closed ring the first farthest position is the one the first stretch is split at. */
  lemma FarthestFound(ring: Line, m: nat)
    requires |ring| >= 4 && IsClosed(ring)
    ensures IsFarthest(ring, m) <==> m == Farthest(Dist2, ring, 0, |ring| - 1, |ring| - 1).1
  {
    var last := |ring| - 1;
    var r := Farthest(Dist2, ring, 0, last, last);
    FarthestIsEarliest(Dist2, ring, 0, last, last);
    forall i | 0 <= i <= last ensures Dist2(ring[i], ring[0], ring[last]) == Gap2(ring[i], ring[0]) {
      FromStart(ring, ring[i]);
    }
    FromStart(ring, ring[0]);
    assert r.0 == Gap2(ring[r.1], ring[0]);
    assert IsFarthest(ring, r.1);
  }

  lemma {:induction false} PositionsCount(n: nat, kept: set<nat>)
    requires forall i | i in kept :: i < n
    ensures |Positions(n, kept)| == |kept|
  {
    if n > 0 {
      if n - 1 in kept {
        var fewer := kept - {n - 1};
        PositionsCount(n - 1, fewer);
        SamePositions(n - 1, kept, fewer);
      } else {
        PositionsCount(n - 1, kept);
      }
    } else {
      assert kept == {};
    }
  }

  lemma {:induction false} SamePositions(n: nat, a: set<nat>, b: set<nat>)
    requires forall i | 0 <= i < n :: i in a <==> i in b
    ensures Positions(n, a) == Positions(n, b)
  {
    if n > 0 {
      SamePositions(n - 1, a, b);
    }
  }

  lemma KeepsTwo(ring: Line, tolerance: real)
    requires |ring| >= 4 && IsClosed(ring) && tolerance > 0.0
    requires Farthest(Dist2, ring, 0, |ring| - 1, |ring| - 1).0 <= Sq(tolerance)
    ensures KeptAt(ring, tolerance) == {0, |ring| - 1}
    ensures forall i, m | 0 <= i < |ring| && 0 <= m < |ring| :: Dist2(ring[i], ring[0], ring[m]) <= Sq(tolerance)
  {
    SquarePositive(tolerance);
    forall i, m | 0 <= i < |ring| && 0 <= m < |ring| ensures Dist2(ring[i], ring[0], ring[m]) <= Sq(tolerance) {
      SegmentEnds(ring[i], ring[0], ring[m]);
      FromStart(ring, ring[i]);
    }
  }

  lemma ThreeAndMore(few: set<nat>, more: set<nat>)
    requires few !! more && |few| == 3
    ensures |few + more| < 4 <==> more == {}
  {
    assert |few + more| == |few| + |more|;
  }

  /** What a side of the split keeps, if anything, makes a fourth position. */
  lemma SidesKeep(last: nat, m: nat, a: set<nat>, b: set<nat>)
    requires 0 < m < last && (forall i | i in a :: 0 < i < m) && (forall i | i in b :: m < i < last)
    ensures |{m} + a + b + {0, last}| < 4 <==> a == {} && b == {}
  {
    ThreeAndMore({0, m, last}, a + b);
    assert {m} + a + b + {0, last} == {0, m, last} + (a + b);
    assert a + b == {} <==> a == {} && b == {} by {
      assert a <= a + b && b <= a + b;
    }
  }

  lemma KeepsThree(ring: Line, tolerance: real, m: nat)
    requires |ring| >= 4 && IsClosed(ring) && tolerance > 0.0
    requires var worst := Farthest(Dist2, ring, 0, |ring| - 1, |ring| - 1); worst.0 > Sq(tolerance) && worst.1 == m
    ensures |KeptAt(ring, tolerance)| < 4 <==> AlongSegment(ring, m, tolerance)
  {
    var last, bound := |ring| - 1, Sq(tolerance);
    SquarePositive(tolerance);
    var a, b := Rdp(Dist2, ring, 0, m, bound), Rdp(Dist2, ring, m, last, bound);
    assert KeptAt(ring, tolerance) == {m} + a + b + {0, last};
    SidesKeep(last, m, a, b);
    SidesNear(ring, m, bound);
  }

  /** The points strictly inside a stretch are close to the segment from `a` to `b`. */
  ghost predicate StretchNear(points: seq<Point>, a: Point, b: Point, first: nat, last: nat, bound: real)
    requires last < |points|
  {
    forall i | first < i < last :: Dist2(points[i], a, b) <= bound
  }

  lemma StretchBackwards(points: seq<Point>, a: Point, b: Point, first: nat, last: nat, bound: real)
    requires last < |points|
    ensures StretchNear(points, a, b, first, last, bound) <==> StretchNear(points, b, a, first, last, bound)
  {
    forall i | first < i < last ensures Dist2(points[i], a, b) == Dist2(points[i], b, a) {
      SegmentEnds(points[i], a, b);
    }
  }

  /** Both sides of the split keep nothing exactly when all of the ring is close to the segment they share. */
  lemma SidesNear(ring: Line, m: nat, bound: real)
    requires 0 < m < |ring| - 1 && IsClosed(ring) && bound >= 0.0
    ensures Rdp(Dist2, ring, 0, m, bound) == {} && Rdp(Dist2, ring, m, |ring| - 1, bound) == {} <==>
            forall i | 0 <= i < |ring| :: Dist2(ring[i], ring[0], ring[m]) <= bound
  {
    var last := |ring| - 1;
    RdpEmpty(Dist2, ring, 0, m, bound);
    RdpEmpty(Dist2, ring, m, last, bound);
    assert Rdp(Dist2, ring, m, last, bound) == {} <==> StretchNear(ring, ring[m], ring[0], m, last, bound);
    StretchBackwards(ring, ring[m], ring[0], m, last, bound);
    StretchesNear(ring, m, bound);
  }

  lemma StretchesNear(ring: Line, m: nat, bound: real)
    requires 0 < m < |ring| - 1 && IsClosed(ring) && bound >= 0.0
    ensures (&& StretchNear(ring, ring[0], ring[m], 0, m, bound)
             && StretchNear(ring, ring[0], ring[m], m, |ring| - 1, bound)) <==>
            forall i | 0 <= i < |ring| :: Dist2(ring[i], ring[0], ring[m]) <= bound
  {
    EndsAreNear(ring, m, bound);
  }

  lemma EndsAreNear(ring: Line, m: nat, bound: real)
    requires m < |ring| && IsClosed(ring) && bound >= 0.0
    ensures Dist2(ring[0], ring[0], ring[m]) <= bound && Dist2(ring[m], ring[0], ring[m]) <= bound
    ensures Dist2(ring[|ring|-1], ring[0], ring[m]) <= bound
  {
    SegmentEnds(ring[0], ring[0], ring[m]);
    SegmentEnds(ring[m], ring[m], ring[0]);
    SegmentEnds(ring[m], ring[0], ring[m]);
    assert Gap2(ring[0], ring[0]) == 0.0 && Gap2(ring[m], ring[m]) == 0.0;
  }

  /**
   A closed ring keeps fewer than four positions exactly when all of it lies within the tolerance of the segment from its
   start to the position farthest from there.
   */
  lemma NarrowKeepsFew(ring: Line, tolerance: real)
    requires |ring| >= 4 && IsClosed(ring) && tolerance > 0.0
    ensures |KeptAt(ring, tolerance)| < 4 <==> Narrow(ring, tolerance)
  {
    var worst := Farthest(Dist2, ring, 0, |ring| - 1, |ring| - 1);
    FarthestFound(ring, worst.1);
    forall m | IsFarthest(ring, m) ensures m == worst.1 {
      FarthestFound(ring, m);
    }
    if worst.0 <= Sq(tolerance) {
      KeepsTwo(ring, tolerance);
      assert AlongSegment(ring, worst.1, tolerance);
    } else {
      KeepsThree(ring, tolerance, worst.1);
    }
  }

  // ----- why a position is kept

  /** Position `k` is the farthest from the chord of a stretch whose ends are kept, and beyond the bound. */
  ghost predicate HasReason(dist: Metric, points: seq<Point>, kept: set<nat>, bound: real, lo: nat, k: nat, hi: nat) {
    && lo < k < hi < |points| && lo in kept && hi in kept
    && dist(points[k], points[lo], points[hi]) > bound
    && forall j | lo < j < hi :: dist(points[j], points[lo], points[hi]) <= dist(points[k], points[lo], points[hi])
  }

  /** Every position kept inside a stretch has such a reason. */
  lemma {:induction false} KeptHasReason(dist: Metric, points: seq<Point>, first: nat, last: nat, bound: real, k: nat)
    returns (lo: nat, hi: nat)
    requires first < last < |points| && 0.0 <= bound && k in Rdp(dist, points, first, last, bound)
    ensures HasReason(dist, points, Rdp(dist, points, first, last, bound) + {first, last}, bound, lo, k, hi)
    decreases last - first
  {
    var m := Farthest(dist, points, first, last, last).1;
    if k == m {
      lo, hi := first, last;
    } else if k < m {
      lo, hi := KeptHasReason(dist, points, first, m, bound, k);
    } else {
      lo, hi := KeptHasReason(dist, points, m, last, bound, k);
    }
  }
}
