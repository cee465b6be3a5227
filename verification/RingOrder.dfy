/** Which of a polygon's rings is stored first once some collapse (api/geojson_import.py `_simplify_geometry`). */
module RingOrder {
  import opened Basics
  import opened Polyline
  import opened RingShape
  import opened Boundary

  /** Position of the first ring that does not collapse, or the number of rings. */
  function FirstKept(rings: seq<Line>, tolerance: real): nat {
    if rings == [] || RingResult(rings[0], tolerance).Some? then 0 else 1 + FirstKept(rings[1..], tolerance)
  }

  /** What is stored first is the first ring that does not collapse, whichever that is. */
  lemma {:induction false} FirstStored(rings: seq<Line>, tolerance: real)
    ensures var i := FirstKept(rings, tolerance);
            && i <= |rings|
            && (i == |rings| <==> RingsResult(rings, tolerance) == [])
            && (forall j | 0 <= j < i :: RingResult(rings[j], tolerance).None?)
            && (i < |rings| ==> RingResult(rings[i], tolerance) == Some(RingsResult(rings, tolerance)[0]))
  {
    if rings != [] && RingResult(rings[0], tolerance).None? {
      FirstStored(rings[1..], tolerance);
      assert forall j | 0 < j < |rings| :: rings[j] == rings[1..][j-1];
    }
  }

  // ----- when a ring collapses

  /** A closed ring collapses exactly when it keeps no more than three positions. */
  lemma KeepsFew(ring: Line, tolerance: real)
    requires |ring| >= 4 && IsClosed(ring) && tolerance > 0.0
    ensures RingResult(ring, tolerance).None? <==> |KeptAt(ring, tolerance)| < 4
  {
    EndsStay(ring, tolerance);
    SquarePositive(tolerance);
    PositionsCount(|ring|, KeptAt(ring, tolerance));
  }

  /**
   A closed ring collapses exactly when all of it lies within the tolerance of the segment from its start to the position
   farthest from there.
   */
  lemma CollapsesExactly(ring: Line, tolerance: real)
    requires |ring| >= 4 && IsClosed(ring) && tolerance > 0.0
    ensures RingResult(ring, tolerance).None? <==> Narrow(ring, tolerance)
  {
    NarrowKeepsFew(ring, tolerance);
    KeepsFew(ring, tolerance);
  }

  ghost predicate NearStart(ring: Line, tolerance: real)
    requires ring != []
  {
    forall i | 0 <= i < |ring| :: Gap2(ring[i], ring[0]) <= Sq(tolerance)
  }

  /** In particular when every position lies within the tolerance of the start. */
  lemma SmallRingCollapses(ring: Line, tolerance: real)
    requires |ring| >= 4 && IsClosed(ring) && tolerance > 0.0 && NearStart(ring, tolerance)
    ensures RingResult(ring, tolerance).None?
  {
    var m := Farthest(Dist2, ring, 0, |ring| - 1, |ring| - 1).1;
    FarthestFound(ring, m);
    forall i | 0 <= i < |ring| ensures Dist2(ring[i], ring[0], ring[m]) <= Sq(tolerance) {
      SegmentEnds(ring[i], ring[0], ring[m]);
    }
    assert AlongSegment(ring, m, tolerance);
    CollapsesExactly(ring, tolerance);
  }

  /**
   A polygon's own outer ring stays its outer ring exactly when it has four positions and, once closed and unless the
   tolerance is 0, does not lie along that segment.
   */
  lemma OuterStaysOuter(rings: seq<Line>, tolerance: real)
    requires rings != []
    ensures FirstKept(LeftOver(rings, 0.0), tolerance) == 0 <==>
            |rings[0]| >= 4 && (tolerance > 0.0 ==> !Narrow(ClosedInPlace(rings[0]), tolerance))
  {
    var outer := ClosedInPlace(rings[0]);
    if |rings[0]| >= 4 && tolerance > 0.0 {
      CollapsesExactly(outer, tolerance);
    }
  }

  // A half disc of radius 0.05 about the first position, and a right-angled hole inside it.
  const OUTER: Line := [At(0.0, 0.0), At(0.05, 0.0), At(0.04, 0.03), At(0.03, 0.04), At(0.0, 0.05),
                        At(-0.03, 0.04), At(-0.04, 0.03), At(-0.05, 0.0), At(0.0, 0.0)]
  const HOLE: Line := [At(0.0, 0.049), At(0.036, 0.013), At(-0.036, 0.013), At(0.0, 0.049)]

  /** A triangle keeps its corners when both lie far enough out. */
  lemma TriangleKept(dist: Metric, ring: Line, bound: real)
    requires |ring| == 4 && 0.0 <= bound
    requires dist(ring[1], ring[0], ring[3]) > bound && dist(ring[2], ring[0], ring[3]) <= dist(ring[1], ring[0], ring[3])
    requires dist(ring[2], ring[1], ring[3]) > bound
    ensures Kept(dist, ring, bound) == {0, 1, 2, 3}
  {
    var d := dist(ring[1], ring[0], ring[3]);
    assert Farthest(dist, ring, 0, 1, 3) == (0.0, 0);
    assert Farthest(dist, ring, 0, 2, 3) == (d, 1);
    assert Farthest(dist, ring, 0, 3, 3) == (d, 1);
    assert Farthest(dist, ring, 1, 2, 3) == (0.0, 1);
    assert Farthest(dist, ring, 1, 3, 3) == (dist(ring[2], ring[1], ring[3]), 2);
    assert Rdp(dist, ring, 1, 3, bound) == {2};
    assert Rdp(dist, ring, 0, 1, bound) == {};
  }

  lemma AllChosen(ring: Line)
    requires |ring| == 4
    ensures Chosen(ring, {0, 1, 2, 3}) == ring
  {
    var all := {0, 1, 2, 3};
    assert Positions(1, all) == [0] && Positions(2, all) == [0, 1] && Positions(3, all) == [0, 1, 2];
    assert Positions(4, all) == [0, 1, 2, 3];
  }

  lemma KeptWhole(ring: Line, tolerance: real)
    requires |ring| == 4 && IsClosed(ring) && tolerance > 0.0 && KeptAt(ring, tolerance) == {0, 1, 2, 3}
    ensures RingResult(ring, tolerance) == Some(ring)
  {
    AllChosen(ring);
    assert Simplified(ring, tolerance) == ring;
  }

  lemma HoleIsKept(hole: Line)
    requires hole == HOLE
    ensures RingResult(hole, 0.05) == Some(hole)
  {
    assert Foot(-0.072, 0.0, -0.036, 0.036) == 1.0;
    assert Dist2(HOLE[1], HOLE[0], HOLE[3]) == 0.002592 && Dist2(HOLE[2], HOLE[0], HOLE[3]) == 0.002592;
    assert Dist2(HOLE[2], HOLE[1], HOLE[3]) == 0.002592;
    assert Sq(0.05) == 0.0025;
    TriangleKept(Dist2, hole, Sq(0.05));
    KeptWhole(hole, 0.05);
  }

  lemma OuterIsSmall(i: nat)
    requires i < |OUTER|
    ensures Gap2(OUTER[i], OUTER[0]) <= 0.0025
  {
  }

  lemma LargeSquare(tolerance: real)
    requires tolerance >= 0.05
    ensures Sq(tolerance) >= 0.0025
  {
    ProductSign(tolerance - 0.05, tolerance + 0.05);
    assert (tolerance - 0.05) * (tolerance + 0.05) == Sq(tolerance) - 0.0025;
  }

  lemma OuterIsNear(outer: Line, tolerance: real)
    requires outer == OUTER && tolerance >= 0.05
    ensures |outer| == 9 && IsClosed(outer) && NearStart(outer, tolerance)
  {
    LargeSquare(tolerance);
    forall i | 0 <= i < |outer| ensures Gap2(outer[i], outer[0]) <= Sq(tolerance) {
      OuterIsSmall(i);
    }
  }

  lemma NearCollapses(outer: Line, tolerance: real)
    requires |outer| == 9 && IsClosed(outer) && NearStart(outer, tolerance) && tolerance >= 0.05
    ensures RingResult(outer, tolerance).None?
  {
    SmallRingCollapses(outer, tolerance);
  }

  lemma OuterCollapses(outer: Line, tolerance: real)
    requires outer == OUTER && tolerance >= 0.05
    ensures RingResult(outer, tolerance).None?
  {
    OuterIsNear(outer, tolerance);
    NearCollapses(outer, tolerance);
  }

  // ----- a document that is simplified that far

  /** A triangular island, a little more than 0.01 across in every direction. */
  function Island(x: real): Line {
    [At(x, 1.0), At(x + 0.02, 1.0), At(x + 0.01, 1.011), At(x, 1.0)]
  }

  function West(n: nat): real { 0.025 * n as real - 125.0 }

  /** Islands in a row, none touching another. */
  function Islands(n: nat): seq<seq<Line>> {
    if n == 0 then [] else [[Island(West(n))]] + Islands(n - 1)
  }

  /** A polygon with its hole, and the islands. */
  function Archipelago(outer: Line, hole: Line, n: nat): Geometry<Line> {
    MultiPolygon([[outer, hole]] + Islands(n))
  }

  function PositionsIn(rings: seq<Line>): nat {
    if rings == [] then 0 else |rings[0]| + PositionsIn(rings[1..])
  }

  function PositionsInParts(parts: seq<seq<Line>>): nat {
    if parts == [] then 0 else PositionsIn(parts[0]) + PositionsInParts(parts[1..])
  }

  function PositionCount(g: Geometry<Line>): nat {
    match g
    case Polygon(rings) => PositionsIn(rings)
    case MultiPolygon(parts) => PositionsInParts(parts)
  }

  lemma IslandDistances(x: real)
    ensures var r := Island(x);
            && Dist2(r[1], r[0], r[3]) == 0.0004 && Dist2(r[2], r[0], r[3]) == 0.000221
            && Dist2(r[2], r[1], r[3]) == 0.000121
  {
    assert Foot(-0.01, 0.011, -0.02, 0.0) == 0.5;
  }

  lemma IslandStays(x: real, tolerance: real)
    requires 0.0 <= tolerance <= 0.01
    ensures RingResult(Island(x), tolerance) == Some(Island(x))
  {
    if tolerance > 0.0 {
      IslandDistances(x);
      SquarePositive(tolerance);
      SmallSquare(tolerance);
      TriangleKept(Dist2, Island(x), Sq(tolerance));
      KeptWhole(Island(x), tolerance);
    }
  }

  lemma SmallSquare(tolerance: real)
    requires 0.0 <= tolerance <= 0.01
    ensures Sq(tolerance) <= 0.0001
  {
    ProductSign(0.01 - tolerance, 0.01 + tolerance);
    assert (0.01 - tolerance) * (0.01 + tolerance) == 0.0001 - Sq(tolerance);
  }

  lemma IslandGoes(x: real)
    ensures RingResult(Island(x), 0.05).None?
  {
    var r := Island(x);
    assert Gap2(r[1], r[0]) == 0.0004 && Gap2(r[2], r[0]) == 0.000221 && Gap2(r[0], r[0]) == 0.0;
    assert Sq(0.05) == 0.0025;
    SmallRingCollapses(r, 0.05);
  }

  predicate OnGlobe(rings: seq<Line>) {
    forall r | r in rings :: forall p | p in r :: -180.0 <= p.x <= 180.0 && -90.0 <= p.y <= 90.0
  }

  function OneOrNone<T>(r: Option<T>): seq<T> {
    if r.Some? then [r.value] else []
  }

  lemma OneRing(ring: Line, tolerance: real)
    ensures RingsResult([ring], tolerance) == OneOrNone(RingResult(ring, tolerance))
    ensures LeftOver([ring], 0.0) == [ClosedInPlace(ring)] && PositionsIn([ring]) == |ring|
  {
  }

  /** What a pass makes of the first part goes in front of the others. */
  lemma FirstPart(part: seq<Line>, rest: seq<seq<Line>>, tolerance: real)
    ensures var p := RingsResult(part, tolerance);
            PartsResult([part] + rest, tolerance) == (if p != [] then [p] else []) + PartsResult(rest, tolerance)
    ensures CloseParts([part] + rest) == [LeftOver(part, 0.0)] + CloseParts(rest)
    ensures PositionsInParts([part] + rest) == PositionsIn(part) + PositionsInParts(rest)
  {
    assert ([part] + rest)[1..] == rest;
  }

  /** The part comes through a pass as it is. */
  predicate Stays(part: seq<Line>, tolerance: real) {
    part != [] && RingsResult(part, tolerance) == part
  }

  predicate Goes(part: seq<Line>, tolerance: real) {
    RingsResult(part, tolerance) == []
  }

  lemma {:induction false} AllStay(parts: seq<seq<Line>>, tolerance: real)
    requires forall p | p in parts :: Stays(p, tolerance)
    ensures PartsResult(parts, tolerance) == parts
  {
    if parts != [] {
      AllStay(parts[1..], tolerance);
      assert Stays(parts[0], tolerance);
    }
  }

  lemma {:induction false} AllGo(parts: seq<seq<Line>>, tolerance: real)
    requires forall p | p in parts :: Goes(p, tolerance)
    ensures PartsResult(parts, tolerance) == []
  {
    if parts != [] {
      AllGo(parts[1..], tolerance);
      assert Goes(parts[0], tolerance);
    }
  }

  /** One closed ring of four positions, made of pairs and on the globe. */
  predicate FinePart(part: seq<Line>) {
    |part| == 1 && |part[0]| == 4 && IsClosed(part[0]) && Pairs(part) && OnGlobe(part)
  }

  lemma {:induction false} AllFine(parts: seq<seq<Line>>)
    requires forall p | p in parts :: FinePart(p)
    ensures CloseParts(parts) == parts && PositionsInParts(parts) == 4 * |parts|
  {
    if parts != [] {
      AllFine(parts[1..]);
      assert FinePart(parts[0]) && parts[0] == [parts[0][0]];
      OneRing(parts[0][0], 0.0);
    }
  }

  ghost predicate IsIsland(part: seq<Line>) {
    exists x :: part == [Island(x)] && -180.0 <= x <= 179.0
  }

  lemma {:induction false} IslandsAre(n: nat)
    requires n <= 12_000
    ensures |Islands(n)| == n && forall part | part in Islands(n) :: IsIsland(part)
  {
    if n > 0 {
      IslandsAre(n - 1);
      assert IsIsland([Island(West(n))]);
    }
  }

  lemma IslandIsFine(x: real)
    requires -180.0 <= x <= 179.0
    ensures FinePart([Island(x)])
  {
  }

  lemma OneStaysOrGoes(ring: Line, tolerance: real)
    ensures RingResult(ring, tolerance) == Some(ring) ==> Stays([ring], tolerance)
    ensures RingResult(ring, tolerance).None? ==> Goes([ring], tolerance)
  {
    OneRing(ring, tolerance);
  }

  lemma IslandIs(part: seq<Line>, tolerance: real)
    requires IsIsland(part) && 0.0 <= tolerance <= 0.01
    ensures FinePart(part) && Goes(part, 0.05) && Stays(part, tolerance)
  {
    var x :| part == [Island(x)] && -180.0 <= x <= 179.0;
    IslandIsFine(x);
    IslandGoes(x);
    OneStaysOrGoes(Island(x), 0.05);
    IslandStays(x, tolerance);
    OneStaysOrGoes(Island(x), tolerance);
  }

  /** The islands come through every tolerance up to 0.01 and are all gone at 0.05. */
  lemma IslandsResult(n: nat, tolerance: real)
    requires n <= 12_000 && 0.0 <= tolerance <= 0.01
    ensures forall part | part in Islands(n) :: FinePart(part)
    ensures PartsResult(Islands(n), tolerance) == Islands(n) && PartsResult(Islands(n), 0.05) == []
    ensures CloseParts(Islands(n)) == Islands(n) && PositionsInParts(Islands(n)) == 4 * n
  {
    IslandsAre(n);
    forall part | part in Islands(n) ensures FinePart(part) && Goes(part, 0.05) && Stays(part, tolerance) {
      IslandIs(part, tolerance);
    }
    AllStay(Islands(n), tolerance);
    AllGo(Islands(n), 0.05);
    AllFine(Islands(n));
  }

  lemma MainClosed(outer: Line, hole: Line)
    requires IsClosed(outer) && IsClosed(hole)
    ensures LeftOver([outer, hole], 0.0) == [outer, hole]
  {
    OneRing(hole, 0.0);
    assert [outer, hole][1..] == [hole];
  }

  predicate FineRing(ring: Line) {
    && IsClosed(ring)
    && forall p | p in ring :: p.more == [] && -180.0 <= p.x <= 180.0 && -90.0 <= p.y <= 90.0
  }

  lemma ConstantsAreFine()
    ensures FineRing(OUTER) && FineRing(HOLE)
  {
  }

  lemma MainIsFine(outer: Line, hole: Line)
    requires FineRing(outer) && FineRing(hole)
    ensures IsClosed(outer) && IsClosed(hole) && Pairs([outer, hole]) && OnGlobe([outer, hole])
  {
  }

  /** What the passes make of such a document, by what they make of its islands. */
  lemma MainFirst(outer: Line, hole: Line, islands: seq<seq<Line>>, tolerance: real)
    requires IsClosed(outer) && IsClosed(hole) && CloseParts(islands) == islands
    ensures CloseParts([[outer, hole]] + islands) == [[outer, hole]] + islands
    ensures PartsResult(islands, tolerance) == islands ==>
              PositionsInParts(PartsResult([[outer, hole]] + islands, tolerance)) >= PositionsInParts(islands)
    ensures PartsResult(islands, tolerance) == [] && RingsResult([outer, hole], tolerance) == [hole] ==>
              PartsResult([[outer, hole]] + islands, tolerance) == [[hole]]
  {
    MainClosed(outer, hole);
    FirstPart([outer, hole], islands, tolerance);
    var p := RingsResult([outer, hole], tolerance);
    if p == [] {
      assert [] + islands == islands;
    } else {
      FirstPart(p, islands, tolerance);
    }
  }

  lemma OneCollapses(outer: Line, hole: Line, tolerance: real)
    requires RingResult(outer, tolerance).None? && RingResult(hole, tolerance) == Some(hole)
    ensures RingsResult([outer, hole], tolerance) == [hole]
  {
    OneRing(hole, tolerance);
    assert [outer, hole][1..] == [hole];
  }

  lemma TooMany(outer: Line, hole: Line, n: nat, k: nat, size: Geometry<Line> -> nat)
    requires IsClosed(outer) && IsClosed(hole) && 10_001 <= n <= 12_000 && k < 8
    requires forall g :: size(g) >= 10 * PositionCount(g)
    ensures !Storable(Candidate(Archipelago(outer, hole, n), k), size)
  {
    var tolerance := TOLERANCES[k];
    IslandsResult(n, tolerance);
    MainFirst(outer, hole, Islands(n), tolerance);
    assert PositionCount(Candidate(Archipelago(outer, hole, n), k)) >= 4 * n;
  }

  lemma HoleIsLeft(outer: Line, hole: Line, n: nat)
    requires IsClosed(outer) && IsClosed(hole) && RingsResult([outer, hole], 0.05) == [hole] && n <= 12_000
    ensures Candidate(Archipelago(outer, hole, n), 8) == MultiPolygon([[hole]])
  {
    IslandsResult(n, 0.0);
    MainFirst(outer, hole, Islands(n), 0.05);
  }

  lemma AllAreFine(main: seq<Line>, islands: seq<seq<Line>>)
    requires Pairs(main) && OnGlobe(main) && forall part | part in islands :: FinePart(part)
    ensures forall part | part in [main] + islands :: Pairs(part) && OnGlobe(part)
  {
  }

  /** The outer ring collapses at the coarsest tolerance and the hole does not. */
  ghost predicate LeavesHole(outer: Line, hole: Line) {
    RingResult(outer, 0.05).None? && RingResult(hole, 0.05) == Some(hole)
  }

  /** Among enough islands the hole of such a polygon is stored as an outer ring, and nothing else. */
  lemma HoleIsStored(outer: Line, hole: Line, n: nat, size: Geometry<Line> -> nat)
    requires LeavesHole(outer, hole) && 10_001 <= n <= 12_000
    requires IsClosed(outer) && IsClosed(hole) && Pairs([outer, hole]) && OnGlobe([outer, hole])
    requires (forall g :: size(g) >= 10 * PositionCount(g)) && size(MultiPolygon([[hole]])) <= MAX_BYTES
    ensures var document := Archipelago(outer, hole, n);
            && AllPairs(document) && (forall part | part in document.parts :: OnGlobe(part))
            && (forall k | 0 <= k < 8 :: !Storable(Candidate(document, k), size))
            && TOLERANCES[8] == 0.05 && Candidate(document, 8) == MultiPolygon([[hole]])
            && Storable(Candidate(document, 8), size)
  {
    IslandsResult(n, 0.0);
    AllAreFine([outer, hole], Islands(n));
    forall k | 0 <= k < 8 ensures !Storable(Candidate(Archipelago(outer, hole, n), k), size) {
      TooMany(outer, hole, n, k, size);
    }
    OneCollapses(outer, hole, 0.05);
    HoleIsLeft(outer, hole, n);
  }

  /**
   A document of which the hole is stored, as an outer ring, and nothing else: with ten bytes or more to a position every
   finer tolerance leaves more than the budget.
   */
  lemma HoleBecomesOuter(size: Geometry<Line> -> nat)
    requires (forall g :: size(g) >= 10 * PositionCount(g)) && size(MultiPolygon([[HOLE]])) <= MAX_BYTES
    ensures exists document: Geometry<Line> ::
              && document.MultiPolygon? && |document.parts| == 10_002 && document.parts[0] == [OUTER, HOLE]
              && AllPairs(document) && (forall part | part in document.parts :: OnGlobe(part))
              && (forall k | 0 <= k < 8 :: !Storable(Candidate(document, k), size))
              && Candidate(document, 8) == MultiPolygon([[HOLE]]) && Storable(Candidate(document, 8), size)
  {
    Built(OUTER, HOLE, 10_001, size);
  }

  lemma Built(outer: Line, hole: Line, n: nat, size: Geometry<Line> -> nat)
    requires outer == OUTER && hole == HOLE && n == 10_001
    requires (forall g :: size(g) >= 10 * PositionCount(g)) && size(MultiPolygon([[hole]])) <= MAX_BYTES
    ensures exists document: Geometry<Line> ::
              && document.MultiPolygon? && |document.parts| == n + 1 && document.parts[0] == [outer, hole]
              && AllPairs(document) && (forall part | part in document.parts :: OnGlobe(part))
              && (forall k | 0 <= k < 8 :: !Storable(Candidate(document, k), size))
              && Candidate(document, 8) == MultiPolygon([[hole]]) && Storable(Candidate(document, 8), size)
  {
    ConstantsAreFine();
    MainIsFine(outer, hole);
    HoleIsKept(hole);
    OuterCollapses(outer, 0.05);
    HoleIsStored(outer, hole, n, size);
    IslandsAre(n);
  }
}
