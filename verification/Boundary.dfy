/**
 Fitting a region boundary into its byte budget (api/geojson_import.py): rings are lists that the first
 pass closes in place, and tolerances are tried in order until the result is small enough.
 */
module Boundary {
  import opened Basics
  import opened Polyline
  import opened RingShape

  /** A Polygon's rings, or a MultiPolygon's rings per part. */
  datatype Geometry<+R> = Polygon(rings: seq<R>) | MultiPolygon(parts: seq<seq<R>>)

  /** The last is no refusal but a failure that nothing turns into an answer. */
  datatype BoundaryError = NoUsableArea | StillTooDetailed | CannotMeasure

  const MAX_BYTES := 400_000
  const TOLERANCES: seq<real> := [0.0, 0.00001, 0.00005, 0.0001, 0.0005, 0.001, 0.005, 0.01, 0.05]

  // ----- rings as values

  function Close(ring: Line): Line
    requires ring != []
  {
    if IsClosed(ring) then ring else ring + [ring[0]]
  }

  /** What is stored for a ring, unless it collapses. */
  function RingResult(ring: Line, tolerance: real): Option<Line> {
    if |ring| < 4 then None
    else
      EndsStay(ring, tolerance);
      var out := Close(Simplified(ring, tolerance));
      if |out| >= 4 then Some(out) else None
  }

  /** What the first pass makes of the list itself. */
  function ClosedInPlace(ring: Line): Line {
    if |ring| < 4 then ring else Close(ring)
  }

  /** What a pass leaves of the list itself: the first one, at tolerance 0, closes it. */
  function LeftOf(ring: Line, tolerance: real): Line {
    if tolerance <= 0.0 then ClosedInPlace(ring) else ring
  }

  function LeftOver(rings: seq<Line>, tolerance: real): seq<Line> {
    if rings == [] then [] else [LeftOf(rings[0], tolerance)] + LeftOver(rings[1..], tolerance)
  }

  function RingsResult(rings: seq<Line>, tolerance: real): seq<Line> {
    if rings == [] then []
    else
      var r := RingResult(rings[0], tolerance);
      (if r.Some? then [r.value] else []) + RingsResult(rings[1..], tolerance)
  }

  function PartsResult(parts: seq<seq<Line>>, tolerance: real): seq<seq<Line>> {
    if parts == [] then []
    else
      var p := RingsResult(parts[0], tolerance);
      (if p != [] then [p] else []) + PartsResult(parts[1..], tolerance)
  }

  function GeometryResult(g: Geometry<Line>, tolerance: real): Geometry<Line> {
    match g
    case Polygon(rings) => Polygon(RingsResult(rings, tolerance))
    case MultiPolygon(parts) => MultiPolygon(PartsResult(parts, tolerance))
  }

  predicate NoCoordinates(g: Geometry<Line>) {
    match g
    case Polygon(rings) => rings == []
    case MultiPolygon(parts) => parts == []
  }

  // ----- positions that are no pairs

  /** Simplifying the ring fails on a position that is no pair. */
  predicate RingRaises(ring: Line, tolerance: real) {
    |ring| >= 4 && Raises(ring, tolerance)
  }

  predicate RingsRaise(rings: seq<Line>, tolerance: real) {
    exists r | r in rings :: RingRaises(r, tolerance)
  }

  predicate GeometryRaises(g: Geometry<Line>, tolerance: real) {
    match g
    case Polygon(rings) => RingsRaise(rings, tolerance)
    case MultiPolygon(parts) => exists p | p in parts :: RingsRaise(p, tolerance)
  }

  predicate Pairs(rings: seq<Line>) {
    forall r | r in rings && |r| >= 4 :: forall p | p in r :: p.more == []
  }

  /** The positions of every ring that has four are pairs. */
  predicate AllPairs(g: Geometry<Line>) {
    match g
    case Polygon(rings) => Pairs(rings)
    case MultiPolygon(parts) => forall p | p in parts :: Pairs(p)
  }

  lemma PairsDecide(rings: seq<Line>, tolerance: real)
    ensures RingsRaise(rings, tolerance) <==> tolerance > 0.0 && !Pairs(rings)
  {
    if tolerance > 0.0 && !Pairs(rings) {
      var r, p :| r in rings && |r| >= 4 && p in r && p.more != [];
      assert RingRaises(r, tolerance);
    }
  }

  // ----- what a stored boundary promises

  /** A linear ring: closed, four positions or more (RFC 7946, section 3.1.6). */
  predicate LinearRing(ring: Line) { |ring| >= 4 && IsClosed(ring) }

  ghost predicate AllLinear(g: Geometry<Line>) {
    match g
    case Polygon(rings) => forall r | r in rings :: LinearRing(r)
    case MultiPolygon(parts) => forall p | p in parts :: p != [] && forall r | r in p :: LinearRing(r)
  }

  lemma {:induction false} RingsAreLinear(rings: seq<Line>, tolerance: real)
    ensures forall r | r in RingsResult(rings, tolerance) :: LinearRing(r)
  {
    if rings != [] {
      RingsAreLinear(rings[1..], tolerance);
      RingIsLinear(rings[0], tolerance);
    }
  }

  lemma RingIsLinear(ring: Line, tolerance: real)
    ensures RingResult(ring, tolerance).Some? ==> LinearRing(RingResult(ring, tolerance).value)
  {
    if |ring| >= 4 {
      EndsStay(ring, tolerance);
    }
  }

  lemma {:induction false} PartsAreLinear(parts: seq<seq<Line>>, tolerance: real)
    ensures forall p | p in PartsResult(parts, tolerance) :: p != [] && forall r | r in p :: LinearRing(r)
  {
    if parts != [] {
      PartsAreLinear(parts[1..], tolerance);
      RingsAreLinear(parts[0], tolerance);
    }
  }

  /** Whatever is stored consists of linear rings. */
  lemma StoredIsLinear(g: Geometry<Line>, tolerance: real)
    ensures AllLinear(GeometryResult(g, tolerance))
  {
    match g
    case Polygon(rings) => RingsAreLinear(rings, tolerance);
    case MultiPolygon(parts) => PartsAreLinear(parts, tolerance);
  }

  /** A second pass at tolerance 0 changes nothing: the first one closed every ring. */
  lemma ClosedTwice(ring: Line)
    ensures ClosedInPlace(ClosedInPlace(ring)) == ClosedInPlace(ring)
    ensures RingResult(ClosedInPlace(ring), 0.0) == RingResult(ring, 0.0)
  {
  }

  /** Once its list is closed, a ring needs no closing at any tolerance: it keeps a subset of its own positions. */
  lemma ClosedNeedsNoClosing(ring: Line, tolerance: real)
    requires |ring| >= 4
    ensures Simplified(ClosedInPlace(ring), tolerance) != []
    ensures Close(Simplified(ClosedInPlace(ring), tolerance)) == Simplified(ClosedInPlace(ring), tolerance)
  {
    var closed := ClosedInPlace(ring);
    EndsStay(closed, tolerance);
    assert IsClosed(closed);
    assert IsClosed(Simplified(closed, tolerance));
  }

  // ----- what is stored of a document

  /** `out` lists the positions `at` of `ring`: those the recursive algorithm keeps, and no more. */
  ghost predicate ThinnedTo(ring: Line, at: seq<nat>, out: Line, tolerance: real)
    requires |ring| >= 3
  {
    Lists(ring, at, out) && LeavesOutNear(ring, at, tolerance) && KeepsNeeded(ring, at, tolerance)
  }

  /** `out` is the ring at the positions `at`, in order, the first and last among them. */
  ghost predicate Lists(ring: Line, at: seq<nat>, out: Line)
    requires |ring| >= 3
  {
    && |at| == |out| && 2 <= |at| && at[0] == 0 && at[|at|-1] == |ring| - 1
    && (forall i, j | 0 <= i < j < |at| :: at[i] < at[j])
    && (forall i | 0 <= i < |at| :: at[i] < |ring| && out[i] == ring[at[i]])
  }

  ghost predicate LeavesOutNear(ring: Line, at: seq<nat>, tolerance: real) {
    forall i, j | 0 <= i < |at| - 1 && at[i] < j < at[i+1] :: NearBetween(ring, at, i, j, tolerance)
  }

  ghost predicate KeepsNeeded(ring: Line, at: seq<nat>, tolerance: real)
    requires |ring| >= 3
  {
    && (forall k | k in at :: k == 0 || k == |ring| - 1 || Needed(ring, k, tolerance))
    && (forall k :: k in at <==> k in KeptAt(ring, tolerance))
  }

  /** Position `j`, left out, lies within the tolerance of the segment between its neighbours. */
  ghost predicate NearBetween(ring: Line, at: seq<nat>, i: nat, j: nat, tolerance: real)
    requires i < |at| - 1
  {
    at[i] < j < at[i+1] < |ring| && Dist2(ring[j], ring[at[i]], ring[at[i+1]]) <= Sq(tolerance)
  }

  /** Position `k` is the farthest of a stretch that is not within the tolerance of its chord and whose ends are kept. */
  ghost predicate Needed(ring: Line, k: nat, tolerance: real)
    requires |ring| >= 3
  {
    exists lo, hi :: HasReason(Dist2, ring, KeptAt(ring, tolerance), Sq(tolerance), lo, k, hi)
  }

  ghost predicate Thinned(ring: Line, out: Line, tolerance: real)
    requires |ring| >= 3
  {
    exists at :: ThinnedTo(ring, at, out, tolerance)
  }

  /** Nothing is stored of a ring of fewer than four positions, or that lies along a segment. */
  ghost predicate RingDropped(ring: Line, tolerance: real) {
    |ring| < 4 || (tolerance > 0.0 && Narrow(if ring[0] == ring[|ring|-1] then ring else ring + [ring[0]], tolerance))
  }

  /** `out` is stored of a ring: the ring closed, thinned out unless the tolerance is 0. */
  ghost predicate RingStored(ring: Line, out: Line, tolerance: real) {
    && !RingDropped(ring, tolerance) && |out| >= 4
    && var closed := if ring[0] == ring[|ring|-1] then ring else ring + [ring[0]];
       if tolerance > 0.0 then Thinned(closed, out, tolerance) else out == closed
  }

  /** Of each ring in turn what is stored of it, if anything. */
  ghost predicate RingsStored(rings: seq<Line>, out: seq<Line>, tolerance: real) {
    if rings == [] then out == []
    else if RingDropped(rings[0], tolerance) then RingsStored(rings[1..], out, tolerance)
    else out != [] && RingStored(rings[0], out[0], tolerance) && RingsStored(rings[1..], out[1..], tolerance)
  }

  /** Of each part in turn its rings, unless none is left. */
  ghost predicate PartsStored(parts: seq<seq<Line>>, out: seq<seq<Line>>, tolerance: real) {
    if parts == [] then out == []
    else if RingsStored(parts[0], [], tolerance) then PartsStored(parts[1..], out, tolerance)
    else out != [] && RingsStored(parts[0], out[0], tolerance) && PartsStored(parts[1..], out[1..], tolerance)
  }

  ghost predicate GeometryStored(document: Geometry<Line>, out: Geometry<Line>, tolerance: real) {
    match document
    case Polygon(rings) => out.Polygon? && RingsStored(rings, out.rings, tolerance)
    case MultiPolygon(parts) => out.MultiPolygon? && PartsStored(parts, out.parts, tolerance)
  }

  ghost predicate Rising(at: seq<nat>) {
    forall i, j | 0 <= i < j < |at| :: at[i] < at[j]
  }

  lemma LastIsLargest(at: seq<nat>, i: nat, n: nat)
    requires Rising(at) && i < |at| && at[i] == n - 1 && forall j | 0 <= j < |at| :: at[j] < n
    ensures i == |at| - 1
  {
    assert at[|at|-1] < n;
  }

  lemma NotBetween(at: seq<nat>, i: nat, k: nat)
    requires Rising(at) && i < |at| - 1 && at[i] < k < at[i+1]
    ensures k !in at
  {
  }

  lemma PositionsEnds(ring: Line, tolerance: real)
    requires |ring| >= 3
    ensures var at := Positions(|ring|, KeptAt(ring, tolerance));
            |at| >= 2 && at[0] == 0 && at[|at|-1] == |ring| - 1
  {
    var kept := KeptAt(ring, tolerance);
    var at := Positions(|ring|, kept);
    FirstPosition(|ring|, kept);
    PositionsComplete(|ring|, kept, |ring| - 1);
    var i :| 0 <= i < |at| && at[i] == |ring| - 1;
    LastIsLargest(at, i, |ring|);
  }

  lemma PositionsAre(n: nat, kept: set<nat>)
    requires forall k | k in kept :: k < n
    ensures Rising(Positions(n, kept)) && forall k :: k in Positions(n, kept) <==> k in kept
  {
    forall k | k in kept ensures k in Positions(n, kept) {
      PositionsComplete(n, kept, k);
    }
  }

  lemma DroppedBetween(ring: Line, tolerance: real, at: seq<nat>, i: nat, j: nat)
    requires |ring| >= 3 && tolerance > 0.0 && Rising(at) && forall k :: k in at <==> k in KeptAt(ring, tolerance)
    requires i < |at| - 1 && at[i] < j < at[i+1] < |ring|
    ensures Dist2(ring[j], ring[at[i]], ring[at[i+1]]) <= Sq(tolerance)
  {
    NotBetween(at, i, j);
    var lo, hi := SimplifiedStaysClose(ring, tolerance, j);
    Neighbours(at, i, lo, j, hi);
  }

  lemma Neighbours(at: seq<nat>, i: nat, lo: nat, j: nat, hi: nat)
    requires Rising(at) && i < |at| - 1 && at[i] < j < at[i+1]
    requires lo < j < hi && lo in at && hi in at && forall k | lo < k < hi :: k !in at
    ensures lo == at[i] && hi == at[i+1]
  {
    assert at[i] in at && at[i+1] in at;
    if at[i] < lo {
      NotBetween(at, i, lo);
    }
    if hi < at[i+1] {
      NotBetween(at, i, hi);
    }
  }

  lemma KeptIsNeeded(ring: Line, k: nat, tolerance: real)
    requires |ring| >= 3 && k in KeptAt(ring, tolerance) && 0 < k < |ring| - 1
    ensures Needed(ring, k, tolerance)
  {
    SquarePositive(tolerance);
    var lo, hi := KeptHasReason(Dist2, ring, 0, |ring| - 1, Sq(tolerance), k);
  }

  lemma AllNear(ring: Line, tolerance: real, at: seq<nat>)
    requires |ring| >= 3 && tolerance > 0.0 && Rising(at) && forall k :: k in at <==> k in KeptAt(ring, tolerance)
    ensures LeavesOutNear(ring, at, tolerance)
  {
    forall i, j | 0 <= i < |at| - 1 && at[i] < j < at[i+1] ensures NearBetween(ring, at, i, j, tolerance) {
      assert at[i+1] in at;
      DroppedBetween(ring, tolerance, at, i, j);
    }
  }

  lemma AllNeeded(ring: Line, tolerance: real)
    requires |ring| >= 3
    ensures forall k | k in KeptAt(ring, tolerance) :: k == 0 || k == |ring| - 1 || Needed(ring, k, tolerance)
  {
    forall k | k in KeptAt(ring, tolerance) && 0 < k < |ring| - 1 ensures Needed(ring, k, tolerance) {
      KeptIsNeeded(ring, k, tolerance);
    }
  }

  lemma SimplifiedLists(ring: Line, tolerance: real)
    requires |ring| >= 3 && tolerance > 0.0
    ensures Lists(ring, Positions(|ring|, KeptAt(ring, tolerance)), Simplified(ring, tolerance))
  {
    PositionsEnds(ring, tolerance);
  }

  lemma PositionsLeaveNear(ring: Line, tolerance: real)
    requires |ring| >= 3 && tolerance > 0.0
    ensures LeavesOutNear(ring, Positions(|ring|, KeptAt(ring, tolerance)), tolerance)
  {
    PositionsAre(|ring|, KeptAt(ring, tolerance));
    AllNear(ring, tolerance, Positions(|ring|, KeptAt(ring, tolerance)));
  }

  lemma PositionsNeeded(ring: Line, tolerance: real)
    requires |ring| >= 3
    ensures KeepsNeeded(ring, Positions(|ring|, KeptAt(ring, tolerance)), tolerance)
  {
    PositionsAre(|ring|, KeptAt(ring, tolerance));
    AllNeeded(ring, tolerance);
  }

  lemma ThinnedAt(ring: Line, at: seq<nat>, out: Line, tolerance: real)
    requires |ring| >= 3 && Lists(ring, at, out) && LeavesOutNear(ring, at, tolerance) && KeepsNeeded(ring, at, tolerance)
    ensures Thinned(ring, out, tolerance)
  {
    assert ThinnedTo(ring, at, out, tolerance);
  }

  lemma SimplifiedIsThinned(ring: Line, tolerance: real)
    requires |ring| >= 3 && tolerance > 0.0
    ensures Thinned(ring, Simplified(ring, tolerance), tolerance)
  {
    SimplifiedLists(ring, tolerance);
    PositionsLeaveNear(ring, tolerance);
    PositionsNeeded(ring, tolerance);
    ThinnedAt(ring, Positions(|ring|, KeptAt(ring, tolerance)), Simplified(ring, tolerance), tolerance);
  }

  lemma SimplifiedSize(ring: Line, tolerance: real)
    requires |ring| >= 4 && IsClosed(ring) && tolerance > 0.0
    ensures |Simplified(ring, tolerance)| < 4 <==> Narrow(ring, tolerance)
  {
    SquarePositive(tolerance);
    PositionsCount(|ring|, KeptAt(ring, tolerance));
    NarrowKeepsFew(ring, tolerance);
  }

  /** What one pass makes of a list: thinned out unless the tolerance is 0, then closed, and nothing below four positions. */
  ghost predicate RingComes(ring: Line, result: Option<Line>, tolerance: real) {
    if |ring| < 4 then result == None
    else exists kept :: IsThin(ring, kept, tolerance) && Shut(kept, result)
  }

  ghost predicate IsThin(ring: Line, kept: Line, tolerance: real)
    requires |ring| >= 3
  {
    kept != [] && if tolerance > 0.0 then Thinned(ring, kept, tolerance) else kept == ring
  }

  ghost predicate Shut(kept: Line, result: Option<Line>)
    requires kept != []
  {
    var closed := if kept[0] == kept[|kept|-1] then kept else kept + [kept[0]];
    result == if |closed| >= 4 then Some(closed) else None
  }

  lemma SimplifiedIsThin(ring: Line, tolerance: real)
    requires |ring| >= 3
    ensures IsThin(ring, Simplified(ring, tolerance), tolerance)
  {
    EndsStay(ring, tolerance);
    if tolerance > 0.0 {
      SimplifiedIsThinned(ring, tolerance);
    }
  }

  lemma SimplifiedIsShut(ring: Line, tolerance: real)
    requires |ring| >= 4 && Simplified(ring, tolerance) != []
    ensures Shut(Simplified(ring, tolerance), RingResult(ring, tolerance))
  {
  }

  lemma RingComesTo(ring: Line, tolerance: real)
    ensures RingComes(ring, RingResult(ring, tolerance), tolerance)
  {
    if |ring| >= 4 {
      SimplifiedIsThin(ring, tolerance);
      SimplifiedIsShut(ring, tolerance);
    }
  }

  /** What a ring comes to, told from the ring alone. */
  lemma RingIsStored(ring: Line, tolerance: real)
    ensures RingResult(ClosedInPlace(ring), tolerance).None? <==> RingDropped(ring, tolerance)
    ensures RingResult(ClosedInPlace(ring), tolerance).Some? ==>
              RingStored(ring, RingResult(ClosedInPlace(ring), tolerance).value, tolerance)
  {
    if |ring| >= 4 {
      ClosedNeedsNoClosing(ring, tolerance);
      if tolerance > 0.0 {
        ClosedIsStored(ClosedInPlace(ring), tolerance);
      }
    }
  }

  lemma ClosedIsStored(ring: Line, tolerance: real)
    requires |ring| >= 4 && IsClosed(ring) && tolerance > 0.0
    requires Simplified(ring, tolerance) != [] && Close(Simplified(ring, tolerance)) == Simplified(ring, tolerance)
    ensures RingResult(ring, tolerance) == if Narrow(ring, tolerance) then None else Some(Simplified(ring, tolerance))
    ensures Thinned(ring, Simplified(ring, tolerance), tolerance)
  {
    SimplifiedIsThinned(ring, tolerance);
    SimplifiedSize(ring, tolerance);
  }

  lemma {:induction false} RingsAreStored(rings: seq<Line>, tolerance: real)
    ensures RingsStored(rings, RingsResult(LeftOver(rings, 0.0), tolerance), tolerance)
  {
    if rings != [] {
      var closed := LeftOver(rings, 0.0);
      assert closed[1..] == LeftOver(rings[1..], 0.0);
      RingIsStored(rings[0], tolerance);
      RingsAreStored(rings[1..], tolerance);
      var rest := RingsResult(closed[1..], tolerance);
      var r := RingResult(closed[0], tolerance);
      if r.Some? {
        assert ([r.value] + rest)[1..] == rest;
      } else {
        assert [] + rest == rest;
      }
    }
  }

  /** What is stored of rings is determined as far as whether anything is. */
  lemma {:induction false} NothingStored(rings: seq<Line>, out: seq<Line>, tolerance: real)
    requires RingsStored(rings, out, tolerance)
    ensures RingsStored(rings, [], tolerance) <==> out == []
  {
    if rings != [] && RingDropped(rings[0], tolerance) {
      NothingStored(rings[1..], out, tolerance);
    }
  }

  lemma {:induction false} PartsAreStored(parts: seq<seq<Line>>, tolerance: real)
    ensures PartsStored(parts, PartsResult(CloseParts(parts), tolerance), tolerance)
  {
    if parts != [] {
      var closed := CloseParts(parts);
      assert closed[1..] == CloseParts(parts[1..]);
      RingsAreStored(parts[0], tolerance);
      PartsAreStored(parts[1..], tolerance);
      var p, rest := RingsResult(closed[0], tolerance), PartsResult(closed[1..], tolerance);
      NothingStored(parts[0], p, tolerance);
      if p != [] {
        assert ([p] + rest)[1..] == rest;
      } else {
        assert [] + rest == rest;
      }
    }
  }

  /** What a tolerance stores, told from the document alone. */
  lemma CandidateIsStored(document: Geometry<Line>, k: nat)
    requires k < |TOLERANCES|
    ensures GeometryStored(document, Candidate(document, k), TOLERANCES[k])
  {
    match document
    case Polygon(rings) => RingsAreStored(rings, TOLERANCES[k]);
    case MultiPolygon(parts) => PartsAreStored(parts, TOLERANCES[k]);
  }

  // ----- one geometry from many

  function PartsOf(g: Geometry<Line>): seq<seq<Line>> {
    match g
    case Polygon(rings) => [rings]
    case MultiPolygon(parts) => parts
  }

  function AllParts(gs: seq<Geometry<Line>>): seq<seq<Line>> {
    if gs == [] then [] else PartsOf(gs[0]) + AllParts(gs[1..])
  }

  /** One geometry holding every part of the features, in file order. */
  method Merge(gs: seq<Geometry<Line>>) returns (g: Geometry<Line>)
    ensures PartsOf(g) == AllParts(gs)
    ensures g.Polygon? <==> |AllParts(gs)| == 1
  {
    var parts: seq<seq<Line>> := [];
    for i := 0 to |gs|
      invariant parts + AllParts(gs[i..]) == AllParts(gs)
    {
      parts := parts + PartsOf(gs[i]);
    }
    g := if |parts| == 1 then Polygon(parts[0]) else MultiPolygon(parts);
  }

  // ----- rings as lists

  /** A list of positions, shared by whoever holds it. */
  class Ring {
    var positions: Line

    constructor (positions: Line)
      ensures this.positions == positions
    {
      this.positions := positions;
    }
  }

  /** No list occurs twice, as in any parsed document. */
  ghost predicate Unshared(rings: seq<Ring>) {
    forall i, j | 0 <= i < j < |rings| :: rings[i] != rings[j]
  }

  /**
   Simplifies one ring. At tolerance 0 the result is the very list that came in, closed in place; otherwise
   a new list, and the one that came in is left alone.
   */
  method SimplifyRing(ring: Ring, tolerance: real) returns (raised: bool, out: Ring?)
    modifies ring
    ensures raised <==> RingRaises(old(ring.positions), tolerance)
    ensures ring.positions == LeftOf(old(ring.positions), tolerance)
    ensures !raised ==> Outcome(out, RingResult(old(ring.positions), tolerance))
    ensures out != null ==> if tolerance <= 0.0 then out == ring else fresh(out)
  {
    if |ring.positions| < 4 {
      return false, null;
    }
    EndsStay(ring.positions, tolerance);
    var points := Simplify(ring.positions, tolerance);
    if points.None? {
      return true, null;
    }
    var list := if tolerance <= 0.0 then ring else null;
    if list == null {
      list := new Ring(points.value);
    }
    if list.positions[0] != list.positions[|list.positions|-1] {
      list.positions := list.positions + [list.positions[0]];
    }
    return false, if |list.positions| >= 4 then list else null;
  }

  /** `ring` is the list that holds `result`, if there is one. */
  ghost predicate Outcome(ring: Ring?, result: Option<Line>)
    reads ring
  {
    if ring == null then result.None? else result == Some(ring.positions)
  }

  /** What the lists hold. */
  function Values(rings: seq<Ring>): seq<Line>
    reads rings
  {
    if rings == [] then [] else [rings[0].positions] + Values(rings[1..])
  }

  /** Simplifies the rings of one polygon, first to last, dropping those that collapse. */
  method SimplifyRings(rings: seq<Ring>, tolerance: real) returns (raised: bool, out: seq<Ring>)
    requires Unshared(rings)
    modifies rings
    ensures raised <==> RingsRaise(old(Values(rings)), tolerance)
    ensures !raised ==> Values(out) == RingsResult(old(Values(rings)), tolerance)
    ensures !raised ==> Values(rings) == LeftOver(old(Values(rings)), tolerance)
    ensures forall r | r in out :: r in rings || fresh(r)
    decreases 2 * |rings|
  {
    if rings == [] {
      return false, [];
    }
    Combined(rings[0].positions, Values(rings[1..]), tolerance);
    raised, out := SimplifyFirst(rings[0], rings[1..], tolerance);
  }

  method SimplifyFirst(first: Ring, others: seq<Ring>, tolerance: real) returns (raised: bool, out: seq<Ring>)
    requires first !in others && Unshared(others)
    modifies first, others
    ensures raised <==> RingRaises(old(first.positions), tolerance) || RingsRaise(old(Values(others)), tolerance)
    ensures !raised ==> first.positions == LeftOf(old(first.positions), tolerance)
    ensures !raised ==> Values(others) == LeftOver(old(Values(others)), tolerance)
    ensures !raised ==> var r := RingResult(old(first.positions), tolerance);
                        Values(out) == (if r.Some? then [r.value] else []) + RingsResult(old(Values(others)), tolerance)
    ensures forall r | r in out :: r == first || r in others || fresh(r)
    decreases 2 * |others| + 1
  {
    var simplified, rest;
    raised, simplified := SimplifyRing(first, tolerance);
    if raised {
      return true, [];
    }
    raised, rest := SimplifyRings(others, tolerance);
    out := WithFirst(simplified, rest);
  }

  /** The first ring's outcome in front of the others'. */
  function WithFirst(first: Ring?, rest: seq<Ring>): (out: seq<Ring>)
    reads first, rest
    ensures Values(out) == (if first == null then [] else [first.positions]) + Values(rest)
    ensures forall r | r in out :: r in rest || r == first
  {
    if first == null then rest
    else
      assert ([first] + rest)[1..] == rest;
      [first] + rest
  }

  lemma Combined(first: Line, rest: seq<Line>, tolerance: real)
    ensures var all, r := [first] + rest, RingResult(first, tolerance);
            && (RingsRaise(all, tolerance) <==> RingRaises(first, tolerance) || RingsRaise(rest, tolerance))
            && RingsResult(all, tolerance) == (if r.Some? then [r.value] else []) + RingsResult(rest, tolerance)
            && LeftOver(all, tolerance) == [LeftOf(first, tolerance)] + LeftOver(rest, tolerance)
  {
    assert ([first] + rest)[1..] == rest;
  }

  // ----- the fit

  /** The document's lists after a pass at tolerance 0. */
  function ClosedGeometry(g: Geometry<Line>): Geometry<Line> {
    match g
    case Polygon(rings) => Polygon(LeftOver(rings, 0.0))
    case MultiPolygon(parts) => MultiPolygon(CloseParts(parts))
  }

  function CloseParts(parts: seq<seq<Line>>): seq<seq<Line>> {
    if parts == [] then [] else [LeftOver(parts[0], 0.0)] + CloseParts(parts[1..])
  }

  /** Closing the lists first does not change what a pass at tolerance 0 stores. */
  lemma {:induction false} ClosingFirst(rings: seq<Line>)
    ensures RingsResult(LeftOver(rings, 0.0), 0.0) == RingsResult(rings, 0.0)
  {
    if rings != [] {
      ClosedTwice(rings[0]);
      ClosingFirst(rings[1..]);
      assert LeftOver(rings, 0.0)[1..] == LeftOver(rings[1..], 0.0);
    }
  }

  lemma {:induction false} ClosingPartsFirst(parts: seq<seq<Line>>)
    ensures PartsResult(CloseParts(parts), 0.0) == PartsResult(parts, 0.0)
  {
    if parts != [] {
      ClosingFirst(parts[0]);
      ClosingPartsFirst(parts[1..]);
      assert CloseParts(parts)[1..] == CloseParts(parts[1..]);
    }
  }

  /** What the k-th tolerance stores: every one of them works on the closed lists. */
  function Candidate(g: Geometry<Line>, k: nat): Geometry<Line>
    requires k < |TOLERANCES|
  {
    GeometryResult(ClosedGeometry(g), TOLERANCES[k])
  }

  predicate Storable(g: Geometry<Line>, size: Geometry<Line> -> nat) {
    !NoCoordinates(g) && size(g) <= MAX_BYTES
  }

  lemma {:induction false} ClosedPairs(rings: seq<Line>)
    ensures Pairs(LeftOver(rings, 0.0)) <==> Pairs(rings)
  {
    if rings != [] {
      ClosedPairs(rings[1..]);
      PairsCons(rings);
      PairsCons(LeftOver(rings, 0.0));
      assert LeftOver(rings, 0.0)[1..] == LeftOver(rings[1..], 0.0);
      assert forall p :: p in ClosedInPlace(rings[0]) <==> p in rings[0];
    }
  }

  lemma PairsCons(rings: seq<Line>)
    requires rings != []
    ensures Pairs(rings) <==> (|rings[0]| >= 4 ==> forall p | p in rings[0] :: p.more == []) && Pairs(rings[1..])
  {
    assert rings == [rings[0]] + rings[1..];
  }

  lemma {:induction false} ClosedPartsPairs(parts: seq<seq<Line>>)
    ensures (forall p | p in CloseParts(parts) :: Pairs(p)) <==> forall p | p in parts :: Pairs(p)
  {
    if parts != [] {
      ClosedPartsPairs(parts[1..]);
      ClosedPairs(parts[0]);
      assert parts == [parts[0]] + parts[1..];
    }
  }

  /** A pass over the closed lists fails exactly at a tolerance above 0 and on a ring with a position that is no pair. */
  lemma PassRaises(g: Geometry<Line>, tolerance: real)
    ensures GeometryRaises(ClosedGeometry(g), tolerance) <==> tolerance > 0.0 && !AllPairs(g)
  {
    match g
    case Polygon(rings) =>
      ClosedPairs(rings);
      PairsDecide(LeftOver(rings, 0.0), tolerance);
    case MultiPolygon(parts) =>
      ClosedPartsPairs(parts);
      forall p | p in CloseParts(parts) ensures RingsRaise(p, tolerance) <==> tolerance > 0.0 && !Pairs(p) {
        PairsDecide(p, tolerance);
      }
  }

  /**
   Tries the tolerances in order and stores the first result that has an area and fits the budget. `size`
   is the length of the encoded geometry.
   */
  method Fit(document: Geometry<Line>, size: Geometry<Line> -> nat)
    returns (res: Result<(Geometry<Line>, real), BoundaryError>)
    ensures res.Ok? ==> exists k | 0 <= k < |TOLERANCES| ::
              && res.value == (Candidate(document, k), TOLERANCES[k])
              && Storable(Candidate(document, k), size)
              && forall j | 0 <= j < k :: !Storable(Candidate(document, j), size)
    ensures res.Ok? ==> AllLinear(res.value.0)
    ensures res.Ok? ==> GeometryStored(document, res.value.0, res.value.1)
    ensures res == Err(NoUsableArea) <==> NoCoordinates(Candidate(document, 0))
    ensures res == Err(CannotMeasure) <==>
              && !NoCoordinates(Candidate(document, 0)) && !Storable(Candidate(document, 0), size)
              && !AllPairs(document)
    ensures res == Err(StillTooDetailed) <==>
              && !NoCoordinates(Candidate(document, 0)) && AllPairs(document)
              && forall k | 0 <= k < |TOLERANCES| :: !Storable(Candidate(document, k), size)
  {
    res := TryTolerances(document, size);
    if res.Ok? {
      ghost var k :| 0 <= k < |TOLERANCES| && res.value == (Candidate(document, k), TOLERANCES[k]);
      CandidateIsStored(document, k);
    }
  }

  method TryTolerances(document: Geometry<Line>, size: Geometry<Line> -> nat)
    returns (res: Result<(Geometry<Line>, real), BoundaryError>)
    ensures res.Ok? ==> exists k | 0 <= k < |TOLERANCES| ::
              && res.value == (Candidate(document, k), TOLERANCES[k])
              && Storable(Candidate(document, k), size)
              && forall j | 0 <= j < k :: !Storable(Candidate(document, j), size)
    ensures res.Ok? ==> AllLinear(res.value.0)
    ensures res == Err(NoUsableArea) <==> NoCoordinates(Candidate(document, 0))
    ensures res == Err(CannotMeasure) <==>
              && !NoCoordinates(Candidate(document, 0)) && !Storable(Candidate(document, 0), size)
              && !AllPairs(document)
    ensures res == Err(StillTooDetailed) <==>
              && !NoCoordinates(Candidate(document, 0)) && AllPairs(document)
              && forall k | 0 <= k < |TOLERANCES| :: !Storable(Candidate(document, k), size)
  {
    var geom := document;
    var normalised := GeometryResult(geom, 0.0);
    match geom {
      case Polygon(rings) => ClosingFirst(rings);
      case MultiPolygon(parts) => ClosingPartsFirst(parts);
    }
    // The pass closed the document's own lists.
    geom := ClosedGeometry(geom);
    if NoCoordinates(normalised) {
      return Err(NoUsableArea);
    }
    for k := 0 to |TOLERANCES|
      invariant forall j | 0 <= j < k :: !Storable(Candidate(document, j), size)
      invariant k > 1 ==> AllPairs(document)
    {
      var tolerance := TOLERANCES[k];
      PassRaises(document, tolerance);
      if GeometryRaises(geom, tolerance) {
        return Err(CannotMeasure);
      }
      var candidate := if tolerance != 0.0 then GeometryResult(geom, tolerance) else normalised;
      assert candidate == Candidate(document, k);
      if NoCoordinates(candidate) {
        continue;
      }
      if size(candidate) <= MAX_BYTES {
        StoredIsLinear(ClosedGeometry(document), tolerance);
        return Ok((candidate, tolerance));
      }
    }
    return Err(StillTooDetailed);
  }
}
