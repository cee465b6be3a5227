/**
 Ramer-Douglas-Peucker with an explicit stack and a keep array (api/geojson_import.py `simplify`).
 Coordinates are reals; distances are compared by their squares, which orders them the same way.
 */
module Polyline {
  import opened Basics

  /** A position; `more` are the coordinates beyond the first two, such as an altitude. */
  datatype Point = Point(x: real, y: real, more: seq<real>)

  function At(x: real, y: real): Point { Point(x, y, []) }

  function Sq(v: real): real { v * v }

  function Gap2(p: Point, q: Point): real { Sq(p.x - q.x) + Sq(p.y - q.y) }

  /** The point a fraction `t` of the way from `a` to `b`. */
  function Along(a: Point, b: Point, t: real): Point {
    At(a.x + t * (b.x - a.x), a.y + t * (b.y - a.y))
  }

  function Clamped(t: real): real {
    if t < 0.0 then 0.0 else if t > 1.0 then 1.0 else t
  }

  /** Where the offset (`ux`, `uy`) projects onto the direction (`dx`, `dy`), as a fraction clamped to the segment. */
  function Foot(ux: real, uy: real, dx: real, dy: real): real
    requires dx != 0.0 || dy != 0.0
  {
    SquaresPositive(dx, dy);
    Clamped((ux * dx + uy * dy) / (Sq(dx) + Sq(dy)))
  }

  /** Squared distance from `p` to the segment from `a` to `b`. */
  function Dist2(p: Point, a: Point, b: Point): real {
    var dx, dy := b.x - a.x, b.y - a.y;
    if dx == 0.0 && dy == 0.0 then Gap2(p, a)
    else Gap2(p, Along(a, b, Foot(p.x - a.x, p.y - a.y, dx, dy)))
  }

  lemma SquarePositive(v: real)
    ensures Sq(v) >= 0.0
    ensures v != 0.0 ==> Sq(v) > 0.0
  {
    if v > 0.0 {
      calc { Sq(v); == v * v; > { ProductPositive(v, v); } 0.0; }
    } else if v < 0.0 {
      calc { Sq(v); == v * v; == (-v) * (-v); > { ProductPositive(-v, -v); } 0.0; }
    }
  }

  lemma ProductPositive(a: real, b: real)
    ensures a > 0.0 && b > 0.0 ==> a * b > 0.0
  {
  }

  lemma SquaresPositive(dx: real, dy: real)
    ensures Sq(dx) >= 0.0 && Sq(dy) >= 0.0
    ensures dx != 0.0 || dy != 0.0 ==> Sq(dx) + Sq(dy) > 0.0
  {
    SquarePositive(dx);
    SquarePositive(dy);
  }

  lemma ProductSign(a: real, b: real)
    ensures a >= 0.0 && b >= 0.0 ==> a * b >= 0.0
    ensures a <= 0.0 && b <= 0.0 ==> a * b >= 0.0
  {
  }

  lemma GapAlong(p: Point, a: Point, b: Point, ux: real, uy: real, dx: real, dy: real, s: real)
    requires ux == p.x - a.x && uy == p.y - a.y && dx == b.x - a.x && dy == b.y - a.y
    ensures Gap2(p, Along(a, b, s)) == Sq(ux - s * dx) + Sq(uy - s * dy)
  {
    assert p.x - Along(a, b, s).x == ux - s * dx;
    assert p.y - Along(a, b, s).y == uy - s * dy;
  }

  lemma PlaneDiffers(ux: real, uy: real, dx: real, dy: real, s: real, t: real)
    ensures Sq(ux - s * dx) + Sq(uy - s * dy) - (Sq(ux - t * dx) + Sq(uy - t * dy))
         == (s - t) * ((s + t) * (Sq(dx) + Sq(dy)) - 2.0 * (ux * dx + uy * dy))
  {
    AxisDiffers(ux, dx, s, t);
    AxisDiffers(uy, dy, s, t);
    Factor(s - t, s + t, Sq(dx), Sq(dy), ux * dx, uy * dy);
  }

  lemma AxisDiffers(u: real, d: real, s: real, t: real)
    ensures Sq(u - s * d) - Sq(u - t * d) == (s - t) * ((s + t) * Sq(d) - 2.0 * (u * d))
  {
  }

  lemma Factor(m: real, n: real, dx: real, dy: real, cx: real, cy: real)
    ensures m * (n * dx - 2.0 * cx) + m * (n * dy - 2.0 * cy) == m * (n * (dx + dy) - 2.0 * (cx + cy))
  {
  }

  /** The computed distance is the least over the whole segment, and some point of the segment attains it. */
  lemma NearestOnSegment(p: Point, a: Point, b: Point)
    ensures forall s | 0.0 <= s <= 1.0 :: Dist2(p, a, b) <= Gap2(p, Along(a, b, s))
    ensures exists s :: 0.0 <= s <= 1.0 && Dist2(p, a, b) == Gap2(p, Along(a, b, s))
  {
    var same := a.x == b.x && a.y == b.y;
    var t := if same then 0.0 else Foot(p.x - a.x, p.y - a.y, b.x - a.x, b.y - a.y);
    assert same ==> Gap2(p, Along(a, b, t)) == Gap2(p, a);
    assert 0.0 <= t <= 1.0 && Dist2(p, a, b) == Gap2(p, Along(a, b, t));
    forall s | 0.0 <= s <= 1.0 ensures Gap2(p, Along(a, b, t)) <= Gap2(p, Along(a, b, s)) {
      if same {
        assert Along(a, b, s) == Along(a, b, t);
      } else {
        FootIsNearest(p, a, b, p.x - a.x, p.y - a.y, b.x - a.x, b.y - a.y, s, t);
      }
    }
  }

  lemma FootIsNearest(p: Point, a: Point, b: Point, ux: real, uy: real, dx: real, dy: real, s: real, t: real)
    requires ux == p.x - a.x && uy == p.y - a.y && dx == b.x - a.x && dy == b.y - a.y
    requires (dx != 0.0 || dy != 0.0) && 0.0 <= s <= 1.0 && t == Foot(ux, uy, dx, dy)
    ensures Gap2(p, Along(a, b, t)) <= Gap2(p, Along(a, b, s))
  {
    PlaneNearest(ux, uy, dx, dy, s, t);
    GapAlong(p, a, b, ux, uy, dx, dy, s);
    GapAlong(p, a, b, ux, uy, dx, dy, t);
  }

  lemma PlaneNearest(ux: real, uy: real, dx: real, dy: real, s: real, t: real)
    requires (dx != 0.0 || dy != 0.0) && 0.0 <= s <= 1.0
    requires t == Foot(ux, uy, dx, dy)
    ensures Sq(ux - t * dx) + Sq(uy - t * dy) <= Sq(ux - s * dx) + Sq(uy - s * dy)
  {
    SquaresPositive(dx, dy);
    PlaneDiffers(ux, uy, dx, dy, s, t);
    FootSign(s, t, ux * dx + uy * dy, Sq(dx) + Sq(dy));
  }

  lemma FootSign(s: real, t: real, c: real, d: real)
    requires 0.0 < d && 0.0 <= s <= 1.0
    requires t == Clamped(c / d)
    ensures (s - t) * ((s + t) * d - 2.0 * c) >= 0.0
  {
    var q := c / d;
    assert q * d == c;
    ProductSign(s - t, s + t - 2.0 * q);
    ProductSign((s - t) * (s + t - 2.0 * q), d);
    Regroup(s - t, s + t, q, d, c);
  }

  lemma Regroup(m: real, n: real, q: real, d: real, c: real)
    requires q * d == c
    ensures m * (n * d - 2.0 * c) == (m * (n - 2.0 * q)) * d
  {
    assert (n - 2.0 * q) * d == n * d - 2.0 * (q * d);
  }

  // ----- the recursive algorithm

  /** A way to measure how far a point lies from the segment between two others. */
  type Metric = (Point, Point, Point) -> real

  /** Of the points strictly between `first` and `upto`, the farthest from the chord, the earliest on a tie. */
  function Farthest(dist: Metric, points: seq<Point>, first: nat, upto: nat, last: nat): (r: (real, nat))
    requires first < upto <= last < |points|
    ensures first <= r.1 < upto && 0.0 <= r.0
    ensures r.0 > 0.0 ==> first < r.1 && r.0 == dist(points[r.1], points[first], points[last])
    ensures forall i | first < i < upto :: dist(points[i], points[first], points[last]) <= r.0
  {
    if upto == first + 1 then (0.0, first)
    else
      var best := Farthest(dist, points, first, upto - 1, last);
      var d := dist(points[upto - 1], points[first], points[last]);
      if d > best.0 then (d, upto - 1) else best
  }

  /** The positions kept strictly between `first` and `last`. */
  function Rdp(dist: Metric, points: seq<Point>, first: nat, last: nat, bound: real): (kept: set<nat>)
    requires first < last < |points| && 0.0 <= bound
    ensures forall i | i in kept :: first < i < last
    decreases last - first
  {
    if last == first + 1 then {}
    else
      var worst := Farthest(dist, points, first, last, last);
      if worst.0 > bound then
        {worst.1} + Rdp(dist, points, first, worst.1, bound) + Rdp(dist, points, worst.1, last, bound)
      else {}
  }

  /** `lo` and `hi` are the kept positions next to `j`, and point `j` lies within the tolerance of the segment between them. */
  ghost predicate Near(dist: Metric, points: seq<Point>, kept: set<nat>, bound: real, lo: nat, j: nat, hi: nat) {
    && lo < j < hi < |points| && lo in kept && hi in kept
    && (forall i | lo < i < hi :: i !in kept)
    && dist(points[j], points[lo], points[hi]) <= bound
  }

  /** Every dropped point lies within the tolerance of the segment joining its two nearest kept neighbours. */
  lemma {:induction false} DroppedIsNear(dist: Metric, points: seq<Point>, first: nat, last: nat, bound: real, j: nat)
    returns (lo: nat, hi: nat)
    requires first < j < last < |points| && 0.0 <= bound
    requires j !in Rdp(dist, points, first, last, bound)
    ensures Near(dist, points, Rdp(dist, points, first, last, bound) + {first, last}, bound, lo, j, hi)
    ensures first <= lo && hi <= last
    decreases last - first
  {
    var worst := Farthest(dist, points, first, last, last);
    if worst.0 > bound {
      var mid := worst.1;
      var a, b := Rdp(dist, points, first, mid, bound), Rdp(dist, points, mid, last, bound);
      var all := {mid} + a + b + {first, last};
      if j < mid {
        lo, hi := DroppedIsNear(dist, points, first, mid, bound, j);
        NearAmongMore(dist, points, a + {first, mid}, all, bound, lo, j, hi);
      } else {
        lo, hi := DroppedIsNear(dist, points, mid, last, bound, j);
        NearAmongMore(dist, points, b + {mid, last}, all, bound, lo, j, hi);
      }
    } else {
      lo, hi := first, last;
    }
  }

  lemma NearAmongMore(dist: Metric, points: seq<Point>, few: set<nat>, all: set<nat>, bound: real, lo: nat, j: nat, hi: nat)
    requires Near(dist, points, few, bound, lo, j, hi)
    requires few <= all && forall i | i in all :: i in few || i <= lo || hi <= i
    ensures Near(dist, points, all, bound, lo, j, hi)
  {
  }

  /** The positions the whole line keeps. */
  function Kept(dist: Metric, points: seq<Point>, bound: real): set<nat>
    requires 3 <= |points| && 0.0 <= bound
  {
    Rdp(dist, points, 0, |points| - 1, bound) + {0, |points| - 1}
  }

  // ----- choosing points by position

  /** The positions below `n` in `kept`, in increasing order. */
  function Positions(n: nat, kept: set<nat>): (at: seq<nat>)
    ensures forall i | 0 <= i < |at| :: at[i] < n && at[i] in kept
    ensures forall i, j | 0 <= i < j < |at| :: at[i] < at[j]
  {
    if n == 0 then [] else Positions(n - 1, kept) + if n - 1 in kept then [n - 1] else []
  }

  /** No kept position is missed. */
  lemma {:induction false} PositionsComplete(n: nat, kept: set<nat>, k: nat)
    requires k < n && k in kept
    ensures k in Positions(n, kept)
  {
    if k < n - 1 {
      PositionsComplete(n - 1, kept, k);
    }
  }

  /** The points at the positions in `kept`, in order. */
  function Chosen(points: seq<Point>, kept: set<nat>): (out: seq<Point>)
    ensures |out| == |Positions(|points|, kept)|
    ensures forall i | 0 <= i < |out| :: out[i] == points[Positions(|points|, kept)[i]]
  {
    var at := Positions(|points|, kept);
    seq(|at|, i requires 0 <= i < |at| => points[at[i]])
  }

  /** The positions kept at a tolerance. */
  function KeptAt(points: seq<Point>, tolerance: real): set<nat>
    requires 3 <= |points|
  {
    SquarePositive(tolerance);
    Kept(Dist2, points, Sq(tolerance))
  }

  /** A point the simplified line drops lies within the tolerance of the segment between its kept neighbours. */
  lemma SimplifiedStaysClose(points: seq<Point>, tolerance: real, j: nat) returns (lo: nat, hi: nat)
    requires 0.0 < tolerance && 3 <= |points| && j < |points| && j !in KeptAt(points, tolerance)
    ensures Near(Dist2, points, KeptAt(points, tolerance), Sq(tolerance), lo, j, hi)
  {
    SquarePositive(tolerance);
    lo, hi := DroppedIsNear(Dist2, points, 0, |points| - 1, Sq(tolerance), j);
  }

  lemma {:induction false} FirstPosition(n: nat, kept: set<nat>)
    requires 0 < n && 0 in kept
    ensures Positions(n, kept) != [] && Positions(n, kept)[0] == 0
  {
    if n > 1 {
      FirstPosition(n - 1, kept);
    }
  }

  function Simplified(points: seq<Point>, tolerance: real): seq<Point> {
    if tolerance <= 0.0 || |points| < 3 then points
    else Chosen(points, KeptAt(points, tolerance))
  }

  /** The ends stay. */
  lemma EndsStay(points: seq<Point>, tolerance: real)
    requires points != []
    ensures Simplified(points, tolerance) != []
    ensures Simplified(points, tolerance)[0] == points[0]
    ensures var out := Simplified(points, tolerance); out[|out|-1] == points[|points|-1]
  {
    if tolerance > 0.0 && |points| >= 3 {
      FirstPosition(|points|, KeptAt(points, tolerance));
    }
  }

  // ----- the stack

  ghost predicate StackOk(points: seq<Point>, stack: seq<(nat, nat)>) {
    forall e | e in stack :: e.0 < e.1 < |points|
  }

  /** What the open stretches on the stack will still keep. */
  ghost function Pending(dist: Metric, points: seq<Point>, stack: seq<(nat, nat)>, bound: real): set<nat>
    requires StackOk(points, stack) && 0.0 <= bound
  {
    if stack == [] then {}
    else
      var top := stack[|stack|-1];
      Pending(dist, points, stack[..|stack|-1], bound) + Rdp(dist, points, top.0, top.1, bound)
  }

  /** Bounds the steps left: a stretch of length n splits into two whose counts add up to less. */
  ghost function Work(stack: seq<(nat, nat)>): nat
    requires forall e | e in stack :: e.0 < e.1
  {
    if stack == [] then 0
    else Work(stack[..|stack|-1]) + 2 * (stack[|stack|-1].1 - stack[|stack|-1].0) - 1
  }

  lemma PushTwo(dist: Metric, points: seq<Point>, stack: seq<(nat, nat)>, a: (nat, nat), b: (nat, nat), bound: real)
    requires StackOk(points, stack + [a] + [b]) && StackOk(points, stack) && a.0 < a.1 < |points| && b.0 < b.1 < |points|
    requires 0.0 <= bound
    ensures Pending(dist, points, stack + [a] + [b], bound)
         == Pending(dist, points, stack, bound) + Rdp(dist, points, a.0, a.1, bound) + Rdp(dist, points, b.0, b.1, bound)
    ensures Work(stack + [a] + [b]) == Work(stack) + 2 * (a.1 - a.0) - 1 + 2 * (b.1 - b.0) - 1
  {
    var one := stack + [a];
    var two := one + [b];
    assert two[..|two|-1] == one && one[..|one|-1] == stack;
    assert StackOk(points, one);
  }

  /** The farthest point of a stretch from its chord. */
  method Worst(dist: Metric, points: seq<Point>, first: nat, last: nat) returns (worst: real, index: nat)
    requires first < last < |points|
    ensures (worst, index) == Farthest(dist, points, first, last, last)
  {
    worst, index := 0.0, first;
    for i := first + 1 to last
      invariant (worst, index) == Farthest(dist, points, first, i, last)
    {
      var d := dist(points[i], points[first], points[last]);
      if d > worst {
        worst, index := d, i;
      }
    }
  }

  /** The positions an array of flags marks. */
  ghost function Marked(keep: array<bool>): set<nat>
    reads keep
  {
    set i: nat | i < keep.Length && keep[i]
  }

  /** Handles one stretch: marks its farthest point and stacks both halves, unless every point is close enough. */
  method Split(dist: Metric, points: seq<Point>, keep: array<bool>, stack: seq<(nat, nat)>, first: nat, last: nat, bound: real)
    returns (more: seq<(nat, nat)>)
    requires keep.Length == |points| && StackOk(points, stack) && first < last < |points| && 0.0 <= bound
    modifies keep
    ensures StackOk(points, more)
    ensures Marked(keep) + Pending(dist, points, more, bound)
         == old(Marked(keep)) + Pending(dist, points, stack, bound) + Rdp(dist, points, first, last, bound)
    ensures Work(more) < Work(stack) + 2 * (last - first) - 1
  {
    more := stack;
    if last <= first + 1 {
      return;
    }
    var worst, index := Worst(dist, points, first, last);
    if worst > bound {
      keep[index] := true;
      assert Marked(keep) == old(Marked(keep)) + {index};
      more := stack + [(first, index)];
      more := more + [(index, last)];
      PushTwo(dist, points, stack, (first, index), (index, last), bound);
    }
  }

  /** Runs the stack dry: the array ends up marking exactly what the recursion keeps. */
  method Mark(dist: Metric, points: seq<Point>, bound: real) returns (keep: array<bool>)
    requires 3 <= |points| && 0.0 <= bound
    ensures keep.Length == |points| && Marked(keep) == Kept(dist, points, bound)
  {
    keep := new bool[|points|](_ => false);
    keep[0], keep[|points|-1] := true, true;
    assert Marked(keep) == {0, |points| - 1};
    var stack: seq<(nat, nat)> := [(0, |points| - 1)];
    assert stack[..0] == [];
    while stack != []
      invariant StackOk(points, stack)
      invariant Marked(keep) + Pending(dist, points, stack, bound) == Kept(dist, points, bound)
      decreases Work(stack)
    {
      var (first, last) := stack[|stack|-1];
      stack := Split(dist, points, keep, stack[..|stack|-1], first, last, bound);
    }
  }

  /** Measuring takes positions apart into two coordinates, and fails on more. */
  predicate Raises(points: seq<Point>, tolerance: real) {
    tolerance > 0.0 && |points| >= 3 && exists p | p in points :: p.more != []
  }

  /**
   Simplifies a line; at tolerance 0, or below three points, the line itself comes back. Nothing comes back when measuring
   fails.
   */
  method Simplify(points: seq<Point>, tolerance: real) returns (out: Option<seq<Point>>)
    ensures out == if Raises(points, tolerance) then None else Some(Simplified(points, tolerance))
  {
    if tolerance <= 0.0 || |points| < 3 {
      return Some(points);
    }
    // The first stretch is the whole line, so every point is measured, or measured from, before any is marked.
    if Raises(points, tolerance) {
      return None;
    }
    var line := SimplifyPairs(points, tolerance);
    return Some(line);
  }

  method SimplifyPairs(points: seq<Point>, tolerance: real) returns (out: seq<Point>)
    requires tolerance > 0.0 && |points| >= 3
    ensures out == Simplified(points, tolerance)
  {
    SquarePositive(tolerance);
    var keep := Mark(Dist2, points, Sq(tolerance));
    out := [];
    ghost var kept := Marked(keep);
    for i := 0 to |points|
      invariant |out| == |Positions(i, kept)|
      invariant forall k | 0 <= k < |out| :: out[k] == points[Positions(i, kept)[k]]
    {
      if keep[i] {
        out := out + [points[i]];
      }
    }
    assert out == Chosen(points, kept);
  }
}
