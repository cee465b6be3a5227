/** The free stretches of a rail around the spans its devices take (api/din.py `free_gaps`). */
module DinGaps {
  import opened Din
  import Sorting

  datatype Span = Span(lo: int, hi: int)

  ghost predicate Ordered(taken: seq<Span>) {
    forall i, j | 0 <= i < j < |taken| :: taken[i].lo <= taken[j].lo
  }

  ghost predicate Forward(taken: seq<Span>) {
    forall i | 0 <= i < |taken| :: taken[i].lo <= taken[i].hi
  }

  /** Spans with their ends in order that lie on a rail `length` long. */
  ghost predicate OnRail(taken: seq<Span>, length: int) {
    forall i | 0 <= i < |taken| :: 0 <= taken[i].lo <= taken[i].hi <= length
  }

  /** How far gaps are looked for: to the rail's end, or to a span that starts beyond it. */
  function Extent(length: int, taken: seq<Span>): int {
    if taken == [] then length
    else
      var before := Extent(length, taken[..|taken|-1]);
      if before < taken[|taken|-1].lo then taken[|taken|-1].lo else before
  }

  lemma {:induction false} ExtentIs(length: int, taken: seq<Span>)
    ensures length <= Extent(length, taken)
    ensures forall s | s in taken :: s.lo <= Extent(length, taken)
    ensures Extent(length, taken) == length || exists s :: s in taken && Extent(length, taken) == s.lo
  {
    if taken != [] {
      ExtentIs(length, taken[..|taken|-1]);
      assert taken == taken[..|taken|-1] + [taken[|taken|-1]];
    }
  }

  /** On the rail's own spans that is the rail's end. */
  lemma ExtentOnRail(length: int, taken: seq<Span>)
    requires OnRail(taken, length)
    ensures Extent(length, taken) == length
  {
    ExtentIs(length, taken);
  }

  /** No span of `taken` overlaps the stretch `g`. */
  ghost predicate Free(taken: seq<Span>, g: Span) {
    forall i | 0 <= i < |taken| :: !Overlaps(g.lo, g.hi, taken[i].lo, taken[i].hi)
  }

  ghost predicate FreeStretch(taken: seq<Span>, length: int, g: Span) {
    0 <= g.lo < g.hi <= length && Free(taken, g)
  }

  predicate Inside(g: Span, h: Span) {
    h.lo <= g.lo && g.hi <= h.hi
  }

  /** A free stretch that no other free stretch of the rail contains. */
  ghost predicate Maximal(taken: seq<Span>, length: int, g: Span) {
    && FreeStretch(taken, length, g)
    && (forall h | FreeStretch(taken, length, h) && Inside(g, h) :: h == g)
  }

  /** `gaps` lists free stretches left to right, and every free stretch ending by `upto` lies in one of them. */
  ghost predicate Cover(taken: seq<Span>, length: int, gaps: seq<Span>, upto: int) {
    && (forall i | 0 <= i < |gaps| :: FreeStretch(taken, length, gaps[i]) && gaps[i].hi <= upto)
    && (forall i, j | 0 <= i < j < |gaps| :: gaps[i].hi <= gaps[j].lo)
    && (forall g {:trigger InOne(gaps, g)} | FreeStretch(taken, length, g) && g.lo < upto :: InOne(gaps, g))
  }

  ghost predicate InOne(gaps: seq<Span>, g: Span) {
    exists i :: 0 <= i < |gaps| && Inside(g, gaps[i])
  }

  /** `gaps` and `at` after the sweep passed the first `n` spans. */
  ghost predicate Swept(taken: seq<Span>, length: int, gaps: seq<Span>, at: int, n: nat)
    requires n <= |taken|
  {
    && 0 <= at
    && (forall i | 0 <= i < n :: taken[i].hi <= at)
    && Cover(taken, length, gaps, at)
  }

  lemma SweptGap(taken: seq<Span>, length: int, gaps: seq<Span>, at: int, n: nat, hi: int, at': int)
    requires n <= |taken| && Swept(taken, length, gaps, at, n)
    requires at < hi <= length && at' >= hi
    requires forall i | n <= i < |taken| :: hi <= taken[i].lo
    requires forall g | FreeStretch(taken, length, g) && at <= g.lo < at' :: g.hi <= hi
    ensures Cover(taken, length, gaps + [Span(at, hi)], at')
  {
    var more := gaps + [Span(at, hi)];
    assert FreeStretch(taken, length, Span(at, hi));
    forall i | 0 <= i < |more| ensures FreeStretch(taken, length, more[i]) && more[i].hi <= at' {
      assert i < |gaps| ==> more[i] == gaps[i];
    }
    forall g | FreeStretch(taken, length, g) && g.lo < at' ensures InOne(more, g) {
      if g.lo < at {
        assert InOne(gaps, g);
        var i :| 0 <= i < |gaps| && Inside(g, gaps[i]);
        assert Inside(g, more[i]);
      } else {
        assert Inside(g, more[|gaps|]);
      }
    }
  }

  lemma SweptOn(taken: seq<Span>, length: int, gaps: seq<Span>, at: int, n: nat)
    requires n < |taken| && Forward(taken) && taken[n].lo <= length && Ordered(taken) && Swept(taken, length, gaps, at, n)
    ensures var s := taken[n];
            Swept(taken, length, if s.lo > at then gaps + [Span(at, s.lo)] else gaps, if s.hi > at then s.hi else at, n + 1)
  {
    var s := taken[n];
    var at' := if s.hi > at then s.hi else at;
    forall g | FreeStretch(taken, length, g) && at <= g.lo < at' ensures g.hi <= s.lo {
      assert !Overlaps(g.lo, g.hi, s.lo, s.hi);
    }
    if s.lo > at {
      SweptGap(taken, length, gaps, at, n, s.lo, at');
    }
  }

  function ByLo(s: Span): int { s.lo }

  /** The free stretches around the spans, in whatever order they come and wherever they end. */
  method FreeGaps(length: int, taken: seq<Span>) returns (gaps: seq<Span>)
    requires 0 <= length && Forward(taken)
    ensures Cover(taken, Extent(length, taken), gaps, Extent(length, taken))
  {
    var sorted := Sorting.Sorted(ByLo, taken);
    Sorting.SortedKeeps(ByLo, taken, sorted);
    forall i, j | 0 <= i < j < |sorted| ensures sorted[i].lo <= sorted[j].lo {
      assert ByLo(sorted[i]) <= ByLo(sorted[j]);
    }
    forall i | 0 <= i < |sorted| ensures sorted[i].lo <= sorted[i].hi {
      assert sorted[i] in taken;
    }
    gaps := SweepGaps(length, sorted);
    SameCover(taken, sorted, length, gaps);
  }

  /** Spans listed in another order leave the same stretches free. */
  lemma SameCover(taken: seq<Span>, sorted: seq<Span>, length: int, gaps: seq<Span>)
    requires forall s :: s in taken <==> s in sorted
    requires Cover(sorted, Extent(length, sorted), gaps, Extent(length, sorted))
    ensures Cover(taken, Extent(length, taken), gaps, Extent(length, taken))
  {
    ExtentIs(length, taken);
    ExtentIs(length, sorted);
    var to := Extent(length, taken);
    forall g ensures FreeStretch(taken, to, g) <==> FreeStretch(sorted, to, g) {
      SameFree(taken, sorted, g);
    }
  }

  lemma SameFree(taken: seq<Span>, sorted: seq<Span>, g: Span)
    requires forall s :: s in taken <==> s in sorted
    ensures Free(taken, g) <==> Free(sorted, g)
  {
    assert forall i | 0 <= i < |taken| :: taken[i] in sorted;
    assert forall i | 0 <= i < |sorted| :: sorted[i] in taken;
  }

  /** The sweep over spans ordered by their left ends. */
  method SweepGaps(length: int, taken: seq<Span>) returns (gaps: seq<Span>)
    requires 0 <= length && Forward(taken) && Ordered(taken)
    ensures Cover(taken, Extent(length, taken), gaps, Extent(length, taken))
  {
    gaps := [];
    var at := 0;
    ghost var to := Extent(length, taken);
    ExtentIs(length, taken);
    for n := 0 to |taken|
      invariant Swept(taken, to, gaps, at, n)
    {
      assert taken[n] in taken;
      SweptOn(taken, to, gaps, at, n);
      var s := taken[n];
      if s.lo > at {
        gaps := gaps + [Span(at, s.lo)];
      }
      at := if s.hi > at then s.hi else at;
    }
    assert forall s | s in taken :: s.lo <= at;
    if at < length {
      SweptGap(taken, to, gaps, at, |taken|, length, length);
      gaps := gaps + [Span(at, length)];
    }
  }

  /** The swept gaps are exactly the maximal free stretches. */
  lemma GapsAreTheMaximalStretches(taken: seq<Span>, length: int, gaps: seq<Span>, g: Span)
    requires Cover(taken, length, gaps, length)
    ensures g in gaps <==> Maximal(taken, length, g)
  {
    if g in gaps {
      forall h | FreeStretch(taken, length, h) && Inside(g, h) ensures h == g {
        assert InOne(gaps, h);
        var i, j :| 0 <= i < |gaps| && gaps[i] == g && 0 <= j < |gaps| && Inside(h, gaps[j]);
        assert FreeStretch(taken, length, gaps[i]);
      }
    }
    if Maximal(taken, length, g) {
      assert InOne(gaps, g);
      var i :| 0 <= i < |gaps| && Inside(g, gaps[i]);
      assert FreeStretch(taken, length, gaps[i]);
    }
  }

  predicate Wide(g: Span, width: int) {
    g.hi - g.lo >= width
  }

  /** Position of the first gap that `width` fits in, or the number of gaps. */
  method FirstWide(gaps: seq<Span>, width: int) returns (i: nat)
    ensures i <= |gaps|
    ensures forall j | 0 <= j < i :: !Wide(gaps[j], width)
    ensures i < |gaps| ==> Wide(gaps[i], width)
  {
    i := 0;
    while i < |gaps| && !Wide(gaps[i], width)
      invariant i <= |gaps|
      invariant forall j | 0 <= j < i :: !Wide(gaps[j], width)
    {
      i := i + 1;
    }
  }

  /** Where a width has room at all, the first wide gap exists and starts no later. */
  lemma FirstWideIsLeast(taken: seq<Span>, length: int, gaps: seq<Span>, width: int, i: nat, o: int)
    requires Cover(taken, length, gaps, length) && 0 < width
    requires i <= |gaps| && forall j | 0 <= j < i :: !Wide(gaps[j], width)
    requires FreeStretch(taken, length, Span(o, o + width))
    ensures i < |gaps| && gaps[i].lo <= o
  {
    assert InOne(gaps, Span(o, o + width));
    var k :| 0 <= k < |gaps| && Inside(Span(o, o + width), gaps[k]);
    assert Wide(gaps[k], width);
    assert FreeStretch(taken, length, gaps[i]);
  }
}
