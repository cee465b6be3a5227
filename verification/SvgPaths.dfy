/**
 The paths an SVG's strokes are merged into (api/cad_engine.py `Writer.svg`): strokes of one style share a path until it
 would grow past CHUNK_CHARS.
 */
module SvgPaths {

  const CHUNK_CHARS: nat := 60_000

  // ----- packings

  /** Length of the parts from `a` to `b`. */
  function Total(parts: seq<string>, a: nat, b: nat): nat
    requires a <= b <= |parts|
    decreases b - a
  {
    if a == b then 0 else Total(parts, a, b - 1) + |parts[b-1]|
  }

  lemma {:induction false} TotalSplits(parts: seq<string>, a: nat, b: nat, c: nat)
    requires a <= b <= c <= |parts|
    ensures Total(parts, a, c) == Total(parts, a, b) + Total(parts, b, c)
    decreases c - b
  {
    if b < c {
      TotalSplits(parts, a, b, c - 1);
    }
  }

  /** The parts from `a` to `b` may share a path: they fit, or there is only one. */
  ghost predicate Good(parts: seq<string>, a: nat, b: nat)
    requires a <= b <= |parts|
  {
    b - a <= 1 || Total(parts, a, b) <= CHUNK_CHARS
  }

  /** Part of what may share a path may do so too. */
  lemma GoodWithin(parts: seq<string>, a: nat, b: nat, c: nat, d: nat)
    requires a <= b <= c <= d <= |parts| && Good(parts, a, d)
    ensures Good(parts, b, c)
  {
    TotalSplits(parts, a, b, d);
    TotalSplits(parts, b, c, d);
  }

  ghost predicate Ordered(cuts: seq<nat>) {
    forall i, j | 0 <= i <= j < |cuts| :: cuts[i] <= cuts[j]
  }

  ghost predicate Piece(parts: seq<string>, cuts: seq<nat>, i: nat)
    requires i + 1 < |cuts|
  {
    cuts[i] <= cuts[i+1] <= |parts| && Good(parts, cuts[i], cuts[i+1])
  }

  /** Any way to cut the parts, in order, into paths; a path may be empty. */
  ghost predicate Packing(parts: seq<string>, cuts: seq<nat>) {
    && |cuts| > 0 && cuts[0] == 0 && cuts[|cuts|-1] == |parts| && Ordered(cuts)
    && forall i: nat | i + 1 < |cuts| :: Piece(parts, cuts, i)
  }

  /** No piece but the last could have taken one part more, and none is empty. */
  ghost predicate Full(parts: seq<string>, cuts: seq<nat>, i: nat)
    requires i + 1 < |cuts|
  {
    cuts[i] < cuts[i+1] <= |parts| && (cuts[i+1] < |parts| ==> !Good(parts, cuts[i], cuts[i+1] + 1))
  }

  ghost predicate Greedy(parts: seq<string>, cuts: seq<nat>) {
    Packing(parts, cuts) && forall i: nat | i + 1 < |cuts| :: Full(parts, cuts, i)
  }

  /** After as many paths, no packing is further than the greedy one. */
  lemma {:induction false} GreedyIsAhead(parts: seq<string>, cuts: seq<nat>, other: seq<nat>, j: nat)
    requires Greedy(parts, cuts) && Packing(parts, other) && j < |cuts| && j < |other|
    ensures other[j] <= cuts[j]
  {
    if j > 0 {
      GreedyIsAhead(parts, cuts, other, j - 1);
      assert Full(parts, cuts, j - 1) && Piece(parts, other, j - 1);
      if cuts[j] < other[j] {
        GoodWithin(parts, other[j-1], cuts[j-1], cuts[j] + 1, other[j]);
      }
    }
  }

  /** No packing uses fewer paths than the greedy one. */
  lemma GreedyIsLeast(parts: seq<string>, cuts: seq<nat>, other: seq<nat>)
    requires Greedy(parts, cuts) && Packing(parts, other)
    ensures |cuts| <= |other|
  {
    forall j: nat | j + 1 < |cuts| ensures cuts[j] < |parts| {
      assert Full(parts, cuts, j);
    }
    if |other| <= |cuts| {
      GreedyIsAhead(parts, cuts, other, |other| - 1);
    }
  }

  // ----- leaving parts out

  /** The parts whose flag is set, among the first `n`. */
  function Chosen(parts: seq<string>, keep: seq<bool>, n: nat): seq<string>
    requires n <= |parts| == |keep|
  {
    if n == 0 then []
    else if keep[n-1] then Chosen(parts, keep, n - 1) + [parts[n-1]]
    else Chosen(parts, keep, n - 1)
  }

  /** How many of the first `n` are kept. */
  function Kept(parts: seq<string>, keep: seq<bool>, n: nat): nat
    requires n <= |parts| == |keep|
  {
    |Chosen(parts, keep, n)|
  }

  lemma {:induction false} ChosenGrows(parts: seq<string>, keep: seq<bool>, m: nat, n: nat)
    requires m <= n <= |parts| == |keep|
    ensures Chosen(parts, keep, m) <= Chosen(parts, keep, n)
    ensures Kept(parts, keep, n) - Kept(parts, keep, m) <= n - m
    decreases n
  {
    if m < n {
      ChosenGrows(parts, keep, m, n - 1);
    }
  }

  lemma {:induction false} ChosenIsShorter(parts: seq<string>, keep: seq<bool>, a: nat, b: nat, less: seq<string>)
    requires a <= b <= |parts| == |keep| && less == Chosen(parts, keep, |parts|)
    ensures Kept(parts, keep, a) <= Kept(parts, keep, b) <= |less|
    ensures Total(less, Kept(parts, keep, a), Kept(parts, keep, b)) <= Total(parts, a, b)
    decreases b
  {
    ChosenGrows(parts, keep, a, b);
    ChosenGrows(parts, keep, b, |parts|);
    if a < b {
      ChosenIsShorter(parts, keep, a, b - 1, less);
      if keep[b-1] {
        assert less[|Chosen(parts, keep, b)| - 1] == Chosen(parts, keep, b)[|Chosen(parts, keep, b)| - 1];
      }
    }
  }

  /** A packing of all the parts is one of those that are kept, with the same number of paths. */
  lemma PackingOfFewer(parts: seq<string>, keep: seq<bool>, cuts: seq<nat>, less: seq<string>, cut: seq<nat>)
    requires |parts| == |keep| && Packing(parts, cuts) && less == Chosen(parts, keep, |parts|)
    requires forall i | 0 <= i < |cuts| :: cuts[i] <= |parts|
    requires |cut| == |cuts| && forall i: nat | i < |cuts| :: cut[i] == Kept(parts, keep, cuts[i])
    ensures Packing(less, cut)
  {
    forall i: nat | i + 1 < |cut| ensures Piece(less, cut, i) {
      assert Piece(parts, cuts, i);
      ChosenGrows(parts, keep, cuts[i], cuts[i+1]);
      ChosenIsShorter(parts, keep, cuts[i], cuts[i+1], less);
    }
    forall i, j | 0 <= i <= j < |cut| ensures cut[i] <= cut[j] {
      ChosenGrows(parts, keep, cuts[i], cuts[j]);
    }
  }

  /** Leaving strokes out never takes more paths. */
  lemma FewerPartsFewerPaths(parts: seq<string>, keep: seq<bool>, cuts: seq<nat>, fewer: seq<nat>)
    requires |parts| == |keep| && Greedy(parts, cuts)
    requires Greedy(Chosen(parts, keep, |parts|), fewer)
    ensures |fewer| <= |cuts|
  {
    forall i | 0 <= i < |cuts| ensures cuts[i] <= |parts| {
      assert cuts[i] <= cuts[|cuts|-1];
    }
    var cut := seq(|cuts|, (i: nat) requires i < |cuts| => Kept(parts, keep, cuts[i]));
    PackingOfFewer(parts, keep, cuts, Chosen(parts, keep, |parts|), cut);
    GreedyIsLeast(Chosen(parts, keep, |parts|), fewer, cut);
  }

  // ----- the paths

  function Join(parts: seq<string>): string {
    if parts == [] then "" else parts[0] + Join(parts[1..])
  }

  lemma {:induction false} JoinSplits(a: seq<string>, b: seq<string>)
    ensures Join(a + b) == Join(a) + Join(b)
  {
    if a == [] {
      assert a + b == b;
    } else {
      assert (a + b)[1..] == a[1..] + b;
      JoinSplits(a[1..], b);
    }
  }

  /** The path data of each piece. */
  ghost predicate PathsOf(parts: seq<string>, cuts: seq<nat>, paths: seq<string>) {
    |cuts| == |paths| + 1 && forall i: nat | i < |paths| :: PathOf(parts, cuts, paths, i)
  }

  ghost predicate PathOf(parts: seq<string>, cuts: seq<nat>, paths: seq<string>, i: nat)
    requires i < |paths| && |cuts| == |paths| + 1
  {
    cuts[i] <= cuts[i+1] <= |parts| && paths[i] == Join(parts[cuts[i]..cuts[i+1]])
  }

  /** Nothing is lost, added or moved: the paths hold the parts' data in order. */
  lemma {:induction false} PathsJoin(parts: seq<string>, cuts: seq<nat>, paths: seq<string>, n: nat)
    requires PathsOf(parts, cuts, paths) && n <= |paths| && cuts[0] == 0
    ensures cuts[n] <= |parts| && Join(paths[..n]) == Join(parts[..cuts[n]])
  {
    if n > 0 {
      PathsJoin(parts, cuts, paths, n - 1);
      assert PathOf(parts, cuts, paths, n - 1);
      assert paths[..n] == paths[..n-1] + [paths[n-1]];
      JoinSplits(paths[..n-1], [paths[n-1]]);
      assert Join([paths[n-1]]) == paths[n-1];
      assert parts[..cuts[n]] == parts[..cuts[n-1]] + parts[cuts[n-1]..cuts[n]];
      JoinSplits(parts[..cuts[n-1]], parts[cuts[n-1]..cuts[n]]);
    }
  }

  lemma {:induction false} JoinLength(parts: seq<string>, a: nat, b: nat)
    requires a <= b <= |parts|
    ensures |Join(parts[a..b])| == Total(parts, a, b)
    decreases b - a
  {
    if a < b {
      JoinLength(parts, a, b - 1);
      assert parts[a..b] == parts[a..b-1] + [parts[b-1]];
      JoinSplits(parts[a..b-1], [parts[b-1]]);
      assert Join([parts[b-1]]) == parts[b-1];
    }
  }

  /** A path is short exactly when each of its parts is. */
  ghost predicate FitsLikeParts(parts: seq<string>, cuts: seq<nat>, paths: seq<string>, i: nat)
    requires i < |paths| && |cuts| == |paths| + 1
  {
    && cuts[i] <= cuts[i+1] <= |parts|
    && (|paths[i]| <= CHUNK_CHARS <==> forall k | cuts[i] <= k < cuts[i+1] :: |parts[k]| <= CHUNK_CHARS)
  }

  lemma PieceFits(parts: seq<string>, cuts: seq<nat>, paths: seq<string>, i: nat)
    requires PathsOf(parts, cuts, paths) && Packing(parts, cuts) && i < |paths|
    ensures FitsLikeParts(parts, cuts, paths, i)
  {
    var a, b := cuts[i], cuts[i+1];
    assert PathOf(parts, cuts, paths, i) && Piece(parts, cuts, i);
    JoinLength(parts, a, b);
    forall k | a <= k < b ensures |parts[k]| <= Total(parts, a, b) {
      TotalSplits(parts, a, k, b);
      TotalSplits(parts, k, k + 1, b);
      assert Total(parts, k, k) == 0;
    }
    if b - a == 1 {
      assert Total(parts, a, b) == |parts[a]|;
    } else if b == a {
      assert Total(parts, a, b) == 0;
    }
  }

  lemma {:induction false} SomePieceHas(parts: seq<string>, cuts: seq<nat>, k: nat, n: nat) returns (i: nat)
    requires Packing(parts, cuts) && n < |cuts| && k < cuts[n]
    ensures i < n && cuts[i] <= k < cuts[i+1]
    decreases n
  {
    if k < cuts[n-1] {
      i := SomePieceHas(parts, cuts, k, n - 1);
    } else {
      i := n - 1;
    }
  }

  /** No path is longer than CHUNK_CHARS exactly when no single part is. */
  lemma PathsFitExactly(parts: seq<string>, cuts: seq<nat>, paths: seq<string>)
    requires PathsOf(parts, cuts, paths) && Greedy(parts, cuts)
    ensures (forall i | 0 <= i < |paths| :: |paths[i]| <= CHUNK_CHARS) <==>
            forall k | 0 <= k < |parts| :: |parts[k]| <= CHUNK_CHARS
  {
    forall i: nat | i < |paths| ensures FitsLikeParts(parts, cuts, paths, i) {
      PieceFits(parts, cuts, paths, i);
    }
    if forall i | 0 <= i < |paths| :: |paths[i]| <= CHUNK_CHARS {
      forall k: nat | k < |parts| ensures |parts[k]| <= CHUNK_CHARS {
        var i := SomePieceHas(parts, cuts, k, |paths|);
        assert FitsLikeParts(parts, cuts, paths, i);
      }
    }
    if forall k | 0 <= k < |parts| :: |parts[k]| <= CHUNK_CHARS {
      forall i: nat | i < |paths| ensures |paths[i]| <= CHUNK_CHARS {
        assert FitsLikeParts(parts, cuts, paths, i);
      }
    }
  }

  /** A single long part goes out whole: a path of it alone passes CHUNK_CHARS. */
  lemma LongPartPasses(part: string)
    requires |part| > CHUNK_CHARS
    ensures Greedy([part], [0, 1]) && PathsOf([part], [0, 1], [part]) && |[part][0]| > CHUNK_CHARS
  {
    assert [part][0..1] == [part];
    assert Join([part]) == part;
  }

  lemma OneMorePart(parts: seq<string>, start: nat, i: nat)
    requires start <= i < |parts|
    ensures parts[start..i+1] == parts[start..i] + [parts[i]]
  {
  }

  /** The loop over one style's parts. */
  method Chunk(parts: seq<string>) returns (paths: seq<string>, ghost cuts: seq<nat>)
    ensures PathsOf(parts, cuts, paths) && Greedy(parts, cuts)
    ensures Join(paths) == Join(parts)
  {
    paths := [];
    cuts := [0];
    ghost var start := 0;
    var chunk: seq<string>, size := [], 0;
    for i := 0 to |parts|
      invariant 0 <= start <= i && chunk == parts[start..i] && size == Total(parts, start, i)
      invariant PathsOf(parts, cuts, paths) && cuts[0] == 0 && cuts[|cuts|-1] == start
      invariant Ordered(cuts) && Good(parts, start, i) && (start < i || i == 0)
      invariant forall j: nat | j + 1 < |cuts| :: Piece(parts, cuts, j) && Full(parts, cuts, j)
    {
      var p := parts[i];
      if size + |p| > CHUNK_CHARS && chunk != [] {
        paths, cuts := Flush(parts, paths, cuts, chunk, i);
        chunk, size, start := [], 0, i;
      }
      OneMorePart(parts, start, i);
      chunk := chunk + [p];
      size := size + |p|;
    }
    if chunk != [] {
      paths, cuts := Flush(parts, paths, cuts, chunk, |parts|);
    }
    PathsJoin(parts, cuts, paths, |paths|);
    assert paths[..|paths|] == paths && parts[..|parts|] == parts;
  }

  /** Ends a path with the parts collected for it. */
  method Flush(parts: seq<string>, paths: seq<string>, ghost cuts: seq<nat>, chunk: seq<string>, end: nat)
    returns (more: seq<string>, ghost ends: seq<nat>)
    requires PathsOf(parts, cuts, paths) && Ordered(cuts)
    requires cuts[|cuts|-1] < end <= |parts| && chunk == parts[cuts[|cuts|-1]..end]
    requires Good(parts, cuts[|cuts|-1], end) && (end < |parts| ==> !Good(parts, cuts[|cuts|-1], end + 1))
    requires forall j: nat | j + 1 < |cuts| :: Piece(parts, cuts, j) && Full(parts, cuts, j)
    ensures more == paths + [Join(chunk)] && ends == cuts + [end]
    ensures PathsOf(parts, ends, more) && Ordered(ends)
    ensures forall j: nat | j + 1 < |ends| :: Piece(parts, ends, j) && Full(parts, ends, j)
  {
    more := paths + [Join(chunk)];
    ends := cuts + [end];
    forall j: nat | j < |more| ensures PathOf(parts, ends, more, j) {
      assert j < |paths| ==> PathOf(parts, cuts, paths, j);
    }
    forall j: nat | j + 1 < |ends| ensures Piece(parts, ends, j) && Full(parts, ends, j) {
      assert j + 1 < |cuts| ==> Piece(parts, cuts, j) && Full(parts, cuts, j);
    }
  }
}
