/**
 What an SVG keeps of a drawing (api/cad_engine.py `Writer.svg`): strokes merged by style, and the ladder of
 simplifications, each of which keeps less.
 */
module SvgWriter {
  import opened SvgPaths

  type Kind = string

  datatype Style = Style(layer: string, kind: Kind, colour: string, weight: int)
  datatype Bin = Bin(layer: string, kind: Kind)
  datatype Stroke = Stroke(style: Style, data: string, diag: real)
  datatype Text = Text(bin: Bin, text: string)
  datatype Drawing = Drawing(strokes: seq<Stroke>, fills: seq<Bin>, texts: seq<Text>, diag: real)

  function BinOf(s: Style): Bin { Bin(s.layer, s.kind) }

  // ----- what a step keeps

  predicate StrokeKept(s: Stroke, drop: set<Kind>, short: real) {
    !(s.style.kind in drop || (short != 0.0 && s.diag < short && s.style.kind == "geometry"))
  }

  predicate FillKept(f: Bin, drop: set<Kind>) { f.kind !in drop }

  predicate TextKept(t: Text, drop: set<Kind>) { !(t.bin.kind in drop || "text" in drop) }

  // ----- merging

  /** The data of one style's kept strokes, in drawing order. */
  function PartsOf(strokes: seq<Stroke>, style: Style, drop: set<Kind>, short: real): seq<string> {
    if strokes == [] then []
    else
      var last := strokes[|strokes|-1];
      var before := PartsOf(strokes[..|strokes|-1], style, drop, short);
      if last.style == style && StrokeKept(last, drop, short) then before + [last.data] else before
  }

  /** How many strokes of a layer and kind are kept. */
  function CountOf(strokes: seq<Stroke>, bin: Bin, drop: set<Kind>, short: real): nat {
    if strokes == [] then 0
    else
      var last := strokes[|strokes|-1];
      CountOf(strokes[..|strokes|-1], bin, drop, short)
      + if BinOf(last.style) == bin && StrokeKept(last, drop, short) then 1 else 0
  }

  function PartsIn(merged: map<Style, seq<string>>, style: Style): seq<string> {
    if style in merged then merged[style] else []
  }

  function CountIn(counts: map<Bin, nat>, bin: Bin): nat {
    if bin in counts then counts[bin] else 0
  }

  /** Strokes merged by style, and counted by layer and kind. */
  method Merge(strokes: seq<Stroke>, drop: set<Kind>, short: real)
    returns (styles: seq<Style>, merged: map<Style, seq<string>>, counts: map<Bin, nat>)
    ensures forall style :: PartsIn(merged, style) == PartsOf(strokes, style, drop, short)
    ensures forall bin :: CountIn(counts, bin) == CountOf(strokes, bin, drop, short)
    ensures forall style :: style in styles <==> style in merged
    ensures forall style | style in merged :: merged[style] != []
    ensures forall i, j | 0 <= i < j < |styles| :: styles[i] != styles[j]
  {
    styles, merged, counts := [], map[], map[];
    for i := 0 to |strokes|
      invariant forall style :: PartsIn(merged, style) == PartsOf(strokes[..i], style, drop, short)
      invariant forall bin :: CountIn(counts, bin) == CountOf(strokes[..i], bin, drop, short)
      invariant forall style :: style in styles <==> style in merged
      invariant forall style | style in merged :: merged[style] != []
      invariant forall j, k | 0 <= j < k < |styles| :: styles[j] != styles[k]
    {
      var s := strokes[i];
      assert strokes[..i+1][..i] == strokes[..i];
      if StrokeKept(s, drop, short) {
        if s.style !in merged {
          styles := styles + [s.style];
        }
        merged := merged[s.style := PartsIn(merged, s.style) + [s.data]];
        counts := counts[BinOf(s.style) := CountIn(counts, BinOf(s.style)) + 1];
      }
    }
    assert strokes[..|strokes|] == strokes;
  }

  /** The paths of every style. */
  method StrokePaths(strokes: seq<Stroke>, drop: set<Kind>, short: real)
    returns (paths: map<Style, seq<string>>, counts: map<Bin, nat>)
    ensures forall style :: Packed(PartsOf(strokes, style, drop, short), PartsIn(paths, style))
    ensures forall style :: style in paths <==> PartsOf(strokes, style, drop, short) != []
    ensures forall bin :: CountIn(counts, bin) == CountOf(strokes, bin, drop, short)
  {
    var styles, merged;
    styles, merged, counts := Merge(strokes, drop, short);
    paths := map[];
    for i := 0 to |styles|
      invariant forall style :: style in paths <==> style in styles[..i]
      invariant forall style | style in paths :: Packed(PartsIn(merged, style), paths[style])
    {
      assert styles[i] in styles;
      var out, cuts := Chunk(merged[styles[i]]);
      assert Packed(merged[styles[i]], out);
      paths := paths[styles[i] := out];
    }
    forall style ensures Packed(PartsIn(merged, style), PartsIn(paths, style)) {
      if style !in paths {
        NothingPacked();
      }
    }
    assert forall style :: style in merged <==> PartsIn(merged, style) != [];
  }

  /** The paths hold the parts in order, and no packing uses fewer. */
  ghost predicate Packed(parts: seq<string>, paths: seq<string>) {
    Join(paths) == Join(parts) && exists cuts :: PathsOf(parts, cuts, paths) && Greedy(parts, cuts)
  }

  lemma NothingPacked()
    ensures Packed([], [])
  {
    assert PathsOf([], [0], []) && Greedy([], [0]);
  }

  // ----- the ladder

  const LADDER: seq<string> := ["hatch", "dimension", "text", "short-1", "short-2"]

  /** How far a drawing's diagonal is divided into the least stroke a step keeps. */
  function Fraction(step: string): real {
    if step == "short-1" then 2000.0 else if step == "short-2" then 400.0 else 0.0
  }

  /** The kinds left out after the first `n` steps of the ladder. */
  function Dropped(n: nat): set<Kind>
    requires n <= |LADDER|
  {
    if n == 0 then {}
    else if Fraction(LADDER[n-1]) != 0.0 then Dropped(n - 1)
    else Dropped(n - 1) + {LADDER[n-1]}
  }

  /** The least stroke kept after the first `n` steps. */
  function Shortest(n: nat, diag: real): real
    requires n <= |LADDER|
  {
    if n == 0 || Fraction(LADDER[n-1]) == 0.0 then 0.0 else diag / Fraction(LADDER[n-1])
  }

  datatype Limits = Limits(bytes: nat, elements: nat, chars: nat)

  function TextChars(texts: seq<Text>): nat {
    if texts == [] then 0 else |texts[0].text| + TextChars(texts[1..])
  }

  /** Characters the limit counts: every text of the drawing, until the texts are left out as a kind. */
  function Chars(d: Drawing, drop: set<Kind>): nat {
    if "text" in drop then 0 else TextChars(d.texts)
  }

  // ----- each step keeps part of what the one before kept

  lemma {:induction false} DropsGrow(m: nat, n: nat)
    requires m <= n <= |LADDER|
    ensures Dropped(m) <= Dropped(n)
    decreases n - m
  {
    if m < n {
      DropsGrow(m, n - 1);
    }
  }

  /** The least stroke kept only grows, since the steps that set it are the last and the second cuts deeper. */
  lemma ShortestGrows(m: nat, n: nat, diag: real)
    requires m <= n <= |LADDER| && diag >= 0.0
    ensures 0.0 <= Shortest(m, diag) <= Shortest(n, diag)
  {
    assert diag / 2000.0 <= diag / 400.0;
  }

  /** What a later step keeps, an earlier one kept. */
  lemma LaterKeepsLess(d: Drawing, m: nat, n: nat)
    requires m <= n <= |LADDER| && d.diag >= 0.0
    ensures forall s | StrokeKept(s, Dropped(n), Shortest(n, d.diag)) :: StrokeKept(s, Dropped(m), Shortest(m, d.diag))
    ensures forall f | FillKept(f, Dropped(n)) :: FillKept(f, Dropped(m))
    ensures forall t | TextKept(t, Dropped(n)) :: TextKept(t, Dropped(m))
    ensures Chars(d, Dropped(n)) <= Chars(d, Dropped(m))
  {
    DropsGrow(m, n);
    ShortestGrows(m, n, d.diag);
  }

  /** Which of a style's strokes kept under one choice are kept under a stricter one. */
  function Flags(strokes: seq<Stroke>, style: Style, drop: set<Kind>, short: real, drop': set<Kind>, short': real): seq<bool>
  {
    if strokes == [] then []
    else
      var last := strokes[|strokes|-1];
      var before := Flags(strokes[..|strokes|-1], style, drop, short, drop', short');
      if last.style == style && StrokeKept(last, drop, short) then before + [StrokeKept(last, drop', short')] else before
  }

  lemma {:induction false} ChosenOfPrefix(a: seq<string>, b: seq<string>, k: seq<bool>, l: seq<bool>, n: nat)
    requires n <= |a| == |k| && n <= |b| == |l| && a[..n] == b[..n] && k[..n] == l[..n]
    ensures Chosen(a, k, n) == Chosen(b, l, n)
  {
    if n > 0 {
      assert a[..n-1] == a[..n][..n-1] && b[..n-1] == b[..n][..n-1];
      assert k[..n-1] == k[..n][..n-1] && l[..n-1] == l[..n][..n-1];
      ChosenOfPrefix(a, b, k, l, n - 1);
      assert a[n-1] == a[..n][n-1] && b[n-1] == b[..n][n-1] && k[n-1] == k[..n][n-1] && l[n-1] == l[..n][n-1];
    }
  }

  lemma {:induction false} StricterKeepsSome(strokes: seq<Stroke>, style: Style, drop: set<Kind>, short: real,
                                             drop': set<Kind>, short': real)
    requires forall s | StrokeKept(s, drop', short') :: StrokeKept(s, drop, short)
    ensures var parts, flags := PartsOf(strokes, style, drop, short), Flags(strokes, style, drop, short, drop', short');
            |flags| == |parts| && PartsOf(strokes, style, drop', short') == Chosen(parts, flags, |parts|)
  {
    if strokes != [] {
      var front := strokes[..|strokes|-1];
      StricterKeepsSome(front, style, drop, short, drop', short');
      var parts, flags := PartsOf(strokes, style, drop, short), Flags(strokes, style, drop, short, drop', short');
      var before, marks := PartsOf(front, style, drop, short), Flags(front, style, drop, short, drop', short');
      ChosenOfPrefix(parts, before, flags, marks, |before|);
    }
  }

  /** A later step of the ladder never needs more paths for a style. */
  lemma LaterNeedsNoMorePaths(d: Drawing, style: Style, m: nat, n: nat, cuts: seq<nat>, later: seq<nat>)
    requires m <= n <= |LADDER| && d.diag >= 0.0
    requires Greedy(PartsOf(d.strokes, style, Dropped(m), Shortest(m, d.diag)), cuts)
    requires Greedy(PartsOf(d.strokes, style, Dropped(n), Shortest(n, d.diag)), later)
    ensures |later| <= |cuts|
  {
    var drop, short, drop', short' := Dropped(m), Shortest(m, d.diag), Dropped(n), Shortest(n, d.diag);
    LaterKeepsLess(d, m, n);
    StricterKeepsSome(d.strokes, style, drop, short, drop', short');
    FewerPartsFewerPaths(PartsOf(d.strokes, style, drop, short),
                         Flags(d.strokes, style, drop, short, drop', short'), cuts, later);
  }
}
