/**
 What the document of each step of the ladder shows (api/cad_engine.py `LADDER`, `Writer.svg`, `write`), said step by step
 and without the writer's own tests; and the markup whose elements the writer counts.
 */
module SvgLadder {
  import opened SvgPaths
  import opened SvgWriter
  import opened SvgDocument
  import opened Sums

  // ----- what is shown

  /** Hatches go with the first step, dimensions with the second, texts with the third. */
  predicate Gone(kind: Kind, n: nat) {
    (kind == "hatch" && n >= 1) || (kind == "dimension" && n >= 2) || (kind == "text" && n >= 3)
  }

  /** The last two steps leave out geometry shorter than a 2000th and a 400th of the drawing's diagonal. */
  predicate Long(s: Stroke, n: nat, diag: real) {
    s.style.kind == "geometry" && diag > 0.0 ==>
      (n == 4 ==> 2000.0 * s.diag >= diag) && (n == 5 ==> 400.0 * s.diag >= diag)
  }

  predicate StrokeShown(d: Drawing, n: nat, i: nat) {
    i < |d.strokes| && !Gone(d.strokes[i].style.kind, n) && Long(d.strokes[i], n, d.diag)
  }

  predicate FillShown(d: Drawing, n: nat, i: nat) { i < |d.fills| && !Gone(d.fills[i].kind, n) }

  /** From the third step on there are no texts, whatever they were drawn for. */
  predicate TextShown(d: Drawing, n: nat, i: nat) { i < |d.texts| && n < 3 && !Gone(d.texts[i].bin.kind, n) }

  ghost function StrokesShown(d: Drawing, n: nat, bin: Bin): set<nat> {
    set i: nat | i < |d.strokes| && StrokeShown(d, n, i) && BinOf(d.strokes[i].style) == bin
  }

  ghost function FillsShown(d: Drawing, n: nat, bin: Bin): set<nat> {
    set i: nat | i < |d.fills| && FillShown(d, n, i) && d.fills[i] == bin
  }

  ghost function TextsShown(d: Drawing, n: nat, bin: Bin): set<nat> {
    set i: nat | i < |d.texts| && TextShown(d, n, i) && d.texts[i].bin == bin
  }

  /** Which strokes of a style a document of the step draws. */
  ghost function StyleShown(d: Drawing, n: nat, style: Style): set<nat> {
    set i: nat | i < |d.strokes| && StrokeShown(d, n, i) && d.strokes[i].style == style
  }

  lemma DroppedAt(n: nat)
    requires n <= |LADDER|
    ensures forall kind :: kind in Dropped(n) <==> Gone(kind, n)
  {
    if n > 0 {
      DroppedAt(n - 1);
    }
  }

  lemma StepDecides(d: Drawing, n: nat)
    requires n <= |LADDER| && d.diag >= 0.0
    ensures forall i: nat | i < |d.strokes| ::
              StrokeKept(d.strokes[i], Dropped(n), Shortest(n, d.diag)) <==> StrokeShown(d, n, i)
    ensures forall i: nat | i < |d.fills| :: FillKept(d.fills[i], Dropped(n)) <==> FillShown(d, n, i)
    ensures forall i: nat | i < |d.texts| :: TextKept(d.texts[i], Dropped(n)) <==> TextShown(d, n, i)
  {
    DroppedAt(n);
  }

  // ----- the counts

  ghost function Where(n: nat, ok: nat -> bool): set<nat> { set i: nat | i < n && ok(i) }

  lemma WhereStep(n: nat, ok: nat -> bool)
    ensures |Where(n + 1, ok)| == |Where(n, ok)| + if ok(n) then 1 else 0
  {
    assert Where(n + 1, ok) == if ok(n) then Where(n, ok) + {n} else Where(n, ok);
  }

  lemma {:induction false} CountIs(strokes: seq<Stroke>, bin: Bin, drop: set<Kind>, short: real, ok: nat -> bool, k: nat)
    requires k <= |strokes|
    requires forall i: nat | i < |strokes| :: ok(i) <==> BinOf(strokes[i].style) == bin && StrokeKept(strokes[i], drop, short)
    ensures CountOf(strokes[..k], bin, drop, short) == |Where(k, ok)|
  {
    if k > 0 {
      assert strokes[..k][..k-1] == strokes[..k-1];
      CountIs(strokes, bin, drop, short, ok, k - 1);
      WhereStep(k - 1, ok);
    } else {
      assert Where(0, ok) == {};
    }
  }

  lemma {:induction false} FillsAre(fills: seq<Bin>, bin: Bin, drop: set<Kind>, ok: nat -> bool, k: nat)
    requires k <= |fills|
    requires forall i: nat | i < |fills| :: ok(i) <==> fills[i] == bin && FillKept(fills[i], drop)
    ensures FillsIn(fills[..k], bin, drop) == |Where(k, ok)|
  {
    if k > 0 {
      assert fills[..k][..k-1] == fills[..k-1];
      FillsAre(fills, bin, drop, ok, k - 1);
      WhereStep(k - 1, ok);
    } else {
      assert Where(0, ok) == {};
    }
  }

  lemma {:induction false} TextsAre(texts: seq<Text>, bin: Bin, drop: set<Kind>, ok: nat -> bool, k: nat)
    requires k <= |texts|
    requires forall i: nat | i < |texts| :: ok(i) <==> texts[i].bin == bin && TextKept(texts[i], drop)
    ensures TextsIn(texts[..k], bin, drop) == |Where(k, ok)|
  {
    if k > 0 {
      assert texts[..k][..k-1] == texts[..k-1];
      TextsAre(texts, bin, drop, ok, k - 1);
      WhereStep(k - 1, ok);
    } else {
      assert Where(0, ok) == {};
    }
  }

  lemma StrokesCounted(d: Drawing, n: nat, bin: Bin)
    requires n <= |LADDER| && d.diag >= 0.0
    ensures CountOf(d.strokes, bin, Dropped(n), Shortest(n, d.diag)) == |StrokesShown(d, n, bin)|
  {
    var ok := (i: nat) => StrokeShown(d, n, i) && BinOf(d.strokes[i].style) == bin;
    StepDecides(d, n);
    CountIs(d.strokes, bin, Dropped(n), Shortest(n, d.diag), ok, |d.strokes|);
    assert d.strokes[..|d.strokes|] == d.strokes;
    assert Where(|d.strokes|, ok) == StrokesShown(d, n, bin);
  }

  lemma FillsCounted(d: Drawing, n: nat, bin: Bin)
    requires n <= |LADDER| && d.diag >= 0.0
    ensures FillsIn(d.fills, bin, Dropped(n)) == |FillsShown(d, n, bin)|
  {
    var ok := (i: nat) => FillShown(d, n, i) && d.fills[i] == bin;
    StepDecides(d, n);
    FillsAre(d.fills, bin, Dropped(n), ok, |d.fills|);
    assert d.fills[..|d.fills|] == d.fills;
    assert Where(|d.fills|, ok) == FillsShown(d, n, bin);
  }

  lemma TextsCounted(d: Drawing, n: nat, bin: Bin)
    requires n <= |LADDER| && d.diag >= 0.0
    ensures TextsIn(d.texts, bin, Dropped(n)) == |TextsShown(d, n, bin)|
  {
    var ok := (i: nat) => TextShown(d, n, i) && d.texts[i].bin == bin;
    StepDecides(d, n);
    TextsAre(d.texts, bin, Dropped(n), ok, |d.texts|);
    assert d.texts[..|d.texts|] == d.texts;
    assert Where(|d.texts|, ok) == TextsShown(d, n, bin);
  }

  /** The counts of a step's document are those of what the step shows. */
  lemma StepCounts(d: Drawing, n: nat, svg: Svg, bin: Bin)
    requires n <= |LADDER| && d.diag >= 0.0 && IsStep(d, n, svg)
    ensures CountIn(svg.counts, bin) == |StrokesShown(d, n, bin)| + |FillsShown(d, n, bin)| + |TextsShown(d, n, bin)|
  {
    StrokesCounted(d, n, bin);
    FillsCounted(d, n, bin);
    TextsCounted(d, n, bin);
  }

  // ----- the strokes' data

  ghost predicate Rising(ks: seq<nat>) {
    forall i, j | 0 <= i < j < |ks| :: ks[i] < ks[j]
  }

  /** `parts` is the data of the strokes at the positions `which`, in drawing order. */
  ghost predicate DataOf(strokes: seq<Stroke>, which: set<nat>, ks: seq<nat>, parts: seq<string>) {
    && Rising(ks) && |ks| == |parts| && (forall i :: i in which <==> i in ks)
    && forall j | 0 <= j < |ks| :: ks[j] < |strokes| && parts[j] == strokes[ks[j]].data
  }

  lemma {:induction false} PartsAre(strokes: seq<Stroke>, style: Style, drop: set<Kind>, short: real, ok: nat -> bool, k: nat)
    returns (ks: seq<nat>)
    requires k <= |strokes|
    requires forall i: nat | i < |strokes| :: ok(i) <==> strokes[i].style == style && StrokeKept(strokes[i], drop, short)
    ensures DataOf(strokes, Where(k, ok), ks, PartsOf(strokes[..k], style, drop, short))
  {
    if k == 0 {
      ks := [];
    } else {
      assert strokes[..k][..k-1] == strokes[..k-1];
      ks := PartsAre(strokes, style, drop, short, ok, k - 1);
      assert forall j | 0 <= j < |ks| :: ks[j] in Where(k - 1, ok);
      if ok(k - 1) {
        ks := ks + [k - 1];
      }
    }
  }

  lemma StyleParts(d: Drawing, n: nat, style: Style) returns (ks: seq<nat>)
    requires n <= |LADDER| && d.diag >= 0.0
    ensures DataOf(d.strokes, StyleShown(d, n, style), ks, PartsOf(d.strokes, style, Dropped(n), Shortest(n, d.diag)))
  {
    var ok := (i: nat) => StrokeShown(d, n, i) && d.strokes[i].style == style;
    StepDecides(d, n);
    ks := PartsAre(d.strokes, style, Dropped(n), Shortest(n, d.diag), ok, |d.strokes|);
    assert d.strokes[..|d.strokes|] == d.strokes;
    assert Where(|d.strokes|, ok) == StyleShown(d, n, style);
  }

  /** A step's document draws exactly the strokes the step shows: each style's paths, joined, are their data in order. */
  lemma StepDraws(d: Drawing, n: nat, svg: Svg, style: Style) returns (ks: seq<nat>, parts: seq<string>)
    requires n <= |LADDER| && d.diag >= 0.0 && IsStep(d, n, svg)
    ensures DataOf(d.strokes, StyleShown(d, n, style), ks, parts) && Join(PartsIn(svg.paths, style)) == Join(parts)
  {
    ks := StyleParts(d, n, style);
    parts := PartsOf(d.strokes, style, Dropped(n), Shortest(n, d.diag));
    assert Packed(parts, PartsIn(svg.paths, style));
  }

  /** Nothing of a kind that is gone is drawn or counted. */
  lemma GoneIsAbsent(d: Drawing, n: nat, svg: Svg, kind: Kind)
    requires n <= |LADDER| && d.diag >= 0.0 && IsStep(d, n, svg) && Gone(kind, n)
    ensures forall bin: Bin | bin.kind == kind :: CountIn(svg.counts, bin) == 0
    ensures forall style: Style | style.kind == kind :: PartsIn(svg.paths, style) == []
  {
    forall bin: Bin | bin.kind == kind ensures CountIn(svg.counts, bin) == 0 {
      StepCounts(d, n, svg, bin);
      assert StrokesShown(d, n, bin) == {} && FillsShown(d, n, bin) == {} && TextsShown(d, n, bin) == {};
    }
    forall style: Style | style.kind == kind ensures PartsIn(svg.paths, style) == [] {
      NothingOf(d, n, svg, style);
    }
  }

  lemma NothingOf(d: Drawing, n: nat, svg: Svg, style: Style)
    requires n <= |LADDER| && d.diag >= 0.0 && IsStep(d, n, svg) && Gone(style.kind, n)
    ensures PartsIn(svg.paths, style) == []
  {
    var parts := PartsOf(d.strokes, style, Dropped(n), Shortest(n, d.diag));
    DroppedAt(n);
    KeptStroke(d.strokes, style, Dropped(n), Shortest(n, d.diag));
    assert parts == [] && Packed(parts, PartsIn(svg.paths, style));
    var cuts :| PathsOf(parts, cuts, PartsIn(svg.paths, style)) && Greedy(parts, cuts);
    assert |cuts| > 1 ==> Full(parts, cuts, 0);
  }

  /** Every stroke of a kind that is not gone is counted, apart from geometry in the last two steps. */
  lemma OthersAreAllThere(d: Drawing, n: nat, bin: Bin)
    requires n <= |LADDER| && !Gone(bin.kind, n) && (bin.kind == "geometry" ==> n <= 3)
    ensures StrokesShown(d, n, bin) == set i: nat | i < |d.strokes| && BinOf(d.strokes[i].style) == bin
  {
  }

  // ----- the texts' characters

  function Contents(texts: seq<Text>): seq<string> {
    seq(|texts|, i requires 0 <= i < |texts| => texts[i].text)
  }

  lemma {:induction false} CharsOfAll(texts: seq<Text>)
    ensures TextChars(texts) == |Join(Contents(texts))|
  {
    if texts != [] {
      CharsOfAll(texts[1..]);
      assert Contents(texts)[1..] == Contents(texts[1..]);
    }
  }

  /** Until texts go, every text of the drawing counts, those of hatches and dimensions left out included. */
  lemma StepChars(d: Drawing, n: nat)
    requires n <= |LADDER|
    ensures Chars(d, Dropped(n)) == if n < 3 then |Join(Contents(d.texts))| else 0
  {
    DroppedAt(n);
    CharsOfAll(d.texts);
  }

  // ----- the markup

  datatype Tag = Opening | Shape | Closing
  type Markup = seq<Tag>

  /** Elements of a stretch of markup: what is opened, and what stands by itself. */
  function Elements(tags: Markup): nat {
    if tags == [] then 0 else (if tags[0].Closing? then 0 else 1) + Elements(tags[1..])
  }

  /** How deep the markup stands open behind `tags`, unless something is closed that was not open. */
  function Depth(tags: Markup, open: nat): (r: int)
    ensures r >= -1
  {
    if tags == [] then open
    else
      match tags[0]
      case Opening => Depth(tags[1..], open + 1)
      case Shape => Depth(tags[1..], open)
      case Closing => if open == 0 then -1 else Depth(tags[1..], open - 1)
  }

  function Shapes(n: nat): Markup { seq(n, _ => Shape) }

  function InGroup(inner: Markup): Markup { [Opening] + inner + [Closing] }

  /** A kind's own group, unless there is nothing in it. */
  function KindMarkup(items: nat): Markup { if items == 0 then [] else InGroup(Shapes(items)) }

  /** A layer: its geometry, then a group for each other kind. */
  function LayerMarkup(layer: string, items: Bin -> nat): Markup {
    InGroup(Shapes(items(Bin(layer, "geometry"))) + KindMarkup(items(Bin(layer, "hatch")))
            + KindMarkup(items(Bin(layer, "dimension"))) + KindMarkup(items(Bin(layer, "text"))))
  }

  function LayersMarkup(order: seq<string>, items: Bin -> nat): Markup {
    if order == [] then [] else LayerMarkup(order[0], items) + LayersMarkup(order[1..], items)
  }

  function DocumentMarkup(order: seq<string>, items: Bin -> nat): Markup { InGroup(LayersMarkup(order, items)) }

  lemma {:induction false} ElementsJoin(a: Markup, b: Markup)
    ensures Elements(a + b) == Elements(a) + Elements(b)
  {
    if a == [] {
      assert a + b == b;
    } else {
      assert (a + b)[1..] == a[1..] + b;
      ElementsJoin(a[1..], b);
    }
  }

  lemma {:induction false} DepthJoin(a: Markup, b: Markup, open: nat)
    ensures Depth(a + b, open) == if Depth(a, open) < 0 then -1 else Depth(b, Depth(a, open))
  {
    if a == [] {
      assert a + b == b;
    } else {
      assert (a + b)[1..] == a[1..] + b;
      DepthJoin(a[1..], b, if a[0].Opening? then open + 1 else if a[0].Shape? || open == 0 then open else open - 1);
    }
  }

  /** Markup that closes what it opens, wherever it stands, and has `n` elements. */
  ghost predicate Whole(tags: Markup, n: nat) {
    Elements(tags) == n && forall open: nat :: Depth(tags, open) == open
  }

  lemma WholeJoin(a: Markup, m: nat, b: Markup, n: nat)
    requires Whole(a, m) && Whole(b, n)
    ensures Whole(a + b, m + n)
  {
    ElementsJoin(a, b);
    forall open: nat ensures Depth(a + b, open) == open {
      DepthJoin(a, b, open);
    }
  }

  lemma WholeGroup(inner: Markup, n: nat)
    requires Whole(inner, n)
    ensures Whole(InGroup(inner), n + 1)
  {
    var rest := inner + [Closing];
    assert InGroup(inner) == [Opening] + rest && InGroup(inner)[1..] == rest;
    ElementsJoin(inner, [Closing]);
    forall open: nat ensures Depth(InGroup(inner), open) == open {
      DepthJoin(inner, [Closing], open + 1);
      assert Depth([Closing], open + 1) == open;
    }
  }

  lemma {:induction false} WholeShapes(n: nat)
    ensures Whole(Shapes(n), n)
  {
    if n > 0 {
      assert Shapes(n)[1..] == Shapes(n - 1);
      WholeShapes(n - 1);
    }
  }

  lemma WholeKind(items: nat)
    ensures Whole(KindMarkup(items), Group(items))
  {
    WholeShapes(items);
    if items > 0 {
      WholeGroup(Shapes(items), items);
    }
  }

  lemma WholeLayer(layer: string, items: Bin -> nat)
    ensures Whole(LayerMarkup(layer, items), LayerTotal(items(Bin(layer, "geometry")), items(Bin(layer, "hatch")),
                                                        items(Bin(layer, "dimension")), items(Bin(layer, "text"))))
  {
    var g, h := items(Bin(layer, "geometry")), items(Bin(layer, "hatch"));
    var m, t := items(Bin(layer, "dimension")), items(Bin(layer, "text"));
    WholeParts(g, h, m, t);
  }

  lemma WholeParts(g: nat, h: nat, m: nat, t: nat)
    ensures Whole(InGroup(Shapes(g) + KindMarkup(h) + KindMarkup(m) + KindMarkup(t)), LayerTotal(g, h, m, t))
  {
    WholeShapes(g);
    WholeKind(h);
    WholeKind(m);
    WholeKind(t);
    WholeJoin(Shapes(g), g, KindMarkup(h), Group(h));
    WholeJoin(Shapes(g) + KindMarkup(h), g + Group(h), KindMarkup(m), Group(m));
    WholeJoin(Shapes(g) + KindMarkup(h) + KindMarkup(m), g + Group(h) + Group(m), KindMarkup(t), Group(t));
    WholeGroup(Shapes(g) + KindMarkup(h) + KindMarkup(m) + KindMarkup(t), g + Group(h) + Group(m) + Group(t));
  }

  ghost predicate ListsOnce(order: seq<string>, layers: set<string>) {
    (forall layer :: layer in order <==> layer in layers) && forall i, j | 0 <= i < j < |order| :: order[i] != order[j]
  }

  lemma {:induction false} WholeLayers(order: seq<string>, layers: set<string>, items: Bin -> nat, total: string -> nat)
    requires ListsOnce(order, layers)
    requires forall layer :: Whole(LayerMarkup(layer, items), total(layer))
    ensures Whole(LayersMarkup(order, items), Over(layers, total))
  {
    if order == [] {
      assert layers == {};
    } else {
      var first := order[0];
      var rest := layers - {first};
      assert order == [first] + order[1..];
      assert ListsOnce(order[1..], rest) by {
        forall layer ensures layer in order[1..] <==> layer in rest {}
      }
      WholeLayers(order[1..], rest, items, total);
      TakeOut(layers, total, first);
      WholeJoin(LayerMarkup(first, items), total(first), LayersMarkup(order[1..], items), Over(rest, total));
    }
  }

  /**
   In whatever order a document's layers come, its markup is well nested and has as many elements as the document says;
   the items of a layer and kind are its paths, fills and texts.
   */
  lemma MarkupCounts(d: Drawing, drop: set<Kind>, short: real, svg: Svg, order: seq<string>)
    requires IsSvg(d, drop, short, svg) && ListsOnce(order, Layers(d, drop, short))
    ensures var markup := DocumentMarkup(order, bin => Items(d, svg.paths, drop, bin));
            Elements(markup) == svg.elements && Depth(markup, 0) == 0
  {
    var items := bin => Items(d, svg.paths, drop, bin);
    var total := LayerElements(d, svg.paths, drop);
    forall layer ensures Whole(LayerMarkup(layer, items), total(layer)) {
      WholeLayer(layer, items);
    }
    WholeLayers(order, Layers(d, drop, short), items, total);
    WholeGroup(LayersMarkup(order, items), Over(Layers(d, drop, short), total));
    assert Whole(DocumentMarkup(order, items), svg.elements);
  }
}
