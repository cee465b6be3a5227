/**
 The SVG's elements, and climbing the ladder until the document fits (api/cad_engine.py `Writer.svg`, `write`).
 */
module SvgDocument {
  import opened SvgPaths
  import opened SvgWriter
  import opened Sums

  // ----- what a document holds

  function FillsIn(fills: seq<Bin>, bin: Bin, drop: set<Kind>): nat {
    if fills == [] then 0
    else
      var last := fills[|fills|-1];
      FillsIn(fills[..|fills|-1], bin, drop) + if last == bin && FillKept(last, drop) then 1 else 0
  }

  function TextsIn(texts: seq<Text>, bin: Bin, drop: set<Kind>): nat {
    if texts == [] then 0
    else
      var last := texts[|texts|-1];
      TextsIn(texts[..|texts|-1], bin, drop) + if last.bin == bin && TextKept(last, drop) then 1 else 0
  }

  /** Paths of one style as far as they go to a layer and kind. */
  function PathsTo(paths: map<Style, seq<string>>, bin: Bin): Style -> nat {
    style => if BinOf(style) == bin then |PartsIn(paths, style)| else 0
  }

  function Styles(d: Drawing): set<Style> { set s | s in d.strokes :: s.style }

  /** Everything written for a layer and kind: paths, fills and texts. */
  ghost function Items(d: Drawing, paths: map<Style, seq<string>>, drop: set<Kind>, bin: Bin): nat {
    Over(Styles(d), PathsTo(paths, bin)) + FillsIn(d.fills, bin, drop) + TextsIn(d.texts, bin, drop)
  }

  function Group(n: nat): nat { if n == 0 then 0 else 1 + n }

  /** A layer's group, its geometry, and a group for each other kind it has. */
  function LayerTotal(geometry: nat, hatch: nat, dimension: nat, text: nat): nat {
    1 + geometry + Group(hatch) + Group(dimension) + Group(text)
  }

  ghost function LayerElements(d: Drawing, paths: map<Style, seq<string>>, drop: set<Kind>): string -> nat {
    layer => LayerTotal(Items(d, paths, drop, Bin(layer, "geometry")), Items(d, paths, drop, Bin(layer, "hatch")),
                        Items(d, paths, drop, Bin(layer, "dimension")), Items(d, paths, drop, Bin(layer, "text")))
  }

  /** The layers anything is kept of. */
  function Layers(d: Drawing, drop: set<Kind>, short: real): set<string> {
    (set s | s in d.strokes && StrokeKept(s, drop, short) :: s.style.layer)
    + (set f | f in d.fills && FillKept(f, drop) :: f.layer)
    + (set t | t in d.texts && TextKept(t, drop) :: t.bin.layer)
  }

  /** The document's paths and its elements, the outermost included. */
  datatype Svg = Svg(paths: map<Style, seq<string>>, elements: nat, counts: map<Bin, nat>)

  ghost predicate IsSvg(d: Drawing, drop: set<Kind>, short: real, svg: Svg) {
    && (forall style :: Packed(PartsOf(d.strokes, style, drop, short), PartsIn(svg.paths, style)))
    && svg.elements == 1 + Over(Layers(d, drop, short), LayerElements(d, svg.paths, drop))
    && (forall bin :: CountIn(svg.counts, bin)
                      == CountOf(d.strokes, bin, drop, short) + FillsIn(d.fills, bin, drop) + TextsIn(d.texts, bin, drop))
  }

  // ----- writing it

  lemma {:induction false} KeptStroke(strokes: seq<Stroke>, style: Style, drop: set<Kind>, short: real)
    ensures PartsOf(strokes, style, drop, short) != [] <==>
            exists s :: s in strokes && s.style == style && StrokeKept(s, drop, short)
  {
    if strokes != [] {
      KeptStroke(strokes[..|strokes|-1], style, drop, short);
      assert strokes == strokes[..|strokes|-1] + [strokes[|strokes|-1]];
    }
  }

  function Bumped(counts: map<Bin, nat>, bin: Bin, more: nat): map<Bin, nat> {
    counts[bin := CountIn(counts, bin) + more]
  }

  /** The sizes count the paths of the styles `done`. */
  ghost predicate Sized(sizes: map<Bin, nat>, paths: map<Style, seq<string>>, done: set<Style>) {
    forall bin :: CountIn(sizes, bin) == Over(done, PathsTo(paths, bin))
  }

  lemma SizedStep(sizes: map<Bin, nat>, paths: map<Style, seq<string>>, done: set<Style>, style: Style)
    requires Sized(sizes, paths, done) && style !in done && style in paths
    ensures Sized(Bumped(sizes, BinOf(style), |paths[style]|), paths, done + {style})
  {
    var next := Bumped(sizes, BinOf(style), |paths[style]|);
    forall bin ensures CountIn(next, bin) == Over(done + {style}, PathsTo(paths, bin)) {
      PutIn(done, PathsTo(paths, bin), style);
    }
  }

  /** How many paths each layer and kind has. */
  method CountPaths(paths: map<Style, seq<string>>) returns (sizes: map<Bin, nat>)
    ensures Sized(sizes, paths, paths.Keys)
  {
    sizes := map[];
    var left := paths.Keys;
    NoneSized(paths);
    while left != {}
      invariant left <= paths.Keys && Sized(sizes, paths, paths.Keys - left)
      decreases |left|
    {
      var style :| style in left;
      SizedStep(sizes, paths, paths.Keys - left, style);
      assert paths.Keys - left + {style} == paths.Keys - (left - {style});
      sizes := Bumped(sizes, BinOf(style), |paths[style]|);
      left := left - {style};
    }
    assert paths.Keys - left == paths.Keys;
  }

  lemma NoneSized(paths: map<Style, seq<string>>)
    ensures Sized(map[], paths, paths.Keys - paths.Keys)
  {
    assert paths.Keys - paths.Keys == {};
  }

  /** Adds one for each fill that is kept. */
  method CountFills(fills: seq<Bin>, drop: set<Kind>, counts: map<Bin, nat>) returns (more: map<Bin, nat>)
    ensures forall bin :: CountIn(more, bin) == CountIn(counts, bin) + FillsIn(fills, bin, drop)
  {
    more := counts;
    for i := 0 to |fills|
      invariant forall bin :: CountIn(more, bin) == CountIn(counts, bin) + FillsIn(fills[..i], bin, drop)
    {
      assert fills[..i+1][..i] == fills[..i];
      if FillKept(fills[i], drop) {
        more := Bumped(more, fills[i], 1);
      }
    }
    assert fills[..|fills|] == fills;
  }

  /** Adds one for each text that is kept. */
  method CountTexts(texts: seq<Text>, drop: set<Kind>, counts: map<Bin, nat>) returns (more: map<Bin, nat>)
    ensures forall bin :: CountIn(more, bin) == CountIn(counts, bin) + TextsIn(texts, bin, drop)
  {
    more := counts;
    for i := 0 to |texts|
      invariant forall bin :: CountIn(more, bin) == CountIn(counts, bin) + TextsIn(texts[..i], bin, drop)
    {
      assert texts[..i+1][..i] == texts[..i];
      if TextKept(texts[i], drop) {
        more := Bumped(more, texts[i].bin, 1);
      }
    }
    assert texts[..|texts|] == texts;
  }

  const GROUPED: seq<Kind> := ["hatch", "dimension", "text"]

  /** Elements of the groups of the first kinds that are grouped. */
  function Groups(sizes: map<Bin, nat>, layer: string, k: nat): nat
    requires k <= |GROUPED|
  {
    if k == 0 then 0 else Groups(sizes, layer, k - 1) + Group(CountIn(sizes, Bin(layer, GROUPED[k-1])))
  }

  function SizedLayer(sizes: map<Bin, nat>): string -> nat {
    layer => LayerTotal(CountIn(sizes, Bin(layer, "geometry")), CountIn(sizes, Bin(layer, "hatch")),
                        CountIn(sizes, Bin(layer, "dimension")), CountIn(sizes, Bin(layer, "text")))
  }

  lemma AllGroups(sizes: map<Bin, nat>, layer: string)
    ensures SizedLayer(sizes)(layer) == 1 + CountIn(sizes, Bin(layer, "geometry")) + Groups(sizes, layer, |GROUPED|)
  {
    assert Groups(sizes, layer, 1) == Group(CountIn(sizes, Bin(layer, GROUPED[0])));
    assert Groups(sizes, layer, 2) == Groups(sizes, layer, 1) + Group(CountIn(sizes, Bin(layer, GROUPED[1])));
    assert Groups(sizes, layer, 3) == Groups(sizes, layer, 2) + Group(CountIn(sizes, Bin(layer, GROUPED[2])));
  }

  /** The elements of one layer, group by group. */
  method CountLayer(sizes: map<Bin, nat>, layer: string) returns (elements: nat)
    ensures elements == SizedLayer(sizes)(layer)
  {
    elements := 1 + CountIn(sizes, Bin(layer, "geometry"));
    for k := 0 to |GROUPED|
      invariant elements == 1 + CountIn(sizes, Bin(layer, "geometry")) + Groups(sizes, layer, k)
    {
      var items := CountIn(sizes, Bin(layer, GROUPED[k]));
      if items > 0 {
        elements := elements + 1 + items;
      }
    }
    AllGroups(sizes, layer);
  }

  method CountElements(layers: set<string>, sizes: map<Bin, nat>) returns (elements: nat)
    ensures elements == 1 + Over(layers, SizedLayer(sizes))
  {
    ghost var total := SizedLayer(sizes);
    elements := 1;
    var left := layers;
    NoneCounted(layers, total);
    while left != {}
      invariant left <= layers && elements == 1 + Over(layers - left, total)
      decreases |left|
    {
      var layer :| layer in left;
      var more := CountLayer(sizes, layer);
      CountedOne(layers, left, total, layer);
      elements := elements + more;
      left := left - {layer};
    }
    AllCounted(layers, total);
  }

  /** How many paths, fills and texts each layer and kind has. */
  method CountItems(d: Drawing, paths: map<Style, seq<string>>, drop: set<Kind>, ghost short: real)
    returns (sizes: map<Bin, nat>)
    requires forall style :: style in paths <==> PartsOf(d.strokes, style, drop, short) != []
    ensures forall bin :: CountIn(sizes, bin) == Items(d, paths, drop, bin)
  {
    var strokes := CountPaths(paths);
    var filled := CountFills(d.fills, drop, strokes);
    sizes := CountTexts(d.texts, drop, filled);
    forall bin ensures CountIn(strokes, bin) == Over(Styles(d), PathsTo(paths, bin)) {
      PathsOfStyles(d, paths, drop, short, bin);
    }
  }

  lemma SizesDecide(d: Drawing, paths: map<Style, seq<string>>, drop: set<Kind>, sizes: map<Bin, nat>, layers: set<string>)
    requires forall bin :: CountIn(sizes, bin) == Items(d, paths, drop, bin)
    ensures Over(layers, SizedLayer(sizes)) == Over(layers, LayerElements(d, paths, drop))
  {
    forall layer ensures SizedLayer(sizes)(layer) == LayerElements(d, paths, drop)(layer) {
      assert CountIn(sizes, Bin(layer, "geometry")) == Items(d, paths, drop, Bin(layer, "geometry"));
      assert CountIn(sizes, Bin(layer, "hatch")) == Items(d, paths, drop, Bin(layer, "hatch"));
      assert CountIn(sizes, Bin(layer, "dimension")) == Items(d, paths, drop, Bin(layer, "dimension"));
      assert CountIn(sizes, Bin(layer, "text")) == Items(d, paths, drop, Bin(layer, "text"));
    }
    Monotone(layers, layers, SizedLayer(sizes), LayerElements(d, paths, drop));
    Monotone(layers, layers, LayerElements(d, paths, drop), SizedLayer(sizes));
  }

  /** The elements of the layers that anything is kept of. */
  method ElementsOf(d: Drawing, paths: map<Style, seq<string>>, drop: set<Kind>, ghost short: real) returns (elements: nat)
    requires forall style :: style in paths <==> PartsOf(d.strokes, style, drop, short) != []
    ensures elements == 1 + Over(Layers(d, drop, short), LayerElements(d, paths, drop))
  {
    var sizes := CountItems(d, paths, drop, short);
    var layers := (set style | style in paths :: style.layer)
                  + (set f | f in d.fills && FillKept(f, drop) :: f.layer)
                  + (set t | t in d.texts && TextKept(t, drop) :: t.bin.layer);
    StrokeLayers(d, paths, drop, short);
    SizesDecide(d, paths, drop, sizes, layers);
    elements := CountElements(layers, sizes);
  }

  /** The document with some kinds and the strokes below a length left out. */
  method WriteSvg(d: Drawing, drop: set<Kind>, short: real) returns (svg: Svg)
    ensures IsSvg(d, drop, short, svg)
  {
    var paths, strokes := StrokePaths(d.strokes, drop, short);
    var counts := CountRest(d, drop, strokes);
    var elements := ElementsOf(d, paths, drop, short);
    return Svg(paths, elements, counts);
  }

  method CountRest(d: Drawing, drop: set<Kind>, strokes: map<Bin, nat>) returns (counts: map<Bin, nat>)
    ensures forall bin :: CountIn(counts, bin)
                          == CountIn(strokes, bin) + FillsIn(d.fills, bin, drop) + TextsIn(d.texts, bin, drop)
  {
    var filled := CountFills(d.fills, drop, strokes);
    counts := CountTexts(d.texts, drop, filled);
  }

  lemma PathsOfStyles(d: Drawing, paths: map<Style, seq<string>>, drop: set<Kind>, short: real, bin: Bin)
    requires forall style :: style in paths <==> PartsOf(d.strokes, style, drop, short) != []
    ensures Over(paths.Keys, PathsTo(paths, bin)) == Over(Styles(d), PathsTo(paths, bin))
  {
    forall style | style in paths ensures style in Styles(d) {
      KeptStroke(d.strokes, style, drop, short);
    }
    ZeroOutside(paths.Keys, Styles(d), PathsTo(paths, bin));
  }

  lemma StrokeLayers(d: Drawing, paths: map<Style, seq<string>>, drop: set<Kind>, short: real)
    requires forall style :: style in paths <==> PartsOf(d.strokes, style, drop, short) != []
    ensures (set style | style in paths :: style.layer)
         == (set s | s in d.strokes && StrokeKept(s, drop, short) :: s.style.layer)
  {
    forall style ensures style in paths <==> exists s :: s in d.strokes && s.style == style && StrokeKept(s, drop, short) {
      KeptStroke(d.strokes, style, drop, short);
    }
    forall s | s in d.strokes && StrokeKept(s, drop, short) ensures s.style in paths {}
  }

  // ----- along the ladder

  lemma {:induction false} FewerFills(fills: seq<Bin>, bin: Bin, drop: set<Kind>, more: set<Kind>)
    requires drop <= more
    ensures FillsIn(fills, bin, more) <= FillsIn(fills, bin, drop)
  {
    if fills != [] {
      FewerFills(fills[..|fills|-1], bin, drop, more);
    }
  }

  lemma {:induction false} FewerTexts(texts: seq<Text>, bin: Bin, drop: set<Kind>, more: set<Kind>)
    requires drop <= more
    ensures TextsIn(texts, bin, more) <= TextsIn(texts, bin, drop)
  {
    if texts != [] {
      FewerTexts(texts[..|texts|-1], bin, drop, more);
    }
  }

  /** The document after `n` steps of the ladder. */
  ghost predicate IsStep(d: Drawing, n: nat, svg: Svg)
    requires n <= |LADDER|
  {
    IsSvg(d, Dropped(n), Shortest(n, d.diag), svg)
  }

  lemma FewerPaths(d: Drawing, m: nat, n: nat, a: Svg, b: Svg, style: Style)
    requires m <= n <= |LADDER| && d.diag >= 0.0 && IsStep(d, m, a) && IsStep(d, n, b)
    ensures |PartsIn(b.paths, style)| <= |PartsIn(a.paths, style)|
  {
    var before := PartsOf(d.strokes, style, Dropped(m), Shortest(m, d.diag));
    var after := PartsOf(d.strokes, style, Dropped(n), Shortest(n, d.diag));
    assert Packed(before, PartsIn(a.paths, style)) && Packed(after, PartsIn(b.paths, style));
    var cuts :| PathsOf(before, cuts, PartsIn(a.paths, style)) && Greedy(before, cuts);
    var later :| PathsOf(after, later, PartsIn(b.paths, style)) && Greedy(after, later);
    LaterNeedsNoMorePaths(d, style, m, n, cuts, later);
  }

  lemma FewerStrokePaths(d: Drawing, m: nat, n: nat, a: Svg, b: Svg, bin: Bin)
    requires m <= n <= |LADDER| && d.diag >= 0.0 && IsStep(d, m, a) && IsStep(d, n, b)
    ensures Over(Styles(d), PathsTo(b.paths, bin)) <= Over(Styles(d), PathsTo(a.paths, bin))
  {
    forall style ensures |PartsIn(b.paths, style)| <= |PartsIn(a.paths, style)| {
      FewerPaths(d, m, n, a, b, style);
    }
    FewerTo(Styles(d), a.paths, b.paths, bin);
  }

  lemma FewerTo(styles: set<Style>, a: map<Style, seq<string>>, b: map<Style, seq<string>>, bin: Bin)
    requires forall style :: |PartsIn(b, style)| <= |PartsIn(a, style)|
    ensures Over(styles, PathsTo(b, bin)) <= Over(styles, PathsTo(a, bin))
  {
    Monotone(styles, styles, PathsTo(b, bin), PathsTo(a, bin));
  }

  lemma FewerItems(d: Drawing, m: nat, n: nat, a: Svg, b: Svg, bin: Bin)
    requires m <= n <= |LADDER| && d.diag >= 0.0 && IsStep(d, m, a) && IsStep(d, n, b)
    ensures Items(d, b.paths, Dropped(n), bin) <= Items(d, a.paths, Dropped(m), bin)
  {
    FewerStrokePaths(d, m, n, a, b, bin);
    DropsGrow(m, n);
    FewerFills(d.fills, bin, Dropped(m), Dropped(n));
    FewerTexts(d.texts, bin, Dropped(m), Dropped(n));
  }

  lemma TotalGrows(a: nat, b: nat, c: nat, d: nat, a': nat, b': nat, c': nat, d': nat)
    requires a <= a' && b <= b' && c <= c' && d <= d'
    ensures LayerTotal(a, b, c, d) <= LayerTotal(a', b', c', d')
  {
  }

  lemma FewerInLayer(d: Drawing, m: nat, n: nat, a: Svg, b: Svg, layer: string)
    requires m <= n <= |LADDER| && d.diag >= 0.0 && IsStep(d, m, a) && IsStep(d, n, b)
    ensures LayerElements(d, b.paths, Dropped(n))(layer) <= LayerElements(d, a.paths, Dropped(m))(layer)
  {
    FewerItems(d, m, n, a, b, Bin(layer, "geometry"));
    FewerItems(d, m, n, a, b, Bin(layer, "hatch"));
    FewerItems(d, m, n, a, b, Bin(layer, "dimension"));
    FewerItems(d, m, n, a, b, Bin(layer, "text"));
    var less, more := (kind: Kind) => Items(d, b.paths, Dropped(n), Bin(layer, kind)),
                      (kind: Kind) => Items(d, a.paths, Dropped(m), Bin(layer, kind));
    TotalGrows(less("geometry"), less("hatch"), less("dimension"), less("text"),
               more("geometry"), more("hatch"), more("dimension"), more("text"));
  }

  lemma FewerLayers(d: Drawing, m: nat, n: nat)
    requires m <= n <= |LADDER| && d.diag >= 0.0
    ensures Layers(d, Dropped(n), Shortest(n, d.diag)) <= Layers(d, Dropped(m), Shortest(m, d.diag))
  {
    LaterKeepsLess(d, m, n);
  }

  /** A later step of the ladder never has more elements. */
  lemma LaterHasNoMoreElements(d: Drawing, m: nat, n: nat, a: Svg, b: Svg)
    requires m <= n <= |LADDER| && d.diag >= 0.0 && IsStep(d, m, a) && IsStep(d, n, b)
    ensures b.elements <= a.elements
  {
    var before, after := LayerElements(d, a.paths, Dropped(m)), LayerElements(d, b.paths, Dropped(n));
    FewerLayers(d, m, n);
    forall layer ensures after(layer) <= before(layer) {
      FewerInLayer(d, m, n, a, b, layer);
    }
    Monotone(Layers(d, Dropped(n), Shortest(n, d.diag)), Layers(d, Dropped(m), Shortest(m, d.diag)), after, before);
  }

  // ----- climbing it

  /** The document after `n` steps fits all three limits; `bytes` is the length of the encoded markup. */
  ghost predicate Fits(d: Drawing, bytes: (set<Kind>, real) -> nat, limits: Limits, n: nat)
    requires n <= |LADDER|
  {
    && bytes(Dropped(n), Shortest(n, d.diag)) <= limits.bytes
    && (forall svg | IsStep(d, n, svg) :: svg.elements <= limits.elements)
    && Chars(d, Dropped(n)) <= limits.chars
  }

  /** Every document of a step has the same number of elements, so one decides. */
  lemma OneDecides(d: Drawing, bytes: (set<Kind>, real) -> nat, limits: Limits, n: nat, svg: Svg)
    requires n <= |LADDER| && d.diag >= 0.0 && IsStep(d, n, svg)
    ensures Fits(d, bytes, limits, n) <==>
            && bytes(Dropped(n), Shortest(n, d.diag)) <= limits.bytes && svg.elements <= limits.elements
            && Chars(d, Dropped(n)) <= limits.chars
  {
    forall other | IsStep(d, n, other) ensures other.elements == svg.elements {
      LaterHasNoMoreElements(d, n, n, svg, other);
      LaterHasNoMoreElements(d, n, n, other, svg);
    }
  }

  /** One step: its document, and whether that is within the limits. */
  method TryStep(d: Drawing, bytes: (set<Kind>, real) -> nat, limits: Limits, ghost n: nat, drop: set<Kind>, short: real)
    returns (fits: bool, svg: Svg)
    requires d.diag >= 0.0 && n <= |LADDER| && drop == Dropped(n) && short == Shortest(n, d.diag)
    ensures IsStep(d, n, svg) && fits == Fits(d, bytes, limits, n)
  {
    svg := WriteSvg(d, drop, short);
    OneDecides(d, bytes, limits, n, svg);
    fits := bytes(drop, short) <= limits.bytes && svg.elements <= limits.elements && Chars(d, drop) <= limits.chars;
  }

  datatype Written = Written(svg: Svg, steps: seq<string>) | TooLarge

  /** What the loop has dropped and recorded after `n` steps. */
  ghost predicate Climbed(n: nat, drop: set<Kind>, steps: seq<string>) {
    n <= |LADDER| && steps == LADDER[..n] && drop == Dropped(n)
  }

  /** Takes the next step of the ladder. */
  method Climb(d: Drawing, n: nat, drop: set<Kind>, steps: seq<string>)
    returns (more: set<Kind>, taken: seq<string>, short: real)
    requires n < |LADDER| && Climbed(n, drop, steps)
    ensures Climbed(n + 1, more, taken) && short == Shortest(n + 1, d.diag)
  {
    var step := LADDER[n];
    taken := steps + [step];
    assert LADDER[..n+1] == LADDER[..n] + [step];
    if Fraction(step) != 0.0 {
      more, short := drop, d.diag / Fraction(step);
    } else {
      more, short := drop + {step}, 0.0;
    }
  }

  /** No step before the `n`-th is within the limits. */
  ghost predicate NoneBefore(d: Drawing, bytes: (set<Kind>, real) -> nat, limits: Limits, n: nat)
    requires n <= |LADDER| + 1
  {
    n == 0 || (NoneBefore(d, bytes, limits, n - 1) && !Fits(d, bytes, limits, n - 1))
  }

  lemma {:induction false} NoneBeforeEach(d: Drawing, bytes: (set<Kind>, real) -> nat, limits: Limits, n: nat, m: nat)
    requires m < n <= |LADDER| + 1 && NoneBefore(d, bytes, limits, n)
    ensures !Fits(d, bytes, limits, m)
    decreases n
  {
    if m < n - 1 {
      NoneBeforeEach(d, bytes, limits, n - 1, m);
    }
  }

  lemma NoneBeforeAll(d: Drawing, bytes: (set<Kind>, real) -> nat, limits: Limits, n: nat)
    requires n <= |LADDER| + 1 && NoneBefore(d, bytes, limits, n)
    ensures forall m | 0 <= m < n :: !Fits(d, bytes, limits, m)
  {
    forall m | 0 <= m < n ensures !Fits(d, bytes, limits, m) {
      NoneBeforeEach(d, bytes, limits, n, m);
    }
  }

  /** Climbs the ladder to the first document within the limits, or past its end. */
  method Write(d: Drawing, bytes: (set<Kind>, real) -> nat, limits: Limits) returns (r: Written)
    requires d.diag >= 0.0
    ensures r.Written? ==>
              var n := |r.steps|;
              && n <= |LADDER| && r.steps == LADDER[..n] && IsStep(d, n, r.svg)
              && Fits(d, bytes, limits, n) && forall m | 0 <= m < n :: !Fits(d, bytes, limits, m)
    ensures r.TooLarge? <==> forall m | 0 <= m <= |LADDER| :: !Fits(d, bytes, limits, m)
  {
    r := ClimbOn(d, bytes, limits);
    NoneBeforeAll(d, bytes, limits, if r.Written? then |r.steps| else |LADDER| + 1);
  }

  method ClimbOn(d: Drawing, bytes: (set<Kind>, real) -> nat, limits: Limits) returns (r: Written)
    requires d.diag >= 0.0
    ensures r.Written? ==>
              var n := |r.steps|;
              && n <= |LADDER| && r.steps == LADDER[..n] && IsStep(d, n, r.svg)
              && Fits(d, bytes, limits, n) && NoneBefore(d, bytes, limits, n)
    ensures r.TooLarge? ==> NoneBefore(d, bytes, limits, |LADDER| + 1)
  {
    var drop: set<Kind>, steps: seq<string>, short := {}, [], 0.0;
    var n: nat := 0;
    while true
      invariant Climbed(n, drop, steps) && short == Shortest(n, d.diag)
      invariant NoneBefore(d, bytes, limits, n)
      decreases |LADDER| - n
    {
      var fits, svg := TryStep(d, bytes, limits, n, drop, short);
      if fits {
        return Written(svg, steps);
      }
      if n == |LADDER| {
        return TooLarge;
      }
      drop, steps, short := Climb(d, n, drop, steps);
      n := n + 1;
    }
  }
}
