/**
 How many entities a drawing expands to with every block reference followed (api/cad_engine.py `expansion`):
 memoised per block, with the blocks being counted kept apart to catch references back to them, and given up
 as soon as the total passes the cap.
 */
module BlockExpansion {
  import opened Basics

  datatype Entity = Shape | Insert(name: string, rows: int, columns: int, attribs: nat)
  type Blocks = map<string, seq<Entity>>

  datatype Cost = Count(n: nat) | Infinite

  const MAX_PRIMITIVES := 3_000_000

  predicate Over(c: Cost) { c.Infinite? || c.n > MAX_PRIMITIVES }

  function AtLeastOne(n: int): nat { if n < 1 then 1 else n }

  function Reps(e: Entity): (r: nat)
    requires e.Insert?
    ensures 1 <= r
  {
    TimesAtLeast(AtLeastOne(e.rows), AtLeastOne(e.columns));
    AtLeastOne(e.rows) * AtLeastOne(e.columns)
  }

  lemma TimesAtLeast(a: nat, b: nat)
    ensures 1 <= b ==> a <= a * b
    ensures 1 <= a && 1 <= b ==> 1 <= a * b
  {
  }

  function Plus(a: Cost, b: Cost): Cost {
    if a.Infinite? || b.Infinite? then Infinite else Count(a.n + b.n)
  }

  function Times(a: Cost, reps: nat): Cost {
    if a.Infinite? then Infinite else Count(a.n * reps)
  }

  // ----- what the drawing really holds

  /** The entities when references are followed `depth` levels deep and no further. */
  ghost function Unrolled(blocks: Blocks, es: seq<Entity>, depth: nat): nat
    decreases depth, |es|
  {
    if es == [] then 0
    else Unrolled(blocks, es[..|es|-1], depth) + One(blocks, es[|es|-1], depth)
  }

  ghost function One(blocks: Blocks, e: Entity, depth: nat): nat
    decreases depth, 0
  {
    match e
    case Shape => 1
    case Insert(name, _, _, attribs) =>
      (if depth == 0 || name !in blocks then 0 else Unrolled(blocks, blocks[name], depth - 1)) * Reps(e) + attribs
  }

  /** References nest at most `depth` levels deep below `es`. */
  ghost predicate Nested(blocks: Blocks, es: seq<Entity>, depth: nat)
    decreases depth
  {
    forall i | 0 <= i < |es| && es[i].Insert? && es[i].name in blocks ::
      depth > 0 && Nested(blocks, blocks[es[i].name], depth - 1)
  }

  ghost predicate Refers(es: seq<Entity>, name: string) {
    exists i :: 0 <= i < |es| && es[i].Insert? && es[i].name == name
  }

  /** A chain of blocks, each holding a reference to the next. */
  ghost predicate Chain(blocks: Blocks, trail: seq<string>) {
    && (forall i | 0 <= i < |trail| :: trail[i] in blocks)
    && (forall i | 0 < i < |trail| :: Linked(blocks, trail, i))
  }

  ghost predicate Linked(blocks: Blocks, trail: seq<string>, i: int)
    requires 0 < i < |trail|
  {
    trail[i-1] in blocks && Refers(blocks[trail[i-1]], trail[i])
  }

  /** A chain starting at a reference of `es` comes back to a block it already went through. */
  ghost predicate Loops(blocks: Blocks, es: seq<Entity>, trail: seq<string>) {
    && Chain(blocks, trail) && trail != [] && Refers(es, trail[0])
    && exists i :: 0 <= i < |trail| - 1 && trail[i] == trail[|trail|-1]
  }

  ghost predicate CycleReachable(blocks: Blocks, es: seq<Entity>) {
    exists trail :: Loops(blocks, es, trail)
  }

  ghost predicate TooMany(blocks: Blocks, es: seq<Entity>) {
    exists depth: nat :: Unrolled(blocks, es, depth) > MAX_PRIMITIVES
  }

  // ----- facts about unrolling

  lemma {:induction false} Deeper(blocks: Blocks, es: seq<Entity>, d: nat, e: nat)
    requires d <= e
    ensures Unrolled(blocks, es, d) <= Unrolled(blocks, es, e)
    ensures Nested(blocks, es, d) ==> Nested(blocks, es, e) && Unrolled(blocks, es, d) == Unrolled(blocks, es, e)
    decreases e, |es|
  {
    if es != [] {
      var last := es[|es|-1];
      Deeper(blocks, es[..|es|-1], d, e);
      if Nested(blocks, es, d) {
        assert Nested(blocks, es[..|es|-1], d);
      }
      if last.Insert? && last.name in blocks {
        if d > 0 {
          Deeper(blocks, blocks[last.name], d - 1, e - 1);
        }
        var a := if d == 0 then 0 else Unrolled(blocks, blocks[last.name], d - 1);
        var b := if e == 0 then 0 else Unrolled(blocks, blocks[last.name], e - 1);
        ScaleMonotone(a, b, Reps(last));
      }
    }
  }

  lemma ScaleMonotone(a: nat, b: nat, k: nat)
    ensures a <= b ==> a * k <= b * k
  {
  }

  /** A part of the entities never unrolls to more than the whole. */
  lemma {:induction false} PrefixLess(blocks: Blocks, es: seq<Entity>, k: nat, d: nat)
    requires k <= |es|
    ensures Unrolled(blocks, es[..k], d) <= Unrolled(blocks, es, d)
    decreases |es|
  {
    if k < |es| {
      PrefixLess(blocks, es[..|es|-1], k, d);
      assert es[..|es|-1][..k] == es[..k];
    } else {
      assert es[..k] == es;
    }
  }

  lemma {:induction false} ChainBounded(blocks: Blocks, es: seq<Entity>, trail: seq<string>, d: nat)
    requires Nested(blocks, es, d) && Chain(blocks, trail) && trail != [] && Refers(es, trail[0])
    ensures |trail| <= d
    decreases d
  {
    var i :| 0 <= i < |es| && es[i].Insert? && es[i].name == trail[0];
    if |trail| > 1 {
      var rest := trail[1..];
      assert Chain(blocks, rest) by {
        forall k | 0 < k < |rest| ensures Linked(blocks, rest, k) {
          assert Linked(blocks, trail, k + 1);
        }
      }
      assert Linked(blocks, trail, 1);
      ChainBounded(blocks, blocks[trail[0]], rest, d - 1);
    }
  }

  /** A chain that comes back can be walked for as long as one likes. */
  lemma {:induction false} LoopGrows(blocks: Blocks, es: seq<Entity>, trail: seq<string>, n: nat) returns (long: seq<string>)
    requires Loops(blocks, es, trail)
    ensures Loops(blocks, es, long) && |long| >= n
    decreases n - |trail|
  {
    if |trail| >= n {
      long := trail;
    } else {
      var i :| 0 <= i < |trail| - 1 && trail[i] == trail[|trail|-1];
      var more := trail + [trail[i+1]];
      assert Linked(blocks, trail, i + 1);
      assert Chain(blocks, more) by {
        forall k | 0 < k < |more| ensures Linked(blocks, more, k) {
          assert k < |trail| ==> Linked(blocks, trail, k);
        }
      }
      assert more[i+1] == more[|more|-1];
      long := LoopGrows(blocks, es, more, n);
    }
  }

  /** What nests to a known depth has no loop below it. */
  lemma NestedHasNoCycle(blocks: Blocks, es: seq<Entity>, d: nat)
    requires Nested(blocks, es, d)
    ensures !CycleReachable(blocks, es)
  {
    forall trail ensures !Loops(blocks, es, trail) {
      if Loops(blocks, es, trail) {
        var long := LoopGrows(blocks, es, trail, d + 1);
        ChainBounded(blocks, es, long, d);
      }
    }
  }

  // ----- what a computed cost says

  ghost predicate Bad(blocks: Blocks, es: seq<Entity>) {
    CycleReachable(blocks, es) || TooMany(blocks, es)
  }

  ghost predicate Exact(blocks: Blocks, es: seq<Entity>, n: nat, depth: nat) {
    Nested(blocks, es, depth) && Unrolled(blocks, es, depth) == n
  }

  /** Over the cap only with reason, exact otherwise. */
  ghost predicate Says(blocks: Blocks, es: seq<Entity>, c: Cost) {
    if Over(c) then Bad(blocks, es) else exists depth: nat :: Exact(blocks, es, c.n, depth)
  }

  /** A block that is bad makes everything that refers to it bad. */
  lemma BadSpreads(blocks: Blocks, es: seq<Entity>, i: nat)
    requires i < |es| && es[i].Insert? && es[i].name in blocks && Bad(blocks, blocks[es[i].name])
    ensures Bad(blocks, es)
  {
    var name := es[i].name;
    if CycleReachable(blocks, blocks[name]) {
      var trail :| Loops(blocks, blocks[name], trail);
      var longer := [name] + trail;
      var k :| 0 <= k < |trail| - 1 && trail[k] == trail[|trail|-1];
      assert longer[k+1] == longer[|longer|-1];
      assert Chain(blocks, longer) by {
        forall j | 0 < j < |longer| ensures Linked(blocks, longer, j) {
          assert j > 1 ==> Linked(blocks, trail, j - 1);
        }
      }
      assert Loops(blocks, es, longer);
    } else {
      var d: nat :| Unrolled(blocks, blocks[name], d) > MAX_PRIMITIVES;
      TimesAtLeast(Unrolled(blocks, blocks[name], d), Reps(es[i]));
      assert es[..i+1][..i] == es[..i];
      PrefixLess(blocks, es, i + 1, d + 1);
      assert Unrolled(blocks, es, d + 1) > MAX_PRIMITIVES;
    }
  }

  class Expander {
    const blocks: Blocks
    var memo: map<string, Cost>
    var busy: set<string>

    constructor (blocks: Blocks)
      ensures this.blocks == blocks && memo == map[] && busy == {}
    {
      this.blocks := blocks;
      memo := map[];
      busy := {};
    }

    ghost predicate MemoTrue()
      reads this
    {
      forall name | name in memo :: name in blocks && Says(blocks, blocks[name], memo[name])
    }

    /** The blocks being counted, outermost first, each referring to the next. */
    ghost predicate Counting(trail: seq<string>)
      reads this
    {
      && Chain(blocks, trail) && busy <= blocks.Keys && forall name | name in busy :: name in trail
    }

    method CostOf(es: seq<Entity>, ghost trail: seq<string>) returns (total: Cost)
      requires MemoTrue() && Counting(trail)
      requires trail != [] ==> es == blocks[trail[|trail|-1]]
      modifies this
      ensures MemoTrue() && busy == old(busy)
      ensures Says(blocks, es, total)
      decreases |blocks.Keys - busy|, 2
    {
      total := Count(0);
      ghost var depth := 0;
      for i := 0 to |es|
        invariant MemoTrue() && busy == old(busy)
        invariant !Over(total) && Exact(blocks, es[..i], total.n, depth)
      {
        var e := es[i];
        ghost var before := total.n;
        if e.Insert? {
          assert Refers(es, e.name);
          var c := Block(e.name, es, trail);
          total := Plus(total, Plus(Times(c, Reps(e)), Count(e.attribs)));
          depth := AddInsert(blocks, es, i, before, depth, c);
        } else {
          total := Plus(total, Count(1));
          AddShape(blocks, es, i, before, depth);
        }
        if Over(total) {
          return;
        }
      }
      assert es[..|es|] == es;
    }

    method Block(name: string, ghost es: seq<Entity>, ghost trail: seq<string>) returns (c: Cost)
      requires MemoTrue() && Counting(trail) && Refers(es, name)
      requires trail != [] ==> es == blocks[trail[|trail|-1]]
      modifies this
      ensures MemoTrue() && busy == old(busy)
      ensures if name in blocks then Says(blocks, blocks[name], c) else c == Count(0)
      decreases |blocks.Keys - busy|, 1
    {
      if name in memo {
        return memo[name];
      }
      if name in busy {
        BackToBusy(blocks, trail, name);
        return Infinite;
      }
      if name !in blocks {
        return Count(0);
      }
      c := CountBlock(name, trail);
    }

    /** Counts a block for the first time, busy while it is counted. */
    method CountBlock(name: string, ghost trail: seq<string>) returns (c: Cost)
      requires MemoTrue() && Counting(trail) && name in blocks && name !in busy
      requires trail != [] ==> Refers(blocks[trail[|trail|-1]], name)
      modifies this
      ensures MemoTrue() && busy == old(busy) && Says(blocks, blocks[name], c)
      decreases |blocks.Keys - busy|, 0
    {
      ghost var deeper, outer := trail + [name], busy;
      ChainOn(blocks, trail, name);
      FewerLeft(blocks.Keys - (busy + {name}), blocks.Keys - busy, name);
      busy := busy + {name};
      c := CostOf(blocks[name], deeper);
      memo := memo[name := c];
      busy := busy - {name};
      assert busy == outer;
    }
  }

  lemma ChainOn(blocks: Blocks, trail: seq<string>, name: string)
    requires Chain(blocks, trail) && name in blocks
    requires trail != [] ==> Refers(blocks[trail[|trail|-1]], name)
    ensures Chain(blocks, trail + [name])
  {
    forall j | 0 < j <= |trail| ensures Linked(blocks, trail + [name], j) {
      assert j < |trail| ==> Linked(blocks, trail, j);
    }
  }

  lemma FewerLeft<T>(a: set<T>, b: set<T>, x: T)
    requires a <= b && x in b && x !in a
    ensures |a| < |b|
  {
    assert b == a + (b - a);
  }

  /** A reference to a block still being counted closes a loop through it. */
  lemma BackToBusy(blocks: Blocks, trail: seq<string>, name: string)
    requires Chain(blocks, trail) && name in trail && Refers(blocks[trail[|trail|-1]], name)
    ensures CycleReachable(blocks, blocks[name])
  {
    var k :| 0 <= k < |trail| && trail[k] == name;
    var around := trail[k+1..] + [name] + (if k + 1 < |trail| then [trail[k+1]] else [name]);
    assert k + 1 < |trail| ==> Linked(blocks, trail, k + 1);
    forall i | 0 < i < |around| ensures Linked(blocks, around, i) {
      assert i < |trail| - k - 1 ==> Linked(blocks, trail, k + 1 + i);
    }
    assert around[0] == around[|around|-1];
    assert Loops(blocks, blocks[name], around);
  }

  lemma AddShape(blocks: Blocks, es: seq<Entity>, i: nat, n: nat, depth: nat)
    requires i < |es| && es[i].Shape? && Exact(blocks, es[..i], n, depth)
    ensures Exact(blocks, es[..i+1], n + 1, depth)
    ensures n + 1 > MAX_PRIMITIVES ==> Bad(blocks, es)
  {
    assert es[..i+1][..i] == es[..i];
    OverPrefix(blocks, es, i + 1, n + 1, depth);
  }

  /** One reference counted: the running total stays exact, or the drawing is bad. */
  lemma AddInsert(blocks: Blocks, es: seq<Entity>, i: nat, n: nat, depth: nat, c: Cost) returns (deeper: nat)
    requires i < |es| && es[i].Insert? && Exact(blocks, es[..i], n, depth)
    requires if es[i].name in blocks then Says(blocks, blocks[es[i].name], c) else c == Count(0)
    ensures var next := Plus(Count(n), Plus(Times(c, Reps(es[i])), Count(es[i].attribs)));
            if Over(next) then Bad(blocks, es) else Exact(blocks, es[..i+1], next.n, deeper)
  {
    deeper := 0;
    if Over(c) {
      BadSpreads(blocks, es, i);
      if c.Count? {
        TimesAtLeast(c.n, Reps(es[i]));
      }
    } else {
      deeper := InsertExact(blocks, es, i, n, depth, c.n);
      OverPrefix(blocks, es, i + 1, n + (c.n * Reps(es[i]) + es[i].attribs), deeper);
    }
  }

  lemma OverPrefix(blocks: Blocks, es: seq<Entity>, k: nat, n: nat, depth: nat)
    requires k <= |es| && Exact(blocks, es[..k], n, depth)
    ensures n > MAX_PRIMITIVES ==> Bad(blocks, es)
  {
    PrefixLess(blocks, es, k, depth);
    assert n > MAX_PRIMITIVES ==> Unrolled(blocks, es, depth) > MAX_PRIMITIVES;
  }

  lemma InsertExact(blocks: Blocks, es: seq<Entity>, i: nat, n: nat, depth: nat, c: nat) returns (deeper: nat)
    requires i < |es| && es[i].Insert? && Exact(blocks, es[..i], n, depth)
    requires if es[i].name in blocks then exists d: nat :: Exact(blocks, blocks[es[i].name], c, d) else c == 0
    ensures Exact(blocks, es[..i+1], n + (c * Reps(es[i]) + es[i].attribs), deeper)
  {
    assert es[..i+1][..i] == es[..i];
    if es[i].name in blocks {
      var d: nat :| Exact(blocks, blocks[es[i].name], c, d);
      deeper := if depth > d then depth else d + 1;
      Deeper(blocks, es[..i], depth, deeper);
      Deeper(blocks, blocks[es[i].name], d, deeper - 1);
    } else {
      deeper := depth;
    }
  }

  // ----- what the numbers count

  /** A step towards something drawn: into one cell of a reference's array, or to a shape, or to an attribute. */
  datatype Step = Cell(at: nat, row: nat, column: nat) | Here(at: nat) | Attribute(at: nat, k: nat)

  /** A position of an array of `n`, which has at least one. */
  predicate InArray(k: nat, n: int) { k == 0 || k < n }

  /** Something drawn: the trail leads from `es` through references to a shape or an attribute. */
  ghost predicate Drawn(blocks: Blocks, es: seq<Entity>, trail: seq<Step>)
    decreases |trail|
  {
    && trail != [] && trail[0].at < |es|
    && var e := es[trail[0].at];
       match trail[0]
       case Here(_) => e.Shape? && |trail| == 1
       case Attribute(_, k) => e.Insert? && k < e.attribs && |trail| == 1
       case Cell(_, row, column) =>
         && e.Insert? && e.name in blocks && InArray(row, e.rows) && InArray(column, e.columns)
         && Drawn(blocks, blocks[e.name], trail[1..])
  }

  /** The trails of `inner` with one step in front. */
  ghost function Behind(s: Step, inner: set<seq<Step>>): set<seq<Step>> {
    set t | t in inner :: [s] + t
  }

  lemma BehindHas(s: Step, inner: set<seq<Step>>, t: seq<Step>)
    ensures t in Behind(s, inner) <==> t != [] && t[0] == s && t[1..] in inner
  {
    if t != [] && t[0] == s && t[1..] in inner {
      assert [s] + t[1..] == t;
    }
    if t in Behind(s, inner) {
      var u :| u in inner && [s] + u == t;
      assert t[1..] == u;
    }
  }

  lemma {:induction false} BehindSize(s: Step, inner: set<seq<Step>>)
    ensures |Behind(s, inner)| == |inner|
  {
    if inner != {} {
      var u :| u in inner;
      var fewer := inner - {u};
      BehindSize(s, fewer);
      forall t ensures t in Behind(s, inner) <==> t in Behind(s, fewer) || t == [s] + u {
        BehindHas(s, inner, t);
        BehindHas(s, fewer, t);
        assert ([s] + u)[1..] == u && (t != [] && t[0] == s ==> t == [s] + t[1..]);
      }
      BehindHas(s, fewer, [s] + u);
      assert ([s] + u)[1..] == u;
      assert Behind(s, inner) == Behind(s, fewer) + {[s] + u};
    } else {
      assert Behind(s, inner) == {};
    }
  }

  /** The trails through one of the first `n` columns of a row. */
  ghost function Row(at: nat, row: nat, n: nat, inner: set<seq<Step>>): set<seq<Step>> {
    if n == 0 then {} else Row(at, row, n - 1, inner) + Behind(Cell(at, row, n - 1), inner)
  }

  lemma {:induction false} RowHas(at: nat, row: nat, n: nat, inner: set<seq<Step>>, t: seq<Step>)
    ensures t in Row(at, row, n, inner) <==>
            t != [] && t[0].Cell? && t[0].at == at && t[0].row == row && t[0].column < n && t[1..] in inner
  {
    if n > 0 {
      RowHas(at, row, n - 1, inner, t);
      BehindHas(Cell(at, row, n - 1), inner, t);
    }
  }

  lemma DisjointSizes<T>(a: set<T>, b: set<T>)
    requires a !! b
    ensures |a + b| == |a| + |b|
  {
  }

  lemma RowApart(at: nat, row: nat, n: nat, inner: set<seq<Step>>)
    ensures Row(at, row, n, inner) !! Behind(Cell(at, row, n), inner)
  {
    forall t | t in Row(at, row, n, inner) ensures t !in Behind(Cell(at, row, n), inner) {
      RowHas(at, row, n, inner, t);
      BehindHas(Cell(at, row, n), inner, t);
    }
  }

  /** `n` times `k`, one after the other. */
  ghost function Repeated(n: nat, k: nat): nat {
    if n == 0 then 0 else Repeated(n - 1, k) + k
  }

  lemma {:induction false} RepeatedIs(n: nat, k: nat)
    ensures Repeated(n, k) == n * k
  {
    if n > 0 {
      RepeatedIs(n - 1, k);
    }
  }

  lemma {:induction false} RowSize(at: nat, row: nat, n: nat, inner: set<seq<Step>>)
    ensures |Row(at, row, n, inner)| == Repeated(n, |inner|)
  {
    if n > 0 {
      RowSize(at, row, n - 1, inner);
      BehindSize(Cell(at, row, n - 1), inner);
      RowApart(at, row, n - 1, inner);
      DisjointSizes(Row(at, row, n - 1, inner), Behind(Cell(at, row, n - 1), inner));
    }
  }

  /** The trails through one of the first `n` rows of a reference's array. */
  ghost function Rows(at: nat, n: nat, columns: nat, inner: set<seq<Step>>): set<seq<Step>> {
    if n == 0 then {} else Rows(at, n - 1, columns, inner) + Row(at, n - 1, columns, inner)
  }

  lemma {:induction false} RowsHas(at: nat, n: nat, columns: nat, inner: set<seq<Step>>, t: seq<Step>)
    ensures t in Rows(at, n, columns, inner) <==>
            t != [] && t[0].Cell? && t[0].at == at && t[0].row < n && t[0].column < columns && t[1..] in inner
  {
    if n > 0 {
      RowsHas(at, n - 1, columns, inner, t);
      RowHas(at, n - 1, columns, inner, t);
    }
  }

  lemma RowsApart(at: nat, n: nat, columns: nat, inner: set<seq<Step>>)
    ensures Rows(at, n, columns, inner) !! Row(at, n, columns, inner)
  {
    forall t | t in Rows(at, n, columns, inner) ensures t !in Row(at, n, columns, inner) {
      RowsHas(at, n, columns, inner, t);
      RowHas(at, n, columns, inner, t);
    }
  }

  lemma {:induction false} RowsSize(at: nat, n: nat, columns: nat, inner: set<seq<Step>>)
    ensures |Rows(at, n, columns, inner)| == Repeated(n, Repeated(columns, |inner|))
  {
    if n > 0 {
      RowsSize(at, n - 1, columns, inner);
      RowSize(at, n - 1, columns, inner);
      RowsApart(at, n - 1, columns, inner);
      DisjointSizes(Rows(at, n - 1, columns, inner), Row(at, n - 1, columns, inner));
    }
  }

  lemma GridSize(at: nat, rows: nat, columns: nat, inner: set<seq<Step>>)
    ensures |Rows(at, rows, columns, inner)| == |inner| * (rows * columns)
  {
    RowsSize(at, rows, columns, inner);
    RepeatedTwice(rows, columns, |inner|);
  }

  lemma RepeatedTwice(rows: nat, columns: nat, size: nat)
    ensures Repeated(rows, Repeated(columns, size)) == size * (rows * columns)
  {
    RepeatedIs(columns, size);
    RepeatedIs(rows, columns * size);
    assert rows * (columns * size) == size * (rows * columns);
  }

  /** The first `n` attributes of the reference at a position. */
  ghost function Attributes(at: nat, n: nat): set<seq<Step>> {
    if n == 0 then {} else Attributes(at, n - 1) + {[Attribute(at, n - 1)]}
  }

  lemma {:induction false} AttributesHas(at: nat, n: nat, t: seq<Step>)
    ensures t in Attributes(at, n) <==> |t| == 1 && t[0].Attribute? && t[0].at == at && t[0].k < n
  {
    if n > 0 {
      AttributesHas(at, n - 1, t);
      assert t == [Attribute(at, n - 1)] <==> |t| == 1 && t[0] == Attribute(at, n - 1);
    }
  }

  lemma {:induction false} AttributesSize(at: nat, n: nat)
    ensures |Attributes(at, n)| == n
  {
    if n > 0 {
      AttributesSize(at, n - 1);
      AttributesHas(at, n - 1, [Attribute(at, n - 1)]);
    }
  }

  /** What one entity draws when references are followed `depth` levels deep. */
  ghost function DrawnBy(blocks: Blocks, e: Entity, at: nat, depth: nat): set<seq<Step>>
    decreases depth, 0
  {
    match e
    case Shape => {[Here(at)]}
    case Insert(name, rows, columns, attribs) =>
      (if depth == 0 || name !in blocks then {}
       else Rows(at, AtLeastOne(rows), AtLeastOne(columns), DrawnAll(blocks, blocks[name], depth - 1)))
      + Attributes(at, attribs)
  }

  ghost function DrawnAll(blocks: Blocks, es: seq<Entity>, depth: nat): set<seq<Step>>
    decreases depth, |es|
  {
    if es == [] then {}
    else DrawnAll(blocks, es[..|es|-1], depth) + DrawnBy(blocks, es[|es|-1], |es| - 1, depth)
  }

  /** It draws exactly the trails that pass through no more than so many references. */
  lemma {:induction false} DrawnAllHas(blocks: Blocks, es: seq<Entity>, depth: nat, t: seq<Step>)
    ensures t in DrawnAll(blocks, es, depth) <==> Drawn(blocks, es, t) && |t| <= depth + 1
    decreases depth, |es|
  {
    if es != [] {
      var front := es[..|es|-1];
      DrawnAllHas(blocks, front, depth, t);
      DrawnByHas(blocks, es, depth, t);
      assert t != [] && t[0].at < |front| ==> front[t[0].at] == es[t[0].at];
    }
  }

  lemma {:induction false} DrawnByHas(blocks: Blocks, es: seq<Entity>, depth: nat, t: seq<Step>)
    requires es != []
    ensures t in DrawnBy(blocks, es[|es|-1], |es| - 1, depth) <==>
            Drawn(blocks, es, t) && |t| <= depth + 1 && t[0].at == |es| - 1
    decreases depth, 0
  {
    var e, at := es[|es|-1], |es| - 1;
    assert t == [Here(at)] <==> |t| == 1 && t[0] == Here(at);
    if e.Insert? {
      AttributesHas(at, e.attribs, t);
    }
    if e.Insert? && depth > 0 && e.name in blocks {
      RowsHas(at, AtLeastOne(e.rows), AtLeastOne(e.columns), DrawnAll(blocks, blocks[e.name], depth - 1), t);
      if t != [] {
        DrawnAllHas(blocks, blocks[e.name], depth - 1, t[1..]);
      }
    }
  }

  /** The count is that of the trails. */
  lemma {:induction false} UnrolledCounts(blocks: Blocks, es: seq<Entity>, depth: nat)
    ensures |DrawnAll(blocks, es, depth)| == Unrolled(blocks, es, depth)
    decreases depth, |es|, 1
  {
    if es != [] {
      var front := es[..|es|-1];
      UnrolledCounts(blocks, front, depth);
      OneCounts(blocks, es, depth);
      var a, b := DrawnAll(blocks, front, depth), DrawnBy(blocks, es[|es|-1], |es| - 1, depth);
      forall t | t in a ensures t !in b {
        DrawnAllHas(blocks, front, depth, t);
        DrawnByHas(blocks, es, depth, t);
      }
      DisjointSizes(a, b);
    }
  }

  lemma {:induction false} OneCounts(blocks: Blocks, es: seq<Entity>, depth: nat)
    requires es != []
    ensures |DrawnBy(blocks, es[|es|-1], |es| - 1, depth)| == One(blocks, es[|es|-1], depth)
    decreases depth, |es|, 0
  {
    var e, at := es[|es|-1], |es| - 1;
    if e.Insert? {
      AttributesSize(at, e.attribs);
      if depth > 0 && e.name in blocks {
        UnrolledCounts(blocks, blocks[e.name], depth - 1);
        ReferenceSize(e, at, DrawnAll(blocks, blocks[e.name], depth - 1));
      } else {
        assert {} + Attributes(at, e.attribs) == Attributes(at, e.attribs);
      }
    }
  }

  lemma ReferenceSize(e: Entity, at: nat, inner: set<seq<Step>>)
    requires e.Insert?
    ensures |Rows(at, AtLeastOne(e.rows), AtLeastOne(e.columns), inner) + Attributes(at, e.attribs)|
         == |inner| * Reps(e) + e.attribs
  {
    var rows, columns := AtLeastOne(e.rows), AtLeastOne(e.columns);
    var a, b := Rows(at, rows, columns, inner), Attributes(at, e.attribs);
    forall t | t in a ensures t !in b {
      RowsHas(at, rows, columns, inner, t);
      AttributesHas(at, e.attribs, t);
    }
    DisjointSizes(a, b);
    AttributesSize(at, e.attribs);
    GridSize(at, rows, columns, inner);
  }

  /** Everything drawn, as a set: there is one exactly when the trails are of bounded length. */
  ghost predicate IsAllDrawn(blocks: Blocks, es: seq<Entity>, all: set<seq<Step>>) {
    forall t :: t in all <==> Drawn(blocks, es, t)
  }

  ghost predicate AreDrawn(blocks: Blocks, es: seq<Entity>, some: set<seq<Step>>) {
    forall t | t in some :: Drawn(blocks, es, t)
  }

  lemma {:induction false} Longest(some: set<seq<Step>>) returns (n: nat)
    ensures forall t | t in some :: |t| <= n
  {
    n := 0;
    if some != {} {
      var t :| t in some;
      n := Longest(some - {t});
      n := if |t| > n then |t| else n;
    }
  }

  /** The drawing unrolls past the cap at some depth exactly when more things than that are drawn. */
  lemma TooManyAreDrawn(blocks: Blocks, es: seq<Entity>)
    ensures TooMany(blocks, es) <==> exists some :: AreDrawn(blocks, es, some) && |some| > MAX_PRIMITIVES
  {
    if TooMany(blocks, es) {
      var depth: nat :| Unrolled(blocks, es, depth) > MAX_PRIMITIVES;
      var some := DrawnAll(blocks, es, depth);
      UnrolledCounts(blocks, es, depth);
      forall t | t in some ensures Drawn(blocks, es, t) {
        DrawnAllHas(blocks, es, depth, t);
      }
      assert AreDrawn(blocks, es, some);
    }
    forall some | AreDrawn(blocks, es, some) && |some| > MAX_PRIMITIVES ensures TooMany(blocks, es) {
      var n := Longest(some);
      forall t | t in some ensures t in DrawnAll(blocks, es, n) {
        DrawnAllHas(blocks, es, n, t);
      }
      UnrolledCounts(blocks, es, n);
      SubsetSize(some, DrawnAll(blocks, es, n));
      assert Unrolled(blocks, es, n) > MAX_PRIMITIVES;
    }
  }

  lemma SubsetSize<T>(a: set<T>, b: set<T>)
    requires a <= b
    ensures |a| <= |b|
  {
    assert b == a + (b - a);
  }

  /** Once references nest no deeper, every trail is counted. */
  lemma {:induction false} NestedTrails(blocks: Blocks, es: seq<Entity>, depth: nat, t: seq<Step>)
    requires Nested(blocks, es, depth) && Drawn(blocks, es, t)
    ensures |t| <= depth + 1
    decreases depth
  {
    if t[0].Cell? {
      NestedTrails(blocks, blocks[es[t[0].at].name], depth - 1, t[1..]);
    }
  }

  lemma NestedIsAll(blocks: Blocks, es: seq<Entity>, n: nat, depth: nat)
    requires Exact(blocks, es, n, depth)
    ensures exists all :: IsAllDrawn(blocks, es, all) && |all| == n
  {
    var all := DrawnAll(blocks, es, depth);
    UnrolledCounts(blocks, es, depth);
    forall t ensures t in all <==> Drawn(blocks, es, t) {
      DrawnAllHas(blocks, es, depth, t);
      if Drawn(blocks, es, t) {
        NestedTrails(blocks, es, depth, t);
      }
    }
    assert IsAllDrawn(blocks, es, all);
  }

  /** From depth `d` on the drawing unrolls to `n` entities. */
  ghost predicate Settles(blocks: Blocks, es: seq<Entity>, n: nat, d: nat) {
    forall e: nat | d <= e :: Unrolled(blocks, es, e) == n
  }

  /**
   The verdict on a drawing: over the cap exactly when a reference cycle can be reached or more things are drawn than the
   cap allows, that is when it unrolls past the cap at some depth. Otherwise the number of things drawn, which is what it
   unrolls to at whatever depth from some depth on.
   */
  method Expansion(blocks: Blocks, modelspace: seq<Entity>) returns (c: Cost)
    ensures Over(c) <==>
            || CycleReachable(blocks, modelspace)
            || exists some :: AreDrawn(blocks, modelspace, some) && |some| > MAX_PRIMITIVES
    ensures !Over(c) ==> exists all :: IsAllDrawn(blocks, modelspace, all) && |all| == c.n
    ensures Over(c) <==> CycleReachable(blocks, modelspace) || TooMany(blocks, modelspace)
    ensures !Over(c) ==> exists d: nat :: Settles(blocks, modelspace, c.n, d)
    ensures !Over(c) ==> forall e: nat :: Unrolled(blocks, modelspace, e) <= c.n
  {
    c := CountAll(blocks, modelspace);
    TooManyAreDrawn(blocks, modelspace);
    if !Over(c) {
      ghost var d: nat :| Settles(blocks, modelspace, c.n, d) && Nested(blocks, modelspace, d);
      NestedIsAll(blocks, modelspace, c.n, d);
    }
  }

  method CountAll(blocks: Blocks, modelspace: seq<Entity>) returns (c: Cost)
    ensures Over(c) <==> CycleReachable(blocks, modelspace) || TooMany(blocks, modelspace)
    ensures !Over(c) ==> exists d: nat :: Settles(blocks, modelspace, c.n, d) && Nested(blocks, modelspace, d)
    ensures !Over(c) ==> forall e: nat :: Unrolled(blocks, modelspace, e) <= c.n
  {
    var x := new Expander(blocks);
    c := x.CostOf(modelspace, []);
    if !Over(c) {
      ghost var d: nat :| Exact(blocks, modelspace, c.n, d);
      NestedHasNoCycle(blocks, modelspace, d);
      forall e: nat ensures Unrolled(blocks, modelspace, e) <= c.n && (d <= e ==> Unrolled(blocks, modelspace, e) == c.n) {
        if d <= e {
          Deeper(blocks, modelspace, d, e);
        } else {
          Deeper(blocks, modelspace, e, d);
        }
      }
      assert Settles(blocks, modelspace, c.n, d);
    }
  }
}
