/**
 Bringing stored aggregate prefixes to their canonical form without two of a tenant's becoming one text
 (api/aggregate_normalise.py `plan`). The canonical form comes from Python's `ipaddress` and is a parameter.
 */
module Aggregates {
  import opened Basics

  datatype Row = Row(pk: nat, tenant: nat, prefix: string)
  datatype Block = Block(tenant: nat, prefix: string)

  type Canonical = string -> Option<string>

  /** A canonical form is its own. */
  ghost predicate Settles(canonical: Canonical) {
    forall p :: canonical(p).Some? ==> canonical(canonical(p).value) == canonical(p)
  }

  function BlockOf(canonical: Canonical, r: Row): Option<Block> {
    if canonical(r.prefix).Some? then Some(Block(r.tenant, canonical(r.prefix).value)) else None
  }

  /** The rows that spell one block, in order. */
  function Spellings(rows: seq<Row>, canonical: Canonical, b: Block): seq<Row> {
    if rows == [] then []
    else
      var before := Spellings(rows[..|rows|-1], canonical, b);
      if BlockOf(canonical, rows[|rows|-1]) == Some(b) then before + [rows[|rows|-1]] else before
  }

  function SpellingsIn(groups: map<Block, seq<Row>>, b: Block): seq<Row> {
    if b in groups then groups[b] else []
  }

  /** The row is its block's only spelling, and not the canonical one. */
  ghost predicate Rewritable(rows: seq<Row>, canonical: Canonical, r: Row, b: Block) {
    BlockOf(canonical, r) == Some(b) && Spellings(rows, canonical, b) == [r] && r.prefix != b.prefix
  }

  ghost predicate DistinctRows(rows: seq<Row>) {
    forall i, j | 0 <= i < j < |rows| :: rows[i].pk != rows[j].pk
  }

  type Collisions = map<Block, seq<Row>>

  datatype Plan = Plan(updates: map<nat, string>, collisions: Collisions)

  /** Exactly the rows alone in their block are rewritten, and exactly the blocks stored more than once are reported. */
  ghost predicate IsPlan(rows: seq<Row>, canonical: Canonical, p: Plan) {
    && (forall pk, c :: pk in p.updates && p.updates[pk] == c <==> Updated(rows, canonical, pk, c))
    && (forall b :: b in p.collisions <==> |Spellings(rows, canonical, b)| > 1)
    && (forall b | b in p.collisions :: p.collisions[b] == Spellings(rows, canonical, b))
  }

  ghost predicate Updated(rows: seq<Row>, canonical: Canonical, pk: nat, c: string) {
    exists r :: r in rows && r.pk == pk && Rewritable(rows, canonical, r, Block(r.tenant, c))
  }

  lemma {:induction false} SpellingsAre(rows: seq<Row>, canonical: Canonical, b: Block)
    ensures forall r :: r in Spellings(rows, canonical, b) <==> r in rows && BlockOf(canonical, r) == Some(b)
  {
    if rows != [] {
      SpellingsAre(rows[..|rows|-1], canonical, b);
      assert rows == rows[..|rows|-1] + [rows[|rows|-1]];
    }
  }

  method Group(rows: seq<Row>, canonical: Canonical) returns (groups: map<Block, seq<Row>>)
    ensures forall b :: SpellingsIn(groups, b) == Spellings(rows, canonical, b)
    ensures forall b | b in groups :: groups[b] != []
  {
    groups := map[];
    for i := 0 to |rows|
      invariant forall b :: SpellingsIn(groups, b) == Spellings(rows[..i], canonical, b)
      invariant forall b | b in groups :: groups[b] != []
    {
      assert rows[..i+1][..i] == rows[..i];
      var b := BlockOf(canonical, rows[i]);
      if b.Some? {
        groups := groups[b.value := SpellingsIn(groups, b.value) + [rows[i]]];
      }
    }
    assert rows[..|rows|] == rows;
  }

  method MakePlan(rows: seq<Row>, canonical: Canonical) returns (p: Plan)
    requires DistinctRows(rows)
    ensures IsPlan(rows, canonical, p)
  {
    var groups := Group(rows, canonical);
    var updates: map<nat, string>, collisions: Collisions := map[], map[];
    var left := groups.Keys;
    while left != {}
      invariant left <= groups.Keys
      invariant forall b | b in collisions :: b in groups && b !in left && collisions[b] == groups[b] && |groups[b]| > 1
      invariant forall b | b in groups && b !in left && |groups[b]| > 1 :: b in collisions
      invariant forall pk | pk in updates :: Updated(rows, canonical, pk, updates[pk])
      invariant forall b | b in groups && b !in left && |groups[b]| == 1 && groups[b][0].prefix != b.prefix ::
                  groups[b][0].pk in updates
    {
      var b :| b in left;
      SpellingsAre(rows, canonical, b);
      if |groups[b]| > 1 {
        collisions := collisions[b := groups[b]];
      } else {
        var r := groups[b][0];
        assert SpellingsIn(groups, b) == [r];
        assert r in Spellings(rows, canonical, b);
        if r.prefix != b.prefix {
          assert Rewritable(rows, canonical, r, Block(r.tenant, b.prefix));
          updates := updates[r.pk := b.prefix];
        }
      }
      left := left - {b};
    }
    p := Plan(updates, collisions);
    PlanMade(rows, canonical, groups, p);
  }

  lemma UpdatedOnce(rows: seq<Row>, canonical: Canonical, pk: nat, c: string, d: string)
    requires DistinctRows(rows) && Updated(rows, canonical, pk, c) && Updated(rows, canonical, pk, d)
    ensures c == d
  {
  }

  lemma PlanMade(rows: seq<Row>, canonical: Canonical, groups: map<Block, seq<Row>>, p: Plan)
    requires DistinctRows(rows)
    requires forall b :: SpellingsIn(groups, b) == Spellings(rows, canonical, b)
    requires forall b | b in p.collisions :: b in groups && p.collisions[b] == groups[b] && |groups[b]| > 1
    requires forall b | b in groups && |groups[b]| > 1 :: b in p.collisions
    requires forall pk | pk in p.updates :: Updated(rows, canonical, pk, p.updates[pk])
    requires forall b | b in groups && |groups[b]| == 1 && groups[b][0].prefix != b.prefix :: groups[b][0].pk in p.updates
    ensures IsPlan(rows, canonical, p)
  {
    forall pk, c | Updated(rows, canonical, pk, c) ensures pk in p.updates && p.updates[pk] == c {
      var r :| r in rows && r.pk == pk && Rewritable(rows, canonical, r, Block(r.tenant, c));
      assert SpellingsIn(groups, Block(r.tenant, c)) == [r];
      UpdatedOnce(rows, canonical, pk, c, p.updates[pk]);
    }
    forall b ensures b in p.collisions <==> |Spellings(rows, canonical, b)| > 1 {
      assert SpellingsIn(groups, b) == Spellings(rows, canonical, b);
    }
  }

  // ----- what the plan does

  function After(r: Row, updates: map<nat, string>): Row {
    if r.pk in updates then r.(prefix := updates[r.pk]) else r
  }

  function AllAfter(rows: seq<Row>, updates: map<nat, string>): (s: seq<Row>)
    ensures |s| == |rows| && forall i | 0 <= i < |rows| :: s[i] == After(rows[i], updates)
  {
    if rows == [] then [] else AllAfter(rows[..|rows|-1], updates) + [After(rows[|rows|-1], updates)]
  }

  /** A row that is rewritten still spells its block, now canonically. */
  lemma RewrittenStays(rows: seq<Row>, canonical: Canonical, p: Plan, r: Row)
    requires Settles(canonical) && DistinctRows(rows) && IsPlan(rows, canonical, p) && r in rows
    ensures BlockOf(canonical, After(r, p.updates)) == BlockOf(canonical, r)
    ensures r.pk in p.updates ==> BlockOf(canonical, r) == Some(Block(r.tenant, p.updates[r.pk]))
  {
    if r.pk in p.updates {
      assert Updated(rows, canonical, r.pk, p.updates[r.pk]);
    }
  }

  lemma {:induction false} SpellingsAfter(rows: seq<Row>, canonical: Canonical, updates: map<nat, string>, b: Block)
    requires forall r | r in rows :: BlockOf(canonical, After(r, updates)) == BlockOf(canonical, r)
    ensures Spellings(AllAfter(rows, updates), canonical, b) == AllAfter(Spellings(rows, canonical, b), updates)
  {
    if rows != [] {
      var front, last := rows[..|rows|-1], rows[|rows|-1];
      SpellingsAfter(front, canonical, updates, b);
      assert AllAfter(rows, updates)[..|rows|-1] == AllAfter(front, updates);
      var s := Spellings(front, canonical, b);
      assert (s + [last])[..|s|] == s;
    }
  }

  /** A plan makes no two rows of a tenant alike that were not before. */
  lemma NoNewDuplicates(rows: seq<Row>, canonical: Canonical, p: Plan, a: Row, b: Row)
    requires Settles(canonical) && DistinctRows(rows) && IsPlan(rows, canonical, p)
    requires a in rows && b in rows && a.pk != b.pk && a.tenant == b.tenant
    ensures After(a, p.updates).prefix == After(b, p.updates).prefix ==> a.prefix == b.prefix
  {
    RewrittenStays(rows, canonical, p, a);
    RewrittenStays(rows, canonical, p, b);
    AloneInBlock(rows, canonical, p, a, b);
    AloneInBlock(rows, canonical, p, b, a);
  }

  /** No other row spells the block of a row that is rewritten. */
  lemma AloneInBlock(rows: seq<Row>, canonical: Canonical, p: Plan, a: Row, b: Row)
    requires DistinctRows(rows) && IsPlan(rows, canonical, p) && a in rows && b in rows && a.pk != b.pk
    requires a.pk in p.updates
      ==> BlockOf(canonical, a) == Some(Block(a.tenant, p.updates[a.pk]))
    ensures a.pk in p.updates ==> BlockOf(canonical, b) != BlockOf(canonical, a)
  {
    if a.pk in p.updates {
      var block := Block(a.tenant, p.updates[a.pk]);
      assert Updated(rows, canonical, a.pk, p.updates[a.pk]);
      SpellingsAre(rows, canonical, block);
      assert Spellings(rows, canonical, block) == [a];
    }
  }

  lemma UpdatesAreUpdated(rows: seq<Row>, canonical: Canonical, p: Plan, pk: nat)
    requires IsPlan(rows, canonical, p)
    ensures pk in p.updates ==> exists c :: Updated(rows, canonical, pk, c)
  {
    assert pk in p.updates ==> Updated(rows, canonical, pk, p.updates[pk]);
  }

  /** A row whose block has other spellings is not updated. */
  lemma NotUpdated(rows: seq<Row>, canonical: Canonical, b: Block, r: Row, c: string)
    requires DistinctRows(rows) && r in rows && BlockOf(canonical, r) == Some(b) && |Spellings(rows, canonical, b)| > 1
    ensures !Updated(rows, canonical, r.pk, c)
  {
    forall x | x in rows && x.pk == r.pk ensures !Rewritable(rows, canonical, x, Block(x.tenant, c)) {
      assert x == r;
    }
  }

  lemma CollisionStays(rows: seq<Row>, canonical: Canonical, p: Plan, b: Block, r: Row)
    requires DistinctRows(rows) && IsPlan(rows, canonical, p) && |Spellings(rows, canonical, b)| > 1
    requires r in rows && BlockOf(canonical, r) == Some(b)
    ensures r.pk !in p.updates
  {
    forall c ensures !Updated(rows, canonical, r.pk, c) {
      NotUpdated(rows, canonical, b, r, c);
    }
    UpdatesAreUpdated(rows, canonical, p, r.pk);
  }

  lemma UntouchedIsSame(s: seq<Row>, updates: map<nat, string>)
    requires forall i | 0 <= i < |s| :: s[i].pk !in updates
    ensures AllAfter(s, updates) == s
  {
  }

  lemma CollisionsUntouched(rows: seq<Row>, canonical: Canonical, p: Plan, b: Block)
    requires DistinctRows(rows) && IsPlan(rows, canonical, p) && |Spellings(rows, canonical, b)| > 1
    ensures AllAfter(Spellings(rows, canonical, b), p.updates) == Spellings(rows, canonical, b)
  {
    var s := Spellings(rows, canonical, b);
    SpellingsAre(rows, canonical, b);
    forall i | 0 <= i < |s| ensures s[i].pk !in p.updates {
      assert s[i] in s;
      CollisionStays(rows, canonical, p, b, s[i]);
    }
    UntouchedIsSame(s, p.updates);
  }

  lemma SingleIsSettled(rows: seq<Row>, canonical: Canonical, p: Plan, b: Block)
    requires Settles(canonical) && DistinctRows(rows) && IsPlan(rows, canonical, p)
    requires |Spellings(rows, canonical, b)| == 1
    ensures After(Spellings(rows, canonical, b)[0], p.updates).prefix == b.prefix
  {
    var r := Spellings(rows, canonical, b)[0];
    SpellingsAre(rows, canonical, b);
    assert r in Spellings(rows, canonical, b) && Spellings(rows, canonical, b) == [r];
    RewrittenStays(rows, canonical, p, r);
    if r.prefix != b.prefix {
      assert Rewritable(rows, canonical, r, Block(r.tenant, b.prefix));
      assert Updated(rows, canonical, r.pk, b.prefix);
    }
  }

  /** Once a plan is carried out, the next one rewrites nothing and reports the same collisions. */
  lemma PlanSettles(rows: seq<Row>, canonical: Canonical, p: Plan, q: Plan)
    requires Settles(canonical) && DistinctRows(rows) && IsPlan(rows, canonical, p)
    requires IsPlan(AllAfter(rows, p.updates), canonical, q)
    ensures q.updates == map[] && q.collisions == p.collisions
  {
    var after := AllAfter(rows, p.updates);
    forall r | r in rows ensures BlockOf(canonical, After(r, p.updates)) == BlockOf(canonical, r) {
      RewrittenStays(rows, canonical, p, r);
    }
    forall b ensures |Spellings(after, canonical, b)| == |Spellings(rows, canonical, b)|
      ensures |Spellings(rows, canonical, b)| > 1 ==> Spellings(after, canonical, b) == Spellings(rows, canonical, b)
      ensures |Spellings(after, canonical, b)| == 1 ==> Spellings(after, canonical, b)[0].prefix == b.prefix
    {
      SpellingsAfter(rows, canonical, p.updates, b);
      if |Spellings(rows, canonical, b)| > 1 {
        CollisionsUntouched(rows, canonical, p, b);
      } else if |Spellings(rows, canonical, b)| == 1 {
        SingleIsSettled(rows, canonical, p, b);
      }
    }
    forall pk ensures pk !in q.updates {
      assert pk in q.updates ==> Updated(after, canonical, pk, q.updates[pk]);
    }
    assert q.collisions.Keys == p.collisions.Keys;
  }
}
