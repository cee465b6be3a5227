/**
 Finding the object a cell names (api/bulk_import.py `_candidates`, `_resolve_fk`, `_rank`).
 */
module Matching {
  import opened Basics
  import opened Sorting

  type Id = string
  type Name = string

  /** A stored object: its keys by lookup, and the objects it refers to. */
  datatype Obj = Obj(id: Id, keys: map<Name, string>, refs: map<Name, Option<Id>>)

  /** One entry of a row's scope: a field of the related model and what the row itself says there. */
  datatype ScopeEntry = ScopeEntry(name: Name, want: Option<Id>)
  type Scope = seq<ScopeEntry>

  datatype Problem = NoMatch | Ambiguous

  const LOOKUPS: seq<Name> :=
    ["pk", "slug", "name", "model", "cidr", "rd", "vlan_id", "ip_address", "address", "asn", "contract_number"]

  const MAX_RANKED: nat := 100

  // ----- candidates

  predicate KeyIs(o: Obj, lookup: Name, value: string) {
    if lookup == "pk" then o.id == value else lookup in o.keys && o.keys[lookup] == value
  }

  function Matches(base: seq<Obj>, lookup: Name, value: string): seq<Obj> {
    if base == [] then []
    else (if KeyIs(base[0], lookup, value) then [base[0]] else []) + Matches(base[1..], lookup, value)
  }

  /** The objects the first lookup with any match finds. */
  function FirstMatches(base: seq<Obj>, lookups: seq<Name>, value: string): seq<Obj> {
    if lookups == [] then []
    else if Matches(base, lookups[0], value) != [] then Matches(base, lookups[0], value)
    else FirstMatches(base, lookups[1..], value)
  }

  ghost predicate Distinct(objs: seq<Obj>) {
    forall i, j | 0 <= i < j < |objs| :: objs[i].id != objs[j].id
  }

  lemma {:induction false} MatchesAre(base: seq<Obj>, lookup: Name, value: string)
    ensures forall o :: o in Matches(base, lookup, value) <==> o in base && KeyIs(o, lookup, value)
    ensures Distinct(base) ==> Distinct(Matches(base, lookup, value))
  {
    if base != [] {
      MatchesAre(base[1..], lookup, value);
      assert base == [base[0]] + base[1..];
      var rest := Matches(base[1..], lookup, value);
      if Distinct(base) && KeyIs(base[0], lookup, value) {
        forall i | 0 <= i < |rest| ensures rest[i].id != base[0].id {
          assert rest[i] in base[1..];
        }
      }
    }
  }

  lemma {:induction false} FirstMatchesDistinct(base: seq<Obj>, lookups: seq<Name>, value: string)
    requires Distinct(base)
    ensures Distinct(FirstMatches(base, lookups, value))
  {
    if lookups != [] {
      MatchesAre(base, lookups[0], value);
      FirstMatchesDistinct(base, lookups[1..], value);
    }
  }

  lemma NothingMatches(base: seq<Obj>, lookup: Name, value: string)
    requires forall o | o in base :: !KeyIs(o, lookup, value)
    ensures Matches(base, lookup, value) == []
  {
  }

  lemma {:induction false} OneHasTheId(base: seq<Obj>, o: Obj)
    requires Distinct(base) && o in base
    ensures Matches(base, "pk", o.id) == [o]
  {
    if base[0] == o {
      NothingMatches(base[1..], "pk", o.id);
    } else {
      OneHasTheId(base[1..], o);
    }
  }

  /** An id names its own object, whatever else another object is called. */
  lemma IdNamesItsObject(base: seq<Obj>, o: Obj)
    requires Distinct(base) && o in base
    ensures FirstMatches(base, LOOKUPS, o.id) == [o]
  {
    OneHasTheId(base, o);
  }

  /** The candidates, lookup by lookup. */
  method Candidates(base: seq<Obj>, value: string) returns (found: seq<Obj>)
    ensures found == FirstMatches(base, LOOKUPS, value)
  {
    found := TryLookups(base, LOOKUPS, value);
  }

  method TryLookups(base: seq<Obj>, lookups: seq<Name>, value: string) returns (found: seq<Obj>)
    ensures found == FirstMatches(base, lookups, value)
  {
    for i := 0 to |lookups|
      invariant FirstMatches(base, lookups[i..], value) == FirstMatches(base, lookups, value)
    {
      found := Matches(base, lookups[i], value);
      if found != [] {
        return;
      }
      assert lookups[i..][1..] == lookups[i+1..];
    }
    found := [];
  }

  // ----- the score

  function Have(o: Obj, name: Name): Option<Id> {
    if name in o.refs then o.refs[name] else None
  }

  /** Disagreement on one field: nothing, a nullable one left empty, or something else. */
  function Mismatch(o: Obj, entry: ScopeEntry, nullable: set<Name>): nat {
    if Have(o, entry.name) == entry.want then 0
    else if Have(o, entry.name).None? && entry.name in nullable then 1
    else 2
  }

  function Score(o: Obj, scope: Scope, nullable: set<Name>): nat {
    if scope == [] then 0 else Mismatch(o, scope[0], nullable) + Score(o, scope[1..], nullable)
  }

  method ScoreOf(o: Obj, scope: Scope, nullable: set<Name>) returns (total: nat)
    ensures total == Score(o, scope, nullable)
  {
    total := 0;
    for i := 0 to |scope|
      invariant total + Score(o, scope[i..], nullable) == Score(o, scope, nullable)
    {
      assert scope[i..][1..] == scope[i+1..];
      total := total + Mismatch(o, scope[i], nullable);
    }
  }

  predicate Agrees(o: Obj, scope: Scope) {
    forall i | 0 <= i < |scope| :: Have(o, scope[i].name) == scope[i].want
  }

  /** The exact filter keeps the objects with nothing against them. */
  lemma {:induction false} AgreesScoresZero(o: Obj, scope: Scope, nullable: set<Name>)
    ensures Agrees(o, scope) <==> Score(o, scope, nullable) == 0
  {
    if scope != [] {
      AgreesScoresZero(o, scope[1..], nullable);
      assert forall i | 0 < i < |scope| :: scope[i] == scope[1..][i-1];
      assert Agrees(o, scope) <==> Have(o, scope[0].name) == scope[0].want && Agrees(o, scope[1..]);
    }
  }

  /** On this entry the object names something else, or leaves out what it has to name. */
  predicate IsOther(o: Obj, entry: ScopeEntry, nullable: set<Name>) {
    Have(o, entry.name) != entry.want && (Have(o, entry.name).Some? || entry.name !in nullable)
  }

  /** On this entry it leaves open what the row says. */
  predicate IsOpen(o: Obj, entry: ScopeEntry, nullable: set<Name>) {
    Have(o, entry.name) == None && entry.want.Some? && entry.name in nullable
  }

  function Others(o: Obj, scope: Scope, nullable: set<Name>): set<nat> {
    set i: nat | i < |scope| && IsOther(o, scope[i], nullable)
  }

  function Opens(o: Obj, scope: Scope, nullable: set<Name>): set<nat> {
    set i: nat | i < |scope| && IsOpen(o, scope[i], nullable)
  }

  lemma OthersOn(o: Obj, scope: Scope, last: ScopeEntry, nullable: set<Name>)
    ensures |Others(o, scope + [last], nullable)| == |Others(o, scope, nullable)| + if IsOther(o, last, nullable) then 1 else 0
  {
    var all, few, k := Others(o, scope + [last], nullable), Others(o, scope, nullable), |scope|;
    forall i: nat ensures i in all <==> i in few || (i == k && IsOther(o, last, nullable)) {
      assert i < k ==> (scope + [last])[i] == scope[i];
    }
    if IsOther(o, last, nullable) {
      Apart(few, all, k);
    } else {
      assert all == few;
    }
  }

  lemma OpensOn(o: Obj, scope: Scope, last: ScopeEntry, nullable: set<Name>)
    ensures |Opens(o, scope + [last], nullable)| == |Opens(o, scope, nullable)| + if IsOpen(o, last, nullable) then 1 else 0
  {
    var all, few, k := Opens(o, scope + [last], nullable), Opens(o, scope, nullable), |scope|;
    forall i: nat ensures i in all <==> i in few || (i == k && IsOpen(o, last, nullable)) {
      assert i < k ==> (scope + [last])[i] == scope[i];
    }
    if IsOpen(o, last, nullable) {
      Apart(few, all, k);
    } else {
      assert all == few;
    }
  }

  /** A score is twice the number of the one and once that of the other. */
  lemma {:induction false} ScoreCounts(o: Obj, scope: Scope, nullable: set<Name>)
    ensures Score(o, scope, nullable) == 2 * |Others(o, scope, nullable)| + |Opens(o, scope, nullable)|
  {
    if scope == [] {
      assert Others(o, scope, nullable) == {} && Opens(o, scope, nullable) == {};
    } else {
      var front, last := scope[..|scope|-1], scope[|scope|-1];
      assert scope == front + [last];
      ScoreCounts(o, front, nullable);
      ScoreOn(o, front, last, nullable);
      OthersOn(o, front, last, nullable);
      OpensOn(o, front, last, nullable);
    }
  }

  lemma {:induction false} ScoreOn(o: Obj, scope: Scope, last: ScopeEntry, nullable: set<Name>)
    ensures Score(o, scope + [last], nullable) == Score(o, scope, nullable) + Mismatch(o, last, nullable)
  {
    if scope == [] {
      assert [] + [last] == [last];
    } else {
      ScoreOn(o, scope[1..], last, nullable);
      assert (scope + [last])[1..] == scope[1..] + [last];
    }
  }

  /** `a` leaves a nullable field open where `b` names something else than the row, and they are alike on the others. */
  ghost predicate Nearer(a: Obj, b: Obj, scope: Scope, nullable: set<Name>, k: nat) {
    && k < |scope| && scope[k].name in nullable && Have(a, scope[k].name) == None
    && Have(b, scope[k].name).Some? && scope[k].want.Some? && Have(b, scope[k].name) != scope[k].want
    && forall i | 0 <= i < |scope| && i != k :: Have(a, scope[i].name) == Have(b, scope[i].name)
  }

  lemma NearerScoresLess(a: Obj, b: Obj, scope: Scope, nullable: set<Name>, k: nat)
    requires Nearer(a, b, scope, nullable, k)
    ensures Score(a, scope, nullable) < Score(b, scope, nullable)
  {
    ScoreCounts(a, scope, nullable);
    ScoreCounts(b, scope, nullable);
    Apart(Others(a, scope, nullable), Others(b, scope, nullable), k);
    Apart(Opens(b, scope, nullable), Opens(a, scope, nullable), k);
  }

  lemma Apart(fewer: set<nat>, more: set<nat>, k: nat)
    requires k !in fewer && forall i :: i in more <==> i in fewer || i == k
    ensures |more| == |fewer| + 1
  {
    assert more == fewer + {k};
  }

  // ----- sorting by score

  datatype Scored = Scored(score: nat, obj: Obj)

  function ByScore(x: Scored): int { x.score }

  // ----- the rule

  /** `o` fits the scope strictly better than every other candidate; among too many, only an exact fit is looked for. */
  ghost predicate Chosen(cands: seq<Obj>, scope: Scope, nullable: set<Name>, o: Obj) {
    && o in cands
    && (forall x | x in cands && x != o :: Score(o, scope, nullable) < Score(x, scope, nullable))
    && (|cands| <= MAX_RANKED || Score(o, scope, nullable) == 0)
  }

  lemma OnlyOneChosen(cands: seq<Obj>, scope: Scope, nullable: set<Name>, a: Obj, b: Obj)
    requires Chosen(cands, scope, nullable, a) && Chosen(cands, scope, nullable, b)
    ensures a == b
  {
  }

  /** Two different candidates with the least score rule each other out, and every other one. */
  lemma TieHasNoChoice(cands: seq<Obj>, scope: Scope, nullable: set<Name>, a: Obj, b: Obj)
    requires a in cands && b in cands && a != b && Score(a, scope, nullable) == Score(b, scope, nullable)
    requires forall x | x in cands :: Score(a, scope, nullable) <= Score(x, scope, nullable)
    ensures forall o :: !Chosen(cands, scope, nullable, o)
  {
    forall o | o in cands ensures !Chosen(cands, scope, nullable, o) {
      var other := if o == a then b else a;
      assert Score(other, scope, nullable) <= Score(o, scope, nullable);
    }
  }

  /** The object that is chosen, if any is. */
  ghost function Choice(cands: seq<Obj>, scope: Scope, nullable: set<Name>): Result<Obj, Problem> {
    if cands == [] then Err(NoMatch)
    else if exists o :: Chosen(cands, scope, nullable, o) then
      var o :| Chosen(cands, scope, nullable, o);
      Ok(o)
    else Err(Ambiguous)
  }

  ghost predicate SameObjects(a: seq<Obj>, b: seq<Obj>) {
    |a| == |b| && forall o :: o in a <==> o in b
  }

  /** The order in which the database hands the candidates out does not matter. */
  lemma ChoiceIgnoresOrder(a: seq<Obj>, b: seq<Obj>, scope: Scope, nullable: set<Name>)
    requires SameObjects(a, b)
    ensures Choice(a, scope, nullable) == Choice(b, scope, nullable)
  {
    assert forall o :: Chosen(a, scope, nullable, o) <==> Chosen(b, scope, nullable, o);
    if o :| Chosen(a, scope, nullable, o) {
      forall x | Chosen(a, scope, nullable, x) ensures x == o {
        OnlyOneChosen(a, scope, nullable, o, x);
      }
      forall x | Chosen(b, scope, nullable, x) ensures x == o {
        OnlyOneChosen(b, scope, nullable, o, x);
      }
    }
  }

  // ----- the resolver

  /** The candidates that agree with the scope on every field. */
  method Exact(cands: seq<Obj>, scope: Scope) returns (rows: seq<Obj>)
    requires Distinct(cands)
    ensures forall o :: o in rows <==> o in cands && Agrees(o, scope)
    ensures Distinct(rows)
  {
    rows := [];
    for i := 0 to |cands|
      invariant forall o :: o in rows <==> o in cands[..i] && Agrees(o, scope)
      invariant Distinct(rows)
    {
      assert cands[..i+1] == cands[..i] + [cands[i]];
      assert forall x | x in cands[..i] :: x.id != cands[i].id;
      if Agrees(cands[i], scope) {
        rows := rows + [cands[i]];
      }
    }
    assert cands[..|cands|] == cands;
  }

  /** The candidates, each with its score. */
  ghost predicate ScoresOf(scored: seq<Scored>, cands: seq<Obj>, scope: Scope, nullable: set<Name>) {
    |scored| == |cands| && forall j | 0 <= j < |cands| :: scored[j] == Scored(Score(cands[j], scope, nullable), cands[j])
  }

  /** Every candidate is found in the sorted list with its score, and none twice. */
  lemma SortedHolds(cands: seq<Obj>, scored: seq<Scored>, scope: Scope, nullable: set<Name>, t: seq<Scored>)
    requires Distinct(cands) && ScoresOf(scored, cands, scope, nullable) && t == Sorted(ByScore, scored)
    ensures InOrder(ByScore, t) && |t| == |cands|
    ensures forall e | e in t :: e.obj in cands && e.score == Score(e.obj, scope, nullable)
    ensures forall x | x in cands :: Scored(Score(x, scope, nullable), x) in t
    ensures |t| > 1 ==> t[0] != t[1]
  {
    SortedKeeps(ByScore, scored, t);
    assert forall i, j | 0 <= i < j < |scored| :: scored[i].obj.id != scored[j].obj.id;
    forall x | x in cands ensures Scored(Score(x, scope, nullable), x) in t {
      var j :| 0 <= j < |cands| && cands[j] == x;
      assert scored[j] in scored;
    }
  }

  /** The first of the sorted list is the best unless the second is as good, and then none is. */
  lemma FirstIsBest(cands: seq<Obj>, scored: seq<Scored>, scope: Scope, nullable: set<Name>, t: seq<Scored>)
    requires Distinct(cands) && cands != [] && |cands| <= MAX_RANKED
    requires ScoresOf(scored, cands, scope, nullable) && t == Sorted(ByScore, scored)
    ensures |t| == |cands|
    ensures |t| > 1 && t[0].score == t[1].score ==> forall o :: !Chosen(cands, scope, nullable, o)
    ensures |t| == 1 || t[0].score != t[1].score ==> Chosen(cands, scope, nullable, t[0].obj)
  {
    SortedHolds(cands, scored, scope, nullable, t);
    assert t[0] in t;
    forall x | x in cands ensures t[0].score <= Score(x, scope, nullable)
      ensures x != t[0].obj && |t| > 1 ==> t[1].score <= Score(x, scope, nullable)
    {
      assert Scored(Score(x, scope, nullable), x) in t;
    }
    if |t| > 1 && t[0].score == t[1].score {
      assert t[1] in t;
      TieHasNoChoice(cands, scope, nullable, t[0].obj, t[1].obj);
    } else if |t| == 1 {
      assert forall x | x in cands :: x == cands[0];
    }
  }

  /** The single best match, if there is one among at most MAX_RANKED. */
  method Rank(cands: seq<Obj>, scope: Scope, nullable: set<Name>) returns (best: Option<Obj>)
    requires Distinct(cands) && cands != []
    ensures best.Some? ==> |cands| <= MAX_RANKED && Chosen(cands, scope, nullable, best.value)
    ensures best.None? && |cands| <= MAX_RANKED ==> forall o :: !Chosen(cands, scope, nullable, o)
  {
    if |cands| > MAX_RANKED {
      return None;
    }
    var scored: seq<Scored> := [];
    for i := 0 to |cands|
      invariant ScoresOf(scored, cands[..i], scope, nullable)
    {
      var score := ScoreOf(cands[i], scope, nullable);
      scored := scored + [Scored(score, cands[i])];
    }
    var sorted := Sorted(ByScore, scored);
    assert cands[..|cands|] == cands;
    FirstIsBest(cands, scored, scope, nullable, sorted);
    if |sorted| > 1 && sorted[0].score == sorted[1].score {
      return None;
    }
    return Some(sorted[0].obj);
  }

  /** The related field's own view: the objects the row may name, and which of their fields may be empty. */
  datatype Related = Related(base: seq<Obj>, nullable: set<Name>)

  ghost function Resolved(f: Related, value: string, scope: Scope): Result<Obj, Problem> {
    Choice(FirstMatches(f.base, LOOKUPS, value), scope, f.nullable)
  }

  /** Of two objects that go by the same name, the one that leaves a field open beats the one that contradicts the row. */
  lemma OpenBeatsOther(f: Related, value: string, scope: Scope, a: Obj, b: Obj, k: nat)
    requires SameObjects(FirstMatches(f.base, LOOKUPS, value), [a, b]) && Nearer(a, b, scope, f.nullable, k)
    ensures Resolved(f, value, scope) == Ok(a)
  {
    var cands := FirstMatches(f.base, LOOKUPS, value);
    NearerScoresLess(a, b, scope, f.nullable, k);
    assert a in [a, b] && Chosen(cands, scope, f.nullable, a);
    forall o | Chosen(cands, scope, f.nullable, o) ensures o == a {
      OnlyOneChosen(cands, scope, f.nullable, a, o);
    }
  }

  /** The one rule behind the single candidate, the exact filter and the ranking. */
  method ResolveFk(f: Related, value: string, scope: Scope) returns (r: Result<Obj, Problem>)
    requires Distinct(f.base)
    ensures r == Resolved(f, value, scope)
  {
    var cands := Candidates(f.base, value);
    FirstMatchesDistinct(f.base, LOOKUPS, value);
    if cands == [] {
      return Err(NoMatch);
    }
    var chosen := Pick(cands, scope, f.nullable);
    if chosen.Some? {
      forall o | Chosen(cands, scope, f.nullable, o) ensures o == chosen.value {
        OnlyOneChosen(cands, scope, f.nullable, o, chosen.value);
      }
      return Ok(chosen.value);
    }
    return Err(Ambiguous);
  }

  /** Among candidates there are: the only one, the only exact fit, or else the best ranked. */
  method Pick(cands: seq<Obj>, scope: Scope, nullable: set<Name>) returns (r: Option<Obj>)
    requires Distinct(cands) && cands != []
    ensures r.Some? ==> Chosen(cands, scope, nullable, r.value)
    ensures r.None? ==> forall o :: !Chosen(cands, scope, nullable, o)
  {
    if |cands| == 1 {
      return Some(cands[0]);
    }
    forall o ensures Agrees(o, scope) <==> Score(o, scope, nullable) == 0 {
      AgreesScoresZero(o, scope, nullable);
    }
    if scope == [] {
      TieHasNoChoice(cands, scope, nullable, cands[0], cands[1]);
      return None;
    }
    var rows := Exact(cands, scope);
    if |rows| == 1 {
      forall x | x in cands && x != rows[0] ensures x !in rows {}
      assert rows[0] in rows;
      return Some(rows[0]);
    }
    if rows == [] {
      r := Rank(cands, scope, nullable);
      return;
    }
    assert rows[0] in rows && rows[1] in rows;
    TieHasNoChoice(cands, scope, nullable, rows[0], rows[1]);
    return None;
  }
}
