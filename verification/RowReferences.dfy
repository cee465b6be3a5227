/**
 The reference cells of an exported row, and reading them back within the row's own scope (api/io.py `_resolve_fks`,
 `_readable`, `_ref_value`).
 */
module RowReferences {
  import opened Basics
  import opened Matching
  import opened Texts

  /** A column of the row and the field of the related object it narrows. */
  datatype ScopePair = ScopePair(related: Name, column: Name)

  /** A reference field: whether it may be empty, what it may refer to, its scope, and the key it is written by. */
  datatype Field = Field(optional: bool, related: Related, scopes: seq<ScopePair>, key: Option<Name>)

  type Schema = map<Name, Field>

  /** A row to read: its cells, and the stored object it updates, if any. */
  datatype Sheet = Sheet(fields: Schema, cells: map<Name, string>, existing: Option<Obj>)

  const NONE_WORDS: set<string> := {"", "global", "none", "-"}
  const READABLE_KEYS: seq<Name> := ["cidr", "ip_address", "address", "vlan_id", "name", "rd", "slug"]

  /** The cell means "no link". */
  predicate NoLink(f: Field, cell: string) { f.optional && Lower(Strip(cell)) in NONE_WORDS }

  /** What the row already says about a column: what it stores, when it updates an object. */
  function Stored(sh: Sheet, column: Name): Option<Option<Id>> {
    if sh.existing.Some? && column in sh.fields then Some(Have(sh.existing.value, column)) else None
  }

  // ----- what a cell means when no scope leads back to itself

  /** Every column a field's scope reads has a lower rank. */
  ghost predicate Ranked(sh: Sheet, rank: map<Name, nat>) {
    && sh.cells.Keys <= sh.fields.Keys <= rank.Keys
    && forall name, i | name in sh.fields && 0 <= i < |sh.fields[name].scopes| ::
         BelowTop(sh, rank, sh.fields[name].scopes[i], rank[name])
  }

  type Linked = Result<Option<Id>, Problem>

  ghost predicate BelowTop(sh: Sheet, rank: map<Name, nat>, pair: ScopePair, top: nat) {
    pair.column in sh.cells ==> pair.column in rank && rank[pair.column] < top
  }

  ghost predicate Below(sh: Sheet, rank: map<Name, nat>, pairs: seq<ScopePair>, top: nat) {
    forall i | 0 <= i < |pairs| :: BelowTop(sh, rank, pairs[i], top)
  }

  /** The object a present cell means. */
  ghost function Meaning(sh: Sheet, rank: map<Name, nat>, name: Name): Linked
    requires Ranked(sh, rank) && name in sh.cells
    decreases rank[name], 1, 0
  {
    var f, cell := sh.fields[name], sh.cells[name];
    if NoLink(f, cell) then Ok(None)
    else
      var scope := ScopeOf(sh, rank, f.scopes, rank[name]);
      if scope.Err? then Err(scope.error) else Link(Resolved(f.related, Strip(cell), scope.value))
  }

  function Link(r: Result<Obj, Problem>): Linked {
    if r.Ok? then Ok(Some(r.value.id)) else Err(r.error)
  }

  /** What one pair adds to the scope: what its column means or stores, or nothing when neither is known. */
  ghost function EntryOf(sh: Sheet, rank: map<Name, nat>, pair: ScopePair, top: nat): Result<Scope, Problem>
    requires Ranked(sh, rank) && BelowTop(sh, rank, pair, top)
    decreases top, 0, 0
  {
    if pair.column in sh.cells then
      var m := Meaning(sh, rank, pair.column);
      if m.Err? then Err(m.error) else Ok([ScopeEntry(pair.related, m.value)])
    else if Stored(sh, pair.column).Some? then Ok([ScopeEntry(pair.related, Stored(sh, pair.column).value)])
    else Ok([])
  }

  /** One part of the scope behind another; the first problem is the one reported. */
  function Joined(a: Result<Scope, Problem>, b: Result<Scope, Problem>): Result<Scope, Problem> {
    if a.Err? then a else if b.Err? then b else Ok(a.value + b.value)
  }

  /** The scope the row's other columns give. */
  ghost function ScopeOf(sh: Sheet, rank: map<Name, nat>, pairs: seq<ScopePair>, top: nat): Result<Scope, Problem>
    requires Ranked(sh, rank) && Below(sh, rank, pairs, top)
    decreases top, 0, 1 + |pairs|
  {
    if pairs == [] then Ok([])
    else Joined(EntryOf(sh, rank, pairs[0], top), ScopeOf(sh, rank, pairs[1..], top))
  }

  /** The scope once the entries of the first pairs are known. */
  ghost predicate SoFar(sh: Sheet, rank: map<Name, nat>, pairs: seq<ScopePair>, top: nat, i: nat, entries: Scope)
    requires Ranked(sh, rank) && Below(sh, rank, pairs, top) && i <= |pairs|
  {
    Below(sh, rank, pairs[i..], top) &&
    ScopeOf(sh, rank, pairs, top) == Joined(Ok(entries), ScopeOf(sh, rank, pairs[i..], top))
  }

  lemma SoFarStarts(sh: Sheet, rank: map<Name, nat>, pairs: seq<ScopePair>, top: nat)
    requires Ranked(sh, rank) && Below(sh, rank, pairs, top)
    ensures SoFar(sh, rank, pairs, top, 0, [])
  {
    var all := ScopeOf(sh, rank, pairs, top);
    assert pairs[0..] == pairs;
    assert all.Ok? ==> [] + all.value == all.value;
  }

  lemma SoFarStep(sh: Sheet, rank: map<Name, nat>, pairs: seq<ScopePair>, top: nat, i: nat, entries: Scope)
    requires Ranked(sh, rank) && Below(sh, rank, pairs, top) && i < |pairs|
    requires SoFar(sh, rank, pairs, top, i, entries)
    ensures BelowTop(sh, rank, pairs[i], top)
    ensures var entry := EntryOf(sh, rank, pairs[i], top);
            if entry.Err? then ScopeOf(sh, rank, pairs, top) == entry
            else SoFar(sh, rank, pairs, top, i + 1, entries + entry.value)
  {
    var entry := EntryOf(sh, rank, pairs[i], top);
    assert pairs[i..][0] == pairs[i] && pairs[i..][1..] == pairs[i+1..];
    var rest := ScopeOf(sh, rank, pairs[i+1..], top);
    assert ScopeOf(sh, rank, pairs[i..], top) == Joined(entry, rest);
    assert entry.Ok? && rest.Ok? ==> entries + (entry.value + rest.value) == (entries + entry.value) + rest.value;
  }

  lemma SoFarEnds(sh: Sheet, rank: map<Name, nat>, pairs: seq<ScopePair>, top: nat, entries: Scope)
    requires Ranked(sh, rank) && Below(sh, rank, pairs, top)
    requires SoFar(sh, rank, pairs, top, |pairs|, entries)
    ensures ScopeOf(sh, rank, pairs, top) == Ok(entries)
  {
    assert pairs[|pairs|..] == [];
    assert entries + [] == entries;
  }

  // ----- the resolver

  /** Reads a row's reference cells, each after the columns that narrow it. */
  class Resolver {
    const sheet: Sheet
    var resolved: map<Name, Option<Id>>
    var visiting: set<Name>

    ghost predicate Valid()
      reads this
    {
      && sheet.cells.Keys <= sheet.fields.Keys
      && (forall name | name in sheet.fields :: Distinct(sheet.fields[name].related.base))
      && visiting <= sheet.cells.Keys && resolved.Keys <= sheet.cells.Keys
    }

    /** Everything resolved so far is what its cell means. */
    ghost predicate Faithful(rank: map<Name, nat>)
      reads this
    {
      Ranked(sheet, rank) ==> forall name | name in resolved && name in sheet.cells ::
        Meaning(sheet, rank, name) == Ok(resolved[name])
    }

    /** Nothing under way is below `top`. */
    ghost predicate Above(rank: map<Name, nat>, top: nat)
      reads this
    {
      forall name | name in visiting && name in rank :: rank[name] >= top
    }

    constructor (sheet: Sheet)
      requires sheet.cells.Keys <= sheet.fields.Keys
      requires forall name | name in sheet.fields :: Distinct(sheet.fields[name].related.base)
      ensures Valid() && this.sheet == sheet && visiting == {} && resolved == map[]
    {
      this.sheet := sheet;
      resolved, visiting := map[], {};
    }

    /**
     Resolves one column, whatever cycles the scopes form. Without cycles the result is what the cell means, in whatever
     order the columns are asked for.
     */
    method Resolve(name: Name, ghost rank: map<Name, nat>) returns (problem: Option<Problem>)
      requires Valid() && Faithful(rank)
      requires Ranked(sheet, rank) && name in rank ==> Above(rank, rank[name] + 1)
      modifies this
      ensures Valid() && Faithful(rank)
      ensures forall n | n in old(resolved) :: n in resolved && resolved[n] == old(resolved[n])
      ensures problem.None? ==> visiting == old(visiting)
      ensures problem.None? ==> name in resolved || name in visiting || name !in sheet.cells
      ensures problem.Some? ==> name in sheet.cells
      ensures Ranked(sheet, rank) && problem.Some? ==> Meaning(sheet, rank, name) == Err(problem.value)
      decreases |sheet.cells.Keys - visiting|, 1
    {
      if name in resolved || name in visiting || name !in sheet.cells {
        return None;
      }
      var f, cell := sheet.fields[name], sheet.cells[name];
      if NoLink(f, cell) {
        resolved := resolved[name := None];
        return None;
      }
      ghost var open := visiting;
      visiting := visiting + {name};
      var scope := CollectScope(name, rank);
      if scope.Err? {
        return Some(scope.error);
      }
      problem := Find(name, scope.value, rank);
      visiting := visiting - {name};
      assert visiting == open;
    }

    /** Looks one column's cell up within the scope collected for it. */
    method Find(name: Name, scope: Scope, ghost rank: map<Name, nat>) returns (problem: Option<Problem>)
      requires Valid() && Faithful(rank) && name in sheet.cells && !NoLink(sheet.fields[name], sheet.cells[name])
      requires Ranked(sheet, rank) ==> ScopeOf(sheet, rank, sheet.fields[name].scopes, rank[name]) == Ok(scope)
      modifies this`resolved
      ensures Valid() && Faithful(rank)
      ensures forall n | n in old(resolved) && n != name :: n in resolved && resolved[n] == old(resolved[n])
      ensures problem.None? ==> name in resolved
      ensures Ranked(sheet, rank) && problem.Some? ==> Meaning(sheet, rank, name) == Err(problem.value)
    {
      var found := ResolveFk(sheet.fields[name].related, Strip(sheet.cells[name]), scope);
      if found.Err? {
        return Some(found.error);
      }
      resolved := resolved[name := Some(found.value.id)];
      return None;
    }

    /** What a pair adds to the scope of a column under way; a column under way itself adds nothing. */
    method ScopeValue(pair: ScopePair, ghost rank: map<Name, nat>, ghost top: nat) returns (entry: Result<Scope, Problem>)
      requires Valid() && Faithful(rank)
      requires Ranked(sheet, rank) ==> Above(rank, top) && BelowTop(sheet, rank, pair, top)
      modifies this
      ensures Valid() && Faithful(rank)
      ensures forall n | n in old(resolved) :: n in resolved && resolved[n] == old(resolved[n])
      ensures entry.Ok? ==> visiting == old(visiting)
      ensures Ranked(sheet, rank) ==> EntryOf(sheet, rank, pair, top) == entry
      decreases |sheet.cells.Keys - visiting|, 2
    {
      if pair.column in visiting {
        return Ok([]);
      }
      if pair.column in sheet.cells {
        var problem := Resolve(pair.column, rank);
        return if problem.Some? then Err(problem.value) else Ok([ScopeEntry(pair.related, resolved[pair.column])]);
      }
      var stored := Stored(sheet, pair.column);
      return if stored.Some? then Ok([ScopeEntry(pair.related, stored.value)]) else Ok([]);
    }

    /** The scope of a column under way, from the columns that narrow it. */
    method CollectScope(name: Name, ghost rank: map<Name, nat>) returns (scope: Result<Scope, Problem>)
      requires Valid() && Faithful(rank) && name in visiting
      requires Ranked(sheet, rank) ==> Above(rank, rank[name])
      modifies this
      ensures Valid() && Faithful(rank)
      ensures forall n | n in old(resolved) :: n in resolved && resolved[n] == old(resolved[n])
      ensures scope.Ok? ==> visiting == old(visiting)
      ensures Ranked(sheet, rank) ==> ScopeOf(sheet, rank, sheet.fields[name].scopes, rank[name]) == scope
      decreases |sheet.cells.Keys - visiting|, 3
    {
      var pairs := sheet.fields[name].scopes;
      var entries: Scope := [];
      ghost var was, top := resolved, if name in rank then rank[name] else 0;
      if Ranked(sheet, rank) {
        SoFarStarts(sheet, rank, pairs, top);
      }
      for i := 0 to |pairs|
        invariant Valid() && Faithful(rank) && visiting == old(visiting)
        invariant forall n | n in was :: n in resolved && resolved[n] == was[n]
        invariant Ranked(sheet, rank) ==> SoFar(sheet, rank, pairs, top, i, entries)
      {
        if Ranked(sheet, rank) {
          SoFarStep(sheet, rank, pairs, top, i, entries);
        }
        var entry := ScopeValue(pairs[i], rank, top);
        if entry.Err? {
          return entry;
        }
        entries := entries + entry.value;
      }
      if Ranked(sheet, rank) {
        SoFarEnds(sheet, rank, pairs, top, entries);
      }
      return Ok(entries);
    }

    /** Resolves the columns asked for, in any order. */
    method ResolveAll(names: seq<Name>, ghost rank: map<Name, nat>) returns (problem: Option<Problem>)
      requires Valid() && Faithful(rank) && visiting == {}
      modifies this
      ensures problem.None? ==> forall n | n in names && n in sheet.cells :: n in resolved
      ensures problem.None? && Ranked(sheet, rank) ==>
                forall n | n in names && n in sheet.cells :: Meaning(sheet, rank, n) == Ok(resolved[n])
      ensures problem.Some? && Ranked(sheet, rank) ==>
                exists n :: n in sheet.cells && Meaning(sheet, rank, n) == Err(problem.value)
    {
      for i := 0 to |names|
        invariant Valid() && Faithful(rank) && visiting == {}
        invariant forall j | 0 <= j < i && names[j] in sheet.cells :: names[j] in resolved
      {
        problem := Resolve(names[i], rank);
        if problem.Some? {
          assert names[i] in sheet.cells;
          return;
        }
      }
      problem := None;
    }
  }

  // ----- the cells that are written

  function NonEmptyKey(rel: Obj, name: Name): Option<string> {
    if name in rel.keys && rel.keys[name] != "" then Some(rel.keys[name]) else None
  }

  function FirstKey(rel: Obj, names: seq<Name>): Option<string> {
    if names == [] then None
    else if NonEmptyKey(rel, names[0]).Some? then NonEmptyKey(rel, names[0])
    else FirstKey(rel, names[1..])
  }

  function Readable(f: Field, rel: Obj): Option<string> {
    if f.key.Some? then NonEmptyKey(rel, f.key.value) else FirstKey(rel, READABLE_KEYS)
  }

  /** The row's own scope of a field, as the stored object gives it. */
  function OwnScope(fields: Schema, obj: Obj, pairs: seq<ScopePair>): Scope {
    if pairs == [] then []
    else if pairs[0].column in fields then
      [ScopeEntry(pairs[0].related, Have(obj, pairs[0].column))] + OwnScope(fields, obj, pairs[1..])
    else OwnScope(fields, obj, pairs[1..])
  }

  /** The cell for a reference to `rel`: its readable key where that finds it again, else its id. */
  ghost function CellOf(f: Field, rel: Obj, scope: Scope): string {
    var key := Readable(f, rel);
    if key.None? || NoLink(f, key.value) then rel.id
    else
      var found := Resolved(f.related, key.value, scope);
      if found.Ok? && found.value.id == rel.id then key.value else rel.id
  }

  method RefCell(fields: Schema, name: Name, obj: Obj, rel: Obj) returns (cell: string)
    requires name in fields && Distinct(fields[name].related.base)
    ensures cell == CellOf(fields[name], rel, OwnScope(fields, obj, fields[name].scopes))
  {
    var f := fields[name];
    var key := Readable(f, rel);
    if key.None? || NoLink(f, key.value) {
      return rel.id;
    }
    var found := ResolveFk(f.related, key.value, OwnScope(fields, obj, f.scopes));
    return if found.Ok? && found.value.id == rel.id then key.value else rel.id;
  }

  // ----- the round trip

  /** Ids and keys are written without spaces around them, and no id reads as "no link". */
  ghost predicate Trimmed(rel: Obj) {
    && Strip(rel.id) == rel.id && Lower(rel.id) !in NONE_WORDS
    && forall key | key in rel.keys :: Strip(rel.keys[key]) == rel.keys[key]
  }

  ghost predicate Readables(f: Field) {
    Distinct(f.related.base) && forall rel | rel in f.related.base :: Trimmed(rel)
  }

  /** The cell `obj` is exported with in a column; the object it refers to is among those the import may see. */
  ghost predicate ExportedCell(sh: Sheet, obj: Obj, name: Name)
    requires name in sh.cells && name in sh.fields
  {
    var f, cell := sh.fields[name], sh.cells[name];
    match Have(obj, name)
    case None => f.optional && cell == ""
    case Some(id) =>
      exists rel | rel in f.related.base && rel.id == id :: cell == CellOf(f, rel, OwnScope(sh.fields, obj, f.scopes))
  }

  /**
   The sheet is an export of `obj`. A column its scopes need may be missing from the file when the row updates `obj`
   itself.
   */
  ghost predicate Exported(sh: Sheet, obj: Obj) {
    && sh.cells.Keys <= sh.fields.Keys
    && (forall name | name in sh.fields :: Readables(sh.fields[name]))
    && (forall name | name in sh.cells :: ExportedCell(sh, obj, name))
    && (sh.existing == Some(obj) || (sh.existing.None? && sh.fields.Keys <= sh.cells.Keys))
  }

  /** Read back, every cell of an exported row means the object it was written for, and an empty one none. */
  lemma {:induction false} ExportReadsBack(sh: Sheet, rank: map<Name, nat>, obj: Obj, name: Name)
    requires Ranked(sh, rank) && Exported(sh, obj) && name in sh.cells
    ensures Meaning(sh, rank, name) == Ok(Have(obj, name))
    decreases rank[name], 1, 0
  {
    var f := sh.fields[name];
    ScopeReadsBack(sh, rank, obj, f.scopes, rank[name]);
    var scope := OwnScope(sh.fields, obj, f.scopes);
    assert ExportedCell(sh, obj, name);
    if Have(obj, name).Some? {
      var rel :| rel in f.related.base && rel.id == Have(obj, name).value && sh.cells[name] == CellOf(f, rel, scope);
      CellFindsIt(f, rel, scope);
    }
  }

  /** The scope read from the file is the one the cell was written in. */
  lemma {:induction false} ScopeReadsBack(sh: Sheet, rank: map<Name, nat>, obj: Obj, pairs: seq<ScopePair>, top: nat)
    requires Ranked(sh, rank) && Exported(sh, obj) && Below(sh, rank, pairs, top)
    ensures ScopeOf(sh, rank, pairs, top) == Ok(OwnScope(sh.fields, obj, pairs))
    decreases top, 0, |pairs|
  {
    if pairs != [] {
      assert BelowTop(sh, rank, pairs[0], top);
      if pairs[0].column in sh.cells {
        ExportReadsBack(sh, rank, obj, pairs[0].column);
      }
      ScopeReadsBack(sh, rank, obj, pairs[1..], top);
      assert [] + OwnScope(sh.fields, obj, pairs[1..]) == OwnScope(sh.fields, obj, pairs[1..]);
    }
  }

  lemma {:induction false} FirstKeyIsAKey(rel: Obj, names: seq<Name>)
    ensures FirstKey(rel, names).Some? ==> exists k :: k in rel.keys && rel.keys[k] == FirstKey(rel, names).value
  {
    if names != [] {
      FirstKeyIsAKey(rel, names[1..]);
    }
  }

  /** A written cell is neither "no link" nor the name of another object. */
  lemma CellFindsIt(f: Field, rel: Obj, scope: Scope)
    requires Readables(f) && rel in f.related.base
    ensures var cell := CellOf(f, rel, scope);
            !NoLink(f, cell) && Resolved(f.related, Strip(cell), scope) == Ok(rel)
  {
    var cell := CellOf(f, rel, scope);
    IdNamesItsObject(f.related.base, rel);
    OnlyChoice(f.related, rel, scope);
    FirstKeyIsAKey(rel, READABLE_KEYS);
    assert Strip(cell) == cell;
    if cell != rel.id {
      SameObject(f.related, cell, rel, scope);
    }
  }

  /** A single candidate is the choice, whatever the scope. */
  lemma OnlyChoice(f: Related, rel: Obj, scope: Scope)
    requires FirstMatches(f.base, LOOKUPS, rel.id) == [rel]
    ensures Resolved(f, rel.id, scope) == Ok(rel)
  {
    assert Chosen([rel], scope, f.nullable, rel);
  }

  /** What a value resolves to is one of the objects it may refer to, so its id says which. */
  lemma SameObject(f: Related, value: string, rel: Obj, scope: Scope)
    requires Distinct(f.base) && rel in f.base
    requires Resolved(f, value, scope).Ok? && Resolved(f, value, scope).value.id == rel.id
    ensures Resolved(f, value, scope) == Ok(rel)
  {
    var found := Resolved(f, value, scope).value;
    FoundInBase(f.base, LOOKUPS, value);
    assert found in f.base;
  }

  lemma {:induction false} FoundInBase(base: seq<Obj>, lookups: seq<Name>, value: string)
    ensures forall o | o in FirstMatches(base, lookups, value) :: o in base
  {
    if lookups != [] {
      MatchesAre(base, lookups[0], value);
      FoundInBase(base, lookups[1..], value);
    }
  }
}
