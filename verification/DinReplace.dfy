/** What replacing a cabinet's rails by a sent set means, and when it leaves the floor in order. */
module DinReplace {
  import opened Basics
  import opened Din
  import opened DinRailSets

  /** One entry of a rail set as sent: the id of a rail of the cabinet updates it, anything else is a new rail. */
  datatype RailItem = RailItem(id: Option<nat>, spec: RailSpec)

  predicate Keeps(rails: map<nat, Rail>, cab: nat, item: RailItem) {
    item.id.Some? && item.id.value in rails && rails[item.id.value].cabinet == cab
  }

  function Specs(items: seq<RailItem>): (s: seq<RailSpec>)
    ensures |s| == |items| && forall i | 0 <= i < |s| :: s[i] == items[i].spec
  {
    seq(|items|, i requires 0 <= i < |items| => items[i].spec)
  }

  ghost predicate IdsApart(items: seq<RailItem>) {
    forall i, j | 0 <= i < j < |items| && items[i].id.Some? :: items[i].id != items[j].id
  }

  ghost predicate NamesApart(items: seq<RailItem>) {
    forall i, j | 0 <= i < j < |items| :: items[i].spec.name != items[j].spec.name
  }

  /** The ids a sent set may carry: each one a rail of the cabinet, named once. */
  ghost predicate IdsOk(rails: map<nat, Rail>, cab: nat, items: seq<RailItem>) {
    && (forall i | 0 <= i < |items| && items[i].id.Some? :: Keeps(rails, cab, items[i]))
    && IdsApart(items)
  }

  /** `next` holds exactly `items` as the rails of `cab`, item `i` under `ids[i]`, and every other rail as before. */
  ghost predicate RowsReplaced(rails: map<nat, Rail>, next: map<nat, Rail>, cab: nat, items: seq<RailItem>, ids: seq<nat>) {
    && |ids| == |items|
    && (forall i, j | 0 <= i < j < |ids| :: ids[i] != ids[j])
    && (forall i | 0 <= i < |ids| :: if Keeps(rails, cab, items[i]) then ids[i] == items[i].id.value else ids[i] !in rails)
    && (forall i | 0 <= i < |ids| :: ids[i] in next && next[ids[i]] == Rail(cab, items[i].spec))
    && (forall r | r in rails && rails[r].cabinet != cab :: r in next && next[r] == rails[r])
    && (forall r | r in next :: (r in rails && rails[r].cabinet != cab) || r in ids)
  }

  /** `g` is `f` with the plate of `cab` of size `plate` and exactly `items` as its rails. */
  ghost predicate Replaced(f: Floor, g: Floor, cab: nat, plate: Plate, items: seq<RailItem>, ids: seq<nat>) {
    && g == f.(rails := g.rails, plates := f.plates[cab := plate])
    && RowsReplaced(f.rails, g.rails, cab, items, ids)
  }

  /** The devices on rail `r` would still fit on it, and those with a type mount on it, if it were `spec`. */
  ghost predicate Holds(f: Floor, r: nat, spec: RailSpec) {
    forall d | IsOn(f, d, r) ::
      && End(f, d) <= spec.length
      && (Typed(f, d) ==>
            f.devices[d].kind.value in f.kinds && Mountable(f.kinds[f.devices[d].kind.value], spec.profile))
  }

  ghost predicate Carries(f: Floor, r: nat) {
    exists d :: IsOn(f, d, r)
  }

  ghost predicate CarriersKept(f: Floor, cab: nat, items: seq<RailItem>) {
    forall r | r in f.rails && f.rails[r].cabinet == cab && Carries(f, r) :: KeptId(items, r)
  }

  ghost predicate CarriesUntyped(f: Floor, r: nat) {
    exists d :: IsOn(f, d, r) && !Typed(f, d)
  }

  /** A rail the set keeps carries a device that lost its type. */
  ghost predicate MeetsUntyped(f: Floor, cab: nat, items: seq<RailItem>) {
    exists i :: 0 <= i < |items| && Keeps(f.rails, cab, items[i]) && CarriesUntyped(f, items[i].id.value)
  }

  /** No rail left out carries devices, and every rail kept still holds its own. */
  ghost predicate StrandsNone(f: Floor, cab: nat, items: seq<RailItem>) {
    && CarriersKept(f, cab, items)
    && (forall i | 0 <= i < |items| && Keeps(f.rails, cab, items[i]) :: Holds(f, items[i].id.value, items[i].spec))
  }

  ghost predicate KeptId(items: seq<RailItem>, r: nat) {
    exists i :: 0 <= i < |items| && items[i].id == Some(r)
  }

  /** The rails after the replacement are in order exactly when the sent set is right for the plate. */
  lemma ReplacedRails(f: Floor, g: Floor, cab: nat, plate: Plate, items: seq<RailItem>, ids: seq<nat>)
    requires InOrder(f) && Replaced(f, g, cab, plate, items, ids)
    requires forall i | 0 <= i < |items| :: FieldsOk(items[i].spec)
    ensures RailsInOrder(g) <==> SetOk(Specs(items), plate)
  {
    if SetOk(Specs(items), plate) {
      SetOkMeansInOrder(f, g, cab, plate, items, ids);
    }
    if RailsInOrder(g) {
      var specs := Specs(items);
      forall i | 0 <= i < |specs| ensures WithinPlate(specs[i], plate) {
        assert RailOnPlate(g, ids[i]);
      }
      forall i, j | 0 <= j < i < |specs| ensures Apart(specs[i], specs[j]) {
        assert g.rails[ids[i]].spec == specs[i] && g.rails[ids[j]].spec == specs[j];
      }
    }
  }

  lemma SetOkMeansInOrder(f: Floor, g: Floor, cab: nat, plate: Plate, items: seq<RailItem>, ids: seq<nat>)
    requires InOrder(f) && Replaced(f, g, cab, plate, items, ids)
    requires forall i | 0 <= i < |items| :: FieldsOk(items[i].spec)
    requires SetOk(Specs(items), plate)
    ensures RailsInOrder(g)
  {
    var specs := Specs(items);
    forall r | r in g.rails ensures RailOnPlate(g, r) {
      if r in f.rails && f.rails[r].cabinet != cab {
        assert RailOnPlate(f, r);
      } else {
        var i :| 0 <= i < |ids| && ids[i] == r;
        assert WithinPlate(specs[i], plate);
      }
    }
    forall r, s | r in g.rails && s in g.rails && r != s && g.rails[r].cabinet == g.rails[s].cabinet
      ensures Apart(g.rails[r].spec, g.rails[s].spec)
    {
      if g.rails[r].cabinet == cab {
        var i :| 0 <= i < |ids| && ids[i] == r;
        var j :| 0 <= j < |ids| && ids[j] == s;
        assert if j < i then Apart(specs[i], specs[j]) else Apart(specs[j], specs[i]);
      }
    }
  }

  /** The devices after the replacement are in order exactly when it strands none. */
  lemma ReplacedDevices(f: Floor, g: Floor, cab: nat, plate: Plate, items: seq<RailItem>, ids: seq<nat>)
    requires InOrder(f) && Replaced(f, g, cab, plate, items, ids)
    ensures DevicesInOrder(g) <==> StrandsNone(f, cab, items)
  {
    if StrandsNone(f, cab, items) {
      forall d | d in g.devices && g.devices[d].mount.Some? ensures g.devices[d].mount.value.rail in g.rails {
        var r := f.devices[d].mount.value.rail;
        if f.rails[r].cabinet == cab {
          assert IsOn(f, d, r) && Carries(f, r) && KeptId(items, r);
          var i :| 0 <= i < |items| && items[i].id == Some(r);
          assert Keeps(f.rails, cab, items[i]) && ids[i] == r;
        }
      }
      forall r | r in g.rails ensures RailSeats(g, r) {
        SeatsAfter(f, g, cab, plate, items, ids, r);
      }
    }
    if DevicesInOrder(g) {
      forall r | r in f.rails && f.rails[r].cabinet == cab && Carries(f, r) ensures KeptId(items, r) {
        var d :| IsOn(f, d, r);
        assert IsOn(g, d, r) && r in g.rails;
        var i :| 0 <= i < |ids| && ids[i] == r;
        assert items[i].id == Some(r);
      }
      forall i | 0 <= i < |items| && Keeps(f.rails, cab, items[i]) ensures Holds(f, items[i].id.value, items[i].spec) {
        var r := ids[i];
        assert RailSeats(g, r);
        forall d | IsOn(f, d, r)
          ensures End(f, d) <= items[i].spec.length
          ensures Typed(f, d) ==> Mountable(f.kinds[f.devices[d].kind.value], items[i].spec.profile)
        {
          assert IsOn(g, d, r) && Seated(g, d, r);
        }
      }
    }
  }

  lemma SeatsAfter(f: Floor, g: Floor, cab: nat, plate: Plate, items: seq<RailItem>, ids: seq<nat>, r: nat)
    requires InOrder(f) && Replaced(f, g, cab, plate, items, ids) && StrandsNone(f, cab, items) && r in g.rails
    ensures RailSeats(g, r)
  {
    forall d | IsOn(g, d, r) ensures Seated(g, d, r) && r in f.rails {
      assert IsOn(f, d, r) && r in f.rails && RailSeats(f, r) && Seated(f, d, r);
      if f.rails[r].cabinet == cab {
        var i :| 0 <= i < |ids| && ids[i] == r;
        assert Keeps(f.rails, cab, items[i]) && Holds(f, r, items[i].spec);
      }
    }
    forall d, e | IsOn(g, d, r) && IsOn(g, e, r) && d != e && Typed(g, d) && Typed(g, e) ensures Disjoint(g, d, e) {
      assert Seated(g, d, r) && RailSeats(f, r) && IsOn(f, d, r) && IsOn(f, e, r) && Disjoint(f, d, e);
    }
  }

  // ----- names while the rows are written one by one

  ghost predicate NamesUnique(rails: map<nat, Rail>, cab: nat) {
    forall r, s | r in rails && s in rails && r != s && rails[r].cabinet == cab && rails[s].cabinet == cab ::
      rails[r].spec.name != rails[s].spec.name
  }

  /** Names a rail may step aside to: one per rail, none of them stored or asked for. */
  ghost predicate Spare(temp: nat -> string, rails: map<nat, Rail>, cab: nat, items: seq<RailItem>) {
    && (forall r, s | r != s :: temp(r) != temp(s))
    && (forall r, s | s in rails && rails[s].cabinet == cab :: temp(r) != rails[s].spec.name)
    && (forall r, i | 0 <= i < |items| :: temp(r) != items[i].spec.name)
  }

  /** Rows that each go by a name of their own or by their spare one are told apart. */
  lemma TwoNames(rails: map<nat, Rail>, cab: nat, own: map<nat, string>, temp: nat -> string)
    requires forall r | r in rails && rails[r].cabinet == cab ::
               r in own && (rails[r].spec.name == own[r] || rails[r].spec.name == temp(r))
    requires forall r, s | r in own && s in own && r != s :: own[r] != own[s]
    requires forall r, s | r != s :: temp(r) != temp(s)
    requires forall r, s | s in own :: temp(r) != own[s]
    ensures NamesUnique(rails, cab)
  {
  }

  /** A single row differs. */
  ghost predicate OneRow(a: map<nat, Rail>, b: map<nat, Rail>) {
    exists r :: a.Keys + {r} == b.Keys && forall s | s in a && s != r :: a[s] == b[s]
  }

  /** The kept rails of `cab` carry their items' values, the dropped ones are gone, other rails are as before. */
  ghost predicate KeptWritten(before: map<nat, Rail>, base: map<nat, Rail>, cab: nat, items: seq<RailItem>) {
    && (forall r | r in base :: r in before)
    && (forall r | r in before && before[r].cabinet != cab :: r in base && base[r] == before[r])
    && (forall r | r in base && before[r].cabinet == cab :: KeptId(items, r))
    && (forall i | 0 <= i < |items| && Keeps(before, cab, items[i]) ::
          items[i].id.value in base && base[items[i].id.value] == Rail(cab, items[i].spec))
  }

  /** The rows after the first `n` items were kept or created. */
  ghost predicate Creating(before: map<nat, Rail>, base: map<nat, Rail>, now: map<nat, Rail>, cab: nat,
                           items: seq<RailItem>, ids: seq<nat>, n: nat)
  {
    && |ids| == n <= |items|
    && (forall i, j | 0 <= i < j < n :: ids[i] != ids[j])
    && (forall i | 0 <= i < n :: if Keeps(before, cab, items[i]) then ids[i] == items[i].id.value else ids[i] !in before)
    && (forall i | 0 <= i < n :: ids[i] in now && now[ids[i]] == Rail(cab, items[i].spec))
    && (forall r | r in base :: r in now && now[r] == base[r])
    && (forall r | r in now :: r in base || r in ids)
  }

  /** Row `r` was written from item `i`. */
  ghost predicate RowOf(before: map<nat, Rail>, now: map<nat, Rail>, cab: nat, items: seq<RailItem>, ids: seq<nat>, r: nat, i: nat)
    requires r in now
  {
    && i < |items| && now[r] == Rail(cab, items[i].spec)
    && (if Keeps(before, cab, items[i]) then items[i].id == Some(r) else i < |ids| && ids[i] == r)
  }

  /** Every row of the cabinet was written from some item. */
  lemma CreatingRow(before: map<nat, Rail>, base: map<nat, Rail>, now: map<nat, Rail>, cab: nat,
                    items: seq<RailItem>, ids: seq<nat>, n: nat, r: nat) returns (i: nat)
    requires KeptWritten(before, base, cab, items) && Creating(before, base, now, cab, items, ids, n)
    requires r in now && now[r].cabinet == cab
    ensures RowOf(before, now, cab, items, ids, r, i)
  {
    if r in base {
      assert KeptId(items, r);
      i :| 0 <= i < |items| && items[i].id == Some(r);
      assert Keeps(before, cab, items[i]);
    } else {
      i :| 0 <= i < |ids| && ids[i] == r;
    }
  }

  lemma CreatingNames(before: map<nat, Rail>, base: map<nat, Rail>, now: map<nat, Rail>, cab: nat,
                      items: seq<RailItem>, ids: seq<nat>, n: nat)
    requires NamesApart(items) && KeptWritten(before, base, cab, items) && Creating(before, base, now, cab, items, ids, n)
    ensures NamesUnique(now, cab)
  {
    forall r, s | r in now && s in now && r != s && now[r].cabinet == cab && now[s].cabinet == cab
      ensures now[r].spec.name != now[s].spec.name
    {
      var i := CreatingRow(before, base, now, cab, items, ids, n, r);
      var j := CreatingRow(before, base, now, cab, items, ids, n, s);
      RowsApart(before, now, cab, items, ids, r, s, i, j);
    }
  }

  lemma RowsApart(before: map<nat, Rail>, now: map<nat, Rail>, cab: nat, items: seq<RailItem>, ids: seq<nat>,
                  r: nat, s: nat, i: nat, j: nat)
    requires NamesApart(items) && r in now && s in now && r != s
    requires RowOf(before, now, cab, items, ids, r, i) && RowOf(before, now, cab, items, ids, s, j)
    ensures now[r].spec.name != now[s].spec.name
  {
    assert if i < j then items[i].spec.name != items[j].spec.name else j < i ==> items[j].spec.name != items[i].spec.name;
  }

  lemma CreatingKept(before: map<nat, Rail>, base: map<nat, Rail>, now: map<nat, Rail>, cab: nat,
                     items: seq<RailItem>, ids: seq<nat>, n: nat)
    requires IdsApart(items) && KeptWritten(before, base, cab, items) && Creating(before, base, now, cab, items, ids, n)
    requires n < |items| && Keeps(before, cab, items[n])
    ensures Creating(before, base, now, cab, items, ids + [items[n].id.value], n + 1)
  {
    var more := ids + [items[n].id.value];
    forall i | 0 <= i < n ensures more[i] != more[n] {
      assert items[i].id.Some? ==> items[i].id != items[n].id;
    }
  }

  lemma CreatingNew(before: map<nat, Rail>, base: map<nat, Rail>, now: map<nat, Rail>, cab: nat,
                    items: seq<RailItem>, ids: seq<nat>, n: nat, id: nat)
    requires Creating(before, base, now, cab, items, ids, n) && KeptWritten(before, base, cab, items)
    requires n < |items| && !Keeps(before, cab, items[n]) && id !in now && id !in before
    ensures Creating(before, base, now[id := Rail(cab, items[n].spec)], cab, items, ids + [id], n + 1)
  {
  }

  lemma CreatingDone(before: map<nat, Rail>, base: map<nat, Rail>, now: map<nat, Rail>, cab: nat,
                     items: seq<RailItem>, ids: seq<nat>)
    requires KeptWritten(before, base, cab, items) && Creating(before, base, now, cab, items, ids, |items|)
    ensures RowsReplaced(before, now, cab, items, ids)
  {
    forall r | r in now ensures (r in before && before[r].cabinet != cab) || r in ids {
      if r in base && before[r].cabinet == cab {
        assert KeptId(items, r);
        var i :| 0 <= i < |items| && items[i].id == Some(r);
        assert Keeps(before, cab, items[i]) && ids[i] == r;
      }
    }
  }

  // ----- the log of one-row writes

  /** The successive row sets from `first` to `last`: each differs from the one before in one row, and no two
      rails of `cab` ever share a label. */
  ghost predicate Log(history: seq<map<nat, Rail>>, first: map<nat, Rail>, last: map<nat, Rail>, cab: nat) {
    && history != [] && history[0] == first && history[|history|-1] == last
    && (forall m | m in history :: NamesUnique(m, cab))
    && (forall k | 0 < k < |history| :: OneRow(history[k-1], history[k]))
  }

  lemma LogWrite(history: seq<map<nat, Rail>>, first: map<nat, Rail>, last: map<nat, Rail>, cab: nat, r: nat, rail: Rail)
    requires Log(history, first, last, cab) && NamesUnique(last[r := rail], cab)
    ensures Log(history + [last[r := rail]], first, last[r := rail], cab)
  {
    var next := last[r := rail];
    assert last.Keys + {r} == next.Keys && OneRow(last, next);
    var more := history + [next];
    forall k | 0 < k < |more| ensures OneRow(more[k-1], more[k]) {
      assert k < |history| ==> OneRow(history[k-1], history[k]);
    }
  }

  lemma LogJoin(h: seq<map<nat, Rail>>, k: seq<map<nat, Rail>>, a: map<nat, Rail>, b: map<nat, Rail>, c: map<nat, Rail>, cab: nat)
    requires Log(h, a, b, cab) && Log(k, b, c, cab)
    ensures Log(h + k[1..], a, c, cab)
  {
    var all := h + k[1..];
    forall i | 0 < i < |all| ensures OneRow(all[i-1], all[i]) {
      if i < |h| {
        assert OneRow(h[i-1], h[i]);
      } else {
        assert OneRow(k[i-|h|], k[i-|h|+1]);
        assert all[i] == k[i-|h|+1] && all[i-1] == k[i-|h|];
      }
    }
    assert all[|all|-1] == c;
    forall m | m in all ensures NamesUnique(m, cab) {
      assert m in h || m in k;
    }
  }

  // ----- the rows between the phases

  /** `index` says which item updates each rail of `cab` left in `rows`. */
  ghost predicate Indexes(rows: map<nat, Rail>, cab: nat, items: seq<RailItem>, index: map<nat, nat>) {
    && (forall r | r in index :: r in rows && rows[r].cabinet == cab && index[r] < |items| && items[index[r]].id == Some(r))
    && (forall r | r in rows && rows[r].cabinet == cab :: r in index)
  }

  /** Rows whose first `n` items stepped aside where their label changes. */
  ghost predicate Aside(base: map<nat, Rail>, rows: map<nat, Rail>, cab: nat, items: seq<RailItem>,
                        index: map<nat, nat>, temp: nat -> string, n: nat)
    requires Indexes(base, cab, items, index)
  {
    && rows.Keys == base.Keys
    && forall r | r in rows :: rows[r] == if r in index && index[r] < n && base[r].spec.name != items[index[r]].spec.name
                                          then base[r].(spec := base[r].spec.(name := temp(r))) else base[r]
  }

  /** Rows whose first `n` items carry their own values, the rest as `base`. */
  ghost predicate Written(base: map<nat, Rail>, rows: map<nat, Rail>, cab: nat, items: seq<RailItem>,
                          index: map<nat, nat>, n: nat)
    requires Indexes(base, cab, items, index)
  {
    && rows.Keys == base.Keys
    && forall r | r in rows :: rows[r] == if r in index && index[r] < n then Rail(cab, items[index[r]].spec) else base[r]
  }

  lemma AsideNames(base: map<nat, Rail>, rows: map<nat, Rail>, cab: nat, items: seq<RailItem>,
                   index: map<nat, nat>, temp: nat -> string, n: nat)
    requires Indexes(base, cab, items, index) && Aside(base, rows, cab, items, index, temp, n)
    requires NamesUnique(base, cab) && Spare(temp, base, cab, items)
    ensures NamesUnique(rows, cab)
  {
    TwoNames(rows, cab, map s | s in base && base[s].cabinet == cab :: base[s].spec.name, temp);
  }

  /** Item `i` is the one that updates a rail of the cabinet. */
  predicate Updates(items: seq<RailItem>, index: map<nat, nat>, i: nat)
    requires i < |items|
  {
    items[i].id.Some? && items[i].id.value in index && index[items[i].id.value] == i
  }

  lemma AsideStep(base: map<nat, Rail>, rows: map<nat, Rail>, cab: nat, items: seq<RailItem>,
                  index: map<nat, nat>, temp: nat -> string, i: nat, next: map<nat, Rail>)
    requires Indexes(base, cab, items, index) && i < |items| && Aside(base, rows, cab, items, index, temp, i)
    requires next == if Updates(items, index, i) && rows[items[i].id.value].spec.name != items[i].spec.name
                     then rows[items[i].id.value := rows[items[i].id.value].(
                                 spec := rows[items[i].id.value].spec.(name := temp(items[i].id.value)))]
                     else rows
    ensures Aside(base, next, cab, items, index, temp, i + 1)
  {
    assert forall r | r in index && index[r] == i :: items[i].id == Some(r) && Updates(items, index, i);
  }

  lemma WrittenStep(base: map<nat, Rail>, rows: map<nat, Rail>, cab: nat, items: seq<RailItem>,
                    index: map<nat, nat>, i: nat, next: map<nat, Rail>)
    requires Indexes(base, cab, items, index) && i < |items| && Written(base, rows, cab, items, index, i)
    requires next == if Updates(items, index, i) && rows[items[i].id.value].spec != items[i].spec
                     then rows[items[i].id.value := Rail(cab, items[i].spec)] else rows
    ensures Written(base, next, cab, items, index, i + 1)
  {
    assert forall r | r in index && index[r] == i :: items[i].id == Some(r) && Updates(items, index, i);
  }

  /** Each rail of `cab` goes by the label its item asks for or by its spare one. */
  ghost predicate OwnOrSpare(rows: map<nat, Rail>, cab: nat, items: seq<RailItem>, index: map<nat, nat>, temp: nat -> string)
    requires Indexes(rows, cab, items, index)
  {
    forall r | r in index :: rows[r].spec.name == items[index[r]].spec.name || rows[r].spec.name == temp(r)
  }

  lemma WrittenNames(base: map<nat, Rail>, rows: map<nat, Rail>, cab: nat, items: seq<RailItem>,
                     index: map<nat, nat>, temp: nat -> string, n: nat)
    requires Indexes(base, cab, items, index) && Written(base, rows, cab, items, index, n)
    requires OwnOrSpare(base, cab, items, index, temp) && NamesApart(items)
    requires forall r, s | r != s :: temp(r) != temp(s)
    requires forall r, i | 0 <= i < |items| :: temp(r) != items[i].spec.name
    ensures NamesUnique(rows, cab)
  {
    var own := map r | r in index :: items[index[r]].spec.name;
    forall r, s | r in own && s in own && r != s ensures own[r] != own[s] {
      var i, j := index[r], index[s];
      assert i != j;
      assert if i < j then items[i].spec.name != items[j].spec.name else items[j].spec.name != items[i].spec.name;
    }
    TwoNames(rows, cab, own, temp);
  }

  // ----- a cabinet brought in line with its type

  /** The template that names the label, if any. */
  function TemplateFor(templates: seq<RailSpec>, name: string): (t: Option<RailSpec>)
    ensures t.Some? ==> t.value in templates && t.value.name == name
    ensures t.None? ==> forall u | u in templates :: u.name != name
  {
    if templates == [] then None
    else if templates[0].name == name then Some(templates[0])
    else TemplateFor(templates[1..], name)
  }

  /** A rail takes the template with its label, unless its devices would not survive that. */
  ghost function SyncedSpec(f: Floor, r: nat, templates: seq<RailSpec>): RailSpec
    requires r in f.rails
  {
    var t := TemplateFor(templates, f.rails[r].spec.name);
    if t.Some? && Holds(f, r, t.value) then t.value else f.rails[r].spec
  }

  /** Every device on rail `r` ends before the template's rail does, and a typed one mounts on its profile. */
  ghost predicate Survives(f: Floor, r: nat, t: RailSpec) {
    forall d | IsOn(f, d, r) ::
      && Start(f, d) + Width(f, d) <= t.length
      && (f.devices[d].kind.Some? ==>
            && f.devices[d].kind.value in f.kinds
            && f.kinds[f.devices[d].kind.value].width.Some? && t.profile in f.kinds[f.devices[d].kind.value].profiles)
  }

  /** `spec` is the template with the rail's label if the rail's devices survive that, and the rail's own place otherwise. */
  ghost predicate TakesTemplate(f: Floor, r: nat, templates: seq<RailSpec>, spec: RailSpec)
    requires r in f.rails
  {
    var own := f.rails[r].spec;
    && (forall t | t in templates && t.name == own.name :: if Survives(f, r, t) then spec == t else spec == own)
    && ((forall t | t in templates :: t.name != own.name) ==> spec == own)
  }

  /** From `f` to `g` the rails of `cab` take their templates, the missing ones are added, and nothing else changes. */
  ghost predicate TakesTemplates(f: Floor, g: Floor, cab: nat, templates: seq<RailSpec>) {
    && (forall r | r in f.rails :: r in g.rails && g.rails[r].cabinet == f.rails[r].cabinet)
    && (forall r | r in f.rails && f.rails[r].cabinet != cab :: g.rails[r] == f.rails[r])
    && (forall r | r in f.rails && f.rails[r].cabinet == cab :: TakesTemplate(f, r, templates, g.rails[r].spec))
    && (forall r | r in g.rails && r !in f.rails ::
          g.rails[r].cabinet == cab && g.rails[r].spec in templates && Lacks(f, cab, g.rails[r].spec.name))
    && (forall t | t in templates && Lacks(f, cab, t.name) :: exists r :: r in g.rails && r !in f.rails && g.rails[r].spec == t)
    && (forall r, s | r in g.rails && s in g.rails && r !in f.rails && s !in f.rails && r != s ::
          g.rails[r].spec != g.rails[s].spec)
  }

  lemma {:induction false} OneTemplate(templates: seq<RailSpec>, t: RailSpec)
    requires LabelsApart(templates) && t in templates
    ensures TemplateFor(templates, t.name) == Some(t)
  {
    if templates[0].name != t.name {
      OneTemplate(templates[1..], t);
    }
  }

  /** The rail's place after a sync, without saying how it is found. */
  lemma SyncedSpecTakes(f: Floor, r: nat, templates: seq<RailSpec>)
    requires r in f.rails && LabelsApart(templates)
    ensures TakesTemplate(f, r, templates, SyncedSpec(f, r, templates))
  {
    forall t | t in templates && t.name == f.rails[r].spec.name
      ensures SyncedSpec(f, r, templates) == if Survives(f, r, t) then t else f.rails[r].spec
    {
      OneTemplate(templates, t);
      assert Survives(f, r, t) <==> Holds(f, r, t);
    }
  }

  lemma SyncedTakes(f: Floor, g: Floor, cab: nat, plate: Plate, templates: seq<RailSpec>)
    requires Synced(f, g, cab, plate, templates) && LabelsApart(templates)
    ensures TakesTemplates(f, g, cab, templates)
  {
    forall r | r in f.rails && f.rails[r].cabinet == cab ensures TakesTemplate(f, r, templates, g.rails[r].spec) {
      SyncedSpecTakes(f, r, templates);
    }
    forall t | t in templates && Lacks(f, cab, t.name)
      ensures exists r :: r in g.rails && r !in f.rails && g.rails[r].spec == t
    {
      assert Added(f, g, t);
    }
  }

  /** A rail that a template would change carries a device that lost its type. */
  ghost predicate ChangesUntyped(f: Floor, r: nat, templates: seq<RailSpec>)
    requires r in f.rails
  {
    var t := TemplateFor(templates, f.rails[r].spec.name);
    t.Some? && t.value != f.rails[r].spec && CarriesUntyped(f, r)
  }

  ghost predicate SyncMeetsUntyped(f: Floor, cab: nat, templates: seq<RailSpec>) {
    exists r :: r in f.rails && f.rails[r].cabinet == cab && ChangesUntyped(f, r, templates)
  }

  ghost predicate Lacks(f: Floor, cab: nat, name: string) {
    forall r | r in f.rails && f.rails[r].cabinet == cab :: f.rails[r].spec.name != name
  }

  ghost predicate LabelsApart(templates: seq<RailSpec>) {
    forall i, j | 0 <= i < j < |templates| :: templates[i].name != templates[j].name
  }

  /** Nothing removed, each rail of `cab` synced, and one new rail for each template the cabinet lacked. */
  ghost predicate Synced(f: Floor, g: Floor, cab: nat, plate: Plate, templates: seq<RailSpec>) {
    && g == f.(rails := g.rails, plates := f.plates[cab := plate])
    && SyncedOld(f, g, cab, templates)
    && SyncedNew(f, g, cab, templates)
    && SyncedMissing(f, g, cab, templates)
    && SyncedOnce(f, g)
  }

  ghost predicate SyncedOld(f: Floor, g: Floor, cab: nat, templates: seq<RailSpec>) {
    forall r | r in f.rails :: r in g.rails && g.rails[r] ==
      if f.rails[r].cabinet == cab then Rail(cab, SyncedSpec(f, r, templates)) else f.rails[r]
  }

  ghost predicate SyncedNew(f: Floor, g: Floor, cab: nat, templates: seq<RailSpec>) {
    forall r | r in g.rails && r !in f.rails ::
      g.rails[r].cabinet == cab && g.rails[r].spec in templates && Lacks(f, cab, g.rails[r].spec.name)
  }

  ghost predicate SyncedMissing(f: Floor, g: Floor, cab: nat, templates: seq<RailSpec>) {
    forall t | t in templates && Lacks(f, cab, t.name) :: Added(f, g, t)
  }

  ghost predicate SyncedOnce(f: Floor, g: Floor) {
    forall r, s | r in g.rails && s in g.rails && r !in f.rails && s !in f.rails && r != s ::
      g.rails[r].spec != g.rails[s].spec
  }

  ghost predicate Added(f: Floor, g: Floor, t: RailSpec) {
    exists r :: r in g.rails && r !in f.rails && g.rails[r].spec == t
  }

  ghost function AddedId(f: Floor, g: Floor, t: RailSpec): (r: nat)
    requires Added(f, g, t)
    ensures r in g.rails && r !in f.rails && g.rails[r].spec == t
  {
    var r :| r in g.rails && r !in f.rails && g.rails[r].spec == t; r
  }

  /** The rail set a sync sends: the cabinet's own rails synced, then the templates it lacks. */
  ghost predicate SyncItems(f: Floor, cab: nat, templates: seq<RailSpec>, items: seq<RailItem>) {
    && (forall i | 0 <= i < |items| ::
          if items[i].id.Some? then Keeps(f.rails, cab, items[i]) && items[i].spec == SyncedSpec(f, items[i].id.value, templates)
          else items[i].spec in templates && Lacks(f, cab, items[i].spec.name))
    && (forall r | r in f.rails && f.rails[r].cabinet == cab :: KeptId(items, r))
    && (forall t | t in templates && Lacks(f, cab, t.name) :: SentNew(items, t))
    && IdsApart(items)
    && (forall i, j | 0 <= i < j < |items| && items[i].id.None? && items[j].id.None? :: items[i].spec.name != items[j].spec.name)
  }

  ghost predicate SentNew(items: seq<RailItem>, t: RailSpec) {
    exists i :: 0 <= i < |items| && items[i].id.None? && items[i].spec == t
  }

  lemma SyncStrandsNone(f: Floor, cab: nat, templates: seq<RailSpec>, items: seq<RailItem>)
    requires InOrder(f) && SyncItems(f, cab, templates, items)
    ensures StrandsNone(f, cab, items)
  {
    forall i | 0 <= i < |items| && Keeps(f.rails, cab, items[i]) ensures Holds(f, items[i].id.value, items[i].spec) {
      var r := items[i].id.value;
      assert RailSeats(f, r);
      if items[i].spec == f.rails[r].spec {
        assert forall d | IsOn(f, d, r) :: Seated(f, d, r);
      }
    }
  }

  lemma ReplacedOwn(f: Floor, g: Floor, cab: nat, plate: Plate, templates: seq<RailSpec>, items: seq<RailItem>,
                    ids: seq<nat>, r: nat)
    requires SyncItems(f, cab, templates, items) && Replaced(f, g, cab, plate, items, ids) && r in f.rails
    ensures r in g.rails
    ensures g.rails[r] == if f.rails[r].cabinet == cab then Rail(cab, SyncedSpec(f, r, templates)) else f.rails[r]
  {
    if f.rails[r].cabinet == cab {
      assert KeptId(items, r);
      var i :| 0 <= i < |items| && items[i].id == Some(r);
      assert Keeps(f.rails, cab, items[i]) && ids[i] == r;
    }
  }

  /** A rail that was not there before was sent as a new one. */
  lemma ReplacedNew(f: Floor, g: Floor, cab: nat, plate: Plate, templates: seq<RailSpec>, items: seq<RailItem>,
                    ids: seq<nat>, r: nat) returns (i: nat)
    requires SyncItems(f, cab, templates, items) && Replaced(f, g, cab, plate, items, ids)
    requires r in g.rails && r !in f.rails
    ensures i < |items| && items[i].id.None? && ids[i] == r && g.rails[r] == Rail(cab, items[i].spec)
    ensures items[i].spec in templates && Lacks(f, cab, items[i].spec.name)
  {
    i :| 0 <= i < |ids| && ids[i] == r;
    assert !Keeps(f.rails, cab, items[i]);
  }

  lemma ReplacedAdds(f: Floor, g: Floor, cab: nat, plate: Plate, templates: seq<RailSpec>, items: seq<RailItem>,
                     ids: seq<nat>, t: RailSpec)
    requires SyncItems(f, cab, templates, items) && Replaced(f, g, cab, plate, items, ids)
    requires t in templates && Lacks(f, cab, t.name)
    ensures Added(f, g, t)
  {
    assert SentNew(items, t);
    var i :| 0 <= i < |items| && items[i].id.None? && items[i].spec == t;
    assert !Keeps(f.rails, cab, items[i]);
    assert ids[i] in g.rails && ids[i] !in f.rails && g.rails[ids[i]].spec == t;
  }

  lemma ReplacedSyncsOld(f: Floor, g: Floor, cab: nat, plate: Plate, templates: seq<RailSpec>, items: seq<RailItem>, ids: seq<nat>)
    requires SyncItems(f, cab, templates, items) && Replaced(f, g, cab, plate, items, ids)
    ensures SyncedOld(f, g, cab, templates) && SyncedMissing(f, g, cab, templates)
  {
    forall r | r in f.rails
      ensures r in g.rails && g.rails[r] ==
              if f.rails[r].cabinet == cab then Rail(cab, SyncedSpec(f, r, templates)) else f.rails[r]
    {
      ReplacedOwn(f, g, cab, plate, templates, items, ids, r);
    }
    forall t | t in templates && Lacks(f, cab, t.name) ensures Added(f, g, t) {
      ReplacedAdds(f, g, cab, plate, templates, items, ids, t);
    }
  }

  lemma ReplacedSyncsNew(f: Floor, g: Floor, cab: nat, plate: Plate, templates: seq<RailSpec>, items: seq<RailItem>, ids: seq<nat>)
    requires SyncItems(f, cab, templates, items) && Replaced(f, g, cab, plate, items, ids)
    ensures SyncedNew(f, g, cab, templates)
  {
    forall r | r in g.rails && r !in f.rails
      ensures g.rails[r].cabinet == cab && g.rails[r].spec in templates && Lacks(f, cab, g.rails[r].spec.name)
    {
      var _ := ReplacedNew(f, g, cab, plate, templates, items, ids, r);
    }
  }

  lemma ReplacedSyncsOnce(f: Floor, g: Floor, cab: nat, plate: Plate, templates: seq<RailSpec>, items: seq<RailItem>, ids: seq<nat>)
    requires SyncItems(f, cab, templates, items) && Replaced(f, g, cab, plate, items, ids)
    ensures SyncedOnce(f, g)
  {
    forall r, s | r in g.rails && s in g.rails && r !in f.rails && s !in f.rails && r != s
      ensures g.rails[r].spec != g.rails[s].spec
    {
      var i := ReplacedNew(f, g, cab, plate, templates, items, ids, r);
      var j := ReplacedNew(f, g, cab, plate, templates, items, ids, s);
      assert if i < j then items[i].spec.name != items[j].spec.name else items[j].spec.name != items[i].spec.name;
    }
  }

  lemma ReplacedIsSynced(f: Floor, g: Floor, cab: nat, plate: Plate, templates: seq<RailSpec>, items: seq<RailItem>, ids: seq<nat>)
    requires SyncItems(f, cab, templates, items) && Replaced(f, g, cab, plate, items, ids)
    ensures Synced(f, g, cab, plate, templates)
    ensures LabelsApart(templates) ==> TakesTemplates(f, g, cab, templates)
  {
    ReplacedSyncsOld(f, g, cab, plate, templates, items, ids);
    ReplacedSyncsNew(f, g, cab, plate, templates, items, ids);
    ReplacedSyncsOnce(f, g, cab, plate, templates, items, ids);
    if LabelsApart(templates) {
      SyncedTakes(f, g, cab, plate, templates);
    }
  }

  /** The id each item of a sync has in the synced floor. */
  ghost function IdIn(f: Floor, g: Floor, item: RailItem): nat {
    if item.id.Some? then item.id.value
    else if Added(f, g, item.spec) then AddedId(f, g, item.spec) else 0
  }

  lemma SyncedIds(f: Floor, g: Floor, cab: nat, plate: Plate, templates: seq<RailSpec>, items: seq<RailItem>, i: nat)
    requires SyncItems(f, cab, templates, items) && Synced(f, g, cab, plate, templates) && i < |items|
    ensures var id := IdIn(f, g, items[i]);
            && id in g.rails && g.rails[id] == Rail(cab, items[i].spec)
            && (if Keeps(f.rails, cab, items[i]) then id == items[i].id.value else id !in f.rails)
  {
    if items[i].id.None? {
      assert Added(f, g, items[i].spec);
    }
  }

  lemma SyncedIsReplaced(f: Floor, g: Floor, cab: nat, plate: Plate, templates: seq<RailSpec>, items: seq<RailItem>)
    returns (ids: seq<nat>)
    requires SyncItems(f, cab, templates, items) && Synced(f, g, cab, plate, templates)
    ensures Replaced(f, g, cab, plate, items, ids)
  {
    ids := seq(|items|, i requires 0 <= i < |items| => IdIn(f, g, items[i]));
    forall i | 0 <= i < |items|
      ensures ids[i] in g.rails && g.rails[ids[i]] == Rail(cab, items[i].spec)
      ensures if Keeps(f.rails, cab, items[i]) then ids[i] == items[i].id.value else ids[i] !in f.rails
    {
      SyncedIds(f, g, cab, plate, templates, items, i);
    }
    forall i, j | 0 <= i < j < |ids| ensures ids[i] != ids[j] {
      SyncedIds(f, g, cab, plate, templates, items, i);
      SyncedIds(f, g, cab, plate, templates, items, j);
    }
    forall r | r in g.rails ensures (r in f.rails && f.rails[r].cabinet != cab) || r in ids {
      SyncedCovers(f, g, cab, plate, templates, items, ids, r);
    }
  }

  lemma SyncedCovers(f: Floor, g: Floor, cab: nat, plate: Plate, templates: seq<RailSpec>, items: seq<RailItem>,
                     ids: seq<nat>, r: nat)
    requires SyncItems(f, cab, templates, items) && Synced(f, g, cab, plate, templates) && r in g.rails
    requires |ids| == |items| && forall i | 0 <= i < |items| :: ids[i] == IdIn(f, g, items[i])
    ensures (r in f.rails && f.rails[r].cabinet != cab) || r in ids
  {
    if r in f.rails && f.rails[r].cabinet == cab {
      assert KeptId(items, r);
      var i :| 0 <= i < |items| && items[i].id == Some(r);
      assert ids[i] == r;
    } else if r !in f.rails {
      assert SentNew(items, g.rails[r].spec);
      var i :| 0 <= i < |items| && items[i].id.None? && items[i].spec == g.rails[r].spec;
      SyncedIds(f, g, cab, plate, templates, items, i);
      assert ids[i] == r;
    }
  }
}
