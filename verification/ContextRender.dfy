/**
 The config context rendered for a device: which contexts apply to it, and whose data shows (api/config_context.py
 `_region_chain`, `_matches`, `render_config_context`).
 */
module ContextRender {
  import opened Basics
  import opened ConfigContext

  // ----- regions

  /** The region above each one; a region with none is at the top. */
  type Regions = map<nat, nat>

  function ParentOf(regions: Regions, region: nat): Option<nat> {
    if region in regions then Some(regions[region]) else None
  }

  /** The region `k` levels above. */
  function Above(regions: Regions, region: Option<nat>, k: nat): Option<nat>
    decreases k
  {
    if region.None? || k == 0 then region else Above(regions, ParentOf(regions, region.value), k - 1)
  }

  const GUARD: nat := 50

  lemma {:induction false} AboveStep(regions: Regions, region: Option<nat>, k: nat)
    ensures Above(regions, region, k + 1)
         == match Above(regions, region, k) case None => None case Some(r) => ParentOf(regions, r)
    decreases k
  {
    if region.Some? {
      var parent := ParentOf(regions, region.value);
      if k > 0 {
        AboveStep(regions, parent, k - 1);
      } else {
        assert Above(regions, region, 1) == Above(regions, parent, 0) == parent;
      }
    }
  }

  /** The region is `region` or above it, within 50 levels. */
  ghost predicate Seen(regions: Regions, region: Option<nat>, r: nat) {
    exists k: nat :: k < GUARD && Above(regions, region, k) == Some(r)
  }

  /** A region and what is above it, as far as the loop climbs. */
  method RegionChain(regions: Regions, region: Option<nat>) returns (seen: set<nat>)
    ensures forall r: nat :: r in seen <==> Seen(regions, region, r)
  {
    var node, guard: nat := region, 0;
    seen := {};
    while node.Some? && guard < GUARD
      invariant guard <= GUARD && node == Above(regions, region, guard)
      invariant forall r: nat :: r in seen <==> exists k: nat :: k < guard && Above(regions, region, k) == Some(r)
      decreases GUARD - guard
    {
      AboveStep(regions, region, guard);
      seen := seen + {node.value};
      node := ParentOf(regions, node.value);
      guard := guard + 1;
    }
    forall k: nat | guard <= k < GUARD ensures Above(regions, region, k) == None {
      NoneAbove(regions, region, guard, k);
    }
  }

  lemma {:induction false} NoneAbove(regions: Regions, region: Option<nat>, m: nat, k: nat)
    requires m <= k && Above(regions, region, m) == None
    ensures Above(regions, region, k) == None
    decreases k
  {
    if m < k {
      NoneAbove(regions, region, m, k - 1);
      AboveStep(regions, region, k - 1);
    }
  }

  /** Once the same region comes again, the levels repeat. */
  lemma {:induction false} Repeats(regions: Regions, region: Option<nat>, i: nat, j: nat, k: nat)
    requires i < j <= k && Above(regions, region, i) == Above(regions, region, j)
    ensures Above(regions, region, k) == Above(regions, region, k - (j - i))
    decreases k
  {
    if j < k {
      Repeats(regions, region, i, j, k - 1);
      AboveStep(regions, region, k - 1);
      AboveStep(regions, region, k - 1 - (j - i));
    }
  }

  ghost predicate ComesAgain(regions: Regions, region: Option<nat>, i: nat, j: nat) {
    i < j <= GUARD && Above(regions, region, i) == Above(regions, region, j)
  }

  lemma {:induction false} ComesEarly(regions: Regions, region: Option<nat>, i: nat, j: nat, k: nat, r: nat)
    requires ComesAgain(regions, region, i, j) && Above(regions, region, k) == Some(r)
    ensures Seen(regions, region, r)
    decreases k
  {
    if k >= GUARD {
      Repeats(regions, region, i, j, k);
      ComesEarly(regions, region, i, j, k - (j - i), r);
    }
  }

  /** Every region above is found exactly when they end within 50 levels or come round again within them. */
  lemma ChainIsWhole(regions: Regions, region: Option<nat>)
    ensures (forall k: nat, r :: Above(regions, region, k) == Some(r) ==> Seen(regions, region, r))
       <==> (Above(regions, region, GUARD) == None || exists i: nat, j: nat :: ComesAgain(regions, region, i, j))
  {
    if Above(regions, region, GUARD) == None {
      forall k: nat, r | Above(regions, region, k) == Some(r) ensures Seen(regions, region, r) {
        if k >= GUARD {
          NoneAbove(regions, region, GUARD, k);
        }
      }
    } else if i: nat, j: nat :| ComesAgain(regions, region, i, j) {
      forall k: nat, r | Above(regions, region, k) == Some(r) ensures Seen(regions, region, r) {
        ComesEarly(regions, region, i, j, k, r);
      }
    } else {
      var last := Above(regions, region, GUARD).value;
      if Seen(regions, region, last) {
        var k: nat :| k < GUARD && Above(regions, region, k) == Some(last);
        assert ComesAgain(regions, region, k, GUARD);
      }
    }
  }

  // ----- which contexts apply

  datatype Site = Site(id: nat, region: Option<nat>)
  datatype Target = Target(tenant: nat, site: Option<Site>, role: Option<nat>, platform: Option<nat>)

  datatype Context = Context(tenant: nat, name: string, weight: nat, active: bool, sites: set<nat>, roles: set<nat>,
                             platforms: set<nat>, regions: set<nat>, data: Dict)

  /** The context leaves this dimension open, or names the target's value there. */
  predicate Fits(ids: set<nat>, value: Option<nat>) { !(ids != {} && (value.None? || value.value !in ids)) }

  predicate Matches(c: Context, site: Option<nat>, chain: set<nat>, role: Option<nat>, platform: Option<nat>) {
    && Fits(c.sites, site) && Fits(c.roles, role) && Fits(c.platforms, platform)
    && !(c.regions != {} && c.regions * chain == {})
  }

  function SiteOf(t: Target): Option<nat> { if t.site.Some? then Some(t.site.value.id) else None }

  function RegionOf(t: Target): Option<nat> { if t.site.Some? then t.site.value.region else None }

  /** The context's criteria for one dimension shut the target out: it has none of the values named. */
  ghost predicate ShutOut(ids: set<nat>, has: nat -> bool) {
    (exists id :: id in ids) && forall id | id in ids :: !has(id)
  }

  /**
   The context is for the target: an active one of its tenant that no dimension shuts it out of. A region named stands for
   every site in it and in what lies below, to 50 levels.
   */
  ghost predicate IsFor(regions: Regions, c: Context, t: Target) {
    && c.active && c.tenant == t.tenant
    && !ShutOut(c.sites, (id: nat) => t.site.Some? && t.site.value.id == id)
    && !ShutOut(c.roles, (id: nat) => t.role == Some(id))
    && !ShutOut(c.platforms, (id: nat) => t.platform == Some(id))
    && !ShutOut(c.regions, (id: nat) => t.site.Some? && Seen(regions, t.site.value.region, id))
  }

  lemma MatchesMeans(regions: Regions, c: Context, t: Target, chain: set<nat>)
    requires forall r: nat :: r in chain <==> Seen(regions, RegionOf(t), r)
    requires c.active && c.tenant == t.tenant
    ensures Matches(c, SiteOf(t), chain, t.role, t.platform) <==> IsFor(regions, c, t)
  {
    FitsMeans(c.sites, SiteOf(t), (id: nat) => t.site.Some? && t.site.value.id == id);
    FitsMeans(c.roles, t.role, (id: nat) => t.role == Some(id));
    FitsMeans(c.platforms, t.platform, (id: nat) => t.platform == Some(id));
    var has := (id: nat) => t.site.Some? && Seen(regions, t.site.value.region, id);
    assert forall r: nat :: r in chain <==> has(r);
    assert forall r: nat | r in c.regions && r in chain :: r in c.regions * chain;
    if r :| r in c.regions * chain {
      assert has(r);
    }
  }

  lemma FitsMeans(ids: set<nat>, value: Option<nat>, has: nat -> bool)
    requires forall id: nat :: has(id) <==> value == Some(id)
    ensures Fits(ids, value) <==> !ShutOut(ids, has)
  {
  }

  // ----- the query

  /** `c` comes before `e`: by weight, then by name as the database orders names. */
  ghost predicate Before(rank: string -> int, c: Context, e: Context) {
    c.weight < e.weight || (c.weight == e.weight && rank(c.name) < rank(e.name))
  }

  /** What the database answers: the tenant's active contexts in order; names are unique in a tenant. */
  ghost predicate Queried(table: set<Context>, tenant: nat, rank: string -> int, contexts: seq<Context>) {
    && (forall c :: c in contexts <==> c in table && c.active && c.tenant == tenant)
    && forall i, j | 0 <= i < j < |contexts| :: Before(rank, contexts[i], contexts[j])
  }

  // ----- what is rendered

  function Applied(contexts: seq<Context>, ok: Context -> bool): seq<Context> {
    if contexts == [] then []
    else
      var before := Applied(contexts[..|contexts|-1], ok);
      if ok(contexts[|contexts|-1]) then before + [contexts[|contexts|-1]] else before
  }

  function Names(contexts: seq<Context>): seq<string> {
    seq(|contexts|, i requires 0 <= i < |contexts| => contexts[i].name)
  }

  function Datas(contexts: seq<Context>): seq<Dict> {
    seq(|contexts|, i requires 0 <= i < |contexts| => contexts[i].data)
  }

  lemma {:induction false} AppliedHolds(contexts: seq<Context>, ok: Context -> bool, rank: string -> int)
    requires forall i, j | 0 <= i < j < |contexts| :: Before(rank, contexts[i], contexts[j])
    ensures forall c :: c in Applied(contexts, ok) <==> c in contexts && ok(c)
    ensures InOrder(rank, Applied(contexts, ok))
  {
    if contexts != [] {
      var front, last := contexts[..|contexts|-1], contexts[|contexts|-1];
      AppliedHolds(front, ok, rank);
      assert contexts == front + [last];
      assert forall c | c in front :: Before(rank, c, last);
    }
  }

  ghost predicate InOrder(rank: string -> int, contexts: seq<Context>) {
    forall i, j | 0 <= i < j < |contexts| :: Before(rank, contexts[i], contexts[j])
  }

  /** `c` has the last word on the path: whatever else is in the list and says something about it comes before. */
  ghost predicate HasLastWord(contexts: set<Context>, rank: string -> int, c: Context, path: Path) {
    && c in contexts && Says(c.data, path) != Silent
    && forall e | e in contexts && e != c && Says(e.data, path) != Silent :: Before(rank, e, c)
  }

  /** Nobody in the list says anything about the path. */
  ghost predicate NobodySpeaks(contexts: set<Context>, path: Path) {
    forall c | c in contexts :: Says(c.data, path) == Silent
  }

  function AsSet(contexts: seq<Context>): set<Context> { set c | c in contexts }

  /** One more context behind the others: the last word is its own, or remains with whoever had it. */
  lemma OneMore(front: set<Context>, last: Context, rank: string -> int, path: Path)
    requires forall c | c in front :: Before(rank, c, last)
    ensures Says(last.data, path) != Silent ==>
              !NobodySpeaks(front + {last}, path) && forall c :: HasLastWord(front + {last}, rank, c, path) <==> c == last
    ensures Says(last.data, path) == Silent ==>
              && (NobodySpeaks(front + {last}, path) <==> NobodySpeaks(front, path))
              && forall c :: HasLastWord(front + {last}, rank, c, path) <==> HasLastWord(front, rank, c, path)
  {
    if Says(last.data, path) == Silent {
      forall c ensures HasLastWord(front + {last}, rank, c, path) <==> HasLastWord(front, rank, c, path) {
        assert forall e | e in front :: e in front + {last};
      }
    } else {
      assert last in front + {last};
    }
  }

  lemma {:induction false} LastWord(contexts: seq<Context>, rank: string -> int, path: Path)
    requires InOrder(rank, contexts)
    ensures NobodySpeaks(AsSet(contexts), path) ==> LastSaid(Datas(contexts), path) == Silent
    ensures forall c | HasLastWord(AsSet(contexts), rank, c, path) :: LastSaid(Datas(contexts), path) == Says(c.data, path)
    ensures NobodySpeaks(AsSet(contexts), path) || exists c :: HasLastWord(AsSet(contexts), rank, c, path)
  {
    if contexts != [] {
      var front, last := contexts[..|contexts|-1], contexts[|contexts|-1];
      LastWord(front, rank, path);
      FrontAndLast(contexts, rank, front, last);
      OneMore(AsSet(front), last, rank, path);
      if Says(last.data, path) != Silent {
        assert HasLastWord(AsSet(contexts), rank, last, path);
      } else if c :| HasLastWord(AsSet(front), rank, c, path) {
        assert HasLastWord(AsSet(contexts), rank, c, path);
      }
    }
  }

  lemma FrontAndLast(contexts: seq<Context>, rank: string -> int, front: seq<Context>, last: Context)
    requires contexts == front + [last] && InOrder(rank, contexts)
    ensures AsSet(contexts) == AsSet(front) + {last} && forall c | c in AsSet(front) :: Before(rank, c, last)
    ensures |Datas(contexts)| == |contexts| && Datas(contexts)[|front|] == last.data && Datas(contexts)[..|front|] == Datas(front)
  {
    assert contexts[|front|] == last;
    forall c | c in AsSet(front) ensures Before(rank, c, last) {
      var i :| 0 <= i < |front| && front[i] == c;
      assert contexts[i] == c;
    }
  }

  /** The contexts that are for the target. */
  ghost function AllFor(regions: Regions, table: set<Context>, t: Target): set<Context> {
    set c | c in table && IsFor(regions, c, t)
  }

  /** The last word of those that are for the target is what is rendered, except that a scalar on the way cuts it off. */
  ghost predicate Shows(all: set<Context>, rank: string -> int, rendered: Dict, path: Path) {
    && (NobodySpeaks(all, path) ==> Says(rendered, path) == Silent)
    && (forall text :: Says(rendered, path) == Leaf(text)
                       <==> exists c :: HasLastWord(all, rank, c, path) && Says(c.data, path) == Leaf(text))
    && (Says(rendered, path) == Inner <==> exists c :: HasLastWord(all, rank, c, path) && Says(c.data, path) == Inner)
  }

  lemma AppliedShows(all: seq<Context>, rank: string -> int, path: Path)
    requires InOrder(rank, all)
    ensures Shows(AsSet(all), rank, Rendered(Datas(all)), path)
  {
    LastWord(all, rank, path);
    RenderedSaysTheLast(Datas(all), path);
  }

  /** A render shows, path by path, what the last context for the target says; one that is not for it leaves no trace. */
  method Render(regions: Regions, table: set<Context>, rank: string -> int, contexts: seq<Context>, t: Target)
    returns (rendered: Dict, applied: seq<string>)
    requires Queried(table, t.tenant, rank, contexts)
    ensures forall path: Path :: Shows(AllFor(regions, table, t), rank, rendered, path)
    ensures exists all :: && InOrder(rank, all) && (forall c :: c in all <==> c in table && IsFor(regions, c, t))
                          && applied == Names(all) && rendered == Rendered(Datas(all))
  {
    var chain: set<nat> := {};
    if RegionOf(t).Some? {
      chain := RegionChain(regions, RegionOf(t));
    }
    NoRegion(regions);
    var ok := c => Matches(c, SiteOf(t), chain, t.role, t.platform);
    rendered, applied := MergeAll(contexts, ok);
    ghost var all := Applied(contexts, ok);
    AppliedHolds(contexts, ok, rank);
    forall c ensures c in all <==> c in table && IsFor(regions, c, t) {
      if c in contexts {
        MatchesMeans(regions, c, t, chain);
      }
    }
    assert AsSet(all) == AllFor(regions, table, t);
    forall path: Path ensures Shows(AllFor(regions, table, t), rank, rendered, path) {
      AppliedShows(all, rank, path);
    }
  }

  lemma NoRegion(regions: Regions)
    ensures forall r: nat :: !Seen(regions, None, r)
  {
  }

  /** Merges the contexts that match, one onto the other. */
  method MergeAll(contexts: seq<Context>, ok: Context -> bool) returns (rendered: Dict, applied: seq<string>)
    ensures applied == Names(Applied(contexts, ok))
    ensures rendered == Rendered(Datas(Applied(contexts, ok)))
  {
    rendered, applied := map[], [];
    for i := 0 to |contexts|
      invariant applied == Names(Applied(contexts[..i], ok))
      invariant rendered == Rendered(Datas(Applied(contexts[..i], ok)))
    {
      assert contexts[..i+1][..i] == contexts[..i];
      if ok(contexts[i]) {
        ghost var datas := Datas(Applied(contexts[..i], ok));
        assert Datas(Applied(contexts[..i+1], ok)) == datas + [contexts[i].data];
        assert (datas + [contexts[i].data])[..|datas|] == datas;
        rendered := DeepMerge(rendered, contexts[i].data);
        applied := applied + [contexts[i].name];
      }
    }
    assert contexts[..|contexts|] == contexts;
  }
}
