/**
 The data of config contexts merged one onto the other (api/config_context.py `_deep_merge`), and what the merge says
 about a path.
 */
module ConfigContext {

  /** A JSON value; a list is as indivisible here as a number. */
  datatype Value = Scalar(text: string) | Mapping(entries: Dict)
  type Dict = map<string, Value>

  /** `overlay` merged onto `base`. */
  function Merge(base: Dict, overlay: Dict): Dict
    decreases Mapping(overlay), 1
  {
    map k | k in base.Keys + overlay.Keys :: k := MergeAt(base, overlay, k)
  }

  /** What the merge holds at a key. */
  function MergeAt(base: Dict, overlay: Dict, k: string): Value
    requires k in base.Keys + overlay.Keys
    decreases Mapping(overlay), 0
  {
    if k !in overlay then base[k]
    else if overlay[k].Mapping? && k in base && base[k].Mapping? then
      Mapping(Merge(base[k].entries, overlay[k].entries))
    else overlay[k]
  }

  /** The merge, key by key of the overlay, in whatever order they come. */
  method DeepMerge(base: Dict, overlay: Dict) returns (out: Dict)
    ensures out == Merge(base, overlay)
    decreases Mapping(overlay)
  {
    out := base;
    var left := overlay.Keys;
    while left != {}
      invariant left <= overlay.Keys
      invariant out.Keys == base.Keys + (overlay.Keys - left)
      invariant forall k | k in out :: out[k] == if k in left then base[k] else MergeAt(base, overlay, k)
    {
      var k :| k in left;
      if overlay[k].Mapping? && k in out && out[k].Mapping? {
        var inner := DeepMerge(out[k].entries, overlay[k].entries);
        out := out[k := Mapping(inner)];
      } else {
        out := out[k := overlay[k]];
      }
      left := left - {k};
    }
  }

  // ----- what a context says

  type Path = path: seq<string> | path != [] witness [""]

  /** What a dictionary says about a path; a scalar on the way there is an opinion too. */
  datatype Said = Silent | Leaf(text: string) | Inner | CutOff

  function Says(d: Dict, path: Path): Said
    decreases |path|
  {
    if path[0] !in d then Silent
    else
      match d[path[0]]
      case Scalar(text) => if |path| == 1 then Leaf(text) else CutOff
      case Mapping(entries) => if |path| == 1 then Inner else Says(entries, path[1..])
  }

  /**
   The overlay's opinion stands. Where it has none, the base's does, except that a scalar on the way may have made room
   for a mapping that says nothing further.
   */
  lemma {:induction false} MergeSays(base: Dict, overlay: Dict, path: Path)
    ensures var said := Says(Merge(base, overlay), path);
            if Says(overlay, path) != Silent then said == Says(overlay, path)
            else said == Says(base, path) || (Says(base, path) == CutOff && said == Silent)
    decreases |path|
  {
    var k := path[0];
    if |path| > 1 && k in base && k in overlay && base[k].Mapping? && overlay[k].Mapping? {
      MergeSays(base[k].entries, overlay[k].entries, path[1..]);
    }
  }

  function Rendered(datas: seq<Dict>): Dict {
    if datas == [] then map[] else Merge(Rendered(datas[..|datas|-1]), datas[|datas|-1])
  }

  /** The last opinion on a path. */
  function LastSaid(datas: seq<Dict>, path: Path): Said {
    if datas == [] then Silent
    else if Says(datas[|datas|-1], path) != Silent then Says(datas[|datas|-1], path)
    else LastSaid(datas[..|datas|-1], path)
  }

  /**
   What is rendered at a path is the last opinion on it: a leaf or a mapping exactly when that is one, and nothing when
   there is none or a scalar stands, or stood, in the way.
   */
  lemma {:induction false} RenderedSaysTheLast(datas: seq<Dict>, path: Path)
    ensures var said := Says(Rendered(datas), path);
            said == LastSaid(datas, path) || (LastSaid(datas, path) == CutOff && said == Silent)
  {
    if datas != [] {
      RenderedSaysTheLast(datas[..|datas|-1], path);
      MergeSays(Rendered(datas[..|datas|-1]), datas[|datas|-1], path);
    }
  }

  lemma RenderedLeaves(datas: seq<Dict>, path: Path, text: string)
    ensures Says(Rendered(datas), path) == Leaf(text) <==> LastSaid(datas, path) == Leaf(text)
  {
    RenderedSaysTheLast(datas, path);
  }

  // ----- laws of the merge

  lemma MergedAt(base: Dict, overlay: Dict, k: string)
    requires k in base.Keys + overlay.Keys
    ensures k in Merge(base, overlay) && Merge(base, overlay)[k] == MergeAt(base, overlay, k)
  {
  }

  /** Merging the same context again changes nothing. */
  lemma {:induction false} MergeTwice(base: Dict, overlay: Dict)
    ensures Merge(Merge(base, overlay), overlay) == Merge(base, overlay)
    decreases Mapping(overlay), 1
  {
    var once := Merge(base, overlay);
    var twice := Merge(once, overlay);
    assert twice.Keys == once.Keys == base.Keys + overlay.Keys;
    forall k | k in once ensures twice[k] == once[k] {
      MergedAt(once, overlay, k);
      if k in overlay {
        MergeTwiceAt(base, overlay, k);
      }
    }
  }

  lemma {:induction false} MergeTwiceAt(base: Dict, overlay: Dict, k: string)
    requires k in overlay
    ensures k in Merge(base, overlay) && MergeAt(Merge(base, overlay), overlay, k) == Merge(base, overlay)[k]
    decreases Mapping(overlay), 0
  {
    MergedAt(base, overlay, k);
    if overlay[k].Mapping? {
      var inner := overlay[k].entries;
      if k in base && base[k].Mapping? {
        MergeTwice(base[k].entries, inner);
      } else {
        MergeTwice(map[], inner);
        MergeOntoNothing(inner);
      }
    }
  }

  lemma MergeOntoNothing(d: Dict)
    ensures Merge(map[], d) == d
  {
  }

  /** Everything `a` has a key for, `c` has too, mapping within mapping: merging `c` onto it gives `c`. */
  predicate Covered(a: Dict, c: Dict)
    decreases Mapping(c), 1
  {
    forall k | k in a :: k in c && CoveredAt(a, c, k)
  }

  predicate CoveredAt(a: Dict, c: Dict, k: string)
    requires k in a && k in c
    decreases Mapping(c), 0
  {
    a[k].Mapping? && c[k].Mapping? ==> Covered(a[k].entries, c[k].entries)
  }

  lemma {:induction false} CoveredVanishes(a: Dict, c: Dict)
    ensures Merge(a, c) == c <==> Covered(a, c)
    decreases Mapping(c)
  {
    var m := Merge(a, c);
    forall k | k in a && k in c ensures m[k] == c[k] <==> CoveredAt(a, c, k) {
      assert m[k] == MergeAt(a, c, k);
      if a[k].Mapping? && c[k].Mapping? {
        CoveredVanishes(a[k].entries, c[k].entries);
      }
    }
    if Covered(a, c) {
      assert m.Keys == c.Keys;
      forall k | k in c ensures m[k] == c[k] {
        assert m[k] == MergeAt(a, c, k);
      }
    } else {
      var k :| k in a && !(k in c && CoveredAt(a, c, k));
      assert k in m.Keys;
    }
  }

  /**
   Three contexts may be merged in either grouping: nowhere does a scalar in the middle clear a mapping that the last one
   refills only in part.
   */
  predicate Regroups(a: Dict, b: Dict, c: Dict)
    decreases Mapping(c), 1
  {
    forall k | k in a && k in b && k in c :: RegroupsAt(a, b, c, k)
  }

  predicate RegroupsAt(a: Dict, b: Dict, c: Dict, k: string)
    requires k in a && k in b && k in c
    decreases Mapping(c), 0
  {
    a[k].Mapping? && c[k].Mapping? ==>
      if b[k].Mapping? then Regroups(a[k].entries, b[k].entries, c[k].entries)
      else Covered(a[k].entries, c[k].entries)
  }

  /** At a key only one or two of them have, the grouping makes no difference. */
  lemma GroupingAt(a: Dict, b: Dict, c: Dict, k: string)
    requires k in a.Keys + b.Keys + c.Keys && !(k in a && k in b && k in c)
    ensures k in Merge(Merge(a, b), c) && k in Merge(a, Merge(b, c))
    ensures Merge(Merge(a, b), c)[k] == Merge(a, Merge(b, c))[k]
  {
    assert k in a.Keys + b.Keys ==> Merge(a, b)[k] == MergeAt(a, b, k);
    assert k in b.Keys + c.Keys ==> Merge(b, c)[k] == MergeAt(b, c, k);
    assert Merge(Merge(a, b), c)[k] == MergeAt(Merge(a, b), c, k);
    assert Merge(a, Merge(b, c))[k] == MergeAt(a, Merge(b, c), k);
  }

  lemma SameWhere(left: Dict, right: Dict, three: set<string>)
    requires left.Keys == right.Keys && three <= left.Keys
    requires forall k | k in left && k !in three :: left[k] == right[k]
    ensures left == right <==> forall k | k in three :: left[k] == right[k]
  {
    if forall k | k in three :: left[k] == right[k] {
      assert forall k | k in left :: left[k] == right[k];
    }
  }

  lemma GroupingKeys(a: Dict, b: Dict, c: Dict)
    ensures Merge(Merge(a, b), c).Keys == a.Keys + b.Keys + c.Keys
    ensures Merge(a, Merge(b, c)).Keys == a.Keys + b.Keys + c.Keys
  {
  }

  lemma GroupingsShare(a: Dict, b: Dict, c: Dict, left: Dict, right: Dict, three: set<string>)
    requires left == Merge(Merge(a, b), c) && right == Merge(a, Merge(b, c)) && three == a.Keys * b.Keys * c.Keys
    ensures left.Keys == right.Keys && three <= left.Keys
    ensures forall k | k in left && k !in three :: left[k] == right[k]
  {
    GroupingKeys(a, b, c);
    forall k | k in left && k !in three ensures left[k] == right[k] {
      GroupingAt(a, b, c, k);
    }
  }

  /** The grouping makes no difference exactly where the contexts regroup. */
  lemma {:induction false} MergeRegroups(a: Dict, b: Dict, c: Dict)
    ensures Merge(Merge(a, b), c) == Merge(a, Merge(b, c)) <==> Regroups(a, b, c)
    decreases Mapping(c), 1
  {
    var left, right, three := Merge(Merge(a, b), c), Merge(a, Merge(b, c)), a.Keys * b.Keys * c.Keys;
    GroupingsShare(a, b, c, left, right, three);
    SameWhere(left, right, three);
    forall k | k in three ensures left[k] == right[k] <==> RegroupsAt(a, b, c, k) {
      MergeRegroupsAt(a, b, c, k);
    }
  }

  lemma {:induction false} MergeRegroupsAt(a: Dict, b: Dict, c: Dict, k: string)
    requires k in a && k in b && k in c
    ensures Merge(Merge(a, b), c)[k] == Merge(a, Merge(b, c))[k] <==> RegroupsAt(a, b, c, k)
    decreases Mapping(c), 0
  {
    assert Merge(a, b)[k] == MergeAt(a, b, k) && Merge(b, c)[k] == MergeAt(b, c, k);
    assert Merge(Merge(a, b), c)[k] == MergeAt(Merge(a, b), c, k);
    assert Merge(a, Merge(b, c))[k] == MergeAt(a, Merge(b, c), k);
    if a[k].Mapping? && c[k].Mapping? {
      if b[k].Mapping? {
        MergeRegroups(a[k].entries, b[k].entries, c[k].entries);
      } else {
        CoveredVanishes(a[k].entries, c[k].entries);
      }
    }
  }

  /** No key is a mapping in one and a scalar in the other. */
  predicate Alike(b: Dict, c: Dict)
    decreases Mapping(c)
  {
    forall k | k in b && k in c ::
      b[k].Mapping? == c[k].Mapping? && (c[k].Mapping? ==> b[k].Mapping? && Alike(b[k].entries, c[k].entries))
  }

  /** It is enough that the last two do not conflict. */
  lemma {:induction false} AlikeRegroups(a: Dict, b: Dict, c: Dict)
    requires Alike(b, c)
    ensures Regroups(a, b, c)
    decreases Mapping(c)
  {
    forall k | k in a && k in b && k in c ensures RegroupsAt(a, b, c, k) {
      if a[k].Mapping? && b[k].Mapping? && c[k].Mapping? {
        AlikeRegroups(a[k].entries, b[k].entries, c[k].entries);
      }
    }
  }

  /** A scalar between two mappings: merged first to last the first mapping is gone, merged last first it shines through. */
  lemma GroupingMatters()
    ensures var a, b, c := map["ntp" := Mapping(map["server" := Scalar("10.0.0.1")])], map["ntp" := Scalar("off")],
                           map["ntp" := Mapping(map["zone" := Scalar("UTC")])];
            Merge(Merge(a, b), c) != Merge(a, Merge(b, c))
  {
    var server, zone := map["server" := Scalar("10.0.0.1")], map["zone" := Scalar("UTC")];
    var a, b, c := map["ntp" := Mapping(server)], map["ntp" := Scalar("off")], map["ntp" := Mapping(zone)];
    assert "server" in server && "server" !in zone;
    assert !Covered(server, zone);
    assert "ntp" in a && !RegroupsAt(a, b, c, "ntp");
    MergeRegroups(a, b, c);
  }
}
