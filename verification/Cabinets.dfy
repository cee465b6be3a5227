/**
 The operations of api/din.py on the stored rows. Each reads what is stored, checks it, and writes all or
 nothing; the surrounding database transaction makes each one step.
 */
module Cabinets {
  import opened Basics
  import opened Din
  import opened DinMoves
  import Gaps = DinGaps
  import Sweeping = DinSweep
  import Sets = DinRailSets
  import opened DinReplace

  datatype PlacementFault =
    | NotAnId | ListedTwice | NotACabinetRail | BadOffset | NotInCabinet | OnTheRail(fault: Sweeping.Fault)
  datatype Arranged = Arranged(moved: seq<nat>) | Refused(faults: set<(nat, PlacementFault)>)

  datatype PlaceError = NeedsRailType | RailGone | WrongProfile | NoGap | PastEnd | OverlapsDevice(other: nat)

  /** A check passes, refuses the request, or fails on a device without a type, and then the request is lost. */
  datatype Verdict = Passes | Fails | Raises

  datatype CabinetType = CabinetType(size: Plate, templates: seq<RailSpec>)

  /** A device of type `k` has room at offset `o` of rail `r`, `except` aside. */
  ghost predicate HasRoom(f: Floor, r: nat, k: nat, o: int, except: Option<nat>)
    requires r in f.rails && k in f.kinds
  {
    && Mountable(f.kinds[k], f.rails[r].spec.profile)
    && 0 <= o && o + f.kinds[k].width.value <= f.rails[r].spec.length
    && (forall d: nat | IsOn(f, d, r) && except != Some(d) ::
          !Overlaps(o, o + f.kinds[k].width.value, Start(f, d), End(f, d)))
  }

  /** Why a device of type `kind` does not get its place on rail `r`. */
  ghost predicate Why(f: Floor, r: nat, kind: Option<nat>, offset: Option<int>, except: Option<nat>, error: PlaceError)
    requires kind.Some? ==> kind.value in f.kinds
  {
    match error
    case NeedsRailType => kind.None? || f.kinds[kind.value].profiles == {} || f.kinds[kind.value].width.None?
    case RailGone => r !in f.rails
    case WrongProfile => r in f.rails && kind.Some? && f.rails[r].spec.profile !in f.kinds[kind.value].profiles
    case NoGap => r in f.rails && kind.Some? && offset.None? && forall o :: !HasRoom(f, r, kind.value, o, except)
    case PastEnd =>
      && r in f.rails && kind.Some? && f.kinds[kind.value].width.Some? && offset.Some?
      && f.rails[r].spec.length < offset.value + f.kinds[kind.value].width.value
    case OverlapsDevice(e) =>
      && kind.Some? && f.kinds[kind.value].width.Some? && offset.Some? && IsOn(f, e, r) && except != Some(e)
      && Overlaps(offset.value, offset.value + f.kinds[kind.value].width.value, Start(f, e), End(f, e))
  }

  /** `f` with device `d` stored as `row`, whether or not it was there before. */
  function WithDevice(f: Floor, d: nat, row: Device): Floor {
    f.(devices := f.devices[d := row])
  }

  /** A device of type `k` at offset `o` of rail `r`. */
  function RowOnRail(f: Floor, r: nat, k: nat, o: int): Device
    requires r in f.rails
  {
    Device(Some(f.rails[r].cabinet), Some(k), Some(Mount(r, o)))
  }

  /** No device without a type stands strictly between `o` and `o + w` of rail `r`, `except` aside. */
  ghost predicate ClearOfUntyped(f: Floor, r: nat, o: int, w: int, except: Option<nat>) {
    forall d: nat | IsOn(f, d, r) && except != Some(d) && !Typed(f, d) :: !(o < Start(f, d) < o + w)
  }

  /**
   Storing a device where it has room, and only there, keeps the floor in order and it clear of those that lost their
   type.
   */
  lemma RoomIsOrder(f: Floor, d: nat, r: nat, k: nat, o: int)
    requires InOrder(f) && r in f.rails && k in f.kinds
    ensures var g := WithDevice(f, d, RowOnRail(f, r, k, o));
            HasRoom(f, r, k, o, Some(d)) <==> InOrder(g) && ClearOfUntyped(f, r, o, Width(g, d), Some(d))
  {
    var g := WithDevice(f, d, RowOnRail(f, r, k, o));
    SameRails(f, g);
    assert IsOn(g, d, r);
    if HasRoom(f, r, k, o, Some(d)) {
      forall s | s in g.rails ensures RailSeats(g, s) {
        RoomIsOrderOn(f, g, d, r, k, o, s);
      }
    }
    if InOrder(g) && ClearOfUntyped(f, r, o, Width(g, d), Some(d)) {
      assert RailSeats(g, r) && Seated(g, d, r);
      forall e: nat | IsOn(f, e, r) && Some(d) != Some(e) ensures !Overlaps(o, End(g, d), Start(f, e), End(f, e)) {
        assert IsOn(g, e, r) && (Typed(f, e) ==> Disjoint(g, d, e));
      }
    }
  }

  lemma SameRails(f: Floor, g: Floor)
    requires f.rails == g.rails && f.plates == g.plates
    ensures RailsInOrder(f) <==> RailsInOrder(g)
  {
    assert forall r | r in f.rails :: RailOnPlate(f, r) <==> RailOnPlate(g, r);
  }

  lemma RoomIsOrderOn(f: Floor, g: Floor, d: nat, r: nat, k: nat, o: int, s: nat)
    requires InOrder(f) && r in f.rails && k in f.kinds && s in f.rails
    requires g == WithDevice(f, d, RowOnRail(f, r, k, o)) && HasRoom(f, r, k, o, Some(d))
    ensures RailSeats(g, s)
  {
    assert RailSeats(f, s);
    forall e | IsOn(g, e, s) ensures Seated(g, e, s) {
      assert e != d ==> IsOn(f, e, s) && Seated(f, e, s);
    }
    forall e, e' | IsOn(g, e, s) && IsOn(g, e', s) && e != e' && Typed(g, e) && Typed(g, e') ensures Disjoint(g, e, e') {
      assert e != d ==> IsOn(f, e, s);
      assert e' != d ==> IsOn(f, e', s);
      if e != d && e' != d {
        assert Disjoint(f, e, e');
      }
    }
  }

  /** A floor whose mounted devices are those of one in order, or fewer, is in order. */
  lemma FewerIsOrder(f: Floor, g: Floor)
    requires InOrder(f) && g.rails == f.rails && g.plates == f.plates && KindsOk(g)
    requires forall d | d in g.devices && g.devices[d].mount.Some? ::
               d in f.devices && f.devices[d] == g.devices[d] && Width(f, d) == Width(g, d)
    requires forall k | k in f.kinds :: k in g.kinds && g.kinds[k] == f.kinds[k]
    ensures InOrder(g)
  {
    SameRails(f, g);
    forall r | r in g.rails ensures RailSeats(g, r) {
      assert RailSeats(f, r);
      forall d | IsOn(g, d, r) ensures Seated(g, d, r) {
        assert IsOn(f, d, r) && Seated(f, d, r);
      }
      forall d, e | IsOn(g, d, r) && IsOn(g, e, r) && d != e && Typed(g, d) && Typed(g, e) ensures Disjoint(g, d, e) {
        assert IsOn(f, d, r) && IsOn(f, e, r) && Disjoint(f, d, e);
      }
    }
  }

  /** The spans rail `r`'s devices take, `except` aside, as `place` reads them. */
  ghost predicate SpansOf(f: Floor, r: nat, except: Option<nat>, on: seq<Spot>, spans: seq<Gaps.Span>)
    requires r in f.rails
  {
    && |spans| == |on|
    && (forall i | 0 <= i < |on| ::
          IsOn(f, on[i].dev, r) && except != Some(on[i].dev) && spans[i] == Gaps.Span(Start(f, on[i].dev), End(f, on[i].dev)))
    && (forall i, j | 0 <= i < j < |on| :: spans[i].lo <= spans[j].lo)
    && (forall d: nat | IsOn(f, d, r) && except != Some(d) :: Named(on, d))
  }

  lemma SpansDecideRoom(f: Floor, r: nat, k: nat, o: int, except: Option<nat>, on: seq<Spot>, spans: seq<Gaps.Span>)
    requires InOrder(f) && r in f.rails && k in f.kinds && SpansOf(f, r, except, on, spans)
    requires Mountable(f.kinds[k], f.rails[r].spec.profile)
    ensures HasRoom(f, r, k, o, except) <==>
            Gaps.FreeStretch(spans, f.rails[r].spec.length, Gaps.Span(o, o + f.kinds[k].width.value))
  {
    var g := Gaps.Span(o, o + f.kinds[k].width.value);
    if Gaps.Free(spans, g) {
      forall d: nat | IsOn(f, d, r) && except != Some(d) ensures !Overlaps(g.lo, g.hi, Start(f, d), End(f, d)) {
        assert Named(on, d);
        var i :| 0 <= i < |on| && on[i].dev == d;
        assert spans[i] == Gaps.Span(Start(f, d), End(f, d));
      }
    }
    assert RailSeats(f, r);
  }

  lemma SpansOnRail(f: Floor, r: nat, except: Option<nat>, on: seq<Spot>, spans: seq<Gaps.Span>)
    requires InOrder(f) && r in f.rails && SpansOf(f, r, except, on, spans)
    ensures Gaps.OnRail(spans, f.rails[r].spec.length) && Gaps.Ordered(spans)
  {
    assert RailSeats(f, r);
    forall i | 0 <= i < |spans| ensures 0 <= spans[i].lo <= spans[i].hi <= f.rails[r].spec.length {
      assert Seated(f, on[i].dev, r);
    }
  }

  /** The first gap wide enough is the least offset with room; without one there is no room anywhere. */
  lemma FirstWideDecides(f: Floor, r: nat, k: nat, except: Option<nat>, on: seq<Spot>, spans: seq<Gaps.Span>,
                         gaps: seq<Gaps.Span>, i: nat)
    requires InOrder(f) && r in f.rails && k in f.kinds && SpansOf(f, r, except, on, spans)
    requires Mountable(f.kinds[k], f.rails[r].spec.profile)
    requires Gaps.Cover(spans, f.rails[r].spec.length, gaps, f.rails[r].spec.length)
    requires i <= |gaps| && forall j | 0 <= j < i :: !Gaps.Wide(gaps[j], f.kinds[k].width.value)
    requires i < |gaps| ==> Gaps.Wide(gaps[i], f.kinds[k].width.value)
    ensures i < |gaps| ==> HasRoom(f, r, k, gaps[i].lo, except)
    ensures forall o | HasRoom(f, r, k, o, except) :: i < |gaps| && gaps[i].lo <= o
  {
    var width, length := f.kinds[k].width.value, f.rails[r].spec.length;
    if i < |gaps| {
      assert Gaps.FreeStretch(spans, length, gaps[i]);
      SpansDecideRoom(f, r, k, gaps[i].lo, except, on, spans);
    }
    forall o | HasRoom(f, r, k, o, except) ensures i < |gaps| && gaps[i].lo <= o {
      SpansDecideRoom(f, r, k, o, except, on, spans);
      Gaps.FirstWideIsLeast(spans, length, gaps, width, i, o);
    }
  }

  /** `f` with type `k` redefined. */
  function WithKind(f: Floor, k: nat, kind: Kind): Floor {
    f.(kinds := f.kinds[k := kind])
  }

  /** Device `d` has its place in floor `g`: seated, and clear of every other device on its rail. */
  ghost predicate Placed(g: Floor, d: nat) {
    && d in g.devices && g.devices[d].mount.Some? && g.devices[d].mount.value.rail in g.rails
    && Seated(g, d, g.devices[d].mount.value.rail)
    && (forall e | IsOn(g, e, g.devices[d].mount.value.rail) && e != d :: Disjoint(g, d, e))
  }

  ghost predicate AllPlaced(g: Floor, k: nat) {
    forall d | d in g.devices && g.devices[d].kind == Some(k) && g.devices[d].mount.Some? :: Placed(g, d)
  }

  /** The mounted devices of type `k` keep clear of those that lost their type. */
  ghost predicate KindClear(g: Floor, k: nat) {
    forall d | d in g.devices && g.devices[d].kind == Some(k) && g.devices[d].mount.Some? ::
      ClearOfUntyped(g, g.devices[d].mount.value.rail, Start(g, d), Width(g, d), Some(d))
  }

  /**
   Each mounted device of a redefined type still has its place exactly when the floor is still in order and they are clear
   of those that lost their type.
   */
  lemma KindDecides(f: Floor, k: nat, kind: Kind)
    requires InOrder(f) && k in f.kinds && (kind.width.Some? ==> 0 < kind.width.value)
    ensures AllPlaced(WithKind(f, k, kind), k) <==> InOrder(WithKind(f, k, kind)) && KindClear(WithKind(f, k, kind), k)
  {
    var g := WithKind(f, k, kind);
    assert KindsOk(g);
    assert RailsInOrder(g) by {
      assert forall r | r in f.rails :: RailOnPlate(f, r) ==> RailOnPlate(g, r);
    }
    if AllPlaced(g, k) {
      forall r | r in g.rails ensures RailSeats(g, r) {
        KindDecidesRail(f, k, kind, r);
      }
      PlacedIsClear(g, k);
    }
    if InOrder(g) && KindClear(g, k) {
      ClearIsPlaced(g, k);
    }
  }

  lemma TypedIsClear(f: Floor, k: nat, kind: Kind)
    requires AllTyped(f)
    ensures KindClear(WithKind(f, k, kind), k)
  {
    var g := WithKind(f, k, kind);
    forall d | d in g.devices && g.devices[d].kind == Some(k) && g.devices[d].mount.Some?
      ensures ClearOfUntyped(g, g.devices[d].mount.value.rail, Start(g, d), Width(g, d), Some(d))
    {
      assert forall e: nat | IsOn(g, e, g.devices[d].mount.value.rail) :: Typed(f, e);
    }
  }

  lemma PlacedIsClear(g: Floor, k: nat)
    requires AllPlaced(g, k)
    ensures KindClear(g, k)
  {
    forall d | d in g.devices && g.devices[d].kind == Some(k) && g.devices[d].mount.Some?
      ensures ClearOfUntyped(g, g.devices[d].mount.value.rail, Start(g, d), Width(g, d), Some(d))
    {
      assert Placed(g, d);
      var r := g.devices[d].mount.value.rail;
      forall e: nat | IsOn(g, e, r) && Some(d) != Some(e) && !Typed(g, e) ensures !(Start(g, d) < Start(g, e) < End(g, d)) {
        assert Disjoint(g, d, e);
      }
    }
  }

  lemma ClearIsPlaced(g: Floor, k: nat)
    requires InOrder(g) && KindClear(g, k)
    ensures AllPlaced(g, k)
  {
    forall d | d in g.devices && g.devices[d].kind == Some(k) && g.devices[d].mount.Some? ensures Placed(g, d) {
      var r := g.devices[d].mount.value.rail;
      assert IsOn(g, d, r) && RailSeats(g, r);
      assert ClearOfUntyped(g, r, Start(g, d), Width(g, d), Some(d));
      forall e | IsOn(g, e, r) && e != d ensures Disjoint(g, d, e) {
        assert Typed(g, e) || !(Start(g, d) < Start(g, e) < End(g, d));
      }
    }
  }

  lemma KindDecidesRail(f: Floor, k: nat, kind: Kind, r: nat)
    requires InOrder(f) && k in f.kinds && (kind.width.Some? ==> 0 < kind.width.value) && r in f.rails
    requires AllPlaced(WithKind(f, k, kind), k)
    ensures RailSeats(WithKind(f, k, kind), r)
  {
    var g := WithKind(f, k, kind);
    assert RailSeats(f, r);
    forall d | IsOn(g, d, r) ensures Seated(g, d, r) {
      assert IsOn(f, d, r) && Seated(f, d, r);
      if f.devices[d].kind == Some(k) {
        assert Placed(g, d);
      }
    }
    forall d, e | IsOn(g, d, r) && IsOn(g, e, r) && d != e && Typed(g, d) && Typed(g, e) ensures Disjoint(g, d, e) {
      assert IsOn(f, d, r) && IsOn(f, e, r) && Disjoint(f, d, e);
      if f.devices[d].kind == Some(k) {
        assert Placed(g, d);
      } else if f.devices[e].kind == Some(k) {
        assert Placed(g, e) && Disjoint(g, e, d);
      }
    }
  }

  /** `f` without type `k`: its devices stay where they are and lose their type. */
  function WithoutKind(f: Floor, k: nat): Floor {
    f.(kinds := f.kinds - {k},
       devices := map d | d in f.devices ::
         if f.devices[d].kind == Some(k) then f.devices[d].(kind := None) else f.devices[d])
  }

  lemma DeletedKindApart(f: Floor, k: nat, r: nat, d: nat, e: nat)
    requires r in f.rails && RailSeats(f, r)
    requires var g := WithoutKind(f, k);
             IsOn(g, d, r) && IsOn(g, e, r) && d != e && Typed(g, d) && Typed(g, e)
    ensures Disjoint(WithoutKind(f, k), d, e)
  {
    assert IsOn(f, d, r) && IsOn(f, e, r) && Disjoint(f, d, e);
  }

  lemma DeletedKindSeated(f: Floor, k: nat, r: nat, d: nat)
    requires KindsOk(f) && r in f.rails && RailSeats(f, r) && IsOn(WithoutKind(f, k), d, r)
    ensures Seated(WithoutKind(f, k), d, r)
  {
    assert IsOn(f, d, r) && Seated(f, d, r);
  }

  lemma DeletedKindSeats(f: Floor, k: nat, r: nat)
    requires InOrder(f) && r in f.rails
    ensures RailSeats(WithoutKind(f, k), r)
  {
    var g := WithoutKind(f, k);
    assert RailSeats(f, r);
    forall d | IsOn(g, d, r) ensures Seated(g, d, r) {
      DeletedKindSeated(f, k, r, d);
    }
    forall d, e | IsOn(g, d, r) && IsOn(g, e, r) && d != e && Typed(g, d) && Typed(g, e) ensures Disjoint(g, d, e) {
      DeletedKindApart(f, k, r, d, e);
    }
  }

  /**
   Deleting a type leaves the floor in order, and every device on a rail with a type exactly when that was so and none of
   the type was on one.
   */
  lemma DeletedKindOrder(f: Floor, k: nat)
    requires InOrder(f)
    ensures InOrder(WithoutKind(f, k))
    ensures AllTyped(WithoutKind(f, k)) <==>
            AllTyped(f) && forall d | d in f.devices && f.devices[d].kind == Some(k) :: f.devices[d].mount.None?
  {
    var g := WithoutKind(f, k);
    SameRails(f, g);
    forall r | r in g.rails ensures RailSeats(g, r) {
      DeletedKindSeats(f, k, r);
    }
    if AllTyped(g) {
      forall d | d in f.devices && f.devices[d].kind == Some(k) ensures f.devices[d].mount.None? {
        assert d in g.devices && g.devices[d].kind.None?;
      }
      forall d | d in f.devices && f.devices[d].mount.Some? ensures Typed(f, d) {
        assert Typed(g, d);
      }
    }
  }

  /** The items are rails of the cabinet with their own fields. */
  ghost predicate AsTheyAre(f: Floor, cab: nat, items: seq<RailItem>) {
    forall i | 0 <= i < |items| :: Keeps(f.rails, cab, items[i]) && items[i].spec == f.rails[items[i].id.value].spec
  }

  /** A cabinet's rails as they are fit its plate. */
  lemma OwnRailsFit(f: Floor, cab: nat, items: seq<RailItem>)
    requires InOrder(f) && cab in f.plates && IdsOk(f.rails, cab, items) && AsTheyAre(f, cab, items)
    ensures Sets.SetOk(Specs(items), f.plates[cab])
  {
    var specs := Specs(items);
    forall i | 0 <= i < |specs| ensures WithinPlate(specs[i], f.plates[cab]) {
      assert RailOnPlate(f, items[i].id.value);
    }
    forall i, j | 0 <= j < i < |specs| ensures Apart(specs[i], specs[j]) {
      assert items[i].id.value != items[j].id.value;
    }
  }

  /**
   With a type of a mounted device gone, sending all of its cabinet's rails meets the device, whatever they are to become;
   sent as they are they pass every check before that.
   */
  lemma DeletedKindLosesRequests(f: Floor, k: nat, d: nat, cab: nat, items: seq<RailItem>)
    requires InOrder(f) && d in f.devices && f.devices[d].kind == Some(k) && f.devices[d].mount.Some?
    requires f.rails[f.devices[d].mount.value.rail].cabinet == cab && IdsOk(f.rails, cab, items)
    requires forall r | r in f.rails && f.rails[r].cabinet == cab :: KeptId(items, r)
    ensures CarriersKept(WithoutKind(f, k), cab, items) && MeetsUntyped(WithoutKind(f, k), cab, items)
    ensures AsTheyAre(f, cab, items) ==> cab in f.plates && Sets.SetOk(Specs(items), f.plates[cab])
  {
    var g, r := WithoutKind(f, k), f.devices[d].mount.value.rail;
    assert IsOn(g, d, r) && !Typed(g, d) && CarriesUntyped(g, r);
    assert KeptId(items, r);
    var i :| 0 <= i < |items| && items[i].id == Some(r);
    assert Keeps(g.rails, cab, items[i]);
    assert RailOnPlate(f, r);
    if AsTheyAre(f, cab, items) {
      OwnRailsFit(f, cab, items);
    }
  }

  /** Where another device on the rail ends once type `k` is `w` wide. */
  function NewEnd(f: Floor, k: nat, w: int, other: Spot, span: Gaps.Span): int
    requires other.dev in f.devices
  {
    if f.devices[other.dev].kind == Some(k) then span.lo + w else span.hi
  }

  lemma PlacedBySpans(f: Floor, k: nat, w: int, profiles: set<Profile>, d: nat, r: nat,
                      on: seq<Spot>, spans: seq<Gaps.Span>)
    requires InOrder(f) && k in f.kinds && r in f.rails && IsOn(f, d, r) && f.devices[d].kind == Some(k)
    requires f.rails[r].spec.profile in profiles
    requires SpansOf(f, r, Some(d), on, spans)
    ensures Placed(WithKind(f, k, Kind(Some(w), profiles)), d) <==>
            && Start(f, d) + w <= f.rails[r].spec.length
            && forall i | 0 <= i < |on| :: !Overlaps(Start(f, d), Start(f, d) + w, spans[i].lo, NewEnd(f, k, w, on[i], spans[i]))
  {
    var g := WithKind(f, k, Kind(Some(w), profiles));
    assert RailSeats(f, r) && Seated(f, d, r);
    forall i | 0 <= i < |on|
      ensures IsOn(g, on[i].dev, r) && on[i].dev != d
      ensures Start(g, on[i].dev) == spans[i].lo && End(g, on[i].dev) == NewEnd(f, k, w, on[i], spans[i])
    {
    }
    if forall i | 0 <= i < |on| :: !Overlaps(Start(f, d), Start(f, d) + w, spans[i].lo, NewEnd(f, k, w, on[i], spans[i])) {
      forall e: nat | IsOn(g, e, r) && e != d ensures Disjoint(g, d, e) {
        assert IsOn(f, e, r) && Named(on, e);
        var i :| 0 <= i < |on| && on[i].dev == e;
      }
    }
    if Placed(g, d) {
      forall i | 0 <= i < |on|
        ensures !Overlaps(Start(f, d), Start(f, d) + w, spans[i].lo, NewEnd(f, k, w, on[i], spans[i]))
      {
        assert Disjoint(g, d, on[i].dev);
      }
    }
  }

  /** Spare labels are one per rail, none of them stored anywhere or among `specs`. */
  ghost predicate SpareLabels(temp: nat -> string, rails: map<nat, Rail>, specs: seq<RailSpec>) {
    && (forall r, s | r != s :: temp(r) != temp(s))
    && (forall r, s | s in rails :: temp(r) != rails[s].spec.name)
    && (forall r, t | t in specs :: temp(r) != t.name)
  }

  /** What is wrong with placement `i` as it was sent. */
  predicate HasFault(f: Floor, cab: nat, ps: seq<Placement>, i: nat, fault: PlacementFault)
    requires i < |ps|
  {
    var p := ps[i];
    match fault
    case NotAnId => p.device.None?
    case ListedTwice => p.device.Some? && exists j | 0 <= j < i :: ps[j].device == p.device
    case NotACabinetRail => p.target.OnRail? && !(p.target.rail in f.rails && f.rails[p.target.rail].cabinet == cab)
    case BadOffset => p.target.OnRail? && !(p.offset.Tenths? && 0 <= p.offset.value)
    case _ => false
  }

  function Blamed(bad: set<(nat, PlacementFault)>, i: nat, faults: set<PlacementFault>): (more: set<(nat, PlacementFault)>)
    ensures forall j: nat, x :: (j, x) in more <==> (j, x) in bad || (j == i && x in faults)
  {
    bad + set x | x in faults :: (i, x)
  }

  lemma FaultlessIsReadable(f: Floor, cab: nat, ps: seq<Placement>, bad: set<(nat, PlacementFault)>)
    requires forall i: nat, x :: (i, x) in bad <==> i < |ps| && HasFault(f, cab, ps, i, x)
    ensures bad == {} <==> forall i | 0 <= i < |ps| :: Readable(f, cab, ps, i)
    ensures forall b | b in bad :: b.0 < |ps|
  {
    forall b | b in bad ensures b.0 < |ps| && !Readable(f, cab, ps, b.0) {
      assert (b.0, b.1) in bad;
    }
    forall i: nat | i < |ps| && !Readable(f, cab, ps, i) ensures bad != {} {
      if HasFault(f, cab, ps, i, NotAnId) {
        assert (i, NotAnId) in bad;
      } else if HasFault(f, cab, ps, i, ListedTwice) {
        assert (i, ListedTwice) in bad;
      } else if HasFault(f, cab, ps, i, NotACabinetRail) {
        assert (i, NotACabinetRail) in bad;
      } else {
        assert HasFault(f, cab, ps, i, BadOffset) && (i, BadOffset) in bad;
      }
    }
  }

  /** In floor `g` device `d` is where the fault says it cannot be. */
  ghost predicate WrongThere(g: Floor, d: nat, fault: Sweeping.Fault) {
    exists r :: r in g.rails && IsOn(g, d, r) && WrongOn(g, d, r, fault)
  }

  ghost predicate WrongOn(g: Floor, d: nat, r: nat, fault: Sweeping.Fault)
    requires r in g.rails && IsOn(g, d, r)
  {
    var kind := KindOf(g, d);
    match fault
    case NoType => kind.None? || kind.value.profiles == {} || kind.value.width.None?
    case WrongProfile => kind.Some? && g.rails[r].spec.profile !in kind.value.profiles
    case PastEnd => g.rails[r].spec.length < End(g, d)
    case OverlapsDevice(e) => e != d && IsOn(g, e, r) && Mounts(g, d, r) && Mounts(g, e, r) && !Disjoint(g, d, e)
  }

  /** The fault is one placement `i` really has: as it was sent, or in the floor it would lead to. */
  ghost predicate Rightly(f: Floor, cab: nat, ps: seq<Placement>, i: nat, fault: PlacementFault)
    requires i < |ps|
  {
    match fault
    case NotInCabinet => !InCabinet(f, cab, ps[i])
    case OnTheRail(x) => ps[i].device.Some? && WrongThere(Moved(f, ps), ps[i].device.value, x)
    case _ => HasFault(f, cab, ps, i, fault)
  }

  lemma RightlyOnTheRail(f: Floor, cab: nat, ps: seq<Placement>, r: nat, on: seq<Sweeping.Item>,
                         faults: set<(nat, Sweeping.Fault)>)
    requires r in f.rails && Pictures(Moved(f, ps), ps, r, on)
    requires forall x | x in faults :: Sweeping.Real(f.rails[r].spec, on, x.0, x.1)
    ensures forall x | x in faults :: x.0 < |ps| && Rightly(f, cab, ps, x.0, OnTheRail(x.1))
  {
    forall x | x in faults ensures x.0 < |ps| && Rightly(f, cab, ps, x.0, OnTheRail(x.1)) {
      var k :| 0 <= k < |on| && on[k].ticket == Some(x.0) && Sweeping.RealAt(f.rails[r].spec, on, k, x.1);
      RealIsWrong(Moved(f, ps), ps, r, on, k, x.1);
    }
  }

  lemma RealIsWrong(g: Floor, ps: seq<Placement>, r: nat, on: seq<Sweeping.Item>, k: nat, fault: Sweeping.Fault)
    requires r in g.rails && Pictures(g, ps, r, on) && k < |on| && on[k].ticket.Some?
    requires Sweeping.RealAt(g.rails[r].spec, on, k, fault)
    ensures Ticket(ps, on[k].dev, on[k].ticket.value) && WrongThere(g, on[k].dev, fault)
  {
    assert PicturesOne(g, ps, r, on[k]);
    if fault.OverlapsDevice? {
      var j :| 0 <= j < |on| && j != k && on[j].dev == fault.other && Sweeping.Collide(g.rails[r].spec, on[j], on[k]);
      PictureClear(g, ps, r, on, k, j);
    }
    assert WrongOn(g, on[k].dev, r, fault);
  }

  function RailFaults(faults: set<(nat, Sweeping.Fault)>): (bad: set<(nat, PlacementFault)>)
    ensures bad == {} <==> faults == {}
    ensures forall b | b in bad :: exists x :: x in faults && b == (x.0, OnTheRail(x.1))
  {
    var bad := set x | x in faults :: (x.0, OnTheRail(x.1));
    assert forall x | x in faults :: (x.0, OnTheRail(x.1)) in bad;
    bad
  }

  /** Only placements of the list are blamed. */
  lemma BlamedAreListed(g: Floor, ps: seq<Placement>, r: nat, on: seq<Sweeping.Item>, faults: set<(nat, Sweeping.Fault)>)
    requires Pictures(g, ps, r, on)
    requires forall x | x in faults :: exists k :: 0 <= k < |on| && on[k].ticket == Some(x.0)
    ensures forall x | x in faults :: x.0 < |ps|
  {
    forall x | x in faults ensures x.0 < |ps| {
      var k :| 0 <= k < |on| && on[k].ticket == Some(x.0);
      assert PicturesOne(g, ps, r, on[k]);
    }
  }

  /** One item for each rail of `done`, with its place after a sync. */
  ghost predicate OwnItems(f: Floor, done: set<nat>, templates: seq<RailSpec>, items: seq<RailItem>) {
    && done <= f.rails.Keys
    && (forall i | 0 <= i < |items| ::
          items[i].id.Some? && items[i].id.value in done && items[i].spec == SyncedSpec(f, items[i].id.value, templates))
    && (forall r | r in done :: KeptId(items, r))
    && IdsApart(items)
  }

  lemma OwnItemsStep(f: Floor, done: set<nat>, templates: seq<RailSpec>, items: seq<RailItem>, r: nat, spec: RailSpec)
    requires OwnItems(f, done, templates, items) && r in f.rails && r !in done && spec == SyncedSpec(f, r, templates)
    ensures OwnItems(f, done + {r}, templates, items + [RailItem(Some(r), spec)])
  {
    var more := items + [RailItem(Some(r), spec)];
    assert more[|items|].id == Some(r);
    forall s | s in done ensures KeptId(more, s) {
      var i :| 0 <= i < |items| && items[i].id == Some(s);
      assert more[i].id == Some(s);
    }
  }

  /** All rails of `mine` but those `left` have their item, and none of them was one a template could not be checked on. */
  ghost predicate OwnSynced(f: Floor, mine: set<nat>, left: set<nat>, templates: seq<RailSpec>, items: seq<RailItem>) {
    && left <= mine <= f.rails.Keys && OwnItems(f, mine - left, templates, items)
    && forall r | r in mine :: r in left || !ChangesUntyped(f, r, templates)
  }

  lemma OwnSyncedStep(f: Floor, mine: set<nat>, left: set<nat>, templates: seq<RailSpec>, items: seq<RailItem>,
                      r: nat, spec: RailSpec)
    requires OwnSynced(f, mine, left, templates, items) && r in left
    requires spec == SyncedSpec(f, r, templates) && !ChangesUntyped(f, r, templates)
    ensures OwnSynced(f, mine, left - {r}, templates, items + [RailItem(Some(r), spec)])
  {
    OwnItemsStep(f, mine - left, templates, items, r, spec);
    assert mine - (left - {r}) == (mine - left) + {r};
  }

  lemma OwnSyncedDone(f: Floor, cab: nat, mine: set<nat>, templates: seq<RailSpec>, items: seq<RailItem>)
    requires OwnSynced(f, mine, {}, templates, items)
    requires forall r :: r in mine <==> r in f.rails && f.rails[r].cabinet == cab
    ensures forall i | 0 <= i < |items| ::
              items[i].id.Some? && Keeps(f.rails, cab, items[i]) && items[i].spec == SyncedSpec(f, items[i].id.value, templates)
    ensures IdsApart(items) && forall r | r in f.rails && f.rails[r].cabinet == cab :: KeptId(items, r)
    ensures !SyncMeetsUntyped(f, cab, templates)
  {
    assert mine - {} == mine;
  }

  /** New rails for exactly the templates whose label the cabinet lacks. */
  ghost predicate AddsMissing(f: Floor, cab: nat, templates: seq<RailSpec>, added: seq<RailItem>) {
    && (forall i | 0 <= i < |added| ::
          added[i].id.None? && added[i].spec in templates && Lacks(f, cab, added[i].spec.name))
    && (forall i, j | 0 <= i < j < |added| :: added[i].spec.name != added[j].spec.name)
    && (forall t | t in templates && Lacks(f, cab, t.name) :: SentNew(added, t))
  }

  lemma AddedOne(f: Floor, cab: nat, templates: seq<RailSpec>, n: nat, added: seq<RailItem>)
    requires n < |templates| && LabelsApart(templates) && AddsMissing(f, cab, templates[..n], added)
    requires Lacks(f, cab, templates[n].name)
    ensures AddsMissing(f, cab, templates[..n+1], added + [RailItem(None, templates[n])])
  {
    var t := templates[n];
    var more := added + [RailItem(None, t)];
    assert templates[..n+1] == templates[..n] + [t];
    assert more[|added|].id.None? && more[|added|].spec == t;
    assert SentNew(more, t);
    forall u | u in templates[..n] && Lacks(f, cab, u.name) ensures SentNew(more, u) {
      SentStays([], added, [RailItem(None, t)], u);
      assert [] + added + [RailItem(None, t)] == more;
    }
  }

  lemma AddedNone(f: Floor, cab: nat, templates: seq<RailSpec>, n: nat, added: seq<RailItem>)
    requires n < |templates| && AddsMissing(f, cab, templates[..n], added) && !Lacks(f, cab, templates[n].name)
    ensures AddsMissing(f, cab, templates[..n+1], added)
  {
    assert templates[..n+1] == templates[..n] + [templates[n]];
  }

  lemma SentStays(before: seq<RailItem>, items: seq<RailItem>, after: seq<RailItem>, t: RailSpec)
    requires SentNew(items, t)
    ensures SentNew(before + items + after, t)
  {
    var i :| 0 <= i < |items| && items[i].id.None? && items[i].spec == t;
    assert (before + items + after)[|before| + i] == items[i];
  }

  lemma AddedIsSync(f: Floor, cab: nat, templates: seq<RailSpec>, own: seq<RailItem>, added: seq<RailItem>)
    requires IdsApart(own) && AddsMissing(f, cab, templates, added)
    requires forall i | 0 <= i < |own| ::
               own[i].id.Some? && Keeps(f.rails, cab, own[i]) && own[i].spec == SyncedSpec(f, own[i].id.value, templates)
    requires forall r | r in f.rails && f.rails[r].cabinet == cab :: KeptId(own, r)
    ensures SyncItems(f, cab, templates, own + added)
  {
    var items := own + added;
    forall r | r in f.rails && f.rails[r].cabinet == cab ensures KeptId(items, r) {
      var i :| 0 <= i < |own| && own[i].id == Some(r);
      assert items[i].id == Some(r);
    }
    forall t | t in templates && Lacks(f, cab, t.name) ensures SentNew(items, t) {
      SentStays(own, added, [], t);
      assert own + added + [] == items;
    }
  }

  function NewItems(specs: seq<RailSpec>): (items: seq<RailItem>)
    ensures |items| == |specs| && forall i | 0 <= i < |items| :: items[i] == RailItem(None, specs[i])
  {
    seq(|specs|, i requires 0 <= i < |specs| => RailItem(None, specs[i]))
  }

  /** A cabinet not stored yet has no rails, so a first set strands nothing. */
  lemma NothingStranded(f: Floor, cab: nat, specs: seq<RailSpec>)
    requires InOrder(f) && cab !in f.plates
    ensures StrandsNone(f, cab, NewItems(specs)) && NamesUnique(f.rails, cab) && IdsApart(NewItems(specs))
    ensures Specs(NewItems(specs)) == specs
  {
    forall r | r in f.rails ensures f.rails[r].cabinet != cab {
      assert RailOnPlate(f, r);
    }
  }

  /** After a replacement the spare labels are still spare. */
  lemma ReplacedLabels(f: Floor, g: Floor, cab: nat, plate: Plate, items: seq<RailItem>, ids: seq<nat>,
                       temp: nat -> string, specs: seq<RailSpec>)
    requires Replaced(f, g, cab, plate, items, ids) && SpareLabels(temp, f.rails, specs)
    requires forall i | 0 <= i < |items| :: items[i].spec in specs
    ensures SpareLabels(temp, g.rails, [])
  {
    forall r: nat, s | s in g.rails ensures temp(r) != g.rails[s].spec.name {
      if s in ids {
        var i :| 0 <= i < |ids| && ids[i] == s;
        assert items[i].spec in specs;
      }
    }
  }

  /** After a sync the spare labels are still spare. */
  lemma SyncedLabels(f: Floor, g: Floor, cab: nat, plate: Plate, templates: seq<RailSpec>,
                     temp: nat -> string, specs: seq<RailSpec>)
    requires Synced(f, g, cab, plate, templates) && SpareLabels(temp, f.rails, specs)
    requires templates == specs || templates == []
    ensures SpareLabels(temp, g.rails, [])
  {
  }

  /** A request to one of the operations. */
  datatype Request =
    | MountDevice(d: nat, kind: Option<nat>, r: nat, offset: Option<nat>)
    | StoreDevice(d: nat, kind: Option<nat>, cabinet: Option<nat>)
    | RemoveDevice(d: nat)
    | ArrangeCabinet(cab: nat, ps: seq<Placement>)
    | DefineKind(k: nat, width: Option<nat>, profiles: set<Profile>)
    | RemoveKind(k: nat)
    | NewCabinet(cab: nat, plate: Plate, specs: seq<RailSpec>)
    | SendRails(cab: nat, plate: Plate, items: seq<RailItem>)
    | ResizePlate(cab: nat, plate: Plate)
    | SyncCabinet(cab: nat, ct: CabinetType, sizes: bool, moveRails: bool)

  /** What the request's field validators have already checked. */
  ghost predicate Validated(q: Request) {
    match q
    case DefineKind(_, width, _) => width != Some(0)
    case NewCabinet(_, _, specs) => forall t | t in specs :: FieldsOk(t)
    case SendRails(_, _, items) => forall i | 0 <= i < |items| :: FieldsOk(items[i].spec)
    case SyncCabinet(_, ct, _, _) => LabelsApart(ct.templates) && forall t | t in ct.templates :: FieldsOk(t)
    case _ => true
  }

  /** The labels a request may write. */
  function Labels(q: Request): seq<RailSpec> {
    match q
    case NewCabinet(_, _, specs) => specs
    case SendRails(_, _, items) => Specs(items)
    case SyncCabinet(_, ct, _, _) => ct.templates
    case _ => []
  }

  /** Device `d` fits and mounts on its rail if that becomes `spec`. */
  ghost predicate SurvivesOn(f: Floor, d: nat, spec: RailSpec)
    requires d in f.devices && f.devices[d].mount.Some? && Typed(f, d)
  {
    End(f, d) <= spec.length && f.devices[d].kind.value in f.kinds && Mountable(f.kinds[f.devices[d].kind.value], spec.profile)
  }

  lemma OneSurvives(f: Floor, d: nat, r: nat, spec: RailSpec)
    requires InOrder(f) && r in f.rails && IsOn(f, d, r) && Typed(f, d)
    ensures f.devices[d].kind.value in f.kinds
    ensures SurvivesOn(f, d, spec) <==>
            End(f, d) <= spec.length && spec.profile in f.kinds[f.devices[d].kind.value].profiles
  {
    assert RailSeats(f, r) && Seated(f, d, r);
  }

  lemma ListedSurvive(f: Floor, r: nat, on: seq<Spot>, spans: seq<Gaps.Span>, spec: RailSpec)
    requires r in f.rails && SpansOf(f, r, None, on, spans) && forall j | 0 <= j < |on| :: Typed(f, on[j].dev)
    ensures !CarriesUntyped(f, r)
    ensures Holds(f, r, spec) <==> forall j | 0 <= j < |on| :: SurvivesOn(f, on[j].dev, spec)
  {
    forall d: nat | IsOn(f, d, r) ensures exists j :: 0 <= j < |on| && on[j].dev == d {
      assert Named(on, d);
    }
  }

  function AsInt(n: Option<nat>): Option<int> {
    if n.Some? then Some(n.value) else None
  }

  class Database {
    var plates: map<nat, Plate>
    var rails: map<nat, Rail>
    var kinds: map<nat, Kind>
    var devices: map<nat, Device>

    /** Nothing stored yet. */
    constructor ()
      ensures InOrder(Now()) && rails == map[]
    {
      plates, rails, kinds, devices := map[], map[], map[], map[];
    }

    function Now(): Floor
      reads this
    {
      Floor(plates, rails, kinds, devices)
    }

    // ----- placing one device

    method SpansExcept(r: nat, except: Option<nat>) returns (on: seq<Spot>, spans: seq<Gaps.Span>)
      requires r in rails
      ensures SpansOf(Now(), r, except, on, spans)
    {
      var mounts := map d | d in devices && except != Some(d) :: devices[d].mount;
      on := DevicesOn(mounts, r);
      spans := [];
      for i := 0 to |on|
        invariant |spans| == i
        invariant forall j | 0 <= j < i :: spans[j] == Gaps.Span(Start(Now(), on[j].dev), End(Now(), on[j].dev))
      {
        spans := spans + [Gaps.Span(on[i].at, on[i].at + Width(Now(), on[i].dev))];
      }
      forall d: nat | IsOn(Now(), d, r) && except != Some(d) ensures Named(on, d) {
        assert d in mounts;
      }
    }

    /** The left end of the first gap wide enough. */
    method PlaceFirst(r: nat, k: nat, except: Option<nat>) returns (res: Result<int, PlaceError>)
      requires InOrder(Now()) && r in rails && k in kinds && Mountable(kinds[k], rails[r].spec.profile)
      ensures res.Ok? ==> HasRoom(Now(), r, k, res.value, except)
      ensures res.Ok? ==> forall o | HasRoom(Now(), r, k, o, except) :: res.value <= o
      ensures res.Err? ==> forall o :: !HasRoom(Now(), r, k, o, except)
      ensures res.Err? ==> Why(Now(), r, Some(k), None, except, res.error)
    {
      var on, spans := SpansExcept(r, except);
      SpansOnRail(Now(), r, except, on, spans);
      assert RailOnPlate(Now(), r);
      Gaps.ExtentOnRail(rails[r].spec.length, spans);
      var gaps := Gaps.FreeGaps(rails[r].spec.length, spans);
      var i := Gaps.FirstWide(gaps, kinds[k].width.value);
      FirstWideDecides(Now(), r, k, except, on, spans, gaps, i);
      return if i == |gaps| then Err(NoGap) else Ok(gaps[i].lo);
    }

    /** The offset asked for, unless it runs past the rail or into a device. */
    method PlaceAt(r: nat, k: nat, o: int, except: Option<nat>) returns (res: Result<int, PlaceError>)
      requires InOrder(Now()) && r in rails && k in kinds && Mountable(kinds[k], rails[r].spec.profile) && 0 <= o
      ensures res.Ok? <==> HasRoom(Now(), r, k, o, except)
      ensures res.Ok? ==> res.value == o
      ensures res.Err? ==> Why(Now(), r, Some(k), Some(o), except, res.error)
    {
      var width := kinds[k].width.value;
      var on, spans := SpansExcept(r, except);
      SpansDecideRoom(Now(), r, k, o, except, on, spans);
      if o + width > rails[r].spec.length {
        return Err(PlaceError.PastEnd);
      }
      for i := 0 to |on|
        invariant forall j | 0 <= j < i :: !Overlaps(o, o + width, spans[j].lo, spans[j].hi)
      {
        if Overlaps(o, o + width, spans[i].lo, spans[i].hi) {
          return Err(PlaceError.OverlapsDevice(on[i].dev));
        }
      }
      return Ok(o);
    }

    /**
     The offset a device of type `kind` takes on rail `r`: the one asked for when it has room there, else
     with none asked the least one that has room; refused exactly when there is none.
     */
    method Place(r: nat, kind: Option<nat>, offset: Option<int>, except: Option<nat>)
      returns (res: Result<int, PlaceError>)
      requires InOrder(Now())
      requires kind.Some? ==> kind.value in kinds
      requires offset.Some? ==> 0 <= offset.value
      ensures res.Ok? ==> r in rails && kind.Some? && HasRoom(Now(), r, kind.value, res.value, except)
      ensures offset.Some? ==>
                (res.Ok? <==> r in rails && kind.Some? && HasRoom(Now(), r, kind.value, offset.value, except))
      ensures offset.Some? && res.Ok? ==> res.value == offset.value
      ensures offset.None? && res.Ok? ==> forall o | HasRoom(Now(), r, kind.value, o, except) :: res.value <= o
      ensures offset.None? && res.Err? && r in rails && kind.Some? ==>
                forall o :: !HasRoom(Now(), r, kind.value, o, except)
      ensures res.Err? ==> Why(Now(), r, kind, offset, except, res.error)
    {
      if kind.None? {
        return Err(NeedsRailType);
      }
      var k := kinds[kind.value];
      if k.profiles == {} || k.width.None? {
        return Err(NeedsRailType);
      }
      if r !in rails {
        return Err(RailGone);
      }
      if rails[r].spec.profile !in k.profiles {
        return Err(PlaceError.WrongProfile);
      }
      if offset.None? {
        res := PlaceFirst(r, kind.value, except);
      } else {
        res := PlaceAt(r, kind.value, offset.value, except);
      }
    }

    /**
     Saves device `d`, new or known, as one of type `kind` on rail `r`: at the offset asked for, or with none asked at
     the least one with room; refused, with nothing stored, exactly when there is no room.
     */
    method SaveOnRail(d: nat, kind: Option<nat>, r: nat, offset: Option<int>) returns (ok: bool)
      requires InOrder(Now())
      requires kind.Some? ==> kind.value in kinds
      requires offset.Some? ==> 0 <= offset.value
      modifies this`devices
      ensures InOrder(Now()) && (old(AllTyped(Now())) ==> AllTyped(Now()))
      ensures !ok ==> devices == old(devices)
      ensures !ok && r in rails && kind.Some? ==>
                forall o | offset.None? || offset == Some(o) :: !HasRoom(old(Now()), r, kind.value, o, Some(d))
      ensures ok ==>
                && r in rails && kind.Some?
                && exists o | HasRoom(old(Now()), r, kind.value, o, Some(d)) ::
                     && Now() == WithDevice(old(Now()), d, RowOnRail(old(Now()), r, kind.value, o))
                     && (offset.Some? ==> offset.value == o)
                     && (offset.None? ==> forall p | HasRoom(old(Now()), r, kind.value, p, Some(d)) :: o <= p)
    {
      var res := Place(r, kind, offset, Some(d));
      if res.Err? {
        return false;
      }
      RoomIsOrder(Now(), d, r, kind.value, res.value);
      devices := devices[d := Device(Some(rails[r].cabinet), kind, Some(Din.Mount(r, res.value)))];
      assert Now() == WithDevice(old(Now()), d, RowOnRail(old(Now()), r, kind.value, res.value));
      return true;
    }

    /** Saves device `d`, new or known, off any rail. */
    method SaveOffRail(d: nat, kind: Option<nat>, cab: Option<nat>)
      requires InOrder(Now()) && (kind.Some? ==> kind.value in kinds)
      modifies this`devices
      ensures InOrder(Now()) && Now() == WithDevice(old(Now()), d, Device(cab, kind, None))
      ensures old(AllTyped(Now())) ==> AllTyped(Now())
    {
      ghost var f := Now();
      devices := devices[d := Device(cab, kind, None)];
      FewerIsOrder(f, Now());
    }

    method DeleteDevice(d: nat)
      requires InOrder(Now())
      modifies this`devices
      ensures InOrder(Now()) && Now() == old(Now()).(devices := old(devices) - {d})
      ensures old(AllTyped(Now())) ==> AllTyped(Now())
    {
      ghost var f := Now();
      devices := devices - {d};
      FewerIsOrder(f, Now());
    }

    // ----- arranging a cabinet

    /** Faults of the placements on their own: exactly those each has. */
    method ReadPlacements(cab: nat, ps: seq<Placement>) returns (bad: set<(nat, PlacementFault)>)
      ensures forall i: nat, x :: (i, x) in bad <==> i < |ps| && HasFault(Now(), cab, ps, i, x)
      ensures bad == {} <==> forall i | 0 <= i < |ps| :: Readable(Now(), cab, ps, i)
      ensures forall b | b in bad :: b.0 < |ps|
    {
      bad := {};
      var seen: set<Option<nat>> := {};
      for i := 0 to |ps|
        invariant seen == set j | 0 <= j < i :: ps[j].device
        invariant forall j: nat, x :: (j, x) in bad <==> j < i && HasFault(Now(), cab, ps, j, x)
      {
        var p := ps[i];
        var faults: set<PlacementFault> := {};
        if p.device.None? {
          faults := {NotAnId};
        } else if p.device in seen {
          faults := {ListedTwice};
        }
        seen := seen + {p.device};
        if p.target.OnRail? && !(p.target.rail in rails && rails[p.target.rail].cabinet == cab) {
          faults := faults + {NotACabinetRail};
        }
        if p.target.OnRail? && !(p.offset.Tenths? && 0 <= p.offset.value) {
          faults := faults + {BadOffset};
        }
        assert forall x :: x in faults <==> HasFault(Now(), cab, ps, i, x);
        bad := Blamed(bad, i, faults);
      }
      FaultlessIsReadable(Now(), cab, ps, bad);
    }

    /** Which placement moves each device. */
    method IndexOf(cab: nat, ps: seq<Placement>) returns (index: map<nat, nat>)
      requires WellFormed(Now(), cab, ps)
      ensures forall d | d in index :: Ticket(ps, d, index[d])
      ensures forall d | Listed(ps, d) :: d in index
    {
      index := map[];
      for i := 0 to |ps|
        invariant forall d | d in index :: Ticket(ps, d, index[d])
        invariant forall j | 0 <= j < i :: ps[j].device.value in index
      {
        index := index[ps[i].device.value := i];
      }
      forall d | Listed(ps, d) ensures d in index {
        assert ps[TicketOf(ps, d)].device.value in index;
      }
    }

    /** Where every device on the cabinet's rails ends up: the others stay, the listed ones move. */
    method FinalMounts(cab: nat, ps: seq<Placement>, index: map<nat, nat>) returns (final: map<nat, Option<Din.Mount>>)
      requires WellFormed(Now(), cab, ps)
      requires forall d | d in index :: Ticket(ps, d, index[d])
      requires forall d | Listed(ps, d) :: d in index
      ensures forall d | d in final :: d in devices && final[d] == Moved(Now(), ps).devices[d].mount
      ensures forall r, d | r in rails && rails[r].cabinet == cab && IsOn(Moved(Now(), ps), d, r) :: d in final
    {
      final := map d | d in devices && d !in index && devices[d].mount.Some?
                       && devices[d].mount.value.rail in rails && rails[devices[d].mount.value.rail].cabinet == cab
                   :: devices[d].mount;
      final := final + map d | d in index :: MountOf(ps[index[d]]);
      ghost var g := Moved(Now(), ps);
      forall d | d in final ensures d in g.devices && g.devices[d].mount == final[d] {
        if d in index {
          assert InCabinet(Now(), cab, ps[index[d]]) && Listed(ps, d);
          TicketUnique(Now(), cab, ps, index[d], TicketOf(ps, d), d);
        } else {
          assert !Listed(ps, d);
        }
      }
    }

    /** Rail `r` of the final arrangement, left to right. */
    method Picture(ghost cab: nat, ps: seq<Placement>, index: map<nat, nat>,
                   final: map<nat, Option<Din.Mount>>, r: nat) returns (on: seq<Sweeping.Item>)
      requires r in rails
      requires forall d | d in index :: Ticket(ps, d, index[d])
      requires forall d | Listed(ps, d) :: d in index
      requires forall d | d in final :: d in devices && final[d] == Moved(Now(), ps).devices[d].mount
      requires forall d | IsOn(Moved(Now(), ps), d, r) :: d in final
      ensures Pictures(Moved(Now(), ps), ps, r, on)
    {
      var spots := DevicesOn(final, r);
      ghost var g := Moved(Now(), ps);
      on := [];
      for i := 0 to |spots|
        invariant |on| == i
        invariant forall k | 0 <= k < i :: on[k].dev == spots[k].dev && on[k].at == spots[k].at
        invariant forall k | 0 <= k < i :: PicturesOne(g, ps, r, on[k])
      {
        var d := spots[i].dev;
        var item := Sweeping.Item(d, spots[i].at, KindOf(Now(), d), if d in index then Some(index[d]) else None);
        if d in index {
          assert Listed(ps, d);
        }
        assert PicturesOne(g, ps, r, item);
        on := on + [item];
      }
      forall d | IsOn(g, d, r) ensures Shown(on, d) {
        assert Named(spots, d);
        var k :| 0 <= k < |spots| && spots[k].dev == d;
        assert on[k].dev == d;
      }
    }

    method SweepRail(cab: nat, ps: seq<Placement>, index: map<nat, nat>,
                     final: map<nat, Option<Din.Mount>>, r: nat) returns (bad: set<(nat, PlacementFault)>)
      requires WidthsPositive(Now()) && r in rails
      requires forall d | d in index :: Ticket(ps, d, index[d])
      requires forall d | Listed(ps, d) :: d in index
      requires forall d | d in final :: d in devices && final[d] == Moved(Now(), ps).devices[d].mount
      requires forall d | IsOn(Moved(Now(), ps), d, r) :: d in final
      ensures bad == {} <==> Accepts(Moved(Now(), ps), ps, r)
      ensures forall b | b in bad :: b.0 < |ps| && Rightly(Now(), cab, ps, b.0, b.1)
    {
      var on := Picture(cab, ps, index, final, r);
      PictureIsSweepable(Moved(Now(), ps), ps, r, on);
      PictureDecides(Moved(Now(), ps), ps, r, on);
      var faults := Sweeping.Sweep(rails[r].spec, on);
      BlamedAreListed(Moved(Now(), ps), ps, r, on, faults);
      bad := RailFaults(faults);
      RightlyOnTheRail(Now(), cab, ps, r, on, faults);
    }

    /** Checks every rail of the cabinet as the placements would leave it. */
    method SweepRails(cab: nat, ps: seq<Placement>, index: map<nat, nat>) returns (bad: set<(nat, PlacementFault)>)
      requires WidthsPositive(Now()) && WellFormed(Now(), cab, ps)
      requires forall d | d in index :: Ticket(ps, d, index[d])
      requires forall d | Listed(ps, d) :: d in index
      ensures bad == {} <==>
              forall r | r in rails && rails[r].cabinet == cab :: Accepts(Moved(Now(), ps), ps, r)
      ensures forall b | b in bad :: b.0 < |ps| && Rightly(Now(), cab, ps, b.0, b.1)
    {
      var final := FinalMounts(cab, ps, index);
      var mine := set r | r in rails && rails[r].cabinet == cab;
      bad := SweepEach(cab, ps, index, final, mine);
    }

    method SweepEach(cab: nat, ps: seq<Placement>, index: map<nat, nat>,
                     final: map<nat, Option<Din.Mount>>, mine: set<nat>) returns (bad: set<(nat, PlacementFault)>)
      requires WidthsPositive(Now()) && mine <= rails.Keys
      requires forall d | d in index :: Ticket(ps, d, index[d])
      requires forall d | Listed(ps, d) :: d in index
      requires forall d | d in final :: d in devices && final[d] == Moved(Now(), ps).devices[d].mount
      requires forall r, d | r in mine && IsOn(Moved(Now(), ps), d, r) :: d in final
      ensures bad == {} <==> forall r | r in mine :: Accepts(Moved(Now(), ps), ps, r)
      ensures forall b | b in bad :: b.0 < |ps| && Rightly(Now(), cab, ps, b.0, b.1)
    {
      bad := {};
      var left := mine;
      while left != {}
        invariant left <= mine
        invariant bad == {} <==> forall r | r in mine :: r in left || Accepts(Moved(Now(), ps), ps, r)
        invariant forall b | b in bad :: b.0 < |ps| && Rightly(Now(), cab, ps, b.0, b.1)
        decreases |left|
      {
        var r :| r in left;
        var more := SweepRail(cab, ps, index, final, r);
        left := left - {r};
        bad := bad + more;
      }
    }

    /**
     Moves devices of cabinet `cab` onto its rails at once, all or nothing. Whatever is stored, the list is accepted
     exactly when it is well formed and every device it moves ends up inside its rail, on a profile it mounts on, and
     clear of the other devices that mount there. On a floor in order that is when the new floor is in order and every
     device put on a rail has a type. The answer names the devices that moved, in the list's order.
     */
    method Arrange(cab: nat, ps: seq<Placement>) returns (res: Arranged)
      requires WidthsPositive(Now())
      modifies this`devices
      ensures res.Arranged? <==>
              && WellFormed(old(Now()), cab, ps)
              && forall r | r in rails && rails[r].cabinet == cab :: Accepts(Moved(old(Now()), ps), ps, r)
      ensures res.Arranged? ==> Now() == Moved(old(Now()), ps) && NamesMoved(old(Now()), Now(), ps, res.moved)
      ensures res.Arranged? ==> AsSent(old(Now()), Now(), ps)
      ensures res.Refused? ==>
                && devices == old(devices) && (0 < |ps| <= MAX_PLACEMENTS ==> res.faults != {})
                && forall b | b in res.faults :: b.0 < |ps| && Rightly(old(Now()), cab, ps, b.0, b.1)
      ensures old(InOrder(Now())) ==>
                && InOrder(Now())
                && (res.Arranged? <==>
                      && WellFormed(old(Now()), cab, ps)
                      && InOrder(Moved(old(Now()), ps)) && TypedMoves(old(Now()), cab, ps))
                && (old(AllTyped(Now())) ==> AllTyped(Now()))
    {
      ghost var f := Now();
      res := TryArrange(cab, ps);
      if WellFormed(f, cab, ps) {
        MovedAsSent(f, cab, ps);
      }
      if InOrder(f) && WellFormed(f, cab, ps) {
        AcceptsIsOrder(f, cab, ps);
        if AllTyped(f) && TypedMoves(f, cab, ps) {
          MovedTyped(f, cab, ps);
        }
      }
    }

    method TryArrange(cab: nat, ps: seq<Placement>) returns (res: Arranged)
      requires WidthsPositive(Now())
      modifies this`devices
      ensures res.Arranged? <==>
              && WellFormed(old(Now()), cab, ps)
              && forall r | r in rails && rails[r].cabinet == cab :: Accepts(Moved(old(Now()), ps), ps, r)
      ensures res.Arranged? ==> Now() == Moved(old(Now()), ps) && NamesMoved(old(Now()), Now(), ps, res.moved)
      ensures res.Refused? ==>
                && devices == old(devices) && (0 < |ps| <= MAX_PLACEMENTS ==> res.faults != {})
                && forall b | b in res.faults :: b.0 < |ps| && Rightly(old(Now()), cab, ps, b.0, b.1)
    {
      if |ps| == 0 || |ps| > MAX_PLACEMENTS {
        return Refused({});
      }
      var bad := ReadPlacements(cab, ps);
      if bad != {} {
        return Refused(bad);
      }
      bad := set i | 0 <= i < |ps| && !InCabinet(Now(), cab, ps[i]) :: (i, NotInCabinet);
      assert forall i | 0 <= i < |ps| && !InCabinet(Now(), cab, ps[i]) :: (i, NotInCabinet) in bad;
      if bad != {} {
        return Refused(bad);
      }
      var index := IndexOf(cab, ps);
      bad := SweepRails(cab, ps, index);
      if bad != {} {
        return Refused(bad);
      }
      var moved := WriteMoves(cab, ps);
      return Arranged(moved);
    }

    /** Saves the devices that change, one by one. */
    method WriteMoves(cab: nat, ps: seq<Placement>) returns (moved: seq<nat>)
      requires WellFormed(Now(), cab, ps)
      modifies this`devices
      ensures Now() == Moved(old(Now()), ps) && NamesMoved(old(Now()), Now(), ps, moved)
    {
      ghost var f, at: seq<nat> := Now(), [];
      moved := [];
      assert Moved(f, ps[..0]) == f by { assert forall d :: !Listed(ps[..0], d); }
      for i := 0 to |ps|
        invariant Now() == Moved(f, ps[..i]) && Reports(f, cab, ps, i, moved, at)
      {
        MovedStep(f, cab, ps, i);
        NotYetMoved(f, cab, ps, i);
        ReportStep(f, cab, ps, i, moved, at);
        var d, to := ps[i].device.value, MountOf(ps[i]);
        if devices[d].mount != to || (to.None? && !ps[i].offset.Missing?) {
          moved := moved + [d];
          at := at + [i];
        }
        devices := devices[d := devices[d].(mount := to)];
      }
      assert ps[..|ps|] == ps;
      ReportsAll(f, cab, ps, moved, at);
    }

    // ----- changing a device type

    /** Whether device `d` of type `k` keeps its place when the type becomes `w` wide. */
    method KeepsPlace(k: nat, w: int, profiles: set<Profile>, d: nat) returns (ok: bool)
      requires InOrder(Now()) && k in kinds && d in devices && devices[d].kind == Some(k) && devices[d].mount.Some?
      requires devices[d].mount.value.rail in rails && rails[devices[d].mount.value.rail].spec.profile in profiles
      ensures ok <==> Placed(WithKind(Now(), k, Kind(Some(w), profiles)), d)
    {
      var m := devices[d].mount.value;
      assert IsOn(Now(), d, m.rail);
      var on, spans := SpansExcept(m.rail, Some(d));
      PlacedBySpans(Now(), k, w, profiles, d, m.rail, on, spans);
      if m.offset + w > rails[m.rail].spec.length {
        return false;
      }
      for i := 0 to |on|
        invariant forall j | 0 <= j < i :: !Overlaps(m.offset, m.offset + w, spans[j].lo, NewEnd(Now(), k, w, on[j], spans[j]))
      {
        if Overlaps(m.offset, m.offset + w, spans[i].lo, NewEnd(Now(), k, w, on[i], spans[i])) {
          return false;
        }
      }
      return true;
    }

    /** Accepts a new width and profile list exactly when the devices of the type on rails survive it. */
    method CheckKind(k: nat, width: Option<int>, profiles: set<Profile>) returns (ok: bool)
      requires InOrder(Now()) && k in kinds && (width.Some? ==> 0 < width.value)
      ensures ok <==> var g := WithKind(Now(), k, Kind(width, profiles)); InOrder(g) && KindClear(g, k)
      ensures AllTyped(Now()) ==> (ok <==> InOrder(WithKind(Now(), k, Kind(width, profiles))))
    {
      KindDecides(Now(), k, Kind(width, profiles));
      if AllTyped(Now()) {
        TypedIsClear(Now(), k, Kind(width, profiles));
      }
      ok := CheckPlaces(k, width, profiles);
    }

    method CheckPlaces(k: nat, width: Option<int>, profiles: set<Profile>) returns (ok: bool)
      requires InOrder(Now()) && k in kinds
      ensures ok <==> AllPlaced(WithKind(Now(), k, Kind(width, profiles)), k)
    {
      ghost var g := WithKind(Now(), k, Kind(width, profiles));
      var mounted := set d | d in devices && devices[d].kind == Some(k) && devices[d].mount.Some?;
      if mounted == {} {
        assert forall d | d in devices && devices[d].kind == Some(k) && devices[d].mount.Some? :: d in mounted;
        return true;
      }
      if exists d :: d in mounted && rails[devices[d].mount.value.rail].spec.profile !in profiles {
        ghost var d :| d in mounted && rails[devices[d].mount.value.rail].spec.profile !in profiles;
        assert !Placed(g, d);
        return false;
      }
      if width.None? {
        ghost var d :| d in mounted;
        assert !Placed(g, d);
        return false;
      }
      ok := AllKeepPlace(k, width.value, profiles, mounted);
    }

    method AllKeepPlace(k: nat, w: int, profiles: set<Profile>, mounted: set<nat>) returns (ok: bool)
      requires InOrder(Now()) && k in kinds
      requires forall d | d in mounted :: d in devices && devices[d].kind == Some(k) && devices[d].mount.Some?
      requires forall d | d in mounted :: rails[devices[d].mount.value.rail].spec.profile in profiles
      ensures ok <==> forall d | d in mounted :: Placed(WithKind(Now(), k, Kind(Some(w), profiles)), d)
    {
      ghost var g := WithKind(Now(), k, Kind(Some(w), profiles));
      var left := mounted;
      while left != {}
        invariant left <= mounted
        invariant forall d | d in mounted :: d in left || Placed(g, d)
        decreases |left|
      {
        var d :| d in left;
        var keeps := KeepsPlace(k, w, profiles, d);
        if !keeps {
          return false;
        }
        left := left - {d};
      }
      return true;
    }

    method ChangeKind(k: nat, width: Option<int>, profiles: set<Profile>) returns (ok: bool)
      requires InOrder(Now()) && k in kinds && (width.Some? ==> 0 < width.value)
      modifies this`kinds
      ensures InOrder(Now())
      ensures ok <==> var g := WithKind(old(Now()), k, Kind(width, profiles)); InOrder(g) && KindClear(g, k)
      ensures Now() == if ok then WithKind(old(Now()), k, Kind(width, profiles)) else old(Now())
    {
      ok := CheckKind(k, width, profiles);
      if ok {
        kinds := kinds[k := Kind(width, profiles)];
      }
    }

    /** Stores a type that was not there before. */
    method AddKind(k: nat, kind: Kind)
      requires InOrder(Now()) && k !in kinds && (kind.width.Some? ==> 0 < kind.width.value)
      modifies this`kinds
      ensures InOrder(Now()) && Now() == WithKind(old(Now()), k, kind)
    {
      ghost var f := Now();
      kinds := kinds[k := kind];
      forall d | d in devices && devices[d].mount.Some? ensures Width(f, d) == Width(Now(), d) {
        assert devices[d].kind.Some? ==> devices[d].kind.value in f.kinds;
      }
      FewerIsOrder(f, Now());
    }

    /**
     Deletes a type without looking at rails: the floor stays in order, and its devices on rails all typed exactly when
     none of the type is mounted.
     */
    method DeleteKind(k: nat)
      requires InOrder(Now())
      modifies this`kinds, this`devices
      ensures Now() == WithoutKind(old(Now()), k) && InOrder(Now())
      ensures AllTyped(Now()) <==>
              && old(AllTyped(Now()))
              && forall d | d in old(devices) && old(devices)[d].kind == Some(k) :: old(devices)[d].mount.None?
    {
      DeletedKindOrder(Now(), k);
      kinds := kinds - {k};
      devices := map d | d in devices :: if devices[d].kind == Some(k) then devices[d].(kind := None) else devices[d];
      assert Now() == WithoutKind(old(Now()), k);
    }

    // ----- replacing a cabinet's rails

    /** The rails that stay: another cabinet's, and those an item names; with the item that names each. */
    method DropRest(cab: nat, items: seq<RailItem>) returns (index: map<nat, nat>)
      requires IdsApart(items)
      modifies this`rails
      ensures forall r | r in rails :: r in old(rails) && rails[r] == old(rails)[r]
      ensures forall r | r in old(rails) && old(rails)[r].cabinet != cab :: r in rails
      ensures Indexes(rails, cab, items, index)
      ensures forall i | 0 <= i < |items| && Keeps(old(rails), cab, items[i]) ::
                items[i].id.value in index && index[items[i].id.value] == i
    {
      index := map[];
      for i := 0 to |items|
        invariant forall r | r in index :: index[r] < i && Keeps(rails, cab, items[index[r]]) && items[index[r]].id == Some(r)
        invariant forall j | 0 <= j < i && Keeps(rails, cab, items[j]) :: items[j].id.value in index && index[items[j].id.value] == j
      {
        if Keeps(rails, cab, items[i]) {
          index := index[items[i].id.value := i];
        }
      }
      rails := map r | r in rails && (rails[r].cabinet != cab || r in index) :: rails[r];
    }

    /** First phase: every rail that changes its label steps aside to its spare one. */
    method StepAside(cab: nat, items: seq<RailItem>, index: map<nat, nat>, temp: nat -> string)
      returns (ghost history: seq<map<nat, Rail>>)
      requires Indexes(rails, cab, items, index) && NamesUnique(rails, cab) && Spare(temp, rails, cab, items)
      modifies this`rails
      ensures Aside(old(rails), rails, cab, items, index, temp, |items|)
      ensures Log(history, old(rails), rails, cab)
    {
      ghost var base := rails;
      history := [rails];
      for i := 0 to |items|
        invariant Aside(base, rails, cab, items, index, temp, i)
        invariant Log(history, base, rails, cab)
      {
        ghost var was := rails;
        if Updates(items, index, i) && rails[items[i].id.value].spec.name != items[i].spec.name {
          var r := items[i].id.value;
          rails := rails[r := rails[r].(spec := rails[r].spec.(name := temp(r)))];
          AsideStep(base, was, cab, items, index, temp, i, rails);
          AsideNames(base, rails, cab, items, index, temp, i + 1);
          LogWrite(history, base, was, cab, r, rails[r]);
          history := history + [rails];
        } else {
          AsideStep(base, was, cab, items, index, temp, i, rails);
        }
      }
    }

    /** Second phase: every kept rail takes its own values. */
    method WriteKept(cab: nat, items: seq<RailItem>, index: map<nat, nat>, ghost temp: nat -> string)
      returns (ghost history: seq<map<nat, Rail>>)
      requires Indexes(rails, cab, items, index) && OwnOrSpare(rails, cab, items, index, temp) && NamesApart(items)
      requires forall r, s | r != s :: temp(r) != temp(s)
      requires forall r, i | 0 <= i < |items| :: temp(r) != items[i].spec.name
      modifies this`rails
      ensures Written(old(rails), rails, cab, items, index, |items|)
      ensures Log(history, old(rails), rails, cab)
    {
      ghost var base := rails;
      history := [rails];
      WrittenNames(base, rails, cab, items, index, temp, 0);
      for i := 0 to |items|
        invariant Written(base, rails, cab, items, index, i)
        invariant Log(history, base, rails, cab)
      {
        ghost var was := rails;
        if Updates(items, index, i) && rails[items[i].id.value].spec != items[i].spec {
          rails := rails[items[i].id.value := Rail(cab, items[i].spec)];
          WrittenStep(base, was, cab, items, index, i, rails);
          WrittenNames(base, rails, cab, items, index, temp, i + 1);
          LogWrite(history, base, was, cab, items[i].id.value, rails[items[i].id.value]);
          history := history + [rails];
        } else {
          WrittenStep(base, was, cab, items, index, i, rails);
        }
      }
    }

    /** An id no row of `taken` has. */
    static method FreshId(taken: set<nat>) returns (id: nat)
      ensures id !in taken
    {
      id := 0;
      var left := taken;
      while left != {}
        invariant left <= taken
        invariant forall x | x in taken :: x in left || x < id
        decreases |left|
      {
        var x :| x in left;
        id := if x >= id then x + 1 else id;
        left := left - {x};
      }
    }

    /** Last phase: the remaining items become new rails under ids nobody has. */
    method CreateNew(cab: nat, items: seq<RailItem>, before: map<nat, Rail>)
      returns (ids: seq<nat>, ghost history: seq<map<nat, Rail>>)
      requires IdsApart(items) && NamesApart(items) && KeptWritten(before, rails, cab, items)
      modifies this`rails
      ensures RowsReplaced(before, rails, cab, items, ids)
      ensures Log(history, old(rails), rails, cab)
    {
      ids := [];
      history := [rails];
      ghost var base := rails;
      CreatingNames(before, base, rails, cab, items, ids, 0);
      for n := 0 to |items|
        invariant Creating(before, base, rails, cab, items, ids, n)
        invariant Log(history, base, rails, cab)
      {
        if Keeps(before, cab, items[n]) {
          CreatingKept(before, base, rails, cab, items, ids, n);
          ids := ids + [items[n].id.value];
        } else {
          var id := FreshId(rails.Keys + before.Keys);
          CreatingNew(before, base, rails, cab, items, ids, n, id);
          ghost var was := rails;
          rails := rails[id := Rail(cab, items[n].spec)];
          ids := ids + [id];
          CreatingNames(before, base, rails, cab, items, ids, n + 1);
          LogWrite(history, base, was, cab, id, rails[id]);
          history := history + [rails];
        }
      }
      CreatingDone(before, base, rails, cab, items, ids);
    }

    /**
     Makes the cabinet's rails exactly `items`. The rails left out go in one statement, then every write
     touches one row; labels are unique after each.
     */
    method SaveRails(cab: nat, items: seq<RailItem>, temp: nat -> string)
      returns (ids: seq<nat>, ghost dropped: map<nat, Rail>, ghost history: seq<map<nat, Rail>>)
      requires IdsApart(items) && NamesApart(items)
      requires NamesUnique(rails, cab) && Spare(temp, rails, cab, items)
      modifies this`rails
      ensures RowsReplaced(old(rails), rails, cab, items, ids)
      ensures forall r | r in dropped :: r in old(rails) && dropped[r] == old(rails)[r]
      ensures Log(history, dropped, rails, cab)
    {
      ghost var before := rails;
      var stored := rails;
      var index := DropRest(cab, items);
      dropped := rails;
      ghost var h1 := StepAside(cab, items, index, temp);
      ghost var aside := rails;
      ghost var h2 := WriteKept(cab, items, index, temp);
      ghost var written := rails;
      assert KeptWritten(before, rails, cab, items) by {
        forall r | r in rails && before[r].cabinet == cab ensures KeptId(items, r) {
          assert items[index[r]].id == Some(r);
        }
      }
      ghost var h3;
      ids, h3 := CreateNew(cab, items, stored);
      LogJoin(h1, h2, dropped, aside, written, cab);
      LogJoin(h1 + h2[1..], h3, dropped, written, rails, cab);
      history := h1 + h2[1..] + h3[1..];
    }

    /** Whether the devices on rail `r` would still fit and mount if it were `spec`. */
    method KeepsDevices(r: nat, spec: RailSpec) returns (v: Verdict)
      requires InOrder(Now()) && r in rails
      ensures v.Raises? <==> CarriesUntyped(Now(), r)
      ensures !v.Raises? ==> (v.Passes? <==> Holds(Now(), r, spec))
    {
      var on, spans := SpansExcept(r, None);
      var fits := true;
      for i := 0 to |on|
        invariant forall j | 0 <= j < i :: Typed(Now(), on[j].dev)
        invariant fits <==> forall j | 0 <= j < i :: SurvivesOn(Now(), on[j].dev, spec)
      {
        var d := on[i].dev;
        assert IsOn(Now(), d, r);
        if devices[d].kind.None? {
          assert !Typed(Now(), d);
          return Raises;
        }
        OneSurvives(Now(), d, r, spec);
        if spec.length < spans[i].hi || spec.profile !in kinds[devices[d].kind.value].profiles {
          fits := false;
        }
      }
      ListedSurvive(Now(), r, on, spans, spec);
      return if fits then Passes else Fails;
    }

    /** Whether every rail that carries devices is among those kept. */
    method KeepsCarriers(cab: nat, items: seq<RailItem>) returns (ok: bool)
      ensures ok <==> CarriersKept(Now(), cab, items)
    {
      var kept := set i | 0 <= i < |items| :: items[i].id;
      assert forall i | 0 <= i < |items| :: items[i].id in kept;
      var all := set r | r in rails && rails[r].cabinet == cab && Some(r) !in kept;
      var left := all;
      while left != {}
        invariant left <= all
        invariant forall r | r in all :: r in left || !Carries(Now(), r)
        decreases |left|
      {
        var r :| r in left;
        var on, spans := SpansExcept(r, None);
        if on != [] {
          assert IsOn(Now(), on[0].dev, r) && Carries(Now(), r);
          assert !KeptId(items, r);
          return false;
        }
        assert forall d: nat | IsOn(Now(), d, r) :: Named(on, d);
        left := left - {r};
      }
      forall r | r in rails && rails[r].cabinet == cab && Carries(Now(), r) ensures KeptId(items, r) {
        assert r !in all;
      }
      return true;
    }

    /**
     Whether a new set of the cabinet's rails strands none of the devices on them. The check fails exactly when every rail
     that carries devices is kept and one of those kept carries a device without a type.
     */
    method CheckRailDevices(cab: nat, items: seq<RailItem>) returns (v: Verdict)
      requires InOrder(Now())
      ensures v.Raises? <==> CarriersKept(Now(), cab, items) && MeetsUntyped(Now(), cab, items)
      ensures !v.Raises? ==> (v.Passes? <==> StrandsNone(Now(), cab, items))
    {
      var kept := KeepsCarriers(cab, items);
      if !kept {
        return Fails;
      }
      var fits := true;
      for i := 0 to |items|
        invariant forall j | 0 <= j < i && Keeps(rails, cab, items[j]) :: !CarriesUntyped(Now(), items[j].id.value)
        invariant fits <==> forall j | 0 <= j < i && Keeps(rails, cab, items[j]) ::
                              Holds(Now(), items[j].id.value, items[j].spec)
      {
        if Keeps(rails, cab, items[i]) {
          v := KeepsDevices(items[i].id.value, items[i].spec);
          if v.Raises? {
            return;
          }
          fits := fits && v.Passes?;
        }
      }
      return if fits then Passes else Fails;
    }

    /** Whether the ids of a sent set name rails of the cabinet, each once. */
    method CheckIds(cab: nat, items: seq<RailItem>) returns (ok: bool)
      ensures ok <==> IdsOk(rails, cab, items)
    {
      var seen: set<nat> := {};
      for i := 0 to |items|
        invariant forall x :: x in seen <==> exists j :: 0 <= j < i && items[j].id == Some(x)
        invariant forall j | 0 <= j < i && items[j].id.Some? :: Keeps(rails, cab, items[j])
        invariant forall j, k | 0 <= j < k < i && items[j].id.Some? :: items[j].id != items[k].id
      {
        if items[i].id.Some? {
          if !Keeps(rails, cab, items[i]) || items[i].id.value in seen {
            return false;
          }
          seen := seen + {items[i].id.value};
        }
      }
      return true;
    }

    lemma SpecsApart(items: seq<RailItem>, plate: Plate)
      requires Sets.SetOk(Specs(items), plate)
      ensures NamesApart(items)
    {
      forall i, j | 0 <= i < j < |items| ensures items[i].spec.name != items[j].spec.name {
        assert Apart(Specs(items)[j], Specs(items)[i]);
      }
    }

    /**
     Saves a cabinet with a plate of size `plate` and the rails `items`: accepted exactly when their ids are right and the
     result is in order, unless the check of its devices fails. That happens exactly when everything before it passes and a
     rail kept carries a device without a type.
     */
    method ReplaceRails(cab: nat, plate: Plate, items: seq<RailItem>, temp: nat -> string)
      returns (v: Verdict, ids: seq<nat>)
      requires InOrder(Now()) && cab in plates
      requires forall i | 0 <= i < |items| :: FieldsOk(items[i].spec)
      requires Spare(temp, rails, cab, items)
      modifies this`plates, this`rails
      ensures InOrder(Now())
      ensures v.Passes? ==> IdsOk(old(rails), cab, items) && Replaced(old(Now()), Now(), cab, plate, items, ids)
      ensures !v.Passes? ==> Now() == old(Now())
      ensures v.Fails? && IdsOk(old(rails), cab, items) ==>
                forall g, xs | Replaced(old(Now()), g, cab, plate, items, xs) :: !InOrder(g)
      ensures v.Raises? <==>
                && IdsOk(old(rails), cab, items) && Sets.SetOk(Specs(items), plate)
                && CarriersKept(old(Now()), cab, items) && MeetsUntyped(old(Now()), cab, items)
    {
      ids := [];
      v := CheckRailSet(cab, plate, items);
      if v.Fails? && IdsOk(rails, cab, items) {
        forall g, xs | Replaced(Now(), g, cab, plate, items, xs) ensures !InOrder(g) {
          ReplacedRails(Now(), g, cab, plate, items, xs);
          ReplacedDevices(Now(), g, cab, plate, items, xs);
        }
      }
      if v.Passes? {
        ids := StoreRails(cab, plate, items, temp);
      }
    }

    /** Ids, then the rails themselves, then the devices on them. */
    method CheckRailSet(cab: nat, plate: Plate, items: seq<RailItem>) returns (v: Verdict)
      requires InOrder(Now())
      ensures v.Raises? <==>
                && IdsOk(rails, cab, items) && Sets.SetOk(Specs(items), plate)
                && CarriersKept(Now(), cab, items) && MeetsUntyped(Now(), cab, items)
      ensures !v.Raises? ==>
                (v.Passes? <==>
                   && IdsOk(rails, cab, items) && Sets.SetOk(Specs(items), plate) && StrandsNone(Now(), cab, items))
    {
      var ok := CheckIds(cab, items);
      if !ok {
        return Fails;
      }
      var errors := Sets.RailErrors(Specs(items), plate);
      if exists i | 0 <= i < |errors| :: errors[i] != {} {
        return Fails;
      }
      v := CheckRailDevices(cab, items);
    }

    method StoreRails(cab: nat, plate: Plate, items: seq<RailItem>, temp: nat -> string) returns (ids: seq<nat>)
      requires InOrder(Now()) && cab in plates
      requires forall i | 0 <= i < |items| :: FieldsOk(items[i].spec)
      requires Spare(temp, rails, cab, items)
      requires IdsOk(rails, cab, items) && Sets.SetOk(Specs(items), plate) && StrandsNone(Now(), cab, items)
      modifies this`plates, this`rails
      ensures InOrder(Now()) && Replaced(old(Now()), Now(), cab, plate, items, ids)
    {
      SpecsApart(items, plate);
      plates := plates[cab := plate];
      ghost var dropped, history;
      ids, dropped, history := SaveRails(cab, items, temp);
      assert Replaced(old(Now()), Now(), cab, plate, items, ids);
      ReplacedRails(old(Now()), Now(), cab, plate, items, ids);
      ReplacedDevices(old(Now()), Now(), cab, plate, items, ids);
    }

    /** Creates a cabinet with its rails, or refuses when they do not fit its plate. */
    method CreateCabinet(cab: nat, plate: Plate, specs: seq<RailSpec>, temp: nat -> string) returns (ok: bool)
      requires InOrder(Now()) && cab !in plates && forall t | t in specs :: FieldsOk(t)
      requires SpareLabels(temp, rails, specs)
      modifies this`plates, this`rails
      ensures InOrder(Now())
      ensures ok <==> Sets.SetOk(specs, plate)
      ensures ok ==> exists ids :: Replaced(old(Now()), Now(), cab, plate, NewItems(specs), ids)
      ensures !ok ==> Now() == old(Now())
    {
      var errors := Sets.RailErrors(specs, plate);
      ok := forall i | 0 <= i < |errors| :: errors[i] == {};
      if !ok {
        return;
      }
      ghost var f := Now();
      var items := NewItems(specs);
      NothingStranded(f, cab, specs);
      SpecsApart(items, plate);
      plates := plates[cab := plate];
      ghost var ids, dropped, history;
      ids, dropped, history := SaveRails(cab, items, temp);
      assert Replaced(f, Now(), cab, plate, items, ids);
      ReplacedRails(f, Now(), cab, plate, items, ids);
      ReplacedDevices(f, Now(), cab, plate, items, ids);
    }

    // ----- bringing a cabinet in line with its type

    /** A rail's place after a sync, unless checking its devices fails. */
    method SpecAfterSync(r: nat, templates: seq<RailSpec>) returns (raised: bool, spec: RailSpec)
      requires InOrder(Now()) && r in rails
      ensures raised <==> ChangesUntyped(Now(), r, templates)
      ensures !raised ==> spec == SyncedSpec(Now(), r, templates)
    {
      raised, spec := false, rails[r].spec;
      var t := TemplateFor(templates, spec.name);
      if t.Some? && t.value != spec {
        var v := KeepsDevices(r, t.value);
        raised := v.Raises?;
        spec := if v.Passes? then t.value else spec;
      }
    }

    /** The rail set a sync would save, unless checking it fails on a device without a type. */
    method BuildSync(cab: nat, templates: seq<RailSpec>) returns (raised: bool, items: seq<RailItem>)
      requires InOrder(Now()) && LabelsApart(templates)
      ensures raised <==> SyncMeetsUntyped(Now(), cab, templates)
      ensures !raised ==> SyncItems(Now(), cab, templates, items)
      ensures !raised ==> forall i | 0 <= i < |items| && items[i].id.Some? ::
                            items[i].id.value in rails && TakesTemplate(Now(), items[i].id.value, templates, items[i].spec)
    {
      items := [];
      var mine := set r | r in rails && rails[r].cabinet == cab;
      var left := mine;
      while left != {}
        invariant OwnSynced(Now(), mine, left, templates, items)
        decreases |left|
      {
        var r :| r in left;
        var failed, spec := SpecAfterSync(r, templates);
        if failed {
          return true, [];
        }
        OwnSyncedStep(Now(), mine, left, templates, items, r, spec);
        items := items + [RailItem(Some(r), spec)];
        left := left - {r};
      }
      OwnSyncedDone(Now(), cab, mine, templates, items);
      items := AddMissing(cab, templates, items);
      SentTakes(Now(), cab, templates, items);
      raised := false;
    }

    lemma SentTakes(f: Floor, cab: nat, templates: seq<RailSpec>, items: seq<RailItem>)
      requires SyncItems(f, cab, templates, items) && LabelsApart(templates)
      ensures forall i | 0 <= i < |items| && items[i].id.Some? ::
                items[i].id.value in f.rails && TakesTemplate(f, items[i].id.value, templates, items[i].spec)
    {
      forall i | 0 <= i < |items| && items[i].id.Some?
        ensures items[i].id.value in f.rails && TakesTemplate(f, items[i].id.value, templates, items[i].spec)
      {
        assert Keeps(f.rails, cab, items[i]);
        SyncedSpecTakes(f, items[i].id.value, templates);
      }
    }

    /** Appends a new rail for each template whose label the cabinet lacks. */
    method AddMissing(cab: nat, templates: seq<RailSpec>, own: seq<RailItem>) returns (items: seq<RailItem>)
      requires LabelsApart(templates) && IdsApart(own)
      requires forall i | 0 <= i < |own| ::
                 own[i].id.Some? && Keeps(rails, cab, own[i]) && own[i].spec == SyncedSpec(Now(), own[i].id.value, templates)
      requires forall r | r in rails && rails[r].cabinet == cab :: KeptId(own, r)
      ensures SyncItems(Now(), cab, templates, items)
    {
      var added: seq<RailItem> := [];
      for n := 0 to |templates|
        invariant AddsMissing(Now(), cab, templates[..n], added)
      {
        var t := templates[n];
        if forall r | r in rails && rails[r].cabinet == cab :: rails[r].spec.name != t.name {
          AddedOne(Now(), cab, templates, n, added);
          added := added + [RailItem(None, t)];
        } else {
          AddedNone(Now(), cab, templates, n, added);
        }
      }
      assert templates[..|templates|] == templates;
      items := own + added;
      AddedIsSync(Now(), cab, templates, own, added);
    }

    /**
     Copies the type's plate size and adds or moves the rails its templates name; a move the devices on the
     rail would not survive is skipped, and nothing is removed. Refused as a whole exactly when the rails it
     leads to would not be in order on the plate; it fails exactly when a rail that would change carries a device without a
     type.
     */
    method SyncFromType(cab: nat, ct: CabinetType, sizes: bool, moveRails: bool, temp: nat -> string)
      returns (v: Verdict)
      requires InOrder(Now()) && cab in plates
      requires LabelsApart(ct.templates) && forall t | t in ct.templates :: FieldsOk(t)
      requires SpareLabels(temp, rails, ct.templates)
      modifies this`plates, this`rails
      ensures InOrder(Now())
      ensures var plate := if sizes then ct.size else old(plates)[cab];
              var templates := if moveRails then ct.templates else [];
              && (v.Passes? ==> Synced(old(Now()), Now(), cab, plate, templates))
              && (v.Passes? ==> TakesTemplates(old(Now()), Now(), cab, templates) && plates == old(plates)[cab := plate])
              && (!v.Passes? ==> Now() == old(Now()))
              && (v.Fails? ==> forall g | Synced(old(Now()), g, cab, plate, templates) :: !RailsInOrder(g))
              && (v.Raises? <==> SyncMeetsUntyped(old(Now()), cab, templates))
    {
      var plate := if sizes then ct.size else plates[cab];
      var templates := if moveRails then ct.templates else [];
      var raised, items := BuildSync(cab, templates);
      if raised {
        return Raises;
      }
      SyncFields(Now(), cab, templates, items);
      var errors := Sets.RailErrors(Specs(items), plate);
      if exists i | 0 <= i < |errors| :: errors[i] != {} {
        SyncDoesNotFit(Now(), cab, plate, templates, items);
        return Fails;
      }
      StoreSync(cab, plate, templates, items, moveRails, temp);
      return Passes;
    }

    lemma SyncFields(f: Floor, cab: nat, templates: seq<RailSpec>, items: seq<RailItem>)
      requires InOrder(f) && SyncItems(f, cab, templates, items) && forall t | t in templates :: FieldsOk(t)
      ensures forall i | 0 <= i < |items| :: FieldsOk(items[i].spec)
    {
      forall i | 0 <= i < |items| ensures FieldsOk(items[i].spec) {
        if items[i].id.Some? {
          assert Keeps(f.rails, cab, items[i]) && RailOnPlate(f, items[i].id.value);
        }
      }
    }

    lemma SyncDoesNotFit(f: Floor, cab: nat, plate: Plate, templates: seq<RailSpec>, items: seq<RailItem>)
      requires InOrder(f) && SyncItems(f, cab, templates, items) && !Sets.SetOk(Specs(items), plate)
      requires forall i | 0 <= i < |items| :: FieldsOk(items[i].spec)
      ensures forall g | Synced(f, g, cab, plate, templates) :: !RailsInOrder(g)
    {
      forall g | Synced(f, g, cab, plate, templates) ensures !RailsInOrder(g) {
        var ids := SyncedIsReplaced(f, g, cab, plate, templates, items);
        ReplacedRails(f, g, cab, plate, items, ids);
      }
    }

    method StoreSync(cab: nat, plate: Plate, ghost templates: seq<RailSpec>, items: seq<RailItem>, moveRails: bool,
                     temp: nat -> string)
      requires InOrder(Now()) && cab in plates && SpareLabels(temp, rails, templates)
      requires SyncItems(Now(), cab, templates, items) && Sets.SetOk(Specs(items), plate)
      requires !moveRails ==> templates == []
      requires forall i | 0 <= i < |items| :: FieldsOk(items[i].spec)
      modifies this`plates, this`rails
      ensures InOrder(Now()) && Synced(old(Now()), Now(), cab, plate, templates)
      ensures LabelsApart(templates) ==> TakesTemplates(old(Now()), Now(), cab, templates)
    {
      ghost var f := Now();
      SpecsApart(items, plate);
      SyncStrandsNone(f, cab, templates, items);
      ghost var ids;
      if moveRails {
        SyncSpares(f, cab, templates, items, temp);
        ids := StoreRails(cab, plate, items, temp);
      } else {
        plates := plates[cab := plate];
        ids := OwnIds(f, cab, items);
        ReplacedRails(f, Now(), cab, plate, items, ids);
        ReplacedDevices(f, Now(), cab, plate, items, ids);
      }
      ReplacedIsSynced(f, Now(), cab, plate, templates, items, ids);
    }

    /** The spare labels are spare for what a sync sends, and the ids it sends are right. */
    lemma SyncSpares(f: Floor, cab: nat, templates: seq<RailSpec>, items: seq<RailItem>, temp: nat -> string)
      requires InOrder(f) && SpareLabels(temp, f.rails, templates) && SyncItems(f, cab, templates, items)
      ensures Spare(temp, f.rails, cab, items) && IdsOk(f.rails, cab, items)
    {
      forall r: nat, i | 0 <= i < |items| ensures temp(r) != items[i].spec.name {
        assert items[i].id.Some? ==> Keeps(f.rails, cab, items[i]);
      }
    }

    /** Without templates a sync's rail set is the stored one. */
    lemma OwnIds(f: Floor, cab: nat, items: seq<RailItem>) returns (ids: seq<nat>)
      requires SyncItems(f, cab, [], items)
      ensures RowsReplaced(f.rails, f.rails, cab, items, ids)
    {
      ids := seq(|items|, i requires 0 <= i < |items| => if items[i].id.Some? then items[i].id.value else 0);
      forall i | 0 <= i < |items| ensures items[i].id.Some? && f.rails[ids[i]] == Rail(cab, items[i].spec) {
        assert Keeps(f.rails, cab, items[i]);
      }
      forall r | r in f.rails && f.rails[r].cabinet == cab ensures r in ids {
        assert KeptId(items, r);
        var i :| 0 <= i < |items| && items[i].id == Some(r);
        assert ids[i] == r;
      }
    }

    // ----- any run of requests

    /** Serves one request; one that names no stored row changes nothing. */
    method Serve(q: Request, temp: nat -> string)
      requires InOrder(Now()) && Validated(q) && SpareLabels(temp, rails, Labels(q))
      modifies this
      ensures InOrder(Now()) && (!q.RemoveKind? && old(AllTyped(Now())) ==> AllTyped(Now()))
      ensures SpareLabels(temp, rails, [])
    {
      if q.NewCabinet? || q.SendRails? || q.ResizePlate? || q.SyncCabinet? {
        ServeRails(q, temp);
      } else {
        ServeDevices(q);
      }
    }

    /** The requests that leave the rails alone. */
    method ServeDevices(q: Request)
      requires InOrder(Now()) && Validated(q)
      modifies this`devices, this`kinds
      ensures InOrder(Now()) && (!q.RemoveKind? && old(AllTyped(Now())) ==> AllTyped(Now()))
    {
      match q
      case MountDevice(d, kind, r, offset) =>
        if kind.None? || kind.value in kinds {
          var _ := SaveOnRail(d, kind, r, AsInt(offset));
        }
      case StoreDevice(d, kind, cabinet) =>
        if kind.None? || kind.value in kinds {
          SaveOffRail(d, kind, cabinet);
        }
      case RemoveDevice(d) =>
        DeleteDevice(d);
      case ArrangeCabinet(cab, ps) =>
        var _ := Arrange(cab, ps);
      case DefineKind(k, width, profiles) =>
        if k in kinds {
          var _ := ChangeKind(k, AsInt(width), profiles);
        } else {
          AddKind(k, Kind(AsInt(width), profiles));
        }
      case RemoveKind(k) =>
        DeleteKind(k);
      case _ =>
    }

    /** The requests that write rails. */
    method ServeRails(q: Request, temp: nat -> string)
      requires InOrder(Now()) && Validated(q) && SpareLabels(temp, rails, Labels(q))
      modifies this`plates, this`rails
      ensures InOrder(Now())
      ensures SpareLabels(temp, rails, [])
    {
      match q
      case NewCabinet(cab, plate, specs) => ServeNew(cab, plate, specs, temp);
      case SendRails(cab, plate, items) => ServeSent(cab, plate, items, temp);
      case ResizePlate(cab, plate) => ServeSync(cab, CabinetType(plate, []), true, false, temp);
      case SyncCabinet(cab, ct, sizes, moveRails) => ServeSync(cab, ct, sizes, moveRails, temp);
      case _ =>
    }

    method ServeNew(cab: nat, plate: Plate, specs: seq<RailSpec>, temp: nat -> string)
      requires InOrder(Now()) && SpareLabels(temp, rails, specs) && forall t | t in specs :: FieldsOk(t)
      modifies this`plates, this`rails
      ensures InOrder(Now()) && SpareLabels(temp, rails, [])
    {
      if cab !in plates {
        ghost var f := Now();
        var ok := CreateCabinet(cab, plate, specs, temp);
        if ok {
          ghost var ids :| Replaced(f, Now(), cab, plate, NewItems(specs), ids);
          ReplacedLabels(f, Now(), cab, plate, NewItems(specs), ids, temp, specs);
        }
      }
    }

    method ServeSent(cab: nat, plate: Plate, items: seq<RailItem>, temp: nat -> string)
      requires InOrder(Now()) && SpareLabels(temp, rails, Specs(items))
      requires forall i | 0 <= i < |items| :: FieldsOk(items[i].spec)
      modifies this`plates, this`rails
      ensures InOrder(Now()) && SpareLabels(temp, rails, [])
    {
      if cab in plates {
        ghost var f := Now();
        forall i | 0 <= i < |items| ensures items[i].spec in Specs(items) {
          assert Specs(items)[i] == items[i].spec;
        }
        var v, ids := ReplaceRails(cab, plate, items, temp);
        if v.Passes? {
          ReplacedLabels(f, Now(), cab, plate, items, ids, temp, Specs(items));
        }
      }
    }

    method ServeSync(cab: nat, ct: CabinetType, sizes: bool, moveRails: bool, temp: nat -> string)
      requires InOrder(Now()) && SpareLabels(temp, rails, ct.templates)
      requires LabelsApart(ct.templates) && forall t | t in ct.templates :: FieldsOk(t)
      modifies this`plates, this`rails
      ensures InOrder(Now()) && SpareLabels(temp, rails, [])
    {
      if cab in plates {
        ghost var f := Now();
        var v := SyncFromType(cab, ct, sizes, moveRails, temp);
        if v.Passes? {
          SyncedLabels(f, Now(), cab, if sizes then ct.size else f.plates[cab], if moveRails then ct.templates else [],
                       temp, ct.templates);
        }
      }
    }

    /**
     Every run of requests keeps every rail on its plate and every device in its place, and as long as no type is deleted
     every device on a rail has one.
     */
    method Run(qs: seq<Request>, temp: nat -> string)
      requires InOrder(Now()) && SpareLabels(temp, rails, [])
      requires forall q | q in qs :: Validated(q) && SpareLabels(temp, map[], Labels(q))
      modifies this
      ensures InOrder(Now())
      ensures old(AllTyped(Now())) && (forall q | q in qs :: !q.RemoveKind?) ==> AllTyped(Now())
    {
      for i := 0 to |qs|
        invariant InOrder(Now()) && SpareLabels(temp, rails, [])
        invariant old(AllTyped(Now())) && (forall q | q in qs :: !q.RemoveKind?) ==> AllTyped(Now())
      {
        assert Validated(qs[i]) && SpareLabels(temp, map[], Labels(qs[i]));
        Serve(qs[i], temp);
      }
    }
  }
}
