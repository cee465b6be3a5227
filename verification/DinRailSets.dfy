/** A plate's rails checked as a set (api/din.py `rail_errors`). */
module DinRailSets {
  import opened Din

  datatype RailFault = NameTaken | PastRightEdge | AbovePlate | BelowPlate | OverlapsRail(name: string)

  /** Every rail inside the plate, and any two apart. */
  ghost predicate SetOk(rails: seq<RailSpec>, plate: Plate) {
    && (forall i | 0 <= i < |rails| :: WithinPlate(rails[i], plate))
    && (forall i, j | 0 <= j < i < |rails| :: Apart(rails[i], rails[j]))
  }

  /** Rail `j` is the first that rail `i` runs into. */
  ghost predicate FirstToClash(rails: seq<RailSpec>, i: nat, j: int)
    requires i < |rails|
  {
    0 <= j < i && Clash(rails[i], rails[j]) && forall k | 0 <= k < j :: !Clash(rails[i], rails[k])
  }

  /** What is wrong with rail `i` as far as the rails before it and the plate say. */
  ghost predicate FaultsOf(rails: seq<RailSpec>, plate: Plate, i: nat, faults: set<RailFault>)
    requires i < |rails|
  {
    var r := rails[i];
    && (NameTaken in faults <==> exists j :: 0 <= j < i && rails[j].name == r.name)
    && (PastRightEdge in faults <==> plate.width < r.x + r.length)
    && (AbovePlate in faults <==> Top(r) < 0)
    && (BelowPlate in faults <==> 0 <= Top(r) && plate.height < Bottom(r))
    && (forall n | OverlapsRail(n) in faults :: exists j :: FirstToClash(rails, i, j) && rails[j].name == n)
    && ((forall n :: OverlapsRail(n) !in faults) <==> forall j | 0 <= j < i :: !Clash(r, rails[j]))
  }

  /** The faults of each rail, in input order. */
  method RailErrors(rails: seq<RailSpec>, plate: Plate) returns (errors: seq<set<RailFault>>)
    ensures |errors| == |rails|
    ensures forall i | 0 <= i < |rails| :: FaultsOf(rails, plate, i, errors[i])
    ensures (forall i | 0 <= i < |rails| :: errors[i] == {}) <==> SetOk(rails, plate)
  {
    errors := [];
    var seen: set<string> := {};
    for i := 0 to |rails|
      invariant |errors| == i
      invariant seen == set j | 0 <= j < i :: rails[j].name
      invariant forall k | 0 <= k < i :: FaultsOf(rails, plate, k, errors[k])
    {
      var r := rails[i];
      var err := {};
      if r.name in seen {
        err := err + {NameTaken};
      }
      seen := seen + {r.name};
      if r.x + r.length > plate.width {
        err := err + {PastRightEdge};
      }
      if Top(r) < 0 {
        err := err + {AbovePlate};
      } else if Bottom(r) > plate.height {
        err := err + {BelowPlate};
      }
      var o := FirstClash(rails, i);
      if o < i {
        err := err + {OverlapsRail(rails[o].name)};
      }
      assert o == i || (OverlapsRail(rails[o].name) in err && FirstToClash(rails, i, o));
      assert FaultsOf(rails, plate, i, err);
      errors := errors + [err];
    }
    FaultlessIsOk(rails, plate, errors);
  }

  /** The first rail before `i` that rail `i` overlaps, or `i`. */
  method FirstClash(rails: seq<RailSpec>, i: nat) returns (o: nat)
    requires i < |rails|
    ensures o <= i
    ensures o < i ==> Clash(rails[i], rails[o])
    ensures forall j | 0 <= j < o :: !Clash(rails[i], rails[j])
  {
    o := 0;
    while o < i && !Clash(rails[i], rails[o])
      invariant o <= i && forall j | 0 <= j < o :: !Clash(rails[i], rails[j])
    {
      o := o + 1;
    }
  }

  lemma FaultlessIsOk(rails: seq<RailSpec>, plate: Plate, errors: seq<set<RailFault>>)
    requires |errors| == |rails|
    requires forall i | 0 <= i < |rails| :: FaultsOf(rails, plate, i, errors[i])
    ensures (forall i | 0 <= i < |rails| :: errors[i] == {}) <==> SetOk(rails, plate)
  {
    if SetOk(rails, plate) {
      forall i | 0 <= i < |rails| ensures errors[i] == {} {
        assert FaultsOf(rails, plate, i, errors[i]);
        assert forall j | 0 <= j < i :: Apart(rails[i], rails[j]);
        forall f ensures f !in errors[i] {
          match f {
            case OverlapsRail(n) => assert OverlapsRail(n) !in errors[i];
            case _ =>
          }
        }
      }
    }
    if forall i | 0 <= i < |rails| :: errors[i] == {} {
      forall i | 0 <= i < |rails| ensures WithinPlate(rails[i], plate) {
        assert FaultsOf(rails, plate, i, errors[i]);
      }
      forall i, j | 0 <= j < i < |rails| ensures Apart(rails[i], rails[j]) {
        assert FaultsOf(rails, plate, i, errors[i]);
      }
    }
  }

  // ----- the area a rail takes

  /** Height of the band a rail of each profile takes. */
  function BandHeight(p: Profile): int {
    match p
    case Ts35 => 350
    case Ts15 => 150
    case G32 => 320
  }

  /** The square of a tenth of a millimetre at (`x`, `y`) is the rail's: within its length and around its centreline. */
  ghost predicate Takes(r: RailSpec, x: int, y: int) {
    r.x <= x && x + 1 <= r.x + r.length && -BandHeight(r.profile) <= 2 * (y - r.y) && 2 * (y + 1 - r.y) <= BandHeight(r.profile)
  }

  ghost predicate OnThePlate(p: Plate, x: int, y: int) {
    0 <= x && x + 1 <= p.width && 0 <= y && y + 1 <= p.height
  }

  /** Two rails clash exactly when some square belongs to both. */
  lemma ClashIsShared(a: RailSpec, b: RailSpec)
    requires FieldsOk(a) && FieldsOk(b)
    ensures Clash(a, b) <==> exists x, y :: Takes(a, x, y) && Takes(b, x, y)
  {
    if Clash(a, b) {
      var x := if a.x < b.x then b.x else a.x;
      var y := if Top(a) < Top(b) then Top(b) else Top(a);
      assert Takes(a, x, y) && Takes(b, x, y);
    }
  }

  /** A rail is within its plate exactly when every square of it is. */
  lemma WithinIsAllOfIt(r: RailSpec, p: Plate)
    requires FieldsOk(r)
    ensures WithinPlate(r, p) <==> forall x, y | Takes(r, x, y) :: OnThePlate(p, x, y)
  {
    if forall x, y | Takes(r, x, y) :: OnThePlate(p, x, y) {
      assert Takes(r, r.x, Top(r)) && Takes(r, r.x + r.length - 1, Bottom(r) - 1);
    }
  }
}
