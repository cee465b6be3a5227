/** One rail of a rearranged cabinet, checked by a single pass from left to right (api/din.py `arrange`). */
module DinSweep {
  import opened Basics
  import opened Din

  /** A device of the final arrangement; `ticket` is the placement that moved it. */
  datatype Item = Item(dev: nat, at: int, kind: Option<Kind>, ticket: Option<nat>)

  datatype Fault = NoType | WrongProfile | PastEnd | OverlapsDevice(other: nat)

  /** The item's type mounts on the rail. */
  predicate Has(i: Item, rail: RailSpec) {
    i.kind.Some? && Mountable(i.kind.value, rail.profile)
  }

  predicate Fits(i: Item, rail: RailSpec) {
    Has(i, rail) && Reach(i) <= rail.length
  }

  /** Right end of an item whose type has a width. */
  function Reach(i: Item): int
    requires i.kind.Some? && i.kind.value.width.Some?
  {
    i.at + i.kind.value.width.value
  }

  /** Two devices that mount on the rail overlap. */
  ghost predicate Collide(rail: RailSpec, a: Item, b: Item) {
    Has(a, rail) && Has(b, rail) && Overlaps(a.at, Reach(a), b.at, Reach(b))
  }

  /** Every moved device mounts on the rail and lies inside it. */
  ghost predicate MovedFit(rail: RailSpec, on: seq<Item>) {
    forall k | 0 <= k < |on| && on[k].ticket.Some? :: Fits(on[k], rail)
  }

  /** No moved device overlaps another one that mounts on the rail. */
  ghost predicate MovedClear(rail: RailSpec, on: seq<Item>) {
    forall j, k | 0 <= j < k < |on| && (on[j].ticket.Some? || on[k].ticket.Some?) :: !Collide(rail, on[j], on[k])
  }

  /** Ordered by offset, widths positive. */
  ghost predicate Sweepable(on: seq<Item>) {
    && (forall j, k | 0 <= j < k < |on| :: on[j].at <= on[k].at)
    && (forall k | 0 <= k < |on| && on[k].kind.Some? && on[k].kind.value.width.Some? :: 0 < on[k].kind.value.width.value)
  }

  /** The fault says something true about the device its placement moved. */
  ghost predicate Real(rail: RailSpec, on: seq<Item>, ticket: nat, fault: Fault) {
    exists k :: 0 <= k < |on| && on[k].ticket == Some(ticket) && RealAt(rail, on, k, fault)
  }

  ghost predicate RealAt(rail: RailSpec, on: seq<Item>, k: nat, fault: Fault)
    requires k < |on|
  {
    match fault
    case NoType => on[k].kind.None? || on[k].kind.value.profiles == {} || on[k].kind.value.width.None?
    case WrongProfile => on[k].kind.Some? && rail.profile !in on[k].kind.value.profiles
    case PastEnd => on[k].kind.Some? && on[k].kind.value.width.Some? && rail.length < Reach(on[k])
    case OverlapsDevice(other) => exists j :: 0 <= j < |on| && j != k && on[j].dev == other && Collide(rail, on[j], on[k])
  }

  /** `prev` reaches furthest among the first `n` items that mount on the rail; the moved ones fit and keep clear. */
  ghost predicate Clear(rail: RailSpec, on: seq<Item>, n: nat, prev: Option<nat>)
    requires n <= |on|
  {
    && (forall k | 0 <= k < n && on[k].ticket.Some? :: Fits(on[k], rail))
    && (forall j, k | 0 <= j < k < n && (on[j].ticket.Some? || on[k].ticket.Some?) :: !Collide(rail, on[j], on[k]))
    && (forall k | 0 <= k < n && Has(on[k], rail) :: prev.Some?)
    && Furthest(rail, on, n, prev)
  }

  ghost predicate Furthest(rail: RailSpec, on: seq<Item>, n: nat, prev: Option<nat>)
    requires n <= |on|
  {
    prev.Some? ==>
      && prev.value < n && Has(on[prev.value], rail)
      && forall k | 0 <= k < n && Has(on[k], rail) :: Reach(on[k]) <= Reach(on[prev.value])
  }

  /**
   Walks a rail's devices by offset, comparing each only with the one that reaches furthest so far, and charging each
   fault to a placement. Devices nobody moved may lack a type, be of another profile or overlap each other: a fault is
   found exactly when some moved device does not fit or overlaps another one.
   */
  method Sweep(rail: RailSpec, on: seq<Item>) returns (faults: set<(nat, Fault)>)
    requires Sweepable(on)
    ensures faults == {} <==> MovedFit(rail, on) && MovedClear(rail, on)
    ensures forall f | f in faults :: Real(rail, on, f.0, f.1)
  {
    faults := {};
    var prev: Option<nat> := None;
    for n := 0 to |on|
      invariant forall f | f in faults :: Real(rail, on, f.0, f.1)
      invariant prev.Some? ==> prev.value < n && Has(on[prev.value], rail)
      invariant faults == {} ==> Clear(rail, on, n, prev)
    {
      var found;
      found, prev := Judge(rail, on, n, prev);
      faults := faults + found;
    }
    if faults != {} {
      var f :| f in faults;
      RealMeansWrong(rail, on, f.0, f.1);
    }
  }

  /** One device against the rail and the one that reaches furthest so far. */
  method Judge(rail: RailSpec, on: seq<Item>, n: nat, prev: Option<nat>)
    returns (faults: set<(nat, Fault)>, next: Option<nat>)
    requires n < |on| && Sweepable(on) && (prev.Some? ==> prev.value < n && Has(on[prev.value], rail))
    ensures forall f | f in faults :: Real(rail, on, f.0, f.1)
    ensures next.Some? ==> next.value < n + 1 && Has(on[next.value], rail)
    ensures faults == {} && Clear(rail, on, n, prev) ==> Clear(rail, on, n + 1, next)
  {
    faults, next := {}, prev;
    var d := on[n];
    if !Has(d, rail) {
      if d.ticket.Some? {
        var fault := if d.kind.None? || d.kind.value.profiles == {} || d.kind.value.width.None? then NoType else WrongProfile;
        assert RealAt(rail, on, n, fault);
        faults := {(d.ticket.value, fault)};
      }
      return;
    }
    if Reach(d) > rail.length && d.ticket.Some? {
      assert RealAt(rail, on, n, PastEnd);
      faults := faults + {(d.ticket.value, PastEnd)};
    }
    if prev.Some? && d.at < Reach(on[prev.value]) {
      var blamed := Blame(rail, on, n, prev.value);
      faults := faults + blamed;
    }
    if faults == {} && Clear(rail, on, n, prev) {
      ClearOn(rail, on, n, prev);
    }
    if prev.None? || Reach(d) > Reach(on[prev.value]) {
      next := Some(n);
    }
  }

  /** The later of two devices that overlap takes the fault, else the moved one, else nobody. */
  method Blame(rail: RailSpec, on: seq<Item>, n: nat, p: nat) returns (faults: set<(nat, Fault)>)
    requires p < n < |on| && Sweepable(on) && Has(on[n], rail) && Has(on[p], rail) && on[n].at < Reach(on[p])
    ensures forall f | f in faults :: Real(rail, on, f.0, f.1)
    ensures faults == {} <==> on[n].ticket.None? && on[p].ticket.None?
  {
    assert Collide(rail, on[p], on[n]) && Collide(rail, on[n], on[p]);
    if on[n].ticket.Some? {
      assert RealAt(rail, on, n, OverlapsDevice(on[p].dev));
      return {(on[n].ticket.value, OverlapsDevice(on[p].dev))};
    } else if on[p].ticket.Some? {
      assert RealAt(rail, on, p, OverlapsDevice(on[n].dev));
      return {(on[p].ticket.value, OverlapsDevice(on[n].dev))};
    }
    return {};
  }

  /** A moved device keeps clear of the one that reaches furthest. */
  lemma ClearOfFurthest(rail: RailSpec, on: seq<Item>, n: nat, p: nat, j: nat)
    requires n <= |on| && Clear(rail, on, n, Some(p)) && j < n && on[j].ticket.Some? && Has(on[j], rail)
    ensures Reach(on[j]) <= Reach(on[p])
    ensures j != p ==> !Overlaps(on[p].at, Reach(on[p]), on[j].at, Reach(on[j]))
  {
    if j < p {
      assert !Collide(rail, on[j], on[p]);
    } else if p < j {
      assert !Collide(rail, on[p], on[j]);
    }
  }

  /** Had a moved device come as far as the next one, it would overlap the one that reaches furthest. */
  lemma ClearOn(rail: RailSpec, on: seq<Item>, n: nat, prev: Option<nat>)
    requires n < |on| && Sweepable(on) && Clear(rail, on, n, prev) && Has(on[n], rail)
    requires on[n].ticket.Some? ==> Fits(on[n], rail)
    requires prev.Some? && on[n].at < Reach(on[prev.value]) ==> on[n].ticket.None? && on[prev.value].ticket.None?
    ensures Clear(rail, on, n + 1, if prev.None? || Reach(on[n]) > Reach(on[prev.value]) then Some(n) else prev)
  {
    forall j | 0 <= j < n && (on[j].ticket.Some? || on[n].ticket.Some?) ensures !Collide(rail, on[j], on[n]) {
      if Has(on[j], rail) && on[j].ticket.Some? {
        ClearOfFurthest(rail, on, n, prev.value, j);
      }
    }
  }

  lemma RealMeansWrong(rail: RailSpec, on: seq<Item>, ticket: nat, fault: Fault)
    requires Real(rail, on, ticket, fault)
    ensures !(MovedFit(rail, on) && MovedClear(rail, on))
  {
    var k :| 0 <= k < |on| && on[k].ticket == Some(ticket) && RealAt(rail, on, k, fault);
    match fault {
      case OverlapsDevice(other) =>
        var j :| 0 <= j < |on| && j != k && on[j].dev == other && Collide(rail, on[j], on[k]);
        assert if j < k then Collide(rail, on[j], on[k]) else Collide(rail, on[k], on[j]);
      case _ =>
        assert !Fits(on[k], rail);
    }
  }
}
