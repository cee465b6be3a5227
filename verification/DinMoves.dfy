/** What a list of placements asks for, and why checking one rail at a time decides it (api/din.py `arrange`). */
module DinMoves {
  import opened Basics
  import opened Din
  import opened DinSweep

  datatype Target = OffRail | OnRail(rail: nat)
  /** The offset as sent: absent, not a number, or rounded to tenths. */
  datatype Sent = Missing | NotANumber | Tenths(value: int)
  datatype Placement = Placement(device: Option<nat>, target: Target, offset: Sent)

  const MAX_PLACEMENTS := 500

  function MountOf(p: Placement): Option<Mount> {
    if p.target.OnRail? && p.offset.Tenths? then Some(Mount(p.target.rail, p.offset.value)) else None
  }

  /** Placement `i` names a device for the first time and, unless it takes it off, a place on one of the cabinet's rails. */
  predicate Readable(f: Floor, cab: nat, ps: seq<Placement>, i: nat)
    requires i < |ps|
  {
    var p := ps[i];
    && p.device.Some?
    && (forall j | 0 <= j < i :: ps[j].device != p.device)
    && (p.target.OnRail? ==>
          && p.target.rail in f.rails && f.rails[p.target.rail].cabinet == cab
          && p.offset.Tenths? && 0 <= p.offset.value)
  }

  predicate InCabinet(f: Floor, cab: nat, p: Placement) {
    p.device.Some? && p.device.value in f.devices && f.devices[p.device.value].cabinet == Some(cab)
  }

  predicate WellFormed(f: Floor, cab: nat, ps: seq<Placement>) {
    && 0 < |ps| <= MAX_PLACEMENTS
    && (forall i | 0 <= i < |ps| :: Readable(f, cab, ps, i))
    && (forall i | 0 <= i < |ps| :: InCabinet(f, cab, ps[i]))
  }

  ghost predicate Ticket(ps: seq<Placement>, d: nat, i: int) {
    0 <= i < |ps| && ps[i].device == Some(d)
  }

  ghost predicate Listed(ps: seq<Placement>, d: nat) {
    exists i :: Ticket(ps, d, i)
  }

  ghost function TicketOf(ps: seq<Placement>, d: nat): (i: nat)
    requires Listed(ps, d)
    ensures Ticket(ps, d, i)
  {
    var i :| Ticket(ps, d, i); i
  }

  /** The floor with every listed device where its placement puts it. */
  ghost function Moved(f: Floor, ps: seq<Placement>): Floor {
    f.(devices := map d | d in f.devices ::
         if Listed(ps, d) then f.devices[d].(mount := MountOf(ps[TicketOf(ps, d)])) else f.devices[d])
  }

  lemma TicketUnique(f: Floor, cab: nat, ps: seq<Placement>, i: nat, j: nat, d: nat)
    requires WellFormed(f, cab, ps) && Ticket(ps, d, i) && Ticket(ps, d, j)
    ensures i == j
  {
    assert Readable(f, cab, ps, i) && Readable(f, cab, ps, j);
  }

  /** Writing the placements one by one reaches the moved floor. */
  lemma MovedStep(f: Floor, cab: nat, ps: seq<Placement>, i: nat)
    requires WellFormed(f, cab, ps) && i < |ps|
    ensures ps[i].device.value in f.devices
    ensures Moved(f, ps[..i+1]) == WithMount(Moved(f, ps[..i]), ps[i].device.value, MountOf(ps[i]))
  {
    var d := ps[i].device.value;
    var a, b := ps[..i], ps[..i+1];
    assert InCabinet(f, cab, ps[i]) && Readable(f, cab, ps, i);
    assert Ticket(b, d, i);
    TicketUnique(f, cab, ps, i, TicketOf(b, d), d);
    forall e | e in f.devices && e != d ensures Moved(f, b).devices[e] == Moved(f, a).devices[e] {
      if Listed(b, e) {
        var k := TicketOf(b, e);
        assert k < i && Ticket(a, e, k);
        TicketUnique(f, cab, ps, k, TicketOf(a, e), e);
      } else if Listed(a, e) {
        assert Ticket(b, e, TicketOf(a, e));
      }
    }
  }

  /** Every listed device is where its placement says, and nothing else about the floor is different. */
  ghost predicate AsSent(f: Floor, g: Floor, ps: seq<Placement>) {
    && g == f.(devices := g.devices) && g.devices.Keys == f.devices.Keys
    && (forall d | d in f.devices :: g.devices[d] == f.devices[d].(mount := g.devices[d].mount))
    && (forall d | d in f.devices && !Listed(ps, d) :: g.devices[d].mount == f.devices[d].mount)
    && (forall d, i | Ticket(ps, d, i) && d in f.devices ::
          match ps[i].target
          case OffRail => g.devices[d].mount == None
          case OnRail(r) => ps[i].offset.Tenths? && g.devices[d].mount == Some(Mount(r, ps[i].offset.value)))
  }

  lemma MovedAsSent(f: Floor, cab: nat, ps: seq<Placement>)
    requires WellFormed(f, cab, ps)
    ensures AsSent(f, Moved(f, ps), ps)
  {
    forall d, i | Ticket(ps, d, i) && d in f.devices ensures Moved(f, ps).devices[d].mount == MountOf(ps[i]) {
      TicketUnique(f, cab, ps, i, TicketOf(ps, d), d);
    }
    forall i | 0 <= i < |ps| && ps[i].target.OnRail? ensures ps[i].offset.Tenths? {
      assert Readable(f, cab, ps, i);
    }
  }

  // ----- which devices are reported as moved

  /** The list names `d` before `e`. */
  ghost predicate Before(ps: seq<Placement>, d: nat, e: nat) {
    exists i, j :: i < j && Ticket(ps, d, i) && Ticket(ps, e, j)
  }

  /** Device `d` has another place in `g` than in `f`, or its placement takes it off the rails and names an offset all the same. */
  ghost predicate Moves(f: Floor, g: Floor, ps: seq<Placement>, d: nat, i: int) {
    && Ticket(ps, d, i) && d in f.devices && d in g.devices
    && (f.devices[d].mount != g.devices[d].mount || (ps[i].target.OffRail? && !ps[i].offset.Missing?))
  }

  /** `moved` holds each listed device that moves from `f` to `g` once, in the list's order, and no other. */
  ghost predicate NamesMoved(f: Floor, g: Floor, ps: seq<Placement>, moved: seq<nat>) {
    && (forall d :: d in moved <==> exists i :: Moves(f, g, ps, d, i))
    && (forall j, k | 0 <= j < k < |moved| :: moved[j] != moved[k] && Before(ps, moved[j], moved[k]))
  }

  /** Placement `i` asks for another place than its device has, or for none with an offset. */
  predicate Told(f: Floor, ps: seq<Placement>, i: int)
    requires 0 <= i < |ps| && ps[i].device.Some? && ps[i].device.value in f.devices
  {
    var to := MountOf(ps[i]);
    f.devices[ps[i].device.value].mount != to || (to.None? && !ps[i].offset.Missing?)
  }

  /** `moved` names the devices that the first `n` placements are told to move; `at` are those placements. */
  ghost predicate Reports(f: Floor, cab: nat, ps: seq<Placement>, n: nat, moved: seq<nat>, at: seq<nat>)
    requires WellFormed(f, cab, ps) && n <= |ps|
  {
    && |at| == |moved| && (forall j, k | 0 <= j < k < |at| :: at[j] < at[k])
    && (forall j | 0 <= j < |at| :: at[j] < n && Ticket(ps, moved[j], at[j]))
    && (forall i | 0 <= i < n :: InCabinet(f, cab, ps[i]) && (i in at <==> Told(f, ps, i)))
  }

  lemma ReportStep(f: Floor, cab: nat, ps: seq<Placement>, n: nat, moved: seq<nat>, at: seq<nat>)
    requires WellFormed(f, cab, ps) && n < |ps| && Reports(f, cab, ps, n, moved, at) && InCabinet(f, cab, ps[n])
    ensures if Told(f, ps, n) then Reports(f, cab, ps, n + 1, moved + [ps[n].device.value], at + [n])
            else Reports(f, cab, ps, n + 1, moved, at)
  {
    assert Ticket(ps, ps[n].device.value, n);
    assert (at + [n])[|at|] == n;
  }

  lemma ReportsAll(f: Floor, cab: nat, ps: seq<Placement>, moved: seq<nat>, at: seq<nat>)
    requires WellFormed(f, cab, ps) && Reports(f, cab, ps, |ps|, moved, at)
    ensures NamesMoved(f, Moved(f, ps), ps, moved)
  {
    var g := Moved(f, ps);
    forall d, i | Ticket(ps, d, i) ensures InCabinet(f, cab, ps[i]) && (Told(f, ps, i) <==> Moves(f, g, ps, d, i)) {
      assert InCabinet(f, cab, ps[i]) && Readable(f, cab, ps, i);
      TicketUnique(f, cab, ps, i, TicketOf(ps, d), d);
    }
    forall d ensures d in moved <==> exists i :: Moves(f, g, ps, d, i) {
      if d in moved {
        var j :| 0 <= j < |moved| && moved[j] == d;
        assert at[j] in at && Moves(f, g, ps, d, at[j]);
      }
      forall i | Moves(f, g, ps, d, i) ensures d in moved {
        assert i in at;
        var j :| 0 <= j < |at| && at[j] == i;
        assert moved[j] == d;
      }
    }
    forall j, k | 0 <= j < k < |moved| ensures moved[j] != moved[k] && Before(ps, moved[j], moved[k]) {
      assert at[j] < at[k] && Ticket(ps, moved[j], at[j]) && Ticket(ps, moved[k], at[k]);
      if moved[j] == moved[k] {
        TicketUnique(f, cab, ps, at[j], at[k], moved[j]);
      }
    }
  }

  /** A device keeps its place until its own placement is written. */
  lemma NotYetMoved(f: Floor, cab: nat, ps: seq<Placement>, i: nat)
    requires WellFormed(f, cab, ps) && i < |ps|
    ensures InCabinet(f, cab, ps[i])
    ensures Moved(f, ps[..i]).devices[ps[i].device.value] == f.devices[ps[i].device.value]
  {
    var d := ps[i].device.value;
    assert InCabinet(f, cab, ps[i]);
    if Listed(ps[..i], d) {
      var j := TicketOf(ps[..i], d);
      assert Ticket(ps, d, j) && Ticket(ps, d, i);
      TicketUnique(f, cab, ps, j, i, d);
    }
  }

  // ----- one rail at a time

  function KindOf(f: Floor, d: nat): Option<Kind>
    requires d in f.devices
  {
    var k := f.devices[d].kind;
    if k.Some? && k.value in f.kinds then Some(f.kinds[k.value]) else None
  }

  /** `on` is rail `r` of floor `g` as the sweep sees it, with the tickets of `ps`. */
  ghost predicate Pictures(g: Floor, ps: seq<Placement>, r: nat, on: seq<Item>) {
    && (forall j, k | 0 <= j < k < |on| :: on[j].at <= on[k].at && on[j].dev != on[k].dev)
    && (forall k | 0 <= k < |on| :: PicturesOne(g, ps, r, on[k]))
    && (forall d | IsOn(g, d, r) :: Shown(on, d))
  }

  ghost predicate PicturesOne(g: Floor, ps: seq<Placement>, r: nat, i: Item) {
    && IsOn(g, i.dev, r) && Start(g, i.dev) == i.at && KindOf(g, i.dev) == i.kind
    && (i.ticket.None? <==> !Listed(ps, i.dev))
    && (i.ticket.Some? ==> Ticket(ps, i.dev, i.ticket.value))
  }

  ghost predicate Shown(on: seq<Item>, d: nat) {
    exists k :: 0 <= k < |on| && on[k].dev == d
  }

  lemma MovedIsOn(f: Floor, cab: nat, ps: seq<Placement>, d: nat, r: nat)
    requires InOrder(f) && WellFormed(f, cab, ps) && r in f.rails && IsOn(Moved(f, ps), d, r)
    ensures f.devices[d].cabinet == Some(f.rails[r].cabinet)
    ensures 0 <= Start(Moved(f, ps), d)
    ensures f.rails[r].cabinet != cab ==> !Listed(ps, d)
    ensures !Listed(ps, d) ==> IsOn(f, d, r) && f.devices[d] == Moved(f, ps).devices[d]
  {
    if Listed(ps, d) {
      var i := TicketOf(ps, d);
      assert Readable(f, cab, ps, i) && InCabinet(f, cab, ps[i]);
    } else {
      assert IsOn(f, d, r) && RailSeats(f, r) && Seated(f, d, r);
    }
  }

  ghost predicate WidthsPositive(f: Floor) {
    forall k | k in f.kinds && f.kinds[k].width.Some? :: 0 < f.kinds[k].width.value
  }

  lemma PictureIsSweepable(g: Floor, ps: seq<Placement>, r: nat, on: seq<Item>)
    requires WidthsPositive(g) && Pictures(g, ps, r, on)
    ensures Sweepable(on)
  {
    forall k | 0 <= k < |on| && on[k].kind.Some? && on[k].kind.value.width.Some?
      ensures 0 < on[k].kind.value.width.value
    {
      assert PicturesOne(g, ps, r, on[k]);
    }
  }

  /** Device `d` is of a type that mounts on rail `r`. */
  predicate Mounts(g: Floor, d: nat, r: nat)
    requires d in g.devices && r in g.rails
  {
    KindOf(g, d).Some? && Mountable(KindOf(g, d).value, g.rails[r].spec.profile)
  }

  ghost predicate ListedFit(g: Floor, ps: seq<Placement>, r: nat)
    requires r in g.rails
  {
    forall d | IsOn(g, d, r) && Listed(ps, d) :: Mounts(g, d, r) && End(g, d) <= g.rails[r].spec.length
  }

  ghost predicate ListedClear(g: Floor, ps: seq<Placement>, r: nat)
    requires r in g.rails
  {
    forall d, e | IsOn(g, d, r) && IsOn(g, e, r) && d != e && Listed(ps, d) && Mounts(g, d, r) && Mounts(g, e, r) ::
      Disjoint(g, d, e)
  }

  /**
   Every listed device on rail `r` mounts on it, lies inside it and keeps clear of the other devices that mount on it.
   Devices nobody listed are left to themselves, even one whose type was deleted.
   */
  ghost predicate Accepts(g: Floor, ps: seq<Placement>, r: nat)
    requires r in g.rails
  {
    ListedFit(g, ps, r) && ListedClear(g, ps, r)
  }

  /** What the sweep asks of a rail's picture is what the rail's devices must meet. */
  lemma PictureDecides(g: Floor, ps: seq<Placement>, r: nat, on: seq<Item>)
    requires r in g.rails && Pictures(g, ps, r, on)
    ensures MovedFit(g.rails[r].spec, on) && MovedClear(g.rails[r].spec, on) <==> Accepts(g, ps, r)
  {
    PictureFits(g, ps, r, on);
    if MovedClear(g.rails[r].spec, on) {
      forall d, e | IsOn(g, d, r) && IsOn(g, e, r) && d != e && Listed(ps, d) && Mounts(g, d, r) && Mounts(g, e, r)
        ensures Disjoint(g, d, e)
      {
        assert Shown(on, d) && Shown(on, e);
        var j :| 0 <= j < |on| && on[j].dev == d;
        var k :| 0 <= k < |on| && on[k].dev == e;
        PictureClear(g, ps, r, on, j, k);
      }
    }
    if ListedClear(g, ps, r) {
      forall j, k | 0 <= j < k < |on| && (on[j].ticket.Some? || on[k].ticket.Some?)
        ensures !Collide(g.rails[r].spec, on[j], on[k])
      {
        PictureClear(g, ps, r, on, j, k);
        PictureClear(g, ps, r, on, k, j);
      }
    }
  }

  lemma PictureFits(g: Floor, ps: seq<Placement>, r: nat, on: seq<Item>)
    requires r in g.rails && Pictures(g, ps, r, on)
    ensures MovedFit(g.rails[r].spec, on) <==> ListedFit(g, ps, r)
  {
    if MovedFit(g.rails[r].spec, on) {
      forall d | IsOn(g, d, r) && Listed(ps, d) ensures Mounts(g, d, r) && End(g, d) <= g.rails[r].spec.length {
        assert Shown(on, d);
        var k :| 0 <= k < |on| && on[k].dev == d;
        assert PicturesOne(g, ps, r, on[k]) && Fits(on[k], g.rails[r].spec);
      }
    }
    if ListedFit(g, ps, r) {
      forall k | 0 <= k < |on| && on[k].ticket.Some? ensures Fits(on[k], g.rails[r].spec) {
        assert PicturesOne(g, ps, r, on[k]);
      }
    }
  }

  /** Two items collide exactly when their devices mount on the rail and overlap. */
  lemma PictureClear(g: Floor, ps: seq<Placement>, r: nat, on: seq<Item>, j: nat, k: nat)
    requires r in g.rails && Pictures(g, ps, r, on) && j < |on| && k < |on| && j != k
    ensures IsOn(g, on[j].dev, r) && IsOn(g, on[k].dev, r) && on[j].dev != on[k].dev
    ensures Collide(g.rails[r].spec, on[j], on[k]) == Collide(g.rails[r].spec, on[k], on[j])
    ensures Collide(g.rails[r].spec, on[j], on[k]) <==>
            Mounts(g, on[j].dev, r) && Mounts(g, on[k].dev, r) && !Disjoint(g, on[j].dev, on[k].dev)
    ensures on[j].ticket.Some? <==> Listed(ps, on[j].dev)
  {
    assert PicturesOne(g, ps, r, on[j]) && PicturesOne(g, ps, r, on[k]);
  }

  ghost predicate ListedTyped(g: Floor, ps: seq<Placement>, r: nat) {
    forall d | IsOn(g, d, r) && Listed(ps, d) :: Typed(g, d)
  }

  /**
   On a floor in order, a rail's devices meet this exactly when the rail they end up on is in order and the listed ones
   have a type.
   */
  lemma AcceptsIsSeats(f: Floor, cab: nat, ps: seq<Placement>, r: nat)
    requires InOrder(f) && WellFormed(f, cab, ps) && r in f.rails
    ensures Accepts(Moved(f, ps), ps, r) <==> RailSeats(Moved(f, ps), r) && ListedTyped(Moved(f, ps), ps, r)
  {
    var g := Moved(f, ps);
    if Accepts(g, ps, r) {
      forall d | IsOn(g, d, r) ensures Seated(g, d, r) {
        MovedIsOn(f, cab, ps, d, r);
        assert Listed(ps, d) ==> Mounts(g, d, r);
        assert !Listed(ps, d) ==> RailSeats(f, r) && Seated(f, d, r);
      }
      forall d, e | IsOn(g, d, r) && IsOn(g, e, r) && d != e && Typed(g, d) && Typed(g, e) ensures Disjoint(g, d, e) {
        AcceptedApart(f, cab, ps, r, d, e);
      }
    }
    if RailSeats(g, r) && ListedTyped(g, ps, r) {
      assert forall d | IsOn(g, d, r) :: Seated(g, d, r) && (Typed(g, d) <==> Mounts(g, d, r));
    }
  }

  lemma AcceptedApart(f: Floor, cab: nat, ps: seq<Placement>, r: nat, d: nat, e: nat)
    requires InOrder(f) && WellFormed(f, cab, ps) && r in f.rails && Accepts(Moved(f, ps), ps, r)
    requires IsOn(Moved(f, ps), d, r) && IsOn(Moved(f, ps), e, r) && d != e
    requires Seated(Moved(f, ps), d, r) && Seated(Moved(f, ps), e, r)
    requires Typed(Moved(f, ps), d) && Typed(Moved(f, ps), e)
    ensures Disjoint(Moved(f, ps), d, e)
  {
    var g := Moved(f, ps);
    MovedIsOn(f, cab, ps, d, r);
    MovedIsOn(f, cab, ps, e, r);
    if Listed(ps, d) {
      assert Mounts(g, d, r) && Mounts(g, e, r);
    } else if Listed(ps, e) {
      assert Mounts(g, d, r) && Mounts(g, e, r) && Disjoint(g, e, d);
    } else {
      assert RailSeats(f, r) && Disjoint(f, d, e);
    }
  }

  /** Every device the placements put on a rail has a type. */
  ghost predicate TypedMoves(f: Floor, cab: nat, ps: seq<Placement>)
    requires WellFormed(f, cab, ps)
  {
    forall i | 0 <= i < |ps| && ps[i].target.OnRail? :: InCabinet(f, cab, ps[i]) && Typed(f, ps[i].device.value)
  }

  lemma TypedMovesAreListed(f: Floor, cab: nat, ps: seq<Placement>)
    requires WellFormed(f, cab, ps)
    ensures TypedMoves(f, cab, ps) <==>
            forall r | r in f.rails && f.rails[r].cabinet == cab :: ListedTyped(Moved(f, ps), ps, r)
  {
    var g := Moved(f, ps);
    if TypedMoves(f, cab, ps) {
      forall r, d | r in f.rails && f.rails[r].cabinet == cab && IsOn(g, d, r) && Listed(ps, d) ensures Typed(g, d) {
        var i := TicketOf(ps, d);
        assert Readable(f, cab, ps, i) && ps[i].target.OnRail?;
      }
    }
    if forall r | r in f.rails && f.rails[r].cabinet == cab :: ListedTyped(g, ps, r) {
      forall i | 0 <= i < |ps| && ps[i].target.OnRail? ensures InCabinet(f, cab, ps[i]) && Typed(f, ps[i].device.value) {
        ListedIsOn(f, cab, ps, i);
      }
    }
  }

  lemma MovedTyped(f: Floor, cab: nat, ps: seq<Placement>)
    requires WellFormed(f, cab, ps) && AllTyped(f) && TypedMoves(f, cab, ps)
    ensures AllTyped(Moved(f, ps))
  {
    var g := Moved(f, ps);
    forall d | d in g.devices && g.devices[d].mount.Some? ensures Typed(g, d) {
      if Listed(ps, d) {
        assert Readable(f, cab, ps, TicketOf(ps, d)) && ps[TicketOf(ps, d)].target.OnRail?;
      } else {
        assert Typed(f, d);
      }
    }
  }

  /** A placement onto a rail puts its device there. */
  lemma ListedIsOn(f: Floor, cab: nat, ps: seq<Placement>, i: nat)
    requires WellFormed(f, cab, ps) && i < |ps| && ps[i].target.OnRail?
    ensures InCabinet(f, cab, ps[i]) && ps[i].target.rail in f.rails && f.rails[ps[i].target.rail].cabinet == cab
    ensures Listed(ps, ps[i].device.value) && IsOn(Moved(f, ps), ps[i].device.value, ps[i].target.rail)
    ensures Moved(f, ps).devices[ps[i].device.value].kind == f.devices[ps[i].device.value].kind
  {
    var d := ps[i].device.value;
    assert Readable(f, cab, ps, i) && InCabinet(f, cab, ps[i]) && Ticket(ps, d, i);
    TicketUnique(f, cab, ps, i, TicketOf(ps, d), d);
  }

  /**
   On a floor in order the whole arrangement is accepted exactly when it leaves the floor in order and puts only devices
   with a type on rails.
   */
  lemma AcceptsIsOrder(f: Floor, cab: nat, ps: seq<Placement>)
    requires InOrder(f) && WellFormed(f, cab, ps)
    ensures (forall r | r in f.rails && f.rails[r].cabinet == cab :: Accepts(Moved(f, ps), ps, r)) <==>
            InOrder(Moved(f, ps)) && TypedMoves(f, cab, ps)
  {
    forall r | r in f.rails
      ensures Accepts(Moved(f, ps), ps, r) <==> RailSeats(Moved(f, ps), r) && ListedTyped(Moved(f, ps), ps, r)
    {
      AcceptsIsSeats(f, cab, ps, r);
    }
    OnlyThisCabinetMatters(f, cab, ps);
    TypedMovesAreListed(f, cab, ps);
  }

  /** The moved floor is in order exactly when each rail of this one cabinet is. */
  lemma OnlyThisCabinetMatters(f: Floor, cab: nat, ps: seq<Placement>)
    requires InOrder(f) && WellFormed(f, cab, ps)
    ensures InOrder(Moved(f, ps)) <==>
            forall r | r in f.rails && f.rails[r].cabinet == cab :: RailSeats(Moved(f, ps), r)
  {
    var g := Moved(f, ps);
    assert RailsInOrder(g) by {
      assert forall r | r in f.rails :: RailOnPlate(f, r) ==> RailOnPlate(g, r);
    }
    forall d | d in g.devices && g.devices[d].mount.Some? ensures g.devices[d].mount.value.rail in g.rails {
      if Listed(ps, d) {
        assert Readable(f, cab, ps, TicketOf(ps, d));
      }
    }
    forall r | r in f.rails && f.rails[r].cabinet != cab ensures RailSeats(g, r) {
      forall d | IsOn(g, d, r) ensures Seated(g, d, r) && f.devices[d] == g.devices[d] && IsOn(f, d, r) {
        MovedIsOn(f, cab, ps, d, r);
        assert RailSeats(f, r) && Seated(f, d, r);
      }
      forall d, e | IsOn(g, d, r) && IsOn(g, e, r) && d != e && Typed(g, d) && Typed(g, e) ensures Disjoint(g, d, e) {
        assert Seated(g, d, r) && Seated(g, e, r);
        assert RailSeats(f, r) && Disjoint(f, d, e);
      }
    }
  }
}
