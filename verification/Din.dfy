/**
 DIN rails on mounting plates and devices on rails (api/din.py): the stored rows
 and what it means for them to be in order. Lengths are in tenths of a millimetre.
 */
module Din {
  import opened Basics

  datatype Profile = Ts35 | Ts15 | G32

  /** The fields of a rail that a caller writes. */
  datatype RailSpec = RailSpec(name: string, profile: Profile, x: int, y: int, length: int)
  datatype Rail = Rail(cabinet: nat, spec: RailSpec)
  datatype Plate = Plate(width: int, height: int)

  datatype Kind = Kind(width: Option<int>, profiles: set<Profile>)
  datatype Mount = Mount(rail: nat, offset: int)
  datatype Device = Device(cabinet: Option<nat>, kind: Option<nat>, mount: Option<Mount>)

  /** Every row the rules look at, keyed by id. */
  datatype Floor = Floor(
    plates: map<nat, Plate>, rails: map<nat, Rail>, kinds: map<nat, Kind>, devices: map<nat, Device>)

  // ----- geometry

  /** Two stretches share more than an end. */
  predicate Overlaps(aLo: int, aHi: int, bLo: int, bHi: int) {
    aLo < bHi && bLo < aHi
  }

  function HalfHeight(p: Profile): int {
    match p
    case Ts35 => 175
    case Ts15 => 75
    case G32 => 160
  }

  function Top(r: RailSpec): int { r.y - HalfHeight(r.profile) }

  function Bottom(r: RailSpec): int { r.y + HalfHeight(r.profile) }

  predicate Clash(a: RailSpec, b: RailSpec) {
    && Overlaps(a.x, a.x + a.length, b.x, b.x + b.length)
    && Overlaps(Top(a), Bottom(a), Top(b), Bottom(b))
  }

  /** Inside the plate's right, top and bottom edges. */
  predicate WithinPlate(r: RailSpec, p: Plate) {
    r.x + r.length <= p.width && 0 <= Top(r) && Bottom(r) <= p.height
  }

  /** What the field validators of a rail enforce on their own. */
  predicate FieldsOk(r: RailSpec) {
    0 <= r.x && 100 <= r.length
  }

  predicate Apart(a: RailSpec, b: RailSpec) {
    a.name != b.name && !Clash(a, b)
  }

  // ----- rails in order

  ghost predicate RailOnPlate(f: Floor, r: nat)
    requires r in f.rails
  {
    && f.rails[r].cabinet in f.plates
    && FieldsOk(f.rails[r].spec)
    && WithinPlate(f.rails[r].spec, f.plates[f.rails[r].cabinet])
  }

  ghost predicate RailsInOrder(f: Floor) {
    && (forall r | r in f.rails :: RailOnPlate(f, r))
    && (forall r, s | r in f.rails && s in f.rails && r != s && f.rails[r].cabinet == f.rails[s].cabinet ::
          Apart(f.rails[r].spec, f.rails[s].spec))
  }

  // ----- devices in order

  predicate IsOn(f: Floor, d: nat, r: nat) {
    d in f.devices && f.devices[d].mount.Some? && f.devices[d].mount.value.rail == r
  }

  /** A type that mounts on `profile`, with its width known. */
  predicate Mountable(k: Kind, profile: Profile) {
    k.width.Some? && profile in k.profiles
  }

  /** The device's width, 0 where its type has none. */
  function Width(f: Floor, d: nat): int
    requires d in f.devices
  {
    var k := f.devices[d].kind;
    if k.Some? && k.value in f.kinds && f.kinds[k.value].width.Some? then f.kinds[k.value].width.value else 0
  }

  function Start(f: Floor, d: nat): int
    requires d in f.devices && f.devices[d].mount.Some?
  {
    f.devices[d].mount.value.offset
  }

  function End(f: Floor, d: nat): int
    requires d in f.devices && f.devices[d].mount.Some?
  {
    Start(f, d) + Width(f, d)
  }

  /** Device `d` is in rail `r`'s cabinet and inside the rail; if it still has its type, that mounts there. */
  ghost predicate Seated(f: Floor, d: nat, r: nat)
    requires r in f.rails && IsOn(f, d, r)
  {
    var dev := f.devices[d];
    && dev.cabinet == Some(f.rails[r].cabinet)
    && (dev.kind.Some? ==> dev.kind.value in f.kinds && Mountable(f.kinds[dev.kind.value], f.rails[r].spec.profile))
    && 0 <= Start(f, d) && End(f, d) <= f.rails[r].spec.length
  }

  predicate Typed(f: Floor, d: nat)
    requires d in f.devices
  {
    f.devices[d].kind.Some?
  }

  ghost predicate Disjoint(f: Floor, d: nat, e: nat)
    requires d in f.devices && f.devices[d].mount.Some?
    requires e in f.devices && f.devices[e].mount.Some?
  {
    !Overlaps(Start(f, d), End(f, d), Start(f, e), End(f, e))
  }

  ghost predicate RailSeats(f: Floor, r: nat)
    requires r in f.rails
  {
    && (forall d | IsOn(f, d, r) :: Seated(f, d, r))
    && (forall d, e | IsOn(f, d, r) && IsOn(f, e, r) && d != e && Typed(f, d) && Typed(f, e) :: Disjoint(f, d, e))
  }

  ghost predicate KindsOk(f: Floor) {
    && (forall k | k in f.kinds && f.kinds[k].width.Some? :: 0 < f.kinds[k].width.value)
    && (forall d | d in f.devices && f.devices[d].kind.Some? :: f.devices[d].kind.value in f.kinds)
  }

  ghost predicate DevicesInOrder(f: Floor) {
    && (forall d | d in f.devices && f.devices[d].mount.Some? :: f.devices[d].mount.value.rail in f.rails)
    && (forall r | r in f.rails :: RailSeats(f, r))
  }

  /**
   Every rail on its plate and apart from the others; every device inside its rail, and those that have a type on rails
   they mount on and clear of each other.
   */
  ghost predicate InOrder(f: Floor) {
    KindsOk(f) && RailsInOrder(f) && DevicesInOrder(f)
  }

  /** Every device on a rail has a type: true of every floor until a type is deleted. */
  ghost predicate AllTyped(f: Floor) {
    forall d | d in f.devices && f.devices[d].mount.Some? :: Typed(f, d)
  }

  /** `f` with device `d` put at `m`, or taken off its rail. */
  function WithMount(f: Floor, d: nat, m: Option<Mount>): Floor
    requires d in f.devices
  {
    f.(devices := f.devices[d := f.devices[d].(mount := m)])
  }

  // ----- a rail's devices, left to right

  /** One row of the rail's devices ordered by offset. */
  datatype Spot = Spot(dev: nat, at: int)

  ghost predicate Sorted(s: seq<Spot>) {
    forall i, j | 0 <= i < j < |s| :: s[i].at <= s[j].at
  }

  ghost predicate Distinct(s: seq<Spot>) {
    forall i, j | 0 <= i < j < |s| :: s[i].dev != s[j].dev
  }

  /** `s` lists exactly the devices that `mounts` puts on rail `r`, by offset. */
  ghost predicate Lists(mounts: map<nat, Option<Mount>>, r: nat, s: seq<Spot>) {
    && Sorted(s)
    && Distinct(s)
    && (forall k | 0 <= k < |s| :: s[k].dev in mounts && mounts[s[k].dev] == Some(Mount(r, s[k].at)))
    && (forall d | d in mounts && mounts[d].Some? && mounts[d].value.rail == r :: Named(s, d))
  }

  ghost predicate Named(s: seq<Spot>, d: nat) {
    exists k :: 0 <= k < |s| && s[k].dev == d
  }

  /** The device of `left` with the smallest offset. */
  method Leftmost(mounts: map<nat, Option<Mount>>, left: set<nat>) returns (d: nat)
    requires left != {}
    requires forall e | e in left :: e in mounts && mounts[e].Some?
    ensures d in left
    ensures forall e | e in left :: mounts[d].value.offset <= mounts[e].value.offset
  {
    d :| d in left;
    var rest := left - {d};
    while rest != {}
      invariant d in left && rest <= left
      invariant forall e | e in left - rest :: mounts[d].value.offset <= mounts[e].value.offset
      decreases |rest|
    {
      var e :| e in rest;
      if mounts[e].value.offset < mounts[d].value.offset {
        d := e;
      }
      rest := rest - {e};
    }
  }

  /** The devices of `mounts` on rail `r`, ordered by offset. */
  method DevicesOn(mounts: map<nat, Option<Mount>>, r: nat) returns (s: seq<Spot>)
    ensures Lists(mounts, r, s)
  {
    s := [];
    var on := set d | d in mounts && mounts[d].Some? && mounts[d].value.rail == r;
    var left := on;
    while left != {}
      invariant left <= on
      invariant Sorted(s) && Distinct(s)
      invariant forall k | 0 <= k < |s| :: s[k].dev in on - left && mounts[s[k].dev] == Some(Mount(r, s[k].at))
      invariant forall k, d | 0 <= k < |s| && d in left :: s[k].at <= mounts[d].value.offset
      invariant forall d | d in on - left :: Named(s, d)
      decreases |left|
    {
      var d := Leftmost(mounts, left);
      ghost var was := s;
      s := s + [Spot(d, mounts[d].value.offset)];
      left := left - {d};
      forall e | e in on - left ensures Named(s, e) {
        if e == d {
          assert s[|was|].dev == e;
        } else {
          assert Named(was, e);
          var k :| 0 <= k < |was| && was[k].dev == e;
          assert s[k].dev == e;
        }
      }
    }
  }
}
