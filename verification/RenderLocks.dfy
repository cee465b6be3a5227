/**
 The locks a PDF is made under (api/drawing_pdf.py `take`, `release`, `take_slot`, `render_guarded`): one a user and
 RENDER_SLOTS for the deployment, kept as expiring keys of a shared cache. Every cache call is a step of its own, and the
 steps of all renders interleave with each other and with the clock.

 A take's random token is modelled as the number of the render that drew it: a render takes each key at most once.
 */
module RenderLocks {

  const RENDER_SLOTS: nat := 2
  const RENDER_LOCK_TTL := 30 + 60

  type Id = nat

  datatype LockKey = UserKey(user: nat) | SlotKey(slot: nat)

  datatype Entry = Entry(token: Id, until: int)

  /** Where a render stands in `render_guarded`: the cache call it makes next, or the render itself. */
  datatype Phase =
    | Asking
    | Trying(slot: nat)
    | Rendering
    | ReadingSlot
    | DeletingSlot
    | ReadingUser
    | DeletingUser
    | Refused
    | Done
    | Killed(last: Phase)

  /** `userUntil` and `slotUntil` are when the locks it took run out. */
  datatype Render = Render(user: nat, phase: Phase, userUntil: int, slot: nat, slotUntil: int)

  datatype State = State(clock: int, cache: map<LockKey, Entry>, renders: map<Id, Render>)

  const START := State(0, map[], map[])

  // ----- the cache

  /** `cache.get`: an entry that has run out is not there. */
  predicate Taken(s: State, key: LockKey) { key in s.cache && s.clock < s.cache[key].until }

  predicate TakenBy(s: State, key: LockKey, id: Id) { Taken(s, key) && s.cache[key].token == id }

  /** `cache.add` where it succeeds. */
  function Add(s: State, key: LockKey, id: Id): State {
    s.(cache := s.cache[key := Entry(id, s.clock + RENDER_LOCK_TTL)])
  }

  /** `cache.delete`, which takes whatever is there. */
  function Delete(s: State, key: LockKey): State { s.(cache := s.cache - {key}) }

  // ----- the steps

  datatype Event = Begin(id: Id, user: nat) | Go(id: Id) | Kill(id: Id) | Tick(seconds: nat)

  function Put(s: State, id: Id, r: Render): State { s.(renders := s.renders[id := r]) }

  function TryUser(s: State, id: Id, r: Render): State {
    if Taken(s, UserKey(r.user)) then Put(s, id, r.(phase := Refused))
    else Put(Add(s, UserKey(r.user), id), id, r.(phase := Trying(0), userUntil := s.clock + RENDER_LOCK_TTL))
  }

  /** One round of the loop over the slots; behind the last, the refusal gives the user's lock back. */
  function TrySlot(s: State, id: Id, r: Render, slot: nat): State {
    if slot >= RENDER_SLOTS then Put(s, id, r.(phase := ReadingUser))
    else if Taken(s, SlotKey(slot)) then Put(s, id, r.(phase := Trying(slot + 1)))
    else Put(Add(s, SlotKey(slot), id), id, r.(phase := Rendering, slot := slot, slotUntil := s.clock + RENDER_LOCK_TTL))
  }

  /** The next step of one render. */
  function Gone(s: State, id: Id, r: Render): State {
    match r.phase
    case Asking => TryUser(s, id, r)
    case Trying(slot) => TrySlot(s, id, r, slot)
    case Rendering => Put(s, id, r.(phase := ReadingSlot))
    case ReadingSlot => Put(s, id, r.(phase := if TakenBy(s, SlotKey(r.slot), id) then DeletingSlot else ReadingUser))
    case DeletingSlot => Put(Delete(s, SlotKey(r.slot)), id, r.(phase := ReadingUser))
    case ReadingUser => Put(s, id, r.(phase := if TakenBy(s, UserKey(r.user), id) then DeletingUser else Done))
    case DeletingUser => Put(Delete(s, UserKey(r.user)), id, r.(phase := Done))
    case _ => s
  }

  predicate Alive(r: Render) { !r.phase.Killed? }

  predicate Enabled(s: State, e: Event) {
    match e
    case Begin(id, _) => id !in s.renders
    case Go(id) => id in s.renders && Alive(s.renders[id])
    case Kill(id) => id in s.renders && Alive(s.renders[id])
    case Tick(_) => true
  }

  function Next(s: State, e: Event): State
    requires Enabled(s, e)
  {
    match e
    case Begin(id, user) => Put(s, id, Render(user, Asking, 0, 0, 0))
    case Go(id) => Gone(s, id, s.renders[id])
    case Kill(id) => Put(s, id, s.renders[id].(phase := Killed(s.renders[id].phase)))
    case Tick(seconds) => s.(clock := s.clock + seconds)
  }

  /** The state after every event in turn; an event that is not enabled does nothing. */
  function Run(s: State, events: seq<Event>): State
    decreases |events|
  {
    if events == [] then s else Run(if Enabled(s, events[0]) then Next(s, events[0]) else s, events[1..])
  }

  // ----- what every run keeps

  predicate HasUser(p: Phase) {
    match p
    case Killed(last) => HasUser(last)
    case Asking | Refused | Done => false
    case _ => true
  }

  predicate HasSlot(p: Phase) {
    match p
    case Killed(last) => HasSlot(last)
    case Rendering | ReadingSlot | DeletingSlot => true
    case _ => false
  }

  /** An entry that has not run out is that of the render that put it there, or put it there before it was killed. */
  predicate EntryOk(s: State, key: LockKey) {
    Taken(s, key) ==>
      var e := s.cache[key];
      && e.until <= s.clock + RENDER_LOCK_TTL
      && e.token in s.renders
      && match key
         case UserKey(user) =>
           var r := s.renders[e.token];
           r.user == user && HasUser(r.phase) && r.userUntil == e.until
         case SlotKey(slot) =>
           var r := s.renders[e.token];
           r.slot == slot && HasSlot(r.phase) && r.slotUntil == e.until
  }

  predicate RecordOk(s: State, r: Render) {
    && r.userUntil <= s.clock + RENDER_LOCK_TTL
    && (r.phase.Rendering? ==> r.userUntil <= r.slotUntil)
    && (HasSlot(r.phase) ==> r.slot < RENDER_SLOTS)
  }

  ghost predicate Owned(s: State) {
    && 0 <= s.clock
    && (forall id | id in s.renders :: RecordOk(s, s.renders[id]))
    && (forall key: LockKey :: EntryOk(s, key))
  }

  /** A step of one render: only its own record and its own entries need looking at. */
  lemma OwnedByOthers(s: State, t: State, id: Id, key: LockKey)
    requires Owned(s) && id in s.renders && id in t.renders
    requires t == State(s.clock, t.cache, s.renders[id := t.renders[id]])
    requires forall k | k != key :: (k in t.cache <==> k in s.cache) && (k in s.cache ==> t.cache[k] == s.cache[k])
    requires RecordOk(t, t.renders[id]) && EntryOk(t, key)
    requires EntryOk(t, UserKey(s.renders[id].user)) && EntryOk(t, SlotKey(s.renders[id].slot))
    ensures Owned(t)
  {
    forall k: LockKey ensures EntryOk(t, k) {
      assert EntryOk(s, k);
    }
  }

  lemma TryOwned(s: State, id: Id)
    requires Owned(s) && id in s.renders && (s.renders[id].phase.Asking? || s.renders[id].phase.Trying?)
    ensures Owned(Next(s, Go(id)))
  {
    var t, r := Next(s, Go(id)), s.renders[id];
    var key := if r.phase.Asking? then UserKey(r.user) else SlotKey(r.phase.slot);
    assert RecordOk(s, r);
    assert EntryOk(s, key) && EntryOk(s, UserKey(r.user)) && EntryOk(s, SlotKey(r.slot));
    OwnedByOthers(s, t, id, key);
  }

  lemma EndOwned(s: State, id: Id)
    requires Owned(s) && id in s.renders && Alive(s.renders[id])
    requires !s.renders[id].phase.Asking? && !s.renders[id].phase.Trying?
    ensures Owned(Next(s, Go(id)))
  {
    var t, r := Next(s, Go(id)), s.renders[id];
    var key := if HasSlot(r.phase) then SlotKey(r.slot) else UserKey(r.user);
    assert RecordOk(s, r);
    assert EntryOk(s, UserKey(r.user)) && EntryOk(s, SlotKey(r.slot));
    OwnedByOthers(s, t, id, key);
  }

  /** Whatever the clock does, an entry is never anybody's but the render's that took it. */
  lemma StepOwned(s: State, e: Event)
    requires Owned(s) && Enabled(s, e)
    ensures Owned(Next(s, e))
  {
    if e.Go? {
      if s.renders[e.id].phase.Asking? || s.renders[e.id].phase.Trying? {
        TryOwned(s, e.id);
      } else {
        EndOwned(s, e.id);
      }
    } else {
      var t := Next(s, e);
      forall id | id in t.renders ensures RecordOk(t, t.renders[id]) {
        assert id in s.renders ==> RecordOk(s, s.renders[id]);
      }
      forall key: LockKey ensures EntryOk(t, key) {
        assert EntryOk(s, key);
      }
    }
  }

  lemma {:induction false} RunOwned(s: State, events: seq<Event>)
    requires Owned(s)
    ensures Owned(Run(s, events))
    decreases |events|
  {
    if events != [] {
      if Enabled(s, events[0]) {
        StepOwned(s, events[0]);
        RunOwned(Next(s, events[0]), events[1..]);
      } else {
        RunOwned(s, events[1..]);
      }
    }
  }

  // ----- what the locks are for

  /** The two promises: a release deletes only its own lock, and the limits on renders at work. */
  datatype Promise = OwnReleases | Limits

  function Working(s: State): set<Id> {
    set id | id in s.renders && s.renders[id].phase == Rendering
  }

  /** The key a render's next step deletes, and another's entry there that has not run out. */
  predicate DeletesAnothers(s: State, id: Id) {
    id in s.renders &&
    var r := s.renders[id];
    || (r.phase.DeletingSlot? && Taken(s, SlotKey(r.slot)) && !TakenBy(s, SlotKey(r.slot), id))
    || (r.phase.DeletingUser? && Taken(s, UserKey(r.user)) && !TakenBy(s, UserKey(r.user), id))
  }

  predicate SameUser(s: State, a: Id, b: Id) {
    a in Working(s) && b in Working(s) && s.renders[a].user == s.renders[b].user
  }

  ghost predicate Kept(s: State, promise: Promise) {
    match promise
    case OwnReleases => forall id :: !DeletesAnothers(s, id)
    case Limits => |Working(s)| <= RENDER_SLOTS && forall a, b | SameUser(s, a, b) :: a == b
  }

  // ----- lateness

  /** The phases in which a promise needs the user's lock. */
  predicate NeedsUser(p: Phase, promise: Promise) {
    p.DeletingUser? || (promise.Limits? && (p.Rendering? || (p.Trying? && p.slot < RENDER_SLOTS)))
  }

  predicate NeedsSlot(p: Phase, promise: Promise) {
    p.DeletingSlot? || (promise.Limits? && p.Rendering?)
  }

  /** Between two times the render's lock runs out while it is needed; while rendering the user's runs out first. */
  predicate RunsOut(r: Render, from: int, to: int, promise: Promise) {
    || (NeedsUser(r.phase, promise) && from < r.userUntil <= to)
    || (r.phase.DeletingSlot? && from < r.slotUntil <= to)
  }

  /** A tick that carries a render which needs a lock to that lock's own end. */
  predicate Late(s: State, e: Event, promise: Promise) {
    e.Tick? && exists id :: id in s.renders && RunsOut(s.renders[id], s.clock, s.clock + e.seconds, promise)
  }

  /** No tick of the run is late. */
  predicate OnTime(s: State, events: seq<Event>, promise: Promise)
    decreases |events|
  {
    events != [] ==>
      if Enabled(s, events[0]) then !Late(s, events[0], promise) && OnTime(Next(s, events[0]), events[1..], promise)
      else OnTime(s, events[1..], promise)
  }

  /** However the run goes on, as long as no further tick is late, the promise holds. */
  ghost predicate Safe(s: State, promise: Promise) {
    forall more | OnTime(s, more, promise) :: Kept(Run(s, more), promise)
  }

  // ----- on time the promises are kept

  /** The entry is there, unchanged. */
  predicate Holds(s: State, key: LockKey, id: Id, until: int) {
    key in s.cache && s.cache[key] == Entry(id, until) && s.clock < until
  }

  predicate Secured(s: State, id: Id, r: Render, promise: Promise) {
    && (NeedsUser(r.phase, promise) ==> Holds(s, UserKey(r.user), id, r.userUntil))
    && (NeedsSlot(r.phase, promise) ==> Holds(s, SlotKey(r.slot), id, r.slotUntil))
  }

  /** Every render holds the locks it needs. */
  ghost predicate Sound(s: State, promise: Promise) {
    Owned(s) && forall id | id in s.renders :: Secured(s, id, s.renders[id], promise)
  }

  /** A step of one render takes no other's lock away. */
  lemma GoSparesOthers(s: State, id: Id, other: Id, promise: Promise)
    requires Sound(s, promise) && Enabled(s, Go(id)) && other in s.renders && other != id
    ensures Secured(Next(s, Go(id)), other, s.renders[other], promise)
  {
    assert Secured(s, id, s.renders[id], promise) && Secured(s, other, s.renders[other], promise);
  }

  lemma GoSecures(s: State, id: Id, promise: Promise)
    requires Sound(s, promise) && Enabled(s, Go(id))
    ensures Secured(Next(s, Go(id)), id, Next(s, Go(id)).renders[id], promise)
  {
    var r := s.renders[id];
    assert Secured(s, id, r, promise) && RecordOk(s, r);
    assert EntryOk(s, UserKey(r.user)) && EntryOk(s, SlotKey(r.slot));
  }

  lemma GoSound(s: State, id: Id, promise: Promise)
    requires Sound(s, promise) && Enabled(s, Go(id))
    ensures Sound(Next(s, Go(id)), promise)
  {
    var t := Next(s, Go(id));
    StepOwned(s, Go(id));
    GoSecures(s, id, promise);
    forall other | other in t.renders ensures Secured(t, other, t.renders[other], promise) {
      if other != id {
        GoSparesOthers(s, id, other, promise);
      }
    }
  }

  lemma StepSound(s: State, e: Event, promise: Promise)
    requires Sound(s, promise) && Enabled(s, e) && !Late(s, e, promise)
    ensures Sound(Next(s, e), promise)
  {
    if e.Go? {
      GoSound(s, e.id, promise);
    } else {
      var t := Next(s, e);
      StepOwned(s, e);
      forall id | id in t.renders ensures Secured(t, id, t.renders[id], promise) {
        assert id in s.renders ==> Secured(s, id, s.renders[id], promise) && RecordOk(s, s.renders[id]);
        assert id in s.renders && e.Tick? ==> !RunsOut(s.renders[id], s.clock, s.clock + e.seconds, promise);
      }
    }
  }

  lemma {:induction false} RunSound(s: State, events: seq<Event>, promise: Promise)
    requires Sound(s, promise) && OnTime(s, events, promise)
    ensures Sound(Run(s, events), promise)
    decreases |events|
  {
    if events != [] {
      if Enabled(s, events[0]) {
        StepSound(s, events[0], promise);
        RunSound(Next(s, events[0]), events[1..], promise);
      } else {
        RunSound(s, events[1..], promise);
      }
    }
  }

  /** A set whose members sit on different slots is no larger than the number of slots. */
  lemma {:induction false} OneASlot(ids: set<Id>, at: map<Id, nat>, slots: nat)
    requires forall id | id in ids :: id in at && at[id] < slots
    requires forall a, b | a in ids && b in ids && at[a] == at[b] :: a == b
    ensures |ids| <= slots
    decreases slots
  {
    if slots > 0 {
      if id :| id in ids && at[id] == slots - 1 {
        OneASlot(ids - {id}, at, slots - 1);
      } else {
        OneASlot(ids, at, slots - 1);
      }
    } else {
      assert forall id | id in ids :: at[id] < 0;
      assert ids == {};
    }
  }

  /** Renders that hold what they need keep the promise. */
  lemma SoundKeeps(s: State, promise: Promise)
    requires Sound(s, promise)
    ensures Kept(s, promise)
  {
    forall id | id in s.renders ensures Secured(s, id, s.renders[id], promise) && RecordOk(s, s.renders[id]) {}
    if promise.Limits? {
      OneASlot(Working(s), map id | id in s.renders :: s.renders[id].slot, RENDER_SLOTS);
    }
  }

  // ----- runs put together

  lemma {:induction false} RunInTwo(s: State, first: seq<Event>, second: seq<Event>)
    ensures Run(s, first + second) == Run(Run(s, first), second)
    decreases |first|
  {
    if first == [] {
      assert first + second == second;
    } else {
      assert (first + second)[1..] == first[1..] + second;
      RunInTwo(if Enabled(s, first[0]) then Next(s, first[0]) else s, first[1..], second);
    }
  }

  lemma {:induction false} OnTimeInTwo(s: State, first: seq<Event>, second: seq<Event>, promise: Promise)
    ensures OnTime(s, first + second, promise) <==> OnTime(s, first, promise) && OnTime(Run(s, first), second, promise)
    decreases |first|
  {
    if first == [] {
      assert first + second == second;
    } else {
      assert (first + second)[1..] == first[1..] + second;
      OnTimeInTwo(if Enabled(s, first[0]) then Next(s, first[0]) else s, first[1..], second, promise);
    }
  }

  ghost predicate NoTicks(events: seq<Event>) { forall e | e in events :: !e.Tick? }

  lemma {:induction false} NoTicksOnTime(s: State, events: seq<Event>, promise: Promise)
    requires NoTicks(events)
    ensures OnTime(s, events, promise)
    decreases |events|
  {
    if events != [] {
      NoTicksOnTime(if Enabled(s, events[0]) then Next(s, events[0]) else s, events[1..], promise);
    }
  }

  // ----- a late tick lets a promise be broken

  /** Nobody but `id` is alive, and every lock is free. */
  ghost predicate Stage(v: State, id: Id) {
    && id in v.renders && Alive(v.renders[id])
    && (forall other | other in v.renders && other != id :: !Alive(v.renders[other]))
    && (forall key: LockKey :: !Taken(v, key))
  }

  /** Kills the given renders. */
  lemma {:induction false} KillOthers(u: State, left: set<Id>, id: Id) returns (events: seq<Event>)
    requires left <= u.renders.Keys && id !in left && id in u.renders
    ensures NoTicks(events)
    ensures var t := Run(u, events);
            && t.clock == u.clock && t.cache == u.cache && t.renders.Keys == u.renders.Keys
            && t.renders[id] == u.renders[id]
            && forall x | x in u.renders :: !Alive(t.renders[x]) || (x !in left && t.renders[x] == u.renders[x])
    decreases |left|
  {
    if left == {} {
      events := [];
    } else {
      var x :| x in left;
      var next := if Enabled(u, Kill(x)) then Next(u, Kill(x)) else u;
      var rest := KillOthers(next, left - {x}, id);
      events := [Kill(x)] + rest;
      assert events[1..] == rest;
    }
  }

  /** The others are killed and their locks run out. */
  lemma ClearStage(u: State, id: Id, promise: Promise) returns (events: seq<Event>)
    requires Owned(u) && id in u.renders && Alive(u.renders[id])
    requires !RunsOut(u.renders[id], u.clock, u.clock + RENDER_LOCK_TTL, promise)
    ensures OnTime(u, events, promise) && Stage(Run(u, events), id)
    ensures Run(u, events).renders[id] == u.renders[id]
  {
    var kills := KillOthers(u, u.renders.Keys - {id}, id);
    var wait := [Tick(RENDER_LOCK_TTL)];
    var t := Run(u, kills);
    events := kills + wait;
    NoTicksOnTime(u, kills, promise);
    RunInTwo(u, kills, wait);
    OnTimeInTwo(u, kills, wait, promise);
    assert wait[1..] == [];
    assert OnTime(t, wait, promise);
    forall key: LockKey ensures !Taken(Run(t, wait), key) {
      assert EntryOk(u, key);
    }
  }

  /** A newcomer asks for its user's lock and tries the slots up to `slot`. */
  function Joining(id: Id, user: nat, slot: nat): seq<Event> {
    [Begin(id, user), Go(id), Go(id)] + if slot == 0 then [] else [Go(id)]
  }

  function Joined(v: State, id: Id, user: nat, slot: nat): State {
    var e := Entry(id, v.clock + RENDER_LOCK_TTL);
    v.(cache := v.cache[UserKey(user) := e][SlotKey(slot) := e],
       renders := v.renders[id := Render(user, Rendering, e.until, slot, e.until)])
  }

  lemma TwoSteps(s: State, a: Event, b: Event, rest: seq<Event>)
    requires Enabled(s, a) && Enabled(Next(s, a), b)
    ensures Run(s, [a, b] + rest) == Run(Next(Next(s, a), b), rest)
  {
    assert ([a, b] + rest)[1..] == [b] + rest;
    assert ([b] + rest)[1..] == rest;
  }

  /** It ends at work in that slot when the earlier one is taken and the two locks are free. */
  lemma Joins(v: State, id: Id, user: nat, slot: nat)
    requires id !in v.renders && !Taken(v, UserKey(user)) && slot < RENDER_SLOTS && !Taken(v, SlotKey(slot))
    requires slot == 1 ==> Taken(v, SlotKey(0))
    ensures Run(v, Joining(id, user, slot)) == Joined(v, id, user, slot)
  {
    var a := Next(v, Begin(id, user));
    var b := Next(a, Go(id));
    var rest := [Go(id)] + if slot == 0 then [] else [Go(id)];
    assert Joining(id, user, slot) == [Begin(id, user), Go(id)] + rest;
    TwoSteps(v, Begin(id, user), Go(id), rest);
    assert b.renders == v.renders[id := Render(user, Trying(0), v.clock + RENDER_LOCK_TTL, 0, 0)];
    if slot == 0 {
      assert rest == [Go(id)] && rest[1..] == [];
    } else {
      assert rest == [Go(id), Go(id)] + [];
      TwoSteps(b, Go(id), Go(id), []);
    }
  }

  lemma {:induction false} SomeBound(ids: set<Id>) returns (n: Id)
    ensures forall x | x in ids :: x < n
    decreases |ids|
  {
    if ids == {} {
      n := 0;
    } else {
      var x :| x in ids;
      var m := SomeBound(ids - {x});
      n := if x < m then m else x + 1;
      assert forall y | y in ids :: y == x || y in ids - {x};
    }
  }

  lemma OthersFree(v: State, id: Id, user: nat, slot: nat, key: LockKey)
    requires !Taken(v, key) && key != UserKey(user) && key != SlotKey(slot)
    ensures !Taken(Joined(v, id, user, slot), key)
  {
  }

  /** Two newcomers of users 0 and 1 take both slots. */
  lemma BothTaken(v: State, id: Id, n: Id) returns (events: seq<Event>)
    requires Stage(v, id) && forall x | x in v.renders :: x < n
    ensures NoTicks(events)
    ensures Run(v, events) == Joined(Joined(v, n, 0, 0), n + 1, 1, 1)
  {
    events := Joining(n, 0, 0) + Joining(n + 1, 1, 1);
    Joins(v, n, 0, 0);
    OthersFree(v, n, 0, 0, UserKey(1));
    OthersFree(v, n, 0, 0, SlotKey(1));
    Joins(Joined(v, n, 0, 0), n + 1, 1, 1);
    RunInTwo(v, Joining(n, 0, 0), Joining(n + 1, 1, 1));
  }

  lemma LateReleaseHarms(v: State, id: Id) returns (events: seq<Event>)
    requires Stage(v, id) && (v.renders[id].phase.DeletingUser? || v.renders[id].phase.DeletingSlot?)
    requires v.renders[id].phase.DeletingSlot? ==> v.renders[id].slot < RENDER_SLOTS
    ensures NoTicks(events) && !Kept(Run(v, events), OwnReleases)
  {
    var n := SomeBound(v.renders.Keys);
    if v.renders[id].phase.DeletingUser? {
      events := Joining(n, v.renders[id].user, 0);
      Joins(v, n, v.renders[id].user, 0);
    } else {
      events := BothTaken(v, id, n);
    }
    assert DeletesAnothers(Run(v, events), id);
  }

  lemma ThreeAtWork(t: State, a: Id, b: Id, c: Id)
    requires a in Working(t) && b in Working(t) && c in Working(t) && a != b && b != c && a != c
    ensures !Kept(t, Limits)
  {
    var rest := Working(t) - {a, b, c};
    assert Working(t) == rest + {a, b, c};
  }

  /** A release that is about to delete a slot's entry makes room for a third. */
  lemma LateSlotHarms(v: State, id: Id) returns (events: seq<Event>)
    requires Stage(v, id) && v.renders[id].phase.DeletingSlot? && v.renders[id].slot < RENDER_SLOTS
    ensures NoTicks(events) && !Kept(Run(v, events), Limits)
  {
    var n := SomeBound(v.renders.Keys);
    var first := BothTaken(v, id, n);
    OthersFree(v, n, 0, 0, UserKey(2));
    OthersFree(Joined(v, n, 0, 0), n + 1, 1, 1, UserKey(2));
    var last := ThirdJoins(Joined(Joined(v, n, 0, 0), n + 1, 1, 1), id, n);
    events := first + last;
    RunInTwo(v, first, last);
  }

  lemma ThirdJoins(full: State, id: Id, n: Id) returns (events: seq<Event>)
    requires id in full.renders && id < n && n + 2 !in full.renders && !Taken(full, UserKey(2))
    requires full.renders[id].phase.DeletingSlot? && full.renders[id].slot < RENDER_SLOTS
    requires Taken(full, SlotKey(0)) && Taken(full, SlotKey(1))
    requires n in Working(full) && n + 1 in Working(full)
    ensures NoTicks(events) && !Kept(Run(full, events), Limits)
  {
    var slot := full.renders[id].slot;
    var free, last := Next(full, Go(id)), Joining(n + 2, 2, slot);
    events := [Go(id)] + last;
    assert events[1..] == last;
    assert free.cache == full.cache - {SlotKey(slot)} && !Taken(free, SlotKey(slot)) && !Taken(free, UserKey(2));
    Joins(free, n + 2, 2, slot);
    ThreeAtWork(Joined(free, n + 2, 2, slot), n, n + 1, n + 2);
  }

  /** A release that is about to delete the user's entry makes room for another of the user's. */
  lemma LateUserHarms(v: State, id: Id) returns (events: seq<Event>)
    requires Stage(v, id) && v.renders[id].phase.DeletingUser?
    ensures NoTicks(events) && !Kept(Run(v, events), Limits)
  {
    var n := SomeBound(v.renders.Keys);
    var user := v.renders[id].user;
    var first := Joining(n, user, 0);
    Joins(v, n, user, 0);
    OthersFree(v, n, user, 0, SlotKey(1));
    var last := SecondJoins(Joined(v, n, user, 0), id, n, user);
    events := first + last;
    RunInTwo(v, first, last);
  }

  lemma SecondJoins(one: State, id: Id, n: Id, user: nat) returns (events: seq<Event>)
    requires id in one.renders && id < n && one.renders[id].phase.DeletingUser? && one.renders[id].user == user
    requires n + 1 !in one.renders && n in Working(one) && one.renders[n].user == user
    requires Taken(one, SlotKey(0)) && !Taken(one, SlotKey(1))
    ensures NoTicks(events) && !Kept(Run(one, events), Limits)
  {
    var free, last := Next(one, Go(id)), Joining(n + 1, user, 1);
    events := [Go(id)] + last;
    assert events[1..] == last;
    assert free.cache == one.cache - {UserKey(user)} && !Taken(free, SlotKey(1)) && !Taken(free, UserKey(user));
    Joins(free, n + 1, user, 1);
    assert SameUser(Joined(free, n + 1, user, 1), n, n + 1);
  }

  /** A render that lost its user's lock ends at work beside another of the user's. */
  lemma LateWorkHarms(v: State, id: Id) returns (events: seq<Event>)
    requires Stage(v, id) && (v.renders[id].phase.Rendering? || v.renders[id].phase.Trying?)
    requires v.renders[id].phase.Trying? ==> v.renders[id].phase.slot < RENDER_SLOTS
    ensures NoTicks(events) && !Kept(Run(v, events), Limits)
  {
    var n := SomeBound(v.renders.Keys);
    var user := v.renders[id].user;
    var first := Joining(n, user, 0);
    Joins(v, n, user, 0);
    OthersFree(v, n, user, 0, SlotKey(1));
    var last := GoesToWork(Joined(v, n, user, 0), id, n, user);
    events := first + last;
    RunInTwo(v, first, last);
  }

  lemma GoesToWork(one: State, id: Id, n: Id, user: nat) returns (events: seq<Event>)
    requires id in one.renders && id < n && one.renders[id].user == user
    requires one.renders[id].phase in {Rendering, Trying(0), Trying(1)}
    requires n in Working(one) && one.renders[n].user == user
    requires Taken(one, SlotKey(0)) && !Taken(one, SlotKey(1))
    ensures NoTicks(events) && !Kept(Run(one, events), Limits)
  {
    if one.renders[id].phase == Rendering {
      events := [];
    } else if one.renders[id].phase == Trying(1) {
      events := [Go(id)];
      assert events[1..] == [];
    } else {
      events := [Go(id), Go(id)] + [];
      TwoSteps(one, Go(id), Go(id), []);
    }
    assert SameUser(Run(one, events), id, n);
  }

  /** After a late tick the promise can be broken, without any further late tick. */
  lemma LateHarms(s: State, e: Event, promise: Promise)
    requires Owned(s) && Late(s, e, promise)
    ensures !Safe(Next(s, e), promise)
  {
    var u := Next(s, e);
    var id :| id in s.renders && RunsOut(s.renders[id], s.clock, s.clock + e.seconds, promise);
    StepOwned(s, e);
    assert RecordOk(s, s.renders[id]);
    var clear := ClearStage(u, id, promise);
    var v, harm := Run(u, clear), [];
    if promise.OwnReleases? {
      harm := LateReleaseHarms(v, id);
    } else if v.renders[id].phase.DeletingSlot? {
      harm := LateSlotHarms(v, id);
    } else if v.renders[id].phase.DeletingUser? {
      harm := LateUserHarms(v, id);
    } else {
      harm := LateWorkHarms(v, id);
    }
    NoTicksOnTime(v, harm, promise);
    OnTimeInTwo(u, clear, harm, promise);
    RunInTwo(u, clear, harm);
    assert OnTime(u, clear + harm, promise) && !Kept(Run(u, clear + harm), promise);
  }

  // ----- when the promises hold

  lemma {:induction false} FirstLate(s: State, events: seq<Event>, promise: Promise) returns (k: nat)
    requires !OnTime(s, events, promise)
    ensures k < |events| && Late(Run(s, events[..k]), events[k], promise)
    decreases |events|
  {
    if Enabled(s, events[0]) && Late(s, events[0], promise) {
      k := 0;
    } else {
      var next := if Enabled(s, events[0]) then Next(s, events[0]) else s;
      k := FirstLate(next, events[1..], promise);
      assert events[..k+1][1..] == events[1..][..k];
      k := k + 1;
    }
  }

  lemma StartSound(promise: Promise)
    ensures Sound(START, promise)
  {
  }

  lemma OnTimePrefixSafe(events: seq<Event>, k: nat, promise: Promise)
    requires OnTime(START, events, promise) && k <= |events|
    ensures Safe(Run(START, events[..k]), promise)
  {
    var s := Run(START, events[..k]);
    assert events[..k] + events[k..] == events;
    OnTimeInTwo(START, events[..k], events[k..], promise);
    StartSound(promise);
    RunSound(START, events[..k], promise);
    forall more | OnTime(s, more, promise) ensures Kept(Run(s, more), promise) {
      RunSound(s, more, promise);
      SoundKeeps(Run(s, more), promise);
    }
  }

  /**
   A promise is safe all along a run exactly when no tick of the run is late: that no tick carries a release that is
   about to delete to the end of its own lock, and, for the limits, none a render at work or trying the slots either.
   */
  lemma SafeExactlyOnTime(events: seq<Event>, promise: Promise)
    ensures OnTime(START, events, promise) <==>
            forall k | 0 <= k <= |events| :: Safe(Run(START, events[..k]), promise)
  {
    if OnTime(START, events, promise) {
      forall k | 0 <= k <= |events| ensures Safe(Run(START, events[..k]), promise) {
        OnTimePrefixSafe(events, k, promise);
      }
    } else {
      var k := FirstLate(START, events, promise);
      var s := Run(START, events[..k]);
      StartSound(promise);
      RunOwned(START, events[..k]);
      LateHarms(s, events[k], promise);
      assert events[..k+1] == events[..k] + [events[k]];
      RunInTwo(START, events[..k], [events[k]]);
      assert [events[k]][1..] == [];
      assert !Safe(Run(START, events[..k+1]), promise);
    }
  }

  /** On time, at most RENDER_SLOTS drawings are rendered at once and one of a user's, whatever the interleaving. */
  lemma EveryRunIsLimited(events: seq<Event>)
    requires OnTime(START, events, Limits)
    ensures var s := Run(START, events);
            |Working(s)| <= RENDER_SLOTS && forall a, b | SameUser(s, a, b) :: a == b
    ensures forall id :: !DeletesAnothers(Run(START, events), id)
  {
    StartSound(Limits);
    RunSound(START, events, Limits);
    SoundKeeps(Run(START, events), Limits);
    LimitsIncludeReleases(Run(START, events));
  }

  lemma LimitsIncludeReleases(s: State)
    requires Sound(s, Limits)
    ensures Kept(s, OwnReleases)
  {
    forall id | id in s.renders ensures !DeletesAnothers(s, id) {
      assert Secured(s, id, s.renders[id], Limits);
    }
  }

  // ----- what holds whatever the clock does

  /** A refusal is never for nothing: another render of the same user holds its lock, or was killed holding it. */
  lemma RefusedForAnother(s: State, id: Id)
    requires Owned(s) && id in s.renders && s.renders[id].phase.Asking?
    requires Next(s, Go(id)).renders[id].phase.Refused?
    ensures exists other :: other in s.renders && other != id && s.renders[other].user == s.renders[id].user
              && HasUser(s.renders[other].phase) && s.clock < s.renders[other].userUntil
  {
    var key := UserKey(s.renders[id].user);
    assert EntryOk(s, key);
    var other := s.cache[key].token;
    assert other in s.renders;
  }

  /** When no render is under way and none was killed, every lock has been given back or has run out. */
  lemma AllGivenBack(s: State, key: LockKey)
    requires Owned(s)
    requires forall id | id in s.renders :: s.renders[id].phase in {Refused, Done}
    ensures !Taken(s, key)
  {
    assert EntryOk(s, key);
  }

  /** A killed render stays as it was. */
  lemma {:induction false} KilledStays(s: State, events: seq<Event>, id: Id)
    requires id in s.renders && s.renders[id].phase.Killed?
    ensures var t := Run(s, events); id in t.renders && t.renders[id] == s.renders[id]
    decreases |events|
  {
    if events != [] {
      if Enabled(s, events[0]) {
        KilledStays(Next(s, events[0]), events[1..], id);
      } else {
        KilledStays(s, events[1..], id);
      }
    }
  }

  /** A killed render's locks stand in nobody's way once their time is over. */
  lemma KilledLocksRunOut(s: State, events: seq<Event>, id: Id, key: LockKey)
    requires Owned(s) && id in s.renders && s.renders[id].phase.Killed?
    requires TakenBy(s, key, id) && Run(s, events).clock >= s.clock + RENDER_LOCK_TTL
    ensures !TakenBy(Run(s, events), key, id)
  {
    var t := Run(s, events);
    RunOwned(s, events);
    KilledStays(s, events, id);
    assert EntryOk(s, key) && EntryOk(t, key);
  }

  // ----- one such run

  /** A user's first render reads its token shortly before it runs out, and deletes only afterwards. */
  const RENDERED := [Begin(0, 7), Go(0), Go(0)]
  const READ_LATE := [Tick(80), Go(0), Go(0), Go(0), Go(0)]
  const NEXT_ONE := [Tick(20), Begin(1, 7), Go(1)]
  const DELETED_LATE := [Go(0), Begin(2, 7), Go(2)]
  const BOTH_RENDER := [Go(1), Go(2), Go(2)]

  const FIRST := Render(7, DeletingUser, 90, 0, 90)
  const WAITING := State(100, map[UserKey(7) := Entry(1, 190)], map[0 := FIRST, 1 := Render(7, Trying(0), 190, 0, 0)])

  lemma LateReads()
    ensures Run(Run(START, RENDERED), READ_LATE) == State(80, map[UserKey(7) := Entry(0, 90)], map[0 := FIRST])
  {
    var cache := map[UserKey(7) := Entry(0, 90), SlotKey(0) := Entry(0, 90)];
    assert Run(START, RENDERED) == State(0, cache, map[0 := Render(7, Rendering, 90, 0, 90)]);
    assert cache - {SlotKey(0)} == map[UserKey(7) := Entry(0, 90)];
  }

  lemma LateWaits(s: State)
    requires s == State(80, map[UserKey(7) := Entry(0, 90)], map[0 := FIRST])
    ensures Run(s, NEXT_ONE) == WAITING && Late(s, NEXT_ONE[0], OwnReleases)
  {
    assert s.renders[0].phase == DeletingUser;
  }

  lemma LateDeletes()
    ensures var t := Run(WAITING, DELETED_LATE);
            t == State(100, map[UserKey(7) := Entry(2, 190)],
                       WAITING.renders[0 := FIRST.(phase := Done)][2 := Render(7, Trying(0), 190, 0, 0)])
  {
    assert WAITING.cache - {UserKey(7)} == map[];
  }

  lemma LateOverlaps(s: State)
    requires s.clock == 100 && s.cache == map[UserKey(7) := Entry(2, 190)]
    requires 1 in s.renders && 2 in s.renders
    requires s.renders[1] == s.renders[2] == Render(7, Trying(0), 190, 0, 0)
    ensures {1, 2} <= Working(Run(s, BOTH_RENDER))
    ensures forall id | id in {1, 2} :: id in Run(s, BOTH_RENDER).renders && Run(s, BOTH_RENDER).renders[id].user == 7
  {
    var one := Next(s, Go(1));
    assert one.renders == s.renders[1 := Render(7, Rendering, 190, 0, 190)] && Taken(one, SlotKey(0));
    assert BOTH_RENDER[1..] == [Go(2), Go(2)] + [];
    TwoSteps(one, Go(2), Go(2), []);
  }

  lemma LateRun()
    ensures Run(START, RENDERED + READ_LATE + NEXT_ONE) == WAITING
  {
    LateReads();
    LateWaits(Run(Run(START, RENDERED), READ_LATE));
    RunInTwo(START, RENDERED, READ_LATE);
    RunInTwo(START, RENDERED + READ_LATE, NEXT_ONE);
  }

  lemma LateEnd(late: seq<Event>)
    requires Run(START, late) == WAITING
    ensures Run(START, late + (DELETED_LATE + BOTH_RENDER)) == Run(Run(WAITING, DELETED_LATE), BOTH_RENDER)
  {
    RunInTwo(START, late, DELETED_LATE + BOTH_RENDER);
    RunInTwo(WAITING, DELETED_LATE, BOTH_RENDER);
  }

  /**
   Without the guarantee that a render ends before its lock runs out, its release deletes the next one's lock and two
   renders of one user are at work at once.
   */
  lemma LateReleaseDeletesAnothers(late: seq<Event>)
    requires late == RENDERED + READ_LATE + NEXT_ONE
    ensures Run(START, late) == WAITING && TakenBy(WAITING, UserKey(7), 1) && !Taken(Gone(WAITING, 0, FIRST), UserKey(7))
    ensures var t := Run(START, late + (DELETED_LATE + BOTH_RENDER));
            {1, 2} <= Working(t) && t.renders[1].user == t.renders[2].user
  {
    LateRun();
    LateEnd(late);
    LateDeletes();
    LateOverlaps(Run(WAITING, DELETED_LATE));
  }
}
