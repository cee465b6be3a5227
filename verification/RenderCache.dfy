/**
 The renders kept for one CAD drawing (api/cad_render.py): requests and background jobs share a bounded map of variants
 and the files it names. What runs under the row's lock is one step. What reads the row first and writes it later, without
 a lock, is two: the write carries the row as it was read.
 */
module RenderCache {
  import opened Basics

  /** Uploads and renders get random names, told apart by their endings; a variant's name is its key's and may come again. */
  datatype FileName = OfUpload(id: nat) | OfRender(id: nat) | OfVariant(n: nat)

  /** What a cached render is of: the hidden layers, the text switch and the rendered file it derives from. */
  datatype Key = Key(hidden: set<string>, hideText: bool, rendered: Option<FileName>)

  datatype Status = Queued | Ready | Failed
  datatype Entry = Entry(status: Status, at: int, file: Option<FileName>)
  datatype Job = Job(source: FileName, key: Option<Key>)

  const MAX_VARIANTS := 12
  const MAX_QUEUED_VARIANTS := 3
  const JOB_TIMEOUT := 300 + 600 + 120

  type Variants = map<Key, Entry>

  /** The drawing's row. */
  datatype Row = Row(source: FileName, inTenant: bool, rendered: Option<FileName>, status: Status, variants: Variants)

  /** The row with storage and the queue; `drawn` are the random names drawn so far. */
  datatype State = State(clock: int, row: Row, files: set<FileName>, doomed: set<FileName>, jobs: seq<Job>,
                         drawn: set<FileName>)

  predicate InFlight(e: Entry, now: int) {
    e.status == Queued && e.at > now - JOB_TIMEOUT
  }

  /** The entry answers a request without queueing anything. */
  predicate Serves(e: Entry, now: int) {
    e.status == Ready || InFlight(e, now)
  }

  function Flying(variants: Variants, now: int): set<Key> {
    set k | k in variants && InFlight(variants[k], now)
  }

  /** The files of some of the entries. */
  function FilesAt(variants: Variants, keys: set<Key>): set<FileName> {
    set k | k in variants && k in keys && variants[k].file.Some? :: variants[k].file.value
  }

  function FilesOf(variants: Variants): set<FileName> {
    set k | k in variants && variants[k].file.Some? :: variants[k].file.value
  }

  function Opt(f: Option<FileName>): set<FileName> {
    if f.Some? then {f.value} else {}
  }

  /** The renders a row names. */
  function Named(row: Row): set<FileName> {
    Opt(row.rendered) + FilesOf(row.variants)
  }

  /** Every file the row names. */
  function Live(row: Row): set<FileName> {
    {row.source} + Named(row)
  }

  predicate Current(row: Row, source: FileName) {
    row.source == source && row.inTenant
  }

  // ----- the steps

  /** `gone` are the entries dropped to make room: the oldest, and no more than needed. */
  ghost predicate Evicted(variants: Variants, gone: set<Key>) {
    && OldestGone(variants, gone)
    && (|variants| < MAX_VARIANTS ==> gone == {})
    && (|variants| >= MAX_VARIANTS ==> |variants| - |gone| == MAX_VARIANTS - 1)
  }

  ghost predicate OldestGone(variants: Variants, gone: set<Key>) {
    gone <= variants.Keys && forall k, l | k in gone && l in variants && l !in gone :: variants[k].at <= variants[l].at
  }

  datatype Answer = Cached(entry: Entry) | Enqueued(entry: Entry) | TooManyRenders

  /** A request made with the source name the caller read, which may be out of date by now. */
  ghost predicate Requested(s: State, t: State, source: FileName, key: Key, now: int, answer: Answer, gone: set<Key>) {
    var variants := s.row.variants;
    if key in variants && Serves(variants[key], now) then
      t == s.(clock := now) && answer == Cached(variants[key])
    else if |Flying(variants, now) - {key}| >= MAX_QUEUED_VARIANTS then
      t == s.(clock := now) && answer == TooManyRenders
    else
      && answer == Enqueued(Entry(Queued, now, None))
      && Evicted(variants, gone) && t == Queueing(s, source, key, now, answer.entry, gone)
  }

  /** The state once an entry is queued and the files of the evicted ones are scheduled for deletion. */
  function Queueing(s: State, source: FileName, key: Key, now: int, entry: Entry, gone: set<Key>): State {
    s.(clock := now, row := s.row.(variants := (s.row.variants - gone)[key := entry]),
       doomed := s.doomed + FilesAt(s.row.variants, gone), jobs := s.jobs + [Job(source, Some(key))])
  }

  /** A variant's job ends, with the row locked and read afresh: with a file just saved, or with none. */
  ghost predicate VariantSaved(s: State, t: State, key: Key, file: Option<FileName>) {
    if key !in s.row.variants then t == s
    else if file.Some? then
      && file.value.OfVariant? && file.value !in s.files
      && t == s.(files := s.files + {file.value},
                 row := WithEntry(s.row, key, s.row.variants[key].(status := Ready, file := file)))
    else t == s.(row := WithEntry(s.row, key, s.row.variants[key].(status := Failed)))
  }

  function WithEntry(row: Row, key: Key, e: Entry): Row { row.(variants := row.variants[key := e]) }

  /** The whole drawing's job ends: every field of the row is written as it was read, but for what was rendered. */
  ghost predicate RenderSaved(s: State, t: State, row: Row, file: FileName) {
    && file.OfRender? && file !in s.files && file !in s.drawn
    && t == s.(files := s.files + {file}, drawn := s.drawn + {file}, doomed := s.doomed + Named(row),
               row := row.(rendered := Some(file), status := Ready, variants := map[]))
  }

  /** The queue could not take a variant's job: the whole map is written as it was read, but for that entry's status. */
  ghost predicate DownWritten(s: State, t: State, row: Row, key: Key) {
    if key !in row.variants then t == s
    else t == s.(row := s.row.(variants := row.variants[key := row.variants[key].(status := Failed)]))
  }

  /** A new file is uploaded in place of the old. */
  ghost predicate Replaced(s: State, t: State, source: FileName) {
    && source.OfUpload? && source !in s.files && source !in s.drawn
    && t == s.(files := s.files + {source}, drawn := s.drawn + {source}, doomed := s.doomed + Live(s.row),
               row := s.row.(source := source, rendered := None, status := Queued, variants := map[]),
               jobs := s.jobs + [Job(source, None)])
  }

  /** A file scheduled for deletion goes. */
  ghost predicate FileDeleted(s: State, t: State, file: FileName) {
    file in s.doomed && t == s.(files := s.files - {file}, doomed := s.doomed - {file})
  }

  /**
   `SaveVariant` and `MarkFailed` belong to a job that found its source on the row; `SaveRender` and `WriteDown` carry the
   row as it was read.
   */
  datatype Event =
    | Request(source: FileName, key: Key, now: int, answer: Answer, gone: set<Key>)
    | SaveVariant(source: FileName, key: Key, file: Option<FileName>)
    | SaveRender(row: Row, render: FileName)
    | MarkFailed(source: FileName)
    | WriteDown(row: Row, key: Key)
    | Upload(source: FileName)
    | DeleteFile(name: FileName)

  ghost predicate Step(s: State, e: Event, t: State) {
    match e
    case Request(source, key, now, answer, gone) => s.clock <= now && Requested(s, t, source, key, now, answer, gone)
    case SaveVariant(_, key, file) => VariantSaved(s, t, key, file)
    case SaveRender(row, render) => RenderSaved(s, t, row, render)
    case MarkFailed(_) => t == s.(row := s.row.(status := Failed))
    case WriteDown(row, key) => DownWritten(s, t, row, key)
    case Upload(source) => Replaced(s, t, source)
    case DeleteFile(name) => FileDeleted(s, t, name)
  }

  /** What the event goes by was read from the row at some earlier point. */
  ghost predicate WasRead(run: seq<State>, e: Event, n: nat)
    requires n < |run|
  {
    match e
    case SaveVariant(source, _, _) => exists i :: 0 <= i <= n && Current(run[i].row, source)
    case SaveRender(row, _) => exists i :: 0 <= i <= n && run[i].row == row && row.inTenant
    case MarkFailed(source) => exists i :: 0 <= i <= n && run[i].row.source == source
    case WriteDown(row, _) => exists i :: 0 <= i <= n && run[i].row == row
    case _ => true
  }

  /** `run` is what the events lead through from its first state. */
  ghost predicate IsRun(run: seq<State>, events: seq<Event>) {
    |run| == |events| + 1 && forall i | 0 <= i < |events| :: Follows(run, events, i)
  }

  ghost predicate Follows(run: seq<State>, events: seq<Event>, i: nat)
    requires i < |events| && |run| == |events| + 1
  {
    Step(run[i], events[i], run[i+1]) && WasRead(run, events[i], i)
  }

  // ----- the bounds, which hold in every run

  /** At most so many renders kept and so many in the air. */
  ghost predicate Bounded(variants: Variants, now: int) {
    |variants| <= MAX_VARIANTS && |Flying(variants, now)| <= MAX_QUEUED_VARIANTS
  }

  lemma SubsetSize<T>(a: set<T>, b: set<T>)
    requires a <= b
    ensures |a| <= |b|
  {
    assert b == a + (b - a);
  }

  /** As time goes on, renders only leave the air. */
  lemma FlyingShrinks(variants: Variants, now: int, later: int)
    requires now <= later
    ensures Flying(variants, later) <= Flying(variants, now)
    ensures |Flying(variants, later)| <= |Flying(variants, now)|
  {
    SubsetSize(Flying(variants, later), Flying(variants, now));
  }

  /** Within the bounds, an entry goes only when there is no room and it is the oldest, and then it alone. */
  lemma GoneIsOldest(variants: Variants, gone: set<Key>, key: Key)
    requires |variants| <= MAX_VARIANTS && Evicted(variants, gone) && key in gone
    ensures |variants| == MAX_VARIANTS && gone == {key}
    ensures forall l | l in variants :: variants[key].at <= variants[l].at
  {
    SubsetSize({key}, gone);
    assert |gone - {key}| == 0;
    assert gone == {key} + (gone - {key});
  }

  lemma QueueingCount(variants: Variants, gone: set<Key>, key: Key, entry: Entry)
    requires |variants| <= MAX_VARIANTS && Evicted(variants, gone)
    ensures |(variants - gone)[key := entry]| <= MAX_VARIANTS
  {
    var kept := variants - gone;
    assert variants.Keys == kept.Keys + gone;
    assert |kept| == |kept.Keys| && |variants| == |variants.Keys| && |variants.Keys| == |kept.Keys| + |gone|;
    assert kept[key := entry].Keys == kept.Keys + {key};
    assert |kept[key := entry]| == |kept[key := entry].Keys|;
  }

  lemma QueueingFlying(variants: Variants, gone: set<Key>, key: Key, entry: Entry, now: int)
    ensures |Flying((variants - gone)[key := entry], now)| <= |Flying(variants, now) - {key}| + 1
  {
    var others := Flying(variants, now) - {key};
    SubsetSize(Flying((variants - gone)[key := entry], now), others + {key});
  }

  /** Changing one entry's status to anything but queued puts nothing in the air. */
  lemma EntryBounded(variants: Variants, key: Key, e: Entry, now: int)
    requires Bounded(variants, now) && key in variants && e.status != Queued
    ensures Bounded(variants[key := e], now)
  {
    var next := variants[key := e];
    assert next.Keys == variants.Keys && |next| == |next.Keys| && |variants| == |variants.Keys|;
    SubsetSize(Flying(next, now), Flying(variants, now));
  }

  /** The map an event goes by was within the bounds. */
  ghost predicate ReadBounded(e: Event, now: int) {
    e.WriteDown? ==> Bounded(e.row.variants, now)
  }

  lemma RequestBounded(s: State, t: State, source: FileName, key: Key, now: int, answer: Answer, gone: set<Key>)
    requires Bounded(s.row.variants, s.clock) && s.clock <= now && Requested(s, t, source, key, now, answer, gone)
    ensures Bounded(t.row.variants, t.clock)
  {
    FlyingShrinks(s.row.variants, s.clock, now);
    if answer.Enqueued? {
      QueueingCount(s.row.variants, gone, key, answer.entry);
      QueueingFlying(s.row.variants, gone, key, answer.entry, now);
    }
  }

  lemma StepBounded(s: State, e: Event, t: State)
    requires Bounded(s.row.variants, s.clock) && Step(s, e, t) && ReadBounded(e, s.clock)
    ensures Bounded(t.row.variants, t.clock) && s.clock <= t.clock
  {
    match e {
      case Request(source, key, now, answer, gone) => RequestBounded(s, t, source, key, now, answer, gone);
      case SaveVariant(_, key, file) =>
        if key in s.row.variants {
          EntryBounded(s.row.variants, key, t.row.variants[key], s.clock);
        }
      case WriteDown(row, key) =>
        if key in row.variants {
          EntryBounded(row.variants, key, row.variants[key].(status := Failed), s.clock);
        }
      case SaveRender(_, _) => assert Flying(t.row.variants, t.clock) == {};
      case Upload(_) => assert Flying(t.row.variants, t.clock) == {};
      case _ =>
    }
  }

  lemma NextBounded(run: seq<State>, events: seq<Event>, n: nat)
    requires IsRun(run, events) && n < |events|
    requires forall i | 0 <= i <= n :: Bounded(run[i].row.variants, run[i].clock) && run[i].clock <= run[n].clock
    ensures Bounded(run[n+1].row.variants, run[n+1].clock) && run[n].clock <= run[n+1].clock
  {
    var e := events[n];
    assert Follows(run, events, n);
    if e.WriteDown? {
      var i :| 0 <= i <= n && run[i].row == e.row;
      FlyingShrinks(e.row.variants, run[i].clock, run[n].clock);
    }
    StepBounded(run[n], e, run[n+1]);
  }

  /** In every run, whatever was read before it was written: the bounds hold and the clock goes on. */
  lemma {:induction false} RunIsBounded(run: seq<State>, events: seq<Event>, n: nat)
    requires IsRun(run, events) && n < |run| && Bounded(run[0].row.variants, run[0].clock)
    ensures forall i | 0 <= i <= n :: Bounded(run[i].row.variants, run[i].clock) && run[i].clock <= run[n].clock
  {
    if n > 0 {
      RunIsBounded(run, events, n - 1);
      NextBounded(run, events, n - 1);
    }
  }

  // ----- no live file is gone or scheduled for deletion

  /** Uploads, renders and variants go by their own kinds of names, and no two entries name the same file. */
  ghost predicate WellNamed(row: Row, drawn: set<FileName>) {
    && row.source.OfUpload? && row.source in drawn
    && (row.rendered.Some? ==> row.rendered.value.OfRender? && row.rendered.value in drawn)
    && VariantsNamed(row.variants)
  }

  predicate Names(variants: Variants, k: Key, f: FileName) {
    k in variants && variants[k].file == Some(f)
  }

  ghost predicate VariantsNamed(variants: Variants) {
    && (forall k, f | Names(variants, k, f) :: f.OfVariant?)
    && (forall k, l, f | Names(variants, k, f) && Names(variants, l, f) :: k == l)
  }

  /** Every file the row names is in storage and not scheduled for deletion. */
  ghost predicate Filed(s: State) {
    Live(s.row) <= s.files && Live(s.row) !! s.doomed
  }

  ghost predicate Sound(s: State) {
    && Bounded(s.row.variants, s.clock) && WellNamed(s.row, s.drawn) && Filed(s)
    && RandomDrawn(s.doomed, s.drawn) && OneSource(s)
  }

  /** A source that is not the drawing's any more is scheduled for deletion. */
  ghost predicate OneSource(s: State) {
    forall f | f in s.files && f.OfUpload? :: f == s.row.source || f in s.doomed
  }

  ghost predicate RandomDrawn(files: set<FileName>, drawn: set<FileName>) {
    forall f | f in files && !f.OfVariant? :: f in drawn
  }

  /** Every stored file is named by the row or scheduled for deletion. */
  ghost predicate NoOrphan(s: State) {
    s.files <= Live(s.row) + s.doomed
  }

  ghost predicate LeftBehind(f: FileName, s: State) {
    f in s.files && f !in Live(s.row) && f !in s.doomed
  }

  ghost predicate Whole(s: State) {
    Sound(s) && NoOrphan(s)
  }

  /** What is known of a row that was read earlier. */
  ghost predicate WasSound(row: Row, s: State) {
    Bounded(row.variants, s.clock) && WellNamed(row, s.drawn)
  }

  /** The row an event writes back, if any, was read from a sound state. */
  ghost predicate ReadSound(e: Event, s: State) {
    e.SaveRender? || e.WriteDown? ==> WasSound(e.row, s)
  }

  /**
   The write leaves every file the row then names in storage: a variant's file takes no name whose deletion is still to
   come, the drawing was not replaced since its row was read, or the variants' files are all still there.
   */
  ghost predicate Intact(s: State, e: Event) {
    match e
    case SaveVariant(_, key, file) => key in s.row.variants && file.Some? ==> file.value !in s.doomed
    case SaveRender(row, _) => row.source == s.row.source
    case WriteDown(row, key) => key in row.variants ==> FilesOf(row.variants) <= s.files - s.doomed
    case _ => true
  }

  /**
   The write loses sight of no file: an entry that is replaced names none, or goes to make room; the drawing was not
   replaced since its row was read, and every file the row names by now it named then.
   */
  ghost predicate Thorough(s: State, e: Event) {
    match e
    case Request(_, key, _, answer, gone) =>
      answer.Enqueued? && key in s.row.variants && s.row.variants[key].file.Some? ==> key in gone
    case SaveVariant(_, key, file) =>
      key in s.row.variants && file.Some? ==> file.value !in s.doomed && s.row.variants[key].file.None?
    case SaveRender(row, _) => row.source == s.row.source && Named(s.row) <= Named(row)
    case WriteDown(row, key) => key in row.variants ==> FilesOf(row.variants) == FilesOf(s.row.variants)
    case _ => true
  }

  lemma NamedBy(variants: Variants, f: FileName) returns (k: Key)
    requires f in FilesOf(variants)
    ensures Names(variants, k, f)
  {
    k :| k in variants && variants[k].file == Some(f);
  }

  lemma NamedAmong(variants: Variants, keys: set<Key>, f: FileName) returns (k: Key)
    requires f in FilesAt(variants, keys)
    ensures Names(variants, k, f) && k in keys
  {
    k :| k in variants && k in keys && variants[k].file == Some(f);
  }

  lemma VariantFiles(variants: Variants)
    requires VariantsNamed(variants)
    ensures forall f | f in FilesOf(variants) :: f.OfVariant?
  {
    forall f | f in FilesOf(variants) ensures f.OfVariant? {
      var k := NamedBy(variants, f);
    }
  }

  lemma QueueFiles(variants: Variants, gone: set<Key>, key: Key, entry: Entry)
    requires VariantsNamed(variants) && entry.file.None?
    ensures FilesOf((variants - gone)[key := entry]) == FilesOf(variants) - FilesAt(variants, gone + {key})
    ensures VariantsNamed((variants - gone)[key := entry])
  {
    var next := (variants - gone)[key := entry];
    assert forall k, f :: Names(next, k, f) <==> Names(variants, k, f) && k !in gone + {key};
    forall f | f in FilesOf(next) ensures f in FilesOf(variants) - FilesAt(variants, gone + {key}) {
      var k := NamedBy(next, f);
      assert Names(variants, k, f);
      if f in FilesAt(variants, gone + {key}) {
        var l := NamedAmong(variants, gone + {key}, f);
      }
    }
    forall f | f in FilesOf(variants) - FilesAt(variants, gone + {key}) ensures f in FilesOf(next) {
      var k := NamedBy(variants, f);
      assert Names(next, k, f);
    }
  }

  lemma StatusFiles(variants: Variants, key: Key, e: Entry)
    requires key in variants && e.file == variants[key].file
    ensures FilesOf(variants[key := e]) == FilesOf(variants)
    ensures VariantsNamed(variants) ==> VariantsNamed(variants[key := e])
  {
    var next := variants[key := e];
    assert forall k, f :: Names(next, k, f) <==> Names(variants, k, f);
    forall f | f in FilesOf(next) ensures f in FilesOf(variants) {
      var k := NamedBy(next, f);
      assert Names(variants, k, f);
    }
    forall f | f in FilesOf(variants) ensures f in FilesOf(next) {
      var k := NamedBy(variants, f);
      assert Names(next, k, f);
    }
  }

  lemma SavedFiles(variants: Variants, key: Key, e: Entry)
    requires VariantsNamed(variants) && key in variants && e.file.Some? && e.file.value.OfVariant?
    requires e.file.value !in FilesOf(variants)
    ensures FilesOf(variants[key := e]) == FilesOf(variants) - Opt(variants[key].file) + {e.file.value}
    ensures VariantsNamed(variants[key := e])
  {
    var next, file := variants[key := e], e.file.value;
    assert forall k, f :: Names(next, k, f) <==> if k == key then f == file else Names(variants, k, f);
    assert forall k :: !Names(variants, k, file);
    forall f | f in FilesOf(next) && f != file ensures f in FilesOf(variants) - Opt(variants[key].file) {
      var k := NamedBy(next, f);
      assert Names(variants, k, f);
      assert Names(variants, key, f) ==> k == key;
    }
    forall f | f in FilesOf(variants) - Opt(variants[key].file) ensures f in FilesOf(next) {
      var k := NamedBy(variants, f);
      assert Names(next, k, f);
    }
    assert Names(next, key, file);
  }

  /** The three kinds of files a row names do not mix. */
  lemma NamedApart(row: Row, drawn: set<FileName>)
    requires WellNamed(row, drawn)
    ensures forall f | f in FilesOf(row.variants) :: f.OfVariant?
    ensures row.source !in Named(row) && Opt(row.rendered) !! FilesOf(row.variants)
  {
    VariantFiles(row.variants);
  }

  lemma RequestSound(s: State, t: State, source: FileName, key: Key, now: int, answer: Answer, gone: set<Key>)
    requires Sound(s) && s.clock <= now && Requested(s, t, source, key, now, answer, gone)
    ensures Sound(t)
    ensures NoOrphan(s) ==> (NoOrphan(t) <==> Thorough(s, Request(source, key, now, answer, gone)))
  {
    RequestBounded(s, t, source, key, now, answer, gone);
    if answer.Enqueued? {
      QueueSound(s, t, source, key, now, answer.entry, gone);
    }
  }

  lemma QueueSound(s: State, t: State, source: FileName, key: Key, now: int, entry: Entry, gone: set<Key>)
    requires Sound(s) && t == Queueing(s, source, key, now, entry, gone) && entry.file.None?
    requires Bounded(t.row.variants, t.clock)
    ensures Sound(t)
    ensures NoOrphan(s) ==> (NoOrphan(t) <==> key in s.row.variants && s.row.variants[key].file.Some? ==> key in gone)
  {
    QueueFiles(s.row.variants, gone, key, entry);
    QueueFiled(s, t, source, key, now, entry, gone);
    GoneFiles(s.row.variants, gone);
  }

  lemma GoneFiles(variants: Variants, gone: set<Key>)
    requires VariantsNamed(variants)
    ensures forall f | f in FilesAt(variants, gone) :: f.OfVariant?
  {
    forall f | f in FilesAt(variants, gone) ensures f.OfVariant? {
      var k := NamedAmong(variants, gone, f);
    }
  }

  lemma QueueFiled(s: State, t: State, source: FileName, key: Key, now: int, entry: Entry, gone: set<Key>)
    requires WellNamed(s.row, s.drawn) && Filed(s) && t == Queueing(s, source, key, now, entry, gone)
    requires FilesOf(t.row.variants) == FilesOf(s.row.variants) - FilesAt(s.row.variants, gone + {key})
    ensures Filed(t)
    ensures NoOrphan(s) ==> (NoOrphan(t) <==> key in s.row.variants && s.row.variants[key].file.Some? ==> key in gone)
  {
    NamedApart(s.row, s.drawn);
    var variants := s.row.variants;
    assert FilesAt(variants, gone) <= FilesAt(variants, gone + {key}) <= FilesOf(variants);
    assert Live(t.row) == Live(s.row) - FilesAt(variants, gone + {key});
    if NoOrphan(s) {
      KeyFile(variants, gone, key);
      assert NoOrphan(t) <==> FilesAt(variants, gone + {key}) <= FilesAt(variants, gone);
    }
  }

  lemma KeyLost(variants: Variants, gone: set<Key>, key: Key)
    requires VariantsNamed(variants) && key in variants && variants[key].file.Some?
    ensures var f := variants[key].file.value;
            f in FilesOf(variants) && f in FilesAt(variants, gone + {key}) && (f in FilesAt(variants, gone) <==> key in gone)
  {
    var f := variants[key].file.value;
    assert Names(variants, key, f);
    if f in FilesAt(variants, gone) {
      var l := NamedAmong(variants, gone, f);
    }
  }

  lemma KeyFile(variants: Variants, gone: set<Key>, key: Key)
    requires VariantsNamed(variants)
    ensures FilesAt(variants, gone + {key}) <= FilesAt(variants, gone) <==>
            (key in variants && variants[key].file.Some? ==> key in gone)
  {
    if key in variants && variants[key].file.Some? {
      KeyLost(variants, gone, key);
    }
  }

  lemma SaveVariantSound(s: State, t: State, source: FileName, key: Key, file: Option<FileName>)
    requires Sound(s) && VariantSaved(s, t, key, file)
    ensures Sound(t) <==> Intact(s, SaveVariant(source, key, file))
    ensures NoOrphan(s) ==> (Whole(t) <==> Thorough(s, SaveVariant(source, key, file)))
  {
    if key in s.row.variants {
      EntryBounded(s.row.variants, key, t.row.variants[key], s.clock);
      if file.Some? {
        FileSaved(s, t, key, file.value);
      } else {
        NoneSaved(s, t, key);
      }
    }
  }

  lemma NoneSaved(s: State, t: State, key: Key)
    requires Sound(s) && VariantSaved(s, t, key, None) && key in s.row.variants && Bounded(t.row.variants, s.clock)
    ensures Sound(t) && (NoOrphan(s) ==> NoOrphan(t))
  {
    StatusFiles(s.row.variants, key, t.row.variants[key]);
    assert Live(t.row) == Live(s.row);
  }

  lemma FileSaved(s: State, t: State, key: Key, file: FileName)
    requires Sound(s) && VariantSaved(s, t, key, Some(file)) && key in s.row.variants && Bounded(t.row.variants, s.clock)
    ensures Sound(t) <==> file !in s.doomed
    ensures NoOrphan(s) ==> (NoOrphan(t) <==> s.row.variants[key].file.None?)
  {
    NamedApart(s.row, s.drawn);
    SavedFiles(s.row.variants, key, t.row.variants[key]);
    SavedFiled(s, t, file, Opt(s.row.variants[key].file));
  }

  /** A fresh file takes the place of what the entry named: that, if anything, is lost. */
  lemma SavedFiled(s: State, t: State, file: FileName, former: set<FileName>)
    requires WellNamed(s.row, s.drawn) && Filed(s) && former <= FilesOf(s.row.variants) && file !in s.files
    requires t.files == s.files + {file} && t.doomed == s.doomed
    requires t.row.source == s.row.source && t.row.rendered == s.row.rendered
    requires FilesOf(t.row.variants) == FilesOf(s.row.variants) - former + {file}
    ensures Filed(t) <==> file !in s.doomed
    ensures NoOrphan(s) ==> (NoOrphan(t) <==> former == {})
  {
    NamedApart(s.row, s.drawn);
    assert Live(t.row) == Live(s.row) - former + {file};
    if former != {} {
      var f :| f in former;
      assert f in t.files && f !in Live(t.row) + t.doomed;
    }
  }

  lemma SaveRenderSound(s: State, t: State, row: Row, render: FileName)
    requires Sound(s) && RenderSaved(s, t, row, render) && WasSound(row, s)
    ensures Sound(t) <==> Intact(s, SaveRender(row, render))
  {
    assert Intact(s, SaveRender(row, render)) <==> row.source == s.row.source;
    NamedDrawn(row, s.drawn);
    RenderFiled(s, t, row, render);
  }

  lemma SaveRenderWhole(s: State, t: State, row: Row, render: FileName)
    requires Whole(s) && RenderSaved(s, t, row, render) && WasSound(row, s)
    ensures Whole(t) <==> Thorough(s, SaveRender(row, render))
  {
    assert Thorough(s, SaveRender(row, render)) <==> row.source == s.row.source && Named(s.row) <= Named(row);
    NamedDrawn(row, s.drawn);
    RenderFiled(s, t, row, render);
    if row.source == s.row.source {
      RenderWhole(s, t, row, render);
    }
  }

  lemma NamedDrawn(row: Row, drawn: set<FileName>)
    requires WellNamed(row, drawn)
    ensures row.source !in Named(row) && RandomDrawn(Named(row), drawn)
  {
    VariantFiles(row.variants);
  }

  lemma RenderWhole(s: State, t: State, row: Row, render: FileName)
    requires WellNamed(s.row, s.drawn) && Filed(s) && NoOrphan(s) && RenderSaved(s, t, row, render)
    requires row.source == s.row.source && row.source !in Named(row) && Live(t.row) == {row.source, render}
    ensures NoOrphan(t) <==> Named(s.row) <= Named(row)
  {
    var named := Named(s.row);
    NamedDrawn(s.row, s.drawn);
    RenderSight(s.files, s.doomed, row.source, named, Named(row), render);
  }

  lemma RenderFiled(s: State, t: State, row: Row, render: FileName)
    requires RenderSaved(s, t, row, render) && row.source.OfUpload? && row.source in s.drawn
    requires row.source !in Named(row) && RandomDrawn(Named(row), s.drawn) && RandomDrawn(s.doomed, s.drawn)
    requires OneSource(s) && s.row.source in s.files - s.doomed
    ensures Live(t.row) == {row.source, render}
    ensures Sound(t) <==> row.source == s.row.source
  {
    Cleared(t.row.variants, t.clock);
    TwoFiled(s.files, s.doomed, Named(row), row.source, render);
    assert Live(t.row) == {row.source, render};
  }

  lemma Cleared(variants: Variants, now: int)
    requires variants == map[]
    ensures Bounded(variants, now) && VariantsNamed(variants) && FilesOf(variants) == {}
  {
    assert Flying(variants, now) == {};
  }

  lemma TwoFiled(files: set<FileName>, doomed: set<FileName>, named: set<FileName>, source: FileName, render: FileName)
    requires source != render && source !in named && render !in doomed + named
    ensures {source, render} <= files + {render} && {source, render} !! doomed + named <==> source in files - doomed
  {
    if {source, render} <= files + {render} {
      assert source in files + {render};
    }
  }

  /** Of the renders the row names, those that a row read earlier does not are lost. */
  lemma RenderSight(files: set<FileName>, doomed: set<FileName>, source: FileName, named: set<FileName>,
                    readNamed: set<FileName>, render: FileName)
    requires {source} + named <= files <= {source} + named + doomed && ({source} + named) !! doomed
    requires source !in named && render !in files
    ensures files + {render} <= {source, render} + (doomed + readNamed) <==> named <= readNamed
  {
    if files + {render} <= {source, render} + (doomed + readNamed) {
      forall f | f in named ensures f in readNamed {
        assert f in files + {render};
      }
    }
  }

  lemma WriteDownSound(s: State, t: State, row: Row, key: Key)
    requires Sound(s) && DownWritten(s, t, row, key) && WasSound(row, s)
    ensures Sound(t) <==> Intact(s, WriteDown(row, key))
    ensures NoOrphan(s) ==> (Whole(t) <==> Thorough(s, WriteDown(row, key)))
  {
    if key in row.variants {
      var e := row.variants[key].(status := Failed);
      EntryBounded(row.variants, key, e, s.clock);
      StatusFiles(row.variants, key, e);
      assert FilesOf(t.row.variants) == FilesOf(row.variants);
      NamedApart(row, s.drawn);
      NamedApart(s.row, s.drawn);
      assert Live(t.row) == {s.row.source} + Opt(s.row.rendered) + FilesOf(row.variants);
    }
  }

  lemma UploadSound(s: State, t: State, source: FileName)
    requires Sound(s) && Replaced(s, t, source)
    ensures Sound(t) && (NoOrphan(s) ==> NoOrphan(t))
  {
    UploadFiled(s, t, source);
    Cleared(t.row.variants, t.clock);
    NamedDrawn(s.row, s.drawn);
  }

  lemma UploadFiled(s: State, t: State, source: FileName)
    requires Filed(s) && OneSource(s) && RandomDrawn(s.doomed, s.drawn) && Replaced(s, t, source)
    ensures Filed(t) && OneSource(t) && Live(t.row) == {source}
  {
    Cleared(t.row.variants, t.clock);
    assert Live(t.row) == {source};
  }

  lemma MarkFailedSound(s: State, t: State)
    requires Sound(s) && t == s.(row := s.row.(status := Failed))
    ensures Sound(t) && (NoOrphan(s) ==> NoOrphan(t))
  {
    assert Live(t.row) == Live(s.row);
  }

  lemma DeleteFileSound(s: State, t: State, file: FileName)
    requires Sound(s) && FileDeleted(s, t, file)
    ensures Sound(t) && (NoOrphan(s) ==> NoOrphan(t))
  {
  }

  /** A step keeps every live file in storage exactly when it is intact, and every stored file in sight exactly when thorough. */
  lemma StepSound(s: State, e: Event, t: State)
    requires Sound(s) && Step(s, e, t) && ReadSound(e, s)
    ensures Sound(t) <==> Intact(s, e)
    ensures NoOrphan(s) ==> (Whole(t) <==> Thorough(s, e))
  {
    match e {
      case Request(source, key, now, answer, gone) => RequestSound(s, t, source, key, now, answer, gone);
      case SaveVariant(source, key, file) => SaveVariantSound(s, t, source, key, file);
      case SaveRender(row, render) =>
        SaveRenderSound(s, t, row, render);
        if NoOrphan(s) {
          SaveRenderWhole(s, t, row, render);
        }
      case MarkFailed(_) => MarkFailedSound(s, t);
      case WriteDown(row, key) => WriteDownSound(s, t, row, key);
      case Upload(source) => UploadSound(s, t, source);
      case DeleteFile(name) => DeleteFileSound(s, t, name);
    }
  }

  // ----- over runs

  lemma StepGrows(s: State, e: Event, t: State)
    requires Step(s, e, t)
    ensures s.clock <= t.clock && s.drawn <= t.drawn
  {
  }

  lemma {:induction false} RunGrows(run: seq<State>, events: seq<Event>, i: nat, n: nat)
    requires IsRun(run, events) && i <= n < |run|
    ensures run[i].clock <= run[n].clock && run[i].drawn <= run[n].drawn
    decreases n
  {
    if i < n {
      RunGrows(run, events, i, n - 1);
      assert Follows(run, events, n - 1);
      StepGrows(run[n-1], events[n-1], run[n]);
    }
  }

  ghost predicate UpTo(ok: State -> bool, run: seq<State>, n: nat)
    requires n < |run|
  {
    ok(run[n]) && (n > 0 ==> UpTo(ok, run, n - 1))
  }

  lemma {:induction false} UpToAll(ok: State -> bool, run: seq<State>, n: nat)
    requires n < |run|
    ensures UpTo(ok, run, n) <==> forall i | 0 <= i <= n :: ok(run[i])
  {
    if n > 0 {
      UpToAll(ok, run, n - 1);
    }
  }

  lemma {:induction false} UpToThen(ok: State -> bool, run: seq<State>, i: nat, n: nat)
    requires i <= n < |run| && UpTo(ok, run, n)
    ensures UpTo(ok, run, i)
    decreases n
  {
    if i < n {
      UpToThen(ok, run, i, n - 1);
    }
  }

  lemma ReadThen(row: Row, s: State, t: State)
    requires Sound(s) && s.row == row && s.clock <= t.clock && s.drawn <= t.drawn
    ensures WasSound(row, t)
  {
    FlyingShrinks(row.variants, s.clock, t.clock);
  }

  /** What an event reads was sound if every state before it was. */
  lemma ReadWasSound(run: seq<State>, events: seq<Event>, n: nat)
    requires IsRun(run, events) && n < |events| && UpTo(Sound, run, n)
    ensures ReadSound(events[n], run[n])
  {
    assert Follows(run, events, n);
    var e := events[n];
    if e.SaveRender? || e.WriteDown? {
      var i :| 0 <= i <= n && run[i].row == e.row;
      RunGrows(run, events, i, n);
      UpToThen(Sound, run, i, n);
      ReadThen(e.row, run[i], run[n]);
    }
  }

  lemma NextSound(run: seq<State>, events: seq<Event>, n: nat)
    requires IsRun(run, events) && n < |events| && UpTo(Sound, run, n)
    ensures Sound(run[n+1]) <==> Intact(run[n], events[n])
    ensures NoOrphan(run[n]) ==> (Whole(run[n+1]) <==> Thorough(run[n], events[n]))
  {
    ReadWasSound(run, events, n);
    assert Sound(run[n]);
    assert Follows(run, events, n);
    StepSound(run[n], events[n], run[n+1]);
  }

  lemma {:induction false} SoundSoFar(run: seq<State>, events: seq<Event>, n: nat)
    requires IsRun(run, events) && n < |run| && Sound(run[0])
    requires forall m | 0 <= m < n :: Intact(run[m], events[m])
    ensures UpTo(Sound, run, n)
  {
    if n > 0 {
      SoundSoFar(run, events, n - 1);
      NextSound(run, events, n - 1);
    }
  }

  /** Along a run no live file is ever gone or about to go exactly when every write in it is intact. */
  lemma RunIsSound(run: seq<State>, events: seq<Event>)
    requires IsRun(run, events) && Sound(run[0])
    ensures (forall n | 0 <= n < |run| :: Sound(run[n])) <==> forall n | 0 <= n < |events| :: Intact(run[n], events[n])
  {
    if forall n | 0 <= n < |run| :: Sound(run[n]) {
      forall n | 0 <= n < |events| ensures Intact(run[n], events[n]) {
        UpToAll(Sound, run, n);
        NextSound(run, events, n);
      }
    } else if forall n | 0 <= n < |events| :: Intact(run[n], events[n]) {
      SoundSoFar(run, events, |events|);
      UpToAll(Sound, run, |events|);
    }
  }

  lemma WholeIsSound(run: seq<State>, n: nat)
    requires n < |run| && UpTo(Whole, run, n)
    ensures UpTo(Sound, run, n) && NoOrphan(run[n])
  {
    UpToAll(Whole, run, n);
    UpToAll(Sound, run, n);
  }

  lemma NextWhole(run: seq<State>, events: seq<Event>, n: nat)
    requires IsRun(run, events) && n < |events| && UpTo(Whole, run, n)
    ensures Whole(run[n+1]) <==> Thorough(run[n], events[n])
  {
    WholeIsSound(run, n);
    NextSound(run, events, n);
  }

  lemma {:induction false} WholeSoFar(run: seq<State>, events: seq<Event>, n: nat)
    requires IsRun(run, events) && n < |run| && Whole(run[0])
    requires forall m | 0 <= m < n :: Thorough(run[m], events[m])
    ensures UpTo(Whole, run, n)
  {
    if n > 0 {
      WholeSoFar(run, events, n - 1);
      NextWhole(run, events, n - 1);
    }
  }

  /** Along a run no file is ever left behind, and no live one lost, exactly when every write in it is thorough. */
  lemma RunIsWhole(run: seq<State>, events: seq<Event>)
    requires IsRun(run, events) && Whole(run[0])
    ensures (forall n | 0 <= n < |run| :: Whole(run[n])) <==> forall n | 0 <= n < |events| :: Thorough(run[n], events[n])
  {
    if forall n | 0 <= n < |run| :: Whole(run[n]) {
      forall n | 0 <= n < |events| ensures Thorough(run[n], events[n]) {
        UpToAll(Whole, run, n);
        NextWhole(run, events, n);
      }
    } else if forall n | 0 <= n < |events| :: Thorough(run[n], events[n]) {
      WholeSoFar(run, events, |events|);
      UpToAll(Whole, run, |events|);
    }
  }

  // ----- what can come between a read and its write

  /** A new upload between the two: the row names the old source again, which is about to go, and nobody the new one. */
  lemma UploadInBetween(s: State, t: State, u: State, source: FileName, render: FileName)
    requires Sound(s) && Replaced(s, t, source) && RenderSaved(t, u, s.row, render)
    ensures u.row.source == s.row.source && s.row.source in u.doomed
    ensures LeftBehind(source, u)
  {
    UploadSound(s, t, source);
    NamedApart(s.row, s.drawn);
  }

  /** A variant's first file between the two: the row loses the entry, and nobody deletes the file. */
  lemma VariantInBetween(s: State, t: State, u: State, key: Key, file: FileName, render: FileName)
    requires Sound(s) && key in s.row.variants && s.row.variants[key].file.None? && file !in s.doomed
    requires VariantSaved(s, t, key, Some(file)) && RenderSaved(t, u, s.row, render)
    ensures Thorough(s, SaveVariant(s.row.source, key, Some(file)))
    ensures LeftBehind(file, u)
  {
    NamedApart(s.row, s.drawn);
    assert file !in Live(s.row);
  }

  /** An eviction between the two: the row names the evicted entry's file again, which is about to go. */
  lemma EvictionInBetween(s: State, t: State, u: State, source: FileName, key: Key, now: int, answer: Answer,
                          gone: set<Key>, evicted: Key, down: Key)
    requires Sound(s) && Requested(s, t, source, key, now, answer, gone) && answer.Enqueued?
    requires evicted in gone && s.row.variants[evicted].file.Some?
    requires down in s.row.variants && DownWritten(t, u, s.row, down)
    ensures s.row.variants[evicted].file.value in Live(u.row) && s.row.variants[evicted].file.value in u.doomed
  {
    StatusFiles(s.row.variants, down, s.row.variants[down].(status := Failed));
    assert s.row.variants[evicted].file.value in FilesOf(u.row.variants);
  }

  /** A job that ends twice leaves its first file behind, named by nobody and scheduled for nothing. */
  lemma TwiceLeavesOrphan(s: State, t: State, u: State, key: Key, first: FileName, second: FileName)
    requires Sound(s) && key in s.row.variants && first !in s.doomed
    requires VariantSaved(s, t, key, Some(first)) && VariantSaved(t, u, key, Some(second))
    ensures LeftBehind(first, u)
  {
    SaveVariantSound(s, t, s.row.source, key, Some(first));
    NamedApart(t.row, t.drawn);
    assert first in FilesOf(t.row.variants) && second !in FilesOf(t.row.variants);
    SavedFiles(t.row.variants, key, u.row.variants[key]);
  }

  /** So does a render that is asked for again after its ready entry was marked failed because the queue was down. */
  lemma RetryLeavesOrphan(s: State, t: State, source: FileName, key: Key, now: int, answer: Answer, gone: set<Key>)
    requires Sound(s) && key in s.row.variants && s.row.variants[key].status == Failed
    requires s.row.variants[key].file.Some? && key !in gone
    requires Requested(s, t, source, key, now, answer, gone) && answer.Enqueued?
    ensures LeftBehind(s.row.variants[key].file.value, t)
  {
    NamedApart(s.row, s.drawn);
    QueueFiles(s.row.variants, gone, key, answer.entry);
    KeyLost(s.row.variants, gone, key);
  }

  /** A drawing just uploaded, its render queued. */
  function Uploaded(source: FileName, now: int): State {
    State(now, Row(source, true, None, Queued, map[]), {source}, {}, [Job(source, None)], {source})
  }

  lemma UploadedWhole(source: FileName, now: int)
    requires source.OfUpload?
    ensures Whole(Uploaded(source, now))
  {
    Cleared(map[], now);
  }

  lemma WholeSinceUpload(run: seq<State>, events: seq<Event>, source: FileName, n: nat)
    requires IsRun(run, events) && n < |run| && run[0] == Uploaded(source, 0) && source.OfUpload?
    requires forall m | 0 <= m < n :: Thorough(run[m], events[m])
    ensures UpTo(Whole, run, n)
  {
    UploadedWhole(source, 0);
    WholeSoFar(run, events, n);
  }

  /** A request that finds at most its own key's entry, which serves no more, is queued. */
  lemma LoneRequest(s: State, source: FileName, key: Key, now: int)
    requires s.row.variants.Keys <= {key} && (key in s.row.variants ==> !Serves(s.row.variants[key], now))
    ensures var entry := Entry(Queued, now, None);
            Requested(s, Queueing(s, source, key, now, entry, {}), source, key, now, Enqueued(entry), {})
  {
    SubsetSize(s.row.variants.Keys, {key});
    assert Flying(s.row.variants, now) - {key} == {};
    assert FilesAt(s.row.variants, {}) == {};
  }

  lemma ReadBefore(run: seq<State>, t: State, e: Event, n: nat)
    requires n < |run| && WasRead(run, e, n)
    ensures WasRead(run + [t], e, n)
  {
    assert forall i | 0 <= i <= n :: (run + [t])[i] == run[i];
  }

  lemma FollowedBefore(run: seq<State>, events: seq<Event>, e: Event, t: State, i: nat)
    requires IsRun(run, events) && i < |events|
    ensures Follows(run + [t], events + [e], i)
  {
    assert Follows(run, events, i);
    ReadBefore(run, t, events[i], i);
  }

  lemma Extend(run: seq<State>, events: seq<Event>, e: Event, t: State)
    requires IsRun(run, events) && Step(run[|events|], e, t) && WasRead(run, e, |events|)
    ensures IsRun(run + [t], events + [e])
  {
    ReadBefore(run, t, e, |events|);
    assert Follows(run + [t], events + [e], |events|);
    forall i | 0 <= i < |events| ensures Follows(run + [t], events + [e], i) {
      FollowedBefore(run, events, e, t, i);
    }
  }

  function Asked(s: State, source: FileName, key: Key, now: int): State {
    Queueing(s, source, key, now, Entry(Queued, now, None), {})
  }

  function Asking(source: FileName, key: Key, now: int): Event {
    Request(source, key, now, Enqueued(Entry(Queued, now, None)), {})
  }

  /** A run goes on with a request that finds at most its own key's entry. */
  lemma AskNext(run: seq<State>, events: seq<Event>, source: FileName, key: Key, now: int)
    requires IsRun(run, events)
    requires var s := run[|events|];
             s.row.variants.Keys <= {key} && s.clock <= now && (key in s.row.variants ==> !Serves(s.row.variants[key], now))
    ensures IsRun(run + [Asked(run[|events|], source, key, now)], events + [Asking(source, key, now)])
  {
    LoneRequest(run[|events|], source, key, now);
    Extend(run, events, Asking(source, key, now), Asked(run[|events|], source, key, now));
  }

  lemma AskedState(s: State, source: FileName, key: Key, now: int)
    requires s.row.variants.Keys <= {key}
    ensures var t := Asked(s, source, key, now);
            && t.clock == now && t.files == s.files && t.doomed == s.doomed
            && t.row == s.row.(variants := map[key := Entry(Queued, now, None)])
  {
    assert FilesAt(s.row.variants, {}) == {};
    assert Asked(s, source, key, now).row.variants == map[key := Entry(Queued, now, None)];
  }

  /** `key` asked for, lost for JOB_TIMEOUT and asked for again. */
  lemma AskedTwice(source: FileName, key: Key) returns (run: seq<State>, events: seq<Event>)
    requires source.OfUpload?
    ensures IsRun(run, events) && |run| == 3 && run[0] == Uploaded(source, 0)
    ensures run[2].clock == JOB_TIMEOUT && run[2].files == {source} && run[2].doomed == {}
    ensures run[2].row == Row(source, true, None, Queued, map[key := Entry(Queued, JOB_TIMEOUT, None)])
    ensures forall n | 0 <= n < 2 :: Thorough(run[n], events[n])
  {
    var s0 := Uploaded(source, 0);
    var s1 := Asked(s0, source, key, 0);
    AskedState(s0, source, key, 0);
    AskedState(s1, source, key, JOB_TIMEOUT);
    AskNext([s0], [], source, key, 0);
    AskNext([s0] + [s1], [] + [Asking(source, key, 0)], source, key, JOB_TIMEOUT);
    run := [s0] + [s1] + [Asked(s1, source, key, JOB_TIMEOUT)];
    events := [] + [Asking(source, key, 0)] + [Asking(source, key, JOB_TIMEOUT)];
  }

  /**
   From an upload to such a render: asked for twice; the first job ends after all, and then the queue turns out to be down
   for the second.
   */
  lemma FailedWithFile(source: FileName, key: Key) returns (run: seq<State>, events: seq<Event>)
    requires source.OfUpload?
    ensures IsRun(run, events) && |run| == 5 && run[0] == Uploaded(source, 0)
    ensures run[4].row.variants == map[key := Entry(Failed, JOB_TIMEOUT, Some(OfVariant(0)))]
    ensures forall n | 0 <= n < 4 :: Thorough(run[n], events[n])
  {
    run, events := AskedTwice(source, key);
    var s2 := run[2];
    var e2, e3 := SaveVariant(source, key, Some(OfVariant(0))), Entry(Ready, JOB_TIMEOUT, Some(OfVariant(0)));
    var s3 := s2.(files := s2.files + {OfVariant(0)}, row := WithEntry(s2.row, key, e3));
    assert Current(run[2].row, source);
    Extend(run, events, e2, s3);
    run, events := run + [s3], events + [e2];
    assert run[3].row == s3.row;
    Extend(run, events, WriteDown(s3.row, key), s3.(row := WithEntry(s3.row, key, e3.(status := Failed))));
    run, events := run + [s3.(row := WithEntry(s3.row, key, e3.(status := Failed)))], events + [WriteDown(s3.row, key)];
  }

  lemma FailedThenAsked(source: FileName, key: Key) returns (run: seq<State>, events: seq<Event>)
    requires source.OfUpload?
    ensures IsRun(run, events) && |run| == 6 && run[0] == Uploaded(source, 0)
    ensures run[4].row.variants == map[key := Entry(Failed, JOB_TIMEOUT, Some(OfVariant(0)))]
    ensures run[5] == Asked(run[4], source, key, run[4].clock)
    ensures forall n | 0 <= n < 4 :: Thorough(run[n], events[n])
  {
    run, events := FailedWithFile(source, key);
    var s := run[4];
    AskNext(run, events, source, key, s.clock);
    run, events := run + [Asked(s, source, key, s.clock)], events + [Asking(source, key, s.clock)];
  }

  lemma AskedLosesFile(s: State, source: FileName, key: Key, now: int)
    requires Whole(s) && s.row.variants.Keys == {key} && s.row.variants[key].status == Failed
    requires s.row.variants[key].file.Some?
    ensures LeftBehind(s.row.variants[key].file.value, Asked(s, source, key, now))
  {
    LoneRequest(s, source, key, now);
    RetryLeavesOrphan(s, Asked(s, source, key, now), source, key, now, Asking(source, key, now).answer, {});
  }

  /** The run was thorough until then, and asking for the render once more leaves its file behind. */
  lemma RetryRun(source: FileName, key: Key) returns (run: seq<State>, events: seq<Event>)
    requires source.OfUpload?
    ensures IsRun(run, events) && |run| == 6 && run[0] == Uploaded(source, 0) && UpTo(Whole, run, 4)
    ensures LeftBehind(OfVariant(0), run[5])
  {
    run, events := FailedThenAsked(source, key);
    WholeSinceUpload(run, events, source, 4);
    AskedLosesFile(run[4], source, key, run[4].clock);
  }

  // ----- one job a key at a time

  /** A request for a render that is ready or still in the air queues nothing. */
  lemma RepeatQueuesNothing(s: State, t: State, u: State, source: FileName, again: FileName, key: Key, now: int, later: int,
                            first: Answer, second: Answer, gone: set<Key>, goneThen: set<Key>)
    requires Requested(s, t, source, key, now, first, gone) && Requested(t, u, again, key, later, second, goneThen)
    requires now <= later && !first.TooManyRenders? && Serves(first.entry, later)
    ensures second == Cached(first.entry) && u == t.(clock := later)
  {
    assert key in t.row.variants && t.row.variants[key] == first.entry;
  }

  /** A queued render of `key` is over: its entry failed, or was evicted or cleared. */
  predicate Over(row: Row, key: Key) {
    key !in row.variants || row.variants[key].status == Failed
  }

  /** The entry of `key`, if there still is one that did not fail, is ready or was queued since. */
  predicate QueuedSince(s: State, key: Key, since: int) {
    && since <= s.clock
    && (Over(s.row, key) || s.row.variants[key].status == Ready || s.row.variants[key].at >= since)
  }

  predicate QueuesFor(e: Event, key: Key) {
    e.Request? && e.key == key && e.answer.Enqueued?
  }

  /** The whole map is written as it was read before the entry was queued anew, because another key's job was not taken. */
  predicate RollsBack(e: Event, key: Key, since: int) {
    && e.WriteDown? && e.key in e.row.variants && e.key != key && key in e.row.variants
    && e.row.variants[key].status == Queued && e.row.variants[key].at < since
  }

  lemma StepQueuedSince(s: State, e: Event, t: State, key: Key, since: int)
    requires Step(s, e, t) && QueuedSince(s, key, since) && !Over(s.row, key) && !RollsBack(e, key, since)
    ensures QueuedSince(t, key, since)
  {
  }

  lemma {:induction false} StaysQueuedSince(run: seq<State>, events: seq<Event>, i: nat, n: nat, key: Key, since: int)
    requires IsRun(run, events) && i <= n < |run| && QueuedSince(run[i], key, since)
    requires forall k | i <= k < n :: !Over(run[k].row, key) && !RollsBack(events[k], key, since)
    ensures QueuedSince(run[n], key, since)
    decreases n
  {
    if i < n {
      StaysQueuedSince(run, events, i, n - 1, key, since);
      assert Follows(run, events, n - 1);
      StepQueuedSince(run[n-1], events[n-1], run[n], key, since);
    }
  }

  lemma QueuedFirst(run: seq<State>, events: seq<Event>, i: nat, key: Key)
    requires IsRun(run, events) && i < |events| && QueuesFor(events[i], key)
    ensures QueuedSince(run[i+1], key, events[i].now)
  {
    assert Follows(run, events, i);
  }

  lemma QueuedNext(run: seq<State>, events: seq<Event>, j: nat, key: Key, since: int)
    requires IsRun(run, events) && j < |events| && QueuesFor(events[j], key) && QueuedSince(run[j], key, since)
    ensures Over(run[j].row, key) || events[j].now >= since + JOB_TIMEOUT
  {
    assert Follows(run, events, j);
  }

  /**
   Whatever happens in between, two jobs for one key are queued at least JOB_TIMEOUT apart, unless the first one's entry
   failed, was evicted or cleared, or was rolled back by a late write before the second.
   */
  lemma OneJobAtATime(run: seq<State>, events: seq<Event>, i: nat, j: nat, key: Key)
    requires IsRun(run, events) && i < j < |events| && QueuesFor(events[i], key) && QueuesFor(events[j], key)
    ensures || events[j].now >= events[i].now + JOB_TIMEOUT
            || (exists k :: i < k <= j && Over(run[k].row, key))
            || (exists k :: i < k < j && RollsBack(events[k], key, events[i].now))
  {
    var since := events[i].now;
    QueuedFirst(run, events, i, key);
    if forall k | i + 1 <= k < j :: !Over(run[k].row, key) && !RollsBack(events[k], key, since) {
      StaysQueuedSince(run, events, i + 1, j, key, since);
      QueuedNext(run, events, j, key, since);
    }
  }

  // ----- what a finished render is good for

  /** The step evicts or clears the entry of `key`, saves it, or writes the map back. */
  predicate Touches(e: Event, key: Key) {
    match e
    case Request(_, _, _, _, gone) => key in gone
    case SaveVariant(_, k, _) => k == key
    case SaveRender(_, _) => true
    case WriteDown(row, k) => k in row.variants
    case Upload(_) => true
    case _ => false
  }

  lemma StepLeavesEntry(s: State, e: Event, t: State, key: Key)
    requires Step(s, e, t) && key in s.row.variants && !Touches(e, key) && !QueuesFor(e, key)
    ensures key in t.row.variants && t.row.variants[key] == s.row.variants[key]
  {
  }

  lemma ReadyIsServed(s: State, e: Event, t: State, key: Key)
    requires Step(s, e, t) && key in s.row.variants && s.row.variants[key].status == Ready && e.Request? && e.key == key
    ensures e.answer == Cached(s.row.variants[key]) && t == s.(clock := e.now)
  {
  }

  lemma {:induction false} ReadyStays(run: seq<State>, events: seq<Event>, m: nat, n: nat, key: Key)
    requires IsRun(run, events) && m <= n < |run| && key in run[m].row.variants && run[m].row.variants[key].status == Ready
    requires forall k | m <= k < n :: !Touches(events[k], key)
    ensures key in run[n].row.variants && run[n].row.variants[key] == run[m].row.variants[key]
    decreases n
  {
    if m < n {
      ReadyStays(run, events, m, n - 1, key);
      assert Follows(run, events, n - 1);
      if QueuesFor(events[n-1], key) {
        ReadyIsServed(run[n-1], events[n-1], run[n], key);
      }
      StepLeavesEntry(run[n-1], events[n-1], run[n], key);
    }
  }

  lemma SavedEntry(run: seq<State>, events: seq<Event>, m: nat, key: Key, file: Option<FileName>)
    requires IsRun(run, events) && m < |events| && key in run[m].row.variants
    requires events[m].SaveVariant? && events[m].key == key && events[m].file == file
    ensures key in run[m+1].row.variants
    ensures var e := run[m+1].row.variants[key]; if file.Some? then e.status == Ready && e.file == file else e.status == Failed
  {
    assert Follows(run, events, m);
  }

  /**
   Once a variant's job ended with a file, requests for it are answered with that file and queue nothing, until the entry
   is evicted, cleared, saved again or written down.
   */
  lemma SavedIsServed(run: seq<State>, events: seq<Event>, m: nat, n: nat, key: Key, file: FileName)
    requires IsRun(run, events) && m < n < |events| && key in run[m].row.variants
    requires events[m].SaveVariant? && events[m].key == key && events[m].file == Some(file)
    requires forall k | m < k < n :: !Touches(events[k], key)
    requires events[n].Request? && events[n].key == key
    ensures events[n].answer.Cached? && events[n].answer.entry.file == Some(file)
    ensures run[n+1] == run[n].(clock := events[n].now)
  {
    SavedEntry(run, events, m, key, Some(file));
    ReadyStays(run, events, m + 1, n, key);
    assert Follows(run, events, n);
    ReadyIsServed(run[n], events[n], run[n+1], key);
  }

  lemma {:induction false} EntryStays(run: seq<State>, events: seq<Event>, m: nat, n: nat, key: Key)
    requires IsRun(run, events) && m <= n < |run| && key in run[m].row.variants
    requires forall k | m <= k < n :: !Touches(events[k], key) && !QueuesFor(events[k], key)
    ensures key in run[n].row.variants && run[n].row.variants[key] == run[m].row.variants[key]
    decreases n
  {
    if m < n {
      EntryStays(run, events, m, n - 1, key);
      assert Follows(run, events, n - 1);
      StepLeavesEntry(run[n-1], events[n-1], run[n], key);
    }
  }

  lemma FailedIsAsked(s: State, e: Event, t: State, key: Key)
    requires Step(s, e, t) && key in s.row.variants && s.row.variants[key].status == Failed && e.Request? && e.key == key
    ensures e.answer.Enqueued? <==> |Flying(s.row.variants, e.now) - {key}| < MAX_QUEUED_VARIANTS
    ensures e.answer.Enqueued? ==>
              && t.jobs == s.jobs + [Job(e.source, Some(key))]
              && key in t.row.variants && t.row.variants[key] == Entry(Queued, e.now, None)
    ensures !e.answer.Enqueued? ==> e.answer.TooManyRenders? && t == s.(clock := e.now)
  {
  }

  /** Once it ended without one, the next request queues a job anew, unless too many are in flight. */
  lemma FailedIsAskedAgain(run: seq<State>, events: seq<Event>, m: nat, n: nat, key: Key)
    requires IsRun(run, events) && m < n < |events| && key in run[m].row.variants
    requires events[m].SaveVariant? && events[m].key == key && events[m].file == None
    requires forall k | m < k < n :: !Touches(events[k], key) && !QueuesFor(events[k], key)
    requires events[n].Request? && events[n].key == key
    ensures events[n].answer.Enqueued? <==> |Flying(run[n].row.variants, events[n].now) - {key}| < MAX_QUEUED_VARIANTS
    ensures events[n].answer.Enqueued? ==>
              && run[n+1].jobs == run[n].jobs + [Job(events[n].source, Some(key))]
              && key in run[n+1].row.variants && run[n+1].row.variants[key] == Entry(Queued, events[n].now, None)
    ensures !events[n].answer.Enqueued? ==> events[n].answer.TooManyRenders? && run[n+1] == run[n].(clock := events[n].now)
  {
    SavedEntry(run, events, m, key, None);
    EntryStays(run, events, m + 1, n, key);
    assert Follows(run, events, n);
    FailedIsAsked(run[n], events[n], run[n+1], key);
  }

  /** The drawing's own render ended, failed, or is to come. */
  predicate Decides(e: Event) {
    e.SaveRender? || e.MarkFailed? || e.Upload?
  }

  lemma StepOutcome(s: State, e: Event, t: State)
    requires Step(s, e, t)
    ensures e.SaveRender? ==> t.row.status == Ready && t.row.rendered == Some(e.render)
    ensures e.MarkFailed? ==> t.row.status == Failed && t.row.rendered == s.row.rendered
    ensures e.Upload? ==> t.row.status == Queued && t.row.rendered == None && t.row.source == e.source
    ensures !Decides(e) ==> t.row.status == s.row.status && t.row.rendered == s.row.rendered
  {
  }

  /** The drawing says ready from the end of its render on, with that render, until it fails or a new file is uploaded. */
  lemma {:induction false} OutcomeStays(run: seq<State>, events: seq<Event>, m: nat, n: nat)
    requires IsRun(run, events) && m < n < |run|
    requires Decides(events[m]) && forall k | m < k < n :: !Decides(events[k])
    ensures events[m].SaveRender? ==> run[n].row.status == Ready && run[n].row.rendered == Some(events[m].render)
    ensures events[m].MarkFailed? ==> run[n].row.status == Failed && run[n].row.rendered == run[m].row.rendered
    ensures events[m].Upload? ==> run[n].row.status == Queued && run[n].row.rendered == None
    decreases n
  {
    assert Follows(run, events, n - 1);
    StepOutcome(run[n-1], events[n-1], run[n]);
    if m < n - 1 {
      OutcomeStays(run, events, m, n - 1);
    }
  }

  /** Whatever is waited for was queued: the drawing's own render, and every variant's. */
  ghost predicate HasJobs(row: Row, jobs: seq<Job>) {
    && Job(row.source, None) in jobs
    && forall k | k in row.variants :: JobFor(k, jobs)
  }

  ghost predicate JobFor(k: Key, jobs: seq<Job>) {
    exists source :: Job(source, Some(k)) in jobs
  }

  lemma StepJobs(s: State, e: Event, t: State)
    requires Step(s, e, t) && HasJobs(s.row, s.jobs) && (e.SaveRender? || e.WriteDown? ==> HasJobs(e.row, s.jobs))
    ensures HasJobs(t.row, t.jobs) && s.jobs <= t.jobs
  {
    if e.Request? && e.answer.Enqueued? {
      assert t.jobs[|s.jobs|] == Job(e.source, Some(e.key));
      assert forall k | JobFor(k, s.jobs) :: JobFor(k, t.jobs);
    }
    if e.Upload? {
      assert t.jobs[|s.jobs|] == Job(e.source, None);
    }
  }

  lemma MoreJobs(row: Row, jobs: seq<Job>, more: seq<Job>)
    requires HasJobs(row, jobs) && jobs <= more
    ensures HasJobs(row, more)
  {
    forall k | k in row.variants ensures JobFor(k, more) {
      assert JobFor(k, jobs);
    }
  }

  lemma NextHasJob(run: seq<State>, events: seq<Event>, n: nat)
    requires IsRun(run, events) && n < |events|
    requires forall i | 0 <= i <= n :: HasJobs(run[i].row, run[i].jobs) && run[i].jobs <= run[n].jobs
    ensures HasJobs(run[n+1].row, run[n+1].jobs) && run[n].jobs <= run[n+1].jobs
  {
    var e := events[n];
    assert Follows(run, events, n);
    if e.SaveRender? || e.WriteDown? {
      var i :| 0 <= i <= n && run[i].row == e.row;
      MoreJobs(e.row, run[i].jobs, run[n].jobs);
    }
    StepJobs(run[n], e, run[n+1]);
  }

  /** In every run a job was queued for each entry the row holds, and for the source it names. */
  lemma {:induction false} EveryEntryHasJob(run: seq<State>, events: seq<Event>, n: nat)
    requires IsRun(run, events) && n < |run| && HasJobs(run[0].row, run[0].jobs)
    ensures forall i | 0 <= i <= n :: HasJobs(run[i].row, run[i].jobs) && run[i].jobs <= run[n].jobs
  {
    if n > 0 {
      EveryEntryHasJob(run, events, n - 1);
      NextHasJob(run, events, n - 1);
    }
  }

  // ----- jobs for a replaced source

  /** The end of a render whose job read the row while `source` was still the drawing's. */
  predicate Restores(e: Event, source: FileName) {
    e.SaveRender? && e.row.source == source
  }

  lemma StepNewSource(s: State, e: Event, t: State, gone: FileName)
    requires Step(s, e, t) && s.row.source != gone && gone in s.drawn && !Restores(e, gone)
    ensures t.row.source != gone && gone in t.drawn
  {
  }

  lemma {:induction false} SourceStaysNew(run: seq<State>, events: seq<Event>, m: nat, n: nat, gone: FileName)
    requires IsRun(run, events) && m <= n < |run| && run[m].row.source != gone && gone in run[m].drawn
    requires forall k | m <= k < n :: !Restores(events[k], gone)
    ensures run[n].row.source != gone
    ensures gone in run[n].drawn
    decreases n
  {
    if m < n {
      SourceStaysNew(run, events, m, n - 1, gone);
      assert Follows(run, events, n - 1);
      StepNewSource(run[n-1], events[n-1], run[n], gone);
    }
  }

  /**
   Once the drawing's file is replaced, no job for the old one gets past its first look at the row again, however much
   later it comes, exactly as long as none that had looked before saves its render.
   */
  lemma OldJobsStop(run: seq<State>, events: seq<Event>, m: nat, n: nat, gone: FileName)
    requires IsRun(run, events) && m <= n < |run| && run[m].row.source != gone && gone in run[m].drawn
    ensures (forall k | m <= k <= n :: run[k].row.source != gone) <==> forall k | m <= k < n :: !Restores(events[k], gone)
  {
    if forall k | m <= k < n :: !Restores(events[k], gone) {
      forall k | m <= k <= n ensures run[k].row.source != gone {
        SourceStaysNew(run, events, m, k, gone);
      }
    } else {
      var k :| m <= k < n && Restores(events[k], gone);
      assert Follows(run, events, k);
      assert run[k+1].row.source == gone;
    }
  }

  lemma RendersKeep(run: seq<State>, events: seq<Event>, n: nat)
    requires IsRun(run, events) && n < |events| && UpTo(Sound, run, n + 1)
    ensures events[n].SaveRender? ==> events[n].row.source == run[n].row.source
  {
    UpToThen(Sound, run, n, n + 1);
    assert Sound(run[n+1]);
    NextSound(run, events, n);
  }

  lemma StepSource(s: State, e: Event, t: State)
    requires Step(s, e, t) && (e.SaveRender? ==> e.row.source == s.row.source)
    ensures e.Upload? ==> t.row.source !in s.drawn
    ensures !e.Upload? ==> t.row.source == s.row.source
  {
  }

  /** The step gives the drawing a source never drawn before if it is an upload, and leaves the source alone if not. */
  ghost predicate DrawsSource(run: seq<State>, events: seq<Event>, m: nat)
    requires m < |events| && |run| == |events| + 1
  {
    && run[m].drawn <= run[m+1].drawn
    && (events[m].Upload? ==> run[m+1].row.source !in run[m].drawn)
    && (!events[m].Upload? ==> run[m+1].row.source == run[m].row.source)
  }

  lemma NextSource(run: seq<State>, events: seq<Event>, n: nat)
    requires IsRun(run, events) && n < |events| && UpTo(Sound, run, n + 1)
    ensures DrawsSource(run, events, n)
  {
    RendersKeep(run, events, n);
    assert Follows(run, events, n);
    StepSource(run[n], events[n], run[n+1]);
    StepGrows(run[n], events[n], run[n+1]);
  }

  lemma {:induction false} SourceSince(run: seq<State>, events: seq<Event>, i: nat, n: nat)
    requires |run| == |events| + 1 && i <= n < |run| && run[i].row.source in run[i].drawn
    requires forall m | i <= m < n :: DrawsSource(run, events, m)
    ensures run[i].row.source in run[n].drawn
    ensures run[i].row.source == run[n].row.source <==> forall m | i <= m < n :: !events[m].Upload?
    decreases n
  {
    if i < n {
      SourceSince(run, events, i, n - 1);
      assert DrawsSource(run, events, n - 1);
    }
  }

  lemma ReadDrawn(run: seq<State>, i: nat, n: nat)
    requires i <= n < |run| && UpTo(Sound, run, n)
    ensures run[i].row.source in run[i].drawn
  {
    UpToThen(Sound, run, i, n);
    assert Sound(run[i]);
  }

  lemma DrawAt(run: seq<State>, events: seq<Event>, m: nat, n: nat)
    requires IsRun(run, events) && m < n < |run| && UpTo(Sound, run, n)
    ensures DrawsSource(run, events, m)
  {
    UpToThen(Sound, run, m + 1, n);
    NextSource(run, events, m);
  }

  /** As long as nothing went wrong yet, a row read earlier still has the drawing's source exactly when nobody uploaded since. */
  lemma UploadSinceRead(run: seq<State>, events: seq<Event>, i: nat, n: nat)
    requires IsRun(run, events) && i <= n < |run| && UpTo(Sound, run, n)
    ensures run[i].row.source == run[n].row.source <==> forall m | i <= m < n :: !events[m].Upload?
  {
    forall m | i <= m < n ensures DrawsSource(run, events, m) {
      DrawAt(run, events, m, n);
    }
    ReadDrawn(run, i, n);
    SourceSince(run, events, i, n);
  }

  // ----- a render with nothing saved since its row was read

  predicate Saves(e: Event) {
    e.Upload? || e.SaveRender? || (e.SaveVariant? && e.file.Some?)
  }

  ghost predicate NamesNoMore(run: seq<State>, m: nat)
    requires m + 1 < |run|
  {
    run[m+1].row.source == run[m].row.source && Named(run[m+1].row) <= Named(run[m].row)
  }

  lemma QueueNames(variants: Variants, gone: set<Key>, key: Key, entry: Entry)
    requires entry.file.None?
    ensures FilesOf((variants - gone)[key := entry]) <= FilesOf(variants)
  {
    var next := (variants - gone)[key := entry];
    forall f | f in FilesOf(next) ensures f in FilesOf(variants) {
      var k := NamedBy(next, f);
      assert Names(variants, k, f);
    }
  }

  lemma StepNames(s: State, e: Event, t: State)
    requires Step(s, e, t) && !Saves(e) && Thorough(s, e)
    ensures t.row.source == s.row.source && Named(t.row) <= Named(s.row)
  {
    match e {
      case Request(_, key, _, answer, gone) =>
        if answer.Enqueued? {
          QueueNames(s.row.variants, gone, key, answer.entry);
        }
      case SaveVariant(_, key, _) =>
        if key in s.row.variants {
          StatusFiles(s.row.variants, key, t.row.variants[key]);
        }
      case WriteDown(row, key) =>
        if key in row.variants {
          StatusFiles(row.variants, key, t.row.variants[key]);
        }
      case _ =>
    }
  }

  lemma NextNames(run: seq<State>, events: seq<Event>, m: nat, n: nat)
    requires IsRun(run, events) && m < n < |run| && UpTo(Whole, run, n) && !Saves(events[m])
    ensures NamesNoMore(run, m)
  {
    UpToThen(Whole, run, m + 1, n);
    NextWhole(run, events, m);
    assert Follows(run, events, m);
    StepNames(run[m], events[m], run[m+1]);
  }

  lemma {:induction false} NamesSince(run: seq<State>, i: nat, n: nat)
    requires i <= n < |run| && forall m | i <= m < n :: NamesNoMore(run, m)
    ensures run[n].row.source == run[i].row.source && Named(run[n].row) <= Named(run[i].row)
    decreases n
  {
    if i < n {
      NamesSince(run, i, n - 1);
      assert NamesNoMore(run, n - 1);
    }
  }

  /** With nothing uploaded, rendered or saved for a variant since its row was read, a render's end is thorough. */
  lemma NothingSavedSince(run: seq<State>, events: seq<Event>, i: nat, n: nat)
    requires IsRun(run, events) && i <= n < |events| && UpTo(Whole, run, n)
    requires events[n].SaveRender? && events[n].row == run[i].row
    requires forall m | i <= m < n :: !Saves(events[m])
    ensures Thorough(run[n], events[n])
  {
    forall m | i <= m < n ensures NamesNoMore(run, m) {
      NextNames(run, events, m, n);
    }
    NamesSince(run, i, n);
  }

  // ----- the operations

  class Drawing {
    var source: FileName
    var inTenant: bool
    var rendered: Option<FileName>
    var status: Status
    var variants: Variants
    // The clock, storage and the queue, as far as this drawing is concerned.
    var clock: int
    var files: set<FileName>
    var doomed: set<FileName>
    var jobs: seq<Job>
    var drawn: set<FileName>

    constructor (file: FileName, now: int)
      requires file.OfUpload?
      ensures Now() == Uploaded(file, now) && Whole(Now())
    {
      source, inTenant, rendered, status, variants := file, true, None, Queued, map[];
      clock, files, doomed, jobs, drawn := now, {file}, {}, [Job(file, None)], {file};
      new;
      UploadedWhole(file, now);
    }

    function Read(): Row
      reads this
    {
      Row(source, inTenant, rendered, status, variants)
    }

    function Now(): State
      reads this
    {
      State(clock, Read(), files, doomed, jobs, drawn)
    }

    /** The row, if it still holds the source a job was queued for. */
    method ReadCurrent(expected: FileName) returns (row: Option<Row>)
      ensures row == if Current(Read(), expected) then Some(Read()) else None
    {
      return if source == expected && inTenant then Some(Read()) else None;
    }

    /** The entry queued first. */
    static method Oldest(variants: Variants) returns (k: Key)
      requires |variants| > 0
      ensures k in variants && forall l | l in variants :: variants[k].at <= variants[l].at
    {
      var left := variants.Keys;
      assert |left| > 0;
      k :| k in left;
      left := left - {k};
      while left != {}
        invariant k in variants && left <= variants.Keys
        invariant forall l | l in variants :: l in left || variants[k].at <= variants[l].at
        decreases |left|
      {
        var l :| l in left;
        k := if variants[l].at < variants[k].at then l else k;
        left := left - {l};
      }
    }

    /** Drops the oldest entries until there is room for one more. */
    static method MakeRoom(variants: Variants) returns (kept: Variants, stale: set<FileName>, ghost gone: set<Key>)
      ensures Evicted(variants, gone) && kept == variants - gone && stale == FilesAt(variants, gone)
    {
      kept, stale, gone := variants, {}, {};
      while |kept| >= MAX_VARIANTS
        invariant OldestGone(variants, gone) && kept == variants - gone && |kept| + |gone| == |variants|
        invariant |kept| >= MAX_VARIANTS - 1 || gone == {}
        invariant |variants| < MAX_VARIANTS ==> gone == {}
        invariant stale == FilesAt(variants, gone)
        decreases |kept|
      {
        var k := Oldest(kept);
        OldestStep(variants, gone, k);
        StaleStep(variants, gone, k);
        stale := stale + Opt(kept[k].file);
        kept, gone := kept - {k}, gone + {k};
      }
    }

    static lemma OldestStep(variants: Variants, gone: set<Key>, k: Key)
      requires OldestGone(variants, gone) && k in variants - gone
      requires forall l | l in variants - gone :: variants[k].at <= variants[l].at
      ensures OldestGone(variants, gone + {k})
      ensures (variants - gone) - {k} == variants - (gone + {k})
      ensures |variants - (gone + {k})| == |variants - gone| - 1
    {
      var kept := variants - gone;
      assert kept.Keys == (kept - {k}).Keys + {k};
      assert |kept| == |kept.Keys| && |kept - {k}| == |(kept - {k}).Keys|;
    }

    static lemma StaleStep(variants: Variants, gone: set<Key>, k: Key)
      requires k in variants
      ensures FilesAt(variants, gone + {k}) == FilesAt(variants, gone) + Opt(variants[k].file)
    {
      forall f | f in FilesAt(variants, gone) ensures f in FilesAt(variants, gone + {k}) {
        var l := NamedAmong(variants, gone, f);
        assert Names(variants, l, f) && l in gone + {k};
      }
      if variants[k].file.Some? {
        assert Names(variants, k, variants[k].file.value) && k in gone + {k};
      }
    }

    /** Decides a request under the row's lock. */
    method Request(caller: FileName, key: Key, now: int) returns (answer: Answer, ghost gone: set<Key>)
      requires clock <= now
      modifies this
      ensures Requested(old(Now()), Now(), caller, key, now, answer, gone)
      ensures old(Sound(Now())) ==> Sound(Now())
    {
      ghost var was := Now();
      answer, gone := Decide(caller, key, now);
      if Sound(was) {
        RequestSound(was, Now(), caller, key, now, answer, gone);
      }
    }

    method Decide(caller: FileName, key: Key, now: int) returns (answer: Answer, ghost gone: set<Key>)
      modifies this
      ensures Requested(old(Now()), Now(), caller, key, now, answer, gone)
    {
      clock, gone := now, {};
      if key in variants && Serves(variants[key], now) {
        return Cached(variants[key]), gone;
      }
      var queued := |Flying(variants, now) - {key}|;
      if queued >= MAX_QUEUED_VARIANTS {
        return TooManyRenders, gone;
      }
      var entry := Entry(Queued, now, None);
      gone := Queue(caller, key, entry);
      return Enqueued(entry), gone;
    }

    /** Stores a new entry, with room made for it, and queues its job. */
    method Queue(caller: FileName, key: Key, entry: Entry) returns (ghost gone: set<Key>)
      modifies this
      ensures Evicted(old(variants), gone)
      ensures Now() == Queueing(old(Now()), caller, key, old(clock), entry, gone)
    {
      var kept, stale, g := MakeRoom(variants);
      gone := g;
      variants := kept[key := entry];
      doomed := doomed + stale;
      jobs := jobs + [Job(caller, Some(key))];
    }

    /** The end of a variant's job, with the row locked; `file` is the name its result gets if there is one. */
    method FinishVariant(key: Key, ok: bool, file: FileName)
      requires file.OfVariant? && file !in files
      modifies this
      ensures var saved := if ok then Some(file) else None;
              && VariantSaved(old(Now()), Now(), key, saved)
              && (old(Sound(Now())) ==> (Sound(Now()) <==> old(Intact(Now(), SaveVariant(source, key, saved)))))
    {
      ghost var was := Now();
      if key in variants {
        if ok {
          files := files + {file};
          variants := variants[key := variants[key].(status := Ready, file := Some(file))];
        } else {
          variants := variants[key := variants[key].(status := Failed)];
        }
      }
      if Sound(was) {
        SaveVariantSound(was, Now(), was.row.source, key, if ok then Some(file) else None);
      }
    }

    /** The end of the whole drawing's job, which read `row` a moment ago: every field is written. */
    method FinishRender(row: Row, file: FileName)
      requires file.OfRender? && file !in files && file !in drawn
      modifies this
      ensures RenderSaved(old(Now()), Now(), row, file)
      ensures old(Sound(Now()) && WasSound(row, Now())) ==> (Sound(Now()) <==> old(Intact(Now(), SaveRender(row, file))))
    {
      ghost var was := Now();
      WriteRender(row, file);
      if Sound(was) && WasSound(row, was) {
        SaveRenderSound(was, Now(), row, file);
      }
    }

    method WriteRender(row: Row, file: FileName)
      requires file.OfRender? && file !in files && file !in drawn
      modifies this
      ensures RenderSaved(old(Now()), Now(), row, file)
    {
      files, drawn := files + {file}, drawn + {file};
      source, inTenant, rendered, status, variants := row.source, row.inTenant, Some(file), Ready, map[];
      doomed := doomed + (Opt(row.rendered) + FilesOf(row.variants));
    }

    /** A render failed, or could not be queued. */
    method Fail()
      modifies this`status
      ensures Now() == old(Now()).(row := old(Read()).(status := Failed))
      ensures old(Sound(Now())) ==> Sound(Now())
    {
      ghost var was := Now();
      status := Failed;
      if Sound(was) {
        MarkFailedSound(was, Now());
      }
    }

    /** A variant's job could not be queued: the map as it was read in `row` is written back with that entry failed. */
    method QueueDown(row: Row, key: Key)
      modifies this`variants
      ensures DownWritten(old(Now()), Now(), row, key)
      ensures old(Sound(Now()) && WasSound(row, Now())) ==> (Sound(Now()) <==> old(Intact(Now(), WriteDown(row, key))))
    {
      ghost var was := Now();
      if key in row.variants {
        variants := row.variants[key := row.variants[key].(status := Failed)];
      }
      if Sound(was) && WasSound(row, was) {
        WriteDownSound(was, Now(), row, key);
      }
    }

    method Upload(file: FileName)
      requires file.OfUpload? && file !in files && file !in drawn
      modifies this
      ensures Replaced(old(Now()), Now(), file)
      ensures old(Sound(Now())) ==> Sound(Now())
    {
      ghost var was := Now();
      ReplaceSource(file);
      if Sound(was) {
        UploadSound(was, Now(), file);
      }
    }

    method ReplaceSource(file: FileName)
      requires file.OfUpload? && file !in files && file !in drawn
      modifies this
      ensures Replaced(old(Now()), Now(), file)
    {
      doomed := doomed + Live(Read());
      files, drawn := files + {file}, drawn + {file};
      source, rendered, status, variants := file, None, Queued, map[];
      jobs := jobs + [Job(file, None)];
    }

    method DeleteFile(file: FileName)
      requires file in doomed
      modifies this`files, this`doomed
      ensures FileDeleted(old(Now()), Now(), file)
      ensures old(Sound(Now())) ==> Sound(Now())
    {
      ghost var was := Now();
      files, doomed := files - {file}, doomed - {file};
      if Sound(was) {
        DeleteFileSound(was, Now(), file);
      }
    }
  }
}
