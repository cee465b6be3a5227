/**
 Weekly opening schedules (api/business_hours.py `_spans_of`, `validate_schedule`, `is_open_at`, `describe`). Times are
 minutes since midnight, with 1440 for 24:00.
 */
module BusinessHours {
  import opened Basics
  import opened Sorting

  const DAY := 1440

  type Minutes = m: nat | m <= DAY

  datatype Span = Span(start: Minutes, end: Minutes)

  /** What a day's list may hold: a pair of times, or anything else. */
  datatype Item = Pair(span: Span) | NotAPair

  /** A day as it comes in: a list of spans, a bare pair of times, or something that is no list. */
  datatype Raw = Items(items: seq<Item>) | Bare(span: Span) | NotAList

  datatype Problem = NoList | NoSpan | EndsBeforeStart | Overlapping | NoWeekday

  type Spans = seq<Span>
  type Schedule = map<int, Spans>

  function ByStart(s: Span): int { s.start }

  // ----- one day

  function ItemsOf(raw: Raw): seq<Item> {
    match raw
    case Items(items) => items
    case Bare(span) => [Pair(span)]
    case NotAList => []
  }

  predicate Forward(s: Span) { s.start < s.end }

  predicate Apart(a: Span, b: Span) { a.end <= b.start || b.end <= a.start }

  /** Each span goes forward and no two of them overlap. */
  ghost predicate Fine(spans: Spans) {
    && (forall i | 0 <= i < |spans| :: Forward(spans[i]))
    && (forall i, j | 0 <= i < j < |spans| :: Apart(spans[i], spans[j]))
  }

  /** Each span goes forward and ends before the later ones start. */
  ghost predicate Clean(spans: Spans) {
    && (forall i | 0 <= i < |spans| :: Forward(spans[i]))
    && (forall i, j | 0 <= i < j < |spans| :: spans[i].end <= spans[j].start)
  }

  ghost predicate AllPairs(items: seq<Item>) { forall i | 0 <= i < |items| :: items[i].Pair? }

  function SpansIn(items: seq<Item>): Spans {
    if items == [] then []
    else
      var before := SpansIn(items[..|items|-1]);
      if items[|items|-1].Pair? then before + [items[|items|-1].span] else before
  }

  /** A day that is accepted. */
  ghost predicate Accepted(raw: Raw) {
    !raw.NotAList? && AllPairs(ItemsOf(raw)) && Fine(SpansIn(ItemsOf(raw)))
  }

  function DaySpans(raw: Raw): Spans { Sorted(ByStart, SpansIn(ItemsOf(raw))) }

  predicate FitsNext(spans: Spans, i: nat)
    requires i + 1 < |spans|
  {
    !(spans[i+1].start < spans[i].end)
  }

  ghost predicate NeighboursFit(spans: Spans) {
    forall i: nat | i + 1 < |spans| :: FitsNext(spans, i)
  }

  /** Neighbours that do not overlap are enough once the spans are sorted. */
  lemma NeighboursAreEnough(spans: Spans)
    requires InOrder(ByStart, spans) && forall k | 0 <= k < |spans| :: Forward(spans[k])
    ensures NeighboursFit(spans) <==> Clean(spans)
  {
    if NeighboursFit(spans) {
      forall i: nat, j: nat | i < j < |spans| ensures spans[i].end <= spans[j].start {
        assert FitsNext(spans, i);
        assert ByStart(spans[i+1]) == spans[i+1].start && ByStart(spans[j]) == spans[j].start;
      }
    }
  }

  /** Sorting and comparing neighbours accepts exactly the days on which no two spans overlap, in whatever order given. */
  lemma CleanMeansFine(s: Spans)
    ensures Clean(Sorted(ByStart, s)) <==> Fine(s)
  {
    var t := Sorted(ByStart, s);
    SortedKeeps(ByStart, s, t);
    assert forall i | 0 <= i < |s| :: s[i] in t;
    assert forall i | 0 <= i < |t| :: t[i] in s;
    if Fine(s) {
      FineSorts(s, t);
    } else if Clean(t) {
      CleanUnsorts(s, t);
    }
  }

  lemma FineSorts(s: Spans, t: Spans)
    requires Fine(s) && t == Sorted(ByStart, s)
    ensures Clean(t)
  {
    assert forall i, j | 0 <= i < j < |s| :: s[i] != s[j];
    SortedKeeps(ByStart, s, t);
    assert forall i | 0 <= i < |t| :: t[i] in s;
    forall i, j | 0 <= i < j < |t| ensures t[i].end <= t[j].start {
      assert t[i] in s && t[j] in s && t[i] != t[j];
      assert ByStart(t[i]) <= ByStart(t[j]);
    }
  }

  /** Two different spans of a clean list are apart. */
  lemma CleanApart(t: Spans, a: Span, b: Span)
    requires Clean(t) && a in t && b in t && a != b
    ensures Apart(a, b)
  {
    var i :| 0 <= i < |t| && t[i] == a;
    var j :| 0 <= j < |t| && t[j] == b;
    assert if i < j then t[i].end <= t[j].start else t[j].end <= t[i].start;
  }

  lemma CleanUnsorts(s: Spans, t: Spans)
    requires Clean(t) && t == Sorted(ByStart, s)
    ensures Fine(s)
  {
    SortedKeeps(ByStart, s, t);
    forall i | 0 <= i < |s| ensures Forward(s[i]) && s[i] in t {
      assert s[i] in s;
    }
    forall i: nat, j: nat | i < j < |s| ensures Apart(s[i], s[j]) {
      SortedApart(s, t, i, j);
      CleanApart(t, s[i], s[j]);
    }
  }

  lemma SortedApart(s: Spans, t: Spans, i: nat, j: nat)
    requires Clean(t) && t == Sorted(ByStart, s) && i < j < |s|
    ensures s[i] != s[j]
  {
    SortedHasAll(ByStart, s);
    CountsTwo(s, i, j);
    assert forall a, b | 0 <= a < b < |t| :: t[a] != t[b];
    DistinctCounts(t, s[i]);
  }

  /** The items as spans, unless one is not a pair or goes backwards. */
  method Collect(items: seq<Item>) returns (r: Result<Spans, Problem>)
    ensures r.Ok? ==> AllPairs(items) && r.value == SpansIn(items) && forall k | 0 <= k < |r.value| :: Forward(r.value[k])
    ensures r.Err? ==> !AllPairs(items) || !Fine(SpansIn(items))
  {
    var spans: Spans := [];
    for i := 0 to |items|
      invariant spans == SpansIn(items[..i]) && AllPairs(items[..i])
      invariant forall k | 0 <= k < |spans| :: Forward(spans[k])
    {
      assert items[..i+1][..i] == items[..i];
      if items[i].NotAPair? {
        return Err(NoSpan);
      }
      if items[i].span.end <= items[i].span.start {
        BackwardsIsNotFine(items, i);
        return Err(EndsBeforeStart);
      }
      spans := spans + [items[i].span];
    }
    assert items[..|items|] == items;
    return Ok(spans);
  }

  /** Every span against the next. */
  method CheckNeighbours(spans: Spans) returns (fit: bool)
    ensures fit == NeighboursFit(spans)
  {
    var i: nat := 0;
    while i + 1 < |spans|
      invariant forall k: nat | k < i && k + 1 < |spans| :: FitsNext(spans, k)
    {
      if spans[i+1].start < spans[i].end {
        assert !FitsNext(spans, i);
        return false;
      }
      i := i + 1;
    }
    return true;
  }

  /** One day's value as sorted spans that do not overlap. */
  method SpansOf(raw: Raw) returns (r: Result<Spans, Problem>)
    ensures r.Ok? <==> Accepted(raw)
    ensures r.Ok? ==> r.value == DaySpans(raw)
  {
    if raw.NotAList? {
      return Err(NoList);
    }
    r := Collect(ItemsOf(raw));
    if r.Err? {
      return;
    }
    var spans := Sorted(ByStart, r.value);
    SortedKeeps(ByStart, r.value, spans);
    assert forall k | 0 <= k < |spans| :: spans[k] in r.value;
    NeighboursAreEnough(spans);
    CleanMeansFine(r.value);
    var fit := CheckNeighbours(spans);
    return if fit then Ok(spans) else Err(Overlapping);
  }

  /** A span among the items that ends before it starts makes the day unacceptable. */
  lemma BackwardsIsNotFine(items: seq<Item>, i: nat)
    requires i < |items| && items[i].Pair? && !Forward(items[i].span)
    ensures !Fine(SpansIn(items))
  {
    SpanIsIn(items, i);
  }

  lemma {:induction false} SpanIsIn(items: seq<Item>, i: nat)
    requires i < |items| && items[i].Pair?
    ensures items[i].span in SpansIn(items)
  {
    if i < |items| - 1 {
      SpanIsIn(items[..|items|-1], i);
    }
  }

  // ----- the week

  /** A day's value under its key; a key that is no weekday is refused. */
  datatype Entry = Entry(key: int, raw: Raw)

  predicate IsWeekday(key: int) { 0 <= key <= 6 }

  ghost predicate EntriesOk(entries: seq<Entry>) {
    forall i | 0 <= i < |entries| :: EntryOk(entries[i])
  }

  ghost predicate EntryOk(e: Entry) { IsWeekday(e.key) && Accepted(e.raw) }

  /** The schedule the entries give: a day without spans is closed, and of two keys for one day the later counts. */
  function ScheduleOf(entries: seq<Entry>): Schedule {
    if entries == [] then map[]
    else Entered(ScheduleOf(entries[..|entries|-1]), entries[|entries|-1])
  }

  /** What one entry does to the schedule so far. */
  function Entered(before: Schedule, e: Entry): Schedule {
    if DaySpans(e.raw) != [] then before[e.key := DaySpans(e.raw)] else before
  }

  /** The same, day by day. */
  ghost predicate OkSoFar(entries: seq<Entry>) {
    entries == [] || (OkSoFar(entries[..|entries|-1]) && EntryOk(entries[|entries|-1]))
  }

  lemma {:induction false} OkSoFarIsOk(entries: seq<Entry>)
    ensures OkSoFar(entries) <==> EntriesOk(entries)
  {
    if entries != [] {
      var front := entries[..|entries|-1];
      OkSoFarIsOk(front);
      assert EntriesOk(entries) <==> EntriesOk(front) && EntryOk(entries[|entries|-1]) by {
        assert forall i | 0 <= i < |front| :: entries[i] == front[i];
      }
    }
  }

  /** What is wrong up to a day is wrong altogether. */
  lemma {:induction false} WrongStaysWrong(entries: seq<Entry>, i: nat)
    requires i <= |entries| && !OkSoFar(entries[..i])
    ensures !OkSoFar(entries)
    decreases |entries| - i
  {
    if i < |entries| {
      assert entries[..i+1][..i] == entries[..i];
      WrongStaysWrong(entries, i + 1);
    } else {
      assert entries[..i] == entries;
    }
  }

  lemma OneEntryMore(entries: seq<Entry>, i: nat)
    requires i < |entries|
    ensures OkSoFar(entries[..i+1]) <==> OkSoFar(entries[..i]) && EntryOk(entries[i])
    ensures ScheduleOf(entries[..i+1]) == Entered(ScheduleOf(entries[..i]), entries[i])
  {
    assert entries[..i+1][..i] == entries[..i];
  }

  method Validate(entries: seq<Entry>) returns (r: Result<Schedule, Problem>)
    ensures r.Ok? <==> EntriesOk(entries)
    ensures r.Ok? ==> r.value == ScheduleOf(entries)
  {
    r := EnterAll(entries);
    OkSoFarIsOk(entries);
  }

  method EnterAll(entries: seq<Entry>) returns (r: Result<Schedule, Problem>)
    ensures r.Ok? <==> OkSoFar(entries)
    ensures r.Ok? ==> r.value == ScheduleOf(entries)
  {
    var out: Schedule := map[];
    for i := 0 to |entries|
      invariant out == ScheduleOf(entries[..i]) && OkSoFar(entries[..i])
    {
      OneEntryMore(entries, i);
      var next := Enter(out, entries[i]);
      if next.Err? {
        WrongStaysWrong(entries, i + 1);
        return next;
      }
      out := next.value;
    }
    assert entries[..|entries|] == entries;
    return Ok(out);
  }

  /** One day checked and stored. */
  method Enter(before: Schedule, e: Entry) returns (r: Result<Schedule, Problem>)
    ensures r.Ok? <==> EntryOk(e)
    ensures r.Ok? ==> r.value == Entered(before, e)
  {
    if !IsWeekday(e.key) {
      return Err(NoWeekday);
    }
    var spans := SpansOf(e.raw);
    if spans.Err? {
      return Err(spans.error);
    }
    return Ok(if spans.value != [] then before[e.key := spans.value] else before);
  }

  /** What is stored: weekdays with spans in order that do not overlap. */
  ghost predicate Stored(s: Schedule) {
    forall day | day in s :: IsWeekday(day) && s[day] != [] && Clean(s[day])
  }

  lemma {:induction false} ValidatedIsStored(entries: seq<Entry>)
    requires EntriesOk(entries)
    ensures Stored(ScheduleOf(entries))
  {
    if entries != [] {
      var last := entries[|entries|-1];
      ValidatedIsStored(entries[..|entries|-1]);
      assert EntryOk(last);
      CleanMeansFine(SpansIn(ItemsOf(last.raw)));
    }
  }

  /** The spans of a day as they are stored, handed in again. */
  function AsItems(spans: Spans): seq<Item> {
    seq(|spans|, i requires 0 <= i < |spans| => Pair(spans[i]))
  }

  lemma {:induction false} ItemsBack(spans: Spans)
    ensures SpansIn(AsItems(spans)) == spans
  {
    if spans != [] {
      var front := spans[..|spans|-1];
      ItemsBack(front);
      assert AsItems(spans)[..|spans|-1] == AsItems(front);
      assert spans == front + [spans[|spans|-1]];
    }
  }

  lemma StoredDayAgain(spans: Spans)
    requires Clean(spans)
    ensures Accepted(Items(AsItems(spans))) && DaySpans(Items(AsItems(spans))) == spans
  {
    ItemsBack(spans);
    SortedIsItself(ByStart, spans);
  }

  /** The entries list each day of the schedule with what is stored, in some order. */
  ghost predicate Lists(entries: seq<Entry>, s: Schedule) {
    && (forall i | 0 <= i < |entries| :: entries[i].key in s && entries[i].raw == Items(AsItems(s[entries[i].key])))
    && (forall i, j | 0 <= i < j < |entries| :: entries[i].key != entries[j].key)
  }

  ghost predicate ListsDay(entries: seq<Entry>, day: int) {
    exists i :: 0 <= i < |entries| && entries[i].key == day
  }

  lemma ListedSplits(entries: seq<Entry>, day: int)
    requires entries != []
    ensures ListsDay(entries, day) <==> ListsDay(entries[..|entries|-1], day) || entries[|entries|-1].key == day
  {
    var front := entries[..|entries|-1];
    assert forall i | 0 <= i < |front| :: entries[i] == front[i];
  }

  lemma ListedIsOk(entries: seq<Entry>, s: Schedule)
    requires Stored(s) && Lists(entries, s)
    ensures EntriesOk(entries)
  {
    forall i | 0 <= i < |entries| ensures EntryOk(entries[i]) {
      StoredDayAgain(s[entries[i].key]);
    }
  }

  /** The entries' schedule is the part of `s` they list. */
  ghost predicate PartOf(t: Schedule, s: Schedule, entries: seq<Entry>) {
    && (forall day :: day in t <==> ListsDay(entries, day))
    && (forall day | day in t :: day in s && t[day] == s[day])
  }

  lemma {:induction false} ListedGivesPart(entries: seq<Entry>, s: Schedule)
    requires Stored(s) && Lists(entries, s)
    ensures PartOf(ScheduleOf(entries), s, entries)
  {
    if entries != [] {
      var front, last := entries[..|entries|-1], entries[|entries|-1];
      ListedGivesPart(front, s);
      StoredDayAgain(s[last.key]);
      OneMore(ScheduleOf(front), ScheduleOf(entries), s, entries);
    }
  }

  lemma OneMore(before: Schedule, t: Schedule, s: Schedule, entries: seq<Entry>)
    requires entries != [] && PartOf(before, s, entries[..|entries|-1])
    requires var day := entries[|entries|-1].key; day in s && t == before[day := s[day]]
    ensures PartOf(t, s, entries)
  {
    forall day ensures day in t <==> ListsDay(entries, day) {
      ListedSplits(entries, day);
    }
  }

  /** A stored schedule is accepted and comes out as it is. */
  lemma ValidateAgain(s: Schedule, entries: seq<Entry>)
    requires Stored(s) && Lists(entries, s)
    requires forall day | day in s :: ListsDay(entries, day)
    ensures EntriesOk(entries) && ScheduleOf(entries) == s
  {
    ListedIsOk(entries, s);
    ListedGivesPart(entries, s);
    WholeIsSame(ScheduleOf(entries), s, entries);
  }

  lemma WholeIsSame(t: Schedule, s: Schedule, entries: seq<Entry>)
    requires PartOf(t, s, entries) && forall day | day in s :: ListsDay(entries, day)
    ensures t == s
  {
    forall day ensures day in t <==> day in s {
      assert day in s ==> ListsDay(entries, day);
      assert ListsDay(entries, day) ==> day in t;
    }
    assert t.Keys == s.Keys;
    assert forall day | day in t :: t[day] == s[day];
  }

  // ----- open minutes

  ghost predicate OpenAt(spans: Spans, now: nat) {
    exists span :: span in spans && span.start <= now < span.end
  }

  /** Sorting a day changes none of its open minutes. */
  lemma SameMinutes(raw: Raw, now: nat)
    ensures OpenAt(DaySpans(raw), now) <==> OpenAt(SpansIn(ItemsOf(raw)), now)
  {
    SortedKeeps(ByStart, SpansIn(ItemsOf(raw)), DaySpans(raw));
  }

  /**
   Whether a schedule is open, as it lies in the database: `None` when there is none, no zone to read it in, or a day
   that would not be accepted.
   */
  method IsOpenAt(s: map<int, Raw>, zoneKnown: bool, weekday: int, now: nat) returns (open: Option<bool>)
    ensures open.Some? <==> s != map[] && zoneKnown && (weekday in s ==> Accepted(s[weekday]))
    ensures open.Some? ==> (open.value <==> weekday in s && OpenAt(SpansIn(ItemsOf(s[weekday])), now))
  {
    if s == map[] || !zoneKnown {
      return None;
    }
    if weekday !in s {
      return Some(false);
    }
    var spans := SpansOf(s[weekday]);
    if spans.Err? {
      return None;
    }
    SameMinutes(s[weekday], now);
    var yes := AnyOpen(spans.value, now);
    return Some(yes);
  }

  method AnyOpen(spans: Spans, now: nat) returns (open: bool)
    ensures open <==> OpenAt(spans, now)
  {
    for i := 0 to |spans|
      invariant forall k | 0 <= k < i :: !(spans[k].start <= now < spans[k].end)
    {
      if spans[i].start <= now < spans[i].end {
        return true;
      }
    }
    return false;
  }

  // ----- the summary

  /** Consecutive days with the same spans. */
  datatype Run = Run(first: int, last: int, spans: Spans)

  datatype Summary = Nothing | AlwaysOpen | Runs(runs: seq<Run>)

  const ALL_DAY: Spans := [Span(0, DAY)]

  function Days(first: int, last: int, spans: Spans): Schedule
    decreases last - first
  {
    if last < first then map[] else Days(first, last - 1, spans)[last := spans]
  }

  function RunDays(r: Run): Schedule { Days(r.first, r.last, r.spans) }

  function Expanded(runs: seq<Run>): Schedule {
    if runs == [] then map[] else Expanded(runs[..|runs|-1]) + RunDays(runs[|runs|-1])
  }

  /** The schedule a summary stands for. */
  function Meaning(s: Summary): Schedule {
    match s
    case Nothing => map[]
    case AlwaysOpen => Days(0, 6, ALL_DAY)
    case Runs(runs) => Expanded(runs)
  }

  /** Two runs as they follow each other: in order, and not to be joined. */
  ghost predicate Split(a: Run, b: Run) {
    a.last < b.first && (a.last + 1 == b.first ==> a.spans != b.spans)
  }

  ghost predicate SplitAt(runs: seq<Run>, i: nat)
    requires i + 1 < |runs|
  {
    Split(runs[i], runs[i+1])
  }

  /** Runs of open days as long as they can be. */
  ghost predicate Maximal(runs: seq<Run>) {
    && (forall i | 0 <= i < |runs| :: runs[i].first <= runs[i].last && runs[i].spans != [])
    && (forall i: nat | i + 1 < |runs| :: SplitAt(runs, i))
  }

  /** The part of a schedule before a day. */
  function Before(s: Schedule, day: int): Schedule { map d | d in s && 0 <= d < day :: s[d] }

  /** The runs so far with the one under way. */
  function WithRun(parts: seq<Run>, run: seq<int>, last: Spans): seq<Run> {
    if run == [] then parts else parts + [Run(run[0], run[|run|-1], last)]
  }

  function DaySpansAt(s: Schedule, day: int): Spans { if day in s then s[day] else [] }

  /** What the loop knows before it looks at a day. */
  ghost predicate SoFar(s: Schedule, day: int, parts: seq<Run>, run: seq<int>, last: Spans) {
    && (run != [] ==> run[0] <= run[|run|-1] == day - 1)
    && last == DaySpansAt(s, day - 1) && (run == [] <==> last == [])
    && Shows(s, day, WithRun(parts, run, last))
  }

  /** The runs are the schedule before a day, and none of them could be longer. */
  ghost predicate Shows(s: Schedule, day: int, runs: seq<Run>) {
    Maximal(runs) && Expanded(runs) == Before(s, day) && forall i | 0 <= i < |runs| :: runs[i].last < day
  }

  /** The summary of a stored schedule: its expansion is the schedule, and no two of its runs could be one. */
  method Describe(s: Schedule) returns (d: Summary)
    requires Stored(s)
    ensures Meaning(d) == s
    ensures d.Nothing? <==> s == map[]
    ensures d.Runs? ==> Maximal(d.runs)
  {
    if s == map[] {
      return Nothing;
    }
    if s == Days(0, 6, ALL_DAY) {
      return AlwaysOpen;
    }
    var parts: seq<Run> := [];
    var run: seq<int>, last: Spans := [], [];
    for day := 0 to 7
      invariant SoFar(s, day, parts, run, last)
    {
      var spans := DaySpansAt(s, day);
      if spans != [] && spans == last && run != [] && run[|run|-1] == day - 1 {
        RunGrows(parts, run, last, day, s);
        run := run + [day];
      } else {
        RunStarts(parts, run, last, day, s);
        parts := WithRun(parts, run, last);
        run := if spans != [] then [day] else [];
        last := spans;
      }
    }
    assert Before(s, 7) == s;
    return Runs(WithRun(parts, run, last));
  }

  lemma BeforeNext(s: Schedule, day: int)
    requires Stored(s) && day >= 0
    ensures Before(s, day + 1) == if day in s then Before(s, day)[day := s[day]] else Before(s, day)
  {
  }

  lemma OneRunMore(runs: seq<Run>, r: Run)
    ensures Expanded(runs + [r]) == Expanded(runs) + RunDays(r)
  {
    assert (runs + [r])[..|runs|] == runs;
  }

  lemma GrownIsMaximal(parts: seq<Run>, r: Run, day: int)
    requires Maximal(parts + [r]) && r.last == day - 1
    requires forall i | 0 <= i <= |parts| :: (parts + [r])[i].last < day
    ensures Maximal(parts + [r.(last := day)])
    ensures forall i | 0 <= i <= |parts| :: (parts + [r.(last := day)])[i].last < day + 1
  {
    var was, now := parts + [r], parts + [r.(last := day)];
    assert was[|parts|] == r;
    assert forall i | 0 <= i < |parts| :: now[i] == was[i];
    forall i: nat | i + 1 < |now| ensures SplitAt(now, i) {
      assert SplitAt(was, i);
    }
  }

  /** A run that goes on for one more day adds just that day. */
  lemma GrownExpands(parts: seq<Run>, r: Run, day: int)
    requires r.last == day - 1 && r.first <= day
    ensures Expanded(parts + [r.(last := day)]) == Expanded(parts + [r])[day := r.spans]
  {
    OneRunMore(parts, r);
    OneRunMore(parts, r.(last := day));
    assert RunDays(r.(last := day)) == RunDays(r)[day := r.spans];
  }

  lemma GrownShows(s: Schedule, day: int, parts: seq<Run>, r: Run)
    requires Shows(s, day, parts + [r]) && r.last == day - 1 && r.first <= day
    requires Before(s, day + 1) == Before(s, day)[day := r.spans]
    ensures Shows(s, day + 1, parts + [r.(last := day)])
  {
    GrownExpands(parts, r, day);
    GrownIsMaximal(parts, r, day);
  }

  lemma RunGrows(parts: seq<Run>, run: seq<int>, last: Spans, day: int, s: Schedule)
    requires Stored(s) && day >= 0 && SoFar(s, day, parts, run, last)
    requires run != [] && last == DaySpansAt(s, day) != []
    ensures SoFar(s, day + 1, parts, run + [day], last)
  {
    var r := Run(run[0], day - 1, last);
    assert WithRun(parts, run + [day], last) == parts + [r.(last := day)];
    BeforeNext(s, day);
    GrownShows(s, day, parts, r);
  }

  lemma NewIsMaximal(runs: seq<Run>, r: Run)
    requires Maximal(runs) && r.first <= r.last && r.spans != []
    requires runs != [] ==> Split(runs[|runs|-1], r)
    ensures Maximal(runs + [r])
  {
    var more := runs + [r];
    forall i: nat | i + 1 < |more| ensures SplitAt(more, i) {
      assert i + 1 < |runs| ==> SplitAt(runs, i);
    }
  }

  lemma RunStarts(parts: seq<Run>, run: seq<int>, last: Spans, day: int, s: Schedule)
    requires Stored(s) && day >= 0 && SoFar(s, day, parts, run, last)
    requires DaySpansAt(s, day) == [] || DaySpansAt(s, day) != last
    ensures SoFar(s, day + 1, WithRun(parts, run, last), if day in s then [day] else [], DaySpansAt(s, day))
  {
    var runs, spans := WithRun(parts, run, last), DaySpansAt(s, day);
    BeforeNext(s, day);
    LastIsLast(s, day, parts, run, last);
    if day in s {
      StartShows(s, day, runs, spans);
    }
  }

  lemma StartShows(s: Schedule, day: int, runs: seq<Run>, spans: Spans)
    requires Shows(s, day, runs) && day in s && spans == s[day] != []
    requires Before(s, day + 1) == Before(s, day)[day := spans]
    requires runs != [] && runs[|runs|-1].last == day - 1 ==> runs[|runs|-1].spans != spans
    ensures Shows(s, day + 1, runs + [Run(day, day, spans)])
  {
    var r := Run(day, day, spans);
    OneRunMore(runs, r);
    NewIsMaximal(runs, r);
    assert Days(day, day - 1, spans) == map[];
    assert RunDays(r) == map[day := spans];
  }

  /** The run that ended yesterday, if any, is the one under way. */
  lemma LastIsLast(s: Schedule, day: int, parts: seq<Run>, run: seq<int>, last: Spans)
    requires SoFar(s, day, parts, run, last)
    ensures var runs := WithRun(parts, run, last);
            runs != [] && runs[|runs|-1].last == day - 1 ==> runs[|runs|-1].spans == last
  {
    var runs := WithRun(parts, run, last);
    if run == [] && runs != [] {
      var r := runs[|runs|-1];
      assert RunDays(r) == Days(r.first, r.last, r.spans);
      assert r.last in Expanded(runs);
    }
  }
}
