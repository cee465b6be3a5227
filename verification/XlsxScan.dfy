/**
 Counting the tags of a workbook's XML while it streams in (api/io_views.py `_check_xlsx`): a tail of 32
 bytes is carried from one chunk to the next, and tags that start in it wait for the next chunk.
 */
module XlsxScan {

  import opened ByteStrings

  datatype Tag = Si | Row | Cell

  const MAX_STRINGS := 250_000
  const MAX_COLUMNS := 500
  const TAIL := 32
  /** The longest match: '<', a prefix of 16 and ':', "row" and the byte after it. */
  const LONGEST := 22

  predicate IsWord(b: byte) {
    48 <= b <= 57 || 65 <= b <= 90 || b == 95 || 97 <= b <= 122
  }

  predicate EndsName(b: byte) {
    b == 32 || 9 <= b <= 13 || b == 62 || b == 47
  }

  // ----- the pattern as a set of texts

  function NameLength(tag: Tag): nat {
    match tag
    case Si => 2
    case Row => 3
    case Cell => 1
  }

  /** The name "si", "row" or "c" stands at `i`, followed by a byte that ends it. */
  predicate NameHere(s: seq<byte>, i: nat, tag: Tag) {
    && i + NameLength(tag) < |s|
    && EndsName(s[i+NameLength(tag)])
    && match tag
       case Si => s[i] == 115 && s[i+1] == 105
       case Row => s[i] == 114 && s[i+1] == 111 && s[i+2] == 119
       case Cell => s[i] == 99
  }

  /** '<' stands at `i`, then `p` bytes of prefix - none, or 1 to 16 word bytes and a colon - then the name. */
  ghost predicate MatchWith(s: seq<byte>, i: nat, tag: Tag, p: nat) {
    && i < |s| && s[i] == 60
    && (p == 0 || (2 <= p <= 17 && i + p < |s| && s[i+p] == 58 && forall k | i < k < i + p :: IsWord(s[k])))
    && NameHere(s, i + 1 + p, tag)
  }

  /** <(?:\w{1,16}:)?(si|row|c)[\s>/] matches the `n` bytes at `i`, with the group `tag`. */
  ghost predicate IsMatch(s: seq<byte>, i: nat, tag: Tag, n: nat) {
    exists p: nat :: MatchWith(s, i, tag, p) && n == p + NameLength(tag) + 2
  }

  // ----- finding a match at a position

  datatype Found = NoTag | At(tag: Tag, length: nat)

  /** The name at `i` with the byte that ends it. */
  function NameAt(s: seq<byte>, i: nat): Found {
    if NameHere(s, i, Si) then At(Si, 3)
    else if NameHere(s, i, Row) then At(Row, 4)
    else if NameHere(s, i, Cell) then At(Cell, 2)
    else NoTag
  }

  /** Where the word bytes that start at `i` end. */
  function WordEnd(s: seq<byte>, i: nat): (e: nat)
    requires i <= |s|
    ensures i <= e <= |s|
    ensures forall k | i <= k < e :: IsWord(s[k])
    ensures e < |s| ==> !IsWord(s[e])
    decreases |s| - i
  {
    if i == |s| || !IsWord(s[i]) then i else WordEnd(s, i + 1)
  }

  /** How many bytes of prefix follow a '<' at `i`: a word of up to 16 bytes with its colon, or none. */
  function PrefixAt(s: seq<byte>, i: nat): (p: nat)
    requires i < |s|
    ensures p == 0 || (2 <= p <= 17 && i + p < |s|)
  {
    var e := WordEnd(s, i + 1);
    if i + 1 < e <= i + 17 && e < |s| && s[e] == 58 then e - i else 0
  }

  /** The match that starts at `i`. */
  function TagAt(s: seq<byte>, i: nat): (f: Found)
    ensures f.At? ==> 3 <= f.length <= LONGEST && i + f.length <= |s| && s[i] == 60
  {
    if i >= |s| || s[i] != 60 then NoTag
    else
      var p := PrefixAt(s, i);
      var f := NameAt(s, i + 1 + p);
      if f.At? then At(f.tag, 1 + p + f.length) else NoTag
  }

  lemma {:induction false} WordEndIs(s: seq<byte>, i: nat, e: nat)
    requires i <= e < |s| && (forall k | i <= k < e :: IsWord(s[k])) && !IsWord(s[e])
    ensures WordEnd(s, i) == e
    decreases e - i
  {
    if i < e {
      WordEndIs(s, i + 1, e);
    }
  }

  /** The search at a position finds exactly the matches of the pattern; tag and length are never in doubt. */
  lemma TagAtMatches(s: seq<byte>, i: nat, tag: Tag, n: nat)
    ensures TagAt(s, i) == At(tag, n) <==> IsMatch(s, i, tag, n)
  {
    if IsMatch(s, i, tag, n) {
      var p: nat :| MatchWith(s, i, tag, p) && n == p + NameLength(tag) + 2;
      MatchIsFound(s, i, tag, p);
    }
    if TagAt(s, i) == At(tag, n) {
      FoundIsMatch(s, i, tag, n);
    }
  }

  lemma MatchIsFound(s: seq<byte>, i: nat, tag: Tag, p: nat)
    requires MatchWith(s, i, tag, p)
    ensures TagAt(s, i) == At(tag, p + NameLength(tag) + 2)
  {
    NameIsFound(s, i + 1 + p, tag);
    if p == 0 {
      WordEndIs(s, i + 1, i + 1 + NameLength(tag));
    } else {
      WordEndIs(s, i + 1, i + p);
    }
  }

  lemma NameIsFound(s: seq<byte>, i: nat, tag: Tag)
    requires NameHere(s, i, tag)
    ensures NameAt(s, i) == At(tag, NameLength(tag) + 1)
    ensures forall k | i <= k < i + NameLength(tag) :: IsWord(s[k])
    ensures !IsWord(s[i+NameLength(tag)]) && s[i+NameLength(tag)] != 58
  {
  }

  lemma FoundIsMatch(s: seq<byte>, i: nat, tag: Tag, n: nat)
    requires TagAt(s, i) == At(tag, n)
    ensures IsMatch(s, i, tag, n)
  {
    assert MatchWith(s, i, tag, PrefixAt(s, i));
  }

  /** A match holds '<' only at its start, so no two matches overlap. */
  lemma MatchHasOneStart(s: seq<byte>, i: nat, k: nat)
    requires TagAt(s, i).At? && i < k < i + TagAt(s, i).length
    ensures TagAt(s, k) == NoTag
  {
    var p := PrefixAt(s, i);
    assert k <= i + p ==> s[k] != 60;
  }

  // ----- the tags of a text

  /** The tags that start in `from` .. `upto`, in order. */
  function Tags(s: seq<byte>, from: nat, upto: nat): seq<Tag>
    requires from <= upto
    decreases upto - from
  {
    if from == upto then []
    else
      var f := TagAt(s, from);
      (if f.At? then [f.tag] else []) + Tags(s, from + 1, upto)
  }

  lemma {:induction false} TagsJoin(s: seq<byte>, a: nat, b: nat, c: nat)
    requires a <= b <= c
    ensures Tags(s, a, c) == Tags(s, a, b) + Tags(s, b, c)
    decreases b - a
  {
    if a < b {
      TagsJoin(s, a + 1, b, c);
    }
  }

  // ----- a match is decided by the 22 bytes from where it starts

  lemma {:induction false} EndInSuffix(s: seq<byte>, k: nat, i: nat)
    requires k + i <= |s|
    ensures WordEnd(s[k..], i) + k == WordEnd(s, k + i)
    decreases |s| - i
  {
    if k + i < |s| && IsWord(s[k+i]) {
      EndInSuffix(s, k, i + 1);
    }
  }

  lemma PrefixInSuffix(s: seq<byte>, k: nat, i: nat)
    requires k + i < |s|
    ensures PrefixAt(s[k..], i) == PrefixAt(s, k + i)
  {
    EndInSuffix(s, k, i + 1);
  }

  lemma TagInSuffix(s: seq<byte>, k: nat, i: nat)
    requires k <= |s|
    ensures TagAt(s[k..], i) == TagAt(s, k + i)
  {
    if k + i < |s| && s[k+i] == 60 {
      PrefixInSuffix(s, k, i);
      NameInSuffix(s, k, i + 1 + PrefixAt(s[k..], i));
    }
  }

  lemma NameInSuffix(s: seq<byte>, k: nat, i: nat)
    requires k <= |s|
    ensures NameAt(s[k..], i) == NameAt(s, k + i)
  {
  }

  /** With more text behind it a word ends where it did, or it reached the end of the text. */
  lemma {:induction false} EndInPrefix(s: seq<byte>, t: seq<byte>, i: nat)
    requires i <= |s|
    ensures WordEnd(s, i) < |s| ==> WordEnd(s + t, i) == WordEnd(s, i)
    ensures WordEnd(s, i) == |s| ==> WordEnd(s + t, i) >= |s|
    decreases |s| - i
  {
    if i < |s| && IsWord(s[i]) {
      EndInPrefix(s, t, i + 1);
    }
  }

  lemma TagInPrefix(s: seq<byte>, t: seq<byte>, i: nat)
    requires i + LONGEST <= |s|
    ensures TagAt(s + t, i) == TagAt(s, i)
  {
    EndInPrefix(s, t, i + 1);
    assert PrefixAt(s + t, i) == PrefixAt(s, i);
    NameInPrefix(s, t, i + 1 + PrefixAt(s, i));
  }

  lemma NameInPrefix(s: seq<byte>, t: seq<byte>, i: nat)
    requires i + 4 <= |s|
    ensures NameAt(s + t, i) == NameAt(s, i)
  {
  }

  // ----- the counts a run of tags gives

  datatype Tally = Counts(strings: nat, cells: nat) | TooManyTexts | TooManyColumns

  function CountTag(tag: Tag, strings: nat, cells: nat): Tally {
    match tag
    case Si => if strings + 1 > MAX_STRINGS then TooManyTexts else Counts(strings + 1, cells)
    case Row => Counts(strings, 0)
    case Cell => if cells + 1 > MAX_COLUMNS then TooManyColumns else Counts(strings, cells + 1)
  }

  /** Counting in order, given up at the first limit passed. */
  function CountTags(tags: seq<Tag>, from: Tally): Tally
    decreases |tags|
  {
    if tags == [] || !from.Counts? then from
    else CountTags(tags[1..], CountTag(tags[0], from.strings, from.cells))
  }

  lemma {:induction false} CountJoin(a: seq<Tag>, b: seq<Tag>, from: Tally)
    ensures CountTags(a + b, from) == CountTags(b, CountTags(a, from))
    decreases |a|
  {
    if a == [] {
      assert a + b == b;
    } else if from.Counts? {
      assert (a + b)[1..] == a[1..] + b;
      CountJoin(a[1..], b, CountTag(a[0], from.strings, from.cells));
    } else {
      assert CountTags(b, from) == from;
    }
  }

  // ----- what the counts mean

  /** How often a tag occurs. */
  function Times(tags: seq<Tag>, tag: Tag): nat { multiset(tags)[tag] }

  /** Between two rows, or before the first or behind the last, there are no more cells than allowed. */
  ghost predicate RowsFit(tags: seq<Tag>) {
    forall a, b | 0 <= a <= b <= |tags| && Row !in tags[a..b] :: Times(tags[a..b], Cell) <= MAX_COLUMNS
  }

  /** The tags keep both limits when `strings` texts were there before. */
  ghost predicate Within(tags: seq<Tag>, strings: nat) {
    strings + Times(tags, Si) <= MAX_STRINGS && RowsFit(tags)
  }

  /** The cells behind the last row. */
  function LastRow(tags: seq<Tag>): nat {
    if tags == [] || tags[|tags|-1] == Row then 0
    else LastRow(tags[..|tags|-1]) + if tags[|tags|-1] == Cell then 1 else 0
  }

  lemma TimesOn(tags: seq<Tag>, last: Tag, tag: Tag)
    ensures Times(tags + [last], tag) == Times(tags, tag) + if last == tag then 1 else 0
  {
  }

  /** No stretch without a row that ends where the tags do has more cells. */
  lemma {:induction false} LastRowIsMost(tags: seq<Tag>, a: nat)
    requires a <= |tags| && Row !in tags[a..]
    ensures Times(tags[a..], Cell) <= LastRow(tags)
    decreases |tags|
  {
    if a < |tags| {
      var front := tags[..|tags|-1];
      assert tags[a..] == front[a..] + [tags[|tags|-1]];
      LastRowIsMost(front, a);
      TimesOn(front[a..], tags[|tags|-1], Cell);
    }
  }

  lemma {:induction false} LastRowIsOne(tags: seq<Tag>) returns (a: nat)
    ensures a <= |tags| && Row !in tags[a..] && Times(tags[a..], Cell) == LastRow(tags)
  {
    if tags == [] || tags[|tags|-1] == Row {
      a := |tags|;
    } else {
      var front := tags[..|tags|-1];
      a := LastRowIsOne(front);
      assert tags[a..] == front[a..] + [tags[|tags|-1]];
      TimesOn(front[a..], tags[|tags|-1], Cell);
    }
  }

  /** One tag more keeps the rows' limit exactly when its own row does. */
  lemma RowsFitOn(tags: seq<Tag>, last: Tag)
    ensures RowsFit(tags + [last]) <==> RowsFit(tags) && LastRow(tags + [last]) <= MAX_COLUMNS
  {
    var all := tags + [last];
    if RowsFit(all) {
      forall a, b | 0 <= a <= b <= |tags| && Row !in tags[a..b] ensures Times(tags[a..b], Cell) <= MAX_COLUMNS {
        assert all[a..b] == tags[a..b];
      }
      var a := LastRowIsOne(all);
      assert all[a..|all|] == all[a..];
    }
    if RowsFit(tags) && LastRow(all) <= MAX_COLUMNS {
      forall a, b | 0 <= a <= b <= |all| && Row !in all[a..b] ensures Times(all[a..b], Cell) <= MAX_COLUMNS {
        if b <= |tags| {
          assert all[a..b] == tags[a..b];
        } else {
          assert all[a..b] == all[a..];
          LastRowIsMost(all, a);
        }
      }
    }
  }

  /** What the tags give tells whether they keep both limits, the number of texts, and the first tag that breaks one. */
  ghost predicate Tells(tags: seq<Tag>, strings: nat, c: Tally) {
    if c.Counts? then Within(tags, strings) && c.strings == strings + Times(tags, Si) && c.cells == LastRow(tags)
    else !Within(tags, strings) && exists k: nat :: BreaksAs(tags, strings, k, c)
  }

  ghost predicate BreaksAs(tags: seq<Tag>, strings: nat, k: nat, c: Tally) {
    Breaks(tags, strings, k) && c == if tags[k] == Si then TooManyTexts else TooManyColumns
  }

  lemma LastRowFits(tags: seq<Tag>)
    requires RowsFit(tags)
    ensures LastRow(tags) <= MAX_COLUMNS
  {
    var a := LastRowIsOne(tags);
    assert tags[a..|tags|] == tags[a..];
  }

  lemma TellsOn(front: seq<Tag>, last: Tag, strings: nat, before: Tally)
    requires Tells(front, strings, before)
    ensures Tells(front + [last], strings, CountTags([last], before))
  {
    TimesOn(front, last, Si);
    RowsFitOn(front, last);
    if before.Counts? {
      assert CountTags([last], before) == CountTag(last, before.strings, before.cells);
      assert (front + [last])[..|front|+1] == front + [last] && (front + [last])[..|front|] == front;
      assert LastRow(front + [last]) == if last == Row then 0 else before.cells + if last == Cell then 1 else 0 by {
        assert (front + [last])[..|front|] == front;
      }
      LastRowFits(front);
      if !Within(front + [last], strings) {
        assert BreaksAs(front + [last], strings, |front|, CountTags([last], before));
      }
    } else {
      var k: nat :| BreaksAs(front, strings, k, before);
      BreaksOn(front, last, strings, k);
      assert BreaksAs(front + [last], strings, k, before);
    }
  }

  /**
   Counting goes through exactly when both limits are kept, and then it has counted the texts; otherwise it stops at the
   first tag that breaks one, and says which.
   */
  lemma {:induction false} CountMeans(tags: seq<Tag>, strings: nat)
    requires strings <= MAX_STRINGS
    ensures Tells(tags, strings, CountTags(tags, Counts(strings, 0)))
    decreases |tags|
  {
    if tags != [] {
      var front, last := tags[..|tags|-1], tags[|tags|-1];
      assert tags == front + [last];
      CountMeans(front, strings);
      CountJoin(front, [last], Counts(strings, 0));
      TellsOn(front, last, strings, CountTags(front, Counts(strings, 0)));
    } else {
      assert forall a, b | 0 <= a <= b <= |tags| :: tags[a..b] == [];
    }
  }

  /** The tags before position `k` keep both limits, and with it they do not. */
  ghost predicate Breaks(tags: seq<Tag>, strings: nat, k: nat) {
    k < |tags| && Within(tags[..k], strings) && !Within(tags[..k+1], strings)
  }

  lemma BreaksOn(tags: seq<Tag>, last: Tag, strings: nat, k: nat)
    requires Breaks(tags, strings, k)
    ensures Breaks(tags + [last], strings, k) && (tags + [last])[k] == tags[k]
  {
    assert (tags + [last])[..k] == tags[..k] && (tags + [last])[..k+1] == tags[..k+1];
  }

  /** A whole member counted in one go. */
  function CountText(text: seq<byte>, strings: nat): Tally {
    CountTags(Tags(text, 0, |text|), Counts(strings, 0))
  }

  function Flat(chunks: seq<seq<byte>>): seq<byte> {
    if chunks == [] then [] else chunks[0] + Flat(chunks[1..])
  }

  // ----- the streamed count

  /** `count` is what the first `upto` bytes of the text give. */
  ghost predicate UpTo(text: seq<byte>, upto: nat, strings: nat, count: Tally) {
    count == CountTags(Tags(text, 0, upto), Counts(strings, 0))
  }

  lemma NoTagsInside(text: seq<byte>, i: nat, from: nat, upto: nat)
    requires TagAt(text, i).At? && i < from <= upto <= i + TagAt(text, i).length
    ensures Tags(text, from, upto) == []
    decreases upto - from
  {
    if from < upto {
      MatchHasOneStart(text, i, from);
      NoTagsInside(text, i, from + 1, upto);
    }
  }

  lemma CountOn(text: seq<byte>, from: nat, upto: nat, strings: nat, count: Tally)
    requires from <= upto && UpTo(text, from, strings, count)
    ensures UpTo(text, upto, strings, CountTags(Tags(text, from, upto), count))
  {
    TagsJoin(text, 0, from, upto);
    CountJoin(Tags(text, 0, from), Tags(text, from, upto), Counts(strings, 0));
  }

  lemma CountedOne(text: seq<byte>, i: nat, upto: nat, strings: nat, count: Tally)
    requires UpTo(text, i, strings, count) && count.Counts? && i < upto
    requires var f := TagAt(text, i); if f.At? then upto <= i + f.length else upto == i + 1
    ensures var f := TagAt(text, i);
            UpTo(text, upto, strings, if f.At? then CountTag(f.tag, count.strings, count.cells) else count)
  {
    var f := TagAt(text, i);
    CountOn(text, i, upto, strings, count);
    if f.At? {
      NoTagsInside(text, i, i + 1, upto);
      assert Tags(text, i, upto) == [f.tag];
      assert CountTags([f.tag], count) == CountTag(f.tag, count.strings, count.cells);
    } else {
      assert Tags(text, i, upto) == [];
    }
  }

  /** Up to `cut` the buffer shows the matches of the text from `base` on. */
  ghost predicate Sees(text: seq<byte>, base: nat, buf: seq<byte>, cut: nat) {
    base + cut <= |text| && forall i: nat | i < cut :: TagAt(buf, i) == TagAt(text, base + i)
  }

  /** What a position adds to the count, and where the search goes on. */
  function CountAt(buf: seq<byte>, pos: nat, count: Tally): Tally
    requires count.Counts?
  {
    var f := TagAt(buf, pos);
    if f.At? then CountTag(f.tag, count.strings, count.cells) else count
  }

  function Behind(buf: seq<byte>, pos: nat): (next: nat)
    ensures pos < next
  {
    var f := TagAt(buf, pos);
    pos + if f.At? then f.length else 1
  }

  /** How much of the text is counted once the search stands at `next`. */
  function Settled(base: nat, cut: nat, next: nat): nat { base + if next < cut then next else cut }

  lemma CountedHere(text: seq<byte>, base: nat, buf: seq<byte>, cut: nat, pos: nat, strings: nat, count: Tally)
    requires Sees(text, base, buf, cut) && pos < cut && count.Counts? && UpTo(text, base + pos, strings, count)
    ensures UpTo(text, Settled(base, cut, Behind(buf, pos)), strings, CountAt(buf, pos, count))
  {
    assert TagAt(buf, pos) == TagAt(text, base + pos);
    CountedOne(text, base + pos, Settled(base, cut, Behind(buf, pos)), strings, count);
  }

  /** Once a limit is passed nothing further counts. */
  lemma OverStays(text: seq<byte>, upto: nat, strings: nat, count: Tally)
    requires upto <= |text| && UpTo(text, upto, strings, count) && !count.Counts?
    ensures UpTo(text, |text|, strings, count)
  {
    CountOn(text, upto, |text|, strings, count);
  }

  /** Counts the matches of one buffer that start before `cut`, as the pattern's iterator meets them. */
  method ScanBuffer(ghost text: seq<byte>, ghost base: nat, buf: seq<byte>, cut: nat, ghost strings: nat, count: Tally)
    returns (after: Tally)
    requires cut <= |buf| && Sees(text, base, buf, cut)
    requires count.Counts? && UpTo(text, base, strings, count)
    ensures UpTo(text, if after.Counts? then base + cut else |text|, strings, after)
  {
    after := count;
    var pos: nat := 0;
    // A match from `cut` on stops the loop; it is met again in the next buffer.
    while pos < cut
      invariant after.Counts? && UpTo(text, Settled(base, cut, pos), strings, after)
      decreases cut - pos
    {
      CountedHere(text, base, buf, cut, pos, strings, after);
      after := CountAt(buf, pos, after);
      if !after.Counts? {
        OverStays(text, Settled(base, cut, Behind(buf, pos)), strings, after);
        return;
      }
      pos := Behind(buf, pos);
    }
  }

  /** Reads the next chunk, or the empty one at the end, and counts what it settles. */
  method ReadChunk(ghost text: seq<byte>, ghost base: nat, tail: seq<byte>, chunks: seq<seq<byte>>, n: nat,
                   ghost strings: nat, count: Tally)
    returns (after: Tally, rest: seq<byte>, ghost next: nat)
    requires Left(text, base, tail, chunks, n) && (n < |chunks| ==> chunks[n] != [])
    requires count.Counts? && UpTo(text, base, strings, count)
    ensures if after.Counts? && n < |chunks| then Left(text, next, rest, chunks, n + 1) && UpTo(text, next, strings, after)
            else UpTo(text, |text|, strings, after)
  {
    var chunk := if n < |chunks| then chunks[n] else [];
    var buf := tail + chunk;
    var cut := if chunk == [] then |buf| else if |buf| > TAIL then |buf| - TAIL else 0;
    NextChunk(text, base, tail, chunks, n, cut);
    after := ScanBuffer(text, base, buf, cut, strings, count);
    rest, next := buf[cut..], base + cut;
  }

  /** Streams one member, chunk by chunk; the read after the last chunk comes back empty. */
  method CheckMember(chunks: seq<seq<byte>>, strings: nat) returns (count: Tally)
    requires forall i | 0 <= i < |chunks| :: chunks[i] != []
    ensures count == CountText(Flat(chunks), strings)
  {
    ghost var text, base := Flat(chunks), 0;
    count := Counts(strings, 0);
    var tail: seq<byte>, n := [], 0;
    while true
      invariant n <= |chunks| && Left(text, base, tail, chunks, n)
      invariant count.Counts? && UpTo(text, base, strings, count)
      decreases |chunks| - n
    {
      count, tail, base := ReadChunk(text, base, tail, chunks, n, strings, count);
      if !count.Counts? || n == |chunks| {
        return;
      }
      n := n + 1;
    }
  }

  /** What is left of the text from `base` on is the carried tail and the chunks not read yet. */
  ghost predicate Left(text: seq<byte>, base: nat, tail: seq<byte>, chunks: seq<seq<byte>>, n: nat) {
    base <= |text| && n <= |chunks| && text[base..] == tail + Flat(chunks[n..])
  }

  lemma NextChunk(text: seq<byte>, base: nat, tail: seq<byte>, chunks: seq<seq<byte>>, n: nat, cut: nat)
    requires Left(text, base, tail, chunks, n)
    requires n < |chunks| ==> cut <= |tail + chunks[n]| && (cut + TAIL <= |tail + chunks[n]| || cut == 0)
    requires n == |chunks| ==> cut == |tail|
    ensures n < |chunks| ==> Sees(text, base, tail + chunks[n], cut)
    ensures n < |chunks| ==> Left(text, base + cut, (tail + chunks[n])[cut..], chunks, n + 1)
    ensures n == |chunks| ==> tail + [] == tail && Sees(text, base, tail, cut) && base + cut == |text|
  {
    if n < |chunks| {
      var buf, rest := tail + chunks[n], Flat(chunks[n+1..]);
      assert chunks[n..][1..] == chunks[n+1..];
      assert text[base..] == buf + rest;
      BufferSeesText(text, base, buf, rest, cut);
      assert text[base+cut..] == text[base..][cut..] == buf[cut..] + rest;
    } else {
      assert text[base..] == tail + [] == tail;
      BufferSeesText(text, base, tail, [], cut);
    }
  }

  lemma BufferSeesText(text: seq<byte>, base: nat, buf: seq<byte>, rest: seq<byte>, cut: nat)
    requires base <= |text| && text[base..] == buf + rest && cut <= |buf|
    requires rest == [] || cut + TAIL <= |buf| || cut == 0
    ensures Sees(text, base, buf, cut)
  {
    forall i: nat | i < cut ensures TagAt(buf, i) == TagAt(text, base + i) {
      TagInSuffix(text, base, i);
      if rest == [] {
        assert buf + rest == buf;
      } else {
        TagInPrefix(buf, rest, i);
      }
    }
  }

  // ----- the workbook

  datatype Member = Member(isDirectory: bool, size: nat, chunks: seq<seq<byte>>)

  datatype Verdict = Accepted | TooManyParts | TooLarge | TextsOver | ColumnsOver

  const MAX_MEMBERS := 1000
  const MAX_UNPACKED := 50 * 1024 * 1024

  function TotalSize(members: seq<Member>): nat {
    if members == [] then 0 else TotalSize(members[..|members|-1]) + members[|members|-1].size
  }

  /** The members' texts counted one after the other, the strings across all of them. */
  function CountMembers(members: seq<Member>, from: Tally): Tally
    decreases |members|
  {
    if members == [] || !from.Counts? then from
    else if members[0].isDirectory then CountMembers(members[1..], from)
    else CountMembers(members[1..], CountText(Flat(members[0].chunks), from.strings))
  }

  function VerdictOf(members: seq<Member>): Verdict {
    if |members| > MAX_MEMBERS then TooManyParts
    else if TotalSize(members) > MAX_UNPACKED then TooLarge
    else
      match CountMembers(members, Counts(0, 0))
      case Counts(_, _) => Accepted
      case TooManyTexts => TextsOver
      case TooManyColumns => ColumnsOver
  }

  /** The texts of all members. */
  function TextsIn(members: seq<Member>): nat {
    if members == [] then 0
    else (if members[0].isDirectory then 0 else Times(TagsOf(members[0]), Si)) + TextsIn(members[1..])
  }

  function TagsOf(m: Member): seq<Tag> {
    var text := Flat(m.chunks);
    Tags(text, 0, |text|)
  }

  ghost predicate AllRowsFit(members: seq<Member>) {
    forall m | m in members && !m.isDirectory :: RowsFit(TagsOf(m))
  }

  lemma AllRowsFitCons(members: seq<Member>)
    requires members != []
    ensures AllRowsFit(members) <==> (!members[0].isDirectory ==> RowsFit(TagsOf(members[0]))) && AllRowsFit(members[1..])
  {
    assert members == [members[0]] + members[1..];
  }

  /** The count over all members goes through exactly when their texts and each one's rows keep the limits. */
  lemma {:induction false} MembersMean(members: seq<Member>, strings: nat, cells: nat)
    requires strings <= MAX_STRINGS
    ensures var c := CountMembers(members, Counts(strings, cells));
            c.Counts? <==> strings + TextsIn(members) <= MAX_STRINGS && AllRowsFit(members)
    decreases |members|
  {
    if members != [] {
      AllRowsFitCons(members);
      if members[0].isDirectory {
        MembersMean(members[1..], strings, cells);
      } else {
        var c := CountText(Flat(members[0].chunks), strings);
        CountMeans(TagsOf(members[0]), strings);
        if c.Counts? {
          MembersMean(members[1..], c.strings, c.cells);
        }
      }
    }
  }

  /** However the members' bytes are cut into chunks, the verdict is that of scanning them whole. */
  method CheckWorkbook(members: seq<Member>) returns (v: Verdict)
    requires forall m, i | m in members && 0 <= i < |m.chunks| :: m.chunks[i] != []
    ensures v == VerdictOf(members)
    ensures v == Accepted <==>
              && |members| <= MAX_MEMBERS && TotalSize(members) <= MAX_UNPACKED
              && TextsIn(members) <= MAX_STRINGS && AllRowsFit(members)
  {
    v := ScanWorkbook(members);
    MembersMean(members, 0, 0);
  }

  method ScanWorkbook(members: seq<Member>) returns (v: Verdict)
    requires forall m, i | m in members && 0 <= i < |m.chunks| :: m.chunks[i] != []
    ensures v == VerdictOf(members)
  {
    if |members| > MAX_MEMBERS {
      return TooManyParts;
    }
    var total := 0;
    for i := 0 to |members|
      invariant total == TotalSize(members[..i])
    {
      assert members[..i+1][..i] == members[..i];
      total := total + members[i].size;
    }
    assert members[..|members|] == members;
    if total > MAX_UNPACKED {
      return TooLarge;
    }
    var count := Counts(0, 0);
    for i := 0 to |members|
      invariant count.Counts? && CountMembers(members[i..], count) == CountMembers(members, Counts(0, 0))
    {
      assert members[i..][1..] == members[i+1..];
      if !members[i].isDirectory {
        count := CheckMember(members[i].chunks, count.strings);
        if !count.Counts? {
          return if count.TooManyTexts? then TextsOver else ColumnsOver;
        }
      }
    }
    return Accepted;
  }
}
