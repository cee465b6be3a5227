/**
 Tag names in one cell (api/io.py `format_tag_cell`, `parse_tag_cell`): rules 5 to 7 in section 2 of RFC 4180 with `;`
 for the comma, as Python's csv module writes and reads them.
 */
module TagCells {
  import opened Basics
  import opened Texts

  // ----- writing

  predicate NeedsQuotes(name: string) {
    ';' in name || '"' in name || '\r' in name || '\n' in name
  }

  /** Every quote doubled. */
  function Doubled(name: string): string {
    if name == "" then "" else (if name[0] == '"' then "\"\"" else [name[0]]) + Doubled(name[1..])
  }

  function Written(name: string): string {
    if NeedsQuotes(name) then "\"" + Doubled(name) + "\"" else name
  }

  function Joined(names: seq<string>): string
    requires names != []
  {
    if |names| == 1 then Written(names[0]) else Written(names[0]) + ";" + Joined(names[1..])
  }

  /** A row of one empty field is written as an empty pair of quotes. */
  function Format(names: seq<string>): string {
    if names == [] then "" else if names == [""] then "\"\"" else Joined(names)
  }

  // ----- reading

  datatype State = StartRecord | StartField | InField | InQuotes | QuoteSeen | Ended

  datatype Reader = Reader(state: State, fields: seq<string>, field: string) | Broken

  const FRESH := Reader(StartRecord, [], "")

  predicate LineEnd(c: char) { c == '\r' || c == '\n' }

  function Save(r: Reader, state: State): Reader
    requires r.Reader?
  {
    Reader(state, r.fields + [r.field], "")
  }

  function Add(r: Reader, c: char, state: State): Reader
    requires r.Reader?
  {
    r.(state := state, field := r.field + [c])
  }

  /** One character read. */
  function Feed(r: Reader, c: char): Reader {
    if r.Broken? then r
    else
      match r.state
      case StartRecord => if LineEnd(c) then r.(state := Ended) else FeedStart(r, c)
      case StartField => if LineEnd(c) then Save(r, Ended) else FeedStart(r, c)
      case InField =>
        if LineEnd(c) then Save(r, Ended) else if c == ';' then Save(r, StartField) else Add(r, c, InField)
      case InQuotes => if c == '"' then r.(state := QuoteSeen) else Add(r, c, InQuotes)
      case QuoteSeen =>
        if c == '"' then Add(r, c, InQuotes)
        else if c == ';' then Save(r, StartField)
        else if LineEnd(c) then Save(r, Ended)
        else Add(r, c, InField)
      case Ended => if LineEnd(c) then r else Broken
  }

  function FeedStart(r: Reader, c: char): Reader
    requires r.Reader?
  {
    if c == '"' then r.(state := InQuotes) else if c == ';' then Save(r, StartField) else Add(r, c, InField)
  }

  function FeedAll(r: Reader, text: string): Reader
    decreases |text|
  {
    if text == "" then r else FeedAll(Feed(r, text[0]), text[1..])
  }

  datatype Malformed = Malformed

  /** The fields once the text is over. */
  function Finish(r: Reader): Result<seq<string>, Malformed> {
    if r.Broken? then Err(Malformed.Malformed)
    else if r.state.StartRecord? || r.state.Ended? then Ok(r.fields)
    else Ok(r.fields + [r.field])
  }

  // ----- the two together

  predicate Settled(r: Reader, fields: seq<string>, name: string) {
    && r.Reader? && r.fields == fields && r.field == name
    && (r.state.InField? || r.state.QuoteSeen? || (r.state.StartField? && name == ""))
  }

  /** A doubled name read inside quotes is the name. */
  lemma {:induction false} DoubledRead(r: Reader, name: string)
    requires r.Reader? && r.state.InQuotes?
    ensures FeedAll(r, Doubled(name)) == r.(field := r.field + name)
    decreases |name|
  {
    if name == "" {
      assert r.field + name == r.field;
    } else {
      var next := r.(field := r.field + [name[0]]);
      DoubledRead(next, name[1..]);
      assert (r.field + [name[0]]) + name[1..] == r.field + name;
      FeedInTwo(r, if name[0] == '"' then "\"\"" else [name[0]], Doubled(name[1..]));
      if name[0] == '"' {
        QuoteRead(r);
      } else {
        OneRead(r, name[0]);
      }
    }
  }

  lemma OneRead(r: Reader, c: char)
    ensures FeedAll(r, [c]) == Feed(r, c)
  {
    assert FeedAll(Feed(r, c), [c][1..]) == Feed(r, c);
  }

  lemma QuoteRead(r: Reader)
    requires r.Reader? && r.state.InQuotes?
    ensures FeedAll(r, "\"\"") == Add(r, '"', InQuotes)
  {
    assert "\"\""[1..] == "\"";
    OneRead(Feed(r, '"'), '"');
  }

  lemma {:induction false} FeedInTwo(r: Reader, a: string, b: string)
    ensures FeedAll(r, a + b) == FeedAll(FeedAll(r, a), b)
    decreases |a|
  {
    if a == "" {
      assert a + b == b;
    } else {
      assert (a + b)[1..] == a[1..] + b;
      FeedInTwo(Feed(r, a[0]), a[1..], b);
    }
  }

  /** Plain characters go to the field they stand in. */
  lemma {:induction false} PlainRead(r: Reader, name: string)
    requires r.Reader? && r.state.InField? && !NeedsQuotes(name)
    ensures FeedAll(r, name) == r.(field := r.field + name)
    decreases |name|
  {
    if name == "" {
      assert r.field + name == r.field;
    } else {
      assert name == [name[0]] + name[1..];
      assert name[0] in name;
      PlainRead(Add(r, name[0], InField), name[1..]);
      assert (r.field + [name[0]]) + name[1..] == r.field + name;
    }
  }

  /** A written name read at the start of a field is that name. */
  lemma WrittenRead(fields: seq<string>, name: string)
    ensures Settled(FeedAll(Reader(StartField, fields, ""), Written(name)), fields, name)
  {
    var r := Reader(StartField, fields, "");
    if NeedsQuotes(name) {
      var inside := Reader(InQuotes, fields, "");
      FeedInTwo(r, "\"" + Doubled(name), "\"");
      FeedInTwo(r, "\"", Doubled(name));
      OneRead(r, '"');
      DoubledRead(inside, name);
      assert "" + name == name;
      OneRead(Reader(InQuotes, fields, name), '"');
    } else if name != "" {
      assert name == [name[0]] + name[1..];
      assert name[0] in name;
      assert "" + [name[0]] == [name[0]];
      PlainRead(Reader(InField, fields, [name[0]]), name[1..]);
    }
  }

  lemma {:induction false} JoinedRead(fields: seq<string>, names: seq<string>)
    requires names != []
    ensures Finish(FeedAll(Reader(StartField, fields, ""), Joined(names))) == Ok(fields + names)
    decreases |names|
  {
    var r, first := Reader(StartField, fields, ""), Written(names[0]);
    WrittenRead(fields, names[0]);
    if |names| == 1 {
      assert names == [names[0]];
    } else {
      FeedInTwo(r, first + ";", Joined(names[1..]));
      FeedInTwo(r, first, ";");
      OneRead(FeedAll(r, first), ';');
      JoinedRead(fields + [names[0]], names[1..]);
      assert (fields + [names[0]]) + names[1..] == fields + names;
    }
  }

  /** At its start a record reads like a field, unless the line ends there. */
  lemma RecordStarts(text: string)
    requires text != "" && !LineEnd(text[0])
    ensures FeedAll(FRESH, text) == FeedAll(Reader(StartField, [], ""), text)
  {
  }

  lemma JoinedStarts(names: seq<string>)
    requires names != [] && names != [""]
    ensures Joined(names) != "" && !LineEnd(Joined(names)[0])
  {
    var name := names[0];
    assert name != "" ==> name[0] in name;
    assert |names| == 1 ==> names == [name];
  }

  /** Whatever the names hold, the cell reads back as them. */
  lemma FormatReadsBack(names: seq<string>)
    ensures Finish(FeedAll(FRESH, Format(names))) == Ok(names)
  {
    if names == [""] {
      var inside := Reader(InQuotes, [], "");
      assert "\"\""[1..] == "\"";
      OneRead(inside, '"');
    } else if names != [] {
      JoinedStarts(names);
      RecordStarts(Joined(names));
      JoinedRead([], names);
      assert [] + names == names;
    }
  }

  // ----- the names a cell gives

  /** The names trimmed, each where it stands first, without the empty ones. */
  function Cleaned(names: seq<string>): seq<string> {
    if names == [] then []
    else
      var before, name := Cleaned(names[..|names|-1]), Strip(names[|names|-1]);
      if name != "" && name !in before then before + [name] else before
  }

  /** What a cell's text holds; a blank one holds nothing. */
  function Fields(text: string): Result<seq<string>, Malformed> {
    if Strip(text) == "" then Ok([]) else Finish(FeedAll(FRESH, text))
  }

  method ParseTagCell(text: string) returns (names: Result<seq<string>, Malformed>)
    ensures names == if Fields(text).Ok? then Ok(Cleaned(Fields(text).value)) else Fields(text)
  {
    var fields := Fields(text);
    if fields.Err? {
      return fields;
    }
    var all := fields.value;
    var out: seq<string> := [];
    for i := 0 to |all|
      invariant out == Cleaned(all[..i])
    {
      assert all[..i+1][..i] == all[..i];
      var n := Strip(all[i]);
      if n != "" && n !in out {
        out := out + [n];
      }
    }
    assert all[..|all|] == all;
    return Ok(out);
  }

  predicate Tidy(names: seq<string>) {
    && (forall i | 0 <= i < |names| :: names[i] != "" && Strip(names[i]) == names[i])
    && (forall i, j | 0 <= i < j < |names| :: names[i] != names[j])
  }

  ghost predicate Given(names: seq<string>, n: string) {
    exists i :: 0 <= i < |names| && Strip(names[i]) == n
  }

  /** Cleaning keeps every name that is not blank, once, and adds none. */
  lemma {:induction false} CleanedHolds(names: seq<string>)
    ensures Tidy(Cleaned(names))
    ensures forall n :: n in Cleaned(names) <==> n != "" && Given(names, n)
  {
    if names != [] {
      var front, last := names[..|names|-1], names[|names|-1];
      CleanedHolds(front);
      StripTwice(last);
      forall n ensures Given(names, n) <==> n == Strip(last) || Given(front, n) {
        assert names[|names|-1] == last;
        assert forall i | 0 <= i < |front| :: names[i] == front[i];
      }
    }
  }

  /** Exactly the tidy lists are left as they are. */
  lemma {:induction false} CleanedLeavesTidy(names: seq<string>)
    ensures Cleaned(names) == names <==> Tidy(names)
  {
    CleanedHolds(names);
    if Tidy(names) {
      TidyIsClean(names);
    }
  }

  lemma {:induction false} TidyIsClean(names: seq<string>)
    requires Tidy(names)
    ensures Cleaned(names) == names
  {
    if names != [] {
      var front, last := names[..|names|-1], names[|names|-1];
      TidyIsClean(front);
      assert names == front + [last];
      assert forall i | 0 <= i < |front| :: front[i] != last;
    }
  }

  /** A blank cell is written only for names that are all blank. */
  lemma BlankHoldsNothing(names: seq<string>)
    requires Strip(Format(names)) == ""
    ensures Cleaned(names) == []
  {
    var text := Format(names);
    StripsToNothing(text);
    if names != [] {
      assert !Blank('"') && !Blank(';');
      MarksShow(names);
      assert names[..0] == [];
    }
  }

  /** Quotes and separators show in the cell. */
  lemma MarksShow(names: seq<string>)
    requires names != []
    ensures names == [""] || |names| > 1 || NeedsQuotes(names[0]) ==> ';' in Format(names) || '"' in Format(names)
  {
    var name := names[0];
    if names == [""] {
      assert Format(names)[0] == '"';
    } else if |names| > 1 {
      assert (Written(name) + ";" + Joined(names[1..]))[|Written(name)|] == ';';
    } else if NeedsQuotes(name) {
      assert Written(name)[0] == '"';
    }
  }

  /** Every list of names comes back cleaned; one of distinct, trimmed, non-empty names comes back itself. */
  lemma CellReadsBack(names: seq<string>)
    ensures Fields(Format(names)).Ok? && Cleaned(Fields(Format(names)).value) == Cleaned(names)
    ensures Tidy(names) ==> Cleaned(Fields(Format(names)).value) == names
  {
    FormatReadsBack(names);
    CleanedLeavesTidy(names);
    if Strip(Format(names)) == "" {
      BlankHoldsNothing(names);
    }
  }
}
