/** Trimming and folding text. */
module Texts {

  /** The characters Python's `str.strip` takes off. */
  predicate Blank(c: char) {
    || c == ' ' || '\t' <= c <= '\r' || '\U{1C}' <= c <= '\U{1F}' || c == '\U{85}' || c == '\U{A0}' || c == '\U{1680}'
    || '\U{2000}' <= c <= '\U{200A}' || c == '\U{2028}' || c == '\U{2029}' || c == '\U{202F}' || c == '\U{205F}'
    || c == '\U{3000}'
  }

  function Strip(s: string): string {
    if s != [] && Blank(s[0]) then Strip(s[1..])
    else if s != [] && Blank(s[|s|-1]) then Strip(s[..|s|-1])
    else s
  }

  /** Nothing is left to take off. */
  lemma {:induction false} StripTwice(s: string)
    ensures Strip(Strip(s)) == Strip(s)
    decreases |s|
  {
    if s != [] && Blank(s[0]) {
      StripTwice(s[1..]);
    } else if s != [] && Blank(s[|s|-1]) {
      StripTwice(s[..|s|-1]);
    }
  }

  lemma {:induction false} StripKeepsFirst(s: string)
    requires s != [] && !Blank(s[0])
    ensures Strip(s) != ""
    decreases |s|
  {
    if Blank(s[|s|-1]) {
      StripKeepsFirst(s[..|s|-1]);
    }
  }

  /** Text that strips to nothing is blank throughout. */
  lemma {:induction false} StripsToNothing(s: string)
    ensures Strip(s) == "" ==> forall c | c in s :: Blank(c)
    decreases |s|
  {
    if s != [] && Blank(s[0]) {
      StripsToNothing(s[1..]);
      assert s == [s[0]] + s[1..];
    } else if s != [] {
      StripKeepsFirst(s);
    }
  }

  function LowerChar(c: char): char { if 'A' <= c <= 'Z' then c - 'A' + 'a' else c }

  function Lower(s: string): string { if s == [] then [] else [LowerChar(s[0])] + Lower(s[1..]) }
}
