/** A stable sort by a key. */
module Sorting {

  /** `x` put behind everything with a key no larger. */
  function Insert<T>(key: T -> int, x: T, s: seq<T>): seq<T> {
    if s == [] || key(x) < key(s[0]) then [x] + s else [s[0]] + Insert(key, x, s[1..])
  }

  function Sorted<T>(key: T -> int, s: seq<T>): seq<T> {
    if s == [] then [] else Insert(key, s[|s|-1], Sorted(key, s[..|s|-1]))
  }

  ghost predicate InOrder<T(!new)>(key: T -> int, s: seq<T>) {
    forall i, j | 0 <= i < j < |s| :: key(s[i]) <= key(s[j])
  }

  lemma {:induction false} InsertHolds<T>(key: T -> int, x: T, s: seq<T>)
    ensures multiset(Insert(key, x, s)) == multiset(s) + multiset{x}
  {
    if s != [] && key(x) >= key(s[0]) {
      InsertHolds(key, x, s[1..]);
      assert s == [s[0]] + s[1..];
    }
  }

  lemma {:induction false} InsertSorts<T(!new)>(key: T -> int, x: T, s: seq<T>)
    requires InOrder(key, s)
    ensures InOrder(key, Insert(key, x, s))
    ensures Insert(key, x, s)[0] == x || (s != [] && Insert(key, x, s)[0] == s[0])
  {
    if s != [] && key(x) >= key(s[0]) {
      InsertSorts(key, x, s[1..]);
    }
  }

  lemma {:induction false} SortedSorts<T(!new)>(key: T -> int, s: seq<T>)
    ensures InOrder(key, Sorted(key, s))
  {
    if s != [] {
      SortedSorts(key, s[..|s|-1]);
      InsertSorts(key, s[|s|-1], Sorted(key, s[..|s|-1]));
    }
  }

  lemma {:induction false} SortedHasAll<T>(key: T -> int, s: seq<T>)
    ensures multiset(Sorted(key, s)) == multiset(s)
  {
    if s != [] {
      var front, last := s[..|s|-1], s[|s|-1];
      SortedHasAll(key, front);
      InsertHolds(key, last, Sorted(key, front));
      assert s == front + [last];
    }
  }

  lemma {:induction false} DistinctCounts<T>(s: seq<T>, x: T)
    requires forall i, j | 0 <= i < j < |s| :: s[i] != s[j]
    ensures multiset(s)[x] <= 1
  {
    if s != [] {
      DistinctCounts(s[1..], x);
      assert s == [s[0]] + s[1..];
      assert x == s[0] ==> x !in s[1..];
    }
  }

  /** Sorting keeps the entries, and what is not twice in the list is not twice in the sorted one. */
  lemma SortedKeeps<T(!new)>(key: T -> int, s: seq<T>, t: seq<T>)
    requires t == Sorted(key, s)
    ensures InOrder(key, t) && |t| == |s|
    ensures forall e :: e in t <==> e in s
    ensures (forall i, j | 0 <= i < j < |s| :: s[i] != s[j]) ==> forall i, j | 0 <= i < j < |t| :: t[i] != t[j]
  {
    SortedSorts(key, s);
    SortedHasAll(key, s);
    assert |t| == |multiset(t)| == |multiset(s)|;
    assert forall e :: (e in t <==> e in multiset(t)) && (e in s <==> e in multiset(s));
    if forall i, j | 0 <= i < j < |s| :: s[i] != s[j] {
      forall i, j | 0 <= i < j < |t| ensures t[i] != t[j] {
        DistinctCounts(s, t[i]);
        CountsTwo(t, i, j);
      }
    }
  }

  lemma CountsTwo<T>(t: seq<T>, i: nat, j: nat)
    requires i < j < |t|
    ensures t[i] == t[j] ==> multiset(t)[t[i]] >= 2
  {
    assert t == t[..j] + t[j..];
    assert t[i] in t[..j] && t[j] in t[j..];
  }

  /** What is in order already stays as it is. */
  lemma {:induction false} SortedIsItself<T(!new)>(key: T -> int, s: seq<T>)
    requires InOrder(key, s)
    ensures Sorted(key, s) == s
  {
    if s != [] {
      SortedIsItself(key, s[..|s|-1]);
      InsertLast(key, s[|s|-1], s[..|s|-1]);
      assert s == s[..|s|-1] + [s[|s|-1]];
    }
  }

  lemma {:induction false} InsertLast<T>(key: T -> int, x: T, s: seq<T>)
    requires forall i | 0 <= i < |s| :: key(s[i]) <= key(x)
    ensures Insert(key, x, s) == s + [x]
  {
    if s != [] {
      InsertLast(key, x, s[1..]);
      assert s == [s[0]] + s[1..];
    }
  }
}
