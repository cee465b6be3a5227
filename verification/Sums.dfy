/** Sums over finite sets. */
module Sums {

  ghost function Over<T(!new)>(s: set<T>, f: T -> nat): nat {
    if s == {} then 0
    else
      var x :| x in s;
      f(x) + Over(s - {x}, f)
  }

  /** Any element may be taken out first. */
  lemma {:induction false} TakeOut<T(!new)>(s: set<T>, f: T -> nat, x: T)
    requires x in s
    ensures Over(s, f) == f(x) + Over(s - {x}, f)
    decreases |s|
  {
    var y :| y in s && Over(s, f) == f(y) + Over(s - {y}, f);
    if x != y {
      TakeOut(s - {y}, f, x);
      TakeOut(s - {x}, f, y);
      assert s - {x} - {y} == s - {y} - {x};
    }
  }

  lemma PutIn<T(!new)>(s: set<T>, f: T -> nat, x: T)
    requires x !in s
    ensures Over(s + {x}, f) == f(x) + Over(s, f)
  {
    TakeOut(s + {x}, f, x);
    assert s + {x} - {x} == s;
  }

  /** One more of those left is counted. */
  lemma CountedOne<T(!new)>(all: set<T>, left: set<T>, f: T -> nat, x: T)
    requires x in left && left <= all
    ensures Over(all - (left - {x}), f) == f(x) + Over(all - left, f)
  {
    assert all - (left - {x}) == (all - left) + {x};
    PutIn(all - left, f, x);
  }

  lemma NoneCounted<T(!new)>(all: set<T>, f: T -> nat)
    ensures Over(all - all, f) == 0
  {
    assert all - all == {};
  }

  lemma AllCounted<T(!new)>(all: set<T>, f: T -> nat)
    ensures Over(all - {}, f) == Over(all, f)
  {
    assert all - {} == all;
  }

  /** A part summed with smaller terms comes to no more. */
  lemma {:induction false} Monotone<T(!new)>(s: set<T>, t: set<T>, f: T -> nat, g: T -> nat)
    requires s <= t && forall x | x in s :: f(x) <= g(x)
    ensures Over(s, f) <= Over(t, g)
    decreases |s|
  {
    if s != {} {
      var x :| x in s;
      TakeOut(s, f, x);
      TakeOut(t, g, x);
      Monotone(s - {x}, t - {x}, f, g);
    }
  }

  /** Elements that count nothing make no difference. */
  lemma {:induction false} ZeroOutside<T(!new)>(s: set<T>, t: set<T>, f: T -> nat)
    requires s <= t && forall x | x in t && x !in s :: f(x) == 0
    ensures Over(s, f) == Over(t, f)
    decreases |t|
  {
    if x :| x in t && x !in s {
      TakeOut(t, f, x);
      ZeroOutside(s, t - {x}, f);
    } else {
      assert s == t;
    }
  }
}
