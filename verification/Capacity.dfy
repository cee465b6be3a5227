/**
 What a rack's PDUs deliver when either of two sides must carry the rack alone (api/capacity.py
 `_smaller_side`): reachable sums are grown one PDU at a time and kept only up to half the total.
 */
module Capacity {

  /** A split of the PDUs: true goes to side A, false to side B. */
  type Split = seq<bool>

  function Total(ratings: seq<nat>): nat {
    if ratings == [] then 0 else Total(ratings[..|ratings|-1]) + ratings[|ratings|-1]
  }

  /** What side A carries. */
  function SideA(ratings: seq<nat>, split: Split): nat
    requires |split| == |ratings|
  {
    if ratings == [] then 0
    else
      var n := |ratings| - 1;
      SideA(ratings[..n], split[..n]) + if split[n] then ratings[n] else 0
  }

  /** What side B carries. */
  function SideB(ratings: seq<nat>, split: Split): nat
    requires |split| == |ratings|
  {
    if ratings == [] then 0
    else
      var n := |ratings| - 1;
      SideB(ratings[..n], split[..n]) + if split[n] then 0 else ratings[n]
  }

  function Smaller(ratings: seq<nat>, split: Split): nat
    requires |split| == |ratings|
  {
    var a, b := SideA(ratings, split), SideB(ratings, split);
    if a < b then a else b
  }

  lemma {:induction false} SidesShareTotal(ratings: seq<nat>, split: Split)
    requires |split| == |ratings|
    ensures SideA(ratings, split) + SideB(ratings, split) == Total(ratings)
  {
    if ratings != [] {
      var n := |ratings| - 1;
      SidesShareTotal(ratings[..n], split[..n]);
    }
  }

  function Flip(split: Split): (f: Split)
    ensures |f| == |split| && forall i | 0 <= i < |f| :: f[i] == !split[i]
  {
    seq(|split|, i requires 0 <= i < |split| => !split[i])
  }

  lemma {:induction false} FlipSwaps(ratings: seq<nat>, split: Split)
    requires |split| == |ratings|
    ensures SideA(ratings, Flip(split)) == SideB(ratings, split)
    ensures SideB(ratings, Flip(split)) == SideA(ratings, split)
  {
    if ratings != [] {
      var n := |ratings| - 1;
      assert Flip(split)[..n] == Flip(split[..n]);
      FlipSwaps(ratings[..n], split[..n]);
    }
  }

  ghost predicate Reaches(ratings: seq<nat>, split: Split, x: nat) {
    |split| == |ratings| && SideA(ratings, split) == x
  }

  /** `sums` are exactly the totals side A can have with these PDUs, up to `half`. */
  ghost predicate AllSums(ratings: seq<nat>, half: nat, sums: set<nat>) {
    forall x: nat :: x in sums <==> x <= half && exists split :: Reaches(ratings, split, x)
  }

  lemma NoPdus(half: nat)
    ensures AllSums([], half, {0})
  {
    assert Reaches([], [], 0);
  }

  /** The kept sums, and each with the PDU's rating added where that is still within half. */
  function Grown(sums: set<nat>, r: nat, half: nat): set<nat> {
    sums + set s | s in sums && s + r <= half :: s + r
  }

  /** One more PDU: each kept sum stays, and gains the PDU's rating where that is still within half. */
  lemma OneMorePdu(ratings: seq<nat>, r: nat, half: nat, sums: set<nat>)
    requires AllSums(ratings, half, sums)
    ensures AllSums(ratings + [r], half, Grown(sums, r, half))
  {
    var more := ratings + [r];
    var grown := Grown(sums, r, half);
    assert more[..|ratings|] == ratings;
    forall x: nat ensures x in grown <==> x <= half && exists split :: Reaches(more, split, x) {
      if x in grown {
        if x in sums {
          var split :| Reaches(ratings, split, x);
          assert (split + [false])[..|ratings|] == split;
          assert Reaches(more, split + [false], x);
        } else {
          var s: nat :| s in sums && x == s + r;
          var split :| Reaches(ratings, split, s);
          assert (split + [true])[..|ratings|] == split;
          assert Reaches(more, split + [true], x);
        }
      }
      if x <= half && exists split :: Reaches(more, split, x) {
        var split :| Reaches(more, split, x);
        var first := split[..|ratings|];
        var y := if split[|ratings|] then x - r else x;
        assert Reaches(ratings, first, y);
        assert y in sums;
      }
    }
  }

  method Max(s: set<nat>) returns (m: nat)
    requires s != {}
    ensures m in s && forall x | x in s :: x <= m
  {
    m :| m in s;
    var left := s - {m};
    while left != {}
      invariant m in s && left <= s && forall x | x in s :: x in left || x <= m
      decreases |left|
    {
      var x :| x in left;
      m := if x > m then x else m;
      left := left - {x};
    }
  }

  /** What the weaker side can deliver when the PDUs are split as evenly as they can be; one PDU alone counts in full. */
  method SmallerSide(ratings: seq<nat>) returns (best: nat)
    ensures |ratings| == 1 ==> best == ratings[0]
    ensures |ratings| != 1 ==> forall split | |split| == |ratings| :: Smaller(ratings, split) <= best
    ensures |ratings| != 1 ==> exists split :: |split| == |ratings| && Smaller(ratings, split) == best
  {
    if |ratings| == 1 {
      return ratings[0];
    }
    var total := 0;
    for i := 0 to |ratings|
      invariant total == Total(ratings[..i])
    {
      assert ratings[..i+1][..i] == ratings[..i];
      total := total + ratings[i];
    }
    assert ratings[..|ratings|] == ratings;
    var half, sums := total / 2, {0};
    NoPdus(half);
    for i := 0 to |ratings|
      invariant AllSums(ratings[..i], half, sums)
    {
      var r := ratings[i];
      OneMorePdu(ratings[..i], r, half, sums);
      assert ratings[..i+1] == ratings[..i] + [r];
      sums := Grown(sums, r, half);
    }
    NoSplitAtAll(ratings, half, sums);
    best := Max(sums);
    BestSumIsBestSplit(ratings, half, sums, best);
  }

  lemma NoSplitAtAll(ratings: seq<nat>, half: nat, sums: set<nat>)
    requires AllSums(ratings, half, sums)
    ensures 0 in sums
  {
    AllOnB(ratings);
    assert Reaches(ratings, seq(|ratings|, _ => false), 0);
  }

  lemma {:induction false} AllOnB(ratings: seq<nat>)
    ensures SideA(ratings, seq(|ratings|, _ => false)) == 0
  {
    if ratings != [] {
      var n := |ratings| - 1;
      AllOnB(ratings[..n]);
      assert seq(|ratings|, _ => false)[..n] == seq(n, _ => false);
    }
  }

  /** The largest reachable sum up to half is what the best split leaves its smaller side. */
  lemma BestSumIsBestSplit(ratings: seq<nat>, half: nat, sums: set<nat>, best: nat)
    requires AllSums(ratings, half, sums) && half == Total(ratings) / 2
    requires best in sums && forall x | x in sums :: x <= best
    ensures forall split | |split| == |ratings| :: Smaller(ratings, split) <= best
    ensures exists split :: |split| == |ratings| && Smaller(ratings, split) == best
  {
    forall split | |split| == |ratings| ensures Smaller(ratings, split) <= best {
      SidesShareTotal(ratings, split);
      FlipSwaps(ratings, split);
      var small := Smaller(ratings, split);
      assert Reaches(ratings, if SideA(ratings, split) == small then split else Flip(split), small);
      assert small in sums;
    }
    var split :| Reaches(ratings, split, best);
    SidesShareTotal(ratings, split);
    assert Smaller(ratings, split) == best;
  }
}
