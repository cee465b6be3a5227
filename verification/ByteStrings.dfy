/** Bytes, and parts of a byte string standing at a position. */
module ByteStrings {

  type byte = b: int | 0 <= b < 256
  type Bytes = seq<byte>

  function Min(a: nat, b: nat): nat { if a < b then a else b }

  /** `part` stands in `data` at `pos`. */
  ghost predicate Holds(data: Bytes, pos: nat, part: Bytes) {
    pos + |part| <= |data| && forall k | 0 <= k < |part| :: data[pos+k] == part[k]
  }

  lemma HoldsParts(data: Bytes, pos: nat, a: Bytes, b: Bytes)
    requires Holds(data, pos, a + b)
    ensures Holds(data, pos, a) && Holds(data, pos + |a|, b)
  {
    forall k | 0 <= k < |a| ensures data[pos+k] == a[k] { assert (a + b)[k] == a[k]; }
    forall k | 0 <= k < |b| ensures data[pos+|a|+k] == b[k] { assert (a + b)[|a|+k] == b[k]; }
  }

  lemma HeldApart(data: Bytes, pos: nat, all: Bytes, a: Bytes, b: Bytes)
    requires Holds(data, pos, all) && all == a + b
    ensures Holds(data, pos, a) && Holds(data, pos + |a|, b) && |all| == |a| + |b|
  {
    HoldsParts(data, pos, a, b);
  }

  /** The second part stands at `next`, right behind the first. */
  lemma HeldBehind(data: Bytes, pos: nat, all: Bytes, a: Bytes, b: Bytes, next: nat)
    requires Holds(data, pos, all) && all == a + b && next == pos + |a|
    ensures Holds(data, pos, a) && Holds(data, next, b) && next + |b| == pos + |all|
  {
    HoldsParts(data, pos, a, b);
  }
}
