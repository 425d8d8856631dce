/** Fixed-width binary numerals, most significant bit first, and regrouping between widths. */
module Bits {
  function Pow2(n: nat): (r: nat)
    ensures r >= 1
  {
    if n == 0 then 1 else 2 * Pow2(n - 1)
  }

  function ToBits(x: nat, w: nat): (b: seq<bool>)
    ensures |b| == w
  {
    if w == 0 then [] else ToBits(x / 2, w - 1) + [x % 2 == 1]
  }

  function FromBits(b: seq<bool>): (x: nat)
    ensures x < Pow2(|b|)
  {
    if b == [] then 0
    else 2 * FromBits(b[..|b| - 1]) + (if b[|b| - 1] then 1 else 0)
  }

  lemma {:induction false} FromToBits(x: nat, w: nat)
    requires x < Pow2(w)
    ensures FromBits(ToBits(x, w)) == x
  {
    if w == 0 {
    } else {
      FromToBits(x / 2, w - 1);
      var b := ToBits(x, w);
      assert b[..|b| - 1] == ToBits(x / 2, w - 1);
    }
  }

  lemma {:induction false} ToFromBits(b: seq<bool>)
    ensures ToBits(FromBits(b), |b|) == b
  {
    if b == [] {
    } else {
      ToFromBits(b[..|b| - 1]);
      assert b == b[..|b| - 1] + [b[|b| - 1]];
    }
  }

  /** Bits of a sequence of w-bit numbers, in order. */
  function Explode(xs: seq<nat>, w: nat): (b: seq<bool>)
    ensures |b| == w * |xs|
  {
    if xs == [] then []
    else
      TimesPred(w, |xs|);
      ToBits(xs[0], w) + Explode(xs[1..], w)
  }

  /** The complete w-bit groups of a bit string; a shorter remainder is dropped. */
  function Group(b: seq<bool>, w: nat): (xs: seq<nat>)
    requires w > 0
    ensures forall i :: 0 <= i < |xs| ==> xs[i] < Pow2(w)
  {
    if |b| < w then []
    else [FromBits(b[..w])] + Group(b[w..], w)
  }

  lemma TimesPred(w: nat, n: nat)
    requires n > 0
    ensures w * n == w * (n - 1) + w
  {
  }

  lemma {:induction false} GroupLength(b: seq<bool>, w: nat, n: nat)
    requires w > 0 && w * n <= |b| < w * n + w
    ensures |Group(b, w)| == n
    decreases n
  {
    if n == 0 {
    } else {
      TimesPred(w, n);
      GroupLength(b[w..], w, n - 1);
    }
  }

  lemma {:induction false} GroupExplode(xs: seq<nat>, w: nat)
    requires w > 0 && forall i :: 0 <= i < |xs| ==> xs[i] < Pow2(w)
    ensures Group(Explode(xs, w), w) == xs
  {
    if xs == [] {
    } else {
      var b := Explode(xs, w);
      assert b == ToBits(xs[0], w) + Explode(xs[1..], w);
      assert b[..w] == ToBits(xs[0], w) && b[w..] == Explode(xs[1..], w);
      FromToBits(xs[0], w);
      GroupExplode(xs[1..], w);
    }
  }

  lemma {:induction false} ExplodeGroup(b: seq<bool>, w: nat, n: nat)
    requires w > 0 && |b| == w * n
    ensures Explode(Group(b, w), w) == b
    decreases n
  {
    if n == 0 {
    } else {
      TimesPred(w, n);
      ExplodeGroup(b[w..], w, n - 1);
      ToFromBits(b[..w]);
      assert b == b[..w] + b[w..];
    }
  }
}
