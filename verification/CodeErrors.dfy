/** Which single-letter typing errors the checksum of an activation code catches. */
module CodeErrors {
  import opened Options
  import opened Text
  import opened Bits
  import opened Base32
  import opened Codes

  /** What changing one bit from `was` to `now` adds, for a bit of weight `w`. */
  function Delta(was: bool, now: bool, w: int): int {
    if was == now then 0 else if now then w else -w
  }

  lemma {:induction false} FromBitsFlip(c: seq<bool>, p: nat, v: bool)
    requires p < |c|
    ensures FromBits(c[p := v]) == FromBits(c) + Delta(c[p], v, Pow2(|c| - 1 - p))
  {
    var d := c[p := v];
    if p == |c| - 1 {
      assert d[..|c| - 1] == c[..|c| - 1];
      assert Pow2(0) == 1;
    } else {
      assert d[..|c| - 1] == c[..|c| - 1][p := v];
      FromBitsFlip(c[..|c| - 1], p, v);
    }
  }

  /** The sum of the bytes that a bit string spells. */
  function ByteSum(b: seq<bool>): nat {
    if |b| < 8 then 0 else FromBits(b[..8]) + ByteSum(b[8..])
  }

  lemma {:induction false} ByteSumIsSum(b: seq<bool>)
    ensures ByteSum(b) == Sum(Group(b, 8))
  {
    if |b| >= 8 {
      ByteSumIsSum(b[8..]);
      assert Group(b, 8) == [FromBits(b[..8])] + Group(b[8..], 8);
      assert Group(b, 8)[1..] == Group(b[8..], 8);
    }
  }

  lemma HeadUpdate(b: seq<bool>, e: nat, v: bool)
    requires e < 8 <= |b|
    ensures b[e := v][..8] == b[..8][e := v] && b[e := v][8..] == b[8..]
  {
  }

  lemma ByteFlip(c: seq<bool>, e: nat, v: bool)
    requires e < 8 == |c|
    ensures FromBits(c[e := v]) == FromBits(c) + Delta(c[e], v, Pow2(7 - e))
  {
    FromBitsFlip(c, e, v);
  }

  lemma HeadFlip(b: seq<bool>, e: nat, v: bool)
    requires e < 8 <= |b|
    ensures ByteSum(b[e := v]) == ByteSum(b) + Delta(b[e], v, Pow2(7 - e))
  {
    HeadUpdate(b, e, v);
    ByteFlip(b[..8], e, v);
    assert b[..8][e] == b[e];
  }

  /** Flipping one bit moves the byte sum by that bit's weight in its byte. */
  lemma {:induction false} SumFlip(b: seq<bool>, j: nat, e: nat, v: bool)
    requires 8 * j + 8 <= |b| && e < 8
    ensures ByteSum(b[8 * j + e := v]) == ByteSum(b) + Delta(b[8 * j + e], v, Pow2(7 - e))
    decreases j
  {
    if j == 0 {
      HeadFlip(b, e, v);
    } else {
      var p := 8 * j + e;
      var d := b[p := v];
      var c := b[8..];
      assert d[..8] == b[..8] && d[8..] == c[8 * (j - 1) + e := v];
      SumFlip(c, j - 1, e, v);
    }
  }

  /** Data bytes minus checksum byte: a multiple of 256 exactly on checksummed texts. */
  function Balance(b: seq<bool>): int
    requires |b| >= 128
  {
    ByteSum(b[..120]) - FromBits(b[120..128])
  }

  function Weight(p: nat): int {
    if p < 120 then Pow2(7 - p % 8) else -(Pow2(7 - p % 8) as int)
  }

  lemma DataFlip(b: seq<bool>, p: nat, v: bool)
    requires p < 120 && 128 <= |b|
    ensures b[p := v][..120] == b[..120][p := v] && b[p := v][120..128] == b[120..128]
    ensures ByteSum(b[..120][p := v]) == ByteSum(b[..120]) + Delta(b[p], v, Weight(p))
  {
    DataUpdate(b, p, v);
    DataSum(b[..120], p, v);
  }

  lemma DataUpdate(b: seq<bool>, p: nat, v: bool)
    requires p < 120 && 128 <= |b|
    ensures b[p := v][..120] == b[..120][p := v] && b[p := v][120..128] == b[120..128] && b[..120][p] == b[p]
  {
  }

  lemma DataSum(c: seq<bool>, p: nat, v: bool)
    requires p < 120 == |c|
    ensures ByteSum(c[p := v]) == ByteSum(c) + Delta(c[p], v, Weight(p))
  {
    BitPlace(p);
    DataSumAt(c, p / 8, p % 8, v);
  }

  lemma DataSumAt(c: seq<bool>, j: nat, e: nat, v: bool)
    requires |c| == 120 && j < 15 && e < 8
    ensures ByteSum(c[8 * j + e := v]) == ByteSum(c) + Delta(c[8 * j + e], v, Weight(8 * j + e))
  {
    WeightAt(j, e);
    SumFlip(c, j, e, v);
  }

  lemma WeightAt(j: nat, e: nat)
    requires j < 15 && e < 8
    ensures Weight(8 * j + e) == Pow2(7 - e)
  {
  }

  lemma BitPlace(p: nat)
    ensures p == 8 * (p / 8) + p % 8 && p % 8 < 8 && (p < 120 ==> p / 8 < 15)
  {
  }

  lemma CheckFlip(b: seq<bool>, p: nat, v: bool)
    requires 120 <= p < 128 <= |b|
    ensures b[p := v][..120] == b[..120] && b[p := v][120..128] == b[120..128][p - 120 := v]
    ensures FromBits(b[120..128][p - 120 := v]) == FromBits(b[120..128]) - Delta(b[p], v, Weight(p))
  {
    ByteFlip(b[120..128], p - 120, v);
    assert p - 120 == p % 8;
  }

  lemma BalanceFlip(b: seq<bool>, p: nat, v: bool)
    requires p < 128 <= |b|
    ensures Balance(b[p := v]) == Balance(b) + Delta(b[p], v, Weight(p))
  {
    if p < 120 {
      DataFlip(b, p, v);
    } else {
      CheckFlip(b, p, v);
    }
  }

  function Splice(b: seq<bool>, q: nat, t: seq<bool>): seq<bool>
    requires q + |t| <= |b|
  {
    b[..q] + t + b[q + |t|..]
  }

  /** The change of balance when consecutive bits are overwritten. */
  function Shift(b: seq<bool>, q: nat, t: seq<bool>): int
    requires q + |t| <= |b|
    decreases |t|
  {
    if t == [] then 0 else Delta(b[q], t[0], Weight(q)) + Shift(b, q + 1, t[1..])
  }

  lemma SpliceStep(b: seq<bool>, q: nat, t: seq<bool>)
    requires t != [] && q + |t| <= |b|
    ensures var c := Splice(b, q + 1, t[1..]); |c| == |b| && c[q] == b[q] && Splice(b, q, t) == c[q := t[0]]
  {
  }

  lemma {:induction false} BalanceSplice(b: seq<bool>, q: nat, t: seq<bool>)
    requires q + |t| <= 128 <= |b|
    ensures Balance(Splice(b, q, t)) == Balance(b) + Shift(b, q, t)
    decreases |t|
  {
    if t == [] {
      assert Splice(b, q, t) == b;
    } else {
      SpliceStep(b, q, t);
      BalanceSplice(b, q + 1, t[1..]);
      BalanceFlip(Splice(b, q + 1, t[1..]), q, t[0]);
    }
  }

  lemma Halve(d: int, r: int, z: int)
    requires -1 <= d <= 1 && d + 2 * r == 2 * z
    ensures d == 0 && r == z
  {
  }

  /** Signed binary digits that spell a multiple of 256 are all zero. */
  lemma Powers(d7: int, d6: int, d5: int, d4: int, d3: int, d2: int, d1: int, d0: int)
    requires -1 <= d7 <= 1 && -1 <= d6 <= 1 && -1 <= d5 <= 1 && -1 <= d4 <= 1
    requires -1 <= d3 <= 1 && -1 <= d2 <= 1 && -1 <= d1 <= 1 && -1 <= d0 <= 1
    requires (128 * d7 + 64 * d6 + 32 * d5 + 16 * d4 + 8 * d3 + 4 * d2 + 2 * d1 + d0) % 256 == 0
    ensures d7 == d6 == d5 == d4 == d3 == d2 == d1 == d0 == 0
  {
    var k := (128 * d7 + 64 * d6 + 32 * d5 + 16 * d4 + 8 * d3 + 4 * d2 + 2 * d1 + d0) / 256;
    Halve(d0, d1 + 2 * d2 + 4 * d3 + 8 * d4 + 16 * d5 + 32 * d6 + 64 * d7, 128 * k);
    Halve(d1, d2 + 2 * d3 + 4 * d4 + 8 * d5 + 16 * d6 + 32 * d7, 64 * k);
    Halve(d2, d3 + 2 * d4 + 4 * d5 + 8 * d6 + 16 * d7, 32 * k);
    Halve(d3, d4 + 2 * d5 + 4 * d6 + 8 * d7, 16 * k);
    Halve(d4, d5 + 2 * d6 + 4 * d7, 8 * k);
    Halve(d5, d6 + 2 * d7, 4 * k);
    Halve(d6, d7, 2 * k);
  }

  /** The signed digit by which bit q changes, relative to its weight in the balance. */
  function Digit(was: bool, now: bool, q: nat): (d: int)
    ensures -1 <= d <= 1 && (d == 0 <==> was == now)
  {
    if was == now then 0 else if now == (q < 120) then 1 else -1
  }

  /** x is the digit d at the weight of bit e of a byte. */
  predicate Scaled(x: int, d: int, e: nat) {
    && -1 <= d <= 1
    && x == (if e == 0 then 128 * d else if e == 1 then 64 * d else if e == 2 then 32 * d else if e == 3 then 16 * d
             else if e == 4 then 8 * d else if e == 5 then 4 * d else if e == 6 then 2 * d else d)
  }

  lemma WeightDigit(was: bool, now: bool, q: nat)
    ensures Scaled(Delta(was, now, Weight(q)), Digit(was, now, q), q % 8)
  {
    assert Pow2(0) == 1 && Pow2(1) == 2 && Pow2(2) == 4 && Pow2(3) == 8;
    assert Pow2(4) == 16 && Pow2(5) == 32 && Pow2(6) == 64 && Pow2(7) == 128;
  }

  function Next(e: nat): nat {
    if e == 7 then 0 else e + 1
  }

  lemma NextBit(q: nat)
    ensures (q + 1) % 8 == Next(q % 8)
  {
  }

  lemma NextBits(q: nat)
    ensures (q + 1) % 8 == Next(q % 8) && (q + 2) % 8 == Next((q + 1) % 8)
    ensures (q + 3) % 8 == Next((q + 2) % 8) && (q + 4) % 8 == Next((q + 3) % 8)
  {
    NextBit(q);
    NextBit(q + 1);
    NextBit(q + 2);
    NextBit(q + 3);
  }

  /** Five digits on consecutive bit weights, inside one byte or wrapping into the next. */
  lemma FiveInside(e0: nat, e1: nat, e2: nat, e3: nat, e4: nat, x: seq<int>, d0: int, d1: int, d2: int, d3: int,
                   d4: int)
    requires e0 < 4 && e1 == Next(e0) && e2 == Next(e1) && e3 == Next(e2) && e4 == Next(e3)
    requires |x| == 5 && (x[0] + x[1] + x[2] + x[3] + x[4]) % 256 == 0
    requires Scaled(x[0], d0, e0) && Scaled(x[1], d1, e1) && Scaled(x[2], d2, e2) && Scaled(x[3], d3, e3)
             && Scaled(x[4], d4, e4)
    ensures d0 == 0 && d1 == 0 && d2 == 0 && d3 == 0 && d4 == 0
  {
    if e0 == 0 {
      Powers(d0, d1, d2, d3, d4, 0, 0, 0);
    } else if e0 == 1 {
      Powers(0, d0, d1, d2, d3, d4, 0, 0);
    } else if e0 == 2 {
      Powers(0, 0, d0, d1, d2, d3, d4, 0);
    } else if e0 == 3 {
      Powers(0, 0, 0, d0, d1, d2, d3, d4);
    }
  }

  lemma FiveWrapping(e0: nat, e1: nat, e2: nat, e3: nat, e4: nat, x: seq<int>, d0: int, d1: int, d2: int, d3: int,
                     d4: int)
    requires 4 <= e0 < 8 && e1 == Next(e0) && e2 == Next(e1) && e3 == Next(e2) && e4 == Next(e3)
    requires |x| == 5 && (x[0] + x[1] + x[2] + x[3] + x[4]) % 256 == 0
    requires Scaled(x[0], d0, e0) && Scaled(x[1], d1, e1) && Scaled(x[2], d2, e2) && Scaled(x[3], d3, e3)
             && Scaled(x[4], d4, e4)
    ensures d0 == 0 && d1 == 0 && d2 == 0 && d3 == 0 && d4 == 0
  {
    if e0 == 4 {
      Powers(d4, 0, 0, 0, d0, d1, d2, d3);
    } else if e0 == 5 {
      Powers(d3, d4, 0, 0, 0, d0, d1, d2);
    } else if e0 == 6 {
      Powers(d2, d3, d4, 0, 0, 0, d0, d1);
    } else if e0 == 7 {
      Powers(d1, d2, d3, d4, 0, 0, 0, d0);
    }
  }

  predicate ScaledAt(x: int, d: int, q: nat) {
    Scaled(x, d, q % 8)
  }

  lemma FiveDigitsAt(q: nat, x: seq<int>, d: seq<int>)
    requires |x| == 5 == |d| && (x[0] + x[1] + x[2] + x[3] + x[4]) % 256 == 0
    requires forall i :: 0 <= i < 5 ==> ScaledAt(x[i], d[i], q + i)
    ensures forall i :: 0 <= i < 5 ==> d[i] == 0
  {
    NextBits(q);
    assert ScaledAt(x[0], d[0], q + 0) && ScaledAt(x[1], d[1], q + 1) && ScaledAt(x[2], d[2], q + 2);
    assert ScaledAt(x[3], d[3], q + 3) && ScaledAt(x[4], d[4], q + 4);
    if q % 8 < 4 {
      FiveInside(q % 8, (q + 1) % 8, (q + 2) % 8, (q + 3) % 8, (q + 4) % 8, x, d[0], d[1], d[2], d[3], d[4]);
    } else {
      FiveWrapping(q % 8, (q + 1) % 8, (q + 2) % 8, (q + 3) % 8, (q + 4) % 8, x, d[0], d[1], d[2], d[3], d[4]);
    }
  }

  function Deltas(b: seq<bool>, q: nat, t: seq<bool>): (x: seq<int>)
    requires q + |t| <= |b|
    ensures |x| == |t|
  {
    seq(|t|, i requires 0 <= i < |t| => Delta(b[q + i], t[i], Weight(q + i)))
  }

  lemma DeltasSum(b: seq<bool>, q: nat, t: seq<bool>)
    requires |t| == 5 && q + 5 <= |b|
    ensures var x := Deltas(b, q, t); x[0] + x[1] + x[2] + x[3] + x[4] == Shift(b, q, t)
  {
    ShiftOfFive(b, q, t);
  }

  function Digits(b: seq<bool>, q: nat, t: seq<bool>): (d: seq<int>)
    requires q + |t| <= |b|
    ensures |d| == |t|
  {
    seq(|t|, i requires 0 <= i < |t| => Digit(b[q + i], t[i], q + i))
  }

  lemma DigitsScaled(b: seq<bool>, q: nat, t: seq<bool>, i: nat)
    requires q + |t| <= |b| && i < |t|
    ensures ScaledAt(Deltas(b, q, t)[i], Digits(b, q, t)[i], q + i)
    ensures Digits(b, q, t)[i] == 0 ==> t[i] == b[q + i]
  {
    WeightDigit(b[q + i], t[i], q + i);
  }

  /** Overwriting five consecutive bits with different ones never leaves the balance unchanged modulo 256:
      the five bits have five different weights, even when they straddle two bytes. */
  lemma NoCancellation(b: seq<bool>, q: nat, t: seq<bool>)
    requires |t| == 5 && q + 5 <= |b| && Shift(b, q, t) % 256 == 0
    ensures t == b[q..q + 5]
  {
    forall i | 0 <= i < 5
      ensures ScaledAt(Deltas(b, q, t)[i], Digits(b, q, t)[i], q + i)
      ensures Digits(b, q, t)[i] == 0 ==> t[i] == b[q + i]
    {
      DigitsScaled(b, q, t, i);
    }
    DeltasSum(b, q, t);
    FiveDigitsAt(q, Deltas(b, q, t), Digits(b, q, t));
  }

  lemma ShiftOfFive(b: seq<bool>, q: nat, t: seq<bool>)
    requires |t| == 5 && q + 5 <= |b|
    ensures Shift(b, q, t) ==
            Delta(b[q], t[0], Weight(q)) + Delta(b[q + 1], t[1], Weight(q + 1))
            + Delta(b[q + 2], t[2], Weight(q + 2)) + Delta(b[q + 3], t[3], Weight(q + 3))
            + Delta(b[q + 4], t[4], Weight(q + 4))
  {
    var u := t[1..];
    var v := u[1..];
    var w := v[1..];
    var x := w[1..];
    assert Shift(b, q + 5, x[1..]) == 0;
    assert Shift(b, q + 4, x) == Delta(b[q + 4], t[4], Weight(q + 4));
    assert Shift(b, q + 3, w) == Delta(b[q + 3], t[3], Weight(q + 3)) + Shift(b, q + 4, x);
    assert Shift(b, q + 2, v) == Delta(b[q + 2], t[2], Weight(q + 2)) + Shift(b, q + 3, w);
  }

  // ----- from bits to letters -----

  lemma {:induction false} GroupSplit(b: seq<bool>, w: nat, n: nat)
    requires w > 0 && w * n <= |b|
    ensures Group(b, w) == Group(b[..w * n], w) + Group(b[w * n..], w)
    decreases n
  {
    if n == 0 {
      assert b[..0] == [] && b[0..] == b;
    } else {
      TimesPred(w, n);
      var c := b[w..];
      GroupSplit(c, w, n - 1);
      assert b[..w * n][w..] == c[..w * (n - 1)] && b[w * n..] == c[w * (n - 1)..];
      assert b[..w * n][..w] == b[..w];
    }
  }

  lemma SpliceLater(a: seq<bool>, b: seq<bool>, q: nat, t: seq<bool>)
    requires q + |t| <= |b|
    ensures Splice(a + b, |a| + q, t) == a + Splice(b, q, t)
    ensures (a + b)[|a| + q..|a| + q + |t|] == b[q..q + |t|]
  {
    assert (a + b)[..|a| + q] == a + b[..q] && (a + b)[|a| + q + |t|..] == b[q + |t|..];
  }

  lemma SpliceFirst(a: seq<bool>, b: seq<bool>, t: seq<bool>)
    requires |t| == |a|
    ensures Splice(a + b, 0, t) == t + b && (a + b)[0..|a|] == a
  {
    assert (a + b)[|a|..] == b;
  }

  lemma {:induction false} ExplodeUpdate(vals: seq<nat>, i: nat, v: nat)
    requires i < |vals|
    ensures Explode(vals[i := v], 5) == Splice(Explode(vals, 5), 5 * i, ToBits(v, 5))
    ensures Explode(vals, 5)[5 * i..5 * i + 5] == ToBits(vals[i], 5)
  {
    var a, b := ToBits(vals[0], 5), Explode(vals[1..], 5);
    if i == 0 {
      assert vals[0 := v][1..] == vals[1..];
      SpliceFirst(a, b, ToBits(v, 5));
    } else {
      ExplodeUpdate(vals[1..], i - 1, v);
      assert vals[i := v][1..] == vals[1..][i - 1 := v];
      SpliceLater(a, b, 5 * (i - 1), ToBits(v, 5));
    }
  }

  predicate Checksummed(bytes: seq<Byte>) {
    |bytes| == 16 && Checksum(bytes[..15]) == bytes[15]
  }

  lemma SpelledLayout(vals: seq<nat>)
    requires 26 <= |vals| <= 27
    ensures var b := Explode(vals, 5); var bytes := Spelled(vals);
            && |b| >= 128 && |bytes| == 16
            && bytes[..15] == Group(b[..120], 8) && bytes[15] == FromBits(b[120..128])
  {
    var b := Explode(vals, 5);
    GroupLength(b, 8, 16);
    GroupSplit(b, 8, 15);
    GroupLength(b[..120], 8, 15);
    assert b[120..][..8] == b[120..128];
  }

  /** 26 or 27 letters spell 16 bytes, and their checksum holds exactly when the bits balance. */
  lemma BalanceIsChecksum(vals: seq<nat>)
    requires 26 <= |vals| <= 27
    ensures |Spelled(vals)| == 16
    ensures Checksummed(Spelled(vals)) <==> Balance(Explode(vals, 5)) % 256 == 0
  {
    SpelledLayout(vals);
    var b := Explode(vals, 5);
    ByteSumIsSum(b[..120]);
    assert Pow2(8) == 256;
    ByteBalance(ByteSum(b[..120]), FromBits(b[120..128]));
  }

  lemma ByteBalance(total: nat, check: nat)
    requires check < 256
    ensures total % 256 == check <==> (total - check) % 256 == 0
  {
  }

  /** Changing one of the first 25 letters of a checksummed text always breaks the checksum. */
  lemma LetterChangeDetected(vals: seq<nat>, i: nat, v: nat)
    requires 26 <= |vals| <= 27 && i < 25 && v < 32 && vals[i] < 32 && v != vals[i]
    requires Checksummed(Spelled(vals))
    ensures !Checksummed(Spelled(vals[i := v]))
  {
    BalanceIsChecksum(vals);
    BalanceIsChecksum(vals[i := v]);
    Unbalanced(vals, i, v);
  }

  lemma Unbalanced(vals: seq<nat>, i: nat, v: nat)
    requires 26 <= |vals| <= 27 && i < 25 && v < 32 && vals[i] < 32 && v != vals[i]
    requires Balance(Explode(vals, 5)) % 256 == 0
    ensures Balance(Explode(vals[i := v], 5)) % 256 != 0
  {
    var d := LetterDrift(vals, i, v);
    SumDivides(Balance(Explode(vals, 5)), d);
  }

  /** By how much another letter changes the balance: never by a multiple of 256. */
  lemma LetterDrift(vals: seq<nat>, i: nat, v: nat) returns (d: int)
    requires 26 <= |vals| <= 27 && i < 25 && v < 32 && vals[i] < 32 && v != vals[i]
    ensures Balance(Explode(vals[i := v], 5)) == Balance(Explode(vals, 5)) + d && d % 256 != 0
  {
    LetterBalance(vals, i, v);
    LetterShift(vals, i, v);
    d := Shift(Explode(vals, 5), 5 * i, ToBits(v, 5));
  }

  lemma LetterBalance(vals: seq<nat>, i: nat, v: nat)
    requires 26 <= |vals| <= 27 && i < 25
    ensures var b := Explode(vals, 5);
            Balance(Explode(vals[i := v], 5)) == Balance(b) + Shift(b, 5 * i, ToBits(v, 5))
  {
    ExplodeUpdate(vals, i, v);
    BalanceSplice(Explode(vals, 5), 5 * i, ToBits(v, 5));
  }

  lemma LetterShift(vals: seq<nat>, i: nat, v: nat)
    requires i < |vals| && v < 32 && vals[i] < 32 && v != vals[i]
    ensures Shift(Explode(vals, 5), 5 * i, ToBits(v, 5)) % 256 != 0
  {
    var b, t := Explode(vals, 5), ToBits(v, 5);
    if Shift(b, 5 * i, t) % 256 == 0 {
      NoCancellation(b, 5 * i, t);
      ExplodeUpdate(vals, i, v);
      SameNumeral(v, vals[i]);
      assert false;
    }
  }

  lemma SameNumeral(x: nat, y: nat)
    requires x < 32 && y < 32 && ToBits(x, 5) == ToBits(y, 5)
    ensures x == y
  {
    assert Pow2(5) == 32;
    FromToBits(x, 5);
    FromToBits(y, 5);
  }

  lemma SumDivides(x: int, y: int)
    requires x % 256 == 0
    ensures (x + y) % 256 == 0 ==> y % 256 == 0
  {
  }

  // ----- from letters to typed texts -----

  /** The letters of a typed text as the decoder sees them. */
  function Typed(s: string): string {
    Upper(StripDashes(s))
  }

  lemma StripSplit(s: string, k: nat, c: char)
    requires k < |s|
    ensures StripDashes(s[k := c]) == StripDashes(s[..k]) + StripDashes([c]) + StripDashes(s[k + 1..])
  {
    var d := s[k := c];
    assert d == (s[..k] + [c]) + s[k + 1..];
    StripConcat(s[..k] + [c], s[k + 1..]);
    StripConcat(s[..k], [c]);
  }

  /** Overtyping a letter changes that letter; overtyping it with a dash drops it. */
  lemma Overtype(s: string, k: nat, c: char)
    requires k < |s| && s[k] != '-'
    ensures var i := |StripDashes(s[..k])|; var t := Typed(s);
            && i < |t| && t[i] == UpperChar(s[k])
            && (c != '-' ==> Typed(s[k := c]) == t[i := UpperChar(c)])
            && (c == '-' ==> |Typed(s[k := c])| == |t| - 1)
  {
    StripSplit(s, k, c);
    StripSplit(s, k, s[k]);
    assert s[k := s[k]] == s;
    assert StripDashes([s[k]]) == [s[k]];
    assert c == '-' ==> StripDashes([c]) == [];
    assert c != '-' ==> StripDashes([c]) == [c];
    var i := |StripDashes(s[..k])|;
    assert StripDashes(s)[i] == s[k];
    assert c != '-' ==> Typed(s[k := c]) == Typed(s)[i := UpperChar(c)];
  }

  /** An accepted text has 26 or 27 letters and a valid checksum. */
  lemma AcceptedShape(s: string, secret: seq<Byte>, sign: Signer)
    requires Parse(s, secret, sign).Some?
    ensures AllLetters(Typed(s)) && 26 <= |Typed(s)| <= 27 && Checksummed(Spelled(Values(Typed(s))))
  {
    SixteenBytes(Typed(s));
  }

  lemma SixteenBytes(t: string)
    requires AllLetters(t)
    ensures |Spelled(Values(t))| == 16 <==> 26 <= |t| <= 27
  {
    GroupLength(Explode(Values(t), 5), 8, 5 * |t| / 8);
  }

  /** A text becomes a code exactly if it has 26 or 27 letters of the alphabet, dashes and case aside; it keeps its
      dashes. What it would decode to is checked only later. */
  lemma FromStrExact(s: string)
    ensures FromStr(s) ==
            if AllLetters(Typed(s)) && 26 <= |Typed(s)| <= 27 then Ok(Upper(s)) else Err(InvalidFormat)
  {
    if AllLetters(Typed(s)) {
      SixteenBytes(Typed(s));
    }
  }

  lemma ValuesUpdate(t: string, i: nat, c: char)
    requires AllLetters(t) && i < |t| && LetterVal(c).Some?
    ensures AllLetters(t[i := c]) && Values(t[i := c]) == Values(t)[i := LetterVal(c).value]
  {
  }

  lemma DistinctLetters(a: char, b: char)
    requires LetterVal(a).Some? && LetterVal(b).Some? && a != b
    ensures LetterVal(a) != LetterVal(b)
  {
  }

  /** ASCII characters but for the padding sign: those for which the modelled decoder reads as the program's does. */
  predicate Plain(c: char) {
    c < 128 as char && c != '='
  }

  /** Whatever plain character replaces one of the first 25 letters of an accepted text, the result is refused. */
  lemma SingleLetterErrorDetected(s: string, k: nat, c: char, secret: seq<Byte>, sign: Signer)
    requires Parse(s, secret, sign).Some?
    requires k < |s| && s[k] != '-' && |StripDashes(s[..k])| < 25 && UpperChar(c) != UpperChar(s[k])
    requires Plain(c) && (c == '-' ==> |Typed(s)| == 26)
    ensures Parse(s[k := c], secret, sign) == None
  {
    var i, t := |StripDashes(s[..k])|, Typed(s);
    AcceptedShape(s, secret, sign);
    Overtype(s, k, c);
    if Parse(s[k := c], secret, sign).Some? {
      AcceptedShape(s[k := c], secret, sign);
      var u := Typed(s[k := c]);
      assert u[i] == UpperChar(c);
      assert LetterVal(u[i]).Some?;
      ValuesUpdate(t, i, UpperChar(c));
      DistinctLetters(UpperChar(c), t[i]);
      LetterChangeDetected(Values(t), i, LetterVal(UpperChar(c)).value);
      assert false;
    }
  }

  /** The last character, unless a dash, is the last letter. */
  lemma LastOfText(text: string, k: nat)
    requires |text| == k + 1 && text[k] != '-'
    ensures StripDashes(text) == StripDashes(text[..k]) + [text[k]]
  {
    assert text == text[..k] + [text[k]];
    StripConcat(text[..k], [text[k]]);
    assert StripDashes([text[k]]) == [text[k]];
  }

  lemma BeforeLast(text: string, k: nat)
    requires |text| == 31 && |StripDashes(text)| == 26 && text[30] != '-' && k < 30 && text[k] != '-'
    ensures |StripDashes(text[..k])| < 25 && StripDashes(text)[|StripDashes(text[..k])|] == text[k]
  {
    LastOfText(text, 30);
    assert text[..30] == text[..k] + ([text[k]] + text[k + 1..30]);
    StripConcat(text[..k], [text[k]] + text[k + 1..30]);
    StripConcat([text[k]], text[k + 1..30]);
    assert StripDashes([text[k]]) == [text[k]];
    StripSplit(text, k, text[k]);
    assert text[k := text[k]] == text;
  }

  lemma UpperAt(s: string, i: nat)
    requires Upper(s) == s && i < |s|
    ensures UpperChar(s[i]) == s[i]
  {
    assert Upper(s)[i] == UpperChar(s[i]);
  }

  /** The same for printed codes: every position before the last character is protected. */
  lemma PrintedCodeErrorDetected(random: Random, days: Days, distributor: Distributor, secret: seq<Byte>, sign: Signer,
                                 k: nat, c: char)
    requires k < 30 && k % 6 != 5
    ensures var text := CodeText(random, days, distributor, secret, sign);
            |text| == 31 && (Plain(c) && UpperChar(c) != text[k] ==> Parse(text[k := c], secret, sign) == None)
  {
    var text := CodeText(random, days, distributor, secret, sign);
    CodeTextShape(random, days, distributor, secret, sign);
    CodeRoundTrip(random, days, distributor, secret, sign, text);
    BeforeLast(text, k);
    UpperAt(StripDashes(text), |StripDashes(text[..k])|);
    if Plain(c) && UpperChar(c) != text[k] {
      SingleLetterErrorDetected(text, k, c, secret, sign);
    }
  }

  // ----- the last letter -----

  lemma TopBits(v: nat)
    ensures ToBits(v, 5)[..3] == ToBits(v / 4, 3)
  {
    assert v / 2 / 2 == v / 4;
    assert ToBits(v, 5) == ToBits(v / 2, 4) + [v % 2 == 1];
    assert ToBits(v / 2, 4) == ToBits(v / 4, 3) + [v / 2 % 2 == 1];
  }

  lemma FromBitsInjective(a: seq<bool>, b: seq<bool>)
    requires |a| == |b| && FromBits(a) == FromBits(b)
    ensures a == b
  {
    ToFromBits(a);
    ToFromBits(b);
  }

  /** Only the three upper bits of the 26th letter are data: they all lie in the checksum byte. */
  lemma LastLetterBits(vals: seq<nat>, v: nat)
    requires |vals| == 26 && v < 32 && vals[25] < 32
    ensures var b, c := Explode(vals, 5), Explode(vals[25 := v], 5);
            && c[..120] == b[..120]
            && (c[..128] == b[..128] <==> v / 4 == vals[25] / 4)
            && (c[120..128] == b[120..128] <==> v / 4 == vals[25] / 4)
  {
    var b, c := Explode(vals, 5), Explode(vals[25 := v], 5);
    ExplodeUpdate(vals, 25, v);
    ExplodeUpdate(vals, 25, vals[25]);
    assert c[..125] == b[..125];
    TopBits(v);
    TopBits(vals[25]);
    assert c[125..128] == ToBits(v / 4, 3) && b[125..128] == ToBits(vals[25] / 4, 3) by {
      assert c[125..130] == ToBits(v, 5) && c[125..128] == c[125..130][..3];
      assert b[125..130] == ToBits(vals[25], 5) && b[125..128] == b[125..130][..3];
    }
    assert Pow2(3) == 8;
    FromToBits(v / 4, 3);
    FromToBits(vals[25] / 4, 3);
    assert c[..128] == c[..125] + c[125..128] && b[..128] == b[..125] + b[125..128];
    assert c[125..128] == c[120..128][5..] && b[125..128] == b[120..128][5..];
    assert c[120..128] == c[..128][120..] && b[120..128] == b[..128][120..];
  }

  lemma LastLetterChange(vals: seq<nat>, v: nat)
    requires |vals| == 26 && v < 32 && vals[25] < 32 && Checksummed(Spelled(vals))
    ensures v / 4 == vals[25] / 4 ==> Spelled(vals[25 := v]) == Spelled(vals)
    ensures v / 4 != vals[25] / 4 ==> !Checksummed(Spelled(vals[25 := v]))
  {
    var b, c := Explode(vals, 5), Explode(vals[25 := v], 5);
    LastLetterBits(vals, v);
    SpelledLayout(vals);
    SpelledLayout(vals[25 := v]);
    if v / 4 == vals[25] / 4 {
      var x, y := Spelled(vals), Spelled(vals[25 := v]);
      assert x == x[..15] + [x[15]] && y == y[..15] + [y[15]];
    } else if FromBits(c[120..128]) == FromBits(b[120..128]) {
      FromBitsInjective(c[120..128], b[120..128]);
      assert false;
    }
  }

  /** The last letter of a 26-letter text is protected exactly in its three upper bits: a replacement letter that
      shares them is accepted with the same meaning, any other is refused. */
  lemma LastLetterExact(s: string, k: nat, c: char, secret: seq<Byte>, sign: Signer)
    requires Parse(s, secret, sign).Some? && |Typed(s)| == 26
    requires k < |s| && s[k] != '-' && |StripDashes(s[..k])| == 25
    requires LetterVal(UpperChar(c)).Some?
    ensures LetterVal(UpperChar(s[k])).Some?
    ensures Parse(s[k := c], secret, sign) ==
            if LetterVal(UpperChar(c)).value / 4 == LetterVal(UpperChar(s[k])).value / 4
            then Parse(s, secret, sign) else None
  {
    var t := Typed(s);
    AcceptedShape(s, secret, sign);
    Overtype(s, k, c);
    assert LetterVal(t[25]).Some?;
    ValuesUpdate(t, 25, UpperChar(c));
    LastLetterChange(Values(t), LetterVal(UpperChar(c)).value);
  }

  /** So overtyping the end of a code with 'X', as the repository's own tampering test does, goes unnoticed
      whenever the code ends in 'U'. */
  lemma TamperingMissed(s: string, secret: seq<Byte>, sign: Signer)
    requires Parse(s, secret, sign).Some? && |Typed(s)| == 26
    requires s != [] && s[|s| - 1] == 'U'
    ensures Parse(s[|s| - 1 := 'X'], secret, sign) == Parse(s, secret, sign)
  {
    var k := |s| - 1;
    LastOfText(s, k);
    LastLetterExact(s, k, 'X', secret, sign);
  }

  lemma {:induction false} ExplodeLast(xs: seq<nat>, w: nat)
    requires xs != []
    ensures Explode(xs, w)[w * (|xs| - 1)..] == ToBits(xs[|xs| - 1], w)
    decreases |xs|
  {
    TimesPred(w, |xs|);
    if |xs| > 1 {
      ExplodeLast(xs[1..], w);
      TimesPred(w, |xs| - 1);
      assert Explode(xs, w) == ToBits(xs[0], w) + Explode(xs[1..], w);
    } else {
      assert Explode(xs, w) == ToBits(xs[0], w) + Explode(xs[1..], w);
      assert xs[1..] == [];
    }
  }

  lemma LastGroup(p: seq<bool>)
    requires |p| == 130
    ensures |Group(p, 5)| == 26 && Group(p, 5)[25] == FromBits(p[125..])
  {
    GroupLength(p, 5, 26);
    GroupSplit(p, 5, 25);
    GroupLength(p[..125], 5, 25);
    var tail := p[125..];
    assert tail[..5] == tail;
  }

  lemma LastFive(bytes: seq<Byte>)
    requires |bytes| == 16
    ensures var p := PadToFive(Explode(bytes, 8)); |p| == 130 && FromBits(p[125..]) == 4 * (bytes[15] % 8)
  {
    var b := Explode(bytes, 8);
    var p := PadToFive(b);
    assert p == b + [false, false];
    ExplodeLast(bytes, 8);
    var low := ToBits(bytes[15], 8)[5..];
    assert p[125..] == low + [false, false];
    LowBits(bytes[15]);
    TwoZeros(low);
  }

  /** The last letter of a printed code shows the low three bits of the checksum, followed by two zero bits. */
  lemma LastLetterOfCode(bytes: seq<Byte>)
    requires |bytes| == 16
    ensures |Encode(bytes)| == 26 && Encode(bytes)[25] == Letter(4 * (bytes[15] % 8))
  {
    LastFive(bytes);
    LastGroup(PadToFive(Explode(bytes, 8)));
  }

  lemma LowBits(x: nat)
    ensures FromBits(ToBits(x, 8)[5..]) == x % 8
  {
    var b := ToBits(x, 8);
    assert ToBits(x, 8) == ToBits(x / 2, 7) + [x % 2 == 1];
    assert ToBits(x / 2, 7) == ToBits(x / 2 / 2, 6) + [x / 2 % 2 == 1];
    assert ToBits(x / 2 / 2, 6) == ToBits(x / 2 / 2 / 2, 5) + [x / 2 / 2 % 2 == 1];
    var low := b[5..];
    assert low == [x / 2 / 2 % 2 == 1, x / 2 % 2 == 1, x % 2 == 1];
    assert low[..2] == [x / 2 / 2 % 2 == 1, x / 2 % 2 == 1] && low[..2][..1] == [x / 2 / 2 % 2 == 1];
    assert low[..2][..1][..0] == [];
    assert FromBits(low[..2][..1]) == x / 2 / 2 % 2;
    assert FromBits(low[..2]) == 2 * (x / 2 / 2 % 2) + x / 2 % 2;
  }

  lemma TwoZeros(b: seq<bool>)
    ensures FromBits(b + [false, false]) == 4 * FromBits(b)
  {
    var c := b + [false, false];
    assert c[..|c| - 1] == b + [false] && (b + [false])[..|b|] == b;
    assert FromBits(b + [false]) == 2 * FromBits(b);
  }

  lemma LetterQuarter(x: nat)
    requires x < 8
    ensures LetterVal(UpperChar(Letter(4 * x))) == Some(4 * x) && Letter(4 * x) != '-' && 4 * x / 4 == x
    ensures LetterVal(UpperChar('X')) == Some(23)
    ensures Letter(4 * x) == 'U' <==> x == 5
  {
    LetterRoundTrip(4 * x);
  }

  lemma EndOvertyped(text: string, x: nat, secret: seq<Byte>, sign: Signer)
    requires |text| == 31 && |StripDashes(text)| == 26 && text[30] != '-'
    requires x < 8 && StripDashes(text)[25] == Letter(4 * x)
    requires Parse(text, secret, sign).Some?
    ensures text[30] == 'U' <==> x == 5
    ensures Parse(text[30 := 'X'], secret, sign) == if x == 5 then Parse(text, secret, sign) else None
  {
    LastOfText(text, 30);
    LetterQuarter(x);
    TypedLength(text);
    LastLetterExact(text, 30, 'X', secret, sign);
  }

  lemma TypedLength(s: string)
    ensures |Typed(s)| == |StripDashes(s)|
  {
  }

  /** Overtyping the end of a printed code with 'X', as the repository's own test does, goes unnoticed exactly for the
      codes whose checksum is 5 modulo 8, which are the ones that end in 'U'. */
  lemma TamperedCodeAccepted(random: Random, days: Days, distributor: Distributor, secret: seq<Byte>, sign: Signer)
    ensures var text := CodeText(random, days, distributor, secret, sign);
            var check := Payload(random, days, distributor, secret, sign)[15];
            && |text| == 31 && (text[30] == 'U' <==> check % 8 == 5)
            && Parse(text[30 := 'X'], secret, sign) == if check % 8 == 5 then Some((days, distributor)) else None
  {
    var text := CodeText(random, days, distributor, secret, sign);
    var p := Payload(random, days, distributor, secret, sign);
    CodeTextShape(random, days, distributor, secret, sign);
    CodeRoundTrip(random, days, distributor, secret, sign, text);
    LastLetterOfCode(p);
    EndOvertyped(text, p[15] % 8, secret, sign);
  }

  function ZeroSigner(): Signer {
    (data, key) => seq(32, _ => 0)
  }

  /** One such code. */
  lemma TamperedCodeExample(secret: seq<Byte>)
    ensures Payload([5, 0, 0, 0, 0, 0], 0, [0, 0, 0, 0], secret, ZeroSigner())[15] == 5
  {
    var p := Payload([5, 0, 0, 0, 0, 0], 0, [0, 0, 0, 0], secret, ZeroSigner());
    assert p[..15][1..] == seq(14, _ => 0);
    ZeroSum(14);
  }

  lemma {:induction false} ZeroSum(n: nat)
    ensures Sum(seq(n, _ => 0)) == 0
  {
    if n == 0 {
    } else {
      ZeroSum(n - 1);
      assert seq(n, _ => 0)[1..] == seq(n - 1, _ => 0);
    }
  }
}
