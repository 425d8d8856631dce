/** Base 32 without padding: sections 3.2 and 6 of RFC 4648, for byte strings of any length. */
module Base32 {
  import opened Options
  import opened Bits

  type Byte = x: nat | x < 256

  const ALPHABET: string := "ABCDEFGHIJKLMNOPQRSTUVWXYZ234567"

  function Letter(v: nat): char
    requires v < 32
  {
    ALPHABET[v]
  }

  function LetterVal(c: char): (r: Option<nat>)
    ensures r.Some? ==> r.value < 32
  {
    if 'A' <= c <= 'Z' then Some(c as int - 'A' as int)
    else if '2' <= c <= '7' then Some(c as int - '2' as int + 26)
    else None
  }

  lemma LetterRoundTrip(v: nat)
    requires v < 32
    ensures LetterVal(Letter(v)) == Some(v)
    ensures Letter(v) != '-'
  {
  }

  function Zeros(n: nat): seq<bool> {
    seq(n, _ => false)
  }

  /** Fill the last five-bit group with zeros. */
  function PadToFive(b: seq<bool>): seq<bool> {
    b + Zeros((5 - |b| % 5) % 5)
  }

  function Letters(vals: seq<nat>): (s: string)
    requires forall i :: 0 <= i < |vals| ==> vals[i] < 32
    ensures |s| == |vals|
  {
    seq(|vals|, i requires 0 <= i < |vals| => Letter(vals[i]))
  }

  predicate AllLetters(s: string) {
    forall i :: 0 <= i < |s| ==> LetterVal(s[i]).Some?
  }

  function Values(s: string): (vals: seq<nat>)
    requires AllLetters(s)
    ensures |vals| == |s| && forall i :: 0 <= i < |s| ==> vals[i] < 32
  {
    seq(|s|, i requires 0 <= i < |s| => LetterVal(s[i]).value)
  }

  function Encode(bytes: seq<Byte>): string {
    assert Pow2(5) == 32;
    Letters(Group(PadToFive(Explode(bytes, 8)), 5))
  }

  /** The bytes that a sequence of letter values spells; bits short of a byte are dropped. */
  function Spelled(vals: seq<nat>): (bytes: seq<Byte>) {
    assert Pow2(8) == 256;
    Group(Explode(vals, 5), 8)
  }

  function Decode(s: string): Option<seq<Byte>> {
    if AllLetters(s) then Some(Spelled(Values(s))) else None
  }

  lemma {:induction false} GroupDropsTail(b: seq<bool>, z: seq<bool>, w: nat, n: nat)
    requires w > 0 && |b| == w * n && |z| < w
    ensures Group(b + z, w) == Group(b, w)
    decreases n
  {
    if n == 0 {
    } else {
      TimesPred(w, n);
      assert (b + z)[..w] == b[..w] && (b + z)[w..] == b[w..] + z;
      GroupDropsTail(b[w..], z, w, n - 1);
    }
  }

  lemma ValuesOfLetters(vals: seq<nat>)
    requires forall i :: 0 <= i < |vals| ==> vals[i] < 32
    ensures AllLetters(Letters(vals)) && Values(Letters(vals)) == vals
    ensures forall i :: 0 <= i < |vals| ==> Letters(vals)[i] != '-'
  {
    forall i | 0 <= i < |vals|
      ensures LetterVal(Letters(vals)[i]) == Some(vals[i]) && Letters(vals)[i] != '-'
    {
      LetterRoundTrip(vals[i]);
    }
  }

  lemma PadLength(b: seq<bool>)
    ensures |PadToFive(b)| == 5 * ((|b| + 4) / 5)
  {
  }

  /** Decoding undoes encoding, whatever the number of bytes. */
  lemma DecodeEncode(bytes: seq<Byte>)
    ensures Decode(Encode(bytes)) == Some(bytes)
    ensures |Encode(bytes)| == (8 * |bytes| + 4) / 5
  {
    var p := PadToFive(Explode(bytes, 8));
    assert Pow2(5) == 32;
    ValuesOfLetters(Group(p, 5));
    PaddedGroups(bytes);
  }

  lemma PaddedGroups(bytes: seq<Byte>)
    ensures var p := PadToFive(Explode(bytes, 8));
            |Group(p, 5)| == (8 * |bytes| + 4) / 5 && Explode(Group(p, 5), 5) == p && Group(p, 8) == bytes
  {
    var b := Explode(bytes, 8);
    var p := PadToFive(b);
    var n := (|b| + 4) / 5;
    PadLength(b);
    GroupLength(p, 5, n);
    ExplodeGroup(p, 5, n);
    PaddedBytes(bytes);
  }

  lemma PaddedBytes(bytes: seq<Byte>)
    ensures Group(PadToFive(Explode(bytes, 8)), 8) == bytes
  {
    var b := Explode(bytes, 8);
    assert Pow2(8) == 256;
    GroupDropsTail(b, Zeros((5 - |b| % 5) % 5), 8, |bytes|);
    GroupExplode(bytes, 8);
  }
}
